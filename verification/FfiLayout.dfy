/** Where every byte of a value written for the other side goes, and what is read from any bytes:
    said by position, without the functions that write and read. */
module FfiLayout {
  import opened Bytes
  import opened Desktop
  import opened Ffi
  import opened Utf16
  import opened Wrappers

  /** The 32-bit number in the four bytes from position i on, the most significant first. */
  function Word32(b: seq<byte>, i: nat): int
    requires i + 4 <= |b|
  {
    0x100_0000 * b[i] as int + 0x1_0000 * b[i + 1] as int + 0x100 * b[i + 2] as int + b[i + 3] as int
  }

  lemma IntLayout(n: int)
    requires 0 <= n <= INT_MAX
    ensures Word32(IntBytes(n), 0) == n
  {
    BigEndian16Layout(n / 0x1_0000, [0, 0]);
    BigEndian16Layout(n % 0x1_0000, [0, 0]);
  }

  /** Any four bytes are a number in two's complement; fewer are too few. */
  lemma AnyIntIsRead(s: seq<byte>)
    ensures ParseInt(s) ==
      if |s| < 4 then Err(Underflow)
      else Ok((if Word32(s, 0) < 0x8000_0000 then Word32(s, 0) else Word32(s, 0) - 0x1_0000_0000, s[4..]))
  {
    if |s| >= 4 {
      var b := s[..4];
      BigEndian16Layout(0, b[..2]);
      BigEndian16Layout(0, b[2..]);
    }
  }

  /** A length in bytes, then the text in UTF-8. */
  ghost predicate IsText(b: seq<byte>, s: Units) {
    && ToUtf8(s).Some? && |b| == 4 + |ToUtf8(s).value|
    && Word32(b, 0) == |ToUtf8(s).value| && b[4..] == ToUtf8(s).value
  }

  lemma StringLayout(s: Units)
    requires ToUtf8(s).Some? && |ToUtf8(s).value| <= INT_MAX
    ensures IsText(StringBytes(s), s)
  {
    IntLayout(|ToUtf8(s).value|);
  }

  /** Two texts, a byte for the flag, a text; i and j are where the second and the flag start. */
  ghost predicate IsInfo(b: seq<byte>, info: ServerInfo, i: nat, j: nat) {
    && i <= j < |b|
    && IsText(b[..i], info.id) && IsText(b[i..j], info.name)
    && b[j] == (if info.connected then 1 else 0) && IsText(b[j + 1..], info.enrolledAt)
  }

  lemma InfoLayout(info: ServerInfo) returns (i: nat, j: nat)
    requires WellFormedInfo(info) && InfoSize(info) <= INT_MAX
    ensures IsInfo(InfoBytes(info), info, i, j)
  {
    StringFits(info.id);
    StringFits(info.name);
    StringFits(info.enrolledAt);
    StringLayout(info.id);
    StringLayout(info.name);
    StringLayout(info.enrolledAt);
    var a, b, c := StringBytes(info.id), StringBytes(info.name), StringBytes(info.enrolledAt);
    i, j := Split(a, b, BooleanByte(info.connected), c);
  }

  lemma Split(a: seq<byte>, b: seq<byte>, flag: byte, c: seq<byte>) returns (i: nat, j: nat)
    ensures var s := a + (b + ([flag] + c));
      i <= j < |s| && s[..i] == a && s[i..j] == b && s[j] == flag && s[j + 1..] == c
  {
    i, j := |a|, |a| + |b|;
    var s := a + (b + ([flag] + c));
    InThree(a, b, [flag] + c);
    assert s[j..] == [flag] + c;
    assert s[j + 1..] == s[j..][1..];
  }

  lemma InThree(a: seq<byte>, b: seq<byte>, c: seq<byte>)
    ensures var s := a + (b + c); s[..|a|] == a && s[|a|..|a| + |b|] == b && s[|a| + |b|..] == c
  {
  }

  /** What each kind of value is written as. */
  ghost predicate IsValue(b: seq<byte>, v: Value) {
    match v
    case OptionalString(None) => b == [0]
    case OptionalString(Some(s)) => |b| > 0 && b[0] == 1 && IsText(b[1..], s)
    case Server(info) => IsInfoSomehow(b, info)
    case Servers(infos) =>
      |b| >= 4 && Word32(b, 0) == |infos| && exists starts :: IsList(b[4..], infos, |infos|, starts)
    case Decision(Approved) => |b| == 4 && Word32(b, 0) == 1
    case Decision(Denied) => |b| == 4 && Word32(b, 0) == 2
    case Decision(Undecided) => |b| == 4 && Word32(b, 0) == 3
    case Exception(s) => |b| >= 4 && Word32(b, 0) == 1 && IsText(b[4..], s)
  }

  ghost predicate IsInfoSomehow(b: seq<byte>, info: ServerInfo) {
    exists i, j :: IsInfo(b, info, i, j)
  }

  ghost predicate Piece<T>(b: seq<byte>, item: T, from: nat, to: nat, writes: (seq<byte>, T) -> bool) {
    from <= to <= |b| && writes(b[from..to], item)
  }

  /** The first n items, one after another, each from its start to the next one's. */
  ghost predicate InPieces<T>(b: seq<byte>, items: seq<T>, n: nat, starts: seq<nat>,
                              writes: (seq<byte>, T) -> bool) {
    && n <= |items| && |starts| == n + 1 && starts[0] == 0 && starts[n] == |b|
    && forall i :: 0 <= i < n ==> Piece(b, items[i], starts[i], starts[i + 1], writes)
  }

  lemma OnePieceMore<T>(b: seq<byte>, items: seq<T>, n: nat, starts: seq<nat>, last: seq<byte>,
                        writes: (seq<byte>, T) -> bool)
    requires n < |items| && InPieces(b, items, n, starts, writes) && writes(last, items[n])
    ensures InPieces(b + last, items, n + 1, starts + [|b + last|], writes)
  {
    var more := starts + [|b + last|];
    forall i | 0 <= i < n + 1
      ensures Piece(b + last, items[i], more[i], more[i + 1], writes)
    {
      if i < n {
        assert Piece(b, items[i], starts[i], starts[i + 1], writes);
        assert (b + last)[starts[i]..starts[i + 1]] == b[starts[i]..starts[i + 1]];
      } else {
        assert (b + last)[|b|..|b + last|] == last;
      }
    }
  }

  ghost predicate IsList(b: seq<byte>, infos: seq<ServerInfo>, n: nat, starts: seq<nat>) {
    InPieces(b, infos, n, starts, IsInfoSomehow)
  }

  lemma InfoIsWritten(info: ServerInfo)
    requires WellFormedInfo(info) && InfoSize(info) <= INT_MAX
    ensures IsInfoSomehow(InfoBytes(info), info)
  {
    var i, j := InfoLayout(info);
  }

  lemma {:induction false} ListLayout(infos: seq<ServerInfo>, n: nat) returns (starts: seq<nat>)
    requires n <= |infos| && AllWellFormed(infos, n) && InfosSize(infos, n) <= INT_MAX
    ensures IsList(InfosBytes(infos, n), infos, n, starts)
  {
    if n == 0 {
      starts := [0];
    } else {
      var before := ListLayout(infos, n - 1);
      InfoIsWritten(infos[n - 1]);
      OnePieceMore(InfosBytes(infos, n - 1), infos, n - 1, before, InfoBytes(infos[n - 1]), IsInfoSomehow);
      InfosBytesStep(infos, n - 1);
      starts := before + [|InfosBytes(infos, n)|];
    }
  }

  lemma WrittenLayout(v: Value)
    requires WellFormed(v) && AllocationSize(v) <= INT_MAX
    ensures IsValue(Written(v), v)
  {
    match v {
      case OptionalString(Some(s)) => StringFits(s); StringLayout(s);
      case Server(info) => var i, j := InfoLayout(info);
      case Servers(infos) => ServersLayout(infos);
      case Decision(d) => IntLayout(Ordinal(d) + 1);
      case Exception(s) => StringFits(s); StringLayout(s); IntLayout(1);
      case _ =>
    }
  }

  lemma ServersLayout(infos: seq<ServerInfo>)
    requires AllWellFormed(infos, |infos|) && 4 + InfosSize(infos, |infos|) <= INT_MAX
    ensures IsValue(ServersBytes(infos), Servers(infos))
  {
    ListFits(infos, |infos|);
    IntLayout(|infos|);
    var starts := ListLayout(infos, |infos|);
    CountThenList(IntBytes(|infos|), InfosBytes(infos, |infos|), infos, starts);
  }

  lemma CountThenList(count: seq<byte>, list: seq<byte>, infos: seq<ServerInfo>, starts: seq<nat>)
    requires |count| == 4 && Word32(count, 0) == |infos| && IsList(list, infos, |infos|, starts)
    ensures IsValue(count + list, Servers(infos))
  {
    assert (count + list)[4..] == list;
  }

  /** What is allocated: three bytes for each unit of a text, four for a number, one for a flag. */
  lemma Allocated(v: Value)
    ensures AllocationSize(v) == match v
      case OptionalString(None) => 1
      case OptionalString(Some(s)) => 5 + 3 * |s|
      case Server(info) => 13 + 3 * (|info.id| + |info.name| + |info.enrolledAt|)
      case Servers(infos) => 4 + 13 * |infos| + 3 * UnitsIn(infos, |infos|)
      case Decision(_) => 4
      case Exception(message) => 8 + 3 * |message|
  {
    if v.Servers? {
      AllocatedForList(v.infos, |v.infos|);
    }
  }

  function UnitsIn(infos: seq<ServerInfo>, n: nat): nat
    requires n <= |infos|
  {
    if n == 0 then 0
    else UnitsIn(infos, n - 1) + |infos[n - 1].id| + |infos[n - 1].name| + |infos[n - 1].enrolledAt|
  }

  lemma {:induction false} AllocatedForList(infos: seq<ServerInfo>, n: nat)
    requires n <= |infos|
    ensures InfosSize(infos, n) == 13 * n + 3 * UnitsIn(infos, n)
  {
    if n > 0 {
      AllocatedForList(infos, n - 1);
    }
  }

  /** Any byte but 0 reads as true, and as "there is a text". */
  lemma AnyFlagIsRead(flag: byte, rest: seq<byte>)
    ensures ParseBoolean([flag] + rest) == Ok((flag != 0, rest))
    ensures flag != 0 ==>
      Parse(KOptionalString, [flag] + rest)
      == match ParseString(rest)
         case Ok((text, more)) => Ok((OptionalString(Some(text)), more))
         case Err(e) => Err(e)
    ensures flag == 0 ==> Parse(KOptionalString, [flag] + rest) == Ok((OptionalString(None), rest))
  {
    TakeOf([flag], rest);
  }

  /** Numbers outside the list of a type's cases are refused. */
  lemma OtherVariantIsRefused(s: seq<byte>)
    requires |s| >= 4
    ensures !(1 <= Word32(s, 0) <= 3) ==> Parse(KDecision, s) == Err(InvalidVariant)
    ensures Word32(s, 0) != 1 ==> Parse(KException, s) == Err(InvalidVariant)
  {
    AnyIntIsRead(s);
  }

  /** A size with the sign bit set is refused, for a text and for a list. */
  lemma NegativeSizeIsRefused(s: seq<byte>)
    requires |s| >= 4 && Word32(s, 0) >= 0x8000_0000
    ensures ParseString(s) == Err(NegativeSize) && ParseServers(s) == Err(NegativeSize)
  {
    AnyIntIsRead(s);
  }

  /** A text that is announced longer than the buffer, or is not UTF-8, is refused. */
  lemma BadTextIsRefused(s: seq<byte>)
    requires |s| >= 4 && Word32(s, 0) < 0x8000_0000
    ensures Word32(s, 0) > |s| - 4 ==> ParseString(s) == Err(Underflow)
    ensures Word32(s, 0) <= |s| - 4 && FromUtf8(s[4..4 + Word32(s, 0)]).None? ==> ParseString(s) == Err(MalformedUtf8)
  {
    AnyIntIsRead(s);
    if Word32(s, 0) <= |s| - 4 {
      assert s[4..][..Word32(s, 0)] == s[4..4 + Word32(s, 0)];
    }
  }
}
