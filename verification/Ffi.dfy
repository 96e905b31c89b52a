/** The converters that carry values between Kotlin and Rust in byte buffers: how much is
    allocated, what is written, and what is read back. */
module Ffi {
  import opened Bytes
  import opened Desktop
  import opened Utf16
  import opened Wrappers

  const INT_MAX := 0x7FFF_FFFF

  datatype ServerInfo = ServerInfo(id: Units, name: Units, connected: bool, enrolledAt: Units)

  /** The types that cross the boundary in a buffer, one case per converter. */
  datatype Value =
    | OptionalString(text: Option<Units>)
    | Server(info: ServerInfo)
    | Servers(infos: seq<ServerInfo>)
    | Decision(decision: ConfirmDecision)
    | Exception(message: Units)

  datatype Kind = KOptionalString | KServer | KServers | KDecision | KException

  function KindOf(v: Value): Kind {
    match v
    case OptionalString(_) => KOptionalString
    case Server(_) => KServer
    case Servers(_) => KServers
    case Decision(_) => KDecision
    case Exception(_) => KException
  }

  datatype FfiError = LoneSurrogate | Underflow | NegativeSize | MalformedUtf8 | InvalidVariant | JunkRemaining

  // ---------------------------------------------------------------------------
  // Allocation sizes
  // ---------------------------------------------------------------------------

  function StringSize(s: Units): nat {
    4 + |s| * 3
  }

  function InfoSize(info: ServerInfo): nat {
    StringSize(info.id) + StringSize(info.name) + 1 + StringSize(info.enrolledAt)
  }

  /** Of the first n entries. */
  function InfosSize(infos: seq<ServerInfo>, n: nat): nat
    requires n <= |infos|
  {
    if n == 0 then 0 else InfosSize(infos, n - 1) + InfoSize(infos[n - 1])
  }

  function AllocationSize(v: Value): nat {
    match v
    case OptionalString(None) => 1
    case OptionalString(Some(s)) => 1 + StringSize(s)
    case Server(info) => InfoSize(info)
    case Servers(infos) => 4 + InfosSize(infos, |infos|)
    case Decision(_) => 4
    case Exception(message) => 4 + StringSize(message)
  }

  // ---------------------------------------------------------------------------
  // What is written
  // ---------------------------------------------------------------------------

  predicate WellFormedInfo(info: ServerInfo) {
    ToUtf8(info.id).Some? && ToUtf8(info.name).Some? && ToUtf8(info.enrolledAt).Some?
  }

  /** No string has a lone surrogate. */
  ghost predicate WellFormed(v: Value) {
    match v
    case OptionalString(text) => text.Some? ==> ToUtf8(text.value).Some?
    case Server(info) => WellFormedInfo(info)
    case Servers(infos) => AllWellFormed(infos, |infos|)
    case Decision(_) => true
    case Exception(message) => ToUtf8(message).Some?
  }

  /** Big-endian bytes of an Int that is not negative. */
  function IntBytes(n: int): (b: seq<byte>)
    requires 0 <= n <= INT_MAX
    ensures |b| == 4
  {
    BigEndian16(n / 0x1_0000) + BigEndian16(n % 0x1_0000)
  }

  function StringBytes(s: Units): seq<byte>
    requires ToUtf8(s).Some? && |ToUtf8(s).value| <= INT_MAX
  {
    IntBytes(|ToUtf8(s).value|) + ToUtf8(s).value
  }

  function BooleanByte(b: bool): byte {
    if b then 1 else 0
  }

  /** Utf-8 of strings that fit their allocation fits an Int. */
  lemma StringFits(s: Units)
    requires ToUtf8(s).Some? && StringSize(s) <= INT_MAX
    ensures |ToUtf8(s).value| <= INT_MAX && |StringBytes(s)| <= StringSize(s)
  {
    ThreeBytesPerUnit(s);
  }

  ghost function InfoBytes(info: ServerInfo): (b: seq<byte>)
    requires WellFormedInfo(info) && InfoSize(info) <= INT_MAX
    ensures |b| <= InfoSize(info)
  {
    StringFits(info.id);
    StringFits(info.name);
    StringFits(info.enrolledAt);
    StringBytes(info.id) + (StringBytes(info.name) + ([BooleanByte(info.connected)] + StringBytes(info.enrolledAt)))
  }

  /** Of the first n entries. */
  predicate AllWellFormed(infos: seq<ServerInfo>, n: nat)
    requires n <= |infos|
  {
    n > 0 ==> AllWellFormed(infos, n - 1) && WellFormedInfo(infos[n - 1])
  }

  lemma {:induction false} AllWellFormedAt(infos: seq<ServerInfo>, i: nat, n: nat)
    requires i <= n <= |infos| && AllWellFormed(infos, n)
    ensures AllWellFormed(infos, i) && (i < n ==> WellFormedInfo(infos[i]))
  {
    if i < n {
      AllWellFormedAt(infos, i, n - 1);
    }
  }

  ghost function InfosBytes(infos: seq<ServerInfo>, n: nat): (b: seq<byte>)
    requires n <= |infos| && AllWellFormed(infos, n) && InfosSize(infos, n) <= INT_MAX
    ensures |b| <= InfosSize(infos, n)
  {
    if n == 0 then [] else InfosBytes(infos, n - 1) + InfoBytes(infos[n - 1])
  }

  function Ordinal(d: ConfirmDecision): int {
    match d case Approved => 0 case Denied => 1 case Undecided => 2
  }

  /** The written form. It never needs more than was allocated. */
  ghost function Written(v: Value): (b: seq<byte>)
    requires WellFormed(v) && AllocationSize(v) <= INT_MAX
    ensures |b| <= AllocationSize(v)
  {
    match v
    case OptionalString(None) => [0]
    case OptionalString(Some(s)) => StringFits(s); [1] + StringBytes(s)
    case Server(info) => InfoBytes(info)
    case Servers(infos) => ServersBytes(infos)
    case Decision(d) => IntBytes(Ordinal(d) + 1)
    case Exception(message) => StringFits(message); IntBytes(1) + StringBytes(message)
  }

  ghost function ServersBytes(infos: seq<ServerInfo>): (b: seq<byte>)
    requires AllWellFormed(infos, |infos|)
    requires 4 + InfosSize(infos, |infos|) <= INT_MAX
    ensures |b| <= 4 + InfosSize(infos, |infos|)
  {
    ListFits(infos, |infos|);
    IntBytes(|infos|) + InfosBytes(infos, |infos|)
  }

  lemma {:induction false} ListFits(infos: seq<ServerInfo>, n: nat)
    requires n <= |infos|
    ensures n <= InfosSize(infos, n)
  {
    if n > 0 {
      ListFits(infos, n - 1);
    }
  }

  lemma {:induction false} InfosSizeMonotone(infos: seq<ServerInfo>, m: nat, n: nat)
    requires m <= n <= |infos|
    ensures InfosSize(infos, m) <= InfosSize(infos, n)
  {
    if m < n {
      InfosSizeMonotone(infos, m, n - 1);
    }
  }

  // ---------------------------------------------------------------------------
  // What is read
  // ---------------------------------------------------------------------------

  type Parsed<T> = Result<(T, seq<byte>), FfiError>

  function TakeBytes(n: nat, s: seq<byte>): (r: Parsed<seq<byte>>)
    ensures r.Ok? ==> |r.value.0| == n
  {
    if |s| < n then Err(Underflow) else Ok((s[..n], s[n..]))
  }

  /** A signed 32-bit number. */
  function ParseInt(s: seq<byte>): Parsed<int> {
    var (b, rest) :- TakeBytes(4, s);
    var n := FromBigEndian16(b[..2]) as int * 0x1_0000 + FromBigEndian16(b[2..]) as int;
    Ok((if n > INT_MAX then n - 0x1_0000_0000 else n, rest))
  }

  function ParseString(s: seq<byte>): Parsed<Units> {
    var (len, s1) :- ParseInt(s);
    if len < 0 then Err(NegativeSize)
    else
      var (b, s2) :- TakeBytes(len, s1);
      match FromUtf8(b)
      case Some(text) => Ok((text, s2))
      case None => Err(MalformedUtf8)
  }

  function ParseBoolean(s: seq<byte>): Parsed<bool> {
    var (b, rest) :- TakeBytes(1, s);
    Ok((b[0] != 0, rest))
  }

  function ParseInfo(s: seq<byte>): Parsed<ServerInfo> {
    var (id, s1) :- ParseString(s);
    var (name, s2) :- ParseString(s1);
    var (connected, s3) :- ParseBoolean(s2);
    var (enrolledAt, s4) :- ParseString(s3);
    Ok((ServerInfo(id, name, connected, enrolledAt), s4))
  }

  /** n items, one after another. */
  function Repeat<T>(parse: seq<byte> -> Parsed<T>, n: nat, s: seq<byte>): Parsed<seq<T>> {
    if n == 0 then Ok(([], s))
    else
      var (init, s1) :- Repeat(parse, n - 1, s);
      var (item, s2) :- parse(s1);
      Ok((init + [item], s2))
  }

  lemma RepeatStep<T>(parse: seq<byte> -> Parsed<T>, n: nat, s: seq<byte>, items: seq<T>, s1: seq<byte>)
    requires Repeat(parse, n, s) == Ok((items, s1))
    ensures Repeat(parse, n + 1, s) == match parse(s1) {
        case Ok((item, s2)) => Ok((items + [item], s2))
        case Err(e) => Err(e)
      }
  {
  }

  lemma {:induction false} RepeatFails<T>(parse: seq<byte> -> Parsed<T>, m: nat, n: nat, s: seq<byte>)
    requires m <= n && Repeat(parse, m, s).Err?
    ensures Repeat(parse, n, s) == Repeat(parse, m, s)
  {
    if m < n {
      RepeatFails(parse, m, n - 1, s);
    }
  }

  function ParseServers(s: seq<byte>): Parsed<seq<ServerInfo>> {
    var (n, s1) :- ParseInt(s);
    if n < 0 then Err(NegativeSize) else Repeat(ParseInfo, n, s1)
  }

  function Parse(kind: Kind, s: seq<byte>): Parsed<Value> {
    match kind
    case KOptionalString =>
      var (tag, s1) :- TakeBytes(1, s);
      if tag[0] == 0 then Ok((OptionalString(None), s1))
      else
        var (text, s2) :- ParseString(s1);
        Ok((OptionalString(Some(text)), s2))
    case KServer =>
      var (info, s1) :- ParseInfo(s);
      Ok((Server(info), s1))
    case KServers =>
      var (infos, s1) :- ParseServers(s);
      Ok((Servers(infos), s1))
    case KDecision =>
      var (n, s1) :- ParseInt(s);
      if n == 1 then Ok((Decision(Approved), s1))
      else if n == 2 then Ok((Decision(Denied), s1))
      else if n == 3 then Ok((Decision(Undecided), s1))
      else Err(InvalidVariant)
    case KException =>
      var (n, s1) :- ParseInt(s);
      if n == 1 then
        var (message, s2) :- ParseString(s1);
        Ok((Exception(message), s2))
      else Err(InvalidVariant)
  }

  /** The whole buffer must be used up. */
  function Lift(kind: Kind, s: seq<byte>): Result<Value, FfiError> {
    match Parse(kind, s)
    case Ok((v, rest)) => if rest == [] then Ok(v) else Err(JunkRemaining)
    case Err(e) => Err(e)
  }

  // ---------------------------------------------------------------------------
  // Reading what was written
  // ---------------------------------------------------------------------------

  lemma TakeOf(a: seq<byte>, rest: seq<byte>)
    ensures TakeBytes(|a|, a + rest) == Ok((a, rest))
  {
    assert (a + rest)[..|a|] == a && (a + rest)[|a|..] == rest;
  }

  lemma ParseIntOf(n: int, rest: seq<byte>)
    requires 0 <= n <= INT_MAX
    ensures ParseInt(IntBytes(n) + rest) == Ok((n, rest))
  {
    var b := IntBytes(n);
    TakeOf(b, rest);
    assert b[..2] == BigEndian16(n / 0x1_0000) && b[2..] == BigEndian16(n % 0x1_0000);
    BigEndian16RoundTrip(n / 0x1_0000, b[..2]);
    BigEndian16RoundTrip(n % 0x1_0000, b[2..]);
  }

  lemma ParseStringOf(s: Units, rest: seq<byte>)
    requires ToUtf8(s).Some? && |ToUtf8(s).value| <= INT_MAX
    ensures ParseString(StringBytes(s) + rest) == Ok((s, rest))
  {
    var b := ToUtf8(s).value;
    assert StringBytes(s) + rest == IntBytes(|b|) + (b + rest);
    ParseIntOf(|b|, b + rest);
    TakeOf(b, rest);
    Utf8RoundTrip(s);
  }

  lemma ParseInfoOf(info: ServerInfo, rest: seq<byte>)
    requires WellFormedInfo(info) && InfoSize(info) <= INT_MAX
    ensures ParseInfo(InfoBytes(info) + rest) == Ok((info, rest))
  {
    StringFits(info.id);
    StringFits(info.name);
    StringFits(info.enrolledAt);
    var s3 := StringBytes(info.enrolledAt) + rest;
    var s2 := [BooleanByte(info.connected)] + s3;
    var s1 := StringBytes(info.name) + s2;
    assert InfoBytes(info) + rest == StringBytes(info.id) + s1;
    ParseStringOf(info.id, s1);
    ParseStringOf(info.name, s2);
    TakeOf([BooleanByte(info.connected)], s3);
    ParseStringOf(info.enrolledAt, rest);
  }

  /** Each part reads as its item, whatever follows. */
  ghost predicate ReadsBack<T>(parse: seq<byte> -> Parsed<T>, items: seq<T>, parts: seq<seq<byte>>) {
    && |parts| <= |items|
    && forall i, r :: 0 <= i < |parts| ==> parse(parts[i] + r) == Ok((items[i], r))
  }

  /** The prefixes are the parts joined one by one. */
  ghost predicate Accumulate(parts: seq<seq<byte>>, prefixes: seq<seq<byte>>) {
    && |prefixes| == |parts| + 1 && prefixes[0] == []
    && forall i :: 0 <= i < |parts| ==> prefixes[i + 1] == prefixes[i] + parts[i]
  }

  lemma OnePartMore<T>(parse: seq<byte> -> Parsed<T>, items: seq<T>, parts: seq<seq<byte>>, prefixes: seq<seq<byte>>,
                       part: seq<byte>)
    requires ReadsBack(parse, items, parts) && Accumulate(parts, prefixes) && |parts| < |items|
    requires forall r :: parse(part + r) == Ok((items[|parts|], r))
    ensures ReadsBack(parse, items, parts + [part])
    ensures Accumulate(parts + [part], prefixes + [prefixes[|parts|] + part])
  {
  }

  lemma {:induction false} RepeatOf<T>(parse: seq<byte> -> Parsed<T>, items: seq<T>, parts: seq<seq<byte>>,
                                       prefixes: seq<seq<byte>>, n: nat, rest: seq<byte>)
    requires ReadsBack(parse, items, parts) && Accumulate(parts, prefixes) && n <= |parts|
    ensures Repeat(parse, n, prefixes[n] + rest) == Ok((items[..n], rest))
  {
    if n == 0 {
      assert prefixes[0] + rest == rest;
    } else {
      assert prefixes[n - 1 + 1] == prefixes[n - 1] + parts[n - 1];
      ConcatAssociative(prefixes[n - 1], parts[n - 1], rest);
      RepeatOf(parse, items, parts, prefixes, n - 1, parts[n - 1] + rest);
      assert items[..n] == items[..n - 1] + [items[n - 1]];
    }
  }

  lemma {:induction false} SizesFit(infos: seq<ServerInfo>, i: nat)
    requires i <= |infos| && InfosSize(infos, |infos|) <= INT_MAX
    ensures InfosSize(infos, i) <= INT_MAX
    ensures i < |infos| ==> InfosSize(infos, i) + InfoSize(infos[i]) <= InfosSize(infos, |infos|)
  {
    InfosSizeMonotone(infos, i, |infos|);
    if i < |infos| {
      InfosSizeMonotone(infos, i + 1, |infos|);
    }
  }

  lemma InfosBytesStep(infos: seq<ServerInfo>, i: nat)
    requires i < |infos| && AllWellFormed(infos, i + 1) && InfosSize(infos, i + 1) <= INT_MAX
    ensures InfosBytes(infos, i + 1) == InfosBytes(infos, i) + InfoBytes(infos[i])
  {
  }

  lemma ReadableInfo(info: ServerInfo) returns (part: seq<byte>)
    requires WellFormedInfo(info) && InfoSize(info) <= INT_MAX
    ensures part == InfoBytes(info)
    ensures forall r :: ParseInfo(part + r) == Ok((info, r))
  {
    part := InfoBytes(info);
    forall r
      ensures ParseInfo(part + r) == Ok((info, r))
    {
      ParseInfoOf(info, r);
    }
  }

  lemma {:induction false} InfosInParts(infos: seq<ServerInfo>, n: nat)
    returns (parts: seq<seq<byte>>, prefixes: seq<seq<byte>>)
    requires n <= |infos| && AllWellFormed(infos, n) && InfosSize(infos, n) <= INT_MAX
    ensures ReadsBack(ParseInfo, infos, parts) && Accumulate(parts, prefixes)
    ensures |parts| == n && prefixes[n] == InfosBytes(infos, n)
  {
    if n == 0 {
      parts, prefixes := [], [[]];
    } else {
      var parts', prefixes' := InfosInParts(infos, n - 1);
      var part := ReadableInfo(infos[n - 1]);
      OnePartMore(ParseInfo, infos, parts', prefixes', part);
      InfosBytesStep(infos, n - 1);
      parts, prefixes := parts' + [part], prefixes' + [prefixes'[n - 1] + part];
    }
  }

  lemma ParseInfosOf(infos: seq<ServerInfo>, rest: seq<byte>)
    requires AllWellFormed(infos, |infos|) && InfosSize(infos, |infos|) <= INT_MAX
    ensures Repeat(ParseInfo, |infos|, InfosBytes(infos, |infos|) + rest) == Ok((infos, rest))
  {
    var parts, prefixes := InfosInParts(infos, |infos|);
    RepeatOf(ParseInfo, infos, parts, prefixes, |infos|, rest);
    assert infos[..|infos|] == infos;
  }

  /** Reading a written value returns it and leaves what followed. */
  lemma ParseWritten(v: Value, rest: seq<byte>)
    requires WellFormed(v) && AllocationSize(v) <= INT_MAX
    ensures Parse(KindOf(v), Written(v) + rest) == Ok((v, rest))
  {
    match v {
      case OptionalString(None) => TakeOf([0], rest);
      case OptionalString(Some(s)) => ParseSomeStringOf(s, rest);
      case Server(info) => ParseInfoOf(info, rest);
      case Servers(infos) => ParseServersOf(infos, rest);
      case Decision(d) => ParseIntOf(Ordinal(d) + 1, rest);
      case Exception(message) => ParseExceptionOf(message, rest);
    }
  }

  lemma ParseSomeStringOf(s: Units, rest: seq<byte>)
    requires ToUtf8(s).Some? && StringSize(s) <= INT_MAX - 1
    ensures Parse(KOptionalString, Written(OptionalString(Some(s))) + rest) == Ok((OptionalString(Some(s)), rest))
  {
    StringFits(s);
    ConcatAssociative([1], StringBytes(s), rest);
    TakeOf([1], StringBytes(s) + rest);
    ParseStringOf(s, rest);
  }

  lemma ParseServersOf(infos: seq<ServerInfo>, rest: seq<byte>)
    requires AllWellFormed(infos, |infos|)
    requires InfosSize(infos, |infos|) <= INT_MAX - 4
    ensures ParseServers(ServersBytes(infos) + rest) == Ok((infos, rest))
  {
    var n := |infos|;
    ListFits(infos, n);
    ConcatAssociative(IntBytes(n), InfosBytes(infos, n), rest);
    ParseIntOf(n, InfosBytes(infos, n) + rest);
    ParseInfosOf(infos, rest);
  }

  lemma ParseExceptionOf(message: Units, rest: seq<byte>)
    requires ToUtf8(message).Some? && StringSize(message) <= INT_MAX - 4
    ensures Parse(KException, Written(Exception(message)) + rest) == Ok((Exception(message), rest))
  {
    StringFits(message);
    ConcatAssociative(IntBytes(1), StringBytes(message), rest);
    ParseIntOf(1, StringBytes(message) + rest);
    ParseStringOf(message, rest);
  }

  /** A value crosses the boundary unchanged, and anything after it in its buffer is refused. */
  lemma LiftWritten(v: Value)
    requires WellFormed(v) && AllocationSize(v) <= INT_MAX
    ensures Lift(KindOf(v), Written(v)) == Ok(v)
    ensures forall rest :: rest != [] ==> Lift(KindOf(v), Written(v) + rest) == Err(JunkRemaining)
  {
    ParseWritten(v, []);
    assert Written(v) + [] == Written(v);
    forall rest | rest != []
      ensures Lift(KindOf(v), Written(v) + rest) == Err(JunkRemaining)
    {
      ParseWritten(v, rest);
    }
  }
}
