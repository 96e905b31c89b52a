/** The converters over a byte buffer of fixed capacity: writing never runs past what was
    allocated, and produces and consumes exactly the bytes the converter functions say. */
module FfiBuffers {
  import opened Bytes
  import opened Desktop
  import opened Ffi
  import opened Utf16
  import opened Wrappers

  class ByteBuffer {
    const data: array<byte>
    var position: nat

    constructor (capacity: nat)
      ensures Valid() && fresh(data) && data.Length == capacity && position == 0
    {
      data := new byte[capacity](_ => 0);
      position := 0;
    }

    constructor Wrap(bytes: seq<byte>)
      ensures Valid() && fresh(data) && data[..] == bytes && position == 0
    {
      data := new byte[|bytes|](i requires 0 <= i < |bytes| => bytes[i]);
      position := 0;
    }

    ghost predicate Valid()
      reads this
    {
      position <= data.Length
    }

    ghost function Done(): seq<byte>
      requires Valid()
      reads this, data
    {
      data[..position]
    }

    ghost function Rest(): seq<byte>
      requires Valid()
      reads this, data
    {
      data[position..]
    }

    method Put(bytes: seq<byte>)
      requires Valid() && position + |bytes| <= data.Length
      modifies this`position, data
      ensures Valid() && position == old(position) + |bytes|
      ensures Done() == old(Done()) + bytes
    {
      for i := 0 to |bytes|
        modifies data
        invariant data[..position] == old(data[..position])
        invariant data[position..position + i] == bytes[..i]
      {
        data[position + i] := bytes[i];
      }
      assert data[..position + |bytes|] == data[..position] + data[position..position + |bytes|];
      position := position + |bytes|;
    }

    method Get(n: nat) returns (r: Result<seq<byte>, FfiError>)
      requires Valid()
      modifies this`position
      ensures Valid()
      ensures match TakeBytes(n, old(Rest()))
              case Ok((bytes, rest)) => r == Ok(bytes) && Rest() == rest
              case Err(e) => r == Err(e)
      ensures r.Ok? ==> |r.value| == n
    {
      if data.Length - position < n {
        return Err(Underflow);
      }
      r := Ok(data[position..position + n]);
      assert Rest()[..n] == data[position..position + n] && Rest()[n..] == data[position + n..];
      position := position + n;
    }
  }

  // ---------------------------------------------------------------------------
  // Writing
  // ---------------------------------------------------------------------------

  /** A lone surrogate is refused before anything is written. */
  method WriteString(s: Units, buf: ByteBuffer) returns (r: Result<(), FfiError>)
    requires buf.Valid() && StringSize(s) <= INT_MAX && buf.position + StringSize(s) <= buf.data.Length
    modifies buf`position, buf.data
    ensures buf.Valid() && buf.position <= old(buf.position) + StringSize(s)
    ensures r == if ToUtf8(s).Some? then Ok(()) else Err(LoneSurrogate)
    ensures r.Ok? ==> |ToUtf8(s).value| <= INT_MAX && buf.Done() == old(buf.Done()) + StringBytes(s)
  {
    var bytes := ToUtf8(s);
    if bytes.None? {
      return Err(LoneSurrogate);
    }
    StringFits(s);
    buf.Put(IntBytes(|bytes.value|));
    buf.Put(bytes.value);
    return Ok(());
  }

  method WriteInfo(info: ServerInfo, buf: ByteBuffer) returns (r: Result<(), FfiError>)
    requires buf.Valid() && InfoSize(info) <= INT_MAX && buf.position + InfoSize(info) <= buf.data.Length
    modifies buf`position, buf.data
    ensures buf.Valid() && buf.position <= old(buf.position) + InfoSize(info)
    ensures r == if WellFormedInfo(info) then Ok(()) else Err(LoneSurrogate)
    ensures r.Ok? ==> buf.Done() == old(buf.Done()) + InfoBytes(info)
  {
    ghost var before := buf.Done();
    var _ :- WriteString(info.id, buf);
    var _ :- WriteString(info.name, buf);
    buf.Put([BooleanByte(info.connected)]);
    var _ :- WriteString(info.enrolledAt, buf);
    InfoInPieces(info, before);
    return Ok(());
  }

  lemma InfoInPieces(info: ServerInfo, before: seq<byte>)
    requires WellFormedInfo(info) && InfoSize(info) <= INT_MAX
    requires |ToUtf8(info.id).value| <= INT_MAX && |ToUtf8(info.name).value| <= INT_MAX
    requires |ToUtf8(info.enrolledAt).value| <= INT_MAX
    ensures before + StringBytes(info.id) + StringBytes(info.name) + [BooleanByte(info.connected)]
              + StringBytes(info.enrolledAt)
         == before + InfoBytes(info)
  {
  }

  method WriteInfos(infos: seq<ServerInfo>, buf: ByteBuffer) returns (r: Result<(), FfiError>)
    requires buf.Valid() && InfosSize(infos, |infos|) <= INT_MAX
    requires buf.position + InfosSize(infos, |infos|) <= buf.data.Length
    modifies buf`position, buf.data
    ensures buf.Valid() && buf.position <= old(buf.position) + InfosSize(infos, |infos|)
    ensures r == if AllWellFormed(infos, |infos|) then Ok(()) else Err(LoneSurrogate)
    ensures r.Ok? ==> buf.Done() == old(buf.Done()) + InfosBytes(infos, |infos|)
  {
    ghost var start := buf.Done();
    for i := 0 to |infos|
      invariant buf.Valid()
      invariant AllWellFormed(infos, i) && InfosSize(infos, i) <= INT_MAX
      invariant buf.position <= |start| + InfosSize(infos, i)
      invariant buf.Done() == start + InfosBytes(infos, i)
    {
      SizesFit(infos, i);
      var written := WriteInfo(infos[i], buf);
      if written.Err? {
        RefusedAt(infos, i);
        return written;
      }
      InfosBytesStep(infos, i);
      ConcatAssociative(start, InfosBytes(infos, i), InfoBytes(infos[i]));
    }
    assert |buf.Done()| == buf.position;
    return Ok(());
  }

  lemma RefusedAt(infos: seq<ServerInfo>, i: nat)
    requires i < |infos| && !WellFormedInfo(infos[i])
    ensures !AllWellFormed(infos, |infos|)
  {
    if AllWellFormed(infos, |infos|) {
      AllWellFormedAt(infos, i, |infos|);
    }
  }

  /** A list: its size, then its items. */
  method WriteServers(infos: seq<ServerInfo>, buf: ByteBuffer) returns (r: Result<(), FfiError>)
    requires buf.Valid() && 4 + InfosSize(infos, |infos|) <= INT_MAX
    requires buf.position + 4 + InfosSize(infos, |infos|) <= buf.data.Length
    modifies buf`position, buf.data
    ensures buf.Valid() && buf.position <= old(buf.position) + 4 + InfosSize(infos, |infos|)
    ensures r == if AllWellFormed(infos, |infos|) then Ok(()) else Err(LoneSurrogate)
    ensures r.Ok? ==> buf.Done() == old(buf.Done()) + ServersBytes(infos)
  {
    ListFits(infos, |infos|);
    ghost var start := buf.Done();
    buf.Put(IntBytes(|infos|));
    var _ :- WriteInfos(infos, buf);
    ConcatAssociative(start, IntBytes(|infos|), InfosBytes(infos, |infos|));
    return Ok(());
  }

  /** A tag, then a string. */
  method WriteTagged(tag: seq<byte>, s: Units, buf: ByteBuffer) returns (r: Result<(), FfiError>)
    requires buf.Valid() && StringSize(s) <= INT_MAX && buf.position + |tag| + StringSize(s) <= buf.data.Length
    modifies buf`position, buf.data
    ensures buf.Valid() && buf.position <= old(buf.position) + |tag| + StringSize(s)
    ensures r == if ToUtf8(s).Some? then Ok(()) else Err(LoneSurrogate)
    ensures r.Ok? ==> |ToUtf8(s).value| <= INT_MAX && buf.Done() == old(buf.Done()) + (tag + StringBytes(s))
  {
    ghost var start := buf.Done();
    buf.Put(tag);
    var _ :- WriteString(s, buf);
    ConcatAssociative(start, tag, StringBytes(s));
    return Ok(());
  }

  method Write(v: Value, buf: ByteBuffer) returns (r: Result<(), FfiError>)
    requires buf.Valid() && AllocationSize(v) <= INT_MAX && buf.position + AllocationSize(v) <= buf.data.Length
    modifies buf`position, buf.data
    ensures buf.Valid() && buf.position <= old(buf.position) + AllocationSize(v)
    ensures r == if WellFormed(v) then Ok(()) else Err(LoneSurrogate)
    ensures r.Ok? ==> buf.Done() == old(buf.Done()) + Written(v)
  {
    match v {
      case OptionalString(None) =>
        buf.Put([0]);
        return Ok(());
      case OptionalString(Some(s)) =>
        r := WriteTagged([1], s, buf);
      case Server(info) =>
        r := WriteInfo(info, buf);
      case Servers(infos) =>
        r := WriteServers(infos, buf);
      case Decision(d) =>
        buf.Put(IntBytes(Ordinal(d) + 1));
        return Ok(());
      case Exception(message) =>
        r := WriteTagged(IntBytes(1), message, buf);
    }
  }

  /** Allocates, writes, and hands over as many bytes as were written. */
  method Lower(v: Value) returns (r: Result<seq<byte>, FfiError>)
    requires AllocationSize(v) <= INT_MAX
    ensures r == if WellFormed(v) then Ok(Written(v)) else Err(LoneSurrogate)
  {
    var buf := new ByteBuffer(AllocationSize(v));
    assert buf.Done() == [];
    var _ :- Write(v, buf);
    assert [] + Written(v) == Written(v);
    return Ok(buf.data[..buf.position]);
  }

  // ---------------------------------------------------------------------------
  // Reading
  // ---------------------------------------------------------------------------

  method ReadInt(buf: ByteBuffer) returns (r: Result<int, FfiError>)
    requires buf.Valid()
    modifies buf`position
    ensures buf.Valid()
    ensures match ParseInt(old(buf.Rest()))
            case Ok((n, rest)) => r == Ok(n) && buf.Rest() == rest
            case Err(e) => r == Err(e)
  {
    var b :- buf.Get(4);
    var n := FromBigEndian16(b[..2]) as int * 0x1_0000 + FromBigEndian16(b[2..]) as int;
    return Ok(if n > INT_MAX then n - 0x1_0000_0000 else n);
  }

  method ReadString(buf: ByteBuffer) returns (r: Result<Units, FfiError>)
    requires buf.Valid()
    modifies buf`position
    ensures buf.Valid()
    ensures match ParseString(old(buf.Rest()))
            case Ok((s, rest)) => r == Ok(s) && buf.Rest() == rest
            case Err(e) => r == Err(e)
  {
    var len :- ReadInt(buf);
    if len < 0 {
      return Err(NegativeSize);
    }
    var b :- buf.Get(len);
    var text := FromUtf8(b);
    return if text.Some? then Ok(text.value) else Err(MalformedUtf8);
  }

  method ReadInfo(buf: ByteBuffer) returns (r: Result<ServerInfo, FfiError>)
    requires buf.Valid()
    modifies buf`position
    ensures buf.Valid()
    ensures match ParseInfo(old(buf.Rest()))
            case Ok((info, rest)) => r == Ok(info) && buf.Rest() == rest
            case Err(e) => r == Err(e)
  {
    var id :- ReadString(buf);
    var name :- ReadString(buf);
    var connected :- buf.Get(1);
    var enrolledAt :- ReadString(buf);
    return Ok(ServerInfo(id, name, connected[0] != 0, enrolledAt));
  }

  method ReadInfos(n: nat, buf: ByteBuffer) returns (r: Result<seq<ServerInfo>, FfiError>)
    requires buf.Valid()
    modifies buf`position
    ensures buf.Valid()
    ensures match Repeat(ParseInfo, n, old(buf.Rest()))
            case Ok((infos, rest)) => r == Ok(infos) && buf.Rest() == rest
            case Err(e) => r == Err(e)
  {
    var infos := [];
    ghost var start := buf.Rest();
    for i := 0 to n
      invariant buf.Valid()
      invariant Repeat(ParseInfo, i, start) == Ok((infos, buf.Rest()))
    {
      RepeatStep(ParseInfo, i, start, infos, buf.Rest());
      if Repeat(ParseInfo, i + 1, start).Err? {
        RepeatFails(ParseInfo, i + 1, n, start);
      }
      var info :- ReadInfo(buf);
      infos := infos + [info];
    }
    return Ok(infos);
  }

  method Read(kind: Kind, buf: ByteBuffer) returns (r: Result<Value, FfiError>)
    requires buf.Valid()
    modifies buf`position
    ensures buf.Valid()
    ensures match Parse(kind, old(buf.Rest()))
            case Ok((v, rest)) => r == Ok(v) && buf.Rest() == rest
            case Err(e) => r == Err(e)
  {
    match kind {
      case KOptionalString =>
        var tag :- buf.Get(1);
        if tag[0] == 0 {
          return Ok(OptionalString(None));
        }
        var s :- ReadString(buf);
        return Ok(OptionalString(Some(s)));
      case KServer =>
        var info :- ReadInfo(buf);
        return Ok(Server(info));
      case KServers =>
        var n :- ReadInt(buf);
        if n < 0 {
          return Err(NegativeSize);
        }
        var infos :- ReadInfos(n, buf);
        return Ok(Servers(infos));
      case KDecision =>
        var n :- ReadInt(buf);
        if 1 <= n <= 3 {
          return Ok(Decision([Approved, Denied, Undecided][n - 1]));
        }
        return Err(InvalidVariant);
      case KException =>
        var n :- ReadInt(buf);
        if n != 1 {
          return Err(InvalidVariant);
        }
        var message :- ReadString(buf);
        return Ok(Exception(message));
    }
  }

  method LiftFrom(kind: Kind, bytes: seq<byte>) returns (r: Result<Value, FfiError>)
    ensures r == Lift(kind, bytes)
  {
    var buf := new ByteBuffer.Wrap(bytes);
    assert buf.Rest() == bytes;
    var v :- Read(kind, buf);
    if buf.position < buf.data.Length {
      return Err(JunkRemaining);
    }
    return Ok(v);
  }
}
