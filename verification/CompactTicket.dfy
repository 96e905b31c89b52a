/** The text form of a ticket: writing it, reading it through a cursor, and telling it apart
    from the JSON form. */
module CompactTicket {
  import opened Bytes
  import opened Wrappers
  import opened Ticket
  import Base45
  import Hex
  import Utf8

  // ---------------------------------------------------------------------------
  // What the two conversions compute
  // ---------------------------------------------------------------------------

  ghost function CompactText(t: Ticket): string
    requires Encodable(t)
  {
    COMPACT_PREFIX + Base45.Encode(Binary(FieldsOf(t)))
  }

  function DecodeText(s: string): Result<Ticket, DecodeError> {
    if !(COMPACT_PREFIX <= s) then Err(MissingPrefix)
    else
      match Base45.Decode(s[|COMPACT_PREFIX|..])
      case None => Err(InvalidBase45)
      case Some(bin) =>
        match ParseFields(bin)
        case Ok((f, _)) => Ok(TicketOf(f))
        case Err(e) => Err(e)
  }

  // ---------------------------------------------------------------------------
  // Encoder
  // ---------------------------------------------------------------------------

  lemma {:induction false} AddrsBytesAppend(addrs: seq<SocketAddr>, a: SocketAddr)
    ensures AddrsBytes(addrs + [a]) == AddrsBytes(addrs) + AddrBytes(a)
  {
    if addrs == [] {
      assert AddrsBytes([a]) == AddrBytes(a) + AddrsBytes([]);
    } else {
      assert (addrs + [a])[1..] == addrs[1..] + [a];
      AddrsBytesAppend(addrs[1..], a);
      ConcatAssociative(AddrBytes(addrs[0]), AddrsBytes(addrs[1..]), AddrBytes(a));
    }
  }

  lemma {:induction false} AddrsBytesPrefix(addrs: seq<SocketAddr>, i: nat)
    requires i < |addrs|
    ensures AddrsBytes(addrs[..i + 1]) == AddrsBytes(addrs[..i]) + AddrBytes(addrs[i])
  {
    var init, last := addrs[..i], addrs[i];
    assert addrs[..i + 1] == init + [last];
    AddrsBytesAppend(init, last);
  }

  /** Parses every address text, stopping at the first that is no socket address. */
  method ParseAddrTexts(texts: seq<Option<SocketAddr>>) returns (r: Result<seq<SocketAddr>, EncodeError>)
    ensures r.Err? <==> exists i :: 0 <= i < |texts| && texts[i].None?
    ensures r.Err? ==> r.error == InvalidSocketAddress
    ensures r.Ok? ==> |r.value| == |texts| && forall i :: 0 <= i < |texts| ==> texts[i] == Some(r.value[i])
  {
    var parsed := [];
    for i := 0 to |texts|
      invariant |parsed| == i
      invariant forall k :: 0 <= k < i ==> texts[k] == Some(parsed[k])
    {
      if texts[i].None? {
        return Err(InvalidSocketAddress);
      }
      parsed := parsed + [texts[i].value];
    }
    return Ok(parsed);
  }

  ghost function Stored(addrs: seq<SocketAddr>): (r: seq<SocketAddr>)
    ensures |r| == |addrs|
  {
    seq(|addrs|, i requires 0 <= i < |addrs| => Canonical(addrs[i]))
  }

  method WriteAddr(before: seq<byte>, addr: SocketAddr) returns (buf: seq<byte>)
    ensures buf == before + AddrBytes(Canonical(addr))
  {
    buf := before;
    match addr {
      case V4(ip, port) =>
        buf := buf + [4];
        buf := buf + ip;
        buf := buf + BigEndian16(port);
      case V6(ip, port, _, _) =>
        buf := buf + [6];
        buf := buf + ip;
        buf := buf + BigEndian16(port);
    }
  }

  method WriteAddrs(head: seq<byte>, addrs: seq<SocketAddr>) returns (buf: seq<byte>)
    ensures buf == head + AddrsBytes(Stored(addrs))
  {
    buf := head;
    ghost var stored := Stored(addrs);
    for i := 0 to |addrs|
      invariant buf == head + AddrsBytes(stored[..i])
    {
      buf := WriteAddr(buf, addrs[i]);
      assert stored[i] == Canonical(addrs[i]);
      ConcatAssociative(head, AddrsBytes(stored[..i]), AddrBytes(stored[i]));
      AddrsBytesPrefix(stored, i);
    }
    assert stored[..|stored|] == stored;
  }

  method WriteRelay(body: seq<byte>, relayUrl: Option<string>) returns (r: Result<seq<byte>, EncodeError>)
    ensures r.Err? <==> relayUrl.Some? && |Utf8.Encode(relayUrl.value)| > 65535
    ensures r.Err? ==> r.error == RelayUrlTooLong
    ensures r.Ok? ==> r.value == body + RelayBytes(relayUrl, if relayUrl.Some? then 1 else 0)
  {
    var buf := body;
    match relayUrl {
      case Some(url) =>
        buf := buf + [1];
        var urlBytes := Utf8.Encode(url);
        if |urlBytes| > 65535 { return Err(RelayUrlTooLong); }
        buf := buf + BigEndian16(|urlBytes|);
        buf := buf + urlBytes;
      case None =>
        buf := buf + [0];
    }
    return Ok(buf);
  }

  method WriteHost(body: seq<byte>, hostname: string) returns (r: Result<seq<byte>, EncodeError>)
    ensures r == if |Utf8.Encode(hostname)| > 255 then Err(HostnameTooLong) else Ok(body + HostBytes(hostname))
  {
    var hostBytes := Utf8.Encode(hostname);
    if |hostBytes| > 255 { return Err(HostnameTooLong); }
    var buf := body + [|hostBytes|];
    buf := buf + hostBytes;
    ConcatAssociative(body, [|hostBytes|], hostBytes);
    return Ok(buf);
  }

  method ToCompact(t: Ticket) returns (r: Result<string, EncodeError>)
    ensures r == match Fault(t) { case Some(e) => Err(e) case None => Ok(CompactText(t)) }
  {
    var buf: seq<byte> := [0x01];

    var eid := Hex.Decode(t.endpointId);
    if eid.None? { return Err(EndpointIdNotHex); }
    if |eid.value| != 32 { return Err(EndpointIdLength); }
    buf := buf + eid.value;

    var token := Hex.Decode(t.token);
    if token.None? { return Err(TokenNotHex); }
    if |token.value| != 16 { return Err(TokenLength); }
    buf := buf + token.value;

    var addrs :- ParseAddrTexts(t.addrs);
    if |addrs| > 255 { return Err(TooManyAddresses); }
    buf := buf + [|addrs|];
    assert buf == HeadBytes(eid.value, token.value, |addrs|);
    buf := WriteAddrs(buf, addrs);
    buf :- WriteRelay(buf, t.relayUrl);
    buf :- WriteHost(buf, t.hostname);

    PiecesOfBinary(t, eid.value, token.value, addrs);
    return Ok(COMPACT_PREFIX + Base45.Encode(buf));
  }

  lemma PiecesOfBinary(t: Ticket, eid: seq<byte>, token: seq<byte>, addrs: seq<SocketAddr>)
    requires Encodable(t)
    requires Hex.Decode(t.endpointId) == Some(eid) && Hex.Decode(t.token) == Some(token)
    requires |addrs| == |t.addrs| && forall i :: 0 <= i < |addrs| ==> t.addrs[i] == Some(addrs[i])
    ensures Binary(FieldsOf(t)) == HeadBytes(eid, token, |addrs|) + AddrsBytes(Stored(addrs))
                                   + RelayBytes(t.relayUrl, if t.relayUrl.Some? then 1 else 0) + HostBytes(t.hostname)
  {
    var f := FieldsOf(t);
    assert f.addrs == Stored(addrs);
    LayoutPieces(f, if f.relayUrl.Some? then 1 else 0);
  }

  lemma LayoutPieces(f: Fields, flag: byte)
    requires Fits(f)
    ensures Layout(f, flag) == HeadBytes(f.endpointId, f.token, |f.addrs|) + AddrsBytes(f.addrs)
                               + RelayBytes(f.relayUrl, flag) + HostBytes(f.hostname)
  {
    assert HostBytes(f.hostname) + [] == HostBytes(f.hostname);
  }

  // ---------------------------------------------------------------------------
  // Decoder
  // ---------------------------------------------------------------------------

  /** A read position in a byte string. */
  class Cursor {
    const data: seq<byte>
    var position: nat

    constructor (data: seq<byte>)
      ensures this.data == data && position == 0
      ensures Valid() && Rest() == data
    {
      this.data := data;
      position := 0;
    }

    ghost predicate Valid()
      reads this
    {
      position <= |data|
    }

    ghost function Rest(): seq<byte>
      requires Valid()
      reads this
    {
      data[position..]
    }

    /** Reads exactly n bytes, or reports that the named field is cut off. */
    method ReadExact(n: nat, field: Field) returns (r: Result<seq<byte>, DecodeError>)
      requires Valid()
      modifies this
      ensures Valid()
      ensures match Take(n, old(Rest()), field)
              case Ok((bytes, rest)) => r == Ok(bytes) && Rest() == rest
              case Err(e) => r == Err(e) && position == old(position)
      ensures r.Ok? ==> |r.value| == n
    {
      if |data| - position < n {
        return Err(Truncated(field));
      }
      r := Ok(data[position..position + n]);
      assert Rest()[..n] == data[position..position + n] && Rest()[n..] == data[position + n..];
      position := position + n;
    }
  }

  method ReadAddr(cur: Cursor) returns (r: Result<SocketAddr, DecodeError>)
    requires cur.Valid()
    modifies cur
    ensures cur.Valid()
    ensures match ParseAddr(old(cur.Rest()))
            case Ok((a, rest)) => r == Ok(a) && cur.Rest() == rest
            case Err(e) => r == Err(e)
  {
    var kind :- cur.ReadExact(1, FAddrType);
    if kind[0] == 4 {
      var ip :- cur.ReadExact(4, FIpv4);
      var port :- cur.ReadExact(2, FPort);
      return Ok(V4(ip, FromBigEndian16(port)));
    } else if kind[0] == 6 {
      var ip :- cur.ReadExact(16, FIpv6);
      var port :- cur.ReadExact(2, FPort);
      return Ok(V6(ip, FromBigEndian16(port), 0, 0));
    } else {
      return Err(InvalidAddressType(kind[0]));
    }
  }

  /** The addresses already read, in front of what parsing the others gives. */
  ghost function Prepend(addrs: seq<SocketAddr>, p: Parsed<seq<SocketAddr>>): Parsed<seq<SocketAddr>> {
    match p
    case Ok((tail, rest)) => Ok((addrs + tail, rest))
    case Err(e) => Err(e)
  }

  lemma PrependNothing(p: Parsed<seq<SocketAddr>>)
    ensures Prepend([], p) == p
  {
    assert p.Ok? ==> [] + p.value.0 == p.value.0;
  }

  method ReadAddrs(cur: Cursor, count: byte) returns (r: Result<seq<SocketAddr>, DecodeError>)
    requires cur.Valid()
    modifies cur
    ensures cur.Valid()
    ensures match ParseAddrs(count, old(cur.Rest()))
            case Ok((addrs, rest)) => r == Ok(addrs) && cur.Rest() == rest
            case Err(e) => r == Err(e)
  {
    var addrs := [];
    ghost var whole := ParseAddrs(count, cur.Rest());
    PrependNothing(whole);
    for i := 0 to count as int
      invariant cur.Valid()
      invariant whole == Prepend(addrs, ParseAddrs(count - i, cur.Rest()))
    {
      var a :- ReadAddr(cur);
      ghost var tail := ParseAddrs(count - i - 1, cur.Rest());
      assert tail.Ok? ==> addrs + ([a] + tail.value.0) == (addrs + [a]) + tail.value.0;
      addrs := addrs + [a];
    }
    assert addrs + [] == addrs;
    return Ok(addrs);
  }

  method ReadHead(cur: Cursor) returns (r: Result<(seq<byte>, seq<byte>, byte), DecodeError>)
    requires cur.Valid()
    modifies cur
    ensures cur.Valid()
    ensures match ParseHead(old(cur.Rest()))
            case Ok((head, rest)) => r == Ok(head) && cur.Rest() == rest
            case Err(e) => r == Err(e)
  {
    var version :- cur.ReadExact(1, FVersion);
    if version[0] != 0x01 {
      return Err(UnsupportedVersion(version[0]));
    }
    var eid :- cur.ReadExact(32, FEndpointId);
    var token :- cur.ReadExact(16, FToken);
    var count :- cur.ReadExact(1, FAddrCount);
    return Ok((eid, token, count[0]));
  }

  method ReadRelay(cur: Cursor) returns (r: Result<Option<string>, DecodeError>)
    requires cur.Valid()
    modifies cur
    ensures cur.Valid()
    ensures match ParseRelay(old(cur.Rest()))
            case Ok((relayUrl, rest)) => r == Ok(relayUrl) && cur.Rest() == rest
            case Err(e) => r == Err(e)
  {
    var relayUrl := None;
    var present :- cur.ReadExact(1, FRelayPresent);
    if present[0] == 1 {
      var len :- cur.ReadExact(2, FRelayLength);
      var url :- cur.ReadExact(FromBigEndian16(len), FRelayUrl);
      relayUrl := Utf8.Decode(url);
      if relayUrl.None? {
        return Err(RelayUrlNotUtf8);
      }
    }
    return Ok(relayUrl);
  }

  method ReadHost(cur: Cursor) returns (r: Result<string, DecodeError>)
    requires cur.Valid()
    modifies cur
    ensures cur.Valid()
    ensures match ParseHost(old(cur.Rest()))
            case Ok((hostname, rest)) => r == Ok(hostname) && cur.Rest() == rest
            case Err(e) => r == Err(e)
  {
    var len :- cur.ReadExact(1, FHostnameLength);
    var host :- cur.ReadExact(len[0], FHostname);
    var hostname := Utf8.Decode(host);
    if hostname.None? {
      return Err(HostnameNotUtf8);
    }
    return Ok(hostname.value);
  }

  method ReadFields(cur: Cursor) returns (r: Result<Fields, DecodeError>)
    requires cur.Valid()
    modifies cur
    ensures cur.Valid()
    ensures match ParseFields(old(cur.Rest()))
            case Ok((f, rest)) => r == Ok(f) && cur.Rest() == rest
            case Err(e) => r == Err(e)
  {
    var head :- ReadHead(cur);
    var addrs :- ReadAddrs(cur, head.2);
    var relayUrl :- ReadRelay(cur);
    var hostname :- ReadHost(cur);
    return Ok(Fields(head.0, head.1, addrs, relayUrl, hostname));
  }

  method FromCompact(s: string) returns (r: Result<Ticket, DecodeError>)
    ensures r == DecodeText(s)
  {
    if !(COMPACT_PREFIX <= s) {
      return Err(MissingPrefix);
    }
    var bin := Base45.Decode(s[|COMPACT_PREFIX|..]);
    if bin.None? {
      return Err(InvalidBase45);
    }
    var cur := new Cursor(bin.value);
    var f :- ReadFields(cur);
    return Ok(TicketOf(f));
  }

  /** The decoder for either text form; `fromJson` stands for the JSON one. */
  function Parse(s: string, fromJson: string -> Result<Ticket, DecodeError>): Result<Ticket, DecodeError> {
    if COMPACT_PREFIX <= s then DecodeText(s) else fromJson(s)
  }

  // ---------------------------------------------------------------------------
  // Main results
  // ---------------------------------------------------------------------------

  lemma DecodeTextOf(f: Fields, flag: byte, rest: seq<byte>)
    requires Fits(f) && FlagMatches(f, flag)
    ensures DecodeText(COMPACT_PREFIX + Base45.Encode(Layout(f, flag) + rest)) == Ok(TicketOf(f))
  {
    var bin := Layout(f, flag) + rest;
    var s := COMPACT_PREFIX + Base45.Encode(bin);
    assert s[|COMPACT_PREFIX|..] == Base45.Encode(bin);
    Base45.DecodeEncode(bin);
    ParseFieldsOf(f, flag, rest);
  }

  /** Every ticket the encoder accepts is read back, in normal form. */
  lemma RoundTrip(t: Ticket)
    requires Encodable(t)
    ensures DecodeText(CompactText(t)) == Ok(Normal(t))
  {
    var f := FieldsOf(t);
    assert Binary(f) + [] == Binary(f);
    DecodeTextOf(f, if f.relayUrl.Some? then 1 else 0, []);
    TicketOfFieldsOf(t);
  }

  /** Two tickets share a compact form exactly when they have the same normal form. */
  lemma InjectiveUpToNormalForm(t: Ticket, u: Ticket)
    requires Encodable(t) && Encodable(u)
    ensures CompactText(t) == CompactText(u) <==> Normal(t) == Normal(u)
  {
    RoundTrip(t);
    RoundTrip(u);
    if Normal(t) == Normal(u) {
      SameFields(t, u);
    }
  }

  lemma SameFields(t: Ticket, u: Ticket)
    requires Encodable(t) && Encodable(u) && Normal(t) == Normal(u)
    ensures FieldsOf(t) == FieldsOf(u)
  {
    Hex.DecodeLower(t.endpointId);
    Hex.DecodeLower(u.endpointId);
    Hex.DecodeLower(t.token);
    Hex.DecodeLower(u.token);
    forall i | 0 <= i < |t.addrs|
      ensures FieldsOf(t).addrs[i] == FieldsOf(u).addrs[i]
    {
      assert Normal(t).addrs[i] == Normal(u).addrs[i];
    }
    assert FieldsOf(t).addrs == FieldsOf(u).addrs;
  }

  /** Both text forms reach their own decoder: the JSON form is an object. */
  lemma ParseDispatches(t: Ticket, json: string, fromJson: string -> Result<Ticket, DecodeError>)
    requires Encodable(t) && |json| > 0 && json[0] == '{'
    ensures Parse(CompactText(t), fromJson) == Ok(Normal(t))
    ensures Parse(json, fromJson) == fromJson(json)
  {
    RoundTrip(t);
  }

  function AddrSizes(addrs: seq<Option<SocketAddr>>): nat {
    if addrs == [] then 0
    else (if addrs[0].Some? && addrs[0].value.V6? then 19 else 7) + AddrSizes(addrs[1..])
  }

  /** The sizes of the fields the encoder writes, added up. */
  function BinarySize(t: Ticket): nat {
    1 + 32 + 16 + 1 + AddrSizes(t.addrs)
    + 1 + (if t.relayUrl.Some? then 2 + |Utf8.Encode(t.relayUrl.value)| else 0)
    + 1 + |Utf8.Encode(t.hostname)|
  }

  lemma {:induction false} AddrsBytesSize(texts: seq<Option<SocketAddr>>, addrs: seq<SocketAddr>)
    requires |texts| == |addrs|
    requires forall i :: 0 <= i < |texts| ==> texts[i].Some? && addrs[i] == Canonical(texts[i].value)
    ensures |AddrsBytes(addrs)| == AddrSizes(texts)
  {
    if texts != [] {
      AddrsBytesSize(texts[1..], addrs[1..]);
    }
  }

  /** The exact length of the text, and that a QR code can hold it in alphanumeric mode. */
  lemma TextShape(t: Ticket)
    requires Encodable(t)
    ensures var n := BinarySize(t); |CompactText(t)| == 4 + 3 * (n / 2) + 2 * (n % 2)
    ensures Base45.QrAlphanumeric(CompactText(t))
  {
    var f := FieldsOf(t);
    AddrsBytesSize(t.addrs, f.addrs);
    LayoutPieces(f, if f.relayUrl.Some? then 1 else 0);
    Base45.EncodeIsQrAlphanumeric(Binary(f));
    PrefixIsQrAlphanumeric();
    Base45.QrAlphanumericConcat(COMPACT_PREFIX, Base45.Encode(Binary(f)));
  }

  lemma PrefixIsQrAlphanumeric()
    ensures Base45.QrAlphanumeric(COMPACT_PREFIX)
  {
    Base45.DigitIsAlphabet(28);
    Base45.DigitIsAlphabet(25);
    Base45.DigitIsAlphabet(1);
    Base45.DigitIsAlphabet(44);
    assert COMPACT_PREFIX == [Base45.Digit(28), Base45.Digit(25), Base45.Digit(1), Base45.Digit(44)];
  }

  /** The byte that says whether a relay follows, once the addresses have been read. */
  function RelayFlag(bin: seq<byte>): Option<byte> {
    match ParseHead(bin)
    case Err(_) => None
    case Ok((head, s1)) =>
      match ParseAddrs(head.2, s1)
      case Err(_) => None
      case Ok((_, s2)) => if |s2| > 0 then Some(s2[0]) else None
  }

  lemma LayoutIsBinary(f: Fields, flag: byte, rest: seq<byte>)
    requires Fits(f) && FlagMatches(f, flag)
    ensures Layout(f, flag) + rest == Binary(f) <==> rest == [] && flag <= 1
  {
    if Layout(f, flag) + rest == Binary(f) {
      OnlyBinary(f, flag, rest);
    } else if rest == [] {
      assert Layout(f, flag) + rest == Layout(f, flag);
    }
  }

  lemma OnlyBinary(f: Fields, flag: byte, rest: seq<byte>)
    requires Fits(f) && FlagMatches(f, flag)
    requires Layout(f, flag) + rest == Binary(f)
    ensures rest == [] && flag <= 1
  {
    BinaryIsStrict(f);
    ParseFieldsOf(f, flag, rest);
    RelayFlagOf(f, flag, rest);
  }

  lemma ReencodingAcceptedBytes(bin: seq<byte>)
    requires ParseFields(bin).Ok?
    ensures Fits(ParseFields(bin).value.0) && RelayFlag(bin).Some?
    ensures Binary(ParseFields(bin).value.0) == bin
            <==> ParseFields(bin).value.1 == [] && RelayFlag(bin).value <= 1
  {
    var flag := FieldsOfParse(bin);
    var (f, rest) := ParseFields(bin).value;
    RelayFlagOf(f, flag, rest);
    LayoutIsBinary(f, flag, rest);
  }

  /** An accepted text decodes to an encodable ticket, and re-encoding gives the same text
      exactly when nothing followed the hostname and the relay flag was 0 or 1: the decoder
      also takes trailing bytes, and any flag other than 1 for "no relay". */
  lemma ReencodingAcceptedText(s: string)
    requires DecodeText(s).Ok?
    ensures Encodable(DecodeText(s).value)
    ensures var bin := Base45.Decode(s[|COMPACT_PREFIX|..]).value;
      CompactText(DecodeText(s).value) == s
      <==> ParseFields(bin).value.1 == [] && RelayFlag(bin).value <= 1
  {
    var payload := s[|COMPACT_PREFIX|..];
    var bin := Base45.Decode(payload).value;
    ReencodingAcceptedBytes(bin);
    var f := ParseFields(bin).value.0;
    FieldsOfTicketOf(f);
    Base45.EncodeDecode(payload);
    assert s == COMPACT_PREFIX + payload;
    var text := CompactText(TicketOf(f));
    assert text == COMPACT_PREFIX + Base45.Encode(Binary(f));
    if text == s {
      assert text[|COMPACT_PREFIX|..] == Base45.Encode(Binary(f));
      Base45.DecodeEncode(Binary(f));
    }
  }

  /** Every other layout of the same fields is a second text for the same ticket. */
  lemma OtherLayoutIsAccepted(f: Fields, flag: byte, rest: seq<byte>)
    requires Fits(f) && FlagMatches(f, flag) && !(rest == [] && flag <= 1)
    ensures var text := COMPACT_PREFIX + Base45.Encode(Layout(f, flag) + rest);
      && DecodeText(text) == Ok(TicketOf(f))
      && Encodable(TicketOf(f)) && CompactText(TicketOf(f)) != text
  {
    DecodeTextOf(f, flag, rest);
    FieldsOfTicketOf(f);
    LayoutIsBinary(f, flag, rest);
    OtherBytesOtherText(Layout(f, flag) + rest, Binary(f));
  }

  lemma OtherBytesOtherText(a: seq<byte>, b: seq<byte>)
    requires a != b
    ensures COMPACT_PREFIX + Base45.Encode(a) != COMPACT_PREFIX + Base45.Encode(b)
  {
    Base45.DecodeEncode(a);
    Base45.DecodeEncode(b);
    var s, t := COMPACT_PREFIX + Base45.Encode(a), COMPACT_PREFIX + Base45.Encode(b);
    assert s[|COMPACT_PREFIX|..] == Base45.Encode(a) && t[|COMPACT_PREFIX|..] == Base45.Encode(b);
  }

  /** Bytes after the host name are dropped. */
  lemma TrailingByteIsDropped(f: Fields, extra: byte)
    requires Fits(f)
    ensures var text := COMPACT_PREFIX + Base45.Encode(Binary(f) + [extra]);
      DecodeText(text) == Ok(TicketOf(f)) && Encodable(TicketOf(f)) && CompactText(TicketOf(f)) != text
  {
    OtherLayoutIsAccepted(f, if f.relayUrl.Some? then 1 else 0, [extra]);
  }

  /** Relay flag 2 is read as "no relay". */
  lemma FlagTwoIsNoRelay(f: Fields)
    requires Fits(f) && f.relayUrl.None?
    ensures var text := COMPACT_PREFIX + Base45.Encode(Layout(f, 2));
      DecodeText(text) == Ok(TicketOf(f)) && Encodable(TicketOf(f)) && CompactText(TicketOf(f)) != text
  {
    assert Layout(f, 2) + [] == Layout(f, 2);
    OtherLayoutIsAccepted(f, 2, []);
  }

  lemma BinaryIsStrict(f: Fields)
    requires Fits(f)
    ensures ParseFields(Binary(f)) == Ok((f, []))
    ensures RelayFlag(Binary(f)) == Some(if f.relayUrl.Some? then 1 else 0)
  {
    var flag := if f.relayUrl.Some? then 1 else 0;
    assert Binary(f) + [] == Binary(f);
    ParseFieldsOf(f, flag, []);
    RelayFlagOf(f, flag, []);
  }

  lemma RelayFlagOf(f: Fields, flag: byte, rest: seq<byte>)
    requires Fits(f) && FlagMatches(f, flag)
    ensures RelayFlag(Layout(f, flag) + rest) == Some(flag)
  {
    var s2 := RelayBytes(f.relayUrl, flag) + (HostBytes(f.hostname) + rest);
    LayoutThen(f, flag, rest);
    ParseHeadOf(f.endpointId, f.token, |f.addrs|, AddrsBytes(f.addrs) + s2);
    ParseAddrsOf(f.addrs, s2);
  }
}
