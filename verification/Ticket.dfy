/** Enrollment tickets and their compact form: a length-prefixed binary layout, in base 45,
    behind the prefix `SP1:`. `Layout` says where every byte goes; the encoder and the decoder
    are loops proved against it and against the parser `ParseFields`. */
module Ticket {
  import opened Bytes
  import opened Wrappers
  import Hex
  import Utf8

  const COMPACT_PREFIX := "SP1:"

  type Octets4 = s: seq<byte> | |s| == 4 witness [0, 0, 0, 0]
  type Octets16 = s: seq<byte> | |s| == 16 witness seq(16, _ => 0)

  datatype SocketAddr =
    | V4(ip4: Octets4, port: u16)
    | V6(ip6: Octets16, port: u16, flowInfo: u32, scopeId: u32)

  /** A ticket. Each address text is represented by what parsing it yields, None when the
      text is no socket address. */
  datatype Ticket = Ticket(
    endpointId: string,
    addrs: seq<Option<SocketAddr>>,
    relayUrl: Option<string>,
    token: string,
    hostname: string
  )

  datatype EncodeError =
    | EndpointIdNotHex
    | EndpointIdLength
    | TokenNotHex
    | TokenLength
    | InvalidSocketAddress
    | TooManyAddresses
    | RelayUrlTooLong
    | HostnameTooLong

  datatype Field =
    | FVersion | FEndpointId | FToken | FAddrCount | FAddrType | FIpv4 | FIpv6 | FPort
    | FRelayPresent | FRelayLength | FRelayUrl | FHostnameLength | FHostname

  datatype DecodeError =
    | MissingPrefix
    | InvalidBase45
    | Truncated(field: Field)
    | UnsupportedVersion(version: byte)
    | InvalidAddressType(kind: byte)
    | RelayUrlNotUtf8
    | HostnameNotUtf8
    | NotJson

  // ---------------------------------------------------------------------------
  // The binary layout
  // ---------------------------------------------------------------------------

  /** A ticket with its text fields decoded: what the binary form stores. */
  datatype Fields = Fields(
    endpointId: seq<byte>,
    token: seq<byte>,
    addrs: seq<SocketAddr>,
    relayUrl: Option<string>,
    hostname: string
  )

  /** IPv6 flow information and scope are not stored. */
  function Canonical(a: SocketAddr): SocketAddr {
    match a
    case V4(_, _) => a
    case V6(ip, port, _, _) => V6(ip, port, 0, 0)
  }

  ghost predicate Fits(f: Fields) {
    && |f.endpointId| == 32
    && |f.token| == 16
    && |f.addrs| <= 255
    && (forall i :: 0 <= i < |f.addrs| ==> Canonical(f.addrs[i]) == f.addrs[i])
    && (f.relayUrl.Some? ==> |Utf8.Encode(f.relayUrl.value)| <= 65535)
    && |Utf8.Encode(f.hostname)| <= 255
  }

  /** The decoder takes 1 for "a relay follows" and any other byte for "none". */
  predicate FlagMatches(f: Fields, flag: byte) {
    f.relayUrl.Some? <==> flag == 1
  }

  function AddrBytes(a: SocketAddr): (b: seq<byte>)
    ensures |b| == if a.V4? then 7 else 19
  {
    match a
    case V4(ip, port) => [4] + ip + BigEndian16(port)
    case V6(ip, port, _, _) => [6] + ip + BigEndian16(port)
  }

  function AddrsBytes(addrs: seq<SocketAddr>): seq<byte> {
    if addrs == [] then [] else AddrBytes(addrs[0]) + AddrsBytes(addrs[1..])
  }

  function RelayBytes(relayUrl: Option<string>, flag: byte): seq<byte>
    requires relayUrl.Some? ==> |Utf8.Encode(relayUrl.value)| <= 65535
  {
    match relayUrl
    case None => [flag]
    case Some(url) => [flag] + BigEndian16(|Utf8.Encode(url)|) + Utf8.Encode(url)
  }

  function HostBytes(hostname: string): seq<byte>
    requires |Utf8.Encode(hostname)| <= 255
  {
    [|Utf8.Encode(hostname)|] + Utf8.Encode(hostname)
  }

  /** Version 1, then the fields in order. */
  ghost function Layout(f: Fields, flag: byte): seq<byte>
    requires Fits(f)
  {
    LayoutBefore(f, flag, [])
  }

  ghost function LayoutBefore(f: Fields, flag: byte, rest: seq<byte>): seq<byte>
    requires Fits(f)
  {
    HeadBytes(f.endpointId, f.token, |f.addrs|)
      + (AddrsBytes(f.addrs) + (RelayBytes(f.relayUrl, flag) + (HostBytes(f.hostname) + rest)))
  }

  function HeadBytes(endpointId: seq<byte>, token: seq<byte>, count: byte): seq<byte> {
    [1] + endpointId + token + [count]
  }

  lemma LayoutThen(f: Fields, flag: byte, rest: seq<byte>)
    requires Fits(f)
    ensures Layout(f, flag) + rest == LayoutBefore(f, flag, rest)
  {
  }

  /** The bytes the encoder produces: the flag is 1 or 0. */
  ghost function Binary(f: Fields): seq<byte>
    requires Fits(f)
  {
    Layout(f, if f.relayUrl.Some? then 1 else 0)
  }

  // ---------------------------------------------------------------------------
  // Tickets and fields
  // ---------------------------------------------------------------------------

  /** The first check of the encoder that a ticket fails, in the encoder's order. */
  ghost function Fault(t: Ticket): Option<EncodeError> {
    if Hex.Decode(t.endpointId).None? then Some(EndpointIdNotHex)
    else if |Hex.Decode(t.endpointId).value| != 32 then Some(EndpointIdLength)
    else if Hex.Decode(t.token).None? then Some(TokenNotHex)
    else if |Hex.Decode(t.token).value| != 16 then Some(TokenLength)
    else if exists i :: 0 <= i < |t.addrs| && t.addrs[i].None? then Some(InvalidSocketAddress)
    else if |t.addrs| > 255 then Some(TooManyAddresses)
    else if t.relayUrl.Some? && |Utf8.Encode(t.relayUrl.value)| > 65535 then Some(RelayUrlTooLong)
    else if |Utf8.Encode(t.hostname)| > 255 then Some(HostnameTooLong)
    else None
  }

  ghost predicate Encodable(t: Ticket) {
    Fault(t).None?
  }

  ghost function FieldsOf(t: Ticket): (f: Fields)
    requires Encodable(t)
    ensures Fits(f)
  {
    Fields(
      Hex.Decode(t.endpointId).value,
      Hex.Decode(t.token).value,
      seq(|t.addrs|, i requires 0 <= i < |t.addrs| => Canonical(t.addrs[i].value)),
      t.relayUrl,
      t.hostname)
  }

  function TicketOf(f: Fields): Ticket {
    Ticket(
      Hex.Encode(f.endpointId),
      seq(|f.addrs|, i requires 0 <= i < |f.addrs| => Some(f.addrs[i])),
      f.relayUrl,
      Hex.Encode(f.token),
      f.hostname)
  }

  /** What survives a round trip: lower-case hex, addresses without flow and scope. */
  ghost function Normal(t: Ticket): Ticket
    requires Encodable(t)
  {
    t.(endpointId := Hex.Lower(t.endpointId),
       token := Hex.Lower(t.token),
       addrs := seq(|t.addrs|, i requires 0 <= i < |t.addrs| => Some(Canonical(t.addrs[i].value))))
  }

  lemma TicketOfFieldsOf(t: Ticket)
    requires Encodable(t)
    ensures TicketOf(FieldsOf(t)) == Normal(t)
  {
    Hex.EncodeDecode(t.endpointId);
    Hex.EncodeDecode(t.token);
  }

  lemma FieldsOfTicketOf(f: Fields)
    requires Fits(f)
    ensures Encodable(TicketOf(f)) && FieldsOf(TicketOf(f)) == f
  {
    Hex.DecodeEncode(f.endpointId);
    Hex.DecodeEncode(f.token);
  }

  // ---------------------------------------------------------------------------
  // The parser
  // ---------------------------------------------------------------------------

  /** A parsed value with the bytes that follow it, or the reason parsing stopped. */
  type Parsed<T> = Result<(T, seq<byte>), DecodeError>

  function Take(n: nat, s: seq<byte>, field: Field): (r: Parsed<seq<byte>>)
    ensures r.Ok? ==> |r.value.0| == n
  {
    if |s| < n then Err(Truncated(field)) else Ok((s[..n], s[n..]))
  }

  function ParseAddr(s: seq<byte>): Parsed<SocketAddr> {
    var (kind, s1) :- Take(1, s, FAddrType);
    if kind[0] == 4 then
      var (ip, s2) :- Take(4, s1, FIpv4);
      var (port, s3) :- Take(2, s2, FPort);
      Ok((V4(ip, FromBigEndian16(port)), s3))
    else if kind[0] == 6 then
      var (ip, s2) :- Take(16, s1, FIpv6);
      var (port, s3) :- Take(2, s2, FPort);
      Ok((V6(ip, FromBigEndian16(port), 0, 0), s3))
    else
      Err(InvalidAddressType(kind[0]))
  }

  function ParseAddrs(n: nat, s: seq<byte>): Parsed<seq<SocketAddr>> {
    if n == 0 then Ok(([], s))
    else
      var (a, s1) :- ParseAddr(s);
      var (tail, s2) :- ParseAddrs(n - 1, s1);
      Ok(([a] + tail, s2))
  }

  function ParseRelay(s: seq<byte>): Parsed<Option<string>> {
    var (flag, s1) :- Take(1, s, FRelayPresent);
    if flag[0] == 1 then
      var (len, s2) :- Take(2, s1, FRelayLength);
      var (url, s3) :- Take(FromBigEndian16(len), s2, FRelayUrl);
      match Utf8.Decode(url)
      case Some(text) => Ok((Some(text), s3))
      case None => Err(RelayUrlNotUtf8)
    else
      Ok((None, s1))
  }

  function ParseHost(s: seq<byte>): Parsed<string> {
    var (len, s1) :- Take(1, s, FHostnameLength);
    var (host, s2) :- Take(len[0], s1, FHostname);
    match Utf8.Decode(host)
    case Some(text) => Ok((text, s2))
    case None => Err(HostnameNotUtf8)
  }

  /** The fixed-size head: endpoint id, token and number of addresses. */
  function ParseHead(s: seq<byte>): (r: Parsed<(seq<byte>, seq<byte>, byte)>)
    ensures r.Ok? ==> |r.value.0.0| == 32 && |r.value.0.1| == 16
  {
    var (version, s1) :- Take(1, s, FVersion);
    if version[0] != 1 then Err(UnsupportedVersion(version[0]))
    else
      var (eid, s2) :- Take(32, s1, FEndpointId);
      var (token, s3) :- Take(16, s2, FToken);
      var (count, s4) :- Take(1, s3, FAddrCount);
      Ok(((eid, token, count[0]), s4))
  }

  function ParseFields(s: seq<byte>): Parsed<Fields> {
    var (head, s1) :- ParseHead(s);
    var (addrs, s2) :- ParseAddrs(head.2, s1);
    var (relayUrl, s3) :- ParseRelay(s2);
    var (hostname, s4) :- ParseHost(s3);
    Ok((Fields(head.0, head.1, addrs, relayUrl, hostname), s4))
  }

  // ---------------------------------------------------------------------------
  // Parsing what was laid out
  // ---------------------------------------------------------------------------

  lemma TakeOf(a: seq<byte>, rest: seq<byte>, field: Field)
    ensures Take(|a|, a + rest, field) == Ok((a, rest))
  {
    assert (a + rest)[..|a|] == a && (a + rest)[|a|..] == rest;
  }

  lemma ParseAddrOf(a: SocketAddr, rest: seq<byte>)
    requires Canonical(a) == a
    ensures ParseAddr(AddrBytes(a) + rest) == Ok((a, rest))
  {
    match a {
      case V4(ip, port) => ParseV4Of(ip, port, rest);
      case V6(ip, port, _, _) => ParseV6Of(ip, port, rest);
    }
  }

  lemma ParseV4Of(ip: seq<byte>, port: u16, rest: seq<byte>)
    requires |ip| == 4
    ensures ParseAddr(AddrBytes(V4(ip, port)) + rest) == Ok((V4(ip, port), rest))
  {
    var s1 := ip + (BigEndian16(port) + rest);
    assert AddrBytes(V4(ip, port)) + rest == [4] + s1;
    TakeOf([4], s1, FAddrType);
    TakeOf(ip, BigEndian16(port) + rest, FIpv4);
    TakeOf(BigEndian16(port), rest, FPort);
    BigEndian16RoundTrip(port, [0, 0]);
  }

  lemma ParseV6Of(ip: seq<byte>, port: u16, rest: seq<byte>)
    requires |ip| == 16
    ensures ParseAddr(AddrBytes(V6(ip, port, 0, 0)) + rest) == Ok((V6(ip, port, 0, 0), rest))
  {
    var s1 := ip + (BigEndian16(port) + rest);
    assert AddrBytes(V6(ip, port, 0, 0)) + rest == [6] + s1;
    TakeOf([6], s1, FAddrType);
    TakeOf(ip, BigEndian16(port) + rest, FIpv6);
    TakeOf(BigEndian16(port), rest, FPort);
    BigEndian16RoundTrip(port, [0, 0]);
  }

  lemma {:induction false} ParseAddrsOf(addrs: seq<SocketAddr>, rest: seq<byte>)
    requires forall i :: 0 <= i < |addrs| ==> Canonical(addrs[i]) == addrs[i]
    ensures ParseAddrs(|addrs|, AddrsBytes(addrs) + rest) == Ok((addrs, rest))
  {
    if addrs == [] {
      assert AddrsBytes(addrs) + rest == rest;
    } else {
      var tail := AddrsBytes(addrs[1..]) + rest;
      assert AddrsBytes(addrs) + rest == AddrBytes(addrs[0]) + tail;
      ParseAddrOf(addrs[0], tail);
      ParseAddrsOf(addrs[1..], rest);
      assert [addrs[0]] + addrs[1..] == addrs;
    }
  }

  lemma ParseRelayOf(relayUrl: Option<string>, flag: byte, rest: seq<byte>)
    requires relayUrl.Some? ==> |Utf8.Encode(relayUrl.value)| <= 65535
    requires relayUrl.Some? <==> flag == 1
    ensures ParseRelay(RelayBytes(relayUrl, flag) + rest) == Ok((relayUrl, rest))
  {
    match relayUrl {
      case None =>
        TakeOf([flag], rest, FRelayPresent);
      case Some(url) =>
        var text := Utf8.Encode(url);
        var len := BigEndian16(|text|);
        assert RelayBytes(relayUrl, flag) + rest == [flag] + (len + (text + rest));
        TakeOf([flag], len + (text + rest), FRelayPresent);
        TakeOf(len, text + rest, FRelayLength);
        BigEndian16RoundTrip(|text|, [0, 0]);
        TakeOf(text, rest, FRelayUrl);
        Utf8.DecodeEncode(url);
    }
  }

  lemma ParseHostOf(hostname: string, rest: seq<byte>)
    requires |Utf8.Encode(hostname)| <= 255
    ensures ParseHost(HostBytes(hostname) + rest) == Ok((hostname, rest))
  {
    var text := Utf8.Encode(hostname);
    assert HostBytes(hostname) + rest == [|text|] + (text + rest);
    TakeOf([|text|], text + rest, FHostnameLength);
    TakeOf(text, rest, FHostname);
    Utf8.DecodeEncode(hostname);
  }

  lemma ParseHeadOf(eid: seq<byte>, token: seq<byte>, count: byte, rest: seq<byte>)
    requires |eid| == 32 && |token| == 16
    ensures ParseHead(HeadBytes(eid, token, count) + rest) == Ok(((eid, token, count), rest))
  {
    var s3 := [count] + rest;
    var s2 := token + s3;
    var s1 := eid + s2;
    assert HeadBytes(eid, token, count) + rest == [1] + s1;
    TakeOf([1], s1, FVersion);
    TakeOf(eid, s2, FEndpointId);
    TakeOf(token, s3, FToken);
    TakeOf([count], rest, FAddrCount);
  }

  /** The decoder is self-delimiting: on laid-out fields followed by anything it returns the
      fields and leaves exactly what followed. */
  lemma ParseFieldsOf(f: Fields, flag: byte, rest: seq<byte>)
    requires Fits(f) && FlagMatches(f, flag)
    ensures ParseFields(Layout(f, flag) + rest) == Ok((f, rest))
  {
    var s3 := HostBytes(f.hostname) + rest;
    var s2 := RelayBytes(f.relayUrl, flag) + s3;
    var s1 := AddrsBytes(f.addrs) + s2;
    LayoutThen(f, flag, rest);
    ParseHeadOf(f.endpointId, f.token, |f.addrs|, s1);
    ParseAddrsOf(f.addrs, s2);
    ParseRelayOf(f.relayUrl, flag, s3);
    ParseHostOf(f.hostname, rest);
  }

  // ---------------------------------------------------------------------------
  // The parser accepts nothing but layouts
  // ---------------------------------------------------------------------------

  lemma AddrOfParse(s: seq<byte>)
    requires ParseAddr(s).Ok?
    ensures var (a, rest) := ParseAddr(s).value;
      Canonical(a) == a && s == AddrBytes(a) + rest
  {
    var (a, rest) := ParseAddr(s).value;
    var n := if a.V4? then 4 else 16;
    BigEndian16RoundTrip(0, s[1..][n..][..2]);
    assert s == [s[0]] + (s[1..][..n] + (s[1..][n..][..2] + s[1..][n..][2..]));
  }

  lemma {:induction false} AddrsOfParse(n: nat, s: seq<byte>)
    requires ParseAddrs(n, s).Ok?
    ensures var (addrs, rest) := ParseAddrs(n, s).value;
      && |addrs| == n
      && (forall i :: 0 <= i < n ==> Canonical(addrs[i]) == addrs[i])
      && s == AddrsBytes(addrs) + rest
  {
    if n == 0 {
    } else {
      AddrOfParse(s);
      var (a, s1) := ParseAddr(s).value;
      AddrsOfParse(n - 1, s1);
      var (tail, s2) := ParseAddrs(n - 1, s1).value;
      AddrsBytesStep(a, tail);
      ConcatAssociative(AddrBytes(a), AddrsBytes(tail), s2);
    }
  }

  lemma AddrsBytesStep(a: SocketAddr, tail: seq<SocketAddr>)
    ensures AddrsBytes([a] + tail) == AddrBytes(a) + AddrsBytes(tail)
  {
    assert ([a] + tail)[1..] == tail;
  }

  lemma RelayOfParse(s: seq<byte>) returns (flag: byte)
    requires ParseRelay(s).Ok?
    ensures var (relayUrl, rest) := ParseRelay(s).value;
      && (relayUrl.Some? <==> flag == 1)
      && (relayUrl.Some? ==> |Utf8.Encode(relayUrl.value)| <= 65535)
      && s == RelayBytes(relayUrl, flag) + rest
  {
    flag := s[0];
    var (relayUrl, rest) := ParseRelay(s).value;
    assert s == [flag] + s[1..];
    if flag == 1 {
      var len, s2 := s[1..][..2], s[1..][2..];
      UrlOfParse(len, s2);
      ConcatAssociative([flag] + len, Utf8.Encode(relayUrl.value), rest);
      assert s == [flag] + len + s2;
    }
  }

  lemma UrlOfParse(len: seq<byte>, s: seq<byte>)
    requires |len| == 2 && FromBigEndian16(len) <= |s| && Utf8.Decode(s[..FromBigEndian16(len)]).Some?
    ensures var n := FromBigEndian16(len);
      var url := Utf8.Encode(Utf8.Decode(s[..n]).value);
      |url| == n && BigEndian16(|url|) == len && s == url + s[n..]
  {
    BigEndian16RoundTrip(0, len);
    Utf8.EncodeDecode(s[..FromBigEndian16(len)]);
  }

  lemma HostOfParse(s: seq<byte>)
    requires ParseHost(s).Ok?
    ensures var (hostname, rest) := ParseHost(s).value;
      |Utf8.Encode(hostname)| <= 255 && s == HostBytes(hostname) + rest
  {
    Utf8.EncodeDecode(s[1..][..s[0]]);
  }

  lemma HeadOfParse(s: seq<byte>)
    requires ParseHead(s).Ok?
    ensures var ((eid, token, count), rest) := ParseHead(s).value;
      s == HeadBytes(eid, token, count) + rest
  {
    var s1 := s[1..];
    var s2 := s1[32..];
    var s3 := s2[16..];
    assert s == [1] + s1;
    FourPieces([1], s1[..32], s2[..16], [s3[0]], s3[1..]);
    assert s1 == s1[..32] + s2 && s2 == s2[..16] + s3 && s3 == [s3[0]] + s3[1..];
  }

  lemma FourPieces(a: seq<byte>, b: seq<byte>, c: seq<byte>, d: seq<byte>, rest: seq<byte>)
    ensures (a + b + c + d) + rest == a + (b + (c + (d + rest)))
  {
    ConcatAssociative(a + b + c, d, rest);
    ConcatAssociative(a + b, c, d + rest);
    ConcatAssociative(a, b, c + (d + rest));
  }

  /** Every accepted input is the layout of the fields returned, up to the flag byte,
      followed by the bytes left over: the decoder reads no further than that. */
  lemma FieldsOfParse(s: seq<byte>) returns (flag: byte)
    requires ParseFields(s).Ok?
    ensures var (f, rest) := ParseFields(s).value;
      Fits(f) && FlagMatches(f, flag) && s == Layout(f, flag) + rest
  {
    HeadOfParse(s);
    var ((eid, token, count), s1) := ParseHead(s).value;
    AddrsOfParse(count, s1);
    var (addrs, s2) := ParseAddrs(count, s1).value;
    flag := RelayOfParse(s2);
    var (relayUrl, s3) := ParseRelay(s2).value;
    HostOfParse(s3);
    var (hostname, s4) := ParseHost(s3).value;
    LayoutThen(Fields(eid, token, addrs, relayUrl, hostname), flag, s4);
  }

  // ---------------------------------------------------------------------------
  // More input never changes an answer
  // ---------------------------------------------------------------------------

  /** What parsing more input may change: nothing but a report of truncation. */
  ghost predicate Extends<T>(short: Parsed<T>, long: Parsed<T>, more: seq<byte>) {
    match short
    case Ok((value, rest)) => long == Ok((value, rest + more))
    case Err(Truncated(_)) => true
    case Err(e) => long == Err(e)
  }

  lemma TakeExtends(n: nat, s: seq<byte>, more: seq<byte>, field: Field)
    ensures Extends(Take(n, s, field), Take(n, s + more, field), more)
  {
    if n <= |s| {
      assert (s + more)[..n] == s[..n] && (s + more)[n..] == s[n..] + more;
    }
  }

  lemma ParseAddrExtends(s: seq<byte>, more: seq<byte>)
    ensures Extends(ParseAddr(s), ParseAddr(s + more), more)
  {
    TakeExtends(1, s, more, FAddrType);
    if |s| >= 1 && s[0] in {4, 6} {
      var n := if s[0] == 4 then 4 else 16;
      TakeExtends(n, s[1..], more, if s[0] == 4 then FIpv4 else FIpv6);
      if |s| >= 1 + n {
        TakeExtends(2, s[1..][n..], more, FPort);
      }
    }
  }

  lemma {:induction false} ParseAddrsExtends(n: nat, s: seq<byte>, more: seq<byte>)
    ensures Extends(ParseAddrs(n, s), ParseAddrs(n, s + more), more)
  {
    if n > 0 {
      ParseAddrExtends(s, more);
      if ParseAddr(s).Ok? {
        ParseAddrsExtends(n - 1, ParseAddr(s).value.1, more);
      }
    }
  }

  lemma ParseRelayExtends(s: seq<byte>, more: seq<byte>)
    ensures Extends(ParseRelay(s), ParseRelay(s + more), more)
  {
    TakeExtends(1, s, more, FRelayPresent);
    if |s| >= 1 && s[0] == 1 {
      TakeExtends(2, s[1..], more, FRelayLength);
      if |s| >= 3 {
        TakeExtends(FromBigEndian16(s[1..][..2]), s[1..][2..], more, FRelayUrl);
      }
    }
  }

  lemma ParseHostExtends(s: seq<byte>, more: seq<byte>)
    ensures Extends(ParseHost(s), ParseHost(s + more), more)
  {
    TakeExtends(1, s, more, FHostnameLength);
    if |s| >= 1 {
      TakeExtends(s[0], s[1..], more, FHostname);
    }
  }

  lemma ParseHeadExtends(s: seq<byte>, more: seq<byte>)
    ensures Extends(ParseHead(s), ParseHead(s + more), more)
  {
    TakeExtends(1, s, more, FVersion);
    if |s| >= 1 && s[0] == 1 {
      TakeExtends(32, s[1..], more, FEndpointId);
      if |s| >= 33 {
        TakeExtends(16, s[1..][32..], more, FToken);
        if |s| >= 49 {
          TakeExtends(1, s[1..][32..][16..], more, FAddrCount);
        }
      }
    }
  }

  lemma ParseFieldsExtends(s: seq<byte>, more: seq<byte>)
    ensures Extends(ParseFields(s), ParseFields(s + more), more)
  {
    ParseHeadExtends(s, more);
    if ParseHead(s).Ok? {
      var (head, s1) := ParseHead(s).value;
      ParseAddrsExtends(head.2, s1, more);
      if ParseAddrs(head.2, s1).Ok? {
        var (_, s2) := ParseAddrs(head.2, s1).value;
        ParseRelayExtends(s2, more);
        if ParseRelay(s2).Ok? {
          ParseHostExtends(ParseRelay(s2).value.1, more);
        }
      }
    }
  }

  /** Cutting a valid binary form anywhere is reported as truncation, never as another
      error and never as a shorter ticket. */
  lemma ProperPrefixIsTruncated(f: Fields, flag: byte, n: nat)
    requires Fits(f) && FlagMatches(f, flag) && n < |Layout(f, flag)|
    ensures ParseFields(Layout(f, flag)[..n]).Err?
    ensures ParseFields(Layout(f, flag)[..n]).error.Truncated?
  {
    ParseFieldsOf(f, flag, []);
    assert Layout(f, flag) + [] == Layout(f, flag);
    PrefixIsTruncated(Layout(f, flag), f, n);
  }

  lemma PrefixIsTruncated(whole: seq<byte>, f: Fields, n: nat)
    requires ParseFields(whole) == Ok((f, [])) && n < |whole|
    ensures ParseFields(whole[..n]).Err?
    ensures ParseFields(whole[..n]).error.Truncated?
  {
    ParseFieldsExtends(whole[..n], whole[n..]);
    assert whole[..n] + whole[n..] == whole;
    NothingShorter(ParseFields(whole[..n]), ParseFields(whole), whole[n..]);
  }

  /** A parse that needed every byte reports truncation on fewer. */
  lemma NothingShorter<T>(short: Parsed<T>, long: Parsed<T>, more: seq<byte>)
    requires Extends(short, long, more) && long.Ok? && long.value.1 == [] && more != []
    ensures short.Err? && short.error.Truncated?
  {
  }
}
