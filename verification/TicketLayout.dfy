/** Where every byte of a ticket's binary form goes, by position, and which inputs are refused and
    how: said without the functions that write and parse it. */
module TicketLayout {
  import opened Bytes
  import opened CompactTicket
  import opened Ticket
  import opened Wrappers
  import Base45
  import Hex
  import Utf8

  // ---------------------------------------------------------------------------
  // Positions
  // ---------------------------------------------------------------------------

  /** A number in the two bytes from position i on, the more significant first. */
  function Word(b: seq<byte>, i: nat): int
    requires i + 1 < |b|
  {
    256 * b[i] as int + b[i + 1] as int
  }

  /** Where the i-th address starts. */
  function AddressStart(addrs: seq<SocketAddr>, i: nat): (n: nat)
    requires i <= |addrs|
  {
    if i == 0 then 50 else AddressStart(addrs, i - 1) + (if addrs[i - 1].V4? then 7 else 19)
  }

  /** A tag, the octets, and the port. */
  ghost predicate AddressAt(b: seq<byte>, i: nat, a: SocketAddr) {
    match a
    case V4(ip, port) => i + 7 <= |b| && b[i] == 4 && b[i + 1..i + 5] == ip && Word(b, i + 5) == port
    case V6(ip, port, _, _) => i + 19 <= |b| && b[i] == 6 && b[i + 1..i + 17] == ip && Word(b, i + 17) == port
  }

  /** A flag, and for a relay the length of its URL and the URL. */
  ghost predicate RelayAt(b: seq<byte>, i: nat, relayUrl: Option<string>, flag: byte) {
    && i < |b| && b[i] == flag
    && match relayUrl
       case None => true
       case Some(url) =>
         var n := |Utf8.Encode(url)|;
         i + 3 + n <= |b| && Word(b, i + 1) == n && b[i + 3..i + 3 + n] == Utf8.Encode(url)
  }

  ghost function RelayEnd(i: nat, relayUrl: Option<string>): nat {
    match relayUrl case None => i + 1 case Some(url) => i + 3 + |Utf8.Encode(url)|
  }

  /** A length and the name. */
  ghost predicate HostAt(b: seq<byte>, i: nat, hostname: string) {
    var n := |Utf8.Encode(hostname)|;
    i + 1 + n <= |b| && b[i] == n && b[i + 1..i + 1 + n] == Utf8.Encode(hostname)
  }

  /** Version 1 in byte 0, the endpoint id in bytes 1 to 32, the token in bytes 33 to 48, the number
      of addresses in byte 49, the addresses, the relay, the host name. */
  ghost predicate LaidOut(b: seq<byte>, f: Fields, flag: byte)
    requires Fits(f)
  {
    var relay := AddressStart(f.addrs, |f.addrs|);
    && 50 <= |b| && b[0] == 1 && b[1..33] == f.endpointId && b[33..49] == f.token && b[49] == |f.addrs|
    && (forall i :: 0 <= i < |f.addrs| ==> AddressAt(b, AddressStart(f.addrs, i), f.addrs[i]))
    && RelayAt(b, relay, f.relayUrl, flag)
    && HostAt(b, RelayEnd(relay, f.relayUrl), f.hostname)
  }

  lemma Middle(a: seq<byte>, b: seq<byte>, c: seq<byte>)
    ensures (a + (b + c))[|a|..|a| + |b|] == b
    ensures forall i :: 0 <= i < |b| ==> (a + (b + c))[|a| + i] == b[i]
  {
  }

  lemma AddressForm(a: SocketAddr, before: seq<byte>, after: seq<byte>)
    ensures AddressAt(before + (AddrBytes(a) + after), |before|, a)
  {
    var b := before + (AddrBytes(a) + after);
    Middle(before, AddrBytes(a), after);
    BigEndian16Layout(a.port, [0, 0]);
    match a {
      case V4(ip, port) => assert b[|before| + 1..|before| + 5] == AddrBytes(a)[1..5] == ip;
      case V6(ip, port, _, _) => assert b[|before| + 1..|before| + 17] == AddrBytes(a)[1..17] == ip;
    }
  }

  lemma {:induction false} AddressSplit(addrs: seq<SocketAddr>, i: nat) returns (before: seq<byte>, after: seq<byte>)
    requires i < |addrs|
    ensures AddrsBytes(addrs) == before + (AddrBytes(addrs[i]) + after)
    ensures 50 + |before| == AddressStart(addrs, i)
  {
    if i == 0 {
      before, after := [], AddrsBytes(addrs[1..]);
    } else {
      before, after := AddressSplit(addrs[1..], i - 1);
      AddressStartTail(addrs, i - 1);
      ConcatAssociative(AddrBytes(addrs[0]), before, AddrBytes(addrs[i]) + after);
      before := AddrBytes(addrs[0]) + before;
    }
  }

  lemma {:induction false} AddressStartTail(addrs: seq<SocketAddr>, i: nat)
    requires i < |addrs|
    ensures AddressStart(addrs, i + 1) == AddressStart(addrs[1..], i) + (if addrs[0].V4? then 7 else 19)
  {
    if i > 0 {
      AddressStartTail(addrs, i - 1);
    }
  }

  lemma {:induction false} AddressesEnd(addrs: seq<SocketAddr>)
    ensures 50 + |AddrsBytes(addrs)| == AddressStart(addrs, |addrs|)
  {
    if addrs != [] {
      AddressesEnd(addrs[1..]);
      AddressStartTail(addrs, |addrs| - 1);
    }
  }

  lemma HeadForm(f: Fields, after: seq<byte>)
    requires Fits(f)
    ensures var b := HeadBytes(f.endpointId, f.token, |f.addrs|) + after;
      50 <= |b| && b[0] == 1 && b[1..33] == f.endpointId && b[33..49] == f.token && b[49] == |f.addrs|
  {
    var head := HeadBytes(f.endpointId, f.token, |f.addrs|);
    assert head[1..33] == f.endpointId && head[33..49] == f.token;
    assert (head + after)[1..33] == head[1..33] && (head + after)[33..49] == head[33..49];
  }

  lemma RelayForm(relayUrl: Option<string>, flag: byte, before: seq<byte>, after: seq<byte>)
    requires relayUrl.Some? ==> |Utf8.Encode(relayUrl.value)| <= 65535
    ensures RelayAt(before + (RelayBytes(relayUrl, flag) + after), |before|, relayUrl, flag)
    ensures RelayEnd(|before|, relayUrl) == |before| + |RelayBytes(relayUrl, flag)|
  {
    Middle(before, RelayBytes(relayUrl, flag), after);
    match relayUrl {
      case None =>
      case Some(url) => SomeRelayForm(Utf8.Encode(url), flag, before, after);
    }
  }

  lemma SomeRelayForm(text: seq<byte>, flag: byte, before: seq<byte>, after: seq<byte>)
    requires |text| <= 65535
    ensures var relay := [flag] + BigEndian16(|text|) + text; var b := before + (relay + after); var i := |before|;
      && b[i] == flag && Word(b, i + 1) == |text| && b[i + 3..i + 3 + |text|] == text
  {
    var relay := [flag] + BigEndian16(|text|) + text;
    BigEndian16Layout(|text|, [0, 0]);
    Middle(before, relay, after);
    assert relay[3..] == text;
    Middle(before + relay[..3], text, after);
    assert before + (relay + after) == before + relay[..3] + (text + after);
  }

  lemma HostForm(hostname: string, before: seq<byte>, after: seq<byte>)
    requires |Utf8.Encode(hostname)| <= 255
    ensures HostAt(before + (HostBytes(hostname) + after), |before|, hostname)
  {
    var b, n := before + (HostBytes(hostname) + after), |Utf8.Encode(hostname)|;
    Middle(before, HostBytes(hostname), after);
    assert b[|before| + 1..|before| + 1 + n] == HostBytes(hostname)[1..];
  }

  /** The layout functions put every byte where it belongs. */
  lemma LayoutIsLaidOut(f: Fields, flag: byte, rest: seq<byte>)
    requires Fits(f)
    ensures LaidOut(Layout(f, flag) + rest, f, flag)
  {
    LayoutThen(f, flag, rest);
    var b := Layout(f, flag) + rest;
    var head := HeadBytes(f.endpointId, f.token, |f.addrs|);
    var host := HostBytes(f.hostname) + rest;
    var relay := RelayBytes(f.relayUrl, flag) + host;
    HeadForm(f, AddrsBytes(f.addrs) + relay);
    AddressesEnd(f.addrs);
    forall i | 0 <= i < |f.addrs|
      ensures AddressAt(b, AddressStart(f.addrs, i), f.addrs[i])
    {
      AddressesForm(f, i, relay);
    }
    ConcatAssociative(head, AddrsBytes(f.addrs), relay);
    RelayForm(f.relayUrl, flag, head + AddrsBytes(f.addrs), host);
    ConcatAssociative(head + AddrsBytes(f.addrs), RelayBytes(f.relayUrl, flag), host);
    HostForm(f.hostname, head + AddrsBytes(f.addrs) + RelayBytes(f.relayUrl, flag), rest);
  }

  lemma AddressesForm(f: Fields, i: nat, after: seq<byte>)
    requires Fits(f) && i < |f.addrs|
    ensures AddressAt(HeadBytes(f.endpointId, f.token, |f.addrs|) + (AddrsBytes(f.addrs) + after),
                      AddressStart(f.addrs, i), f.addrs[i])
  {
    var head := HeadBytes(f.endpointId, f.token, |f.addrs|);
    var x, y := AddressSplit(f.addrs, i);
    var a := AddrBytes(f.addrs[i]);
    ConcatAssociative(x, a + y, after);
    ConcatAssociative(a, y, after);
    ConcatAssociative(head, x, a + (y + after));
    AddressForm(f.addrs[i], head + x, y + after);
  }

  /** What is stored of a ticket: the bytes its hexadecimal texts stand for, every address with its
      octets and port, the URL and the host name. */
  lemma StoredFields(t: Ticket)
    requires Encodable(t)
    ensures var f := FieldsOf(t);
      && Hex.Encode(f.endpointId) == Hex.Lower(t.endpointId) && Hex.Encode(f.token) == Hex.Lower(t.token)
      && f.relayUrl == t.relayUrl && f.hostname == t.hostname && |f.addrs| == |t.addrs|
      && forall i :: 0 <= i < |t.addrs| ==>
           t.addrs[i].Some? && match t.addrs[i].value
             case V4(ip, port) => f.addrs[i] == V4(ip, port)
             case V6(ip, port, _, _) => f.addrs[i] == V6(ip, port, 0, 0)
  {
    Hex.EncodeDecode(t.endpointId);
    Hex.EncodeDecode(t.token);
  }

  /** What the encoder writes for a ticket: its stored fields, laid out, with flag 1 for a relay and
      0 for none, and nothing after them. */
  lemma BinaryIsLaidOut(t: Ticket)
    requires Encodable(t)
    ensures LaidOut(Binary(FieldsOf(t)), FieldsOf(t), if t.relayUrl.Some? then 1 else 0)
  {
    var f, flag := FieldsOf(t), if t.relayUrl.Some? then 1 else 0;
    assert Layout(f, flag) + [] == Layout(f, flag);
    LayoutIsLaidOut(f, flag, []);
  }

  /** What the decoder accepts is laid out as it reads it: flag 1 exactly for a relay. */
  lemma AcceptedIsLaidOut(s: seq<byte>) returns (flag: byte)
    requires ParseFields(s).Ok?
    ensures var f := ParseFields(s).value.0;
      Fits(f) && LaidOut(s, f, flag) && (flag == 1 <==> f.relayUrl.Some?)
  {
    flag := FieldsOfParse(s);
    LayoutIsLaidOut(ParseFields(s).value.0, flag, ParseFields(s).value.1);
  }

  // ---------------------------------------------------------------------------
  // What cannot be encoded
  // ---------------------------------------------------------------------------

  predicate HexOf(s: string) {
    |s| % 2 == 0 && forall i :: 0 <= i < |s| ==> Hex.IsDigit(s[i])
  }

  /** The error names the first thing wrong with the ticket, in this order; without any, it is
      encoded. */
  lemma FaultIsFirstWrong(t: Ticket)
    ensures Fault(t) ==
      if !HexOf(t.endpointId) then Some(EndpointIdNotHex)
      else if |t.endpointId| != 64 then Some(EndpointIdLength)
      else if !HexOf(t.token) then Some(TokenNotHex)
      else if |t.token| != 32 then Some(TokenLength)
      else if None in t.addrs then Some(InvalidSocketAddress)
      else if |t.addrs| > 255 then Some(TooManyAddresses)
      else if t.relayUrl.Some? && |Utf8.Encode(t.relayUrl.value)| > 65535 then Some(RelayUrlTooLong)
      else if |Utf8.Encode(t.hostname)| > 255 then Some(HostnameTooLong)
      else None
  {
    Hex.DecodesIff(t.endpointId);
    Hex.DecodesIff(t.token);
    assert None in t.addrs <==> exists i :: 0 <= i < |t.addrs| && t.addrs[i].None?;
  }

  // ---------------------------------------------------------------------------
  // What cannot be decoded
  // ---------------------------------------------------------------------------

  /** Only version 1 is understood. */
  lemma OtherVersionIsRefused(version: byte, rest: seq<byte>)
    requires version != 1
    ensures ParseFields([version] + rest) == Err(UnsupportedVersion(version))
  {
    TakeOf([version], rest, FVersion);
  }

  /** Addresses are tagged 4 or 6. */
  lemma OtherTagIsRefused(kind: byte, rest: seq<byte>)
    requires kind != 4 && kind != 6
    ensures ParseAddr([kind] + rest) == Err(InvalidAddressType(kind))
  {
    TakeOf([kind], rest, FAddrType);
  }

  /** URL and host name must be UTF-8. */
  lemma BadTextIsRefused(text: seq<byte>, rest: seq<byte>)
    requires Utf8.Decode(text).None?
    ensures |text| <= 65535 ==> ParseRelay([1] + (BigEndian16(|text|) + (text + rest))) == Err(RelayUrlNotUtf8)
    ensures |text| <= 255 ==> ParseHost([|text|] + (text + rest)) == Err(HostnameNotUtf8)
  {
    if |text| <= 65535 {
      var len := BigEndian16(|text|);
      TakeOf([1], len + (text + rest), FRelayPresent);
      TakeOf(len, text + rest, FRelayLength);
      BigEndian16RoundTrip(|text|, [0, 0]);
      TakeOf(text, rest, FRelayUrl);
    }
    if |text| <= 255 {
      TakeOf([|text|], text + rest, FHostnameLength);
      TakeOf(text, rest, FHostname);
    }
  }

  /** A text is refused for its prefix, then for its encoding, then for its bytes. */
  lemma RefusedText(s: string)
    ensures !("SP1:" <= s) ==> DecodeText(s) == Err(MissingPrefix)
    ensures "SP1:" <= s && Base45.Decode(s[4..]).None? ==> DecodeText(s) == Err(InvalidBase45)
    ensures "SP1:" <= s && Base45.Decode(s[4..]).Some? ==>
      (DecodeText(s).Err? <==> ParseFields(Base45.Decode(s[4..]).value).Err?)
  {
  }
}
