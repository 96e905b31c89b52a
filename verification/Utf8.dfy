/** UTF-8 as in section 3 of RFC 3629: the bytes behind every Rust `String`, and behind
    every string that crosses the Kotlin boundary. A Dafny `char` is a Unicode scalar value. */
module Utf8 {
  import opened Bytes
  import opened Wrappers

  function EncodeChar(c: char): (b: seq<byte>)
    ensures 1 <= |b| <= 4
  {
    var n := c as int;
    if n < 0x80 then
      [n]
    else if n < 0x800 then
      [0xC0 + n / 64, Low6(n)]
    else if n < 0x1_0000 then
      [0xE0 + n / 64 / 64, Low6(n / 64), Low6(n)]
    else
      [0xF0 + n / 64 / 64 / 64, Low6(n / 64 / 64), Low6(n / 64), Low6(n)]
  }

  /** The low six bits in a continuation byte. */
  function Low6(n: int): (b: byte)
    ensures IsContinuation(b)
  {
    0x80 + n % 64
  }

  /** Appends the six bits of a continuation byte. */
  function Join(high: int, b: byte): int {
    high * 64 + (b as int - 0x80)
  }

  lemma JoinLow6(n: int)
    ensures Join(n / 64, Low6(n)) == n
  {
  }

  lemma SplitJoin(high: int, b: byte)
    requires IsContinuation(b)
    ensures Join(high, b) / 64 == high && Low6(Join(high, b)) == b
  {
  }

  function Encode(s: string): seq<byte> {
    if s == [] then [] else EncodeChar(s[0]) + Encode(s[1..])
  }

  predicate IsContinuation(b: byte) {
    0x80 <= b < 0xC0
  }

  /** A scalar value that is not a surrogate and not beyond the Unicode range. */
  predicate IsScalar(n: int) {
    0 <= n < 0xD800 || 0xE000 <= n < 0x11_0000
  }

  /** Strict decoding of one character: shortest form only, no surrogates. */
  function DecodeChar(b: seq<byte>): Option<(char, nat)> {
    if |b| == 0 then None
    else if b[0] < 0x80 then
      Some((b[0] as char, 1))
    else if 0xC2 <= b[0] < 0xE0 && |b| >= 2 && IsContinuation(b[1]) then
      Some((Join(b[0] - 0xC0, b[1]) as char, 2))
    else if 0xE0 <= b[0] < 0xF0 && |b| >= 3 && IsContinuation(b[1]) && IsContinuation(b[2]) then
      var n := Join(Join(b[0] - 0xE0, b[1]), b[2]);
      if n >= 0x800 && IsScalar(n) then Some((n as char, 3)) else None
    else if 0xF0 <= b[0] < 0xF5 && |b| >= 4 && IsContinuation(b[1]) && IsContinuation(b[2]) && IsContinuation(b[3]) then
      var n := Join(Join(Join(b[0] - 0xF0, b[1]), b[2]), b[3]);
      if n >= 0x1_0000 && IsScalar(n) then Some((n as char, 4)) else None
    else None
  }

  function Decode(b: seq<byte>): Option<string> {
    if b == [] then Some([])
    else
      match DecodeChar(b)
      case None => None
      case Some((c, n)) =>
        DecodeCharBounds(b);
        match Decode(b[n..])
        case None => None
        case Some(tail) => Some([c] + tail)
  }

  lemma DecodeCharBounds(b: seq<byte>)
    requires DecodeChar(b).Some?
    ensures 1 <= DecodeChar(b).value.1 <= |b|
  {
  }

  lemma DecodeEncodedChar(c: char, rest: seq<byte>)
    ensures DecodeChar(EncodeChar(c) + rest) == Some((c, |EncodeChar(c)|))
  {
    var n := c as int;
    JoinLow6(n);
    JoinLow6(n / 64);
    JoinLow6(n / 64 / 64);
  }

  lemma EncodeDecodedChar(b: seq<byte>)
    requires DecodeChar(b).Some?
    ensures var (c, n) := DecodeChar(b).value;
      1 <= n <= |b| && EncodeChar(c) == b[..n]
  {
    if b[0] < 0x80 {
    } else if b[0] < 0xE0 {
      SplitJoin(b[0] - 0xC0, b[1]);
    } else if b[0] < 0xF0 {
      SplitJoin(b[0] - 0xE0, b[1]);
      SplitJoin(Join(b[0] - 0xE0, b[1]), b[2]);
    } else {
      SplitJoin(b[0] - 0xF0, b[1]);
      SplitJoin(Join(b[0] - 0xF0, b[1]), b[2]);
      SplitJoin(Join(Join(b[0] - 0xF0, b[1]), b[2]), b[3]);
    }
  }

  /** Decoding is a left inverse of encoding. */
  lemma {:induction false} DecodeEncode(s: string)
    ensures Decode(Encode(s)) == Some(s)
  {
    if s == [] {
    } else {
      var head, tail := EncodeChar(s[0]), Encode(s[1..]);
      DecodeEncodedChar(s[0], tail);
      DecodeEncode(s[1..]);
      assert (head + tail)[|head|..] == tail;
      assert [s[0]] + s[1..] == s;
    }
  }

  /** Strict decoding accepts nothing but encodings, so it is a right inverse too. */
  lemma {:induction false} EncodeDecode(b: seq<byte>)
    requires Decode(b).Some?
    ensures Encode(Decode(b).value) == b
    decreases |b|
  {
    if b == [] {
    } else {
      var c, n, tail := DecodeStep(b);
      EncodeDecode(b[n..]);
      EncodeStep(c, tail);
    }
  }

  lemma DecodeStep(b: seq<byte>) returns (c: char, n: nat, tail: string)
    requires b != [] && Decode(b).Some?
    ensures 1 <= n <= |b| && Decode(b[n..]) == Some(tail)
    ensures Decode(b).value == [c] + tail && b == EncodeChar(c) + b[n..]
  {
    EncodeDecodedChar(b);
    c, n := DecodeChar(b).value.0, DecodeChar(b).value.1;
    tail := Decode(b[n..]).value;
    assert b[..n] + b[n..] == b;
  }

  lemma EncodeStep(c: char, tail: string)
    ensures Encode([c] + tail) == EncodeChar(c) + Encode(tail)
  {
    assert ([c] + tail)[1..] == tail;
  }

  /** The table of section 3 of RFC 3629: how many bytes, which lead byte, and that the free bits
      of all of them are the character's number. */
  lemma EncodeCharLayout(c: char)
    ensures var n, b := c as int, EncodeChar(c);
      && (n < 0x80 ==> b == [n])
      && (0x80 <= n < 0x800 ==>
            |b| == 2 && 0xC0 <= b[0] < 0xE0 && 0x80 <= b[1] < 0xC0
            && n == (b[0] as int - 0xC0) * 64 + (b[1] as int - 0x80))
      && (0x800 <= n < 0x1_0000 ==>
            |b| == 3 && 0xE0 <= b[0] < 0xF0 && 0x80 <= b[1] < 0xC0 && 0x80 <= b[2] < 0xC0
            && n == ((b[0] as int - 0xE0) * 64 + (b[1] as int - 0x80)) * 64 + (b[2] as int - 0x80))
      && (0x1_0000 <= n ==>
            |b| == 4 && 0xF0 <= b[0] < 0xF8 && 0x80 <= b[1] < 0xC0 && 0x80 <= b[2] < 0xC0 && 0x80 <= b[3] < 0xC0
            && n == (((b[0] as int - 0xF0) * 64 + (b[1] as int - 0x80)) * 64 + (b[2] as int - 0x80)) * 64
                    + (b[3] as int - 0x80))
  {
  }
}
