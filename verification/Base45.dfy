/** Base 45 (section 4 of RFC 9285): two bytes become three characters, a last single byte two. */
module Base45 {
  import opened Bytes
  import opened Wrappers

  /** The 45 characters a QR code stores in alphanumeric mode. */
  const DECIMAL := "0123456789"
  const CAPITALS := "ABCDEFGHIJKLMNOPQRSTUVWXYZ"
  const SYMBOLS := " $%*+-./:"
  const ALPHABET := DECIMAL + CAPITALS + SYMBOLS

  predicate QrAlphanumeric(s: string) {
    forall i :: 0 <= i < |s| ==> s[i] in ALPHABET
  }

  function Digit(d: int): (c: char)
    requires 0 <= d < 45
  {
    if d < 10 then ('0' as int + d) as char
    else if d < 36 then ('A' as int + (d - 10)) as char
    else SYMBOLS[d - 36]
  }

  lemma DigitIsAlphabet(d: int)
    requires 0 <= d < 45
    ensures Digit(d) == ALPHABET[d]
    ensures Digit(d) in ALPHABET
  {
    assert ALPHABET == DECIMAL + CAPITALS + SYMBOLS;
    if d < 10 {
      assert ALPHABET[d] == DECIMAL[d];
    } else if d < 36 {
      assert ALPHABET[d] == CAPITALS[d - 10];
    } else {
      assert ALPHABET[d] == SYMBOLS[d - 36];
    }
  }

  function DigitValue(c: char): (v: Option<int>)
    ensures v.Some? ==> 0 <= v.value < 45 && Digit(v.value) == c
  {
    if '0' <= c <= '9' then Some(c as int - '0' as int)
    else if 'A' <= c <= 'Z' then Some(c as int - 'A' as int + 10)
    else match c
      case ' ' => Some(36)
      case '$' => Some(37)
      case '%' => Some(38)
      case '*' => Some(39)
      case '+' => Some(40)
      case '-' => Some(41)
      case '.' => Some(42)
      case '/' => Some(43)
      case ':' => Some(44)
      case _ => None
  }

  lemma DigitRoundTrip(d: int)
    requires 0 <= d < 45
    ensures DigitValue(Digit(d)) == Some(d)
  {
  }

  /** A pair of bytes in three digits, least significant first. */
  function Triple(n: int): (s: string)
    requires 0 <= n < 0x1_0000
    ensures |s| == 3
  {
    [Digit(n % 45), Digit(n / 45 % 45), Digit(n / 2025)]
  }

  /** A last single byte in two digits. */
  function Pair(x: byte): (s: string)
    ensures |s| == 2
  {
    [Digit(x % 45), Digit(x / 45)]
  }

  function Encode(b: seq<byte>): (s: string)
    ensures |s| == 3 * (|b| / 2) + 2 * (|b| % 2)
  {
    if |b| == 0 then []
    else if |b| == 1 then Pair(b[0])
    else Triple(b[0] as int * 256 + b[1] as int) + Encode(b[2..])
  }

  function TripleValue(s: string): (n: Option<int>)
    requires |s| == 3
    ensures n.Some? ==> 0 <= n.value < 0x1_0000
  {
    match (DigitValue(s[0]), DigitValue(s[1]), DigitValue(s[2]))
    case (Some(c), Some(d), Some(e)) =>
      var n := c + 45 * d + 2025 * e;
      if n < 0x1_0000 then Some(n) else None
    case _ => None
  }

  function PairValue(s: string): Option<byte>
    requires |s| == 2
  {
    match (DigitValue(s[0]), DigitValue(s[1]))
    case (Some(c), Some(d)) => if c + 45 * d < 256 then Some(c + 45 * d) else None
    case _ => None
  }

  function Decode(s: string): Option<seq<byte>> {
    if |s| == 0 then Some([])
    else if |s| == 1 then None
    else if |s| == 2 then
      (match PairValue(s)
       case Some(x) => Some([x])
       case None => None)
    else
      match (TripleValue(s[..3]), Decode(s[3..]))
      case (Some(n), Some(tail)) => Some([n / 256, n % 256] + tail)
      case _ => None
  }

  lemma TripleRoundTrip(n: int)
    requires 0 <= n < 0x1_0000
    ensures TripleValue(Triple(n)) == Some(n)
  {
    DigitRoundTrip(n % 45);
    DigitRoundTrip(n / 45 % 45);
    DigitRoundTrip(n / 2025);
    assert n / 45 / 45 == n / 2025;
  }

  lemma PairRoundTrip(x: byte)
    ensures PairValue(Pair(x)) == Some(x)
  {
    DigitRoundTrip(x % 45);
    DigitRoundTrip(x / 45);
  }

  lemma PairSplits(x: byte, y: byte)
    ensures (x as int * 256 + y as int) / 256 == x && (x as int * 256 + y as int) % 256 == y
  {
  }

  lemma {:induction false} DecodeEncode(b: seq<byte>)
    ensures Decode(Encode(b)) == Some(b)
  {
    if |b| == 0 {
    } else if |b| == 1 {
      DecodeLast(b[0]);
      assert [b[0]] == b;
    } else {
      DecodeEncode(b[2..]);
      DecodePair(b[0], b[1], b[2..]);
      assert [b[0], b[1]] + b[2..] == b;
    }
  }

  lemma {:induction false} DecodeLast(x: byte)
    ensures Decode(Encode([x])) == Some([x])
  {
    PairRoundTrip(x);
    assert Encode([x]) == Pair(x);
  }

  lemma {:induction false} DecodePair(x: byte, y: byte, tail: seq<byte>)
    requires Decode(Encode(tail)) == Some(tail)
    ensures Decode(Encode([x, y] + tail)) == Some([x, y] + tail)
  {
    var n := x as int * 256 + y as int;
    PairSplits(x, y);
    EncodeTriple(n, tail);
    DecodeTriple(n, Encode(tail));
  }

  lemma DecodeTriple(n: int, tail: string)
    requires 0 <= n < 0x1_0000 && Decode(tail).Some?
    ensures Decode(Triple(n) + tail) == Some([n / 256, n % 256] + Decode(tail).value)
  {
    TripleRoundTrip(n);
    assert (Triple(n) + tail)[..3] == Triple(n) && (Triple(n) + tail)[3..] == tail;
  }

  /** Each accepted text is the encoding of what it decodes to: no two texts share a value. */
  lemma {:induction false} EncodeDecode(s: string)
    requires Decode(s).Some?
    ensures Encode(Decode(s).value) == s
  {
    if |s| == 0 {
    } else if |s| == 2 {
      PairOfValue(s);
    } else {
      EncodeDecode(s[3..]);
      EncodeDecodeTriple(s[..3], s[3..]);
      assert s == s[..3] + s[3..];
    }
  }

  lemma {:induction false} EncodeDecodeTriple(s: string, tail: string)
    requires |s| == 3 && Decode(s + tail).Some? && Decode(tail).Some? && Encode(Decode(tail).value) == tail
    ensures Encode(Decode(s + tail).value) == s + tail
  {
    assert (s + tail)[..3] == s && (s + tail)[3..] == tail;
    TripleOfValue(s);
    EncodeTriple(TripleValue(s).value, Decode(tail).value);
  }

  lemma EncodeTriple(n: int, tail: seq<byte>)
    requires 0 <= n < 0x1_0000
    ensures Encode([n / 256, n % 256] + tail) == Triple(n) + Encode(tail)
  {
    assert ([n / 256, n % 256] + tail)[2..] == tail;
    assert n / 256 * 256 + n % 256 == n;
  }

  lemma TripleOfValue(s: string)
    requires |s| == 3 && TripleValue(s).Some?
    ensures Triple(TripleValue(s).value) == s
  {
    DigitsOf(DigitValue(s[0]).value, DigitValue(s[1]).value, DigitValue(s[2]).value);
  }

  lemma PairOfValue(s: string)
    requires |s| == 2 && PairValue(s).Some?
    ensures Pair(PairValue(s).value) == s
  {
    DigitsOf(DigitValue(s[0]).value, DigitValue(s[1]).value, 0);
  }

  lemma DigitsOf(c: int, d: int, e: int)
    requires 0 <= c < 45 && 0 <= d < 45 && 0 <= e < 45
    ensures var n := c + 45 * d + 2025 * e;
      n % 45 == c && n / 45 % 45 == d && n / 2025 == e && (e == 0 ==> n / 45 == d)
  {
    var m := d + 45 * e;
    assert (c + 45 * m) % 45 == c && (c + 45 * m) / 45 == m;
    assert m % 45 == d && m / 45 == e;
  }

  /** Encoded text needs no more than the QR alphanumeric character set. */
  lemma {:induction false} EncodeIsQrAlphanumeric(b: seq<byte>)
    ensures QrAlphanumeric(Encode(b))
  {
    if |b| == 0 {
    } else if |b| == 1 {
      DigitIsAlphabet(b[0] % 45);
      DigitIsAlphabet(b[0] / 45);
    } else {
      TripleIsQrAlphanumeric(b[0] as int * 256 + b[1] as int);
      EncodeIsQrAlphanumeric(b[2..]);
      QrAlphanumericConcat(Triple(b[0] as int * 256 + b[1] as int), Encode(b[2..]));
    }
  }

  lemma TripleIsQrAlphanumeric(n: int)
    requires 0 <= n < 0x1_0000
    ensures QrAlphanumeric(Triple(n))
  {
    DigitIsAlphabet(n % 45);
    DigitIsAlphabet(n / 45 % 45);
    DigitIsAlphabet(n / 2025);
  }

  lemma QrAlphanumericConcat(s: string, t: string)
    requires QrAlphanumeric(s) && QrAlphanumeric(t)
    ensures QrAlphanumeric(s + t)
  {
  }

  /** The defining equation of base 45: each pair of bytes, read as a number with the first byte
      the more significant, is written with its least significant digit first. */
  lemma {:induction false} EncodeTripleAt(b: seq<byte>, i: nat) returns (c: nat, d: nat, e: nat)
    requires 2 * i + 1 < |b|
    ensures c < 45 && d < 45 && e < 45
    ensures Encode(b)[3 * i..3 * i + 3] == [ALPHABET[c], ALPHABET[d], ALPHABET[e]]
    ensures c + 45 * d + 2025 * e == 256 * b[2 * i] as int + b[2 * i + 1] as int
  {
    if i == 0 {
      var n := b[0] as int * 256 + b[1] as int;
      c, d, e := n % 45, n / 45 % 45, n / 2025;
      TripleEquation(n);
      assert Encode(b)[..3] == Triple(n);
    } else {
      c, d, e := EncodeTripleAt(b[2..], i - 1);
      var tail := Encode(b[2..]);
      assert Encode(b)[3..] == tail;
      assert Encode(b)[3 * i..3 * i + 3] == tail[3 * (i - 1)..3 * (i - 1) + 3];
    }
  }

  lemma TripleEquation(n: int)
    requires 0 <= n < 0x1_0000
    ensures Triple(n) == [ALPHABET[n % 45], ALPHABET[n / 45 % 45], ALPHABET[n / 2025]]
    ensures n % 45 + 45 * (n / 45 % 45) + 2025 * (n / 2025) == n
  {
    DigitIsAlphabet(n % 45);
    DigitIsAlphabet(n / 45 % 45);
    DigitIsAlphabet(n / 2025);
    assert n / 45 / 45 == n / 2025;
  }

  /** A last single byte is two digits, the least significant first. */
  lemma {:induction false} EncodeLastAt(b: seq<byte>) returns (c: nat, d: nat)
    requires |b| % 2 == 1
    ensures c < 45 && d < 45
    ensures Encode(b)[3 * (|b| / 2)..] == [ALPHABET[c], ALPHABET[d]] && c + 45 * d == b[|b| - 1]
  {
    if |b| == 1 {
      c, d := b[0] % 45, b[0] / 45;
      DigitIsAlphabet(c);
      DigitIsAlphabet(d);
    } else {
      c, d := EncodeLastAt(b[2..]);
      assert Encode(b)[3..] == Encode(b[2..]);
      assert Encode(b)[3 * (|b| / 2)..] == Encode(b[2..])[3 * (|b[2..]| / 2)..];
    }
  }
}
