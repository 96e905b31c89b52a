/** Base 16 (section 8 of RFC 4648): lower-case output, either case accepted on input. */
module Hex {
  import opened Bytes
  import opened Wrappers

  function Digit(d: int): char
    requires 0 <= d < 16
  {
    if d < 10 then ('0' as int + d) as char else ('a' as int + (d - 10)) as char
  }

  function DigitValue(c: char): (v: Option<int>)
    ensures v.Some? ==> 0 <= v.value < 16
  {
    if '0' <= c <= '9' then Some(c as int - '0' as int)
    else if 'a' <= c <= 'f' then Some(c as int - 'a' as int + 10)
    else if 'A' <= c <= 'F' then Some(c as int - 'A' as int + 10)
    else None
  }

  /** The ASCII lower-case form of a hexadecimal digit; other characters are kept. */
  function LowerChar(c: char): char {
    if 'A' <= c <= 'F' then (c as int + 32) as char else c
  }

  function Lower(s: string): (r: string)
    ensures |r| == |s|
  {
    seq(|s|, i requires 0 <= i < |s| => LowerChar(s[i]))
  }

  function Encode(b: seq<byte>): (s: string)
    ensures |s| == 2 * |b|
  {
    if b == [] then [] else [Digit(b[0] / 16), Digit(b[0] % 16)] + Encode(b[1..])
  }

  /** None for an odd number of characters or a character that is no digit. */
  function Decode(s: string): (b: Option<seq<byte>>)
    ensures b.Some? ==> |s| == 2 * |b.value|
  {
    if |s| == 0 then Some([])
    else if |s| == 1 then None
    else
      match (DigitValue(s[0]), DigitValue(s[1]), Decode(s[2..]))
      case (Some(hi), Some(lo), Some(tail)) => Some([hi * 16 + lo] + tail)
      case _ => None
  }

  lemma DigitRoundTrip(d: nat)
    requires d < 16
    ensures DigitValue(Digit(d)) == Some(d)
  {
  }

  lemma DigitOfValue(c: char)
    requires DigitValue(c).Some?
    ensures Digit(DigitValue(c).value) == LowerChar(c)
  {
  }

  lemma {:induction false} DecodeEncode(b: seq<byte>)
    ensures Decode(Encode(b)) == Some(b)
  {
    if b == [] {
    } else {
      var s := Encode(b);
      DigitRoundTrip(b[0] / 16);
      DigitRoundTrip(b[0] % 16);
      DecodeEncode(b[1..]);
      assert s[2..] == Encode(b[1..]);
      assert [b[0]] + b[1..] == b;
    }
  }

  /** Re-encoding what was decoded lower-cases the text and changes nothing else. */
  lemma {:induction false} EncodeDecode(s: string)
    requires Decode(s).Some?
    ensures Encode(Decode(s).value) == Lower(s)
    decreases |s|
  {
    if |s| == 0 {
    } else {
      var b := Decode(s).value;
      DigitOfValue(s[0]);
      DigitOfValue(s[1]);
      EncodeDecode(s[2..]);
      assert b[1..] == Decode(s[2..]).value;
      var hi, lo := DigitValue(s[0]).value, DigitValue(s[1]).value;
      assert b[0] / 16 == hi && b[0] % 16 == lo;
      assert Lower(s) == [LowerChar(s[0]), LowerChar(s[1])] + Lower(s[2..]);
    }
  }

  /** Upper-case and lower-case digits decode alike. */
  lemma {:induction false} DecodeLower(s: string)
    ensures Decode(Lower(s)) == Decode(s)
    decreases |s|
  {
    if |s| < 2 {
    } else {
      DecodeLower(s[2..]);
      assert Lower(s)[2..] == Lower(s[2..]);
    }
  }

  /** Each byte is two digits, the high half first. */
  lemma {:induction false} EncodeAt(b: seq<byte>, i: nat)
    requires i < |b|
    ensures Encode(b)[2 * i] == SYMBOLS[b[i] / 16] && Encode(b)[2 * i + 1] == SYMBOLS[b[i] % 16]
  {
    if i == 0 {
      DigitIsSymbol(b[0] / 16);
      DigitIsSymbol(b[0] % 16);
    } else {
      EncodeAt(b[1..], i - 1);
    }
  }

  const SYMBOLS := "0123456789" + "abcdef"

  lemma DigitIsSymbol(d: nat)
    requires d < 16
    ensures Digit(d) == SYMBOLS[d]
  {
    assert d < 10 ==> SYMBOLS[d] == "0123456789"[d];
    assert d >= 10 ==> SYMBOLS[d] == "abcdef"[d - 10];
  }

  /** A text is decoded exactly when it is pairs of digits, in either case. */
  lemma {:induction false} DecodesIff(s: string)
    ensures Decode(s).Some? <==> |s| % 2 == 0 && forall i :: 0 <= i < |s| ==> IsDigit(s[i])
    decreases |s|
  {
    if |s| >= 2 {
      DecodesIff(s[2..]);
      assert s == [s[0], s[1]] + s[2..];
    }
  }

  predicate IsDigit(c: char) {
    '0' <= c <= '9' || 'a' <= c <= 'f' || 'A' <= c <= 'F'
  }
}
