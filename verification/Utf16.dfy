/** Kotlin strings: UTF-16 code units, converted to and from Unicode text and UTF-8. */
module Utf16 {
  import opened Bytes
  import opened Wrappers
  import Utf8

  type Units = seq<u16>

  predicate IsHigh(u: u16) {
    0xD800 <= u < 0xDC00
  }

  predicate IsLow(u: u16) {
    0xDC00 <= u < 0xE000
  }

  /** None when a surrogate stands alone. */
  function ToText(s: Units): Option<string> {
    if s == [] then Some([])
    else if !IsHigh(s[0]) && !IsLow(s[0]) then
      match ToText(s[1..])
      case Some(tail) => Some([s[0] as char] + tail)
      case None => None
    else if IsHigh(s[0]) && |s| >= 2 && IsLow(s[1]) then
      match ToText(s[2..])
      case Some(tail) => Some([PairChar(s[0], s[1])] + tail)
      case None => None
    else None
  }

  function PairChar(high: u16, low: u16): (c: char)
    requires IsHigh(high) && IsLow(low)
    ensures c as int >= 0x1_0000
  {
    (0x1_0000 + (high as int - 0xD800) * 0x400 + (low as int - 0xDC00)) as char
  }

  function UnitsOf(c: char): Units {
    var n := c as int;
    if n < 0x1_0000 then [n]
    else [0xD800 + (n - 0x1_0000) / 0x400, 0xDC00 + (n - 0x1_0000) % 0x400]
  }

  function FromText(t: string): Units {
    if t == [] then [] else UnitsOf(t[0]) + FromText(t[1..])
  }

  /** The bytes a string is written as; None when it has a lone surrogate. */
  function ToUtf8(s: Units): Option<seq<byte>> {
    match ToText(s)
    case Some(t) => Some(Utf8.Encode(t))
    case None => None
  }

  function FromUtf8(b: seq<byte>): Option<Units> {
    match Utf8.Decode(b)
    case Some(t) => Some(FromText(t))
    case None => None
  }

  lemma PairUnits(high: u16, low: u16)
    requires IsHigh(high) && IsLow(low)
    ensures UnitsOf(PairChar(high, low)) == [high, low]
  {
    var h, l := high as int - 0xD800, low as int - 0xDC00;
    assert (h * 0x400 + l) / 0x400 == h && (h * 0x400 + l) % 0x400 == l;
  }

  lemma {:induction false} FromTextToText(s: Units)
    requires ToText(s).Some?
    ensures FromText(ToText(s).value) == s
    decreases |s|
  {
    if s == [] {
    } else {
      var c, n, tail := ToTextStep(s);
      FromTextToText(s[n..]);
      FromTextStep(c, tail);
    }
  }

  lemma ToTextStep(s: Units) returns (c: char, n: nat, tail: string)
    requires s != [] && ToText(s).Some?
    ensures 1 <= n <= |s| && ToText(s[n..]) == Some(tail)
    ensures ToText(s).value == [c] + tail && s == UnitsOf(c) + s[n..]
  {
    n := if IsHigh(s[0]) then 2 else 1;
    c := if IsHigh(s[0]) then PairChar(s[0], s[1]) else s[0] as char;
    tail := ToText(s[n..]).value;
    if IsHigh(s[0]) {
      PairUnits(s[0], s[1]);
    }
    assert s == s[..n] + s[n..];
  }

  lemma FromTextStep(c: char, tail: string)
    ensures FromText([c] + tail) == UnitsOf(c) + FromText(tail)
  {
    assert ([c] + tail)[1..] == tail;
  }

  /** Writing a string and reading the bytes back gives the string. */
  lemma Utf8RoundTrip(s: Units)
    requires ToUtf8(s).Some?
    ensures FromUtf8(ToUtf8(s).value) == Some(s)
  {
    Utf8.DecodeEncode(ToText(s).value);
    FromTextToText(s);
  }

  /** UTF-8 takes at most three bytes per UTF-16 unit. */
  lemma {:induction false} ThreeBytesPerUnit(s: Units)
    requires ToUtf8(s).Some?
    ensures |ToUtf8(s).value| <= 3 * |s|
    decreases |s|
  {
    if s == [] {
    } else {
      var t := ToText(s).value;
      var n := if IsHigh(s[0]) then 2 else 1;
      assert t[1..] == ToText(s[n..]).value;
      ThreeBytesPerUnit(s[n..]);
    }
  }

  /** Characters beyond the first 65536 are a pair: ten bits after D800, ten after DC00. */
  lemma UnitsForm(c: char)
    ensures var n, u := c as int, UnitsOf(c);
      && (n < 0x1_0000 ==> u == [n])
      && (n >= 0x1_0000 ==>
            |u| == 2 && 0xD800 <= u[0] < 0xDC00 && 0xDC00 <= u[1] < 0xE000
            && n - 0x1_0000 == 0x400 * (u[0] as int - 0xD800) + (u[1] as int - 0xDC00))
  {
  }

  /** The first unit is no low surrogate, every high one is followed by a low one, and a low one
      by no other low one. */
  ghost predicate Paired(s: Units) {
    && (s != [] ==> !(0xDC00 <= s[0] < 0xE000))
    && (s != [] ==> !(0xD800 <= s[|s| - 1] < 0xDC00))
    && forall i :: 0 <= i < |s| - 1 ==> (0xD800 <= s[i] < 0xDC00 <==> 0xDC00 <= s[i + 1] < 0xE000)
  }

  /** A string can be written exactly when no surrogate in it stands alone. */
  lemma {:induction false} WritableIff(s: Units)
    ensures ToUtf8(s).Some? <==> Paired(s)
    decreases |s|
  {
    if s == [] {
    } else if IsHigh(s[0]) && |s| >= 2 && IsLow(s[1]) {
      WritableIff(s[2..]);
      assert forall i :: 0 <= i < |s| - 2 ==> s[2..][i] == s[i + 2];
      PairedTail(s, 2);
    } else if !IsHigh(s[0]) && !IsLow(s[0]) {
      WritableIff(s[1..]);
      PairedTail(s, 1);
    }
  }

  lemma PairedTail(s: Units, n: nat)
    requires || (n == 1 && |s| >= 1 && !IsHigh(s[0]) && !IsLow(s[0]))
             || (n == 2 && |s| >= 2 && IsHigh(s[0]) && IsLow(s[1]))
    ensures Paired(s) <==> Paired(s[n..])
  {
    var t := s[n..];
    if Paired(t) {
      forall i | 0 <= i < |s| - 1
        ensures 0xD800 <= s[i] < 0xDC00 <==> 0xDC00 <= s[i + 1] < 0xE000
      {
        assert i >= n ==> s[i] == t[i - n] && s[i + 1] == t[i - n + 1];
        assert i == n - 1 && t != [] ==> s[i + 1] == t[0];
      }
    }
    if Paired(s) {
      assert n < |s| ==> (0xD800 <= s[n - 1] < 0xDC00 <==> 0xDC00 <= s[n - 1 + 1] < 0xE000);
      forall i | 0 <= i < |t| - 1
        ensures 0xD800 <= t[i] < 0xDC00 <==> 0xDC00 <= t[i + 1] < 0xE000
      {
        assert t[i] == s[i + n] && t[i + 1] == s[i + n + 1];
      }
    }
  }
}
