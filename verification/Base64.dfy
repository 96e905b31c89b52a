/** Base 64 with padding (section 4 of RFC 4648): three bytes become four characters. */
module Base64 {
  import opened Bytes
  import opened Wrappers

  function Digit(d: int): (c: char)
    requires 0 <= d < 64
    ensures PlainChar(c) && c != '='
  {
    if d < 26 then ('A' as int + d) as char
    else if d < 52 then ('a' as int + (d - 26)) as char
    else if d < 62 then ('0' as int + (d - 52)) as char
    else if d == 62 then '+'
    else '/'
  }

  function DigitValue(c: char): (v: Option<int>)
    ensures v.Some? ==> 0 <= v.value < 64
  {
    if 'A' <= c <= 'Z' then Some(c as int - 'A' as int)
    else if 'a' <= c <= 'z' then Some(c as int - 'a' as int + 26)
    else if '0' <= c <= '9' then Some(c as int - '0' as int + 52)
    else if c == '+' then Some(62)
    else if c == '/' then Some(63)
    else None
  }

  /** Three bytes in four digits. */
  function Group(x: byte, y: byte, z: byte): (s: string)
    ensures |s| == 4
  {
    [Digit(x / 4), Digit(x % 4 * 16 + y / 16), Digit(y % 16 * 4 + z / 64), Digit(z % 64)]
  }

  /** The last group when one byte is left: eight bits in two digits. */
  function LastOne(x: byte): (s: string)
    ensures |s| == 4
  {
    [Digit(x / 4), Digit(x % 4 * 16), '=', '=']
  }

  /** The last group when two bytes are left: sixteen bits in three digits. */
  function LastTwo(x: byte, y: byte): (s: string)
    ensures |s| == 4
  {
    [Digit(x / 4), Digit(x % 4 * 16 + y / 16), Digit(y % 16 * 4), '=']
  }

  function Encode(b: seq<byte>): (s: string)
    ensures |s| == 4 * ((|b| + 2) / 3)
  {
    if |b| == 0 then []
    else if |b| == 1 then LastOne(b[0])
    else if |b| == 2 then LastTwo(b[0], b[1])
    else
      GroupCount(|b|);
      Group(b[0], b[1], b[2]) + Encode(b[3..])
  }

  lemma GroupCount(n: nat)
    requires n >= 3
    ensures 4 * ((n + 2) / 3) == 4 + 4 * ((n - 3 + 2) / 3)
  {
  }

  function GroupValue(s: string): Option<seq<byte>>
    requires |s| == 4
  {
    match (DigitValue(s[0]), DigitValue(s[1]), DigitValue(s[2]), DigitValue(s[3]))
    case (Some(c), Some(d), Some(e), Some(f)) => Some([c * 4 + d / 16, d % 16 * 16 + e / 4, e % 4 * 64 + f])
    case _ => None
  }

  /** The bits a last group leaves unused must be zero. */
  function OneValue(s: string): Option<seq<byte>>
    requires |s| == 4
  {
    match (DigitValue(s[0]), DigitValue(s[1]))
    case (Some(c), Some(d)) => if d % 16 == 0 then Some([c * 4 + d / 16]) else None
    case _ => None
  }

  function TwoValue(s: string): Option<seq<byte>>
    requires |s| == 4
  {
    match (DigitValue(s[0]), DigitValue(s[1]), DigitValue(s[2]))
    case (Some(c), Some(d), Some(e)) => if e % 4 == 0 then Some([c * 4 + d / 16, d % 16 * 16 + e / 4]) else None
    case _ => None
  }

  /** Padding may close the last group only. */
  function Decode(s: string): Option<seq<byte>> {
    if |s| == 0 then Some([])
    else if |s| < 4 then None
    else if |s| == 4 && s[2] == '=' && s[3] == '=' then OneValue(s)
    else if |s| == 4 && s[3] == '=' then TwoValue(s)
    else
      match (GroupValue(s[..4]), Decode(s[4..]))
      case (Some(head), Some(tail)) => Some(head + tail)
      case _ => None
  }

  lemma DigitRoundTrip(d: int)
    requires 0 <= d < 64
    ensures DigitValue(Digit(d)) == Some(d) && Digit(d) != '='
  {
  }

  lemma GroupOfDigits(c: int, d: int, e: int, f: int)
    requires 0 <= c < 64 && 0 <= d < 64 && 0 <= e < 64 && 0 <= f < 64
    ensures GroupValue([Digit(c), Digit(d), Digit(e), Digit(f)])
         == Some([c * 4 + d / 16, d % 16 * 16 + e / 4, e % 4 * 64 + f])
  {
    DigitRoundTrip(c);
    DigitRoundTrip(d);
    DigitRoundTrip(e);
    DigitRoundTrip(f);
  }

  lemma BitsRegroup(x: byte, y: byte, z: byte)
    ensures x / 4 * 4 + (x % 4 * 16 + y / 16) / 16 == x
    ensures (x % 4 * 16 + y / 16) % 16 * 16 + (y % 16 * 4 + z / 64) / 4 == y
    ensures (y % 16 * 4 + z / 64) % 4 * 64 + z % 64 == z
  {
  }

  lemma GroupRoundTrip(x: byte, y: byte, z: byte)
    ensures GroupValue(Group(x, y, z)) == Some([x, y, z]) && Group(x, y, z)[3] != '='
  {
    GroupOfDigits(x / 4, x % 4 * 16 + y / 16, y % 16 * 4 + z / 64, z % 64);
    BitsRegroup(x, y, z);
  }

  lemma OneRoundTrip(x: byte)
    ensures OneValue(LastOne(x)) == Some([x])
  {
    DigitRoundTrip(x / 4);
    DigitRoundTrip(x % 4 * 16);
  }

  lemma TwoRoundTrip(x: byte, y: byte)
    ensures TwoValue(LastTwo(x, y)) == Some([x, y]) && LastTwo(x, y)[2] != '='
  {
    DigitRoundTrip(x / 4);
    DigitRoundTrip(x % 4 * 16 + y / 16);
    DigitRoundTrip(y % 16 * 4);
  }

  lemma {:induction false} DecodeGroup(x: byte, y: byte, z: byte, tail: string)
    requires Decode(tail).Some?
    ensures Decode(Group(x, y, z) + tail) == Some([x, y, z] + Decode(tail).value)
  {
    var s := Group(x, y, z) + tail;
    GroupRoundTrip(x, y, z);
    assert s[..4] == Group(x, y, z) && s[4..] == tail && s[3] != '=';
  }

  lemma {:induction false} DecodeOne(x: byte)
    ensures Decode(Encode([x])) == Some([x])
  {
    OneRoundTrip(x);
    assert Encode([x]) == LastOne(x);
  }

  lemma {:induction false} DecodeTwo(x: byte, y: byte)
    ensures Decode(Encode([x, y])) == Some([x, y])
  {
    TwoRoundTrip(x, y);
    assert Encode([x, y]) == LastTwo(x, y);
  }

  lemma {:induction false} DecodeThree(x: byte, y: byte, z: byte, tail: seq<byte>)
    requires Decode(Encode(tail)) == Some(tail)
    ensures Decode(Encode([x, y, z] + tail)) == Some([x, y, z] + tail)
  {
    assert ([x, y, z] + tail)[3..] == tail;
    DecodeGroup(x, y, z, Encode(tail));
    assert Encode([x, y, z] + tail) == Group(x, y, z) + Encode(tail);
  }

  lemma {:induction false} DecodeEncode(b: seq<byte>)
    ensures Decode(Encode(b)) == Some(b)
  {
    if |b| == 0 {
    } else if |b| == 1 {
      DecodeOne(b[0]);
      assert b == [b[0]];
    } else if |b| == 2 {
      DecodeTwo(b[0], b[1]);
      assert b == [b[0], b[1]];
    } else {
      var x, y, z, tail := b[0], b[1], b[2], b[3..];
      assert b == [x, y, z] + tail;
      DecodeEncode(tail);
      DecodeThree(x, y, z, tail);
    }
  }

  /** Printable ASCII that a JSON string holds unescaped. */
  predicate PlainChar(c: char) {
    '+' <= c <= 'z' && c != '\\'
  }

  predicate Plain(s: string) {
    forall i :: 0 <= i < |s| ==> PlainChar(s[i])
  }

  lemma {:induction false} EncodeIsPlain(b: seq<byte>)
    ensures Plain(Encode(b))
  {
    if |b| == 0 {
    } else if |b| == 1 {
      assert Plain(LastOne(b[0]));
    } else if |b| == 2 {
      assert Plain(LastTwo(b[0], b[1]));
    } else {
      EncodeIsPlain(b[3..]);
      assert Plain(Group(b[0], b[1], b[2]));
    }
  }

  const ALPHABET := CAPITALS + SMALL + DECIMAL + "+/"
  const CAPITALS := "ABCDEFGHIJKLMNOPQRSTUVWXYZ"
  const SMALL := "abcdefghijklmnopqrstuvwxyz"
  const DECIMAL := "0123456789"

  lemma DigitIsAlphabet(d: int)
    requires 0 <= d < 64
    ensures Digit(d) == ALPHABET[d]
  {
    assert |CAPITALS| == 26 && |SMALL| == 26 && |DECIMAL| == 10;
    if d < 26 {
      assert ALPHABET[d] == CAPITALS[d];
    } else if d < 52 {
      assert ALPHABET[d] == SMALL[d - 26];
    } else if d < 62 {
      assert ALPHABET[d] == DECIMAL[d - 52];
    } else {
      assert ALPHABET[d] == "+/"[d - 62];
    }
  }

  /** The defining equation of base 64: three bytes and their four digits are one 24-bit number,
      the most significant first. */
  lemma {:induction false} EncodeGroupAt(b: seq<byte>, i: nat) returns (c: nat, d: nat, e: nat, f: nat)
    requires 3 * i + 2 < |b|
    ensures c < 64 && d < 64 && e < 64 && f < 64
    ensures Encode(b)[4 * i..4 * i + 4] == [ALPHABET[c], ALPHABET[d], ALPHABET[e], ALPHABET[f]]
    ensures ((c * 64 + d) * 64 + e) * 64 + f == Number(b[3 * i], b[3 * i + 1], b[3 * i + 2])
  {
    if i == 0 {
      c, d, e, f := GroupForm(b[0], b[1], b[2]);
      assert Encode(b)[..4] == Group(b[0], b[1], b[2]);
    } else {
      c, d, e, f := EncodeGroupAt(b[3..], i - 1);
      assert Encode(b)[4..] == Encode(b[3..]);
      assert Encode(b)[4 * i..4 * i + 4] == Encode(b[3..])[4 * (i - 1)..4 * (i - 1) + 4];
    }
  }

  function Number(x: byte, y: byte, z: byte): int {
    (x as int * 256 + y as int) * 256 + z as int
  }

  lemma GroupForm(x: byte, y: byte, z: byte) returns (c: nat, d: nat, e: nat, f: nat)
    ensures c < 64 && d < 64 && e < 64 && f < 64
    ensures Group(x, y, z) == [ALPHABET[c], ALPHABET[d], ALPHABET[e], ALPHABET[f]]
    ensures ((c * 64 + d) * 64 + e) * 64 + f == Number(x, y, z)
  {
    c, d, e, f := x / 4, x % 4 * 16 + y / 16, y % 16 * 4 + z / 64, z % 64;
    DigitIsAlphabet(c);
    DigitIsAlphabet(d);
    DigitIsAlphabet(e);
    DigitIsAlphabet(f);
  }

  lemma OneForm(x: byte) returns (c: nat, d: nat)
    ensures c < 64 && d < 64 && c * 64 + d == 16 * x as int && LastOne(x) == [ALPHABET[c], ALPHABET[d], '=', '=']
  {
    c, d := x / 4, x % 4 * 16;
    DigitIsAlphabet(c);
    DigitIsAlphabet(d);
  }

  lemma TwoForm(x: byte, y: byte) returns (c: nat, d: nat, e: nat)
    ensures c < 64 && d < 64 && e < 64 && (c * 64 + d) * 64 + e == 4 * (256 * x as int + y as int)
    ensures LastTwo(x, y) == [ALPHABET[c], ALPHABET[d], ALPHABET[e], '=']
  {
    c, d, e := x / 4, x % 4 * 16 + y / 16, y % 16 * 4;
    DigitIsAlphabet(c);
    DigitIsAlphabet(d);
    DigitIsAlphabet(e);
  }

  lemma {:induction false} EncodeAppend(b: seq<byte>, tail: seq<byte>)
    requires |b| % 3 == 0
    ensures Encode(b + tail) == Encode(b) + Encode(tail)
  {
    if b == [] {
      assert b + tail == tail;
    } else {
      assert (b + tail)[3..] == b[3..] + tail;
      EncodeAppend(b[3..], tail);
      ConcatAssociative(Group(b[0], b[1], b[2]), Encode(b[3..]), Encode(tail));
    }
  }

  lemma {:induction false} LastGroup(b: seq<byte>)
    ensures Encode(b)[4 * (|b| / 3)..] == Encode(b[|b| - |b| % 3..])
  {
    var k := |b| / 3;
    assert 3 * k == |b| - |b| % 3;
    var init, last := b[..3 * k], b[3 * k..];
    assert b == init + last;
    EncodeAppend(init, last);
    WholeGroups(init, k);
  }

  lemma {:induction false} WholeGroups(b: seq<byte>, k: nat)
    requires |b| == 3 * k
    ensures |Encode(b)| == 4 * k
  {
  }

  /** One byte left over: its bits come first in two digits, then zeros, and two pads follow. */
  lemma {:induction false} EncodeOneLeft(b: seq<byte>) returns (c: nat, d: nat)
    requires |b| % 3 == 1
    ensures c < 64 && d < 64 && c * 64 + d == 16 * b[|b| - 1] as int
    ensures Encode(b)[4 * (|b| / 3)..] == [ALPHABET[c], ALPHABET[d], '=', '=']
  {
    LastGroup(b);
    var last := b[|b| - 1..];
    c, d := OneForm(last[0]);
    assert Encode(last) == LastOne(last[0]);
  }

  /** Two bytes left over: their bits come first in three digits, then zeros, and one pad follows. */
  lemma {:induction false} EncodeTwoLeft(b: seq<byte>) returns (c: nat, d: nat, e: nat)
    requires |b| % 3 == 2
    ensures c < 64 && d < 64 && e < 64
    ensures (c * 64 + d) * 64 + e == 4 * (256 * b[|b| - 2] as int + b[|b| - 1] as int)
    ensures Encode(b)[4 * (|b| / 3)..] == [ALPHABET[c], ALPHABET[d], ALPHABET[e], '=']
  {
    LastGroup(b);
    var last := b[|b| - 2..];
    c, d, e := TwoForm(last[0], last[1]);
    assert Encode(last) == LastTwo(last[0], last[1]);
  }

  /** Bits that a last group does not use must be zero. */
  lemma UnusedBitsAreZero(c: nat, d: nat, e: nat)
    requires c < 64 && d < 64 && e < 64
    ensures Decode([Digit(c), Digit(d), '=', '=']).Some? <==> d % 16 == 0
    ensures Decode([Digit(c), Digit(d), Digit(e), '=']).Some? <==> e % 4 == 0
  {
    DigitRoundTrip(c);
    DigitRoundTrip(d);
    DigitRoundTrip(e);
  }
}
