/** What makes an encoding UTF-8 (sections 3 and 4 of RFC 3629), told without its
    arithmetic: how long encodings are, what their bytes look like, that they are ordered
    as the characters are, and that nothing else is well formed. */
module Utf8Laws {
  import opened Utf8

  /** The order of byte strings. */
  predicate Before(a: Bytes, b: Bytes) {
    b != [] && (a == [] || a[0] < b[0] || (a[0] == b[0] && Before(a[1..], b[1..])))
  }

  /** A character below 128 is its own encoding; others take two to four bytes, of which
      the first tells how many and the others are all between 128 and 191. */
  lemma EncodingShape(cp: int)
    requires Scalar(cp)
    ensures var s := Encode(cp);
      && |s| == (if cp < 0x80 then 1 else if cp < 0x800 then 2 else if cp < 0x10000 then 3 else 4)
      && (|s| == 1 ==> s[0] == cp) && (|s| == 2 ==> 192 <= s[0] < 224)
      && (|s| == 3 ==> 224 <= s[0] < 240) && (|s| == 4 ==> 240 <= s[0] < 248)
      && forall i :: 0 < i < |s| ==> 128 <= s[i] < 192
  {
  }

  lemma Sixes(a: int, b: int)
    requires 0 <= a < b
    ensures a / 64 < b / 64 || (a / 64 == b / 64 && a % 64 < b % 64)
  {
  }

  /** Encodings are ordered as the characters are. */
  lemma EncodingOrder(a: int, b: int)
    requires Scalar(a) && Scalar(b) && a < b
    ensures Before(Encode(a), Encode(b))
  {
    EncodingShape(a);
    EncodingShape(b);
    var s, t := Encode(a), Encode(b);
    Sixes(a, b);
    if a / 64 < b / 64 {
      Sixes(a / 64, b / 64);
      if a / 64 / 64 < b / 64 / 64 {
        Sixes(a / 64 / 64, b / 64 / 64);
      }
    }
    if |s| == |t| {
      BeforeSameLength(s, t);
    }
  }

  lemma {:induction false} BeforeSameLength(s: Bytes, t: Bytes)
    requires 1 <= |s| == |t| <= 4
    requires s[0] < t[0] || (s[0] == t[0] && |s| > 1 && (s[1] < t[1] || (s[1] == t[1] && |s| > 2
      && (s[2] < t[2] || (s[2] == t[2] && |s| > 3 && s[3] < t[3])))))
    ensures Before(s, t)
    decreases |s|
  {
    if s[0] == t[0] {
      BeforeSameLength(s[1..], t[1..]);
    }
  }

  lemma TwoBytes(a: int, b: int, cp: int)
    requires 0xC2 <= a < 0xE0 && 0x80 <= b < 0xC0 && cp == (a - 0xC0) * 64 + (b - 0x80)
    ensures Scalar(cp) && Encode(cp) == [a, b]
  {
  }

  lemma ThreeBytes(a: int, b: int, c: int, cp: int)
    requires 0xE0 <= a < 0xF0 && 0x80 <= b < 0xC0 && 0x80 <= c < 0xC0 && Second(a, b)
    requires cp == (a - 0xE0) * 4096 + (b - 0x80) * 64 + (c - 0x80)
    ensures Scalar(cp) && Encode(cp) == [a, b, c]
  {
    assert cp / 64 == (a - 0xE0) * 64 + (b - 0x80);
  }

  lemma FourBytes(a: int, b: int, c: int, d: int, cp: int)
    requires 0xF0 <= a < 0xF5 && 0x80 <= b < 0xC0 && 0x80 <= c < 0xC0 && 0x80 <= d < 0xC0 && Second(a, b)
    requires cp == (a - 0xF0) * 262144 + (b - 0x80) * 4096 + (c - 0x80) * 64 + (d - 0x80)
    ensures Scalar(cp) && Encode(cp) == [a, b, c, d]
  {
    assert cp / 64 == (a - 0xF0) * 4096 + (b - 0x80) * 64 + (c - 0x80);
    assert cp / 64 / 64 == (a - 0xF0) * 64 + (b - 0x80);
  }

  /** What is well formed is the encoding of a character, and of that one only. */
  lemma WellFormedIsEncoded(s: Bytes)
    requires RuneLen(s) > 0
    ensures Scalar(RuneAt(s)) && Encode(RuneAt(s)) == s[..RuneLen(s)]
  {
    match RuneLen(s)
    case 1 => assert s[..1] == [s[0]];
    case 2 =>
      TwoBytes(s[0], s[1], RuneAt(s));
      assert s[..2] == [s[0], s[1]];
    case 3 =>
      ThreeBytes(s[0], s[1], s[2], RuneAt(s));
      assert s[..3] == [s[0], s[1], s[2]];
    case _ =>
      FourBytes(s[0], s[1], s[2], s[3], RuneAt(s));
      assert s[..4] == [s[0], s[1], s[2], s[3]];
  }

  lemma OnlyOneEncoded(s: Bytes, cp: int)
    requires Scalar(cp) && Encode(cp) <= s
    ensures RuneLen(s) > 0 && RuneAt(s) == cp
  {
    EncodeDecode(cp, s[|Encode(cp)|..]);
    EncodeLen(cp);
    assert Encode(cp) + s[|Encode(cp)|..] == s;
  }
}
