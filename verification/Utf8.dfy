/** Bytes, and UTF-8 as section 4 of RFC 3629 defines it. */
module Utf8 {
  type Byte = b: int | 0 <= b < 256
  type Bytes = seq<Byte>

  predicate Scalar(cp: int) {
    0 <= cp < 0xD800 || 0xE000 <= cp < 0x110000
  }

  predicate Tail(b: Byte) {
    0x80 <= b < 0xC0
  }

  /** Length of the well-formed encoding that s starts with, or 0. */
  function RuneLen(s: Bytes): (n: nat)
    ensures n <= |s|
  {
    if s == [] then 0
    else if s[0] < 0x80 then 1
    else if 0xC2 <= s[0] < 0xE0 then
      if |s| >= 2 && Tail(s[1]) then 2 else 0
    else if 0xE0 <= s[0] < 0xF0 then
      if |s| >= 3 && Second(s[0], s[1]) && Tail(s[2]) then 3 else 0
    else if 0xF0 <= s[0] < 0xF5 then
      if |s| >= 4 && Second(s[0], s[1]) && Tail(s[2]) && Tail(s[3]) then 4 else 0
    else 0
  }

  /** The second byte is narrower after E0, ED, F0 and F4. */
  predicate Second(first: Byte, b: Byte) {
    if first == 0xE0 then 0xA0 <= b < 0xC0
    else if first == 0xED then 0x80 <= b < 0xA0
    else if first == 0xF0 then 0x90 <= b < 0xC0
    else if first == 0xF4 then 0x80 <= b < 0x90
    else Tail(b)
  }

  /** The code point that s starts with. */
  function RuneAt(s: Bytes): int
    requires RuneLen(s) > 0
  {
    var n := RuneLen(s);
    var a: int := s[0];
    if n == 1 then a
    else
      var b: int := s[1] - 0x80;
      if n == 2 then (a - 0xC0) * 64 + b
      else
        var c: int := s[2] - 0x80;
        if n == 3 then (a - 0xE0) * 4096 + b * 64 + c
        else
          var d: int := s[3] - 0x80;
          (a - 0xF0) * 262144 + b * 4096 + c * 64 + d
  }

  function Encode(cp: int): (s: Bytes)
    requires Scalar(cp)
    ensures 1 <= |s| <= 4
  {
    if cp < 0x80 then [cp]
    else if cp < 0x800 then [0xC0 + cp / 64, 0x80 + cp % 64]
    else if cp < 0x10000 then [0xE0 + cp / 64 / 64, 0x80 + cp / 64 % 64, 0x80 + cp % 64]
    else [0xF0 + cp / 64 / 64 / 64, 0x80 + cp / 64 / 64 % 64, 0x80 + cp / 64 % 64, 0x80 + cp % 64]
  }

  predicate Valid(s: Bytes) {
    s == [] || (RuneLen(s) > 0 && Valid(s[RuneLen(s)..]))
  }

  lemma EncodeDecode(cp: int, rest: Bytes)
    requires Scalar(cp)
    ensures RuneLen(Encode(cp) + rest) == |Encode(cp)|
    ensures RuneAt(Encode(cp) + rest) == cp
  {
    var s := Encode(cp);
    assert forall i :: 0 <= i < |s| ==> (s + rest)[i] == s[i];
    EncodeLen(cp);
    RuneLenAppend(s, rest);
    if cp >= 0x10000 {
      assert cp == cp / 64 / 64 / 64 * 262144 + cp / 64 / 64 % 64 * 4096 + cp / 64 % 64 * 64 + cp % 64;
    } else if cp >= 0x800 {
      assert cp == cp / 64 / 64 * 4096 + cp / 64 % 64 * 64 + cp % 64;
    }
  }

  lemma EncodeLen(cp: int)
    requires Scalar(cp)
    ensures RuneLen(Encode(cp)) == |Encode(cp)|
    ensures forall i :: 0 <= i < |Encode(cp)| && cp >= 0x80 ==> Encode(cp)[i] >= 0x80
  {
    var s := Encode(cp);
    if cp >= 0x10000 {
      var q, r := cp / 64 / 64 / 64, cp / 64 / 64 % 64;
      assert 0 <= q <= 4 && 0 <= r < 64 && cp / 64 / 64 == q * 64 + r;
      assert Second(s[0], s[1]);
    } else if cp >= 0x800 {
      var q, r := cp / 64 / 64, cp / 64 % 64;
      assert 0 <= q < 16 && 0 <= r < 64 && cp / 64 == q * 64 + r;
      assert Second(s[0], s[1]);
    }
  }

  /** A proper prefix of an encoding is not well formed. */
  lemma TruncatedRune(cp: int, k: nat)
    requires Scalar(cp) && 0 < k < |Encode(cp)|
    ensures RuneLen(Encode(cp)[..k]) == 0
  {
  }

  lemma RuneLenAppend(a: Bytes, b: Bytes)
    requires RuneLen(a) > 0
    ensures RuneLen(a + b) == RuneLen(a)
  {
  }

  lemma {:induction false} ValidAppend(a: Bytes, b: Bytes)
    requires Valid(a)
    ensures Valid(a + b) == Valid(b)
    decreases |a|
  {
    if a == [] {
      assert a + b == b;
    } else {
      RuneLenAppend(a, b);
      assert (a + b)[RuneLen(a)..] == a[RuneLen(a)..] + b;
      ValidAppend(a[RuneLen(a)..], b);
    }
  }

  /** The longest valid prefix, found by dropping bytes from the end. */
  function LongestValid(s: Bytes): (r: Bytes)
    ensures r <= s && Valid(r)
    decreases |s|
  {
    if Valid(s) then s else LongestValid(s[..|s| - 1])
  }

  lemma {:induction false} LongestValidIsLongest(s: Bytes, r: Bytes)
    requires r <= s && Valid(r)
    ensures |r| <= |LongestValid(s)|
    decreases |s|
  {
    if !Valid(s) {
      assert |r| == |s| ==> r == s;
      LongestValidIsLongest(s[..|s| - 1], r);
    }
  }

  /** The longest valid prefix only grows as bytes arrive. */
  lemma {:induction false} LongestValidMonotone(p: Bytes, q: Bytes)
    requires p <= q
    ensures LongestValid(p) <= LongestValid(q)
  {
    LongestValidIsLongest(q, LongestValid(p));
  }
}
