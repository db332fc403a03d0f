/** JSON string literals as bytes (section 7 of RFC 8259): how a body is written,
    what it means, and how encoding/json decodes it. */
module JsonString {
  import opened Options
  import opened Utf8

  const QUOTE: Byte := 34
  const BACKSLASH: Byte := 92
  const LETTER_U: Byte := 117
  const REPLACEMENT: int := 0xFFFD

  /** One printed character: itself in UTF-8, a two-character escape, or a \u
      escape with its four hexadecimal digits. */
  datatype RawItem = Plain(cp: int) | Short(c: Byte) | Unicode(hex: Bytes)

  predicate IsHex(b: Byte) {
    48 <= b < 58 || 65 <= b < 71 || 97 <= b < 103
  }

  function HexDigit(b: Byte): int
    requires IsHex(b)
  {
    if b < 58 then b - 48 else if b < 71 then b - 55 else b - 87
  }

  /** What the character after a backslash stands for, other than u. */
  function ShortEscape(c: Byte): Option<int> {
    if c == 34 || c == 92 || c == 47 then Some(c)
    else if c == 98 then Some(8)
    else if c == 102 then Some(12)
    else if c == 110 then Some(10)
    else if c == 114 then Some(13)
    else if c == 116 then Some(9)
    else None
  }

  predicate WellFormed(item: RawItem) {
    match item
    case Plain(cp) => Scalar(cp) && cp >= 32 && cp != 34 && cp != 92
    case Short(c) => ShortEscape(c).Some?
    case Unicode(h) => |h| == 4 && IsHex(h[0]) && IsHex(h[1]) && IsHex(h[2]) && IsHex(h[3])
  }

  type Item = item: RawItem | WellFormed(item) witness Plain(32)

  function Render(item: Item): (s: Bytes)
    ensures |s| >= 1
  {
    match item
    case Plain(cp) => Encode(cp)
    case Short(c) => [BACKSLASH, c]
    case Unicode(h) => [BACKSLASH, LETTER_U] + h
  }

  function Body(items: seq<Item>): Bytes
  {
    if items == [] then [] else Render(items[0]) + Body(items[1..])
  }

  function Unit(item: Item): int
  {
    match item
    case Plain(cp) => cp
    case Short(c) => ShortEscape(c).value
    case Unicode(h) => HexDigit(h[0]) * 4096 + HexDigit(h[1]) * 256 + HexDigit(h[2]) * 16 + HexDigit(h[3])
  }

  predicate High(u: int) {
    0xD800 <= u < 0xDC00
  }

  predicate Low(u: int) {
    0xDC00 <= u < 0xE000
  }

  predicate IsHigh(item: Item)
  {
    item.Unicode? && High(Unit(item))
  }

  predicate IsLow(item: Item)
  {
    item.Unicode? && Low(Unit(item))
  }

  function Pair(hi: int, lo: int): int {
    (hi - 0xD800) * 1024 + (lo - 0xDC00) + 0x10000
  }

  function Lone(u: int): int {
    if High(u) || Low(u) then REPLACEMENT else u
  }

  /** The text a body stands for: two escaped surrogate halves make one
      character, a half on its own becomes U+FFFD. */
  function Meaning(items: seq<Item>): seq<int>
  {
    if items == [] then []
    else if |items| >= 2 && IsHigh(items[0]) && IsLow(items[1]) then
      [Pair(Unit(items[0]), Unit(items[1]))] + Meaning(items[2..])
    else
      [Lone(Unit(items[0]))] + Meaning(items[1..])
  }

  // ---------------------------------------------------------------- decoding

  /** The code unit of a \u escape at the head of s. */
  function GetU4(s: Bytes): Option<int> {
    if |s| >= 6 && s[0] == BACKSLASH && s[1] == LETTER_U
       && IsHex(s[2]) && IsHex(s[3]) && IsHex(s[4]) && IsHex(s[5])
    then Some(Unit(Unicode(s[2..6])))
    else None
  }

  /** One decoding step: the character produced and the bytes it used. */
  function DecodeStep(s: Bytes): (r: Option<(int, nat)>)
    requires s != []
    ensures r.Some? ==> 1 <= r.value.1 <= |s|
  {
    if s[0] == QUOTE || s[0] < 32 then None
    else if s[0] == BACKSLASH then
      if |s| < 2 then None
      else if s[1] == LETTER_U then
        match GetU4(s)
        case None => None
        case Some(u) =>
          var next := GetU4(s[6..]);
          if High(u) && next.Some? && Low(next.value) then Some((Pair(u, next.value), 12))
          else Some((Lone(u), 6))
      else if ShortEscape(s[1]).Some? then Some((ShortEscape(s[1]).value, 2))
      else None
    else if RuneLen(s) > 0 then Some((RuneAt(s), RuneLen(s)))
    else Some((REPLACEMENT, 1))
  }

  /** json.Unmarshal of the body put between quotes, as code points. */
  function Unquote(s: Bytes): Option<seq<int>> {
    if s == [] then Some([])
    else
      match DecodeStep(s)
      case None => None
      case Some(step) =>
        match Unquote(s[step.1..])
        case None => None
        case Some(rest) => Some([step.0] + rest)
  }

  lemma UnicodeHead(h: Bytes, rest: Bytes)
    requires WellFormed(Unicode(h))
    ensures GetU4(Render(Unicode(h)) + rest) == Some(Unit(Unicode(h)))
    ensures (Render(Unicode(h)) + rest)[6..] == rest
  {
    var s := Render(Unicode(h)) + rest;
    assert s[2..6] == h;
  }

  /** No other item starts like a \u escape. */
  lemma {:induction false} NotUnicodeHead(items: seq<Item>)
    requires (items == [] || !items[0].Unicode?)
    ensures GetU4(Body(items)) == None
  {
    if items != [] {
      var s := Render(items[0]);
      assert Body(items)[0] == s[0];
      match items[0]
      case Plain(cp) => EncodeLen(cp);
      case Short(c) => assert Body(items)[1] == c;
      case Unicode(_) =>
    }
  }

  lemma {:induction false} HeadStep(items: seq<Item>)
    requires items != []
    ensures Body(items) != []
    ensures DecodeStep(Body(items)) ==
      if |items| >= 2 && IsHigh(items[0]) && IsLow(items[1])
      then Some((Pair(Unit(items[0]), Unit(items[1])), 12))
      else Some((Lone(Unit(items[0])), |Render(items[0])|))
  {
    var s, rest := Body(items), Body(items[1..]);
    match items[0] {
      case Plain(cp) =>
        EncodeLen(cp);
        EncodeDecode(cp, rest);
        assert s[0] == Encode(cp)[0];
      case Short(c) =>
        assert s[0] == BACKSLASH && s[1] == c;
      case Unicode(h) =>
        UnicodeHead(h, rest);
        assert s[0] == BACKSLASH && s[1] == LETTER_U;
        if |items| >= 2 && items[1].Unicode? {
          UnicodeHead(items[1].hex, Body(items[2..]));
          assert items[1..][1..] == items[2..];
        } else {
          NotUnicodeHead(items[1..]);
        }
    }
  }

  /** Decoding a printed body gives exactly the text it stands for. */
  lemma {:induction false} UnquoteBody(items: seq<Item>)
    ensures Unquote(Body(items)) == Some(Meaning(items))
    decreases |items|
  {
    if items != [] {
      HeadStep(items);
      var s := Body(items);
      if |items| >= 2 && IsHigh(items[0]) && IsLow(items[1]) {
        assert items[1..][1..] == items[2..];
        assert s[12..] == Body(items[2..]) by {
          assert s == (Render(items[0]) + Render(items[1])) + Body(items[2..]);
        }
        UnquoteBody(items[2..]);
      } else {
        assert s[|Render(items[0])|..] == Body(items[1..]);
        UnquoteBody(items[1..]);
      }
    }
  }

  // --------------------------------------------------------------- prefixes

  /** The cut after `a` falls between the two halves of a surrogate pair. */
  predicate SplitsPair(a: seq<Item>, b: seq<Item>)
  {
    a != [] && b != [] && IsHigh(a[|a| - 1]) && IsLow(b[0])
  }

  lemma {:induction false} MeaningCons(x: Item, rest: seq<Item>)
    requires !SplitsPair([x], rest)
    ensures Meaning([x] + rest) == [Lone(Unit(x))] + Meaning(rest)
  {
    var s := [x] + rest;
    assert s[0] == x && s[1..] == rest;
    assert rest != [] ==> s[1] == rest[0];
  }

  lemma Associates<T>(a: seq<T>, b: seq<T>, c: seq<T>)
    ensures a + b + c == a + (b + c)
  {
  }

  /** Text after a first character, put together in either way. */
  lemma {:induction false} AppendAfter(head: seq<Item>, first: seq<int>, rest: seq<Item>, b: seq<Item>)
    requires Meaning(rest + b) == Meaning(rest) + Meaning(b)
    requires Meaning(head + rest) == first + Meaning(rest) && Meaning(head + (rest + b)) == first + Meaning(rest + b)
    ensures Meaning(head + rest + b) == Meaning(head + rest) + Meaning(b)
  {
    Associates(head, rest, b);
    Associates(first, Meaning(rest), Meaning(b));
  }

  lemma {:induction false} PairFirst(hi: Item, lo: Item, rest: seq<Item>)
    requires IsHigh(hi) && IsLow(lo)
    ensures Meaning([hi, lo] + rest) == [Pair(Unit(hi), Unit(lo))] + Meaning(rest)
  {
    assert ([hi, lo] + rest)[2..] == rest;
  }

  lemma {:induction false} AppendPair(hi: Item, lo: Item, rest: seq<Item>, b: seq<Item>)
    requires IsHigh(hi) && IsLow(lo) && Meaning(rest + b) == Meaning(rest) + Meaning(b)
    ensures Meaning([hi, lo] + rest + b) == Meaning([hi, lo] + rest) + Meaning(b)
  {
    PairFirst(hi, lo, rest);
    PairFirst(hi, lo, rest + b);
    AppendAfter([hi, lo], [Pair(Unit(hi), Unit(lo))], rest, b);
  }

  lemma {:induction false} AppendOne(x: Item, rest: seq<Item>, b: seq<Item>)
    requires !SplitsPair([x], rest) && !SplitsPair([x], rest + b) && Meaning(rest + b) == Meaning(rest) + Meaning(b)
    ensures Meaning([x] + rest + b) == Meaning([x] + rest) + Meaning(b)
  {
    MeaningCons(x, rest);
    MeaningCons(x, rest + b);
    AppendAfter([x], [Lone(Unit(x))], rest, b);
  }

  lemma {:induction false} MeaningAppend(a: seq<Item>, b: seq<Item>)
    requires !SplitsPair(a, b)
    ensures Meaning(a + b) == Meaning(a) + Meaning(b)
    decreases |a|
  {
    if a == [] {
      assert a + b == b;
    } else if |a| >= 2 && IsHigh(a[0]) && IsLow(a[1]) {
      var rest := a[2..];
      assert a == [a[0], a[1]] + rest;
      MeaningAppend(rest, b);
      AppendPair(a[0], a[1], rest, b);
    } else {
      var rest := a[1..];
      assert a == [a[0]] + rest;
      MeaningAppend(rest, b);
      AppendOne(a[0], rest, b);
    }
  }

  lemma MeaningOfHalf(item: Item)
    requires IsHigh(item)
    ensures Meaning([item]) == [REPLACEMENT]
  {
    assert [item][1..] == [];
  }

  lemma {:induction false} MeaningOfPair(hi: Item, b: seq<Item>)
    requires b != [] && IsHigh(hi) && IsLow(b[0])
    ensures var m := Meaning([hi] + b);
      m != [] && m[0] == Pair(Unit(hi), Unit(b[0])) && m[0] != REPLACEMENT
  {
    var two := [hi] + b;
    assert two[0] == hi && two[1] == b[0];
  }

  lemma {:induction false} CutInsidePair(init: seq<Item>, hi: Item, b: seq<Item>)
    requires b != [] && IsHigh(hi) && IsLow(b[0])
    ensures !(Meaning(init + [hi]) <= Meaning(init + ([hi] + b)))
  {
    MeaningAppend(init, [hi]);
    assert ([hi] + b)[0] == hi;
    MeaningAppend(init, [hi] + b);
    MeaningOfHalf(hi);
    MeaningOfPair(hi, b);
    var k := |Meaning(init)|;
    assert Meaning(init + [hi])[k] != Meaning(init + ([hi] + b))[k];
  }

  /** Text read up to a cut is a prefix of the text read further on exactly when
      the cut does not separate two surrogate halves. */
  lemma MeaningOfPrefixes(items: seq<Item>, k: nat, l: nat)
    requires k <= l <= |items|
    ensures Meaning(items[..k]) <= Meaning(items[..l])
      <==> !(0 < k < l && IsHigh(items[k - 1]) && IsLow(items[k]))
  {
    var b := items[k..l];
    if 0 < k < l && IsHigh(items[k - 1]) && IsLow(items[k]) {
      var init, hi := items[..k - 1], items[k - 1];
      assert items[..k] == init + [hi];
      assert items[..l] == init + ([hi] + b);
      CutInsidePair(init, hi, b);
    } else {
      assert items[..l] == items[..k] + b;
      MeaningAppend(items[..k], b);
    }
  }

  lemma RenderValid(item: Item)
    ensures Valid(Render(item))
  {
    var s := Render(item);
    match item
    case Plain(cp) =>
      EncodeLen(cp);
      assert s[RuneLen(s)..] == [];
    case Short(c) =>
      assert s == [s[0]] + [s[1]];
      Ascii(s[0]);
      Ascii(s[1]);
      ValidAppend([s[0]], [s[1]]);
    case Unicode(h) =>
      forall i | 0 <= i < |s|
        ensures s[i] < 0x80
      {
        assert i >= 2 ==> s[i] == h[i - 2];
      }
      AsciiString(s);
  }

  lemma Ascii(b: Byte)
    requires b < 0x80
    ensures Valid([b])
  {
    assert [b][1..] == [];
  }

  lemma {:induction false} AsciiString(s: Bytes)
    requires forall i :: 0 <= i < |s| ==> s[i] < 0x80
    ensures Valid(s)
    decreases |s|
  {
    if s != [] {
      AsciiString(s[1..]);
    }
  }
}
