/** Reading the part of a field that has already been generated
    (backend/internal/agentjob/partial.go). */
module PartialField {
  import opened Options
  import opened Utf8
  import opened JsonString
  import opened FieldSearch

  /** Bytes of a string body up to its closing quote, or up to the last complete
      character or escape when the buffer ends first; and whether it closed. */
  function ScanString(s: Bytes): (r: (nat, bool))
    ensures r.0 <= |s|
  {
    if s == [] then (0, false)
    else if s[0] == QUOTE then (0, true)
    else
      var width := if s[0] != BACKSLASH then 1
                   else if |s| > 1 && s[1] == LETTER_U then 6 else 2;
      if width > |s| then (0, false)
      else
        var rest := ScanString(s[width..]);
        (width + rest.0, rest.1)
  }

  function BodyFrom(s: Bytes): (body: Bytes)
    ensures body <= s
  {
    var scan := ScanString(s);
    if scan.1 then s[..scan.0] else LongestValid(s[..scan.0])
  }

  /** Where the value of the first field with that name and a string value
      begins. */
  ghost function Start(buf: Bytes, h: Probe): (r: Option<nat>)
    requires Lawful(h, |buf|)
    ensures r.Some? ==> r.value <= |buf|
  {
    match NextField(h, |buf|, 0)
    case None => None
    case Some(at) => h(at)
  }

  ghost function BodyAt(buf: Bytes, start: Option<nat>): Bytes
    requires start.Some? ==> start.value <= |buf|
  {
    if start.None? then [] else BodyFrom(buf[start.value..])
  }

  /** The raw body read for a field. */
  ghost function RawBody(buf: Bytes, name: Bytes): Bytes {
    BodyAt(buf, Start(buf, ProbeOf(buf, name)))
  }

  function TextOf(body: Bytes): seq<int> {
    match Unquote(body)
    case None => []
    case Some(text) => text
  }

  ghost function PartialText(buf: Bytes, name: Bytes): seq<int> {
    TextOf(RawBody(buf, name))
  }

  // ------------------------------------------------------------------ methods

  method TrimIncompleteRune(value: Bytes) returns (trimmed: Bytes)
    ensures trimmed == LongestValid(value)
  {
    trimmed := value;
    while |trimmed| > 0 && !Valid(trimmed)
      invariant LongestValid(trimmed) == LongestValid(value)
    {
      trimmed := trimmed[..|trimmed| - 1];
    }
  }

  function WidthAt(input: Bytes, i: nat): nat
    requires i < |input|
  {
    if input[i] != BACKSLASH then 1 else if i + 1 < |input| && input[i + 1] == LETTER_U then 6 else 2
  }

  function Further(scan: (nat, bool), width: nat): (nat, bool) {
    (width + scan.0, scan.1)
  }

  /** The scan has come to position i. */
  predicate ScannedTo(input: Bytes, i: nat) {
    i <= |input| && ScanString(input) == Further(ScanString(input[i..]), i)
  }

  lemma ScanBegins(input: Bytes)
    ensures ScannedTo(input, 0)
  {
    assert input[0..] == input;
  }

  lemma {:induction false} ScanEnds(input: Bytes)
    requires ScannedTo(input, |input|)
    ensures ScanString(input) == (|input|, false)
  {
    assert input[|input|..] == [];
  }

  lemma ScanFrom(input: Bytes, i: nat)
    requires i < |input|
    ensures var width := WidthAt(input, i);
      ScanString(input[i..]) ==
        if input[i] == QUOTE then (0, true)
        else if i + width > |input| then (0, false)
        else Further(ScanString(input[i + width..]), width)
  {
    var s := input[i..];
    assert s[0] == input[i];
    assert i + 1 < |input| ==> s[1] == input[i + 1];
    if i + WidthAt(input, i) <= |input| {
      assert s[WidthAt(input, i)..] == input[i + WidthAt(input, i)..];
    }
  }

  lemma FurtherTwice(scan: (nat, bool), a: nat, b: nat)
    ensures Further(Further(scan, a), b) == Further(scan, a + b)
    ensures Further((0, scan.1), a) == (a, scan.1)
  {
  }

  /** What one round of the scan does at position i. */
  lemma {:induction false} ScanStep(input: Bytes, i: nat)
    requires i < |input| && ScannedTo(input, i)
    ensures var width := WidthAt(input, i);
      if input[i] == QUOTE then ScanString(input) == (i, true)
      else if i + width > |input| then ScanString(input) == (i, false)
      else ScannedTo(input, i + width)
  {
    var width := WidthAt(input, i);
    ScanFrom(input, i);
    var here := ScanString(input[i..]);
    if input[i] != QUOTE && i + width <= |input| {
      FurtherTwice(ScanString(input[i + width..]), width, i);
    }
  }

  method ScanJsonString(input: Bytes) returns (body: Bytes, closed: bool)
    ensures body == BodyFrom(input) && closed == ScanString(input).1
  {
    var safe: nat := 0;
    var i: nat := 0;
    ScanBegins(input);
    while i < |input|
      invariant safe == i && ScannedTo(input, i)
      decreases |input| - i
    {
      ScanStep(input, i);
      if input[i] == QUOTE {
        return input[..i], true;
      }
      var width: nat := 1;
      if input[i] == BACKSLASH {
        width := 2;
        if i + 1 < |input| && input[i + 1] == LETTER_U {
          width := 6;
        }
        if i + width > |input| {
          body := TrimIncompleteRune(input[..safe]);
          return body, false;
        }
      }
      i := i + width;
      safe := i;
    }
    ScanEnds(input);
    body := TrimIncompleteRune(input[..safe]);
    closed := false;
  }

  method FieldValueStart(buf: Bytes, name: Bytes, ghost h: Probe) returns (start: int)
    requires FieldName(name) && Probes(h, buf, name)
    ensures start == match Start(buf, h) case None => -1 case Some(s) => s
  {
    var offset: nat := 0;
    while true
      invariant offset <= |buf| && NoField(h, 0, offset)
      decreases |buf| - offset
    {
      var at, found := TryNext(buf, name, offset, h);
      if at < 0 {
        NextFieldSkips(h, |buf|, 0, |buf|);
        return -1;
      }
      if found.Some? {
        NextFieldSkips(h, |buf|, 0, at);
        return found.value;
      }
      offset := at + |name| + 2;
    }
  }

  method ReadPartialField(buf: Bytes, name: Bytes) returns (text: seq<int>)
    requires FieldName(name)
    ensures text == PartialText(buf, name)
  {
    var start := FieldValueStart(buf, name, ProbeOf(buf, name));
    if start < 0 {
      return [];
    }
    var body, _ := ScanJsonString(buf[start..]);
    if body == [] {
      return [];
    }
    return TextOf(body);
  }

  // --------------------------------------------- nothing read is ever taken back

  lemma {:induction false} ScanStringPrefix(p: Bytes, s: Bytes)
    requires p <= s
    ensures ScanString(p).0 <= ScanString(s).0
    ensures ScanString(p).1 ==> ScanString(s) == ScanString(p)
    decreases |p|
  {
    if p != [] && p[0] != QUOTE {
      var width := if p[0] != BACKSLASH then 1
                   else if |p| > 1 && p[1] == LETTER_U then 6 else 2;
      if width <= |p| {
        ScanStringPrefix(p[width..], s[width..]);
      }
    }
  }

  lemma BodyFromPrefix(p: Bytes, s: Bytes)
    requires p <= s
    ensures BodyFrom(p) <= BodyFrom(s)
  {
    ScanStringPrefix(p, s);
    var a, b := p[..ScanString(p).0], s[..ScanString(s).0];
    assert a <= b;
    LongestValidMonotone(a, b);
  }

  lemma StartStable(p: Bytes, h: Probe, buf: Bytes, g: Probe, name: Bytes)
    requires p <= buf && FieldName(name) && Probes(h, p, name) && Probes(g, buf, name)
    ensures Start(p, h).Some? ==> Start(buf, g) == Start(p, h)
  {
    ProbesSettled(h, p, g, buf, name);
    if NextField(h, |p|, 0).Some? {
      NextFieldSettled(h, |p|, g, |buf|, 0);
    }
  }

  /** Whatever bytes arrive, the raw body read for a field only grows. The buffer
      need not be JSON. */
  lemma RawBodyGrows(p: Bytes, buf: Bytes, name: Bytes)
    requires p <= buf && FieldName(name)
    ensures RawBody(p, name) <= RawBody(buf, name)
  {
    var h, g := ProbeOf(p, name), ProbeOf(buf, name);
    StartStable(p, h, buf, g, name);
    var start := Start(p, h);
    if start.Some? {
      BodyFromPrefix(p[start.value..], buf[start.value..]);
    }
  }

  // ------------------------------------------------------- cuts of a printed body

  /** How many items lie completely within the first n bytes of a body. */
  function Whole(items: seq<Item>, n: nat): (k: nat)
    ensures k <= |items|
    decreases |items|
  {
    if items == [] || |Render(items[0])| > n then 0
    else 1 + Whole(items[1..], n - |Render(items[0])|)
  }

  lemma {:induction false} WholeMonotone(items: seq<Item>, m: nat, n: nat)
    requires m <= n
    ensures Whole(items, m) <= Whole(items, n)
    ensures m >= |Body(items)| ==> Whole(items, m) == |items|
    decreases |items|
  {
    if items != [] && |Render(items[0])| <= n {
      var w := |Render(items[0])|;
      if w <= m {
        WholeMonotone(items[1..], m - w, n - w);
      }
    }
  }

  lemma {:induction false} LongestValidAppend(a: Bytes, b: Bytes)
    requires Valid(a)
    ensures LongestValid(a + b) == a + LongestValid(b)
    decreases |b|
  {
    ValidAppend(a, b);
    if !Valid(b) {
      assert (a + b)[..|a + b| - 1] == a + b[..|b| - 1];
      LongestValidAppend(a, b[..|b| - 1]);
    }
  }

  /** Scanning over one whole item. */
  lemma {:induction false} ScanOver(r: Bytes, s: Bytes)
    requires forall i :: 0 <= i < |r| ==> r[i] != QUOTE && r[i] != BACKSLASH
    ensures ScanString(r + s) == (|r| + ScanString(s).0, ScanString(s).1)
    decreases |r|
  {
    if r == [] {
      assert r + s == s;
    } else {
      assert (r + s)[1..] == r[1..] + s;
      ScanOver(r[1..], s);
    }
  }

  lemma {:induction false} ScanItem(item: Item, s: Bytes)
    ensures ScanString(Render(item) + s) == (|Render(item)| + ScanString(s).0, ScanString(s).1)
  {
    var r := Render(item);
    match item
    case Plain(cp) =>
      EncodeLen(cp);
      ScanOver(r, s);
    case Short(c) =>
      assert (r + s)[2..] == s;
    case Unicode(h) =>
      assert (r + s)[6..] == s;
  }

  lemma {:induction false} TruncatedPlain(cp: int, k: nat)
    requires Scalar(cp) && k < |Encode(cp)|
    ensures LongestValid(Encode(cp)[..k]) == []
    decreases k
  {
    if k > 0 {
      TruncatedRune(cp, k);
      assert Encode(cp)[..k][..k - 1] == Encode(cp)[..k - 1];
      TruncatedPlain(cp, k - 1);
    }
  }

  /** An item that is not complete yet contributes nothing. */
  lemma TruncatedItem(item: Item, k: nat)
    requires k < |Render(item)|
    ensures BodyFrom(Render(item)[..k]) == []
  {
    var r := Render(item)[..k];
    match item
    case Plain(cp) =>
      EncodeLen(cp);
      ScanOver(r, []);
      assert r + [] == r && r[..k] == r;
      TruncatedPlain(cp, k);
    case Short(c) =>
    case Unicode(h) =>
      assert k > 1 ==> r[1] == LETTER_U;
  }

  lemma BodyFromItem(item: Item, s: Bytes)
    ensures BodyFrom(Render(item) + s) == Render(item) + BodyFrom(s)
  {
    var r, n := Render(item), ScanString(s).0;
    ScanItem(item, s);
    RenderValid(item);
    assert (r + s)[..|r| + n] == r + s[..n];
    LongestValidAppend(r, s[..n]);
  }

  /** From any cut of a printed literal exactly the complete items are read. */
  lemma {:induction false} CutBody(items: seq<Item>, tail: Bytes, n: nat)
    requires n <= |Body(items) + [QUOTE] + tail|
    ensures BodyFrom((Body(items) + [QUOTE] + tail)[..n]) == Body(items[..Whole(items, n)])
    decreases |items|
  {
    var whole := Body(items) + [QUOTE] + tail;
    var s := whole[..n];
    if items == [] {
      assert n > 0 ==> s[0] == QUOTE;
    } else {
      var r := Render(items[0]);
      var rest := Body(items[1..]) + [QUOTE] + tail;
      assert whole == r + rest;
      if |r| > n {
        assert s == r[..n];
        TruncatedItem(items[0], n);
      } else {
        assert s == r + rest[..n - |r|];
        BodyFromItem(items[0], rest[..n - |r|]);
        CutBody(items[1..], tail, n - |r|);
        var k := Whole(items, n);
        assert items[..k][1..] == items[1..][..k - 1];
      }
    }
  }

  // ------------------------------------------------------------ text at every cut

  /** The first field of that name in buf holds the printed literal `items`. */
  ghost predicate HoldsLiteral(buf: Bytes, name: Bytes, items: seq<Item>, start: nat) {
    && FieldName(name)
    && Start(buf, ProbeOf(buf, name)) == Some(start)
    && Body(items) + [QUOTE] <= buf[start..]
  }

  /** The number of complete items the reader has at a cut. */
  ghost function Arrived(buf: Bytes, name: Bytes, items: seq<Item>, start: nat, cut: nat): (k: nat)
    requires HoldsLiteral(buf, name, items, start) && cut <= |buf|
    ensures k <= |items|
  {
    if Start(buf[..cut], ProbeOf(buf[..cut], name)).None? then 0
    else Whole(items, if cut < start then 0 else cut - start)
  }

  lemma {:induction false} BodyAtCut(buf: Bytes, items: seq<Item>, start: nat, cut: nat)
    requires start <= cut <= |buf|
    requires Body(items) + [QUOTE] <= buf[start..]
    ensures BodyFrom(buf[..cut][start..]) == Body(items[..Whole(items, cut - start)])
  {
    var rest, literal := buf[start..], Body(items) + [QUOTE];
    SplitPrefix(literal, rest);
    assert buf[..cut][start..] == rest[..cut - start];
    CutBody(items, rest[|literal|..], cut - start);
  }

  lemma SplitPrefix(a: Bytes, s: Bytes)
    requires a <= s
    ensures s == a + s[|a|..]
  {
  }

  lemma RawAtCut(buf: Bytes, name: Bytes, items: seq<Item>, start: nat, cut: nat)
    requires HoldsLiteral(buf, name, items, start) && cut <= |buf|
    ensures RawBody(buf[..cut], name) == Body(items[..Arrived(buf, name, items, start, cut)])
  {
    var p := buf[..cut];
    var begun := Start(p, ProbeOf(p, name));
    StartStable(p, ProbeOf(p, name), buf, ProbeOf(buf, name), name);
    if begun.Some? {
      assert begun.value == start;
      assert BodyAt(p, begun) == Body(items[..Whole(items, cut - start)]) by {
        BodyAtCut(buf, items, start, cut);
      }
    } else {
      assert items[..0] == [];
      assert Body(items[..0]) == [];
    }
  }

  /** At every cut the reader has exactly the complete characters and escapes
      that have arrived, decoded. */
  lemma TextAtCut(buf: Bytes, name: Bytes, items: seq<Item>, start: nat, cut: nat)
    requires HoldsLiteral(buf, name, items, start) && cut <= |buf|
    ensures PartialText(buf[..cut], name) == Meaning(items[..Arrived(buf, name, items, start, cut)])
  {
    RawAtCut(buf, name, items, start, cut);
    UnquoteBody(items[..Arrived(buf, name, items, start, cut)]);
  }

  lemma AllArrived(buf: Bytes, name: Bytes, items: seq<Item>, start: nat)
    requires HoldsLiteral(buf, name, items, start)
    ensures Arrived(buf, name, items, start, |buf|) == |items|
  {
    assert buf[..|buf|] == buf;
    WholeMonotone(items, |buf| - start, |buf| - start);
  }

  /** A whole buffer yields the whole text. */
  lemma {:induction false} TextAtEnd(buf: Bytes, name: Bytes, items: seq<Item>, start: nat)
    requires HoldsLiteral(buf, name, items, start)
    ensures PartialText(buf, name) == Meaning(items)
  {
    TextAtCut(buf, name, items, start, |buf|);
    AllArrived(buf, name, items, start);
    assert buf[..|buf|] == buf && items[..|items|] == items;
  }

  /** The shorter cut ends between the two escaped halves of one character and
      the longer cut has more. */
  ghost predicate CutsPair(buf: Bytes, name: Bytes, items: seq<Item>, start: nat, m: nat, n: nat)
    requires HoldsLiteral(buf, name, items, start) && m <= n <= |buf|
  {
    var k := Arrived(buf, name, items, start, m);
    0 < k < Arrived(buf, name, items, start, n) && IsHigh(items[k - 1]) && IsLow(items[k])
  }

  lemma ArrivedMonotone(buf: Bytes, name: Bytes, items: seq<Item>, start: nat, m: nat, n: nat)
    requires HoldsLiteral(buf, name, items, start) && m <= n <= |buf|
    ensures Arrived(buf, name, items, start, m) <= Arrived(buf, name, items, start, n)
  {
    var p, q := buf[..m], buf[..n];
    StartStable(p, ProbeOf(p, name), q, ProbeOf(q, name), name);
    WholeMonotone(items, if m < start then 0 else m - start, if n < start then 0 else n - start);
  }

  /** The decoded text at an earlier cut is a prefix of the text at a later one
      exactly when the earlier cut does not split a surrogate pair. */
  lemma TextGrows(buf: Bytes, name: Bytes, items: seq<Item>, start: nat, m: nat, n: nat)
    requires HoldsLiteral(buf, name, items, start) && m <= n <= |buf|
    ensures PartialText(buf[..m], name) <= PartialText(buf[..n], name)
      <==> !CutsPair(buf, name, items, start, m, n)
  {
    ArrivedMonotone(buf, name, items, start, m, n);
    TextAtCut(buf, name, items, start, m);
    TextAtCut(buf, name, items, start, n);
    MeaningOfPrefixes(items, Arrived(buf, name, items, start, m), Arrived(buf, name, items, start, n));
  }
}
