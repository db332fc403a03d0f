/** Showing candidate titles and notes while the composed draft is still being
    generated (backend/internal/aiassist/preview.go). */
module Preview {
  import opened Options
  import opened Utf8
  import opened JsonString
  import opened FieldSearch
  import Text

  const MAX_PREVIEW_TITLES: nat := 40
  const NEWLINE: int := 10

  type Runes = seq<int>

  /** Index of the closing quote: a backslash hides the byte after it. */
  function CloseOf(s: Bytes): (r: Option<nat>)
    ensures r.Some? ==> r.value < |s| && s[r.value] == QUOTE
  {
    if s == [] then None
    else if s[0] == QUOTE then Some(0)
    else
      var width := if s[0] == BACKSLASH then 2 else 1;
      if width > |s| then None
      else
        match CloseOf(s[width..])
        case None => None
        case Some(n) => Some(width + n)
  }

  /** A string value: still open, or closed with the offset behind it. */
  datatype Reading = Open | Closed(body: Bytes, next: nat)

  type Reader = nat -> Option<Reading>

  function ReadAt(buf: Bytes, start: nat): (r: Reading)
    requires start <= |buf|
    ensures r.Closed? ==> start < r.next <= |buf|
  {
    match CloseOf(buf[start..])
    case None => Open
    case Some(n) => Closed(buf[start..start + n], start + n + 1)
  }

  ghost function FieldReading(buf: Bytes, name: Bytes, at: nat): Option<Reading> {
    match FieldAt(buf, name, at)
    case None => None
    case Some(start) => Some(ReadAt(buf, start))
  }

  ghost predicate Forward(r: Reader, n: nat) {
    forall at: nat :: r(at).Some? && r(at).value.Closed? ==> at < r(at).value.next <= n
  }

  /** r reads, at every position, the field that is written there. */
  ghost predicate Reads(r: Reader, buf: Bytes, name: Bytes) {
    && Forward(r, |buf|)
    && forall at: nat {:trigger FieldReading(buf, name, at)} :: r(at) == FieldReading(buf, name, at)
  }

  ghost function ReaderOf(buf: Bytes, name: Bytes): (r: Reader)
    ensures Reads(r, buf, name)
  {
    (at: nat) => FieldReading(buf, name, at)
  }

  /** The finished string values of the fields that r reads, in order, up to the
      first value that is still open. */
  ghost function Strings(r: Reader, n: nat, from: nat): seq<Bytes>
    requires Forward(r, n)
    decreases n - from
  {
    match NextField(r, n, from)
    case None => []
    case Some(at) =>
      match r(at).value
      case Open => []
      case Closed(body, next) => [body] + Strings(r, n, next)
  }

  /** Decoded and trimmed; undecodable bodies count as blank. */
  function TextOf(body: Bytes, space: int -> bool): Runes {
    match Unquote(body)
    case None => []
    case Some(text) => Text.Trim(text, space)
  }

  /** At most one text: blank ones are not shown. */
  type Show = Bytes -> seq<Runes>

  function Shown(space: int -> bool): Show {
    body => var t := TextOf(body, space); if t == [] then [] else [t]
  }

  function Texts(bodies: seq<Bytes>, show: Show): seq<Runes> {
    if bodies == [] then [] else show(bodies[0]) + Texts(bodies[1..], show)
  }

  function Take<T>(s: seq<T>, n: nat): seq<T> {
    if |s| <= n then s else s[..n]
  }

  ghost function ComposedStrings(buf: Bytes, name: Bytes, space: int -> bool): seq<Runes> {
    Take(Texts(Strings(ReaderOf(buf, name), |buf|, 0), Shown(space)), MAX_PREVIEW_TITLES)
  }

  function Line(title: Runes, note: Runes): Runes {
    if note == [] then title else title + [NEWLINE] + note
  }

  /** The n-th title with the n-th note, when there is one. */
  function PreviewLines(titles: seq<Runes>, notes: seq<Runes>): (lines: seq<Runes>)
    ensures |lines| == |titles|
    ensures forall i :: 0 <= i < |titles| ==> lines[i] == Line(titles[i], if i < |notes| then notes[i] else [])
  {
    seq(|titles|, i requires 0 <= i < |titles| => Line(titles[i], if i < |notes| then notes[i] else []))
  }

  const TITLE: Bytes := [116, 105, 116, 108, 101]
  const NOTE: Bytes := [110, 111, 116, 101]

  ghost function ComposedPreview(buf: Bytes, space: int -> bool): seq<Runes> {
    PreviewOf(buf, TITLE, NOTE, space)
  }

  ghost function PreviewOf(buf: Bytes, title: Bytes, note: Bytes, space: int -> bool): seq<Runes> {
    PreviewLines(ComposedStrings(buf, title, space), ComposedStrings(buf, note, space))
  }

  // ------------------------------------------------------------------ methods

  function Shift(n: Option<nat>, width: nat): Option<nat> {
    match n
    case None => None
    case Some(k) => Some(width + k)
  }

  /** The scan has come to position i, past the end when an escape is cut. */
  predicate ScannedTo(rest: Bytes, i: nat) {
    CloseOf(rest) == if i > |rest| then None else Shift(CloseOf(rest[i..]), i)
  }

  lemma ScanBegins(rest: Bytes)
    ensures ScannedTo(rest, 0)
  {
    assert rest[0..] == rest;
  }

  lemma {:induction false} ScanStep(rest: Bytes, i: nat)
    requires i < |rest| && ScannedTo(rest, i)
    ensures if rest[i] == QUOTE then CloseOf(rest) == Some(i)
            else ScannedTo(rest, if rest[i] == BACKSLASH then i + 2 else i + 1)
  {
    var width := if rest[i] == BACKSLASH then 2 else 1;
    CloseStep(rest, i);
    ShiftedStep(CloseOf(rest), CloseOf(rest[i..]), if i + width > |rest| then None else CloseOf(rest[i + width..]),
      i, width);
  }

  lemma ShiftedStep(whole: Option<nat>, here: Option<nat>, later: Option<nat>, i: nat, width: nat)
    requires whole == Shift(here, i)
    ensures here == Shift(later, width) ==> whole == Shift(later, i + width)
    ensures here == Some(0) ==> whole == Some(i)
  {
  }

  lemma {:induction false} ScanEnds(rest: Bytes, i: nat)
    requires i >= |rest| && ScannedTo(rest, i)
    ensures CloseOf(rest).None?
  {
  }

  method ScanJsonString(rest: Bytes) returns (body: Bytes, closed: bool)
    ensures match CloseOf(rest)
      case None => !closed && body == rest
      case Some(n) => closed && body == rest[..n]
  {
    var index: nat := 0;
    ScanBegins(rest);
    while index < |rest|
      invariant ScannedTo(rest, index)
      decreases |rest| - index
    {
      ScanStep(rest, index);
      if rest[index] == BACKSLASH {
        index := index + 2;
      } else if rest[index] == QUOTE {
        return rest[..index], true;
      } else {
        index := index + 1;
      }
    }
    ScanEnds(rest, index);
    return rest, false;
  }

  lemma CloseStep(s: Bytes, i: nat)
    requires i < |s|
    ensures var width := if s[i] == BACKSLASH then 2 else 1;
      CloseOf(s[i..]) ==
        if s[i] == QUOTE then Some(0)
        else if i + width > |s| then None
        else Shift(CloseOf(s[i + width..]), width)
  {
    var width := if s[i] == BACKSLASH then 2 else 1;
    assert s[i..][0] == s[i];
    if i + width <= |s| {
      assert s[i..][width..] == s[i + width..];
    }
  }

  method ReadComposedStrings(buf: Bytes, name: Bytes, space: int -> bool) returns (titles: seq<Runes>)
    requires FieldName(name)
    ensures titles == ComposedStrings(buf, name, space) && |titles| <= 40
  {
    titles := CollectStrings(buf, name, Shown(space), ReaderOf(buf, name));
  }

  method CollectStrings(buf: Bytes, name: Bytes, show: Show, ghost r: Reader) returns (titles: seq<Runes>)
    requires FieldName(name) && Reads(r, buf, name)
    requires forall body :: |show(body)| <= 1
    ensures titles == Take(Texts(Strings(r, |buf|, 0), show), MAX_PREVIEW_TITLES)
  {
    titles := [];
    var offset: nat := 0;
    ghost var all := Texts(Strings(r, |buf|, 0), show);
    while |titles| < MAX_PREVIEW_TITLES
      invariant offset <= |buf| && |titles| <= MAX_PREVIEW_TITLES
      invariant titles + Texts(Strings(r, |buf|, offset), show) == all
      decreases |buf| - offset
    {
      var title, next := NextTitle(buf, name, offset, show, r);
      titles := titles + title;
      if next.None? {
        return;
      }
      offset := next.value;
    }
  }

  /** One round of the loop: at most one more title, and where to go on. */
  method NextTitle(buf: Bytes, name: Bytes, offset: nat, show: Show, ghost r: Reader)
    returns (title: seq<Runes>, next: Option<nat>)
    requires FieldName(name) && Reads(r, buf, name) && offset <= |buf|
    requires forall body :: |show(body)| <= 1
    ensures |title| <= 1
    ensures next.Some? ==> offset < next.value <= |buf|
    ensures Texts(Strings(r, |buf|, offset), show) ==
      title + if next.None? then [] else Texts(Strings(r, |buf|, next.value), show)
  {
    var reading, skipped := NextReading(buf, name, offset, r);
    if reading.None? {
      return [], if skipped > offset then Some(skipped) else None;
    }
    if reading.value.Open? {
      return [], None;
    }
    title := show(reading.value.body);
    next := Some(reading.value.next);
    TextsCons(reading.value.body, Strings(r, |buf|, reading.value.next), show);
  }

  /** The value of the next field; or None, with the offset the search has
      reached, which is `offset` itself when no key is left. */
  method NextReading(buf: Bytes, name: Bytes, offset: nat, ghost r: Reader)
    returns (reading: Option<Reading>, skipped: nat)
    requires FieldName(name) && Reads(r, buf, name) && offset <= |buf|
    ensures offset <= skipped <= |buf|
    ensures reading.None? && skipped == offset ==> NextField(r, |buf|, offset).None?
    ensures reading.None? && skipped > offset ==> NextField(r, |buf|, offset) == NextField(r, |buf|, skipped)
    ensures reading.Some? ==>
      NextField(r, |buf|, offset).Some? && Some(reading.value) == r(NextField(r, |buf|, offset).value)
  {
    var at, found := TryNext(buf, name, offset, ProbeOf(buf, name));
    if at < 0 {
      SkipTogether(ProbeOf(buf, name), r, buf, name, offset, |buf|);
      return None, offset;
    }
    if found.None? {
      SkipTogether(ProbeOf(buf, name), r, buf, name, offset, at + |name| + 2);
      return None, at + |name| + 2;
    }
    SkipTogether(ProbeOf(buf, name), r, buf, name, offset, at);
    FoundHere(ProbeOf(buf, name), r, buf, name, at);
    var read := ReadValue(buf, found.value);
    return Some(read), offset;
  }

  method ReadValue(buf: Bytes, start: nat) returns (reading: Reading)
    requires start <= |buf|
    ensures reading == ReadAt(buf, start)
  {
    var body, closed := ScanJsonString(buf[start..]);
    assert closed ==> body == buf[start..start + |body|];
    reading := if closed then Closed(body, start + |body| + 1) else Open;
  }

  lemma {:induction false} SkipTogether(h: Probe, r: Reader, buf: Bytes, name: Bytes, from: nat, to: nat)
    requires Probes(h, buf, name) && Reads(r, buf, name) && from <= to && NoField(h, from, to)
    ensures NextField(r, |buf|, from) == NextField(r, |buf|, to)
  {
    SameField(h, r, buf, name, from, to);
    NextFieldSkips(r, |buf|, from, to);
  }

  lemma SameField(h: Probe, r: Reader, buf: Bytes, name: Bytes, from: nat, to: nat)
    requires Probes(h, buf, name) && Reads(r, buf, name) && NoField(h, from, to)
    ensures NoField(r, from, to)
  {
    forall at | from <= at < to
      ensures r(at).None?
    {
      assert h(at) == FieldAt(buf, name, at) && r(at) == FieldReading(buf, name, at);
    }
  }

  lemma {:induction false} FoundHere(h: Probe, r: Reader, buf: Bytes, name: Bytes, at: nat)
    requires Probes(h, buf, name) && Reads(r, buf, name) && at < |buf| && h(at).Some?
    ensures r(at) == Some(ReadAt(buf, h(at).value)) && NextField(r, |buf|, at) == Some(at)
  {
    assert h(at) == FieldAt(buf, name, at) && r(at) == FieldReading(buf, name, at);
  }

  lemma {:induction false} TextsCons(x: Bytes, rest: seq<Bytes>, show: Show)
    ensures Texts([x] + rest, show) == show(x) + Texts(rest, show)
  {
    assert ([x] + rest)[1..] == rest;
  }

  lemma PreviewNames()
    ensures FieldName(TITLE) && FieldName(NOTE)
  {
  }

  method ReadComposedPreview(buf: Bytes, space: int -> bool) returns (lines: seq<Runes>)
    ensures lines == ComposedPreview(buf, space)
  {
    PreviewNames();
    lines := ReadPreview(buf, TITLE, NOTE, space);
  }

  method ReadPreview(buf: Bytes, title: Bytes, note: Bytes, space: int -> bool) returns (lines: seq<Runes>)
    requires FieldName(title) && FieldName(note)
    ensures lines == PreviewOf(buf, title, note, space)
  {
    var titles := ReadComposedStrings(buf, title, space);
    var notes := ReadComposedStrings(buf, note, space);
    lines := PairLines(titles, notes);
  }

  method PairLines(titles: seq<Runes>, notes: seq<Runes>) returns (lines: seq<Runes>)
    ensures lines == PreviewLines(titles, notes)
  {
    lines := [];
    for index := 0 to |titles|
      invariant |lines| == index
      invariant forall i :: 0 <= i < index ==> lines[i] == Line(titles[i], if i < |notes| then notes[i] else [])
    {
      if index < |notes| && notes[index] != [] {
        lines := lines + [titles[index] + [NEWLINE] + notes[index]];
      } else {
        lines := lines + [titles[index]];
      }
    }
  }

  // ------------------------------------------------ growing buffers only append

  lemma {:induction false} CloseOfPrefix(p: Bytes, s: Bytes)
    requires p <= s && CloseOf(p).Some?
    ensures CloseOf(s) == CloseOf(p)
    decreases |p|
  {
    if p[0] != QUOTE {
      var width := if p[0] == BACKSLASH then 2 else 1;
      CloseOfPrefix(p[width..], s[width..]);
    }
  }

  /** A finished value stays as it is; an open one may close. */
  ghost predicate Keeps(r: Reader, q: Reader) {
    forall at: nat :: r(at).Some? && r(at).value.Closed? ==> q(at) == r(at)
  }

  lemma ReadingsKept(r: Reader, p: Bytes, q: Reader, buf: Bytes, name: Bytes)
    requires p <= buf && FieldName(name) && Reads(r, p, name) && Reads(q, buf, name)
    ensures Settled(r, q) && Keeps(r, q)
  {
    var h, g := ProbeOf(p, name), ProbeOf(buf, name);
    ProbesSettled(h, p, g, buf, name);
    forall at: nat
      ensures r(at).Some? == h(at).Some? && q(at).Some? == g(at).Some?
      ensures r(at).Some? && r(at).value.Closed? ==> q(at) == r(at)
    {
      assert r(at) == FieldReading(p, name, at) && q(at) == FieldReading(buf, name, at);
      assert h(at) == FieldAt(p, name, at) && g(at) == FieldAt(buf, name, at);
      if r(at).Some? && r(at).value.Closed? {
        ReadAtPrefix(p, buf, h(at).value);
      }
    }
  }

  lemma ReadAtPrefix(p: Bytes, buf: Bytes, start: nat)
    requires p <= buf && start <= |p| && ReadAt(p, start).Closed?
    ensures ReadAt(buf, start) == ReadAt(p, start)
  {
    CloseOfPrefix(p[start..], buf[start..]);
    var n := CloseOf(p[start..]).value;
    assert p[start..start + n] == buf[start..start + n];
  }

  lemma {:induction false} StringsGrow(r: Reader, m: nat, q: Reader, n: nat, from: nat)
    requires m <= n && Forward(r, m) && Forward(q, n) && Settled(r, q) && Keeps(r, q)
    ensures Strings(r, m, from) <= Strings(q, n, from)
    decreases m - from
  {
    var found := NextField(r, m, from);
    if found.Some? {
      NextFieldSettled(r, m, q, n, from);
      if r(found.value).value.Closed? {
        StringsGrow(r, m, q, n, r(found.value).value.next);
      }
    }
  }

  lemma {:induction false} TextsAppend(a: seq<Bytes>, b: seq<Bytes>, show: Show)
    ensures Texts(a + b, show) == Texts(a, show) + Texts(b, show)
    decreases |a|
  {
    if a == [] {
      assert a + b == b;
    } else {
      assert (a + b)[1..] == a[1..] + b;
      TextsAppend(a[1..], b, show);
    }
  }

  lemma {:induction false} TextsGrow(a: seq<Bytes>, b: seq<Bytes>, show: Show)
    requires a <= b
    ensures Take(Texts(a, show), MAX_PREVIEW_TITLES) <= Take(Texts(b, show), MAX_PREVIEW_TITLES)
  {
    assert b == a + b[|a|..];
    TextsAppend(a, b[|a|..], show);
  }

  /** Whatever bytes arrive, the list of finished titles is only appended to. */
  lemma ComposedStringsGrow(p: Bytes, buf: Bytes, name: Bytes, space: int -> bool)
    requires p <= buf && FieldName(name)
    ensures ComposedStrings(p, name, space) <= ComposedStrings(buf, name, space)
  {
    var r, q := ReaderOf(p, name), ReaderOf(buf, name);
    ReadingsKept(r, p, q, buf, name);
    StringsGrow(r, |p|, q, |buf|, 0);
    TextsGrow(Strings(r, |p|, 0), Strings(q, |buf|, 0), Shown(space));
  }

  /** Preview lines never disappear or change what they already show: a line
      that has its note stays, and one without may gain it. */
  lemma ComposedPreviewGrows(p: Bytes, buf: Bytes, title: Bytes, note: Bytes, space: int -> bool)
    requires p <= buf && FieldName(title) && FieldName(note)
    ensures var a, b := PreviewOf(p, title, note, space), PreviewOf(buf, title, note, space);
      && |a| <= |b|
      && (forall i :: 0 <= i < |a| ==> a[i] <= b[i])
      && (forall i :: 0 <= i < |a| && i < |ComposedStrings(p, note, space)| ==> a[i] == b[i])
  {
    ComposedStringsGrow(p, buf, title, space);
    ComposedStringsGrow(p, buf, note, space);
    LinesGrow(ComposedStrings(p, title, space), ComposedStrings(p, note, space),
              ComposedStrings(buf, title, space), ComposedStrings(buf, note, space));
  }

  lemma LinesGrow(titles: seq<Runes>, notes: seq<Runes>, titles': seq<Runes>, notes': seq<Runes>)
    requires titles <= titles' && notes <= notes'
    ensures var a, b := PreviewLines(titles, notes), PreviewLines(titles', notes');
      && |a| <= |b|
      && (forall i :: 0 <= i < |a| ==> a[i] <= b[i])
      && (forall i :: 0 <= i < |a| && i < |notes| ==> a[i] == b[i])
  {
  }
}
