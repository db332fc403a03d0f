/** Finding a field's string value in a buffer that may stop at any byte. Shared
    by the answer reader (backend/internal/agentjob/partial.go) and the
    composition preview (backend/internal/aiassist/preview.go). */
module FieldSearch {
  import opened Options
  import opened Utf8
  import opened JsonString

  const COLON: Byte := 58
  const COMMA: Byte := 44
  const LBRACE: Byte := 123

  predicate IsSpace(b: Byte) {
    b == 32 || b == 9 || b == 13 || b == 10
  }

  predicate IsLetter(b: Byte) {
    97 <= b < 123
  }

  /** The field names the readers are called with: thought, answer, title, note. */
  predicate FieldName(name: Bytes) {
    name != [] && forall i :: 0 <= i < |name| ==> IsLetter(name[i])
  }

  function Key(name: Bytes): Bytes {
    [QUOTE] + name + [QUOTE]
  }

  /** Index of the last non-blank byte before `at`, or -1. */
  function Back(buf: Bytes, at: nat): (r: int)
    requires at <= |buf|
    ensures -1 <= r < at
    ensures r >= 0 ==> !IsSpace(buf[r])
  {
    if at == 0 then -1 else if IsSpace(buf[at - 1]) then Back(buf, at - 1) else at - 1
  }

  /** Index of the first non-blank byte from `i` on, or the end of the buffer. */
  function Skip(buf: Bytes, i: nat): (r: nat)
    requires i <= |buf|
    ensures i <= r <= |buf|
    ensures r < |buf| ==> !IsSpace(buf[r])
    decreases |buf| - i
  {
    if i < |buf| && IsSpace(buf[i]) then Skip(buf, i + 1) else i
  }

  lemma {:induction false} BlanksBack(buf: Bytes, at: nat)
    requires at <= |buf|
    ensures forall i :: Back(buf, at) < i < at ==> IsSpace(buf[i])
  {
    if at > 0 && IsSpace(buf[at - 1]) {
      BlanksBack(buf, at - 1);
    }
  }

  lemma {:induction false} BlanksSkipped(buf: Bytes, i: nat)
    requires i <= |buf|
    ensures forall k :: i <= k < Skip(buf, i) ==> IsSpace(buf[k])
    decreases |buf| - i
  {
    if i < |buf| && IsSpace(buf[i]) {
      BlanksSkipped(buf, i + 1);
    }
  }

  predicate Structural(buf: Bytes, at: nat)
    requires at <= |buf|
  {
    var b := Back(buf, at);
    b >= 0 && (buf[b] == LBRACE || buf[b] == COMMA)
  }

  predicate Occurs(buf: Bytes, key: Bytes, at: nat) {
    at + |key| <= |buf| && buf[at..at + |key|] == key
  }

  /** Where the string value after a key ending at `i` begins. */
  function ValueAfter(buf: Bytes, i: nat): (r: Option<nat>)
    requires i <= |buf|
    ensures r.Some? ==> i < r.value <= |buf|
  {
    var c := Skip(buf, i);
    if c < |buf| && buf[c] == COLON then
      var v := Skip(buf, c + 1);
      if v < |buf| && buf[v] == QUOTE then Some(v + 1) else None
    else None
  }

  /** The first byte of the string value, when a field of that name with a
      string value is written at `at`. */
  function FieldAt(buf: Bytes, name: Bytes, at: nat): (r: Option<nat>)
    ensures r.Some? ==> at + |name| + 2 < r.value <= |buf|
  {
    if Occurs(buf, Key(name), at) && Structural(buf, at)
    then ValueAfter(buf, at + |name| + 2)
    else None
  }

  // ------------------------------------------------------------- the search

  /** What a reader finds at each position: the start of a string value. */
  type Probe = nat -> Option<nat>

  ghost predicate Lawful(h: Probe, n: nat) {
    forall at: nat :: h(at).Some? ==> at < h(at).value <= n
  }

  /** h tells, for every position of the buffer, whether the field is there. */
  ghost predicate Probes(h: Probe, buf: Bytes, name: Bytes) {
    && Lawful(h, |buf|)
    && forall at: nat {:trigger FieldAt(buf, name, at)} :: h(at) == FieldAt(buf, name, at)
  }

  ghost function ProbeOf(buf: Bytes, name: Bytes): (h: Probe)
    ensures Probes(h, buf, name)
  {
    at => FieldAt(buf, name, at)
  }

  /** The first position from `from` on, below n, where h finds something. */
  ghost function NextField<T>(h: nat -> Option<T>, n: nat, from: nat): (r: Option<nat>)
    ensures r.Some? ==> from <= r.value < n && h(r.value).Some?
    decreases n - from
  {
    if from >= n then None
    else if h(from).Some? then Some(from)
    else NextField(h, n, from + 1)
  }

  ghost predicate NoField<T>(h: nat -> Option<T>, from: nat, to: nat) {
    forall at :: from <= at < to ==> h(at).None?
  }

  lemma {:induction false} NextFieldIsFirst<T>(h: nat -> Option<T>, n: nat, from: nat)
    ensures var r := NextField(h, n, from);
      NoField(h, from, if r.Some? then r.value else if from < n then n else from)
    decreases n - from
  {
    if from < n && h(from).None? {
      NextFieldIsFirst(h, n, from + 1);
    }
  }

  lemma {:induction false} NextFieldSkips<T>(h: nat -> Option<T>, n: nat, from: nat, to: nat)
    requires from <= to && NoField(h, from, to)
    ensures NextField(h, n, from) == NextField(h, n, to)
    decreases n - from
  {
    if from < to && from < n {
      NextFieldSkips(h, n, from + 1, to);
    }
  }

  /** What h misses before something it finds, g misses too: nothing appears in
      front of what has been found. */
  ghost predicate Settled<T>(h: nat -> Option<T>, g: nat -> Option<T>) {
    && (forall at: nat :: h(at).Some? ==> g(at).Some?)
    && (forall before: nat, at: nat :: before < at && h(before).None? && h(at).Some? ==> g(before).None?)
  }

  lemma {:induction false} NextFieldSettled<T>(h: nat -> Option<T>, m: nat, g: nat -> Option<T>, n: nat, from: nat)
    requires Settled(h, g) && m <= n
    requires NextField(h, m, from).Some?
    ensures NextField(g, n, from) == NextField(h, m, from)
  {
    var at := NextField(h, m, from).value;
    NextFieldIsFirst(h, m, from);
    assert NoField(g, from, at);
    NextFieldSkips(g, n, from, at);
  }

  // ------------------------------------------------------------ growing buffers

  lemma {:induction false} BackPrefix(p: Bytes, buf: Bytes, at: nat)
    requires p <= buf && at <= |p|
    ensures Back(p, at) == Back(buf, at)
  {
    if at > 0 && IsSpace(p[at - 1]) {
      BackPrefix(p, buf, at - 1);
    }
  }

  lemma {:induction false} SkipPrefix(p: Bytes, buf: Bytes, i: nat)
    requires p <= buf && i <= |p| && Skip(p, i) < |p|
    ensures Skip(buf, i) == Skip(p, i)
    decreases |p| - i
  {
    if IsSpace(p[i]) {
      SkipPrefix(p, buf, i + 1);
    }
  }

  lemma OccursPrefix(p: Bytes, buf: Bytes, key: Bytes, at: nat)
    requires p <= buf && at + |key| <= |p|
    ensures Occurs(p, key, at) == Occurs(buf, key, at)
  {
    assert p[at..at + |key|] == buf[at..at + |key|];
  }

  /** A field found in a prefix is found in the whole buffer, at the same place. */
  lemma FieldAtPrefix(p: Bytes, buf: Bytes, name: Bytes, at: nat)
    requires p <= buf && FieldAt(p, name, at).Some?
    ensures FieldAt(buf, name, at) == FieldAt(p, name, at)
  {
    OccursPrefix(p, buf, Key(name), at);
    BackPrefix(p, buf, at);
    var i := at + |name| + 2;
    SkipPrefix(p, buf, i);
    SkipPrefix(p, buf, Skip(p, i) + 1);
  }

  /** A structural position beyond a byte that is neither blank nor opens a
      member has another non-blank byte in between. */
  lemma {:induction false} SomethingBetween(buf: Bytes, i: nat, at: nat)
    requires 0 < i <= at <= |buf| && Structural(buf, at)
    requires !IsSpace(buf[i - 1]) && buf[i - 1] != LBRACE && buf[i - 1] != COMMA
    ensures Skip(buf, i) < at
  {
    var b := Back(buf, at);
    BlanksBack(buf, at);
    BlanksSkipped(buf, i);
    assert b >= i - 1;
    assert b >= i && !IsSpace(buf[b]);
  }

  /** Two occurrences of a key cannot overlap in a structural position. */
  lemma NoOverlap(buf: Bytes, name: Bytes, at: nat, next: nat)
    requires FieldName(name) && Occurs(buf, Key(name), at) && at < next < at + |name| + 2
    ensures FieldAt(buf, name, next).None?
  {
    var key := Key(name);
    var window := buf[at..at + |key|];
    assert window[next - at] == buf[next] == key[next - at];
    if next == at + |name| + 1 {
      assert window[next - 1 - at] == buf[next - 1] == name[|name| - 1];
      assert Back(buf, next) == next - 1;
    } else {
      assert key[next - at] == name[next - at - 1];
      if next + |key| <= |buf| {
        assert buf[next..next + |key|][0] == buf[next];
      }
    }
  }

  /** After a key that occurs before a complete field, what decides whether it
      has a string value lies before that field. */
  lemma DecidedBefore(p: Bytes, buf: Bytes, i: nat, at: nat)
    requires p <= buf && 0 < i <= at <= |p| && p[i - 1] == QUOTE && Structural(p, at)
    ensures ValueAfter(p, i).Some? == ValueAfter(buf, i).Some?
  {
    SomethingBetween(p, i, at);
    SkipPrefix(p, buf, i);
    var c := Skip(p, i);
    if p[c] == COLON {
      SomethingBetween(p, c + 1, at);
      SkipPrefix(p, buf, c + 1);
    }
  }

  /** A field missing at a position before a complete field stays missing when
      more bytes arrive: nothing before it is undecided. */
  lemma MissingStaysMissing(p: Bytes, buf: Bytes, name: Bytes, before: nat, at: nat)
    requires p <= buf && FieldName(name) && before < at
    requires FieldAt(p, name, before).None? && FieldAt(p, name, at).Some?
    ensures FieldAt(buf, name, before).None?
  {
    var i := before + |name| + 2;
    OccursPrefix(p, buf, Key(name), before);
    BackPrefix(p, buf, before);
    if Occurs(p, Key(name), before) && i <= at {
      assert p[i - 1] == p[before..i][|name| + 1] == Key(name)[|name| + 1];
      DecidedBefore(p, buf, i, at);
    } else if Occurs(p, Key(name), before) {
      NoOverlap(p, name, before, at);
    }
  }

  /** A field that is found stays found at the same place, and the first one
      stays the first, whatever bytes follow: the buffer need not be JSON. */
  lemma ProbesSettled(h: Probe, p: Bytes, g: Probe, buf: Bytes, name: Bytes)
    requires p <= buf && FieldName(name) && Probes(h, p, name) && Probes(g, buf, name)
    ensures Settled(h, g)
    ensures forall at: nat :: h(at).Some? ==> g(at) == h(at)
  {
    forall at: nat | h(at).Some?
      ensures g(at) == h(at)
    {
      assert h(at) == FieldAt(p, name, at);
      FieldAtPrefix(p, buf, name, at);
    }
    forall before: nat, at: nat | before < at && h(before).None? && h(at).Some?
      ensures g(before).None?
    {
      assert h(before) == FieldAt(p, name, before) && h(at) == FieldAt(p, name, at);
      MissingStaysMissing(p, buf, name, before, at);
    }
  }

  // ------------------------------------------------------------------ methods

  /** strings.Index from an offset. */
  method Index(buf: Bytes, key: Bytes, from: nat) returns (r: int)
    ensures r == -1 || (from <= r && Occurs(buf, key, r))
    ensures forall at :: from <= at && (r == -1 || at < r) ==> !Occurs(buf, key, at)
  {
    r := from;
    while r + |key| <= |buf|
      invariant from <= r
      invariant forall at :: from <= at < r ==> !Occurs(buf, key, at)
    {
      if buf[r..r + |key|] == key {
        return;
      }
      r := r + 1;
    }
    return -1;
  }

  /** Walks back over blanks and decides on the first byte that is none. */
  method StructuralPosition(buf: Bytes, at: nat) returns (structural: bool)
    requires at <= |buf|
    ensures structural == Structural(buf, at)
  {
    var i: int := at - 1;
    while i >= 0
      invariant -1 <= i < at
      invariant Back(buf, at) == Back(buf, i + 1)
    {
      if IsSpace(buf[i]) {
        i := i - 1;
      } else {
        return buf[i] == LBRACE || buf[i] == COMMA;
      }
    }
    return false;
  }

  /** One candidate position, checked the way both readers check it. */
  method CheckOccurrence(buf: Bytes, name: Bytes, at: nat) returns (start: Option<nat>)
    requires Occurs(buf, Key(name), at)
    ensures start == FieldAt(buf, name, at)
  {
    var structural := StructuralPosition(buf, at);
    if !structural {
      return None;
    }
    var rest := Skip(buf, at + |Key(name)|);
    if rest == |buf| || buf[rest] != COLON {
      return None;
    }
    rest := Skip(buf, rest + 1);
    if rest == |buf| || buf[rest] != QUOTE {
      return None;
    }
    return Some(rest + 1);
  }

  /** Positions without the key hold no field. */
  lemma NoKeyNoField(h: Probe, buf: Bytes, name: Bytes, from: nat, to: nat)
    requires Probes(h, buf, name)
    requires forall k :: from <= k < to ==> !Occurs(buf, Key(name), k)
    ensures NoField(h, from, to)
  {
    forall at | from <= at < to
      ensures h(at).None?
    {
      assert h(at) == FieldAt(buf, name, at);
    }
  }

  lemma NoFieldInKey(h: Probe, buf: Bytes, name: Bytes, at: nat)
    requires Probes(h, buf, name) && FieldName(name) && Occurs(buf, Key(name), at)
    ensures NoField(h, at + 1, at + |name| + 2)
  {
    forall next | at < next < at + |name| + 2
      ensures h(next).None?
    {
      assert h(next) == FieldAt(buf, name, next);
      NoOverlap(buf, name, at, next);
    }
  }

  /** One round of the search: the next occurrence of the key, checked. After a
      failed check the search resumes behind the whole key. */
  method TryNext(buf: Bytes, name: Bytes, offset: nat, ghost h: Probe) returns (at: int, start: Option<nat>)
    requires FieldName(name) && Probes(h, buf, name) && offset <= |buf|
    ensures at < 0 ==> NoField(h, offset, |buf|)
    ensures at >= 0 ==> offset <= at && at + |name| + 2 <= |buf|
    ensures at >= 0 ==> NoField(h, offset, at) && start == h(at)
    ensures at >= 0 && start.None? ==> NoField(h, offset, at + |name| + 2)
  {
    at := Index(buf, Key(name), offset);
    if at < 0 {
      NoKeyNoField(h, buf, name, offset, |buf|);
      return at, None;
    }
    NoKeyNoField(h, buf, name, offset, at);
    NoFieldInKey(h, buf, name, at);
    start := CheckOccurrence(buf, name, at);
  }
}
