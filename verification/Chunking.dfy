/** Splitting a batch of recognised materials into model calls: observations of
    one activity are grouped, and whole groups are packed greedily into chunks
    (backend/internal/aiassist/aiassist.go). */
module Chunking {
  import opened Options
  import opened Text

  /** A recognised page. `jsonBytes` is the length of its own JSON encoding. */
  datatype Observation = Observation(
    assetId: string, page: int, title: string, date: string, rawText: string, jsonBytes: nat)

  /** The two character tables of the `unicode` package that the key uses. */
  datatype Letters = Letters(lower: char -> char, space: char -> bool)

  type Group = seq<Observation>

  const MAX_CHUNK_OBSERVATIONS: nat := 6
  const MAX_CHUNK_OBSERVATION_BYTES: nat := 5200

  type Keying = Observation -> string

  // ---------------------------------------------------------------- activities

  function NormalizeActivity(title: string, l: Letters): string {
    if title == [] then []
    else
      var c := l.lower(title[0]);
      (if l.space(c) then [] else [c]) + NormalizeActivity(title[1..], l)
  }

  const NUL: char := '\0'

  predicate Titled(o: Observation, l: Letters) {
    NormalizeActivity(o.title, l) != []
  }

  /** A key has two parts with a NUL between them. */
  function Head(o: Observation, l: Letters): string {
    if Titled(o, l) then NormalizeActivity(o.title, l) else "asset"
  }

  function Tail(o: Observation, l: Letters): string {
    if Titled(o, l) then Trim(o.date, l.space) else o.assetId + [NUL] + Itoa(o.page)
  }

  function ActivityKey(o: Observation, l: Letters): string {
    Head(o, l) + [NUL] + Tail(o, l)
  }

  /** One activity: the same normalised title and trimmed date, or the same page of
      one asset without a title. */
  predicate SameIdentity(o: Observation, p: Observation, l: Letters) {
    if Titled(o, l) then
      NormalizeActivity(o.title, l) == NormalizeActivity(p.title, l) && Trim(o.date, l.space) == Trim(p.date, l.space)
    else !Titled(p, l) && o.assetId == p.assetId && o.page == p.page
  }

  /** The first text joined at a NUL reads like the second because a NUL inside it is
      taken for the boundary. */
  ghost predicate Shifted(a: string, x: string, b: string, y: string) {
    exists w: string :: b == a + [NUL] + w && x == w + [NUL] + y
  }

  /** A title or a date with a NUL in it that looks like other fields. */
  ghost predicate Confused(o: Observation, p: Observation, l: Letters) {
    || Shifted(Head(o, l), Tail(o, l), Head(p, l), Tail(p, l))
    || (!Titled(o, l) && Titled(p, l) && Head(p, l) == "asset" && Tail(p, l) == Tail(o, l))
  }

  /** Text that is shorter before its boundary. */
  lemma ShorterHead(a: string, x: string, b: string, y: string)
    requires |a| < |b| && a + [NUL] + x == b + [NUL] + y
    ensures Shifted(a, x, b, y)
  {
    var s, w := a + [NUL] + x, b[|a| + 1..];
    assert s[..|b|] == b;
    assert b[..|a|] == s[..|a|] == a && b[|a|] == s[|a|] == NUL;
    assert b == a + [NUL] + w;
    assert s[|a| + 1..] == x;
    assert (b + [NUL] + y)[|a| + 1..] == w + [NUL] + y;
  }

  lemma ShiftedReadsAlike(a: string, x: string, b: string, y: string)
    requires Shifted(a, x, b, y)
    ensures a + [NUL] + x == b + [NUL] + y
  {
    var w :| b == a + [NUL] + w && x == w + [NUL] + y;
    assert a + [NUL] + (w + [NUL] + y) == (a + [NUL] + w) + [NUL] + y;
  }

  /** When two joined texts are equal. */
  lemma JoinedAtNul(a: string, x: string, b: string, y: string)
    ensures a + [NUL] + x == b + [NUL] + y <==>
      (a == b && x == y) || Shifted(a, x, b, y) || Shifted(b, y, a, x)
  {
    if Shifted(a, x, b, y) {
      ShiftedReadsAlike(a, x, b, y);
    }
    if Shifted(b, y, a, x) {
      ShiftedReadsAlike(b, y, a, x);
    }
    if a + [NUL] + x == b + [NUL] + y {
      if |a| < |b| {
        ShorterHead(a, x, b, y);
      } else if |b| < |a| {
        ShorterHead(b, y, a, x);
      } else {
        assert a == (a + [NUL] + x)[..|a|] && b == (b + [NUL] + y)[..|b|];
        assert x == (a + [NUL] + x)[|a| + 1..] && y == (b + [NUL] + y)[|b| + 1..];
      }
    }
  }

  /** A page number holds no NUL, so a page of an asset is told from every other. */
  lemma SamePage(o: Observation, p: Observation)
    requires o.assetId + [NUL] + Itoa(o.page) == p.assetId + [NUL] + Itoa(p.page)
    ensures o.assetId == p.assetId && o.page == p.page
  {
    JoinedAtNul(o.assetId, Itoa(o.page), p.assetId, Itoa(p.page));
    NoNulInNumber(o.page);
    NoNulInNumber(p.page);
    if Itoa(o.page) == Itoa(p.page) {
      ItoaInjective(o.page, p.page);
    }
  }

  lemma NulInside(a: string, x: string)
    ensures NUL in a + [NUL] + x
  {
    assert (a + [NUL] + x)[|a|] == NUL;
  }

  lemma NoNulInNumber(n: int)
    ensures NUL !in Itoa(n)
    ensures forall w: string, y: string :: Itoa(n) != w + [NUL] + y
  {
    DigitsAreDigits(if n < 0 then -n else n);
    forall w: string, y: string
      ensures Itoa(n) != w + [NUL] + y
    {
      NulInside(w, y);
    }
  }

  /** Two observations get one key exactly when they are one activity, but for the
      confusion that a NUL in a title or a date can cause. */
  lemma SameActivity(o: Observation, p: Observation, l: Letters)
    ensures ActivityKey(o, l) == ActivityKey(p, l) <==>
      SameIdentity(o, p, l) || Confused(o, p, l) || Confused(p, o, l)
  {
    JoinedAtNul(Head(o, l), Tail(o, l), Head(p, l), Tail(p, l));
    if Head(o, l) == Head(p, l) && Tail(o, l) == Tail(p, l) && !Titled(o, l) && !Titled(p, l) {
      SamePage(o, p);
    }
  }

  lemma PlainIsNotShifted(a: string, x: string, b: string, y: string)
    requires NUL !in b
    ensures !Shifted(a, x, b, y)
  {
    forall w: string
      ensures b != a + [NUL] + w
    {
      NulInside(a, w);
    }
  }

  /** Without NUL characters in titles and dates nothing is confused. */
  lemma {:induction false} PlainIsNotConfused(o: Observation, p: Observation, l: Letters)
    requires NUL !in NormalizeActivity(p.title, l) && NUL !in Trim(p.date, l.space)
    ensures !Confused(o, p, l)
  {
    PlainIsNotShifted(Head(o, l), Tail(o, l), Head(p, l), Tail(p, l));
    NulInside(o.assetId, Itoa(o.page));
  }

  /** With one, a titled certificate can be glued to an untitled page. */
  lemma NulGluesActivities(o: Observation, l: Letters)
    requires l == Letters(c => c, c => c == ' ') && o.title == "" && o.page == 3 && o.assetId == "x"
    ensures var p := o.(title := "asset", date := "x" + [NUL] + "3");
      ActivityKey(o, l) == ActivityKey(p, l) && !SameIdentity(o, p, l)
  {
    assert NormalizeActivity("", l) == "";
    NormalizeAsset(l);
    assert Trim("x" + [NUL] + "3", l.space) == "x" + [NUL] + "3";
    assert Itoa(3) == "3";
  }

  lemma {:induction false} NormalizeAsset(l: Letters)
    requires l == Letters(c => c, c => c == ' ')
    ensures NormalizeActivity("asset", l) == "asset"
  {
    assert NormalizeActivity("t", l) == "t";
    assert NormalizeActivity("et", l) == "et";
    assert NormalizeActivity("set", l) == "set";
    assert NormalizeActivity("sset", l) == "sset";
  }

  function KeyOf(l: Letters): Keying {
    o => ActivityKey(o, l)
  }

  // ------------------------------------------------------------------- groups

  /** The activity keys in order of first appearance. */
  function Keys(os: seq<Observation>, key: Keying): seq<string> {
    if os == [] then []
    else
      var rest, k := Keys(os[..|os| - 1], key), key(os[|os| - 1]);
      if k in rest then rest else rest + [k]
  }

  /** The observations of one activity, in their original order. */
  function Select(os: seq<Observation>, k: string, key: Keying): Group {
    if os == [] then []
    else
      var o := os[|os| - 1];
      Select(os[..|os| - 1], k, key) + if key(o) == k then [o] else []
  }

  function Groups(os: seq<Observation>, key: Keying): (gs: seq<Group>)
    ensures |gs| == |Keys(os, key)|
    ensures forall i :: 0 <= i < |gs| ==> gs[i] == Select(os, Keys(os, key)[i], key)
  {
    var ks := Keys(os, key);
    seq(|ks|, i requires 0 <= i < |ks| => Select(os, ks[i], key))
  }

  predicate OfKey(g: Group, k: string, key: Keying) {
    forall i :: 0 <= i < |g| ==> key(g[i]) == k
  }

  lemma {:induction false} KeysDistinct(os: seq<Observation>, key: Keying)
    ensures Distinct(Keys(os, key))
    ensures forall i :: 0 <= i < |os| ==> key(os[i]) in Keys(os, key)
    ensures forall k :: k in Keys(os, key) ==> Select(os, k, key) != []
  {
    if os != [] {
      KeysDistinct(os[..|os| - 1], key);
    }
  }

  lemma {:induction false} SelectOfKey(os: seq<Observation>, k: string, key: Keying)
    ensures OfKey(Select(os, k, key), k, key)
    ensures (forall i :: 0 <= i < |os| ==> key(os[i]) != k) ==> Select(os, k, key) == []
  {
    if os != [] {
      SelectOfKey(os[..|os| - 1], k, key);
    }
  }

  lemma {:induction false} SelectAppend(a: seq<Observation>, b: seq<Observation>, k: string, key: Keying)
    ensures Select(a + b, k, key) == Select(a, k, key) + Select(b, k, key)
  {
    if b == [] {
      assert a + b == a;
    } else {
      var init := b[..|b| - 1];
      assert (a + b)[..|a + b| - 1] == a + init;
      SelectAppend(a, init, k, key);
    }
  }

  lemma {:induction false} SelectUniform(g: Group, k: string, key: Keying)
    requires OfKey(g, k, key)
    ensures Select(g, k, key) == g
  {
    if g != [] {
      var init, last := g[..|g| - 1], g[|g| - 1];
      SelectUniform(init, k, key);
      assert key(last) == k;
      assert Select(g, k, key) == init + [last];
    }
  }

  lemma {:induction false} SelectOther(g: Group, k: string, other: string, key: Keying)
    requires OfKey(g, k, key) && k != other
    ensures Select(g, other, key) == []
  {
    SelectOfKey(g, other, key);
  }

  /** Appending a group of a new activity appends its key. */
  lemma {:induction false} KeysAppend(a: seq<Observation>, g: Group, k: string, key: Keying)
    requires g != [] && OfKey(g, k, key) && k !in Keys(a, key)
    ensures Keys(a + g, key) == Keys(a, key) + [k]
  {
    var init := g[..|g| - 1];
    assert (a + g)[..|a + g| - 1] == a + init;
    if init == [] {
      assert a + init == a;
    } else {
      KeysAppend(a, init, k, key);
    }
  }

  ghost predicate Grouped(gs: seq<Group>, ks: seq<string>, key: Keying) {
    && |gs| == |ks|
    && Distinct(ks)
    && forall i :: 0 <= i < |gs| ==> gs[i] != [] && OfKey(gs[i], ks[i], key)
  }

  lemma {:induction false} GroupsGrouped(os: seq<Observation>, key: Keying)
    ensures Grouped(Groups(os, key), Keys(os, key), key)
  {
    KeysDistinct(os, key);
    var ks := Keys(os, key);
    forall i | 0 <= i < |ks|
      ensures Groups(os, key)[i] != [] && OfKey(Groups(os, key)[i], ks[i], key)
    {
      assert ks[i] in ks;
      SelectOfKey(os, ks[i], key);
    }
  }

  lemma GroupedPrefix(gs: seq<Group>, ks: seq<string>, key: Keying)
    requires Grouped(gs, ks, key) && gs != []
    ensures var n := |gs| - 1;
      Grouped(gs[..n], ks[..n], key) && ks[n] !in ks[..n] && ks == ks[..n] + [ks[n]]
  {
    var n := |gs| - 1;
    assert Distinct(ks[..n]);
  }

  /** Laying groups of distinct activities end to end and grouping again finds
      the same activities and the same groups. */
  lemma {:induction false} RegroupKeys(gs: seq<Group>, ks: seq<string>, key: Keying)
    requires Grouped(gs, ks, key)
    ensures Keys(Concat(gs), key) == ks
    decreases |gs|
  {
    if gs != [] {
      var n := |gs| - 1;
      GroupedPrefix(gs, ks, key);
      RegroupKeys(gs[..n], ks[..n], key);
      KeysAppend(Concat(gs[..n]), gs[n], ks[n], key);
    }
  }

  lemma {:induction false} RegroupSelect(gs: seq<Group>, ks: seq<string>, i: nat, key: Keying)
    requires Grouped(gs, ks, key) && i < |gs|
    ensures Select(Concat(gs), ks[i], key) == gs[i]
    decreases |gs|
  {
    var n := |gs| - 1;
    GroupedPrefix(gs, ks, key);
    SelectAppend(Concat(gs[..n]), gs[n], ks[i], key);
    if i < n {
      RegroupSelect(gs[..n], ks[..n], i, key);
      SelectOther(gs[n], ks[n], ks[i], key);
    } else {
      RegroupAbsent(gs[..n], ks[..n], ks[n], key);
      SelectUniform(gs[n], ks[n], key);
    }
  }

  lemma {:induction false} RegroupAbsent(gs: seq<Group>, ks: seq<string>, k: string, key: Keying)
    requires Grouped(gs, ks, key) && k !in ks
    ensures Select(Concat(gs), k, key) == []
    decreases |gs|
  {
    if gs != [] {
      var n := |gs| - 1;
      GroupedPrefix(gs, ks, key);
      RegroupAbsent(gs[..n], ks[..n], k, key);
      SelectAppend(Concat(gs[..n]), gs[n], k, key);
      assert ks[n] in ks;
      SelectOther(gs[n], ks[n], k, key);
    }
  }

  lemma {:induction false} Regroup(os: seq<Observation>, key: Keying)
    ensures Groups(Concat(Groups(os, key)), key) == Groups(os, key)
  {
    var gs, ks := Groups(os, key), Keys(os, key);
    GroupsGrouped(os, key);
    RegroupKeys(gs, ks, key);
    forall i | 0 <= i < |ks|
      ensures Select(Concat(gs), ks[i], key) == gs[i]
    {
      RegroupSelect(gs, ks, i, key);
    }
  }

  /** Grouping reorders the observations and neither loses nor repeats one. */
  lemma {:induction false} GroupsArePartition(os: seq<Observation>, key: Keying)
    ensures multiset(Concat(Groups(os, key))) == multiset(os)
  {
    if os == [] {
      assert Groups(os, key) == [];
    } else {
      var init, o := os[..|os| - 1], os[|os| - 1];
      var ks, gs := Keys(init, key), Groups(init, key);
      GroupsArePartition(init, key);
      assert os == init + [o];
      if key(o) in ks {
        var i := JoinGroup(os, key);
        ConcatInsert(gs, i, o);
      } else {
        NewGroup(os, key);
        ConcatSnoc(gs, [o]);
      }
    }
  }

  lemma JoinGroup(os: seq<Observation>, key: Keying) returns (i: nat)
    requires os != [] && key(os[|os| - 1]) in Keys(os[..|os| - 1], key)
    ensures var gs := Groups(os[..|os| - 1], key);
      i < |gs| && Groups(os, key) == gs[i := gs[i] + [os[|os| - 1]]]
  {
    var init, k := os[..|os| - 1], key(os[|os| - 1]);
    var ks := Keys(init, key);
    KeysDistinct(init, key);
    i :| 0 <= i < |ks| && ks[i] == k;
    assert Keys(os, key) == ks;
    forall j | 0 <= j < |ks| && j != i
      ensures Select(os, ks[j], key) == Select(init, ks[j], key)
    {
      assert ks[j] != k;
      OldKeys(os, ks[j], key);
    }
  }

  lemma {:induction false} NewKey(os: seq<Observation>, key: Keying)
    requires os != [] && key(os[|os| - 1]) !in Keys(os[..|os| - 1], key)
    ensures Keys(os, key) == Keys(os[..|os| - 1], key) + [key(os[|os| - 1])]
    ensures Select(os, key(os[|os| - 1]), key) == [os[|os| - 1]]
  {
    var init, k := os[..|os| - 1], key(os[|os| - 1]);
    KeysDistinct(init, key);
    SelectOfKey(init, k, key);
    assert forall i :: 0 <= i < |init| ==> key(init[i]) != k;
    assert Select(init, k, key) == [];
  }

  lemma {:induction false} OldKeys(os: seq<Observation>, k: string, key: Keying)
    requires os != [] && k != key(os[|os| - 1])
    ensures Select(os, k, key) == Select(os[..|os| - 1], k, key)
  {
  }

  lemma NewGroup(os: seq<Observation>, key: Keying)
    requires os != [] && key(os[|os| - 1]) !in Keys(os[..|os| - 1], key)
    ensures Groups(os, key) == Groups(os[..|os| - 1], key) + [[os[|os| - 1]]]
  {
    var init, o := os[..|os| - 1], os[|os| - 1];
    var ks := Keys(init, key);
    NewKey(os, key);
    var gs, next := Groups(init, key), Groups(os, key);
    forall j | 0 <= j < |ks|
      ensures next[j] == gs[j]
    {
      assert Keys(os, key)[j] == ks[j] && ks[j] in ks;
      OldKeys(os, ks[j], key);
    }
  }

  lemma {:induction false} ConcatInsert<T>(parts: seq<seq<T>>, i: nat, x: T)
    requires i < |parts|
    ensures multiset(Concat(parts[i := parts[i] + [x]])) == multiset(Concat(parts)) + multiset{x}
    decreases |parts|
  {
    var n := |parts| - 1;
    var next := parts[i := parts[i] + [x]];
    if i < n {
      assert next[..n] == parts[..n][i := parts[i] + [x]];
      ConcatInsert(parts[..n], i, x);
    } else {
      assert next[..n] == parts[..n];
    }
  }

  // ------------------------------------------------------------------ packing

  /** Length of the JSON array holding these observations. */
  function JsonBytes(g: Group): (n: nat)
    ensures n >= 1
  {
    if g == [] then 2
    else if |g| == 1 then g[0].jsonBytes + 2
    else JsonBytes(g[..|g| - 1]) + 1 + g[|g| - 1].jsonBytes
  }

  function Count(run: seq<Group>): nat {
    if run == [] then 0 else Count(run[..|run| - 1]) + |run[|run| - 1]|
  }

  function Bytes(run: seq<Group>): nat {
    if run == [] then 0 else Bytes(run[..|run| - 1]) + JsonBytes(run[|run| - 1])
  }

  predicate WithinLimits(run: seq<Group>) {
    Count(run) <= MAX_CHUNK_OBSERVATIONS && Bytes(run) <= MAX_CHUNK_OBSERVATION_BYTES
  }

  /** Only a run of two or more groups has to respect the limits. */
  predicate Feasible(run: seq<Group>) {
    run != [] && (|run| >= 2 ==> WithinLimits(run))
  }

  /** Greedy packing: a group joins the last run when it still fits there. */
  function Pack(gs: seq<Group>): seq<seq<Group>> {
    if gs == [] then [] else PackOne(Pack(gs[..|gs| - 1]), gs[|gs| - 1])
  }

  function PackOne(runs: seq<seq<Group>>, g: Group): seq<seq<Group>> {
    if runs != [] && WithinLimits(runs[|runs| - 1] + [g])
    then runs[..|runs| - 1] + [runs[|runs| - 1] + [g]]
    else runs + [[g]]
  }

  function Flatten(runs: seq<seq<Group>>): (chunks: seq<Group>)
    ensures |chunks| == |runs|
    ensures forall i :: 0 <= i < |runs| ==> chunks[i] == Concat(runs[i])
  {
    seq(|runs|, i requires 0 <= i < |runs| => Concat(runs[i]))
  }

  function Plan(os: seq<Observation>, key: Keying): seq<Group> {
    Flatten(Pack(Groups(os, key)))
  }

  /** A split of the groups, in order, into consecutive feasible runs. */
  predicate Splits(runs: seq<seq<Group>>, gs: seq<Group>) {
    && Concat(runs) == gs
    && forall i :: 0 <= i < |runs| ==> Feasible(runs[i])
  }

  lemma {:induction false} PackSplits(gs: seq<Group>)
    ensures Splits(Pack(gs), gs)
  {
    if gs != [] {
      var runs, g := Pack(gs[..|gs| - 1]), gs[|gs| - 1];
      PackSplits(gs[..|gs| - 1]);
      assert gs == gs[..|gs| - 1] + [g];
      if runs != [] && WithinLimits(runs[|runs| - 1] + [g]) {
        LongerLast(runs, g);
      } else {
        ConcatSnoc(runs, [g]);
      }
    }
  }

  lemma {:induction false} LongerLast<T>(runs: seq<seq<T>>, g: T)
    requires runs != []
    ensures Concat(runs[..|runs| - 1] + [runs[|runs| - 1] + [g]]) == Concat(runs) + [g]
  {
    var init, last := runs[..|runs| - 1], runs[|runs| - 1];
    ConcatSnoc(init, last + [g]);
    assert Concat(init) + (last + [g]) == (Concat(init) + last) + [g];
  }

  lemma {:induction false} CountAppend(a: seq<Group>, b: seq<Group>)
    ensures Count(a + b) == Count(a) + Count(b)
    ensures Bytes(a + b) == Bytes(a) + Bytes(b)
  {
    if b == [] {
      assert a + b == a;
    } else {
      assert (a + b)[..|a + b| - 1] == a + b[..|b| - 1];
      CountAppend(a, b[..|b| - 1]);
    }
  }

  /** Greedy stays ahead: against any split it uses no more runs, and when it
      uses as many its last run is no longer. */
  ghost predicate Ahead(packed: seq<seq<Group>>, runs: seq<seq<Group>>) {
    && |packed| <= |runs|
    && (|packed| == |runs| != 0 ==> |packed[|packed| - 1]| <= |runs[|runs| - 1]|)
  }

  lemma {:induction false} GreedyStaysAhead(gs: seq<Group>, runs: seq<seq<Group>>)
    requires Splits(runs, gs)
    ensures Ahead(Pack(gs), runs)
    decreases |gs|
  {
    if runs != [] {
      var m := |runs| - 1;
      var last := runs[m];
      LastOfSplit(runs, gs);
      var init, g := gs[..|gs| - 1], gs[|gs| - 1];
      if |last| == 1 {
        GreedyStaysAhead(init, runs[..m]);
        AheadNewRun(Pack(init), runs, g);
      } else {
        ShorterSplits(runs, gs);
        var shorter := runs[..m] + [last[..|last| - 1]];
        GreedyStaysAhead(init, shorter);
        PackSplits(init);
        if |Pack(init)| == |runs| {
          LastRunFits(Pack(init), shorter, init, last, g);
        }
      }
    }
  }

  lemma LastOfSplit(runs: seq<seq<Group>>, gs: seq<Group>)
    requires Splits(runs, gs) && runs != []
    ensures gs != [] && runs[|runs| - 1][|runs[|runs| - 1]| - 1] == gs[|gs| - 1]
    ensures |runs[|runs| - 1]| == 1 ==> Splits(runs[..|runs| - 1], gs[..|gs| - 1])
  {
    var m := |runs| - 1;
    assert Concat(runs) == Concat(runs[..m]) + runs[m];
  }

  lemma AheadNewRun(packed: seq<seq<Group>>, runs: seq<seq<Group>>, g: Group)
    requires runs != [] && Ahead(packed, runs[..|runs| - 1]) && |runs[|runs| - 1]| == 1
    ensures Ahead(PackOne(packed, g), runs)
  {
  }

  lemma ShorterSplits(runs: seq<seq<Group>>, gs: seq<Group>)
    requires Splits(runs, gs) && runs != [] && |runs[|runs| - 1]| >= 2
    ensures gs != []
    ensures var m := |runs| - 1;
      Splits(runs[..m] + [runs[m][..|runs[m]| - 1]], gs[..|gs| - 1])
  {
    var m := |runs| - 1;
    var last := runs[m];
    var cut := last[..|last| - 1];
    assert last == cut + [last[|last| - 1]];
    CountAppend(cut, [last[|last| - 1]]);
    ConcatSnoc(runs[..m], cut);
    assert Concat(runs) == Concat(runs[..m]) + last;
    assert gs[..|gs| - 1] == Concat(runs[..m]) + cut;
  }

  /** If greedy's last run is a suffix of another split's last run, the group
      that fits there fits in greedy's run too. */
  lemma {:induction false} LastRunFits(packed: seq<seq<Group>>, shorter: seq<seq<Group>>, init: seq<Group>,
                                       last: seq<Group>, g: Group)
    requires packed != [] && |packed| == |shorter|
    requires Concat(packed) == init == Concat(shorter)
    requires last == shorter[|shorter| - 1] + [g] && WithinLimits(last)
    requires |packed[|packed| - 1]| <= |shorter[|shorter| - 1]|
    ensures WithinLimits(packed[|packed| - 1] + [g])
  {
    var p, s := packed[|packed| - 1], shorter[|shorter| - 1];
    assert init[|init| - |p|..] == p;
    assert init[|init| - |s|..] == s;
    var head := s[..|s| - |p|];
    assert s == head + p;
    CountAppend(head, p);
    CountAppend(s, [g]);
    CountAppend(p, [g]);
  }

  /** A run that may make a chunk: of two groups or more only with at most six
      observations, whose parts encode within 5200 bytes. */
  predicate Allowed(run: seq<Group>) {
    run != [] && (|run| >= 2 ==> Count(run) <= 6 && Bytes(run) <= 5200)
  }

  /** Packing is optimal: no split of the activity groups, in order, into
      runs that are allowed uses fewer chunks. */
  lemma PackingIsOptimal(os: seq<Observation>, key: Keying, runs: seq<seq<Group>>)
    requires Concat(runs) == Groups(os, key) && forall i :: 0 <= i < |runs| ==> Allowed(runs[i])
    ensures |Plan(os, key)| <= |runs|
  {
    assert Splits(runs, Groups(os, key));
    GreedyStaysAhead(Groups(os, key), runs);
    assert Ahead(Pack(Groups(os, key)), runs);
  }

  lemma {:induction false} ConcatConcat<T>(runs: seq<seq<seq<T>>>, flat: seq<seq<T>>)
    requires |flat| == |runs|
    requires forall i :: 0 <= i < |runs| ==> flat[i] == Concat(runs[i])
    ensures Concat(flat) == Concat(Concat(runs))
    decreases |runs|
  {
    if runs != [] {
      var n := |runs| - 1;
      ConcatConcat(runs[..n], flat[..n]);
      ConcatAppend(Concat(runs[..n]), runs[n]);
    }
  }

  /** The chunks, laid end to end, are the activity groups laid end to end: each
      observation appears exactly once and each activity is whole and
      contiguous; the chunks are feasible runs of groups. */
  lemma PlanPartitions(os: seq<Observation>, key: Keying)
    ensures Concat(Plan(os, key)) == Concat(Groups(os, key))
    ensures multiset(Concat(Plan(os, key))) == multiset(os)
    ensures Splits(Pack(Groups(os, key)), Groups(os, key))
    ensures os != [] ==> Plan(os, key) != []
  {
    var gs := Groups(os, key);
    PackSplits(gs);
    ConcatConcat(Pack(gs), Plan(os, key));
    GroupsArePartition(os, key);
    if Plan(os, key) == [] {
      assert multiset(os) == multiset{};
      assert os == [];
    }
  }

  lemma {:induction false} JsonBytesAppend(a: Group, b: Group)
    requires a != [] && b != []
    ensures JsonBytes(a + b) + 1 == JsonBytes(a) + JsonBytes(b)
  {
    var init := b[..|b| - 1];
    assert (a + b)[..|a + b| - 1] == a + init;
    if init == [] {
      assert a + init == a;
    } else {
      JsonBytesAppend(a, init);
    }
  }

  lemma {:induction false} RunBytesBound(run: seq<Group>)
    requires run != [] && forall i :: 0 <= i < |run| ==> run[i] != []
    ensures Concat(run) != [] && |Concat(run)| == Count(run)
    ensures JsonBytes(Concat(run)) <= Bytes(run)
  {
    var n := |run| - 1;
    if n == 0 {
      assert Concat(run) == run[0];
    } else {
      RunBytesBound(run[..n]);
      JsonBytesAppend(Concat(run[..n]), run[n]);
    }
  }

  lemma {:induction false} RunOfGroups(runs: seq<seq<Group>>, i: nat, j: nat)
    requires i < |runs| && j < |runs[i]|
    ensures runs[i][j] in Concat(runs)
    decreases |runs|
  {
    var n := |runs| - 1;
    if i < n {
      RunOfGroups(runs[..n], i, j);
    }
  }

  predicate Oversized(g: Group) {
    |g| > 6 || JsonBytes(g) > 5200
  }

  /** A chunk of two or more activities has at most six observations and an
      encoded size within the limit, so a group over a limit is alone. */
  lemma ChunkLimits(os: seq<Observation>, key: Keying, i: nat)
    requires i < |Plan(os, key)|
    ensures var run := Pack(Groups(os, key))[i];
      && run != [] && Plan(os, key)[i] == Concat(run) != []
      && (|run| >= 2 ==> |Plan(os, key)[i]| <= 6 && JsonBytes(Plan(os, key)[i]) <= 5200)
      && (forall g | g in run && Oversized(g) :: run == [g])
  {
    var gs := Groups(os, key);
    var run := Pack(gs)[i];
    PackSplits(gs);
    GroupsGrouped(os, key);
    forall j | 0 <= j < |run|
      ensures run[j] != []
    {
      RunOfGroups(Pack(gs), i, j);
    }
    RunBytesBound(run);
    forall g | g in run && Oversized(g)
      ensures run == [g]
    {
      var j :| 0 <= j < |run| && run[j] == g;
      MemberBound(run, j);
    }
  }

  lemma {:induction false} MemberBound(run: seq<Group>, j: nat)
    requires j < |run|
    ensures |run[j]| <= Count(run) && JsonBytes(run[j]) <= Bytes(run)
  {
    assert run == run[..j] + ([run[j]] + run[j + 1..]);
    CountAppend(run[..j], [run[j]] + run[j + 1..]);
    CountAppend([run[j]], run[j + 1..]);
    assert Count([run[j]]) == |run[j]| && Bytes([run[j]]) == JsonBytes(run[j]) by {
      assert [run[j]][..0] == [];
    }
  }

  /** Planning the observations in the order the chunks hold them gives the
      same chunks again. */
  lemma PlanIsStable(os: seq<Observation>, key: Keying)
    ensures Plan(Concat(Plan(os, key)), key) == Plan(os, key)
  {
    PlanPartitions(os, key);
    Regroup(os, key);
  }

  // ---------------------------------------------------------------- the loops

  /** First loop: collect the groups and remember the order of their keys. */
  method GroupByActivity(observations: seq<Observation>, key: Keying)
    returns (order: seq<string>, groups: map<string, Group>)
    ensures order == Keys(observations, key)
    ensures forall k :: k in order ==> k in groups && groups[k] == Select(observations, k, key)
  {
    order, groups := [], map[];
    for i := 0 to |observations|
      invariant order == Keys(observations[..i], key)
      invariant forall k :: k in groups <==> k in order
      invariant forall k :: k in order ==> groups[k] == Select(observations[..i], k, key)
    {
      var observation := observations[i];
      var k := key(observation);
      assert observations[..i + 1][..i] == observations[..i];
      SelectOfKey(observations[..i], k, key);
      KeysDistinct(observations[..i], key);
      if k !in groups {
        order := order + [k];
        groups := groups[k := []];
      }
      groups := groups[k := groups[k] + [observation]];
    }
    assert observations[..|observations|] == observations;
  }

  /** Second loop: fill the current chunk until the next group overflows it. */
  method PlanChunks(observations: seq<Observation>, l: Letters) returns (chunks: seq<Group>)
    ensures chunks == Plan(observations, KeyOf(l))
  {
    if observations == [] {
      return [];
    }
    var order, groups := GroupByActivity(observations, KeyOf(l));
    GroupsGrouped(observations, KeyOf(l));
    chunks := PackGroups(order, groups, Groups(observations, KeyOf(l)));
  }

  method PackGroups(order: seq<string>, groups: map<string, Group>, ghost gs: seq<Group>) returns (chunks: seq<Group>)
    requires |order| == |gs|
    requires forall i :: 0 <= i < |gs| ==> order[i] in groups && groups[order[i]] == gs[i] && gs[i] != []
    ensures chunks == Flatten(Pack(gs))
  {
    chunks := [];
    var current: Group := [];
    var currentBytes: nat := 0;
    for i := 0 to |order|
      invariant Packing(Pack(gs[..i]), chunks, current, currentBytes)
    {
      var group := groups[order[i]];
      var groupBytes := JsonBytes(group);
      assert gs[..i + 1][..i] == gs[..i];
      StepPacking(Pack(gs[..i]), group, chunks, current, currentBytes);
      var overflow := current != [] &&
        (|current| + |group| > MAX_CHUNK_OBSERVATIONS || currentBytes + groupBytes > MAX_CHUNK_OBSERVATION_BYTES);
      if overflow {
        chunks := chunks + [current];
        current, currentBytes := [], 0;
      }
      current := current + group;
      currentBytes := currentBytes + groupBytes;
    }
    assert gs[..|order|] == gs;
    if current != [] {
      chunks := chunks + [current];
    }
  }

  /** The loop state for the runs packed so far: closed chunks, the open chunk
      and its running size. */
  ghost predicate Packing(runs: seq<seq<Group>>, chunks: seq<Group>, current: Group, currentBytes: nat) {
    if runs == [] then chunks == [] && current == [] && currentBytes == 0
    else
      var last := runs[|runs| - 1];
      && chunks + [current] == Flatten(runs)
      && current != [] && |current| == Count(last) && currentBytes == Bytes(last)
  }

  lemma {:induction false} StepPacking(runs: seq<seq<Group>>, g: Group, chunks: seq<Group>, current: Group,
                                       currentBytes: nat)
    requires g != [] && Packing(runs, chunks, current, currentBytes)
    ensures
      if current == [] then Packing(PackOne(runs, g), chunks, g, JsonBytes(g))
      else if |current| + |g| > MAX_CHUNK_OBSERVATIONS
              || currentBytes + JsonBytes(g) > MAX_CHUNK_OBSERVATION_BYTES
      then Packing(PackOne(runs, g), chunks + [current], g, JsonBytes(g))
      else Packing(PackOne(runs, g), chunks, current + g, currentBytes + JsonBytes(g))
  {
    if runs == [] {
      OpenRun(runs, g, chunks, current, currentBytes);
    } else {
      Singleton(g);
      CountAppend(runs[|runs| - 1], [g]);
      if WithinLimits(runs[|runs| - 1] + [g]) {
        JoinRun(runs, g, chunks, current, currentBytes);
      } else {
        OpenRun(runs, g, chunks, current, currentBytes);
      }
    }
  }

  lemma {:induction false} JoinRun(runs: seq<seq<Group>>, g: Group, chunks: seq<Group>, current: Group,
                                   currentBytes: nat)
    requires runs != [] && Packing(runs, chunks, current, currentBytes)
    ensures Packing(runs[..|runs| - 1] + [runs[|runs| - 1] + [g]], chunks, current + g, currentBytes + JsonBytes(g))
  {
    var n := |runs| - 1;
    Singleton(g);
    CountAppend(runs[n], [g]);
    ConcatSnoc(runs[n], g);
    var was, next := Flatten(runs), Flatten(runs[..n] + [runs[n] + [g]]);
    assert chunks == was[..n] && current == was[n];
    assert next[..n] == was[..n];
  }

  lemma {:induction false} OpenRun(runs: seq<seq<Group>>, g: Group, chunks: seq<Group>, current: Group,
                                   currentBytes: nat)
    requires g != [] && Packing(runs, chunks, current, currentBytes)
    ensures Packing(runs + [[g]], chunks + (if current == [] then [] else [current]), g, JsonBytes(g))
  {
    Singleton(g);
    assert Flatten(runs + [[g]])[..|runs|] == Flatten(runs);
  }

  lemma {:induction false} Singleton(g: Group)
    ensures Count([g]) == |g| && Bytes([g]) == JsonBytes(g) && Concat([g]) == g
  {
    assert [g][..0] == [];
  }
}
