/** When the order of submissions matters to a category total
    (mock/src/handle.ts). The first listed of equally good entries of an exclusive
    group counts, and the last listed cap of a cap group; the exact conditions say
    when neither choice can be seen. */
module CategoryOrder {
  import opened CategoryScore
  import opened CategoryScoreLaws
  import opened Options

  // ------------------------------------------------------------------- conditions

  /** No entry of its exclusive group scores higher. */
  predicate IsTop(es: seq<Entry>, e: Entry) {
    e in es && forall f :: f in es && f.exclusive == e.exclusive ==> f.score <= e.score
  }

  /** The best entries of an exclusive group carry the same cap group and cap. */
  predicate TopsAgree(es: seq<Entry>) {
    forall e, f :: e in es && f in es && IsTop(es, e) && IsTop(es, f) && e.exclusive == f.exclusive != "" ==>
      e.group == f.group
  }

  /** Entries whose cap may be the one read for a cap group: entries of exclusive
      groups are added after the others. */
  predicate IsReader(s: seq<Entry>, e: Entry, key: string) {
    e in s && InGroup(e, key) && (e.exclusive != "" || forall f :: f in s && InGroup(f, key) ==> f.exclusive == "")
  }

  /** Whichever cap is read for a cap group, its points come to the same. */
  ghost predicate ReadersAgree(s: seq<Entry>) {
    forall e, f, key :: IsReader(s, e, key) && IsReader(s, f, key) ==>
      Min(Sum(s, PartOf(key)), e.group.value.cap) == Min(Sum(s, PartOf(key)), f.group.value.cap)
  }

  /** Every order of the entries selects the same ones. */
  ghost predicate SelectionIsFree(es: seq<Entry>) {
    forall b: seq<Entry> :: multiset(b) == multiset(es) ==> multiset(Selected(b)) == multiset(Selected(es))
  }

  /** Every order of the entries leads to the same total. */
  ghost predicate TotalIsFree(es: seq<Entry>) {
    forall b: seq<Entry> :: multiset(b) == multiset(es) ==> ItemTotal(b) == ItemTotal(es)
  }

  // -------------------------------------------------------------------- selection

  /** The best entry does not depend on the order when the top entries agree. */
  lemma {:induction false} BestPermutation(a: seq<Entry>, b: seq<Entry>, x: string)
    requires multiset(a) == multiset(b) && TopsAgree(a) && x != ""
    ensures Best(a, x) == Best(b, x)
  {
    BestFacts(a, x);
    BestFacts(b, x);
    SameMembers(a, b);
    assert Best(b, x).Some? ==> Best(b, x).value in a;
    if Best(a, x).Some? {
      assert Best(a, x).value in b;
      BestIsTop(a, x);
      BestIsTop(b, x);
      assert IsTop(a, Best(b, x).value);
    }
  }

  lemma {:induction false} BestIsTop(es: seq<Entry>, x: string)
    requires Best(es, x).Some?
    ensures IsTop(es, Best(es, x).value) && Best(es, x).value.exclusive == x
  {
    BestFacts(es, x);
  }

  lemma {:induction false} PlainPermutation(a: seq<Entry>, b: seq<Entry>)
    requires multiset(a) == multiset(b)
    ensures multiset(Plain(a)) == multiset(Plain(b))
  {
    forall e
      ensures multiset(Plain(a))[e] == multiset(Plain(b))[e]
    {
      PlainFacts(a, e);
      PlainFacts(b, e);
    }
  }

  lemma SelectedPermutation(a: seq<Entry>, b: seq<Entry>)
    requires multiset(a) == multiset(b) && TopsAgree(a)
    ensures multiset(Selected(a)) == multiset(Selected(b))
  {
    PlainPermutation(a, b);
    ExclusivesFacts(a);
    ExclusivesFacts(b);
    forall x | x != ""
      ensures Best(a, x) == Best(b, x)
    {
      BestPermutation(a, b, x);
    }
    SameKeys(Exclusives(a), Exclusives(b));
    BestOfPermutation(a, Exclusives(a), Exclusives(b));
    assert BestOf(a, Exclusives(b)) == BestOf(b, Exclusives(b));
  }

  lemma {:induction false} BestOfCount(es: seq<Entry>, xs: seq<string>, e: Entry)
    requires (forall x :: x in xs ==> Best(es, x).Some?) && Distinct(xs)
    ensures multiset(BestOf(es, xs))[e] == if e.exclusive in xs && Best(es, e.exclusive) == Some(e) then 1 else 0
    decreases |xs|
  {
    if xs != [] {
      var init, last := xs[..|xs| - 1], xs[|xs| - 1];
      assert xs == init + [last];
      BestOfCount(es, init, e);
      BestFacts(es, last);
      assert BestOf(es, xs) == BestOf(es, init) + [Best(es, last).value];
      assert last !in init;
    }
  }

  /** An entry of an exclusive group is selected exactly when it is the best. */
  lemma {:induction false} SelectedCount(es: seq<Entry>, e: Entry)
    requires e.exclusive != ""
    ensures multiset(Selected(es))[e] == if Best(es, e.exclusive) == Some(e) then 1 else 0
  {
    PlainFacts(es, e);
    ExclusivesFacts(es);
    BestOfCount(es, Exclusives(es), e);
  }

  /** Listed first, a top entry is the best. */
  lemma {:induction false} FirstTopIsBest(e: Entry, rest: seq<Entry>)
    requires forall f :: f in rest && f.exclusive == e.exclusive ==> f.score <= e.score
    ensures Best([e] + rest, e.exclusive) == Some(e)
    decreases |rest|
  {
    if rest == [] {
      assert [e] + rest == [] + [e];
      OneMoreSelected([], e, e.exclusive);
    } else {
      var init, last := rest[..|rest| - 1], rest[|rest| - 1];
      assert rest == init + [last];
      assert [e] + rest == ([e] + init) + [last];
      FirstTopIsBest(e, init);
      OneMoreSelected([e] + init, last, e.exclusive);
    }
  }

  /** Some order makes a given top entry the best. */
  lemma TopFirst(es: seq<Entry>, e: Entry) returns (b: seq<Entry>)
    requires IsTop(es, e)
    ensures multiset(b) == multiset(es) && Best(b, e.exclusive) == Some(e)
  {
    var i :| 0 <= i < |es| && es[i] == e;
    MultisetWithout(es, i);
    b := [e] + Without(es, i);
    FirstTopIsBest(e, Without(es, i));
  }

  /** Every order selects the same entries exactly when the top entries of each
      exclusive group agree on their cap group and cap. */
  lemma SelectionIsFreeExactly(es: seq<Entry>)
    ensures SelectionIsFree(es) <==> TopsAgree(es)
  {
    if TopsAgree(es) {
      forall b: seq<Entry> | multiset(b) == multiset(es)
        ensures multiset(Selected(b)) == multiset(Selected(es))
      {
        SelectedPermutation(es, b);
      }
    } else {
      var e, f :| e in es && f in es && IsTop(es, e) && IsTop(es, f) && e.exclusive == f.exclusive != "" &&
        e.group != f.group;
      var b := TopFirst(es, e);
      var c := TopFirst(es, f);
      SelectedCount(b, e);
      SelectedCount(c, e);
    }
  }

  // -------------------------------------------------------------- the cap that is read

  /** The last entry of a cap group: its cap is the one that is read. */
  function LastInGroup(s: seq<Entry>, key: string): (e: Entry)
    requires key in GroupKeys(s)
    ensures e in s && InGroup(e, key) && e.group.value.cap == GroupCap(s, key)
  {
    if InGroup(s[|s| - 1], key) then s[|s| - 1] else LastInGroup(s[..|s| - 1], key)
  }

  lemma {:induction false} GroupCapAppend(a: seq<Entry>, b: seq<Entry>, key: string)
    ensures GroupCap(a + b, key) == if key in GroupKeys(b) then GroupCap(b, key) else GroupCap(a, key)
    decreases |b|
  {
    if b == [] {
      assert a + b == a;
    } else {
      assert (a + b)[..|a + b| - 1] == a + b[..|b| - 1];
      GroupCapAppend(a, b[..|b| - 1], key);
    }
  }

  lemma {:induction false} KeyOfMember(s: seq<Entry>, e: Entry, key: string)
    requires e in s && InGroup(e, key)
    ensures key in GroupKeys(s)
  {
    GroupKeysFacts(s);
  }

  /** Entries of exclusive groups after the others, as they are added up. */
  predicate PlainFirst(a: seq<Entry>, b: seq<Entry>) {
    (forall e :: e in a ==> e.exclusive == "") && (forall e :: e in b ==> e.exclusive != "")
  }

  function Bests(es: seq<Entry>): seq<Entry> {
    ExclusivesFacts(es);
    BestOf(es, Exclusives(es))
  }

  lemma {:induction false} SelectedIsPlainFirst(es: seq<Entry>)
    ensures Selected(es) == Plain(es) + Bests(es) && PlainFirst(Plain(es), Bests(es))
  {
    PlainMembers(es);
    ExclusivesFacts(es);
    var xs := Exclusives(es);
    forall k | 0 <= k < |xs|
      ensures Bests(es)[k].exclusive != ""
    {
      assert xs[k] in xs;
      BestFacts(es, xs[k]);
    }
  }

  /** The cap that is read is a reader's. */
  lemma {:induction false} ReadFromReader(a: seq<Entry>, b: seq<Entry>, key: string)
    requires PlainFirst(a, b) && key in GroupKeys(a + b)
    ensures IsReader(a + b, LastInGroup(a + b, key), key)
  {
    var e := LastInGroup(a + b, key);
    if e.exclusive == "" {
      forall f | f in a + b && InGroup(f, key)
        ensures f.exclusive == ""
      {
        if f in b {
          LastOfTail(a, b, f, key);
        }
      }
    }
  }

  lemma {:induction false} LastOfTail(a: seq<Entry>, b: seq<Entry>, f: Entry, key: string)
    requires f in b && InGroup(f, key) && key in GroupKeys(a + b)
    ensures LastInGroup(a + b, key) in b
    decreases |b|
  {
    var s, n := a + b, |b| - 1;
    assert s[|s| - 1] == b[n] && s[..|s| - 1] == a + b[..n];
    if !InGroup(b[n], key) {
      assert b == b[..n] + [b[n]];
      KeyOfMember(a + b[..n], f, key);
      LastOfTail(a, b[..n], f, key);
    }
  }

  lemma ReaderPermutation(s: seq<Entry>, t: seq<Entry>, e: Entry, key: string)
    requires multiset(s) == multiset(t) && IsReader(s, e, key)
    ensures IsReader(t, e, key)
  {
    SameMembers(s, t);
  }

  /** With readers that agree, the selected entries may be added up in any order that
      puts the entries of exclusive groups last. */
  lemma TotalOfSelection(a: seq<Entry>, b: seq<Entry>, c: seq<Entry>, d: seq<Entry>)
    requires multiset(a + b) == multiset(c + d) && PlainFirst(a, b) && PlainFirst(c, d) && ReadersAgree(a + b)
    ensures Total(a + b) == Total(c + d)
  {
    var s, t := a + b, c + d;
    KeysPermutation(s, t);
    SameMembers(GroupKeys(s), GroupKeys(t));
    forall key | key in GroupKeys(s)
      ensures Capped(s)(key) == Capped(t)(key)
    {
      ReadFromReader(a, b, key);
      ReadFromReader(c, d, key);
      ReaderPermutation(t, s, LastInGroup(t, key), key);
      SumPermutation(s, t, PartOf(key));
    }
    TotalFromParts(s, t);
  }

  lemma ItemTotalPermutation(a: seq<Entry>, b: seq<Entry>)
    requires multiset(a) == multiset(b) && TopsAgree(a) && ReadersAgree(Selected(a))
    ensures ItemTotal(a) == ItemTotal(b)
  {
    SelectedPermutation(a, b);
    SelectedIsPlainFirst(a);
    SelectedIsPlainFirst(b);
    TotalOfSelection(Plain(a), Bests(a), Plain(b), Bests(b));
  }

  // ------------------------------------------------------------------- submissions

  /** Under these conditions the whole category total does not depend on the order. */
  lemma {:induction false} OrderDoesNotMatter(a: seq<Submission>, b: seq<Submission>, category: string,
    base: seq<BaseEntry>, maxTotal: int)
    requires multiset(a) == multiset(b)
    requires TopsAgree(Entries(a, category)) && ReadersAgree(Selected(Entries(a, category)))
    ensures CategoryTotal(a, category, base, maxTotal) == CategoryTotal(b, category, base, maxTotal)
  {
    EntriesPermutation(a, b, category);
    var es, fs := Entries(a, category), Entries(b, category);
    ItemTotalPermutation(es, fs);
    SameCategoryTotal(a, b, category, base, maxTotal);
  }

  lemma {:induction false} SameCategoryTotal(a: seq<Submission>, b: seq<Submission>, category: string,
    base: seq<BaseEntry>, maxTotal: int)
    requires ItemTotal(Entries(a, category)) == ItemTotal(Entries(b, category))
    ensures CategoryTotal(a, category, base, maxTotal) == CategoryTotal(b, category, base, maxTotal)
  {
  }

  predicate SameGroup(e: Entry, f: Entry) {
    if e.group.None? then f.group.None? else f.group.Some? && f.group.value.key == e.group.value.key
  }

  /** Each exclusive group lies in one cap group. */
  predicate GroupsAgree(es: seq<Entry>) {
    forall e, f :: e in es && f in es && e.exclusive == f.exclusive != "" ==> SameGroup(e, f)
  }

  /** Each cap group has one cap. */
  predicate CapsAgree(es: seq<Entry>) {
    forall e, f :: e in es && f in es && e.group.Some? && SameGroup(e, f) ==> e.group == f.group
  }

  predicate Consistent(es: seq<Entry>) {
    GroupsAgree(es) && CapsAgree(es)
  }

  /** A scheme whose groups are consistent meets both conditions. */
  lemma ConsistentIsFree(es: seq<Entry>)
    requires Consistent(es)
    ensures TopsAgree(es) && ReadersAgree(Selected(es))
  {
    SelectedMembers(es);
    forall e, f, key | IsReader(Selected(es), e, key) && IsReader(Selected(es), f, key)
      ensures e.group == f.group
    {
      assert SameGroup(e, f);
    }
  }

  /** The first condition cannot be dropped: of two equal entries of an exclusive
      group, the one listed first counts. */
  lemma OrderMattersAcrossGroups()
    ensures var a, b := Entry(5, "x", None), Entry(5, "x", Some(CapGroup("g", 0)));
      ItemTotal([a, b]) == 5 && ItemTotal([b, a]) == 0
  {
    var a, b := Entry(5, "x", None), Entry(5, "x", Some(CapGroup("g", 0)));
    TwoExclusive(a, b);
    TwoExclusive(b, a);
    OneEntry(a);
    OneEntry(b);
  }

  /** Nor can the second: of two caps for one cap group, the last listed counts. */
  lemma OrderMattersAcrossCaps()
    ensures var a, b := Entry(5, "", Some(CapGroup("g", 3))), Entry(5, "", Some(CapGroup("g", 8)));
      TopsAgree([a, b]) && ItemTotal([a, b]) == 8 && ItemTotal([b, a]) == 3
  {
    var a, b := Entry(5, "", Some(CapGroup("g", 3))), Entry(5, "", Some(CapGroup("g", 8)));
    TwoPlain(a, b);
    TwoPlain(b, a);
    TwoShared(a, b, "g");
    TwoShared(b, a, "g");
  }
}
