/** Raising one decision raises the category total by no more than that, and never
    lowers it, as long as the entry that counts keeps its cap group; and what
    happens when another entry of another cap group takes over
    (mock/src/handle.ts). */
module CategoryRaise {
  import opened CategoryOrder
  import opened CategoryScore
  import opened CategoryScoreLaws
  import opened Options

  function Raised(e: Entry, d: int): Entry {
    e.(score := e.score + d)
  }

  // ------------------------------------------------------------- the capped total

  lemma {:induction false} SameKeysAfter(s: seq<Entry>, j: nat, d: int)
    requires j < |s|
    ensures GroupKeys(s[j := Raised(s[j], d)]) == GroupKeys(s)
    ensures forall key :: GroupCap(s[j := Raised(s[j], d)], key) == GroupCap(s, key)
    decreases |s|
  {
    var n := |s| - 1;
    var t := s[j := Raised(s[j], d)];
    if j < n {
      assert t[..n] == s[..n][j := Raised(s[j], d)];
      SameKeysAfter(s[..n], j, d);
    } else {
      assert t[..n] == s[..n];
    }
  }

  lemma PartAfter(s: seq<Entry>, j: nat, d: int, key: string)
    requires j < |s|
    ensures Sum(s[j := Raised(s[j], d)], PartOf(key)) == Sum(s, PartOf(key)) + if InGroup(s[j], key) then d else 0
  {
    SumUpdate(s, j, Raised(s[j], d), PartOf(key));
  }

  lemma CappedAfter(s: seq<Entry>, j: nat, d: nat, key: string)
    requires j < |s|
    ensures var t := s[j := Raised(s[j], d)];
      Capped(s)(key) <= Capped(t)(key) <= Capped(s)(key) + if InGroup(s[j], key) then d else 0
  {
    SameKeysAfter(s, j, d);
    PartAfter(s, j, d, key);
  }

  /** One more entry's points: the total gains between none and all of them. */
  lemma TotalRaise(s: seq<Entry>, j: nat, d: nat)
    requires j < |s|
    ensures Total(s) <= Total(s[j := Raised(s[j], d)]) <= Total(s) + d
  {
    var t := s[j := Raised(s[j], d)];
    SameKeysAfter(s, j, d);
    SumUpdate(s, j, Raised(s[j], d), UngroupedPart());
    GroupKeysDistinct(s);
    var keys := GroupKeys(s);
    var k := if s[j].group.Some? then s[j].group.value.key else "";
    forall i | 0 <= i < |keys| && !InGroup(s[j], keys[i])
      ensures Capped(s)(keys[i]) == Capped(t)(keys[i])
    {
      CappedAfter(s, j, d, keys[i]);
    }
    if s[j].group.Some? {
      CappedAfter(s, j, d, k);
      SumChangedAt(keys, k, Capped(s), Capped(t));
    } else {
      SumCongruent(keys, Capped(s), Capped(t));
    }
  }

  // ---------------------------------------------------------------- the selection

  lemma {:induction false} PlainRaise(es: seq<Entry>, i: nat, d: int)
    requires i < |es| && es[i].exclusive == ""
    ensures var j := |Plain(es[..i])|;
      && j < |Plain(es)| && Plain(es)[j] == es[i]
      && Plain(es[i := Raised(es[i], d)]) == Plain(es)[j := Raised(es[i], d)]
    decreases |es|
  {
    var n := |es| - 1;
    if i == n {
      assert es[i := Raised(es[i], d)][..n] == es[..n];
    } else {
      assert es[i := Raised(es[i], d)][..n] == es[..n][i := Raised(es[i], d)];
      assert es[..n][..i] == es[..i];
      PlainRaise(es[..n], i, d);
    }
  }

  lemma {:induction false} PlainSame(es: seq<Entry>, i: nat, d: int)
    requires i < |es| && es[i].exclusive != ""
    ensures Plain(es[i := Raised(es[i], d)]) == Plain(es)
    decreases |es|
  {
    var n := |es| - 1;
    if i == n {
      assert es[i := Raised(es[i], d)][..n] == es[..n];
    } else {
      assert es[i := Raised(es[i], d)][..n] == es[..n][i := Raised(es[i], d)];
      PlainSame(es[..n], i, d);
    }
  }

  lemma {:induction false} ExclusivesSame(es: seq<Entry>, i: nat, d: int)
    requires i < |es|
    ensures Exclusives(es[i := Raised(es[i], d)]) == Exclusives(es)
    decreases |es|
  {
    var n := |es| - 1;
    if i == n {
      assert es[i := Raised(es[i], d)][..n] == es[..n];
    } else {
      assert es[i := Raised(es[i], d)][..n] == es[..n][i := Raised(es[i], d)];
      ExclusivesSame(es[..n], i, d);
    }
  }

  lemma {:induction false} OtherBestSame(es: seq<Entry>, i: nat, d: int, x: string)
    requires i < |es| && es[i].exclusive != x
    ensures Best(es[i := Raised(es[i], d)], x) == Best(es, x)
    decreases |es|
  {
    var n := |es| - 1;
    if i == n {
      assert es[i := Raised(es[i], d)][..n] == es[..n];
    } else {
      assert es[i := Raised(es[i], d)][..n] == es[..n][i := Raised(es[i], d)];
      OtherBestSame(es[..n], i, d, x);
    }
  }

  /** After the raise the entry still scores less than the best of its exclusive
      group, or it carries the same cap group as that. */
  predicate KeepsGroup(es: seq<Entry>, i: nat, d: nat)
    requires i < |es|
  {
    es[i].exclusive == "" ||
    var best := Best(es, es[i].exclusive);
    best.Some? && (es[i].score + d < best.value.score || es[i].group == best.value.group)
  }

  /** The best entry after a raise is the one before, or the raised one. */
  lemma {:induction false} BestAfter(es: seq<Entry>, i: nat, d: nat, x: string)
    requires i < |es| && es[i].exclusive == x
    ensures Best(es, x).Some?
    ensures var was, now := Best(es, x).value, Best(es[i := Raised(es[i], d)], x);
      now == Some(was) || (now == Some(Raised(es[i], d)) && es[i].score + d >= was.score >= es[i].score)
    decreases |es|
  {
    var n := |es| - 1;
    var t := es[i := Raised(es[i], d)];
    if i == n {
      assert t[..n] == es[..n];
    } else {
      assert t[..n] == es[..n][i := Raised(es[i], d)];
      BestAfter(es[..n], i, d, x);
    }
  }

  /** The best of the group gains between nothing and the raise. */
  lemma BestRaise(es: seq<Entry>, i: nat, d: nat) returns (gain: nat)
    requires i < |es| && es[i].exclusive != "" && KeepsGroup(es, i, d)
    ensures var x := es[i].exclusive;
      var after := Best(es[i := Raised(es[i], d)], x);
      gain <= d && Best(es, x).Some? && after == Some(Raised(Best(es, x).value, gain))
  {
    var x := es[i].exclusive;
    BestAfter(es, i, d, x);
    BestFacts(es, x);
    gain := Best(es[i := Raised(es[i], d)], x).value.score - Best(es, x).value.score;
  }

  function IndexOf(xs: seq<string>, x: string): (k: nat)
    requires x in xs
    ensures k < |xs| && xs[k] == x
  {
    if xs[0] == x then 0 else 1 + IndexOf(xs[1..], x)
  }

  /** Where a plain entry, or the best entry of an exclusive group, stands among the
      entries that are added up. */
  function Place(es: seq<Entry>, i: nat): (j: nat)
    requires i < |es|
    ensures j < |Selected(es)|
  {
    if es[i].exclusive == "" then
      PlainRaise(es, i, 0);
      |Plain(es[..i])|
    else
      ExclusivesFacts(es);
      BestFacts(es, es[i].exclusive);
      |Plain(es)| + IndexOf(Exclusives(es), es[i].exclusive)
  }

  lemma SelectedRaisePlain(es: seq<Entry>, i: nat, d: nat)
    requires i < |es| && es[i].exclusive == ""
    ensures Selected(es)[Place(es, i)] == es[i]
    ensures Selected(es[i := Raised(es[i], d)]) == Selected(es)[Place(es, i) := Raised(es[i], d)]
  {
    var t := es[i := Raised(es[i], d)];
    var xs := Exclusives(es);
    ExclusivesSame(es, i, d);
    ExclusivesFacts(es);
    ExclusivesFacts(t);
    PlainRaise(es, i, d);
    forall k | 0 <= k < |xs|
      ensures Best(t, xs[k]) == Best(es, xs[k])
    {
      assert xs[k] in xs;
      OtherBestSame(es, i, d, xs[k]);
    }
    assert BestOf(t, xs) == BestOf(es, xs);
  }

  /** After a raise in an exclusive group, the best entry then stands where the best
      entry stood. */
  lemma SelectedTakeover(es: seq<Entry>, i: nat, d: nat)
    requires i < |es| && es[i].exclusive != ""
    ensures Best(es, es[i].exclusive).Some? && Best(es[i := Raised(es[i], d)], es[i].exclusive).Some?
    ensures Selected(es)[Place(es, i)] == Best(es, es[i].exclusive).value
    ensures Selected(es[i := Raised(es[i], d)]) ==
      Selected(es)[Place(es, i) := Best(es[i := Raised(es[i], d)], es[i].exclusive).value]
  {
    var t := es[i := Raised(es[i], d)];
    var xs := Exclusives(es);
    BestAfter(es, i, d, es[i].exclusive);
    ExclusivesSame(es, i, d);
    ExclusivesFacts(es);
    ExclusivesFacts(t);
    PlainSame(es, i, d);
    var k := IndexOf(xs, es[i].exclusive);
    forall m | 0 <= m < |xs| && m != k
      ensures Best(t, xs[m]) == Best(es, xs[m])
    {
      assert xs[m] != xs[k];
      OtherBestSame(es, i, d, xs[m]);
    }
    assert BestOf(t, xs) == BestOf(es, xs)[k := Best(t, xs[k]).value];
  }

  lemma SelectedRaise(es: seq<Entry>, i: nat, d: nat) returns (gain: nat)
    requires i < |es| && KeepsGroup(es, i, d)
    ensures gain <= d
    ensures var j := Place(es, i);
      Selected(es[i := Raised(es[i], d)]) == Selected(es)[j := Raised(Selected(es)[j], gain)]
  {
    if es[i].exclusive == "" {
      SelectedRaisePlain(es, i, d);
      gain := d;
    } else {
      gain := BestRaise(es, i, d);
      SelectedTakeover(es, i, d);
    }
  }

  lemma ItemTotalRaise(es: seq<Entry>, i: nat, d: nat)
    requires i < |es| && KeepsGroup(es, i, d)
    ensures ItemTotal(es) <= ItemTotal(es[i := Raised(es[i], d)]) <= ItemTotal(es) + d
  {
    var gain := SelectedRaise(es, i, d);
    TotalRaise(Selected(es), Place(es, i), gain);
  }

  // ---------------------------------------------------- another entry takes over

  /** What an entry adds to the total of the others. */
  function Worth(e: Entry, rest: seq<Entry>): int {
    if e.group.None? then e.score
    else
      var key, cap := e.group.value.key, e.group.value.cap;
      var others := Sum(rest, PartOf(key));
      Min(others + e.score, cap) - if key in GroupKeys(rest) then Min(others, cap) else 0
  }

  lemma {:induction false} CapOfMember(s: seq<Entry>, e: Entry, key: string)
    requires CapsAgree(s) && e in s && InGroup(e, key)
    ensures key in GroupKeys(s) && GroupCap(s, key) == e.group.value.cap
  {
    KeyOfMember(s, e, key);
    var f := LastInGroup(s, key);
    assert SameGroup(e, f);
  }

  lemma TotalPermutation(s: seq<Entry>, t: seq<Entry>)
    requires multiset(s) == multiset(t) && CapsAgree(s)
    ensures Total(s) == Total(t)
  {
    SameMembers(s, t);
    forall key | key in GroupKeys(s)
      ensures Capped(s)(key) == Capped(t)(key)
    {
      var e := LastInGroup(s, key);
      CapOfMember(s, e, key);
      CapOfMember(t, e, key);
      SumPermutation(s, t, PartOf(key));
    }
    TotalFromParts(s, t);
  }

  lemma WorthUngrouped(rest: seq<Entry>, e: Entry)
    requires e.group.None?
    ensures Total(rest + [e]) == Total(rest) + Worth(e, rest)
  {
    OneMoreAdded(rest, e, "");
    var keys := GroupKeys(rest);
    forall k | 0 <= k < |keys|
      ensures Capped(rest + [e])(keys[k]) == Capped(rest)(keys[k])
    {
      OneMoreAdded(rest, e, keys[k]);
    }
    SumCongruent(keys, Capped(rest), Capped(rest + [e]));
  }

  lemma OtherPartsStay(rest: seq<Entry>, e: Entry, k: string)
    requires !InGroup(e, k)
    ensures Capped(rest + [e])(k) == Capped(rest)(k)
  {
    OneMoreAdded(rest, e, k);
  }

  lemma {:induction false} WorthInKnownGroup(rest: seq<Entry>, e: Entry, key: string)
    requires InGroup(e, key) && key in GroupKeys(rest) && CapsAgree(rest + [e])
    ensures Total(rest + [e]) == Total(rest) + Worth(e, rest)
  {
    var keys, s := GroupKeys(rest), rest + [e];
    OneMoreAdded(rest, e, key);
    GroupKeysDistinct(rest);
    forall k | 0 <= k < |keys| && keys[k] != key
      ensures Capped(s)(keys[k]) == Capped(rest)(keys[k])
    {
      OtherPartsStay(rest, e, keys[k]);
    }
    SumChangedAt(keys, key, Capped(rest), Capped(s));
    var f := LastInGroup(rest, key);
    assert f in s && e in s && SameGroup(e, f);
  }

  lemma {:induction false} NewGroupAlone(rest: seq<Entry>, e: Entry, key: string)
    requires InGroup(e, key) && key !in GroupKeys(rest)
    ensures GroupKeys(rest + [e]) == GroupKeys(rest) + [key]
    ensures Capped(rest + [e])(key) == Min(e.score, e.group.value.cap)
  {
    OneMoreAdded(rest, e, key);
    NoPart(rest, key);
  }

  lemma {:induction false} OtherGroupsStay(rest: seq<Entry>, e: Entry, key: string)
    requires InGroup(e, key) && key !in GroupKeys(rest)
    ensures Sum(GroupKeys(rest), Capped(rest + [e])) == Sum(GroupKeys(rest), Capped(rest))
  {
    var keys := GroupKeys(rest);
    forall k | 0 <= k < |keys|
      ensures Capped(rest + [e])(keys[k]) == Capped(rest)(keys[k])
    {
      assert keys[k] in keys;
      OtherPartsStay(rest, e, keys[k]);
    }
    SumCongruent(keys, Capped(rest), Capped(rest + [e]));
  }

  lemma {:induction false} WorthInNewGroup(rest: seq<Entry>, e: Entry, key: string)
    requires InGroup(e, key) && key !in GroupKeys(rest)
    ensures Total(rest + [e]) == Total(rest) + Worth(e, rest)
  {
    var keys, f := GroupKeys(rest), Capped(rest + [e]);
    NewGroupAlone(rest, e, key);
    OtherGroupsStay(rest, e, key);
    SumAppend(keys, [key], f);
    SumOne(key, f);
    NoPart(rest, key);
    OneMoreAdded(rest, e, key);
  }

  lemma {:induction false} NoPart(s: seq<Entry>, key: string)
    requires key !in GroupKeys(s)
    ensures Sum(s, PartOf(key)) == 0
    decreases |s|
  {
    if s != [] {
      NoPart(s[..|s| - 1], key);
    }
  }

  lemma TotalWith(s: seq<Entry>, j: nat)
    requires j < |s| && CapsAgree(s)
    ensures Total(s) == Total(Without(s, j)) + Worth(s[j], Without(s, j))
  {
    var rest := Without(s, j);
    MultisetWithout(s, j);
    assert multiset(rest + [s[j]]) == multiset(s);
    TotalPermutation(s, rest + [s[j]]);
    SameMembers(s, rest + [s[j]]);
    assert CapsAgree(rest + [s[j]]);
    if s[j].group.None? {
      WorthUngrouped(rest, s[j]);
    } else if s[j].group.value.key in GroupKeys(rest) {
      WorthInKnownGroup(rest, s[j], s[j].group.value.key);
    } else {
      WorthInNewGroup(rest, s[j], s[j].group.value.key);
    }
  }

  lemma RaisedCapsAgree(es: seq<Entry>, i: nat, d: nat)
    requires i < |es| && CapsAgree(es)
    ensures CapsAgree(es[i := Raised(es[i], d)])
  {
    var t := es[i := Raised(es[i], d)];
    forall e, f | e in t && f in t && e.group.Some? && SameGroup(e, f)
      ensures e.group == f.group
    {
      var k :| 0 <= k < |t| && t[k] == e;
      var l :| 0 <= l < |t| && t[l] == f;
      assert es[k] in es && es[l] in es && SameGroup(es[k], es[l]);
    }
  }

  lemma SelectedCapsAgree(es: seq<Entry>)
    requires CapsAgree(es)
    ensures CapsAgree(Selected(es))
  {
    SelectedMembers(es);
  }

  /** The other entries that are added up. */
  function Rest(es: seq<Entry>, i: nat): seq<Entry>
    requires i < |es|
  {
    Without(Selected(es), Place(es, i))
  }

  /** The entry that counts in the place of entry i: itself, or the best of its
      exclusive group. */
  function Counted(es: seq<Entry>, i: nat): Entry
    requires i < |es|
  {
    if es[i].exclusive == "" then es[i]
    else
      BestFacts(es, es[i].exclusive);
      Best(es, es[i].exclusive).value
  }

  /** With one cap for each cap group, a raise changes the total by the difference
      between what the entry that counts adds to the rest afterwards and what the one
      that counted added before; so it is bounded exactly when that difference is,
      whichever entry takes over. */
  lemma RaiseExactly(es: seq<Entry>, i: nat, d: nat)
    requires i < |es| && CapsAgree(es)
    ensures multiset(Selected(es)) == multiset(Rest(es, i)) + multiset{Counted(es, i)}
    ensures var more := es[i := Raised(es[i], d)];
      var gain := Worth(Counted(more, i), Rest(es, i)) - Worth(Counted(es, i), Rest(es, i));
      && ItemTotal(more) == ItemTotal(es) + gain
      && (ItemTotal(es) <= ItemTotal(more) <= ItemTotal(es) + d <==> 0 <= gain <= d)
  {
    var more, j := es[i := Raised(es[i], d)], Place(es, i);
    if es[i].exclusive == "" {
      SelectedRaisePlain(es, i, d);
    } else {
      SelectedTakeover(es, i, d);
    }
    MultisetWithout(Selected(es), j);
    RaisedCapsAgree(es, i, d);
    SelectedCapsAgree(es);
    SelectedCapsAgree(more);
    TotalWith(Selected(es), j);
    TotalWith(Selected(more), j);
    assert Without(Selected(more), j) == Rest(es, i);
  }

  /** Consistent groups keep the cap group whatever is raised. */
  lemma ConsistentKeepsGroup(es: seq<Entry>, i: nat, d: nat)
    requires i < |es| && Consistent(es)
    ensures KeepsGroup(es, i, d)
  {
    BestFacts(es, es[i].exclusive);
    if es[i].exclusive != "" {
      var best := Best(es, es[i].exclusive).value;
      assert es[i] in es && best in es && SameGroup(es[i], best);
    }
  }

  // ------------------------------------------------------------------ submissions

  function RaisedSubmission(s: Submission, d: int): Submission
    requires s.finalScore.Some?
  {
    s.(finalScore := Some(s.finalScore.value + d))
  }

  /** What a raise of the final score raises the entry by, below the cap of the item. */
  function EntryRaise(s: Submission, d: nat): (gain: nat)
    requires s.finalScore.Some?
    ensures gain <= d
  {
    EntryOf(RaisedSubmission(s, d)).score - EntryOf(s).score
  }

  /** Where the entry of a submission stands. */
  function EntryIndex(subs: seq<Submission>, i: nat, category: string): nat
    requires i < |subs|
  {
    |Entries(subs[..i], category)|
  }

  lemma {:induction false} EntriesRaise(subs: seq<Submission>, i: nat, d: nat, category: string)
    requires i < |subs| && Counts(subs[i], category)
    ensures var j := EntryIndex(subs, i, category);
      && j < |Entries(subs, category)|
      && Entries(subs[i := RaisedSubmission(subs[i], d)], category)
         == Entries(subs, category)[j := Raised(Entries(subs, category)[j], EntryRaise(subs[i], d))]
    decreases |subs|
  {
    var n := |subs| - 1;
    var more := subs[i := RaisedSubmission(subs[i], d)];
    if i == n {
      assert more[..n] == subs[..n];
    } else {
      assert more[..n] == subs[..n][i := RaisedSubmission(subs[i], d)];
      assert subs[..n][..i] == subs[..i];
      EntriesRaise(subs[..n], i, d, category);
    }
  }

  /** The raised submission does not count, or its entry keeps the cap group of its
      exclusive group. */
  predicate RaiseKeepsGroup(subs: seq<Submission>, i: nat, d: nat, category: string)
    requires i < |subs|
  {
    Counts(subs[i], category) ==>
      EntryIndex(subs, i, category) < |Entries(subs, category)|
      && KeepsGroup(Entries(subs, category), EntryIndex(subs, i, category), EntryRaise(subs[i], d))
  }

  /** Raising the final score of one submission by d raises the category total by
      at least 0 and at most d, unless an entry of another cap group takes over. */
  lemma RaiseIsBounded(subs: seq<Submission>, i: nat, d: nat, category: string, base: seq<BaseEntry>, maxTotal: int)
    requires i < |subs| && subs[i].finalScore.Some? && RaiseKeepsGroup(subs, i, d, category)
    ensures var before := CategoryTotal(subs, category, base, maxTotal);
      var after := CategoryTotal(subs[i := RaisedSubmission(subs[i], d)], category, base, maxTotal);
      before <= after <= before + d
  {
    var more := subs[i := RaisedSubmission(subs[i], d)];
    if Counts(subs[i], category) {
      EntriesRaise(subs, i, d, category);
      ItemTotalRaise(Entries(subs, category), EntryIndex(subs, i, category), EntryRaise(subs[i], d));
    } else {
      var a, b := subs[..i], subs[i + 1..];
      assert subs == a + [subs[i]] + b && more == a + [more[i]] + b;
      IgnoredSubmission(a, subs[i], b, category);
      IgnoredSubmission(a, more[i], b, category);
    }
  }

  /** A scheme with consistent groups never costs points for a better decision. */
  lemma ConsistentRaise(subs: seq<Submission>, i: nat, d: nat, category: string, base: seq<BaseEntry>, maxTotal: int)
    requires i < |subs| && subs[i].finalScore.Some? && Consistent(Entries(subs, category))
    ensures var before := CategoryTotal(subs, category, base, maxTotal);
      var after := CategoryTotal(subs[i := RaisedSubmission(subs[i], d)], category, base, maxTotal);
      before <= after <= before + d
  {
    if Counts(subs[i], category) {
      EntriesRaise(subs, i, d, category);
      ConsistentKeepsGroup(Entries(subs, category), EntryIndex(subs, i, category), EntryRaise(subs[i], d));
    }
    RaiseIsBounded(subs, i, d, category, base, maxTotal);
  }

  /** Without agreement inside an exclusive group a better decision can cost
      points: the new best entry may fall into an exhausted cap group. */
  lemma RaiseMayCostOtherwise()
    ensures var a, b := Entry(5, "x", None), Entry(5, "x", Some(CapGroup("g", 0)));
      ItemTotal([a, b]) == 5 && ItemTotal([a, Raised(b, 1)]) == 0
  {
    var a, b := Entry(5, "x", None), Entry(5, "x", Some(CapGroup("g", 0)));
    TwoExclusive(a, b);
    TwoExclusive(a, Raised(b, 1));
    OneEntry(a);
    OneEntry(Raised(b, 1));
  }
}
