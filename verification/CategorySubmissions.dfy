/** What a submission adds to the score of its category, told from the submission
    itself: which ones count, what the cap of an item does, and what is selected of
    them (mock/src/handle.ts). */
module CategorySubmissions {
  import opened CategoryScore
  import opened CategoryScoreLaws
  import opened Options

  /** A decided submission of the category that was not rejected by force, in any of the
      four states in which a decision stands. */
  predicate Decided(s: Submission, category: string) {
    && s.category == category && s.finalScore.Some? && !s.forceRejected
    && s.status in {Scored, Locked, Appealing, Arbitrating}
  }

  /** The final score or, if that is smaller, the cap of the item. */
  function Worth(s: Submission): int
    requires s.finalScore.Some?
  {
    if s.itemCap.Some? && s.itemCap.value < s.finalScore.value then s.itemCap.value else s.finalScore.value
  }

  lemma {:induction false} OneEntryMore(subs: seq<Submission>, s: Submission, more: seq<Submission>, category: string)
    ensures Entries(subs + [s] + more, category) ==
      Entries(subs, category)
      + (if Decided(s, category) then [Entry(Worth(s), s.exclusive, s.group)] else []) + Entries(more, category)
  {
    EntriesAppend(subs + [s], more, category);
    EntriesAppend(subs, [s], category);
    assert [s][..0] == [] && Entries([], category) == [];
  }

  // -------------------------------------------------------- one more plain entry

  lemma {:induction false} PlainOfBoth(a: seq<Entry>, b: seq<Entry>)
    ensures Plain(a + b) == Plain(a) + Plain(b)
    decreases |b|
  {
    if b == [] {
      assert a + b == a;
    } else {
      var n := |b| - 1;
      assert a + b == (a + b[..n]) + [b[n]];
      PlainOfBoth(a, b[..n]);
      OneMoreSelected(a + b[..n], b[n], "");
    }
  }

  lemma SameGroupsAfter(with: seq<Entry>, without: seq<Entry>, last: Entry, x: string)
    requires Exclusives(with) == Exclusives(without) && Best(with, x) == Best(without, x)
    ensures Exclusives(with + [last]) == Exclusives(without + [last])
    ensures Best(with + [last], x) == Best(without + [last], x)
  {
    OneMoreSelected(with, last, x);
    OneMoreSelected(without, last, x);
  }

  /** Inserting a plain entry leaves groups and their best as they were. */
  lemma {:induction false} PlainInserted(a: seq<Entry>, e: Entry, b: seq<Entry>, x: string)
    requires e.exclusive == "" && x != ""
    ensures Exclusives(a + [e] + b) == Exclusives(a + b) && Best(a + [e] + b, x) == Best(a + b, x)
    decreases |b|
  {
    if b == [] {
      assert a + [e] + b == a + [e] && a + b == a;
      OneMoreSelected(a, e, x);
    } else {
      var init, last := b[..|b| - 1], b[|b| - 1];
      PlainInserted(a, e, init, x);
      SameGroupsAfter(a + [e] + init, a + init, last, x);
      assert a + [e] + b == (a + [e] + init) + [last] && a + b == (a + init) + [last];
    }
  }

  lemma {:induction false} UngroupedInserted(a: seq<Entry>, e: Entry, b: seq<Entry>, key: string)
    requires e.group.None?
    ensures GroupKeys(a + [e] + b) == GroupKeys(a + b) && GroupCap(a + [e] + b, key) == GroupCap(a + b, key)
    ensures Sum(a + [e] + b, PartOf(key)) == Sum(a + b, PartOf(key))
    ensures Sum(a + [e] + b, UngroupedPart()) == Sum(a + b, UngroupedPart()) + e.score
    decreases |b|
  {
    if b == [] {
      assert a + [e] + b == a + [e] && a + b == a;
      OneMoreAdded(a, e, key);
    } else {
      var init, last := b[..|b| - 1], b[|b| - 1];
      assert a + [e] + b == (a + [e] + init) + [last] && a + b == (a + init) + [last];
      UngroupedInserted(a, e, init, key);
      OneMoreAdded(a + [e] + init, last, key);
      OneMoreAdded(a + init, last, key);
    }
  }

  lemma TotalInserted(a: seq<Entry>, e: Entry, b: seq<Entry>)
    requires e.group.None?
    ensures Total(a + [e] + b) == Total(a + b) + e.score
  {
    UngroupedInserted(a, e, b, "");
    forall key
      ensures Capped(a + [e] + b)(key) == Capped(a + b)(key)
    {
      UngroupedInserted(a, e, b, key);
    }
    SumCongruent(GroupKeys(a + b), Capped(a + [e] + b), Capped(a + b));
  }

  lemma BestsInserted(a: seq<Entry>, e: Entry, b: seq<Entry>) returns (best: seq<Entry>)
    requires e.exclusive == ""
    ensures Selected(a + [e] + b) == Plain(a + [e] + b) + best && Selected(a + b) == Plain(a + b) + best
  {
    var with, without := a + [e] + b, a + b;
    ExclusivesFacts(with);
    ExclusivesFacts(without);
    PlainInserted(a, e, b, "x");
    var xs := Exclusives(without);
    forall x | x in xs
      ensures Best(with, x) == Best(without, x)
    {
      PlainInserted(a, e, b, x);
    }
    best := BestOf(without, xs);
    assert BestOf(with, xs) == best;
  }

  lemma PlainWithin(a: seq<Entry>, e: Entry, b: seq<Entry>)
    requires e.exclusive == ""
    ensures Plain(a + [e] + b) == Plain(a) + [e] + Plain(b) && Plain(a + b) == Plain(a) + Plain(b)
  {
    PlainOfBoth(a + [e], b);
    PlainOfBoth(a, b);
    OneMoreSelected(a, e, "");
  }

  lemma SelectedInserted(a: seq<Entry>, e: Entry, b: seq<Entry>)
    requires e.exclusive == "" && e.group.None?
    ensures ItemTotal(a + [e] + b) == ItemTotal(a + b) + e.score
  {
    var best := BestsInserted(a, e, b);
    PlainWithin(a, e, b);
    assert Selected(a + [e] + b) == Plain(a) + [e] + (Plain(b) + best);
    assert Selected(a + b) == Plain(a) + (Plain(b) + best);
    TotalInserted(Plain(a), e, Plain(b) + best);
  }

  /** A submission that counts, outside exclusive groups and shared caps, adds exactly
      its final score or, if smaller, the cap of its item, wherever it stands; one that
      does not count adds nothing, whatever else it says. */
  lemma {:induction false} SubmissionAdds(subs: seq<Submission>, s: Submission, more: seq<Submission>, category: string)
    requires !Decided(s, category) || (s.exclusive == "" && s.group.None?)
    ensures ItemTotal(Entries(subs + [s] + more, category)) ==
      ItemTotal(Entries(subs + more, category)) + if Decided(s, category) then Worth(s) else 0
  {
    OneEntryMore(subs, s, more, category);
    EntriesAppend(subs, more, category);
    if Decided(s, category) {
      SelectedInserted(Entries(subs, category), Entry(Worth(s), s.exclusive, s.group), Entries(more, category));
    } else {
      assert Entries(subs, category) + [] + Entries(more, category) == Entries(subs + more, category);
    }
  }

  // ------------------------------------------------------------- what is selected

  /** The entry that a submission stands for. */
  predicate StandsFor(s: Submission, category: string, e: Entry) {
    Decided(s, category) && e == Entry(Worth(s), s.exclusive, s.group)
  }

  predicate Counted(subs: seq<Submission>, category: string, e: Entry) {
    exists i :: 0 <= i < |subs| && StandsFor(subs[i], category, e)
  }

  lemma {:induction false} EntriesStem(subs: seq<Submission>, category: string, e: Entry)
    ensures e in Entries(subs, category) <==> Counted(subs, category, e)
    decreases |subs|
  {
    if subs != [] {
      var n := |subs| - 1;
      EntriesStem(subs[..n], category, e);
      assert subs == subs[..n] + [subs[n]] + [];
      OneEntryMore(subs[..n], subs[n], [], category);
      if i :| 0 <= i < n && StandsFor(subs[..n][i], category, e) {
        assert StandsFor(subs[i], category, e);
      }
      if i :| 0 <= i < n && StandsFor(subs[i], category, e) {
        assert StandsFor(subs[..n][i], category, e);
      }
    }
  }

  /** An entry outside exclusive groups is selected, and of the group of any other one that
      is at least as good. */
  predicate TakenCareOf(selected: seq<Entry>, e: Entry) {
    if e.exclusive == "" then e in selected
    else exists k :: 0 <= k < |selected| && selected[k].exclusive == e.exclusive && e.score <= selected[k].score
  }

  predicate NoGroupTwice(selected: seq<Entry>) {
    forall j, k :: 0 <= j < k < |selected| && selected[j].exclusive == selected[k].exclusive ==> selected[j].exclusive == ""
  }

  /** What is selected: entries of submissions that count, each worth at most its final
      score and at most its item's cap and one of the two; all of them outside exclusive
      groups, and of each exclusive group one that no other of the group exceeds. */
  lemma SelectedStem(subs: seq<Submission>, category: string, e: Entry)
    ensures var selected := Selected(Entries(subs, category));
      && (e in selected ==> Counted(subs, category, e))
      && (Counted(subs, category, e) ==> TakenCareOf(selected, e))
      && NoGroupTwice(selected)
  {
    var es := Entries(subs, category);
    SelectedMembers(es);
    EntriesStem(subs, category, e);
    if e in es {
      SelectedOf(es, e);
    }
    SelectedOnce(es);
  }

  lemma SelectedOf(es: seq<Entry>, e: Entry)
    requires e in es
    ensures TakenCareOf(Selected(es), e)
  {
    ExclusivesFacts(es);
    if e.exclusive == "" {
      PlainFacts(es, e);
      assert e in multiset(es) && e in multiset(Plain(es));
    } else {
      BestFacts(es, e.exclusive);
      var xs := Exclusives(es);
      var k :| 0 <= k < |xs| && xs[k] == e.exclusive;
      var f := BestOf(es, xs)[k];
      assert Selected(es)[|Plain(es)| + k] == f;
      assert f in Selected(es);
    }
  }

  /** No exclusive group is selected twice. */
  lemma SelectedOnce(es: seq<Entry>)
    ensures NoGroupTwice(Selected(es))
  {
    ExclusivesFacts(es);
    PlainMembers(es);
    var selected, n, xs := Selected(es), |Plain(es)|, Exclusives(es);
    forall j | 0 <= j < |selected|
      ensures if j < n then selected[j].exclusive == "" else selected[j].exclusive == xs[j - n] != ""
    {
      if j < n {
        assert selected[j] in Plain(es);
      } else {
        BestFacts(es, xs[j - n]);
      }
    }
  }

  /** Raising a final score beyond the cap of its item changes nothing, wherever the
      submission stands and whatever group it is in. */
  lemma {:induction false} BeyondTheCap(subs: seq<Submission>, s: Submission, score: int, more: seq<Submission>,
                                        category: string, base: seq<BaseEntry>, maxTotal: int)
    requires s.finalScore.Some? && s.itemCap.Some? && s.itemCap.value <= s.finalScore.value && s.itemCap.value <= score
    ensures CategoryTotal(subs + [s.(finalScore := Some(score))] + more, category, base, maxTotal) ==
      CategoryTotal(subs + [s] + more, category, base, maxTotal)
  {
    OneEntryMore(subs, s, more, category);
    OneEntryMore(subs, s.(finalScore := Some(score)), more, category);
  }

  // ------------------------------------------------------------ groups and the rest

  /** What decided submissions are worth together. */
  function WorthOf(subs: seq<Submission>): int {
    if subs == [] then 0
    else
      WorthOf(subs[..|subs| - 1]) + if subs[|subs| - 1].finalScore.Some? then Worth(subs[|subs| - 1]) else 0
  }

  /** Entries of one cap group, outside exclusive groups. */
  ghost predicate OneGroup(es: seq<Entry>, g: CapGroup, total: int) {
    && Plain(es) == es && Exclusives(es) == [] && GroupKeys(es) == [g.key] && GroupCap(es, g.key) == g.cap
    && Sum(es, UngroupedPart()) == 0 && Sum(es, PartOf(g.key)) == total
  }

  lemma OneMoreOfGroup(es: seq<Entry>, e: Entry, g: CapGroup, total: int)
    requires (es == [] && total == 0) || OneGroup(es, g, total)
    requires e.exclusive == "" && e.group == Some(g)
    ensures OneGroup(es + [e], g, total + e.score)
  {
    OneMoreSelected(es, e, "");
    OneMoreAdded(es, e, g.key);
    assert g.key in [g.key];
  }

  predicate Sharing(subs: seq<Submission>, category: string, g: CapGroup) {
    forall i :: 0 <= i < |subs| ==> Decided(subs[i], category) && subs[i].exclusive == "" && subs[i].group == Some(g)
  }

  lemma {:induction false} SharedEntries(subs: seq<Submission>, category: string, g: CapGroup)
    requires subs != [] && Sharing(subs, category, g)
    ensures OneGroup(Entries(subs, category), g, WorthOf(subs))
    decreases |subs|
  {
    var n := |subs| - 1;
    var init, s := subs[..n], subs[n];
    var e := Entry(Worth(s), s.exclusive, s.group);
    assert Entries(subs, category) == Entries(init, category) + [e] by {
      assert subs == init + [s] + [];
      OneEntryMore(init, s, [], category);
    }
    if init != [] {
      SharedEntries(init, category, g);
    }
    OneMoreOfGroup(Entries(init, category), e, g, WorthOf(init));
  }

  lemma {:induction false} OneGroupTotal(es: seq<Entry>, g: CapGroup, total: int)
    requires OneGroup(es, g, total)
    ensures ItemTotal(es) == if total < g.cap then total else g.cap
  {
    ExclusivesFacts(es);
    assert BestOf(es, []) == [] && Selected(es) == es;
    SumOne(g.key, Capped(es));
  }

  /** Submissions that share a cap add what they are worth together, up to the cap. */
  lemma {:induction false} SharedCap(subs: seq<Submission>, category: string, g: CapGroup)
    requires subs != [] && Sharing(subs, category, g)
    ensures ItemTotal(Entries(subs, category)) == if WorthOf(subs) < g.cap then WorthOf(subs) else g.cap
  {
    SharedEntries(subs, category, g);
    OneGroupTotal(Entries(subs, category), g, WorthOf(subs));
  }

  function ScoreOf(): BaseEntry -> int {
    (b: BaseEntry) => b.score
  }

  lemma {:induction false} BaseAddsUp(base: seq<BaseEntry>)
    ensures Sum(base, BasePart(false)) + Sum(base, BasePart(true)) == Sum(base, ScoreOf())
  {
    if base != [] {
      BaseAddsUp(base[..|base| - 1]);
    }
  }

  /** Penalties and other entries are told apart: where all are of one kind, the other
      kind comes to nothing. */
  lemma {:induction false} KindsAreApart(base: seq<BaseEntry>, penalty: bool)
    requires forall b :: b in base ==> b.penalty == penalty
    ensures Sum(base, BasePart(penalty)) == Sum(base, ScoreOf()) && Sum(base, BasePart(!penalty)) == 0
  {
    if base != [] {
      KindsAreApart(base[..|base| - 1], penalty);
      assert base[|base| - 1] in base;
    }
  }

  /** The category total: items and every base and penalty entry together, up to the
      category's maximum. */
  lemma TotalIsCapped(subs: seq<Submission>, category: string, base: seq<BaseEntry>, maxTotal: int)
    ensures var points := ItemTotal(Entries(subs, category)) + Sum(base, ScoreOf());
      CategoryTotal(subs, category, base, maxTotal) == if points < maxTotal then points else maxTotal
  {
    BaseAddsUp(base);
  }
}
