/** What the server scores: the decided submissions of a category in the order of their
    ids (backend/internal/api/current_score.go), their ties settled by the lower id
    (backend/internal/scheme/score.go), and how this compares with the demo. */
module ServerScore {
  import opened CategoryOrder
  import opened CategoryScore
  import opened CategoryScoreLaws
  import opened CategoryServer
  import opened CategorySubmissions
  import opened Options

  datatype Row = Row(id: int, submission: Submission)

  /** A submission as the server's scoring reads it; it has no cap group under a blank key. */
  function ScoredSubmissionItem(r: Row): ScoredItem
    requires r.submission.finalScore.Some?
  {
    var s := r.submission;
    ScoredItem(r.id, s.finalScore.value, s.itemCap, s.exclusive,
      if s.group.Some? then s.group.value.key else "", if s.group.Some? then s.group.value.cap else 0)
  }

  function ScoredItems(rows: seq<Row>, category: string): seq<ScoredItem> {
    if rows == [] then []
    else
      var last := rows[|rows| - 1];
      ScoredItems(rows[..|rows| - 1], category) +
      if Counts(last.submission, category) then [ScoredSubmissionItem(last)] else []
  }

  function SubmissionsOf(rows: seq<Row>): (r: seq<Submission>)
    ensures |r| == |rows|
  {
    seq(|rows|, (i: nat) requires i < |rows| => rows[i].submission)
  }

  /** The loop over the submissions of a member, for one category. */
  method CollectItems(rows: seq<Row>, category: string) returns (items: seq<ScoredItem>)
    ensures items == ScoredItems(rows, category)
  {
    items := [];
    for i := 0 to |rows|
      invariant items == ScoredItems(rows[..i], category)
    {
      assert rows[..i + 1][..i] == rows[..i];
      var s := rows[i].submission;
      if s.finalScore.Some? && !s.forceRejected && s.category == category {
        if s.status == Scored || s.status == Locked || s.status == Appealing || s.status == Arbitrating {
          items := items + [ScoredSubmissionItem(rows[i])];
        }
      }
    }
    assert rows[..|rows|] == rows;
  }

  predicate InOrder(rows: seq<Row>) {
    forall i, j :: 0 <= i < j < |rows| ==> rows[i].id < rows[j].id
  }

  // --------------------------------------------------------------- the same entries

  predicate BlankKey(s: Submission, category: string) {
    Decided(s, category) && s.group.Some? && s.group.value.key == ""
  }

  lemma OneRowMore(rows: seq<Row>, category: string)
    requires rows != []
    ensures var n := |rows| - 1;
      var last := rows[n].submission;
      && EntriesOf(Items(ScoredItems(rows, category))) == EntriesOf(Items(ScoredItems(rows[..n], category))) +
           (if Decided(last, category)
            then [Entry(Worth(last), last.exclusive, if BlankKey(last, category) then None else last.group)] else [])
      && Entries(SubmissionsOf(rows), category) == Entries(SubmissionsOf(rows[..n]), category) +
           (if Decided(last, category) then [Entry(Worth(last), last.exclusive, last.group)] else [])
  {
    var n := |rows| - 1;
    assert SubmissionsOf(rows)[..n] == SubmissionsOf(rows[..n]);
    if Decided(rows[n].submission, category) {
      OneItemMore(ScoredItems(rows[..n], category), ScoredSubmissionItem(rows[n]));
    } else {
      assert ScoredItems(rows, category) == ScoredItems(rows[..n], category);
    }
  }

  lemma OneItemMore(items: seq<ScoredItem>, item: ScoredItem)
    ensures EntriesOf(Items(items + [item])) == EntriesOf(Items(items)) + [ItemOf(item).entry]
  {
    assert Items(items + [item]) == Items(items) + [ItemOf(item)];
  }

  /** The server adds up the entries of the demo exactly when no cap group has a blank
      key: such a group is shared in the demo and ignored by the server. */
  lemma {:induction false} SameEntries(rows: seq<Row>, category: string)
    ensures EntriesOf(Items(ScoredItems(rows, category))) == Entries(SubmissionsOf(rows), category) <==>
      forall i :: 0 <= i < |rows| ==> !BlankKey(rows[i].submission, category)
    decreases |rows|
  {
    SameLength(rows, category);
    if rows != [] {
      var n := |rows| - 1;
      OneRowMore(rows, category);
      SameLength(rows[..n], category);
      SameEntries(rows[..n], category);
      var a, b := EntriesOf(Items(ScoredItems(rows[..n], category))), Entries(SubmissionsOf(rows[..n]), category);
      var a', b' := EntriesOf(Items(ScoredItems(rows, category))), Entries(SubmissionsOf(rows), category);
      assert a == a'[..|a|] && b == b'[..|b|];
      if Decided(rows[n].submission, category) {
        assert a' == b' <==> a == b && a'[|a|] == b'[|b|];
      }
      assert forall i :: 0 <= i < n ==> rows[..n][i] == rows[i];
    }
  }

  lemma {:induction false} SameLength(rows: seq<Row>, category: string)
    ensures |EntriesOf(Items(ScoredItems(rows, category)))| == |Entries(SubmissionsOf(rows), category)|
    decreases |rows|
  {
    if rows != [] {
      OneRowMore(rows, category);
      SameLength(rows[..|rows| - 1], category);
    }
  }

  // ------------------------------------------------------------------------- ties

  /** The best item of an exclusive group: none has a higher score, and none with the
      same score a lower id. */
  lemma {:induction false} LowerIdWins(items: seq<Item>, x: string)
    ensures ServerBest(items, x).Some? <==> exists i :: 0 <= i < |items| && items[i].entry.exclusive == x
    ensures ServerBest(items, x).Some? ==>
      var best := ServerBest(items, x).value;
      && best in items && best.entry.exclusive == x
      && forall i :: 0 <= i < |items| && items[i].entry.exclusive == x ==>
           items[i].entry.score < best.entry.score || (items[i].entry.score == best.entry.score && best.id <= items[i].id)
    decreases |items|
  {
    if items != [] {
      var init := items[..|items| - 1];
      LowerIdWins(init, x);
      assert forall i :: 0 <= i < |init| ==> init[i] == items[i];
      assert items[|items| - 1] in items;
    }
  }

  predicate AscendingIds(items: seq<Item>) {
    forall i, j :: 0 <= i < j < |items| ==> items[i].id < items[j].id
  }

  /** In the order of the ids, the lower id is the first one, which the demo takes. */
  lemma {:induction false} AscendingPicksSame(items: seq<Item>, x: string)
    requires AscendingIds(items)
    ensures ServerBest(items, x).Some? <==> Best(EntriesOf(items), x).Some?
    ensures ServerBest(items, x).Some? ==>
      Best(EntriesOf(items), x) == Some(ServerBest(items, x).value.entry) && ServerBest(items, x).value in items
    decreases |items|
  {
    if items != [] {
      var init := items[..|items| - 1];
      AscendingPicksSame(init, x);
      assert EntriesOf(items)[..|init|] == EntriesOf(init);
      if ServerBest(init, x).Some? {
        var k :| 0 <= k < |init| && init[k] == ServerBest(init, x).value;
        assert items[k].id < items[|items| - 1].id;
        assert items[k] in items;
      }
      assert items[|items| - 1] in items;
    }
  }

  lemma {:induction false} IdsAscend(rows: seq<Row>, category: string)
    requires InOrder(rows)
    ensures AscendingIds(Items(ScoredItems(rows, category)))
    ensures rows != [] ==> forall item :: item in ScoredItems(rows, category) ==> item.id <= rows[|rows| - 1].id
    decreases |rows|
  {
    if rows != [] {
      var n := |rows| - 1;
      IdsAscend(rows[..n], category);
      var before := ScoredItems(rows[..n], category);
      forall item | item in before
        ensures item.id < rows[n].id
      {
        assert rows[..n] != [] && rows[..n][n - 1] == rows[n - 1];
      }
      assert forall i :: 0 <= i < |before| ==> before[i] in before;
      assert forall i :: 0 <= i < |before| ==> Items(ScoredItems(rows, category))[i] == ItemOf(before[i]) == Items(before)[i];
    }
  }

  // -------------------------------------------------------------------- agreement

  /** What lets the server arrive at the total of the demo. */
  ghost predicate Comparable(rows: seq<Row>, category: string) {
    && (forall i :: 0 <= i < |rows| ==> !BlankKey(rows[i].submission, category))
    && ReadersAgree(Selected(Entries(SubmissionsOf(rows), category)))
  }

  /** Where the server visits its submissions by id, as its query returns them, it selects
      just what the demo selects, ties included. What is left to chance is the order in
      which the exclusive groups are visited, and with it the cap that a cap group reads:
      the totals agree when the entries of a cap group that were selected carry one cap. */
  lemma ServerScoresAsDemo(rows: seq<Row>, category: string, order: seq<string>)
    requires InOrder(rows)
    requires forall i :: 0 <= i < |rows| ==> !BlankKey(rows[i].submission, category)
    requires VisitsGroups(Items(ScoredItems(rows, category)), order)
    ensures var items, es := Items(ScoredItems(rows, category)), Entries(SubmissionsOf(rows), category);
      && multiset(Plain(EntriesOf(items)) + ServerBestOf(items, order)) == multiset(Selected(es))
      && (ReadersAgree(Selected(es)) ==>
            Total(Plain(EntriesOf(items)) + ServerBestOf(items, order)) == ItemTotal(es))
  {
    var items, es := Items(ScoredItems(rows, category)), Entries(SubmissionsOf(rows), category);
    SameEntries(rows, category);
    IdsAscend(rows, category);
    ExclusivesFacts(es);
    SameMembers(order, Exclusives(es));
    forall i | 0 <= i < |order|
      ensures Best(es, order[i]) == Some(ServerBestOf(items, order)[i])
    {
      assert order[i] in order;
      AscendingPicksSame(items, order[i]);
    }
    var chosen := ServerBestOf(items, order);
    assert chosen == BestOf(es, order);
    BestOfPermutation(es, order, Exclusives(es));
    if ReadersAgree(Selected(es)) {
      SelectedIsPlainFirst(es);
      SameMembers(chosen, Bests(es));
      TotalOfSelection(Plain(es), Bests(es), Plain(es), chosen);
    }
  }

  lemma ScoredAsDemo(rows: seq<Row>, category: string, order: seq<string>, itemTotal: int)
    requires InOrder(rows) && Comparable(rows, category) && VisitsGroups(Items(ScoredItems(rows, category)), order)
    requires var items := Items(ScoredItems(rows, category));
      itemTotal == Total(Plain(EntriesOf(items)) + ServerBestOf(items, order))
    ensures itemTotal == ItemTotal(Entries(SubmissionsOf(rows), category))
  {
    ServerScoresAsDemo(rows, category, order);
  }

  /** The whole breakdown of a member's category, from the rows of the database. */
  method ScoreCategory(rows: seq<Row>, category: string, base: seq<BaseEntry>, maxTotal: int) returns (b: Breakdown)
    requires InOrder(rows)
    ensures Comparable(rows, category) ==> b.itemTotal == ItemTotal(Entries(SubmissionsOf(rows), category))
    ensures b.baseTotal == Sum(base, BasePart(false)) && b.penaltyTotal == Sum(base, BasePart(true))
    ensures b.beforeCap == b.itemTotal + b.baseTotal + b.penaltyTotal && b.total == Min(b.beforeCap, maxTotal)
  {
    var items := CollectItems(rows, category);
    ghost var order;
    b, order := ComputeCategoryScore(items, base, maxTotal);
    if Comparable(rows, category) {
      ScoredAsDemo(rows, category, order, b.itemTotal);
    }
  }
}
