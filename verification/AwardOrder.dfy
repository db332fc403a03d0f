/** Who receives which tier: the class in the order in which awards are handed out
    (backend/internal/settle/settle.go). */
module AwardOrder {
  import opened Awards
  import opened CategoryScoreLaws
  import opened Ranking

  /** Served before: a better total; among equal totals a better imported grade; and among
      those with both the same the lower number. */
  predicate ServedBefore(weights: Weights, a: Row, b: Row) {
    var s, t, g, h := TotalIn(weights)(a), TotalIn(weights)(b), ScoreIn("major")(a), ScoreIn("major")(b);
    if s != t then s > t else if g != h then g > h else a.userId < b.userId
  }

  function Ahead(rows: seq<Row>, weights: Weights, b: Row): set<Row> {
    set a | a in rows && ServedBefore(weights, a, b)
  }

  /** The place at which a member is served, from 1. */
  function PlaceOf(rows: seq<Row>, weights: Weights, b: Row): nat {
    1 + |Ahead(rows, weights, b)|
  }

  lemma TotalsAreOrdered(weights: Weights)
    ensures StrictWeak(BetterTotal(weights))
    ensures forall a, b :: BetterTotal(weights)(a, b) <==> ServedBefore(weights, a, b)
  {
  }

  function RowSet(rows: seq<Row>): set<Row> {
    set r | r in rows
  }

  lemma {:induction false} DistinctCount(rows: seq<Row>, k: nat)
    requires k <= |rows| && DistinctIds(rows)
    ensures |RowSet(rows[..k])| == k
  {
    if k > 0 {
      DistinctCount(rows, k - 1);
      assert rows[..k] == rows[..k - 1] + [rows[k - 1]];
      assert RowSet(rows[..k]) == RowSet(rows[..k - 1]) + {rows[k - 1]};
      assert rows[k - 1] !in rows[..k - 1];
    }
  }

  /** In the sorted class everybody stands at the place of the definition. */
  lemma StandsAtPlace(rows: seq<Row>, weights: Weights, ordered: seq<Row>, k: nat)
    requires multiset(ordered) == multiset(rows) && DistinctIds(ordered) && k < |ordered|
    requires Ordered(ordered, BetterTotal(weights))
    ensures PlaceOf(rows, weights, ordered[k]) == k + 1
  {
    TotalsAreOrdered(weights);
    SameMembers(ordered, rows);
    var b := ordered[k];
    forall i | 0 <= i < |ordered|
      ensures ServedBefore(weights, ordered[i], b) <==> i < k
    {
      assert i < k ==> !BetterTotal(weights)(b, ordered[i]) && ordered[i].userId != b.userId;
      assert i > k ==> !BetterTotal(weights)(ordered[i], b);
    }
    assert Ahead(rows, weights, b) == RowSet(ordered[..k]);
    DistinctCount(ordered, k);
  }

  /** A member has the tier of the member's place. */
  predicate Rewarded(r: Row, tiers: map<int, string>, rows: seq<Row>, weights: Weights, awards: seq<Award>) {
    r.userId in tiers && tiers[r.userId] == TierFor(PlaceOf(rows, weights, r), |rows|, awards)
  }

  /** Sorting the class and handing out the tiers along it. */
  method AwardClass(rows: seq<Row>, weights: Weights, awards: seq<Award>) returns (tiers: map<int, string>)
    requires DistinctIds(rows)
    ensures forall r :: r in rows ==> Rewarded(r, tiers, rows, weights, awards)
  {
    var ordered := Sorted(rows, BetterTotal(weights));
    SortedPermutes(rows, BetterTotal(weights));
    StaysDistinct(rows, ordered);
    TotalsAreOrdered(weights);
    SortedIsOrdered(rows, BetterTotal(weights));
    var names := AwardTiers(|rows|, awards);
    tiers := map[];
    for k := 0 to |ordered|
      invariant forall i :: 0 <= i < k ==> Rewarded(ordered[i], tiers, rows, weights, awards)
    {
      StandsAtPlace(rows, weights, ordered, k);
      tiers := tiers[ordered[k].userId := names[k]];
    }
    SameMembers(rows, ordered);
  }

  // --------------------------------------------------------------- nobody is overtaken

  /** The first tier, from the k-th on, that reaches a place, or the number of tiers. */
  function TierIndex(rank: nat, size: nat, awards: seq<Award>, k: nat): (j: nat)
    requires k <= |awards|
    ensures k <= j <= |awards|
    decreases |awards| - k
  {
    if k == |awards| || rank <= Places(size, awards, k + 1) then k else TierIndex(rank, size, awards, k + 1)
  }

  lemma {:induction false} TierIsAtIndex(rank: nat, size: nat, awards: seq<Award>, k: nat)
    requires k <= |awards| && rank >= 1
    ensures var j := TierIndex(rank, size, awards, k);
      TierFrom(rank, size, awards, k) == if j < |awards| then awards[j].name else ""
    decreases |awards| - k
  {
    if k < |awards| && rank > Places(size, awards, k + 1) {
      TierIsAtIndex(rank, size, awards, k + 1);
    }
  }

  lemma {:induction false} LaterPlaceLaterTier(rank: nat, later: nat, size: nat, awards: seq<Award>, k: nat)
    requires k <= |awards| && rank <= later
    ensures TierIndex(rank, size, awards, k) <= TierIndex(later, size, awards, k)
    decreases |awards| - k
  {
    if k < |awards| && rank > Places(size, awards, k + 1) {
      LaterPlaceLaterTier(rank, later, size, awards, k + 1);
    }
  }

  /** Whoever is served before another one has an earlier place and a tier that is at
      least as good. */
  lemma NobodyIsOvertaken(rows: seq<Row>, weights: Weights, a: Row, b: Row, awards: seq<Award>)
    requires a in rows && ServedBefore(weights, a, b)
    ensures PlaceOf(rows, weights, a) < PlaceOf(rows, weights, b)
    ensures var i, j := TierIndex(PlaceOf(rows, weights, a), |rows|, awards, 0),
        TierIndex(PlaceOf(rows, weights, b), |rows|, awards, 0);
      && i <= j
      && TierFor(PlaceOf(rows, weights, a), |rows|, awards) == (if i < |awards| then awards[i].name else "")
      && TierFor(PlaceOf(rows, weights, b), |rows|, awards) == (if j < |awards| then awards[j].name else "")
  {
    var p, q := Ahead(rows, weights, a), Ahead(rows, weights, b);
    assert p <= q && a in q && a !in p;
    SubsetSize(p, q - {a});
    LaterPlaceLaterTier(PlaceOf(rows, weights, a), PlaceOf(rows, weights, b), |rows|, awards, 0);
    TierIsAtIndex(PlaceOf(rows, weights, a), |rows|, awards, 0);
    TierIsAtIndex(PlaceOf(rows, weights, b), |rows|, awards, 0);
  }

  lemma {:induction false} SubsetSize(p: set<Row>, q: set<Row>)
    requires p <= q
    ensures |p| <= |q|
  {
    if p != {} {
      var x :| x in p;
      SubsetSize(p - {x}, q - {x});
    }
  }
}
