/** What a member is shown of the current scores, told from the members themselves:
    totals that count the imported grade, and ranks as one more than the number of
    members who are better (backend/internal/api/current_score.go). */
module ShownScores {
  import opened CategoryScore
  import opened CategoryScoreLaws
  import opened Options
  import opened Ranking
  import Scheme
  import SchemeLaws

  /** A member's points in a category: the imported grade in the one it is for, and
      nothing where there are none. */
  function Points(m: Member, key: string): int {
    if key == MAJOR && m.gpa.Some? then m.gpa.value
    else if key in m.scores then m.scores[key]
    else 0
  }

  lemma RowPoints(ms: seq<Member>, i: nat, key: string)
    requires i < |ms|
    ensures ScoreIn(key)(RowsOf(ms)[i]) == Points(ms[i], key) && PointsIn(RowsOf(ms)[i].scores, key) == Points(ms[i], key)
  {
  }

  // ------------------------------------------------------------------------- totals

  /** The weighted points of a category in thousandths, before rounding. */
  function WeightedPoints(m: Member): ((string, real)) -> real {
    (w: (string, real)) => Points(m, w.0) as real * w.1
  }

  lemma {:induction false} RealSumCongruent<T>(ts: seq<T>, f: T -> real, g: T -> real)
    requires forall i :: 0 <= i < |ts| ==> f(ts[i]) == g(ts[i])
    ensures RealSum(ts, f) == RealSum(ts, g)
  {
    if ts != [] {
      RealSumCongruent(ts[..|ts| - 1], f, g);
    }
  }

  /** A total is shown to those whose grade was imported; it counts that grade, and
      differs from the exact weighted sum by at most half a thousandth for each category. */
  lemma {:induction false} ShownTotal(ms: seq<Member>, weights: Weights, i: nat)
    requires i < |ms|
    ensures CurrentOf(ms, weights, i).total.Some? <==> ms[i].gpa.Some?
    ensures CurrentOf(ms, weights, i).total.Some? ==>
      var error := CurrentOf(ms, weights, i).total.value as real - RealSum(weights, WeightedPoints(ms[i]));
      -(|weights| as real) / 2.0 <= error <= |weights| as real / 2.0
  {
    var scores := RowsOf(ms)[i].scores;
    TotalIsClose(scores, weights);
    forall k | 0 <= k < |weights|
      ensures ExactPart(scores)(weights[k]) == WeightedPoints(ms[i])(weights[k])
    {
      RowPoints(ms, i, weights[k].0);
    }
    RealSumCongruent(weights, ExactPart(scores), WeightedPoints(ms[i]));
  }

  // -------------------------------------------------------------------------- ranks

  /** The rows that are better than that. */
  function Better<T>(rows: seq<T>, f: T -> int, v: int): set<nat> {
    set i: nat | i < |rows| && f(rows[i]) > v
  }

  lemma {:induction false} RankCounts<T>(rows: seq<T>, f: T -> int, v: int)
    ensures RankOf(rows, f, v) == 1 + |Better(rows, f, v)|
    decreases |rows|
  {
    if rows != [] {
      var n := |rows| - 1;
      RankCounts(rows[..n], f, v);
      assert Better(rows, f, v) == Better(rows[..n], f, v) + if f(rows[n]) > v then {n} else {};
    }
  }

  /** The members with more points in that category than member i. */
  function Ahead(ms: seq<Member>, key: string, i: nat): set<nat>
    requires i < |ms|
  {
    set k: nat | k < |ms| && Points(ms[k], key) > Points(ms[i], key)
  }

  function TotalOf(ms: seq<Member>, weights: Weights, k: nat): int
    requires k < |ms|
  {
    WeightedTotal(RowsOf(ms)[k].scores, weights)
  }

  function AheadInTotal(ms: seq<Member>, weights: Weights, i: nat): set<nat>
    requires i < |ms|
  {
    set k: nat | k < |ms| && TotalOf(ms, weights, k) > TotalOf(ms, weights, i)
  }

  lemma AheadIsBetter(ms: seq<Member>, key: string, i: nat)
    requires i < |ms|
    ensures RankIn(RowsOf(ms), key, i) == 1 + |Ahead(ms, key, i)|
  {
    var rows := RowsOf(ms);
    RankCounts(rows, ScoreIn(key), ScoreIn(key)(rows[i]));
    forall k: nat | k < |ms|
      ensures ScoreIn(key)(rows[k]) == Points(ms[k], key)
    {
      RowPoints(ms, k, key);
    }
    assert Better(rows, ScoreIn(key), ScoreIn(key)(rows[i])) == Ahead(ms, key, i);
  }

  /** Some member has points of that name, or an imported grade where it is for that. */
  ghost predicate Ranked(ms: seq<Member>, key: string) {
    exists k :: 0 <= k < |ms| && (key in ms[k].scores || (key == MAJOR && ms[k].gpa.Some?))
  }

  /** Every grade of the class was imported. */
  predicate Ready(ms: seq<Member>) {
    |ms| > 0 && forall k :: 0 <= k < |ms| ==> ms[k].gpa.Some?
  }

  lemma KeysAreRanked(ms: seq<Member>, key: string)
    ensures key in KeysOf(RowsOf(ms)) <==> Ranked(ms, key)
  {
    var rows := RowsOf(ms);
    if key in KeysOf(rows) {
      var k :| 0 <= k < |rows| && key in rows[k].scores;
      assert rows[k] == RowOf(ms[k]);
    }
    if k :| 0 <= k < |ms| && (key in ms[k].scores || (key == MAJOR && ms[k].gpa.Some?)) {
      assert rows[k] == RowOf(ms[k]) && key in rows[k].scores;
    }
  }

  /** Every rank that is shown is one more than the number of members who are ahead; the
      ranks by total and by grade are shown once every grade is imported, those of the
      other categories always. */
  lemma ShownRanks(ms: seq<Member>, weights: Weights, i: nat)
    requires i < |ms|
    ensures var c := CurrentOf(ms, weights, i);
      && c.classRank == (if Ready(ms) then Some(1 + |AheadInTotal(ms, weights, i)|) else None)
      && c.majorRank == (if Ready(ms) then Some(1 + |Ahead(ms, MAJOR, i)|) else None)
      && (forall key :: key in c.categoryRanks <==> Ranked(ms, key) && (key == MAJOR ==> Ready(ms)))
      && forall key :: key in c.categoryRanks ==> c.categoryRanks[key] == 1 + |Ahead(ms, key, i)|
  {
    var rows, c := RowsOf(ms), CurrentOf(ms, weights, i);
    RankCounts(rows, TotalIn(weights), TotalIn(weights)(rows[i]));
    assert Better(rows, TotalIn(weights), TotalIn(weights)(rows[i])) == AheadInTotal(ms, weights, i);
    AheadIsBetter(ms, MAJOR, i);
    forall key
      ensures key in c.categoryRanks <==> Ranked(ms, key) && (key == MAJOR ==> Ready(ms))
      ensures key in c.categoryRanks ==> c.categoryRanks[key] == 1 + |Ahead(ms, key, i)|
    {
      KeysAreRanked(ms, key);
      AheadIsBetter(ms, key, i);
    }
  }

  /** A better imported grade never lowers a total when no weight is negative. */
  lemma {:induction false} BetterGradeBetterTotal(scores: map<string, int>, grade: int, better: int, weights: Weights)
    requires grade <= better && forall k :: 0 <= k < |weights| ==> weights[k].1 >= 0.0
    ensures WeightedTotal(scores[MAJOR := grade], weights) <= WeightedTotal(scores[MAJOR := better], weights)
  {
    var f, g := RoundedPart(scores[MAJOR := grade]), RoundedPart(scores[MAJOR := better]);
    forall k | 0 <= k < |weights|
      ensures f(weights[k]) <= g(weights[k])
    {
      var w := weights[k];
      var p, q := PointsIn(scores[MAJOR := grade], w.0), PointsIn(scores[MAJOR := better], w.0);
      Monotone(p, q, w.1);
    }
    SumAtMost(weights, f, g);
  }

  lemma Monotone(p: int, q: int, weight: real)
    requires p <= q && weight >= 0.0
    ensures Scheme.NewPoints(Weighted(p, weight)) <= Scheme.NewPoints(Weighted(q, weight))
  {
    assert p as real * weight <= q as real * weight;
    ScaledBack(p, weight);
    ScaledBack(q, weight);
    SchemeLaws.NewPointsMonotone(Weighted(p, weight), Weighted(q, weight));
  }
}
