/** Weighted totals, competition ranks and award tiers (mock/src/handle.ts,
    backend/internal/settle/settle.go and backend/internal/api/current_score.go). */
module Ranking {
  import opened CategoryScore
  import opened CategoryScoreLaws
  import opened Options
  import Scheme

  // ----------------------------------------------------------------------- ranks

  function Above<T>(f: T -> int, v: int): T -> int {
    (t: T) => if f(t) > v then 1 else 0
  }

  /** The competition rank: one more than the number of rows that are better. */
  function RankOf<T>(rows: seq<T>, f: T -> int, v: int): int {
    1 + Sum(rows, Above(f, v))
  }

  predicate Descending<T>(rows: seq<T>, f: T -> int) {
    forall i, j :: 0 <= i < j < |rows| ==> f(rows[i]) >= f(rows[j])
  }

  /** The rank as it is found along a sorted class: a new score takes the number
      of its place, an equal one shares the rank before it. */
  function RankAt<T>(rows: seq<T>, f: T -> int, i: nat): int
    requires i < |rows|
  {
    if i == 0 then 1
    else if f(rows[i]) == f(rows[i - 1]) then RankAt(rows, f, i - 1)
    else i + 1
  }

  lemma {:induction false} SumOnes<T>(rows: seq<T>, f: T -> int)
    requires forall i :: 0 <= i < |rows| ==> f(rows[i]) == 1
    ensures Sum(rows, f) == |rows|
    decreases |rows|
  {
    if rows != [] {
      SumOnes(rows[..|rows| - 1], f);
    }
  }

  lemma {:induction false} SumZero<T>(rows: seq<T>, f: T -> int)
    requires forall i :: 0 <= i < |rows| ==> f(rows[i]) == 0
    ensures Sum(rows, f) == 0
    decreases |rows|
  {
    if rows != [] {
      SumZero(rows[..|rows| - 1], f);
    }
  }

  lemma {:induction false} CountSplit<T>(better: seq<T>, rest: seq<T>, f: T -> int)
    requires forall k :: 0 <= k < |better| ==> f(better[k]) == 1
    requires forall k :: 0 <= k < |rest| ==> f(rest[k]) == 0
    ensures Sum(better + rest, f) == |better|
  {
    SumAppend(better, rest, f);
    SumOnes(better, f);
    SumZero(rest, f);
  }

  /** A row that is strictly worse than the one before it. */
  lemma PlaceIsRank<T>(rows: seq<T>, f: T -> int, i: nat)
    requires Descending(rows, f) && i < |rows| && (i > 0 ==> f(rows[i]) < f(rows[i - 1]))
    ensures RankOf(rows, f, f(rows[i])) == i + 1
  {
    assert rows == rows[..i] + rows[i..];
    assert forall k :: 0 <= k < i ==> f(rows[k]) >= f(rows[i - 1]);
    CountSplit(rows[..i], rows[i..], Above(f, f(rows[i])));
  }

  /** In a sorted class the rank by place is the competition rank. */
  lemma {:induction false} RankAtIsRank<T>(rows: seq<T>, f: T -> int, i: nat)
    requires Descending(rows, f) && i < |rows|
    ensures RankAt(rows, f, i) == RankOf(rows, f, f(rows[i]))
  {
    if i > 0 && f(rows[i]) == f(rows[i - 1]) {
      RankAtIsRank(rows, f, i - 1);
    } else {
      PlaceIsRank(rows, f, i);
    }
  }

  lemma {:induction false} SumNonNegative<T>(rows: seq<T>, f: T -> int)
    requires forall i :: 0 <= i < |rows| ==> f(rows[i]) >= 0
    ensures Sum(rows, f) >= 0
    decreases |rows|
  {
    if rows != [] {
      SumNonNegative(rows[..|rows| - 1], f);
    }
  }

  /** Better totals have strictly smaller ranks, equal totals share one, and ranks
      lie between 1 and the size of the class. */
  lemma RankOrder<T>(rows: seq<T>, f: T -> int, i: nat, j: nat)
    requires i < |rows| && j < |rows|
    ensures RankOf(rows, f, f(rows[i])) < RankOf(rows, f, f(rows[j])) <==> f(rows[i]) > f(rows[j])
    ensures 1 <= RankOf(rows, f, f(rows[i])) <= |rows|
  {
    if f(rows[i]) >= f(rows[j]) {
      RankStrict(rows, f, i, j);
    } else {
      RankStrict(rows, f, j, i);
    }
    var above := Above(f, f(rows[i]));
    SumNonNegative(rows, above);
    SumWithout(rows, i, above);
    SumAtMost(Without(rows, i), above, (t: T) => 1);
    SumOnes(Without(rows, i), (t: T) => 1);
  }

  lemma RankStrict<T>(rows: seq<T>, f: T -> int, i: nat, j: nat)
    requires i < |rows| && j < |rows| && f(rows[i]) >= f(rows[j])
    ensures RankOf(rows, f, f(rows[i])) <= RankOf(rows, f, f(rows[j]))
    ensures f(rows[i]) > f(rows[j]) ==> RankOf(rows, f, f(rows[i])) < RankOf(rows, f, f(rows[j]))
  {
    var a, b := Above(f, f(rows[i])), Above(f, f(rows[j]));
    SumAtMost(rows, a, b);
    if f(rows[i]) > f(rows[j]) {
      SumWithout(rows, i, a);
      SumWithout(rows, i, b);
      SumAtMost(Without(rows, i), a, b);
    }
  }

  // --------------------------------------------------------------------- sorting

  /** Which of two elements a sort puts first. */
  type Before<!T> = (T, T) -> bool

  function Insert<T>(sorted: seq<T>, t: T, before: Before<T>): seq<T> {
    if sorted == [] || !before(t, sorted[|sorted| - 1]) then sorted + [t]
    else Insert(sorted[..|sorted| - 1], t, before) + [sorted[|sorted| - 1]]
  }

  function Sorted<T>(rows: seq<T>, before: Before<T>): seq<T> {
    if rows == [] then [] else Insert(Sorted(rows[..|rows| - 1], before), rows[|rows| - 1], before)
  }

  lemma {:induction false} InsertPermutes<T>(sorted: seq<T>, t: T, before: Before<T>)
    ensures multiset(Insert(sorted, t, before)) == multiset(sorted) + multiset{t}
    decreases |sorted|
  {
    if sorted != [] && before(t, sorted[|sorted| - 1]) {
      var n := |sorted| - 1;
      assert sorted == sorted[..n] + [sorted[n]];
      InsertPermutes(sorted[..n], t, before);
    }
  }

  lemma {:induction false} SortedPermutes<T>(rows: seq<T>, before: Before<T>)
    ensures multiset(Sorted(rows, before)) == multiset(rows)
    ensures |Sorted(rows, before)| == |rows|
    decreases |rows|
  {
    if rows != [] {
      var n := |rows| - 1;
      assert rows == rows[..n] + [rows[n]];
      SortedPermutes(rows[..n], before);
      InsertPermutes(Sorted(rows[..n], before), rows[n], before);
    }
    assert |multiset(Sorted(rows, before))| == |Sorted(rows, before)|;
    assert |multiset(rows)| == |rows|;
  }

  ghost predicate StrictWeak<T(!new)>(before: Before<T>) {
    && (forall a, b {:trigger before(a, b)} :: before(a, b) ==> !before(b, a))
    && forall a, b, c {:trigger before(a, b), before(b, c)} :: !before(a, b) && !before(b, c) ==> !before(a, c)
  }

  /** Nothing comes before an earlier element. */
  predicate Ordered<T>(s: seq<T>, before: Before<T>) {
    forall i, j :: 0 <= i < j < |s| ==> !before(s[j], s[i])
  }

  lemma {:induction false} InsertIsOrdered<T(!new)>(sorted: seq<T>, t: T, before: Before<T>)
    requires Ordered(sorted, before) && StrictWeak(before)
    ensures Ordered(Insert(sorted, t, before), before)
    decreases |sorted|
  {
    if sorted != [] {
      var n := |sorted| - 1;
      var init, last := sorted[..n], sorted[n];
      if before(t, last) {
        InsertIsOrdered(init, t, before);
        InsertMembers(init, t, before);
        forall x | x in Insert(init, t, before)
          ensures !before(last, x)
        {
          assert x in init ==> exists i :: 0 <= i < n && sorted[i] == x;
        }
      } else {
        forall i | 0 <= i < n
          ensures !before(t, sorted[i])
        {
          assert !before(last, sorted[i]);
        }
      }
    }
  }

  lemma {:induction false} InsertMembers<T>(sorted: seq<T>, t: T, before: Before<T>)
    ensures forall x :: x in Insert(sorted, t, before) ==> x in sorted || x == t
  {
    InsertPermutes(sorted, t, before);
    assert forall x :: x in Insert(sorted, t, before) ==> x in multiset(Insert(sorted, t, before));
  }

  /** Sorting puts nothing before an earlier element. */
  lemma {:induction false} SortedIsOrdered<T(!new)>(rows: seq<T>, before: Before<T>)
    requires StrictWeak(before)
    ensures Ordered(Sorted(rows, before), before)
    decreases |rows|
  {
    if rows != [] {
      SortedIsOrdered(rows[..|rows| - 1], before);
      InsertIsOrdered(Sorted(rows[..|rows| - 1], before), rows[|rows| - 1], before);
    }
  }

  /** The order puts better scores first, whatever it does with equal ones. */
  ghost predicate Ranks<T(!new)>(before: Before<T>, f: T -> int) {
    && (forall a, b {:trigger before(a, b)} :: before(a, b) ==> f(a) >= f(b))
    && (forall a, b {:trigger before(a, b)} :: !before(a, b) ==> f(b) >= f(a))
  }

  lemma {:induction false} InsertDescends<T(!new)>(sorted: seq<T>, t: T, before: Before<T>, f: T -> int)
    requires Descending(sorted, f) && Ranks(before, f)
    ensures Descending(Insert(sorted, t, before), f)
    decreases |sorted|
  {
    if sorted != [] && before(t, sorted[|sorted| - 1]) {
      var n := |sorted| - 1;
      var init := sorted[..n];
      InsertDescends(init, t, before, f);
      InsertPermutes(init, t, before);
      var into := Insert(init, t, before);
      forall i | 0 <= i < |into|
        ensures f(into[i]) >= f(sorted[n])
      {
        assert into[i] in multiset(into);
        assert into[i] == t || into[i] in init;
      }
    }
  }

  lemma {:induction false} SortedDescends<T(!new)>(rows: seq<T>, before: Before<T>, f: T -> int)
    requires Ranks(before, f)
    ensures Descending(Sorted(rows, before), f)
    decreases |rows|
  {
    if rows != [] {
      SortedDescends(rows[..|rows| - 1], before, f);
      InsertDescends(Sorted(rows[..|rows| - 1], before), rows[|rows| - 1], before, f);
    }
  }

  // ----------------------------------------------------------- ranks by category

  datatype Row = Row(userId: int, scores: map<string, int>)

  function ScoreIn(key: string): Row -> int {
    (r: Row) => if key in r.scores then r.scores[key] else 0
  }

  function BetterIn(key: string): Before<Row> {
    (a: Row, b: Row) =>
      ScoreIn(key)(a) > ScoreIn(key)(b) || (ScoreIn(key)(a) == ScoreIn(key)(b) && a.userId < b.userId)
  }

  lemma BetterInRanks(key: string)
    ensures Ranks(BetterIn(key), ScoreIn(key))
  {
  }

  predicate DistinctIds(rows: seq<Row>) {
    forall i, j :: 0 <= i < j < |rows| ==> rows[i].userId != rows[j].userId
  }

  /** The loop over a sorted class. */
  method RankAlong(ordered: seq<Row>, f: Row -> int) returns (ranks: map<int, int>)
    requires DistinctIds(ordered)
    ensures forall k :: 0 <= k < |ordered| ==>
      ordered[k].userId in ranks && ranks[ordered[k].userId] == RankAt(ordered, f, k)
  {
    ranks := map[];
    var rank, previous := 0, 0;
    for index := 0 to |ordered|
      invariant index > 0 ==> rank == RankAt(ordered, f, index - 1) && previous == f(ordered[index - 1])
      invariant forall k :: 0 <= k < index ==>
        ordered[k].userId in ranks && ranks[ordered[k].userId] == RankAt(ordered, f, k)
    {
      var score := f(ordered[index]);
      if index == 0 || score != previous {
        rank := index + 1;
      }
      ranks := ranks[ordered[index].userId := rank];
      previous := score;
    }
  }

  /** Every member's rank by f is in the map. */
  ghost predicate RanksOf(rows: seq<Row>, f: Row -> int, ranks: map<int, int>) {
    forall i :: 0 <= i < |rows| ==>
      rows[i].userId in ranks && ranks[rows[i].userId] == RankOf(rows, f, f(rows[i]))
  }

  /** Ranks the class along an order that puts better scores first. */
  method RankBy(rows: seq<Row>, f: Row -> int, before: Before<Row>) returns (ranks: map<int, int>)
    requires DistinctIds(rows) && Ranks(before, f)
    ensures RanksOf(rows, f, ranks)
  {
    var ordered := Sorted(rows, before);
    SortedPermutes(rows, before);
    StaysDistinct(rows, ordered);
    ranks := RankAlong(ordered, f);
    forall i | 0 <= i < |rows|
      ensures rows[i].userId in ranks && ranks[rows[i].userId] == RankOf(rows, f, f(rows[i]))
    {
      var k := RankInOrder(rows, f, before, i);
      assert ordered[k] == rows[i];
    }
  }

  /** Ranks the class in one category. */
  method RankCategory(rows: seq<Row>, key: string) returns (ranks: map<int, int>)
    requires DistinctIds(rows)
    ensures RanksOf(rows, ScoreIn(key), ranks)
  {
    BetterInRanks(key);
    ranks := RankBy(rows, ScoreIn(key), BetterIn(key));
  }

  /** Where a row ends up, its rank by place is its rank in the class. */
  lemma RankInOrder(rows: seq<Row>, f: Row -> int, before: Before<Row>, i: nat) returns (k: nat)
    requires i < |rows| && Ranks(before, f)
    ensures k < |Sorted(rows, before)| && Sorted(rows, before)[k] == rows[i]
    ensures RankAt(Sorted(rows, before), f, k) == RankOf(rows, f, f(rows[i]))
  {
    var ordered := Sorted(rows, before);
    SortedPermutes(rows, before);
    SortedDescends(rows, before, f);
    SameMembers(rows, ordered);
    assert rows[i] in ordered;
    k :| 0 <= k < |ordered| && ordered[k] == rows[i];
    RankAtIsRank(ordered, f, k);
    SumPermutation(rows, ordered, Above(f, f(rows[i])));
  }

  lemma StaysDistinct(rows: seq<Row>, ordered: seq<Row>)
    requires DistinctIds(rows) && multiset(rows) == multiset(ordered)
    ensures DistinctIds(ordered)
  {
    forall i, j | 0 <= i < j < |ordered|
      ensures ordered[i].userId != ordered[j].userId
    {
      SameMembers(rows, ordered);
      assert ordered[i] in rows && ordered[j] in rows;
      var k :| 0 <= k < |rows| && rows[k] == ordered[i];
      var l :| 0 <= l < |rows| && rows[l] == ordered[j];
      if k == l {
        TwiceInMultiset(ordered, i, j);
        OnceInMultiset(rows, k);
      }
    }
  }

  lemma TwiceInMultiset(rows: seq<Row>, i: nat, j: nat)
    requires i < j < |rows| && rows[i] == rows[j]
    ensures multiset(rows)[rows[i]] >= 2
  {
    assert rows == rows[..i] + [rows[i]] + rows[i + 1..j] + [rows[j]] + rows[j + 1..];
  }

  lemma {:induction false} OnceInMultiset(rows: seq<Row>, k: nat)
    requires k < |rows| && DistinctIds(rows)
    ensures multiset(rows)[rows[k]] == 1
  {
    MultisetWithout(rows, k);
    var rest := Without(rows, k);
    forall m | 0 <= m < |rest|
      ensures rest[m] != rows[k]
    {
      assert rest[m] == if m < k then rows[m] else rows[m + 1];
    }
    assert rows[k] !in multiset(rest);
  }

  // ------------------------------------------------------------ the current score

  datatype Member = Member(id: int, gpa: Option<int>, scores: map<string, int>)

  const MAJOR := "major"

  function RowOf(m: Member): Row {
    Row(m.id, if m.gpa.Some? then m.scores[MAJOR := m.gpa.value] else m.scores)
  }

  function RowsOf(ms: seq<Member>): (rows: seq<Row>)
    ensures |rows| == |ms|
  {
    seq(|ms|, (i: nat) requires i < |ms| => RowOf(ms[i]))
  }

  predicate Imported(ms: seq<Member>) {
    forall i :: 0 <= i < |ms| ==> ms[i].gpa.Some?
  }

  predicate RankingReady(ms: seq<Member>) {
    ms != [] && Imported(ms)
  }

  type Weights = seq<(string, real)>

  function PointsIn(scores: map<string, int>, key: string): int {
    if key in scores then scores[key] else 0
  }

  function Weighted(p: int, weight: real): real {
    Scheme.Float64(p) * weight
  }

  /** Each category is weighted and rounded on its own. */
  function RoundedPart(scores: map<string, int>): ((string, real)) -> int {
    (w: (string, real)) => Scheme.NewPoints(Weighted(PointsIn(scores, w.0), w.1))
  }

  /** The exact weighted points of a category, in thousandths. */
  function ExactPart(scores: map<string, int>): ((string, real)) -> real {
    (w: (string, real)) => PointsIn(scores, w.0) as real * w.1
  }

  function WeightedTotal(scores: map<string, int>, weights: Weights): int {
    Sum(weights, RoundedPart(scores))
  }

  function RealSum<T>(ts: seq<T>, f: T -> real): real {
    if ts == [] then 0.0 else RealSum(ts[..|ts| - 1], f) + f(ts[|ts| - 1])
  }

  lemma RoundingError(v: real)
    ensures -0.5 <= Scheme.NewPoints(v) as real - v * 1000.0 <= 0.5
  {
  }

  lemma ScaledBack(p: int, w: real)
    ensures Weighted(p, w) * 1000.0 == p as real * w
  {
  }

  lemma PartIsClose(scores: map<string, int>, w: (string, real))
    ensures -0.5 <= RoundedPart(scores)(w) as real - ExactPart(scores)(w) <= 0.5
  {
    var p, weight := PointsIn(scores, w.0), w.1;
    RoundingError(Weighted(p, weight));
    ScaledBack(p, weight);
  }

  lemma {:induction false} ErrorsAdd<T>(ts: seq<T>, f: T -> int, g: T -> real)
    requires forall i :: 0 <= i < |ts| ==> -0.5 <= f(ts[i]) as real - g(ts[i]) <= 0.5
    ensures -(|ts| as real) / 2.0 <= Sum(ts, f) as real - RealSum(ts, g) <= |ts| as real / 2.0
    decreases |ts|
  {
    if ts != [] {
      ErrorsAdd(ts[..|ts| - 1], f, g);
    }
  }

  /** Over k categories the total is within k/2 thousandths of the exact sum. */
  lemma {:induction false} TotalIsClose(scores: map<string, int>, weights: Weights)
    ensures var error := WeightedTotal(scores, weights) as real - RealSum(weights, ExactPart(scores));
      -(|weights| as real) / 2.0 <= error <= |weights| as real / 2.0
  {
    forall i | 0 <= i < |weights|
      ensures -0.5 <= RoundedPart(scores)(weights[i]) as real - ExactPart(scores)(weights[i]) <= 0.5
    {
      PartIsClose(scores, weights[i]);
    }
    ErrorsAdd(weights, RoundedPart(scores), ExactPart(scores));
  }

  function TotalIn(weights: Weights): Row -> int {
    (r: Row) => WeightedTotal(r.scores, weights)
  }

  datatype Current = Current(
    total: Option<int>, classRank: Option<int>, majorRank: Option<int>, categoryRanks: map<string, int>)

  function KeysOf(rows: seq<Row>): set<string> {
    set i, key | 0 <= i < |rows| && key in rows[i].scores :: key
  }

  /** What a member is shown: the ranks of the other categories always, everything
      that depends on the imported grade only once the whole class has one. */
  function CurrentOf(ms: seq<Member>, weights: Weights, i: nat): Current
    requires i < |ms|
  {
    var rows, ready := RowsOf(ms), RankingReady(ms);
    Current(
      if ms[i].gpa.Some? then Some(WeightedTotal(rows[i].scores, weights)) else None,
      if ready then Some(RankOf(rows, TotalIn(weights), TotalIn(weights)(rows[i]))) else None,
      if ready then Some(RankOf(rows, ScoreIn(MAJOR), ScoreIn(MAJOR)(rows[i]))) else None,
      CategoryRanks(rows, KeysOf(rows), ready, i))
  }

  function RankIn(rows: seq<Row>, key: string, i: nat): int
    requires i < |rows|
  {
    RankOf(rows, ScoreIn(key), ScoreIn(key)(rows[i]))
  }

  function CategoryRanks(rows: seq<Row>, keys: set<string>, ready: bool, i: nat): map<string, int>
    requires i < |rows|
  {
    map key | key in keys && (key != MAJOR || ready) :: RankIn(rows, key, i)
  }

  /** Totals first, then the imported grade, then the member. */
  function BetterTotal(weights: Weights): Before<Row> {
    (a: Row, b: Row) =>
      var s, t := TotalIn(weights)(a), TotalIn(weights)(b);
      s > t || (s == t && (ScoreIn(MAJOR)(a) > ScoreIn(MAJOR)(b) ||
        (ScoreIn(MAJOR)(a) == ScoreIn(MAJOR)(b) && a.userId < b.userId)))
  }

  lemma BetterTotalRanks(weights: Weights)
    ensures Ranks(BetterTotal(weights), TotalIn(weights))
  {
  }

  /** One pass over the members: their rows, and how many grades are imported. */
  method CollectRows(ms: seq<Member>) returns (rows: seq<Row>, ready: bool)
    ensures rows == RowsOf(ms) && ready == RankingReady(ms)
  {
    rows := [];
    var imported := 0;
    for i := 0 to |ms|
      invariant rows == RowsOf(ms)[..i]
      invariant imported <= i && (imported == i <==> Imported(ms[..i]))
    {
      assert ms[..i + 1] == ms[..i] + [ms[i]];
      rows := rows + [RowOf(ms[i])];
      if ms[i].gpa.Some? {
        imported := imported + 1;
      }
    }
    assert ms[..|ms|] == ms && RowsOf(ms)[..|ms|] == RowsOf(ms);
    ready := |ms| > 0 && imported == |ms|;
  }

  /** The ranks in every category, visited in any order. */
  method RankCategories(rows: seq<Row>, keys: set<string>) returns (ranks: map<string, map<int, int>>)
    requires DistinctIds(rows)
    ensures ranks.Keys == keys
    ensures forall key :: key in ranks ==> RanksOf(rows, ScoreIn(key), ranks[key])
  {
    ranks := map[];
    var left := keys;
    while left != {}
      invariant left <= keys && ranks.Keys == keys - left
      invariant forall key :: key in ranks ==> RanksOf(rows, ScoreIn(key), ranks[key])
      decreases |left|
    {
      var key := AnyOf(left);
      var one := RankCategory(rows, key);
      ranks := ranks[key := one];
      left := left - {key};
    }
  }

  lemma RankFound(rows: seq<Row>, f: Row -> int, ranks: map<int, int>, i: nat)
    requires RanksOf(rows, f, ranks) && i < |rows|
    ensures rows[i].userId in ranks && ranks[rows[i].userId] == RankOf(rows, f, f(rows[i]))
  {
  }

  /** The category ranks of row i, looked up in the ranks of the class. */
  method LookUp(rows: seq<Row>, ready: bool, i: nat, ranks: map<string, map<int, int>>)
    returns (shown: map<string, int>)
    requires i < |rows|
    requires forall key :: key in ranks ==> RanksOf(rows, ScoreIn(key), ranks[key])
    ensures shown == CategoryRanks(rows, ranks.Keys, ready, i)
  {
    var id := rows[i].userId;
    forall key | key in ranks
      ensures id in ranks[key] && ranks[key][id] == RankIn(rows, key, i)
    {
      RankFound(rows, ScoreIn(key), ranks[key], i);
    }
    shown := map key | key in ranks && (key != MAJOR || ready) :: ranks[key][id];
  }

  /** What member i is shown, looked up in the ranks of the class. */
  method ShowOne(ms: seq<Member>, weights: Weights, i: nat, rows: seq<Row>, ready: bool, classRanks: map<int, int>,
                 majorRanks: map<int, int>, ranks: map<string, map<int, int>>)
    returns (current: Current)
    requires i < |ms| && rows == RowsOf(ms) && ready == RankingReady(ms)
    requires RanksOf(rows, TotalIn(weights), classRanks) && RanksOf(rows, ScoreIn(MAJOR), majorRanks)
    requires ranks.Keys == KeysOf(rows) && forall key :: key in ranks ==> RanksOf(rows, ScoreIn(key), ranks[key])
    ensures current == CurrentOf(ms, weights, i)
  {
    var id := rows[i].userId;
    var shown := LookUp(rows, ready, i, ranks);
    RankFound(rows, TotalIn(weights), classRanks, i);
    RankFound(rows, ScoreIn(MAJOR), majorRanks, i);
    current := Current(
      if ms[i].gpa.Some? then Some(WeightedTotal(rows[i].scores, weights)) else None,
      if ready then Some(classRanks[id]) else None,
      if ready then Some(majorRanks[id]) else None,
      shown);
  }

  method ComputeCurrentScores(ms: seq<Member>, weights: Weights) returns (results: map<int, Current>)
    requires forall i, j :: 0 <= i < j < |ms| ==> ms[i].id != ms[j].id
    ensures forall i :: 0 <= i < |ms| ==> ms[i].id in results && results[ms[i].id] == CurrentOf(ms, weights, i)
  {
    var rows, ready := CollectRows(ms);
    assert forall i :: 0 <= i < |ms| ==> rows[i].userId == ms[i].id;
    BetterTotalRanks(weights);
    var classRanks := RankBy(rows, TotalIn(weights), BetterTotal(weights));
    var majorRanks := RankCategory(rows, MAJOR);
    var ranks := RankCategories(rows, KeysOf(rows));
    results := map[];
    for i := 0 to |ms|
      invariant forall k :: 0 <= k < i ==> ms[k].id in results && results[ms[k].id] == CurrentOf(ms, weights, k)
    {
      var current := ShowOne(ms, weights, i, rows, ready, classRanks, majorRanks, ranks);
      results := results[ms[i].id := current];
    }
  }

  /** Total ranks appear for all members or for none. */
  lemma AllOrNone(ms: seq<Member>, weights: Weights, i: nat, j: nat)
    requires i < |ms| && j < |ms|
    ensures CurrentOf(ms, weights, i).classRank.Some? <==> CurrentOf(ms, weights, j).classRank.Some?
    ensures CurrentOf(ms, weights, i).classRank.Some? <==>
      forall k :: 0 <= k < |ms| ==> CurrentOf(ms, weights, k).total.Some?
    ensures MAJOR in CurrentOf(ms, weights, i).categoryRanks ==> CurrentOf(ms, weights, i).classRank.Some?
  {
    assert forall k: nat :: k < |ms| ==> (CurrentOf(ms, weights, k).total.Some? <==> ms[k].gpa.Some?);
  }

  /** Members differ in their imported grades only. */
  predicate OnlyGpaDiffers(ms: seq<Member>, ns: seq<Member>) {
    && |ms| == |ns|
    && forall i :: 0 <= i < |ms| ==> ns[i].id == ms[i].id && ns[i].scores == ms[i].scores && MAJOR !in ms[i].scores
  }

  /** Importing grades never changes the ranks in any other category. */
  lemma GpaLeavesOtherRanks(ms: seq<Member>, ns: seq<Member>, weights: Weights, i: nat, key: string)
    requires OnlyGpaDiffers(ms, ns) && i < |ms| && key != MAJOR
    ensures var a, b := CurrentOf(ms, weights, i).categoryRanks, CurrentOf(ns, weights, i).categoryRanks;
      (key in a <==> key in b) && (key in a ==> a[key] == b[key])
  {
    var rows, others := RowsOf(ms), RowsOf(ns);
    forall k | 0 <= k < |ms|
      ensures ScoreIn(key)(rows[k]) == ScoreIn(key)(others[k])
      ensures key in rows[k].scores <==> key in others[k].scores
    {
      assert rows[k] == RowOf(ms[k]) && others[k] == RowOf(ns[k]);
    }
    SameCounts(rows, others, Above(ScoreIn(key), ScoreIn(key)(rows[i])));
    assert key in KeysOf(rows) <==> key in KeysOf(others);
  }

  lemma {:induction false} SameCounts(a: seq<Row>, b: seq<Row>, f: Row -> int)
    requires |a| == |b| && forall i :: 0 <= i < |a| ==> f(a[i]) == f(b[i])
    ensures Sum(a, f) == Sum(b, f)
    decreases |a|
  {
    if a != [] {
      SameCounts(a[..|a| - 1], b[..|b| - 1], f);
    }
  }
}
