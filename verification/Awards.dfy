/** Handing out award tiers along the ranking order: the server fills each tier's
    places in turn (backend/internal/settle/settle.go), the demo looks a place up
    (mock/src/handle.ts). */
module Awards {
  import opened Options

  datatype Award = Award(name: string, topPercent: nat)

  /** A share of the class as a head count, rounded half up. */
  function Quota(size: nat, percent: nat): nat {
    (2 * size * percent + 100) / 200
  }

  /** The head count is the whole number nearest to the share, the larger one where two
      are equally near. */
  lemma QuotaIsNearest(size: nat, percent: nat)
    ensures 2 * size * percent - 100 < 200 * Quota(size, percent) <= 2 * size * percent + 100
  {
  }

  /** The places of the first k tiers together. */
  function Places(size: nat, awards: seq<Award>, k: nat): nat
    requires k <= |awards|
  {
    if k == 0 then 0 else Places(size, awards, k - 1) + Quota(size, awards[k - 1].topPercent)
  }

  /** Places from 1: the first tier, from the k-th on, that reaches that far. */
  function TierFrom(rank: nat, size: nat, awards: seq<Award>, k: nat): string
    requires k <= |awards|
    decreases |awards| - k
  {
    if k == |awards| then ""
    else
      var cutoff := Places(size, awards, k + 1);
      if cutoff > 0 && rank <= cutoff then awards[k].name else TierFrom(rank, size, awards, k + 1)
  }

  function TierFor(rank: nat, size: nat, awards: seq<Award>): string {
    TierFrom(rank, size, awards, 0)
  }

  lemma {:induction false} PlacesGrow(size: nat, awards: seq<Award>, j: nat, k: nat)
    requires j <= k <= |awards|
    ensures Places(size, awards, j) <= Places(size, awards, k)
    decreases k
  {
    if j < k {
      PlacesGrow(size, awards, j, k - 1);
    }
  }

  lemma {:induction false} SkipTiers(rank: nat, size: nat, awards: seq<Award>, j: nat, k: nat)
    requires j <= k <= |awards| && rank > Places(size, awards, k)
    ensures TierFrom(rank, size, awards, j) == TierFrom(rank, size, awards, k)
    decreases k - j
  {
    if j < k {
      PlacesGrow(size, awards, j + 1, k);
      SkipTiers(rank, size, awards, j + 1, k);
    }
  }

  /** A place has tier k exactly when it lies behind the places of the tiers before
      and not behind those of k; past all tiers there is no award. */
  lemma TierOfPlace(rank: nat, size: nat, awards: seq<Award>, k: nat)
    requires k < |awards| && rank >= 1
    ensures Places(size, awards, k) < rank <= Places(size, awards, k + 1) ==>
      TierFor(rank, size, awards) == awards[k].name
    ensures rank > Places(size, awards, |awards|) ==> TierFor(rank, size, awards) == ""
  {
    if Places(size, awards, k) < rank <= Places(size, awards, k + 1) {
      SkipTiers(rank, size, awards, 0, k);
    }
    if rank > Places(size, awards, |awards|) {
      SkipTiers(rank, size, awards, 0, |awards|);
    }
  }

  lemma {:induction false} NoTiers(rank: nat, size: nat, awards: seq<Award>)
    requires rank > Places(size, awards, |awards|)
    ensures TierFor(rank, size, awards) == ""
  {
    SkipTiers(rank, size, awards, 0, |awards|);
  }

  method AwardTierFor(rank: nat, size: nat, awards: seq<Award>) returns (name: string)
    ensures name == TierFor(rank, size, awards)
  {
    var cumulative := 0;
    for i := 0 to |awards|
      invariant cumulative == Places(size, awards, i)
      invariant TierFor(rank, size, awards) == TierFrom(rank, size, awards, i)
    {
      cumulative := cumulative + Quota(size, awards[i].topPercent);
      if cumulative > 0 && rank <= cumulative {
        return awards[i].name;
      }
    }
    return "";
  }

  /** The server's two nested loops give every place of the class the tier that the
      demo looks up for it. */
  method AwardTiers(size: nat, awards: seq<Award>) returns (tiers: seq<string>)
    ensures |tiers| == size
    ensures forall i :: 0 <= i < size ==> tiers[i] == TierFor(i + 1, size, awards)
  {
    tiers := seq(size, i => "");
    var next := 0;
    for k := 0 to |awards|
      invariant |tiers| == size && next == Min(size, Places(size, awards, k))
      invariant forall i :: 0 <= i < next ==> tiers[i] == TierFor(i + 1, size, awards)
      invariant forall i :: next <= i < size ==> tiers[i] == ""
    {
      var count := Quota(size, awards[k].topPercent);
      while count > 0 && next < size
        invariant |tiers| == size && next <= size
        invariant next + count == Places(size, awards, k + 1) || (next == size && Places(size, awards, k + 1) >= size)
        invariant next >= Min(size, Places(size, awards, k))
        invariant forall i :: 0 <= i < next ==> tiers[i] == TierFor(i + 1, size, awards)
        invariant forall i :: next <= i < size ==> tiers[i] == ""
        decreases count
      {
        TierOfPlace(next + 1, size, awards, k);
        tiers := tiers[next := awards[k].name];
        next := next + 1;
        count := count - 1;
      }
    }
    forall i | next <= i < size
      ensures tiers[i] == TierFor(i + 1, size, awards)
    {
      NoTiers(i + 1, size, awards);
    }
  }

  /** The places that receive an award. */
  function Awarded(size: nat, awards: seq<Award>): set<nat> {
    set rank: nat | rank in Upto(size) && TierFor(rank, size, awards) != ""
  }

  function Upto(n: nat): (s: set<nat>)
    ensures |s| == n
    ensures forall i: nat {:trigger i in s} :: i in s <==> 1 <= i <= n
  {
    if n == 0 then {} else Upto(n - 1) + {n}
  }

  lemma {:induction false} SomeTier(rank: nat, size: nat, awards: seq<Award>, k: nat)
    requires k <= |awards| && 1 <= rank <= Places(size, awards, |awards|)
    requires forall i :: 0 <= i < |awards| ==> awards[i].name != ""
    ensures k < |awards| || rank <= Places(size, awards, k)
    ensures k < |awards| ==> TierFrom(rank, size, awards, k) != ""
    decreases |awards| - k
  {
    if k < |awards| {
      SomeTier(rank, size, awards, k + 1);
    }
  }

  /** A class of n receives exactly min(n, sum of the rounded tier sizes) awards,
      whatever ties there are. */
  lemma {:induction false} AwardsHandedOut(size: nat, awards: seq<Award>)
    requires forall i :: 0 <= i < |awards| ==> awards[i].name != ""
    ensures |Awarded(size, awards)| == Min(size, Places(size, awards, |awards|))
  {
    var total := Places(size, awards, |awards|);
    forall rank: nat | 1 <= rank <= size
      ensures TierFor(rank, size, awards) != "" <==> rank <= total
    {
      if rank > total {
        NoTiers(rank, size, awards);
      } else if awards != [] {
        SomeTier(rank, size, awards, 0);
      }
    }
    assert Awarded(size, awards) == Upto(Min(size, total));
  }

  /** The places that receive the tier of that name. */
  function Holders(size: nat, awards: seq<Award>, name: string): set<nat> {
    set rank: nat | rank in Upto(size) && TierFor(rank, size, awards) == name
  }

  predicate DistinctNames(awards: seq<Award>) {
    && (forall i :: 0 <= i < |awards| ==> awards[i].name != "")
    && forall i, j :: 0 <= i < j < |awards| ==> awards[i].name != awards[j].name
  }

  lemma {:induction false} TierAtPlace(rank: nat, size: nat, awards: seq<Award>, k: nat)
    requires DistinctNames(awards) && k < |awards| && 1 <= rank
    ensures TierFor(rank, size, awards) == awards[k].name <==>
      Places(size, awards, k) < rank <= Places(size, awards, k + 1)
  {
    TierOfPlace(rank, size, awards, k);
    if rank > Places(size, awards, |awards|) {
      PlacesGrow(size, awards, k + 1, |awards|);
    } else {
      var j := TierThatReaches(rank, size, awards, |awards|);
      TierOfPlace(rank, size, awards, j);
      if j < k {
        PlacesGrow(size, awards, j + 1, k);
      } else if j > k {
        PlacesGrow(size, awards, k + 1, j);
      }
    }
  }

  lemma {:induction false} TierThatReaches(rank: nat, size: nat, awards: seq<Award>, n: nat) returns (j: nat)
    requires n <= |awards| && 1 <= rank <= Places(size, awards, n)
    ensures j < n && Places(size, awards, j) < rank <= Places(size, awards, j + 1)
    decreases n
  {
    if rank <= Places(size, awards, n - 1) {
      j := TierThatReaches(rank, size, awards, n - 1);
    } else {
      j := n - 1;
    }
  }

  /** Every tier is handed out as often as its share of the class says, as long as the
      tiers before it leave so many of the class. */
  lemma {:induction false} TierIsFilled(size: nat, awards: seq<Award>, k: nat)
    requires DistinctNames(awards) && k < |awards|
    ensures |Holders(size, awards, awards[k].name)| ==
      Min(Quota(size, awards[k].topPercent), size - Min(size, Places(size, awards, k)))
  {
    var before, upTo := Min(size, Places(size, awards, k)), Min(size, Places(size, awards, k + 1));
    forall rank: nat | 1 <= rank <= size
      ensures TierFor(rank, size, awards) == awards[k].name <==> before < rank <= upTo
    {
      TierAtPlace(rank, size, awards, k);
    }
    assert Holders(size, awards, awards[k].name) == Upto(upTo) - Upto(before);
    assert Upto(before) <= Upto(upTo);
  }
}
