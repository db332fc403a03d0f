/** Drawing an evaluation sample round-robin from the upload batches
    (backend/internal/aievaluation/evaluation.go). */
module Sampling {
  import opened CategoryScore
  import opened CategoryScoreLaws
  import opened Options
  import opened Ranking

  /** A file; files of equal hashes were dropped as duplicates before. */
  datatype Asset = Asset(path: string, sha256: string, batch: string)

  // --------------------------------------------------------------------- the order

  /** The order of strings. */
  predicate Less(a: string, b: string) {
    b != [] && (a == [] || a[0] < b[0] || (a[0] == b[0] && Less(a[1..], b[1..])))
  }

  function ByHash(): Before<Asset> {
    (a: Asset, b: Asset) => Less(a.sha256, b.sha256)
  }

  lemma {:induction false} LessOneWay(a: string, b: string)
    requires Less(a, b)
    ensures !Less(b, a)
  {
    if a != [] && a[0] == b[0] {
      LessOneWay(a[1..], b[1..]);
    }
  }

  lemma {:induction false} LessThrough(a: string, b: string, c: string)
    requires !Less(a, b) && !Less(b, c)
    ensures !Less(a, c)
  {
    if a != [] && b != [] && c != [] && a[0] == b[0] == c[0] {
      LessThrough(a[1..], b[1..], c[1..]);
    }
  }

  lemma HashesOrder()
    ensures StrictWeak(ByHash())
  {
    forall a: Asset, b: Asset | ByHash()(a, b)
      ensures !ByHash()(b, a)
    {
      LessOneWay(a.sha256, b.sha256);
    }
    forall a: Asset, b: Asset, c: Asset | !ByHash()(a, b) && !ByHash()(b, c)
      ensures !ByHash()(a, c)
    {
      LessThrough(a.sha256, b.sha256, c.sha256);
    }
  }

  // ------------------------------------------------------------------------ batches

  /** The assets of one batch, in the order given. */
  function Of(assets: seq<Asset>, batch: string): seq<Asset> {
    if assets == [] then []
    else
      Of(assets[..|assets| - 1], batch) +
      if assets[|assets| - 1].batch == batch then [assets[|assets| - 1]] else []
  }

  lemma {:induction false} OfSnoc(assets: seq<Asset>, a: Asset, batch: string)
    ensures Of(assets + [a], batch) == Of(assets, batch) + if a.batch == batch then [a] else []
  {
    assert (assets + [a])[..|assets|] == assets;
  }

  /** The assets of a batch in the order of their hashes. */
  function Batch(assets: seq<Asset>, batch: string): seq<Asset> {
    Sorted(Of(assets, batch), ByHash())
  }

  function Batches(assets: seq<Asset>): seq<string> {
    if assets == [] then []
    else
      var rest, b := Batches(assets[..|assets| - 1]), assets[|assets| - 1].batch;
      if b in rest then rest else rest + [b]
  }

  /** What makes a sample fair: it is as large as it may be, takes nothing twice,
      takes the first assets of each batch in the order of their hashes, so that
      nothing is left in a batch that comes before what was taken, and takes at most
      one more from a batch than from any other that has something left. */
  ghost predicate FairSample(assets: seq<Asset>, target: nat, sample: seq<Asset>) {
    && |sample| == Min(target, |assets|)
    && multiset(sample) <= multiset(assets)
    && (forall b :: b in Batches(assets) ==> Prefixes(Of(sample, b), Batch(assets, b)))
    && (forall a, c :: a in sample && c in multiset(assets) - multiset(sample) && c.batch == a.batch ==>
          !Less(c.sha256, a.sha256))
    && forall a, b :: a in Batches(assets) && b in Batches(assets) ==>
         |Of(sample, a)| <= |Of(sample, b)| + 1 || |Of(sample, b)| == |Batch(assets, b)|
  }

  /** How many assets of its batch were taken before the one at an index. */
  function Turn(sample: seq<Asset>, i: nat): nat
    requires i < |sample|
  {
    |Of(sample[..i], sample[i].batch)|
  }

  /** The order in which a sample is taken: earlier turns first, and within a turn, as
      with the last turn that some batches are left out of, in the order of the batches. */
  ghost predicate InTurn(assets: seq<Asset>, sample: seq<Asset>, keyBefore: Before<string>) {
    && (forall i, j :: 0 <= i < j < |sample| ==>
          Turn(sample, i) < Turn(sample, j)
          || (Turn(sample, i) == Turn(sample, j) && !keyBefore(sample[j].batch, sample[i].batch)))
    && forall a, b :: a in Batches(assets) && b in Batches(assets) && keyBefore(b, a) ==>
         |Of(sample, a)| <= |Of(sample, b)| || |Of(sample, b)| == |Batch(assets, b)|
  }

  // -------------------------------------------------------------------- grouping

  lemma {:induction false} BatchesFacts(assets: seq<Asset>)
    ensures Distinct(Batches(assets))
    ensures forall a :: a in assets ==> a.batch in Batches(assets)
    decreases |assets|
  {
    if assets != [] {
      BatchesFacts(assets[..|assets| - 1]);
    }
  }

  lemma {:induction false} OfAbsent(assets: seq<Asset>, batch: string)
    requires batch !in Batches(assets)
    ensures Of(assets, batch) == []
    decreases |assets|
  {
    if assets != [] {
      OfAbsent(assets[..|assets| - 1], batch);
    }
  }

  lemma {:induction false} OfCounts(assets: seq<Asset>, a: Asset, batch: string)
    ensures multiset(Of(assets, batch))[a] == if a.batch == batch then multiset(assets)[a] else 0
    decreases |assets|
  {
    if assets != [] {
      assert assets == assets[..|assets| - 1] + [assets[|assets| - 1]];
      OfCounts(assets[..|assets| - 1], a, batch);
    }
  }

  function SizeIn(assets: seq<Asset>): string -> int {
    (batch: string) => |Of(assets, batch)|
  }

  /** The sizes of the batches add up to the whole. */
  lemma {:induction false} SizesAddUp(assets: seq<Asset>, keys: seq<string>)
    requires Distinct(keys) && forall a :: a in assets ==> a.batch in keys
    ensures Sum(keys, SizeIn(assets)) == |assets|
    decreases |assets|
  {
    if assets == [] {
      SumZero(keys, SizeIn(assets));
    } else {
      var init, last := assets[..|assets| - 1], assets[|assets| - 1];
      SizesAddUp(init, keys);
      assert last in assets;
      SumChangedAt(keys, last.batch, SizeIn(init), SizeIn(assets));
    }
  }

  method GroupByBatch(assets: seq<Asset>) returns (keys: seq<string>, groups: map<string, seq<Asset>>)
    ensures keys == Batches(assets)
    ensures forall b :: b in keys <==> b in groups
    ensures forall b :: b in groups ==> groups[b] == Of(assets, b)
  {
    keys, groups := [], map[];
    for i := 0 to |assets|
      invariant keys == Batches(assets[..i])
      invariant forall b :: b in keys <==> b in groups
      invariant forall b :: b in groups ==> groups[b] == Of(assets[..i], b)
    {
      assert assets[..i + 1][..i] == assets[..i];
      var asset := assets[i];
      if asset.batch !in groups {
        OfAbsent(assets[..i], asset.batch);
        keys := keys + [asset.batch];
        groups := groups[asset.batch := []];
      }
      groups := groups[asset.batch := groups[asset.batch] + [asset]];
    }
    assert assets[..|assets|] == assets;
  }

  method SortGroups(keys: seq<string>, groups: map<string, seq<Asset>>)
    returns (sorted: map<string, seq<Asset>>)
    requires forall b :: b in keys ==> b in groups
    ensures forall b :: b in keys ==> b in sorted && sorted[b] == Sorted(groups[b], ByHash())
    ensures forall b :: b in sorted ==> b in keys
  {
    sorted := map[];
    for i := 0 to |keys|
      invariant forall k :: 0 <= k < i ==> keys[k] in sorted && sorted[keys[k]] == Sorted(groups[keys[k]], ByHash())
      invariant forall b :: b in sorted ==> b in keys
    {
      sorted := sorted[keys[i] := Sorted(groups[keys[i]], ByHash())];
    }
  }

  // ------------------------------------------------------------------- the rounds

  /** How many assets of a batch of that size have been taken when the round stands
      at the given place. */
  function Taken(i: nat, round: nat, place: nat, size: nat): nat {
    Min(if i < place then round + 1 else round, size)
  }

  ghost predicate Known(keys: seq<string>, groups: map<string, seq<Asset>>) {
    && Distinct(keys)
    && (forall i :: 0 <= i < |keys| ==> keys[i] in groups)
    && forall b, a :: b in groups && a in groups[b] ==> a.batch == b
  }

  ghost predicate RoundState(sample: seq<Asset>, keys: seq<string>, groups: map<string, seq<Asset>>, round: nat,
                             place: nat)
    requires forall i :: 0 <= i < |keys| ==> keys[i] in groups
  {
    && (forall a :: a in sample ==> a.batch in keys)
    && forall i: nat {:trigger Of(sample, keys[i])} :: i < |keys| ==>
         Of(sample, keys[i]) == groups[keys[i]][..Taken(i, round, place, |groups[keys[i]]|)]
  }

  predicate Earlier(turn: nat, place: nat, turn': nat, place': nat) {
    turn < turn' || (turn == turn' && place < place')
  }

  /** Everything was taken before the round stands where it stands, in this order. */
  ghost predicate TakenSoFar(sample: seq<Asset>, keys: seq<string>, round: nat, place: nat) {
    && (forall i: nat, p: nat {:trigger Turn(sample, i), keys[p]} :: i < |sample| && p < |keys| && sample[i].batch == keys[p] ==>
          Earlier(Turn(sample, i), p, round, place))
    && forall i: nat, j: nat, p: nat, q: nat {:trigger Turn(sample, i), Turn(sample, j), keys[p], keys[q]} ::
         i < j < |sample| && p < |keys| && q < |keys| && sample[i].batch == keys[p] && sample[j].batch == keys[q] ==>
         Earlier(Turn(sample, i), p, Turn(sample, j), q)
  }

  lemma {:induction false} TakenNow(sample: seq<Asset>, keys: seq<string>, a: Asset, round: nat, place: nat)
    requires Distinct(keys) && place < |keys| && a.batch == keys[place] && |Of(sample, a.batch)| == round
    requires TakenSoFar(sample, keys, round, place)
    ensures TakenSoFar(sample + [a], keys, round, place + 1)
  {
    var s := sample + [a];
    forall i: nat | i < |s|
      ensures Turn(s, i) == if i < |sample| then Turn(sample, i) else round
    {
      assert s[..i] == sample[..i];
      assert sample[..|sample|] == sample;
    }
    forall i: nat, p: nat | i < |s| && p < |keys| && s[i].batch == keys[p]
      ensures Earlier(Turn(s, i), p, round, place + 1)
      ensures i < |sample| ==> Earlier(Turn(s, i), p, round, place)
    {
      if i < |sample| {
        assert sample[i] == s[i];
      }
    }
    forall i: nat, j: nat, p: nat, q: nat
      | i < j < |s| && p < |keys| && q < |keys| && s[i].batch == keys[p] && s[j].batch == keys[q]
      ensures Earlier(Turn(s, i), p, Turn(s, j), q)
    {
      assert sample[i] == s[i];
      if j < |sample| {
        assert sample[j] == s[j];
      } else {
        assert q == place;
      }
    }
  }

  lemma TakeOne(sample: seq<Asset>, keys: seq<string>, groups: map<string, seq<Asset>>, round: nat, place: nat)
    requires Known(keys, groups) && place < |keys| && RoundState(sample, keys, groups, round, place)
    requires round < |groups[keys[place]]|
    ensures RoundState(sample + [groups[keys[place]][round]], keys, groups, round, place + 1)
  {
    var a := groups[keys[place]][round];
    assert a in groups[keys[place]];
    forall i: nat | i < |keys|
      ensures Of(sample + [a], keys[i]) == groups[keys[i]][..Taken(i, round, place + 1, |groups[keys[i]]|)]
    {
      OfSnoc(sample, a, keys[i]);
      if i == place {
        assert groups[keys[i]][..round] + [a] == groups[keys[i]][..round + 1];
      } else {
        assert keys[i] != keys[place];
      }
    }
  }

  lemma SkipOne(sample: seq<Asset>, keys: seq<string>, groups: map<string, seq<Asset>>, round: nat, place: nat)
    requires Known(keys, groups) && place < |keys| && RoundState(sample, keys, groups, round, place)
    requires round >= |groups[keys[place]]|
    ensures RoundState(sample, keys, groups, round, place + 1)
  {
    forall i: nat | i < |keys|
      ensures Of(sample, keys[i]) == groups[keys[i]][..Taken(i, round, place + 1, |groups[keys[i]]|)]
    {
    }
  }

  lemma NextRound(sample: seq<Asset>, keys: seq<string>, groups: map<string, seq<Asset>>, round: nat)
    requires Known(keys, groups) && RoundState(sample, keys, groups, round, |keys|)
    ensures RoundState(sample, keys, groups, round + 1, 0)
  {
    forall i: nat | i < |keys|
      ensures Of(sample, keys[i]) == groups[keys[i]][..Taken(i, round + 1, 0, |groups[keys[i]]|)]
    {
    }
  }

  /** The next asset of one batch, if there is one. */
  method PlayBatch(keys: seq<string>, groups: map<string, seq<Asset>>, round: nat, place: nat, sample: seq<Asset>)
    returns (result: seq<Asset>, took: bool)
    requires Known(keys, groups) && place < |keys| && RoundState(sample, keys, groups, round, place)
    requires TakenSoFar(sample, keys, round, place)
    ensures RoundState(result, keys, groups, round, place + 1) && TakenSoFar(result, keys, round, place + 1)
    ensures |result| == |sample| + (if took then 1 else 0) && (took <==> round < |groups[keys[place]]|)
  {
    var group := groups[keys[place]];
    took := round < |group|;
    if took {
      TakeOne(sample, keys, groups, round, place);
      assert group[round] in group;
      TakenNow(sample, keys, group[round], round, place);
      result := sample + [group[round]];
    } else {
      SkipOne(sample, keys, groups, round, place);
      result := sample;
    }
  }

  /** One round over the batches, until the sample is full. */
  method PlayRound(keys: seq<string>, groups: map<string, seq<Asset>>, round: nat, sample: seq<Asset>, target: nat)
    returns (result: seq<Asset>, added: bool, place: nat)
    requires Known(keys, groups) && RoundState(sample, keys, groups, round, 0) && |sample| < target
    requires TakenSoFar(sample, keys, round, 0)
    ensures place <= |keys| && RoundState(result, keys, groups, round, place) && TakenSoFar(result, keys, round, place)
    ensures |sample| <= |result| <= target && (added <==> |result| > |sample|)
    ensures |result| < target ==> place == |keys|
    ensures !added ==> forall i :: 0 <= i < |keys| ==> round >= |groups[keys[i]]|
  {
    result, added, place := sample, false, 0;
    while place < |keys|
      invariant place <= |keys| && RoundState(result, keys, groups, round, place)
      invariant TakenSoFar(result, keys, round, place)
      invariant |sample| <= |result| < target && (added <==> |result| > |sample|)
      invariant !added ==> forall i :: 0 <= i < place ==> round >= |groups[keys[i]]|
      decreases |keys| - place
    {
      var took;
      result, took := PlayBatch(keys, groups, round, place, result);
      place := place + 1;
      if took {
        added := true;
        if |result| == target {
          return;
        }
      }
    }
  }

  /** A batch's part of the sample. */
  lemma {:induction false} PartOfBatch(keys: seq<string>, groups: map<string, seq<Asset>>, sample: seq<Asset>,
                                       round: nat, place: nat, b: string)
    requires Known(keys, groups) && RoundState(sample, keys, groups, round, place) && b in keys
    ensures Prefixes(Of(sample, b), groups[b])
    ensures |Of(sample, b)| == |groups[b]| || round <= |Of(sample, b)| <= round + 1
    ensures |Of(sample, b)| <= round + 1
  {
    var i: nat :| i < |keys| && keys[i] == b;
  }

  /** The state of a round takes nothing more often than it was given. */
  lemma StateWithin(assets: seq<Asset>, keys: seq<string>,
                    groups: map<string, seq<Asset>>, sample: seq<Asset>, round: nat, place: nat, a: Asset)
    requires Known(keys, groups) && RoundState(sample, keys, groups, round, place)
    requires forall b :: b in keys ==> b in groups && groups[b] == Batch(assets, b)
    ensures multiset(sample)[a] <= multiset(assets)[a]
  {
    OfCounts(sample, a, a.batch);
    OfCounts(assets, a, a.batch);
    SortedPermutes(Of(assets, a.batch), ByHash());
    if a.batch in keys {
      PartOfBatch(keys, groups, sample, round, place, a.batch);
      PrefixCounts(groups[a.batch], |Of(sample, a.batch)|, a);
    } else {
      assert a !in sample;
    }
  }

  /** What is left of a batch stands behind what was taken. */
  lemma LeftIsBehind(sorted: seq<Asset>, taken: seq<Asset>, a: Asset, c: Asset)
    requires Prefixes(taken, sorted) && a in taken && multiset(sorted)[c] > multiset(taken)[c]
    ensures exists i, j :: 0 <= i < j < |sorted| && sorted[i] == a && sorted[j] == c
  {
    var rest := sorted[|taken|..];
    assert sorted == taken + rest;
    assert c in multiset(rest);
    var i :| 0 <= i < |taken| && taken[i] == a;
    var j :| 0 <= j < |rest| && rest[j] == c;
    assert sorted[i] == a && sorted[|taken| + j] == c;
  }

  /** Nothing that is left of a batch has a smaller hash than what was taken. */
  lemma {:induction false} TakesSmallest(assets: seq<Asset>, sample: seq<Asset>, a: Asset, c: Asset)
    requires Prefixes(Of(sample, a.batch), Batch(assets, a.batch))
    requires a in sample && c in multiset(assets) - multiset(sample) && c.batch == a.batch
    ensures !Less(c.sha256, a.sha256)
  {
    var sorted, taken := Batch(assets, a.batch), Of(sample, a.batch);
    OfCounts(sample, a, a.batch);
    OfCounts(sample, c, a.batch);
    OfCounts(assets, c, a.batch);
    SortedPermutes(Of(assets, a.batch), ByHash());
    assert a in multiset(taken);
    LeftIsBehind(sorted, taken, a, c);
    var i, j :| 0 <= i < j < |sorted| && sorted[i] == a && sorted[j] == c;
    HashesOrder();
    SortedIsOrdered(Of(assets, a.batch), ByHash());
    assert !ByHash()(sorted[j], sorted[i]);
  }

  /** The state of a round is a fair sample of everything. */
  lemma {:induction false} StateIsFair(assets: seq<Asset>, target: nat, keys: seq<string>,
                    groups: map<string, seq<Asset>>, sample: seq<Asset>, round: nat, place: nat)
    requires Known(keys, groups) && RoundState(sample, keys, groups, round, place)
    requires forall b :: b in keys <==> b in Batches(assets)
    requires forall b :: b in keys ==> b in groups && groups[b] == Batch(assets, b)
    requires |sample| == Min(target, |assets|)
    ensures FairSample(assets, target, sample)
  {
    forall a
      ensures multiset(sample)[a] <= multiset(assets)[a]
    {
      StateWithin(assets, keys, groups, sample, round, place, a);
    }
    forall b | b in keys
      ensures Prefixes(Of(sample, b), Batch(assets, b))
      ensures |Of(sample, b)| == |Batch(assets, b)| || round <= |Of(sample, b)|
      ensures |Of(sample, b)| <= round + 1
    {
      PartOfBatch(keys, groups, sample, round, place, b);
    }
    forall a, c | a in sample && c in multiset(assets) - multiset(sample) && c.batch == a.batch
      ensures !Less(c.sha256, a.sha256)
    {
      TakesSmallest(assets, sample, a, c);
    }
  }

  lemma PrefixCounts(s: seq<Asset>, n: nat, a: Asset)
    requires n <= |s|
    ensures multiset(s[..n])[a] <= multiset(s)[a]
  {
    assert s == s[..n] + s[n..];
  }

  /** When a whole round adds nothing, everything has been taken. */
  lemma ExhaustedIsAll(assets: seq<Asset>, keys: seq<string>, groups: map<string, seq<Asset>>,
                       sample: seq<Asset>, round: nat)
    requires Known(keys, groups) && RoundState(sample, keys, groups, round, |keys|)
    requires forall a :: a in assets ==> a.batch in keys
    requires forall b :: b in keys ==> b in groups && groups[b] == Batch(assets, b)
    requires forall i :: 0 <= i < |keys| ==> round >= |groups[keys[i]]|
    ensures |sample| == |assets|
  {
    SizesAddUp(sample, keys);
    SizesAddUp(assets, keys);
    forall i | 0 <= i < |keys|
      ensures SizeIn(sample)(keys[i]) == SizeIn(assets)(keys[i])
    {
      assert keys[i] in keys;
      SortedPermutes(Of(assets, keys[i]), ByHash());
      assert |Of(sample, keys[i])| == |groups[keys[i]]|;
    }
    SumCongruent(keys, SizeIn(sample), SizeIn(assets));
  }

  method SampleByBatch(assets: seq<Asset>, target: nat, keyBefore: Before<string>)
    returns (result: seq<Asset>)
    ensures FairSample(assets, target, result)
    ensures StrictWeak(keyBefore) ==> InTurn(assets, result, keyBefore)
  {
    var found, unsorted := GroupByBatch(assets);
    var groups := SortGroups(found, unsorted);
    var keys := Sorted(found, keyBefore);
    SortedKeys(assets, keyBefore);
    GroupsKnown(assets, keys, groups);
    BatchesFacts(assets);
    result := Rounds(assets, keys, groups, Min(target, |assets|));
    StateOf(assets, target, keys, keyBefore, groups, result);
    if StrictWeak(keyBefore) {
      SortedIsOrdered(found, keyBefore);
    }
  }

  /** Some place in some round describes the sample. */
  ghost predicate SomeState(sample: seq<Asset>, keys: seq<string>, groups: map<string, seq<Asset>>)
    requires forall i :: 0 <= i < |keys| ==> keys[i] in groups
  {
    exists round: nat, place: nat :: RoundState(sample, keys, groups, round, place) && TakenSoFar(sample, keys, round, place)
  }

  lemma {:induction false} StateOf(assets: seq<Asset>, target: nat, keys: seq<string>, keyBefore: Before<string>,
                groups: map<string, seq<Asset>>, sample: seq<Asset>)
    requires Known(keys, groups) && SomeState(sample, keys, groups)
    requires forall b :: b in keys <==> b in Batches(assets)
    requires forall b :: b in keys ==> b in groups && groups[b] == Batch(assets, b)
    requires |sample| == Min(target, |assets|)
    ensures FairSample(assets, target, sample)
    ensures Ordered(keys, keyBefore) ==> InTurn(assets, sample, keyBefore)
  {
    var round: nat, place: nat :| RoundState(sample, keys, groups, round, place) && TakenSoFar(sample, keys, round, place);
    StateIsFair(assets, target, keys, groups, sample, round, place);
    if Ordered(keys, keyBefore) {
      StateIsInTurn(assets, keys, keyBefore, groups, sample, round, place);
    }
  }

  /** Any point of any round has taken its assets in turn. */
  lemma {:induction false} StateIsInTurn(assets: seq<Asset>, keys: seq<string>, keyBefore: Before<string>,
                groups: map<string, seq<Asset>>, sample: seq<Asset>, round: nat, place: nat)
    requires Known(keys, groups) && RoundState(sample, keys, groups, round, place) && TakenSoFar(sample, keys, round, place)
    requires forall b :: b in keys <==> b in Batches(assets)
    requires forall b :: b in keys ==> b in groups && groups[b] == Batch(assets, b)
    requires Ordered(keys, keyBefore)
    ensures InTurn(assets, sample, keyBefore)
  {
    forall i, j | 0 <= i < j < |sample|
      ensures Turn(sample, i) < Turn(sample, j)
        || (Turn(sample, i) == Turn(sample, j) && !keyBefore(sample[j].batch, sample[i].batch))
    {
      assert sample[i] in sample && sample[j] in sample;
      var p: nat :| p < |keys| && keys[p] == sample[i].batch;
      var q: nat :| q < |keys| && keys[q] == sample[j].batch;
      assert Earlier(Turn(sample, i), p, Turn(sample, j), q);
    }
    forall a, b | a in keys && b in keys && |Of(sample, b)| < |Of(sample, a)| && |Of(sample, b)| < |Batch(assets, b)|
      ensures !keyBefore(b, a)
    {
      var p: nat :| p < |keys| && keys[p] == a;
      var q: nat :| q < |keys| && keys[q] == b;
      assert p < place <= q;
    }
  }

  lemma {:induction false} SortedKeys(assets: seq<Asset>, keyBefore: Before<string>)
    ensures var keys := Sorted(Batches(assets), keyBefore);
      Distinct(keys) && forall b :: b in keys <==> b in Batches(assets)
  {
    var found := Batches(assets);
    var keys := Sorted(found, keyBefore);
    BatchesFacts(assets);
    SortedPermutes(found, keyBefore);
    SameMembers(found, keys);
    DistinctPermutation(found, keys);
  }

  lemma DistinctPermutation(a: seq<string>, b: seq<string>)
    requires Distinct(a) && multiset(a) == multiset(b)
    ensures Distinct(b)
  {
    forall i, j | 0 <= i < j < |b|
      ensures b[i] != b[j]
    {
      if b[i] == b[j] {
        assert b == b[..i] + [b[i]] + b[i + 1..j] + [b[j]] + b[j + 1..];
        assert multiset(b)[b[i]] >= 2;
        DistinctMultiset(a, b[i]);
      }
    }
  }

  lemma {:induction false} OfMembers(assets: seq<Asset>, batch: string)
    ensures forall a :: a in Of(assets, batch) ==> a.batch == batch
    decreases |assets|
  {
    if assets != [] {
      OfMembers(assets[..|assets| - 1], batch);
    }
  }

  lemma GroupsKnown(assets: seq<Asset>, keys: seq<string>, groups: map<string, seq<Asset>>)
    requires Distinct(keys) && (forall b :: b in keys ==> b in groups)
    requires forall b :: b in groups ==> groups[b] == Batch(assets, b)
    ensures Known(keys, groups)
  {
    forall b, a | b in groups && a in groups[b]
      ensures a.batch == b
    {
      OfMembers(assets, b);
      SortedPermutes(Of(assets, b), ByHash());
      SameMembers(Of(assets, b), groups[b]);
    }
  }

  method Rounds(assets: seq<Asset>, keys: seq<string>, groups: map<string, seq<Asset>>,
                target: nat)
    returns (result: seq<Asset>)
    requires Known(keys, groups) && target <= |assets|
    requires forall a :: a in assets ==> a.batch in keys
    requires forall b :: b in keys ==> b in groups && groups[b] == Batch(assets, b)
    ensures |result| == target && SomeState(result, keys, groups)
  {
    result := [];
    var round, place := 0, 0;
    assert RoundState(result, keys, groups, 0, 0);
    while |result| < target
      invariant |result| <= target && RoundState(result, keys, groups, round, place)
      invariant TakenSoFar(result, keys, round, place)
      invariant |result| < target ==> place == 0
      decreases target - |result|
    {
      var added;
      result, added, place := PlayRound(keys, groups, round, result, target);
      if !added {
        ExhaustedIsAll(assets, keys, groups, result, round);
        break;
      }
      if |result| < target {
        NextRound(result, keys, groups, round);
        round, place := round + 1, 0;
      }
    }
  }
}
