/** Fairness and the order of turns leave no choice: they determine the sample
    (backend/internal/aievaluation/evaluation.go). */
module SampleOrder {
  import opened CategoryScore
  import opened CategoryScoreLaws
  import opened Options
  import opened Ranking
  import opened Sampling

  /** No two batches tie. */
  ghost predicate TellsApart(keyBefore: Before<string>, keys: seq<string>) {
    forall a, b :: a in keys && b in keys && !keyBefore(a, b) && !keyBefore(b, a) ==> a == b
  }

  ghost predicate RightSample(assets: seq<Asset>, target: nat, sample: seq<Asset>, keyBefore: Before<string>) {
    FairSample(assets, target, sample) && InTurn(assets, sample, keyBefore)
  }

  // ------------------------------------------------------------------ equal shares

  lemma {:induction false} SampleBatches(assets: seq<Asset>, sample: seq<Asset>)
    requires multiset(sample) <= multiset(assets)
    ensures forall a :: a in sample ==> a.batch in Batches(assets)
    ensures Sum(Batches(assets), SizeIn(sample)) == |sample|
  {
    BatchesFacts(assets);
    forall a | a in sample
      ensures a.batch in Batches(assets)
    {
      assert a in multiset(sample);
      assert a in multiset(assets);
    }
    SizesAddUp(sample, Batches(assets));
  }

  lemma {:induction false} SumLess(ts: seq<string>, f: string -> int, g: string -> int, t: string)
    requires t in ts && f(t) < g(t) && forall u :: u in ts ==> f(u) <= g(u)
    ensures Sum(ts, f) < Sum(ts, g)
    decreases |ts|
  {
    var n := |ts| - 1;
    if t in ts[..n] {
      SumLess(ts[..n], f, g, t);
    } else {
      SumAtMost(ts[..n], f, g);
    }
  }

  lemma {:induction false} SumAtMost(ts: seq<string>, f: string -> int, g: string -> int)
    requires forall u :: u in ts ==> f(u) <= g(u)
    ensures Sum(ts, f) <= Sum(ts, g)
    decreases |ts|
  {
    if ts != [] {
      SumAtMost(ts[..|ts| - 1], f, g);
    }
  }

  lemma ShareFacts(assets: seq<Asset>, target: nat, r: seq<Asset>, keyBefore: Before<string>, a: string, b: string)
    requires RightSample(assets, target, r, keyBefore) && a in Batches(assets) && b in Batches(assets)
    ensures |Of(r, a)| <= |Batch(assets, a)|
    ensures |Of(r, a)| <= |Of(r, b)| + 1 || |Of(r, b)| == |Batch(assets, b)|
    ensures |Of(r, a)| <= |Of(r, b)| || |Of(r, b)| == |Batch(assets, b)| || !keyBefore(b, a)
  {
    assert Prefixes(Of(r, a), Batch(assets, a));
  }

  /** Who takes less from one batch takes more from another. */
  lemma {:induction false} MoreElsewhere(assets: seq<Asset>, r: seq<Asset>, s: seq<Asset>, b: string) returns (a: string)
    requires multiset(r) <= multiset(assets) && multiset(s) <= multiset(assets) && |r| == |s|
    requires b in Batches(assets) && |Of(r, b)| < |Of(s, b)|
    ensures a in Batches(assets) && |Of(r, a)| > |Of(s, a)|
  {
    var keys := Batches(assets);
    SampleBatches(assets, r);
    SampleBatches(assets, s);
    if forall c :: c in keys ==> SizeIn(r)(c) <= SizeIn(s)(c) {
      SumLess(keys, SizeIn(r), SizeIn(s), b);
      assert false;
    }
    a :| a in keys && SizeIn(r)(a) > SizeIn(s)(a);
  }

  /** Of two right samples neither takes more from a batch. */
  lemma NoLargerShare(assets: seq<Asset>, target: nat, r: seq<Asset>, s: seq<Asset>,
                      keyBefore: Before<string>, b: string)
    requires RightSample(assets, target, r, keyBefore) && RightSample(assets, target, s, keyBefore)
    requires TellsApart(keyBefore, Batches(assets)) && b in Batches(assets)
    ensures |Of(r, b)| >= |Of(s, b)|
  {
    if |Of(r, b)| < |Of(s, b)| {
      var a := MoreElsewhere(assets, r, s, b);
      ShareFacts(assets, target, r, keyBefore, a, b);
      ShareFacts(assets, target, s, keyBefore, b, a);
      assert false;
    }
  }

  lemma {:induction false} EqualShares(assets: seq<Asset>, target: nat, r: seq<Asset>, s: seq<Asset>,
                                       keyBefore: Before<string>, b: string)
    requires RightSample(assets, target, r, keyBefore) && RightSample(assets, target, s, keyBefore)
    requires TellsApart(keyBefore, Batches(assets)) && b in Batches(assets)
    ensures Of(r, b) == Of(s, b)
  {
    NoLargerShare(assets, target, r, s, keyBefore, b);
    NoLargerShare(assets, target, s, r, keyBefore, b);
    assert Prefixes(Of(r, b), Batch(assets, b)) && Prefixes(Of(s, b), Batch(assets, b));
  }

  // -------------------------------------------------------------------- equal order

  /** When a batch has more to come, its next asset stands somewhere behind. */
  lemma {:induction false} NextStands(sample: seq<Asset>, k: nat, b: string) returns (j: nat)
    requires k <= |sample| && |Of(sample[..k], b)| < |Of(sample, b)|
    ensures k <= j < |sample| && sample[j].batch == b && Of(sample[..j], b) == Of(sample[..k], b)
    decreases |sample| - k
  {
    assert sample[..|sample|] == sample;
    if sample[k].batch == b {
      j := k;
    } else {
      assert sample[..k + 1] == sample[..k] + [sample[k]];
      OfSnoc(sample[..k], sample[k], b);
      j := NextStands(sample, k + 1, b);
    }
  }

  /** The asset at an index is the one of its batch whose turn it is. */
  lemma {:induction false} StandsAtItsTurn(sample: seq<Asset>, k: nat)
    requires k < |sample|
    ensures var b := sample[k].batch;
      Turn(sample, k) < |Of(sample, b)| && sample[k] == Of(sample, b)[Turn(sample, k)]
    decreases |sample| - k
  {
    var b := sample[k].batch;
    var upTo := sample[..k + 1];
    assert upTo == sample[..k] + [sample[k]];
    OfSnoc(sample[..k], sample[k], b);
    OfGrows(sample, k + 1, b);
  }

  lemma {:induction false} OfGrows(sample: seq<Asset>, k: nat, b: string)
    requires k <= |sample|
    ensures Prefixes(Of(sample[..k], b), Of(sample, b))
    decreases |sample|
  {
    if k == |sample| {
      assert sample[..k] == sample;
    } else {
      var init := sample[..|sample| - 1];
      OfGrows(init, k, b);
      assert init[..k] == sample[..k];
    }
  }

  lemma NotBefore(assets: seq<Asset>, s: seq<Asset>, keyBefore: Before<string>, k: nat, a: Asset)
    requires InTurn(assets, s, keyBefore) && k < |s| && a.batch != s[k].batch
    requires |Of(s[..k], a.batch)| < |Of(s, a.batch)|
    ensures Turn(s, k) < |Of(s[..k], a.batch)|
      || (Turn(s, k) == |Of(s[..k], a.batch)| && !keyBefore(a.batch, s[k].batch))
  {
    var j := NextStands(s, k, a.batch);
    assert Turn(s, j) == |Of(s[..k], a.batch)|;
  }

  lemma {:induction false} SameNext(assets: seq<Asset>, r: seq<Asset>, s: seq<Asset>, keyBefore: Before<string>, k: nat)
    requires InTurn(assets, r, keyBefore) && InTurn(assets, s, keyBefore) && TellsApart(keyBefore, Batches(assets))
    requires k < |r| && k < |s| && r[..k] == s[..k]
    requires r[k].batch in Batches(assets) && s[k].batch in Batches(assets)
    requires forall b :: b in Batches(assets) ==> Of(r, b) == Of(s, b)
    ensures r[k] == s[k]
  {
    StandsAtItsTurn(r, k);
    StandsAtItsTurn(s, k);
    if r[k].batch != s[k].batch {
      NotBefore(assets, s, keyBefore, k, r[k]);
      NotBefore(assets, r, keyBefore, k, s[k]);
      assert false;
    }
  }

  lemma {:induction false} FirstDifference(r: seq<Asset>, s: seq<Asset>) returns (k: nat)
    requires |r| == |s| && r != s
    ensures k < |r| && r[..k] == s[..k] && r[k] != s[k]
    decreases |r|
  {
    var n := |r| - 1;
    assert r == r[..n] + [r[n]] && s == s[..n] + [s[n]];
    if r[..n] == s[..n] {
      k := n;
    } else {
      k := FirstDifference(r[..n], s[..n]);
      assert r[..k] == r[..n][..k] && s[..k] == s[..n][..k];
    }
  }

  /** There is only one fair sample that takes its assets in turn. */
  lemma {:induction false} SampleIsUnique(assets: seq<Asset>, target: nat, r: seq<Asset>, s: seq<Asset>,
                                          keyBefore: Before<string>)
    requires RightSample(assets, target, r, keyBefore) && RightSample(assets, target, s, keyBefore)
    requires TellsApart(keyBefore, Batches(assets))
    ensures r == s
  {
    SampleBatches(assets, r);
    SampleBatches(assets, s);
    forall b | b in Batches(assets)
      ensures Of(r, b) == Of(s, b)
    {
      EqualShares(assets, target, r, s, keyBefore, b);
    }
    if r != s {
      var k := FirstDifference(r, s);
      SameNext(assets, r, s, keyBefore, k);
      assert false;
    }
  }
}
