/** Laws of points, of the score a rule gives a claim, and of looking up an item in the
    scheme (backend/internal/scheme). */
module SchemeLaws {
  import opened Options
  import opened Scheme

  // -------------------------------------------------------------------------- points

  /** Points are the nearest thousandth, the one further from zero where two are equally
      near, the same for a loss as for a gain. */
  lemma NewPointsIsNearest(v: real)
    ensures -0.5 <= NewPoints(v) as real - v * 1000.0 <= 0.5
    ensures v >= 0.0 ==> NewPoints(v) as real - v * 1000.0 > -0.5
    ensures NewPoints(-v) == -NewPoints(v)
  {
  }

  lemma NearestIsNewPoints(v: real, p: int)
    requires -0.5 < p as real - v * 1000.0 < 0.5
    ensures NewPoints(v) == p
  {
    NewPointsIsNearest(v);
  }

  lemma NewPointsMonotone(v: real, w: real)
    requires v <= w
    ensures NewPoints(v) <= NewPoints(w)
  {
    NewPointsIsNearest(v);
    NewPointsIsNearest(w);
  }

  /** Points survive being shown as a number and read back. */
  lemma PointsRoundTrip(p: int)
    ensures NewPoints(Float64(p)) == p
  {
    assert Float64(p) * 1000.0 == p as real;
  }

  // -------------------------------------------------------------------------- claims

  /** A quantity is accepted unless it is missing or negative; it is worth its rate,
      rounded, and never more than the cap. */
  lemma PerUnitScore(rule: ScoreRule, claim: Claim)
    requires rule.kind == PerUnit
    ensures ScoreClaim(rule, claim).Some? <==> claim.quantity.Some? && claim.quantity.value >= 0.0
    ensures ScoreClaim(rule, claim).Some? ==>
      var points, exact := ScoreClaim(rule, claim).value, NewPoints(claim.quantity.value * rule.per);
      && points <= exact && (rule.cap.Some? ==> points <= NewPoints(rule.cap.value))
      && (points == exact || (rule.cap.Some? && points == NewPoints(rule.cap.value)))
  {
  }

  lemma Scaled(less: real, more: real, per: real) returns (x: real, y: real)
    requires per >= 0.0 && less <= more
    ensures x == less * per && y == more * per && x <= y
  {
    x, y := less * per, more * per;
  }

  lemma PerUnitPoints(rule: ScoreRule, quantity: real, exact: real)
    requires rule.kind == PerUnit && quantity >= 0.0 && exact == quantity * rule.per
    ensures var claim := Claim(Some(quantity), "", None);
      && ScoreClaim(rule, claim).Some?
      && ScoreClaim(rule, claim).value ==
           if rule.cap.Some? then Min(NewPoints(exact), NewPoints(rule.cap.value)) else NewPoints(exact)
  {
  }

  /** Where units are worth something or nothing, more of them are never worth less. */
  lemma MoreIsNotLess(rule: ScoreRule, less: real, more: real)
    requires rule.kind == PerUnit && rule.per >= 0.0 && 0.0 <= less <= more
    ensures ScoreClaim(rule, Claim(Some(less), "", None)).value <= ScoreClaim(rule, Claim(Some(more), "", None)).value
  {
    var x, y := Scaled(less, more, rule.per);
    NewPointsMonotone(x, y);
    PerUnitPoints(rule, less, x);
    PerUnitPoints(rule, more, y);
  }

  /** Reaching the minimum earns the award, anything below it nothing. */
  lemma ThresholdScore(rule: ScoreRule, claim: Claim)
    requires rule.kind == Threshold
    ensures ScoreClaim(rule, claim).Some? <==>
      rule.minimum.Some? && rule.award.Some? && claim.quantity.Some? && claim.quantity.value >= 0.0
    ensures ScoreClaim(rule, claim).Some? ==>
      ScoreClaim(rule, claim).value ==
        if claim.quantity.value >= rule.minimum.value then NewPoints(rule.award.value) else 0
  {
  }

  // ------------------------------------------------------------------------- look-up

  /** The first entry of a list with that key. */
  ghost predicate FirstWith<T>(ts: seq<T>, keyOf: T -> string, key: string, t: T) {
    exists k: nat :: k < |ts| && ts[k] == t && keyOf(t) == key && forall j: nat :: j < k ==> keyOf(ts[j]) != key
  }

  lemma FirstWithHere<T>(ts: seq<T>, keyOf: T -> string, key: string, t: T)
    requires ts != []
    ensures FirstWith(ts, keyOf, key, t) <==>
      if keyOf(ts[0]) == key then ts[0] == t else FirstWith(ts[1..], keyOf, key, t)
  {
    if keyOf(ts[0]) == key {
      assert ts[0] == t ==> FirstWith(ts, keyOf, key, t);
    } else {
      if FirstWith(ts, keyOf, key, t) {
        var k: nat :| k < |ts| && ts[k] == t && keyOf(t) == key && forall j: nat :: j < k ==> keyOf(ts[j]) != key;
        assert ts[1..][k - 1] == t;
        assert forall j: nat :: j < k - 1 ==> ts[1..][j] == ts[j + 1];
      }
      if FirstWith(ts[1..], keyOf, key, t) {
        var k: nat :| k < |ts[1..]| && ts[1..][k] == t && keyOf(t) == key
          && forall j: nat :: j < k ==> keyOf(ts[1..][j]) != key;
        assert ts[k + 1] == t;
        assert forall j: nat :: 0 < j < k + 1 ==> ts[j] == ts[1..][j - 1];
      }
    }
  }

  function ItemKey(): Item -> string {
    (i: Item) => i.key
  }

  function BaseKey(): BaseItem -> string {
    (b: BaseItem) => b.key
  }

  lemma {:induction false} FindInIsFirst(items: seq<Item>, key: string)
    ensures forall item :: FindIn(items, key) == Some(item) <==> FirstWith(items, ItemKey(), key, item)
    ensures FindIn(items, key).None? <==> forall item :: item in items ==> item.key != key
  {
    if items != [] {
      FindInIsFirst(items[1..], key);
      forall item
        ensures FindIn(items, key) == Some(item) <==> FirstWith(items, ItemKey(), key, item)
      {
        FirstWithHere(items, ItemKey(), key, item);
      }
    }
  }

  lemma {:induction false} FindBaseIsFirst(items: seq<BaseItem>, key: string)
    ensures forall b :: FindBase(items, key) == Some(b) <==> FirstWith(items, BaseKey(), key, b)
    ensures FindBase(items, key).None? <==> forall b :: b in items ==> b.key != key
  {
    if items != [] {
      FindBaseIsFirst(items[1..], key);
      forall b
        ensures FindBase(items, key) == Some(b) <==> FirstWith(items, BaseKey(), key, b)
      {
        FirstWithHere(items, BaseKey(), key, b);
      }
    }
  }

  /** What a category offers under a key: an item of its own, else what a base item lets
      students claim, else its item for everything else, which the category of imported
      grades does not have. */
  ghost predicate Offers(c: Category, key: string, item: Item) {
    if exists i :: i in c.items && i.key == key then FirstWith(c.items, ItemKey(), key, item)
    else if exists b :: b in c.baseItems && b.key == key then
      exists b :: FirstWith(c.baseItems, BaseKey(), key, b) && b.claimable == Some(item)
    else
      && key == "__other_self_report_" + c.key && c.key != "major"
      && item.key == key && item.rule.kind == Free
      && item.rule.min == Some(0.0) && item.rule.max == Some(c.maxTotal)
      && item == OtherItem(c)
  }

  lemma OffersInOne(c: Category, key: string)
    ensures forall item :: FindItem([c], c.key, key) == Some(item) <==> Offers(c, key, item)
  {
    FindInIsFirst(c.items, key);
    FindBaseIsFirst(c.baseItems, key);
    assert [c][1..] == [];
    forall item
      ensures FindItem([c], c.key, key) == Some(item) <==> Offers(c, key, item)
    {
      if b :| FirstWith(c.baseItems, BaseKey(), key, b) {
        assert FindBase(c.baseItems, key) == Some(b);
      }
      if FindBase(c.baseItems, key).Some? {
        assert FirstWith(c.baseItems, BaseKey(), key, FindBase(c.baseItems, key).value);
      }
    }
  }

  predicate DistinctKeys(cfg: seq<Category>) {
    forall i, j :: 0 <= i < j < |cfg| ==> cfg[i].key != cfg[j].key
  }

  lemma {:induction false} NotThere(cfg: seq<Category>, categoryKey: string, key: string)
    requires forall i :: 0 <= i < |cfg| ==> cfg[i].key != categoryKey
    ensures FindItem(cfg, categoryKey, key).None?
  {
    if cfg != [] {
      NotThere(cfg[1..], categoryKey, key);
    }
  }

  /** With one category for each key, an item is found exactly when the category of that
      key offers it. */
  lemma {:induction false} FoundIsOffered(cfg: seq<Category>, categoryKey: string, key: string, item: Item)
    requires DistinctKeys(cfg)
    ensures FindItem(cfg, categoryKey, key) == Some(item) <==>
      exists i :: 0 <= i < |cfg| && cfg[i].key == categoryKey && Offers(cfg[i], key, item)
  {
    if cfg != [] {
      var rest := cfg[1..];
      if cfg[0].key == categoryKey {
        forall i | 0 <= i < |rest|
          ensures rest[i].key != categoryKey
        {
          assert rest[i] == cfg[i + 1];
        }
        NotThere(rest, categoryKey, key);
        NotThere([], categoryKey, key);
        OffersInOne(cfg[0], key);
        assert [cfg[0]][1..] == [];
        assert FindItem(cfg, categoryKey, key) == FindItem([cfg[0]], categoryKey, key);
      } else {
        FoundIsOffered(rest, categoryKey, key, item);
        if i :| 0 <= i < |rest| && rest[i].key == categoryKey && Offers(rest[i], key, item) {
          assert cfg[i + 1] == rest[i];
        }
        if i :| 0 <= i < |cfg| && cfg[i].key == categoryKey && Offers(cfg[i], key, item) {
          assert rest[i - 1] == cfg[i];
        }
      }
    }
  }

  /** A key is known in the scheme when some category offers an item under it. */
  lemma KnownIsOffered(cfg: seq<Category>, key: string)
    requires DistinctKeys(cfg)
    ensures ItemKeyExists(cfg, key) <==> exists i, item :: 0 <= i < |cfg| && Offers(cfg[i], key, item)
  {
    if i :| 0 <= i < |cfg| && FindItem(cfg, cfg[i].key, key).Some? {
      var item := FindItem(cfg, cfg[i].key, key).value;
      FoundIsOffered(cfg, cfg[i].key, key, item);
    }
    if i, item :| 0 <= i < |cfg| && Offers(cfg[i], key, item) {
      FoundIsOffered(cfg, cfg[i].key, key, item);
    }
  }
}
