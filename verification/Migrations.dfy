/** Applying and reverting migrations over a table of recorded versions
    (backend/db/migrations/embed.go). A process may end after any transaction. */
module Migrations {
  import opened MigrationCatalog
  import opened Options

  /** The database: some schema, and the versions recorded as applied. */
  datatype Db<S> = Db(schema: S, versions: set<int>)

  /** A script turns one schema into another, or fails and is rolled back. */
  type Scripts<!S> = (string, S) -> Option<S>

  // -------------------------------------------------------------------------- up

  /** The migrations not yet recorded, in order. */
  function Pending(ms: seq<Migration>, versions: set<int>): seq<Migration> {
    if ms == [] then []
    else
      Pending(ms[..|ms| - 1], versions) + if ms[|ms| - 1].version in versions then [] else [ms[|ms| - 1]]
  }

  function Versions(ms: seq<Migration>): set<int> {
    set m | m in ms :: m.version
  }

  /** The schema after the up scripts of these migrations, one after the other. */
  function Applied<S>(schema: S, ms: seq<Migration>, run: Scripts<S>): Option<S> {
    if ms == [] then Some(schema)
    else
      match Applied(schema, ms[..|ms| - 1], run)
      case None => None
      case Some(s) => run(ms[|ms| - 1].upFile, s)
  }

  /** `ran` holds the migrations applied, `going` whether the process goes on. */
  datatype Upgrade<S> = Upgrade(db: Db<S>, ran: seq<Migration>, going: bool, budget: nat)

  function UpOne<S>(u: Upgrade<S>, m: Migration, run: Scripts<S>): Upgrade<S> {
    if !u.going || m.version in u.db.versions then u
    else if u.budget == 0 then u.(going := false)
    else
      match run(m.upFile, u.db.schema)
      case None => u.(going := false)
      case Some(s) => Upgrade(Db(s, u.db.versions + {m.version}), u.ran + [m], true, u.budget - 1)
  }

  /** `budget` is the number of transactions the process lives for. */
  function Up<S>(db: Db<S>, ms: seq<Migration>, run: Scripts<S>, budget: nat): Upgrade<S> {
    if ms == [] then Upgrade(db, [], true, budget)
    else UpOne(Up(db, ms[..|ms| - 1], run, budget), ms[|ms| - 1], run)
  }

  // ------------------------------------------------------------------------ down

  ghost predicate IsLatest(v: int, versions: set<int>) {
    v in versions && forall w :: w in versions ==> w <= v
  }

  function Find(ms: seq<Migration>, version: int): Option<Migration> {
    if ms == [] then None
    else if ms[0].version == version then Some(ms[0])
    else Find(ms[1..], version)
  }

  /** Reverting the version v, the latest one recorded; None on an error, which
      leaves the database alone. */
  function Reverted<S>(db: Db<S>, v: int, ms: seq<Migration>, run: Scripts<S>): Option<Db<S>> {
    match Find(ms, v)
    case None => None
    case Some(m) =>
      match run(m.downFile, db.schema)
      case None => None
      case Some(s) => Some(Db(s, db.versions - {v}))
  }

  // -------------------------------------------------------------------- the database

  class Database<S(!new)> {
    var schema: S
    var versions: set<int>

    constructor (db: Db<S>)
      ensures Value() == db
    {
      schema, versions := db.schema, db.versions;
    }

    ghost function Value(): Db<S>
      reads this
    {
      Db(schema, versions)
    }

    method RunUp(ms: seq<Migration>, run: Scripts<S>, budget: nat) returns (ran: seq<Migration>, going: bool)
      modifies this
      ensures var u := Up(old(Value()), ms, run, budget); Value() == u.db && ran == u.ran && going == u.going
    {
      ran, going := [], true;
      var left := budget;
      ghost var db := Value();
      var i := 0;
      while i < |ms| && going
        invariant i <= |ms|
        invariant Upgrade(Value(), ran, going, left) == Up(db, ms[..i], run, budget)
        decreases |ms| - i
      {
        assert ms[..i + 1][..i] == ms[..i];
        var m := ms[i];
        i := i + 1;
        if m.version in versions {
          continue;
        }
        if left == 0 {
          going := false;
        } else {
          var after := run(m.upFile, schema);
          match after {
            case None =>
              going := false;
            case Some(s) =>
              schema, versions, ran, left := s, versions + {m.version}, ran + [m], left - 1;
          }
        }
      }
      assert ms[..|ms|] == ms;
      StoppedStays(db, ms, run, budget, i);
    }

    /** Reverts the latest version. */
    method RunDownOne(ms: seq<Migration>, run: Scripts<S>) returns (ok: bool, version: int)
      modifies this
      ensures old(versions) == {} ==> !ok && Value() == old(Value())
      ensures old(versions) != {} ==>
        && IsLatest(version, old(versions))
        && var after := Reverted(old(Value()), version, ms, run);
        ok == after.Some? && Value() == if ok then after.value else old(Value())
    {
      if versions == {} {
        return false, 0;
      }
      version := Latest(versions);
      var m := Find(ms, version);
      if m.None? {
        return false, version;
      }
      var after := run(m.value.downFile, schema);
      if after.None? {
        return false, version;
      }
      schema, versions := after.value, versions - {version};
      return true, version;
    }
  }

  method Latest(versions: set<int>) returns (v: int)
    requires versions != {}
    ensures IsLatest(v, versions)
  {
    v := AnyOf(versions);
    var left := versions - {v};
    while left != {}
      invariant v in versions && left <= versions
      invariant forall w :: w in versions ==> w in left || w <= v
      decreases |left|
    {
      var w := AnyOf(left);
      if w > v {
        v := w;
      }
      left := left - {w};
    }
  }

  lemma {:induction false} StoppedStays<S>(db: Db<S>, ms: seq<Migration>, run: Scripts<S>, budget: nat, i: nat)
    requires i <= |ms| && (i == |ms| || !Up(db, ms[..i], run, budget).going)
    ensures Up(db, ms, run, budget) == Up(db, ms[..i], run, budget)
    decreases |ms| - i
  {
    if i == |ms| {
      assert ms[..i] == ms;
    } else {
      assert ms[..i + 1][..i] == ms[..i];
      StoppedStays(db, ms, run, budget, i + 1);
    }
  }

  // --------------------------------------------------------------- wherever it stops

  /** The applied migrations so far are an initial segment of the pending ones, all
      of them if the process goes on. */
  ghost predicate UpSound<S>(db: Db<S>, ms: seq<Migration>, run: Scripts<S>, u: Upgrade<S>) {
    && Prefixes(u.ran, Pending(ms, db.versions))
    && (u.going ==> u.ran == Pending(ms, db.versions))
    && u.db.versions == db.versions + Versions(u.ran)
    && Applied(db.schema, u.ran, run) == Some(u.db.schema)
  }

  lemma {:induction false} PendingMembers(ms: seq<Migration>, versions: set<int>)
    ensures forall m :: m in Pending(ms, versions) <==> m in ms && m.version !in versions
    decreases |ms|
  {
    if ms != [] {
      var init := ms[..|ms| - 1];
      PendingMembers(init, versions);
      assert ms == init + [ms[|ms| - 1]];
    }
  }

  lemma {:induction false} AppliedSnoc<S>(schema: S, ms: seq<Migration>, m: Migration, run: Scripts<S>)
    ensures Applied(schema, ms + [m], run) ==
      match Applied(schema, ms, run)
      case None => None
      case Some(s) => run(m.upFile, s)
  {
    assert (ms + [m])[..|ms|] == ms;
  }

  /** One more migration is applied. */
  lemma RunSound<S>(db: Db<S>, init: seq<Migration>, m: Migration, run: Scripts<S>, u: Upgrade<S>, schema: S)
    requires UpSound(db, init, run, u) && u.going && m.version !in db.versions
    requires run(m.upFile, u.db.schema) == Some(schema)
    ensures UpSound(db, init + [m], run, Upgrade(Db(schema, u.db.versions + {m.version}), u.ran + [m], true, 0))
  {
    assert (init + [m])[..|init|] == init;
    AppliedSnoc(db.schema, u.ran, m, run);
    assert Versions(u.ran + [m]) == Versions(u.ran) + {m.version};
  }

  /** A migration is skipped, or the process ends before it. */
  lemma SkipSound<S>(db: Db<S>, init: seq<Migration>, m: Migration, run: Scripts<S>, u: Upgrade<S>)
    requires UpSound(db, init, run, u) && (u.going ==> m.version in db.versions)
    ensures UpSound(db, init + [m], run, u)
  {
    assert (init + [m])[..|init|] == init;
  }

  lemma UpOneSound<S>(db: Db<S>, init: seq<Migration>, m: Migration, run: Scripts<S>, u: Upgrade<S>)
    requires UpSound(db, init, run, u) && Ascending(init + [m])
    ensures UpSound(db, init + [m], run, UpOne(u, m, run))
  {
    NotYetApplied(db.versions, init, m);
    if !u.going || m.version in u.db.versions {
      SkipSound(db, init, m, run, u);
    } else if u.budget > 0 && run(m.upFile, u.db.schema).Some? {
      RunSound(db, init, m, run, u, run(m.upFile, u.db.schema).value);
    } else {
      SkipSound(db, init, m, run, u.(going := false));
    }
  }

  /** Applying earlier migrations does not record a later one. */
  lemma {:induction false} NotYetApplied(versions: set<int>, init: seq<Migration>, m: Migration)
    requires Ascending(init + [m])
    ensures m.version !in Versions(Pending(init, versions))
  {
    var ms := init + [m];
    PendingMembers(init, versions);
    assert forall k :: 0 <= k < |init| ==> ms[k] == init[k] && ms[k].version < ms[|init|].version;
  }

  /** Wherever an upgrade stops, the recorded versions are the old ones and those of
      an initial segment of the pending migrations, and the schema is what exactly
      their scripts make of the old one. */
  lemma {:induction false} UpStopsAtSegment<S>(db: Db<S>, ms: seq<Migration>, run: Scripts<S>, budget: nat)
    requires Ascending(ms)
    ensures UpSound(db, ms, run, Up(db, ms, run, budget))
    decreases |ms|
  {
    if ms != [] {
      var init := ms[..|ms| - 1];
      assert ms == init + [ms[|ms| - 1]];
      UpStopsAtSegment(db, init, run, budget);
      UpOneSound(db, init, ms[|ms| - 1], run, Up(db, init, run, budget));
    }
  }

  lemma {:induction false} NothingPending<S>(db: Db<S>, ms: seq<Migration>, run: Scripts<S>, budget: nat)
    requires forall m :: m in ms ==> m.version in db.versions
    ensures Up(db, ms, run, budget) == Upgrade(db, [], true, budget)
    decreases |ms|
  {
    if ms != [] {
      assert ms == ms[..|ms| - 1] + [ms[|ms| - 1]];
      NothingPending(db, ms[..|ms| - 1], run, budget);
    }
  }

  /** After an upgrade that came to its end, another one runs nothing. */
  lemma {:induction false} SecondUpRunsNothing<S>(db: Db<S>, ms: seq<Migration>, run: Scripts<S>, budget: nat,
                                                  again: nat)
    requires Ascending(ms) && Up(db, ms, run, budget).going
    ensures var u := Up(db, ms, run, budget);
      Up(u.db, ms, run, again) == Upgrade(u.db, [], true, again)
  {
    UpStopsAtSegment(db, ms, run, budget);
    PendingMembers(ms, db.versions);
    NothingPending(Up(db, ms, run, budget).db, ms, run, again);
  }

  /** The database after one upgrade after the other, each of which may have been
      killed. */
  function AfterUps<S>(db: Db<S>, ms: seq<Migration>, run: Scripts<S>, budgets: seq<nat>): Db<S> {
    if budgets == [] then db
    else Up(AfterUps(db, ms, run, budgets[..|budgets| - 1]), ms, run, budgets[|budgets| - 1]).db
  }

  /** However many upgrades were begun, they have applied an initial segment of what
      was pending before the first. */
  lemma {:induction false} UpsStopAtSegment<S>(db: Db<S>, ms: seq<Migration>, run: Scripts<S>, budgets: seq<nat>)
    returns (ran: seq<Migration>)
    requires Ascending(ms)
    ensures var d := AfterUps(db, ms, run, budgets);
      && ran + Pending(ms, d.versions) == Pending(ms, db.versions)
      && d.versions == db.versions + Versions(ran)
      && Applied(db.schema, ran, run) == Some(d.schema)
    decreases |budgets|
  {
    if budgets == [] {
      ran := [];
    } else {
      var init := budgets[..|budgets| - 1];
      ran := UpsStopAtSegment(db, ms, run, init);
      ran := OneMoreUp(db, AfterUps(db, ms, run, init), ms, run, budgets[|budgets| - 1], ran);
    }
  }

  lemma OneMoreUp<S>(db: Db<S>, d: Db<S>, ms: seq<Migration>, run: Scripts<S>, budget: nat, before: seq<Migration>)
    returns (ran: seq<Migration>)
    requires Ascending(ms) && before + Pending(ms, d.versions) == Pending(ms, db.versions)
    requires d.versions == db.versions + Versions(before) && Applied(db.schema, before, run) == Some(d.schema)
    ensures var u := Up(d, ms, run, budget);
      && ran == before + u.ran && ran + Pending(ms, u.db.versions) == Pending(ms, db.versions)
      && u.db.versions == db.versions + Versions(ran)
      && Applied(db.schema, ran, run) == Some(u.db.schema)
  {
    var u := Up(d, ms, run, budget);
    ran := before + u.ran;
    UpStopsAtSegment(d, ms, run, budget);
    PendingRest(ms, d.versions, u.ran);
    AppliedAppend(db.schema, before, u.ran, run);
    assert Versions(ran) == Versions(before) + Versions(u.ran);
    assert before + u.ran + Pending(ms, u.db.versions) == before + (u.ran + Pending(ms, u.db.versions));
  }

  /** An upgrade that comes to its end ends where a single one would, however many
      upgrades were killed before it. */
  lemma {:induction false} ResumedUp<S>(db: Db<S>, ms: seq<Migration>, run: Scripts<S>, killed: seq<nat>, last: nat,
                                        whole: nat)
    requires Ascending(ms) && Up(db, ms, run, whole).going
    requires Up(AfterUps(db, ms, run, killed), ms, run, last).going
    ensures Up(AfterUps(db, ms, run, killed), ms, run, last).db == Up(db, ms, run, whole).db
  {
    var d := AfterUps(db, ms, run, killed);
    var before := UpsStopAtSegment(db, ms, run, killed);
    UpStopsAtSegment(d, ms, run, last);
    UpStopsAtSegment(db, ms, run, whole);
    AppliedAppend(db.schema, before, Up(d, ms, run, last).ran, run);
    assert Versions(before + Pending(ms, d.versions)) == Versions(before) + Versions(Pending(ms, d.versions));
  }

  lemma {:induction false} AppliedAppend<S>(schema: S, a: seq<Migration>, b: seq<Migration>, run: Scripts<S>)
    requires Applied(schema, a, run).Some?
    ensures Applied(schema, a + b, run) == Applied(Applied(schema, a, run).value, b, run)
    decreases |b|
  {
    if b == [] {
      assert a + b == a;
    } else {
      assert (a + b)[..|a + b| - 1] == a + b[..|b| - 1];
      AppliedAppend(schema, a, b[..|b| - 1], run);
    }
  }

  lemma OlderThanLast(init: seq<Migration>, m: Migration, r: Migration)
    requires Ascending(init + [m]) && r in init
    ensures r.version < m.version
  {
    var ms := init + [m];
    var k :| 0 <= k < |init| && init[k] == r;
    assert ms[k].version < ms[|init|].version;
  }

  lemma {:induction false} SegmentIsOlder(init: seq<Migration>, m: Migration, versions: set<int>, ran: seq<Migration>)
    requires Ascending(init + [m]) && Prefixes(ran, Pending(init, versions))
    ensures m.version !in Versions(ran)
  {
    PendingMembers(init, versions);
    var before := Pending(init, versions);
    forall r | r in ran
      ensures r.version < m.version
    {
      assert r in before;
      OlderThanLast(init, m, r);
    }
  }

  /** What is left after an initial segment of the pending migrations. */
  lemma {:induction false} PendingRest(ms: seq<Migration>, versions: set<int>, ran: seq<Migration>)
    requires Ascending(ms) && Prefixes(ran, Pending(ms, versions))
    ensures ran + Pending(ms, versions + Versions(ran)) == Pending(ms, versions)
    decreases |ms|
  {
    if ran == Pending(ms, versions) {
      NothingLeft(ms, versions, ran);
    } else {
      var n := |ms| - 1;
      var init, m := ms[..n], ms[n];
      assert ms == init + [m];
      SegmentOfInit(ran, Pending(init, versions), if m.version in versions then [] else [m]);
      PendingRest(init, versions, ran);
      SegmentIsOlder(init, m, versions, ran);
      PendingSnoc(init, m, versions);
      PendingSnoc(init, m, versions + Versions(ran));
    }
  }

  /** An initial segment that is not everything does not need the last element. */
  lemma SegmentOfInit(ran: seq<Migration>, before: seq<Migration>, last: seq<Migration>)
    requires Prefixes(ran, before + last) && ran != before + last && |last| <= 1
    ensures Prefixes(ran, before)
  {
    assert |ran| <= |before|;
    assert (before + last)[..|ran|] == before[..|ran|];
  }

  lemma {:induction false} PendingSnoc(init: seq<Migration>, m: Migration, versions: set<int>)
    ensures Pending(init + [m], versions) == Pending(init, versions) + if m.version in versions then [] else [m]
  {
    assert (init + [m])[..|init|] == init;
  }

  lemma {:induction false} NothingLeft(ms: seq<Migration>, versions: set<int>, ran: seq<Migration>)
    requires ran == Pending(ms, versions)
    ensures Pending(ms, versions + Versions(ran)) == []
  {
    PendingMembers(ms, versions);
    PendingMembers(ms, versions + Versions(ran));
    var left := Pending(ms, versions + Versions(ran));
    forall m
      ensures m !in left
    {
      if m in ms && m.version !in versions {
        assert m in ran;
      }
    }
    EmptyHasNone(left);
  }

  // ------------------------------------------------------------------- undoing it

  /** Each down script takes back what its up script does. */
  ghost predicate DownsInvert<S(!new)>(ms: seq<Migration>, run: Scripts<S>) {
    forall m, s {:trigger run(m.upFile, s)} ::
      m in ms && run(m.upFile, s).Some? ==> run(m.downFile, run(m.upFile, s).value) == Some(s)
  }

  /** Reverting the latest version, `times` times; None when one attempt fails. */
  ghost function Downgraded<S(!new)>(db: Db<S>, ms: seq<Migration>, run: Scripts<S>, times: nat): Option<Db<S>>
    decreases times
  {
    if times == 0 then Some(db)
    else if db.versions == {} then None
    else
      LatestExists(db.versions);
      var v :| IsLatest(v, db.versions);
      match Reverted(db, v, ms, run)
      case None => None
      case Some(d) => Downgraded(d, ms, run, times - 1)
  }

  lemma {:induction false} LatestExists(versions: set<int>)
    requires versions != {}
    ensures exists v :: IsLatest(v, versions)
    decreases |versions|
  {
    var w := SomeMember(versions);
    var rest := versions - {w};
    assert forall x :: x in versions ==> x == w || x in rest;
    if rest == {} {
      assert IsLatest(w, versions);
    } else {
      LatestExists(rest);
      var v :| IsLatest(v, rest);
      assert IsLatest(if v > w then v else w, versions);
    }
  }

  lemma {:induction false} FindsIt(ms: seq<Migration>, m: Migration)
    requires Ascending(ms) && m in ms
    ensures Find(ms, m.version) == Some(m)
  {
    if ms[0] != m {
      var k :| 0 <= k < |ms| && ms[k] == m;
      assert k > 0 && ms[1..][k - 1] == m;
      FindsIt(ms[1..], m);
    }
  }

  /** The migrations that were applied: some of the catalog, in order, newer than
      what was there. */
  ghost predicate NewerThan(ran: seq<Migration>, ms: seq<Migration>, versions: set<int>) {
    && Ascending(ran)
    && (forall m :: m in ran ==> m in ms)
    && forall m, w :: m in ran && w in versions ==> w < m.version
  }

  lemma {:induction false} RevertsLatest<S(!new)>(now: Db<S>, ms: seq<Migration>, run: Scripts<S>, m: Migration,
                                           before: S)
    requires IsLatest(m.version, now.versions) && Find(ms, m.version) == Some(m) && m in ms
    requires DownsInvert(ms, run) && run(m.upFile, before) == Some(now.schema)
    ensures forall v :: IsLatest(v, now.versions) ==>
      Reverted(now, v, ms, run) == Some(Db(before, now.versions - {m.version}))
  {
  }

  lemma ShorterSegment(ran: seq<Migration>, init: seq<Migration>, m: Migration, ms: seq<Migration>, versions: set<int>)
    requires NewerThan(ran, ms, versions) && ran == init + [m]
    ensures NewerThan(init, ms, versions) && m in ms
    ensures (versions + Versions(ran)) - {m.version} == versions + Versions(init)
  {
    assert m in ran;
    forall r | r in init
      ensures r in ran && r.version < m.version
    {
      OlderThanLast(init, m, r);
    }
    assert init == ran[..|init|];
  }

  lemma {:induction false} UndoSegment<S(!new)>(db: Db<S>, ran: seq<Migration>, ms: seq<Migration>, run: Scripts<S>,
                                         schema: S)
    requires Ascending(ms) && NewerThan(ran, ms, db.versions) && DownsInvert(ms, run)
    requires Applied(db.schema, ran, run) == Some(schema)
    ensures Downgraded(Db(schema, db.versions + Versions(ran)), ms, run, |ran|) == Some(db)
    decreases |ran|
  {
    if ran == [] {
      assert db.versions + Versions(ran) == db.versions;
    } else {
      var n := |ran| - 1;
      var init, m := ran[..n], ran[n];
      assert ran == init + [m];
      var before := Applied(db.schema, init, run).value;
      var now := Db(schema, db.versions + Versions(ran));
      LastIsLatest(db.versions, ran);
      ShorterSegment(ran, init, m, ms, db.versions);
      FindsIt(ms, m);
      RevertsLatest(now, ms, run, m, before);
      UndoSegment(db, init, ms, run, before);
    }
  }

  lemma LastIsLatest(versions: set<int>, ran: seq<Migration>)
    requires Ascending(ran) && ran != [] && forall m, w :: m in ran && w in versions ==> w < m.version
    ensures IsLatest(ran[|ran| - 1].version, versions + Versions(ran))
  {
    var last := ran[|ran| - 1];
    forall m | m in ran
      ensures m.version <= last.version
    {
      LastIsLargest(ran, m);
    }
    assert last in ran;
  }

  lemma {:induction false} PendingAscends(ms: seq<Migration>, versions: set<int>)
    requires Ascending(ms)
    ensures Ascending(Pending(ms, versions))
    decreases |ms|
  {
    if ms != [] {
      var n := |ms| - 1;
      assert ms == ms[..n] + [ms[n]];
      PendingAscends(ms[..n], versions);
      PendingMembers(ms[..n], versions);
      var before := Pending(ms[..n], versions);
      forall i | 0 <= i < |before|
        ensures before[i].version < ms[n].version
      {
        assert before[i] in before;
        var k :| 0 <= k < n && ms[k] == before[i];
      }
    }
  }

  /** When each down script inverts its up script and all new versions exceed the
      old ones, as many reverts as migrations were applied lead back to the
      database before the upgrade, wherever that stopped. */
  lemma {:induction false} DownUndoesUp<S(!new)>(db: Db<S>, ms: seq<Migration>, run: Scripts<S>, budget: nat)
    requires Ascending(ms) && DownsInvert(ms, run)
    requires forall m, w :: m in Pending(ms, db.versions) && w in db.versions ==> w < m.version
    ensures var u := Up(db, ms, run, budget);
      Downgraded(u.db, ms, run, |u.ran|) == Some(db)
  {
    var u := Up(db, ms, run, budget);
    UpStopsAtSegment(db, ms, run, budget);
    PendingAscends(ms, db.versions);
    PendingMembers(ms, db.versions);
    assert forall m :: m in u.ran ==> m in Pending(ms, db.versions);
    UndoSegment(db, u.ran, ms, run, u.db.schema);
  }
}
