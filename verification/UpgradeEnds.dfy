/** Exactly how far an upgrade gets, and exactly what one downgrade does
    (backend/db/migrations/embed.go). */
module UpgradeEnds {
  import opened MigrationCatalog
  import opened Migrations
  import opened Options

  /** Every script of these migrations works, one after the other. */
  predicate AllRun<S>(schema: S, ms: seq<Migration>, run: Scripts<S>) {
    Applied(schema, ms, run).Some?
  }

  /** How far an upgrade is with the pending migrations up to here. */
  ghost predicate Ends<S>(db: Db<S>, pending: seq<Migration>, run: Scripts<S>, budget: nat, u: Upgrade<S>) {
    var n := |u.ran|;
    && n <= |pending| && n <= budget && u.budget == budget - n
    && if u.going then n == |pending|
       else n < |pending| && (n == budget || !AllRun(db.schema, pending[..n + 1], run))
  }

  lemma FailedStays<S>(schema: S, ms: seq<Migration>, run: Scripts<S>, n: nat)
    requires n <= |ms| && !AllRun(schema, ms[..n], run)
    ensures !AllRun(schema, ms, run)
    decreases |ms|
  {
    if n < |ms| {
      assert ms[..|ms| - 1][..n] == ms[..n];
      FailedStays(schema, ms[..|ms| - 1], run, n);
    } else {
      assert ms[..n] == ms;
    }
  }

  /** The next pending migration, while the process goes on. */
  lemma NextPendingEnds<S>(db: Db<S>, before: seq<Migration>, m: Migration, run: Scripts<S>, budget: nat, u: Upgrade<S>)
    requires u.going && u.ran == before && Applied(db.schema, before, run) == Some(u.db.schema)
    requires m.version !in u.db.versions && Ends(db, before, run, budget, u)
    ensures Ends(db, before + [m], run, budget, UpOne(u, m, run))
  {
    assert (before + [m])[..|before| + 1] == before + [m];
    AppliedSnoc(db.schema, before, m, run);
  }

  /** A process that has ended stays where it was. */
  lemma EndedEnds<S>(db: Db<S>, before: seq<Migration>, m: Migration, run: Scripts<S>, budget: nat, u: Upgrade<S>)
    requires !u.going && Ends(db, before, run, budget, u)
    ensures Ends(db, before + [m], run, budget, u)
  {
    assert (before + [m])[..|u.ran| + 1] == before[..|u.ran| + 1];
  }

  lemma NextEnds<S>(db: Db<S>, init: seq<Migration>, m: Migration, run: Scripts<S>, budget: nat, u: Upgrade<S>)
    requires Ascending(init + [m]) && UpSound(db, init, run, u) && Ends(db, Pending(init, db.versions), run, budget, u)
    ensures Ends(db, Pending(init + [m], db.versions), run, budget, UpOne(u, m, run))
  {
    var before := Pending(init, db.versions);
    PendingSnoc(init, m, db.versions);
    if m.version in db.versions {
      assert Pending(init + [m], db.versions) == before && UpOne(u, m, run) == u;
    } else if u.going {
      NotYetApplied(db.versions, init, m);
      NextPendingEnds(db, before, m, run, budget, u);
    } else {
      EndedEnds(db, before, m, run, budget, u);
    }
  }

  lemma {:induction false} UpEnds<S>(db: Db<S>, ms: seq<Migration>, run: Scripts<S>, budget: nat)
    requires Ascending(ms)
    ensures Ends(db, Pending(ms, db.versions), run, budget, Up(db, ms, run, budget))
    decreases |ms|
  {
    if ms != [] {
      var n := |ms| - 1;
      assert ms == ms[..n] + [ms[n]];
      UpEnds(db, ms[..n], run, budget);
      UpStopsAtSegment(db, ms[..n], run, budget);
      NextEnds(db, ms[..n], ms[n], run, budget, Up(db, ms[..n], run, budget));
    }
  }

  /** An upgrade comes to its end exactly when the process lives for all pending
      migrations and all their scripts work; otherwise it has applied as many as it
      lived for, or all before the first script that fails. */
  lemma UpFinishesExactly<S>(db: Db<S>, ms: seq<Migration>, run: Scripts<S>, budget: nat)
    requires Ascending(ms)
    ensures var u, pending := Up(db, ms, run, budget), Pending(ms, db.versions);
      && (u.going <==> |pending| <= budget && AllRun(db.schema, pending, run))
      && (!u.going ==>
            && |u.ran| < |pending| && AllRun(db.schema, pending[..|u.ran|], run)
            && (|u.ran| == budget || !AllRun(db.schema, pending[..|u.ran| + 1], run)))
  {
    var u, pending := Up(db, ms, run, budget), Pending(ms, db.versions);
    UpEnds(db, ms, run, budget);
    UpStopsAtSegment(db, ms, run, budget);
    assert pending[..|u.ran|] == u.ran;
    if !u.going && !AllRun(db.schema, pending[..|u.ran| + 1], run) {
      FailedStays(db.schema, pending, run, |u.ran| + 1);
    }
  }

  /** The first migration with a version is found wherever it stands. */
  lemma {:induction false} FindIsFirst(ms: seq<Migration>, version: int)
    ensures match Find(ms, version)
      case Some(m) => m in ms && m.version == version
      case None => forall m :: m in ms ==> m.version != version
  {
    if ms != [] && ms[0].version != version {
      FindIsFirst(ms[1..], version);
    }
  }

  /** Reverting the latest version works exactly when the catalog has it and its down
      script works; then the schema is what that script makes of it and that version
      alone is no longer recorded. */
  lemma RevertsExactly<S>(db: Db<S>, v: int, ms: seq<Migration>, run: Scripts<S>, m: Migration)
    requires Ascending(ms) && m in ms && m.version == v
    ensures Reverted(db, v, ms, run) ==
      match run(m.downFile, db.schema)
      case Some(s) => Some(Db(s, set w | w in db.versions && w != v))
      case None => None
  {
    FindsIt(ms, m);
    assert db.versions - {v} == set w | w in db.versions && w != v;
  }

  /** A version that the catalog does not know cannot be reverted. */
  lemma UnknownIsNotReverted<S>(db: Db<S>, v: int, ms: seq<Migration>, run: Scripts<S>)
    requires forall m :: m in ms ==> m.version != v
    ensures Reverted(db, v, ms, run).None?
  {
    FindIsFirst(ms, v);
  }
}
