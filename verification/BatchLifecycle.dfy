/** The life of an AI batch under any interleaving of endpoints and the worker
    that holds its lock (backend/internal/api/ai_handlers.go and
    backend/internal/aijob/worker.go) and the maintenance sweep that expires old
    batches (backend/internal/maintenance/maintenance.go). A step is a transaction,
    except that the two that are long or unlocked are split: applying a batch holds its row lock
    while evidence is copied, and viewing one reads without a lock and may then
    write that the batch has expired. */
module BatchLifecycle {
  datatype Status = Uploading | Queued | Processing | Review | Failed | Complete | Canceled | Expired

  /** `late` tells whether the expiry time has passed, `applying` whether an apply
      request holds the row lock, `working` whether a worker holds the batch lock
      and `expiring` how many viewers are about to write that it expired. */
  datatype Batch = Batch(
    status: Status, stopRequested: bool, late: bool, applying: bool, working: bool, expiring: nat,
    drafts: nat, applies: nat, publishes: nat)

  const NEW_BATCH := Batch(Uploading, false, false, false, false, 0, 0, 0, 0)
  const MAX_CANDIDATES := 100

  datatype Event =
    | Start(total: nat, ready: nat, withinQuota: bool)
    | Recompose(failedItems: nat, pendingChunks: nat)
    | Stop
    | ApplyBegin
    | ApplyCommit(candidates: nat)
    | ApplyAbort
    | Delete
    | View
    | ViewRead
    | ViewWrite
    | Claim
    | Publish(candidates: nat)
    | Fail
    | Die
    | Sweep
    | TimePasses

  // ---------------------------------------------------------------------- steps

  predicate Expirable(status: Status) {
    status == Uploading || status == Review || status == Failed
  }

  /** A batch may be started once all its materials are there, and restarted after
      a failure. */
  predicate MayStart(b: Batch, total: nat, ready: nat, withinQuota: bool) {
    && (b.status == Uploading || b.status == Failed) && !b.late
    && total > 0 && (b.status == Failed || ready == total) && withinQuota
  }

  predicate MayRecompose(b: Batch, failedItems: nat, pendingChunks: nat) {
    b.status == Review && !b.late && failedItems + pendingChunks > 0
  }

  predicate MayStop(b: Batch) {
    b.status == Queued || b.status == Processing
  }

  predicate MayApply(b: Batch) {
    b.status == Review && !b.late
  }

  predicate MayDelete(b: Batch) {
    b.status != Complete && b.status != Canceled
  }

  predicate MayClaim(b: Batch) {
    b.status == Queued || b.status == Processing || b.status == Failed
  }

  predicate MayFail(b: Batch) {
    b.status != Canceled && b.status != Complete && b.status != Expired
  }

  function Expire(b: Batch): Batch {
    if b.late && Expirable(b.status) then b.(status := Expired) else b
  }

  /** The sweep also expires batches that were canceled. */
  predicate MaySweep(b: Batch) {
    b.late && (Expirable(b.status) || b.status == Canceled)
  }

  /** Requests that take the row lock wait while an apply request holds it. */
  function Next(b: Batch, e: Event): Batch {
    match e
    case TimePasses => b.(late := true)
    case ViewRead => if b.late && Expirable(b.status) then b.(expiring := b.expiring + 1) else b
    case Die => b.(working := false)
    case ApplyCommit(n) =>
      if b.applying && 0 < n <= MAX_CANDIDATES
      then b.(status := Complete, applying := false, drafts := b.drafts + n, applies := b.applies + 1)
      else b
    case ApplyAbort => b.(applying := false)
    case _ => if b.applying then b else Locked(b, e)
  }

  function Locked(b: Batch, e: Event): Batch {
    match e
    case Start(total, ready, withinQuota) =>
      if MayStart(b, total, ready, withinQuota) then b.(status := Queued, stopRequested := false) else b
    case Recompose(failedItems, pendingChunks) =>
      if MayRecompose(b, failedItems, pendingChunks) then b.(status := Queued, stopRequested := false) else b
    case Stop => if MayStop(b) then b.(stopRequested := true) else b
    case ApplyBegin => if MayApply(b) then b.(applying := true) else b
    case Delete => if MayDelete(b) then b.(status := Canceled) else b
    case View => Expire(b)
    case Sweep => if MaySweep(b) then b.(status := Expired) else b
    case ViewWrite => if b.expiring > 0 then b.(status := Expired, expiring := b.expiring - 1) else b
    case Claim => if !b.working && MayClaim(b) then b.(status := Processing, working := true) else b
    case Publish(n) =>
      if !b.working then b
      else if n > 0 && b.status == Processing then b.(status := Review, working := false, publishes := b.publishes + 1)
      else b.(working := false)
    case Fail =>
      if !b.working then b
      else if MayFail(b) then b.(status := Failed, working := false)
      else b.(working := false)
    case _ => b
  }

  // ------------------------------------------------------------------ the record

  class BatchRecord {
    var status: Status
    var stopRequested: bool
    var late: bool
    var applying: bool
    var working: bool
    var expiring: nat
    var drafts: nat
    var applies: nat
    var publishes: nat

    constructor ()
      ensures Value() == NEW_BATCH
    {
      status, stopRequested, late, applying, working := Uploading, false, false, false, false;
      expiring, drafts, applies, publishes := 0, 0, 0, 0;
    }

    ghost function Value(): Batch
      reads this
    {
      Batch(status, stopRequested, late, applying, working, expiring, drafts, applies, publishes)
    }

    method StartBatch(total: nat, ready: nat, withinQuota: bool) returns (accepted: bool)
      requires !applying
      modifies this`status, this`stopRequested
      ensures Value() == Next(old(Value()), Start(total, ready, withinQuota))
      ensures accepted <==> status == Queued || status == Processing || status == Review
    {
      if status == Queued || status == Processing || status == Review {
        return true;
      }
      var retry := status == Failed;
      if (status != Uploading && !retry) || late || total == 0 || (!retry && ready != total) || !withinQuota {
        return false;
      }
      status, stopRequested := Queued, false;
      return true;
    }

    method RecomposeBatch(failedItems: nat, pendingChunks: nat) returns (accepted: bool)
      requires !applying
      modifies this`status, this`stopRequested
      ensures Value() == Next(old(Value()), Recompose(failedItems, pendingChunks))
    {
      if status != Review || late || (failedItems == 0 && pendingChunks == 0) {
        return false;
      }
      status, stopRequested := Queued, false;
      return true;
    }

    method StopCompose() returns (accepted: bool)
      requires !applying
      modifies this`stopRequested
      ensures Value() == Next(old(Value()), Stop)
    {
      if status != Queued && status != Processing {
        return false;
      }
      stopRequested := true;
      return true;
    }

    /** The checks under the lock; the drafts are created before it is released. */
    method BeginApply() returns (ok: bool)
      requires !applying
      modifies this`applying
      ensures Value() == Next(old(Value()), ApplyBegin) && ok == applying
    {
      if status == Complete || status != Review || late {
        return false;
      }
      applying := true;
      return true;
    }

    method CommitApply(candidates: nat)
      requires applying && 0 < candidates <= MAX_CANDIDATES
      modifies this
      ensures Value() == Next(old(Value()), ApplyCommit(candidates))
    {
      for i := 0 to candidates
        invariant drafts == old(drafts) + i
        invariant Value() == old(Value()).(drafts := drafts)
      {
        drafts := drafts + 1;
      }
      status, applying, applies := Complete, false, applies + 1;
    }

    method DeleteBatch() returns (ok: bool)
      requires !applying
      modifies this`status
      ensures Value() == Next(old(Value()), Delete) && ok == (old(status) != Complete)
    {
      if status == Complete {
        return false;
      }
      status := Canceled;
      return true;
    }

    /** The worker takes a batch up. */
    method ClaimBatch() returns (ok: bool)
      requires !applying && !working
      modifies this`status, this`working
      ensures Value() == Next(old(Value()), Claim) && ok == working
    {
      match status {
        case Queued | Processing | Failed =>
          status, working := Processing, true;
          return true;
        case _ =>
          return false;
      }
    }

    /** The last transaction of a run: publish what was found, or fail. */
    method FinishBatch(candidates: nat)
      requires !applying && working
      modifies this`status, this`working, this`publishes
      ensures Value() == Next(old(Value()), if candidates > 0 then Publish(candidates) else Fail)
    {
      working := false;
      if candidates > 0 {
        if status == Processing {
          status, publishes := Review, publishes + 1;
        }
      } else if status != Canceled && status != Complete && status != Expired {
        status := Failed;
      }
    }

    /** The maintenance sweep. */
    method SweepBatch()
      requires !applying
      modifies this`status
      ensures Value() == Next(old(Value()), Sweep)
    {
      if late && (status == Uploading || status == Review || status == Failed || status == Canceled) {
        status := Expired;
      }
    }
  }

  // ------------------------------------------------------------------- all lives

  function Run(b: Batch, es: seq<Event>): Batch {
    if es == [] then b else Next(Run(b, es[..|es| - 1]), es[|es| - 1])
  }

  /** A request that applies sees a batch in review; a worker's batch is being
      processed unless it was canceled or expired; after an apply the batch is
      closed for good. */
  predicate Sound(b: Batch) {
    && (b.applying ==> b.status == Review && b.applies == 0 && !b.working)
    && (b.working ==> b.status == Processing || b.status == Canceled || b.status == Expired)
    && (b.applies == 0 || (b.applies == 1 && (b.status == Complete || b.status == Expired || b.status == Canceled)))
    && (b.applies == 0 <==> b.drafts == 0)
    && (b.status == Complete ==> b.applies == 1)
    && (b.status == Review ==> b.publishes > 0)
    && (b.expiring > 0 ==> b.late)
  }

  lemma NextSound(b: Batch, e: Event)
    requires Sound(b)
    ensures Sound(Next(b, e))
  {
  }

  lemma {:induction false} LifeIsSound(es: seq<Event>)
    ensures Sound(Run(NEW_BATCH, es))
    decreases |es|
  {
    if es != [] {
      LifeIsSound(es[..|es| - 1]);
      NextSound(Run(NEW_BATCH, es[..|es| - 1]), es[|es| - 1]);
    }
  }

  /** Under any interleaving a batch creates drafts at most once, and only as it
      goes from review to complete. */
  lemma {:induction false} DraftsOnce(es: seq<Event>, e: Event)
    ensures var b := Run(NEW_BATCH, es);
      && b.applies <= 1 && (b.drafts > 0 <==> b.applies == 1) && b.drafts <= MAX_CANDIDATES
      && (Next(b, e).drafts != b.drafts ==> b.status == Review && Next(b, e).status == Complete && b.drafts == 0)
  {
    LifeIsSound(es);
    DraftsBounded(es);
  }

  lemma {:induction false} DraftsBounded(es: seq<Event>)
    ensures Run(NEW_BATCH, es).drafts <= MAX_CANDIDATES
    decreases |es|
  {
    if es != [] {
      DraftsBounded(es[..|es| - 1]);
      LifeIsSound(es[..|es| - 1]);
    }
  }

  /** The worker publishes only a batch that is still being processed; a finished
      run never touches one that is in review, complete, canceled or expired. */
  lemma {:induction false} WorkerPublishesProcessing(es: seq<Event>, e: Event)
    ensures var b, c := Run(NEW_BATCH, es), Next(Run(NEW_BATCH, es), e);
      && (c.publishes != b.publishes <==> e.Publish? && e.candidates > 0 && b.working && b.status == Processing)
      && (c.publishes != b.publishes ==> c.status == Review)
      && ((e.Publish? || e.Fail?) && b.status != Processing ==> c.status == b.status)
  {
    LifeIsSound(es);
  }

  lemma LeavingClosed(b: Batch, e: Event)
    requires Sound(b)
    ensures b.status == Complete ==>
      (Next(b, e).status != Complete <==> e == ViewWrite && b.expiring > 0)
    ensures b.status == Canceled ==>
      (Next(b, e).status != Canceled <==> (e == Sweep && b.late) || (e == ViewWrite && b.expiring > 0))
    ensures (b.status == Complete || b.status == Canceled) && Next(b, e).status != b.status ==>
      Next(b, e).status == Expired
  {
  }

  /** Complete is left in one way: a viewer that had read the batch earlier writes
      that it expired. Canceled is left in that way or by a sweep past the expiry
      time. Either way the batch has expired. */
  lemma {:induction false} HowClosedIsLeft(es: seq<Event>, e: Event)
    ensures var b, c := Run(NEW_BATCH, es), Next(Run(NEW_BATCH, es), e);
      && (b.status == Complete ==> (c.status != Complete <==> e == ViewWrite && b.expiring > 0))
      && (b.status == Canceled ==>
          (c.status != Canceled <==> (e == Sweep && b.late) || (e == ViewWrite && b.expiring > 0)))
      && ((b.status == Complete || b.status == Canceled) && c.status != b.status ==> c.status == Expired && b.late)
  {
    LifeIsSound(es);
    LeavingClosed(Run(NEW_BATCH, es), e);
  }

  /** Every view is one transaction. */
  predicate AtomicViews(es: seq<Event>) {
    forall i :: 0 <= i < |es| ==> es[i] != ViewRead && es[i] != ViewWrite
  }

  lemma {:induction false} NoViewerWaits(es: seq<Event>)
    requires AtomicViews(es)
    ensures Run(NEW_BATCH, es).expiring == 0
    decreases |es|
  {
    if es != [] {
      NoViewerWaits(es[..|es| - 1]);
    }
  }

  lemma RunMore(es: seq<Event>, more: seq<Event>)
    requires more != []
    ensures var init := more[..|more| - 1];
      Run(NEW_BATCH, es + more) == Next(Run(NEW_BATCH, es + init), more[|more| - 1])
  {
    assert (es + more)[..|es + more| - 1] == es + more[..|more| - 1];
  }

  /** With atomic transactions complete is never left, and canceled only by a sweep. */
  lemma {:induction false} FinalIsFinal(es: seq<Event>, more: seq<Event>)
    requires AtomicViews(es) && AtomicViews(more)
    ensures var before, after := Run(NEW_BATCH, es).status, Run(NEW_BATCH, es + more).status;
      && (before == Complete ==> after == Complete)
      && (before == Canceled && Sweep !in more ==> after == Canceled)
    decreases |more|
  {
    if more == [] {
      assert es + more == es;
    } else {
      var init := more[..|more| - 1];
      assert more == init + [more[|more| - 1]];
      RunMore(es, more);
      FinalIsFinal(es, init);
      NoViewerWaits(es + init);
      LifeIsSound(es + init);
      LeavingClosed(Run(NEW_BATCH, es + init), more[|more| - 1]);
    }
  }

  /** A canceled batch that is swept past its expiry time: canceled is not final,
      even when every transaction is atomic. */
  lemma SweepExpiresCanceled(b: Batch)
    requires Sound(b) && b.status != Complete && !b.applying
    ensures var canceled := Next(b, Delete);
      && canceled.status == Canceled
      && Next(Next(canceled, TimePasses), Sweep).status == Expired
  {
    assert Next(Next(b, Delete), TimePasses).late;
  }

  predicate Closed(status: Status) {
    status == Complete || status == Canceled || status == Expired
  }

  lemma ClosedStays(b: Batch, e: Event)
    requires Sound(b) && Closed(b.status)
    ensures var c := Next(b, e);
      Closed(c.status) && c.drafts == b.drafts && c.applies == b.applies && c.publishes == b.publishes
  {
  }

  /** What is lost when a closed batch expires is its status alone: under any
      interleaving it never runs, publishes or creates a draft again. */
  lemma {:induction false} ClosedForGood(es: seq<Event>, more: seq<Event>)
    requires Closed(Run(NEW_BATCH, es).status)
    ensures var before, after := Run(NEW_BATCH, es), Run(NEW_BATCH, es + more);
      && Closed(after.status) && after.drafts == before.drafts
      && after.applies == before.applies && after.publishes == before.publishes
    decreases |more|
  {
    if more == [] {
      assert es + more == es;
    } else {
      RunMore(es, more);
      ClosedForGood(es, more[..|more| - 1]);
      LifeIsSound(es + more[..|more| - 1]);
      ClosedStays(Run(NEW_BATCH, es + more[..|more| - 1]), more[|more| - 1]);
    }
  }

  /** How a view that is not one transaction loses any completed batch: it reads the
      row while drafts are being created, past the expiry time, and writes after. */
  lemma ViewMayLoseComplete(b: Batch, candidates: nat)
    requires Sound(b) && MayApply(b) && !b.applying && 0 < candidates <= MAX_CANDIDATES
    ensures var applied := Next(Next(Next(Next(b, ApplyBegin), TimePasses), ViewRead), ApplyCommit(candidates));
      && applied.status == Complete && applied.drafts == candidates
      && Next(applied, ViewWrite).status == Expired && Next(applied, ViewWrite).drafts == candidates
  {
    var begun := Next(b, ApplyBegin);
    var late := Next(begun, TimePasses);
    assert late == b.(applying := true, late := true);
    assert Next(late, ViewRead) == late.(expiring := b.expiring + 1);
  }

  lemma RestartClearsStop(b: Batch, e: Event)
    requires (e.Start? || e.Recompose?) && Next(b, e) != b
    ensures Next(b, e).status == Queued && !Next(b, e).stopRequested
  {
  }

  lemma OnlyStopAsksToStop(b: Batch, e: Event)
    requires e != Stop
    ensures Next(b, e).stopRequested ==> b.stopRequested
  {
  }

  /** A request to start or recompose clears an old request to stop: whatever
      happens afterwards, the run it starts is stopped only by a new one. */
  lemma {:induction false} RestartedRunIsNotStopped(es: seq<Event>, e: Event, more: seq<Event>)
    requires (e.Start? || e.Recompose?) && Run(NEW_BATCH, es + [e]) != Run(NEW_BATCH, es)
    requires Stop !in more
    ensures !Run(NEW_BATCH, es + [e] + more).stopRequested
    decreases |more|
  {
    if more == [] {
      RunMore(es, [e]);
      assert es + [e][..0] == es && es + [e] + more == es + [e];
      RestartClearsStop(Run(NEW_BATCH, es), e);
    } else {
      assert more == more[..|more| - 1] + [more[|more| - 1]];
      RunMore(es + [e], more);
      RestartedRunIsNotStopped(es, e, more[..|more| - 1]);
      OnlyStopAsksToStop(Run(NEW_BATCH, es + [e] + more[..|more| - 1]), more[|more| - 1]);
    }
  }
}
