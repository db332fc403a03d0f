/** Which steps move an AI batch, told by where they lead: for every status, mark and
    counter, exactly which requests, viewers and worker steps set it and when
    (backend/internal/api/ai_handlers.go, backend/internal/aijob/worker.go and
    backend/internal/maintenance/maintenance.go). */
module BatchMoves {
  import opened BatchLifecycle

  /** The step brings the batch into that status from another one. */
  predicate Enters(b: Batch, e: Event, status: Status) {
    Next(b, e).status == status && b.status != status
  }

  /** No request holds the row, and the expiry time has not passed. */
  predicate Timely(b: Batch) {
    !b.applying && !b.late
  }

  /** A batch is queued by a start, when nothing was processed yet and every one of its
      materials is there or when it failed, within the daily quota; and by a request to
      compose a reviewed batch again that has something to retry. */
  lemma Queueing(b: Batch, e: Event)
    ensures Enters(b, e, Queued) <==>
      Timely(b) &&
      match e
      case Start(total, ready, withinQuota) =>
        withinQuota && 0 < total && (b.status == Failed || (b.status == Uploading && ready == total))
      case Recompose(failedItems, pendingChunks) => b.status == Review && (failedItems > 0 || pendingChunks > 0)
      case _ => false
    ensures Enters(b, e, Queued) ==> Next(b, e) == b.(status := Queued, stopRequested := false)
  {
  }

  /** A free worker takes a queued or a failed batch, and takes up again one that was
      being processed. */
  lemma Claiming(b: Batch)
    ensures var claimed := !b.applying && !b.working && b.status in {Queued, Processing, Failed};
      Next(b, Claim) == if claimed then b.(status := Processing, working := true) else b
    ensures forall e :: Enters(b, e, Processing) ==> e == Claim
  {
  }

  /** A batch comes into review by its worker publishing at least one candidate while
      the batch is still being processed, and in no other way. */
  lemma Publishing(b: Batch, e: Event)
    ensures Enters(b, e, Review) <==>
      e.Publish? && e.candidates > 0 && b.working && b.status == Processing && !b.applying
    ensures Next(b, e).publishes == b.publishes + if Enters(b, e, Review) then 1 else 0
  {
  }

  /** It fails by its worker failing, unless it was closed meanwhile. */
  lemma Failing(b: Batch, e: Event)
    ensures Enters(b, e, Failed) <==>
      e == Fail && b.working && !b.applying && b.status in {Uploading, Queued, Processing, Review}
  {
  }

  /** Drafts are created by committing an apply request under the row lock: as many as
      there are candidates, one to a hundred. */
  lemma Applying(b: Batch, e: Event)
    requires Sound(b)
    ensures var committed := e.ApplyCommit? && b.applying && 1 <= e.candidates <= 100;
      && (Enters(b, e, Complete) <==> committed)
      && Next(b, e).drafts == b.drafts + (if committed then e.candidates else 0)
      && Next(b, e).applies == b.applies + (if committed then 1 else 0)
    ensures Next(b, e).applying <==>
      if b.applying then e != ApplyAbort && !(e.ApplyCommit? && 1 <= e.candidates <= 100)
      else e == ApplyBegin && b.status == Review && !b.late
  {
  }

  /** Deleting cancels any batch that was not applied; nothing else cancels. */
  lemma Canceling(b: Batch, e: Event)
    ensures Enters(b, e, Canceled) <==> e == Delete && !b.applying && b.status !in {Complete, Canceled}
  {
  }

  /** A batch expires after its time: when it waits and is viewed, when it waits or was
      canceled and is swept, or when a viewer writes what it read of it earlier. */
  lemma Expiring(b: Batch, e: Event)
    ensures Enters(b, e, Expired) <==>
      !b.applying &&
      ((e == View && b.late && b.status in {Uploading, Review, Failed})
       || (e == Sweep && b.late && b.status in {Uploading, Review, Failed, Canceled})
       || (e == ViewWrite && b.expiring > 0 && b.status != Expired))
    ensures Next(b, e).expiring == b.expiring
      + (if e == ViewRead && b.late && b.status in {Uploading, Review, Failed} then 1 else 0)
      - (if e == ViewWrite && b.expiring > 0 && !b.applying then 1 else 0)
    ensures Next(b, e).late <==> b.late || e == TimePasses
  {
  }

  /** A stop request leaves its mark on a queued or running batch, until the batch is
      queued again. */
  lemma StopMark(b: Batch, e: Event)
    ensures Next(b, e).stopRequested <==>
      if e == Stop && !b.applying && b.status in {Queued, Processing} then true
      else b.stopRequested && !Enters(b, e, Queued)
  {
  }

  /** A worker holds a batch from claiming it to its last transaction or its death; at
      its end it always lets go, whatever became of the batch. */
  lemma Working(b: Batch, e: Event)
    ensures Next(b, e).working <==>
      if b.working then e != Die && (b.applying || (!e.Publish? && e != Fail))
      else e == Claim && !b.applying && b.status in {Queued, Processing, Failed}
  {
  }

  /** The whole way: started with its n materials, taken up, published, applied. */
  lemma FromUploadToDrafts(n: nat, candidates: nat)
    requires n > 0 && 1 <= candidates <= 100
    ensures var b := Run(NEW_BATCH, [Start(n, n, true), Claim, Publish(candidates), ApplyBegin, ApplyCommit(candidates)]);
      b == NEW_BATCH.(status := Complete, drafts := candidates, applies := 1, publishes := 1)
  {
    var es := [Start(n, n, true), Claim, Publish(candidates), ApplyBegin, ApplyCommit(candidates)];
    assert es[..4][..3] == es[..3] && es[..3][..2] == es[..2] && es[..2][..1] == es[..1] && es[..1][..0] == [];
    var queued := NEW_BATCH.(status := Queued);
    assert Run(NEW_BATCH, es[..1]) == queued;
    assert Run(NEW_BATCH, es[..2]) == queued.(status := Processing, working := true);
    assert Run(NEW_BATCH, es[..3]) == queued.(status := Review, publishes := 1);
  }
}
