/** Composing a batch chunk by chunk over a table of checkpoints
    (backend/internal/aijob/worker.go). A process may be killed between any two of
    its transactions and model calls. */
module Composition {
  import opened CandidateGate
  import opened Chunking
  import opened Drafts
  import opened Options

  datatype Status = Queued | Processing | Complete | Failed

  /** A row of ai_compose_chunk. */
  datatype Row = Row(status: Status, observations: seq<AssetRef>, draft: Draft, attempts: nat)

  type Table = map<nat, Row>

  function Refs(chunk: Group): seq<AssetRef> {
    seq(|chunk|, (i: nat) requires i < |chunk| => AssetRef(chunk[i].assetId, chunk[i].page))
  }

  // ---------------------------------------------------------------- model calls

  const MODEL_ATTEMPTS: nat := 3

  /** What one call for a chunk comes to; only transient errors are retried. */
  datatype Reply = Answered(draft: Draft) | Refused(transient: bool)

  /** The reply to the n-th attempt (from 0) at a chunk. */
  type Composer = (Group, nat) -> Reply

  predicate Settles(reply: Reply, attempt: nat) {
    reply.Answered? || !reply.transient || attempt + 1 >= MODEL_ATTEMPTS
  }

  function Retried(compose: Composer, chunk: Group, attempt: nat): Reply
    decreases MODEL_ATTEMPTS - attempt
  {
    var reply := compose(chunk, attempt);
    if Settles(reply, attempt) then reply else Retried(compose, chunk, attempt + 1)
  }

  /** Attempt k is made: everything before it failed with an error that may pass. */
  ghost predicate Attempted(compose: Composer, chunk: Group, k: nat) {
    k < 3 && forall j: nat :: j < k ==> compose(chunk, j) == Refused(true)
  }

  /** The call stops at attempt k: with an answer, with an error for good, or because
      it was the third. */
  ghost predicate StopsAt(compose: Composer, chunk: Group, k: nat) {
    && Attempted(compose, chunk, k)
    && (compose(chunk, k).Answered? || compose(chunk, k) == Refused(false) || k == 2)
  }

  /** A call has one attempt where it stops, and comes to the reply of that attempt. */
  lemma {:induction false} RetriedStopsOnce(compose: Composer, chunk: Group) returns (k: nat)
    ensures StopsAt(compose, chunk, k) && Retried(compose, chunk, 0) == compose(chunk, k)
    ensures forall j: nat :: StopsAt(compose, chunk, j) ==> j == k
  {
    k := if Settles(compose(chunk, 0), 0) then 0 else if Settles(compose(chunk, 1), 1) then 1 else 2;
    assert Retried(compose, chunk, k) == compose(chunk, k);
    assert k == 2 ==> Retried(compose, chunk, 1) == compose(chunk, k);
    forall j: nat | StopsAt(compose, chunk, j)
      ensures j == k
    {
      assert j > k ==> compose(chunk, k) == Refused(true);
      assert k > j ==> compose(chunk, j) == Refused(true);
    }
  }

  method RetryCall(compose: Composer, chunk: Group) returns (reply: Reply)
    ensures reply == Retried(compose, chunk, 0)
    ensures exists k: nat :: StopsAt(compose, chunk, k) && reply == compose(chunk, k)
  {
    var attempt := 0;
    reply := compose(chunk, 0);
    while !Settles(reply, attempt)
      invariant Attempted(compose, chunk, attempt) && reply == compose(chunk, attempt)
      invariant Retried(compose, chunk, attempt) == Retried(compose, chunk, 0)
      decreases MODEL_ATTEMPTS - attempt
    {
      attempt := attempt + 1;
      reply := compose(chunk, attempt);
    }
    assert StopsAt(compose, chunk, attempt);
  }

  /** What a chunk contributes when it is sent: a draft, or nothing. */
  function Outcome(compose: Composer, chunk: Group): Option<Draft> {
    match Retried(compose, chunk, 0)
    case Answered(draft) => Some(draft)
    case Refused(_) => None
  }

  /** A chunk contributes a draft exactly when one of three attempts answers with it
      and all attempts before that failed with errors that may pass. */
  lemma {:induction false} OutcomeIsFirstAnswer(compose: Composer, chunk: Group, d: Draft)
    ensures Outcome(compose, chunk) == Some(d) <==>
      exists k: nat :: Attempted(compose, chunk, k) && compose(chunk, k) == Answered(d)
  {
    var k := RetriedStopsOnce(compose, chunk);
    forall j: nat | Attempted(compose, chunk, j) && compose(chunk, j) == Answered(d)
      ensures j == k
    {
      assert StopsAt(compose, chunk, j);
    }
  }

  /** A chunk fails exactly when an attempt fails for good, or three fail. */
  lemma {:induction false} FailureIsFinal(compose: Composer, chunk: Group)
    ensures Outcome(compose, chunk) == None <==>
      exists k: nat :: Attempted(compose, chunk, k) && compose(chunk, k).Refused?
        && (!compose(chunk, k).transient || k == 2)
  {
    var k := RetriedStopsOnce(compose, chunk);
    forall j: nat | Attempted(compose, chunk, j) && compose(chunk, j).Refused?
        && (!compose(chunk, j).transient || j == 2)
      ensures j == k
    {
      assert StopsAt(compose, chunk, j);
    }
  }

  // ------------------------------------------------------------------ one process

  /** How long a process lives, in transactions and model calls, and what it would
      see when it asks before chunk i whether the batch is canceled or stopped. */
  datatype Life = Life(steps: nat, canceled: nat -> bool, stop: nat -> bool)

  datatype Mode = Running | Killed | Canceled | Stopped

  datatype Run = Run(
    mode: Mode, rows: Table, steps: nat, sent: seq<nat>,
    draft: Draft, failedChunks: nat, failedObservations: nat)

  /** The row of chunk i under a new plan: a stored one only for the same input. */
  function PlannedRow(rows: Table, i: nat, refs: seq<AssetRef>): Row {
    if i in rows && rows[i].observations == refs then rows[i] else Row(Queued, refs, EMPTY_DRAFT, 0)
  }

  function Planned(rows: Table, chunks: seq<Group>): Table {
    map i: nat | i < |chunks| :: PlannedRow(rows, i, Refs(chunks[i]))
  }

  function Begin(rows: Table, chunks: seq<Group>, life: Life): Run {
    if life.steps == 0 then Run(Killed, rows, 0, [], EMPTY_DRAFT, 0, 0)
    else Run(Running, Planned(rows, chunks), life.steps - 1, [], EMPTY_DRAFT, 0, 0)
  }

  /** One transaction or call: the process may not live to make it. */
  function Tick(r: Run): Run {
    if r.mode == Running && r.steps > 0 then r.(steps := r.steps - 1) else r.(mode := Killed)
  }

  function Marked(r: Run, i: nat): Run
    requires i in r.rows
  {
    var t := Tick(r);
    if t.mode == Running then t.(rows := t.rows[i := t.rows[i].(status := Processing)]) else t
  }

  function Asked(r: Run, i: nat): Run {
    var t := Tick(r);
    if t.mode == Running then t.(sent := t.sent + [i]) else t
  }

  function Finished(r: Run, i: nat, size: nat, outcome: Option<Draft>): Run
    requires i in r.rows
  {
    var t := Tick(r);
    if t.mode != Running then t
    else
      var attempts := t.rows[i].attempts + 1;
      match outcome
      case Some(d) =>
        t.(rows := t.rows[i := t.rows[i].(status := Complete, draft := d, attempts := attempts)],
           draft := Merge(t.draft, d))
      case None =>
        t.(rows := t.rows[i := t.rows[i].(status := Failed, draft := EMPTY_DRAFT, attempts := attempts)],
           failedChunks := t.failedChunks + 1, failedObservations := t.failedObservations + size)
  }

  /** A row that is already complete is taken as stored; otherwise the chunk is
      marked, sent and recorded, unless the batch is canceled or stopped. */
  function Step(r: Run, i: nat, chunk: Group, compose: Composer, life: Life): Run
    requires i in r.rows
  {
    if r.rows[i].status == Complete then r.(draft := Merge(r.draft, r.rows[i].draft))
    else if life.canceled(i) then r.(mode := Canceled)
    else if life.stop(i) then r.(mode := Stopped)
    else Finished(Asked(Marked(r, i), i), i, |chunk|, Outcome(compose, chunk))
  }

  /** The process after the first n chunks. */
  function Loop(rows: Table, chunks: seq<Group>, compose: Composer, life: Life, n: nat): (r: Run)
    requires n <= |chunks|
    ensures r.mode == Running ==> r.rows.Keys == Planned(rows, chunks).Keys
  {
    if n == 0 then Begin(rows, chunks, life)
    else
      var r := Loop(rows, chunks, compose, life, n - 1);
      if r.mode != Running then r else Step(r, n - 1, chunks[n - 1], compose, life)
  }

  function Compose(rows: Table, chunks: seq<Group>, compose: Composer, life: Life): Run {
    Loop(rows, chunks, compose, life, |chunks|)
  }

  // ------------------------------------------------------------------- the worker

  /** The checkpoint table together with the process working on it. */
  class Worker {
    var rows: Table
    var steps: nat
    var alive: bool
    var sent: seq<nat>

    constructor (rows: Table, steps: nat)
      ensures this.rows == rows && this.steps == steps && alive && sent == []
    {
      this.rows, this.steps, alive, sent := rows, steps, true, [];
    }

    method Transact()
      modifies this`steps, this`alive
      ensures alive == (old(alive) && old(steps) > 0)
      ensures steps == if alive then old(steps) - 1 else old(steps)
    {
      if alive && steps > 0 {
        steps := steps - 1;
      } else {
        alive := false;
      }
    }

    /** Replans the table: rows with unchanged input are left alone, the others
        start over, and rows past the end are deleted. */
    method PlanComposeChunks(chunks: seq<Group>)
      requires alive
      modifies this`rows, this`steps, this`alive
      ensures alive == (old(steps) > 0) && steps == if alive then old(steps) - 1 else 0
      ensures rows == if alive then Planned(old(rows), chunks) else old(rows)
    {
      Transact();
      if !alive {
        return;
      }
      var existing := rows;
      var planned: Table := map[];
      for i := 0 to |chunks|
        invariant planned == Planned(existing, chunks[..i])
      {
        var refs := Refs(chunks[i]);
        if i in existing && existing[i].observations == refs {
          planned := planned[i := existing[i]];
        } else {
          planned := planned[i := Row(Queued, refs, EMPTY_DRAFT, 0)];
        }
        assert planned == Planned(existing, chunks[..i + 1]);
      }
      assert chunks[..|chunks|] == chunks;
      rows := planned;
    }

    ghost function Snapshot(mode: Mode, draft: Draft, failedChunks: nat, failedObservations: nat): Run
      reads this
    {
      Run(if alive then mode else Killed, rows, steps, sent, draft, failedChunks, failedObservations)
    }

    method MarkComposeChunk(i: nat)
      requires i in rows
      modifies this`rows, this`steps, this`alive
      ensures forall d, m, n :: Snapshot(Running, d, m, n) == Marked(old(Snapshot(Running, d, m, n)), i)
    {
      Transact();
      if alive {
        rows := rows[i := rows[i].(status := Processing)];
      }
    }

    method Send(i: nat)
      modifies this`sent, this`steps, this`alive
      ensures forall d, m, n :: Snapshot(Running, d, m, n) == Asked(old(Snapshot(Running, d, m, n)), i)
    {
      Transact();
      if alive {
        sent := sent + [i];
      }
    }

    method FinishComposeChunk(i: nat, outcome: Option<Draft>, attempts: nat)
      requires i in rows && attempts == rows[i].attempts + 1
      modifies this`rows, this`steps, this`alive
      ensures alive == (old(alive) && old(steps) > 0) && steps == if alive then old(steps) - 1 else old(steps)
      ensures var row := old(rows)[i];
        rows ==
        if !alive then old(rows)
        else old(rows)[i :=
          if outcome.Some? then row.(status := Complete, draft := outcome.value, attempts := attempts)
          else row.(status := Failed, draft := EMPTY_DRAFT, attempts := attempts)]
    {
      Transact();
      if alive {
        var row := rows[i].(attempts := attempts);
        match outcome
        case Some(d) => rows := rows[i := row.(status := Complete, draft := d)];
        case None => rows := rows[i := row.(status := Failed, draft := EMPTY_DRAFT)];
      }
    }

    /** Sends one chunk and records what came of it. */
    method RunChunk(i: nat, chunk: Group, compose: Composer, merged: DraftBuilder, failedChunks: nat,
                    failedObservations: nat)
      returns (chunks: nat, observations: nat)
      requires i in rows
      modifies this, merged
      ensures Snapshot(Running, merged.Value(), chunks, observations) ==
        Finished(Asked(Marked(old(Snapshot(Running, merged.Value(), failedChunks, failedObservations)), i), i),
                 i, |chunk|, Outcome(compose, chunk))
    {
      chunks, observations := failedChunks, failedObservations;
      ghost var d := merged.Value();
      var attempts := rows[i].attempts + 1;
      MarkComposeChunk(i);
      assert Snapshot(Running, d, chunks, observations)
        == Marked(old(Snapshot(Running, merged.Value(), failedChunks, failedObservations)), i);
      Send(i);
      ghost var asked := Snapshot(Running, d, chunks, observations);
      var reply := RetryCall(compose, chunk);
      var outcome := if reply.Answered? then Some(reply.draft) else None;
      FinishComposeChunk(i, outcome, attempts);
      if alive {
        match outcome
        case Some(draft) =>
          merged.MergeDraft(draft);
        case None =>
          chunks := chunks + 1;
          observations := observations + |chunk|;
      }
      assert Snapshot(Running, merged.Value(), chunks, observations)
        == Finished(asked, i, |chunk|, Outcome(compose, chunk));
    }

    /** One turn of the loop. */
    method VisitChunk(i: nat, chunk: Group, compose: Composer, life: Life, merged: DraftBuilder,
                      failedChunks: nat, failedObservations: nat)
      returns (mode: Mode, chunks: nat, observations: nat)
      requires i in rows && alive
      modifies this, merged
      ensures Snapshot(mode, merged.Value(), chunks, observations) ==
        Step(old(Snapshot(Running, merged.Value(), failedChunks, failedObservations)), i, chunk, compose, life)
    {
      mode, chunks, observations := Running, failedChunks, failedObservations;
      var row := rows[i];
      if row.status == Complete {
        merged.MergeDraft(row.draft);
      } else if life.canceled(i) {
        mode := Canceled;
      } else if life.stop(i) {
        mode := Stopped;
      } else {
        chunks, observations := RunChunk(i, chunk, compose, merged, failedChunks, failedObservations);
      }
    }

    method ComposeInChunks(chunks: seq<Group>, compose: Composer, life: Life)
      returns (mode: Mode, draft: Draft, failedChunks: nat, failedObservations: nat)
      requires alive && sent == [] && steps == life.steps
      modifies this
      ensures Snapshot(mode, draft, failedChunks, failedObservations) == Compose(old(rows), chunks, compose, life)
    {
      mode, draft, failedChunks, failedObservations := Running, EMPTY_DRAFT, 0, 0;
      ghost var before := rows;
      PlanComposeChunks(chunks);
      var merged := new DraftBuilder();
      var i := 0;
      while i < |chunks| && alive && mode == Running
        invariant i <= |chunks| && fresh(merged)
        invariant Snapshot(mode, merged.Value(), failedChunks, failedObservations)
          == Loop(before, chunks, compose, life, i)
        decreases |chunks| - i
      {
        mode, failedChunks, failedObservations :=
          VisitChunk(i, chunks[i], compose, life, merged, failedChunks, failedObservations);
        i := i + 1;
      }
      LoopEndsEarly(before, chunks, compose, life, i);
      draft := merged.Value();
    }
  }

  /** Once a process has ended, later chunks change nothing. */
  lemma {:induction false} LoopEndsEarly(rows: Table, chunks: seq<Group>, compose: Composer, life: Life, n: nat)
    requires n <= |chunks| && (n == |chunks| || Loop(rows, chunks, compose, life, n).mode != Running)
    ensures Compose(rows, chunks, compose, life) == Loop(rows, chunks, compose, life, n)
    decreases |chunks| - n
  {
    if n < |chunks| {
      LoopEndsEarly(rows, chunks, compose, life, n + 1);
    }
  }
}
