/** What one composition process sends, how far its life takes it, how it ends and what
    it leaves in the table (backend/internal/aijob/worker.go). */
module RunAccount {
  import opened Chunking
  import opened Composition
  import opened Drafts
  import opened Options
  import opened Resume

  /** The chunks below n without a stored result, in order. */
  function Incomplete(rows: Table, chunks: seq<Group>, n: nat): seq<nat>
    requires n <= |chunks|
  {
    if n == 0 then []
    else Incomplete(rows, chunks, n - 1) + if Kept(rows, n - 1, chunks[n - 1]) then [] else [n - 1]
  }

  /** The row that planning leaves for a chunk without a stored result: the attempts go
      on where the input is the same and start again where it is not. */
  function OpenRow(rows: Table, i: nat, chunk: Group): Row {
    if i in rows && rows[i].observations == Refs(chunk) then rows[i] else Row(Queued, Refs(chunk), EMPTY_DRAFT, 0)
  }

  /** The row of a chunk that was sent and recorded. */
  function RecordedRow(rows: Table, i: nat, chunk: Group, outcome: Option<Draft>): Row {
    Row(if outcome.Some? then Complete else Failed, Refs(chunk),
        if outcome.Some? then outcome.value else EMPTY_DRAFT, OpenRow(rows, i, chunk).attempts + 1)
  }

  /** The row of a chunk the process is done with. */
  function DoneRow(rows: Table, i: nat, chunk: Group, compose: Composer): Row {
    if Kept(rows, i, chunk) then rows[i] else RecordedRow(rows, i, chunk, Outcome(compose, chunk))
  }

  /** The table when the process is done with the first n chunks. */
  ghost predicate TableAt(rows: Table, chunks: seq<Group>, compose: Composer, n: nat, now: Table) {
    && (forall i: nat :: i in now <==> i < |chunks|)
    && (forall i: nat :: i < n <= |chunks| ==> now[i] == DoneRow(rows, i, chunks[i], compose))
    && forall i: nat :: n <= i < |chunks| ==> now[i] == OpenRow(rows, i, chunks[i])
  }

  lemma OpenRowIsPlanned(rows: Table, i: nat, chunk: Group)
    ensures PlannedRow(rows, i, Refs(chunk)) == OpenRow(rows, i, chunk)
    ensures OpenRow(rows, i, chunk).status == Complete <==> Kept(rows, i, chunk)
    ensures Kept(rows, i, chunk) ==> OpenRow(rows, i, chunk) == rows[i]
    ensures OpenRow(rows, i, chunk).observations == Refs(chunk)
  {
  }

  /** One turn of a running process: a stored result costs nothing, anything else takes
      three transactions and calls and may end the process in between. */
  ghost predicate Turned(r: Run, s: Run, i: nat, rows: Table, chunk: Group, compose: Composer, life: Life)
    requires i in r.rows
  {
    if Kept(rows, i, chunk) then s.mode == Running && s.rows == r.rows && s.steps == r.steps && s.sent == r.sent
    else if life.canceled(i) then s == r.(mode := Canceled)
    else if life.stop(i) then s == r.(mode := Stopped)
    else if r.steps >= 3 then
      && s.mode == Running && s.steps == r.steps - 3 && s.sent == r.sent + [i]
      && s.rows == r.rows[i := RecordedRow(rows, i, chunk, Outcome(compose, chunk))]
    else
      && s.mode == Killed && s.sent == r.sent + (if r.steps == 2 then [i] else [])
      && s.rows == (if r.steps > 0 then r.rows[i := r.rows[i].(status := Processing)] else r.rows)
      && s.draft == r.draft && s.failedChunks == r.failedChunks && s.failedObservations == r.failedObservations
  }

  lemma StepTurns(r: Run, i: nat, rows: Table, chunk: Group, compose: Composer, life: Life)
    requires i in r.rows && r.mode == Running && r.rows[i] == OpenRow(rows, i, chunk)
    ensures Turned(r, Step(r, i, chunk, compose, life), i, rows, chunk, compose, life)
  {
    OpenRowIsPlanned(rows, i, chunk);
    if !Kept(rows, i, chunk) && !life.canceled(i) && !life.stop(i) {
      var m := Marked(r, i);
      var a := Asked(m, i);
      assert r.steps > 0 ==> m.rows == r.rows[i := r.rows[i].(status := Processing)];
      if r.steps >= 3 {
        assert Finished(a, i, |chunk|, Outcome(compose, chunk)).rows ==
          r.rows[i := RecordedRow(rows, i, chunk, Outcome(compose, chunk))];
      }
    }
  }

  /** Where a process is after n chunks, as long as it runs. */
  ghost predicate OnItsWay(rows: Table, chunks: seq<Group>, compose: Composer, life: Life, n: nat, r: Run)
    requires n <= |chunks|
  {
    && r.mode == Running && TableAt(rows, chunks, compose, n, r.rows)
    && r.sent == Incomplete(rows, chunks, n) && r.steps == life.steps - 1 - 3 * |r.sent|
    && (forall i: nat :: i < n && !Kept(rows, i, chunks[i]) ==> !life.canceled(i) && !life.stop(i))
  }

  lemma NextOnItsWay(rows: Table, chunks: seq<Group>, compose: Composer, life: Life, n: nat, r: Run, s: Run)
    requires n < |chunks| && OnItsWay(rows, chunks, compose, life, n, r) && s.mode == Running
    requires Turned(r, s, n, rows, chunks[n], compose, life)
    ensures OnItsWay(rows, chunks, compose, life, n + 1, s)
  {
    OpenRowIsPlanned(rows, n, chunks[n]);
  }

  lemma PlannedTable(rows: Table, chunks: seq<Group>, compose: Composer)
    ensures TableAt(rows, chunks, compose, 0, Planned(rows, chunks))
  {
    forall i: nat | i < |chunks|
      ensures Planned(rows, chunks)[i] == OpenRow(rows, i, chunks[i])
    {
      OpenRowIsPlanned(rows, i, chunks[i]);
    }
  }

  lemma TurnOnItsWay(rows: Table, chunks: seq<Group>, compose: Composer, life: Life, n: nat, r: Run)
    requires n < |chunks| && OnItsWay(rows, chunks, compose, life, n, r)
    ensures n in r.rows && Turned(r, Step(r, n, chunks[n], compose, life), n, rows, chunks[n], compose, life)
    ensures var s := Step(r, n, chunks[n], compose, life);
      s.mode == Running ==> OnItsWay(rows, chunks, compose, life, n + 1, s)
  {
    var s := Step(r, n, chunks[n], compose, life);
    StepTurns(r, n, rows, chunks[n], compose, life);
    if s.mode == Running {
      NextOnItsWay(rows, chunks, compose, life, n, r, s);
    }
  }

  ghost predicate RunsWell(rows: Table, chunks: seq<Group>, compose: Composer, life: Life, n: nat)
    requires n <= |chunks|
  {
    var r := Loop(rows, chunks, compose, life, n);
    r.mode == Running ==> OnItsWay(rows, chunks, compose, life, n, r)
  }

  lemma StartsWell(rows: Table, chunks: seq<Group>, compose: Composer, life: Life)
    ensures RunsWell(rows, chunks, compose, life, 0)
  {
    PlannedTable(rows, chunks, compose);
  }

  lemma GoesWell(rows: Table, chunks: seq<Group>, compose: Composer, life: Life, n: nat)
    requires n < |chunks| && RunsWell(rows, chunks, compose, life, n)
    ensures RunsWell(rows, chunks, compose, life, n + 1)
  {
    var r := Loop(rows, chunks, compose, life, n);
    if r.mode == Running {
      TurnOnItsWay(rows, chunks, compose, life, n, r);
    }
  }

  lemma {:induction false} AlwaysRunsWell(rows: Table, chunks: seq<Group>, compose: Composer, life: Life, n: nat)
    requires n <= |chunks|
    ensures RunsWell(rows, chunks, compose, life, n)
  {
    StartsWell(rows, chunks, compose, life);
    for k := 0 to n
      invariant RunsWell(rows, chunks, compose, life, k)
    {
      GoesWell(rows, chunks, compose, life, k);
    }
  }

  /** A process that still runs after n chunks has sent every one of them without a
      stored result, once and in order, has recorded what came of each, has left the
      others as they were planned, and has spent three steps on each chunk sent. */
  lemma {:induction false} RunningIsOnItsWay(rows: Table, chunks: seq<Group>, compose: Composer, life: Life, n: nat)
    requires n <= |chunks| && Loop(rows, chunks, compose, life, n).mode == Running
    ensures OnItsWay(rows, chunks, compose, life, n, Loop(rows, chunks, compose, life, n))
  {
    AlwaysRunsWell(rows, chunks, compose, life, n);
  }

  /** How any other process ended: at a chunk without a stored result, canceled, stopped
      or killed there, with the work before it done and everything behind it untouched. */
  lemma {:induction false} HowRunsEnd(rows: Table, chunks: seq<Group>, compose: Composer, life: Life, n: nat)
    returns (i: nat)
    requires n <= |chunks| && life.steps > 0 && Loop(rows, chunks, compose, life, n).mode != Running
    ensures i < n && !Kept(rows, i, chunks[i])
    ensures var r, s := Loop(rows, chunks, compose, life, i), Loop(rows, chunks, compose, life, n);
      OnItsWay(rows, chunks, compose, life, i, r) && i in r.rows
      && Turned(r, s, i, rows, chunks[i], compose, life)
  {
    var before := Loop(rows, chunks, compose, life, n - 1);
    if before.mode == Running {
      i := n - 1;
      RunningIsOnItsWay(rows, chunks, compose, life, i);
      TurnOnItsWay(rows, chunks, compose, life, i, before);
    } else {
      i := HowRunsEnd(rows, chunks, compose, life, n - 1);
    }
  }

  /** A process that sees neither cancellation nor a stop request reaches the end exactly
      when it lives for planning and three steps for each chunk without a stored result. */
  lemma {:induction false} LifeItTakes(rows: Table, chunks: seq<Group>, compose: Composer, life: Life)
    requires forall i: nat :: i < |chunks| ==> !life.canceled(i) && !life.stop(i)
    ensures Compose(rows, chunks, compose, life).mode == Running <==>
      life.steps >= 1 + 3 * |Incomplete(rows, chunks, |chunks|)|
  {
    if life.steps == 0 {
      DeadFromTheStart(rows, chunks, compose, life, |chunks|);
    } else if Compose(rows, chunks, compose, life).mode == Running {
      LifeWasEnough(rows, chunks, compose, life);
    } else {
      LifeWasShort(rows, chunks, compose, life);
    }
  }

  lemma LifeWasEnough(rows: Table, chunks: seq<Group>, compose: Composer, life: Life)
    requires Compose(rows, chunks, compose, life).mode == Running
    ensures life.steps >= 1 + 3 * |Incomplete(rows, chunks, |chunks|)|
  {
    RunningIsOnItsWay(rows, chunks, compose, life, |chunks|);
  }

  lemma LifeWasShort(rows: Table, chunks: seq<Group>, compose: Composer, life: Life)
    requires life.steps > 0 && Compose(rows, chunks, compose, life).mode != Running
    requires forall i: nat :: i < |chunks| ==> !life.canceled(i) && !life.stop(i)
    ensures life.steps < 1 + 3 * |Incomplete(rows, chunks, |chunks|)|
  {
    var i := WhereLifeEnds(rows, chunks, compose, life);
    IncompleteGrows(rows, chunks, i + 1, |chunks|);
    OneMoreIncomplete(rows, chunks, i);
  }

  lemma OneMoreIncomplete(rows: Table, chunks: seq<Group>, i: nat)
    requires i < |chunks| && !Kept(rows, i, chunks[i])
    ensures |Incomplete(rows, chunks, i + 1)| == |Incomplete(rows, chunks, i)| + 1
  {
  }

  lemma WhereLifeEnds(rows: Table, chunks: seq<Group>, compose: Composer, life: Life) returns (i: nat)
    requires life.steps > 0 && Compose(rows, chunks, compose, life).mode != Running
    requires forall i: nat :: i < |chunks| ==> !life.canceled(i) && !life.stop(i)
    ensures i < |chunks| && !Kept(rows, i, chunks[i]) && life.steps - 1 - 3 * |Incomplete(rows, chunks, i)| < 3
  {
    i := HowRunsEnd(rows, chunks, compose, life, |chunks|);
    DiesWithin(Loop(rows, chunks, compose, life, i), Compose(rows, chunks, compose, life), i, rows, chunks[i], compose,
               life);
  }

  lemma DiesWithin(r: Run, s: Run, i: nat, rows: Table, chunk: Group, compose: Composer, life: Life)
    requires i in r.rows && Turned(r, s, i, rows, chunk, compose, life) && s.mode != Running
    requires !life.canceled(i) && !life.stop(i)
    ensures r.steps < 3
  {
  }

  lemma {:induction false} DeadFromTheStart(rows: Table, chunks: seq<Group>, compose: Composer, life: Life, n: nat)
    requires n <= |chunks| && life.steps == 0
    ensures Loop(rows, chunks, compose, life, n) == Run(Killed, rows, 0, [], EMPTY_DRAFT, 0, 0)
  {
    if n > 0 {
      DeadFromTheStart(rows, chunks, compose, life, n - 1);
    }
  }

  lemma {:induction false} IncompleteGrows(rows: Table, chunks: seq<Group>, m: nat, n: nat)
    requires m <= n <= |chunks|
    ensures |Incomplete(rows, chunks, m)| <= |Incomplete(rows, chunks, n)|
    decreases n
  {
    if m < n {
      IncompleteGrows(rows, chunks, m, n - 1);
    }
  }
}
