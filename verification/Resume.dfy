/** What killed, canceled, stopped and finished composition runs leave behind and
    deliver. */
module Resume {
  import opened Chunking
  import opened Composition
  import opened Drafts
  import opened Options
  import Text

  /** The row of chunk i already holds the result for exactly this input. */
  predicate Kept(rows: Table, i: nat, chunk: Group) {
    i in rows && rows[i].observations == Refs(chunk) && rows[i].status == Complete
  }

  /** What chunk i is worth to a run that starts from these rows. */
  function Contribution(rows: Table, i: nat, chunk: Group, compose: Composer): Option<Draft> {
    if Kept(rows, i, chunk) then Some(rows[i].draft) else Outcome(compose, chunk)
  }

  // --------------------------------------------------------- rows during a run

  /** The rows are those of the plan, chunk for chunk. */
  ghost predicate Mirrors(rows: Table, chunks: seq<Group>) {
    && (forall i: nat :: i in rows <==> i < |chunks|)
    && forall i: nat :: i < |chunks| ==> rows[i].observations == Refs(chunks[i])
  }

  /** After planning, the rows are exactly 0..n-1 with the input of the current
      plan, and a result survives only under identical input. */
  lemma PlanLeavesNothingStale(rows: Table, chunks: seq<Group>)
    ensures Mirrors(Planned(rows, chunks), chunks)
    ensures forall i: nat :: i < |chunks| ==>
      var row := Planned(rows, chunks)[i];
      if Kept(rows, i, chunks[i]) then row == rows[i] else row.status != Complete
  {
  }

  /** A step touches only its own row. */
  lemma StepFrame(r: Run, i: nat, chunk: Group, compose: Composer, life: Life)
    requires i in r.rows
    ensures var s := Step(r, i, chunk, compose, life);
      && s.rows.Keys == r.rows.Keys
      && s.rows[i].observations == r.rows[i].observations
      && (forall j: nat :: j in r.rows && j != i ==> s.rows[j] == r.rows[j])
      && (r.rows[i].status == Complete ==> s.rows == r.rows && s.sent == r.sent)
  {
  }

  /** What a step does while the process goes on. */
  lemma StepRuns(r: Run, i: nat, chunk: Group, compose: Composer, life: Life)
    requires i in r.rows && r.mode == Running
    requires Step(r, i, chunk, compose, life).mode == Running && r.rows[i].status != Complete
    ensures var s := Step(r, i, chunk, compose, life);
      match Outcome(compose, chunk)
      case Some(d) =>
        && s.draft == Merge(r.draft, d) && s.rows[i].status == Complete && s.rows[i].draft == d
        && s.failedChunks == r.failedChunks && s.failedObservations == r.failedObservations
      case None =>
        && s.draft == r.draft && s.rows[i].status == Failed
        && s.failedChunks == r.failedChunks + 1 && s.failedObservations == r.failedObservations + |chunk|
  {
  }

  /** A row a step leaves complete was complete before, or holds the outcome. */
  lemma StepCompletes(r: Run, i: nat, chunk: Group, compose: Composer, life: Life)
    requires i in r.rows && r.rows[i].status != Complete
    ensures var row := Step(r, i, chunk, compose, life).rows[i];
      row.status == Complete ==> Outcome(compose, chunk) == Some(row.draft)
  {
  }

  /** The rows from n on are as they were planned. */
  ghost predicate UntouchedFrom(now: Table, planned: Table, n: nat, hi: nat) {
    forall i: nat :: n <= i < hi ==> i in now && i in planned && now[i] == planned[i]
  }

  lemma MirrorsStep(r: Run, s: Run, chunks: seq<Group>, planned: Table, i: nat)
    requires i < |chunks| && Mirrors(r.rows, chunks) && UntouchedFrom(r.rows, planned, i, |chunks|)
    requires s.rows.Keys == r.rows.Keys && s.rows[i].observations == r.rows[i].observations
    requires forall j: nat :: j in r.rows && j != i ==> s.rows[j] == r.rows[j]
    ensures Mirrors(s.rows, chunks) && UntouchedFrom(s.rows, planned, i + 1, |chunks|)
  {
    assert forall j: nat :: j in s.rows <==> j in r.rows.Keys;
  }

  lemma {:induction false} LoopMirrors(rows: Table, chunks: seq<Group>, compose: Composer, life: Life, n: nat)
    requires n <= |chunks| && life.steps > 0
    ensures Mirrors(Loop(rows, chunks, compose, life, n).rows, chunks)
    ensures UntouchedFrom(Loop(rows, chunks, compose, life, n).rows, Planned(rows, chunks), n, |chunks|)
  {
    if n == 0 {
      PlanLeavesNothingStale(rows, chunks);
    } else {
      var i := n - 1;
      LoopMirrors(rows, chunks, compose, life, i);
      NextMirrors(rows, chunks, compose, life, i);
    }
  }

  lemma NextMirrors(rows: Table, chunks: seq<Group>, compose: Composer, life: Life, i: nat)
    requires i < |chunks|
    requires Mirrors(Loop(rows, chunks, compose, life, i).rows, chunks)
    requires UntouchedFrom(Loop(rows, chunks, compose, life, i).rows, Planned(rows, chunks), i, |chunks|)
    ensures Mirrors(Loop(rows, chunks, compose, life, i + 1).rows, chunks)
    ensures UntouchedFrom(Loop(rows, chunks, compose, life, i + 1).rows, Planned(rows, chunks), i + 1, |chunks|)
  {
    var r := Loop(rows, chunks, compose, life, i);
    if r.mode == Running {
      OneStepMirrors(r, i, chunks, compose, life, Planned(rows, chunks));
    }
  }

  lemma OneStepMirrors(r: Run, i: nat, chunks: seq<Group>, compose: Composer, life: Life, planned: Table)
    requires i < |chunks| && Mirrors(r.rows, chunks) && UntouchedFrom(r.rows, planned, i, |chunks|)
    ensures var s := Step(r, i, chunks[i], compose, life);
      Mirrors(s.rows, chunks) && UntouchedFrom(s.rows, planned, i + 1, |chunks|)
  {
    StepFrame(r, i, chunks[i], compose, life);
    MirrorsStep(r, Step(r, i, chunks[i], compose, life), chunks, planned, i);
  }

  /** Whatever happens to a process, a stored result for the current input stays
      exactly as it is. */
  lemma {:induction false} LoopKeeps(rows: Table, chunks: seq<Group>, compose: Composer, life: Life, n: nat, i: nat)
    requires n <= |chunks| && i < |chunks| && Kept(rows, i, chunks[i])
    ensures var r := Loop(rows, chunks, compose, life, n);
      Kept(r.rows, i, chunks[i]) && r.rows[i] == rows[i]
  {
    PlanLeavesNothingStale(rows, chunks);
    if n > 0 {
      LoopKeeps(rows, chunks, compose, life, n - 1, i);
      var r := Loop(rows, chunks, compose, life, n - 1);
      if r.mode == Running {
        StepFrame(r, n - 1, chunks[n - 1], compose, life);
      }
    }
  }

  /** A result that appears during a run is the outcome of its chunk. */
  lemma {:induction false} LoopCompletes(rows: Table, chunks: seq<Group>, compose: Composer, life: Life, n: nat, i: nat)
    requires n <= |chunks| && i < |chunks| && !Kept(rows, i, chunks[i])
    ensures var after := Loop(rows, chunks, compose, life, n).rows;
      Kept(after, i, chunks[i]) ==> Outcome(compose, chunks[i]) == Some(after[i].draft)
  {
    PlanLeavesNothingStale(rows, chunks);
    if n > 0 {
      LoopCompletes(rows, chunks, compose, life, n - 1, i);
      var r := Loop(rows, chunks, compose, life, n - 1);
      if r.mode == Running {
        StepFrame(r, n - 1, chunks[n - 1], compose, life);
        if i == n - 1 && r.rows[i].status != Complete {
          StepCompletes(r, i, chunks[i], compose, life);
        }
      }
    }
  }

  /** A run never changes what a chunk is worth to the next one. */
  lemma RunKeepsContribution(rows: Table, chunks: seq<Group>, compose: Composer, life: Life, i: nat)
    requires i < |chunks|
    ensures Contribution(Compose(rows, chunks, compose, life).rows, i, chunks[i], compose)
      == Contribution(rows, i, chunks[i], compose)
  {
    if Kept(rows, i, chunks[i]) {
      LoopKeeps(rows, chunks, compose, life, |chunks|, i);
    } else {
      LoopCompletes(rows, chunks, compose, life, |chunks|, i);
    }
  }

  // -------------------------------------------------------- what a run delivers

  /** The drafts of the first n chunks that yield one, in order. */
  function Delivered(rows: Table, chunks: seq<Group>, compose: Composer, n: nat): seq<Draft>
    requires n <= |chunks|
  {
    if n == 0 then []
    else
      Delivered(rows, chunks, compose, n - 1) + Maybe(Contribution(rows, n - 1, chunks[n - 1], compose))
  }

  function FailedChunks(rows: Table, chunks: seq<Group>, compose: Composer, n: nat): nat
    requires n <= |chunks|
  {
    if n == 0 then 0
    else
      FailedChunks(rows, chunks, compose, n - 1) +
      if Contribution(rows, n - 1, chunks[n - 1], compose).None? then 1 else 0
  }

  function FailedObservations(rows: Table, chunks: seq<Group>, compose: Composer, n: nat): nat
    requires n <= |chunks|
  {
    if n == 0 then 0
    else
      FailedObservations(rows, chunks, compose, n - 1) +
      if Contribution(rows, n - 1, chunks[n - 1], compose).None? then |chunks[n - 1]| else 0
  }

  function DeliveredObservations(rows: Table, chunks: seq<Group>, compose: Composer, n: nat): nat
    requires n <= |chunks|
  {
    if n == 0 then 0
    else
      DeliveredObservations(rows, chunks, compose, n - 1) +
      if Contribution(rows, n - 1, chunks[n - 1], compose).Some? then |chunks[n - 1]| else 0
  }

  function Maybe(d: Option<Draft>): seq<Draft> {
    match d
    case Some(draft) => [draft]
    case None => []
  }

  lemma {:induction false} MergeMaybe(so: seq<Draft>, d: Option<Draft>)
    ensures MergeAll(so + Maybe(d)) == if d.Some? then Merge(MergeAll(so), d.value) else MergeAll(so)
  {
    match d
    case Some(draft) => MergeSnoc(so, draft);
    case None => assert so + [] == so;
  }

  /** What one step adds while the process goes on. */
  lemma StepDelivers(r: Run, i: nat, chunk: Group, compose: Composer, life: Life, worth: Option<Draft>)
    requires i in r.rows && r.mode == Running && Step(r, i, chunk, compose, life).mode == Running
    requires worth == if r.rows[i].status == Complete then Some(r.rows[i].draft) else Outcome(compose, chunk)
    ensures var s := Step(r, i, chunk, compose, life);
      && s.draft == (if worth.Some? then Merge(r.draft, worth.value) else r.draft)
      && s.failedChunks == r.failedChunks + (if worth.None? then 1 else 0)
      && s.failedObservations == r.failedObservations + (if worth.None? then |chunk| else 0)
  {
    if r.rows[i].status != Complete {
      StepRuns(r, i, chunk, compose, life);
    }
  }

  /** A running process is about to see each remaining row as it was planned. */
  lemma {:induction false} NextWorth(rows: Table, chunks: seq<Group>, compose: Composer, life: Life, i: nat)
    requires i < |chunks| && Loop(rows, chunks, compose, life, i).mode == Running
    ensures var r := Loop(rows, chunks, compose, life, i);
      && i in r.rows
      && Contribution(rows, i, chunks[i], compose) ==
        if r.rows[i].status == Complete then Some(r.rows[i].draft) else Outcome(compose, chunks[i])
  {
    AliveHadSteps(rows, chunks, compose, life, i);
    LoopMirrors(rows, chunks, compose, life, i);
    PlanLeavesNothingStale(rows, chunks);
  }

  lemma {:induction false} AliveHadSteps(rows: Table, chunks: seq<Group>, compose: Composer, life: Life, n: nat)
    requires n <= |chunks| && Loop(rows, chunks, compose, life, n).mode != Killed
    ensures life.steps > 0
  {
    if n > 0 {
      AliveHadSteps(rows, chunks, compose, life, n - 1);
    }
  }

  /** A running process has merged exactly what the chunks so far are worth. */
  lemma {:induction false} LoopDelivers(rows: Table, chunks: seq<Group>, compose: Composer, life: Life, n: nat)
    requires n <= |chunks| && Loop(rows, chunks, compose, life, n).mode == Running
    ensures var r := Loop(rows, chunks, compose, life, n);
      && r.draft == MergeAll(Delivered(rows, chunks, compose, n))
      && r.failedChunks == FailedChunks(rows, chunks, compose, n)
      && r.failedObservations == FailedObservations(rows, chunks, compose, n)
  {
    if n > 0 {
      var i := n - 1;
      LoopDelivers(rows, chunks, compose, life, i);
      NextWorth(rows, chunks, compose, life, i);
      var worth := Contribution(rows, i, chunks[i], compose);
      StepDelivers(Loop(rows, chunks, compose, life, i), i, chunks[i], compose, life, worth);
      MergeMaybe(Delivered(rows, chunks, compose, i), worth);
    }
  }

  /** Any sequence of processes working on one batch. */
  function After(rows: Table, chunks: seq<Group>, compose: Composer, lives: seq<Life>): Table {
    if lives == [] then rows
    else Compose(After(rows, chunks, compose, lives[..|lives| - 1]), chunks, compose, lives[|lives| - 1]).rows
  }

  lemma {:induction false} LivesKeepContribution(rows: Table, chunks: seq<Group>, compose: Composer,
                                                 lives: seq<Life>, i: nat)
    requires i < |chunks|
    ensures Contribution(After(rows, chunks, compose, lives), i, chunks[i], compose)
      == Contribution(rows, i, chunks[i], compose)
    decreases |lives|
  {
    if lives != [] {
      var init, last := lives[..|lives| - 1], lives[|lives| - 1];
      LivesKeepContribution(rows, chunks, compose, init, i);
      RunKeepsContribution(After(rows, chunks, compose, init), chunks, compose, last, i);
    }
  }

  lemma {:induction false} SameContributions(a: Table, b: Table, chunks: seq<Group>, compose: Composer, n: nat)
    requires n <= |chunks|
    requires forall i: nat :: i < n ==> Contribution(a, i, chunks[i], compose) == Contribution(b, i, chunks[i], compose)
    ensures Delivered(a, chunks, compose, n) == Delivered(b, chunks, compose, n)
    ensures FailedChunks(a, chunks, compose, n) == FailedChunks(b, chunks, compose, n)
    ensures FailedObservations(a, chunks, compose, n) == FailedObservations(b, chunks, compose, n)
  {
    if n > 0 {
      SameContributions(a, b, chunks, compose, n - 1);
    }
  }

  // ---------------------------------------------------------------- publishing

  const STOPPED_WARNING := "归组被你手动停止，下面是停止前已经归好的候选；其余材料可以重跑，或手动补。"

  function MissingChunkWarning(observations: nat): string {
    "有 " + Text.Digits(observations) +
    " 份材料这一轮没能归组（模型未返回内容），其余候选不受影响；可以在这一页重跑，或手动补一条。"
  }

  function FailedItemsWarning(failed: nat): string {
    "有 " + Text.Digits(failed) + " 张图片或 PDF 页识别失败，候选仅依据其余材料生成"
  }

  /** The draft a finished or stopped run puts up for review; without candidates
      the batch fails instead. */
  function Published(r: Run, failedItems: nat): Option<Draft> {
    if (r.mode != Running && r.mode != Stopped) || r.draft.candidates == [] then None
    else
      Some(r.draft.(warnings := r.draft.warnings + Notes(r.mode, r.failedObservations, failedItems)))
  }

  function Notes(mode: Mode, failedObservations: nat, failedItems: nat): seq<string> {
    (if failedObservations > 0 then [MissingChunkWarning(failedObservations)] else []) +
    (if mode == Stopped then [STOPPED_WARNING] else []) +
    (if failedItems > 0 then [FailedItemsWarning(failedItems)] else [])
  }

  lemma PublishedSame(r: Run, s: Run, failedItems: nat)
    requires r.mode == s.mode && r.draft == s.draft && r.failedObservations == s.failedObservations
    ensures Published(r, failedItems) == Published(s, failedItems)
  {
  }

  /** Resuming is invisible: however many processes were killed, canceled or
      stopped on the way, the run that reaches the end publishes what a single
      uninterrupted run from the original rows publishes. */
  lemma {:induction false} ResumeEqualsUninterrupted(rows: Table, chunks: seq<Group>, compose: Composer,
                                                     lives: seq<Life>,
                                  last: Life, whole: Life, failedItems: nat)
    requires Compose(After(rows, chunks, compose, lives), chunks, compose, last).mode == Running
    requires Compose(rows, chunks, compose, whole).mode == Running
    ensures var resumed := Compose(After(rows, chunks, compose, lives), chunks, compose, last);
      var single := Compose(rows, chunks, compose, whole);
      && Published(resumed, failedItems) == Published(single, failedItems)
      && resumed.draft == single.draft
      && resumed.failedChunks == single.failedChunks
      && resumed.failedObservations == single.failedObservations
  {
    var now := After(rows, chunks, compose, lives);
    forall i: nat | i < |chunks|
      ensures Contribution(now, i, chunks[i], compose) == Contribution(rows, i, chunks[i], compose)
    {
      LivesKeepContribution(rows, chunks, compose, lives, i);
    }
    SameContributions(now, rows, chunks, compose, |chunks|);
    LoopDelivers(now, chunks, compose, last, |chunks|);
    LoopDelivers(rows, chunks, compose, whole, |chunks|);
    PublishedSame(Compose(now, chunks, compose, last), Compose(rows, chunks, compose, whole), failedItems);
  }

  lemma LongStep(r: Run, i: nat, chunk: Group, compose: Composer, life: Life)
    requires i in r.rows && r.mode == Running && r.steps >= 3 && !life.canceled(i) && !life.stop(i)
    ensures var s := Step(r, i, chunk, compose, life);
      s.mode == Running && s.steps >= r.steps - 3
  {
  }

  lemma LongStepOfLoop(rows: Table, chunks: seq<Group>, compose: Composer, life: Life, i: nat)
    requires i < |chunks| && !life.canceled(i) && !life.stop(i)
    requires Loop(rows, chunks, compose, life, i).mode == Running && Loop(rows, chunks, compose, life, i).steps >= 3
    ensures var r, s := Loop(rows, chunks, compose, life, i), Loop(rows, chunks, compose, life, i + 1);
      s.mode == Running && s.steps >= r.steps - 3
  {
    NextWorth(rows, chunks, compose, life, i);
    LongStep(Loop(rows, chunks, compose, life, i), i, chunks[i], compose, life);
  }

  /** A process that lives for three events a chunk after planning, and sees
      neither cancellation nor a stop, reaches the end. */
  lemma {:induction false} LongLifeFinishes(rows: Table, chunks: seq<Group>, compose: Composer, life: Life, n: nat)
    requires n <= |chunks| && life.steps >= 1 + 3 * n
    requires forall i: nat :: i < n ==> !life.canceled(i) && !life.stop(i)
    ensures Loop(rows, chunks, compose, life, n).mode == Running
    ensures Loop(rows, chunks, compose, life, n).steps >= life.steps - 1 - 3 * n
  {
    if n == 0 {
      assert Loop(rows, chunks, compose, life, 0) == Begin(rows, chunks, life);
    } else {
      var i := n - 1;
      LongLifeFinishes(rows, chunks, compose, life, i);
      LongStepOfLoop(rows, chunks, compose, life, i);
    }
  }

  // ----------------------------------------------------- no repeated model calls

  lemma StepSends(r: Run, i: nat, chunk: Group, compose: Composer, life: Life)
    requires i in r.rows
    ensures var sent := Step(r, i, chunk, compose, life).sent;
      sent == r.sent || (sent == r.sent + [i] && r.rows[i].status != Complete)
  {
  }

  ghost predicate FreshSends(sent: seq<nat>, rows: Table, chunks: seq<Group>, n: nat)
    requires n <= |chunks|
  {
    && (forall k :: 0 <= k < |sent| ==> sent[k] < n && !Kept(rows, sent[k], chunks[sent[k]]))
    && (forall k, l :: 0 <= k < l < |sent| ==> sent[k] < sent[l])
  }

  lemma GrowSends(sent: seq<nat>, more: seq<nat>, rows: Table, chunks: seq<Group>, n: nat)
    requires n < |chunks| && FreshSends(sent, rows, chunks, n)
    requires more == sent || (more == sent + [n] && !Kept(rows, n, chunks[n]))
    ensures FreshSends(more, rows, chunks, n + 1)
  {
  }

  /** A process sends chunks in ascending order, each at most once, and never one
      whose result is stored. */
  lemma {:induction false} SentOnlyIncomplete(rows: Table, chunks: seq<Group>, compose: Composer, life: Life, n: nat)
    requires n <= |chunks|
    ensures FreshSends(Loop(rows, chunks, compose, life, n).sent, rows, chunks, n)
  {
    if n > 0 {
      var i := n - 1;
      SentOnlyIncomplete(rows, chunks, compose, life, i);
      var r := Loop(rows, chunks, compose, life, i);
      if r.mode == Running {
        StepSends(r, i, chunks[i], compose, life);
        if Kept(rows, i, chunks[i]) {
          LoopKeeps(rows, chunks, compose, life, i, i);
        }
      }
      GrowSends(r.sent, Loop(rows, chunks, compose, life, n).sent, rows, chunks, i);
    }
  }

  lemma {:induction false} LivesKeepRow(rows: Table, chunks: seq<Group>, compose: Composer, lives: seq<Life>, i: nat)
    requires i < |chunks| && Kept(rows, i, chunks[i])
    ensures var after := After(rows, chunks, compose, lives);
      Kept(after, i, chunks[i]) && after[i] == rows[i]
    decreases |lives|
  {
    if lives != [] {
      var init := lives[..|lives| - 1];
      LivesKeepRow(rows, chunks, compose, init, i);
      LoopKeeps(After(rows, chunks, compose, init), chunks, compose, lives[|lives| - 1], |chunks|, i);
    }
  }

  /** Once a chunk is committed as complete, no later process sends it again. */
  lemma {:induction false} CompleteNeverResent(rows: Table, chunks: seq<Group>, compose: Composer, lives: seq<Life>,
                                               next: Life, i: nat)
    requires i < |chunks| && Kept(rows, i, chunks[i])
    ensures i !in Compose(After(rows, chunks, compose, lives), chunks, compose, next).sent
  {
    var now := After(rows, chunks, compose, lives);
    LivesKeepRow(rows, chunks, compose, lives, i);
    SentOnlyIncomplete(now, chunks, compose, next, |chunks|);
    var sent := Compose(now, chunks, compose, next).sent;
    assert forall k :: 0 <= k < |sent| ==> !Kept(now, sent[k], chunks[sent[k]]);
  }

  // ------------------------------------------------------------ conservation

  lemma {:induction false} ObservationsAddUp(rows: Table, chunks: seq<Group>, compose: Composer, n: nat)
    requires n <= |chunks|
    ensures DeliveredObservations(rows, chunks, compose, n) + FailedObservations(rows, chunks, compose, n)
      == |Text.Concat(chunks[..n])|
  {
    if n > 0 {
      ObservationsAddUp(rows, chunks, compose, n - 1);
      assert chunks[..n][..n - 1] == chunks[..n - 1];
    }
  }

  /** A run that was not stopped accounts for every observation: what it
      delivered and what it reports as failed add up to the batch. */
  lemma {:induction false} EveryObservationAccounted(rows: Table, os: seq<Observation>, key: Keying,
                                                     compose: Composer, life: Life)
    requires Compose(rows, Plan(os, key), compose, life).mode == Running
    ensures var chunks := Plan(os, key);
      DeliveredObservations(rows, chunks, compose, |chunks|)
      + Compose(rows, chunks, compose, life).failedObservations == |os|
  {
    var chunks := Plan(os, key);
    LoopDelivers(rows, chunks, compose, life, |chunks|);
    ObservationsAddUp(rows, chunks, compose, |chunks|);
    assert chunks[..|chunks|] == chunks;
    PlanPartitions(os, key);
    assert |Text.Concat(chunks)| == |multiset(Text.Concat(chunks))| == |multiset(os)| == |os|;
  }

  // ------------------------------------------------------------- stop requests

  /** The drafts of the complete rows with lo <= seq < hi. */
  function CompleteDrafts(rows: Table, lo: nat, hi: nat): seq<Draft>
    decreases hi
  {
    if hi <= lo then []
    else
      CompleteDrafts(rows, lo, hi - 1) +
      Maybe(if hi - 1 in rows && rows[hi - 1].status == Complete then Some(rows[hi - 1].draft) else None)
  }

  lemma {:induction false} CompleteDraftsFrame(a: Table, b: Table, lo: nat, hi: nat)
    requires forall i: nat :: lo <= i < hi ==> (i in a <==> i in b) && (i in a ==> a[i] == b[i])
    ensures CompleteDrafts(a, lo, hi) == CompleteDrafts(b, lo, hi)
    decreases hi
  {
    if lo < hi {
      CompleteDraftsFrame(a, b, lo, hi - 1);
    }
  }

  lemma {:induction false} CompleteDraftsSplit(rows: Table, lo: nat, mid: nat, hi: nat)
    requires lo <= mid <= hi
    ensures CompleteDrafts(rows, lo, hi) == CompleteDrafts(rows, lo, mid) + CompleteDrafts(rows, mid, hi)
    decreases hi
  {
    if mid < hi {
      CompleteDraftsSplit(rows, lo, mid, hi - 1);
    }
  }

  /** What a running process has delivered is what it has left complete. */
  lemma {:induction false} DeliveredIsComplete(rows: Table, chunks: seq<Group>, compose: Composer, life: Life, n: nat)
    requires n <= |chunks| && Loop(rows, chunks, compose, life, n).mode == Running
    ensures Delivered(rows, chunks, compose, n) == CompleteDrafts(Loop(rows, chunks, compose, life, n).rows, 0, n)
  {
    if n > 0 {
      var i := n - 1;
      var r, s := Loop(rows, chunks, compose, life, i), Loop(rows, chunks, compose, life, n);
      DeliveredIsComplete(rows, chunks, compose, life, i);
      NextWorth(rows, chunks, compose, life, i);
      StepFrame(r, i, chunks[i], compose, life);
      CompleteDraftsFrame(r.rows, s.rows, 0, i);
      if r.rows[i].status != Complete {
        StepRuns(r, i, chunks[i], compose, life);
      }
    }
  }

  /** Where a stopped process stopped: before a chunk that was not complete. */
  lemma {:induction false} StopPoint(rows: Table, chunks: seq<Group>, compose: Composer, life: Life, n: nat)
    returns (k: nat)
    requires n <= |chunks| && Loop(rows, chunks, compose, life, n).mode == Stopped
    ensures k < n && life.stop(k) && !Kept(rows, k, chunks[k])
    ensures Loop(rows, chunks, compose, life, k).mode == Running
    ensures Loop(rows, chunks, compose, life, n) == Loop(rows, chunks, compose, life, k).(mode := Stopped)
  {
    var r := Loop(rows, chunks, compose, life, n - 1);
    if r.mode == Running {
      k := n - 1;
      NextWorth(rows, chunks, compose, life, k);
      if Kept(rows, k, chunks[k]) {
        LoopKeeps(rows, chunks, compose, life, k, k);
      }
    } else {
      k := StopPoint(rows, chunks, compose, life, n - 1);
    }
  }

  lemma NoStopAt(rows: Table, chunks: seq<Group>, compose: Composer, life: Life, i: nat)
    requires i < |chunks| && Loop(rows, chunks, compose, life, i + 1).mode == Running
    ensures Loop(rows, chunks, compose, life, i).mode == Running && (Kept(rows, i, chunks[i]) || !life.stop(i))
  {
    RunningRow(rows, chunks, compose, life, i);
    StopEndsStep(Loop(rows, chunks, compose, life, i), i, chunks[i], compose, life);
  }

  lemma StopEndsStep(r: Run, i: nat, chunk: Group, compose: Composer, life: Life)
    requires i in r.rows
    ensures r.rows[i].status != Complete && life.stop(i) ==> Step(r, i, chunk, compose, life).mode != Running
  {
  }

  /** The row a running process comes to is complete exactly when it was kept. */
  lemma {:induction false} RunningRow(rows: Table, chunks: seq<Group>, compose: Composer, life: Life, i: nat)
    requires i < |chunks| && Loop(rows, chunks, compose, life, i).mode == Running
    ensures var r := Loop(rows, chunks, compose, life, i);
      i in r.rows && (r.rows[i].status == Complete <==> Kept(rows, i, chunks[i]))
  {
    AliveHadSteps(rows, chunks, compose, life, i);
    LoopMirrors(rows, chunks, compose, life, i);
    PlanLeavesNothingStale(rows, chunks);
  }

  /** The results for the current input that the table holds with lo <= seq < hi. */
  function StoredDrafts(rows: Table, chunks: seq<Group>, lo: nat, hi: nat): seq<Draft>
    requires hi <= |chunks|
    decreases hi
  {
    if hi <= lo then []
    else
      StoredDrafts(rows, chunks, lo, hi - 1) +
      Maybe(if Kept(rows, hi - 1, chunks[hi - 1]) then Some(rows[hi - 1].draft) else None)
  }

  lemma {:induction false} StoredIsComplete(rows: Table, chunks: seq<Group>, lo: nat, hi: nat)
    requires hi <= |chunks|
    ensures CompleteDrafts(Planned(rows, chunks), lo, hi) == StoredDrafts(rows, chunks, lo, hi)
    decreases hi
  {
    if lo < hi {
      PlanLeavesNothingStale(rows, chunks);
      StoredIsComplete(rows, chunks, lo, hi - 1);
    }
  }

  predicate AllEmpty(ds: seq<Draft>) {
    forall i :: 0 <= i < |ds| ==> ds[i].candidates == [] && ds[i].warnings == []
  }

  /** Results that change nothing when they are merged behind others: no candidates, no
      warnings, no usage or duration in total, and no model where none is named yet. */
  predicate NothingBehind(before: seq<Draft>, stored: seq<Draft>) {
    && AllEmpty(stored)
    && TotalUsage(stored) == NO_USAGE && TotalDuration(stored) == 0
    && (FirstModel(before) == "" ==> FirstModel(stored) == "")
  }

  lemma {:induction false} NothingBehindExactly(before: seq<Draft>, stored: seq<Draft>)
    ensures MergeAll(before + stored) == MergeAll(before) <==> NothingBehind(before, stored)
  {
    MergeAppend(before, stored);
    MergedModel(before);
    MergedModel(stored);
    MergedIsEmpty(stored);
    AddsNothingExactly(before, stored, MergeAll(before), MergeAll(stored));
  }

  lemma {:induction false} AddsNothingExactly(before: seq<Draft>, stored: seq<Draft>, m: Draft, d: Draft)
    requires m.model == FirstModel(before)
    requires d.model == FirstModel(stored) && d.usage == TotalUsage(stored) && d.durationMs == TotalDuration(stored)
    requires d.candidates == [] && d.warnings == [] <==> AllEmpty(stored)
    ensures Merge(m, d) == m <==> NothingBehind(before, stored)
  {
    MergeAddsNothing(m, d);
  }

  lemma {:induction false} MergedModel(ds: seq<Draft>)
    ensures var m := MergeAll(ds);
      m.model == FirstModel(ds) && m.usage == TotalUsage(ds) && m.durationMs == TotalDuration(ds)
  {
    MergedDraft(ds);
  }

  lemma {:induction false} MergedIsEmpty(ds: seq<Draft>)
    ensures MergeAll(ds).candidates == [] && MergeAll(ds).warnings == [] <==> AllEmpty(ds)
    decreases |ds|
  {
    if ds != [] {
      var init, last := ds[..|ds| - 1], ds[|ds| - 1];
      MergedIsEmpty(init);
      MergeIsEmpty(MergeAll(init), last);
      AllEmptySnoc(init, last);
      assert ds == init + [last];
      MergeSnoc(init, last);
    }
  }

  lemma AllEmptySnoc(init: seq<Draft>, last: Draft)
    ensures AllEmpty(init + [last]) <==> AllEmpty(init) && last.candidates == [] && last.warnings == []
  {
    if AllEmpty(init + [last]) {
      assert (init + [last])[|init|] == last;
      assert forall i :: 0 <= i < |init| ==> (init + [last])[i] == init[i];
    }
  }

  lemma MergeIsEmpty(m: Draft, d: Draft)
    ensures Merge(m, d).candidates == [] && Merge(m, d).warnings == [] <==>
      m.candidates == [] && m.warnings == [] && d.candidates == [] && d.warnings == []
  {
    assert |Merge(m, d).candidates| == |m.candidates| + |d.candidates|;
    assert |Merge(m, d).warnings| == |m.warnings| + |d.warnings|;
  }

  /** Rows that a running process has not come to hold what the table stored. */
  lemma {:induction false} BehindIsStored(rows: Table, chunks: seq<Group>, compose: Composer, life: Life, k: nat)
    requires k <= |chunks| && Loop(rows, chunks, compose, life, k).mode == Running
    ensures CompleteDrafts(Loop(rows, chunks, compose, life, k).rows, k, |chunks|) ==
      StoredDrafts(rows, chunks, k, |chunks|)
  {
    AliveHadSteps(rows, chunks, compose, life, k);
    LoopMirrors(rows, chunks, compose, life, k);
    PlanLeavesNothingStale(rows, chunks);
    CompleteDraftsFrame(Loop(rows, chunks, compose, life, k).rows, Planned(rows, chunks), k, |chunks|);
    StoredIsComplete(rows, chunks, k, |chunks|);
  }

  /** No stop request is seen at the first n rows without a stored result. */
  predicate NoStops(rows: Table, chunks: seq<Group>, life: Life, n: nat)
    requires n <= |chunks|
  {
    n == 0 || (NoStops(rows, chunks, life, n - 1) && (Kept(rows, n - 1, chunks[n - 1]) || !life.stop(n - 1)))
  }

  lemma {:induction false} NoStopsBefore(rows: Table, chunks: seq<Group>, life: Life, n: nat, i: nat)
    requires i < n <= |chunks| && NoStops(rows, chunks, life, n)
    ensures Kept(rows, i, chunks[i]) || !life.stop(i)
    decreases n
  {
    if i < n - 1 {
      NoStopsBefore(rows, chunks, life, n - 1, i);
    }
  }

  /** A running process met no stop request so far. */
  lemma {:induction false} RunningMeansNoStops(rows: Table, chunks: seq<Group>, compose: Composer, life: Life, n: nat)
    requires n <= |chunks| && Loop(rows, chunks, compose, life, n).mode == Running
    ensures NoStops(rows, chunks, life, n)
  {
    if n > 0 {
      var i := n - 1;
      NoStopAt(rows, chunks, compose, life, i);
      RunningMeansNoStops(rows, chunks, compose, life, i);
    }
  }

  /** A run is stopped before the first row without a stored result at which the
      request is seen. It delivers the complete rows before; that is all of them
      exactly when the results stored for later chunks would change nothing, as when
      there are none. */
  lemma StopDelivers(rows: Table, chunks: seq<Group>, compose: Composer, life: Life) returns (k: nat)
    requires Compose(rows, chunks, compose, life).mode == Stopped
    ensures k < |chunks| && life.stop(k) && !Kept(rows, k, chunks[k])
    ensures forall i: nat :: i < k ==> Kept(rows, i, chunks[i]) || !life.stop(i)
    ensures var r := Compose(rows, chunks, compose, life);
      && r.draft == MergeAll(CompleteDrafts(r.rows, 0, k))
      && (r.draft == MergeAll(CompleteDrafts(r.rows, 0, |chunks|)) <==>
          NothingBehind(Delivered(rows, chunks, compose, k), StoredDrafts(rows, chunks, k, |chunks|)))
  {
    var n := |chunks|;
    k := StopPoint(rows, chunks, compose, life, n);
    var stopped := Compose(rows, chunks, compose, life).rows;
    RunningMeansNoStops(rows, chunks, compose, life, k);
    forall i: nat | i < k
      ensures Kept(rows, i, chunks[i]) || !life.stop(i)
    {
      NoStopsBefore(rows, chunks, life, k, i);
    }
    LoopDelivers(rows, chunks, compose, life, k);
    DeliveredIsComplete(rows, chunks, compose, life, k);
    BehindIsStored(rows, chunks, compose, life, k);
    CompleteDraftsSplit(stopped, 0, k, n);
    NothingBehindExactly(Delivered(rows, chunks, compose, k), StoredDrafts(rows, chunks, k, n));
  }

  /** A batch of two chunks whose second is stored, stopped before the first: the
      stored candidates are not delivered. */
  lemma StopSkipsStoredResults(first: Group, second: Group, stored: Draft, compose: Composer)
    requires stored.candidates != []
    ensures var rows: Table := map[1 := Row(Complete, Refs(second), stored, 1)];
      var r := Compose(rows, [first, second], compose, Life(10, (i: nat) => false, (i: nat) => true));
      r.mode == Stopped && r.draft.candidates == [] && 1 in r.rows && r.rows[1].draft.candidates != []
  {
    var rows: Table := map[1 := Row(Complete, Refs(second), stored, 1)];
    var life := Life(10, (i: nat) => false, (i: nat) => true);
    var chunks := [first, second];
    PlanLeavesNothingStale(rows, chunks);
    var r0 := Loop(rows, chunks, compose, life, 0);
    assert r0.mode == Running && 0 !in rows;
    assert Loop(rows, chunks, compose, life, 1) == r0.(mode := Stopped);
    assert Kept(rows, 1, chunks[1]);
  }
}
