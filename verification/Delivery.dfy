/** What reaches the student: candidates about the current materials only, whether
    composed over the checkpoint table or in memory. */
module Delivery {
  import opened CandidateGate
  import opened Chunking
  import opened Composition
  import opened Drafts
  import opened Options
  import opened Resume
  import Scheme
  import Text

  // ----------------------------------------------------------------- citations

  /** Every answer for a chunk cites assets of that chunk only. */
  ghost predicate Sound(compose: Composer) {
    forall chunk, attempt: nat {:trigger compose(chunk, attempt)} ::
      compose(chunk, attempt).Answered? ==> CitesOnly(compose(chunk, attempt).draft.candidates, AssetsOf(chunk))
  }

  /** The composer around a model: a decoded answer is grounded and verified. */
  function ComposerOf(model: Composer, cfg: seq<Scheme.Category>, ground: Grounding, trim: Trim): Composer {
    (chunk: Group, attempt: nat) =>
      match model(chunk, attempt)
      case Answered(answer) => Answered(Processed(answer, chunk, cfg, ground, trim))
      case Refused(transient) => Refused(transient)
  }

  /** No model, however it answers, makes an unsound composer. */
  lemma ComposerIsSound(model: Composer, cfg: seq<Scheme.Category>, ground: Grounding, trim: Trim)
    requires ValidScheme(cfg) && Idempotent(trim)
    ensures Sound(ComposerOf(model, cfg, ground, trim))
  {
    var compose := ComposerOf(model, cfg, ground, trim);
    forall chunk, attempt: nat | compose(chunk, attempt).Answered?
      ensures CitesOnly(compose(chunk, attempt).draft.candidates, AssetsOf(chunk))
    {
      ProcessedPassesGate(model(chunk, attempt).draft, chunk, cfg, ground, trim);
    }
  }

  function AssetsIn(refs: seq<AssetRef>): set<string> {
    set r | r in refs :: r.assetId
  }

  lemma AssetsOfRefs(chunk: Group)
    ensures AssetsIn(Refs(chunk)) == AssetsOf(chunk)
  {
    forall a | a in AssetsOf(chunk)
      ensures a in AssetsIn(Refs(chunk))
    {
      var i :| 0 <= i < |chunk| && chunk[i].assetId == a;
      assert Refs(chunk)[i] in Refs(chunk);
    }
  }

  ghost predicate RowCites(row: Row) {
    row.status == Complete ==> CitesOnly(row.draft.candidates, AssetsIn(row.observations))
  }

  /** Every stored result cites only the assets its row was composed from. */
  ghost predicate TableCites(rows: Table) {
    forall i: nat :: i in rows ==> RowCites(rows[i])
  }

  lemma OutcomeCites(compose: Composer, chunk: Group)
    requires Sound(compose)
    ensures Outcome(compose, chunk).Some? ==> CitesOnly(Outcome(compose, chunk).value.candidates, AssetsOf(chunk))
  {
    var k := RetriedStopsOnce(compose, chunk);
    assert compose(chunk, k).Answered? ==> CitesOnly(compose(chunk, k).draft.candidates, AssetsOf(chunk));
  }

  lemma StepCites(r: Run, i: nat, chunk: Group, compose: Composer, life: Life)
    requires Sound(compose) && i in r.rows && r.rows[i].observations == Refs(chunk) && TableCites(r.rows)
    ensures TableCites(Step(r, i, chunk, compose, life).rows)
  {
    StepFrame(r, i, chunk, compose, life);
    if r.rows[i].status != Complete {
      StepCompletes(r, i, chunk, compose, life);
      OutcomeCites(compose, chunk);
      AssetsOfRefs(chunk);
    }
  }

  lemma {:induction false} LoopCites(rows: Table, chunks: seq<Group>, compose: Composer, life: Life, n: nat)
    requires n <= |chunks| && Sound(compose) && TableCites(rows)
    ensures TableCites(Loop(rows, chunks, compose, life, n).rows)
  {
    if n == 0 {
      PlanLeavesNothingStale(rows, chunks);
    } else {
      LoopCites(rows, chunks, compose, life, n - 1);
      var r := Loop(rows, chunks, compose, life, n - 1);
      if r.mode == Running {
        AliveHadSteps(rows, chunks, compose, life, n - 1);
        LoopMirrors(rows, chunks, compose, life, n - 1);
        StepCites(r, n - 1, chunks[n - 1], compose, life);
      }
    }
  }

  /** Work on a batch over time: the materials, the model and the process may be
      different each time. */
  datatype Session = Session(chunks: seq<Group>, compose: Composer, life: Life)

  function History(rows: Table, sessions: seq<Session>): Table {
    if sessions == [] then rows
    else
      var s := sessions[|sessions| - 1];
      Compose(History(rows, sessions[..|sessions| - 1]), s.chunks, s.compose, s.life).rows
  }

  lemma {:induction false} HistoryCites(rows: Table, sessions: seq<Session>)
    requires TableCites(rows)
    requires forall k :: 0 <= k < |sessions| ==> Sound(sessions[k].compose)
    ensures TableCites(History(rows, sessions))
    decreases |sessions|
  {
    if sessions != [] {
      var init, s := sessions[..|sessions| - 1], sessions[|sessions| - 1];
      HistoryCites(rows, init);
      LoopCites(History(rows, init), s.chunks, s.compose, s.life, |s.chunks|);
    }
  }

  lemma MergeCites(m: Draft, d: Draft, assets: set<string>)
    requires CitesOnly(m.candidates, assets) && CitesOnly(d.candidates, assets)
    ensures CitesOnly(Merge(m, d).candidates, assets)
  {
    var cs, n := Merge(m, d).candidates, |m.candidates|;
    forall i, j | 0 <= i < |cs| && 0 <= j < |cs[i].assets|
      ensures cs[i].assets[j].assetId in assets
    {
      if i < n {
        assert cs[i] == m.candidates[i];
      } else {
        assert cs[i].assets == d.candidates[i - n].assets;
      }
    }
  }

  lemma ContributionCites(rows: Table, i: nat, chunk: Group, compose: Composer, assets: set<string>)
    requires Sound(compose) && TableCites(rows) && AssetsOf(chunk) <= assets
    ensures var worth := Contribution(rows, i, chunk, compose);
      worth.Some? ==> CitesOnly(worth.value.candidates, assets)
  {
    AssetsOfRefs(chunk);
    OutcomeCites(compose, chunk);
  }

  ghost predicate AllCite(ds: seq<Draft>, assets: set<string>) {
    forall k :: 0 <= k < |ds| ==> CitesOnly(ds[k].candidates, assets)
  }

  lemma {:induction false} MergedCites(ds: seq<Draft>, assets: set<string>)
    requires AllCite(ds, assets)
    ensures CitesOnly(MergeAll(ds).candidates, assets)
    decreases |ds|
  {
    if ds != [] {
      MergedCites(ds[..|ds| - 1], assets);
      MergeCites(MergeAll(ds[..|ds| - 1]), ds[|ds| - 1], assets);
    }
  }

  lemma OneMoreCites(ds: seq<Draft>, worth: Option<Draft>, assets: set<string>)
    requires AllCite(ds, assets) && (worth.Some? ==> CitesOnly(worth.value.candidates, assets))
    ensures AllCite(ds + Maybe(worth), assets)
  {
  }

  lemma {:induction false} DeliveredCites(rows: Table, chunks: seq<Group>, compose: Composer, n: nat,
                                          assets: set<string>)
    requires n <= |chunks| && Sound(compose) && TableCites(rows)
    requires forall i :: 0 <= i < n ==> AssetsOf(chunks[i]) <= assets
    ensures AllCite(Delivered(rows, chunks, compose, n), assets)
  {
    if n > 0 {
      var worth := Contribution(rows, n - 1, chunks[n - 1], compose);
      DeliveredCites(rows, chunks, compose, n - 1, assets);
      ContributionCites(rows, n - 1, chunks[n - 1], compose, assets);
      OneMoreCites(Delivered(rows, chunks, compose, n - 1), worth, assets);
    }
  }

  lemma {:induction false} InConcat<T>(parts: seq<seq<T>>, i: nat, x: T)
    requires i < |parts| && x in parts[i]
    ensures x in Text.Concat(parts)
    decreases |parts|
  {
    if i < |parts| - 1 {
      InConcat(parts[..|parts| - 1], i, x);
    }
  }

  lemma ChunkAssets(os: seq<Observation>, key: Keying, i: nat)
    requires i < |Plan(os, key)|
    ensures AssetsOf(Plan(os, key)[i]) <= AssetsOf(os)
  {
    PlanPartitions(os, key);
    forall o | o in Plan(os, key)[i]
      ensures o in os
    {
      InConcat(Plan(os, key), i, o);
      assert o in multiset(Text.Concat(Plan(os, key)));
    }
  }

  /** Whatever earlier sessions worked on, also on other materials, the draft a
      process delivers cites only assets of the current observations. */
  lemma {:induction false} DeliversOnlyCurrentAssets(sessions: seq<Session>, os: seq<Observation>, key: Keying,
                                                     compose: Composer, life: Life)
    requires forall k :: 0 <= k < |sessions| ==> Sound(sessions[k].compose)
    requires Sound(compose)
    requires var mode := Compose(History(map[], sessions), Plan(os, key), compose, life).mode;
      mode == Running || mode == Stopped
    ensures CitesOnly(Compose(History(map[], sessions), Plan(os, key), compose, life).draft.candidates, AssetsOf(os))
  {
    var rows, chunks := History(map[], sessions), Plan(os, key);
    HistoryCites(map[], sessions);
    forall i | 0 <= i < |chunks|
      ensures AssetsOf(chunks[i]) <= AssetsOf(os)
    {
      ChunkAssets(os, key, i);
    }
    var k := |chunks|;
    if Compose(rows, chunks, compose, life).mode == Stopped {
      k := StopPoint(rows, chunks, compose, life, |chunks|);
    }
    LoopDelivers(rows, chunks, compose, life, k);
    DeliveredCites(rows, chunks, compose, k, AssetsOf(os));
    MergedCites(Delivered(rows, chunks, compose, k), AssetsOf(os));
  }

  // ------------------------------------------------------- composing in memory

  datatype Tally = Tally(draft: Draft, failedChunks: nat, failedObservations: nat)

  /** The first n chunks composed in memory; there are no retries. */
  function Tallied(chunks: seq<Group>, compose: Composer, n: nat): Tally
    requires n <= |chunks|
  {
    if n == 0 then Tally(EMPTY_DRAFT, 0, 0)
    else
      var t := Tallied(chunks, compose, n - 1);
      match compose(chunks[n - 1], 0)
      case Answered(d) => t.(draft := Merge(t.draft, d))
      case Refused(_) =>
        t.(failedChunks := t.failedChunks + 1, failedObservations := t.failedObservations + |chunks[n - 1]|)
  }

  /** The draft of a whole batch, or None for an error. A single chunk is returned
      as it is, with the ids the model chose. */
  function Batched(chunks: seq<Group>, compose: Composer, trim: Trim): Option<Draft> {
    if chunks == [] then None
    else if |chunks| == 1 then
      match compose(chunks[0], 0)
      case Answered(d) => Some(d)
      case Refused(_) => None
    else
      var t := Tallied(chunks, compose, |chunks|);
      Closed(t.draft, t.failedChunks > 0, MissingChunkWarning(t.failedObservations), trim)
  }

  /** The merged draft with a note on what is missing and tidied warnings, or an
      error when nothing was proposed. */
  function Closed(merged: Draft, incomplete: bool, note: string, trim: Trim): Option<Draft> {
    if merged.candidates == [] then None
    else Some(merged.(warnings := Clean(merged.warnings + if incomplete then [note] else [], trim)))
  }

  method ComposeEach(chunks: seq<Group>, compose: Composer)
    returns (merged: DraftBuilder, failedChunks: nat, failedObservations: nat)
    ensures fresh(merged)
    ensures Tally(merged.Value(), failedChunks, failedObservations) == Tallied(chunks, compose, |chunks|)
  {
    merged := new DraftBuilder();
    failedChunks, failedObservations := 0, 0;
    for i := 0 to |chunks|
      invariant fresh(merged)
      invariant Tally(merged.Value(), failedChunks, failedObservations) == Tallied(chunks, compose, i)
    {
      var reply := compose(chunks[i], 0);
      match reply
      case Answered(draft) =>
        merged.MergeDraft(draft);
      case Refused(_) =>
        failedChunks := failedChunks + 1;
        failedObservations := failedObservations + |chunks[i]|;
    }
  }

  method ComposeBatch(observations: seq<Observation>, l: Letters, compose: Composer, trim: Trim)
    returns (result: Option<Draft>)
    ensures result == Batched(Plan(observations, KeyOf(l)), compose, trim)
  {
    var chunks := PlanChunks(observations, l);
    if observations == [] {
      EmptyPlan(KeyOf(l));
      return None;
    }
    PlanPartitions(observations, KeyOf(l));
    if |chunks| == 1 {
      var reply := compose(chunks[0], 0);
      return if reply.Answered? then Some(reply.draft) else None;
    }
    var merged, failedChunks, failedObservations := ComposeEach(chunks, compose);
    return Closed(merged.Value(), failedChunks > 0, MissingChunkWarning(failedObservations), trim);
  }

  lemma EmptyPlan(key: Keying)
    ensures Plan([], key) == []
  {
    assert Keys([], key) == [];
    assert Groups([], key) == [];
  }

  /** No first attempt fails in a way that would be retried. */
  ghost predicate NoRetries(chunks: seq<Group>, compose: Composer) {
    forall i :: 0 <= i < |chunks| ==> Settles(compose(chunks[i], 0), 0)
  }

  lemma FirstSettles(chunk: Group, compose: Composer)
    requires Settles(compose(chunk, 0), 0)
    ensures Outcome(compose, chunk) ==
      match compose(chunk, 0)
      case Answered(d) => Some(d)
      case Refused(_) => None
  {
  }

  lemma TallyOneMore(chunks: seq<Group>, compose: Composer, n: nat, so: seq<Draft>)
    requires 0 < n <= |chunks| && NoRetries(chunks, compose)
    requires Tallied(chunks, compose, n - 1).draft == MergeAll(so)
    ensures var worth := Contribution(map[], n - 1, chunks[n - 1], compose);
      && Tallied(chunks, compose, n).draft == MergeAll(so + Maybe(worth))
      && (worth.Some? <==> compose(chunks[n - 1], 0).Answered?)
  {
    FirstSettles(chunks[n - 1], compose);
    MergeMaybe(so, Contribution(map[], n - 1, chunks[n - 1], compose));
  }

  lemma {:induction false} TalliedIsDelivered(chunks: seq<Group>, compose: Composer, n: nat)
    requires n <= |chunks| && NoRetries(chunks, compose)
    ensures var t := Tallied(chunks, compose, n);
      && t.draft == MergeAll(Delivered(map[], chunks, compose, n))
      && t.failedChunks == FailedChunks(map[], chunks, compose, n)
      && t.failedObservations == FailedObservations(map[], chunks, compose, n)
  {
    if n > 0 {
      var so := Delivered(map[], chunks, compose, n - 1);
      TalliedIsDelivered(chunks, compose, n - 1);
      TallyOneMore(chunks, compose, n, so);
    }
  }

  lemma {:induction false} FailuresAgree(rows: Table, chunks: seq<Group>, compose: Composer, n: nat)
    requires n <= |chunks| && forall i :: 0 <= i < n ==> chunks[i] != []
    ensures FailedChunks(rows, chunks, compose, n) > 0 <==> FailedObservations(rows, chunks, compose, n) > 0
  {
    if n > 0 {
      FailuresAgree(rows, chunks, compose, n - 1);
    }
  }

  lemma ClosedLike(r: Run, trim: Trim)
    requires r.mode == Running
    ensures var worker := Published(r, 0);
      var batch := Closed(r.draft, r.failedObservations > 0, MissingChunkWarning(r.failedObservations), trim);
      && (batch.Some? <==> worker.Some?)
      && (batch.Some? ==> batch.value == worker.value.(warnings := Clean(worker.value.warnings, trim)))
  {
    assert Notes(Running, r.failedObservations, 0) ==
      if r.failedObservations > 0 then [MissingChunkWarning(r.failedObservations)] else [];
  }

  lemma {:induction false} TallyMatchesRun(chunks: seq<Group>, compose: Composer, lives: seq<Life>, last: Life)
    requires NoRetries(chunks, compose) && forall i :: 0 <= i < |chunks| ==> chunks[i] != []
    requires Compose(After(map[], chunks, compose, lives), chunks, compose, last).mode == Running
    ensures var r := Compose(After(map[], chunks, compose, lives), chunks, compose, last);
      var t := Tallied(chunks, compose, |chunks|);
      && t.draft == r.draft && t.failedObservations == r.failedObservations
      && (t.failedChunks > 0 <==> t.failedObservations > 0)
  {
    var now := After(map[], chunks, compose, lives);
    forall i: nat | i < |chunks|
      ensures Contribution(now, i, chunks[i], compose) == Contribution(map[], i, chunks[i], compose)
    {
      LivesKeepContribution(map[], chunks, compose, lives, i);
    }
    SameContributions(now, map[], chunks, compose, |chunks|);
    LoopDelivers(now, chunks, compose, last, |chunks|);
    TalliedIsDelivered(chunks, compose, |chunks|);
    FailuresAgree(map[], chunks, compose, |chunks|);
  }

  /** With two chunks or more and nothing to retry, composing in memory and
      composing over an empty table, in any number of processes, yield the same
      candidates, usage, duration and model; only repeated and blank warnings
      are dropped in memory. */
  lemma {:induction false} BatchAgreesWithWorker(chunks: seq<Group>, compose: Composer, lives: seq<Life>, last: Life,
                                                 trim: Trim)
    requires |chunks| >= 2 && NoRetries(chunks, compose) && forall i :: 0 <= i < |chunks| ==> chunks[i] != []
    requires Compose(After(map[], chunks, compose, lives), chunks, compose, last).mode == Running
    ensures var worker := Published(Compose(After(map[], chunks, compose, lives), chunks, compose, last), 0);
      var batch := Batched(chunks, compose, trim);
      && (batch.Some? <==> worker.Some?)
      && (batch.Some? ==> batch.value == worker.value.(warnings := Clean(worker.value.warnings, trim)))
  {
    TallyMatchesRun(chunks, compose, lives, last);
    ClosedLike(Compose(After(map[], chunks, compose, lives), chunks, compose, last), trim);
  }
}
