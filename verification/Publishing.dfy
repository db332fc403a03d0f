/** What a run puts up for review, and what the student is told about it
    (backend/internal/aijob/worker.go). */
module Publishing {
  import CandidateGate
  import opened Chunking
  import opened Composition
  import opened DraftLaws
  import opened Drafts
  import opened Options
  import opened Resume
  import Text

  /** The end of processing a batch: nothing without candidates, and otherwise the draft
      with what is to be said about it. */
  method PublishDraft(r: Run, failedItems: nat) returns (published: Option<Draft>)
    ensures published == Published(r, failedItems)
  {
    if r.mode == Killed || r.mode == Canceled {
      return None;
    }
    if |r.draft.candidates| == 0 {
      return None;
    }
    var warnings := r.draft.warnings;
    if r.failedObservations > 0 {
      warnings := warnings + [MissingChunkWarning(r.failedObservations)];
    }
    if r.mode == Stopped {
      warnings := warnings + [STOPPED_WARNING];
    }
    if failedItems > 0 {
      warnings := warnings + [FailedItemsWarning(failedItems)];
    }
    published := Some(r.draft.(warnings := warnings));
    assert warnings == r.draft.warnings + Notes(r.mode, r.failedObservations, failedItems);
  }

  // ------------------------------------------------------------------ what is said

  /** A message with a number in it tells which number. */
  lemma NumbersAreTold(front: string, a: nat, b: nat, back: string)
    requires front + Text.Digits(a) + back == front + Text.Digits(b) + back
    ensures a == b
  {
    var s, n, k := front + Text.Digits(a) + back, |front|, |back|;
    assert |s| == n + |Text.Digits(b)| + k;
    assert Text.Digits(a) == s[n..|s| - k] == Text.Digits(b);
    Text.DigitsInjective(a, b);
  }

  const MISSING_BACK := " 份材料这一轮没能归组（模型未返回内容），其余候选不受影响；可以在这一页重跑，或手动补一条。"
  const FAILED_BACK := " 张图片或 PDF 页识别失败，候选仅依据其余材料生成"

  lemma MissingTells(a: nat, b: nat)
    ensures MissingChunkWarning(a) == MissingChunkWarning(b) <==> a == b
    ensures MissingChunkWarning(a) != STOPPED_WARNING
  {
    assert MissingChunkWarning(a)[0] == '有' && STOPPED_WARNING[0] == '归';
    if MissingChunkWarning(a) == MissingChunkWarning(b) {
      NumbersAreTold("有 ", a, b, MISSING_BACK);
    }
  }

  lemma FailedTells(a: nat, b: nat)
    ensures FailedItemsWarning(a) == FailedItemsWarning(b) <==> a == b
    ensures FailedItemsWarning(a) != STOPPED_WARNING
  {
    assert FailedItemsWarning(a)[0] == '有' && STOPPED_WARNING[0] == '归';
    if FailedItemsWarning(a) == FailedItemsWarning(b) {
      NumbersAreTold("有 ", a, b, FAILED_BACK);
    }
  }

  lemma MissingIsNotFailed(a: nat, b: nat)
    ensures MissingChunkWarning(a) != FailedItemsWarning(b)
  {
    var s, t := MissingChunkWarning(a), FailedItemsWarning(b);
    assert s[|s| - 1] == MISSING_BACK[|MISSING_BACK| - 1] == '。';
    assert t[|t| - 1] == FAILED_BACK[|FAILED_BACK| - 1] == '成';
  }

  /** What is said: how many observations are missing, if any; that the run was stopped,
      if it was; and how many images failed before, if any. */
  lemma NotesTell(mode: Mode, failedObservations: nat, failedItems: nat, n: nat)
    ensures var notes := Notes(mode, failedObservations, failedItems);
      && (MissingChunkWarning(n) in notes <==> n == failedObservations && n > 0)
      && (STOPPED_WARNING in notes <==> mode == Stopped)
      && (FailedItemsWarning(n) in notes <==> n == failedItems && n > 0)
      && |notes| == (if failedObservations > 0 then 1 else 0) + (if mode == Stopped then 1 else 0)
           + (if failedItems > 0 then 1 else 0)
  {
    MissingTells(n, failedObservations);
    MissingTells(failedObservations, n);
    FailedTells(n, failedItems);
    FailedTells(failedItems, n);
    MissingIsNotFailed(n, failedItems);
    MissingIsNotFailed(failedObservations, n);
    Members(MissingChunkWarning(failedObservations), failedObservations > 0, STOPPED_WARNING, mode == Stopped,
            FailedItemsWarning(failedItems), failedItems > 0, Notes(mode, failedObservations, failedItems));
  }

  lemma Members(a: string, p: bool, b: string, q: bool, c: string, r: bool, notes: seq<string>)
    requires notes == (if p then [a] else []) + (if q then [b] else []) + (if r then [c] else [])
    ensures forall x :: x in notes <==> (p && x == a) || (q && x == b) || (r && x == c)
    ensures |notes| == (if p then 1 else 0) + (if q then 1 else 0) + (if r then 1 else 0)
  {
  }

  // ---------------------------------------------------------------- a whole run

  predicate Barren(worth: Option<Draft>) {
    worth.None? || worth.value.candidates == []
  }

  lemma OneWorthMore(rows: Table, chunks: seq<Group>, compose: Composer, n: nat)
    requires n < |chunks|
    ensures var worth := Contribution(rows, n, chunks[n], compose);
      Text.Concat(CandidatesOf(Delivered(rows, chunks, compose, n + 1))) ==
        Text.Concat(CandidatesOf(Delivered(rows, chunks, compose, n)))
        + if worth.Some? then worth.value.candidates else []
  {
    var before, worth := Delivered(rows, chunks, compose, n), Contribution(rows, n, chunks[n], compose);
    if worth.Some? {
      assert CandidatesOf(before + [worth.value]) == CandidatesOf(before) + [worth.value.candidates];
      Text.ConcatSnoc(CandidatesOf(before), worth.value.candidates);
    } else {
      assert before + [] == before;
    }
  }

  predicate AllBarren(rows: Table, chunks: seq<Group>, compose: Composer, n: nat)
    requires n <= |chunks|
  {
    n == 0 || (AllBarren(rows, chunks, compose, n - 1) && Barren(Contribution(rows, n - 1, chunks[n - 1], compose)))
  }

  predicate TellsBarren(rows: Table, chunks: seq<Group>, compose: Composer, n: nat)
    requires n <= |chunks|
  {
    Text.Concat(CandidatesOf(Delivered(rows, chunks, compose, n))) == [] <==> AllBarren(rows, chunks, compose, n)
  }

  lemma TellsOneMore(rows: Table, chunks: seq<Group>, compose: Composer, n: nat)
    requires n < |chunks| && TellsBarren(rows, chunks, compose, n)
    ensures TellsBarren(rows, chunks, compose, n + 1)
  {
    OneWorthMore(rows, chunks, compose, n);
  }

  lemma {:induction false} NothingDelivered(rows: Table, chunks: seq<Group>, compose: Composer, n: nat)
    requires n <= |chunks|
    ensures TellsBarren(rows, chunks, compose, n)
  {
    for k := 0 to n
      invariant TellsBarren(rows, chunks, compose, k)
    {
      TellsOneMore(rows, chunks, compose, k);
    }
  }

  lemma {:induction false} BarrenAt(rows: Table, chunks: seq<Group>, compose: Composer, n: nat)
    requires n <= |chunks|
    ensures AllBarren(rows, chunks, compose, n) <==>
      forall i: nat :: i < n ==> Barren(Contribution(rows, i, chunks[i], compose))
  {
    if n > 0 {
      BarrenAt(rows, chunks, compose, n - 1);
    }
  }

  /** The candidates of the drafts, one after the other, numbered from one. */
  predicate Collected(candidates: seq<CandidateGate.Candidate>, ds: seq<Draft>) {
    var all := Text.Concat(CandidatesOf(ds));
    |candidates| == |all|
    && forall i :: 0 <= i < |all| ==> candidates[i] == all[i].(id := "candidate-" + Text.Digits(i + 1))
  }

  lemma {:induction false} MergedIsCollected(ds: seq<Draft>)
    ensures Collected(MergeAll(ds).candidates, ds)
  {
    var all := Text.Concat(CandidatesOf(ds));
    if all == [] {
      MergedDraft(ds);
      assert Numbered(all, 0) == [];
    } else {
      MergedCandidates(ds, 0);
    }
    forall i | 0 <= i < |all|
      ensures MergeAll(ds).candidates[i] == all[i].(id := "candidate-" + Text.Digits(i + 1))
    {
      MergedCandidates(ds, i);
    }
  }

  lemma EndPublishes(r: Run, failedItems: nat, n: nat)
    requires r.mode == Running
    ensures var p := Published(r, failedItems);
      && (p.None? <==> r.draft.candidates == [])
      && (p.Some? ==>
            && p.value.candidates == r.draft.candidates && r.draft.warnings <= p.value.warnings
            && (MissingChunkWarning(n) in p.value.warnings[|r.draft.warnings|..] <==> 0 < n == r.failedObservations))
  {
    var notes := Notes(r.mode, r.failedObservations, failedItems);
    NotesTell(r.mode, r.failedObservations, failedItems, n);
    assert (r.draft.warnings + notes)[|r.draft.warnings|..] == notes;
  }

  /** A run that reaches the end publishes the candidates of what its chunks are worth, in
      order, unless there are none; it says how many observations are missing exactly when
      some are: those of the batch that no chunk delivered. */
  lemma {:induction false} WholeRunPublishes(rows: Table, os: seq<Observation>, key: Keying, compose: Composer,
                                             life: Life, failedItems: nat, n: nat)
    requires Compose(rows, Plan(os, key), compose, life).mode == Running
    ensures var chunks := Plan(os, key);
      var p, ds := Published(Compose(rows, chunks, compose, life), failedItems), Delivered(rows, chunks, compose, |chunks|);
      && (p.None? <==> forall i: nat :: i < |chunks| ==> Barren(Contribution(rows, i, chunks[i], compose)))
      && (p.Some? ==>
            && Collected(p.value.candidates, ds)
            && Text.Concat(WarningsOf(ds)) <= p.value.warnings
            && (MissingChunkWarning(n) in p.value.warnings[|Text.Concat(WarningsOf(ds))|..] <==>
                  0 < n == |os| - DeliveredObservations(rows, chunks, compose, |chunks|)))
  {
    var chunks := Plan(os, key);
    var r, ds := Compose(rows, chunks, compose, life), Delivered(rows, chunks, compose, |chunks|);
    LoopDelivers(rows, chunks, compose, life, |chunks|);
    EveryObservationAccounted(rows, os, key, compose, life);
    NothingDelivered(rows, chunks, compose, |chunks|);
    BarrenAt(rows, chunks, compose, |chunks|);
    MergedIsCollected(ds);
    MergedDraft(ds);
    EndPublishes(r, failedItems, n);
  }

  /** Every chunk is delivered or counted as failed. */
  lemma {:induction false} ChunksAddUp(rows: Table, chunks: seq<Group>, compose: Composer, n: nat)
    requires n <= |chunks|
    ensures |Delivered(rows, chunks, compose, n)| + FailedChunks(rows, chunks, compose, n) == n
  {
    if n > 0 {
      ChunksAddUp(rows, chunks, compose, n - 1);
    }
  }
}
