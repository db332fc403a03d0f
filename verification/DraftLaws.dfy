/** What merging and post-processing leave of every single candidate
    (backend/internal/aiassist/aiassist.go). */
module DraftLaws {
  import opened CandidateGate
  import opened CandidateOutcome
  import opened Chunking
  import opened Drafts
  import opened Options
  import opened Scheme
  import Text

  /** Merging changes nothing of a candidate but its id, which counts on from one. */
  lemma {:induction false} MergedCandidates(ds: seq<Draft>, i: nat)
    requires i < |Text.Concat(CandidatesOf(ds))|
    ensures |MergeAll(ds).candidates| == |Text.Concat(CandidatesOf(ds))|
    ensures MergeAll(ds).candidates[i] == Text.Concat(CandidatesOf(ds))[i].(id := "candidate-" + Text.Digits(i + 1))
  {
    MergedDraft(ds);
  }

  /** Usage is added up part by part. */
  lemma {:induction false} UsageAddsUp(ds: seq<Draft>)
    ensures MergeAll(ds).usage.input == SumOf(ds, (d: Draft) => d.usage.input)
    ensures MergeAll(ds).usage.output == SumOf(ds, (d: Draft) => d.usage.output)
    ensures MergeAll(ds).usage.total == SumOf(ds, (d: Draft) => d.usage.total)
    ensures MergeAll(ds).durationMs == SumOf(ds, (d: Draft) => d.durationMs)
    decreases |ds|
  {
    if ds != [] {
      UsageAddsUp(ds[..|ds| - 1]);
    }
  }

  function SumOf(ds: seq<Draft>, part: Draft -> int): int {
    if ds == [] then 0 else SumOf(ds[..|ds| - 1], part) + part(ds[|ds| - 1])
  }

  /** The first draft that names a model decides which is named. */
  lemma {:induction false} ModelIsFirstNamed(ds: seq<Draft>, k: nat)
    requires k < |ds| && ds[k].model != "" && forall j :: 0 <= j < k ==> ds[j].model == ""
    ensures MergeAll(ds).model == ds[k].model
    decreases |ds|
  {
    var n := |ds| - 1;
    if k < n {
      ModelIsFirstNamed(ds[..n], k);
    } else {
      NoModelNamed(ds[..n]);
    }
  }

  lemma {:induction false} NoModelNamed(ds: seq<Draft>)
    requires forall j :: 0 <= j < |ds| ==> ds[j].model == ""
    ensures MergeAll(ds).model == ""
    decreases |ds|
  {
    if ds != [] {
      NoModelNamed(ds[..|ds| - 1]);
    }
  }

  /** Grounding leaves the id alone. */
  ghost predicate KeepsIds(ground: Grounding) {
    forall c, chunk {:trigger ground(c, chunk)} :: ground(c, chunk).id == c.id
  }

  /** Post-processing answers for every candidate of the model in its place: its claim is
      treated as the model's, its references are those to materials of the chunk, its
      reasons for a review are found; a missing id is its number. The rest of the answer
      stays, but for blank and repeated warnings. */
  lemma ProcessedCandidates(answer: Draft, chunk: Group, cfg: seq<Category>, ground: Grounding, trim: Trim, i: nat)
    requires i < |answer.candidates| && Idempotent(trim) && KeepsIds(ground)
    ensures var d := Processed(answer, chunk, cfg, ground, trim);
      && |d.candidates| == |answer.candidates|
      && d == answer.(candidates := d.candidates, warnings := Clean(answer.warnings, trim))
    ensures var v, was := Processed(answer, chunk, cfg, ground, trim).candidates[i], answer.candidates[i];
      var grounded := ground(if trim(was.id) == "" then was.(id := "candidate-" + Text.Digits(i + 1)) else was, chunk);
      var allowed := set o | o in chunk :: o.assetId;
      && v.id == trim(if trim(was.id) == "" then "candidate-" + Text.Digits(i + 1) else was.id)
      && KeptFields(grounded, v, allowed, trim) && Placed(grounded, v, cfg, trim)
      && Reviewed(grounded, v, cfg, allowed, true, trim)
      && match FindItem(cfg, trim(grounded.categoryKey), trim(grounded.itemKey))
         case Some(item) => ClaimOutcome(grounded.claim, item.rule, true, v)
         case None => v.claim == grounded.claim && v.expectedScore == None
  {
    var was := answer.candidates[i];
    var grounded := ground(if trim(was.id) == "" then was.(id := "candidate-" + Text.Digits(i + 1)) else was, chunk);
    assert Processed(answer, chunk, cfg, ground, trim).candidates[i] ==
      Verify(grounded, cfg, AssetsOf(chunk), true, trim);
    VerifiedFields(grounded, cfg, AssetsOf(chunk), true, trim);
    VerifiedReasons(grounded, cfg, AssetsOf(chunk), true, trim);
    VerifiedClaim(grounded, cfg, AssetsOf(chunk), true, trim);
  }
}
