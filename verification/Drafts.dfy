/** A draft of proposed candidates: what one model call yields after grounding and
    verification, and how the drafts of several calls are merged
    (backend/internal/aiassist/aiassist.go). */
module Drafts {
  import opened CandidateGate
  import opened Chunking
  import opened Scheme
  import Text

  datatype Usage = Usage(input: int, output: int, total: int)

  const NO_USAGE := Usage(0, 0, 0)

  function AddUsage(a: Usage, b: Usage): Usage {
    Usage(a.input + b.input, a.output + b.output, a.total + b.total)
  }

  datatype Draft = Draft(
    candidates: seq<Candidate>, warnings: seq<string>, usage: Usage, model: string, durationMs: int)

  const EMPTY_DRAFT := Draft([], [], NO_USAGE, "", 0)

  // ------------------------------------------------------------------- merging

  function CandidateId(n: nat): string {
    "candidate-" + Text.Digits(n)
  }

  lemma CandidateIdInjective(a: nat, b: nat)
    requires CandidateId(a) == CandidateId(b)
    ensures a == b
  {
    assert CandidateId(a)[10..] == Text.Digits(a);
    assert CandidateId(b)[10..] == Text.Digits(b);
    Text.DigitsInjective(a, b);
  }

  /** The same candidates, with ids counting on from `before`. */
  function Numbered(cs: seq<Candidate>, before: nat): (r: seq<Candidate>)
    ensures |r| == |cs|
  {
    seq(|cs|, (i: nat) requires i < |cs| => cs[i].(id := CandidateId(before + i + 1)))
  }

  function Merge(m: Draft, d: Draft): Draft {
    Draft(m.candidates + Numbered(d.candidates, |m.candidates|),
          m.warnings + d.warnings,
          AddUsage(m.usage, d.usage),
          if m.model == "" then d.model else m.model,
          m.durationMs + d.durationMs)
  }

  function MergeAll(ds: seq<Draft>): Draft {
    if ds == [] then EMPTY_DRAFT else Merge(MergeAll(ds[..|ds| - 1]), ds[|ds| - 1])
  }

  lemma {:induction false} MergeSnoc(ds: seq<Draft>, d: Draft)
    ensures MergeAll(ds + [d]) == Merge(MergeAll(ds), d)
  {
    assert (ds + [d])[..|ds|] == ds;
  }

  method Renumber(cs: seq<Candidate>, before: nat) returns (r: seq<Candidate>)
    ensures r == Numbered(cs, before)
  {
    r := cs;
    ghost var done := Numbered(cs, before);
    for i := 0 to |cs|
      invariant |r| == |cs|
      invariant forall k :: 0 <= k < i ==> r[k] == done[k]
      invariant forall k :: i <= k < |cs| ==> r[k] == cs[k]
    {
      r := r[i := r[i].(id := CandidateId(before + i + 1))];
      assert r[i] == done[i];
    }
    assert r == done;
  }

  /** The draft a batch accumulates in place. */
  class DraftBuilder {
    var candidates: seq<Candidate>
    var warnings: seq<string>
    var usage: Usage
    var model: string
    var durationMs: int

    constructor ()
      ensures Value() == EMPTY_DRAFT
    {
      candidates, warnings, usage, model, durationMs := [], [], NO_USAGE, "", 0;
    }

    function Value(): Draft
      reads this
    {
      Draft(candidates, warnings, usage, model, durationMs)
    }

    method MergeDraft(draft: Draft)
      modifies this
      ensures Value() == Merge(old(Value()), draft)
    {
      var renumbered := Renumber(draft.candidates, |candidates|);
      candidates := candidates + renumbered;
      warnings := warnings + draft.warnings;
      usage := AddUsage(usage, draft.usage);
      durationMs := durationMs + draft.durationMs;
      if model == "" {
        model := draft.model;
      }
    }
  }

  // ----------------------------------------------------- what a merged draft is

  function CandidatesOf(ds: seq<Draft>): seq<seq<Candidate>> {
    seq(|ds|, (i: nat) requires i < |ds| => ds[i].candidates)
  }

  function WarningsOf(ds: seq<Draft>): seq<seq<string>> {
    seq(|ds|, (i: nat) requires i < |ds| => ds[i].warnings)
  }

  function TotalUsage(ds: seq<Draft>): Usage {
    if ds == [] then NO_USAGE else AddUsage(TotalUsage(ds[..|ds| - 1]), ds[|ds| - 1].usage)
  }

  function TotalDuration(ds: seq<Draft>): int {
    if ds == [] then 0 else TotalDuration(ds[..|ds| - 1]) + ds[|ds| - 1].durationMs
  }

  function FirstModel(ds: seq<Draft>): string {
    if ds == [] then "" else if ds[0].model != "" then ds[0].model else FirstModel(ds[1..])
  }

  lemma {:induction false} FirstModelSnoc(ds: seq<Draft>, d: Draft)
    ensures FirstModel(ds + [d]) == if FirstModel(ds) == "" then d.model else FirstModel(ds)
  {
    if ds == [] {
      assert (ds + [d])[1..] == [];
    } else {
      assert (ds + [d])[1..] == ds[1..] + [d];
      FirstModelSnoc(ds[1..], d);
    }
  }

  lemma NumberedAppend(a: seq<Candidate>, b: seq<Candidate>, before: nat)
    ensures Numbered(a + b, before) == Numbered(a, before) + Numbered(b, before + |a|)
  {
  }

  /** Merging keeps every candidate in order and numbers them 1..N, keeps every
      warning, adds up usage and duration, and takes the first model named. */
  lemma {:induction false} MergedDraft(ds: seq<Draft>)
    ensures var m := MergeAll(ds);
      && m.candidates == Numbered(Text.Concat(CandidatesOf(ds)), 0)
      && m.warnings == Text.Concat(WarningsOf(ds))
      && m.usage == TotalUsage(ds)
      && m.durationMs == TotalDuration(ds)
      && m.model == FirstModel(ds)
    decreases |ds|
  {
    if ds != [] {
      var init, d := ds[..|ds| - 1], ds[|ds| - 1];
      MergedDraft(init);
      assert CandidatesOf(ds)[..|ds| - 1] == CandidatesOf(init);
      assert WarningsOf(ds)[..|ds| - 1] == WarningsOf(init);
      NumberedAppend(Text.Concat(CandidatesOf(init)), d.candidates, 0);
      assert ds == init + [d];
      FirstModelSnoc(init, d);
    }
  }

  /** The ids of a merged draft are candidate-1 to candidate-N, no two equal. */
  lemma {:induction false} MergedIds(ds: seq<Draft>)
    ensures var cs := MergeAll(ds).candidates;
      && (forall i :: 0 <= i < |cs| ==> cs[i].id == CandidateId(i + 1))
      && (forall i, j :: 0 <= i < j < |cs| ==> cs[i].id != cs[j].id)
  {
    MergedDraft(ds);
    var cs := MergeAll(ds).candidates;
    forall i, j | 0 <= i < j < |cs|
      ensures cs[i].id != cs[j].id
    {
      if cs[i].id == cs[j].id {
        CandidateIdInjective(i + 1, j + 1);
      }
    }
  }

  lemma MergeAssociative(a: Draft, b: Draft, c: Draft)
    ensures Merge(Merge(a, b), c) == Merge(a, Merge(b, c))
  {
    var n := |a.candidates|;
    NumberedAppend(b.candidates, Numbered(c.candidates, |b.candidates|), n);
    assert Numbered(Numbered(c.candidates, |b.candidates|), n + |b.candidates|)
      == Numbered(c.candidates, n + |b.candidates|);
    var left, right := Merge(Merge(a, b), c), Merge(a, Merge(b, c));
    assert left.candidates == right.candidates;
    assert left.warnings == right.warnings;
  }

  lemma MergeNothing(m: Draft)
    ensures Merge(m, EMPTY_DRAFT) == m
  {
    MergeAddsNothing(m, EMPTY_DRAFT);
    assert Merge(m, EMPTY_DRAFT).candidates == m.candidates;
  }

  lemma {:induction false} MergeAppend(a: seq<Draft>, b: seq<Draft>)
    ensures MergeAll(a + b) == Merge(MergeAll(a), MergeAll(b))
    decreases |b|
  {
    if b == [] {
      assert a + b == a;
      MergeNothing(MergeAll(a));
    } else {
      var init, d := b[..|b| - 1], b[|b| - 1];
      assert a + b == (a + init) + [d];
      MergeSnoc(a + init, d);
      MergeAppend(a, init);
      MergeAssociative(MergeAll(a), MergeAll(init), d);
    }
  }

  /** A draft that leaves m as it is when it is merged into it. */
  predicate AddsNothing(m: Draft, d: Draft) {
    && d.candidates == []
    && d.warnings == []
    && d.usage == NO_USAGE
    && d.durationMs == 0
    && (m.model == "" ==> d.model == "")
  }

  lemma MergeAddsNothing(m: Draft, d: Draft)
    ensures Merge(m, d) == m <==> AddsNothing(m, d)
  {
    if Merge(m, d) == m {
      assert |Merge(m, d).candidates| == |m.candidates| + |d.candidates|;
      assert |Merge(m, d).warnings| == |m.warnings| + |d.warnings|;
    }
  }

  // ------------------------------------------------------------ one model call

  /** Grounding of school categories; it sees the candidate and the pages. */
  type Grounding = (Candidate, Group) -> Candidate

  function AssetsOf(chunk: Group): set<string> {
    set o | o in chunk :: o.assetId
  }

  function DefaultId(c: Candidate, i: nat, trim: Trim): Candidate {
    if trim(c.id) == "" then c.(id := CandidateId(i + 1)) else c
  }

  /** The post-processing of a decoded model answer. */
  function Processed(answer: Draft, chunk: Group, cfg: seq<Category>, ground: Grounding, trim: Trim): Draft {
    answer.(
      candidates := seq(|answer.candidates|, (i: nat) requires i < |answer.candidates| =>
        ProcessedOne(answer.candidates[i], i, chunk, cfg, ground, trim)),
      warnings := Clean(answer.warnings, trim))
  }

  function ProcessedOne(c: Candidate, i: nat, chunk: Group, cfg: seq<Category>, ground: Grounding, trim: Trim)
    : Candidate
  {
    Verify(ground(DefaultId(c, i, trim), chunk), cfg, AssetsOf(chunk), true, trim)
  }

  method PostProcess(answer: Draft, chunk: Group, cfg: seq<Category>, ground: Grounding, trim: Trim)
    returns (draft: Draft)
    ensures draft == Processed(answer, chunk, cfg, ground, trim)
  {
    var candidates := answer.candidates;
    ghost var done := Processed(answer, chunk, cfg, ground, trim).candidates;
    for i := 0 to |candidates|
      invariant |candidates| == |answer.candidates|
      invariant forall k :: 0 <= k < i ==> candidates[k] == done[k]
      invariant forall k :: i <= k < |candidates| ==> candidates[k] == answer.candidates[k]
    {
      var c := candidates[i];
      if trim(c.id) == "" {
        c := c.(id := CandidateId(i + 1));
      }
      candidates := candidates[i := Verify(ground(c, chunk), cfg, AssetsOf(chunk), true, trim)];
      assert candidates[i] == ProcessedOne(answer.candidates[i], i, chunk, cfg, ground, trim);
    }
    assert candidates == done;
    draft := answer.(candidates := candidates, warnings := Clean(answer.warnings, trim));
  }

  ghost predicate CitesOnly(cs: seq<Candidate>, assets: set<string>) {
    forall i, j :: 0 <= i < |cs| && 0 <= j < |cs[i].assets| ==> cs[i].assets[j].assetId in assets
  }

  /** Whatever the model answers, every candidate of a chunk passes the gate and
      cites only assets of that chunk. */
  lemma ProcessedPassesGate(answer: Draft, chunk: Group, cfg: seq<Category>, ground: Grounding, trim: Trim)
    requires ValidScheme(cfg) && Idempotent(trim)
    ensures var cs := Processed(answer, chunk, cfg, ground, trim).candidates;
      && (forall i :: 0 <= i < |cs| ==> Gated(cs[i], cfg, AssetsOf(chunk), trim))
      && CitesOnly(cs, AssetsOf(chunk))
  {
    var cs := Processed(answer, chunk, cfg, ground, trim).candidates;
    forall i | 0 <= i < |cs|
      ensures Gated(cs[i], cfg, AssetsOf(chunk), trim)
    {
      VerifyGates(ground(DefaultId(answer.candidates[i], i, trim), chunk), cfg, AssetsOf(chunk), true, trim);
    }
    forall i, j | 0 <= i < |cs| && 0 <= j < |cs[i].assets|
      ensures cs[i].assets[j].assetId in AssetsOf(chunk)
    {
      assert Gated(cs[i], cfg, AssetsOf(chunk), trim);
      assert Usable(cs[i].assets[j], AssetsOf(chunk));
    }
  }
}
