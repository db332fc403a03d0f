/** The closed-set and scoring gate every proposed candidate passes
    (backend/internal/aiassist/aiassist.go, verifyCandidate). */
module CandidateGate {
  import opened Options
  import opened Scheme
  import Text

  datatype AssetRef = AssetRef(assetId: string, page: int)

  datatype OptionEvidence = OptionEvidence(source: string, activity: string, quote: string, assetId: string, page: int)

  /** Model output may carry a confidence that is no finite number. */
  datatype Confidence = NotFinite | Finite(v: real)

  datatype Candidate = Candidate(
    id: string, assets: seq<AssetRef>, categoryKey: string, itemKey: string, title: string,
    claim: Claim, note: string, alternatives: seq<string>, confidence: Confidence,
    needsReview: bool, reviewReasons: seq<string>, expectedScore: Option<real>,
    optionEvidence: Option<OptionEvidence>)

  /** strings.TrimSpace: all that matters here is that it is idempotent and
      keeps the empty string. */
  type Trim = string -> string

  ghost predicate Idempotent(trim: Trim) {
    && trim("") == ""
    && forall s: string {:trigger trim(trim(s))} :: trim(trim(s)) == trim(s)
  }

  function TrimOf(space: char -> bool): Trim {
    s => Text.Trim(s, space)
  }

  lemma TrimOfIsIdempotent(space: char -> bool)
    ensures Idempotent(TrimOf(space))
  {
    forall s: string
      ensures Text.Trim(Text.Trim(s, space), space) == Text.Trim(s, space)
    {
      Text.TrimTwice(s, space);
    }
  }

  // ------------------------------------------------------------------ cleaning

  /** Trimmed, without blanks and repetitions, first occurrences kept in order. */
  function Clean(values: seq<string>, trim: Trim): seq<string> {
    if values == [] then []
    else CleanOne(Clean(values[..|values| - 1], trim), trim(values[|values| - 1]))
  }

  function CleanOne(kept: seq<string>, value: string): seq<string> {
    if value == [] || value in kept then kept else kept + [value]
  }

  ghost predicate IsClean(values: seq<string>, trim: Trim) {
    && (forall i :: 0 <= i < |values| ==> values[i] != [] && trim(values[i]) == values[i])
    && Distinct(values)
  }

  lemma {:induction false} CleanIsClean(values: seq<string>, trim: Trim)
    requires Idempotent(trim)
    ensures IsClean(Clean(values, trim), trim)
    decreases |values|
  {
    if values != [] {
      var last := values[|values| - 1];
      CleanIsClean(values[..|values| - 1], trim);
      assert trim(trim(last)) == trim(last);
    }
  }

  lemma {:induction false} CleanKeepsClean(values: seq<string>, trim: Trim)
    requires IsClean(values, trim)
    ensures Clean(values, trim) == values
    decreases |values|
  {
    if values != [] {
      var n := |values| - 1;
      var init, last := values[..n], values[n];
      assert values == init + [last];
      CleanKeepsClean(init, trim);
      assert last !in init;
    }
  }

  /** The compaction in place: results are written over the front of the slice
      that is being read. */
  method CleanStrings(values: array<string>, trim: Trim) returns (n: nat)
    modifies values
    ensures n <= values.Length && values[..n] == Clean(old(values[..]), trim)
  {
    n := 0;
    ghost var was := values[..];
    for i := 0 to values.Length
      invariant n <= i && values[..n] == Clean(was[..i], trim)
      invariant values[i..] == was[i..]
    {
      ghost var kept := values[..n];
      assert was[..i + 1][..i] == was[..i];
      assert values[i..][0] == was[i..][0];
      var value := trim(values[i]);
      assert values[i + 1..] == values[i..][1..] && was[i + 1..] == was[i..][1..];
      if value != [] && value !in values[..n] {
        values[n] := value;
        n := n + 1;
        assert values[..n] == kept + [value];
      }
    }
    assert was[..values.Length] == was;
  }

  // -------------------------------------------------------------------- assets

  /** The references that survive: known, non-blank and not repeated. */
  function KeepAssets(refs: seq<AssetRef>, allowed: set<string>, trim: Trim): seq<AssetRef> {
    if refs == [] then []
    else
      KeepOne(KeepAssets(refs[..|refs| - 1], allowed, trim), TrimRef(refs[|refs| - 1], trim), allowed)
  }

  function TrimRef(ref: AssetRef, trim: Trim): AssetRef {
    AssetRef(trim(ref.assetId), ref.page)
  }

  predicate Usable(ref: AssetRef, allowed: set<string>) {
    ref.assetId in allowed && ref.assetId != []
  }

  function KeepOne(kept: seq<AssetRef>, ref: AssetRef, allowed: set<string>): seq<AssetRef> {
    if !Usable(ref, allowed) || ref in kept then kept else kept + [ref]
  }

  ghost predicate AssetsSound(refs: seq<AssetRef>, allowed: set<string>, trim: Trim) {
    && (forall i :: 0 <= i < |refs| ==> Usable(refs[i], allowed) && TrimRef(refs[i], trim) == refs[i])
    && Distinct(refs)
  }

  lemma {:induction false} KeptAssetsSound(refs: seq<AssetRef>, allowed: set<string>, trim: Trim)
    requires Idempotent(trim)
    ensures AssetsSound(KeepAssets(refs, allowed, trim), allowed, trim)
    decreases |refs|
  {
    if refs != [] {
      var last := refs[|refs| - 1];
      KeptAssetsSound(refs[..|refs| - 1], allowed, trim);
      assert trim(trim(last.assetId)) == trim(last.assetId);
    }
  }

  lemma {:induction false} SoundAssetsKept(refs: seq<AssetRef>, allowed: set<string>, trim: Trim)
    requires AssetsSound(refs, allowed, trim)
    ensures KeepAssets(refs, allowed, trim) == refs
    decreases |refs|
  {
    if refs != [] {
      var n := |refs| - 1;
      var init, last := refs[..n], refs[n];
      assert refs == init + [last];
      SoundAssetsKept(init, allowed, trim);
      assert last !in init;
    }
  }

  /** Whether some reference is dropped because it is not allowed. */
  predicate DropsAsset(refs: seq<AssetRef>, allowed: set<string>, trim: Trim) {
    exists i :: 0 <= i < |refs| && !Usable(TrimRef(refs[i], trim), allowed)
  }

  // -------------------------------------------------------------- alternatives

  function KeepAlternatives(keys: seq<string>, known: string -> bool): seq<string> {
    if keys == [] then []
    else
      KeepAlternatives(keys[..|keys| - 1], known) + if known(keys[|keys| - 1]) then [keys[|keys| - 1]] else []
  }

  lemma {:induction false} AlternativesAreKnown(keys: seq<string>, known: string -> bool)
    ensures var kept := KeepAlternatives(keys, known);
      && |kept| <= |keys|
      && (forall i :: 0 <= i < |kept| ==> known(kept[i]) && kept[i] in keys)
    decreases |keys|
  {
    if keys != [] {
      AlternativesAreKnown(keys[..|keys| - 1], known);
    }
  }

  lemma {:induction false} KnownAlternativesKept(keys: seq<string>, known: string -> bool)
    requires forall i :: 0 <= i < |keys| ==> known(keys[i])
    ensures KeepAlternatives(keys, known) == keys
    decreases |keys|
  {
    if keys != [] {
      KnownAlternativesKept(keys[..|keys| - 1], known);
      assert keys == keys[..|keys| - 1] + [keys[|keys| - 1]];
    }
  }

  lemma {:induction false} AlternativesStayClean(keys: seq<string>, known: string -> bool, trim: Trim)
    requires IsClean(keys, trim)
    ensures IsClean(KeepAlternatives(keys, known), trim)
    decreases |keys|
  {
    if keys != [] {
      var init, last := keys[..|keys| - 1], keys[|keys| - 1];
      assert keys == init + [last];
      AlternativesStayClean(init, known, trim);
      AlternativesAreKnown(init, known);
      assert last !in init;
    }
  }

  // ------------------------------------------------------------------- reasons

  function AddReason(c: Candidate, reason: string): Candidate {
    c.(needsReview := true,
       reviewReasons := if reason in c.reviewReasons then c.reviewReasons else c.reviewReasons + [reason])
  }

  function AddReasonIf(c: Candidate, condition: bool, reason: string): Candidate {
    if condition then AddReason(c, reason) else c
  }

  const LOW_CONFIDENCE := "模型置信度低于 0.75"
  const UNKNOWN_ASSET := "候选引用了不存在的材料"
  const NO_ASSETS := "没有可用的佐证材料"
  const NO_TITLE := "材料标题需要补充"
  const UNCLASSIFIED := "未能归入当前方案中的有效小项"
  const UNKNOWN_ALTERNATIVE := "备选小项包含方案外的值"
  const NO_QUANTITY := "数量未识别，需要本人填写"
  const BAD_QUANTITY := "识别出的数量不符合计分规则"
  const BAD_OPTION := "等级未匹配方案中的有效档次"
  const BAD_ENUM_SCORE := "期望分不在按档规则允许范围内，已清空"
  const PREFILLED_OPTION := "档位与建议分由 AI 预填，请核对"
  const NO_SCORE := "自报分未填，请本人补齐"
  const BAD_SCORE := "自报分不在方案允许范围内，已清空"
  const PREFILLED_SCORE := "自报分由 AI 预填，请核对"
  const UNSUPPORTED_RULE := "当前计分规则暂不支持 AI 预填"
  const SCHOOL_CATEGORY_REASON := "已保留比赛与获奖事实；尚缺本届学校竞赛目录的明确类别依据，请核对目录后手动选择档位和期望分"

  // -------------------------------------------------------------- verification

  function Clamp(c: Confidence): real {
    match c
    case NotFinite => 0.0
    case Finite(v) => if v < 0.0 then 0.0 else if v > 1.0 then 1.0 else v
  }

  /** Trimmed text, clean lists, a confidence in range and usable assets. */
  function Tidy(c: Candidate, allowed: set<string>, trim: Trim): Candidate {
    Candidate(trim(c.id), KeepAssets(c.assets, allowed, trim), trim(c.categoryKey), trim(c.itemKey), trim(c.title),
              c.claim, trim(c.note), Clean(c.alternatives, trim), Finite(Clamp(c.confidence)),
              c.needsReview, Clean(c.reviewReasons, trim), c.expectedScore, c.optionEvidence)
  }

  /** The reasons that do not depend on the scheme, in the order they arise. */
  function TidyReasons(t: Candidate, dropsAsset: bool): Candidate {
    var low := AddReasonIf(t, Clamp(t.confidence) < 0.75, LOW_CONFIDENCE);
    var unknown := AddReasonIf(low, dropsAsset, UNKNOWN_ASSET);
    var none := AddReasonIf(unknown, t.assets == [], NO_ASSETS);
    AddReasonIf(none, t.title == [], NO_TITLE)
  }

  function ScoreQuantity(c: Candidate, rule: ScoreRule): Candidate {
    var d := c.(claim := Claim(c.claim.quantity, "", None));
    if d.claim.quantity.None? then AddReason(d, NO_QUANTITY)
    else
      match ScoreClaim(rule, d.claim)
      case None => AddReason(d.(claim := NO_CLAIM), BAD_QUANTITY)
      case Some(points) => d.(expectedScore := Some(Float64(points)))
  }

  function ScoreOption(c: Candidate, rule: ScoreRule, fromModel: bool): Candidate {
    match Selected(rule.options, c.claim.option)
    case None =>
      AddReasonIf(c.(claim := NO_CLAIM), SCHOOL_CATEGORY_REASON !in c.reviewReasons, BAD_OPTION)
    case Some(selected) =>
      var score := if fromModel || c.claim.score.None? then Some(selected.score) else c.claim.score;
      var d := c.(claim := Claim(None, c.claim.option, score));
      match ScoreClaim(rule, d.claim)
      case None => AddReason(d.(claim := Claim(None, c.claim.option, None)), BAD_ENUM_SCORE)
      case Some(points) => AddReasonIf(d.(expectedScore := Some(Float64(points))), fromModel, PREFILLED_OPTION)
  }

  function ScoreSelfReport(c: Candidate, rule: ScoreRule, fromModel: bool): Candidate {
    var d := c.(claim := Claim(None, "", c.claim.score));
    if d.claim.score.None? then AddReason(d, NO_SCORE)
    else
      match ScoreClaim(rule, d.claim)
      case None => AddReason(d.(claim := NO_CLAIM), BAD_SCORE)
      case Some(points) => AddReasonIf(d.(expectedScore := Some(Float64(points))), fromModel, PREFILLED_SCORE)
  }

  /** The claim of a candidate whose expected score has been cleared, checked and
      scored by the rule of its item. */
  function ScoreCandidate(c: Candidate, rule: ScoreRule, fromModel: bool): Candidate {
    match rule.kind
    case PerUnit => ScoreQuantity(c, rule)
    case Threshold => ScoreQuantity(c, rule)
    case Enum => ScoreOption(c, rule, fromModel)
    case Free => ScoreSelfReport(c, rule, fromModel)
    case UnknownKind => AddReason(c.(claim := NO_CLAIM), UNSUPPORTED_RULE)
  }

  function Unclassified(t: Candidate): Candidate {
    AddReason(t.(categoryKey := "", itemKey := "", expectedScore := None), UNCLASSIFIED)
  }

  function Classified(t: Candidate, item: Item, known: string -> bool, fromModel: bool): Candidate {
    var kept := KeepAlternatives(t.alternatives, known);
    var d := AddReasonIf(t, |kept| < |t.alternatives|, UNKNOWN_ALTERNATIVE);
    ScoreCandidate(d.(alternatives := kept, expectedScore := None), item.rule, fromModel)
  }

  function KnownIn(cfg: seq<Category>): string -> bool {
    key => ItemKeyExists(cfg, key)
  }

  function Verify(c: Candidate, cfg: seq<Category>, allowed: set<string>, fromModel: bool, trim: Trim): Candidate {
    var t := TidyReasons(Tidy(c, allowed, trim), DropsAsset(c.assets, allowed, trim));
    match FindItem(cfg, t.categoryKey, t.itemKey)
    case None => Unclassified(t)
    case Some(item) => Classified(t, item, KnownIn(cfg), fromModel)
  }

  method FilterAssets(refs: seq<AssetRef>, allowed: set<string>, trim: Trim)
    returns (valid: seq<AssetRef>, unknown: bool)
    ensures valid == KeepAssets(refs, allowed, trim) && unknown == DropsAsset(refs, allowed, trim)
  {
    valid, unknown := [], false;
    for i := 0 to |refs|
      invariant valid == KeepAssets(refs[..i], allowed, trim)
      invariant unknown <==> exists k :: 0 <= k < i && !Usable(TrimRef(refs[k], trim), allowed)
    {
      assert refs[..i + 1][..i] == refs[..i];
      var ref := TrimRef(refs[i], trim);
      if ref.assetId !in allowed || ref.assetId == [] {
        unknown := true;
      } else if ref !in valid {
        valid := valid + [ref];
      }
    }
    assert refs[..|refs|] == refs;
  }

  method FilterAlternatives(keys: seq<string>, cfg: seq<Category>) returns (valid: seq<string>)
    ensures valid == KeepAlternatives(keys, KnownIn(cfg))
  {
    valid := [];
    for i := 0 to |keys|
      invariant valid == KeepAlternatives(keys[..i], KnownIn(cfg))
    {
      assert keys[..i + 1][..i] == keys[..i];
      if ItemKeyExists(cfg, keys[i]) {
        valid := valid + [keys[i]];
      }
    }
    assert keys[..|keys|] == keys;
  }

  method VerifyCandidate(c: Candidate, cfg: seq<Category>, allowed: set<string>, fromModel: bool, trim: Trim)
    returns (v: Candidate)
    ensures v == Verify(c, cfg, allowed, fromModel, trim)
  {
    var assets, unknown := FilterAssets(c.assets, allowed, trim);
    v := Candidate(trim(c.id), assets, trim(c.categoryKey), trim(c.itemKey), trim(c.title), c.claim, trim(c.note),
                   Clean(c.alternatives, trim), Finite(Clamp(c.confidence)), c.needsReview,
                   Clean(c.reviewReasons, trim), c.expectedScore, c.optionEvidence);
    v := TidyReasons(v, unknown);
    var item := FindItem(cfg, v.categoryKey, v.itemKey);
    if item.None? {
      v := v.(categoryKey := "", itemKey := "", expectedScore := None);
      v := AddReason(v, UNCLASSIFIED);
      return;
    }
    var valid := FilterAlternatives(v.alternatives, cfg);
    if |valid| < |v.alternatives| {
      v := AddReason(v, UNKNOWN_ALTERNATIVE);
    }
    v := v.(alternatives := valid, expectedScore := None);
    v := ScoreCandidate(v, item.value.rule, fromModel);
  }

  // ------------------------------------------------------------------ the gate

  /** Same candidate but for the review reasons. */
  predicate SameButReasons(a: Candidate, b: Candidate) {
    a == b.(reviewReasons := a.reviewReasons)
  }

  /** Same but for what adding reasons touches. */
  predicate SameContent(a: Candidate, b: Candidate) {
    a == b.(reviewReasons := a.reviewReasons, needsReview := a.needsReview)
  }

  lemma TidyReasonsContent(t: Candidate, dropsAsset: bool)
    ensures SameContent(TidyReasons(t, dropsAsset), t)
    ensures TidyReasons(t, dropsAsset).needsReview ==
      (t.needsReview || Clamp(t.confidence) < 0.75 || dropsAsset || t.assets == [] || t.title == [])
  {
  }

  /** What scoring does to a candidate without an expected score. */
  ghost predicate Scored(v: Candidate, rule: ScoreRule) {
    v.expectedScore.Some? ==>
      ScoreClaim(rule, v.claim).Some? && v.expectedScore.value == Float64(ScoreClaim(rule, v.claim).value)
  }

  ghost predicate ScoredFrom(c: Candidate, v: Candidate, rule: ScoreRule) {
    && Scored(v, rule)
    && SameContent(v, c.(claim := v.claim, expectedScore := v.expectedScore))
    && (c.needsReview ==> v.needsReview)
  }

  lemma ScoreQuantityFacts(c: Candidate, rule: ScoreRule)
    requires c.expectedScore == None
    ensures ScoredFrom(c, ScoreQuantity(c, rule), rule)
  {
  }

  lemma ScoreOptionFacts(c: Candidate, rule: ScoreRule, fromModel: bool)
    requires c.expectedScore == None
    ensures ScoredFrom(c, ScoreOption(c, rule, fromModel), rule)
  {
  }

  lemma ScoreSelfReportFacts(c: Candidate, rule: ScoreRule, fromModel: bool)
    requires c.expectedScore == None
    ensures ScoredFrom(c, ScoreSelfReport(c, rule, fromModel), rule)
  {
  }

  lemma ScoreCandidateFacts(c: Candidate, rule: ScoreRule, fromModel: bool)
    requires c.expectedScore == None
    ensures ScoredFrom(c, ScoreCandidate(c, rule, fromModel), rule)
  {
    match rule.kind
    case PerUnit => ScoreQuantityFacts(c, rule);
    case Threshold => ScoreQuantityFacts(c, rule);
    case Enum => ScoreOptionFacts(c, rule, fromModel);
    case Free => ScoreSelfReportFacts(c, rule, fromModel);
    case UnknownKind =>
  }

  /** Unclassified, or in the scheme with the score its rule gives the claim, and
      with usable, distinct assets either way. */
  ghost predicate Gated(v: Candidate, cfg: seq<Category>, allowed: set<string>, trim: Trim) {
    && AssetsSound(v.assets, allowed, trim)
    && match FindItem(cfg, v.categoryKey, v.itemKey)
       case None => v.categoryKey == "" && v.itemKey == "" && v.expectedScore == None
       case Some(item) =>
         && Scored(v, item.rule)
         && forall i :: 0 <= i < |v.alternatives| ==> ItemKeyExists(cfg, v.alternatives[i])
  }

  /** What scheme validation guarantees and this gate relies on: no item has
      blank keys and no option has a blank caption. */
  ghost predicate ValidScheme(cfg: seq<Category>) {
    && FindItem(cfg, "", "").None?
    && forall category, key {:trigger FindItem(cfg, category, key)} ::
         FindItem(cfg, category, key).Some? ==> NoBlankOption(FindItem(cfg, category, key).value.rule)
  }

  predicate NoBlankOption(rule: ScoreRule) {
    Selected(rule.options, "").None?
  }

  lemma ClassifiedFacts(t: Candidate, item: Item, known: string -> bool, fromModel: bool)
    ensures var v := Classified(t, item, known, fromModel);
      && Scored(v, item.rule)
      && v.alternatives == KeepAlternatives(t.alternatives, known)
      && SameContent(v, t.(claim := v.claim, expectedScore := v.expectedScore, alternatives := v.alternatives))
  {
    var kept := KeepAlternatives(t.alternatives, known);
    var d := AddReasonIf(t, |kept| < |t.alternatives|, UNKNOWN_ALTERNATIVE).(
      alternatives := kept, expectedScore := None);
    ScoreCandidateFacts(d, item.rule, fromModel);
  }

  /** Every candidate that leaves verification passed the gate. */
  lemma VerifyGates(c: Candidate, cfg: seq<Category>, allowed: set<string>, fromModel: bool, trim: Trim)
    requires ValidScheme(cfg) && Idempotent(trim)
    ensures Gated(Verify(c, cfg, allowed, fromModel, trim), cfg, allowed, trim)
  {
    var drops := DropsAsset(c.assets, allowed, trim);
    var tidy := Tidy(c, allowed, trim);
    var t := TidyReasons(tidy, drops);
    KeptAssetsSound(c.assets, allowed, trim);
    TidyReasonsContent(tidy, drops);
    match FindItem(cfg, t.categoryKey, t.itemKey)
    case None =>
    case Some(item) =>
      AlternativesAreKnown(t.alternatives, KnownIn(cfg));
      ClassifiedFacts(t, item, KnownIn(cfg), fromModel);
  }

  // -------------------------------------------------------------- a second pass

  /** An edited score outside the rule's range is cleared although the option's
      own score would be accepted. */
  predicate ClearsEdit(claim: Claim, rule: ScoreRule) {
    && rule.kind == Enum
    && Selected(rule.options, claim.option).Some?
    && claim.score.Some?
    && !(0 <= NewPoints(claim.score.value) <= MaxScore(rule.options))
    && NewPoints(Selected(rule.options, claim.option).value.score) >= 0
  }

  /** Scoring the result of scoring, with its expected score cleared again. */
  lemma ScoreTwice(c: Candidate, rule: ScoreRule, fromModel: bool, w: Candidate)
    requires c.expectedScore == None && NoBlankOption(rule)
    requires var v := ScoreCandidate(c, rule, fromModel);
      && SameContent(w, v.(expectedScore := None)) && w.needsReview == v.needsReview
      && (SCHOOL_CATEGORY_REASON in c.reviewReasons ==> SCHOOL_CATEGORY_REASON in w.reviewReasons)
    ensures var v := ScoreCandidate(c, rule, fromModel);
      SameButReasons(ScoreCandidate(w, rule, fromModel), v) <==> fromModel || !ClearsEdit(c.claim, rule)
  {
    match rule.kind
    case PerUnit => QuantityTwice(c, rule, w);
    case Threshold => QuantityTwice(c, rule, w);
    case Enum => OptionTwice(c, rule, fromModel, w);
    case Free =>
    case UnknownKind =>
  }

  lemma QuantityTwice(c: Candidate, rule: ScoreRule, w: Candidate)
    requires c.expectedScore == None && (rule.kind == PerUnit || rule.kind == Threshold)
    requires var v := ScoreQuantity(c, rule);
      SameContent(w, v.(expectedScore := None)) && w.needsReview == v.needsReview
    ensures SameButReasons(ScoreQuantity(w, rule), ScoreQuantity(c, rule))
  {
  }

  lemma OptionTwice(c: Candidate, rule: ScoreRule, fromModel: bool, w: Candidate)
    requires c.expectedScore == None && rule.kind == Enum && NoBlankOption(rule)
    requires var v := ScoreOption(c, rule, fromModel);
      && SameContent(w, v.(expectedScore := None)) && w.needsReview == v.needsReview
      && (SCHOOL_CATEGORY_REASON in c.reviewReasons ==> SCHOOL_CATEGORY_REASON in w.reviewReasons)
    ensures SameButReasons(ScoreOption(w, rule, fromModel), ScoreOption(c, rule, fromModel))
      <==> fromModel || !ClearsEdit(c.claim, rule)
  {
    match Selected(rule.options, c.claim.option)
    case None =>
    case Some(selected) =>
      SelectedWithinMax(rule.options, c.claim.option);
  }

  lemma {:induction false} CleanContains(values: seq<string>, trim: Trim, x: string)
    requires x in values && trim(x) == x && x != []
    ensures x in Clean(values, trim)
    decreases |values|
  {
    var init := values[..|values| - 1];
    assert values == init + [values[|values| - 1]];
    if x in init {
      CleanContains(init, trim, x);
    }
  }

  /** A reason that survived cleaning survives it again. */
  lemma {:induction false} CleanedReasonStays(reasons: seq<string>, more: seq<string>, trim: Trim, x: string)
    requires Idempotent(trim) && x in Clean(reasons, trim) && x in more
    ensures x in Clean(more, trim)
  {
    CleanIsClean(reasons, trim);
    CleanContains(more, trim, x);
  }

  lemma SchoolReasonIsDistinct()
    ensures SCHOOL_CATEGORY_REASON !in
      [LOW_CONFIDENCE, UNKNOWN_ASSET, NO_ASSETS, NO_TITLE, UNKNOWN_ALTERNATIVE]
    ensures SCHOOL_CATEGORY_REASON != []
  {
    assert |SCHOOL_CATEGORY_REASON| > |LOW_CONFIDENCE| + |UNKNOWN_ASSET|;
    assert |SCHOOL_CATEGORY_REASON| > |NO_ASSETS| + |NO_TITLE|;
    assert |SCHOOL_CATEGORY_REASON| > |UNKNOWN_ALTERNATIVE|;
  }

  lemma TidyReasonsSchool(t: Candidate, dropsAsset: bool)
    ensures SCHOOL_CATEGORY_REASON in TidyReasons(t, dropsAsset).reviewReasons
      <==> SCHOOL_CATEGORY_REASON in t.reviewReasons
  {
    SchoolReasonIsDistinct();
  }

  lemma ScoreKeepsReasons(c: Candidate, rule: ScoreRule, fromModel: bool, x: string)
    requires x in c.reviewReasons
    ensures x in ScoreCandidate(c, rule, fromModel).reviewReasons
  {
  }

  /** A verified candidate is already tidy. */
  lemma TidyStable(v: Candidate, allowed: set<string>, trim: Trim)
    requires AssetsSound(v.assets, allowed, trim) && IsClean(v.alternatives, trim)
    requires trim(v.id) == v.id && trim(v.categoryKey) == v.categoryKey && trim(v.itemKey) == v.itemKey
    requires trim(v.title) == v.title && trim(v.note) == v.note && v.confidence == Finite(Clamp(v.confidence))
    ensures SameButReasons(Tidy(v, allowed, trim), v) && !DropsAsset(v.assets, allowed, trim)
  {
    SoundAssetsKept(v.assets, allowed, trim);
    CleanKeepsClean(v.alternatives, trim);
  }

  lemma TidyIsStable(c: Candidate, allowed: set<string>, trim: Trim)
    requires Idempotent(trim)
    ensures var t := Tidy(c, allowed, trim);
      && AssetsSound(t.assets, allowed, trim) && IsClean(t.alternatives, trim)
      && trim(t.id) == t.id && trim(t.categoryKey) == t.categoryKey && trim(t.itemKey) == t.itemKey
      && trim(t.title) == t.title && trim(t.note) == t.note && t.confidence == Finite(Clamp(t.confidence))
  {
    KeptAssetsSound(c.assets, allowed, trim);
    CleanIsClean(c.alternatives, trim);
    assert trim(trim(c.id)) == trim(c.id) && trim(trim(c.title)) == trim(c.title);
    assert trim(trim(c.note)) == trim(c.note);
    assert trim(trim(c.categoryKey)) == trim(c.categoryKey) && trim(trim(c.itemKey)) == trim(c.itemKey);
  }

  /** The second pass over a candidate whose tidy form is itself. */
  lemma SecondTidy(c: Candidate, v: Candidate, dropsAsset: bool, allowed: set<string>, trim: Trim)
    requires Idempotent(trim)
    requires var t := TidyReasons(Tidy(c, allowed, trim), dropsAsset);
      && (t.needsReview ==> v.needsReview)
      && v.id == t.id && v.assets == t.assets && v.title == t.title && v.note == t.note
      && v.confidence == t.confidence && IsClean(v.alternatives, trim)
      && trim(v.categoryKey) == v.categoryKey && trim(v.itemKey) == v.itemKey
    ensures SameButReasons(TidyReasons(Tidy(v, allowed, trim), DropsAsset(v.assets, allowed, trim)), v)
  {
    TidyIsStable(c, allowed, trim);
    TidyReasonsContent(Tidy(c, allowed, trim), dropsAsset);
    TidyStable(v, allowed, trim);
    TidyReasonsContent(Tidy(v, allowed, trim), false);
  }

  /** An edited score will be lost between one verification and the next. */
  ghost predicate LosesEdit(c: Candidate, cfg: seq<Category>, trim: Trim) {
    var item := FindItem(cfg, trim(c.categoryKey), trim(c.itemKey));
    item.Some? && ClearsEdit(c.claim, item.value.rule)
  }

  /** A verified candidate goes straight to scoring. */
  lemma {:induction false} ClassifiedAgain(v: Candidate, item: Item, cfg: seq<Category>, allowed: set<string>,
                                           fromModel: bool, trim: Trim)
    requires FindItem(cfg, v.categoryKey, v.itemKey) == Some(item)
    requires forall i :: 0 <= i < |v.alternatives| ==> ItemKeyExists(cfg, v.alternatives[i])
    requires SameButReasons(TidyReasons(Tidy(v, allowed, trim), DropsAsset(v.assets, allowed, trim)), v)
    ensures Verify(v, cfg, allowed, fromModel, trim) ==
      ScoreCandidate(TidyReasons(Tidy(v, allowed, trim), DropsAsset(v.assets, allowed, trim)).(expectedScore := None),
                     item.rule, fromModel)
  {
    KnownAlternativesKept(v.alternatives, KnownIn(cfg));
  }

  lemma {:induction false} ClassifiedTwice(c: Candidate, item: Item, cfg: seq<Category>, allowed: set<string>,
                                           fromModel: bool, trim: Trim)
    requires ValidScheme(cfg) && Idempotent(trim)
    requires FindItem(cfg, trim(c.categoryKey), trim(c.itemKey)) == Some(item)
    ensures var v := Verify(c, cfg, allowed, fromModel, trim);
      SameButReasons(Verify(v, cfg, allowed, fromModel, trim), v) <==> fromModel || !ClearsEdit(c.claim, item.rule)
  {
    var known, drops := KnownIn(cfg), DropsAsset(c.assets, allowed, trim);
    var tidy := Tidy(c, allowed, trim);
    var t := TidyReasons(tidy, drops);
    TidyReasonsContent(tidy, drops);
    TidyIsStable(c, allowed, trim);
    var kept := KeepAlternatives(t.alternatives, known);
    var d := AddReasonIf(t, |kept| < |t.alternatives|, UNKNOWN_ALTERNATIVE).(
      alternatives := kept, expectedScore := None);
    var v := ScoreCandidate(d, item.rule, fromModel);
    assert v == Verify(c, cfg, allowed, fromModel, trim);
    ScoreCandidateFacts(d, item.rule, fromModel);
    AlternativesAreKnown(t.alternatives, known);
    AlternativesStayClean(t.alternatives, known, trim);
    SecondTidy(c, v, drops, allowed, trim);

    var tidy2 := Tidy(v, allowed, trim);
    var w := TidyReasons(tidy2, DropsAsset(v.assets, allowed, trim)).(expectedScore := None);
    ClassifiedAgain(v, item, cfg, allowed, fromModel, trim);
    if SCHOOL_CATEGORY_REASON in d.reviewReasons {
      SchoolReasonIsDistinct();
      TidyReasonsSchool(tidy, drops);
      ScoreKeepsReasons(d, item.rule, fromModel, SCHOOL_CATEGORY_REASON);
      CleanedReasonStays(c.reviewReasons, v.reviewReasons, trim, SCHOOL_CATEGORY_REASON);
      TidyReasonsSchool(tidy2, DropsAsset(v.assets, allowed, trim));
    }
    ScoreTwice(d, item.rule, fromModel, w);
  }

  /** A second verification changes nothing but the review reasons, exactly when
      the first did not clear an edited score whose option has an acceptable one
      of its own; model output is never affected. */
  lemma VerifyTwice(c: Candidate, cfg: seq<Category>, allowed: set<string>, fromModel: bool, trim: Trim)
    requires ValidScheme(cfg) && Idempotent(trim)
    ensures var v := Verify(c, cfg, allowed, fromModel, trim);
      SameButReasons(Verify(v, cfg, allowed, fromModel, trim), v) <==> fromModel || !LosesEdit(c, cfg, trim)
  {
    var item := FindItem(cfg, trim(c.categoryKey), trim(c.itemKey));
    if item.Some? {
      ClassifiedTwice(c, item.value, cfg, allowed, fromModel, trim);
    } else {
      var drops := DropsAsset(c.assets, allowed, trim);
      TidyReasonsContent(Tidy(c, allowed, trim), drops);
      TidyIsStable(c, allowed, trim);
      SecondTidy(c, Verify(c, cfg, allowed, fromModel, trim), drops, allowed, trim);
    }
  }
}
