/** What verification makes of a proposed candidate, field by field: what is kept of
    its claim, when it has an expected score and which, what else is kept, and why a
    review is asked for (backend/internal/aiassist/aiassist.go, verifyCandidate). */
module CandidateOutcome {
  import opened CandidateGate
  import opened Options
  import opened Scheme

  // ------------------------------------------------------------------ the lists

  /** Later values never displace earlier ones. */
  lemma {:induction false} CleanOnlyGrows(values: seq<string>, more: seq<string>, trim: Trim)
    ensures Clean(values, trim) <= Clean(values + more, trim)
    decreases |more|
  {
    if more == [] {
      assert values + more == values;
    } else {
      var n := |more| - 1;
      assert (values + more)[..|values + more| - 1] == values + more[..n];
      CleanOnlyGrows(values, more[..n], trim);
    }
  }

  /** What is in a cleaned list: every value that is not blank, trimmed. */
  lemma {:induction false} CleanMembers(values: seq<string>, trim: Trim, x: string)
    ensures x in Clean(values, trim) <==> x != [] && exists i :: 0 <= i < |values| && trim(values[i]) == x
    decreases |values|
  {
    if values != [] {
      var n := |values| - 1;
      CleanMembers(values[..n], trim, x);
      if exists i :: 0 <= i < n && trim(values[i]) == x {
        var i :| 0 <= i < n && trim(values[i]) == x;
        assert trim(values[..n][i]) == x;
      }
      if exists i :: 0 <= i < n && trim(values[..n][i]) == x {
        var i :| 0 <= i < n && trim(values[..n][i]) == x;
        assert trim(values[i]) == x;
      }
    }
  }

  lemma {:induction false} AssetsOnlyGrow(refs: seq<AssetRef>, more: seq<AssetRef>, allowed: set<string>, trim: Trim)
    ensures KeepAssets(refs, allowed, trim) <= KeepAssets(refs + more, allowed, trim)
    decreases |more|
  {
    if more == [] {
      assert refs + more == refs;
    } else {
      var n := |more| - 1;
      assert (refs + more)[..|refs + more| - 1] == refs + more[..n];
      AssetsOnlyGrow(refs, more[..n], allowed, trim);
    }
  }

  /** The references kept are those to allowed materials, trimmed. */
  lemma {:induction false} AssetMembers(refs: seq<AssetRef>, allowed: set<string>, trim: Trim, x: AssetRef)
    ensures x in KeepAssets(refs, allowed, trim) <==>
      x.assetId in allowed && x.assetId != []
      && exists i :: 0 <= i < |refs| && trim(refs[i].assetId) == x.assetId && refs[i].page == x.page
    decreases |refs|
  {
    if refs != [] {
      var n := |refs| - 1;
      AssetMembers(refs[..n], allowed, trim, x);
      if exists i :: 0 <= i < n && trim(refs[i].assetId) == x.assetId && refs[i].page == x.page {
        var i :| 0 <= i < n && trim(refs[i].assetId) == x.assetId && refs[i].page == x.page;
        assert refs[..n][i] == refs[i];
      }
      if exists i :: 0 <= i < n && trim(refs[..n][i].assetId) == x.assetId && refs[..n][i].page == x.page {
        var i :| 0 <= i < n && trim(refs[..n][i].assetId) == x.assetId && refs[..n][i].page == x.page;
        assert refs[..n][i] == refs[i];
      }
    }
  }

  lemma {:induction false} AlternativeMembers(keys: seq<string>, known: string -> bool, x: string)
    ensures x in KeepAlternatives(keys, known) <==> x in keys && known(x)
    ensures |KeepAlternatives(keys, known)| <= |keys|
    ensures |KeepAlternatives(keys, known)| == |keys| <==> forall i :: 0 <= i < |keys| ==> known(keys[i])
    decreases |keys|
  {
    if keys != [] {
      var n := |keys| - 1;
      assert keys == keys[..n] + [keys[n]];
      AlternativeMembers(keys[..n], known, x);
    }
  }

  // ------------------------------------------------------------------- the claim

  /** The option a caption stands for: the first with that caption. */
  ghost predicate Chosen(options: seq<EnumOption>, caption: string, o: EnumOption) {
    exists k: nat :: k < |options| && options[k] == o && o.caption == caption
      && forall j: nat :: j < k ==> options[j].caption != caption
  }

  lemma {:induction false} SelectedIsChosen(options: seq<EnumOption>, caption: string)
    ensures forall o :: Selected(options, caption) == Some(o) <==> Chosen(options, caption, o)
    ensures Selected(options, caption).None? <==> forall o :: o in options ==> o.caption != caption
  {
    if options != [] {
      SelectedIsChosen(options[1..], caption);
      forall o
        ensures Selected(options, caption) == Some(o) <==> Chosen(options, caption, o)
      {
        ChosenHere(options, caption, o);
      }
    }
  }

  lemma ChosenHere(options: seq<EnumOption>, caption: string, o: EnumOption)
    requires options != []
    ensures Chosen(options, caption, o) <==>
      if options[0].caption == caption then options[0] == o else Chosen(options[1..], caption, o)
  {
    if options[0].caption == caption {
      assert options[0] == o ==> Chosen(options, caption, o);
    } else {
      if Chosen(options, caption, o) {
        var k: nat :| k < |options| && options[k] == o && o.caption == caption
          && forall j: nat :: j < k ==> options[j].caption != caption;
        assert options[1..][k - 1] == o;
        assert forall j: nat :: j < k - 1 ==> options[1..][j] == options[j + 1];
      }
      if Chosen(options[1..], caption, o) {
        var k: nat :| k < |options[1..]| && options[1..][k] == o && o.caption == caption
          && forall j: nat :: j < k ==> options[1..][j].caption != caption;
        assert options[k + 1] == o;
        assert forall j: nat :: 0 < j < k + 1 ==> options[j] == options[1..][j - 1];
      }
    }
  }

  /** No option is worth more, and some option is worth that much unless it is zero. */
  ghost predicate Highest(options: seq<EnumOption>, m: int) {
    && (forall o :: o in options ==> NewPoints(o.score) <= m)
    && (m == 0 || exists o :: o in options && NewPoints(o.score) == m)
    && m >= 0
  }

  lemma {:induction false} MaxScoreIsHighest(options: seq<EnumOption>)
    ensures forall m :: MaxScore(options) == m <==> Highest(options, m)
  {
    if options != [] {
      MaxScoreIsHighest(options[1..]);
      var m := MaxScore(options);
      assert Highest(options[1..], MaxScore(options[1..]));
      assert options == [options[0]] + options[1..];
      assert options[0] in options;
      assert Highest(options, m);
      forall n | Highest(options, n)
        ensures n == m
      {
      }
    }
  }

  /** A tier: the option is kept, with its own score where the model proposed it or no
      score was entered, and else with the score that was entered; that score is
      expected as far as it lies between nothing and the best tier. */
  ghost predicate TierOutcome(claim: Claim, options: seq<EnumOption>, fromModel: bool, v: Candidate) {
    && ((forall o :: o in options ==> o.caption != claim.option) ==>
          v.claim == Claim(None, "", None) && v.expectedScore == None)
    && forall o, m :: Chosen(options, claim.option, o) && Highest(options, m) ==> TierKept(claim, o, m, fromModel, v)
  }

  predicate TierKept(claim: Claim, o: EnumOption, m: int, fromModel: bool, v: Candidate) {
    var score := if fromModel || claim.score.None? then o.score else claim.score.value;
    if 0 <= NewPoints(score) <= m
    then v.claim == Claim(None, claim.option, Some(score)) && v.expectedScore == Some(NewPoints(score) as real / 1000.0)
    else v.claim == Claim(None, claim.option, None) && v.expectedScore == None
  }

  /** A quantity: kept and worth what the rule gives for it, or dropped. */
  ghost predicate QuantityOutcome(claim: Claim, rule: ScoreRule, v: Candidate) {
    var points := ScoreClaim(rule, Claim(claim.quantity, "", None));
    && v.claim == Claim(if points.Some? then claim.quantity else None, "", None)
    && v.expectedScore == if points.Some? then Some(points.value as real / 1000.0) else None
  }

  /** A score of one's own: kept within the bounds of the rule, or dropped. */
  ghost predicate SelfReportOutcome(claim: Claim, rule: ScoreRule, v: Candidate) {
    var kept := claim.score.Some?
      && (rule.min.Some? ==> NewPoints(rule.min.value) <= NewPoints(claim.score.value))
      && (rule.max.Some? ==> NewPoints(claim.score.value) <= NewPoints(rule.max.value));
    && v.claim == Claim(None, "", if kept then claim.score else None)
    && v.expectedScore == if kept then Some(NewPoints(claim.score.value) as real / 1000.0) else None
  }

  ghost predicate ClaimOutcome(claim: Claim, rule: ScoreRule, fromModel: bool, v: Candidate) {
    match rule.kind
    case PerUnit => QuantityOutcome(claim, rule, v)
    case Threshold => QuantityOutcome(claim, rule, v)
    case Enum => TierOutcome(claim, rule.options, fromModel, v)
    case Free => SelfReportOutcome(claim, rule, v)
    case UnknownKind => v.claim == Claim(None, "", None) && v.expectedScore == None
  }

  lemma SelectedKept(c: Candidate, rule: ScoreRule, fromModel: bool)
    requires c.expectedScore == None && rule.kind == Enum
    ensures var v := ScoreOption(c, rule, fromModel);
      match Selected(rule.options, c.claim.option)
      case None => v.claim == Claim(None, "", None) && v.expectedScore == None
      case Some(o) => TierKept(c.claim, o, MaxScore(rule.options), fromModel, v)
  {
    if Selected(rule.options, c.claim.option).Some? {
      SelectedWithinMax(rule.options, c.claim.option);
    }
  }

  lemma TierScored(c: Candidate, rule: ScoreRule, fromModel: bool)
    requires c.expectedScore == None && rule.kind == Enum
    ensures TierOutcome(c.claim, rule.options, fromModel, ScoreOption(c, rule, fromModel))
  {
    SelectedKept(c, rule, fromModel);
    SelectedIsChosen(rule.options, c.claim.option);
    MaxScoreIsHighest(rule.options);
    forall o, m | Chosen(rule.options, c.claim.option, o) && Highest(rule.options, m)
      ensures TierKept(c.claim, o, m, fromModel, ScoreOption(c, rule, fromModel))
    {
      assert Selected(rule.options, c.claim.option) == Some(o) && MaxScore(rule.options) == m;
    }
  }

  lemma ScoringOutcome(c: Candidate, rule: ScoreRule, fromModel: bool)
    requires c.expectedScore == None
    ensures ClaimOutcome(c.claim, rule, fromModel, ScoreCandidate(c, rule, fromModel))
  {
    if rule.kind == Enum {
      TierScored(c, rule, fromModel);
    }
  }

  /** What becomes of the claim: of a candidate in the scheme, what its rule says, and
      otherwise it is left for the student without an expected score. */
  lemma VerifiedClaim(c: Candidate, cfg: seq<Category>, allowed: set<string>, fromModel: bool, trim: Trim)
    ensures var v := Verify(c, cfg, allowed, fromModel, trim);
      match FindItem(cfg, trim(c.categoryKey), trim(c.itemKey))
      case Some(item) => ClaimOutcome(c.claim, item.rule, fromModel, v)
      case None => v.claim == c.claim && v.expectedScore == None
  {
    var t := TidyReasons(Tidy(c, allowed, trim), DropsAsset(c.assets, allowed, trim));
    TidyReasonsContent(Tidy(c, allowed, trim), DropsAsset(c.assets, allowed, trim));
    var found := FindItem(cfg, t.categoryKey, t.itemKey);
    if found.Some? {
      var kept := KeepAlternatives(t.alternatives, KnownIn(cfg));
      var d := AddReasonIf(t, |kept| < |t.alternatives|, UNKNOWN_ALTERNATIVE).(
        alternatives := kept, expectedScore := None);
      ScoringOutcome(d, found.value.rule, fromModel);
    }
  }

  // ------------------------------------------------------------ everything else

  /** Trimmed texts, a confidence between 0 and 1, known references. */
  ghost predicate KeptFields(c: Candidate, v: Candidate, allowed: set<string>, trim: Trim) {
    && v.id == trim(c.id) && v.title == trim(c.title) && v.note == trim(c.note) && v.optionEvidence == c.optionEvidence
    && v.assets == KeepAssets(c.assets, allowed, trim)
    && v.confidence.Finite? && 0.0 <= v.confidence.v <= 1.0
    && (match c.confidence
        case NotFinite => v.confidence.v == 0.0
        case Finite(x) =>
          && (0.0 <= x <= 1.0 ==> v.confidence.v == x)
          && (x < 0.0 ==> v.confidence.v == 0.0) && (x > 1.0 ==> v.confidence.v == 1.0))
  }

  /** The place in the scheme: kept where it exists, and then with the alternatives that
      exist as well; otherwise the candidate is unclassified. */
  ghost predicate Placed(c: Candidate, v: Candidate, cfg: seq<Category>, trim: Trim) {
    if FindItem(cfg, trim(c.categoryKey), trim(c.itemKey)).Some? then
      && v.categoryKey == trim(c.categoryKey) && v.itemKey == trim(c.itemKey)
      && forall x :: x in v.alternatives <==> x in Clean(c.alternatives, trim) && ItemKeyExists(cfg, x)
    else
      v.categoryKey == "" && v.itemKey == "" && v.alternatives == Clean(c.alternatives, trim)
  }

  lemma VerifiedFields(c: Candidate, cfg: seq<Category>, allowed: set<string>, fromModel: bool, trim: Trim)
    ensures var v := Verify(c, cfg, allowed, fromModel, trim);
      KeptFields(c, v, allowed, trim) && Placed(c, v, cfg, trim)
  {
    var drops := DropsAsset(c.assets, allowed, trim);
    var t := TidyReasons(Tidy(c, allowed, trim), drops);
    TidyReasonsContent(Tidy(c, allowed, trim), drops);
    var found := FindItem(cfg, t.categoryKey, t.itemKey);
    if found.Some? {
      ClassifiedFacts(t, found.value, KnownIn(cfg), fromModel);
      forall x
        ensures x in KeepAlternatives(t.alternatives, KnownIn(cfg)) <==> x in t.alternatives && ItemKeyExists(cfg, x)
      {
        AlternativeMembers(t.alternatives, KnownIn(cfg), x);
      }
    }
  }

  // -------------------------------------------------------------------- reasons

  /** Why the claim of a candidate in the scheme needs a review, given what became of it. */
  ghost predicate ClaimReason(claim: Claim, rule: ScoreRule, fromModel: bool, school: bool, v: Candidate, reason: string)
  {
    match rule.kind
    case PerUnit => QuantityReason(claim, v, reason)
    case Threshold => QuantityReason(claim, v, reason)
    case Enum =>
      || (reason == BAD_OPTION && !school && forall o :: o in rule.options ==> o.caption != claim.option)
      || (reason == BAD_ENUM_SCORE && v.expectedScore.None? && exists o :: o in rule.options && o.caption == claim.option)
      || (reason == PREFILLED_OPTION && v.expectedScore.Some? && fromModel)
    case Free =>
      || (reason == NO_SCORE && claim.score.None?)
      || (reason == BAD_SCORE && claim.score.Some? && v.expectedScore.None?)
      || (reason == PREFILLED_SCORE && v.expectedScore.Some? && fromModel)
    case UnknownKind => reason == UNSUPPORTED_RULE
  }

  ghost predicate QuantityReason(claim: Claim, v: Candidate, reason: string) {
    || (reason == NO_QUANTITY && claim.quantity.None?)
    || (reason == BAD_QUANTITY && claim.quantity.Some? && v.expectedScore.None?)
  }

  /** The reasons for a review that verification finds itself. */
  ghost predicate Found(c: Candidate, v: Candidate, cfg: seq<Category>, allowed: set<string>, fromModel: bool,
                        trim: Trim, reason: string)
  {
    || (reason == LOW_CONFIDENCE && v.confidence.Finite? && v.confidence.v < 0.75)
    || (reason == UNKNOWN_ASSET && exists r :: r in c.assets && (trim(r.assetId) !in allowed || trim(r.assetId) == []))
    || (reason == NO_ASSETS && v.assets == [])
    || (reason == NO_TITLE && v.title == [])
    || match FindItem(cfg, trim(c.categoryKey), trim(c.itemKey))
       case None => reason == UNCLASSIFIED
       case Some(item) =>
         || (reason == UNKNOWN_ALTERNATIVE && exists x :: x in Clean(c.alternatives, trim) && !ItemKeyExists(cfg, x))
         || ClaimReason(c.claim, item.rule, fromModel, SCHOOL_CATEGORY_REASON in Clean(c.reviewReasons, trim), v, reason)
  }

  lemma AddedReason(c: Candidate, condition: bool, added: string, reason: string)
    ensures var d := AddReasonIf(c, condition, added);
      && (reason in d.reviewReasons <==> reason in c.reviewReasons || (condition && reason == added))
      && (d.needsReview <==> c.needsReview || condition)
      && (Distinct(c.reviewReasons) ==> Distinct(d.reviewReasons))
      && c.reviewReasons <= d.reviewReasons
  {
  }

  lemma TidyReasonsFound(t: Candidate, drops: bool)
    ensures var d := TidyReasons(t, drops);
      && (forall reason :: reason in d.reviewReasons <==>
            || reason in t.reviewReasons
            || (reason == LOW_CONFIDENCE && Clamp(t.confidence) < 0.75) || (reason == UNKNOWN_ASSET && drops)
            || (reason == NO_ASSETS && t.assets == []) || (reason == NO_TITLE && t.title == []))
      && (Distinct(t.reviewReasons) ==> Distinct(d.reviewReasons)) && t.reviewReasons <= d.reviewReasons
  {
    var low := AddReasonIf(t, Clamp(t.confidence) < 0.75, LOW_CONFIDENCE);
    var unknown := AddReasonIf(low, drops, UNKNOWN_ASSET);
    var none := AddReasonIf(unknown, t.assets == [], NO_ASSETS);
    AddedReason(t, Clamp(t.confidence) < 0.75, LOW_CONFIDENCE, "");
    AddedReason(low, drops, UNKNOWN_ASSET, "");
    AddedReason(unknown, t.assets == [], NO_ASSETS, "");
    AddedReason(none, t.title == [], NO_TITLE, "");
    forall reason
      ensures reason in TidyReasons(t, drops).reviewReasons <==>
        || reason in t.reviewReasons
        || (reason == LOW_CONFIDENCE && Clamp(t.confidence) < 0.75) || (reason == UNKNOWN_ASSET && drops)
        || (reason == NO_ASSETS && t.assets == []) || (reason == NO_TITLE && t.title == [])
    {
      AddedReason(t, Clamp(t.confidence) < 0.75, LOW_CONFIDENCE, reason);
      AddedReason(low, drops, UNKNOWN_ASSET, reason);
      AddedReason(unknown, t.assets == [], NO_ASSETS, reason);
      AddedReason(none, t.title == [], NO_TITLE, reason);
    }
  }

  /** The reasons and the mark for review after scoring. */
  ghost predicate ReasonsAfter(c: Candidate, rule: ScoreRule, fromModel: bool, v: Candidate, reason: string) {
    var school := SCHOOL_CATEGORY_REASON in c.reviewReasons;
    && (reason in v.reviewReasons <==> reason in c.reviewReasons || ClaimReason(c.claim, rule, fromModel, school, v, reason))
    && (ClaimReason(c.claim, rule, fromModel, school, v, reason) ==> v.needsReview)
  }

  lemma TierReasons(c: Candidate, rule: ScoreRule, fromModel: bool, reason: string)
    requires c.expectedScore == None && rule.kind == Enum
    ensures ReasonsAfter(c, rule, fromModel, ScoreOption(c, rule, fromModel), reason)
  {
    SelectedIsChosen(rule.options, c.claim.option);
    var selected := Selected(rule.options, c.claim.option);
    if selected.Some? {
      assert Chosen(rule.options, c.claim.option, selected.value);
      assert selected.value in rule.options;
    }
  }

  lemma ScoringReasons(c: Candidate, rule: ScoreRule, fromModel: bool, reason: string)
    requires c.expectedScore == None
    ensures ReasonsAfter(c, rule, fromModel, ScoreCandidate(c, rule, fromModel), reason)
  {
    if rule.kind == Enum {
      TierReasons(c, rule, fromModel, reason);
    }
  }

  predicate ReasonsKept(c: Candidate, v: Candidate) {
    && (Distinct(c.reviewReasons) ==> Distinct(v.reviewReasons)) && c.reviewReasons <= v.reviewReasons
    && (c.needsReview ==> v.needsReview)
  }

  lemma QuantityKeeps(c: Candidate, rule: ScoreRule)
    ensures ReasonsKept(c, ScoreQuantity(c, rule))
  {
  }

  lemma OptionKeeps(c: Candidate, rule: ScoreRule, fromModel: bool)
    ensures ReasonsKept(c, ScoreOption(c, rule, fromModel))
  {
  }

  lemma SelfReportKeeps(c: Candidate, rule: ScoreRule, fromModel: bool)
    ensures ReasonsKept(c, ScoreSelfReport(c, rule, fromModel))
  {
  }

  /** Reasons are never lost or repeated, and neither is a mark for review. */
  lemma ScoringKeeps(c: Candidate, rule: ScoreRule, fromModel: bool)
    ensures ReasonsKept(c, ScoreCandidate(c, rule, fromModel))
  {
    match rule.kind
    case PerUnit => QuantityKeeps(c, rule);
    case Threshold => QuantityKeeps(c, rule);
    case Enum => OptionKeeps(c, rule, fromModel);
    case Free => SelfReportKeeps(c, rule, fromModel);
    case UnknownKind =>
  }

  /** A mark for review has a reason. */
  lemma ScoringMark(c: Candidate, rule: ScoreRule, fromModel: bool) returns (reason: string)
    requires c.expectedScore == None
    ensures var v := ScoreCandidate(c, rule, fromModel);
      v.needsReview ==>
        c.needsReview || ClaimReason(c.claim, rule, fromModel, SCHOOL_CATEGORY_REASON in c.reviewReasons, v, reason)
  {
    match rule.kind
    case PerUnit => reason := if c.claim.quantity.None? then NO_QUANTITY else BAD_QUANTITY;
    case Threshold => reason := if c.claim.quantity.None? then NO_QUANTITY else BAD_QUANTITY;
    case Enum => reason := TierMark(c, rule, fromModel);
    case Free =>
      reason := if c.claim.score.None? then NO_SCORE
        else if ScoreClaim(rule, Claim(None, "", c.claim.score)).None? then BAD_SCORE else PREFILLED_SCORE;
    case UnknownKind => reason := UNSUPPORTED_RULE;
  }

  lemma TierMark(c: Candidate, rule: ScoreRule, fromModel: bool) returns (reason: string)
    requires c.expectedScore == None && rule.kind == Enum
    ensures var v := ScoreOption(c, rule, fromModel);
      v.needsReview ==>
        c.needsReview || ClaimReason(c.claim, rule, fromModel, SCHOOL_CATEGORY_REASON in c.reviewReasons, v, reason)
  {
    SelectedIsChosen(rule.options, c.claim.option);
    var selected := Selected(rule.options, c.claim.option);
    if selected.None? {
      reason := BAD_OPTION;
    } else {
      assert Chosen(rule.options, c.claim.option, selected.value);
      reason := if ScoreOption(c, rule, fromModel).expectedScore.None? then BAD_ENUM_SCORE else PREFILLED_OPTION;
    }
  }

  /** The reasons for a review are the cleaned ones the candidate came with, in front,
      and exactly those found now, none of them twice; a review is asked for when it was
      before or something was found now. */
  ghost predicate Reviewed(c: Candidate, v: Candidate, cfg: seq<Category>, allowed: set<string>, fromModel: bool,
                           trim: Trim)
  {
    && Clean(c.reviewReasons, trim) <= v.reviewReasons && Distinct(v.reviewReasons)
    && (forall reason :: reason in v.reviewReasons <==>
          reason in Clean(c.reviewReasons, trim) || Found(c, v, cfg, allowed, fromModel, trim, reason))
    && (v.needsReview <==> c.needsReview || exists reason :: Found(c, v, cfg, allowed, fromModel, trim, reason))
  }

  /** The candidate just before its claim is looked at. */
  function BeforeScoring(c: Candidate, cfg: seq<Category>, allowed: set<string>, trim: Trim): Candidate {
    var t := TidyReasons(Tidy(c, allowed, trim), DropsAsset(c.assets, allowed, trim));
    var kept := KeepAlternatives(t.alternatives, KnownIn(cfg));
    AddReasonIf(t, |kept| < |t.alternatives|, UNKNOWN_ALTERNATIVE).(alternatives := kept, expectedScore := None)
  }

  lemma DropsMeans(refs: seq<AssetRef>, allowed: set<string>, trim: Trim)
    ensures DropsAsset(refs, allowed, trim) <==>
      exists r :: r in refs && (trim(r.assetId) !in allowed || trim(r.assetId) == [])
  {
    if DropsAsset(refs, allowed, trim) {
      var i :| 0 <= i < |refs| && !Usable(TrimRef(refs[i], trim), allowed);
      assert refs[i] in refs;
    }
    if exists r :: r in refs && (trim(r.assetId) !in allowed || trim(r.assetId) == []) {
      var i :| 0 <= i < |refs| && (trim(refs[i].assetId) !in allowed || trim(refs[i].assetId) == []);
      assert !Usable(TrimRef(refs[i], trim), allowed);
    }
  }

  lemma UnknownAlternatives(keys: seq<string>, cfg: seq<Category>)
    ensures |KeepAlternatives(keys, KnownIn(cfg))| < |keys| <==> exists x :: x in keys && !ItemKeyExists(cfg, x)
  {
    AlternativeMembers(keys, KnownIn(cfg), "");
    if exists x :: x in keys && !ItemKeyExists(cfg, x) {
      var i :| 0 <= i < |keys| && !ItemKeyExists(cfg, keys[i]);
      assert !KnownIn(cfg)(keys[i]);
    }
  }

  lemma TidiedReasons(c: Candidate, allowed: set<string>, trim: Trim, reason: string)
    ensures var t := TidyReasons(Tidy(c, allowed, trim), DropsAsset(c.assets, allowed, trim));
      && t.alternatives == Clean(c.alternatives, trim)
      && (reason in t.reviewReasons <==>
            || reason in Clean(c.reviewReasons, trim)
            || (reason == LOW_CONFIDENCE && Clamp(c.confidence) < 0.75)
            || (reason == UNKNOWN_ASSET && exists r :: r in c.assets && (trim(r.assetId) !in allowed || trim(r.assetId) == []))
            || (reason == NO_ASSETS && KeepAssets(c.assets, allowed, trim) == [])
            || (reason == NO_TITLE && trim(c.title) == []))
  {
    DropsMeans(c.assets, allowed, trim);
    TidyReasonsFound(Tidy(c, allowed, trim), DropsAsset(c.assets, allowed, trim));
    TidyReasonsContent(Tidy(c, allowed, trim), DropsAsset(c.assets, allowed, trim));
  }

  lemma OneReasonMore(t: Candidate, cfg: seq<Category>, reason: string)
    ensures var kept := KeepAlternatives(t.alternatives, KnownIn(cfg));
      var b := AddReasonIf(t, |kept| < |t.alternatives|, UNKNOWN_ALTERNATIVE);
      reason in b.reviewReasons <==>
        || reason in t.reviewReasons
        || (reason == UNKNOWN_ALTERNATIVE && exists x :: x in t.alternatives && !ItemKeyExists(cfg, x))
  {
    UnknownAlternatives(t.alternatives, cfg);
    AddedReason(t, |KeepAlternatives(t.alternatives, KnownIn(cfg))| < |t.alternatives|, UNKNOWN_ALTERNATIVE, reason);
  }

  /** The reasons before the claim is looked at. */
  lemma EarlyReasons(c: Candidate, cfg: seq<Category>, allowed: set<string>, trim: Trim, reason: string)
    ensures var b := BeforeScoring(c, cfg, allowed, trim);
      reason in b.reviewReasons <==>
        || reason in Clean(c.reviewReasons, trim)
        || (reason == LOW_CONFIDENCE && Clamp(c.confidence) < 0.75)
        || (reason == UNKNOWN_ASSET && exists r :: r in c.assets && (trim(r.assetId) !in allowed || trim(r.assetId) == []))
        || (reason == NO_ASSETS && KeepAssets(c.assets, allowed, trim) == []) || (reason == NO_TITLE && trim(c.title) == [])
        || (reason == UNKNOWN_ALTERNATIVE && exists x :: x in Clean(c.alternatives, trim) && !ItemKeyExists(cfg, x))
  {
    TidiedReasons(c, allowed, trim, reason);
    OneReasonMore(TidyReasons(Tidy(c, allowed, trim), DropsAsset(c.assets, allowed, trim)), cfg, reason);
  }

  lemma EarlyMark(c: Candidate, cfg: seq<Category>, allowed: set<string>, trim: Trim)
    requires Idempotent(trim)
    ensures var b := BeforeScoring(c, cfg, allowed, trim);
      && (b.needsReview <==>
            c.needsReview || Clamp(c.confidence) < 0.75 || DropsAsset(c.assets, allowed, trim)
            || b.assets == [] || b.title == [] || |b.alternatives| < |Clean(c.alternatives, trim)|)
      && Distinct(b.reviewReasons) && Clean(c.reviewReasons, trim) <= b.reviewReasons
  {
    var drops, tidy := DropsAsset(c.assets, allowed, trim), Tidy(c, allowed, trim);
    CleanIsClean(c.reviewReasons, trim);
    TidyReasonsFound(tidy, drops);
    TidyReasonsContent(tidy, drops);
    var t := TidyReasons(tidy, drops);
    AddedReason(t, |KeepAlternatives(t.alternatives, KnownIn(cfg))| < |t.alternatives|, UNKNOWN_ALTERNATIVE, "");
  }

  /** The reason behind a mark that was made before the claim was looked at. */
  function EarlyReason(c: Candidate, b: Candidate, allowed: set<string>, trim: Trim): string {
    if Clamp(c.confidence) < 0.75 then LOW_CONFIDENCE
    else if DropsAsset(c.assets, allowed, trim) then UNKNOWN_ASSET
    else if b.assets == [] then NO_ASSETS
    else if b.title == [] then NO_TITLE
    else UNKNOWN_ALTERNATIVE
  }

  lemma SchoolReasonEarly(c: Candidate, cfg: seq<Category>, allowed: set<string>, trim: Trim)
    ensures SCHOOL_CATEGORY_REASON in BeforeScoring(c, cfg, allowed, trim).reviewReasons
      <==> SCHOOL_CATEGORY_REASON in Clean(c.reviewReasons, trim)
  {
    SchoolReasonIsDistinct();
    EarlyReasons(c, cfg, allowed, trim, SCHOOL_CATEGORY_REASON);
  }

  /** The parts of a candidate in the scheme that its reasons speak of. */
  lemma ClassifiedParts(c: Candidate, item: Item, cfg: seq<Category>, allowed: set<string>, fromModel: bool, trim: Trim)
    requires FindItem(cfg, trim(c.categoryKey), trim(c.itemKey)) == Some(item)
    ensures var b, v := BeforeScoring(c, cfg, allowed, trim), Verify(c, cfg, allowed, fromModel, trim);
      && v == ScoreCandidate(b, item.rule, fromModel) && b.expectedScore == None && b.claim == c.claim
      && v.assets == b.assets == KeepAssets(c.assets, allowed, trim) && v.title == b.title == trim(c.title)
      && v.confidence == b.confidence == Finite(Clamp(c.confidence))
      && b.alternatives == KeepAlternatives(Clean(c.alternatives, trim), KnownIn(cfg))
  {
    var drops := DropsAsset(c.assets, allowed, trim);
    TidyReasonsContent(Tidy(c, allowed, trim), drops);
    ScoreCandidateFacts(BeforeScoring(c, cfg, allowed, trim), item.rule, fromModel);
  }

  lemma ReasonInScheme(c: Candidate, item: Item, cfg: seq<Category>, allowed: set<string>, fromModel: bool, trim: Trim,
                       reason: string)
    requires FindItem(cfg, trim(c.categoryKey), trim(c.itemKey)) == Some(item)
    ensures var v := Verify(c, cfg, allowed, fromModel, trim);
      reason in v.reviewReasons <==>
        reason in Clean(c.reviewReasons, trim) || Found(c, v, cfg, allowed, fromModel, trim, reason)
  {
    var b := BeforeScoring(c, cfg, allowed, trim);
    ClassifiedParts(c, item, cfg, allowed, fromModel, trim);
    SchoolReasonEarly(c, cfg, allowed, trim);
    EarlyReasons(c, cfg, allowed, trim, reason);
    ScoringReasons(b, item.rule, fromModel, reason);
  }

  lemma FoundIsMarked(c: Candidate, item: Item, cfg: seq<Category>, allowed: set<string>, fromModel: bool, trim: Trim,
                      reason: string)
    requires FindItem(cfg, trim(c.categoryKey), trim(c.itemKey)) == Some(item) && Idempotent(trim)
    requires Found(c, Verify(c, cfg, allowed, fromModel, trim), cfg, allowed, fromModel, trim, reason)
    ensures Verify(c, cfg, allowed, fromModel, trim).needsReview
  {
    var b := BeforeScoring(c, cfg, allowed, trim);
    ClassifiedParts(c, item, cfg, allowed, fromModel, trim);
    SchoolReasonEarly(c, cfg, allowed, trim);
    EarlyMark(c, cfg, allowed, trim);
    DropsMeans(c.assets, allowed, trim);
    UnknownAlternatives(Clean(c.alternatives, trim), cfg);
    ScoringKeeps(b, item.rule, fromModel);
    ScoringReasons(b, item.rule, fromModel, reason);
  }

  lemma MarkIsFound(c: Candidate, item: Item, cfg: seq<Category>, allowed: set<string>, fromModel: bool, trim: Trim)
    returns (reason: string)
    requires FindItem(cfg, trim(c.categoryKey), trim(c.itemKey)) == Some(item) && Idempotent(trim)
    requires Verify(c, cfg, allowed, fromModel, trim).needsReview && !c.needsReview
    ensures Found(c, Verify(c, cfg, allowed, fromModel, trim), cfg, allowed, fromModel, trim, reason)
  {
    var b := BeforeScoring(c, cfg, allowed, trim);
    ClassifiedParts(c, item, cfg, allowed, fromModel, trim);
    SchoolReasonEarly(c, cfg, allowed, trim);
    EarlyMark(c, cfg, allowed, trim);
    DropsMeans(c.assets, allowed, trim);
    UnknownAlternatives(Clean(c.alternatives, trim), cfg);
    reason := ScoringMark(b, item.rule, fromModel);
    if b.needsReview {
      reason := EarlyReason(c, b, allowed, trim);
    }
  }

  lemma MarkInScheme(c: Candidate, item: Item, cfg: seq<Category>, allowed: set<string>, fromModel: bool, trim: Trim)
    requires FindItem(cfg, trim(c.categoryKey), trim(c.itemKey)) == Some(item) && Idempotent(trim)
    ensures var v := Verify(c, cfg, allowed, fromModel, trim);
      && (forall reason :: Found(c, v, cfg, allowed, fromModel, trim, reason) ==> v.needsReview)
      && (v.needsReview && !c.needsReview ==> exists reason :: Found(c, v, cfg, allowed, fromModel, trim, reason))
  {
    var v := Verify(c, cfg, allowed, fromModel, trim);
    forall reason | Found(c, v, cfg, allowed, fromModel, trim, reason)
      ensures v.needsReview
    {
      FoundIsMarked(c, item, cfg, allowed, fromModel, trim, reason);
    }
    if v.needsReview && !c.needsReview {
      var reason := MarkIsFound(c, item, cfg, allowed, fromModel, trim);
    }
  }

  lemma ReviewedInScheme(c: Candidate, item: Item, cfg: seq<Category>, allowed: set<string>, fromModel: bool, trim: Trim)
    requires FindItem(cfg, trim(c.categoryKey), trim(c.itemKey)) == Some(item) && Idempotent(trim)
    ensures Reviewed(c, Verify(c, cfg, allowed, fromModel, trim), cfg, allowed, fromModel, trim)
  {
    var b := BeforeScoring(c, cfg, allowed, trim);
    ClassifiedParts(c, item, cfg, allowed, fromModel, trim);
    EarlyMark(c, cfg, allowed, trim);
    ScoringKeeps(b, item.rule, fromModel);
    MarkInScheme(c, item, cfg, allowed, fromModel, trim);
    forall reason
      ensures var v := Verify(c, cfg, allowed, fromModel, trim);
        reason in v.reviewReasons <==>
          reason in Clean(c.reviewReasons, trim) || Found(c, v, cfg, allowed, fromModel, trim, reason)
    {
      ReasonInScheme(c, item, cfg, allowed, fromModel, trim, reason);
    }
  }

  lemma ReviewedOutsideScheme(c: Candidate, cfg: seq<Category>, allowed: set<string>, fromModel: bool, trim: Trim)
    requires FindItem(cfg, trim(c.categoryKey), trim(c.itemKey)).None? && Idempotent(trim)
    ensures Reviewed(c, Verify(c, cfg, allowed, fromModel, trim), cfg, allowed, fromModel, trim)
  {
    var drops, v := DropsAsset(c.assets, allowed, trim), Verify(c, cfg, allowed, fromModel, trim);
    var tidy := Tidy(c, allowed, trim);
    var t := TidyReasons(tidy, drops);
    CleanIsClean(c.reviewReasons, trim);
    DropsMeans(c.assets, allowed, trim);
    TidyReasonsFound(tidy, drops);
    TidyReasonsContent(tidy, drops);
    assert v == AddReasonIf(t.(categoryKey := "", itemKey := "", expectedScore := None), true, UNCLASSIFIED);
    forall reason
      ensures reason in v.reviewReasons <==>
        reason in Clean(c.reviewReasons, trim) || Found(c, v, cfg, allowed, fromModel, trim, reason)
    {
      AddedReason(t.(categoryKey := "", itemKey := "", expectedScore := None), true, UNCLASSIFIED, reason);
    }
    AddedReason(t.(categoryKey := "", itemKey := "", expectedScore := None), true, UNCLASSIFIED, "");
    assert Found(c, v, cfg, allowed, fromModel, trim, UNCLASSIFIED);
  }

  lemma VerifiedReasons(c: Candidate, cfg: seq<Category>, allowed: set<string>, fromModel: bool, trim: Trim)
    requires Idempotent(trim)
    ensures Reviewed(c, Verify(c, cfg, allowed, fromModel, trim), cfg, allowed, fromModel, trim)
  {
    match FindItem(cfg, trim(c.categoryKey), trim(c.itemKey))
    case Some(item) => ReviewedInScheme(c, item, cfg, allowed, fromModel, trim);
    case None => ReviewedOutsideScheme(c, cfg, allowed, fromModel, trim);
  }
}
