/** The published scoring tree and the deterministic score of a claim
    (backend/internal/scheme). */
module Scheme {
  import opened Options

  /** Thousandths of a point, rounded half away from zero. */
  function NewPoints(v: real): int {
    if v >= 0.0 then (v * 1000.0 + 0.5).Floor else -((-v * 1000.0 + 0.5).Floor)
  }

  function Float64(p: int): real {
    p as real / 1000.0
  }

  datatype EnumOption = EnumOption(caption: string, score: real)

  datatype RuleKind = PerUnit | Enum | Free | Threshold | UnknownKind

  datatype ScoreRule = ScoreRule(
    kind: RuleKind, per: real, cap: Option<real>, min: Option<real>, max: Option<real>,
    options: seq<EnumOption>, minimum: Option<real>, award: Option<real>)

  datatype Claim = Claim(quantity: Option<real>, option: string, score: Option<real>)

  const NO_CLAIM := Claim(None, "", None)

  /** The first option with that caption. */
  function Selected(options: seq<EnumOption>, caption: string): Option<EnumOption> {
    if options == [] then None
    else if options[0].caption == caption then Some(options[0])
    else Selected(options[1..], caption)
  }

  function MaxScore(options: seq<EnumOption>): (m: int)
    ensures m >= 0
  {
    if options == [] then 0 else Max(NewPoints(options[0].score), MaxScore(options[1..]))
  }

  /** The expected score of a claim, or None when the rule rejects the claim. */
  function ScoreClaim(rule: ScoreRule, claim: Claim): Option<int> {
    match rule.kind
    case PerUnit =>
      if claim.quantity.None? || claim.quantity.value < 0.0 then None
      else
        var score := NewPoints(claim.quantity.value * rule.per);
        Some(if rule.cap.Some? then Min(score, NewPoints(rule.cap.value)) else score)
    case Enum =>
      var selected := Selected(rule.options, claim.option);
      if selected.None? then None
      else if claim.score.None? then Some(NewPoints(selected.value.score))
      else
        var score := NewPoints(claim.score.value);
        if score < 0 || score > MaxScore(rule.options) then None else Some(score)
    case Free =>
      if claim.score.None? then None
      else
        var score := NewPoints(claim.score.value);
        if rule.min.Some? && score < NewPoints(rule.min.value) then None
        else if rule.max.Some? && score > NewPoints(rule.max.value) then None
        else Some(score)
    case Threshold =>
      if claim.quantity.None? || claim.quantity.value < 0.0 || rule.minimum.None? || rule.award.None? then None
      else if claim.quantity.value < rule.minimum.value then Some(0)
      else Some(NewPoints(rule.award.value))
    case UnknownKind => None
  }

  /** A selected option never scores above the largest one. */
  lemma {:induction false} SelectedWithinMax(options: seq<EnumOption>, caption: string)
    requires Selected(options, caption).Some?
    ensures NewPoints(Selected(options, caption).value.score) <= MaxScore(options)
    ensures Selected(options, caption).value.caption == caption
  {
    if options[0].caption != caption {
      SelectedWithinMax(options[1..], caption);
    }
  }

  datatype Item = Item(key: string, name: string, rule: ScoreRule, note: string)

  /** A base item, with the claimable item it stands for when students may file
      material for it. */
  datatype BaseItem = BaseItem(key: string, claimable: Option<Item>)

  datatype Category = Category(key: string, maxTotal: real, items: seq<Item>, baseItems: seq<BaseItem>)

  const IMPORTED_CATEGORY := "major"
  const OTHER_PREFIX := "__other_self_report_"

  function OtherItem(c: Category): Item {
    Item(OTHER_PREFIX + c.key, "其他项目自报",
         ScoreRule(Free, 0.0, None, Some(0.0), Some(c.maxTotal), [], None, None), "")
  }

  function FindIn(items: seq<Item>, key: string): Option<Item> {
    if items == [] then None
    else if items[0].key == key then Some(items[0])
    else FindIn(items[1..], key)
  }

  function FindBase(items: seq<BaseItem>, key: string): Option<BaseItem> {
    if items == [] then None
    else if items[0].key == key then Some(items[0])
    else FindBase(items[1..], key)
  }

  /** The item with that key in the category with that key. A base item with the
      key ends the search even when it cannot be claimed. */
  function FindItem(cfg: seq<Category>, categoryKey: string, itemKey: string): Option<Item> {
    if cfg == [] then None
    else if cfg[0].key != categoryKey then FindItem(cfg[1..], categoryKey, itemKey)
    else if FindIn(cfg[0].items, itemKey).Some? then FindIn(cfg[0].items, itemKey)
    else if FindBase(cfg[0].baseItems, itemKey).Some? then FindBase(cfg[0].baseItems, itemKey).value.claimable
    else if itemKey == OTHER_PREFIX + cfg[0].key && cfg[0].key != IMPORTED_CATEGORY then Some(OtherItem(cfg[0]))
    else FindItem(cfg[1..], categoryKey, itemKey)
  }

  predicate ItemKeyExists(cfg: seq<Category>, key: string) {
    exists i :: 0 <= i < |cfg| && FindItem(cfg, cfg[i].key, key).Some?
  }
}
