/** Grounding of school competition categories: a model may prefill a tier such as
    A1 only with a quotation that says so (backend/internal/aiassist/aiassist.go). */
module CategoryEvidence {
  import opened CandidateGate
  import opened Chunking
  import opened Options
  import opened Scheme
  import Text

  /** The character tables the comparison uses. */
  datatype Glyphs = Glyphs(space: char -> bool, lower: char -> char)

  // ------------------------------------------------------------ normalised text

  /** Full-width forms become ASCII, then lower case. */
  function Fold(c: char, g: Glyphs): char {
    g.lower(if '！' <= c <= '～' then (c as int - 0xFEE0) as char else c)
  }

  function Normalize(text: string, g: Glyphs): string {
    if text == [] then []
    else (if g.space(text[0]) then [] else [Fold(text[0], g)]) + Normalize(text[1..], g)
  }

  lemma {:induction false} SpacesNormalizeAway(text: string, g: Glyphs)
    requires Text.TrimLeft(text, g.space) == []
    ensures Normalize(text, g) == []
  {
    if text != [] {
      SpacesNormalizeAway(text[1..], g);
    }
  }

  lemma {:induction false} BlankNormalizesAway(text: string, g: Glyphs)
    requires TrimOf(g.space)(text) == ""
    ensures Normalize(text, g) == []
  {
    var t := Text.TrimLeft(text, g.space);
    if t != [] {
      NotAllTrimmed(t, g.space);
    }
    SpacesNormalizeAway(text, g);
  }

  lemma {:induction false} NotAllTrimmed(t: string, cut: char -> bool)
    requires t != [] && !cut(t[0])
    ensures Text.TrimRight(t, cut) != []
    decreases |t|
  {
    if cut(t[|t| - 1]) {
      NotAllTrimmed(t[..|t| - 1], cut);
    }
  }

  predicate OccursAt(s: string, part: string, i: nat) {
    i + |part| <= |s| && s[i..i + |part|] == part
  }

  function IndexFrom(s: string, part: string, i: nat): (r: Option<nat>)
    ensures r.Some? ==> i <= r.value && OccursAt(s, part, r.value)
    ensures r.Some? ==> forall j: nat :: i <= j < r.value ==> !OccursAt(s, part, j)
    ensures r.None? ==> forall j: nat :: i <= j ==> !OccursAt(s, part, j)
    decreases |s| - i
  {
    if i + |part| > |s| then None
    else if OccursAt(s, part, i) then Some(i)
    else IndexFrom(s, part, i + 1)
  }

  predicate Contains(s: string, part: string) {
    IndexFrom(s, part, 0).Some?
  }

  // --------------------------------------------------------- category codes

  predicate WordChar(c: char) {
    'a' <= c <= 'z' || 'A' <= c <= 'Z' || '0' <= c <= '9' || c == '_'
  }

  function DigitsEnd(text: string, i: nat): (e: nat)
    requires i <= |text|
    ensures i <= e <= |text|
    decreases |text| - i
  {
    if i < |text| && '0' <= text[i] <= '9' then DigitsEnd(text, i + 1) else i
  }

  /** The code of a category named at position i: a letter that starts a word,
      digits, and the word for category. */
  function TierAt(text: string, i: nat): Option<string> {
    if i >= |text| || !('a' <= text[i] <= 'z') || (i > 0 && WordChar(text[i - 1])) then None
    else
      var e := DigitsEnd(text, i + 1);
      if e < |text| && text[e] == '类' then Some(text[i..e]) else None
  }

  function FirstTier(text: string, i: nat): string
    decreases |text| - i
  {
    if i >= |text| then ""
    else if TierAt(text, i).Some? then TierAt(text, i).value
    else FirstTier(text, i + 1)
  }

  /** The category an option's caption names, or "". */
  function SchoolCategory(caption: string, g: Glyphs): string {
    FirstTier(Normalize(caption, g), 0)
  }

  function Tiers(options: seq<EnumOption>, g: Glyphs): set<string> {
    set o | o in options && SchoolCategory(o.caption, g) != "" :: SchoolCategory(o.caption, g)
  }

  // ------------------------------------------------- the statement around a quote

  predicate Delimiter(c: char) {
    c in "。;!?；！？"
  }

  /** Just after the last delimiter before i, or 0. */
  function LeftEdge(text: string, i: nat): (left: nat)
    requires i <= |text|
    ensures left <= i
    ensures forall k :: left <= k < i ==> !Delimiter(text[k])
    ensures left == 0 || Delimiter(text[left - 1])
  {
    if i == 0 || Delimiter(text[i - 1]) then i else LeftEdge(text, i - 1)
  }

  /** The first delimiter from i on, or the end. */
  function RightEdge(text: string, i: nat): (end: nat)
    requires i <= |text|
    ensures i <= end <= |text|
    ensures forall k :: i <= k < end ==> !Delimiter(text[k])
    ensures end == |text| || Delimiter(text[end])
    decreases |text| - i
  {
    if i == |text| || Delimiter(text[i]) then i else RightEdge(text, i + 1)
  }

  /** Source lines normalised and joined, with the position where each ends. */
  datatype Joined = Joined(text: string, lineEnds: seq<nat>)

  function Lines(source: string): (lines: seq<string>)
    ensures lines != []
  {
    if source == [] then [""]
    else if source[|source| - 1] == '\n' then Lines(source[..|source| - 1]) + [""]
    else
      var lines := Lines(source[..|source| - 1]);
      lines[|lines| - 1 := lines[|lines| - 1] + [source[|source| - 1]]]
  }

  function Join(lines: seq<string>, g: Glyphs): (j: Joined)
    ensures forall b :: b in j.lineEnds ==> b <= |j.text|
  {
    if lines == [] then Joined("", [])
    else
      var j := Join(lines[..|lines| - 1], g);
      var text := j.text + Normalize(lines[|lines| - 1], g);
      Joined(text, j.lineEnds + [|text|])
  }

  function TightenLeft(ends: seq<nat>, start: nat, left: nat): (l: nat)
    requires left <= start
    ensures left <= l <= start && (l == left || l in ends)
    ensures forall b :: b in ends && b <= start ==> b <= l
  {
    if ends == [] then left
    else
      var l := TightenLeft(ends[..|ends| - 1], start, left);
      assert forall b :: b in ends ==> b in ends[..|ends| - 1] || b == ends[|ends| - 1];
      if ends[|ends| - 1] <= start && ends[|ends| - 1] > l then ends[|ends| - 1] else l
  }

  function TightenRight(ends: seq<nat>, stop: nat, end: nat): (e: nat)
    requires stop <= end
    ensures stop <= e <= end && (e == end || e in ends)
    ensures forall b :: b in ends && b >= stop ==> e <= b
  {
    if ends == [] then end
    else
      var e := TightenRight(ends[..|ends| - 1], stop, end);
      assert forall b :: b in ends ==> b in ends[..|ends| - 1] || b == ends[|ends| - 1];
      if ends[|ends| - 1] >= stop && ends[|ends| - 1] < e then ends[|ends| - 1] else e
  }

  /** text[left..end] is the statement around text[start..stop]: it runs from the
      nearest delimiter or line end before to the nearest one after. */
  predicate IsStatement(j: Joined, start: nat, stop: nat, left: nat, end: nat) {
    && left <= start <= stop <= end <= |j.text|
    && (forall k :: left <= k < start ==> !Delimiter(j.text[k]))
    && (forall k :: stop <= k < end ==> !Delimiter(j.text[k]))
    && (forall b :: b in j.lineEnds ==> !(left < b <= start) && !(stop <= b < end))
    && (left == 0 || Delimiter(j.text[left - 1]) || left in j.lineEnds)
    && (end == |j.text| || Delimiter(j.text[end]) || end in j.lineEnds)
  }

  datatype Span = Span(left: nat, end: nat)

  function Statement(j: Joined, start: nat, stop: nat): (s: Span)
    requires start <= stop <= |j.text|
    ensures IsStatement(j, start, stop, s.left, s.end)
  {
    Span(TightenLeft(j.lineEnds, start, LeftEdge(j.text, start)),
         TightenRight(j.lineEnds, stop, RightEdge(j.text, stop)))
  }

  /** Nothing else is the statement around a quote. */
  lemma StatementIsUnique(j: Joined, start: nat, stop: nat, left: nat, end: nat)
    requires start <= stop <= |j.text| && IsStatement(j, start, stop, left, end)
    ensures Statement(j, start, stop) == Span(left, end)
  {
    var s := Statement(j, start, stop);
    NotFurtherLeft(j, start, stop, s.left, s.end, left, end);
    NotFurtherLeft(j, start, stop, left, end, s.left, s.end);
  }

  /** No statement starts inside another, and none ends inside another. */
  lemma NotFurtherLeft(j: Joined, start: nat, stop: nat, left: nat, end: nat, l: nat, e: nat)
    requires IsStatement(j, start, stop, left, end) && IsStatement(j, start, stop, l, e)
    ensures l <= left && end <= e
  {
  }

  /** The text of the statement around the first occurrence of the quote. */
  function Context(source: string, quote: string, g: Glyphs): string {
    ContextIn(Join(Lines(source), g), quote)
  }

  function ContextIn(j: Joined, quote: string): string {
    match IndexFrom(j.text, quote, 0)
    case None => ""
    case Some(start) =>
      var s := Statement(j, start, start + |quote|);
      j.text[s.left..s.end]
  }

  method JoinLines(lines: seq<string>, g: Glyphs) returns (text: string, lineEnds: seq<nat>)
    ensures Joined(text, lineEnds) == Join(lines, g)
  {
    text, lineEnds := "", [];
    for i := 0 to |lines|
      invariant Joined(text, lineEnds) == Join(lines[..i], g)
    {
      assert lines[..i + 1][..i] == lines[..i];
      text := text + Normalize(lines[i], g);
      lineEnds := lineEnds + [|text|];
    }
    assert lines[..|lines|] == lines;
  }

  method Tighten(lineEnds: seq<nat>, start: nat, stop: nat, left0: nat, end0: nat) returns (left: nat, end: nat)
    requires left0 <= start <= stop <= end0
    ensures left == TightenLeft(lineEnds, start, left0) && end == TightenRight(lineEnds, stop, end0)
  {
    left, end := left0, end0;
    for i := 0 to |lineEnds|
      invariant left == TightenLeft(lineEnds[..i], start, left0)
      invariant end == TightenRight(lineEnds[..i], stop, end0)
    {
      assert lineEnds[..i + 1][..i] == lineEnds[..i];
      if lineEnds[i] <= start && lineEnds[i] > left {
        left := lineEnds[i];
      }
      if lineEnds[i] >= stop && lineEnds[i] < end {
        end := lineEnds[i];
      }
    }
    assert lineEnds[..|lineEnds|] == lineEnds;
  }

  method OptionEvidenceContext(source: string, quote: string, g: Glyphs) returns (context: string)
    ensures context == Context(source, quote, g)
  {
    var text, lineEnds := JoinLines(Lines(source), g);
    context := ContextOf(text, lineEnds, quote);
  }

  method ContextOf(text: string, lineEnds: seq<nat>, quote: string) returns (context: string)
    ensures context == ContextIn(Joined(text, lineEnds), quote)
  {
    var found := IndexFrom(text, quote, 0);
    if found.None? {
      return "";
    }
    var start, stop := found.value, found.value + |quote|;
    var left, end := Tighten(lineEnds, start, stop, LeftEdge(text, start), RightEdge(text, stop));
    context := text[left..end];
  }

  // ------------------------------------------------------------- the evidence

  const DOUBT_MARKERS: seq<string> := [
    "如果", "若", "可能", "待定", "暂定", "待核", "待确", "未确定", "未确认", "不确定", "需确认", "需核对",
    "需要确认", "需要核对", "不在目录", "未在目录", "目录外", "未列入", "未收录", "不属于", "并非", "不是",
    "不算", "不按", "不认定", "不得认定", "未认定", "不适用"]

  predicate HoldsAny(context: string, words: seq<string>) {
    exists i :: 0 <= i < |words| && Contains(context, words[i])
  }

  predicate Doubtful(context: string) {
    HoldsAny(context, DOUBT_MARKERS)
  }

  /** Looks for the markers one by one. */
  method UncertainCategoryEvidence(context: string) returns (uncertain: bool)
    ensures uncertain == Doubtful(context)
  {
    for i := 0 to |DOUBT_MARKERS|
      invariant forall k :: 0 <= k < i ==> !Contains(context, DOUBT_MARKERS[k])
    {
      if Contains(context, DOUBT_MARKERS[i]) {
        return true;
      }
    }
    return false;
  }

  /** The candidate refers to that page. */
  predicate Cites(c: Candidate, o: Observation, trim: Trim) {
    exists i :: 0 <= i < |c.assets| && trim(c.assets[i].assetId) == o.assetId && c.assets[i].page == o.page
  }

  /** The text that is quoted: the note of the item, or the raw text of the last
      cited page with the coordinates given. */
  function QuotedSource(c: Candidate, e: OptionEvidence, note: string, chunk: Group, trim: Trim): string {
    if chunk == [] then (if e.source == "scheme_note" then note else "")
    else
      var o := chunk[|chunk| - 1];
      if Cites(c, o, trim) && e.source == "material" && e.assetId == o.assetId && e.page == o.page then o.rawText
      else QuotedSource(c, e, note, chunk[..|chunk| - 1], trim)
  }

  // ----------------------------------------------------- what identifies an event

  const GENERIC_WORDS: seq<string> := [
    "学校竞赛目录", "竞赛目录", "学科竞赛", "专业竞赛", "全国总决赛", "国家级", "总决赛", "一等奖", "二等奖", "三等奖",
    "特等奖", "全国", "省级", "校级", "院级", "省赛", "校赛", "院赛", "决赛", "大学a组", "大学b组", "大学c组", "软件类",
    "c/c++程序设计", "竞赛", "比赛", "大赛", "赛事", "活动", "材料", "证书", "获奖", "参赛", "参与", "一等", "二等", "三等",
    "特等", "金奖", "银奖", "铜奖"]

  const MARKS := "·:：-—/()（）"

  /** All occurrences of a word taken out, from the left. */
  function RemoveAll(s: string, word: string): (r: string)
    ensures |r| <= |s|
  {
    match IndexFrom(s, word, 0)
    case None => s
    case Some(i) => if word == "" then s else s[..i] + RemoveAll(s[i + |word|..], word)
  }

  /** All category codes from position i on taken out. */
  function RemoveTiers(s: string, i: nat): (r: string)
    requires i <= |s|
    ensures |r| <= |s| - i
    decreases |s| - i
  {
    if i == |s| then ""
    else if TierAt(s, i).Some? then RemoveTiers(s, DigitsEnd(s, i + 1) + 1)
    else [s[i]] + RemoveTiers(s, i + 1)
  }

  function RemoveWords(s: string, words: seq<string>): (r: string)
    ensures |r| <= |s|
  {
    if words == [] then s else RemoveAll(RemoveWords(s, words[..|words| - 1]), words[|words| - 1])
  }

  /** What is left of a name without category codes, generic words and marks. */
  function Anchor(activity: string): (a: string)
    ensures |a| <= |activity|
  {
    Text.Trim(RemoveWords(RemoveTiers(activity, 0), GENERIC_WORDS), c => c in MARKS)
  }

  /** A name identifies an event when it is neither the item nor a category and two
      characters of it are not generic. */
  predicate Specific(activity: string, item: Item, tiers: set<string>, g: Glyphs) {
    activity != Normalize(item.name, g) && activity !in tiers && |Anchor(activity)| >= 2
  }

  method SpecificActivity(activity: string, item: Item, tiers: set<string>, g: Glyphs) returns (specific: bool)
    ensures specific == Specific(activity, item, tiers, g)
  {
    if activity == Normalize(item.name, g) || activity in tiers {
      return false;
    }
    var anchor := RemoveTiers(activity, 0);
    for i := 0 to |GENERIC_WORDS|
      invariant anchor == RemoveWords(RemoveTiers(activity, 0), GENERIC_WORDS[..i])
    {
      assert GENERIC_WORDS[..i + 1][..i] == GENERIC_WORDS[..i];
      anchor := RemoveAll(anchor, GENERIC_WORDS[i]);
    }
    assert GENERIC_WORDS[..|GENERIC_WORDS|] == GENERIC_WORDS;
    return |Text.Trim(anchor, c => c in MARKS)| >= 2;
  }

  // ------------------------------------------------------------------ the gate

  predicate ActivityObserved(c: Candidate, activity: string, chunk: Group, g: Glyphs, trim: Trim) {
    exists i :: 0 <= i < |chunk| && Cites(c, chunk[i], trim) && Contains(Normalize(chunk[i].rawText, g), activity)
  }

  /** Every category the statement names is this one, or the parent directory A
      where A itself is no tier. */
  predicate NamesOnly(context: string, tier: string, tiers: set<string>) {
    forall i :: 0 <= i < |context| && TierAt(context, i).Some? ==>
      TierAt(context, i).value == tier || (TierAt(context, i).value == "a" && tier != "a" && "a" !in tiers)
  }

  predicate QuoteNames(quote: string, tier: string, tiers: set<string>) {
    && (forall i :: 0 <= i < |quote| && TierAt(quote, i).Some? && TierAt(quote, i).value in tiers ==>
          TierAt(quote, i).value == tier)
    && exists i :: 0 <= i < |quote| && TierAt(quote, i) == Some(tier) && tier in tiers
  }

  /** The statement is there, holds none of the words and names no other category. */
  predicate Accepts(context: string, words: seq<string>, tier: string, tiers: set<string>) {
    context != "" && !HoldsAny(context, words) && NamesOnly(context, tier, tiers)
  }

  predicate ValidEvidence(c: Candidate, item: Item, chunk: Group, tier: string, tiers: set<string>,
                          g: Glyphs, trim: Trim)
  {
    match c.optionEvidence
    case None => false
    case Some(e) =>
      var activity, quote := Normalize(e.activity, g), Normalize(e.quote, g);
      && Specific(activity, item, tiers, g) && quote != "" && Contains(quote, activity)
      && ActivityObserved(c, activity, chunk, g, trim)
      && Accepts(Context(QuotedSource(c, e, item.note, chunk, trim), quote, g), DOUBT_MARKERS, tier, tiers)
      && QuoteNames(quote, tier, tiers)
  }

  function Ungrounded(c: Candidate): Candidate {
    AddReason(c.(claim := Claim(c.claim.quantity, "", None), expectedScore := None, optionEvidence := None),
              SCHOOL_CATEGORY_REASON)
  }

  function Ground(c: Candidate, cfg: seq<Category>, chunk: Group, g: Glyphs, trim: Trim): Candidate {
    match FindItem(cfg, trim(c.categoryKey), trim(c.itemKey))
    case None => c
    case Some(item) =>
      var tiers, tier := Tiers(item.rule.options, g), SchoolCategory(c.claim.option, g);
      if item.rule.kind != Enum || tiers == {} then c
      else if trim(c.claim.option) == "" then AddReason(c, SCHOOL_CATEGORY_REASON)
      else if tier == "" || tier !in tiers then c
      else if ValidEvidence(c, item, chunk, tier, tiers, g, trim) then c
      else Ungrounded(c)
  }

  // ------------------------------------------------------------------- the loops

  lemma {:induction false} OneMorePage(c: Candidate, activity: string, chunk: Group, n: nat, g: Glyphs, trim: Trim)
    requires n < |chunk|
    ensures ActivityObserved(c, activity, chunk[..n + 1], g, trim) <==>
      ActivityObserved(c, activity, chunk[..n], g, trim)
      || (Cites(c, chunk[n], trim) && Contains(Normalize(chunk[n].rawText, g), activity))
  {
    assert forall i :: 0 <= i < n ==> chunk[..n + 1][i] == chunk[..n][i];
    assert chunk[..n + 1][n] == chunk[n];
  }

  /** The loop over the pages: the text that is quoted, and whether the event was
      seen on a cited page. */
  method ScanPages(c: Candidate, e: OptionEvidence, activity: string, note: string, chunk: Group, g: Glyphs, trim: Trim)
    returns (source: string, observed: bool)
    ensures source == QuotedSource(c, e, note, chunk, trim) && observed == ActivityObserved(c, activity, chunk, g, trim)
  {
    source, observed := if e.source == "scheme_note" then note else "", false;
    for n := 0 to |chunk|
      invariant source == QuotedSource(c, e, note, chunk[..n], trim)
      invariant observed == ActivityObserved(c, activity, chunk[..n], g, trim)
    {
      assert chunk[..n + 1][..n] == chunk[..n];
      var o := chunk[n];
      OneMorePage(c, activity, chunk, n, g, trim);
      if Cites(c, o, trim) {
        if Contains(Normalize(o.rawText, g), activity) {
          observed := true;
        }
        if e.source == "material" && e.assetId == o.assetId && e.page == o.page {
          source := o.rawText;
        }
      }
    }
    assert chunk[..|chunk|] == chunk;
  }

  method OnlyTier(context: string, tier: string, tiers: set<string>) returns (only: bool)
    ensures only == NamesOnly(context, tier, tiers)
  {
    for i := 0 to |context|
      invariant forall k :: 0 <= k < i && TierAt(context, k).Some? ==>
        TierAt(context, k).value == tier || (TierAt(context, k).value == "a" && tier != "a" && "a" !in tiers)
    {
      var named := TierAt(context, i);
      if named.Some? && !(named.value == "a" && tier != "a" && "a" !in tiers) && named.value != tier {
        return false;
      }
    }
    return true;
  }

  method SeesTier(quote: string, tier: string, tiers: set<string>) returns (seen: bool)
    ensures seen == QuoteNames(quote, tier, tiers)
  {
    seen := false;
    for i := 0 to |quote|
      invariant forall k :: 0 <= k < i && TierAt(quote, k).Some? && TierAt(quote, k).value in tiers ==>
        TierAt(quote, k).value == tier
      invariant seen <==> exists k :: 0 <= k < i && TierAt(quote, k) == Some(tier) && tier in tiers
    {
      var found := TierAt(quote, i);
      if found.Some? && found.value in tiers {
        if found.value != tier {
          return false;
        }
        seen := true;
      }
    }
  }

  method ValidOptionEvidence(c: Candidate, item: Item, chunk: Group, tier: string, tiers: set<string>, g: Glyphs,
                             trim: Trim)
    returns (valid: bool)
    ensures valid == ValidEvidence(c, item, chunk, tier, tiers, g, trim)
  {
    if c.optionEvidence.None? {
      return false;
    }
    var e := c.optionEvidence.value;
    var activity, quote := Normalize(e.activity, g), Normalize(e.quote, g);
    var specific := SpecificActivity(activity, item, tiers, g);
    if !specific || quote == "" || !Contains(quote, activity) {
      return false;
    }
    var source, observed := ScanPages(c, e, activity, item.note, chunk, g, trim);
    if !observed {
      return false;
    }
    var context := OptionEvidenceContext(source, quote, g);
    if context == "" {
      return false;
    }
    var uncertain := UncertainCategoryEvidence(context);
    if uncertain {
      return false;
    }
    var only := OnlyTier(context, tier, tiers);
    if !only {
      return false;
    }
    valid := SeesTier(quote, tier, tiers);
  }

  method GroundSchoolCategory(c: Candidate, cfg: seq<Category>, chunk: Group, g: Glyphs, trim: Trim)
    returns (d: Candidate)
    ensures d == Ground(c, cfg, chunk, g, trim)
  {
    var found := FindItem(cfg, trim(c.categoryKey), trim(c.itemKey));
    if found.None? || found.value.rule.kind != Enum {
      return c;
    }
    var options := found.value.rule.options;
    var tiers: set<string> := {};
    for i := 0 to |options|
      invariant tiers == Tiers(options[..i], g)
    {
      var tier := SchoolCategory(options[i].caption, g);
      assert options[..i + 1] == options[..i] + [options[i]];
      if tier != "" {
        tiers := tiers + {tier};
      }
    }
    assert options[..|options|] == options;
    var tier := SchoolCategory(c.claim.option, g);
    if tiers == {} {
      return c;
    }
    if trim(c.claim.option) == "" {
      return AddReason(c, SCHOOL_CATEGORY_REASON);
    }
    if tier == "" || tier !in tiers {
      return c;
    }
    var valid := ValidOptionEvidence(c, found.value, chunk, tier, tiers, g, trim);
    d := if valid then c else Ungrounded(c);
  }

  // ------------------------------------------------------- what counts as evidence

  /** The page that is quoted: cited by the candidate, with the coordinates given. */
  predicate Quotable(c: Candidate, e: OptionEvidence, o: Observation, trim: Trim) {
    Cites(c, o, trim) && e.assetId == o.assetId && e.page == o.page
  }

  /** When a page was read twice, the later reading counts. */
  predicate LastReading(c: Candidate, e: OptionEvidence, chunk: Group, k: nat, trim: Trim) {
    k < |chunk| && Quotable(c, e, chunk[k], trim) && forall m :: k < m < |chunk| ==> !Quotable(c, e, chunk[m], trim)
  }

  /** A quotation is from the note of the item, or from the raw text of a cited page. */
  ghost predicate QuotedFrom(source: string, c: Candidate, e: OptionEvidence, note: string, chunk: Group, trim: Trim) {
    || (e.source == "scheme_note" && source == note)
    || (e.source == "material" && exists k: nat :: LastReading(c, e, chunk, k, trim) && source == chunk[k].rawText)
  }

  ghost predicate OccursWithin(text: string, left: nat, end: nat, word: string) {
    exists k: nat :: left <= k && k + |word| <= end && OccursAt(text, word, k)
  }

  ghost predicate HoldsAnyWithin(text: string, left: nat, end: nat, words: seq<string>) {
    exists i :: 0 <= i < |words| && OccursWithin(text, left, end, words[i])
  }

  ghost predicate Names(text: string, part: string) {
    exists at: nat :: OccursAt(text, part, at)
  }

  ghost predicate SeenOnCitedPage(c: Candidate, activity: string, chunk: Group, g: Glyphs, trim: Trim) {
    exists k :: 0 <= k < |chunk| && Cites(c, chunk[k], trim) && Names(Normalize(chunk[k].rawText, g), activity)
  }

  ghost predicate FirstAt(text: string, quote: string, start: nat) {
    OccursAt(text, quote, start) && forall k: nat :: k < start ==> !OccursAt(text, quote, k)
  }

  /** text[left..end] is the statement around the first occurrence of the quote; it
      holds none of the words and no category but this one, or the parent directory A
      where A itself is no tier. */
  ghost predicate Supports(j: Joined, quote: string, start: nat, left: nat, end: nat,
                           words: seq<string>, tier: string, tiers: set<string>)
  {
    && FirstAt(j.text, quote, start)
    && IsStatement(j, start, start + |quote|, left, end)
    && !HoldsAnyWithin(j.text, left, end, words)
    && NamesOnly(j.text[left..end], tier, tiers)
  }

  /** Some statement of what is quoted supports the category. */
  ghost predicate Backed(c: Candidate, e: OptionEvidence, note: string, chunk: Group, quote: string,
                         words: seq<string>, tier: string, tiers: set<string>, g: Glyphs, trim: Trim)
  {
    exists source, start, left, end :: QuotedFrom(source, c, e, note, chunk, trim)
      && Supports(Join(Lines(source), g), quote, start, left, end, words, tier, tiers)
  }

  /** What a student can be shown for a category: an event that is seen on a cited
      page, and a quotation that names the event and this category alone, inside a
      statement of its source that supports it. */
  ghost predicate Evidenced(c: Candidate, item: Item, chunk: Group, tier: string, tiers: set<string>, g: Glyphs,
                            trim: Trim) {
    && c.optionEvidence.Some?
    && var e := c.optionEvidence.value;
    var activity, quote := Normalize(e.activity, g), Normalize(e.quote, g);
    && Specific(activity, item, tiers, g)
    && SeenOnCitedPage(c, activity, chunk, g, trim) && Names(quote, activity)
    && QuoteNames(quote, tier, tiers)
    && Backed(c, e, item.note, chunk, quote, DOUBT_MARKERS, tier, tiers, g, trim)
  }

  lemma ContainsOccurs(s: string, part: string)
    ensures Contains(s, part) <==> Names(s, part)
  {
  }

  lemma {:induction false} LastReadingSource(c: Candidate, e: OptionEvidence, note: string, chunk: Group, trim: Trim,
                                             k: nat)
    requires e.source == "material" && LastReading(c, e, chunk, k, trim)
    ensures QuotedSource(c, e, note, chunk, trim) == chunk[k].rawText
    decreases |chunk|
  {
    if k < |chunk| - 1 {
      LastReadingSource(c, e, note, chunk[..|chunk| - 1], trim, k);
    }
  }

  lemma {:induction false} SomeReading(c: Candidate, e: OptionEvidence, note: string, chunk: Group, trim: Trim)
    returns (k: nat)
    requires e.source == "material" && QuotedSource(c, e, note, chunk, trim) != ""
    ensures LastReading(c, e, chunk, k, trim)
    decreases |chunk|
  {
    k := |chunk| - 1;
    if !Quotable(c, e, chunk[k], trim) {
      k := SomeReading(c, e, note, chunk[..k], trim);
    }
  }

  lemma {:induction false} NoteSource(c: Candidate, e: OptionEvidence, note: string, chunk: Group, trim: Trim)
    requires e.source != "material"
    ensures QuotedSource(c, e, note, chunk, trim) == if e.source == "scheme_note" then note else ""
    decreases |chunk|
  {
    if chunk != [] {
      NoteSource(c, e, note, chunk[..|chunk| - 1], trim);
    }
  }

  /** The loop over the pages finds the text that is quoted. */
  lemma {:induction false} QuotedFromSource(c: Candidate, e: OptionEvidence, note: string, chunk: Group, trim: Trim,
    source: string)
    requires source != ""
    ensures QuotedFrom(source, c, e, note, chunk, trim) <==> source == QuotedSource(c, e, note, chunk, trim)
  {
    if e.source != "material" {
      NoteSource(c, e, note, chunk, trim);
    } else {
      if source == QuotedSource(c, e, note, chunk, trim) {
        var k := SomeReading(c, e, note, chunk, trim);
        LastReadingSource(c, e, note, chunk, trim, k);
      }
      if QuotedFrom(source, c, e, note, chunk, trim) {
        var k: nat :| LastReading(c, e, chunk, k, trim) && source == chunk[k].rawText;
        LastReadingSource(c, e, note, chunk, trim, k);
      }
    }
  }

  lemma OccursShifted(s: string, left: nat, end: nat, part: string, k: nat)
    requires left <= end <= |s| && left + k + |part| <= end
    ensures OccursAt(s[left..end], part, k) <==> OccursAt(s, part, left + k)
  {
    var stretch := s[left..end];
    var here, there := stretch[k..k + |part|], s[left + k..left + k + |part|];
    forall m | 0 <= m < |part|
      ensures here[m] == there[m]
    {
    }
    assert here == there;
  }

  lemma OccursInStretch(s: string, left: nat, end: nat, word: string)
    requires left <= end <= |s|
    ensures Contains(s[left..end], word) <==> OccursWithin(s, left, end, word)
  {
    ContainsOccurs(s[left..end], word);
    if Contains(s[left..end], word) {
      var k: nat :| OccursAt(s[left..end], word, k);
      OccursShifted(s, left, end, word, k);
      assert OccursAt(s, word, left + k);
    }
    if OccursWithin(s, left, end, word) {
      var k: nat :| left <= k && k + |word| <= end && OccursAt(s, word, k);
      OccursShifted(s, left, end, word, k - left);
    }
  }

  lemma HoldsAnyInStretch(s: string, left: nat, end: nat, words: seq<string>)
    requires left <= end <= |s|
    ensures HoldsAny(s[left..end], words) <==> HoldsAnyWithin(s, left, end, words)
  {
    forall i | 0 <= i < |words|
      ensures Contains(s[left..end], words[i]) <==> OccursWithin(s, left, end, words[i])
    {
      OccursInStretch(s, left, end, words[i]);
    }
  }

  lemma {:induction false} FirstIsIndex(text: string, quote: string, start: nat)
    ensures FirstAt(text, quote, start) <==> IndexFrom(text, quote, 0) == Some(start)
  {
    var found := IndexFrom(text, quote, 0);
    if FirstAt(text, quote, start) {
      assert found.Some? && start <= found.value <= start;
    }
  }

  /** A statement supports a category exactly when the gate accepts its text. */
  lemma SupportedStatement(j: Joined, quote: string, start: nat, left: nat, end: nat,
                           words: seq<string>, tier: string, tiers: set<string>)
    requires FirstAt(j.text, quote, start) && IsStatement(j, start, start + |quote|, left, end)
    ensures ContextIn(j, quote) == j.text[left..end]
    ensures Supports(j, quote, start, left, end, words, tier, tiers) <==>
      !HoldsAny(j.text[left..end], words) && NamesOnly(j.text[left..end], tier, tiers)
  {
    FirstIsIndex(j.text, quote, start);
    StatementIsUnique(j, start, start + |quote|, left, end);
    HoldsAnyInStretch(j.text, left, end, words);
  }

  /** The gate accepts the text it finds exactly when some statement supports the
      category. */
  lemma SupportedContext(j: Joined, quote: string, words: seq<string>, tier: string, tiers: set<string>)
    requires quote != ""
    ensures (exists start, left, end :: Supports(j, quote, start, left, end, words, tier, tiers)) <==>
      Accepts(ContextIn(j, quote), words, tier, tiers)
  {
    if start, left, end :| Supports(j, quote, start, left, end, words, tier, tiers) {
      SupportedStatement(j, quote, start, left, end, words, tier, tiers);
    } else if ContextIn(j, quote) != "" {
      var start := IndexFrom(j.text, quote, 0).value;
      FirstIsIndex(j.text, quote, start);
      var s := Statement(j, start, start + |quote|);
      SupportedStatement(j, quote, start, s.left, s.end, words, tier, tiers);
    }
  }

  lemma {:induction false} EmptySource(quote: string, g: Glyphs)
    requires quote != ""
    ensures Join(Lines(""), g).text == ""
    ensures forall start :: !FirstAt(Join(Lines(""), g).text, quote, start)
    ensures Context("", quote, g) == ""
  {
    assert [""][..0] == [];
    assert Lines("") == [""] && Join([""], g).text == "";
  }

  lemma {:induction false} AcceptedIsBacked(c: Candidate, e: OptionEvidence, note: string, chunk: Group, quote: string,
                         words: seq<string>, tier: string, tiers: set<string>, g: Glyphs, trim: Trim)
    requires quote != "" && Accepts(Context(QuotedSource(c, e, note, chunk, trim), quote, g), words, tier, tiers)
    ensures Backed(c, e, note, chunk, quote, words, tier, tiers, g, trim)
  {
    var source := QuotedSource(c, e, note, chunk, trim);
    if source == "" {
      EmptySource(quote, g);
    }
    QuotedFromSource(c, e, note, chunk, trim, source);
    SupportedContext(Join(Lines(source), g), quote, words, tier, tiers);
    var start, left, end :| Supports(Join(Lines(source), g), quote, start, left, end, words, tier, tiers);
  }

  lemma {:induction false} BackedIsAccepted(c: Candidate, e: OptionEvidence, note: string, chunk: Group, quote: string,
                         words: seq<string>, tier: string, tiers: set<string>, g: Glyphs, trim: Trim)
    requires quote != "" && Backed(c, e, note, chunk, quote, words, tier, tiers, g, trim)
    ensures Accepts(Context(QuotedSource(c, e, note, chunk, trim), quote, g), words, tier, tiers)
  {
    var source, start, left, end :| QuotedFrom(source, c, e, note, chunk, trim)
      && Supports(Join(Lines(source), g), quote, start, left, end, words, tier, tiers);
    if source == "" {
      EmptySource(quote, g);
    }
    QuotedFromSource(c, e, note, chunk, trim, source);
    SupportedContext(Join(Lines(source), g), quote, words, tier, tiers);
  }

  /** The gate accepts the context it finds exactly when what is quoted backs the
      category. */
  lemma {:induction false} BackedExactly(c: Candidate, e: OptionEvidence, note: string, chunk: Group, quote: string,
                      words: seq<string>, tier: string, tiers: set<string>, g: Glyphs, trim: Trim)
    requires quote != ""
    ensures Backed(c, e, note, chunk, quote, words, tier, tiers, g, trim) <==>
      Accepts(Context(QuotedSource(c, e, note, chunk, trim), quote, g), words, tier, tiers)
  {
    if Backed(c, e, note, chunk, quote, words, tier, tiers, g, trim) {
      BackedIsAccepted(c, e, note, chunk, quote, words, tier, tiers, g, trim);
    } else if Accepts(Context(QuotedSource(c, e, note, chunk, trim), quote, g), words, tier, tiers) {
      AcceptedIsBacked(c, e, note, chunk, quote, words, tier, tiers, g, trim);
    }
  }

  lemma SeenOnPage(c: Candidate, activity: string, chunk: Group, g: Glyphs, trim: Trim)
    ensures ActivityObserved(c, activity, chunk, g, trim) <==> SeenOnCitedPage(c, activity, chunk, g, trim)
  {
    forall k | 0 <= k < |chunk|
      ensures Contains(Normalize(chunk[k].rawText, g), activity) <==> Names(Normalize(chunk[k].rawText, g), activity)
    {
      ContainsOccurs(Normalize(chunk[k].rawText, g), activity);
    }
  }

  /** The gate lets a category pass exactly when it is evidenced. */
  lemma ValidIsEvidenced(c: Candidate, item: Item, chunk: Group, tier: string, tiers: set<string>, g: Glyphs,
                         trim: Trim)
    requires tier in tiers
    ensures ValidEvidence(c, item, chunk, tier, tiers, g, trim) <==> Evidenced(c, item, chunk, tier, tiers, g, trim)
  {
    if c.optionEvidence.Some? {
      var e := c.optionEvidence.value;
      var activity, quote := Normalize(e.activity, g), Normalize(e.quote, g);
      SeenOnPage(c, activity, chunk, g, trim);
      ContainsOccurs(quote, activity);
      if quote != "" {
        BackedExactly(c, e, item.note, chunk, quote, DOUBT_MARKERS, tier, tiers, g, trim);
      }
    }
  }

  // --------------------------------------------------------------- the guarantee

  /** An accepted option is the one that went into verification. */
  lemma {:induction false} VerifiedOption(c: Candidate, cfg: seq<Category>, allowed: set<string>, trim: Trim,
                                          item: Item)
    requires Idempotent(trim) && FindItem(cfg, trim(c.categoryKey), trim(c.itemKey)) == Some(item)
    requires item.rule.kind == Enum
    ensures var v := Verify(c, cfg, allowed, true, trim);
      && v.categoryKey == trim(c.categoryKey) && v.itemKey == trim(c.itemKey)
      && v.optionEvidence == c.optionEvidence
      && (v.claim.option == c.claim.option || v.claim.option == "")
  {
    var t := TidyReasons(Tidy(c, allowed, trim), DropsAsset(c.assets, allowed, trim));
    TidyReasonsContent(Tidy(c, allowed, trim), DropsAsset(c.assets, allowed, trim));
    ClassifiedFacts(t, item, KnownIn(cfg), true);
    OptionKept(t.(alternatives := KeepAlternatives(t.alternatives, KnownIn(cfg)), expectedScore := None), item.rule);
    var kept := KeepAlternatives(t.alternatives, KnownIn(cfg));
    var d := AddReasonIf(t, |kept| < |t.alternatives|, UNKNOWN_ALTERNATIVE).(
      alternatives := kept, expectedScore := None);
    OptionKept(d, item.rule);
  }

  lemma OptionKept(d: Candidate, rule: ScoreRule)
    requires rule.kind == Enum
    ensures var v := ScoreCandidate(d, rule, true);
      v.claim.option == d.claim.option || v.claim.option == ""
  {
  }

  lemma EmptyOptionNamesNothing(g: Glyphs)
    ensures SchoolCategory("", g) == ""
  {
  }

  lemma NoEmptyTier(options: seq<EnumOption>, g: Glyphs)
    ensures "" !in Tiers(options, g)
  {
  }

  lemma {:induction false} VerifiedKeys(c: Candidate, cfg: seq<Category>, allowed: set<string>, trim: Trim, item: Item)
    requires FindItem(cfg, trim(c.categoryKey), trim(c.itemKey)) == Some(item)
    ensures var v := Verify(c, cfg, allowed, true, trim);
      v.categoryKey == trim(c.categoryKey) && v.itemKey == trim(c.itemKey)
  {
    var t := TidyReasons(Tidy(c, allowed, trim), DropsAsset(c.assets, allowed, trim));
    TidyReasonsContent(Tidy(c, allowed, trim), DropsAsset(c.assets, allowed, trim));
    ClassifiedFacts(t, item, KnownIn(cfg), true);
  }

  /** Trimming that leaves nothing of a text means the text names nothing. */
  ghost predicate BlankNamesNothing(trim: Trim, g: Glyphs) {
    forall s: string {:trigger trim(s)} :: trim(s) == "" ==> SchoolCategory(s, g) == ""
  }

  /** Trimming white space is such a trimming. */
  lemma TrimOfBlankNamesNothing(g: Glyphs)
    ensures Idempotent(TrimOf(g.space)) && BlankNamesNothing(TrimOf(g.space), g)
  {
    TrimOfIsIdempotent(g.space);
    forall s: string | TrimOf(g.space)(s) == ""
      ensures SchoolCategory(s, g) == ""
    {
      BlankNormalizesAway(s, g);
    }
  }

  /** Grounding leaves a candidate that names a category of the item alone exactly
      when the category is evidenced; otherwise it takes option, claimed score,
      expected score and evidence away and asks for a review. */
  lemma {:induction false} GroundedTier(c: Candidate, cfg: seq<Category>, chunk: Group, g: Glyphs, trim: Trim,
    item: Item)
    requires BlankNamesNothing(trim, g)
    requires FindItem(cfg, trim(c.categoryKey), trim(c.itemKey)) == Some(item) && item.rule.kind == Enum
    requires SchoolCategory(c.claim.option, g) in Tiers(item.rule.options, g)
    ensures var d, tiers := Ground(c, cfg, chunk, g, trim), Tiers(item.rule.options, g);
      && (d == c <==> Evidenced(c, item, chunk, SchoolCategory(c.claim.option, g), tiers, g, trim))
      && (d != c ==>
            && d.claim == Claim(c.claim.quantity, "", None) && d.expectedScore == None && d.optionEvidence == None
            && SCHOOL_CATEGORY_REASON in d.reviewReasons && d.needsReview)
  {
    EmptyOptionNamesNothing(g);
    NoEmptyTier(item.rule.options, g);
    ValidIsEvidenced(c, item, chunk, SchoolCategory(c.claim.option, g), Tiers(item.rule.options, g), g, trim);
  }

  /** A category that is named after grounding was named before. */
  lemma {:induction false} GroundAddsNoTier(c: Candidate, cfg: seq<Category>, chunk: Group, g: Glyphs, trim: Trim,
    item: Item)
    requires BlankNamesNothing(trim, g)
    requires FindItem(cfg, trim(c.categoryKey), trim(c.itemKey)) == Some(item)
    requires SchoolCategory(Ground(c, cfg, chunk, g, trim).claim.option, g) in Tiers(item.rule.options, g)
    ensures Ground(c, cfg, chunk, g, trim).claim.option == c.claim.option
  {
    EmptyOptionNamesNothing(g);
    NoEmptyTier(item.rule.options, g);
  }

  lemma GroundKeepsKeys(c: Candidate, cfg: seq<Category>, chunk: Group, g: Glyphs, trim: Trim)
    ensures var d := Ground(c, cfg, chunk, g, trim);
      d.categoryKey == c.categoryKey && d.itemKey == c.itemKey
  {
  }

  lemma {:induction false} VerifiedIsFound(c: Candidate, cfg: seq<Category>, allowed: set<string>, trim: Trim)
    requires ValidScheme(cfg)
    ensures var v := Verify(c, cfg, allowed, true, trim);
      FindItem(cfg, v.categoryKey, v.itemKey).Some? ==>
        FindItem(cfg, v.categoryKey, v.itemKey) == FindItem(cfg, trim(c.categoryKey), trim(c.itemKey))
  {
    var found := FindItem(cfg, trim(c.categoryKey), trim(c.itemKey));
    if found.Some? {
      VerifiedKeys(c, cfg, allowed, trim, found.value);
    }
  }

  /** A tier that is still chosen after verification was chosen before. */
  lemma {:induction false} VerifiedTier(d: Candidate, cfg: seq<Category>, allowed: set<string>, g: Glyphs,
                                        item: Item, trim: Trim)
    requires ValidScheme(cfg) && Idempotent(trim)
    requires var v := Verify(d, cfg, allowed, true, trim);
      && FindItem(cfg, v.categoryKey, v.itemKey) == Some(item) && item.rule.kind == Enum
      && SchoolCategory(v.claim.option, g) in Tiers(item.rule.options, g)
    ensures var v := Verify(d, cfg, allowed, true, trim);
      && v.claim.option == d.claim.option && v.optionEvidence == d.optionEvidence
      && FindItem(cfg, trim(d.categoryKey), trim(d.itemKey)) == Some(item)
  {
    VerifiedIsFound(d, cfg, allowed, trim);
    VerifiedOption(d, cfg, allowed, trim, item);
    EmptyOptionNamesNothing(g);
    NoEmptyTier(item.rule.options, g);
  }

  /** A school category survives grounding and verification only with evidence:
      an event that is seen on a cited page, and a quotation from the scheme note or a
      cited page that names the event and this category, in a statement without any
      marker of doubt and without any other category. */
  lemma {:induction false} SchoolOptionHasEvidence(c: Candidate, cfg: seq<Category>, chunk: Group, allowed: set<string>,
                                g: Glyphs, trim: Trim, item: Item)
    requires ValidScheme(cfg) && Idempotent(trim) && BlankNamesNothing(trim, g)
    requires var v := Verify(Ground(c, cfg, chunk, g, trim), cfg, allowed, true, trim);
      && FindItem(cfg, v.categoryKey, v.itemKey) == Some(item) && item.rule.kind == Enum
      && SchoolCategory(v.claim.option, g) in Tiers(item.rule.options, g)
    ensures var v := Verify(Ground(c, cfg, chunk, g, trim), cfg, allowed, true, trim);
      && v.claim.option == c.claim.option && v.optionEvidence == c.optionEvidence
      && Evidenced(c, item, chunk, SchoolCategory(v.claim.option, g), Tiers(item.rule.options, g), g, trim)
  {
    var d := Ground(c, cfg, chunk, g, trim);
    GroundKeepsKeys(c, cfg, chunk, g, trim);
    VerifiedTier(d, cfg, allowed, g, item, trim);
    GroundAddsNoTier(c, cfg, chunk, g, trim, item);
    GroundedTier(c, cfg, chunk, g, trim, item);
    EmptyOptionNamesNothing(g);
    NoEmptyTier(item.rule.options, g);
  }
}
