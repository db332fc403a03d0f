/** What the words of the evidence gate mean, told from the texts themselves: width and
    blanks of letters, where a category is named, what identifies an event, and what
    becomes of a candidate (backend/internal/aiassist/aiassist.go). */
module EvidenceLaws {
  import opened CandidateGate
  import opened CategoryEvidence
  import opened Chunking
  import opened Options
  import opened Scheme
  import Text

  // -------------------------------------------------------------------- normalising

  /** The wide form of a printable character. */
  function Wide(c: char): char {
    if '!' <= c <= '~' then ('！' as int + (c as int - '!' as int)) as char else c
  }

  function AllWide(text: string): (r: string)
    ensures |r| == |text|
  {
    seq(|text|, (i: nat) requires i < |text| => Wide(text[i]))
  }

  lemma {:induction false} NormalizeParts(a: string, b: string, g: Glyphs)
    ensures Normalize(a + b, g) == Normalize(a, g) + Normalize(b, g)
  {
    if a == [] {
      assert a + b == b;
    } else {
      assert (a + b)[1..] == a[1..] + b;
      NormalizeParts(a[1..], b, g);
    }
  }

  lemma OneCharacter(c: char, g: Glyphs)
    ensures Normalize([c], g) == if g.space(c) then [] else [Fold(c, g)]
    ensures Fold(Wide(c), g) == Fold(c, g)
    ensures c < '！' || c > '～' ==> Fold(c, g) == g.lower(c)
  {
    assert [c][1..] == [];
  }

  /** It makes no difference whether characters are written wide, nor what blanks stand
      anywhere. */
  lemma {:induction false} WidthDoesNotMatter(text: string, g: Glyphs)
    requires forall c: char :: '!' <= c <= '~' ==> !g.space(c) && !g.space(Wide(c))
    ensures Normalize(AllWide(text), g) == Normalize(text, g)
  {
    if text != [] {
      assert AllWide(text) == [Wide(text[0])] + AllWide(text[1..]);
      OneCharacter(text[0], g);
      OneCharacter(Wide(text[0]), g);
      NormalizeParts([Wide(text[0])], AllWide(text[1..]), g);
      WidthDoesNotMatter(text[1..], g);
    }
  }

  lemma {:induction false} BlanksDoNotMatter(a: string, blanks: string, b: string, g: Glyphs)
    requires forall i :: 0 <= i < |blanks| ==> g.space(blanks[i])
    ensures Normalize(a + blanks + b, g) == Normalize(a + b, g)
  {
    AllBlank(blanks, g);
    NormalizeParts(a + blanks, b, g);
    NormalizeParts(a, blanks, g);
    NormalizeParts(a, b, g);
  }

  lemma {:induction false} AllBlank(blanks: string, g: Glyphs)
    requires forall i :: 0 <= i < |blanks| ==> g.space(blanks[i])
    ensures Normalize(blanks, g) == []
  {
    if blanks != [] {
      AllBlank(blanks[1..], g);
    }
  }

  /** Containing means that it stands between something and something. */
  lemma OccursMeans(s: string, part: string, i: nat)
    ensures OccursAt(s, part, i) <==> i <= |s| && part <= s[i..]
  {
    if i + |part| <= |s| {
      assert s[i..][..|part|] == s[i..i + |part|];
    }
  }

  // --------------------------------------------------------------- naming a category

  /** An ASCII letter, a digit or the underscore. */
  predicate OfWord(c: char) {
    97 <= c as int <= 122 || 65 <= c as int <= 90 || 48 <= c as int <= 57 || c as int == 95
  }

  /** A letter and digits. */
  predicate IsCode(t: string) {
    t != [] && 'a' <= t[0] <= 'z' && forall k :: 1 <= k < |t| ==> '0' <= t[k] <= '9'
  }

  /** At i stands the code, behind no other letter, and the word for category after it. */
  predicate CodeAt(text: string, i: nat, t: string) {
    && IsCode(t) && i + |t| < |text| && text[i..i + |t|] == t && text[i + |t|] == '类'
    && (i == 0 || !OfWord(text[i - 1]))
  }

  lemma WordCharMeans(c: char)
    ensures WordChar(c) <==> OfWord(c)
  {
  }

  lemma {:induction false} DigitsEndMeans(text: string, i: nat, e: nat)
    requires i <= e <= |text| && (forall k :: i <= k < e ==> '0' <= text[k] <= '9')
    requires e == |text| || !('0' <= text[e] <= '9')
    ensures DigitsEnd(text, i) == e
    decreases e - i
  {
    if i < e {
      DigitsEndMeans(text, i + 1, e);
    }
  }

  lemma {:induction false} DigitsBefore(text: string, i: nat)
    requires i <= |text|
    ensures var e := DigitsEnd(text, i); forall k :: i <= k < e ==> '0' <= text[k] <= '9'
    decreases |text| - i
  {
    if i < |text| && '0' <= text[i] <= '9' {
      DigitsBefore(text, i + 1);
    }
  }

  lemma CodeIsFound(text: string, i: nat, t: string)
    requires CodeAt(text, i, t)
    ensures TierAt(text, i) == Some(t)
  {
    if i > 0 {
      WordCharMeans(text[i - 1]);
    }
    var e := i + |t|;
    forall k | i <= k < e
      ensures text[k] == t[k - i]
    {
      assert text[i..e][k - i] == text[k];
    }
    DigitsEndMeans(text, i + 1, e);
  }

  lemma FoundIsCode(text: string, i: nat)
    requires TierAt(text, i).Some?
    ensures CodeAt(text, i, TierAt(text, i).value)
  {
    if i > 0 {
      WordCharMeans(text[i - 1]);
    }
    DigitsBefore(text, i + 1);
    var e := DigitsEnd(text, i + 1);
    var t := text[i..e];
    assert forall k :: 0 <= k < |t| ==> t[k] == text[i + k];
  }

  /** A category is named at a position exactly when its code stands there. */
  lemma TierMeans(text: string, i: nat, t: string)
    ensures TierAt(text, i) == Some(t) <==> CodeAt(text, i, t)
  {
    if TierAt(text, i) == Some(t) {
      FoundIsCode(text, i);
    }
    if CodeAt(text, i, t) {
      CodeIsFound(text, i, t);
    }
  }

  ghost predicate Mentions(text: string, t: string) {
    exists i: nat :: CodeAt(text, i, t)
  }

  /** The first category that is mentioned from i on, or "" where there is none. */
  ghost predicate FirstFrom(text: string, i: nat, t: string) {
    if t == "" then forall j: nat, u: string :: i <= j ==> !CodeAt(text, j, u)
    else exists k: nat :: i <= k && CodeAt(text, k, t) && forall j: nat, u: string :: i <= j < k ==> !CodeAt(text, j, u)
  }

  lemma {:induction false} FirstTierFrom(text: string, i: nat)
    ensures FirstFrom(text, i, FirstTier(text, i))
    decreases |text| - i
  {
    if i < |text| {
      forall u: string
        ensures TierAt(text, i) == Some(u) <==> CodeAt(text, i, u)
      {
        TierMeans(text, i, u);
      }
      if TierAt(text, i).None? {
        FirstTierFrom(text, i + 1);
        LaterIsFirst(text, i, FirstTier(text, i + 1));
      } else {
        assert CodeAt(text, i, FirstTier(text, i));
      }
    }
  }

  lemma LaterIsFirst(text: string, i: nat, t: string)
    requires FirstFrom(text, i + 1, t) && forall u: string :: !CodeAt(text, i, u)
    ensures FirstFrom(text, i, t)
  {
    if t != "" {
      var k: nat :| i + 1 <= k && CodeAt(text, k, t) && forall j: nat, u: string :: i + 1 <= j < k ==> !CodeAt(text, j, u);
    }
  }

  lemma OnlyOneFirst(text: string, i: nat, t: string, u: string)
    requires FirstFrom(text, i, t) && FirstFrom(text, i, u)
    ensures t == u
  {
    if t != "" && u != "" {
      var k: nat :| i <= k && CodeAt(text, k, t) && forall j: nat, v: string :: i <= j < k ==> !CodeAt(text, j, v);
      var l: nat :| i <= l && CodeAt(text, l, u) && forall j: nat, v: string :: i <= j < l ==> !CodeAt(text, j, v);
      assert k == l;
      TierMeans(text, k, t);
      TierMeans(text, k, u);
    }
  }

  /** A caption names the category that it mentions first, or none. */
  lemma CaptionNames(caption: string, g: Glyphs, t: string)
    ensures SchoolCategory(caption, g) == t <==> FirstFrom(Normalize(caption, g), 0, t)
  {
    var text := Normalize(caption, g);
    FirstTierFrom(text, 0);
    if FirstFrom(text, 0, t) {
      OnlyOneFirst(text, 0, t, FirstTier(text, 0));
    }
  }

  /** A statement names nothing else: it mentions this category only, or the directory A
      beside it where A is no category itself. */
  lemma NamesOnlyMeans(context: string, tier: string, tiers: set<string>)
    ensures NamesOnly(context, tier, tiers) <==>
      forall t :: Mentions(context, t) ==> t == tier || (t == "a" && tier != "a" && "a" !in tiers)
  {
    MentionsMeans(context);
    if NamesOnly(context, tier, tiers) {
      forall t | Mentions(context, t)
        ensures t == tier || (t == "a" && tier != "a" && "a" !in tiers)
      {
        var i: nat :| i < |context| && TierAt(context, i) == Some(t);
      }
    }
    if forall t :: Mentions(context, t) ==> t == tier || (t == "a" && tier != "a" && "a" !in tiers) {
      forall i | 0 <= i < |context| && TierAt(context, i).Some?
        ensures TierAt(context, i).value == tier || (TierAt(context, i).value == "a" && tier != "a" && "a" !in tiers)
      {
        assert Mentions(context, TierAt(context, i).value);
      }
    }
  }

  lemma MentionsMeans(text: string)
    ensures forall t :: Mentions(text, t) <==> exists i: nat :: i < |text| && TierAt(text, i) == Some(t)
  {
    forall t
      ensures Mentions(text, t) <==> exists i: nat :: i < |text| && TierAt(text, i) == Some(t)
    {
      if i: nat :| CodeAt(text, i, t) {
        TierMeans(text, i, t);
        assert i < |text| && TierAt(text, i) == Some(t);
      }
      if i: nat :| i < |text| && TierAt(text, i) == Some(t) {
        TierMeans(text, i, t);
        assert CodeAt(text, i, t);
      }
    }
  }

  /** A quotation names this category: it mentions it, and none of the others. */
  lemma QuoteNamesMeans(quote: string, tier: string, tiers: set<string>)
    ensures QuoteNames(quote, tier, tiers) <==>
      Mentions(quote, tier) && tier in tiers && forall t :: Mentions(quote, t) && t in tiers ==> t == tier
  {
    MentionsMeans(quote);
    if QuoteNames(quote, tier, tiers) {
      forall t | Mentions(quote, t) && t in tiers
        ensures t == tier
      {
        var i: nat :| i < |quote| && TierAt(quote, i) == Some(t);
      }
    }
    if Mentions(quote, tier) && tier in tiers && forall t :: Mentions(quote, t) && t in tiers ==> t == tier {
      var i: nat :| i < |quote| && TierAt(quote, i) == Some(tier);
      forall k | 0 <= k < |quote| && TierAt(quote, k).Some? && TierAt(quote, k).value in tiers
        ensures TierAt(quote, k).value == tier
      {
        assert Mentions(quote, TierAt(quote, k).value);
      }
    }
  }

  /** The marks that end a sentence, and the pages a candidate cites. */
  lemma DelimitersAndPages(d: char, c: Candidate, o: Observation, trim: Trim)
    ensures Delimiter(d) <==> d in {'。', ';', '!', '?', '；', '！', '？'}
    ensures Cites(c, o, trim) <==> exists ref :: ref in c.assets && trim(ref.assetId) == o.assetId && ref.page == o.page
  {
    if ref :| ref in c.assets && trim(ref.assetId) == o.assetId && ref.page == o.page {
      var i :| 0 <= i < |c.assets| && c.assets[i] == ref;
      assert trim(c.assets[i].assetId) == o.assetId;
    }
  }

  // ------------------------------------------------------------- what is an event

  ghost predicate Unnamed(s: string) {
    forall i: nat, t: string :: !CodeAt(s, i, t)
  }

  lemma {:induction false} NothingToRemove(s: string, i: nat)
    requires i <= |s| && Unnamed(s)
    ensures RemoveTiers(s, i) == s[i..]
    decreases |s| - i
  {
    if i < |s| {
      if TierAt(s, i).Some? {
        FoundIsCode(s, i);
        assert false;
      }
      NothingToRemove(s, i + 1);
      assert s[i..] == [s[i]] + s[i + 1..];
    }
  }

  lemma TierAlone(s: string, k: nat, i: nat)
    requires 0 < k <= |s| && s[k - 1] == '类' && i < |s| - k
    ensures TierAt(s, k + i) == TierAt(s[k..], i)
    ensures DigitsEnd(s, k + i + 1) == k + DigitsEnd(s[k..], i + 1)
  {
    var rest := s[k..];
    DigitsAlone(s, k, i + 1);
    assert i > 0 ==> rest[i - 1] == s[k + i - 1];
    assert s[k + i..DigitsEnd(s, k + i + 1)] == rest[i..DigitsEnd(rest, i + 1)];
  }

  lemma KeepsOne(s: string, j: nat)
    requires j < |s| && TierAt(s, j).None?
    ensures RemoveTiers(s, j) == [s[j]] + RemoveTiers(s, j + 1)
  {
  }

  lemma SkipsOne(s: string, j: nat)
    requires TierAt(s, j).Some?
    ensures DigitsEnd(s, j + 1) < |s| && RemoveTiers(s, j) == RemoveTiers(s, DigitsEnd(s, j + 1) + 1)
  {
  }

  /** What is left of a text from i on, once codes are taken out, as that of another text
      from j on. */
  predicate SameRest(s: string, i: nat, rest: string, j: nat) {
    i <= |s| && j <= |rest| && RemoveTiers(s, i) == RemoveTiers(rest, j)
  }

  lemma KeepAlone(s: string, k: nat, i: nat)
    requires 0 < k <= |s| && s[k - 1] == '类' && i < |s| - k && TierAt(s[k..], i).None?
    requires SameRest(s, k + i + 1, s[k..], i + 1)
    ensures SameRest(s, k + i, s[k..], i)
  {
    TierAlone(s, k, i);
    KeepsOne(s, k + i);
    KeepsOne(s[k..], i);
  }

  lemma SkipAlone(s: string, k: nat, i: nat)
    requires 0 < k <= |s| && s[k - 1] == '类' && i < |s| - k && TierAt(s[k..], i).Some?
    requires var e := DigitsEnd(s[k..], i + 1); SameRest(s, k + e + 1, s[k..], e + 1)
    ensures SameRest(s, k + i, s[k..], i)
  {
    TierAlone(s, k, i);
    SkipsOne(s, k + i);
    SkipsOne(s[k..], i);
  }

  lemma CodeIsInside(s: string, i: nat)
    requires i <= |s| && TierAt(s, i).Some?
    ensures i + 1 <= |s| && i < DigitsEnd(s, i + 1) < |s|
  {
  }

  /** What follows a named category is read as if it stood alone. */
  lemma {:induction false} ReadAlone(s: string, k: nat, i: nat)
    requires 0 < k <= |s| && s[k - 1] == '类' && i <= |s| - k
    ensures SameRest(s, k + i, s[k..], i)
    decreases |s| - k - i
  {
    if i < |s| - k {
      if TierAt(s[k..], i).Some? {
        CodeIsInside(s[k..], i);
        ReadAlone(s, k, DigitsEnd(s[k..], i + 1) + 1);
        SkipAlone(s, k, i);
      } else {
        ReadAlone(s, k, i + 1);
        KeepAlone(s, k, i);
      }
    }
  }

  lemma {:induction false} DigitsAlone(s: string, k: nat, i: nat)
    requires k <= |s| && i <= |s| - k
    ensures DigitsEnd(s, k + i) == k + DigitsEnd(s[k..], i)
    decreases |s| - k - i
  {
    if i < |s| - k && '0' <= s[k + i] <= '9' {
      DigitsAlone(s, k, i + 1);
    }
  }

  /** Whatever takes a text character by character up to k keeps it up to there. */
  lemma {:induction false} KeptAlong(s: string, rest: nat -> string, k: nat)
    requires k <= |s| && forall m: nat :: m < k ==> rest(m) == [s[m]] + rest(m + 1)
    ensures rest(0) == s[..k] + rest(k)
  {
    if k > 0 {
      KeptAlong(s, rest, k - 1);
      assert s[..k] == s[..k - 1] + [s[k - 1]];
    }
  }

  lemma KeptUpTo(s: string, k: nat)
    requires k < |s| && forall j: nat :: j < k ==> TierAt(s, j).None?
    ensures RemoveTiers(s, 0) == s[..k] + RemoveTiers(s, k)
  {
    var rest: nat -> string := (m: nat) => if m <= |s| then RemoveTiers(s, m) else "";
    forall m: nat | m < k
      ensures rest(m) == [s[m]] + rest(m + 1)
    {
      KeepsOne(s, m);
    }
    KeptAlong(s, rest, k);
  }

  lemma NoneBefore(s: string, n: nat)
    requires forall i: nat, u: string :: i < n ==> !CodeAt(s, i, u)
    ensures forall j: nat :: j < n ==> TierAt(s, j).None?
  {
    forall j: nat | j < n
      ensures TierAt(s, j).None?
    {
      if TierAt(s, j).Some? {
        FoundIsCode(s, j);
        assert false;
      }
    }
  }

  lemma FirstCodeOut(s: string, n: nat, t: string)
    requires CodeAt(s, n, t) && forall i: nat, u: string :: i < n ==> !CodeAt(s, i, u)
    ensures n + |t| + 1 <= |s| && RemoveTiers(s, 0) == s[..n] + RemoveTiers(s[n + |t| + 1..], 0)
  {
    NoneBefore(s, n);
    KeptUpTo(s, n);
    CodeIsSkipped(s, n, t);
  }

  lemma CodeIsSkipped(s: string, n: nat, t: string)
    requires CodeAt(s, n, t)
    ensures n + |t| + 1 <= |s| && RemoveTiers(s, n) == RemoveTiers(s[n + |t| + 1..], 0)
  {
    TakesOne(s, n, t);
    ReadAlone(s, n + |t| + 1, 0);
  }

  lemma TakesOne(s: string, n: nat, t: string)
    requires CodeAt(s, n, t)
    ensures RemoveTiers(s, n) == RemoveTiers(s, n + |t| + 1)
  {
    CodeIsFound(s, n, t);
    CodeEnds(s, n, t);
  }

  /** Taking category codes out: of a name without one nothing, and else the first, with
      the word for category, and then those behind it. */
  lemma CodesAreTakenOut(front: string, t: string, back: string)
    ensures var s := front + t + "类" + back;
      CodeAt(s, |front|, t) && (forall i: nat, u: string :: i < |front| ==> !CodeAt(s, i, u)) ==>
        RemoveTiers(s, 0) == front + RemoveTiers(back, 0)
    ensures Unnamed(front) ==> RemoveTiers(front, 0) == front
  {
    if Unnamed(front) {
      NothingToRemove(front, 0);
      assert front[0..] == front;
    }
    var s := front + t + "类" + back;
    var n := |front|;
    if CodeAt(s, n, t) && (forall i: nat, u: string :: i < n ==> !CodeAt(s, i, u)) {
      FirstCodeOut(s, n, t);
      assert s[..n] == front && s[n + |t| + 1..] == back;
    }
  }

  lemma CodeEnds(s: string, i: nat, t: string)
    requires CodeAt(s, i, t)
    ensures DigitsEnd(s, i + 1) == i + |t|
  {
    forall k | i <= k < i + |t|
      ensures s[k] == t[k - i]
    {
      assert s[i..i + |t|][k - i] == s[k];
    }
    DigitsEndMeans(s, i + 1, i + |t|);
  }

  /** Taking a word out: the first occurrence, and then those behind it. */
  lemma WordIsTakenOut(front: string, word: string, back: string)
    requires word != ""
    ensures var s := front + word + back;
      (forall i: nat :: i < |front| ==> !(word <= s[i..])) ==> RemoveAll(s, word) == front + RemoveAll(back, word)
    ensures (forall i: nat :: i <= |front| ==> !(word <= front[i..])) ==> RemoveAll(front, word) == front
  {
    var s, n := front + word + back, |front|;
    if forall i: nat :: i < n ==> !(word <= s[i..]) {
      assert s[n..] == word + back;
      OccursMeans(s, word, n);
      var found := IndexFrom(s, word, 0);
      assert found.Some?;
      OccursMeans(s, word, found.value);
      assert found.value == n;
      assert s[..n] == front && s[n + |word|..] == back;
    }
    if forall i: nat :: i <= n ==> !(word <= front[i..]) {
      var found := IndexFrom(front, word, 0);
      if found.Some? {
        OccursMeans(front, word, found.value);
        assert false;
      }
    }
  }

  predicate Holds(s: string, word: string) {
    exists i: nat :: i <= |s| && word <= s[i..]
  }

  lemma {:induction false} WordsNotHeld(s: string, words: seq<string>)
    requires forall k :: 0 <= k < |words| ==> words[k] != "" && !Holds(s, words[k])
    ensures RemoveWords(s, words) == s
  {
    if words != [] {
      WordsNotHeld(s, words[..|words| - 1]);
      WordIsTakenOut(s, words[|words| - 1], "");
    }
  }

  lemma TrimmedMarks(front: string, s: string, back: string, cut: char -> bool)
    requires (forall c :: c in front ==> cut(c)) && (forall c :: c in back ==> cut(c))
    requires s != "" ==> !cut(s[0]) && !cut(s[|s| - 1])
    ensures Text.Trim(front + s + back, cut) == s
  {
    assert front + s + back == front + (s + back);
    LeftTrimmed(front, s + back, cut);
    assert Text.TrimRight(Text.TrimLeft(s + back, cut), cut) == s by {
      if s == "" {
        NothingLeft(back, cut);
        assert s + back == back;
      } else {
        StaysLeft(s + back, cut);
        RightTrimmed(s, back, cut);
      }
    }
  }

  lemma {:induction false} NothingLeft(marks: string, cut: char -> bool)
    requires forall c :: c in marks ==> cut(c)
    ensures Text.TrimRight(Text.TrimLeft(marks, cut), cut) == ""
  {
    if marks != "" {
      assert marks[0] in marks;
      NothingLeft(marks[1..], cut);
    }
  }

  lemma StaysLeft(s: string, cut: char -> bool)
    requires s != "" && !cut(s[0])
    ensures Text.TrimLeft(s, cut) == s
  {
  }

  lemma {:induction false} LeftTrimmed(front: string, s: string, cut: char -> bool)
    requires forall c :: c in front ==> cut(c)
    ensures Text.TrimLeft(front + s, cut) == Text.TrimLeft(s, cut)
  {
    if front == "" {
      assert front + s == s;
    } else {
      assert front[0] in front;
      assert (front + s)[1..] == front[1..] + s;
      LeftTrimmed(front[1..], s, cut);
    }
  }

  lemma {:induction false} RightTrimmed(s: string, back: string, cut: char -> bool)
    requires (forall c :: c in back ==> cut(c)) && s != "" && !cut(s[|s| - 1])
    ensures Text.TrimRight(s + back, cut) == s
    decreases |back|
  {
    if back == "" {
      assert s + back == s;
    } else {
      var n := |back| - 1;
      assert back[n] in back;
      assert (s + back)[..|s + back| - 1] == s + back[..n];
      RightTrimmed(s, back[..n], cut);
    }
  }

  /** A name that holds no category and no generic word identifies an event when two
      characters are left of it inside its marks; but the name of the item, or of a
      category, never does. */
  lemma EventsStandOut(front: string, s: string, back: string, item: Item, tiers: set<string>, g: Glyphs)
    requires (forall c :: c in front ==> c in MARKS) && (forall c :: c in back ==> c in MARKS)
    requires s != "" ==> s[0] !in MARKS && s[|s| - 1] !in MARKS
    requires var name := front + s + back;
      Unnamed(name) && forall k :: 0 <= k < |GENERIC_WORDS| ==> !Holds(name, GENERIC_WORDS[k])
    ensures var name := front + s + back;
      Specific(name, item, tiers, g) <==> |s| >= 2 && name != Normalize(item.name, g) && name !in tiers
  {
    var name := front + s + back;
    NothingToRemove(name, 0);
    assert name[0..] == name;
    forall k | 0 <= k < |GENERIC_WORDS|
      ensures GENERIC_WORDS[k] != ""
    {
      assert "" <= name[0..];
    }
    WordsNotHeld(name, GENERIC_WORDS);
    TrimmedMarks(front, s, back, c => c in MARKS);
    assert Anchor(name) == s;
  }

  // --------------------------------------------------------- what becomes of it

  /** Whether some option of the item names a category, and which. */
  ghost predicate Configured(item: Item, t: string, g: Glyphs) {
    exists o :: o in item.rule.options && SchoolCategory(o.caption, g) == t != ""
  }

  /** The candidate is marked with the reason, and else as it was. */
  predicate OnlyMarked(c: Candidate, d: Candidate) {
    && d == c.(needsReview := true, reviewReasons := d.reviewReasons)
    && c.reviewReasons <= d.reviewReasons && SCHOOL_CATEGORY_REASON in d.reviewReasons
    && forall r :: r in d.reviewReasons ==> r in c.reviewReasons || r == SCHOOL_CATEGORY_REASON
  }

  ghost predicate Grounded(c: Candidate, item: Item, chunk: Group, g: Glyphs, trim: Trim, d: Candidate) {
    var tier := SchoolCategory(c.claim.option, g);
    if item.rule.kind != Enum || (forall t :: !Configured(item, t, g)) then d == c
    else if trim(c.claim.option) == "" then OnlyMarked(c, d)
    else if !Configured(item, tier, g) then d == c
    else if Evidenced(c, item, chunk, tier, Tiers(item.rule.options, g), g, trim) then d == c
    else OnlyMarked(c.(claim := Claim(c.claim.quantity, "", None), expectedScore := None, optionEvidence := None), d)
  }

  lemma TiersMeans(item: Item, g: Glyphs)
    ensures forall t :: t in Tiers(item.rule.options, g) <==> Configured(item, t, g)
  {
  }

  lemma MarkedOnly(c: Candidate)
    ensures OnlyMarked(c, AddReason(c, SCHOOL_CATEGORY_REASON))
  {
  }

  lemma GroundedItem(c: Candidate, item: Item, cfg: seq<Category>, chunk: Group, g: Glyphs, trim: Trim)
    requires FindItem(cfg, trim(c.categoryKey), trim(c.itemKey)) == Some(item)
    ensures Grounded(c, item, chunk, g, trim, Ground(c, cfg, chunk, g, trim))
  {
    var tiers, tier := Tiers(item.rule.options, g), SchoolCategory(c.claim.option, g);
    MarkedOnly(c);
    MarkedOnly(c.(claim := Claim(c.claim.quantity, "", None), expectedScore := None, optionEvidence := None));
    TiersMeans(item, g);
    if tier in tiers {
      ValidIsEvidenced(c, item, chunk, tier, tiers, g, trim);
    }
  }

  /** What becomes of a candidate: without categories it is left alone; without an option
      it is marked for review; an option that names no category of the item is left to
      the gate; and one that does stays exactly when it is evidenced. */
  lemma GroundOutcome(c: Candidate, cfg: seq<Category>, chunk: Group, g: Glyphs, trim: Trim)
    ensures match FindItem(cfg, trim(c.categoryKey), trim(c.itemKey))
      case None => Ground(c, cfg, chunk, g, trim) == c
      case Some(item) => Grounded(c, item, chunk, g, trim, Ground(c, cfg, chunk, g, trim))
  {
    match FindItem(cfg, trim(c.categoryKey), trim(c.itemKey))
    case None =>
    case Some(item) => GroundedItem(c, item, cfg, chunk, g, trim);
  }
}
