/** The streaming preview compared with the lines of the decoded draft
    (backend/internal/aiassist/preview.go and aiassist.go). */
module DraftPreview {
  import opened Options
  import opened Utf8
  import opened JsonString
  import opened FieldSearch
  import opened Preview
  import opened JsonDocument
  import Text

  /** The two fields of a printed candidate that the preview shows. */
  datatype Entry = Entry(title: seq<Item>, note: Option<seq<Item>>)

  datatype Candidate = Candidate(title: Runes, note: Runes)

  /** How a field's text is read: decoded and trimmed. */
  type Reading = seq<Item> -> Runes

  function Trimming(space: int -> bool): Reading {
    items => Text.Trim(Meaning(items), space)
  }

  /** A candidate after decoding and trimming; a missing note is blank. */
  function Decoded(e: Entry, read: Reading): Candidate {
    Candidate(read(e.title), match e.note case None => [] case Some(n) => read(n))
  }

  function Titles(es: seq<Entry>): (r: seq<seq<Item>>)
    ensures |r| == |es|
    ensures forall i :: 0 <= i < |es| ==> r[i] == es[i].title
  {
    seq(|es|, i requires 0 <= i < |es| => es[i].title)
  }

  function Notes(es: seq<Entry>): seq<seq<Item>> {
    if es == [] then []
    else (match es[0].note case None => [] case Some(n) => [n]) + Notes(es[1..])
  }

  /** The document prints these candidates and no other members named title or
      note with a string value. */
  predicate PrintsDraft(v: Value, es: seq<Entry>) {
    Fields(v, TITLE) == Titles(es) && Fields(v, NOTE) == Notes(es)
  }

  /** One line for each candidate: the title and, unless blank, the trimmed note. */
  function CandidateLines(cs: seq<Candidate>, space: int -> bool): (lines: seq<Runes>)
    ensures |lines| == |cs|
    ensures forall i :: 0 <= i < |cs| ==> lines[i] == Line(cs[i].title, Text.Trim(cs[i].note, space))
  {
    seq(|cs|, i requires 0 <= i < |cs| => Line(cs[i].title, Text.Trim(cs[i].note, space)))
  }

  /** The lines of candidates whose notes are trimmed already. */
  function LinesOf(cs: seq<Candidate>): (lines: seq<Runes>)
    ensures |lines| == |cs|
    ensures forall i :: 0 <= i < |cs| ==> lines[i] == Line(cs[i].title, cs[i].note)
  {
    seq(|cs|, i requires 0 <= i < |cs| => Line(cs[i].title, cs[i].note))
  }

  function DecodedAll(es: seq<Entry>, read: Reading): (cs: seq<Candidate>)
    ensures |cs| == |es|
    ensures forall i :: 0 <= i < |es| ==> cs[i] == Decoded(es[i], read)
  {
    seq(|es|, i requires 0 <= i < |es| => Decoded(es[i], read))
  }

  /** Decoding trims the notes, so trimming them again changes nothing. */
  lemma LinesOfDecoded(es: seq<Entry>, space: int -> bool)
    ensures var cs := DecodedAll(es, Trimming(space));
      CandidateLines(cs, space) == LinesOf(cs)
  {
    var cs := DecodedAll(es, Trimming(space));
    forall i | 0 <= i < |cs|
      ensures Text.Trim(cs[i].note, space) == cs[i].note
    {
      match es[i].note
      case None =>
      case Some(n) => Text.TrimTwice(Meaning(n), space);
    }
  }

  method ListOne(c: Candidate, space: int -> bool) returns (line: Runes)
    ensures line == Line(c.title, Text.Trim(c.note, space))
  {
    line := c.title;
    var note := Text.Trim(c.note, space);
    if note != [] {
      line := line + [NEWLINE] + note;
    }
  }

  method ListCandidates(cs: seq<Candidate>, space: int -> bool) returns (lines: seq<Runes>)
    ensures lines == CandidateLines(cs, space)
  {
    lines := [];
    ghost var all := CandidateLines(cs, space);
    for i := 0 to |cs|
      invariant lines == all[..i]
    {
      var line := ListOne(cs[i], space);
      assert line == all[i];
      lines := lines + [line];
    }
    assert all[..|cs|] == all;
  }

  /** No blank note stands before a note that is not blank. */
  predicate NotesInFront(cs: seq<Candidate>) {
    forall i, j :: 0 <= i < j < |cs| && cs[j].note != [] ==> cs[i].note != []
  }

  function NonBlank(cs: seq<Candidate>): seq<Runes> {
    if cs == [] then []
    else (if cs[0].note == [] then [] else [cs[0].note]) + NonBlank(cs[1..])
  }

  lemma {:induction false} NonBlankNotes(cs: seq<Candidate>)
    ensures |NonBlank(cs)| <= |cs|
    ensures forall i :: 0 <= i < |NonBlank(cs)| ==> NonBlank(cs)[i] != []
    ensures NotesInFront(cs) ==>
      forall i :: 0 <= i < |cs| ==> cs[i].note == if i < |NonBlank(cs)| then NonBlank(cs)[i] else []
    decreases |cs|
  {
    if cs != [] {
      var rest := cs[1..];
      NonBlankNotes(rest);
      if NotesInFront(cs) {
        assert NotesInFront(rest);
        if cs[0].note == [] {
          forall i | 0 <= i < |rest|
            ensures rest[i].note == []
          {
            assert cs[i + 1].note == rest[i].note;
          }
          AllBlank(rest);
        } else {
          forall i | 0 <= i < |cs|
            ensures cs[i].note == if i < |NonBlank(cs)| then NonBlank(cs)[i] else []
          {
            assert i > 0 ==> cs[i] == rest[i - 1];
          }
        }
      }
    }
  }

  lemma {:induction false} AllBlank(cs: seq<Candidate>)
    requires forall i :: 0 <= i < |cs| ==> cs[i].note == []
    ensures NonBlank(cs) == []
    decreases |cs|
  {
    if cs != [] {
      AllBlank(cs[1..]);
    }
  }

  /** Pairing the n-th title with the n-th non-blank note gives the candidates'
      own lines exactly when no blank note comes first. */
  lemma {:induction false} PairingIsRight(cs: seq<Candidate>, titles: seq<Runes>)
    requires |titles| == |cs| && forall i :: 0 <= i < |cs| ==> titles[i] == cs[i].title
    ensures PreviewLines(titles, NonBlank(cs)) == LinesOf(cs) <==> NotesInFront(cs)
  {
    var notes := NonBlank(cs);
    NonBlankNotes(cs);
    var a, b := PreviewLines(titles, notes), LinesOf(cs);
    if a == b {
      forall i | 0 <= i < |cs|
        ensures cs[i].note == if i < |notes| then notes[i] else []
      {
        assert a[i] == b[i];
        LineInjective(titles[i], cs[i].note, if i < |notes| then notes[i] else []);
      }
      assert NotesInFront(cs);
    }
  }

  lemma LineInjective(title: Runes, a: Runes, b: Runes)
    requires Line(title, a) == Line(title, b)
    ensures a == b
  {
    if a != [] && b != [] {
      assert Line(title, a)[|title| + 1..] == a;
      assert Line(title, b)[|title| + 1..] == b;
    }
  }

  /** The preview shows what reading the field gives, unless that is blank. */
  ghost predicate ShowsReading(show: Show, read: Reading) {
    forall items: seq<Item> {:trigger read(items)} ::
      show(Body(items)) == if read(items) == [] then [] else [read(items)]
  }

  lemma PreviewShowsReading(space: int -> bool)
    ensures ShowsReading(Shown(space), Trimming(space))
  {
    forall items: seq<Item>
      ensures Shown(space)(Body(items)) ==
        var t := Trimming(space)(items); if t == [] then [] else [t]
    {
      UnquoteBody(items);
    }
  }

  lemma {:induction false} TitleTexts(es: seq<Entry>, show: Show, read: Reading)
    requires ShowsReading(show, read)
    requires forall i :: 0 <= i < |es| ==> Decoded(es[i], read).title != []
    ensures var ts := Texts(Bodies(Titles(es)), show);
      |ts| == |es| && forall i :: 0 <= i < |es| ==> ts[i] == Decoded(es[i], read).title
    decreases |es|
  {
    if es != [] {
      var rest, title := es[1..], Decoded(es[0], read).title;
      TitleTexts(rest, show, read);
      assert title == read(es[0].title);
      TextsCons(Body(es[0].title), Bodies(Titles(rest)), show);
      assert Bodies(Titles(es)) == [Body(es[0].title)] + Bodies(Titles(rest));
      var ts := Texts(Bodies(Titles(es)), show);
      assert ts == [title] + Texts(Bodies(Titles(rest)), show);
      forall i | 0 <= i < |es|
        ensures ts[i] == Decoded(es[i], read).title
      {
        assert i > 0 ==> es[i] == rest[i - 1];
      }
    }
  }

  lemma {:induction false} NoteTexts(es: seq<Entry>, show: Show, read: Reading)
    requires ShowsReading(show, read)
    ensures Texts(Bodies(Notes(es)), show) == NonBlank(DecodedAll(es, read))
    decreases |es|
  {
    if es != [] {
      var rest := es[1..];
      NoteTexts(rest, show, read);
      NoteText(es[0], Notes(rest), show, read);
      NonBlankCons(Decoded(es[0], read), DecodedAll(rest, read));
      assert DecodedAll(es, read) == [Decoded(es[0], read)] + DecodedAll(rest, read);
    }
  }

  lemma {:induction false} NonBlankCons(c: Candidate, cs: seq<Candidate>)
    ensures NonBlank([c] + cs) == (if c.note == [] then [] else [c.note]) + NonBlank(cs)
  {
    assert ([c] + cs)[1..] == cs;
  }

  lemma NoteText(e: Entry, rest: seq<seq<Item>>, show: Show, read: Reading)
    requires ShowsReading(show, read)
    ensures var own := match e.note case None => [] case Some(n) => [n];
      Texts(Bodies(own + rest), show) ==
        (if Decoded(e, read).note == [] then [] else [Decoded(e, read).note]) + Texts(Bodies(rest), show)
  {
    match e.note
    case None =>
      assert [] + rest == rest;
    case Some(n) =>
      assert read(n) == Decoded(e, read).note;
      TextsCons(Body(n), Bodies(rest), show);
      assert Bodies([n] + rest) == [Body(n)] + Bodies(rest);
  }

  /** For a printed draft of at most 40 candidates whose titles are not blank, the
      preview of the whole text shows the lines of the decoded candidates exactly
      when no candidate with a blank note stands before one with a note. */
  lemma PreviewOfDraft(lead: Pad, v: Value, trail: Pad, es: seq<Entry>, space: int -> bool)
    requires PrintsDraft(v, es) && |es| <= 40
    requires forall i :: 0 <= i < |es| ==> Decoded(es[i], Trimming(space)).title != []
    ensures var cs := DecodedAll(es, Trimming(space));
      ComposedPreview(Document(lead, v, trail), space) == CandidateLines(cs, space) <==> NotesInFront(cs)
  {
    PreviewNames();
    DraftStrings(lead, v, trail, TITLE, space);
    DraftStrings(lead, v, trail, NOTE, space);
    PreviewShowsReading(space);
    PairedDraft(es, Shown(space), Trimming(space));
    LinesOfDecoded(es, space);
  }

  lemma {:induction false} PairedDraft(es: seq<Entry>, show: Show, read: Reading)
    requires ShowsReading(show, read) && |es| <= MAX_PREVIEW_TITLES
    requires forall i :: 0 <= i < |es| ==> Decoded(es[i], read).title != []
    ensures var titles, notes := Texts(Bodies(Titles(es)), show), Texts(Bodies(Notes(es)), show);
      var cs := DecodedAll(es, read);
      var lines := PreviewLines(Take(titles, MAX_PREVIEW_TITLES), Take(notes, MAX_PREVIEW_TITLES));
      lines == LinesOf(cs) <==> NotesInFront(cs)
  {
    TitleTexts(es, show, read);
    NoteTexts(es, show, read);
    NonBlankNotes(DecodedAll(es, read));
    PairingIsRight(DecodedAll(es, read), Texts(Bodies(Titles(es)), show));
  }

  /** The strings composed from a whole document are its decoded, trimmed,
      non-blank fields, at most 40 of them. */
  lemma {:induction false} DraftStrings(lead: Pad, v: Value, trail: Pad, name: Bytes, space: int -> bool)
    requires FieldName(name)
    ensures ComposedStrings(Document(lead, v, trail), name, space) ==
      Take(Texts(Bodies(Fields(v, name)), Shown(space)), MAX_PREVIEW_TITLES)
  {
    StringsOfDocument(lead, v, trail, name);
  }
}
