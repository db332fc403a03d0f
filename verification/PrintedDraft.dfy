/** Printed drafts: an object whose list of candidates holds objects with a title and
    perhaps a note, beside members that hold neither
    (backend/internal/aiassist/aiassist.go and preview.go). */
module PrintedDraft {
  import opened DraftPreview
  import opened FieldSearch
  import opened JsonDocument
  import opened JsonString
  import opened Options
  import opened Preview
  import opened Utf8

  const CANDIDATES: Bytes := [99, 97, 110, 100, 105, 100, 97, 116, 101, 115]

  /** The names of the fields, as bytes. */
  function Letters(s: string): Bytes
    requires forall i :: 0 <= i < |s| ==> 'a' <= s[i] <= 'z'
  {
    seq(|s|, (i: nat) requires i < |s| => s[i] as int)
  }

  lemma NamesAreSpelled()
    ensures TITLE == Letters("title") && NOTE == Letters("note") && CANDIDATES == Letters("candidates")
    ensures NEWLINE as char == '\n'
  {
  }

  /** A name written letter for letter. */
  function Written(name: Bytes): (key: seq<Item>)
    requires forall i :: 0 <= i < |name| ==> IsLetter(name[i])
  {
    if name == [] then []
    else
      assert IsLetter(name[0]);
      var first: Item := Plain(name[0]);
      [first] + Written(name[1..])
  }

  lemma {:induction false} WrittenBody(name: Bytes)
    requires forall i :: 0 <= i < |name| ==> IsLetter(name[i])
    ensures Body(Written(name)) == name
  {
    if name != [] {
      WrittenBody(name[1..]);
      assert Written(name)[1..] == Written(name[1..]);
    }
  }

  /** A candidate with its other members. */
  datatype Printed = Printed(entry: Entry, others: Members)

  function NoteMember(note: Option<seq<Item>>, others: Members): Members {
    match note
    case None => others
    case Some(n) => Member([], Written(NOTE), [], [], Str(n), [], others)
  }

  function CandidateMembers(p: Printed): Members {
    Member([], Written(TITLE), [], [], Str(p.entry.title), [], NoteMember(p.entry.note, p.others))
  }

  function CandidateElems(ps: seq<Printed>): Elems {
    if ps == [] then NoElems else Elem([], Obj([], CandidateMembers(ps[0])), [], CandidateElems(ps[1..]))
  }

  /** An object with a list of candidates under a name, beside its other members. */
  function ListUnder(key: seq<Item>, ps: seq<Printed>, others: Members): Value {
    Obj([], Member([], key, [], [], Arr([], CandidateElems(ps)), [], others))
  }

  /** The draft as it is written down. */
  function DraftValue(ps: seq<Printed>, others: Members): Value {
    ListUnder(Written(CANDIDATES), ps, others)
  }

  function EntriesOf(ps: seq<Printed>): (es: seq<Entry>)
    ensures |es| == |ps| && forall i :: 0 <= i < |ps| ==> es[i] == ps[i].entry
  {
    seq(|ps|, (i: nat) requires i < |ps| => ps[i].entry)
  }

  /** Members that hold no title and no note, however deep. */
  predicate Silent(ms: Members) {
    MemberFields(ms, Spelled(TITLE)) == [] && MemberFields(ms, Spelled(NOTE)) == []
  }

  /** A member with a string value and a written name. */
  lemma {:induction false} StringMember(name: Bytes, items: seq<Item>, others: Members, looked: Bytes)
    requires forall i :: 0 <= i < |name| ==> IsLetter(name[i])
    ensures MemberFields(Member([], Written(name), [], [], Str(items), [], others), Spelled(looked)) ==
      (if name == looked then [items] else []) + MemberFields(others, Spelled(looked))
  {
    WrittenBody(name);
    var m := Member([], Written(name), [], [], Str(items), [], others);
    assert OwnFields(m, Spelled(looked)) == if name == looked then [items] else [];
  }

  lemma NamesDiffer()
    ensures TITLE != NOTE
    ensures forall i :: 0 <= i < |TITLE| ==> IsLetter(TITLE[i])
    ensures forall i :: 0 <= i < |NOTE| ==> IsLetter(NOTE[i])
  {
    assert |TITLE| == 5 && |NOTE| == 4;
  }

  /** A candidate's own title and note are all it holds. */
  lemma CandidateHolds(p: Printed)
    requires Silent(p.others)
    ensures MemberFields(CandidateMembers(p), Spelled(TITLE)) == [p.entry.title]
    ensures MemberFields(CandidateMembers(p), Spelled(NOTE)) ==
      match p.entry.note case None => [] case Some(n) => [n]
  {
    NamesDiffer();
    var rest := NoteMember(p.entry.note, p.others);
    StringMember(TITLE, p.entry.title, rest, TITLE);
    StringMember(TITLE, p.entry.title, rest, NOTE);
    if p.entry.note.Some? {
      StringMember(NOTE, p.entry.note.value, p.others, TITLE);
      StringMember(NOTE, p.entry.note.value, p.others, NOTE);
    }
  }

  lemma {:induction false} ElemsCons(ps: seq<Printed>, names: Naming)
    requires ps != []
    ensures ElemFields(CandidateElems(ps), names) ==
      MemberFields(CandidateMembers(ps[0]), names) + ElemFields(CandidateElems(ps[1..]), names)
  {
    var v := Obj([], CandidateMembers(ps[0]));
    assert FieldsBy(v, names) == MemberFields(CandidateMembers(ps[0]), names);
  }

  lemma EntriesCons(ps: seq<Printed>)
    requires ps != []
    ensures Titles(EntriesOf(ps)) == [ps[0].entry.title] + Titles(EntriesOf(ps[1..]))
    ensures Notes(EntriesOf(ps)) ==
      (match ps[0].entry.note case None => [] case Some(n) => [n]) + Notes(EntriesOf(ps[1..]))
  {
    assert EntriesOf(ps)[1..] == EntriesOf(ps[1..]);
  }

  lemma {:induction false} CandidatesHold(ps: seq<Printed>)
    requires forall i :: 0 <= i < |ps| ==> Silent(ps[i].others)
    ensures ElemFields(CandidateElems(ps), Spelled(TITLE)) == Titles(EntriesOf(ps))
    ensures ElemFields(CandidateElems(ps), Spelled(NOTE)) == Notes(EntriesOf(ps))
    decreases |ps|
  {
    if ps != [] {
      CandidateHolds(ps[0]);
      CandidatesHold(ps[1..]);
      ElemsCons(ps, Spelled(TITLE));
      ElemsCons(ps, Spelled(NOTE));
      EntriesCons(ps);
    }
  }

  /** A member with a list, beside members that hold nothing that is looked for. */
  lemma {:induction false} ListMember(key: seq<Item>, elems: Elems, others: Members, names: Naming)
    requires MemberFields(others, names) == []
    ensures MemberFields(Member([], key, [], [], Arr([], elems), [], others), names) == ElemFields(elems, names)
  {
    var m := Member([], key, [], [], Arr([], elems), [], others);
    assert OwnFields(m, names) == FieldsBy(m.value, names) == ElemFields(elems, names);
  }

  lemma {:induction false} ListHolds(key: seq<Item>, ps: seq<Printed>, others: Members, names: Naming)
    requires MemberFields(others, names) == []
    ensures FieldsBy(ListUnder(key, ps, others), names) == ElemFields(CandidateElems(ps), names)
  {
    ListMember(key, CandidateElems(ps), others, names);
  }

  /** A printed draft prints its candidates and no other titles or notes. */
  lemma PrintedDraftPrints(ps: seq<Printed>, others: Members)
    requires Silent(others) && forall i :: 0 <= i < |ps| ==> Silent(ps[i].others)
    ensures PrintsDraft(DraftValue(ps, others), EntriesOf(ps))
  {
    CandidatesHold(ps);
    ListHolds(Written(CANDIDATES), ps, others, Spelled(TITLE));
    ListHolds(Written(CANDIDATES), ps, others, Spelled(NOTE));
  }

  /** The preview of a printed draft of at most 40 candidates with titles shows the
      lines of the decoded candidates exactly when no candidate with a blank note
      stands before one with a note. */
  lemma PreviewOfPrintedDraft(lead: Pad, ps: seq<Printed>, others: Members, trail: Pad, space: int -> bool)
    requires Silent(others) && forall i :: 0 <= i < |ps| ==> Silent(ps[i].others)
    requires |ps| <= 40
    requires forall i :: 0 <= i < |ps| ==> Decoded(ps[i].entry, Trimming(space)).title != []
    ensures var cs := DecodedAll(EntriesOf(ps), Trimming(space));
      ComposedPreview(Document(lead, DraftValue(ps, others), trail), space) == CandidateLines(cs, space)
      <==> NotesInFront(cs)
  {
    PrintedDraftPrints(ps, others);
    PreviewOfDraft(lead, DraftValue(ps, others), trail, EntriesOf(ps), space);
  }
}
