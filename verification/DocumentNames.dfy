/** Names that a JSON document may spell in several ways, and the fields that the
    streaming readers miss because they look for one spelling
    (backend/internal/agentjob/partial.go and backend/internal/aiassist/preview.go). */
module DocumentNames {
  import opened Utf8
  import opened JsonString
  import opened FieldSearch
  import opened JsonDocument
  import PartialField

  /** Decoded to the name, however it is written. */
  function Meant(name: Bytes): Naming {
    key => Meaning(key) == name
  }

  predicate HasEscape(key: seq<Item>) {
    exists i :: 0 <= i < |key| && !key[i].Plain?
  }

  /** Decoded to the name, but written with an escape. */
  function Disguised(name: Bytes): Naming {
    key => Meaning(key) == name && HasEscape(key)
  }

  // --------------------------------------------------------------------- spelling

  predicate Letters(name: Bytes) {
    forall i :: 0 <= i < |name| ==> IsLetter(name[i])
  }

  lemma {:induction false} HeadOfPlain(key: seq<Item>)
    requires key != [] && key[0].Plain?
    ensures Meaning(key) == [key[0].cp] + Meaning(key[1..])
    ensures Body(key) == Encode(key[0].cp) + Body(key[1..])
  {
  }

  lemma {:induction false} SpelledIsMeant(key: seq<Item>, name: Bytes)
    requires Letters(name) && Body(key) == name
    ensures Meaning(key) == name && !HasEscape(key)
    decreases |key|
  {
    if key != [] {
      var r := Render(key[0]);
      assert Body(key)[0] == r[0];
      assert IsLetter(r[0]);
      assert key[0].Plain?;
      EncodeLen(key[0].cp);
      assert r == [key[0].cp];
      assert Body(key[1..]) == name[1..];
      SpelledIsMeant(key[1..], name[1..]);
      HeadOfPlain(key);
      assert forall i :: 0 < i < |key| ==> key[i] == key[1..][i - 1];
    }
  }

  lemma {:induction false} MeantIsSpelled(key: seq<Item>, name: Bytes)
    requires Letters(name) && Meaning(key) == name && !HasEscape(key)
    ensures Body(key) == name
    decreases |key|
  {
    if key != [] {
      assert key[0].Plain?;
      HeadOfPlain(key);
      assert Meaning(key)[0] == key[0].cp == name[0];
      assert IsLetter(name[0]);
      assert Encode(key[0].cp) == [key[0].cp];
      assert Meaning(key[1..]) == Meaning(key)[1..] == name[1..];
      assert forall i :: 0 <= i < |key[1..]| ==> key[1..][i] == key[i + 1];
      MeantIsSpelled(key[1..], name[1..]);
    }
  }

  /** A name is spelled letter for letter exactly when it decodes to the name and
      holds no escape. */
  lemma {:induction false} Spelling(key: seq<Item>, name: Bytes)
    requires FieldName(name)
    ensures Body(key) == name <==> Meaning(key) == name && !HasEscape(key)
  {
    if Body(key) == name {
      SpelledIsMeant(key, name);
    } else if Meaning(key) == name && !HasEscape(key) {
      MeantIsSpelled(key, name);
    }
  }

  // --------------------------------------------------------------- what is missed

  /** The names of one kind are those of a second or a third kind, never both. */
  ghost predicate Divides(some: Naming, left: Naming, all: Naming) {
    forall key {:trigger all(key)} :: (all(key) <==> some(key) || left(key)) && !(some(key) && left(key))
  }

  /** What is missing from the whole is exactly what was missed. */
  ghost predicate Misses(found: seq<seq<Item>>, missed: seq<seq<Item>>, whole: seq<seq<Item>>) {
    multiset(whole) == multiset(found) + multiset(missed) && (missed == [] ==> whole == found)
  }

  lemma MissesMore(f: seq<seq<Item>>, m: seq<seq<Item>>, w: seq<seq<Item>>,
                   g: seq<seq<Item>>, n: seq<seq<Item>>, x: seq<seq<Item>>)
    requires Misses(f, m, w) && Misses(g, n, x)
    ensures Misses(f + g, m + n, w + x)
  {
    assert m + n == [] ==> m == [] && n == [] by {
      assert |m + n| == |m| + |n|;
    }
  }

  lemma {:induction false} DividedFields(v: Value, some: Naming, left: Naming, all: Naming)
    requires Divides(some, left, all)
    ensures Misses(FieldsBy(v, some), FieldsBy(v, left), FieldsBy(v, all))
    decreases v
  {
    match v
    case Scalar(_) =>
    case Str(_) =>
    case Arr(_, elems) => DividedElems(elems, some, left, all);
    case Obj(_, members) => DividedMembers(members, some, left, all);
  }

  lemma {:induction false} DividedElems(es: Elems, some: Naming, left: Naming, all: Naming)
    requires Divides(some, left, all)
    ensures Misses(ElemFields(es, some), ElemFields(es, left), ElemFields(es, all))
    decreases es
  {
    match es
    case NoElems =>
    case Elem(_, value, _, more) =>
      DividedFields(value, some, left, all);
      DividedElems(more, some, left, all);
      MissesMore(FieldsBy(value, some), FieldsBy(value, left), FieldsBy(value, all),
                 ElemFields(more, some), ElemFields(more, left), ElemFields(more, all));
  }

  lemma {:induction false} DividedMembers(ms: Members, some: Naming, left: Naming, all: Naming)
    requires Divides(some, left, all)
    ensures Misses(MemberFields(ms, some), MemberFields(ms, left), MemberFields(ms, all))
    decreases ms
  {
    match ms
    case NoMembers =>
    case Member(_, key, _, _, value, _, more) =>
      assert all(key) <==> some(key) || left(key);
      DividedFields(value, some, left, all);
      DividedMembers(more, some, left, all);
      MissesMore(OwnFields(ms, some), OwnFields(ms, left), OwnFields(ms, all),
                 MemberFields(more, some), MemberFields(more, left), MemberFields(more, all));
  }

  /** The readers find every field of the decoded name but those whose name is written
      with an escape, so they find all of them exactly when there are none of these. */
  lemma {:induction false} EscapedNamesAreMissed(v: Value, name: Bytes)
    requires FieldName(name)
    ensures multiset(FieldsBy(v, Meant(name))) == multiset(Fields(v, name)) + multiset(FieldsBy(v, Disguised(name)))
    ensures Fields(v, name) == FieldsBy(v, Meant(name)) <==> FieldsBy(v, Disguised(name)) == []
  {
    forall key
      ensures (Meant(name)(key) <==> Spelled(name)(key) || Disguised(name)(key))
        && !(Spelled(name)(key) && Disguised(name)(key))
    {
      Spelling(key, name);
    }
    DividedFields(v, Spelled(name), Disguised(name), Meant(name));
  }

  /** On a whole document without such names the answer reader returns the text of the
      first member that decodes to the name and has a string value. */
  lemma {:induction false} FirstMeantField(lead: Pad, v: Value, trail: Pad, name: Bytes)
    requires FieldName(name) && FieldsBy(v, Disguised(name)) == []
    ensures var fields := FieldsBy(v, Meant(name));
      PartialField.PartialText(Document(lead, v, trail), name) == if fields == [] then [] else Meaning(fields[0])
  {
    EscapedNamesAreMissed(v, name);
    PartialTextOfDocument(lead, v, trail, name);
  }

  /** A document whose only field has such a name: nothing is shown of it. */
  lemma DisguisedFieldIsMissed(lead: Pad, trail: Pad, name: Bytes, key: seq<Item>, items: seq<Item>)
    requires FieldName(name) && Disguised(name)(key)
    ensures var v := Obj([], Member([], key, [], [], Str(items), [], NoMembers));
      && FieldsBy(v, Meant(name)) == [items]
      && PartialField.PartialText(Document(lead, v, trail), name) == []
  {
    var ms := Member([], key, [], [], Str(items), [], NoMembers);
    Spelling(key, name);
    assert MemberFields(ms, Meant(name)) == [items] + [];
    assert OwnFields(ms, Spelled(name)) == [];
    assert MemberFields(ms, Spelled(name)) == OwnFields(ms, Spelled(name)) + MemberFields(NoMembers, Spelled(name));
    PartialTextOfDocument(lead, Obj([], ms), trail, name);
  }
}
