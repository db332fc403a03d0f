/** Printed JSON documents, and what the two streaming readers find in them. */
module JsonDocument {
  import opened Options
  import opened Utf8
  import opened JsonString
  import opened FieldSearch
  import Preview
  import PartialField

  const LBRACKET: Byte := 91
  const RBRACKET: Byte := 93
  const RBRACE: Byte := 125

  type Pad = s: Bytes | forall i :: 0 <= i < |s| ==> IsSpace(s[i]) witness []

  /** Bytes of numbers and of true, false and null. */
  predicate AtomByte(b: Byte) {
    97 <= b < 123 || 48 <= b < 58 || b == 45 || b == 43 || b == 46 || b == 69
  }

  type Atom = s: Bytes | s != [] && forall i :: 0 <= i < |s| ==> AtomByte(s[i]) witness [48]

  /** A document with its layout: blanks may stand wherever JSON allows them. */
  datatype Value =
    | Scalar(text: Atom)
    | Str(items: seq<Item>)
    | Arr(pad: Pad, elems: Elems)
    | Obj(pad: Pad, members: Members)
  datatype Elems = NoElems | Elem(before: Pad, value: Value, after: Pad, more: Elems)
  datatype Members =
    | NoMembers
    | Member(before: Pad, key: seq<Item>, mid: Pad, sep: Pad, value: Value, after: Pad, more: Members)

  function Literal(items: seq<Item>): (s: Bytes)
    ensures |s| >= 2
  {
    [QUOTE] + (Body(items) + [QUOTE])
  }

  function Print(v: Value): Bytes {
    match v
    case Scalar(text) => text
    case Str(items) => Literal(items)
    case Arr(pad, elems) => [LBRACKET] + ((if elems.NoElems? then pad else PrintElems(elems)) + [RBRACKET])
    case Obj(pad, members) => [LBRACE] + ((if members.NoMembers? then pad else PrintMembers(members)) + [RBRACE])
  }

  function PrintElems(es: Elems): Bytes
    requires es.Elem?
    decreases es, 0
  {
    es.before + (Print(es.value) + (es.after + MoreElems(es.more)))
  }

  function MoreElems(es: Elems): Bytes
    decreases es, 1
  {
    if es.NoElems? then [] else [COMMA] + PrintElems(es)
  }

  function PrintMembers(ms: Members): Bytes
    requires ms.Member?
    decreases ms, 0
  {
    ms.before + (Literal(ms.key) + (ms.mid + ([COLON] + (ms.sep +
      (Print(ms.value) + (ms.after + MoreMembers(ms.more)))))))
  }

  function MoreMembers(ms: Members): Bytes
    decreases ms, 1
  {
    if ms.NoMembers? then [] else [COMMA] + PrintMembers(ms)
  }

  /** Which member names are looked for. */
  type Naming = seq<Item> -> bool

  /** The string values of all members whose name is accepted, in document order. */
  function FieldsBy(v: Value, names: Naming): seq<seq<Item>> {
    match v
    case Scalar(_) => []
    case Str(_) => []
    case Arr(_, elems) => ElemFields(elems, names)
    case Obj(_, members) => MemberFields(members, names)
  }

  function ElemFields(es: Elems, names: Naming): seq<seq<Item>> {
    match es
    case NoElems => []
    case Elem(_, value, _, more) => FieldsBy(value, names) + ElemFields(more, names)
  }

  function MemberFields(ms: Members, names: Naming): seq<seq<Item>>
    decreases ms, 1
  {
    match ms
    case NoMembers => []
    case Member(_, _, _, _, _, _, more) =>
      OwnFields(ms, names) + MemberFields(more, names)
  }

  function OwnFields(ms: Members, names: Naming): seq<seq<Item>>
    requires ms.Member?
    decreases ms, 0
  {
    if names(ms.key) && ms.value.Str? then [ms.value.items] else FieldsBy(ms.value, names)
  }

  /** Written letter for letter. */
  function Spelled(name: Bytes): Naming {
    key => Body(key) == name
  }

  /** The fields whose name is spelled like that. */
  function Fields(v: Value, name: Bytes): seq<seq<Item>> {
    FieldsBy(v, Spelled(name))
  }

  function Bodies(fields: seq<seq<Item>>): (r: seq<Bytes>)
    ensures |r| == |fields|
    ensures forall i :: 0 <= i < |fields| ==> r[i] == Body(fields[i])
  {
    seq(|fields|, i requires 0 <= i < |fields| => Body(fields[i]))
  }

  lemma BodiesAppend(a: seq<seq<Item>>, b: seq<seq<Item>>)
    ensures Bodies(a + b) == Bodies(a) + Bodies(b)
  {
  }

  // ------------------------------------------------------------- within a buffer

  /** s is written in buf from position i on. */
  predicate At(buf: Bytes, i: nat, s: Bytes) {
    i + |s| <= |buf| && buf[i..i + |s|] == s
  }

  lemma AtSplit(buf: Bytes, i: nat, a: Bytes, b: Bytes)
    requires At(buf, i, a + b)
    ensures At(buf, i, a) && At(buf, i + |a|, b)
  {
    assert buf[i..i + |a|] == (a + b)[..|a|];
    assert buf[i + |a|..i + |a| + |b|] == (a + b)[|a|..];
  }

  lemma AtByte(buf: Bytes, i: nat, s: Bytes, k: nat)
    requires At(buf, i, s) && k < |s|
    ensures buf[i + k] == s[k]
  {
    assert buf[i..i + |s|][k] == s[k];
  }

  /** Stretches without a quote hold no field. */
  lemma QuietStretch(buf: Bytes, name: Bytes, h: Probe, i: nat, j: nat)
    requires Probes(h, buf, name) && i <= j <= |buf|
    requires forall k :: i <= k < j ==> buf[k] != QUOTE
    ensures NoField(h, i, j)
  {
    forall at | i <= at < j
      ensures h(at).None?
    {
      assert h(at) == FieldAt(buf, name, at);
      QuietByte(buf, name, at);
    }
  }

  lemma QuietByte(buf: Bytes, name: Bytes, at: nat)
    requires at < |buf| && buf[at] != QUOTE
    ensures FieldAt(buf, name, at).None?
  {
    if Occurs(buf, Key(name), at) {
      AtByte(buf, at, Key(name), 0);
    }
  }

  lemma {:induction false} SkipPad(buf: Bytes, i: nat, pad: Pad)
    requires At(buf, i, pad)
    ensures Skip(buf, i) == Skip(buf, i + |pad|)
    decreases |pad|
  {
    if pad != [] {
      AtByte(buf, i, pad, 0);
      AtSplit(buf, i, pad[..1], pad[1..]);
      assert pad == pad[..1] + pad[1..];
      SkipPad(buf, i + 1, pad[1..]);
    }
  }

  lemma {:induction false} BackPad(buf: Bytes, i: nat, pad: Pad)
    requires At(buf, i, pad)
    ensures Back(buf, i + |pad|) == Back(buf, i)
    decreases |pad|
  {
    if pad != [] {
      var n := |pad| - 1;
      AtByte(buf, i, pad, n);
      assert pad == pad[..n] + pad[n..];
      AtSplit(buf, i, pad[..n], pad[n..]);
      BackPad(buf, i, pad[..n]);
    }
  }

  // --------------------------------------------------------------- literals

  /** Inside a body every quote is escaped. */
  lemma {:induction false} QuotesEscaped(items: seq<Item>, k: nat)
    requires k < |Body(items)| && Body(items)[k] == QUOTE
    ensures k > 0 && Body(items)[k - 1] == BACKSLASH
    decreases |items|
  {
    var r := Render(items[0]);
    if k < |r| {
      QuoteInItem(items[0], k);
    } else {
      QuotesEscaped(items[1..], k - |r|);
    }
  }

  lemma QuoteInItem(item: Item, k: nat)
    requires k < |Render(item)|
    ensures Render(item)[k] == QUOTE ==> k == 1 && Render(item)[0] == BACKSLASH
  {
    match item
    case Plain(cp) => EncodeLen(cp);
    case Short(_) =>
    case Unicode(h) => assert k >= 2 ==> Render(item)[k] == h[k - 2];
  }

  lemma {:induction false} CloseOver(r: Bytes, s: Bytes)
    requires forall i :: 0 <= i < |r| ==> r[i] != QUOTE && r[i] != BACKSLASH
    ensures Preview.CloseOf(r + s) ==
      match Preview.CloseOf(s) case None => None case Some(n) => Some(|r| + n)
    decreases |r|
  {
    if r == [] {
      assert r + s == s;
    } else {
      assert (r + s)[1..] == r[1..] + s;
      CloseOver(r[1..], s);
    }
  }

  lemma {:induction false} CloseItem(item: Item, s: Bytes)
    ensures Preview.CloseOf(Render(item) + s) ==
      match Preview.CloseOf(s) case None => None case Some(n) => Some(|Render(item)| + n)
  {
    var r := Render(item);
    match item
    case Plain(cp) =>
      EncodeLen(cp);
      CloseOver(r, s);
    case Short(c) =>
      assert (r + s)[2..] == s;
    case Unicode(h) =>
      assert (r + s)[2..] == h + s;
      CloseOver(h, s);
  }

  /** A printed literal closes exactly behind its body. */
  lemma {:induction false} CloseBody(items: seq<Item>, tail: Bytes)
    requires tail != [] && tail[0] == QUOTE
    ensures Preview.CloseOf(Body(items) + tail) == Some(|Body(items)|)
    decreases |items|
  {
    if items == [] {
      assert Body(items) + tail == tail;
    } else {
      assert Body(items) + tail == Render(items[0]) + (Body(items[1..]) + tail);
      CloseBody(items[1..], tail);
      CloseItem(items[0], Body(items[1..]) + tail);
    }
  }

  lemma {:induction false} CloseAt(buf: Bytes, i: nat, items: seq<Item>)
    requires At(buf, i, Body(items) + [QUOTE])
    ensures Preview.CloseOf(buf[i..]) == Some(|Body(items)|)
  {
    var s := Body(items) + [QUOTE];
    var tail := [QUOTE] + buf[i + |s|..];
    assert buf[i..] == s + buf[i + |s|..] == Body(items) + tail;
    CloseBody(items, tail);
  }

  lemma CloseName(buf: Bytes, i: nat, name: Bytes)
    requires FieldName(name) && At(buf, i, name + [QUOTE])
    ensures Preview.CloseOf(buf[i..]) == Some(|name|)
  {
    var tail := [QUOTE] + buf[i + |name| + 1..];
    assert buf[i..] == name + tail by {
      assert buf[i..] == (name + [QUOTE]) + buf[i + |name| + 1..];
    }
    CloseOver(name, tail);
  }

  lemma {:induction false} SameClose(buf: Bytes, i: nat, items: seq<Item>, name: Bytes)
    requires FieldName(name) && At(buf, i, name + [QUOTE]) && At(buf, i, Body(items) + [QUOTE])
    ensures Body(items) == name
  {
    CloseName(buf, i, name);
    CloseAt(buf, i, items);
    AtSplit(buf, i, name, [QUOTE]);
    AtSplit(buf, i, Body(items), [QUOTE]);
  }

  /** The key is read at the start of a literal exactly when the literal is the
      name itself. */
  lemma {:induction false} LiteralIsKey(buf: Bytes, i: nat, items: seq<Item>, name: Bytes)
    requires FieldName(name) && At(buf, i, Literal(items))
    ensures Occurs(buf, Key(name), i) <==> Body(items) == name
  {
    assert Key(name) == [QUOTE] + (name + [QUOTE]);
    if Occurs(buf, Key(name), i) {
      assert At(buf, i, Key(name));
      AtSplit(buf, i, [QUOTE], name + [QUOTE]);
      AtSplit(buf, i, [QUOTE], Body(items) + [QUOTE]);
      SameClose(buf, i + 1, items, name);
    }
  }

  /** Behind its opening quote a literal holds no field, unless a letter follows
      its closing quote. */
  lemma LiteralInside(buf: Bytes, i: nat, items: seq<Item>, name: Bytes, h: Probe)
    requires FieldName(name) && Probes(h, buf, name) && At(buf, i, Literal(items))
    requires i + |Literal(items)| == |buf| || !IsLetter(buf[i + |Literal(items)|])
    ensures NoField(h, i + 1, i + |Literal(items)|)
  {
    var n := |Literal(items)|;
    forall at | i < at < i + n
      ensures h(at).None?
    {
      assert h(at) == FieldAt(buf, name, at);
      AtByte(buf, i, Literal(items), at - i);
      if buf[at] != QUOTE {
        QuietByte(buf, name, at);
      } else if at == i + n - 1 {
        if Occurs(buf, Key(name), at) {
          AtByte(buf, at, Key(name), 1);
        }
      } else {
        QuotesEscaped(items, at - i - 1);
        AtByte(buf, i, Literal(items), at - i - 1);
        assert Back(buf, at) == at - 1;
      }
    }
  }

  // ------------------------------------------------------------- reading through

  /** What is still to be read from an offset on: the finished values, and
      whether no value is left open. */
  datatype Ahead = Ahead(bodies: seq<Bytes>, closed: bool)

  ghost predicate NoneOpen(r: Preview.Reader, n: nat, from: nat)
    requires Preview.Forward(r, n)
    decreases n - from
  {
    match NextField(r, n, from)
    case None => true
    case Some(at) =>
      match r(at).value
      case Open => false
      case Closed(_, next) => NoneOpen(r, n, next)
  }

  ghost function AheadIn(buf: Bytes, name: Bytes, from: nat): Ahead {
    var r := Preview.ReaderOf(buf, name);
    Ahead(Preview.Strings(r, |buf|, from), NoneOpen(r, |buf|, from))
  }

  /** What may follow a value: the end, or blanks and then no colon. */
  predicate After(buf: Bytes, j: nat) {
    && j <= |buf|
    && (Skip(buf, j) < |buf| ==> buf[Skip(buf, j)] != COLON)
    && (j < |buf| ==> !IsLetter(buf[j]))
  }

  lemma AfterPad(buf: Bytes, j: nat, pad: Pad)
    requires At(buf, j, pad)
    requires var e := j + |pad|;
      e < |buf| ==> buf[e] == COMMA || buf[e] == RBRACKET || buf[e] == RBRACE
    ensures After(buf, j)
  {
    SkipPad(buf, j, pad);
    if pad != [] {
      AtByte(buf, j, pad, 0);
    }
  }

  /** A position where a member name may stand. */
  predicate Opens(buf: Bytes, i: nat) {
    0 < i <= |buf| && (buf[i - 1] == LBRACE || buf[i - 1] == COMMA)
  }

  /** A buffer as the proofs below see it: what is written where, what follows a
      value, where a member may begin, where a field's string begins, and what is
      still to be read. */
  datatype Page = Page(
    at: (nat, Bytes) -> bool, after: nat -> bool, opens: nat -> bool, field: nat -> Option<nat>, ahead: nat -> Ahead)

  ghost predicate Shows(p: Page, buf: Bytes, name: Bytes) {
    && FieldName(name)
    && (forall i: nat, s: Bytes {:trigger At(buf, i, s)} :: p.at(i, s) == At(buf, i, s))
    && (forall i: nat {:trigger After(buf, i)} :: p.after(i) == After(buf, i))
    && (forall i: nat {:trigger Opens(buf, i)} :: p.opens(i) == Opens(buf, i))
    && (forall i: nat {:trigger FieldAt(buf, name, i)} :: p.field(i) == FieldAt(buf, name, i))
    && (forall i: nat {:trigger AheadIn(buf, name, i)} :: p.ahead(i) == AheadIn(buf, name, i))
  }

  ghost function PageOf(buf: Bytes, name: Bytes): (p: Page)
    ensures FieldName(name) ==> Shows(p, buf, name)
  {
    Page((i: nat, s: Bytes) => At(buf, i, s), (i: nat) => After(buf, i), (i: nat) => Opens(buf, i),
         (i: nat) => FieldAt(buf, name, i), (i: nat) => AheadIn(buf, name, i))
  }

  /** Between `from` and `to` exactly these values are read. */
  ghost predicate Reads(p: Page, from: nat, to: nat, bodies: seq<Bytes>) {
    p.ahead(from) == Ahead(bodies + p.ahead(to).bodies, p.ahead(to).closed)
  }

  lemma ReadsThen(p: Page, a: nat, b: nat, c: nat, xs: seq<Bytes>, ys: seq<Bytes>)
    requires Reads(p, a, b, xs) && Reads(p, b, c, ys)
    ensures Reads(p, a, c, xs + ys)
  {
    assert xs + (ys + p.ahead(c).bodies) == (xs + ys) + p.ahead(c).bodies;
  }

  lemma ReadsFirst(p: Page, a: nat, b: nat, c: nat, ys: seq<Bytes>)
    requires Reads(p, a, b, []) && Reads(p, b, c, ys)
    ensures Reads(p, a, c, ys)
  {
    ReadsThen(p, a, b, c, [], ys);
    assert [] + ys == ys;
  }

  lemma ReadsLast(p: Page, a: nat, b: nat, c: nat, xs: seq<Bytes>)
    requires Reads(p, a, b, xs) && Reads(p, b, c, [])
    ensures Reads(p, a, c, xs)
  {
    ReadsThen(p, a, b, c, xs, []);
    assert xs + [] == xs;
  }

  lemma Split(p: Page, buf: Bytes, name: Bytes, i: nat, a: Bytes, b: Bytes)
    requires Shows(p, buf, name) && p.at(i, a + b)
    ensures p.at(i, a) && p.at(i + |a|, b)
  {
    assert At(buf, i, a + b);
    AtSplit(buf, i, a, b);
  }

  /** A stretch without a field is passed over. */
  lemma Pass(p: Page, buf: Bytes, name: Bytes, from: nat, to: nat)
    requires Shows(p, buf, name) && from <= to && NoField(ProbeOf(buf, name), from, to)
    ensures Reads(p, from, to, [])
  {
    var r := Preview.ReaderOf(buf, name);
    Preview.SkipTogether(ProbeOf(buf, name), r, buf, name, from, to);
    SameAhead(r, |buf|, from, to);
    assert p.ahead(from) == AheadIn(buf, name, from) && p.ahead(to) == AheadIn(buf, name, to);
  }

  lemma {:induction false} SameAhead(r: Preview.Reader, n: nat, from: nat, to: nat)
    requires Preview.Forward(r, n) && NextField(r, n, from) == NextField(r, n, to)
    ensures Preview.Strings(r, n, from) == Preview.Strings(r, n, to)
    ensures NoneOpen(r, n, from) == NoneOpen(r, n, to)
  {
  }

  lemma Quiet(p: Page, buf: Bytes, name: Bytes, i: nat, s: Bytes)
    requires Shows(p, buf, name) && p.at(i, s) && NoQuote(s)
    ensures Reads(p, i, i + |s|, [])
  {
    assert At(buf, i, s);
    forall k | i <= k < i + |s|
      ensures buf[k] != QUOTE
    {
      AtByte(buf, i, s, k - i);
    }
    QuietStretch(buf, name, ProbeOf(buf, name), i, i + |s|);
    Pass(p, buf, name, i, i + |s|);
  }

  predicate NoQuote(s: Bytes) {
    forall k :: 0 <= k < |s| ==> s[k] != QUOTE
  }

  lemma PadIsQuiet(pad: Pad)
    ensures NoQuote(pad)
  {
  }

  /** A field with a finished value yields it. */
  lemma {:induction false} ReaderFinds(buf: Bytes, name: Bytes, k: nat, start: nat)
    requires k < |buf| && FieldAt(buf, name, k) == Some(start)
    ensures var r := Preview.ReaderOf(buf, name);
      r(k) == Some(Preview.ReadAt(buf, start)) && NextField(r, |buf|, k) == Some(k)
  {
    var h := ProbeOf(buf, name);
    assert h(k) == FieldAt(buf, name, k);
    Preview.FoundHere(h, Preview.ReaderOf(buf, name), buf, name, k);
  }

  lemma {:induction false} FieldAhead(buf: Bytes, name: Bytes, k: nat, body: Bytes, next: nat)
    requires var r := Preview.ReaderOf(buf, name);
      r(k) == Some(Preview.Closed(body, next)) && NextField(r, |buf|, k) == Some(k)
    ensures var rest := AheadIn(buf, name, next);
      AheadIn(buf, name, k) == Ahead([body] + rest.bodies, rest.closed)
  {
    AheadOfField(Preview.ReaderOf(buf, name), |buf|, k, body, next);
  }

  lemma {:induction false} ReadField(p: Page, buf: Bytes, name: Bytes, k: nat, body: Bytes, next: nat)
    requires Shows(p, buf, name)
    requires var r := Preview.ReaderOf(buf, name);
      r(k) == Some(Preview.Closed(body, next)) && NextField(r, |buf|, k) == Some(k)
    ensures Reads(p, k, next, [body])
  {
    FieldAhead(buf, name, k, body, next);
    assert p.ahead(k) == AheadIn(buf, name, k) && p.ahead(next) == AheadIn(buf, name, next);
  }

  lemma {:induction false} AheadOfField(r: Preview.Reader, n: nat, k: nat, body: Bytes, next: nat)
    requires Preview.Forward(r, n) && NextField(r, n, k) == Some(k) && r(k) == Some(Preview.Closed(body, next))
    ensures Preview.Strings(r, n, k) == [body] + Preview.Strings(r, n, next)
    ensures NoneOpen(r, n, k) == NoneOpen(r, n, next)
  {
  }

  lemma {:induction false} ReadBody(buf: Bytes, start: nat, items: seq<Item>)
    requires At(buf, start, Body(items) + [QUOTE])
    ensures Preview.ReadAt(buf, start) == Preview.Closed(Body(items), start + |Body(items)| + 1)
  {
    CloseAt(buf, start, items);
    AtSplit(buf, start, Body(items), [QUOTE]);
  }

  /** A literal that is not followed by a colon is no field. */
  lemma NoKeyHere(buf: Bytes, name: Bytes, i: nat, items: seq<Item>)
    requires FieldName(name) && At(buf, i, Literal(items)) && After(buf, i + |Literal(items)|)
    ensures FieldAt(buf, name, i).None?
  {
    LiteralIsKey(buf, i, items, name);
  }

  /** A string that is not a member name is passed over. */
  lemma PassLiteral(p: Page, buf: Bytes, name: Bytes, i: nat, items: seq<Item>)
    requires Shows(p, buf, name) && p.at(i, Literal(items)) && p.after(i + |Literal(items)|)
    ensures Reads(p, i, i + |Literal(items)|, [])
  {
    var h := ProbeOf(buf, name);
    assert At(buf, i, Literal(items)) && After(buf, i + |Literal(items)|);
    LiteralInside(buf, i, items, name, h);
    NoKeyHere(buf, name, i, items);
    assert h(i) == FieldAt(buf, name, i);
    Pass(p, buf, name, i, i + |Literal(items)|);
  }

  // ------------------------------------------------------------------- members

  lemma {:induction false} PrintHead(v: Value)
    ensures Print(v) != [] && !IsSpace(Print(v)[0])
    ensures Print(v)[0] == QUOTE <==> v.Str?
  {
    match v
    case Scalar(text) => assert AtomByte(text[0]);
    case Str(_) =>
    case Arr(_, _) =>
    case Obj(_, _) =>
  }

  /** The text between a member name and its value. */
  function Between(mid: Pad, sep: Pad): Bytes {
    mid + ([COLON] + sep)
  }

  lemma ValueAfterColon(buf: Bytes, m: nat, mid: Pad, sep: Pad, head: Byte)
    requires At(buf, m, Between(mid, sep)) && !IsSpace(head)
    requires var v := m + |Between(mid, sep)|; v < |buf| && buf[v] == head
    ensures ValueAfter(buf, m) ==
      if head == QUOTE then Some(m + |Between(mid, sep)| + 1) else None
  {
    var c := m + |mid|;
    AtSplit(buf, m, mid, [COLON] + sep);
    AtSplit(buf, c, [COLON], sep);
    AtByte(buf, c, [COLON], 0);
    SkipPad(buf, m, mid);
    SkipPad(buf, c + 1, sep);
  }

  lemma BetweenIsQuiet(mid: Pad, sep: Pad)
    ensures NoQuote(Between(mid, sep)) && !IsLetter(Between(mid, sep)[0])
  {
    var s := Between(mid, sep);
    forall k | 0 <= k < |s|
      ensures s[k] != QUOTE && !IsLetter(s[k])
    {
      assert k < |mid| ==> s[k] == mid[k];
      assert k > |mid| ==> s[k] == sep[k - |mid| - 1];
    }
  }

  lemma StructuralAfter(buf: Bytes, i: nat, before: Pad)
    requires Opens(buf, i) && At(buf, i, before)
    ensures Structural(buf, i + |before|)
  {
    BackPad(buf, i, before);
  }

  /** What stands behind the literal at k, in the place of a member name. */
  ghost predicate NameAt(buf: Bytes, k: nat, key: seq<Item>, gap: nat, head: Byte) {
    && At(buf, k, Literal(key)) && Structural(buf, k)
    && k + |Literal(key)| <= |buf|
    && ValueAfter(buf, k + |Literal(key)|) ==
       if head == QUOTE then Some(k + |Literal(key)| + gap + 1) else None
  }

  lemma {:induction false} KeyIsField(buf: Bytes, name: Bytes, k: nat, key: seq<Item>, gap: nat, head: Byte)
    requires FieldName(name) && NameAt(buf, k, key, gap, head) && Body(key) == name
    ensures FieldAt(buf, name, k) ==
      if head == QUOTE then Some(k + |Literal(key)| + gap + 1) else None
  {
    LiteralIsKey(buf, k, key, name);
    FieldHere(buf, name, k);
  }

  lemma FieldHere(buf: Bytes, name: Bytes, k: nat)
    requires Occurs(buf, Key(name), k) && Structural(buf, k)
    ensures FieldAt(buf, name, k) == ValueAfter(buf, k + |name| + 2)
  {
  }

  lemma {:induction false} KeyIsOther(buf: Bytes, name: Bytes, k: nat, key: seq<Item>)
    requires FieldName(name) && At(buf, k, Literal(key)) && Body(key) != name
    ensures FieldAt(buf, name, k).None?
  {
    LiteralIsKey(buf, k, key, name);
  }

  /** A member name that is not the field is passed over. */
  lemma PassKey(p: Page, buf: Bytes, name: Bytes, k: nat, key: seq<Item>)
    requires Shows(p, buf, name) && At(buf, k, Literal(key)) && FieldAt(buf, name, k).None?
    requires k + |Literal(key)| < |buf| && !IsLetter(buf[k + |Literal(key)|])
    ensures Reads(p, k, k + |Literal(key)|, [])
  {
    var h := ProbeOf(buf, name);
    LiteralInside(buf, k, key, name, h);
    assert h(k) == FieldAt(buf, name, k);
    Pass(p, buf, name, k, k + |Literal(key)|);
  }

  lemma NameStands(buf: Bytes, i: nat, before: Pad, key: seq<Item>, mid: Pad, sep: Pad, head: Byte)
    requires Opens(buf, i) && At(buf, i, before) && At(buf, i + |before|, Literal(key))
    requires var m := i + |before| + |Literal(key)|;
      At(buf, m, Between(mid, sep)) && !IsSpace(head)
      && m + |Between(mid, sep)| < |buf| && buf[m + |Between(mid, sep)|] == head
    ensures NameAt(buf, i + |before|, key, |Between(mid, sep)|, head)
  {
    StructuralAfter(buf, i, before);
    ValueAfterColon(buf, i + |before| + |Literal(key)|, mid, sep, head);
  }

  /** Whether the literal at k is the field, seen in the buffer. */
  lemma {:induction false} FieldOfName(buf: Bytes, name: Bytes, k: nat, key: seq<Item>, gap: nat, head: Byte)
    requires FieldName(name) && NameAt(buf, k, key, gap, head)
    ensures FieldAt(buf, name, k) ==
      if Body(key) == name && head == QUOTE then Some(k + |Literal(key)| + gap + 1) else None
  {
    if Body(key) == name {
      KeyIsField(buf, name, k, key, gap, head);
    } else {
      KeyIsOther(buf, name, k, key);
    }
  }

  /** A name that is not the field, and what separates it from its value. */
  lemma PassName(p: Page, buf: Bytes, name: Bytes, k: nat, key: seq<Item>, mid: Pad, sep: Pad)
    requires Shows(p, buf, name) && p.at(k, Literal(key)) && p.at(k + |Literal(key)|, Between(mid, sep))
    requires p.field(k).None?
    ensures Reads(p, k, k + |Literal(key)| + |Between(mid, sep)|, [])
  {
    assert FieldAt(buf, name, k).None?;
    var m := k + |Literal(key)|;
    assert At(buf, k, Literal(key)) && At(buf, m, Between(mid, sep));
    BetweenIsQuiet(mid, sep);
    AtByte(buf, m, Between(mid, sep), 0);
    PassKey(p, buf, name, k, key);
    Quiet(p, buf, name, m, Between(mid, sep));
    ReadsFirst(p, k, m, m + |Between(mid, sep)|, []);
  }

  /** Name of a member with this printed value: the field is there when the name
      and the kind of value are right, and otherwise the name is passed over. */
  lemma {:induction false} ReadName(p: Page, buf: Bytes, name: Bytes, i: nat, before: Pad, key: seq<Item>, mid: Pad,
                                    sep: Pad, value: Bytes)
    requires Shows(p, buf, name) && p.opens(i) && value != [] && !IsSpace(value[0])
    requires p.at(i, before) && p.at(i + |before|, Literal(key))
    requires p.at(i + |before| + |Literal(key)|, Between(mid, sep))
    requires p.at(i + |before| + |Literal(key)| + |Between(mid, sep)|, value)
    ensures var v := i + |before| + |Literal(key)| + |Between(mid, sep)|;
      if Body(key) == name && value[0] == QUOTE
      then p.field(i + |before|) == Some(v + 1) && i + |before| < |buf|
      else Reads(p, i + |before|, v, [])
  {
    NameInBuffer(p, buf, name, i, before, key, mid, sep, value);
    ReadNameAt(p, buf, name, i + |before|, key, mid, sep, value[0]);
  }

  lemma {:induction false} ReadNameAt(p: Page, buf: Bytes, name: Bytes, k: nat, key: seq<Item>, mid: Pad, sep: Pad,
    head: Byte)
    requires Shows(p, buf, name) && NameAt(buf, k, key, |Between(mid, sep)|, head)
    requires p.at(k, Literal(key)) && p.at(k + |Literal(key)|, Between(mid, sep))
    ensures var v := k + |Literal(key)| + |Between(mid, sep)|;
      if Body(key) == name && head == QUOTE then p.field(k) == Some(v + 1) else Reads(p, k, v, [])
  {
    assert p.field(k) == FieldAt(buf, name, k);
    FieldOfName(buf, name, k, key, |Between(mid, sep)|, head);
    if !(Body(key) == name && head == QUOTE) {
      PassName(p, buf, name, k, key, mid, sep);
    }
  }

  lemma NameInBuffer(p: Page, buf: Bytes, name: Bytes, i: nat, before: Pad, key: seq<Item>, mid: Pad, sep: Pad,
                     value: Bytes)
    requires Shows(p, buf, name) && p.opens(i) && value != [] && !IsSpace(value[0])
    requires p.at(i, before) && p.at(i + |before|, Literal(key))
    requires p.at(i + |before| + |Literal(key)|, Between(mid, sep))
    requires p.at(i + |before| + |Literal(key)| + |Between(mid, sep)|, value)
    ensures NameAt(buf, i + |before|, key, |Between(mid, sep)|, value[0]) && i + |before| < |buf|
  {
    var k := i + |before|;
    var m := k + |Literal(key)|;
    var v := m + |Between(mid, sep)|;
    assert Opens(buf, i) && At(buf, i, before) && At(buf, k, Literal(key));
    assert At(buf, m, Between(mid, sep)) && At(buf, v, value);
    AtByte(buf, v, value, 0);
    NameStands(buf, i, before, key, mid, sep, value[0]);
  }

  /** A printed string value, read from behind its opening quote. */
  lemma {:induction false} LiteralCloses(buf: Bytes, v: nat, items: seq<Item>)
    requires At(buf, v, Literal(items))
    ensures Preview.ReadAt(buf, v + 1) == Preview.Closed(Body(items), v + |Literal(items)|)
  {
    AtSplit(buf, v, [QUOTE], Body(items) + [QUOTE]);
    ReadBody(buf, v + 1, items);
  }

  lemma ReadFound(p: Page, buf: Bytes, name: Bytes, k: nat, start: nat, body: Bytes, next: nat)
    requires Shows(p, buf, name) && k < |buf| && FieldAt(buf, name, k) == Some(start)
    requires Preview.ReadAt(buf, start) == Preview.Closed(body, next)
    ensures Reads(p, k, next, [body])
  {
    ReaderFinds(buf, name, k, start);
    ReadField(p, buf, name, k, body, next);
  }

  lemma {:induction false} ReadWanted(p: Page, buf: Bytes, name: Bytes, k: nat, v: nat, items: seq<Item>)
    requires Shows(p, buf, name) && p.at(v, Literal(items)) && k < |buf| && p.field(k) == Some(v + 1)
    ensures Reads(p, k, v + |Literal(items)|, [Body(items)])
  {
    assert FieldAt(buf, name, k) == Some(v + 1);
    assert At(buf, v, Literal(items));
    LiteralCloses(buf, v, items);
    ReadFound(p, buf, name, k, v + 1, Body(items), v + |Literal(items)|);
  }

  ghost function ValuePos(i: nat, ms: Members): nat
    requires ms.Member?
  {
    i + |ms.before| + |Literal(ms.key)| + |Between(ms.mid, ms.sep)|
  }

  /** Where the parts of a member are written. */
  lemma {:induction false} LayMember(p: Page, buf: Bytes, name: Bytes, i: nat, ms: Members)
    requires Shows(p, buf, name) && ms.Member? && p.at(i, PrintMembers(ms))
    ensures p.at(i, ms.before) && p.at(i + |ms.before|, Literal(ms.key))
    ensures p.at(i + |ms.before| + |Literal(ms.key)|, Between(ms.mid, ms.sep))
    ensures p.at(ValuePos(i, ms), Print(ms.value))
    ensures p.at(ValuePos(i, ms) + |Print(ms.value)|, ms.after + MoreMembers(ms.more))
    ensures i + |PrintMembers(ms)| == ValuePos(i, ms) + |Print(ms.value)| + |ms.after| + |MoreMembers(ms.more)|
  {
    var d := ms.after + MoreMembers(ms.more);
    var rest := Print(ms.value) + d;
    var tail := ms.mid + ([COLON] + (ms.sep + rest));
    Split(p, buf, name, i, ms.before, Literal(ms.key) + tail);
    Split(p, buf, name, i + |ms.before|, Literal(ms.key), tail);
    Regroup(ms.mid, ms.sep, rest);
    Split(p, buf, name, i + |ms.before| + |Literal(ms.key)|, Between(ms.mid, ms.sep), rest);
    Split(p, buf, name, ValuePos(i, ms), Print(ms.value), d);
  }

  lemma Regroup(mid: Pad, sep: Pad, rest: Bytes)
    ensures mid + ([COLON] + (sep + rest)) == Between(mid, sep) + rest
  {
  }

  /** The blanks in front of a member name. */
  lemma {:induction false} ReadLead(p: Page, buf: Bytes, name: Bytes, i: nat, ms: Members)
    requires Shows(p, buf, name) && ms.Member? && p.at(i, PrintMembers(ms))
    ensures Reads(p, i, i + |ms.before|, [])
  {
    LayMember(p, buf, name, i, ms);
    PadIsQuiet(ms.before);
    Quiet(p, buf, name, i, ms.before);
  }

  predicate Wanted(ms: Members, name: Bytes)
    requires ms.Member?
  {
    Body(ms.key) == name && ms.value.Str?
  }

  /** A name that is looked for, then its string. */
  lemma {:induction false} ReadNameAndString(p: Page, buf: Bytes, name: Bytes, i: nat, before: Pad, key: seq<Item>,
    mid: Pad, sep: Pad, items: seq<Item>)
    requires Shows(p, buf, name) && p.opens(i) && Body(key) == name
    requires p.at(i, before) && p.at(i + |before|, Literal(key))
    requires p.at(i + |before| + |Literal(key)|, Between(mid, sep))
    requires p.at(i + |before| + |Literal(key)| + |Between(mid, sep)|, Literal(items))
    ensures var v := i + |before| + |Literal(key)| + |Between(mid, sep)|;
      Reads(p, i + |before|, v + |Literal(items)|, [Body(items)])
  {
    ReadName(p, buf, name, i, before, key, mid, sep, Literal(items));
    ReadWanted(p, buf, name, i + |before|, i + |before| + |Literal(key)| + |Between(mid, sep)|, items);
  }

  /** Name and value of a member that is looked for. */
  lemma {:induction false} ReadWantedMember(p: Page, buf: Bytes, name: Bytes, i: nat, ms: Members)
    requires Shows(p, buf, name) && ms.Member? && p.at(i, PrintMembers(ms)) && p.opens(i) && Wanted(ms, name)
    ensures Reads(p, i, ValuePos(i, ms) + |Print(ms.value)|, [Body(ms.value.items)])
  {
    LayMember(p, buf, name, i, ms);
    ReadLead(p, buf, name, i, ms);
    ReadNameAndString(p, buf, name, i, ms.before, ms.key, ms.mid, ms.sep, ms.value.items);
    ReadsFirst(p, i, i + |ms.before|, ValuePos(i, ms) + |Print(ms.value)|, [Body(ms.value.items)]);
  }

  lemma {:induction false} PassMemberName(p: Page, buf: Bytes, name: Bytes, i: nat, ms: Members)
    requires Shows(p, buf, name) && ms.Member? && p.at(i, PrintMembers(ms)) && p.opens(i) && !Wanted(ms, name)
    ensures Reads(p, i + |ms.before|, ValuePos(i, ms), [])
  {
    LayMember(p, buf, name, i, ms);
    PrintHead(ms.value);
    ReadName(p, buf, name, i, ms.before, ms.key, ms.mid, ms.sep, Print(ms.value));
  }

  /** Any other member, up to its value. */
  lemma {:induction false} ReadOtherName(p: Page, buf: Bytes, name: Bytes, i: nat, ms: Members)
    requires Shows(p, buf, name) && ms.Member? && p.at(i, PrintMembers(ms)) && p.opens(i) && !Wanted(ms, name)
    ensures Reads(p, i, ValuePos(i, ms), [])
  {
    ReadLead(p, buf, name, i, ms);
    PassMemberName(p, buf, name, i, ms);
    ReadsFirst(p, i, i + |ms.before|, ValuePos(i, ms), []);
  }

  // ----------------------------------------------------------- whole documents

  /** The fields of a list or an object are those of what it encloses. */
  lemma FieldsInside(v: Value, name: Bytes)
    ensures v.Scalar? || v.Str? ==> Fields(v, name) == []
    ensures v.Arr? ==> Fields(v, name) == if v.elems.NoElems? then [] else ElemFields(v.elems, Spelled(name))
    ensures v.Obj? ==> Fields(v, name) == if v.members.NoMembers? then [] else MemberFields(v.members, Spelled(name))
  {
    var names := Spelled(name);
    match v
    case Scalar(_) =>
    case Str(_) =>
    case Arr(_, elems) => assert FieldsBy(v, names) == ElemFields(elems, names);
    case Obj(_, members) => assert FieldsBy(v, names) == MemberFields(members, names);
  }

  /** A scalar, a string, and what encloses nothing hold no field. */
  lemma {:induction false} ReadLeaf(p: Page, buf: Bytes, name: Bytes, i: nat, v: Value)
    requires Shows(p, buf, name) && p.at(i, Print(v)) && p.after(i + |Print(v)|)
    requires (v.Arr? ==> v.elems.NoElems?) && (v.Obj? ==> v.members.NoMembers?)
    ensures Reads(p, i, i + |Print(v)|, [])
  {
    match v
    case Scalar(text) =>
      assert NoQuote(text);
      Quiet(p, buf, name, i, text);
    case Str(items) =>
      PassLiteral(p, buf, name, i, items);
    case Arr(pad, _) =>
      PadIsQuiet(pad);
      ReadEmpty(p, buf, name, i, LBRACKET, pad, RBRACKET);
    case Obj(pad, _) =>
      PadIsQuiet(pad);
      ReadEmpty(p, buf, name, i, LBRACE, pad, RBRACE);
  }

  /** Over a printed value exactly its fields of that name are read, in document
      order, wherever they are nested. */
  lemma {:induction false} ReadValue(p: Page, buf: Bytes, name: Bytes, i: nat, v: Value)
    requires Shows(p, buf, name) && p.at(i, Print(v)) && p.after(i + |Print(v)|)
    ensures Reads(p, i, i + |Print(v)|, Bodies(Fields(v, name)))
    decreases v
  {
    FieldsInside(v, name);
    if v.Arr? && v.elems.Elem? {
      ReadArray(p, buf, name, i, v.elems);
    } else if v.Obj? && v.members.Member? {
      ReadObject(p, buf, name, i, v.members);
    } else {
      ReadLeaf(p, buf, name, i, v);
      assert Bodies([]) == [];
    }
  }

  lemma {:induction false} ReadArray(p: Page, buf: Bytes, name: Bytes, i: nat, elems: Elems)
    requires Shows(p, buf, name) && elems.Elem? && p.at(i, [LBRACKET] + (PrintElems(elems) + [RBRACKET]))
    ensures Reads(p, i, i + |[LBRACKET] + (PrintElems(elems) + [RBRACKET])|, Bodies(ElemFields(elems, Spelled(name))))
    decreases elems, 3
  {
    var inner := PrintElems(elems);
    Enclosed(p, buf, name, i, LBRACKET, inner, RBRACKET);
    ReadElems(p, buf, name, i + 1, elems);
    Surrounded(p, buf, name, i, LBRACKET, |inner|, RBRACKET, Bodies(ElemFields(elems, Spelled(name))));
  }

  lemma {:induction false} ReadObject(p: Page, buf: Bytes, name: Bytes, i: nat, members: Members)
    requires Shows(p, buf, name) && members.Member? && p.at(i, [LBRACE] + (PrintMembers(members) + [RBRACE]))
    ensures Reads(p, i, i + |[LBRACE] + (PrintMembers(members) + [RBRACE])|,
      Bodies(MemberFields(members, Spelled(name))))
    decreases members, 3
  {
    var inner := PrintMembers(members);
    Enclosed(p, buf, name, i, LBRACE, inner, RBRACE);
    ReadMembers(p, buf, name, i + 1, members);
    Surrounded(p, buf, name, i, LBRACE, |inner|, RBRACE, Bodies(MemberFields(members, Spelled(name))));
  }

  lemma Enclosed(p: Page, buf: Bytes, name: Bytes, i: nat, open: Byte, inner: Bytes, close: Byte)
    requires Shows(p, buf, name) && p.at(i, [open] + (inner + [close]))
    ensures p.at(i, [open]) && p.at(i + 1, inner) && p.at(i + 1 + |inner|, [close])
    ensures open == LBRACE ==> p.opens(i + 1)
  {
    Split(p, buf, name, i, [open], inner + [close]);
    Split(p, buf, name, i + 1, inner, [close]);
    assert At(buf, i, [open]);
    AtByte(buf, i, [open], 0);
    assert p.opens(i + 1) == Opens(buf, i + 1);
  }

  lemma Surrounded(p: Page, buf: Bytes, name: Bytes, i: nat, open: Byte, n: nat, close: Byte, bodies: seq<Bytes>)
    requires Shows(p, buf, name) && open != QUOTE && close != QUOTE
    requires p.at(i, [open]) && p.at(i + 1 + n, [close])
    requires Reads(p, i + 1, i + 1 + n, bodies)
    ensures Reads(p, i, i + 2 + n, bodies)
  {
    var j := i + 1 + n;
    Quiet(p, buf, name, i, [open]);
    Quiet(p, buf, name, j, [close]);
    ReadsFirst(p, i, i + 1, j, bodies);
    ReadsLast(p, i, j, j + 1, bodies);
  }

  lemma ReadEmpty(p: Page, buf: Bytes, name: Bytes, i: nat, open: Byte, pad: Pad, close: Byte)
    requires Shows(p, buf, name) && open != QUOTE && close != QUOTE && NoQuote(pad)
    requires p.at(i, [open] + (pad + [close]))
    ensures Reads(p, i, i + 2 + |pad|, [])
  {
    Enclosed(p, buf, name, i, open, pad, close);
    Quiet(p, buf, name, i + 1, pad);
    Surrounded(p, buf, name, i, open, |pad|, close, []);
  }

  /** The blanks behind a value and the comma, if there is one. */
  lemma ReadTail(p: Page, buf: Bytes, name: Bytes, i: nat, e: nat, after: Pad, comma: Bytes, xs: seq<Bytes>)
    requires Shows(p, buf, name) && p.at(e, after) && p.at(e + |after|, comma)
    requires comma == [] || comma == [COMMA]
    requires Reads(p, i, e, xs)
    ensures Reads(p, i, e + |after| + |comma|, xs)
  {
    var c := e + |after|;
    PadIsQuiet(after);
    Quiet(p, buf, name, e, after);
    Quiet(p, buf, name, c, comma);
    ReadsLast(p, i, e, c, xs);
    ReadsLast(p, i, c, c + |comma|, xs);
  }

  /** Behind a value: its blanks, then a comma and more, or the closing bracket. */
  lemma LayTail(p: Page, buf: Bytes, name: Bytes, e: nat, after: Pad, more: Bytes, rest: Bytes, close: Byte)
    requires Shows(p, buf, name) && p.at(e, after + more)
    requires more == [] || more == [COMMA] + rest
    requires close == RBRACKET || close == RBRACE
    requires p.at(e + |after| + |more|, [close])
    ensures p.at(e, after) && p.after(e)
    ensures p.at(e + |after|, if more == [] then [] else [COMMA])
    ensures more != [] ==> p.at(e + |after| + 1, rest) && p.opens(e + |after| + 1)
  {
    var c := e + |after|;
    Split(p, buf, name, e, after, more);
    assert At(buf, e, after) && At(buf, c, more) && At(buf, c + |more|, [close]);
    AtByte(buf, c + |more|, [close], 0);
    if more != [] {
      Split(p, buf, name, c, [COMMA], rest);
      assert At(buf, c, [COMMA]);
      AtByte(buf, c, [COMMA], 0);
      assert p.opens(c + 1) == Opens(buf, c + 1);
    }
    AfterPad(buf, e, after);
    assert p.after(e) == After(buf, e);
  }

  /** From the first value through its tail to the rest. */
  lemma ReadRest(p: Page, i: nat, c: nat, rest: Bytes, xs: seq<seq<Item>>, ys: seq<seq<Item>>)
    requires Reads(p, i, c, Bodies(xs)) && Reads(p, c, c + |rest|, Bodies(ys))
    ensures Reads(p, i, c + |rest|, Bodies(xs + ys))
  {
    BodiesAppend(xs, ys);
    ReadsThen(p, i, c, c + |rest|, Bodies(xs), Bodies(ys));
  }

  /** One element with its blanks and the comma behind it. */
  lemma {:induction false} ReadElem(p: Page, buf: Bytes, name: Bytes, i: nat, es: Elems)
    requires Shows(p, buf, name) && es.Elem? && p.at(i, PrintElems(es))
    requires p.at(i + |PrintElems(es)|, [RBRACKET])
    ensures var c := i + |es.before| + |Print(es.value)| + |es.after|;
      && Reads(p, i, c + (if es.more.NoElems? then 0 else 1), Bodies(Fields(es.value, name)))
      && (es.more.Elem? ==> p.at(c + 1, PrintElems(es.more)))
    decreases es, 0
  {
    var v := i + |es.before|;
    var e := v + |Print(es.value)|;
    var more := MoreElems(es.more);
    var xs := Bodies(Fields(es.value, name));
    Split(p, buf, name, i, es.before, Print(es.value) + (es.after + more));
    Split(p, buf, name, v, Print(es.value), es.after + more);
    LayTail(p, buf, name, e, es.after, more, if es.more.NoElems? then [] else PrintElems(es.more), RBRACKET);
    PadIsQuiet(es.before);
    Quiet(p, buf, name, i, es.before);
    ReadValue(p, buf, name, v, es.value);
    ReadsFirst(p, i, v, e, xs);
    ReadTail(p, buf, name, i, e, es.after, if es.more.NoElems? then [] else [COMMA], xs);
  }

  lemma {:induction false} ReadElems(p: Page, buf: Bytes, name: Bytes, i: nat, es: Elems)
    requires Shows(p, buf, name) && es.Elem? && p.at(i, PrintElems(es))
    requires p.at(i + |PrintElems(es)|, [RBRACKET])
    ensures Reads(p, i, i + |PrintElems(es)|, Bodies(ElemFields(es, Spelled(name))))
    decreases es, 1
  {
    var c := i + |es.before| + |Print(es.value)| + |es.after|;
    ReadElem(p, buf, name, i, es);
    if es.more.Elem? {
      ReadElems(p, buf, name, c + 1, es.more);
      ReadRest(p, i, c + 1, PrintElems(es.more), Fields(es.value, name), ElemFields(es.more, Spelled(name)));
    } else {
      assert ElemFields(es, Spelled(name)) == Fields(es.value, name);
    }
  }

  /** Name and value of one member. */
  lemma {:induction false} ReadNamed(p: Page, buf: Bytes, name: Bytes, i: nat, ms: Members)
    requires Shows(p, buf, name) && ms.Member? && p.at(i, PrintMembers(ms)) && p.opens(i)
    requires p.at(ValuePos(i, ms), Print(ms.value)) && p.after(ValuePos(i, ms) + |Print(ms.value)|)
    ensures Reads(p, i, ValuePos(i, ms) + |Print(ms.value)|, Bodies(OwnFields(ms, Spelled(name))))
    decreases ms, 0
  {
    var v := ValuePos(i, ms);
    if Wanted(ms, name) {
      ReadWantedMember(p, buf, name, i, ms);
      assert Bodies(OwnFields(ms, Spelled(name))) == [Body(ms.value.items)];
    } else {
      ReadOtherName(p, buf, name, i, ms);
      ReadValue(p, buf, name, v, ms.value);
      ReadsFirst(p, i, v, v + |Print(ms.value)|, Bodies(OwnFields(ms, Spelled(name))));
    }
  }

  function RestMembers(ms: Members): Bytes {
    if ms.NoMembers? then [] else PrintMembers(ms)
  }

  lemma {:induction false} LayBehind(p: Page, buf: Bytes, name: Bytes, i: nat, ms: Members)
    requires Shows(p, buf, name) && ms.Member? && p.at(i, PrintMembers(ms))
    ensures p.at(ValuePos(i, ms), Print(ms.value))
    ensures p.at(ValuePos(i, ms) + |Print(ms.value)|, ms.after + MoreMembers(ms.more))
    ensures i + |PrintMembers(ms)| == ValuePos(i, ms) + |Print(ms.value)| + |ms.after| + |MoreMembers(ms.more)|
  {
    LayMember(p, buf, name, i, ms);
  }

  /** What stands behind the value of a member. */
  lemma {:induction false} LayMemberTail(p: Page, buf: Bytes, name: Bytes, i: nat, ms: Members)
    requires Shows(p, buf, name) && ms.Member? && p.at(i, PrintMembers(ms))
    requires p.at(i + |PrintMembers(ms)|, [RBRACE])
    ensures var e := ValuePos(i, ms) + |Print(ms.value)|;
      && p.at(ValuePos(i, ms), Print(ms.value)) && p.after(e) && p.at(e, ms.after)
      && p.at(e + |ms.after|, if ms.more.NoMembers? then [] else [COMMA])
      && (ms.more.Member? ==> p.at(e + |ms.after| + 1, PrintMembers(ms.more)) && p.opens(e + |ms.after| + 1))
      && i + |PrintMembers(ms)| == e + |ms.after| + |MoreMembers(ms.more)|
  {
    LayBehind(p, buf, name, i, ms);
    var more, rest := MoreMembers(ms.more), RestMembers(ms.more);
    assert more == [] || more == [COMMA] + rest;
    LayTail(p, buf, name, ValuePos(i, ms) + |Print(ms.value)|, ms.after, more, rest, RBRACE);
  }

  /** One member with its blanks and the comma behind it. */
  lemma {:induction false} ReadOneMember(p: Page, buf: Bytes, name: Bytes, i: nat, ms: Members)
    requires Shows(p, buf, name) && ms.Member? && p.at(i, PrintMembers(ms)) && p.opens(i)
    requires p.at(i + |PrintMembers(ms)|, [RBRACE])
    ensures var c := ValuePos(i, ms) + |Print(ms.value)| + |ms.after|;
      && Reads(p, i, c + (if ms.more.NoMembers? then 0 else 1), Bodies(OwnFields(ms, Spelled(name))))
      && (ms.more.Member? ==> p.at(c + 1, PrintMembers(ms.more)) && p.opens(c + 1))
      && i + |PrintMembers(ms)| == c + |MoreMembers(ms.more)|
    decreases ms, 1
  {
    var e := ValuePos(i, ms) + |Print(ms.value)|;
    LayMemberTail(p, buf, name, i, ms);
    ReadNamed(p, buf, name, i, ms);
    ReadTail(p, buf, name, i, e, ms.after, if ms.more.NoMembers? then [] else [COMMA],
      Bodies(OwnFields(ms, Spelled(name))));
  }

  lemma {:induction false} ReadMembers(p: Page, buf: Bytes, name: Bytes, i: nat, ms: Members)
    requires Shows(p, buf, name) && ms.Member? && p.at(i, PrintMembers(ms)) && p.opens(i)
    requires p.at(i + |PrintMembers(ms)|, [RBRACE])
    ensures Reads(p, i, i + |PrintMembers(ms)|, Bodies(MemberFields(ms, Spelled(name))))
    decreases ms, 2
  {
    var c := ValuePos(i, ms) + |Print(ms.value)| + |ms.after|;
    ReadOneMember(p, buf, name, i, ms);
    if ms.more.Member? {
      ReadMembers(p, buf, name, c + 1, ms.more);
      ReadRest(p, i, c + 1, PrintMembers(ms.more), OwnFields(ms, Spelled(name)), MemberFields(ms.more, Spelled(name)));
    } else {
      assert MemberFields(ms, Spelled(name)) == OwnFields(ms, Spelled(name));
    }
  }

  /** A document with the blanks around it. */
  function Document(lead: Pad, v: Value, trail: Pad): Bytes {
    lead + (Print(v) + trail)
  }

  /** Where the parts of a document are written. */
  lemma {:induction false} LayDocument(p: Page, buf: Bytes, name: Bytes, lead: Pad, v: Value, trail: Pad)
    requires Shows(p, buf, name) && buf == Document(lead, v, trail)
    ensures p.at(0, lead) && p.at(|lead|, Print(v)) && p.at(|lead| + |Print(v)|, trail)
    ensures |buf| == |lead| + |Print(v)| + |trail|
  {
    assert buf[0..|buf|] == buf;
    assert At(buf, 0, buf);
    Split(p, buf, name, 0, lead, Print(v) + trail);
    Split(p, buf, name, |lead|, Print(v), trail);
  }

  /** Nothing but blanks follows the value. */
  lemma AfterDocument(p: Page, buf: Bytes, name: Bytes, j: nat, trail: Pad)
    requires Shows(p, buf, name) && p.at(j, trail) && |buf| == j + |trail|
    ensures p.after(j)
  {
    assert At(buf, j, trail);
    AfterPad(buf, j, trail);
    assert p.after(j) == After(buf, j);
  }

  lemma NothingAhead(p: Page, buf: Bytes, name: Bytes)
    requires Shows(p, buf, name)
    ensures p.ahead(|buf|) == Ahead([], true)
  {
    assert p.ahead(|buf|) == AheadIn(buf, name, |buf|) == Ahead([], true);
  }

  lemma {:induction false} ReadDocument(p: Page, buf: Bytes, name: Bytes, lead: Pad, v: Value, trail: Pad)
    requires Shows(p, buf, name) && buf == Document(lead, v, trail)
    ensures p.ahead(0) == Ahead(Bodies(Fields(v, name)), true)
  {
    var i := |lead|;
    var j := i + |Print(v)|;
    LayDocument(p, buf, name, lead, v, trail);
    AfterDocument(p, buf, name, j, trail);
    PadIsQuiet(lead);
    PadIsQuiet(trail);
    Quiet(p, buf, name, 0, lead);
    Quiet(p, buf, name, j, trail);
    ReadValue(p, buf, name, i, v);
    var bodies := Bodies(Fields(v, name));
    ReadsFirst(p, 0, i, j, bodies);
    ReadsLast(p, 0, j, |buf|, bodies);
    NothingAhead(p, buf, name);
    assert bodies + [] == bodies;
  }

  /** In a whole document the preview's search finds exactly the fields of that
      name, in document order, and all of them finished. */
  lemma {:induction false} StringsOfDocument(lead: Pad, v: Value, trail: Pad, name: Bytes)
    requires FieldName(name)
    ensures var buf := Document(lead, v, trail);
      AheadIn(buf, name, 0) == Ahead(Bodies(Fields(v, name)), true)
  {
    var buf := Document(lead, v, trail);
    var p := PageOf(buf, name);
    ReadDocument(p, buf, name, lead, v, trail);
    assert p.ahead(0) == AheadIn(buf, name, 0);
  }

  /** The first finished value and where it begins. */
  lemma {:induction false} FirstString(buf: Bytes, name: Bytes, items: seq<Item>)
    requires FieldName(name)
    requires var a := AheadIn(buf, name, 0); a.bodies != [] && a.bodies[0] == Body(items)
    ensures exists start: nat :: PartialField.HoldsLiteral(buf, name, items, start)
  {
    var h, r := ProbeOf(buf, name), Preview.ReaderOf(buf, name);
    var at := NextField(r, |buf|, 0).value;
    assert r(at).value.Closed? && r(at).value.body == Body(items);
    FirstReading(buf, name, h, r, at);
    var start := h(at).value;
    ClosedLiteral(buf, start, items);
    assert PartialField.HoldsLiteral(buf, name, items, start);
  }

  lemma {:induction false} FirstReading(buf: Bytes, name: Bytes, h: Probe, r: Preview.Reader, at: nat)
    requires Probes(h, buf, name) && Preview.Reads(r, buf, name) && NextField(r, |buf|, 0) == Some(at)
    ensures NextField(h, |buf|, 0) == Some(at)
    ensures r(at).Some? && h(at).Some? && h(at).value <= |buf| && r(at).value == Preview.ReadAt(buf, h(at).value)
  {
    NextFieldIsFirst(r, |buf|, 0);
    forall k: nat | k <= at
      ensures h(k).Some? == r(k).Some?
    {
      assert h(k) == FieldAt(buf, name, k) && r(k) == Preview.FieldReading(buf, name, k);
    }
    assert r(at) == Preview.FieldReading(buf, name, at);
    assert NoField(h, 0, at);
    NextFieldSkips(h, |buf|, 0, at);
  }

  lemma {:induction false} ClosedLiteral(buf: Bytes, start: nat, items: seq<Item>)
    requires start <= |buf|
    requires Preview.ReadAt(buf, start).Closed? && Preview.ReadAt(buf, start).body == Body(items)
    ensures Body(items) + [QUOTE] <= buf[start..]
  {
    var n := Preview.CloseOf(buf[start..]).value;
    assert buf[start..start + n] == buf[start..][..n];
    assert buf[start..][n] == QUOTE;
  }

  /** On a whole document the answer reader returns the text of the first member,
      in document order, with that name and a string value; never text inside
      another string. */
  lemma {:induction false} PartialTextOfDocument(lead: Pad, v: Value, trail: Pad, name: Bytes)
    requires FieldName(name)
    ensures PartialField.PartialText(Document(lead, v, trail), name) ==
      if Fields(v, name) == [] then [] else Meaning(Fields(v, name)[0])
  {
    var buf := Document(lead, v, trail);
    StringsOfDocument(lead, v, trail, name);
    if Fields(v, name) == [] {
      NothingToRead(buf, name);
    } else {
      FirstString(buf, name, Fields(v, name)[0]);
      var start: nat :| PartialField.HoldsLiteral(buf, name, Fields(v, name)[0], start);
      PartialField.TextAtEnd(buf, name, Fields(v, name)[0], start);
    }
  }

  lemma NothingToRead(buf: Bytes, name: Bytes)
    requires FieldName(name) && AheadIn(buf, name, 0) == Ahead([], true)
    ensures PartialField.RawBody(buf, name) == []
    ensures PartialField.PartialText(buf, name) == []
  {
    var h, r := ProbeOf(buf, name), Preview.ReaderOf(buf, name);
    assert NextField(r, |buf|, 0).None?;
    NextFieldIsFirst(r, |buf|, 0);
    forall k: nat | k < |buf|
      ensures h(k).None?
    {
      assert h(k) == FieldAt(buf, name, k) && r(k) == Preview.FieldReading(buf, name, k);
    }
    assert NoField(h, 0, |buf|);
    NextFieldSkips(h, |buf|, 0, |buf|);
  }

  /** Streaming a whole document: the text shown at an earlier cut is a prefix of
      the text shown later exactly when the earlier cut does not separate the
      escaped halves of one character; and a document without the field never
      shows anything. */
  lemma StreamedText(lead: Pad, v: Value, trail: Pad, name: Bytes, m: nat, n: nat) returns (start: nat)
    requires FieldName(name) && m <= n <= |Document(lead, v, trail)|
    ensures var buf := Document(lead, v, trail);
      if Fields(v, name) == [] then PartialField.PartialText(buf[..m], name) == []
      else
        && PartialField.HoldsLiteral(buf, name, Fields(v, name)[0], start)
        && (PartialField.PartialText(buf[..m], name) <= PartialField.PartialText(buf[..n], name)
            <==> !PartialField.CutsPair(buf, name, Fields(v, name)[0], start, m, n))
  {
    var buf := Document(lead, v, trail);
    StringsOfDocument(lead, v, trail, name);
    start := 0;
    if Fields(v, name) == [] {
      NothingToRead(buf, name);
      assert buf[..m] <= buf;
      PartialField.RawBodyGrows(buf[..m], buf, name);
    } else {
      FirstString(buf, name, Fields(v, name)[0]);
      start :| PartialField.HoldsLiteral(buf, name, Fields(v, name)[0], start);
      PartialField.TextGrows(buf, name, Fields(v, name)[0], start, m, n);
    }
  }
}
