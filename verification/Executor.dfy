/** The tool executor of one agent run: a registry of handles, a cache of files
    read, the set of files already shown, and byte budgets
    (backend/internal/agenttools/tools.go and resource.go). */
module Executor {
  import opened Options
  import opened Utf8

  type Handle = nat

  /** A part of the business record: the facts, the rules or an evidence file. */
  datatype Part = Facts | Rules | Evidence(id: string)

  datatype LibraryKind = Document | Passage | Platform | SchemeText

  datatype Origin = Business(document: string, part: Part) | Library(kind: LibraryKind)

  datatype Source = Source(origin: Origin, read: bool, excerpt: Bytes)

  datatype File = File(id: string, ready: bool, size: int)

  /** A converted file; the images are only counted. */
  datatype Content = Content(text: Bytes, images: nat)

  datatype Snapshot = Snapshot(facts: Bytes, rules: Bytes, files: seq<File>)

  type Reader = File -> Option<Content>

  /** What other tools do to the executor: they scan text, and register or read
      library sources. */
  datatype Effect = Scan(size: int) | Register(source: LibraryKind, read: bool) | MarkRead(handle: Handle)

  /** A missing snapshot stands for bad arguments, a withdrawn permission or a
      changed record. */
  datatype Call =
    | UseResource(document: string, readable: bool)
    | ReadCurrentContext(snapshot: Option<Snapshot>)
    | ReadEvidence(sources: seq<Handle>, snapshot: Option<Snapshot>, reader: Reader)
    | OtherTool(effects: seq<Effect>, succeeds: bool)
    | UnknownTool

  datatype Outcome =
    Missing | AlreadyGiven | OverLimit | Unreadable | Empty | Given(text: Bytes, images: nat, clipped: bool)

  datatype Item = Item(handle: Handle, id: string, outcome: Outcome)

  datatype Reply = Refused | Listing(facts: Handle, rules: Handle, files: seq<Handle>) | Files(items: seq<Item>) | Done

  datatype State = State(
    document: string, readable: bool, handles: map<Handle, Source>, scanned: nat, readBytes: nat,
    cache: map<string, Content>, delivered: set<string>)

  /** What an executor is created with. `encoded` is the length of a reply's JSON;
      `draw` draws a handle that is not in use. */
  datatype Setup = Setup(
    maxBytes: nat, maxScan: nat, encoded: Reply -> nat, excerpt: Bytes -> Bytes, draw: set<Handle> -> Handle)

  ghost predicate DrawsFresh(setup: Setup) {
    forall used: set<Handle> {:trigger setup.draw(used)} :: setup.draw(used) !in used
  }

  const MAX_FILE_BYTES: nat := 12582912
  const MAX_EVIDENCE_BYTES: nat := 25165824
  const RESERVED_BYTES: nat := 4096
  const MAX_SOURCES: nat := 4

  const INITIAL := State("", false, map[], 0, 0, map[], {})

  // ------------------------------------------------------------------ registry

  datatype Registered = Registered(state: State, handle: Handle)

  function RegisterSource(setup: Setup, s: State, source: Source): Registered {
    var h := setup.draw(s.handles.Keys);
    Registered(s.(handles := s.handles[h := source]), h)
  }

  /** A handle may be cited once its source was read; a whole library document
      may be cited unread. */
  function ResolvedCitation(s: State, h: Handle): Option<Source> {
    if h in s.handles && (s.handles[h].read || (s.handles[h].origin == Library(Document)))
    then Some(s.handles[h])
    else None
  }

  // ------------------------------------------------------------- current context

  datatype Listed = Listed(state: State, files: seq<Handle>)

  function ListFiles(setup: Setup, s: State, files: seq<File>): Listed {
    if files == [] then Listed(s, [])
    else
      var l := ListFiles(setup, s, files[..|files| - 1]);
      var r := RegisterSource(setup, l.state, Source(Business(s.document, Evidence(files[|files| - 1].id)), false, []));
      Listed(r.state, l.files + [r.handle])
  }

  datatype Answer = Answer(state: State, reply: Reply)

  function CurrentContext(setup: Setup, s: State, snapshot: Option<Snapshot>): Answer {
    match snapshot
    case None => Answer(s, Refused)
    case Some(shot) =>
      var facts := RegisterSource(setup, s, Source(Business(s.document, Facts), true, setup.excerpt(shot.facts)));
      var rules := RegisterSource(setup, facts.state,
        Source(Business(s.document, Rules), true, setup.excerpt(shot.rules)));
      var listed := ListFiles(setup, rules.state, shot.files);
      Answer(listed.state, Listing(facts.handle, rules.handle, listed.files))
  }

  // -------------------------------------------------------------------- evidence

  /** Every handle names a file of the current record, no file twice. */
  predicate ValidRequest(s: State, requested: seq<Handle>) {
    && (forall k :: 0 <= k < |requested| ==>
          && requested[k] in s.handles
          && var origin := s.handles[requested[k]].origin;
          origin.Business? && origin.document == s.document && origin.part.Evidence?)
    && forall k, l :: 0 <= k < l < |requested| ==>
         s.handles[requested[k]].origin.part.id != s.handles[requested[l]].origin.part.id
  }

  function FindFile(files: seq<File>, id: string): Option<File> {
    if files == [] then None
    else if files[0].id == id then Some(files[0])
    else FindFile(files[1..], id)
  }

  function TextBudget(maxBytes: nat, requested: nat): nat {
    if maxBytes <= RESERVED_BYTES || requested == 0 then 0 else (maxBytes - RESERVED_BYTES) / requested / 2
  }

  /** The longest prefix within the limit that does not end inside a character. */
  function ClipText(value: Bytes, limit: nat): (r: Bytes)
    ensures r <= value && |r| <= limit
  {
    if |value| <= limit then value else LongestValid(value[..limit])
  }

  lemma {:induction false} ClipIsLongest(value: Bytes, limit: nat, r: Bytes)
    requires Valid(value) && Valid(r) && r <= value && |r| <= limit
    ensures Valid(ClipText(value, limit)) && r <= ClipText(value, limit)
  {
    if |value| > limit {
      LongestValidIsLongest(value[..limit], r);
    }
  }

  /** Of a text something is kept exactly when its first character fits. */
  lemma {:induction false} ClipIsEmptyExactly(value: Bytes, limit: nat)
    requires Valid(value) && value != []
    ensures ClipText(value, limit) == [] <==> limit < RuneLen(value)
  {
    var n, r := RuneLen(value), ClipText(value, limit);
    var first := value[..n];
    assert RuneLen(first) == n && first[n..] == [];
    if n <= limit {
      ClipIsLongest(value, limit, first);
    } else if r != [] {
      SameFirstRune(r, value);
    }
  }

  lemma SameFirstRune(r: Bytes, value: Bytes)
    requires r <= value && RuneLen(r) > 0
    ensures RuneLen(value) == RuneLen(r)
  {
    RuneLenAppend(r, value[|r|..]);
    assert r + value[|r|..] == value;
  }

  method ClipEvidenceText(value: Bytes, limit: nat) returns (r: Bytes)
    ensures r == ClipText(value, limit)
  {
    if |value| <= limit {
      return value;
    }
    r := value[..limit];
    while !Valid(r)
      invariant r <= value[..limit] && LongestValid(r) == LongestValid(value[..limit])
      decreases |r|
    {
      r := r[..|r| - 1];
    }
  }

  datatype Reading = Reading(state: State, item: Item)

  /** A file's content is put into the reply and its handle becomes citable. */
  function Give(setup: Setup, s: State, h: Handle, id: string, content: Content, budget: nat): Reading
    requires h in s.handles && s.handles[h].origin.Business?
  {
    if content.text == [] && content.images == 0 then Reading(s, Item(h, id, Empty))
    else
      var text := ClipText(content.text, budget);
      Reading(s.(handles := s.handles[h := s.handles[h].(read := true, excerpt := setup.excerpt(text))]),
              Item(h, id, Given(text, content.images, |text| < |content.text|)))
  }

  function ReadFile(setup: Setup, s: State, h: Handle, shot: Snapshot, reader: Reader, budget: nat): (r: Reading)
    requires h in s.handles && s.handles[h].origin.Business? && s.handles[h].origin.part.Evidence?
    ensures SameSources(s.handles, r.state.handles)
  {
    var id := s.handles[h].origin.part.id;
    var file := FindFile(shot.files, id);
    if file.None? || id == "" || !file.value.ready then Reading(s, Item(h, id, Missing))
    else if id in s.delivered then
      Reading(s.(handles := s.handles[h := s.handles[h].(read := true)]), Item(h, id, AlreadyGiven))
    else if id in s.cache then Give(setup, s, h, id, s.cache[id], budget)
    else
      var size := file.value.size;
      if size <= 0 || size > MAX_FILE_BYTES || s.readBytes + size > MAX_EVIDENCE_BYTES then
        Reading(s, Item(h, id, OverLimit))
      else
        var charged := s.(readBytes := s.readBytes + size);
        match reader(file.value)
        case None => Reading(charged, Item(h, id, Unreadable))
        case Some(content) => Give(setup, charged.(cache := s.cache[id := content]), h, id, content, budget)
  }

  lemma NextRequested(s: State, requested: seq<Handle>, i: nat)
    requires i < |requested| && ValidRequest(s, requested)
    ensures requested[..i + 1][..i] == requested[..i] && requested[..i + 1][i] == requested[i]
    ensures ValidRequest(s, requested[..i + 1])
  {
  }

  datatype Readings = Readings(state: State, items: seq<Item>)

  function ReadFiles(setup: Setup, s: State, requested: seq<Handle>, shot: Snapshot, reader: Reader, budget: nat)
    : (r: Readings)
    requires ValidRequest(s, requested)
    ensures SameSources(s.handles, r.state.handles)
    decreases |requested|
  {
    if requested == [] then Readings(s, [])
    else
      var h := requested[|requested| - 1];
      var r := ReadFiles(setup, s, requested[..|requested| - 1], shot, reader, budget);
      var one := ReadFile(setup, r.state, h, shot, reader, budget);
      Readings(one.state, r.items + [one.item])
  }

  /** The same handles for the same sources; some may have become read. */
  ghost predicate SameSources(a: map<Handle, Source>, b: map<Handle, Source>) {
    a.Keys == b.Keys && forall h :: h in a ==> b[h].origin == a[h].origin
  }

  function GivenIds(items: seq<Item>): seq<string> {
    if items == [] then []
    else
      GivenIds(items[..|items| - 1]) +
      if items[|items| - 1].outcome.Given? then [items[|items| - 1].id] else []
  }

  function ToSet(ids: seq<string>): set<string> {
    set id | id in ids
  }

  /** The ids whose content a reply carries. */
  function GivenIn(reply: Reply): seq<string> {
    if reply.Files? then GivenIds(reply.items) else []
  }

  function EvidenceAnswer(setup: Setup, s: State, requested: seq<Handle>, snapshot: Option<Snapshot>, reader: Reader)
    : Answer
  {
    if requested == [] || |requested| > MAX_SOURCES || snapshot.None? || !s.readable || !ValidRequest(s, requested)
    then Answer(s, Refused)
    else
      var r := ReadFiles(setup, s, requested, snapshot.value, reader, TextBudget(setup.maxBytes, |requested|));
      var reply := Files(r.items);
      if setup.encoded(reply) > setup.maxBytes then Answer(r.state, reply)
      else Answer(r.state.(delivered := r.state.delivered + ToSet(GivenIds(r.items))), reply)
  }

  // ------------------------------------------------------------------ other tools

  /** Scanning beyond the budget uses the budget up. */
  function ChargeScan(setup: Setup, s: State, size: int): (r: State)
    ensures s.scanned <= setup.maxScan ==> s.scanned <= r.scanned <= setup.maxScan
  {
    if size < 0 || setup.maxScan <= 0 || size > setup.maxScan - s.scanned then s.(scanned := setup.maxScan)
    else s.(scanned := s.scanned + size)
  }

  function Apply(setup: Setup, s: State, effect: Effect): State {
    match effect
    case Scan(size) => ChargeScan(setup, s, size)
    case Register(kind, read) => RegisterSource(setup, s, Source(Library(kind), read, [])).state
    case MarkRead(h) =>
      if h in s.handles && s.handles[h].origin == Library(Passage)
      then s.(handles := s.handles[h := s.handles[h].(read := true)])
      else s
  }

  function ApplyAll(setup: Setup, s: State, effects: seq<Effect>): State {
    if effects == [] then s else Apply(setup, ApplyAll(setup, s, effects[..|effects| - 1]), effects[|effects| - 1])
  }

  // --------------------------------------------------------------------- execute

  /** A reply that is too long is refused. */
  function Limited(setup: Setup, a: Answer): Answer {
    if a.reply != Refused && setup.encoded(a.reply) > setup.maxBytes then a.(reply := Refused) else a
  }

  /** After a failure, handles and delivered files are as before the call. */
  function RolledBack(before: State, a: Answer): Answer {
    if a.reply == Refused then a.(state := a.state.(handles := before.handles, delivered := before.delivered)) else a
  }

  function Execute(setup: Setup, s: State, call: Call): Answer {
    match call
    case UseResource(document, readable) =>
      Answer(s.(document := document, readable := readable, cache := map[], delivered := {}, readBytes := 0), Done)
    case ReadCurrentContext(snapshot) => RolledBack(s, Limited(setup, CurrentContext(setup, s, snapshot)))
    case ReadEvidence(sources, snapshot, reader) =>
      RolledBack(s, Limited(setup, EvidenceAnswer(setup, s, sources, snapshot, reader)))
    case OtherTool(effects, succeeds) =>
      Limited(setup, Answer(ApplyAll(setup, s, effects), if succeeds then Done else Refused))
    case UnknownTool => Answer(s, Refused)
  }

  // ------------------------------------------------------------------- the class

  class ToolExecutor {
    const setup: Setup
    var document: string
    var readable: bool
    var handles: map<Handle, Source>
    var scannedBytes: nat
    var evidenceReadBytes: nat
    var evidenceCache: map<string, Content>
    var evidenceDelivered: set<string>

    constructor (setup: Setup)
      ensures this.setup == setup && Value() == INITIAL
    {
      this.setup := setup;
      document, readable, handles, scannedBytes := "", false, map[], 0;
      evidenceReadBytes, evidenceCache, evidenceDelivered := 0, map[], {};
    }

    ghost function Value(): State
      reads this
    {
      State(document, readable, handles, scannedBytes, evidenceReadBytes, evidenceCache, evidenceDelivered)
    }

    method WithResource(resource: string, hasReader: bool)
      modifies this
      ensures Answer(Value(), Done) == Execute(setup, old(Value()), UseResource(resource, hasReader))
    {
      document, readable := resource, hasReader;
      evidenceCache, evidenceDelivered, evidenceReadBytes := map[], {}, 0;
    }

    method RegisterNew(source: Source) returns (h: Handle)
      modifies this`handles
      ensures Registered(Value(), h) == RegisterSource(setup, old(Value()), source)
    {
      h := setup.draw(handles.Keys);
      handles := handles[h := source];
    }

    method ReadContext(snapshot: Snapshot) returns (reply: Reply)
      modifies this`handles
      ensures Answer(Value(), reply) == CurrentContext(setup, old(Value()), Some(snapshot))
    {
      var facts := RegisterNew(Source(Business(document, Facts), true, setup.excerpt(snapshot.facts)));
      var rules := RegisterNew(Source(Business(document, Rules), true, setup.excerpt(snapshot.rules)));
      ghost var s := Value();
      var files: seq<Handle> := [];
      for i := 0 to |snapshot.files|
        invariant Listed(Value(), files) == ListFiles(setup, s, snapshot.files[..i])
      {
        assert snapshot.files[..i + 1][..i] == snapshot.files[..i];
        var h := RegisterNew(Source(Business(document, Evidence(snapshot.files[i].id)), false, []));
        files := files + [h];
      }
      assert snapshot.files[..|snapshot.files|] == snapshot.files;
      reply := Listing(facts, rules, files);
    }

    /** The check of the whole batch before any file is read. */
    method CheckRequest(requested: seq<Handle>) returns (ok: bool)
      ensures ok == ValidRequest(Value(), requested)
    {
      var seen: set<string> := {};
      for i := 0 to |requested|
        invariant ValidRequest(Value(), requested[..i])
        invariant forall id :: id in seen <==> exists k :: 0 <= k < i && handles[requested[k]].origin.part.id == id
      {
        var h := requested[i];
        assert forall k :: 0 <= k < i ==> requested[..i][k] == requested[k];
        if h !in handles || !handles[h].origin.Business? || handles[h].origin.document != document ||
          !handles[h].origin.part.Evidence? {
          return false;
        }
        if handles[h].origin.part.id in seen {
          return false;
        }
        seen := seen + {handles[h].origin.part.id};
      }
      assert requested[..|requested|] == requested;
      return true;
    }

    method ReadOne(h: Handle, snapshot: Snapshot, reader: Reader, budget: nat) returns (item: Item)
      requires h in handles && handles[h].origin.Business? && handles[h].origin.part.Evidence?
      modifies this`handles, this`evidenceReadBytes, this`evidenceCache
      ensures Reading(Value(), item) == ReadFile(setup, old(Value()), h, snapshot, reader, budget)
    {
      var id := handles[h].origin.part.id;
      var file := FindFile(snapshot.files, id);
      if file.None? || id == "" || !file.value.ready {
        return Item(h, id, Missing);
      }
      if id in evidenceDelivered {
        handles := handles[h := handles[h].(read := true)];
        return Item(h, id, AlreadyGiven);
      }
      var content: Content;
      if id in evidenceCache {
        content := evidenceCache[id];
      } else {
        var size := file.value.size;
        if size <= 0 || size > MAX_FILE_BYTES || evidenceReadBytes + size > MAX_EVIDENCE_BYTES {
          return Item(h, id, OverLimit);
        }
        evidenceReadBytes := evidenceReadBytes + size;
        var converted := reader(file.value);
        if converted.None? {
          return Item(h, id, Unreadable);
        }
        content := converted.value;
        evidenceCache := evidenceCache[id := content];
      }
      if content.text == [] && content.images == 0 {
        return Item(h, id, Empty);
      }
      var text := ClipEvidenceText(content.text, budget);
      handles := handles[h := handles[h].(read := true, excerpt := setup.excerpt(text))];
      return Item(h, id, Given(text, content.images, |text| < |content.text|));
    }

    method ReadAll(requested: seq<Handle>, snapshot: Snapshot, reader: Reader, budget: nat) returns (items: seq<Item>)
      requires ValidRequest(Value(), requested)
      modifies this`handles, this`evidenceReadBytes, this`evidenceCache
      ensures Readings(Value(), items) == ReadFiles(setup, old(Value()), requested, snapshot, reader, budget)
    {
      items := [];
      ghost var s := Value();
      for i := 0 to |requested|
        invariant ValidRequest(s, requested[..i])
        invariant Readings(Value(), items) == ReadFiles(setup, s, requested[..i], snapshot, reader, budget)
      {
        NextRequested(s, requested, i);
        assert SameSources(s.handles, handles);
        var item := ReadOne(requested[i], snapshot, reader, budget);
        items := items + [item];
      }
      assert requested[..|requested|] == requested;
    }

    method ReadEvidenceFiles(requested: seq<Handle>, snapshot: Option<Snapshot>, reader: Reader) returns (reply: Reply)
      modifies this`handles, this`evidenceReadBytes, this`evidenceCache, this`evidenceDelivered
      ensures Answer(Value(), reply) == EvidenceAnswer(setup, old(Value()), requested, snapshot, reader)
    {
      if requested == [] || |requested| > MAX_SOURCES || snapshot.None? || !readable {
        return Refused;
      }
      var ok := CheckRequest(requested);
      if !ok {
        return Refused;
      }
      var items := ReadAll(requested, snapshot.value, reader, TextBudget(setup.maxBytes, |requested|));
      reply := Files(items);
      if setup.encoded(reply) <= setup.maxBytes {
        evidenceDelivered := evidenceDelivered + ToSet(GivenIds(items));
      }
    }

    method ChargeScanned(size: int) returns (ok: bool)
      modifies this`scannedBytes
      ensures Value() == ChargeScan(setup, old(Value()), size)
      ensures ok <==> 0 <= size <= setup.maxScan - old(scannedBytes) && setup.maxScan > 0
    {
      if size < 0 || setup.maxScan <= 0 || size > setup.maxScan - scannedBytes {
        scannedBytes := setup.maxScan;
        return false;
      }
      scannedBytes := scannedBytes + size;
      return true;
    }

    /** What a search of the library leaves behind; it is not rolled back. */
    method RunOtherTool(effects: seq<Effect>)
      modifies this`scannedBytes, this`handles
      ensures Value() == ApplyAll(setup, old(Value()), effects)
    {
      ghost var s := Value();
      for i := 0 to |effects|
        invariant Value() == ApplyAll(setup, s, effects[..i])
      {
        assert effects[..i + 1][..i] == effects[..i];
        match effects[i] {
          case Scan(size) =>
            var _ := ChargeScanned(size);
          case Register(kind, read) =>
            var _ := RegisterNew(Source(Library(kind), read, []));
          case MarkRead(h) =>
            if h in handles && handles[h].origin == Library(Passage) {
              handles := handles[h := handles[h].(read := true)];
            }
        }
      }
      assert effects[..|effects|] == effects;
    }

    /** The two tools over business records run with a rollback. */
    method ExecuteResource(call: Call) returns (reply: Reply)
      requires call.ReadCurrentContext? || call.ReadEvidence?
      modifies this
      ensures Answer(Value(), reply) == Execute(setup, old(Value()), call)
    {
      var before, delivered := handles, evidenceDelivered;
      reply := Refused;
      match call {
        case ReadCurrentContext(snapshot) =>
          if snapshot.Some? {
            reply := ReadContext(snapshot.value);
          }
        case ReadEvidence(sources, snapshot, reader) =>
          reply := ReadEvidenceFiles(sources, snapshot, reader);
        case _ =>
      }
      if reply != Refused && setup.encoded(reply) > setup.maxBytes {
        reply := Refused;
      }
      if reply == Refused {
        handles, evidenceDelivered := before, delivered;
      }
    }
  }
}
