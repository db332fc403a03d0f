/** What holds of the tool executor after any sequence of calls. */
module ExecutorHistory {
  import opened Executor
  import opened Options
  import opened Utf8

  function Run(setup: Setup, calls: seq<Call>): State {
    if calls == [] then INITIAL
    else Execute(setup, Run(setup, calls[..|calls| - 1]), calls[|calls| - 1]).state
  }

  /** The reply to the k-th call. */
  function ReplyAt(setup: Setup, calls: seq<Call>, k: nat): Reply
    requires k < |calls|
  {
    Execute(setup, Run(setup, calls[..k]), calls[k]).reply
  }

  /** Some successful call returned the content of that file of that record. */
  ghost predicate WasGiven(setup: Setup, calls: seq<Call>, document: string, id: string) {
    exists k: nat :: k < |calls| && id in GivenIn(ReplyAt(setup, calls, k)) &&
      Run(setup, calls[..k]).document == document
  }

  /** Some successful call listed the parts of that record. */
  ghost predicate WasListed(setup: Setup, calls: seq<Call>, document: string) {
    exists k: nat :: k < |calls| && ReplyAt(setup, calls, k).Listing? && Run(setup, calls[..k]).document == document
  }

  /** The files returned since the current record was opened, in order. */
  function SessionGiven(setup: Setup, calls: seq<Call>): seq<string> {
    if calls == [] then []
    else if calls[|calls| - 1].UseResource? then []
    else SessionGiven(setup, calls[..|calls| - 1]) + GivenIn(ReplyAt(setup, calls, |calls| - 1))
  }

  // -------------------------------------------------------------- reading a batch

  /** Which reads a batch may add. */
  ghost predicate ReadsExplained(before: map<Handle, Source>, after: map<Handle, Source>, shown: set<string>) {
    forall h :: h in after && h in before && after[h].read && !before[h].read ==>
      after[h].origin.Business? && after[h].origin.part.Evidence? && after[h].origin.part.id in shown
  }

  lemma ReadFileFacts(setup: Setup, s: State, h: Handle, shot: Snapshot, reader: Reader, budget: nat)
    requires h in s.handles && s.handles[h].origin.Business? && s.handles[h].origin.part.Evidence?
    ensures ReadSound(s, h, ReadFile(setup, s, h, shot, reader, budget))
  {
  }

  /** A batch shows each file at most once, none that was shown before, and makes
      a handle readable only for a file that is or was shown. */
  ghost predicate BatchSound(s: State, requested: seq<Handle>, r: Readings) {
    var ids := GivenIds(r.items);
    && r.state.delivered == s.delivered && r.state.document == s.document && r.state.scanned == s.scanned
    && r.state.readable == s.readable
    && SameSources(s.handles, r.state.handles)
    && ReadsExplained(s.handles, r.state.handles, s.delivered + ToSet(ids))
    && (forall id :: id in ids ==> id !in s.delivered)
    && (forall id :: id in ids ==> RequestedFile(s, requested, id))
    && Distinct(ids)
    && (s.readBytes <= MAX_EVIDENCE_BYTES ==> s.readBytes <= r.state.readBytes <= MAX_EVIDENCE_BYTES)
  }

  ghost predicate RequestedFile(s: State, requested: seq<Handle>, id: string) {
    exists k :: 0 <= k < |requested| && requested[k] in s.handles
      && s.handles[requested[k]].origin == Business(s.document, Evidence(id))
  }

  /** One file's part in a batch. */
  ghost predicate ReadSound(s: State, h: Handle, one: Reading)
    requires h in s.handles && s.handles[h].origin.Business? && s.handles[h].origin.part.Evidence?
  {
    && one.state.delivered == s.delivered && one.state.document == s.document && one.state.scanned == s.scanned
    && one.state.readable == s.readable
    && SameSources(s.handles, one.state.handles)
    && (forall other :: other in s.handles && other != h ==> one.state.handles[other] == s.handles[other])
    && one.item.id == s.handles[h].origin.part.id
    && (one.state.handles[h].read && !s.handles[h].read ==> one.item.id in s.delivered || one.item.outcome.Given?)
    && (one.item.outcome.Given? ==> one.item.id !in s.delivered)
    && (s.readBytes <= MAX_EVIDENCE_BYTES ==> s.readBytes <= one.state.readBytes <= MAX_EVIDENCE_BYTES)
  }

  /** The ids a batch gives, after one more file. */
  lemma {:induction false} IdsGrow(s: State, requested: seq<Handle>, items: seq<Item>, item: Item)
    requires requested != [] && ValidRequest(s, requested)
    requires item.id == s.handles[requested[|requested| - 1]].origin.part.id
    requires Distinct(GivenIds(items))
    requires forall id :: id in GivenIds(items) ==> RequestedFile(s, requested[..|requested| - 1], id)
    ensures GivenIds(items + [item]) == GivenIds(items) + if item.outcome.Given? then [item.id] else []
    ensures Distinct(GivenIds(items + [item]))
    ensures forall id :: id in GivenIds(items + [item]) ==> RequestedFile(s, requested, id)
  {
    var n := |requested| - 1;
    assert (items + [item])[..|items|] == items;
    var before := GivenIds(items);
    forall id | id in before
      ensures RequestedFile(s, requested, id) && id != item.id
    {
      var k :| 0 <= k < n && requested[..n][k] in s.handles
        && s.handles[requested[..n][k]].origin == Business(s.document, Evidence(id));
      assert requested[k] == requested[..n][k];
    }
    assert s.handles[requested[n]].origin == Business(s.document, Evidence(item.id));
    assert forall i :: 0 <= i < |before| ==> before[i] in before;
  }

  lemma BatchGrows(s: State, requested: seq<Handle>, r: Readings, one: Reading)
    requires requested != [] && ValidRequest(s, requested)
    requires BatchSound(s, requested[..|requested| - 1], r)
    requires ReadSound(r.state, requested[|requested| - 1], one)
    ensures BatchSound(s, requested, Readings(one.state, r.items + [one.item]))
  {
    var before := GivenIds(r.items);
    IdsGrow(s, requested, r.items, one.item);
    var ids := GivenIds(r.items + [one.item]);
    assert ToSet(before) <= ToSet(ids);
    assert one.item.outcome.Given? ==> one.item.id in ids;
  }

  lemma {:induction false} BatchIsSound(setup: Setup, s: State, requested: seq<Handle>, shot: Snapshot,
                                        reader: Reader, budget: nat)
    requires ValidRequest(s, requested)
    ensures BatchSound(s, requested, ReadFiles(setup, s, requested, shot, reader, budget))
    decreases |requested|
  {
    if requested != [] {
      var init, h := requested[..|requested| - 1], requested[|requested| - 1];
      BatchIsSound(setup, s, init, shot, reader, budget);
      var r := ReadFiles(setup, s, init, shot, reader, budget);
      ReadFileFacts(setup, r.state, h, shot, reader, budget);
      BatchGrows(s, requested, r, ReadFile(setup, r.state, h, shot, reader, budget));
    }
  }

  // ------------------------------------------------------------ one call at a time

  type Given = set<(string, string)>

  function Pairs(document: string, ids: seq<string>): Given {
    set id | id in ids :: (document, id)
  }

  /** Handles of business parts stem from listings, and are read only for files
      that were given. */
  ghost predicate HandlesSound(handles: map<Handle, Source>, given: Given, listed: set<string>) {
    forall h :: h in handles && handles[h].origin.Business? ==>
      && handles[h].origin.document in listed
      && (handles[h].origin.part.Evidence? && handles[h].read ==>
            (handles[h].origin.document, handles[h].origin.part.id) in given)
  }

  ghost predicate Sound(s: State, given: Given, listed: set<string>) {
    && HandlesSound(s.handles, given, listed)
    && (forall id :: id in s.delivered ==> (s.document, id) in given)
    && s.readBytes <= MAX_EVIDENCE_BYTES
  }

  function NewlyGiven(s: State, reply: Reply): Given {
    Pairs(s.document, GivenIn(reply))
  }

  function NewlyListed(s: State, reply: Reply): set<string> {
    if reply.Listing? then {s.document} else {}
  }

  lemma {:induction false} ListFilesSound(setup: Setup, s: State, files: seq<File>, given: Given, listed: set<string>)
    requires DrawsFresh(setup) && Sound(s, given, listed) && s.document in listed
    ensures var l := ListFiles(setup, s, files);
      Sound(l.state, given, listed) && l.state == s.(handles := l.state.handles)
    decreases |files|
  {
    if files != [] {
      ListFilesSound(setup, s, files[..|files| - 1], given, listed);
    }
  }

  lemma ContextSound(setup: Setup, s: State, snapshot: Option<Snapshot>, given: Given, listed: set<string>)
    requires DrawsFresh(setup) && Sound(s, given, listed)
    ensures var a := CurrentContext(setup, s, snapshot);
      && Sound(a.state, given, listed + {s.document}) && a.state == s.(handles := a.state.handles)
      && (a.reply == Refused ==> a.state == s) && GivenIn(a.reply) == []
      && (a.reply.Listing? || a.reply == Refused)
  {
    if snapshot.Some? {
      var shot := snapshot.value;
      var more := listed + {s.document};
      var facts := RegisterSource(setup, s, Source(Business(s.document, Facts), true, setup.excerpt(shot.facts)));
      var rules := RegisterSource(setup, facts.state,
        Source(Business(s.document, Rules), true, setup.excerpt(shot.rules)));
      assert Sound(rules.state, given, more);
      ListFilesSound(setup, rules.state, shot.files, given, more);
    }
  }

  lemma ReadsSound(before: State, after: State, given: Given, listed: set<string>, ids: seq<string>)
    requires Sound(before, given, listed) && SameSources(before.handles, after.handles)
    requires forall h :: h in before.handles && before.handles[h].origin.Business? ==>
      (after.handles[h].read && !before.handles[h].read ==> before.handles[h].origin.document == before.document)
    requires ReadsExplained(before.handles, after.handles, before.delivered + ToSet(ids))
    ensures HandlesSound(after.handles, given + Pairs(before.document, ids), listed)
  {
  }

  /** Only handles of the open record are read. */
  lemma {:induction false} ReadsStayInRecord(setup: Setup, s: State, requested: seq<Handle>, shot: Snapshot,
                                             reader: Reader, budget: nat)
    requires ValidRequest(s, requested)
    ensures var r := ReadFiles(setup, s, requested, shot, reader, budget);
      forall h :: h in s.handles && r.state.handles[h].read && !s.handles[h].read ==>
        s.handles[h].origin.Business? && s.handles[h].origin.document == s.document
    decreases |requested|
  {
    if requested != [] {
      var init, h := requested[..|requested| - 1], requested[|requested| - 1];
      ReadsStayInRecord(setup, s, init, shot, reader, budget);
      ReadFileFacts(setup, ReadFiles(setup, s, init, shot, reader, budget).state, h, shot, reader, budget);
      assert s.handles[h].origin.document == s.document;
    }
  }

  lemma EvidenceSound(setup: Setup, s: State, requested: seq<Handle>, snapshot: Option<Snapshot>, reader: Reader,
                      given: Given, listed: set<string>)
    requires Sound(s, given, listed)
    ensures var a := EvidenceAnswer(setup, s, requested, snapshot, reader);
      && a.state.document == s.document && a.state.scanned == s.scanned && a.state.readBytes <= MAX_EVIDENCE_BYTES
      && (a.reply.Files? || (a.reply == Refused && a.state == s))
      && Distinct(GivenIn(a.reply))
      && (forall id :: id in GivenIn(a.reply) ==> id !in s.delivered)
      && HandlesSound(a.state.handles, given + Pairs(s.document, GivenIn(a.reply)), listed)
      && (setup.encoded(a.reply) <= setup.maxBytes ==> a.state.delivered == s.delivered + ToSet(GivenIn(a.reply)))
  {
    if requested != [] && |requested| <= MAX_SOURCES && snapshot.Some? && s.readable && ValidRequest(s, requested) {
      var budget := TextBudget(setup.maxBytes, |requested|);
      BatchIsSound(setup, s, requested, snapshot.value, reader, budget);
      ReadsStayInRecord(setup, s, requested, snapshot.value, reader, budget);
      var r := ReadFiles(setup, s, requested, snapshot.value, reader, budget);
      ReadsSound(s, r.state, given, listed, GivenIds(r.items));
    }
  }

  lemma {:induction false} EffectsSound(setup: Setup, s: State, effects: seq<Effect>, given: Given, listed: set<string>)
    requires DrawsFresh(setup) && Sound(s, given, listed)
    ensures var t := ApplyAll(setup, s, effects);
      && Sound(t, given, listed)
      && t == s.(handles := t.handles, scanned := t.scanned)
      && (s.scanned <= setup.maxScan ==> s.scanned <= t.scanned <= setup.maxScan)
    decreases |effects|
  {
    if effects != [] {
      EffectsSound(setup, s, effects[..|effects| - 1], given, listed);
    }
  }

  /** What one call does to what may be cited, shown and spent. */
  ghost predicate StepSound(setup: Setup, s: State, call: Call, a: Answer, given: Given, listed: set<string>) {
    && Sound(a.state, given + NewlyGiven(s, a.reply), listed + NewlyListed(s, a.reply))
    && (s.scanned <= setup.maxScan ==> a.state.scanned <= setup.maxScan)
    && (!call.UseResource? ==>
          && Distinct(GivenIn(a.reply))
          && (forall id :: id in GivenIn(a.reply) ==> id !in s.delivered)
          && a.state.delivered == s.delivered + ToSet(GivenIn(a.reply)))
    && (call.UseResource? ==> a.state.delivered == {} && GivenIn(a.reply) == [])
  }

  lemma ContextStep(setup: Setup, s: State, call: Call, given: Given, listed: set<string>)
    requires DrawsFresh(setup) && Sound(s, given, listed) && call.ReadCurrentContext?
    ensures StepSound(setup, s, call, Execute(setup, s, call), given, listed)
  {
    ContextSound(setup, s, call.snapshot, given, listed);
    var a := Execute(setup, s, call);
    assert GivenIn(a.reply) == [];
    assert ToSet(GivenIn(a.reply)) == {} && NewlyGiven(s, a.reply) == {};
    assert given + {} == given && s.delivered + {} == s.delivered;
  }

  lemma EvidenceStep(setup: Setup, s: State, call: Call, given: Given, listed: set<string>)
    requires Sound(s, given, listed) && call.ReadEvidence?
    ensures StepSound(setup, s, call, Execute(setup, s, call), given, listed)
  {
    EvidenceSound(setup, s, call.sources, call.snapshot, call.reader, given, listed);
    var a := Execute(setup, s, call);
    assert NewlyListed(s, a.reply) == {} && listed + {} == listed;
    if a.reply == Refused {
      assert ToSet(GivenIn(a.reply)) == {} && NewlyGiven(s, a.reply) == {};
      assert given + {} == given && s.delivered + {} == s.delivered;
    }
  }

  lemma OtherStep(setup: Setup, s: State, call: Call, given: Given, listed: set<string>)
    requires DrawsFresh(setup) && Sound(s, given, listed) && (call.OtherTool? || call.UnknownTool? || call.UseResource?)
    ensures StepSound(setup, s, call, Execute(setup, s, call), given, listed)
  {
    var a := Execute(setup, s, call);
    if call.OtherTool? {
      EffectsSound(setup, s, call.effects, given, listed);
    }
    assert ToSet(GivenIn(a.reply)) == {} && NewlyGiven(s, a.reply) == {};
    assert given + {} == given && listed + {} == listed && s.delivered + {} == s.delivered;
  }

  lemma ExecuteSound(setup: Setup, s: State, call: Call, given: Given, listed: set<string>)
    requires DrawsFresh(setup) && Sound(s, given, listed)
    ensures StepSound(setup, s, call, Execute(setup, s, call), given, listed)
  {
    match call
    case ReadCurrentContext(_) => ContextStep(setup, s, call, given, listed);
    case ReadEvidence(_, _, _) => EvidenceStep(setup, s, call, given, listed);
    case OtherTool(_, _) => OtherStep(setup, s, call, given, listed);
    case UnknownTool => OtherStep(setup, s, call, given, listed);
    case UseResource(_, _) => OtherStep(setup, s, call, given, listed);
  }

  // ------------------------------------------------------------- all sequences

  function AllGiven(setup: Setup, calls: seq<Call>): Given {
    if calls == [] then {}
    else
      var init := calls[..|calls| - 1];
      AllGiven(setup, init) + NewlyGiven(Run(setup, init), ReplyAt(setup, calls, |calls| - 1))
  }

  function AllListed(setup: Setup, calls: seq<Call>): set<string> {
    if calls == [] then {}
    else
      var init := calls[..|calls| - 1];
      AllListed(setup, init) + NewlyListed(Run(setup, init), ReplyAt(setup, calls, |calls| - 1))
  }

  lemma {:induction false} AllGivenMeans(setup: Setup, calls: seq<Call>, document: string, id: string)
    requires (document, id) in AllGiven(setup, calls)
    ensures WasGiven(setup, calls, document, id)
    decreases |calls|
  {
    var n := |calls| - 1;
    var init := calls[..n];
    if (document, id) in AllGiven(setup, init) {
      AllGivenMeans(setup, init, document, id);
      var k: nat :| k < n && id in GivenIn(ReplyAt(setup, init, k)) && Run(setup, init[..k]).document == document;
      assert init[..k] == calls[..k] && ReplyAt(setup, init, k) == ReplyAt(setup, calls, k);
    } else {
      assert Run(setup, calls[..n]).document == document && id in GivenIn(ReplyAt(setup, calls, n));
    }
  }

  lemma {:induction false} AllListedMeans(setup: Setup, calls: seq<Call>, document: string)
    requires document in AllListed(setup, calls)
    ensures WasListed(setup, calls, document)
    decreases |calls|
  {
    var n := |calls| - 1;
    var init := calls[..n];
    if document in AllListed(setup, init) {
      AllListedMeans(setup, init, document);
      var k: nat :| k < n && ReplyAt(setup, init, k).Listing? && Run(setup, init[..k]).document == document;
      assert init[..k] == calls[..k] && ReplyAt(setup, init, k) == ReplyAt(setup, calls, k);
    } else {
      assert Run(setup, calls[..n]).document == document && ReplyAt(setup, calls, n).Listing?;
    }
  }

  lemma DistinctAppend(a: seq<string>, b: seq<string>)
    requires Distinct(a) && Distinct(b) && forall id :: id in b ==> id !in ToSet(a)
    ensures Distinct(a + b) && ToSet(a + b) == ToSet(a) + ToSet(b)
  {
    forall i, j | 0 <= i < j < |a + b|
      ensures (a + b)[i] != (a + b)[j]
    {
      if i < |a| <= j {
        assert (a + b)[j] in b && (a + b)[i] in ToSet(a);
      }
    }
  }

  lemma {:induction false} RunIsSound(setup: Setup, calls: seq<Call>)
    requires DrawsFresh(setup)
    ensures var s := Run(setup, calls);
      && Sound(s, AllGiven(setup, calls), AllListed(setup, calls))
      && s.scanned <= setup.maxScan
      && Distinct(SessionGiven(setup, calls)) && s.delivered == ToSet(SessionGiven(setup, calls))
    decreases |calls|
  {
    if calls != [] {
      var init, call := calls[..|calls| - 1], calls[|calls| - 1];
      RunIsSound(setup, init);
      var s := Run(setup, init);
      ExecuteSound(setup, s, call, AllGiven(setup, init), AllListed(setup, init));
      if !call.UseResource? {
        DistinctAppend(SessionGiven(setup, init), GivenIn(ReplyAt(setup, calls, |calls| - 1)));
      }
    }
  }

  /** After any calls: a handle of an evidence file can be cited only if some
      successful call returned that file's content, and a handle of the facts or
      the rules only if some successful call listed that record. */
  lemma {:induction false} CitableWasShown(setup: Setup, calls: seq<Call>, h: Handle)
    requires DrawsFresh(setup)
    requires ResolvedCitation(Run(setup, calls), h).Some?
    ensures var origin := ResolvedCitation(Run(setup, calls), h).value.origin;
      origin.Business? ==>
        && WasListed(setup, calls, origin.document)
        && (origin.part.Evidence? ==> WasGiven(setup, calls, origin.document, origin.part.id))
  {
    RunIsSound(setup, calls);
    var origin := ResolvedCitation(Run(setup, calls), h).value.origin;
    if origin.Business? {
      AllListedMeans(setup, calls, origin.document);
      if origin.part.Evidence? {
        AllGivenMeans(setup, calls, origin.document, origin.part.id);
      }
    }
  }

  /** After any calls, the files returned since the record was opened are pairwise
      different, within one reply and across replies. */
  lemma {:induction false} NothingGivenTwice(setup: Setup, calls: seq<Call>)
    requires DrawsFresh(setup)
    ensures Distinct(SessionGiven(setup, calls))
    ensures Run(setup, calls).delivered == ToSet(SessionGiven(setup, calls))
  {
    RunIsSound(setup, calls);
  }

  lemma {:induction false} BudgetsHold(setup: Setup, calls: seq<Call>)
    requires DrawsFresh(setup)
    ensures Run(setup, calls).scanned <= setup.maxScan
    ensures Run(setup, calls).readBytes <= MAX_EVIDENCE_BYTES
    ensures forall k: nat :: k < |calls| && !calls[k].UseResource? && ReplyAt(setup, calls, k) != Refused ==>
      setup.encoded(ReplyAt(setup, calls, k)) <= setup.maxBytes
  {
    RunIsSound(setup, calls);
  }

  /** A refused read of the record or of its evidence leaves every handle, every
      possible citation and the files counted as shown as they were. */
  lemma RefusalRestores(setup: Setup, s: State, call: Call)
    requires DrawsFresh(setup) && (call.ReadCurrentContext? || call.ReadEvidence?)
    requires Execute(setup, s, call).reply == Refused
    ensures var t := Execute(setup, s, call).state;
      && t.handles == s.handles && t.delivered == s.delivered && t.scanned == s.scanned && t.document == s.document
      && forall h :: ResolvedCitation(t, h) == ResolvedCitation(s, h)
  {
    if call.ReadEvidence? && ValidRequest(s, call.sources) && call.snapshot.Some? {
      BatchIsSound(setup, s, call.sources, call.snapshot.value, call.reader,
        TextBudget(setup.maxBytes, |call.sources|));
    } else if call.ReadCurrentContext? && call.snapshot.Some? {
      ListFilesKeeps(setup, CurrentContext(setup, s, call.snapshot).state, s, call.snapshot.value);
    }
  }

  lemma ListFilesKeeps(setup: Setup, after: State, s: State, shot: Snapshot)
    requires after == CurrentContext(setup, s, Some(shot)).state
    ensures after == s.(handles := after.handles)
  {
    var facts := RegisterSource(setup, s, Source(Business(s.document, Facts), true, setup.excerpt(shot.facts)));
    var rules := RegisterSource(setup, facts.state,
      Source(Business(s.document, Rules), true, setup.excerpt(shot.rules)));
    ListingKeeps(setup, rules.state, shot.files);
  }

  lemma {:induction false} ListingKeeps(setup: Setup, s: State, files: seq<File>)
    ensures var l := ListFiles(setup, s, files); l.state == s.(handles := l.state.handles)
    decreases |files|
  {
    if files != [] {
      ListingKeeps(setup, s, files[..|files| - 1]);
    }
  }

  // ------------------------------------------------------------ true content

  /** What the readers passed in made of the files so far. */
  function Converted(calls: seq<Call>): set<(string, Content)> {
    if calls == [] then {}
    else Converted(calls[..|calls| - 1]) + ConvertedIn(calls[|calls| - 1])
  }

  function ConvertedIn(call: Call): set<(string, Content)> {
    if call.ReadEvidence? && call.snapshot.Some?
    then set f | f in call.snapshot.value.files && call.reader(f).Some? :: (f.id, call.reader(f).value)
    else {}
  }

  ghost predicate CacheTrue(cache: map<string, Content>, converted: set<(string, Content)>) {
    forall id :: id in cache ==> (id, cache[id]) in converted
  }

  /** What is shown is a conversion of that very file, which is not empty, with its
      text clipped to the budget. */
  ghost predicate TextTrue(item: Item, converted: set<(string, Content)>, budget: nat) {
    item.outcome.Given? ==>
      exists content: Content :: (item.id, content) in converted
        && (content.text != [] || content.images > 0)
        && item.outcome.text == ClipText(content.text, budget) && item.outcome.images == content.images
        && (item.outcome.clipped <==> item.outcome.text != content.text)
  }

  lemma {:induction false} FoundIsListed(files: seq<File>, id: string)
    ensures FindFile(files, id).Some? ==> FindFile(files, id).value in files && FindFile(files, id).value.id == id
  {
    if files != [] && files[0].id != id {
      FoundIsListed(files[1..], id);
    }
  }

  lemma GiveTrue(setup: Setup, s: State, h: Handle, id: string, content: Content, budget: nat,
                 converted: set<(string, Content)>)
    requires h in s.handles && s.handles[h].origin.Business? && (id, content) in converted
    ensures TextTrue(Give(setup, s, h, id, content, budget).item, converted, budget)
    ensures Give(setup, s, h, id, content, budget).state.cache == s.cache
  {
  }

  lemma ReadFileTrue(setup: Setup, s: State, h: Handle, shot: Snapshot, reader: Reader, budget: nat,
                     converted: set<(string, Content)>)
    requires h in s.handles && s.handles[h].origin.Business? && s.handles[h].origin.part.Evidence?
    requires CacheTrue(s.cache, converted)
    requires forall f :: f in shot.files && reader(f).Some? ==> (f.id, reader(f).value) in converted
    ensures var r := ReadFile(setup, s, h, shot, reader, budget);
      CacheTrue(r.state.cache, converted) && TextTrue(r.item, converted, budget)
  {
    var id := s.handles[h].origin.part.id;
    FoundIsListed(shot.files, id);
    var file := FindFile(shot.files, id);
    if id in s.cache {
      GiveTrue(setup, s, h, id, s.cache[id], budget, converted);
    } else if file.Some? && file.value.size > 0 && reader(file.value).Some? {
      var content := reader(file.value).value;
      GiveTrue(setup, s.(readBytes := s.readBytes + file.value.size, cache := s.cache[id := content]), h, id, content,
               budget, converted);
    }
  }

  lemma {:induction false} ReadFilesTrue(setup: Setup, s: State, requested: seq<Handle>, shot: Snapshot,
                                         reader: Reader, budget: nat,
                                         converted: set<(string, Content)>)
    requires ValidRequest(s, requested) && CacheTrue(s.cache, converted)
    requires forall f :: f in shot.files && reader(f).Some? ==> (f.id, reader(f).value) in converted
    ensures var r := ReadFiles(setup, s, requested, shot, reader, budget);
      CacheTrue(r.state.cache, converted) && forall i :: 0 <= i < |r.items| ==> TextTrue(r.items[i], converted, budget)
    decreases |requested|
  {
    if requested != [] {
      var init := requested[..|requested| - 1];
      ReadFilesTrue(setup, s, init, shot, reader, budget, converted);
      ReadFileTrue(setup, ReadFiles(setup, s, init, shot, reader, budget).state, requested[|requested| - 1], shot,
                   reader, budget, converted);
    }
  }

  lemma {:induction false} EffectsKeepCache(setup: Setup, s: State, effects: seq<Effect>)
    ensures ApplyAll(setup, s, effects).cache == s.cache
    decreases |effects|
  {
    if effects != [] {
      EffectsKeepCache(setup, s, effects[..|effects| - 1]);
    }
  }

  ghost predicate AnswerTrue(setup: Setup, call: Call, a: Answer, converted: set<(string, Content)>) {
    && CacheTrue(a.state.cache, converted)
    && (a.reply.Files? ==>
          && call.ReadEvidence? && 0 < |call.sources| <= MAX_SOURCES
          && forall i :: 0 <= i < |a.reply.items| ==>
               TextTrue(a.reply.items[i], converted, TextBudget(setup.maxBytes, |call.sources|)))
  }

  lemma EvidenceTrue(setup: Setup, s: State, call: Call, converted: set<(string, Content)>)
    requires call.ReadEvidence? && CacheTrue(s.cache, converted)
    ensures AnswerTrue(setup, call, Execute(setup, s, call), converted + ConvertedIn(call))
  {
    if call.snapshot.Some? && ValidRequest(s, call.sources) {
      ReadFilesTrue(setup, s, call.sources, call.snapshot.value, call.reader,
                    TextBudget(setup.maxBytes, |call.sources|), converted + ConvertedIn(call));
    }
  }

  lemma ExecuteTrue(setup: Setup, s: State, call: Call, converted: set<(string, Content)>)
    requires CacheTrue(s.cache, converted)
    ensures AnswerTrue(setup, call, Execute(setup, s, call), converted + ConvertedIn(call))
  {
    match call
    case ReadEvidence(_, _, _) => EvidenceTrue(setup, s, call, converted);
    case ReadCurrentContext(snapshot) =>
      if snapshot.Some? {
        ListFilesKeeps(setup, CurrentContext(setup, s, snapshot).state, s, snapshot.value);
      }
    case OtherTool(effects, _) => EffectsKeepCache(setup, s, effects);
    case _ =>
  }

  lemma {:induction false} RunKeepsCacheTrue(setup: Setup, calls: seq<Call>)
    ensures CacheTrue(Run(setup, calls).cache, Converted(calls))
    decreases |calls|
  {
    if calls != [] {
      var init := calls[..|calls| - 1];
      RunKeepsCacheTrue(setup, init);
      ExecuteTrue(setup, Run(setup, init), calls[|calls| - 1], Converted(init));
    }
  }

  /** Whatever is shown under a file's id is a conversion of that file, clipped to
      the budget, even when it comes from the cache. */
  lemma ShownTextIsTheFiles(setup: Setup, calls: seq<Call>, k: nat)
    requires k < |calls| && ReplyAt(setup, calls, k).Files?
    ensures calls[k].ReadEvidence? && 0 < |calls[k].sources| <= MAX_SOURCES
    ensures forall i :: 0 <= i < |ReplyAt(setup, calls, k).items| ==>
      TextTrue(ReplyAt(setup, calls, k).items[i], Converted(calls[..k + 1]),
        TextBudget(setup.maxBytes, |calls[k].sources|))
  {
    RunKeepsCacheTrue(setup, calls[..k]);
    ExecuteTrue(setup, Run(setup, calls[..k]), calls[k], Converted(calls[..k]));
    assert calls[..k + 1][..k] == calls[..k];
  }

  /** Text or an image of the file. */
  predicate ShowsSomething(item: Item) {
    item.outcome.Given? && (item.outcome.text != [] || item.outcome.images > 0)
  }

  /** The reply may be as long as the part that is reserved and one character for each
      file that can be asked for. */
  const SHOWING_BYTES: nat := RESERVED_BYTES + 2 * 4 * MAX_SOURCES

  /** With that much room something is shown of every file that counts as shown. */
  lemma ShownIsSomething(setup: Setup, calls: seq<Call>, k: nat, i: nat)
    requires k < |calls| && ReplyAt(setup, calls, k).Files? && i < |ReplyAt(setup, calls, k).items|
    requires ReplyAt(setup, calls, k).items[i].outcome.Given? && setup.maxBytes >= SHOWING_BYTES
    requires forall c :: c in Converted(calls[..k + 1]) ==> Valid(c.1.text)
    ensures ShowsSomething(ReplyAt(setup, calls, k).items[i])
  {
    ShownTextIsTheFiles(setup, calls, k);
    var item, budget := ReplyAt(setup, calls, k).items[i], TextBudget(setup.maxBytes, |calls[k].sources|);
    EnoughForOne(setup.maxBytes, |calls[k].sources|);
    var content: Content :| (item.id, content) in Converted(calls[..k + 1])
      && (content.text != [] || content.images > 0)
      && item.outcome.text == ClipText(content.text, budget) && item.outcome.images == content.images;
    if content.text != [] {
      ClipIsEmptyExactly(content.text, budget);
    }
  }

  lemma EnoughForOne(maxBytes: nat, requested: nat)
    requires maxBytes >= SHOWING_BYTES && 0 < requested <= MAX_SOURCES
    ensures TextBudget(maxBytes, requested) >= 4
  {
  }

  /** With no more room than is reserved, no text is shown of any file. */
  lemma NoRoomNoText(setup: Setup, calls: seq<Call>, k: nat, i: nat)
    requires k < |calls| && ReplyAt(setup, calls, k).Files? && i < |ReplyAt(setup, calls, k).items|
    requires ReplyAt(setup, calls, k).items[i].outcome.Given? && setup.maxBytes <= RESERVED_BYTES
    ensures ReplyAt(setup, calls, k).items[i].outcome.text == []
  {
    ShownTextIsTheFiles(setup, calls, k);
  }

  lemma {:induction false} GivenItem(items: seq<Item>, id: string) returns (i: nat)
    requires id in GivenIds(items)
    ensures i < |items| && items[i].id == id && items[i].outcome.Given?
    decreases |items|
  {
    i := |items| - 1;
    if !(items[i].outcome.Given? && items[i].id == id) {
      i := GivenItem(items[..i], id);
    }
  }

  /** With that much room a file can be cited only after something of it was shown. */
  lemma CitableWasSeen(setup: Setup, calls: seq<Call>, h: Handle) returns (k: nat, i: nat)
    requires DrawsFresh(setup) && setup.maxBytes >= SHOWING_BYTES && ResolvedCitation(Run(setup, calls), h).Some?
    requires var origin := ResolvedCitation(Run(setup, calls), h).value.origin;
      origin.Business? && origin.part.Evidence?
    requires forall n: nat, c :: n <= |calls| && c in Converted(calls[..n]) ==> Valid(c.1.text)
    ensures var origin := ResolvedCitation(Run(setup, calls), h).value.origin;
      && k < |calls| && Run(setup, calls[..k]).document == origin.document && ReplyAt(setup, calls, k).Files?
      && i < |ReplyAt(setup, calls, k).items| && ReplyAt(setup, calls, k).items[i].id == origin.part.id
      && ShowsSomething(ReplyAt(setup, calls, k).items[i])
  {
    CitableWasShown(setup, calls, h);
    var origin := ResolvedCitation(Run(setup, calls), h).value.origin;
    k :| k < |calls| && origin.part.id in GivenIn(ReplyAt(setup, calls, k))
      && Run(setup, calls[..k]).document == origin.document;
    i := GivenItem(ReplyAt(setup, calls, k).items, origin.part.id);
    ShownIsSomething(setup, calls, k, i);
  }
}
