/** What the replies of the tool executor mean: what is given of a file and when,
    what is read from storage for it, and what may be cited afterwards. */
module ExecutorReplies {
  import opened Executor
  import opened Options

  // ------------------------------------------------------------- one file's reading

  /** The first file with that id. */
  ghost predicate FirstWithId(files: seq<File>, id: string, f: File) {
    exists k: nat :: k < |files| && files[k] == f && f.id == id && forall j: nat :: j < k ==> files[j].id != id
  }

  lemma {:induction false} FindFileIsFirst(files: seq<File>, id: string)
    ensures forall f :: FindFile(files, id) == Some(f) <==> FirstWithId(files, id, f)
    ensures FindFile(files, id).None? <==> forall f :: f in files ==> f.id != id
  {
    if files != [] {
      FindFileIsFirst(files[1..], id);
      forall f
        ensures FindFile(files, id) == Some(f) <==> FirstWithId(files, id, f)
      {
        FirstWithIdHere(files, id, f);
      }
    }
  }

  lemma FirstWithIdHere(files: seq<File>, id: string, f: File)
    requires files != []
    ensures FirstWithId(files, id, f) <==>
      if files[0].id == id then files[0] == f else FirstWithId(files[1..], id, f)
  {
    if files[0].id == id {
      assert files[0] == f ==> FirstWithId(files, id, f);
    } else {
      if FirstWithId(files, id, f) {
        var k: nat :| k < |files| && files[k] == f && f.id == id && forall j: nat :: j < k ==> files[j].id != id;
        assert files[1..][k - 1] == f;
        assert forall j: nat :: j < k - 1 ==> files[1..][j] == files[j + 1];
      }
      if FirstWithId(files[1..], id, f) {
        var k: nat :| k < |files[1..]| && files[1..][k] == f && f.id == id
          && forall j: nat :: j < k ==> files[1..][j].id != id;
        assert files[k + 1] == f;
        assert forall j: nat :: 0 < j < k + 1 ==> files[j] == files[1..][j - 1];
      }
    }
  }

  /** The file may still be fetched when `spent` bytes were: 12 MiB each, 24 in all. */
  predicate Affordable(f: File, spent: int) {
    0 < f.size <= 12 * 1024 * 1024 && spent + f.size <= 24 * 1024 * 1024
  }

  /** The content to be shown: converted before, or fetched now. */
  predicate HasContent(s: State, spent: int, f: File, reader: Reader, content: Content) {
    if f.id in s.cache then content == s.cache[f.id] else Affordable(f, spent) && reader(f) == Some(content)
  }

  /** What becomes of a file when `spent` bytes have been read. */
  ghost predicate Explained(s: State, spent: int, f: File, reader: Reader, budget: nat, outcome: Outcome) {
    var there, given, fetched := f.ready && f.id != "", f.id in s.delivered, f.id in s.cache;
    && (outcome.Missing? <==> !there)
    && (outcome.AlreadyGiven? <==> there && given)
    && (outcome.OverLimit? <==> there && !given && !fetched && !Affordable(f, spent))
    && (outcome.Unreadable? <==> there && !given && !fetched && Affordable(f, spent) && reader(f) == None)
    && (outcome.Empty? || outcome.Given? <==>
          there && !given && exists content :: HasContent(s, spent, f, reader, content))
    && forall content :: there && !given && HasContent(s, spent, f, reader, content) ==>
         outcome ==
           if content.text == [] && content.images == 0 then Empty
           else
             var text := ClipText(content.text, budget);
             Given(text, content.images, |text| < |content.text|)
  }

  /** The same for the file that an id stands for, which may be gone. */
  ghost predicate ExplainedById(s: State, spent: int, files: seq<File>, id: string, reader: Reader, budget: nat,
                                outcome: Outcome)
  {
    && (forall f :: FirstWithId(files, id, f) ==> Explained(s, spent, f, reader, budget, outcome))
    && ((forall f :: f in files ==> f.id != id) ==> outcome == Missing)
  }

  /** The source behind a handle after its file was asked for. */
  function After(setup: Setup, was: Source, outcome: Outcome): Source {
    Source(was.origin, was.read || outcome.Given? || outcome.AlreadyGiven?,
           if outcome.Given? then setup.excerpt(outcome.text) else was.excerpt)
  }

  /** The bytes fetched for a file: its size, when it was not converted before and the
      reader was asked. */
  function Fetched(cache: map<string, Content>, shot: Snapshot, item: Item): int {
    var file := FindFile(shot.files, item.id);
    if file.Some? && item.id !in cache && (item.outcome.Given? || item.outcome.Empty? || item.outcome.Unreadable?)
    then file.value.size
    else 0
  }

  lemma ReadingIsExplained(setup: Setup, s: State, h: Handle, shot: Snapshot, reader: Reader, budget: nat)
    requires h in s.handles && s.handles[h].origin.Business? && s.handles[h].origin.part.Evidence?
    ensures var r := ReadFile(setup, s, h, shot, reader, budget);
      ExplainedById(s, s.readBytes, shot.files, s.handles[h].origin.part.id, reader, budget, r.item.outcome)
  {
    var id, r := s.handles[h].origin.part.id, ReadFile(setup, s, h, shot, reader, budget);
    FindFileIsFirst(shot.files, id);
    forall f | FirstWithId(shot.files, id, f)
      ensures Explained(s, s.readBytes, f, reader, budget, r.item.outcome)
    {
      if id in s.cache {
        assert HasContent(s, s.readBytes, f, reader, s.cache[id]);
      } else if reader(f).Some? {
        assert Affordable(f, s.readBytes) ==> HasContent(s, s.readBytes, f, reader, reader(f).value);
      }
    }
  }

  lemma GivingLeaves(setup: Setup, s: State, h: Handle, id: string, content: Content, budget: nat)
    requires h in s.handles && s.handles[h].origin.Business?
    ensures var r := Give(setup, s, h, id, content, budget);
      && r.item.handle == h && r.item.id == id && (r.item.outcome.Given? || r.item.outcome.Empty?)
      && r.state == s.(handles := s.handles[h := After(setup, s.handles[h], r.item.outcome)])
  {
  }

  /** A file that is not given changes its handle at most, and what was fetched. */
  lemma NotGivenLeaves(setup: Setup, s: State, h: Handle, shot: Snapshot, reader: Reader, budget: nat)
    requires h in s.handles && s.handles[h].origin.Business? && s.handles[h].origin.part.Evidence?
    requires var o := ReadFile(setup, s, h, shot, reader, budget).item.outcome; !o.Given? && !o.Empty?
    ensures var r := ReadFile(setup, s, h, shot, reader, budget);
      && r.item.handle == h && r.item.id == s.handles[h].origin.part.id
      && r.state == s.(handles := s.handles[h := After(setup, s.handles[h], r.item.outcome)],
                       readBytes := s.readBytes + Fetched(s.cache, shot, r.item))
  {
  }

  /** A file that is given was in the cache, or comes into it. */
  lemma GivenLeaves(setup: Setup, s: State, h: Handle, shot: Snapshot, reader: Reader, budget: nat)
    requires h in s.handles && s.handles[h].origin.Business? && s.handles[h].origin.part.Evidence?
    requires var o := ReadFile(setup, s, h, shot, reader, budget).item.outcome; o.Given? || o.Empty?
    ensures var r, id := ReadFile(setup, s, h, shot, reader, budget), s.handles[h].origin.part.id;
      var file := FindFile(shot.files, id);
      && r.item.handle == h && r.item.id == id
      && r.state.handles == s.handles[h := After(setup, s.handles[h], r.item.outcome)]
      && if id in s.cache then r.state == s.(handles := r.state.handles)
         else
           && file.Some? && reader(file.value).Some? && file.value.size > 0
           && r.state == s.(handles := r.state.handles, readBytes := s.readBytes + file.value.size,
                            cache := s.cache[id := reader(file.value).value])
  {
    var id := s.handles[h].origin.part.id;
    var file := FindFile(shot.files, id);
    if id in s.cache {
      GivingLeaves(setup, s, h, id, s.cache[id], budget);
    } else {
      var content := reader(file.value).value;
      GivingLeaves(setup, s.(readBytes := s.readBytes + file.value.size, cache := s.cache[id := content]), h, id,
                   content, budget);
    }
  }

  lemma ReadingHandles(setup: Setup, s: State, h: Handle, shot: Snapshot, reader: Reader, budget: nat)
    requires h in s.handles && s.handles[h].origin.Business? && s.handles[h].origin.part.Evidence?
    ensures var r := ReadFile(setup, s, h, shot, reader, budget);
      && r.item.handle == h && r.item.id == s.handles[h].origin.part.id
      && r.state.handles == s.handles[h := After(setup, s.handles[h], r.item.outcome)]
      && r.state == s.(handles := r.state.handles, cache := r.state.cache, readBytes := r.state.readBytes)
  {
    var o := ReadFile(setup, s, h, shot, reader, budget).item.outcome;
    if o.Given? || o.Empty? {
      GivenLeaves(setup, s, h, shot, reader, budget);
    } else {
      NotGivenLeaves(setup, s, h, shot, reader, budget);
    }
  }

  lemma ReadingBytes(setup: Setup, s: State, h: Handle, shot: Snapshot, reader: Reader, budget: nat)
    requires h in s.handles && s.handles[h].origin.Business? && s.handles[h].origin.part.Evidence?
    ensures var r := ReadFile(setup, s, h, shot, reader, budget);
      r.state.readBytes == s.readBytes + Fetched(s.cache, shot, r.item)
  {
  }

  /** Content is added for that file only, as the reader converted it. */
  lemma ReadingCache(setup: Setup, s: State, h: Handle, shot: Snapshot, reader: Reader, budget: nat)
    requires h in s.handles && s.handles[h].origin.Business? && s.handles[h].origin.part.Evidence?
    ensures var r := ReadFile(setup, s, h, shot, reader, budget);
      var id, file := r.item.id, FindFile(shot.files, r.item.id);
      && (r.item.outcome.Given? || r.item.outcome.Empty? ==> id in r.state.cache)
      && (r.state.cache == s.cache ||
          (id !in s.cache && file.Some? && reader(file.value).Some?
           && r.state.cache == s.cache[id := reader(file.value).value]))
  {
    var o := ReadFile(setup, s, h, shot, reader, budget).item.outcome;
    if o.Given? || o.Empty? {
      GivenLeaves(setup, s, h, shot, reader, budget);
    } else {
      NotGivenLeaves(setup, s, h, shot, reader, budget);
    }
  }

  // --------------------------------------------------------------------- a batch

  lemma OtherIds(s: State, requested: seq<Handle>)
    requires requested != [] && ValidRequest(s, requested)
    ensures var n := |requested| - 1;
      ValidRequest(s, requested[..n]) && requested[n] !in requested[..n]
      && forall k :: 0 <= k < n ==> s.handles[requested[k]].origin.part.id != s.handles[requested[n]].origin.part.id
  {
  }

  lemma OneMoreFile(setup: Setup, s: State, requested: seq<Handle>, shot: Snapshot, reader: Reader, budget: nat)
    requires requested != [] && ValidRequest(s, requested) && ValidRequest(s, requested[..|requested| - 1])
    ensures var r := ReadFiles(setup, s, requested[..|requested| - 1], shot, reader, budget);
      var one := ReadFile(setup, r.state, requested[|requested| - 1], shot, reader, budget);
      ReadFiles(setup, s, requested, shot, reader, budget) == Readings(one.state, r.items + [one.item])
  {
  }

  /** Every handle asked for stands for what became of its file; all others are as
      they were. */
  ghost predicate HandlesExplained(setup: Setup, s: State, requested: seq<Handle>, r: Readings) {
    && |r.items| == |requested| && r.state.handles.Keys == s.handles.Keys
    && (forall h :: h in s.handles && h !in requested ==> r.state.handles[h] == s.handles[h])
    && (forall i :: 0 <= i < |requested| ==>
          && requested[i] in s.handles && s.handles[requested[i]].origin.Business?
          && s.handles[requested[i]].origin.part.Evidence?
          && r.items[i].handle == requested[i] && r.items[i].id == s.handles[requested[i]].origin.part.id
          && r.state.handles[requested[i]] == After(setup, s.handles[requested[i]], r.items[i].outcome))
    && r.state == s.(handles := r.state.handles, cache := r.state.cache, readBytes := r.state.readBytes)
  }

  lemma {:induction false} BatchHandles(setup: Setup, s: State, requested: seq<Handle>, shot: Snapshot,
                                        reader: Reader, budget: nat)
    requires ValidRequest(s, requested)
    ensures HandlesExplained(setup, s, requested, ReadFiles(setup, s, requested, shot, reader, budget))
    decreases |requested|
  {
    if requested != [] {
      var init := requested[..|requested| - 1];
      OtherIds(s, requested);
      OneMoreFile(setup, s, requested, shot, reader, budget);
      var r := ReadFiles(setup, s, init, shot, reader, budget);
      assert HandlesExplained(setup, s, requested, ReadFiles(setup, s, requested, shot, reader, budget)) by {
        BatchHandles(setup, s, init, shot, reader, budget);
        OneMoreHandle(setup, s, requested, r, shot, reader, budget);
      }
    }
  }

  lemma OneMoreHandle(setup: Setup, s: State, requested: seq<Handle>, r: Readings, shot: Snapshot, reader: Reader,
                      budget: nat)
    requires requested != [] && requested[|requested| - 1] !in requested[..|requested| - 1]
    requires HandlesExplained(setup, s, requested[..|requested| - 1], r)
    requires var h := requested[|requested| - 1];
      h in s.handles && s.handles[h].origin.Business? && s.handles[h].origin.part.Evidence?
    ensures requested[|requested| - 1] in r.state.handles
    ensures r.state.handles[requested[|requested| - 1]] == s.handles[requested[|requested| - 1]]
    ensures var one := ReadFile(setup, r.state, requested[|requested| - 1], shot, reader, budget);
      HandlesExplained(setup, s, requested, Readings(one.state, r.items + [one.item]))
  {
    var h := requested[|requested| - 1];
    ReadingHandles(setup, r.state, h, shot, reader, budget);
    HandlesGrow(setup, s, requested, r, ReadFile(setup, r.state, h, shot, reader, budget));
  }

  lemma HandlesGrow(setup: Setup, s: State, requested: seq<Handle>, r: Readings, one: Reading)
    requires requested != [] && requested[|requested| - 1] !in requested[..|requested| - 1]
    requires HandlesExplained(setup, s, requested[..|requested| - 1], r)
    requires var h := requested[|requested| - 1];
      && h in s.handles && s.handles[h].origin.Business? && s.handles[h].origin.part.Evidence?
      && one.item.handle == h && one.item.id == s.handles[h].origin.part.id
      && one.state.handles == r.state.handles[h := After(setup, s.handles[h], one.item.outcome)]
      && one.state == r.state.(handles := one.state.handles, cache := one.state.cache, readBytes := one.state.readBytes)
    ensures HandlesExplained(setup, s, requested, Readings(one.state, r.items + [one.item]))
  {
    var n := |requested| - 1;
    assert requested == requested[..n] + [requested[n]];
    assert forall i :: 0 <= i < n ==> requested[..n][i] == requested[i] && requested[i] in requested[..n];
  }

  /** Cached content stays, and what is added was asked for and is as the reader
      converted it; whatever was converted is added. */
  ghost predicate CacheExplained(s: State, shot: Snapshot, reader: Reader, items: seq<Item>,
                                 cache: map<string, Content>)
  {
    && (forall id :: id in s.cache ==> id in cache && cache[id] == s.cache[id])
    && (forall i :: 0 <= i < |items| && (items[i].outcome.Given? || items[i].outcome.Empty?) ==> items[i].id in cache)
    && forall id :: id in cache && id !in s.cache ==>
         && (exists i :: 0 <= i < |items| && items[i].id == id)
         && FindFile(shot.files, id).Some? && reader(FindFile(shot.files, id).value) == Some(cache[id])
  }

  lemma {:induction false} BatchCache(setup: Setup, s: State, requested: seq<Handle>, shot: Snapshot,
                                      reader: Reader, budget: nat)
    requires ValidRequest(s, requested)
    ensures var r := ReadFiles(setup, s, requested, shot, reader, budget);
      CacheExplained(s, shot, reader, r.items, r.state.cache)
    decreases |requested|
  {
    if requested != [] {
      var init, h := requested[..|requested| - 1], requested[|requested| - 1];
      BatchCache(setup, s, init, shot, reader, budget);
      var r := ReadFiles(setup, s, init, shot, reader, budget);
      ReadingCache(setup, r.state, h, shot, reader, budget);
      CacheGrows(s, shot, reader, r, ReadFile(setup, r.state, h, shot, reader, budget));
    }
  }

  lemma CacheGrows(s: State, shot: Snapshot, reader: Reader, r: Readings, one: Reading)
    requires CacheExplained(s, shot, reader, r.items, r.state.cache)
    requires var id, file := one.item.id, FindFile(shot.files, one.item.id);
      && (one.item.outcome.Given? || one.item.outcome.Empty? ==> id in one.state.cache)
      && (one.state.cache == r.state.cache ||
          (id !in r.state.cache && file.Some? && reader(file.value).Some?
           && one.state.cache == r.state.cache[id := reader(file.value).value]))
    ensures CacheExplained(s, shot, reader, r.items + [one.item], one.state.cache)
  {
    var items := r.items + [one.item];
    forall id | id in one.state.cache && id !in s.cache
      ensures exists i :: 0 <= i < |items| && items[i].id == id
    {
      if id in r.state.cache {
        var i :| 0 <= i < |r.items| && r.items[i].id == id;
        assert items[i].id == id;
      } else {
        assert items[|r.items|].id == id;
      }
    }
  }

  /** The bytes fetched for the files of a batch. */
  function FetchedBy(cache: map<string, Content>, shot: Snapshot, items: seq<Item>): int {
    if items == [] then 0
    else FetchedBy(cache, shot, items[..|items| - 1]) + Fetched(cache, shot, items[|items| - 1])
  }

  /** The last file of a request is not one that the files before it put into the cache. */
  lemma NewToCache(setup: Setup, s: State, requested: seq<Handle>, shot: Snapshot, reader: Reader, budget: nat)
    requires requested != [] && ValidRequest(s, requested)
    ensures var n := |requested| - 1;
      var id, cache := s.handles[requested[n]].origin.part.id,
        ReadFiles(setup, s, requested[..n], shot, reader, budget).state.cache;
      (id in cache <==> id in s.cache) && (id in s.cache ==> cache[id] == s.cache[id])
  {
    var n := |requested| - 1;
    OtherIds(s, requested);
    BatchHandles(setup, s, requested[..n], shot, reader, budget);
    BatchCache(setup, s, requested[..n], shot, reader, budget);
    var r := ReadFiles(setup, s, requested[..n], shot, reader, budget);
    assert forall k :: 0 <= k < n ==> requested[..n][k] == requested[k];
    assert forall k :: 0 <= k < n ==> r.items[k].id == s.handles[requested[k]].origin.part.id;
  }

  /** What is charged is exactly the size of each file that was not converted before
      and was handed to the reader. */
  lemma {:induction false} BatchBytes(setup: Setup, s: State, requested: seq<Handle>, shot: Snapshot,
                                      reader: Reader, budget: nat)
    requires ValidRequest(s, requested)
    ensures var r := ReadFiles(setup, s, requested, shot, reader, budget);
      r.state.readBytes == s.readBytes + FetchedBy(s.cache, shot, r.items)
    decreases |requested|
  {
    if requested != [] {
      var init, h := requested[..|requested| - 1], requested[|requested| - 1];
      BatchBytes(setup, s, init, shot, reader, budget);
      var r := ReadFiles(setup, s, init, shot, reader, budget);
      var one := ReadFile(setup, r.state, h, shot, reader, budget);
      ReadingHandles(setup, r.state, h, shot, reader, budget);
      ReadingBytes(setup, r.state, h, shot, reader, budget);
      NewToCache(setup, s, requested, shot, reader, budget);
      assert (r.items + [one.item])[..|r.items + [one.item]| - 1] == r.items;
    }
  }

  /** What was known of a file before the batch still holds when it is reached. */
  lemma LaterItem(s: State, t: State, files: seq<File>, id: string, reader: Reader, budget: nat, outcome: Outcome)
    requires ExplainedById(t, t.readBytes, files, id, reader, budget, outcome)
    requires t.delivered == s.delivered && (id in t.cache <==> id in s.cache)
    requires id in s.cache ==> t.cache[id] == s.cache[id]
    ensures ExplainedById(s, t.readBytes, files, id, reader, budget, outcome)
  {
    forall f | FirstWithId(files, id, f)
      ensures Explained(s, t.readBytes, f, reader, budget, outcome)
    {
      assert forall c :: HasContent(s, t.readBytes, f, reader, c) <==> HasContent(t, t.readBytes, f, reader, c);
    }
  }

  /** Every item of a batch says what becomes of its file at the point where the files
      before it have been fetched. */
  ghost predicate ItemsExplained(s: State, shot: Snapshot, reader: Reader, budget: nat, items: seq<Item>) {
    forall i: nat :: i < |items| ==> ItemExplained(s, shot, reader, budget, items[..i], items[i])
  }

  /** An item after the items before it. */
  ghost predicate ItemExplained(s: State, shot: Snapshot, reader: Reader, budget: nat, before: seq<Item>, item: Item) {
    ExplainedById(s, s.readBytes + FetchedBy(s.cache, shot, before), shot.files, item.id, reader, budget, item.outcome)
  }

  /** A file is reached in state t after `spent` bytes, as if the batch began with it. */
  ghost predicate Reached(s: State, t: State, h: Handle, spent: int) {
    && h in s.handles && h in t.handles && t.handles[h].origin == s.handles[h].origin
    && s.handles[h].origin.Business? && s.handles[h].origin.part.Evidence?
    && t.delivered == s.delivered && t.readBytes == spent
    && var id := s.handles[h].origin.part.id;
       (id in t.cache <==> id in s.cache) && (id in s.cache ==> t.cache[id] == s.cache[id])
  }

  lemma LastIsReached(setup: Setup, s: State, requested: seq<Handle>, shot: Snapshot, reader: Reader, budget: nat)
    requires requested != [] && ValidRequest(s, requested) && ValidRequest(s, requested[..|requested| - 1])
    ensures var r := ReadFiles(setup, s, requested[..|requested| - 1], shot, reader, budget);
      Reached(s, r.state, requested[|requested| - 1], s.readBytes + FetchedBy(s.cache, shot, r.items))
  {
    var init := requested[..|requested| - 1];
    NewToCache(setup, s, requested, shot, reader, budget);
    assert ReadFiles(setup, s, init, shot, reader, budget).state.delivered == s.delivered by {
      BatchHandles(setup, s, init, shot, reader, budget);
    }
    BatchBytes(setup, s, init, shot, reader, budget);
  }

  lemma ReachedIsExplained(setup: Setup, s: State, t: State, h: Handle, before: seq<Item>, shot: Snapshot,
                           reader: Reader, budget: nat)
    requires Reached(s, t, h, s.readBytes + FetchedBy(s.cache, shot, before))
    ensures ItemExplained(s, shot, reader, budget, before, ReadFile(setup, t, h, shot, reader, budget).item)
  {
    var one := ReadFile(setup, t, h, shot, reader, budget).item;
    ReadingId(setup, t, h, shot, reader, budget);
    ReadingIsExplained(setup, t, h, shot, reader, budget);
    LaterItem(s, t, shot.files, one.id, reader, budget, one.outcome);
  }

  lemma ReadingId(setup: Setup, s: State, h: Handle, shot: Snapshot, reader: Reader, budget: nat)
    requires h in s.handles && s.handles[h].origin.Business? && s.handles[h].origin.part.Evidence?
    ensures ReadFile(setup, s, h, shot, reader, budget).item.id == s.handles[h].origin.part.id
  {
    ReadingHandles(setup, s, h, shot, reader, budget);
  }

  lemma {:induction false} BatchItems(setup: Setup, s: State, requested: seq<Handle>, shot: Snapshot,
                                      reader: Reader, budget: nat)
    requires ValidRequest(s, requested)
    ensures ItemsExplained(s, shot, reader, budget, ReadFiles(setup, s, requested, shot, reader, budget).items)
    decreases |requested|
  {
    if requested != [] {
      var init, h := requested[..|requested| - 1], requested[|requested| - 1];
      OtherIds(s, requested);
      var r, all := ReadFiles(setup, s, init, shot, reader, budget), ReadFiles(setup, s, requested, shot, reader, budget);
      BatchItems(setup, s, init, shot, reader, budget);
      LastIsReached(setup, s, requested, shot, reader, budget);
      NextItem(setup, s, r, h, shot, reader, budget, all);
    }
  }

  lemma NextItem(setup: Setup, s: State, r: Readings, h: Handle, shot: Snapshot, reader: Reader, budget: nat,
                 all: Readings)
    requires ItemsExplained(s, shot, reader, budget, r.items)
    requires Reached(s, r.state, h, s.readBytes + FetchedBy(s.cache, shot, r.items))
    requires all.items == r.items + [ReadFile(setup, r.state, h, shot, reader, budget).item]
    ensures ItemsExplained(s, shot, reader, budget, all.items)
  {
    ReachedIsExplained(setup, s, r.state, h, r.items, shot, reader, budget);
    ItemsGrow(s, shot, reader, budget, r.items, ReadFile(setup, r.state, h, shot, reader, budget).item);
  }

  lemma ItemsGrow(s: State, shot: Snapshot, reader: Reader, budget: nat, items: seq<Item>, item: Item)
    requires ItemsExplained(s, shot, reader, budget, items)
    requires ItemExplained(s, shot, reader, budget, items, item)
    ensures ItemsExplained(s, shot, reader, budget, items + [item])
  {
    var all := items + [item];
    forall i: nat | i < |all|
      ensures ItemExplained(s, shot, reader, budget, all[..i], all[i])
    {
      if i < |items| {
        assert all[..i] == items[..i];
      } else {
        assert all[..i] == items;
      }
    }
  }

  // ----------------------------------------------------------- answers about files

  /** A request that is looked at: one to four handles, of different files of the open
      record, which can be read. */
  ghost predicate Answerable(s: State, call: Call)
    requires call.ReadEvidence?
  {
    && 1 <= |call.sources| <= 4 && call.snapshot.Some? && s.readable
    && (forall k :: 0 <= k < |call.sources| ==>
          && call.sources[k] in s.handles
          && var origin := s.handles[call.sources[k]].origin;
          origin.Business? && origin.document == s.document && origin.part.Evidence?)
    && forall k, l :: 0 <= k < l < |call.sources| ==>
         s.handles[call.sources[k]].origin != s.handles[call.sources[l]].origin
  }

  lemma AnswerableIsValid(s: State, call: Call)
    requires call.ReadEvidence?
    ensures Answerable(s, call) <==>
      1 <= |call.sources| <= MAX_SOURCES && call.snapshot.Some? && s.readable && ValidRequest(s, call.sources)
  {
    var q, handles := call.sources, s.handles;
    if ValidRequest(s, q) {
      assert forall k, l :: 0 <= k < l < |q| ==> handles[q[k]].origin.part.id != handles[q[l]].origin.part.id;
    }
  }

  function Room(maxBytes: int, files: int): nat
    requires files > 0
  {
    if maxBytes <= 4096 then 0 else (maxBytes - 4096) / files / 2
  }

  /** A request for files is answered exactly when it may be looked at and the answer
      fits; a refusal leaves every handle and the files given as they were. */
  lemma EvidenceRefused(setup: Setup, s: State, call: Call)
    requires call.ReadEvidence?
    ensures var a := Execute(setup, s, call);
      && (a.reply.Files? || a.reply == Refused)
      && (!Answerable(s, call) ==> a.reply == Refused && a.state == s)
      && (Answerable(s, call) ==>
            var items := ReadFiles(setup, s, call.sources, call.snapshot.value, call.reader,
                                   Room(setup.maxBytes, |call.sources|)).items;
            a.reply == if setup.encoded(Files(items)) <= setup.maxBytes then Files(items) else Refused)
  {
    AnswerableIsValid(s, call);
  }

  /** What an item means for the handle of its file: it can be cited exactly when it
      could be before or the file was given now or earlier, and with the text given now. */
  ghost predicate Cites(setup: Setup, s: State, item: Item, after: State) {
    && item.handle in s.handles && s.handles[item.handle].origin == Business(s.document, Evidence(item.id))
    && (ResolvedCitation(after, item.handle).Some? <==>
          ResolvedCitation(s, item.handle).Some? || item.outcome.Given? || item.outcome.AlreadyGiven?)
    && (item.outcome.Given? ==>
          ResolvedCitation(after, item.handle).value.excerpt == setup.excerpt(item.outcome.text))
  }

  /** Every handle that was asked for is cited as its item says, and no other changes. */
  ghost predicate AllCite(setup: Setup, s: State, requested: seq<Handle>, items: seq<Item>, after: State) {
    && |items| == |requested|
    && (forall i: nat :: i < |items| ==> items[i].handle == requested[i] && Cites(setup, s, items[i], after))
    && forall h :: h !in requested ==> ResolvedCitation(after, h) == ResolvedCitation(s, h)
  }

  /** The items are explained by the files at hand, everything fetched is kept and
      charged, and the files given are noted as given. */
  ghost predicate FilesAnswered(setup: Setup, s: State, call: Call, a: Answer)
    requires call.ReadEvidence? && call.snapshot.Some? && call.sources != [] && a.reply.Files?
  {
    var items, shot := a.reply.items, call.snapshot.value;
    && ItemsExplained(s, shot, call.reader, Room(setup.maxBytes, |call.sources|), items)
    && CacheExplained(s, shot, call.reader, items, a.state.cache)
    && a.state.readBytes == s.readBytes + FetchedBy(s.cache, shot, items)
    && forall id :: id in a.state.delivered <==>
         id in s.delivered || exists i :: 0 <= i < |items| && items[i].id == id && items[i].outcome.Given?
  }

  lemma {:induction false} GivenIdsMembers(items: seq<Item>)
    ensures forall id :: id in GivenIds(items) <==>
      exists i :: 0 <= i < |items| && items[i].id == id && items[i].outcome.Given?
    decreases |items|
  {
    if items != [] {
      var n := |items| - 1;
      GivenIdsMembers(items[..n]);
      forall id
        ensures id in GivenIds(items) <==> exists i :: 0 <= i < |items| && items[i].id == id && items[i].outcome.Given?
      {
        if exists i :: 0 <= i < n && items[i].id == id && items[i].outcome.Given? {
          var i :| 0 <= i < n && items[i].id == id && items[i].outcome.Given?;
          assert items[..n][i] == items[i];
        }
        if exists i :: 0 <= i < n && items[..n][i].id == id && items[..n][i].outcome.Given? {
          var i :| 0 <= i < n && items[..n][i].id == id && items[..n][i].outcome.Given?;
          assert items[i].id == id;
        }
      }
    }
  }

  lemma ReplyIsBatch(setup: Setup, s: State, call: Call)
    requires call.ReadEvidence? && Execute(setup, s, call).reply.Files?
    ensures Answerable(s, call) && ValidRequest(s, call.sources)
    ensures var a := Execute(setup, s, call);
      var r := ReadFiles(setup, s, call.sources, call.snapshot.value, call.reader,
                         Room(setup.maxBytes, |call.sources|));
      a.reply == Files(r.items) && a.state == r.state.(delivered := r.state.delivered + ToSet(GivenIds(r.items)))
  {
    AnswerableIsValid(s, call);
  }

  lemma HandlesCite(setup: Setup, s: State, requested: seq<Handle>, r: Readings, after: State)
    requires HandlesExplained(setup, s, requested, r) && after.handles == r.state.handles
    requires forall k :: 0 <= k < |requested| ==>
      requested[k] in s.handles && s.handles[requested[k]].origin.Business?
      && s.handles[requested[k]].origin.document == s.document
    ensures AllCite(setup, s, requested, r.items, after)
  {
    forall i: nat | i < |r.items|
      ensures r.items[i].handle == requested[i] && Cites(setup, s, r.items[i], after)
    {
      var was := s.handles[requested[i]];
      assert after.handles[requested[i]] == After(setup, was, r.items[i].outcome);
    }
  }

  lemma BatchCites(setup: Setup, s: State, requested: seq<Handle>, shot: Snapshot, reader: Reader, budget: nat,
                   after: State)
    requires ValidRequest(s, requested)
    requires after.handles == ReadFiles(setup, s, requested, shot, reader, budget).state.handles
    ensures AllCite(setup, s, requested, ReadFiles(setup, s, requested, shot, reader, budget).items, after)
  {
    BatchHandles(setup, s, requested, shot, reader, budget);
    HandlesCite(setup, s, requested, ReadFiles(setup, s, requested, shot, reader, budget), after);
  }

  /** After an answer about files every handle whose file it gives, or says to have been
      given, can be cited, and of the others those that could be cited before. */
  lemma GivenIsCitable(setup: Setup, s: State, call: Call)
    requires call.ReadEvidence? && Execute(setup, s, call).reply.Files?
    ensures var a := Execute(setup, s, call); AllCite(setup, s, call.sources, a.reply.items, a.state)
  {
    ReplyIsBatch(setup, s, call);
    BatchCites(setup, s, call.sources, call.snapshot.value, call.reader, Room(setup.maxBytes, |call.sources|),
               Execute(setup, s, call).state);
  }

  lemma FilesAreAnswered(setup: Setup, s: State, call: Call)
    requires call.ReadEvidence? && Execute(setup, s, call).reply.Files?
    ensures call.snapshot.Some? && call.sources != []
    ensures FilesAnswered(setup, s, call, Execute(setup, s, call))
  {
    ReplyIsBatch(setup, s, call);
    var requested, shot, budget := call.sources, call.snapshot.value, Room(setup.maxBytes, |call.sources|);
    BatchHandles(setup, s, requested, shot, call.reader, budget);
    BatchCache(setup, s, requested, shot, call.reader, budget);
    BatchBytes(setup, s, requested, shot, call.reader, budget);
    BatchItems(setup, s, requested, shot, call.reader, budget);
    GivenIdsMembers(ReadFiles(setup, s, requested, shot, call.reader, budget).items);
  }

  // ------------------------------------------------------------ the record's parts

  /** The handle is new, and stands for that source. */
  predicate NewHandle(s: State, after: State, h: Handle, source: Source) {
    h !in s.handles && h in after.handles && after.handles[h] == source
  }

  ghost predicate FilesListed(s: State, files: seq<File>, l: Listed) {
    && |l.files| == |files| && Distinct(l.files)
    && l.state == s.(handles := l.state.handles)
    && (forall i :: 0 <= i < |files| ==>
          NewHandle(s, l.state, l.files[i], Source(Business(s.document, Evidence(files[i].id)), false, [])))
    && (forall h :: h in s.handles ==> h in l.state.handles && l.state.handles[h] == s.handles[h])
    && forall h :: h in l.state.handles ==> h in s.handles || h in l.files
  }

  lemma {:induction false} FilesAreListed(setup: Setup, s: State, files: seq<File>)
    requires DrawsFresh(setup)
    ensures FilesListed(s, files, ListFiles(setup, s, files))
    decreases |files|
  {
    if files != [] {
      var n := |files| - 1;
      FilesAreListed(setup, s, files[..n]);
      var l := ListFiles(setup, s, files[..n]);
      var h := setup.draw(l.state.handles.Keys);
      assert h !in l.state.handles.Keys;
      assert forall i :: 0 <= i < n ==> l.files[i] in l.state.handles;
      var m := ListFiles(setup, s, files);
      assert m.files == l.files + [h];
      forall i | 0 <= i < |files|
        ensures NewHandle(s, m.state, m.files[i], Source(Business(s.document, Evidence(files[i].id)), false, []))
      {
        assert i < n ==> files[..n][i] == files[i] && m.files[i] == l.files[i];
      }
    }
  }

  /** What a listing hands out: new handles for the facts and the rules, which can be
      cited with their text, and one for each file, which can not be cited yet. */
  ghost predicate ContextAnswered(setup: Setup, s: State, shot: Snapshot, a: Answer)
    requires a.reply.Listing?
  {
    var Listing(facts, rules, files) := a.reply;
    && NewHandle(s, a.state, facts, Source(Business(s.document, Facts), true, setup.excerpt(shot.facts)))
    && NewHandle(s, a.state, rules, Source(Business(s.document, Rules), true, setup.excerpt(shot.rules)))
    && ResolvedCitation(a.state, facts).Some? && ResolvedCitation(a.state, rules).Some?
    && |files| == |shot.files| && Distinct([facts, rules] + files)
    && (forall i :: 0 <= i < |files| ==>
          && NewHandle(s, a.state, files[i], Source(Business(s.document, Evidence(shot.files[i].id)), false, []))
          && ResolvedCitation(a.state, files[i]).None?)
    && (forall h :: h in s.handles ==> h in a.state.handles && a.state.handles[h] == s.handles[h])
    && a.state == s.(handles := a.state.handles)
  }

  lemma ContextIsAnswered(setup: Setup, s: State, shot: Snapshot)
    requires DrawsFresh(setup)
    ensures ContextAnswered(setup, s, shot, CurrentContext(setup, s, Some(shot)))
  {
    var facts := RegisterSource(setup, s, Source(Business(s.document, Facts), true, setup.excerpt(shot.facts)));
    assert facts.handle !in s.handles.Keys;
    var rules := RegisterSource(setup, facts.state,
      Source(Business(s.document, Rules), true, setup.excerpt(shot.rules)));
    assert rules.handle !in facts.state.handles.Keys;
    FilesAreListed(setup, rules.state, shot.files);
    var l := ListFiles(setup, rules.state, shot.files);
    forall i | 0 <= i < |l.files|
      ensures l.files[i] !in rules.state.handles && l.files[i] != facts.handle && l.files[i] != rules.handle
    {
      assert NewHandle(rules.state, l.state, l.files[i],
                       Source(Business(s.document, Evidence(shot.files[i].id)), false, []));
    }
  }

  /** A listing is given exactly when the record can be read and the reply fits. */
  lemma ListingIsAnswered(setup: Setup, s: State, call: Call)
    requires DrawsFresh(setup) && call.ReadCurrentContext?
    ensures var a := Execute(setup, s, call);
      && (a.reply.Listing? || a.reply == Refused)
      && (a.reply.Listing? ==> call.snapshot.Some? && ContextAnswered(setup, s, call.snapshot.value, a))
      && (call.snapshot.Some? ==>
            var reply := CurrentContext(setup, s, call.snapshot).reply;
            a.reply == if setup.encoded(reply) <= setup.maxBytes then reply else Refused)
  {
    if call.snapshot.Some? {
      ContextIsAnswered(setup, s, call.snapshot.value);
    }
  }

  // ------------------------------------------------------------------ other tools

  function ScanSizes(effects: seq<Effect>): seq<int> {
    if effects == [] then []
    else
      ScanSizes(effects[..|effects| - 1]) +
      if effects[|effects| - 1].Scan? then [effects[|effects| - 1].size] else []
  }

  function Added(sizes: seq<int>): int {
    if sizes == [] then 0 else Added(sizes[..|sizes| - 1]) + sizes[|sizes| - 1]
  }

  /** No size is negative and all of them fit into what is left. */
  predicate Fits(setup: Setup, s: State, sizes: seq<int>) {
    (forall i :: 0 <= i < |sizes| ==> sizes[i] >= 0) && s.scanned + Added(sizes) <= setup.maxScan
  }

  /** Scans that fit are charged byte for byte; otherwise the budget is used up. */
  lemma {:induction false} ScansAreCharged(setup: Setup, s: State, effects: seq<Effect>)
    requires s.scanned <= setup.maxScan && 0 < setup.maxScan
    ensures ApplyAll(setup, s, effects).scanned ==
      if Fits(setup, s, ScanSizes(effects)) then s.scanned + Added(ScanSizes(effects)) else setup.maxScan
    decreases |effects|
  {
    if effects != [] {
      var n := |effects| - 1;
      ScansAreCharged(setup, s, effects[..n]);
      var sizes := ScanSizes(effects[..n]);
      if effects[n].Scan? {
        assert ScanSizes(effects) == sizes + [effects[n].size];
        ScanOneMore(setup, s, sizes, effects[n].size);
      } else {
        assert ScanSizes(effects) == sizes;
      }
    }
  }

  lemma {:induction false} AddedNonNegative(sizes: seq<int>)
    requires forall i :: 0 <= i < |sizes| ==> sizes[i] >= 0
    ensures Added(sizes) >= 0
  {
    if sizes != [] {
      AddedNonNegative(sizes[..|sizes| - 1]);
    }
  }

  lemma ScanOneMore(setup: Setup, s: State, sizes: seq<int>, size: int)
    requires s.scanned <= setup.maxScan
    ensures Added(sizes + [size]) == Added(sizes) + size
    ensures Fits(setup, s, sizes + [size]) <==>
      Fits(setup, s, sizes) && 0 <= size <= setup.maxScan - s.scanned - Added(sizes)
  {
    var all := sizes + [size];
    assert all[..|all| - 1] == sizes && all[|sizes|] == size;
    assert forall i :: 0 <= i < |sizes| ==> all[i] == sizes[i];
  }

  /** Other tools add sources of the library and mark passages as read; nothing that
      belongs to a business record changes. */
  ghost predicate OnlyLibrary(before: map<Handle, Source>, after: map<Handle, Source>) {
    && (forall h :: h in before ==>
          && h in after && after[h].origin == before[h].origin && after[h].excerpt == before[h].excerpt
          && (after[h].read != before[h].read ==> after[h].read && after[h].origin == Library(Passage)))
    && forall h :: h in after && h !in before ==> after[h].origin.Library?
  }

  lemma EffectOnlyLibrary(setup: Setup, s: State, effect: Effect)
    requires DrawsFresh(setup)
    ensures OnlyLibrary(s.handles, Apply(setup, s, effect).handles)
  {
    assert setup.draw(s.handles.Keys) !in s.handles.Keys;
  }

  lemma OnlyLibraryTwice(a: map<Handle, Source>, b: map<Handle, Source>, c: map<Handle, Source>)
    requires OnlyLibrary(a, b) && OnlyLibrary(b, c)
    ensures OnlyLibrary(a, c)
  {
  }

  lemma {:induction false} EffectsOnlyLibrary(setup: Setup, s: State, effects: seq<Effect>)
    requires DrawsFresh(setup)
    ensures OnlyLibrary(s.handles, ApplyAll(setup, s, effects).handles)
    decreases |effects|
  {
    if effects != [] {
      var n := |effects| - 1;
      EffectsOnlyLibrary(setup, s, effects[..n]);
      var t := ApplyAll(setup, s, effects[..n]);
      EffectOnlyLibrary(setup, t, effects[n]);
      OnlyLibraryTwice(s.handles, t.handles, Apply(setup, t, effects[n]).handles);
    }
  }

  /** Other tools are not rolled back: what they did stays even when they fail or their
      reply is too long. */
  lemma EffectsStay(setup: Setup, s: State, effects: seq<Effect>, succeeds: bool)
    ensures var a := Execute(setup, s, OtherTool(effects, succeeds));
      && a.state == ApplyAll(setup, s, effects)
      && (a.reply == Done || a.reply == Refused)
      && (a.reply == Done <==> succeeds && setup.encoded(Done) <= setup.maxBytes)
  {
  }

  /** A passage can be cited once it was read, whatever is done before and after. */
  lemma {:induction false} ReadPassageIsCitable(setup: Setup, s: State, effects: seq<Effect>, h: Handle)
    requires DrawsFresh(setup) && h in s.handles && s.handles[h].origin == Library(Passage)
    ensures ResolvedCitation(ApplyAll(setup, s, effects), h).Some? <==>
      ResolvedCitation(s, h).Some? || MarkRead(h) in effects
    decreases |effects|
  {
    if effects != [] {
      var n := |effects| - 1;
      assert effects == effects[..n] + [effects[n]];
      ReadPassageIsCitable(setup, s, effects[..n], h);
      EffectsOnlyLibrary(setup, s, effects[..n]);
      OnePassage(setup, ApplyAll(setup, s, effects[..n]), effects[n], h);
    }
  }

  lemma OnePassage(setup: Setup, s: State, effect: Effect, h: Handle)
    requires DrawsFresh(setup) && h in s.handles && s.handles[h].origin == Library(Passage)
    ensures ResolvedCitation(Apply(setup, s, effect), h).Some? <==>
      ResolvedCitation(s, h).Some? || effect == MarkRead(h)
  {
    assert setup.draw(s.handles.Keys) !in s.handles.Keys;
  }

  /** A source of the library that is registered can be cited at once when it was read
      or is a whole document. */
  lemma RegisteredIsCitable(setup: Setup, s: State, kind: LibraryKind, read: bool)
    requires DrawsFresh(setup)
    ensures var t, h := Apply(setup, s, Register(kind, read)), setup.draw(s.handles.Keys);
      && NewHandle(s, t, h, Source(Library(kind), read, []))
      && (ResolvedCitation(t, h).Some? <==> read || kind == Document)
  {
    assert setup.draw(s.handles.Keys) !in s.handles.Keys;
  }

  // ------------------------------------------------------------------ from the start

  /** The answer about one file that is given for the first time. */
  function FirstGiven(h: Handle, f: File, content: Content, room: nat): Reply {
    var text := ClipText(content.text, room);
    Files([Item(h, f.id, Given(text, content.images, |text| < |content.text|))])
  }

  /** Asking for a file twice: given and citable the first time, noted as given the
      second, as far as the replies fit. */
  ghost predicate GivenOnce(setup: Setup, s: State, shot: Snapshot, h: Handle, f: File, reader: Reader, content: Content)
    requires h in s.handles
  {
    var call := ReadEvidence([h], Some(shot), reader);
    var a, room := Execute(setup, s, call), Room(setup.maxBytes, 1);
    var first, again := FirstGiven(h, f, content, room), Files([Item(h, f.id, AlreadyGiven)]);
    setup.encoded(first) <= setup.maxBytes ==>
      && a.reply == first
      && ResolvedCitation(a.state, h) ==
           Some(Source(s.handles[h].origin, true, setup.excerpt(ClipText(content.text, room))))
      && (setup.encoded(again) <= setup.maxBytes ==> Execute(setup, a.state, call).reply == again)
  }

  /** Whatever happened before: once a record is opened and listed, any of its files
      that is ready, within 12 MiB and not blank is given when it is asked for, can be
      cited from then on, and is not given again. */
  lemma OpenedRecordGives(setup: Setup, before: State, document: string, shot: Snapshot, i: nat, reader: Reader,
                          content: Content)
    requires DrawsFresh(setup) && i < |shot.files| && FirstWithId(shot.files, shot.files[i].id, shot.files[i])
    requires shot.files[i].id != "" && shot.files[i].ready && 0 < shot.files[i].size <= 12 * 1024 * 1024
    requires reader(shot.files[i]) == Some(content) && !(content.text == [] && content.images == 0)
    ensures var begun := Execute(setup, before, UseResource(document, true)).state;
      var listed := Execute(setup, begun, ReadCurrentContext(Some(shot)));
      listed.reply.Listing? ==>
        && |listed.reply.files| == |shot.files| && listed.reply.files[i] in listed.state.handles
        && listed.state.handles[listed.reply.files[i]].origin == Business(document, Evidence(shot.files[i].id))
        && GivenOnce(setup, listed.state, shot, listed.reply.files[i], shot.files[i], reader, content)
  {
    var begun := Execute(setup, before, UseResource(document, true)).state;
    ListingIsAnswered(setup, begun, ReadCurrentContext(Some(shot)));
    var listed := Execute(setup, begun, ReadCurrentContext(Some(shot)));
    if listed.reply.Listing? {
      FirstReading(setup, listed.state, shot, listed.reply.files[i], shot.files[i], reader, content);
    }
  }

  lemma FirstReading(setup: Setup, s: State, shot: Snapshot, h: Handle, f: File, reader: Reader, content: Content)
    requires h in s.handles && s.handles[h] == Source(Business(s.document, Evidence(f.id)), false, [])
    requires s.readable && s.delivered == {} && s.cache == map[] && s.readBytes == 0
    requires FirstWithId(shot.files, f.id, f) && f.id != "" && f.ready && 0 < f.size <= 12 * 1024 * 1024
    requires reader(f) == Some(content) && !(content.text == [] && content.images == 0)
    ensures GivenOnce(setup, s, shot, h, f, reader, content)
  {
    FindFileIsFirst(shot.files, f.id);
    OneReading(setup, s, h, shot, reader);
    var read := Execute(setup, s, ReadEvidence([h], Some(shot), reader));
    if read.reply.Files? {
      OneReading(setup, read.state, h, shot, reader);
    }
  }

  lemma OneReading(setup: Setup, s: State, h: Handle, shot: Snapshot, reader: Reader)
    requires h in s.handles && s.readable
    requires s.handles[h].origin.Business? && s.handles[h].origin.document == s.document
    requires s.handles[h].origin.part.Evidence?
    ensures var r := ReadFile(setup, s, h, shot, reader, Room(setup.maxBytes, 1));
      var a := Execute(setup, s, ReadEvidence([h], Some(shot), reader));
      if setup.encoded(Files([r.item])) > setup.maxBytes then a.reply == Refused
      else
        && a.reply == Files([r.item])
        && a.state == r.state.(delivered := r.state.delivered + if r.item.outcome.Given? then {r.item.id} else {})
  {
    var r, call := ReadFile(setup, s, h, shot, reader, Room(setup.maxBytes, 1)), ReadEvidence([h], Some(shot), reader);
    assert [h][..0] == [] && [r.item][..0] == [];
    assert ReadFiles(setup, s, [h], shot, reader, Room(setup.maxBytes, 1)) == Readings(r.state, [] + [r.item]);
    assert [] + [r.item] == [r.item];
    assert ToSet(GivenIds([r.item])) == if r.item.outcome.Given? then {r.item.id} else {};
    EvidenceRefused(setup, s, call);
    if setup.encoded(Files([r.item])) <= setup.maxBytes {
      ReplyIsBatch(setup, s, call);
    }
  }
}
