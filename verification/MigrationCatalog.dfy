/** Reading the catalog of migration files: each version needs one matching pair of
    files (backend/db/migrations/embed.go). */
module MigrationCatalog {
  import opened Options

  datatype Entry = Entry(name: string, isDir: bool)

  datatype Migration = Migration(version: int, upFile: string, downFile: string)

  const UP := ".up.sql"
  const DOWN := ".down.sql"
  const INT64_MAX := 9223372036854775807

  // ------------------------------------------------------------------ file names

  predicate HasSuffix(s: string, suffix: string) {
    |s| >= |suffix| && s[|s| - |suffix|..] == suffix
  }

  function TrimSuffix(s: string, suffix: string): string {
    if HasSuffix(s, suffix) then s[..|s| - |suffix|] else s
  }

  predicate AllDigits(s: string) {
    forall i :: 0 <= i < |s| ==> '0' <= s[i] <= '9'
  }

  function Number(digits: string): nat
    requires AllDigits(digits)
  {
    if digits == [] then 0
    else 10 * Number(digits[..|digits| - 1]) + (digits[|digits| - 1] as int - '0' as int)
  }

  /** A decimal number with an optional sign that fits in 64 bits. */
  function ParseInt(s: string): Option<int> {
    var signed := s != [] && (s[0] == '+' || s[0] == '-');
    var digits := if signed then s[1..] else s;
    if digits == [] || !AllDigits(digits) then None
    else
      var magnitude: int := Number(digits);
      var v := if signed && s[0] == '-' then -magnitude else magnitude;
      if -INT64_MAX - 1 <= v <= INT64_MAX then Some(v) else None
  }

  /** The part before the first underscore, if there is one. */
  function Prefix(name: string): Option<string> {
    if name == [] then None
    else if name[0] == '_' then Some("")
    else
      match Prefix(name[1..])
      case None => None
      case Some(rest) => Some([name[0]] + rest)
  }

  function VersionOf(name: string): Option<int> {
    match Prefix(name)
    case None => None
    case Some(prefix) => ParseInt(prefix)
  }

  // ------------------------------------------------------------------ the catalog

  predicate IsUp(e: Entry) {
    !e.isDir && HasSuffix(e.name, UP)
  }

  predicate IsDown(e: Entry) {
    !e.isDir && !HasSuffix(e.name, UP) && HasSuffix(e.name, DOWN)
  }

  predicate Relevant(e: Entry) {
    IsUp(e) || IsDown(e)
  }

  /** Two files form a migration: they share their version and their stem. */
  predicate Pair(up: Entry, down: Entry, version: int) {
    && IsUp(up) && IsDown(down)
    && VersionOf(up.name) == Some(version) && VersionOf(down.name) == Some(version)
    && TrimSuffix(up.name, UP) == TrimSuffix(down.name, DOWN)
  }

  predicate DistinctNames(es: seq<Entry>) {
    forall i, j :: 0 <= i < j < |es| ==> es[i].name != es[j].name
  }

  /** Every migration file has a version, no version has two files of a kind, and
      every file has its counterpart. */
  ghost predicate Accepted(es: seq<Entry>) {
    && (forall e :: e in es && Relevant(e) ==> VersionOf(e.name).Some?)
    && (forall e, f :: e in es && f in es && SameSlot(e, f) ==> e == f)
    && (forall e :: e in es && IsUp(e) ==> exists f :: f in es && Pair(e, f, VersionOf(e.name).value))
    && (forall e :: e in es && IsDown(e) ==> exists f :: f in es && Pair(f, e, VersionOf(e.name).value))
  }

  predicate SameSlot(e: Entry, f: Entry) {
    ((IsUp(e) && IsUp(f)) || (IsDown(e) && IsDown(f))) && VersionOf(e.name) == VersionOf(f.name)
  }

  ghost predicate Listed(es: seq<Entry>, m: Migration) {
    exists up, down :: up in es && down in es && Pair(up, down, m.version) &&
      m == Migration(m.version, up.name, down.name)
  }

  predicate Ascending(ms: seq<Migration>) {
    forall i, j :: 0 <= i < j < |ms| ==> ms[i].version < ms[j].version
  }

  /** The catalog: strictly ascending, and exactly the pairs of the directory. */
  ghost predicate IsCatalog(ms: seq<Migration>, es: seq<Entry>) {
    && Ascending(ms)
    && forall m :: m in ms <==> Listed(es, m)
  }

  lemma LastIsLargest(ms: seq<Migration>, m: Migration)
    requires Ascending(ms) && m in ms
    ensures m.version <= ms[|ms| - 1].version
    ensures m.version == ms[|ms| - 1].version ==> m == ms[|ms| - 1]
  {
    var i :| 0 <= i < |ms| && ms[i] == m;
  }

  lemma InitMembers(ms: seq<Migration>, init: seq<Migration>)
    requires Ascending(ms) && ms != [] && init == ms[..|ms| - 1]
    ensures Ascending(init)
    ensures forall m :: m in init <==> m in ms && m != ms[|ms| - 1]
  {
    var n := |ms| - 1;
    assert ms == init + [ms[n]];
    assert ms[n] !in init;
  }

  lemma EmptyHasNone(ms: seq<Migration>)
    ensures ms == [] <==> forall m :: m !in ms
  {
    if ms != [] {
      assert ms[0] in ms;
    }
  }

  lemma {:induction false} AscendingUnique(ms: seq<Migration>, ns: seq<Migration>)
    requires Ascending(ms) && Ascending(ns) && forall m :: m in ms <==> m in ns
    ensures ms == ns
    decreases |ms|
  {
    EmptyHasNone(ms);
    EmptyHasNone(ns);
    if ms != [] {
      var a, b := ms[|ms| - 1], ns[|ns| - 1];
      assert a in ms && b in ns;
      LastIsLargest(ms, b);
      LastIsLargest(ns, a);
      assert a == b;
      var init, rest := ms[..|ms| - 1], ns[..|ns| - 1];
      InitMembers(ms, init);
      InitMembers(ns, rest);
      AscendingUnique(init, rest);
      assert ms == init + [a] && ns == rest + [b];
    }
  }

  /** Neither acceptance nor the catalog depends on the order of the listing. */
  lemma ListingOrderIsIrrelevant(es: seq<Entry>, fs: seq<Entry>, ms: seq<Migration>, ns: seq<Migration>)
    requires multiset(es) == multiset(fs)
    ensures Accepted(es) <==> Accepted(fs)
    ensures IsCatalog(ms, es) && IsCatalog(ns, fs) ==> ms == ns
  {
    assert forall e :: e in es <==> e in multiset(es);
    assert forall e :: e in fs <==> e in multiset(fs);
    assert forall m :: Listed(es, m) <==> Listed(fs, m);
    if IsCatalog(ms, es) && IsCatalog(ns, fs) {
      AscendingUnique(ms, ns);
    }
  }

  // ------------------------------------------------------------------ reading it

  /** The files found for a version so far; "" where none was found. */
  datatype Files = Files(up: string, down: string)

  ghost predicate Holds(es: seq<Entry>, version: int, f: Files) {
    && (f.up != "" ==> exists e :: e in es && IsUp(e) && e.name == f.up && VersionOf(e.name) == Some(version))
    && (f.down != "" ==> exists e :: e in es && IsDown(e) && e.name == f.down && VersionOf(e.name) == Some(version))
  }

  /** What the first loop has collected. */
  ghost predicate Collected(es: seq<Entry>, byVersion: map<int, Files>) {
    AllHold(es, byVersion) && AllPlaced(es, byVersion)
  }

  ghost predicate AllHold(es: seq<Entry>, byVersion: map<int, Files>) {
    forall v :: v in byVersion ==> Holds(es, v, byVersion[v]) && byVersion[v] != Files("", "")
  }

  ghost predicate AllPlaced(es: seq<Entry>, byVersion: map<int, Files>) {
    forall e :: e in es && Relevant(e) ==> Placed(e, byVersion)
  }

  /** A file stands in its slot. */
  predicate Placed(e: Entry, byVersion: map<int, Files>) {
    && VersionOf(e.name).Some? && VersionOf(e.name).value in byVersion
    && var f := byVersion[VersionOf(e.name).value];
    if IsUp(e) then f.up == e.name else f.down == e.name
  }

  lemma RelevantHasName(e: Entry)
    requires Relevant(e)
    ensures e.name != ""
  {
  }

  lemma HoldsMore(es: seq<Entry>, e: Entry, version: int, f: Files)
    requires Holds(es, version, f)
    ensures Holds(es + [e], version, f)
  {
  }

  lemma CollectIrrelevant(es: seq<Entry>, e: Entry, byVersion: map<int, Files>)
    requires Collected(es, byVersion) && !Relevant(e)
    ensures Collected(es + [e], byVersion)
  {
    forall v | v in byVersion
      ensures Holds(es + [e], v, byVersion[v])
    {
      HoldsMore(es, e, v, byVersion[v]);
    }
  }

  function Slot(byVersion: map<int, Files>, version: int): Files {
    if version in byVersion then byVersion[version] else Files("", "")
  }

  function Filled(f: Files, e: Entry): Files {
    if IsUp(e) then f.(up := e.name) else f.(down := e.name)
  }

  lemma FilledHolds(es: seq<Entry>, e: Entry, version: int, f: Files)
    requires Holds(es, version, f) && Relevant(e) && VersionOf(e.name) == Some(version)
    ensures Holds(es + [e], version, Filled(f, e)) && Filled(f, e) != Files("", "")
  {
    RelevantHasName(e);
    HoldsMore(es, e, version, f);
    assert e in es + [e];
  }

  lemma FilledKeeps(e: Entry, d: Entry, f: Files)
    requires Relevant(e) && Relevant(d) && if IsUp(e) then f.up == "" else f.down == ""
    requires if IsUp(d) then f.up == d.name else f.down == d.name
    ensures if IsUp(d) then Filled(f, e).up == d.name else Filled(f, e).down == d.name
  {
    RelevantHasName(d);
  }

  lemma SlotHolds(es: seq<Entry>, byVersion: map<int, Files>, version: int)
    requires AllHold(es, byVersion)
    ensures Holds(es, version, Slot(byVersion, version))
  {
  }

  lemma CollectedHolds(es: seq<Entry>, e: Entry, byVersion: map<int, Files>, version: int)
    requires AllHold(es, byVersion) && Relevant(e) && VersionOf(e.name) == Some(version)
    ensures AllHold(es + [e], byVersion[version := Filled(Slot(byVersion, version), e)])
  {
    SlotHolds(es, byVersion, version);
    FilledHolds(es, e, version, Slot(byVersion, version));
    forall v | v in byVersion && v != version
      ensures Holds(es + [e], v, byVersion[v])
    {
      HoldsMore(es, e, v, byVersion[v]);
    }
  }

  lemma StaysPlaced(d: Entry, e: Entry, byVersion: map<int, Files>, version: int)
    requires Placed(d, byVersion) && Relevant(d) && Relevant(e) && VersionOf(e.name) == Some(version)
    requires if IsUp(e) then Slot(byVersion, version).up == "" else Slot(byVersion, version).down == ""
    ensures Placed(d, byVersion[version := Filled(Slot(byVersion, version), e)])
  {
    if VersionOf(d.name) == Some(version) {
      FilledKeeps(e, d, Slot(byVersion, version));
    }
  }

  lemma IsPlaced(e: Entry, byVersion: map<int, Files>, version: int)
    requires VersionOf(e.name) == Some(version)
    ensures Placed(e, byVersion[version := Filled(Slot(byVersion, version), e)])
  {
  }

  lemma CollectOne(es: seq<Entry>, e: Entry, byVersion: map<int, Files>, version: int)
    requires Collected(es, byVersion) && Relevant(e) && VersionOf(e.name) == Some(version)
    requires if IsUp(e) then Slot(byVersion, version).up == "" else Slot(byVersion, version).down == ""
    ensures Collected(es + [e], byVersion[version := Filled(Slot(byVersion, version), e)])
  {
    CollectedHolds(es, e, byVersion, version);
    forall d | d in es && Relevant(d)
      ensures Placed(d, byVersion[version := Filled(Slot(byVersion, version), e)])
    {
      StaysPlaced(d, e, byVersion, version);
    }
    IsPlaced(e, byVersion, version);
  }

  /** A second file for a slot: the directory cannot be accepted. */
  lemma DuplicateRefused(all: seq<Entry>, i: nat, byVersion: map<int, Files>, version: int)
    requires i < |all| && DistinctNames(all) && Collected(all[..i], byVersion)
    requires Relevant(all[i]) && VersionOf(all[i].name) == Some(version)
    requires if IsUp(all[i]) then Slot(byVersion, version).up != "" else Slot(byVersion, version).down != ""
    ensures !Accepted(all)
  {
    var f := Slot(byVersion, version);
    assert Holds(all[..i], version, f);
    var e :| e in all[..i] && VersionOf(e.name) == Some(version)
      && if IsUp(all[i]) then IsUp(e) && e.name == f.up else IsDown(e) && e.name == f.down;
    var k :| 0 <= k < i && all[k] == e;
    assert all[k].name != all[i].name;
    assert SameSlot(e, all[i]) && e in all && all[i] in all;
  }

  method CollectFiles(es: seq<Entry>) returns (byVersion: map<int, Files>, ok: bool)
    requires DistinctNames(es)
    ensures !ok ==> !Accepted(es)
    ensures ok ==> Collected(es, byVersion)
  {
    byVersion := map[];
    for i := 0 to |es|
      invariant Collected(es[..i], byVersion)
    {
      var e := es[i];
      assert es[..i + 1] == es[..i] + [e];
      assert e in es;
      if !e.isDir && (HasSuffix(e.name, UP) || HasSuffix(e.name, DOWN)) {
        var version := VersionOf(e.name);
        if version.None? {
          return byVersion, false;
        }
        var item := if version.value in byVersion then byVersion[version.value] else Files("", "");
        if HasSuffix(e.name, UP) {
          if item.up != "" {
            DuplicateRefused(es, i, byVersion, version.value);
            return byVersion, false;
          }
          CollectOne(es[..i], e, byVersion, version.value);
          byVersion := byVersion[version.value := item.(up := e.name)];
        } else {
          if item.down != "" {
            DuplicateRefused(es, i, byVersion, version.value);
            return byVersion, false;
          }
          CollectOne(es[..i], e, byVersion, version.value);
          byVersion := byVersion[version.value := item.(down := e.name)];
        }
      } else {
        CollectIrrelevant(es[..i], e, byVersion);
      }
    }
    assert es[..|es|] == es;
    return byVersion, true;
  }

  predicate Matched(f: Files) {
    f.up != "" && f.down != "" && TrimSuffix(f.up, UP) == TrimSuffix(f.down, DOWN)
  }

  /** Once everything is collected, the directory is accepted exactly when every
      version has a matched pair. */
  lemma CollectedDecides(es: seq<Entry>, byVersion: map<int, Files>)
    requires DistinctNames(es) && Collected(es, byVersion)
    ensures Accepted(es) <==> forall v :: v in byVersion ==> Matched(byVersion[v])
  {
    if Accepted(es) {
      forall v | v in byVersion
        ensures Matched(byVersion[v])
      {
        AcceptedMatches(es, byVersion, v);
      }
    }
    if forall v :: v in byVersion ==> Matched(byVersion[v]) {
      MatchedAccepts(es, byVersion);
    }
  }

  lemma PairIsMatched(es: seq<Entry>, byVersion: map<int, Files>, up: Entry, down: Entry, v: int)
    requires Collected(es, byVersion) && up in es && down in es && Pair(up, down, v)
    ensures v in byVersion && byVersion[v] == Files(up.name, down.name) && Matched(byVersion[v])
  {
    RelevantHasName(up);
    RelevantHasName(down);
  }

  lemma AcceptedMatches(es: seq<Entry>, byVersion: map<int, Files>, v: int)
    requires Collected(es, byVersion) && Accepted(es) && v in byVersion
    ensures Matched(byVersion[v])
  {
    var f := byVersion[v];
    assert Holds(es, v, f);
    if f.up != "" {
      var e :| e in es && IsUp(e) && e.name == f.up && VersionOf(e.name) == Some(v);
      var d :| d in es && Pair(e, d, VersionOf(e.name).value);
      PairIsMatched(es, byVersion, e, d, v);
    } else {
      var d :| d in es && IsDown(d) && d.name == f.down && VersionOf(d.name) == Some(v);
      var e :| e in es && Pair(e, d, VersionOf(d.name).value);
      PairIsMatched(es, byVersion, e, d, v);
    }
  }

  lemma MatchedAccepts(es: seq<Entry>, byVersion: map<int, Files>)
    requires DistinctNames(es) && Collected(es, byVersion) && forall v :: v in byVersion ==> Matched(byVersion[v])
    ensures Accepted(es)
  {
    forall e, f | e in es && f in es && SameSlot(e, f)
      ensures e == f
    {
      assert Relevant(e) && Relevant(f) && e.name == f.name;
      var i :| 0 <= i < |es| && es[i] == e;
      var j :| 0 <= j < |es| && es[j] == f;
    }
    forall e | e in es && IsUp(e)
      ensures exists f :: f in es && Pair(e, f, VersionOf(e.name).value)
    {
      assert Relevant(e);
      var v := VersionOf(e.name).value;
      assert Holds(es, v, byVersion[v]);
      var d :| d in es && IsDown(d) && d.name == byVersion[v].down && VersionOf(d.name) == Some(v);
      assert Pair(e, d, v);
    }
    forall e | e in es && IsDown(e)
      ensures exists f :: f in es && Pair(f, e, VersionOf(e.name).value)
    {
      assert Relevant(e);
      var v := VersionOf(e.name).value;
      assert Holds(es, v, byVersion[v]);
      var u :| u in es && IsUp(u) && u.name == byVersion[v].up && VersionOf(u.name) == Some(v);
      assert Pair(u, e, v);
    }
  }

  lemma CollectedIsListed(es: seq<Entry>, byVersion: map<int, Files>, m: Migration)
    requires Collected(es, byVersion) && forall v :: v in byVersion ==> Matched(byVersion[v])
    ensures Listed(es, m) <==> m.version in byVersion && Files(m.upFile, m.downFile) == byVersion[m.version]
  {
    if Listed(es, m) {
      var up, down :| up in es && down in es && Pair(up, down, m.version) &&
        m == Migration(m.version, up.name, down.name);
      assert Relevant(up) && Relevant(down);
    }
    if m.version in byVersion && Files(m.upFile, m.downFile) == byVersion[m.version] {
      assert Holds(es, m.version, byVersion[m.version]);
      var up :| up in es && IsUp(up) && up.name == m.upFile && VersionOf(up.name) == Some(m.version);
      var down :| down in es && IsDown(down) && down.name == m.downFile && VersionOf(down.name) == Some(m.version);
      assert Pair(up, down, m.version);
    }
  }

  lemma Between(ms: seq<Migration>, m: Migration, i: nat)
    requires Ascending(ms) && i <= |ms|
    requires (forall k :: 0 <= k < i ==> ms[k].version < m.version)
    requires (forall k :: i <= k < |ms| ==> ms[k].version > m.version)
    ensures Ascending(ms[..i] + [m] + ms[i..])
    ensures forall k :: k in ms[..i] + [m] + ms[i..] <==> k in ms || k == m
  {
    assert ms == ms[..i] + ms[i..];
  }

  /** Puts a migration in its place. */
  method InsertSorted(ms: seq<Migration>, m: Migration) returns (r: seq<Migration>)
    requires Ascending(ms) && forall k :: k in ms ==> k.version != m.version
    ensures Ascending(r) && forall k :: k in r <==> k in ms || k == m
  {
    var i := |ms|;
    while i > 0 && ms[i - 1].version > m.version
      invariant 0 <= i <= |ms|
      invariant forall k :: i <= k < |ms| ==> ms[k].version > m.version
    {
      i := i - 1;
    }
    assert i > 0 ==> ms[i - 1] in ms;
    Between(ms, m, i);
    r := ms[..i] + [m] + ms[i..];
  }

  ghost predicate FromFiles(m: Migration, byVersion: map<int, Files>) {
    m.version in byVersion && Files(m.upFile, m.downFile) == byVersion[m.version]
  }

  /** All versions found, in ascending order. */
  method SortByVersion(byVersion: map<int, Files>) returns (ms: seq<Migration>)
    ensures Ascending(ms) && forall m :: m in ms <==> FromFiles(m, byVersion)
  {
    ms := [];
    var left := byVersion.Keys;
    while left != {}
      invariant left <= byVersion.Keys && Ascending(ms)
      invariant forall m :: m in ms <==> FromFiles(m, byVersion) && m.version !in left
      decreases |left|
    {
      var v := AnyOf(left);
      ms := InsertSorted(ms, Migration(v, byVersion[v].up, byVersion[v].down));
      left := left - {v};
    }
  }

  method CheckPairs(ms: seq<Migration>) returns (ok: bool)
    ensures ok <==> forall m :: m in ms ==> Matched(Files(m.upFile, m.downFile))
  {
    for i := 0 to |ms|
      invariant forall k :: 0 <= k < i ==> Matched(Files(ms[k].upFile, ms[k].downFile))
    {
      var m := ms[i];
      if m.upFile == "" || m.downFile == "" || TrimSuffix(m.upFile, UP) != TrimSuffix(m.downFile, DOWN) {
        assert m in ms && !Matched(Files(m.upFile, m.downFile));
        return false;
      }
    }
    return true;
  }

  lemma AllMatched(byVersion: map<int, Files>, ms: seq<Migration>)
    requires forall m :: m in ms <==> FromFiles(m, byVersion)
    ensures (forall m :: m in ms ==> Matched(Files(m.upFile, m.downFile)))
      <==> forall v :: v in byVersion ==> Matched(byVersion[v])
  {
    if forall m :: m in ms ==> Matched(Files(m.upFile, m.downFile)) {
      forall v | v in byVersion
        ensures Matched(byVersion[v])
      {
        assert FromFiles(Migration(v, byVersion[v].up, byVersion[v].down), byVersion);
      }
    }
  }

  method MigrationFiles(es: seq<Entry>) returns (result: Option<seq<Migration>>)
    requires DistinctNames(es)
    ensures result.Some? <==> Accepted(es)
    ensures result.Some? ==> IsCatalog(result.value, es)
  {
    var byVersion, ok := CollectFiles(es);
    if !ok {
      return None;
    }
    CollectedDecides(es, byVersion);
    var ms := SortByVersion(byVersion);
    AllMatched(byVersion, ms);
    var matched := CheckPairs(ms);
    if !matched {
      return None;
    }
    forall m
      ensures m in ms <==> Listed(es, m)
    {
      CollectedIsListed(es, byVersion, m);
    }
    return Some(ms);
  }
}
