/** Laws of the functions that make up the category score: sums, selection of
    entries, caps, and submissions that do not count. */
module CategoryScoreLaws {
  import opened CategoryScore
  import opened Options

  // ------------------------------------------------------------- sums in general

  lemma {:induction false} SumAppend<T>(a: seq<T>, b: seq<T>, f: T -> int)
    ensures Sum(a + b, f) == Sum(a, f) + Sum(b, f)
    decreases |b|
  {
    if b == [] {
      assert a + b == a;
    } else {
      assert (a + b)[..|a + b| - 1] == a + b[..|b| - 1];
      SumAppend(a, b[..|b| - 1], f);
    }
  }

  function Without<T>(ts: seq<T>, j: nat): seq<T>
    requires j < |ts|
  {
    ts[..j] + ts[j + 1..]
  }

  lemma SumOne<T>(t: T, f: T -> int)
    ensures Sum([t], f) == f(t)
  {
    assert [t][..0] == [];
  }

  lemma {:induction false} SumWithout<T>(ts: seq<T>, j: nat, f: T -> int)
    requires j < |ts|
    ensures Sum(ts, f) == Sum(Without(ts, j), f) + f(ts[j])
    decreases |ts|
  {
    var n := |ts| - 1;
    var rest := Without(ts, j);
    if j == n {
      assert rest == ts[..n];
    } else {
      assert rest[..n - 1] == Without(ts[..n], j);
      SumWithout(ts[..n], j, f);
    }
  }

  lemma MultisetWithout<T>(ts: seq<T>, j: nat)
    requires j < |ts|
    ensures multiset(ts) == multiset(Without(ts, j)) + multiset{ts[j]}
  {
    assert ts == (ts[..j] + [ts[j]]) + ts[j + 1..];
  }

  /** Taking the last element of one permutation out of the other. */
  lemma TakeLast<T>(a: seq<T>, b: seq<T>) returns (j: nat)
    requires multiset(a) == multiset(b) && a != []
    ensures j < |b| && b[j] == a[|a| - 1]
    ensures multiset(a[..|a| - 1]) == multiset(Without(b, j))
  {
    var init, last := a[..|a| - 1], a[|a| - 1];
    assert a == init + [last];
    assert last in multiset(b);
    j :| 0 <= j < |b| && b[j] == last;
    MultisetWithout(b, j);
    assert multiset(init) == multiset(a) - multiset{last};
    assert multiset(Without(b, j)) == multiset(b) - multiset{last};
  }

  lemma {:induction false} SumPermutation<T>(a: seq<T>, b: seq<T>, f: T -> int)
    requires multiset(a) == multiset(b)
    ensures Sum(a, f) == Sum(b, f)
    decreases |a|
  {
    if a == [] {
      assert |multiset(b)| == 0;
    } else {
      var j := TakeLast(a, b);
      SumWithout(b, j, f);
      SumPermutation(a[..|a| - 1], Without(b, j), f);
    }
  }

  lemma {:induction false} SumCongruent<T>(ts: seq<T>, f: T -> int, g: T -> int)
    requires forall i :: 0 <= i < |ts| ==> f(ts[i]) == g(ts[i])
    ensures Sum(ts, f) == Sum(ts, g)
  {
    if ts != [] {
      SumCongruent(ts[..|ts| - 1], f, g);
    }
  }

  lemma {:induction false} SumAtMost<T>(ts: seq<T>, f: T -> int, g: T -> int)
    requires forall i :: 0 <= i < |ts| ==> f(ts[i]) <= g(ts[i])
    ensures Sum(ts, f) <= Sum(ts, g)
  {
    if ts != [] {
      SumAtMost(ts[..|ts| - 1], f, g);
    }
  }

  lemma {:induction false} SumUpdate<T>(ts: seq<T>, j: nat, t: T, f: T -> int)
    requires j < |ts|
    ensures Sum(ts[j := t], f) == Sum(ts, f) - f(ts[j]) + f(t)
    decreases |ts|
  {
    var n := |ts| - 1;
    if j == n {
      assert ts[j := t][..n] == ts[..n];
    } else {
      assert ts[j := t][..n] == ts[..n][j := t];
      SumUpdate(ts[..n], j, t, f);
    }
  }

  /** Functions that differ at one key only. */
  lemma {:induction false} SumChangedAt(keys: seq<string>, k: string, f: string -> int, g: string -> int)
    requires Distinct(keys) && forall i :: 0 <= i < |keys| && keys[i] != k ==> f(keys[i]) == g(keys[i])
    ensures Sum(keys, g) == Sum(keys, f) + if k in keys then g(k) - f(k) else 0
  {
    if keys != [] {
      var init, last := keys[..|keys| - 1], keys[|keys| - 1];
      assert keys == init + [last];
      SumChangedAt(init, k, f, g);
      assert last !in init;
    }
  }

  lemma {:induction false} DistinctMultiset(ts: seq<string>, t: string)
    requires Distinct(ts)
    ensures multiset(ts)[t] == if t in ts then 1 else 0
  {
    if ts != [] {
      var init, last := ts[..|ts| - 1], ts[|ts| - 1];
      assert ts == init + [last];
      DistinctMultiset(init, t);
      assert last !in init;
    }
  }

  lemma SameKeys(a: seq<string>, b: seq<string>)
    requires Distinct(a) && Distinct(b) && forall t :: t in a <==> t in b
    ensures multiset(a) == multiset(b)
  {
    forall t
      ensures multiset(a)[t] == multiset(b)[t]
    {
      DistinctMultiset(a, t);
      DistinctMultiset(b, t);
    }
  }

  // ------------------------------------------------------------------ adding up

  lemma {:induction false} GroupKeysDistinct(es: seq<Entry>)
    ensures Distinct(GroupKeys(es))
    decreases |es|
  {
    if es != [] {
      GroupKeysDistinct(es[..|es| - 1]);
    }
  }

  lemma {:induction false} GroupKeysFacts(es: seq<Entry>)
    ensures Distinct(GroupKeys(es))
    ensures forall key :: key in GroupKeys(es) <==> exists i :: 0 <= i < |es| && InGroup(es[i], key)
    decreases |es|
  {
    GroupKeysDistinct(es);
    if es != [] {
      var init, last := es[..|es| - 1], es[|es| - 1];
      GroupKeysFacts(init);
      forall key
        ensures key in GroupKeys(es) <==> key in GroupKeys(init) || InGroup(last, key)
      {
      }
      forall key
        ensures (exists i :: 0 <= i < |es| && InGroup(es[i], key)) <==>
          (exists i :: 0 <= i < |init| && InGroup(init[i], key)) || InGroup(last, key)
      {
        assert forall i :: 0 <= i < |init| ==> init[i] == es[i];
      }
    }
  }

  lemma {:induction false} KeysPermutation(s: seq<Entry>, t: seq<Entry>)
    requires multiset(s) == multiset(t)
    ensures multiset(GroupKeys(s)) == multiset(GroupKeys(t))
  {
    GroupKeysFacts(s);
    GroupKeysFacts(t);
    SameMembers(s, t);
    forall key
      ensures key in GroupKeys(s) <==> key in GroupKeys(t)
    {
      if key in GroupKeys(s) {
        var i :| 0 <= i < |s| && InGroup(s[i], key);
        assert s[i] in t;
      }
      if key in GroupKeys(t) {
        var i :| 0 <= i < |t| && InGroup(t[i], key);
        assert t[i] in s;
      }
    }
    SameKeys(GroupKeys(s), GroupKeys(t));
  }

  /** What is added up may be in any order that leaves each group as it is capped. */
  lemma {:induction false} TotalFromParts(s: seq<Entry>, t: seq<Entry>)
    requires multiset(s) == multiset(t)
    requires forall key :: key in GroupKeys(s) ==> Capped(s)(key) == Capped(t)(key)
    ensures Total(s) == Total(t)
  {
    SumPermutation(s, t, UngroupedPart());
    KeysPermutation(s, t);
    SumPermutation(GroupKeys(s), GroupKeys(t), Capped(t));
    SumCongruent(GroupKeys(s), Capped(s), Capped(t));
  }

  lemma SameMembers<T>(s: seq<T>, t: seq<T>)
    requires multiset(s) == multiset(t)
    ensures forall x :: x in s <==> x in t
  {
    assert forall x :: x in s <==> x in multiset(s);
  }

  /** Each cap group adds at most its cap. */
  lemma {:induction false} CapGroupsBound(es: seq<Entry>)
    ensures Total(es) <= Sum(es, UngroupedPart()) + Sum(GroupKeys(es), key => GroupCap(es, key))
    ensures forall key :: key in GroupKeys(es) ==> Capped(es)(key) <= GroupCap(es, key)
  {
    SumAtMost(GroupKeys(es), Capped(es), key => GroupCap(es, key));
  }

  // -------------------------------------------------------------------- selection

  lemma {:induction false} PlainFacts(es: seq<Entry>, e: Entry)
    ensures multiset(Plain(es))[e] == if e.exclusive == "" then multiset(es)[e] else 0
    decreases |es|
  {
    if es != [] {
      assert es == es[..|es| - 1] + [es[|es| - 1]];
      PlainFacts(es[..|es| - 1], e);
    }
  }

  lemma {:induction false} PlainMembers(es: seq<Entry>)
    ensures forall e :: e in Plain(es) ==> e in es && e.exclusive == ""
    decreases |es|
  {
    if es != [] {
      PlainMembers(es[..|es| - 1]);
    }
  }

  lemma SelectedMembers(es: seq<Entry>)
    ensures forall e :: e in Selected(es) ==> e in es
  {
    PlainMembers(es);
    ExclusivesFacts(es);
    var xs := Exclusives(es);
    forall i | 0 <= i < |xs|
      ensures BestOf(es, xs)[i] in es
    {
      BestFacts(es, xs[i]);
    }
  }

  lemma {:induction false} BestOfPermutation(es: seq<Entry>, xs: seq<string>, ys: seq<string>)
    requires (forall x :: x in xs ==> Best(es, x).Some?) && (forall x :: x in ys ==> Best(es, x).Some?)
    requires multiset(xs) == multiset(ys)
    ensures multiset(BestOf(es, xs)) == multiset(BestOf(es, ys))
    decreases |xs|
  {
    if xs == [] {
      assert |multiset(ys)| == 0;
    } else {
      var init, last := xs[..|xs| - 1], xs[|xs| - 1];
      var j := TakeLast(xs, ys);
      var rest := Without(ys, j);
      assert forall x :: x in init ==> x in xs;
      assert forall x :: x in rest ==> x in ys;
      BestOfPermutation(es, init, rest);
      assert BestOf(es, xs) == BestOf(es, init) + [Best(es, last).value];
      assert Without(BestOf(es, ys), j) == BestOf(es, rest);
      MultisetWithout(BestOf(es, ys), j);
    }
  }

  // ------------------------------------------------------------------- submissions

  lemma {:induction false} EntriesAppend(a: seq<Submission>, b: seq<Submission>, category: string)
    ensures Entries(a + b, category) == Entries(a, category) + Entries(b, category)
    decreases |b|
  {
    if b == [] {
      assert a + b == a;
    } else {
      assert (a + b)[..|a + b| - 1] == a + b[..|b| - 1];
      EntriesAppend(a, b[..|b| - 1], category);
    }
  }

  /** A forced rejection, an undecided submission, one of another category or in
      another state has no effect, wherever it stands. */
  lemma {:induction false} IgnoredSubmission(a: seq<Submission>, s: Submission, b: seq<Submission>, category: string)
    requires !Counts(s, category)
    ensures Entries(a + [s] + b, category) == Entries(a + b, category)
  {
    EntriesAppend(a + [s], b, category);
    EntriesAppend(a, [s], category);
    EntriesAppend(a, b, category);
    assert [s][..0] == [];
  }

  lemma {:induction false} EntriesPermutation(a: seq<Submission>, b: seq<Submission>, category: string)
    requires multiset(a) == multiset(b)
    ensures multiset(Entries(a, category)) == multiset(Entries(b, category))
    decreases |a|
  {
    if a == [] {
      assert |multiset(b)| == 0;
    } else {
      var last := a[|a| - 1];
      var j := TakeLast(a, b);
      EntriesPermutation(a[..|a| - 1], Without(b, j), category);
      assert b == b[..j] + [last] + b[j + 1..];
      EntriesAppend(b[..j] + [last], b[j + 1..], category);
      EntriesAppend(b[..j], [last], category);
      EntriesAppend(b[..j], b[j + 1..], category);
      assert [last][..0] == [];
    }
  }

  /** Each selecting and adding function after one more entry. */
  lemma {:induction false} OneMoreSelected(es: seq<Entry>, e: Entry, x: string)
    ensures Plain(es + [e]) == Plain(es) + if e.exclusive == "" then [e] else []
    ensures Exclusives(es + [e]) ==
      if e.exclusive == "" || e.exclusive in Exclusives(es) then Exclusives(es) else Exclusives(es) + [e.exclusive]
    ensures Best(es + [e], x) ==
      if e.exclusive == x && (Best(es, x).None? || e.score > Best(es, x).value.score) then Some(e) else Best(es, x)
  {
    OneMore(es, e);
  }

  lemma {:induction false} OneMoreAdded(es: seq<Entry>, e: Entry, key: string)
    ensures Sum(es + [e], UngroupedPart()) == Sum(es, UngroupedPart()) + if e.group.None? then e.score else 0
    ensures Sum(es + [e], PartOf(key)) == Sum(es, PartOf(key)) + if InGroup(e, key) then e.score else 0
    ensures GroupKeys(es + [e]) ==
      if e.group.None? || e.group.value.key in GroupKeys(es) then GroupKeys(es) else GroupKeys(es) + [e.group.value.key]
    ensures GroupCap(es + [e], key) == if InGroup(e, key) then e.group.value.cap else GroupCap(es, key)
  {
    OneMore(es, e);
  }

  lemma {:induction false} BestOfTwo(a: Entry, b: Entry, x: string)
    requires a.exclusive == b.exclusive == x
    ensures Best([a, b], x) == Some(if b.score > a.score then b else a)
  {
    OneMoreSelected([], a, x);
    OneMoreSelected([a], b, x);
    assert [] + [a] == [a] && [a] + [b] == [a, b];
  }

  lemma OneExclusive(a: Entry, b: Entry, x: string)
    requires a.exclusive == b.exclusive == x != ""
    ensures Plain([a, b]) == [] && Exclusives([a, b]) == [x]
  {
    OneMoreSelected([], a, x);
    OneMoreSelected([a], b, x);
    assert [] + [a] == [a] && [a] + [b] == [a, b];
    assert Exclusives([a]) == [x];
    assert x in [x];
  }

  /** Of two entries of one exclusive group, the second counts when it is better. */
  lemma TwoExclusive(a: Entry, b: Entry)
    requires a.exclusive == b.exclusive != ""
    ensures Selected([a, b]) == [if b.score > a.score then b else a]
  {
    BestOfTwo(a, b, a.exclusive);
    OneExclusive(a, b, a.exclusive);
    ExclusivesFacts([a, b]);
  }

  lemma OneEntry(a: Entry)
    ensures Total([a]) == if a.group.None? then a.score else Min(a.score, a.group.value.cap)
  {
    var key := if a.group.None? then "" else a.group.value.key;
    OneMoreAdded([], a, key);
    assert [] + [a] == [a];
    SumOne(key, Capped([a]));
  }

  lemma TwoPlain(a: Entry, b: Entry)
    requires a.exclusive == b.exclusive == ""
    ensures Selected([a, b]) == [a, b]
  {
    OneMoreSelected([], a, "");
    OneMoreSelected([a], b, "");
    assert [] + [a] == [a] && [a] + [b] == [a, b];
    ExclusivesFacts([a, b]);
    assert BestOf([a, b], []) == [];
  }

  lemma TwoShared(a: Entry, b: Entry, key: string)
    requires InGroup(a, key) && InGroup(b, key)
    ensures Total([a, b]) == Min(a.score + b.score, b.group.value.cap)
  {
    OneMoreAdded([], a, key);
    OneMoreAdded([a], b, key);
    assert [] + [a] == [a] && [a] + [b] == [a, b];
    assert GroupKeys([a]) == [key];
    assert key in [key];
    SumOne(key, Capped([a, b]));
  }
}
