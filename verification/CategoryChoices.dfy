/** Exactly when the order of submissions matters to a category total
    (mock/src/handle.ts): every order amounts to choosing one best entry for each
    exclusive group and one entry whose cap is read for each cap group, and every
    choice is made by some order. */
module CategoryChoices {
  import opened CategoryOrder
  import opened CategoryScore
  import opened CategoryScoreLaws
  import opened Options

  // --------------------------------------------------------------------- choices

  /** One best entry for each exclusive group. */
  ghost predicate Offers(es: seq<Entry>, tops: map<string, Entry>) {
    forall x :: x in Exclusives(es) ==> x in tops && IsTop(es, tops[x]) && tops[x].exclusive == x
  }

  function TopsOf(xs: seq<string>, tops: map<string, Entry>): (r: seq<Entry>)
    requires forall x :: x in xs ==> x in tops
    ensures |r| == |xs|
  {
    seq(|xs|, (i: nat) requires i < |xs| => tops[xs[i]])
  }

  /** What is added up for a choice of best entries. */
  function Chosen(es: seq<Entry>, tops: map<string, Entry>): seq<Entry>
    requires forall x :: x in Exclusives(es) ==> x in tops
  {
    Plain(es) + TopsOf(Exclusives(es), tops)
  }

  /** One entry for each cap group whose cap may be read. */
  ghost predicate ReadBy(s: seq<Entry>, readers: map<string, Entry>) {
    forall key :: key in GroupKeys(s) ==> key in readers && IsReader(s, readers[key], key)
  }

  function CappedBy(s: seq<Entry>, readers: map<string, Entry>): string -> int {
    key =>
      if key in readers && readers[key].group.Some? then Min(Sum(s, PartOf(key)), readers[key].group.value.cap) else 0
  }

  function ChosenTotal(s: seq<Entry>, readers: map<string, Entry>): int {
    Sum(s, UngroupedPart()) + Sum(GroupKeys(s), CappedBy(s, readers))
  }

  /** All choices come to the same. */
  ghost predicate ChoicesAgree(es: seq<Entry>) {
    forall tops, readers :: Offers(es, tops) && ReadBy(Chosen(es, tops), readers) ==>
      ChosenTotal(Chosen(es, tops), readers) == ItemTotal(es)
  }

  lemma ChosenTotalPermutation(s: seq<Entry>, t: seq<Entry>, readers: map<string, Entry>)
    requires multiset(s) == multiset(t)
    ensures ChosenTotal(s, readers) == ChosenTotal(t, readers)
  {
    SumPermutation(s, t, UngroupedPart());
    KeysPermutation(s, t);
    SumPermutation(GroupKeys(s), GroupKeys(t), CappedBy(t, readers));
    forall k | 0 <= k < |GroupKeys(s)|
      ensures CappedBy(s, readers)(GroupKeys(s)[k]) == CappedBy(t, readers)(GroupKeys(s)[k])
    {
      SumPermutation(s, t, PartOf(GroupKeys(s)[k]));
    }
    SumCongruent(GroupKeys(s), CappedBy(s, readers), CappedBy(t, readers));
  }

  lemma ReadByPermutation(s: seq<Entry>, t: seq<Entry>, readers: map<string, Entry>)
    requires multiset(s) == multiset(t) && ReadBy(s, readers)
    ensures ReadBy(t, readers)
  {
    KeysPermutation(s, t);
    SameMembers(GroupKeys(s), GroupKeys(t));
    forall key | key in GroupKeys(t)
      ensures IsReader(t, readers[key], key)
    {
      ReaderPermutation(s, t, readers[key], key);
    }
  }

  /** When the caps that are read are those of the readers, the total is theirs. */
  lemma {:induction false} TotalIsChosen(s: seq<Entry>, readers: map<string, Entry>)
    requires ReadBy(s, readers)
    requires forall key :: key in GroupKeys(s) ==> GroupCap(s, key) == readers[key].group.value.cap
    ensures Total(s) == ChosenTotal(s, readers)
  {
    SumCongruent(GroupKeys(s), Capped(s), CappedBy(s, readers));
  }

  /** Orders with the same best entries select alike. */
  lemma {:induction false} SameBestsSelect(b: seq<Entry>, c: seq<Entry>)
    requires multiset(b) == multiset(c) && forall x :: x != "" ==> Best(b, x) == Best(c, x)
    ensures multiset(Selected(b)) == multiset(Selected(c))
  {
    PlainPermutation(b, c);
    ExclusivesFacts(b);
    ExclusivesFacts(c);
    SameKeys(Exclusives(b), Exclusives(c));
    BestOfPermutation(b, Exclusives(b), Exclusives(c));
    assert BestOf(b, Exclusives(c)) == BestOf(c, Exclusives(c));
  }

  lemma {:induction false} SameExclusives(b: seq<Entry>, c: seq<Entry>)
    requires multiset(b) == multiset(c)
    ensures multiset(Exclusives(b)) == multiset(Exclusives(c)) && forall x :: x in Exclusives(b) <==> x in Exclusives(c)
  {
    ExclusivesFacts(b);
    ExclusivesFacts(c);
    SameMembers(b, c);
    forall x
      ensures x in Exclusives(b) <==> x in Exclusives(c)
    {
      BestFacts(b, x);
      BestFacts(c, x);
      if x in Exclusives(b) {
        assert Best(b, x).value in c;
      }
      if x in Exclusives(c) {
        assert Best(c, x).value in b;
      }
    }
    SameKeys(Exclusives(b), Exclusives(c));
  }

  /** An order whose best entries are those chosen selects what is chosen. */
  lemma {:induction false} SelectsChosen(es: seq<Entry>, b: seq<Entry>, tops: map<string, Entry>)
    requires multiset(b) == multiset(es) && Offers(es, tops)
    requires forall x :: x in Exclusives(es) ==> Best(b, x) == Some(tops[x])
    ensures multiset(Selected(b)) == multiset(Chosen(es, tops))
  {
    PlainPermutation(b, es);
    SameExclusives(b, es);
    ExclusivesFacts(b);
    BestOfPermutation(b, Exclusives(b), Exclusives(es));
    assert BestOf(b, Exclusives(es)) == TopsOf(Exclusives(es), tops);
  }

  // ------------------------------------------------------- every order is a choice

  lemma OrderIsChoice(es: seq<Entry>, b: seq<Entry>) returns (tops: map<string, Entry>, readers: map<string, Entry>)
    requires multiset(b) == multiset(es)
    ensures Offers(es, tops) && ReadBy(Chosen(es, tops), readers)
    ensures ItemTotal(b) == ChosenTotal(Chosen(es, tops), readers)
  {
    ExclusivesFacts(b);
    SameExclusives(b, es);
    SameMembers(b, es);
    tops := map x | x in Exclusives(es) :: Best(b, x).value;
    forall x | x in Exclusives(es)
      ensures IsTop(es, tops[x]) && tops[x].exclusive == x
    {
      BestIsTop(b, x);
    }
    SelectsChosen(es, b, tops);
    var s := Selected(b);
    readers := LastReaders(b);
    TotalIsChosen(s, readers);
    ReadByPermutation(s, Chosen(es, tops), readers);
    ChosenTotalPermutation(s, Chosen(es, tops), readers);
  }

  // ------------------------------------------------------- every choice is an order

  lemma {:induction false} BestWithout(b: seq<Entry>, i: nat, y: string)
    requires i < |b| && b[i].exclusive != y
    ensures Best(Without(b, i), y) == Best(b, y)
    decreases |b|
  {
    var n := |b| - 1;
    var rest := Without(b, i);
    if i == n {
      assert rest == b[..n];
    } else {
      assert rest[..n - 1] == Without(b[..n], i);
      BestWithout(b[..n], i, y);
    }
  }

  lemma {:induction false} BestBehind(e: Entry, rest: seq<Entry>, y: string)
    requires e.exclusive != y
    ensures Best([e] + rest, y) == Best(rest, y)
    decreases |rest|
  {
    if rest == [] {
      assert [e] + rest == [] + [e];
      OneMoreSelected([], e, y);
    } else {
      var n := |rest| - 1;
      assert ([e] + rest)[..|[e] + rest| - 1] == [e] + rest[..n];
      BestBehind(e, rest[..n], y);
    }
  }

  /** Listing a top entry first makes it the best and leaves other groups alone. */
  lemma TopToFront(b: seq<Entry>, e: Entry) returns (c: seq<Entry>)
    requires IsTop(b, e)
    ensures multiset(c) == multiset(b) && Best(c, e.exclusive) == Some(e)
    ensures forall y :: y != e.exclusive ==> Best(c, y) == Best(b, y)
  {
    var i :| 0 <= i < |b| && b[i] == e;
    MultisetWithout(b, i);
    c := [e] + Without(b, i);
    FirstTopIsBest(e, Without(b, i));
    forall y | y != e.exclusive
      ensures Best(c, y) == Best(b, y)
    {
      BestWithout(b, i, y);
      BestBehind(e, Without(b, i), y);
    }
  }

  /** Some order has the chosen best entries. */
  lemma {:induction false} OrderForTops(es: seq<Entry>, tops: map<string, Entry>, xs: seq<string>)
    returns (b: seq<Entry>)
    requires Offers(es, tops) && Distinct(xs) && forall x :: x in xs ==> x in Exclusives(es)
    ensures multiset(b) == multiset(es) && forall x :: x in xs ==> Best(b, x) == Some(tops[x])
    decreases |xs|
  {
    if xs == [] {
      b := es;
    } else {
      var init, last := xs[..|xs| - 1], xs[|xs| - 1];
      assert xs == init + [last];
      b := OrderForTops(es, tops, init);
      SameMembers(b, es);
      b := TopToFront(b, tops[last]);
      assert last !in init;
    }
  }

  function Of(es: seq<Entry>, x: string): (r: seq<Entry>)
    ensures forall e :: e in r ==> e.exclusive == x
  {
    if es == [] then []
    else Of(es[..|es| - 1], x) + if es[|es| - 1].exclusive == x then [es[|es| - 1]] else []
  }

  function Others(es: seq<Entry>, x: string): (r: seq<Entry>)
    ensures forall e :: e in r ==> e.exclusive != x && e in es
  {
    if es == [] then []
    else Others(es[..|es| - 1], x) + if es[|es| - 1].exclusive == x then [] else [es[|es| - 1]]
  }

  lemma {:induction false} SplitOff(es: seq<Entry>, x: string)
    ensures multiset(Others(es, x) + Of(es, x)) == multiset(es)
    decreases |es|
  {
    if es != [] {
      assert es == es[..|es| - 1] + [es[|es| - 1]];
      SplitOff(es[..|es| - 1], x);
    }
  }

  /** An exclusive group listed last. */
  lemma {:induction false} GroupLastFacts(rest: seq<Entry>, members: seq<Entry>, x: string)
    requires x != "" && (forall e :: e in rest ==> e.exclusive != x) && forall e :: e in members ==> e.exclusive == x
    ensures Plain(rest + members) == Plain(rest)
    ensures Exclusives(rest + members) == Exclusives(rest) + if members == [] then [] else [x]
    ensures Best(rest + members, x) == Best(members, x)
    ensures forall y :: y != x ==> Best(rest + members, y) == Best(rest, y)
    decreases |members|
  {
    if members == [] {
      assert rest + members == rest;
      BestFacts(rest, x);
    } else {
      var init, last := members[..|members| - 1], members[|members| - 1];
      assert members == init + [last];
      assert rest + members == (rest + init) + [last];
      GroupLastFacts(rest, init, x);
      ExclusivesFacts(rest);
      BestFacts(rest, x);
      OneMoreSelected(rest + init, last, x);
      forall y | y != x
        ensures Best(rest + members, y) == Best(rest, y)
      {
        OneMoreSelected(rest + init, last, y);
      }
    }
  }

  lemma {:induction false} GroupLast(rest: seq<Entry>, members: seq<Entry>, x: string, e: Entry)
    requires x != "" && (forall e :: e in rest ==> e.exclusive != x) && forall e :: e in members ==> e.exclusive == x
    requires Best(rest + members, x) == Some(e)
    ensures Selected(rest + members) == Selected(rest) + [e]
  {
    GroupLastFacts(rest, members, x);
    ExclusivesFacts(rest);
    ExclusivesFacts(rest + members);
    BestFacts(rest, x);
    MoreBests(rest, rest + members, x, e);
  }

  lemma {:induction false} MoreBests(es: seq<Entry>, more: seq<Entry>, x: string, e: Entry)
    requires Exclusives(more) == Exclusives(es) + [x] && Best(more, x) == Some(e) && x !in Exclusives(es)
    requires forall y :: y != x ==> Best(more, y) == Best(es, y)
    ensures Bests(more) == Bests(es) + [e]
  {
    ExclusivesFacts(es);
    ExclusivesFacts(more);
    var xs := Exclusives(es);
    forall k | 0 <= k < |xs|
      ensures Bests(more)[k] == Bests(es)[k]
    {
      assert xs[k] in xs;
    }
  }

  lemma {:induction false} PlainLast(rest: seq<Entry>, e: Entry)
    requires e.exclusive == ""
    ensures Plain(rest + [e]) == Plain(rest) + [e] && Bests(rest + [e]) == Bests(rest)
  {
    ExclusivesFacts(rest);
    ExclusivesFacts(rest + [e]);
    forall x
      ensures Plain(rest + [e]) == Plain(rest) + [e] && Exclusives(rest + [e]) == Exclusives(rest)
      ensures x != "" ==> Best(rest + [e], x) == Best(rest, x)
    {
      OneMoreSelected(rest, e, x);
    }
  }

  lemma {:induction false} OthersSnoc(b: seq<Entry>, e: Entry, x: string)
    ensures Others(b + [e], x) == if e.exclusive == x then Others(b, x) else Others(b, x) + [e]
    ensures Of(b + [e], x) == if e.exclusive == x then Of(b, x) + [e] else Of(b, x)
  {
    OneMore(b, e);
  }

  lemma {:induction false} PlainSnoc(b: seq<Entry>, e: Entry)
    ensures Plain(b + [e]) == if e.exclusive == "" then Plain(b) + [e] else Plain(b)
  {
    OneMore(b, e);
  }

  lemma {:induction false} BestSnoc(b: seq<Entry>, e: Entry, y: string)
    ensures Best(b + [e], y) ==
      if e.exclusive == y && (Best(b, y).None? || e.score > Best(b, y).value.score) then Some(e) else Best(b, y)
  {
    OneMore(b, e);
  }

  lemma {:induction false} OthersPlain(b: seq<Entry>, x: string)
    requires x != ""
    ensures Plain(Others(b, x)) == Plain(b)
    decreases |b|
  {
    if b != [] {
      var init, last := b[..|b| - 1], b[|b| - 1];
      assert b == init + [last];
      OthersPlain(init, x);
      OthersSnoc(init, last, x);
      PlainSnoc(init, last);
      PlainSnoc(Others(init, x), last);
    }
  }

  lemma {:induction false} OfBest(b: seq<Entry>, x: string)
    ensures Best(Of(b, x), x) == Best(b, x)
    decreases |b|
  {
    if b != [] {
      var init, last := b[..|b| - 1], b[|b| - 1];
      assert b == init + [last];
      OfBest(init, x);
      OthersSnoc(init, last, x);
      BestSnoc(init, last, x);
      BestSnoc(Of(init, x), last, x);
    }
  }

  lemma {:induction false} OthersBest(b: seq<Entry>, x: string, y: string)
    requires y != x
    ensures Best(Others(b, x), y) == Best(b, y)
    decreases |b|
  {
    if b != [] {
      var init, last := b[..|b| - 1], b[|b| - 1];
      assert b == init + [last];
      OthersBest(init, x, y);
      OthersSnoc(init, last, x);
      BestSnoc(init, last, y);
      BestSnoc(Others(init, x), last, y);
    }
  }

  function Remove(xs: seq<string>, x: string): (r: seq<string>)
    ensures forall y :: y in r ==> y in xs && y != x
  {
    if xs == [] then []
    else if xs[|xs| - 1] == x then Remove(xs[..|xs| - 1], x)
    else Remove(xs[..|xs| - 1], x) + [xs[|xs| - 1]]
  }

  function WithKey(xs: seq<string>, y: string): seq<string> {
    if y == "" || y in xs then xs else xs + [y]
  }

  lemma {:induction false} RemoveWithKey(xs: seq<string>, y: string, x: string)
    ensures Remove(WithKey(xs, y), x) == if y == x then Remove(xs, x) else WithKey(Remove(xs, x), y)
  {
    RemoveSnoc(xs, y, x);
  }

  lemma {:induction false} ExclusivesSnoc(b: seq<Entry>, e: Entry)
    ensures Exclusives(b + [e]) == WithKey(Exclusives(b), e.exclusive)
  {
    OneMore(b, e);
  }

  lemma {:induction false} OthersExclusives(b: seq<Entry>, x: string)
    requires x != ""
    ensures Exclusives(Others(b, x)) == Remove(Exclusives(b), x)
    decreases |b|
  {
    if b != [] {
      var init, last := b[..|b| - 1], b[|b| - 1];
      assert b == init + [last];
      OthersExclusives(init, x);
      OthersSnoc(init, last, x);
      ExclusivesSnoc(init, last);
      ExclusivesSnoc(Others(init, x), last);
      RemoveWithKey(Exclusives(init), last.exclusive, x);
    }
  }

  lemma {:induction false} RemoveSnoc(xs: seq<string>, y: string, x: string)
    ensures Remove(xs + [y], x) == if y == x then Remove(xs, x) else Remove(xs, x) + [y]
    ensures y != x ==> (y in Remove(xs, x) <==> y in xs)
    decreases |xs|
  {
    assert (xs + [y])[..|xs|] == xs;
    if xs != [] {
      RemoveSnoc(xs[..|xs| - 1], y, x);
      assert xs == xs[..|xs| - 1] + [xs[|xs| - 1]];
    }
  }

  lemma {:induction false} BestOfSnoc(p: seq<Entry>, b: seq<Entry>, xs: seq<string>, x: string)
    requires (forall y :: y in xs ==> Best(b, y).Some?) && Best(b, x).Some?
    ensures p + BestOf(b, xs + [x]) == p + BestOf(b, xs) + [Best(b, x).value]
  {
    assert BestOf(b, xs + [x]) == BestOf(b, xs) + [Best(b, x).value];
  }

  lemma {:induction false} CapSnoc(s: seq<Entry>, e: Entry, key: string)
    ensures GroupCap(s + [e], key) == if InGroup(e, key) then e.group.value.cap else GroupCap(s, key)
  {
    OneMore(s, e);
  }

  /** Leaving out an exclusive group whose best entry is not in a cap group does not
      change the cap that is read for it. */
  lemma {:induction false} CapWithoutGroup(p: seq<Entry>, b: seq<Entry>, xs: seq<string>, x: string, key: string)
    requires forall y :: y in xs ==> Best(b, y).Some?
    requires x in xs ==> !InGroup(Best(b, x).value, key)
    ensures GroupCap(p + BestOf(b, Remove(xs, x)), key) == GroupCap(p + BestOf(b, xs), key)
    decreases |xs|
  {
    if xs != [] {
      var init, last := xs[..|xs| - 1], xs[|xs| - 1];
      assert xs == init + [last];
      CapWithoutGroup(p, b, init, x, key);
      BestOfSnoc(p, b, init, last);
      CapSnoc(p + BestOf(b, init), Best(b, last).value, key);
      if last != x {
        BestOfSnoc(p, b, Remove(init, x), last);
        CapSnoc(p + BestOf(b, Remove(init, x)), Best(b, last).value, key);
      }
    }
  }

  /** An exclusive group moved to the end: its best entry is read, other caps stay. */
  lemma GroupToEnd(b: seq<Entry>, e: Entry, key: string) returns (c: seq<Entry>)
    requires e in Selected(b) && e.exclusive != "" && InGroup(e, key)
    ensures Moved(b, c, e, key)
  {
    var x := e.exclusive;
    SelectedCount(b, e);
    assert Best(b, x) == Some(e);
    c := Others(b, x) + Of(b, x);
    SplitOff(b, x);
    GroupLastFacts(Others(b, x), Of(b, x), x);
    OfBest(b, x);
    forall y | y != "" && y != x
      ensures Best(c, y) == Best(b, y)
    {
      OthersBest(b, x, y);
    }
    GroupLast(Others(b, x), Of(b, x), x, e);
    OneMoreAdded(Selected(Others(b, x)), e, key);
    forall k | k != key
      ensures GroupCap(Selected(c), k) == GroupCap(Selected(b), k)
    {
      OneMoreAdded(Selected(Others(b, x)), e, k);
      CapOfOthers(b, x, k);
    }
  }

  lemma {:induction false} CapOfOthers(b: seq<Entry>, x: string, key: string)
    requires x != "" && Best(b, x).Some? && !InGroup(Best(b, x).value, key)
    ensures GroupCap(Selected(Others(b, x)), key) == GroupCap(Selected(b), key)
  {
    var xs := Exclusives(b);
    ExclusivesFacts(b);
    ExclusivesFacts(Others(b, x));
    OthersExclusives(b, x);
    OthersPlain(b, x);
    forall y | y in Remove(xs, x)
      ensures Best(Others(b, x), y) == Best(b, y)
    {
      OthersBest(b, x, y);
    }
    assert BestOf(Others(b, x), Remove(xs, x)) == BestOf(b, Remove(xs, x));
    CapWithoutGroup(Plain(b), b, xs, x, key);
  }

  /** c orders the entries of b with the same best entries; the cap read for the key
      is that of e, and no other cap changes. */
  ghost predicate Moved(b: seq<Entry>, c: seq<Entry>, e: Entry, key: string)
    requires e.group.Some?
  {
    && multiset(c) == multiset(b) && (forall y :: y != "" ==> Best(c, y) == Best(b, y))
    && GroupCap(Selected(c), key) == e.group.value.cap
    && forall k :: k != key ==> GroupCap(Selected(c), k) == GroupCap(Selected(b), k)
  }

  lemma WithoutSnoc<T>(s: seq<T>, j: nat, t: T)
    requires j < |s|
    ensures Without(s + [t], j) == Without(s, j) + [t]
  {
  }

  lemma {:induction false} PlainWithout(b: seq<Entry>, i: nat)
    requires i < |b| && b[i].exclusive == ""
    ensures var j := |Plain(b[..i])|;
      j < |Plain(b)| && Plain(b)[j] == b[i] && Plain(Without(b, i)) == Without(Plain(b), j)
    decreases |b|
  {
    var n := |b| - 1;
    var init, last := b[..n], b[n];
    assert b == init + [last];
    PlainSnoc(init, last);
    if i == n {
      assert Without(b, i) == init;
      assert Without(Plain(b), |Plain(init)|) == Plain(init);
    } else {
      assert Without(b, i) == Without(init, i) + [last] && init[..i] == b[..i];
      PlainWithout(init, i);
      PlainSnoc(Without(init, i), last);
      WithoutSnoc(Plain(init), |Plain(b[..i])|, last);
    }
  }

  lemma {:induction false} ExclusivesWithout(b: seq<Entry>, i: nat)
    requires i < |b| && b[i].exclusive == ""
    ensures Exclusives(Without(b, i)) == Exclusives(b)
    decreases |b|
  {
    var n := |b| - 1;
    if i == n {
      assert Without(b, i) == b[..n];
    } else {
      assert Without(b, i) == Without(b[..n], i) + [b[n]] && b == b[..n] + [b[n]];
      ExclusivesWithout(b[..n], i);
      ExclusivesSnoc(Without(b[..n], i), b[n]);
      ExclusivesSnoc(b[..n], b[n]);
    }
  }

  lemma {:induction false} CapWithout(s: seq<Entry>, j: nat, key: string)
    requires j < |s| && !InGroup(s[j], key)
    ensures GroupCap(Without(s, j), key) == GroupCap(s, key)
    decreases |s|
  {
    var n := |s| - 1;
    var rest := Without(s, j);
    if j == n {
      assert rest == s[..n];
    } else {
      assert rest[..n - 1] == Without(s[..n], j);
      CapWithout(s[..n], j, key);
    }
  }

  /** A plain entry moved to the end. */
  lemma PlainToEnd(b: seq<Entry>, e: Entry, key: string) returns (c: seq<Entry>)
    requires e.exclusive == "" && IsReader(Selected(b), e, key)
    ensures Moved(b, c, e, key)
  {
    SelectedMembers(b);
    var i :| 0 <= i < |b| && b[i] == e;
    var rest, j := Without(b, i), |Plain(b[..i])|;
    MultisetWithout(b, i);
    PlainWithout(b, i);
    ExclusivesWithout(b, i);
    c := rest + [e];
    PlainLast(rest, e);
    ExclusivesFacts(b);
    ExclusivesFacts(rest);
    forall y | y != ""
      ensures Best(rest, y) == Best(b, y) && Best(c, y) == Best(b, y)
    {
      BestWithout(b, i, y);
      OneMoreSelected(rest, e, y);
    }
    SelectedIsPlainFirst(b);
    SelectedIsPlainFirst(c);
    assert Bests(rest) == Bests(b);
    GroupKeysFacts(Bests(b));
    CapInFront(Plain(b), j, Bests(b), e, key);
  }

  /** The caps that are read when a plain entry moves behind the other plain ones. */
  lemma {:induction false} CapInFront(p: seq<Entry>, j: nat, d: seq<Entry>, e: Entry, key: string)
    requires j < |p| && p[j] == e && InGroup(e, key) && key !in GroupKeys(d)
    ensures GroupCap(Without(p, j) + [e] + d, key) == e.group.value.cap
    ensures forall k :: k != key ==> GroupCap(Without(p, j) + [e] + d, k) == GroupCap(p + d, k)
  {
    GroupCapAppend(Without(p, j) + [e], d, key);
    OneMoreAdded(Without(p, j), e, key);
    forall k | k != key
      ensures GroupCap(Without(p, j) + [e] + d, k) == GroupCap(p + d, k)
    {
      GroupCapAppend(Without(p, j) + [e], d, k);
      GroupCapAppend(p, d, k);
      OneMoreAdded(Without(p, j), e, k);
      CapWithout(p, j, k);
    }
  }

  /** Some order reads the caps of the chosen readers. */
  lemma {:induction false} OrderForReaders(b: seq<Entry>, readers: map<string, Entry>, keys: seq<string>)
    returns (c: seq<Entry>)
    requires ReadBy(Selected(b), readers) && Distinct(keys)
    requires forall key :: key in keys ==> key in GroupKeys(Selected(b))
    ensures multiset(c) == multiset(b) && forall y :: y != "" ==> Best(c, y) == Best(b, y)
    ensures forall key :: key in keys ==> GroupCap(Selected(c), key) == readers[key].group.value.cap
    decreases |keys|
  {
    if keys == [] {
      c := b;
    } else {
      var init, last := keys[..|keys| - 1], keys[|keys| - 1];
      assert keys == init + [last];
      var d := OrderForReaders(b, readers, init);
      SameBestsSelect(b, d);
      ReaderPermutation(Selected(b), Selected(d), readers[last], last);
      if readers[last].exclusive != "" {
        c := GroupToEnd(d, readers[last], last);
      } else {
        c := PlainToEnd(d, readers[last], last);
      }
      assert last !in init;
    }
  }

  lemma ChoiceIsOrder(es: seq<Entry>, tops: map<string, Entry>, readers: map<string, Entry>) returns (c: seq<Entry>)
    requires Offers(es, tops) && ReadBy(Chosen(es, tops), readers)
    ensures multiset(c) == multiset(es) && ItemTotal(c) == ChosenTotal(Chosen(es, tops), readers)
  {
    ExclusivesFacts(es);
    var b := OrderForTops(es, tops, Exclusives(es));
    SelectsChosen(es, b, tops);
    ReadByPermutation(Chosen(es, tops), Selected(b), readers);
    GroupKeysFacts(Selected(b));
    c := OrderForReaders(b, readers, GroupKeys(Selected(b)));
    SameBestsSelect(b, c);
    ReadByPermutation(Selected(b), Selected(c), readers);
    KeysPermutation(Selected(b), Selected(c));
    SameMembers(GroupKeys(Selected(b)), GroupKeys(Selected(c)));
    TotalIsChosen(Selected(c), readers);
    ChosenTotalPermutation(Selected(c), Chosen(es, tops), readers);
  }

  // ------------------------------------------------------------- exact conditions

  /** Every order leads to the same total exactly when all choices do. */
  lemma TotalIsFreeByChoices(es: seq<Entry>)
    ensures TotalIsFree(es) <==> ChoicesAgree(es)
  {
    if ChoicesAgree(es) {
      forall b: seq<Entry> | multiset(b) == multiset(es)
        ensures ItemTotal(b) == ItemTotal(es)
      {
        var tops, readers := OrderIsChoice(es, b);
      }
    }
    if TotalIsFree(es) {
      forall tops, readers | Offers(es, tops) && ReadBy(Chosen(es, tops), readers)
        ensures ChosenTotal(Chosen(es, tops), readers) == ItemTotal(es)
      {
        var c := ChoiceIsOrder(es, tops, readers);
      }
    }
  }

  /** The order itself as a choice. */
  lemma ItsOwnChoice(es: seq<Entry>) returns (tops: map<string, Entry>, readers: map<string, Entry>)
    ensures Offers(es, tops) && Chosen(es, tops) == Selected(es) && ReadBy(Selected(es), readers)
  {
    ExclusivesFacts(es);
    tops := map x | x in Exclusives(es) :: Best(es, x).value;
    forall x | x in Exclusives(es)
      ensures IsTop(es, tops[x]) && tops[x].exclusive == x
    {
      BestIsTop(es, x);
    }
    assert TopsOf(Exclusives(es), tops) == BestOf(es, Exclusives(es));
    readers := LastReaders(es);
  }

  lemma LastReaders(es: seq<Entry>) returns (readers: map<string, Entry>)
    ensures ReadBy(Selected(es), readers)
    ensures forall key :: key in GroupKeys(Selected(es)) ==>
      GroupCap(Selected(es), key) == readers[key].group.value.cap
  {
    var s := Selected(es);
    readers := map key | key in GroupKeys(s) :: LastInGroup(s, key);
    SelectedIsPlainFirst(es);
    forall key | key in GroupKeys(s)
      ensures IsReader(s, readers[key], key)
    {
      ReadFromReader(Plain(es), Bests(es), key);
    }
  }

  lemma ReadersAreNeeded(es: seq<Entry>, e: Entry, f: Entry, key: string)
    requires ChoicesAgree(es) && IsReader(Selected(es), e, key) && IsReader(Selected(es), f, key)
    ensures var sum := Sum(Selected(es), PartOf(key));
      Min(sum, e.group.value.cap) == Min(sum, f.group.value.cap)
  {
    var tops, readers := ItsOwnChoice(es);
    var s := Selected(es);
    KeyOfMember(s, e, key);
    ChosenReader(es, tops, readers, e, key);
    ChosenReader(es, tops, readers, f, key);
    OneReaderChanged(s, readers, e, f, key);
  }

  lemma ChosenReader(es: seq<Entry>, tops: map<string, Entry>, readers: map<string, Entry>, e: Entry, key: string)
    requires ChoicesAgree(es) && Offers(es, tops) && Chosen(es, tops) == Selected(es) && ReadBy(Selected(es), readers)
    requires IsReader(Selected(es), e, key)
    ensures ChosenTotal(Selected(es), readers[key := e]) == ItemTotal(es)
  {
    assert ReadBy(Chosen(es, tops), readers[key := e]);
  }

  lemma {:induction false} OneReaderChanged(s: seq<Entry>, readers: map<string, Entry>, e: Entry, f: Entry, key: string)
    requires key in GroupKeys(s) && InGroup(e, key) && InGroup(f, key)
    requires ChosenTotal(s, readers[key := e]) == ChosenTotal(s, readers[key := f])
    ensures var sum := Sum(s, PartOf(key));
      Min(sum, e.group.value.cap) == Min(sum, f.group.value.cap)
  {
    GroupKeysFacts(s);
    SumChangedAt(GroupKeys(s), key, CappedBy(s, readers[key := e]), CappedBy(s, readers[key := f]));
  }

  /** Where the selection does not depend on the order, every order leads to the same
      total exactly when for each cap group all caps that may be read come to the
      same. */
  lemma TotalIsFreeExactly(es: seq<Entry>)
    requires TopsAgree(es)
    ensures TotalIsFree(es) <==> ReadersAgree(Selected(es))
  {
    if ReadersAgree(Selected(es)) {
      forall b: seq<Entry> | multiset(b) == multiset(es)
        ensures ItemTotal(b) == ItemTotal(es)
      {
        ItemTotalPermutation(es, b);
      }
    }
    if TotalIsFree(es) {
      TotalIsFreeByChoices(es);
      forall e, f, key | IsReader(Selected(es), e, key) && IsReader(Selected(es), f, key)
        ensures Min(Sum(Selected(es), PartOf(key)), e.group.value.cap)
          == Min(Sum(Selected(es), PartOf(key)), f.group.value.cap)
      {
        ReadersAreNeeded(es, e, f, key);
      }
    }
  }

  // ------------------------------------------------------------------- submissions

  lemma {:induction false} CountedSubmission(subs: seq<Submission>, category: string, e: Entry) returns (i: nat)
    requires e in Entries(subs, category)
    ensures i < |subs| && Counts(subs[i], category) && EntryOf(subs[i]) == e
    decreases |subs|
  {
    i := |subs| - 1;
    if !(Counts(subs[i], category) && EntryOf(subs[i]) == e) {
      i := CountedSubmission(subs[..i], category, e);
    }
  }

  lemma TakeCounted(subs: seq<Submission>, category: string, e: Entry) returns (rest: seq<Submission>, s: Submission)
    requires e in Entries(subs, category)
    ensures multiset(rest + [s]) == multiset(subs) && Counts(s, category) && EntryOf(s) == e
    ensures multiset(Entries(rest, category)) + multiset{e} == multiset(Entries(subs, category))
  {
    var i := CountedSubmission(subs, category, e);
    rest, s := Without(subs, i), subs[i];
    MultisetWithout(subs, i);
    EntriesPermutation(rest + [s], subs, category);
    OneMoreCounted(rest, s, category);
  }

  /** Any order of the entries is the order of the submissions listed accordingly. */
  lemma {:induction false} EntriesInOrder(subs: seq<Submission>, b: seq<Entry>, category: string)
    returns (other: seq<Submission>)
    requires multiset(b) == multiset(Entries(subs, category))
    ensures multiset(other) == multiset(subs) && Entries(other, category) == b
    decreases |b|
  {
    if b == [] {
      assert |multiset(Entries(subs, category))| == 0;
      other := subs;
    } else {
      var init, last := b[..|b| - 1], b[|b| - 1];
      assert b == init + [last];
      assert last in multiset(b);
      var rest, s := TakeCounted(subs, category, last);
      assert multiset(init) == multiset(b) - multiset{last};
      assert multiset(Entries(rest, category)) == multiset(Entries(subs, category)) - multiset{last};
      other := EntriesInOrder(rest, init, category);
      OneMoreCounted(other, s, category);
      other := other + [s];
    }
  }

  lemma {:induction false} OneMoreCounted(subs: seq<Submission>, s: Submission, category: string)
    requires Counts(s, category)
    ensures Entries(subs + [s], category) == Entries(subs, category) + [EntryOf(s)]
  {
    assert (subs + [s])[..|subs|] == subs;
  }

  ghost predicate SubmissionsSelectAlike(subs: seq<Submission>, category: string) {
    forall other: seq<Submission> :: multiset(other) == multiset(subs) ==>
      multiset(Selected(Entries(other, category))) == multiset(Selected(Entries(subs, category)))
  }

  ghost predicate SubmissionsTotalAlike(subs: seq<Submission>, category: string) {
    forall other: seq<Submission> :: multiset(other) == multiset(subs) ==>
      ItemTotal(Entries(other, category)) == ItemTotal(Entries(subs, category))
  }

  lemma {:induction false} SelectAlikeExactly(subs: seq<Submission>, category: string)
    ensures SubmissionsSelectAlike(subs, category) <==> SelectionIsFree(Entries(subs, category))
  {
    forall other: seq<Submission> | multiset(other) == multiset(subs)
      ensures multiset(Entries(other, category)) == multiset(Entries(subs, category))
    {
      EntriesPermutation(other, subs, category);
    }
    if SubmissionsSelectAlike(subs, category) {
      forall b: seq<Entry> | multiset(b) == multiset(Entries(subs, category))
        ensures multiset(Selected(b)) == multiset(Selected(Entries(subs, category)))
      {
        var other := EntriesInOrder(subs, b, category);
      }
    }
  }

  lemma {:induction false} TotalAlikeExactly(subs: seq<Submission>, category: string)
    ensures SubmissionsTotalAlike(subs, category) <==> TotalIsFree(Entries(subs, category))
  {
    forall other: seq<Submission> | multiset(other) == multiset(subs)
      ensures multiset(Entries(other, category)) == multiset(Entries(subs, category))
    {
      EntriesPermutation(other, subs, category);
    }
    if SubmissionsTotalAlike(subs, category) {
      forall b: seq<Entry> | multiset(b) == multiset(Entries(subs, category))
        ensures ItemTotal(b) == ItemTotal(Entries(subs, category))
      {
        var other := EntriesInOrder(subs, b, category);
      }
    }
  }

  /** Every order of the submissions selects the same ones exactly when the best
      entries of each exclusive group agree on cap group and cap. Every order leads to
      the same points exactly when all choices of best entries and of caps that may be
      read do; when the best entries agree, exactly when the caps that may be read for
      a cap group come to the same. */
  lemma {:induction false} WhenOrderMatters(subs: seq<Submission>, category: string)
    ensures SubmissionsSelectAlike(subs, category) <==> TopsAgree(Entries(subs, category))
    ensures SubmissionsTotalAlike(subs, category) <==> ChoicesAgree(Entries(subs, category))
    ensures TopsAgree(Entries(subs, category)) ==>
      (SubmissionsTotalAlike(subs, category) <==> ReadersAgree(Selected(Entries(subs, category))))
  {
    SelectAlikeExactly(subs, category);
    SelectionIsFreeExactly(Entries(subs, category));
    TotalAlikeExactly(subs, category);
    TotalIsFreeByChoices(Entries(subs, category));
    if TopsAgree(Entries(subs, category)) {
      TotalIsFreeExactly(Entries(subs, category));
    }
  }
}
