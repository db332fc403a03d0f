/** The score of one category: exclusive groups, shared caps, base and penalty
    points and the category cap, in thousandths of a point (mock/src/handle.ts, and
    backend/internal/scheme/score.go for the server). */
module CategoryScore {
  import opened Options

  datatype CapGroup = CapGroup(key: string, cap: int)

  datatype Status = Draft | Pending | Consensus | Scored | Locked | Appealing | Arbitrating

  datatype Submission = Submission(
    category: string, status: Status, finalScore: Option<int>, forceRejected: bool,
    itemCap: Option<int>, exclusive: string, group: Option<CapGroup>)

  /** A counted submission: its score after the cap of its item. */
  datatype Entry = Entry(score: int, exclusive: string, group: Option<CapGroup>)

  // ------------------------------------------------------------------- selecting

  predicate Counts(s: Submission, category: string) {
    && s.category == category && s.finalScore.Some? && !s.forceRejected
    && (s.status == Scored || s.status == Locked || s.status == Appealing || s.status == Arbitrating)
  }

  function EntryOf(s: Submission): Entry
    requires s.finalScore.Some?
  {
    Entry(if s.itemCap.Some? then Min(s.finalScore.value, s.itemCap.value) else s.finalScore.value,
      s.exclusive, s.group)
  }

  function Entries(subs: seq<Submission>, category: string): seq<Entry> {
    if subs == [] then []
    else
      Entries(subs[..|subs| - 1], category) +
      if Counts(subs[|subs| - 1], category) then [EntryOf(subs[|subs| - 1])] else []
  }

  function Plain(es: seq<Entry>): seq<Entry> {
    if es == [] then []
    else Plain(es[..|es| - 1]) + if es[|es| - 1].exclusive == "" then [es[|es| - 1]] else []
  }

  /** The exclusive groups, in order of first appearance. */
  function Exclusives(es: seq<Entry>): seq<string> {
    if es == [] then []
    else
      var before, x := Exclusives(es[..|es| - 1]), es[|es| - 1].exclusive;
      if x == "" || x in before then before else before + [x]
  }

  /** The first entry with the highest score of an exclusive group. */
  function Best(es: seq<Entry>, x: string): Option<Entry> {
    if es == [] then None
    else
      var best, e := Best(es[..|es| - 1], x), es[|es| - 1];
      if e.exclusive == x && (best.None? || e.score > best.value.score) then Some(e) else best
  }

  lemma {:induction false} BestFacts(es: seq<Entry>, x: string)
    ensures Best(es, x).Some? <==> exists i :: 0 <= i < |es| && es[i].exclusive == x
    ensures Best(es, x).Some? ==>
      && Best(es, x).value in es && Best(es, x).value.exclusive == x
      && forall i :: 0 <= i < |es| && es[i].exclusive == x ==> es[i].score <= Best(es, x).value.score
    decreases |es|
  {
    if es != [] {
      var init := es[..|es| - 1];
      BestFacts(init, x);
      assert forall i :: 0 <= i < |init| ==> init[i] == es[i];
      assert es[|es| - 1] in es;
    }
  }

  lemma {:induction false} ExclusivesFacts(es: seq<Entry>)
    ensures forall x :: x in Exclusives(es) <==> x != "" && Best(es, x).Some?
    ensures Distinct(Exclusives(es))
    decreases |es|
  {
    if es != [] {
      ExclusivesFacts(es[..|es| - 1]);
    }
  }

  function BestOf(es: seq<Entry>, xs: seq<string>): (r: seq<Entry>)
    requires forall x :: x in xs ==> Best(es, x).Some?
    ensures |r| == |xs|
  {
    seq(|xs|, (i: nat) requires i < |xs| => Best(es, xs[i]).value)
  }

  /** What is added up: all plain entries, and the best of each exclusive group. */
  function Selected(es: seq<Entry>): seq<Entry> {
    ExclusivesFacts(es);
    Plain(es) + BestOf(es, Exclusives(es))
  }

  // ------------------------------------------------------------------ adding up

  function Sum<T>(ts: seq<T>, f: T -> int): int {
    if ts == [] then 0 else Sum(ts[..|ts| - 1], f) + f(ts[|ts| - 1])
  }

  predicate InGroup(e: Entry, key: string) {
    e.group.Some? && e.group.value.key == key
  }

  function UngroupedPart(): Entry -> int {
    (e: Entry) => if e.group.None? then e.score else 0
  }

  function PartOf(key: string): Entry -> int {
    (e: Entry) => if InGroup(e, key) then e.score else 0
  }

  function GroupKeys(es: seq<Entry>): seq<string> {
    if es == [] then []
    else
      var before, g := GroupKeys(es[..|es| - 1]), es[|es| - 1].group;
      if g.None? || g.value.key in before then before else before + [g.value.key]
  }

  /** The cap that the last entry of the group carries. */
  function GroupCap(es: seq<Entry>, key: string): int {
    if es == [] then 0
    else if InGroup(es[|es| - 1], key) then es[|es| - 1].group.value.cap
    else GroupCap(es[..|es| - 1], key)
  }

  function Capped(es: seq<Entry>): string -> int {
    key => Min(Sum(es, PartOf(key)), GroupCap(es, key))
  }

  function Total(es: seq<Entry>): int {
    Sum(es, UngroupedPart()) + Sum(GroupKeys(es), Capped(es))
  }

  function ItemTotal(es: seq<Entry>): int {
    Total(Selected(es))
  }

  // -------------------------------------------------------------------- the loops

  /** What the selection loop keeps about the entries so far. */
  ghost predicate Selecting(es: seq<Entry>, plain: seq<Entry>, order: seq<string>, exclusive: map<string, Entry>) {
    && plain == Plain(es) && order == Exclusives(es)
    && (forall x :: x in exclusive <==> x in order)
    && forall x :: x in exclusive ==> Best(es, x) == Some(exclusive[x])
  }

  lemma OneMore(es: seq<Entry>, e: Entry)
    ensures (es + [e])[..|es + [e]| - 1] == es && (es + [e])[|es + [e]| - 1] == e
  {
  }

  method SelectOne(ghost es: seq<Entry>, entry: Entry, plain: seq<Entry>, order: seq<string>, exclusive: map<string,
                   Entry>)
    returns (plain': seq<Entry>, order': seq<string>, exclusive': map<string, Entry>)
    requires Selecting(es, plain, order, exclusive)
    ensures Selecting(es + [entry], plain', order', exclusive')
  {
    plain', order', exclusive' := plain, order, exclusive;
    OneMore(es, entry);
    ExclusivesFacts(es);
    if entry.exclusive == "" {
      plain' := plain + [entry];
    } else if entry.exclusive !in exclusive {
      order' := order + [entry.exclusive];
      exclusive' := exclusive[entry.exclusive := entry];
    } else if entry.score > exclusive[entry.exclusive].score {
      exclusive' := exclusive[entry.exclusive := entry];
    }
  }

  method SelectEntries(subs: seq<Submission>, category: string) returns (selected: seq<Entry>)
    ensures selected == Selected(Entries(subs, category))
  {
    selected := [];
    var order: seq<string>, exclusive: map<string, Entry> := [], map[];
    ghost var es: seq<Entry> := [];
    for i := 0 to |subs|
      invariant es == Entries(subs[..i], category)
      invariant Selecting(es, selected, order, exclusive)
    {
      assert subs[..i + 1][..i] == subs[..i];
      if Counts(subs[i], category) {
        selected, order, exclusive := SelectOne(es, EntryOf(subs[i]), selected, order, exclusive);
        es := es + [EntryOf(subs[i])];
      }
    }
    assert subs[..|subs|] == subs;
    selected := AddBest(es, selected, order, exclusive);
  }

  method AddBest(ghost es: seq<Entry>, plain: seq<Entry>, order: seq<string>, exclusive: map<string, Entry>)
    returns (selected: seq<Entry>)
    requires Selecting(es, plain, order, exclusive)
    ensures selected == Selected(es)
  {
    ExclusivesFacts(es);
    selected := plain;
    ghost var best := BestOf(es, order);
    for i := 0 to |order|
      invariant selected == plain + best[..i]
    {
      assert best[i] == exclusive[order[i]];
      selected := selected + [exclusive[order[i]]];
    }
    assert best[..|order|] == best;
  }

  datatype Shared = Shared(score: int, cap: int)

  /** What the loop over the selected entries keeps about cap groups. */
  ghost predicate Grouping(es: seq<Entry>, order: seq<string>, groups: map<string, Shared>) {
    && order == GroupKeys(es) && (forall key :: key in groups <==> key in order)
    && (forall key :: key !in groups ==> Sum(es, PartOf(key)) == 0)
    && forall key :: key in groups ==> groups[key] == Shared(Sum(es, PartOf(key)), GroupCap(es, key))
  }

  method AddToGroup(ghost es: seq<Entry>, entry: Entry, order: seq<string>, groups: map<string, Shared>)
    returns (order': seq<string>, groups': map<string, Shared>)
    requires Grouping(es, order, groups)
    ensures Grouping(es + [entry], order', groups')
  {
    order', groups' := order, groups;
    OneMore(es, entry);
    if entry.group.Some? {
      var g := entry.group.value;
      var prior := if g.key in groups then groups[g.key].score else 0;
      if g.key !in groups {
        order' := order + [g.key];
      }
      groups' := groups[g.key := Shared(prior + entry.score, g.cap)];
    }
  }

  method AddUp(es: seq<Entry>) returns (itemTotal: int)
    ensures itemTotal == Total(es)
  {
    itemTotal := 0;
    var order: seq<string>, groups: map<string, Shared> := [], map[];
    for i := 0 to |es|
      invariant itemTotal == Sum(es[..i], UngroupedPart())
      invariant Grouping(es[..i], order, groups)
    {
      assert es[..i + 1] == es[..i] + [es[i]] && es[..i + 1][..i] == es[..i];
      if es[i].group.None? {
        itemTotal := itemTotal + es[i].score;
      }
      order, groups := AddToGroup(es[..i], es[i], order, groups);
    }
    assert es[..|es|] == es;
    itemTotal := AddCappedGroups(es, itemTotal, order, groups);
  }

  method AddCappedGroups(ghost es: seq<Entry>, ungrouped: int, order: seq<string>, groups: map<string, Shared>)
    returns (itemTotal: int)
    requires Grouping(es, order, groups)
    ensures itemTotal == ungrouped + Sum(GroupKeys(es), Capped(es))
  {
    itemTotal := ungrouped;
    for i := 0 to |order|
      invariant itemTotal == ungrouped + Sum(order[..i], Capped(es))
    {
      assert order[..i + 1][..i] == order[..i];
      itemTotal := itemTotal + Min(groups[order[i]].score, groups[order[i]].cap);
    }
    assert order[..|order|] == order;
  }

  datatype BaseEntry = BaseEntry(penalty: bool, score: int)

  function BasePart(penalty: bool): BaseEntry -> int {
    (b: BaseEntry) => if b.penalty == penalty then b.score else 0
  }

  datatype Breakdown = Breakdown(itemTotal: int, baseTotal: int, penaltyTotal: int, beforeCap: int, total: int)

  function CategoryTotal(subs: seq<Submission>, category: string, base: seq<BaseEntry>, maxTotal: int): int {
    Min(ItemTotal(Entries(subs, category)) + Sum(base, BasePart(false)) + Sum(base, BasePart(true)), maxTotal)
  }

  method CategoryBreakdown(subs: seq<Submission>, category: string, base: seq<BaseEntry>, maxTotal: int)
    returns (b: Breakdown)
    ensures b.itemTotal == ItemTotal(Entries(subs, category))
    ensures b.baseTotal == Sum(base, BasePart(false)) && b.penaltyTotal == Sum(base, BasePart(true))
    ensures b.beforeCap == b.itemTotal + b.baseTotal + b.penaltyTotal
    ensures b.total == CategoryTotal(subs, category, base, maxTotal)
  {
    var selected := SelectEntries(subs, category);
    var itemTotal := AddUp(selected);
    var baseTotal, penaltyTotal := 0, 0;
    for i := 0 to |base|
      invariant baseTotal == Sum(base[..i], BasePart(false)) && penaltyTotal == Sum(base[..i], BasePart(true))
    {
      assert base[..i + 1][..i] == base[..i];
      if base[i].penalty {
        penaltyTotal := penaltyTotal + base[i].score;
      } else {
        baseTotal := baseTotal + base[i].score;
      }
    }
    assert base[..|base|] == base;
    var beforeCap := itemTotal + baseTotal + penaltyTotal;
    b := Breakdown(itemTotal, baseTotal, penaltyTotal, beforeCap, Min(beforeCap, maxTotal));
  }
}
