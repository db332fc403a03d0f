/** The category score as the server computes it (backend/internal/scheme/score.go):
    ties in an exclusive group go to the lower id, and maps are visited in any order.
    Where the order of submissions does not matter it agrees with the demo. */
module CategoryServer {
  import opened CategoryOrder
  import opened CategoryScore
  import opened CategoryScoreLaws
  import opened Options

  datatype ScoredItem = ScoredItem(
    id: int, score: int, itemCap: Option<int>, exclusive: string, groupKey: string, groupCap: int)

  /** An item after its own cap. */
  datatype Item = Item(id: int, entry: Entry)

  function ItemOf(s: ScoredItem): Item {
    Item(s.id, Entry(if s.itemCap.Some? then Min(s.score, s.itemCap.value) else s.score, s.exclusive,
                     if s.groupKey == "" then None else Some(CapGroup(s.groupKey, s.groupCap))))
  }

  function Items(scored: seq<ScoredItem>): (r: seq<Item>)
    ensures |r| == |scored|
  {
    seq(|scored|, (i: nat) requires i < |scored| => ItemOf(scored[i]))
  }

  function EntriesOf(items: seq<Item>): (r: seq<Entry>)
    ensures |r| == |items|
  {
    seq(|items|, (i: nat) requires i < |items| => items[i].entry)
  }

  predicate Beats(item: Item, prior: Item) {
    item.entry.score > prior.entry.score || (item.entry.score == prior.entry.score && item.id < prior.id)
  }

  function ServerBest(items: seq<Item>, x: string): Option<Item> {
    if items == [] then None
    else
      var prior, item := ServerBest(items[..|items| - 1], x), items[|items| - 1];
      if item.entry.exclusive == x && (prior.None? || Beats(item, prior.value)) then Some(item) else prior
  }

  lemma {:induction false} ServerBestFacts(items: seq<Item>, x: string)
    ensures ServerBest(items, x).Some? <==> exists i :: 0 <= i < |items| && items[i].entry.exclusive == x
    ensures ServerBest(items, x).Some? ==>
      var best := ServerBest(items, x).value;
      && best in items && best.entry.exclusive == x
      && forall i :: 0 <= i < |items| && items[i].entry.exclusive == x ==> items[i].entry.score <= best.entry.score
    decreases |items|
  {
    if items != [] {
      var init := items[..|items| - 1];
      ServerBestFacts(init, x);
      assert forall i :: 0 <= i < |init| ==> init[i] == items[i];
      assert items[|items| - 1] in items;
    }
  }

  function ServerBestOf(items: seq<Item>, order: seq<string>): (r: seq<Entry>)
    requires forall x :: x in order ==> ServerBest(items, x).Some?
    ensures |r| == |order|
  {
    seq(|order|, (i: nat) requires i < |order| => ServerBest(items, order[i]).value.entry)
  }

  /** The exclusive groups of the items, in some order. */
  ghost predicate VisitsGroups(items: seq<Item>, order: seq<string>) {
    && multiset(order) == multiset(Exclusives(EntriesOf(items)))
    && forall x :: x in order ==> x != "" && ServerBest(items, x).Some?
  }

  // -------------------------------------------------------------------- the loops

  /** What the selection loop keeps. */
  ghost predicate Choosing(items: seq<Item>, plain: seq<Entry>, chosen: map<string, Item>) {
    && plain == Plain(EntriesOf(items))
    && (forall x :: x in chosen <==> x != "" && ServerBest(items, x).Some?)
    && forall x :: x in chosen ==> ServerBest(items, x) == Some(chosen[x])
  }

  method Choose(scored: seq<ScoredItem>) returns (plain: seq<Entry>, chosen: map<string, Item>)
    ensures Choosing(Items(scored), plain, chosen)
  {
    plain, chosen := [], map[];
    for i := 0 to |scored|
      invariant Choosing(Items(scored[..i]), plain, chosen)
    {
      var item := ItemOf(scored[i]);
      plain, chosen := ChooseOne(Items(scored[..i]), item, plain, chosen);
      assert Items(scored[..i + 1]) == Items(scored[..i]) + [item];
    }
    assert scored[..|scored|] == scored;
  }

  method ChooseOne(ghost items: seq<Item>, item: Item, plain: seq<Entry>, chosen: map<string, Item>)
    returns (plain': seq<Entry>, chosen': map<string, Item>)
    requires Choosing(items, plain, chosen)
    ensures Choosing(items + [item], plain', chosen')
  {
    assert (items + [item])[..|items|] == items;
    assert EntriesOf(items + [item]) == EntriesOf(items) + [item.entry];
    OneMore(EntriesOf(items), item.entry);
    plain', chosen' := plain, chosen;
    var x := item.entry.exclusive;
    if x == "" {
      plain' := plain + [item.entry];
    } else if x !in chosen || Beats(item, chosen[x]) {
      chosen' := chosen[x := item];
    }
  }

  lemma {:induction false} GroupsVisited(items: seq<Item>, order: seq<string>)
    requires Distinct(order) && forall x :: x in order <==> x != "" && ServerBest(items, x).Some?
    ensures VisitsGroups(items, order)
  {
    var es := EntriesOf(items);
    ExclusivesFacts(es);
    forall x
      ensures x in order <==> x in Exclusives(es)
    {
      BestFacts(es, x);
      ServerBestFacts(items, x);
      assert forall i :: 0 <= i < |items| ==> items[i].entry == es[i];
    }
    SameKeys(order, Exclusives(es));
  }

  /** The chosen entries, in the order in which the map is visited. */
  method AppendChosen(ghost items: seq<Item>, plain: seq<Entry>, chosen: map<string, Item>)
    returns (selected: seq<Entry>, ghost order: seq<string>)
    requires Choosing(items, plain, chosen)
    ensures VisitsGroups(items, order) && selected == Plain(EntriesOf(items)) + ServerBestOf(items, order)
  {
    selected, order := plain, [];
    var left := chosen.Keys;
    while left != {}
      invariant left <= chosen.Keys && Distinct(order)
      invariant forall x :: x in order <==> x in chosen && x !in left
      invariant selected == plain + ServerBestOf(items, order)
      decreases |left|
    {
      var x := AnyOf(left);
      selected := selected + [chosen[x].entry];
      assert ServerBestOf(items, order + [x]) == ServerBestOf(items, order) + [chosen[x].entry];
      order := order + [x];
      left := left - {x};
    }
    GroupsVisited(items, order);
  }

  /** Groups are added up and the groups' totals visited in any order. */
  method AddUpGroups(es: seq<Entry>) returns (itemTotal: int)
    ensures itemTotal == Total(es)
  {
    itemTotal := 0;
    var totals: map<string, int>, caps: map<string, int> := map[], map[];
    for i := 0 to |es|
      invariant itemTotal == Sum(es[..i], UngroupedPart())
      invariant totals.Keys == caps.Keys && forall key :: key in totals <==> key in GroupKeys(es[..i])
      invariant forall key :: key !in totals ==> Sum(es[..i], PartOf(key)) == 0
      invariant forall key :: key in totals ==>
        totals[key] == Sum(es[..i], PartOf(key)) && caps[key] == GroupCap(es[..i], key)
    {
      assert es[..i + 1][..i] == es[..i];
      match es[i].group
      case None =>
        itemTotal := itemTotal + es[i].score;
      case Some(g) =>
        totals := totals[g.key := (if g.key in totals then totals[g.key] else 0) + es[i].score];
        caps := caps[g.key := g.cap];
    }
    assert es[..|es|] == es;
    itemTotal := AddCapped(es, itemTotal, totals, caps);
  }

  method AddCapped(ghost es: seq<Entry>, ungrouped: int, totals: map<string, int>, caps: map<string, int>)
    returns (itemTotal: int)
    requires totals.Keys == caps.Keys && forall key :: key in totals <==> key in GroupKeys(es)
    requires forall key :: key in totals ==> Min(totals[key], caps[key]) == Capped(es)(key)
    ensures itemTotal == ungrouped + Sum(GroupKeys(es), Capped(es))
  {
    itemTotal := ungrouped;
    var left := totals.Keys;
    ghost var visited: seq<string> := [];
    while left != {}
      invariant left <= totals.Keys && Distinct(visited)
      invariant forall key :: key in visited <==> key in totals && key !in left
      invariant itemTotal == ungrouped + Sum(visited, Capped(es))
      decreases |left|
    {
      var key := AnyOf(left);
      itemTotal := itemTotal + Min(totals[key], caps[key]);
      assert (visited + [key])[..|visited|] == visited;
      visited := visited + [key];
      left := left - {key};
    }
    GroupKeysFacts(es);
    SameKeys(visited, GroupKeys(es));
    SumPermutation(visited, GroupKeys(es), Capped(es));
  }

  /** The breakdown of one category. The exclusive groups are visited in the order
      that is returned beside it; where the order of submissions does not matter,
      none of this shows. */
  method ComputeCategoryScore(scored: seq<ScoredItem>, base: seq<BaseEntry>, maxTotal: int)
    returns (b: Breakdown, ghost order: seq<string>)
    ensures var items := Items(scored);
      VisitsGroups(items, order) && b.itemTotal == Total(Plain(EntriesOf(items)) + ServerBestOf(items, order))
    ensures var es := EntriesOf(Items(scored));
      TopsAgree(es) && ReadersAgree(Selected(es)) ==> b.itemTotal == ItemTotal(es)
    ensures b.baseTotal == Sum(base, BasePart(false)) && b.penaltyTotal == Sum(base, BasePart(true))
    ensures b.beforeCap == b.itemTotal + b.baseTotal + b.penaltyTotal && b.total == Min(b.beforeCap, maxTotal)
  {
    var plain, chosen := Choose(scored);
    var selected;
    selected, order := AppendChosen(Items(scored), plain, chosen);
    var itemTotal := AddUpGroups(selected);
    if TopsAgree(EntriesOf(Items(scored))) && ReadersAgree(Selected(EntriesOf(Items(scored)))) {
      ServerAgrees(Items(scored), order);
    }
    var baseTotal, penaltyTotal := AddUpBase(base);
    var beforeCap := itemTotal + baseTotal + penaltyTotal;
    b := Breakdown(itemTotal, baseTotal, penaltyTotal, beforeCap, Min(beforeCap, maxTotal));
  }

  method AddUpBase(base: seq<BaseEntry>) returns (baseTotal: int, penaltyTotal: int)
    ensures baseTotal == Sum(base, BasePart(false)) && penaltyTotal == Sum(base, BasePart(true))
  {
    baseTotal, penaltyTotal := 0, 0;
    for i := 0 to |base|
      invariant baseTotal == Sum(base[..i], BasePart(false)) && penaltyTotal == Sum(base[..i], BasePart(true))
    {
      assert base[..i + 1][..i] == base[..i];
      if base[i].penalty {
        penaltyTotal := penaltyTotal + base[i].score;
      } else {
        baseTotal := baseTotal + base[i].score;
      }
    }
    assert base[..|base|] == base;
  }

  // -------------------------------------------------------------------- agreement

  /** Ties aside, the server picks the entry the demo picks. */
  lemma {:induction false} ServerPicksSame(items: seq<Item>, x: string)
    requires x != "" && TopsAgree(EntriesOf(items))
    ensures ServerBest(items, x).Some? <==> Best(EntriesOf(items), x).Some?
    ensures ServerBest(items, x).Some? ==> Best(EntriesOf(items), x) == Some(ServerBest(items, x).value.entry)
  {
    var es := EntriesOf(items);
    BestFacts(es, x);
    ServerBestFacts(items, x);
    assert forall i :: 0 <= i < |items| ==> items[i].entry == es[i];
    if ServerBest(items, x).Some? {
      var best := ServerBest(items, x).value;
      var k :| 0 <= k < |items| && items[k] == best;
      assert es[k] == best.entry;
      BestIsTop(es, x);
      assert IsTop(es, best.entry);
    }
  }

  /** In whatever order the server visits the exclusive groups, it arrives at the
      total of the demo. */
  lemma ServerAgrees(items: seq<Item>, order: seq<string>)
    requires TopsAgree(EntriesOf(items)) && ReadersAgree(Selected(EntriesOf(items))) && VisitsGroups(items, order)
    ensures Total(Plain(EntriesOf(items)) + ServerBestOf(items, order)) == ItemTotal(EntriesOf(items))
  {
    var es := EntriesOf(items);
    ExclusivesFacts(es);
    SameMembers(order, Exclusives(es));
    forall i | 0 <= i < |order|
      ensures Best(es, order[i]) == Some(ServerBestOf(items, order)[i])
    {
      assert order[i] in order;
      ServerPicksSame(items, order[i]);
    }
    var chosen := ServerBestOf(items, order);
    assert chosen == BestOf(es, order);
    BestOfPermutation(es, order, Exclusives(es));
    SelectedIsPlainFirst(es);
    SameMembers(chosen, Bests(es));
    TotalOfSelection(Plain(es), Bests(es), Plain(es), chosen);
  }
}
