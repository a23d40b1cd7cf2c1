/** The sidebar's reorderable tabs: one flat saved order, shown group by group. */
module NavOrder {
  import opened Options
  import opened Sequences

  datatype NavItem = NavItem(id: string, group: string)

  const NAV_ITEMS: seq<NavItem> := [
    NavItem("dashboard", "overview"),
    NavItem("accounts", "money"),
    NavItem("ledger", "money"),
    NavItem("recurring", "money"),
    NavItem("budget", "planning"),
    NavItem("buckets", "planning"),
    NavItem("cashflow", "insights"),
    NavItem("investments", "insights"),
    NavItem("household", "insights"),
    NavItem("reports", "insights")
  ]

  const KNOWN: seq<string> := Ids(NAV_ITEMS)

  function Ids(items: seq<NavItem>): (ids: seq<string>)
    ensures |ids| == |items|
    ensures forall k :: 0 <= k < |items| ==> ids[k] == items[k].id
  {
    Mapped(items, (item: NavItem) => item.id)
  }

  /** `NAV_ITEMS.find((n) => n.id === id)?.group`. */
  function GroupIn(items: seq<NavItem>, id: string): Option<string> {
    if items == [] then None
    else if items[0].id == id then Some(items[0].group)
    else GroupIn(items[1..], id)
  }

  function GroupOf(id: string): Option<string> {
    GroupIn(NAV_ITEMS, id)
  }

  /** The tabs of `order` that stand in the same group as `id`. */
  function SameGroup(order: seq<string>, id: string): set<string> {
    set other | other in order && GroupOf(other) == GroupOf(id)
  }

  /** The order the sidebar starts from: what was stored, unknown ids dropped, missing tabs appended. */
  function LoadNavOrder(stored: Option<seq<string>>): seq<string> {
    match stored
    case None => KNOWN
    case Some(parsed) =>
      var filtered := Only(parsed, Elems(KNOWN));
      filtered + Only(KNOWN, Elems(KNOWN) - Elems(filtered))
  }

  function Dropped(order: seq<string>, drag: Option<string>, target: string): seq<string> {
    if drag.None? || drag.value == target then order else MoveBefore(order, drag.value, target)
  }

  function Moved(order: seq<string>, id: string, dir: int): seq<string>
    requires dir == 1 || dir == -1
  {
    SwapNeighbour(order, SameGroup(order, id), id, dir)
  }

  /** Every tab exactly once. */
  ghost predicate Complete(order: seq<string>) {
    NoDup(order) && Elems(order) == Elems(KNOWN)
  }

  class Sidebar {
    var navOrder: seq<string>
    var dragNavTab: Option<string>

    constructor (stored: Option<seq<string>>)
      ensures navOrder == LoadNavOrder(stored) && dragNavTab == None
    {
      navOrder, dragNavTab := LoadNavOrder(stored), None;
    }

    method HandleNavDrop(target: string)
      modifies this
      ensures navOrder == Dropped(old(navOrder), old(dragNavTab), target)
      ensures dragNavTab == None
    {
      if dragNavTab.None? || dragNavTab.value == target {
        dragNavTab := None;
        return;
      }
      var next := Only(navOrder, Elems(navOrder) - {dragNavTab.value});
      next := Splice(next, IndexOf(next, target), dragNavTab.value);
      navOrder := next;
      dragNavTab := None;
    }

    /** Only tabs that are on the sidebar can be moved. */
    method MoveNavItem(id: string, dir: int)
      requires (dir == 1 || dir == -1) && id in navOrder
      modifies this`navOrder
      ensures navOrder == Moved(old(navOrder), id, dir)
    {
      hide Only, IndexOf, GroupOf;
      var sameGroupIds := Only(navOrder, SameGroup(navOrder, id));
      OnlyElems(navOrder, SameGroup(navOrder, id));
      var at := IndexOf(sameGroupIds, id) + dir;
      if at < 0 || at >= |sameGroupIds| {
        return;
      }
      var next := navOrder;
      var swapWith := sameGroupIds[at];
      assert swapWith in sameGroupIds;
      var i, j := IndexOf(next, id), IndexOf(next, swapWith);
      var moving := next[i];
      next := next[i := next[j]];
      next := next[j := moving];
      navOrder := next;
    }
  }

  lemma KnownNoDup()
    ensures NoDup(KNOWN)
  {
    assert KNOWN == ["dashboard", "accounts", "ledger", "recurring", "budget", "buckets", "cashflow", "investments",
               "household", "reports"];
    forall i, j | 0 <= i < j < |KNOWN| ensures KNOWN[i] != KNOWN[j] {
    }
  }

  /** The loaded order is complete exactly when the stored one repeats no known tab: a repeated id is
      not dropped on loading. */
  lemma LoadedIsComplete(parsed: seq<string>)
    ensures Complete(LoadNavOrder(Some(parsed))) <==> NoDup(Only(parsed, Elems(KNOWN)))
    ensures Complete(LoadNavOrder(None))
    ensures Elems(LoadNavOrder(Some(parsed))) == Elems(KNOWN)
  {
    hide Only, Ids;
    KnownNoDup();
    var filtered := Only(parsed, Elems(KNOWN));
    var rest := Only(KNOWN, Elems(KNOWN) - Elems(filtered));
    OnlyElems(parsed, Elems(KNOWN));
    OnlyElems(KNOWN, Elems(KNOWN) - Elems(filtered));
    OnlyNoDup(KNOWN, Elems(KNOWN) - Elems(filtered));
    var loaded := filtered + rest;
    assert Elems(loaded) == Elems(filtered) + Elems(rest);
    if NoDup(filtered) {
      NoDupConcat(filtered, rest);
    }
    if NoDup(loaded) {
      assert filtered == loaded[..|filtered|];
    }
  }

  /** One action on the sidebar: a drop of `drag` on `target`, or a keyboard move. */
  datatype Action = Drop(drag: string, target: string) | Key(id: string, dir: int)

  ghost predicate Possible(a: Action) {
    match a
    case Drop(drag, target) => drag in KNOWN && target in KNOWN
    case Key(id, dir) => id in KNOWN && (dir == 1 || dir == -1)
  }

  ghost function After(order: seq<string>, a: Action): seq<string>
    requires Possible(a)
  {
    match a
    case Drop(drag, target) => Dropped(order, Some(drag), target)
    case Key(id, dir) => Moved(order, id, dir)
  }

  ghost predicate AllPossible(run: seq<Action>) {
    forall k :: 0 <= k < |run| ==> Possible(run[k])
  }

  ghost function Run(order: seq<string>, run: seq<Action>): seq<string>
    requires AllPossible(run)
    decreases |run|
  {
    if run == [] then order else Run(After(order, run[0]), run[1..])
  }

  lemma ActionKeepsTabs(order: seq<string>, a: Action)
    requires Elems(order) == Elems(KNOWN) && Possible(a)
    ensures Elems(After(order, a)) == Elems(KNOWN)
    ensures NoDup(order) ==> NoDup(After(order, a))
  {
    hide MoveBefore, SwapNeighbour, Ids, NoDup;
    match a
    case Drop(drag, target) => MoveBeforeElems(order, drag, target);
    case Key(id, dir) => SwapNeighbourElems(order, SameGroup(order, id), id, dir);
  }

  lemma {:induction false} GroupInFinds(items: seq<NavItem>, id: string)
    ensures GroupIn(items, id).Some? <==> id in Ids(items)
  {
    if items == [] {
    } else {
      GroupInFinds(items[1..], id);
      assert Ids(items) == [items[0].id] + Ids(items[1..]);
    }
  }

  /** Along every run of drops and keyboard moves the order holds every tab, repeated or not, and nothing
      else, so looking an id of the order up among the tabs always succeeds; and it holds each tab exactly
      once when it did at first. */
  lemma {:induction false} RunKeepsComplete(order: seq<string>, run: seq<Action>)
    requires Elems(order) == Elems(KNOWN) && AllPossible(run)
    ensures Elems(Run(order, run)) == Elems(KNOWN)
    ensures forall id :: id in Run(order, run) ==> GroupOf(id).Some?
    ensures Complete(order) ==> Complete(Run(order, run))
    decreases |run|
  {
    hide After, NoDup;
    if run != [] {
      ActionKeepsTabs(order, run[0]);
      RunKeepsComplete(After(order, run[0]), run[1..]);
    } else {
      forall id | id in order ensures GroupOf(id).Some? {
        assert id in Elems(KNOWN);
        GroupInFinds(NAV_ITEMS, id);
      }
    }
  }

  /** From whatever was stored, so along every run every lookup succeeds. */
  lemma EveryLookupSucceeds(stored: Option<seq<string>>, run: seq<Action>)
    requires AllPossible(run)
    ensures forall id :: id in Run(LoadNavOrder(stored), run) ==> GroupOf(id).Some?
    ensures Elems(Run(LoadNavOrder(stored), run)) == Elems(KNOWN)
  {
    hide Run, GroupOf, LoadNavOrder;
    if stored.Some? {
      LoadedIsComplete(stored.value);
    } else {
      LoadedIsComplete([]);
    }
    RunKeepsComplete(LoadNavOrder(stored), run);
  }

  function Tabs(order: seq<string>, group: string): set<string> {
    set id | id in order && GroupOf(id) == Some(group)
  }

  /** The tabs of one group, as its section lists them. */
  function Shown(order: seq<string>, group: string): seq<string> {
    Only(order, Tabs(order, group))
  }

  lemma SameTabs(a: seq<string>, b: seq<string>, group: string)
    requires Elems(a) == Elems(b)
    ensures Tabs(a, group) == Tabs(b, group)
  {
    hide GroupOf;
    assert forall x :: x in a <==> x in Elems(b);
  }

  /** A keyboard move swaps the tab with its neighbour in its own group. */
  lemma MoveInGroup(order: seq<string>, id: string, dir: int, group: string)
    requires Complete(order) && id in order && (dir == 1 || dir == -1) && GroupOf(id) == Some(group)
    ensures var shown := Shown(order, group); var k := IndexOf(shown, id);
            k >= 0 && Shown(Moved(order, id, dir), group) == if 0 <= k + dir < |shown| then SwapAt(shown, k, k + dir)
              else shown
  {
    hide Only, SwapNeighbour, NoDup, GroupOf, IndexOf;
    var part := Tabs(order, group);
    assert part == SameGroup(order, id);
    SwapNeighbourElems(order, part, id, dir);
    SameTabs(order, Moved(order, id, dir), group);
    OnlyElems(order, part);
    if HasNeighbour(Only(order, part), id, dir) {
      SwapNeighbourInside(order, part, id, dir);
    }
  }

  /** ... and changes no other group. */
  lemma MoveOutsideGroup(order: seq<string>, id: string, dir: int, other: string)
    requires Complete(order) && id in order && (dir == 1 || dir == -1) && GroupOf(id) != Some(other)
    ensures Shown(Moved(order, id, dir), other) == Shown(order, other)
  {
    hide Only, SwapNeighbour, NoDup, GroupOf, IndexOf;
    var part := SameGroup(order, id);
    SwapNeighbourElems(order, part, id, dir);
    SameTabs(order, Moved(order, id, dir), other);
    OnlyElems(order, part);
    var shown := Only(order, part);
    assert HasNeighbour(shown, id, dir) ==> shown[IndexOf(shown, id) + dir] in shown;
    SwapNeighbourOutside(order, part, id, dir, Tabs(order, other));
  }

  /** A drop inside a group lands just above the target there; a drop anywhere leaves every group the
      dragged tab is not in as it was. */
  lemma DropInGroup(order: seq<string>, drag: string, target: string, group: string)
    requires Complete(order) && drag in order && target in order && drag != target
    ensures var next := Dropped(order, Some(drag), target);
            if GroupOf(drag) != Some(group) then Shown(next, group) == Shown(order, group)
            else GroupOf(target) == Some(group) ==> Shown(next, group) == MoveBefore(Shown(order, group), drag, target)
  {
    hide Only, MoveBefore, NoDup, GroupOf, IndexOf;
    MoveBeforeElems(order, drag, target);
    assert Elems(Dropped(order, Some(drag), target)) == Elems(order);
    SameTabs(order, Dropped(order, Some(drag), target), group);
    if GroupOf(drag) != Some(group) {
      MoveBeforeOutside(order, drag, target, Tabs(order, group));
    } else if GroupOf(target) == Some(group) {
      MoveBeforeInside(order, drag, target, Tabs(order, group));
    }
  }

  /** A tab may be dropped on any tab, also one of another group. In its own group it then stands after
      exactly those of its companions that stood above the target in the flat order. */
  lemma DropOnAnyTab(order: seq<string>, drag: string, target: string, group: string)
    requires Complete(order) && drag in order && target in order && drag != target && GroupOf(drag) == Some(group)
    ensures var shown, next := Shown(order, group), Dropped(order, Some(drag), target);
            var others := Only(shown, Elems(shown) - {drag});
            var above := |Only(order[..IndexOf(order, target)], Tabs(order, group) - {drag})|;
            above <= |others| && Shown(next, group) == others[..above] + [drag] + others[above..]
  {
    hide Only, MoveBefore, NoDup, GroupOf, IndexOf;
    var part, shown := Tabs(order, group), Shown(order, group);
    MoveBeforeElems(order, drag, target);
    assert Elems(Dropped(order, Some(drag), target)) == Elems(order);
    SameTabs(order, Dropped(order, Some(drag), target), group);
    MoveBeforeAnywhere(order, drag, target, part);
    OnlyElems(order, part);
    OnlyOnly(order, part, Elems(shown) - {drag});
    OnlyCongruent(order, part * (Elems(shown) - {drag}), part - {drag});
  }

  // ---- Sections, loading and drops, in terms of the tabs ----

  lemma {:induction false} GroupInExactly(items: seq<NavItem>, id: string, group: string)
    requires NoDup(Ids(items))
    ensures GroupIn(items, id) == Some(group) <==> NavItem(id, group) in items
  {
    if items == [] {
    } else {
      var ids := Ids(items);
      assert Ids(items[1..]) == ids[1..];
      GroupInExactly(items[1..], id, group);
      assert items == [items[0]] + items[1..];
      if NavItem(id, group) in items[1..] {
        var k :| 0 <= k < |items[1..]| && items[1..][k] == NavItem(id, group);
        assert ids[0] != ids[k + 1];
      }
    }
  }

  /** A section of the sidebar lists exactly the tabs of its own group. */
  lemma SectionsHoldTheirTabs(order: seq<string>, id: string, group: string)
    requires Elems(order) == Elems(KNOWN)
    ensures id in Shown(order, group) <==> NavItem(id, group) in NAV_ITEMS
  {
    KnownNoDup();
    GroupInExactly(NAV_ITEMS, id, group);
    GroupInFinds(NAV_ITEMS, id);
    OnlyElems(order, Tabs(order, group));
    assert id in order <==> id in Elems(KNOWN);
    hide NAV_ITEMS, KNOWN, Only;
  }

  /** A complete order that was saved is loaded back as it was. */
  lemma LoadAfterSave(order: seq<string>)
    requires Complete(order)
    ensures LoadNavOrder(Some(order)) == order
  {
    hide KNOWN, Only;
    OnlyAll(order, Elems(KNOWN));
    OnlyNone(KNOWN, Elems(KNOWN) - Elems(order));
  }

  /** Loading keeps the stored tabs in front in their order, and puts the tabs that were not stored behind
      them in the order of the program. */
  lemma LoadedOrderExactly(parsed: seq<string>)
    ensures var loaded, kept := LoadNavOrder(Some(parsed)), Only(parsed, Elems(KNOWN));
            && kept <= loaded
            && (forall i :: |kept| <= i < |loaded| ==> loaded[i] !in parsed)
            && (forall i, j :: |kept| <= i < j < |loaded| ==> IndexOf(KNOWN, loaded[i]) < IndexOf(KNOWN, loaded[j]))
  {
    hide KNOWN, Only, IndexOf, NoDup;
    KnownNoDup();
    var kept := Only(parsed, Elems(KNOWN));
    var keep := Elems(KNOWN) - Elems(kept);
    OnlyElems(parsed, Elems(KNOWN));
    OnlyElems(KNOWN, keep);
    forall i | 0 <= i < |Only(KNOWN, keep)|
      ensures Only(KNOWN, keep)[i] !in parsed
    {
      assert Only(KNOWN, keep)[i] in Only(KNOWN, keep);
    }
    OnlyKeepsOrder(KNOWN, keep);
  }

  /** A drop on the dragged tab itself, or of nothing, changes nothing; any other puts the tab just before
      its target and keeps the order of all the others. */
  lemma DropLands(order: seq<string>, drag: Option<string>, target: string)
    requires target in order
    ensures var next := Dropped(order, drag, target);
            if drag.None? || drag.value == target then next == order
            else
              && IndexOf(next, drag.value) >= 0 && IndexOf(next, drag.value) + 1 == IndexOf(next, target)
              && Only(next, Elems(order) - {drag.value}) == Only(order, Elems(order) - {drag.value})
  {
    hide Only, IndexOf, MoveBefore;
    if drag.Some? && drag.value != target {
      MoveBeforeLands(order, drag.value, target);
      MoveBeforeOutside(order, drag.value, target, Elems(order) - {drag.value});
    }
  }

  lemma MiddleOnly(a: seq<string>, b: seq<string>, c: seq<string>, keep: set<string>)
    requires Elems(b) <= keep && Elems(a) * keep == {} && Elems(c) * keep == {}
    ensures Only(a + (b + c), keep) == b
  {
    OnlyConcat(a, b + c, keep);
    OnlyConcat(b, c, keep);
    OnlyNone(a, keep);
    OnlyNone(c, keep);
    OnlyAll(b, keep);
  }

  lemma DefaultSection(a: seq<string>, b: seq<string>, c: seq<string>, group: string)
    requires KNOWN == a + (b + c)
    requires forall id :: id in b ==> NavItem(id, group) in NAV_ITEMS
    requires forall id :: id in a || id in c ==> NavItem(id, group) !in NAV_ITEMS
    ensures Shown(LoadNavOrder(None), group) == b
  {
    hide Only, KNOWN, NAV_ITEMS, GroupOf;
    forall id
      ensures id in Tabs(KNOWN, group) <==> id in KNOWN && NavItem(id, group) in NAV_ITEMS
    {
      ItemsNoDup();
      GroupInExactly(NAV_ITEMS, id, group);
      GroupOfIs(id);
    }
    assert forall id :: id in b ==> id in a + (b + c);
    MiddleOnly(a, b, c, Tabs(KNOWN, group));
  }

  lemma GroupOfIs(id: string)
    ensures GroupOf(id) == GroupIn(NAV_ITEMS, id)
  {
  }

  lemma ItemsNoDup()
    ensures NoDup(Ids(NAV_ITEMS))
  {
    KnownNoDup();
  }

  lemma GroupsDiffer()
    ensures "overview" != "money" && "overview" != "planning" && "overview" != "insights"
    ensures "money" != "planning" && "money" != "insights" && "planning" != "insights"
  {
    assert "overview"[0] != "money"[0] && "overview"[0] != "planning"[0] && "overview"[0] != "insights"[0];
    assert "money"[0] != "planning"[0] && "money"[0] != "insights"[0] && "planning"[0] != "insights"[0];
  }

  const OVERVIEW: seq<string> := ["dashboard"]
  const MONEY: seq<string> := ["accounts", "ledger", "recurring"]
  const PLANNING: seq<string> := ["budget", "buckets"]
  const INSIGHTS: seq<string> := ["cashflow", "investments", "household", "reports"]

  lemma ItemsByGroup(id: string)
    ensures NavItem(id, "overview") in NAV_ITEMS <==> id in OVERVIEW
    ensures NavItem(id, "money") in NAV_ITEMS <==> id in MONEY
    ensures NavItem(id, "planning") in NAV_ITEMS <==> id in PLANNING
    ensures NavItem(id, "insights") in NAV_ITEMS <==> id in INSIGHTS
  {
    GroupsDiffer();
    assert NAV_ITEMS[0].group == "overview";
    assert NAV_ITEMS[1].group == NAV_ITEMS[2].group == NAV_ITEMS[3].group == "money";
    assert NAV_ITEMS[4].group == NAV_ITEMS[5].group == "planning";
    assert NAV_ITEMS[6].group == NAV_ITEMS[7].group == NAV_ITEMS[8].group == NAV_ITEMS[9].group == "insights";
    hide *;
  }

  lemma SectionsInOrder()
    ensures KNOWN == [] + (OVERVIEW + (MONEY + PLANNING + INSIGHTS)) == OVERVIEW + (MONEY + (PLANNING + INSIGHTS))
    ensures KNOWN == (OVERVIEW + MONEY) + (PLANNING + INSIGHTS) == (OVERVIEW + MONEY + PLANNING) + (INSIGHTS + [])
    ensures Elems(OVERVIEW) !! Elems(MONEY) && Elems(OVERVIEW) !! Elems(PLANNING) && Elems(OVERVIEW) !! Elems(INSIGHTS)
    ensures Elems(MONEY) !! Elems(PLANNING) && Elems(MONEY) !! Elems(INSIGHTS) && Elems(PLANNING) !! Elems(INSIGHTS)
  {
    KnownNoDup();
    assert KNOWN == OVERVIEW + (MONEY + (PLANNING + INSIGHTS));
    assert KNOWN == (OVERVIEW + MONEY + PLANNING) + (INSIGHTS + []);
    hide *;
    NoDupParts(OVERVIEW, MONEY + (PLANNING + INSIGHTS));
    NoDupParts(MONEY, PLANNING + INSIGHTS);
    NoDupParts(PLANNING, INSIGHTS);
    ElemsConcat(MONEY, PLANNING + INSIGHTS);
    ElemsConcat(PLANNING, INSIGHTS);
    assert [] + (OVERVIEW + (MONEY + PLANNING + INSIGHTS)) == OVERVIEW + (MONEY + (PLANNING + INSIGHTS));
    assert (OVERVIEW + MONEY) + (PLANNING + INSIGHTS) == OVERVIEW + (MONEY + (PLANNING + INSIGHTS));
  }

  /** The sections of a sidebar that was never reordered. */
  lemma DefaultSections()
    ensures Shown(LoadNavOrder(None), "overview") == OVERVIEW && Shown(LoadNavOrder(None), "money") == MONEY
    ensures Shown(LoadNavOrder(None), "planning") == PLANNING && Shown(LoadNavOrder(None), "insights") == INSIGHTS
  {
    SectionsInOrder();
    hide *;
    forall id: string
      ensures NavItem(id, "overview") in NAV_ITEMS <==> id in OVERVIEW
      ensures NavItem(id, "money") in NAV_ITEMS <==> id in MONEY
      ensures NavItem(id, "planning") in NAV_ITEMS <==> id in PLANNING
      ensures NavItem(id, "insights") in NAV_ITEMS <==> id in INSIGHTS
    {
      ItemsByGroup(id);
    }
    DefaultSection([], OVERVIEW, MONEY + PLANNING + INSIGHTS, "overview");
    DefaultSection(OVERVIEW, MONEY, PLANNING + INSIGHTS, "money");
    DefaultSection(OVERVIEW + MONEY, PLANNING, INSIGHTS, "planning");
    DefaultSection(OVERVIEW + MONEY + PLANNING, INSIGHTS, [], "insights");
  }
}
