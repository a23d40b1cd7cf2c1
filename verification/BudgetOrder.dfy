/** Reordering the budget's categories: one stored flat order covers every category ever positioned,
    each month shows the part of it that month has lines for, one group at a time. */
module BudgetOrder {
  import opened Options
  import opened Sequences
  import opened Sorting
  import opened CustomOrder

  /** One line of a month's budget. */
  datatype Line = Line(category: string, group: string)

  function Categories(lines: seq<Line>): (cs: seq<string>)
    ensures |cs| == |lines|
    ensures forall k :: 0 <= k < |lines| ==> cs[k] == lines[k].category
  {
    Mapped(lines, (line: Line) => line.category)
  }

  /** The backend gives at most one line per category and month. */
  ghost predicate Distinct(lines: seq<Line>) {
    NoDup(Categories(lines))
  }

  /** `lineByCategory.get(category)?.budget_group`; a Map keeps the last line of a category. */
  function GroupOf(lines: seq<Line>, category: string): (g: Option<string>)
    ensures g.Some? <==> category in Categories(lines)
  {
    if lines == [] then None
    else
      var n := |lines| - 1;
      assert Categories(lines) == Categories(lines[..n]) + [lines[n].category];
      if lines[n].category == category then Some(lines[n].group) else GroupOf(lines[..n], category)
  }

  /** The categories whose line this month is in `group`. */
  function InGroup(lines: seq<Line>, group: string): (cs: set<string>)
    ensures cs <= Elems(Categories(lines))
  {
    set c | c in Categories(lines) && GroupOf(lines, c) == Some(group)
  }

  function OrderedCategories(lines: seq<Line>, order: seq<string>): seq<string> {
    SortByCustomOrder(Categories(lines), order)
  }

  /** What one group's section shows, top to bottom. */
  function Displayed(lines: seq<Line>, order: seq<string>, group: string): seq<string> {
    Only(OrderedCategories(lines, order), InGroup(lines, group))
  }

  /** `Array.from(new Set(items))`: first occurrences, in order. */
  function KeepFirst(items: seq<string>): (k: seq<string>)
    ensures forall c :: c in k <==> c in items
    ensures NoDup(k)
  {
    if items == [] then []
    else
      var n := |items| - 1;
      var k := KeepFirst(items[..n]);
      assert items == items[..n] + [items[n]];
      if items[n] in k then k else k + [items[n]]
  }

  /** Every known category, in its effective order: what a reorder edits and saves. */
  function Effective(lines: seq<Line>, order: seq<string>): seq<string> {
    SortByCustomOrder(KeepFirst(order + Categories(lines)), order)
  }

  /** The stored order after a drag of `category` onto `target`. */
  function Reordered(lines: seq<Line>, order: seq<string>, category: string, target: string): seq<string> {
    if category == target then order else MoveBefore(Effective(lines, order), category, target)
  }

  /** The section `category` is shown in; empty when it has no line this month. */
  function Section(lines: seq<Line>, order: seq<string>, category: string): seq<string> {
    match GroupOf(lines, category)
    case None => []
    case Some(group) => Displayed(lines, order, group)
  }

  /** The stored order after Move up (-1) or Move down (+1). */
  function Moved(lines: seq<Line>, order: seq<string>, category: string, dir: int): seq<string>
    requires dir == 1 || dir == -1
  {
    var shown := Section(lines, order, category);
    if !HasNeighbour(shown, category, dir) then order
    else
      var next := Effective(lines, order);
      var neighbour := shown[IndexOf(shown, category) + dir];
      SectionIsKnown(lines, order, category, category);
      SectionIsKnown(lines, order, category, neighbour);
      SwapAt(next, IndexOf(next, category), IndexOf(next, neighbour))
  }

  /** n presses of the same button. */
  function MovedTimes(lines: seq<Line>, order: seq<string>, category: string, dir: int, n: nat): seq<string>
    requires dir == 1 || dir == -1
  {
    if n == 0 then order else Moved(lines, MovedTimes(lines, order, category, dir, n - 1), category, dir)
  }

  // ---- The effective order ----

  lemma SortElems(cats: seq<string>, order: seq<string>)
    ensures forall c :: c in SortByCustomOrder(cats, order) <==> c in cats
    ensures Elems(SortByCustomOrder(cats, order)) == Elems(cats)
  {
    SortIsPermutation(cats, order);
    var r := SortByCustomOrder(cats, order);
    assert forall c :: c in r <==> c in multiset(r);
    assert forall c :: c in cats <==> c in multiset(cats);
  }

  /** A section only lists categories the reorder knows, so both swap positions are always found. */
  lemma SectionIsKnown(lines: seq<Line>, order: seq<string>, category: string, c: string)
    requires c in Section(lines, order, category)
    ensures c in Effective(lines, order)
  {
    hide SortByCustomOrder;
    SortElems(KeepFirst(order + Categories(lines)), order);
    SortElems(Categories(lines), order);
    OnlyElems(OrderedCategories(lines, order), InGroup(lines, GroupOf(lines, category).value));
  }

  lemma {:induction false} KeepFirstLoose(order: seq<string>, cats: seq<string>)
    requires NoDup(cats)
    ensures Only(KeepFirst(order + cats), Elems(cats) - Elems(order)) == Only(cats, Elems(cats) - Elems(order))
  {
    hide Only;
    if cats == [] {
      OnlyNone(KeepFirst(order + cats), {});
      OnlyNone(cats, {});
      assert Elems(cats) - Elems(order) == {};
    } else {
      var n := |cats| - 1;
      var before, last := cats[..n], cats[n];
      KeepFirstLoose(order, before);
      assert cats == before + [last] && last !in before;
      assert (order + cats)[..|order| + n] == order + before;
      KeepFirstLooseStep(order, before, last, KeepFirst(order + before));
    }
  }

  lemma KeepFirstLooseStep(order: seq<string>, before: seq<string>, last: string, known: seq<string>)
    requires last !in before && (forall c :: c in known <==> c in order || c in before)
    requires Only(known, Elems(before) - Elems(order)) == Only(before, Elems(before) - Elems(order))
    ensures var loose := Elems(before + [last]) - Elems(order);
            Only(if last in known then known else known + [last], loose) == Only(before + [last], loose)
  {
    hide Only;
    var loose, loose' := Elems(before + [last]) - Elems(order), Elems(before) - Elems(order);
    OnlyCongruent(before, loose, loose');
    OnlyConcat(before, [last], loose);
    OnlyOne(last, loose);
    OnlyConcat(known, [last], loose);
    if last in order {
      assert loose == loose';
    } else {
      OnlyCongruent(known, loose, loose');
    }
  }

  /** The effective order: the saved positions, then this month's unpositioned categories. */
  lemma EffectiveForm(lines: seq<Line>, order: seq<string>)
    requires Distinct(lines)
    ensures var cats := Categories(lines);
            Effective(lines, order) == KeepLast(order) + Only(cats, Elems(cats) - Elems(order))
    ensures NoDup(Effective(lines, order))
    ensures Elems(Effective(lines, order)) == Elems(order) + Elems(Categories(lines))
  {
    hide SortByCustomOrder, KeepLast, Only;
    var cats := Categories(lines);
    var known := KeepFirst(order + cats);
    assert Elems(known) == Elems(order) + Elems(cats);
    SortOfDistinct(known, order);
    OnlyAll(KeepLast(order), Elems(known));
    OnlyCongruent(known, Elems(known) - Elems(order), Elems(cats) - Elems(order));
    KeepFirstLoose(order, cats);
    KeepLastNoDup(order);
    OnlyNoDup(cats, Elems(cats) - Elems(order));
    OnlyElems(cats, Elems(cats) - Elems(order));
    NoDupConcat(KeepLast(order), Only(cats, Elems(cats) - Elems(order)));
    SortElems(known, order);
  }

  /** Any part of this month's display is the effective order restricted to it. */
  lemma DisplayIsEffective(lines: seq<Line>, order: seq<string>, part: set<string>)
    requires Distinct(lines) && part <= Elems(Categories(lines))
    ensures Only(OrderedCategories(lines, order), part) == Only(Effective(lines, order), part)
  {
    hide SortByCustomOrder, KeepLast, Only;
    var cats := Categories(lines);
    var loose := Only(cats, Elems(cats) - Elems(order));
    EffectiveForm(lines, order);
    SortOfDistinct(cats, order);
    OnlyConcat(KeepLast(order), loose, part);
    OnlyConcat(Only(KeepLast(order), Elems(cats)), loose, part);
    OnlyOnly(KeepLast(order), Elems(cats), part);
    assert Elems(cats) * part == part;
  }

  /** A stored order without repeats that positions the whole month is its own effective order. */
  lemma EffectiveOfFull(lines: seq<Line>, order: seq<string>)
    requires Distinct(lines) && NoDup(order) && Elems(Categories(lines)) <= Elems(order)
    ensures Effective(lines, order) == order
  {
    hide SortByCustomOrder, KeepLast, Only;
    var cats := Categories(lines);
    EffectiveForm(lines, order);
    KeepLastOfNoDup(order);
    OnlyNone(cats, Elems(cats) - Elems(order));
  }

  // ---- Which section shows a category ----

  /** The last line of a category decides its group. */
  ghost predicate LastLineIs(lines: seq<Line>, category: string, group: string) {
    exists k :: 0 <= k < |lines| && lines[k] == Line(category, group)
                && forall j :: k < j < |lines| ==> lines[j].category != category
  }

  lemma {:induction false} GroupOfLast(lines: seq<Line>, category: string, group: string)
    ensures GroupOf(lines, category) == Some(group) <==> LastLineIs(lines, category, group)
  {
    hide LastLineIs;
    if lines == [] {
      NoLine(category, group);
    } else {
      OneMoreLine(lines, category, group);
      GroupOfLast(lines[..|lines| - 1], category, group);
    }
  }

  lemma NoLine(category: string, group: string)
    ensures !LastLineIs([], category, group)
  {
  }

  lemma OneMoreLine(lines: seq<Line>, category: string, group: string)
    requires lines != []
    ensures var n := |lines| - 1;
            LastLineIs(lines, category, group) <==>
            if lines[n].category == category then lines[n].group == group else LastLineIs(lines[..n], category, group)
  {
    var n := |lines| - 1;
    var front := lines[..n];
    assert lines == front + [lines[n]];
    if lines[n].category == category {
      assert lines[n].group == group ==> lines[n] == Line(category, group);
    } else if LastLineIs(front, category, group) {
      var k :| 0 <= k < n && front[k] == Line(category, group)
               && forall j :: k < j < n ==> front[j].category != category;
      assert lines[k] == front[k];
    }
  }

  lemma OneGroupEach(lines: seq<Line>, category: string, group: string, other: string)
    requires Distinct(lines) && Line(category, group) in lines && other != group
    ensures Line(category, other) !in lines
  {
    hide Distinct;
    OwnGroup(lines, category, group);
    OwnGroup(lines, category, other);
  }

  lemma OwnGroup(lines: seq<Line>, category: string, group: string)
    requires Distinct(lines)
    ensures GroupOf(lines, category) == Some(group) <==> Line(category, group) in lines
  {
    GroupOfLast(lines, category, group);
    if Line(category, group) in lines {
      var k :| 0 <= k < |lines| && lines[k] == Line(category, group);
      forall j | k < j < |lines|
        ensures lines[j].category != category
      {
        assert Categories(lines)[k] != Categories(lines)[j];
      }
    }
  }

  /** A section shows exactly the categories whose line this month is in its group; should a category have
      several lines, the last decides. */
  lemma SectionsHoldTheLines(lines: seq<Line>, order: seq<string>, category: string, group: string)
    ensures category in Displayed(lines, order, group) <==> LastLineIs(lines, category, group)
    ensures Distinct(lines) ==>
              (category in Displayed(lines, order, group) <==> Line(category, group) in lines)
  {
    hide SortByCustomOrder, Only, GroupOf, LastLineIs, Distinct;
    SortElems(Categories(lines), order);
    OnlyElems(OrderedCategories(lines, order), InGroup(lines, group));
    GroupOfLast(lines, category, group);
    if Distinct(lines) {
      OwnGroup(lines, category, group);
    }
  }

  // ---- Move up and Move down ----

  /** A move is a swap of neighbours in the effective order. */
  lemma MovedForm(lines: seq<Line>, order: seq<string>, category: string, dir: int, group: string)
    requires Distinct(lines) && (dir == 1 || dir == -1) && GroupOf(lines, category) == Some(group)
    ensures HasNeighbour(Displayed(lines, order, group), category, dir) ==>
      Moved(lines, order, category, dir) == SwapNeighbour(Effective(lines, order), InGroup(lines, group), category, dir)
  {
    hide SortByCustomOrder, Only, NoDup;
    DisplayIsEffective(lines, order, InGroup(lines, group));
  }

  lemma MovedElems(lines: seq<Line>, order: seq<string>, category: string, dir: int)
    requires Distinct(lines) && (dir == 1 || dir == -1)
    ensures var shown := Section(lines, order, category); var next := Moved(lines, order, category, dir);
            if HasNeighbour(shown, category, dir)
            then NoDup(next) && Elems(next) == Elems(order) + Elems(Categories(lines))
            else next == order
  {
    hide SortByCustomOrder, Only, NoDup;
    if HasNeighbour(Section(lines, order, category), category, dir) {
      var group := GroupOf(lines, category).value;
      MovedForm(lines, order, category, dir, group);
      EffectiveForm(lines, order);
      SwapNeighbourElems(Effective(lines, order), InGroup(lines, group), category, dir);
    }
  }

  lemma DisplayedOfMoved(lines: seq<Line>, order: seq<string>, category: string, dir: int, part: set<string>)
    requires Distinct(lines) && (dir == 1 || dir == -1) && part <= Elems(Categories(lines))
    requires HasNeighbour(Section(lines, order, category), category, dir)
    ensures Only(OrderedCategories(lines, Moved(lines, order, category, dir)), part)
         == Only(Moved(lines, order, category, dir), part)
  {
    hide SortByCustomOrder, Only, NoDup;
    var next := Moved(lines, order, category, dir);
    MovedElems(lines, order, category, dir);
    DisplayIsEffective(lines, next, part);
    EffectiveOfFull(lines, next);
  }

  /** Move up / Move down swaps exactly the category and its neighbour in its own section. */
  lemma MoveSwapsNeighbours(lines: seq<Line>, order: seq<string>, category: string, dir: int, group: string)
    requires Distinct(lines) && (dir == 1 || dir == -1) && Line(category, group) in lines
    ensures var shown := Displayed(lines, order, group); var k := IndexOf(shown, category);
            var after := Displayed(lines, Moved(lines, order, category, dir), group);
            if 0 <= k + dir < |shown| then 0 <= k && after == SwapAt(shown, k, k + dir)
            else Moved(lines, order, category, dir) == order
  {
    hide OrderedCategories, Only, NoDup, Effective, SwapNeighbour, InGroup, Categories, GroupOf, IndexOf;
    OwnGroup(lines, category, group);
    var part := InGroup(lines, group);
    var shown := Displayed(lines, order, group);
    SectionHolds(lines, order, category, group);
    if HasNeighbour(shown, category, dir) {
      DisplayIsEffective(lines, order, part);
      EffectiveForm(lines, order);
      MovedForm(lines, order, category, dir, group);
      SwapNeighbourInside(Effective(lines, order), part, category, dir);
      DisplayedOfMoved(lines, order, category, dir, part);
    }
  }

  lemma SectionHolds(lines: seq<Line>, order: seq<string>, category: string, group: string)
    requires Distinct(lines) && Line(category, group) in lines
    ensures category in Displayed(lines, order, group)
  {
    OwnGroup(lines, category, group);
    InOwnSection(lines, order, category, group);
  }

  lemma InOwnSection(lines: seq<Line>, order: seq<string>, category: string, group: string)
    requires GroupOf(lines, category) == Some(group)
    ensures category in Displayed(lines, order, group)
  {
    hide SortByCustomOrder, Only;
    SortElems(Categories(lines), order);
    OnlyElems(OrderedCategories(lines, order), InGroup(lines, group));
  }

  lemma GroupsApart(lines: seq<Line>, order: seq<string>, group: string, other: string, c: string)
    requires group != other && c in Displayed(lines, order, group)
    ensures c !in InGroup(lines, other)
  {
    hide SortByCustomOrder, Only;
    OnlyElems(OrderedCategories(lines, order), InGroup(lines, group));
  }

  /** ... and leaves every other section of the month as it was. */
  lemma MoveLeavesOtherGroups(lines: seq<Line>, order: seq<string>, category: string, dir: int, other: string)
    requires Distinct(lines) && (dir == 1 || dir == -1) && Line(category, other) !in lines
    ensures Displayed(lines, Moved(lines, order, category, dir), other) == Displayed(lines, order, other)
  {
    OwnGroup(lines, category, other);
    hide *;
    if HasNeighbour(Section(lines, order, category), category, dir) {
      MovedElsewhere(lines, order, category, dir, other);
    } else {
      MovedElems(lines, order, category, dir);
    }
  }

  /** The two categories a move takes hold of are in no other section. */
  lemma HeldApart(lines: seq<Line>, order: seq<string>, category: string, dir: int, other: string)
    requires GroupOf(lines, category) != Some(other)
    requires HasNeighbour(Section(lines, order, category), category, dir)
    ensures var shown := Section(lines, order, category);
            && GroupOf(lines, category).Some? && shown == Displayed(lines, order, GroupOf(lines, category).value)
            && category !in InGroup(lines, other) && shown[IndexOf(shown, category) + dir] !in InGroup(lines, other)
  {
    hide Displayed, InGroup, GroupOf;
    var shown, group := Section(lines, order, category), GroupOf(lines, category).value;
    assert shown[IndexOf(shown, category)] == category && category in shown;
    assert shown[IndexOf(shown, category) + dir] in shown;
    GroupsApart(lines, order, group, other, category);
    GroupsApart(lines, order, group, other, shown[IndexOf(shown, category) + dir]);
  }

  lemma MovedElsewhere(lines: seq<Line>, order: seq<string>, category: string, dir: int, other: string)
    requires Distinct(lines) && (dir == 1 || dir == -1) && GroupOf(lines, category) != Some(other)
    requires HasNeighbour(Section(lines, order, category), category, dir)
    ensures Displayed(lines, Moved(lines, order, category, dir), other) == Displayed(lines, order, other)
  {
    var part := InGroup(lines, other);
    SectionIs(lines, order, other);
    SectionIs(lines, Moved(lines, order, category, dir), other);
    hide *;
    HeldApart(lines, order, category, dir, other);
    MovePart(lines, order, category, dir, part);
    DisplayIsEffective(lines, order, part);
    DisplayedOfMoved(lines, order, category, dir, part);
  }

  lemma SectionIs(lines: seq<Line>, order: seq<string>, group: string)
    ensures Displayed(lines, order, group) == Only(OrderedCategories(lines, order), InGroup(lines, group))
    ensures InGroup(lines, group) <= Elems(Categories(lines))
  {
    hide SortByCustomOrder, Only, GroupOf;
  }

  lemma SectionNoDup(lines: seq<Line>, order: seq<string>, group: string)
    requires Distinct(lines)
    ensures NoDup(Displayed(lines, order, group))
  {
    hide SortByCustomOrder, Only, NoDup;
    DisplayIsEffective(lines, order, InGroup(lines, group));
    EffectiveForm(lines, order);
    OnlyNoDup(Effective(lines, order), InGroup(lines, group));
  }

  /** Whether moving one way and then back shows every section as before. */
  ghost predicate RoundTrips(lines: seq<Line>, order: seq<string>, category: string, dir: int)
    requires dir == 1 || dir == -1
  {
    forall group ::
      Displayed(lines, Moved(lines, Moved(lines, order, category, dir), category, -dir), group)
        == Displayed(lines, order, group)
  }

  lemma BackAndForth(lines: seq<Line>, order: seq<string>, category: string, dir: int, group: string)
    requires Distinct(lines) && (dir == 1 || dir == -1) && Line(category, group) in lines
    ensures var shown := Displayed(lines, order, group); var k := IndexOf(shown, category);
            var back := Displayed(lines, Moved(lines, Moved(lines, order, category, dir), category, -dir), group);
            0 <= k
            && (0 <= k + dir < |shown| ==> back == shown)
            && (!(0 <= k + dir < |shown|) && 0 <= k - dir < |shown| ==> back != shown)
  {
    hide Moved, Displayed, NoDup, GroupOf, Categories, IndexOf;
    var shown := Displayed(lines, order, group);
    var k := IndexOf(shown, category);
    SectionHolds(lines, order, category, group);
    SectionNoDup(lines, order, group);
    MoveSwapsNeighbours(lines, order, category, dir, group);
    var order' := Moved(lines, order, category, dir);
    SectionNoDup(lines, order', group);
    MoveSwapsNeighbours(lines, order', category, -dir, group);
    if 0 <= k + dir < |shown| {
      NoDupIndex(Displayed(lines, order', group), k + dir);
      SwapSymmetric(shown, k, k + dir);
    } else if 0 <= k - dir < |shown| {
      SwapChanges(shown, k, k - dir);
    }
  }

  /** Moving one way and then back, as functions: every section is restored exactly when the first move
      is not blocked at the edge of the section, or both are. */
  lemma MoveAndBack(lines: seq<Line>, order: seq<string>, category: string, dir: int, group: string)
    requires Distinct(lines) && (dir == 1 || dir == -1) && Line(category, group) in lines
    ensures var shown := Displayed(lines, order, group); var k := IndexOf(shown, category);
            RoundTrips(lines, order, category, dir) <==> 0 <= k + dir < |shown| || !(0 <= k - dir < |shown|)
  {
    hide SortByCustomOrder, Only, Moved, Displayed, NoDup;
    BackAndForth(lines, order, category, dir, group);
    var order' := Moved(lines, order, category, dir);
    MoveSwapsNeighbours(lines, order, category, dir, group);
    MoveSwapsNeighbours(lines, order', category, -dir, group);
    forall other | other != group
      ensures Displayed(lines, Moved(lines, order', category, -dir), other) == Displayed(lines, order, other)
    {
      OneGroupEach(lines, category, group, other);
      MoveLeavesOtherGroups(lines, order, category, dir, other);
      MoveLeavesOtherGroups(lines, order', category, -dir, other);
    }
  }

  /** The menu offers Move up on every row but the first of its section and Move down on every row but
      the last. Whatever it offers can be undone: the category then stands one place along, the opposite
      entry is offered there, and choosing that shows every section as before. */
  lemma OfferedMoveIsUndone(lines: seq<Line>, order: seq<string>, group: string, i: nat, dir: int)
    requires Distinct(lines) && (dir == 1 || dir == -1)
    requires i < |Displayed(lines, order, group)| && 0 <= i + dir < |Displayed(lines, order, group)|
    ensures var category := Displayed(lines, order, group)[i];
            var after := Displayed(lines, Moved(lines, order, category, dir), group);
            && i + dir < |after| == |Displayed(lines, order, group)| && after[i + dir] == category
            && RoundTrips(lines, order, category, dir)
  {
    hide Moved, Displayed, NoDup, IndexOf, RoundTrips;
    var shown := Displayed(lines, order, group);
    ShownInGroup(lines, order, group, i);
    SectionNoDup(lines, order, group);
    NoDupIndex(shown, i);
    MoveSwapsNeighbours(lines, order, shown[i], dir, group);
    MoveAndBack(lines, order, shown[i], dir, group);
  }

  lemma ShownInGroup(lines: seq<Line>, order: seq<string>, group: string, i: nat)
    requires Distinct(lines) && i < |Displayed(lines, order, group)|
    ensures Line(Displayed(lines, order, group)[i], group) in lines
  {
    hide Displayed;
    SectionsHoldTheLines(lines, order, Displayed(lines, order, group)[i], group);
  }

  // ---- Drag and drop, and its simulation by single moves ----

  /** A drop inside a section puts the dragged category just above the target there. */
  lemma DropInSection(lines: seq<Line>, order: seq<string>, category: string, target: string, group: string)
    requires Distinct(lines) && category != target
    requires Line(category, group) in lines && Line(target, group) in lines
    ensures var shown := Displayed(lines, order, group);
            Displayed(lines, Reordered(lines, order, category, target), group) == MoveBefore(shown, category, target)
  {
    hide SortByCustomOrder, Only, NoDup, MoveBefore;
    OwnGroup(lines, category, group);
    OwnGroup(lines, target, group);
    var part := InGroup(lines, group);
    DisplayIsEffective(lines, order, part);
    EffectiveForm(lines, order);
    SectionHolds(lines, order, target, group);
    MoveBeforeInside(Effective(lines, order), category, target, part);
    DisplayedOfReordered(lines, order, category, target, part);
  }

  lemma DisplayedOfReordered(lines: seq<Line>, order: seq<string>, category: string, target: string, part: set<string>)
    requires Distinct(lines) && category != target && part <= Elems(Categories(lines))
    ensures Only(OrderedCategories(lines, Reordered(lines, order, category, target)), part)
         == Only(Reordered(lines, order, category, target), part)
  {
    hide SortByCustomOrder, Only, NoDup, MoveBefore;
    var next := Reordered(lines, order, category, target);
    EffectiveForm(lines, order);
    MoveBeforeElems(Effective(lines, order), category, target);
    DisplayIsEffective(lines, next, part);
    EffectiveOfFull(lines, next);
  }

  /** Sections the dragged category is not in do not see the drop. */
  lemma DropLeavesOtherGroups(lines: seq<Line>, order: seq<string>, category: string, target: string, other: string)
    requires Distinct(lines) && Line(category, other) !in lines
    ensures Displayed(lines, Reordered(lines, order, category, target), other) == Displayed(lines, order, other)
  {
    hide SortByCustomOrder, Only, NoDup, MoveBefore;
    OwnGroup(lines, category, other);
    if category != target {
      var part := InGroup(lines, other);
      DisplayIsEffective(lines, order, part);
      MoveBeforeOutside(Effective(lines, order), category, target, part);
      DisplayedOfReordered(lines, order, category, target, part);
    }
  }

  /** The position n places along in direction dir. */
  function Reach(p: int, dir: int, n: nat): int {
    if dir == 1 then p + n else p - n
  }

  lemma OnePress(lines: seq<Line>, order: seq<string>, category: string, dir: int, group: string,
      shown: seq<string>, p: nat, q: nat)
    requires Distinct(lines) && (dir == 1 || dir == -1) && Line(category, group) in lines
    requires p < |shown| && q < |shown| && 0 <= q + dir < |shown| && shown[p] == category
    requires (dir == 1 ==> p <= q) && (dir == -1 ==> q <= p)
    requires Displayed(lines, order, group) == Shifted(shown, p, q)
    ensures Displayed(lines, Moved(lines, order, category, dir), group) == Shifted(shown, p, q + dir)
  {
    hide Moved, Displayed, NoDup, GroupOf, Categories, IndexOf, Shifted;
    ShiftStep(shown, p, q, dir);
    SectionNoDup(lines, order, group);
    NoDupIndex(Displayed(lines, order, group), q);
    MoveSwapsNeighbours(lines, order, category, dir, group);
  }

  lemma {:induction false} MovedTimesShift(lines: seq<Line>, order: seq<string>, category: string, dir: int, n: nat,
      group: string)
    requires Distinct(lines) && (dir == 1 || dir == -1) && Line(category, group) in lines
    requires var shown := Displayed(lines, order, group);
             0 <= Reach(IndexOf(shown, category), dir, n) < |shown|
    ensures var shown := Displayed(lines, order, group); var p := IndexOf(shown, category);
            p >= 0 && Displayed(lines, MovedTimes(lines, order, category, dir, n), group)
              == Shifted(shown, p, Reach(p, dir, n))
  {
    hide Moved, Displayed, NoDup, GroupOf, Categories, IndexOf;
    var shown := Displayed(lines, order, group);
    var p := IndexOf(shown, category);
    SectionHolds(lines, order, category, group);
    if n == 0 {
    } else {
      hide Shifted;
      var before := MovedTimes(lines, order, category, dir, n - 1);
      MovedTimesShift(lines, order, category, dir, n - 1, group);
      OnePress(lines, before, category, dir, group, shown, p, Reach(p, dir, n - 1));
    }
  }

  lemma {:induction false} MovedTimesElsewhere(lines: seq<Line>, order: seq<string>, category: string, dir: int,
      n: nat, other: string)
    requires Distinct(lines) && (dir == 1 || dir == -1) && Line(category, other) !in lines
    ensures Displayed(lines, MovedTimes(lines, order, category, dir, n), other) == Displayed(lines, order, other)
  {
    hide Moved, Displayed;
    if n == 0 {
    } else {
      MovedTimesElsewhere(lines, order, category, dir, n - 1, other);
      MoveLeavesOtherGroups(lines, MovedTimes(lines, order, category, dir, n - 1), category, dir, other);
    }
  }

  /** The presses that stand in for dropping the item at p onto the item at q. */
  function PressesFor(p: int, q: int): (r: (int, nat))
    requires p != q
    ensures r.0 == 1 || r.0 == -1
  {
    if p < q then (1, q - 1 - p) else (-1, p - q)
  }

  /** The keyboard reaches everything a drag inside a section can: after the computed number of
      presses of one button, every section of the month shows what the drop would show. */
  lemma DragIsMoves(lines: seq<Line>, order: seq<string>, category: string, target: string, group: string,
      section: string)
    requires Distinct(lines) && category != target
    requires Line(category, group) in lines && Line(target, group) in lines
    ensures var shown := Displayed(lines, order, group);
            var p, q := IndexOf(shown, category), IndexOf(shown, target);
            p != q
            && var (dir, n) := PressesFor(p, q);
               Displayed(lines, MovedTimes(lines, order, category, dir, n), section)
               == Displayed(lines, Reordered(lines, order, category, target), section)
  {
    hide MovedTimes, Displayed, NoDup, MoveBefore, Reordered, GroupOf, Categories, Shifted, IndexOf;
    var shown := Displayed(lines, order, group);
    SectionHolds(lines, order, category, group);
    SectionHolds(lines, order, target, group);
    var p, q := IndexOf(shown, category), IndexOf(shown, target);
    var (dir, n) := PressesFor(p, q);
    if section == group {
      SectionNoDup(lines, order, group);
      MovedTimesShift(lines, order, category, dir, n, group);
      DropInSection(lines, order, category, target, group);
      MoveBeforeIsShift(shown, p, q);
    } else {
      OneGroupEach(lines, category, group, section);
      MovedTimesElsewhere(lines, order, category, dir, n, section);
      DropLeavesOtherGroups(lines, order, category, target, section);
    }
  }

  // ---- Whole runs of reorders, across months ----

  /** One reorder, made while a month's lines are on screen. */
  datatype Reorder =
    | Drag(lines: seq<Line>, category: string, target: string)
    | Move(lines: seq<Line>, category: string, dir: int)

  ghost predicate Possible(a: Reorder) {
    Distinct(a.lines) && (a.Move? ==> a.dir == 1 || a.dir == -1)
  }

  ghost function After(order: seq<string>, a: Reorder): seq<string>
    requires Possible(a)
  {
    match a
    case Drag(lines, category, target) => Reordered(lines, order, category, target)
    case Move(lines, category, dir) => Moved(lines, order, category, dir)
  }

  /** The categories one reorder takes hold of: the dragged one, or the two that swap. */
  ghost function Handled(order: seq<string>, a: Reorder): set<string>
    requires Possible(a)
  {
    match a
    case Drag(lines, category, target) => {category}
    case Move(lines, category, dir) =>
      var shown := Section(lines, order, category);
      if HasNeighbour(shown, category, dir) then {category, shown[IndexOf(shown, category) + dir]} else {}
  }

  ghost predicate AllPossible(run: seq<Reorder>) {
    forall k :: 0 <= k < |run| ==> Possible(run[k])
  }

  ghost function Run(order: seq<string>, run: seq<Reorder>): seq<string>
    requires AllPossible(run)
    decreases |run|
  {
    if run == [] then order else Run(After(order, run[0]), run[1..])
  }

  ghost function HandledIn(order: seq<string>, run: seq<Reorder>): set<string>
    requires AllPossible(run)
    decreases |run|
  {
    if run == [] then {} else Handled(order, run[0]) + HandledIn(After(order, run[0]), run[1..])
  }

  /** The guard under which a reorder takes effect and is saved. */
  ghost predicate Takes(order: seq<string>, a: Reorder)
    requires Possible(a)
  {
    match a
    case Drag(lines, category, target) => category != target
    case Move(lines, category, dir) => HasNeighbour(Section(lines, order, category), category, dir)
  }

  /** A reorder that takes effect stores every position it had, plus the month's, each once; another
      changes nothing. */
  lemma ReorderKeepsPositions(order: seq<string>, a: Reorder)
    requires Possible(a)
    ensures !Takes(order, a) ==> After(order, a) == order
    ensures Takes(order, a) ==> NoDup(After(order, a))
    ensures Takes(order, a) ==>
      Elems(After(order, a)) == Elems(order) + Elems(Categories(a.lines)) + {a.category}
  {
    hide SortByCustomOrder, Only, MoveBefore;
    match a
    case Drag(lines, category, target) =>
      EffectiveForm(lines, order);
      MoveBeforeElems(Effective(lines, order), category, target);
    case Move(lines, category, dir) =>
      MovedElems(lines, order, category, dir);
      if HasNeighbour(Section(lines, order, category), category, dir) {
        assert category in Categories(lines);
      }
  }

  /** Some reorder of the run takes effect. */
  ghost predicate AnyTakes(order: seq<string>, run: seq<Reorder>)
    requires AllPossible(run)
    decreases |run|
  {
    run != [] && (Takes(order, run[0]) || AnyTakes(After(order, run[0]), run[1..]))
  }

  /** The positions a run adds: of every reorder that takes effect, its month and its category. */
  ghost function Gained(order: seq<string>, run: seq<Reorder>): set<string>
    requires AllPossible(run)
    decreases |run|
  {
    if run == [] then {}
    else
      (if Takes(order, run[0]) then Elems(Categories(run[0].lines)) + {run[0].category} else {})
      + Gained(After(order, run[0]), run[1..])
  }

  /** After any run of drags and moves, in whatever months, the stored order holds exactly every position
      it held before and those of the months effectively reordered; a run in which nothing took effect
      leaves it alone, and any other leaves it without repeats. */
  lemma {:induction false} NoPositionLost(order: seq<string>, run: seq<Reorder>)
    requires AllPossible(run)
    ensures Elems(Run(order, run)) == Elems(order) + Gained(order, run)
    ensures !AnyTakes(order, run) ==> Run(order, run) == order
    ensures NoDup(order) || AnyTakes(order, run) ==> NoDup(Run(order, run))
    decreases |run|
  {
    hide After, Takes, Categories, NoDup;
    if run == [] {
    } else {
      ReorderKeepsPositions(order, run[0]);
      NoPositionLost(After(order, run[0]), run[1..]);
    }
  }

  lemma {:induction false} RunConcat(order: seq<string>, a: seq<Reorder>, b: seq<Reorder>)
    requires AllPossible(a) && AllPossible(b)
    ensures AllPossible(a + b) && Run(order, a + b) == Run(Run(order, a), b)
    ensures AnyTakes(order, a + b) <==> AnyTakes(order, a) || AnyTakes(Run(order, a), b)
    decreases |a|
  {
    hide After, Takes;
    if a == [] {
      assert a + b == b;
    } else {
      assert (a + b)[1..] == a[1..] + b && (a + b)[0] == a[0];
      RunConcat(After(order, a[0]), a[1..], b);
    }
  }

  lemma EffectiveKeepsOrder(lines: seq<Line>, order: seq<string>, part: set<string>)
    requires Distinct(lines) && part <= Elems(order)
    ensures Only(Effective(lines, order), part) == Only(KeepLast(order), part)
  {
    hide Only, NoDup, KeepLast, Effective;
    var cats := Categories(lines);
    var loose := Only(cats, Elems(cats) - Elems(order));
    EffectiveForm(lines, order);
    OnlyConcat(KeepLast(order), loose, part);
    OnlyElems(cats, Elems(cats) - Elems(order));
    OnlyNone(loose, part);
  }

  /** Away from what it takes hold of, a reorder stores the effective order. */
  lemma UnhandledPart(order: seq<string>, a: Reorder, part: set<string>)
    requires Possible(a) && Takes(order, a) && Handled(order, a) !! part
    ensures Only(After(order, a), part) == Only(Effective(a.lines, order), part)
  {
    hide Only, NoDup, KeepLast, Effective, OrderedCategories, SwapNeighbour, MoveBefore, Section, Moved;
    match a
    case Drag(lines, category, target) =>
      assert category in Handled(order, a);
      MoveBeforeOutside(Effective(lines, order), category, target, part);
    case Move(lines, category, dir) =>
      var shown := Section(lines, order, category);
      assert category in Handled(order, a) && shown[IndexOf(shown, category) + dir] in Handled(order, a);
      MovePart(lines, order, category, dir, part);
  }

  lemma MovePart(lines: seq<Line>, order: seq<string>, category: string, dir: int, part: set<string>)
    requires Distinct(lines) && (dir == 1 || dir == -1)
    requires HasNeighbour(Section(lines, order, category), category, dir)
    requires var shown := Section(lines, order, category);
             category !in part && shown[IndexOf(shown, category) + dir] !in part
    ensures Only(Moved(lines, order, category, dir), part) == Only(Effective(lines, order), part)
  {
    hide Only, NoDup, KeepLast, Effective, OrderedCategories, Moved, SwapNeighbour;
    var group := GroupOf(lines, category).value;
    MovedForm(lines, order, category, dir, group);
    EffectiveForm(lines, order);
    DisplayIsEffective(lines, order, InGroup(lines, group));
    SwapNeighbourOutside(Effective(lines, order), InGroup(lines, group), category, dir, part);
  }

  lemma ReorderKeepsOrder(order: seq<string>, a: Reorder, part: set<string>)
    requires Possible(a) && part <= Elems(order) && part !! Handled(order, a)
    ensures Only(KeepLast(After(order, a)), part) == Only(KeepLast(order), part)
  {
    hide Only, NoDup, KeepLast, Effective, After, Takes, Handled;
    ReorderKeepsPositions(order, a);
    if Takes(order, a) {
      KeepLastOfNoDup(After(order, a));
      UnhandledPart(order, a, part);
      EffectiveKeepsOrder(a.lines, order, part);
    }
  }

  lemma {:induction false} RunKeepsOrder(order: seq<string>, run: seq<Reorder>, part: set<string>)
    requires AllPossible(run) && part <= Elems(order) && part !! HandledIn(order, run)
    ensures Only(KeepLast(Run(order, run)), part) == Only(KeepLast(order), part)
    decreases |run|
  {
    hide After, Handled;
    if run == [] {
    } else {
      assert part !! Handled(order, run[0]);
      ReorderKeepsOrder(order, run[0], part);
      ReorderKeepsPositions(order, run[0]);
      RunKeepsOrder(After(order, run[0]), run[1..], part);
    }
  }

  /** In every month's display, categories that had a position and that no step of the run took hold
      of keep their relative order, whichever months the run was made in. */
  lemma RunKeepsDisplayedOrder(order: seq<string>, run: seq<Reorder>, month: seq<Line>, part: set<string>)
    requires AllPossible(run) && Distinct(month) && part <= Elems(order) && part !! HandledIn(order, run)
    ensures Only(OrderedCategories(month, Run(order, run)), part) == Only(OrderedCategories(month, order), part)
  {
    hide SortByCustomOrder, Only, Run, HandledIn, KeepLast, NoDup;
    NoPositionLost(order, run);
    RunKeepsOrder(order, run, part);
    DisplayOfPositioned(month, order, part);
    DisplayOfPositioned(month, Run(order, run), part);
    OnlyOnly(KeepLast(order), part, Elems(Categories(month)));
    OnlyOnly(KeepLast(Run(order, run)), part, Elems(Categories(month)));
  }

  lemma DisplayOfPositioned(month: seq<Line>, order: seq<string>, part: set<string>)
    requires Distinct(month) && part <= Elems(order)
    ensures Only(OrderedCategories(month, order), part) == Only(KeepLast(order), part * Elems(Categories(month)))
  {
    hide Only, KeepLast, NoDup;
    var cats := Categories(month);
    SortOfDistinct(cats, order);
    OnlyConcat(Only(KeepLast(order), Elems(cats)), Only(cats, Elems(cats) - Elems(order)), part);
    OnlyElems(cats, Elems(cats) - Elems(order));
    OnlyNone(Only(cats, Elems(cats) - Elems(order)), part);
    OnlyOnly(KeepLast(order), Elems(cats), part);
    assert Elems(cats) * part == part * Elems(cats);
  }

  // ---- What another month shows ----

  /** Any part of a month, such as one section, shows its positioned categories and then its others. */
  lemma PartForm(month: seq<Line>, order: seq<string>, part: set<string>)
    requires Distinct(month) && part <= Elems(Categories(month))
    ensures Only(OrderedCategories(month, order), part)
         == Only(KeepLast(order), part) + Only(Categories(month), part - Elems(order))
  {
    hide Only, KeepLast, NoDup;
    var cats := Categories(month);
    SortOfDistinct(cats, order);
    OnlyConcat(Only(KeepLast(order), Elems(cats)), Only(cats, Elems(cats) - Elems(order)), part);
    OnlyOnly(KeepLast(order), Elems(cats), part);
    OnlyOnly(cats, Elems(cats) - Elems(order), part);
    assert Elems(cats) * part == part;
    assert (Elems(cats) - Elems(order)) * part == part - Elems(order);
  }

  /** What a part of a month shows stays the same under a longer stored order exactly when it already
      began with its share of that order. */
  lemma DisplayStaysExactlyWhen(month: seq<Line>, order: seq<string>, later: seq<string>, part: set<string>)
    requires Distinct(month) && NoDup(later) && Elems(order) <= Elems(later) && part <= Elems(Categories(month))
    ensures Only(OrderedCategories(month, later), part) == Only(OrderedCategories(month, order), part) <==>
            Only(later, part) <= Only(OrderedCategories(month, order), part)
  {
    hide Only, KeepLast, NoDup, OrderedCategories;
    PartForm(month, later, part);
    KeepLastOfNoDup(later);
    var x, shown := Only(later, part), Only(OrderedCategories(month, order), part);
    if x <= shown {
      RestAsBefore(month, order, later, part, shown[|x|..]);
    }
  }

  lemma RestAsBefore(month: seq<Line>, order: seq<string>, later: seq<string>, part: set<string>, r: seq<string>)
    requires Distinct(month) && Elems(order) <= Elems(later) && part <= Elems(Categories(month))
    requires Only(OrderedCategories(month, order), part) == Only(later, part) + r
    ensures r == Only(Categories(month), part - Elems(later))
  {
    hide Only, KeepLast, NoDup, SortByCustomOrder;
    var cats, rest, x := Categories(month), part - Elems(later), Only(later, part);
    var all := OrderedCategories(month, order);
    SortElems(cats, order);
    SortNoDup(cats, order);
    OnlyNoDup(all, part);
    OnlyElems(all, part);
    OnlyElems(later, part);
    TailAlone(x, r, rest);
    OnlyOnly(all, part, rest);
    assert part * rest == rest;
    PartForm(month, order, rest);
    OnlyNone(KeepLast(order), rest);
    assert rest - Elems(order) == rest;
  }

  lemma TailAlone(x: seq<string>, r: seq<string>, rest: set<string>)
    requires NoDup(x + r) && Elems(x) == Elems(x + r) - rest
    ensures Only(x + r, rest) == r
  {
    hide Only;
    NoDupSplit(x, r);
    ElemsConcat(x, r);
    OnlyConcat(x, r, rest);
    OnlyNone(x, rest);
    forall y | y in Elems(r)
      ensures y in rest
    {
      assert y !in Elems(x) * Elems(r) && y in Elems(x + r);
    }
    OnlyAll(r, rest);
  }

  lemma SortNoDup(cats: seq<string>, order: seq<string>)
    requires NoDup(cats)
    ensures NoDup(SortByCustomOrder(cats, order))
  {
    SortIsPermutation(cats, order);
    DistinctKeys(cats, SortByCustomOrder(cats, order), cats, SortByCustomOrder(cats, order), (c: string) => c);
  }

  /** A reorder that takes hold of none of the categories of a part of some month, such as one section,
      leaves what that part shows as it was exactly when its unpositioned categories that the reordered
      month also has are the first of its unpositioned ones, in the order the reordered month lists them. */
  lemma OtherMonthStaysExactlyWhen(order: seq<string>, a: Reorder, month: seq<Line>, part: set<string>)
    requires Possible(a) && Distinct(month) && Takes(order, a)
    requires part <= Elems(Categories(month)) && Handled(order, a) !! part
    ensures Only(OrderedCategories(month, After(order, a)), part) == Only(OrderedCategories(month, order), part) <==>
            var loose := part - Elems(order);
            Only(Categories(a.lines), loose) <= Only(Categories(month), loose)
  {
    hide Only, KeepLast, NoDup, OrderedCategories, After, Takes, Handled, Categories, Effective;
    var listed, loose := Categories(a.lines), part - Elems(order);
    ReorderKeepsPositions(order, a);
    DisplayStaysExactlyWhen(month, order, After(order, a), part);
    PartForm(month, order, part);
    UnhandledPart(order, a, part);
    EffectiveForm(a.lines, order);
    OnlyConcat(KeepLast(order), Only(listed, Elems(listed) - Elems(order)), part);
    OnlyOnly(listed, Elems(listed) - Elems(order), part);
    OnlyCongruent(listed, (Elems(listed) - Elems(order)) * part, loose);
    CommonPrefix(Only(KeepLast(order), part), Only(listed, loose), Only(Categories(month), loose));
  }

  lemma CommonPrefix(p: seq<string>, a: seq<string>, b: seq<string>)
    ensures p + a <= p + b <==> a <= b
  {
    if a <= b {
      assert p + b == (p + a) + b[|a|..];
    }
    if p + a <= p + b {
      assert (p + a)[|p|..] == a && (p + b)[|p|..] == b;
      assert (p + b)[..|p + a|] == p + a;
      assert (p + b)[|p|..][..|a|] == (p + b)[..|p + a|][|p|..];
    }
  }

  // ---- A drop on a row of another section ----

  /** A category may be dropped on any row of the month, also one of another section. In its own section
      it then stands after exactly those of its companions that stood above that row. */
  lemma DropOnAnyRow(lines: seq<Line>, order: seq<string>, category: string, target: string, group: string)
    requires Distinct(lines) && category != target
    requires Line(category, group) in lines && target in Categories(lines)
    ensures target in OrderedCategories(lines, order)
    ensures var all, shown := OrderedCategories(lines, order), Displayed(lines, order, group);
            var others := Only(shown, Elems(shown) - {category});
            var above := |Only(all[..IndexOf(all, target)], InGroup(lines, group) - {category})|;
            above <= |others| && Displayed(lines, Reordered(lines, order, category, target), group)
                              == others[..above] + [category] + others[above..]
  {
    hide SortByCustomOrder, Only, NoDup, MoveBefore, Categories, GroupOf, IndexOf, OrderedCategories;
    var part, s := InGroup(lines, group), Effective(lines, order);
    var month := Elems(Categories(lines));
    EffectiveForm(lines, order);
    DisplayIsEffective(lines, order, month);
    SortElems(Categories(lines), order);
    WholeMonth(lines, order);
    OwnGroup(lines, category, group);
    CategoryInSection(lines, category, group);
    DisplayedOfReordered(lines, order, category, target, part);
    MoveBeforeAnywhere(s, category, target, part);
    BeforeInPart(s, month, target);
    var head := s[..IndexOf(s, target)];
    OnlyOnly(head, month, part - {category});
    assert month * (part - {category}) == part - {category};
    OthersInSection(lines, order, category, group);
  }

  lemma CategoryInSection(lines: seq<Line>, category: string, group: string)
    requires GroupOf(lines, category) == Some(group)
    ensures category in InGroup(lines, group)
  {
  }

  lemma WholeMonth(lines: seq<Line>, order: seq<string>)
    ensures Only(OrderedCategories(lines, order), Elems(Categories(lines))) == OrderedCategories(lines, order)
    ensures forall c :: c in OrderedCategories(lines, order) <==> c in Categories(lines)
  {
    hide SortByCustomOrder, Only;
    SortElems(Categories(lines), order);
    OnlyAll(OrderedCategories(lines, order), Elems(Categories(lines)));
  }

  lemma OthersInSection(lines: seq<Line>, order: seq<string>, category: string, group: string)
    requires Distinct(lines)
    ensures var shown := Displayed(lines, order, group);
            Only(shown, Elems(shown) - {category}) == Only(Effective(lines, order), InGroup(lines, group) - {category})
  {
    hide SortByCustomOrder, Only, NoDup, Categories;
    var part, s := InGroup(lines, group), Effective(lines, order);
    DisplayIsEffective(lines, order, part);
    var shown := Displayed(lines, order, group);
    OnlyElems(s, part);
    OnlyOnly(s, part, Elems(shown) - {category});
    OnlyCongruent(s, part * (Elems(shown) - {category}), part - {category});
  }
}
