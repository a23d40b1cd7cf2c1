/** The budget view's own state: the stored category order it holds, the category being dragged, and
    what it has handed to the backend to save. */
module BudgetBoard {
  import opened Options
  import opened Sequences
  import opened CustomOrder
  import opened BudgetOrder
  import Race = OrderRace

  class CategoryBoard {
    var categoryOrder: seq<string>
    var dragCategory: Option<string>
    /** Every order handed to the backend, oldest first. */
    var saved: seq<seq<string>>

    /** The board as a state of the race with the read of the stored order. */
    ghost function View(stored: seq<string>, read: Race.Read): Race.State
      reads this
    {
      Race.State(categoryOrder, if saved == [] then stored else saved[|saved| - 1], read)
    }

    constructor ()
      ensures categoryOrder == [] && dragCategory == None && saved == []
    {
      categoryOrder, dragCategory, saved := [], None, [];
    }

    /** The saved order arrives, whenever it does. */
    method OrderRead(order: seq<string>)
      modifies this`categoryOrder
      ensures categoryOrder == order
      ensures forall stored ::
        View(stored, Race.Arrived) == Race.Next(old(View(stored, Race.Answered(order))), Race.Arrive)
    {
      categoryOrder := order;
    }

    method ReorderCategory(lines: seq<Line>, category: string, target: string)
      modifies this`categoryOrder, this`saved
      ensures categoryOrder == Reordered(lines, old(categoryOrder), category, target)
      ensures saved == if category == target then old(saved) else old(saved) + [categoryOrder]
      ensures Distinct(lines) ==> forall stored, read ::
        View(stored, read) == Race.Next(old(View(stored, read)), Race.Step(Drag(lines, category, target)))
    {
      if category == target {
        return;
      }
      var effective := Effective(lines, categoryOrder);
      var next := Only(effective, Elems(effective) - {category});
      next := Splice(next, IndexOf(next, target), category);
      categoryOrder := next;
      saved := saved + [next];
    }

    method HandleDrop(lines: seq<Line>, target: string)
      modifies this
      ensures dragCategory == None
      ensures categoryOrder ==
        if old(dragCategory).Some? then Reordered(lines, old(categoryOrder), old(dragCategory).value, target)
          else old(categoryOrder)
      ensures saved ==
        if old(dragCategory).Some? && old(dragCategory).value != target then old(saved) + [categoryOrder]
          else old(saved)
    {
      if dragCategory.Some? {
        ReorderCategory(lines, dragCategory.value, target);
      }
      dragCategory := None;
    }

    method MoveCategoryWithinGroup(lines: seq<Line>, category: string, dir: int)
      requires dir == 1 || dir == -1
      modifies this`categoryOrder, this`saved
      ensures categoryOrder == Moved(lines, old(categoryOrder), category, dir)
      ensures saved == if HasNeighbour(Section(lines, old(categoryOrder), category), category, dir)
                       then old(saved) + [categoryOrder] else old(saved)
      ensures Distinct(lines) ==> forall stored, read ::
        View(stored, read) == Race.Next(old(View(stored, read)), Race.Step(Move(lines, category, dir)))
    {
      hide Only, SortByCustomOrder, OrderedCategories, Effective, IndexOf, InGroup, Categories, GroupOf;
      var group := GroupOf(lines, category);
      var groupCategories := if group.None? then [] else Displayed(lines, categoryOrder, group.value);
      var index := IndexOf(groupCategories, category);
      var targetIndex := index + dir;
      if group.Some? {
        InOwnSection(lines, categoryOrder, category, group.value);
      }
      if targetIndex < 0 || targetIndex >= |groupCategories| {
        return;
      }
      var neighbour := groupCategories[targetIndex];
      var next := Effective(lines, categoryOrder);
      SectionIsKnown(lines, categoryOrder, category, category);
      SectionIsKnown(lines, categoryOrder, category, neighbour);
      var i, j := IndexOf(next, category), IndexOf(next, neighbour);
      var moving := next[i];
      next := next[i := next[j]];
      next := next[j := moving];
      categoryOrder := next;
      saved := saved + [next];
    }
  }
}
