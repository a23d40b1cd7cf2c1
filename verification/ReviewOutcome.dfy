/** What a review leaves behind, row by row: the categories and flags the backend then holds, and what the
    dialog shows the rows were resolved as. */
module ReviewOutcome {
  import opened Options
  import opened ReviewInbox
  import opened ReviewRetries

  /** The reasons that are flags a person can dismiss. */
  predicate IsFlag(k: Kind) {
    k == Large || k == Duplicate
  }

  function FlagsOf(item: Item): set<(int, Kind)> {
    set k | k in item.reasons && IsFlag(k) :: (item.id, k)
  }

  function Flags(items: seq<Item>): set<(int, Kind)> {
    set i, k | i in items && k in i.reasons && IsFlag(k) :: (i.id, k)
  }

  /** The row needs no category and its choice is the one it is listed with. */
  predicate KeptAsListed(item: Item, choices: map<int, string>) {
    && Uncategorized !in item.reasons && LowConfidence !in item.reasons
    && item.id in choices && item.category == Some(choices[item.id])
  }

  lemma {:induction false} FlagCallsExactly(id: int, reasons: seq<Kind>)
    ensures forall c :: c in FlagCalls(id, reasons) <==> c.Dismiss? && c.id == id && c.kind in reasons && IsFlag(c.kind)
  {
    if reasons == [] {
    } else {
      FlagCallsExactly(id, reasons[1..]);
      assert reasons == [reasons[0]] + reasons[1..];
    }
  }

  /** A reviewed row's category: the one it had, where it is kept as listed, or the one chosen for it. */
  function CategoryGiven(l: Ledger, item: Item, choices: map<int, string>): Option<string> {
    if KeptAsListed(item, choices) then CategoryIn(l, item.id)
    else if item.id in choices then Some(choices[item.id]) else None
  }

  function NoteFor(item: Item, choices: map<int, string>): string {
    if KeptAsListed(item, choices) then "Kept" else if item.id in choices then "Set to " + choices[item.id] else ""
  }

  /** A finished row's calls are its flags' dismissals and, unless it is kept, its category. */
  lemma PlanExactly(item: Item, choices: map<int, string>)
    requires BulkPlan(item, choices).finishes && item.id in choices
    ensures forall c :: c in BulkPlan(item, choices).calls <==>
              || (c.Dismiss? && c.id == item.id && c.kind in item.reasons && IsFlag(c.kind))
              || (!KeptAsListed(item, choices) && c == SetCategory(item.id, choices[item.id]))
    ensures BulkPlan(item, choices).note == NoteFor(item, choices)
  {
    FlagCallsExactly(item.id, item.reasons);
  }

  // ---- A bulk review that succeeds ----

  lemma PassCalls(todo: seq<Item>, choices: map<int, string>)
    requires forall i :: i in todo ==> BulkPlan(i, choices).finishes && i.id in choices
    ensures forall c :: c in BulkCalls(todo, choices) <==>
              exists i :: i in todo && c.id == i.id
                && ((c.Dismiss? && c.kind in i.reasons && IsFlag(c.kind))
                    || (!KeptAsListed(i, choices) && c == SetCategory(i.id, choices[i.id])))
  {
    hide BulkPlan, KeptAsListed;
    InBulkCalls(todo, choices);
    forall i | i in todo
      ensures forall c :: c in BulkPlan(i, choices).calls <==>
                || (c.Dismiss? && c.id == i.id && c.kind in i.reasons && IsFlag(c.kind))
                || (!KeptAsListed(i, choices) && c == SetCategory(i.id, choices[i.id]))
    {
      PlanExactly(i, choices);
    }
  }

  lemma LedgerAfterPass(l: Ledger, todo: seq<Item>, choices: map<int, string>)
    requires DistinctIds(todo) && forall i :: i in todo ==> BulkPlan(i, choices).finishes && i.id in choices
    ensures var l' := PerformAll(l, BulkCalls(todo, choices));
            && l'.dismissed == l.dismissed + Flags(todo) && l'.deleted == l.deleted
            && (forall i :: i in todo ==> CategoryIn(l', i.id) == CategoryGiven(l, i, choices))
            && (forall id :: id !in Ids(todo) ==> CategoryIn(l', id) == CategoryIn(l, id))
  {
    hide BulkPlan, KeptAsListed, BulkCalls, PerformAll, LastSet, CategoryIn;
    var calls := BulkCalls(todo, choices);
    PassCalls(todo, choices);
    FlagsAfter(l, calls);
    FlagsDismissed(todo, choices);
    forall id
      ensures CategoryIn(PerformAll(l, calls), id)
           == if LastSet(calls, id).Some? then LastSet(calls, id) else CategoryIn(l, id)
      ensures LastSet(calls, id).Some? <==> exists i :: i in todo && i.id == id && !KeptAsListed(i, choices)
      ensures LastSet(calls, id).Some? ==> id in choices && LastSet(calls, id).value == choices[id]
    {
      CategoryAfter(l, calls, id);
      LastSetForm(calls, id);
      if i :| i in todo && i.id == id && !KeptAsListed(i, choices) {
        assert SetCategory(id, choices[id]) in calls;
      }
    }
    forall i, j | i in todo && j in todo && i.id == j.id
      ensures i == j
    {
      SameId(todo, i, j);
    }
  }

  lemma SameId(todo: seq<Item>, i: Item, j: Item)
    requires DistinctIds(todo) && i in todo && j in todo && i.id == j.id
    ensures i == j
  {
  }

  lemma FlagsDismissed(todo: seq<Item>, choices: map<int, string>)
    requires forall i :: i in todo ==> BulkPlan(i, choices).finishes && i.id in choices
    ensures Dismissals(BulkCalls(todo, choices)) == Flags(todo)
  {
    hide BulkPlan, KeptAsListed, BulkCalls;
    PassCalls(todo, choices);
    forall i, k | i in todo && k in i.reasons && IsFlag(k)
      ensures (i.id, k) in Dismissals(BulkCalls(todo, choices))
    {
      assert Dismiss(i.id, k) in BulkCalls(todo, choices);
    }
  }

  /** Every row of the pass is resolved as what was done with it and unticked; the others are as before. */
  ghost predicate PassedOver(v: View, v': View, todo: seq<Item>, choices: map<int, string>) {
    && v'.items == v.items && v'.choices == v.choices && v'.selected == v.selected - Ids(todo)
    && v'.resolved.Keys == v.resolved.Keys + Ids(todo)
    && (forall i :: i in todo ==> i.id in v'.resolved && v'.resolved[i.id] == NoteFor(i, choices))
    && (forall id :: id in v.resolved && id !in Ids(todo) ==> v'.resolved[id] == v.resolved[id])
  }

  lemma {:induction false} ViewAfterPass(v: View, choices: map<int, string>, todo: seq<Item>)
    requires DistinctIds(todo) && forall i :: i in todo ==> BulkPlan(i, choices).finishes && i.id in choices
    ensures PassedOver(v, FinishAll(v, choices, todo), todo, choices)
    decreases |todo|
  {
    if todo == [] {
      assert Ids(todo) == {};
    } else {
      hide BulkPlan, KeptAsListed, NoteFor, PassedOver, FinishPlan, Ids;
      assert todo[0] in todo && forall i :: i in todo[1..] ==> i in todo;
      FirstApart(todo);
      var v1 := FinishPlan(v, v.resolved.Keys, todo[0], BulkPlan(todo[0], choices));
      ViewAfterPass(v1, choices, todo[1..]);
      FirstRow(v, choices, todo, v1, FinishAll(v1, choices, todo[1..]));
    }
  }

  lemma FirstRow(v: View, choices: map<int, string>, todo: seq<Item>, v1: View, v': View)
    requires DistinctIds(todo) && todo != [] && BulkPlan(todo[0], choices).finishes && todo[0].id in choices
    requires v1 == FinishPlan(v, v.resolved.Keys, todo[0], BulkPlan(todo[0], choices))
    requires PassedOver(v1, v', todo[1..], choices)
    ensures PassedOver(v, v', todo, choices)
  {
    PlanExactly(todo[0], choices);
    IdsCons(todo);
    FirstApart(todo);
    OneFinished(v, todo[0], BulkPlan(todo[0], choices));
    RowAndRest(todo);
    hide BulkPlan, KeptAsListed, NoteFor, FinishPlan, Ids, DistinctIds;
    NotesGrow(v.resolved, v1.resolved, v'.resolved, todo[0].id, NoteFor(todo[0], choices), Ids(todo[1..]));
  }

  /** One note more, and then those of other rows. */
  lemma NotesGrow(before: map<int, string>, middle: map<int, string>, after: map<int, string>, x: int, note: string,
      rest: set<int>)
    requires middle == before[x := note] && x !in rest && after.Keys == middle.Keys + rest
    requires forall id :: id in middle && id !in rest ==> after[id] == middle[id]
    ensures after.Keys == before.Keys + ({x} + rest) && x in after && after[x] == note
    ensures forall id :: id in before && id !in {x} + rest ==> after[id] == before[id]
  {
  }

  lemma RowAndRest(todo: seq<Item>)
    requires todo != []
    ensures forall i :: i in todo <==> i == todo[0] || i in todo[1..]
  {
    assert todo == [todo[0]] + todo[1..];
  }

  lemma OneFinished(v: View, item: Item, plan: Plan)
    requires plan.finishes
    ensures var v1 := FinishPlan(v, v.resolved.Keys, item, plan);
            && v1.items == v.items && v1.choices == v.choices && v1.selected == v.selected - {item.id}
            && v1.resolved == v.resolved[item.id := plan.note]
  {
  }

  lemma FirstApart(todo: seq<Item>)
    requires DistinctIds(todo) && todo != []
    ensures todo[0].id !in Ids(todo[1..]) && DistinctIds(todo[1..])
    ensures forall i :: i in todo[1..] ==> i.id in Ids(todo[1..])
  {
    forall i | i in todo[1..]
      ensures i.id != todo[0].id
    {
      var k :| 0 <= k < |todo[1..]| && todo[1..][k] == i;
      assert todo[k + 1] == i;
    }
  }

  /** A bulk review takes up exactly the ticked rows still to be reviewed, and does nothing when there is
      none or one of them needs a category and has no choice. */
  lemma ReviewTakesUpExactly(v: View, w: World)
    ensures forall t :: t in SelectedItems(v) <==> t in v.items && t.id !in v.resolved && t.id in v.selected
    ensures (forall t :: t in v.items ==> t.id in v.resolved || t.id !in v.selected)
              || (exists t :: t in v.items && t.id !in v.resolved && t.id in v.selected
                    && (Uncategorized in t.reasons || LowConfidence in t.reasons)
                    && (t.id !in v.choices || v.choices[t.id] == ""))
            ==> ReviewSelected(v, w) == (v, w, true)
  {
    hide ReviewEach, SelectedItems;
    SelectedItemsForm(v);
    if forall t :: t in v.items ==> t.id in v.resolved || t.id !in v.selected {
      NoneIn(SelectedItems(v));
    } else if t :| t in v.items && t.id !in v.resolved && t.id in v.selected
                     && (Uncategorized in t.reasons || LowConfidence in t.reasons)
                     && (t.id !in v.choices || v.choices[t.id] == "") {
      assert t in SelectedItems(v) && ChoiceFor(v.choices, t.id) == "" && NeedsCategory(t);
    }
  }

  lemma NoneIn(items: seq<Item>)
    ensures (forall t :: t !in items) ==> items == []
  {
    if items != [] {
      assert items[0] in items;
    }
  }

  /** What a bulk review that succeeds leaves behind: the flags of exactly the reviewed rows are dismissed,
      each reviewed row has its chosen category, or keeps what it had where it was kept as listed, and
      nothing else changes; the dialog shows each as what was done with it, and nothing stays ticked. */
  lemma ReviewedExactly(v: View, w: World)
    requires WellFormed(v) && !MissingCategory(SelectedItems(v), v.choices) && ReviewSelected(v, w).2
    ensures var todo, l, l' := SelectedItems(v), w.ledger, ReviewSelected(v, w).1.ledger;
            && l'.dismissed == l.dismissed + Flags(todo) && l'.deleted == l.deleted
            && (forall i :: i in todo ==> i.id in v.choices && CategoryIn(l', i.id) == CategoryGiven(l, i, v.choices))
            && (forall id :: id !in Ids(todo) ==> CategoryIn(l', id) == CategoryIn(l, id))
    ensures var todo, v' := SelectedItems(v), ReviewSelected(v, w).0;
            && v'.items == v.items && v'.choices == v.choices && v'.selected == {}
            && v'.resolved.Keys == v.resolved.Keys + Ids(todo)
            && (forall i :: i in todo ==> i.id in v'.resolved && v'.resolved[i.id] == NoteFor(i, v.choices))
            && (forall id :: id in v.resolved ==> v'.resolved[id] == v.resolved[id])
  {
    hide ReviewSelected, BulkCalls, BulkPlan, PerformAll, FinishAll, SelectedItems, KeptAsListed, MissingCategory,
         CategoryIn, WellFormed, Flags;
    var todo := SelectedItems(v);
    AllPlansFinish(v);
    var k := AttemptLeavesTheRest(v, w);
    var calls := BulkCalls(todo, v.choices);
    assert todo[..|todo|] == todo && todo[|todo|..] == [];
    assert calls[..|calls|] == calls;
    TodoHasChoices(v);
    LedgerAfterPass(w.ledger, todo, v.choices);
    ViewAfterPass(v, v.choices, todo);
  }

  lemma TodoHasChoices(v: View)
    requires WellFormed(v)
    ensures DistinctIds(SelectedItems(v)) && forall i :: i in SelectedItems(v) ==> i.id in v.choices
    ensures v.selected - Ids(SelectedItems(v)) == {}
    ensures v.resolved.Keys !! Ids(SelectedItems(v))
  {
    hide SelectedItems, NeedsCategory;
    SelectedItemsForm(v);
    Ready(v);
    InOrderDistinct(v.items, SelectedItems(v), 0);
  }

  // ---- One row on its own ----

  /** The row is resolved, unticked, and nothing else about the rows changes. */
  ghost predicate ResolvedAs(v: View, v': View, id: int, note: string) {
    && v'.items == v.items && v'.choices == v.choices
    && v'.resolved == v.resolved[id := note] && v'.selected == v.selected - {id}
  }

  /** The row's flags are dismissed and, unless it is kept, its category is the one chosen. */
  ghost predicate Settles(l: Ledger, l': Ledger, item: Item, category: Option<string>) {
    && l'.dismissed == l.dismissed + FlagsOf(item) && l'.deleted == l.deleted
    && l'.category == if category.Some? then l.category[item.id := category.value] else l.category
  }

  lemma {:induction false} FlagsPerformed(l: Ledger, id: int, reasons: seq<Kind>)
    ensures var l' := PerformAll(l, FlagCalls(id, reasons));
            l'.category == l.category && l'.deleted == l.deleted
            && l'.dismissed == l.dismissed + set k | k in reasons && IsFlag(k) :: (id, k)
    ensures |FlagCalls(id, reasons)| <= |reasons|
  {
    var calls := FlagCalls(id, reasons);
    FlagCallsExactly(id, reasons);
    FlagsAfter(l, calls);
    NoCategorySet(l, calls);
    FewerFlags(id, reasons);
    forall k | k in reasons && IsFlag(k)
      ensures (id, k) in Dismissals(calls)
    {
      assert Dismiss(id, k) in calls;
    }
    assert Dismissals(calls) == set k | k in reasons && IsFlag(k) :: (id, k);
  }

  lemma {:induction false} FewerFlags(id: int, reasons: seq<Kind>)
    ensures |FlagCalls(id, reasons)| <= |reasons|
  {
    if reasons == [] {
    } else {
      FewerFlags(id, reasons[1..]);
    }
  }

  lemma {:induction false} NoCategorySet(l: Ledger, calls: seq<Call>)
    requires forall c :: c in calls ==> c.Dismiss?
    ensures PerformAll(l, calls).category == l.category
    decreases |calls|
  {
    if calls == [] {
    } else {
      assert calls[0] in calls;
      NoCategorySet(Perform(l, calls[0]), calls[1..]);
    }
  }

  /** Each button of an open row, with a backend that takes the calls: Accept, offered where a category is
      needed, and Keep, offered elsewhere, set the choice, or keep the listed category, and dismiss the
      row's flags; Delete, offered for a possible duplicate, deletes exactly that row; Skip calls nothing. */
  lemma RowDoneExactly(v: View, l: Ledger, e: Event)
    requires WellFormed(v) && IsRowWork(e) && Open(v, e.index)
    requires !e.Skip? ==> e.a.good > |v.items[e.index].reasons|
    ensures var item := v.items[e.index];
            var (v', l') := Next(v, l, e);
            var needs := Uncategorized in item.reasons || LowConfidence in item.reasons;
            item.id in v.choices && var choice := v.choices[item.id];
            match e
            case Skip(_) => ResolvedAs(v, v', item.id, "Skipped") && l' == l
            case Remove(_, _) =>
              if Duplicate in item.reasons
              then ResolvedAs(v, v', item.id, "Deleted") && l' == l.(deleted := l.deleted + {item.id})
              else (v', l') == (v, l)
            case _ =>
              if needs != e.Accept? then (v', l') == (v, l)
              else if KeptAsListed(item, v.choices)
              then ResolvedAs(v, v', item.id, "Kept") && Settles(l, l', item, None)
              else if choice == "" then (v', l') == (v, l)
              else ResolvedAs(v, v', item.id, "Set to " + choice) && Settles(l, l', item, Some(choice))
  {
    var item := v.items[e.index];
    FlagsPerformed(l, item.id, item.reasons);
    assert item in v.items && item.id in v.choices;
    if e.Accept? || e.Keep? {
      var w := World(l, e.a.good, e.a.lands);
      var choice := v.choices[item.id];
      FlagsPerformed(l.(category := l.category[item.id := choice]), item.id, item.reasons);
      AllMade(w, AcceptPlan(item, v.choices).calls);
      AllMade(w, KeepPlan(item, v.choices).calls);
      SetThenFlags(l, item, choice);
    } else if e.Remove? {
      AllMade(World(l, e.a.good, e.a.lands), [Delete(item.id)]);
      assert [Delete(item.id)][1..] == [];
    }
  }

  lemma SetThenFlags(l: Ledger, item: Item, choice: string)
    ensures PerformAll(l, [SetCategory(item.id, choice)] + FlagCalls(item.id, item.reasons))
         == PerformAll(l.(category := l.category[item.id := choice]), FlagCalls(item.id, item.reasons))
  {
    var rest := FlagCalls(item.id, item.reasons);
    assert ([SetCategory(item.id, choice)] + rest)[1..] == rest;
  }

  lemma AllMade(w: World, calls: seq<Call>)
    ensures |calls| <= w.good ==> InvokeAll(w, calls).1 && InvokeAll(w, calls).0.ledger == PerformAll(w.ledger, calls)
  {
    InvokeAllForm(w, calls);
    assert calls[..|calls|] == calls;
  }

  /** What the other actions change: a tick flips one pending row, Select all ticks exactly the pending
      rows or none, a choice sets one pending row's category, or that of exactly the ticked pending ones, and
      the arrows and clicks move the cursor by one or to the row clicked, never off the list. */
  lemma EditExactly(v: View, l: Ledger, e: Event)
    requires WellFormed(v) && !IsRowWork(e) && !e.ReviewTicked?
    ensures var (v', l') := Next(v, l, e);
            l' == l && v' == v.(active := v'.active, selected := v'.selected, choices := v'.choices)
    ensures var v' := Next(v, l, e).0;
            match e
            case Toggle(id) =>
              v' == v.(selected := v'.selected)
              && forall x :: x in v'.selected <==>
                   if x == id && IsPending(v, x) then x !in v.selected else x in v.selected
            case SelectAll(on) =>
              v' == v.(selected := v'.selected) && forall x :: x in v'.selected <==> on && IsPending(v, x)
            case Choose(id, category) =>
              v' == if IsPending(v, id) then v.(choices := v.choices[id := category]) else v
            case ChooseForSelected(category) =>
              v' == v.(choices := v'.choices) && v'.choices.Keys == v.choices.Keys
              && forall x :: x in v.choices ==>
                   v'.choices[x] == if IsPending(v, x) && x in v.selected then category else v.choices[x]
            case ArrowDown => v' == v.(active := if v.active + 1 < |v.items| then v.active + 1 else v.active)
            case ArrowUp => v' == v.(active := if v.active > 0 then v.active - 1 else 0)
            case ClickRow(index) => v' == v.(active := if index < |v.items| then index else v.active)
            case _ => true
  {
    NotInForm(v.items, v.resolved.Keys);
    SelectedItemsForm(v);
    hide SelectedItems, Pending, NeedsCategory, IsPending, ChoicesFit;
    match e
    case ChooseForSelected(category) =>
      TickedIds(v);
      AllChosen(v);
    case SelectAll(on) => PendingIds(v);
    case Toggle(id) => PendingId(v, id);
    case Choose(id, category) => PendingId(v, id);
    case _ =>
  }

  lemma TickedIds(v: View)
    ensures forall x :: (exists i :: i in SelectedItems(v) && i.id == x) <==> IsPending(v, x) && x in v.selected
  {
    SelectedItemsForm(v);
    hide SelectedItems;
    forall x | IsPending(v, x) && x in v.selected
      ensures exists i :: i in SelectedItems(v) && i.id == x
    {
      var i :| i in v.items && i.id == x;
      assert i in SelectedItems(v);
    }
  }

  lemma AllChosen(v: View)
    requires WellFormed(v)
    ensures forall i :: i in SelectedItems(v) ==> i.id in v.choices
  {
    SelectedItemsForm(v);
    hide SelectedItems, NeedsCategory;
  }

  lemma PendingId(v: View, id: int)
    ensures IsPending(v, id) <==> id in Ids(v.items) && id !in v.resolved
  {
  }

  lemma PendingIds(v: View)
    ensures forall x :: x in Ids(Pending(v)) <==> IsPending(v, x)
  {
    NotInForm(v.items, v.resolved.Keys);
    forall x | IsPending(v, x)
      ensures x in Ids(Pending(v))
    {
      var i :| i in v.items && i.id == x;
      IdOf(Pending(v), i);
    }
  }

  ghost predicate IsPending(v: View, id: int) {
    id !in v.resolved && exists i :: i in v.items && i.id == id
  }

  // ---- From the choices to the rows ----

  function FirstChoice(item: Item): string {
    match item.suggestion
    case Some(suggestion) => suggestion
    case None => if item.category.Some? then item.category.value else ""
  }

  /** The dialog opens with the suggestion of each row, else its listed category, else nothing. */
  lemma {:induction false} InitialChoicesExactly(items: seq<Item>)
    requires DistinctIds(items)
    ensures forall i :: i in items ==> i.id in InitialChoices(items) && InitialChoices(items)[i.id] == FirstChoice(i)
  {
    if items == [] {
    } else {
      var n := |items| - 1;
      InitialChoicesExactly(items[..n]);
      LastChoice(items);
      LastApart(items);
      hide InitialChoices, DistinctIds, FirstChoice;
    }
  }

  lemma LastChoice(items: seq<Item>)
    requires items != []
    ensures var n := |items| - 1;
            InitialChoices(items) == InitialChoices(items[..n])[items[n].id := FirstChoice(items[n])]
  {
  }

  lemma LastApart(items: seq<Item>)
    requires items != [] && DistinctIds(items)
    ensures var n := |items| - 1;
            && DistinctIds(items[..n]) && (forall i :: i in items <==> i in items[..n] || i == items[n])
            && forall i :: i in items[..n] ==> i.id != items[n].id
  {
    var n := |items| - 1;
    assert items == items[..n] + [items[n]];
    forall i | i in items[..n]
      ensures i.id != items[n].id
    {
      var k :| 0 <= k < n && items[..n][k] == i;
      assert items[k] == i;
    }
  }

  /** Ticking everything, picking one category for the ticked rows and reviewing them, with a backend that
      takes the calls: no row is left to review, and every row that was has that category, unless it was
      listed with it, and no flag. */
  lemma ReviewEverything(v: View, l: Ledger, category: string, a: Attempt)
    requires WellFormed(v) && category != ""
    requires var v2 := Next(Next(v, l, SelectAll(true)).0, l, ChooseForSelected(category)).0;
             |BulkCalls(SelectedItems(v2), v2.choices)| <= a.good
    ensures var (v', l') := Run(v, l, [SelectAll(true), ChooseForSelected(category), ReviewTicked(a)]);
            && (forall i :: i in v.items ==> i.id in v'.resolved)
            && (forall i :: i in v.items && i.id !in v.resolved ==>
                  && (CategoryIn(l', i.id) == Some(category)
                      || (i.category == Some(category) && CategoryIn(l', i.id) == CategoryIn(l, i.id)))
                  && forall k :: k in i.reasons && IsFlag(k) ==> (i.id, k) in l'.dismissed)
  {
    var v2, l2 := Next(Next(v, l, SelectAll(true)).0, l, ChooseForSelected(category)).0, ReviewTicked(a);
    hide *;
    EverythingTicked(v, l, category);
    RunThree(v, l, SelectAll(true), ChooseForSelected(category), ReviewTicked(a));
    TickedReview(v2, l, a);
    var w := World(l, a.good, a.lands);
    var k := AttemptLeavesTheRest(v2, w);
    ReviewedExactly(v2, w);
    forall i | i in SelectedItems(v2)
      ensures i.id in Ids(SelectedItems(v2))
      ensures CategoryGiven(l, i, v2.choices) == Some(category)
                || (i.category == Some(category) && CategoryGiven(l, i, v2.choices) == CategoryIn(l, i.id))
      ensures forall k :: k in i.reasons && IsFlag(k) ==> (i.id, k) in Flags(SelectedItems(v2))
    {
      IdOf(SelectedItems(v2), i);
      GivenChoice(l, i, v2.choices);
      FlagIn(SelectedItems(v2), i);
    }
  }

  lemma TickedReview(v: View, l: Ledger, a: Attempt)
    ensures var done := ReviewSelected(v, World(l, a.good, a.lands));
            Next(v, l, ReviewTicked(a)) == (done.0, done.1.ledger)
  {
    hide ReviewSelected;
  }

  lemma GivenChoice(l: Ledger, i: Item, choices: map<int, string>)
    requires i.id in choices
    ensures CategoryGiven(l, i, choices) == Some(choices[i.id])
            || (i.category == Some(choices[i.id]) && CategoryGiven(l, i, choices) == CategoryIn(l, i.id))
  {
    hide CategoryIn;
  }

  lemma FlagIn(items: seq<Item>, i: Item)
    requires i in items
    ensures forall k :: k in i.reasons && IsFlag(k) ==> (i.id, k) in Flags(items)
  {
  }

  lemma IdOf(items: seq<Item>, i: Item)
    requires i in items
    ensures i.id in Ids(items)
  {
  }

  lemma EverythingTicked(v: View, l: Ledger, category: string)
    requires WellFormed(v) && category != ""
    ensures Next(v, l, SelectAll(true)).1 == l
            && Next(Next(v, l, SelectAll(true)).0, l, ChooseForSelected(category)).1 == l
    ensures var v2 := Next(Next(v, l, SelectAll(true)).0, l, ChooseForSelected(category)).0;
            && WellFormed(v2) && !MissingCategory(SelectedItems(v2), v2.choices)
            && v2.items == v.items && v2.resolved == v.resolved
            && (forall i :: i in SelectedItems(v2) <==> i in v.items && i.id !in v.resolved)
            && (forall i :: i in SelectedItems(v2) ==> i.id in v2.choices && v2.choices[i.id] == category)
  {
    var v1 := v.(selected := Ids(Pending(v)));
    var todo := SelectedItems(v1);
    var v2 := v1.(choices := ChooseAll(v.choices, todo, category));
    PendingTicked(v);
    NextKeeps(v, l, SelectAll(true));
    NextKeeps(v1, l, ChooseForSelected(category));
    assert SelectedItems(v2) == todo;
    hide SelectedItems, WellFormed, Pending;
    forall i | i in todo
      ensures i.id in v2.choices && v2.choices[i.id] == category
    {
    }
  }

  lemma PendingTicked(v: View)
    ensures var v1 := v.(selected := Ids(Pending(v)));
            forall i :: i in SelectedItems(v1) <==> i in v.items && i.id !in v.resolved
  {
    var v1 := v.(selected := Ids(Pending(v)));
    NotInForm(v.items, v.resolved.Keys);
    SelectedItemsForm(v1);
    hide SelectedItems;
    forall i | i in v.items && i.id !in v.resolved
      ensures i.id in v1.selected
    {
      IdOf(Pending(v), i);
    }
  }

  lemma RunThree(v: View, l: Ledger, a: Event, b: Event, c: Event)
    ensures var (v1, l1) := Next(v, l, a);
            var (v2, l2) := Next(v1, l1, b);
            Run(v, l, [a, b, c]) == Next(v2, l2, c)
  {
    hide Next;
    assert [a, b, c][1..] == [b, c] && [b, c][1..] == [c] && [c][1..] == [];
    var (v1, l1) := Next(v, l, a);
    var (v2, l2) := Next(v1, l1, b);
    assert Run(v2, l2, [c]) == Next(v2, l2, c);
    assert Run(v1, l1, [b, c]) == Run(v2, l2, [c]);
  }
}
