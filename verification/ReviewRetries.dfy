/** A bulk review that fails and is retried after the person changed the categories of the rows that are
    left. A category call that got through in a failed attempt is made good by the retry when that sets a
    category again; when it keeps the row as it was listed, the call stays behind. */
module ReviewRetries {
  import opened Options
  import opened ReviewInbox

  /** One press of Review: the categories picked by then, and how the backend behaves. */
  datatype Try = Try(choices: map<int, string>, a: Attempt)

  function Pressed(v: View, l: Ledger, t: Try): (View, Ledger, bool) {
    var (v', w', ok) := ReviewSelected(v.(choices := t.choices), World(l, t.a.good, t.a.lands));
    (v', w'.ledger, ok)
  }

  /** Pressing Review again after each failure, with the choices of each press. */
  function RetriesWith(v: View, l: Ledger, tries: seq<Try>): (View, Ledger, bool)
    requires tries != []
    decreases |tries|
  {
    var (v', l', ok) := Pressed(v, l, tries[0]);
    if |tries| == 1 then (v', l', ok) else RetriesWith(v', l', tries[1..])
  }

  ghost predicate Pressable(v: View, choices: map<int, string>) {
    ChoicesFit(v.items, choices) && !MissingCategory(SelectedItems(v), choices)
  }

  /** Each press is one the button allows. */
  ghost predicate AllPressable(v: View, l: Ledger, tries: seq<Try>)
    decreases |tries|
  {
    tries == [] || (Pressable(v, tries[0].choices)
                    && AllPressable(Pressed(v, l, tries[0]).0, Pressed(v, l, tries[0]).1, tries[1..]))
  }

  /** The rows one press finishes: those that are no longer ticked and pending after it. */
  function FinishedBy(v: View, l: Ledger, t: Try): seq<Item> {
    var todo, left := SelectedItems(v), |SelectedItems(Pressed(v, l, t).0)|;
    if left <= |todo| then todo[..|todo| - left] else []
  }

  /** The calls of a failed press that got through for a row it did not finish. */
  function StraysOf(v: View, l: Ledger, t: Try): seq<Call> {
    var calls := BulkCalls(SelectedItems(v), t.choices);
    var done, made := |BulkCalls(FinishedBy(v, l, t), t.choices)|, Made(|calls|, t.a.good, t.a.lands);
    if done <= made then calls[done..made] else []
  }

  function Strays(v: View, l: Ledger, tries: seq<Try>): seq<Call>
    decreases |tries|
  {
    if tries == [] then []
    else
      var (v', l', _) := Pressed(v, l, tries[0]);
      StraysOf(v, l, tries[0]) + Strays(v', l', tries[1..])
  }

  function ChosenFor(choices: map<int, string>, ids: set<int>): map<int, string> {
    map id | id in ids && id in choices :: choices[id]
  }

  /** Every row's choice when it was finished. */
  function Settled(v: View, l: Ledger, tries: seq<Try>): map<int, string>
    requires tries != []
    decreases |tries|
  {
    var t := tries[0];
    if |tries| == 1 then t.choices
    else
      var (v', l', _) := Pressed(v, l, t);
      Settled(v', l', tries[1..]) + ChosenFor(t.choices, Ids(FinishedBy(v, l, t)))
  }

  // ---- Choices matter only for the rows at hand ----

  lemma {:induction false} CallsAgree(todo: seq<Item>, a: map<int, string>, b: map<int, string>)
    requires forall t :: t in todo ==> t.id in a && t.id in b && a[t.id] == b[t.id]
    ensures BulkCalls(todo, a) == BulkCalls(todo, b)
    ensures forall t :: t in todo ==> BulkPlan(t, a) == BulkPlan(t, b)
  {
    if todo == [] {
    } else {
      assert todo[0] in todo;
      CallsAgree(todo[1..], a, b);
      assert todo == [todo[0]] + todo[1..];
    }
  }

  lemma {:induction false} FinishAllAgree(v: View, todo: seq<Item>, a: map<int, string>, b: map<int, string>,
      c: map<int, string>)
    requires forall t :: t in todo ==> BulkPlan(t, a) == BulkPlan(t, b)
    ensures FinishAll(v.(choices := c), a, todo) == FinishAll(v, b, todo).(choices := c)
    ensures FinishAll(v, b, todo).choices == v.choices
    decreases |todo|
  {
    hide BulkPlan;
    if todo == [] {
    } else {
      assert todo[0] in todo;
      var plan := BulkPlan(todo[0], a);
      FinishKeepsChoices(v, todo[0], plan, c);
      hide FinishPlan;
      FinishAllAgree(FinishPlan(v, v.resolved.Keys, todo[0], plan), todo[1..], a, b, c);
    }
  }

  lemma FinishKeepsChoices(v: View, item: Item, plan: Plan, c: map<int, string>)
    ensures FinishPlan(v.(choices := c), v.resolved.Keys, item, plan)
         == FinishPlan(v, v.resolved.Keys, item, plan).(choices := c)
    ensures FinishPlan(v, v.resolved.Keys, item, plan).choices == v.choices
  {
  }

  // ---- Calls of different rows ----

  lemma {:induction false} PerformApart(l: Ledger, a: seq<Call>, b: seq<Call>)
    requires forall x, y :: x in a && y in b ==> x.id != y.id
    ensures PerformAll(PerformAll(l, a), b) == PerformAll(PerformAll(l, b), a)
    decreases |a|
  {
    hide Perform;
    if a == [] {
    } else {
      assert a[0] in a;
      PerformApart(Perform(l, a[0]), a[1..], b);
      PerformFirst(l, b, a[0]);
    }
  }

  /** A call the review may make for this row: it sets no category the row is listed with, unless that is
      a guess to be confirmed. */
  predicate CallFor(item: Item, c: Call) {
    && c.id == item.id && !c.Delete?
    && (c.SetCategory? ==> NeedsCategory(item) || item.category != Some(c.category))
    && (c.Dismiss? ==> c in FlagCalls(item.id, item.reasons))
  }

  ghost predicate CallsFor(todo: seq<Item>, calls: seq<Call>) {
    forall c :: c in calls ==> exists item :: item in todo && CallFor(item, c)
  }

  lemma PlanCallsFor(item: Item, choices: map<int, string>)
    ensures forall c :: c in BulkPlan(item, choices).calls ==> CallFor(item, c)
  {
    FlagCallsForm(item.id, item.reasons);
  }

  lemma {:induction false} BulkCallsFor(todo: seq<Item>, choices: map<int, string>)
    ensures CallsFor(todo, BulkCalls(todo, choices))
  {
    hide BulkPlan, CallFor;
    if todo == [] {
    } else {
      PlanCallsFor(todo[0], choices);
      BulkCallsFor(todo[1..], choices);
      assert todo[0] in todo && forall item :: item in todo[1..] ==> item in todo;
    }
  }

  lemma CallsForSome(some: seq<Item>, todo: seq<Item>, calls: seq<Call>, fewer: seq<Call>)
    requires CallsFor(some, calls) && (forall i :: i in some ==> i in todo) && forall c :: c in fewer ==> c in calls
    ensures CallsFor(todo, fewer)
  {
    hide CallFor;
  }

  // ---- One press ----

  ghost predicate OnePress(v: View, l: Ledger, t: Try) {
    var (v', l', ok) := Pressed(v, l, t);
    var todo, done := SelectedItems(v), FinishedBy(v, l, t);
    var strays := StraysOf(v, l, t);
    && |done| <= |todo| && done == todo[..|done|] && SelectedItems(v') == todo[|done|..]
    && (ok ==> |done| == |todo| && strays == [])
    && WellFormed(v') && v'.items == v.items
    && v' == FinishAll(v, t.choices, done).(choices := t.choices)
    && l' == PerformAll(PerformAll(l, BulkCalls(done, t.choices)), strays)
    && CallsFor(todo[|done|..], strays)
    && forall i :: i in done ==> BulkPlan(i, t.choices).finishes
  }

  lemma PressForm(v: View, l: Ledger, t: Try)
    requires WellFormed(v) && Pressable(v, t.choices)
    ensures OnePress(v, l, t)
  {
    hide WellFormed, ReviewSelected, FinishAll, BulkCalls, BulkPlan, PerformAll, CallFor, MissingCategory,
         SelectedItems;
    var u := v.(choices := t.choices);
    ChoicesAside(v, t.choices);
    var todo := SelectedItems(v);
    var k := AttemptLeavesTheRest(u, World(l, t.a.good, t.a.lands));
    AllPlansFinish(u);
    var done, calls := todo[..k], BulkCalls(todo, t.choices);
    assert k == |todo| ==> done == todo;
    assert FinishedBy(v, l, t) == done;
    BulkCallsConcat(done, todo[k..], t.choices);
    assert done + todo[k..] == todo;
    var n, m := |BulkCalls(done, t.choices)|, Made(|calls|, t.a.good, t.a.lands);
    var strays := StraysOf(v, l, t);
    assert strays == calls[n..m] && calls[..n] == BulkCalls(done, t.choices);
    PerformConcat(l, calls[..n], strays);
    assert calls[..m] == calls[..n] + strays;
    FinishAllAgree(v, done, t.choices, t.choices, t.choices);
    BulkCallsFor(todo[k..], t.choices);
    assert strays == BulkCalls(todo[k..], t.choices)[..m - n];
    CallsForSome(todo[k..], todo[k..], BulkCalls(todo[k..], t.choices), strays);
  }

  lemma ChoicesAside(v: View, choices: map<int, string>)
    requires WellFormed(v) && ChoicesFit(v.items, choices)
    ensures var u := v.(choices := choices);
            WellFormed(u) && SelectedItems(u) == SelectedItems(v) && u.items == v.items
  {
  }

  // ---- All presses ----

  /** The retries form: the dialog is as after one clean pass with the settled choices, and so is the
      ledger but that the stray calls came first. */
  ghost predicate ComesTo(v: View, l: Ledger, tries: seq<Try>)
    requires tries != []
  {
    var (v', l', _) := RetriesWith(v, l, tries);
    var todo, settled := SelectedItems(v), Settled(v, l, tries);
    && v' == FinishAll(v, settled, todo).(choices := tries[|tries| - 1].choices)
    && SelectedItems(v') == []
    && l' == PerformAll(PerformAll(l, Strays(v, l, tries)), BulkCalls(todo, settled))
    && CallsFor(todo, Strays(v, l, tries))
    && forall i :: i in todo ==> i.id in settled && BulkPlan(i, settled).finishes
  }

  lemma {:induction false} RetriesForm(v: View, l: Ledger, tries: seq<Try>)
    requires WellFormed(v) && tries != [] && AllPressable(v, l, tries) && RetriesWith(v, l, tries).2
    ensures ComesTo(v, l, tries)
    decreases |tries|
  {
    hide WellFormed, Pressed, FinishAll, BulkCalls, BulkPlan, PerformAll, CallFor, SelectedItems, StraysOf, FinishedBy,
         ComesTo, CallsFor;
    PressForm(v, l, tries[0]);
    if |tries| == 1 {
      assert tries[1..] == [];
      LastPress(v, l, tries);
    } else {
      var (v', l', _) := Pressed(v, l, tries[0]);
      RetriesForm(v', l', tries[1..]);
      FirstPress(v, l, tries);
    }
  }

  lemma LastPress(v: View, l: Ledger, tries: seq<Try>)
    requires WellFormed(v) && |tries| == 1 && Pressable(v, tries[0].choices) && Pressed(v, l, tries[0]).2
    requires OnePress(v, l, tries[0])
    ensures ComesTo(v, l, tries)
  {
    hide Pressed, FinishAll, BulkCalls, BulkPlan, PerformAll, CallFor, SelectedItems, StraysOf, FinishedBy, DistinctIds;
    var t, todo := tries[0], SelectedItems(v);
    assert todo[..|todo|] == todo && todo[|todo|..] == [];
    assert Strays(v, l, tries) == [] + [] by { assert tries[1..] == []; }
    NothingPerformed(l);
    NothingPerformed(PerformAll(l, BulkCalls(todo, t.choices)));
    SelectedItemsForm(v);
  }

  lemma NothingPerformed(l: Ledger)
    ensures PerformAll(l, []) == l
  {
  }

  lemma FirstPress(v: View, l: Ledger, tries: seq<Try>)
    requires WellFormed(v) && |tries| > 1 && Pressable(v, tries[0].choices) && OnePress(v, l, tries[0])
    requires ComesTo(Pressed(v, l, tries[0]).0, Pressed(v, l, tries[0]).1, tries[1..])
    ensures ComesTo(v, l, tries)
  {
    hide Pressed, FinishAll, BulkCalls, BulkPlan, PerformAll, CallFor, CallsFor, SelectedItems, StraysOf, FinishedBy,
         WellFormed;
    var t, rest, todo := tries[0], tries[1..], SelectedItems(v);
    var (v', l', _) := Pressed(v, l, t);
    var done := FinishedBy(v, l, t);
    var left := todo[|done|..];
    var settled, later := Settled(v, l, tries), Settled(v', l', rest);
    SettledParts(v, done, left, t.choices, later);
    assert done + left == todo;
    CallsAgree(done, settled, t.choices);
    CallsAgree(left, settled, later);
    FinishAllConcat(v, settled, done, left);
    FinishAllAgree(v, done, settled, t.choices, v.choices);
    assert v.(choices := v.choices) == v && FinishAll(v, settled, done) == FinishAll(v, t.choices, done);
    FinishAllAgree(FinishAll(v, t.choices, done), left, later, settled, t.choices);
    BulkCallsConcat(done, left, settled);
    assert SelectedItems(v') == left;
    var first, second := StraysOf(v, l, t), Strays(v', l', rest);
    BulkCallsFor(done, t.choices);
    BothFor(left, first, second);
    LedgerParts(l, BulkCalls(done, t.choices), first, second, BulkCalls(left, later), done, left);
    CallsForSome(left, todo, first + second, first + second);
    assert forall i :: i in todo ==> i in done || i in left;
  }

  lemma BothFor(todo: seq<Item>, a: seq<Call>, b: seq<Call>)
    requires CallsFor(todo, a) && CallsFor(todo, b)
    ensures CallsFor(todo, a + b)
  {
    hide CallFor;
  }

  /** Calls for rows already finished may as well come after the stray calls for the others. */
  lemma LedgerParts(l: Ledger, d: seq<Call>, s: seq<Call>, s': seq<Call>, rest: seq<Call>, done: seq<Item>,
      left: seq<Item>)
    requires CallsFor(done, d) && CallsFor(left, s + s') && forall x, y :: x in done && y in left ==> x.id != y.id
    ensures PerformAll(PerformAll(PerformAll(PerformAll(l, d), s), s'), rest)
         == PerformAll(PerformAll(l, s + s'), d + rest)
  {
    hide PerformAll;
    PerformConcat(PerformAll(l, d), s, s');
    forall x, y | x in d && y in s + s'
      ensures x.id != y.id
    {
      var i :| i in done && CallFor(i, x);
      var j :| j in left && CallFor(j, y);
    }
    PerformApart(l, d, s + s');
    PerformConcat(PerformAll(l, s + s'), d, rest);
  }

  lemma {:induction false} InOrderDistinct(items: seq<Item>, todo: seq<Item>, from: nat)
    requires DistinctIds(items) && InOrder(items, todo, from)
    ensures DistinctIds(todo)
    decreases |todo|
  {
    if todo == [] {
    } else {
      var p := InOrderHead(items, todo, from);
      InOrderDistinct(items, todo[1..], p + 1);
      InOrderApart(items, todo[1..], p + 1);
      forall j | 0 < j < |todo|
        ensures todo[j].id != todo[0].id
      {
        assert todo[1..][j - 1] in todo[1..];
      }
      forall i, j | 0 < i < j < |todo|
        ensures todo[i].id != todo[j].id
      {
        assert todo[i] == todo[1..][i - 1] && todo[j] == todo[1..][j - 1];
      }
    }
  }

  lemma SettledParts(v: View, done: seq<Item>, left: seq<Item>, choices: map<int, string>, later: map<int, string>)
    requires WellFormed(v) && done + left == SelectedItems(v) && ChoicesFit(v.items, choices)
    requires forall i :: i in left ==> i.id in later
    ensures var settled := later + ChosenFor(choices, Ids(done));
            && (forall i :: i in done ==> i.id in settled && i.id in choices && settled[i.id] == choices[i.id])
            && (forall i :: i in left ==> i.id in settled && settled[i.id] == later[i.id])
    ensures forall x, y :: x in done && y in left ==> x.id != y.id
  {
    hide SelectedItems, NeedsCategory, Ids;
    SelectedItemsForm(v);
    Ready(v);
    InOrderDistinct(v.items, SelectedItems(v), 0);
    PartsApart(done, left);
    assert forall x :: x in done ==> x in done + left;
  }

  lemma PartsApart(done: seq<Item>, left: seq<Item>)
    requires DistinctIds(done + left)
    ensures forall x, y :: x in done && y in left ==> x.id != y.id
    ensures forall x :: x in done ==> x.id in Ids(done)
    ensures forall y :: y in left ==> y.id !in Ids(done)
  {
    var todo := done + left;
    forall x, y | x in done && y in left
      ensures x.id != y.id
    {
      var i :| 0 <= i < |done| && done[i] == x;
      var j :| 0 <= j < |left| && left[j] == y;
      assert todo[i] == x && todo[|done| + j] == y;
    }
  }

  // ---- What the stray calls leave behind ----

  function CategoryIn(l: Ledger, id: int): Option<string> {
    if id in l.category then Some(l.category[id]) else None
  }

  /** The category the last of these calls to set one gives this row. */
  function LastSet(calls: seq<Call>, id: int): Option<string> {
    if calls == [] then None
    else
      var later := LastSet(calls[1..], id);
      if later.Some? then later
      else if calls[0].SetCategory? && calls[0].id == id then Some(calls[0].category) else None
  }

  function Dismissals(calls: seq<Call>): set<(int, Kind)> {
    set c | c in calls && c.Dismiss? :: (c.id, c.kind)
  }

  lemma {:induction false} LastSetForm(calls: seq<Call>, id: int)
    ensures LastSet(calls, id).Some? <==> exists c :: c in calls && c.SetCategory? && c.id == id
    ensures LastSet(calls, id).Some? ==> SetCategory(id, LastSet(calls, id).value) in calls
  {
    if calls == [] {
    } else {
      LastSetForm(calls[1..], id);
      assert calls == [calls[0]] + calls[1..];
    }
  }

  lemma {:induction false} CategoryAfter(l: Ledger, calls: seq<Call>, id: int)
    ensures CategoryIn(PerformAll(l, calls), id)
         == if LastSet(calls, id).Some? then LastSet(calls, id) else CategoryIn(l, id)
    decreases |calls|
  {
    if calls == [] {
    } else {
      CategoryAfter(Perform(l, calls[0]), calls[1..], id);
    }
  }

  lemma {:induction false} FlagsAfter(l: Ledger, calls: seq<Call>)
    requires forall c :: c in calls ==> !c.Delete?
    ensures PerformAll(l, calls).dismissed == l.dismissed + Dismissals(calls)
    ensures PerformAll(l, calls).deleted == l.deleted
    decreases |calls|
  {
    if calls == [] {
    } else {
      FlagsAfter(Perform(l, calls[0]), calls[1..]);
      assert calls == [calls[0]] + calls[1..];
    }
  }

  /** The review leaves this row's category alone: it keeps what the inbox listed. */
  predicate Keeps(item: Item, choices: map<int, string>) {
    !NeedsCategory(item) && ChoiceIsCategory(item, choices)
  }

  lemma {:induction false} InBulkCalls(todo: seq<Item>, choices: map<int, string>)
    ensures forall c :: c in BulkCalls(todo, choices) <==> exists i :: i in todo && c in BulkPlan(i, choices).calls
  {
    hide BulkPlan;
    if todo == [] {
    } else {
      InBulkCalls(todo[1..], choices);
      assert forall i :: i in todo <==> i == todo[0] || i in todo[1..];
    }
  }

  lemma PlanSets(item: Item, choices: map<int, string>)
    requires BulkPlan(item, choices).finishes
    ensures (exists c :: c in BulkPlan(item, choices).calls && c.SetCategory?) <==> !Keeps(item, choices)
    ensures forall c :: c in BulkPlan(item, choices).calls ==> c.id == item.id
    ensures forall c :: c in FlagCalls(item.id, item.reasons) ==> c in BulkPlan(item, choices).calls
  {
    FlagCallsForm(item.id, item.reasons);
    if !Keeps(item, choices) {
      assert BulkPlan(item, choices).calls[0].SetCategory?;
    }
  }

  /** A pass sets a category again on exactly the rows it does not keep. */
  lemma SetByPass(todo: seq<Item>, choices: map<int, string>, id: int)
    requires forall i :: i in todo ==> BulkPlan(i, choices).finishes
    ensures LastSet(BulkCalls(todo, choices), id).Some? <==> exists i :: i in todo && i.id == id && !Keeps(i, choices)
  {
    hide BulkPlan, Keeps, LastSet, BulkCalls;
    LastSetForm(BulkCalls(todo, choices), id);
    InBulkCalls(todo, choices);
    forall i | i in todo
      ensures (exists c :: c in BulkPlan(i, choices).calls && c.SetCategory?) <==> !Keeps(i, choices)
      ensures forall c :: c in BulkPlan(i, choices).calls ==> c.id == i.id
    {
      PlanSets(i, choices);
    }
  }

  lemma DismissedByPass(todo: seq<Item>, choices: map<int, string>, calls: seq<Call>)
    requires CallsFor(todo, calls) && forall i :: i in todo ==> BulkPlan(i, choices).finishes
    ensures Dismissals(calls) <= Dismissals(BulkCalls(todo, choices))
  {
    hide BulkPlan, BulkCalls;
    InBulkCalls(todo, choices);
    forall c | c in calls && c.Dismiss?
      ensures c in BulkCalls(todo, choices)
    {
      var i :| i in todo && CallFor(i, c);
      PlanSets(i, choices);
    }
  }

  /** No row the pass keeps was left with another category by the calls made before it. */
  ghost predicate NothingLeftBehind(l: Ledger, todo: seq<Item>, choices: map<int, string>, before: seq<Call>) {
    forall i :: i in todo && Keeps(i, choices) && LastSet(before, i.id).Some? ==>
      LastSet(before, i.id) == CategoryIn(l, i.id)
  }

  lemma SameLedger(a: Ledger, b: Ledger)
    requires a.dismissed == b.dismissed && a.deleted == b.deleted
    requires forall id :: CategoryIn(a, id) == CategoryIn(b, id)
    ensures a == b
  {
    forall id
      ensures id in a.category <==> id in b.category
      ensures id in a.category ==> a.category[id] == b.category[id]
    {
      assert CategoryIn(a, id) == CategoryIn(b, id);
    }
    assert a.category.Keys == b.category.Keys;
    assert a.category == b.category;
  }

  lemma AbsorbedExactlyWhen(l: Ledger, todo: seq<Item>, choices: map<int, string>, before: seq<Call>)
    requires DistinctIds(todo) && CallsFor(todo, before) && forall i :: i in todo ==> BulkPlan(i, choices).finishes
    ensures var clean := BulkCalls(todo, choices);
            PerformAll(PerformAll(l, before), clean) == PerformAll(l, clean) <==>
            NothingLeftBehind(l, todo, choices, before)
  {
    hide BulkPlan, BulkCalls, PerformAll, Dismissals, CategoryIn, LastSet, Keeps;
    var clean := BulkCalls(todo, choices);
    var x := PerformAll(l, before);
    BulkCallsFor(todo, choices);
    FlagsAfter(l, before);
    FlagsAfter(x, clean);
    FlagsAfter(l, clean);
    DismissedByPass(todo, choices, before);
    forall id
      ensures CategoryIn(PerformAll(x, clean), id) == CategoryIn(PerformAll(l, clean), id) <==>
              (LastSet(clean, id).None? && LastSet(before, id).Some? ==> LastSet(before, id) == CategoryIn(l, id))
    {
      CategoryAfter(l, before, id);
      CategoryAfter(x, clean, id);
      CategoryAfter(l, clean, id);
    }
    if NothingLeftBehind(l, todo, choices, before) {
      forall id
        ensures CategoryIn(PerformAll(x, clean), id) == CategoryIn(PerformAll(l, clean), id)
      {
        SetByPass(todo, choices, id);
        LastSetForm(before, id);
      }
      SameLedger(PerformAll(x, clean), PerformAll(l, clean));
    }
    if PerformAll(x, clean) == PerformAll(l, clean) {
      forall i | i in todo && Keeps(i, choices) && LastSet(before, i.id).Some?
        ensures LastSet(before, i.id) == CategoryIn(l, i.id)
      {
        SetByPass(todo, choices, i.id);
        assert CategoryIn(PerformAll(x, clean), i.id) == CategoryIn(PerformAll(l, clean), i.id);
      }
    }
  }

  // ---- The theorems ----

  /** One failure-free press with the settled choices. */
  function OneRun(v: View, l: Ledger, settled: map<int, string>): (View, Ledger, bool) {
    Pressed(v, l, Try(settled, Attempt(|BulkCalls(SelectedItems(v), settled)|, false)))
  }

  lemma {:induction false} SettledFit(v: View, l: Ledger, tries: seq<Try>)
    requires WellFormed(v) && tries != [] && AllPressable(v, l, tries)
    ensures ChoicesFit(v.items, Settled(v, l, tries))
    decreases |tries|
  {
    hide Pressed, FinishedBy, SelectedItems, MissingCategory;
    if |tries| == 1 {
    } else {
      PressForm(v, l, tries[0]);
      var (v', l', _) := Pressed(v, l, tries[0]);
      hide OnePress;
      FitsNext(v, l, tries[0]);
      SettledFit(v', l', tries[1..]);
    }
  }

  lemma FitsNext(v: View, l: Ledger, t: Try)
    requires OnePress(v, l, t)
    ensures WellFormed(Pressed(v, l, t).0) && Pressed(v, l, t).0.items == v.items
  {
  }

  lemma OneRunForm(v: View, l: Ledger, settled: map<int, string>)
    requires WellFormed(v) && ChoicesFit(v.items, settled)
    requires forall i :: i in SelectedItems(v) ==> i.id in settled && BulkPlan(i, settled).finishes
    ensures Pressable(v, settled)
    ensures var todo := SelectedItems(v);
            OneRun(v, l, settled)
            == (FinishAll(v, settled, todo).(choices := settled), PerformAll(l, BulkCalls(todo, settled)), true)
  {
    hide WellFormed, ReviewSelected, FinishAll, BulkCalls, PerformAll, SelectedItems, ChoicesFit;
    var todo := SelectedItems(v);
    NoneMissing(todo, settled);
    var u := v.(choices := settled);
    ChoicesAside(v, settled);
    var calls := BulkCalls(todo, settled);
    var k := AttemptLeavesTheRest(u, World(l, |calls|, false));
    assert todo[..|todo|] == todo && calls[..|calls|] == calls;
    FinishAllAgree(v, todo, settled, settled, settled);
  }

  lemma NoneMissing(todo: seq<Item>, choices: map<int, string>)
    requires forall i :: i in todo ==> BulkPlan(i, choices).finishes
    ensures !MissingCategory(todo, choices)
  {
  }

  /** However many presses fail, and whatever the person picks for the remaining rows in between, once one
      succeeds the dialog is as after a single failure-free press with each row's choice when it was
      finished. The backend is as after that press exactly when no row it keeps as listed was left with
      another category by a call that got through in a failed press. */
  lemma ChangedChoicesComeToOneRun(v: View, l: Ledger, tries: seq<Try>)
    requires WellFormed(v) && tries != [] && AllPressable(v, l, tries) && RetriesWith(v, l, tries).2
    ensures var (v', l', _) := RetriesWith(v, l, tries);
            var settled := Settled(v, l, tries);
            var one := OneRun(v, l, settled);
            && Pressable(v, settled) && one.2
            && v' == one.0.(choices := tries[|tries| - 1].choices) && SelectedItems(v') == []
            && (l' == one.1 <==> NothingLeftBehind(l, SelectedItems(v), settled, Strays(v, l, tries)))
  {
    hide WellFormed, RetriesWith, FinishAll, BulkCalls, BulkPlan, PerformAll, SelectedItems, Strays, Settled, CallsFor,
         NothingLeftBehind, OneRun, AllPressable, Pressable;
    RetriesForm(v, l, tries);
    SettledFit(v, l, tries);
    OneRunForm(v, l, Settled(v, l, tries));
    Ready(v);
    InOrderDistinct(v.items, SelectedItems(v), 0);
    AbsorbedExactlyWhen(l, SelectedItems(v), Settled(v, l, tries), Strays(v, l, tries));
  }

  /** The inbox was listed from this ledger. */
  ghost predicate ListedFrom(items: seq<Item>, l: Ledger) {
    forall i :: i in items && i.category.Some? ==> CategoryIn(l, i.id) == i.category
  }

  /** With an inbox listed from the ledger, the backend is as after that single press exactly when no row
      finally kept as listed had a category call get through in a failed press. */
  lemma LeftBehindExactlyWhen(v: View, l: Ledger, tries: seq<Try>)
    requires WellFormed(v) && tries != [] && AllPressable(v, l, tries) && RetriesWith(v, l, tries).2
    requires ListedFrom(v.items, l)
    ensures var settled := Settled(v, l, tries);
            RetriesWith(v, l, tries).1 == OneRun(v, l, settled).1 <==>
            forall i :: i in SelectedItems(v) && Keeps(i, settled) ==> LastSet(Strays(v, l, tries), i.id).None?
  {
    hide RetriesWith, OneRun, Settled, Strays, SelectedItems, AllPressable, LastSet, ChoicesFit, NeedsCategory;
    ChangedChoicesComeToOneRun(v, l, tries);
    RetriesForm(v, l, tries);
    SelectedItemsForm(v);
    var settled, strays := Settled(v, l, tries), Strays(v, l, tries);
    Ready(v);
    InOrderDistinct(v.items, SelectedItems(v), 0);
    forall i | i in SelectedItems(v) && Keeps(i, settled) && LastSet(strays, i.id).Some?
      ensures LastSet(strays, i.id) != CategoryIn(l, i.id)
    {
      LastSetForm(strays, i.id);
      StrayDiffers(SelectedItems(v), strays, i, LastSet(strays, i.id).value);
      assert i in v.items;
    }
  }

  lemma StrayDiffers(todo: seq<Item>, strays: seq<Call>, item: Item, category: string)
    requires DistinctIds(todo) && CallsFor(todo, strays) && item in todo && !NeedsCategory(item)
    requires SetCategory(item.id, category) in strays
    ensures item.category != Some(category)
  {
    var i :| i in todo && CallFor(i, SetCategory(item.id, category));
    assert i == item;
  }
}
