/** The review inbox: rows to look at, a cursor, ticks for bulk work, and backend calls that can fail
    partway and be retried. */
module ReviewInbox {
  import opened Options

  datatype Kind = Uncategorized | LowConfidence | Duplicate | Large

  datatype Item = Item(id: int, category: Option<string>, reasons: seq<Kind>, suggestion: Option<string>)

  predicate NeedsCategory(item: Item) {
    Uncategorized in item.reasons || LowConfidence in item.reasons
  }

  // ---- The backend ----

  datatype Ledger = Ledger(category: map<int, string>, dismissed: set<(int, Kind)>, deleted: set<int>)

  datatype Call = SetCategory(id: int, category: string) | Dismiss(id: int, kind: Kind) | Delete(id: int)

  function Perform(l: Ledger, call: Call): Ledger {
    match call
    case SetCategory(id, category) => l.(category := l.category[id := category])
    case Dismiss(id, kind) => l.(dismissed := l.dismissed + {(id, kind)})
    case Delete(id) => l.(deleted := l.deleted + {id})
  }

  function PerformAll(l: Ledger, calls: seq<Call>): Ledger
    decreases |calls|
  {
    if calls == [] then l else PerformAll(Perform(l, calls[0]), calls[1..])
  }

  /** The backend for one attempt: `good` more calls succeed, then one fails, and that failed call may
      still have taken effect. */
  datatype World = World(ledger: Ledger, good: nat, lands: bool)

  function Invoke(w: World, call: Call): (World, bool) {
    if w.good > 0 then (w.(ledger := Perform(w.ledger, call), good := w.good - 1), true)
    else (w.(ledger := if w.lands then Perform(w.ledger, call) else w.ledger), false)
  }

  /** Calls made one after the other, up to the first failure. */
  function InvokeAll(w: World, calls: seq<Call>): (World, bool)
    decreases |calls|
  {
    if calls == [] then (w, true)
    else
      var (w', ok) := Invoke(w, calls[0]);
      if ok then InvokeAll(w', calls[1..]) else (w', false)
  }

  // ---- What finishing a row takes ----

  /** The calls a row needs, and whether the row is finished after them. */
  datatype Plan = Plan(calls: seq<Call>, finishes: bool, note: string)

  function FlagCalls(id: int, reasons: seq<Kind>): seq<Call> {
    if reasons == [] then []
    else (if reasons[0].Large? || reasons[0].Duplicate? then [Dismiss(id, reasons[0])] else [])
             + FlagCalls(id, reasons[1..])
  }

  function ChoiceFor(choices: map<int, string>, id: int): string {
    if id in choices then choices[id] else ""
  }

  predicate ChoiceIsCategory(item: Item, choices: map<int, string>) {
    item.id in choices && item.category == Some(choices[item.id])
  }

  function AcceptPlan(item: Item, choices: map<int, string>): Plan {
    var choice := ChoiceFor(choices, item.id);
    if choice == "" then Plan([], false, "")
    else Plan([SetCategory(item.id, choice)] + FlagCalls(item.id, item.reasons), true, "Set to " + choice)
  }

  function KeepPlan(item: Item, choices: map<int, string>): Plan {
    if !ChoiceIsCategory(item, choices) then AcceptPlan(item, choices)
    else Plan(FlagCalls(item.id, item.reasons), true, "Kept")
  }

  function RemovePlan(item: Item): Plan {
    Plan([Delete(item.id)], true, "Deleted")
  }

  /** What the bulk review does with one row. */
  function BulkPlan(item: Item, choices: map<int, string>): Plan {
    if NeedsCategory(item) || !ChoiceIsCategory(item, choices) then AcceptPlan(item, choices)
      else KeepPlan(item, choices)
  }

  // ---- The dialog ----

  datatype View = View(items: seq<Item>, active: nat, selected: set<int>, resolved: map<int, string>,
      choices: map<int, string>)

  function Opened(items: seq<Item>): View {
    View(items, 0, {}, map[], InitialChoices(items))
  }

  function InitialChoices(items: seq<Item>): map<int, string> {
    if items == [] then map[]
    else
      var last := items[|items| - 1];
      InitialChoices(items[..|items| - 1])[last.id :=
        if last.suggestion.Some? then last.suggestion.value
        else if last.category.Some? then last.category.value else ""]
  }

  function Pending(v: View): seq<Item> {
    NotIn(v.items, v.resolved.Keys)
  }

  function NotIn(items: seq<Item>, resolved: set<int>): seq<Item> {
    if items == [] then []
    else if items[0].id in resolved then NotIn(items[1..], resolved)
    else [items[0]] + NotIn(items[1..], resolved)
  }

  function Ticked(items: seq<Item>, selected: set<int>): seq<Item> {
    if items == [] then []
    else if items[0].id in selected then [items[0]] + Ticked(items[1..], selected)
    else Ticked(items[1..], selected)
  }

  function SelectedItems(v: View): seq<Item> {
    Ticked(Pending(v), v.selected)
  }

  predicate MissingCategory(items: seq<Item>, choices: map<int, string>) {
    exists item :: item in items && NeedsCategory(item) && ChoiceFor(choices, item.id) == ""
  }

  function PositionOf(items: seq<Item>, id: int): (p: int)
    ensures -1 <= p < |items|
    ensures p >= 0 ==> items[p].id == id
    ensures p == -1 ==> forall k :: 0 <= k < |items| ==> items[k].id != id
  {
    if items == [] then -1
    else if items[0].id == id then 0
    else
      var rest := PositionOf(items[1..], id);
      if rest == -1 then -1 else rest + 1
  }

  /** The first row at or after `from` whose id is not in `seen`, or -1. */
  function NextOpen(items: seq<Item>, from: nat, seen: set<int>): (p: int)
    requires from <= |items|
    ensures p == -1 ==> forall k :: from <= k < |items| ==> items[k].id in seen
    ensures p != -1 ==> from <= p < |items| && items[p].id !in seen && forall k :: from <= k < p ==> items[k].id in seen
    decreases |items| - from
  {
    if from == |items| then -1 else if items[from].id !in seen then from else NextOpen(items, from + 1, seen)
  }

  /** `finish`: the row is resolved and unticked, and the cursor moves on, as far as the handler's own
      snapshot of the resolved rows can tell. */
  function Finish(v: View, seen: set<int>, id: int, note: string): View {
    var next := NextOpen(v.items, PositionOf(v.items, id) + 1, seen);
    v.(resolved := v.resolved[id := note], selected := v.selected - {id},
       active := if next >= 0 then next else v.active)
  }

  function FinishPlan(v: View, seen: set<int>, item: Item, plan: Plan): View {
    if plan.finishes then Finish(v, seen, item.id, plan.note) else v
  }

  /** One row on its own: its calls, then finish if none failed. */
  function Work(v: View, w: World, item: Item, plan: Plan): (View, World, bool) {
    var (w', ok) := InvokeAll(w, plan.calls);
    (if ok then FinishPlan(v, v.resolved.Keys, item, plan) else v, w', ok)
  }

  /** The bulk loop: every row by the choices and resolved rows the handler saw when it started. */
  function ReviewEach(v: View, seen: set<int>, choices: map<int, string>, todo: seq<Item>, w: World)
      : (View, World, bool)
    decreases |todo|
  {
    if todo == [] then (v, w, true)
    else
      var plan := BulkPlan(todo[0], choices);
      var (w', ok) := InvokeAll(w, plan.calls);
      if ok then ReviewEach(FinishPlan(v, seen, todo[0], plan), seen, choices, todo[1..], w') else (v, w', false)
  }

  function ReviewSelected(v: View, w: World): (View, World, bool) {
    var todo := SelectedItems(v);
    if todo == [] || MissingCategory(todo, v.choices) then (v, w, true)
    else ReviewEach(v, v.resolved.Keys, v.choices, todo, w)
  }

  /** The backend as the dialog meets it during one attempt. */
  class Backend {
    var ledger: Ledger
    var good: nat
    var lands: bool

    function Now(): World
      reads this
    {
      World(ledger, good, lands)
    }

    constructor (ledger: Ledger, good: nat, lands: bool)
      ensures Now() == World(ledger, good, lands)
    {
      this.ledger, this.good, this.lands := ledger, good, lands;
    }

    method Make(call: Call) returns (ok: bool)
      modifies this
      ensures (Now(), ok) == Invoke(old(Now()), call)
    {
      if good > 0 {
        ledger := Perform(ledger, call);
        good := good - 1;
        ok := true;
      } else {
        if lands {
          ledger := Perform(ledger, call);
        }
        ok := false;
      }
    }
  }

  class Dialog {
    const items: seq<Item>
    var active: nat
    var selected: set<int>
    var resolved: map<int, string>
    var choices: map<int, string>

    function Now(): View
      reads this
    {
      View(items, active, selected, resolved, choices)
    }

    constructor (items: seq<Item>)
      ensures Now() == Opened(items)
    {
      this.items := items;
      active, selected, resolved, choices := 0, {}, map[], InitialChoices(items);
    }

    method Toggle(id: int)
      modifies this`selected
      ensures selected == if id in old(selected) then old(selected) - {id} else old(selected) + {id}
    {
      if id in selected {
        selected := selected - {id};
      } else {
        selected := selected + {id};
      }
    }

    method FinishRow(seen: set<int>, id: int, note: string)
      modifies this
      ensures Now() == Finish(old(Now()), seen, id, note)
    {
      resolved := resolved[id := note];
      selected := selected - {id};
      var from := PositionOf(items, id);
      var nextIndex := NextOpen(items, from + 1, seen);
      if nextIndex >= 0 {
        active := nextIndex;
      }
    }

    /** A row's calls, one by one; the first failure stops the row. */
    method MakeAll(backend: Backend, calls: seq<Call>) returns (ok: bool)
      modifies backend
      ensures (backend.Now(), ok) == InvokeAll(old(backend.Now()), calls)
    {
      var i := 0;
      while i < |calls|
        invariant 0 <= i <= |calls|
        invariant InvokeAll(old(backend.Now()), calls) == InvokeAll(backend.Now(), calls[i..])
      {
        ok := backend.Make(calls[i]);
        if !ok {
          return false;
        }
        assert calls[i..][1..] == calls[i + 1..];
        i := i + 1;
      }
      ok := true;
    }

    method Review(backend: Backend) returns (ok: bool)
      modifies this, backend
      ensures (Now(), backend.Now(), ok) == ReviewSelected(old(Now()), old(backend.Now()))
    {
      var seen, chosen := resolved.Keys, choices;
      var todo := SelectedItems(Now());
      if todo == [] || MissingCategory(todo, chosen) {
        return true;
      }
      var i := 0;
      while i < |todo|
        invariant 0 <= i <= |todo|
        invariant ReviewEach(old(Now()), seen, chosen, todo, old(backend.Now()))
               == ReviewEach(Now(), seen, chosen, todo[i..], backend.Now())
      {
        var plan := BulkPlan(todo[i], chosen);
        ok := MakeAll(backend, plan.calls);
        if !ok {
          return false;
        }
        if plan.finishes {
          FinishRow(seen, todo[i].id, plan.note);
        }
        assert todo[i..][1..] == todo[i + 1..];
        i := i + 1;
      }
      ok := true;
    }
  }

  // ---- Calls that are repeated or reordered ----

  predicate Conflict(a: Call, b: Call) {
    a.SetCategory? && b.SetCategory? && a.id == b.id && a.category != b.category
  }

  /** Repeating a call, or making two that do not conflict in either order, changes nothing. */
  lemma PerformCommutes(l: Ledger, a: Call, b: Call)
    ensures !Conflict(a, b) ==> Perform(Perform(l, a), b) == Perform(Perform(l, b), a)
    ensures Perform(Perform(l, a), a) == Perform(l, a)
  {
  }

  ghost predicate Compatible(calls: seq<Call>) {
    forall a, b :: a in calls && b in calls ==> !Conflict(a, b)
  }

  lemma CompatibleTail(calls: seq<Call>)
    requires Compatible(calls) && calls != []
    ensures Compatible(calls[1..])
    ensures forall c :: c in calls[1..] ==> c in calls
  {
  }

  lemma {:induction false} PerformFirst(l: Ledger, calls: seq<Call>, a: Call)
    requires forall b :: b in calls ==> !Conflict(a, b)
    ensures PerformAll(Perform(l, a), calls) == Perform(PerformAll(l, calls), a)
    decreases |calls|
  {
    hide Perform, Conflict;
    if calls == [] {
    } else {
      PerformCommutes(l, a, calls[0]);
      assert calls[0] in calls;
      PerformFirst(Perform(l, calls[0]), calls[1..], a);
    }
  }

  /** A call made once already is absorbed by a later pass that makes it again. */
  lemma {:induction false} AbsorbOne(l: Ledger, calls: seq<Call>, a: Call)
    requires Compatible(calls) && a in calls
    ensures PerformAll(Perform(l, a), calls) == PerformAll(l, calls)
    decreases |calls|
  {
    hide Perform, Conflict;
    PerformCommutes(l, a, a);
    if calls[0] == a {
    } else {
      CompatibleTail(calls);
      assert a in calls[1..] by {
        assert calls == [calls[0]] + calls[1..];
      }
      assert calls[0] in calls;
      PerformCommutes(l, a, calls[0]);
      AbsorbOne(Perform(l, calls[0]), calls[1..], a);
    }
  }

  lemma {:induction false} AbsorbAll(l: Ledger, calls: seq<Call>, made: seq<Call>)
    requires Compatible(calls) && forall a :: a in made ==> a in calls
    ensures PerformAll(PerformAll(l, made), calls) == PerformAll(l, calls)
    decreases |made|
  {
    hide Perform, Conflict, Compatible;
    if made == [] {
    } else {
      assert made[0] in made;
      assert forall a :: a in made[1..] ==> a in made;
      AbsorbAll(Perform(l, made[0]), calls, made[1..]);
      AbsorbOne(l, calls, made[0]);
    }
  }

  lemma {:induction false} PerformConcat(l: Ledger, a: seq<Call>, b: seq<Call>)
    ensures PerformAll(l, a + b) == PerformAll(PerformAll(l, a), b)
    decreases |a|
  {
    hide Perform;
    if a == [] {
      assert a + b == b;
    } else {
      assert (a + b)[1..] == a[1..] + b;
      PerformConcat(Perform(l, a[0]), a[1..], b);
    }
  }

  /** Finishing what a failed attempt left, from wherever it stopped, comes to the whole pass. */
  lemma RetryComesToTheSame(l: Ledger, first: seq<Call>, rest: seq<Call>, m: nat)
    requires Compatible(rest) && |first| <= m <= |first + rest|
    ensures PerformAll(PerformAll(l, (first + rest)[..m]), rest) == PerformAll(l, first + rest)
  {
    hide Compatible;
    var extra := rest[..m - |first|];
    assert (first + rest)[..m] == first + extra;
    PerformConcat(l, first, extra);
    forall a | a in extra ensures a in rest {
    }
    AbsorbAll(PerformAll(l, first), rest, extra);
    PerformConcat(l, first, rest);
  }

  /** How many of n calls get through. */
  function Made(n: nat, good: nat, lands: bool): (m: nat)
    ensures m <= n
  {
    if n <= good then n else good + if lands then 1 else 0
  }

  /** An attempt's calls stop somewhere: everything before was made, and maybe the one that failed. */
  lemma {:induction false} InvokeAllForm(w: World, calls: seq<Call>)
    ensures var m := Made(|calls|, w.good, w.lands);
            InvokeAll(w, calls).0.ledger == PerformAll(w.ledger, calls[..m])
    ensures InvokeAll(w, calls).1 <==> |calls| <= w.good
    ensures InvokeAll(w, calls).1 ==> InvokeAll(w, calls).0.good == w.good - |calls|
    ensures InvokeAll(w, calls).0.lands == w.lands
    decreases |calls|
  {
    hide Perform;
    if calls == [] {
    } else {
      var m := Made(|calls|, w.good, w.lands);
      assert calls[..1][1..] == [];
      if w.good > 0 {
        InvokeAllForm(Invoke(w, calls[0]).0, calls[1..]);
        assert calls[..m][1..] == calls[1..][..m - 1];
      } else {
        assert PerformAll(w.ledger, calls[..0]) == w.ledger;
        assert PerformAll(Perform(w.ledger, calls[0]), []) == Perform(w.ledger, calls[0]);
      }
    }
  }

  // ---- The calls of a bulk review ----

  function BulkCalls(todo: seq<Item>, choices: map<int, string>): seq<Call> {
    if todo == [] then [] else BulkPlan(todo[0], choices).calls + BulkCalls(todo[1..], choices)
  }

  ghost predicate DistinctIds(items: seq<Item>) {
    forall i, j :: 0 <= i < j < |items| ==> items[i].id != items[j].id
  }

  lemma {:induction false} FlagCallsForm(id: int, reasons: seq<Kind>)
    ensures forall c :: c in FlagCalls(id, reasons) ==> c.Dismiss? && c.id == id
  {
    if reasons == [] {
    } else {
      FlagCallsForm(id, reasons[1..]);
    }
  }

  lemma PlanCallsForm(item: Item, choices: map<int, string>)
    ensures forall c :: c in BulkPlan(item, choices).calls ==>
      c.id == item.id && (c.SetCategory? ==> c.category == ChoiceFor(choices, item.id))
  {
    FlagCallsForm(item.id, item.reasons);
  }

  lemma {:induction false} BulkCallsForm(todo: seq<Item>, choices: map<int, string>)
    ensures forall c :: c in BulkCalls(todo, choices) ==> (c.SetCategory? ==> c.category == ChoiceFor(choices, c.id))
    ensures Compatible(BulkCalls(todo, choices))
  {
    hide BulkPlan;
    if todo == [] {
    } else {
      PlanCallsForm(todo[0], choices);
      BulkCallsForm(todo[1..], choices);
    }
  }

  lemma {:induction false} BulkCallsConcat(a: seq<Item>, b: seq<Item>, choices: map<int, string>)
    ensures BulkCalls(a + b, choices) == BulkCalls(a, choices) + BulkCalls(b, choices)
  {
    hide BulkPlan;
    if a == [] {
      assert a + b == b;
    } else {
      assert (a + b)[1..] == a[1..] + b;
      BulkCallsConcat(a[1..], b, choices);
    }
  }

  // ---- Finishing rows in order ----

  /** The rows of `todo` finished one after the other, each seeing everything resolved so far. */
  function FinishAll(v: View, choices: map<int, string>, todo: seq<Item>): View
    decreases |todo|
  {
    if todo == [] then v
    else FinishAll(FinishPlan(v, v.resolved.Keys, todo[0], BulkPlan(todo[0], choices)), choices, todo[1..])
  }

  /** `todo` lists rows of `items` from position `from` on, in their order. */
  ghost predicate InOrder(items: seq<Item>, todo: seq<Item>, from: nat)
    decreases |todo|
  {
    todo == [] || exists p :: from <= p < |items| && items[p] == todo[0] && InOrder(items, todo[1..], p + 1)
  }

  /** The snapshot is still right about every row from position `from` on. */
  ghost predicate Agrees(v: View, seen: set<int>, from: nat) {
    forall p :: from <= p < |v.items| ==> (v.items[p].id in seen <==> v.items[p].id in v.resolved)
  }

  lemma PositionFound(items: seq<Item>, p: nat)
    requires DistinctIds(items) && p < |items|
    ensures PositionOf(items, items[p].id) == p
  {
  }

  lemma {:induction false} NextOpenAgrees(items: seq<Item>, from: nat, a: set<int>, b: set<int>)
    requires from <= |items| && forall p :: from <= p < |items| ==> (items[p].id in a <==> items[p].id in b)
    ensures NextOpen(items, from, a) == NextOpen(items, from, b)
    decreases |items| - from
  {
    if from == |items| {
    } else {
      NextOpenAgrees(items, from + 1, a, b);
    }
  }

  /** A stale snapshot finishes a row just as a fresh one would, as long as it is right about later rows. */
  lemma StaleIsHarmless(v: View, seen: set<int>, p: nat, plan: Plan)
    requires DistinctIds(v.items) && p < |v.items| && Agrees(v, seen, p + 1)
    ensures FinishPlan(v, seen, v.items[p], plan) == FinishPlan(v, v.resolved.Keys, v.items[p], plan)
  {
    PositionFound(v.items, p);
    NextOpenAgrees(v.items, p + 1, seen, v.resolved.Keys);
  }

  /** When a row after position p is still to be reviewed, the cursor is on the first such row. */
  ghost predicate CursorOnNext(v: View, p: nat) {
    (exists q :: p < q < |v.items| && v.items[q].id !in v.resolved) ==>
      && p < v.active < |v.items| && v.items[v.active].id !in v.resolved
      && forall q :: p < q < v.active ==> v.items[q].id in v.resolved
  }

  /** After a row is finished the cursor is on the first later row still to be reviewed, when there is
      one, and otherwise stays where it was. */
  lemma FinishMovesCursor(v: View, seen: set<int>, p: nat, note: string)
    requires DistinctIds(v.items) && p < |v.items| && Agrees(v, seen, p + 1)
    ensures var v' := Finish(v, seen, v.items[p].id, note);
            && CursorOnNext(v', p)
            && ((forall q :: p < q < |v'.items| ==> v'.items[q].id in v'.resolved) ==> v'.active == v.active)
  {
    PositionFound(v.items, p);
    assert forall q :: p < q < |v.items| ==> v.items[q].id != v.items[p].id;
  }

  lemma InOrderHead(items: seq<Item>, todo: seq<Item>, from: nat) returns (p: nat)
    requires InOrder(items, todo, from) && todo != []
    ensures from <= p < |items| && items[p] == todo[0] && InOrder(items, todo[1..], p + 1)
  {
    p :| from <= p < |items| && items[p] == todo[0] && InOrder(items, todo[1..], p + 1);
  }

  /** The state a pass leaves when it finished the first k rows and made the first m calls. */
  ghost predicate Stopped(v: View, choices: map<int, string>, todo: seq<Item>, l: Ledger, v': View, l': Ledger,
      k: nat, m: nat) {
    && k <= |todo| && |BulkCalls(todo[..k], choices)| <= m <= |BulkCalls(todo, choices)|
    && v' == FinishAll(v, choices, todo[..k])
    && l' == PerformAll(l, BulkCalls(todo, choices)[..m])
  }

  lemma StoppedAtOnce(v: View, choices: map<int, string>, todo: seq<Item>, l: Ledger, l': Ledger, m: nat)
    requires todo != [] && m <= |BulkPlan(todo[0], choices).calls|
    requires l' == PerformAll(l, BulkPlan(todo[0], choices).calls[..m])
    ensures Stopped(v, choices, todo, l, v, l', 0, m)
  {
    hide BulkPlan, PerformAll;
    var calls := BulkPlan(todo[0], choices).calls;
    assert todo[..0] == [];
    assert BulkCalls(todo, choices)[..m] == calls[..m];
  }

  lemma StoppedLater(v: View, choices: map<int, string>, todo: seq<Item>, l: Ledger, v1: View, l1: Ledger, v': View,
      l': Ledger, k: nat, m: nat)
    requires todo != []
    requires v1 == FinishPlan(v, v.resolved.Keys, todo[0], BulkPlan(todo[0], choices))
    requires l1 == PerformAll(l, BulkPlan(todo[0], choices).calls)
    requires Stopped(v1, choices, todo[1..], l1, v', l', k, m)
    ensures Stopped(v, choices, todo, l, v', l', k + 1, |BulkPlan(todo[0], choices).calls| + m)
  {
    hide BulkPlan, PerformAll, FinishPlan;
    var calls, rest := BulkPlan(todo[0], choices).calls, BulkCalls(todo[1..], choices);
    assert todo[..k + 1][1..] == todo[1..][..k] && todo[..k + 1][0] == todo[0];
    assert BulkCalls(todo, choices)[..|calls| + m] == calls + rest[..m];
    PerformConcat(l, calls, rest[..m]);
  }

  /** What one pass over `todo` does: some number k of rows finished, exactly as if each had been
      finished with up-to-date knowledge, and the calls made up to some point m past theirs. */
  lemma {:induction false} ReviewEachForm(v: View, seen: set<int>, choices: map<int, string>, todo: seq<Item>,
      w: World, from: nat)
    returns (k: nat, m: nat)
    requires DistinctIds(v.items) && InOrder(v.items, todo, from) && Agrees(v, seen, from)
    ensures var (v', w', ok) := ReviewEach(v, seen, choices, todo, w);
            && Stopped(v, choices, todo, w.ledger, v', w'.ledger, k, m)
            && (if ok then k == |todo| && m == |BulkCalls(todo, choices)| else k < |todo|)
            && m == Made(|BulkCalls(todo, choices)|, w.good, w.lands)
            && (|BulkCalls(todo, choices)| <= w.good ==> ok)
    decreases |todo|
  {
    hide BulkPlan, PerformAll, InvokeAll, FinishPlan, Agrees, InOrder, DistinctIds, Stopped;
    if todo == [] {
      k, m := 0, 0;
      NothingToDo(v, choices, w.ledger);
    } else {
      var p := InOrderHead(v.items, todo, from);
      var plan := BulkPlan(todo[0], choices);
      InvokeAllForm(w, plan.calls);
      var n := Made(|plan.calls|, w.good, w.lands);
      var (w', ok) := InvokeAll(w, plan.calls);
      if !ok {
        k, m := 0, n;
        StoppedAtOnce(v, choices, todo, w.ledger, w'.ledger, n);
      } else {
        assert plan.calls[..|plan.calls|] == plan.calls;
        AgreesLater(v, seen, from, p);
        StaleIsHarmless(v, seen, p, plan);
        FinishKeepsLater(v, seen, p, plan);
        var v1 := FinishPlan(v, seen, todo[0], plan);
        var k', m' := ReviewEachForm(v1, seen, choices, todo[1..], w', p + 1);
        k, m := k' + 1, |plan.calls| + m';
        var end := ReviewEach(v1, seen, choices, todo[1..], w');
        StoppedLater(v, choices, todo, w.ledger, v1, w'.ledger, end.0, end.1.ledger, k', m');
      }
    }
  }

  lemma NothingToDo(v: View, choices: map<int, string>, l: Ledger)
    ensures Stopped(v, choices, [], l, v, l, 0, 0)
  {
    var none: seq<Item> := [];
    assert none[..0] == [] && BulkCalls(none, choices)[..0] == [];
  }

  lemma AgreesLater(v: View, seen: set<int>, from: nat, p: nat)
    requires Agrees(v, seen, from) && from <= p
    ensures Agrees(v, seen, p) && Agrees(v, seen, p + 1)
  {
  }

  lemma FinishKeepsLater(v: View, seen: set<int>, p: nat, plan: Plan)
    requires DistinctIds(v.items) && p < |v.items| && Agrees(v, seen, p)
    ensures var v' := FinishPlan(v, seen, v.items[p], plan);
            v'.items == v.items && v'.choices == v.choices && Agrees(v', seen, p + 1)
  {
  }

  // ---- The dialog's invariant ----

  function Ids(items: seq<Item>): (ids: set<int>)
    ensures forall k :: 0 <= k < |items| ==> items[k].id in ids
  {
    set item | item in items :: item.id
  }

  /** How the inbox is built: a row without a category says so, and only such a row has a suggestion. */
  predicate Listed(item: Item) {
    && (item.category.None? ==> Uncategorized in item.reasons)
    && (item.suggestion.Some? ==> item.category.None?)
  }

  /** Every row has a choice, and a blank one only where a category is still to be picked. */
  ghost predicate ChoicesFit(items: seq<Item>, choices: map<int, string>) {
    forall item :: item in items ==>
      Listed(item) && item.id in choices
      && (choices[item.id] == "" ==> NeedsCategory(item) || item.category == Some(""))
  }

  ghost predicate WellFormed(v: View) {
    && DistinctIds(v.items) && ChoicesFit(v.items, v.choices)
    && v.resolved.Keys <= Ids(v.items)
    && v.selected <= Ids(v.items) - v.resolved.Keys
    && (v.items != [] ==> v.active < |v.items|)
  }

  lemma {:induction false} InitialChoicesFit(items: seq<Item>)
    requires DistinctIds(items) && forall item :: item in items ==> Listed(item)
    ensures ChoicesFit(items, InitialChoices(items))
  {
    if items == [] {
    } else {
      var n := |items| - 1;
      InitialChoicesFit(items[..n]);
      forall item | item in items
        ensures Listed(item) && item.id in InitialChoices(items)
                && (InitialChoices(items)[item.id] == "" ==> NeedsCategory(item) || item.category == Some(""))
      {
        if item != items[n] {
          var k :| 0 <= k < |items| && items[k] == item;
          assert items[..n][k] == item;
        }
      }
    }
  }

  lemma {:induction false} NotInForm(items: seq<Item>, resolved: set<int>)
    ensures forall t :: t in NotIn(items, resolved) <==> t in items && t.id !in resolved
  {
    if items == [] {
    } else {
      NotInForm(items[1..], resolved);
      assert items == [items[0]] + items[1..];
    }
  }

  lemma {:induction false} TickedForm(items: seq<Item>, selected: set<int>)
    ensures forall t :: t in Ticked(items, selected) <==> t in items && t.id in selected
  {
    if items == [] {
    } else {
      TickedForm(items[1..], selected);
      assert items == [items[0]] + items[1..];
    }
  }

  lemma SelectedItemsForm(v: View)
    ensures forall t :: t in SelectedItems(v) <==> t in v.items && t.id !in v.resolved && t.id in v.selected
  {
    NotInForm(v.items, v.resolved.Keys);
    TickedForm(Pending(v), v.selected);
  }

  lemma {:induction false} InOrderShift(items: seq<Item>, todo: seq<Item>, from: nat)
    requires items != [] && InOrder(items[1..], todo, from)
    ensures InOrder(items, todo, from + 1)
    decreases |todo|
  {
    if todo == [] {
    } else {
      var p := InOrderHead(items[1..], todo, from);
      InOrderShift(items, todo[1..], p + 1);
      assert items[p + 1] == todo[0];
    }
  }

  lemma InOrderFrom(items: seq<Item>, todo: seq<Item>, from: nat, later: nat)
    requires InOrder(items, todo, later) && from <= later
    ensures InOrder(items, todo, from)
  {
  }

  /** The rows a bulk review takes up are in the order of the list. */
  lemma {:induction false} TickedInOrder(items: seq<Item>, resolved: set<int>, selected: set<int>)
    ensures InOrder(items, Ticked(NotIn(items, resolved), selected), 0)
  {
    if items == [] {
    } else {
      TickedInOrder(items[1..], resolved, selected);
      var rest := Ticked(NotIn(items[1..], resolved), selected);
      InOrderShift(items, rest, 0);
      var todo := Ticked(NotIn(items, resolved), selected);
      if items[0].id !in resolved && items[0].id in selected {
        assert NotIn(items, resolved)[1..] == NotIn(items[1..], resolved);
        assert todo == [items[0]] + rest;
        assert todo[1..] == rest;
      } else {
        if items[0].id !in resolved {
          assert NotIn(items, resolved)[1..] == NotIn(items[1..], resolved);
        }
        assert todo == rest;
        InOrderFrom(items, rest, 0, 1);
      }
    }
  }

  /** Resolving and unticking a row takes exactly that row out of the pending ticked ones. */
  lemma {:induction false} TickedAfterFinish(items: seq<Item>, resolved: set<int>, selected: set<int>, id: int)
    ensures Ticked(NotIn(items, resolved + {id}), selected - {id})
             == NotIn(Ticked(NotIn(items, resolved), selected), {id})
  {
    if items == [] {
    } else {
      TickedAfterFinish(items[1..], resolved, selected, id);
      var i := items[0].id;
      var rest := NotIn(items[1..], resolved);
      if i !in resolved {
        assert NotIn(items, resolved)[1..] == rest;
        if i != id {
          assert NotIn(items, resolved + {id})[1..] == NotIn(items[1..], resolved + {id});
        }
        if i in selected {
          assert Ticked(NotIn(items, resolved), selected) == [items[0]] + Ticked(rest, selected);
          assert ([items[0]] + Ticked(rest, selected))[1..] == Ticked(rest, selected);
        }
      }
    }
  }

  lemma {:induction false} NotInAll(items: seq<Item>, resolved: set<int>)
    requires forall t :: t in items ==> t.id !in resolved
    ensures NotIn(items, resolved) == items
  {
    if items == [] {
    } else {
      NotInAll(items[1..], resolved);
    }
  }

  lemma {:induction false} InOrderApart(items: seq<Item>, todo: seq<Item>, from: nat)
    requires DistinctIds(items) && InOrder(items, todo, from)
    ensures forall t :: t in todo ==> exists q :: from <= q < |items| && items[q] == t
    decreases |todo|
  {
    if todo == [] {
    } else {
      var p := InOrderHead(items, todo, from);
      InOrderApart(items, todo[1..], p + 1);
      assert todo == [todo[0]] + todo[1..];
    }
  }

  lemma AllPlansFinish(v: View)
    requires WellFormed(v) && !MissingCategory(SelectedItems(v), v.choices)
    ensures forall t :: t in SelectedItems(v) ==> BulkPlan(t, v.choices).finishes
  {
    SelectedItemsForm(v);
    forall t | t in SelectedItems(v)
      ensures BulkPlan(t, v.choices).finishes
    {
      assert t in v.items;
      assert !(NeedsCategory(t) && ChoiceFor(v.choices, t.id) == "");
    }
  }

  lemma FinishKeepsWellFormed(v: View, seen: set<int>, id: int, note: string)
    requires WellFormed(v) && id in Ids(v.items)
    ensures WellFormed(Finish(v, seen, id, note))
    ensures Finish(v, seen, id, note).resolved.Keys == v.resolved.Keys + {id}
  {
    hide ChoicesFit, DistinctIds;
  }

  /** Finishing the first pending ticked row leaves the others pending and ticked. */
  lemma FinishFirst(v: View)
    requires WellFormed(v) && SelectedItems(v) != []
    requires BulkPlan(SelectedItems(v)[0], v.choices).finishes
    ensures var todo := SelectedItems(v);
            var v' := FinishPlan(v, v.resolved.Keys, todo[0], BulkPlan(todo[0], v.choices));
            && WellFormed(v') && SelectedItems(v') == todo[1..] && v'.items == v.items && v'.choices == v.choices
            && v'.resolved.Keys == v.resolved.Keys + {todo[0].id}
  {
    hide BulkPlan, ChoicesFit;
    var todo := SelectedItems(v);
    SelectedItemsForm(v);
    assert todo[0] in todo;
    FinishKeepsWellFormed(v, v.resolved.Keys, todo[0].id, BulkPlan(todo[0], v.choices).note);
    TickedAfterFinish(v.items, v.resolved.Keys, v.selected, todo[0].id);
    TickedInOrder(v.items, v.resolved.Keys, v.selected);
    var p := InOrderHead(v.items, todo, 0);
    InOrderApart(v.items, todo[1..], p + 1);
    NotInAll(todo[1..], {todo[0].id});
  }

  /** Rows finished before a failure stay resolved; the rest stay ticked and pending, in order. */
  lemma {:induction false} FinishSome(v: View, k: nat)
    requires WellFormed(v) && k <= |SelectedItems(v)|
    requires forall t :: t in SelectedItems(v) ==> BulkPlan(t, v.choices).finishes
    ensures var todo := SelectedItems(v); var v' := FinishAll(v, v.choices, todo[..k]);
            && WellFormed(v') && SelectedItems(v') == todo[k..] && v'.items == v.items && v'.choices == v.choices
            && v'.resolved.Keys == v.resolved.Keys + Ids(todo[..k])
    decreases k
  {
    hide BulkPlan, WellFormed, SelectedItems, FinishPlan;
    var todo := SelectedItems(v);
    if k == 0 {
      assert todo[..0] == [] && todo[0..] == todo;
    } else {
      assert todo[0] in todo;
      FinishFirst(v);
      var v1 := FinishPlan(v, v.resolved.Keys, todo[0], BulkPlan(todo[0], v.choices));
      assert forall t :: t in todo[1..] ==> t in todo;
      TakeAfterHead(todo, k);
      FinishHead(v, v.choices, todo[..k]);
      IdsCons(todo[..k]);
      hide Ids, FinishAll;
      FinishSome(v1, k - 1);
    }
  }

  lemma FinishHead(v: View, choices: map<int, string>, todo: seq<Item>)
    requires todo != []
    ensures FinishAll(v, choices, todo)
         == FinishAll(FinishPlan(v, v.resolved.Keys, todo[0], BulkPlan(todo[0], choices)), choices, todo[1..])
  {
  }

  lemma TakeAfterHead(items: seq<Item>, k: nat)
    requires 0 < k <= |items|
    ensures items[..k] != [] && items[..k][0] == items[0] && items[..k][1..] == items[1..][..k - 1]
    ensures items[1..][k - 1..] == items[k..]
  {
  }

  lemma IdsCons(items: seq<Item>)
    requires items != []
    ensures Ids(items) == {items[0].id} + Ids(items[1..])
  {
    assert items == [items[0]] + items[1..];
    forall id | id in Ids(items) ensures id in {items[0].id} + Ids(items[1..]) {
      var item :| item in items && item.id == id;
      assert item == items[0] || item in items[1..];
    }
  }

  lemma {:induction false} FinishAllConcat(v: View, choices: map<int, string>, a: seq<Item>, b: seq<Item>)
    ensures FinishAll(v, choices, a + b) == FinishAll(FinishAll(v, choices, a), choices, b)
    decreases |a|
  {
    hide FinishPlan, BulkPlan;
    if a == [] {
      assert a + b == b;
    } else {
      assert (a + b)[1..] == a[1..] + b;
      FinishAllConcat(FinishPlan(v, v.resolved.Keys, a[0], BulkPlan(a[0], choices)), choices, a[1..], b);
    }
  }

  /** One attempt at the bulk review: the first k rows are finished and stay so, the others stay ticked
      and pending for a retry, and finishing those from here comes to one undisturbed pass. */
  lemma AttemptLeavesTheRest(v: View, w: World) returns (k: nat)
    requires WellFormed(v) && !MissingCategory(SelectedItems(v), v.choices)
    ensures var todo := SelectedItems(v); var (v', w', ok) := ReviewSelected(v, w);
            && k <= |todo| && (ok <==> k == |todo|)
            && v' == FinishAll(v, v.choices, todo[..k])
            && v'.resolved.Keys == v.resolved.Keys + Ids(todo[..k])
            && SelectedItems(v') == todo[k..]
            && WellFormed(v') && v'.choices == v.choices && v'.items == v.items
            && PerformAll(w'.ledger, BulkCalls(todo[k..], v.choices))
                == PerformAll(w.ledger, BulkCalls(todo, v.choices))
            && (|BulkCalls(todo, v.choices)| <= w.good ==> ok)
            && var m := Made(|BulkCalls(todo, v.choices)|, w.good, w.lands);
               |BulkCalls(todo[..k], v.choices)| <= m
               && w'.ledger == PerformAll(w.ledger, BulkCalls(todo, v.choices)[..m])
  {
    hide BulkPlan, PerformAll, WellFormed, ReviewEach, FinishAll, BulkCalls;
    var todo := SelectedItems(v);
    AllPlansFinish(v);
    if todo == [] {
      k := 0;
      FinishSome(v, 0);
      UndisturbedNothing(v, w.ledger);
    } else {
      Ready(v);
      var m;
      k, m := ReviewEachForm(v, v.resolved.Keys, v.choices, todo, w, 0);
      FinishSome(v, k);
      BulkCallsConcat(todo[..k], todo[k..], v.choices);
      assert todo == todo[..k] + todo[k..];
      BulkCallsForm(todo[k..], v.choices);
      RetryComesToTheSame(w.ledger, BulkCalls(todo[..k], v.choices), BulkCalls(todo[k..], v.choices), m);
    }
  }

  lemma UndisturbedNothing(v: View, l: Ledger)
    ensures FinishAll(v, v.choices, []) == v
    ensures BulkCalls([], v.choices) == [] && PerformAll(l, []) == l
  {
  }

  lemma Ready(v: View)
    requires WellFormed(v)
    ensures DistinctIds(v.items) && InOrder(v.items, SelectedItems(v), 0) && Agrees(v, v.resolved.Keys, 0)
  {
    TickedInOrder(v.items, v.resolved.Keys, v.selected);
  }

  // ---- Failures and retries ----

  datatype Attempt = Attempt(good: nat, lands: bool)

  /** Pressing Review again after each failure: the final state, and whether the last attempt succeeded. */
  function Retries(v: View, l: Ledger, attempts: seq<Attempt>): (View, Ledger, bool)
    requires attempts != []
    decreases |attempts|
  {
    var (v', w', ok) := ReviewSelected(v, World(l, attempts[0].good, attempts[0].lands));
    if |attempts| == 1 then (v', w'.ledger, ok) else Retries(v', w'.ledger, attempts[1..])
  }

  /** However many attempts fail, and wherever, once one succeeds the backend and the dialog are exactly
      as one attempt without failures would have left them. */
  lemma {:induction false} RetriesComeToOneRun(v: View, l: Ledger, attempts: seq<Attempt>)
    requires WellFormed(v) && !MissingCategory(SelectedItems(v), v.choices) && attempts != []
    requires Retries(v, l, attempts).2
    ensures var (v', l', _) := Retries(v, l, attempts);
            var calls := BulkCalls(SelectedItems(v), v.choices);
            var (v1, w1, ok) := ReviewSelected(v, World(l, |calls|, false));
            ok && v' == v1 && l' == w1.ledger && l' == PerformAll(l, calls) && SelectedItems(v') == []
    decreases |attempts|
  {
    hide ReviewSelected, WellFormed, FinishAll, BulkCalls, PerformAll, SelectedItems, MissingCategory;
    var todo := SelectedItems(v);
    var whole := World(l, |BulkCalls(todo, v.choices)|, false);
    var n := AttemptLeavesTheRest(v, whole);
    var k := AttemptLeavesTheRest(v, World(l, attempts[0].good, attempts[0].lands));
    var (v', w', ok) := ReviewSelected(v, World(l, attempts[0].good, attempts[0].lands));
    assert todo[..|todo|] == todo && todo[|todo|..] == [];
    UndisturbedNothing(v, l);
    UndisturbedNothing(v, w'.ledger);
    UndisturbedNothing(v, ReviewSelected(v, whole).1.ledger);
    if |attempts| == 1 {
    } else {
      StillNoneMissing(todo, k, v.choices);
      RetriesComeToOneRun(v', w'.ledger, attempts[1..]);
      var calls' := BulkCalls(todo[k..], v.choices);
      var n' := AttemptLeavesTheRest(v', World(w'.ledger, |calls'|, false));
      FinishAllConcat(v, v.choices, todo[..k], todo[k..]);
      assert todo[..k] + todo[k..] == todo;
      assert todo[k..][..|todo| - k] == todo[k..];
    }
  }

  lemma StillNoneMissing(todo: seq<Item>, k: nat, choices: map<int, string>)
    requires !MissingCategory(todo, choices) && k <= |todo|
    ensures !MissingCategory(todo[k..], choices)
  {
  }

  lemma LastOfPass(v: View, choices: map<int, string>, todo: seq<Item>)
    requires todo != []
    ensures var n := |todo| - 1; var v' := FinishAll(v, choices, todo[..n]);
            FinishAll(v, choices, todo) == FinishPlan(v', v'.resolved.Keys, todo[n], BulkPlan(todo[n], choices))
  {
    hide FinishPlan, BulkPlan;
    var n := |todo| - 1;
    assert todo == todo[..n] + [todo[n]];
    FinishAllConcat(v, choices, todo[..n], [todo[n]]);
    assert [todo[n]][1..] == [];
  }

  /** However far a bulk review gets, the cursor ends on the first row after the last finished one that
      still needs an answer, when there is one. */
  lemma BulkCursor(v: View, w: World) returns (k: nat)
    requires WellFormed(v) && !MissingCategory(SelectedItems(v), v.choices)
    ensures var todo := SelectedItems(v); var v' := ReviewSelected(v, w).0;
            && k <= |todo| && v'.resolved.Keys == v.resolved.Keys + Ids(todo[..k]) && v'.items == v.items
            && (k == 0 ==> v' == v)
            && (k > 0 ==> var p := PositionOf(v.items, todo[k - 1].id); p >= 0 && CursorOnNext(v', p))
  {
    hide BulkPlan, PerformAll, ReviewSelected, FinishAll, BulkCalls, MissingCategory, SelectedItems, WellFormed,
         CursorOnNext;
    k := AttemptLeavesTheRest(v, w);
    var todo := SelectedItems(v);
    UndisturbedNothing(v, w.ledger);
    assert todo[..0] == [];
    if k > 0 {
      assert todo[..k][..k - 1] == todo[..k - 1];
      LastFinishedCursor(v, k);
    }
  }

  lemma LastFinishedCursor(v: View, k: nat)
    requires WellFormed(v) && !MissingCategory(SelectedItems(v), v.choices) && 0 < k <= |SelectedItems(v)|
    ensures var todo := SelectedItems(v); var p := PositionOf(v.items, todo[k - 1].id);
            p >= 0 && CursorOnNext(FinishAll(v, v.choices, todo[..k]), p)
  {
    hide BulkPlan, FinishAll, MissingCategory, SelectedItems, ChoicesFit, CursorOnNext, Finish;
    var todo := SelectedItems(v);
    AllPlansFinish(v);
    FinishSome(v, k - 1);
    var v1, item := FinishAll(v, v.choices, todo[..k - 1]), todo[k - 1];
    assert todo[..k][..k - 1] == todo[..k - 1];
    LastOfPass(v, v.choices, todo[..k]);
    SelectedItemsForm(v);
    assert item in todo;
    var p := PositionOf(v.items, item.id);
    SameIdSameItem(v.items, p, item);
    FinishMovesCursor(v1, v1.resolved.Keys, p, BulkPlan(item, v.choices).note);
  }

  lemma SameIdSameItem(items: seq<Item>, p: int, item: Item)
    requires DistinctIds(items) && item in items && p == PositionOf(items, item.id)
    ensures p >= 0 && items[p] == item
  {
    var k :| 0 <= k < |items| && items[k] == item;
    PositionFound(items, k);
  }

  // ---- Whole sessions ----

  /** What a person can do in the dialog; `a` is how the backend behaves meanwhile. */
  datatype Event =
    | Toggle(id: int)
    | SelectAll(on: bool)
    | Choose(id: int, category: string)
    | ChooseForSelected(category: string)
    | ArrowDown
    | ArrowUp
    | ClickRow(index: nat)
    | Skip(index: nat)
    | Accept(index: nat, a: Attempt)
    | Keep(index: nat, a: Attempt)
    | Remove(index: nat, a: Attempt)
    | ReviewTicked(a: Attempt)

  /** The category menus offer names only. */
  ghost predicate Possible(e: Event) {
    (e.Choose? ==> e.category != "") && (e.ChooseForSelected? ==> e.category != "")
  }

  predicate Open(v: View, index: nat) {
    index < |v.items| && v.items[index].id !in v.resolved
  }

  function ChooseAll(choices: map<int, string>, todo: seq<Item>, category: string): map<int, string> {
    choices + map item | item in todo :: item.id := category
  }

  function Next(v: View, l: Ledger, e: Event): (View, Ledger) {
    match e
    case Toggle(id) =>
      if id in Ids(v.items) && id !in v.resolved
      then (v.(selected := if id in v.selected then v.selected - {id} else v.selected + {id}), l) else (v, l)
    case SelectAll(on) => (v.(selected := if on then Ids(Pending(v)) else {}), l)
    case Choose(id, category) =>
      if id in Ids(v.items) && id !in v.resolved then (v.(choices := v.choices[id := category]), l) else (v, l)
    case ChooseForSelected(category) => (v.(choices := ChooseAll(v.choices, SelectedItems(v), category)), l)
    case ArrowDown => if v.items != [] && v.active + 1 < |v.items| then (v.(active := v.active + 1), l) else (v, l)
    case ArrowUp => if v.active > 0 then (v.(active := v.active - 1), l) else (v, l)
    case ClickRow(index) => if index < |v.items| then (v.(active := index), l) else (v, l)
    case Skip(index) =>
      if Open(v, index) then (Finish(v, v.resolved.Keys, v.items[index].id, "Skipped"), l) else (v, l)
    case Accept(index, a) =>
      if Open(v, index) && NeedsCategory(v.items[index]) then
        var done := Work(v, World(l, a.good, a.lands), v.items[index], AcceptPlan(v.items[index], v.choices));
        (done.0, done.1.ledger)
      else (v, l)
    case Keep(index, a) =>
      if Open(v, index) && !NeedsCategory(v.items[index]) then
        var done := Work(v, World(l, a.good, a.lands), v.items[index], KeepPlan(v.items[index], v.choices));
        (done.0, done.1.ledger)
      else (v, l)
    case Remove(index, a) =>
      if Open(v, index) && Duplicate in v.items[index].reasons then
        var done := Work(v, World(l, a.good, a.lands), v.items[index], RemovePlan(v.items[index]));
        (done.0, done.1.ledger)
      else (v, l)
    case ReviewTicked(a) =>
      var done := ReviewSelected(v, World(l, a.good, a.lands));
      (done.0, done.1.ledger)
  }

  /** Rows only ever become resolved, and keep what they were resolved as. */
  ghost predicate Grows(v: View, v': View) {
    v'.items == v.items && forall id :: id in v.resolved ==> id in v'.resolved && v'.resolved[id] == v.resolved[id]
  }

  lemma FinishGrows(v: View, index: nat, note: string)
    requires WellFormed(v) && Open(v, index)
    ensures WellFormed(Finish(v, v.resolved.Keys, v.items[index].id, note))
    ensures Grows(v, Finish(v, v.resolved.Keys, v.items[index].id, note))
  {
    FinishKeepsWellFormed(v, v.resolved.Keys, v.items[index].id, note);
  }

  lemma {:induction false} FinishSomeGrows(v: View, k: nat)
    requires WellFormed(v) && k <= |SelectedItems(v)|
    requires forall t :: t in SelectedItems(v) ==> BulkPlan(t, v.choices).finishes
    ensures Grows(v, FinishAll(v, v.choices, SelectedItems(v)[..k]))
    decreases k
  {
    hide BulkPlan, WellFormed, SelectedItems;
    var todo := SelectedItems(v);
    if k == 0 {
      assert todo[..0] == [];
    } else {
      assert todo[0] in todo;
      SelectedItemsForm(v);
      FinishFirst(v);
      var v1 := FinishPlan(v, v.resolved.Keys, todo[0], BulkPlan(todo[0], v.choices));
      assert forall t :: t in todo[1..] ==> t in todo;
      FinishSomeGrows(v1, k - 1);
      assert todo[..k][1..] == todo[1..][..k - 1] && todo[..k][0] == todo[0];
    }
  }

  lemma ReviewGrows(v: View, w: World)
    requires WellFormed(v)
    ensures WellFormed(ReviewSelected(v, w).0) && Grows(v, ReviewSelected(v, w).0)
  {
    hide BulkPlan, WellFormed, FinishAll, ReviewEach, SelectedItems;
    if !MissingCategory(SelectedItems(v), v.choices) {
      var k := AttemptLeavesTheRest(v, w);
      AllPlansFinish(v);
      FinishSomeGrows(v, k);
    }
  }

  lemma ChoicesKept(v: View, todo: seq<Item>, category: string)
    requires ChoicesFit(v.items, v.choices) && category != ""
    ensures ChoicesFit(v.items, ChooseAll(v.choices, todo, category))
  {
  }

  predicate IsRowWork(e: Event) {
    e.Skip? || e.Accept? || e.Keep? || e.Remove?
  }

  lemma RowWorkKeeps(v: View, l: Ledger, e: Event)
    requires WellFormed(v) && IsRowWork(e)
    ensures WellFormed(Next(v, l, e).0) && Grows(v, Next(v, l, e).0)
  {
    hide WellFormed, AcceptPlan, KeepPlan, RemovePlan, InvokeAll, Finish, NeedsCategory;
    if Open(v, e.index) {
      var item := v.items[e.index];
      FinishGrows(v, e.index, "Skipped");
      FinishGrows(v, e.index, AcceptPlan(item, v.choices).note);
      FinishGrows(v, e.index, KeepPlan(item, v.choices).note);
      FinishGrows(v, e.index, RemovePlan(item).note);
    }
  }

  /** Every action keeps the ticks among the rows still to review and the cursor on a row, and no row
      is ever unresolved again. */
  lemma NextKeeps(v: View, l: Ledger, e: Event)
    requires WellFormed(v) && Possible(e)
    ensures WellFormed(Next(v, l, e).0) && Grows(v, Next(v, l, e).0)
  {
    hide ReviewSelected, Work, Finish, SelectedItems;
    if IsRowWork(e) {
      RowWorkKeeps(v, l, e);
    } else if e.ReviewTicked? {
      ReviewGrows(v, World(l, e.a.good, e.a.lands));
    } else if e.SelectAll? {
      NotInForm(v.items, v.resolved.Keys);
    } else if e.ChooseForSelected? {
      ChoicesKept(v, SelectedItems(v), e.category);
    }
  }

  ghost predicate AllPossible(run: seq<Event>) {
    forall k :: 0 <= k < |run| ==> Possible(run[k])
  }

  function Run(v: View, l: Ledger, run: seq<Event>): (View, Ledger)
    decreases |run|
  {
    if run == [] then (v, l)
    else
      var (v', l') := Next(v, l, run[0]);
      Run(v', l', run[1..])
  }

  lemma {:induction false} StepsKeep(v: View, l: Ledger, run: seq<Event>)
    requires WellFormed(v) && AllPossible(run)
    ensures WellFormed(Run(v, l, run).0) && Grows(v, Run(v, l, run).0)
    decreases |run|
  {
    hide WellFormed, Next;
    if run == [] {
    } else {
      NextKeeps(v, l, run[0]);
      var (v', l') := Next(v, l, run[0]);
      StepsKeep(v', l', run[1..]);
    }
  }

  /** Along every session of an opened inbox the ticks stay among the pending rows, the cursor stays on a
      row, and from any moment on the resolved rows only grow. */
  lemma SessionKeeps(items: seq<Item>, l: Ledger, earlier: seq<Event>, later: seq<Event>)
    requires DistinctIds(items) && forall item :: item in items ==> Listed(item)
    requires AllPossible(earlier) && AllPossible(later)
    ensures var (v, m) := Run(Opened(items), l, earlier); var (v', _) := Run(v, m, later);
            WellFormed(v) && WellFormed(v') && Grows(v, v')
  {
    hide Run, WellFormed, Grows, AllPossible;
    OpenedIsWellFormed(items);
    StepsKeep(Opened(items), l, earlier);
    var (v, m) := Run(Opened(items), l, earlier);
    StepsKeep(v, m, later);
  }

  lemma OpenedIsWellFormed(items: seq<Item>)
    requires DistinctIds(items) && forall item :: item in items ==> Listed(item)
    ensures WellFormed(Opened(items))
  {
    InitialChoicesFit(items);
  }
}
