/** The Dashboard layout while a profile opens: the saved layout is read late, the lists its pinned
    widgets point into arrive one by one, the person may edit at any moment, and widgets whose target
    is gone are pruned. Every order of these events is covered. */
module LayoutRace {
  import opened Options
  import opened Sequences
  import CentsText
  import Dash = DashboardRows

  const DEFAULT_LAYOUT: seq<string> := [
    "stat_net_worth", "stat_cash", "stat_debt", "stat_investments", "needs_a_look",
    "safe_to_spend", "runway", "trend_spending", "budget_bills", "recent_transactions"]

  const OLD_DEFAULT_LAYOUT_V1: seq<string> := [
    "stat_net_worth", "stat_cash", "stat_debt", "stat_investments", "runway",
    "safe_to_spend", "needs_a_look", "trend_spending", "budget_bills", "recent_transactions"]

  const STAT_WIDGET_IDS: seq<string> := ["stat_net_worth", "stat_cash", "stat_debt", "stat_investments"]

  const CATALOG: set<string> := {
    "stat_net_worth", "stat_cash", "stat_debt", "stat_investments", "runway", "safe_to_spend", "needs_a_look",
    "trend_spending", "budget_bills", "recent_transactions", "top_merchants", "debt_payoff", "allocation",
    "net_worth_by_member"}

  // ---- What a widget points at ----

  datatype Target = Fixed | Account(id: Option<nat>) | Bucket(id: Option<nat>) | Investment(name: string)

  /** The number after a prefix; anything but digits names no account. */
  function NumberOf(text: string): Option<nat> {
    if text != "" && CentsText.AllDigits(text) then Some(CentsText.ParseNat(text)) else None
  }

  function ParseWidgetId(id: string): Target {
    if "account:" <= id then Account(NumberOf(id[|"account:"|..]))
    else if "bucket:" <= id then Bucket(NumberOf(id[|"bucket:"|..]))
    else if "investment:" <= id then Investment(id[|"investment:"|..])
    else Fixed
  }

  // ---- The saved layout ----

  predicate IsLineBreak(c: char) {
    c in {'\n', '\r', '\U{2028}', '\U{2029}'}
  }

  predicate IsValidWidgetId(id: string) {
    || id in CATALOG
    || ("account:" <= id && NumberOf(id[|"account:"|..]).Some?)
    || ("bucket:" <= id && NumberOf(id[|"bucket:"|..]).Some?)
    || ("investment:" <= id && |id| > |"investment:"|
        && forall i :: |"investment:"| <= i < |id| ==> !IsLineBreak(id[i]))
  }

  /** The one id of the old combined stats card becomes the four cards. */
  function CardsOf(id: string): seq<string> {
    if id == "stats" then STAT_WIDGET_IDS else [id]
  }

  function Expanded(parsed: seq<string>): seq<string> {
    if parsed == [] then [] else CardsOf(parsed[0]) + Expanded(parsed[1..])
  }

  function Filtered(ids: seq<string>): seq<string> {
    if ids == [] then [] else (if IsValidWidgetId(ids[0]) then [ids[0]] else []) + Filtered(ids[1..])
  }

  /** What is loaded for a stored list (none when nothing readable is stored); `named` says one of the
      person's own layouts is exactly the old default. */
  function LoadLayout(stored: Option<seq<string>>, named: bool): seq<string> {
    if stored.None? then DEFAULT_LAYOUT
    else
      var filtered := Filtered(Expanded(stored.value));
      if filtered == [] then DEFAULT_LAYOUT
      else if filtered == OLD_DEFAULT_LAYOUT_V1 && !named then DEFAULT_LAYOUT
      else filtered
  }

  predicate AllValid(ids: seq<string>) {
    forall i :: 0 <= i < |ids| ==> IsValidWidgetId(ids[i])
  }

  lemma StatsIsNoWidget()
    ensures !IsValidWidgetId("stats")
  {
    assert "stats"[0] == 's';
    assert |"stats"| == 5;
  }

  lemma {:induction false} ValidUnchanged(ids: seq<string>)
    requires AllValid(ids)
    ensures Filtered(Expanded(ids)) == ids
  {
    hide IsValidWidgetId;
    StatsIsNoWidget();
    if ids == [] {
    } else {
      ValidUnchanged(ids[1..]);
      hide Expanded;
      assert Expanded(ids) == [ids[0]] + Expanded(ids[1..]) by { FirstAlone(ids); }
      assert ids == [ids[0]] + ids[1..];
    }
  }

  lemma FirstAlone(ids: seq<string>)
    requires ids != [] && ids[0] != "stats"
    ensures Expanded(ids) == [ids[0]] + Expanded(ids[1..])
  {
  }

  lemma {:induction false} FilteredValid(ids: seq<string>)
    ensures AllValid(Filtered(ids))
  {
    hide IsValidWidgetId;
    if ids == [] {
    } else {
      FilteredValid(ids[1..]);
    }
  }

  lemma DefaultsValid()
    ensures AllValid(DEFAULT_LAYOUT) && AllValid(OLD_DEFAULT_LAYOUT_V1) && DEFAULT_LAYOUT != OLD_DEFAULT_LAYOUT_V1
  {
    assert DEFAULT_LAYOUT[4] == "needs_a_look" && OLD_DEFAULT_LAYOUT_V1[4] == "runway";
    assert "needs_a_look"[0] != "runway"[0];
  }

  /** Saving and loading gives a layout back exactly when it is not empty, holds only known widgets and
      is not the untouched old default: an emptied Dashboard comes back as the default one. */
  lemma LoadAfterSave(widgets: seq<string>, named: bool)
    ensures LoadLayout(Some(widgets), named) == widgets <==>
            widgets != [] && AllValid(widgets) && (widgets != OLD_DEFAULT_LAYOUT_V1 || named)
    ensures LoadLayout(Some(widgets), named) != [] && AllValid(LoadLayout(Some(widgets), named))
  {
    hide IsValidWidgetId;
    DefaultsValid();
    FilteredValid(Expanded(widgets));
    if AllValid(widgets) {
      ValidUnchanged(widgets);
    }
  }

  /** The widgets a stored id stands for: itself when it is known, the four cards for the old stats card. */
  function Named(id: string): set<string> {
    if id == "stats" then Elems(STAT_WIDGET_IDS) else if IsValidWidgetId(id) then {id} else {}
  }

  /** No two places of the stored list stand for a common widget. */
  predicate NamedApart(stored: seq<string>) {
    forall i, j :: 0 <= i < j < |stored| ==> Named(stored[i]) !! Named(stored[j])
  }

  /** A loaded layout holds no widget twice exactly when no two places of the stored list stand for a
      common widget: ids that are not known may repeat, the old stats card counts as its four. */
  lemma LoadedWithoutRepeats(stored: seq<string>, named: bool)
    ensures NoDup(LoadLayout(Some(stored), named)) <==> NamedApart(stored)
    ensures NoDup(LoadLayout(None, named))
  {
    hide Named, Filtered, Expanded;
    DefaultsDistinct();
    FilteredNames(stored);
  }

  function AllNamed(stored: seq<string>): set<string> {
    if stored == [] then {} else Named(stored[0]) + AllNamed(stored[1..])
  }

  lemma {:induction false} FilteredNames(stored: seq<string>)
    ensures Elems(Filtered(Expanded(stored))) == AllNamed(stored)
    ensures NoDup(Filtered(Expanded(stored))) <==> NamedApart(stored)
  {
    if stored == [] {
    } else {
      FilteredFirst(stored);
      hide Filtered, Expanded, Named, NamedApart, NoDup, CardsOf;
      FilteredNames(stored[1..]);
      FirstNames(stored[0]);
      ApartPush(stored);
      var first, rest := Filtered(CardsOf(stored[0])), Filtered(Expanded(stored[1..]));
      ElemsConcat(first, rest);
      NoDupParts(first, rest);
    }
  }

  lemma FilteredFirst(stored: seq<string>)
    requires stored != []
    ensures Filtered(Expanded(stored)) == Filtered(CardsOf(stored[0])) + Filtered(Expanded(stored[1..]))
  {
    hide Filtered;
    FilteredConcat(CardsOf(stored[0]), Expanded(stored[1..]));
  }

  lemma FirstNames(id: string)
    ensures var first := Filtered(CardsOf(id));
            NoDup(first) && Elems(first) == Named(id)
  {
    if id == "stats" {
      DefaultsValid();
      DefaultsDistinct();
      assert STAT_WIDGET_IDS == DEFAULT_LAYOUT[..4];
      AllKept(STAT_WIDGET_IDS);
    } else {
      assert [id][1..] == [];
    }
  }

  lemma {:induction false} AllKept(ids: seq<string>)
    requires AllValid(ids)
    ensures Filtered(ids) == ids
  {
    hide IsValidWidgetId;
    if ids == [] {
    } else {
      AllKept(ids[1..]);
    }
  }

  lemma {:induction false} FilteredConcat(a: seq<string>, b: seq<string>)
    ensures Filtered(a + b) == Filtered(a) + Filtered(b)
  {
    if a == [] {
      assert a + b == b;
    } else {
      hide Filtered, IsValidWidgetId;
      assert (a + b)[0] == a[0] && (a + b)[1..] == a[1..] + b;
      FilteredConcat(a[1..], b);
      FilteredHead(a);
      FilteredHead(a + b);
      ConcatAssoc(if IsValidWidgetId(a[0]) then [a[0]] else [], Filtered(a[1..]), Filtered(b));
    }
  }

  lemma FilteredHead(ids: seq<string>)
    requires ids != []
    ensures Filtered(ids) == (if IsValidWidgetId(ids[0]) then [ids[0]] else []) + Filtered(ids[1..])
  {
    hide IsValidWidgetId;
  }

  lemma {:induction false} NamedWithin(stored: seq<string>, i: nat)
    requires i < |stored|
    ensures Named(stored[i]) <= AllNamed(stored)
  {
    hide Named;
    if i == 0 {
    } else {
      NamedWithin(stored[1..], i - 1);
    }
  }

  lemma {:induction false} NamedSomewhere(stored: seq<string>, x: string) returns (i: nat)
    requires x in AllNamed(stored)
    ensures i < |stored| && x in Named(stored[i])
  {
    hide Named;
    if x in Named(stored[0]) {
      i := 0;
    } else {
      i := NamedSomewhere(stored[1..], x);
      i := i + 1;
    }
  }

  /** One more place in front: its names next to those of the others. */
  lemma ApartPush(stored: seq<string>)
    requires stored != []
    ensures NamedApart(stored) <==> NamedApart(stored[1..]) && Named(stored[0]) !! AllNamed(stored[1..])
  {
    hide Named, AllNamed;
    var tail := stored[1..];
    if NamedApart(stored) {
      assert forall i, j :: 0 <= i < j < |tail| ==> tail[i] == stored[i + 1] && tail[j] == stored[j + 1];
      forall x | x in AllNamed(tail)
        ensures x !in Named(stored[0])
      {
        var i := NamedSomewhere(tail, x);
        assert tail[i] == stored[i + 1];
      }
    } else if Named(stored[0]) !! AllNamed(tail) {
      var i, j :| 0 <= i < j < |stored| && !(Named(stored[i]) !! Named(stored[j]));
      NamedWithin(tail, j - 1);
      assert tail[j - 1] == stored[j] && (i > 0 ==> tail[i - 1] == stored[i]);
    }
  }

  lemma DefaultsDistinct()
    ensures NoDup(DEFAULT_LAYOUT) && NoDup(OLD_DEFAULT_LAYOUT_V1)
  {
    forall i, j | 0 <= i < j < |DEFAULT_LAYOUT|
      ensures DEFAULT_LAYOUT[i] != DEFAULT_LAYOUT[j]
    {
    }
    forall i, j | 0 <= i < j < |OLD_DEFAULT_LAYOUT_V1|
      ensures OLD_DEFAULT_LAYOUT_V1[i] != OLD_DEFAULT_LAYOUT_V1[j]
    {
    }
  }

  // ---- The running app ----

  /** `listed` fields are the lists as last published; each starts empty. The holdings list is
      published before its flag is raised, the other two together with theirs. */
  datatype State = State(
    layout: seq<string>, edited: bool, mounted: bool, saved: Option<seq<string>>,
    accounts: seq<nat>, accountsLoaded: bool, buckets: seq<nat>, bucketsLoaded: bool,
    holdings: seq<string>, holdingsListed: bool, holdingsLoaded: bool)

  datatype Event =
    | SavedLayoutRead(widgets: seq<string>)
    | Edit(next: seq<string>)
    | AccountsRead(ids: seq<nat>)
    | BucketsRead(ids: seq<nat>)
    | HoldingsListed(names: seq<string>)
    | HoldingsReady
    | Prune
    | Unmount

  const START: State := State(DEFAULT_LAYOUT, false, true, None, [], false, [], false, [], false, false)

  /** The widget's target is in the list it points into. */
  predicate Alive(s: State, id: string) {
    match ParseWidgetId(id)
    case Fixed => true
    case Account(n) => n.Some? && n.value in s.accounts
    case Bucket(n) => n.Some? && n.value in s.buckets
    case Investment(name) => name in s.holdings
  }

  function Living(s: State): set<string> {
    set id | id in s.layout && Alive(s, id)
  }

  function Pruned(s: State): seq<string> {
    Only(s.layout, Living(s))
  }

  predicate AllLoaded(s: State) {
    s.accountsLoaded && s.bucketsLoaded && s.holdingsLoaded
  }

  /** `setLayoutWidgets` */
  function Set(s: State, next: seq<string>): State {
    s.(layout := next, edited := true, saved := Some(next))
  }

  function Next(s: State, e: Event): State {
    match e
    case SavedLayoutRead(widgets) => if s.mounted && !s.edited then s.(layout := widgets) else s
    case Edit(next) => Set(s, next)
    case AccountsRead(ids) => s.(accounts := ids, accountsLoaded := true)
    case BucketsRead(ids) => s.(buckets := ids, bucketsLoaded := true)
    case HoldingsListed(names) => s.(holdings := names, holdingsListed := true)
    case HoldingsReady => if s.holdingsListed then s.(holdingsLoaded := true) else s
    case Prune => if AllLoaded(s) && |Pruned(s)| != |s.layout| then Set(s, Pruned(s)) else s
    case Unmount => s.(mounted := false)
  }

  function Run(s: State, events: seq<Event>): State
    decreases |events|
  {
    if events == [] then s else Run(Next(s, events[0]), events[1..])
  }

  /** The layout as the App component holds it. */
  class App {
    var layoutWidgets: seq<string>
    var layoutEdited: bool
    var cancelled: bool
    var saved: Option<seq<string>>
    var accounts: seq<nat>
    var accountsLoaded: bool
    var buckets: seq<nat>
    var bucketsLoaded: bool
    var holdings: seq<string>
    var holdingsListed: bool
    var holdingsLoaded: bool

    function View(): State
      reads this
    {
      State(layoutWidgets, layoutEdited, !cancelled, saved, accounts, accountsLoaded, buckets, bucketsLoaded,
            holdings, holdingsListed, holdingsLoaded)
    }

    constructor ()
      ensures View() == START
    {
      layoutWidgets, layoutEdited, cancelled, saved := DEFAULT_LAYOUT, false, false, None;
      accounts, accountsLoaded, buckets, bucketsLoaded := [], false, [], false;
      holdings, holdingsListed, holdingsLoaded := [], false, false;
    }

    method SetLayoutWidgets(next: seq<string>)
      modifies this
      ensures View() == Next(old(View()), Edit(next))
    {
      layoutEdited := true;
      layoutWidgets := next;
      saved := Some(next);
    }

    method OnSavedLayout(widgets: seq<string>)
      modifies this
      ensures View() == Next(old(View()), SavedLayoutRead(widgets))
    {
      if !cancelled && !layoutEdited {
        layoutWidgets := widgets;
      }
    }

    /** The effect that filters out dead references. */
    method PruneEffect()
      modifies this
      ensures View() == Next(old(View()), Prune)
    {
      hide ParseWidgetId;
      if !accountsLoaded || !bucketsLoaded || !holdingsLoaded {
        return;
      }
      var pruned, i := [], 0;
      while i < |layoutWidgets|
        invariant 0 <= i <= |layoutWidgets|
        invariant pruned == Only(layoutWidgets[..i], Living(View()))
        invariant View() == old(View())
      {
        var id := layoutWidgets[i];
        var keep := match ParseWidgetId(id)
                    case Fixed => true
                    case Account(n) => n.Some? && n.value in accounts
                    case Bucket(n) => n.Some? && n.value in buckets
                    case Investment(name) => name in holdings;
        assert layoutWidgets[..i + 1] == layoutWidgets[..i] + [id];
        OnlyConcat(layoutWidgets[..i], [id], Living(View()));
        OnlyOne(id, Living(View()));
        assert keep == (id in Living(View()));
        pruned := pruned + if keep then [id] else [];
        i := i + 1;
      }
      assert layoutWidgets[..i] == layoutWidgets;
      if |pruned| != |layoutWidgets| {
        SetLayoutWidgets(pruned);
      }
    }
  }

  // ---- Pruning ----

  lemma {:induction false} OnlyShorter<T(!new)>(s: seq<T>, keep: set<T>)
    ensures |Only(s, keep)| <= |s|
    ensures |Only(s, keep)| == |s| <==> Elems(s) <= keep
    ensures Elems(s) <= keep ==> Only(s, keep) == s
  {
    if s == [] {
    } else {
      OnlyShorter(s[1..], keep);
      HeadOfElems(s);
      hide Elems;
      assert s == [s[0]] + s[1..];
    }
  }

  lemma HeadOfElems<T(!new)>(s: seq<T>)
    requires s != []
    ensures Elems(s) == {s[0]} + Elems(s[1..])
  {
    assert forall x :: x in s <==> x == s[0] || x in s[1..];
  }

  /** Pruning keeps the order, drops exactly the widgets whose target is gone, and changes the layout
      only when there is one. */
  lemma PruneDropsExactlyTheDead(s: State)
    requires AllLoaded(s)
    ensures Next(s, Prune).layout == Only(s.layout, Living(s))
    ensures forall id :: id in Next(s, Prune).layout <==> id in s.layout && Alive(s, id)
    ensures Next(s, Prune) == s <==> forall id :: id in s.layout ==> Alive(s, id)
  {
    hide Alive, Only;
    OnlyShorter(s.layout, Living(s));
    OnlyElems(s.layout, Living(s));
  }

  /** One pruning is enough: until a list or the layout changes, a second one does nothing. */
  lemma PruneSettles(s: State)
    ensures Next(Next(s, Prune), Prune) == Next(s, Prune)
  {
    hide Only, ParseWidgetId;
    if AllLoaded(s) {
      PruneDropsExactlyTheDead(s);
      PruneDropsExactlyTheDead(Next(s, Prune));
    }
  }

  lemma DefaultIsFixed(id: string)
    requires id in DEFAULT_LAYOUT
    ensures ParseWidgetId(id) == Fixed
  {
    assert |id| >= 3 && (id[0] !in {'a', 'b', 'i'} || (id[0] == 'b' && id[2] == 'd'));
    hide DEFAULT_LAYOUT;
    if id[0] == 'b' {
      NotPrefix(id, "bucket:", 2);
    } else {
      NotPrefix(id, "bucket:", 0);
    }
    NotPrefix(id, "account:", 0);
    NotPrefix(id, "investment:", 0);
  }

  lemma NotPrefix(id: string, prefix: string, k: nat)
    requires k < |id| && k < |prefix| && id[k] != prefix[k]
    ensures !(prefix <= id)
  {
    if |prefix| <= |id| {
      assert id[..|prefix|][k] == id[k];
    }
  }

  /** The default layout is never pruned, whatever the lists hold. */
  lemma DefaultNeverPruned(s: State)
    requires s.layout == DEFAULT_LAYOUT
    ensures Next(s, Prune) == s
  {
    hide Only, ParseWidgetId, DEFAULT_LAYOUT;
    if AllLoaded(s) {
      forall id | id in s.layout
        ensures Alive(s, id)
      {
        DefaultIsFixed(id);
      }
      PruneDropsExactlyTheDead(s);
    }
  }

  // ---- The race ----

  /** Without an edit and before the saved layout arrives, nothing else touches the layout: it is the
      default one, not edited, and not saved over. So the saved layout, when it arrives, is shown. */
  lemma {:induction false} UntouchedUntilRead(s: State, events: seq<Event>)
    requires s.layout == DEFAULT_LAYOUT && !s.edited && s.saved.None?
    requires forall i :: 0 <= i < |events| ==> !events[i].Edit? && !events[i].SavedLayoutRead?
    ensures var t := Run(s, events); t.layout == DEFAULT_LAYOUT && !t.edited && t.saved.None?
    ensures forall widgets :: Run(s, events).mounted ==>
              Next(Run(s, events), SavedLayoutRead(widgets)).layout == widgets
    decreases |events|
  {
    hide Only, DEFAULT_LAYOUT, Pruned;
    if events == [] {
    } else {
      DefaultNeverPruned(s);
      UntouchedUntilRead(Next(s, events[0]), events[1..]);
    }
  }

  function WithoutReads(events: seq<Event>): seq<Event> {
    if events == [] then []
    else (if events[0].SavedLayoutRead? then [] else [events[0]]) + WithoutReads(events[1..])
  }

  /** Once the layout has been edited, a late read is as if it had never happened: every run gives the
      same state as the run without the reads. */
  lemma {:induction false} LateReadChangesNothing(s: State, events: seq<Event>)
    requires s.edited
    ensures Run(s, events) == Run(s, WithoutReads(events))
    decreases |events|
  {
    hide Only, Pruned;
    if events == [] {
    } else {
      var next := Next(s, events[0]);
      LateReadChangesNothing(next, events[1..]);
      var rest := WithoutReads(events[1..]);
      if events[0].SavedLayoutRead? {
        assert [] + rest == rest;
      } else {
        assert ([events[0]] + rest)[0] == events[0] && ([events[0]] + rest)[1..] == rest;
      }
    }
  }

  /** The moment of the first edit, or pruning, decides: whatever comes before, an edit's layout
      survives every event that is not itself an edit or a pruning. */
  lemma {:induction false} EditSurvives(s: State, next: seq<string>, events: seq<Event>)
    requires forall i :: 0 <= i < |events| ==> !events[i].Edit? && !events[i].Prune?
    ensures Run(Next(s, Edit(next)), events).layout == next
    ensures Run(Next(s, Edit(next)), events).saved == Some(next)
  {
    StaysAsEdited(Next(s, Edit(next)), events);
  }

  lemma QuietStep(s: State, e: Event)
    requires !e.Edit? && (e.Prune? ==> !AllLoaded(s))
    ensures Next(s, e).edited == s.edited && Next(s, e).saved == s.saved
    ensures s.edited ==> Next(s, e).layout == s.layout
  {
    hide Pruned, AllLoaded;
  }

  lemma {:induction false} StaysAsEdited(s: State, events: seq<Event>)
    requires s.edited
    requires forall i :: 0 <= i < |events| ==> !events[i].Edit? && !events[i].Prune?
    ensures Run(s, events).layout == s.layout && Run(s, events).saved == s.saved
    decreases |events|
  {
    hide Next;
    if events == [] {
    } else {
      QuietStep(s, events[0]);
      StaysAsEdited(Next(s, events[0]), events[1..]);
    }
  }

  // ---- A live widget is never lost ----

  /** Whatever this event publishes still holds the widget, or its target. */
  predicate Respects(e: Event, id: string) {
    match e
    case SavedLayoutRead(widgets) => id in widgets
    case Edit(next) => id in next
    case AccountsRead(ids) => var t := ParseWidgetId(id); t.Account? ==> t.id.Some? && t.id.value in ids
    case BucketsRead(ids) => var t := ParseWidgetId(id); t.Bucket? ==> t.id.Some? && t.id.value in ids
    case HoldingsListed(names) => var t := ParseWidgetId(id); t.Investment? ==> t.name in names
    case HoldingsReady => true
    case Prune => true
    case Unmount => true
  }

  /** The widget is on the layout, and no list that has arrived is without its target. */
  predicate Safe(s: State, id: string) {
    id in s.layout && ListsHold(s, id)
  }

  predicate ListsHold(s: State, id: string) {
    && (s.holdingsLoaded ==> s.holdingsListed)
    && match ParseWidgetId(id)
       case Fixed => true
       case Account(n) => s.accountsLoaded ==> Alive(s, id)
       case Bucket(n) => s.bucketsLoaded ==> Alive(s, id)
       case Investment(name) => s.holdingsListed ==> Alive(s, id)
  }

  lemma NextKeepsSafe(s: State, e: Event, id: string)
    requires Safe(s, id) && Respects(e, id)
    ensures Safe(Next(s, e), id)
  {
    hide Only, ParseWidgetId;
    if e.Prune? && AllLoaded(s) {
      PruneDropsExactlyTheDead(s);
    }
  }

  /** A pinned widget whose target is in every list that arrives is never pruned, in whatever order the
      lists arrive and however often pruning runs before they do. */
  lemma {:induction false} LiveWidgetSurvives(s: State, events: seq<Event>, id: string)
    requires Safe(s, id) && forall i :: 0 <= i < |events| ==> Respects(events[i], id)
    ensures id in Run(s, events).layout
    decreases |events|
  {
    hide Next, Respects, ParseWidgetId;
    if events == [] {
    } else {
      NextKeepsSafe(s, events[0], id);
      LiveWidgetSurvives(Next(s, events[0]), events[1..], id);
    }
  }

  // ---- A stored widget and an edit made before the read ----

  /** The event publishes the widget or its target, and an edit neither brings it nor takes it away. */
  predicate Spares(s: State, e: Event, id: string) {
    if e.Edit? then id in e.next <==> id in s.layout else Respects(e, id)
  }

  predicate AllSpare(s: State, events: seq<Event>, id: string)
    decreases |events|
  {
    events == [] || (Spares(s, events[0], id) && AllSpare(Next(s, events[0]), events[1..], id))
  }

  /** The saved layout arrives before anything is edited and while the profile is open. */
  predicate ReadInTime(events: seq<Event>) {
    events != []
    && (events[0].SavedLayoutRead? || (!events[0].Edit? && !events[0].Unmount? && ReadInTime(events[1..])))
  }

  /** What was saved is what is on screen. */
  predicate SavedIsShown(s: State) {
    s.saved.Some? ==> s.edited && s.saved == Some(s.layout)
  }

  lemma NextKeepsShown(s: State, e: Event)
    requires SavedIsShown(s)
    ensures SavedIsShown(Next(s, e))
  {
    hide Only, Pruned;
  }

  lemma NextKeepsLists(s: State, e: Event, id: string)
    requires ListsHold(s, id) && (e.Edit? || Respects(e, id))
    ensures ListsHold(Next(s, e), id)
  {
    hide Only, Pruned, ParseWidgetId;
  }

  lemma {:induction false} SparedStays(s: State, events: seq<Event>, id: string)
    requires Safe(s, id) && SavedIsShown(s) && AllSpare(s, events, id)
    ensures id in Run(s, events).layout && SavedIsShown(Run(s, events))
    decreases |events|
  {
    hide Next, Respects, ListsHold, SavedIsShown;
    if events == [] {
    } else {
      NextKeepsShown(s, events[0]);
      NextKeepsSafe(s, events[0], id) by {
        assert events[0].Edit? ==> Respects(events[0], id) by { EditRespects(events[0], id); }
      }
      SparedStays(Next(s, events[0]), events[1..], id);
    }
  }

  lemma EditRespects(e: Event, id: string)
    ensures e.Edit? ==> (Respects(e, id) <==> id in e.next)
  {
  }

  lemma AwayStep(s: State, e: Event, id: string)
    requires id !in s.layout && (s.edited || !s.mounted) && Spares(s, e, id)
    ensures id !in Next(s, e).layout && (Next(s, e).edited || !Next(s, e).mounted)
  {
    if e.Prune? {
      hide Only, Living;
      OnlyElems(s.layout, Living(s));
    } else {
      hide Respects, Pruned, AllLoaded;
    }
  }

  /** Once edited or closed without the widget, it does not come back. */
  lemma {:induction false} SparedStaysAway(s: State, events: seq<Event>, id: string)
    requires id !in s.layout && (s.edited || !s.mounted) && SavedIsShown(s) && AllSpare(s, events, id)
    ensures id !in Run(s, events).layout && SavedIsShown(Run(s, events))
    decreases |events|
  {
    hide Next, Spares, SavedIsShown;
    if events == [] {
    } else {
      NextKeepsShown(s, events[0]);
      AwayStep(s, events[0], id);
      SparedStaysAway(Next(s, events[0]), events[1..], id);
    }
  }

  /** Waiting for the saved layout: nothing was edited and the default layout is on screen. */
  predicate Waiting(s: State, id: string) {
    s.layout == DEFAULT_LAYOUT && !s.edited && s.mounted && s.saved.None? && ListsHold(s, id)
  }

  lemma WaitingStep(s: State, e: Event, id: string)
    requires Waiting(s, id) && id !in DEFAULT_LAYOUT && Spares(s, e, id)
    ensures var t := Next(s, e);
            if e.SavedLayoutRead? then Safe(t, id)
            else if e.Edit? || e.Unmount? then id !in t.layout && (t.edited || !t.mounted)
            else Waiting(t, id)
    ensures SavedIsShown(Next(s, e))
  {
    hide DEFAULT_LAYOUT, ListsHold, Pruned;
    NextKeepsLists(s, e, id);
    DefaultNeverPruned(s);
  }

  lemma {:induction false} FromWaiting(s: State, events: seq<Event>, id: string)
    requires Waiting(s, id) && id !in DEFAULT_LAYOUT && AllSpare(s, events, id)
    ensures id in Run(s, events).layout <==> ReadInTime(events)
    ensures SavedIsShown(Run(s, events))
    decreases |events|
  {
    hide Next, Spares, Safe, DEFAULT_LAYOUT;
    if events == [] {
    } else {
      var e, rest := events[0], events[1..];
      WaitingStep(s, e, id);
      hide Waiting, SavedIsShown;
      if e.SavedLayoutRead? {
        SparedStays(Next(s, e), rest, id);
      } else if e.Edit? || e.Unmount? {
        SparedStaysAway(Next(s, e), rest, id);
      } else {
        FromWaiting(Next(s, e), rest, id);
      }
    }
  }

  /** A stored widget that is not on the default layout, whose target is in every list that arrives and
      which no edit takes away or brings again, is on screen in the end if and only if the saved layout
      was read before the first edit. An earlier edit is made to the default layout and saved over the
      stored one, so the widget is then lost from both. */
  lemma StoredWidgetSurvivesExactlyWhen(events: seq<Event>, id: string)
    requires id !in DEFAULT_LAYOUT && AllSpare(START, events, id)
    ensures id in Run(START, events).layout <==> ReadInTime(events)
    ensures var t := Run(START, events); t.saved.Some? ==> t.saved.value == t.layout
  {
    hide AllSpare, ReadInTime, Run;
    FromWaiting(START, events, id);
  }

  /** One of the three lists has not arrived and does not arrive during these events. */
  predicate StillWaiting(s: State, events: seq<Event>) {
    || (!s.accountsLoaded && forall i :: 0 <= i < |events| ==> !events[i].AccountsRead?)
    || (!s.bucketsLoaded && forall i :: 0 <= i < |events| ==> !events[i].BucketsRead?)
    || (!s.holdingsLoaded && forall i :: 0 <= i < |events| ==> !events[i].HoldingsReady?)
  }

  lemma WaitingOn(s: State, events: seq<Event>)
    requires StillWaiting(s, events) && events != []
    ensures StillWaiting(Next(s, events[0]), events[1..]) && !AllLoaded(s)
  {
    hide Only, Pruned;
  }

  /** Nothing is pruned until all three lists have arrived. */
  lemma {:induction false} NoPruneBeforeLoad(s: State, events: seq<Event>)
    requires StillWaiting(s, events) && forall i :: 0 <= i < |events| ==> !events[i].Edit?
    ensures Run(s, events).edited == s.edited && Run(s, events).saved == s.saved
    decreases |events|
  {
    hide Next, StillWaiting;
    if events == [] {
    } else {
      WaitingOn(s, events);
      QuietStep(s, events[0]);
      NoPruneBeforeLoad(Next(s, events[0]), events[1..]);
    }
  }

  // ---- Which widget points into which list ----

  const ACCOUNT := "account:"
  const BUCKET := "bucket:"
  const INVESTMENT := "investment:"

  /** A text of digits that stands for n; leading zeros do not matter. */
  predicate Spells(digits: string, n: nat) {
    digits != "" && CentsText.AllDigits(digits) && CentsText.ParseNat(digits) == n
  }

  lemma AfterPrefix(prefix: string, rest: string)
    ensures prefix <= prefix + rest && (prefix + rest)[|prefix|..] == rest
  {
  }

  lemma PrefixesApart(rest: string)
    ensures !(ACCOUNT <= BUCKET + rest) && !(ACCOUNT <= INVESTMENT + rest) && !(BUCKET <= INVESTMENT + rest)
    ensures !(BUCKET <= ACCOUNT + rest) && !(INVESTMENT <= ACCOUNT + rest) && !(INVESTMENT <= BUCKET + rest)
  {
    NotPrefix(BUCKET + rest, ACCOUNT, 0);
    NotPrefix(INVESTMENT + rest, ACCOUNT, 0);
    NotPrefix(INVESTMENT + rest, BUCKET, 0);
    NotPrefix(ACCOUNT + rest, BUCKET, 0);
    NotPrefix(ACCOUNT + rest, INVESTMENT, 0);
    NotPrefix(BUCKET + rest, INVESTMENT, 0);
  }

  lemma NumberSpelled(text: string, n: nat)
    ensures NumberOf(text) == Some(n) <==> Spells(text, n)
  {
  }

  /** What an id points at: the account or bucket whose number its digits spell, or the investment account
      it names; everything else is a widget of its own. */
  lemma PointsExactly(id: string)
    ensures forall n :: ParseWidgetId(id) == Account(Some(n)) <==> exists d :: id == ACCOUNT + d && Spells(d, n)
    ensures forall n :: ParseWidgetId(id) == Bucket(Some(n)) <==> exists d :: id == BUCKET + d && Spells(d, n)
    ensures forall name :: ParseWidgetId(id) == Investment(name) <==> id == INVESTMENT + name
    ensures ParseWidgetId(id) == Fixed <==> !(ACCOUNT <= id) && !(BUCKET <= id) && !(INVESTMENT <= id)
  {
    hide Spells, NumberOf;
    forall rest: string
      ensures ParseWidgetId(ACCOUNT + rest) == Account(NumberOf(rest))
      ensures ParseWidgetId(BUCKET + rest) == Bucket(NumberOf(rest))
      ensures ParseWidgetId(INVESTMENT + rest) == Investment(rest)
    {
      PrefixesApart(rest);
      AfterPrefix(ACCOUNT, rest);
      AfterPrefix(BUCKET, rest);
      AfterPrefix(INVESTMENT, rest);
    }
    forall text, n: nat
      ensures NumberOf(text) == Some(n) <==> Spells(text, n)
    {
      NumberSpelled(text, n);
    }
    Splits(id);
    hide ParseWidgetId;
  }

  lemma Splits(id: string)
    ensures ACCOUNT <= id ==> id == ACCOUNT + id[|ACCOUNT|..] && ParseWidgetId(id).Account?
    ensures BUCKET <= id ==> id == BUCKET + id[|BUCKET|..]
    ensures INVESTMENT <= id ==> id == INVESTMENT + id[|INVESTMENT|..]
    ensures ParseWidgetId(id).Account? <==> ACCOUNT <= id
    ensures ParseWidgetId(id).Bucket? ==> BUCKET <= id
    ensures ParseWidgetId(id).Investment? ==> INVESTMENT <= id
    ensures ParseWidgetId(id).Fixed? <==> !(ACCOUNT <= id) && !(BUCKET <= id) && !(INVESTMENT <= id)
  {
  }

  lemma NumberedExactly(prefix: string, id: string)
    ensures prefix <= id && NumberOf(id[|prefix|..]).Some? <==> exists d, n: nat :: id == prefix + d && Spells(d, n)
  {
    if prefix <= id && NumberOf(id[|prefix|..]).Some? {
      var d := id[|prefix|..];
      assert id == prefix + d && Spells(d, NumberOf(d).value);
    }
    if d, n: nat :| id == prefix + d && Spells(d, n) {
      AfterPrefix(prefix, d);
    }
  }

  predicate OneLine(name: string) {
    name != "" && forall c :: c in name ==> c as int !in {10, 13, 0x2028, 0x2029}
  }

  lemma NamedExactly(id: string)
    ensures INVESTMENT <= id && OneLine(id[|INVESTMENT|..]) <==> exists name :: id == INVESTMENT + name && OneLine(name)
  {
    hide OneLine;
    if INVESTMENT <= id && OneLine(id[|INVESTMENT|..]) {
      assert id == INVESTMENT + id[|INVESTMENT|..];
    }
    if name :| id == INVESTMENT + name && OneLine(name) {
      AfterPrefix(INVESTMENT, name);
    }
  }

  /** The widgets that may be on a layout are those of the catalogue, a number of an account or bucket, and
      a name of an investment account without a line break. */
  lemma ValidExactly(id: string)
    ensures IsValidWidgetId(id) <==>
            || id in CATALOG
            || (exists d, n: nat :: id == ACCOUNT + d && Spells(d, n))
            || (exists d, n: nat :: id == BUCKET + d && Spells(d, n))
            || (exists name :: id == INVESTMENT + name && OneLine(name))
  {
    ValidByKind(id);
    hide IsValidWidgetId, CATALOG, Spells, OneLine, NumberOf;
    NumberedExactly(ACCOUNT, id);
    NumberedExactly(BUCKET, id);
    NamedExactly(id);
  }

  lemma OneLineMeans(name: string)
    ensures OneLine(name) <==> name != "" && forall c :: c in name ==> !IsLineBreak(c)
  {
    hide IsLineBreak;
    forall c
      ensures IsLineBreak(c) <==> c as int in {10, 13, 0x2028, 0x2029}
    {
      LineBreakCodes(c);
    }
  }

  lemma LineBreakCodes(c: char)
    ensures IsLineBreak(c) <==> c as int in {10, 13, 0x2028, 0x2029}
  {
    assert '\n' as int == 10 && '\r' as int == 13 && '\U{2028}' as int == 0x2028 && '\U{2029}' as int == 0x2029;
    assert c as int as char == c;
  }

  lemma ValidByKind(id: string)
    ensures IsValidWidgetId(id) <==>
            || id in CATALOG
            || (ACCOUNT <= id && NumberOf(id[|ACCOUNT|..]).Some?)
            || (BUCKET <= id && NumberOf(id[|BUCKET|..]).Some?)
            || (INVESTMENT <= id && OneLine(id[|INVESTMENT|..]))
  {
    hide CATALOG, NumberOf, IsLineBreak, OneLine;
    if INVESTMENT <= id {
      var name := id[|INVESTMENT|..];
      OneLineMeans(name);
      assert forall i :: |INVESTMENT| <= i < |id| ==> id[i] == name[i - |INVESTMENT|];
      assert forall i :: 0 <= i < |name| ==> name[i] == id[i + |INVESTMENT|];
    }
  }

  /** When the three lists have arrived, pruning keeps an account, bucket or investment widget exactly when
      its target is in the list of its own kind, and every other widget. */
  lemma PrunedByItsList(s: State, accounts: seq<nat>, buckets: seq<nat>, holdings: seq<string>, id: string)
    requires id in s.layout
    ensures var read := [AccountsRead(accounts), BucketsRead(buckets), HoldingsListed(holdings), HoldingsReady];
            id in Next(Run(s, read), Prune).layout <==>
            match ParseWidgetId(id)
            case Account(n) => n.Some? && n.value in accounts
            case Bucket(n) => n.Some? && n.value in buckets
            case Investment(name) => name in holdings
            case Fixed => true
  {
    var read := [AccountsRead(accounts), BucketsRead(buckets), HoldingsListed(holdings), HoldingsReady];
    ListsRead(s, accounts, buckets, holdings);
    var t := Run(s, read);
    hide Run, Next, ParseWidgetId;
    PruneDropsExactlyTheDead(t);
  }

  lemma ListsRead(s: State, accounts: seq<nat>, buckets: seq<nat>, holdings: seq<string>)
    ensures Run(s, [AccountsRead(accounts), BucketsRead(buckets), HoldingsListed(holdings), HoldingsReady])
         == s.(accounts := accounts, accountsLoaded := true, buckets := buckets, bucketsLoaded := true,
               holdings := holdings, holdingsListed := true, holdingsLoaded := true)
  {
    var a, b, c, d := AccountsRead(accounts), BucketsRead(buckets), HoldingsListed(holdings), HoldingsReady;
    assert [a, b, c, d][1..] == [b, c, d] && [b, c, d][1..] == [c, d] && [c, d][1..] == [d] && [d][1..] == [];
    var s1 := Next(s, a);
    var s2 := Next(s1, b);
    var s3 := Next(s2, c);
    assert Run(s3, [d]) == Run(Next(s3, d), []);
    assert Run(s2, [c, d]) == Run(s3, [d]);
    assert Run(s1, [b, c, d]) == Run(s2, [c, d]);
    assert Run(s, [a, b, c, d]) == Run(s1, [b, c, d]);
  }

  /** The cards that share rows are the four stat cards and the widgets that point at something. */
  lemma CompactExactly(id: string)
    ensures Dash.IsCompact(id) <==> id in STAT_WIDGET_IDS || !ParseWidgetId(id).Fixed?
    ensures id in STAT_WIDGET_IDS ==> id in CATALOG
  {
    hide CATALOG;
    assert forall x :: x in STAT_WIDGET_IDS <==> x in Dash.STAT_WIDGETS;
    StatsInCatalog();
  }

  lemma StatsInCatalog()
    ensures forall x :: x in STAT_WIDGET_IDS ==> x in CATALOG
  {
  }

  // ---- What loading makes of a stored list ----

  lemma {:induction false} ExpandedConcat(a: seq<string>, b: seq<string>)
    ensures Expanded(a + b) == Expanded(a) + Expanded(b)
  {
    hide CardsOf;
    if a == [] {
      assert a + b == b;
    } else {
      assert (a + b)[0] == a[0] && (a + b)[1..] == a[1..] + b;
      ExpandedConcat(a[1..], b);
      ConcatAssoc(CardsOf(a[0]), Expanded(a[1..]), Expanded(b));
    }
  }

  lemma OneStored(id: string)
    ensures Expanded([id]) == CardsOf(id)
  {
    assert [id][1..] == [];
  }

  /** Wherever it stands in the stored list, an id that is not known is as good as not there, and the old
      stats card as good as its four. */
  lemma LoadIgnoresAndExpands(before: seq<string>, id: string, after: seq<string>, named: bool)
    ensures !IsValidWidgetId(id) && id != "stats" ==>
              LoadLayout(Some(before + ([id] + after)), named) == LoadLayout(Some(before + after), named)
    ensures LoadLayout(Some(before + (["stats"] + after)), named)
         == LoadLayout(Some(before + (STAT_WIDGET_IDS + after)), named)
  {
    hide IsValidWidgetId;
    ExpandedConcat(before, [id] + after);
    ExpandedConcat([id], after);
    ExpandedConcat(before, after);
    ExpandedConcat(before, ["stats"] + after);
    ExpandedConcat(["stats"], after);
    ExpandedConcat(before, STAT_WIDGET_IDS + after);
    ExpandedConcat(STAT_WIDGET_IDS, after);
    OneStored(id);
    OneStored("stats");
    StatsExpanded();
    FilteredConcat(Expanded(before), Expanded([id]) + Expanded(after));
    FilteredConcat(Expanded([id]), Expanded(after));
    FilteredConcat(Expanded(before), Expanded(after));
    hide Expanded;
    if !IsValidWidgetId(id) && id != "stats" {
      assert Filtered([id]) == [] by { FilteredHead([id]); }
      assert [] + Filtered(Expanded(after)) == Filtered(Expanded(after));
    }
  }

  lemma StatsExpanded()
    ensures Expanded(STAT_WIDGET_IDS) == STAT_WIDGET_IDS
  {
    StatsAreNotOld();
    NothingToExpand(STAT_WIDGET_IDS);
  }

  lemma StatsAreNotOld()
    ensures "stats" !in STAT_WIDGET_IDS
  {
    assert |"stats"| == 5 && |"stat_cash"| == 9 && |"stat_debt"| == 9;
  }

  lemma {:induction false} NothingToExpand(ids: seq<string>)
    requires "stats" !in ids
    ensures Expanded(ids) == ids
  {
    if ids == [] {
    } else {
      assert ids[0] in ids;
      NothingToExpand(ids[1..]);
      assert ids == [ids[0]] + ids[1..];
    }
  }
}
