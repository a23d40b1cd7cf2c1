/** The holdings import: a dialog that loads a source held by the backend, previews it and commits it,
    where every call is answered later and the dialog may be unmounted between any two steps. */
module HoldingImport {
  import opened Options
  import opened HoldingRows

  datatype Step = Source | Mapping | Review | Done

  /** The column chosen for each field, as the form holds it. */
  datatype Draft = Draft(symbol: Option<nat>, name: Option<nat>, shares: Option<nat>,
                         price: Option<nat>, costBasis: Option<nat>, assetClass: Option<nat>)

  function Chosen(d: Draft): seq<Option<nat>> {
    [d.symbol, d.name, d.shares, d.price, d.costBasis, d.assetClass]
  }

  /** The form is a mapping when every required field has a column and no column is used twice. */
  predicate IsMapping(d: Draft) {
    && d.symbol.Some? && d.shares.Some? && d.price.Some? && d.costBasis.Some?
    && forall i, j :: 0 <= i < j < 6 && Chosen(d)[i].Some? ==> Chosen(d)[i] != Chosen(d)[j]
  }

  /** A preview, with what it was computed from. */
  datatype Preview = Preview(source: nat, account: nat, mapping: Draft, rows: seq<Row>)

  /** What the dialog itself holds. */
  datatype Client = Client(mounted: bool, busy: bool, generation: Option<nat>, sourceId: Option<nat>,
                           source: Option<nat>, account: Option<nat>, draft: Draft, preview: Option<Preview>,
                           step: Step, selected: set<nat>)

  /** A call awaiting its answer. Commit carries the preview on screen when Save was pressed. */
  datatype Call =
    | CancelOld(id: nat)
    | Load
    | CancelLate(id: nat)
    | ReviewRows(id: nat, account: nat, mapping: Draft)
    | Commit(id: nat, rows: set<nat>, shown: Preview)
    | Report
    | Elsewhere

  datatype Reply =
    | Failed
    | Finished
    | Loaded(id: nat, suggested: Draft)
    | Previewed(rows: seq<Row>)

  // ---- The dialog's handlers: the new state, and the call made (none when the action is over) ----

  function Idle(c: Client): Client {
    c.(busy := false)
  }

  function StartLoad(c: Client): (Client, Option<Call>) {
    if c.busy || c.generation.None? then (c, None)
    else if c.sourceId.Some? then (c.(busy := true), Some(CancelOld(c.sourceId.value)))
    else (c.(busy := true), Some(Load))
  }

  function StartReview(c: Client): (Client, Option<Call>) {
    if c.busy || c.source.None? || !IsMapping(c.draft) || c.account.None? then (c, None)
    else (c.(busy := true), Some(ReviewRows(c.source.value, c.account.value, c.draft)))
  }

  function StartSave(c: Client): (Client, Option<Call>) {
    if c.busy || c.source.None? || c.preview.None? then (c, None)
    else (c.(busy := true), Some(Commit(c.source.value, c.selected, c.preview.value)))
  }

  function StartElsewhere(c: Client): (Client, Option<Call>) {
    if c.busy then (c, None) else (c.(busy := true), Some(Elsewhere))
  }

  /** What follows an `await`: the rest of the action up to its next call. */
  function Continue(c: Client, call: Call, reply: Reply): (Client, Option<Call>) {
    match (call, reply)
    case (CancelOld(_), Finished) => (c.(sourceId := None), Some(Load))
    case (Load, Loaded(id, suggested)) =>
      if !c.mounted then (c, Some(CancelLate(id)))
      else (c.(sourceId := Some(id), source := Some(id), draft := suggested, preview := None,
               step := Mapping, busy := false), None)
    case (ReviewRows(id, account, mapping), Previewed(rows)) =>
      if !c.mounted then (Idle(c), None)
      else (c.(preview := Some(Preview(id, account, mapping, rows)), selected := InitialSelection(rows),
               step := Review, busy := false), None)
    case (Commit(_, _, _), Finished) =>
      (c.(sourceId := None, step := if c.mounted then Done else c.step), Some(Report))
    case _ => (Idle(c), None)
  }

  /** Unmounting: the new state, and the source to cancel in passing. */
  function Cleanup(c: Client): (Client, Option<nat>) {
    (c.(mounted := false), c.sourceId)
  }

  function ChooseAccount(c: Client, account: nat): Client {
    c.(account := Some(account), preview := None, step := if c.step == Review then Mapping else c.step)
  }

  function GoBack(c: Client): Client {
    c.(step := if c.step == Review then Mapping else if c.step == Mapping then Source else c.step)
  }

  /** The dialog as the program writes it: fields updated by its handlers. */
  class Dialog {
    var mounted: bool
    var busy: bool
    var generation: Option<nat>
    var sourceId: Option<nat>
    var source: Option<nat>
    var account: Option<nat>
    var draft: Draft
    var preview: Option<Preview>
    var step: Step
    var selected: set<nat>

    function View(): Client
      reads this
    {
      Client(mounted, busy, generation, sourceId, source, account, draft, preview, step, selected)
    }

    constructor (onlyAccount: Option<nat>)
      ensures View() == Opened(onlyAccount)
    {
      mounted, busy, generation := true, false, None;
      sourceId, source, account := None, None, onlyAccount;
      draft, preview, step, selected := Draft(None, None, None, None, None, None), None, Source, {};
    }

    method PressLoad() returns (call: Option<Call>)
      modifies this
      ensures (View(), call) == StartLoad(old(View()))
    {
      call := None;
      if busy {
        return;
      }
      busy := true;
      if generation.None? {
        busy := false;
        return;
      }
      if sourceId.Some? {
        call := Some(CancelOld(sourceId.value));
      } else {
        call := Some(Load);
      }
    }

    method PressReview() returns (call: Option<Call>)
      requires account.Some?
      modifies this
      ensures (View(), call) == StartReview(old(View()))
    {
      call := None;
      if busy {
        return;
      }
      busy := true;
      if source.None? || !IsMapping(draft) {
        busy := false;
        return;
      }
      call := Some(ReviewRows(source.value, account.value, draft));
    }

    method PressSave() returns (call: Option<Call>)
      modifies this
      ensures (View(), call) == StartSave(old(View()))
    {
      call := None;
      if busy {
        return;
      }
      busy := true;
      if source.None? || preview.None? {
        busy := false;
        return;
      }
      call := Some(Commit(source.value, selected, preview.value));
    }

    method Resume(made: Call, reply: Reply) returns (call: Option<Call>)
      modifies this
      ensures (View(), call) == Continue(old(View()), made, reply)
    {
      call := None;
      if made.CancelOld? && reply.Finished? {
        sourceId := None;
        call := Some(Load);
        return;
      }
      if made.Load? && reply.Loaded? {
        if !mounted {
          call := Some(CancelLate(reply.id));
          return;
        }
        sourceId := Some(reply.id);
        source := Some(reply.id);
        draft := reply.suggested;
        preview := None;
        step := Mapping;
      } else if made.ReviewRows? && reply.Previewed? {
        if mounted {
          preview := Some(Preview(made.id, made.account, made.mapping, reply.rows));
          selected := InitialSelection(reply.rows);
          step := Review;
        }
      } else if made.Commit? && reply.Finished? {
        sourceId := None;
        if mounted {
          step := Done;
        }
        call := Some(Report);
        return;
      }
      busy := false;
    }

    method Unmount() returns (cancel: Option<nat>)
      modifies this
      ensures (View(), cancel) == Cleanup(old(View()))
    {
      mounted := false;
      cancel := sourceId;
    }

    method PickAccount(picked: nat)
      modifies this
      ensures View() == ChooseAccount(old(View()), picked)
    {
      account := Some(picked);
      preview := None;
      if step == Review {
        step := Mapping;
      }
    }

    method ToggleRow(number: nat)
      modifies this`selected
      ensures selected == Toggled(old(selected), number)
    {
      if number in selected {
        selected := selected - {number};
      } else {
        selected := selected + {number};
      }
    }
  }

  function Opened(onlyAccount: Option<nat>): Client {
    Client(true, false, None, None, None, onlyAccount, Draft(None, None, None, None, None, None), None, Source, {})
  }

  // ---- The backend ----

  /** What was saved: the reviewed rows the backend holds, the ticked ones, and what was on screen. */
  datatype Saved = Saved(reviewed: Preview, rows: set<nat>, shown: Preview)

  /** A review as the backend made it: the rows it parsed and the symbols the account held then. */
  datatype Reviewed = Reviewed(preview: Preview, parsed: seq<Parsed>, existing: set<string>)

  /** Live sources with their latest review, every id ever given out, everything saved, and every review
      ever made. */
  datatype Server = Server(live: map<nat, Option<Preview>>, issued: set<nat>, saved: seq<Saved>,
      reviews: seq<Reviewed>)

  /** How a call turns out: whether the backend can serve it, and the fresh id, suggested columns and
      parsed rows it would answer with. */
  datatype Outcome = Outcome(ok: bool, newId: nat, suggested: Draft, parsed: seq<Parsed>, existing: set<string>)

  function Serve(s: Server, call: Call, o: Outcome): (Server, Reply) {
    if !o.ok then (s, Failed)
    else
      match call
      case CancelOld(id) => (s.(live := s.live - {id}), Finished)
      case CancelLate(id) => (s.(live := s.live - {id}), Finished)
      case Load =>
        if o.newId in s.issued then (s, Failed)
        else (s.(live := s.live[o.newId := None], issued := s.issued + {o.newId}), Loaded(o.newId, o.suggested))
      case ReviewRows(id, account, mapping) =>
        var rows := MarkedRows(o.parsed, o.existing);
        if id !in s.live then (s, Failed)
        else
          var preview := Preview(id, account, mapping, rows);
          (s.(live := s.live[id := Some(preview)],
              reviews := s.reviews + [Reviewed(preview, o.parsed, o.existing)]), Previewed(rows))
      case Commit(id, rows, shown) =>
        if id !in s.live || s.live[id].None? || !Accepts(s.live[id].value.rows, rows) then (s, Failed)
        else (s.(live := s.live - {id}, saved := s.saved + [Saved(s.live[id].value, rows, shown)]), Finished)
      case Report => (s, Finished)
      case Elsewhere => (s, Finished)
  }

  // ---- The two together ----

  /** A running action: its call is on the way to the backend, or the answer is on its way back. */
  datatype Action = Waiting(call: Call) | Answered(call: Call, reply: Reply)

  /** `cancels` are the calls made in passing on unmounting; `orphans` the sources whose last cancel failed. */
  datatype State = State(client: Client, running: seq<Action>, cancels: set<nat>, orphans: set<nat>, server: Server)

  datatype Event =
    | GenerationRead(generation: nat)
    | PressLoad
    | PressReview
    | PressSave
    | PressElsewhere
    | PickAccount(account: nat)
    | EditDraft(draft: Draft)
    | Back
    | ToggleRow(row: Row)
    | SelectAll
    | ClearSelection
    | Unmount
    | ServeAction(k: nat, outcome: Outcome)
    | Deliver(k: nat)
    | ServeCancel(id: nat, ok: bool)
    | Expire(ids: set<nat>)

  /** The backend numbers the rows of a source apart. */
  ghost predicate Possible(e: Event) {
    e.ServeAction? ==> DistinctNumbers(e.outcome.parsed)
  }

  function Begin(s: State, started: (Client, Option<Call>)): State {
    s.(client := started.0, running := s.running + match started.1 case None => [] case Some(call) => [Waiting(call)])
  }

  /** One step. An event the interface does not offer in the current state changes nothing. */
  function Next(s: State, e: Event): State {
    var c := s.client;
    match e
    case GenerationRead(g) => if c.mounted then s.(client := c.(generation := Some(g))) else s
    case PressLoad =>
      if c.mounted && c.step == Source && c.account.Some? then Begin(s, StartLoad(c)) else s
    case PressReview =>
      if c.mounted && c.step == Mapping && c.account.Some? then Begin(s, StartReview(c)) else s
    case PressSave =>
      if c.mounted && c.step == Review && c.selected != {} then Begin(s, StartSave(c)) else s
    case PressElsewhere =>
      if c.mounted && c.step == Source then Begin(s, StartElsewhere(c)) else s
    case PickAccount(account) =>
      if c.mounted && !c.busy && c.step != Done then s.(client := ChooseAccount(c, account)) else s
    case EditDraft(draft) =>
      if c.mounted && !c.busy && c.step == Mapping then s.(client := c.(draft := draft)) else s
    case Back =>
      if c.mounted && !c.busy then s.(client := GoBack(c)) else s
    case ToggleRow(row) =>
      if c.mounted && c.step == Review && c.preview.Some? && row in c.preview.value.rows
         && !Disabled(c.busy, c.preview.value.rows, c.selected, row)
      then s.(client := c.(selected := Toggled(c.selected, row.number))) else s
    case SelectAll =>
      if c.mounted && !c.busy && c.step == Review && c.preview.Some?
      then s.(client := c.(selected := SelectAllNew(c.preview.value.rows))) else s
    case ClearSelection =>
      if c.mounted && !c.busy && c.step == Review then s.(client := c.(selected := {})) else s
    case Unmount =>
      if !c.mounted then s
      else
        var (c', cancel) := Cleanup(c);
        s.(client := c', cancels := s.cancels + match cancel case None => {} case Some(id) => {id})
    case ServeAction(k, outcome) =>
      if k < |s.running| && s.running[k].Waiting? then
        var call := s.running[k].call;
        var (server, reply) := Serve(s.server, call, outcome);
        s.(server := server, running := s.running[k := Answered(call, reply)],
           orphans := if call.CancelLate? && reply.Failed? then s.orphans + {call.id} else s.orphans)
      else s
    case Deliver(k) =>
      if k < |s.running| && s.running[k].Answered? then
        var (c', next) := Continue(c, s.running[k].call, s.running[k].reply);
        s.(client := c',
           running := s.running[..k] + (match next case None => [] case Some(call) => [Waiting(call)])
               + s.running[k + 1..])
      else s
    case ServeCancel(id, ok) =>
      if id !in s.cancels then s
      else if ok then s.(cancels := s.cancels - {id}, server := s.server.(live := s.server.live - {id}))
      else s.(cancels := s.cancels - {id}, orphans := s.orphans + {id})
    case Expire(ids) =>
      s.(server := s.server.(live := s.server.live - ids))
  }

  function Initial(onlyAccount: Option<nat>): State {
    State(Opened(onlyAccount), [], {}, {}, Server(map[], {}, [], []))
  }

  ghost predicate AllPossible(run: seq<Event>) {
    forall k :: 0 <= k < |run| ==> Possible(run[k])
  }

  function Run(s: State, run: seq<Event>): State
    decreases |run|
  {
    if run == [] then s else Run(Next(s, run[0]), run[1..])
  }

  // ---- What every step keeps ----

  /** At most one action is under way, and the flag says whether one is. */
  ghost predicate Exclusive(s: State) {
    |s.running| == if s.client.busy then 1 else 0
  }

  /** Sources in the hands of a call: just loaded, or about to be cancelled because they came too late. */
  ghost predicate InFlight(a: Action, id: nat) {
    || (a.Answered? && a.call.Load? && a.reply.Loaded? && a.reply.id == id)
    || (a.Waiting? && a.call.CancelLate? && a.call.id == id)
  }

  ghost predicate Held(s: State, id: nat) {
    || (s.client.mounted && s.client.sourceId == Some(id))
    || id in s.cancels
    || (exists a :: a in s.running && InFlight(a, id))
    || id in s.orphans
  }

  /** Every live source has a keeper: the dialog, a call in flight, or a cancel that failed. */
  ghost predicate Owned(s: State) {
    && (forall id :: id in s.server.live ==> Held(s, id))
    && (forall a :: a in s.running ==> CallOwns(s, a))
  }

  /** The dialog holds no source while loading one, and drops one only when it is gone. */
  ghost predicate CallOwns(s: State, a: Action) {
    && (a.call.Load? || a.call.CancelLate? ==> s.client.sourceId.None?)
    && ((a.call.CancelOld? || a.call.Commit?) && a.Answered? && a.reply.Finished? ==> a.call.id !in s.server.live)
  }

  /** An action's call still matches what the dialog shows. */
  ghost predicate Current(c: Client, a: Action) {
    match a.call
    case ReviewRows(id, account, mapping) =>
      && c.step == Mapping && c.source == Some(id) && c.account == Some(account) && c.draft == mapping
      && IsMapping(mapping)
      && (a.Answered? && a.reply.Previewed? ==> WellMarked(a.reply.rows))
    case Commit(id, rows, shown) =>
      && c.step == Review && c.source == Some(id) && c.preview == Some(shown) && c.selected == rows
    case Load => c.step == Source
    case CancelOld(id) => c.step == Source && c.sourceId == Some(id)
    case CancelLate(_) => false
    case Report => c.step == Done
    case Elsewhere => c.step == Source
  }

  /** On the review step the preview and the ticks are those of the source, account and columns shown. */
  ghost predicate ReviewIsCurrent(c: Client) {
    (c.step == Mapping || c.step == Review ==> c.source.Some? && c.sourceId == c.source) &&
    (c.step == Review ==>
      && c.preview.Some? && c.source == Some(c.preview.value.source) && c.account == Some(c.preview.value.account)
      && c.draft == c.preview.value.mapping && IsMapping(c.draft)
      && WellMarked(c.preview.value.rows) && Good(c.preview.value.rows, c.selected))
  }

  /** The review the backend keeps for a source is the one the dialog is working with. */
  ghost predicate ServerAgrees(s: State) {
    && (forall id :: id in s.server.live && s.server.live[id].Some? ==> s.server.live[id].value.source == id)
    && (s.client.mounted && s.client.step == Review && s.client.source.Some? && s.client.source.value in s.server.live
        ==> s.server.live[s.client.source.value] == s.client.preview)
    && (forall a :: a in s.running ==> CallAgrees(s.server, a))
  }

  ghost predicate CallAgrees(server: Server, a: Action) {
    match a.call
    case ReviewRows(id, account, mapping) =>
      (a.Answered? && a.reply.Previewed? && id in server.live) ==>
        server.live[id] == Some(Preview(id, account, mapping, a.reply.rows))
    case Commit(id, rows, shown) =>
      && id == shown.source && Good(shown.rows, rows)
      && (a.Waiting? && id in server.live ==> server.live[id] == Some(shown))
    case _ => true
  }

  /** Everything saved was what the person saw, each source at most once. */
  ghost predicate SavedAsShown(s: State) {
    && s.server.live.Keys <= s.server.issued
    && (forall k :: 0 <= k < |s.server.saved| ==>
          var e := s.server.saved[k];
          e.reviewed == e.shown && Good(e.shown.rows, e.rows)
          && e.reviewed.source in s.server.issued && e.reviewed.source !in s.server.live)
    && (forall i, j :: 0 <= i < j < |s.server.saved| ==>
         s.server.saved[i].reviewed.source != s.server.saved[j].reviewed.source)
  }

  ghost predicate Invariant(s: State) {
    && Exclusive(s) && Owned(s)
    && (s.client.mounted ==> ReviewIsCurrent(s.client) && forall a :: a in s.running ==> Current(s.client, a))
    && ServerAgrees(s) && SavedAsShown(s)
  }

  // ---- Proofs, one kind of step at a time ----

  lemma OneAction(s: State, k: nat)
    requires Exclusive(s) && k < |s.running|
    ensures k == 0 && s.running == [s.running[0]] && s.running[k] in s.running && s.client.busy
    ensures forall a :: a in s.running ==> a == s.running[0]
  {
  }

  /** Something the person does, or the generation arriving, or unmounting. */
  predicate IsLocal(e: Event) {
    !e.ServeAction? && !e.Deliver? && !e.ServeCancel? && !e.Expire?
  }

  predicate IsPress(e: Event) {
    e.PressLoad? || e.PressReview? || e.PressSave? || e.PressElsewhere?
  }

  /** A press starts at most one action, and none while one is under way. */
  lemma PressStarts(s: State, e: Event)
    requires Exclusive(s) && IsPress(e)
    ensures var t := Next(s, e);
            t == s
            || (s.running == [] && |t.running| == 1 && t.running[0].Waiting? && t.client == s.client.(busy := true)
                && t.server == s.server && t.cancels == s.cancels && t.orphans == s.orphans)
  {
  }

  lemma PressKeeps(s: State, e: Event)
    requires Invariant(s) && IsPress(e)
    ensures Invariant(Next(s, e))
  {
    hide Good, WellMarked, IsMapping, Accepts;
    var t := Next(s, e);
    PressStarts(s, e);
    if t != s {
      assert t.running == [t.running[0]];
      OwnedUnmoved(s, t);
    }
  }

  lemma OwnedUnmoved(s: State, t: State)
    requires forall id :: id in s.server.live ==> Held(s, id)
    requires s.running == [] && t.client.mounted == s.client.mounted && t.client.sourceId == s.client.sourceId
    requires t.server == s.server && t.cancels == s.cancels && t.orphans == s.orphans
    ensures forall id :: id in t.server.live ==> Held(t, id)
  {
    forall id | id in t.server.live
      ensures Held(t, id)
    {
      assert Held(s, id);
    }
  }

  lemma LocalKeeps(s: State, e: Event)
    requires Invariant(s) && IsLocal(e) && !IsPress(e)
    ensures Invariant(Next(s, e))
  {
    hide Good, WellMarked, IsMapping, Accepts, Disabled;
    var t := Next(s, e);
    assert t.running == s.running && t.server == s.server;
    if e.ToggleRow? && t != s {
      var rows := s.client.preview.value.rows;
      assert s.running == [] by {
        DisabledWhileBusy(rows, s.client.selected, e.row);
      }
      if e.row.number in s.client.selected {
        SelectedCanBeUnticked(rows, s.client.selected, e.row);
      } else {
        DisabledByNothing(s.client.busy, rows, s.client.selected, e.row);
        EnabledExactlyWhenGood(rows, s.client.selected, e.row);
      }
    }
    if e.SelectAll? && t != s {
      InitialIsGood(s.client.preview.value.rows);
    }
    if e.ClearSelection? && t != s {
      EmptyIsGood(s.client.preview.value.rows);
    }
    forall id | id in t.server.live
      ensures Held(t, id)
    {
      assert Held(s, id);
    }
  }

  lemma DisabledWhileBusy(rows: seq<Row>, selected: set<nat>, row: Row)
    ensures Disabled(true, rows, selected, row)
  {
  }

  lemma DisabledByNothing(busy: bool, rows: seq<Row>, selected: set<nat>, row: Row)
    requires !Disabled(busy, rows, selected, row)
    ensures !Disabled(false, rows, selected, row)
  {
  }

  lemma EmptyIsGood(rows: seq<Row>)
    ensures Good(rows, {})
  {
  }

  lemma CancelKeeps(s: State, e: Event)
    requires Invariant(s) && (e.ServeCancel? || e.Expire?)
    ensures Invariant(Next(s, e))
  {
    hide Good, WellMarked, IsMapping, Accepts;
    var t := Next(s, e);
    assert t.running == s.running && t.client == s.client;
    forall id | id in t.server.live
      ensures Held(t, id)
    {
      assert Held(s, id);
    }
  }

  lemma ServeKeeps(s: State, o: Outcome)
    requires Invariant(s) && |s.running| > 0 && s.running[0].Waiting? && DistinctNumbers(o.parsed)
    ensures Invariant(Next(s, ServeAction(0, o)))
  {
    hide Good, WellMarked, IsMapping, Accepts;
    OneAction(s, 0);
    MarkedRowsAreWellMarked(o.parsed, o.existing);
    var t := Next(s, ServeAction(0, o));
    var a := s.running[0];
    assert t.running == [t.running[0]];
    forall id | id in t.server.live
      ensures Held(t, id)
    {
      assert id in s.server.live ==> Held(s, id);
      assert t.running[0] in t.running;
    }
    ServeSaves(s, o);
  }

  lemma ServeSaves(s: State, o: Outcome)
    requires Invariant(s) && |s.running| > 0 && s.running[0].Waiting?
    ensures SavedAsShown(Next(s, ServeAction(0, o)))
  {
    hide Good, WellMarked, IsMapping, Accepts;
    OneAction(s, 0);
  }

  lemma DeliverOwned(s: State)
    requires Invariant(s) && |s.running| > 0 && s.running[0].Answered?
    ensures Exclusive(Next(s, Deliver(0))) && Owned(Next(s, Deliver(0)))
  {
    hide Good, WellMarked, IsMapping, Accepts, ServerAgrees, SavedAsShown;
    OneAction(s, 0);
    var t := Next(s, Deliver(0));
    assert t.running == [] || t.running == [t.running[0]];
    forall id | id in t.server.live
      ensures Held(t, id)
    {
      assert Held(s, id);
      if t.running != [] {
        assert t.running[0] in t.running;
      }
    }
  }

  lemma DeliverCurrent(s: State)
    requires Invariant(s) && |s.running| > 0 && s.running[0].Answered?
    ensures var t := Next(s, Deliver(0));
            t.client.mounted ==> ReviewIsCurrent(t.client) && forall a :: a in t.running ==> Current(t.client, a)
  {
    hide Good, WellMarked, IsMapping, Accepts, Owned, SavedAsShown;
    OneAction(s, 0);
    var a := s.running[0];
    if a.reply.Previewed? && a.call.ReviewRows? && s.client.mounted {
      InitialIsGood(a.reply.rows);
    }
  }

  lemma DeliverAgrees(s: State)
    requires Invariant(s) && |s.running| > 0 && s.running[0].Answered?
    ensures ServerAgrees(Next(s, Deliver(0))) && SavedAsShown(Next(s, Deliver(0)))
  {
    hide Good, WellMarked, IsMapping, Accepts, Owned;
    OneAction(s, 0);
    assert Next(s, Deliver(0)).server == s.server;
  }

  lemma DeliverKeeps(s: State)
    requires Invariant(s) && |s.running| > 0 && s.running[0].Answered?
    ensures Invariant(Next(s, Deliver(0)))
  {
    hide Next, Owned, Exclusive, ServerAgrees, SavedAsShown, ReviewIsCurrent, Current;
    DeliverOwned(s);
    DeliverCurrent(s);
    DeliverAgrees(s);
  }

  /** Every step keeps all of it: one action at a time, no source without a keeper, the review step
      showing what it was computed for, and saved rows being the ones on screen. */
  lemma NextKeeps(s: State, e: Event)
    requires Invariant(s) && Possible(e)
    ensures Invariant(Next(s, e))
  {
    hide Invariant;
    if IsPress(e) {
      PressKeeps(s, e);
    } else if IsLocal(e) {
      LocalKeeps(s, e);
    } else if e.ServeCancel? || e.Expire? {
      CancelKeeps(s, e);
    } else if Next(s, e) != s {
      IndexIsZero(s, e);
      if e.ServeAction? {
        ServeKeeps(s, e.outcome);
      } else {
        DeliverKeeps(s);
      }
    }
  }

  lemma IndexIsZero(s: State, e: Event)
    requires Invariant(s) && (e.ServeAction? || e.Deliver?) && Next(s, e) != s
    ensures e.k == 0 && |s.running| > 0
    ensures e.ServeAction? ==> s.running[0].Waiting?
    ensures e.Deliver? ==> s.running[0].Answered?
  {
  }

  lemma InitialHolds(onlyAccount: Option<nat>)
    ensures Invariant(Initial(onlyAccount))
  {
  }

  lemma {:induction false} RunKeeps(s: State, run: seq<Event>)
    requires Invariant(s) && AllPossible(run)
    ensures Invariant(Run(s, run))
    decreases |run|
  {
    hide Invariant, Next;
    if run == [] {
    } else {
      NextKeeps(s, run[0]);
      RunKeeps(Next(s, run[0]), run[1..]);
    }
  }

  // ---- What holds over every run ----

  /** Every cancel of the run that reaches the backend succeeds. */
  ghost predicate CancelsSucceed(s: State, run: seq<Event>)
    decreases |run|
  {
    run == [] ||
      (&& (run[0].ServeCancel? ==> run[0].ok)
       && (run[0].ServeAction? && run[0].k < |s.running| && s.running[run[0].k].call.CancelLate? ==> run[0].outcome.ok)
       && CancelsSucceed(Next(s, run[0]), run[1..]))
  }

  lemma {:induction false} NoOrphans(s: State, run: seq<Event>)
    requires CancelsSucceed(s, run)
    ensures Run(s, run).orphans == s.orphans
    decreases |run|
  {
    if run == [] {
    } else {
      NoOrphans(Next(s, run[0]), run[1..]);
    }
  }

  /** Two actions never overlap, whatever is pressed and however answers arrive. */
  lemma OneActionAtATime(onlyAccount: Option<nat>, run: seq<Event>)
    requires AllPossible(run)
    ensures |Run(Initial(onlyAccount), run).running| <= 1
  {
    hide Run;
    InitialHolds(onlyAccount);
    RunKeeps(Initial(onlyAccount), run);
  }

  /** Once unmounted with every call settled, the only sources still live are those whose cancel
      failed: none at all when cancels succeed. */
  lemma NothingLeaks(onlyAccount: Option<nat>, run: seq<Event>)
    requires AllPossible(run)
    ensures var s := Run(Initial(onlyAccount), run);
            (!s.client.mounted && s.running == [] && s.cancels == {}) ==>
              s.server.live.Keys <= s.orphans && (CancelsSucceed(Initial(onlyAccount), run) ==> s.server.live == map[])
  {
    hide Run, CancelsSucceed;
    InitialHolds(onlyAccount);
    RunKeeps(Initial(onlyAccount), run);
    var s := Run(Initial(onlyAccount), run);
    if !s.client.mounted && s.running == [] && s.cancels == {} {
      forall id | id in s.server.live
        ensures id in s.orphans
      {
        assert Held(s, id);
      }
      if CancelsSucceed(Initial(onlyAccount), run) {
        NoOrphans(Initial(onlyAccount), run);
      }
    }
  }

  /** Whenever the review step is shown, its preview and ticks were computed for the source, account and
      columns the dialog holds, and every ticked row is importable with a symbol of its own. */
  lemma ReviewShowsWhatWasReviewed(onlyAccount: Option<nat>, run: seq<Event>)
    requires AllPossible(run)
    ensures var c := Run(Initial(onlyAccount), run).client;
            c.mounted && c.step == Review ==>
              && c.preview.Some? && c.source == Some(c.preview.value.source)
              && c.account == Some(c.preview.value.account)
              && c.draft == c.preview.value.mapping && Good(c.preview.value.rows, c.selected)
  {
    hide Run, Good, WellMarked, IsMapping;
    InitialHolds(onlyAccount);
    RunKeeps(Initial(onlyAccount), run);
  }

  /** Whatever was saved was saved for the account, columns and rows on screen when Save was pressed,
      with distinct symbols, and no source was saved twice. */
  lemma SavedWhatWasShown(onlyAccount: Option<nat>, run: seq<Event>)
    requires AllPossible(run)
    ensures var saved := Run(Initial(onlyAccount), run).server.saved;
            && (forall k :: 0 <= k < |saved| ==>
                 saved[k].reviewed == saved[k].shown && Good(saved[k].shown.rows, saved[k].rows))
            && (forall i, j :: 0 <= i < j < |saved| ==> saved[i].reviewed.source != saved[j].reviewed.source)
  {
    hide Run, Good;
    InitialHolds(onlyAccount);
    RunKeeps(Initial(onlyAccount), run);
  }

  // ---- The import does go through, and the one way to leak ----

  /** Load, review and save, each answered: the steps of an undisturbed import. */
  function Undisturbed(account: nat, generation: nat, load: Outcome, review: Outcome, save: Outcome): seq<Event> {
    [GenerationRead(generation), PickAccount(account), PressLoad, ServeAction(0, load), Deliver(0),
     PressReview, ServeAction(0, review), Deliver(0),
     PressSave, ServeAction(0, save), Deliver(0), ServeAction(0, save), Deliver(0)]
  }

  lemma {:induction false} RunSplit(s: State, a: seq<Event>, b: seq<Event>)
    ensures Run(s, a + b) == Run(Run(s, a), b)
    decreases |a|
  {
    hide Next;
    if a == [] {
      assert a + b == b;
    } else {
      assert (a + b)[1..] == a[1..] + b;
      RunSplit(Next(s, a[0]), a[1..], b);
    }
  }

  lemma RunTwo(s: State, a: Event, b: Event)
    ensures Run(s, [a, b]) == Next(Next(s, a), b)
  {
    hide Next;
    assert [a, b][1..] == [b] && [b][1..] == [];
    assert Run(Next(s, a), [b]) == Run(Next(Next(s, a), b), []);
  }

  lemma RunThree(s: State, a: Event, b: Event, c: Event)
    ensures Run(s, [a, b, c]) == Next(Next(Next(s, a), b), c)
  {
    hide Next;
    assert [a, b, c][1..] == [b, c];
    RunTwo(Next(s, a), b, c);
  }

  /** An undisturbed import saves exactly the rows ticked to begin with, for the chosen account, and
      leaves nothing behind. */
  lemma ImportCompletes(account: nat, generation: nat, load: Outcome, review: Outcome, save: Outcome)
    requires load.ok && review.ok && save.ok && IsMapping(load.suggested)
    requires DistinctNumbers(review.parsed) && |review.parsed| <= MAX_ROWS
    requires InitialSelection(MarkedRows(review.parsed, review.existing)) != {}
    ensures var s := Run(Initial(None), Undisturbed(account, generation, load, review, save));
            var shown := Preview(load.newId, account, load.suggested, MarkedRows(review.parsed, review.existing));
            && s.client.step == Done && !s.client.busy && s.running == [] && s.server.live == map[]
            && s.server.saved == [Saved(shown, InitialSelection(shown.rows), shown)]
  {
    hide IsMapping, InitialSelection, MarkedRows, Accepts, Good, WellMarked, DistinctNumbers, Run, Next;
    var rows := MarkedRows(review.parsed, review.existing);
    MarkedRowsAreWellMarked(review.parsed, review.existing);
    InitialIsGood(rows);
    GoodIsAccepted(rows, InitialSelection(rows));
    var s0 := AfterOpening(account, generation);
    var s1 := AfterLoad(s0, load);
    var s2 := AfterReview(s1, account, review);
    var s3 := AfterSave(s2, Preview(load.newId, account, load.suggested, rows), save);
    var s4 := AfterReport(s3, save);
    var e0, e1, e2 := [GenerationRead(generation), PickAccount(account)], [PressLoad, ServeAction(0, load), Deliver(0)],
                      [PressReview, ServeAction(0, review), Deliver(0)];
    var e3, e4 := [PressSave, ServeAction(0, save), Deliver(0)], [ServeAction(0, save), Deliver(0)];
    calc {
      Run(Initial(None), Undisturbed(account, generation, load, review, save));
      { assert Undisturbed(account, generation, load, review, save) == e0 + (e1 + (e2 + (e3 + e4))); }
      Run(Initial(None), e0 + (e1 + (e2 + (e3 + e4))));
      { RunSplit(Initial(None), e0, e1 + (e2 + (e3 + e4))); }
      Run(s0, e1 + (e2 + (e3 + e4)));
      { RunSplit(s0, e1, e2 + (e3 + e4)); }
      Run(s1, e2 + (e3 + e4));
      { RunSplit(s1, e2, e3 + e4); }
      Run(s2, e3 + e4);
      { RunSplit(s2, e3, e4); }
      Run(s3, e4);
      s4;
    }
  }

  lemma AfterOpening(account: nat, generation: nat) returns (t: State)
    ensures t == Run(Initial(None), [GenerationRead(generation), PickAccount(account)])
    ensures t == Initial(None).(client := Opened(Some(account)).(generation := Some(generation)))
  {
    hide Run;
    RunTwo(Initial(None), GenerationRead(generation), PickAccount(account));
    t := Next(Next(Initial(None), GenerationRead(generation)), PickAccount(account));
  }

  lemma AfterReport(s: State, o: Outcome) returns (t: State)
    requires s.running == [Waiting(Report)] && o.ok
    ensures t == Run(s, [ServeAction(0, o), Deliver(0)])
    ensures t == s.(running := [], client := Idle(s.client))
  {
    hide Run;
    RunTwo(s, ServeAction(0, o), Deliver(0));
    t := Next(Next(s, ServeAction(0, o)), Deliver(0));
  }

  lemma AfterLoad(s: State, o: Outcome) returns (t: State)
    requires s.client.mounted && !s.client.busy && s.client.generation.Some? && s.client.account.Some?
             && s.client.step == Source
    requires s.client.sourceId.None? && s.running == [] && s.server == Server(map[], {}, [], []) && o.ok
    ensures t == Run(s, [PressLoad, ServeAction(0, o), Deliver(0)])
    ensures t.running == [] && t.server == Server(map[o.newId := None], {o.newId}, [], [])
    ensures t.client == s.client.(sourceId := Some(o.newId), source := Some(o.newId), draft := o.suggested,
                                         preview := None, step := Mapping)
  {
    hide Run;
    RunThree(s, PressLoad, ServeAction(0, o), Deliver(0));
    t := Next(Next(Next(s, PressLoad), ServeAction(0, o)), Deliver(0));
  }

  lemma AfterReview(s: State, account: nat, o: Outcome) returns (t: State)
    requires s.client.mounted && !s.client.busy && s.client.step == Mapping && s.client.account == Some(account)
    requires s.client.source.Some? && IsMapping(s.client.draft) && s.running == []
             && s.client.source.value in s.server.live && o.ok
    ensures t == Run(s, [PressReview, ServeAction(0, o), Deliver(0)])
    ensures var shown := Preview(s.client.source.value, account, s.client.draft, MarkedRows(o.parsed, o.existing));
            t.running == [] && t.server == s.server.(live := s.server.live[s.client.source.value := Some(shown)],
                                      reviews := s.server.reviews + [Reviewed(shown, o.parsed, o.existing)])
            && t.client == s.client.(preview := Some(shown), selected := InitialSelection(shown.rows), step := Review)
  {
    hide IsMapping, InitialSelection, MarkedRows, Run;
    RunThree(s, PressReview, ServeAction(0, o), Deliver(0));
    t := Next(Next(Next(s, PressReview), ServeAction(0, o)), Deliver(0));
  }

  lemma AfterSave(s: State, shown: Preview, o: Outcome) returns (t: State)
    requires s.client.mounted && !s.client.busy && s.client.step == Review && s.client.preview == Some(shown)
    requires s.client.source == Some(shown.source) && s.client.selected != {} && s.running == [] && o.ok
    requires s.server.live == map[shown.source := Some(shown)] && Accepts(shown.rows, s.client.selected)
    ensures t == Run(s, [PressSave, ServeAction(0, o), Deliver(0)])
    ensures t.running == [Waiting(Report)] && t.server.live == map[] && t.client.step == Done
    ensures t.server.saved == s.server.saved + [Saved(shown, s.client.selected, shown)]
  {
    hide Accepts, Run;
    RunThree(s, PressSave, ServeAction(0, o), Deliver(0));
    t := Next(Next(Next(s, PressSave), ServeAction(0, o)), Deliver(0));
  }

  /** Unmounting while a load is on its way leaves its source to the late cancel. */
  lemma LoadedTooLate(s: State, o: Outcome) returns (t: State)
    requires s.client.mounted && s.client.sourceId.None? && s.running == [Waiting(Load)] && o.ok
    requires s.server == Server(map[], {}, [], []) && s.cancels == {}
    ensures t == Run(s, [ServeAction(0, o), Unmount, Deliver(0)])
    ensures !t.client.mounted && t.running == [Waiting(CancelLate(o.newId))] && t.cancels == {}
    ensures t.server.live == map[o.newId := None]
  {
    hide Run;
    RunThree(s, ServeAction(0, o), Unmount, Deliver(0));
    t := Next(Next(Next(s, ServeAction(0, o)), Unmount), Deliver(0));
  }

  lemma LateCancelFails(s: State, id: nat, o: Outcome) returns (t: State)
    requires s.running == [Waiting(CancelLate(id))] && !o.ok
    ensures t == Run(s, [ServeAction(0, o), Deliver(0)])
    ensures t.running == [] && t.server == s.server && t.cancels == s.cancels && t.client.mounted == s.client.mounted
  {
    hide Run;
    RunTwo(s, ServeAction(0, o), Deliver(0));
    t := Next(Next(s, ServeAction(0, o)), Deliver(0));
  }

  lemma LoadPressed() returns (t: State)
    ensures t == Run(Initial(Some(1)), [GenerationRead(7), PressLoad])
    ensures t.client.mounted && t.client.sourceId.None? && t.running == [Waiting(Load)]
    ensures t.server == Server(map[], {}, [], []) && t.cancels == {}
  {
    hide Run;
    RunTwo(Initial(Some(1)), GenerationRead(7), PressLoad);
    t := Next(Next(Initial(Some(1)), GenerationRead(7)), PressLoad);
  }

  /** The condition on cancels is needed: unmount while loading, let the late cancel fail, and the
      source stays, with every call settled. */
  lemma FailedCancelLeaks(load: Outcome, failure: Outcome)
    requires load.ok && !failure.ok
    ensures var run := [GenerationRead(7), PressLoad]
                + ([ServeAction(0, load), Unmount, Deliver(0)] + [ServeAction(0, failure), Deliver(0)]);
            var s := Run(Initial(Some(1)), run);
            !s.client.mounted && s.running == [] && s.cancels == {} && load.newId in s.server.live
  {
    hide Run;
    var s0 := LoadPressed();
    var s1 := LoadedTooLate(s0, load);
    var s2 := LateCancelFails(s1, load.newId, failure);
    var e0, e1, e2 := [GenerationRead(7), PressLoad], [ServeAction(0, load), Unmount, Deliver(0)],
        [ServeAction(0, failure), Deliver(0)];
    RunSplit(Initial(Some(1)), e0, e1 + e2);
    RunSplit(s0, e1, e2);
  }

  // ---- Nothing the account already held is saved ----

  ghost predicate ReviewOf(server: Server, preview: Preview) {
    exists e :: e in server.reviews && e.preview == preview
  }

  /** Every review shows what was parsed and held then, every live or saved preview is from a review, and
      everything saved was accepted. */
  ghost predicate Recorded(server: Server) {
    && (forall e :: e in server.reviews ==>
          e.preview.rows == MarkedRows(e.parsed, e.existing) && DistinctNumbers(e.parsed))
    && (forall id :: id in server.live && server.live[id].Some? ==> ReviewOf(server, server.live[id].value))
    && (forall k :: 0 <= k < |server.saved| ==>
          ReviewOf(server, server.saved[k].reviewed) && Accepts(server.saved[k].reviewed.rows, server.saved[k].rows))
  }

  lemma ServeRecords(server: Server, call: Call, o: Outcome)
    requires Recorded(server) && DistinctNumbers(o.parsed)
    ensures Recorded(Serve(server, call, o).0)
  {
    hide MarkedRows, DistinctNumbers, Accepts;
    var t := Serve(server, call, o).0;
    forall preview | ReviewOf(server, preview)
      ensures ReviewOf(t, preview)
    {
      var e :| e in server.reviews && e.preview == preview;
      assert e in t.reviews;
    }
    if call.ReviewRows? && t != server {
      assert t.reviews[|t.reviews| - 1] in t.reviews;
    }
  }

  lemma LessRecorded(server: Server, live: map<nat, Option<Preview>>)
    requires Recorded(server) && forall id :: id in live ==> id in server.live && live[id] == server.live[id]
    ensures Recorded(server.(live := live))
  {
    hide MarkedRows, DistinctNumbers, Accepts;
    forall preview | ReviewOf(server, preview)
      ensures ReviewOf(server.(live := live), preview)
    {
    }
  }

  lemma NextRecords(s: State, e: Event)
    requires Recorded(s.server) && Possible(e)
    ensures Recorded(Next(s, e).server)
  {
    hide Recorded, Serve;
    match e
    case ServeAction(k, o) =>
      if k < |s.running| && s.running[k].Waiting? {
        ServeRecords(s.server, s.running[k].call, o);
      }
    case ServeCancel(id, ok) => LessRecorded(s.server, s.server.live - {id});
    case Expire(ids) => LessRecorded(s.server, s.server.live - ids);
    case _ => LocalServer(s, e);
  }

  lemma LocalServer(s: State, e: Event)
    requires !e.ServeAction? && !e.ServeCancel? && !e.Expire?
    ensures Next(s, e).server == s.server
  {
    hide Disabled, IsMapping;
  }

  lemma {:induction false} RunRecords(s: State, run: seq<Event>)
    requires Recorded(s.server) && AllPossible(run)
    ensures Recorded(Run(s, run).server)
    decreases |run|
  {
    hide Recorded, Next;
    if run == [] {
    } else {
      NextRecords(s, run[0]);
      RunRecords(Next(s, run[0]), run[1..]);
    }
  }

  /** In every run, whatever was saved was one to 5000 rows of one review, as it was on screen: each
      describes a holding the account did not have when it was reviewed, and no two have one symbol. */
  lemma SavedWereNew(onlyAccount: Option<nat>, run: seq<Event>, k: nat) returns (e: Reviewed)
    requires AllPossible(run) && k < |Run(Initial(onlyAccount), run).server.saved|
    ensures var server := Run(Initial(onlyAccount), run).server;
            e in server.reviews && e.preview == server.saved[k].reviewed == server.saved[k].shown
    ensures var rows := Run(Initial(onlyAccount), run).server.saved[k].rows;
            && 1 <= |rows| <= 5000
            && (forall n :: n in rows ==> NewRow(e.parsed, e.existing, n))
            && (forall i, j :: 0 <= i < j < |e.parsed| && e.parsed[i].number in rows && e.parsed[j].number in rows
                  ==> e.parsed[i].symbol != e.parsed[j].symbol)
  {
    hide Run, Good, Accepts, MarkedRows, NewRow, AllPossible;
    assert Recorded(Initial(onlyAccount).server);
    RunRecords(Initial(onlyAccount), run);
    SavedWhatWasShown(onlyAccount, run);
    var saved := Run(Initial(onlyAccount), run).server.saved[k];
    assert ReviewOf(Run(Initial(onlyAccount), run).server, saved.reviewed);
    e :| e in Run(Initial(onlyAccount), run).server.reviews && e.preview == saved.reviewed;
    GoodExactly(e.parsed, e.existing, saved.rows);
    AcceptsExactly(e.parsed, e.existing, saved.rows);
  }

  // ---- When an action starts, and how it ends ----

  /** A press starts an action exactly when the dialog is open and idle on the right step with what the
      action needs, and then makes exactly one call: a load cancels the source held first, a review asks
      about the source, account and columns held, a save commits the ticks on screen. */
  lemma PressStartsExactly(s: State, e: Event)
    requires Exclusive(s) && IsPress(e)
    ensures var c, t := s.client, Next(s, e);
            var ready := match e
                         case PressLoad => c.step == Source && c.account.Some? && c.generation.Some?
                         case PressReview =>
                           c.step == Mapping && c.account.Some? && c.source.Some? && IsMapping(c.draft)
                         case PressSave => c.step == Review && c.source.Some? && c.preview.Some? && c.selected != {}
                         case PressElsewhere => c.step == Source
                         case _ => false;
            if c.mounted && !c.busy && ready then
              && |t.running| == 1 && t.running[0].Waiting? && t.client == c.(busy := true)
              && match e
                 case PressLoad =>
                   t.running[0].call == (if c.sourceId.Some? then CancelOld(c.sourceId.value) else Load)
                 case PressReview => t.running[0].call == ReviewRows(c.source.value, c.account.value, c.draft)
                 case PressSave => t.running[0].call == Commit(c.source.value, c.selected, c.preview.value)
                 case PressElsewhere => t.running[0].call == Elsewhere
                 case _ => true
            else t == s
  {
    hide IsMapping;
  }

  /** A call that fails ends its action and leaves the dialog, and the backend, as they were. */
  lemma FailureChangesNothing(s: State, o: Outcome)
    requires Exclusive(s) && |s.running| > 0 && s.running[0].Waiting? && !o.ok
    ensures var t := Next(Next(s, ServeAction(0, o)), Deliver(0));
            t.client == s.client.(busy := false) && t.running == [] && t.server == s.server
  {
  }

  /** Loading again replaces the source: the one held is cancelled, then the new one is held and no other
      is live. */
  lemma ReloadReplacesSource(s: State, held: nat, cancel: Outcome, load: Outcome)
    requires s.client.mounted && !s.client.busy && s.client.step == Source && s.running == []
    requires s.client.account.Some? && s.client.generation.Some? && s.client.sourceId == Some(held)
    requires s.server.live.Keys == {held} && cancel.ok && load.ok && load.newId !in s.server.issued
    ensures var t := Run(Run(s, [PressLoad, ServeAction(0, cancel), Deliver(0)]), [ServeAction(0, load), Deliver(0)]);
            && t.server.live == map[load.newId := None] && t.client.sourceId == Some(load.newId) == t.client.source
            && t.client.step == Mapping && t.client.draft == load.suggested && !t.client.busy && t.running == []
  {
    hide Run;
    RunThree(s, PressLoad, ServeAction(0, cancel), Deliver(0));
    var u := Next(Next(Next(s, PressLoad), ServeAction(0, cancel)), Deliver(0));
    assert u.running == [Waiting(Load)] && u.server.live == map[];
    RunTwo(u, ServeAction(0, load), Deliver(0));
  }

  /** Going back from the review, or picking an account there, keeps source and columns and takes the
      review off the screen: nothing can be saved until it has been made again. */
  lemma LeavingTheReview(s: State, e: Event)
    requires s.client.mounted && !s.client.busy && s.client.step == Review && (e == Back || e.PickAccount?)
    ensures var c, c' := s.client, Next(s, e).client;
            && c'.step == Mapping && c'.source == c.source && c'.sourceId == c.sourceId && c'.draft == c.draft
            && (e == Back ==> c'.account == c.account)
            && (e.PickAccount? ==> c'.account == Some(e.account) && c'.preview.None?)
    ensures Next(Next(s, e), PressSave) == Next(s, e)
    ensures Next(Next(s, e), Back).client.step == Source
  {
    hide Disabled, IsMapping;
  }

  /** The columns in use, field by field. */
  function ColumnsOf(d: Draft): seq<nat> {
    InUse(d.symbol) + InUse(d.name) + InUse(d.shares) + InUse(d.price) + InUse(d.costBasis) + InUse(d.assetClass)
  }

  function InUse(column: Option<nat>): seq<nat> {
    if column.Some? then [column.value] else []
  }

  /** The form is a mapping exactly when symbol, shares, price and cost basis have columns and as many
      columns are in use as fields have one. */
  lemma MappingExactly(d: Draft)
    ensures IsMapping(d) <==>
            && d.symbol.Some? && d.shares.Some? && d.price.Some? && d.costBasis.Some?
            && forall i, j :: 0 <= i < j < |ColumnsOf(d)| ==> ColumnsOf(d)[i] != ColumnsOf(d)[j]
  {
    if d.symbol.Some? && d.shares.Some? && d.price.Some? && d.costBasis.Some? {
      var c := Chosen(d);
      var a, b, e, f := d.symbol.value, d.shares.value, d.price.value, d.costBasis.value;
      assert ColumnsOf(d) == [a] + InUse(d.name) + [b, e, f] + InUse(d.assetClass);
      assert c[0] == Some(a) && c[2] == Some(b) && c[3] == Some(e) && c[4] == Some(f);
      FieldsApart(d);
      ColumnsApart(d);
    }
  }

  ghost predicate SixApart(d: Draft)
    requires d.symbol.Some? && d.shares.Some? && d.price.Some? && d.costBasis.Some?
  {
    && d.symbol != d.shares && d.symbol != d.price && d.symbol != d.costBasis && d.shares != d.price
    && d.shares != d.costBasis && d.price != d.costBasis
    && (d.name.Some? ==> d.name != d.symbol && d.name != d.shares && d.name != d.price && d.name != d.costBasis
                         && d.name != d.assetClass)
    && (d.assetClass.Some? ==> d.assetClass != d.symbol && d.assetClass != d.shares && d.assetClass != d.price
                               && d.assetClass != d.costBasis)
  }

  lemma FieldsApart(d: Draft)
    requires d.symbol.Some? && d.shares.Some? && d.price.Some? && d.costBasis.Some?
    ensures (forall i, j :: 0 <= i < j < 6 && Chosen(d)[i].Some? ==> Chosen(d)[i] != Chosen(d)[j]) <==> SixApart(d)
  {
    var c := Chosen(d);
    if forall i, j :: 0 <= i < j < 6 && c[i].Some? ==> c[i] != c[j] {
      assert c[0] != c[1] && c[0] != c[2] && c[0] != c[3] && c[0] != c[4] && c[0] != c[5];
      assert c[1].Some? ==> c[1] != c[2] && c[1] != c[3] && c[1] != c[4] && c[1] != c[5];
      assert c[2] != c[3] && c[2] != c[4] && c[2] != c[5] && c[3] != c[4] && c[3] != c[5] && c[4] != c[5];
    }
  }

  lemma ColumnsApart(d: Draft)
    requires d.symbol.Some? && d.shares.Some? && d.price.Some? && d.costBasis.Some?
    ensures (forall i, j :: 0 <= i < j < |ColumnsOf(d)| ==> ColumnsOf(d)[i] != ColumnsOf(d)[j]) <==> SixApart(d)
  {
    var u := ColumnsOf(d);
    var n := if d.name.Some? then 1 else 0;
    assert u[0] == d.symbol.value && u[n + 1] == d.shares.value && u[n + 2] == d.price.value
           && u[n + 3] == d.costBasis.value;
    assert d.name.Some? ==> u[1] == d.name.value;
    assert d.assetClass.Some? ==> u[n + 4] == d.assetClass.value;
    assert |u| == n + 4 + if d.assetClass.Some? then 1 else 0;
    if forall i, j :: 0 <= i < j < |u| ==> u[i] != u[j] {
      assert u[0] != u[n + 1] && u[0] != u[n + 2] && u[0] != u[n + 3];
    }
  }

  /** Closing an idle dialog cancels the source it holds: none is live once that has got through, and if it
      fails the source is left as one whose cancel failed. */
  lemma UnmountCancels(s: State, id: nat, ok: bool)
    requires s.client.mounted && s.client.sourceId == Some(id) && s.cancels == {} && s.server.live.Keys == {id}
    ensures var t := Next(Next(s, Unmount), ServeCancel(id, ok));
            && !t.client.mounted && t.cancels == {} && t.running == s.running
            && (if ok then t.server.live == map[] && t.orphans == s.orphans
                else t.server.live == s.server.live && t.orphans == s.orphans + {id})
  {
  }

  // ---- An import in which the person changes columns and ticks ----

  predicate IsTick(e: Event) {
    e.ToggleRow? || e.SelectAll? || e.ClearSelection?
  }

  ghost predicate Ticks(events: seq<Event>) {
    forall k :: 0 <= k < |events| ==> IsTick(events[k])
  }

  lemma {:induction false} TicksOnly(s: State, events: seq<Event>)
    requires Ticks(events)
    ensures Run(s, events) == s.(client := s.client.(selected := Run(s, events).client.selected))
    decreases |events|
  {
    if events == [] {
    } else {
      OneTick(s, events[0]);
      hide Next;
      TicksOnly(Next(s, events[0]), events[1..]);
    }
  }

  lemma OneTick(s: State, e: Event)
    requires IsTick(e)
    ensures Next(s, e) == s.(client := s.client.(selected := Next(s, e).client.selected))
  {
    hide Disabled;
  }

  /** What a tick does while a review is on screen: an enabled box flips its row and no other, Select all
      ticks what was ticked at first, Clear nothing. */
  lemma TickExactly(s: State, e: Event)
    requires s.client.mounted && !s.client.busy && s.client.step == Review && s.client.preview.Some? && IsTick(e)
    requires WellMarked(s.client.preview.value.rows)
    requires e.ToggleRow? ==> e.row in s.client.preview.value.rows
    ensures var rows, was, now := s.client.preview.value.rows, s.client.selected, Next(s, e).client.selected;
            match e
            case ToggleRow(row) =>
              if Disabled(false, rows, was, row) then now == was
              else (row.number in now <==> row.number !in was)
                   && forall n :: n != row.number ==> (n in now <==> n in was)
            case SelectAll => now == InitialSelection(rows)
            case _ => now == {}
  {
    hide Disabled, WellMarked;
    InitialIsGood(s.client.preview.value.rows);
  }

  /** The steps of an import in which other columns are chosen and boxes are ticked. */
  function WithChoices(account: nat, generation: nat, load: Outcome, draft: Draft, review: Outcome, ticks: seq<Event>,
      save: Outcome): seq<Event>
  {
    [GenerationRead(generation), PickAccount(account)]
    + ([PressLoad, ServeAction(0, load), Deliver(0)]
       + ([EditDraft(draft)]
          + ([PressReview, ServeAction(0, review), Deliver(0)]
             + (ticks + ([PressSave, ServeAction(0, save), Deliver(0)] + [ServeAction(0, save), Deliver(0)])))))
  }

  /** The state when Save is pressed in it. */
  function AtSave(account: nat, generation: nat, load: Outcome, draft: Draft, review: Outcome, ticks: seq<Event>)
      : State
  {
    var started := Run(Initial(None), [GenerationRead(generation), PickAccount(account)]);
    var loaded := Run(started, [PressLoad, ServeAction(0, load), Deliver(0)]);
    var edited := Next(loaded, EditDraft(draft));
    Run(Run(edited, [PressReview, ServeAction(0, review), Deliver(0)]), ticks)
  }

  /** Whatever columns are chosen and boxes ticked, an import without failures saves exactly the rows then
      ticked, for the account and columns chosen, and leaves nothing behind. */
  lemma ImportSavesTheTicks(account: nat, generation: nat, load: Outcome, draft: Draft, review: Outcome,
      ticks: seq<Event>, save: Outcome)
    requires load.ok && review.ok && save.ok && IsMapping(draft) && Ticks(ticks)
    requires DistinctNumbers(review.parsed) && |review.parsed| <= MAX_ROWS
    requires AtSave(account, generation, load, draft, review, ticks).client.selected != {}
    ensures var s := Run(Initial(None), WithChoices(account, generation, load, draft, review, ticks, save));
            var shown := Preview(load.newId, account, draft, MarkedRows(review.parsed, review.existing));
            var ticked := AtSave(account, generation, load, draft, review, ticks).client.selected;
            && s.client.step == Done && !s.client.busy && s.running == [] && s.server.live == map[]
            && s.server.saved == [Saved(shown, ticked, shown)]
  {
    hide IsMapping, InitialSelection, MarkedRows, Accepts, Good, WellMarked, DistinctNumbers, Run, Next, AtSave, Ticks;
    var rows := MarkedRows(review.parsed, review.existing);
    var s0 := AfterOpening(account, generation);
    var s1 := AfterLoad(s0, load);
    var s2 := AfterEdit(s1, draft);
    var s3 := AfterReview(s2, account, review);
    TicksOnly(s3, ticks);
    var s4 := Run(s3, ticks);
    AtSaveIs(account, generation, load, draft, review, ticks, s0, s1, s2, s3);
    MarkedRowsAreWellMarked(review.parsed, review.existing);
    InitialIsGood(rows);
    TicksKeepGood(s3, ticks);
    GoodIsAccepted(rows, s4.client.selected);
    var s5 := AfterSave(s4, Preview(load.newId, account, draft, rows), save);
    var s6 := AfterReport(s5, save);
    var e0, e1 := [GenerationRead(generation), PickAccount(account)], [PressLoad, ServeAction(0, load), Deliver(0)];
    var e3, e5 := [PressReview, ServeAction(0, review), Deliver(0)], [PressSave, ServeAction(0, save), Deliver(0)];
    var e6 := [ServeAction(0, save), Deliver(0)];
    RunSplit(Initial(None), e0, e1 + ([EditDraft(draft)] + (e3 + (ticks + (e5 + e6)))));
    RunSplit(s0, e1, [EditDraft(draft)] + (e3 + (ticks + (e5 + e6))));
    RunSplit(s1, [EditDraft(draft)], e3 + (ticks + (e5 + e6)));
    RunSplit(s2, e3, ticks + (e5 + e6));
    RunSplit(s3, ticks, e5 + e6);
    RunSplit(s4, e5, e6);
  }

  lemma AfterEdit(s: State, draft: Draft) returns (t: State)
    requires s.client.mounted && !s.client.busy && s.client.step == Mapping
    ensures t == Run(s, [EditDraft(draft)]) == Next(s, EditDraft(draft))
    ensures t == s.(client := s.client.(draft := draft))
  {
    assert [EditDraft(draft)][1..] == [];
    t := Next(s, EditDraft(draft));
    assert Run(s, [EditDraft(draft)]) == Run(t, []);
  }

  lemma AtSaveIs(account: nat, generation: nat, load: Outcome, draft: Draft, review: Outcome, ticks: seq<Event>,
      s0: State, s1: State, s2: State, s3: State)
    requires s0 == Run(Initial(None), [GenerationRead(generation), PickAccount(account)])
    requires s1 == Run(s0, [PressLoad, ServeAction(0, load), Deliver(0)]) && s2 == Next(s1, EditDraft(draft))
    requires s3 == Run(s2, [PressReview, ServeAction(0, review), Deliver(0)])
    ensures AtSave(account, generation, load, draft, review, ticks) == Run(s3, ticks)
  {
    hide Run, Next;
  }

  ghost predicate Reviewing(c: Client) {
    && c.mounted && !c.busy && c.step == Review && c.preview.Some?
    && WellMarked(c.preview.value.rows) && Good(c.preview.value.rows, c.selected)
  }

  lemma TickKeepsGood(s: State, e: Event)
    requires Reviewing(s.client) && IsTick(e)
    ensures Reviewing(Next(s, e).client)
  {
    hide Good, WellMarked, Disabled;
    var rows := s.client.preview.value.rows;
    match e
    case ToggleRow(row) =>
      if row in rows && !Disabled(false, rows, s.client.selected, row) {
        if row.number in s.client.selected {
          SelectedCanBeUnticked(rows, s.client.selected, row);
        } else {
          EnabledExactlyWhenGood(rows, s.client.selected, row);
        }
      }
    case SelectAll => InitialIsGood(rows);
    case _ => EmptyIsGood(rows);
  }

  lemma {:induction false} TicksKeepGood(s: State, events: seq<Event>)
    requires Reviewing(s.client) && Ticks(events)
    ensures Reviewing(Run(s, events).client)
    decreases |events|
  {
    hide Reviewing, Next;
    if events == [] {
    } else {
      TickKeepsGood(s, events[0]);
      TicksKeepGood(Next(s, events[0]), events[1..]);
    }
  }
}
