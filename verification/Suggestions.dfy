/** Budget suggestions: asked for the month being viewed, answered late, and applied by writing one row
    after another. Months may be changed at any moment in between. */
module Suggestions {
  import opened Options

  datatype Month = Month(year: int, month: int)

  datatype Line = Line(category: string, amount: string, group: string)

  /** A request that has not been answered, with the token and the month it was made with. */
  datatype Request = Request(token: nat, month: Month)

  /** What is on screen, and the month the backend computed it for. */
  datatype Shown = Shown(computedFor: Month, rows: seq<Line>)

  /** One press of Apply: the suggestions it came from, the period captured with it, its rows and how
      far the loop has got. */
  datatype Applying = Applying(computedFor: Month, period: Month, rows: seq<Line>, done: nat, stopped: bool)

  /** One budget written by the loop of application `owner`. */
  datatype Write = Write(owner: nat, period: Month, row: Line)

  datatype State = State(
    viewed: Month, suggestionRequest: nat, flights: seq<Request>, suggestions: Option<Shown>,
    applications: seq<Applying>, writes: seq<Write>)

  datatype Event =
    | ChangeMonth(month: Month)
    | Open
    | Answer(k: nat, reply: Option<seq<Line>>)
    | Cancel
    | Apply(rows: seq<Line>)
    | Wrote(k: nat, ok: bool)

  function Start(month: Month): State {
    State(month, 0, [], None, [], [])
  }

  function Without(flights: seq<Request>, k: nat): seq<Request>
    requires k < |flights|
  {
    flights[..k] + flights[k + 1..]
  }

  function Next(s: State, e: Event): State {
    match e
    case ChangeMonth(month) =>
      if month == s.viewed then s
      else s.(viewed := month, suggestionRequest := s.suggestionRequest + 1, suggestions := None)
    case Open =>
      var token := s.suggestionRequest + 1;
      s.(suggestionRequest := token, flights := s.flights + [Request(token, s.viewed)])
    case Answer(k, rows) =>
      if k < |s.flights| then
        var request := s.flights[k];
        var rest := s.(flights := Without(s.flights, k));
        if rows.Some? && request.token == s.suggestionRequest
        then rest.(suggestions := Some(Shown(request.month, rows.value))) else rest
      else s
    case Cancel => s.(suggestions := None)
    case Apply(rows) =>
      if s.suggestions.Some? then
        s.(suggestions := None,
           applications := s.applications + [Applying(s.suggestions.value.computedFor, s.viewed, rows, 0, false)])
      else s
    case Wrote(k, ok) =>
      if k < |s.applications| && !s.applications[k].stopped && s.applications[k].done < |s.applications[k].rows| then
        var a := s.applications[k];
        if ok then
          s.(applications := s.applications[k := a.(done := a.done + 1)],
             writes := s.writes + [Write(k, a.period, a.rows[a.done])])
        else s.(applications := s.applications[k := a.(stopped := true)])
      else s
  }

  function Run(s: State, events: seq<Event>): State
    decreases |events|
  {
    if events == [] then s else Run(Next(s, events[0]), events[1..])
  }

  /** The view with its request counter, and the page's loop of writes. */
  class BudgetView {
    var viewed: Month
    var suggestionRequest: nat
    var suggestions: Option<Shown>

    constructor (month: Month)
      ensures viewed == month && suggestionRequest == 0 && suggestions == None
    {
      viewed, suggestionRequest, suggestions := month, 0, None;
    }

    /** The effect of a month change, with the clean-up of the one before. */
    method ChangeTo(month: Month)
      modifies this
      ensures forall flights, applications, writes ::
                State(viewed, suggestionRequest, flights, suggestions, applications, writes)
                == Next(State(old(viewed), old(suggestionRequest), flights, old(suggestions), applications, writes),
                       ChangeMonth(month))
    {
      if month != viewed {
        viewed := month;
        suggestionRequest := suggestionRequest + 1;
        suggestions := None;
      }
    }

    method Ask() returns (request: Request)
      modifies this`suggestionRequest
      ensures forall flights, applications, writes ::
                State(viewed, suggestionRequest, flights + [request], suggestions, applications, writes)
                == Next(State(viewed, old(suggestionRequest), flights, suggestions, applications, writes), Open)
    {
      suggestionRequest := suggestionRequest + 1;
      request := Request(suggestionRequest, viewed);
    }

    /** What runs when the answer to a request arrives. */
    method Receive(request: Request, rows: Option<seq<Line>>)
      modifies this`suggestions
      ensures forall flights, k: nat, applications, writes | k < |flights| && flights[k] == request ::
                State(viewed, suggestionRequest, Without(flights, k), suggestions, applications, writes)
                == Next(State(viewed, suggestionRequest, flights, old(suggestions), applications, writes),
                       Answer(k, rows))
    {
      if rows.Some? && request.token == suggestionRequest {
        suggestions := Some(Shown(request.month, rows.value));
      }
    }
  }

  /** The budgets an application has written so far. */
  function WritesOf(owner: nat, period: Month, rows: seq<Line>): (r: seq<Write>)
    ensures |r| == |rows| && forall i :: 0 <= i < |rows| ==> r[i] == Write(owner, period, rows[i])
  {
    if rows == [] then [] else WritesOf(owner, period, rows[..|rows| - 1]) + [Write(owner, period, rows[|rows| - 1])]
  }

  /** The loop of `set_budget` calls: `accepted` says how many the backend takes before it fails. */
  method HandleApply(rows: seq<Line>, period: Month, owner: nat, accepted: nat)
      returns (writes: seq<Write>, finished: bool)
    ensures writes == WritesOf(owner, period, rows[..if accepted < |rows| then accepted else |rows|])
    ensures finished <==> |rows| <= accepted
  {
    writes := [];
    var i := 0;
    while i < |rows|
      invariant 0 <= i <= |rows| && i <= accepted
      invariant writes == WritesOf(owner, period, rows[..i])
    {
      if i == accepted {
        return writes, false;
      }
      assert rows[..i + 1][..i] == rows[..i];
      writes := writes + [Write(owner, period, rows[i])];
      i := i + 1;
    }
    finished := true;
  }

  // ---- Whose month ----

  ghost predicate Current(s: State) {
    && (s.suggestions.Some? ==> s.suggestions.value.computedFor == s.viewed)
    && (forall k :: 0 <= k < |s.flights| ==> s.flights[k].token <= s.suggestionRequest)
    && (forall k :: 0 <= k < |s.flights| && s.flights[k].token == s.suggestionRequest ==>
         s.flights[k].month == s.viewed)
  }

  /** Every application writes to the month its suggestions were computed for, row by row from the
      first, with nothing skipped or repeated. */
  ghost predicate SameMonth(s: State) {
    && (forall k :: 0 <= k < |s.applications| ==>
          s.applications[k].period == s.applications[k].computedFor
          && s.applications[k].done <= |s.applications[k].rows|)
    && (forall i :: 0 <= i < |s.writes| ==> s.writes[i].owner < |s.applications|)
    && forall k :: 0 <= k < |s.applications| ==>
         By(s.writes, k) == WritesOf(k, s.applications[k].computedFor, s.applications[k].rows[..s.applications[k].done])
  }

  function By(writes: seq<Write>, k: nat): seq<Write> {
    if writes == [] then []
    else By(writes[..|writes| - 1], k) + if writes[|writes| - 1].owner == k then [writes[|writes| - 1]] else []
  }

  lemma ByPush(writes: seq<Write>, w: Write, k: nat)
    ensures By(writes + [w], k) == By(writes, k) + if w.owner == k then [w] else []
  {
    assert (writes + [w])[..|writes|] == writes;
  }

  lemma {:induction false} NothingBy(writes: seq<Write>, k: nat)
    requires forall i :: 0 <= i < |writes| ==> writes[i].owner < k
    ensures By(writes, k) == []
  {
    if writes == [] {
    } else {
      NothingBy(writes[..|writes| - 1], k);
    }
  }

  lemma NextKeepsCurrent(s: State, e: Event)
    requires Current(s)
    ensures Current(Next(s, e))
  {
  }

  lemma NextKeepsSameMonth(s: State, e: Event)
    requires Current(s) && SameMonth(s)
    ensures SameMonth(Next(s, e))
  {
    match e
    case Apply(rows) =>
      hide By;
      NothingBy(s.writes, |s.applications|);
    case Wrote(k, ok) =>
      WroteKeepsSameMonth(s, k, ok);
    case _ =>
  }

  lemma WroteKeepsSameMonth(s: State, k: nat, ok: bool)
    requires SameMonth(s)
    ensures SameMonth(Next(s, Wrote(k, ok)))
  {
    hide By, WritesOf;
    var t := Next(s, Wrote(k, ok));
    if ok && t != s {
      var a := s.applications[k];
      var w := Write(k, a.period, a.rows[a.done]);
      assert t.writes == s.writes + [w];
      forall j | 0 <= j < |t.applications|
        ensures By(t.writes, j) == WritesOf(j, t.applications[j].computedFor,
                    t.applications[j].rows[..t.applications[j].done])
      {
        ByPush(s.writes, w, j);
        if j == k {
          OneMoreWrite(k, a);
        }
      }
    }
  }

  lemma OneMoreWrite(k: nat, a: Applying)
    requires a.done < |a.rows| && a.period == a.computedFor
    ensures WritesOf(k, a.computedFor, a.rows[..a.done + 1])
         == WritesOf(k, a.computedFor, a.rows[..a.done]) + [Write(k, a.period, a.rows[a.done])]
  {
    assert a.rows[..a.done + 1][..a.done] == a.rows[..a.done];
  }

  lemma {:induction false} StepsKeepMonths(s: State, events: seq<Event>)
    requires Current(s) && SameMonth(s)
    ensures Current(Run(s, events)) && SameMonth(Run(s, events))
    decreases |events|
  {
    hide Current, SameMonth, Next;
    if events == [] {
    } else {
      NextKeepsCurrent(s, events[0]);
      NextKeepsSameMonth(s, events[0]);
      StepsKeepMonths(Next(s, events[0]), events[1..]);
    }
  }

  /** In every run from the opening of the view, whatever order answers and month changes arrive in:
      suggestions on screen belong to the month being viewed, and every application writes its rows, from
      the first, to the one month its suggestions were computed for. */
  lemma RunKeepsMonths(month: Month, events: seq<Event>)
    ensures Current(Run(Start(month), events)) && SameMonth(Run(Start(month), events))
  {
    hide Run;
    StepsKeepMonths(Start(month), events);
  }

  /** Events that leave the latest request the latest. */
  predicate Quiet(e: Event, token: nat, flights: seq<Request>) {
    match e
    case ChangeMonth(_) => false
    case Open => false
    case Answer(k, _) => k < |flights| ==> flights[k].token != token
    case _ => true
  }

  /** The answer to the latest request is shown if the month has not changed and nothing newer was
      asked, however many older answers came in first. */
  lemma {:induction false} LatestAnswerShown(s: State, events: seq<Event>, request: Request)
    requires request in s.flights && request.token == s.suggestionRequest
    requires forall i :: 0 <= i < |events| ==> QuietAt(s, events, i, request.token)
    ensures request in Run(s, events).flights
    ensures forall k: nat, rows | k < |Run(s, events).flights| && Run(s, events).flights[k] == request ::
              Next(Run(s, events), Answer(k, Some(rows))).suggestions == Some(Shown(request.month, rows))
    decreases |events|
  {
    if events == [] {
    } else {
      assert QuietAt(s, events, 0, request.token);
      QuietKeeps(s, events[0], request);
      var next := Next(s, events[0]);
      forall i | 0 <= i < |events[1..]|
        ensures QuietAt(next, events[1..], i, request.token)
      {
        assert QuietAt(s, events, i + 1, request.token);
        QuietShift(s, events, i);
      }
      LatestAnswerShown(next, events[1..], request);
    }
    StaysLatest(s, events, request.token);
  }

  predicate QuietAt(s: State, events: seq<Event>, i: nat, token: nat)
    requires i < |events|
  {
    Quiet(events[i], token, Run(s, events[..i]).flights)
  }

  lemma QuietShift(s: State, events: seq<Event>, i: nat)
    requires i + 1 < |events|
    ensures Run(s, events[..i + 1]) == Run(Next(s, events[0]), events[1..][..i])
  {
    assert events[..i + 1][1..] == events[1..][..i];
  }

  lemma QuietKeeps(s: State, e: Event, request: Request)
    requires request in s.flights && request.token == s.suggestionRequest && Quiet(e, request.token, s.flights)
    ensures request in Next(s, e).flights && Next(s, e).suggestionRequest == request.token
  {
    if e.Answer? && e.k < |s.flights| {
      var i :| 0 <= i < |s.flights| && s.flights[i] == request;
      var rest := Without(s.flights, e.k);
      assert rest[if i < e.k then i else i - 1] == request;
    }
  }

  lemma {:induction false} StaysLatest(s: State, events: seq<Event>, token: nat)
    requires s.suggestionRequest == token
    requires forall i :: 0 <= i < |events| ==> QuietAt(s, events, i, token)
    ensures Run(s, events).suggestionRequest == token
    decreases |events|
  {
    if events == [] {
    } else {
      assert QuietAt(s, events, 0, token);
      var next := Next(s, events[0]);
      forall i | 0 <= i < |events[1..]|
        ensures QuietAt(next, events[1..], i, token)
      {
        assert QuietAt(s, events, i + 1, token);
        QuietShift(s, events, i);
      }
      StaysLatest(next, events[1..], token);
    }
  }

  // ---- Where what is on screen came from ----

  /** The answer that put these suggestions on screen: to the latest request, and not empty. */
  predicate PutUpBy(s: State, e: Event, shown: Shown) {
    && e.Answer? && e.k < |s.flights| && s.flights[e.k].token == s.suggestionRequest
    && e.reply == Some(shown.rows) && s.flights[e.k].month == shown.computedFor
  }

  /** An event that takes suggestions down, or puts others up. */
  predicate TakesDown(s: State, e: Event) {
    match e
    case Cancel => true
    case Apply(_) => true
    case ChangeMonth(month) => month != s.viewed
    case Answer(k, reply) => k < |s.flights| && s.flights[k].token == s.suggestionRequest && reply.Some?
    case _ => false
  }

  /** One step, exactly: suggestions come up by an answer to the latest request, go by Cancel, Apply or
      another month, and otherwise stay. */
  lemma SuggestionStep(s: State, e: Event)
    ensures var t := Next(s, e);
            if TakesDown(s, e)
            then (if e.Answer? then t.suggestions.Some? && PutUpBy(s, e, t.suggestions.value) else t.suggestions.None?)
            else t.suggestions == s.suggestions
    ensures Next(s, e).viewed == if e.ChangeMonth? then e.month else s.viewed
  {
  }

  lemma {:induction false} RunSplit(s: State, events: seq<Event>, n: nat)
    requires n < |events|
    ensures Run(s, events[..n + 1]) == Next(Run(s, events[..n]), events[n])
    ensures events[..|events|] == events
    decreases n
  {
    if n == 0 {
      assert events[..1][1..] == [];
    } else {
      RunSplit(Next(s, events[0]), events[1..], n - 1);
      assert events[..n + 1][1..] == events[1..][..n] && events[..n][1..] == events[1..][..n - 1];
    }
  }

  /** In every run, suggestions on screen were put up by an answer that was not empty, to the request that
      was then the latest, for the month of that request, and nothing since has taken them down. */
  lemma {:induction false} ShownWasLatest(month: Month, events: seq<Event>) returns (i: nat)
    requires Run(Start(month), events).suggestions.Some?
    ensures i < |events|
    ensures PutUpBy(Run(Start(month), events[..i]), events[i], Run(Start(month), events).suggestions.value)
    ensures forall j :: i < j < |events| ==> !TakesDown(Run(Start(month), events[..j]), events[j])
    decreases |events|
  {
    var n := |events| - 1;
    RunSplit(Start(month), events, n);
    var before, last := Run(Start(month), events[..n]), events[n];
    assert Run(Start(month), events) == Next(before, last);
    SuggestionStep(before, last);
    if TakesDown(before, last) {
      i := n;
    } else {
      i := ShownWasLatest(month, events[..n]);
      assert events[..n][..i] == events[..i];
      forall j | i < j < |events|
        ensures !TakesDown(Run(Start(month), events[..j]), events[j])
      {
        if j < n {
          assert events[..n][..j] == events[..j];
        }
      }
    }
  }

  /** A new request, or another month, puts every earlier request out of date: its answer changes nothing
      on screen. */
  lemma OlderAnswersIgnored(s: State, e: Event, k: nat, reply: Option<seq<Line>>)
    requires Current(s) && k < |s.flights| && (e == Open || (e.ChangeMonth? && e.month != s.viewed))
    ensures Next(Next(s, e), Answer(k, reply)).suggestions == Next(s, e).suggestions
    ensures Next(s, e).suggestions == if e == Open then s.suggestions else None
  {
  }

  /** A write that fails stops its application: nothing more of it is written. */
  lemma FailedWriteStops(s: State, k: nat, ok: bool)
    requires k < |s.applications|
    ensures var t := Next(s, Wrote(k, false));
            t.writes == s.writes && Next(t, Wrote(k, ok)) == t
  {
  }

  // ---- Applying all of them ----

  function AllWrote(k: nat, n: nat): seq<Event> {
    if n == 0 then [] else AllWrote(k, n - 1) + [Wrote(k, true)]
  }

  lemma {:induction false} RunConcat(s: State, a: seq<Event>, b: seq<Event>)
    ensures Run(s, a + b) == Run(Run(s, a), b)
    decreases |a|
  {
    hide Next;
    if a == [] {
      assert a + b == b;
    } else {
      assert (a + b)[1..] == a[1..] + b;
      RunConcat(Next(s, a[0]), a[1..], b);
    }
  }

  lemma {:induction false} WroteAll(s: State, rows: seq<Line>, n: nat)
    requires s.suggestions.Some? && n <= |rows|
    ensures var k := |s.applications|; var t := Run(Next(s, Apply(rows)), AllWrote(k, n));
            && t.writes == s.writes + WritesOf(k, s.viewed, rows[..n])
            && t.applications == s.applications + [Applying(s.suggestions.value.computedFor, s.viewed, rows, n, false)]
  {
    var k := |s.applications|;
    if n == 0 {
      assert rows[..0] == [] && s.writes + [] == s.writes;
    } else {
      WroteAll(s, rows, n - 1);
      var before := Run(Next(s, Apply(rows)), AllWrote(k, n - 1));
      RunConcat(Next(s, Apply(rows)), AllWrote(k, n - 1), [Wrote(k, true)]);
      assert [Wrote(k, true)][1..] == [];
      assert rows[..n][..n - 1] == rows[..n - 1];
      hide Run, AllWrote;
      assert Next(before, Wrote(k, true)).writes == before.writes + [Write(k, s.viewed, rows[n - 1])];
    }
  }

  /** Applying takes the suggestions down and, with a backend that takes them, writes exactly the rows that
      were left in the dialog, in their order, to the month on screen. */
  lemma ApplyWritesItsRows(s: State, rows: seq<Line>)
    requires s.suggestions.Some?
    ensures var k := |s.applications|;
            Run(Next(s, Apply(rows)), AllWrote(k, |rows|)).writes == s.writes + WritesOf(k, s.viewed, rows)
    ensures Next(s, Apply(rows)).suggestions.None? && Next(s, Apply(rows)).viewed == s.viewed
  {
    hide Run, AllWrote, WritesOf;
    assert rows[..|rows|] == rows;
    WroteAll(s, rows, |rows|);
  }
}
