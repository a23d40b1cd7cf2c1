/** The saved category order is read when the budget view opens and may arrive at any later moment. A
    reorder made in between is computed from an empty order, saved over the stored one, and thrown off
    the screen when an older answer arrives. Every order of reorders, read and answer is covered. */
module OrderRace {
  import opened Sequences
  import opened BudgetOrder

  /** The read is on its way, or its answer is, or the answer has arrived. */
  datatype Read = Asked | Answered(order: seq<string>) | Arrived

  /** The order the view works with, and the one stored. */
  datatype State = State(shown: seq<string>, stored: seq<string>, read: Read)

  datatype Event = Step(a: Reorder) | Serve | Arrive

  function Start(stored: seq<string>): State {
    State([], stored, Asked)
  }

  ghost predicate PossibleEvent(e: Event) {
    e.Step? ==> Possible(e.a)
  }

  ghost predicate AllPossibleEvents(events: seq<Event>) {
    forall k :: 0 <= k < |events| ==> PossibleEvent(events[k])
  }

  ghost function Next(s: State, e: Event): State
    requires PossibleEvent(e)
  {
    match e
    case Step(a) => if Takes(s.shown, a) then s.(shown := After(s.shown, a), stored := After(s.shown, a)) else s
    case Serve => if s.read.Asked? then s.(read := Answered(s.stored)) else s
    case Arrive => if s.read.Answered? then s.(shown := s.read.order, read := Arrived) else s
  }

  ghost function Play(s: State, events: seq<Event>): State
    requires AllPossibleEvents(events)
    decreases |events|
  {
    if events == [] then s else Play(Next(s, events[0]), events[1..])
  }

  /** The reorders of a run. */
  ghost function Steps(events: seq<Event>): (run: seq<Reorder>)
    requires AllPossibleEvents(events)
    ensures AllPossible(run)
  {
    if events == [] then []
    else
      assert PossibleEvent(events[0]);
      (if events[0].Step? then [events[0].a] else []) + Steps(events[1..])
  }

  /** What is stored after reorders from an order on screen. */
  ghost function Kept(stored: seq<string>, shown: seq<string>, run: seq<Reorder>): seq<string>
    requires AllPossible(run)
  {
    if AnyTakes(shown, run) then Run(shown, run) else stored
  }

  /** Nothing happens to the read during these events. */
  predicate Quiet(read: Read, events: seq<Event>) {
    (read.Asked? ==> Serve !in events) && (read.Answered? ==> Arrive !in events)
  }

  /** Between the steps of the read, the view does what its reorders do. */
  lemma {:induction false} QuietForm(s: State, events: seq<Event>)
    requires AllPossibleEvents(events) && Quiet(s.read, events)
    ensures Play(s, events) == State(Run(s.shown, Steps(events)), Kept(s.stored, s.shown, Steps(events)), s.read)
    decreases |events|
  {
    hide After, Takes;
    if events == [] {
    } else {
      var e, rest := events[0], events[1..];
      assert PossibleEvent(e) && e in events;
      var s' := Next(s, e);
      assert Quiet(s'.read, rest);
      QuietForm(s', rest);
      if e.Step? {
        var run := Steps(events);
        assert run[0] == e.a && run[1..] == Steps(rest);
        if !Takes(s.shown, e.a) {
          ReorderKeepsPositions(s.shown, e.a);
        }
        NoPositionLost(s'.shown, Steps(rest));
      } else {
        assert Steps(events) == Steps(rest);
      }
    }
  }

  lemma {:induction false} PlayConcat(s: State, a: seq<Event>, b: seq<Event>)
    requires AllPossibleEvents(a) && AllPossibleEvents(b)
    ensures AllPossibleEvents(a + b) && Play(s, a + b) == Play(Play(s, a), b)
    decreases |a|
  {
    hide Next;
    if a == [] {
      assert a + b == b;
    } else {
      assert (a + b)[1..] == a[1..] + b && (a + b)[0] == a[0];
      assert PossibleEvent(a[0]);
      PlayConcat(Next(s, a[0]), a[1..], b);
    }
  }

  /** A run in which the read is served after `before` and its answer arrives after `during`. Noise, such
      as a second arrival, changes nothing, so this is every run in which the answer arrives. */
  function Timeline(before: seq<Event>, during: seq<Event>, after: seq<Event>): seq<Event> {
    before + ([Serve] + (during + ([Arrive] + after)))
  }

  ghost predicate IsTimeline(before: seq<Event>, during: seq<Event>, after: seq<Event>) {
    && AllPossibleEvents(before) && AllPossibleEvents(during) && AllPossibleEvents(after)
    && Serve !in before && Arrive !in during
  }

  lemma {:induction false} SplitAt(events: seq<Event>, e: Event) returns (a: seq<Event>, b: seq<Event>)
    requires e in events && AllPossibleEvents(events)
    ensures events == a + ([e] + b) && e !in a && AllPossibleEvents(a) && AllPossibleEvents(b)
    decreases |events|
  {
    if events[0] == e {
      a, b := [], events[1..];
    } else {
      a, b := SplitAt(events[1..], e);
      assert PossibleEvent(events[0]);
      a := [events[0]] + a;
    }
  }

  lemma NotServed(stored: seq<string>, events: seq<Event>)
    requires AllPossibleEvents(events) && Serve !in events
    ensures Play(Start(stored), events).read.Asked?
  {
    QuietForm(Start(stored), events);
  }

  /** Every run after which the answer has arrived is such a timeline. */
  lemma EveryArrivalIsATimeline(stored: seq<string>, events: seq<Event>)
    returns (before: seq<Event>, during: seq<Event>, after: seq<Event>)
    requires AllPossibleEvents(events) && Play(Start(stored), events).read.Arrived?
    ensures IsTimeline(before, during, after) && events == Timeline(before, during, after)
  {
    hide Play, AllPossibleEvents;
    if Serve !in events {
      NotServed(stored, events);
    }
    var rest;
    before, rest := SplitAt(events, Serve);
    if Arrive !in rest {
      NotArrived(stored, before, rest);
    }
    during, after := SplitAt(rest, Arrive);
  }

  lemma NotArrived(stored: seq<string>, before: seq<Event>, rest: seq<Event>)
    requires AllPossibleEvents(before) && AllPossibleEvents(rest) && Serve !in before && Arrive !in rest
    ensures AllPossibleEvents(before + ([Serve] + rest))
    ensures Play(Start(stored), before + ([Serve] + rest)).read.Answered?
  {
    hide Run, Takes, After;
    PlayConcat(Start(stored), before, [Serve] + rest);
    QuietForm(Start(stored), before);
    var s := Play(Start(stored), before);
    assert ([Serve] + rest)[1..] == rest;
    QuietForm(Next(s, Serve), rest);
  }

  // ---- What becomes of the reorders and of the saved positions ----

  /** What the read answers: the stored order at the moment it is served. */
  ghost function AnswerTo(stored: seq<string>, before: seq<Reorder>): seq<string>
    requires AllPossible(before)
  {
    Kept(stored, [], before)
  }

  /** Up to the arrival the reorders build on an empty order; after it, on the answer. */
  lemma TimelineForm(stored: seq<string>, before: seq<Event>, during: seq<Event>, after: seq<Event>)
    requires IsTimeline(before, during, after)
    ensures AllPossibleEvents(Timeline(before, during, after))
    ensures var answer := AnswerTo(stored, Steps(before)); var mine := Run([], Steps(before));
            Play(Start(stored), Timeline(before, during, after))
            == State(Run(answer, Steps(after)),
                     Kept(Kept(answer, mine, Steps(during)), answer, Steps(after)), Arrived)
  {
    hide Run, Takes, After, AnyTakes, Steps;
    var rest := [Arrive] + after;
    var middle := [Serve] + (during + rest);
    QuietForm(Start(stored), before);
    var s1 := Play(Start(stored), before);
    var s2 := Next(s1, Serve);
    QuietForm(s2, during);
    var s3 := Play(s2, during);
    QuietForm(Next(s3, Arrive), after);
    assert rest[1..] == after && middle[1..] == during + rest;
    assert Play(s3, rest) == Play(Next(s3, Arrive), after);
    PlayConcat(s2, during, rest);
    assert Play(s1, middle) == Play(s2, during + rest);
    PlayConcat(Start(stored), before, middle);
  }

  /** The order on screen just before the last reorder of the run that takes effect, and that reorder. */
  ghost function BeforeLast(order: seq<string>, run: seq<Reorder>): seq<string>
    requires AllPossible(run) && AnyTakes(order, run)
    decreases |run|
  {
    if AnyTakes(After(order, run[0]), run[1..]) then BeforeLast(After(order, run[0]), run[1..]) else order
  }

  ghost function LastTaken(order: seq<string>, run: seq<Reorder>): (a: Reorder)
    requires AllPossible(run) && AnyTakes(order, run)
    ensures Possible(a) && Takes(BeforeLast(order, run), a)
    decreases |run|
  {
    if AnyTakes(After(order, run[0]), run[1..]) then LastTaken(After(order, run[0]), run[1..]) else run[0]
  }

  lemma {:induction false} LastReorder(order: seq<string>, run: seq<Reorder>)
    requires AllPossible(run) && AnyTakes(order, run)
    ensures Run(order, run) == After(BeforeLast(order, run), LastTaken(order, run))
    decreases |run|
  {
    hide After, Takes;
    var next, rest := After(order, run[0]), run[1..];
    if AnyTakes(next, rest) {
      LastReorder(next, rest);
    } else {
      NoPositionLost(next, rest);
    }
  }

  /** t is s with x and y exchanged. */
  ghost predicate Exchanged(s: seq<string>, t: seq<string>, x: string, y: string) {
    |s| == |t| && forall k :: 0 <= k < |s| ==> t[k] == if s[k] == x then y else if s[k] == y then x else s[k]
  }

  /** `target` is the order x was put in by a drop of x on `on`: `rest` without it, and x just above `on`;
      or just above the last item when `on` is not there. */
  ghost predicate DroppedInto(rest: seq<string>, target: seq<string>, x: string, on: string) {
    && NoDup(target) && x in target && Only(target, Elems(target) - {x}) == rest
    && if on in rest then IndexOf(target, x) + 1 == IndexOf(target, on)
       else IndexOf(target, x) == if rest == [] then 0 else |rest| - 1
  }

  /** The reorder, made from `from`, comes to the order `o`: as seen before it is made, `o` is what is
      edited but for the dragged category, which has its new place there, or for the two neighbours on
      screen, which stand exchanged there. */
  ghost predicate LandsOn(from: seq<string>, a: Reorder, o: seq<string>)
    requires Possible(a) && Takes(from, a)
  {
    var edited := Effective(a.lines, from);
    match a
    case Drag(lines, category, target) =>
      DroppedInto(Only(edited, Elems(edited) - {category}), o, category, target)
    case Move(lines, category, dir) =>
      var shown := Section(lines, from, category);
      Exchanged(edited, o, category, shown[IndexOf(shown, category) + dir])
  }

  lemma LandsExactlyWhen(from: seq<string>, a: Reorder, o: seq<string>)
    requires Possible(a) && Takes(from, a)
    ensures After(from, a) == o <==> LandsOn(from, a, o)
  {
    hide Only, NoDup, Effective, Section, IndexOf, DroppedInto, MoveBefore;
    var edited := Effective(a.lines, from);
    EffectiveForm(a.lines, from);
    match a
    case Drag(lines, category, target) => DropExactlyWhen(edited, category, target, o);
    case Move(lines, category, dir) =>
      var shown := Section(lines, from, category);
      var neighbour := shown[IndexOf(shown, category) + dir];
      assert category in shown && neighbour in shown;
      SectionIsKnown(lines, from, category, category);
      SectionIsKnown(lines, from, category, neighbour);
      SwapExactlyWhen(edited, category, neighbour, o);
  }

  lemma SwapExactlyWhen(s: seq<string>, x: string, y: string, o: seq<string>)
    requires NoDup(s) && x in s && y in s
    ensures SwapAt(s, IndexOf(s, x), IndexOf(s, y)) == o <==> Exchanged(s, o, x, y)
  {
    hide IndexOf;
    var i, j := IndexOf(s, x), IndexOf(s, y);
    assert forall k :: 0 <= k < |s| ==> (s[k] == x <==> k == i) && (s[k] == y <==> k == j);
    assert forall k :: 0 <= k < |s| ==> SwapAt(s, i, j)[k] == if k == i then y else if k == j then x else s[k];
  }

  lemma DropExactlyWhen(s: seq<string>, x: string, on: string, o: seq<string>)
    requires NoDup(s) && x != on
    ensures MoveBefore(s, x, on) == o <==> DroppedInto(Only(s, Elems(s) - {x}), o, x, on)
  {
    hide Only, NoDup, IndexOf;
    var rest := Only(s, Elems(s) - {x});
    OnlyElems(s, Elems(s) - {x});
    OnlyNoDup(s, Elems(s) - {x});
    MoveBeforeElems(s, x, on);
    var at := SpliceStart(|rest|, IndexOf(rest, on));
    PutExactlyWhen(rest, at, x, o);
    if NoDup(o) && x in o && Only(o, Elems(o) - {x}) == rest && on in rest {
      JustAbove(o, x, on);
    }
  }

  lemma PutExactlyWhen(rest: seq<string>, at: nat, x: string, o: seq<string>)
    requires x !in rest && at <= |rest| && NoDup(rest[..at] + [x] + rest[at..])
    ensures rest[..at] + [x] + rest[at..] == o <==>
            NoDup(o) && x in o && Only(o, Elems(o) - {x}) == rest && IndexOf(o, x) == at
  {
    hide Only, NoDup, IndexOf;
    if rest[..at] + [x] + rest[at..] == o {
      NoDupIndex(o, at);
      RemoveAt(o, at);
      assert rest == o[..at] + o[at + 1..];
    }
    if NoDup(o) && x in o && Only(o, Elems(o) - {x}) == rest && IndexOf(o, x) == at {
      RemoveAt(o, at);
      assert o == o[..at] + [x] + o[at + 1..];
      assert rest[..at] == o[..at] && rest[at..] == o[at + 1..];
    }
  }

  lemma JustAbove(o: seq<string>, x: string, on: string)
    requires NoDup(o) && x in o && on in Only(o, Elems(o) - {x})
    ensures IndexOf(o, x) == IndexOf(Only(o, Elems(o) - {x}), on) <==> IndexOf(o, x) + 1 == IndexOf(o, on)
  {
    hide Only, NoDup, IndexOf;
    var k, rest := IndexOf(o, x), Only(o, Elems(o) - {x});
    RemoveAt(o, k);
    OnlyElems(o, Elems(o) - {x});
    OnlyNoDup(o, Elems(o) - {x});
    var at := IndexOf(rest, on);
    if k == at {
      assert o[k + 1] == on;
      NoDupIndex(o, k + 1);
    } else if k + 1 == IndexOf(o, on) {
      assert rest[k] == on;
      NoDupIndex(rest, k);
    }
  }

  /** A reorder that takes effect leaves an order without repeats as it is exactly when it is a drag and,
      before it, the order held the whole month and the dragged category just above the target. */
  lemma StaysPutExactlyWhen(o: seq<string>, a: Reorder)
    requires Possible(a) && Takes(o, a) && NoDup(o) && (a.Drag? ==> a.target in Categories(a.lines))
    ensures After(o, a) == o <==>
            a.Drag? && Elems(Categories(a.lines)) <= Elems(o) && a.category in o
            && IndexOf(o, a.category) + 1 == IndexOf(o, a.target)
  {
    hide After, Takes, Categories, NoDup, Only, Effective, IndexOf;
    if a.Move? {
      MoveChanges(o, a);
    } else {
      ReorderKeepsPositions(o, a);
      LandsExactlyWhen(o, a, o);
      if Elems(Categories(a.lines)) <= Elems(o) && a.category in o {
        EffectiveOfFull(a.lines, o);
        assert a.target in Elems(Categories(a.lines)) && a.category != a.target by { DragTakes(o, a); }
        OnlyElems(o, Elems(o) - {a.category});
      } else {
        assert a.category in Elems(After(o, a)) && Elems(Categories(a.lines)) <= Elems(After(o, a));
      }
    }
  }

  lemma DragTakes(o: seq<string>, a: Reorder)
    requires Possible(a) && a.Drag?
    ensures Takes(o, a) <==> a.category != a.target
  {
  }

  /** When the person reordered before the answer arrived, its arrival leaves that on screen exactly when
      no reorder made since the read was served took effect, or the last that did came to the very order
      on its way: the one stored when the read was served. It then leaves every saved position stored
      exactly when the reorders saved before the read was served, if any, cover them all. */
  lemma ArrivalKeepsEverythingExactlyWhen(stored: seq<string>, before: seq<Event>, during: seq<Event>)
    requires IsTimeline(before, during, [])
    requires AnyTakes([], Steps(before)) || AnyTakes(Run([], Steps(before)), Steps(during))
    ensures AllPossibleEvents(Timeline(before, during, []))
    ensures var o, b := Run([], Steps(before)), Steps(during);
            var s := Play(Start(stored), Timeline(before, during, []));
            s.shown == Run(o, b) <==>
            (AnyTakes(o, b) ==> LandsOn(BeforeLast(o, b), LastTaken(o, b), AnswerTo(stored, Steps(before))))
    ensures var o, a := Run([], Steps(before)), Steps(before);
            var s := Play(Start(stored), Timeline(before, during, []));
            s.shown == Run(o, Steps(during)) ==>
            (Elems(stored) <= Elems(s.stored) <==> (AnyTakes([], a) ==> Elems(stored) <= Gained([], a)))
  {
    hide Run, Takes, After, AnyTakes, Steps, Gained, Play, LandsOn, BeforeLast, LastTaken;
    TimelineForm(stored, before, during, []);
    var a, b := Steps(before), Steps(during);
    var o := Run([], a);
    NoStepsIn();
    NoPositionLost([], a);
    NoPositionLost(o, b);
    RunNothing(AnswerTo(stored, a));
    if AnyTakes(o, b) {
      LastReorder(o, b);
      LandsExactlyWhen(BeforeLast(o, b), LastTaken(o, b), AnswerTo(stored, a));
    }
  }

  lemma NoStepsIn()
    ensures Steps([]) == []
  {
  }

  lemma RunNothing(order: seq<string>)
    ensures Run(order, []) == order && !AnyTakes(order, [])
  {
  }

  /** Every saved position is still stored at the end exactly when: with a reorder after the arrival,
      the order it built on, the answer, and what it gained hold them all, which is so whenever nothing
      was saved before the read was served; otherwise, when the reorders before the arrival cover them
      or there were none. */
  lemma PositionsStoredExactlyWhen(stored: seq<string>, before: seq<Event>, during: seq<Event>, after: seq<Event>)
    requires IsTimeline(before, during, after)
    ensures AllPossibleEvents(Timeline(before, during, after))
    ensures var a, b, c := Steps(before), Steps(during), Steps(after);
            var early, late := AnyTakes([], a), AnyTakes(Run([], a), b);
            var s := Play(Start(stored), Timeline(before, during, after));
            Elems(stored) <= Elems(s.stored) <==>
              if AnyTakes(AnswerTo(stored, a), c)
              then early ==> Elems(stored) <= Gained([], a) + Gained(AnswerTo(stored, a), c)
              else early || late ==> Elems(stored) <= Gained([], a) + Gained(Run([], a), b)
  {
    hide Run, Takes, After, AnyTakes, Steps, Gained, Play;
    TimelineForm(stored, before, during, after);
    var a, b, c := Steps(before), Steps(during), Steps(after);
    NoPositionLost([], a);
    NoPositionLost(Run([], a), b);
    NoPositionLost(AnswerTo(stored, a), c);
    NothingGained(Run([], a), b);
  }

  lemma {:induction false} StaysArrived(s: State, events: seq<Event>)
    requires AllPossibleEvents(events) && s.read.Arrived?
    ensures Play(s, events).read.Arrived?
    decreases |events|
  {
    hide After, Takes;
    if events == [] {
    } else {
      assert PossibleEvent(events[0]);
      StaysArrived(Next(s, events[0]), events[1..]);
    }
  }

  /** As long as the answer has not arrived, on a closed view for ever, the reorders build on what was on
      screen. */
  lemma {:induction false} BeforeArrivalForm(s: State, events: seq<Event>)
    requires AllPossibleEvents(events) && !Play(s, events).read.Arrived?
    ensures Play(s, events).shown == Run(s.shown, Steps(events))
    ensures Play(s, events).stored == Kept(s.stored, s.shown, Steps(events))
    decreases |events|
  {
    if events == [] {
    } else {
      var e, rest := events[0], events[1..];
      assert PossibleEvent(e);
      var s' := Next(s, e);
      BeforeArrivalForm(s', rest);
      if e.Step? {
        OneStepFirst(s, e.a, Steps(rest));
        assert Steps(events) == [e.a] + Steps(rest);
      } else if s'.read.Arrived? {
        StaysArrived(s', rest);
      } else {
        assert Steps(events) == Steps(rest);
      }
    }
  }

  lemma OneStepFirst(s: State, a: Reorder, rest: seq<Reorder>)
    requires Possible(a) && AllPossible(rest)
    ensures AllPossible([a] + rest)
    ensures var s' := Next(s, Step(a));
            Run(s.shown, [a] + rest) == Run(s'.shown, rest)
            && Kept(s.stored, s.shown, [a] + rest) == Kept(s'.stored, s'.shown, rest)
  {
    hide After, Takes;
    var run := [a] + rest;
    assert run[0] == a && run[1..] == rest;
    ReorderKeepsPositions(s.shown, a);
    NoPositionLost(Next(s, Step(a)).shown, rest);
  }

  /** Before the answer arrives every saved position is still stored exactly when the reorders made so
      far cover them all, or there were none. */
  lemma PositionsStoredBeforeArrival(stored: seq<string>, events: seq<Event>)
    requires AllPossibleEvents(events) && !Play(Start(stored), events).read.Arrived?
    ensures Elems(stored) <= Elems(Play(Start(stored), events).stored) <==>
            (AnyTakes([], Steps(events)) ==> Elems(stored) <= Gained([], Steps(events)))
  {
    hide Run, Takes, After, AnyTakes, Steps, Gained, Play;
    BeforeArrivalForm(Start(stored), events);
    NoPositionLost([], Steps(events));
  }

  lemma {:induction false} NothingGained(order: seq<string>, run: seq<Reorder>)
    requires AllPossible(run)
    ensures !AnyTakes(order, run) ==> Gained(order, run) == {}
    decreases |run|
  {
    hide Takes, After;
    if run == [] {
    } else {
      NothingGained(After(order, run[0]), run[1..]);
    }
  }

  lemma OneDuring(stored: seq<string>, before: seq<Event>, a: Reorder)
    requires AllPossibleEvents(before) && Serve !in before && Possible(a)
    ensures IsTimeline(before, [Step(a)], []) && AllPossibleEvents(Timeline(before, [Step(a)], []))
    ensures Play(Start(stored), Timeline(before, [Step(a)], [])).shown == AnswerTo(stored, Steps(before))
  {
    hide Run, Takes, After, AnyTakes, Play;
    TimelineForm(stored, before, [Step(a)], []);
    NoStepsIn();
    RunNothing(AnswerTo(stored, Steps(before)));
  }

  /** What a view that has shown no stored order edits is the month's own list. */
  lemma FreshlyEdited(lines: seq<Line>)
    requires Distinct(lines)
    ensures Effective(lines, []) == Categories(lines)
  {
    hide Only, NoDup, Effective;
    EffectiveForm(lines, []);
    OnlyAll(Categories(lines), Elems(Categories(lines)) - Elems<string>([]));
  }

  /** A drag onto a row of the month while the answer is on its way stays on screen exactly when: with
      something saved before the read was served, the order on screen held the whole month and the
      dragged category just above the target already; with nothing saved, the stored order is the
      month's own list but for the dragged category, which it has just above the target. */
  lemma DragDuringReadStaysExactlyWhen(stored: seq<string>, before: seq<Event>, a: Reorder)
    requires AllPossibleEvents(before) && Serve !in before && Possible(a)
    requires a.Drag? && a.target in Categories(a.lines) && a.category != a.target
    ensures AllPossibleEvents(Timeline(before, [Step(a)], []))
    ensures var o, cats := Run([], Steps(before)), Categories(a.lines);
            Play(Start(stored), Timeline(before, [Step(a)], [])).shown == After(o, a) <==>
              if AnyTakes([], Steps(before))
              then Elems(cats) <= Elems(o) && a.category in o && IndexOf(o, a.category) + 1 == IndexOf(o, a.target)
              else NoDup(stored) && a.category in stored
                   && Only(stored, Elems(stored) - {a.category}) == Only(cats, Elems(cats) - {a.category})
                   && IndexOf(stored, a.category) + 1 == IndexOf(stored, a.target)
  {
    hide Run, Takes, After, AnyTakes, Play, Only, NoDup, Categories, IndexOf;
    OneDuring(stored, before, a);
    var o, cats := Run([], Steps(before)), Categories(a.lines);
    NoPositionLost([], Steps(before));
    DragTakes(o, a);
    if AnyTakes([], Steps(before)) {
      StaysPutExactlyWhen(o, a);
    } else {
      LandsExactlyWhen([], a, stored);
      FreshlyEdited(a.lines);
      OnlyElems(cats, Elems(cats) - {a.category});
    }
  }

  /** A keyboard move that takes effect always changes the order; so one made while the answer is on its
      way is always thrown off the screen, unless nothing was saved before and the stored order is the
      month's own list with the two neighbours exchanged. */
  lemma MoveDuringReadIsLost(stored: seq<string>, before: seq<Event>, a: Reorder)
    requires AllPossibleEvents(before) && Serve !in before && Possible(a) && a.Move?
    requires Takes(Run([], Steps(before)), a)
    ensures AllPossibleEvents(Timeline(before, [Step(a)], []))
    ensures var shown := Section(a.lines, [], a.category);
            Play(Start(stored), Timeline(before, [Step(a)], [])).shown == After(Run([], Steps(before)), a) <==>
            !AnyTakes([], Steps(before)) && HasNeighbour(shown, a.category, a.dir)
            && Exchanged(Categories(a.lines), stored, a.category, shown[IndexOf(shown, a.category) + a.dir])
  {
    hide Run, Takes, After, AnyTakes, Play, Exchanged, Categories;
    OneDuring(stored, before, a);
    var o := Run([], Steps(before));
    NoPositionLost([], Steps(before));
    if AnyTakes([], Steps(before)) {
      MoveChanges(o, a);
    } else {
      LandsExactlyWhen([], a, stored);
      MoveLandsOn([], a, stored);
      hide LandsOn, HasNeighbour;
      FreshlyEdited(a.lines);
    }
  }

  lemma MoveChanges(order: seq<string>, a: Reorder)
    requires Possible(a) && a.Move? && Takes(order, a)
    ensures After(order, a) != order
  {
    hide After, Takes, Only, NoDup, Effective, Section, IndexOf, Categories, LandsOn, Exchanged;
    ReorderKeepsPositions(order, a);
    EffectiveForm(a.lines, order);
    LandsExactlyWhen(order, a, order);
    MoveLandsOn(order, a, order);
    NeighbourDiffers(a.lines, order, a.category, a.dir);
    var shown := Section(a.lines, order, a.category);
    ExchangeChanges(order, a.category, shown[IndexOf(shown, a.category) + a.dir]);
    if After(order, a) == order {
      EffectiveSettled(a.lines, order);
    }
  }

  lemma MoveLandsOn(from: seq<string>, a: Reorder, o: seq<string>)
    requires Possible(a) && a.Move? && Takes(from, a)
    ensures var shown := Section(a.lines, from, a.category);
            && HasNeighbour(shown, a.category, a.dir) && a.category in Categories(a.lines)
            && (LandsOn(from, a, o) <==>
                Exchanged(Effective(a.lines, from), o, a.category, shown[IndexOf(shown, a.category) + a.dir]))
  {
    hide Effective, Exchanged, IndexOf, Displayed;
  }

  lemma ExchangeChanges(s: seq<string>, x: string, y: string)
    requires x != y
    ensures x in s ==> !Exchanged(s, s, x, y)
  {
  }

  lemma NeighbourDiffers(lines: seq<Line>, order: seq<string>, category: string, dir: int)
    requires Distinct(lines) && (dir == 1 || dir == -1)
    requires HasNeighbour(Section(lines, order, category), category, dir)
    ensures var shown := Section(lines, order, category);
            shown[IndexOf(shown, category) + dir] != category
  {
    hide Displayed;
    var shown := Section(lines, order, category);
    SectionNoDup(lines, order, GroupOf(lines, category).value);
    var k := IndexOf(shown, category);
    assert shown[k] == category;
  }

  /** An order without repeats that covers the month is its own effective order. */
  lemma EffectiveSettled(lines: seq<Line>, order: seq<string>)
    requires Distinct(lines) && NoDup(order) && Elems(order) == Elems(Effective(lines, order))
    ensures Effective(lines, order) == order
  {
    EffectiveForm(lines, order);
    EffectiveOfFull(lines, order);
  }
}
