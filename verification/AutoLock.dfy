/** The auto-lock warning: which countdowns are shown, what clears them, how the seconds run down, and
    what is left behind after teardown. Registrations, generation reads and answers may finish at any
    later moment. */
module AutoLock {
  import opened Options

  datatype Identity = Identity(profile: string, generation: nat)

  datatype Countdown = Countdown(identity: Identity, seconds: int, receivedAt: int)

  /** A listener is asked for at mount; the promise of its `unlisten` may resolve late. */
  datatype Listener = Registering | Listening | Released

  datatype Reporter = NotInstalled | Installed | CleanedUp

  /** `staying` is the call of a "Stay unlocked" press that has not been answered. */
  datatype State = State(
    generation: Option<nat>, disposed: bool, countdown: Option<Countdown>, seconds: int,
    staying: Option<Identity>, listeners: seq<Listener>, reporter: Reporter)

  datatype Event =
    | GenerationRead(known: nat)
    | FirstReadDone
    | Registered(k: nat)
    | Warning(identity: Identity, left: int, now: int)
    | CancelledFor(identity: Identity)
    | Press
    | Stayed(ok: bool)
    | Tick(now: int)
    | Teardown

  const WARNING: nat := 0
  const CANCELLATION: nat := 1
  const IDENTITY: nat := 2

  const START: State := State(None, false, None, 0, None, [Registering, Registering, Registering], NotInstalled)

  /** Seconds left: never below zero. Whole seconds of elapsed time are rounded down. */
  function SecondsLeft(seconds: int, receivedAt: int, now: int): int {
    var left := seconds - (now - receivedAt) / 1000;
    if left < 0 then 0 else left
  }

  function ClearedFor(countdown: Option<Countdown>, identity: Identity): Option<Countdown> {
    if countdown.Some? && countdown.value.identity == identity then None else countdown
  }

  /** A listener that was registered is released now; another as soon as it is. */
  function AfterRelease(listener: Listener): Listener {
    if listener == Listening then Released else listener
  }

  function ReleaseAll(listeners: seq<Listener>): (r: seq<Listener>)
    ensures |r| == |listeners| && forall k :: 0 <= k < |listeners| ==> r[k] == AfterRelease(listeners[k])
  {
    if listeners == [] then []
    else ReleaseAll(listeners[..|listeners| - 1]) + [AfterRelease(listeners[|listeners| - 1])]
  }

  /** An event reaches the component only through a listener that is listening. */
  predicate Hears(s: State, k: nat) {
    k < |s.listeners| && s.listeners[k] == Listening
  }

  function Next(s: State, e: Event): State {
    match e
    case GenerationRead(known) => if s.disposed then s else s.(generation := Some(known))
    case FirstReadDone =>
      if s.disposed || s.reporter != NotInstalled then s else s.(reporter := Installed)
    case Registered(k) =>
      if k < |s.listeners| && s.listeners[k] == Registering
      then s.(listeners := s.listeners[k := if s.disposed then Released else Listening]) else s
    case Warning(identity, left, now) =>
      if !Hears(s, WARNING) || s.disposed || s.generation != Some(identity.generation) then s
      else s.(countdown := Some(Countdown(identity, left, now)), seconds := left)
    case CancelledFor(identity) =>
      if !Hears(s, CANCELLATION) || s.disposed then s
      else s.(countdown := ClearedFor(s.countdown, identity))
    case Press =>
      if s.countdown.None? || s.staying.Some? || s.disposed then s
      else s.(staying := Some(s.countdown.value.identity))
    case Stayed(ok) =>
      if s.staying.None? then s
      else s.(staying := None, countdown := if ok then ClearedFor(s.countdown, s.staying.value) else s.countdown)
    case Tick(now) =>
      if s.countdown.None? || s.disposed then s
      else s.(seconds := SecondsLeft(s.countdown.value.seconds, s.countdown.value.receivedAt, now))
    case Teardown =>
      s.(disposed := true, listeners := ReleaseAll(s.listeners),
         reporter := if s.reporter == Installed then CleanedUp else s.reporter)
  }

  function Run(s: State, events: seq<Event>): State
    decreases |events|
  {
    if events == [] then s else Run(Next(s, events[0]), events[1..])
  }

  /** The component: its refs, its state and the flag its clean-up raises. */
  class Session {
    var currentGeneration: Option<nat>
    var disposed: bool
    var countdown: Option<Countdown>
    var seconds: int
    var staying: Option<Identity>
    var listeners: seq<Listener>
    var reporter: Reporter

    function View(): State
      reads this
    {
      State(currentGeneration, disposed, countdown, seconds, staying, listeners, reporter)
    }

    constructor ()
      ensures View() == START
    {
      currentGeneration, disposed, countdown, seconds, staying := None, false, None, 0, None;
      listeners, reporter := [Registering, Registering, Registering], NotInstalled;
    }

    method OnGeneration(generation: nat)
      modifies this
      ensures View() == Next(old(View()), GenerationRead(generation))
    {
      if !disposed {
        currentGeneration := Some(generation);
      }
    }

    method OnWarning(identity: Identity, left: int, now: int)
      requires Hears(View(), WARNING)
      modifies this
      ensures View() == Next(old(View()), Warning(identity, left, now))
    {
      if disposed || currentGeneration != Some(identity.generation) {
        return;
      }
      seconds := left;
      countdown := Some(Countdown(identity, left, now));
    }

    method OnCancellation(identity: Identity)
      requires Hears(View(), CANCELLATION)
      modifies this
      ensures View() == Next(old(View()), CancelledFor(identity))
    {
      if disposed {
        return;
      }
      if countdown.Some? && countdown.value.identity.profile == identity.profile
         && countdown.value.identity.generation == identity.generation {
        countdown := None;
      }
    }

    method StayUnlocked() returns (call: Option<Identity>)
      requires !disposed
      modifies this
      ensures View() == Next(old(View()), Press)
      ensures call == if old(countdown).Some? && old(staying).None? then Some(old(countdown).value.identity) else None
    {
      if countdown.None? || staying.Some? {
        return None;
      }
      staying := Some(countdown.value.identity);
      call := staying;
    }

    method OnStayed(ok: bool)
      modifies this
      ensures View() == Next(old(View()), Stayed(ok))
    {
      if staying.None? {
        return;
      }
      if ok && countdown.Some? && countdown.value.identity == staying.value {
        countdown := None;
      }
      staying := None;
    }

    method OnTick(now: int)
      requires !disposed
      modifies this`seconds
      ensures View() == Next(old(View()), Tick(now))
    {
      if countdown.Some? {
        var elapsed := (now - countdown.value.receivedAt) / 1000;
        var left := countdown.value.seconds - elapsed;
        seconds := if left < 0 then 0 else left;
      }
    }

    method OnRegistered(k: nat)
      requires k < |listeners| && listeners[k] == Registering
      modifies this`listeners
      ensures View() == Next(old(View()), Registered(k))
    {
      listeners := listeners[k := if disposed then Released else Listening];
    }

    /** The clean-up: the flag, the reporter, and each `unlisten` now or as soon as it is known. */
    method Dispose()
      requires |listeners| == 3
      modifies this
      ensures View() == Next(old(View()), Teardown)
    {
      disposed := true;
      if reporter == Installed {
        reporter := CleanedUp;
      }
      var was := listeners;
      listeners := [AfterRelease(was[WARNING]), AfterRelease(was[CANCELLATION]), AfterRelease(was[IDENTITY])];
      assert listeners == ReleaseAll(was);
    }
  }

  // ---- What is shown ----

  /** A countdown appears only through a warning that carried the generation known at that moment; it
      goes only through a newer warning, or a cancellation or an accepted press for the same profile and
      generation. */
  lemma CountdownStep(s: State, e: Event)
    requires Next(s, e).countdown != s.countdown
    ensures || (e.Warning? && !s.disposed && Hears(s, WARNING) && s.generation == Some(e.identity.generation)
                && Next(s, e).countdown == Some(Countdown(e.identity, e.left, e.now)))
            || (e.CancelledFor? && Next(s, e).countdown.None? && s.countdown.value.identity == e.identity)
            || (e == Stayed(true) && Next(s, e).countdown.None? && s.staying == Some(s.countdown.value.identity))
  {
  }

  /** The warning that put this countdown on screen. */
  predicate PutUpBy(s: State, e: Event, countdown: Countdown) {
    && e == Warning(countdown.identity, countdown.seconds, countdown.receivedAt)
    && !s.disposed && Hears(s, WARNING) && s.generation == Some(countdown.identity.generation)
  }

  /** An event that takes this countdown down or replaces it. */
  predicate TakesDown(s: State, e: Event, countdown: Countdown) {
    || (e.Warning? && Hears(s, WARNING) && !s.disposed && s.generation == Some(e.identity.generation))
    || (e == CancelledFor(countdown.identity) && Hears(s, CANCELLATION) && !s.disposed)
    || (e == Stayed(true) && s.staying == Some(countdown.identity))
  }

  /** In every run, a countdown on screen was put up by a warning of the generation known when it came,
      and nothing since has taken it down: no later accepted warning, no cancellation for its profile
      and generation, no accepted press made for them. */
  lemma {:induction false} ShownWasWarned(s: State, events: seq<Event>) returns (i: nat)
    requires s.countdown.None? && Run(s, events).countdown.Some?
    ensures i < |events|
    ensures var shown := Run(s, events).countdown.value;
            PutUpBy(Run(s, events[..i]), events[i], shown)
            && forall j :: i < j < |events| ==> !TakesDown(Run(s, events[..j]), events[j], shown)
    decreases |events|
  {
    var n := |events| - 1;
    RunSplit(s, events, n);
    var before, last := Run(s, events[..n]), events[n];
    var shown := Run(s, events).countdown.value;
    assert Run(s, events) == Next(before, last);
    if PutUpBy(before, last, shown) {
      i := n;
    } else {
      KeptByLast(before, last, shown);
      i := ShownWasWarned(s, events[..n]);
      assert events[..n][..i] == events[..i];
      forall j | i < j < |events|
        ensures !TakesDown(Run(s, events[..j]), events[j], shown)
      {
        if j < n {
          assert events[..n][..j] == events[..j];
        } else {
          NotTakenDown(before, last, shown);
        }
      }
    }
  }

  lemma {:induction false} RunSplit(s: State, events: seq<Event>, n: nat)
    requires n < |events|
    ensures Run(s, events[..n + 1]) == Next(Run(s, events[..n]), events[n])
    ensures events[..|events|] == events
    decreases n
  {
    if n > 0 {
      RunSplit(Next(s, events[0]), events[1..], n - 1);
      assert events[..n + 1][1..] == events[1..][..n] && events[..n][1..] == events[1..][..n - 1];
    } else {
      assert events[..1][1..] == [];
    }
  }

  lemma KeptByLast(s: State, e: Event, shown: Countdown)
    requires Next(s, e).countdown == Some(shown) && !PutUpBy(s, e, shown)
    ensures s.countdown == Some(shown)
  {
  }

  lemma NotTakenDown(s: State, e: Event, shown: Countdown)
    requires Next(s, e).countdown == Some(shown) && !PutUpBy(s, e, shown)
    ensures !TakesDown(s, e, shown)
  {
  }

  /** Until a press is answered, it stays the one under way. */
  lemma {:induction false} StayingKept(s: State, events: seq<Event>)
    requires s.staying.Some? && forall i :: 0 <= i < |events| ==> !events[i].Stayed?
    ensures Run(s, events).staying == s.staying
    decreases |events|
  {
    if events == [] {
    } else {
      StayingStep(s, events[0]);
      hide Next;
      StayingKept(Next(s, events[0]), events[1..]);
    }
  }

  lemma StayingStep(s: State, e: Event)
    requires s.staying.Some? && !e.Stayed?
    ensures Next(s, e).staying == s.staying
  {
  }

  /** Whatever happens between a press and its answer, the answer takes down the countdown then on screen
      exactly when it is a success and that countdown has the profile and generation the press was made
      for. A newer one for another identity stays; one put up by a newer warning for the same identity goes. */
  lemma LateStayClearsExactlyWhen(s: State, meanwhile: seq<Event>, ok: bool)
    requires !s.disposed && s.countdown.Some? && s.staying.None?
    requires forall i :: 0 <= i < |meanwhile| ==> !meanwhile[i].Stayed?
    ensures var before := Run(Next(s, Press), meanwhile); var after := Next(before, Stayed(ok));
            && after.staying.None?
            && (before.countdown.Some? ==>
                  if ok && before.countdown.value.identity == s.countdown.value.identity
                  then after.countdown.None? else after.countdown == before.countdown)
            && (before.countdown.None? ==> after.countdown.None?)
  {
    StayingKept(Next(s, Press), meanwhile);
  }

  // ---- Seconds ----

  /** The seconds shown only go down as time passes, start at the warning's own number, and reach zero
      exactly when that many whole seconds have gone by. */
  lemma SecondsRunDown(seconds: nat, receivedAt: int, now: int, later: int)
    requires receivedAt <= now <= later
    ensures 0 <= SecondsLeft(seconds, receivedAt, later) <= SecondsLeft(seconds, receivedAt, now) <= seconds
    ensures SecondsLeft(seconds, receivedAt, receivedAt) == seconds
    ensures SecondsLeft(seconds, receivedAt, now) == 0 <==> now - receivedAt >= 1000 * seconds
    ensures now < later <= now + 1000 ==>
              SecondsLeft(seconds, receivedAt, now) - SecondsLeft(seconds, receivedAt, later) <= 1
  {
    var a, b := now - receivedAt, later - receivedAt;
    assert 1000 * (a / 1000) <= a < 1000 * (a / 1000) + 1000;
    assert 1000 * (b / 1000) <= b < 1000 * (b / 1000) + 1000;
  }

  // ---- Teardown ----

  /** After teardown nothing listens and no activity reporter is installed. */
  ghost predicate Clean(s: State) {
    && (s.disposed ==> s.reporter != Installed && forall k :: 0 <= k < |s.listeners| ==> s.listeners[k] != Listening)
    && |s.listeners| == 3
  }

  lemma NextKeepsClean(s: State, e: Event)
    requires Clean(s)
    ensures Clean(Next(s, e)) && (s.disposed ==> Next(s, e).disposed)
    ensures s.disposed ==> Next(s, e).generation == s.generation && Next(s, e).seconds == s.seconds
  {
  }

  lemma {:induction false} RunKeepsClean(s: State, events: seq<Event>)
    requires Clean(s)
    ensures Clean(Run(s, events)) && (s.disposed ==> Run(s, events).disposed)
    decreases |events|
  {
    hide Next, Clean;
    if events == [] {
    } else {
      NextKeepsClean(s, events[0]);
      RunKeepsClean(Next(s, events[0]), events[1..]);
    }
  }

  lemma {:induction false} RegisteredOnce(s: State, events: seq<Event>, k: nat)
    requires k < |s.listeners|
    ensures k < |Run(s, events).listeners|
    ensures (s.listeners[k] != Registering || Registered(k) in events) ==> Run(s, events).listeners[k] != Registering
    decreases |events|
  {
    if events == [] {
    } else {
      ListenerStep(s, events[0], k);
      hide Next;
      RegisteredOnce(Next(s, events[0]), events[1..], k);
      assert Registered(k) in events ==> Registered(k) == events[0] || Registered(k) in events[1..];
    }
  }

  lemma ListenerStep(s: State, e: Event, k: nat)
    requires k < |s.listeners|
    ensures k < |Next(s, e).listeners|
    ensures s.listeners[k] != Registering || e == Registered(k) ==> Next(s, e).listeners[k] != Registering
  {
  }

  /** Once the component is torn down and its registrations have finished, in whatever order, every
      listener and the activity reporter is released, however late each registration was. */
  lemma {:induction false} TeardownReleasesAll(before: seq<Event>, after: seq<Event>)
    requires forall k: nat :: k < 3 ==> Registered(k) in before || Registered(k) in after
    ensures var s := Run(Next(Run(START, before), Teardown), after);
            s.disposed && s.reporter != Installed && s.listeners == [Released, Released, Released]
  {
    hide Next;
    RunKeepsClean(START, before);
    var middle := Run(START, before);
    NextKeepsClean(middle, Teardown);
    TornDown(middle);
    var down := Next(middle, Teardown);
    RunKeepsClean(down, after);
    forall k: nat | k < 3
      ensures Run(down, after).listeners[k] != Registering
    {
      RegisteredOnce(START, before, k);
      ListenerStep(middle, Teardown, k);
      RegisteredOnce(down, after, k);
    }
    var s := Run(down, after);
    assert s.listeners == [s.listeners[0], s.listeners[1], s.listeners[2]];
    assert forall k: nat :: k < 3 ==> s.listeners[k] == Released;
  }

  lemma TornDown(s: State)
    ensures Next(s, Teardown).disposed
  {
  }

  // ---- What is heard, and what is known ----

  /** What a run leaves of one registration and of the component itself. */
  lemma {:induction false} ListenersExactly(events: seq<Event>, k: nat)
    requires k < 3
    ensures var s := Run(START, events);
            && |s.listeners| == 3
            && (s.disposed <==> Teardown in events)
            && (s.listeners[k] == Registering <==> Registered(k) !in events)
            && (s.listeners[k] == Listening <==> Registered(k) in events && Teardown !in events)
    decreases |events|
  {
    if events == [] {
    } else {
      var n := |events| - 1;
      ListenersExactly(events[..n], k);
      RunSplit(START, events, n);
      var before := Run(START, events[..n]);
      assert events == events[..n] + [events[n]];
      hide Run;
      ListenerAfter(before, events[n], k);
    }
  }

  lemma ListenerAfter(s: State, e: Event, k: nat)
    requires |s.listeners| == 3 && k < 3
    ensures var t := Next(s, e);
            && |t.listeners| == 3 && (t.disposed <==> s.disposed || e == Teardown)
            && t.listeners[k] ==
               if e == Teardown then AfterRelease(s.listeners[k])
               else if e == Registered(k) && s.listeners[k] == Registering
                    then (if s.disposed then Released else Listening)
               else s.listeners[k]
  {
  }

  /** A listener hears events from its registration on until teardown. */
  lemma HearsExactlyWhen(events: seq<Event>, k: nat)
    requires k < 3
    ensures Hears(Run(START, events), k) <==> Registered(k) in events && Teardown !in events
  {
    ListenersExactly(events, k);
    hide Run;
  }

  /** The generation last read, as far as the component was there to take it. */
  function KnownAfter(events: seq<Event>): Option<nat> {
    if events == [] then None
    else
      var n := |events| - 1;
      if events[n].GenerationRead? && Teardown !in events[..n] then Some(events[n].known) else KnownAfter(events[..n])
  }

  lemma {:induction false} GenerationExactly(events: seq<Event>)
    ensures Run(START, events).generation == KnownAfter(events)
  {
    if events == [] {
    } else {
      var n := |events| - 1;
      GenerationExactly(events[..n]);
      ListenersExactly(events[..n], 0);
      RunSplit(START, events, n);
      var before := Run(START, events[..n]);
      hide Run, KnownAfter;
      GenerationAfter(before, events[n]);
      hide Next;
      LastKnown(events);
    }
  }

  lemma GenerationAfter(s: State, e: Event)
    ensures Next(s, e).generation == if e.GenerationRead? && !s.disposed then Some(e.known) else s.generation
  {
  }

  lemma LastKnown(events: seq<Event>)
    requires events != []
    ensures var n := |events| - 1;
            KnownAfter(events)
            == if events[n].GenerationRead? && Teardown !in events[..n] then Some(events[n].known)
               else KnownAfter(events[..n])
  {
  }

  /** After any run, a warning is shown exactly when its listener was registered, the component has not been
      torn down, and it carries the generation last read; otherwise what is shown stays. */
  lemma WarningShownExactly(events: seq<Event>, identity: Identity, left: int, now: int)
    ensures var s := Run(START, events); var t := Next(s, Warning(identity, left, now));
            if Registered(WARNING) in events && Teardown !in events && KnownAfter(events) == Some(identity.generation)
            then t.countdown == Some(Countdown(identity, left, now)) && t.seconds == left
            else t == s
  {
    ListenersExactly(events, WARNING);
    GenerationExactly(events);
    hide Run, KnownAfter;
  }

  /** After any run, a cancellation takes down what is shown exactly when its listener was registered, the
      component has not been torn down, and the countdown has its profile and generation. */
  lemma CancellationExactly(events: seq<Event>, identity: Identity)
    ensures var s := Run(START, events); var t := Next(s, CancelledFor(identity));
            t == if Registered(CANCELLATION) in events && Teardown !in events
                    && s.countdown.Some? && s.countdown.value.identity == identity
                 then s.(countdown := None) else s
  {
    ListenersExactly(events, CANCELLATION);
    hide Run;
  }

  /** The activity reporter is installed exactly between the first read of the generation and teardown. */
  lemma {:induction false} ReporterExactly(events: seq<Event>)
    ensures Run(START, events).reporter == Installed <==> FirstReadDone in events && Teardown !in events
    ensures Run(START, events).reporter == NotInstalled && Teardown !in events ==> FirstReadDone !in events
    ensures Run(START, events).reporter == CleanedUp ==> Teardown in events
  {
    if events == [] {
    } else {
      var n := |events| - 1;
      ReporterExactly(events[..n]);
      ListenersExactly(events[..n], 0);
      RunSplit(START, events, n);
      assert events == events[..n] + [events[n]];
      var before := Run(START, events[..n]);
      hide Run;
      ReporterAfter(before, events[n]);
      hide Next;
    }
  }

  lemma ReporterAfter(s: State, e: Event)
    ensures var t := Next(s, e);
            t.reporter == if e == FirstReadDone && !s.disposed && s.reporter == NotInstalled then Installed
                          else if e == Teardown && s.reporter == Installed then CleanedUp else s.reporter
  {
  }

  /** While a countdown is on screen a tick shows what is left of it: the seconds of its warning less the
      whole seconds since it came, and never less than nothing. */
  lemma TickShowsWhatIsLeft(events: seq<Event>, now: int)
    requires Run(START, events).countdown.Some? && Teardown !in events
    ensures var c, t := Run(START, events).countdown.value, Next(Run(START, events), Tick(now));
            && t.countdown == Some(c) && t.seconds >= 0
            && (t.seconds > 0 ==>
                  1000 * (c.seconds - t.seconds) <= now - c.receivedAt < 1000 * (c.seconds - t.seconds + 1))
            && (t.seconds == 0 ==> now - c.receivedAt >= 1000 * c.seconds)
  {
    ListenersExactly(events, 0);
    hide Run;
    var c := Run(START, events).countdown.value;
    WholeSeconds(c.seconds, c.receivedAt, now);
    hide SecondsLeft;
  }

  lemma WholeSeconds(seconds: int, receivedAt: int, now: int)
    ensures var left := SecondsLeft(seconds, receivedAt, now);
            && left >= 0
            && (left > 0 ==> 1000 * (seconds - left) <= now - receivedAt < 1000 * (seconds - left + 1))
            && (left == 0 ==> now - receivedAt >= 1000 * seconds)
  {
  }
}
