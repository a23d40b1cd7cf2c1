/** Single inputs: one at which each limit of the code shows, and one at which a savings-target preview
    can be confirmed and calculated. */
module Cases {
  import opened Options
  import opened Sequences
  import opened CustomOrder
  import Budget = BudgetOrder
  import Race = OrderRace
  import Nav = NavOrder
  import Dash = DashboardRows
  import Layout = LayoutRace
  import Rows = HoldingRows
  import Text = CentsText
  import Exact = Ratios
  import Days = Calendar
  import Terms = CutTerms
  import Preview = CutPreview
  import Gate = CutGate
  import Lock = AutoLock
  import Inbox = ReviewInbox
  import Retries = ReviewRetries

  // ---- Budget categories ----

  const FOOD_AND_FUEL: seq<Budget.Line> := [Budget.Line("food", "flexible"), Budget.Line("fuel", "flexible")]

  const FUEL_UP: Budget.Reorder := Budget.Move(FOOD_AND_FUEL, "fuel", -1)

  lemma FreshMonth(lines: seq<Budget.Line>)
    requires Budget.Distinct(lines)
    ensures Budget.OrderedCategories(lines, []) == Budget.Categories(lines) == Budget.Effective(lines, [])
  {
    hide SortByCustomOrder, KeepLast, Only, NoDup;
    var cats := Budget.Categories(lines);
    SortOfDistinct(cats, []);
    Budget.EffectiveForm(lines, []);
    KeepLastOfNoDup<string>([]);
    OnlyNone<string>([], Elems(cats));
    OnlyAll(cats, Elems(cats) - Elems<string>([]));
  }

  lemma FreshSection()
    ensures Budget.Distinct(FOOD_AND_FUEL) && Budget.Categories(FOOD_AND_FUEL) == ["food", "fuel"]
    ensures Budget.GroupOf(FOOD_AND_FUEL, "food") == Some("flexible") == Budget.GroupOf(FOOD_AND_FUEL, "fuel")
    ensures Budget.Displayed(FOOD_AND_FUEL, [], "flexible") == ["food", "fuel"] == Budget.Effective(FOOD_AND_FUEL, [])
    ensures IndexOf(["food", "fuel"], "food") == 0 && IndexOf(["food", "fuel"], "fuel") == 1
  {
    hide SortByCustomOrder, Only;
    var lines, cats := FOOD_AND_FUEL, ["food", "fuel"];
    assert "food"[1] != "fuel"[1];
    assert Budget.Categories(lines) == cats;
    NoDupIndex(cats, 0);
    NoDupIndex(cats, 1);
    assert lines[..1] == [lines[0]];
    assert Budget.GroupOf(lines[..1], "food") == Some("flexible");
    FreshMonth(lines);
    OnlyAll(cats, Budget.InGroup(lines, "flexible"));
  }

  lemma FuelUp()
    ensures Budget.Possible(FUEL_UP) && Budget.Takes([], FUEL_UP)
    ensures Budget.After([], FUEL_UP) == ["fuel", "food"]
    ensures Budget.Handled([], FUEL_UP) == {"food", "fuel"}
  {
    hide Budget.Displayed, FOOD_AND_FUEL, IndexOf, Budget.Effective;
    FreshSection();
  }

  lemma PlayThree(s: Race.State, a: Race.Event, b: Race.Event, c: Race.Event)
    requires Race.PossibleEvent(a) && Race.PossibleEvent(b) && Race.PossibleEvent(c)
    ensures Race.AllPossibleEvents([a, b, c])
    ensures Race.Play(s, [a, b, c]) == Race.Next(Race.Next(Race.Next(s, a), b), c)
  {
    hide Race.Next, Race.PossibleEvent;
    var e := [a, b, c];
    assert e[1..] == [b, c] && [b, c][1..] == [c] && [c][1..] == [];
    var t := Race.Next(s, a);
    var u := Race.Next(t, b);
    assert Race.Play(u, [c]) == Race.Play(Race.Next(u, c), []) == Race.Next(u, c);
    assert Race.Play(t, [b, c]) == Race.Play(u, [c]);
  }

  /** A reorder saved before the stored order is read wipes out the stored positions. */
  lemma EarlyReorderWipesStored()
    ensures Race.AllPossibleEvents([Race.Step(FUEL_UP), Race.Serve, Race.Arrive])
    ensures var s := Race.Play(Race.Start(["rent"]), [Race.Step(FUEL_UP), Race.Serve, Race.Arrive]);
            s.shown == s.stored == ["fuel", "food"] && "rent" !in s.stored
  {
    hide Budget.After, Budget.Takes, FUEL_UP, Race.Play;
    FuelUp();
    assert "rent"[0] != "fuel"[0] && "rent"[0] != "food"[0];
    PlayThree(Race.Start(["rent"]), Race.Step(FUEL_UP), Race.Serve, Race.Arrive);
  }

  /** One made while the answer is on its way is thrown off the screen and wipes out the positions too. */
  lemma LateReorderIsThrownOff()
    ensures Race.AllPossibleEvents([Race.Serve, Race.Step(FUEL_UP), Race.Arrive])
    ensures var s := Race.Play(Race.Start(["rent"]), [Race.Serve, Race.Step(FUEL_UP), Race.Arrive]);
            s.shown == ["rent"] && s.stored == ["fuel", "food"]
  {
    hide Budget.After, Budget.Takes, FUEL_UP, Race.Play;
    FuelUp();
    PlayThree(Race.Start(["rent"]), Race.Serve, Race.Step(FUEL_UP), Race.Arrive);
  }

  const FOOD_TO_RENT: seq<Budget.Line> :=
    [Budget.Line("food", "flexible"), Budget.Line("fuel", "flexible"), Budget.Line("rent", "flexible")]

  const GIFTS_AND_RENT: seq<Budget.Line> := [Budget.Line("gifts", "flexible"), Budget.Line("rent", "flexible")]

  /** Move up on fuel in one month turns gifts and rent around in the same section of another, though it
      took hold of neither. */
  lemma OtherMonthTurnsAround()
    ensures Budget.Possible(Budget.Move(FOOD_TO_RENT, "fuel", -1)) && Budget.Distinct(GIFTS_AND_RENT)
    ensures var a := Budget.Move(FOOD_TO_RENT, "fuel", -1);
            && Budget.Takes([], a) && Budget.Handled([], a) == {"food", "fuel"}
            && Budget.Displayed(GIFTS_AND_RENT, [], "flexible") == ["gifts", "rent"]
            && Budget.Displayed(GIFTS_AND_RENT, Budget.After([], a), "flexible") != ["gifts", "rent"]
  {
    var a := Budget.Move(FOOD_TO_RENT, "fuel", -1);
    ThreeShown();
    TwoShown();
    LooseParts();
    FuelUpInThree();
    hide *;
    SectionsAreParts();
    Budget.OtherMonthStaysExactlyWhen([], a, GIFTS_AND_RENT, Elems(["gifts", "rent"]));
  }

  lemma SectionsAreParts()
    ensures forall order :: Budget.Displayed(GIFTS_AND_RENT, order, "flexible")
                         == Only(Budget.OrderedCategories(GIFTS_AND_RENT, order), Elems(["gifts", "rent"]))
  {
    hide SortByCustomOrder, Only;
    TwoShown();
  }

  lemma ThreeShown()
    ensures Budget.Distinct(FOOD_TO_RENT) && Budget.Categories(FOOD_TO_RENT) == ["food", "fuel", "rent"]
    ensures Budget.GroupOf(FOOD_TO_RENT, "fuel") == Some("flexible")
    ensures Budget.Displayed(FOOD_TO_RENT, [], "flexible") == ["food", "fuel", "rent"]
  {
    hide SortByCustomOrder, Only;
    var lines, cats := FOOD_TO_RENT, ["food", "fuel", "rent"];
    assert "food"[1] != "fuel"[1] && "rent"[0] != "food"[0];
    assert Budget.Categories(lines) == cats;
    assert lines[..2] == FOOD_AND_FUEL && FOOD_AND_FUEL[..1] == [lines[0]];
    assert Budget.GroupOf(FOOD_AND_FUEL[..1], "food") == Some("flexible");
    FreshMonth(lines);
    OnlyAll(cats, Budget.InGroup(lines, "flexible"));
  }

  lemma TwoShown()
    ensures Budget.Distinct(GIFTS_AND_RENT) && Budget.Categories(GIFTS_AND_RENT) == ["gifts", "rent"]
    ensures Budget.InGroup(GIFTS_AND_RENT, "flexible") == Elems(["gifts", "rent"])
    ensures Budget.Displayed(GIFTS_AND_RENT, [], "flexible") == ["gifts", "rent"]
  {
    hide SortByCustomOrder, Only;
    var lines, cats := GIFTS_AND_RENT, ["gifts", "rent"];
    assert "gifts"[0] != "rent"[0];
    assert Budget.Categories(lines) == cats;
    assert lines[..1] == [lines[0]];
    assert Budget.GroupOf(lines[..1], "gifts") == Some("flexible");
    assert Budget.InGroup(lines, "flexible") == Elems(cats);
    FreshMonth(lines);
    OnlyAll(cats, Elems(cats));
  }

  lemma LooseParts()
    ensures var loose := Elems(["gifts", "rent"]) - Elems<string>([]);
            !(Only(["food", "fuel", "rent"], loose) <= Only(["gifts", "rent"], loose))
    ensures {"food", "fuel"} !! Elems(["gifts", "rent"])
  {
    assert "gifts"[0] != "rent"[0] && "rent"[0] != "food"[0] && "gifts"[0] != "food"[0] && "fuel"[0] != "rent"[0];
    var loose := Elems(["gifts", "rent"]) - Elems<string>([]);
    assert loose == {"gifts", "rent"};
    var listed := ["food", "fuel", "rent"];
    assert listed[1..] == ["fuel", "rent"] && listed[1..][1..] == ["rent"] && listed[1..][1..][1..] == [];
    assert Only(["rent"], loose) == ["rent"] by { OnlyOne("rent", loose); }
    assert Only(listed, loose) == ["rent"];
    OnlyAll(["gifts", "rent"], loose);
  }

  lemma FuelUpInThree()
    ensures Budget.Possible(Budget.Move(FOOD_TO_RENT, "fuel", -1))
    ensures Budget.Takes([], Budget.Move(FOOD_TO_RENT, "fuel", -1))
    ensures Budget.Handled([], Budget.Move(FOOD_TO_RENT, "fuel", -1)) == {"food", "fuel"}
  {
    hide Budget.Displayed, FOOD_TO_RENT, IndexOf;
    ThreeShown();
    var shown := ["food", "fuel", "rent"];
    assert "food"[1] != "fuel"[1] && "rent"[0] != "food"[0];
    NoDupIndex(shown, 1);
  }

  // ---- Sidebar tabs ----

  /** A tab stored twice is shown twice. */
  lemma RepeatedTabStays()
    ensures !Nav.Complete(Nav.LoadNavOrder(Some(["budget", "budget"])))
  {
    var stored := ["budget", "budget"];
    assert Nav.NAV_ITEMS[4].id == "budget";
    assert Nav.KNOWN[4] in Elems(Nav.KNOWN);
    hide Nav.KNOWN, Nav.Complete, Nav.LoadNavOrder;
    Nav.LoadedIsComplete(stored);
    OnlyAll(stored, Elems(Nav.KNOWN));
    assert !NoDup(stored) by { assert stored[0] == stored[1]; }
  }

  // ---- The Dashboard ----

  lemma RowsPush(layout: seq<string>, id: string)
    ensures Dash.Rows(layout + [id], false)
         == if Dash.Hidden(id, false) then Dash.Rows(layout, false)
            else Dash.AddWidget(Dash.Rows(layout, false), id, |layout|)
  {
    assert (layout + [id])[..|layout|] == layout;
  }

  lemma JoinsTheRow(ids: seq<string>, id: string, index: nat)
    requires Dash.IsCompact(id)
    ensures Dash.AddWidget([Dash.Row(ids, 0, true)], id, index) == [Dash.Row(ids + [id], 0, true)]
  {
  }

  /** A row of two cards around the hidden one, and the second card's index short by one. */
  lemma RowAroundHidden()
    ensures Dash.Rows(["stat_cash", "safe_to_spend", "stat_debt"], false)
         == [Dash.Row(["stat_cash", "stat_debt"], 0, true)]
    ensures Dash.Rows(["stat_cash"], false) == [Dash.Row(["stat_cash"], 0, true)]
         == Dash.Rows(["stat_cash", "safe_to_spend"], false)
  {
    hide Dash.Rows;
    assert Dash.Rows([], false) == [] by { NoRows(); }
    RowsPush([], "stat_cash");
    RowsPush(["stat_cash"], "safe_to_spend");
    RowsPush(["stat_cash", "safe_to_spend"], "stat_debt");
    assert [] + ["stat_cash"] == ["stat_cash"];
    assert ["stat_cash"] + ["safe_to_spend"] == ["stat_cash", "safe_to_spend"];
    assert ["stat_cash", "safe_to_spend"] + ["stat_debt"] == ["stat_cash", "safe_to_spend", "stat_debt"];
    JoinsTheRow(["stat_cash"], "stat_debt", 2);
    assert ["stat_cash"] + ["stat_debt"] == ["stat_cash", "stat_debt"];
    assert |"stat_cash"| != |"safe_to_spend"| && |"stat_debt"| != |"safe_to_spend"|;
  }

  lemma NoRows()
    ensures Dash.Rows([], false) == []
  {
  }

  /** Its Move down moves nothing on screen: it swaps the card with the hidden one. */
  lemma MoveDownStuckAfterHidden()
    ensures var layout := ["stat_cash", "safe_to_spend", "stat_debt"];
            && Dash.Rows(layout, false) == [Dash.Row(["stat_cash", "stat_debt"], 0, true)]
            && Dash.Visible(Dash.MovedAt(layout, 0 + 1, 1), false) == Dash.Visible(layout, false)
  {
    hide Dash.Visible, Dash.Rows;
    RowAroundHidden();
    assert |"stat_debt"| != |"safe_to_spend"|;
    Dash.MovesTheOtherWay(["stat_cash", "safe_to_spend", "stat_debt"], false, 2);
  }

  /** With one more card in the row, Move down on the last one moves it up on screen. */
  lemma MoveDownMovesUp()
    ensures Dash.Rows(["stat_cash", "safe_to_spend", "stat_debt", "stat_investments"], false)
         == [Dash.Row(["stat_cash", "stat_debt", "stat_investments"], 0, true)]
    ensures Dash.Visible(["stat_cash", "safe_to_spend", "stat_debt", "stat_investments"], false)
         == ["stat_cash", "stat_debt", "stat_investments"]
    ensures Dash.Visible(Dash.MovedAt(["stat_cash", "safe_to_spend", "stat_debt", "stat_investments"], 2, 1), false)
         == ["stat_cash", "stat_investments", "stat_debt"]
  {
    hide Dash.Rows, Dash.Visible;
    var three, four := ["stat_cash", "safe_to_spend", "stat_debt"],
        ["stat_cash", "safe_to_spend", "stat_debt", "stat_investments"];
    RowAroundHidden();
    RowsPush(three, "stat_investments");
    assert three + ["stat_investments"] == four;
    assert |"stat_debt"| != |"safe_to_spend"| && |"stat_investments"| != |"safe_to_spend"|;
    JoinsTheRow(["stat_cash", "stat_debt"], "stat_investments", 3);
    assert ["stat_cash", "stat_debt"] + ["stat_investments"] == ["stat_cash", "stat_debt", "stat_investments"];
    VisibleFour("stat_debt", "stat_investments");
    VisibleFour("stat_investments", "stat_debt");
    assert Dash.MovedAt(four, 2, 1) == ["stat_cash", "safe_to_spend", "stat_investments", "stat_debt"];
  }

  lemma VisibleFour(x: string, y: string)
    requires x != "safe_to_spend" && y != "safe_to_spend"
    ensures Dash.Visible(["stat_cash", "safe_to_spend", x, y], false) == ["stat_cash", x, y]
  {
    hide Dash.Visible;
    assert |"stat_cash"| != |"safe_to_spend"|;
    Dash.VisiblePair("stat_cash", "safe_to_spend", false);
    Dash.VisiblePair(x, y, false);
    Dash.VisibleConcat(["stat_cash", "safe_to_spend"], [x, y], false);
    assert ["stat_cash", "safe_to_spend"] + [x, y] == ["stat_cash", "safe_to_spend", x, y];
  }

  /** The card just above the hidden one cannot be moved down, although its index is its own position. */
  lemma MoveDownStuckBeforeHidden()
    ensures Dash.Rows(["stat_cash", "safe_to_spend", "runway"], false)[0] == Dash.Row(["stat_cash"], 0, true)
    ensures Dash.Visible(Dash.MovedAt(["stat_cash", "safe_to_spend", "runway"], 0, 1), false)
         == Dash.Visible(["stat_cash", "safe_to_spend", "runway"], false)
  {
    hide Dash.Visible, Dash.Rows;
    RowAroundHidden();
    RowsPush(["stat_cash", "safe_to_spend"], "runway");
    assert ["stat_cash", "safe_to_spend"] + ["runway"] == ["stat_cash", "safe_to_spend", "runway"];
    assert |"runway"| == 6 && |"stat_cash"| == 9 && |"safe_to_spend"| == 13;
    assert "runway" !in Dash.STAT_WIDGETS;
    Dash.MovesAsShown(["stat_cash", "safe_to_spend", "runway"], false, 0, 1);
  }

  /** So it is with To do in the default layout as soon as Safe to spend is off. */
  lemma DefaultLayoutIsStuck()
    ensures Layout.DEFAULT_LAYOUT[4] == "needs_a_look"
    ensures Dash.Visible(Dash.MovedAt(Layout.DEFAULT_LAYOUT, 4, 1), false) == Dash.Visible(Layout.DEFAULT_LAYOUT, false)
  {
    hide Dash.Visible;
    assert Layout.DEFAULT_LAYOUT[5] == "safe_to_spend";
    assert |"needs_a_look"| != |"safe_to_spend"|;
    Dash.MovesAsShown(Layout.DEFAULT_LAYOUT, false, 4, 1);
  }

  /** An emptied Dashboard comes back as the default one. */
  lemma EmptyLayoutComesBack(named: bool)
    ensures Layout.LoadLayout(Some([]), named) == Layout.DEFAULT_LAYOUT != []
  {
  }

  /** Removing To do before the saved layout is read writes the default layout without it over the stored
      one: a pinned account is gone from the screen and from what is saved. */
  lemma EarlyEditWipesStored(stored: seq<string>)
    requires "account:5" in stored
    ensures var edit := Layout.Edit(Dash.Removed(Layout.DEFAULT_LAYOUT, "needs_a_look"));
            var s := Layout.Run(Layout.START, [edit, Layout.SavedLayoutRead(stored)]);
            && "account:5" !in s.layout && s.saved == Some(s.layout)
            && "account:5" in Layout.Run(Layout.START, [Layout.SavedLayoutRead(stored)]).layout
  {
    var next := Dash.Removed(Layout.DEFAULT_LAYOUT, "needs_a_look");
    var edit, read := Layout.Edit(next), Layout.SavedLayoutRead(stored);
    assert [edit, read][1..] == [read] && [read][1..] == [];
    OnlyElems(Layout.DEFAULT_LAYOUT, Elems(Layout.DEFAULT_LAYOUT) - {"needs_a_look"});
    NotDefault();
    hide Layout.DEFAULT_LAYOUT, Dash.Removed;
    assert Layout.Run(Layout.START, [read]) == Layout.Run(Layout.Next(Layout.START, read), []);
    assert Layout.Run(Layout.START, [edit, read]) == Layout.Run(Layout.Next(Layout.START, edit), [read]);
  }

  lemma NotDefault()
    ensures "account:5" !in Layout.DEFAULT_LAYOUT
  {
    assert |"account:5"| == 9 && "account:5"[0] == 'a';
  }

  // ---- Holdings rows ----

  /** Of two rows with one symbol only the sound one is marked repeated. */
  lemma OnlyTheSoundRowIsMarked(why: string)
    ensures var rows := Rows.MarkedRows([Rows.Parsed(2, "A", Some(why)), Rows.Parsed(3, "A", None)], {});
            !rows[0].repeated && rows[1].repeated
  {
    var parsed := [Rows.Parsed(2, "A", Some(why)), Rows.Parsed(3, "A", None)];
    Rows.CountsTwice(parsed, 0, 1);
  }

  // ---- The import inbox ----

  /** A possible duplicate, listed as Food. */
  const ROW: Inbox.Item := Inbox.Item(7, Some("Food"), [Inbox.Duplicate], None)

  const TICKED: Inbox.View := Inbox.View([ROW], 0, {7}, map[], map[7 := "Food"])

  const LISTED: Inbox.Ledger := Inbox.Ledger(map[7 := "Food"], {}, {})

  /** Fuel is picked, the category call gets through and the next one fails; then Food is picked again. */
  const THERE_AND_BACK: seq<Retries.Try> :=
    [Retries.Try(map[7 := "Fuel"], Inbox.Attempt(1, false)), Retries.Try(map[7 := "Food"], Inbox.Attempt(1, false))]

  lemma OneTicked(choices: map<int, string>)
    requires 7 in choices && choices[7] != ""
    ensures Inbox.SelectedItems(TICKED.(choices := choices)) == [ROW]
    ensures !Inbox.MissingCategory([ROW], choices)
    ensures Inbox.BulkPlan(ROW, choices)
         == if choices[7] == "Food" then Inbox.Plan([Inbox.Dismiss(7, Inbox.Duplicate)], true, "Kept")
            else Inbox.Plan([Inbox.SetCategory(7, choices[7]), Inbox.Dismiss(7, Inbox.Duplicate)], true,
                            "Set to " + choices[7])
  {
    var v := TICKED.(choices := choices);
    var none: set<int> := {};
    assert [ROW][1..] == [] && [Inbox.Duplicate][1..] == [];
    assert v.resolved.Keys == none && Inbox.NotIn([ROW][1..], none) == [];
    assert Inbox.Pending(v) == Inbox.NotIn([ROW], none) == [ROW];
    assert Inbox.Ticked([ROW][1..], {7}) == [];
    assert Inbox.FlagCalls(7, [Inbox.Duplicate]) == [Inbox.Dismiss(7, Inbox.Duplicate)];
  }

  /** The first press fails on the second call of the row. */
  lemma FirstTryFails()
    ensures Retries.Pressed(TICKED, LISTED, THERE_AND_BACK[0])
         == (TICKED.(choices := map[7 := "Fuel"]), LISTED.(category := map[7 := "Fuel"]), false)
  {
    var c := map[7 := "Fuel"];
    assert "Fuel"[1] != "Food"[1];
    OneTicked(c);
    hide Inbox.BulkPlan, Inbox.SelectedItems, Inbox.MissingCategory;
    var u := TICKED.(choices := c);
    var first, second := Inbox.SetCategory(7, "Fuel"), Inbox.Dismiss(7, Inbox.Duplicate);
    var w, w' := Inbox.World(LISTED, 1, false), Inbox.World(LISTED.(category := c), 0, false);
    assert LISTED.category[7 := "Fuel"] == c;
    assert Inbox.Invoke(w, first) == (w', true) && Inbox.Invoke(w', second) == (w', false);
    assert [first, second][1..] == [second];
    assert Inbox.InvokeAll(w, [first, second]) == Inbox.InvokeAll(w', [second]) == (w', false);
    assert Inbox.ReviewEach(u, u.resolved.Keys, c, [ROW], w) == (u, w', false);
  }

  /** The second finishes it as kept. */
  lemma SecondTryKeeps()
    ensures var (v, l, ok) := Retries.Pressed(TICKED.(choices := map[7 := "Fuel"]),
                                              LISTED.(category := map[7 := "Fuel"]), THERE_AND_BACK[1]);
            ok && 7 in v.resolved && v.resolved[7] == "Kept" && l.category == map[7 := "Fuel"]
  {
    var c := map[7 := "Food"];
    OneTicked(c);
    hide Inbox.BulkPlan, Inbox.SelectedItems, Inbox.MissingCategory;
    var u := TICKED.(choices := c);
    assert TICKED.(choices := map[7 := "Fuel"]).(choices := c) == u;
    var call, l := Inbox.Dismiss(7, Inbox.Duplicate), LISTED.(category := map[7 := "Fuel"]);
    var w, w' := Inbox.World(l, 1, false), Inbox.World(Inbox.Perform(l, call), 0, false);
    assert [call][1..] == [] && [ROW][1..] == [];
    assert Inbox.InvokeAll(w, [call]) == Inbox.InvokeAll(w', []) == (w', true);
    var keys := u.resolved.Keys;
    var u' := Inbox.FinishPlan(u, keys, ROW, Inbox.BulkPlan(ROW, c));
    assert Inbox.ReviewEach(u, keys, c, [ROW], w) == Inbox.ReviewEach(u', keys, c, [], w') == (u', w', true);
  }

  /** The row is shown as kept under Food, and is stored under Fuel. */
  lemma KeptRowStaysChanged()
    ensures var (v, l, ok) := Retries.RetriesWith(TICKED, LISTED, THERE_AND_BACK);
            ok && 7 in v.resolved && v.resolved[7] == "Kept" && l.category == map[7 := "Fuel"]
  {
    hide Retries.Pressed;
    FirstTryFails();
    SecondTryKeeps();
    assert THERE_AND_BACK[1..] == [THERE_AND_BACK[1]];
  }

  // ---- The auto-lock warning ----

  const SESSION: Lock.Identity := Lock.Identity("home", 1)

  const WARNED: Lock.State :=
    Lock.START.(generation := Some(1), countdown := Some(Lock.Countdown(SESSION, 60, 0)), seconds := 60,
                listeners := [Lock.Listening, Lock.Listening, Lock.Listening])

  /** A success that comes late takes down the countdown of a newer warning for the same session. */
  lemma NewerCountdownGoes()
    ensures var s := Lock.Run(WARNED, [Lock.Press, Lock.CancelledFor(SESSION), Lock.Warning(SESSION, 60, 9000)]);
            s.countdown == Some(Lock.Countdown(SESSION, 60, 9000)) && Lock.Next(s, Lock.Stayed(true)).countdown == None
  {
    var a, b, c := Lock.Press, Lock.CancelledFor(SESSION), Lock.Warning(SESSION, 60, 9000);
    assert [a, b, c][1..] == [b, c] && [b, c][1..] == [c] && [c][1..] == [];
    var s := Lock.Next(Lock.Next(WARNED, a), b);
    assert Lock.Run(s, [c]) == Lock.Run(Lock.Next(s, c), []) == Lock.Next(s, c);
    assert Lock.Run(WARNED, [a, b, c]) == Lock.Run(Lock.Next(WARNED, a), [b, c]) == Lock.Run(s, [c]);
  }

  /** A countdown stays on screen when the known generation changes, and runs on. */
  lemma OldCountdownStays()
    ensures Lock.Run(WARNED, [Lock.GenerationRead(2), Lock.Tick(5000)])
         == WARNED.(generation := Some(2), seconds := 55)
  {
    var a, b := Lock.GenerationRead(2), Lock.Tick(5000);
    assert [a, b][1..] == [b] && [b][1..] == [];
  }

  // ---- A preview that can be confirmed ----

  const SOURCE: Terms.Source := Terms.Source(1, 1, 1, 1, Days.Date(2024, 6, 1))

  const WHOLE_YEAR: Terms.Horizon := Terms.Horizon(Terms.FullYear, Days.Date(2024, 1, 1), Days.Date(2024, 12, 31))

  /** One category with floor 0, cut by at most a dollar, whose own usual month is 0. */
  const REVIEW: Gate.Review :=
    Gate.Review(Terms.Intent(Terms.Monthly, "1", [Terms.Term("food", "0", Terms.Money("1"))], WHOLE_YEAR,
        Terms.Exclude),
                [Preview.Chosen("food", Terms.Manual("0", SOURCE))], SOURCE)

  lemma DigitIsAmount(c: char)
    requires Text.IsDigit(c)
    ensures Text.TypedAmount([c]) && Text.Readable([c])
    ensures Text.Whole([c]) == [c] && Text.Part([c]) == ""
  {
    Text.NoPoint([c]);
    Text.SingleDigit(c);
  }

  lemma ReviewIsValid()
    ensures Gate.Valid(REVIEW) && Terms.Trusted(REVIEW.baselines[0].baseline, false)
  {
    hide Text.TypedAmount, Text.Trim;
    DigitIsAmount('0');
    DigitIsAmount('1');
    assert "0" == ['0'] && "1" == ['1'];
    TrimFood();
    assert Terms.DatesOk(WHOLE_YEAR, Terms.Exclude, SOURCE.asOf);
    assert Terms.Labels(REVIEW.intent.categories) == ["food"];
  }

  lemma ReviewShape()
    ensures |REVIEW.baselines| == |REVIEW.intent.categories| == 1
    ensures Terms.Labels(REVIEW.intent.categories) == ["food"] == Preview.Categories(REVIEW.baselines)
    ensures REVIEW.baselines[0].category == "food"
  {
  }

  lemma TrimFood()
    ensures Text.Trim("food") == "food"
  {
    assert !Text.IsSpace('f') && !Text.IsSpace('d');
  }

  /** Its button is enabled and the calculator makes a preview of it. */
  lemma ReviewCanBeConfirmed()
    ensures Gate.CanConfirm(REVIEW, map[])
    ensures Preview.Calculate(Gate.Confirmation(REVIEW, map[])).Preview?
  {
    hide Gate.Valid, Gate.CanConfirm, Gate.NeedsNothing, Preview.Calculate, REVIEW;
    ReviewIsValid();
    ReviewShape();
    NothingAskedOf();
    Gate.EnabledAtOnce(REVIEW);
    Gate.EnabledExactlyWhenCalculable(REVIEW, map[]);
  }

  lemma NothingAskedOf()
    ensures Gate.NeedsNothing(REVIEW, REVIEW.baselines[0])
  {
    hide Terms.Trusted, Text.TypedAmount, Exact.Value, Exact.FromDecimal, Text.Worth;
    ReviewIsValid();
    DigitIsAmount('0');
    assert "0" == ['0'];
    WorthOfNothing();
    Exact.FromDecimalValue("0");
  }

  lemma WorthOfNothing()
    ensures Text.Readable("0") && Text.Worth("0") == 0.0
  {
    DigitIsAmount('0');
    Text.SingleDigit('0');
    assert "0" == ['0'];
  }
}
