/** The Dashboard's widgets: how the flat layout is cut into rows, which layout position each card's
    buttons act on, and the moves and drops that edit the layout. */
module DashboardRows {
  import opened Options
  import opened Sequences

  const SAFE_TO_SPEND := "safe_to_spend"

  const STAT_WIDGETS: set<string> := {"stat_net_worth", "stat_cash", "stat_debt", "stat_investments"}

  predicate IsCompact(id: string) {
    id in STAT_WIDGETS || "account:" <= id || "bucket:" <= id || "investment:" <= id
  }

  /** The one widget that can be on the layout without being shown. */
  predicate Hidden(id: string, enabled: bool) {
    id == SAFE_TO_SPEND && !enabled
  }

  datatype Row = Row(ids: seq<string>, startIndex: nat, isCompactRow: bool)

  predicate Joins(rows: seq<Row>, id: string) {
    IsCompact(id) && rows != [] && rows[|rows| - 1].isCompactRow
  }

  function AddWidget(rows: seq<Row>, id: string, index: nat): seq<Row> {
    if Joins(rows, id) then
      var last := rows[|rows| - 1];
      rows[|rows| - 1 := last.(ids := last.ids + [id])]
    else rows + [Row([id], index, IsCompact(id))]
  }

  /** The rows of a layout, one widget at a time. */
  function Rows(layout: seq<string>, enabled: bool): seq<Row> {
    if layout == [] then []
    else
      var index := |layout| - 1;
      var before := Rows(layout[..index], enabled);
      if Hidden(layout[index], enabled) then before else AddWidget(before, layout[index], index)
  }

  /** The loop that pushes into the last row or starts a new one. */
  method LayoutRows(layout: seq<string>, enabled: bool) returns (rows: seq<Row>)
    ensures rows == Rows(layout, enabled)
  {
    hide IsCompact;
    rows := [];
    var index := 0;
    while index < |layout|
      invariant 0 <= index <= |layout|
      invariant rows == Rows(layout[..index], enabled)
    {
      var id := layout[index];
      assert layout[..index + 1][..index] == layout[..index];
      if id == SAFE_TO_SPEND && !enabled {
        index := index + 1;
        continue;
      }
      var compact := IsCompact(id);
      if compact && |rows| > 0 && rows[|rows| - 1].isCompactRow {
        var last := rows[|rows| - 1];
        rows := rows[|rows| - 1 := last.(ids := last.ids + [id])];
      } else {
        rows := rows + [Row([id], index, compact)];
      }
      index := index + 1;
    }
    assert layout[..index] == layout;
  }

  // ---- What is in the rows ----

  function Groups(rows: seq<Row>): (g: seq<seq<string>>)
    ensures |g| == |rows| && forall k :: 0 <= k < |rows| ==> g[k] == rows[k].ids
  {
    Mapped(rows, (row: Row) => row.ids)
  }

  function Concat(g: seq<seq<string>>): seq<string> {
    if g == [] then [] else Concat(g[..|g| - 1]) + g[|g| - 1]
  }

  /** The layout as it is shown. */
  function Visible(layout: seq<string>, enabled: bool): seq<string> {
    if enabled then layout else Only(layout, Elems(layout) - {SAFE_TO_SPEND})
  }

  lemma ConcatPush(g: seq<seq<string>>, ids: seq<string>)
    ensures Concat(g + [ids]) == Concat(g) + ids
  {
    assert (g + [ids])[..|g|] == g;
  }

  lemma GroupsPush(rows: seq<Row>, id: string, index: nat)
    ensures Concat(Groups(AddWidget(rows, id, index))) == Concat(Groups(rows)) + [id]
  {
    hide IsCompact;
    var after := AddWidget(rows, id, index);
    if Joins(rows, id) {
      var k := |rows| - 1;
      var front := Groups(rows[..k]);
      assert Groups(rows) == front + [rows[k].ids] && Groups(after) == front + [rows[k].ids + [id]];
      ConcatPush(front, rows[k].ids);
      ConcatPush(front, rows[k].ids + [id]);
      ConcatAssoc(Concat(front), rows[k].ids, [id]);
    } else {
      assert Groups(after) == Groups(rows) + [[id]];
      ConcatPush(Groups(rows), [id]);
    }
  }

  /** Nothing is lost or reordered: reading the rows in order gives the layout without the disabled
      Safe to spend card. */
  lemma {:induction false} RowsHoldTheLayout(layout: seq<string>, enabled: bool)
    ensures Concat(Groups(Rows(layout, enabled))) == Visible(layout, enabled)
  {
    if layout == [] {
    } else {
      var n := |layout| - 1;
      var front, id := layout[..n], layout[n];
      assert layout == front + [id];
      RowsHoldTheLayout(front, enabled);
      VisiblePush(front, id, enabled);
      if !Hidden(id, enabled) {
        GroupsPush(Rows(front, enabled), id, n);
      }
    }
  }

  lemma VisiblePush(front: seq<string>, id: string, enabled: bool)
    ensures Visible(front + [id], enabled) == Visible(front, enabled) + if Hidden(id, enabled) then [] else [id]
  {
    if !enabled {
      hide Only;
      var layout := front + [id];
      var keep := Elems(layout) - {SAFE_TO_SPEND};
      OnlyConcat(front, [id], keep);
      OnlyOne(id, keep);
      assert id in Elems(layout) && Elems(front) <= Elems(layout);
      OnlyCongruent(front, keep, Elems(front) - {SAFE_TO_SPEND});
    }
  }

  /** A way of cutting a list into rows: compact cards together in runs that cannot be extended, every
      other widget alone. */
  predicate MaximalRuns(g: seq<seq<string>>) {
    && (forall k :: 0 <= k < |g| ==> g[k] != [] && (if IsCompact(g[k][0]) then AllCompact(g[k]) else |g[k]| == 1))
    && (forall k :: 0 < k < |g| ==> !(IsCompact(g[k - 1][0]) && IsCompact(g[k][0])))
  }

  predicate AllCompact(ids: seq<string>) {
    forall i :: 0 <= i < |ids| ==> IsCompact(ids[i])
  }

  predicate Tagged(rows: seq<Row>) {
    forall k :: 0 <= k < |rows| ==> rows[k].ids != [] && (rows[k].isCompactRow <==> IsCompact(rows[k].ids[0]))
  }

  lemma {:induction false} RowsAreMaximalRuns(layout: seq<string>, enabled: bool)
    ensures MaximalRuns(Groups(Rows(layout, enabled))) && Tagged(Rows(layout, enabled))
  {
    hide IsCompact, MaximalRuns, Tagged, AddWidget;
    if layout == [] {
      NoRuns();
    } else {
      var n := |layout| - 1;
      RowsAreMaximalRuns(layout[..n], enabled);
      AddKeepsRuns(Rows(layout[..n], enabled), layout[n], n);
    }
  }

  lemma NoRuns()
    ensures MaximalRuns(Groups([])) && Tagged([])
  {
  }

  lemma AddKeepsRuns(rows: seq<Row>, id: string, index: nat)
    requires MaximalRuns(Groups(rows)) && Tagged(rows)
    ensures MaximalRuns(Groups(AddWidget(rows, id, index))) && Tagged(AddWidget(rows, id, index))
  {
    hide IsCompact, Groups;
    var g, after := Groups(rows), Groups(AddWidget(rows, id, index));
    if Joins(rows, id) {
      var k := |rows| - 1;
      assert after == g[k := g[k] + [id]];
      assert IsCompact(g[k][0]) && AllCompact(g[k] + [id]);
    } else {
      assert after == g + [[id]];
    }
  }

  lemma {:induction false} ConcatFirst(g: seq<seq<string>>)
    requires g != []
    ensures Concat(g) == g[0] + Concat(g[1..])
  {
    var k := |g| - 1;
    if k == 0 {
    } else {
      ConcatFirst(g[..k]);
      assert g[..k][1..] == g[1..][..k - 1];
      ConcatAssoc(g[0], Concat(g[1..k]), g[k]);
      assert g[1..k] == g[1..][..k - 1];
    }
  }

  lemma RunsTail(g: seq<seq<string>>)
    requires MaximalRuns(g) && g != []
    ensures MaximalRuns(g[1..])
    ensures |g| > 1 && IsCompact(g[0][0]) ==> g[1] != [] && !IsCompact(g[1][0])
  {
    hide IsCompact;
    assert forall k :: 0 <= k < |g[1..]| ==> g[1..][k] == g[k + 1];
  }

  /** What follows the first compact run, if anything, is not compact. */
  lemma AfterFirstRun(g: seq<seq<string>>)
    requires MaximalRuns(g) && g != []
    ensures |g[0]| <= |Concat(g)| && Concat(g)[..|g[0]|] == g[0]
    ensures g[0] != [] && (IsCompact(g[0][0]) && |g[0]| < |Concat(g)| ==> !IsCompact(Concat(g)[|g[0]|]))
  {
    hide IsCompact;
    ConcatFirst(g);
    RunsTail(g);
    if |g| > 1 {
      ConcatFirst(g[1..]);
    }
  }

  lemma FirstRunsAgree(a: seq<seq<string>>, b: seq<seq<string>>)
    requires MaximalRuns(a) && MaximalRuns(b) && a != [] && b != [] && Concat(a) == Concat(b)
    ensures a[0] == b[0]
  {
    hide IsCompact, MaximalRuns, Concat;
    AfterFirstRun(a);
    AfterFirstRun(b);
    assert a[0][0] == Concat(a)[0] == b[0][0];
    if IsCompact(a[0][0]) {
      if |a[0]| < |b[0]| {
        InFirstRun(b, |a[0]|);
      } else if |b[0]| < |a[0]| {
        InFirstRun(a, |b[0]|);
      }
    } else {
      AloneInFirst(a);
      AloneInFirst(b);
    }
  }

  lemma InFirstRun(g: seq<seq<string>>, i: nat)
    requires MaximalRuns(g) && g != [] && i < |g[0]| && IsCompact(g[0][0])
    ensures i < |Concat(g)| && IsCompact(Concat(g)[i])
  {
    hide IsCompact, Concat;
    AfterFirstRun(g);
    assert Concat(g)[..|g[0]|][i] == g[0][i];
  }

  lemma AloneInFirst(g: seq<seq<string>>)
    requires MaximalRuns(g) && g != [] && g[0] != [] && !IsCompact(g[0][0])
    ensures |g[0]| == 1
  {
    hide IsCompact;
  }

  lemma NoEmptyRuns(g: seq<seq<string>>)
    requires MaximalRuns(g)
    ensures Concat(g) == [] <==> g == []
  {
    hide IsCompact;
    if g != [] {
      ConcatFirst(g);
    }
  }

  /** There is only one way to cut a list into maximal runs, so the rows are determined by the layout. */
  lemma {:induction false} OnlyOneCut(a: seq<seq<string>>, b: seq<seq<string>>)
    requires MaximalRuns(a) && MaximalRuns(b) && Concat(a) == Concat(b)
    ensures a == b
  {
    hide MaximalRuns, Concat;
    NoEmptyRuns(a);
    NoEmptyRuns(b);
    if a == [] {
    } else {
      FirstRunsAgree(a, b);
      ConcatFirst(a);
      ConcatFirst(b);
      RunsTail(a);
      RunsTail(b);
      var rest := |a[0]|;
      assert Concat(a)[rest..] == Concat(a[1..]) && Concat(b)[rest..] == Concat(b[1..]);
      OnlyOneCut(a[1..], b[1..]);
      assert a == [a[0]] + a[1..] && b == [b[0]] + b[1..];
    }
  }

  // ---- The index the buttons are given ----

  /** Where each shown widget stands in the layout, row by row. */
  function Places(layout: seq<string>, enabled: bool): (r: seq<seq<nat>>) {
    if layout == [] then []
    else
      var index := |layout| - 1;
      var before := Places(layout[..index], enabled);
      if Hidden(layout[index], enabled) then before
      else AddPlace(before, Joins(Rows(layout[..index], enabled), layout[index]), index)
  }

  function AddPlace(places: seq<seq<nat>>, joins: bool, index: nat): seq<seq<nat>> {
    if joins && places != [] then places[|places| - 1 := places[|places| - 1] + [index]] else places + [[index]]
  }

  function HiddenIn(layout: seq<string>, enabled: bool, from: nat, to: nat): nat
    requires to <= |layout|
  {
    if to <= from then 0
    else HiddenIn(layout, enabled, from, to - 1) + if Hidden(layout[to - 1], enabled) then 1 else 0
  }

  /** Each widget of a row is its start plus its place in the row plus the hidden widgets in between. */
  predicate Placed(layout: seq<string>, enabled: bool, row: Row, at: seq<nat>) {
    && |at| == |row.ids| > 0 && at[0] == row.startIndex
    && forall o :: 0 <= o < |at| ==>
         at[o] < |layout| && layout[at[o]] == row.ids[o]
         && at[o] == row.startIndex + o + HiddenIn(layout, enabled, row.startIndex, at[o])
  }

  predicate RowsPlaced(layout: seq<string>, enabled: bool, rows: seq<Row>, places: seq<seq<nat>>) {
    |rows| == |places| && forall k :: 0 <= k < |rows| ==> Placed(layout, enabled, rows[k], places[k])
  }

  /** Only hidden widgets after position p. */
  predicate RestHidden(layout: seq<string>, enabled: bool, p: int) {
    forall j :: p < j < |layout| && 0 <= j ==> Hidden(layout[j], enabled)
  }

  lemma {:induction false} HiddenPrefix(layout: seq<string>, enabled: bool, from: nat, to: nat, n: nat)
    requires to <= n <= |layout|
    ensures HiddenIn(layout[..n], enabled, from, to) == HiddenIn(layout, enabled, from, to)
  {
    if to <= from {
    } else {
      HiddenPrefix(layout, enabled, from, to - 1, n);
    }
  }

  lemma {:induction false} HiddenRun(layout: seq<string>, enabled: bool, from: nat, l: nat, to: nat)
    requires from <= l < to <= |layout|
    requires !Hidden(layout[l], enabled) && forall j :: l < j < to ==> Hidden(layout[j], enabled)
    ensures HiddenIn(layout, enabled, from, to) == HiddenIn(layout, enabled, from, l) + (to - l - 1)
  {
    if l + 1 == to {
    } else {
      HiddenRun(layout, enabled, from, l, to - 1);
    }
  }

  lemma PlacedGrows(layout: seq<string>, enabled: bool, row: Row, at: seq<nat>, n: nat)
    requires n <= |layout| && Placed(layout[..n], enabled, row, at)
    ensures Placed(layout, enabled, row, at)
  {
    hide HiddenIn;
    forall o | 0 <= o < |at|
      ensures at[o] < |layout| && layout[at[o]] == row.ids[o]
      ensures at[o] == row.startIndex + o + HiddenIn(layout, enabled, row.startIndex, at[o])
    {
      HiddenPrefix(layout, enabled, row.startIndex, at[o], n);
    }
  }

  lemma PlacedJoin(layout: seq<string>, enabled: bool, row: Row, at: seq<nat>, n: nat)
    requires n == |layout| - 1 && Placed(layout, enabled, row, at) && !Hidden(layout[at[|at| - 1]], enabled)
    requires at[|at| - 1] < n && forall j :: at[|at| - 1] < j < n ==> Hidden(layout[j], enabled)
    ensures Placed(layout, enabled, row.(ids := row.ids + [layout[n]]), at + [n])
  {
    hide HiddenIn;
    HiddenRun(layout, enabled, row.startIndex, at[|at| - 1], n);
  }

  /** The last shown widget's position, or -1. */
  function LastPlace(places: seq<seq<nat>>): int {
    if places == [] || places[|places| - 1] == [] then -1
    else var last := places[|places| - 1]; last[|last| - 1]
  }

  lemma {:induction false} AllPlaced(layout: seq<string>, enabled: bool)
    ensures RowsPlaced(layout, enabled, Rows(layout, enabled), Places(layout, enabled))
    ensures var last := LastPlace(Places(layout, enabled));
            last < |layout| && RestHidden(layout, enabled, last) && (last >= 0 ==> !Hidden(layout[last], enabled))
  {
    if layout == [] {
    } else {
      hide RowsPlaced, RestHidden, LastPlace, IsCompact, Hidden, AddWidget, AddPlace, Joins;
      var n := |layout| - 1;
      AllPlaced(layout[..n], enabled);
      var rows, places := Rows(layout[..n], enabled), Places(layout[..n], enabled);
      RowsPlacedGrow(layout, enabled, rows, places, n);
      if Hidden(layout[n], enabled) {
        RestGrows(layout, enabled, LastPlace(places));
      } else {
        PlaceNext(layout, enabled, rows, places);
        NothingAfter(layout, enabled);
      }
    }
  }

  lemma RowsPlacedGrow(layout: seq<string>, enabled: bool, rows: seq<Row>, places: seq<seq<nat>>, n: nat)
    requires n <= |layout| && RowsPlaced(layout[..n], enabled, rows, places)
    ensures RowsPlaced(layout, enabled, rows, places)
  {
    hide Placed;
    forall k | 0 <= k < |rows|
      ensures Placed(layout, enabled, rows[k], places[k])
    {
      PlacedGrows(layout, enabled, rows[k], places[k], n);
    }
  }

  lemma RestGrows(layout: seq<string>, enabled: bool, p: int)
    requires layout != [] && RestHidden(layout[..|layout| - 1], enabled, p) && Hidden(layout[|layout| - 1], enabled)
    ensures RestHidden(layout, enabled, p)
  {
    hide Hidden;
    forall j | p < j < |layout| && 0 <= j
      ensures Hidden(layout[j], enabled)
    {
      assert j < |layout| - 1 ==> layout[..|layout| - 1][j] == layout[j];
    }
  }

  lemma NothingAfter(layout: seq<string>, enabled: bool)
    ensures RestHidden(layout, enabled, |layout| - 1)
  {
  }

  lemma PlaceNext(layout: seq<string>, enabled: bool, rows: seq<Row>, places: seq<seq<nat>>)
    requires layout != [] && RowsPlaced(layout, enabled, rows, places)
    requires var n, last := |layout| - 1, LastPlace(places);
             last < n && (last >= 0 ==> !Hidden(layout[last], enabled)) && RestHidden(layout[..n], enabled, last)
    ensures var n := |layout| - 1; var next := AddPlace(places, Joins(rows, layout[n]), n);
            RowsPlaced(layout, enabled, AddWidget(rows, layout[n], n), next) && LastPlace(next) == n
  {
    hide IsCompact, Hidden, Placed;
    var n := |layout| - 1;
    if Joins(rows, layout[n]) {
      var k := |rows| - 1;
      assert Placed(layout, enabled, rows[k], places[k]);
      SomePlace(layout, enabled, rows[k], places[k]);
      assert LastPlace(places) == places[k][|places[k]| - 1];
      forall j | LastPlace(places) < j < n
        ensures Hidden(layout[j], enabled)
      {
        assert layout[..n][j] == layout[j];
      }
      PlacedJoin(layout, enabled, rows[k], places[k], n);
    } else {
      PlacedAlone(layout, enabled);
    }
  }

  lemma SomePlace(layout: seq<string>, enabled: bool, row: Row, at: seq<nat>)
    requires Placed(layout, enabled, row, at)
    ensures at != []
  {
  }

  lemma PlacedAlone(layout: seq<string>, enabled: bool)
    requires layout != []
    ensures var n := |layout| - 1; Placed(layout, enabled, Row([layout[n]], n, IsCompact(layout[n])), [n])
  {
    hide IsCompact;
  }

  /** Where the card at `offset` of row k stands in the layout. */
  function PlaceOf(layout: seq<string>, enabled: bool, k: nat, offset: nat): (own: nat)
    requires k < |Rows(layout, enabled)| && offset < |Rows(layout, enabled)[k].ids|
  {
    AllPlaced(layout, enabled);
    assert Placed(layout, enabled, Rows(layout, enabled)[k], Places(layout, enabled)[k]);
    Places(layout, enabled)[k][offset]
  }

  /** How many cards are shown before a layout position: the screen position of the card there. */
  function ScreenIndex(layout: seq<string>, enabled: bool, p: nat): nat
    requires p <= |layout|
  {
    |Visible(layout[..p], enabled)|
  }

  lemma ShownNotHidden(layout: seq<string>, enabled: bool, k: nat)
    requires k < |Rows(layout, enabled)|
    ensures forall id :: id in Rows(layout, enabled)[k].ids ==> !Hidden(id, enabled)
  {
    hide IsCompact;
    if layout == [] || k == |Rows(layout[..|layout| - 1], enabled)| {
    } else {
      ShownNotHidden(layout[..|layout| - 1], enabled, k);
    }
  }

  lemma NextOnScreen(layout: seq<string>, enabled: bool, i: nat)
    requires i < |layout|
    ensures ScreenIndex(layout, enabled, i + 1)
         == ScreenIndex(layout, enabled, i) + if Hidden(layout[i], enabled) then 0 else 1
  {
    hide Visible, Hidden;
    assert layout[..i + 1] == layout[..i] + [layout[i]];
    VisiblePush(layout[..i], layout[i], enabled);
  }

  lemma {:induction false} ScreenIndexCounts(layout: seq<string>, enabled: bool, from: nat, to: nat)
    requires from <= to <= |layout|
    ensures ScreenIndex(layout, enabled, to)
         == ScreenIndex(layout, enabled, from) + (to - from) - HiddenIn(layout, enabled, from, to)
  {
    if from == to {
    } else {
      hide ScreenIndex, Hidden;
      ScreenIndexCounts(layout, enabled, from, to - 1);
      NextOnScreen(layout, enabled, to - 1);
    }
  }

  lemma EarlierRows(layout: seq<string>, enabled: bool, k: nat)
    requires layout != [] && k < |Rows(layout[..|layout| - 1], enabled)|
    ensures var rows, before := Rows(layout, enabled), Rows(layout[..|layout| - 1], enabled);
            k < |rows| && rows[k].startIndex == before[k].startIndex && rows[..k] == before[..k]
  {
    hide AddWidget, Hidden;
    var n := |layout| - 1;
    AddKeepsEarlier(Rows(layout[..n], enabled), layout[n], n, k);
  }

  lemma AddKeepsEarlier(rows: seq<Row>, id: string, index: nat, k: nat)
    requires k < |rows|
    ensures var after := AddWidget(rows, id, index);
            k < |after| && after[k].startIndex == rows[k].startIndex && after[..k] == rows[..k]
  {
    hide IsCompact, Rows;
  }

  /** A row starts on screen after all the cards of the rows before it. */
  lemma {:induction false} RowStart(layout: seq<string>, enabled: bool, k: nat)
    requires k < |Rows(layout, enabled)|
    ensures var rows := Rows(layout, enabled);
            rows[k].startIndex < |layout|
            && ScreenIndex(layout, enabled, rows[k].startIndex) == |Concat(Groups(rows[..k]))|
  {
    if layout == [] {
    } else {
      hide IsCompact, Visible, Concat, Hidden;
      var n := |layout| - 1;
      var rows, before := Rows(layout, enabled), Rows(layout[..n], enabled);
      if k < |before| {
        hide Rows, AddWidget;
        RowStart(layout[..n], enabled, k);
        EarlierRows(layout, enabled, k);
        assert layout[..n][..rows[k].startIndex] == layout[..rows[k].startIndex];
      } else {
        RowsHoldTheLayout(layout[..n], enabled);
        assert rows[..k] == before;
      }
    }
  }

  /** The index the buttons of a card are given is its own position less the cards hidden between the
      start of its row and it. Repeats do not matter: the position is the one whose place on screen is
      the card's. */
  lemma GivenIndex(layout: seq<string>, enabled: bool, k: nat, offset: nat)
    requires k < |Rows(layout, enabled)| && offset < |Rows(layout, enabled)[k].ids|
    ensures var row, own := Rows(layout, enabled)[k], PlaceOf(layout, enabled, k, offset);
            && row.startIndex <= own < |layout| && layout[own] == row.ids[offset] && !Hidden(layout[own], enabled)
            && layout[row.startIndex] == row.ids[0] && !Hidden(layout[row.startIndex], enabled)
            && ScreenIndex(layout, enabled, own) == |Concat(Groups(Rows(layout, enabled)[..k]))| + offset
            && row.startIndex + offset == own - HiddenIn(layout, enabled, row.startIndex, own)
    ensures !Rows(layout, enabled)[k].isCompactRow ==> offset == 0
  {
    hide IsCompact, HiddenIn, Rows, Places, Hidden, ScreenIndex, Concat;
    AllPlaced(layout, enabled);
    RowsAreMaximalRuns(layout, enabled);
    var row, at := Rows(layout, enabled)[k], Places(layout, enabled)[k];
    assert Placed(layout, enabled, row, at);
    assert Groups(Rows(layout, enabled))[k] == row.ids;
    ShownNotHidden(layout, enabled, k);
    assert row.ids[offset] in row.ids && row.ids[0] in row.ids;
    RowStart(layout, enabled, k);
    ScreenIndexCounts(layout, enabled, row.startIndex, at[offset]);
  }

  /** In a layout without repeats at most one widget is hidden between two positions. */
  lemma {:induction false} HiddenOnce(layout: seq<string>, enabled: bool, from: nat, to: nat)
    requires NoDup(layout) && to <= |layout|
    ensures HiddenIn(layout, enabled, from, to)
         == if !enabled && from <= IndexOf(layout, SAFE_TO_SPEND) < to then 1 else 0
  {
    hide IndexOf;
    if to <= from {
    } else {
      HiddenOnce(layout, enabled, from, to - 1);
      NoDupIndex(layout, to - 1);
    }
  }

  /** Without repeats: the card's own position, short by exactly one if and only if Safe to spend is
      hidden between the start of its row and the card. */
  lemma GivenIndexOnce(layout: seq<string>, enabled: bool, k: nat, offset: nat)
    requires NoDup(layout) && k < |Rows(layout, enabled)| && offset < |Rows(layout, enabled)[k].ids|
    ensures var row := Rows(layout, enabled)[k];
            var own, hidden := IndexOf(layout, row.ids[offset]), IndexOf(layout, SAFE_TO_SPEND);
            && own == PlaceOf(layout, enabled, k, offset)
            && row.startIndex + offset == own - (if !enabled && row.startIndex < hidden < own then 1 else 0)
            && HiddenIn(layout, enabled, row.startIndex, own) == own - (row.startIndex + offset)
  {
    hide IndexOf, IsCompact, NoDup, HiddenIn, Rows, Places, PlaceOf;
    GivenIndex(layout, enabled, k, offset);
    var row, own := Rows(layout, enabled)[k], PlaceOf(layout, enabled, k, offset);
    NoDupIndex(layout, own);
    HiddenOnce(layout, enabled, row.startIndex, own);
    HiddenPlace(layout, enabled, row.startIndex);
  }

  lemma HiddenPlace(layout: seq<string>, enabled: bool, p: nat)
    requires NoDup(layout) && p < |layout|
    ensures Hidden(layout[p], enabled) <==> !enabled && IndexOf(layout, SAFE_TO_SPEND) == p
  {
    hide IndexOf;
    NoDupIndex(layout, p);
  }

  // ---- Moving a widget, as it looks on screen ----

  /** `moveWidget(index, dir)`: swap two neighbouring positions of the flat layout. */
  function MovedAt(layout: seq<string>, index: int, dir: int): seq<string> {
    var target := index + dir;
    if 0 <= index < |layout| && 0 <= target < |layout| then SwapAt(layout, index, target) else layout
  }

  lemma VisibleConcat(a: seq<string>, b: seq<string>, enabled: bool)
    ensures Visible(a + b, enabled) == Visible(a, enabled) + Visible(b, enabled)
  {
    if !enabled {
      hide Only;
      var keep := Elems(a + b) - {SAFE_TO_SPEND};
      OnlyConcat(a, b, keep);
      ElemsConcat(a, b);
      OnlyCongruent(a, keep, Elems(a) - {SAFE_TO_SPEND});
      OnlyCongruent(b, keep, Elems(b) - {SAFE_TO_SPEND});
    }
  }

  lemma VisiblePair(x: string, y: string, enabled: bool)
    ensures Visible([x, y], enabled)
         == (if Hidden(x, enabled) then [] else [x]) + if Hidden(y, enabled) then [] else [y]
  {
    hide Visible;
    VisibleConcat([x], [y], enabled);
    assert [x] + [y] == [x, y];
    VisibleOne(x, enabled);
    VisibleOne(y, enabled);
  }

  lemma VisibleOne(x: string, enabled: bool)
    ensures Visible([x], enabled) == if Hidden(x, enabled) then [] else [x]
  {
    VisiblePush([], x, enabled);
    assert [] + [x] == [x];
  }

  /** Swapping two neighbours of the layout swaps the two cards on screen, or changes nothing there when
      one of them is hidden. */
  lemma SwapOnScreen(layout: seq<string>, enabled: bool, i: nat)
    requires i + 1 < |layout|
    ensures var p, shown := ScreenIndex(layout, enabled, i), Visible(layout, enabled);
            if Hidden(layout[i], enabled) || Hidden(layout[i + 1], enabled)
            then Visible(SwapAt(layout, i, i + 1), enabled) == shown
            else p + 1 < |shown| && Visible(SwapAt(layout, i, i + 1), enabled) == SwapAt(shown, p, p + 1)
  {
    hide Visible, Hidden;
    var a, x, y, b := layout[..i], layout[i], layout[i + 1], layout[i + 2..];
    assert layout == a + ([x, y] + b);
    assert SwapAt(layout, i, i + 1) == a + ([y, x] + b);
    VisibleConcat(a, [x, y] + b, enabled);
    VisibleConcat([x, y], b, enabled);
    VisibleConcat(a, [y, x] + b, enabled);
    VisibleConcat([y, x], b, enabled);
    VisiblePair(x, y, enabled);
    VisiblePair(y, x, enabled);
  }

  /** Given a card's own position, a button swaps it on screen with its neighbour the way the arrow
      points, unless that neighbour in the layout is the hidden card, or there is none: then nothing
      moves on screen. */
  lemma MovesAsShown(layout: seq<string>, enabled: bool, own: nat, dir: int)
    requires own < |layout| && !Hidden(layout[own], enabled) && (dir == 1 || dir == -1)
    ensures var v, shown := ScreenIndex(layout, enabled, own), Visible(layout, enabled);
            if 0 <= own + dir < |layout| && !Hidden(layout[own + dir], enabled)
            then 0 <= v + dir < |shown| && v < |shown|
                 && Visible(MovedAt(layout, own, dir), enabled) == SwapAt(shown, v, v + dir)
            else Visible(MovedAt(layout, own, dir), enabled) == shown
  {
    hide Visible, Hidden, ScreenIndex;
    if 0 <= own + dir < |layout| {
      if dir == 1 {
        SwapOnScreen(layout, enabled, own);
      } else {
        SwapUpOnScreen(layout, enabled, own);
      }
    }
  }

  lemma SwapUpOnScreen(layout: seq<string>, enabled: bool, own: nat)
    requires 0 < own < |layout| && !Hidden(layout[own], enabled)
    ensures var v, shown := ScreenIndex(layout, enabled, own), Visible(layout, enabled);
            if Hidden(layout[own - 1], enabled) then Visible(SwapAt(layout, own, own - 1), enabled) == shown
            else 0 < v < |shown| && Visible(SwapAt(layout, own, own - 1), enabled) == SwapAt(shown, v, v - 1)
  {
    hide Visible, Hidden, ScreenIndex, SwapAt;
    SwapOnScreen(layout, enabled, own - 1);
    NextOnScreen(layout, enabled, own - 1);
    SwapSymmetric(layout, own - 1, own);
    if !Hidden(layout[own - 1], enabled) {
      var v := ScreenIndex(layout, enabled, own);
      SwapSymmetric(Visible(layout, enabled), v - 1, v);
    }
  }

  /** Given a position short by one, Move down swaps the card with the one above it on screen, or moves
      nothing when the hidden card is just above it in the layout; Move up swaps the two cards above it,
      or moves nothing when one of the two places above it in the layout is the hidden card's. */
  lemma MovesTheOtherWay(layout: seq<string>, enabled: bool, own: nat)
    requires 0 < own < |layout| && !Hidden(layout[own], enabled)
    ensures var v, shown := ScreenIndex(layout, enabled, own), Visible(layout, enabled);
            if Hidden(layout[own - 1], enabled) then Visible(MovedAt(layout, own - 1, 1), enabled) == shown
            else 0 < v < |shown| && Visible(MovedAt(layout, own - 1, 1), enabled) == SwapAt(shown, v - 1, v)
    ensures var v, shown := ScreenIndex(layout, enabled, own), Visible(layout, enabled);
            if own == 1 || Hidden(layout[own - 1], enabled) || Hidden(layout[own - 2], enabled)
            then Visible(MovedAt(layout, own - 1, -1), enabled) == shown
            else 1 < v < |shown| && Visible(MovedAt(layout, own - 1, -1), enabled) == SwapAt(shown, v - 2, v - 1)
  {
    hide Visible, Hidden;
    SwapOnScreen(layout, enabled, own - 1);
    NextOnScreen(layout, enabled, own - 1);
    if own >= 2 {
      SwapOnScreen(layout, enabled, own - 2);
      NextOnScreen(layout, enabled, own - 2);
      SwapSymmetric(layout, own - 2, own - 1);
      OnScreen(layout, enabled, own);
    }
  }

  lemma OnScreen(layout: seq<string>, enabled: bool, own: nat)
    requires own < |layout| && !Hidden(layout[own], enabled)
    ensures var v, shown := ScreenIndex(layout, enabled, own), Visible(layout, enabled);
            v < |shown| && shown[v] == layout[own]
  {
    hide Visible, Hidden;
    var a, b := layout[..own], layout[own + 1..];
    assert layout == a + ([layout[own]] + b);
    VisibleConcat(a, [layout[own]] + b, enabled);
    VisibleConcat([layout[own]], b, enabled);
    VisibleOne(layout[own], enabled);
  }

  /** Where the widget at `own` stands after a move of the widget at `index`. */
  function TrackedTo(n: nat, own: nat, index: int, dir: int): (to: int)
    requires own < n && (dir == 1 || dir == -1)
    ensures 0 <= to < n
  {
    if !(0 <= index < n && 0 <= index + dir < n) then own
    else if own == index then index + dir
    else if own == index + dir then index
    else own
  }

  /** A swap before a position leaves as many cards shown before it. */
  lemma SwapBefore(layout: seq<string>, enabled: bool, i: nat, p: nat)
    requires i + 1 < p <= |layout|
    ensures ScreenIndex(SwapAt(layout, i, i + 1), enabled, p) == ScreenIndex(layout, enabled, p)
  {
    hide Visible, Hidden;
    assert SwapAt(layout, i, i + 1)[..p] == SwapAt(layout[..p], i, i + 1);
    SwapOnScreen(layout[..p], enabled, i);
  }

  /** The buttons of every shown card, repeats or not: a press moves that card one place on screen the
      way its arrow points if and only if nothing is hidden between the start of its row and it, there
      is a next place in the layout that way, and the widget there is not hidden. */
  lemma MoveButtonWorksExactlyWhen(layout: seq<string>, enabled: bool, k: nat, offset: nat, dir: int)
    requires k < |Rows(layout, enabled)| && offset < |Rows(layout, enabled)[k].ids| && (dir == 1 || dir == -1)
    ensures var row, own := Rows(layout, enabled)[k], PlaceOf(layout, enabled, k, offset);
            var next := MovedAt(layout, row.startIndex + offset, dir);
            own < |layout| == |next|
            && next[TrackedTo(|layout|, own, row.startIndex + offset, dir)] == row.ids[offset]
    ensures var row, own := Rows(layout, enabled)[k], PlaceOf(layout, enabled, k, offset);
            var next := MovedAt(layout, row.startIndex + offset, dir);
            var to := TrackedTo(|layout|, own, row.startIndex + offset, dir);
            ScreenIndex(next, enabled, to) == ScreenIndex(layout, enabled, own) + dir <==>
              && HiddenIn(layout, enabled, row.startIndex, own) == 0
              && 0 <= own + dir < |layout| && !Hidden(layout[own + dir], enabled)
  {
    hide IsCompact, HiddenIn, Rows, PlaceOf, Hidden, ScreenIndex, MovedAt, TrackedTo;
    GivenIndex(layout, enabled, k, offset);
    var row, own := Rows(layout, enabled)[k], PlaceOf(layout, enabled, k, offset);
    PressOnScreen(layout, enabled, own, HiddenIn(layout, enabled, row.startIndex, own), dir);
  }

  lemma PressOnScreen(layout: seq<string>, enabled: bool, own: nat, short: nat, dir: int)
    requires own < |layout| && (dir == 1 || dir == -1) && short <= own
    ensures var next, to := MovedAt(layout, own - short, dir), TrackedTo(|layout|, own, own - short, dir);
            && |next| == |layout| && next[to] == layout[own]
            && (ScreenIndex(next, enabled, to) == ScreenIndex(layout, enabled, own) + dir <==>
                short == 0 && 0 <= own + dir < |layout| && !Hidden(layout[own + dir], enabled))
  {
    hide Hidden, ScreenIndex;
    var next, to := MovedAt(layout, own - short, dir), TrackedTo(|layout|, own, own - short, dir);
    var low := if dir == 1 then own - short else own - short - 1;
    if low >= 0 && low + 1 < |layout| {
      SwapSymmetric(layout, low, low + 1);
      NextOnScreen(layout, enabled, low);
      SamePrefix(layout, next, enabled, low);
      if short == 0 && dir == 1 {
        NextOnScreen(next, enabled, low);
      } else if low + 1 < own {
        SwapBefore(layout, enabled, low, own);
      }
    }
  }

  lemma SamePrefix(a: seq<string>, b: seq<string>, enabled: bool, p: nat)
    requires p <= |a| && p <= |b| && a[..p] == b[..p]
    ensures ScreenIndex(a, enabled, p) == ScreenIndex(b, enabled, p)
  {
  }

  /** Without repeats, by name: the button works if and only if there is a next place that way and Safe
      to spend, where it is hidden, is neither there nor between the start of the card's row and it. */
  lemma MoveButtonByName(layout: seq<string>, enabled: bool, k: nat, offset: nat, dir: int)
    requires NoDup(layout) && k < |Rows(layout, enabled)| && offset < |Rows(layout, enabled)[k].ids|
    requires dir == 1 || dir == -1
    ensures var row := Rows(layout, enabled)[k]; var w := row.ids[offset];
            var own, hidden := IndexOf(layout, w), IndexOf(layout, SAFE_TO_SPEND);
            var next := MovedAt(layout, row.startIndex + offset, dir);
            IndexOf(Visible(next, enabled), w) == IndexOf(Visible(layout, enabled), w) + dir <==>
              && 0 <= own + dir < |layout|
              && (enabled || hidden == -1 || (!(row.startIndex < hidden < own) && hidden != own + dir))
  {
    hide IsCompact, HiddenIn, Rows, PlaceOf, Visible, NoDup, IndexOf, ScreenIndex, Hidden, MovedAt, TrackedTo;
    GivenIndex(layout, enabled, k, offset);
    GivenIndexOnce(layout, enabled, k, offset);
    MoveButtonWorksExactlyWhen(layout, enabled, k, offset, dir);
    var row := Rows(layout, enabled)[k];
    var own, given := IndexOf(layout, row.ids[offset]), row.startIndex + offset;
    var next, to := MovedAt(layout, given, dir), TrackedTo(|layout|, own, given, dir);
    MoveKeepsWidgets(layout, given, dir);
    ScreenIndexByName(layout, enabled, own);
    ScreenIndexByName(next, enabled, to);
    if 0 <= own + dir < |layout| {
      HiddenPlace(layout, enabled, own + dir);
    }
  }

  /** No press loses, adds or repeats a widget. */
  lemma MoveKeepsWidgets(layout: seq<string>, index: int, dir: int)
    ensures NoDup(layout) ==> NoDup(MovedAt(layout, index, dir))
    ensures Elems(MovedAt(layout, index, dir)) == Elems(layout)
    ensures multiset(MovedAt(layout, index, dir)) == multiset(layout)
  {
    hide NoDup;
    if 0 <= index < |layout| && 0 <= index + dir < |layout| {
      SwapElems(layout, index, index + dir);
    }
  }

  lemma ScreenIndexByName(layout: seq<string>, enabled: bool, p: nat)
    requires NoDup(layout) && p < |layout| && !Hidden(layout[p], enabled)
    ensures IndexOf(Visible(layout, enabled), layout[p]) == ScreenIndex(layout, enabled, p)
  {
    hide Only, IndexOf, NoDup;
    if enabled {
      NoDupIndex(layout, p);
    } else {
      var keep := Elems(layout) - {SAFE_TO_SPEND};
      assert layout[p] in Elems(layout);
      RestrictedIndex(layout, p, keep);
      assert Elems(layout[..p]) <= Elems(layout);
      OnlyCongruent(layout[..p], keep, Elems(layout[..p]) - {SAFE_TO_SPEND});
    }
  }

  // ---- Editing the layout ----

  function DroppedOn(layout: seq<string>, drag: Option<string>, target: string): seq<string> {
    if drag.None? || drag.value == target then layout else MoveBefore(layout, drag.value, target)
  }

  function Removed(layout: seq<string>, id: string): seq<string> {
    Only(layout, Elems(layout) - {id})
  }

  class LayoutEditor {
    var layoutWidgets: seq<string>
    var dragWidgetId: Option<string>

    constructor (layout: seq<string>)
      ensures layoutWidgets == layout && dragWidgetId == None
    {
      layoutWidgets, dragWidgetId := layout, None;
    }

    method MoveWidget(index: int, dir: int)
      requires 0 <= index < |layoutWidgets| && (dir == 1 || dir == -1)
      modifies this`layoutWidgets
      ensures layoutWidgets == MovedAt(old(layoutWidgets), index, dir)
    {
      var target := index + dir;
      if target < 0 || target >= |layoutWidgets| {
        return;
      }
      var next := layoutWidgets;
      var moving := next[index];
      next := next[index := next[target]];
      next := next[target := moving];
      layoutWidgets := next;
    }

    method RemoveWidget(id: string)
      modifies this`layoutWidgets
      ensures layoutWidgets == Removed(old(layoutWidgets), id)
    {
      layoutWidgets := Only(layoutWidgets, Elems(layoutWidgets) - {id});
    }

    method HandleWidgetDrop(target: string)
      modifies this
      ensures layoutWidgets == DroppedOn(old(layoutWidgets), old(dragWidgetId), target)
      ensures dragWidgetId == None
    {
      if dragWidgetId.None? || dragWidgetId.value == target {
        dragWidgetId := None;
        return;
      }
      var next := Only(layoutWidgets, Elems(layoutWidgets) - {dragWidgetId.value});
      next := Splice(next, IndexOf(next, target), dragWidgetId.value);
      layoutWidgets := next;
      dragWidgetId := None;
    }
  }

  /** A drop puts the dragged card just before its target and keeps the order of all the others. Nothing
      is lost but further copies of the dragged card, which a loaded layout may hold: they collapse into
      the one that is dropped. */
  lemma DropKeepsTheRest(layout: seq<string>, drag: string, target: string)
    requires target in layout && drag != target
    ensures var next := DroppedOn(layout, Some(drag), target);
            && Elems(next) == Elems(layout) + {drag} && Only(next, {drag}) == [drag]
            && Only(next, Elems(layout) - {drag}) == Only(layout, Elems(layout) - {drag})
            && IndexOf(next, drag) >= 0 && IndexOf(next, drag) + 1 == IndexOf(next, target)
            && (NoDup(layout) ==> NoDup(next))
  {
    hide Only, IndexOf, NoDup, MoveBefore;
    MoveBeforeElems(layout, drag, target);
    MoveBeforeOutside(layout, drag, target, Elems(layout) - {drag});
    MoveBeforeLands(layout, drag, target);
  }

  /** A drop on the dragged card itself, or of nothing, changes nothing; any other puts the card just before
      its target. */
  lemma DropLands(layout: seq<string>, drag: Option<string>, target: string)
    requires target in layout
    ensures var next := DroppedOn(layout, drag, target);
            if drag.None? || drag.value == target then next == layout
            else IndexOf(next, drag.value) >= 0 && IndexOf(next, drag.value) + 1 == IndexOf(next, target)
                 && Only(next, Elems(layout) - {drag.value}) == Only(layout, Elems(layout) - {drag.value})
  {
    hide Only, IndexOf, MoveBefore;
    if drag.Some? && drag.value != target {
      DropKeepsTheRest(layout, drag.value, target);
    }
  }

  /** Removing a widget, every copy of it, takes exactly it off the screen: the cards shown, read row by
      row, are those shown before without it. */
  lemma RemoveTakesOffScreen(layout: seq<string>, enabled: bool, id: string)
    ensures Concat(Groups(Rows(Removed(layout, id), enabled)))
         == Only(Concat(Groups(Rows(layout, enabled))), Elems(layout) - {id})
  {
    hide Only, Rows, Concat;
    RowsHoldTheLayout(layout, enabled);
    RowsHoldTheLayout(Removed(layout, id), enabled);
    var keep := Elems(layout) - {id};
    if !enabled {
      OnlyElems(layout, keep);
      var shown := Elems(layout) - {SAFE_TO_SPEND};
      OnlyOnly(layout, shown, keep);
      OnlyOnly(layout, keep, Elems(Removed(layout, id)) - {SAFE_TO_SPEND});
      assert keep * (Elems(Removed(layout, id)) - {SAFE_TO_SPEND}) == shown * keep;
    }
  }
}
