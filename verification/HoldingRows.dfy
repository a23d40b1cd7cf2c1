/** The rows of a holdings preview: how the backend marks them, and which of them may be ticked. */
module HoldingRows {
  import opened Options

  /** One source row after mapping: where it stood, its symbol, and what is wrong with it. */
  datatype Parsed = Parsed(number: nat, symbol: string, problem: Option<string>)

  /** One row of the preview; `holding` is the symbol of the holding the row describes. */
  datatype Row = Row(number: nat, holding: Option<string>, error: Option<string>, repeated: bool, alreadyExists: bool)

  function CountSymbol(parsed: seq<Parsed>, symbol: string): nat {
    if parsed == [] then 0
    else (if parsed[|parsed| - 1].symbol == symbol then 1 else 0) + CountSymbol(parsed[..|parsed| - 1], symbol)
  }

  function MarkedRow(parsed: seq<Parsed>, existing: set<string>, p: Parsed): Row {
    var holding := if p.problem.None? then Some(p.symbol) else None;
    Row(p.number, holding, p.problem,
        holding.Some? && CountSymbol(parsed, p.symbol) > 1,
        holding.Some? && p.symbol in existing)
  }

  function MarkedRows(parsed: seq<Parsed>, existing: set<string>): (rows: seq<Row>)
    ensures |rows| == |parsed|
    ensures forall k :: 0 <= k < |rows| ==> rows[k] == MarkedRow(parsed, existing, parsed[k])
  {
    seq(|parsed|, k requires 0 <= k < |parsed| => MarkedRow(parsed, existing, parsed[k]))
  }

  /** Counts every symbol while reading the rows, then marks the repeats. */
  method MapRows(parsed: seq<Parsed>, existing: set<string>) returns (rows: seq<Row>)
    ensures rows == MarkedRows(parsed, existing)
  {
    var counts: map<string, nat> := map[];
    rows := [];
    for i := 0 to |parsed|
      invariant |rows| == i
      invariant forall s :: CountSymbol(parsed[..i], s) == if s in counts then counts[s] else 0
      invariant forall k :: 0 <= k < i ==>
        rows[k] == Row(parsed[k].number, if parsed[k].problem.None? then Some(parsed[k].symbol) else None,
                       parsed[k].problem, false, false)
    {
      var p := parsed[i];
      assert parsed[..i + 1][..i] == parsed[..i];
      counts := counts[p.symbol := (if p.symbol in counts then counts[p.symbol] else 0) + 1];
      rows := rows + [Row(p.number, if p.problem.None? then Some(p.symbol) else None, p.problem, false, false)];
    }
    assert parsed[..|parsed|] == parsed;
    for i := 0 to |rows|
      invariant |rows| == |parsed|
      invariant forall k :: 0 <= k < i ==> rows[k] == MarkedRow(parsed, existing, parsed[k])
      invariant forall k :: i <= k < |rows| ==>
        rows[k] == Row(parsed[k].number, if parsed[k].problem.None? then Some(parsed[k].symbol) else None,
                       parsed[k].problem, false, false)
    {
      var row := rows[i];
      CountsItself(parsed, i);
      rows := rows[i := row.(
        repeated := row.holding.Some? && counts[row.holding.value] > 1,
        alreadyExists := row.holding.Some? && row.holding.value in existing)];
    }
  }

  lemma {:induction false} CountsItself(parsed: seq<Parsed>, k: nat)
    requires k < |parsed|
    ensures CountSymbol(parsed, parsed[k].symbol) >= 1
  {
    if k == |parsed| - 1 {
    } else {
      CountsItself(parsed[..|parsed| - 1], k);
    }
  }

  lemma {:induction false} CountsTwice(parsed: seq<Parsed>, i: nat, j: nat)
    requires i < j < |parsed| && parsed[i].symbol == parsed[j].symbol
    ensures CountSymbol(parsed, parsed[i].symbol) >= 2
  {
    if j < |parsed| - 1 {
      CountsTwice(parsed[..|parsed| - 1], i, j);
    } else {
      CountsItself(parsed[..|parsed| - 1], i);
    }
  }

  /** Every record starts on its own line, so row numbers are distinct. */
  ghost predicate DistinctNumbers(parsed: seq<Parsed>) {
    forall i, j :: 0 <= i < j < |parsed| ==> parsed[i].number != parsed[j].number
  }

  /** What the review relies on: distinct row numbers, an error on every row without a holding, and
      `repeated` on every holding whose symbol another row also has. */
  ghost predicate WellMarked(rows: seq<Row>) {
    && (forall i, j :: 0 <= i < j < |rows| ==> rows[i].number != rows[j].number)
    && (forall r :: r in rows ==> (r.holding.None? <==> r.error.Some?))
    && (forall i, j | 0 <= i < |rows| && 0 <= j < |rows| && i != j ::
          rows[i].holding.Some? && rows[i].holding == rows[j].holding ==> rows[i].repeated)
  }

  lemma {:induction false} CountedSomewhere(parsed: seq<Parsed>, symbol: string)
    ensures CountSymbol(parsed, symbol) >= 1 ==> exists j :: 0 <= j < |parsed| && parsed[j].symbol == symbol
  {
    if parsed == [] {
    } else {
      var front := parsed[..|parsed| - 1];
      CountedSomewhere(front, symbol);
      if j :| 0 <= j < |front| && front[j].symbol == symbol {
        assert parsed[j].symbol == symbol;
      }
    }
  }

  /** A symbol counted more than once is the symbol of another row. */
  lemma {:induction false} CountedElsewhere(parsed: seq<Parsed>, i: nat)
    requires i < |parsed| && CountSymbol(parsed, parsed[i].symbol) >= 2
    ensures exists j :: 0 <= j < |parsed| && j != i && parsed[j].symbol == parsed[i].symbol
  {
    var n := |parsed| - 1;
    var front := parsed[..n];
    if i == n {
      CountedSomewhere(front, parsed[i].symbol);
      var j :| 0 <= j < |front| && front[j].symbol == parsed[i].symbol;
      assert parsed[j].symbol == parsed[i].symbol;
    } else if parsed[n].symbol != parsed[i].symbol {
      CountedElsewhere(front, i);
      var j :| 0 <= j < |front| && j != i && front[j].symbol == front[i].symbol;
      assert parsed[j].symbol == parsed[i].symbol;
    }
  }

  /** A row is marked repeated exactly when it describes a holding and another row, sound or not, has its
      symbol; so the marks are what the review relies on. */
  lemma MarkedRowsAreWellMarked(parsed: seq<Parsed>, existing: set<string>)
    requires DistinctNumbers(parsed)
    ensures WellMarked(MarkedRows(parsed, existing))
    ensures forall i :: 0 <= i < |parsed| ==>
      (MarkedRows(parsed, existing)[i].repeated <==>
         parsed[i].problem.None? && exists j :: 0 <= j < |parsed| && j != i && parsed[j].symbol == parsed[i].symbol)
    ensures forall i :: 0 <= i < |parsed| ==>
      var row := MarkedRows(parsed, existing)[i];
      && row.number == parsed[i].number && row.error == parsed[i].problem
      && (row.holding.Some? <==> parsed[i].problem.None?)
      && (row.holding.Some? ==> row.holding.value == parsed[i].symbol)
      && (row.alreadyExists <==> parsed[i].problem.None? && parsed[i].symbol in existing)
  {
    var rows := MarkedRows(parsed, existing);
    forall i | 0 <= i < |parsed|
      ensures rows[i].repeated <==>
        parsed[i].problem.None? && exists j :: 0 <= j < |parsed| && j != i && parsed[j].symbol == parsed[i].symbol
    {
      if rows[i].repeated {
        CountedElsewhere(parsed, i);
      }
      if j :| 0 <= j < |parsed| && j != i && parsed[j].symbol == parsed[i].symbol {
        CountsTwice(parsed, if i < j then i else j, if i < j then j else i);
      }
    }
    forall i, j | 0 <= i < |rows| && 0 <= j < |rows| && i != j && rows[i].holding.Some?
                  && rows[i].holding == rows[j].holding
      ensures rows[i].repeated
    {
      if i < j {
        CountsTwice(parsed, i, j);
      } else {
        CountsTwice(parsed, j, i);
      }
    }
  }

  // ---- The ticks ----

  function InitialSelection(rows: seq<Row>): set<nat> {
    set r | r in rows && r.holding.Some? && r.error.None? && !r.repeated && !r.alreadyExists :: r.number
  }

  function ValidRows(rows: seq<Row>): set<Row> {
    set r | r in rows && r.holding.Some? && r.error.None? && !r.alreadyExists
  }

  function SelectAllNew(rows: seq<Row>): set<nat> {
    set r | r in ValidRows(rows) && !r.repeated :: r.number
  }

  /** Another ticked row describes a holding with the same symbol. */
  predicate Another(rows: seq<Row>, selected: set<nat>, row: Row) {
    row.holding.Some?
    && exists other ::
         other in rows && other.number in selected && other.number != row.number && other.holding == row.holding
  }

  predicate Disabled(busy: bool, rows: seq<Row>, selected: set<nat>, row: Row) {
    busy || row.error.Some? || row.alreadyExists || Another(rows, selected, row)
  }

  function Toggled(selected: set<nat>, number: nat): set<nat> {
    if number in selected then selected - {number} else selected + {number}
  }

  /** Every ticked row is importable, and no two of them share a symbol. */
  ghost predicate Good(rows: seq<Row>, selected: set<nat>) {
    && (forall n :: n in selected ==>
          exists r :: r in rows && r.number == n && r.holding.Some? && r.error.None? && !r.alreadyExists)
    && (forall a, b :: a in rows && b in rows && a.number in selected && b.number in selected && a.number != b.number
          ==> a.holding != b.holding)
  }

  lemma SameNumberSameRow(rows: seq<Row>, a: Row, b: Row)
    requires WellMarked(rows) && a in rows && b in rows && a.number == b.number
    ensures a == b
  {
    var i :| 0 <= i < |rows| && rows[i] == a;
    var j :| 0 <= j < |rows| && rows[j] == b;
  }

  lemma InitialIsGood(rows: seq<Row>)
    requires WellMarked(rows)
    ensures Good(rows, InitialSelection(rows))
    ensures SelectAllNew(rows) == InitialSelection(rows)
  {
    var selected := InitialSelection(rows);
    forall a, b | a in rows && b in rows && a.number in selected && b.number in selected && a.number != b.number
      ensures a.holding != b.holding
    {
      var i :| 0 <= i < |rows| && rows[i] == a;
      var j :| 0 <= j < |rows| && rows[j] == b;
      var r :| r in rows && r.holding.Some? && r.error.None? && !r.repeated && !r.alreadyExists && r.number == a.number;
      SameNumberSameRow(rows, a, r);
    }
    forall n | n in selected
      ensures exists r :: r in rows && r.number == n && r.holding.Some? && r.error.None? && !r.alreadyExists
    {
      var r :| r in rows && r.holding.Some? && r.error.None? && !r.repeated && !r.alreadyExists && r.number == n;
    }
  }

  /** A ticked row is never disabled by the others, so it can always be unticked. */
  lemma SelectedCanBeUnticked(rows: seq<Row>, selected: set<nat>, row: Row)
    requires WellMarked(rows) && Good(rows, selected) && row in rows && row.number in selected
    ensures !Disabled(false, rows, selected, row)
    ensures Good(rows, Toggled(selected, row.number))
  {
    var r :| r in rows && r.number == row.number && r.holding.Some? && r.error.None? && !r.alreadyExists;
    SameNumberSameRow(rows, row, r);
  }

  /** The box of an unticked row is enabled exactly when ticking it keeps the selection good. */
  lemma EnabledExactlyWhenGood(rows: seq<Row>, selected: set<nat>, row: Row)
    requires WellMarked(rows) && Good(rows, selected) && row in rows && row.number !in selected
    ensures !Disabled(false, rows, selected, row) <==> Good(rows, Toggled(selected, row.number))
  {
    var next := Toggled(selected, row.number);
    if !Disabled(false, rows, selected, row) {
      forall a, b | a in rows && b in rows && a.number in next && b.number in next && a.number != b.number
        ensures a.holding != b.holding
      {
        if a.number == row.number {
          SameNumberSameRow(rows, a, row);
        } else if b.number == row.number {
          SameNumberSameRow(rows, b, row);
        }
      }
      forall n | n in next
        ensures exists r :: r in rows && r.number == n && r.holding.Some? && r.error.None? && !r.alreadyExists
      {
        if n == row.number {
          assert row.holding.Some?;
        }
      }
    }
    if Good(rows, next) {
      var r :| r in rows && r.number == row.number && r.holding.Some? && r.error.None? && !r.alreadyExists;
      SameNumberSameRow(rows, row, r);
      assert !Another(rows, selected, row);
    }
  }

  // ---- What the backend accepts ----

  const MAX_ROWS := 5000

  /** The checks made before saving: a selection of distinct rows of this preview, each importable. */
  predicate Accepts(rows: seq<Row>, selected: set<nat>) {
    && selected != {} && |selected| <= MAX_ROWS
    && forall n :: n in selected ==>
         (exists r :: r in rows && r.number == n && r.holding.Some? && r.error.None? && !r.alreadyExists)
  }

  lemma {:induction false} NumbersFit(rows: seq<Row>, selected: set<nat>)
    requires forall n :: n in selected ==> exists r :: r in rows && r.number == n
    ensures |selected| <= |rows|
  {
    if rows == [] {
      assert selected == {} by {
        assert forall n :: n !in selected;
      }
    } else {
      var first := rows[0];
      var rest := selected - {first.number};
      forall n | n in rest
        ensures exists r :: r in rows[1..] && r.number == n
      {
        var r :| r in rows && r.number == n;
        assert r in rows[1..];
      }
      NumbersFit(rows[1..], rest);
      assert selected <= rest + {first.number};
      CardinalityAtMost(selected, rest, first.number);
    }
  }

  lemma CardinalityAtMost(a: set<nat>, b: set<nat>, x: nat)
    requires a <= b + {x}
    ensures |a| <= |b| + 1
  {
    if x in a {
      SubsetSize(a - {x}, b);
    } else {
      SubsetSize(a, b);
    }
  }

  lemma {:induction false} SubsetSize(a: set<nat>, b: set<nat>)
    requires a <= b
    ensures |a| <= |b|
    decreases a
  {
    if a == {} {
    } else {
      var x :| x in a;
      SubsetSize(a - {x}, b - {x});
    }
  }

  /** Any non-empty selection the review can produce passes the backend's checks. */
  lemma GoodIsAccepted(rows: seq<Row>, selected: set<nat>)
    requires Good(rows, selected) && selected != {} && |rows| <= MAX_ROWS
    ensures Accepts(rows, selected)
  {
    NumbersFit(rows, selected);
  }

  // ---- In terms of what was parsed and what the account holds ----

  /** The row describes a holding the account does not have yet. */
  predicate IsNew(existing: set<string>, p: Parsed) {
    p.problem.None? && p.symbol !in existing
  }

  predicate NewRow(parsed: seq<Parsed>, existing: set<string>, n: nat) {
    exists i :: 0 <= i < |parsed| && parsed[i].number == n && IsNew(existing, parsed[i])
  }

  predicate OnlyRow(parsed: seq<Parsed>, i: nat)
    requires i < |parsed|
  {
    forall j :: 0 <= j < |parsed| && j != i ==> parsed[j].symbol != parsed[i].symbol
  }

  lemma ImportableExactly(parsed: seq<Parsed>, existing: set<string>, n: nat)
    requires DistinctNumbers(parsed)
    ensures (exists r :: r in MarkedRows(parsed, existing) && r.number == n && r.holding.Some? && r.error.None?
                         && !r.alreadyExists) <==> NewRow(parsed, existing, n)
  {
    hide MarkedRow;
    MarkedRowsAreWellMarked(parsed, existing);
    var rows := MarkedRows(parsed, existing);
    if NewRow(parsed, existing, n) {
      var i :| 0 <= i < |parsed| && parsed[i].number == n && IsNew(existing, parsed[i]);
      assert rows[i] in rows;
    }
    if r :| r in rows && r.number == n && r.holding.Some? && r.error.None? && !r.alreadyExists {
      var i :| 0 <= i < |rows| && rows[i] == r;
      assert IsNew(existing, parsed[i]);
    }
  }

  /** Ticked at first is exactly every row that describes a holding the account does not have, whose
      symbol no other row has. */
  lemma TickedAtFirst(parsed: seq<Parsed>, existing: set<string>, n: nat)
    requires DistinctNumbers(parsed)
    ensures n in InitialSelection(MarkedRows(parsed, existing)) <==>
            exists i :: 0 <= i < |parsed| && parsed[i].number == n && IsNew(existing, parsed[i]) && OnlyRow(parsed, i)
  {
    hide MarkedRow;
    MarkedRowsAreWellMarked(parsed, existing);
    var rows := MarkedRows(parsed, existing);
    if i :| 0 <= i < |parsed| && parsed[i].number == n && IsNew(existing, parsed[i]) && OnlyRow(parsed, i) {
      assert rows[i] in rows && !rows[i].repeated;
    }
    if n in InitialSelection(rows) {
      var r :| r in rows && r.holding.Some? && r.error.None? && !r.repeated && !r.alreadyExists && r.number == n;
      var i :| 0 <= i < |rows| && rows[i] == r;
      assert IsNew(existing, parsed[i]) && OnlyRow(parsed, i);
    }
  }

  /** The ticks are good exactly when every ticked row is new to the account and no two have one symbol. */
  lemma GoodExactly(parsed: seq<Parsed>, existing: set<string>, selected: set<nat>)
    requires DistinctNumbers(parsed)
    ensures Good(MarkedRows(parsed, existing), selected) <==>
            && (forall n :: n in selected ==> NewRow(parsed, existing, n))
            && (forall i, j :: 0 <= i < j < |parsed| && parsed[i].number in selected && parsed[j].number in selected
                  ==> parsed[i].symbol != parsed[j].symbol)
  {
    GoodHalves(MarkedRows(parsed, existing), selected);
    hide MarkedRows, NewRow, Good, HoldingsApart;
    forall n | n in selected
      ensures (exists r :: r in MarkedRows(parsed, existing) && r.number == n && r.holding.Some? && r.error.None?
                           && !r.alreadyExists) <==> NewRow(parsed, existing, n)
    {
      ImportableExactly(parsed, existing, n);
    }
    if forall n :: n in selected ==> NewRow(parsed, existing, n) {
      ApartExactly(parsed, existing, selected);
    }
  }

  /** The second half of `Good`, row by row. */
  ghost predicate HoldingsApart(rows: seq<Row>, selected: set<nat>) {
    forall a, b | a in rows && b in rows && a.number in selected && b.number in selected && a.number != b.number ::
      a.holding != b.holding
  }

  lemma HoldingsApartByPlace(rows: seq<Row>, selected: set<nat>)
    requires forall i, j :: 0 <= i < j < |rows| ==> rows[i].number != rows[j].number
    ensures HoldingsApart(rows, selected) <==>
            forall i, j | 0 <= i < j < |rows| && rows[i].number in selected && rows[j].number in selected ::
              rows[i].holding != rows[j].holding
  {
    if HoldingsApart(rows, selected) {
      forall i, j | 0 <= i < j < |rows| && rows[i].number in selected && rows[j].number in selected
        ensures rows[i].holding != rows[j].holding
      {
        assert rows[i] in rows && rows[j] in rows;
      }
    } else {
      var a, b :| a in rows && b in rows && a.number in selected && b.number in selected && a.number != b.number
                  && a.holding == b.holding;
      var i :| 0 <= i < |rows| && rows[i] == a;
      var j :| 0 <= j < |rows| && rows[j] == b;
      var low, high := if i < j then i else j, if i < j then j else i;
      assert low < high && rows[low].holding == rows[high].holding;
    }
  }

  lemma ApartExactly(parsed: seq<Parsed>, existing: set<string>, selected: set<nat>)
    requires DistinctNumbers(parsed) && forall n :: n in selected ==> NewRow(parsed, existing, n)
    ensures HoldingsApart(MarkedRows(parsed, existing), selected) <==>
            forall i, j :: 0 <= i < j < |parsed| && parsed[i].number in selected && parsed[j].number in selected
              ==> parsed[i].symbol != parsed[j].symbol
  {
    hide NewRow, HoldingsApart, DistinctNumbers;
    var rows := MarkedRows(parsed, existing);
    forall i | 0 <= i < |parsed|
      ensures rows[i].number == parsed[i].number
      ensures parsed[i].number in selected ==> rows[i].holding == Some(parsed[i].symbol)
    {
      if parsed[i].number in selected {
        NewHolding(parsed, existing, i);
      }
    }
    MarkedRowsAreWellMarked(parsed, existing);
    assert forall i, j :: 0 <= i < j < |rows| ==> rows[i].number != rows[j].number;
    hide MarkedRows;
    HoldingsApartByPlace(rows, selected);
  }

  lemma GoodHalves(rows: seq<Row>, selected: set<nat>)
    ensures Good(rows, selected) <==>
            && (forall n :: n in selected ==>
                  exists r :: r in rows && r.number == n && r.holding.Some? && r.error.None? && !r.alreadyExists)
            && HoldingsApart(rows, selected)
  {
  }

  lemma NewHolding(parsed: seq<Parsed>, existing: set<string>, i: nat)
    requires DistinctNumbers(parsed) && i < |parsed| && NewRow(parsed, existing, parsed[i].number)
    ensures parsed[i].problem.None? && parsed[i].symbol !in existing
    ensures MarkedRows(parsed, existing)[i] in MarkedRows(parsed, existing)
    ensures MarkedRows(parsed, existing)[i].holding == Some(parsed[i].symbol)
  {
    MarkedRowsAreWellMarked(parsed, existing);
    var k :| 0 <= k < |parsed| && parsed[k].number == parsed[i].number && IsNew(existing, parsed[k]);
    assert k == i;
  }

  /** The backend accepts exactly the choices of one to 5000 rows that are all new to the account. */
  lemma AcceptsExactly(parsed: seq<Parsed>, existing: set<string>, selected: set<nat>)
    requires DistinctNumbers(parsed)
    ensures Accepts(MarkedRows(parsed, existing), selected) <==>
            1 <= |selected| <= 5000 && forall n :: n in selected ==> NewRow(parsed, existing, n)
  {
    hide MarkedRows, NewRow;
    forall n | n in selected
      ensures (exists r :: r in MarkedRows(parsed, existing) && r.number == n && r.holding.Some? && r.error.None?
                           && !r.alreadyExists) <==> NewRow(parsed, existing, n)
    {
      ImportableExactly(parsed, existing, n);
    }
  }

  /** A box is enabled exactly when the row is new to the account and no other ticked row has its symbol. */
  lemma DisabledExactly(parsed: seq<Parsed>, existing: set<string>, selected: set<nat>, i: nat)
    requires DistinctNumbers(parsed) && i < |parsed|
    ensures Disabled(false, MarkedRows(parsed, existing), selected, MarkedRows(parsed, existing)[i]) <==>
            || !IsNew(existing, parsed[i])
            || exists j :: 0 <= j < |parsed| && j != i && parsed[j].number in selected && parsed[j].problem.None?
                           && parsed[j].symbol == parsed[i].symbol
  {
    hide MarkedRow;
    MarkedRowsAreWellMarked(parsed, existing);
    var rows := MarkedRows(parsed, existing);
    if j :| 0 <= j < |parsed| && j != i && parsed[j].number in selected && parsed[j].problem.None?
            && parsed[j].symbol == parsed[i].symbol {
      assert rows[j] in rows && rows[j].number != rows[i].number;
    }
    if Another(rows, selected, rows[i]) {
      var other :| other in rows && other.number in selected && other.number != rows[i].number
                   && other.holding == rows[i].holding;
      var j :| 0 <= j < |rows| && rows[j] == other;
      assert parsed[j].number in selected;
    }
  }
}
