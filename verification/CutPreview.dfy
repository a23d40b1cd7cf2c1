/** The savings-target calculator. It trusts nothing it is given: every part of a confirmed preview is
    checked again, then each selected category's capacity is worked out exactly, the target is spread
    over the capacities in whole cents, and every figure is carried as an exact fraction. */
module CutPreview {
  import opened Options
  import opened Sequences
  import opened Sorting
  import opened CentsText
  import opened Ratios
  import opened Calendar
  import opened CutTerms
  import Spread

  datatype Chosen = Chosen(category: string, baseline: Baseline)

  datatype Confirmed = Confirmed(intent: Intent, baselines: seq<Chosen>, source: Source)

  function Categories(rows: seq<Chosen>): (r: seq<string>)
    ensures |r| == |rows| && forall i :: 0 <= i < |rows| ==> r[i] == rows[i].category
  {
    Mapped(rows, (row: Chosen) => row.category)
  }

  // ---- Checking the input ----

  predicate RowOk(row: Chosen, labels: seq<string>, source: Source) {
    row.category in labels && Trusted(row.baseline, true) && row.baseline.source == source
  }

  ghost predicate Accepts(c: Confirmed) {
    var labels := Labels(c.intent.categories);
    && ValidSource(c.source) && ValidIntent(c.intent, c.source.asOf, labels)
    && |c.baselines| == |labels| && NoDup(Categories(c.baselines))
    && forall i :: 0 <= i < |c.baselines| ==> RowOk(c.baselines[i], labels, c.source)
  }

  /** `checkedCopy`: one baseline per selected category, each seen once, each from the same source. */
  method CheckedCopy(c: Confirmed) returns (ok: bool)
    ensures ok <==> Accepts(c)
  {
    hide ValidIntent, Trusted, ValidSource;
    if !ValidSource(c.source) {
      return false;
    }
    var labels, names := Labels(c.intent.categories), Categories(c.baselines);
    var valid := ValidateIntent(c.intent, c.source.asOf, labels);
    if !valid || |c.baselines| != |labels| {
      return false;
    }
    var seen: set<string>, i := {}, 0;
    while i < |c.baselines|
      invariant 0 <= i <= |c.baselines|
      invariant forall x :: x in seen <==> exists k :: 0 <= k < i && names[k] == x
      invariant NoDup(names[..i])
      invariant forall k :: 0 <= k < i ==> RowOk(c.baselines[k], labels, c.source)
    {
      var row := c.baselines[i];
      if row.category !in labels || row.category in seen {
        if row.category in seen { Repeated(names, i); }
        return false;
      }
      seen := seen + {row.category};
      if !Trusted(row.baseline, true) || row.baseline.source != c.source {
        return false;
      }
      assert names[..i + 1] == names[..i] + [names[i]];
      i := i + 1;
    }
    assert names[..i] == names;
    return true;
  }

  // ---- One category ----

  datatype Line = Line(category: string, base: Rational, floor: Rational, cap: Rational)

  /** The usual month recorded for a category; a later row for the same category wins. */
  function FigureOf(rows: seq<Chosen>, category: string): Option<Rational> {
    if rows == [] then None
    else
      var last := rows[|rows| - 1];
      if last.category == category then (if Trusted(last.baseline, false) then MonthlyBaseline(last.baseline) else None)
      else FigureOf(rows[..|rows| - 1], category)
  }

  lemma TermReadable(term: Term)
    requires TermOk(term)
    ensures Readable(term.monthlyFloor) && Readable(term.maximum.amount)
    ensures |Part(term.monthlyFloor)| <= 2 && |Part(term.maximum.amount)| <= 2
  {
    ShapeReadable(term.monthlyFloor);
    ShapeReadable(term.maximum.amount);
  }

  function LineOf(term: Term, base: Rational): Line
    requires TermOk(term)
  {
    TermReadable(term);
    var amount := FromDecimal(term.maximum.amount);
    Line(term.category, base, FromDecimal(term.monthlyFloor),
         if term.maximum.Money? then amount else Multiply(base, Divide(amount, Ratio(100, 1))))
  }

  /** The term is sound and its category has a usual month. */
  predicate Known(term: Term, rows: seq<Chosen>) {
    TermOk(term) && FigureOf(rows, term.category).Some?
  }

  function LineFor(term: Term, rows: seq<Chosen>): (line: Line)
    requires Known(term, rows)
    ensures line.category == term.category
  {
    LineOf(term, FigureOf(rows, term.category).value)
  }

  function LinesOf(terms: seq<Term>, rows: seq<Chosen>): (r: seq<Line>)
    requires forall i :: 0 <= i < |terms| ==> Known(terms[i], rows)
    ensures |r| == |terms|
  {
    if terms == [] then []
    else LinesOf(terms[..|terms| - 1], rows) + [LineFor(terms[|terms| - 1], rows)]
  }

  lemma {:induction false} LineAt(terms: seq<Term>, rows: seq<Chosen>, k: nat)
    requires forall i :: 0 <= i < |terms| ==> Known(terms[i], rows)
    requires k < |terms|
    ensures LinesOf(terms, rows)[k] == LineFor(terms[k], rows)
  {
    hide Known, LineFor;
    if k == |terms| - 1 {
    } else {
      LineAt(terms[..|terms| - 1], rows, k);
    }
  }

  predicate FloorOk(line: Line) {
    !Less(line.base, line.floor)
  }

  /** The most a category may be cut in a full month: down to its floor, but never beyond its limit. */
  function Capacity(line: Line): Rational
    requires FloorOk(line)
  {
    var headroom := Subtract(line.base, line.floor);
    if Less(headroom, line.cap) then headroom else line.cap
  }

  /** How many full months one unit of the target covers. */
  function Unit(kind: TargetKind, q: Rational): Rational {
    if kind == Monthly then Ratio(1, 1) else q
  }

  function CapacityCents(line: Line, kind: TargetKind, q: Rational): nat
    requires FloorOk(line)
  {
    FloorCents(Multiply(Capacity(line), Unit(kind, q)))
  }

  /** The exact monthly cut that cents in the target's unit stand for. */
  function Cut(cents: nat, kind: TargetKind, q: Rational): Rational
    requires q.n > 0
  {
    if kind == Monthly then Fraction(cents, 100) else Divide(Fraction(cents, 100), q)
  }

  // ---- Month factors ----

  predicate FactorOk(s: Segment) {
    1 <= s.from.m <= 12 && 1 <= DayCount(s) <= DaysInMonth(s.from.y, s.from.m)
  }

  function FactorOf(s: Segment): Rational
    requires FactorOk(s)
  {
    Fraction(DayCount(s), DaysInMonth(s.from.y, s.from.m))
  }

  predicate RangeOk(horizon: Horizon) {
    IsDate(horizon.from) && IsDate(horizon.to) && !Before(horizon.to, horizon.from)
  }

  lemma AllFactorsOk(horizon: Horizon)
    requires RangeOk(horizon)
    ensures forall k :: 0 <= k < |Segments(horizon.from, horizon.to)| ==>
              FactorOk(Segments(horizon.from, horizon.to)[k])
    ensures |Segments(horizon.from, horizon.to)| == MonthNumber(horizon.to) - MonthNumber(horizon.from) + 1 > 0
  {
    SameMonth(horizon.from, horizon.to);
    SegmentCount(horizon.from, horizon.to);
    forall k | 0 <= k < |Segments(horizon.from, horizon.to)|
      ensures FactorOk(Segments(horizon.from, horizon.to)[k])
    {
      SegmentPart(horizon.from, horizon.to, k);
    }
    hide Segments, FactorOk, IsDate;
  }

  lemma SegmentPart(from: Date, to: Date, k: nat)
    requires IsDate(from) && IsDate(to) && !Before(to, from) && k < |Segments(from, to)|
    ensures FactorOk(Segments(from, to)[k])
  {
    SegmentShape(from, to, k);
    SegmentDaysCounted(from, to, k);
    WithinMonth(Segments(from, to)[k]);
  }

  lemma WithinMonth(s: Segment)
    requires s.from.y == s.to.y && s.from.m == s.to.m && 1 <= s.from.m <= 12
    requires 1 <= s.from.d <= s.to.d <= DaysInMonth(s.from.y, s.from.m)
    ensures FactorOk(s)
  {
    SameMonthDays(s.from, s.to);
  }

  function FactorsOf(segments: seq<Segment>): (r: seq<Rational>)
    requires forall k :: 0 <= k < |segments| ==> FactorOk(segments[k])
    ensures |r| == |segments| && forall k :: 0 <= k < |segments| ==> r[k] == FactorOf(segments[k])
  {
    if segments == [] then []
    else FactorsOf(segments[..|segments| - 1]) + [FactorOf(segments[|segments| - 1])]
  }

  function Factors(horizon: Horizon): seq<Rational>
    requires RangeOk(horizon)
  {
    AllFactorsOk(horizon);
    FactorsOf(Segments(horizon.from, horizon.to))
  }

  /** A left-to-right sum of exact amounts. */
  function SumOf(s: seq<Rational>): Rational {
    if s == [] then Ratio(0, 1) else Add(SumOf(s[..|s| - 1]), s[|s| - 1])
  }

  function ValueSum(s: seq<Rational>): real {
    if s == [] then 0.0 else ValueSum(s[..|s| - 1]) + Value(s[|s| - 1])
  }

  lemma {:induction false} SumValue(s: seq<Rational>)
    ensures Value(SumOf(s)) == ValueSum(s)
  {
    hide Value, Add;
    if s == [] {
      ValueIs(Ratio(0, 1), 0.0);
    } else {
      SumValue(s[..|s| - 1]);
      AddValue(SumOf(s[..|s| - 1]), s[|s| - 1]);
    }
  }

  lemma FactorValue(s: Segment)
    requires FactorOk(s)
    ensures 0.0 < Value(FactorOf(s)) <= 1.0
    ensures DayCount(s) == DaysInMonth(s.from.y, s.from.m) ==> Value(FactorOf(s)) == 1.0
  {
    hide Value, Fraction;
    ReducedValue(DayCount(s), DaysInMonth(s.from.y, s.from.m));
    ProperFraction(DayCount(s), DaysInMonth(s.from.y, s.from.m));
  }

  /** Each month's factor is the part of it that is covered, date by date: times the number of its dates
      it is the number of those the range covers. */
  lemma FactorIsPartCovered(horizon: Horizon, k: nat)
    requires RangeOk(horizon) && k < |Factors(horizon)|
    ensures |Factors(horizon)| == MonthNumber(horizon.to) - MonthNumber(horizon.from) + 1
    ensures var n := MonthNumber(horizon.from) + k;
            && Value(Factors(horizon)[k]) * |MonthDates(n)| as real == |Covered(horizon.from, horizon.to, n)| as real
            && |MonthDates(n)| >= 28
  {
    hide *;
    FactorAt(horizon, k);
    SegmentDaysCounted(horizon.from, horizon.to, k);
    FactorCounts(Segments(horizon.from, horizon.to)[k]);
  }

  lemma FactorAt(horizon: Horizon, k: nat)
    requires RangeOk(horizon) && k < |Factors(horizon)|
    ensures IsDate(horizon.from) && IsDate(horizon.to) && !Before(horizon.to, horizon.from)
    ensures |Factors(horizon)| == |Segments(horizon.from, horizon.to)|
         == MonthNumber(horizon.to) - MonthNumber(horizon.from) + 1
    ensures FactorOk(Segments(horizon.from, horizon.to)[k])
    ensures Factors(horizon)[k] == FactorOf(Segments(horizon.from, horizon.to)[k])
    ensures |MonthDates(MonthNumber(horizon.from) + k)| >= 28
  {
    AllFactorsOk(horizon);
    FactorsAre(horizon);
    hide Segments, DayCount, MonthDates, Covered, DaysInMonth, FactorOf, Before, IsDate;
    SegmentDaysCounted(horizon.from, horizon.to, k);
  }

  lemma FactorsAre(horizon: Horizon)
    requires RangeOk(horizon)
    ensures |Factors(horizon)| == |Segments(horizon.from, horizon.to)|
    ensures forall k :: 0 <= k < |Factors(horizon)| ==>
              FactorOk(Segments(horizon.from, horizon.to)[k])
              && Factors(horizon)[k] == FactorOf(Segments(horizon.from, horizon.to)[k])
  {
    AllFactorsOk(horizon);
    hide Segments, FactorOf, FactorOk, Before, IsDate;
  }

  lemma FactorCounts(s: Segment)
    requires FactorOk(s)
    ensures Value(FactorOf(s)) * DaysInMonth(s.from.y, s.from.m) as real == DayCount(s) as real
  {
    hide Value, Fraction, DayCount, DaysInMonth;
    ReducedValue(DayCount(s), DaysInMonth(s.from.y, s.from.m));
  }

  lemma ProperFraction(n: nat, d: nat)
    requires 1 <= n <= d
    ensures 0.0 < n as real / d as real <= 1.0
    ensures n == d ==> n as real / d as real == 1.0
  {
  }

  lemma {:induction false} FactorsAddUp(segments: seq<Segment>)
    requires forall k :: 0 <= k < |segments| ==> FactorOk(segments[k])
    ensures 0.0 <= ValueSum(FactorsOf(segments)) <= |segments| as real
    ensures segments != [] ==> ValueSum(FactorsOf(segments)) > 0.0
    ensures (forall k :: 0 <= k < |segments| ==>
              DayCount(segments[k]) == DaysInMonth(segments[k].from.y, segments[k].from.m))
            ==> ValueSum(FactorsOf(segments)) == |segments| as real
  {
    if segments == [] {
    } else {
      hide Value, FactorOf, DaysInMonth;
      var front := segments[..|segments| - 1];
      FactorsAddUp(front);
      FactorValue(segments[|segments| - 1]);
      assert FactorsOf(segments)[..|segments| - 1] == FactorsOf(front);
    }
  }

  /** The month factor is positive, at most the number of months touched, and exactly that number when
      only whole months are counted. */
  lemma MonthFactor(horizon: Horizon, part: PartialMonth, asOf: Date)
    requires DatesOk(horizon, part, asOf)
    ensures RangeOk(horizon)
    ensures var q, months := Value(SumOf(Factors(horizon))), MonthNumber(horizon.to) - MonthNumber(horizon.from) + 1;
            0.0 < q <= months as real && months <= 12 && (part == Exclude ==> q == months as real)
  {
    AllFactorsOk(horizon);
    SumValue(Factors(horizon));
    var segments := Segments(horizon.from, horizon.to);
    FactorsAddUp(segments);
    hide Value, FactorOf, SumOf, ValueSum;
    if part == Exclude {
      forall k | 0 <= k < |segments|
        ensures DayCount(segments[k]) == DaysInMonth(segments[k].from.y, segments[k].from.m)
      {
        WholeRange(horizon.from, horizon.to, k);
      }
    }
  }

  lemma PositiveValue(r: Rational)
    ensures r.n > 0 <==> Value(r) > 0.0
  {
    var n, d := r.n as real, r.d as real;
    if r.n == 0 {
      assert n / d == 0.0;
    } else {
      assert n / d > 0.0;
    }
  }

  // ---- One category's cut ----

  lemma UnitPositive(kind: TargetKind, q: Rational)
    requires q.n > 0
    ensures Value(Unit(kind, q)) > 0.0
  {
    PositiveValue(Unit(kind, q));
  }

  /** The cut, taken over the unit of the target, is exactly the allocated cents. */
  lemma CutValue(cents: nat, kind: TargetKind, q: Rational)
    requires q.n > 0
    ensures 100.0 * (Value(Cut(cents, kind, q)) * Value(Unit(kind, q))) == cents as real
  {
    hide Value, Fraction, Divide;
    ReducedValue(cents, 100);
    if kind == Monthly {
      ValueIs(Ratio(1, 1), 1.0);
    } else {
      DivideValue(Fraction(cents, 100), q);
      Undo(cents as real / 100.0, Value(q));
    }
  }

  lemma Undo(x: real, q: real)
    requires q > 0.0
    ensures x / q * q == x
  {
  }

  lemma CapacityValue(line: Line)
    requires FloorOk(line)
    ensures Value(Capacity(line)) <= Value(line.base) - Value(line.floor)
    ensures Value(Capacity(line)) <= Value(line.cap)
    ensures Value(Capacity(line)) == Value(line.base) - Value(line.floor) || Value(Capacity(line)) == Value(line.cap)
  {
    hide Value, Subtract, Less;
    SubtractValue(line.base, line.floor);
    LessValue(Subtract(line.base, line.floor), line.cap);
  }

  lemma CutWithinCapacity(line: Line, cents: nat, kind: TargetKind, q: Rational)
    requires FloorOk(line) && q.n > 0 && cents <= CapacityCents(line, kind, q)
    ensures Value(Cut(cents, kind, q)) <= Value(Capacity(line))
    ensures !Less(line.base, Cut(cents, kind, q))
  {
    hide Value, Cut, Capacity, Unit, Less, Multiply, FloorCents;
    UnitPositive(kind, q);
    CutValue(cents, kind, q);
    MultiplyValue(Capacity(line), Unit(kind, q));
    FloorCentsValue(Multiply(Capacity(line), Unit(kind, q)));
    NotMore(Value(Cut(cents, kind, q)), Value(Capacity(line)), Value(Unit(kind, q)));
    CapacityValue(line);
    LessValue(line.base, Cut(cents, kind, q));
    NotNegative(line.floor);
  }

  lemma NotNegative(r: Rational)
    ensures Value(r) >= 0.0
  {
    PositiveValue(r);
    if r.n == 0 {
      ValueIs(r, 0.0);
    }
  }

  lemma NotMore(x: real, y: real, u: real)
    requires u > 0.0 && x * u <= y * u
    ensures x <= y
  {
    SignOf(x - y, u);
    assert (x - y) * u == x * u - y * u;
  }

  // ---- The preview ----

  datatype Allocation = Allocation(
    category: string, monthlyBaseline: Rational, monthlyCapacity: Rational, capacityCents: nat, allocatedCents: nat,
    monthlyReduction: Rational, monthlyLimit: Rational, savings: seq<Rational>, totalSaving: Rational)

  datatype Calculation =
    | Refused
    | NeedsBaseline(missing: seq<string>)
    | ConstraintsInvalid(violations: seq<string>)
    | Preview(monthFactor: Rational, targetMet: bool, targetCents: nat, maximumCents: nat, allocatedCents: nat,
              shortfallCents: nat, totalSaving: Rational, allocations: seq<Allocation>)

  function Savings(cut: Rational, factors: seq<Rational>): (r: seq<Rational>)
    ensures |r| == |factors| && forall k :: 0 <= k < |factors| ==> r[k] == Multiply(cut, factors[k])
  {
    if factors == [] then []
    else Savings(cut, factors[..|factors| - 1]) + [Multiply(cut, factors[|factors| - 1])]
  }

  function AllocationOf(line: Line, cents: nat, kind: TargetKind, factors: seq<Rational>): Allocation
    requires FloorOk(line) && SumOf(factors).n > 0 && cents <= CapacityCents(line, kind, SumOf(factors))
  {
    var q := SumOf(factors);
    var cut := Cut(cents, kind, q);
    CutWithinCapacity(line, cents, kind, q);
    Allocation(line.category, line.base, Capacity(line), CapacityCents(line, kind, q), cents, cut,
               Subtract(line.base, cut), Savings(cut, factors), Multiply(cut, q))
  }

  function Caps(lines: seq<Line>, kind: TargetKind, q: Rational): (r: seq<nat>)
    requires forall i :: 0 <= i < |lines| ==> FloorOk(lines[i])
    ensures |r| == |lines| && forall i :: 0 <= i < |lines| ==> r[i] == CapacityCents(lines[i], kind, q)
  {
    if lines == [] then []
    else Caps(lines[..|lines| - 1], kind, q) + [CapacityCents(lines[|lines| - 1], kind, q)]
  }

  function Names(lines: seq<Line>): (r: seq<string>)
    ensures |r| == |lines| && forall i :: 0 <= i < |lines| ==> r[i] == lines[i].category
  {
    Mapped(lines, (line: Line) => line.category)
  }

  /** Each category is asked for no more than it can give. */
  predicate Payable(lines: seq<Line>, cents: seq<nat>, kind: TargetKind, q: Rational) {
    |cents| == |lines|
    && forall i :: 0 <= i < |lines| ==> FloorOk(lines[i]) && cents[i] <= CapacityCents(lines[i], kind, q)
  }

  function Allocations(lines: seq<Line>, cents: seq<nat>, kind: TargetKind, factors: seq<Rational>)
      : (r: seq<Allocation>)
    requires SumOf(factors).n > 0 && Payable(lines, cents, kind, SumOf(factors))
    ensures |r| == |lines| && forall i :: 0 <= i < |lines| ==> r[i] == AllocationOf(lines[i], cents[i], kind, factors)
  {
    if lines == [] then []
    else
      var k := |lines| - 1;
      Allocations(lines[..k], cents[..k], kind, factors) + [AllocationOf(lines[k], cents[k], kind, factors)]
  }

  function TotalSavings(allocations: seq<Allocation>): (r: seq<Rational>)
    ensures |r| == |allocations| && forall i :: 0 <= i < |allocations| ==> r[i] == allocations[i].totalSaving
  {
    Mapped(allocations, (a: Allocation) => a.totalSaving)
  }

  ghost predicate Ready(lines: seq<Line>, factors: seq<Rational>) {
    && NoDup(Names(lines)) && SumOf(factors).n > 0
    && forall i :: 0 <= i < |lines| ==> FloorOk(lines[i])
  }

  lemma SpreadWithinCaps(lines: seq<Line>, kind: TargetKind, q: Rational, target: nat)
    requires NoDup(Names(lines)) && forall i :: 0 <= i < |lines| ==> FloorOk(lines[i])
    ensures Payable(lines, Spread.Allocate(Caps(lines, kind, q), Names(lines), target), kind, q)
  {
    hide Spread.Allocate, NoDup, CapacityCents;
    var caps := Caps(lines, kind, q);
    forall i | 0 <= i < |lines|
      ensures Spread.Allocate(caps, Names(lines), target)[i] <= CapacityCents(lines[i], kind, q)
    {
      Spread.SpreadIsFair(caps, Names(lines), target, i);
    }
  }

  ghost function PreviewOf(lines: seq<Line>, kind: TargetKind, goal: Rational, factors: seq<Rational>): (r: Calculation)
    requires Ready(lines, factors)
    ensures r.Preview?
  {
    var q, target := SumOf(factors), FloorCents(goal);
    var caps := Caps(lines, kind, q);
    var maximum := Spread.Sum(caps);
    SpreadWithinCaps(lines, kind, q, target);
    var cents := Spread.Allocate(caps, Names(lines), target);
    var allocations := Allocations(lines, cents, kind, factors);
    Preview(q, target <= maximum, target, maximum, Spread.Allocated(caps, target),
            target - Spread.Allocated(caps, target), SumOf(TotalSavings(allocations)), allocations)
  }

  predicate ByLabel(a: Term, b: Term) {
    LabelLess(a.category, b.category)
  }

  function Selected(intent: Intent): seq<Term> {
    SortBy(intent.categories, ByLabel)
  }

  function Missing(terms: seq<Term>, rows: seq<Chosen>): (r: seq<string>)
    ensures r == [] <==> forall i :: 0 <= i < |terms| ==> FigureOf(rows, terms[i].category).Some?
  {
    if terms == [] then []
    else
      var last := terms[|terms| - 1];
      Missing(terms[..|terms| - 1], rows) + if FigureOf(rows, last.category).None? then [last.category] else []
  }

  function Violations(lines: seq<Line>): (r: seq<string>)
    ensures r == [] <==> forall i :: 0 <= i < |lines| ==> FloorOk(lines[i])
  {
    if lines == [] then []
    else
      var last := lines[|lines| - 1];
      Violations(lines[..|lines| - 1]) + if FloorOk(last) then [] else [last.category]
  }

  lemma SelectedTerms(intent: Intent, asOf: Date, known: seq<string>)
    requires ValidIntent(intent, asOf, known)
    ensures Elems(Selected(intent)) == Elems(intent.categories) && |Selected(intent)| == |intent.categories|
    ensures forall i :: 0 <= i < |Selected(intent)| ==> TermOk(Selected(intent)[i])
    ensures NoDup(Labels(Selected(intent)))
  {
    hide TermOk, DatesOk, TypedAmount;
    SortKeeps(intent.categories, ByLabel);
    forall i | 0 <= i < |Selected(intent)|
      ensures TermOk(Selected(intent)[i])
    {
      assert Selected(intent)[i] in Elems(intent.categories);
    }
    DistinctKeys(intent.categories, Selected(intent), Labels(intent.categories), Labels(Selected(intent)),
                 (t: Term) => t.category);
  }

  lemma TargetReadable(intent: Intent, asOf: Date, known: seq<string>)
    requires ValidIntent(intent, asOf, known)
    ensures Readable(intent.target) && |Part(intent.target)| <= 2
  {
    ShapeReadable(intent.target);
  }

  lemma LinesReady(c: Confirmed)
    requires Accepts(c)
    requires forall i :: 0 <= i < |Selected(c.intent)| ==> FigureOf(c.baselines, Selected(c.intent)[i].category).Some?
    ensures forall i :: 0 <= i < |Selected(c.intent)| ==> Known(Selected(c.intent)[i], c.baselines)
    ensures RangeOk(c.intent.horizon) && SumOf(Factors(c.intent.horizon)).n > 0
    ensures NoDup(Names(LinesOf(Selected(c.intent), c.baselines)))
  {
    hide Value, SortBy, LineOf, SumOf, Factors, TypedAmount, Trusted;
    SelectedTerms(c.intent, c.source.asOf, Labels(c.intent.categories));
    MonthFactor(c.intent.horizon, c.intent.part, c.source.asOf);
    PositiveValue(SumOf(Factors(c.intent.horizon)));
    SameNames(Selected(c.intent), c.baselines);
  }

  lemma SameNames(terms: seq<Term>, rows: seq<Chosen>)
    requires forall i :: 0 <= i < |terms| ==> Known(terms[i], rows)
    ensures Names(LinesOf(terms, rows)) == Labels(terms)
  {
    hide Known, LinesOf;
    forall i | 0 <= i < |terms|
      ensures Names(LinesOf(terms, rows))[i] == Labels(terms)[i]
    {
      LineAt(terms, rows, i);
    }
  }

  /** The whole calculation. */
  ghost function Calculate(c: Confirmed): Calculation {
    if !Accepts(c) then Refused
    else
      var selected := Selected(c.intent);
      var missing := Missing(selected, c.baselines);
      if missing != [] then NeedsBaseline(missing)
      else
        LinesReady(c);
        var lines := LinesOf(selected, c.baselines);
        var violations := Violations(lines);
        if violations != [] then ConstraintsInvalid(violations)
        else
          TargetReadable(c.intent, c.source.asOf, Labels(c.intent.categories));
          PreviewOf(lines, c.intent.kind, FromDecimal(c.intent.target), Factors(c.intent.horizon))
  }

  // ---- What a calculation that shows no figures says ----

  lemma {:induction false} MissingHolds(terms: seq<Term>, rows: seq<Chosen>, x: string)
    ensures x in Missing(terms, rows) <==>
            exists i :: 0 <= i < |terms| && terms[i].category == x && FigureOf(rows, x).None?
  {
    hide FigureOf;
    if terms == [] {
    } else {
      var n := |terms| - 1;
      MissingHolds(terms[..n], rows, x);
      assert terms == terms[..n] + [terms[n]];
      if i :| 0 <= i < n && terms[..n][i].category == x && FigureOf(rows, x).None? {
        assert terms[i] == terms[..n][i];
      }
    }
  }

  lemma {:induction false} ViolationsHold(lines: seq<Line>, x: string)
    ensures x in Violations(lines) <==> exists i :: 0 <= i < |lines| && lines[i].category == x && !FloorOk(lines[i])
  {
    hide FloorOk;
    if lines == [] {
    } else {
      var n := |lines| - 1;
      ViolationsHold(lines[..n], x);
      assert lines == lines[..n] + [lines[n]];
      if i :| 0 <= i < n && lines[..n][i].category == x && !FloorOk(lines[..n][i]) {
        assert lines[i] == lines[..n][i];
      }
    }
  }

  lemma AscendingPush(s: seq<string>, x: string)
    requires Ascending(s, LabelLess) && forall y :: y in s ==> LabelLess(y, x)
    ensures Ascending(s + [x], LabelLess)
  {
    hide LabelLess;
  }

  lemma AscendingFront(s: seq<string>)
    requires s != [] && Ascending(s, LabelLess)
    ensures var n := |s| - 1; Ascending(s[..n], LabelLess) && forall y :: y in s[..n] ==> LabelLess(y, s[n])
  {
    hide LabelLess;
  }

  lemma {:induction false} MissingAreLabels(terms: seq<Term>, rows: seq<Chosen>)
    ensures Elems(Missing(terms, rows)) <= Elems(Labels(terms))
  {
    hide FigureOf;
    if terms == [] {
    } else {
      var n := |terms| - 1;
      MissingAreLabels(terms[..n], rows);
      assert Labels(terms) == Labels(terms[..n]) + [terms[n].category];
    }
  }

  lemma {:induction false} ViolationsAreNames(lines: seq<Line>)
    ensures Elems(Violations(lines)) <= Elems(Names(lines))
  {
    hide FloorOk;
    if lines == [] {
    } else {
      var n := |lines| - 1;
      ViolationsAreNames(lines[..n]);
      assert Names(lines) == Names(lines[..n]) + [lines[n].category];
    }
  }

  /** A part of the front of an ascending list, with or without its last item, ascends. */
  lemma PartAscends(s: seq<string>, part: seq<string>)
    requires s != [] && Ascending(s, LabelLess) && Ascending(part, LabelLess) && Elems(part) <= Elems(s[..|s| - 1])
    ensures Ascending(part + [s[|s| - 1]], LabelLess) && part + [] == part
  {
    AscendingFront(s);
    hide LabelLess, Ascending;
    forall y | y in part
      ensures LabelLess(y, s[|s| - 1])
    {
      assert y in Elems(part) && y in Elems(s[..|s| - 1]);
    }
    AscendingPush(part, s[|s| - 1]);
  }

  /** Both lists name categories in the order they were gone through. */
  lemma {:induction false} MissingInOrder(terms: seq<Term>, rows: seq<Chosen>)
    requires Ascending(Labels(terms), LabelLess)
    ensures Ascending(Missing(terms, rows), LabelLess)
  {
    if terms == [] {
    } else {
      hide FigureOf, LabelLess, Ascending, Elems;
      var n := |terms| - 1;
      assert Labels(terms[..n]) == Labels(terms)[..n];
      AscendingFront(Labels(terms));
      MissingInOrder(terms[..n], rows);
      MissingAreLabels(terms[..n], rows);
      PartAscends(Labels(terms), Missing(terms[..n], rows));
    }
  }

  lemma {:induction false} ViolationsInOrder(lines: seq<Line>)
    requires Ascending(Names(lines), LabelLess)
    ensures Ascending(Violations(lines), LabelLess)
  {
    if lines == [] {
    } else {
      hide FloorOk, LabelLess, Ascending, Elems;
      var n := |lines| - 1;
      assert Names(lines[..n]) == Names(lines)[..n];
      AscendingFront(Names(lines));
      ViolationsInOrder(lines[..n]);
      ViolationsAreNames(lines[..n]);
      PartAscends(Names(lines), Violations(lines[..n]));
    }
  }
}
