/** What a savings-target preview promises, whatever was chosen, and the calculator as the program runs
    it. */
module CutPreviewLaws {
  import opened Options
  import opened Sequences
  import opened Sorting
  import opened CentsText
  import opened Ratios
  import opened Calendar
  import opened CutTerms
  import opened CutPreview
  import Spread

  // ---- One category ----

  function Product(a: real, b: real): real {
    a * b
  }

  lemma ProductSum(c: real, a: real, b: real)
    ensures Product(c, a + b) == Product(c, a) + Product(c, b)
    ensures Product(c, 0.0) == 0.0
  {
  }

  lemma ProductValue(a: Rational, b: Rational)
    ensures Value(Multiply(a, b)) == Product(Value(a), Value(b))
  {
    hide Value, Multiply;
    MultiplyValue(a, b);
  }

  lemma {:induction false} SavingsSum(cut: Rational, factors: seq<Rational>)
    ensures ValueSum(Savings(cut, factors)) == Product(Value(cut), ValueSum(factors))
  {
    hide Value, Multiply, Product;
    if factors == [] {
      ProductSum(Value(cut), 0.0, 0.0);
    } else {
      var front, last := factors[..|factors| - 1], factors[|factors| - 1];
      SavingsSum(cut, front);
      ProductValue(cut, last);
      assert Savings(cut, factors)[..|factors| - 1] == Savings(cut, front);
      ProductSum(Value(cut), ValueSum(front), Value(last));
    }
  }

  /** The limit left for a category is its usual month less the cut, never below its floor; the cut is
      never above its own limit; and the savings of the months add up to the category's total. */
  lemma AllocationKeepsTerms(line: Line, cents: nat, kind: TargetKind, factors: seq<Rational>)
    requires FloorOk(line) && SumOf(factors).n > 0 && cents <= CapacityCents(line, kind, SumOf(factors))
    ensures var a := AllocationOf(line, cents, kind, factors);
            && Value(a.monthlyLimit) + Value(a.monthlyReduction) == Value(line.base)
            && Value(line.floor) <= Value(a.monthlyLimit)
            && Value(a.monthlyReduction) <= Value(line.cap)
            && ValueSum(a.savings) == Value(a.totalSaving)
  {
    hide Value, Cut, Capacity, CapacityCents, Less, SumOf, ValueSum, Multiply, Subtract, Product;
    var q := SumOf(factors);
    var cut := Cut(cents, kind, q);
    CutWithinCapacity(line, cents, kind, q);
    CapacityValue(line);
    SubtractValue(line.base, cut);
    SavingsSum(cut, factors);
    SumValue(factors);
    ProductValue(cut, q);
  }

  function Smaller(a: real, b: real): real {
    if a < b then a else b
  }

  /** What is shown for one category: the most it can be cut is the smaller of its limit and what its
      floor leaves, its capacity is that in whole cents of the target's unit, the allocated cents are
      exactly the cut over that unit, and each month saves the cut times the part of it covered. */
  lemma AllocationFigures(line: Line, cents: nat, kind: TargetKind, factors: seq<Rational>)
    requires FloorOk(line) && SumOf(factors).n > 0 && cents <= CapacityCents(line, kind, SumOf(factors))
    ensures var a := AllocationOf(line, cents, kind, factors);
            var u := if kind == Monthly then 1.0 else Value(SumOf(factors));
            && Value(a.monthlyCapacity) == Smaller(Value(line.base) - Value(line.floor), Value(line.cap))
            && a.capacityCents as real <= 100.0 * Product(Value(a.monthlyCapacity), u) < a.capacityCents as real + 1.0
            && 100.0 * (Value(a.monthlyReduction) * u) == a.allocatedCents as real
            && |a.savings| == |factors|
    ensures var a := AllocationOf(line, cents, kind, factors);
            forall k :: 0 <= k < |factors| ==>
              Value(a.savings[k]) == Product(Value(a.monthlyReduction), Value(factors[k]))
  {
    hide Value, Cut, Capacity, Less, SumOf, ValueSum, Multiply, Subtract, Product, FloorCents, Unit;
    var q := SumOf(factors);
    var cut := Cut(cents, kind, q);
    CutWithinCapacity(line, cents, kind, q);
    CapacityValue(line);
    CutValue(cents, kind, q);
    UnitIs(kind, q);
    ProductValue(Capacity(line), Unit(kind, q));
    FloorCentsValue(Multiply(Capacity(line), Unit(kind, q)));
    forall k | 0 <= k < |factors|
      ensures Value(Multiply(cut, factors[k])) == Product(Value(cut), Value(factors[k]))
    {
      ProductValue(cut, factors[k]);
    }
  }

  lemma UnitIs(kind: TargetKind, q: Rational)
    ensures Value(Unit(kind, q)) == if kind == Monthly then 1.0 else Value(q)
  {
    hide Value;
    ValueIs(Ratio(1, 1), 1.0);
  }

  // ---- The whole preview ----

  /** A total saving over months worth q, whose unit is u, accounts for a sum of cents. */
  predicate Accounted(total: real, u: real, cents: nat, q: real) {
    100.0 * (total * u) == cents as real * q
  }

  lemma OneCut(cents: nat, kind: TargetKind, q: Rational)
    requires q.n > 0
    ensures Accounted(Value(Multiply(Cut(cents, kind, q), q)), Value(Unit(kind, q)), cents, Value(q))
  {
    hide *;
    CutValue(cents, kind, q);
    MultiplyValue(Cut(cents, kind, q), q);
    ScaleCut(Value(Multiply(Cut(cents, kind, q), q)), Value(Cut(cents, kind, q)), Value(Unit(kind, q)), cents,
        Value(q));
  }

  lemma ScaleCut(total: real, cut: real, u: real, cents: nat, q: real)
    requires total == cut * q && 100.0 * (cut * u) == cents as real
    ensures Accounted(total, u, cents, q)
  {
    assert cut * q * u == cut * u * q;
    assert 100.0 * (cut * u * q) == (100.0 * (cut * u)) * q;
  }

  lemma AddAccounted(a: real, b: real, u: real, s: nat, t: nat, q: real)
    requires Accounted(a, u, s, q) && Accounted(b, u, t, q)
    ensures Accounted(a + b, u, s + t, q)
  {
    assert (a + b) * u == a * u + b * u;
    assert (s + t) as real * q == s as real * q + t as real * q;
  }

  /** The cuts of all categories together account for all their cents. */
  lemma {:induction false} TotalOfCuts(lines: seq<Line>, cents: seq<nat>, kind: TargetKind, factors: seq<Rational>)
    requires SumOf(factors).n > 0 && Payable(lines, cents, kind, SumOf(factors))
    ensures var all := Allocations(lines, cents, kind, factors);
            Accounted(ValueSum(TotalSavings(all)), Value(Unit(kind, SumOf(factors))), Spread.Sum(cents),
                Value(SumOf(factors)))
  {
    hide Value, Cut, SumOf, Unit, Accounted, Multiply;
    var q := SumOf(factors);
    if lines == [] {
      Nothing(Value(Unit(kind, q)), Value(q));
    } else {
      hide Payable, Allocations;
      var k := |lines| - 1;
      LastAllocation(lines, cents, kind, factors);
      TotalOfCuts(lines[..k], cents[..k], kind, factors);
      OneMore(Allocations(lines[..k], cents[..k], kind, factors), Allocations(lines, cents, kind, factors)[k],
              cents[..k], cents[k], kind, q);
      assert cents == cents[..k] + [cents[k]];
    }
  }

  lemma OneMore(before: seq<Allocation>, last: Allocation, sofar: seq<nat>, cents: nat, kind: TargetKind, q: Rational)
    requires q.n > 0 && last.totalSaving == Multiply(Cut(cents, kind, q), q)
    requires Accounted(ValueSum(TotalSavings(before)), Value(Unit(kind, q)), Spread.Sum(sofar), Value(q))
    ensures Accounted(ValueSum(TotalSavings(before + [last])), Value(Unit(kind, q)), Spread.Sum(sofar + [cents]),
                Value(q))
  {
    hide *;
    LastSaving(before, last);
    OneCut(cents, kind, q);
    Spread.SumFront(sofar, cents);
    AddAccounted(ValueSum(TotalSavings(before)), Value(last.totalSaving), Value(Unit(kind, q)),
                 Spread.Sum(sofar), cents, Value(q));
  }

  lemma LastAllocation(lines: seq<Line>, cents: seq<nat>, kind: TargetKind, factors: seq<Rational>)
    requires lines != [] && SumOf(factors).n > 0 && Payable(lines, cents, kind, SumOf(factors))
    ensures |cents| == |lines| && Payable(lines[..|lines| - 1], cents[..|lines| - 1], kind, SumOf(factors))
    ensures var k := |lines| - 1; var all := Allocations(lines, cents, kind, factors);
            all == Allocations(lines[..k], cents[..k], kind, factors) + [all[k]]
            && all[k].totalSaving == Multiply(Cut(cents[k], kind, SumOf(factors)), SumOf(factors))
  {
    hide CapacityCents, SumOf, FloorOk, Cut, Multiply, Subtract, Capacity;
  }

  lemma LastSaving(before: seq<Allocation>, last: Allocation)
    ensures ValueSum(TotalSavings(before + [last])) == ValueSum(TotalSavings(before)) + Value(last.totalSaving)
  {
    hide Value;
    assert (before + [last])[..|before|] == before;
    assert TotalSavings(before + [last]) == TotalSavings(before) + [last.totalSaving];
    assert (TotalSavings(before) + [last.totalSaving])[..|before|] == TotalSavings(before);
  }

  lemma Nothing(u: real, q: real)
    ensures Accounted(0.0, u, 0, q)
  {
  }

  /** The total shown is exactly what was allocated: month by month for a monthly target, once for a
      total. No fraction of a cent is lost on the way. The target is met exactly when nothing is short. */
  lemma PreviewConserves(lines: seq<Line>, kind: TargetKind, goal: Rational, factors: seq<Rational>)
    requires Ready(lines, factors)
    ensures var r := PreviewOf(lines, kind, goal, factors);
            && 100.0 * Value(r.totalSaving)
               == r.allocatedCents as real * (if kind == Monthly then Value(r.monthFactor) else 1.0)
            && r.allocatedCents + r.shortfallCents == r.targetCents
            && r.allocatedCents <= r.maximumCents
            && (r.targetMet <==> r.shortfallCents == 0)
            && |r.allocations| == |lines|
  {
    hide Value, CapacityCents, FloorOk, NoDup, Spread.Allocate, Spread.Sum, SumOf, Names, Caps, Allocations, ValueSum,
         TotalSavings, Accounted, Unit;
    PreviewTotal(lines, kind, goal, factors);
    Settle(kind, Value(PreviewOf(lines, kind, goal, factors).totalSaving),
        PreviewOf(lines, kind, goal, factors).allocatedCents,
           SumOf(factors));
  }

  lemma PreviewTotal(lines: seq<Line>, kind: TargetKind, goal: Rational, factors: seq<Rational>)
    requires Ready(lines, factors)
    ensures var r, q := PreviewOf(lines, kind, goal, factors), SumOf(factors);
            Accounted(Value(r.totalSaving), Value(Unit(kind, q)), r.allocatedCents, Value(q))
            && |r.allocations| == |lines|
  {
    hide Value, CapacityCents, FloorOk, NoDup, Spread.Allocate, Spread.Sum, SumOf, Names, Caps, ValueSum, TotalSavings,
         Accounted, Unit;
    var q, target := SumOf(factors), FloorCents(goal);
    var caps := Caps(lines, kind, q);
    SpreadWithinCaps(lines, kind, q, target);
    var cents := Spread.Allocate(caps, Names(lines), target);
    TotalOfCuts(lines, cents, kind, factors);
    Spread.SpreadIsComplete(caps, Names(lines), target);
    SumValue(TotalSavings(Allocations(lines, cents, kind, factors)));
  }

  lemma Settle(kind: TargetKind, total: real, cents: nat, q: Rational)
    requires q.n > 0 && Accounted(total, Value(Unit(kind, q)), cents, Value(q))
    ensures 100.0 * total == cents as real * (if kind == Monthly then Value(q) else 1.0)
  {
    hide Value;
    UnitPositive(kind, q);
    if kind == Monthly {
      ValueIs(Ratio(1, 1), 1.0);
    } else {
      CancelUnit(100.0 * total, cents as real, Value(q));
      assert 100.0 * (total * Value(q)) == 100.0 * total * Value(q);
    }
  }

  lemma CancelUnit(x: real, y: real, u: real)
    requires u > 0.0
    ensures x * u == y * u ==> x == y
  {
    SignOf(x - y, u);
    assert (x - y) * u == x * u - y * u;
  }

  function CapacityColumn(allocations: seq<Allocation>): (r: seq<nat>)
    ensures |r| == |allocations| && forall i :: 0 <= i < |r| ==> r[i] == allocations[i].capacityCents
  {
    Mapped(allocations, (a: Allocation) => a.capacityCents)
  }

  function AllocatedColumn(allocations: seq<Allocation>): (r: seq<nat>)
    ensures |r| == |allocations| && forall i :: 0 <= i < |r| ==> r[i] == allocations[i].allocatedCents
  {
    Mapped(allocations, (a: Allocation) => a.allocatedCents)
  }

  /** The columns shown add up to the totals shown, and the allocated cents are the spread of the target
      over the capacities. */
  lemma ColumnsAddUp(lines: seq<Line>, kind: TargetKind, goal: Rational, factors: seq<Rational>)
    requires Ready(lines, factors)
    ensures var r := PreviewOf(lines, kind, goal, factors);
            && Spread.Sum(CapacityColumn(r.allocations)) == r.maximumCents
            && Spread.Sum(AllocatedColumn(r.allocations)) == r.allocatedCents
            && AllocatedColumn(r.allocations)
                == Spread.Allocate(CapacityColumn(r.allocations), Names(lines), r.targetCents)
            && r.targetCents == FloorCents(goal)
  {
    hide Value, CapacityCents, FloorOk, NoDup, Spread.Allocate, Spread.Sum, SumOf, ValueSum, Spread.Allocated;
    var q, target := SumOf(factors), FloorCents(goal);
    var caps := Caps(lines, kind, q);
    SpreadWithinCaps(lines, kind, q, target);
    var cents := Spread.Allocate(caps, Names(lines), target);
    var all := Allocations(lines, cents, kind, factors);
    assert CapacityColumn(all) == caps;
    assert AllocatedColumn(all) == cents;
    Spread.SpreadIsComplete(caps, Names(lines), target);
  }

  // ---- From what was typed to what is shown ----

  /** Rounding down to cents loses nothing of a typed target. */
  lemma TypedTargetIsExact(text: string)
    requires PlainShape(text)
    ensures Readable(text) && FloorCents(FromDecimal(text)) == Hundredths(text)
  {
    hide Value, FromDecimal, FloorCents, Worth, Hundredths, PlainShape;
    ShapeReadable(text);
    FromDecimalValue(text);
    FloorCentsValue(FromDecimal(text));
    HundredthsExactWhen(text);
  }

  /** The target of a preview is the typed amount, to the cent. */
  lemma TargetAsTyped(c: Confirmed)
    requires Calculate(c).Preview?
    ensures Readable(c.intent.target) && Calculate(c).targetCents == Hundredths(c.intent.target)
  {
    hide Value, Accepts, Selected, FigureOf, TermOk, Factors, SumOf, NoDup, LinesOf, FromDecimal, FloorCents,
         PlainShape,
         Spread.Allocate, Spread.Sum, Spread.Allocated;
    PreviewMeans(c);
    TargetPlain(c);
    TypedTargetIsExact(c.intent.target);
  }

  lemma TargetPlain(c: Confirmed)
    requires Accepts(c)
    ensures PlainShape(c.intent.target)
  {
  }

  lemma PreviewMeans(c: Confirmed)
    requires Calculate(c).Preview?
    ensures Accepts(c)
    ensures forall i :: 0 <= i < |Selected(c.intent)| ==> Known(Selected(c.intent)[i], c.baselines)
    ensures RangeOk(c.intent.horizon) && Readable(c.intent.target)
    ensures var lines := LinesOf(Selected(c.intent), c.baselines);
            Ready(lines, Factors(c.intent.horizon))
            && Calculate(c) == PreviewOf(lines, c.intent.kind, FromDecimal(c.intent.target), Factors(c.intent.horizon))
  {
    hide Accepts, Selected, LinesOf, PreviewOf, Factors, FromDecimal, FloorOk, FigureOf, NoDup;
    assert Accepts(c);
    assert Missing(Selected(c.intent), c.baselines) == [];
    LinesReady(c);
    TargetOf(c);
  }

  lemma TargetOf(c: Confirmed)
    requires Accepts(c)
    ensures Readable(c.intent.target)
  {
    TargetReadable(c.intent, c.source.asOf, Labels(c.intent.categories));
  }

  /** The allowed cut of a term, as it was typed. */
  function Limit(maximum: Reduction, usual: real): real
    requires Readable(maximum.amount)
  {
    if maximum.Money? then Worth(maximum.amount) else usual * (Worth(maximum.amount) / 100.0)
  }

  lemma LineValues(term: Term, base: Rational)
    requires TermOk(term)
    ensures Readable(term.monthlyFloor) && Readable(term.maximum.amount)
    ensures LineOf(term, base).base == base
    ensures Value(LineOf(term, base).floor) == Worth(term.monthlyFloor)
    ensures Value(LineOf(term, base).cap) == Limit(term.maximum, Value(base))
  {
    hide Value, TermOk, Worth, FromDecimal, Multiply, Divide, Limit;
    TermReadable(term);
    FromDecimalValue(term.monthlyFloor);
    LimitValue(term.maximum, base);
  }

  lemma LimitValue(maximum: Reduction, base: Rational)
    requires Readable(maximum.amount)
    ensures Limit(maximum, Value(base)) ==
            if maximum.Money? then Value(FromDecimal(maximum.amount))
            else Value(Multiply(base, Divide(FromDecimal(maximum.amount), Ratio(100, 1))))
  {
    hide Value, Worth, FromDecimal, Multiply, Divide;
    var amount := FromDecimal(maximum.amount);
    FromDecimalValue(maximum.amount);
    ValueIs(Ratio(100, 1), 100.0);
    DivideValue(amount, Ratio(100, 1));
    var part := Divide(amount, Ratio(100, 1));
    MultiplyValue(base, part);
  }

  /** In every preview, each selected category appears once, in label order, keeps at least its typed
      floor, is cut by no more than its typed limit in dollars or percent of its usual month, and its
      months add up to its total. */
  lemma PreviewKeepsTerms(c: Confirmed, i: nat)
    requires Calculate(c).Preview? && i < |Selected(c.intent)|
    ensures |Calculate(c).allocations| == |c.intent.categories| == |Selected(c.intent)|
    ensures Elems(Selected(c.intent)) == Elems(c.intent.categories)
    ensures var term, a := Selected(c.intent)[i], Calculate(c).allocations[i];
            && a.category == term.category
            && FigureOf(c.baselines, term.category) == Some(a.monthlyBaseline)
            && Readable(term.monthlyFloor) && Readable(term.maximum.amount)
            && Worth(term.monthlyFloor) <= Value(a.monthlyLimit)
            && Value(a.monthlyReduction) <= Limit(term.maximum, Value(a.monthlyBaseline))
            && Value(a.monthlyLimit) + Value(a.monthlyReduction) == Value(a.monthlyBaseline)
            && ValueSum(a.savings) == Value(a.totalSaving)
  {
    hide Value, Accepts, Selected, FigureOf, TermOk, Worth, Factors, FloorOk, CapacityCents, Spread.Allocate, SumOf,
         ValueSum, NoDup, LinesOf, Limit;
    PreviewMeans(c);
    SelectedOf(c);
    var lines, factors := LinesOf(Selected(c.intent), c.baselines), Factors(c.intent.horizon);
    var target := FloorCents(FromDecimal(c.intent.target));
    LineAt(Selected(c.intent), c.baselines, i);
    LineValues(Selected(c.intent)[i], FigureOf(c.baselines, Selected(c.intent)[i].category).value);
    AllocationAt(lines, c.intent.kind, FromDecimal(c.intent.target), factors, i);
  }

  lemma SelectedOf(c: Confirmed)
    requires Accepts(c)
    ensures Elems(Selected(c.intent)) == Elems(c.intent.categories) && |Selected(c.intent)| == |c.intent.categories|
  {
    SelectedTerms(c.intent, c.source.asOf, Labels(c.intent.categories));
  }

  lemma AllocationAt(lines: seq<Line>, kind: TargetKind, goal: Rational, factors: seq<Rational>, i: nat)
    requires Ready(lines, factors) && i < |lines|
    ensures |PreviewOf(lines, kind, goal, factors).allocations| == |lines|
    ensures var a, line := PreviewOf(lines, kind, goal, factors).allocations[i], lines[i];
            && a.category == line.category && a.monthlyBaseline == line.base
            && Value(a.monthlyLimit) + Value(a.monthlyReduction) == Value(line.base)
            && Value(line.floor) <= Value(a.monthlyLimit)
            && Value(a.monthlyReduction) <= Value(line.cap)
            && ValueSum(a.savings) == Value(a.totalSaving)
  {
    hide Value, CapacityCents, FloorOk, NoDup, Spread.Allocate, Spread.Sum, SumOf, ValueSum;
    var q, target := SumOf(factors), FloorCents(goal);
    SpreadWithinCaps(lines, kind, q, target);
    var cents := Spread.Allocate(Caps(lines, kind, q), Names(lines), target);
    AllocationKeepsTerms(lines[i], cents[i], kind, factors);
  }

  /** What a preview shows for each category: the most its usual month can be cut is the smaller of the
      typed limit and what the typed floor leaves, its capacity that in whole cents of the target's unit, and
      the allocated cents are exactly its cut over that unit. A monthly target's unit is one month, a
      total's is the months covered, which is the month factor shown. */
  lemma PreviewFigures(c: Confirmed, i: nat)
    requires Calculate(c).Preview? && i < |Selected(c.intent)|
    ensures RangeOk(c.intent.horizon)
    ensures Value(Calculate(c).monthFactor) == ValueSum(Factors(c.intent.horizon))
    ensures var term := Selected(c.intent)[i];
            |Calculate(c).allocations| == |Selected(c.intent)|
            && Readable(term.monthlyFloor) && Readable(term.maximum.amount)
    ensures var term, a := Selected(c.intent)[i], Calculate(c).allocations[i];
            var usual := Value(a.monthlyBaseline);
            var u := if c.intent.kind == Monthly then 1.0 else Value(Calculate(c).monthFactor);
            && Value(a.monthlyCapacity) == Smaller(usual - Worth(term.monthlyFloor), Limit(term.maximum, usual))
            && a.capacityCents as real <= 100.0 * Product(Value(a.monthlyCapacity), u) < a.capacityCents as real + 1.0
            && 100.0 * (Value(a.monthlyReduction) * u) == a.allocatedCents as real
  {
    hide *;
    PreviewMeans(c);
    var terms := Selected(c.intent);
    var lines, factors := LinesOf(terms, c.baselines), Factors(c.intent.horizon);
    FiguresOf(lines, c.intent.kind, FromDecimal(c.intent.target), factors, i);
    SumValue(factors);
    LineAt(terms, c.baselines, i);
    LineOfTerm(terms[i], c.baselines);
  }

  lemma LineOfTerm(term: Term, rows: seq<Chosen>)
    requires Known(term, rows)
    ensures Readable(term.monthlyFloor) && Readable(term.maximum.amount)
    ensures var line := LineFor(term, rows);
            Value(line.floor) == Worth(term.monthlyFloor) && Value(line.cap) == Limit(term.maximum, Value(line.base))
  {
    hide FigureOf, Value, Worth, Limit, TermOk, LineOf;
    LineValues(term, FigureOf(rows, term.category).value);
  }

  lemma FiguresOf(lines: seq<Line>, kind: TargetKind, goal: Rational, factors: seq<Rational>, i: nat)
    requires Ready(lines, factors) && i < |lines|
    ensures var r := PreviewOf(lines, kind, goal, factors);
            r.monthFactor == SumOf(factors) && |r.allocations| == |lines|
    ensures var r, line := PreviewOf(lines, kind, goal, factors), lines[i];
            var a, u := r.allocations[i], if kind == Monthly then 1.0 else Value(r.monthFactor);
            && a.monthlyBaseline == line.base
            && Value(a.monthlyCapacity) == Smaller(Value(line.base) - Value(line.floor), Value(line.cap))
            && a.capacityCents as real <= 100.0 * Product(Value(a.monthlyCapacity), u) < a.capacityCents as real + 1.0
            && 100.0 * (Value(a.monthlyReduction) * u) == a.allocatedCents as real
  {
    hide *;
    var cents := ShownAllocation(lines, kind, goal, factors, i);
    AllocationFigures(lines[i], cents, kind, factors);
  }

  lemma ShownAllocation(lines: seq<Line>, kind: TargetKind, goal: Rational, factors: seq<Rational>, i: nat)
      returns (cents: nat)
    requires Ready(lines, factors) && i < |lines|
    ensures FloorOk(lines[i]) && SumOf(factors).n > 0 && cents <= CapacityCents(lines[i], kind, SumOf(factors))
    ensures var r := PreviewOf(lines, kind, goal, factors);
            && r.monthFactor == SumOf(factors) && |r.allocations| == |lines|
            && r.allocations[i] == AllocationOf(lines[i], cents, kind, factors)
            && r.allocations[i].monthlyBaseline == lines[i].base
  {
    hide Value, CapacityCents, FloorOk, NoDup, Spread.Allocate, Spread.Sum, SumOf, Cut, Capacity, Subtract, Multiply;
    var q, target := SumOf(factors), FloorCents(goal);
    SpreadWithinCaps(lines, kind, q, target);
    cents := Spread.Allocate(Caps(lines, kind, q), Names(lines), target)[i];
  }

  /** Month by month, a category saves its monthly cut times the part of the month's dates that the range
      covers, whatever the months' lengths. */
  lemma MonthSaving(c: Confirmed, i: nat, k: nat)
    requires Calculate(c).Preview? && i < |Calculate(c).allocations|
    requires k < |Calculate(c).allocations[i].savings|
    ensures var h, a := c.intent.horizon, Calculate(c).allocations[i];
            var n := MonthNumber(h.from) + k;
            && |a.savings| == MonthNumber(h.to) - MonthNumber(h.from) + 1 && n >= 0 && |MonthDates(n)| >= 28
            && Value(a.savings[k]) * |MonthDates(n)| as real
               == Value(a.monthlyReduction) * |Covered(h.from, h.to, n)| as real
  {
    hide *;
    PreviewMeans(c);
    PreviewHorizon(c);
    var h := c.intent.horizon;
    var factors, a := Factors(h), Calculate(c).allocations[i];
    CutOfMonth(LinesOf(Selected(c.intent), c.baselines), c.intent.kind, FromDecimal(c.intent.target), factors, i, k);
    FactorIsPartCovered(h, k);
    var n := MonthNumber(h.from) + k;
    ScaledBy(Value(a.savings[k]), Value(a.monthlyReduction), Value(factors[k]), |MonthDates(n)| as real,
             |Covered(h.from, h.to, n)| as real);
  }

  lemma PreviewHorizon(c: Confirmed)
    requires RangeOk(c.intent.horizon)
    ensures MonthNumber(c.intent.horizon.from) >= 0
  {
    hide DaysInMonth;
  }

  lemma ScaledBy(saving: real, cut: real, factor: real, length: real, covered: real)
    requires saving == Product(cut, factor) && factor * length == covered
    ensures saving * length == cut * covered
  {
    assert cut * factor * length == cut * (factor * length);
  }

  lemma CutOfMonth(lines: seq<Line>, kind: TargetKind, goal: Rational, factors: seq<Rational>, i: nat, k: nat)
    requires Ready(lines, factors) && i < |PreviewOf(lines, kind, goal, factors).allocations|
    requires k < |PreviewOf(lines, kind, goal, factors).allocations[i].savings|
    ensures var a := PreviewOf(lines, kind, goal, factors).allocations[i];
            |a.savings| == |factors| && Value(a.savings[k]) == Product(Value(a.monthlyReduction), Value(factors[k]))
  {
    hide Value, CapacityCents, FloorOk, NoDup, Spread.Allocate, Spread.Sum, SumOf, ValueSum, Product, Multiply;
    var q, target := SumOf(factors), FloorCents(goal);
    SpreadWithinCaps(lines, kind, q, target);
    var cents := Spread.Allocate(Caps(lines, kind, q), Names(lines), target);
    AllocationFigures(lines[i], cents[i], kind, factors);
  }

  // ---- What is listed, and in which order ----

  lemma SelectedAscending(c: Confirmed)
    requires Accepts(c)
    ensures Ascending(Labels(Selected(c.intent)), LabelLess)
  {
    hide TermOk, TypedAmount, DatesOk, Trusted, LabelLess;
    LinearLabels(c.intent.categories);
    SortAscending(c.intent.categories, ByLabel);
    var terms := Selected(c.intent);
    forall i, j | 0 <= i < j < |terms|
      ensures LabelLess(Labels(terms)[i], Labels(terms)[j])
    {
      assert ByLabel(terms[i], terms[j]);
    }
  }

  /** What the calculator answers, and about which categories. It names as missing exactly the selected
      categories without a usual month; failing that, as out of reach exactly those whose floor is above
      it; failing that it shows every selected category once. Each list is in label order. */
  lemma OutcomeExactly(c: Confirmed)
    ensures Calculate(c).Refused? <==> !Accepts(c)
    ensures Calculate(c).NeedsBaseline? ==>
              var missing := Calculate(c).missing;
              && Ascending(missing, LabelLess) && missing != []
              && forall x :: x in missing <==> x in Labels(c.intent.categories) && FigureOf(c.baselines, x).None?
    ensures Calculate(c).ConstraintsInvalid? ==>
              var above := Calculate(c).violations;
              && Ascending(above, LabelLess) && above != []
              && (forall t :: t in c.intent.categories ==> FigureOf(c.baselines, t.category).Some?)
              && forall x :: x in above <==> FloorAboveUsual(c, x)
    ensures Calculate(c).Preview? ==>
              var shown := ShownCategories(Calculate(c).allocations);
              && Ascending(shown, LabelLess) && Elems(shown) == Elems(Labels(c.intent.categories))
              && |shown| == |c.intent.categories|
              && (forall x :: x in shown ==> FigureOf(c.baselines, x).Some? && !FloorAboveUsual(c, x))
  {
    hide Accepts, Selected, FigureOf, PreviewOf, LinesOf, Factors, FromDecimal, LabelLess, FloorOk, AboveUsual,
         ShownCategories, NoDup;
    if Accepts(c) {
      var terms := Selected(c.intent);
      SelectedOf(c);
      SelectedAscending(c);
      LabelsOfSelected(c);
      MissingInOrder(terms, c.baselines);
      forall x
        ensures x in Missing(terms, c.baselines) <==>
                x in Labels(c.intent.categories) && FigureOf(c.baselines, x).None?
      {
        MissingHolds(terms, c.baselines, x);
        LabelIn(terms, x);
      }
      if Missing(terms, c.baselines) == [] {
        forall t | t in c.intent.categories
          ensures FigureOf(c.baselines, t.category).Some?
        {
          assert t in Elems(terms);
          var i :| 0 <= i < |terms| && terms[i] == t;
        }
        LinesReady(c);
        FloorsListed(c);
        PreviewShows(c);
      }
    }
  }

  /** The typed floor is more than the usual month. */
  predicate AboveUsual(t: Term, usual: Option<Rational>) {
    usual.Some? && Readable(t.monthlyFloor) && Worth(t.monthlyFloor) > Value(usual.value)
  }

  ghost predicate FloorAboveUsual(c: Confirmed, category: string) {
    exists t :: t in c.intent.categories && t.category == category
                && AboveUsual(t, FigureOf(c.baselines, category))
  }

  function ShownCategories(allocations: seq<Allocation>): (r: seq<string>)
    ensures |r| == |allocations| && forall i :: 0 <= i < |r| ==> r[i] == allocations[i].category
  {
    Mapped(allocations, (a: Allocation) => a.category)
  }

  lemma LabelIn(terms: seq<Term>, x: string)
    ensures x in Labels(terms) <==> exists i :: 0 <= i < |terms| && terms[i].category == x
  {
    if i :| 0 <= i < |terms| && terms[i].category == x {
      assert Labels(terms)[i] == x;
    }
  }

  lemma LabelsOfSelected(c: Confirmed)
    requires Accepts(c)
    ensures Elems(Labels(Selected(c.intent))) == Elems(Labels(c.intent.categories))
  {
    hide Accepts, Selected;
    SelectedOf(c);
    MoreLabels(Selected(c.intent), c.intent.categories);
    MoreLabels(c.intent.categories, Selected(c.intent));
  }

  lemma FloorsListed(c: Confirmed)
    requires Accepts(c)
    requires forall i :: 0 <= i < |Selected(c.intent)| ==> Known(Selected(c.intent)[i], c.baselines)
    ensures var above := Violations(LinesOf(Selected(c.intent), c.baselines));
            Ascending(above, LabelLess)
            && forall x :: x in above <==> FloorAboveUsual(c, x)
  {
    hide Accepts, Selected, FigureOf, LabelLess, AboveUsual, FloorOk, LineOf, LinesOf, TermOk, Violations;
    var terms := Selected(c.intent);
    var lines := LinesOf(terms, c.baselines);
    SelectedOf(c);
    SelectedAscending(c);
    SameNames(terms, c.baselines);
    ViolationsInOrder(lines);
    forall i | 0 <= i < |terms|
      ensures lines[i].category == terms[i].category
      ensures FloorOk(lines[i]) <==> !AboveUsual(terms[i], FigureOf(c.baselines, terms[i].category))
    {
      LineAt(terms, c.baselines, i);
      FloorOfLine(terms[i], FigureOf(c.baselines, terms[i].category).value);
    }
    forall x
      ensures x in Violations(lines) <==> FloorAboveUsual(c, x)
    {
      ViolationsHold(lines, x);
      if x in Violations(lines) {
        var i :| 0 <= i < |lines| && lines[i].category == x && !FloorOk(lines[i]);
        assert terms[i] in Elems(terms);
      }
      if t :| t in c.intent.categories && t.category == x && AboveUsual(t, FigureOf(c.baselines, t.category)) {
        assert t in Elems(terms);
        var i :| 0 <= i < |terms| && terms[i] == t;
        assert lines[i].category == x && !FloorOk(lines[i]);
      }
    }
  }

  lemma FloorOfLine(term: Term, usual: Rational)
    requires TermOk(term)
    ensures FloorOk(LineOf(term, usual)) <==> !AboveUsual(term, Some(usual))
  {
    hide Value, TermOk, Worth, LineOf, Less, Limit;
    LineValues(term, usual);
    LessValue(LineOf(term, usual).base, LineOf(term, usual).floor);
  }

  lemma PreviewShows(c: Confirmed)
    requires Accepts(c)
    requires forall i :: 0 <= i < |Selected(c.intent)| ==> Known(Selected(c.intent)[i], c.baselines)
    ensures Calculate(c).Preview? ==>
              ShownCategories(Calculate(c).allocations) == Labels(Selected(c.intent))
    ensures Calculate(c).Preview? ==> Violations(LinesOf(Selected(c.intent), c.baselines)) == []
    ensures |Labels(Selected(c.intent))| == |c.intent.categories|
  {
    hide Accepts, Selected, FigureOf, LabelLess, FloorOk, LineOf, LinesOf, TermOk, Violations, Worth, Value, Limit;
    SelectedOf(c);
    if Calculate(c).Preview? {
      forall i | 0 <= i < |Selected(c.intent)|
        ensures |Calculate(c).allocations| == |Selected(c.intent)|
        ensures Calculate(c).allocations[i].category == Selected(c.intent)[i].category
      {
        PreviewKeepsTerms(c, i);
      }
      NoneAbove(c);
      AsManyShown(c);
    }
  }

  lemma AsManyShown(c: Confirmed)
    requires Calculate(c).Preview?
    ensures |Calculate(c).allocations| == |Selected(c.intent)|
  {
    hide Accepts, Selected, FigureOf, FloorOk, LineOf, LinesOf, Factors, SumOf, NoDup, Spread.Allocate, Violations;
    PreviewMeans(c);
  }

  lemma NoneAbove(c: Confirmed)
    requires Calculate(c).Preview?
    requires forall i :: 0 <= i < |Selected(c.intent)| ==> Known(Selected(c.intent)[i], c.baselines)
    ensures Violations(LinesOf(Selected(c.intent), c.baselines)) == []
  {
    hide Accepts, Selected, FigureOf, FloorOk, LineOf, LinesOf, Factors, PreviewOf;
  }

  // ---- The order of the choices ----

  lemma LinearLabels(terms: seq<Term>)
    requires NoDup(Labels(terms))
    ensures Linear(Elems(terms), ByLabel) && NoDup(terms)
  {
    var labels := Labels(terms);
    forall x | x in Elems(terms)
      ensures !ByLabel(x, x)
    {
      LabelIrreflexive(x.category);
    }
    forall x, y | x in Elems(terms) && y in Elems(terms) && x != y
      ensures ByLabel(x, y) || ByLabel(y, x)
    {
      var i :| 0 <= i < |terms| && terms[i] == x;
      var j :| 0 <= j < |terms| && terms[j] == y;
      assert labels[i] != labels[j];
      LabelTotal(x.category, y.category);
    }
    forall x, y, z | x in Elems(terms) && y in Elems(terms) && z in Elems(terms) && ByLabel(x, y) && ByLabel(y, z)
      ensures ByLabel(x, z)
    {
      LabelTransitive(x.category, y.category, z.category);
    }
    forall i, j | 0 <= i < j < |terms|
      ensures terms[i] != terms[j]
    {
      assert labels[i] != labels[j];
    }
  }

  lemma {:induction false} FigureFound(rows: seq<Chosen>, i: nat)
    requires NoDup(Categories(rows)) && i < |rows|
    ensures FigureOf(rows, rows[i].category)
         == if Trusted(rows[i].baseline, false) then MonthlyBaseline(rows[i].baseline) else None
  {
    hide Trusted, MonthlyBaseline;
    var k, names := |rows| - 1, Categories(rows);
    if i == k {
    } else {
      assert names[i] != names[k];
      assert Categories(rows[..k]) == names[..k];
      FigureFound(rows[..k], i);
    }
  }

  lemma {:induction false} FigureMissing(rows: seq<Chosen>, category: string)
    requires category !in Categories(rows)
    ensures FigureOf(rows, category).None?
  {
    if rows == [] {
    } else {
      var k, names := |rows| - 1, Categories(rows);
      assert names[k] in names;
      assert Categories(rows[..k]) == names[..k];
      FigureMissing(rows[..k], category);
    }
  }

  lemma SameFigures(r: seq<Chosen>, s: seq<Chosen>, category: string)
    requires multiset(r) == multiset(s) && NoDup(Categories(r)) && NoDup(Categories(s))
    ensures FigureOf(r, category) == FigureOf(s, category)
  {
    hide FigureOf, Trusted, MonthlyBaseline, NoDup;
    SameElems(r, s);
    if i :| 0 <= i < |r| && r[i].category == category {
      assert r[i] in Elems(s);
      var j :| 0 <= j < |s| && s[j] == r[i];
      FigureFound(r, i);
      FigureFound(s, j);
    } else {
      forall j | 0 <= j < |s|
        ensures s[j].category != category
      {
        assert s[j] in Elems(r);
      }
      FigureMissing(r, category);
      FigureMissing(s, category);
    }
  }

  // ---- Rearranging what was confirmed ----

  lemma SameIntent(a: Intent, b: Intent, asOf: Date)
    requires ValidIntent(a, asOf, Labels(a.categories)) && multiset(a.categories) == multiset(b.categories)
    requires b == a.(categories := b.categories)
    ensures ValidIntent(b, asOf, Labels(b.categories))
    ensures NoDup(Labels(b.categories)) && |a.categories| == |b.categories|
    ensures Elems(Labels(a.categories)) == Elems(Labels(b.categories))
  {
    hide TermOk, TypedAmount, DatesOk, NoDup;
    var s, t := a.categories, b.categories;
    SizeOf(s, t);
    SameElems(s, t);
    DistinctKeys(s, t, Labels(s), Labels(t), (x: Term) => x.category);
    forall i | 0 <= i < |t|
      ensures TermOk(t[i]) && multiset(Labels(t))[t[i].category] == 1
    {
      assert t[i] in Elems(s);
      AtMostOnce(Labels(t), t[i].category);
      assert Labels(t)[i] in multiset(Labels(t));
    }
    MoreLabels(s, t);
    MoreLabels(t, s);
    assert Elems(Labels(s)) == Elems(Labels(t));
  }

  lemma MoreLabels(s: seq<Term>, t: seq<Term>)
    requires Elems(s) <= Elems(t)
    ensures Elems(Labels(s)) <= Elems(Labels(t))
  {
    forall x | x in Labels(s)
      ensures x in Labels(t)
    {
      var i :| 0 <= i < |s| && Labels(s)[i] == x;
      assert s[i] in Elems(t);
      var k :| 0 <= k < |t| && t[k] == s[i];
      assert Labels(t)[k] == x;
    }
  }

  predicate Rearranged(c: Confirmed, d: Confirmed) {
    && multiset(c.intent.categories) == multiset(d.intent.categories)
    && multiset(c.baselines) == multiset(d.baselines)
    && d == c.(intent := c.intent.(categories := d.intent.categories), baselines := d.baselines)
  }

  lemma AcceptsRearranged(c: Confirmed, d: Confirmed)
    requires Rearranged(c, d) && Accepts(c)
    ensures Accepts(d)
  {
    hide ValidIntent, ValidSource, Trusted;
    SameIntent(c.intent, d.intent, c.source.asOf);
    SizeOf(c.baselines, d.baselines);
    SameElems(c.baselines, d.baselines);
    DistinctKeys(c.baselines, d.baselines, Categories(c.baselines), Categories(d.baselines), (x: Chosen) => x.category);
    forall i | 0 <= i < |d.baselines|
      ensures RowOk(d.baselines[i], Labels(d.intent.categories), d.source)
    {
      assert d.baselines[i] in Elems(c.baselines);
      assert d.baselines[i].category in Elems(Labels(c.intent.categories));
    }
  }

  lemma SelectedRearranged(c: Confirmed, d: Confirmed)
    requires Rearranged(c, d) && Accepts(c) && Accepts(d)
    ensures Selected(c.intent) == Selected(d.intent)
  {
    hide TermOk, TypedAmount, DatesOk, Trusted;
    LinearLabels(c.intent.categories);
    LinearLabels(d.intent.categories);
    SameElems(c.intent.categories, d.intent.categories);
    SortIgnoresOrder(c.intent.categories, d.intent.categories, ByLabel);
  }

  /** The outcome does not depend on the order in which categories were picked or usual months were
      read: the same choices always give the same refusal, the same gaps or the same figures. */
  lemma OrderNeverMatters(c: Confirmed, d: Confirmed)
    requires Rearranged(c, d)
    ensures Calculate(c) == Calculate(d)
  {
    hide Accepts, Selected, FigureOf, TermOk, PreviewOf, LinesOf, Factors, FromDecimal, TypedAmount;
    if Accepts(c) || Accepts(d) {
      if Accepts(c) {
        AcceptsRearranged(c, d);
      } else {
        AcceptsRearranged(d, c);
      }
      SelectedRearranged(c, d);
      DistinctBaselines(c);
      DistinctBaselines(d);
      var terms := Selected(c.intent);
      forall category: string
        ensures FigureOf(c.baselines, category) == FigureOf(d.baselines, category)
      {
        SameFigures(c.baselines, d.baselines, category);
      }
      SameMissing(terms, c.baselines, d.baselines);
      if Missing(terms, c.baselines) == [] {
        LinesReady(c);
        LinesReady(d);
        SameLines(terms, c.baselines, d.baselines);
      }
    }
  }

  lemma DistinctBaselines(c: Confirmed)
    requires Accepts(c)
    ensures NoDup(Categories(c.baselines))
  {
  }

  lemma {:induction false} SameMissing(terms: seq<Term>, r: seq<Chosen>, s: seq<Chosen>)
    requires forall category :: FigureOf(r, category) == FigureOf(s, category)
    ensures Missing(terms, r) == Missing(terms, s)
  {
    hide FigureOf;
    if terms == [] {
    } else {
      SameMissing(terms[..|terms| - 1], r, s);
    }
  }

  lemma SameLines(terms: seq<Term>, r: seq<Chosen>, s: seq<Chosen>)
    requires forall category :: FigureOf(r, category) == FigureOf(s, category)
    requires forall i :: 0 <= i < |terms| ==> Known(terms[i], r) && Known(terms[i], s)
    ensures LinesOf(terms, r) == LinesOf(terms, s)
  {
    hide FigureOf, Known, LinesOf;
    forall i | 0 <= i < |terms|
      ensures LinesOf(terms, r)[i] == LinesOf(terms, s)[i]
    {
      LineAt(terms, r, i);
      LineAt(terms, s, i);
      SameLine(terms[i], r, s);
    }
  }

  lemma SameLine(term: Term, r: seq<Chosen>, s: seq<Chosen>)
    requires FigureOf(r, term.category) == FigureOf(s, term.category)
    requires Known(term, r) && Known(term, s)
    ensures LineFor(term, r) == LineFor(term, s)
  {
  }

  // ---- As the program runs it ----

  method CalculateCutPreview(c: Confirmed) returns (r: Calculation)
    ensures r == Calculate(c)
  {
    hide Accepts, FigureOf, TermOk, FromDecimal, TypedAmount, Trusted, FloorOk, CapacityCents, SumOf, NoDup, Selected,
         Spread.Ranked, Spread.Give, Spread.Pennies, Spread.Sum, Segments;
    var ok := CheckedCopy(c);
    if !ok {
      return Refused;
    }
    var selected := Selected(c.intent);
    var missing := Missing(selected, c.baselines);
    if missing != [] {
      return NeedsBaseline(missing);
    }
    LinesReady(c);
    var lines := LinesOf(selected, c.baselines);
    var violations := Violations(lines);
    if violations != [] {
      return ConstraintsInvalid(violations);
    }
    AllFactorsOk(c.intent.horizon);
    var segments := MonthsTouching(c.intent.horizon.from, c.intent.horizon.to);
    var factors := FactorsOf(segments);
    TargetOf(c);
    r := SpreadPreview(lines, c.intent.kind, FromDecimal(c.intent.target), factors);
  }

  method SpreadPreview(lines: seq<Line>, kind: TargetKind, goal: Rational, factors: seq<Rational>)
      returns (r: Calculation)
    requires Ready(lines, factors)
    ensures r == PreviewOf(lines, kind, goal, factors)
  {
    hide FloorOk, CapacityCents, SumOf, NoDup, Spread.Ranked, Spread.Give, Spread.Sum, Spread.Shares, Spread.Remainders,
         Payable, Allocations, Caps, Names, TotalSavings, FloorCents;
    var q, target, labels := SumOf(factors), FloorCents(goal), Names(lines);
    var caps := Caps(lines, kind, q);
    var maximum := Spread.Sum(caps);
    var chosen := if target < maximum then target else maximum;
    var shares, rest := Spread.Shares(caps, chosen, maximum), Spread.Remainders(caps, chosen, maximum);
    SharesShape(caps, chosen, maximum);
    var cents := new nat[|shares|](i requires 0 <= i < |shares| => shares[i]);
    assert cents[..] == shares;
    Spread.RankedIsIndices(rest, labels);
    Spread.HandOut(cents, Spread.Ranked(rest, labels), chosen - Spread.Sum(shares));
    SpreadWithinCaps(lines, kind, q, target);
    var allocations := Allocations(lines, cents[..], kind, factors);
    r := Preview(q, target <= maximum, target, maximum, chosen, target - chosen, SumOf(TotalSavings(allocations)),
        allocations);
  }

  lemma SharesShape(caps: seq<nat>, goal: nat, maximum: nat)
    ensures |Spread.Shares(caps, goal, maximum)| == |caps| == |Spread.Remainders(caps, goal, maximum)|
  {
  }
}
