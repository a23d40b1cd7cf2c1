/** What the person chose for a savings target, the usual month of each category, and the checks both
    must pass before anything is calculated. */
module CutTerms {
  import opened Options
  import opened Sequences
  import opened CentsText
  import opened Ratios
  import opened Calendar

  // ---- The intent ----

  datatype Reduction = Money(amount: string) | Percent(amount: string)

  datatype Term = Term(category: string, monthlyFloor: string, maximum: Reduction)

  datatype HorizonKind = Prospective | FullYear

  datatype Horizon = Horizon(kind: HorizonKind, from: Date, to: Date)

  datatype PartialMonth = Exclude | Prorate

  datatype TargetKind = Monthly | Total

  datatype Intent = Intent(kind: TargetKind, target: string, categories: seq<Term>, horizon: Horizon,
      part: PartialMonth)

  function Labels(terms: seq<Term>): (r: seq<string>)
    ensures |r| == |terms| && forall i :: 0 <= i < |terms| ==> r[i] == terms[i].category
  {
    Mapped(terms, (t: Term) => t.category)
  }

  predicate InYears(x: Date) {
    1900 <= x.y <= 2100
  }

  predicate DatesOk(horizon: Horizon, part: PartialMonth, asOf: Date) {
    var from, to := horizon.from, horizon.to;
    && IsDate(from) && IsDate(to) && InYears(from) && InYears(to)
    && !Before(to, from) && MonthNumber(to) - MonthNumber(from) < 12
    && (match horizon.kind
        case FullYear => from == Date(asOf.y, 1, 1) && to == Date(asOf.y, 12, 31)
        case Prospective => !Before(from, asOf))
    && (part == Prorate || (from.d == 1 && MonthEnd(to)))
  }

  /** The dates of an intent, told by the days they cover: a range of real days in the years 1900 to 2100
      that touches at most twelve months. It is the whole year of the as-of date or starts no earlier than
      that date, and covers every month it touches completely when only whole months are counted. */
  lemma DatesExactly(horizon: Horizon, part: PartialMonth, asOf: Date)
    requires IsDate(asOf)
    ensures DatesOk(horizon, part, asOf) <==>
            var from, to := horizon.from, horizon.to;
            && IsDate(from) && IsDate(to) && 1900 <= from.y <= 2100 && 1900 <= to.y <= 2100
            && DayNumber(from) <= DayNumber(to) && |Segments(from, to)| <= 12
            && (horizon.kind == FullYear ==> forall x | IsDate(x) :: InRange(from, to, x) <==> x.y == asOf.y)
            && (horizon.kind == Prospective ==> DayNumber(asOf) <= DayNumber(from))
            && (part == Exclude ==> forall n | MonthNumber(from) <= n <= MonthNumber(to) ::
                                      |Covered(from, to, n)| == |MonthDates(n)|)
  {
    var from, to := horizon.from, horizon.to;
    if IsDate(from) && IsDate(to) {
      DayNumbersOrder(to, from);
      DayNumbersOrder(from, asOf);
      SegmentCount(from, to);
      hide Segments, DayNumber, DaysInMonth, Covered, MonthDates, MonthNumber;
      if !Before(to, from) {
        YearCovered(from, to, asOf.y);
        WholeMonthsCovered(from, to);
      }
    }
  }

  predicate InRange(from: Date, to: Date, x: Date) {
    !Before(x, from) && !Before(to, x)
  }

  lemma YearCovered(from: Date, to: Date, y: nat)
    requires IsDate(from) && IsDate(to) && !Before(to, from) && y <= 9999
    ensures from == Date(y, 1, 1) && to == Date(y, 12, 31) <==>
            forall x | IsDate(x) :: InRange(from, to, x) <==> x.y == y
  {
    var first, last := Date(y, 1, 1), Date(y, 12, 31);
    assert IsDate(first) && IsDate(last);
    if forall x | IsDate(x) :: InRange(from, to, x) <==> x.y == y {
      assert InRange(from, to, from) && InRange(from, to, to);
      assert InRange(from, to, first) && InRange(from, to, last);
    }
  }

  lemma WholeMonthsCovered(from: Date, to: Date)
    requires IsDate(from) && IsDate(to) && !Before(to, from)
    ensures from.d == 1 && MonthEnd(to) <==>
            forall n | MonthNumber(from) <= n <= MonthNumber(to) :: |Covered(from, to, n)| == |MonthDates(n)|
  {
    hide Segments, DayCount, Covered, MonthDates;
    SegmentCount(from, to);
    forall n | MonthNumber(from) <= n <= MonthNumber(to)
      ensures |Covered(from, to, n)| == |MonthDates(n)| <==> !Before(FirstOf(n), from) && !Before(to, LastOf(n))
    {
      SegmentDaysCounted(from, to, n - MonthNumber(from));
      SegmentShape(from, to, n - MonthNumber(from));
    }
    SameMonth(from, to);
    EndsCovered(from, to);
  }

  lemma EndsCovered(from: Date, to: Date)
    requires IsDate(from) && IsDate(to) && !Before(to, from)
    ensures MonthNumber(from) <= MonthNumber(to)
    ensures from.d == 1 && MonthEnd(to) <==>
            forall n | MonthNumber(from) <= n <= MonthNumber(to) :: !Before(FirstOf(n), from) && !Before(to, LastOf(n))
  {
    SameMonth(from, to);
    MonthFields(from.y, from.m);
    MonthFields(to.y, to.m);
    forall n | MonthNumber(from) <= n <= MonthNumber(to)
      ensures from.d == 1 && MonthEnd(to) ==> !Before(FirstOf(n), from) && !Before(to, LastOf(n))
    {
      MonthOf(n);
      SameMonth(FirstOf(n), from);
      SameMonth(LastOf(n), to);
    }
    hide MonthNumber, DaysInMonth, FirstOf, LastOf;
  }

  predicate ReductionOk(reduction: Reduction) {
    && TypedAmount(reduction.amount)
    && (reduction.Percent? ==> (ShapeReadable(reduction.amount); Hundredths(reduction.amount) <= 10000))
  }

  predicate TermOk(term: Term) {
    Trim(term.category) != "" && TypedAmount(term.monthlyFloor) && ReductionOk(term.maximum)
  }

  /** A row of the form is sound exactly when its category has a name, both amounts may be typed, and a
      percentage is at most 100. */
  lemma TermExactly(term: Term)
    ensures TermOk(term) <==>
            && (exists i :: 0 <= i < |term.category| && !IsSpace(term.category[i]))
            && TypedAmount(term.monthlyFloor) && TypedAmount(term.maximum.amount)
            && (term.maximum.Percent? ==> Readable(term.maximum.amount) && Worth(term.maximum.amount) <= 100.0)
  {
    hide PlainShape, Worth, Hundredths, IsSpace, Trim;
    TrimEmpty(term.category);
    if TypedAmount(term.maximum.amount) {
      ShapeReadable(term.maximum.amount);
      HundredthsExactWhen(term.maximum.amount);
    }
  }

  ghost predicate ValidIntent(intent: Intent, asOf: Date, known: seq<string>) {
    && IsDate(asOf) && InYears(asOf)
    && 1 <= |intent.categories| <= 20
    && NoDup(Labels(intent.categories))
    && TypedAmount(intent.target) && DatesOk(intent.horizon, intent.part, asOf)
    && forall i :: 0 <= i < |intent.categories| ==>
         TermOk(intent.categories[i]) && multiset(known)[intent.categories[i].category] == 1
  }

  /** Row by row, remembering the categories already selected and stopping at the first fault. */
  method ValidateIntent(intent: Intent, asOf: Date, known: seq<string>) returns (ok: bool)
    ensures ok <==> ValidIntent(intent, asOf, known)
  {
    hide TermOk, DatesOk, IsDate, InYears, TypedAmount, ReductionOk, Trim;
    var rows, labels := intent.categories, Labels(intent.categories);
    if !IsDate(asOf) || !InYears(asOf) || |rows| < 1 || |rows| > 20 {
      return false;
    }
    var selected: set<string>, i := {}, 0;
    while i < |rows|
      invariant 0 <= i <= |rows|
      invariant forall x :: x in selected <==> exists k :: 0 <= k < i && labels[k] == x
      invariant NoDup(labels[..i])
      invariant forall k :: 0 <= k < i ==> TermOk(rows[k]) && multiset(known)[rows[k].category] == 1
      invariant i > 0 ==> TypedAmount(intent.target) && DatesOk(intent.horizon, intent.part, asOf)
    {
      var row := rows[i];
      if Trim(row.category) == "" || multiset(known)[row.category] != 1 || row.category in selected {
        assert !TermOk(row) || multiset(known)[row.category] != 1 || !NoDup(labels) by {
          hide NoDup;
          EmptyNotOk(row);
          if row.category in selected { Repeated(labels, i); }
        }
        return false;
      }
      selected := selected + {row.category};
      if !TypedAmount(intent.target) || !DatesOk(intent.horizon, intent.part, asOf)
         || !TypedAmount(row.monthlyFloor) || !ReductionOk(row.maximum) {
        AmountsNotOk(row);
        return false;
      }
      AllOk(row);
      assert labels[..i + 1] == labels[..i] + [labels[i]];
      i := i + 1;
    }
    assert labels[..i] == labels;
    return true;
  }

  lemma EmptyNotOk(row: Term)
    ensures Trim(row.category) == "" ==> !TermOk(row)
  {
  }

  lemma AmountsNotOk(row: Term)
    ensures !TypedAmount(row.monthlyFloor) || !ReductionOk(row.maximum) ==> !TermOk(row)
  {
  }

  lemma AllOk(row: Term)
    requires Trim(row.category) != "" && TypedAmount(row.monthlyFloor) && ReductionOk(row.maximum)
    ensures TermOk(row)
  {
  }

  lemma Repeated(labels: seq<string>, i: nat)
    requires i < |labels| && exists k :: 0 <= k < i && labels[k] == labels[i]
    ensures !NoDup(labels)
  {
  }

  // ---- The usual month ----

  datatype Source = Source(generation: int, sessionRevision: int, localRevision: int, externalRevision: int, asOf: Date)

  const MAX_SAFE_INTEGER: int := 9007199254740991

  predicate Counter(n: int) {
    0 <= n <= MAX_SAFE_INTEGER
  }

  predicate ValidSource(s: Source) {
    && Counter(s.generation) && Counter(s.sessionRevision)
    && Counter(s.localRevision) && Counter(s.externalRevision) && IsDate(s.asOf)
  }

  datatype Coverage = Complete | InProgress | PartialPeriod | PartlyRecorded | BeforeRecords | NoRecords | RecordsEnd

  datatype Month = Month(month: int, total: string, coverage: Coverage)

  datatype Baseline =
    | Recorded(months: seq<Month>, source: Source, shortHistoryAccepted: bool)
    | Manual(monthlyAmount: string, source: Source)

  /** A plain nonnegative decimal within the native coefficient: `^\d+(?:\.\d+)?$`. */
  predicate MonthTotal(text: string) {
    && |text| <= 40 && Readable(text) && Whole(text) != ""
    && ('.' in text ==> Part(text) != "" && text == Whole(text) + "." + Part(text))
    && (DigitsJoined(text); ParseNat(Whole(text) + Part(text)) <= MAX_COEFFICIENT)
  }

  lemma DigitsJoined(text: string)
    requires Readable(text)
    ensures AllDigits(Whole(text) + Part(text))
  {
  }

  predicate SplitsInto(text: string, w: string, p: string) {
    if p == "" then text == w else text == w + "." + p
  }

  /** The text is a run of digits, or two with a point between them, and without the point they fit the
      coefficient. */
  lemma MonthTotalExactly(text: string)
    ensures MonthTotal(text) <==>
            |text| <= 40 && exists w, p | AllDigits(w) && AllDigits(p) && w != "" ::
              SplitsInto(text, w, p) && ParseNat(w + p) <= MAX_COEFFICIENT
  {
    hide ParseNat, IndexOf;
    if MonthTotal(text) {
      var w, p := Whole(text), Part(text);
      if '.' !in text {
        assert text == w && p == "" && w + p == w;
      }
    }
    forall w, p | AllDigits(w) && AllDigits(p) && w != "" && SplitsInto(text, w, p)
      ensures Readable(text) && Whole(text) == w && Part(text) == p
    {
      if p == "" {
        NoPoint(w);
      } else {
        SplitJoin(w, p);
      }
    }
  }

  /** The complete months, oldest first. */
  function Counted(months: seq<Month>): (r: seq<Month>)
    ensures |r| <= |months|
    ensures forall i :: 0 <= i < |r| ==> r[i] in months && r[i].coverage == Complete
  {
    if months == [] then []
    else Counted(months[..|months| - 1])
             + (if months[|months| - 1].coverage == Complete then [months[|months| - 1]] else [])
  }

  function CountedMonths(b: Baseline): nat {
    if b.Manual? then 0 else |Counted(b.months)|
  }

  /** Why a usual month cannot be trusted; with `accepted` the person must also have agreed to a
      history of one or two months. */
  predicate Trusted(b: Baseline, accepted: bool) {
    && ValidSource(b.source)
    && match b
       case Manual(amount, _) => TypedAmount(amount)
       case Recorded(months, source, agreed) =>
         && |months| == 3
         && (forall i :: 0 <= i < 3 ==>
              months[i].month == MonthNumber(source.asOf) - 3 + i && MonthTotal(months[i].total))
         && (accepted && 0 < |Counted(months)| < 3 ==> agreed)
  }

  function TotalOf(months: seq<Month>): Rational
    requires forall m :: m in months ==> Readable(m.total)
  {
    if months == [] then Ratio(0, 1) else Add(TotalOf(months[..|months| - 1]), FromDecimal(months[|months| - 1].total))
  }

  lemma ManualReadable(b: Baseline)
    requires b.Manual? && Trusted(b, false)
    ensures Readable(b.monthlyAmount)
  {
    ShapeReadable(b.monthlyAmount);
  }

  lemma CountedReadable(b: Baseline)
    requires b.Recorded? && Trusted(b, false)
    ensures forall m :: m in Counted(b.months) ==> Readable(m.total)
  {
    forall m | m in Counted(b.months)
      ensures Readable(m.total)
    {
      assert m in b.months;
    }
  }

  /** The average of the complete months, the person's own number, or nothing. */
  function MonthlyBaseline(b: Baseline): Option<Rational>
    requires Trusted(b, false)
  {
    if b.Manual? then
      ManualReadable(b);
      Some(FromDecimal(b.monthlyAmount))
    else
      CountedReadable(b);
      var used := Counted(b.months);
      if used == [] then None else Some(Multiply(TotalOf(used), Fraction(1, |used|)))
  }

  function WorthOf(months: seq<Month>): real
    requires forall m :: m in months ==> Readable(m.total)
  {
    if months == [] then 0.0 else WorthOf(months[..|months| - 1]) + Worth(months[|months| - 1].total)
  }

  lemma {:induction false} TotalIsWorth(months: seq<Month>)
    requires forall m :: m in months ==> Readable(m.total)
    ensures Value(TotalOf(months)) == WorthOf(months)
  {
    hide Value, Add, FromDecimal, Worth;
    if months == [] {
      ValueIs(Ratio(0, 1), 0.0);
    } else {
      TotalIsWorth(months[..|months| - 1]);
      AddValue(TotalOf(months[..|months| - 1]), FromDecimal(months[|months| - 1].total));
      FromDecimalValue(months[|months| - 1].total);
    }
  }

  /** The usual month is the exact mean of the complete months, never rounded. */
  lemma UsualMonthIsTheMean(b: Baseline)
    requires b.Recorded? && Trusted(b, false)
    ensures var used := Counted(b.months);
            (MonthlyBaseline(b).None? <==> used == [])
            && (used != [] ==> Value(MonthlyBaseline(b).value) * |used| as real == WorthOf(used))
  {
    hide Value, Multiply, Fraction, MonthTotal, WorthOf, TotalOf, ValidSource, Counted;
    CountedReadable(b);
    if Counted(b.months) != [] {
      MeanOf(Counted(b.months));
    }
  }

  lemma MeanOf(used: seq<Month>)
    requires used != [] && forall m :: m in used ==> Readable(m.total)
    ensures Value(Multiply(TotalOf(used), Fraction(1, |used|))) * |used| as real == WorthOf(used)
  {
    hide *;
    TotalIsWorth(used);
    MeanValue(TotalOf(used), |used|, WorthOf(used));
  }

  lemma MeanValue(t: Rational, k: nat, w: real)
    requires k > 0 && Value(t) == w
    ensures Value(Multiply(t, Fraction(1, k))) * k as real == w
  {
    hide *;
    var one := Fraction(1, k);
    MultiplyValue(t, one);
    ReducedValue(1, k);
    Mean(w, k as real);
  }

  lemma Mean(w: real, n: real)
    requires n > 0.0
    ensures w * (1.0 / n) * n == w
  {
    assert 1.0 / n * n == 1.0;
    assert w * (1.0 / n) * n == w * (1.0 / n * n);
  }

  // ---- Month by month ----

  /** Which of the months are complete, and what one of them adds to the sum. */
  function CompleteAt(months: seq<Month>): set<nat> {
    set i: nat | i < |months| && months[i].coverage == Complete
  }

  function AddedBy(m: Month): real
    requires Readable(m.total)
  {
    if m.coverage == Complete then Worth(m.total) else 0.0
  }

  lemma {:induction false} CountedAt(months: seq<Month>)
    ensures |Counted(months)| == |CompleteAt(months)|
  {
    if months == [] {
      assert CompleteAt(months) == {};
    } else {
      var n := |months| - 1;
      CountedAt(months[..n]);
      var before := CompleteAt(months[..n]);
      assert n !in before;
      assert CompleteAt(months) == before + if months[n].coverage == Complete then {n} else {};
    }
  }

  lemma CountedPush(front: seq<Month>, m: Month)
    ensures Counted(front + [m]) == Counted(front) + if m.coverage == Complete then [m] else []
  {
    assert (front + [m])[..|front|] == front;
  }

  lemma WorthPush(used: seq<Month>, m: Month)
    requires Readable(m.total) && forall x :: x in used ==> Readable(x.total)
    ensures WorthOf(used + [m]) == WorthOf(used) + Worth(m.total)
  {
    hide Worth, Readable;
    assert (used + [m])[..|used|] == used;
  }

  lemma OneMonthMore(front: seq<Month>, m: Month)
    requires Readable(m.total) && forall x :: x in Counted(front) ==> Readable(x.total)
    ensures forall x :: x in Counted(front + [m]) ==> Readable(x.total)
    ensures WorthOf(Counted(front + [m])) == WorthOf(Counted(front)) + AddedBy(m)
  {
    hide *;
    CountedPush(front, m);
    AddedWhen(m);
    if m.coverage == Complete {
      WorthPush(Counted(front), m);
    } else {
      assert Counted(front) + [] == Counted(front);
    }
  }

  lemma AddedWhen(m: Month)
    requires Readable(m.total)
    ensures AddedBy(m) == if m.coverage == Complete then Worth(m.total) else 0.0
  {
    hide Worth;
  }

  lemma ThreeMonths(m: seq<Month>)
    requires |m| == 3 && forall i :: 0 <= i < 3 ==> Readable(m[i].total)
    ensures forall x :: x in Counted(m) ==> Readable(x.total)
    ensures WorthOf(Counted(m)) == AddedBy(m[0]) + AddedBy(m[1]) + AddedBy(m[2])
  {
    NothingCounted();
    hide Counted, WorthOf, AddedBy, Readable;
    OneMonthMore([], m[0]);
    OneMonthMore([] + [m[0]], m[1]);
    OneMonthMore(([] + [m[0]]) + [m[1]], m[2]);
    assert m == (([] + [m[0]]) + [m[1]]) + [m[2]];
  }

  /** The usual month, month by month: the exact mean of the totals of those of the three months that are
      complete, and none when none is. */
  lemma UsualMonthByMonth(b: Baseline)
    requires b.Recorded? && Trusted(b, false)
    ensures |b.months| == 3 && forall i :: 0 <= i < 3 ==> Readable(b.months[i].total)
    ensures MonthlyBaseline(b).None? <==> forall i :: 0 <= i < 3 ==> b.months[i].coverage != Complete
    ensures MonthlyBaseline(b).Some? ==>
              Value(MonthlyBaseline(b).value) * |CompleteAt(b.months)| as real
                == AddedBy(b.months[0]) + AddedBy(b.months[1]) + AddedBy(b.months[2])
  {
    hide *;
    TotalsReadable(b);
    UsualMonthIsTheMean(b);
    CountedReadable(b);
    CountedAt(b.months);
    NoneComplete(b.months);
    ThreeMonths(b.months);
  }

  lemma NoneComplete(months: seq<Month>)
    requires |months| == 3
    ensures |CompleteAt(months)| == 0 <==> forall i :: 0 <= i < 3 ==> months[i].coverage != Complete
  {
    if i: nat :| i < 3 && months[i].coverage == Complete {
      assert i in CompleteAt(months);
    } else {
      assert CompleteAt(months) == {};
    }
  }

  lemma NothingCounted()
    ensures Counted([]) == [] && WorthOf([]) == 0.0
  {
  }

  lemma TotalsReadable(b: Baseline)
    requires b.Recorded? && Trusted(b, false)
    ensures |b.months| == 3 && forall i :: 0 <= i < 3 ==> Readable(b.months[i].total)
  {
    hide Readable, ParseNat;
  }

  /** A usual month is trusted exactly when its source has safe counters and a real date, and it is an
      amount that may be typed, or the three months before the month of that date with readable totals;
      with `accepted`, one or two complete months also need the person's agreement. */
  lemma TrustedExactly(b: Baseline, accepted: bool)
    ensures Trusted(b, accepted) <==>
            && IsDate(b.source.asOf)
            && 0 <= b.source.generation < 0x20_0000_0000_0000 && 0 <= b.source.sessionRevision < 0x20_0000_0000_0000
            && 0 <= b.source.localRevision < 0x20_0000_0000_0000
            && 0 <= b.source.externalRevision < 0x20_0000_0000_0000
            && (b.Manual? ==> TypedAmount(b.monthlyAmount))
            && (b.Recorded? ==>
                  && |b.months| == 3 && b.months[2].month + 1 == MonthNumber(b.source.asOf)
                  && b.months[1].month + 1 == b.months[2].month && b.months[0].month + 1 == b.months[1].month
                  && (forall m :: m in b.months ==> MonthTotal(m.total))
                  && (accepted && |CompleteAt(b.months)| in {1, 2} ==> b.shortHistoryAccepted))
  {
    hide TypedAmount, MonthTotal, IsDate, MonthNumber, Counted, CompleteAt;
    if b.Recorded? {
      CountedAt(b.months);
      var m := b.months;
      if |m| == 3 {
        assert forall i :: 0 <= i < 3 ==> m[i] in m;
        assert forall x :: x in m ==> x == m[0] || x == m[1] || x == m[2];
      }
    }
  }
}
