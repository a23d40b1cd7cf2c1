/** Calendar dates and the months a range of dates touches. */
module Calendar {

  datatype Date = Date(y: nat, m: nat, d: nat)

  predicate Leap(y: nat) {
    (y % 4 == 0 && y % 100 != 0) || y % 400 == 0
  }

  function DaysInMonth(y: nat, m: nat): (n: nat)
    requires 1 <= m <= 12
    ensures 28 <= n <= 31
  {
    if m == 2 then (if Leap(y) then 29 else 28) else if m in {4, 6, 9, 11} then 30 else 31
  }

  predicate IsDate(x: Date) {
    x.y <= 9999 && 1 <= x.m <= 12 && 1 <= x.d <= DaysInMonth(x.y, x.m)
  }

  /** The order of dates, which is the order of their `YYYY-MM-DD` texts. */
  predicate Before(a: Date, b: Date) {
    a.y < b.y || (a.y == b.y && (a.m < b.m || (a.m == b.m && a.d < b.d)))
  }

  function MonthNumber(x: Date): int {
    x.y * 12 + x.m - 1
  }

  function FirstOf(n: nat): Date {
    Date(n / 12, n % 12 + 1, 1)
  }

  function LastOf(n: nat): Date {
    Date(n / 12, n % 12 + 1, DaysInMonth(n / 12, n % 12 + 1))
  }

  predicate MonthEnd(x: Date)
    requires IsDate(x)
  {
    x.d == DaysInMonth(x.y, x.m)
  }

  /** The part of one month that lies inside a range. */
  datatype Segment = Segment(from: Date, to: Date)

  function SegmentOf(from: Date, to: Date, n: nat): Segment {
    Segment(if Before(FirstOf(n), from) then from else FirstOf(n), if Before(to, LastOf(n)) then to else LastOf(n))
  }

  function Segments(from: Date, to: Date): seq<Segment>
    requires IsDate(from) && IsDate(to)
  {
    var count := MonthNumber(to) - MonthNumber(from) + 1;
    seq(if count < 0 then 0 else count, k requires 0 <= k => SegmentOf(from, to, MonthNumber(from) + k))
  }

  /** Days since a fixed day, by the arithmetic of the Gregorian calendar: years start in March here, so
      that leap days come last. */
  function DayNumber(x: Date): int {
    if x.m <= 2 then YearStart(x.y - 1) + MonthStart(x.m + 9) + x.d - 1
    else YearStart(x.y) + MonthStart(x.m - 3) + x.d - 1
  }

  function YearStart(y: int): int {
    365 * y + y / 4 - y / 100 + y / 400
  }

  /** Days before the m-th month after March: 31, 30, 31, 30, 31, and so again. */
  function MonthStart(m: int): int {
    (153 * m + 2) / 5
  }

  /** The inclusive number of days of a range: the difference of its day numbers and one. */
  function DayCount(s: Segment): int {
    DayNumber(s.to) - DayNumber(s.from) + 1
  }

  /** Month by month, with the year turning over after December. */
  method MonthsTouching(from: Date, to: Date) returns (out: seq<Segment>)
    requires IsDate(from) && IsDate(to)
    ensures out == Segments(from, to)
  {
    out := [];
    var y, m := from.y, from.m;
    while y < to.y || (y == to.y && m <= to.m)
      invariant 1 <= m <= 12
      invariant y * 12 + m - 1 == MonthNumber(from) + |out|
      invariant |out| <= |Segments(from, to)|
      invariant out == Segments(from, to)[..|out|]
      decreases MonthNumber(to) - (y * 12 + m - 1) + 1
    {
      hide Segments, DaysInMonth, FirstOf, LastOf, Before;
      var start, end := Date(y, m, 1), Date(y, m, DaysInMonth(y, m));
      var piece := Segment(if Before(start, from) then from else start, if Before(to, end) then to else end);
      OneMoreSegment(from, to, y, m, |out|);
      out := out + [piece];
      if m == 12 {
        y, m := y + 1, 1;
      } else {
        m := m + 1;
      }
    }
  }

  lemma OneMoreSegment(from: Date, to: Date, y: nat, m: nat, k: nat)
    requires IsDate(from) && IsDate(to) && 1 <= m <= 12 && y * 12 + m - 1 == MonthNumber(from) + k <= MonthNumber(to)
    ensures var start, end := Date(y, m, 1), Date(y, m, DaysInMonth(y, m));
            k < |Segments(from, to)|
            && Segments(from, to)[k] == Segment(if Before(start, from) then from else start,
                                                if Before(to, end) then to else end)
            && Segments(from, to)[..k + 1] == Segments(from, to)[..k] + [Segments(from, to)[k]]
  {
    MonthFields(y, m);
    SegmentAt(from, to, k);
    hide Segments, DaysInMonth, FirstOf, LastOf, Before, MonthNumber;
  }

  lemma MonthFields(y: nat, m: nat)
    requires 1 <= m <= 12
    ensures FirstOf(y * 12 + m - 1) == Date(y, m, 1) && LastOf(y * 12 + m - 1) == Date(y, m, DaysInMonth(y, m))
  {
  }

  lemma SegmentAt(from: Date, to: Date, k: nat)
    requires IsDate(from) && IsDate(to) && MonthNumber(from) + k <= MonthNumber(to)
    ensures k < |Segments(from, to)| && Segments(from, to)[k] == SegmentOf(from, to, MonthNumber(from) + k)
  {
  }

  predicate In(s: Segment, x: Date) {
    !Before(x, s.from) && !Before(s.to, x)
  }

  lemma MonthOf(n: nat)
    ensures MonthNumber(FirstOf(n)) == n && MonthNumber(LastOf(n)) == n
  {
  }

  lemma SameMonth(a: Date, b: Date)
    requires 1 <= a.m <= 12 && 1 <= b.m <= 12
    ensures MonthNumber(a) == MonthNumber(b) <==> a.y == b.y && a.m == b.m
    ensures MonthNumber(a) < MonthNumber(b) <==> a.y < b.y || (a.y == b.y && a.m < b.m)
  {
  }

  /** Every segment is a run of real days inside its own month, and is the whole month exactly when the
      range covers that month. */
  lemma SegmentShape(from: Date, to: Date, k: nat)
    requires IsDate(from) && IsDate(to) && !Before(to, from) && k < |Segments(from, to)|
    ensures var s := Segments(from, to)[k];
            1 <= s.from.m <= 12 && s.from.y == s.to.y && s.from.m == s.to.m
            && MonthNumber(s.from) == MonthNumber(from) + k
    ensures var s := Segments(from, to)[k];
            1 <= s.from.m <= 12 && 1 <= s.from.d <= s.to.d <= DaysInMonth(s.from.y, s.from.m)
    ensures var s := Segments(from, to)[k];
            1 <= s.from.m <= 12
            && (DayCount(s) == DaysInMonth(s.from.y, s.from.m) <==>
                !Before(FirstOf(MonthNumber(from) + k), from) && !Before(to, LastOf(MonthNumber(from) + k)))
  {
    SegmentBounds(from, to, k);
    var s := Segments(from, to)[k];
    assert DayCount(s) == s.to.d - s.from.d + 1 by { SameMonthDays(s.from, s.to); }
    hide *;
  }

  lemma SegmentBounds(from: Date, to: Date, k: nat)
    requires IsDate(from) && IsDate(to) && !Before(to, from) && k < |Segments(from, to)|
    ensures var s := Segments(from, to)[k];
            1 <= s.from.m <= 12 && s.from.y == s.to.y && s.from.m == s.to.m
            && MonthNumber(s.from) == MonthNumber(from) + k
    ensures var s := Segments(from, to)[k];
            1 <= s.from.m <= 12 && 1 <= s.from.d <= s.to.d <= DaysInMonth(s.from.y, s.from.m)
    ensures var s := Segments(from, to)[k];
            1 <= s.from.m <= 12
            && (s.to.d - s.from.d + 1 == DaysInMonth(s.from.y, s.from.m) <==>
                !Before(FirstOf(MonthNumber(from) + k), from) && !Before(to, LastOf(MonthNumber(from) + k)))
  {
    var n := MonthNumber(from) + k;
    MonthOf(n);
    SegmentAt(from, to, k);
    var first, last := FirstOf(n), LastOf(n);
    SameMonth(first, from);
    SameMonth(last, to);
    SameMonth(from, to);
    hide Segments, MonthNumber, DaysInMonth;
  }

  /** A range of whole months covers each month it touches. */
  lemma WholeRange(from: Date, to: Date, k: nat)
    requires IsDate(from) && IsDate(to) && !Before(to, from) && k < |Segments(from, to)|
    requires from.d == 1 && MonthEnd(to)
    ensures var s := Segments(from, to)[k]; 1 <= s.from.m <= 12 && DayCount(s) == DaysInMonth(s.from.y, s.from.m)
  {
    SegmentShape(from, to, k);
    var n := MonthNumber(from) + k;
    MonthOf(n);
    hide Segments;
    SameMonth(FirstOf(n), from);
    SameMonth(LastOf(n), to);
    SameMonth(from, to);
  }

  /** Every day of the range is in exactly one segment, the one of its own month, and no other day is
      in any. */
  lemma EveryDayOnce(from: Date, to: Date, x: Date)
    requires IsDate(from) && IsDate(to) && IsDate(x) && !Before(to, from)
    ensures !Before(x, from) && !Before(to, x) <==>
            var k := MonthNumber(x) - MonthNumber(from); 0 <= k < |Segments(from, to)| && In(Segments(from, to)[k], x)
    ensures forall k :: 0 <= k < |Segments(from, to)| && In(Segments(from, to)[k], x)
                    ==> k == MonthNumber(x) - MonthNumber(from)
  {
    hide Segments, DaysInMonth;
    var own := MonthNumber(x) - MonthNumber(from);
    forall k | 0 <= k < |Segments(from, to)| && In(Segments(from, to)[k], x)
      ensures k == own
    {
      SegmentShape(from, to, k);
      SameMonth(x, Segments(from, to)[k].from);
    }
    InOwnSegment(from, to, x);
  }

  lemma InOwnSegment(from: Date, to: Date, x: Date)
    requires IsDate(from) && IsDate(to) && IsDate(x) && !Before(to, from)
    ensures !Before(x, from) && !Before(to, x) <==>
            var k := MonthNumber(x) - MonthNumber(from); 0 <= k < |Segments(from, to)| && In(Segments(from, to)[k], x)
  {
    var own := MonthNumber(x) - MonthNumber(from);
    MonthsOfRange(from, to, x);
    SegmentCount(from, to);
    hide Segments, SegmentOf, In, Before, IsDate, MonthNumber;
    if 0 <= own < |Segments(from, to)| {
      SegmentAt(from, to, own);
      InMonthPart(from, to, x);
    }
  }

  lemma MonthsOfRange(from: Date, to: Date, x: Date)
    requires IsDate(from) && IsDate(to) && IsDate(x)
    ensures !Before(x, from) ==> MonthNumber(from) <= MonthNumber(x)
    ensures !Before(to, x) ==> MonthNumber(x) <= MonthNumber(to)
  {
    hide DaysInMonth;
    SameMonth(x, from);
    SameMonth(to, x);
  }

  lemma SegmentCount(from: Date, to: Date)
    requires IsDate(from) && IsDate(to)
    ensures var count := MonthNumber(to) - MonthNumber(from) + 1;
            |Segments(from, to)| == if count < 0 then 0 else count
  {
  }

  /** The part of x's month that lies in a range holds x exactly when the range does. */
  lemma InMonthPart(from: Date, to: Date, x: Date)
    requires IsDate(x)
    ensures In(SegmentOf(from, to, MonthNumber(x)), x) <==> !Before(x, from) && !Before(to, x)
  {
    var n := MonthNumber(x);
    MonthFields(x.y, x.m);
    InOwnMonth(x);
    hide FirstOf, LastOf, Before;
    LaterStart(FirstOf(n), from, x);
    EarlierEnd(LastOf(n), to, x);
  }

  lemma InOwnMonth(x: Date)
    requires IsDate(x)
    ensures !Before(x, Date(x.y, x.m, 1)) && !Before(Date(x.y, x.m, DaysInMonth(x.y, x.m)), x)
  {
    hide DaysInMonth;
  }

  lemma LaterStart(a: Date, b: Date, x: Date)
    ensures !Before(x, if Before(a, b) then b else a) <==> !Before(x, a) && !Before(x, b)
  {
  }

  lemma EarlierEnd(a: Date, b: Date, x: Date)
    ensures !Before(if Before(b, a) then b else a, x) <==> !Before(a, x) && !Before(b, x)
  {
  }

  // ---- Days counted one by one ----

  /** The months have the lengths that the arithmetic of the calendar gives them, leap years included. */
  lemma MonthLength(y: nat, m: nat)
    requires 1 <= m <= 12
    ensures DayNumber(if m == 12 then Date(y + 1, 1, 1) else Date(y, m + 1, 1)) - DayNumber(Date(y, m, 1))
         == DaysInMonth(y, m)
  {
    hide YearStart, Leap;
    if m == 2 {
      YearLength(y);
    }
  }

  lemma YearLength(y: nat)
    ensures YearStart(y) - YearStart(y - 1) == if Leap(y) then 366 else 365
  {
    OneMultiple(y, 4);
    OneMultiple(y, 100);
    OneMultiple(y, 400);
    Multiples(y);
    YearParts(y);
    YearParts(y - 1);
    hide YearStart, Quotient;
  }

  function Quotient(y: int, k: nat): int
    requires k > 0
  {
    y / k
  }

  lemma YearParts(y: int)
    ensures YearStart(y) == 365 * y + Quotient(y, 4) - Quotient(y, 100) + Quotient(y, 400)
  {
  }

  lemma OneMultiple(y: nat, k: nat)
    requires k in {4, 100, 400}
    ensures Quotient(y, k) - Quotient(y - 1, k) == if y % k == 0 then 1 else 0
  {
  }

  lemma Multiples(y: nat)
    ensures y % 100 == 0 ==> y % 4 == 0
    ensures y % 400 == 0 ==> y % 100 == 0
  {
    if y % 100 == 0 {
      FourTimes(25 * (y / 100));
    }
    if y % 400 == 0 {
      HundredTimes(4 * (y / 400));
    }
  }

  lemma FourTimes(q: nat)
    ensures (4 * q) % 4 == 0
  {
  }

  lemma HundredTimes(q: nat)
    ensures (100 * q) % 100 == 0
  {
  }

  lemma SameMonthDays(a: Date, b: Date)
    requires a.y == b.y && a.m == b.m
    ensures DayNumber(b) - DayNumber(a) == b.d - a.d
  {
  }

  /** The dates of month n of the calendar, and those of them that a range covers. */
  ghost function MonthDates(n: nat): set<Date> {
    set d: nat | d <= 31 && IsDate(DayOf(n, d)) :: DayOf(n, d)
  }

  function DayOf(n: nat, d: nat): Date {
    Date(n / 12, n % 12 + 1, d)
  }

  ghost function Covered(from: Date, to: Date, n: nat): set<Date> {
    set x | x in MonthDates(n) && !Before(x, from) && !Before(to, x)
  }

  ghost function DatesOf(y: nat, m: nat, a: nat, b: nat): set<Date> {
    set d: nat | a <= d <= b :: Date(y, m, d)
  }

  lemma {:induction false} DatesCounted(y: nat, m: nat, a: nat, b: nat)
    requires 1 <= a <= b + 1
    ensures |DatesOf(y, m, a, b)| == b + 1 - a
    decreases b + 1 - a
  {
    if a == b + 1 {
      assert DatesOf(y, m, a, b) == {};
    } else {
      DatesCounted(y, m, a, b - 1);
      assert DatesOf(y, m, a, b) == DatesOf(y, m, a, b - 1) + {Date(y, m, b)};
    }
  }

  /** The length of a month of the calendar is the number of its dates. */
  lemma MonthDatesCounted(n: nat)
    requires n / 12 <= 9999
    ensures |MonthDates(n)| == DaysInMonth(n / 12, n % 12 + 1)
  {
    var y, m := n / 12, n % 12 + 1;
    DatesCounted(y, m, 1, DaysInMonth(y, m));
    DatesOfMonth(n);
  }

  lemma DatesOfMonth(n: nat)
    ensures forall x :: x in MonthDates(n) <==> IsDate(x) && x.y == n / 12 && x.m == n % 12 + 1
    ensures n / 12 <= 9999 ==> MonthDates(n) == DatesOf(n / 12, n % 12 + 1, 1, DaysInMonth(n / 12, n % 12 + 1))
  {
    forall x | IsDate(x) && x.y == n / 12 && x.m == n % 12 + 1
      ensures x in MonthDates(n)
    {
      assert x == DayOf(n, x.d);
    }
  }

  /** The days of a segment are as many as the dates of its month that the range covers. */
  lemma SegmentDaysCounted(from: Date, to: Date, k: nat)
    requires IsDate(from) && IsDate(to) && !Before(to, from) && k < |Segments(from, to)|
    ensures |Covered(from, to, MonthNumber(from) + k)| == DayCount(Segments(from, to)[k]) >= 1
    ensures var s := Segments(from, to)[k];
            1 <= s.from.m <= 12 && |MonthDates(MonthNumber(from) + k)| == DaysInMonth(s.from.y, s.from.m)
  {
    var n, part := MonthNumber(from) + k, Segments(from, to)[k];
    SegmentMonth(from, to, k);
    hide *;
    MonthDatesCounted(n);
    PartCounted(from, to, n, part);
  }

  lemma PartCounted(from: Date, to: Date, n: nat, part: Segment)
    requires n / 12 <= 9999 && part == SegmentOf(from, to, n)
    requires part.from.y == part.to.y == n / 12 && part.from.m == part.to.m == n % 12 + 1
    requires 1 <= part.from.d <= part.to.d <= DaysInMonth(n / 12, n % 12 + 1)
    ensures |Covered(from, to, n)| == DayCount(part) >= 1
  {
    SameMonthDays(part.from, part.to);
    DatesCounted(part.from.y, part.from.m, part.from.d, part.to.d);
    CoveredDates(from, to, n, part);
    hide Covered, DatesOf, SegmentOf, DaysInMonth, DayNumber;
  }

  lemma SegmentMonth(from: Date, to: Date, k: nat)
    requires IsDate(from) && IsDate(to) && !Before(to, from) && k < |Segments(from, to)|
    ensures var n, s := MonthNumber(from) + k, Segments(from, to)[k];
            && n / 12 <= 9999 && s == SegmentOf(from, to, n)
            && s.from.y == s.to.y == n / 12 && s.from.m == s.to.m == n % 12 + 1
            && 1 <= s.from.d <= s.to.d <= DaysInMonth(n / 12, n % 12 + 1)
  {
    var n, s := MonthNumber(from) + k, Segments(from, to)[k];
    SegmentShape(from, to, k);
    SegmentCount(from, to);
    SegmentAt(from, to, k);
    YearWithin(from, to, n);
    MonthOf(n);
    SameMonth(s.from, FirstOf(n));
    hide Segments, SegmentOf, IsDate, Before, MonthNumber, DaysInMonth;
  }

  lemma YearWithin(from: Date, to: Date, n: nat)
    requires IsDate(from) && IsDate(to) && n <= MonthNumber(to)
    ensures n / 12 <= 9999
  {
  }

  lemma CoveredDates(from: Date, to: Date, n: nat, part: Segment)
    requires n / 12 <= 9999 && part == SegmentOf(from, to, n)
    requires part.from.y == part.to.y == n / 12 && part.from.m == part.to.m == n % 12 + 1
    requires 1 <= part.from.d && part.to.d <= DaysInMonth(n / 12, n % 12 + 1)
    ensures Covered(from, to, n) == DatesOf(part.from.y, part.from.m, part.from.d, part.to.d)
  {
    var y, m := n / 12, n % 12 + 1;
    forall x | IsDate(x) && x.y == y && x.m == m
      ensures !Before(x, from) && !Before(to, x) <==> part.from.d <= x.d <= part.to.d
    {
      InMonthPart(from, to, x);
      assert MonthNumber(x) == n;
    }
    DatesOfMonth(n);
    hide MonthDates, SegmentOf, Before;
    assert forall x :: x in Covered(from, to, n) <==>
                       IsDate(x) && x.y == y && x.m == m && part.from.d <= x.d <= part.to.d;
  }

  function LengthOf(n: nat): (l: nat)
    ensures 28 <= l <= 31
  {
    DaysInMonth(n / 12, n % 12 + 1)
  }

  lemma MonthsApart(n: nat)
    ensures DayNumber(FirstOf(n + 1)) - DayNumber(FirstOf(n)) == LengthOf(n)
  {
    MonthLength(n / 12, n % 12 + 1);
    NextMonth(n);
    hide DayNumber, DaysInMonth;
  }

  lemma NextMonth(n: nat)
    ensures var y, m := n / 12, n % 12 + 1; FirstOf(n + 1) == if m == 12 then Date(y + 1, 1, 1) else Date(y, m + 1, 1)
  {
  }

  lemma {:induction false} LaterMonths(a: nat, b: nat)
    requires a < b
    ensures DayNumber(FirstOf(a)) + LengthOf(a) <= DayNumber(FirstOf(b))
    decreases b - a
  {
    hide DayNumber, FirstOf, LengthOf;
    MonthsApart(b - 1);
    if a == b - 1 {
    } else {
      LaterMonths(a, b - 1);
    }
  }

  lemma DayWithinMonth(x: Date)
    requires IsDate(x)
    ensures MonthNumber(x) >= 0
    ensures DayNumber(x) == DayNumber(FirstOf(MonthNumber(x))) + x.d - 1 && 1 <= x.d <= LengthOf(MonthNumber(x))
  {
    MonthFields(x.y, x.m);
    SameMonthDays(Date(x.y, x.m, 1), x);
    hide DayNumber, FirstOf;
  }

  /** Day numbers order dates as dates are ordered. */
  lemma DayNumbersOrder(a: Date, b: Date)
    requires IsDate(a) && IsDate(b)
    ensures Before(a, b) <==> DayNumber(a) < DayNumber(b)
  {
    DayWithinMonth(a);
    DayWithinMonth(b);
    BeforeByMonth(a, b);
    hide *;
    if MonthNumber(a) < MonthNumber(b) {
      LaterMonths(MonthNumber(a), MonthNumber(b));
    } else if MonthNumber(b) < MonthNumber(a) {
      LaterMonths(MonthNumber(b), MonthNumber(a));
    }
  }

  lemma BeforeByMonth(a: Date, b: Date)
    requires IsDate(a) && IsDate(b)
    ensures Before(a, b) <==> MonthNumber(a) < MonthNumber(b) || (MonthNumber(a) == MonthNumber(b) && a.d < b.d)
  {
    SameMonth(a, b);
    hide MonthNumber, DaysInMonth;
  }
}
