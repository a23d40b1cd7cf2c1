/** The review step before a savings-target preview: each category's usual month is settled, its floor
    is compared with it exactly, and the confirm button is enabled only when everything fits. */
module CutGate {
  import opened Options
  import opened Sequences
  import opened CentsText
  import opened Ratios
  import opened CutTerms
  import opened CutPreview
  import opened CutPreviewLaws

  datatype HistoryKind = UseRecorded | OwnAmount

  datatype HistoryChoice = HistoryChoice(kind: Option<HistoryKind>, amount: string)

  /** What is being reviewed: the intent, the usual months as they were read, and their source. */
  datatype Review = Review(intent: Intent, baselines: seq<Chosen>, source: Source)

  datatype Problem = SourceChanged | NoUsualMonth | FloorTooHigh

  datatype Outcome = Stopped(problem: Problem) | Passed(chosen: Baseline, floorTooHigh: bool)

  /** The usual month to calculate with: the person's own amount, a full history as it is, a short one
      only when the person agreed to it, otherwise nothing yet. */
  function Choose(read: Baseline, choice: Option<HistoryChoice>, source: Source): Option<Baseline> {
    if choice.Some? && choice.value.kind == Some(OwnAmount) then Some(Manual(Trim(choice.value.amount), source))
    else if read.Manual? then Some(read)
    else if CountedMonths(read) == 3 then Some(read)
    else if CountedMonths(read) > 0 && choice.Some? && choice.value.kind == Some(UseRecorded)
    then Some(read.(shortHistoryAccepted := true))
    else None
  }

  function TermFor(terms: seq<Term>, category: string): (r: Option<Term>)
    ensures r.Some? ==> r.value in terms && r.value.category == category
    ensures r.None? <==> category !in Labels(terms)
  {
    if terms == [] then None
    else
      assert terms == [terms[0]] + terms[1..];
      LabelsCons(terms);
      if terms[0].category == category then Some(terms[0]) else TermFor(terms[1..], category)
  }

  lemma LabelsCons(terms: seq<Term>)
    requires terms != []
    ensures Labels(terms) == [terms[0].category] + Labels(terms[1..])
  {
  }

  /** The floor, in hundredths, against the usual month: `floor * denominator > numerator * 100`. */
  predicate FloorAbove(term: Term, usual: Rational)
    requires TermOk(term)
  {
    TermReadable(term);
    Hundredths(term.monthlyFloor) * usual.d > usual.n * 100
  }

  function OutcomeOf(r: Review, history: map<string, HistoryChoice>, valid: bool, row: Chosen): Outcome
    requires valid ==> forall t :: t in r.intent.categories ==> TermOk(t)
  {
    if row.baseline.source != r.source || !Trusted(row.baseline, false) then Stopped(SourceChanged)
    else
      var choice := if row.category in history then Some(history[row.category]) else None;
      var chosen := Choose(row.baseline, choice, r.source);
      if chosen.None? || !Trusted(chosen.value, true) then Stopped(NoUsualMonth)
      else
        var term, usual := TermFor(r.intent.categories, row.category), MonthlyBaseline(chosen.value);
        Passed(chosen.value, valid && term.Some? && usual.Some? && FloorAbove(term.value, usual.value))
  }

  function ChoicesOf(r: Review, history: map<string, HistoryChoice>, valid: bool, rows: seq<Chosen>): seq<Chosen>
    requires valid ==> forall t :: t in r.intent.categories ==> TermOk(t)
  {
    if rows == [] then []
    else
      var last := rows[|rows| - 1];
      var outcome := OutcomeOf(r, history, valid, last);
      ChoicesOf(r, history, valid, rows[..|rows| - 1])
      + if outcome.Passed? then [Chosen(last.category, outcome.chosen)] else []
  }

  function ProblemsOf(r: Review, history: map<string, HistoryChoice>, valid: bool, rows: seq<Chosen>)
      : map<string, Problem>
    requires valid ==> forall t :: t in r.intent.categories ==> TermOk(t)
  {
    if rows == [] then map[]
    else
      var last, before := rows[|rows| - 1], ProblemsOf(r, history, valid, rows[..|rows| - 1]);
      match OutcomeOf(r, history, valid, last)
      case Stopped(problem) => before[last.category := problem]
      case Passed(_, tooHigh) => if tooHigh then before[last.category := FloorTooHigh] else before
  }

  ghost predicate Valid(r: Review) {
    ValidIntent(r.intent, r.source.asOf, Labels(r.intent.categories))
  }

  lemma ValidTerms(r: Review)
    ensures Valid(r) ==> forall t :: t in r.intent.categories ==> TermOk(t)
  {
    hide TermOk, TypedAmount, DatesOk, NoDup;
  }

  ghost function Choices(r: Review, history: map<string, HistoryChoice>): seq<Chosen> {
    ValidTerms(r);
    ChoicesOf(r, history, Valid(r), r.baselines)
  }

  ghost function Problems(r: Review, history: map<string, HistoryChoice>): map<string, Problem> {
    ValidTerms(r);
    ProblemsOf(r, history, Valid(r), r.baselines)
  }

  /** The confirm button. */
  predicate Enabled(valid: bool, problems: map<string, Problem>, choices: seq<Chosen>, terms: seq<Term>) {
    && valid && |problems| == 0 && |choices| == |terms|
    && |Elems(Categories(choices))| == |choices|
    && forall i :: 0 <= i < |terms| ==> terms[i].category in Categories(choices)
  }

  ghost predicate CanConfirm(r: Review, history: map<string, HistoryChoice>) {
    Enabled(Valid(r), Problems(r, history), Choices(r, history), r.intent.categories)
  }

  lemma TrustedAtLeast(b: Baseline)
    requires Trusted(b, true)
    ensures Trusted(b, false)
  {
  }

  lemma NoRows(r: Review, history: map<string, HistoryChoice>)
    ensures ChoicesOf(r, history, false, []) == [] && ProblemsOf(r, history, false, []) == map[]
    ensures Valid(r) ==> (ValidTerms(r); ChoicesOf(r, history, true, []) == []
            && ProblemsOf(r, history, true, []) == map[])
  {
    hide ValidIntent;
  }

  lemma OneRow(r: Review, history: map<string, HistoryChoice>, valid: bool, i: nat)
    requires valid ==> forall t :: t in r.intent.categories ==> TermOk(t)
    requires i < |r.baselines|
    ensures var row, outcome := r.baselines[i], OutcomeOf(r, history, valid, r.baselines[i]);
            ChoicesOf(r, history, valid, r.baselines[..i + 1])
            == ChoicesOf(r, history, valid, r.baselines[..i])
               + if outcome.Passed? then [Chosen(row.category, outcome.chosen)] else []
    ensures var row, outcome := r.baselines[i], OutcomeOf(r, history, valid, r.baselines[i]);
            var before := ProblemsOf(r, history, valid, r.baselines[..i]);
            ProblemsOf(r, history, valid, r.baselines[..i + 1])
            == if outcome.Stopped? then before[row.category := outcome.problem]
               else if outcome.floorTooHigh then before[row.category := FloorTooHigh] else before
  {
    hide OutcomeOf, TermOk;
    assert r.baselines[..i + 1][..i] == r.baselines[..i];
  }

  /** The loop that fills the choices and the problems. */
  method Gate(r: Review, history: map<string, HistoryChoice>)
    returns (choices: seq<Chosen>, problems: map<string, Problem>, enabled: bool)
    ensures choices == Choices(r, history) && problems == Problems(r, history)
    ensures enabled <==> CanConfirm(r, history)
  {
    hide ValidIntent, Trusted, MonthlyBaseline, Choose, TermFor, FloorAbove, TermOk, CountedMonths, ChoicesOf,
         ProblemsOf;
    NoRows(r, history);
    ValidTerms(r);
    var valid := ValidateIntent(r.intent, r.source.asOf, Labels(r.intent.categories));
    choices, problems := [], map[];
    var i := 0;
    while i < |r.baselines|
      invariant 0 <= i <= |r.baselines|
      invariant choices == ChoicesOf(r, history, valid, r.baselines[..i])
      invariant problems == ProblemsOf(r, history, valid, r.baselines[..i])
    {
      var row := r.baselines[i];
      OneRow(r, history, valid, i);
      i := i + 1;
      if row.baseline.source != r.source || !Trusted(row.baseline, false) {
        problems := problems[row.category := SourceChanged];
        continue;
      }
      var choice := if row.category in history then Some(history[row.category]) else None;
      var chosen := Choose(row.baseline, choice, r.source);
      if chosen.None? || !Trusted(chosen.value, true) {
        problems := problems[row.category := NoUsualMonth];
        continue;
      }
      TrustedAtLeast(chosen.value);
      var term, usual := TermFor(r.intent.categories, row.category), MonthlyBaseline(chosen.value);
      if valid && term.Some? && usual.Some? && FloorAbove(term.value, usual.value) {
        problems := problems[row.category := FloorTooHigh];
      }
      choices := choices + [Chosen(row.category, chosen.value)];
    }
    assert r.baselines[..i] == r.baselines;
    enabled := Enabled(valid, problems, choices, r.intent.categories);
  }

  // ---- Counting ----

  lemma {:induction false} SetSize(s: seq<string>)
    ensures |Elems(s)| <= |s|
    ensures |Elems(s)| == |s| <==> NoDup(s)
  {
    if s == [] {
      assert Elems(s) == {};
    } else {
      var front, last := s[..|s| - 1], s[|s| - 1];
      SetSize(front);
      assert s == front + [last];
      ElemsConcat(front, [last]);
      assert Elems([last]) == {last};
      if last in front {
        assert Elems(s) == Elems(front);
      } else {
        assert |Elems(s)| == |Elems(front)| + 1;
        if NoDup(front) {
          NoDupConcat(front, [last]);
        }
      }
      if NoDup(s) {
        NoDupSplit(front, [last]);
        assert last in front ==> last in Elems(front) * Elems([last]);
      }
    }
  }

  lemma SubsetSameSize(a: set<string>, b: set<string>)
    requires a <= b && |a| == |b|
    ensures a == b
  {
    assert b == a + (b - a);
    assert |b - a| == 0;
  }

  // ---- What one row can contribute ----

  /** A choice that passes is sound, comes from the reviewed source and always has a monthly figure. */
  lemma PassedIsSound(r: Review, history: map<string, HistoryChoice>, valid: bool, row: Chosen)
    requires valid ==> forall t :: t in r.intent.categories ==> TermOk(t)
    requires OutcomeOf(r, history, valid, row).Passed?
    ensures var b := OutcomeOf(r, history, valid, row).chosen;
            Trusted(b, true) && Trusted(b, false) && b.source == r.source && MonthlyBaseline(b).Some?
  {
    hide TermOk, MonthTotal, TypedAmount, ValidSource, TermFor, FloorAbove;
  }

  /** The two ways of comparing a floor with a usual month agree. */
  lemma FloorsAgree(term: Term, usual: Rational)
    requires TermOk(term)
    ensures FloorAbove(term, usual) <==> !FloorOk(LineOf(term, usual))
    ensures Readable(term.monthlyFloor)
    ensures FloorAbove(term, usual) <==> Value(usual) < Worth(term.monthlyFloor)
  {
    hide Value, TermOk, Worth, FromDecimal, Less, Multiply, Divide, FloorAbove;
    TermReadable(term);
    LineValues(term, usual);
    LessValue(usual, LineOf(term, usual).floor);
    FloorAboveMeans(term, usual);
  }

  lemma FloorAboveMeans(term: Term, usual: Rational)
    requires TermOk(term)
    ensures Readable(term.monthlyFloor)
    ensures FloorAbove(term, usual) <==> Value(usual) < Worth(term.monthlyFloor)
  {
    hide Value, TermOk, Worth, Hundredths, Readable, Part;
    TermReadable(term);
    HundredthsExactWhen(term.monthlyFloor);
    ValueIs(usual, Value(usual));
    CrossCompare(Hundredths(term.monthlyFloor), Worth(term.monthlyFloor), usual.n, usual.d, Value(usual));
  }

  lemma CrossCompare(h: nat, w: real, n: nat, d: nat, v: real)
    requires d > 0 && h as real == 100.0 * w && n as real == v * d as real
    ensures h * d > n * 100 <==> v < w
  {
    RealProduct(h, d);
    var dr := d as real;
    assert (h * d) as real == 100.0 * w * dr && (n * 100) as real == 100.0 * v * dr;
    SignOf(w - v, dr);
    assert 100.0 * w * dr - 100.0 * v * dr == 100.0 * ((w - v) * dr);
  }

  lemma {:induction false} ChoiceFrom(r: Review, history: map<string, HistoryChoice>, valid: bool, rows: seq<Chosen>,
      k: nat)
    requires valid ==> forall t :: t in r.intent.categories ==> TermOk(t)
    requires k < |ChoicesOf(r, history, valid, rows)|
    ensures var choice := ChoicesOf(r, history, valid, rows)[k];
            exists row ::
              row in rows && row.category == choice.category && OutcomeOf(r, history, valid, row).Passed?
              && OutcomeOf(r, history, valid, row).chosen == choice.baseline
  {
    hide OutcomeOf;
    var front, last := rows[..|rows| - 1], rows[|rows| - 1];
    if k < |ChoicesOf(r, history, valid, front)| {
      ChoiceFrom(r, history, valid, front, k);
    } else {
      assert last in rows;
    }
  }

  lemma {:induction false} NoProblems(r: Review, history: map<string, HistoryChoice>, valid: bool, rows: seq<Chosen>)
    requires valid ==> forall t :: t in r.intent.categories ==> TermOk(t)
    requires ProblemsOf(r, history, valid, rows) == map[]
    ensures forall row :: row in rows ==>
              OutcomeOf(r, history, valid, row).Passed? && !OutcomeOf(r, history, valid, row).floorTooHigh
  {
    hide OutcomeOf, ProblemsOf, TermOk;
    if rows == [] {
    } else {
      LastProblem(r, history, valid, rows);
      NoProblems(r, history, valid, rows[..|rows| - 1]);
      forall row | row in rows
        ensures row == rows[|rows| - 1] || row in rows[..|rows| - 1]
      {
        var i :| 0 <= i < |rows| && rows[i] == row;
        assert i < |rows| - 1 ==> rows[..|rows| - 1][i] == row;
      }
    }
  }

  lemma LastProblem(r: Review, history: map<string, HistoryChoice>, valid: bool, rows: seq<Chosen>)
    requires valid ==> forall t :: t in r.intent.categories ==> TermOk(t)
    requires rows != [] && ProblemsOf(r, history, valid, rows) == map[]
    ensures var outcome := OutcomeOf(r, history, valid, rows[|rows| - 1]); outcome.Passed? && !outcome.floorTooHigh
    ensures ProblemsOf(r, history, valid, rows[..|rows| - 1]) == map[]
  {
    hide OutcomeOf;
    var last, before := rows[|rows| - 1].category, ProblemsOf(r, history, valid, rows[..|rows| - 1]);
    match OutcomeOf(r, history, valid, rows[|rows| - 1])
    case Stopped(problem) => NotEmpty(before, last, problem);
    case Passed(_, _) => NotEmpty(before, last, FloorTooHigh);
  }

  lemma NotEmpty(m: map<string, Problem>, key: string, problem: Problem)
    ensures m[key := problem] != map[]
  {
    assert key in m[key := problem];
  }

  // ---- What the button means ----

  /** Every choice that passed under a valid intent keeps its own category's floor within its usual
      month. */
  lemma ChoiceSound(r: Review, history: map<string, HistoryChoice>, k: nat)
    requires Valid(r) && Problems(r, history) == map[] && k < |Choices(r, history)|
    ensures var choice := Choices(r, history)[k];
            && Trusted(choice.baseline, true) && Trusted(choice.baseline, false)
            && choice.baseline.source == r.source && MonthlyBaseline(choice.baseline).Some?
            && forall t :: t in r.intent.categories && t.category == choice.category
                 ==> TermOk(t) && FloorOk(LineOf(t, MonthlyBaseline(choice.baseline).value))
                     && Readable(t.monthlyFloor)
                     && Worth(t.monthlyFloor) <= Value(MonthlyBaseline(choice.baseline).value)
  {
    hide TermOk, ValidIntent, Trusted, MonthlyBaseline, FloorAbove, FloorOk, LineOf, Worth, Value, OutcomeOf,
         ChoicesOf, ProblemsOf;
    ValidTerms(r);
    NoProblems(r, history, true, r.baselines);
    ChoiceFrom(r, history, true, r.baselines, k);
    var choice := Choices(r, history)[k];
    var row :| row in r.baselines && row.category == choice.category && OutcomeOf(r, history, true, row).Passed?
               && OutcomeOf(r, history, true, row).chosen == choice.baseline;
    PassedIsSound(r, history, true, row);
    forall t | t in r.intent.categories && t.category == choice.category
      ensures TermOk(t) && FloorOk(LineOf(t, MonthlyBaseline(choice.baseline).value))
              && Readable(t.monthlyFloor) && Worth(t.monthlyFloor) <= Value(MonthlyBaseline(choice.baseline).value)
    {
      OwnTerm(r, t);
      PassedFloor(r, history, row, t);
      FloorsAgree(t, MonthlyBaseline(choice.baseline).value);
    }
  }

  lemma OwnTerm(r: Review, t: Term)
    requires Valid(r) && t in r.intent.categories
    ensures TermFor(r.intent.categories, t.category) == Some(t)
  {
    hide TermOk, TypedAmount, DatesOk, TermFor;
    LabelOf(r.intent.categories, t);
    OneTermEach(r.intent.categories, t, TermFor(r.intent.categories, t.category).value);
  }

  lemma OneTermEach(terms: seq<Term>, s: Term, t: Term)
    requires NoDup(Labels(terms)) && s in terms && t in terms && s.category == t.category
    ensures s == t
  {
    var i :| 0 <= i < |terms| && terms[i] == s;
    var j :| 0 <= j < |terms| && terms[j] == t;
    assert Labels(terms)[i] == Labels(terms)[j];
  }

  lemma LabelOf(terms: seq<Term>, t: Term)
    requires t in terms
    ensures t.category in Labels(terms)
  {
    var i :| 0 <= i < |terms| && terms[i] == t;
    assert Labels(terms)[i] == t.category;
  }

  lemma PassedFloor(r: Review, history: map<string, HistoryChoice>, row: Chosen, t: Term)
    requires forall x :: x in r.intent.categories ==> TermOk(x)
    requires OutcomeOf(r, history, true, row).Passed? && !OutcomeOf(r, history, true, row).floorTooHigh
    requires Trusted(OutcomeOf(r, history, true, row).chosen, false)
    requires MonthlyBaseline(OutcomeOf(r, history, true, row).chosen).Some?
    requires t in r.intent.categories && TermFor(r.intent.categories, row.category) == Some(t)
    ensures !FloorAbove(t, MonthlyBaseline(OutcomeOf(r, history, true, row).chosen).value)
  {
    hide TermOk, Trusted, MonthlyBaseline, FloorAbove, TermFor, Choose;
  }

  /** The button is enabled only when the usual months are in bijection with the selected categories,
      all from the reviewed source, and every floor is at most its usual month as an exact amount. */
  lemma EnabledMeans(r: Review, history: map<string, HistoryChoice>)
    requires CanConfirm(r, history)
    ensures var names, labels := Categories(Choices(r, history)), Labels(r.intent.categories);
            NoDup(names) && NoDup(labels) && |names| == |labels| && Elems(names) == Elems(labels)
    ensures forall k, t | 0 <= k < |Choices(r, history)| && t in r.intent.categories
            && t.category == Choices(r, history)[k].category ::
              var b := Choices(r, history)[k].baseline;
              && Trusted(b, true) && Trusted(b, false) && b.source == r.source && MonthlyBaseline(b).Some?
              && Readable(t.monthlyFloor) && Worth(t.monthlyFloor) <= Value(MonthlyBaseline(b).value)
  {
    hide TermOk, Trusted, MonthlyBaseline, LineOf, FloorOk, Worth, Value, OutcomeOf, ChoicesOf, ProblemsOf, Choices,
         Problems, TypedAmount;
    SameCategories(Choices(r, history), r.intent.categories);
    forall k, t | 0 <= k < |Choices(r, history)| && t in r.intent.categories
                  && t.category == Choices(r, history)[k].category
      ensures var b := Choices(r, history)[k].baseline;
              && Trusted(b, true) && Trusted(b, false) && b.source == r.source && MonthlyBaseline(b).Some?
              && Readable(t.monthlyFloor) && Worth(t.monthlyFloor) <= Value(MonthlyBaseline(b).value)
    {
      ChoiceSound(r, history, k);
    }
  }

  /** Counting makes the cover a bijection. */
  lemma SameCategories(choices: seq<Chosen>, terms: seq<Term>)
    requires |choices| == |terms| && |Elems(Categories(choices))| == |choices|
    requires forall i :: 0 <= i < |terms| ==> terms[i].category in Categories(choices)
    requires NoDup(Labels(terms))
    ensures NoDup(Categories(choices)) && Elems(Categories(choices)) == Elems(Labels(terms))
  {
    hide NoDup;
    SetSize(Categories(choices));
    SetSize(Labels(terms));
    forall x | x in Labels(terms)
      ensures x in Categories(choices)
    {
      var i :| 0 <= i < |terms| && Labels(terms)[i] == x;
      assert terms[i].category in Categories(choices);
    }
    SubsetSameSize(Elems(Labels(terms)), Elems(Categories(choices)));
  }

  ghost function Confirmation(r: Review, history: map<string, HistoryChoice>): Confirmed {
    Confirmed(r.intent, Choices(r, history), r.source)
  }

  /** The button and the calculator agree exactly: it is enabled when, and only when, no row has a
      problem and the calculator will accept the confirmed choices and produce a preview, with no
      refusal, no missing usual month and no floor out of reach. */
  lemma EnabledExactlyWhenCalculable(r: Review, history: map<string, HistoryChoice>)
    ensures CanConfirm(r, history) <==>
            Problems(r, history) == map[] && Calculate(Confirmation(r, history)).Preview?
  {
    hide Accepts, Choices, Problems, Enabled, Calculate;
    if CanConfirm(r, history) {
      EnabledIsAccepted(r, history);
      AcceptedIsCalculable(r, history);
    }
    if Problems(r, history) == map[] && Calculate(Confirmation(r, history)).Preview? {
      PreviewIsAccepted(Confirmation(r, history));
      AcceptedIsEnabled(r, history);
    }
  }

  lemma PreviewIsAccepted(c: Confirmed)
    requires Calculate(c).Preview?
    ensures Accepts(c)
  {
    hide Accepts;
  }

  lemma EnabledIsAccepted(r: Review, history: map<string, HistoryChoice>)
    requires CanConfirm(r, history)
    ensures Accepts(Confirmation(r, history)) && Valid(r) && Problems(r, history) == map[]
  {
    hide TermOk, Trusted, MonthlyBaseline, LineOf, FloorOk, Worth, Value, ChoicesOf, ProblemsOf, Choices, Problems,
         TypedAmount,
         DatesOk, ValidSource;
    var choices, terms := Choices(r, history), r.intent.categories;
    assert Problems(r, history) == map[];
    SameCategories(choices, terms);
    forall k | 0 <= k < |choices|
      ensures RowOk(choices[k], Labels(terms), r.source)
    {
      ChoiceSound(r, history, k);
      assert Categories(choices)[k] in Elems(Categories(choices));
    }
    SourceOf(choices[0].baseline);
  }

  lemma SourceOf(b: Baseline)
    ensures Trusted(b, true) ==> ValidSource(b.source)
  {
  }

  lemma AcceptedIsCalculable(r: Review, history: map<string, HistoryChoice>)
    requires Accepts(Confirmation(r, history)) && Problems(r, history) == map[]
    ensures Calculate(Confirmation(r, history)).Preview?
  {
    hide TermOk, Trusted, MonthlyBaseline, FigureOf, LineOf, FloorOk, Worth, Value, ChoicesOf, ProblemsOf, Choices,
         Problems,
         ValidIntent, Selected, PreviewOf, Factors, FromDecimal, NoDup;
    var c := Confirmation(r, history);
    var terms := Selected(c.intent);
    forall i | 0 <= i < |terms|
      ensures FigureOf(c.baselines, terms[i].category).Some?
      ensures Known(terms[i], c.baselines) && FloorOk(LineFor(terms[i], c.baselines))
    {
      TermCalculable(r, history, i);
    }
    var lines := LinesOf(terms, c.baselines);
    forall i | 0 <= i < |lines|
      ensures FloorOk(lines[i])
    {
      LineAt(terms, c.baselines, i);
    }
  }

  lemma TermCalculable(r: Review, history: map<string, HistoryChoice>, i: nat)
    requires Accepts(Confirmation(r, history)) && Problems(r, history) == map[]
    requires i < |Selected(r.intent)|
    ensures var t := Selected(r.intent)[i]; var rows := Choices(r, history);
            Known(t, rows) && FloorOk(LineFor(t, rows))
  {
    hide TermOk, Trusted, MonthlyBaseline, FigureOf, LineOf, FloorOk, Worth, Value, ChoicesOf, ProblemsOf, Choices,
         Problems,
         ValidIntent, Selected;
    var c, rows, t := Confirmation(r, history), Choices(r, history), Selected(r.intent)[i];
    SelectedOf(c);
    assert t in Elems(Selected(r.intent));
    CoversAll(c, t);
    var k :| 0 <= k < |rows| && rows[k].category == t.category;
    FigureFound(rows, k);
    ChoiceSound(r, history, k);
  }

  /** As many distinct names as labels, all of them labels: each label is named. */
  lemma Covered(names: seq<string>, labels: seq<string>)
    requires NoDup(names) && NoDup(labels) && |names| == |labels|
    requires forall k :: 0 <= k < |names| ==> names[k] in labels
    ensures Elems(names) == Elems(labels) && |Elems(names)| == |names|
  {
    hide NoDup;
    SetSize(names);
    SetSize(labels);
    assert Elems(names) <= Elems(labels);
    SubsetSameSize(Elems(names), Elems(labels));
  }

  /** The calculator's checks let through exactly the inputs with a sound source and intent and one sound
      baseline, from that source, for each category and no other. */
  lemma AcceptsExactly(c: Confirmed)
    ensures Accepts(c) <==>
            var names, labels := Categories(c.baselines), Labels(c.intent.categories);
            && ValidSource(c.source) && ValidIntent(c.intent, c.source.asOf, labels)
            && NoDup(names) && Elems(names) == Elems(labels)
            && forall row :: row in c.baselines ==> Trusted(row.baseline, true) && row.baseline.source == c.source
  {
    hide ValidSource, Trusted, TermOk, TypedAmount, DatesOk, NoDup;
    var names, labels := Categories(c.baselines), Labels(c.intent.categories);
    assert forall i :: 0 <= i < |c.baselines| ==> c.baselines[i] in c.baselines && names[i] in Elems(names);
    SetSize(names);
    SetSize(labels);
    if Accepts(c) {
      forall k | 0 <= k < |names|
        ensures names[k] in labels
      {
        assert RowOk(c.baselines[k], labels, c.source);
      }
      Covered(names, labels);
      forall row | row in c.baselines
        ensures Trusted(row.baseline, true) && row.baseline.source == c.source
      {
        var i :| 0 <= i < |c.baselines| && c.baselines[i] == row;
        assert RowOk(c.baselines[i], labels, c.source);
      }
    }
  }

  /** As many distinct known categories as there are terms: each term has its row. */
  lemma CoversAll(c: Confirmed, t: Term)
    requires Accepts(c) && t in c.intent.categories
    ensures exists k :: 0 <= k < |c.baselines| && c.baselines[k].category == t.category
    ensures t.category in Categories(c.baselines)
  {
    hide TermOk, Trusted, TypedAmount, DatesOk;
    var names, labels := Categories(c.baselines), Labels(c.intent.categories);
    forall k | 0 <= k < |names|
      ensures names[k] in labels
    {
      assert RowOk(c.baselines[k], labels, c.source);
    }
    Covered(names, labels);
    var i :| 0 <= i < |c.intent.categories| && c.intent.categories[i] == t;
    assert labels[i] in Elems(labels);
    assert t.category in Elems(names);
    var k :| 0 <= k < |names| && names[k] == t.category;
  }

  lemma AcceptedIsEnabled(r: Review, history: map<string, HistoryChoice>)
    requires Problems(r, history) == map[] && Accepts(Confirmation(r, history))
    ensures CanConfirm(r, history)
  {
    hide TermOk, Trusted, TypedAmount, DatesOk, Choices, Problems, ValidIntent;
    var c := Confirmation(r, history);
    SetSize(Categories(c.baselines));
    forall i | 0 <= i < |r.intent.categories|
      ensures r.intent.categories[i].category in Categories(c.baselines)
    {
      CoversAll(c, r.intent.categories[i]);
    }
  }

  // ---- When nothing has to be asked ----

  /** A usual month that needs no answer: the person's own amount or three complete months, read from
      the reviewed source, with the category's floor within it. */
  ghost predicate NeedsNothing(r: Review, row: Chosen) {
    && row.baseline.source == r.source && Trusted(row.baseline, false)
    && (row.baseline.Manual? || CountedMonths(row.baseline) == 3)
    && MonthlyBaseline(row.baseline).Some?
    && forall t :: t in r.intent.categories && t.category == row.category ==>
         Readable(t.monthlyFloor) && Worth(t.monthlyFloor) <= Value(MonthlyBaseline(row.baseline).value)
  }

  lemma TakenAsRead(b: Baseline, source: Source)
    requires Trusted(b, false) && (b.Manual? || CountedMonths(b) == 3)
    ensures Choose(b, None, source) == Some(b) && Trusted(b, true)
  {
    hide TypedAmount, ValidSource, MonthTotal, Counted;
  }

  lemma NothingAsked(r: Review, row: Chosen)
    requires Valid(r) && NeedsNothing(r, row)
    ensures (ValidTerms(r); OutcomeOf(r, map[], true, row) == Passed(row.baseline, false))
  {
    hide TermOk, ValidIntent, MonthlyBaseline, TermFor, FloorAbove, Worth, Value, Trusted, Choose, CountedMonths;
    ValidTerms(r);
    TakenAsRead(row.baseline, r.source);
    var term := TermFor(r.intent.categories, row.category);
    if term.Some? {
      FloorsAgree(term.value, MonthlyBaseline(row.baseline).value);
    }
  }

  lemma {:induction false} AllPass(r: Review, rows: seq<Chosen>)
    requires Valid(r) && forall k :: 0 <= k < |rows| ==> NeedsNothing(r, rows[k])
    ensures (ValidTerms(r); ProblemsOf(r, map[], true, rows) == map[] && ChoicesOf(r, map[], true, rows) == rows)
  {
    hide OutcomeOf, NeedsNothing, Valid, TermOk;
    ValidTerms(r);
    if rows == [] {
    } else {
      var n := |rows| - 1;
      AllPass(r, rows[..n]);
      NothingAsked(r, rows[n]);
      assert rows == rows[..n] + [rows[n]];
    }
  }

  /** With one such usual month for every selected category the button is enabled at once. */
  lemma EnabledAtOnce(r: Review)
    requires Valid(r) && |r.baselines| == |r.intent.categories| && NoDup(Categories(r.baselines))
    requires forall k :: 0 <= k < |r.baselines| ==>
      r.baselines[k].category in Labels(r.intent.categories) && NeedsNothing(r, r.baselines[k])
    ensures CanConfirm(r, map[]) && Choices(r, map[]) == r.baselines
  {
    hide NeedsNothing, TermOk, TypedAmount, DatesOk, ChoicesOf, ProblemsOf;
    AllPass(r, r.baselines);
    var names, labels := Categories(r.baselines), Labels(r.intent.categories);
    Covered(names, labels);
    forall i | 0 <= i < |r.intent.categories|
      ensures r.intent.categories[i].category in names
    {
      assert labels[i] in Elems(labels);
      assert labels[i] in Elems(names);
    }
  }

  // ---- What was answered, and what is taken ----

  predicate Answered(history: map<string, HistoryChoice>, category: string, kind: HistoryKind) {
    category in history && history[category].kind == Some(kind)
  }

  predicate AllComplete(months: seq<Month>) {
    forall i :: 0 <= i < |months| ==> months[i].coverage == Complete
  }

  predicate SomeComplete(months: seq<Month>) {
    exists i :: 0 <= i < |months| && months[i].coverage == Complete
  }

  /** The usual month was read from the reviewed source and is sound as far as it goes. */
  predicate Sound(r: Review, row: Chosen) {
    row.baseline.source == r.source && Trusted(row.baseline, false)
  }

  /** The row has what it needs: a typed amount of the person's own where that was chosen; otherwise an
      amount read as such, a complete history, or part of one and the person's agreement to use it. */
  predicate Usable(history: map<string, HistoryChoice>, row: Chosen) {
    if Answered(history, row.category, OwnAmount) then TypedAmount(Trim(history[row.category].amount))
    else
      || row.baseline.Manual? || AllComplete(row.baseline.months)
      || (SomeComplete(row.baseline.months) && Answered(history, row.category, UseRecorded))
  }

  /** The usual month taken for a row: the person's own amount where it was chosen, or what was read,
      marked as agreed to where the history is short. */
  predicate TakenFor(r: Review, history: map<string, HistoryChoice>, row: Chosen, taken: Baseline) {
    if Answered(history, row.category, OwnAmount) then
      taken == Manual(Trim(history[row.category].amount), r.source)
    else if row.baseline.Manual? || AllComplete(row.baseline.months) then taken == row.baseline
    else
      && taken == Recorded(row.baseline.months, row.baseline.source, true)
      && SomeComplete(row.baseline.months) && Answered(history, row.category, UseRecorded)
  }

  lemma CountsOfThree(months: seq<Month>)
    requires |months| == 3
    ensures |Counted(months)| == 3 <==> AllComplete(months)
    ensures |Counted(months)| > 0 <==> SomeComplete(months)
  {
    CountedAt(months);
    hide Counted;
    var at := CompleteAt(months);
    assert at <= {0, 1, 2};
    if AllComplete(months) {
      assert at == {0, 1, 2};
    } else {
      var i: nat :| i < 3 && months[i].coverage != Complete;
      assert at <= {0, 1, 2} - {i};
      Fewer(at, {0, 1, 2} - {i});
      assert |{0, 1, 2} - {i}| == 2;
    }
    if i: nat :| i < 3 && months[i].coverage == Complete {
      assert i in at;
    } else {
      assert at == {};
    }
  }

  lemma Fewer(a: set<nat>, b: set<nat>)
    requires a <= b
    ensures |a| <= |b|
  {
    assert b == a + (b - a);
  }

  lemma TakenExactly(r: Review, history: map<string, HistoryChoice>, row: Chosen)
    requires Sound(r, row)
    ensures var choice := if row.category in history then Some(history[row.category]) else None;
            var chosen := Choose(row.baseline, choice, r.source);
            && (chosen.Some? && Trusted(chosen.value, true) <==> Usable(history, row))
            && (chosen.Some? && Trusted(chosen.value, true) ==> TakenFor(r, history, row, chosen.value))
  {
    hide TypedAmount, Trim, MonthTotal, Counted, ValidSource, AllComplete, SomeComplete;
    if row.baseline.Recorded? {
      CountsOfThree(row.baseline.months);
    }
  }

  /** What becomes of one row, whatever was answered. */
  lemma OutcomeExactlyWhen(r: Review, history: map<string, HistoryChoice>, valid: bool, row: Chosen)
    requires valid ==> forall t :: t in r.intent.categories ==> TermOk(t)
    ensures var outcome := OutcomeOf(r, history, valid, row);
            && (outcome == Stopped(SourceChanged) <==> !Sound(r, row))
            && (outcome == Stopped(NoUsualMonth) <==> Sound(r, row) && !Usable(history, row))
            && (outcome.Passed? <==> Sound(r, row) && Usable(history, row))
            && (outcome.Passed? ==> TakenFor(r, history, row, outcome.chosen))
  {
    hide Trusted, Choose, Usable, TakenFor, MonthlyBaseline, TermFor, FloorAbove, TermOk;
    if Sound(r, row) {
      TakenExactly(r, history, row);
    }
  }

  /** Every choice to be confirmed was taken for a row that was read, as the person answered for it; its
      usual month is the amount typed for it, or the mean of the complete months of its history. */
  lemma ChoicesAreAnswered(r: Review, history: map<string, HistoryChoice>, k: nat) returns (row: Chosen)
    requires k < |Choices(r, history)|
    ensures var choice := Choices(r, history)[k];
            && row in r.baselines && row.category == choice.category
            && Sound(r, row) && Usable(history, row) && TakenFor(r, history, row, choice.baseline)
            && Trusted(choice.baseline, true) && Trusted(choice.baseline, false)
            && MonthlyBaseline(choice.baseline).Some?
    ensures var b := Choices(r, history)[k].baseline;
            b.Manual? ==> Readable(b.monthlyAmount)
                          && Value(MonthlyBaseline(b).value) == Worth(b.monthlyAmount)
    ensures var b := Choices(r, history)[k].baseline;
            b.Recorded? ==>
              && |b.months| == 3 && (forall i :: 0 <= i < 3 ==> Readable(b.months[i].total))
              && Value(MonthlyBaseline(b).value) * |CompleteAt(b.months)| as real
                   == AddedBy(b.months[0]) + AddedBy(b.months[1]) + AddedBy(b.months[2])
  {
    hide *;
    row := RowOfChoice(r, history, k);
    var b := Choices(r, history)[k].baseline;
    if b.Manual? {
      TypedUsualMonth(b);
    } else {
      UsualMonthByMonth(b);
    }
  }

  lemma RowOfChoice(r: Review, history: map<string, HistoryChoice>, k: nat) returns (row: Chosen)
    requires k < |Choices(r, history)|
    ensures var choice := Choices(r, history)[k];
            && row in r.baselines && row.category == choice.category
            && Sound(r, row) && Usable(history, row) && TakenFor(r, history, row, choice.baseline)
            && Trusted(choice.baseline, true) && Trusted(choice.baseline, false)
            && MonthlyBaseline(choice.baseline).Some?
  {
    hide OutcomeOf, ChoicesOf, Trusted, Sound, Usable, TakenFor, MonthlyBaseline, TermOk, Valid;
    ValidTerms(r);
    ChoiceFrom(r, history, Valid(r), r.baselines, k);
    var choice := Choices(r, history)[k];
    row :| row in r.baselines && row.category == choice.category && OutcomeOf(r, history, Valid(r), row).Passed?
           && OutcomeOf(r, history, Valid(r), row).chosen == choice.baseline;
    OutcomeExactlyWhen(r, history, Valid(r), row);
    PassedIsSound(r, history, Valid(r), row);
  }

  lemma TypedUsualMonth(b: Baseline)
    requires b.Manual? && Trusted(b, false)
    ensures Readable(b.monthlyAmount) && MonthlyBaseline(b).Some?
    ensures Value(MonthlyBaseline(b).value) == Worth(b.monthlyAmount)
  {
    hide Value, Worth, FromDecimal, TypedAmount, ValidSource;
    ManualReadable(b);
    FromDecimalValue(b.monthlyAmount);
  }

  // ---- Row by row, in a review with one row a category ----

  lemma {:induction false} RowInChoices(r: Review, history: map<string, HistoryChoice>, valid: bool,
      rows: seq<Chosen>, x: string)
    requires valid ==> forall t :: t in r.intent.categories ==> TermOk(t)
    ensures x in Categories(ChoicesOf(r, history, valid, rows)) <==>
            exists i :: 0 <= i < |rows| && rows[i].category == x && OutcomeOf(r, history, valid, rows[i]).Passed?
  {
    hide OutcomeOf, TermOk;
    if rows == [] {
    } else {
      var n := |rows| - 1;
      var before, all := ChoicesOf(r, history, valid, rows[..n]), ChoicesOf(r, history, valid, rows);
      RowInChoices(r, history, valid, rows[..n], x);
      var last := if OutcomeOf(r, history, valid, rows[n]).Passed? then [rows[n].category] else [];
      assert Categories(all) == Categories(before) + last;
      if i :| 0 <= i < n && rows[..n][i].category == x && OutcomeOf(r, history, valid, rows[..n][i]).Passed? {
        assert rows[i] == rows[..n][i];
      }
      if i :| 0 <= i < n && rows[i].category == x && OutcomeOf(r, history, valid, rows[i]).Passed? {
        assert rows[i] == rows[..n][i];
      }
    }
  }

  lemma {:induction false} ProblemOfRow(r: Review, history: map<string, HistoryChoice>, valid: bool,
      rows: seq<Chosen>, i: nat)
    requires valid ==> forall t :: t in r.intent.categories ==> TermOk(t)
    requires NoDup(Categories(rows)) && i < |rows|
    ensures var outcome, problems := OutcomeOf(r, history, valid, rows[i]), ProblemsOf(r, history, valid, rows);
            var x := rows[i].category;
            match outcome
            case Stopped(problem) => x in problems && problems[x] == problem
            case Passed(_, tooHigh) => if tooHigh then x in problems && problems[x] == FloorTooHigh else x !in problems
  {
    hide OutcomeOf, TermOk;
    var n := |rows| - 1;
    assert Categories(rows[..n]) == Categories(rows)[..n];
    if i == n {
      NoProblemElsewhere(r, history, valid, rows[..n], rows[n].category);
    } else {
      ProblemOfRow(r, history, valid, rows[..n], i);
      assert Categories(rows)[i] != Categories(rows)[n];
    }
  }

  lemma {:induction false} NoProblemElsewhere(r: Review, history: map<string, HistoryChoice>, valid: bool,
      rows: seq<Chosen>, x: string)
    requires valid ==> forall t :: t in r.intent.categories ==> TermOk(t)
    requires forall i :: 0 <= i < |rows| ==> rows[i].category != x
    ensures x !in ProblemsOf(r, history, valid, rows)
  {
    hide OutcomeOf, TermOk;
    if rows == [] {
    } else {
      NoProblemElsewhere(r, history, valid, rows[..|rows| - 1], x);
    }
  }

  /** The category's floor, as typed, is above the usual month that was taken. */
  ghost predicate FloorAboveTaken(r: Review, category: string, taken: Baseline) {
    Trusted(taken, false) && MonthlyBaseline(taken).Some?
    && exists t :: t in r.intent.categories && t.category == category && Readable(t.monthlyFloor)
                   && Worth(t.monthlyFloor) > Value(MonthlyBaseline(taken).value)
  }

  lemma TooHighExactly(r: Review, history: map<string, HistoryChoice>, row: Chosen)
    requires Valid(r)
    requires (ValidTerms(r); OutcomeOf(r, history, true, row).Passed?)
    ensures (ValidTerms(r); var outcome := OutcomeOf(r, history, true, row);
             outcome.floorTooHigh <==> FloorAboveTaken(r, row.category, outcome.chosen))
  {
    ValidTerms(r);
    var outcome := OutcomeOf(r, history, true, row);
    PassedIsSound(r, history, true, row);
    hide TermOk, ValidIntent, Trusted, MonthlyBaseline, FloorAbove, Worth, Value, Choose;
    var found := TermFor(r.intent.categories, row.category);
    if found.Some? {
      FloorAboveMeans(found.value, MonthlyBaseline(outcome.chosen).value);
    }
    forall t | t in r.intent.categories && t.category == row.category
      ensures found == Some(t)
    {
      OwnTerm(r, t);
    }
  }

  /** Row by row, what the review makes of the answers: a choice exactly where the row is sound and has
      what it needs; otherwise the problem that is shown, and beside a choice a floor above it. */
  lemma RowsSettledExactly(r: Review, history: map<string, HistoryChoice>, i: nat)
    requires NoDup(Categories(r.baselines)) && i < |r.baselines|
    ensures var row, problems := r.baselines[i], Problems(r, history);
            var x := row.category;
            && (x in Categories(Choices(r, history)) <==> Sound(r, row) && Usable(history, row))
            && (x in problems && problems[x] == SourceChanged <==> !Sound(r, row))
            && (x in problems && problems[x] == NoUsualMonth <==> Sound(r, row) && !Usable(history, row))
            && (x in problems && problems[x] == FloorTooHigh <==>
                  && Sound(r, row) && Usable(history, row) && Valid(r)
                  && exists taken :: TakenFor(r, history, row, taken) && FloorAboveTaken(r, x, taken))
  {
    hide OutcomeOf, ChoicesOf, ProblemsOf, Sound, Usable, TakenFor, FloorAboveTaken, Valid, TermOk, NoDup;
    ValidTerms(r);
    var row, valid := r.baselines[i], Valid(r);
    var outcome := OutcomeOf(r, history, valid, row);
    OutcomeExactlyWhen(r, history, valid, row);
    ProblemOfRow(r, history, valid, r.baselines, i);
    RowInChoices(r, history, valid, r.baselines, row.category);
    forall j | 0 <= j < |r.baselines| && r.baselines[j].category == row.category
      ensures j == i
    {
      OneRowEach(r.baselines, i, j);
    }
    if outcome.Passed? {
      if valid {
        TooHighExactly(r, history, row);
      } else {
        NotTooHigh(r, history, row);
      }
      forall taken | TakenFor(r, history, row, taken)
        ensures taken == outcome.chosen
      {
        OneTaken(r, history, row, taken, outcome.chosen);
      }
    }
  }

  lemma OneRowEach(rows: seq<Chosen>, i: nat, j: nat)
    requires NoDup(Categories(rows)) && i < |rows| && j < |rows| && rows[i].category == rows[j].category
    ensures i == j
  {
    assert Categories(rows)[i] == Categories(rows)[j];
  }

  lemma OneTaken(r: Review, history: map<string, HistoryChoice>, row: Chosen, a: Baseline, b: Baseline)
    requires TakenFor(r, history, row, a) && TakenFor(r, history, row, b)
    ensures a == b
  {
    hide AllComplete, SomeComplete, Trim;
  }

  lemma NotTooHigh(r: Review, history: map<string, HistoryChoice>, row: Chosen)
    requires OutcomeOf(r, history, false, row).Passed?
    ensures !OutcomeOf(r, history, false, row).floorTooHigh
  {
    hide Trusted, Choose;
  }
}
