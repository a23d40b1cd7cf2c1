/** Spreading a whole number of cents over categories in proportion to what each can give. Every
    category first gets its exact share rounded down; the cents left over go one each to the largest
    remainders, ties to the label that sorts first. */
module Spread {
  import opened Sequences
  import opened Sorting
  import Ratios

  function Sum(s: seq<nat>): nat {
    if s == [] then 0 else Sum(s[..|s| - 1]) + s[|s| - 1]
  }

  /** The exact share of one category, split into whole cents and what is left over. */
  function Cents(goal: nat, cap: nat, maximum: nat): nat {
    if maximum == 0 then 0 else goal * cap / maximum
  }

  function Left(goal: nat, cap: nat, maximum: nat): nat {
    if maximum == 0 then 0 else goal * cap % maximum
  }

  function Shares(caps: seq<nat>, goal: nat, maximum: nat): seq<nat> {
    seq(|caps|, i requires 0 <= i < |caps| => Cents(goal, caps[i], maximum))
  }

  function Remainders(caps: seq<nat>, goal: nat, maximum: nat): seq<nat> {
    seq(|caps|, i requires 0 <= i < |caps| => Left(goal, caps[i], maximum))
  }

  function Range(n: nat): (r: seq<int>)
    ensures |r| == n && forall i :: 0 <= i < n ==> r[i] == i
  {
    if n == 0 then [] else Range(n - 1) + [n - 1]
  }

  predicate Within(at: seq<int>, n: nat) {
    forall k :: 0 <= k < |at| ==> 0 <= at[k] < n
  }

  /** The order in which categories are offered a leftover cent. */
  predicate Ahead(rest: seq<nat>, labels: seq<string>, i: int, j: int) {
    0 <= i < |rest| && 0 <= j < |rest| && i < |labels| && j < |labels|
    && (rest[i] > rest[j] || (rest[i] == rest[j] && LabelLess(labels[i], labels[j])))
  }

  function Order(rest: seq<nat>, labels: seq<string>): (int, int) -> bool {
    (i, j) => Ahead(rest, labels, i, j)
  }

  function Ranked(rest: seq<nat>, labels: seq<string>): seq<int> {
    SortBy(Range(|rest|), Order(rest, labels))
  }

  /** One leftover cent to each in turn until none is left. */
  function Give(cents: seq<nat>, ranked: seq<int>, pennies: int): (r: seq<nat>)
    requires Within(ranked, |cents|)
    ensures |r| == |cents|
    decreases |ranked|
  {
    if ranked == [] || pennies == 0 then cents
    else
      Give(cents[ranked[0] := cents[ranked[0]] + 1], ranked[1..], pennies - 1)
  }

  function Allocated(caps: seq<nat>, target: nat): nat {
    if target < Sum(caps) then target else Sum(caps)
  }

  function Pennies(caps: seq<nat>, target: nat): int {
    Allocated(caps, target) - Sum(Shares(caps, Allocated(caps, target), Sum(caps)))
  }

  function Allocate(caps: seq<nat>, labels: seq<string>, target: nat): (r: seq<nat>)
    ensures |r| == |caps|
  {
    var goal, maximum := Allocated(caps, target), Sum(caps);
    var shares, rest := Shares(caps, goal, maximum), Remainders(caps, goal, maximum);
    RankedIsIndices(rest, labels);
    Give(shares, Ranked(rest, labels), Pennies(caps, target))
  }

  /** The loop over the ranked shares. */
  method HandOut(cents: array<nat>, ranked: seq<int>, leftOver: int)
    requires Within(ranked, cents.Length)
    modifies cents
    ensures cents[..] == Give(old(cents[..]), ranked, leftOver)
  {
    var pennies, k := leftOver, 0;
    while k < |ranked|
      invariant 0 <= k <= |ranked|
      invariant Give(cents[..], ranked[k..], pennies) == Give(old(cents[..]), ranked, leftOver)
    {
      if pennies == 0 { break; }
      ghost var was, rest := cents[..], ranked[k..];
      cents[ranked[k]] := cents[ranked[k]] + 1;
      assert cents[..] == was[ranked[k] := was[ranked[k]] + 1];
      assert rest[1..] == ranked[k + 1..];
      pennies := pennies - 1;
      k := k + 1;
    }
  }

  // ---- Sums ----

  lemma SumFront(s: seq<nat>, x: nat)
    ensures Sum(s + [x]) == Sum(s) + x
  {
    assert (s + [x])[..|s|] == s;
  }

  lemma {:induction false} SumUpdate(s: seq<nat>, k: nat, x: nat)
    requires k < |s|
    ensures Sum(s[k := x]) == Sum(s) - s[k] + x
  {
    var front, last := s[..|s| - 1], s[|s| - 1];
    if k == |s| - 1 {
      assert s[k := x] == front + [x] && s == front + [last];
      SumFront(front, x);
    } else {
      SumUpdate(front, k, x);
      assert s[k := x] == front[k := x] + [last];
      SumFront(front[k := x], last);
    }
  }

  /** The values at some indices, added up in that order. */
  function Total(at: seq<int>, f: seq<nat>): nat
    requires Within(at, |f|)
  {
    if at == [] then 0 else f[at[0]] + Total(at[1..], f)
  }

  lemma {:induction false} TotalConcat(a: seq<int>, b: seq<int>, f: seq<nat>)
    requires Within(a, |f|) && Within(b, |f|)
    ensures Total(a + b, f) == Total(a, f) + Total(b, f)
  {
    if a == [] {
      assert a + b == b;
    } else {
      assert (a + b)[1..] == a[1..] + b;
      TotalConcat(a[1..], b, f);
    }
  }

  lemma {:induction false} TotalInsert(x: int, s: seq<int>, before: (int, int) -> bool, f: seq<nat>)
    requires 0 <= x < |f| && Within(s, |f|)
    ensures Within(Insert(x, s, before), |f|)
    ensures Total(Insert(x, s, before), f) == f[x] + Total(s, f)
  {
    if s != [] && before(s[0], x) {
      TotalInsert(x, s[1..], before, f);
      InsertStep(x, s, before);
    } else {
      assert ([x] + s)[1..] == s;
    }
  }

  lemma {:induction false} TotalSort(s: seq<int>, before: (int, int) -> bool, f: seq<nat>)
    requires Within(s, |f|)
    ensures Within(SortBy(s, before), |f|)
    ensures Total(SortBy(s, before), f) == Total(s, f)
  {
    if s == [] {
    } else {
      TotalSort(s[1..], before, f);
      TotalInsert(s[0], SortBy(s[1..], before), before, f);
    }
  }

  lemma {:induction false} TotalRange(n: nat, f: seq<nat>)
    requires n <= |f|
    ensures Total(Range(n), f) == Sum(f[..n])
  {
    if n == 0 {
    } else {
      TotalRange(n - 1, f);
      TotalConcat(Range(n - 1), [n - 1], f);
      assert f[..n][..n - 1] == f[..n - 1];
    }
  }

  /** Adding up in ranked order gives the plain sum. */
  lemma RankedTotal(rest: seq<nat>, labels: seq<string>)
    ensures Within(Ranked(rest, labels), |rest|)
    ensures Total(Ranked(rest, labels), rest) == Sum(rest)
  {
    hide Total, Sum, Order, SortBy;
    TotalSort(Range(|rest|), Order(rest, labels), rest);
    TotalRange(|rest|, rest);
    assert rest[..|rest|] == rest;
  }

  // ---- The ranking ----

  lemma RankedIsIndices(rest: seq<nat>, labels: seq<string>)
    ensures Within(Ranked(rest, labels), |rest|)
    ensures |Ranked(rest, labels)| == |rest|
  {
    SortKeeps(Range(|rest|), Order(rest, labels));
    RankedTotal(rest, labels);
  }

  lemma OrderIsLinear(rest: seq<nat>, labels: seq<string>)
    requires NoDup(labels) && |labels| == |rest|
    ensures Linear(Elems(Range(|rest|)), Order(rest, labels))
  {
    var before := Order(rest, labels);
    var all := Elems(Range(|rest|));
    forall i | i in all
      ensures !before(i, i)
    {
      LabelIrreflexive(labels[i]);
    }
    forall i, j | i in all && j in all && i != j
      ensures before(i, j) || before(j, i)
    {
      LabelTotal(labels[i], labels[j]);
      assert labels[i] != labels[j];
    }
    forall i, j, k | i in all && j in all && k in all && before(i, j) && before(j, k)
      ensures before(i, k)
    {
      if rest[i] == rest[j] == rest[k] {
        LabelTransitive(labels[i], labels[j], labels[k]);
      }
    }
  }

  lemma RankedInOrder(rest: seq<nat>, labels: seq<string>)
    requires NoDup(labels) && |labels| == |rest|
    ensures Ascending(Ranked(rest, labels), Order(rest, labels))
    ensures NoDup(Ranked(rest, labels))
  {
    hide Ahead, Order;
    OrderIsLinear(rest, labels);
    var all := Range(|rest|);
    SortAscending(all, Order(rest, labels));
    SortKeeps(all, Order(rest, labels));
    AscendingNoDup(Ranked(rest, labels), Order(rest, labels));
  }

  // ---- Handing out ----

  lemma {:induction false} GiveSum(cents: seq<nat>, ranked: seq<int>, pennies: nat)
    requires Within(ranked, |cents|)
    ensures Sum(Give(cents, ranked, pennies)) == Sum(cents) + if pennies <= |ranked| then pennies else |ranked|
    decreases |ranked|
  {
    if ranked == [] || pennies == 0 {
    } else {
      var first := ranked[0];
      SumUpdate(cents, first, cents[first] + 1);
      GiveSum(cents[first := cents[first] + 1], ranked[1..], pennies - 1);
    }
  }

  /** Who gets a cent: the first ones in the ranking. */
  lemma {:induction false} GiveAt(cents: seq<nat>, ranked: seq<int>, pennies: nat, i: nat)
    requires Within(ranked, |cents|)
    requires NoDup(ranked) && i < |cents| && pennies <= |ranked|
    ensures Give(cents, ranked, pennies)[i] == cents[i] + if i in ranked[..pennies] then 1 else 0
    decreases |ranked|
  {
    if ranked == [] || pennies == 0 {
    } else {
      var first := ranked[0];
      var next := cents[first := cents[first] + 1];
      NoDupTail(ranked);
      GiveAt(next, ranked[1..], pennies - 1, i);
      assert ranked[..pennies] == [first] + ranked[1..][..pennies - 1];
      assert first !in ranked[1..][..pennies - 1];
    }
  }

  lemma NoDupTail(s: seq<int>)
    requires NoDup(s) && s != []
    ensures NoDup(s[1..]) && s[0] !in s[1..]
  {
  }

  // ---- The exact share ----

  lemma ShareParts(goal: nat, cap: nat, maximum: nat)
    requires maximum > 0
    ensures goal * cap == maximum * Cents(goal, cap, maximum) + Left(goal, cap, maximum)
    ensures Left(goal, cap, maximum) < maximum
  {
  }

  lemma {:induction false} SharesAddUp(caps: seq<nat>, a: nat, m: nat)
    requires m > 0
    ensures a * Sum(caps) == m * Sum(Shares(caps, a, m)) + Sum(Remainders(caps, a, m))
  {
    if caps == [] {
    } else {
      hide Cents, Left;
      var front, last := caps[..|caps| - 1], caps[|caps| - 1];
      SharesAddUp(front, a, m);
      assert Shares(caps, a, m) == Shares(front, a, m) + [Cents(a, last, m)];
      assert Remainders(caps, a, m) == Remainders(front, a, m) + [Left(a, last, m)];
      SumFront(Shares(front, a, m), Cents(a, last, m));
      SumFront(Remainders(front, a, m), Left(a, last, m));
      ShareParts(a, last, m);
      Distribute(a, Sum(front), last);
      Distribute(m, Sum(Shares(front, a, m)), Cents(a, last, m));
    }
  }

  lemma Distribute(a: int, b: int, c: int)
    ensures a * (b + c) == a * b + a * c
  {
  }

  /** Whole shares are never more than the capacity, and strictly less when something is left over. */
  lemma ShareWithin(goal: nat, cap: nat, maximum: nat)
    requires maximum > 0 && goal <= maximum
    ensures Cents(goal, cap, maximum) <= cap
    ensures Left(goal, cap, maximum) > 0 ==> Cents(goal, cap, maximum) < cap
  {
    hide Cents, Left;
    ShareParts(goal, cap, maximum);
    var q, r := Cents(goal, cap, maximum), Left(goal, cap, maximum);
    AtMost(goal, maximum, cap);
    if q > cap {
      Ratios.Steps(maximum, cap, q);
    }
  }

  lemma AtMost(a: nat, b: nat, c: nat)
    requires a <= b
    ensures a * c <= b * c
  {
    assert b * c == a * c + (b - a) * c;
  }

  // ---- How many cents are left over, and who takes them ----

  lemma {:induction false} TotalBound(at: seq<int>, f: seq<nat>, m: nat, k: nat)
    requires Within(at, |f|) && k <= |at|
    requires forall i :: 0 <= i < |f| ==> f[i] < m
    requires forall p :: k <= p < |at| ==> f[at[p]] == 0
    ensures Total(at, f) <= k * m && (k > 0 ==> Total(at, f) < k * m)
    decreases |at|
  {
    if at == [] {
    } else {
      var rest := at[1..];
      assert forall p :: 0 <= p < |rest| ==> rest[p] == at[p + 1];
      TotalBound(rest, f, m, if k > 0 then k - 1 else 0);
      if k > 0 {
        assert k * m == (k - 1) * m + m;
      }
    }
  }

  /** The leftover cents are exactly what the remainders are worth together. */
  lemma PenniesWorth(caps: seq<nat>, target: nat)
    ensures Pennies(caps, target) >= 0
    ensures Sum(caps) * Pennies(caps, target) == Sum(Remainders(caps, Allocated(caps, target), Sum(caps)))
  {
    var a, m := Allocated(caps, target), Sum(caps);
    hide Shares, Remainders, Allocated, Sum;
    if m == 0 {
      ZeroShares(caps, a);
    } else {
      SharesAddUp(caps, a, m);
      LeftoverWorth(a, m, Sum(Shares(caps, a, m)), Sum(Remainders(caps, a, m)));
    }
  }

  lemma LeftoverWorth(a: nat, m: nat, s: nat, r: nat)
    requires m > 0 && a * m == m * s + r
    ensures a - s >= 0 && m * (a - s) == r
  {
    Distribute(m, s, a - s);
    NotNegative(m, a - s);
  }

  lemma NotNegative(m: nat, p: int)
    requires m > 0
    ensures m * p >= 0 ==> p >= 0
  {
    if p < 0 {
      Ratios.Steps(m, p, 0);
    }
  }

  lemma {:induction false} ZeroShares(caps: seq<nat>, a: nat)
    ensures Sum(Shares(caps, a, 0)) == 0 && Sum(Remainders(caps, a, 0)) == 0
  {
    if caps == [] {
    } else {
      var front := caps[..|caps| - 1];
      ZeroShares(front, a);
      assert Shares(caps, a, 0)[..|caps| - 1] == Shares(front, a, 0);
      assert Remainders(caps, a, 0)[..|caps| - 1] == Remainders(front, a, 0);
    }
  }

  /** There are never more leftover cents than categories with a remainder: everyone who is given a
      cent had one coming, and nobody is asked to take two. */
  lemma PenniesReachRemainders(caps: seq<nat>, labels: seq<string>, target: nat)
    requires NoDup(labels) && |labels| == |caps|
    ensures var rest := Remainders(caps, Allocated(caps, target), Sum(caps));
            var ranked := Ranked(rest, labels);
            0 <= Pennies(caps, target) <= |ranked| == |caps|
            && forall k :: 0 <= k < Pennies(caps, target) ==> 0 <= ranked[k] < |rest| && rest[ranked[k]] > 0
  {
    hide Cents, Left, Ascending, Ranked;
    var a, m, p := Allocated(caps, target), Sum(caps), Pennies(caps, target);
    var rest := Remainders(caps, a, m);
    var ranked := Ranked(rest, labels);
    RankedIsIndices(rest, labels);
    PenniesWorth(caps, target);
    RankedTotal(rest, labels);
    if m == 0 {
      assert a == 0;
      ZeroShares(caps, a);
    } else {
      forall i | 0 <= i < |rest|
        ensures rest[i] < m
      {
        ShareParts(a, caps[i], m);
      }
      EnoughRemainders(ranked, rest, labels, m, p);
    }
  }

  lemma ZerosLast(rest: seq<nat>, labels: seq<string>, k: nat)
    requires NoDup(labels) && |labels| == |rest|
    requires Within(Ranked(rest, labels), |rest|) && k < |Ranked(rest, labels)|
    requires rest[Ranked(rest, labels)[k]] == 0
    ensures var ranked := Ranked(rest, labels); forall q :: k <= q < |ranked| ==> rest[ranked[q]] == 0
  {
    RankedInOrder(rest, labels);
    var ranked := Ranked(rest, labels);
    hide Ranked;
    forall q | k < q < |ranked|
      ensures rest[ranked[q]] == 0
    {
      assert Order(rest, labels)(ranked[k], ranked[q]);
    }
  }

  /** If only the first k have a remainder, at most k cents are left over. */
  lemma NoMoreThan(ranked: seq<int>, rest: seq<nat>, m: nat, p: nat, k: nat)
    requires Within(ranked, |rest|) && k <= |ranked| && Total(ranked, rest) == m * p
    requires forall i :: 0 <= i < |rest| ==> rest[i] < m
    requires forall q :: k <= q < |ranked| ==> rest[ranked[q]] == 0
    requires m > 0
    ensures p <= k
  {
    TotalBound(ranked, rest, m, k);
    hide Total;
    if p > k {
      Ratios.Steps(m, k, p);
    }
  }

  lemma EnoughRemainders(ranked: seq<int>, rest: seq<nat>, labels: seq<string>, m: nat, p: nat)
    requires NoDup(labels) && |labels| == |rest| && ranked == Ranked(rest, labels)
    requires Within(ranked, |rest|) && m > 0
    requires forall i :: 0 <= i < |rest| ==> rest[i] < m
    requires Total(ranked, rest) == m * p
    ensures p <= |ranked|
    ensures forall k :: 0 <= k < p ==> rest[ranked[k]] > 0
  {
    hide Total, Ranked, NoDup;
    NoMoreThan(ranked, rest, m, p, |ranked|);
    forall k | 0 <= k < p
      ensures rest[ranked[k]] > 0
    {
      if rest[ranked[k]] == 0 {
        ZerosLast(rest, labels, k);
        NoMoreThan(ranked, rest, m, p, k);
      }
    }
  }

  // ---- What every category ends up with ----

  /** Category i is given one of the leftover cents. */
  predicate Extra(caps: seq<nat>, labels: seq<string>, target: nat, i: nat) {
    var ranked := Ranked(Remainders(caps, Allocated(caps, target), Sum(caps)), labels);
    var p := Pennies(caps, target);
    0 <= p <= |ranked| && i in ranked[..p]
  }

  lemma AllocateAt(caps: seq<nat>, labels: seq<string>, target: nat, i: nat)
    requires NoDup(labels) && |labels| == |caps| && i < |caps|
    ensures var a, m := Allocated(caps, target), Sum(caps);
            Allocate(caps, labels, target)[i] == Cents(a, caps[i], m) + if Extra(caps, labels, target, i) then 1 else 0
    ensures Extra(caps, labels, target, i) ==> Left(Allocated(caps, target), caps[i], Sum(caps)) > 0
  {
    hide Cents, Left, Ranked, Give, Pennies, Sum;
    var a, m := Allocated(caps, target), Sum(caps);
    var rest := Remainders(caps, a, m);
    PenniesReachRemainders(caps, labels, target);
    RankedIsIndices(rest, labels);
    RankedInOrder(rest, labels);
    var ranked, p := Ranked(rest, labels), Pennies(caps, target);
    GiveAt(Shares(caps, a, m), ranked, p, i);
    if i in ranked[..p] {
      var k :| 0 <= k < p && ranked[k] == i;
      assert rest[ranked[k]] > 0;
    }
  }

  /** Nothing is lost in the rounding: the cuts add up to exactly what was to be found. */
  lemma SpreadIsComplete(caps: seq<nat>, labels: seq<string>, target: nat)
    requires NoDup(labels) && |labels| == |caps|
    ensures Sum(Allocate(caps, labels, target)) == Allocated(caps, target)
    ensures Allocated(caps, target) == target <==> target <= Sum(caps)
  {
    hide Cents, Left, Ranked, Give, Sum;
    var a, m := Allocated(caps, target), Sum(caps);
    PenniesReachRemainders(caps, labels, target);
    var rest := Remainders(caps, a, m);
    RankedIsIndices(rest, labels);
    GiveSum(Shares(caps, a, m), Ranked(rest, labels), Pennies(caps, target));
  }

  /** No category is cut by more than it can give, and each cut is within one cent of the exact share
      goal * capacity / maximum, equal to it whenever that is whole. */
  lemma SpreadIsFair(caps: seq<nat>, labels: seq<string>, target: nat, i: nat)
    requires NoDup(labels) && |labels| == |caps| && i < |caps|
    ensures Allocate(caps, labels, target)[i] <= caps[i]
    ensures var cut, exact, m := Allocate(caps, labels, target)[i], Allocated(caps, target) * caps[i], Sum(caps);
            m > 0 ==> (cut - 1) * m < exact < (cut + 1) * m && (cut * m == exact <==> exact % m == 0)
  {
    hide Extra, Ranked, Give, Allocate, Sum, NoDup;
    AllocateAt(caps, labels, target, i);
    var a, m := Allocated(caps, target), Sum(caps);
    if m > 0 {
      ShareWithin(a, caps[i], m);
      ShareParts(a, caps[i], m);
      FairShare(Cents(a, caps[i], m), Left(a, caps[i], m), a * caps[i], m, Allocate(caps, labels, target)[i]);
    }
  }

  lemma FairShare(q: nat, r: nat, x: nat, m: nat, cut: nat)
    requires x == m * q + r && r < m && (cut == q || (cut == q + 1 && r > 0))
    ensures (cut as int - 1) * m < x < (cut + 1) * m
    ensures cut * m == x <==> r == 0
  {
    assert (q + 1) * m == m * q + m && (q + 2) * m == m * q + 2 * m && (q as int - 1) * m == m * q - m;
  }

  /** Whoever comes earlier in the order of remainders is never passed over for someone later. */
  lemma LargerRemainderFirst(caps: seq<nat>, labels: seq<string>, target: nat, i: nat, j: nat)
    requires NoDup(labels) && |labels| == |caps| && i < |caps| && j < |caps|
    requires Ahead(Remainders(caps, Allocated(caps, target), Sum(caps)), labels, i, j)
    requires Extra(caps, labels, target, j)
    ensures Extra(caps, labels, target, i)
  {
    hide Cents, Left, Pennies, Sum;
    var rest := Remainders(caps, Allocated(caps, target), Sum(caps));
    var ranked, p := Ranked(rest, labels), Pennies(caps, target);
    RankedInOrder(rest, labels);
    RankedHasAll(rest, labels, i);
    OrderIsLinear(rest, labels);
    hide Ranked, Remainders;
    var at, before :| 0 <= before < |ranked| && ranked[before] == i && 0 <= at < p && ranked[at] == j;
    assert Range(|rest|)[i] in Elems(Range(|rest|)) && Range(|rest|)[j] in Elems(Range(|rest|));
    NotAfter(ranked, Order(rest, labels), Elems(Range(|rest|)), at, before);
    assert ranked[..p][before] == i;
  }

  lemma RankedHasAll(rest: seq<nat>, labels: seq<string>, i: nat)
    requires i < |rest|
    ensures i in Ranked(rest, labels)
  {
    SortKeeps(Range(|rest|), Order(rest, labels));
    assert Range(|rest|)[i] in Elems(Range(|rest|));
  }

  lemma NotAfter(s: seq<int>, before: (int, int) -> bool, items: set<int>, j: nat, i: nat)
    requires Ascending(s, before) && Linear(items, before) && i < |s| && j < |s|
    requires s[i] in items && s[j] in items && before(s[i], s[j])
    ensures i < j
  {
    Asymmetric(before, items, s[i], s[j]);
  }

  lemma Asymmetric(before: (int, int) -> bool, items: set<int>, x: int, y: int)
    requires Linear(items, before) && x in items && y in items && before(x, y)
    ensures !before(y, x)
  {
  }

  /** A category that can give more is never asked for less. */
  lemma LargerCapacityCutsMore(caps: seq<nat>, labels: seq<string>, target: nat, i: nat, j: nat)
    requires NoDup(labels) && |labels| == |caps| && i < |caps| && j < |caps| && caps[j] < caps[i]
    ensures Allocate(caps, labels, target)[j] <= Allocate(caps, labels, target)[i]
  {
    hide Extra, Ranked, Give, Allocate, Sum, NoDup, Cents, Left;
    AllocateAt(caps, labels, target, i);
    AllocateAt(caps, labels, target, j);
    var a, m := Allocated(caps, target), Sum(caps);
    MemberWithinSum(caps, i);
    ShareParts(a, caps[i], m);
    ShareParts(a, caps[j], m);
    var qi, ri, qj, rj := Cents(a, caps[i], m), Left(a, caps[i], m), Cents(a, caps[j], m), Left(a, caps[j], m);
    AtMost(caps[j], caps[i], a);
    assert a * caps[i] == caps[i] * a && a * caps[j] == caps[j] * a;
    if qi < qj {
      Ratios.Steps(m, qi, qj);
    } else if qi == qj && Extra(caps, labels, target, j) && !Extra(caps, labels, target, i) {
      assert ri >= rj;
      if a > 0 {
        assert ri > rj by { Ratios.Steps(a, caps[j], caps[i]); }
        assert Ahead(Remainders(caps, a, m), labels, i, j);
        LargerRemainderFirst(caps, labels, target, i, j);
      } else {
        NothingToShare(caps[j], m);
      }
    }
  }

  lemma NothingToShare(cap: nat, m: nat)
    ensures Left(0, cap, m) == 0
  {
  }

  lemma {:induction false} MemberWithinSum(s: seq<nat>, i: nat)
    requires i < |s|
    ensures s[i] <= Sum(s)
  {
    if i == |s| - 1 {
    } else {
      MemberWithinSum(s[..|s| - 1], i);
    }
  }

  /** A target that cannot be met takes every category to its limit. */
  lemma OutOfReachTakesAll(caps: seq<nat>, labels: seq<string>, target: nat)
    requires NoDup(labels) && |labels| == |caps| && Sum(caps) <= target
    ensures Allocate(caps, labels, target) == caps
  {
    var r, m := Allocate(caps, labels, target), Sum(caps);
    hide Allocate, Sum, NoDup;
    forall i | 0 <= i < |caps|
      ensures r[i] == caps[i]
    {
      SpreadIsFair(caps, labels, target, i);
      MemberWithinSum(caps, i);
      if r[i] < caps[i] {
        assert m > 0 && r[i] + 1 <= caps[i];
        AtMost(r[i] + 1, caps[i], m);
      }
    }
  }
}
