/** The saved custom order: sorting a list by its positions in a stored order, with everything not
    yet positioned kept in its own order at the end. */
module CustomOrder {
  import opened Sequences
  import opened Sorting

  datatype Rank = At(i: nat) | Infinity

  /** One element of the list being sorted: the item, where it stood, and its rank. */
  datatype Ranked<T> = Ranked(c: T, i: nat, r: Rank)

  /** `new Map(order.map((c, i) => [c, i]))`: a repeated item keeps its last position. */
  function RankMap<T(==, !new)>(order: seq<T>): (m: map<T, nat>)
    ensures forall c :: c in m <==> c in order
  {
    if order == [] then map[]
    else
      var n := |order| - 1;
      assert order == order[..n] + [order[n]];
      RankMap(order[..n])[order[n] := n]
  }

  lemma {:induction false} RankMapIsLast<T(!new)>(order: seq<T>, k: nat)
    requires k < |order|
    ensures var p := RankMap(order)[order[k]]; k <= p < |order| && order[p] == order[k]
  {
    var n := |order| - 1;
    assert order == order[..n] + [order[n]];
    if order[k] == order[n] {
    } else {
      RankMapIsLast(order[..n], k);
    }
  }

  /** `rank.has(c) ? rank.get(c) : Infinity`. */
  function RankOf<T(==)>(rank: map<T, nat>, c: T): Rank {
    if c in rank then At(rank[c]) else Infinity
  }

  predicate RankLess(a: Rank, b: Rank) {
    a.At? && (b.Infinity? || a.i < b.i)
  }

  /** The comparator is negative: by rank, and by original position between equal ranks. */
  predicate Before<T>(a: Ranked<T>, b: Ranked<T>) {
    if a.r != b.r then RankLess(a.r, b.r) else a.i < b.i
  }

  function Decorate<T(==, !new)>(cats: seq<T>, rank: map<T, nat>, base: nat): (d: seq<Ranked<T>>)
    ensures |d| == |cats|
  {
    if cats == [] then [] else [Ranked(cats[0], base, RankOf(rank, cats[0]))] + Decorate(cats[1..], rank, base + 1)
  }

  /** `.sort(comparator)`. Which algorithm does the sorting is immaterial: see SortIsTheOnlySort. */
  function SortRanked<T(!new)>(xs: seq<Ranked<T>>): seq<Ranked<T>> {
    SortBy(xs, Before)
  }

  function Names<T>(xs: seq<Ranked<T>>): (n: seq<T>)
    ensures |n| == |xs|
    ensures forall k :: 0 <= k < |xs| ==> n[k] == xs[k].c
  {
    if xs == [] then [] else [xs[0].c] + Names(xs[1..])
  }

  function SortByCustomOrder<T(==, !new)>(cats: seq<T>, order: seq<T>): seq<T> {
    Names(SortRanked(Decorate(cats, RankMap(order), 0)))
  }

  // ---- The sort is a sort ----

  lemma {:induction false} DecorateAt<T(!new)>(cats: seq<T>, rank: map<T, nat>, base: nat, k: nat)
    requires k < |cats|
    ensures Decorate(cats, rank, base)[k] == Ranked(cats[k], base + k, RankOf(rank, cats[k]))
  {
    if k == 0 {
    } else {
      DecorateAt(cats[1..], rank, base + 1, k - 1);
    }
  }

  /** Every element has its own original position, so the comparator separates any two. */
  ghost predicate OwnPlaces<T(!new)>(xs: seq<Ranked<T>>) {
    forall i, j :: 0 <= i < j < |xs| ==> xs[i].i != xs[j].i
  }

  lemma BeforeIsLinear<T(!new)>(xs: seq<Ranked<T>>)
    requires OwnPlaces(xs)
    ensures Linear(Elems(xs), Before<T>) && NoDup(xs)
  {
    forall x, y | x in Elems(xs) && y in Elems(xs) && x != y
      ensures Before(x, y) || Before(y, x)
    {
      var i :| 0 <= i < |xs| && xs[i] == x;
      var j :| 0 <= j < |xs| && xs[j] == y;
      assert i < j || j < i;
    }
  }

  lemma SortRankedSorts<T(!new)>(xs: seq<Ranked<T>>)
    requires OwnPlaces(xs)
    ensures Ascending(SortRanked(xs), Before<T>)
    ensures multiset(SortRanked(xs)) == multiset(xs)
  {
    BeforeIsLinear(xs);
    SortAscending(xs, Before<T>);
    SortKeeps(xs, Before<T>);
  }

  /** Any rearrangement of the decorated list that the comparator calls sorted is the modelled one,
      so the result does not depend on the sorting algorithm. */
  lemma SortIsTheOnlySort<T(!new)>(cats: seq<T>, order: seq<T>, ys: seq<Ranked<T>>)
    requires Ascending(ys, Before<T>) && multiset(ys) == multiset(Decorate(cats, RankMap(order), 0))
    ensures Names(ys) == SortByCustomOrder(cats, order)
  {
    var d := Decorate(cats, RankMap(order), 0);
    forall i, j | 0 <= i < j < |d|
      ensures d[i].i != d[j].i
    {
      DecorateAt(cats, RankMap(order), 0, i);
      DecorateAt(cats, RankMap(order), 0, j);
    }
    SortRankedSorts(d);
    BeforeIsLinear(d);
    SameElems(ys, d);
    SortKeeps(d, Before<T>);
    OnlyOneOrder(ys, SortRanked(d), Before<T>);
  }

  // ---- The closed form ----

  /** The stored order with only the last occurrence of each item. */
  function KeepLast<T(==, !new)>(order: seq<T>): (k: seq<T>)
    ensures Elems(k) == Elems(order)
  {
    if order == [] then []
    else
      assert order == [order[0]] + order[1..];
      assert forall c :: c in order <==> c == order[0] || c in order[1..];
      if order[0] in order[1..] then KeepLast(order[1..]) else [order[0]] + KeepLast(order[1..])
  }

  /** The items of `cats`, gathered in the order of `ks`. */
  function Gather<T(==, !new)>(cats: seq<T>, ks: seq<T>): seq<T> {
    if ks == [] then [] else Only(cats, {ks[0]}) + Gather(cats, ks[1..])
  }

  /** Positioned items in stored order, then the others in their original order. */
  function Arranged<T(==, !new)>(cats: seq<T>, order: seq<T>): seq<T> {
    Gather(cats, KeepLast(order)) + Only(cats, Elems(cats) - Elems(order))
  }

  lemma {:induction false} KeepLastNoDup<T(!new)>(order: seq<T>)
    ensures NoDup(KeepLast(order))
  {
    if order == [] {
    } else {
      KeepLastNoDup(order[1..]);
      if order[0] !in order[1..] {
        assert Elems([order[0]]) * Elems(KeepLast(order[1..])) == {};
        NoDupConcat([order[0]], KeepLast(order[1..]));
      }
    }
  }

  lemma {:induction false} KeepLastOfNoDup<T(!new)>(order: seq<T>)
    requires NoDup(order)
    ensures KeepLast(order) == order
  {
    if order == [] {
    } else {
      KeepLastOfNoDup(order[1..]);
      assert order[0] !in order[1..];
    }
  }

  /** The name-level insertion the sort performs when the new item stands before all the others. */
  function InsertName<T(==, !new)>(c: T, names: seq<T>, rank: map<T, nat>): seq<T> {
    if names == [] || !RankLess(RankOf(rank, names[0]), RankOf(rank, c)) then [c] + names
    else [names[0]] + InsertName(c, names[1..], rank)
  }

  lemma {:induction false} InsertRankedNames<T(!new)>(x: Ranked<T>, xs: seq<Ranked<T>>, rank: map<T, nat>)
    requires x.r == RankOf(rank, x.c)
    requires forall k :: 0 <= k < |xs| ==> xs[k].r == RankOf(rank, xs[k].c) && x.i < xs[k].i
    ensures Names(Insert(x, xs, Before<T>)) == InsertName(x.c, Names(xs), rank)
  {
    if xs == [] {
    } else {
      assert Names(xs)[1..] == Names(xs[1..]);
      if !Before(x, xs[0]) {
        InsertRankedNames(x, xs[1..], rank);
      }
    }
  }

  lemma {:induction false} InsertSkips<T(!new)>(c: T, block: seq<T>, tail: seq<T>, rank: map<T, nat>)
    requires forall b :: b in block ==> RankLess(RankOf(rank, b), RankOf(rank, c))
    ensures InsertName(c, block + tail, rank) == block + InsertName(c, tail, rank)
  {
    if block == [] {
      assert block + tail == tail;
    } else {
      var names := block + tail;
      assert names[1..] == block[1..] + tail && names[0] == block[0] && block[0] in block;
      forall b | b in block[1..] ensures b in block {
        var k :| 0 <= k < |block[1..]| && block[1..][k] == b;
        assert block[k + 1] == b;
      }
      InsertSkips(c, block[1..], tail, rank);
      assert InsertName(c, names, rank) == [block[0]] + InsertName(c, names[1..], rank);
    }
  }

  /** Along `ks`, ranks grow. */
  ghost predicate RankSorted<T(!new)>(ks: seq<T>, rank: map<T, nat>) {
    forall i, j :: 0 <= i < j < |ks| ==> RankLess(RankOf(rank, ks[i]), RankOf(rank, ks[j]))
  }

  lemma {:induction false} KeepLastSuffix<T(!new)>(order: seq<T>, from: nat)
    requires from <= |order|
    ensures RankSorted(KeepLast(order[from..]), RankMap(order))
    decreases |order| - from
  {
    if from == |order| {
    } else {
      KeepLastSuffix(order, from + 1);
      var rest := order[from..];
      assert rest[1..] == order[from + 1..];
      if rest[0] !in rest[1..] {
        RankMapIsLast(order, from);
        forall k | from < k < |order|
          ensures order[k] != order[from]
        {
          assert order[k] == rest[1..][k - from - 1];
        }
        var later := KeepLast(rest[1..]);
        forall j | 0 <= j < |later|
          ensures RankLess(RankOf(RankMap(order), rest[0]), RankOf(RankMap(order), later[j]))
        {
          assert later[j] in Elems(later);
          var q :| 0 <= q < |rest[1..]| && rest[1..][q] == later[j];
          assert order[from + 1 + q] == later[j];
          RankMapIsLast(order, from + 1 + q);
        }
      }
    }
  }

  lemma {:induction false} GatherElems<T(!new)>(cats: seq<T>, ks: seq<T>)
    ensures Elems(Gather(cats, ks)) == Elems(cats) * Elems(ks)
  {
    if ks == [] {
    } else {
      GatherElems(cats, ks[1..]);
      OnlyElems(cats, {ks[0]});
      assert ks == [ks[0]] + ks[1..];
      assert forall c :: c in ks <==> c == ks[0] || c in ks[1..];
      assert forall c :: c in Gather(cats, ks) <==> c in Only(cats, {ks[0]}) || c in Gather(cats, ks[1..]);
      assert forall c :: c in Gather(cats, ks[1..]) <==> c in Elems(cats) * Elems(ks[1..]);
    }
  }

  lemma OnlySkipsHead<T(!new)>(c: T, rest: seq<T>, keep: set<T>)
    requires c !in keep
    ensures Only([c] + rest, keep) == Only(rest, keep)
  {
    assert ([c] + rest)[1..] == rest;
  }

  lemma {:induction false} GatherSkips<T(!new)>(c: T, rest: seq<T>, ks: seq<T>)
    requires c !in ks
    ensures Gather([c] + rest, ks) == Gather(rest, ks)
  {
    if ks == [] {
    } else {
      GatherSkips(c, rest, ks[1..]);
      OnlySkipsHead(c, rest, {ks[0]});
    }
  }

  lemma GatherRanks<T(!new)>(c: T, rest: seq<T>, ks: seq<T>, rank: map<T, nat>)
    requires ks != [] && RankSorted(ks, rank) && c == ks[0]
    ensures forall n :: n in Gather(rest, ks) ==> !RankLess(RankOf(rank, n), RankOf(rank, c))
  {
    GatherElems(rest, ks);
    forall n | n in Gather(rest, ks)
      ensures !RankLess(RankOf(rank, n), RankOf(rank, c))
    {
      assert n in Elems(Gather(rest, ks));
      var j :| 0 <= j < |ks| && ks[j] == n;
    }
  }

  lemma InsertAtFront<T(!new)>(c: T, names: seq<T>, rank: map<T, nat>)
    requires forall n :: n in names ==> !RankLess(RankOf(rank, n), RankOf(rank, c))
    ensures InsertName(c, names, rank) == [c] + names
  {
  }

  /** Prepending an item that is not the first key leaves the first block alone. */
  lemma GatherOther<T(!new)>(c: T, rest: seq<T>, ks: seq<T>)
    requires ks != [] && c != ks[0]
    ensures Gather([c] + rest, ks) == Only(rest, {ks[0]}) + Gather([c] + rest, ks[1..])
  {
    OnlySkipsHead(c, rest, {ks[0]});
  }

  lemma GatherFirst<T(!new)>(c: T, rest: seq<T>, ks: seq<T>)
    requires ks != [] && c == ks[0] && NoDup(ks)
    ensures Gather([c] + rest, ks) == [c] + Gather(rest, ks)
  {
    assert ([c] + rest)[1..] == rest;
    forall k | k in ks[1..] ensures k != c {
      var j :| 0 <= j < |ks[1..]| && ks[1..][j] == k;
      assert ks[j + 1] == k;
    }
    GatherSkips(c, rest, ks[1..]);
    ConcatAssoc([c], Only(rest, {c}), Gather(rest, ks[1..]));
  }

  lemma {:induction false} InsertPositioned<T(!new)>(c: T, rest: seq<T>, ks: seq<T>, tail: seq<T>, rank: map<T, nat>)
    requires RankSorted(ks, rank) && NoDup(ks) && c in ks
    requires forall t :: t in tail ==> !RankLess(RankOf(rank, t), RankOf(rank, c))
    ensures InsertName(c, Gather(rest, ks) + tail, rank) == Gather([c] + rest, ks) + tail
  {
    var block, more := Only(rest, {ks[0]}), Gather(rest, ks[1..]);
    if c == ks[0] {
      GatherRanks(c, rest, ks, rank);
      InsertAtFront(c, Gather(rest, ks) + tail, rank);
      GatherFirst(c, rest, ks);
      ConcatAssoc([c], Gather(rest, ks), tail);
    } else {
      var j :| 0 <= j < |ks| && ks[j] == c;
      assert ks[1..][j - 1] == c;
      InsertPositioned(c, rest, ks[1..], tail, rank);
      assert RankLess(RankOf(rank, ks[0]), RankOf(rank, ks[j]));
      InsertBehindBlock(c, rest, ks, tail, rank);
    }
  }

  lemma InsertBehindBlock<T(!new)>(c: T, rest: seq<T>, ks: seq<T>, tail: seq<T>, rank: map<T, nat>)
    requires ks != [] && c != ks[0] && RankLess(RankOf(rank, ks[0]), RankOf(rank, c))
    requires InsertName(c, Gather(rest, ks[1..]) + tail, rank) == Gather([c] + rest, ks[1..]) + tail
    ensures InsertName(c, Gather(rest, ks) + tail, rank) == Gather([c] + rest, ks) + tail
  {
    var block, more, more' := Only(rest, {ks[0]}), Gather(rest, ks[1..]), Gather([c] + rest, ks[1..]);
    OnlyElems(rest, {ks[0]});
    calc {
      InsertName(c, Gather(rest, ks) + tail, rank);
      { ConcatAssoc(block, more, tail); }
      InsertName(c, block + (more + tail), rank);
      { InsertSkips(c, block, more + tail, rank); }
      block + (more' + tail);
      { ConcatAssoc(block, more', tail); }
      (block + more') + tail;
      { GatherOther(c, rest, ks); }
      Gather([c] + rest, ks) + tail;
    }
  }

  lemma InsertArranged<T(!new)>(c: T, rest: seq<T>, order: seq<T>)
    ensures InsertName(c, Arranged(rest, order), RankMap(order)) == Arranged([c] + rest, order)
  {
    hide Gather, KeepLast, RankMap, InsertName;
    var rank := RankMap(order);
    var ks := KeepLast(order);
    var all := [c] + rest;
    var loose := Only(rest, Elems(rest) - Elems(order));
    assert all[1..] == rest;
    OnlyElems(rest, Elems(rest) - Elems(order));
    OnlyCongruent(rest, Elems(rest) - Elems(order), Elems(all) - Elems(order));
    if c in order {
      assert order[0..] == order;
      KeepLastSuffix(order, 0);
      KeepLastNoDup(order);
      assert c in Elems(ks);
      InsertPositioned(c, rest, ks, loose, rank);
    } else {
      assert c !in Elems(ks);
      InsertLoose(c, rest, ks, loose, rank);
    }
  }

  lemma InsertLoose<T(!new)>(c: T, rest: seq<T>, ks: seq<T>, loose: seq<T>, rank: map<T, nat>)
    requires c !in rank && c !in ks
    requires forall k :: k in ks ==> k in rank
    requires forall n :: n in loose ==> n !in rank
    ensures InsertName(c, Gather(rest, ks) + loose, rank) == Gather([c] + rest, ks) + ([c] + loose)
  {
    GatherElems(rest, ks);
    forall b | b in Gather(rest, ks)
      ensures RankLess(RankOf(rank, b), RankOf(rank, c))
    {
      assert b in Elems(Gather(rest, ks));
    }
    InsertSkips(c, Gather(rest, ks), loose, rank);
    InsertAtFront(c, loose, rank);
    GatherSkips(c, rest, ks);
  }

  lemma {:induction false} GatherOfNone<T(!new)>(ks: seq<T>)
    ensures Gather([], ks) == []
  {
    if ks == [] {
    } else {
      GatherOfNone(ks[1..]);
    }
  }

  lemma SortStep<T(!new)>(cats: seq<T>, rank: map<T, nat>, base: nat)
    requires cats != []
    ensures Names(SortRanked(Decorate(cats, rank, base)))
         == InsertName(cats[0], Names(SortRanked(Decorate(cats[1..], rank, base + 1))), rank)
  {
    var d := Decorate(cats, rank, base);
    var tail := Decorate(cats[1..], rank, base + 1);
    assert d[1..] == tail;
    forall i, j | 0 <= i < j < |tail|
      ensures tail[i].i != tail[j].i
    {
      DecorateAt(cats[1..], rank, base + 1, i);
      DecorateAt(cats[1..], rank, base + 1, j);
    }
    SortRankedSorts(tail);
    var s := SortRanked(tail);
    forall k | 0 <= k < |s|
      ensures s[k].r == RankOf(rank, s[k].c) && d[0].i < s[k].i
    {
      assert s[k] in multiset(s);
      assert s[k] in tail;
      var j :| 0 <= j < |tail| && tail[j] == s[k];
      DecorateAt(cats[1..], rank, base + 1, j);
    }
    InsertRankedNames(d[0], s, rank);
  }

  lemma {:induction false} SortNames<T(!new)>(cats: seq<T>, order: seq<T>, base: nat)
    ensures Names(SortRanked(Decorate(cats, RankMap(order), base))) == Arranged(cats, order)
  {
    if cats == [] {
      GatherOfNone(KeepLast(order));
    } else {
      SortNames(cats[1..], order, base + 1);
      SortStep(cats, RankMap(order), base);
      InsertArranged(cats[0], cats[1..], order);
      assert [cats[0]] + cats[1..] == cats;
    }
  }

  /** Positioned items come first, in stored order, then everything else in its original order:
      for every list, repeated items included, and every stored order, repeated entries included. */
  lemma SortIsArranged<T(!new)>(cats: seq<T>, order: seq<T>)
    ensures SortByCustomOrder(cats, order) == Arranged(cats, order)
  {
    SortNames(cats, order, 0);
  }

  lemma {:induction false} NamesConcat<T(!new)>(a: seq<Ranked<T>>, b: seq<Ranked<T>>)
    ensures Names(a + b) == Names(a) + Names(b)
  {
    if a == [] {
      assert a + b == b;
    } else {
      assert (a + b)[1..] == a[1..] + b;
      NamesConcat(a[1..], b);
    }
  }

  lemma NamesWithout<T(!new)>(before: seq<Ranked<T>>, x: Ranked<T>, after: seq<Ranked<T>>)
    ensures multiset(Names(before + ([x] + after))) == multiset{x.c} + multiset(Names(before + after))
  {
    NamesConcat(before, [x] + after);
    NamesConcat([x], after);
    NamesConcat(before, after);
  }

  lemma {:induction false} NamesMultiset<T(!new)>(a: seq<Ranked<T>>, b: seq<Ranked<T>>)
    requires multiset(a) == multiset(b)
    ensures multiset(Names(a)) == multiset(Names(b))
  {
    assert |multiset(a)| == |a| && |multiset(b)| == |b|;
    if a == [] {
      assert b == [];
    } else {
      assert a[0] in multiset(b);
      var k :| 0 <= k < |b| && b[k] == a[0];
      var before, after := b[..k], b[k + 1..];
      assert b == before + ([b[k]] + after) by {
        assert b == before + b[k..];
      }
      SameWithoutFirst(a, before, after);
      NamesMultiset(a[1..], before + after);
      NamesWithout(before, b[k], after);
      assert Names(a) == [a[0].c] + Names(a[1..]);
    }
  }

  lemma SameWithoutFirst<T(!new)>(a: seq<Ranked<T>>, before: seq<Ranked<T>>, after: seq<Ranked<T>>)
    requires a != [] && multiset(a) == multiset(before + ([a[0]] + after))
    ensures multiset(a[1..]) == multiset(before + after)
  {
    assert a == [a[0]] + a[1..];
    var whole := before + ([a[0]] + after);
    assert multiset(whole) == multiset(before) + (multiset{a[0]} + multiset(after));
    assert multiset(a[1..]) == multiset(a) - multiset{a[0]};
    assert multiset(before + after) == multiset(whole) - multiset{a[0]};
  }

  /** The result is a rearrangement of the input: nothing is lost, added or repeated. */
  lemma SortIsPermutation<T(!new)>(cats: seq<T>, order: seq<T>)
    ensures multiset(SortByCustomOrder(cats, order)) == multiset(cats)
  {
    var d := Decorate(cats, RankMap(order), 0);
    forall i, j | 0 <= i < j < |d|
      ensures d[i].i != d[j].i
    {
      DecorateAt(cats, RankMap(order), 0, i);
      DecorateAt(cats, RankMap(order), 0, j);
    }
    SortRankedSorts(d);
    NamesMultiset(d, SortRanked(d));
    forall k | 0 <= k < |cats|
      ensures Names(d)[k] == cats[k]
    {
      DecorateAt(cats, RankMap(order), 0, k);
    }
    assert Names(d) == cats;
  }

  lemma {:induction false} GatherOnly<T(!new)>(cats: seq<T>, ks: seq<T>, keep: set<T>)
    ensures Only(Gather(cats, ks), keep) == Gather(Only(cats, keep), ks)
  {
    if ks == [] {
    } else {
      GatherOnly(cats, ks[1..], keep);
      OnlyConcat(Only(cats, {ks[0]}), Gather(cats, ks[1..]), keep);
      OnlyOnly(cats, {ks[0]}, keep);
      OnlyOnly(cats, keep, {ks[0]});
      assert {ks[0]} * keep == keep * {ks[0]};
    }
  }

  /** Sorting everything and then keeping a part equals sorting that part alone: a month's display
      does not depend on which other categories are known. */
  lemma SortCommutesWithOnly<T(!new)>(cats: seq<T>, order: seq<T>, keep: set<T>)
    ensures Only(SortByCustomOrder(cats, order), keep) == SortByCustomOrder(Only(cats, keep), order)
  {
    hide Only, KeepLast;
    SortIsArranged(cats, order);
    SortIsArranged(Only(cats, keep), order);
    var loose := Elems(cats) - Elems(order);
    var kept := Only(cats, keep);
    OnlyConcat(Gather(cats, KeepLast(order)), Only(cats, loose), keep);
    GatherOnly(cats, KeepLast(order), keep);
    OnlyOnly(cats, loose, keep);
    OnlyOnly(cats, keep, Elems(kept) - Elems(order));
    OnlyElems(cats, keep);
    OnlyCongruent(cats, loose * keep, keep * (Elems(kept) - Elems(order)));
  }

  lemma OnlyOfOne<T(!new)>(cats: seq<T>, k: T)
    requires NoDup(cats)
    ensures Only(cats, {k}) == if k in cats then [k] else []
  {
    hide Only;
    if k in cats {
      var p := IndexOf(cats, k);
      OnlySplit(cats, p, {k});
      OnlyNone(cats[..p], {k});
      OnlyNone(cats[p + 1..], {k});
    } else {
      OnlyNone(cats, {k});
    }
  }

  lemma {:induction false} GatherOfNoDup<T(!new)>(cats: seq<T>, ks: seq<T>)
    requires NoDup(cats)
    ensures Gather(cats, ks) == Only(ks, Elems(cats))
  {
    hide NoDup;
    if ks == [] {
    } else {
      GatherOfNoDup(cats, ks[1..]);
      OnlyOfOne(cats, ks[0]);
    }
  }

  /** For distinct items: the stored order restricted to them, then the unpositioned ones. */
  lemma SortOfDistinct<T(!new)>(cats: seq<T>, order: seq<T>)
    requires NoDup(cats)
    ensures SortByCustomOrder(cats, order)
             == Only(KeepLast(order), Elems(cats)) + Only(cats, Elems(cats) - Elems(order))
  {
    hide Only, KeepLast;
    SortIsArranged(cats, order);
    GatherOfNoDup(cats, KeepLast(order));
  }
}
