/** Lists as the views use them: restriction to a set of items, removing and re-inserting one
    item, and swapping two positions. Every reorder in the program is one of these, applied to one
    flat list of which each visible group is a restriction. */
module Sequences {

  function Elems<T(!new)>(s: seq<T>): (r: set<T>)
    ensures forall x :: x in r <==> x in s
  {
    set x | x in s
  }

  ghost predicate NoDup<T(!new)>(s: seq<T>) {
    forall i, j :: 0 <= i < j < |s| ==> s[i] != s[j]
  }

  /** `s.map(f)`. */
  function Mapped<T, U>(s: seq<T>, f: T -> U): (r: seq<U>)
    ensures |r| == |s| && forall i :: 0 <= i < |s| ==> r[i] == f(s[i])
  {
    seq(|s|, i requires 0 <= i < |s| => f(s[i]))
  }

  /** `s.filter(x => keep.has(x))`. */
  function Only<T(==, !new)>(s: seq<T>, keep: set<T>): seq<T> {
    if s == [] then []
    else (if s[0] in keep then [s[0]] else []) + Only(s[1..], keep)
  }

  /** `s.indexOf(x)`: the first position of x, or -1. */
  function IndexOf<T(==, !new)>(s: seq<T>, x: T): (k: int)
    ensures -1 <= k < |s|
    ensures k == -1 <==> x !in s
    ensures k >= 0 ==> s[k] == x && x !in s[..k]
  {
    if s == [] then -1
    else if s[0] == x then 0
    else
      var rest := IndexOf(s[1..], x);
      assert rest >= 0 ==> s[..rest + 1] == [s[0]] + s[1..][..rest];
      if rest == -1 then -1 else rest + 1
  }

  function SwapAt<T(!new)>(s: seq<T>, i: nat, j: nat): seq<T>
    requires i < |s| && j < |s|
  {
    s[i := s[j]][j := s[i]]
  }

  /** Where `splice(at, 0, ...)` starts in a list of n items: a negative `at` counts from the end. */
  function SpliceStart(n: nat, at: int): (p: nat)
    ensures p <= n
  {
    if at < 0 then (if n + at < 0 then 0 else n + at) else if at > n then n else at
  }

  /** `s.splice(at, 0, x)`. */
  function Splice<T>(s: seq<T>, at: int, x: T): seq<T> {
    var start := SpliceStart(|s|, at);
    s[..start] + [x] + s[start..]
  }

  /** A drop: take x out of the list and put it back just before target. */
  function MoveBefore<T(==, !new)>(s: seq<T>, x: T, target: T): seq<T> {
    var rest := Only(s, Elems(s) - {x});
    Splice(rest, IndexOf(rest, target), x)
  }

  /** A keyboard move: swap x with its neighbour `dir` places along in the restriction of `flat` to
      `group`, wherever the two sit in `flat`. At the edge of the group nothing changes. */
  function SwapNeighbour<T(==, !new)>(flat: seq<T>, group: set<T>, x: T, dir: int): seq<T>
    requires dir == 1 || dir == -1
  {
    var shown := Only(flat, group);
    var k := IndexOf(shown, x);
    if k == -1 || !(0 <= k + dir < |shown|) then flat
    else
      OnlyElems(flat, group);
      assert shown[k] in shown && shown[k + dir] in shown;
      SwapAt(flat, IndexOf(flat, x), IndexOf(flat, shown[k + dir]))
  }

  // ---- Restriction ----

  lemma {:induction false} OnlyElems<T(!new)>(s: seq<T>, keep: set<T>)
    ensures forall x :: x in Only(s, keep) <==> x in s && x in keep
    ensures Elems(Only(s, keep)) == Elems(s) * keep
  {
    if s == [] {
    } else {
      OnlyElems(s[1..], keep);
      assert s == [s[0]] + s[1..];
      assert forall x :: x in s <==> x == s[0] || x in s[1..];
    }
  }

  lemma ConcatAssoc<T(!new)>(a: seq<T>, b: seq<T>, c: seq<T>)
    ensures a + b + c == a + (b + c)
  {
  }

  lemma {:induction false} OnlyConcat<T(!new)>(a: seq<T>, b: seq<T>, keep: set<T>)
    ensures Only(a + b, keep) == Only(a, keep) + Only(b, keep)
  {
    if a == [] {
      assert a + b == b;
    } else {
      OnlyConcat(a[1..], b, keep);
      assert (a + b)[1..] == a[1..] + b;
      ConcatAssoc(if a[0] in keep then [a[0]] else [], Only(a[1..], keep), Only(b, keep));
    }
  }

  lemma {:induction false} OnlyOnly<T(!new)>(s: seq<T>, a: set<T>, b: set<T>)
    ensures Only(Only(s, a), b) == Only(s, a * b)
  {
    if s == [] {
    } else {
      OnlyOnly(s[1..], a, b);
      OnlyConcat(if s[0] in a then [s[0]] else [], Only(s[1..], a), b);
    }
  }

  /** A restriction looks only at the items that occur. */
  lemma {:induction false} OnlyCongruent<T(!new)>(s: seq<T>, a: set<T>, b: set<T>)
    requires a * Elems(s) == b * Elems(s)
    ensures Only(s, a) == Only(s, b)
  {
    if s == [] {
    } else {
      assert s[0] in a <==> s[0] in a * Elems(s);
      assert s[0] in b <==> s[0] in b * Elems(s);
      assert Elems(s[1..]) <= Elems(s);
      assert forall x :: x in Elems(s[1..]) ==> (x in a <==> x in a * Elems(s)) && (x in b <==> x in b * Elems(s));
      OnlyCongruent(s[1..], a, b);
    }
  }

  lemma {:induction false} OnlyAll<T(!new)>(s: seq<T>, keep: set<T>)
    requires Elems(s) <= keep
    ensures Only(s, keep) == s
  {
    if s == [] {
    } else {
      assert Elems(s[1..]) <= Elems(s);
      OnlyAll(s[1..], keep);
    }
  }

  lemma OnlyNone<T(!new)>(s: seq<T>, keep: set<T>)
    requires Elems(s) * keep == {}
    ensures Only(s, keep) == []
  {
    OnlyElems(s, keep);
    assert forall x :: x !in Only(s, keep);
  }

  lemma {:induction false} OnlyNoDup<T(!new)>(s: seq<T>, keep: set<T>)
    requires NoDup(s)
    ensures NoDup(Only(s, keep))
  {
    if s == [] {
    } else {
      OnlyNoDup(s[1..], keep);
      OnlyElems(s[1..], keep);
      var rest := Only(s[1..], keep);
      forall j | 0 <= j < |rest|
        ensures rest[j] != s[0]
      {
        assert rest[j] in rest && rest[j] in s[1..];
      }
    }
  }

  lemma NoDupIndex<T(!new)>(s: seq<T>, i: nat)
    requires NoDup(s) && i < |s|
    ensures IndexOf(s, s[i]) == i
  {
  }

  lemma {:induction false} FirstAt<T(!new)>(s: seq<T>, x: T, k: nat)
    requires k < |s| && s[k] == x && x !in s[..k]
    ensures IndexOf(s, x) == k
  {
    if k == 0 {
    } else {
      assert s[0] in s[..k] && s[1..][..k - 1] == s[..k][1..];
      FirstAt(s[1..], x, k - 1);
    }
  }

  lemma NoDupConcat<T(!new)>(a: seq<T>, b: seq<T>)
    requires NoDup(a) && NoDup(b) && Elems(a) * Elems(b) == {}
    ensures NoDup(a + b)
  {
    forall i, j | 0 <= i < j < |a + b|
      ensures (a + b)[i] != (a + b)[j]
    {
      if i < |a| && |a| <= j {
        assert a[i] in Elems(a) && b[j - |a|] in Elems(b);
        assert a[i] !in Elems(a) * Elems(b);
      } else if i < |a| {
        assert (a + b)[j] == a[j];
      } else {
        assert (a + b)[i] == b[i - |a|] && (a + b)[j] == b[j - |a|];
      }
    }
  }

  lemma OnlyOne<T(!new)>(x: T, keep: set<T>)
    ensures Only([x], keep) == if x in keep then [x] else []
  {
  }

  lemma OnlyHead<T(!new)>(s: seq<T>, keep: set<T>)
    requires s != [] && s[0] in keep
    ensures Only(s, keep) != [] && Only(s, keep)[0] == s[0]
  {
  }

  lemma ElemsConcat<T(!new)>(a: seq<T>, b: seq<T>)
    ensures Elems(a + b) == Elems(a) + Elems(b)
  {
  }

  lemma NoDupSplit<T(!new)>(a: seq<T>, b: seq<T>)
    requires NoDup(a + b)
    ensures NoDup(a) && NoDup(b) && Elems(a) * Elems(b) == {}
  {
    assert forall i :: 0 <= i < |a| ==> a[i] == (a + b)[i];
    assert forall j :: 0 <= j < |b| ==> b[j] == (a + b)[|a| + j];
  }

  lemma NoDupParts<T(!new)>(a: seq<T>, b: seq<T>)
    ensures NoDup(a + b) <==> NoDup(a) && NoDup(b) && Elems(a) !! Elems(b)
  {
    hide NoDup;
    if NoDup(a + b) {
      NoDupSplit(a, b);
      assert forall x :: x in Elems(a) && x in Elems(b) ==> x in Elems(a) * Elems(b);
    } else if NoDup(a) && NoDup(b) && Elems(a) !! Elems(b) {
      NoDupConcat(a, b);
    }
  }

  /** Where item i of a list lands in a restriction that keeps it. */
  lemma OnlySplit<T(!new)>(s: seq<T>, i: nat, keep: set<T>)
    requires i < |s|
    ensures Only(s, keep) == Only(s[..i], keep) + (if s[i] in keep then [s[i]] else []) + Only(s[i + 1..], keep)
  {
    assert s == s[..i] + s[i..];
    OnlyConcat(s[..i], s[i..], keep);
  }

  lemma OnlySplitTwo<T(!new)>(s: seq<T>, i: nat, j: nat, keep: set<T>)
    requires i < j < |s|
    ensures Only(s, keep) ==
      Only(s[..i], keep) + (if s[i] in keep then [s[i]] else []) + Only(s[i + 1..j], keep)
      + (if s[j] in keep then [s[j]] else []) + Only(s[j + 1..], keep)
  {
    hide Only;
    OnlySplit(s, i, keep);
    OnlySplit(s[i + 1..], j - i - 1, keep);
    assert s[i + 1..][..j - i - 1] == s[i + 1..j];
    assert s[i + 1..][j - i..] == s[j + 1..];
  }

  // ---- Swapping two positions ----

  lemma SwapSymmetric<T(!new)>(s: seq<T>, i: nat, j: nat)
    requires i < |s| && j < |s|
    ensures SwapAt(s, i, j) == SwapAt(s, j, i)
    ensures SwapAt(SwapAt(s, i, j), i, j) == s
  {
  }

  lemma SwapChanges<T(!new)>(s: seq<T>, i: nat, j: nat)
    requires NoDup(s) && i < |s| && j < |s| && i != j
    ensures SwapAt(s, i, j) != s
  {
    assert SwapAt(s, i, j)[i] == s[j] != s[i];
  }

  lemma SwapElems<T(!new)>(s: seq<T>, i: nat, j: nat)
    requires i < |s| && j < |s|
    ensures Elems(SwapAt(s, i, j)) == Elems(s)
    ensures multiset(SwapAt(s, i, j)) == multiset(s)
    ensures NoDup(s) ==> NoDup(SwapAt(s, i, j))
  {
    var t := SwapAt(s, i, j);
    SwapIndices(s, i, j);
    hide SwapAt, NoDup;
    assert multiset(t) == multiset(s);
    assert forall x :: x in s <==> x in multiset(s);
    assert forall x :: x in t <==> x in multiset(t);
  }

  lemma SwapIndices<T(!new)>(s: seq<T>, i: nat, j: nat)
    requires i < |s| && j < |s|
    ensures multiset(SwapAt(s, i, j)) == multiset(s)
    ensures NoDup(s) ==> NoDup(SwapAt(s, i, j))
  {
  }

  lemma SwapPieces<T(!new)>(s: seq<T>, i: nat, j: nat, keep: set<T>)
    requires i < j < |s|
    ensures Only(SwapAt(s, i, j), keep) ==
      Only(s[..i], keep) + (if s[j] in keep then [s[j]] else []) + Only(s[i + 1..j], keep)
      + (if s[i] in keep then [s[i]] else []) + Only(s[j + 1..], keep)
  {
    hide Only;
    var t := SwapAt(s, i, j);
    OnlySplitTwo(t, i, j, keep);
    assert t[..i] == s[..i] && t[i + 1..j] == s[i + 1..j] && t[j + 1..] == s[j + 1..];
  }

  /** A swap of two items outside a group leaves the group's list alone, however far apart they are. */
  lemma SwapOutside<T(!new)>(s: seq<T>, i: nat, j: nat, keep: set<T>)
    requires i < |s| && j < |s| && s[i] !in keep && s[j] !in keep
    ensures Only(SwapAt(s, i, j), keep) == Only(s, keep)
  {
    hide Only;
    if i < j {
      SwapPieces(s, i, j, keep);
      OnlySplitTwo(s, i, j, keep);
    } else if j < i {
      SwapSymmetric(s, i, j);
      SwapPieces(s, j, i, keep);
      OnlySplitTwo(s, j, i, keep);
    } else {
      assert SwapAt(s, i, j) == s;
    }
  }

  /** Items of a restriction stand in the list in the same order. */
  lemma {:induction false} OnlyKeepsOrder<T(!new)>(s: seq<T>, keep: set<T>)
    requires NoDup(s)
    ensures forall i, j :: 0 <= i < j < |Only(s, keep)| ==> IndexOf(s, Only(s, keep)[i]) < IndexOf(s, Only(s, keep)[j])
  {
    if s == [] {
    } else {
      OnlyKeepsOrder(s[1..], keep);
      var rest := Only(s[1..], keep);
      OnlyElems(s[1..], keep);
      forall i | 0 <= i < |rest|
        ensures IndexOf(s, rest[i]) == IndexOf(s[1..], rest[i]) + 1 >= 1
      {
        assert rest[i] in rest && rest[i] in s[1..];
        TailIndex(s, rest[i]);
      }
      assert Only(s, keep) == (if s[0] in keep then [s[0]] else []) + rest;
      hide Only, IndexOf;
      assert IndexOf(s, s[0]) == 0 by { NoDupIndex(s, 0); }
    }
  }

  lemma TailIndex<T(!new)>(s: seq<T>, x: T)
    requires NoDup(s) && s != [] && x in s[1..]
    ensures IndexOf(s, x) == IndexOf(s[1..], x) + 1 >= 1
  {
    var k :| 0 <= k < |s[1..]| && s[1..][k] == x;
    assert s[k + 1] == x;
  }

  /** An item's place in a restriction is the number of kept items before it. */
  lemma RestrictedIndex<T(!new)>(s: seq<T>, i: nat, keep: set<T>)
    requires NoDup(s) && i < |s| && s[i] in keep
    ensures IndexOf(Only(s, keep), s[i]) == |Only(s[..i], keep)|
  {
    hide Only, NoDup;
    OnlySplit(s, i, keep);
    OnlyNoDup(s, keep);
    NoDupIndex(Only(s, keep), |Only(s[..i], keep)|);
  }

  /** Neighbours in a restriction have nothing of the group between them in the flat list. */
  lemma NeighbourGap<T(!new)>(s: seq<T>, keep: set<T>, k: nat)
    requires NoDup(s) && k + 1 < |Only(s, keep)|
    ensures var d := Only(s, keep); var i := IndexOf(s, d[k]); var j := IndexOf(s, d[k + 1]);
            0 <= i < j && |Only(s[..i], keep)| == k && Only(s[i + 1..j], keep) == []
  {
    hide Only, NoDup;
    var d := Only(s, keep);
    OnlyElems(s, keep);
    OnlyNoDup(s, keep);
    assert d[k] in d && d[k + 1] in d;
    var i, j := IndexOf(s, d[k]), IndexOf(s, d[k + 1]);
    NoDupIndex(d, k);
    NoDupIndex(d, k + 1);
    RestrictedIndex(s, i, keep);
    RestrictedIndex(s, j, keep);
    if i < j {
      PrefixGrows(s, i, j, keep);
    } else {
      PrefixGrows(s, j, i, keep);
    }
  }

  /** The length of a restricted prefix counts the kept items before a position. */
  lemma PrefixGrows<T(!new)>(s: seq<T>, i: nat, j: nat, keep: set<T>)
    requires i <= j < |s| && s[i] in keep
    ensures i < j ==> |Only(s[..j], keep)| == |Only(s[..i], keep)| + 1 + |Only(s[i + 1..j], keep)|
  {
    hide Only;
    if i < j {
      OnlySplit(s[..j], i, keep);
      assert s[..j][..i] == s[..i];
      assert s[..j][i + 1..] == s[i + 1..j];
    }
  }

  lemma SwapAdjacent<T(!new)>(s: seq<T>, keep: set<T>, k: nat)
    requires NoDup(s) && k + 1 < |Only(s, keep)|
    ensures var d := Only(s, keep); d[k] in s && d[k + 1] in s
    ensures var d := Only(s, keep);
            Only(SwapAt(s, IndexOf(s, d[k]), IndexOf(s, d[k + 1])), keep) == SwapAt(d, k, k + 1)
  {
    hide Only;
    var d := Only(s, keep);
    OnlyElems(s, keep);
    assert d[k] in d && d[k + 1] in d;
    NeighbourGap(s, keep, k);
    var i, j := IndexOf(s, d[k]), IndexOf(s, d[k + 1]);
    SwapPieces(s, i, j, keep);
    OnlySplitTwo(s, i, j, keep);
  }

  /** Whether x has a neighbour `dir` places along in its group's list. */
  predicate HasNeighbour<T(==, !new)>(shown: seq<T>, x: T, dir: int) {
    var k := IndexOf(shown, x);
    k != -1 && 0 <= k + dir < |shown|
  }

  lemma SwapNeighbourElems<T(!new)>(flat: seq<T>, group: set<T>, x: T, dir: int)
    requires dir == 1 || dir == -1
    ensures var next := SwapNeighbour(flat, group, x, dir);
            (NoDup(flat) ==> NoDup(next)) && Elems(next) == Elems(flat) && multiset(next) == multiset(flat)
    ensures !HasNeighbour(Only(flat, group), x, dir) ==> SwapNeighbour(flat, group, x, dir) == flat
  {
    hide Only;
    var d := Only(flat, group);
    var k := IndexOf(d, x);
    OnlyElems(flat, group);
    if HasNeighbour(d, x, dir) {
      assert d[k] in d && d[k + dir] in d;
      SwapElems(flat, IndexOf(flat, x), IndexOf(flat, d[k + dir]));
    }
  }

  /** A keyboard move swaps exactly the moved item and its neighbour in the group's own list. */
  lemma SwapNeighbourInside<T(!new)>(flat: seq<T>, group: set<T>, x: T, dir: int)
    requires NoDup(flat) && (dir == 1 || dir == -1)
    requires HasNeighbour(Only(flat, group), x, dir)
    ensures var d := Only(flat, group); var k := IndexOf(d, x);
            Only(SwapNeighbour(flat, group, x, dir), group) == SwapAt(d, k, k + dir)
  {
    hide Only;
    var d := Only(flat, group);
    var k := IndexOf(d, x);
    var low := if dir == 1 then k else k - 1;
    SwapAdjacent(flat, group, low);
    SwapSymmetric(flat, IndexOf(flat, d[low]), IndexOf(flat, d[low + 1]));
    SwapSymmetric(d, low, low + 1);
  }

  /** Any restriction without the two swapped items is unchanged. */
  lemma SwapNeighbourOutside<T(!new)>(flat: seq<T>, group: set<T>, x: T, dir: int, other: set<T>)
    requires NoDup(flat) && (dir == 1 || dir == -1)
    requires var d := Only(flat, group);
             HasNeighbour(d, x, dir) ==> x !in other && d[IndexOf(d, x) + dir] !in other
    ensures Only(SwapNeighbour(flat, group, x, dir), other) == Only(flat, other)
  {
    hide Only;
    var d := Only(flat, group);
    if HasNeighbour(d, x, dir) {
      var y := d[IndexOf(d, x) + dir];
      OnlyElems(flat, group);
      assert x in d && y in d;
      SwapOutside(flat, IndexOf(flat, x), IndexOf(flat, y), other);
    }
  }

  // ---- Dropping one item before another ----

  lemma RemoveAt<T(!new)>(s: seq<T>, p: nat)
    requires NoDup(s) && p < |s|
    ensures Only(s, Elems(s) - {s[p]}) == s[..p] + s[p + 1..]
  {
    hide Only;
    var keep := Elems(s) - {s[p]};
    OnlySplit(s, p, keep);
    forall x | x in Elems(s[..p]) ensures x in keep {
      var i :| 0 <= i < p && s[i] == x;
    }
    forall x | x in Elems(s[p + 1..]) ensures x in keep {
      var i :| 0 <= i < |s| - p - 1 && s[p + 1..][i] == x;
      assert s[p + 1 + i] == x;
    }
    OnlyAll(s[..p], keep);
    OnlyAll(s[p + 1..], keep);
  }

  /** A drop loses nothing but further copies of the dragged item. */
  lemma MoveBeforeElems<T(!new)>(s: seq<T>, x: T, target: T)
    ensures Elems(MoveBefore(s, x, target)) == Elems(s) + {x}
    ensures NoDup(s) ==> NoDup(MoveBefore(s, x, target))
  {
    hide Only, IndexOf, NoDup;
    var keep := Elems(s) - {x};
    var rest := Only(s, keep);
    var at := SpliceStart(|rest|, IndexOf(rest, target));
    var before, after := rest[..at], rest[at..];
    OnlyElems(s, keep);
    assert rest == before + after;
    ElemsConcat(before, after);
    ElemsConcat(before, [x]);
    ElemsConcat(before + [x], after);
    if NoDup(s) {
      OnlyNoDup(s, keep);
      NoDupSplit(before, after);
      NoDupOne(x);
      NoDupConcat(before, [x]);
      NoDupConcat(before + [x], after);
    }
  }

  lemma NoDupOne<T(!new)>(x: T)
    ensures NoDup([x])
  {
  }

  /** Wherever it was, and however often, the dragged item then stands once, just before the target. */
  lemma MoveBeforeLands<T(!new)>(s: seq<T>, x: T, target: T)
    requires target in s && x != target
    ensures var next := MoveBefore(s, x, target);
            Only(next, {x}) == [x] && IndexOf(next, x) >= 0 && IndexOf(next, x) + 1 == IndexOf(next, target)
  {
    hide Only, IndexOf;
    var keep := Elems(s) - {x};
    var rest := Only(s, keep);
    OnlyElems(s, keep);
    var at := IndexOf(rest, target);
    var next := MoveBefore(s, x, target);
    assert next == rest[..at] + [x] + rest[at..];
    assert next[..at] == rest[..at] && next[..at + 1] == rest[..at] + [x];
    FirstAt(next, x, at);
    FirstAt(next, target, at + 1);
    MoveBeforePieces(s, x, target, {x});
    assert {x} - {x} == {};
    OnlyNone(s, {});
  }

  lemma MoveBeforePieces<T(!new)>(s: seq<T>, x: T, target: T, group: set<T>)
    ensures var rest := Only(s, Elems(s) - {x}); var at := SpliceStart(|rest|, IndexOf(rest, target));
            Only(MoveBefore(s, x, target), group)
            == Only(rest[..at], group) + (if x in group then [x] else []) + Only(rest[at..], group)
            && Only(rest[..at], group) + Only(rest[at..], group) == Only(s, group - {x})
  {
    hide Only, NoDup;
    var keep := Elems(s) - {x};
    var rest := Only(s, keep);
    var at := SpliceStart(|rest|, IndexOf(rest, target));
    var before, after := rest[..at], rest[at..];
    OnlyConcat(before + [x], after, group);
    OnlyConcat(before, [x], group);
    OnlyOne(x, group);
    OnlyConcat(before, after, group);
    assert rest == before + after;
    OnlyOnly(s, keep, group);
    OnlyCongruent(s, keep * group, group - {x});
  }

  /** A group without the dragged item never sees the drop. */
  lemma MoveBeforeOutside<T(!new)>(s: seq<T>, x: T, target: T, group: set<T>)
    requires x !in group
    ensures Only(MoveBefore(s, x, target), group) == Only(s, group)
  {
    hide Only;
    MoveBeforePieces(s, x, target, group);
    assert group - {x} == group;
    var rest := Only(s, Elems(s) - {x});
    var at := SpliceStart(|rest|, IndexOf(rest, target));
    calc {
      Only(MoveBefore(s, x, target), group);
      Only(rest[..at], group) + [] + Only(rest[at..], group);
      Only(rest[..at], group) + Only(rest[at..], group);
      Only(s, group);
    }
  }

  /** A group that holds both items sees the same drop on its own list. */
  lemma MoveBeforeInside<T(!new)>(s: seq<T>, x: T, target: T, group: set<T>)
    requires NoDup(s) && target in s && x != target && x in group && target in group
    ensures target in Only(s, group)
    ensures Only(MoveBefore(s, x, target), group) == MoveBefore(Only(s, group), x, target)
  {
    hide Only;
    var rest := Only(s, Elems(s) - {x});
    OnlyElems(s, Elems(s) - {x});
    var at := IndexOf(rest, target);
    MoveBeforePieces(s, x, target, group);
    var before, after := Only(rest[..at], group), Only(rest[at..], group);
    var d := Only(s, group);
    OnlyElems(s, group);
    OnlyNoDup(s, group);
    OnlyOnly(s, group, Elems(d) - {x});
    OnlyCongruent(s, group * (Elems(d) - {x}), group - {x});
    assert Only(d, Elems(d) - {x}) == before + after;
    OnlyHead(rest[at..], group);
    OnlyNoDup(d, Elems(d) - {x});
    assert (before + after)[|before|] == target;
    NoDupIndex(before + after, |before|);
    assert (before + after)[..|before|] == before && (before + after)[|before|..] == after;
  }

  /** The part of a list before an item, restricted, is the restricted list before that item. */
  lemma BeforeInPart<T(!new)>(s: seq<T>, keep: set<T>, y: T)
    requires NoDup(s) && y in s && y in keep
    ensures y in Only(s, keep)
    ensures Only(s, keep)[..IndexOf(Only(s, keep), y)] == Only(s[..IndexOf(s, y)], keep)
  {
    hide Only, NoDup;
    var i := IndexOf(s, y);
    OnlyElems(s, keep);
    OnlySplit(s, i, keep);
    RestrictedIndex(s, i, keep);
  }

  /** A group that holds the dragged item, wherever the target is: there the item then stands after
      exactly those of the others that stood above the target in the flat list. */
  lemma MoveBeforeAnywhere<T(!new)>(s: seq<T>, x: T, target: T, group: set<T>)
    requires NoDup(s) && target in s && x != target && x in group
    ensures var others, above := Only(s, group - {x}), |Only(s[..IndexOf(s, target)], group - {x})|;
            above <= |others| && Only(MoveBefore(s, x, target), group) == others[..above] + [x] + others[above..]
  {
    hide Only, NoDup, MoveBefore;
    var keep := Elems(s) - {x};
    MoveBeforePieces(s, x, target, group);
    BeforeInPart(s, keep, target);
    var head := s[..IndexOf(s, target)];
    OnlyOnly(head, keep, group);
    assert Elems(head) <= Elems(s);
    OnlyCongruent(head, keep * group, group - {x});
  }

  /** Take the item at p out and put it back at q. */
  function Shifted<T>(s: seq<T>, p: nat, q: nat): seq<T>
    requires p < |s| && q < |s|
  {
    var rest := s[..p] + s[p + 1..];
    rest[..q] + [s[p]] + rest[q..]
  }

  /** A drop as a shift: the dragged item lands just above the target. */
  lemma MoveBeforeIsShift<T(!new)>(s: seq<T>, p: nat, q: nat)
    requires NoDup(s) && p < |s| && q < |s| && p != q
    ensures MoveBefore(s, s[p], s[q]) == Shifted(s, p, if p < q then q - 1 else q)
  {
    hide Only;
    RemoveAt(s, p);
    var rest := s[..p] + s[p + 1..];
    OnlyNoDup(s, Elems(s) - {s[p]});
    var at := if p < q then q - 1 else q;
    assert rest[at] == s[q];
    NoDupIndex(rest, at);
  }

  /** Extending a shift by one place is one more swap of neighbours. */
  lemma ShiftStep<T(!new)>(s: seq<T>, p: nat, q: nat, dir: int)
    requires p < |s| && q < |s| && 0 <= q + dir < |s| && (dir == 1 || dir == -1)
    requires dir == 1 ==> p <= q
    requires dir == -1 ==> q <= p
    ensures Shifted(s, p, q)[q] == s[p]
    ensures |Shifted(s, p, q)| == |s|
    ensures SwapAt(Shifted(s, p, q), q, q + dir) == Shifted(s, p, q + dir)
  {
    var a, b := SwapAt(Shifted(s, p, q), q, q + dir), Shifted(s, p, q + dir);
    forall k | 0 <= k < |s|
      ensures a[k] == b[k]
    {
    }
  }
}
