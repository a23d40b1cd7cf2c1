/** `[...s].sort(...)` by a comparison, and the order of labels as text. */
module Sorting {
  import opened Sequences

  /** Inserts x before everything that does not come strictly before it, so equals keep their order. */
  function Insert<T(!new)>(x: T, s: seq<T>, before: (T, T) -> bool): seq<T> {
    if s == [] then [x]
    else if before(s[0], x) then [s[0]] + Insert(x, s[1..], before)
    else [x] + s
  }

  function SortBy<T(!new)>(s: seq<T>, before: (T, T) -> bool): seq<T> {
    if s == [] then [] else Insert(s[0], SortBy(s[1..], before), before)
  }

  /** On these items the comparison is a strict order that separates any two. */
  ghost predicate Linear<T(!new)>(items: set<T>, before: (T, T) -> bool) {
    && (forall x :: x in items ==> !before(x, x))
    && (forall x, y :: x in items && y in items && x != y ==> before(x, y) || before(y, x))
    && (forall x, y, z :: x in items && y in items && z in items && before(x, y) && before(y, z) ==> before(x, z))
  }

  ghost predicate Ascending<T(!new)>(s: seq<T>, before: (T, T) -> bool) {
    forall i, j :: 0 <= i < j < |s| ==> before(s[i], s[j])
  }

  lemma {:induction false} InsertKeeps<T(!new)>(x: T, s: seq<T>, before: (T, T) -> bool)
    ensures multiset(Insert(x, s, before)) == multiset([x] + s)
    ensures Elems(Insert(x, s, before)) == Elems([x] + s)
  {
    if s == [] || !before(s[0], x) {
    } else {
      InsertStep(x, s, before);
      InsertKeeps(x, s[1..], before);
      Exchange(Insert(x, s, before), x, s, Insert(x, s[1..], before));
    }
  }

  lemma Exchange<T(!new)>(t: seq<T>, x: T, s: seq<T>, rest: seq<T>)
    requires s != [] && t != [] && t[0] == s[0] && t[1..] == rest
    requires multiset(rest) == multiset([x] + s[1..]) && Elems(rest) == Elems([x] + s[1..])
    ensures multiset(t) == multiset([x] + s) && Elems(t) == Elems([x] + s)
  {
    HeadAndRest(t);
    HeadAndRest(s);
    HeadAndRest([x] + s);
    HeadAndRest([x] + s[1..]);
    assert ([x] + s)[1..] == s && ([x] + s[1..])[1..] == s[1..];
  }

  lemma InsertStep<T(!new)>(x: T, s: seq<T>, before: (T, T) -> bool)
    requires s != [] && before(s[0], x)
    ensures var t := Insert(x, s, before); t != [] && t[0] == s[0] && t[1..] == Insert(x, s[1..], before)
  {
  }

  lemma HeadAndRest<T(!new)>(s: seq<T>)
    requires s != []
    ensures multiset(s) == multiset{s[0]} + multiset(s[1..])
    ensures Elems(s) == {s[0]} + Elems(s[1..])
  {
    assert s == [s[0]] + s[1..];
    ElemsConcat([s[0]], s[1..]);
  }

  /** Sorting only rearranges. */
  lemma {:induction false} SortKeeps<T(!new)>(s: seq<T>, before: (T, T) -> bool)
    ensures multiset(SortBy(s, before)) == multiset(s)
    ensures Elems(SortBy(s, before)) == Elems(s)
    ensures |SortBy(s, before)| == |s|
  {
    if s == [] {
    } else {
      SortKeeps(s[1..], before);
      InsertKeeps(s[0], SortBy(s[1..], before), before);
      HeadAndRest(s);
    }
    SizeOf(s, SortBy(s, before));
  }

  lemma SizeOf<T(!new)>(a: seq<T>, b: seq<T>)
    requires multiset(a) == multiset(b)
    ensures |a| == |b|
  {
    assert |multiset(a)| == |a| && |multiset(b)| == |b|;
  }

  lemma AscendingCons<T(!new)>(x: T, s: seq<T>, before: (T, T) -> bool)
    requires Ascending(s, before) && forall y :: y in s ==> before(x, y)
    ensures Ascending([x] + s, before)
  {
  }

  lemma AscendingTail<T(!new)>(s: seq<T>, before: (T, T) -> bool)
    requires Ascending(s, before) && s != []
    ensures Ascending(s[1..], before)
    ensures forall y :: y in s[1..] ==> before(s[0], y)
  {
  }

  lemma {:induction false} InsertAscending<T(!new)>(x: T, s: seq<T>, before: (T, T) -> bool)
    requires Ascending(s, before) && x !in s && Linear(Elems(s) + {x}, before)
    ensures Ascending(Insert(x, s, before), before)
  {
    if s == [] {
    } else {
      hide Ascending;
      AscendingTail(s, before);
      assert Elems(s[1..]) + {x} <= Elems(s) + {x} && s[0] in Elems(s);
      if before(s[0], x) {
        InsertAscending(x, s[1..], before);
        InsertKeeps(x, s[1..], before);
        assert forall y :: y in Insert(x, s[1..], before) ==> y in Elems(s[1..]) + {x};
        AscendingCons(s[0], Insert(x, s[1..], before), before);
      } else {
        forall y | y in s
          ensures before(x, y)
        {
          if y != s[0] {
            assert y in s[1..] && y in Elems(s) + {x};
          }
        }
        AscendingCons(x, s, before);
      }
    }
  }

  /** Distinct items end up strictly in order. */
  lemma {:induction false} SortAscending<T(!new)>(s: seq<T>, before: (T, T) -> bool)
    requires NoDup(s) && Linear(Elems(s), before)
    ensures Ascending(SortBy(s, before), before)
  {
    if s == [] {
    } else {
      var rest := s[1..];
      assert Elems(rest) <= Elems(s);
      SortAscending(rest, before);
      SortKeeps(rest, before);
      assert Elems(SortBy(rest, before)) + {s[0]} <= Elems(s);
      assert s[0] !in Elems(SortBy(rest, before)) by {
        assert forall j :: 0 <= j < |rest| ==> rest[j] == s[j + 1];
      }
      InsertAscending(s[0], SortBy(rest, before), before);
    }
  }

  /** There is only one way to put a set of items in strict order. */
  lemma {:induction false} OnlyOneOrder<T(!new)>(a: seq<T>, b: seq<T>, before: (T, T) -> bool)
    requires Ascending(a, before) && Ascending(b, before) && Elems(a) == Elems(b)
    requires Linear(Elems(a), before)
    ensures a == b
  {
    hide Ascending, Linear;
    NothingIn(a);
    NothingIn(b);
    if a == [] {
    } else {
      AscendingTail(a, before);
      AscendingTail(b, before);
      SameHead(a, b, before);
      HeadAndRest(a);
      HeadAndRest(b);
      LinearPart(Elems(a), Elems(a[1..]), before);
      assert Elems(a[1..]) == Elems(a) - {a[0]} == Elems(b[1..]);
      OnlyOneOrder(a[1..], b[1..], before);
      assert a == [a[0]] + a[1..] && b == [b[0]] + b[1..];
    }
  }

  lemma LinearPart<T(!new)>(items: set<T>, part: set<T>, before: (T, T) -> bool)
    requires Linear(items, before) && part <= items
    ensures Linear(part, before)
  {
  }

  lemma NothingIn<T(!new)>(s: seq<T>)
    ensures Elems(s) == {} <==> s == []
  {
    if s != [] {
      assert s[0] in Elems(s);
    }
  }

  lemma SameHead<T(!new)>(a: seq<T>, b: seq<T>, before: (T, T) -> bool)
    requires Ascending(a, before) && Ascending(b, before) && Elems(a) == Elems(b)
    requires Linear(Elems(a), before) && a != [] && b != []
    ensures a[0] == b[0]
    ensures a[0] !in a[1..] && b[0] !in b[1..]
  {
    assert a[0] in Elems(b) && b[0] in Elems(a);
    AscendingTail(a, before);
    AscendingTail(b, before);
    HeadAndRest(a);
    HeadAndRest(b);
  }

  /** Sorting distinct items gives the same list whatever order they came in. */
  lemma SortIgnoresOrder<T(!new)>(s: seq<T>, t: seq<T>, before: (T, T) -> bool)
    requires NoDup(s) && NoDup(t) && Elems(s) == Elems(t) && Linear(Elems(s), before)
    ensures SortBy(s, before) == SortBy(t, before)
  {
    SortAscending(s, before);
    SortAscending(t, before);
    SortKeeps(s, before);
    SortKeeps(t, before);
    OnlyOneOrder(SortBy(s, before), SortBy(t, before), before);
  }

  lemma AscendingNoDup<T(!new)>(s: seq<T>, before: (T, T) -> bool)
    requires Ascending(s, before) && Linear(Elems(s), before)
    ensures NoDup(s)
  {
    forall i, j | 0 <= i < j < |s|
      ensures s[i] != s[j]
    {
      assert before(s[i], s[j]) && s[i] in Elems(s);
    }
  }

  // ---- Rearranged lists ----

  lemma SameElems<T(!new)>(s: seq<T>, t: seq<T>)
    requires multiset(s) == multiset(t)
    ensures Elems(s) == Elems(t)
  {
    forall x
      ensures x in s <==> x in t
    {
      assert x in s <==> x in multiset(s);
      assert x in t <==> x in multiset(t);
    }
  }

  lemma {:induction false} AtMostOnce<T(!new)>(s: seq<T>, x: T)
    requires NoDup(s)
    ensures multiset(s)[x] <= 1
  {
    if s == [] {
    } else {
      var k := |s| - 1;
      AtMostOnce(s[..k], x);
      assert s == s[..k] + [s[k]];
      assert forall i :: 0 <= i < k ==> s[..k][i] != s[k];
    }
  }

  lemma AtLeastTwice<T(!new)>(s: seq<T>, i: nat, j: nat)
    requires i < j < |s| && s[i] == s[j]
    ensures multiset(s)[s[i]] >= 2
  {
    assert s == s[..j] + s[j..] && s[..j][i] == s[i] && s[j..][0] == s[j];
    assert multiset(s) == multiset(s[..j]) + multiset(s[j..]);
  }

  /** Rearranging a list cannot make distinct keys collide. */
  lemma DistinctKeys<T(!new)>(s: seq<T>, t: seq<T>, ks: seq<string>, kt: seq<string>, key: T -> string)
    requires multiset(s) == multiset(t) && |ks| == |s| && |kt| == |t|
    requires forall i :: 0 <= i < |s| ==> ks[i] == key(s[i])
    requires forall i :: 0 <= i < |t| ==> kt[i] == key(t[i])
    requires NoDup(ks)
    ensures NoDup(kt)
  {
    SameElems(s, t);
    forall i, j | 0 <= i < j < |t|
      ensures kt[i] != kt[j]
    {
      assert t[i] in Elems(s) && t[j] in Elems(s);
      if t[i] == t[j] {
        AtLeastTwice(t, i, j);
        assert NoDup(s) by {
          forall a, b | 0 <= a < b < |s|
            ensures s[a] != s[b]
          {
            assert ks[a] != ks[b];
          }
        }
        AtMostOnce(s, t[i]);
      } else {
        var a :| 0 <= a < |s| && s[a] == t[i];
        var b :| 0 <= b < |s| && s[b] == t[j];
        assert ks[a] != ks[b];
      }
    }
  }

  // ---- Labels ----

  /** `a < b` on texts: the first place where they differ decides, and a prefix comes first. */
  predicate LabelLess(a: string, b: string) {
    if b == "" then false
    else if a == "" then true
    else a[0] < b[0] || (a[0] == b[0] && LabelLess(a[1..], b[1..]))
  }

  /** One label is less than another exactly when it differs first by a smaller character, or is the part
      of the other up to some place. */
  lemma {:induction false} LabelLessExactly(a: string, b: string)
    ensures LabelLess(a, b) <==>
            exists k :: 0 <= k <= |a| && k < |b| && a[..k] == b[..k] && (k == |a| || a[k] < b[k])
  {
    if a == "" || b == "" {
      assert b != "" ==> a[..0] == b[..0];
    } else {
      forall k | 0 < k <= |a| && k < |b| && a[..k] == b[..k]
        ensures a[0] == b[0] && a[1..][..k - 1] == b[1..][..k - 1]
      {
        assert a[..k][0] == a[0] && b[..k][0] == b[0];
        assert a[..k][1..] == a[1..][..k - 1] && b[..k][1..] == b[1..][..k - 1];
      }
      assert a[..0] == b[..0];
      LabelLessExactly(a[1..], b[1..]);
      if a[0] == b[0] {
        if k :| 0 <= k <= |a[1..]| && k < |b[1..]| && a[1..][..k] == b[1..][..k]
                && (k == |a[1..]| || a[1..][k] < b[1..][k]) {
          LongerPrefix(a, b, k);
        }
      }
    }
  }

  lemma LongerPrefix(a: string, b: string, k: nat)
    requires a != "" && b != "" && a[0] == b[0] && k < |a| && k < |b| && a[1..][..k] == b[1..][..k]
    ensures a[..k + 1] == b[..k + 1]
  {
    assert a[..k + 1] == [a[0]] + a[1..][..k] && b[..k + 1] == [b[0]] + b[1..][..k];
  }

  lemma {:induction false} LabelIrreflexive(a: string)
    ensures !LabelLess(a, a)
  {
    if a == "" {
    } else {
      LabelIrreflexive(a[1..]);
    }
  }

  lemma {:induction false} LabelTotal(a: string, b: string)
    ensures a == b || LabelLess(a, b) || LabelLess(b, a)
  {
    if a == "" || b == "" || a[0] != b[0] {
    } else {
      LabelTotal(a[1..], b[1..]);
      if a[1..] == b[1..] {
        assert a == [a[0]] + a[1..] && b == [b[0]] + b[1..];
      }
    }
  }

  lemma {:induction false} LabelTransitive(a: string, b: string, c: string)
    requires LabelLess(a, b) && LabelLess(b, c)
    ensures LabelLess(a, c)
  {
    if a == "" || a[0] != b[0] || b[0] != c[0] {
    } else {
      LabelTransitive(a[1..], b[1..], c[1..]);
    }
  }
}
