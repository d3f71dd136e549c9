/**
 * Orders, and the two in-place `Vec` operations the resolver applies to
 * paths and branch names: `sort` and `dedup`. Both orders the source sorts
 * by (`Path`'s and `str`'s `Ord`) are strict total orders and lexicographic
 * over their elements, so they are built here from one lexicographic
 * extension.
 */
module Ordering {

  ghost predicate StrictTotalOrder<T(!new)>(less: (T, T) -> bool) {
    && (forall a :: !less(a, a))
    && (forall a, b, c :: less(a, b) && less(b, c) ==> less(a, c))
    && (forall a, b :: a != b ==> less(a, b) || less(b, a))
  }

  /** Non-decreasing: no element is smaller than one before it. */
  predicate Sorted<T>(s: seq<T>, less: (T, T) -> bool) {
    forall i, j :: 0 <= i < j < |s| ==> !less(s[j], s[i])
  }

  /** Strictly increasing, hence also free of duplicates. */
  predicate StrictlySorted<T>(s: seq<T>, less: (T, T) -> bool) {
    forall i, j :: 0 <= i < j < |s| ==> less(s[i], s[j])
  }

  lemma Antisymmetric<T(!new)>(less: (T, T) -> bool, a: T, b: T)
    requires StrictTotalOrder(less)
    requires !less(a, b) && !less(b, a)
    ensures a == b
  {
  }

  /** "Not greater than" is transitive. */
  lemma LessEqTransitive<T(!new)>(less: (T, T) -> bool, a: T, b: T, c: T)
    requires StrictTotalOrder(less)
    requires !less(b, a) && !less(c, b)
    ensures !less(c, a)
  {
    if less(c, a) {
      if a == b {
      } else if less(a, b) {
      }
    }
  }

  /** Places `x` before the first element of `s` that is not smaller than it. */
  function Insert<T>(x: T, s: seq<T>, less: (T, T) -> bool): seq<T> {
    if s == [] then [x]
    else if less(s[0], x) then [s[0]] + Insert(x, s[1..], less)
    else [x] + s
  }

  lemma {:induction false} InsertSorted<T(!new)>(x: T, s: seq<T>, less: (T, T) -> bool)
    requires StrictTotalOrder(less) && Sorted(s, less)
    ensures Sorted(Insert(x, s, less), less)
    ensures multiset(Insert(x, s, less)) == multiset(s) + multiset{x}
  {
    if s == [] {
    } else if less(s[0], x) {
      var t := s[1..];
      InsertSorted(x, t, less);
      InsertAfterHead(x, s, Insert(x, t, less), less);
    } else {
      InsertAtFront(x, s, less);
    }
  }

  /** Prepending the head to the sorted insertion into the tail keeps order. */
  lemma InsertAfterHead<T(!new)>(x: T, s: seq<T>, r: seq<T>, less: (T, T) -> bool)
    requires StrictTotalOrder(less) && Sorted(s, less) && s != [] && less(s[0], x)
    requires Sorted(r, less) && multiset(r) == multiset(s[1..]) + multiset{x}
    ensures Sorted([s[0]] + r, less)
    ensures multiset([s[0]] + r) == multiset(s) + multiset{x}
  {
    var t := s[1..];
    assert s == [s[0]] + t;
    forall j | 0 <= j < |r| ensures !less(r[j], s[0]) {
      assert r[j] in multiset(r);
      if r[j] != x {
        assert r[j] in multiset(t);
        var k :| 0 <= k < |t| && t[k] == r[j];
        assert s[k + 1] == r[j];
      }
    }
    var q := [s[0]] + r;
    forall i, j | 0 <= i < j < |q| ensures !less(q[j], q[i]) {
      if i == 0 {
        assert q[j] == r[j - 1];
      } else {
        assert q[i] == r[i - 1] && q[j] == r[j - 1];
      }
    }
  }

  /** An element no larger than the head of a sorted sequence may go first. */
  lemma InsertAtFront<T(!new)>(x: T, s: seq<T>, less: (T, T) -> bool)
    requires StrictTotalOrder(less) && Sorted(s, less) && s != [] && !less(s[0], x)
    ensures Sorted([x] + s, less)
  {
    var q := [x] + s;
    forall i, j | 0 <= i < j < |q| ensures !less(q[j], q[i]) {
      if i == 0 {
        LessEqTransitive(less, x, s[0], s[j - 1]);
      } else {
        assert q[i] == s[i - 1] && q[j] == s[j - 1];
      }
    }
  }

  /**
   * `slice::sort`. A stable sort under a strict total order has exactly one
   * possible result (SortedUnique), so insertion sort stands for the library's.
   */
  function Sort<T(==,!new)>(s: seq<T>, less: (T, T) -> bool): (r: seq<T>)
    requires StrictTotalOrder(less)
    ensures Sorted(r, less)
    ensures multiset(r) == multiset(s)
  {
    if s == [] then []
    else
      var rest := Sort(s[1..], less);
      InsertSorted(s[0], rest, less);
      assert s == [s[0]] + s[1..];
      Insert(s[0], rest, less)
  }

  /** Nothing in a sorted sequence is smaller than its first element. */
  lemma SortedHeadLeast<T(!new)>(a: seq<T>, x: T, less: (T, T) -> bool)
    requires StrictTotalOrder(less) && Sorted(a, less) && x in a
    ensures !less(x, a[0])
  {
    var i :| 0 <= i < |a| && a[i] == x;
    if i > 0 {
      assert !less(a[i], a[0]);
    }
  }

  /** Two sorted arrangements of the same elements are the same sequence. */
  lemma {:induction false} SortedUnique<T(!new)>(a: seq<T>, b: seq<T>, less: (T, T) -> bool)
    requires StrictTotalOrder(less)
    requires Sorted(a, less) && Sorted(b, less) && multiset(a) == multiset(b)
    ensures a == b
  {
    if a == [] {
      assert |b| == |multiset(b)|;
    } else {
      SameHeads(a, b, less);
      SortedTail(a, less);
      SortedTail(b, less);
      SortedUnique(a[1..], b[1..], less);
      assert a == [a[0]] + a[1..] && b == [b[0]] + b[1..];
    }
  }

  /** Two non-empty sorted arrangements of the same elements start alike and share their tails' elements. */
  lemma SameHeads<T(!new)>(a: seq<T>, b: seq<T>, less: (T, T) -> bool)
    requires StrictTotalOrder(less) && a != []
    requires Sorted(a, less) && Sorted(b, less) && multiset(a) == multiset(b)
    ensures b != [] && a[0] == b[0]
    ensures multiset(a[1..]) == multiset(b[1..])
  {
    assert a[0] in multiset(b);
    assert b != [];
    assert b[0] in multiset(a);
    SortedHeadLeast(b, a[0], less);
    SortedHeadLeast(a, b[0], less);
    Antisymmetric(less, a[0], b[0]);
    assert a == [a[0]] + a[1..] && b == [b[0]] + b[1..];
    assert multiset(a[1..]) == multiset(a) - multiset{a[0]};
    assert multiset(b[1..]) == multiset(b) - multiset{b[0]};
  }

  lemma SortedTail<T>(a: seq<T>, less: (T, T) -> bool)
    requires Sorted(a, less) && a != []
    ensures Sorted(a[1..], less)
  {
    var t := a[1..];
    forall i, j | 0 <= i < j < |t| ensures !less(t[j], t[i]) {
      assert t[i] == a[i + 1] && t[j] == a[j + 1];
    }
  }

  /** `Vec::dedup`: every run of equal neighbours shrinks to one element. */
  function Dedup<T(==,!new)>(s: seq<T>): (r: seq<T>)
    ensures forall x :: x in r <==> x in s
    ensures forall i :: 0 <= i < |r| - 1 ==> r[i] != r[i + 1]
    ensures s != [] ==> r != [] && r[0] == s[0]
  {
    if |s| <= 1 then s
    else if s[0] == s[1] then Dedup(s[1..])
    else [s[0]] + Dedup(s[1..])
  }

  /** Removing neighbouring duplicates from a sorted sequence leaves it strictly increasing. */
  lemma {:induction false} DedupSorted<T(!new)>(s: seq<T>, less: (T, T) -> bool)
    requires StrictTotalOrder(less) && Sorted(s, less)
    ensures StrictlySorted(Dedup(s), less)
  {
    if |s| > 1 {
      DedupSorted(s[1..], less);
      if s[0] != s[1] {
        var d := Dedup(s[1..]);
        forall j | 0 <= j < |d| ensures less(s[0], d[j]) {
          assert d[j] in s[1..];
          var k :| 1 <= k < |s| && s[k] == d[j];
          assert !less(s[1], s[0]) && !less(s[k], s[1]);
        }
      }
    }
  }

  /** Keeps, in order, the elements that satisfy `keep` (`iter().filter(..).collect()`). */
  function Filter<T(!new)>(s: seq<T>, keep: T -> bool): (r: seq<T>)
    ensures forall x :: x in r <==> x in s && keep(x)
    ensures |r| <= |s|
  {
    if s == [] then []
    else (if keep(s[0]) then [s[0]] else []) + Filter(s[1..], keep)
  }

  /** Filtering a sequence with one more element at its end. */
  lemma {:induction false} FilterSnoc<T(!new)>(s: seq<T>, x: T, keep: T -> bool)
    ensures Filter(s + [x], keep) == Filter(s, keep) + (if keep(x) then [x] else [])
  {
    if s != [] {
      assert (s + [x])[1..] == s[1..] + [x];
      FilterSnoc(s[1..], x, keep);
    } else {
      assert Filter([x], keep) == (if keep(x) then [x] else []) + Filter([], keep);
    }
  }

  /** Two tests that agree on every element keep the same elements. */
  lemma {:induction false} FilterAgree<T(!new)>(s: seq<T>, f: T -> bool, g: T -> bool)
    requires forall x :: x in s ==> f(x) == g(x)
    ensures Filter(s, f) == Filter(s, g)
  {
    if s != [] {
      assert s[0] in s;
      assert forall x :: x in s[1..] ==> x in s;
      FilterAgree(s[1..], f, g);
    }
  }

  /** Two tests that no element passes together keep at most all the elements between them. */
  lemma {:induction false} FilterDisjoint<T(!new)>(s: seq<T>, a: T -> bool, b: T -> bool)
    requires forall x :: x in s ==> !(a(x) && b(x))
    ensures |Filter(s, a)| + |Filter(s, b)| <= |s|
  {
    if s != [] {
      assert s[0] in s;
      FilterDisjoint(s[1..], a, b);
    }
  }

  /** Nothing is kept exactly when no element passes the test. */
  lemma FilterEmpty<T(!new)>(s: seq<T>, keep: T -> bool)
    ensures Filter(s, keep) == [] <==> forall i :: 0 <= i < |s| ==> !keep(s[i])
  {
    if Filter(s, keep) != [] {
      assert Filter(s, keep)[0] in Filter(s, keep);
    }
  }

  /** A subsequence of a strictly increasing sequence is strictly increasing. */
  lemma {:induction false} FilterStrictlySorted<T(!new)>(s: seq<T>, keep: T -> bool, less: (T, T) -> bool)
    requires StrictTotalOrder(less) && StrictlySorted(s, less)
    ensures StrictlySorted(Filter(s, keep), less)
  {
    if s != [] {
      FilterStrictlySorted(s[1..], keep, less);
      var f := Filter(s[1..], keep);
      forall j | 0 <= j < |f| ensures less(s[0], f[j]) {
        assert f[j] in s[1..];
      }
    }
  }

  /** `slice::reverse` */
  function Reverse<T>(s: seq<T>): (r: seq<T>)
    ensures |r| == |s| && forall i :: 0 <= i < |s| ==> r[i] == s[|s| - 1 - i]
  {
    if s == [] then [] else Reverse(s[1..]) + [s[0]]
  }

  /** Reversing keeps the elements and turns an ascending order into a descending one. */
  lemma {:induction false} ReverseSorted<T(!new)>(s: seq<T>, less: (T, T) -> bool)
    requires Sorted(s, less)
    ensures multiset(Reverse(s)) == multiset(s)
    ensures forall i, j :: 0 <= i < j < |s| ==> !less(Reverse(s)[i], Reverse(s)[j])
  {
    if s != [] {
      ReverseSorted(s[1..], less);
      assert s == [s[0]] + s[1..];
    }
  }

  /** Lexicographic order: a proper prefix comes first, otherwise the first difference decides. */
  predicate LexLess<T(==)>(a: seq<T>, b: seq<T>, less: (T, T) -> bool) {
    b != [] && (a == [] || less(a[0], b[0]) || (a[0] == b[0] && LexLess(a[1..], b[1..], less)))
  }

  lemma {:induction false} LexIrreflexive<T(!new)>(a: seq<T>, less: (T, T) -> bool)
    requires StrictTotalOrder(less)
    ensures !LexLess(a, a, less)
  {
    if a != [] {
      LexIrreflexive(a[1..], less);
    }
  }

  lemma {:induction false} LexTransitive<T(!new)>(a: seq<T>, b: seq<T>, c: seq<T>, less: (T, T) -> bool)
    requires StrictTotalOrder(less)
    requires LexLess(a, b, less) && LexLess(b, c, less)
    ensures LexLess(a, c, less)
  {
    if a != [] && a[0] == b[0] && b[0] == c[0] {
      LexTransitive(a[1..], b[1..], c[1..], less);
    }
  }

  lemma {:induction false} LexTrichotomous<T(!new)>(a: seq<T>, b: seq<T>, less: (T, T) -> bool)
    requires StrictTotalOrder(less)
    requires a != b
    ensures LexLess(a, b, less) || LexLess(b, a, less)
  {
    if a != [] && b != [] && a[0] == b[0] {
      assert a == [a[0]] + a[1..] && b == [b[0]] + b[1..];
      LexTrichotomous(a[1..], b[1..], less);
    }
  }
}
