/** Ordering of keys and rows: the sorted distinct keys of a `groupby`, and `sort_values` as a
    sort by a total preorder. */
module Sorting {
  import opened Seqs

  /** `lt` is irreflexive, transitive and relates any two different values. */
  ghost predicate StrictTotalOrder<T(!new)>(lt: (T, T) -> bool) {
    && (forall x :: !lt(x, x))
    && (forall x, y, z :: lt(x, y) && lt(y, z) ==> lt(x, z))
    && (forall x, y :: x != y ==> lt(x, y) || lt(y, x))
  }

  /** `le` is total and transitive (ties allowed). */
  ghost predicate TotalPreorder<T(!new)>(le: (T, T) -> bool) {
    && (forall x, y :: le(x, y) || le(y, x))
    && (forall x, y, z :: le(x, y) && le(y, z) ==> le(x, z))
  }

  predicate StrictlySorted<T>(s: seq<T>, lt: (T, T) -> bool) {
    forall i, j :: 0 <= i < j < |s| ==> lt(s[i], s[j])
  }

  predicate SortedBy<T>(s: seq<T>, le: (T, T) -> bool) {
    forall i, j :: 0 <= i < j < |s| ==> le(s[i], s[j])
  }

  /** Inserts `x` into a strictly sorted sequence unless it is already there. */
  function InsertDistinct<T(==)>(s: seq<T>, x: T, lt: (T, T) -> bool): seq<T> {
    if s == [] then [x]
    else if x == s[0] then s
    else if lt(x, s[0]) then [x] + s
    else [s[0]] + InsertDistinct(s[1..], x, lt)
  }

  /** The distinct values of `xs` in ascending order (the keys of a sorted `groupby`, or
      `sorted(set(xs))`). */
  function SortedDistinct<T(==)>(xs: seq<T>, lt: (T, T) -> bool): seq<T> {
    if xs == [] then [] else InsertDistinct(SortedDistinct(xs[1..], lt), xs[0], lt)
  }

  /** Inserts `x` after every element not above it (keeps equal elements in arrival order). */
  function InsertBy<T>(s: seq<T>, x: T, le: (T, T) -> bool): seq<T> {
    if s == [] then [x]
    else if le(s[0], x) then [s[0]] + InsertBy(s[1..], x, le)
    else [x] + s
  }

  /** Insertion sort by the preorder `le`. */
  function SortBy<T>(xs: seq<T>, le: (T, T) -> bool): seq<T> {
    if xs == [] then [] else InsertBy(SortBy(xs[..|xs| - 1], le), xs[|xs| - 1], le)
  }

  lemma {:induction false} InsertDistinctSpec<T(!new)>(s: seq<T>, x: T, lt: (T, T) -> bool)
    requires StrictTotalOrder(lt)
    requires StrictlySorted(s, lt)
    ensures StrictlySorted(InsertDistinct(s, x, lt), lt)
    ensures forall y :: y in InsertDistinct(s, x, lt) <==> y == x || y in s
  {
    if s != [] && x != s[0] && !lt(x, s[0]) {
      assert StrictlySorted(s[1..], lt);
      InsertDistinctSpec(s[1..], x, lt);
      var r := InsertDistinct(s[1..], x, lt);
      assert lt(s[0], x);
      forall y | y in r ensures lt(s[0], y) {
        if y != x {
          var j :| 0 <= j < |s[1..]| && s[1..][j] == y;
          assert s[j + 1] == y;
        }
      }
      var t := [s[0]] + r;
      forall i, j | 0 <= i < j < |t| ensures lt(t[i], t[j]) {
        if i == 0 {
          assert t[j] in r;
        } else {
          assert t[i] == r[i - 1] && t[j] == r[j - 1];
        }
      }
      assert forall y :: y in s <==> y == s[0] || y in s[1..];
    } else if s != [] && x != s[0] && lt(x, s[0]) {
      var t := [x] + s;
      forall i, j | 0 <= i < j < |t| ensures lt(t[i], t[j]) {
        if i == 0 {
          assert t[j] == s[j - 1];
          if j - 1 > 0 {
            assert lt(s[0], s[j - 1]);
          }
        }
      }
    }
  }

  /** The sorted distinct values are strictly ascending and are exactly the values of `xs`. */
  lemma {:induction false} SortedDistinctSpec<T(!new)>(xs: seq<T>, lt: (T, T) -> bool)
    requires StrictTotalOrder(lt)
    ensures StrictlySorted(SortedDistinct(xs, lt), lt)
    ensures forall y :: y in SortedDistinct(xs, lt) <==> y in xs
  {
    if xs != [] {
      SortedDistinctSpec(xs[1..], lt);
      InsertDistinctSpec(SortedDistinct(xs[1..], lt), xs[0], lt);
      assert forall y :: y in xs <==> y == xs[0] || y in xs[1..];
    }
  }

  /** A strictly sorted sequence has no repeated values. */
  lemma StrictlySortedDistinct<T(!new)>(s: seq<T>, lt: (T, T) -> bool)
    requires StrictTotalOrder(lt)
    requires StrictlySorted(s, lt)
    ensures Distinct(s)
  {
  }

  lemma {:induction false} InsertByMultiset<T>(s: seq<T>, x: T, le: (T, T) -> bool)
    ensures multiset(InsertBy(s, x, le)) == multiset(s) + multiset{x}
  {
    if s != [] && le(s[0], x) {
      InsertByMultiset(s[1..], x, le);
      assert s == [s[0]] + s[1..];
    }
  }

  lemma {:induction false} InsertBySpec<T(!new)>(s: seq<T>, x: T, le: (T, T) -> bool)
    requires TotalPreorder(le)
    requires SortedBy(s, le)
    ensures SortedBy(InsertBy(s, x, le), le)
    ensures multiset(InsertBy(s, x, le)) == multiset(s) + multiset{x}
    decreases |s|, 1
  {
    InsertByMultiset(s, x, le);
    if s != [] {
      if le(s[0], x) {
        InsertBySorted(s, x, le);
      } else {
        assert le(x, s[0]);
        var t := [x] + s;
        forall i, j | 0 <= i < j < |t| ensures le(t[i], t[j]) {
          if i == 0 {
            assert t[j] == s[j - 1];
            if j - 1 > 0 {
              assert le(s[0], s[j - 1]);
            }
          }
        }
      }
    }
  }

  lemma {:induction false} InsertBySorted<T(!new)>(s: seq<T>, x: T, le: (T, T) -> bool)
    requires TotalPreorder(le)
    requires SortedBy(s, le)
    requires s != [] && le(s[0], x)
    ensures SortedBy(InsertBy(s, x, le), le)
    decreases |s|, 0
  {
    assert SortedBy(s[1..], le);
    InsertBySpec(s[1..], x, le);
    var r := InsertBy(s[1..], x, le);
    HeadBelowRest(s, x, r, le);
    var t := [s[0]] + r;
    forall i, j | 0 <= i < j < |t| ensures le(t[i], t[j]) {
      if i == 0 {
        assert t[j] in r;
      } else {
        assert t[i] == r[i - 1] && t[j] == r[j - 1];
      }
    }
  }

  /** The head of a sorted sequence is below every element of a permutation of its tail and
      a larger `x`. */
  lemma HeadBelowRest<T(!new)>(s: seq<T>, x: T, r: seq<T>, le: (T, T) -> bool)
    requires TotalPreorder(le)
    requires SortedBy(s, le)
    requires s != [] && le(s[0], x)
    requires multiset(r) == multiset(s[1..]) + multiset{x}
    ensures forall y :: y in r ==> le(s[0], y)
  {
    forall y | y in r ensures le(s[0], y) {
      assert y in multiset(r);
      if y != x {
        assert y in multiset(s[1..]);
        var j :| 0 <= j < |s[1..]| && s[1..][j] == y;
        assert s[j + 1] == y;
      }
    }
  }

  /** `SortBy` yields a sorted permutation of its input. */
  lemma {:induction false} SortBySpec<T(!new)>(xs: seq<T>, le: (T, T) -> bool)
    requires TotalPreorder(le)
    ensures SortedBy(SortBy(xs, le), le)
    ensures multiset(SortBy(xs, le)) == multiset(xs)
    ensures |SortBy(xs, le)| == |xs|
  {
    if xs != [] {
      var init, last := xs[..|xs| - 1], xs[|xs| - 1];
      SortBySpec(init, le);
      InsertBySpec(SortBy(init, le), last, le);
      SnocMultiset(xs);
      assert SortBy(xs, le) == InsertBy(SortBy(init, le), last, le);
      assert |SortBy(xs, le)| == |multiset(SortBy(xs, le))| == |multiset(xs)|;
    }
  }

  lemma SnocMultiset<T>(xs: seq<T>)
    requires xs != []
    ensures multiset(xs) == multiset(xs[..|xs| - 1]) + multiset{xs[|xs| - 1]}
  {
    assert xs == xs[..|xs| - 1] + [xs[|xs| - 1]];
  }

  // ---------------------------------------------------------------- Text order

  /** Python's `<` on `str`: code-point lexicographic order, a proper prefix first. */
  predicate StringLess(a: string, b: string) {
    if a == [] then b != []
    else if b == [] then false
    else if a[0] != b[0] then a[0] < b[0]
    else StringLess(a[1..], b[1..])
  }

  lemma {:induction false} StringLessIrreflexive(a: string)
    ensures !StringLess(a, a)
  {
    if a != [] {
      StringLessIrreflexive(a[1..]);
    }
  }

  lemma {:induction false} StringLessTransitive(a: string, b: string, c: string)
    requires StringLess(a, b) && StringLess(b, c)
    ensures StringLess(a, c)
  {
    if a != [] && b != [] && c != [] && a[0] == b[0] && b[0] == c[0] {
      StringLessTransitive(a[1..], b[1..], c[1..]);
    }
  }

  lemma {:induction false} StringLessTotal(a: string, b: string)
    requires a != b
    ensures StringLess(a, b) || StringLess(b, a)
  {
    if a != [] && b != [] && a[0] == b[0] {
      assert a == [a[0]] + a[1..] && b == [b[0]] + b[1..];
      StringLessTotal(a[1..], b[1..]);
    }
  }

  /** Text order as a value, for sorting and grouping. */
  function TextOrder(): (string, string) -> bool {
    (a: string, b: string) => StringLess(a, b)
  }

  /** Text order is a strict total order, so sorting names is well defined. */
  lemma StringLessIsStrictTotal()
    ensures StrictTotalOrder(TextOrder())
  {
    forall a: string {
      StringLessIrreflexive(a);
    }
    forall a: string, b: string, c: string | StringLess(a, b) && StringLess(b, c) {
      StringLessTransitive(a, b, c);
    }
    forall a: string, b: string | a != b {
      StringLessTotal(a, b);
    }
  }
}
