/** Row-set operations the data-frame code is built from: projecting, filtering, first-wins
    de-duplication, per-key selection and summation, with the laws the model's proofs use. */
module Seqs {

  /** Applies `f` to every row, keeping order (a vectorised column rewrite). */
  function Map<A, B>(s: seq<A>, f: A -> B): (r: seq<B>)
    ensures |r| == |s|
    ensures forall i :: 0 <= i < |s| ==> r[i] == f(s[i])
  {
    if s == [] then [] else [f(s[0])] + Map(s[1..], f)
  }

  /** Keeps the rows satisfying `p`, in order (a boolean-mask selection `df[mask]`). */
  function Filter<A>(s: seq<A>, p: A -> bool): (r: seq<A>)
    ensures |r| <= |s|
    ensures forall x :: x in r ==> x in s && p(x)
  {
    if s == [] then [] else if p(s[0]) then [s[0]] + Filter(s[1..], p) else Filter(s[1..], p)
  }

  /** `a` is obtained from `b` by deleting rows, keeping the order of the rest. */
  predicate Subseq<A(==)>(a: seq<A>, b: seq<A>)
    decreases |b|
  {
    a == [] || (b != [] && ((a[0] == b[0] && Subseq(a[1..], b[1..])) || Subseq(a, b[1..])))
  }

  /** No two positions hold equal values. */
  predicate Distinct<A(==)>(s: seq<A>) {
    forall i, j :: 0 <= i < j < |s| ==> s[i] != s[j]
  }

  /** The selection predicate "the key of the row is k". */
  function KeyIs<A, K(==)>(key: A -> K, k: K): A -> bool {
    x => key(x) == k
  }

  /** The negation of a selection predicate. */
  function Not<A>(p: A -> bool): A -> bool {
    x => !p(x)
  }

  /** First-wins de-duplication on `key` (pandas `drop_duplicates(subset=..., keep="first")`);
      `seen` holds the keys already taken. */
  function DedupBy<A, K(==)>(s: seq<A>, key: A -> K, seen: set<K>): seq<A>
  {
    if s == [] then []
    else if key(s[0]) in seen then DedupBy(s[1..], key, seen)
    else [s[0]] + DedupBy(s[1..], key, seen + {key(s[0])})
  }

  /** First-wins de-duplication starting from no keys taken. */
  function Dedup<A, K(==)>(s: seq<A>, key: A -> K): seq<A> {
    DedupBy(s, key, {})
  }

  /** The first row of `s` whose key is `k`. */
  function FirstWithKey<A, K(==)>(s: seq<A>, key: A -> K, k: K): (r: A)
    requires exists x :: x in s && key(x) == k
    ensures r in s && key(r) == k
  {
    if key(s[0]) == k then s[0] else FirstWithKey(s[1..], key, k)
  }

  /** The distinct keys of `s` in order of first appearance (`groupby(..., sort=False)` order). */
  function KeysInOrder<A, K(==)>(s: seq<A>, key: A -> K): seq<K> {
    Map(Dedup(s, key), key)
  }

  /** Sum of `v` over the rows. */
  function Sum<A>(s: seq<A>, v: A -> real): real {
    if s == [] then 0.0 else v(s[0]) + Sum(s[1..], v)
  }

  /** Sum of `v` over the rows of each key of `ks`, added up over `ks`. */
  function SumOverKeys<A, K(==)>(s: seq<A>, key: A -> K, v: A -> real, ks: seq<K>): real {
    if ks == [] then 0.0 else Sum(Filter(s, KeyIs(key, ks[0])), v) + SumOverKeys(s, key, v, ks[1..])
  }

  /** Number of rows of each key of `ks`, added up over `ks`. */
  function CountOverKeys<A, K(==)>(s: seq<A>, key: A -> K, ks: seq<K>): nat {
    if ks == [] then 0 else |Filter(s, KeyIs(key, ks[0]))| + CountOverKeys(s, key, ks[1..])
  }

  // ---------------------------------------------------------------- Filter and Map laws

  lemma {:induction false} FilterAppend<A>(a: seq<A>, b: seq<A>, p: A -> bool)
    ensures Filter(a + b, p) == Filter(a, p) + Filter(b, p)
  {
    if a != [] {
      assert (a + b)[0] == a[0];
      assert (a + b)[1..] == a[1..] + b;
      FilterAppend(a[1..], b, p);
      if p(a[0]) {
        assert Filter(a + b, p) == [a[0]] + (Filter(a[1..], p) + Filter(b, p));
      } else {
        assert Filter(a + b, p) == Filter(a[1..], p) + Filter(b, p);
      }
    } else {
      assert a + b == b;
    }
  }

  lemma {:induction false} MapAppend<A, B>(a: seq<A>, b: seq<A>, f: A -> B)
    ensures Map(a + b, f) == Map(a, f) + Map(b, f)
  {
    assert Map(a + b, f) == Map(a, f) + Map(b, f);
  }

  /** Mapping one more element of a prefix appends its image. */
  lemma MapPrefixStep<A, B>(s: seq<A>, i: nat, f: A -> B)
    requires i < |s|
    ensures Map(s[..i + 1], f) == Map(s[..i], f) + [f(s[i])]
  {
    assert s[..i + 1] == s[..i] + [s[i]];
    MapAppend(s[..i], [s[i]], f);
  }

  lemma {:induction false} FilterAll<A>(s: seq<A>, p: A -> bool)
    requires forall x :: x in s ==> p(x)
    ensures Filter(s, p) == s
  {
    if s != [] {
      FilterAll(s[1..], p);
    }
  }

  lemma {:induction false} FilterNone<A>(s: seq<A>, p: A -> bool)
    requires forall x :: x in s ==> !p(x)
    ensures Filter(s, p) == []
  {
    if s != [] {
      FilterNone(s[1..], p);
    }
  }

  lemma {:induction false} FilterCongruent<A>(s: seq<A>, p: A -> bool, q: A -> bool)
    requires forall x :: x in s ==> p(x) == q(x)
    ensures Filter(s, p) == Filter(s, q)
  {
    if s != [] {
      FilterCongruent(s[1..], p, q);
    }
  }

  lemma {:induction false} MapCongruent<A, B>(s: seq<A>, f: A -> B, g: A -> B)
    requires forall x :: x in s ==> f(x) == g(x)
    ensures Map(s, f) == Map(s, g)
  {
  }

  /** A weaker selection keeps at least as many rows. */
  lemma {:induction false} FilterMonotone<A>(s: seq<A>, p: A -> bool, q: A -> bool)
    requires forall x :: x in s && p(x) ==> q(x)
    ensures |Filter(s, p)| <= |Filter(s, q)|
  {
    if s != [] {
      FilterMonotone(s[1..], p, q);
    }
  }

  /** Two successive selections are one selection by the conjunction. */
  lemma {:induction false} FilterFilter<A>(s: seq<A>, p: A -> bool, q: A -> bool, pq: A -> bool)
    requires forall x :: pq(x) == (p(x) && q(x))
    ensures Filter(Filter(s, p), q) == Filter(s, pq)
  {
    if s != [] {
      FilterFilter(s[1..], p, q, pq);
    }
  }

  /** Selecting after a rewrite is rewriting after the corresponding selection. */
  lemma {:induction false} FilterMap<A, B>(s: seq<A>, f: A -> B, q: B -> bool, qf: A -> bool)
    requires forall x :: qf(x) == q(f(x))
    ensures Filter(Map(s, f), q) == Map(Filter(s, qf), f)
  {
    if s != [] {
      assert Map(s, f)[1..] == Map(s[1..], f);
      FilterMap(s[1..], f, q, qf);
    }
  }

  /** Two successive rewrites are one rewrite by the composition. */
  lemma {:induction false} MapMap<A, B, C>(s: seq<A>, f: A -> B, g: B -> C, gf: A -> C)
    requires forall x :: gf(x) == g(f(x))
    ensures Map(Map(s, f), g) == Map(s, gf)
  {
  }

  lemma {:induction false} FilterIdempotent<A>(s: seq<A>, p: A -> bool)
    ensures Filter(Filter(s, p), p) == Filter(s, p)
  {
    FilterAll(Filter(s, p), p);
  }

  // ---------------------------------------------------------------- Subsequences

  lemma {:induction false} SubseqRefl<A>(a: seq<A>)
    ensures Subseq(a, a)
  {
    if a != [] {
      SubseqRefl(a[1..]);
    }
  }

  lemma {:induction false} SubseqTrans<A>(a: seq<A>, b: seq<A>, c: seq<A>)
    requires Subseq(a, b) && Subseq(b, c)
    ensures Subseq(a, c)
    decreases |c|
  {
    if a != [] {
      if Subseq(b, c[1..]) {
        SubseqTrans(a, b, c[1..]);
      } else if a[0] == b[0] && Subseq(a[1..], b[1..]) {
        SubseqTrans(a[1..], b[1..], c[1..]);
      } else {
        SubseqTrans(a, b[1..], c[1..]);
      }
    }
  }

  lemma {:induction false} SubseqMembers<A>(a: seq<A>, b: seq<A>)
    requires Subseq(a, b)
    ensures forall x :: x in a ==> x in b
    decreases |b|
  {
    if a != [] {
      if a[0] == b[0] && Subseq(a[1..], b[1..]) {
        SubseqMembers(a[1..], b[1..]);
        assert forall x :: x in a ==> x == a[0] || x in a[1..];
      } else {
        SubseqMembers(a, b[1..]);
      }
    }
  }

  lemma {:induction false} SubseqLength<A>(a: seq<A>, b: seq<A>)
    requires Subseq(a, b)
    ensures |a| <= |b|
    decreases |b|
  {
    if a != [] {
      if a[0] == b[0] && Subseq(a[1..], b[1..]) {
        SubseqLength(a[1..], b[1..]);
      } else {
        SubseqLength(a, b[1..]);
      }
    }
  }

  lemma {:induction false} FilterSubseq<A>(s: seq<A>, p: A -> bool)
    ensures Subseq(Filter(s, p), s)
  {
    if s != [] {
      FilterSubseq(s[1..], p);
    }
  }

  // ---------------------------------------------------------------- First-wins de-duplication

  lemma {:induction false} DedupSubseq<A, K>(s: seq<A>, key: A -> K, seen: set<K>)
    ensures Subseq(DedupBy(s, key, seen), s)
  {
    if s != [] {
      if key(s[0]) in seen {
        DedupSubseq(s[1..], key, seen);
      } else {
        DedupSubseq(s[1..], key, seen + {key(s[0])});
      }
    }
  }

  /** Every kept row comes from the input, its key was not already taken, and no two kept rows
      share a key. */
  lemma {:induction false} DedupKeysDistinct<A, K>(s: seq<A>, key: A -> K, seen: set<K>)
    ensures forall x :: x in DedupBy(s, key, seen) ==> x in s && key(x) !in seen
    ensures Distinct(Map(DedupBy(s, key, seen), key))
  {
    if s != [] {
      if key(s[0]) in seen {
        DedupKeysDistinct(s[1..], key, seen);
      } else {
        var rest := DedupBy(s[1..], key, seen + {key(s[0])});
        DedupKeysDistinct(s[1..], key, seen + {key(s[0])});
        var ks := Map([s[0]] + rest, key);
        forall i, j | 0 <= i < j < |ks| ensures ks[i] != ks[j] {
          if i == 0 {
            assert rest[j - 1] in rest;
          } else {
            assert Map(rest, key)[i - 1] != Map(rest, key)[j - 1];
          }
        }
      }
    }
  }

  /** Every key of the input that was not already taken has a kept row. */
  lemma {:induction false} DedupKeysCovered<A, K>(s: seq<A>, key: A -> K, seen: set<K>)
    ensures forall x :: x in s && key(x) !in seen ==> exists y :: y in DedupBy(s, key, seen) && key(y) == key(x)
  {
    if s != [] {
      if key(s[0]) in seen {
        DedupKeysCovered(s[1..], key, seen);
      } else {
        DedupKeysCovered(s[1..], key, seen + {key(s[0])});
        var r := DedupBy(s, key, seen);
        forall x | x in s && key(x) !in seen ensures exists y :: y in r && key(y) == key(x) {
          if key(x) == key(s[0]) {
            assert s[0] in r;
          } else {
            assert x in s[1..];
          }
        }
      }
    }
  }

  /** The kept row for each key is the first input row with that key. */
  lemma {:induction false} DedupKeepsFirst<A, K>(s: seq<A>, key: A -> K, seen: set<K>)
    ensures forall y :: y in DedupBy(s, key, seen) ==> y in s && y == FirstWithKey(s, key, key(y))
  {
    if s != [] {
      var seen' := if key(s[0]) in seen then seen else seen + {key(s[0])};
      DedupKeysDistinct(s[1..], key, seen');
      DedupKeepsFirst(s[1..], key, seen');
      forall y | y in DedupBy(s, key, seen) ensures y in s && y == FirstWithKey(s, key, key(y)) {
        if y in DedupBy(s[1..], key, seen') && key(y) != key(s[0]) {
          assert y in s[1..];
        }
      }
    }
  }

  /** On rows whose keys are already distinct and untaken, de-duplication changes nothing. */
  lemma {:induction false} DedupIdentity<A, K>(s: seq<A>, key: A -> K, seen: set<K>)
    requires Distinct(Map(s, key))
    requires forall x :: x in s ==> key(x) !in seen
    ensures DedupBy(s, key, seen) == s
  {
    if s != [] {
      var ks := Map(s, key);
      forall x | x in s[1..] ensures key(x) !in seen + {key(s[0])} {
        var j :| 0 <= j < |s[1..]| && s[1..][j] == x;
        assert ks[0] != ks[j + 1];
      }
      assert Map(s[1..], key) == ks[1..];
      DedupIdentity(s[1..], key, seen + {key(s[0])});
    }
  }

  /** De-duplicating after a rewrite that keeps the key is rewriting after de-duplicating. */
  lemma {:induction false} DedupMap<A, B, K>(s: seq<A>, f: A -> B, keyA: A -> K, keyB: B -> K, seen: set<K>)
    requires forall x :: keyB(f(x)) == keyA(x)
    ensures DedupBy(Map(s, f), keyB, seen) == Map(DedupBy(s, keyA, seen), f)
  {
    if s != [] {
      assert Map(s, f)[1..] == Map(s[1..], f);
      if keyA(s[0]) in seen {
        DedupMap(s[1..], f, keyA, keyB, seen);
      } else {
        DedupMap(s[1..], f, keyA, keyB, seen + {keyA(s[0])});
      }
    }
  }

  /** Keys in first-appearance order are distinct and are exactly the keys of the rows. */
  lemma {:induction false} KeysInOrderSpec<A, K>(s: seq<A>, key: A -> K)
    ensures Distinct(KeysInOrder(s, key))
    ensures forall k :: k in KeysInOrder(s, key) ==> exists x :: x in s && key(x) == k
    ensures forall x :: x in s ==> key(x) in KeysInOrder(s, key)
  {
    DedupKeysDistinct(s, key, {});
    KeysInOrderSound(s, key);
    KeysInOrderComplete(s, key);
  }

  lemma {:induction false} KeysInOrderSound<A, K>(s: seq<A>, key: A -> K)
    ensures forall k :: k in KeysInOrder(s, key) ==> exists x :: x in s && key(x) == k
  {
    var d := Dedup(s, key);
    var ks := KeysInOrder(s, key);
    DedupKeysDistinct(s, key, {});
    forall k | k in ks ensures exists x :: x in s && key(x) == k {
      var i :| 0 <= i < |ks| && ks[i] == k;
      assert d[i] in d;
    }
  }

  lemma {:induction false} KeysInOrderComplete<A, K>(s: seq<A>, key: A -> K)
    ensures forall x :: x in s ==> key(x) in KeysInOrder(s, key)
  {
    var d := Dedup(s, key);
    var ks := KeysInOrder(s, key);
    DedupKeysCovered(s, key, {});
    forall x | x in s ensures key(x) in ks {
      var y :| y in d && key(y) == key(x);
      var i :| 0 <= i < |d| && d[i] == y;
      assert ks[i] == key(x);
    }
  }

  // ---------------------------------------------------------------- Sums per key

  lemma {:induction false} SumAppend<A>(a: seq<A>, b: seq<A>, v: A -> real)
    ensures Sum(a + b, v) == Sum(a, v) + Sum(b, v)
  {
    if a != [] {
      assert (a + b)[0] == a[0];
      assert (a + b)[1..] == a[1..] + b;
      SumAppend(a[1..], b, v);
      assert Sum(a + b, v) == v(a[0]) + Sum(a[1..] + b, v);
    } else {
      assert a + b == b;
    }
  }

  /** The share of a single row in the per-key total: `v(x)` once if its key is listed. */
  function RowShare<A, K(==)>(x: A, key: A -> K, v: A -> real, ks: seq<K>): real {
    if ks == [] then 0.0 else (if key(x) == ks[0] then v(x) else 0.0) + RowShare(x, key, v, ks[1..])
  }

  lemma {:induction false} RowShareOnce<A, K>(x: A, key: A -> K, v: A -> real, ks: seq<K>)
    requires Distinct(ks)
    ensures RowShare(x, key, v, ks) == if key(x) in ks then v(x) else 0.0
  {
    if ks != [] {
      assert Distinct(ks[1..]);
      RowShareOnce(x, key, v, ks[1..]);
      if key(x) == ks[0] {
        assert key(x) !in ks[1..] by {
          forall j | 0 <= j < |ks[1..]| ensures ks[1..][j] != ks[0] {
            assert ks[0] != ks[j + 1];
          }
        }
      }
    }
  }

  lemma {:induction false} SumOverKeysCons<A, K>(x: A, t: seq<A>, key: A -> K, v: A -> real, ks: seq<K>)
    ensures SumOverKeys([x] + t, key, v, ks) == RowShare(x, key, v, ks) + SumOverKeys(t, key, v, ks)
  {
    if ks != [] {
      assert ([x] + t)[1..] == t;
      SumOverKeysCons(x, t, key, v, ks[1..]);
    }
  }

  /** Per-key sums over distinct keys covering every row add up to the overall sum. */
  lemma {:induction false} SumOverKeysTotal<A, K>(s: seq<A>, key: A -> K, v: A -> real, ks: seq<K>)
    requires Distinct(ks)
    requires forall x :: x in s ==> key(x) in ks
    ensures SumOverKeys(s, key, v, ks) == Sum(s, v)
  {
    if s == [] {
      SumOverKeysEmpty(key, v, ks);
    } else {
      assert s == [s[0]] + s[1..];
      SumOverKeysCons(s[0], s[1..], key, v, ks);
      RowShareOnce(s[0], key, v, ks);
      SumOverKeysTotal(s[1..], key, v, ks);
    }
  }

  lemma {:induction false} SumOverKeysEmpty<A, K>(key: A -> K, v: A -> real, ks: seq<K>)
    ensures SumOverKeys([], key, v, ks) == 0.0
  {
    if ks != [] {
      SumOverKeysEmpty(key, v, ks[1..]);
    }
  }

  /** Per-key row counts over distinct keys covering every row add up to the number of rows. */
  lemma {:induction false} CountOverKeysTotal<A, K>(s: seq<A>, key: A -> K, ks: seq<K>)
    requires Distinct(ks)
    requires forall x :: x in s ==> key(x) in ks
    ensures CountOverKeys(s, key, ks) == |s|
  {
    if s == [] {
      CountOverKeysEmpty(key, ks);
    } else {
      assert s == [s[0]] + s[1..];
      CountOverKeysCons(s[0], s[1..], key, ks);
      CountOverKeysTotal(s[1..], key, ks);
    }
  }

  lemma {:induction false} CountOverKeysEmpty<A, K>(key: A -> K, ks: seq<K>)
    ensures CountOverKeys([], key, ks) == 0
  {
    if ks != [] {
      CountOverKeysEmpty(key, ks[1..]);
    }
  }

  lemma {:induction false} CountOverKeysCons<A, K>(x: A, t: seq<A>, key: A -> K, ks: seq<K>)
    requires Distinct(ks)
    ensures CountOverKeys([x] + t, key, ks) == (if key(x) in ks then 1 else 0) + CountOverKeys(t, key, ks)
  {
    if ks != [] {
      assert ([x] + t)[1..] == t;
      assert Distinct(ks[1..]);
      CountOverKeysCons(x, t, key, ks[1..]);
      if key(x) == ks[0] {
        assert key(x) !in ks[1..] by {
          forall j | 0 <= j < |ks[1..]| ensures ks[1..][j] != ks[0] {
            assert ks[0] != ks[j + 1];
          }
        }
      }
    }
  }

  /** Whatever passes a filter is in the filtered sequence. */
  lemma {:induction false} FilterKeeps<A>(s: seq<A>, p: A -> bool, x: A)
    requires x in s && p(x)
    ensures x in Filter(s, p)
  {
    if s[0] != x {
      FilterKeeps(s[1..], p, x);
    }
  }

  /** Keys distinct along a sequence stay distinct along any subsequence of it. */
  lemma {:induction false} SubseqDistinctKeys<A, K>(a: seq<A>, b: seq<A>, key: A -> K)
    requires Subseq(a, b) && Distinct(Map(b, key))
    ensures Distinct(Map(a, key))
    decreases |b|
  {
    if a != [] {
      assert Distinct(Map(b[1..], key)) by {
        forall i, j | 0 <= i < j < |b| - 1 ensures Map(b[1..], key)[i] != Map(b[1..], key)[j] {
          assert Map(b, key)[i + 1] != Map(b, key)[j + 1];
        }
      }
      if a[0] == b[0] && Subseq(a[1..], b[1..]) {
        SubseqDistinctKeys(a[1..], b[1..], key);
        SubseqMembers(a[1..], b[1..]);
        forall j | 0 < j < |a| ensures key(a[0]) != key(a[j]) {
          assert a[j] in a[1..];
          var m :| 0 <= m < |b[1..]| && b[1..][m] == a[j];
          assert Map(b, key)[0] != Map(b, key)[m + 1];
        }
        forall i, j | 0 <= i < j < |a| ensures Map(a, key)[i] != Map(a, key)[j] {
          if i > 0 {
            assert Map(a, key)[i] == Map(a[1..], key)[i - 1];
            assert Map(a, key)[j] == Map(a[1..], key)[j - 1];
          }
        }
      } else {
        SubseqDistinctKeys(a, b[1..], key);
      }
    }
  }

  lemma RemoveAtMultiset<A>(t: seq<A>, j: nat)
    requires j < |t|
    ensures multiset(t[..j] + t[j + 1..]) == multiset(t) - multiset{t[j]}
  {
    assert t == t[..j] + [t[j]] + t[j + 1..];
    assert multiset(t) == multiset(t[..j]) + multiset{t[j]} + multiset(t[j + 1..]);
  }

  lemma RemoveAtSum<A>(t: seq<A>, j: nat, v: A -> real)
    requires j < |t|
    ensures Sum(t, v) == v(t[j]) + Sum(t[..j] + t[j + 1..], v)
  {
    var before, after := t[..j], t[j + 1..];
    var rest := [t[j]] + after;
    assert t == before + rest;
    SumAppend(before, rest, v);
    SumAppend(before, after, v);
    SumCons(t[j], after, v);
  }

  lemma SumCons<A>(x: A, t: seq<A>, v: A -> real)
    ensures Sum([x] + t, v) == v(x) + Sum(t, v)
  {
    assert ([x] + t)[1..] == t;
  }

  /** Taking one row out of a sequence. */
  lemma RemoveAt<A>(t: seq<A>, j: nat, v: A -> real)
    requires j < |t|
    ensures multiset(t[..j] + t[j + 1..]) == multiset(t) - multiset{t[j]}
    ensures Sum(t, v) == v(t[j]) + Sum(t[..j] + t[j + 1..], v)
  {
    RemoveAtMultiset(t, j);
    RemoveAtSum(t, j, v);
  }

  /** A sum does not depend on the order of the rows. */
  lemma {:induction false} SumPermutation<A>(s: seq<A>, t: seq<A>, v: A -> real)
    requires multiset(s) == multiset(t)
    ensures Sum(s, v) == Sum(t, v)
    decreases |s|
  {
    if s == [] {
      assert |t| == |multiset(t)| == 0;
    } else {
      var x, tail := s[0], s[1..];
      assert s == [x] + tail;
      assert multiset(s) == multiset{x} + multiset(tail);
      assert x in multiset(t);
      var j :| 0 <= j < |t| && t[j] == x;
      var u := t[..j] + t[j + 1..];
      RemoveAt(t, j, v);
      assert multiset(tail) == multiset(u);
      SumCons(x, tail, v);
      SumPermutation(tail, u, v);
    }
  }
}
