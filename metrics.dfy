/** The dashboard's aggregations (`dashboard/dashboard_core/metrics.py`): the revenue trend, the
    per-truck performance table and the payment mix. */
module Metrics {
  import opened Wrappers
  import opened Seqs
  import opened Sorting
  import opened Calendar
  import opened Cells
  import opened DashTransforms

  function TotalOf(r: DashRow): real {
    r.total
  }

  function IdOf(r: DashRow): Cell {
    r.transactionId
  }

  // ---------------------------------------------------------------- Distinct counts

  function NotNullFn(): Cell -> bool {
    (c: Cell) => !c.Null?
  }

  function CellKey(c: Cell): Cell {
    c
  }

  /** `nunique()`: the number of distinct non-missing values. */
  function NUnique(cells: seq<Cell>): nat {
    |Dedup(Filter(cells, NotNullFn()), CellKey)|
  }

  /** A distinct count is at most the number of values, and at least one when some value is
      present. */
  lemma NUniqueBounds(cells: seq<Cell>)
    ensures NUnique(cells) <= |cells|
    ensures (exists c :: c in cells && !c.Null?) ==> NUnique(cells) >= 1
  {
    var present := Filter(cells, NotNullFn());
    DedupSubseq(present, CellKey, {});
    SubseqLength(Dedup(present, CellKey), present);
    if c :| c in cells && !c.Null? {
      FilterKeeps(cells, NotNullFn(), c);
      DedupKeysCovered(present, CellKey, {});
    }
  }

  /** The distinct count counts each present value once: the distinct values are exactly the
      present ones, with no repeats. */
  lemma NUniqueCounts(cells: seq<Cell>)
    ensures var d := Dedup(Filter(cells, NotNullFn()), CellKey);
      && |d| == NUnique(cells)
      && Distinct(d)
      && forall c :: c in d <==> c in cells && !c.Null?
  {
    var present := Filter(cells, NotNullFn());
    var d := Dedup(present, CellKey);
    DedupKeysDistinct(present, CellKey, {});
    DedupKeysCovered(present, CellKey, {});
    assert Map(d, CellKey) == d;
    forall c | c in cells && !c.Null? ensures c in d {
      FilterKeeps(cells, NotNullFn(), c);
    }
  }

  /** Some row of the group carries a transaction id. */
  predicate SomeId(g: seq<DashRow>) {
    exists r :: r in g && !r.transactionId.Null?
  }

  /** The number of distinct transaction ids of a group is at most its row count, and at least
      one when some id is present. */
  lemma IdCountBounds(g: seq<DashRow>)
    ensures NUnique(Map(g, IdOf)) <= |g|
    ensures SomeId(g) ==> NUnique(Map(g, IdOf)) >= 1
  {
    NUniqueBounds(Map(g, IdOf));
    if r :| r in g && !r.transactionId.Null? {
      var m :| 0 <= m < |g| && g[m] == r;
      assert Map(g, IdOf)[m] == r.transactionId;
    }
  }

  // ---------------------------------------------------------------- Groups

  /** The rows of one group. */
  function Group<K(==)>(rows: seq<DashRow>, key: DashRow -> K, k: K): seq<DashRow> {
    Filter(rows, KeyIs(key, k))
  }

  /** `mean()` of the totals of a group: the value that, once per row, makes up the revenue
      (groups are never empty). */
  function MeanTotal(g: seq<DashRow>): (m: real)
    ensures g != [] ==> m * (|g| as real) == Sum(g, TotalOf)
  {
    if g == [] then 0.0 else Sum(g, TotalOf) / |g| as real
  }

  lemma GroupNonEmpty<K>(rows: seq<DashRow>, key: DashRow -> K, k: K)
    requires k in Map(rows, key)
    ensures Group(rows, key, k) != []
  {
    var j :| 0 <= j < |rows| && Map(rows, key)[j] == k;
    FilterKeeps(rows, KeyIs(key, k), rows[j]);
  }

  // ---------------------------------------------------------------- compute_trend

  datatype TrendRow = TrendRow(bucket: DateTime, revenue: real, transactions: nat, avgSale: real)

  /** The bucket column: `day_dt` for the daily grain, `hour_ts` for any other. */
  function BucketFn(grain: string): DashRow -> DateTime {
    if grain == "Daily" then (r: DashRow) => r.day else (r: DashRow) => r.hour
  }

  function TrendRowOf(rows: seq<DashRow>, grain: string, k: DateTime): TrendRow {
    var g := Group(rows, BucketFn(grain), k);
    TrendRow(k, Sum(g, TotalOf), NUnique(Map(g, IdOf)), MeanTotal(g))
  }

  function TrendRowFn(rows: seq<DashRow>, grain: string): DateTime -> TrendRow {
    k => TrendRowOf(rows, grain, k)
  }

  function TrendKeys(rows: seq<DashRow>, grain: string): seq<DateTime> {
    SortedDistinct(Map(rows, BucketFn(grain)), Chronological())
  }

  /** `compute_trend`: one row per bucket, in chronological order. */
  function Trend(rows: seq<DashRow>, grain: string): seq<TrendRow> {
    Map(TrendKeys(rows, grain), TrendRowFn(rows, grain))
  }

  function RevenueOf(t: TrendRow): real {
    t.revenue
  }

  function BucketOf(t: TrendRow): DateTime {
    t.bucket
  }

  /** What a trend row says about the rows of its bucket: they exist, their totals make its
      revenue, its transaction count is the number of distinct ids among them (so at most one
      per row and at least one when an id is present), and its average is the mean total of those rows. */
  predicate TrendRowOk(rows: seq<DashRow>, grain: string, t: TrendRow) {
    var g := Group(rows, BucketFn(grain), t.bucket);
    && g != []
    && t.revenue == Sum(g, TotalOf)
    && t.transactions == NUnique(Map(g, IdOf))
    && t.transactions <= |g|
    && (SomeId(g) ==> t.transactions >= 1)
    && t.avgSale == MeanTotal(g)
  }

  /** The buckets of a trend are strictly chronological and are exactly the buckets of the rows. */
  lemma TrendBuckets(rows: seq<DashRow>, grain: string)
    ensures var trend := Trend(rows, grain);
      && (forall i, j :: 0 <= i < j < |trend| ==> DateTimeLess(trend[i].bucket, trend[j].bucket))
      && (forall k :: k in Map(trend, BucketOf) <==> k in Map(rows, BucketFn(grain)))
  {
    DateTimeLessIsStrictTotal();
    SortedDistinctSpec(Map(rows, BucketFn(grain)), Chronological());
    assert Map(Trend(rows, grain), BucketOf) == TrendKeys(rows, grain);
  }

  lemma TrendRowFacts(rows: seq<DashRow>, grain: string, k: DateTime)
    requires k in Map(rows, BucketFn(grain))
    ensures TrendRowOf(rows, grain, k).bucket == k
    ensures TrendRowOk(rows, grain, TrendRowOf(rows, grain, k))
  {
    GroupNonEmpty(rows, BucketFn(grain), k);
    IdCountBounds(Group(rows, BucketFn(grain), k));
  }

  /** Every trend row is backed by its bucket's rows as `TrendRowOk` states. */
  lemma TrendRows(rows: seq<DashRow>, grain: string)
    ensures forall t :: t in Trend(rows, grain) ==> TrendRowOk(rows, grain, t)
  {
    var ks := TrendKeys(rows, grain);
    var trend := Trend(rows, grain);
    DateTimeLessIsStrictTotal();
    SortedDistinctSpec(Map(rows, BucketFn(grain)), Chronological());
    forall t | t in trend ensures TrendRowOk(rows, grain, t) {
      var i :| 0 <= i < |ks| && trend[i] == t;
      assert ks[i] in ks;
      TrendRowFacts(rows, grain, ks[i]);
    }
  }

  lemma {:induction false} TrendRevenueSum(rows: seq<DashRow>, grain: string, ks: seq<DateTime>)
    ensures Sum(Map(ks, TrendRowFn(rows, grain)), RevenueOf) == SumOverKeys(rows, BucketFn(grain), TotalOf, ks)
  {
    if ks != [] {
      assert Map(ks, TrendRowFn(rows, grain))[1..] == Map(ks[1..], TrendRowFn(rows, grain));
      TrendRevenueSum(rows, grain, ks[1..]);
    }
  }

  /** The bucket revenues add up to the total revenue. */
  lemma TrendRevenue(rows: seq<DashRow>, grain: string)
    ensures Sum(Trend(rows, grain), RevenueOf) == Sum(rows, TotalOf)
  {
    var key := BucketFn(grain);
    var ks := TrendKeys(rows, grain);
    DateTimeLessIsStrictTotal();
    SortedDistinctSpec(Map(rows, key), Chronological());
    StrictlySortedDistinct(ks, Chronological());
    TrendRevenueSum(rows, grain, ks);
    assert forall r :: r in rows ==> key(r) in Map(rows, key);
    SumOverKeysTotal(rows, key, TotalOf, ks);
  }

  // ---------------------------------------------------------------- compute_truck_perf

  datatype PerfRow = PerfRow(truckName: string, revenue: real, transactions: nat, avgSale: real, cashShare: real)

  function NameOf(r: DashRow): string {
    r.truckName
  }

  predicate HasPaymentMethod(r: DashRow) {
    r.paymentMethod.Some?
  }

  predicate PaidCash(r: DashRow) {
    r.paymentMethod == Some("cash")
  }

  /** `s.eq("cash").mean()` on a nullable text column: missing methods are skipped, and with
      none present the mean is missing, which `float(...)` refuses. */
  function CashShare(g: seq<DashRow>): Option<real> {
    var present := Filter(g, HasPaymentMethod);
    if present == [] then None else Some(|Filter(g, PaidCash)| as real / |present| as real)
  }

  function PerfRowOf(rows: seq<DashRow>, name: string): PerfRow {
    var g := Group(rows, NameOf, name);
    PerfRow(name, Sum(g, TotalOf), NUnique(Map(g, IdOf)), MeanTotal(g),
            match CashShare(g) case Some(v) => v case None => 0.0)
  }

  function PerfRowFn(rows: seq<DashRow>): string -> PerfRow {
    name => PerfRowOf(rows, name)
  }

  /** The truck names in ascending order (`groupby` sorts its keys). */
  function TruckNames(rows: seq<DashRow>): seq<string> {
    SortedDistinct(Map(rows, NameOf), TextOrder())
  }

  /** `compute_truck_perf`: one row per truck name, in name order; `None` when some truck has no
      payment method at all, where the source fails converting the missing share to `float`. */
  function TruckPerf(rows: seq<DashRow>): Option<seq<PerfRow>> {
    var names := TruckNames(rows);
    if forall n :: n in names ==> CashShare(Group(rows, NameOf, n)).Some? then Some(Map(names, PerfRowFn(rows)))
    else None
  }

  /** A share exists exactly when some payment method is recorded. */
  lemma CashShareDefined(g: seq<DashRow>)
    ensures CashShare(g).Some? <==> exists r :: r in g && r.paymentMethod.Some?
  {
    var present := Filter(g, HasPaymentMethod);
    if r :| r in g && r.paymentMethod.Some? {
      FilterKeeps(g, HasPaymentMethod, r);
    }
    if present != [] {
      assert present[0] in present;
    }
  }

  /** A proportion of a positive whole lies in [0, 1], and the whole of itself is 1. */
  lemma Proportion(a: real, b: real)
    requires 0.0 <= a <= b && b > 0.0
    ensures 0.0 <= a / b <= 1.0
    ensures a == b ==> a / b == 1.0
  {
    assert (a / b) * b == a;
  }

  /** A share is a proportion. */
  lemma CashShareBounds(g: seq<DashRow>)
    requires CashShare(g).Some?
    ensures 0.0 <= CashShare(g).value <= 1.0
  {
    FilterMonotone(g, PaidCash, HasPaymentMethod);
    Proportion(|Filter(g, PaidCash)| as real, |Filter(g, HasPaymentMethod)| as real);
  }

  /** All-cash groups have share 1 and cash-free groups share 0. */
  lemma CashShareExtremes(g: seq<DashRow>)
    requires CashShare(g).Some?
    ensures (forall r :: r in g ==> PaidCash(r)) ==> CashShare(g).value == 1.0
    ensures (forall r :: r in g ==> !PaidCash(r)) ==> CashShare(g).value == 0.0
  {
    if forall r :: r in g ==> PaidCash(r) {
      FilterAll(g, PaidCash);
      FilterAll(g, HasPaymentMethod);
      Proportion(|g| as real, |g| as real);
    }
    if forall r :: r in g ==> !PaidCash(r) {
      FilterNone(g, PaidCash);
    }
  }

  /** With no method missing, the share is cash rows over all rows. */
  lemma CashShareComplete(g: seq<DashRow>)
    requires g != [] && forall r :: r in g ==> r.paymentMethod.Some?
    ensures CashShare(g) == Some(|Filter(g, PaidCash)| as real / |g| as real)
  {
    FilterAll(g, HasPaymentMethod);
  }

  /** Some row of the truck records a payment method. */
  predicate TruckHasMethod(rows: seq<DashRow>, name: string) {
    exists q :: q in rows && q.truckName == name && q.paymentMethod.Some?
  }

  lemma GroupCashDefined(rows: seq<DashRow>, name: string)
    ensures CashShare(Group(rows, NameOf, name)).Some? <==> TruckHasMethod(rows, name)
  {
    var g := Group(rows, NameOf, name);
    CashShareDefined(g);
    if q :| q in rows && q.truckName == name && q.paymentMethod.Some? {
      assert NameOf(q) == name;
      FilterKeeps(rows, KeyIs(NameOf, name), q);
      assert q in g;
    }
    if CashShare(g).Some? {
      var r :| r in g && r.paymentMethod.Some?;
      assert r in rows && KeyIs(NameOf, name)(r);
    }
  }

  /** The table is defined exactly when every truck has some payment method recorded. */
  lemma TruckPerfDefined(rows: seq<DashRow>)
    ensures TruckPerf(rows).Some? <==> forall r :: r in rows ==> TruckHasMethod(rows, r.truckName)
  {
    var names := TruckNames(rows);
    StringLessIsStrictTotal();
    SortedDistinctSpec(Map(rows, NameOf), TextOrder());
    forall n | n in names ensures CashShare(Group(rows, NameOf, n)).Some? <==> TruckHasMethod(rows, n) {
      GroupCashDefined(rows, n);
    }
    forall r | r in rows ensures r.truckName in names {
      assert NameOf(r) in Map(rows, NameOf);
    }
    if forall r :: r in rows ==> TruckHasMethod(rows, r.truckName) {
      forall n | n in names ensures TruckHasMethod(rows, n) {
        var j :| 0 <= j < |rows| && Map(rows, NameOf)[j] == n;
        assert rows[j] in rows;
      }
    }
  }

  function PerfNameOf(p: PerfRow): string {
    p.truckName
  }

  function PerfRevenueOf(p: PerfRow): real {
    p.revenue
  }

  /** What a truck's row says about that truck's rows: they exist, their totals make its
      revenue, its transaction count is the number of distinct ids among them (so at most one
      per row and at least one when an id is present), its average is the mean total of those rows, and its cash share is the share of the rows'
      recorded methods that are cash. */
  predicate PerfRowOk(rows: seq<DashRow>, p: PerfRow) {
    var g := Group(rows, NameOf, p.truckName);
    && g != []
    && p.revenue == Sum(g, TotalOf)
    && p.transactions == NUnique(Map(g, IdOf))
    && p.transactions <= |g|
    && (SomeId(g) ==> p.transactions >= 1)
    && p.avgSale == MeanTotal(g)
    && CashShare(g) == Some(p.cashShare)
  }

  lemma PerfRowFacts(rows: seq<DashRow>, n: string)
    requires n in Map(rows, NameOf)
    requires CashShare(Group(rows, NameOf, n)).Some?
    ensures PerfRowOf(rows, n).truckName == n
    ensures PerfRowOk(rows, PerfRowOf(rows, n))
  {
    var g := Group(rows, NameOf, n);
    GroupNonEmpty(rows, NameOf, n);
    IdCountBounds(g);
  }

  /** One row per truck name, names strictly ascending. */
  lemma TruckPerfNames(rows: seq<DashRow>)
    requires TruckPerf(rows).Some?
    ensures var perf := TruckPerf(rows).value;
      && (forall i, j :: 0 <= i < j < |perf| ==> StringLess(perf[i].truckName, perf[j].truckName))
      && (forall n :: n in Map(perf, PerfNameOf) <==> n in Map(rows, NameOf))
  {
    StringLessIsStrictTotal();
    SortedDistinctSpec(Map(rows, NameOf), TextOrder());
    assert Map(TruckPerf(rows).value, PerfNameOf) == TruckNames(rows);
  }

  /** Every truck's row is backed by that truck's rows as `PerfRowOk` states, and its cash
      share lies in [0, 1]. */
  lemma TruckPerfRows(rows: seq<DashRow>)
    requires TruckPerf(rows).Some?
    ensures forall p :: p in TruckPerf(rows).value ==> PerfRowOk(rows, p) && 0.0 <= p.cashShare <= 1.0
  {
    var names := TruckNames(rows);
    var perf := TruckPerf(rows).value;
    StringLessIsStrictTotal();
    SortedDistinctSpec(Map(rows, NameOf), TextOrder());
    forall p | p in perf ensures PerfRowOk(rows, p) && 0.0 <= p.cashShare <= 1.0 {
      var i :| 0 <= i < |names| && perf[i] == p;
      assert names[i] in names;
      PerfRowFacts(rows, names[i]);
      CashShareBounds(Group(rows, NameOf, names[i]));
    }
  }

  lemma {:induction false} PerfRevenueSum(rows: seq<DashRow>, ks: seq<string>)
    ensures Sum(Map(ks, PerfRowFn(rows)), PerfRevenueOf) == SumOverKeys(rows, NameOf, TotalOf, ks)
  {
    if ks != [] {
      assert Map(ks, PerfRowFn(rows))[1..] == Map(ks[1..], PerfRowFn(rows));
      PerfRevenueSum(rows, ks[1..]);
    }
  }

  /** The per-truck revenues add up to the total revenue. */
  lemma TruckPerfRevenue(rows: seq<DashRow>)
    requires TruckPerf(rows).Some?
    ensures Sum(TruckPerf(rows).value, PerfRevenueOf) == Sum(rows, TotalOf)
  {
    var names := TruckNames(rows);
    StringLessIsStrictTotal();
    SortedDistinctSpec(Map(rows, NameOf), TextOrder());
    StrictlySortedDistinct(names, TextOrder());
    PerfRevenueSum(rows, names);
    assert forall r :: r in rows ==> NameOf(r) in Map(rows, NameOf);
    SumOverKeysTotal(rows, NameOf, TotalOf, names);
  }

  // ---------------------------------------------------------------- compute_payment_mix

  /** A row of the payment mix: the method (missing shown as `unknown`) and its row count. */
  datatype MixRow = MixRow(paymentMethod: string, count: nat)

  /** A distinct payment-method value and how many rows carry it. */
  datatype MethodCount = MethodCount(key: Option<string>, count: nat)

  function MethodOf(r: DashRow): Option<string> {
    r.paymentMethod
  }

  function MethodCountFn(rows: seq<DashRow>): Option<string> -> MethodCount {
    k => MethodCount(k, |Group(rows, MethodOf, k)|)
  }

  /** `value_counts(dropna=False)` before sorting: every distinct value, missing included. */
  function MethodCounts(rows: seq<DashRow>): seq<MethodCount> {
    Map(KeysInOrder(rows, MethodOf), MethodCountFn(rows))
  }

  /** Most frequent first. */
  function ByCountDesc(): (MethodCount, MethodCount) -> bool {
    (a: MethodCount, b: MethodCount) => a.count >= b.count
  }

  function Label(m: MethodCount): MixRow {
    MixRow(match m.key case Some(s) => s case None => "unknown", m.count)
  }

  function SortedCounts(rows: seq<DashRow>): seq<MethodCount> {
    SortBy(MethodCounts(rows), ByCountDesc())
  }

  /** `compute_payment_mix`: the value counts, most frequent first, with the missing value
      labelled `unknown`. */
  function PaymentMix(rows: seq<DashRow>): seq<MixRow> {
    Map(SortedCounts(rows), Label)
  }

  function CountOf(m: MethodCount): real {
    m.count as real
  }

  function MixCountOf(m: MixRow): real {
    m.count as real
  }

  function KeyOf(m: MethodCount): Option<string> {
    m.key
  }

  /** One count per distinct value, in first-appearance order, each the size of its group. */
  lemma MethodCountsFacts(rows: seq<DashRow>)
    ensures Map(MethodCounts(rows), KeyOf) == KeysInOrder(rows, MethodOf)
    ensures forall m :: m in MethodCounts(rows) ==> m.count >= 1 && m.count == |Group(rows, MethodOf, m.key)|
  {
    var ks := KeysInOrder(rows, MethodOf);
    var counts := MethodCounts(rows);
    KeysInOrderSpec(rows, MethodOf);
    forall m | m in counts ensures m.count >= 1 && m.count == |Group(rows, MethodOf, m.key)| {
      var i :| 0 <= i < |ks| && counts[i] == m;
      assert ks[i] in ks;
      var r :| r in rows && MethodOf(r) == ks[i];
      assert MethodOf(r) in Map(rows, MethodOf);
      GroupNonEmpty(rows, MethodOf, ks[i]);
    }
  }

  /** The mix is the value counts reordered most frequent first, each count positive and equal
      to its value's number of rows. */
  lemma PaymentMixOrder(rows: seq<DashRow>)
    ensures var sorted := SortedCounts(rows);
      && multiset(sorted) == multiset(MethodCounts(rows))
      && (forall i, j :: 0 <= i < j < |sorted| ==> sorted[i].count >= sorted[j].count)
      && (forall m :: m in sorted ==> m.count >= 1 && m.count == |Group(rows, MethodOf, m.key)|)
  {
    var counts := MethodCounts(rows);
    var sorted := SortedCounts(rows);
    SortBySpec(counts, ByCountDesc());
    MethodCountsFacts(rows);
    forall m | m in sorted ensures m in counts {
      assert m in multiset(counts);
    }
  }

  /** The mix lists each payment-method value of the rows, missing included, exactly once. */
  lemma PaymentMixKeys(rows: seq<DashRow>)
    ensures Distinct(Map(SortedCounts(rows), KeyOf))
    ensures forall k :: k in Map(SortedCounts(rows), KeyOf) <==> k in Map(rows, MethodOf)
  {
    var counts := MethodCounts(rows);
    var sorted := SortedCounts(rows);
    SortBySpec(counts, ByCountDesc());
    MethodCountsFacts(rows);
    KeysInOrderSpec(rows, MethodOf);
    PermutationKeys(sorted, counts);
    forall k ensures k in Map(rows, MethodOf) <==> k in KeysInOrder(rows, MethodOf) {
      if k in Map(rows, MethodOf) {
        var j :| 0 <= j < |rows| && Map(rows, MethodOf)[j] == k;
        assert rows[j] in rows;
      }
      if k in KeysInOrder(rows, MethodOf) {
        var r :| r in rows && MethodOf(r) == k;
        assert MethodOf(r) in Map(rows, MethodOf);
      }
    }
  }

  /** Reordering counts keeps their set of keys, and keeps the keys distinct. */
  lemma PermutationKeys(s: seq<MethodCount>, t: seq<MethodCount>)
    requires multiset(s) == multiset(t)
    requires Distinct(Map(t, KeyOf))
    ensures forall k :: k in Map(s, KeyOf) <==> k in Map(t, KeyOf)
    ensures Distinct(Map(s, KeyOf))
  {
    forall k ensures k in Map(s, KeyOf) <==> k in Map(t, KeyOf) {
      if k in Map(s, KeyOf) {
        var i :| 0 <= i < |s| && KeyOf(s[i]) == k;
        assert s[i] in multiset(t);
        var j :| 0 <= j < |t| && t[j] == s[i];
        assert Map(t, KeyOf)[j] == k;
      }
      if k in Map(t, KeyOf) {
        var j :| 0 <= j < |t| && KeyOf(t[j]) == k;
        assert t[j] in multiset(s);
        var i :| 0 <= i < |s| && s[i] == t[j];
        assert Map(s, KeyOf)[i] == k;
      }
    }
    forall i, j | 0 <= i < j < |s| ensures s[i].key != s[j].key {
      var a, b := TwoPlaces(s, t, i, j);
      if a < b {
        assert Map(t, KeyOf)[a] != Map(t, KeyOf)[b];
      } else {
        assert Map(t, KeyOf)[b] != Map(t, KeyOf)[a];
      }
    }
  }

  /** Two positions of a sequence sit at two different positions of any reordering of it. */
  lemma TwoPlaces<A>(s: seq<A>, t: seq<A>, i: nat, j: nat) returns (a: nat, b: nat)
    requires multiset(s) == multiset(t)
    requires i < j < |s|
    ensures a < |t| && b < |t| && a != b && t[a] == s[i] && t[b] == s[j]
  {
    if s[i] == s[j] {
      assert s == s[..j] + s[j..];
      assert s[..j][i] == s[i] && s[j..][0] == s[j];
      assert multiset(s)[s[i]] == multiset(s[..j])[s[i]] + multiset(s[j..])[s[i]];
      a, b := TwoOccurrences(t, s[i]);
    } else {
      assert s[i] in multiset(t) && s[j] in multiset(t);
      a :| 0 <= a < |t| && t[a] == s[i];
      b :| 0 <= b < |t| && t[b] == s[j];
    }
  }

  /** A value counted twice sits at two positions. */
  lemma {:induction false} TwoOccurrences<A>(t: seq<A>, x: A) returns (a: nat, b: nat)
    requires multiset(t)[x] >= 2
    ensures a < b < |t| && t[a] == x && t[b] == x
  {
    assert t == [t[0]] + t[1..];
    if t[0] == x {
      assert x in multiset(t[1..]);
      var k :| 0 <= k < |t[1..]| && t[1..][k] == x;
      a, b := 0, k + 1;
    } else {
      var a', b' := TwoOccurrences(t[1..], x);
      a, b := a' + 1, b' + 1;
    }
  }

  lemma {:induction false} MethodCountsSum(rows: seq<DashRow>, ks: seq<Option<string>>)
    ensures Sum(Map(ks, MethodCountFn(rows)), CountOf) == CountOverKeys(rows, MethodOf, ks) as real
  {
    if ks != [] {
      assert Map(ks, MethodCountFn(rows))[1..] == Map(ks[1..], MethodCountFn(rows));
      MethodCountsSum(rows, ks[1..]);
    }
  }

  /** Labelling keeps the counts. */
  lemma {:induction false} LabelKeepsCounts(s: seq<MethodCount>)
    ensures Sum(Map(s, Label), MixCountOf) == Sum(s, CountOf)
  {
    if s != [] {
      assert Map(s, Label)[1..] == Map(s[1..], Label);
      LabelKeepsCounts(s[1..]);
    }
  }

  /** The counts of the mix add up to the number of rows. */
  lemma PaymentMixTotal(rows: seq<DashRow>)
    ensures Sum(PaymentMix(rows), MixCountOf) == |rows| as real
  {
    var counts := MethodCounts(rows);
    var ks := KeysInOrder(rows, MethodOf);
    var sorted := SortedCounts(rows);
    SortBySpec(counts, ByCountDesc());
    KeysInOrderSpec(rows, MethodOf);
    SumPermutation(sorted, counts, CountOf);
    MethodCountsSum(rows, ks);
    CountOverKeysTotal(rows, MethodOf, ks);
    LabelKeepsCounts(sorted);
  }
}
