/** The dashboard script (`dashboard/app.py`): the date range, the truck selector, the KPIs,
    the truck ordering and highlights, and the quartile action cues. */
module Dashboard {
  import opened Wrappers
  import opened Seqs
  import opened Sorting
  import opened Calendar
  import opened Cells
  import opened DashTransforms
  import opened Metrics

  // ---------------------------------------------------------------- Date range

  /** What the date picker hands back: one date, or a tuple of the dates picked so far. */
  datatype DatePick = Single(day: Date) | Picked(days: seq<Date>)

  /** Unpacking a tuple of the wrong length raises. */
  datatype RangeError = UnpackError(length: nat)

  /** The start and end of the period: a single date stands for both ends. */
  function DateRange(pick: DatePick): (r: Result<(Date, Date), RangeError>)
    ensures pick.Single? ==> r == Ok((pick.day, pick.day))
    ensures pick.Picked? ==> (r.Ok? <==> |pick.days| == 2)
    ensures pick.Picked? && r.Ok? ==> r.value.0 == pick.days[0] && r.value.1 == pick.days[1]
    ensures r.Err? ==> r.error.length == |pick.days|
  {
    match pick
    case Single(d) => Ok((d, d))
    case Picked(ds) => if |ds| == 2 then Ok((ds[0], ds[1])) else Err(UnpackError(|ds|))
  }

  // ---------------------------------------------------------------- Truck selector

  /** The selector's options: the sorted distinct names of the rows the payment filter keeps. */
  function TruckOptions(base: seq<DashRow>, paymentFilter: seq<string>): seq<string> {
    SortedDistinct(Map(PaymentFiltered(base, paymentFilter), NameOf), TextOrder())
  }

  /** The options are in strict text order, and a name is offered exactly when some row with
      that truck passes the payment filter (every row when the filter is empty). */
  lemma TruckOptionsSpec(base: seq<DashRow>, paymentFilter: seq<string>)
    ensures var opts := TruckOptions(base, paymentFilter);
      && (forall i, j :: 0 <= i < j < |opts| ==> StringLess(opts[i], opts[j]))
      && Distinct(opts)
      && (forall n :: n in opts <==> exists r :: r in base && r.truckName == n && (paymentFilter == [] || PaymentIn(paymentFilter, r)))
  {
    var kept := PaymentFiltered(base, paymentFilter);
    StringLessIsStrictTotal();
    SortedDistinctSpec(Map(kept, NameOf), TextOrder());
    StrictlySortedDistinct(TruckOptions(base, paymentFilter), TextOrder());
    ApplyFiltersSpec(base, paymentFilter, []);
    assert kept == ApplyFilters(base, paymentFilter, []);
    forall n ensures n in Map(kept, NameOf) <==> exists r :: r in kept && r.truckName == n {
      if n in Map(kept, NameOf) {
        var i :| 0 <= i < |kept| && Map(kept, NameOf)[i] == n;
        assert kept[i] in kept;
      }
      if r :| r in kept && r.truckName == n {
        var i :| 0 <= i < |kept| && kept[i] == r;
        assert Map(kept, NameOf)[i] == n;
      }
    }
  }

  /** Keeping the default selection (every offered truck) removes nothing beyond the payment
      filter. */
  lemma DefaultSelectionKeepsAll(base: seq<DashRow>, paymentFilter: seq<string>)
    ensures ApplyFilters(base, paymentFilter, TruckOptions(base, paymentFilter)) == PaymentFiltered(base, paymentFilter)
  {
    var kept := PaymentFiltered(base, paymentFilter);
    var opts := TruckOptions(base, paymentFilter);
    StringLessIsStrictTotal();
    SortedDistinctSpec(Map(kept, NameOf), TextOrder());
    forall r | r in kept ensures TruckInFn(opts)(r) {
      var i :| 0 <= i < |kept| && kept[i] == r;
      assert Map(kept, NameOf)[i] == r.truckName;
    }
    FilterAll(kept, TruckInFn(opts));
  }

  // ---------------------------------------------------------------- KPIs

  datatype Kpis = Kpis(totalRevenue: real, nTransactions: nat, avgSale: real, cashShare: real)

  /** What the KPIs of the rows `df` are: the revenue total, the number of distinct
      transaction ids (at least one when some row has an id, at most one per row), the mean sale, and the
      share of rows with a recorded method that were paid in cash. */
  predicate KpisOk(df: seq<DashRow>, k: Kpis) {
    && k.totalRevenue == Sum(df, TotalOf)
    && k.nTransactions == NUnique(Map(df, IdOf))
    && k.nTransactions <= |df|
    && (SomeId(df) ==> k.nTransactions >= 1)
    && k.avgSale == MeanTotal(df)
    && CashShare(df) == Some(k.cashShare)
    && 0.0 <= k.cashShare <= 1.0
  }

  /** The four KPIs of the filtered rows; the cash share is missing (and `float` of it raises)
      when no row records a payment method. */
  function KpisOf(df: seq<DashRow>): (r: Option<Kpis>)
    ensures r.Some? <==> exists x :: x in df && x.paymentMethod.Some?
    ensures r.Some? ==> KpisOk(df, r.value)
  {
    CashShareDefined(df);
    match CashShare(df)
    case None => None
    case Some(share) =>
      IdCountBounds(df);
      CashShareBounds(df);
      Some(Kpis(Sum(df, TotalOf), NUnique(Map(df, IdOf)), MeanTotal(df), share))
  }

  /** A cash share for every truck implies one for all the rows together, so the KPIs exist
      whenever the truck table does. */
  lemma PerfGivesKpis(df: seq<DashRow>)
    ensures df != [] && TruckPerf(df).Some? ==> KpisOf(df).Some?
  {
    if df != [] && TruckPerf(df).Some? {
      TruckPerfDefined(df);
      assert df[0] in df;
      GroupCashDefined(df, df[0].truckName);
      var x :| x in df && x.truckName == df[0].truckName && x.paymentMethod.Some?;
    }
  }

  /** A non-empty selection has a non-empty truck table. */
  lemma PerfNonEmpty(df: seq<DashRow>)
    requires df != [] && TruckPerf(df).Some?
    ensures TruckPerf(df).value != []
  {
    TruckPerfNames(df);
    assert Map(df, NameOf)[0] == df[0].truckName;
    assert df[0].truckName in Map(TruckPerf(df).value, PerfNameOf);
  }

  // ---------------------------------------------------------------- Truck ordering and highlights

  function RevenueDesc(): (PerfRow, PerfRow) -> bool {
    (a: PerfRow, b: PerfRow) => a.revenue >= b.revenue
  }

  function RevenueAsc(): (PerfRow, PerfRow) -> bool {
    (a: PerfRow, b: PerfRow) => a.revenue <= b.revenue
  }

  function TransactionsDesc(): (PerfRow, PerfRow) -> bool {
    (a: PerfRow, b: PerfRow) => a.transactions >= b.transactions
  }

  function AvgSaleDesc(): (PerfRow, PerfRow) -> bool {
    (a: PerfRow, b: PerfRow) => a.avgSale >= b.avgSale
  }

  /** The order the "Sort trucks by" choice selects; anything but the first two choices sorts
      by average ticket. */
  function MetricOrder(sortMetric: string): (PerfRow, PerfRow) -> bool {
    if sortMetric == "Revenue (sum)" then RevenueDesc()
    else if sortMetric == "Transactions (count)" then TransactionsDesc()
    else AvgSaleDesc()
  }

  lemma OrdersArePreorders()
    ensures TotalPreorder(RevenueDesc()) && TotalPreorder(RevenueAsc())
    ensures TotalPreorder(TransactionsDesc()) && TotalPreorder(AvgSaleDesc())
  {
  }

  /** The first element of a sorted copy is in the input and is `le` every element. */
  lemma SortFirst<T(!new)>(xs: seq<T>, le: (T, T) -> bool)
    requires TotalPreorder(le) && xs != []
    ensures |SortBy(xs, le)| == |xs|
    ensures SortBy(xs, le)[0] in xs
    ensures forall x :: x in xs ==> le(SortBy(xs, le)[0], x)
  {
    var s := SortBy(xs, le);
    SortBySpec(xs, le);
    assert s[0] in multiset(xs);
    forall x | x in xs ensures le(s[0], x) {
      assert x in multiset(s);
      var k :| 0 <= k < |s| && s[k] == x;
      if k > 0 {
        assert le(s[0], s[k]);
      } else {
        assert le(s[0], s[0]);
      }
    }
  }

  datatype Highlights = Highlights(topByTransactions: string, topByRevenue: string, bottomByRevenue: string)

  /** The caption's three names: the first truck after sorting by transactions descending, by
      revenue descending, and by revenue ascending. */
  function HighlightsOf(perf: seq<PerfRow>): Highlights
    requires perf != []
  {
    OrdersArePreorders();
    SortFirst(perf, TransactionsDesc());
    SortFirst(perf, RevenueDesc());
    SortFirst(perf, RevenueAsc());
    Highlights(
      SortBy(perf, TransactionsDesc())[0].truckName,
      SortBy(perf, RevenueDesc())[0].truckName,
      SortBy(perf, RevenueAsc())[0].truckName)
  }

  /** Each highlight names a truck of the table that has, respectively, the most transactions,
      the most revenue and the least revenue. */
  lemma HighlightsSpec(perf: seq<PerfRow>)
    requires perf != []
    ensures var h := HighlightsOf(perf);
      && (exists p :: p in perf && p.truckName == h.topByTransactions && forall o :: o in perf ==> o.transactions <= p.transactions)
      && (exists p :: p in perf && p.truckName == h.topByRevenue && forall o :: o in perf ==> o.revenue <= p.revenue)
      && (exists p :: p in perf && p.truckName == h.bottomByRevenue && forall o :: o in perf ==> p.revenue <= o.revenue)
  {
    OrdersArePreorders();
    SortFirst(perf, TransactionsDesc());
    SortFirst(perf, RevenueDesc());
    SortFirst(perf, RevenueAsc());
    var a, b, c := SortBy(perf, TransactionsDesc())[0], SortBy(perf, RevenueDesc())[0], SortBy(perf, RevenueAsc())[0];
    assert forall o :: o in perf ==> o.transactions <= a.transactions;
    assert forall o :: o in perf ==> o.revenue <= b.revenue;
    assert forall o :: o in perf ==> c.revenue <= o.revenue;
  }

  // ---------------------------------------------------------------- Quantiles and action cues

  function RealAsc(): (real, real) -> bool {
    (a: real, b: real) => a <= b
  }

  lemma RealAscIsPreorder()
    ensures TotalPreorder(RealAsc())
  {
  }

  /** Where the `q` quantile of `n` values sits in their sorted order: `q * (n - 1)`. */
  function Position(n: nat, q: real): (h: real)
    requires n >= 1 && 0.0 <= q <= 1.0
    ensures 0.0 <= h <= (n - 1) as real
  {
    assert (n - 1) as real * q <= (n - 1) as real * 1.0;
    (n - 1) as real * q
  }

  /** Linear interpolation at position `h` of `v`: the value at `floor(h)` plus the fraction
      of `h` past it times the step to the next value. */
  function Interpolated(v: seq<real>, h: real): real
    requires 0.0 <= h <= (|v| - 1) as real
  {
    var lo := h.Floor;
    var hi := if lo + 1 < |v| then lo + 1 else lo;
    v[lo] + (h - lo as real) * (v[hi] - v[lo])
  }

  /** `Series.quantile(q)` with linear interpolation: sort, take position `q * (n - 1)`, and
      interpolate between the values on either side of it. An empty series has no quantile
      (pandas returns NaN). */
  function Quantile(xs: seq<real>, q: real): (r: Option<real>)
    requires 0.0 <= q <= 1.0
    ensures r.Some? <==> xs != []
  {
    if xs == [] then None
    else
      RealAscIsPreorder();
      SortBySpec(xs, RealAsc());
      Some(Interpolated(SortBy(xs, RealAsc()), Position(|xs|, q)))
  }

  /** Interpolating between `a <= b` with a fraction in [0, 1] stays between them. */
  lemma Interpolate(a: real, b: real, f: real)
    requires a <= b && 0.0 <= f <= 1.0
    ensures a <= a + f * (b - a) <= b
  {
    assert f * (b - a) <= 1.0 * (b - a);
  }

  /** On sorted values the interpolation lies between two of them. */
  lemma InterpolatedBounds(v: seq<real>, h: real)
    requires 0.0 <= h <= (|v| - 1) as real && SortedBy(v, RealAsc())
    ensures exists i :: 0 <= i < |v| && v[i] <= Interpolated(v, h)
    ensures exists j :: 0 <= j < |v| && Interpolated(v, h) <= v[j]
  {
    var lo := h.Floor;
    var hi := if lo + 1 < |v| then lo + 1 else lo;
    assert v[lo] <= v[hi] by {
      if lo < hi {
        assert RealAsc()(v[lo], v[hi]);
      }
    }
    if hi == lo {
      assert h == lo as real;
    }
    Interpolate(v[lo], v[hi], h - lo as real);
    assert Interpolated(v, h) == v[lo] + (h - lo as real) * (v[hi] - v[lo]);
    assert v[lo] <= Interpolated(v, h) <= v[hi];
  }

  /** An interpolated quantile lies between two values of the series. */
  lemma QuantileBounds(xs: seq<real>, q: real)
    requires 0.0 <= q <= 1.0 && xs != []
    ensures exists i :: 0 <= i < |xs| && xs[i] <= Quantile(xs, q).value
    ensures exists j :: 0 <= j < |xs| && Quantile(xs, q).value <= xs[j]
  {
    RealAscIsPreorder();
    SortBySpec(xs, RealAsc());
    var v := SortBy(xs, RealAsc());
    var r := Quantile(xs, q).value;
    InterpolatedBounds(v, Position(|xs|, q));
    var a :| 0 <= a < |v| && v[a] <= r;
    var b :| 0 <= b < |v| && r <= v[b];
    assert v[a] in multiset(xs) && v[b] in multiset(xs);
    var i :| 0 <= i < |xs| && xs[i] == v[a];
    var j :| 0 <= j < |xs| && xs[j] == v[b];
  }

  function RevenueAtMost(t: real): PerfRow -> bool {
    (p: PerfRow) => p.revenue <= t
  }

  function CashShareAtLeast(t: real): PerfRow -> bool {
    (p: PerfRow) => p.cashShare >= t
  }

  function CashShareOf(p: PerfRow): real {
    p.cashShare
  }

  /** Underperforming trucks: revenue at or below the 25th percentile of revenues (none when
      the quantile is NaN, since every comparison with NaN is false). */
  function LowRevenue(perf: seq<PerfRow>): seq<PerfRow> {
    match Quantile(Map(perf, PerfRevenueOf), 0.25)
    case None => []
    case Some(t) => Filter(perf, RevenueAtMost(t))
  }

  /** High cash reliance: cash share at or above the 75th percentile of cash shares. */
  function HighCash(perf: seq<PerfRow>): seq<PerfRow> {
    match Quantile(Map(perf, CashShareOf), 0.75)
    case None => []
    case Some(t) => Filter(perf, CashShareAtLeast(t))
  }

  /** The lowest-revenue truck is always flagged as underperforming. */
  lemma LowestRevenueFlagged(perf: seq<PerfRow>, p: PerfRow)
    requires p in perf && forall o :: o in perf ==> p.revenue <= o.revenue
    ensures p in LowRevenue(perf)
  {
    var xs := Map(perf, PerfRevenueOf);
    QuantileBounds(xs, 0.25);
    var i :| 0 <= i < |xs| && xs[i] <= Quantile(xs, 0.25).value;
    assert perf[i] in perf;
    FilterKeeps(perf, RevenueAtMost(Quantile(xs, 0.25).value), p);
  }

  /** The truck with the highest cash share is always flagged as cash-reliant. */
  lemma HighestCashFlagged(perf: seq<PerfRow>, p: PerfRow)
    requires p in perf && forall o :: o in perf ==> o.cashShare <= p.cashShare
    ensures p in HighCash(perf)
  {
    var xs := Map(perf, CashShareOf);
    QuantileBounds(xs, 0.75);
    var j :| 0 <= j < |xs| && Quantile(xs, 0.75).value <= xs[j];
    assert perf[j] in perf;
    FilterKeeps(perf, CashShareAtLeast(Quantile(xs, 0.75).value), p);
  }

  /** Four trucks with revenues 10, 20, 30 and 40: the 25th percentile is 17.5 and only the
      first truck is flagged. */
  lemma QuartileExample()
    ensures var perf := [PerfRow("a", 10.0, 1, 10.0, 0.0), PerfRow("b", 20.0, 1, 20.0, 0.0),
                         PerfRow("c", 30.0, 1, 30.0, 0.0), PerfRow("d", 40.0, 1, 40.0, 0.0)];
      && Quantile(Map(perf, PerfRevenueOf), 0.25) == Some(17.5)
      && LowRevenue(perf) == [perf[0]]
  {
    var perf := [PerfRow("a", 10.0, 1, 10.0, 0.0), PerfRow("b", 20.0, 1, 20.0, 0.0),
                 PerfRow("c", 30.0, 1, 30.0, 0.0), PerfRow("d", 40.0, 1, 40.0, 0.0)];
    var xs := Map(perf, PerfRevenueOf);
    assert xs == [10.0, 20.0, 30.0, 40.0];
    ExampleAlreadySorted();
    assert Position(4, 0.25) == 0.75;
    assert Interpolated(xs, 0.75) == 17.5;
  }

  lemma ExampleAlreadySorted()
    ensures SortBy([10.0, 20.0, 30.0, 40.0], RealAsc()) == [10.0, 20.0, 30.0, 40.0]
  {
    var xs := [10.0, 20.0, 30.0, 40.0];
    var le := RealAsc();
    assert SortBy([10.0], le) == [10.0];
    assert xs[..2] == [10.0, 20.0] && [10.0, 20.0][..1] == [10.0];
    assert SortBy([10.0, 20.0], le) == [10.0, 20.0];
    assert xs[..3] == [10.0, 20.0, 30.0] && [10.0, 20.0, 30.0][..2] == [10.0, 20.0];
    assert SortBy([10.0, 20.0, 30.0], le) == [10.0, 20.0, 30.0];
  }

  // ---------------------------------------------------------------- The script

  datatype View = View(
    kpis: Kpis, trend: seq<TrendRow>, perf: seq<PerfRow>, mix: seq<MixRow>,
    highlights: Highlights, lowRevenue: seq<PerfRow>, highCash: seq<PerfRow>)

  /** Why the page stops: no rows survive the filters, or a cash share is missing. */
  datatype DashError = NoData | CashShareUndefined

  /** One run of the script after loading: the selector options, then, for the filtered rows,
      the KPIs, the aggregations, the truck table in the chosen order, the highlights and the
      action cues. */
  method RunDashboard(base: seq<DashRow>, paymentFilter: seq<string>, selectedTrucks: seq<string>,
                      grain: string, sortMetric: string)
    returns (options: seq<string>, view: Result<View, DashError>)
    ensures options == TruckOptions(base, paymentFilter)
    ensures var df := ApplyFilters(base, paymentFilter, selectedTrucks);
      && (view == Err(NoData) <==> df == [])
      && (view.Ok? <==> df != [] && TruckPerf(df).Some?)
      && (view.Ok? ==>
            && Some(view.value.kpis) == KpisOf(df)
            && view.value.trend == Trend(df, grain)
            && view.value.mix == PaymentMix(df)
            && multiset(view.value.perf) == multiset(TruckPerf(df).value)
            && SortedBy(view.value.perf, MetricOrder(sortMetric))
            && view.value.highlights == HighlightsOf(view.value.perf)
            && view.value.lowRevenue == LowRevenue(view.value.perf)
            && view.value.highCash == HighCash(view.value.perf))
  {
    var forTrucks := base;
    if paymentFilter != [] {
      forTrucks := Filter(forTrucks, PaymentInFn(paymentFilter));
    }
    options := SortedDistinct(Map(forTrucks, NameOf), TextOrder());

    var df := ApplyFilters(base, paymentFilter, selectedTrucks);
    if df == [] {
      return options, Err(NoData);
    }
    var kpis := KpisOf(df);
    PerfGivesKpis(df);
    if kpis.None? {
      return options, Err(CashShareUndefined);
    }
    var trend := Trend(df, grain);
    var perfOrNone := TruckPerf(df);
    if perfOrNone.None? {
      return options, Err(CashShareUndefined);
    }
    PerfNonEmpty(df);
    var perf := perfOrNone.value;
    var mix := PaymentMix(df);

    OrdersArePreorders();
    if sortMetric == "Revenue (sum)" {
      SortBySpec(perf, RevenueDesc());
      perf := SortBy(perf, RevenueDesc());
    } else if sortMetric == "Transactions (count)" {
      SortBySpec(perf, TransactionsDesc());
      perf := SortBy(perf, TransactionsDesc());
    } else {
      SortBySpec(perf, AvgSaleDesc());
      perf := SortBy(perf, AvgSaleDesc());
    }
    var highlights := HighlightsOf(perf);
    view := Ok(View(kpis.value, trend, perf, mix, highlights, LowRevenue(perf), HighCash(perf)));
  }

  /** The KPI revenue is the sum of the truck table's revenues, whatever the order chosen. */
  lemma RevenueAgrees(df: seq<DashRow>, perf: seq<PerfRow>)
    requires TruckPerf(df).Some? && KpisOf(df).Some?
    requires multiset(perf) == multiset(TruckPerf(df).value)
    ensures Sum(perf, PerfRevenueOf) == KpisOf(df).value.totalRevenue
  {
    TruckPerfRevenue(df);
    SumPermutation(perf, TruckPerf(df).value, PerfRevenueOf);
  }
}
