/** The dashboard's base cleaning and filters (`dashboard/dashboard_core/transforms.py`). */
module DashTransforms {
  import opened Wrappers
  import opened Seqs
  import opened Text
  import opened Calendar
  import opened Cells

  /** A row of the joined transaction query as the dashboard receives it. */
  datatype QueryRow = QueryRow(
    transactionId: Cell, total: Cell, truckName: Option<string>, paymentMethod: Option<string>,
    dayDt: Cell, hourTs: Cell)

  /** A row after `clean_base_df`: the total in pounds, a trimmed truck name, a trimmed
      lower-case payment method, and the day and hour buckets as timestamps. */
  datatype DashRow = DashRow(
    transactionId: Cell, total: real, truckName: string, paymentMethod: Option<string>,
    day: DateTime, hour: DateTime)

  // ---------------------------------------------------------------- clean_base_df

  function StripLower(o: Option<string>): Option<string> {
    match o
    case Some(s) => Some(Lower(Strip(s)))
    case None => None
  }

  /** The column rewrites of `clean_base_df` on one row: pence to pounds, trimming and
      lower-casing, timestamp parsing. */
  function Normalise(x: QueryRow): QueryRow {
    QueryRow(
      x.transactionId,
      (match ToNumeric(x.total) case Num(v) => Num(v / 100.0) case _ => Null),
      (match x.truckName case Some(s) => Some(Strip(s)) case None => None),
      StripLower(x.paymentMethod),
      ToDateTime(x.dayDt),
      ToDateTime(x.hourTs))
  }

  /** `dropna(subset=["total", "truck_name", "day_dt", "hour_ts"])` then `total > 0`. */
  predicate Usable(x: QueryRow) {
    x.total.Num? && x.truckName.Some? && x.dayDt.Stamp? && x.hourTs.Stamp? && x.total.x > 0.0
  }

  function ToDashRow(x: QueryRow): DashRow
    requires Usable(x)
  {
    DashRow(x.transactionId, x.total.x, x.truckName.value, x.paymentMethod, x.dayDt.t, x.hourTs.t)
  }

  /** `clean_base_df`: the usable rows, normalised, in input order. */
  function CleanBase(raw: seq<QueryRow>): (out: seq<DashRow>)
    ensures |out| <= |raw|
  {
    var kept := Filter(Map(raw, Normalise), Usable);
    seq(|kept|, i requires 0 <= i < |kept| => assert kept[i] in kept; ToDashRow(kept[i]))
  }

  /** The row a usable query row becomes. */
  function Cleaned(x: QueryRow): DashRow
    requires Usable(Normalise(x))
  {
    ToDashRow(Normalise(x))
  }

  /** Every cleaned row is the cleaned form of some query row, with a positive total that is a
      hundredth of the row's numeric total, and every query row that survives the checks is
      cleaned into the result. */
  lemma CleanBaseRows(raw: seq<QueryRow>)
    ensures forall r :: r in CleanBase(raw) ==>
      exists x :: x in raw && Usable(Normalise(x)) && r == Cleaned(x) && ToNumeric(x.total) == Num(r.total * 100.0)
    ensures forall x :: x in raw && Usable(Normalise(x)) ==> Cleaned(x) in CleanBase(raw)
  {
    var m := Map(raw, Normalise);
    var kept := Filter(m, Usable);
    var out := CleanBase(raw);
    forall r | r in out
      ensures exists x :: x in raw && Usable(Normalise(x)) && r == Cleaned(x) && ToNumeric(x.total) == Num(r.total * 100.0)
    {
      var i :| 0 <= i < |out| && out[i] == r;
      assert kept[i] in kept;
      var j :| 0 <= j < |m| && m[j] == kept[i];
      assert raw[j] in raw;
    }
    forall x | x in raw && Usable(Normalise(x)) ensures Cleaned(x) in out {
      var j :| 0 <= j < |raw| && raw[j] == x;
      assert m[j] == Normalise(x);
      FilterKeeps(m, Usable, Normalise(x));
      var i :| 0 <= i < |kept| && kept[i] == Normalise(x);
      assert out[i] == Cleaned(x);
    }
  }

  /** Every cleaned row has a positive total, a trimmed truck name, and a trimmed lower-case
      payment method. */
  lemma CleanBaseValid(raw: seq<QueryRow>)
    ensures forall r :: r in CleanBase(raw) ==>
      && r.total > 0.0
      && Strip(r.truckName) == r.truckName
      && (r.paymentMethod.Some? ==>
            Strip(r.paymentMethod.value) == r.paymentMethod.value && Lower(r.paymentMethod.value) == r.paymentMethod.value)
  {
    CleanBaseRows(raw);
    forall r | r in CleanBase(raw)
      ensures r.total > 0.0 && Strip(r.truckName) == r.truckName
      ensures r.paymentMethod.Some? ==>
        Strip(r.paymentMethod.value) == r.paymentMethod.value && Lower(r.paymentMethod.value) == r.paymentMethod.value
    {
      var x :| x in raw && Usable(Normalise(x)) && r == Cleaned(x);
      StripIdempotent(x.truckName.value);
      if x.paymentMethod.Some? {
        LowerKeepsStripped(x.paymentMethod.value);
        LowerIdempotent(Strip(x.paymentMethod.value));
      }
    }
  }

  // ---------------------------------------------------------------- apply_filters

  /** `isin(values)` on a nullable column: a missing value is never in. */
  predicate PaymentIn(values: seq<string>, r: DashRow) {
    r.paymentMethod.Some? && r.paymentMethod.value in values
  }

  function PaymentInFn(values: seq<string>): DashRow -> bool {
    r => PaymentIn(values, r)
  }

  function TruckInFn(values: seq<string>): DashRow -> bool {
    (r: DashRow) => r.truckName in values
  }

  /** The payment filter alone; an empty filter keeps everything. */
  function PaymentFiltered(rows: seq<DashRow>, paymentFilter: seq<string>): seq<DashRow> {
    if paymentFilter != [] then Filter(rows, PaymentInFn(paymentFilter)) else rows
  }

  /** `apply_filters`: the payment filter, then the truck selection, each skipped when empty. */
  function ApplyFilters(rows: seq<DashRow>, paymentFilter: seq<string>, trucks: seq<string>): seq<DashRow> {
    var out := PaymentFiltered(rows, paymentFilter);
    if trucks != [] then Filter(out, TruckInFn(trucks)) else out
  }

  /** A row meets both selections (an empty selection is met by every row). */
  predicate Selected(r: DashRow, paymentFilter: seq<string>, trucks: seq<string>) {
    (paymentFilter == [] || PaymentIn(paymentFilter, r)) && (trucks == [] || r.truckName in trucks)
  }

  function SelectedFn(paymentFilter: seq<string>, trucks: seq<string>): DashRow -> bool {
    r => Selected(r, paymentFilter, trucks)
  }

  /** Filtering keeps, in order, exactly the rows meeting both selections. */
  lemma ApplyFiltersSpec(rows: seq<DashRow>, paymentFilter: seq<string>, trucks: seq<string>)
    ensures ApplyFilters(rows, paymentFilter, trucks) == Filter(rows, SelectedFn(paymentFilter, trucks))
    ensures Subseq(ApplyFilters(rows, paymentFilter, trucks), rows)
    ensures forall r :: r in ApplyFilters(rows, paymentFilter, trucks) <==> r in rows && Selected(r, paymentFilter, trucks)
  {
    var sel := SelectedFn(paymentFilter, trucks);
    var pay := PaymentInFn(paymentFilter);
    var tr := TruckInFn(trucks);
    if paymentFilter != [] && trucks != [] {
      FilterFilter(rows, pay, tr, sel);
    } else if paymentFilter != [] {
      FilterCongruent(rows, pay, sel);
    } else if trucks != [] {
      FilterCongruent(rows, tr, sel);
    } else {
      FilterAll(rows, sel);
    }
    FilterSubseq(rows, sel);
    forall r | r in rows && Selected(r, paymentFilter, trucks) ensures r in Filter(rows, sel) {
      FilterKeeps(rows, sel, r);
    }
  }

  /** With both selections empty the rows come back unchanged. */
  lemma ApplyFiltersNone(rows: seq<DashRow>)
    ensures ApplyFilters(rows, [], []) == rows
  {
  }

  /** Applying the same filters twice is applying them once. */
  lemma ApplyFiltersIdempotent(rows: seq<DashRow>, paymentFilter: seq<string>, trucks: seq<string>)
    ensures ApplyFilters(ApplyFilters(rows, paymentFilter, trucks), paymentFilter, trucks)
      == ApplyFilters(rows, paymentFilter, trucks)
  {
    ApplyFiltersSpec(rows, paymentFilter, trucks);
    ApplyFiltersSpec(ApplyFilters(rows, paymentFilter, trucks), paymentFilter, trucks);
    FilterIdempotent(rows, SelectedFn(paymentFilter, trucks));
  }
}
