/** The daily report Lambda (`pipeline/daily_report.py`): configuration, report-date
    resolution, the post-query shaping of the metrics, and the escaping and structure of the
    rendered HTML. The Athena queries are not modelled: their result rows are inputs. */
module DailyReport {
  import opened Wrappers
  import opened Seqs
  import opened Sorting
  import opened Text
  import opened Calendar
  import opened Cells

  // ---------------------------------------------------------------- load_config

  datatype Config = Config(
    region: string,
    database: string,
    tTransactions: string,
    tTruck: string,
    tPaymentMethod: string,
    s3Output: string)

  datatype ConfigError = MissingDatabase | MissingS3Output

  /** `os.environ.get(key, default)`: a variable that is set, even to the empty string, wins. */
  function EnvGet(env: map<string, string>, key: string, default: string): string {
    if key in env then env[key] else default
  }

  /** A variable counts as given when it is set to a non-empty value. */
  predicate Given(env: map<string, string>, key: string) {
    key in env && env[key] != ""
  }

  /** `load_config`: reads the six settings. Loading succeeds exactly when the database and
      the query-output location are both given; a missing database is reported before a
      missing output location; a loaded configuration never has an empty database or output
      location. */
  function LoadConfig(env: map<string, string>): (r: Result<Config, ConfigError>)
    ensures r.Ok? <==> Given(env, "ATHENA_DATABASE") && Given(env, "ATHENA_S3_OUTPUT")
    ensures !Given(env, "ATHENA_DATABASE") ==> r == Err(MissingDatabase)
    ensures Given(env, "ATHENA_DATABASE") && !Given(env, "ATHENA_S3_OUTPUT") ==> r == Err(MissingS3Output)
    ensures r.Ok? ==>
      && r.value.database == env["ATHENA_DATABASE"] && r.value.database != ""
      && r.value.s3Output == env["ATHENA_S3_OUTPUT"] && r.value.s3Output != ""
  {
    var database := EnvGet(env, "ATHENA_DATABASE", "");
    var s3Output := EnvGet(env, "ATHENA_S3_OUTPUT", "");
    if database == "" then Err(MissingDatabase)
    else if s3Output == "" then Err(MissingS3Output)
    else Ok(Config(
      EnvGet(env, "AWS_REGION", "eu-west-2"),
      database,
      EnvGet(env, "ATHENA_TX_TABLE", "transaction"),
      EnvGet(env, "ATHENA_TRUCK_TABLE", "truck"),
      EnvGet(env, "ATHENA_PM_TABLE", "payment_method"),
      s3Output))
  }

  /** With only the two required settings given, the region and table names take their
      defaults. */
  lemma LoadConfigDefaults(database: string, s3Output: string)
    requires database != "" && s3Output != ""
    ensures LoadConfig(map["ATHENA_DATABASE" := database, "ATHENA_S3_OUTPUT" := s3Output])
      == Ok(Config("eu-west-2", database, "transaction", "truck", "payment_method", s3Output))
  {
    var env := map["ATHENA_DATABASE" := database, "ATHENA_S3_OUTPUT" := s3Output];
    assert "AWS_REGION" !in env && "ATHENA_TX_TABLE" !in env;
    assert "ATHENA_TRUCK_TABLE" !in env && "ATHENA_PM_TABLE" !in env;
  }

  // ---------------------------------------------------------------- parse_report_date

  /** A JSON value of the invocation event. */
  datatype EventValue = JNull | JBool(b: bool) | JInt(i: int) | JText(s: string)

  datatype DateError = InvalidIsoDate(text: string) | DateOverflow

  /** Python truthiness of an event value. */
  predicate Truthy(v: EventValue) {
    match v
    case JNull => false
    case JBool(b) => b
    case JInt(i) => i != 0
    case JText(s) => s != ""
  }

  /** `str(v)` of a truthy event value. */
  function Str(v: EventValue): string {
    match v
    case JNull => "None"
    case JBool(b) => if b then "True" else "False"
    case JInt(i) => (if i < 0 then "-" else "") + NatToString(if i < 0 then -i else i)
    case JText(s) => s
  }

  /** `previous_day_utc` with the clock's current date as `today`; the day before 0001-01-01
      cannot be represented. */
  function PreviousDayUtc(today: Date): Result<Date, DateError>
    requires ValidDate(today)
  {
    match PreviousDay(today)
    case Some(d) => Ok(d)
    case None => Err(DateOverflow)
  }

  /** The report date an event asks for, if it asks for one. */
  function RequestedDate(event: Option<map<string, EventValue>>): Option<EventValue> {
    match event
    case Some(e) => if "report_date" in e && Truthy(e["report_date"]) then Some(e["report_date"]) else None
    case None => None
  }

  /** `parse_report_date`: the event's `report_date` read as an ISO `full-date` when it is
      truthy, otherwise the day before `today`. */
  function ParseReportDate(event: Option<map<string, EventValue>>, today: Date): Result<Date, DateError>
    requires ValidDate(today)
  {
    match RequestedDate(event)
    case Some(v) =>
      (match ParseDate(Str(v))
       case Some(d) => Ok(d)
       case None => Err(InvalidIsoDate(Str(v))))
    case None => PreviousDayUtc(today)
  }

  /** Any date written in the `full-date` form of section 5.6 of RFC 3339 is read back as that
      date, whatever today is. */
  lemma ReportDateRoundTrip(d: Date, today: Date)
    requires ValidDate(d) && ValidDate(today)
    ensures ParseReportDate(Some(map["report_date" := JText(FormatDate(d))]), today) == Ok(d)
  {
    ParseFormatDate(d);
    FormatDateShape(d);
  }

  /** A requested date is accepted only in its canonical `full-date` text. */
  lemma ReportDateCanonical(event: Option<map<string, EventValue>>, today: Date)
    requires ValidDate(today)
    requires RequestedDate(event).Some? && ParseReportDate(event, today).Ok?
    ensures ValidDate(ParseReportDate(event, today).value)
    ensures FormatDate(ParseReportDate(event, today).value) == Str(RequestedDate(event).value)
  {
    FormatParseDate(Str(RequestedDate(event).value));
  }

  /** Without a requested date the report covers yesterday: exactly one day before `today` on
      the day count, across month and year ends; only 0001-01-01 has no yesterday. */
  lemma ReportDateDefault(event: Option<map<string, EventValue>>, today: Date)
    requires ValidDate(today)
    requires RequestedDate(event).None?
    ensures ParseReportDate(event, today).Err? <==> today == Date(1, 1, 1)
    ensures ParseReportDate(event, today).Ok? ==>
      var d := ParseReportDate(event, today).value;
      ValidDate(d) && DayNumber(d) + 1 == DayNumber(today)
  {
    if today != Date(1, 1, 1) {
      PreviousDayCount(today);
    }
  }

  // ---------------------------------------------------------------- build_metrics, after the queries

  /** A row of the by-truck query: the truck name (never missing, the query coalesces it to
      `unknown`) and three numeric cells. */
  datatype TruckQueryRow = TruckQueryRow(truckName: string, nTransactions: Cell, totalPence: Cell, avgSpendPence: Cell)

  /** A by-truck row after the casts. Amounts in pounds rounded to two places are held as
      whole pence. */
  datatype TruckRow = TruckRow(
    truckName: string,
    nTransactions: int,
    totalPence: real,
    avgSpendPence: real,
    totalGbp: int,
    avgSpendGbp: int)

  /** `int(x)` of a float: truncation toward zero. */
  function Truncate(x: real): (r: int)
    ensures 0.0 <= x ==> r as real <= x < r as real + 1.0
    ensures x < 0.0 ==> r as real - 1.0 < x <= r as real
  {
    if x >= 0.0 then x.Floor else -((-x).Floor)
  }

  /** `round(x)` on an exact value: to the nearest integer, halves to the even neighbour. */
  function RoundHalfEven(x: real): (r: int)
    ensures -0.5 <= x - r as real <= 0.5
    ensures x - r as real == 0.5 || x - r as real == -0.5 ==> r % 2 == 0
    ensures x == x.Floor as real ==> r == x.Floor
  {
    var f := x.Floor;
    var d := x - f as real;
    if d < 0.5 then f
    else if d > 0.5 then f + 1
    else if f % 2 == 0 then f else f + 1
  }

  /** `to_numeric(..., errors="coerce").fillna(0).astype(int)`. */
  function CountOfCell(c: Cell): int {
    match ToNumeric(c)
    case Num(x) => Truncate(x)
    case _ => 0
  }

  /** `to_numeric(..., errors="coerce").fillna(0.0)`. */
  function AmountOfCell(c: Cell): real {
    match ToNumeric(c)
    case Num(x) => x
    case _ => 0.0
  }

  /** The casts of lines 150-166: counts and amounts coerced with missing values as zero, and
      `round(pence / 100, 2)` pounds, here in whole pence. */
  function CastRow(q: TruckQueryRow): TruckRow {
    var total := AmountOfCell(q.totalPence);
    var avg := AmountOfCell(q.avgSpendPence);
    TruckRow(q.truckName, CountOfCell(q.nTransactions), total, avg, RoundHalfEven(total), RoundHalfEven(avg))
  }

  /** Largest revenue first, ties broken by the larger number of transactions. */
  function ByRevenue(): (TruckRow, TruckRow) -> bool {
    (a: TruckRow, b: TruckRow) => a.totalGbp > b.totalGbp || (a.totalGbp == b.totalGbp && a.nTransactions >= b.nTransactions)
  }

  /** Most transactions first. */
  function ByTransactions(): (TruckRow, TruckRow) -> bool {
    (a: TruckRow, b: TruckRow) => a.nTransactions >= b.nTransactions
  }

  lemma ByRevenueIsPreorder()
    ensures TotalPreorder(ByRevenue())
  {
  }

  lemma ByTransactionsIsPreorder()
    ensures TotalPreorder(ByTransactions())
  {
  }

  /** The by-truck table: cast, then sorted by revenue and transactions, both descending. */
  function ByTruck(raw: seq<TruckQueryRow>): seq<TruckRow> {
    SortBy(Map(raw, CastRow), ByRevenue())
  }

  /** The by-truck table holds every cast query row once, ordered by rounded revenue
      descending and, within equal revenue, by transactions descending; each rounded amount is
      within half a penny of the coerced amount. */
  lemma ByTruckSpec(raw: seq<TruckQueryRow>)
    ensures var t := ByTruck(raw);
      && multiset(t) == multiset(Map(raw, CastRow))
      && |t| == |raw|
      && RevenueSorted(t)
      && (forall r :: r in t ==> -0.5 <= r.totalPence - r.totalGbp as real <= 0.5)
  {
    ByRevenueIsPreorder();
    SortBySpec(Map(raw, CastRow), ByRevenue());
    ByTruckOrder(raw);
    forall r | r in ByTruck(raw) ensures -0.5 <= r.totalPence - r.totalGbp as real <= 0.5 {
      assert r in multiset(Map(raw, CastRow));
    }
  }

  /** Rounded revenue descending, then transactions descending. */
  predicate RevenueSorted(t: seq<TruckRow>) {
    forall i, j :: 0 <= i < j < |t| ==>
      t[i].totalGbp > t[j].totalGbp || (t[i].totalGbp == t[j].totalGbp && t[i].nTransactions >= t[j].nTransactions)
  }

  lemma ByTruckOrder(raw: seq<TruckQueryRow>)
    ensures RevenueSorted(ByTruck(raw))
  {
    ByRevenueIsPreorder();
    SortBySpec(Map(raw, CastRow), ByRevenue());
    var t := ByTruck(raw);
    forall i, j | 0 <= i < j < |t|
      ensures t[i].totalGbp > t[j].totalGbp || (t[i].totalGbp == t[j].totalGbp && t[i].nTransactions >= t[j].nTransactions)
    {
      assert ByRevenue()(t[i], t[j]);
    }
  }

  /** What a highlight shows of a truck. */
  datatype Highlight = Highlight(truckName: string, totalGbp: int, nTransactions: int)

  datatype Highlights = Highlights(
    topByRevenue: Option<Highlight>,
    lowestByRevenue: Option<Highlight>,
    topByTransactions: Option<Highlight>)

  function HighlightOf(r: TruckRow): Highlight {
    Highlight(r.truckName, r.totalGbp, r.nTransactions)
  }

  /** Lines 198-206 and 226-242: the first and last rows of the sorted table, and the first row
      after re-sorting by transactions. */
  function HighlightsOf(t: seq<TruckRow>): Highlights {
    if t == [] then Highlights(None, None, None)
    else Highlights(
      Some(HighlightOf(t[0])),
      Some(HighlightOf(t[|t| - 1])),
      Some(HighlightOf(SortBy(t, ByTransactions())[0])))
  }

  /** On the sorted table, the highlights are all missing exactly when there are no trucks;
      otherwise the top truck by revenue has the largest rounded revenue (and the most
      transactions among equal revenues), the lowest truck the smallest rounded revenue, and
      the top truck by transactions the largest number of transactions; each is a truck of the
      table. */
  lemma HighlightsSpec(raw: seq<TruckQueryRow>)
    ensures var t := ByTruck(raw);
      var h := HighlightsOf(t);
      && (h.topByRevenue.None? <==> t == [])
      && (h.lowestByRevenue.None? <==> t == [])
      && (h.topByTransactions.None? <==> t == [])
      && (t != [] ==>
            && h.topByRevenue.value in Map(t, HighlightOf)
            && h.lowestByRevenue.value in Map(t, HighlightOf)
            && h.topByTransactions.value in Map(t, HighlightOf)
            && (forall r :: r in t ==>
                  && r.totalGbp <= h.topByRevenue.value.totalGbp
                  && (r.totalGbp == h.topByRevenue.value.totalGbp ==> r.nTransactions <= h.topByRevenue.value.nTransactions)
                  && h.lowestByRevenue.value.totalGbp <= r.totalGbp
                  && r.nTransactions <= h.topByTransactions.value.nTransactions))
  {
    var t := ByTruck(raw);
    ByTruckOrder(raw);
    if t != [] {
      TableEnds(t);
      TopByTransactions(t);
      var top := SortBy(t, ByTransactions())[0];
      var k :| 0 <= k < |t| && t[k] == top;
      assert HighlightOf(top) == Map(t, HighlightOf)[k];
      assert HighlightOf(t[0]) == Map(t, HighlightOf)[0];
      assert HighlightOf(t[|t| - 1]) == Map(t, HighlightOf)[|t| - 1];
    }
  }

  /** In a table sorted by revenue, then transactions, both descending, the first row has the
      largest revenue (and the most transactions among equal revenues) and the last the
      smallest revenue. */
  lemma TableEnds(t: seq<TruckRow>)
    requires t != [] && RevenueSorted(t)
    ensures forall r :: r in t ==>
      && r.totalGbp <= t[0].totalGbp
      && (r.totalGbp == t[0].totalGbp ==> r.nTransactions <= t[0].nTransactions)
      && t[|t| - 1].totalGbp <= r.totalGbp
  {
    forall r | r in t
      ensures r.totalGbp <= t[0].totalGbp
      ensures r.totalGbp == t[0].totalGbp ==> r.nTransactions <= t[0].nTransactions
      ensures t[|t| - 1].totalGbp <= r.totalGbp
    {
      var k :| 0 <= k < |t| && t[k] == r;
      if 0 < k {
        assert t[0].totalGbp > t[k].totalGbp || (t[0].totalGbp == t[k].totalGbp && t[0].nTransactions >= t[k].nTransactions);
      }
      if k < |t| - 1 {
        assert t[k].totalGbp >= t[|t| - 1].totalGbp;
      }
    }
  }

  /** The first row after sorting by transactions has the most transactions. */
  lemma TopByTransactions(t: seq<TruckRow>)
    requires t != []
    ensures var top := SortBy(t, ByTransactions())[0];
      top in t && forall r :: r in t ==> r.nTransactions <= top.nTransactions
  {
    var byTx := SortBy(t, ByTransactions());
    ByTransactionsIsPreorder();
    SortBySpec(t, ByTransactions());
    assert byTx[0] in multiset(t);
    forall r | r in t ensures r.nTransactions <= byTx[0].nTransactions {
      assert r in multiset(byTx);
      var j :| 0 <= j < |byTx| && byTx[j] == r;
      if j > 0 {
        assert ByTransactions()(byTx[0], byTx[j]);
      }
    }
  }

  // ---------------------------------------------------------------- Payment counts and shares

  /** A row of the payment-method query: the method label and its transaction count. */
  datatype PaymentQueryRow = PaymentQueryRow(paymentMethod: string, nTransactions: Cell)

  /** The dictionary the comprehension of lines 189-190 builds: a later row overwrites an
      earlier one with the same label. */
  function PaymentCounts(rows: seq<PaymentQueryRow>): map<string, int>
    decreases |rows|
  {
    if rows == [] then map[]
    else
      var last := rows[|rows| - 1];
      PaymentCounts(rows[..|rows| - 1])[last.paymentMethod := CountOfCell(last.nTransactions)]
  }

  /** The row that sets a label's count: the last one carrying that label. */
  predicate LastWithLabel(rows: seq<PaymentQueryRow>, j: int, k: string) {
    0 <= j < |rows| && rows[j].paymentMethod == k
    && forall i :: j < i < |rows| ==> rows[i].paymentMethod != k
  }

  /** The dictionary has exactly the labels of the rows, and each label's count is that of the
      last row carrying it. */
  lemma {:induction false} PaymentCountsSpec(rows: seq<PaymentQueryRow>)
    ensures forall k :: k in PaymentCounts(rows) <==> exists j :: 0 <= j < |rows| && rows[j].paymentMethod == k
    ensures forall k, j :: LastWithLabel(rows, j, k) ==> PaymentCounts(rows)[k] == CountOfCell(rows[j].nTransactions)
    decreases |rows|
  {
    if rows != [] {
      var init := rows[..|rows| - 1];
      var last := rows[|rows| - 1];
      PaymentCountsSpec(init);
      forall k ensures k in PaymentCounts(rows) <==> exists j :: 0 <= j < |rows| && rows[j].paymentMethod == k {
        if k in PaymentCounts(init) {
          var j :| 0 <= j < |init| && init[j].paymentMethod == k;
          assert rows[j] == init[j];
        }
        if k != last.paymentMethod && exists j :: 0 <= j < |rows| && rows[j].paymentMethod == k {
          var j :| 0 <= j < |rows| && rows[j].paymentMethod == k;
          assert j < |init| && init[j] == rows[j];
        }
      }
      forall k, j | LastWithLabel(rows, j, k) ensures PaymentCounts(rows)[k] == CountOfCell(rows[j].nTransactions) {
        if k != last.paymentMethod {
          assert j < |init| && LastWithLabel(init, j, k);
        }
      }
    }
  }

  /** Builds the dictionary row by row, as the comprehension does. */
  method CountPayments(rows: seq<PaymentQueryRow>) returns (counts: map<string, int>)
    ensures counts == PaymentCounts(rows)
  {
    counts := map[];
    for i := 0 to |rows|
      invariant counts == PaymentCounts(rows[..i])
    {
      assert rows[..i + 1][..i] == rows[..i];
      counts := counts[rows[i].paymentMethod := CountOfCell(rows[i].nTransactions)];
    }
    assert rows[..|rows|] == rows;
  }

  datatype PaymentSummary = PaymentSummary(cashN: int, cardN: int, cashShare: real, cardShare: real)

  /** `dict.get(key, 0)`. */
  function CountOr0(counts: map<string, int>, key: string): int {
    if key in counts then counts[key] else 0
  }

  /** Lines 192-196: cash and card counts over `max(n_tx, 1)`. */
  function Shares(counts: map<string, int>, nTx: int): PaymentSummary {
    var denom := if nTx > 1 then nTx else 1;
    var cashN := CountOr0(counts, "cash");
    var cardN := CountOr0(counts, "card");
    PaymentSummary(cashN, cardN, cashN as real / denom as real, cardN as real / denom as real)
  }

  /** The shares never divide by zero: with at least one transaction they are the counts over
      the number of transactions, with none they are the counts themselves. */
  lemma SharesExact(counts: map<string, int>, nTx: int)
    ensures var p := Shares(counts, nTx);
      && (nTx >= 1 ==> p.cashShare * nTx as real == p.cashN as real && p.cardShare * nTx as real == p.cardN as real)
      && (nTx < 1 ==> p.cashShare == p.cashN as real && p.cardShare == p.cardN as real)
  {
    var p := Shares(counts, nTx);
    if nTx >= 1 {
      DivTimes(p.cashN as real, nTx as real);
      DivTimes(p.cardN as real, nTx as real);
    }
  }

  /** Without any payment rows both shares are zero. */
  lemma SharesEmpty(nTx: int)
    ensures Shares(map[], nTx).cashShare == 0.0 && Shares(map[], nTx).cardShare == 0.0
  {
  }

  /** When cash and card together are at most the transactions, both shares lie in [0, 1] and
      add up to at most 1. */
  lemma SharesBounded(counts: map<string, int>, nTx: int)
    requires 0 <= CountOr0(counts, "cash") && 0 <= CountOr0(counts, "card")
    requires CountOr0(counts, "cash") + CountOr0(counts, "card") <= nTx
    ensures var p := Shares(counts, nTx);
      0.0 <= p.cashShare && 0.0 <= p.cardShare && p.cashShare + p.cardShare <= 1.0
  {
    if nTx >= 1 {
      SharesBound(CountOr0(counts, "cash") as real, CountOr0(counts, "card") as real, nTx as real);
    }
  }

  lemma DivTimes(x: real, n: real)
    requires n > 0.0
    ensures (x / n) * n == x
  {
  }

  lemma SharesBound(c: real, k: real, n: real)
    requires 0.0 <= c && 0.0 <= k && c + k <= n && n > 0.0
    ensures 0.0 <= c / n && 0.0 <= k / n && c / n + k / n <= 1.0
  {
    assert c / n + k / n == (c + k) / n;
    var q := (c + k) / n;
    assert q * n == c + k;
    assert (q - 1.0) * n <= 0.0;
  }

  // ---------------------------------------------------------------- The metrics record

  datatype Overall = Overall(totalGbp: int, nTransactions: int, avgSpendGbp: int)

  datatype ReportMetrics = ReportMetrics(
    reportDate: string,
    generatedAt: string,
    overall: Overall,
    byTruck: seq<TruckRow>,
    payment: PaymentSummary,
    highlights: Highlights)

  /** `build_metrics` from line 150 on, given the query results: `nTx`, `totalPence` and
      `avgPence` from the overall query (already coerced), the by-truck rows, the
      payment-method rows, the report day and the clock's `now`. The by-truck table is shaped
      in place, the payment dictionary filled row by row. */
  method BuildMetrics(
    reportDay: Date, now: DateTime, nTx: int, totalPence: real, avgPence: real,
    truckRows: seq<TruckQueryRow>, paymentRows: seq<PaymentQueryRow>)
    returns (m: ReportMetrics)
    ensures m.reportDate == FormatDate(reportDay)
    ensures m.generatedAt == FormatUtc(now)
    ensures m.overall == Overall(RoundHalfEven(totalPence), nTx, RoundHalfEven(avgPence))
    ensures m.byTruck == ByTruck(truckRows)
    ensures m.payment == Shares(PaymentCounts(paymentRows), nTx)
    ensures m.highlights == HighlightsOf(m.byTruck)
  {
    var byTruck := Map(truckRows, CastRow);
    byTruck := SortBy(byTruck, ByRevenue());
    var counts := CountPayments(paymentRows);
    var payment := Shares(counts, nTx);
    var highlights := Highlights(None, None, None);
    if byTruck != [] {
      highlights := Highlights(
        Some(HighlightOf(byTruck[0])),
        Some(HighlightOf(byTruck[|byTruck| - 1])),
        Some(HighlightOf(SortBy(byTruck, ByTransactions())[0])));
    }
    m := ReportMetrics(
      FormatDate(reportDay), FormatUtc(now),
      Overall(RoundHalfEven(totalPence), nTx, RoundHalfEven(avgPence)),
      byTruck, payment, highlights);
  }

  // ---------------------------------------------------------------- HTML rendering

  /** `"".join(parts)`. */
  function Concat(parts: seq<string>): string {
    if parts == [] then "" else parts[0] + Concat(parts[1..])
  }

  function HeaderCell(c: string): string {
    "<th>" + HtmlEscape(c) + "</th>"
  }

  function DataCell(v: string): string {
    "<td>" + HtmlEscape(v) + "</td>"
  }

  /** The renamed columns of the rendered table. */
  const Headers: seq<string> := ["Truck", "Transactions", "Total (GBP)", "Avg customer spend (GBP)"]

  /** What an empty table renders as. */
  const NoTransactions: string := "<p><em>No transactions recorded for this date.</em></p>"

  /** The four cell texts of a truck row: name, grouped count, and the two `£` amounts. */
  function RowTexts(r: TruckRow): seq<string> {
    [r.truckName, FmtInt(r.nTransactions), FmtGbp(r.totalGbp), FmtGbp(r.avgSpendGbp)]
  }

  function RowHtml(r: TruckRow): string {
    "<tr>" + Concat(Map(RowTexts(r), DataCell)) + "</tr>"
  }

  /** The fixed markup around the header cells and the body rows of a non-empty table. */
  const TableOpen: string := "\n    <table>\n      <thead><tr>"
  const HeadToBody: string := "</tr></thead>\n      <tbody>\n        "
  const TableClose: string := "\n      </tbody>\n    </table>\n    "

  function TableShell(headers: string, body: string): string {
    TableOpen + headers + HeadToBody + body + TableClose
  }

  /** `df_to_html_table`: the fixed paragraph for no rows, otherwise a table with the escaped
      headers and one row per truck. */
  function TableHtml(rows: seq<TruckRow>): string {
    if rows == [] then NoTransactions
    else TableShell(Concat(Map(Headers, HeaderCell)), Concat(Map(rows, RowHtml)))
  }

  /** Builds the table as the source does, appending one row of markup per truck. */
  method DfToHtmlTable(rows: seq<TruckRow>) returns (html: string)
    ensures html == TableHtml(rows)
  {
    if |rows| == 0 {
      return NoTransactions;
    }
    var rowsHtml: seq<string> := [];
    for i := 0 to |rows|
      invariant rowsHtml == Map(rows[..i], RowHtml)
    {
      MapPrefixStep(rows, i, RowHtml);
      rowsHtml := rowsHtml + [RowHtml(rows[i])];
    }
    assert rows[..|rows|] == rows;
    html := TableShell(Concat(Map(Headers, HeaderCell)), Concat(rowsHtml));
  }

  /** What follows a highlight's caption: the escaped truck name with its amount and count,
      or `n/a` when there is no such truck. */
  function HighlightText(item: Option<Highlight>): string {
    match item
    case None => "n/a"
    case Some(h) => HtmlEscape(h.truckName) + " (" + FmtGbp(h.totalGbp) + ", " + FmtInt(h.nTransactions) + " tx)"
  }

  /** `highlight_line`: a list item with the escaped caption in bold, then the highlight. */
  function HighlightLine(caption: string, item: Option<Highlight>): string {
    "<li><b>" + HtmlEscape(caption) + ":</b> " + HighlightText(item) + "</li>"
  }

  /** The data-carrying lines of `render_html_report`; the page's style sheet, its fixed text
      and the summary cards are not modelled. */
  datatype ReportHtml = ReportHtml(title: string, heading: string, meta: string, table: string, highlights: seq<string>)

  function RenderReport(m: ReportMetrics): ReportHtml {
    ReportHtml(
      "<title>T3 Daily Report — " + HtmlEscape(m.reportDate) + "</title>",
      "<h1>T3 Daily Performance Report — " + HtmlEscape(m.reportDate) + "</h1>",
      "Generated at " + HtmlEscape(m.generatedAt) + " (UTC)<br/>",
      TableHtml(m.byTruck),
      [HighlightLine("Top truck by revenue", m.highlights.topByRevenue),
       HighlightLine("Lowest truck by revenue", m.highlights.lowestByRevenue),
       HighlightLine("Top truck by transactions", m.highlights.topByTransactions)])
  }

  // ---------------------------------------------------------------- No markup from the data

  /** `s` has no `<`, so it cannot open a tag. */
  predicate NoLt(s: string) {
    forall i :: 0 <= i < |s| ==> s[i] != '<'
  }

  lemma NoLtAppend(a: string, b: string)
    requires NoLt(a) && NoLt(b)
    ensures NoLt(a + b)
  {
    forall i | 0 <= i < |a + b| ensures (a + b)[i] != '<' {
      if i < |a| {
        assert (a + b)[i] == a[i];
      } else {
        assert (a + b)[i] == b[i - |a|];
      }
    }
  }

  /** Grouped digits contain no `<`. */
  lemma GroupedNoLt(n: nat)
    ensures NoLt(Group3(NatToString(n)))
  {
    NatToStringSpec(n);
    Group3Shape(NatToString(n));
  }

  /** The formatted numbers contain no `<`. */
  lemma FormattedNoLt(v: int)
    ensures NoLt(FmtInt(v)) && NoLt(FmtGbp(v))
  {
    var n: nat := if v < 0 then -v else v;
    GroupedNoLt(n);
    NoLtAppend(if v < 0 then "-" else "", Group3(NatToString(n)));
    GroupedNoLt(n / 100);
    assert Pow10(2) == 100 by {
      assert Pow10(1) == 10;
    }
    ZeroPadSpec(n % 100, 2);
    NoLtAppend(Group3(NatToString(n / 100)), ".");
    NoLtAppend(Group3(NatToString(n / 100)) + ".", ZeroPad(n % 100, 2));
    NoLtAppend(if v < 0 then "£-" else "£", PoundsAndPence(n));
  }

  lemma MulSucc(k: nat, n: nat)
    ensures k * (n + 1) == k * n + k
  {
  }

  lemma {:induction false} CountConcat(parts: seq<string>, c: char, k: nat)
    requires forall i :: 0 <= i < |parts| ==> CountChar(parts[i], c) == k
    ensures CountChar(Concat(parts), c) == k * |parts|
  {
    if parts != [] {
      CountConcat(parts[1..], c, k);
      CountCharAppend(parts[0], Concat(parts[1..]), c);
      MulSucc(k, |parts[1..]|);
    }
  }

  /** A data or header cell has exactly its own two tags, and its text decodes to the value. */
  lemma CellSpec(v: string)
    ensures CountChar(DataCell(v), '<') == 2 && CountChar(HeaderCell(v), '<') == 2
    ensures var e := DataCell(v)[4..|DataCell(v)| - 5]; HtmlUnescape(e) == v && NoLt(e)
  {
    HtmlEscapeNoMarkup(v);
    HtmlEscapeRoundTrip(v);
    var e := HtmlEscape(v);
    CountCharAppend("<td>", e, '<');
    CountCharAppend("<td>" + e, "</td>", '<');
    CountCharAppend("<th>", e, '<');
    CountCharAppend("<th>" + e, "</th>", '<');
    assert CountChar("<td>", '<') == 1 && CountChar("</td>", '<') == 1;
    assert CountChar("<th>", '<') == 1 && CountChar("</th>", '<') == 1;
    assert DataCell(v)[4..|DataCell(v)| - 5] == e;
  }

  /** Every table row has exactly ten tags: its own two and two per cell. */
  lemma RowTags(r: TruckRow)
    ensures CountChar(RowHtml(r), '<') == 10
  {
    var cells := Map(RowTexts(r), DataCell);
    forall i | 0 <= i < |cells| ensures CountChar(cells[i], '<') == 2 {
      CellSpec(RowTexts(r)[i]);
    }
    CountConcat(cells, '<', 2);
    CountCharAppend("<tr>", Concat(cells), '<');
    CountCharAppend("<tr>" + Concat(cells), "</tr>", '<');
    assert CountChar("<tr>", '<') == 1 && CountChar("</tr>", '<') == 1;
  }

  /** Filling the holes of a template: the tag count changes only by the holes' own counts. */
  lemma Holes(p: string, x1: string, m: string, x2: string, q: string, y1: string, y2: string, c: char)
    ensures CountChar(p + x1 + m + x2 + q, c) + CountChar(y1, c) + CountChar(y2, c)
         == CountChar(p + y1 + m + y2 + q, c) + CountChar(x1, c) + CountChar(x2, c)
  {
    CountCharAppend(p, x1, c);
    CountCharAppend(p + x1, m, c);
    CountCharAppend(p + x1 + m, x2, c);
    CountCharAppend(p + x1 + m + x2, q, c);
    CountCharAppend(p, y1, c);
    CountCharAppend(p + y1, m, c);
    CountCharAppend(p + y1 + m, y2, c);
    CountCharAppend(p + y1 + m + y2, q, c);
  }

  lemma {:induction false} ConcatAppend(a: seq<string>, b: seq<string>)
    ensures Concat(a + b) == Concat(a) + Concat(b)
  {
    if a == [] {
      assert a + b == b;
    } else {
      assert (a + b)[1..] == a[1..] + b;
      ConcatAppend(a[1..], b);
    }
  }

  /** Changing the body of a table shell changes its tag count by the bodies' own counts. */
  lemma ShellTags(hs: string, b1: string, b2: string)
    ensures CountChar(TableShell(hs, b1), '<') + CountChar(b2, '<') == CountChar(TableShell(hs, b2), '<') + CountChar(b1, '<')
  {
    Holes(TableOpen, hs, HeadToBody, b1, TableClose, hs, b2, '<');
  }

  /** A table never reads as the empty-table paragraph: it opens with a line break, not a tag. */
  lemma ShellNotParagraph(hs: string, body: string)
    ensures TableShell(hs, body) != NoTransactions
  {
    assert TableShell(hs, body)[0] == '\n';
  }

  /** The markup of the rows: ten tags per truck. */
  lemma BodyTags(rows: seq<TruckRow>)
    ensures CountChar(Concat(Map(rows, RowHtml)), '<') == 10 * |rows|
  {
    var rs := Map(rows, RowHtml);
    forall i | 0 <= i < |rs| ensures CountChar(rs[i], '<') == 10 {
      RowTags(rows[i]);
    }
    CountConcat(rs, '<', 10);
  }

  /** No `<` from the data reaches the table: two tables with the same number of trucks carry
      the same number of tags, and only the empty one is the fixed paragraph. */
  lemma TableTags(rows1: seq<TruckRow>, rows2: seq<TruckRow>)
    requires |rows1| == |rows2|
    ensures CountChar(TableHtml(rows1), '<') == CountChar(TableHtml(rows2), '<')
    ensures TableHtml(rows1) == NoTransactions <==> rows1 == []
  {
    if rows1 != [] {
      var hs := Concat(Map(Headers, HeaderCell));
      BodyTags(rows1);
      BodyTags(rows2);
      ShellTags(hs, Concat(Map(rows1, RowHtml)), Concat(Map(rows2, RowHtml)));
      ShellNotParagraph(hs, Concat(Map(rows1, RowHtml)));
    }
  }

  /** Each further truck adds exactly the ten tags of its own row to a non-empty table. */
  lemma TableGrowth(rows: seq<TruckRow>, r: TruckRow)
    requires rows != []
    ensures CountChar(TableHtml(rows + [r]), '<') == CountChar(TableHtml(rows), '<') + 10
  {
    var hs := Concat(Map(Headers, HeaderCell));
    BodyTags(rows);
    BodyTags(rows + [r]);
    ShellTags(hs, Concat(Map(rows, RowHtml)), Concat(Map(rows + [r], RowHtml)));
  }

  /** The highlight after the caption never holds a `<`. */
  lemma HighlightTextNoLt(item: Option<Highlight>)
    ensures NoLt(HighlightText(item))
  {
    match item
    case None =>
    case Some(h) =>
      HtmlEscapeNoMarkup(h.truckName);
      FormattedNoLt(h.totalGbp);
      FormattedNoLt(h.nTransactions);
      var n, g, k := HtmlEscape(h.truckName), FmtGbp(h.totalGbp), FmtInt(h.nTransactions);
      NoLtAppend(n, " (");
      NoLtAppend(n + " (", g);
      NoLtAppend(n + " (" + g, ", ");
      NoLtAppend(n + " (" + g + ", ", k);
      NoLtAppend(n + " (" + g + ", " + k, " tx)");
  }

  /** No caption and no truck can add or remove a tag of a highlight line. */
  lemma HighlightLineTags(caption1: string, item1: Option<Highlight>, caption2: string, item2: Option<Highlight>)
    ensures CountChar(HighlightLine(caption1, item1), '<') == CountChar(HighlightLine(caption2, item2), '<')
  {
    HtmlEscapeNoMarkup(caption1);
    HtmlEscapeNoMarkup(caption2);
    HighlightTextNoLt(item1);
    HighlightTextNoLt(item2);
    CountCharAbsent(HighlightText(item1), '<');
    CountCharAbsent(HighlightText(item2), '<');
    Holes("<li><b>", HtmlEscape(caption1), ":</b> ", HighlightText(item1), "</li>",
      HtmlEscape(caption2), HighlightText(item2), '<');
  }

  /** A value escaped into fixed text adds no `<` of its own, whatever the value. */
  lemma EscapedLine(p: string, q: string, v1: string, v2: string)
    ensures CountChar(p + HtmlEscape(v1) + q, '<') == CountChar(p + HtmlEscape(v2) + q, '<')
  {
    HtmlEscapeNoMarkup(v1);
    HtmlEscapeNoMarkup(v2);
    CountCharAppend(p, HtmlEscape(v1), '<');
    CountCharAppend(p + HtmlEscape(v1), q, '<');
    CountCharAppend(p, HtmlEscape(v2), '<');
    CountCharAppend(p + HtmlEscape(v2), q, '<');
  }

  /** The report's title, heading and timestamp line carry the same markup for any report date
      and generation time, because both enter only escaped. */
  lemma RenderHeadTags(m1: ReportMetrics, m2: ReportMetrics)
    ensures var r1, r2 := RenderReport(m1), RenderReport(m2);
      && CountChar(r1.title, '<') == CountChar(r2.title, '<')
      && CountChar(r1.heading, '<') == CountChar(r2.heading, '<')
      && CountChar(r1.meta, '<') == CountChar(r2.meta, '<')
  {
    EscapedLine("<title>T3 Daily Report — ", "</title>", m1.reportDate, m2.reportDate);
    EscapedLine("<h1>T3 Daily Performance Report — ", "</h1>", m1.reportDate, m2.reportDate);
    EscapedLine("Generated at ", " (UTC)<br/>", m1.generatedAt, m2.generatedAt);
  }
}
