/** The transaction cleaner and the two dimension-table builders of the ETL pipeline
    (`pipeline/transform.py`). */
module Transform {
  import opened Wrappers
  import opened Seqs
  import opened Text
  import opened Calendar
  import opened Cells

  // ---------------------------------------------------------------- Frames

  /** Which columns the extracted frame has. */
  datatype Columns = Columns(
    total: bool, at: bool, transactionId: bool, truckName: bool, paymentMethod: bool,
    truckId: bool, paymentMethodId: bool, fsaRating: bool, hasCardReader: bool, truckDescription: bool)

  /** One extracted transaction joined with its truck and payment method. Text columns hold text
      or nothing; the others may hold anything a database driver returns. A column the frame
      does not have is ignored whatever its field holds. */
  datatype RawRow = RawRow(
    transactionId: Cell, at: Cell, truckName: Option<string>, paymentMethod: Option<string>,
    total: Cell, truckId: Cell, paymentMethodId: Cell, fsaRating: Cell, hasCardReader: Cell,
    truckDescription: Option<string>)

  datatype Frame = Frame(columns: Columns, rows: seq<RawRow>)

  /** A cleaned transaction, typed as the cleaner leaves it (`Int64`, `float64`, `boolean`,
      `string`, `datetime64`); a column the frame does not have reads as `None`. */
  datatype CleanRow = CleanRow(
    transactionId: Option<int>, at: DateTime, truckName: Option<string>, paymentMethod: Option<string>,
    total: real, truckId: Option<int>, paymentMethodId: Option<int>, fsaRating: Option<int>,
    hasCardReader: Option<bool>, truckDescription: Option<string>)

  datatype CleanFrame = CleanFrame(columns: Columns, rows: seq<CleanRow>)

  /** `KeyError` for a required column, `TypeError` for a fractional value cast to `Int64`. */
  datatype CleanError = MissingColumn(name: string) | NonIntegralColumn(name: string)

  // ---------------------------------------------------------------- Text columns

  datatype TextColumn = PaymentMethodCol | TruckNameCol | TruckDescriptionCol

  /** The text columns, in the order the cleaner trims them. */
  const TextColumns: seq<TextColumn> := [PaymentMethodCol, TruckNameCol, TruckDescriptionCol]

  predicate HasText(cols: Columns, c: TextColumn) {
    match c
    case PaymentMethodCol => cols.paymentMethod
    case TruckNameCol => cols.truckName
    case TruckDescriptionCol => cols.truckDescription
  }

  function StripOpt(o: Option<string>): Option<string> {
    match o
    case Some(s) => Some(Strip(s))
    case None => None
  }

  function LowerOpt(o: Option<string>): Option<string> {
    match o
    case Some(s) => Some(Lower(s))
    case None => None
  }

  /** `df[c] = df[c].astype("string").str.strip()` on one row. */
  function StripColumn(c: TextColumn, r: RawRow): RawRow {
    match c
    case PaymentMethodCol => r.(paymentMethod := StripOpt(r.paymentMethod))
    case TruckNameCol => r.(truckName := StripOpt(r.truckName))
    case TruckDescriptionCol => r.(truckDescription := StripOpt(r.truckDescription))
  }

  function StripColumnFn(c: TextColumn): RawRow -> RawRow {
    r => StripColumn(c, r)
  }

  /** The row after the first `i` passes of the text-trimming loop. */
  function StripUpTo(cols: Columns, i: nat, r: RawRow): (s: RawRow)
    requires i <= |TextColumns|
    ensures s == r.(truckName := s.truckName, paymentMethod := s.paymentMethod, truckDescription := s.truckDescription)
    ensures s.paymentMethod == if i >= 1 && cols.paymentMethod then StripOpt(r.paymentMethod) else r.paymentMethod
    ensures s.truckName == if i >= 2 && cols.truckName then StripOpt(r.truckName) else r.truckName
    ensures s.truckDescription == if i >= 3 && cols.truckDescription then StripOpt(r.truckDescription) else r.truckDescription
  {
    if i == 0 then r
    else
      var prev := StripUpTo(cols, i - 1, r);
      if HasText(cols, TextColumns[i - 1]) then StripColumn(TextColumns[i - 1], prev) else prev
  }

  function StripUpToFn(cols: Columns, i: nat): RawRow -> RawRow
    requires i <= |TextColumns|
  {
    r => StripUpTo(cols, i, r)
  }

  // ---------------------------------------------------------------- Per-row rewrites and filters

  /** The `total` handling: trimmed text equal to `VOID` in any letter case is missing, the rest
      goes through `pd.to_numeric`. */
  function TotalCell(c: Cell): Cell {
    match c
    case Str(s) => if Upper(Strip(s)) == "VOID" then Null else ToNumeric(Str(Strip(s)))
    case _ => ToNumeric(c)
  }

  function NormaliseTotal(r: RawRow): RawRow {
    r.(total := TotalCell(r.total))
  }

  predicate TotalPositive(r: RawRow) {
    r.total.Num? && r.total.x > 0.0
  }

  function ParseAt(r: RawRow): RawRow {
    r.(at := ToDateTime(r.at))
  }

  predicate HasStamp(r: RawRow) {
    r.at.Stamp?
  }

  function NumericCardReader(r: RawRow): RawRow {
    r.(hasCardReader := ToNumeric(r.hasCardReader))
  }

  /** `isin([0, 1])`. */
  predicate CardReaderIsFlag(r: RawRow) {
    r.hasCardReader == Num(0.0) || r.hasCardReader == Num(1.0)
  }

  function NumericRating(r: RawRow): RawRow {
    r.(fsaRating := ToNumeric(r.fsaRating))
  }

  /** `between(0, 5, inclusive="both")`; a missing rating is not between. */
  predicate RatingInRange(r: RawRow) {
    r.fsaRating.Num? && 0.0 <= r.fsaRating.x <= 5.0
  }

  function LowerPaymentMethod(r: RawRow): RawRow {
    r.(paymentMethod := LowerOpt(r.paymentMethod))
  }

  /** `isin(["cash", "card"])`. */
  predicate PaymentMethodKnown(r: RawRow) {
    r.paymentMethod == Some("cash") || r.paymentMethod == Some("card")
  }

  /** The de-duplication key: the raw `transaction_id` (missing values count as equal). */
  function TransactionKey(r: RawRow): Cell {
    r.transactionId
  }

  // ---------------------------------------------------------------- Stages

  /** The row after stage `j` of the rewrites: 1 trims text and normalises `total`, 2 parses
      `at`, 3 to 5 rewrite card reader, rating and payment method when those columns exist. */
  function PrepareTo(cols: Columns, j: nat, r: RawRow): RawRow
    requires 1 <= j <= 5
  {
    var s1 := NormaliseTotal(StripUpTo(cols, |TextColumns|, r));
    var s2 := if j >= 2 then ParseAt(s1) else s1;
    var s3 := if j >= 3 && cols.hasCardReader then NumericCardReader(s2) else s2;
    var s4 := if j >= 4 && cols.fsaRating then NumericRating(s3) else s3;
    if j >= 5 && cols.paymentMethod then LowerPaymentMethod(s4) else s4
  }

  /** The row passes the filters of stages 1 to `j`, each judged on the rewritten row. */
  predicate KeptTo(cols: Columns, j: nat, r: RawRow)
    requires 1 <= j <= 5
  {
    && TotalPositive(PrepareTo(cols, 1, r))
    && (j >= 2 ==> HasStamp(PrepareTo(cols, 2, r)))
    && (j >= 3 && cols.hasCardReader ==> CardReaderIsFlag(PrepareTo(cols, 3, r)))
    && (j >= 4 && cols.fsaRating ==> RatingInRange(PrepareTo(cols, 4, r)))
    && (j >= 5 && cols.paymentMethod ==> PaymentMethodKnown(PrepareTo(cols, 5, r)))
  }

  function PrepareToFn(cols: Columns, j: nat): RawRow -> RawRow
    requires 1 <= j <= 5
  {
    r => PrepareTo(cols, j, r)
  }

  function KeptToFn(cols: Columns, j: nat): RawRow -> bool
    requires 1 <= j <= 5
  {
    r => KeptTo(cols, j, r)
  }

  /** Every column rewrite the cleaner makes before the integer casts. */
  function Prepare(cols: Columns, r: RawRow): RawRow {
    PrepareTo(cols, 5, r)
  }

  /** The row survives every row filter of the cleaner. */
  predicate Kept(cols: Columns, r: RawRow) {
    KeptTo(cols, 5, r)
  }

  /** The input rows the cleaner keeps, in input order: those passing every filter, and of
      those only the first with each transaction id when the frame has that column. */
  function Survivors(f: Frame): seq<RawRow> {
    var passed := Filter(f.rows, KeptToFn(f.columns, 5));
    if f.columns.transactionId then Dedup(passed, TransactionKey) else passed
  }

  // ---------------------------------------------------------------- Integer casts

  datatype IntColumn = TruckIdCol | PaymentMethodIdCol | TransactionIdCol | RatingCol | CardReaderCol

  /** The integer columns, in the order the cleaner casts them. */
  const IntColumns: seq<IntColumn> := [TruckIdCol, PaymentMethodIdCol, TransactionIdCol, RatingCol, CardReaderCol]

  function IntColumnName(c: IntColumn): string {
    match c
    case TruckIdCol => "truck_id"
    case PaymentMethodIdCol => "payment_method_id"
    case TransactionIdCol => "transaction_id"
    case RatingCol => "fsa_rating"
    case CardReaderCol => "has_card_reader"
  }

  predicate HasInt(cols: Columns, c: IntColumn) {
    match c
    case TruckIdCol => cols.truckId
    case PaymentMethodIdCol => cols.paymentMethodId
    case TransactionIdCol => cols.transactionId
    case RatingCol => cols.fsaRating
    case CardReaderCol => cols.hasCardReader
  }

  function IntField(c: IntColumn, r: RawRow): Cell {
    match c
    case TruckIdCol => r.truckId
    case PaymentMethodIdCol => r.paymentMethodId
    case TransactionIdCol => r.transactionId
    case RatingCol => r.fsaRating
    case CardReaderCol => r.hasCardReader
  }

  /** `pd.to_numeric(df[c], errors="coerce")` on one row. */
  function NumericColumn(c: IntColumn, r: RawRow): (s: RawRow)
    ensures IntField(c, s) == ToNumeric(IntField(c, r))
    ensures forall d :: d != c ==> IntField(d, s) == IntField(d, r)
  {
    match c
    case TruckIdCol => r.(truckId := ToNumeric(r.truckId))
    case PaymentMethodIdCol => r.(paymentMethodId := ToNumeric(r.paymentMethodId))
    case TransactionIdCol => r.(transactionId := ToNumeric(r.transactionId))
    case RatingCol => r.(fsaRating := ToNumeric(r.fsaRating))
    case CardReaderCol => r.(hasCardReader := ToNumeric(r.hasCardReader))
  }

  function NumericColumnFn(c: IntColumn): RawRow -> RawRow {
    r => NumericColumn(c, r)
  }

  /** The row after the first `k` passes of the cast loop. */
  function NumericUpTo(cols: Columns, k: nat, r: RawRow): (s: RawRow)
    requires k <= |IntColumns|
  {
    if k == 0 then r
    else
      var prev := NumericUpTo(cols, k - 1, r);
      if HasInt(cols, IntColumns[k - 1]) then NumericColumn(IntColumns[k - 1], prev) else prev
  }

  function NumericUpToFn(cols: Columns, k: nat): RawRow -> RawRow
    requires k <= |IntColumns|
  {
    r => NumericUpTo(cols, k, r)
  }

  /** The cast of column `c` fails on some row of `ws`. */
  predicate CastFails(cols: Columns, ws: seq<RawRow>, c: IntColumn) {
    HasInt(cols, c) && exists w :: w in ws && NonIntegral(ToNumeric(IntField(c, w)))
  }

  /** The first integer column, from the `k`-th on, whose cast fails. */
  function FirstFailingCast(cols: Columns, ws: seq<RawRow>, k: nat): Option<IntColumn>
    requires k <= |IntColumns|
    decreases |IntColumns| - k
  {
    if k == |IntColumns| then None
    else if CastFails(cols, ws, IntColumns[k]) then Some(IntColumns[k])
    else FirstFailingCast(cols, ws, k + 1)
  }

  /** A nullable-integer column after `to_numeric(...).astype("Int64")`. */
  function IntColumnValue(present: bool, c: Cell): Option<int> {
    if present then IntValue(ToNumeric(c)) else None
  }

  function TextColumnValue(present: bool, o: Option<string>): Option<string> {
    if present then o else None
  }

  /** The typed row: `Int64` ids and rating, `float64` total, `boolean` card reader. The
      timestamp and total defaults are never used for a kept row. */
  function Finish(cols: Columns, w: RawRow): CleanRow {
    CleanRow(
      transactionId := IntColumnValue(cols.transactionId, w.transactionId),
      at := (match w.at case Stamp(t) => t case _ => DateTime(Date(1970, 1, 1), 0, 0, 0)),
      truckName := TextColumnValue(cols.truckName, w.truckName),
      paymentMethod := TextColumnValue(cols.paymentMethod, w.paymentMethod),
      total := (match w.total case Num(x) => x case _ => 0.0),
      truckId := IntColumnValue(cols.truckId, w.truckId),
      paymentMethodId := IntColumnValue(cols.paymentMethodId, w.paymentMethodId),
      fsaRating := IntColumnValue(cols.fsaRating, w.fsaRating),
      hasCardReader := (if cols.hasCardReader then
                          (match ToNumeric(w.hasCardReader) case Num(x) => Some(x == 1.0) case _ => None)
                        else None),
      truckDescription := TextColumnValue(cols.truckDescription, w.truckDescription))
  }

  function FinishFn(cols: Columns): RawRow -> CleanRow {
    w => Finish(cols, w)
  }

  /** The casts to `Int64` and the typing of the prepared rows: the first column whose cast
      fails on some row is reported, otherwise every row is typed. */
  function CastColumns(cols: Columns, ws: seq<RawRow>): Result<seq<CleanRow>, CleanError> {
    match FirstFailingCast(cols, ws, 0)
    case Some(c) => Err(NonIntegralColumn(IntColumnName(c)))
    case None => Ok(Map(ws, FinishFn(cols)))
  }

  /** What `clean_transactions` returns for `f`: an error for a missing `total` or `at` column or
      a failing cast, otherwise the survivors rewritten and typed, in input order. */
  function Clean(f: Frame): Result<CleanFrame, CleanError> {
    if !f.columns.total then Err(MissingColumn("total"))
    else if !f.columns.at then Err(MissingColumn("at"))
    else
      match CastColumns(f.columns, Map(Survivors(f), PrepareToFn(f.columns, 5)))
      case Err(e) => Err(e)
      case Ok(rows) => Ok(CleanFrame(f.columns, rows))
  }

  // ---------------------------------------------------------------- The cleaner

  /** The rows after stage `j`: those passing the filters so far, rewritten so far. */
  function Staged(raw: seq<RawRow>, cols: Columns, j: nat): seq<RawRow>
    requires 1 <= j <= 5
  {
    Map(Filter(raw, KeptToFn(cols, j)), PrepareToFn(cols, j))
  }

  lemma MapStage(s: seq<RawRow>, keep: RawRow -> bool, prep: RawRow -> RawRow, g: RawRow -> RawRow, prep2: RawRow -> RawRow)
    requires forall x :: prep2(x) == g(prep(x))
    ensures Map(Map(Filter(s, keep), prep), g) == Map(Filter(s, keep), prep2)
  {
    MapMap(Filter(s, keep), prep, g, prep2);
  }

  lemma FilterStage(s: seq<RawRow>, keep: RawRow -> bool, prep: RawRow -> RawRow, q: RawRow -> bool, keep2: RawRow -> bool)
    requires forall x :: keep2(x) == (keep(x) && q(prep(x)))
    ensures Filter(Map(Filter(s, keep), prep), q) == Map(Filter(s, keep2), prep)
  {
    var qp := x => q(prep(x));
    FilterMap(Filter(s, keep), prep, q, qp);
    FilterFilter(s, keep, qp, keep2);
  }

  /** Stage 1: after trimming, `total` is normalised and only positive totals stay. */
  lemma StageTotal(raw: seq<RawRow>, cols: Columns)
    ensures Filter(Map(Map(raw, StripUpToFn(cols, |TextColumns|)), NormaliseTotal), TotalPositive) == Staged(raw, cols, 1)
  {
    MapMap(raw, StripUpToFn(cols, |TextColumns|), NormaliseTotal, PrepareToFn(cols, 1));
    FilterMap(raw, PrepareToFn(cols, 1), TotalPositive, KeptToFn(cols, 1));
  }

  /** Stage 2: `at` is parsed and only rows with a timestamp stay. */
  lemma StageAt(raw: seq<RawRow>, cols: Columns)
    ensures Filter(Map(Staged(raw, cols, 1), ParseAt), HasStamp) == Staged(raw, cols, 2)
  {
    MapStage(raw, KeptToFn(cols, 1), PrepareToFn(cols, 1), ParseAt, PrepareToFn(cols, 2));
    FilterStage(raw, KeptToFn(cols, 1), PrepareToFn(cols, 2), HasStamp, KeptToFn(cols, 2));
  }

  /** Stage 3: the card-reader flag is read as a number and only 0 and 1 stay. */
  lemma StageCardReader(raw: seq<RawRow>, cols: Columns)
    ensures Staged(raw, cols, 3) ==
      if cols.hasCardReader then Filter(Map(Staged(raw, cols, 2), NumericCardReader), CardReaderIsFlag)
      else Staged(raw, cols, 2)
  {
    if cols.hasCardReader {
      MapStage(raw, KeptToFn(cols, 2), PrepareToFn(cols, 2), NumericCardReader, PrepareToFn(cols, 3));
      FilterStage(raw, KeptToFn(cols, 2), PrepareToFn(cols, 3), CardReaderIsFlag, KeptToFn(cols, 3));
    } else {
      FilterCongruent(raw, KeptToFn(cols, 2), KeptToFn(cols, 3));
      MapCongruent(Filter(raw, KeptToFn(cols, 3)), PrepareToFn(cols, 2), PrepareToFn(cols, 3));
    }
  }

  /** Stage 4: the rating is read as a number and only ratings in 0..5 stay. */
  lemma StageRating(raw: seq<RawRow>, cols: Columns)
    ensures Staged(raw, cols, 4) ==
      if cols.fsaRating then Filter(Map(Staged(raw, cols, 3), NumericRating), RatingInRange)
      else Staged(raw, cols, 3)
  {
    if cols.fsaRating {
      MapStage(raw, KeptToFn(cols, 3), PrepareToFn(cols, 3), NumericRating, PrepareToFn(cols, 4));
      FilterStage(raw, KeptToFn(cols, 3), PrepareToFn(cols, 4), RatingInRange, KeptToFn(cols, 4));
    } else {
      FilterCongruent(raw, KeptToFn(cols, 3), KeptToFn(cols, 4));
      MapCongruent(Filter(raw, KeptToFn(cols, 4)), PrepareToFn(cols, 3), PrepareToFn(cols, 4));
    }
  }

  /** Stage 5: the payment method is lower-cased and only cash and card stay. */
  lemma StagePaymentMethod(raw: seq<RawRow>, cols: Columns)
    ensures Staged(raw, cols, 5) ==
      if cols.paymentMethod then Filter(Map(Staged(raw, cols, 4), LowerPaymentMethod), PaymentMethodKnown)
      else Staged(raw, cols, 4)
  {
    if cols.paymentMethod {
      MapStage(raw, KeptToFn(cols, 4), PrepareToFn(cols, 4), LowerPaymentMethod, PrepareToFn(cols, 5));
      FilterStage(raw, KeptToFn(cols, 4), PrepareToFn(cols, 5), PaymentMethodKnown, KeptToFn(cols, 5));
    } else {
      FilterCongruent(raw, KeptToFn(cols, 4), KeptToFn(cols, 5));
      MapCongruent(Filter(raw, KeptToFn(cols, 5)), PrepareToFn(cols, 4), PrepareToFn(cols, 5));
    }
  }

  /** The text-trimming loop of `clean_transactions`. */
  method StripTextColumns(cols: Columns, raw: seq<RawRow>) returns (rows: seq<RawRow>)
    ensures rows == Map(raw, StripUpToFn(cols, |TextColumns|))
  {
    rows := raw;
    for i := 0 to |TextColumns|
      invariant rows == Map(raw, StripUpToFn(cols, i))
    {
      if HasText(cols, TextColumns[i]) {
        rows := Map(rows, StripColumnFn(TextColumns[i]));
        MapMap(raw, StripUpToFn(cols, i), StripColumnFn(TextColumns[i]), StripUpToFn(cols, i + 1));
      } else {
        MapCongruent(raw, StripUpToFn(cols, i), StripUpToFn(cols, i + 1));
      }
    }
  }

  /** The row rewrites and filters of `clean_transactions`, in source order, up to the casts:
      the result is the filtered rows rewritten, de-duplicated when the frame has ids. */
  method CleanRows(f: Frame) returns (rows: seq<RawRow>)
    ensures rows == Map(Survivors(f), PrepareToFn(f.columns, 5))
  {
    var cols := f.columns;
    rows := StripTextColumns(cols, f.rows);
    rows := Map(rows, NormaliseTotal);
    rows := Filter(rows, TotalPositive);
    StageTotal(f.rows, cols);
    rows := Map(rows, ParseAt);
    rows := Filter(rows, HasStamp);
    StageAt(f.rows, cols);
    if cols.hasCardReader {
      rows := Map(rows, NumericCardReader);
      rows := Filter(rows, CardReaderIsFlag);
    }
    StageCardReader(f.rows, cols);
    if cols.fsaRating {
      rows := Map(rows, NumericRating);
      rows := Filter(rows, RatingInRange);
    }
    StageRating(f.rows, cols);
    if cols.paymentMethod {
      rows := Map(rows, LowerPaymentMethod);
      rows := Filter(rows, PaymentMethodKnown);
    }
    StagePaymentMethod(f.rows, cols);
    if cols.transactionId {
      rows := Dedup(rows, TransactionKey);
      DedupMap(Filter(f.rows, KeptToFn(cols, 5)), PrepareToFn(cols, 5), TransactionKey, TransactionKey, {});
    }
  }

  lemma {:induction false} NumericUpToOther(cols: Columns, k: nat, w: RawRow, c: IntColumn)
    requires k <= |IntColumns|
    requires c !in IntColumns[..k]
    ensures IntField(c, NumericUpTo(cols, k, w)) == IntField(c, w)
  {
    if k > 0 {
      assert IntColumns[..k - 1] <= IntColumns[..k];
      NumericUpToOther(cols, k - 1, w, c);
    }
  }

  /** After pass `k` of the cast loop, column `IntColumns[k]` holds a fractional number on some
      row exactly when its cast fails on the prepared rows: earlier passes touched other columns. */
  lemma CastStep(cols: Columns, ws: seq<RawRow>, k: nat, rows: seq<RawRow>)
    requires k < |IntColumns| && HasInt(cols, IntColumns[k])
    requires rows == Map(ws, NumericUpToFn(cols, k + 1))
    ensures (exists i :: 0 <= i < |rows| && NonIntegral(IntField(IntColumns[k], rows[i])))
            <==> CastFails(cols, ws, IntColumns[k])
  {
    var c := IntColumns[k];
    assert c !in IntColumns[..k];
    forall i | 0 <= i < |rows| ensures IntField(c, rows[i]) == ToNumeric(IntField(c, ws[i])) {
      NumericUpToOther(cols, k, ws[i], c);
    }
    if CastFails(cols, ws, c) {
      var w :| w in ws && NonIntegral(ToNumeric(IntField(c, w)));
      var i :| 0 <= i < |ws| && ws[i] == w;
      assert NonIntegral(IntField(c, rows[i]));
    }
  }

  /** One pass of the cast loop over an integer column the frame has: the rows move one stage
      on, a fractional value shows up exactly when that column's cast fails, and the first
      failing cast from here on is this column or lies further on. */
  lemma CastPass(cols: Columns, ws: seq<RawRow>, k: nat)
    requires k < |IntColumns| && HasInt(cols, IntColumns[k])
    ensures var rows := Map(Map(ws, NumericUpToFn(cols, k)), NumericColumnFn(IntColumns[k]));
      && rows == Map(ws, NumericUpToFn(cols, k + 1))
      && ((exists i :: 0 <= i < |rows| && NonIntegral(IntField(IntColumns[k], rows[i])))
          <==> CastFails(cols, ws, IntColumns[k]))
    ensures FirstFailingCast(cols, ws, k) ==
      if CastFails(cols, ws, IntColumns[k]) then Some(IntColumns[k]) else FirstFailingCast(cols, ws, k + 1)
  {
    MapMap(ws, NumericUpToFn(cols, k), NumericColumnFn(IntColumns[k]), NumericUpToFn(cols, k + 1));
    CastStep(cols, ws, k, Map(ws, NumericUpToFn(cols, k + 1)));
  }

  /** The cast loop of `clean_transactions`: each integer column the frame has goes through
      `to_numeric`, and the first one holding a fractional number stops the cleaner. */
  method CastIntColumns(cols: Columns, ws: seq<RawRow>) returns (r: Result<seq<CleanRow>, CleanError>)
    ensures r == CastColumns(cols, ws)
  {
    var rows := ws;
    for k := 0 to |IntColumns|
      invariant rows == Map(ws, NumericUpToFn(cols, k))
      invariant FirstFailingCast(cols, ws, 0) == FirstFailingCast(cols, ws, k)
    {
      var c := IntColumns[k];
      if HasInt(cols, c) {
        rows := Map(rows, NumericColumnFn(c));
        CastPass(cols, ws, k);
        if exists i :: 0 <= i < |rows| && NonIntegral(IntField(c, rows[i])) {
          return Err(NonIntegralColumn(IntColumnName(c)));
        }
      } else {
        MapCongruent(ws, NumericUpToFn(cols, k), NumericUpToFn(cols, k + 1));
      }
    }
    CastsThenFinish(cols, ws);
    r := Ok(Map(rows, FinishFn(cols)));
  }

  /** Typing the cast rows gives the same rows as typing the prepared ones. */
  lemma CastsThenFinish(cols: Columns, ws: seq<RawRow>)
    ensures Map(Map(ws, NumericUpToFn(cols, |IntColumns|)), FinishFn(cols)) == Map(ws, FinishFn(cols))
  {
    forall w ensures Finish(cols, NumericUpTo(cols, |IntColumns|, w)) == Finish(cols, w) {
      FinishIgnoresCasts(cols, |IntColumns|, w);
    }
    MapMap(ws, NumericUpToFn(cols, |IntColumns|), FinishFn(cols), FinishFn(cols));
  }

  /** `clean_transactions`: trims, filters, de-duplicates, casts and types the frame. The
      caller's frame is a value here, so the copy the source makes is implicit. */
  method CleanTransactions(f: Frame) returns (r: Result<CleanFrame, CleanError>)
    ensures r == Clean(f)
  {
    if !f.columns.total {
      return Err(MissingColumn("total"));
    }
    if !f.columns.at {
      return Err(MissingColumn("at"));
    }
    var ws := CleanRows(f);
    var cast := CastIntColumns(f.columns, ws);
    match cast
    case Err(e) => r := Err(e);
    case Ok(rows) => r := Ok(CleanFrame(f.columns, rows));
  }

  /** The typed row does not depend on whether `to_numeric` already ran on an integer column. */
  lemma {:induction false} FinishIgnoresCasts(cols: Columns, k: nat, w: RawRow)
    requires k <= |IntColumns|
    ensures Finish(cols, NumericUpTo(cols, k, w)) == Finish(cols, w)
  {
    if k > 0 {
      FinishIgnoresCasts(cols, k - 1, w);
      var prev := NumericUpTo(cols, k - 1, w);
      if HasInt(cols, IntColumns[k - 1]) {
        ToNumericIdempotent(IntField(IntColumns[k - 1], prev));
      }
    }
  }

  // ---------------------------------------------------------------- Properties of the cleaner

  /** A raw row rewritten and typed as the cleaner outputs it. */
  function Typed(cols: Columns, x: RawRow): CleanRow {
    Finish(cols, Prepare(cols, x))
  }

  function TypedFn(cols: Columns): RawRow -> CleanRow {
    x => Typed(cols, x)
  }

  /** The row-level guarantees of a cleaned row: a positive total, a timestamp pandas can hold,
      trimmed text, a known payment method, a rating in 0..5 and a card-reader flag where those
      columns exist, and nothing in the columns the frame does not have. */
  predicate CleanedRow(cols: Columns, r: CleanRow) {
    && r.total > 0.0
    && InStampRange(r.at)
    && (if cols.truckName then StripOpt(r.truckName) == r.truckName else r.truckName == None)
    && (if cols.truckDescription then StripOpt(r.truckDescription) == r.truckDescription
        else r.truckDescription == None)
    && (if cols.paymentMethod then r.paymentMethod == Some("cash") || r.paymentMethod == Some("card")
        else r.paymentMethod == None)
    && (if cols.fsaRating then r.fsaRating.Some? && 0 <= r.fsaRating.value <= 5 else r.fsaRating == None)
    && (if cols.hasCardReader then r.hasCardReader.Some? else r.hasCardReader == None)
    && (cols.transactionId || r.transactionId == None)
    && (cols.truckId || r.truckId == None)
    && (cols.paymentMethodId || r.paymentMethodId == None)
  }

  /** What the filters accept, stated on the raw row directly rather than stage by stage. */
  lemma KeptIff(cols: Columns, x: RawRow)
    ensures Kept(cols, x) <==>
      && TotalCell(x.total).Num? && TotalCell(x.total).x > 0.0
      && ToDateTime(x.at).Stamp?
      && (cols.hasCardReader ==> ToNumeric(x.hasCardReader) == Num(0.0) || ToNumeric(x.hasCardReader) == Num(1.0))
      && (cols.fsaRating ==> ToNumeric(x.fsaRating).Num? && 0.0 <= ToNumeric(x.fsaRating).x <= 5.0)
      && (cols.paymentMethod ==> LowerOpt(StripOpt(x.paymentMethod)) in {Some("cash"), Some("card")})
  {
  }

  /** A kept row's output: its total and timestamp are what the raw `total` and `at` convert
      to, and it meets every row-level guarantee. */
  lemma TypedRow(cols: Columns, x: RawRow)
    requires Kept(cols, x)
    ensures TotalCell(x.total) == Num(Typed(cols, x).total)
    ensures ToDateTime(x.at) == Stamp(Typed(cols, x).at)
    ensures CleanedRow(cols, Typed(cols, x))
  {
    KeptIff(cols, x);
    if cols.truckName && x.truckName.Some? {
      StripIdempotent(x.truckName.value);
    }
    if cols.truckDescription && x.truckDescription.Some? {
      StripIdempotent(x.truckDescription.value);
    }
    if cols.fsaRating {
      var v := ToNumeric(x.fsaRating).x;
      assert 0 <= v.Floor <= 5;
    }
  }

  /** A `total` of `VOID` in any letter case, with any surrounding whitespace, removes the row. */
  lemma VoidTotalDropped(cols: Columns, x: RawRow)
    requires x.total.Str? && Upper(Strip(x.total.s)) == "VOID"
    ensures !Kept(cols, x)
  {
    KeptIff(cols, x);
  }

  /** The rows the cleaner keeps are an order-preserving subsequence of its input, each passing
      every filter; with ids, each is the first surviving row with its raw id, and every row
      passing the filters has a kept row with the same id. */
  lemma SurvivorsSpec(f: Frame)
    ensures Subseq(Survivors(f), f.rows)
    ensures forall x :: x in Survivors(f) ==> x in f.rows && Kept(f.columns, x)
    ensures f.columns.transactionId ==>
      forall x :: x in Survivors(f) ==>
        x in Filter(f.rows, KeptToFn(f.columns, 5)) &&
        x == FirstWithKey(Filter(f.rows, KeptToFn(f.columns, 5)), TransactionKey, x.transactionId)
    ensures f.columns.transactionId ==>
      forall x :: x in f.rows && Kept(f.columns, x) ==> exists y :: y in Survivors(f) && y.transactionId == x.transactionId
    ensures f.columns.transactionId ==> Distinct(Map(Survivors(f), TransactionKey))
  {
    var passed := Filter(f.rows, KeptToFn(f.columns, 5));
    FilterSubseq(f.rows, KeptToFn(f.columns, 5));
    SubseqMembers(passed, f.rows);
    if f.columns.transactionId {
      DedupSubseq(passed, TransactionKey, {});
      SubseqTrans(Survivors(f), passed, f.rows);
      DedupKeysDistinct(passed, TransactionKey, {});
      DedupKeepsFirst(passed, TransactionKey, {});
      DedupKeysCovered(passed, TransactionKey, {});
      forall x | x in f.rows && Kept(f.columns, x)
        ensures exists y :: y in Survivors(f) && y.transactionId == x.transactionId
      {
        FilterKeeps(f.rows, KeptToFn(f.columns, 5), x);
        var y :| y in Survivors(f) && TransactionKey(y) == TransactionKey(x);
      }
    }
  }

  /** The cleaned rows are the kept input rows, in input order, each rewritten and typed. */
  lemma CleanOutput(f: Frame)
    requires Clean(f).Ok?
    ensures Clean(f).value.columns == f.columns
    ensures Clean(f).value.rows == Map(Survivors(f), TypedFn(f.columns))
    ensures |Clean(f).value.rows| <= |f.rows|
    ensures forall r :: r in Clean(f).value.rows ==> CleanedRow(f.columns, r)
  {
    var cols := f.columns;
    MapMap(Survivors(f), PrepareToFn(cols, 5), FinishFn(cols), TypedFn(cols));
    SurvivorsFewer(f);
    SurvivorsCleaned(f);
  }

  lemma SurvivorsFewer(f: Frame)
    ensures |Survivors(f)| <= |f.rows|
  {
    SurvivorsSpec(f);
    SubseqLength(Survivors(f), f.rows);
  }

  /** Every survivor, typed, meets the row-level guarantees. */
  lemma SurvivorsCleaned(f: Frame)
    ensures forall r :: r in Map(Survivors(f), TypedFn(f.columns)) ==> CleanedRow(f.columns, r)
  {
    var cols := f.columns;
    var out := Map(Survivors(f), TypedFn(cols));
    SurvivorsSpec(f);
    forall r | r in out ensures CleanedRow(cols, r) {
      var i :| 0 <= i < |out| && out[i] == r;
      assert Survivors(f)[i] in Survivors(f);
      TypedRow(cols, Survivors(f)[i]);
    }
  }

  /** When no cast fails, no integer column the frame has holds a fractional number. */
  lemma {:induction false} NoFailingCast(cols: Columns, ws: seq<RawRow>, k: nat)
    requires k <= |IntColumns|
    requires FirstFailingCast(cols, ws, k) == None
    ensures forall j :: k <= j < |IntColumns| ==> !CastFails(cols, ws, IntColumns[j])
    decreases |IntColumns| - k
  {
    if k < |IntColumns| {
      NoFailingCast(cols, ws, k + 1);
    }
  }

  function TransactionIdOf(r: CleanRow): Option<int> {
    r.transactionId
  }

  /** A cleaned frame came out of casts none of which failed. */
  lemma CleanCastsSucceeded(f: Frame)
    requires Clean(f).Ok?
    ensures forall c :: c in IntColumns ==> !CastFails(f.columns, Map(Survivors(f), PrepareToFn(f.columns, 5)), c)
  {
    NoFailingCast(f.columns, Map(Survivors(f), PrepareToFn(f.columns, 5)), 0);
  }

  /** The cleaner leaves the raw id alone until the cast. */
  lemma TypedId(cols: Columns, x: RawRow)
    ensures Prepare(cols, x).transactionId == x.transactionId
    ensures Typed(cols, x).transactionId == IntColumnValue(cols.transactionId, x.transactionId)
  {
  }

  lemma PreparedIdAt(cols: Columns, s: seq<RawRow>, i: nat)
    requires i < |s|
    ensures Map(s, PrepareToFn(cols, 5))[i].transactionId == s[i].transactionId
    ensures cols.transactionId ==> Map(Map(s, TypedFn(cols)), TransactionIdOf)[i] == IntValue(ToNumeric(s[i].transactionId))
  {
    TypedId(cols, s[i]);
  }

  lemma CastOkAt(cols: Columns, ws: seq<RawRow>, c: IntColumn, i: nat)
    requires i < |ws| && HasInt(cols, c)
    requires !CastFails(cols, ws, c)
    ensures !NonIntegral(ToNumeric(IntField(c, ws[i])))
  {
    assert ws[i] in ws;
  }

  /** A row whose id the cast accepted on the prepared rows has an integral raw id. */
  lemma CastOkId(cols: Columns, ws: seq<RawRow>, s: seq<RawRow>, i: nat)
    requires cols.transactionId && i < |s| == |ws|
    requires ws[i].transactionId == s[i].transactionId
    requires !CastFails(cols, ws, TransactionIdCol)
    ensures !NonIntegral(ToNumeric(s[i].transactionId))
  {
    CastOkAt(cols, ws, TransactionIdCol, i);
  }

  /** Rows with distinct raw ids, missing or numeric and integral, keep distinct ids once typed. */
  lemma TypedIdsDistinct(cols: Columns, s: seq<RawRow>)
    requires cols.transactionId
    requires Distinct(Map(s, TransactionKey))
    requires forall x :: x in s ==> x.transactionId.Null? || x.transactionId.Num?
    requires !CastFails(cols, Map(s, PrepareToFn(cols, 5)), TransactionIdCol)
    ensures Distinct(Map(Map(s, TypedFn(cols)), TransactionIdOf))
  {
    var ids := Map(Map(s, TypedFn(cols)), TransactionIdOf);
    forall i, j | 0 <= i < j < |ids| ensures ids[i] != ids[j] {
      PreparedIdAt(cols, s, i);
      PreparedIdAt(cols, s, j);
      CastOkId(cols, Map(s, PrepareToFn(cols, 5)), s, i);
      CastOkId(cols, Map(s, PrepareToFn(cols, 5)), s, j);
      assert Map(s, TransactionKey)[i] != Map(s, TransactionKey)[j];
      assert s[i] in s && s[j] in s;
      IntValueInjective(s[i].transactionId, s[j].transactionId);
    }
  }

  /** The cleaned transaction ids are pairwise distinct, provided every raw id is missing or a
      number: de-duplication compares raw values, before the cast to `Int64`. */
  lemma CleanIdsDistinct(f: Frame)
    requires Clean(f).Ok? && f.columns.transactionId
    requires forall x :: x in f.rows ==> x.transactionId.Null? || x.transactionId.Num?
    ensures Distinct(Map(Clean(f).value.rows, TransactionIdOf))
  {
    SurvivorsSpec(f);
    CleanOutput(f);
    CleanCastsSucceeded(f);
    assert TransactionIdCol in IntColumns;
    TypedIdsDistinct(f.columns, Survivors(f));
  }

  // ---------------------------------------------------------------- Idempotence

  /** The raw row a cleaned row reads back as: ids and rating as integral numbers, the
      timestamp as a timestamp, the flag as 0 or 1. */
  function Embed(r: CleanRow): RawRow {
    RawRow(
      transactionId := IntCell(r.transactionId), at := Stamp(r.at), truckName := r.truckName,
      paymentMethod := r.paymentMethod, total := Num(r.total), truckId := IntCell(r.truckId),
      paymentMethodId := IntCell(r.paymentMethodId), fsaRating := IntCell(r.fsaRating),
      hasCardReader := (match r.hasCardReader case Some(b) => Num(if b then 1.0 else 0.0) case None => Null),
      truckDescription := r.truckDescription)
  }

  function EmbedFn(): CleanRow -> RawRow {
    r => Embed(r)
  }

  lemma CashCardFixed()
    ensures Lower(Strip("cash")) == "cash" && Lower(Strip("card")) == "card"
  {
    StripLeftNoop("cash");
    StripRightNoop("cash");
    StripLeftNoop("card");
    StripRightNoop("card");
  }

  /** A cleaned row passes every filter again. */
  lemma EmbedKept(cols: Columns, r: CleanRow)
    requires CleanedRow(cols, r)
    ensures Kept(cols, Embed(r))
  {
    CashCardFixed();
    KeptIff(cols, Embed(r));
  }

  /** Every rewrite leaves a cleaned row as it is. */
  lemma EmbedPrepared(cols: Columns, r: CleanRow)
    requires CleanedRow(cols, r)
    ensures Prepare(cols, Embed(r)) == Embed(r)
  {
    CashCardFixed();
    EmbedStripped(cols, r);
  }

  /** Trimming leaves the text columns of a cleaned row as they are. */
  lemma EmbedStripped(cols: Columns, r: CleanRow)
    requires CleanedRow(cols, r)
    ensures StripUpTo(cols, |TextColumns|, Embed(r)) == Embed(r)
  {
    CashCardFixed();
    var e := Embed(r);
    var t := StripUpTo(cols, |TextColumns|, e);
    assert t.paymentMethod == e.paymentMethod;
    assert t.truckName == e.truckName;
    assert t.truckDescription == e.truckDescription;
  }

  /** A cleaned row types back to itself, and none of its integer columns holds a fraction. */
  lemma EmbedFinish(cols: Columns, r: CleanRow)
    requires CleanedRow(cols, r)
    ensures Finish(cols, Embed(r)) == r
    ensures forall c :: !NonIntegral(ToNumeric(IntField(c, Embed(r))))
  {
    IntCellRoundTrip(r.transactionId);
    IntCellRoundTrip(r.truckId);
    IntCellRoundTrip(r.paymentMethodId);
    IntCellRoundTrip(r.fsaRating);
  }

  /** When no cast fails, the first failing cast is none. */
  lemma {:induction false} NoCastFails(cols: Columns, ws: seq<RawRow>, k: nat)
    requires k <= |IntColumns|
    requires forall c :: !CastFails(cols, ws, c)
    ensures FirstFailingCast(cols, ws, k) == None
    decreases |IntColumns| - k
  {
    if k < |IntColumns| {
      NoCastFails(cols, ws, k + 1);
    }
  }

  /** Cleaned rows read back as raw rows all pass the filters, and keep their distinct ids. */
  lemma EmbeddedSurvive(cols: Columns, rows: seq<CleanRow>)
    requires forall r :: r in rows ==> CleanedRow(cols, r)
    requires cols.transactionId ==> Distinct(Map(rows, TransactionIdOf))
    ensures Survivors(Frame(cols, Map(rows, EmbedFn()))) == Map(rows, EmbedFn())
  {
    var raw := Map(rows, EmbedFn());
    forall x | x in raw ensures KeptToFn(cols, 5)(x) {
      var i :| 0 <= i < |rows| && x == Embed(rows[i]);
      assert rows[i] in rows;
      EmbedKept(cols, rows[i]);
    }
    FilterAll(raw, KeptToFn(cols, 5));
    if cols.transactionId {
      var keys := Map(raw, TransactionKey);
      var ids := Map(rows, TransactionIdOf);
      forall i, j | 0 <= i < j < |keys| ensures keys[i] != keys[j] {
        IntCellRoundTrip(ids[i]);
        IntCellRoundTrip(ids[j]);
      }
      DedupIdentity(raw, TransactionKey, {});
    }
  }

  /** Cleaned rows read back as raw rows are left alone by the rewrites and cast cleanly. */
  lemma EmbeddedPrepared(cols: Columns, rows: seq<CleanRow>)
    requires forall r :: r in rows ==> CleanedRow(cols, r)
    ensures Map(Map(rows, EmbedFn()), PrepareToFn(cols, 5)) == Map(rows, EmbedFn())
    ensures FirstFailingCast(cols, Map(rows, EmbedFn()), 0) == None
    ensures Map(Map(rows, EmbedFn()), FinishFn(cols)) == rows
  {
    var raw := Map(rows, EmbedFn());
    forall i | 0 <= i < |rows|
      ensures Map(raw, PrepareToFn(cols, 5))[i] == raw[i]
      ensures Map(raw, FinishFn(cols))[i] == rows[i]
    {
      assert rows[i] in rows;
      EmbedPrepared(cols, rows[i]);
      EmbedFinish(cols, rows[i]);
    }
    forall c ensures !CastFails(cols, raw, c) {
      forall w | w in raw ensures !NonIntegral(ToNumeric(IntField(c, w))) {
        var i :| 0 <= i < |rows| && w == Embed(rows[i]);
        assert rows[i] in rows;
        EmbedFinish(cols, rows[i]);
      }
    }
    NoCastFails(cols, raw, 0);
  }

  /** Any rows meeting the row-level guarantees, with distinct ids, clean to themselves. */
  lemma CleanEmbedded(cols: Columns, rows: seq<CleanRow>)
    requires cols.total && cols.at
    requires forall r :: r in rows ==> CleanedRow(cols, r)
    requires cols.transactionId ==> Distinct(Map(rows, TransactionIdOf))
    ensures Clean(Frame(cols, Map(rows, EmbedFn()))) == Ok(CleanFrame(cols, rows))
  {
    EmbeddedSurvive(cols, rows);
    EmbeddedPrepared(cols, rows);
  }

  /** Cleaning a cleaned frame gives it back unchanged (ids read back as numbers). */
  lemma CleanIdempotent(f: Frame)
    requires Clean(f).Ok?
    requires f.columns.transactionId ==> forall x :: x in f.rows ==> x.transactionId.Null? || x.transactionId.Num?
    ensures Clean(Frame(f.columns, Map(Clean(f).value.rows, EmbedFn()))) == Clean(f)
  {
    CleanOutput(f);
    if f.columns.transactionId {
      CleanIdsDistinct(f);
    }
    CleanEmbedded(f.columns, Clean(f).value.rows);
  }

  // ---------------------------------------------------------------- Dimension tables

  /** The first row for each key, then only rows whose key is present
      (`drop_duplicates(subset=[key])` followed by `meta[meta[key].notna()]`). */
  function FirstPerKey(rows: seq<CleanRow>, key: CleanRow -> Option<int>): (r: seq<CleanRow>)
    ensures forall x :: x in r ==> key(x).Some?
  {
    Filter(Dedup(rows, key), x => key(x).Some?)
  }

  /** Exactly one row per distinct present key, namely the key's first row. */
  lemma FirstPerKeySpec(rows: seq<CleanRow>, key: CleanRow -> Option<int>)
    ensures Distinct(Map(FirstPerKey(rows, key), key))
    ensures forall r :: r in FirstPerKey(rows, key) ==> r in rows && key(r).Some? && r == FirstWithKey(rows, key, key(r))
    ensures forall k :: (exists r :: r in rows && key(r) == Some(k)) <==> (exists d :: d in FirstPerKey(rows, key) && key(d) == Some(k))
  {
    var dd := Dedup(rows, key);
    var p := (r: CleanRow) => key(r).Some?;
    DedupKeysDistinct(rows, key, {});
    DedupKeepsFirst(rows, key, {});
    DedupKeysCovered(rows, key, {});
    FilterSubseq(dd, p);
    SubseqDistinctKeys(Filter(dd, p), dd, key);
    forall k | exists r :: r in rows && key(r) == Some(k)
      ensures exists d :: d in FirstPerKey(rows, key) && key(d) == Some(k)
    {
      var r :| r in rows && key(r) == Some(k);
      var d :| d in dd && key(d) == key(r);
      FilterKeeps(dd, p, d);
    }
  }

  /** A row of `DIM_Truck`. */
  datatype TruckDim = TruckDim(
    truckId: int, truckName: Option<string>, truckDescription: Option<string>,
    hasCardReader: Option<bool>, fsaRating: Option<int>)

  /** A row of `DIM_Payment_Method`. */
  datatype PaymentMethodDim = PaymentMethodDim(paymentMethodId: int, paymentMethod: Option<string>)

  function TruckIdOf(r: CleanRow): Option<int> {
    r.truckId
  }

  function PaymentMethodIdOf(r: CleanRow): Option<int> {
    r.paymentMethodId
  }

  function ToTruckDim(r: CleanRow): TruckDim
    requires r.truckId.Some?
  {
    TruckDim(r.truckId.value, StripOpt(r.truckName), StripOpt(r.truckDescription), r.hasCardReader, r.fsaRating)
  }

  function ToPaymentMethodDim(r: CleanRow): PaymentMethodDim
    requires r.paymentMethodId.Some?
  {
    PaymentMethodDim(r.paymentMethodId.value, LowerOpt(StripOpt(r.paymentMethod)))
  }

  /** `build_truck_metadata`: one row per truck id, from the truck's first transaction, names
      and descriptions trimmed; a frame without one of the five columns is a `KeyError`. */
  function TruckDims(cf: CleanFrame): Result<seq<TruckDim>, CleanError> {
    var c := cf.columns;
    if !c.truckId then Err(MissingColumn("truck_id"))
    else if !c.truckName then Err(MissingColumn("truck_name"))
    else if !c.truckDescription then Err(MissingColumn("truck_description"))
    else if !c.hasCardReader then Err(MissingColumn("has_card_reader"))
    else if !c.fsaRating then Err(MissingColumn("fsa_rating"))
    else
      var firsts := FirstPerKey(cf.rows, TruckIdOf);
      Ok(seq(|firsts|, i requires 0 <= i < |firsts| => assert firsts[i] in firsts; ToTruckDim(firsts[i])))
  }

  /** `build_payment_method_metadata`: one row per payment-method id, from its first
      transaction, the method trimmed and lower-cased. */
  function PaymentMethodDims(cf: CleanFrame): Result<seq<PaymentMethodDim>, CleanError> {
    if !cf.columns.paymentMethodId then Err(MissingColumn("payment_method_id"))
    else if !cf.columns.paymentMethod then Err(MissingColumn("payment_method"))
    else
      var firsts := FirstPerKey(cf.rows, PaymentMethodIdOf);
      Ok(seq(|firsts|, i requires 0 <= i < |firsts| => assert firsts[i] in firsts; ToPaymentMethodDim(firsts[i])))
  }

  /** The truck table has one row for each truck id present in the transactions, no two with the
      same id, each taken from that truck's first transaction. */
  lemma TruckDimsSpec(cf: CleanFrame)
    requires TruckDims(cf).Ok?
    ensures forall i, j :: 0 <= i < j < |TruckDims(cf).value| ==> TruckDims(cf).value[i].truckId != TruckDims(cf).value[j].truckId
    ensures forall k :: (exists r :: r in cf.rows && r.truckId == Some(k)) <==> (exists d :: d in TruckDims(cf).value && d.truckId == k)
    ensures forall d :: d in TruckDims(cf).value ==>
      (exists r :: r in cf.rows && r.truckId == Some(d.truckId)) &&
      d == ToTruckDim(FirstWithKey(cf.rows, TruckIdOf, Some(d.truckId)))
  {
    TruckDimsDistinct(cf);
    TruckDimsCover(cf);
    TruckDimsFromFirst(cf);
  }

  lemma TruckDimsDistinct(cf: CleanFrame)
    requires TruckDims(cf).Ok?
    ensures forall i, j :: 0 <= i < j < |TruckDims(cf).value| ==> TruckDims(cf).value[i].truckId != TruckDims(cf).value[j].truckId
  {
    var firsts := FirstPerKey(cf.rows, TruckIdOf);
    var ds := TruckDims(cf).value;
    FirstPerKeySpec(cf.rows, TruckIdOf);
    forall i, j | 0 <= i < j < |ds| ensures ds[i].truckId != ds[j].truckId {
      assert firsts[i] in firsts && firsts[j] in firsts;
      assert Map(firsts, TruckIdOf)[i] != Map(firsts, TruckIdOf)[j];
    }
  }

  lemma TruckDimsCover(cf: CleanFrame)
    requires TruckDims(cf).Ok?
    ensures forall k :: (exists r :: r in cf.rows && r.truckId == Some(k)) ==> (exists d :: d in TruckDims(cf).value && d.truckId == k)
  {
    var firsts := FirstPerKey(cf.rows, TruckIdOf);
    var ds := TruckDims(cf).value;
    FirstPerKeySpec(cf.rows, TruckIdOf);
    forall k | exists d :: d in firsts && TruckIdOf(d) == Some(k)
      ensures exists d :: d in ds && d.truckId == k
    {
      var d :| d in firsts && TruckIdOf(d) == Some(k);
      var i :| 0 <= i < |firsts| && firsts[i] == d;
      assert ds[i] in ds;
    }
  }

  lemma TruckDimsFromFirst(cf: CleanFrame)
    requires TruckDims(cf).Ok?
    ensures forall d :: d in TruckDims(cf).value ==>
      (exists r :: r in cf.rows && r.truckId == Some(d.truckId)) &&
      d == ToTruckDim(FirstWithKey(cf.rows, TruckIdOf, Some(d.truckId)))
  {
    var firsts := FirstPerKey(cf.rows, TruckIdOf);
    var ds := TruckDims(cf).value;
    FirstPerKeySpec(cf.rows, TruckIdOf);
    forall d | d in ds
      ensures exists r :: r in cf.rows && r.truckId == Some(d.truckId)
      ensures d == ToTruckDim(FirstWithKey(cf.rows, TruckIdOf, Some(d.truckId)))
    {
      var i :| 0 <= i < |ds| && ds[i] == d;
      assert firsts[i] in firsts;
    }
  }

  /** The payment-method table has one row for each method id present, no two with the same id,
      each from the first transaction with that id, and every method name trimmed and
      lower-cased. */
  lemma PaymentMethodDimsSpec(cf: CleanFrame)
    requires PaymentMethodDims(cf).Ok?
    ensures forall i, j :: 0 <= i < j < |PaymentMethodDims(cf).value| ==>
      PaymentMethodDims(cf).value[i].paymentMethodId != PaymentMethodDims(cf).value[j].paymentMethodId
    ensures forall k :: (exists r :: r in cf.rows && r.paymentMethodId == Some(k)) <==>
      (exists d :: d in PaymentMethodDims(cf).value && d.paymentMethodId == k)
    ensures forall d :: d in PaymentMethodDims(cf).value ==>
      (exists r :: r in cf.rows && r.paymentMethodId == Some(d.paymentMethodId)) &&
      d == ToPaymentMethodDim(FirstWithKey(cf.rows, PaymentMethodIdOf, Some(d.paymentMethodId)))
    ensures forall d :: d in PaymentMethodDims(cf).value && d.paymentMethod.Some? ==>
      Strip(d.paymentMethod.value) == d.paymentMethod.value && Lower(d.paymentMethod.value) == d.paymentMethod.value
  {
    PaymentMethodDimsDistinct(cf);
    PaymentMethodDimsCover(cf);
    PaymentMethodDimsFromFirst(cf);
  }

  lemma PaymentMethodDimsDistinct(cf: CleanFrame)
    requires PaymentMethodDims(cf).Ok?
    ensures forall i, j :: 0 <= i < j < |PaymentMethodDims(cf).value| ==>
      PaymentMethodDims(cf).value[i].paymentMethodId != PaymentMethodDims(cf).value[j].paymentMethodId
  {
    var firsts := FirstPerKey(cf.rows, PaymentMethodIdOf);
    var ds := PaymentMethodDims(cf).value;
    FirstPerKeySpec(cf.rows, PaymentMethodIdOf);
    forall i, j | 0 <= i < j < |ds| ensures ds[i].paymentMethodId != ds[j].paymentMethodId {
      assert firsts[i] in firsts && firsts[j] in firsts;
      assert Map(firsts, PaymentMethodIdOf)[i] != Map(firsts, PaymentMethodIdOf)[j];
    }
  }

  lemma PaymentMethodDimsCover(cf: CleanFrame)
    requires PaymentMethodDims(cf).Ok?
    ensures forall k :: (exists r :: r in cf.rows && r.paymentMethodId == Some(k)) ==>
      (exists d :: d in PaymentMethodDims(cf).value && d.paymentMethodId == k)
  {
    var firsts := FirstPerKey(cf.rows, PaymentMethodIdOf);
    var ds := PaymentMethodDims(cf).value;
    FirstPerKeySpec(cf.rows, PaymentMethodIdOf);
    forall k | exists d :: d in firsts && PaymentMethodIdOf(d) == Some(k)
      ensures exists d :: d in ds && d.paymentMethodId == k
    {
      var d :| d in firsts && PaymentMethodIdOf(d) == Some(k);
      var i :| 0 <= i < |firsts| && firsts[i] == d;
      assert ds[i] in ds;
    }
  }

  lemma PaymentMethodDimsFromFirst(cf: CleanFrame)
    requires PaymentMethodDims(cf).Ok?
    ensures forall d :: d in PaymentMethodDims(cf).value ==>
      (exists r :: r in cf.rows && r.paymentMethodId == Some(d.paymentMethodId)) &&
      d == ToPaymentMethodDim(FirstWithKey(cf.rows, PaymentMethodIdOf, Some(d.paymentMethodId)))
    ensures forall d :: d in PaymentMethodDims(cf).value && d.paymentMethod.Some? ==>
      Strip(d.paymentMethod.value) == d.paymentMethod.value && Lower(d.paymentMethod.value) == d.paymentMethod.value
  {
    var firsts := FirstPerKey(cf.rows, PaymentMethodIdOf);
    var ds := PaymentMethodDims(cf).value;
    FirstPerKeySpec(cf.rows, PaymentMethodIdOf);
    forall d | d in ds
      ensures exists r :: r in cf.rows && r.paymentMethodId == Some(d.paymentMethodId)
      ensures d == ToPaymentMethodDim(FirstWithKey(cf.rows, PaymentMethodIdOf, Some(d.paymentMethodId)))
      ensures d.paymentMethod.Some? ==> Strip(d.paymentMethod.value) == d.paymentMethod.value && Lower(d.paymentMethod.value) == d.paymentMethod.value
    {
      var i :| 0 <= i < |ds| && ds[i] == d;
      assert firsts[i] in firsts;
      if d.paymentMethod.Some? {
        var s := firsts[i].paymentMethod.value;
        LowerKeepsStripped(s);
        LowerIdempotent(Strip(s));
      }
    }
  }
}
