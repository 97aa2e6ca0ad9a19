/** Values held in an untyped (object) data-frame column, and the coercing conversions pandas
    applies to them. */
module Cells {
  import opened Wrappers
  import opened Text
  import opened Calendar

  /** A missing value (`None`, `NaN`, `NA`, `NaT`), a number, text, or a timestamp. */
  datatype Cell = Null | Num(x: real) | Str(s: string) | Stamp(t: DateTime)

  /** `pd.to_numeric(..., errors="coerce")`: numbers stay, decimal text is read, anything else
      becomes missing. */
  function ToNumeric(c: Cell): (r: Cell)
    ensures r.Null? || r.Num?
    ensures c.Num? ==> r == c
    ensures c.Null? ==> r.Null?
  {
    match c
    case Null => Null
    case Num(_) => c
    case Str(s) => (match ParseDecimal(s) case Some(x) => Num(x) case None => Null)
    case Stamp(_) => Null
  }

  /** Converting twice is converting once. */
  lemma ToNumericIdempotent(c: Cell)
    ensures ToNumeric(ToNumeric(c)) == ToNumeric(c)
  {
  }

  /** The first and the last whole second a pandas `Timestamp` can hold: its nanosecond count
      is a signed 64-bit integer, which spans 1677-09-21 00:12:43.145224193 to
      2262-04-11 23:47:16.854775807. */
  const FirstStamp := DateTime(Date(1677, 9, 21), 0, 12, 44)
  const LastStamp := DateTime(Date(2262, 4, 11), 23, 47, 16)

  predicate InStampRange(t: DateTime) {
    !DateTimeLess(t, FirstStamp) && !DateTimeLess(LastStamp, t)
  }

  /** `pd.to_datetime(..., errors="coerce")`: timestamps stay, ISO text is read, anything else
      becomes missing, and so does an instant outside the range a `Timestamp` can hold. */
  function ToDateTime(c: Cell): (r: Cell)
    ensures r.Null? || r.Stamp?
    ensures r.Stamp? ==> InStampRange(r.t)
    ensures c.Stamp? ==> (r == c <==> InStampRange(c.t))
    ensures c.Str? && r.Stamp? ==> ValidDateTime(r.t)
  {
    match c
    case Str(s) =>
      (match ParseDateTime(s)
       case Some(t) => if InStampRange(t) then Stamp(t) else Null
       case None => Null)
    case Stamp(t) => if InStampRange(t) then c else Null
    case _ => Null
  }

  /** The range is bounded to the second: one second outside it at either end is refused. */
  lemma StampRangeEdges()
    ensures InStampRange(FirstStamp) && InStampRange(LastStamp)
    ensures !InStampRange(DateTime(Date(1677, 9, 21), 0, 12, 43))
    ensures !InStampRange(DateTime(Date(2262, 4, 11), 23, 47, 17))
    ensures !InStampRange(DateTime(Date(1500, 3, 5), 0, 0, 0))
    ensures !InStampRange(DateTime(Date(2300, 1, 1), 0, 0, 0))
  {
  }

  /** A number with a fractional part, which `astype("Int64")` refuses to cast. */
  predicate NonIntegral(c: Cell) {
    c.Num? && c.x.Floor as real != c.x
  }

  /** The nullable-integer value of a numeric cell (`astype("Int64")` on an integral value). */
  function IntValue(c: Cell): (r: Option<int>)
    ensures c.Null? ==> r.None?
    ensures c.Num? && !NonIntegral(c) ==> r == Some(c.x.Floor) && r.value as real == c.x
  {
    match c
    case Num(x) => Some(x.Floor)
    case _ => None
  }

  /** The cell holding a nullable integer. */
  function IntCell(v: Option<int>): Cell {
    match v
    case Some(k) => Num(k as real)
    case None => Null
  }

  /** Reading back a nullable integer's cell gives the integer, so the cast loses nothing. */
  lemma IntCellRoundTrip(v: Option<int>)
    ensures !NonIntegral(IntCell(v)) && ToNumeric(IntCell(v)) == IntCell(v) && IntValue(IntCell(v)) == v
  {
  }

  /** On missing values and integral numbers the cast is one-to-one. */
  lemma IntValueInjective(a: Cell, b: Cell)
    requires (a.Null? || a.Num?) && (b.Null? || b.Num?)
    requires !NonIntegral(a) && !NonIntegral(b)
    requires a != b
    ensures IntValue(a) != IntValue(b)
  {
  }
}
