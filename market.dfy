/** The data model shared by both dashboards: OHLC bars, the raw rows a download
    returns (any field may be missing), the `dropna` cleanup, and the column
    aggregates (max High, min Low, last rows) that the pivot and range
    computations use. Prices are real numbers; float rounding is not modelled. */
module Market {

  datatype Option<T> = None | Some(value: T)

  /** Why a dashboard run stops without a full report. */
  datatype Failure =
    | InsufficientData   // fewer than 5 rows after dropna (app.py warning branch)
    | EmptySeries        // last-row access on an empty frame (scanner.py)
    | TooFewPeriods      // `unique()[-2]` on fewer than two distinct keys
    | ZeroEma50          // division by an EMA50 of exactly zero

  datatype Result<T> = Ok(value: T) | Err(error: Failure)

  datatype Bar = Bar(open: real, high: real, low: real, close: real)

  /** The calendar keys of a bar's timestamp: date, ISO week number and month
      number. They are opaque integers here; the week and month keys carry no
      year, as in the dashboards. */
  datatype Stamp = Stamp(day: int, week: int, month: int)

  datatype Row = Row(stamp: Stamp, bar: Bar)

  /** A downloaded row before cleanup: every numeric column may be missing. */
  datatype RawRow = RawRow(stamp: Stamp, open: Option<real>, high: Option<real>,
                           low: Option<real>, close: Option<real>, volume: Option<real>)

  /** The high, low and last close of a reference period. */
  datatype HLC = HLC(high: real, low: real, close: real)

  /** The classical floor-trader pivot ladder. */
  datatype PivotSet = PivotSet(pp: real, r1: real, r2: real, s1: real, s2: real)

  predicate Complete(r: RawRow) {
    r.open.Some? && r.high.Some? && r.low.Some? && r.close.Some? && r.volume.Some?
  }

  /** A bar whose open and close lie between its low and its high. */
  predicate WellFormed(b: Bar) {
    b.low <= b.open <= b.high && b.low <= b.close <= b.high
  }

  predicate AllWellFormed(rows: seq<Row>) {
    forall i :: 0 <= i < |rows| ==> WellFormed(rows[i].bar)
  }

  predicate AllClosesPositive(rows: seq<Row>) {
    forall i :: 0 <= i < |rows| ==> rows[i].bar.close > 0.0
  }

  function Min(a: int, b: int): int { if a <= b then a else b }

  /** `dropna()`: keep the rows that have every column, in their order. */
  function DropNa(raw: seq<RawRow>): (kept: seq<RawRow>)
    ensures |kept| <= |raw|
    ensures forall r :: r in kept <==> r in raw && Complete(r)
  {
    if |raw| == 0 then []
    else if Complete(raw[0]) then [raw[0]] + DropNa(raw[1..])
    else DropNa(raw[1..])
  }

  /** Dropping rows commutes with concatenation: the rows kept from a prefix all
      come before the rows kept from what follows it, so the order is kept. */
  lemma {:induction false} DropNaConcat(a: seq<RawRow>, b: seq<RawRow>)
    ensures DropNa(a + b) == DropNa(a) + DropNa(b)
  {
    if |a| == 0 {
      assert a + b == b;
    } else {
      assert (a + b)[1..] == a[1..] + b;
      DropNaConcat(a[1..], b);
    }
  }

  /** A frame without missing values loses nothing. */
  lemma {:induction false} DropNaComplete(raw: seq<RawRow>)
    requires forall i :: 0 <= i < |raw| ==> Complete(raw[i])
    ensures DropNa(raw) == raw
  {
    if |raw| > 0 {
      DropNaComplete(raw[1..]);
    }
  }

  /** Running `dropna()` a second time changes nothing. */
  lemma DropNaIdempotent(raw: seq<RawRow>)
    ensures DropNa(DropNa(raw)) == DropNa(raw)
  {
    var kept := DropNa(raw);
    forall i | 0 <= i < |kept| ensures Complete(kept[i]) {
      assert kept[i] in kept;
    }
    DropNaComplete(kept);
  }

  function ToRow(r: RawRow): Row
    requires Complete(r)
  {
    Row(r.stamp, Bar(r.open.value, r.high.value, r.low.value, r.close.value))
  }

  /** The frame the indicators are computed on: the complete rows as bars. */
  function Clean(raw: seq<RawRow>): (rows: seq<Row>)
    ensures |rows| == |DropNa(raw)|
    ensures forall i :: 0 <= i < |rows| ==> rows[i] == ToRow(DropNa(raw)[i])
  {
    var kept := DropNa(raw);
    seq(|kept|, i requires 0 <= i < |kept| => (assert kept[i] in kept; ToRow(kept[i])))
  }

  function Closes(rows: seq<Row>): (c: seq<real>)
    ensures |c| == |rows|
    ensures forall i :: 0 <= i < |rows| ==> c[i] == rows[i].bar.close
  {
    seq(|rows|, i requires 0 <= i < |rows| => rows[i].bar.close)
  }

  /** `max()` of the High column: an upper bound that some row attains. */
  function MaxHigh(rows: seq<Row>): (m: real)
    requires |rows| > 0
    ensures forall i :: 0 <= i < |rows| ==> rows[i].bar.high <= m
    ensures exists i :: 0 <= i < |rows| && rows[i].bar.high == m
  {
    if |rows| == 1 then rows[0].bar.high
    else
      var rest := MaxHigh(rows[1..]);
      assert forall i :: 1 <= i < |rows| ==> rows[i] == rows[1..][i - 1];
      if rows[0].bar.high > rest then rows[0].bar.high else rest
  }

  /** `min()` of the Low column: a lower bound that some row attains. */
  function MinLow(rows: seq<Row>): (m: real)
    requires |rows| > 0
    ensures forall i :: 0 <= i < |rows| ==> m <= rows[i].bar.low
    ensures exists i :: 0 <= i < |rows| && rows[i].bar.low == m
  {
    if |rows| == 1 then rows[0].bar.low
    else
      var rest := MinLow(rows[1..]);
      assert forall i :: 1 <= i < |rows| ==> rows[i] == rows[1..][i - 1];
      if rows[0].bar.low < rest then rows[0].bar.low else rest
  }

  /** `tail(k)`: the last min(k, n) rows. */
  function Tail(rows: seq<Row>, k: nat): (t: seq<Row>)
    ensures |t| == Min(k, |rows|)
    ensures forall i :: 0 <= i < |t| ==> t[i] == rows[|rows| - |t| + i]
  {
    rows[|rows| - Min(k, |rows|)..]
  }
}
