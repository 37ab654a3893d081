/** The full dashboard (app.py): after cleanup and a five-row guard it adds the
    EMA20/EMA50 columns, computes classical pivots from the reference period
    chosen by the user (day, week or month), classifies the technical zone,
    projects a target and a stop from the pivot ladder with a risk/reward
    ratio and an alert, and reports the high/low range of the last 168 bars. */
module App {
  import opened Market
  import opened Ema
  import opened Periods

  /** The guard of the full dashboard: fewer rows show a warning instead. */
  const MinRows := 5

  /** `tail(7 * 24)`: 168 bars, whatever the interval. They are seven calendar
      days only for a market that trades around the clock; for the listed
      equities at 60m they are the whole 30-day download. */
  const WeekBars := 7 * 24

  // ---------------------------------------------------------------- pivots

  /** The floor-trader pivot ladder from a reference period's statistics. */
  function Pivots(h: HLC): (p: PivotSet)
    ensures 3.0 * p.pp == h.high + h.low + h.close
    ensures p.r1 - p.pp == p.pp - h.low && p.pp - p.s1 == h.high - p.pp
    ensures p.r2 + p.s2 == 2.0 * p.pp
    ensures p.r1 - p.s1 == h.high - h.low
    ensures p.r2 - p.s2 == 2.0 * (h.high - h.low)
  {
    var pp := (h.high + h.low + h.close) / 3.0;
    PivotSet(pp, 2.0 * pp - h.low, pp + (h.high - h.low), 2.0 * pp - h.high, pp - (h.high - h.low))
  }

  predicate Ordered(p: PivotSet) {
    p.s2 <= p.s1 <= p.pp <= p.r1 <= p.r2
  }

  /** The ladder is ordered exactly when PP lies between low and high. */
  lemma LadderOrderedIff(h: HLC)
    ensures Ordered(Pivots(h)) <==> h.low <= Pivots(h).pp <= h.high
  {
  }

  /** A close within the period's range gives an ordered ladder. */
  lemma LadderOrdered(h: HLC)
    requires h.low <= h.close <= h.high
    ensures Ordered(Pivots(h))
  {
    LadderOrderedIff(h);
  }

  /** high 110, low 90, close 100 gives PP 100, R1 110, R2 120, S1 90, S2 80. */
  lemma PivotsExample()
    ensures Pivots(HLC(110.0, 90.0, 100.0)) == PivotSet(100.0, 110.0, 120.0, 90.0, 80.0)
  {
  }

  // ------------------------------------------------------------------ zone

  datatype Zone = Bullish | Bearish | Lateral | Undefined

  /** The four criteria shown as the technical checklist. */
  datatype Criteria = Criteria(emaAbove: bool, spreadWide: bool, abovePivot: bool, insideBand: bool)

  function Abs(x: real): real { if x < 0.0 then -x else x }

  /** |EMA20 - EMA50| as a percentage of EMA50. */
  function DiffPct(ema20: real, ema50: real): (d: real)
    requires ema50 != 0.0
    ensures ema50 > 0.0 ==> d >= 0.0
    ensures d * ema50 == Abs(ema20 - ema50) * 100.0
  {
    Abs(ema20 - ema50) / ema50 * 100.0
  }

  /** The four criteria. The spread criterion, free of the division: the EMAs
      differ by more than 0.5 % of a positive EMA50 (never for a negative one). */
  function Evaluate(ema20: real, ema50: real, price: real, p: PivotSet): (c: Criteria)
    requires ema50 != 0.0
    ensures c.emaAbove <==> ema20 > ema50
    ensures c.spreadWide <==> ema50 > 0.0 && 200.0 * Abs(ema20 - ema50) > ema50
    ensures c.abovePivot <==> price > p.pp
    ensures c.insideBand <==> p.s1 < price < p.r1
  {
    SpreadWide(ema20, ema50);
    Criteria(ema20 > ema50, DiffPct(ema20, ema50) > 0.5, price > p.pp, p.s1 < price < p.r1)
  }

  /** The spread criterion without the division. */
  lemma SpreadWide(ema20: real, ema50: real)
    requires ema50 != 0.0
    ensures DiffPct(ema20, ema50) > 0.5 <==> ema50 > 0.0 && 200.0 * Abs(ema20 - ema50) > ema50
  {
    var d := DiffPct(ema20, ema50);
    var a := Abs(ema20 - ema50);
    assert d * ema50 == a * 100.0;
    if ema50 > 0.0 {
      SpreadPos(d, a, ema50);
    } else {
      Scale(0.0, d, -ema50);
    }
  }

  /** For a positive EMA50 e with d·e = 100·a: d > 0.5 exactly when 200·a > e. */
  lemma SpreadPos(d: real, a: real, e: real)
    requires e > 0.0 && d * e == a * 100.0
    ensures d > 0.5 <==> 200.0 * a > e
  {
    Scale(d, 0.5, e);
  }

  /** Multiplying by a positive factor keeps a strict order. */
  lemma Scale(x: real, y: real, e: real)
    requires e > 0.0
    ensures x > y <==> x * e > y * e
  {
    if x > y {
      assert (x - y) * e > 0.0;
    } else {
      assert (y - x) * e >= 0.0;
    }
  }

  /** First match in the fixed order Bullish, Bearish, Lateral, else Undefined.
      Each label holds exactly under its own condition. */
  function ZoneOf(ema20: real, ema50: real, price: real, p: PivotSet): (z: Zone)
    requires ema50 != 0.0
    ensures var c := Evaluate(ema20, ema50, price, p);
      (z == Bullish <==> c.emaAbove && c.spreadWide && c.abovePivot) &&
      (z == Bearish <==> !c.emaAbove && c.spreadWide && !c.abovePivot) &&
      (z == Lateral <==> c.insideBand && DiffPct(ema20, ema50) < 0.5)
  {
    var c := Evaluate(ema20, ema50, price, p);
    if c.emaAbove && c.spreadWide && c.abovePivot then Bullish
    else if !c.emaAbove && c.spreadWide && !c.abovePivot then Bearish
    else if c.insideBand && DiffPct(ema20, ema50) < 0.5 then Lateral
    else Undefined
  }

  /** The classification gap: Undefined exactly when the EMAs are far apart
      but trend and price disagree, when the spread is exactly 0.5 %, or when
      a narrow spread meets a price outside (S1, R1). */
  lemma UndefinedGap(ema20: real, ema50: real, price: real, p: PivotSet)
    requires ema50 != 0.0
    ensures var c := Evaluate(ema20, ema50, price, p); var d := DiffPct(ema20, ema50);
      ZoneOf(ema20, ema50, price, p) == Undefined <==>
        (d > 0.5 && c.emaAbove != c.abovePivot) || d == 0.5 || (d < 0.5 && !c.insideBand)
  {
  }

  /** A spread of exactly 0.5 % always gives Undefined. */
  lemma HalfPercentIsUndefined(ema20: real, ema50: real, price: real, p: PivotSet)
    requires ema50 != 0.0 && DiffPct(ema20, ema50) == 0.5
    ensures ZoneOf(ema20, ema50, price, p) == Undefined
  {
  }

  /** ema20 105, ema50 100 (spread 5 %), price 106 above PP 100 is Bullish. */
  lemma ZoneExample(p: PivotSet)
    requires p.pp == 100.0
    ensures ZoneOf(105.0, 100.0, 106.0, p) == Bullish
  {
  }

  // ------------------------------------------------------------ projection

  datatype Projection = Projection(target: real, stop: real)

  /** Target and stop from where the price sits on the ladder. */
  function Project(price: real, p: PivotSet): (r: Option<Projection>)
    ensures price < p.pp ==> r == Some(Projection(p.pp, p.s1))
    ensures p.pp <= price < p.r1 ==> r == Some(Projection(p.r1, p.pp))
    ensures p.pp <= price && p.r1 <= price < p.r2 ==> r == Some(Projection(p.r2, p.r1))
    ensures r.None? <==> p.pp <= price && p.r1 <= price && p.r2 <= price
    ensures r.Some? ==> price < r.value.target
    ensures r.Some? && p.pp <= price ==> r.value.stop <= price
  {
    if price < p.pp then Some(Projection(p.pp, p.s1))
    else if p.pp <= price < p.r1 then Some(Projection(p.r1, p.pp))
    else if p.r1 <= price < p.r2 then Some(Projection(p.r2, p.r1))
    else None
  }

  /** On an ordered ladder the branches partition the price line: no
      projection exactly from R2 up, and otherwise the price is below the
      target, and at or above the stop unless it is below S1. */
  lemma ProjectionPartition(price: real, p: PivotSet)
    requires Ordered(p)
    ensures Project(price, p).None? <==> price >= p.r2
    ensures Project(price, p).Some? ==> price < Project(price, p).value.target
    ensures Project(price, p).Some? ==> (Project(price, p).value.stop <= price <==> price >= p.s1)
  {
  }

  /** Python truthiness of a float. */
  predicate Truthy(x: real) { x != 0.0 }

  /** `distance_up / distance_down`, only when target and stop are both truthy
      and the price is not at the stop. */
  function RiskReward(price: real, proj: Option<Projection>): (r: Option<real>)
    ensures r.Some? <==> proj.Some? && proj.value.target != 0.0 && proj.value.stop != 0.0
                         && price != proj.value.stop
    ensures r.Some? ==> r.value * (price - proj.value.stop) == proj.value.target - price
  {
    if proj.Some? && Truthy(proj.value.target) && Truthy(proj.value.stop) then
      var up := proj.value.target - price;
      var down := price - proj.value.stop;
      if down != 0.0 then Some(up / down) else None
    else None
  }

  /** `if ratio and ratio > 1`: the alert is shown exactly when ratio > 1. */
  function Alert(ratio: Option<real>): (a: bool)
    ensures a <==> ratio.Some? && ratio.value > 1.0
  {
    ratio.Some? && Truthy(ratio.value) && ratio.value > 1.0
  }

  /** With the price strictly above a non-zero stop and a non-zero target, the
      alert means there is more room up to the target than down to the stop. */
  lemma AlertMeansMoreRoomUp(price: real, proj: Projection)
    requires proj.target != 0.0 && proj.stop != 0.0 && proj.stop < price
    ensures Alert(RiskReward(price, Some(proj))) <==> proj.target - price > price - proj.stop
  {
    var r := RiskReward(price, Some(proj));
    RatioAboveOne(r.value, proj.target - price, price - proj.stop);
  }

  /** A quotient exceeds one exactly when the dividend exceeds a positive divisor. */
  lemma RatioAboveOne(q: real, up: real, down: real)
    requires down > 0.0 && q * down == up
    ensures q > 1.0 <==> up > down
  {
    if q > 1.0 {
      assert (q - 1.0) * down > 0.0;
    } else {
      assert (1.0 - q) * down >= 0.0;
    }
  }

  /** A price below S1 takes the first branch with the stop above the price:
      the ratio is negative and no alert is shown. */
  lemma BelowS1NoAlert(price: real, p: PivotSet)
    requires Ordered(p) && price < p.s1 && p.s1 != 0.0 && p.pp != 0.0
    ensures Project(price, p) == Some(Projection(p.pp, p.s1))
    ensures RiskReward(price, Project(price, p)).Some?
    ensures RiskReward(price, Project(price, p)).value < 0.0
    ensures !Alert(RiskReward(price, Project(price, p)))
  {
    var r := RiskReward(price, Project(price, p));
    assert r.value * (price - p.s1) == p.pp - price;
  }

  /** price 108 between PP 100 and R1 110: target 110, stop 100, distances 2
      and 8, ratio 0.25, no alert. */
  lemma RatioExample(p: PivotSet)
    requires p.pp == 100.0 && p.r1 == 110.0
    ensures Project(108.0, p) == Some(Projection(110.0, 100.0))
    ensures RiskReward(108.0, Project(108.0, p)) == Some(0.25)
    ensures !Alert(RiskReward(108.0, Project(108.0, p)))
  {
  }

  // ----------------------------------------------------------------- range

  /** The high/low range over the last min(168, n) bars. */
  function Range7d(rows: seq<Row>): (r: (real, real))
    requires |rows| > 0
    ensures var w := Min(WeekBars, |rows|);
      (forall i :: |rows| - w <= i < |rows| ==> rows[i].bar.high <= r.0 && r.1 <= rows[i].bar.low) &&
      (exists i :: |rows| - w <= i < |rows| && rows[i].bar.high == r.0) &&
      (exists i :: |rows| - w <= i < |rows| && rows[i].bar.low == r.1)
  {
    var t := Tail(rows, WeekBars);
    var off := |rows| - |t|;
    assert forall i :: off <= i < |rows| ==> rows[i] == t[i - off];
    (MaxHigh(t), MinLow(t))
  }

  /** The range maximum is at least the minimum when every bar has Low <= High. */
  lemma RangeOrdered(rows: seq<Row>)
    requires |rows| > 0
    requires forall i :: 0 <= i < |rows| ==> rows[i].bar.low <= rows[i].bar.high
    ensures Range7d(rows).1 <= Range7d(rows).0
  {
    var i := |rows| - 1;
    assert |rows| - Min(WeekBars, |rows|) <= i;
  }

  // -------------------------------------------------------------- pipeline

  datatype Report = Report(
    price: real, ema20: real, ema50: real,
    pivots: PivotSet, criteria: Criteria, zone: Zone,
    projection: Option<Projection>, ratio: Option<real>, alert: bool,
    high7d: real, low7d: real)

  /** Everything the dashboard shows once the frame has passed the guard,
      given the last EMA20 and EMA50 values. */
  function Assess(rows: seq<Row>, kind: PivotType, ema20: real, ema50: real): (r: Result<Report>)
    requires |rows| >= MinRows
    ensures r.Err? ==> r.error == TooFewPeriods || r.error == ZeroEma50
    ensures r.Ok? ==> r.value.price == rows[|rows| - 1].bar.close &&
                      r.value.ema20 == ema20 && r.value.ema50 == ema50
  {
    var hlc := ReferenceHLC(rows, kind);
    if hlc.Err? then Err(TooFewPeriods)
    else if ema50 == 0.0 then Err(ZeroEma50)
    else
      var price := rows[|rows| - 1].bar.close;
      var pivots := Pivots(hlc.value);
      var projection := Project(price, pivots);
      var ratio := RiskReward(price, projection);
      var range := Range7d(rows);
      Ok(Report(price, ema20, ema50, pivots, Evaluate(ema20, ema50, price, pivots),
                ZoneOf(ema20, ema50, price, pivots), projection, ratio, Alert(ratio),
                range.0, range.1))
  }

  /** The last value of an EMA column over the whole Close column. */
  function LastEma(rows: seq<Row>, span: nat): real
    requires |rows| > 0 && span >= 1
  {
    EmaSeq(Closes(rows), Alpha(span))[|rows| - 1]
  }

  /** The dashboard as a function of the downloaded frame: cleanup, guard,
      EMAs over the whole Close column, then the assessment. */
  function Dashboard(raw: seq<RawRow>, kind: PivotType): (r: Result<Report>)
    ensures r == Err(InsufficientData) <==> |Clean(raw)| < MinRows
    ensures r.Err? ==> r.error != EmptySeries
  {
    if |DropNa(raw)| < MinRows then Err(InsufficientData)
    else
      var rows := Clean(raw);
      Assess(rows, kind, LastEma(rows, 20), LastEma(rows, 50))
  }

  /** An assessment fails only without a previous period or on a zero EMA50. */
  lemma AssessFailures(rows: seq<Row>, kind: PivotType, ema20: real, ema50: real)
    requires |rows| >= MinRows
    ensures var res := Assess(rows, kind, ema20, ema50);
      (res == Err(TooFewPeriods) <==> |Unique(Keys(rows, kind))| < 2) &&
      (res == Err(ZeroEma50) <==> |Unique(Keys(rows, kind))| >= 2 && ema50 == 0.0) &&
      (res.Err? ==> res.error == TooFewPeriods || res.error == ZeroEma50)
  {
  }

  /** A report shows the last close as price, the given EMA values, the pivots
      of the reference period, and the criteria, zone, projection, ratio, alert
      and 168-bar range derived from them. */
  lemma AssessReport(rows: seq<Row>, kind: PivotType, ema20: real, ema50: real)
    requires |rows| >= MinRows
    requires |Unique(Keys(rows, kind))| >= 2 && ema50 != 0.0
    ensures Assess(rows, kind, ema20, ema50).Ok?
    ensures var r := Assess(rows, kind, ema20, ema50).value;
      r.price == rows[|rows| - 1].bar.close && r.ema20 == ema20 && r.ema50 == ema50 &&
      r.pivots == Pivots(ReferenceHLC(rows, kind).value) &&
      r.criteria == Evaluate(ema20, ema50, r.price, r.pivots) &&
      r.zone == ZoneOf(ema20, ema50, r.price, r.pivots) &&
      r.projection == Project(r.price, r.pivots) &&
      r.ratio == RiskReward(r.price, r.projection) &&
      (r.alert <==> r.ratio.Some? && r.ratio.value > 1.0) &&
      (r.high7d, r.low7d) == Range7d(rows)
  {
  }

  /** How a run can end: a warning below five rows, an index error without a
      previous period, a division error on a zero EMA50, and never the
      empty-frame error of the simple dashboard. */
  lemma DashboardFailures(raw: seq<RawRow>, kind: PivotType)
    ensures var res := Dashboard(raw, kind); var rows := Clean(raw); var n := |rows|;
      (res == Err(InsufficientData) <==> n < MinRows) &&
      (res == Err(TooFewPeriods) <==> n >= MinRows && |Unique(Keys(rows, kind))| < 2) &&
      (res == Err(ZeroEma50) <==> n >= MinRows && |Unique(Keys(rows, kind))| >= 2 &&
                                  LastEma(rows, 50) == 0.0) &&
      res != Err(EmptySeries)
  {
    var rows := Clean(raw);
    if |rows| >= MinRows {
      AssessFailures(rows, kind, LastEma(rows, 20), LastEma(rows, 50));
    }
  }

  /** All closes positive: EMA50 is positive, so the run never fails dividing by it. */
  lemma DashboardDivisionSafe(raw: seq<RawRow>, kind: PivotType)
    requires AllClosesPositive(Clean(raw))
    ensures Dashboard(raw, kind) != Err(ZeroEma50)
  {
    var rows := Clean(raw);
    if |rows| >= MinRows {
      var closes := Closes(rows);
      forall j | 0 <= j < |closes| ensures closes[j] > 0.0 {
        assert closes[j] == rows[j].bar.close;
      }
      EmaPositive(closes, Alpha(50), |rows| - 1);
      assert LastEma(rows, 50) > 0.0;
      AssessFailures(rows, kind, LastEma(rows, 20), LastEma(rows, 50));
    }
  }

  /** With well-formed bars the reported pivot ladder is ordered. */
  lemma DashboardLadderOrdered(raw: seq<RawRow>, kind: PivotType)
    requires AllWellFormed(Clean(raw))
    requires Dashboard(raw, kind).Ok?
    ensures Ordered(Dashboard(raw, kind).value.pivots)
  {
    var rows := Clean(raw);
    DashboardFailures(raw, kind);
    AssessReport(rows, kind, LastEma(rows, 20), LastEma(rows, 50));
    ReferenceCloseWithin(rows, kind);
    LadderOrdered(ReferenceHLC(rows, kind).value);
  }

  /** Both reported EMAs lie within any bounds that hold for every close. */
  lemma DashboardEmaWithinCloses(raw: seq<RawRow>, kind: PivotType, lo: real, hi: real)
    requires Dashboard(raw, kind).Ok?
    requires forall i :: 0 <= i < |Clean(raw)| ==> lo <= Clean(raw)[i].bar.close <= hi
    ensures lo <= Dashboard(raw, kind).value.ema20 <= hi
    ensures lo <= Dashboard(raw, kind).value.ema50 <= hi
  {
    var rows := Clean(raw);
    var closes := Closes(rows);
    forall j | 0 <= j <= |rows| - 1 ensures lo <= closes[j] <= hi {
      assert closes[j] == rows[j].bar.close;
    }
    EmaBounded(closes, Alpha(20), |rows| - 1, lo, hi);
    EmaBounded(closes, Alpha(50), |rows| - 1, lo, hi);
    DashboardFailures(raw, kind);
    AssessReport(rows, kind, LastEma(rows, 20), LastEma(rows, 50));
  }

  /** One run of the dashboard: cleanup, the guard, the EMA columns
      filled by the left-to-right fold, then the assessment of the last row. */
  method Analyze(raw: seq<RawRow>, kind: PivotType) returns (res: Result<Report>)
    ensures res == Dashboard(raw, kind)
  {
    var kept := DropNa(raw);
    if |kept| < MinRows {
      return Err(InsufficientData);
    }
    var rows := Clean(raw);
    var n := |rows|;
    var closes := Closes(rows);
    var ema20Column := EmaFold(closes, 20);
    var ema50Column := EmaFold(closes, 50);
    assert ema20Column[..][n - 1] == ema20Column[n - 1];
    assert ema50Column[..][n - 1] == ema50Column[n - 1];
    res := Assess(rows, kind, ema20Column[n - 1], ema50Column[n - 1]);
  }
}
