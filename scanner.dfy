/** The simple dashboard (scanner.py): hourly bars, no length guard, the same
    EMA columns, the last row shown rounded to cents, and pivots from the
    previous calendar date rounded to cents, with R1, R2, S1 and S2 computed
    from the rounded PP. */
module Scanner {
  import opened Market
  import opened Ema
  import opened Periods

  // -------------------------------------------------------------- rounding

  /** x is a whole number of cents. */
  predicate IsCents(x: real) {
    (x * 100.0).Floor as real == x * 100.0
  }

  /** `round(x, 2)`, rounding halves upward. */
  function Round2(x: real): (r: real)
    ensures IsCents(r)
    ensures x - 0.005 < r <= x + 0.005
  {
    var k := (x * 100.0 + 0.5).Floor;
    assert (k as real / 100.0) * 100.0 == k as real;
    k as real / 100.0
  }

  /** A value already in cents is left as it is. */
  lemma Round2OfCents(x: real)
    requires IsCents(x)
    ensures Round2(x) == x
  {
    var k := (x * 100.0).Floor;
    assert x * 100.0 + 0.5 == k as real + 0.5;
    assert (x * 100.0 + 0.5).Floor == k;
  }

  /** Rounding keeps the order of its arguments. */
  lemma Round2Monotone(x: real, y: real)
    requires x <= y
    ensures Round2(x) <= Round2(y)
  {
    var kx := (x * 100.0 + 0.5).Floor;
    var ky := (y * 100.0 + 0.5).Floor;
    assert kx as real <= x * 100.0 + 0.5 <= y * 100.0 + 0.5 < ky as real + 1.0;
    assert kx <= ky;
  }

  /** Two cent values less than a cent apart from below are ordered. */
  lemma CentsGap(a: real, b: real)
    requires IsCents(a) && IsCents(b)
    requires a > b - 0.01
    ensures a >= b
  {
    var ka := (a * 100.0).Floor;
    var kb := (b * 100.0).Floor;
    assert a * 100.0 == ka as real && b * 100.0 == kb as real;
    assert a * 100.0 > b * 100.0 - 1.0;
    assert ka > kb - 1;
    assert ka as real >= kb as real;
  }

  // ---------------------------------------------------------------- pivots

  /** The displayed pivot ladder: PP rounded first, the other four levels
      computed from the rounded PP and then rounded. */
  function RoundedPivots(h: HLC): (p: PivotSet)
    ensures IsCents(p.pp) && IsCents(p.r1) && IsCents(p.r2) && IsCents(p.s1) && IsCents(p.s2)
    ensures -0.005 < p.pp - (h.high + h.low + h.close) / 3.0 <= 0.005
    ensures -0.005 < p.r1 - (2.0 * p.pp - h.low) <= 0.005
    ensures -0.005 < p.r2 - (p.pp + (h.high - h.low)) <= 0.005
    ensures -0.005 < p.s1 - (2.0 * p.pp - h.high) <= 0.005
    ensures -0.005 < p.s2 - (p.pp - (h.high - h.low)) <= 0.005
    ensures -0.01 < (p.r1 - p.s1) - (h.high - h.low) < 0.01
    ensures -0.01 < (p.r2 + p.s2) - 2.0 * p.pp <= 0.01
  {
    var pp := Round2((h.high + h.low + h.close) / 3.0);
    var r1 := Round2(2.0 * pp - h.low);
    var r2 := Round2(pp + (h.high - h.low));
    var s1 := Round2(2.0 * pp - h.high);
    var s2 := Round2(pp - (h.high - h.low));
    PivotSet(pp, r1, r2, s1, s2)
  }

  /** Rounding does not push R1 below PP; nor S1 above PP unless the period
      is a single flat price. */
  lemma RoundedInnerOrder(h: HLC)
    requires h.low <= h.close <= h.high
    ensures RoundedPivots(h).pp <= RoundedPivots(h).r1
    ensures h.low < h.high ==> RoundedPivots(h).s1 <= RoundedPivots(h).pp
  {
    var p := RoundedPivots(h);
    CentsGap(p.r1, p.pp);
    if h.low < h.high {
      CentsGap(p.pp, p.s1);
    }
  }

  /** The outer rungs keep their order whenever the rounded PP stays
      within the period's range: R1 <= R2 when PP <= high, S2 <= S1 when
      low <= PP. */
  lemma RoundedOuterOrder(h: HLC)
    ensures RoundedPivots(h).pp <= h.high ==> RoundedPivots(h).r1 <= RoundedPivots(h).r2
    ensures h.low <= RoundedPivots(h).pp ==> RoundedPivots(h).s2 <= RoundedPivots(h).s1
  {
    var pp := RoundedPivots(h).pp;
    if pp <= h.high {
      Round2Monotone(2.0 * pp - h.low, pp + (h.high - h.low));
    }
    if h.low <= pp {
      Round2Monotone(pp - (h.high - h.low), 2.0 * pp - h.high);
    }
  }

  /** A well-formed period whose PP rounds up past its high: high 10.008,
      low 10.004, close 10.008 give PP 10.01 > high, then R1 10.02 above
      R2 10.01. */
  lemma RoundedLadderInverts()
    ensures var p := RoundedPivots(HLC(10.008, 10.004, 10.008));
      p.pp == 10.01 && p.r1 == 10.02 && p.r2 == 10.01 && p.r1 > p.r2
  {
    assert (30.02 / 3.0 * 100.0 + 0.5).Floor == 1001;
    assert (10.016 * 100.0 + 0.5).Floor == 1002;
    assert (10.014 * 100.0 + 0.5).Floor == 1001;
  }

  /** A flat period on a half-cent tie under half-up rounding: high = low =
      close = 10.005 give PP 10.01 and S1 10.02, so S1 lies above PP. */
  lemma RoundedFlatTieInverts()
    ensures var p := RoundedPivots(HLC(10.005, 10.005, 10.005));
      p.pp == 10.01 && p.s1 == 10.02 && p.s1 > p.pp
  {
    assert (30.015 / 3.0 * 100.0 + 0.5).Floor == 1001;
    assert (10.015 * 100.0 + 0.5).Floor == 1002;
  }

  /** high 110, low 90, close 100 gives exactly PP 100, R1 110, R2 120,
      S1 90, S2 80. */
  lemma RoundedPivotsExample()
    ensures RoundedPivots(HLC(110.0, 90.0, 100.0)) == PivotSet(100.0, 110.0, 120.0, 90.0, 80.0)
  {
    Round2OfCents(100.0);
    Round2OfCents(110.0);
    Round2OfCents(120.0);
    Round2OfCents(90.0);
    Round2OfCents(80.0);
  }

  // -------------------------------------------------------------- pipeline

  datatype ScanReport = ScanReport(price: real, ema20: real, ema50: real, pivots: PivotSet)

  /** The simple dashboard as a function of the downloaded frame. */
  function ScanOf(raw: seq<RawRow>): (r: Result<ScanReport>)
    ensures r.Err? ==> r.error == EmptySeries || r.error == TooFewPeriods
  {
    var rows := Clean(raw);
    var n := |rows|;
    if n == 0 then Err(EmptySeries)
    else
      var closes := Closes(rows);
      var hlc := ReferenceHLC(rows, Day);
      if hlc.Err? then Err(TooFewPeriods)
      else Ok(ScanReport(Round2(rows[n - 1].bar.close),
                         Round2(EmaSeq(closes, Alpha(20))[n - 1]),
                         Round2(EmaSeq(closes, Alpha(50))[n - 1]),
                         RoundedPivots(hlc.value)))
  }

  /** How a run can end: an index error on an empty frame, another when all
      rows share one date, no other error, and otherwise a report with the
      last row's values shown in cents, each within half a cent of its
      full-precision value. */
  lemma ScanOutcomes(raw: seq<RawRow>)
    ensures var res := ScanOf(raw); var rows := Clean(raw); var n := |rows|;
      (res == Err(EmptySeries) <==> |DropNa(raw)| == 0) &&
      (res == Err(TooFewPeriods) <==> n > 0 && |Unique(Keys(rows, Day))| < 2) &&
      (res.Err? ==> res.error == EmptySeries || res.error == TooFewPeriods) &&
      (res.Ok? <==> n > 0 && |Unique(Keys(rows, Day))| >= 2) &&
      (res.Ok? ==>
         IsCents(res.value.price) && IsCents(res.value.ema20) && IsCents(res.value.ema50) &&
         -0.005 < res.value.price - rows[n - 1].bar.close <= 0.005 &&
         -0.005 < res.value.ema20 - EmaSeq(Closes(rows), Alpha(20))[n - 1] <= 0.005 &&
         -0.005 < res.value.ema50 - EmaSeq(Closes(rows), Alpha(50))[n - 1] <= 0.005 &&
         res.value.pivots == RoundedPivots(ReferenceHLC(rows, Day).value))
  {
  }

  /** A frame whose rows all fall on one date has no previous day. */
  lemma OneDateFails(raw: seq<RawRow>)
    requires |Clean(raw)| > 0
    requires forall i :: 0 <= i < |Clean(raw)| ==> Clean(raw)[i].stamp.day == Clean(raw)[0].stamp.day
    ensures ScanOf(raw) == Err(TooFewPeriods)
  {
    var keys := Keys(Clean(raw), Day);
    TwoKeysIffDiffer(keys);
  }

  /** One run of the simple dashboard: the straight-line script, with the
      EMA columns filled by the left-to-right fold. */
  method Scan(raw: seq<RawRow>) returns (res: Result<ScanReport>)
    ensures res == ScanOf(raw)
  {
    var rows := Clean(raw);
    var closes := Closes(rows);
    var ema20Column := EmaFold(closes, 20);
    var ema50Column := EmaFold(closes, 50);

    var n := |rows|;
    if n == 0 {
      return Err(EmptySeries);
    }
    assert ema20Column[..][n - 1] == ema20Column[n - 1];
    assert ema50Column[..][n - 1] == ema50Column[n - 1];
    var price := Round2(rows[n - 1].bar.close);
    var ema20 := Round2(ema20Column[n - 1]);
    var ema50 := Round2(ema50Column[n - 1]);

    var hlc := ReferenceHLC(rows, Day);
    if hlc.Err? {
      return Err(TooFewPeriods);
    }
    res := Ok(ScanReport(price, ema20, ema50, RoundedPivots(hlc.value)));
  }
}
