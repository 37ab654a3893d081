/** The exponential moving average both dashboards add as the EMA20 and EMA50
    columns: pandas `ewm(span=N, adjust=False).mean()` over the Close column,
    which starts at the first close and folds every later close in with weight
    alpha = 2 / (N + 1). */
module Ema {

  /** The smoothing factor of a span. */
  function Alpha(span: nat): (a: real)
    requires span >= 1
    ensures 0.0 < a <= 1.0
  {
    2.0 / (span as real + 1.0)
  }

  /** The EMA column, defined by growing the series one close at a time. */
  function EmaSeq(closes: seq<real>, alpha: real): (e: seq<real>)
    ensures |e| == |closes|
    decreases |closes|
  {
    if |closes| == 0 then []
    else if |closes| == 1 then [closes[0]]
    else
      var prev := EmaSeq(closes[..|closes| - 1], alpha);
      prev + [alpha * closes[|closes| - 1] + (1.0 - alpha) * prev[|prev| - 1]]
  }

  /** The EMA of a prefix is the prefix of the EMA: later closes never change
      an earlier value. */
  lemma {:induction false} EmaPrefix(closes: seq<real>, alpha: real, n: nat)
    requires n <= |closes|
    ensures EmaSeq(closes[..n], alpha) == EmaSeq(closes, alpha)[..n]
    decreases |closes|
  {
    if n < |closes| {
      var shorter := closes[..|closes| - 1];
      assert closes[..n] == shorter[..n];
      EmaPrefix(shorter, alpha, n);
    } else {
      assert closes[..n] == closes;
    }
  }

  /** The recurrence, pointwise: the first value is the first close, and each
      later value is alpha * close + (1 - alpha) * previous value. */
  lemma EmaRecurrence(closes: seq<real>, alpha: real, i: nat)
    requires i < |closes|
    ensures i == 0 ==> EmaSeq(closes, alpha)[0] == closes[0]
    ensures i > 0 ==> EmaSeq(closes, alpha)[i]
                      == alpha * closes[i] + (1.0 - alpha) * EmaSeq(closes, alpha)[i - 1]
  {
    EmaPrefix(closes, alpha, i + 1);
    var pre := closes[..i + 1];
    assert pre[..i] == closes[..i];
    if i > 0 {
      EmaPrefix(closes, alpha, i);
    }
  }

  /** With 0 <= alpha <= 1 every EMA value lies within any bounds that hold
      for all closes seen so far, i.e. between their minimum and maximum. */
  lemma {:induction false} EmaBounded(closes: seq<real>, alpha: real, i: nat, lo: real, hi: real)
    requires 0.0 <= alpha <= 1.0
    requires i < |closes|
    requires forall j :: 0 <= j <= i ==> lo <= closes[j] <= hi
    ensures lo <= EmaSeq(closes, alpha)[i] <= hi
  {
    EmaRecurrence(closes, alpha, i);
    if i > 0 {
      EmaBounded(closes, alpha, i - 1, lo, hi);
      Convex(alpha, closes[i], EmaSeq(closes, alpha)[i - 1], lo, hi);
    }
  }

  /** A convex combination of two values in [lo, hi] stays in [lo, hi]. */
  lemma Convex(alpha: real, x: real, y: real, lo: real, hi: real)
    requires 0.0 <= alpha <= 1.0
    requires lo <= x <= hi && lo <= y <= hi
    ensures lo <= alpha * x + (1.0 - alpha) * y <= hi
  {
    assert alpha * (x - lo) >= 0.0;
    assert (1.0 - alpha) * (y - lo) >= 0.0;
    assert alpha * (hi - x) >= 0.0;
    assert (1.0 - alpha) * (hi - y) >= 0.0;
  }

  /** Positive closes give a positive EMA everywhere: dividing by it is safe. */
  lemma {:induction false} EmaPositive(closes: seq<real>, alpha: real, i: nat)
    requires 0.0 <= alpha <= 1.0
    requires i < |closes|
    requires forall j :: 0 <= j < |closes| ==> closes[j] > 0.0
    ensures EmaSeq(closes, alpha)[i] > 0.0
  {
    EmaRecurrence(closes, alpha, i);
    if i > 0 {
      EmaPositive(closes, alpha, i - 1);
      var x, y := closes[i], EmaSeq(closes, alpha)[i - 1];
      var lo := if x < y then x else y;
      var hi := if x < y then y else x;
      assert lo > 0.0;
      Convex(alpha, x, y, lo, hi);
      assert EmaSeq(closes, alpha)[i] == alpha * x + (1.0 - alpha) * y;
      assert lo <= EmaSeq(closes, alpha)[i];
    } else {
      assert closes[0] > 0.0;
    }
  }

  /** `ewm(span, adjust=False).mean()`: fills the EMA column left to right. */
  method EmaFold(closes: seq<real>, span: nat) returns (ema: array<real>)
    requires span >= 1
    ensures ema.Length == |closes|
    ensures ema[..] == EmaSeq(closes, Alpha(span))
  {
    var alpha := Alpha(span);
    ema := new real[|closes|];
    var i := 0;
    while i < |closes|
      invariant 0 <= i <= |closes|
      invariant ema[..i] == EmaSeq(closes[..i], alpha)
    {
      ghost var grown := closes[..i + 1];
      ghost var done := ema[..i];
      assert grown[..i] == closes[..i] && grown[i] == closes[i];
      if i == 0 {
        ema[0] := closes[0];
      } else {
        ema[i] := alpha * closes[i] + (1.0 - alpha) * ema[i - 1];
        assert done[i - 1] == ema[i - 1];
        assert EmaSeq(grown, alpha)[..i] == done;
        assert EmaSeq(grown, alpha)[i] == ema[i];
      }
      assert ema[..i + 1] == done + [ema[i]];
      assert EmaSeq(grown, alpha) == EmaSeq(grown, alpha)[..i] + [EmaSeq(grown, alpha)[i]];
      i := i + 1;
    }
    assert closes[..i] == closes;
    assert ema[..i] == ema[..];
  }
}
