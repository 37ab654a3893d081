# Pivot and indicator engine of the market dashboards

This project models the computing core of two Streamlit market dashboards
and proves properties of it in Dafny. Both dashboards download OHLC bars,
drop incomplete rows, add EMA20 and EMA50 columns, and compute classical
floor-trader pivots from a previous reference period. scanner.py always
downloads hourly bars. app.py downloads bars at the interval the user picks:
15m, 30m, 60m (the default) or 1d.

- `app.py` is the full dashboard. After a five-row guard it does the
  following:
  - computes pivots from the previous day, ISO week or month;
  - evaluates four technical criteria and classifies the zone (bullish,
    bearish, lateral or undefined) by first match;
  - projects a target and a stop from the pivot ladder;
  - computes a risk/reward ratio and raises an alert when it exceeds one;
  - reports the high/low range of the last 168 bars (`tail(7 * 24)`). That
    is seven calendar days only for a market that trades around the clock.
    For the listed equities at 60m, it is the whole 30-day download.
- `scanner.py` is the simple dashboard. It shows the last close and both
  EMAs rounded to cents. Its pivots come from the previous date and are also
  rounded to cents. R1, R2, S1 and S2 are computed from the rounded PP.

Modules:

- `Market` (market.dfy) holds the data model shared by both dashboards:
  - bars, timestamps reduced to their calendar keys, and raw rows with
    optional fields;
  - the `dropna` cleanup;
  - the column aggregates max High, min Low and `tail`.
- `Ema` (ema.dfy) holds `ewm(span, adjust=False).mean()`:
  - a specification by prefix recursion, with its recurrence, bounds and
    positivity lemmas;
  - `EmaFold`, the left-to-right loop that fills the EMA column (an array)
    and is proved equal to the specification.
- `Periods` (periods.dfy) holds the reference-period selection:
  - `unique()` in first-appearance order, the boolean mask, and `iloc[-1]`;
  - the high, low and last close of the second-to-last distinct key.
- `App` (app.dfy) models app.py:
  - the pivots, criteria, zone, projection, ratio, alert and range;
  - the whole run, as the function `Dashboard` and the straight-line method
    `Analyze`, which is proved to compute it.
- `Scanner` (scanner.py model, in scanner.dfy) holds:
  - the cent rounding and the rounded pivot ladder;
  - the run, as the function `ScanOf` and the method `Scan`.

Prices are real numbers. Every way a run can stop early is an error value of
`Market.Failure`:

- `InsufficientData`: the warning branch taken below five rows.
- `EmptySeries`: the index error of `iloc[-1]` on an empty frame.
- `TooFewPeriods`: the index error of `unique()[-2]` when there are fewer
  than two distinct keys.
- `ZeroEma50`: the division by an EMA50 of zero.

Behaviours of the code that the model keeps:

- `dropna()` is called without a column subset. A row missing only its
  Volume is therefore dropped too.
- The full dashboard needs at least five rows after cleanup.
- The simple dashboard has no length guard. An empty frame is an error
  there.
- The pivot ladder S2 ≤ S1 ≤ PP ≤ R1 ≤ R2 is not ordered merely because
  high ≥ low. It is ordered exactly when low ≤ PP ≤ high
  (`App.LadderOrderedIff`), for example when the last close lies within the
  period's range. For high 110, low 90 and close 200, PP is 133.33 and R1
  is 176.67, so PP lies above the high and the ladder is not ordered.
- Once rounded, the inner rungs keep their order when low ≤ close_prev ≤
  high (`Scanner.RoundedInnerOrder`). PP ≤ R1 then always holds. S1 ≤ PP
  holds unless the period is flat (high = low). In the model, half-up
  rounding of a tie can invert them there. With the model's `Round2`, high =
  low = close = 10.005 give PP 10.01 and S1 10.02
  (`Scanner.RoundedFlatTieInverts`). Python's half-even `round` on binary
  floats gives PP = S1 = 10.01 for that input. The outer rungs keep theirs whenever
  the rounded PP stays within the period's range
  (`Scanner.RoundedOuterOrder`). Rounding can push PP past the high of a
  well-formed period. High 10.008, low 10.004 and close 10.008 give PP
  10.01, R1 10.02 and R2 10.01, so R1 lies above R2
  (`Scanner.RoundedLadderInverts`).

## Model

| member | source | states |
|---|---|---|
| Market.DropNa | app.py:49 | the kept rows are exactly the complete rows of the frame, none added |
| Market.DropNaConcat | app.py:49 | dropping rows commutes with concatenation, so kept rows keep their relative order |
| Market.DropNaComplete | app.py:49 | a frame with no missing value is left unchanged |
| Market.DropNaIdempotent | scanner.py:16 | running `dropna` twice is the same as running it once |
| Market.MaxHigh | app.py:76 | the max of the High column bounds every row's high and is some row's high |
| Market.MinLow | app.py:77 | the min of the Low column bounds every row's low and is some row's low |
| Market.Clean | app.py:49 | the clean frame has one bar per row kept by `dropna`, carrying that row's stamp and prices, in order |
| Market.Tail | app.py:164-165 | `tail(k)` has min(k, n) rows, which are the last rows of the frame in order |
| Ema.Alpha | app.py:56-57 | the smoothing factor 2/(N+1) of a span N ≥ 1 lies in (0, 1] |
| Ema.EmaSeq | app.py:56-57 | the EMA column has one value per close |
| Ema.EmaPrefix | app.py:56-57 | the EMA of a prefix of the closes is the prefix of the EMA: later closes never change earlier values |
| Ema.EmaRecurrence | scanner.py:19-20 | the first EMA value is the first close; each later value is alpha·close + (1 − alpha)·previous value |
| Ema.EmaBounded | app.py:56-57 | every EMA value lies within any bounds that hold for all closes up to it |
| Ema.EmaPositive | app.py:102 | positive closes give a positive EMA at every position, so dividing by EMA50 is safe |
| Ema.EmaFold | app.py:56-57 | the left-to-right loop fills an array of the closes' length with exactly the EMA column |
| Periods.Keys | app.py:61-63 | the key column has one key per row, the row's date, week or month |
| Periods.Unique | app.py:66 | `unique()` has every key of the column and no other, each once |
| Periods.UniqueFirstAppearance | app.py:66 | `unique()` lists keys in order of their first occurrence in the column |
| Periods.TwoKeysIffDiffer | app.py:65-73 | there are at least two distinct keys exactly when two rows carry different keys |
| Periods.Select | app.py:67 | the boolean mask keeps exactly the rows carrying the selected key |
| Periods.LastIndexOf | app.py:78 | the index found is the last row carrying the key, or -1 when no row carries it |
| Periods.SelectLast | app.py:78 | the mask is empty only when no row has the key; otherwise its last row is the frame's last row with that key |
| Periods.ReferenceHLC | app.py:65-83 | the reference period fails exactly when there are fewer than two distinct keys, and the failure is the `[-2]` index error |
| Periods.RefKey | app.py:66 | the reference key `unique()[-2]` is a key of the frame, and not the most recent one |
| Periods.RefKeySecondToLast | app.py:66 | the reference key first occurs before the most recent key, and every key first occurring after it is the most recent key: it is the second-to-last distinct key in first-appearance order |
| Periods.ReferenceBounds | app.py:76-77 | high and low bound the High and Low of every row of the reference period |
| Periods.ReferenceAttained | app.py:76-77 | high and low are the High and Low of rows of the reference period |
| Periods.ReferenceClose | app.py:78 | close_prev is the Close of the last row of the reference period |
| Periods.ReferenceCloseWithin | scanner.py:32-34 | with well-formed bars, close_prev lies between the reference low and high |
| App.Pivots | app.py:85-89 | 3·PP = H + L + C; R1 and S1 mirror L and H around PP; R2 + S2 = 2·PP; R1 − S1 = H − L; R2 − S2 = 2·(H − L) |
| App.LadderOrderedIff | app.py:85-89 | the ladder S2 ≤ S1 ≤ PP ≤ R1 ≤ R2 is ordered exactly when low ≤ PP ≤ high |
| App.LadderOrdered | app.py:85-89 | if low ≤ close_prev ≤ high, the ladder is ordered |
| App.PivotsExample | app.py:85-89 | high 110, low 90 and close 100 give PP 100, R1 110, R2 120, S1 90, S2 80 |
| App.DiffPct | app.py:102 | the spread percentage times EMA50 is 100·\|EMA20 − EMA50\|, and it is non-negative for a positive EMA50 |
| App.Evaluate | app.py:102-108 | the four criteria: EMA20 above EMA50; the EMAs differ by more than 0.5 % of a positive EMA50 (never for a negative one); price above PP; price strictly between S1 and R1 |
| App.SpreadWide | app.py:102-105 | a spread percentage above 0.5 means exactly that EMA50 is positive and 200·\|EMA20 − EMA50\| exceeds it |
| App.SpreadPos | app.py:102-105 | for a positive EMA50 e with d·e = 100·\|EMA20 − EMA50\|, the spread d exceeds 0.5 exactly when 200·\|EMA20 − EMA50\| exceeds e |
| App.ZoneOf | app.py:112-120 | first-match classification: each of Bullish, Bearish and Lateral holds exactly under its own condition, so exactly one label results |
| App.UndefinedGap | app.py:113-120 | Undefined holds exactly when trend and price disagree on a wide spread, when the spread is exactly 0.5 %, or when a narrow spread meets a price outside (S1, R1) |
| App.HalfPercentIsUndefined | app.py:105-117 | a spread of exactly 0.5 % always gives Undefined |
| App.ZoneExample | app.py:113-114 | ema20 105, ema50 100 and price 106 above PP 100 give Bullish |
| App.Project | app.py:127-140 | below PP: (PP, S1); from PP below R1: (R1, PP); from R1 below R2: (R2, R1); no projection exactly when the price is at or above PP, R1 and R2; the target is always above the price |
| App.ProjectionPartition | app.py:127-140 | on an ordered ladder there is no projection exactly when price ≥ R2; the stop is at or below the price exactly when price ≥ S1 |
| App.RiskReward | app.py:142-145 | a ratio exists exactly when there is a projection, target and stop are non-zero and the price is not at the stop; ratio · distance down = distance up |
| App.Alert | app.py:147 | the alert is raised exactly when a ratio exists and exceeds 1 |
| App.AlertMeansMoreRoomUp | app.py:142-153 | with the price above a non-zero stop, the alert means exactly that the target is farther away than the stop |
| App.BelowS1NoAlert | app.py:127-147 | below S1 on an ordered ladder the stop is above the price, the ratio is negative and no alert is shown |
| App.RatioExample | app.py:131-147 | price 108 with PP 100 and R1 110 gives target 110, stop 100, ratio 0.25 and no alert |
| App.Range7d | app.py:164-167 | the range max bounds and is attained by a High of the last min(168, n) bars; the min likewise for Low |
| App.RangeOrdered | app.py:164-167 | when every bar has Low ≤ High, the range min is at most the range max |
| App.Assess | app.py:65-167 | past the guard, a run fails only with the `[-2]` index error or the division error; a report shows the last close and the given EMAs |
| App.Dashboard | app.py:49-167 | a run warns exactly when fewer than five clean rows remain, and never hits the empty-frame error |
| App.AssessFailures | app.py:65-102 | past the guard, a run fails with the index error exactly without two distinct keys, and with the division error exactly on a zero EMA50 |
| App.AssessReport | app.py:76-167 | past the guard, with two distinct keys and a non-zero EMA50 the run yields a report: the last close, the given EMAs, the reference pivots, and the criteria, zone, projection, ratio, alert and 168-bar range derived from them |
| App.DashboardFailures | app.py:49-102 | a run warns exactly below five clean rows, fails at `[-2]` exactly without two distinct keys, fails at the division exactly on a zero EMA50, and never hits the empty-frame error |
| App.DashboardDivisionSafe | app.py:102 | with all closes positive, a run never fails dividing by EMA50 |
| App.DashboardLadderOrdered | app.py:76-89 | with well-formed bars, the reported pivot ladder is ordered |
| App.DashboardEmaWithinCloses | app.py:56-99 | the reported EMA20 and EMA50 lie within any bounds that hold for every close |
| App.Analyze | app.py:48-167 | the straight-line run, with EMA columns filled by the fold, computes exactly `App.Dashboard` |
| Scanner.Round2 | scanner.py:24-26 | `round(x, 2)` is a whole number of cents within half a cent of x |
| Scanner.Round2OfCents | scanner.py:36-40 | a value already in cents is left unchanged by rounding |
| Scanner.RoundedPivots | scanner.py:36-40 | every rung is in cents and within half a cent of its formula on the rounded PP; R1 − S1 is within a cent of H − L; R2 + S2 is within a cent of 2·PP |
| Scanner.RoundedInnerOrder | scanner.py:36-40 | if low ≤ close_prev ≤ high, the rounded PP ≤ R1, and S1 ≤ PP unless the period is flat |
| Scanner.Round2Monotone | scanner.py:36-40 | rounding keeps the order of its arguments |
| Scanner.RoundedOuterOrder | scanner.py:36-40 | rounded R1 ≤ R2 when the rounded PP is at most the high; rounded S2 ≤ S1 when it is at least the low |
| Scanner.RoundedLadderInverts | scanner.py:36-40 | high 10.008, low 10.004 and close 10.008 give PP 10.01, R1 10.02 and R2 10.01: the rounded ladder inverts on a well-formed period |
| Scanner.RoundedFlatTieInverts | scanner.py:36-40 | under the model's half-up `Round2`, high = low = close = 10.005 give PP 10.01 and S1 10.02: a flat period on a half-cent tie puts S1 above PP |
| Scanner.RoundedPivotsExample | scanner.py:36-40 | high 110, low 90 and close 100 give exactly PP 100, R1 110, R2 120, S1 90, S2 80 |
| Scanner.ScanOf | scanner.py:15-40 | a run fails only with the empty-frame index error or the `[-2]` index error |
| Scanner.ScanOutcomes | scanner.py:16-40 | an empty clean frame is the index error, a single date is the `[-2]` error, there is no other error, and otherwise the run yields a report whose price and EMAs are cents within half a cent of the last row's values and whose pivots are the rounded ladder of the previous date |
| Scanner.OneDateFails | scanner.py:30 | a frame whose rows all share one date has no previous day |
| Scanner.Scan | scanner.py:15-40 | the straight-line run, with EMA columns filled by the fold, computes exactly `Scanner.ScanOf` |

## Left out

- The Streamlit user interface is not modelled. This covers the selectors,
  CSS, markdown and HTML output, the checklist display, the pivot-zone
  caption, `st.dataframe(df.tail())` in the warning branch, and the rounding
  of displayed distances and ratio. It is presentation only.
- The `yf.download` calls are not modelled. The downloaded frame is the
  input of `App.Dashboard` and `Scanner.ScanOf`.
- aimarketmap_api.py is not part of this model. It is network plumbing
  around vendor fetches.
- analysis.py is not part of this model. It is prompt templating around a
  chat-completion call.
- Calendar derivation from timestamps is not modelled. The date, ISO week
  and month of a bar are given integer keys. The week and month keys carry
  no year, as in the source.
- Floating point is not modelled. Prices are exact reals, so IEEE rounding
  and the `.item()` / `float()` conversions are left out.
- Scanner.Round2: rounds exact halves upward instead of using Python's
  half-even rule on binary floats. Only the cents and half-a-cent bounds
  are claimed.
- Scanner.RoundedInnerOrder: claims S1 ≤ PP only for a period with
  low < high. Under the model's half-up rounding, a flat period on a
  half-cent tie inverts them (`Scanner.RoundedFlatTieInverts`). It claims no order for the outer rungs
  (S2 ≤ S1, R1 ≤ R2) of the rounded ladder. Rounding can push PP past the period's
  high or low and invert them (`Scanner.RoundedLadderInverts`). Their order
  is claimed only under `Scanner.RoundedOuterOrder`'s conditions.
- The DataFrame is not updated in place. The columns the scripts add are
  local sequences of the methods `App.Analyze` and `Scanner.Scan`. No other
  code observes the frame, so no aliasing is lost.
- Rows are taken in the order the download returns them. pandas `unique`,
  masks, `iloc` and `tail` are modelled as sequence operations in that
  order.
