/** Reference-period selection: the rows are grouped by a calendar key (date,
    ISO week or month), the distinct keys are listed in order of first
    appearance (pandas `unique()`), the second-to-last of them names the
    reference period, and that period's rows give high, low and close_prev. */
module Periods {
  import opened Market

  /** The grouping the dashboard offers for pivots. */
  datatype PivotType = Day | Week | Month

  function KeyOf(s: Stamp, kind: PivotType): int {
    match kind
    case Day => s.day
    case Week => s.week
    case Month => s.month
  }

  /** The key column for a grouping. */
  function Keys(rows: seq<Row>, kind: PivotType): (ks: seq<int>)
    ensures |ks| == |rows|
    ensures forall i :: 0 <= i < |rows| ==> ks[i] == KeyOf(rows[i].stamp, kind)
  {
    seq(|rows|, i requires 0 <= i < |rows| => KeyOf(rows[i].stamp, kind))
  }

  /** `unique()`: every key once, in order of first appearance. */
  function Unique(keys: seq<int>): (u: seq<int>)
    ensures |u| <= |keys|
    ensures forall k :: k in u <==> k in keys
    ensures forall i, j :: 0 <= i < j < |u| ==> u[i] != u[j]
    decreases |keys|
  {
    if |keys| == 0 then []
    else
      var last := keys[|keys| - 1];
      var seen := Unique(keys[..|keys| - 1]);
      assert keys == keys[..|keys| - 1] + [last];
      if last in seen then seen else seen + [last]
  }

  /** Position i is where x first occurs in s. */
  predicate FirstAt(s: seq<int>, x: int, i: int) {
    0 <= i < |s| && s[i] == x && x !in s[..i]
  }

  /** `unique()` lists keys in the order in which they first occur. */
  lemma {:induction false} UniqueFirstAppearance(keys: seq<int>, i: nat, j: nat, p: int, q: int)
    requires i < j < |Unique(keys)|
    requires FirstAt(keys, Unique(keys)[i], p)
    requires FirstAt(keys, Unique(keys)[j], q)
    ensures p < q
    decreases |keys|
  {
    var n := |keys|;
    var pre := keys[..n - 1];
    var seen := Unique(pre);
    var u := Unique(keys);
    assert keys == pre + [keys[n - 1]];
    assert u[..|seen|] == seen;
    assert u[i] in seen by { assert u[i] == seen[i]; }
    assert p < n - 1;
    assert pre[..p] == keys[..p];
    if j < |seen| {
      assert u[j] == seen[j];
      assert q < n - 1;
      assert pre[..q] == keys[..q];
      UniqueFirstAppearance(pre, i, j, p, q);
    } else {
      assert u[j] == keys[n - 1] && keys[n - 1] !in pre;
    }
  }

  /** Fewer than two distinct keys exactly when every row carries the same key. */
  lemma TwoKeysIffDiffer(keys: seq<int>)
    ensures |Unique(keys)| >= 2 <==>
            exists i, j :: 0 <= i < |keys| && 0 <= j < |keys| && keys[i] != keys[j]
  {
    var u := Unique(keys);
    if |u| >= 2 {
      assert u[0] in keys && u[1] in keys;
      var i :| 0 <= i < |keys| && keys[i] == u[0];
      var j :| 0 <= j < |keys| && keys[j] == u[1];
      assert keys[i] != keys[j];
    } else {
      forall i, j | 0 <= i < |keys| && 0 <= j < |keys| ensures keys[i] == keys[j] {
        assert keys[i] in u && keys[j] in u;
      }
    }
  }

  /** The boolean mask `df[key_column == key]`, kept in row order. */
  function Select(rows: seq<Row>, kind: PivotType, key: int): (sel: seq<Row>)
    ensures |sel| <= |rows|
    ensures forall r :: r in sel <==> r in rows && KeyOf(r.stamp, kind) == key
    decreases |rows|
  {
    if |rows| == 0 then []
    else
      var last := rows[|rows| - 1];
      var before := Select(rows[..|rows| - 1], kind, key);
      assert rows == rows[..|rows| - 1] + [last];
      if KeyOf(last.stamp, kind) == key then before + [last] else before
  }

  /** Row j is the last row whose key is `key`. */
  predicate LastWithKey(rows: seq<Row>, kind: PivotType, key: int, j: int) {
    0 <= j < |rows| && KeyOf(rows[j].stamp, kind) == key &&
    forall k :: j < k < |rows| ==> KeyOf(rows[k].stamp, kind) != key
  }

  /** The position of the last row carrying `key`, or -1 when there is none. */
  function LastIndexOf(rows: seq<Row>, kind: PivotType, key: int): (j: int)
    ensures -1 <= j < |rows|
    ensures j >= 0 ==> LastWithKey(rows, kind, key, j)
    ensures j < 0 ==> forall k :: 0 <= k < |rows| ==> KeyOf(rows[k].stamp, kind) != key
    decreases |rows|
  {
    var n := |rows|;
    if n == 0 then -1
    else if KeyOf(rows[n - 1].stamp, kind) == key then n - 1
    else
      var pre := rows[..n - 1];
      assert forall k :: 0 <= k < n - 1 ==> rows[k] == pre[k];
      LastIndexOf(pre, kind, key)
  }

  /** `iloc[-1]` of a selection is the last row of the frame with that key,
      and the selection is empty only when no row has the key. */
  lemma {:induction false} SelectLast(rows: seq<Row>, kind: PivotType, key: int)
    ensures |Select(rows, kind, key)| == 0 <==> LastIndexOf(rows, kind, key) < 0
    ensures LastIndexOf(rows, kind, key) >= 0 ==>
      Select(rows, kind, key)[|Select(rows, kind, key)| - 1] == rows[LastIndexOf(rows, kind, key)]
    decreases |rows|
  {
    var n := |rows|;
    if n > 0 {
      var pre := rows[..n - 1];
      SelectLast(pre, kind, key);
      if KeyOf(rows[n - 1].stamp, kind) != key {
        assert Select(rows, kind, key) == Select(pre, kind, key);
        assert LastIndexOf(rows, kind, key) == LastIndexOf(pre, kind, key);
      } else {
        assert Select(rows, kind, key) == Select(pre, kind, key) + [rows[n - 1]];
      }
    }
  }

  /** The key of the reference period: `unique()[-2]`. */
  function RefKey(rows: seq<Row>, kind: PivotType): (k: int)
    requires |Unique(Keys(rows, kind))| >= 2
    ensures k in Keys(rows, kind)
    ensures var u := Unique(Keys(rows, kind)); k != u[|u| - 1]
  {
    var u := Unique(Keys(rows, kind));
    assert u[|u| - 2] in u;
    u[|u| - 2]
  }

  /** high = max High, low = min Low, close_prev = last Close of the
      reference period's rows; no reference period without two distinct keys. */
  function ReferenceHLC(rows: seq<Row>, kind: PivotType): (r: Result<HLC>)
    ensures r.Err? <==> |Unique(Keys(rows, kind))| < 2
    ensures r.Err? ==> r.error == TooFewPeriods
  {
    var u := Unique(Keys(rows, kind));
    if |u| < 2 then Err(TooFewPeriods)
    else
      var key := RefKey(rows, kind);
      var sel := Select(rows, kind, key);
      assert |sel| > 0 by {
        assert key in Keys(rows, kind);
        var i :| 0 <= i < |rows| && Keys(rows, kind)[i] == key;
        assert rows[i] in sel;
      }
      Ok(HLC(MaxHigh(sel), MinLow(sel), sel[|sel| - 1].bar.close))
  }

  /** The reference key is the second-to-last distinct key in order of first
      appearance: it first occurs before the most recent key does, and every
      key first occurring after it is the most recent key. */
  lemma RefKeySecondToLast(rows: seq<Row>, kind: PivotType, p: int, q: int)
    requires |Unique(Keys(rows, kind))| >= 2
    requires FirstAt(Keys(rows, kind), RefKey(rows, kind), p)
    requires var u := Unique(Keys(rows, kind)); FirstAt(Keys(rows, kind), u[|u| - 1], q)
    ensures p < q
    ensures var keys := Keys(rows, kind); var u := Unique(keys);
      forall i, f :: 0 <= i < |keys| && FirstAt(keys, keys[i], f) && p < f ==> keys[i] == u[|u| - 1]
  {
    var keys := Keys(rows, kind);
    var u := Unique(keys);
    var n := |u|;
    UniqueFirstAppearance(keys, n - 2, n - 1, p, q);
    forall i, f | 0 <= i < |keys| && FirstAt(keys, keys[i], f) && p < f
      ensures keys[i] == u[n - 1]
    {
      assert keys[i] in u;
      var m :| 0 <= m < n && u[m] == keys[i];
      if m < n - 2 {
        UniqueFirstAppearance(keys, m, n - 2, f, p);
        assert false;
      }
    }
  }

  /** high and low bound every row of the reference period. */
  lemma ReferenceBounds(rows: seq<Row>, kind: PivotType, i: int)
    requires |Unique(Keys(rows, kind))| >= 2
    requires 0 <= i < |rows| && KeyOf(rows[i].stamp, kind) == RefKey(rows, kind)
    ensures var h := ReferenceHLC(rows, kind).value;
      h.low <= rows[i].bar.low && rows[i].bar.high <= h.high
  {
    var sel := Select(rows, kind, RefKey(rows, kind));
    assert rows[i] in sel;
    var k :| 0 <= k < |sel| && sel[k] == rows[i];
  }

  /** high and low are attained by rows of the reference period. */
  lemma ReferenceAttained(rows: seq<Row>, kind: PivotType)
    requires |Unique(Keys(rows, kind))| >= 2
    ensures var key := RefKey(rows, kind); var h := ReferenceHLC(rows, kind).value;
      (exists i :: 0 <= i < |rows| && KeyOf(rows[i].stamp, kind) == key && rows[i].bar.high == h.high) &&
      (exists i :: 0 <= i < |rows| && KeyOf(rows[i].stamp, kind) == key && rows[i].bar.low == h.low)
  {
    var key := RefKey(rows, kind);
    var h := ReferenceHLC(rows, kind).value;
    var sel := Select(rows, kind, key);
    var kh :| 0 <= kh < |sel| && sel[kh].bar.high == h.high;
    assert sel[kh] in rows;
    var ih :| 0 <= ih < |rows| && rows[ih] == sel[kh];
    var kl :| 0 <= kl < |sel| && sel[kl].bar.low == h.low;
    assert sel[kl] in rows;
    var il :| 0 <= il < |rows| && rows[il] == sel[kl];
  }

  /** close_prev is the Close of the last row of the reference period. */
  lemma ReferenceClose(rows: seq<Row>, kind: PivotType)
    requires |Unique(Keys(rows, kind))| >= 2
    ensures RefKey(rows, kind) in Keys(rows, kind)
    ensures ReferenceHLC(rows, kind).value.close
            == rows[LastIndexOf(rows, kind, RefKey(rows, kind))].bar.close
  {
    var key := RefKey(rows, kind);
    var sel := Select(rows, kind, key);
    SelectLast(rows, kind, key);
    var i :| 0 <= i < |rows| && Keys(rows, kind)[i] == key;
    assert LastIndexOf(rows, kind, key) >= 0;
    assert ReferenceHLC(rows, kind).value.close == sel[|sel| - 1].bar.close;
  }

  /** With well-formed bars, close_prev lies between the period's low and high. */
  lemma ReferenceCloseWithin(rows: seq<Row>, kind: PivotType)
    requires AllWellFormed(rows)
    requires |Unique(Keys(rows, kind))| >= 2
    ensures var h := ReferenceHLC(rows, kind).value; h.low <= h.close <= h.high
  {
    ReferenceClose(rows, kind);
    var j := LastIndexOf(rows, kind, RefKey(rows, kind));
    ReferenceBounds(rows, kind, j);
  }
}
