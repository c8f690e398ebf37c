/**
 * The Normalizer: the close-price table of the selected tickers, the check
 * for tickers that came back without data, the rebasing of every column to
 * its first row, and the "best" and "worst" stock picked from the final
 * normalized values.
 */
module Normalizer {
  import opened Cells
  import opened Tickers

  /**
   * A table of closes: column j belongs to the j-th ticker of the selection,
   * row d to the d-th trading date.
   */
  type Frame = seq<Column>

  predicate Aligned(f: Frame, rows: nat)
  {
    forall j :: 0 <= j < |f| ==> |f[j]| == rows
  }

  predicate AllNaN(c: Column)
  {
    forall i :: 0 <= i < |c| ==> c[i] == NaN
  }

  /** The tickers whose whole column is NaN, in column order. */
  function EmptyColumns(tickers: seq<Ticker>, data: Frame): (missing: seq<Ticker>)
    requires |data| == |tickers|
    ensures |missing| <= |tickers|
    ensures forall k :: 0 <= k < |missing| ==>
      exists j :: 0 <= j < |tickers| && tickers[j] == missing[k] && AllNaN(data[j])
    ensures forall j :: 0 <= j < |tickers| && AllNaN(data[j]) ==> tickers[j] in missing
    ensures missing == [] <==> forall j :: 0 <= j < |data| ==> !AllNaN(data[j])
  {
    if tickers == [] then []
    else
      var rest := EmptyColumns(tickers[1..], data[1..]);
      assert forall j :: 1 <= j < |tickers| ==> tickers[j] == tickers[1..][j - 1] && data[j] == data[1..][j - 1];
      if AllNaN(data[0]) then [tickers[0]] + rest else rest
  }

  /** A table with a column that is not all NaN has at least one row. */
  lemma {:induction false} NoEmptyColumnMeansRows(tickers: seq<Ticker>, data: Frame, rows: nat)
    requires |data| == |tickers| > 0 && Aligned(data, rows)
    requires EmptyColumns(tickers, data) == []
    ensures rows >= 1
  {
    assert !AllNaN(data[0]);
  }

  /** `col.div(col.iloc[0])` */
  function NormalizeColumn(c: Column): (r: Column)
    requires |c| > 0
    ensures |r| == |c|
    ensures c[0].Num? && c[0].value != 0.0 ==> r[0] == Num(1.0)
    ensures forall i :: 0 <= i < |c| ==>
      (r[i].Num? <==> c[i].Num? && c[0].Num? && c[0].value != 0.0)
    ensures forall i :: 0 <= i < |c| && r[i].Num? ==> r[i].value * c[0].value == c[i].value
  {
    seq(|c|, i requires 0 <= i < |c| => Div(c[i], c[0]))
  }

  /** `data.div(data.iloc[0])`: every column rebased to its own first row. */
  function Normalize(data: Frame, rows: nat): (norm: Frame)
    requires Aligned(data, rows) && rows > 0
    ensures |norm| == |data| && Aligned(norm, rows)
  {
    seq(|data|, j requires 0 <= j < |data| => NormalizeColumn(data[j]))
  }

  function ScaleCell(x: Cell, k: real): Cell
  {
    if x.Num? then Num(k * x.value) else NaN
  }

  function Scale(c: Column, k: real): (r: Column)
  {
    seq(|c|, i requires 0 <= i < |c| => ScaleCell(c[i], k))
  }

  /** Rebasing does not depend on the price scale: a column scaled by k != 0 rebases the same. */
  lemma {:induction false} NormalizeScaleFree(c: Column, k: real)
    requires |c| > 0 && k != 0.0
    ensures NormalizeColumn(Scale(c, k)) == NormalizeColumn(c)
  {
    var s := Scale(c, k);
    forall i | 0 <= i < |c| ensures NormalizeColumn(s)[i] == NormalizeColumn(c)[i] {
      assert NormalizeColumn(s)[i] == Div(ScaleCell(c[i], k), ScaleCell(c[0], k));
      assert NormalizeColumn(c)[i] == Div(c[i], c[0]);
      DivScaled(c[i], c[0], k);
    }
  }

  lemma {:induction false} DivScaled(x: Cell, y: Cell, k: real)
    requires k != 0.0
    ensures Div(ScaleCell(x, k), ScaleCell(y, k)) == Div(x, y)
  {
  }

  /** One item of `latest_norm_values`: a final normalized value and the ticker it maps to. */
  datatype Entry = Entry(key: Cell, ticker: Ticker)

  /** `c.iat[-1]` for every column, in ticker order. */
  function FinalValues(norm: Frame, rows: nat): (finals: seq<Cell>)
    requires Aligned(norm, rows) && rows > 0
    ensures |finals| == |norm|
  {
    seq(|norm|, j requires 0 <= j < |norm| => norm[j][rows - 1])
  }

  /** The position of the item whose key is the number v, or -1. */
  function FindKey(d: seq<Entry>, v: real): (i: int)
    ensures -1 <= i < |d|
    ensures i >= 0 ==> d[i].key == Num(v)
    ensures i < 0 ==> forall j :: 0 <= j < |d| ==> d[j].key != Num(v)
  {
    if |d| == 0 then -1
    else if d[|d| - 1].key == Num(v) then |d| - 1
    else FindKey(d[..|d| - 1], v)
  }

  /**
   * `d[k] = t` on a dictionary kept as its items in insertion order. A key
   * that is already present keeps its place and gets the new ticker; every
   * NaN is a key of its own, since NaN is not equal to itself.
   */
  function Store(d: seq<Entry>, k: Cell, t: Ticker): (s: seq<Entry>)
    ensures |d| <= |s| <= |d| + 1 && |s| > 0
  {
    if k.NaN? then d + [Entry(k, t)]
    else
      var i := FindKey(d, k.value);
      if i < 0 then d + [Entry(k, t)] else d[i := Entry(k, t)]
  }

  /** `{finals[j]: tickers[j] for j in ...}`, built left to right. */
  function LatestNormValues(finals: seq<Cell>, tickers: seq<Ticker>): (d: seq<Entry>)
    requires |finals| == |tickers|
    ensures |d| <= |tickers|
    ensures |tickers| > 0 ==> |d| > 0
    decreases |tickers|
  {
    if tickers == [] then []
    else
      var n := |tickers| - 1;
      Store(LatestNormValues(finals[..n], tickers[..n]), finals[n], tickers[n])
  }

  predicate DistinctNumKeys(d: seq<Entry>)
  {
    forall i, j :: 0 <= i < j < |d| && d[i].key.Num? ==> d[i].key != d[j].key
  }

  /** Item e was written by position j and no later position has e's numeric key. */
  predicate StoredBy(finals: seq<Cell>, tickers: seq<Ticker>, e: Entry, j: int)
    requires |finals| == |tickers|
  {
    && 0 <= j < |finals|
    && finals[j] == e.key && tickers[j] == e.ticker
    && (e.key.Num? ==> forall j' :: j < j' < |finals| ==> finals[j'] != e.key)
  }

  ghost predicate LastWithKey(finals: seq<Cell>, tickers: seq<Ticker>, e: Entry)
    requires |finals| == |tickers|
  {
    exists j :: StoredBy(finals, tickers, e, j)
  }

  predicate KeyPresent(d: seq<Entry>, k: Cell)
  {
    exists i :: 0 <= i < |d| && d[i].key == k
  }

  /** What the dictionary comprehension keeps after reading finals and tickers. */
  ghost predicate Shape(finals: seq<Cell>, tickers: seq<Ticker>, d: seq<Entry>)
  {
    && |finals| == |tickers|
    && (|tickers| > 0 ==> |d| > 0 && d[0].key == finals[0])
    && DistinctNumKeys(d)
    && (forall i :: 0 <= i < |d| ==> LastWithKey(finals, tickers, d[i]))
    && (forall j :: 0 <= j < |finals| && finals[j].Num? ==> KeyPresent(d, finals[j]))
  }

  /** An item whose key the new position does not repeat keeps its witness. */
  lemma {:induction false} StoredBySurvives(fs: seq<Cell>, ts: seq<Ticker>, k: Cell, t: Ticker, e: Entry)
    requires |fs| == |ts| && LastWithKey(fs, ts, e)
    requires e.key.NaN? || e.key != k
    ensures LastWithKey(fs + [k], ts + [t], e)
  {
    var j :| StoredBy(fs, ts, e, j);
    assert StoredBy(fs + [k], ts + [t], e, j);
  }

  /** Appending an item whose key is new (or NaN) keeps the shape. */
  lemma {:induction false} StoreAppend(fs: seq<Cell>, ts: seq<Ticker>, d0: seq<Entry>, k: Cell, t: Ticker)
    requires Shape(fs, ts, d0)
    requires k.NaN? || forall i :: 0 <= i < |d0| ==> d0[i].key != k
    ensures Shape(fs + [k], ts + [t], d0 + [Entry(k, t)])
  {
    var finals, tickers, d := fs + [k], ts + [t], d0 + [Entry(k, t)];
    var n := |fs|;
    assert StoredBy(finals, tickers, d[|d0|], n);
    forall i | 0 <= i < |d0| ensures LastWithKey(finals, tickers, d[i]) {
      StoredBySurvives(fs, ts, k, t, d0[i]);
    }
    forall j | 0 <= j < |finals| && finals[j].Num? ensures KeyPresent(d, finals[j]) {
      if j < n {
        var i :| 0 <= i < |d0| && d0[i].key == fs[j];
        assert d[i].key == finals[j];
      } else {
        assert d[|d0|].key == finals[j];
      }
    }
    assert DistinctNumKeys(d);
  }

  /** Overwriting the ticker of the item that already has key k keeps the shape. */
  lemma {:induction false} StoreOverwrite(fs: seq<Cell>, ts: seq<Ticker>, d0: seq<Entry>, k: Cell, t: Ticker, p: nat)
    requires Shape(fs, ts, d0)
    requires k.Num? && p < |d0| && d0[p].key == k
    ensures Shape(fs + [k], ts + [t], d0[p := Entry(k, t)])
  {
    var finals, tickers, d := fs + [k], ts + [t], d0[p := Entry(k, t)];
    var n := |fs|;
    assert StoredBy(finals, tickers, d[p], n);
    forall i | 0 <= i < |d| ensures LastWithKey(finals, tickers, d[i]) {
      if i != p {
        assert d[i] == d0[i] && d0[i].key != k;
        StoredBySurvives(fs, ts, k, t, d0[i]);
      }
    }
    forall j | 0 <= j < |finals| && finals[j].Num? ensures KeyPresent(d, finals[j]) {
      if j < n {
        var i :| 0 <= i < |d0| && d0[i].key == fs[j];
        assert d[i].key == finals[j];
      } else {
        assert d[p].key == finals[j];
      }
    }
    assert DistinctNumKeys(d);
  }

  lemma {:induction false} StoreStep(fs: seq<Cell>, ts: seq<Ticker>, d0: seq<Entry>, k: Cell, t: Ticker)
    requires Shape(fs, ts, d0)
    ensures Shape(fs + [k], ts + [t], Store(d0, k, t))
  {
    if k.NaN? {
      StoreAppend(fs, ts, d0, k, t);
    } else {
      var p := FindKey(d0, k.value);
      if p < 0 {
        StoreAppend(fs, ts, d0, k, t);
      } else {
        StoreOverwrite(fs, ts, d0, k, t, p);
      }
    }
  }

  /** What the dictionary comprehension keeps. */
  lemma {:induction false} LatestNormValuesShape(finals: seq<Cell>, tickers: seq<Ticker>)
    requires |finals| == |tickers|
    ensures Shape(finals, tickers, LatestNormValues(finals, tickers))
    decreases |tickers|
  {
    if tickers != [] {
      var n := |tickers| - 1;
      var fs, ts := finals[..n], tickers[..n];
      assert fs + [finals[n]] == finals;
      assert ts + [tickers[n]] == tickers;
      var d0 := LatestNormValues(fs, ts);
      assert LatestNormValues(finals, tickers) == Store(d0, finals[n], tickers[n]);
      LatestNormValuesShape(fs, ts);
      StoreStep(fs, ts, d0, finals[n], tickers[n]);
    }
  }

  /** Python's `a < b` on strings: code-point lexicographic order. */
  predicate LexLess(a: string, b: string)
  {
    if |a| == 0 then |b| > 0
    else if |b| == 0 then false
    else if a[0] != b[0] then a[0] < b[0]
    else LexLess(a[1..], b[1..])
  }

  /** Python's `x > y` on (value, ticker) tuples: tickers decide only between equal numbers. */
  predicate PairGt(x: Entry, y: Entry)
  {
    if x.key.Num? && y.key.Num? && x.key.value == y.key.value then LexLess(y.ticker, x.ticker)
    else Gt(x.key, y.key)
  }

  /** Python's `x < y` on (value, ticker) tuples. */
  predicate PairLt(x: Entry, y: Entry)
  {
    if x.key.Num? && y.key.Num? && x.key.value == y.key.value then LexLess(x.ticker, y.ticker)
    else Gt(y.key, x.key)
  }

  /**
   * `max(items)`: the first item, replaced by every later item greater than
   * the one kept so far. A NaN key is never greater, nor is anything greater
   * than it, so the result is numeric exactly when the first item is.
   */
  function MaxItem(items: seq<Entry>): (m: Entry)
    requires |items| > 0
    ensures m in items
    ensures items[0].key.NaN? ==> m == items[0]
    ensures items[0].key.Num? ==> (m.key.Num? &&
      forall i :: 0 <= i < |items| && items[i].key.Num? ==> items[i].key.value <= m.key.value)
  {
    if |items| == 1 then items[0]
    else
      var m := MaxItem(items[..|items| - 1]);
      var x := items[|items| - 1];
      if PairGt(x, m) then x else m
  }

  /** `min(items)`, the mirror image of MaxItem. */
  function MinItem(items: seq<Entry>): (m: Entry)
    requires |items| > 0
    ensures m in items
    ensures items[0].key.NaN? ==> m == items[0]
    ensures items[0].key.Num? ==> (m.key.Num? &&
      forall i :: 0 <= i < |items| && items[i].key.Num? ==> m.key.value <= items[i].key.value)
  {
    if |items| == 1 then items[0]
    else
      var m := MinItem(items[..|items| - 1]);
      var x := items[|items| - 1];
      if PairLt(x, m) then x else m
  }

  /** The best stock: `max(latest_norm_values.items())`. */
  function Best(finals: seq<Cell>, tickers: seq<Ticker>): (e: Entry)
    requires |finals| == |tickers| > 0
    ensures e in LatestNormValues(finals, tickers)
  {
    MaxItem(LatestNormValues(finals, tickers))
  }

  /** The worst stock: `min(latest_norm_values.items())`. */
  function Worst(finals: seq<Cell>, tickers: seq<Ticker>): (e: Entry)
    requires |finals| == |tickers| > 0
    ensures e in LatestNormValues(finals, tickers)
  {
    MinItem(LatestNormValues(finals, tickers))
  }

  /**
   * When the first ticker's final value is a number, the best stock has the
   * highest final value, and is the last ticker in list order with that value.
   */
  lemma {:induction false} BestIsHighest(finals: seq<Cell>, tickers: seq<Ticker>)
    requires |finals| == |tickers| > 0 && finals[0].Num?
    ensures var best := Best(finals, tickers);
      && best.key.Num?
      && (forall j :: 0 <= j < |finals| && finals[j].Num? ==> finals[j].value <= best.key.value)
      && LastWithKey(finals, tickers, best)
  {
    LatestNormValuesShape(finals, tickers);
    var d := LatestNormValues(finals, tickers);
    var best := MaxItem(d);
    forall j | 0 <= j < |finals| && finals[j].Num? ensures finals[j].value <= best.key.value {
      var i :| 0 <= i < |d| && d[i].key == finals[j];
    }
    var i :| 0 <= i < |d| && d[i] == best;
  }

  /**
   * When the first ticker's final value is a number, the worst stock has the
   * lowest final value, and is the last ticker in list order with that value.
   */
  lemma {:induction false} WorstIsLowest(finals: seq<Cell>, tickers: seq<Ticker>)
    requires |finals| == |tickers| > 0 && finals[0].Num?
    ensures var worst := Worst(finals, tickers);
      && worst.key.Num?
      && (forall j :: 0 <= j < |finals| && finals[j].Num? ==> worst.key.value <= finals[j].value)
      && LastWithKey(finals, tickers, worst)
  {
    LatestNormValuesShape(finals, tickers);
    var d := LatestNormValues(finals, tickers);
    var worst := MinItem(d);
    forall j | 0 <= j < |finals| && finals[j].Num? ensures worst.key.value <= finals[j].value {
      var i :| 0 <= i < |d| && d[i].key == finals[j];
    }
    var i :| 0 <= i < |d| && d[i] == worst;
  }

  /** When the first ticker's final value is NaN, it is reported as both best and worst. */
  lemma {:induction false} FirstNaNIsBestAndWorst(finals: seq<Cell>, tickers: seq<Ticker>)
    requires |finals| == |tickers| > 0 && finals[0].NaN?
    ensures Best(finals, tickers) == Entry(NaN, tickers[0])
    ensures Worst(finals, tickers) == Entry(NaN, tickers[0])
  {
    LatestNormValuesShape(finals, tickers);
    var d := LatestNormValues(finals, tickers);
    var j :| StoredBy(finals, tickers, d[0], j);
    if j != 0 {
      // d[0] is the first item inserted, and every NaN is inserted as a new item.
      FirstItemFromFirstTicker(finals, tickers);
    }
  }

  /** The best and the worst value are NaN exactly when the first ticker's final value is. */
  lemma {:induction false} PickIsNaNIffFirstNaN(finals: seq<Cell>, tickers: seq<Ticker>)
    requires |finals| == |tickers| > 0
    ensures Best(finals, tickers).key.NaN? <==> finals[0].NaN?
    ensures Worst(finals, tickers).key.NaN? <==> finals[0].NaN?
  {
    if finals[0].NaN? {
      FirstNaNIsBestAndWorst(finals, tickers);
    } else {
      BestIsHighest(finals, tickers);
      WorstIsLowest(finals, tickers);
    }
  }

  /** The first item of the dictionary was inserted for the first ticker; a NaN key is never overwritten. */
  lemma {:induction false} FirstItemFromFirstTicker(finals: seq<Cell>, tickers: seq<Ticker>)
    requires |finals| == |tickers| > 0 && finals[0].NaN?
    ensures LatestNormValues(finals, tickers)[0] == Entry(NaN, tickers[0])
    decreases |tickers|
  {
    var n := |tickers| - 1;
    if n > 0 {
      LatestNormValuesShape(finals[..n], tickers[..n]);
      FirstItemFromFirstTicker(finals[..n], tickers[..n]);
      var d0 := LatestNormValues(finals[..n], tickers[..n]);
      if finals[n].Num? {
        var p := FindKey(d0, finals[n].value);
        assert p != 0;
      }
    }
  }
}
