/**
 * The Crossover Detector: the 50- and 200-row trailing moving averages of a
 * close series and the 0/1 "golden cross" flag marking each row where the
 * short average moves from at or below the long one to strictly above it.
 */
module Crossover {
  import opened Cells

  const SHORT_WINDOW: nat := 50
  const LONG_WINDOW: nat := 200

  /** close[lo] + ... + close[hi - 1] */
  function Sum(s: seq<real>, lo: nat, hi: nat): real
    requires lo <= hi <= |s|
    decreases hi - lo
  {
    if lo == hi then 0.0 else Sum(s, lo, hi - 1) + s[hi - 1]
  }

  lemma {:induction false} SumDropFirst(s: seq<real>, lo: nat, hi: nat)
    requires lo < hi <= |s|
    ensures Sum(s, lo + 1, hi) == Sum(s, lo, hi) - s[lo]
    decreases hi - lo
  {
    if lo + 1 < hi {
      SumDropFirst(s, lo, hi - 1);
    }
  }

  lemma {:induction false} SumBounds(s: seq<real>, lo: nat, hi: nat, a: real, b: real)
    requires lo <= hi <= |s|
    requires forall j :: lo <= j < hi ==> a <= s[j] <= b
    ensures (hi - lo) as real * a <= Sum(s, lo, hi) <= (hi - lo) as real * b
    decreases hi - lo
  {
    if lo < hi {
      SumBounds(s, lo, hi - 1, a, b);
      var n := (hi - 1 - lo) as real;
      assert (hi - lo) as real == n + 1.0;
      assert (n + 1.0) * a == n * a + a;
      assert (n + 1.0) * b == n * b + b;
    }
  }

  /**
   * `close.rolling(window=w).mean()`: NaN on the first w - 1 rows, then the
   * mean of the w closes ending at the row.
   */
  function MovingAverage(close: seq<real>, w: nat): (ma: Column)
    requires w > 0
    ensures |ma| == |close|
    ensures forall i :: 0 <= i < |close| ==> (ma[i].Num? <==> i >= w - 1)
  {
    seq(|close|, i requires 0 <= i < |close| =>
      if i + 1 < w then NaN else Num(Sum(close, i + 1 - w, i + 1) / w as real))
  }

  /** The moving average lies between the smallest and largest close of its window. */
  lemma {:induction false} MovingAverageWithinWindow(close: seq<real>, w: nat, i: nat, a: real, b: real)
    requires w > 0 && w - 1 <= i < |close|
    requires forall j :: i + 1 - w <= j <= i ==> a <= close[j] <= b
    ensures MovingAverage(close, w)[i].Num?
    ensures a <= MovingAverage(close, w)[i].value <= b
  {
    var s := Sum(close, i + 1 - w, i + 1);
    SumBounds(close, i + 1 - w, i + 1, a, b);
    var wr := w as real;
    assert wr * a <= s <= wr * b;
    assert s / wr * wr == s;
  }

  /** The running-sum computation of the moving average, one pass over the closes. */
  method RollingMean(close: seq<real>, w: nat) returns (ma: Column)
    requires w > 0
    ensures ma == MovingAverage(close, w)
  {
    ma := [];
    var sum := 0.0;
    var i := 0;
    while i < |close|
      invariant 0 <= i <= |close|
      invariant ma == MovingAverage(close, w)[..i]
      invariant sum == Sum(close, if i < w then 0 else i - w, i)
    {
      sum := sum + close[i];
      if i >= w {
        SumDropFirst(close, i - w, i + 1);
        sum := sum - close[i - w];
      }
      assert sum == Sum(close, if i + 1 < w then 0 else i + 1 - w, i + 1);
      ghost var spec := MovingAverage(close, w);
      assert spec[..i + 1] == spec[..i] + [spec[i]];
      ma := ma + [if i + 1 < w then NaN else Num(sum / w as real)];
      i := i + 1;
    }
  }

  /** Row d is a golden cross: MA50 > MA200 at d and MA50 <= MA200 at d - 1. */
  predicate CrossesAt(short: Column, long: Column, d: nat)
    requires d < |short| == |long|
  {
    d > 0 && Gt(short[d], long[d]) && Le(short[d - 1], long[d - 1])
  }

  /**
   * `((short > long) & (short.shift(1) <= long.shift(1))).astype(int)`; the
   * shifted first row is NaN, and a comparison with NaN is false.
   */
  function CrossFlags(short: Column, long: Column): (flags: seq<int>)
    requires |short| == |long|
    ensures |flags| == |short|
    ensures forall d :: 0 <= d < |flags| ==> flags[d] == 0 || flags[d] == 1
    ensures |flags| > 0 ==> flags[0] == 0
    ensures forall d :: 0 < d < |flags| && flags[d] == 1 ==> flags[d - 1] == 0
  {
    seq(|short|, d requires 0 <= d < |short| => if CrossesAt(short, long, d) then 1 else 0)
  }

  /** The flag is 1 exactly at an upward transition between two rows where both averages are numbers. */
  lemma {:induction false} CrossFlagMeaning(short: Column, long: Column, d: nat)
    requires |short| == |long| && d < |short|
    ensures CrossFlags(short, long)[d] == 1 <==>
      && d >= 1
      && short[d].Num? && long[d].Num? && short[d - 1].Num? && long[d - 1].Num?
      && short[d].value > long[d].value
      && short[d - 1].value <= long[d - 1].value
  {
  }

  /** The golden-cross column of a close series. */
  function GoldenCross(close: seq<real>): (flags: seq<int>)
    ensures |flags| == |close|
  {
    CrossFlags(MovingAverage(close, SHORT_WINDOW), MovingAverage(close, LONG_WINDOW))
  }

  /** A golden cross needs 200 closes before and at the previous row. */
  lemma {:induction false} GoldenCrossNeedsHistory(close: seq<real>, d: nat)
    requires d < |close| && GoldenCross(close)[d] == 1
    ensures d >= LONG_WINDOW
  {
    var long := MovingAverage(close, LONG_WINDOW);
    assert long[d - 1].Num?;
  }

  /** The number of flagged rows among flags[lo..hi]. */
  function CountCrosses(flags: seq<int>, lo: nat, hi: nat): int
    requires lo <= hi <= |flags|
    decreases hi - lo
  {
    if lo == hi then 0 else CountCrosses(flags, lo, hi - 1) + flags[hi - 1]
  }

  /**
   * A run of rows d0..d1 where the short average stays above the long one,
   * preceded by a row where it is at or below, holds exactly one golden
   * cross, on its first row.
   */
  lemma {:induction false} OneCrossPerUpwardRun(short: Column, long: Column, d0: nat, d1: nat)
    requires |short| == |long| && 0 < d0 <= d1 < |short|
    requires Le(short[d0 - 1], long[d0 - 1])
    requires forall d :: d0 <= d <= d1 ==> Gt(short[d], long[d])
    ensures CrossFlags(short, long)[d0] == 1
    ensures CountCrosses(CrossFlags(short, long), d0, d1 + 1) == 1
    decreases d1 - d0
  {
    var flags := CrossFlags(short, long);
    if d1 > d0 {
      OneCrossPerUpwardRun(short, long, d0, d1 - 1);
      assert !Le(short[d1 - 1], long[d1 - 1]);
      assert flags[d1] == 0;
    }
  }

  /** If the short average is never above the long one, no row is flagged. */
  lemma {:induction false} NoCrossWhileBelow(short: Column, long: Column, hi: nat)
    requires |short| == |long| && hi <= |short|
    requires forall d :: 0 <= d < hi ==> !Gt(short[d], long[d])
    ensures CountCrosses(CrossFlags(short, long), 0, hi) == 0
  {
    if hi > 0 {
      NoCrossWhileBelow(short, long, hi - 1);
    }
  }
}
