/**
 * The Return Calculator: the k-row percent change of a close series, used
 * with k = 21 ("1 month") and k = 252 ("1 year") trading rows.
 */
module Returns {
  import opened Cells

  const MONTH_ROWS: nat := 21
  const YEAR_ROWS: nat := 252

  /**
   * `close.pct_change(k)`: close[d] / close[d - k] - 1, NaN on the first k
   * rows and where the earlier close is zero.
   */
  function PctChange(close: seq<real>, k: nat): (ret: Column)
    ensures |ret| == |close|
    ensures forall d :: 0 <= d < |close| ==> (ret[d].Num? <==> d >= k && close[d - k] != 0.0)
    ensures forall d :: k <= d < |close| && close[d - k] != 0.0 ==>
      close[d - k] * (1.0 + ret[d].value) == close[d]
  {
    seq(|close|, d requires 0 <= d < |close| =>
      if d >= k && close[d - k] != 0.0 then Num(close[d] / close[d - k] - 1.0) else NaN)
  }

  /** For a positive earlier close, the return is positive exactly when the price rose. */
  lemma {:induction false} ReturnSign(close: seq<real>, k: nat, d: nat)
    requires k <= d < |close| && close[d - k] > 0.0
    ensures PctChange(close, k)[d].value > 0.0 <==> close[d] > close[d - k]
    ensures PctChange(close, k)[d].value == 0.0 <==> close[d] == close[d - k]
  {
    var r := PctChange(close, k)[d].value;
    assert close[d - k] * (1.0 + r) == close[d];
    assert close[d] - close[d - k] == close[d - k] * r;
  }

  /** The factor a k-row return grows a close by; a NaN return is taken as no growth. */
  function Growth(r: Cell): real
  {
    if r.Num? then 1.0 + r.value else 1.0
  }

  /** The close x grown by the return r. */
  function Grow(x: real, r: Cell): real
  {
    x * Growth(r)
  }

  /**
   * The first n closes rebuilt from the first |seed| closes and the
   * |seed|-row returns: row d is row d - |seed| grown by the return at d.
   */
  function Rebuild(seed: seq<real>, ret: Column, n: nat): (s: seq<real>)
    requires 0 < |seed| <= n <= |ret|
    ensures |s| == n
    decreases n
  {
    if n == |seed| then seed
    else
      var s := Rebuild(seed, ret, n - 1);
      s + [Grow(s[n - 1 - |seed|], ret[n - 1])]
  }

  lemma {:induction false} RebuildStep(seed: seq<real>, ret: Column, n: nat)
    requires 0 < |seed| < n <= |ret|
    ensures Rebuild(seed, ret, n)[..n - 1] == Rebuild(seed, ret, n - 1)
    ensures Rebuild(seed, ret, n)[n - 1] == Grow(Rebuild(seed, ret, n - 1)[n - 1 - |seed|], ret[n - 1])
  {
  }

  /** Any returns that grow every close into the one k rows later rebuild the series. */
  lemma {:induction false} RebuildByGrowth(close: seq<real>, ret: Column, k: nat, n: nat)
    requires 0 < k <= n <= |close| == |ret|
    requires forall d :: k <= d < |close| ==> Grow(close[d - k], ret[d]) == close[d]
    ensures Rebuild(close[..k], ret, n) == close[..n]
    decreases n
  {
    if n > k {
      RebuildByGrowth(close, ret, k, n - 1);
      var seed := close[..k];
      RebuildStep(seed, ret, n);
      var all := Rebuild(seed, ret, n);
      var prev := Rebuild(seed, ret, n - 1);
      assert prev[n - 1 - k] == close[n - 1 - k];
      assert Grow(close[n - 1 - k], ret[n - 1]) == close[n - 1];
      assert all[n - 1] == close[n - 1];
      assert all == all[..n - 1] + [all[n - 1]];
      assert close[..n] == close[..n - 1] + [close[n - 1]];
    }
  }

  /** The returns lose nothing: with nonzero closes they and the first k closes give the whole series back. */
  lemma {:induction false} RebuildFromReturns(close: seq<real>, k: nat)
    requires 0 < k <= |close|
    requires forall d :: 0 <= d < |close| ==> close[d] != 0.0
    ensures Rebuild(close[..k], PctChange(close, k), |close|) == close
  {
    var ret := PctChange(close, k);
    forall d | k <= d < |close| ensures Grow(close[d - k], ret[d]) == close[d] {
      assert ret[d].Num? && Growth(ret[d]) == 1.0 + ret[d].value;
    }
    RebuildByGrowth(close, ret, k, |close|);
    assert close[..|close|] == close;
  }
}
