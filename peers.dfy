/**
 * The Peer Comparator: for every selected ticker, the average of the other
 * tickers' normalized prices at each date, and the ticker's distance from it.
 */
module PeerComparator {
  import opened Cells
  import opened Normalizer

  /** The sum of the numeric cells of row d among the columns u < k other than t. */
  function PeerSum(norm: Frame, rows: nat, t: nat, d: nat, k: nat): real
    requires Aligned(norm, rows) && d < rows && k <= |norm|
  {
    if k == 0 then 0.0
    else PeerSum(norm, rows, t, d, k - 1) + (if k - 1 != t && norm[k - 1][d].Num? then norm[k - 1][d].value else 0.0)
  }

  /** The number of numeric cells of row d among the columns u < k other than t. */
  function PeerCount(norm: Frame, rows: nat, t: nat, d: nat, k: nat): nat
    requires Aligned(norm, rows) && d < rows && k <= |norm|
  {
    if k == 0 then 0
    else PeerCount(norm, rows, t, d, k - 1) + (if k - 1 != t && norm[k - 1][d].Num? then 1 else 0)
  }

  /**
   * `peers.mean(axis=1)` at row d, where `peers` is the table without column t:
   * pandas skips NaN cells, and a row with no numeric peer cell is NaN.
   */
  function PeerMean(norm: Frame, rows: nat, t: nat, d: nat): Cell
    requires Aligned(norm, rows) && d < rows
  {
    var n := PeerCount(norm, rows, t, d, |norm|);
    if n == 0 then NaN else Num(PeerSum(norm, rows, t, d, |norm|) / n as real)
  }

  /** The peer average of ticker t over the whole date axis. */
  function PeerAverage(norm: Frame, rows: nat, t: nat): (avg: Column)
    requires Aligned(norm, rows)
    ensures |avg| == rows
  {
    seq(rows, d requires 0 <= d < rows => PeerMean(norm, rows, t, d))
  }

  lemma {:induction false} PeerSumIgnoresSelf(norm: Frame, rows: nat, t: nat, c: Column, d: nat, k: nat)
    requires Aligned(norm, rows) && t < |norm| && |c| == rows && d < rows && k <= |norm|
    ensures PeerSum(norm[t := c], rows, t, d, k) == PeerSum(norm, rows, t, d, k)
    ensures PeerCount(norm[t := c], rows, t, d, k) == PeerCount(norm, rows, t, d, k)
  {
    if k > 0 {
      PeerSumIgnoresSelf(norm, rows, t, c, d, k - 1);
    }
  }

  /** The peer average of t does not depend on t's own column. */
  lemma {:induction false} PeerAverageExcludesSelf(norm: Frame, rows: nat, t: nat, c: Column)
    requires Aligned(norm, rows) && t < |norm| && |c| == rows
    ensures PeerAverage(norm[t := c], rows, t) == PeerAverage(norm, rows, t)
  {
    forall d | 0 <= d < rows
      ensures PeerAverage(norm[t := c], rows, t)[d] == PeerAverage(norm, rows, t)[d]
    {
      PeerSumIgnoresSelf(norm, rows, t, c, d, |norm|);
    }
  }

  /** The sum of the numeric cells of row d among all columns u < k. */
  function RowSum(norm: Frame, rows: nat, d: nat, k: nat): real
    requires Aligned(norm, rows) && d < rows && k <= |norm|
  {
    if k == 0 then 0.0
    else RowSum(norm, rows, d, k - 1) + (if norm[k - 1][d].Num? then norm[k - 1][d].value else 0.0)
  }

  lemma {:induction false} PeerSumIsRowSumWithoutSelf(norm: Frame, rows: nat, t: nat, d: nat, k: nat)
    requires Aligned(norm, rows) && t < |norm| && d < rows && k <= |norm|
    requires forall u :: 0 <= u < |norm| ==> norm[u][d].Num?
    ensures PeerSum(norm, rows, t, d, k) == RowSum(norm, rows, d, k) - (if t < k then norm[t][d].value else 0.0)
    ensures PeerCount(norm, rows, t, d, k) == if t < k then k - 1 else k
  {
    if k > 0 {
      PeerSumIsRowSumWithoutSelf(norm, rows, t, d, k - 1);
    }
  }

  /**
   * When every cell of row d is a number, the peer average of t is the
   * arithmetic mean of the other |norm| - 1 tickers: the row total less t's
   * own value, divided by |norm| - 1.
   */
  lemma {:induction false} PeerMeanOfDefinedRow(norm: Frame, rows: nat, t: nat, d: nat)
    requires Aligned(norm, rows) && 2 <= |norm| && t < |norm| && d < rows
    requires forall u :: 0 <= u < |norm| ==> norm[u][d].Num?
    ensures PeerMean(norm, rows, t, d) ==
      Num((RowSum(norm, rows, d, |norm|) - norm[t][d].value) / (|norm| - 1) as real)
  {
    PeerSumIsRowSumWithoutSelf(norm, rows, t, d, |norm|);
  }

  /**
   * The loop over the selected tickers: the peer average of every ticker,
   * and its delta, the ticker's normalized value minus that average.
   */
  method ComparePeers(norm: Frame, rows: nat) returns (averages: seq<Column>, deltas: seq<Column>)
    requires Aligned(norm, rows)
    ensures |averages| == |deltas| == |norm|
    ensures forall t :: 0 <= t < |norm| ==>
      && averages[t] == PeerAverage(norm, rows, t)
      && |deltas[t]| == rows
      && (forall d :: 0 <= d < rows ==> deltas[t][d] == Sub(norm[t][d], averages[t][d]))
    ensures averages == seq(|norm|, t requires 0 <= t < |norm| => PeerAverage(norm, rows, t))
    ensures deltas == seq(|norm|, t requires 0 <= t < |norm| => Delta(norm, rows, t))
  {
    averages, deltas := [], [];
    for t := 0 to |norm|
      invariant |averages| == |deltas| == t
      invariant forall u :: 0 <= u < t ==>
        && averages[u] == PeerAverage(norm, rows, u)
        && |deltas[u]| == rows
        && (forall d :: 0 <= d < rows ==> deltas[u][d] == Sub(norm[u][d], averages[u][d]))
    {
      var peerAvg := PeerAverage(norm, rows, t);
      var delta := seq(rows, d requires 0 <= d < rows => Sub(norm[t][d], peerAvg[d]));
      averages := averages + [peerAvg];
      deltas := deltas + [delta];
    }
    forall t | 0 <= t < |norm| ensures deltas[t] == Delta(norm, rows, t) {
      assert forall d :: 0 <= d < rows ==> deltas[t][d] == Delta(norm, rows, t)[d];
    }
  }

  /** The delta column of ticker t, as the comparison loop computes it. */
  function Delta(norm: Frame, rows: nat, t: nat): (delta: Column)
    requires Aligned(norm, rows) && t < |norm|
    ensures |delta| == rows
  {
    seq(rows, d requires 0 <= d < rows => Sub(norm[t][d], PeerMean(norm, rows, t, d)))
  }
}
