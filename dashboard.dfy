/**
 * One pass of the dashboard over a selection: upper-case the tickers, stop
 * on an empty selection, take what the price download returned, report the
 * tickers without data, normalize, pick the best and worst stocks, stop if
 * either is NaN, and, for two or more tickers, compare every ticker with its
 * peers.
 */
module Dashboard {
  import opened Cells
  import opened Tickers
  import opened Normalizer
  import opened PeerComparator

  /** What the download of closes gives: a rate-limit refusal, nothing, or a table. */
  datatype Fetch = RateLimited | NoData | Loaded(data: Frame, rows: nat)

  /** What the page ends up showing. */
  datatype Report =
    | PickSomeStocks
    | RateLimitWarning
    | FetchError
    | LoadError(missing: seq<Ticker>)
    | MetricError(best: Entry, worst: Entry)
    | SingleStock(normalized: Frame, best: Entry, worst: Entry)
    | Compared(normalized: Frame, best: Entry, worst: Entry,
               peerAverages: seq<Column>, deltas: seq<Column>)

  /** A downloaded table has one column per selected ticker, all of one length. */
  predicate FetchFits(selected: seq<Ticker>, fetch: Fetch)
  {
    fetch.Loaded? ==> |fetch.data| == |selected| && Aligned(fetch.data, fetch.rows)
  }

  /**
   * What the page shows once the best and worst values are numbers: the
   * single-stock page for one ticker, and for two or more the peer
   * comparison of every ticker.
   */
  function Present(tickers: seq<Ticker>, norm: Frame, rows: nat, best: Entry, worst: Entry): (r: Report)
    requires |tickers| >= 1 && |norm| == |tickers| && Aligned(norm, rows)
    ensures r.SingleStock? <==> |tickers| == 1
    ensures r.Compared? <==> |tickers| >= 2
    ensures (r.SingleStock? || r.Compared?) && r.normalized == norm && r.best == best && r.worst == worst
    ensures r.Compared? ==>
      && |r.peerAverages| == |r.deltas| == |tickers|
      && forall t :: 0 <= t < |tickers| ==>
           && r.peerAverages[t] == PeerAverage(norm, rows, t)
           && |r.deltas[t]| == rows
           && (forall d :: 0 <= d < rows ==>
                 r.deltas[t][d] == Sub(norm[t][d], r.peerAverages[t][d]))
  {
    if |tickers| == 1 then SingleStock(norm, best, worst)
    else
      Compared(norm, best, worst,
               seq(|norm|, t requires 0 <= t < |norm| => PeerAverage(norm, rows, t)),
               seq(|norm|, t requires 0 <= t < |norm| => Delta(norm, rows, t)))
  }

  /**
   * The part of the pass after a complete download: rebase and pick the best
   * and worst stocks. Showing their values rounds them to a percentage, and
   * `round` of a NaN raises, which ends the run. Otherwise, for two or more
   * tickers, compare every ticker with its peers.
   */
  function Analyze(tickers: seq<Ticker>, data: Frame, rows: nat): (r: Report)
    requires |tickers| >= 1 && |data| == |tickers| && Aligned(data, rows)
    requires EmptyColumns(tickers, data) == []
    ensures rows >= 1
    ensures r.MetricError? || r.SingleStock? || r.Compared?
    ensures r.MetricError? <==> FinalValues(Normalize(data, rows), rows)[0].NaN?
    ensures r.SingleStock? <==> !r.MetricError? && |tickers| == 1
    ensures r.Compared? <==> !r.MetricError? && |tickers| >= 2
    ensures r.best == Best(FinalValues(Normalize(data, rows), rows), tickers)
    ensures r.worst == Worst(FinalValues(Normalize(data, rows), rows), tickers)
    ensures (r.SingleStock? || r.Compared?) ==> r.normalized == Normalize(data, rows)
    ensures r.Compared? ==>
      && |r.peerAverages| == |r.deltas| == |tickers|
      && forall t :: 0 <= t < |tickers| ==>
           && r.peerAverages[t] == PeerAverage(r.normalized, rows, t)
           && |r.deltas[t]| == rows
           && (forall d :: 0 <= d < rows ==>
                 r.deltas[t][d] == Sub(r.normalized[t][d], r.peerAverages[t][d]))
  {
    NoEmptyColumnMeansRows(tickers, data, rows);
    var norm := Normalize(data, rows);
    var finals := FinalValues(norm, rows);
    var best := Best(finals, tickers);
    var worst := Worst(finals, tickers);
    PickIsNaNIffFirstNaN(finals, tickers);
    if best.key.NaN? || worst.key.NaN? then MetricError(best, worst)
    else Present(tickers, norm, rows, best, worst)
  }

  function Run(selected: seq<Ticker>, fetch: Fetch): (r: Report)
    requires FetchFits(selected, fetch)
    ensures r.PickSomeStocks? <==> selected == []
    ensures r.RateLimitWarning? <==> selected != [] && fetch.RateLimited?
    ensures r.FetchError? <==> selected != [] && fetch.NoData?
    ensures r.LoadError? <==>
      selected != [] && fetch.Loaded? && EmptyColumns(UpperAll(selected), fetch.data) != []
    ensures r.LoadError? ==> r.missing == EmptyColumns(UpperAll(selected), fetch.data)
    ensures (r.MetricError? || r.SingleStock? || r.Compared?) <==>
      selected != [] && fetch.Loaded? && EmptyColumns(UpperAll(selected), fetch.data) == []
    ensures (r.MetricError? || r.SingleStock? || r.Compared?) ==>
      r == Analyze(UpperAll(selected), fetch.data, fetch.rows)
    ensures r.SingleStock? ==> |selected| == 1
    ensures r.Compared? ==> |selected| >= 2
  {
    var tickers := UpperAll(selected);
    if tickers == [] then PickSomeStocks
    else
      match fetch
      case RateLimited => RateLimitWarning
      case NoData => FetchError
      case Loaded(data, rows) =>
        var missing := EmptyColumns(tickers, data);
        if missing != [] then LoadError(missing) else Analyze(tickers, data, rows)
  }

  // The worked example: closes A = [10, 20, 10] and B = [10, 10, 10].
  const ExampleA: Column := [Num(10.0), Num(20.0), Num(10.0)]
  const ExampleB: Column := [Num(10.0), Num(10.0), Num(10.0)]
  const NormA: Column := [Num(1.0), Num(2.0), Num(1.0)]
  const NormB: Column := [Num(1.0), Num(1.0), Num(1.0)]

  lemma {:induction false} ExampleSelection()
    ensures UpperAll(["a", "b"]) == ["A", "B"]
  {
    assert Upper("a") == "A" by { assert Upper("a")[0] == 'A'; }
    assert Upper("b") == "B" by { assert Upper("b")[0] == 'B'; }
  }

  lemma {:induction false} ExampleNormalized()
    ensures EmptyColumns(["A", "B"], [ExampleA, ExampleB]) == []
    ensures Normalize([ExampleA, ExampleB], 3) == [NormA, NormB]
    ensures FinalValues([NormA, NormB], 3) == [Num(1.0), Num(1.0)]
  {
    var data := [ExampleA, ExampleB];
    assert data[0][0] != NaN && data[1][0] != NaN;
    assert !AllNaN(data[0]) && !AllNaN(data[1]);
    assert NormalizeColumn(ExampleA) == NormA;
    assert NormalizeColumn(ExampleB) == NormB;
  }

  lemma {:induction false} ExamplePick()
    ensures Best([Num(1.0), Num(1.0)], ["A", "B"]) == Entry(Num(1.0), "B")
    ensures Worst([Num(1.0), Num(1.0)], ["A", "B"]) == Entry(Num(1.0), "B")
  {
    var finals, tickers := [Num(1.0), Num(1.0)], ["A", "B"];
    assert LatestNormValues([], []) == [];
    assert [Num(1.0)][..0] == [] && ["A"][..0] == [];
    var d1 := LatestNormValues([Num(1.0)], ["A"]);
    assert d1 == Store(LatestNormValues([], []), Num(1.0), "A");
    assert d1 == [Entry(Num(1.0), "A")];
    assert finals[..1] == [Num(1.0)] && tickers[..1] == ["A"];
    assert FindKey(d1, 1.0) == 0;
    assert LatestNormValues(finals, tickers) == [Entry(Num(1.0), "B")];
  }

  /** With two tickers both numeric at row d, each one's peer mean is the other's value. */
  lemma {:induction false} TwoTickerPeerMeans(norm: Frame, rows: nat, d: nat)
    requires |norm| == 2 && Aligned(norm, rows) && d < rows
    requires norm[0][d].Num? && norm[1][d].Num?
    ensures PeerMean(norm, rows, 0, d) == norm[1][d]
    ensures PeerMean(norm, rows, 1, d) == norm[0][d]
  {
    assert PeerCount(norm, rows, 0, d, 0) == 0 && PeerSum(norm, rows, 0, d, 0) == 0.0;
    assert PeerCount(norm, rows, 0, d, 1) == 0 && PeerSum(norm, rows, 0, d, 1) == 0.0;
    assert PeerCount(norm, rows, 0, d, 2) == 1 && PeerSum(norm, rows, 0, d, 2) == norm[1][d].value;
    assert PeerCount(norm, rows, 1, d, 0) == 0 && PeerSum(norm, rows, 1, d, 0) == 0.0;
    assert PeerCount(norm, rows, 1, d, 1) == 1 && PeerSum(norm, rows, 1, d, 1) == norm[0][d].value;
    assert PeerCount(norm, rows, 1, d, 2) == 1 && PeerSum(norm, rows, 1, d, 2) == norm[0][d].value;
  }

  lemma {:induction false} ExamplePeers()
    ensures PeerAverage([NormA, NormB], 3, 0) == NormB
    ensures PeerAverage([NormA, NormB], 3, 1) == NormA
    ensures Delta([NormA, NormB], 3, 0) == [Num(0.0), Num(1.0), Num(0.0)]
    ensures Delta([NormA, NormB], 3, 1) == [Num(0.0), Num(-1.0), Num(0.0)]
  {
    var norm := [NormA, NormB];
    TwoTickerPeerMeans(norm, 3, 0);
    TwoTickerPeerMeans(norm, 3, 1);
    TwoTickerPeerMeans(norm, 3, 2);
  }

  /**
   * The example run with the tickers selected as "a" and "b": A normalizes
   * to [1, 2, 1] and B to [1, 1, 1]; the peer average of A is B and its
   * delta [0, 1, 0]. Both end at 1, the dictionary keeps the later ticker
   * for that value, and so B is both the best and the worst stock.
   */
  lemma {:induction false} TwoTickerExample()
    ensures Run(["a", "b"], Loaded([ExampleA, ExampleB], 3))
         == Compared([NormA, NormB], Entry(Num(1.0), "B"), Entry(Num(1.0), "B"),
                     [NormB, NormA],
                     [[Num(0.0), Num(1.0), Num(0.0)], [Num(0.0), Num(-1.0), Num(0.0)]])
  {
    ExampleSelection();
    ExampleNormalized();
    ExampleAnalyze();
  }

  lemma {:induction false} ExampleAnalyze()
    ensures EmptyColumns(["A", "B"], [ExampleA, ExampleB]) == []
         && Analyze(["A", "B"], [ExampleA, ExampleB], 3)
         == Compared([NormA, NormB], Entry(Num(1.0), "B"), Entry(Num(1.0), "B"),
                     [NormB, NormA],
                     [[Num(0.0), Num(1.0), Num(0.0)], [Num(0.0), Num(-1.0), Num(0.0)]])
  {
    ExampleNormalized();
    ExamplePick();
    ExamplePeers();
    var norm := [NormA, NormB];
    assert seq(|norm|, t requires 0 <= t < |norm| => PeerAverage(norm, 3, t)) == [NormB, NormA];
    assert seq(|norm|, t requires 0 <= t < |norm| => Delta(norm, 3, t))
        == [[Num(0.0), Num(1.0), Num(0.0)], [Num(0.0), Num(-1.0), Num(0.0)]];
  }

  // A missing last close: A = [10, 20, NaN] passes the empty-column check.
  const ExampleGapA: Column := [Num(10.0), Num(20.0), NaN]

  /**
   * With A's last close missing, the dictionary is {NaN: "A", 1.0: "B"};
   * `max` and `min` both return (NaN, "A"), and the run stops at the
   * rounding of the best value.
   */
  lemma {:induction false} MissingLastCloseExample()
    ensures Run(["a", "b"], Loaded([ExampleGapA, ExampleB], 3))
         == MetricError(Entry(NaN, "A"), Entry(NaN, "A"))
  {
    ExampleSelection();
    var data := [ExampleGapA, ExampleB];
    assert data[0][0] != NaN && data[1][0] != NaN;
    assert !AllNaN(data[0]) && !AllNaN(data[1]);
    assert EmptyColumns(["A", "B"], data) == [];
    var finals := FinalValues(Normalize(data, 3), 3);
    assert finals[0] == NormalizeColumn(ExampleGapA)[2] == NaN;
    FirstNaNIsBestAndWorst(finals, ["A", "B"]);
  }
}
