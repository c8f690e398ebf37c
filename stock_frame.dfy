/**
 * The single-ticker tables the dashboard builds in place: the golden-cross
 * table (moving averages, cross flag, ticker code) and the raw-data table
 * (ticker code and the 1-month and 1-year returns), both starting from one
 * download of closes.
 */
module StockFrames {
  import opened Cells
  import opened Crossover
  import opened Returns

  /**
   * A downloaded table once its date index has been turned into a column.
   * Dates are row positions here; the downloaded closes never change; the
   * added columns are empty until a method fills them.
   */
  class StockFrame {
    const close: seq<real>
    var code: string
    var ma50: Column
    var ma200: Column
    var goldenCross: seq<int>
    var return1Month: Column
    var return1Year: Column

    constructor (close: seq<real>)
      ensures this.close == close && code == ""
      ensures ma50 == [] && ma200 == [] && goldenCross == []
      ensures return1Month == [] && return1Year == []
    {
      this.close := close;
      code := "";
      ma50, ma200, goldenCross := [], [], [];
      return1Month, return1Year := [], [];
    }

    /** `df["MA_50"] = ...; df["MA_200"] = ...` */
    method AddMovingAverages()
      modifies this
      ensures ma50 == MovingAverage(close, SHORT_WINDOW)
      ensures ma200 == MovingAverage(close, LONG_WINDOW)
      ensures code == old(code) && goldenCross == old(goldenCross)
      ensures return1Month == old(return1Month) && return1Year == old(return1Year)
    {
      ma50 := RollingMean(close, SHORT_WINDOW);
      ma200 := RollingMean(close, LONG_WINDOW);
    }

    /** `df["Golden_Cross"] = ((MA_50 > MA_200) & (MA_50.shift(1) <= MA_200.shift(1))).astype(int)` */
    method AddGoldenCrossFlag()
      requires |ma50| == |ma200|
      modifies this
      ensures ma50 == old(ma50) && ma200 == old(ma200) && code == old(code)
      ensures goldenCross == CrossFlags(ma50, ma200)
      ensures return1Month == old(return1Month) && return1Year == old(return1Year)
    {
      goldenCross := CrossFlags(ma50, ma200);
    }

    /** `df["Kode Saham"] = ticker` */
    method SetCode(ticker: string)
      modifies this
      ensures code == ticker
      ensures ma50 == old(ma50) && ma200 == old(ma200) && goldenCross == old(goldenCross)
      ensures return1Month == old(return1Month) && return1Year == old(return1Year)
    {
      code := ticker;
    }

    /** `df["Return 1 Month"] = close.pct_change(21); df["Return 1 Year"] = close.pct_change(252)` */
    method AddReturns()
      modifies this
      ensures return1Month == PctChange(close, MONTH_ROWS)
      ensures return1Year == PctChange(close, YEAR_ROWS)
      ensures code == old(code) && ma50 == old(ma50) && ma200 == old(ma200)
      ensures goldenCross == old(goldenCross)
    {
      return1Month := PctChange(close, MONTH_ROWS);
      return1Year := PctChange(close, YEAR_ROWS);
    }
  }

  /** The golden-cross table of one ticker, from its downloaded closes. */
  method PrepareGoldenCrossData(ticker: string, close: seq<real>) returns (df: StockFrame)
    ensures fresh(df) && df.close == close && df.code == ticker
    ensures df.ma50 == MovingAverage(close, SHORT_WINDOW)
    ensures df.ma200 == MovingAverage(close, LONG_WINDOW)
    ensures df.goldenCross == GoldenCross(close)
    ensures df.return1Month == [] && df.return1Year == []
  {
    df := new StockFrame(close);
    df.AddMovingAverages();
    df.AddGoldenCrossFlag();
    df.SetCode(ticker);
  }

  /** The raw-data table of one ticker, from its full downloaded history. */
  method LoadRawData(ticker: string, close: seq<real>) returns (df: StockFrame)
    ensures fresh(df) && df.close == close && df.code == ticker
    ensures df.return1Month == PctChange(close, MONTH_ROWS)
    ensures df.return1Year == PctChange(close, YEAR_ROWS)
    ensures df.ma50 == [] && df.ma200 == [] && df.goldenCross == []
  {
    df := new StockFrame(close);
    df.SetCode(ticker);
    df.AddReturns();
  }
}
