/**
 * The ticker list of the dashboard: the default list, the comma-joined
 * `stocks` URL parameter it is stored in, and the upper-casing applied to
 * every selection.
 */
module Tickers {

  type Ticker = string

  /** The selection used when the URL carries no `stocks` parameter. */
  const DEFAULT_STOCKS: seq<Ticker> :=
    ["BBCA.JK", "BBRI.JK", "BMRI.JK", "ASII.JK", "TLKM.JK", "ANTM.JK", "ADRO.JK", "UNVR.JK"]

  predicate CommaFree(t: string)
  {
    ',' !in t
  }

  predicate AllCommaFree(ts: seq<string>)
  {
    forall i :: 0 <= i < |ts| ==> CommaFree(ts[i])
  }

  /** `",".join(ts)` */
  function Join(ts: seq<string>): string
  {
    if |ts| == 0 then ""
    else if |ts| == 1 then ts[0]
    else ts[0] + "," + Join(ts[1..])
  }

  /** `s.split(",")`: as in Python, the empty string splits into one empty part. */
  function Split(s: string): (parts: seq<string>)
    ensures |parts| == multiset(s)[','] + 1
    ensures AllCommaFree(parts)
  {
    if |s| == 0 then [""]
    else
      var rest := Split(s[1..]);
      assert s == [s[0]] + s[1..];
      if s[0] == ',' then [""] + rest
      else [[s[0]] + rest[0]] + rest[1..]
  }

  lemma {:induction false} SplitCommaFree(t: string)
    requires CommaFree(t)
    ensures Split(t) == [t]
  {
    if |t| > 0 {
      SplitCommaFree(t[1..]);
      assert [t[0]] + t[1..] == t;
    }
  }

  lemma {:induction false} SplitAfterPart(a: string, rest: string)
    requires CommaFree(a)
    ensures Split(a + "," + rest) == [a] + Split(rest)
  {
    if |a| == 0 {
      assert (a + "," + rest)[1..] == rest;
    } else {
      assert (a + "," + rest)[1..] == a[1..] + "," + rest;
      SplitAfterPart(a[1..], rest);
      assert [a[0]] + a[1..] == a;
    }
  }

  /** Splitting a joined list gives the list back, if no ticker holds a comma. */
  lemma {:induction false} SplitJoin(ts: seq<string>)
    requires |ts| > 0 && AllCommaFree(ts)
    ensures Split(Join(ts)) == ts
  {
    if |ts| == 1 {
      SplitCommaFree(ts[0]);
    } else {
      SplitAfterPart(ts[0], Join(ts[1..]));
      SplitJoin(ts[1..]);
      assert [ts[0]] + ts[1..] == ts;
    }
  }

  lemma {:induction false} JoinGrowsHead(c: char, parts: seq<string>)
    requires |parts| > 0
    ensures Join([[c] + parts[0]] + parts[1..]) == [c] + Join(parts)
  {
  }

  lemma {:induction false} JoinEmptyHead(rest: seq<string>)
    requires |rest| > 0
    ensures Join([""] + rest) == "," + Join(rest)
  {
    assert ([""] + rest)[0] == "" && ([""] + rest)[1..] == rest;
  }

  /** Joining the parts of a split gives the string back, whatever it holds. */
  lemma {:induction false} JoinSplit(s: string)
    ensures Join(Split(s)) == s
  {
    if |s| > 0 {
      var rest := Split(s[1..]);
      JoinSplit(s[1..]);
      if s[0] == ',' {
        assert Split(s) == [""] + rest;
        JoinEmptyHead(rest);
        assert s == "," + s[1..];
      } else {
        assert Split(s) == [[s[0]] + rest[0]] + rest[1..];
        JoinGrowsHead(s[0], rest);
        assert s == [s[0]] + s[1..];
      }
    }
  }

  function UpperChar(c: char): char
  {
    if 'a' <= c <= 'z' then (c as int - 32) as char else c
  }

  /** `t.upper()` on ASCII letters; every other character is kept. */
  function Upper(t: string): (u: string)
    ensures |u| == |t|
    ensures forall i :: 0 <= i < |t| ==>
      if 'a' <= t[i] <= 'z' then u[i] as int == t[i] as int - 32 else u[i] == t[i]
    ensures forall i :: 0 <= i < |u| ==> !('a' <= u[i] <= 'z')
  {
    seq(|t|, i requires 0 <= i < |t| => UpperChar(t[i]))
  }

  /** `[t.upper() for t in ts]` */
  function UpperAll(ts: seq<Ticker>): (us: seq<Ticker>)
    ensures |us| == |ts|
  {
    seq(|ts|, i requires 0 <= i < |ts| => Upper(ts[i]))
  }

  lemma {:induction false} UpperIdempotent(t: string)
    ensures Upper(Upper(t)) == Upper(t)
  {
    assert forall i :: 0 <= i < |t| ==> Upper(Upper(t))[i] == Upper(t)[i];
  }

  lemma {:induction false} UpperConcat(a: string, b: string)
    ensures Upper(a + b) == Upper(a) + Upper(b)
  {
    assert forall i :: 0 <= i < |a + b| ==> Upper(a + b)[i] == (Upper(a) + Upper(b))[i];
  }

  /** Upper-casing each ticker and then joining is upper-casing the joined string. */
  lemma {:induction false} UpperJoin(ts: seq<Ticker>)
    ensures Join(UpperAll(ts)) == Upper(Join(ts))
  {
    if |ts| > 1 {
      UpperJoin(ts[1..]);
      assert UpperAll(ts)[1..] == UpperAll(ts[1..]);
      UpperConcat(ts[0] + ",", Join(ts[1..]));
      UpperConcat(ts[0], ",");
    }
  }

  /** Upper-casing keeps a ticker free of commas. */
  lemma {:induction false} UpperCommaFree(ts: seq<Ticker>)
    requires AllCommaFree(ts)
    ensures AllCommaFree(UpperAll(ts))
  {
  }

  /** The `stocks` query parameter of the page's URL. */
  datatype QueryParam = Absent | Present(text: string)

  /** The `stocks` parameter once a selection has been made: the joined list, or removed. */
  function StocksParamAfter(tickers: seq<Ticker>): (p: QueryParam)
    ensures p.Present? <==> tickers != []
  {
    if tickers != [] then Present(Join(tickers)) else Absent
  }

  /** The selection a new session starts from: the URL's list, or the default list. */
  function InitialTickers(param: QueryParam): (ts: seq<Ticker>)
    ensures |ts| >= 1
    ensures AllCommaFree(ts)
  {
    Split(if param.Present? then param.text else Join(DEFAULT_STOCKS))
  }

  /** A session started from the URL written for a selection starts from that selection. */
  lemma {:induction false} ParamRoundTrip(tickers: seq<Ticker>)
    requires AllCommaFree(tickers)
    ensures InitialTickers(StocksParamAfter(tickers)) == if tickers == [] then DEFAULT_STOCKS else tickers
  {
    if tickers == [] {
      assert AllCommaFree(DEFAULT_STOCKS);
      SplitJoin(DEFAULT_STOCKS);
    } else {
      SplitJoin(tickers);
    }
  }

  /**
   * The selection as the page stores it: a session started from the URL
   * written for an upper-cased comma-free selection starts from that
   * upper-cased selection, or from the default list when nothing was chosen.
   */
  lemma {:induction false} SelectionRoundTrip(selected: seq<Ticker>)
    requires AllCommaFree(selected)
    ensures InitialTickers(StocksParamAfter(UpperAll(selected)))
         == if selected == [] then DEFAULT_STOCKS else UpperAll(selected)
  {
    UpperCommaFree(selected);
    ParamRoundTrip(UpperAll(selected));
  }
}
