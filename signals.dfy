/** The signal part of `get_stock_intelligence`: the defaults read from yfinance's
    `info` dict, the golden-cross trend test on simple moving averages of the daily
    closes, and the price/earnings value test. Prices are exact reals. */
module Signals {
  import opened Wrappers

  /** A value as the `info` dict may hold it: a Python int or float, a string, or None. */
  datatype PyValue = Num(n: real) | Str(s: string) | PyNone

  type Info = map<string, PyValue>

  /** The fields the card reads from `info`, after `.get` has supplied its defaults. */
  datatype Fundamentals = Fundamentals(
    name: PyValue, price: PyValue, pe: PyValue, eps: PyValue, change: PyValue)

  datatype Trend = Breakout | Consolidating

  const SHORT_WINDOW: nat := 50
  const LONG_WINDOW: nat := 200
  /** A price/earnings ratio strictly below this marks a value pick. */
  const VALUE_PE_LIMIT: real := 20.0
  const NOT_AVAILABLE := "N/A"

  /** `info.get(key, default)`. */
  function Get(info: Info, key: string, default: PyValue): (v: PyValue)
    ensures key in info ==> v == info[key]
    ensures key !in info ==> v == default
  {
    if key in info then info[key] else default
  }

  /** main.py:37-41: a field the provider did not send takes its default: the name falls
      back to the ticker, price and change to 0, P/E and EPS to 'N/A'. A field that is
      present is taken as sent, even when it is None. */
  function ReadFundamentals(ticker: string, info: Info): (f: Fundamentals)
    ensures f.name == (if "longName" in info then info["longName"] else Str(ticker))
    ensures f.price == (if "currentPrice" in info then info["currentPrice"] else Num(0.0))
    ensures f.pe == (if "trailingPE" in info then info["trailingPE"] else Str(NOT_AVAILABLE))
    ensures f.eps == (if "trailingEps" in info then info["trailingEps"] else Str(NOT_AVAILABLE))
    ensures f.change
         == (if "regularMarketChangePercent" in info then info["regularMarketChangePercent"] else Num(0.0))
  {
    Fundamentals(
      Get(info, "longName", Str(ticker)),
      Get(info, "currentPrice", Num(0.0)),
      Get(info, "trailingPE", Str(NOT_AVAILABLE)),
      Get(info, "trailingEps", Str(NOT_AVAILABLE)),
      Get(info, "regularMarketChangePercent", Num(0.0)))
  }

  function Sum(s: seq<real>): real
    decreases |s|
  {
    if s == [] then 0.0 else Sum(s[..|s| - 1]) + s[|s| - 1]
  }

  function Mean(s: seq<real>): real
    requires s != []
  {
    Sum(s) / (|s| as real)
  }

  /** The last `k` elements of `s`. */
  function Last(s: seq<real>, k: nat): (r: seq<real>)
    requires k <= |s|
    ensures |r| == k
  {
    s[|s| - k..]
  }

  /** The last value of the pandas rolling mean over `w` bars: the mean of the last `w`
      closes, or None (NaN in pandas) while there are fewer than `w` closes. */
  function MovingAverage(closes: seq<real>, w: nat): (m: Option<real>)
    requires w > 0
    ensures m.Some? <==> |closes| >= w
  {
    if |closes| < w then None else Some(Mean(Last(closes, w)))
  }

  /** `a > b` on floats where None stands for NaN: any comparison with NaN is false. */
  predicate Above(a: Option<real>, b: Option<real>) {
    a.Some? && b.Some? && a.value > b.value
  }

  /** main.py:46, the golden cross: a breakout needs a full 200-bar window,
      the 50-bar mean above the 200-bar mean, and the price above the 50-bar mean. */
  function IsBreakout(closes: seq<real>, price: real): (b: bool)
    ensures b <==> |closes| >= LONG_WINDOW
                   && Mean(Last(closes, SHORT_WINDOW)) > Mean(Last(closes, LONG_WINDOW))
                   && price > Mean(Last(closes, SHORT_WINDOW))
    ensures |closes| < LONG_WINDOW ==> !b
  {
    var ma50 := MovingAverage(closes, SHORT_WINDOW);
    var ma200 := MovingAverage(closes, LONG_WINDOW);
    Above(ma50, ma200) && Above(Some(price), ma50)
  }

  /** The label choice of main.py:47. */
  function TrendOf(closes: seq<real>, price: real): (t: Trend)
    ensures t == Breakout <==> IsBreakout(closes, price)
  {
    if IsBreakout(closes, price) then Breakout else Consolidating
  }

  /** main.py:51, the value scan: only a P/E that is a Python int or float below 20
      is a value pick; 'N/A', None or any other string never is. */
  function IsValue(pe: PyValue): (v: bool)
    ensures v ==> pe.Num?
    ensures pe.Num? ==> (v <==> pe.n < VALUE_PE_LIMIT)
  {
    pe.Num? && pe.n < VALUE_PE_LIMIT
  }

  /** A ticker the provider sent no P/E for is never a value pick. */
  lemma MissingPriceEarningsIsNoValue(ticker: string, info: Info)
    requires "trailingPE" !in info
    ensures !IsValue(ReadFundamentals(ticker, info).pe)
  {
  }

  /** A sum of numbers none below `lo` is at least `|s| * lo`. */
  lemma {:induction false} SumAtLeast(s: seq<real>, lo: real)
    requires forall k | 0 <= k < |s| :: lo <= s[k]
    ensures (|s| as real) * lo <= Sum(s)
    decreases |s|
  {
    if s != [] {
      SumAtLeast(s[..|s| - 1], lo);
    }
  }

  /** A sum of numbers none above `hi` is at most `|s| * hi`. */
  lemma {:induction false} SumAtMost(s: seq<real>, hi: real)
    requires forall k | 0 <= k < |s| :: s[k] <= hi
    ensures Sum(s) <= (|s| as real) * hi
    decreases |s|
  {
    if s != [] {
      SumAtMost(s[..|s| - 1], hi);
    }
  }

  /** A mean is no smaller than the smallest value averaged. */
  lemma MeanAtLeast(s: seq<real>, lo: real)
    requires s != []
    requires forall k | 0 <= k < |s| :: lo <= s[k]
    ensures lo <= Mean(s)
  {
    SumAtLeast(s, lo);
    assert Mean(s) * (|s| as real) == Sum(s);
  }

  /** A mean is no larger than the largest value averaged. */
  lemma MeanAtMost(s: seq<real>, hi: real)
    requires s != []
    requires forall k | 0 <= k < |s| :: s[k] <= hi
    ensures Mean(s) <= hi
  {
    SumAtMost(s, hi);
    assert Mean(s) * (|s| as real) == Sum(s);
  }

  /** A price at or below every one of the last 50 closes is not above their mean, so
      it never signals a breakout. */
  lemma NoBreakoutAtRecentLow(closes: seq<real>, price: real)
    requires forall k | 0 <= k < |closes| && |closes| - SHORT_WINDOW <= k :: price <= closes[k]
    ensures !IsBreakout(closes, price)
  {
    if |closes| >= LONG_WINDOW {
      var recent := Last(closes, SHORT_WINDOW);
      forall k | 0 <= k < |recent| ensures price <= recent[k] {
        assert recent[k] == closes[|closes| - SHORT_WINDOW + k];
      }
      MeanAtLeast(recent, price);
    }
  }

  /** Over a flat series the two averages coincide, so there is never a golden cross. */
  lemma FlatSeriesNeverBreaksOut(closes: seq<real>, c: real, price: real)
    requires forall k | 0 <= k < |closes| :: closes[k] == c
    ensures !IsBreakout(closes, price)
  {
    if |closes| >= LONG_WINDOW {
      var recent, year := Last(closes, SHORT_WINDOW), Last(closes, LONG_WINDOW);
      forall k | 0 <= k < |recent| ensures recent[k] == c {
        assert recent[k] == closes[|closes| - SHORT_WINDOW + k];
      }
      forall k | 0 <= k < |year| ensures year[k] == c {
        assert year[k] == closes[|closes| - LONG_WINDOW + k];
      }
      MeanAtMost(recent, c);
      MeanAtLeast(year, c);
    }
  }
}
