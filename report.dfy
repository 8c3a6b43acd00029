/** `get_stock_intelligence` (one card per ticker, or nothing) and `main` (the watchlist
    and the report assembled from the cards in watchlist order). The HTML of a card and
    of the page around the cards is not modelled: a card is the record of the values it
    shows, and the report is the sequence of cards appended to it. */
module Report {
  import opened Wrappers
  import opened Text
  import opened Signals
  import News

  /** A P/E or EPS cell: a number printed with two decimals, or the 'N/A' default. */
  datatype Metric = Figure(value: real) | NotAvailable

  /** What one card shows. */
  datatype Card = Card(
    name: string, price: real, change: real, pe: Metric, eps: Metric,
    trend: Trend, isValue: bool, news: News.Outcome)

  /** What yfinance gave for one ticker: an exception, or the daily closes of the last
      year (oldest first) and the `info` dict. */
  datatype Market = ProviderFailed | Quote(closes: seq<real>, info: Info)

  /** Everything the outside world answers about one ticker. */
  datatype TickerData = TickerData(market: Market, news: News.Response)

  /** The cell text for a P/E or EPS: 'N/A' is shown as is, a number is formatted, and
      anything else makes the `:.2f` format raise (None). */
  function AsMetric(v: PyValue): (m: Option<Metric>)
    ensures m == Some(NotAvailable) <==> v == Str(NOT_AVAILABLE)
    ensures m.Some? && m.value.Figure? <==> v.Num?
    ensures v.Num? ==> m == Some(Figure(v.n))
  {
    match v
    case Num(x) => Some(Figure(x))
    case Str(s) => if s == NOT_AVAILABLE then Some(NotAvailable) else None
    case PyNone => None
  }

  /** The fields can be put on a card without an exception: the name is a string (it
      is split for the news query), price and change are numbers (compared and
      formatted), and P/E and EPS are numbers or 'N/A'. */
  predicate Renderable(f: Fundamentals) {
    f.name.Str? && f.price.Num? && f.change.Num? && AsMetric(f.pe).Some? && AsMetric(f.eps).Some?
  }

  /** What `get_stock_intelligence(ticker)` returns; None is the empty string. */
  function Intelligence(ticker: string, data: TickerData): (c: Option<Card>)
    ensures c.Some? <==> data.market.Quote? && data.market.closes != []
                         && Renderable(ReadFundamentals(ticker, data.market.info))
    ensures c.Some? && "longName" !in data.market.info ==> c.value.name == ticker
    ensures c.Some? && "currentPrice" !in data.market.info ==> c.value.price == 0.0
    ensures c.Some? ==> (c.value.trend == Breakout <==> IsBreakout(data.market.closes, c.value.price))
    ensures c.Some? && |data.market.closes| < LONG_WINDOW ==> c.value.trend == Consolidating
    ensures c.Some? ==> (c.value.isValue <==> var pe := data.market.info;
                          "trailingPE" in pe && pe["trailingPE"].Num? && pe["trailingPE"].n < VALUE_PE_LIMIT)
    ensures c.Some? ==> c.value.news == News.RefinedNews(ticker, c.value.name, data.news)
  {
    match data.market
    case ProviderFailed => None
    case Quote(closes, info) =>
      if closes == [] then None
      else
        var f := ReadFundamentals(ticker, info);
        if !Renderable(f) then None
        else
          Some(Card(f.name.s, f.price.n, f.change.n, AsMetric(f.pe).value, AsMetric(f.eps).value,
                    TrendOf(closes, f.price.n), IsValue(f.pe),
                    News.RefinedNews(ticker, f.name.s, data.news)))
  }

  /** A card shows the fields read from `info` with their defaults (main.py:37-41):
      the name, the price and the change as read, and the P/E and EPS cells formatted
      from the values read. */
  lemma CardShowsFundamentals(ticker: string, data: TickerData)
    ensures var c := Intelligence(ticker, data);
      c.Some? ==> var f := ReadFundamentals(ticker, data.market.info);
                  && c.value.name == f.name.s && c.value.price == f.price.n
                  && c.value.change == f.change.n
                  && Some(c.value.pe) == AsMetric(f.pe) && Some(c.value.eps) == AsMetric(f.eps)
  {
  }

  /** `get_stock_intelligence`, which calls the news scan. */
  method StockIntelligence(ticker: string, data: TickerData) returns (c: Option<Card>)
    ensures c == Intelligence(ticker, data)
  {
    if data.market.ProviderFailed? || data.market.closes == [] {
      return None;
    }
    var closes, info := data.market.closes, data.market.info;
    var f := ReadFundamentals(ticker, info);
    // A price that is not a number raises either here (when ma50 > ma200) or when the
    // card formats it; both end in the empty string, so the trend of a stand-in is unused.
    var trend := TrendOf(closes, if f.price.Num? then f.price.n else 0.0);
    var isValue := IsValue(f.pe);
    if !f.name.Str? {
      return None;
    }
    var news := News.GetRefinedNews(ticker, f.name.s, data.news);
    if !Renderable(f) {
      return None;
    }
    c := Some(Card(f.name.s, f.price.n, f.change.n, AsMetric(f.pe).value, AsMetric(f.eps).value,
                   trend, isValue, news));
  }

  /** What one line of the watchlist contributes to the comprehension of main.py:78. */
  function Entry(line: string): seq<string> {
    var t := Strip(line);
    if t == [] then [] else [t]
  }

  /** The list comprehension of main.py:78: each line stripped, blank ones dropped,
      in file order. */
  function ParseWatchlist(lines: seq<string>): (stocks: seq<string>)
    ensures |stocks| <= |lines|
    decreases |lines|
  {
    if lines == [] then [] else Entry(lines[0]) + ParseWatchlist(lines[1..])
  }

  /** Every ticker read from the watchlist is non-empty and already stripped: it has no
      surrounding whitespace. */
  lemma {:induction false} WatchlistEntriesStripped(lines: seq<string>)
    ensures forall t | t in ParseWatchlist(lines) :: t != [] && Strip(t) == t
    decreases |lines|
  {
    if lines != [] {
      StripIdempotent(lines[0]);
      WatchlistEntriesStripped(lines[1..]);
    }
  }

  /** The watchlist holds exactly the stripped forms of the non-blank lines. */
  lemma {:induction false} WatchlistIsStrippedLines(lines: seq<string>)
    ensures forall t :: t in ParseWatchlist(lines)
                        <==> t != [] && exists j :: 0 <= j < |lines| && Strip(lines[j]) == t
    decreases |lines|
  {
    if lines != [] {
      var tail := lines[1..];
      WatchlistIsStrippedLines(tail);
      forall t ensures t in ParseWatchlist(lines)
                       <==> t != [] && exists j :: 0 <= j < |lines| && Strip(lines[j]) == t
      {
        if t != [] && exists j :: 0 <= j < |lines| && Strip(lines[j]) == t {
          var j :| 0 <= j < |lines| && Strip(lines[j]) == t;
          if j > 0 {
            assert Strip(tail[j - 1]) == t;
          }
        }
        if t in ParseWatchlist(tail) {
          var j :| 0 <= j < |tail| && Strip(tail[j]) == t;
          assert Strip(lines[j + 1]) == t;
        }
      }
    }
  }

  /** The comprehension keeps the order of the file: parsing two runs of lines one after
      the other gives the two watchlists one after the other. */
  lemma {:induction false} ParseWatchlistAppend(a: seq<string>, b: seq<string>)
    ensures ParseWatchlist(a + b) == ParseWatchlist(a) + ParseWatchlist(b)
    decreases |a|
  {
    if a == [] {
      assert a + b == b;
    } else {
      assert (a + b)[0] == a[0] && (a + b)[1..] == a[1..] + b;
      ParseWatchlistAppend(a[1..], b);
    }
  }

  /** A whitespace-only line on its own gives an empty watchlist. */
  lemma BlankLineParsesToNothing(line: string)
    requires AllSpace(line)
    ensures ParseWatchlist([line]) == []
  {
    StripSpec(line);
    assert [line][1..] == [];
  }

  /** Lines that contribute no ticker leave the rest of the watchlist as is. */
  lemma EmptyWatchlistDropsOut(a: seq<string>, m: seq<string>, b: seq<string>)
    requires ParseWatchlist(m) == []
    ensures ParseWatchlist(a + m + b) == ParseWatchlist(a) + ParseWatchlist(b)
  {
    ParseWatchlistAppend(a + m, b);
    ParseWatchlistAppend(a, m);
    assert ParseWatchlist(a) + ParseWatchlist(m) == ParseWatchlist(a);
  }

  /** A blank line (only whitespace) is dropped and nothing else changes. */
  lemma BlankLineIgnored(a: seq<string>, line: string, b: seq<string>)
    requires AllSpace(line)
    ensures ParseWatchlist(a + [line] + b) == ParseWatchlist(a + b)
  {
    BlankLineParsesToNothing(line);
    EmptyWatchlistDropsOut(a, [line], b);
    ParseWatchlistAppend(a, b);
  }

  /** The empty string or a one-card string, as the report loop appends it. */
  function Piece(c: Option<Card>): seq<Card> {
    if c.Some? then [c.value] else []
  }

  /** The cards the report loop of `main` appends for `stocks`, when the world answers
      `world(t)` about ticker `t`. */
  function ReportOf(stocks: seq<string>, world: string -> TickerData): (cards: seq<Card>)
    ensures |cards| <= |stocks|
    decreases |stocks|
  {
    if stocks == [] then []
    else
      var t := stocks[|stocks| - 1];
      ReportOf(stocks[..|stocks| - 1], world) + Piece(Intelligence(t, world(t)))
  }

  /** The report lists the cards in watchlist order: the cards of a watchlist split in
      two are the cards of the first part followed by those of the second. */
  lemma {:induction false} ReportAppend(a: seq<string>, b: seq<string>, world: string -> TickerData)
    ensures ReportOf(a + b, world) == ReportOf(a, world) + ReportOf(b, world)
    decreases |b|
  {
    if b == [] {
      assert a + b == a;
    } else {
      var t := b[|b| - 1];
      assert (a + b)[|a + b| - 1] == t;
      assert (a + b)[..|a + b| - 1] == a + b[..|b| - 1];
      ReportAppend(a, b[..|b| - 1], world);
      calc {
        ReportOf(a + b, world);
        ReportOf(a + b[..|b| - 1], world) + Piece(Intelligence(t, world(t)));
        ReportOf(a, world) + ReportOf(b[..|b| - 1], world) + Piece(Intelligence(t, world(t)));
        ReportOf(a, world) + (ReportOf(b[..|b| - 1], world) + Piece(Intelligence(t, world(t))));
      }
    }
  }

  /** A one-ticker watchlist whose ticker yields no card gives an empty report. */
  lemma NoCardReportsNothing(t: string, world: string -> TickerData)
    requires Intelligence(t, world(t)).None?
    ensures ReportOf([t], world) == []
  {
    assert [t][..0] == [];
  }

  /** A run of tickers whose own report is empty leaves the rest of the report as is. */
  lemma EmptyReportDropsOut(a: seq<string>, m: seq<string>, b: seq<string>, world: string -> TickerData)
    requires ReportOf(m, world) == []
    ensures ReportOf(a + m + b, world) == ReportOf(a, world) + ReportOf(b, world)
  {
    ReportAppend(a + m, b, world);
    ReportAppend(a, m, world);
    assert ReportOf(a, world) + ReportOf(m, world) == ReportOf(a, world);
  }

  /** A ticker whose processing ended in the empty string adds nothing to the report:
      its data could not be fetched, its history is empty, or a field could not be
      formatted. */
  lemma SkippedTickerAddsNothing(a: seq<string>, t: string, b: seq<string>, world: string -> TickerData)
    requires Intelligence(t, world(t)).None?
    ensures ReportOf(a + [t] + b, world) == ReportOf(a, world) + ReportOf(b, world)
  {
    NoCardReportsNothing(t, world);
    EmptyReportDropsOut(a, [t], b, world);
  }

  /** One turn of the report loop: the report of one more ticker is the report so far
      followed by that ticker's piece. */
  lemma ReportStep(stocks: seq<string>, i: nat, world: string -> TickerData)
    requires i < |stocks|
    ensures ReportOf(stocks[..i + 1], world)
         == ReportOf(stocks[..i], world) + Piece(Intelligence(stocks[i], world(stocks[i])))
  {
    assert stocks[..i + 1][..i] == stocks[..i];
  }

  /** `main`: parse the watchlist, then append each ticker's card in order. */
  method BuildReport(lines: seq<string>, world: string -> TickerData) returns (cards: seq<Card>)
    ensures cards == ReportOf(ParseWatchlist(lines), world)
  {
    var stocks := ParseWatchlist(lines);
    cards := [];
    for i := 0 to |stocks|
      invariant cards == ReportOf(stocks[..i], world)
    {
      var card := StockIntelligence(stocks[i], world(stocks[i]));
      ReportStep(stocks, i, world);
      cards := cards + Piece(card);
    }
    assert stocks[..|stocks|] == stocks;
  }
}
