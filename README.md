# Stock-Tracker scan core in Dafny

Stock-Tracker is a daily batch script, `main.py`. It reads a watchlist of ticker symbols. For each ticker it fetches a year of prices and a fundamentals snapshot from Yahoo Finance, and one headline from NewsAPI. It turns these into an HTML "intelligence card" and mails the page of cards. This project models the decision logic inside that script and proves what it promises:

- **Name and ticker normalisation** (`News.CoreName`, `News.CleanTicker`). The company name is cut at its first space and the ticker at its first dot. The code splits at the FIRST dot, not the last one, so `"A.B.NS"` gives `"A"`.
- **Headline selection** (`News.GetRefinedNews`, specified by `News.RefinedNews` and `News.Scan`). A first-match scan over the service's articles. The test is whether the lower-cased title contains the lower-cased clean ticker or core name. There are three outcomes: a headline, the neutral marker, or "News Service Unavailable".
- **Signal engine** (`Signals`). The `.get` defaults of the fundamentals. The golden-cross breakout test on 50- and 200-bar simple moving averages; a mean that pandas would leave undefined (NaN) is `None`. The P/E < 20 value test.
- **Card and report** (`Report`). `get_stock_intelligence` yields a card or nothing. `main` parses the watchlist and appends the cards in watchlist order.

Python values from the `info` dict are modelled as `Signals.PyValue` (a number, a string or None), so the exceptions the script catches can be modelled too:

- Every exception caught in `get_stock_intelligence` becomes "no card".
- Every exception caught in `get_refined_news` becomes `News.Unavailable`.

Prices are exact `real`s. Network results are parameters: `Report.TickerData` for one ticker, and a function from ticker to `TickerData` for a whole run.

Facts about `main.py` that the model keeps:

- The news query is a single stage: the quoted core name OR the quoted clean ticker, AND one of six catalyst keywords (`stock`, `"order book"`, `"L1 bidder"`, `results`, `breakout`, `multibagger`).
- The ticker is cut at its first dot.
- Titles are tested in list order, case-insensitively, until the first match. That article is the headline if it has a `url` key. A title that is missing or not a string, reached before any match, or a match without a `url` key, gives "unavailable".
- The trend is one of two labels, BREAKOUT or CONSOLIDATING.
- The value test is a numeric P/E strictly below the constant 20.
- A NewsAPI error answer is a JSON object without an `articles` key. `.get` then yields an empty list, and the result is the neutral marker, not "unavailable" (see `News.RefinedNews`). An `articles` value of null cannot be iterated and gives "unavailable".

## Model

| member | source | states |
|---|---|---|
| Text.Split | main.py:14-15 | `str.split` on one separator always gives at least one piece, and no piece contains the separator |
| Text.JoinSplit | main.py:14-15 | joining the pieces of a split with the separator gives back the original string |
| Text.SplitHead | main.py:14-15 | the first piece of a split is the prefix before the first separator: a prefix without the separator, followed by the separator if anything follows it |
| Text.LowerIdempotent | main.py:24 | lower-casing an already lower-cased string changes nothing |
| Text.Lower | main.py:24 | the model of `lower()` keeps the length and maps each character through `LowerChar` in place |
| Text.LowerChar | main.py:24 | an ASCII capital maps to its small letter (code + 32); every other character is unchanged |
| Text.ContainsAt | main.py:24 | an occurrence of the needle at some offset makes Python's substring test true |
| Text.ContainsWitness | main.py:24 | a true substring test has an offset where the needle occurs (with ContainsAt: the test means "occurs somewhere") |
| Text.ContainsInfix | main.py:25 | a string glued between two others is contained in the result |
| Text.Contains | main.py:24 | the empty string is in every string, as in Python, and a string is never in a shorter one |
| Text.Strip | main.py:78 | `strip()` never lengthens a line, and its result neither starts nor ends with whitespace |
| Text.TrimStartSpec | main.py:78 | `lstrip` leaves a suffix that does not start with whitespace, and drops only whitespace |
| Text.TrimEndSpec | main.py:78 | `rstrip` leaves a prefix that does not end with whitespace, and drops only whitespace |
| Text.StripSpec | main.py:78 | `strip` gives a substring of the line with only whitespace around it, with no whitespace at either end; it is empty exactly when the line is all whitespace |
| Text.StripIdempotent | main.py:78 | stripping a stripped string changes nothing |
| News.CoreName | main.py:14 | the core name is the prefix of the company name before its first space; it has no space; it is the whole name when there is no space and empty when the name is empty or starts with a space |
| News.CleanTicker | main.py:15 | the clean ticker is the prefix before the first '.'; it has no '.'; it is the whole ticker when there is no '.' |
| News.Query | main.py:18 | the query contains the quoted core name, the quoted clean ticker and the catalyst keyword group |
| News.TitleMatches | main.py:24 | an empty clean ticker or core name matches every title; a title matches only if it is at least as long as the ticker or the name |
| News.Scan | main.py:23-26 | a headline the scan returns is one of the articles, with its title and url, and its title passes the match test; no articles give the neutral marker |
| News.Render | main.py:25-27 | the rendered headline shows the article's title and its url |
| News.RefinedNews | main.py:21-27 | a failed request, an undecodable answer or an `articles` value that cannot be iterated gives "unavailable"; an answer without an `articles` key, or with an empty list, gives the neutral marker |
| News.GetRefinedNews | main.py:21-27 | the loop with early returns gives exactly the outcome of the first-match scan specification |
| News.MatchIgnoresCase | main.py:24 | the title test is case-insensitive: lower-casing title, ticker or name beforehand gives the same answer |
| News.ScanHeadline | main.py:23-25 | the result is a headline with a given title and url iff some article is the first whose title matches, every earlier one has a readable non-matching title, and it has those title and url |
| News.ScanNeutral | main.py:23-26 | the result is the neutral marker iff every article has a readable title and none matches (so also for no articles) |
| News.ScanUnavailable | main.py:21-27 | the result is "unavailable" iff the scan reaches, before any match, an article whose title is missing or not a string, or a matching article with no `url` key |
| News.EmptyCoreNameTakesFirstArticle | main.py:24 | with an empty core name every title matches, so a well-formed first article is the headline |
| News.RenderedOutcomesDiffer | main.py:25-27 | a headline, the neutral marker and the unavailable marker render as three different strings |
| Signals.Get | main.py:37-41 | `dict.get` returns the stored value for a present key, even None, and the default for a missing one |
| Signals.ReadFundamentals | main.py:37-41 | an absent name defaults to the ticker, price and change to 0, P/E and EPS to 'N/A'; a present field is taken as sent |
| Signals.MovingAverage | main.py:44-45 | the rolling mean over w bars is defined exactly when there are at least w closes |
| Signals.IsBreakout | main.py:44-46 | breakout iff there are at least 200 closes, mean of the last 50 > mean of the last 200, and price > mean of the last 50; never with fewer than 200 closes |
| Signals.TrendOf | main.py:47 | the trend is BREAKOUT exactly when the breakout test holds, else CONSOLIDATING |
| Signals.IsValue | main.py:51 | a value pick needs a numeric P/E, and a numeric P/E is a value pick iff it is below 20 |
| Signals.MissingPriceEarningsIsNoValue | main.py:39 | a ticker with no `trailingPE` in its info (P/E 'N/A') is never a value pick |
| Signals.MeanAtLeast | main.py:44-45 | a mean is at least any lower bound of the averaged closes |
| Signals.MeanAtMost | main.py:44-45 | a mean is at most any upper bound of the averaged closes |
| Signals.NoBreakoutAtRecentLow | main.py:46 | a price at or below each of the last 50 closes never signals a breakout |
| Signals.FlatSeriesNeverBreaksOut | main.py:44-46 | over a constant price series the two averages are equal, so there is never a breakout |
| Report.AsMetric | main.py:65-66 | a P/E or EPS cell shows 'N/A' iff the value is the string 'N/A', and a figure iff the value is a number; anything else raises |
| Report.Intelligence | main.py:29-74 | a card exists iff the data was fetched, the history is non-empty and every field can be formatted; its name falls back to the ticker and its price to 0; its trend, value flag and news are those of the signal and news specifications |
| Report.CardShowsFundamentals | main.py:37-66 | a card shows the name, price and change read from `info` (with their defaults), and P/E and EPS cells formatted from the values read |
| Report.StockIntelligence | main.py:29-74 | the method that calls the news scan returns exactly the card of the specification |
| Report.ParseWatchlist | main.py:78 | the watchlist has at most as many entries as the file has lines |
| Report.WatchlistEntriesStripped | main.py:78 | every watchlist entry is non-empty and has no surrounding whitespace |
| Report.WatchlistIsStrippedLines | main.py:78 | a string is in the watchlist iff it is non-empty and is the stripped form of some line |
| Report.ParseWatchlistAppend | main.py:78 | parsing keeps file order: the watchlist of two runs of lines is the concatenation of their watchlists |
| Report.BlankLineIgnored | main.py:78 | a whitespace-only line contributes nothing to the watchlist |
| Report.ReportOf | main.py:84-85 | the report holds at most one card per ticker |
| Report.ReportAppend | main.py:84-85 | cards appear in watchlist order: the report of a split watchlist is the first part's cards followed by the second's |
| Report.SkippedTickerAddsNothing | main.py:34-74 | a ticker that yields no card (its fetch raised, its history is empty, or a field could not be formatted) contributes nothing to the report |
| Report.BuildReport | main.py:76-87 | the loop that appends each ticker's card builds exactly the report of the parsed watchlist |

## Left out

- Yahoo Finance calls: the history and the `info` dict are inputs (`Report.Market`). A raised exception is `ProviderFailed`.
- The NewsAPI request, API key, URL and JSON decoding: the decoded answer is an input (`News.Response`).
- The 4-day recency date: it depends on the wall clock.
- The HTML of the cards, the page header and footer, colours, emoji in the trend labels, and `:.2f` formatting: a card is modelled as the record of the values it shows (`Report.Card`).
- Reading `watchlist.txt`: the model starts from its lines.
- Sending the email over SMTP, and the environment variables.
- Floating point: prices and means are exact reals. NaN appears only as the undefined rolling mean (`None`). NaN or infinite values sent by the provider are not modelled.
- Pandas' rolling mean over closes that themselves hold NaN: not modelled.
- Python booleans (a subclass of int) as `info` values, and values of other types such as lists: not modelled.
- Text.LowerChar: lower-cases only the ASCII letters. Python's `str.lower` also lower-cases non-ASCII letters, and this model does not.
- Text.Lower: lower-cases ASCII letters only and always keeps the length. Python's `str.lower` also maps non-ASCII letters, and can lengthen a string ('\u0130' lower-cases to two characters). Titles, tickers and names outside ASCII may therefore match differently than in Python.
- The same ticker listed twice is assumed to get the same provider answers both times, because a whole run's world is one function from ticker to data.
