/** `get_refined_news`: picks one headline for a ticker from the news service's answer.
    The HTTP request and the JSON decoding are not modelled; their result is the
    `Response` parameter. */
module News {
  import opened Wrappers
  import opened Text

  /** One entry the loop of main.py:23 visits. `title` is None when the entry has no
      'title' key, is not a JSON object, or holds a title that is not a string (null, a
      number): `art['title'].lower()` then raises. `url` is None only when the entry has
      no 'url' key (`art['url']` raises KeyError); any value that is present is formatted
      by the f-string, so it is the text Python prints for it (a JSON null gives "None"). */
  datatype Article = Article(title: Option<string>, url: Option<string>)

  /** What the HTTP request and its JSON decoding produced, as the loop of main.py:23
      sees it. */
  datatype Response =
    | RequestFailed         // the request or the decoding raised, or the answer is not a JSON object
    | NoArticles            // a JSON object without an 'articles' key, such as the service's error answer
    | NotIterable           // an 'articles' value the `for` cannot iterate (null, a number, a boolean)
    | Articles(list: seq<Article>)  // the entries the `for` visits, in order

  /** The three things `get_refined_news` can return. */
  datatype Outcome =
    | Headline(title: string, url: string)  // the first matching article
    | Neutral                               // nothing matched
    | Unavailable                           // an exception was caught

  const NEUTRAL_MARKER := "Neutral: Watching for financial catalysts."
  const UNAVAILABLE_MARKER := "News Service Unavailable"

  /** The core name (main.py:14): the first field of the company name split on ' ',
      i.e. the name up to its first space. */
  function CoreName(companyName: string): (r: string)
    ensures |r| <= |companyName| && r == companyName[..|r|]
    ensures ' ' !in r
    ensures ' ' in companyName ==> |r| < |companyName| && companyName[|r|] == ' '
    ensures ' ' !in companyName ==> r == companyName
    ensures companyName == [] || companyName[0] == ' ' ==> r == []
  {
    SplitHead(companyName, ' ');
    Split(companyName, ' ')[0]
  }

  /** The clean ticker (main.py:15): the first field of the ticker split on '.', i.e.
      the ticker up to its FIRST dot, so "A.B.NS" gives "A". */
  function CleanTicker(ticker: string): (r: string)
    ensures |r| <= |ticker| && r == ticker[..|r|]
    ensures '.' !in r
    ensures '.' in ticker ==> |r| < |ticker| && ticker[|r|] == '.'
    ensures '.' !in ticker ==> r == ticker
  {
    SplitHead(ticker, '.');
    Split(ticker, '.')[0]
  }

  function Quoted(term: string): string {
    "\"" + term + "\""
  }

  /** The catalyst keywords the query requires next to the name or ticker. */
  const CATALYST_TERMS := "(stock OR \"order book\" OR \"L1 bidder\" OR results OR breakout OR multibagger)"

  /** The boolean query sent to the news service: one stage, the quoted core name or
      clean ticker AND one of six catalyst keywords. */
  function Query(coreName: string, cleanTicker: string): (q: string)
    ensures Contains(q, Quoted(coreName)) && Contains(q, Quoted(cleanTicker))
    ensures Contains(q, CATALYST_TERMS)
  {
    ContainsEachOfThree("(", Quoted(coreName), " OR ", Quoted(cleanTicker), ") AND ", CATALYST_TERMS);
    "(" + Quoted(coreName) + " OR " + Quoted(cleanTicker) + ") AND " + CATALYST_TERMS
  }

  /** The test of main.py:24: the lower-cased title contains the lower-cased clean ticker
      or the lower-cased core name. */
  predicate TitleMatches(title: string, cleanTicker: string, coreName: string)
    ensures cleanTicker == [] || coreName == [] ==> TitleMatches(title, cleanTicker, coreName)
    ensures TitleMatches(title, cleanTicker, coreName) ==> |cleanTicker| <= |title| || |coreName| <= |title|
  {
    Contains(Lower(title), Lower(cleanTicker)) || Contains(Lower(title), Lower(coreName))
  }

  /** The match is case-insensitive: lower-casing the title, the ticker or the name
      first does not change it. */
  lemma MatchIgnoresCase(title: string, cleanTicker: string, coreName: string)
    ensures TitleMatches(Lower(title), Lower(cleanTicker), Lower(coreName))
        <==> TitleMatches(title, cleanTicker, coreName)
  {
    LowerIdempotent(title);
    LowerIdempotent(cleanTicker);
    LowerIdempotent(coreName);
  }

  /** The scan passes over `a`: its title can be read and does not match. */
  predicate Passed(a: Article, cleanTicker: string, coreName: string) {
    a.title.Some? && !TitleMatches(a.title.value, cleanTicker, coreName)
  }

  /** Article `k` is the first whose title matches, and every earlier one was passed over. */
  predicate FirstMatchAt(articles: seq<Article>, k: int, cleanTicker: string, coreName: string) {
    && 0 <= k < |articles|
    && articles[k].title.Some?
    && TitleMatches(articles[k].title.value, cleanTicker, coreName)
    && forall j | 0 <= j < k :: Passed(articles[j], cleanTicker, coreName)
  }

  /** The scan stops with an exception at article `k`: every earlier one was passed over,
      and `k` has no readable title, or matches but has no readable url. */
  predicate FailsAt(articles: seq<Article>, k: int, cleanTicker: string, coreName: string) {
    && 0 <= k < |articles|
    && (articles[k].title.None?
        || (TitleMatches(articles[k].title.value, cleanTicker, coreName) && articles[k].url.None?))
    && forall j | 0 <= j < k :: Passed(articles[j], cleanTicker, coreName)
  }

  /** What the `for` loop over the articles returns, written as a recursive function. */
  function Scan(articles: seq<Article>, cleanTicker: string, coreName: string): (r: Outcome)
    ensures r.Headline? ==> Article(Some(r.title), Some(r.url)) in articles
                            && TitleMatches(r.title, cleanTicker, coreName)
    ensures articles == [] ==> r == Neutral
    decreases |articles|
  {
    if articles == [] then Neutral
    else
      var a := articles[0];
      if a.title.None? then Unavailable
      else if TitleMatches(a.title.value, cleanTicker, coreName) then
        (if a.url.None? then Unavailable else Headline(a.title.value, a.url.value))
      else Scan(articles[1..], cleanTicker, coreName)
  }

  /** What `get_refined_news` returns for a ticker and company name when the service
      answered `response`. */
  function RefinedNews(ticker: string, companyName: string, response: Response): (r: Outcome)
    ensures response.RequestFailed? || response.NotIterable? ==> r == Unavailable
    ensures response.NoArticles? || response == Articles([]) ==> r == Neutral
  {
    match response
    case RequestFailed => Unavailable
    case NotIterable => Unavailable
    case NoArticles => Scan([], CleanTicker(ticker), CoreName(companyName))
    case Articles(list) => Scan(list, CleanTicker(ticker), CoreName(companyName))
  }

  /** `get_refined_news`, with its `for` loop and early returns. */
  method GetRefinedNews(ticker: string, companyName: string, response: Response) returns (r: Outcome)
    ensures r == RefinedNews(ticker, companyName, response)
  {
    var coreName := CoreName(companyName);
    var cleanTicker := CleanTicker(ticker);
    if response.RequestFailed? || response.NotIterable? {
      return Unavailable;
    }
    var articles := if response.Articles? then response.list else [];
    for i := 0 to |articles|
      invariant Scan(articles, cleanTicker, coreName) == Scan(articles[i..], cleanTicker, coreName)
    {
      assert articles[i..][0] == articles[i] && articles[i..][1..] == articles[i + 1..];
      var art := articles[i];
      if art.title.None? {
        return Unavailable;
      }
      if TitleMatches(art.title.value, cleanTicker, coreName) {
        if art.url.None? {
          return Unavailable;
        }
        return Headline(art.title.value, art.url.value);
      }
    }
    assert articles[|articles|..] == [];
    return Neutral;
  }

  /** The string `get_refined_news` hands to the card. */
  function Render(o: Outcome): (r: string)
    ensures o.Headline? ==> Contains(r, o.title) && Contains(r, o.url)
  {
    match o
    case Headline(title, url) =>
      var before, middle, after := "\U{1F525} <b>", "</b><br><a href='", "'>View Source</a>";
      var r := before + title + middle + url + after;
      ContainsInfix(before, title, middle + url + after);
      assert r == before + title + (middle + url + after);
      ContainsInfix(before + title + middle, url, after);
      r
    case Neutral => NEUTRAL_MARKER
    case Unavailable => UNAVAILABLE_MARKER
  }

  /** The three outcomes render as three different strings, so a reader of the report
      can tell a found headline, "no news" and "service down" apart. */
  lemma RenderedOutcomesDiffer(o1: Outcome, o2: Outcome)
    requires o1.Headline? != o2.Headline? || o1.Neutral? != o2.Neutral?
    ensures Render(o1) != Render(o2)
  {
    var s1, s2 := Render(o1), Render(o2);
    if o1.Headline? || o2.Headline? {
      assert s1[0] != s2[0];
    } else {
      assert s1[2] != s2[2];
    }
  }

  /** The scan returns a headline exactly when some article is the first match and
      has a url, and the headline is that article's title and url. */
  lemma {:induction false} ScanHeadline(articles: seq<Article>, cleanTicker: string, coreName: string, title: string, url: string)
    ensures Scan(articles, cleanTicker, coreName) == Headline(title, url)
        <==> exists k :: FirstMatchAt(articles, k, cleanTicker, coreName)
                         && articles[k].title == Some(title) && articles[k].url == Some(url)
    decreases |articles|
  {
    if articles != [] {
      var a := articles[0];
      var tail := articles[1..];
      ScanHeadline(tail, cleanTicker, coreName, title, url);
      if Passed(a, cleanTicker, coreName) {
        if exists k :: FirstMatchAt(articles, k, cleanTicker, coreName)
                       && articles[k].title == Some(title) && articles[k].url == Some(url) {
          var k :| FirstMatchAt(articles, k, cleanTicker, coreName)
                   && articles[k].title == Some(title) && articles[k].url == Some(url);
          assert k > 0;
          assert FirstMatchAt(tail, k - 1, cleanTicker, coreName) by {
            forall j | 0 <= j < k - 1 ensures Passed(tail[j], cleanTicker, coreName) {
              assert tail[j] == articles[j + 1];
            }
          }
        }
        if exists k :: FirstMatchAt(tail, k, cleanTicker, coreName)
                       && tail[k].title == Some(title) && tail[k].url == Some(url) {
          var k :| FirstMatchAt(tail, k, cleanTicker, coreName)
                   && tail[k].title == Some(title) && tail[k].url == Some(url);
          assert FirstMatchAt(articles, k + 1, cleanTicker, coreName) by {
            forall j | 0 <= j < k + 1 ensures Passed(articles[j], cleanTicker, coreName) {
              if j > 0 { assert articles[j] == tail[j - 1]; }
            }
          }
        }
      } else if a.title.Some? {
        if exists k :: FirstMatchAt(articles, k, cleanTicker, coreName)
                       && articles[k].title == Some(title) && articles[k].url == Some(url) {
          var k :| FirstMatchAt(articles, k, cleanTicker, coreName)
                   && articles[k].title == Some(title) && articles[k].url == Some(url);
          assert k == 0;
        }
        if Scan(articles, cleanTicker, coreName) == Headline(title, url) {
          assert FirstMatchAt(articles, 0, cleanTicker, coreName);
        }
      } else {
        assert !Passed(articles[0], cleanTicker, coreName);
      }
    }
  }

  /** The scan returns the neutral marker exactly when every article was passed over
      (in particular when there are no articles). */
  lemma {:induction false} ScanNeutral(articles: seq<Article>, cleanTicker: string, coreName: string)
    ensures Scan(articles, cleanTicker, coreName) == Neutral
        <==> forall j | 0 <= j < |articles| :: Passed(articles[j], cleanTicker, coreName)
    decreases |articles|
  {
    if articles != [] {
      var tail := articles[1..];
      ScanNeutral(tail, cleanTicker, coreName);
      if Passed(articles[0], cleanTicker, coreName) {
        if forall j | 0 <= j < |tail| :: Passed(tail[j], cleanTicker, coreName) {
          forall j | 0 <= j < |articles| ensures Passed(articles[j], cleanTicker, coreName) {
            if j > 0 { assert articles[j] == tail[j - 1]; }
          }
        }
        if forall j | 0 <= j < |articles| :: Passed(articles[j], cleanTicker, coreName) {
          forall j | 0 <= j < |tail| ensures Passed(tail[j], cleanTicker, coreName) {
            assert tail[j] == articles[j + 1];
          }
        }
      }
    }
  }

  /** The scan reports the service unavailable exactly when it stops with an exception
      at some article before any match. */
  lemma {:induction false} ScanUnavailable(articles: seq<Article>, cleanTicker: string, coreName: string)
    ensures Scan(articles, cleanTicker, coreName) == Unavailable
        <==> exists k :: FailsAt(articles, k, cleanTicker, coreName)
    decreases |articles|
  {
    if articles != [] {
      var a := articles[0];
      var tail := articles[1..];
      ScanUnavailable(tail, cleanTicker, coreName);
      if Passed(a, cleanTicker, coreName) {
        if exists k :: FailsAt(articles, k, cleanTicker, coreName) {
          var k :| FailsAt(articles, k, cleanTicker, coreName);
          assert k > 0;
          assert FailsAt(tail, k - 1, cleanTicker, coreName) by {
            forall j | 0 <= j < k - 1 ensures Passed(tail[j], cleanTicker, coreName) {
              assert tail[j] == articles[j + 1];
            }
          }
        }
        if exists k :: FailsAt(tail, k, cleanTicker, coreName) {
          var k :| FailsAt(tail, k, cleanTicker, coreName);
          assert FailsAt(articles, k + 1, cleanTicker, coreName) by {
            forall j | 0 <= j < k + 1 ensures Passed(articles[j], cleanTicker, coreName) {
              if j > 0 { assert articles[j] == tail[j - 1]; }
            }
          }
        }
      } else {
        if Scan(articles, cleanTicker, coreName) == Unavailable {
          assert FailsAt(articles, 0, cleanTicker, coreName);
        }
        assert !Passed(articles[0], cleanTicker, coreName);
      }
    }
  }

  /** An empty core name (an empty company name, or one starting with a space) is in
      every title, so the first article is the headline whenever it is well formed. */
  lemma EmptyCoreNameTakesFirstArticle(ticker: string, companyName: string, articles: seq<Article>)
    requires companyName == [] || companyName[0] == ' '
    requires articles != [] && articles[0].title.Some? && articles[0].url.Some?
    ensures RefinedNews(ticker, companyName, Articles(articles))
         == Headline(articles[0].title.value, articles[0].url.value)
  {
    assert CoreName(companyName) == [];
  }
}
