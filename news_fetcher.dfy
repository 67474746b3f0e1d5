/** Headline fetching with fallback, case-insensitive de-duplication and
    truncation, and the two-channel "minimum interval since the last call" rate
    limiter.

    The vendor calls are inputs: a NewsAPI response is `Option<seq<string>>`
    (its titles; `None` for an exception), an FMP news response is
    `Option<seq<FmpArticle>>`. The clock is read through parameters: `now` is
    what `time.time()` returns before sleeping, `overrun >= 0` how much later
    than requested the second `time.time()` reads. */
module NewsFetcher {
  import opened Common

  const NewsCallInterval: real := 1.0
  const FmpCallInterval: real := 0.5
  const SecondsPerDay: real := 86400.0

  /** An FMP news item: its title and the calendar day parsed from
      `publishedDate[:10]` (`None` when that prefix is not a date, which makes
      `strptime` raise). A day `d` starts at instant `d * 86400` seconds. */
  datatype FmpArticle = FmpArticle(title: string, publishedDay: Option<int>)

  /** An API key counts as configured when it is set and not empty. */
  predicate Configured(key: Option<string>)
  {
    key.Some? && key.value != ""
  }

  // ---------------------------------------------------------------------
  // Rate limiting
  // ---------------------------------------------------------------------

  /** How long `_rate_limit_wait` sleeps. */
  function WaitTime(elapsed: real, interval: real): (w: real)
    ensures w >= 0.0
    ensures w > 0.0 <==> elapsed < interval
    ensures elapsed + w >= interval
    ensures elapsed < interval ==> elapsed + w == interval
  {
    if elapsed < interval then interval - elapsed else 0.0
  }

  // ---------------------------------------------------------------------
  // FMP date filter
  // ---------------------------------------------------------------------

  /** An article published on day `d` passes when midnight of `d` is at or
      after the cutoff instant. */
  predicate Recent(day: int, cutoff: real)
  {
    day as real * SecondsPerDay >= cutoff
  }

  /** A later day, or an earlier cutoff, keeps an article recent. */
  lemma RecentMonotone(day: int, later: int, cutoff: real, earlier: real)
    requires Recent(day, cutoff) && day <= later && earlier <= cutoff
    ensures Recent(later, earlier)
  {
    assert day as real * SecondsPerDay <= later as real * SecondsPerDay;
  }

  /** Titles of the recent articles, in order; `None` when some date does not
      parse (the loop raises and the caller returns nothing). */
  function RecentTitles(articles: seq<FmpArticle>, cutoff: real): (r: Option<seq<string>>)
    ensures r.Some? <==> forall i :: 0 <= i < |articles| ==> articles[i].publishedDay.Some?
    ensures r.Some? ==> |r.value| <= |articles|
  {
    if articles == [] then Some([])
    else
      var init := RecentTitles(articles[..|articles| - 1], cutoff);
      var last := articles[|articles| - 1];
      assert forall i :: 0 <= i < |articles| - 1 ==> articles[..|articles| - 1][i] == articles[i];
      match (init, last.publishedDay)
      case (None, _) => None
      case (_, None) => None
      case (Some(ts), Some(d)) => Some(if Recent(d, cutoff) then ts + [last.title] else ts)
  }

  /** Every kept title belongs to a recent article; when every article is
      recent nothing is dropped, and when none is nothing is kept. */
  lemma {:induction false} RecentTitlesSound(articles: seq<FmpArticle>, cutoff: real)
    requires forall i :: 0 <= i < |articles| ==> articles[i].publishedDay.Some?
    ensures forall t :: t in RecentTitles(articles, cutoff).value ==>
              exists i :: 0 <= i < |articles| && articles[i].title == t && Recent(articles[i].publishedDay.value, cutoff)
    ensures (forall i :: 0 <= i < |articles| ==> Recent(articles[i].publishedDay.value, cutoff)) ==>
              RecentTitles(articles, cutoff).value == Titles(articles)
    ensures (forall i :: 0 <= i < |articles| ==> !Recent(articles[i].publishedDay.value, cutoff)) ==>
              RecentTitles(articles, cutoff).value == []
  {
    if articles != [] {
      var init := articles[..|articles| - 1];
      var n := |articles| - 1;
      assert forall i :: 0 <= i < |init| ==> init[i] == articles[i];
      RecentTitlesSound(init, cutoff);
      var ts := RecentTitles(init, cutoff).value;
      var r := RecentTitles(articles, cutoff).value;
      assert r == if Recent(articles[n].publishedDay.value, cutoff) then ts + [articles[n].title] else ts;
      forall t | t in r
        ensures exists i :: 0 <= i < |articles| && articles[i].title == t && Recent(articles[i].publishedDay.value, cutoff)
      {
        if t in ts {
          var i :| 0 <= i < |init| && init[i].title == t && Recent(init[i].publishedDay.value, cutoff);
          assert articles[i] == init[i];
        } else {
          assert t == articles[n].title && Recent(articles[n].publishedDay.value, cutoff);
        }
      }
    }
  }

  /** One article: its title when its date parses and is recent, nothing when
      it is old, and `None` when its date does not parse. */
  lemma RecentTitlesOne(a: FmpArticle, cutoff: real)
    ensures RecentTitles([a], cutoff) ==
              match a.publishedDay
              case None => None
              case Some(d) => Some(if Recent(d, cutoff) then [a.title] else [])
  {
    var s := [a];
    assert s[..|s| - 1] == [] && s[|s| - 1] == a;
    assert RecentTitles([], cutoff) == Some([]);
    match a.publishedDay
    case None =>
    case Some(d) =>
      assert RecentTitles(s, cutoff) == Some(if Recent(d, cutoff) then [] + [a.title] else []);
      assert [] + [a.title] == [a.title];
  }

  /** Filtering two lists one after the other is filtering their
      concatenation: together with `RecentTitlesOne`, the filter keeps exactly
      the recent articles' titles, in the order of the list. */
  lemma {:induction false} RecentTitlesAppend(a: seq<FmpArticle>, b: seq<FmpArticle>, cutoff: real)
    ensures RecentTitles(a + b, cutoff) ==
              if RecentTitles(a, cutoff).Some? && RecentTitles(b, cutoff).Some?
              then Some(RecentTitles(a, cutoff).value + RecentTitles(b, cutoff).value)
              else None
    decreases |b|
  {
    if b == [] {
      assert a + b == a;
      assert RecentTitles(b, cutoff) == Some([]);
      if RecentTitles(a, cutoff).Some? {
        assert RecentTitles(a, cutoff).value + [] == RecentTitles(a, cutoff).value;
      }
    } else {
      var b' := b[..|b| - 1];
      var ab := a + b;
      assert ab[..|ab| - 1] == a + b';
      assert ab[|ab| - 1] == b[|b| - 1];
      RecentTitlesAppend(a, b', cutoff);
      var x := b[|b| - 1];
      assert b[..|b| - 1] == b';
      var ra, rb', rab' := RecentTitles(a, cutoff), RecentTitles(b', cutoff), RecentTitles(a + b', cutoff);
      assert RecentTitles(b, cutoff) == match (rb', x.publishedDay)
        case (None, _) => None
        case (_, None) => None
        case (Some(ts), Some(d)) => Some(if Recent(d, cutoff) then ts + [x.title] else ts);
      assert RecentTitles(ab, cutoff) == match (rab', x.publishedDay)
        case (None, _) => None
        case (_, None) => None
        case (Some(ts), Some(d)) => Some(if Recent(d, cutoff) then ts + [x.title] else ts);
      if ra.Some? && rb'.Some? && x.publishedDay.Some? && Recent(x.publishedDay.value, cutoff) {
        assert ra.value + rb'.value + [x.title] == ra.value + (rb'.value + [x.title]);
      }
    }
  }

  function Titles(articles: seq<FmpArticle>): (t: seq<string>)
    ensures |t| == |articles|
    ensures forall i :: 0 <= i < |articles| ==> t[i] == articles[i].title
  {
    if articles == [] then [] else Titles(articles[..|articles| - 1]) + [articles[|articles| - 1].title]
  }

  /** The date-filter loop of `fetch_news_from_fmp`. */
  method FilterByDate(articles: seq<FmpArticle>, cutoff: real) returns (headlines: Option<seq<string>>)
    ensures headlines == RecentTitles(articles, cutoff)
  {
    var kept: seq<string> := [];
    var i := 0;
    while i < |articles|
      invariant 0 <= i <= |articles|
      invariant RecentTitles(articles[..i], cutoff) == Some(kept)
    {
      assert articles[..i + 1][..i] == articles[..i];
      match articles[i].publishedDay
      case None =>
        NoneStaysNone(articles, i + 1, cutoff);
        assert articles[..|articles|] == articles;
        return None;
      case Some(d) =>
        if Recent(d, cutoff) {
          kept := kept + [articles[i].title];
        }
      i := i + 1;
    }
    assert articles[..i] == articles;
    headlines := Some(kept);
  }

  lemma {:induction false} NoneStaysNone(articles: seq<FmpArticle>, k: nat, cutoff: real)
    requires 0 < k <= |articles| && articles[k - 1].publishedDay.None?
    ensures RecentTitles(articles[..|articles|], cutoff).None?
  {
    assert articles[..|articles|][k - 1] == articles[k - 1];
  }

  // ---------------------------------------------------------------------
  // De-duplication and truncation
  // ---------------------------------------------------------------------

  function LowerSet(hs: seq<string>): set<string>
  {
    set h | h in hs :: Lower(h)
  }

  /** Keeps the first headline of each case-insensitive class, in order. */
  function Dedup(hs: seq<string>): (r: seq<string>)
    ensures |r| <= |hs|
    ensures r == [] <==> hs == []
  {
    if hs == [] then []
    else
      var d := Dedup(hs[..|hs| - 1]);
      var last := hs[|hs| - 1];
      if Lower(last) in LowerSet(d) then d else d + [last]
  }

  lemma LowerSetAppend(d: seq<string>, x: string)
    ensures LowerSet(d + [x]) == LowerSet(d) + {Lower(x)}
  {
    assert forall h :: h in d + [x] <==> h in d || h == x;
  }

  /** No two kept headlines are equal after lower-casing; every kept headline
      was in the input; every input headline has its class represented. */
  lemma {:induction false} DedupProperties(hs: seq<string>)
    ensures var d := Dedup(hs);
            && (forall i, j :: 0 <= i < j < |d| ==> Lower(d[i]) != Lower(d[j]))
            && (forall h :: h in d ==> h in hs)
            && LowerSet(d) == LowerSet(hs)
  {
    if hs != [] {
      var init := hs[..|hs| - 1];
      var last := hs[|hs| - 1];
      DedupProperties(init);
      var d := Dedup(init);
      LowerSetAppend(d, last);
      LowerSetAppend(init, last);
      assert hs == init + [last];
      if Lower(last) !in LowerSet(d) {
        forall i | 0 <= i < |d| ensures Lower(d[i]) != Lower(last) {
          assert Lower(d[i]) in LowerSet(d);
        }
      }
    }
  }

  /** De-duplicating a longer list only adds at the end: the order of what
      was kept is preserved. */
  lemma {:induction false} DedupPrefix(a: seq<string>, b: seq<string>)
    ensures Dedup(a) <= Dedup(a + b)
    decreases |b|
  {
    if b != [] {
      var ab := a + b;
      assert ab[..|ab| - 1] == a + b[..|b| - 1];
      DedupPrefix(a, b[..|b| - 1]);
    } else {
      assert a + b == a;
    }
  }

  /** Each headline that is the first of its case-insensitive class is kept. */
  lemma {:induction false} DedupKeepsFirst(hs: seq<string>, i: nat)
    requires i < |hs|
    requires forall j :: 0 <= j < i ==> Lower(hs[j]) != Lower(hs[i])
    ensures hs[i] in Dedup(hs)
  {
    var prefix := hs[..i];
    var x := hs[i];
    var upTo := hs[..i + 1];
    DedupProperties(prefix);
    assert Lower(x) !in LowerSet(prefix) by {
      forall h | h in prefix ensures Lower(h) != Lower(x) {
        var j :| 0 <= j < i && prefix[j] == h;
      }
    }
    assert upTo[..|upTo| - 1] == prefix && upTo[|upTo| - 1] == x;
    assert Dedup(upTo) == Dedup(prefix) + [x];
    DedupPrefix(upTo, hs[i + 1..]);
    assert upTo + hs[i + 1..] == hs;
    var k := |Dedup(upTo)| - 1;
    assert Dedup(hs)[k] == Dedup(upTo)[k] == x;
  }

  /** Python's `s[:n]`, including negative `n`. */
  function Take<T>(s: seq<T>, n: int): (r: seq<T>)
    ensures r <= s
    ensures n >= 0 ==> |r| <= n
    ensures 0 <= n <= |s| ==> |r| == n
    ensures n >= |s| ==> r == s
    ensures n < 0 ==> |r| == if |s| + n > 0 then |s| + n else 0
  {
    if n >= 0 then (if n <= |s| then s[..n] else s)
    else if |s| + n > 0 then s[..|s| + n]
    else []
  }

  /** The de-duplication loop of `fetch_company_news`. */
  method DedupHeadlines(allHeadlines: seq<string>) returns (unique: seq<string>)
    ensures unique == Dedup(allHeadlines)
  {
    var seen: set<string> := {};
    unique := [];
    for i := 0 to |allHeadlines|
      invariant unique == Dedup(allHeadlines[..i])
      invariant seen == LowerSet(unique)
    {
      var headline := allHeadlines[i];
      assert allHeadlines[..i + 1][..i] == allHeadlines[..i];
      if Lower(headline) !in seen {
        LowerSetAppend(unique, headline);
        seen := seen + {Lower(headline)};
        unique := unique + [headline];
      }
    }
    assert allHeadlines[..|allHeadlines|] == allHeadlines;
  }

  /** What `fetch_news_from_newsapi` returns. */
  function NewsApiHeadlines(configured: bool, response: Option<seq<string>>): (r: seq<string>)
    ensures r != [] ==> configured && response.Some?
    ensures configured && response.Some? ==> r == response.value
  {
    if !configured then [] else match response case None => [] case Some(titles) => titles
  }

  /** What `fetch_news_from_fmp` returns. */
  function FmpHeadlines(configured: bool, response: Option<seq<FmpArticle>>, cutoff: real): (r: seq<string>)
    ensures r != [] ==> configured && response.Some?
    ensures forall t :: t in r ==>
              exists i :: 0 <= i < |response.value| && response.value[i].title == t
                && response.value[i].publishedDay.Some? && Recent(response.value[i].publishedDay.value, cutoff)
  {
    if !configured then []
    else match response
      case None => []
      case Some(articles) =>
        match RecentTitles(articles, cutoff)
        case None => []
        case Some(ts) =>
          RecentTitlesSound(articles, cutoff);
          assert forall t :: t in ts ==>
            exists i :: 0 <= i < |articles| && articles[i].title == t
              && articles[i].publishedDay.Some? && Recent(articles[i].publishedDay.value, cutoff);
          ts
  }

  /** The merge rule: FMP is consulted only when NewsAPI gave fewer than 5. */
  function Merged(news: seq<string>, fmp: seq<string>): (r: seq<string>)
    ensures news <= r
    ensures forall h :: h in r ==> h in news || h in fmp
    ensures |news| >= 5 ==> r == news
    ensures |news| < 5 ==> r[|news|..] == fmp
  {
    if |news| < 5 then news + fmp else news
  }

  /** The result of `fetch_company_news`: no two headlines equal after
      lower-casing, each taken from one of the two sources, at most
      `maxArticles` of them, and only NewsAPI headlines once NewsAPI gave
      five. */
  lemma CompanyNewsProperties(news: seq<string>, fmp: seq<string>, maxArticles: int)
    ensures var r := Take(Dedup(Merged(news, fmp)), maxArticles);
            && (forall i, j :: 0 <= i < j < |r| ==> Lower(r[i]) != Lower(r[j]))
            && (forall h :: h in r ==> h in news || h in fmp)
            && (maxArticles >= 0 ==> |r| <= maxArticles)
            && (|news| >= 5 ==> forall h :: h in r ==> h in news)
  {
    var all := Merged(news, fmp);
    var d := Dedup(all);
    var r := Take(d, maxArticles);
    DedupProperties(all);
    forall i, j | 0 <= i < j < |r| ensures Lower(r[i]) != Lower(r[j]) {
      assert r[i] == d[i] && r[j] == d[j];
    }
    forall h | h in r ensures h in news || h in fmp {
      assert h in d;
      assert h in all;
    }
  }

  // ---------------------------------------------------------------------
  // The fetcher object
  // ---------------------------------------------------------------------

  /** The time `_rate_limit_wait` records for a channel last used at `last`:
      the call's clock reading after the sleep. */
  function Stamp(now: real, last: real, interval: real, overrun: real): (t: real)
    requires overrun >= 0.0
    ensures t >= last + interval
    ensures t >= now
  {
    now + WaitTime(now - last, interval) + overrun
  }

  class NewsDataFetcher {
    const newsApiKey: Option<string>
    const fmpApiKey: Option<string>
    /** Whether the NewsAPI client was constructed. */
    const hasNewsApiClient: bool
    var lastNewsCall: real
    var lastFmpCall: real

    /** `__init__`; `clientInitSucceeds` says whether `NewsApiClient(...)` raised. */
    constructor (newsApiKey: Option<string>, fmpApiKey: Option<string>, clientInitSucceeds: bool)
      ensures this.newsApiKey == newsApiKey && this.fmpApiKey == fmpApiKey
      ensures hasNewsApiClient == (Configured(newsApiKey) && clientInitSucceeds)
      ensures lastNewsCall == 0.0 && lastFmpCall == 0.0
    {
      this.newsApiKey := newsApiKey;
      this.fmpApiKey := fmpApiKey;
      hasNewsApiClient := Configured(newsApiKey) && clientInitSucceeds;
      lastNewsCall := 0.0;
      lastFmpCall := 0.0;
    }

    /** `_rate_limit_wait`: sleeps until the channel's interval has passed
        since its last call, then records the time. Unknown channels are
        ignored. */
    method RateLimitWait(apiType: string, now: real, overrun: real) returns (slept: real)
      requires overrun >= 0.0
      modifies this
      ensures apiType == "news" ==>
        && slept == WaitTime(now - old(lastNewsCall), NewsCallInterval)
        && lastNewsCall == now + slept + overrun
        && lastNewsCall >= old(lastNewsCall) + NewsCallInterval
        && lastFmpCall == old(lastFmpCall)
      ensures apiType == "fmp" ==>
        && slept == WaitTime(now - old(lastFmpCall), FmpCallInterval)
        && lastFmpCall == now + slept + overrun
        && lastFmpCall >= old(lastFmpCall) + FmpCallInterval
        && lastNewsCall == old(lastNewsCall)
      ensures apiType != "news" && apiType != "fmp" ==>
        slept == 0.0 && lastNewsCall == old(lastNewsCall) && lastFmpCall == old(lastFmpCall)
    {
      slept := 0.0;
      if apiType == "news" {
        var elapsed := now - lastNewsCall;
        if elapsed < NewsCallInterval {
          slept := NewsCallInterval - elapsed;
        }
        lastNewsCall := now + slept + overrun;
      } else if apiType == "fmp" {
        var elapsed := now - lastFmpCall;
        if elapsed < FmpCallInterval {
          slept := FmpCallInterval - elapsed;
        }
        lastFmpCall := now + slept + overrun;
      }
    }

    /** `fetch_news_from_newsapi`: without a client or key, no request and no
        rate-limit bookkeeping. */
    method FetchNewsFromNewsApi(response: Option<seq<string>>, now: real, overrun: real)
      returns (headlines: seq<string>)
      requires overrun >= 0.0
      modifies this
      ensures headlines == NewsApiHeadlines(hasNewsApiClient && Configured(newsApiKey), response)
      ensures lastFmpCall == old(lastFmpCall)
      ensures !(hasNewsApiClient && Configured(newsApiKey)) ==> lastNewsCall == old(lastNewsCall)
      ensures hasNewsApiClient && Configured(newsApiKey) ==> lastNewsCall == Stamp(now, old(lastNewsCall), NewsCallInterval, overrun)
    {
      if !hasNewsApiClient || !Configured(newsApiKey) {
        return [];
      }
      var _ := RateLimitWait("news", now, overrun);
      headlines := match response case None => [] case Some(titles) => titles;
    }

    /** `fetch_news_from_fmp`; `localNow` is `datetime.now()` in seconds, so
        the cutoff is `localNow - daysBack` days. */
    method FetchNewsFromFmp(response: Option<seq<FmpArticle>>, daysBack: int, now: real, overrun: real, localNow: real)
      returns (headlines: seq<string>)
      requires overrun >= 0.0
      modifies this
      ensures headlines == FmpHeadlines(Configured(fmpApiKey), response, localNow - daysBack as real * SecondsPerDay)
      ensures lastNewsCall == old(lastNewsCall)
      ensures !Configured(fmpApiKey) ==> lastFmpCall == old(lastFmpCall)
      ensures Configured(fmpApiKey) ==> lastFmpCall == Stamp(now, old(lastFmpCall), FmpCallInterval, overrun)
    {
      if !Configured(fmpApiKey) {
        return [];
      }
      var _ := RateLimitWait("fmp", now, overrun);
      match response
      case None =>
        headlines := [];
      case Some(articles) =>
        var filtered := FilterByDate(articles, localNow - daysBack as real * SecondsPerDay);
        headlines := match filtered case None => [] case Some(ts) => ts;
    }

    /** `fetch_earnings_transcript`: the first item's `content`, if any. */
    method FetchEarningsTranscript(response: Option<seq<map<string, string>>>, now: real, overrun: real)
      returns (transcript: Option<string>)
      requires overrun >= 0.0
      modifies this
      ensures lastNewsCall == old(lastNewsCall)
      ensures !Configured(fmpApiKey) ==> transcript == None && lastFmpCall == old(lastFmpCall)
      ensures Configured(fmpApiKey) ==> lastFmpCall == Stamp(now, old(lastFmpCall), FmpCallInterval, overrun)
      ensures transcript.Some? <==>
        && Configured(fmpApiKey) && response.Some? && response.value != []
        && "content" in response.value[0] && response.value[0]["content"] != ""
      ensures transcript.Some? ==> transcript.value == response.value[0]["content"]
    {
      if !Configured(fmpApiKey) {
        return None;
      }
      var _ := RateLimitWait("fmp", now, overrun);
      transcript := None;
      if response.Some? && response.value != [] {
        var first := response.value[0];
        var content := if "content" in first then first["content"] else "";
        if content != "" {
          transcript := Some(content);
        }
      }
    }

    /** `fetch_company_news`. */
    method FetchCompanyNews(
      newsResponse: Option<seq<string>>, fmpResponse: Option<seq<FmpArticle>>,
      daysBack: int, maxArticles: int,
      newsNow: real, newsOverrun: real, fmpNow: real, fmpOverrun: real, localNow: real)
      returns (result: seq<string>)
      requires newsOverrun >= 0.0 && fmpOverrun >= 0.0
      modifies this
      ensures var news := NewsApiHeadlines(hasNewsApiClient && Configured(newsApiKey), newsResponse);
              var fmp := FmpHeadlines(Configured(fmpApiKey), fmpResponse, localNow - daysBack as real * SecondsPerDay);
              && result == Take(Dedup(Merged(news, fmp)), maxArticles)
              && lastNewsCall == (if hasNewsApiClient && Configured(newsApiKey)
                                  then Stamp(newsNow, old(lastNewsCall), NewsCallInterval, newsOverrun)
                                  else old(lastNewsCall))
              && lastFmpCall == (if |news| < 5 && Configured(fmpApiKey)
                                 then Stamp(fmpNow, old(lastFmpCall), FmpCallInterval, fmpOverrun)
                                 else old(lastFmpCall))
    {
      var allHeadlines := FetchNewsFromNewsApi(newsResponse, newsNow, newsOverrun);
      if |allHeadlines| < 5 {
        var fmpHeadlines := FetchNewsFromFmp(fmpResponse, daysBack, fmpNow, fmpOverrun, localNow);
        allHeadlines := allHeadlines + fmpHeadlines;
      }
      var unique := DedupHeadlines(allHeadlines);
      result := Take(unique, maxArticles);
    }
  }
}
