# Financial dashboard core, modelled in Dafny

This project models the computational core behind a Streamlit financial dashboard. It covers:

- the two sentiment pipelines (FinBERT and TextBlob);
- news headline fetching with fallback and rate limiting;
- the earnings-transcript page's session cache;
- the portfolio holdings table;
- historical performance metrics;
- technical indicators;
- data cleaning;
- post-fetch ranking and grouping of market data.

It proves properties of each part. Machine-learning classifiers, vendor HTTP/yfinance calls and clocks are inputs of the model.

Modules, one per source file plus shared vocabulary:

- `Common` (common.dfy): `Option`, the three sentiment labels and their counts, `dict.get` with a default, string helpers (`Lower`, `Upper`, `Strip`, `split`/`join`), sums, means, minima and maxima of real sequences.
- `Sorting` (sorting.dfy): an insertion sort by a real key. It stands for pandas `sort_values` and is proved sorted and a permutation.
- `FinBertSentiment` (finbert_sentiment.dfy): `FinBERTAnalyzer` as a class with its lazily loaded model field, covering:
  - the thresholded argmax per text;
  - batch analysis with 100-character previews;
  - the aggregate (counts, percentages, mean confidence, strict-plurality vote);
  - the five-sentence chunking of an earnings call.
- `SentimentAnalyzer` (sentiment_analyzer.dfy): the ±0.1 polarity rule, the per-article batch table, the mean-polarity aggregate and the five-bucket indicator.
- `NewsFetcher` (news_fetcher.dfy): `NewsDataFetcher` as a class with its two last-call timestamps, covering:
  - the minimum-interval rate limiter;
  - NewsAPI, FMP (with its date filter) and the transcript fetch;
  - `fetch_company_news` (fallback below five headlines, case-insensitive de-duplication keeping first occurrences, truncation).
- `EarningsSession` (earnings_session.dfy): the `transcript_result`/`transcript_query` session fields as a class whose methods are the page's reruns. It never shows a transcript fetched for other inputs. It also covers content selection and the paragraph/500-character chunking.
- `PortfolioTracker` (portfolio_tracker.dfy):
  - the holdings dictionary as a class (insert-or-overwrite, remove);
  - the summary and allocation tables;
  - `calculate_portfolio_metrics`, which adds a `weight` column to the caller's frame in place.
- `HistoricalAnalysis` (historical_analysis.dfy): period return over an inclusive date window, maximum drawdown through the running maximum, and the price statistics of `calculate_performance_metrics`.
- `Frames` (frames.dfy): a numeric data frame as a map from column names to equal-length columns of `Option<real>`.
- `FeatureEngineer` (feature_engineer.dfy): daily returns, simple moving averages, RSI, MACD by a recursive EMA, and the order of `add_all_features`.
- `DataCleaner` (data_cleaner.dfy):
  - dropping empty rows, then forward and backward fill (in-place array loops);
  - min-max normalisation;
  - z-score outlier flags;
  - per-period OHLCV aggregation, including conservation of volume.
- `DataFetcher` (data_fetcher.dfy):
  - vendor records and history column renaming;
  - `get_multiple_tickers`;
  - top five gainers and losers;
  - sector mean and count;
  - the bulk download.

## Model

| member | source | states |
|---|---|---|
| FinBertSentiment.TopIndex | src/analysis/finbert_sentiment_fixed.py:75-78 | the chosen label index holds a largest of the three scores, and it is the first such index |
| FinBertSentiment.Analyze | src/analysis/finbert_sentiment_fixed.py:56-92 | the result is empty exactly when the model is unavailable or inference raised, or when the top score is below the threshold; otherwise it is one prediction with the argmax label, the top score as confidence (at least the threshold and at least every score) and all three scores |
| FinBertSentiment.Preview | src/analysis/finbert_sentiment_fixed.py:114 | a text of at most 100 characters is kept; a longer one becomes its first 100 characters followed by `...` |
| FinBertSentiment.ResultFor | src/analysis/finbert_sentiment_fixed.py:110-118 | one text contributes at most one batch entry, and its confidence clears the threshold |
| FinBertSentiment.MultipleTexts | src/analysis/finbert_sentiment_fixed.py:109-119 | the batch has at most one entry per text, and every entry's confidence clears the threshold |
| FinBertSentiment.UnloadedGivesNothing | src/analysis/finbert_sentiment_fixed.py:56-57 | without a loaded model every text is skipped, so the batch is empty |
| FinBertSentiment.MultipleTextsAreSurvivors | src/analysis/finbert_sentiment_fixed.py:109-119 | the batch holds exactly one entry per text whose analysis is not empty, in input order, each with the preview, the argmax label and a confidence that clears the threshold |
| FinBertSentiment.AllSurvive | src/analysis/finbert_sentiment_fixed.py:109-119 | when every text clears the threshold, no text is dropped |
| Common.CountBy | src/analysis/finbert_sentiment_fixed.py:153-155 | a label count never exceeds the number of rows (also `value_counts` at src/analysis/sentiment_analyzer.py:103) |
| Common.CountsPartition | src/analysis/finbert_sentiment_fixed.py:153-156 | the positive, negative and neutral counts add up to the number of rows |
| FinBertSentiment.Plurality | src/analysis/finbert_sentiment_fixed.py:164-169 | a label wins exactly when it has strictly more results than each other label; any tie gives neutral (both directions for all three labels) |
| FinBertSentiment.PercentagesSum | src/analysis/finbert_sentiment_fixed.py:158-161 | the three percentages add up to 100 |
| FinBertSentiment.AggregateOf | src/analysis/finbert_sentiment_fixed.py:136-185 | no result gives the neutral all-zero aggregate with empty details; otherwise the counts are the label counts and partition the total, each percentage is its count over the total times 100 and the three add up to 100, the overall label is the strict plurality and the confidence is the mean confidence |
| FinBertSentiment.AggregateConfidenceBounds | src/analysis/finbert_sentiment_fixed.py:136-172 | the aggregate confidence lies between the smallest and largest kept confidence and is at least the threshold |
| FinBertSentiment.NonEmptyStripped | src/analysis/finbert_sentiment_fixed.py:221 | none of the kept sentences is empty, and there are no more of them than pieces |
| FinBertSentiment.StrippedPiece | src/analysis/finbert_sentiment_fixed.py:221 | one piece contributes at most one sentence, and never an empty one |
| FinBertSentiment.NonEmptyStrippedOne | src/analysis/finbert_sentiment_fixed.py:221 | a single piece gives its stripped form exactly when that is not empty, and nothing otherwise |
| FinBertSentiment.NonEmptyStrippedAppend | src/analysis/finbert_sentiment_fixed.py:221 | the comprehension works piece by piece in order: filtering a concatenation concatenates the filtered halves |
| FinBertSentiment.NonEmptyStrippedSound | src/analysis/finbert_sentiment_fixed.py:221 | every kept sentence is the non-empty stripped form of a piece |
| FinBertSentiment.NonEmptyStrippedComplete | src/analysis/finbert_sentiment_fixed.py:221 | every piece whose stripped form is not empty contributes it |
| FinBertSentiment.Sentences | src/analysis/finbert_sentiment_fixed.py:221 | every sentence is non-empty and contains no `.` |
| FinBertSentiment.JoinChunk | src/analysis/finbert_sentiment_fixed.py:227 | a chunk is its sentences joined by `'. '` followed by a final `.` |
| FinBertSentiment.Groups | src/analysis/finbert_sentiment_fixed.py:224-229 | every chunk is non-empty and ends in `.` |
| FinBertSentiment.GroupsCount | src/analysis/finbert_sentiment_fixed.py:224-229 | n sentences give ceil(n / 5) chunks |
| FinBertSentiment.ChunkNotBlank | src/analysis/finbert_sentiment_fixed.py:227-228 | a joined chunk never strips to empty, so the `if chunk.strip()` test never drops one |
| FinBertSentiment.EarningsCallChunks | src/analysis/finbert_sentiment_fixed.py:219-229 | the chunking loop yields the groups of five sentences, ceil(n / 5) of them |
| FinBertSentiment.FinBertAnalyzer.constructor | src/analysis/finbert_sentiment_fixed.py:17-20 | a new analyzer has no model loaded |
| FinBertSentiment.FinBertAnalyzer.EnsureModelLoaded | src/analysis/finbert_sentiment_fixed.py:35-39 | the model is loaded afterwards iff it was before or the loader succeeds, and the result reports that |
| FinBertSentiment.FinBertAnalyzer.AnalyzeFinancialSentiment | src/analysis/finbert_sentiment_fixed.py:41-92 | loads the model if needed, then returns the thresholded analysis (empty when the model is not loaded) |
| FinBertSentiment.FinBertAnalyzer.AnalyzeMultipleTexts | src/analysis/finbert_sentiment_fixed.py:94-119 | the loop returns the batch specification, and the model ends up loaded iff it was already or a load was attempted and succeeded |
| FinBertSentiment.FinBertAnalyzer.GetAggregateSentiment | src/analysis/finbert_sentiment_fixed.py:121-185 | the aggregate of the batch results |
| FinBertSentiment.AnalyzeEarningsCall | src/analysis/finbert_sentiment_fixed.py:212-232 | the aggregate over the five-sentence chunks of the transcript |
| Common.Strip | src/analysis/finbert_sentiment_fixed.py:221 | `str.strip()`: the result is a contiguous piece of the text, everything cut away before and after it is space, it starts and ends with a non-space, and it is empty exactly when the text is all spaces |
| Common.StripCut | src/analysis/finbert_sentiment_fixed.py:221 | trimming the leading spaces and then the trailing ones leaves the piece of the text at the first non-space, with only spaces after it |
| Common.Split | src/analysis/finbert_sentiment_fixed.py:221 | `str.split(sep)` always gives at least one piece |
| Common.SplitNoSeparator | src/analysis/finbert_sentiment_fixed.py:221 | with a one-character separator no piece contains it |
| Common.Join | src/analysis/finbert_sentiment_fixed.py:227 | `sep.join(parts)` starts with the first part, followed by the separator when there is a second |
| Common.JoinSplit | src/analysis/finbert_sentiment_fixed.py:221 | `split` is inverted by `join` with the same separator |
| SentimentAnalyzer.Classify | src/analysis/sentiment_analyzer.py:30-36 | positive iff polarity > 0.1, negative iff polarity < -0.1, neutral iff polarity is in [-0.1, 0.1] |
| SentimentAnalyzer.AnalyzeSentiment | src/analysis/sentiment_analyzer.py:19-42 | an empty text gives zero scores and neutral; otherwise TextBlob's polarity and subjectivity; the label is always the classification of the polarity |
| SentimentAnalyzer.RowFor | src/analysis/sentiment_analyzer.py:58-75 | the row carries the title and description, the scores of `title + ". " + description` (never empty, so never the zero default), its label, and the source, url and publish date (`publishedAt`) |
| SentimentAnalyzer.AnalyzeNewsBatch | src/analysis/sentiment_analyzer.py:45-77 | one row per article, in input order, each the row for that article |
| SentimentAnalyzer.CalculateAggregateSentiment | src/analysis/sentiment_analyzer.py:80-120 | an empty frame or one without polarity gives the zero neutral aggregate; otherwise the mean polarity, the score 100 times that, the label from the mean by the 0.1 rule, and counts that partition the rows |
| SentimentAnalyzer.UnanimousPositive | src/analysis/sentiment_analyzer.py:100-111 | when every article is above 0.1 the overall label is positive |
| SentimentAnalyzer.UnanimousNegative | src/analysis/sentiment_analyzer.py:100-111 | when every article is below -0.1 the overall label is negative |
| SentimentAnalyzer.ScoreRange | src/analysis/sentiment_analyzer.py:115 | with polarities in [-1, 1] the sentiment score lies in [-100, 100] |
| SentimentAnalyzer.MajorityCanLose | src/analysis/sentiment_analyzer.py:100-119 | the overall label follows the mean, not the counts: two positive articles and one strongly negative one give a negative label |
| SentimentAnalyzer.SentimentIndicator | src/analysis/sentiment_analyzer.py:133-142 | exactly one of five buckets, each characterised by its polarity interval (both directions) |
| SentimentAnalyzer.IndicatorRefinesClassify | src/analysis/sentiment_analyzer.py:31-36 | the indicator's buckets refine the three-label rule: the two positive buckets are exactly the positive label, and likewise negative and neutral |
| NewsFetcher.WaitTime | src/api/news_fetcher.py:46-48 | the sleep is never negative, is positive exactly when less than the interval has elapsed, and brings the elapsed time up to the interval exactly |
| NewsFetcher.RecentMonotone | src/api/news_fetcher.py:135-140 | an article stays recent for a later publication day or an earlier cutoff |
| NewsFetcher.RecentTitles | src/api/news_fetcher.py:133-141 | the filter succeeds exactly when every `publishedDate` prefix parses, and then keeps no more titles than articles |
| NewsFetcher.RecentTitlesSound | src/api/news_fetcher.py:135-141 | every kept title belongs to an article on or after the cutoff; when all are recent every title is kept in order; when none is, nothing is kept |
| NewsFetcher.RecentTitlesOne | src/api/news_fetcher.py:138-141 | one article gives its title when its date parses and is recent, nothing when it is older, and failure when its date does not parse |
| NewsFetcher.RecentTitlesAppend | src/api/news_fetcher.py:138-141 | the loop works article by article in order: the filter of a concatenation is the concatenation of the filters, and it fails when either half fails |
| NewsFetcher.FilterByDate | src/api/news_fetcher.py:135-144 | the date-filter loop returns the recent titles, or nothing when a date fails to parse |
| NewsFetcher.DedupProperties | src/api/news_fetcher.py:227-232 | no two kept headlines are equal after lower-casing, every kept headline was in the input, and every case-insensitive class of the input is represented |
| NewsFetcher.DedupPrefix | src/api/news_fetcher.py:227-232 | de-duplicating a longer list only appends: the order of what was kept is preserved |
| NewsFetcher.DedupKeepsFirst | src/api/news_fetcher.py:229-232 | a headline whose lower-cased form has not occurred earlier is kept |
| NewsFetcher.Dedup | src/api/news_fetcher.py:226-232 | de-duplication never lengthens the list, and it is empty only for an empty list |
| NewsFetcher.Take | src/api/news_fetcher.py:235 | Python's `s[:n]`: a prefix, of length n when 0 <= n <= length, the whole list when n is at least the length, and the list minus its last -n items when n is negative |
| NewsFetcher.DedupHeadlines | src/api/news_fetcher.py:226-232 | the loop with its `seen` set computes the first-occurrence de-duplication |
| NewsFetcher.CompanyNewsProperties | src/api/news_fetcher.py:215-235 | the returned headlines are pairwise distinct after lower-casing, each comes from one of the two sources, there are at most `max_articles` of them, and with five NewsAPI headlines or more they all come from NewsAPI |
| NewsFetcher.NewsApiHeadlines | src/api/news_fetcher.py:56-100 | headlines come back only with a key and a response, and then they are the response's titles |
| NewsFetcher.FmpHeadlines | src/api/news_fetcher.py:102-149 | headlines come back only with a key and a response, and each is the title of an article published on or after the cutoff |
| NewsFetcher.Merged | src/api/news_fetcher.py:219-224 | the NewsAPI headlines come first; FMP's follow them only when NewsAPI gave fewer than five, and every merged headline is from one of the two |
| NewsFetcher.Stamp | src/api/news_fetcher.py:43-54 | the recorded call time is at least one interval after the previous one and not before the current clock reading |
| NewsFetcher.NewsDataFetcher.constructor | src/api/news_fetcher.py:23-41 | keys stored, the client exists iff the NewsAPI key is set and the client constructor succeeds, both last-call times 0 |
| NewsFetcher.NewsDataFetcher.RateLimitWait | src/api/news_fetcher.py:43-54 | for `news` and `fmp` the sleep is the wait time of that channel, its last-call time becomes the later clock reading (at least one interval after the previous one), and the other channel is unchanged; any other channel changes nothing |
| NewsFetcher.NewsDataFetcher.FetchNewsFromNewsApi | src/api/news_fetcher.py:56-100 | no client or key gives nothing and no rate-limit update; otherwise the response titles (nothing on an exception), and the news call time becomes the stamp after a news-channel wait |
| NewsFetcher.NewsDataFetcher.FetchNewsFromFmp | src/api/news_fetcher.py:102-149 | no key gives nothing; otherwise the titles on or after `days_back` days before now (nothing on an exception or unparsable date), and the FMP call time becomes the stamp after an FMP-channel wait |
| NewsFetcher.NewsDataFetcher.FetchEarningsTranscript | src/api/news_fetcher.py:151-194 | a transcript comes back exactly when the key is configured and the first response item has a non-empty `content`, and it is that content; with a key the FMP call time becomes the stamp after an FMP-channel wait |
| NewsFetcher.NewsDataFetcher.FetchCompanyNews | src/api/news_fetcher.py:196-242 | the de-duplicated merge cut to `max_articles`, where FMP is asked only when NewsAPI gave fewer than five; each call time becomes its stamp exactly when that channel was called with a key, and is unchanged otherwise |
| Common.Lower | src/api/news_fetcher.py:230 | `str.lower()` on ASCII: same length, each letter lower-cased |
| Common.LowerIdempotent | src/api/news_fetcher.py:230-231 | lower-casing twice is lower-casing once, so the `seen` keys are stable |
| EarningsSession.SelectContent | app/simple_earnings_analysis.py:368-370 | the first non-empty of `transcript`, `content`, `text`; empty exactly when all three are |
| EarningsSession.ResultOf | app/simple_earnings_analysis.py:378-393 | the stored result carries the content, no sentiment yet, and symbol, quarter, year and date taken from the payload or, when absent, from the page inputs (`Q{qtr} {yr}` for the date) |
| EarningsSession.QueryKeyInjective | app/simple_earnings_analysis.py:304-325 | for four-digit years and one-digit quarters, equal query keys mean equal upper-cased ticker, year and quarter, so a matching key means the data was fetched for the current inputs |
| EarningsSession.KeyParts | app/simple_earnings_analysis.py:325 | the three fields of a key sit at fixed offsets, so the key can be split back |
| EarningsSession.QueryKey | app/simple_earnings_analysis.py:325 | the key starts with the upper-cased ticker followed by `_` |
| EarningsSession.LongParagraphs | app/simple_earnings_analysis.py:426 | every kept paragraph is longer than 50 characters, and there are no more of them than pieces |
| EarningsSession.LongParagraphsExact | app/simple_earnings_analysis.py:426 | a paragraph is kept exactly when it is the stripped form, longer than 50 characters, of one of the `\n\n` pieces |
| EarningsSession.LongParagraphsSound | app/simple_earnings_analysis.py:426 | every kept paragraph is the stripped form of a piece and longer than 50 characters |
| EarningsSession.LongParagraphsComplete | app/simple_earnings_analysis.py:426 | every piece whose stripped form is longer than 50 characters is kept |
| EarningsSession.LongPiece | app/simple_earnings_analysis.py:426 | one piece contributes at most its stripped form, and only when that is longer than 50 characters |
| EarningsSession.LongParagraphsOne | app/simple_earnings_analysis.py:426 | a single piece is kept, stripped, exactly when it is long |
| EarningsSession.LongParagraphsAppend | app/simple_earnings_analysis.py:426 | filtering a concatenation concatenates the filtered halves, so the paragraphs keep their order |
| EarningsSession.Slices | app/simple_earnings_analysis.py:427-428 | the 500-character fallback: slices exist iff the content is non-empty, each has 1 to 500 characters |
| EarningsSession.SlicesConcat | app/simple_earnings_analysis.py:428 | the slices concatenated give back the content |
| EarningsSession.TranscriptChunksFallback | app/simple_earnings_analysis.py:427-428 | without a long paragraph the chunks are at most 500 characters and put back together give the content |
| EarningsSession.TranscriptChunks | app/simple_earnings_analysis.py:426-428 | a non-empty transcript always gives at least one chunk, and no chunk is empty |
| EarningsSession.TranscriptSentiment | app/simple_earnings_analysis.py:422-434 | no more results than chunks; without a model the neutral all-zero aggregate; with results, a confidence of at least the 0.5 threshold |
| EarningsSession.AnalyzeTranscript | app/simple_earnings_analysis.py:422-434 | a fresh analyzer's aggregate over the transcript chunks at threshold 0.5 |
| EarningsSession.TranscriptSession.constructor | app/simple_earnings_analysis.py:270-273 | both session fields start as `None` |
| EarningsSession.TranscriptSession.InvalidateIfChanged | app/simple_earnings_analysis.py:327-332 | when the stored query differs from the current key the held result is dropped; the stored query is kept either way |
| EarningsSession.TranscriptSession.StoreFetch | app/simple_earnings_analysis.py:344-395 | a failed fetch or empty content resets both fields; a success stores the result built from the payload and tags it with the current key |
| EarningsSession.DisplayOutcome | app/simple_earnings_analysis.py:397-438 | a result is shown exactly when one is held under the current key; it keeps its content and metadata; its sentiment is computed once (fresh FinBERT aggregate) and a stored sentiment is reused unchanged |
| EarningsSession.ShownResult | app/simple_earnings_analysis.py:397-434 | the display branch, run on the held values, computes the display outcome |
| EarningsSession.TranscriptSession.Display | app/simple_earnings_analysis.py:397-438 | the page shows the display outcome for the held result and stored query, stores it back when there is one, and keeps the stored query |
| EarningsSession.AfterRerun | app/simple_earnings_analysis.py:325-395 | after invalidation and the ANALYZE branch a held result is always tagged with the current key; without a click the query is kept and a result under the current key survives; a click keeps a result exactly when the answer has content, stored with that content and no sentiment |
| EarningsSession.AnalyzeShowsFetched | app/simple_earnings_analysis.py:341-438 | clicking ANALYZE with an answer that has content shows that transcript on the same rerun, with its sentiment freshly computed |
| EarningsSession.StaleNeverShown | app/simple_earnings_analysis.py:325-398 | without a click, a result held under other inputs is dropped and nothing is shown |
| EarningsSession.TranscriptSession.Show | app/simple_earnings_analysis.py:265-438 | one rerun: without an API key nothing changes; with one, the session becomes the rerun state of the held values (invalidation, then the fetch on ANALYZE), the page shows that state's display outcome under the current key, and a shown result is stored back; anything held or shown is tagged with the current key |
| Common.Upper | app/simple_earnings_analysis.py:304 | `str.upper()` on ASCII: same length, each letter upper-cased |
| Common.NatStrInjective | app/simple_earnings_analysis.py:325 | distinct numbers are written differently |
| Common.NatStrFourDigits | app/simple_earnings_analysis.py:309-310 | a year in [1000, 9999] is written with four digits |
| Common.NatStrOneDigit | app/simple_earnings_analysis.py:319 | a number is written with one digit exactly when it is below 10 |
| PortfolioTracker.MakeHolding | src/analysis/portfolio_tracker.py:37-46 | a zero purchase price raises (no record); otherwise the record keeps its inputs, cost basis and current value are quantity times price, and the unrealised gain is current value minus cost basis |
| PortfolioTracker.Find | src/analysis/portfolio_tracker.py:48 | a found record is in the table under that ticker; nothing is found exactly when no record has the ticker |
| PortfolioTracker.Upsert | src/analysis/portfolio_tracker.py:37 | the new record is in the table, which grows by at most one |
| PortfolioTracker.Remove | src/analysis/portfolio_tracker.py:61 | removal never grows the table, and every record left was there before and has another ticker |
| PortfolioTracker.UpsertFind | src/analysis/portfolio_tracker.py:37 | after `holdings[ticker] = ...` the ticker maps to the new record and every other ticker is unchanged |
| PortfolioTracker.UpsertMembers | src/analysis/portfolio_tracker.py:37 | every record after the update is the new one or an old one |
| PortfolioTracker.UpsertShape | src/analysis/portfolio_tracker.py:37 | tickers stay unique, and the table grows by one exactly when the ticker is new |
| PortfolioTracker.UpsertUnique | src/analysis/portfolio_tracker.py:37 | tickers stay unique after an update |
| PortfolioTracker.UpsertSize | src/analysis/portfolio_tracker.py:37 | the table grows by one exactly when the ticker is new |
| PortfolioTracker.RemoveProperties | src/analysis/portfolio_tracker.py:60-63 | after `del` the ticker is absent, every other ticker is unchanged, tickers stay unique, no record is new, and the size drops by one exactly when the ticker was present |
| PortfolioTracker.RemoveFind | src/analysis/portfolio_tracker.py:61 | the removed ticker is absent and every other ticker is unchanged |
| PortfolioTracker.RemoveSubset | src/analysis/portfolio_tracker.py:61 | removal adds no record |
| PortfolioTracker.RemoveUnique | src/analysis/portfolio_tracker.py:61 | removal keeps tickers unique |
| PortfolioTracker.RemoveSize | src/analysis/portfolio_tracker.py:61 | the size drops by one exactly when the ticker was present |
| PortfolioTracker.UpsertNewGoesLast | src/analysis/portfolio_tracker.py:37 | a new ticker is appended after every existing one (dictionary insertion order) |
| PortfolioTracker.UpsertInPlace | src/analysis/portfolio_tracker.py:37 | overwriting a present ticker replaces its record at the same position |
| PortfolioTracker.RemoveAbsent | src/analysis/portfolio_tracker.py:60-63 | removing an absent ticker leaves the table as it was |
| PortfolioTracker.RemoveAt | src/analysis/portfolio_tracker.py:61 | deleting a present ticker removes exactly its record and keeps the others in their order |
| PortfolioTracker.Tracker.constructor | src/analysis/portfolio_tracker.py:14-16 | a new tracker holds nothing |
| PortfolioTracker.Tracker.AddHolding | src/analysis/portfolio_tracker.py:18-48 | returns the new record and stores it under its ticker (replacing any previous one), keeping unique tickers and well-formed records; a zero purchase price changes nothing |
| PortfolioTracker.Tracker.RemoveHolding | src/analysis/portfolio_tracker.py:50-63 | returns true exactly when the ticker was present, and removes it |
| PortfolioTracker.Tracker.GetHoldingsDataFrame | src/analysis/portfolio_tracker.py:94-104 | a new frame holding the records in table order, with no weight column |
| PortfolioTracker.Summary | src/analysis/portfolio_tracker.py:65-92 | an empty portfolio gives all zeros; otherwise the totals of current value and cost basis, gain = value - cost, the percentage only for a positive cost (else 0), and the number of holdings |
| PortfolioTracker.SummaryGainIsSumOfGains | src/analysis/portfolio_tracker.py:81-83 | the total gain equals the sum of the per-holding unrealised gains |
| PortfolioTracker.AllocationRows | src/analysis/portfolio_tracker.py:117-119 | one row per holding with its ticker, value and value / total * 100, and the percentages add up to the total's share times 100 |
| PortfolioTracker.Allocation | src/analysis/portfolio_tracker.py:106-123 | an empty portfolio gives an empty table; a zero total with holdings gives no table; otherwise a permutation of the allocation rows sorted by percentage, descending |
| PortfolioTracker.AllocationSumsTo100 | src/analysis/portfolio_tracker.py:117-123 | the allocation percentages add up to 100 |
| PortfolioTracker.HoldingsFrame.constructor | src/analysis/portfolio_tracker.py:104 | a frame over the given records with no weight column |
| PortfolioTracker.Weights | src/analysis/portfolio_tracker.py:145 | one weight per row, its value over the total |
| PortfolioTracker.WeightsSumToOne | src/analysis/portfolio_tracker.py:144-145 | the weights add up to 1 |
| PortfolioTracker.WeightsTotal | src/analysis/portfolio_tracker.py:144-145 | the weights add up to the value total over the divisor |
| PortfolioTracker.WeightedSumBounds | src/analysis/portfolio_tracker.py:146 | with non-negative weights, the weighted sum lies between the lowest and highest return times the total weight |
| PortfolioTracker.CalculatePortfolioMetrics | src/analysis/portfolio_tracker.py:126-156 | an empty frame gives no metrics and is untouched; otherwise the weight column is added in place and the metrics are the weighted return and the ticker and return of the first maximum and first minimum return |
| PortfolioTracker.WeightedReturnBetweenExtremes | src/analysis/portfolio_tracker.py:143-153 | with non-negative values, the weighted return lies between the worst and the best return |
| Sorting.Insert | src/analysis/portfolio_tracker.py:121-123 | inserting into a descending list keeps it descending, adds one row and adds its key to the total |
| Sorting.InsertPermutes | src/analysis/portfolio_tracker.py:121-123 | inserting adds exactly one occurrence of the row |
| Sorting.SortDesc | src/analysis/portfolio_tracker.py:121-123 | `sort_values(ascending=False)`: a permutation of the rows, in descending key order |
| Sorting.SortDescKeepsSum | src/analysis/portfolio_tracker.py:121-123 | sorting keeps the total of the key column |
| Sorting.SumOfAppend | src/analysis/portfolio_tracker.py:81-82 | a column total over two parts is the sum of their totals |
| HistoricalAnalysis.WindowPrices | src/analysis/historical_analysis.py:35-38 | the window keeps no more prices than the series has |
| HistoricalAnalysis.WindowPricesFrom | src/analysis/historical_analysis.py:35-38 | every kept price is the price of a row whose date lies in the inclusive window |
| HistoricalAnalysis.WindowPricesAll | src/analysis/historical_analysis.py:35-38 | a window holding every date keeps the whole series, in order |
| HistoricalAnalysis.WindowPricesNone | src/analysis/historical_analysis.py:35-38 | a window holding no date keeps nothing |
| HistoricalAnalysis.WindowPricesOne | src/analysis/historical_analysis.py:35-38 | one row is kept exactly when its date lies in the inclusive window |
| HistoricalAnalysis.WindowPricesAppend | src/analysis/historical_analysis.py:35-38 | the filter works row by row in order: filtering stacked frames concatenates their filtered prices |
| HistoricalAnalysis.WindowPricesSplit | src/analysis/historical_analysis.py:35-38 | cut at any row, the window is the prices before it, its own price if its date is in the window, and the prices after it |
| HistoricalAnalysis.WindowPricesEmpty | src/analysis/historical_analysis.py:35-40 | the window is empty exactly when no row's date lies in it |
| HistoricalAnalysis.WindowFirst | src/analysis/historical_analysis.py:42 | the first kept price is that of the earliest row in the window |
| HistoricalAnalysis.WindowLast | src/analysis/historical_analysis.py:43 | the last kept price is that of the latest row in the window |
| HistoricalAnalysis.FilteredFrom | src/analysis/historical_analysis.py:31-38 | the filtered frame holds only prices of the series |
| HistoricalAnalysis.PeriodReturn | src/analysis/historical_analysis.py:10-46 | 0 for an empty frame or a window of fewer than two rows; otherwise (last - first) / first * 100 over the window |
| HistoricalAnalysis.PeriodReturnBetween | src/analysis/historical_analysis.py:35-46 | with dates, the return runs from the price of the earliest row in the window to the price of the latest one |
| HistoricalAnalysis.PeriodReturnWithoutDates | src/analysis/historical_analysis.py:33-38 | without a `date` column the window bounds are ignored |
| HistoricalAnalysis.PeriodReturnCompounds | src/analysis/historical_analysis.py:43-46 | last = first * (1 + r / 100), and the return is positive exactly when the last price is above the first |
| HistoricalAnalysis.RunningMax | src/analysis/historical_analysis.py:66 | `np.maximum.accumulate`: the running maximum is at least the price at every index |
| HistoricalAnalysis.RunningMaxStep | src/analysis/historical_analysis.py:66 | it starts at the first price and moves to a price exactly when that price exceeds it |
| HistoricalAnalysis.RunningMaxMonotone | src/analysis/historical_analysis.py:66 | the running maximum never decreases |
| HistoricalAnalysis.RunningMaxAttained | src/analysis/historical_analysis.py:66 | where the running maximum rises, it rises to the price at that row |
| HistoricalAnalysis.FallNonPositive | src/analysis/historical_analysis.py:69 | a price at or below its peak has a drawdown of at most 0, exactly 0 at the peak |
| HistoricalAnalysis.FallDeeperFromHigherPeak | src/analysis/historical_analysis.py:69 | the same price measured against a higher peak has fallen further |
| HistoricalAnalysis.Drawdowns | src/analysis/historical_analysis.py:69 | one drawdown per price, each the fall from the running maximum (which is positive) |
| HistoricalAnalysis.MaxDrawdown | src/analysis/historical_analysis.py:49-84 | the empty case exactly for an empty frame; otherwise the trough is the first row of least drawdown (`argmin`), the peak is the first row up to the trough at which the running maximum is highest (`argmax`), the percentage is the absolute drawdown, and the values are the prices at those rows |
| HistoricalAnalysis.MaxDrawdownNonPositive | src/analysis/historical_analysis.py:66-80 | the maximum drawdown is at most 0, so `max_drawdown_pct` is its negation |
| HistoricalAnalysis.PeakIsRunningMax | src/analysis/historical_analysis.py:71-80 | the peak price equals the running maximum at the trough |
| HistoricalAnalysis.MaxDrawdownPeak | src/analysis/historical_analysis.py:71-83 | the peak value is the largest price up to the trough, and the drawdown is the fall from peak to trough |
| HistoricalAnalysis.MaxDrawdownIsDeepest | src/analysis/historical_analysis.py:66-72 | no decline from an earlier price to a later one is deeper than the maximum drawdown |
| HistoricalAnalysis.NonDecreasingRunningMax | src/analysis/historical_analysis.py:66 | on a series that never falls the running maximum is the series |
| HistoricalAnalysis.NonDecreasingNoDrawdown | src/analysis/historical_analysis.py:66-75 | a series that never falls has drawdown 0 with peak and trough index 0 |
| HistoricalAnalysis.Tail | src/analysis/historical_analysis.py:194-195 | `tail(n)`: the last min(n, length) prices |
| HistoricalAnalysis.Performance | src/analysis/historical_analysis.py:149-197 | none for an empty frame; otherwise the total, year-to-date and one-year returns, the drawdown, the last price and the high and low of the last 252 prices; without dates the windowed returns equal the total return |
| HistoricalAnalysis.CurrentWithin52WeekRange | src/analysis/historical_analysis.py:193-195 | the current price lies between the 52-week low and high |
| Common.Max | src/analysis/historical_analysis.py:194 | the largest element: at least every element and one of them |
| Common.Min | src/analysis/historical_analysis.py:195 | the smallest element: at most every element and one of them |
| Common.ArgMax | src/analysis/historical_analysis.py:75 | `np.argmax`: the first index holding the largest element |
| Common.ArgMin | src/analysis/historical_analysis.py:71 | `np.argmin`: the first index holding the smallest element |
| FeatureEngineer.Prices | src/processing/feature_engineer.py:21 | the price column read as values, one per row |
| FeatureEngineer.Change | src/processing/feature_engineer.py:21 | `pct_change` between two prices is defined exactly when the earlier price is not 0 |
| FeatureEngineer.ChangeCompounds | src/processing/feature_engineer.py:21 | growing the earlier price by the change gives the later price |
| FeatureEngineer.DailyReturns | src/processing/feature_engineer.py:21 | one value per row: undefined on the first row, the change from the previous price on every later row |
| FeatureEngineer.Compound | src/processing/feature_engineer.py:21 | a series rebuilt from a first price and n returns has n + 1 prices and starts at that price |
| FeatureEngineer.ReturnValues | src/processing/feature_engineer.py:21 | the defined daily returns, one per row after the first, agreeing with the column |
| FeatureEngineer.CompoundReturns | src/processing/feature_engineer.py:21 | compounding the daily returns from the first price gives back the series (the inverse of `pct_change`) |
| FeatureEngineer.CalculateReturns | src/processing/feature_engineer.py:9-22 | a copy with the same rows, `daily_return` added or replaced by the daily returns and every other column unchanged |
| FeatureEngineer.Window | src/processing/feature_engineer.py:44 | the w values ending at a row |
| FeatureEngineer.MovingAverage | src/processing/feature_engineer.py:44 | one value per row, defined exactly from row w - 1 on, and then the mean of the last w prices |
| FeatureEngineer.MovingAverageBounds | src/processing/feature_engineer.py:44 | a defined average lies between the smallest and largest price of its window |
| FeatureEngineer.MovingAverageConstant | src/processing/feature_engineer.py:43-44 | on a constant series the average is the constant wherever defined |
| FeatureEngineer.MovingAverageSlide | src/processing/feature_engineer.py:44 | moving the window one row changes the average by (entering - leaving) / w |
| FeatureEngineer.WindowSumSlide | src/processing/feature_engineer.py:44 | moving the window one row adds the entering price to the window sum and removes the leaving one |
| FeatureEngineer.MaNameInjective | src/processing/feature_engineer.py:44 | `ma_{w}` names are equal exactly when the windows are |
| FeatureEngineer.MaNames | src/processing/feature_engineer.py:43-44 | every window's `ma_{w}` name is among the written names |
| FeatureEngineer.WithMovingAverages | src/processing/feature_engineer.py:43-44 | writing the averages keeps the rows and adds exactly the `ma_{w}` columns |
| FeatureEngineer.MovingAverageColumn | src/processing/feature_engineer.py:43-44 | each `ma_{w}` column holds the w-row moving average, also when a window is listed twice |
| FeatureEngineer.MovingAveragesKeepOthers | src/processing/feature_engineer.py:41-44 | every column that is not an `ma_{w}` column is unchanged |
| FeatureEngineer.NotMaName | src/processing/feature_engineer.py:44 | a name that is no window's `ma_{w}` name is not among the written names |
| FeatureEngineer.CalculateMovingAverages | src/processing/feature_engineer.py:25-46 | the loop writes one `ma_{w}` column per window, each the moving average of the price column |
| FeatureEngineer.Gains | src/processing/feature_engineer.py:64-67 | one gain per row, never negative, 0 on the first row |
| FeatureEngineer.Losses | src/processing/feature_engineer.py:64-68 | one loss per row, never negative, 0 on the first row |
| FeatureEngineer.GainsLossesSplit | src/processing/feature_engineer.py:64-68 | gain minus loss is the price change, and at most one of them is non-zero |
| FeatureEngineer.RsiValue | src/processing/feature_engineer.py:75-76 | undefined exactly when average gain and loss are both 0; otherwise in [0, 100], 100 exactly when the average loss is 0, and rsi * (gain + loss) = 100 * gain |
| FeatureEngineer.RsiAlgebra | src/processing/feature_engineer.py:75-76 | with a positive average loss `100 - 100 / (1 + rs)` lies in [0, 100) |
| FeatureEngineer.RsiAt | src/processing/feature_engineer.py:71-76 | the index at a row comes from the non-negative mean gain and mean loss over the period ending there |
| FeatureEngineer.Rsi | src/processing/feature_engineer.py:64-76 | one value per row, undefined before row period - 1, then the index of the rolling averages |
| FeatureEngineer.AverageNonNegative | src/processing/feature_engineer.py:71-72 | rolling averages of non-negative values are non-negative |
| FeatureEngineer.RsiConstant | src/processing/feature_engineer.py:64-76 | a series that does not move has an undefined RSI on every row |
| FeatureEngineer.RsiRising | src/processing/feature_engineer.py:64-76 | a window that rose at least once and never fell has RSI 100 |
| FeatureEngineer.NoLossInWindow | src/processing/feature_engineer.py:68-72 | a window that never fell has average loss 0 |
| FeatureEngineer.SomeGainInWindow | src/processing/feature_engineer.py:67-71 | a window that rose at least once has a positive average gain |
| FeatureEngineer.MeanPositive | src/processing/feature_engineer.py:71 | a mean of non-negative terms with one positive is positive |
| FeatureEngineer.SumPositive | src/processing/feature_engineer.py:71 | a sum of non-negative terms with one positive is positive |
| FeatureEngineer.SumNonNegative | src/processing/feature_engineer.py:71-72 | a sum of non-negative terms is non-negative |
| FeatureEngineer.CalculateRsi | src/processing/feature_engineer.py:49-78 | a copy with the same rows, `rsi` added or replaced and every other column unchanged |
| FeatureEngineer.Alpha | src/processing/feature_engineer.py:137-138 | the smoothing factor 2 / (span + 1) lies in (0, 1] |
| FeatureEngineer.Ema | src/processing/feature_engineer.py:137-138 | one value per row, starting at the first price |
| FeatureEngineer.EmaStep | src/processing/feature_engineer.py:137-138 | every later value is a * p[i] + (1 - a) * e[i-1] |
| FeatureEngineer.ConvexBetween | src/processing/feature_engineer.py:137 | a convex combination of two values in [lo, hi] stays in [lo, hi] |
| FeatureEngineer.EmaBounds | src/processing/feature_engineer.py:137-138 | the average stays within any bounds of the series |
| FeatureEngineer.EmaConstant | src/processing/feature_engineer.py:137-144 | on a constant series the average is the constant |
| FeatureEngineer.MacdOf | src/processing/feature_engineer.py:137-147 | line = fast average - slow average, signal = average of the line, histogram = line - signal, all one per row |
| FeatureEngineer.MacdConstant | src/processing/feature_engineer.py:137-147 | a constant series has line, signal and histogram 0 |
| FeatureEngineer.MacdHistogramZero | src/processing/feature_engineer.py:147 | the histogram is 0 exactly where the line meets its signal |
| FeatureEngineer.CalculateMacd | src/processing/feature_engineer.py:114-149 | a copy with the same rows, the three MACD columns added or replaced and every other column unchanged |
| FeatureEngineer.AllFeatures | src/processing/feature_engineer.py:183-201 | the frame keeps its rows and gains exactly the feature columns |
| FeatureEngineer.OtherFeaturesNotMa | src/processing/feature_engineer.py:194-198 | no other feature column is an `ma_{w}` column, so no step overwrites another's column |
| FeatureEngineer.AllFeaturesRsiMacd | src/processing/feature_engineer.py:196-198 | the RSI and MACD columns hold their indicators over the prices |
| FeatureEngineer.AllFeaturesReturns | src/processing/feature_engineer.py:194-196 | the `daily_return` column holds the daily returns: no later step overwrites it |
| FeatureEngineer.AllFeaturesAverages | src/processing/feature_engineer.py:195 | each `ma_{w}` column holds its moving average |
| FeatureEngineer.AllFeaturesKeepOthers | src/processing/feature_engineer.py:194-199 | every column that is not a feature column is unchanged |
| FeatureEngineer.AddAllFeatures | src/processing/feature_engineer.py:183-201 | the chained copies give the all-features frame: returns, averages 20/50/200, RSI 14, MACD 12/26/9, each reading the unchanged price column |
| Frames.WithColumn | src/processing/feature_engineer.py:21 | `df[name] = c` on a copy: the rows stay, the column is added or replaced and every other column is unchanged |
| Frames.ValuesPresent | src/processing/feature_engineer.py:141-147 | filling a column from values and reading them back are inverse, both ways |
| DataCleaner.Ffill | src/processing/data_cleaner.py:31 | the forward-filled column has as many rows as the original |
| DataCleaner.Bfill | src/processing/data_cleaner.py:34 | the backward-filled column has as many rows as the original |
| DataCleaner.FfillNearest | src/processing/data_cleaner.py:31 | a row takes the nearest present value at or before it (every row in between is missing), and stays missing exactly when there is none |
| DataCleaner.BfillNearest | src/processing/data_cleaner.py:34 | a row takes the nearest present value at or after it, and stays missing exactly when there is none |
| DataCleaner.FillKeepsPresent | src/processing/data_cleaner.py:31-34 | a present value is never overwritten by either fill |
| DataCleaner.FillLeavesNoGap | src/processing/data_cleaner.py:31-34 | after the forward and backward fill a column with any value has no gap |
| DataCleaner.ForwardFill | src/processing/data_cleaner.py:31 | the in-place loop over the column array leaves the forward-filled column |
| DataCleaner.BackwardFill | src/processing/data_cleaner.py:34 | the in-place loop over the column array leaves the backward-filled column |
| DataCleaner.FillGaps | src/processing/data_cleaner.py:31-34 | both in-place fills on a copy of one column give the column filled forward, then backward |
| DataCleaner.KeptRows | src/processing/data_cleaner.py:28 | the kept row indices are increasing, each holds a value, and every row that holds a value is kept |
| DataCleaner.Select | src/processing/data_cleaner.py:28 | a column restricted to the kept rows, in order |
| DataCleaner.DropEmptyRows | src/processing/data_cleaner.py:28 | dropping rows keeps every column |
| DataCleaner.DropEmptyRowsExact | src/processing/data_cleaner.py:28 | every remaining row holds a value, there is one per kept row, and each remaining cell is the cell of its kept row |
| DataCleaner.Cleaned | src/processing/data_cleaner.py:12-42 | `None` and empty frames come back as they are; otherwise the same columns, well formed |
| DataCleaner.Filled | src/processing/data_cleaner.py:31-34 | the same column names, each column keeping its length |
| DataCleaner.CleanedColumns | src/processing/data_cleaner.py:28-34 | after cleaning a column has a gap only when it had no value in any kept row, and every present value is kept |
| DataCleaner.CleanStockData | src/processing/data_cleaner.py:12-42 | the method (drop, then column-by-column in-place fills) computes the cleaned frame |
| DataCleaner.FillColumns | src/processing/data_cleaner.py:31-34 | the loop over the columns fills each of them, in any column order |
| DataCleaner.PresentValues | src/processing/data_cleaner.py:82-83 | the values pandas' `min`/`max`/`mean` see: exactly the present values, no more than the rows |
| DataCleaner.NormalizedColumn | src/processing/data_cleaner.py:82-85 | the normalised column has as many rows as the original |
| DataCleaner.NormalizedAt | src/processing/data_cleaner.py:84-85 | a row is scaled by (x - min) / (max - min) exactly when max > min and the row is present; otherwise it is unchanged |
| DataCleaner.PresentBetween | src/processing/data_cleaner.py:82-83 | a present value lies between the column's min and max |
| DataCleaner.ScaleBounds | src/processing/data_cleaner.py:85 | a value between min and max scales into [0, 1], min to 0 and max to 1 |
| DataCleaner.NormalizedRange | src/processing/data_cleaner.py:80-85 | gaps stay gaps; with max > min every value lies in [0, 1], the minimum goes to 0 and the maximum to 1 |
| DataCleaner.ScaleMonotone | src/processing/data_cleaner.py:85 | scaling keeps order |
| DataCleaner.NormalizedKeepsOrder | src/processing/data_cleaner.py:80-85 | normalisation keeps the order of the values |
| DataCleaner.NormalizedIdempotent | src/processing/data_cleaner.py:80-85 | normalising twice is normalising once |
| DataCleaner.UnitColumnFixed | src/processing/data_cleaner.py:84-85 | a column that already runs from 0 to 1 is unchanged |
| DataCleaner.NormalizedSpan | src/processing/data_cleaner.py:84-85 | a normalised column with two distinct values runs from exactly 0 to exactly 1 |
| DataCleaner.ExtremesOf | src/processing/data_cleaner.py:82-83 | values within [lo, hi] that include both have lo as minimum and hi as maximum |
| DataCleaner.NormalizeData | src/processing/data_cleaner.py:67-87 | each listed column that exists is normalised, every other column and the rows are unchanged, and absent names are skipped |
| DataCleaner.NormalizeStep | src/processing/data_cleaner.py:80-85 | one more loop step extends the set of normalised columns (a name listed twice changes nothing) |
| DataCleaner.SquaredDeviations | src/processing/data_cleaner.py:61 | a sum of squared deviations is never negative |
| DataCleaner.Variance | src/processing/data_cleaner.py:61 | the sample variance (`ddof=1`) is never negative |
| DataCleaner.DetectOutliers | src/processing/data_cleaner.py:45-64 | one flag per row; a missing column gives all false; a column with fewer than two values gives all false; a missing value is never flagged |
| DataCleaner.OutliersAreFarthest | src/processing/data_cleaner.py:60-64 | a value at least as far from the mean as an outlier is an outlier |
| DataCleaner.BeyondFarther | src/processing/data_cleaner.py:63-64 | the z-score test is monotone in the distance from the mean |
| DataCleaner.DetectOutliersZScore | src/processing/data_cleaner.py:60-64 | with a positive standard deviation a row is flagged exactly when it has a value whose z-score `abs(x - mean) / std` exceeds the threshold |
| DataCleaner.BeyondIsZScore | src/processing/data_cleaner.py:63-64 | the squared-deviation test on `std * std` is the z-score test |
| DataCleaner.ConstantColumnNoOutliers | src/processing/data_cleaner.py:60-64 | a column whose values are all equal has no outlier |
| DataCleaner.SquaredDeviationsZero | src/processing/data_cleaner.py:61 | values all equal to the mean have no deviation |
| DataCleaner.Group | src/processing/data_cleaner.py:115 | every row of a period's group falls in that period |
| DataCleaner.GroupHasRow | src/processing/data_cleaner.py:115 | every row is in the group of its own period |
| DataCleaner.GroupFromRows | src/processing/data_cleaner.py:115 | every row of a group is an input row |
| DataCleaner.GroupOne | src/processing/data_cleaner.py:115 | one row is its period's group exactly when it falls in that period |
| DataCleaner.GroupAppend | src/processing/data_cleaner.py:115 | the group of a concatenation is the group of each part in turn, so rows keep their order and `'first'`/`'last'` see the period's earliest and latest rows |
| DataCleaner.FirstPresent | src/processing/data_cleaner.py:105 | `'first'` is missing exactly when the group has no present value |
| DataCleaner.FirstPresentIsFirst | src/processing/data_cleaner.py:105 | `'first'` comes from a row with no present value before it |
| DataCleaner.LastPresent | src/processing/data_cleaner.py:108 | `'last'` is missing exactly when the group has no present value |
| DataCleaner.LastPresentIsLast | src/processing/data_cleaner.py:108 | `'last'` comes from a row with no present value after it |
| DataCleaner.MaxPresent | src/processing/data_cleaner.py:106 | `'max'` is missing exactly when the group has no present value |
| DataCleaner.MaxPresentBounds | src/processing/data_cleaner.py:106 | no present value exceeds `'max'` |
| DataCleaner.MaxPresentAttained | src/processing/data_cleaner.py:106 | `'max'` is one of the present values |
| DataCleaner.MinPresent | src/processing/data_cleaner.py:107 | `'min'` is missing exactly when the group has no present value |
| DataCleaner.MinPresentBounds | src/processing/data_cleaner.py:107 | no present value is below `'min'` |
| DataCleaner.MinPresentAttained | src/processing/data_cleaner.py:107 | `'min'` is one of the present values |
| DataCleaner.FirstPeriod | src/processing/data_cleaner.py:115 | the first resampled period is at or before every row's period |
| DataCleaner.LastPeriod | src/processing/data_cleaner.py:115 | the last resampled period is at or after every row's period |
| DataCleaner.PeriodRow | src/processing/data_cleaner.py:104-115 | the aggregated row carries its period |
| DataCleaner.AggregateToPeriod | src/processing/data_cleaner.py:90-117 | no rows give no periods; otherwise one row per period from the first to the last, empty periods included, in period order |
| DataCleaner.Periods | src/processing/data_cleaner.py:115 | n consecutive periods from `lo`, in order |
| DataCleaner.PeriodsAt | src/processing/data_cleaner.py:115 | the k-th of them aggregates period lo + k |
| DataCleaner.AggregatedRow | src/processing/data_cleaner.py:104-115 | row k aggregates exactly the rows of period first + k (open first, high max, low min, close last, volume sum, only for columns that exist) |
| DataCleaner.EveryRowHasItsPeriod | src/processing/data_cleaner.py:115 | every input row falls in the group of one of the aggregated periods |
| DataCleaner.PeriodHighAboveLow | src/processing/data_cleaner.py:106-107 | when every row's high is at least its low, a period with such a row has aggregated high at least aggregated low |
| DataCleaner.GroupHighAboveLow | src/processing/data_cleaner.py:106-107 | within one group, max of the highs is at least min of the lows |
| DataCleaner.VolumeInSplit | src/processing/data_cleaner.py:109 | the volume of a range of periods splits off its last period |
| DataCleaner.VolumeInNone | src/processing/data_cleaner.py:109 | an empty range of periods holds no volume |
| DataCleaner.GroupVolume | src/processing/data_cleaner.py:109 | a period's `'sum'` of volume is the volume of the rows in that period |
| DataCleaner.SumVolumeSnoc | src/processing/data_cleaner.py:109 | one more row adds its volume |
| DataCleaner.VolumeInAll | src/processing/data_cleaner.py:109 | a range covering every row's period holds the total volume |
| DataCleaner.PeriodVolumes | src/processing/data_cleaner.py:109 | the volume column of the aggregated frame, one per period |
| DataCleaner.VolumeConserved | src/processing/data_cleaner.py:109-115 | the aggregated volumes add up to the total daily volume |
| DataCleaner.PeriodsCoverAll | src/processing/data_cleaner.py:109-115 | periods covering every row carry the total volume |
| DataCleaner.GroupVolumes | src/processing/data_cleaner.py:109 | one group volume per period |
| DataCleaner.PeriodsGroupVolumes | src/processing/data_cleaner.py:109-115 | the aggregated volume column lists each period's group volume |
| DataCleaner.GroupVolumesSum | src/processing/data_cleaner.py:109 | the group volumes add up to the volume of the range |
| DataCleaner.GroupVolumesAt | src/processing/data_cleaner.py:109 | the k-th group volume is the summed volume of the group of period lo + k |
| DataCleaner.GroupVolumeAt | src/processing/data_cleaner.py:109 | the k-th group volume is the volume of the rows of period lo + k |
| DataCleaner.PerPeriodSum | src/processing/data_cleaner.py:109 | per-period volumes over a range add up to the range's volume |
| DataFetcher.CurrentPrice | src/api/data_fetcher.py:92-120 | a record exactly when the vendor answered; it carries the ticker, the current price falls back to the regular market price and then 0, and the change percent defaults to 0 |
| DataFetcher.StockInfoOf | src/api/data_fetcher.py:23-54 | a record exactly when the vendor answered; it carries the ticker, and the sector is "N/A" exactly when the vendor gave none or gave "N/A" |
| DataFetcher.NormalizeColumnName | src/api/data_fetcher.py:85 | the renamed column keeps its length |
| DataFetcher.NormalizeColumnNameShape | src/api/data_fetcher.py:85 | a renamed column has no space and no upper-case letter, every other character is lower-cased, and renaming again changes nothing |
| DataFetcher.HistoricalData | src/api/data_fetcher.py:56-90 | `None` exactly when the call failed or the frame is empty; otherwise the same rows, the date index as first column, and every column name renamed in place |
| DataFetcher.DownloadHistoricalBulk | src/api/data_fetcher.py:229-253 | the result has a key exactly for each listed ticker whose history came back, mapped to that history |
| DataFetcher.Fetched | src/api/data_fetcher.py:133-139 | no more rows than tickers; each row is a listed ticker whose lookup succeeded, with its current-price record |
| DataFetcher.FetchedComplete | src/api/data_fetcher.py:133-139 | every listed ticker whose lookup succeeds has a row |
| DataFetcher.FetchedAppend | src/api/data_fetcher.py:133-139 | fetching a concatenated list is fetching each part in turn: the rows keep the list order |
| DataFetcher.GetMultipleTickers | src/api/data_fetcher.py:122-154 | the loop collects exactly the fetched rows (also `get_market_indices`, which delegates to it) |
| DataFetcher.TopGainersLosers | src/api/data_fetcher.py:156-185 | no rows give no movers; otherwise at most five gainers by change descending and at most five losers by change ascending |
| DataFetcher.TopGainers | src/api/data_fetcher.py:173-176 | the gainers and the remaining rows are together the input, and every gainer changed at least as much as every remaining row |
| DataFetcher.TopLosers | src/api/data_fetcher.py:173-177 | the losers and the rows before them are together the input, and every loser changed at most as much as every such row |
| DataFetcher.Entries | src/api/data_fetcher.py:200-209 | at most one entry per ticker; what the entries are is stated by EntriesSound, EntriesComplete, EntriesOne and EntriesAppend |
| DataFetcher.EntriesSound | src/api/data_fetcher.py:200-209 | every entry belongs to a listed ticker with both a company and a price record, and carries that ticker's sector and change percent |
| DataFetcher.EntriesComplete | src/api/data_fetcher.py:200-209 | every listed ticker with both records has an entry |
| DataFetcher.EntriesOne | src/api/data_fetcher.py:200-209 | one ticker gives its entry exactly when both records are there |
| DataFetcher.EntriesAppend | src/api/data_fetcher.py:200-209 | the entries of a concatenated list are the two lists' entries in turn, so the ticker order is kept |
| DataFetcher.ChangesIn | src/api/data_fetcher.py:217 | at most one change per entry; what the changes are is stated by ChangesInOne, ChangesInAppend, ChangesInSound and ChangesInCount |
| DataFetcher.ChangesInOne | src/api/data_fetcher.py:217 | one entry contributes its change exactly when it is in the sector |
| DataFetcher.ChangesInAppend | src/api/data_fetcher.py:217 | the changes of a concatenation are those of each part in turn, so entry order is kept |
| DataFetcher.ChangesInSound | src/api/data_fetcher.py:217 | every listed change is the change of an entry in that sector |
| DataFetcher.ChangesInCount | src/api/data_fetcher.py:217-219 | the sector's `count` is the number of its entries |
| DataFetcher.Sectors | src/api/data_fetcher.py:217 | exactly the sectors of the entries, each once |
| DataFetcher.ChangesInNonEmpty | src/api/data_fetcher.py:217-219 | a sector with an entry has at least one change |
| DataFetcher.Grouped | src/api/data_fetcher.py:217-220 | one row per sector, whose count is the number of the sector's changes and whose `avg_change` is their mean |
| DataFetcher.SectorSummary | src/api/data_fetcher.py:211-224 | no entries give an empty frame; otherwise a reordering of the grouped rows, by average change descending |
| DataFetcher.SectorSummaryExact | src/api/data_fetcher.py:217-222 | every entry's sector has exactly one row in the summary |
| DataFetcher.SameSectorSameRow | src/api/data_fetcher.py:217-222 | two summary rows with the same sector are the same row |
| DataFetcher.GroupedDistinct | src/api/data_fetcher.py:217-220 | grouped rows have distinct sectors |
| DataFetcher.GetSectorPerformance | src/api/data_fetcher.py:187-227 | the loop over the tickers collects the entries with both records, which are then grouped and ordered into the summary |

## Left out

- Streamlit rendering (styles, tabs, charts, `display_sentiment`'s layout), the `st.cache_*` memoisation and all logging are not modelled; they do not change any computed value.
- The FinBERT tokenizer, transformer and softmax are one abstract classifier `infer: string -> Option<Scores>`. TextBlob is an abstract `blob` function. `None` stands for an exception raised inside them.
- NewsAPI, FMP, API Ninjas and yfinance responses are inputs (`Option` values where the call can raise). HTTP requests, timeouts and JSON parsing are not modelled.
- `time.time()`, `time.sleep` and `datetime.now()` are parameters (`now`, `overrun`, `localNow`, `ytdStart`, `yearAgo`), not a clock.
- The earnings page imports `src.analysis.finbert_sentiment`, which is not part of this model. The analyzer of src/analysis/finbert_sentiment_fixed.py stands in for it.
- Common.Lower, Common.Upper: map ASCII letters only. Python's full Unicode case mapping is not modelled.
- Common.Strip: removes the characters `str.strip()` treats as whitespace within Latin-1: ASCII whitespace, `\x1c` to `\x1f`, `\x85` and `\xa0`. Whitespace above U+00FF (such as U+2000 to U+200A or U+3000) is not modelled.
- NaN and infinities are `None` in an `Option<real>` slot. IEEE floating-point rounding is not modelled: prices and scores are exact reals.
- SentimentAnalyzer.RowFor: an article's fields are strings, a missing key being the empty string. A field present with the value `None` is not represented; for a null description the source analyses `"<title>. None"`.
- HistoricalAnalysis.PeriodReturn: requires non-zero prices. The source would divide by a zero first price and return an infinity or NaN.
- HistoricalAnalysis.MaxDrawdown: requires positive prices, as a drawdown relative to a zero or negative peak is not a meaningful percentage.
- HistoricalAnalysis.Performance: requires positive prices for the same reason. It omits the volatility and Sharpe figures.
- `calculate_volatility`, `calculate_sharpe_ratio`, `compare_performance`, `calculate_bollinger_bands` and the rolling volatility of feature_engineer.py are not modelled. They rest on square roots and standard deviations over floating point, and `compare_performance` builds a transposed display table.
- DataCleaner.DetectOutliers: compares the squared deviation with threshold² times the sample variance, the same test as |z| > threshold without a square root. The variance is `ddof=1`, as in pandas.
- `to_numeric(errors='coerce')` in `clean_stock_data` is not modelled. Frame values are numbers already.
- The order of columns in a frame is not modelled. Frames map names to columns.
- PortfolioTracker.CalculatePortfolioMetrics: requires a non-zero total value for a non-empty frame. The source would divide by zero and fill the weights with NaN.
- PortfolioTracker.Allocation: a zero total value with holdings gives `None`. pandas divides by zero there and returns the rows with NaN or infinite percentages, which the model does not represent.
- PortfolioTracker.MakeHolding: the `ZeroDivisionError` a zero purchase price raises is the `None` result. Nothing is stored then.
- Sorting.SortDesc: pandas sorts with an unstable quicksort, so the order of rows with equal keys is not specified in the source. The model fixes one order, and the lemmas rely only on sortedness and permutation.
- FeatureEngineer.Prices: requires the price column to exist and to have no missing value. A missing column raises `KeyError` in the source. A NaN price would propagate NaN through every indicator.
- FeatureEngineer.CalculateMovingAverages: requires that no `ma_<window>` name equals the price column. Otherwise the source overwrites its own input halfway through the loop.
- FeatureEngineer.AddAllFeatures: omits the Bollinger and volatility columns. It requires that the price column is not one of the feature names.
- DataFetcher.StockInfoOf: keeps the ticker, company name, sector and industry. The numeric fields of `get_stock_info` are not modelled because no modelled operation reads them.
- DataFetcher.HistoricalData: models a history by its index name, column names and row count. The price values themselves pass through unchanged.
- DataCleaner.AggregateToPeriod: the calendar rule of `resample` is a parameter `period: int -> int` from a date to a period number. The date index is the `date` field of a bar. The rows of a period are taken in input order, whereas `resample` sorts the date index first, so for dates that are not ascending the model's open and close can differ from the source's.
- DataCleaner.AggregatedRow: open is the first and close the last row of the period in input order, not in date order; the two agree when the dates are ascending, as they are for yfinance histories.
- Exceptions caught by the source's `try`/`except` blocks are the `None` or empty results they produce.
- `get_market_indices` is `get_multiple_tickers` on the index symbols. It is covered by `DataFetcher.GetMultipleTickers`.
