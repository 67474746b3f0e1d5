/** The TextBlob sentiment path: a polarity threshold rule, the per-article
    batch table, an aggregate whose label follows the mean polarity (not the
    label counts), and the five-bucket indicator.

    TextBlob itself is the abstract `blob: string -> BlobScores`. */
module SentimentAnalyzer {
  import opened Common

  /** TextBlob's `sentiment.polarity` and `sentiment.subjectivity`. */
  datatype BlobScores = BlobScores(polarity: real, subjectivity: real)

  /** The dict `analyze_sentiment` returns. */
  datatype SentimentScore = SentimentScore(polarity: real, subjectivity: real, sentiment: Sentiment)

  /** The label rule: above 0.1 positive, below -0.1 negative, the closed
      interval [-0.1, 0.1] neutral. */
  function Classify(polarity: real): (l: Sentiment)
    ensures l == Positive <==> polarity > 0.1
    ensures l == Negative <==> polarity < -0.1
    ensures l == Neutral <==> -0.1 <= polarity <= 0.1
  {
    if polarity > 0.1 then Positive
    else if polarity < -0.1 then Negative
    else Neutral
  }

  function AnalyzeSentiment(blob: string -> BlobScores, text: string): (r: SentimentScore)
    ensures text == [] ==> r == SentimentScore(0.0, 0.0, Neutral)
    ensures text != [] ==> r.polarity == blob(text).polarity && r.subjectivity == blob(text).subjectivity
    ensures r.sentiment == Classify(r.polarity)
  {
    if text == [] then SentimentScore(0.0, 0.0, Neutral)
    else
      var b := blob(text);
      SentimentScore(b.polarity, b.subjectivity, Classify(b.polarity))
  }

  /** `dict.get(key, '')` on a news item. */
  function Get(item: map<string, string>, key: string): (v: string)
    ensures key !in item ==> v == ""
    ensures key in item ==> v == item[key]
  {
    if key in item then item[key] else ""
  }

  /** One row of the table `analyze_news_batch` builds. */
  datatype NewsRow = NewsRow(
    title: string,
    description: string,
    polarity: real,
    subjectivity: real,
    sentiment: Sentiment,
    source: string,
    url: string,
    publishDate: string)

  /** The row for one article: the analysed text is `title + ". " + description`,
      which is never empty, so the polarity always comes from TextBlob. */
  function RowFor(blob: string -> BlobScores, item: map<string, string>): (r: NewsRow)
    ensures r.title == Get(item, "title") && r.description == Get(item, "description")
    ensures var text := Get(item, "title") + ". " + Get(item, "description");
            r.polarity == blob(text).polarity && r.subjectivity == blob(text).subjectivity
    ensures r.sentiment == Classify(r.polarity)
    ensures r.source == Get(item, "source") && r.url == Get(item, "url") && r.publishDate == Get(item, "publishedAt")
  {
    var title := Get(item, "title");
    var description := Get(item, "description");
    var text := title + ". " + description;
    assert text[|title|] == '.';
    var s := AnalyzeSentiment(blob, text);
    NewsRow(title, description, s.polarity, s.subjectivity, s.sentiment,
            Get(item, "source"), Get(item, "url"), Get(item, "publishedAt"))
  }

  /** `analyze_news_batch`: one row per article, in input order. */
  method AnalyzeNewsBatch(blob: string -> BlobScores, newsList: seq<map<string, string>>) returns (rows: seq<NewsRow>)
    ensures |rows| == |newsList|
    ensures forall i :: 0 <= i < |newsList| ==> rows[i] == RowFor(blob, newsList[i])
  {
    rows := [];
    for i := 0 to |newsList|
      invariant |rows| == i
      invariant forall k :: 0 <= k < i ==> rows[k] == RowFor(blob, newsList[k])
    {
      var news := newsList[i];
      var title := Get(news, "title");
      var description := Get(news, "description");
      var text := title + ". " + description;
      var sentiment := AnalyzeSentiment(blob, text);
      rows := rows + [NewsRow(title, description, sentiment.polarity, sentiment.subjectivity, sentiment.sentiment,
                              Get(news, "source"), Get(news, "url"), Get(news, "publishedAt"))];
    }
  }

  // ---------------------------------------------------------------------
  // Aggregate
  // ---------------------------------------------------------------------

  datatype AggregateSentiment = AggregateSentiment(
    avgPolarity: real,
    sentimentScore: real,
    positiveCount: nat,
    negativeCount: nat,
    neutralCount: nat,
    overallSentiment: Sentiment)

  function Polarities(rows: seq<NewsRow>): (p: seq<real>)
    ensures |p| == |rows|
    ensures forall i :: 0 <= i < |rows| ==> p[i] == rows[i].polarity
  {
    seq(|rows|, i requires 0 <= i < |rows| => rows[i].polarity)
  }

  function RowLabel(r: NewsRow): Sentiment { r.sentiment }

  /** `calculate_aggregate_sentiment`; `hasPolarityColumn` says whether the
      frame has a `polarity` column at all. */
  function CalculateAggregateSentiment(rows: seq<NewsRow>, hasPolarityColumn: bool): (a: AggregateSentiment)
    ensures rows == [] || !hasPolarityColumn ==> a == AggregateSentiment(0.0, 0.0, 0, 0, 0, Neutral)
    ensures rows != [] && hasPolarityColumn ==>
      && a.avgPolarity == Mean(Polarities(rows))
      && a.sentimentScore == 100.0 * a.avgPolarity
      && a.overallSentiment == Classify(a.avgPolarity)
      && a.positiveCount + a.negativeCount + a.neutralCount == |rows|
      && a.positiveCount == CountBy(rows, RowLabel, Positive)
      && a.negativeCount == CountBy(rows, RowLabel, Negative)
      && a.neutralCount == CountBy(rows, RowLabel, Neutral)
  {
    if rows == [] || !hasPolarityColumn then AggregateSentiment(0.0, 0.0, 0, 0, 0, Neutral)
    else
      var avg := Mean(Polarities(rows));
      CountsPartition(rows, RowLabel);
      AggregateSentiment(avg, avg * 100.0,
        CountBy(rows, RowLabel, Positive), CountBy(rows, RowLabel, Negative), CountBy(rows, RowLabel, Neutral),
        Classify(avg))
  }

  /** When every article is above the positive threshold, so is the aggregate. */
  lemma UnanimousPositive(rows: seq<NewsRow>)
    requires rows != []
    requires forall i :: 0 <= i < |rows| ==> rows[i].polarity > 0.1
    ensures CalculateAggregateSentiment(rows, true).overallSentiment == Positive
  {
    var p := Polarities(rows);
    SumStrictLower(p, 0.1);
    var n := |p| as real;
    assert Sum(p) / n > 0.1 by {
      assert Sum(p) > n * 0.1;
    }
  }

  /** When every article is below the negative threshold, so is the aggregate. */
  lemma UnanimousNegative(rows: seq<NewsRow>)
    requires rows != []
    requires forall i :: 0 <= i < |rows| ==> rows[i].polarity < -0.1
    ensures CalculateAggregateSentiment(rows, true).overallSentiment == Negative
  {
    var p := Polarities(rows);
    SumStrictUpper(p, -0.1);
    var n := |p| as real;
    assert Sum(p) / n < -0.1 by {
      assert Sum(p) < n * -0.1;
    }
  }

  /** With TextBlob's polarity range [-1, 1] the score lies in [-100, 100]. */
  lemma ScoreRange(rows: seq<NewsRow>)
    requires rows != []
    requires forall i :: 0 <= i < |rows| ==> -1.0 <= rows[i].polarity <= 1.0
    ensures -100.0 <= CalculateAggregateSentiment(rows, true).sentimentScore <= 100.0
  {
    MeanBounds(Polarities(rows), -1.0, 1.0);
  }

  /** The label follows the mean, not the counts: two positive articles and one
      strongly negative one give a negative overall label. */
  lemma MajorityCanLose(r: NewsRow)
    requires r.sentiment == Positive
    ensures var rows := [r.(polarity := 0.2), r.(polarity := 0.2), r.(polarity := -1.0, sentiment := Negative)];
            var a := CalculateAggregateSentiment(rows, true);
            a.positiveCount == 2 && a.negativeCount == 1 && a.overallSentiment == Negative
  {
    var rows := [r.(polarity := 0.2), r.(polarity := 0.2), r.(polarity := -1.0, sentiment := Negative)];
    var p := Polarities(rows);
    assert p == [0.2, 0.2, -1.0];
    assert Sum([0.2]) == 0.2 by { assert [0.2][..0] == []; }
    assert Sum([0.2, 0.2]) == 0.4 by { assert [0.2, 0.2][..1] == [0.2]; }
    assert Sum(p) == -0.6 by { assert p[..2] == [0.2, 0.2]; }
    assert CountBy(rows[..1], RowLabel, Positive) == 1 by { assert rows[..1][..0] == []; }
    assert CountBy(rows[..2], RowLabel, Positive) == 2 by { assert rows[..2][..1] == rows[..1]; }
    assert CountBy(rows, RowLabel, Positive) == 2 by { assert rows[..|rows| - 1] == rows[..2]; }
    assert CountBy(rows[..1], RowLabel, Negative) == 0 by { assert rows[..1][..0] == []; }
    assert CountBy(rows[..2], RowLabel, Negative) == 0 by { assert rows[..2][..1] == rows[..1]; }
    assert CountBy(rows, RowLabel, Negative) == 1 by { assert rows[..|rows| - 1] == rows[..2]; }
  }

  // ---------------------------------------------------------------------
  // Indicator
  // ---------------------------------------------------------------------

  const VeryPositiveText: string := "\U{1F7E2} Very Positive"
  const PositiveText: string := "\U{1F7E2} Positive"
  const VeryNegativeText: string := "\U{1F534} Very Negative"
  const NegativeText: string := "\U{1F534} Negative"
  const NeutralText: string := "\U{26AA} Neutral"

  /** `get_sentiment_indicator`: exactly one of five buckets. */
  function SentimentIndicator(polarity: real): (r: string)
    ensures r == VeryPositiveText <==> polarity > 0.3
    ensures r == PositiveText <==> 0.1 < polarity <= 0.3
    ensures r == VeryNegativeText <==> polarity < -0.3
    ensures r == NegativeText <==> -0.3 <= polarity < -0.1
    ensures r == NeutralText <==> -0.1 <= polarity <= 0.1
  {
    if polarity > 0.3 then VeryPositiveText
    else if polarity > 0.1 then PositiveText
    else if polarity < -0.3 then VeryNegativeText
    else if polarity < -0.1 then NegativeText
    else NeutralText
  }

  /** The indicator refines the label rule: its two positive buckets are exactly
      the positive label, and likewise for negative and neutral. */
  lemma IndicatorRefinesClassify(polarity: real)
    ensures var r := SentimentIndicator(polarity);
            && (Classify(polarity) == Positive <==> r == VeryPositiveText || r == PositiveText)
            && (Classify(polarity) == Negative <==> r == VeryNegativeText || r == NegativeText)
            && (Classify(polarity) == Neutral <==> r == NeutralText)
  {
  }
}
