/** The FinBERT sentiment path: per-text thresholded argmax over the
    classifier's three softmax scores, batch analysis that keeps the surviving
    texts in order, the aggregate (label counts, percentages, mean confidence,
    strict-plurality vote) and the sentence chunking of an earnings call.

    The tokenizer, the transformer and the softmax are one abstract
    classifier `infer: string -> Option<Scores>`; `None` stands for an
    exception raised while classifying. */
module FinBertSentiment {
  import opened Common

  /** Softmax scores in the model's label order: positive, negative, neutral. */
  datatype Scores = Scores(positive: real, negative: real, neutral: real)

  /** `self.labels` */
  const Labels: seq<Sentiment> := [Positive, Negative, Neutral]

  function ScoreAt(s: Scores, i: nat): real
    requires i < 3
  {
    if i == 0 then s.positive else if i == 1 then s.negative else s.neutral
  }

  /** One kept prediction: `{"label", "confidence", "all_scores"}`. */
  datatype Prediction = Prediction(sentiment: Sentiment, confidence: real, allScores: Scores)

  /** One entry of `analyze_multiple_texts`. */
  datatype TextResult = TextResult(text: string, sentiment: Sentiment, confidence: real, allScores: Scores)

  /** `scores.index(max(scores))`: the first index holding the largest score. */
  function TopIndex(s: Scores): (i: nat)
    ensures i < 3
    ensures forall j :: 0 <= j < 3 ==> ScoreAt(s, j) <= ScoreAt(s, i)
    ensures forall j :: 0 <= j < i ==> ScoreAt(s, j) < ScoreAt(s, i)
  {
    if s.positive >= s.negative && s.positive >= s.neutral then 0
    else if s.negative >= s.neutral then 1
    else 2
  }

  /** What `analyze_financial_sentiment` returns once the classifier has run
      (`None`: model not loaded, or inference raised). */
  function Analyze(scores: Option<Scores>, threshold: real): (r: seq<Prediction>)
    ensures |r| <= 1
    ensures r == [] <==> scores.None? || ScoreAt(scores.value, TopIndex(scores.value)) < threshold
    ensures r != [] ==>
      && r[0].sentiment == Labels[TopIndex(scores.value)]
      && r[0].confidence == ScoreAt(scores.value, TopIndex(scores.value))
      && r[0].confidence >= threshold
      && r[0].allScores == scores.value
      && (forall j :: 0 <= j < 3 ==> ScoreAt(scores.value, j) <= r[0].confidence)
  {
    match scores
    case None => []
    case Some(s) =>
      var top := TopIndex(s);
      if ScoreAt(s, top) < threshold then []
      else [Prediction(Labels[top], ScoreAt(s, top), s)]
  }

  /** `text[:100] + '...' if len(text) > 100 else text` */
  function Preview(text: string): (p: string)
    ensures |p| <= 103
    ensures |text| <= 100 ==> p == text
    ensures |text| > 100 ==> |p| == 103 && p[..100] == text[..100] && p[100..] == "..."
  {
    if |text| > 100 then text[..100] + "..." else text
  }

  /** The classifier as seen by the analysis: nothing comes out until the model is loaded. */
  function Classifier(loaded: bool, infer: string -> Option<Scores>): string -> Option<Scores>
  {
    (t: string) => if loaded then infer(t) else None
  }

  /** The entry `analyze_multiple_texts` appends for one text (none if the analysis came back empty). */
  function ResultFor(classify: string -> Option<Scores>, text: string, threshold: real): (r: seq<TextResult>)
    ensures |r| <= 1
    ensures r != [] ==> r[0].confidence >= threshold
  {
    var p := Analyze(classify(text), threshold);
    if p == [] then [] else [TextResult(Preview(text), p[0].sentiment, p[0].confidence, p[0].allScores)]
  }

  /** Specification of the batch loop. */
  function MultipleTexts(classify: string -> Option<Scores>, texts: seq<string>, threshold: real): (r: seq<TextResult>)
    ensures |r| <= |texts|
    ensures forall k :: 0 <= k < |r| ==> r[k].confidence >= threshold
  {
    if texts == [] then []
    else MultipleTexts(classify, texts[..|texts| - 1], threshold) + ResultFor(classify, texts[|texts| - 1], threshold)
  }

  /** The texts whose analysis is not empty, in input order. */
  function Survivors(classify: string -> Option<Scores>, texts: seq<string>, threshold: real): seq<string>
  {
    if texts == [] then []
    else
      var last := texts[|texts| - 1];
      Survivors(classify, texts[..|texts| - 1], threshold)
        + (if Analyze(classify(last), threshold) == [] then [] else [last])
  }

  /** The batch result is exactly one entry per surviving text, in order: the
      preview of the text, the argmax label and its confidence, which clears the
      threshold. */
  lemma {:induction false} MultipleTextsAreSurvivors(classify: string -> Option<Scores>, texts: seq<string>, threshold: real)
    ensures var r := MultipleTexts(classify, texts, threshold);
            var s := Survivors(classify, texts, threshold);
            && |r| == |s| <= |texts|
            && forall k :: 0 <= k < |r| ==>
                 var p := Analyze(classify(s[k]), threshold);
                 && p != []
                 && r[k] == TextResult(Preview(s[k]), p[0].sentiment, p[0].confidence, p[0].allScores)
                 && r[k].confidence >= threshold
  {
    if texts != [] {
      MultipleTextsAreSurvivors(classify, texts[..|texts| - 1], threshold);
    }
  }

  /** Without a loaded model the batch is empty. */
  lemma {:induction false} UnloadedGivesNothing(infer: string -> Option<Scores>, texts: seq<string>, threshold: real)
    ensures MultipleTexts(Classifier(false, infer), texts, threshold) == []
  {
    if texts != [] {
      UnloadedGivesNothing(infer, texts[..|texts| - 1], threshold);
      assert Classifier(false, infer)(texts[|texts| - 1]) == None;
    }
  }

  /** When every text clears the threshold, nothing is dropped. */
  lemma {:induction false} AllSurvive(classify: string -> Option<Scores>, texts: seq<string>, threshold: real)
    requires forall k :: 0 <= k < |texts| ==> Analyze(classify(texts[k]), threshold) != []
    ensures Survivors(classify, texts, threshold) == texts
  {
    if texts != [] {
      var init := texts[..|texts| - 1];
      assert forall k :: 0 <= k < |init| ==> init[k] == texts[k];
      AllSurvive(classify, init, threshold);
      assert texts == init + [texts[|texts| - 1]];
    }
  }

  // ---------------------------------------------------------------------
  // Aggregate
  // ---------------------------------------------------------------------

  datatype Aggregate = Aggregate(
    overallSentiment: Sentiment,
    confidence: real,
    positiveCount: nat,
    negativeCount: nat,
    neutralCount: nat,
    totalAnalyzed: nat,
    positivePercentage: real,
    negativePercentage: real,
    neutralPercentage: real,
    detailedResults: seq<TextResult>)

  function LabelOf(r: TextResult): Sentiment { r.sentiment }

  function Confidences(results: seq<TextResult>): (c: seq<real>)
    ensures |c| == |results|
    ensures forall i :: 0 <= i < |results| ==> c[i] == results[i].confidence
  {
    seq(|results|, i requires 0 <= i < |results| => results[i].confidence)
  }

  /** The vote: a label wins only with strictly more results than each other
      label; every tie gives neutral. */
  function Plurality(positive: nat, negative: nat, neutral: nat): (o: Sentiment)
    ensures o == Positive <==> positive > negative && positive > neutral
    ensures o == Negative <==> negative > positive && negative > neutral
    ensures o == Neutral <==> !(positive > negative && positive > neutral) && !(negative > positive && negative > neutral)
  {
    if positive > negative && positive > neutral then Positive
    else if negative > positive && negative > neutral then Negative
    else Neutral
  }

  lemma PercentagesSum(p: nat, n: nat, u: nat)
    requires p + n + u > 0
    ensures var t := (p + n + u) as real;
            (p as real / t) * 100.0 + (n as real / t) * 100.0 + (u as real / t) * 100.0 == 100.0
  {
    var t := (p + n + u) as real;
    assert p as real / t + n as real / t + u as real / t == (p + n + u) as real / t;
  }

  /** `get_aggregate_sentiment` after the batch step. */
  function AggregateOf(results: seq<TextResult>): (a: Aggregate)
    ensures results == [] ==> a == Aggregate(Neutral, 0.0, 0, 0, 0, 0, 0.0, 0.0, 0.0, [])
    ensures a.totalAnalyzed == |results|
    ensures a.positiveCount + a.negativeCount + a.neutralCount == a.totalAnalyzed
    ensures a.positiveCount == CountBy(results, LabelOf, Positive)
    ensures a.negativeCount == CountBy(results, LabelOf, Negative)
    ensures a.neutralCount == CountBy(results, LabelOf, Neutral)
    ensures results != [] ==> a.positivePercentage == a.positiveCount as real / |results| as real * 100.0
    ensures results != [] ==> a.negativePercentage == a.negativeCount as real / |results| as real * 100.0
    ensures results != [] ==> a.neutralPercentage == a.neutralCount as real / |results| as real * 100.0
    ensures results != [] ==> a.positivePercentage + a.negativePercentage + a.neutralPercentage == 100.0
    ensures a.overallSentiment == Plurality(a.positiveCount, a.negativeCount, a.neutralCount)
    ensures results != [] ==> a.confidence == Mean(Confidences(results))
    ensures a.detailedResults == results
  {
    if results == [] then Aggregate(Neutral, 0.0, 0, 0, 0, 0, 0.0, 0.0, 0.0, [])
    else
      var p := CountBy(results, LabelOf, Positive);
      var n := CountBy(results, LabelOf, Negative);
      var u := CountBy(results, LabelOf, Neutral);
      CountsPartition(results, LabelOf);
      PercentagesSum(p, n, u);
      var total := |results| as real;
      Aggregate(
        Plurality(p, n, u),
        Sum(Confidences(results)) / total,
        p, n, u, |results|,
        (p as real / total) * 100.0, (n as real / total) * 100.0, (u as real / total) * 100.0,
        results)
  }

  /** The aggregate confidence is a mean of confidences that each cleared the
      threshold, so it lies between the smallest and the largest of them and
      is itself at least the threshold. */
  lemma AggregateConfidenceBounds(classify: string -> Option<Scores>, texts: seq<string>, threshold: real)
    ensures var r := MultipleTexts(classify, texts, threshold);
            var a := AggregateOf(r);
            r != [] ==> Min(Confidences(r)) <= a.confidence <= Max(Confidences(r)) && a.confidence >= threshold
  {
    var r := MultipleTexts(classify, texts, threshold);
    if r != [] {
      MultipleTextsAreSurvivors(classify, texts, threshold);
      var c := Confidences(r);
      MeanBounds(c, Min(c), Max(c));
      assert Min(c) >= threshold;
    }
  }

  // ---------------------------------------------------------------------
  // Earnings-call chunking
  // ---------------------------------------------------------------------

  /** Stripped pieces that are not empty, in order. */
  function NonEmptyStripped(pieces: seq<string>): (r: seq<string>)
    ensures |r| <= |pieces|
    ensures forall k :: 0 <= k < |r| ==> r[k] != []
  {
    if pieces == [] then []
    else NonEmptyStripped(pieces[..|pieces| - 1]) + StrippedPiece(pieces[|pieces| - 1])
  }

  /** What one piece contributes: its stripped form, unless that is empty. */
  function StrippedPiece(p: string): (r: seq<string>)
    ensures |r| <= 1
    ensures r != [] ==> r[0] != []
  {
    var s := Strip(p);
    if s != [] then [s] else []
  }

  /** One piece gives its stripped form, unless that is empty. */
  lemma NonEmptyStrippedOne(p: string)
    ensures NonEmptyStripped([p]) == if Strip(p) != [] then [Strip(p)] else []
  {
    assert [] + StrippedPiece(p) == StrippedPiece(p);
    var s := [p];
    assert s[..|s| - 1] == [];
  }

  lemma ConcatAssoc(x: seq<string>, y: seq<string>, z: seq<string>)
    ensures (x + y) + z == x + (y + z)
  {
  }

  lemma NonEmptyStrippedLast(pieces: seq<string>)
    requires pieces != []
    ensures NonEmptyStripped(pieces)
         == NonEmptyStripped(pieces[..|pieces| - 1]) + StrippedPiece(pieces[|pieces| - 1])
  {
  }

  /** The filter works piece by piece and keeps the order: filtering a
      concatenation concatenates the filtered halves. */
  lemma {:induction false} NonEmptyStrippedAppend(a: seq<string>, b: seq<string>)
    ensures NonEmptyStripped(a + b) == NonEmptyStripped(a) + NonEmptyStripped(b)
    decreases |b|
  {
    if b == [] {
      assert a + b == a;
      assert NonEmptyStripped(b) == [];
      assert NonEmptyStripped(a) + [] == NonEmptyStripped(a);
    } else {
      var ab := a + b;
      var init := b[..|b| - 1];
      assert b[..|b| - 1] == init;
      var last := b[|b| - 1];
      assert ab[..|ab| - 1] == a + init;
      assert ab[|ab| - 1] == last;
      NonEmptyStrippedAppend(a, init);
      var tail := StrippedPiece(last);
      NonEmptyStrippedLast(ab);
      NonEmptyStrippedLast(b);
      ConcatAssoc(NonEmptyStripped(a), NonEmptyStripped(init), tail);
    }
  }

  /** Every kept sentence is the stripped form of some piece. */
  lemma {:induction false} NonEmptyStrippedSound(pieces: seq<string>, x: string)
    requires x in NonEmptyStripped(pieces)
    ensures exists p :: p in pieces && x == Strip(p) && x != []
  {
    var init := pieces[..|pieces| - 1];
    var last := pieces[|pieces| - 1];
    if x in NonEmptyStripped(init) {
      NonEmptyStrippedSound(init, x);
      var p :| p in init && x == Strip(p) && x != [];
      assert p in pieces;
    } else {
      assert x == Strip(last) && last in pieces;
    }
  }

  /** Every piece that is not blank contributes its stripped form. */
  lemma {:induction false} NonEmptyStrippedComplete(pieces: seq<string>, p: string)
    requires p in pieces && Strip(p) != []
    ensures Strip(p) in NonEmptyStripped(pieces)
  {
    var init := pieces[..|pieces| - 1];
    var last := pieces[|pieces| - 1];
    if p != last {
      assert pieces == init + [last];
      assert p in init;
      NonEmptyStrippedComplete(init, p);
    }
  }

  /** `[s.strip() for s in transcript.split('.') if s.strip()]` */
  function Sentences(transcript: string): (r: seq<string>)
    ensures forall k :: 0 <= k < |r| ==> r[k] != [] && '.' !in r[k]
  {
    var pieces := Split(transcript, ".");
    var r := NonEmptyStripped(pieces);
    SplitNoSeparator(transcript, '.');
    forall k | 0 <= k < |r|
      ensures '.' !in r[k]
    {
      NonEmptyStrippedSound(pieces, r[k]);
      var p :| p in pieces && r[k] == Strip(p) && r[k] != [];
      var a :| StrippedAt(p, r[k], a);
      assert forall c :: c in r[k] ==> c in p;
    }
    r
  }

  /** One chunk: its sentences joined by `'. '`, then a final `'.'`. */
  function JoinChunk(sentences: seq<string>): (r: string)
    ensures r != [] && r[|r| - 1] == '.'
    ensures r[..|r| - 1] == Join(sentences, ". ")
  {
    Join(sentences, ". ") + "."
  }

  /** Groups of five consecutive sentences (the last group may be shorter). */
  function Groups(sentences: seq<string>): (r: seq<string>)
    ensures forall k :: 0 <= k < |r| ==> r[k] != [] && r[k][|r[k]| - 1] == '.'
    decreases |sentences|
  {
    if sentences == [] then []
    else if |sentences| <= 5 then [JoinChunk(sentences)]
    else [JoinChunk(sentences[..5])] + Groups(sentences[5..])
  }

  /** n sentences make ceil(n / 5) chunks. */
  lemma {:induction false} GroupsCount(sentences: seq<string>)
    ensures |Groups(sentences)| == (|sentences| + 4) / 5
    decreases |sentences|
  {
    if |sentences| > 5 {
      GroupsCount(sentences[5..]);
    }
  }

  /** A chunk always ends in '.', so the source's `if chunk.strip()` never drops one. */
  lemma ChunkNotBlank(sentences: seq<string>)
    ensures Strip(JoinChunk(sentences)) != []
  {
    var c := JoinChunk(sentences);
    assert c[|c| - 1] == '.';
    assert !IsSpace(c[|c| - 1]);
  }

  lemma GroupsStep(s: seq<string>, i: nat, end: nat)
    requires i < |s| && end == (if i + 5 <= |s| then i + 5 else |s|)
    ensures Groups(s[i..]) == [JoinChunk(s[i..end])] + Groups(s[end..])
  {
    var t := s[i..];
    if |t| <= 5 {
      assert t == s[i..end];
      assert s[end..] == [];
    } else {
      assert t[..5] == s[i..end];
      assert t[5..] == s[end..];
    }
  }

  lemma AppendStep(a: seq<string>, x: string, b: seq<string>)
    ensures (a + [x]) + b == a + ([x] + b)
  {
  }

  /** One round of the chunking loop: the chunk is kept, and the groups still
      to come are those after it. */
  lemma ChunkStep(s: seq<string>, i: nat, end: nat, chunks: seq<string>)
    requires i < |s| && end == (if i + 5 <= |s| then i + 5 else |s|)
    ensures Strip(JoinChunk(s[i..end])) != []
    ensures (chunks + [JoinChunk(s[i..end])]) + Groups(s[end..]) == chunks + Groups(s[i..])
  {
    ChunkNotBlank(s[i..end]);
    GroupsStep(s, i, end);
    AppendStep(chunks, JoinChunk(s[i..end]), Groups(s[end..]));
  }

  /** The chunking loop of `analyze_earnings_call`. */
  method EarningsCallChunks(transcript: string) returns (chunks: seq<string>)
    ensures chunks == Groups(Sentences(transcript))
    ensures |chunks| == (|Sentences(transcript)| + 4) / 5
  {
    var sentences := Sentences(transcript);
    var n := |sentences|;
    chunks := [];
    var i := 0;
    while i < n
      invariant 0 <= i <= n
      invariant chunks + Groups(sentences[i..]) == Groups(sentences)
    {
      var end := if i + 5 <= n then i + 5 else n;
      var chunk := JoinChunk(sentences[i..end]);
      ChunkStep(sentences, i, end, chunks);
      if Strip(chunk) != [] {
        chunks := chunks + [chunk];
      }
      i := end;
    }
    assert sentences[i..] == [];
    GroupsCount(sentences);
  }

  // ---------------------------------------------------------------------
  // The analyzer object
  // ---------------------------------------------------------------------

  /** `FinBERTAnalyzer`: the only state is whether tokenizer and model are loaded. */
  class FinBertAnalyzer {
    var modelLoaded: bool

    constructor ()
      ensures !modelLoaded
    {
      modelLoaded := false;
    }

    /** `ensure_model_loaded`: loads once; `loadSucceeds` is what the (cached)
        loader returns. */
    method EnsureModelLoaded(loadSucceeds: bool) returns (ok: bool)
      modifies this
      ensures modelLoaded == (old(modelLoaded) || loadSucceeds)
      ensures ok == modelLoaded
    {
      if !modelLoaded {
        modelLoaded := loadSucceeds;
      }
      ok := modelLoaded;
    }

    method AnalyzeFinancialSentiment(text: string, threshold: real, loadSucceeds: bool, infer: string -> Option<Scores>)
      returns (r: seq<Prediction>)
      modifies this
      ensures modelLoaded == (old(modelLoaded) || loadSucceeds)
      ensures r == Analyze(Classifier(modelLoaded, infer)(text), threshold)
    {
      var ok := EnsureModelLoaded(loadSucceeds);
      if !ok {
        return [];
      }
      r := Analyze(infer(text), threshold);
    }

    method AnalyzeMultipleTexts(texts: seq<string>, threshold: real, loadSucceeds: bool, infer: string -> Option<Scores>)
      returns (results: seq<TextResult>)
      modifies this
      ensures modelLoaded == (old(modelLoaded) || (loadSucceeds && texts != []))
      ensures results == MultipleTexts(Classifier(old(modelLoaded) || loadSucceeds, infer), texts, threshold)
    {
      ghost var classify := Classifier(old(modelLoaded) || loadSucceeds, infer);
      results := [];
      var i := 0;
      while i < |texts|
        invariant 0 <= i <= |texts|
        invariant modelLoaded == (old(modelLoaded) || (loadSucceeds && i > 0))
        invariant results == MultipleTexts(classify, texts[..i], threshold)
      {
        var sentiment := AnalyzeFinancialSentiment(texts[i], threshold, loadSucceeds, infer);
        assert texts[..i + 1][..i] == texts[..i];
        if sentiment != [] {
          results := results + [TextResult(Preview(texts[i]), sentiment[0].sentiment, sentiment[0].confidence, sentiment[0].allScores)];
        }
        i := i + 1;
      }
      assert texts[..i] == texts;
    }

    method GetAggregateSentiment(texts: seq<string>, threshold: real, loadSucceeds: bool, infer: string -> Option<Scores>)
      returns (a: Aggregate)
      modifies this
      ensures modelLoaded == (old(modelLoaded) || (loadSucceeds && texts != []))
      ensures a == AggregateOf(MultipleTexts(Classifier(old(modelLoaded) || loadSucceeds, infer), texts, threshold))
    {
      var results := AnalyzeMultipleTexts(texts, threshold, loadSucceeds, infer);
      a := AggregateOf(results);
    }
  }

  /** `analyze_earnings_call`, given the shared analyzer instance. */
  method AnalyzeEarningsCall(analyzer: FinBertAnalyzer, transcript: string, threshold: real, loadSucceeds: bool, infer: string -> Option<Scores>)
    returns (a: Aggregate)
    modifies analyzer
    ensures a == AggregateOf(MultipleTexts(Classifier(old(analyzer.modelLoaded) || loadSucceeds, infer), Groups(Sentences(transcript)), threshold))
  {
    var chunks := EarningsCallChunks(transcript);
    a := analyzer.GetAggregateSentiment(chunks, threshold, loadSucceeds, infer);
  }
}
