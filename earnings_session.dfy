/** The earnings-transcript page: a cache of one fetched transcript held in
    two session fields, `transcript_result` and `transcript_query`, that the
    page reads and overwrites on every rerun, so that it never shows a
    transcript fetched for other inputs; plus the rule that cuts a transcript
    into chunks for FinBERT.

    The API Ninjas response is an input (`Option<Payload>`, `None` when
    `fetch_transcript` returns `None`); its values are taken as strings. */
module EarningsSession {
  import opened Common
  import opened FinBertSentiment

  /** The transcript dictionary returned by the API. */
  type Payload = map<string, string>

  /** `d.get(key)` where a missing key reads like an empty (falsy) string. */
  function Field(p: Payload, key: string): (v: string)
    ensures key in p ==> v == p[key]
    ensures key !in p ==> v == ""
  {
    GetOr(p, key, "")
  }

  /** `d.get('transcript') or d.get('content') or d.get('text') or ''`. */
  function SelectContent(p: Payload): (c: string)
    ensures c == "" <==> Field(p, "transcript") == "" && Field(p, "content") == "" && Field(p, "text") == ""
    ensures Field(p, "transcript") != "" ==> c == Field(p, "transcript")
    ensures Field(p, "transcript") == "" && Field(p, "content") != "" ==> c == Field(p, "content")
    ensures Field(p, "transcript") == "" && Field(p, "content") == "" ==> c == Field(p, "text")
  {
    if Field(p, "transcript") != "" then Field(p, "transcript")
    else if Field(p, "content") != "" then Field(p, "content")
    else Field(p, "text")
  }

  /** The stored `transcript_result` dictionary. */
  datatype TranscriptResult = TranscriptResult(
    content: string,
    symbol: string,
    qtr: string,
    yr: string,
    date: string,
    sentiment: Option<Aggregate>)

  /** The result built from a payload whose content is non-empty; the
      metadata falls back to the page inputs when the payload lacks it. */
  function ResultOf(p: Payload, content: string, ticker: string, year: int, quarter: int): (r: TranscriptResult)
    ensures r.content == content && r.sentiment == None
    ensures r.symbol == GetOr(p, "ticker", GetOr(p, "symbol", ticker))
    ensures r.qtr == GetOr(p, "quarter", IntStr(quarter)) && r.yr == GetOr(p, "year", IntStr(year))
    ensures r.date == GetOr(p, "date", "Q" + r.qtr + " " + r.yr)
  {
    var qtr := GetOr(p, "quarter", IntStr(quarter));
    var yr := GetOr(p, "year", IntStr(year));
    TranscriptResult(content, GetOr(p, "ticker", GetOr(p, "symbol", ticker)), qtr, yr,
                     GetOr(p, "date", "Q" + qtr + " " + yr), None)
  }

  // ---------------------------------------------------------------------
  // The query key
  // ---------------------------------------------------------------------

  /** `f"{ticker}_{year}_{quarter}"` with the ticker upper-cased. */
  function QueryKey(ticker: string, year: int, quarter: int): (k: string)
    ensures |ticker| < |k| && k[..|ticker|] == Upper(ticker) && k[|ticker|] == '_'
  {
    Upper(ticker) + "_" + IntStr(year) + "_" + IntStr(quarter)
  }

  /** For four-digit years and one-digit quarters the key determines the
      inputs, so "stored query equals current key" means "fetched for the
      current (upper-cased) ticker, year and quarter". */
  lemma QueryKeyInjective(t1: string, y1: int, q1: int, t2: string, y2: int, q2: int)
    requires 1000 <= y1 <= 9999 && 1000 <= y2 <= 9999
    requires 0 <= q1 <= 9 && 0 <= q2 <= 9
    requires QueryKey(t1, y1, q1) == QueryKey(t2, y2, q2)
    ensures Upper(t1) == Upper(t2) && y1 == y2 && q1 == q2
  {
    var u1, a1, b1 := Upper(t1), NatStr(y1), NatStr(q1);
    var u2, a2, b2 := Upper(t2), NatStr(y2), NatStr(q2);
    assert QueryKey(t1, y1, q1) == u1 + "_" + a1 + "_" + b1;
    assert QueryKey(t2, y2, q2) == u2 + "_" + a2 + "_" + b2;
    NatStrFourDigits(y1);
    NatStrFourDigits(y2);
    NatStrOneDigit(q1);
    NatStrOneDigit(q2);
    KeyParts(u1, a1, b1);
    KeyParts(u2, a2, b2);
    assert |u1| == |u2|;
    assert u1 == u2 && a1 == a2 && b1 == b2;
    NatStrInjective(y1, y2);
    NatStrInjective(q1, q2);
  }

  /** The three fields of a key with a four-character year and a
      one-character quarter sit at fixed offsets from the end. */
  lemma KeyParts(u: string, y: string, q: string)
    requires |y| == 4 && |q| == 1
    ensures var k := u + "_" + y + "_" + q;
            |k| == |u| + 7 && k[..|u|] == u && k[|u| + 1..|u| + 5] == y && k[|u| + 6..] == q
  {
  }

  // ---------------------------------------------------------------------
  // Chunking for FinBERT
  // ---------------------------------------------------------------------

  /** The stripped pieces longer than 50 characters, in order. */
  function LongParagraphs(pieces: seq<string>): (r: seq<string>)
    ensures |r| <= |pieces|
    ensures forall k :: 0 <= k < |r| ==> |r[k]| > 50
  {
    if pieces == [] then []
    else
      var rest := LongParagraphs(pieces[..|pieces| - 1]);
      var p := Strip(pieces[|pieces| - 1]);
      if |p| > 50 then rest + [p] else rest
  }

  /** A paragraph is kept exactly when it is the stripped form, longer than
      50 characters, of one of the pieces. */
  lemma LongParagraphsExact(pieces: seq<string>, x: string)
    ensures x in LongParagraphs(pieces) <==> exists p :: p in pieces && x == Strip(p) && |x| > 50
  {
    if x in LongParagraphs(pieces) {
      LongParagraphsSound(pieces, x);
    }
    if exists p :: p in pieces && x == Strip(p) && |x| > 50 {
      var p :| p in pieces && x == Strip(p) && |x| > 50;
      LongParagraphsComplete(pieces, p);
    }
  }

  lemma {:induction false} LongParagraphsSound(pieces: seq<string>, x: string)
    requires x in LongParagraphs(pieces)
    ensures exists p :: p in pieces && x == Strip(p) && |x| > 50
  {
    var init := pieces[..|pieces| - 1];
    var last := pieces[|pieces| - 1];
    if x in LongParagraphs(init) {
      LongParagraphsSound(init, x);
      var p :| p in init && x == Strip(p) && |x| > 50;
      assert p in pieces;
    } else {
      assert x == Strip(last) && last in pieces;
    }
  }

  lemma {:induction false} LongParagraphsComplete(pieces: seq<string>, p: string)
    requires p in pieces && |Strip(p)| > 50
    ensures Strip(p) in LongParagraphs(pieces)
  {
    var init := pieces[..|pieces| - 1];
    var last := pieces[|pieces| - 1];
    if p != last {
      assert pieces == init + [last];
      assert p in init;
      LongParagraphsComplete(init, p);
    }
  }

  /** What one piece contributes: its stripped form, when that is longer
      than 50 characters. */
  function LongPiece(p: string): (r: seq<string>)
    ensures |r| <= 1
    ensures r != [] ==> r[0] == Strip(p) && |r[0]| > 50
  {
    if |Strip(p)| > 50 then [Strip(p)] else []
  }

  lemma LongParagraphsLast(pieces: seq<string>)
    requires pieces != []
    ensures LongParagraphs(pieces)
         == LongParagraphs(pieces[..|pieces| - 1]) + LongPiece(pieces[|pieces| - 1])
  {
  }

  /** One piece is kept, stripped, exactly when it is long. */
  lemma LongParagraphsOne(p: string)
    ensures LongParagraphs([p]) == if |Strip(p)| > 50 then [Strip(p)] else []
  {
    var s := [p];
    assert s[..|s| - 1] == [];
  }

  /** The filter works piece by piece and keeps the order: filtering a
      concatenation concatenates the filtered halves. */
  lemma {:induction false} LongParagraphsAppend(a: seq<string>, b: seq<string>)
    ensures LongParagraphs(a + b) == LongParagraphs(a) + LongParagraphs(b)
    decreases |b|
  {
    if b == [] {
      assert a + b == a;
      assert LongParagraphs(a) + [] == LongParagraphs(a);
    } else {
      var ab := a + b;
      var init := b[..|b| - 1];
      var last := b[|b| - 1];
      assert ab[..|ab| - 1] == a + init;
      assert ab[|ab| - 1] == last;
      LongParagraphsAppend(a, init);
      LongParagraphsLast(ab);
      LongParagraphsLast(b);
      ConcatAssoc(LongParagraphs(a), LongParagraphs(init), LongPiece(last));
    }
  }

  /** `[content[i:i+n] for i in range(0, len(content), n)]`. */
  function Slices(content: string, n: nat): (r: seq<string>)
    requires n > 0
    ensures content != [] <==> r != []
    ensures forall k :: 0 <= k < |r| ==> 0 < |r[k]| <= n
    decreases |content|
  {
    if content == [] then []
    else if |content| <= n then [content]
    else [content[..n]] + Slices(content[n..], n)
  }

  function Concat(parts: seq<string>): string
  {
    if parts == [] then [] else parts[0] + Concat(parts[1..])
  }

  /** The slices put back together are the content. */
  lemma {:induction false} SlicesConcat(content: string, n: nat)
    requires n > 0
    ensures Concat(Slices(content, n)) == content
    decreases |content|
  {
    if content != [] && |content| > n {
      var r := Slices(content, n);
      assert r[1..] == Slices(content[n..], n);
      SlicesConcat(content[n..], n);
      assert content == content[..n] + content[n..];
    }
  }

  /** The chunks sent to FinBERT: long paragraphs, else 500-character slices. */
  function TranscriptChunks(content: string): (chunks: seq<string>)
    ensures content != [] ==> chunks != []
    ensures forall c :: c in chunks ==> c != []
  {
    var paragraphs := LongParagraphs(Split(content, "\n\n"));
    if paragraphs == [] then Slices(content, 500) else paragraphs
  }

  /** Without a long paragraph the chunks are at most 500 characters and
      rebuild the content. */
  lemma TranscriptChunksFallback(content: string)
    ensures var chunks := TranscriptChunks(content);
            LongParagraphs(Split(content, "\n\n")) == [] ==>
              Concat(chunks) == content && forall c :: c in chunks ==> |c| <= 500
  {
    SlicesConcat(content, 500);
  }

  /** What the page computes for a transcript on first display: a fresh
      analyzer's aggregate over the chunks at the default threshold 0.5. */
  function TranscriptSentiment(content: string, loadSucceeds: bool, infer: string -> Option<Scores>): (a: Aggregate)
    ensures a.totalAnalyzed <= |TranscriptChunks(content)|
    ensures !loadSucceeds ==> a == Aggregate(Neutral, 0.0, 0, 0, 0, 0, 0.0, 0.0, 0.0, [])
    ensures a.totalAnalyzed > 0 ==> a.confidence >= 0.5
  {
    var classify := Classifier(loadSucceeds, infer);
    var chunks := TranscriptChunks(content);
    var r := MultipleTexts(classify, chunks, 0.5);
    AggregateConfidenceBounds(classify, chunks, 0.5);
    UnloadedGivesNothing(infer, chunks, 0.5);
    AggregateOf(r)
  }

  method AnalyzeTranscript(content: string, loadSucceeds: bool, infer: string -> Option<Scores>)
    returns (aggregate: Aggregate)
    ensures aggregate == TranscriptSentiment(content, loadSucceeds, infer)
  {
    var analyzer := new FinBertAnalyzer();
    var chunks := TranscriptChunks(content);
    aggregate := analyzer.GetAggregateSentiment(chunks, 0.5, loadSucceeds, infer);
  }

  /** What the display branch shows for the held result and query: nothing
      unless a result is held under the current query; then that result, its
      sentiment computed when it had none. */
  function DisplayOutcome(held: Option<TranscriptResult>, query: Option<string>, currentQuery: string,
                          loadSucceeds: bool, infer: string -> Option<Scores>): (r: Option<TranscriptResult>)
    ensures r.Some? <==> held.Some? && query == Some(currentQuery)
    ensures r.Some? ==> r.value.content == held.value.content
    ensures r.Some? ==> r.value.sentiment.Some? && r.value == held.value.(sentiment := r.value.sentiment)
    ensures r.Some? && held.value.sentiment.Some? ==> r == held
    ensures r.Some? && held.value.sentiment.None? ==>
      r.value.sentiment == Some(TranscriptSentiment(held.value.content, loadSucceeds, infer))
  {
    if held.None? || query != Some(currentQuery) then None
    else if held.value.sentiment.Some? then held
    else Some(held.value.(sentiment := Some(TranscriptSentiment(held.value.content, loadSucceeds, infer))))
  }

  /** The display branch on the held values: the result is shown only under
      the current query, and its sentiment is computed once. */
  method ShownResult(held: Option<TranscriptResult>, query: Option<string>, currentQuery: string,
                     loadSucceeds: bool, infer: string -> Option<Scores>)
    returns (shown: Option<TranscriptResult>)
    ensures shown == DisplayOutcome(held, query, currentQuery, loadSucceeds, infer)
  {
    if held.None? || query != Some(currentQuery) {
      return None;
    }
    var data := held.value;
    if data.sentiment.Some? {
      return held;
    }
    var aggregate := AnalyzeTranscript(data.content, loadSucceeds, infer);
    shown := Some(data.(sentiment := Some(aggregate)));
  }

  /** A fetch that the ANALYZE branch stores: an answer with non-empty content. */
  predicate Usable(fetched: Option<Payload>)
  {
    fetched.Some? && fetched.value != map[] && SelectContent(fetched.value) != ""
  }

  /** The session fields `(result, query)` after one rerun's invalidation
      step and, on ANALYZE, its fetch step: whatever is held is tagged with
      the current query, and a click stores the fetched transcript with no
      sentiment yet, or clears both fields. */
  function AfterRerun(held: Option<TranscriptResult>, query: Option<string>, currentQuery: string,
                      analyzeClicked: bool, fetched: Option<Payload>, ticker: string, year: int, quarter: int)
    : (r: (Option<TranscriptResult>, Option<string>))
    ensures r.0.Some? ==> r.1 == Some(currentQuery)
    ensures !analyzeClicked ==> r.1 == query
    ensures !analyzeClicked && query == Some(currentQuery) ==> r.0 == held
    ensures analyzeClicked ==> (r.0.Some? <==> Usable(fetched)) && (r.1.Some? <==> Usable(fetched))
    ensures analyzeClicked && Usable(fetched) ==>
      r.0.value.content == SelectContent(fetched.value) && r.0.value.sentiment == None
  {
    if !analyzeClicked then (if query == Some(currentQuery) then held else None, query)
    else if !Usable(fetched) then (None, None)
    else (Some(ResultOf(fetched.value, SelectContent(fetched.value), Upper(ticker), year, quarter)), Some(currentQuery))
  }

  /** Clicking ANALYZE with a usable answer shows the fetched transcript on
      the same rerun, with its sentiment freshly computed. */
  lemma AnalyzeShowsFetched(held: Option<TranscriptResult>, query: Option<string>, currentQuery: string,
                            fetched: Option<Payload>, ticker: string, year: int, quarter: int,
                            loadSucceeds: bool, infer: string -> Option<Scores>)
    requires Usable(fetched)
    ensures var after := AfterRerun(held, query, currentQuery, true, fetched, ticker, year, quarter);
            var shown := DisplayOutcome(after.0, after.1, currentQuery, loadSucceeds, infer);
            && shown.Some?
            && shown.value.content == SelectContent(fetched.value)
            && shown.value.sentiment == Some(TranscriptSentiment(SelectContent(fetched.value), loadSucceeds, infer))
  {
  }

  /** Without a click, a result held under other inputs is never shown. */
  lemma StaleNeverShown(held: Option<TranscriptResult>, query: Option<string>, currentQuery: string,
                        fetched: Option<Payload>, ticker: string, year: int, quarter: int,
                        loadSucceeds: bool, infer: string -> Option<Scores>)
    requires query != Some(currentQuery)
    ensures var after := AfterRerun(held, query, currentQuery, false, fetched, ticker, year, quarter);
            after.0 == None && DisplayOutcome(after.0, after.1, currentQuery, loadSucceeds, infer) == None
  {
  }

  // ---------------------------------------------------------------------
  // The session state
  // ---------------------------------------------------------------------

  /** `st.session_state.transcript_result` and `st.session_state.transcript_query`. */
  class TranscriptSession {
    var result: Option<TranscriptResult>
    var query: Option<string>

    /** A held result always has a query and non-empty content. */
    predicate Valid()
      reads this
    {
      result.Some? ==> query.Some? && |result.value.content| > 0
    }

    /** First run: both fields start as `None`. */
    constructor ()
      ensures result == None && query == None
      ensures Valid()
    {
      result := None;
      query := None;
    }

    /** Inputs changed: the held result is dropped, the stored query kept. */
    method InvalidateIfChanged(currentQuery: string)
      requires Valid()
      modifies this
      ensures Valid()
      ensures query == old(query)
      ensures old(query) != Some(currentQuery) ==> result == None
      ensures old(query) == Some(currentQuery) ==> result == old(result)
    {
      if query != Some(currentQuery) {
        if result.Some? {
          result := None;
        }
      }
    }

    /** The ANALYZE branch: a failed fetch or empty content resets both
        fields; a success stores a fresh result with no sentiment and tags it
        with the current query. */
    method StoreFetch(currentQuery: string, fetched: Option<Payload>, ticker: string, year: int, quarter: int)
      requires Valid()
      modifies this
      ensures Valid()
      ensures fetched.None? || fetched.value == map[] || SelectContent(fetched.value) == "" ==>
        result == None && query == None
      ensures fetched.Some? && fetched.value != map[] && SelectContent(fetched.value) != "" ==>
        && result == Some(ResultOf(fetched.value, SelectContent(fetched.value), Upper(ticker), year, quarter))
        && query == Some(currentQuery)
    {
      if fetched.None? || fetched.value == map[] {
        result := None;
        query := None;
      } else {
        var data := fetched.value;
        var content := SelectContent(data);
        if content == "" {
          result := None;
          query := None;
        } else {
          result := Some(ResultOf(data, content, Upper(ticker), year, quarter));
          query := Some(currentQuery);
        }
      }
    }

    /** The display branch: only a result tagged with the current query is
        shown; its sentiment is computed once, with a fresh analyzer at the
        default threshold 0.5, and stored in place. */
    method Display(currentQuery: string, loadSucceeds: bool, infer: string -> Option<Scores>)
      returns (shown: Option<TranscriptResult>)
      requires Valid()
      modifies this
      ensures Valid()
      ensures query == old(query)
      ensures shown == DisplayOutcome(old(result), old(query), currentQuery, loadSucceeds, infer)
      ensures result == if shown.Some? then shown else old(result)
    {
      shown := ShownResult(result, query, currentQuery, loadSucceeds, infer);
      if shown.Some? {
        result := shown;
      }
    }

    /** One rerun of `show`. Without an API key the page stops right after
        the session fields are initialised. */
    method Show(apiKeyPresent: bool, ticker: string, year: int, quarter: int, analyzeClicked: bool,
                fetched: Option<Payload>, loadSucceeds: bool, infer: string -> Option<Scores>)
      returns (shown: Option<TranscriptResult>)
      requires Valid()
      modifies this
      ensures Valid()
      ensures !apiKeyPresent ==> shown == None && result == old(result) && query == old(query)
      ensures apiKeyPresent ==> result.Some? ==> query == Some(QueryKey(ticker, year, quarter))
      ensures shown.Some? ==> query == Some(QueryKey(ticker, year, quarter)) && shown == result
      ensures apiKeyPresent && !analyzeClicked ==> query == old(query)
      ensures apiKeyPresent && !analyzeClicked && old(query) != Some(QueryKey(ticker, year, quarter)) ==>
        result == None && shown == None
      ensures apiKeyPresent ==>
        var currentQuery := QueryKey(ticker, year, quarter);
        var after := AfterRerun(old(result), old(query), currentQuery, analyzeClicked, fetched, ticker, year, quarter);
        && query == after.1
        && shown == DisplayOutcome(after.0, after.1, currentQuery, loadSucceeds, infer)
        && result == (if shown.Some? then shown else after.0)
    {
      if !apiKeyPresent {
        return None;
      }
      var currentQuery := QueryKey(ticker, year, quarter);
      InvalidateIfChanged(currentQuery);
      if analyzeClicked {
        StoreFetch(currentQuery, fetched, ticker, year, quarter);
      }
      shown := Display(currentQuery, loadSucceeds, infer);
    }
  }
}
