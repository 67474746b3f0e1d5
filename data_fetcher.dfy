/** What the dashboard does with market data once the vendor has answered:
    the shape of a price history, the current-price and company records
    built from the vendor's info dictionary, the filter over several tickers,
    the top gainers and losers, the sector summary and the bulk download.
    The vendor itself is a parameter: a lookup per ticker that yields
    `None` where the call raised. */
module DataFetcher {
  import opened Common
  import opened Sorting

  // ---------------------------------------------------------------------
  // Vendor records
  // ---------------------------------------------------------------------

  /** The record `get_current_price` builds. */
  datatype PriceInfo = PriceInfo(ticker: string, currentPrice: real, previousClose: real,
                                 open: real, dayHigh: real, dayLow: real, volume: real,
                                 marketCap: real, change: real, changePercent: real)

  /** `get_current_price`: `None` when the vendor call failed; otherwise every
      field read with default 0, the current price falling back to the
      regular market price. */
  function CurrentPrice(ticker: string, info: Option<map<string, real>>): (r: Option<PriceInfo>)
    ensures r.Some? <==> info.Some?
    ensures r.Some? ==> r.value.ticker == ticker
    ensures r.Some? ==>
              r.value.currentPrice ==
                (if "currentPrice" in info.value then info.value["currentPrice"]
                 else if "regularMarketPrice" in info.value then info.value["regularMarketPrice"]
                 else 0.0)
    ensures r.Some? ==> r.value.changePercent == GetOr(info.value, "regularMarketChangePercent", 0.0)
  {
    if info.None? then None
    else
      var m := info.value;
      Some(PriceInfo(ticker,
        GetOr(m, "currentPrice", GetOr(m, "regularMarketPrice", 0.0)),
        GetOr(m, "previousClose", 0.0),
        GetOr(m, "open", 0.0),
        GetOr(m, "dayHigh", 0.0),
        GetOr(m, "dayLow", 0.0),
        GetOr(m, "volume", 0.0),
        GetOr(m, "marketCap", 0.0),
        GetOr(m, "regularMarketChange", 0.0),
        GetOr(m, "regularMarketChangePercent", 0.0)))
  }

  /** The descriptive part of the record `get_stock_info` builds. */
  datatype StockInfo = StockInfo(ticker: string, companyName: string, sector: string, industry: string)

  function GetText(info: map<string, string>, key: string, default: string): string
  {
    if key in info then info[key] else default
  }

  /** `get_stock_info`: `None` when the vendor call failed; the company name
      defaults to the ticker and sector and industry to "N/A". */
  function StockInfoOf(ticker: string, info: Option<map<string, string>>): (r: Option<StockInfo>)
    ensures r.Some? <==> info.Some?
    ensures r.Some? ==> r.value.ticker == ticker
    ensures r.Some? ==> (r.value.sector == "N/A" <==> "sector" !in info.value || info.value["sector"] == "N/A")
  {
    if info.None? then None
    else Some(StockInfo(ticker, GetText(info.value, "longName", ticker),
                        GetText(info.value, "sector", "N/A"), GetText(info.value, "industry", "N/A")))
  }

  // ---------------------------------------------------------------------
  // Historical data
  // ---------------------------------------------------------------------

  /** `col.lower().replace(' ', '_')`. */
  function NormalizeColumnName(c: string): (r: string)
    ensures |r| == |c|
  {
    seq(|c|, i requires 0 <= i < |c| => if c[i] == ' ' then '_' else ToLowerChar(c[i]))
  }

  /** A normalised name has no space and no upper-case letter, keeps every
      other character lower-cased, and normalising it again changes nothing. */
  lemma NormalizeColumnNameShape(c: string)
    ensures var r := NormalizeColumnName(c);
            && (forall i :: 0 <= i < |r| ==> r[i] != ' ' && !IsUpperAscii(r[i]))
            && (forall i :: 0 <= i < |c| && c[i] != ' ' ==> r[i] == Lower(c)[i])
            && NormalizeColumnName(r) == r
  {
    var r := NormalizeColumnName(c);
    forall i | 0 <= i < |r| ensures NormalizeColumnName(r)[i] == r[i] {
      if c[i] != ' ' {
        assert ToLowerChar(c[i]) != ' ';
      }
    }
  }

  /** The history as the vendor returns it: the date index's name, the
      column names and the number of rows. */
  datatype RawHistory = RawHistory(indexName: string, columns: seq<string>, rows: nat)

  /** The history the dashboard keeps: the index made a column and every
      column name normalised. */
  datatype History = History(columns: seq<string>, rows: nat)

  /** `get_historical_data`: `None` when the call failed or the frame is
      empty; otherwise `reset_index` and the renaming. */
  function HistoricalData(raw: Option<RawHistory>): (r: Option<History>)
    ensures r.Some? <==> raw.Some? && raw.value.rows > 0 && raw.value.columns != []
    ensures r.Some? ==>
              && r.value.rows == raw.value.rows
              && |r.value.columns| == |raw.value.columns| + 1
              && r.value.columns[0] == NormalizeColumnName(raw.value.indexName)
              && forall k :: 0 <= k < |raw.value.columns| ==> r.value.columns[k + 1] == NormalizeColumnName(raw.value.columns[k])
  {
    if raw.None? || raw.value.rows == 0 || raw.value.columns == [] then None
    else
      var names := [raw.value.indexName] + raw.value.columns;
      Some(History(seq(|names|, k requires 0 <= k < |names| => NormalizeColumnName(names[k])), raw.value.rows))
  }

  /** `download_historical_bulk`: the histories of the tickers that have
      one, by ticker. */
  method DownloadHistoricalBulk(tickers: seq<string>, fetch: string -> Option<RawHistory>)
    returns (results: map<string, History>)
    ensures results.Keys == set t | t in tickers && HistoricalData(fetch(t)).Some?
    ensures forall t :: t in results ==> results[t] == HistoricalData(fetch(t)).value
  {
    results := map[];
    for i := 0 to |tickers|
      invariant results.Keys == set t | t in tickers[..i] && HistoricalData(fetch(t)).Some?
      invariant forall t :: t in results ==> results[t] == HistoricalData(fetch(t)).value
    {
      assert tickers[..i + 1] == tickers[..i] + [tickers[i]];
      var df := HistoricalData(fetch(tickers[i]));
      if df.Some? {
        results := results[tickers[i] := df.value];
      }
    }
    assert tickers[..|tickers|] == tickers;
  }

  // ---------------------------------------------------------------------
  // Several tickers
  // ---------------------------------------------------------------------

  /** The current-price records of the tickers whose lookup succeeded, in
      the order of the list. */
  function Fetched(tickers: seq<string>, quote: string -> Option<map<string, real>>): (rows: seq<PriceInfo>)
    ensures |rows| <= |tickers|
    ensures forall k :: 0 <= k < |rows| ==>
              && rows[k].ticker in tickers && quote(rows[k].ticker).Some?
              && Some(rows[k]) == CurrentPrice(rows[k].ticker, quote(rows[k].ticker))
  {
    if tickers == [] then []
    else
      var init := tickers[..|tickers| - 1];
      var t := tickers[|tickers| - 1];
      var p := CurrentPrice(t, quote(t));
      assert forall x :: x in init ==> x in tickers;
      Fetched(init, quote) + (if p.Some? then [p.value] else [])
  }

  /** Every ticker whose lookup succeeds has its row. */
  lemma {:induction false} FetchedComplete(tickers: seq<string>, quote: string -> Option<map<string, real>>, t: string)
    requires t in tickers && quote(t).Some?
    ensures exists k :: 0 <= k < |Fetched(tickers, quote)| && Fetched(tickers, quote)[k].ticker == t
  {
    var init := tickers[..|tickers| - 1];
    var rows := Fetched(tickers, quote);
    if tickers[|tickers| - 1] == t {
      assert rows[|rows| - 1].ticker == t;
    } else {
      assert t in init;
      FetchedComplete(init, quote, t);
      var k :| 0 <= k < |Fetched(init, quote)| && Fetched(init, quote)[k].ticker == t;
      assert rows[k] == Fetched(init, quote)[k];
    }
  }

  /** Fetching two lists one after the other is fetching their
      concatenation: the filter keeps the order of the list. */
  lemma {:induction false} FetchedAppend(a: seq<string>, b: seq<string>, quote: string -> Option<map<string, real>>)
    ensures Fetched(a + b, quote) == Fetched(a, quote) + Fetched(b, quote)
    decreases |b|
  {
    if b == [] {
      assert a + b == a;
    } else {
      var b' := b[..|b| - 1];
      assert (a + b)[..|a + b| - 1] == a + b';
      assert (a + b)[|a + b| - 1] == b[|b| - 1];
      FetchedAppend(a, b', quote);
    }
  }

  /** `get_multiple_tickers` (and `get_market_indices`, which calls it). */
  method GetMultipleTickers(tickers: seq<string>, quote: string -> Option<map<string, real>>)
    returns (data: seq<PriceInfo>)
    ensures data == Fetched(tickers, quote)
  {
    data := [];
    for i := 0 to |tickers|
      invariant data == Fetched(tickers[..i], quote)
    {
      assert tickers[..i + 1][..i] == tickers[..i];
      var priceInfo := CurrentPrice(tickers[i], quote(tickers[i]));
      if priceInfo.Some? {
        data := data + [priceInfo.value];
      }
    }
    assert tickers[..|tickers|] == tickers;
  }

  // ---------------------------------------------------------------------
  // Gainers and losers
  // ---------------------------------------------------------------------

  function ChangeOf(p: PriceInfo): real { p.changePercent }

  function NegChangeOf(p: PriceInfo): real { -p.changePercent }

  datatype Movers = Movers(gainers: seq<PriceInfo>, losers: seq<PriceInfo>)

  function Min5(n: nat): nat { if n < 5 then n else 5 }

  /** `get_top_gainers_losers` on the fetched rows: the first five rows by
      change descending, and the last five of that order re-sorted
      ascending. */
  function TopGainersLosers(rows: seq<PriceInfo>): (m: Movers)
    ensures rows == [] ==> m.gainers == [] && m.losers == []
    ensures |m.gainers| == Min5(|rows|) && |m.losers| == Min5(|rows|)
    ensures SortedDesc(m.gainers, ChangeOf) && SortedDesc(m.losers, NegChangeOf)
  {
    if rows == [] then Movers([], [])
    else
      var sorted := SortDesc(rows, ChangeOf);
      var k := Min5(|rows|);
      Movers(sorted[..k], SortDesc(sorted[|rows| - k..], NegChangeOf))
  }

  /** The gainers and the rows left after them make up the input, and no
      gainer gained less than a row left out. */
  lemma TopGainers(rows: seq<PriceInfo>)
    ensures var g := TopGainersLosers(rows).gainers;
            var rest := SortDesc(rows, ChangeOf)[|g|..];
            && multiset(g) + multiset(rest) == multiset(rows)
            && forall x, y :: x in g && y in rest ==> x.changePercent >= y.changePercent
  {
    var sorted := SortDesc(rows, ChangeOf);
    var k := Min5(|rows|);
    SortedSplit(sorted, ChangeOf, k);
    assert TopGainersLosers(rows).gainers == sorted[..k];
  }

  /** The losers and the rows before them make up the input, and no loser
      changed more than a row left out. */
  lemma TopLosers(rows: seq<PriceInfo>)
    ensures var l := TopGainersLosers(rows).losers;
            var rest := SortDesc(rows, ChangeOf)[..|rows| - |l|];
            && multiset(l) + multiset(rest) == multiset(rows)
            && forall x, y :: x in l && y in rest ==> x.changePercent <= y.changePercent
  {
    var sorted := SortDesc(rows, ChangeOf);
    var n := |rows| - Min5(|rows|);
    SortedSplit(sorted, ChangeOf, n);
    if rows != [] {
      SameMembers(TopGainersLosers(rows).losers, sorted[n..]);
    }
  }

  lemma SameMembers<T>(a: seq<T>, b: seq<T>)
    requires multiset(a) == multiset(b)
    ensures forall x :: x in a <==> x in b
  {
    forall x ensures x in a <==> x in b {
      assert x in a <==> x in multiset(a);
      assert x in b <==> x in multiset(b);
    }
  }

  // ---------------------------------------------------------------------
  // Sector performance
  // ---------------------------------------------------------------------

  /** One ticker's contribution: its sector and its change. */
  datatype Entry = Entry(ticker: string, sector: string, changePercent: real)

  /** One row of the sector summary. */
  datatype SectorRow = SectorRow(sector: string, avgChange: real, count: nat)

  /** The entries of the tickers with both a company and a price record. */
  function Entries(tickers: seq<string>, profile: string -> Option<map<string, string>>,
                   quote: string -> Option<map<string, real>>): (e: seq<Entry>)
    ensures |e| <= |tickers|
  {
    if tickers == [] then []
    else
      var t := tickers[|tickers| - 1];
      var info, price := StockInfoOf(t, profile(t)), CurrentPrice(t, quote(t));
      Entries(tickers[..|tickers| - 1], profile, quote)
        + (if info.Some? && price.Some? then [Entry(t, info.value.sector, price.value.changePercent)] else [])
  }

  /** The tickers that contribute to the sector summary: both records are there. */
  predicate HasEntry(t: string, profile: string -> Option<map<string, string>>,
                     quote: string -> Option<map<string, real>>)
  {
    StockInfoOf(t, profile(t)).Some? && CurrentPrice(t, quote(t)).Some?
  }

  /** Every entry belongs to a listed ticker with both records, and carries
      that ticker's sector and change. */
  lemma {:induction false} EntriesSound(tickers: seq<string>, profile: string -> Option<map<string, string>>,
                                        quote: string -> Option<map<string, real>>)
    ensures forall e :: e in Entries(tickers, profile, quote) ==>
              && e.ticker in tickers && HasEntry(e.ticker, profile, quote)
              && e.sector == StockInfoOf(e.ticker, profile(e.ticker)).value.sector
              && e.changePercent == CurrentPrice(e.ticker, quote(e.ticker)).value.changePercent
    decreases |tickers|
  {
    if tickers != [] {
      var init := tickers[..|tickers| - 1];
      EntriesSound(init, profile, quote);
      assert forall x :: x in init ==> x in tickers;
    }
  }

  /** Every listed ticker with both records has an entry. */
  lemma {:induction false} EntriesComplete(tickers: seq<string>, profile: string -> Option<map<string, string>>,
                                           quote: string -> Option<map<string, real>>, t: string)
    requires t in tickers && HasEntry(t, profile, quote)
    ensures exists e :: e in Entries(tickers, profile, quote) && e.ticker == t
    decreases |tickers|
  {
    var init := tickers[..|tickers| - 1];
    var e := Entries(tickers, profile, quote);
    if tickers[|tickers| - 1] == t {
      assert e[|e| - 1].ticker == t;
    } else {
      assert t in init;
      EntriesComplete(init, profile, quote, t);
      var x :| x in Entries(init, profile, quote) && x.ticker == t;
      assert x in e;
    }
  }

  /** A one-ticker list gives its entry exactly when both records are there. */
  lemma EntriesOne(t: string, profile: string -> Option<map<string, string>>,
                   quote: string -> Option<map<string, real>>)
    ensures Entries([t], profile, quote)
         == if HasEntry(t, profile, quote)
            then [Entry(t, StockInfoOf(t, profile(t)).value.sector, CurrentPrice(t, quote(t)).value.changePercent)]
            else []
  {
    assert [t][..0] == [];
  }

  /** The entries of two lists one after the other are the entries of their
      concatenation: the order of the list is kept. */
  lemma {:induction false} EntriesAppend(a: seq<string>, b: seq<string>, profile: string -> Option<map<string, string>>,
                                         quote: string -> Option<map<string, real>>)
    ensures Entries(a + b, profile, quote) == Entries(a, profile, quote) + Entries(b, profile, quote)
    decreases |b|
  {
    if b == [] {
      assert a + b == a;
    } else {
      var b' := b[..|b| - 1];
      assert (a + b)[..|a + b| - 1] == a + b';
      assert (a + b)[|a + b| - 1] == b[|b| - 1];
      EntriesAppend(a, b', profile, quote);
    }
  }

  /** The changes of the entries in one sector, in order. */
  function ChangesIn(e: seq<Entry>, sector: string): (c: seq<real>)
    ensures |c| <= |e|
  {
    if e == [] then []
    else
      var x := e[|e| - 1];
      ChangesIn(e[..|e| - 1], sector) + (if x.sector == sector then [x.changePercent] else [])
  }

  /** The sectors of the entries, each once, in order of first appearance. */
  function Sectors(e: seq<Entry>): (s: seq<string>)
    ensures forall x :: x in s <==> exists k :: 0 <= k < |e| && e[k].sector == x
    ensures forall i, j :: 0 <= i < j < |s| ==> s[i] != s[j]
  {
    if e == [] then []
    else
      var init := e[..|e| - 1];
      var s := Sectors(init);
      assert forall k :: 0 <= k < |init| ==> init[k] == e[k];
      if e[|e| - 1].sector in s then s else s + [e[|e| - 1].sector]
  }

  /** A single entry contributes its change exactly when it is in the sector. */
  lemma ChangesInOne(x: Entry, sector: string)
    ensures ChangesIn([x], sector) == if x.sector == sector then [x.changePercent] else []
  {
    assert [x][..0] == [];
  }

  /** The changes of a sector keep the order of the entries: those of a
      concatenation are those of each part, one after the other. */
  lemma {:induction false} ChangesInAppend(a: seq<Entry>, b: seq<Entry>, sector: string)
    ensures ChangesIn(a + b, sector) == ChangesIn(a, sector) + ChangesIn(b, sector)
    decreases |b|
  {
    if b == [] {
      assert a + b == a;
    } else {
      var b' := b[..|b| - 1];
      assert (a + b)[..|a + b| - 1] == a + b';
      assert (a + b)[|a + b| - 1] == b[|b| - 1];
      ChangesInAppend(a, b', sector);
    }
  }

  /** Every change listed for a sector is the change of an entry in that
      sector. */
  lemma {:induction false} ChangesInSound(e: seq<Entry>, sector: string)
    ensures forall c :: c in ChangesIn(e, sector) ==>
              exists i :: 0 <= i < |e| && e[i].sector == sector && e[i].changePercent == c
  {
    if e != [] {
      var init := e[..|e| - 1];
      ChangesInSound(init, sector);
      forall c | c in ChangesIn(init, sector)
        ensures exists i :: 0 <= i < |e| && e[i].sector == sector && e[i].changePercent == c
      {
        var i :| 0 <= i < |init| && init[i].sector == sector && init[i].changePercent == c;
        assert e[i] == init[i];
      }
    }
  }

  /** The entries of a sector, by position. */
  function SectorRows(e: seq<Entry>, sector: string): set<nat>
  {
    set i: nat | i < |e| && e[i].sector == sector
  }

  /** A sector lists one change per entry in it: `count` counts its rows. */
  lemma {:induction false} ChangesInCount(e: seq<Entry>, sector: string)
    ensures |ChangesIn(e, sector)| == |SectorRows(e, sector)|
  {
    if e != [] {
      var n := |e| - 1;
      ChangesInCount(e[..n], sector);
      SectorRowsLast(e, sector);
    }
  }

  lemma SectorRowsLast(e: seq<Entry>, sector: string)
    requires e != []
    ensures |SectorRows(e, sector)|
         == |SectorRows(e[..|e| - 1], sector)| + if e[|e| - 1].sector == sector then 1 else 0
  {
    var n := |e| - 1;
    var before := SectorRows(e[..n], sector);
    var extra: set<nat> := if e[n].sector == sector then {n} else {};
    forall i: nat | i in SectorRows(e, sector) ensures i in before + extra {
      if i < n { assert e[i] == e[..n][i]; }
    }
    forall i: nat | i in before + extra ensures i in SectorRows(e, sector) {
      if i < n { assert e[i] == e[..n][i]; }
    }
    assert SectorRows(e, sector) == before + extra;
    assert before !! extra;
  }

  /** A sector with an entry has at least one change. */
  lemma {:induction false} ChangesInNonEmpty(e: seq<Entry>, k: nat)
    requires k < |e|
    ensures ChangesIn(e, e[k].sector) != []
  {
    if k < |e| - 1 {
      ChangesInNonEmpty(e[..|e| - 1], k);
    }
  }

  /** `groupby('sector')['change_percent'].agg([mean, count])`. */
  function Grouped(e: seq<Entry>): (rows: seq<SectorRow>)
    ensures |rows| == |Sectors(e)|
    ensures forall k :: 0 <= k < |rows| ==>
              && rows[k].sector == Sectors(e)[k]
              && ChangesIn(e, rows[k].sector) != []
              && rows[k].count == |ChangesIn(e, rows[k].sector)|
              && rows[k].avgChange == Mean(ChangesIn(e, rows[k].sector))
  {
    var s := Sectors(e);
    forall k | 0 <= k < |s| ensures ChangesIn(e, s[k]) != [] {
      assert s[k] in s;
      var j :| 0 <= j < |e| && e[j].sector == s[k];
      ChangesInNonEmpty(e, j);
    }
    seq(|s|, k requires 0 <= k < |s| => SectorRow(s[k], Mean(ChangesIn(e, s[k])), |ChangesIn(e, s[k])|))
  }

  function AvgOf(r: SectorRow): real { r.avgChange }

  /** The summary: the grouped rows by average change, descending; no
      entries give an empty frame. */
  function SectorSummary(e: seq<Entry>): (rows: seq<SectorRow>)
    ensures e == [] ==> rows == []
    ensures multiset(rows) == multiset(Grouped(e))
    ensures SortedDesc(rows, AvgOf)
  {
    if e == [] then [] else SortDesc(Grouped(e), AvgOf)
  }

  /** One row per sector: every entry's sector has exactly one row, that row
      counts the sector's entries and averages their changes. */
  lemma SectorSummaryExact(e: seq<Entry>, k: nat)
    requires k < |e|
    ensures var rows := SectorSummary(e);
            && (exists i :: 0 <= i < |rows| && rows[i].sector == e[k].sector)
            && forall i, j :: 0 <= i < |rows| && 0 <= j < |rows| && rows[i].sector == e[k].sector && rows[j].sector == e[k].sector ==> i == j
  {
    var rows := SectorSummary(e);
    var g := Grouped(e);
    var s := Sectors(e);
    assert e[k].sector in s;
    var m :| 0 <= m < |s| && s[m] == e[k].sector;
    assert g[m] in multiset(rows);
    forall i, j | 0 <= i < |rows| && 0 <= j < |rows| && rows[i].sector == e[k].sector && rows[j].sector == e[k].sector
      ensures i == j
    {
      SameSectorSameRow(e, rows, i, j);
    }
  }

  lemma SameSectorSameRow(e: seq<Entry>, rows: seq<SectorRow>, i: nat, j: nat)
    requires rows == SectorSummary(e)
    requires i < |rows| && j < |rows| && rows[i].sector == rows[j].sector
    ensures i == j
  {
    var g := Grouped(e);
    GroupedDistinct(e);
    assert rows[i] in multiset(rows) && rows[j] in multiset(rows);
    DistinctOnce(g, rows[i], rows[j]);
    if i != j {
      CountTwo(rows, i, j);
    }
  }

  /** Grouped rows have distinct sectors. */
  lemma GroupedDistinct(e: seq<Entry>)
    ensures var g := Grouped(e);
            forall i, j :: 0 <= i < j < |g| ==> g[i].sector != g[j].sector
  {
    var g := Grouped(e);
    var s := Sectors(e);
    forall i, j | 0 <= i < j < |g| ensures g[i].sector != g[j].sector {
      assert g[i].sector == s[i] && g[j].sector == s[j];
    }
  }

  /** In rows with distinct sectors, a sector names one row, once. */
  lemma DistinctOnce(g: seq<SectorRow>, x: SectorRow, y: SectorRow)
    requires forall i, j :: 0 <= i < j < |g| ==> g[i].sector != g[j].sector
    requires x in multiset(g) && y in multiset(g) && x.sector == y.sector
    ensures x == y && multiset(g)[x] == 1
  {
    var a :| 0 <= a < |g| && g[a] == x;
    var b :| 0 <= b < |g| && g[b] == y;
    assert a == b;
    OccursOnce(g, a);
  }

  lemma CountTwo<T>(s: seq<T>, i: nat, j: nat)
    requires i < |s| && j < |s| && i != j && s[i] == s[j]
    ensures multiset(s)[s[i]] >= 2
  {
    var lo, hi := if i < j then i else j, if i < j then j else i;
    assert s == s[..lo] + [s[lo]] + s[lo + 1..hi] + [s[hi]] + s[hi + 1..];
  }

  /** A grouped row occurs once: sectors are distinct. */
  lemma OccursOnce(g: seq<SectorRow>, a: nat)
    requires a < |g|
    requires forall i, j :: 0 <= i < j < |g| ==> g[i].sector != g[j].sector
    ensures multiset(g)[g[a]] == 1
  {
    assert g == g[..a] + [g[a]] + g[a + 1..];
    forall i | 0 <= i < |g| && i != a ensures g[i] != g[a] {
      assert g[i].sector != g[a].sector;
    }
    assert g[a] !in g[..a];
    assert g[a] !in g[a + 1..];
    assert multiset(g[..a])[g[a]] == 0;
    assert multiset(g[a + 1..])[g[a]] == 0;
  }

  /** `get_sector_performance`: the loop over the tickers collects the
      entries, which are then grouped and ordered. */
  method GetSectorPerformance(tickers: seq<string>, profile: string -> Option<map<string, string>>,
                              quote: string -> Option<map<string, real>>)
    returns (summary: seq<SectorRow>)
    ensures summary == SectorSummary(Entries(tickers, profile, quote))
  {
    var sectorData: seq<Entry> := [];
    for i := 0 to |tickers|
      invariant sectorData == Entries(tickers[..i], profile, quote)
    {
      assert tickers[..i + 1][..i] == tickers[..i];
      var t := tickers[i];
      var info := StockInfoOf(t, profile(t));
      var price := CurrentPrice(t, quote(t));
      if info.Some? && price.Some? {
        sectorData := sectorData + [Entry(t, info.value.sector, price.value.changePercent)];
      }
    }
    assert tickers[..|tickers|] == tickers;
    if sectorData == [] {
      return [];
    }
    summary := SortDesc(Grouped(sectorData), AvgOf);
  }
}
