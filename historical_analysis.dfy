/** Performance metrics of a price series: period return over an inclusive
    date window, maximum drawdown through the running maximum, and the
    52-week price range. Dates are timestamps (`int`); "now" is a parameter. */
module HistoricalAnalysis {
  import opened Common

  /** A price frame: the `close` column and, when the frame has one, the
      `date` column. */
  datatype PriceFrame = PriceFrame(dates: Option<seq<int>>, prices: seq<real>)

  predicate WellShaped(f: PriceFrame)
  {
    f.dates.Some? ==> |f.dates.value| == |f.prices|
  }

  predicate InWindow(d: int, start: Option<int>, end: Option<int>)
  {
    (start.Some? ==> d >= start.value) && (end.Some? ==> d <= end.value)
  }

  /** Prices of the rows whose date lies in the inclusive window, in order. */
  function WindowPrices(dates: seq<int>, prices: seq<real>, start: Option<int>, end: Option<int>): (r: seq<real>)
    requires |dates| == |prices|
    ensures |r| <= |prices|
  {
    if prices == [] then []
    else
      var n := |prices| - 1;
      WindowPrices(dates[..n], prices[..n], start, end) + (if InWindow(dates[n], start, end) then [prices[n]] else [])
  }

  /** `x` is the price of a row whose date lies in the window. */
  predicate PriceInWindow(x: real, dates: seq<int>, prices: seq<real>, start: Option<int>, end: Option<int>)
    requires |dates| == |prices|
  {
    exists i :: 0 <= i < |prices| && prices[i] == x && InWindow(dates[i], start, end)
  }

  /** Every kept price comes from a row whose date is in the window. */
  lemma {:induction false} WindowPricesFrom(dates: seq<int>, prices: seq<real>, start: Option<int>, end: Option<int>)
    requires |dates| == |prices|
    ensures forall k :: 0 <= k < |WindowPrices(dates, prices, start, end)| ==>
              PriceInWindow(WindowPrices(dates, prices, start, end)[k], dates, prices, start, end)
  {
    if prices != [] {
      var n := |prices| - 1;
      var d, p := dates[..n], prices[..n];
      WindowPricesFrom(d, p, start, end);
      var init := WindowPrices(d, p, start, end);
      var w := WindowPrices(dates, prices, start, end);
      forall k | 0 <= k < |w| ensures PriceInWindow(w[k], dates, prices, start, end) {
        if k < |init| {
          assert init[k] == w[k];
          assert PriceInWindow(init[k], d, p, start, end);
          var i :| 0 <= i < |p| && p[i] == init[k] && InWindow(d[i], start, end);
          assert prices[i] == w[k] && dates[i] == d[i];
        } else {
          assert prices[n] == w[k] && InWindow(dates[n], start, end);
        }
      }
    }
  }

  /** A window holding every date keeps the whole series. */
  lemma {:induction false} WindowPricesAll(dates: seq<int>, prices: seq<real>, start: Option<int>, end: Option<int>)
    requires |dates| == |prices|
    requires forall i :: 0 <= i < |dates| ==> InWindow(dates[i], start, end)
    ensures WindowPrices(dates, prices, start, end) == prices
  {
    if prices != [] {
      var n := |prices| - 1;
      var d, p := dates[..n], prices[..n];
      forall i | 0 <= i < n ensures InWindow(d[i], start, end) {
        assert d[i] == dates[i];
      }
      WindowPricesAll(d, p, start, end);
      assert InWindow(dates[n], start, end);
      assert WindowPrices(dates, prices, start, end) == p + [prices[n]];
      assert prices == p + [prices[n]];
    }
  }

  /** A window that holds no date keeps nothing. */
  lemma {:induction false} WindowPricesNone(dates: seq<int>, prices: seq<real>, start: Option<int>, end: Option<int>)
    requires |dates| == |prices|
    requires forall i :: 0 <= i < |dates| ==> !InWindow(dates[i], start, end)
    ensures WindowPrices(dates, prices, start, end) == []
  {
    if prices != [] {
      var n := |prices| - 1;
      var d, p := dates[..n], prices[..n];
      assert forall i :: 0 <= i < n ==> d[i] == dates[i];
      WindowPricesNone(d, p, start, end);
    }
  }

  /** A single row is kept exactly when its date lies in the window. */
  lemma WindowPricesOne(d: int, p: real, start: Option<int>, end: Option<int>)
    ensures WindowPrices([d], [p], start, end) == if InWindow(d, start, end) then [p] else []
  {
    var ds, ps := [d], [p];
    assert ds[..0] == [] && ps[..0] == [];
    assert WindowPrices([], [], start, end) == [];
  }

  lemma ConcatAssoc(x: seq<real>, y: seq<real>, z: seq<real>)
    ensures (x + y) + z == x + (y + z)
  {
  }

  /** The filter works row by row and keeps the order: filtering two stacked
      frames concatenates their filtered prices. */
  lemma {:induction false} WindowPricesAppend(d1: seq<int>, p1: seq<real>, d2: seq<int>, p2: seq<real>,
                                              start: Option<int>, end: Option<int>)
    requires |d1| == |p1| && |d2| == |p2|
    ensures WindowPrices(d1 + d2, p1 + p2, start, end)
         == WindowPrices(d1, p1, start, end) + WindowPrices(d2, p2, start, end)
    decreases |p2|
  {
    if p2 == [] {
      assert d1 + d2 == d1 && p1 + p2 == p1;
      assert WindowPrices(d2, p2, start, end) == [];
      assert WindowPrices(d1, p1, start, end) + [] == WindowPrices(d1, p1, start, end);
    } else {
      var n := |p2| - 1;
      var ds, ps := d1 + d2, p1 + p2;
      var m := |ps| - 1;
      assert ds[..m] == d1 + d2[..n] && ps[..m] == p1 + p2[..n];
      assert ds[m] == d2[n] && ps[m] == p2[n];
      WindowPricesAppend(d1, p1, d2[..n], p2[..n], start, end);
      var tail := if InWindow(d2[n], start, end) then [p2[n]] else [];
      assert WindowPrices(ds, ps, start, end) == WindowPrices(d1 + d2[..n], p1 + p2[..n], start, end) + tail;
      assert WindowPrices(d2, p2, start, end) == WindowPrices(d2[..n], p2[..n], start, end) + tail;
      ConcatAssoc(WindowPrices(d1, p1, start, end), WindowPrices(d2[..n], p2[..n], start, end), tail);
    }
  }

  /** Cutting the frame at row `i`: the prices before it, its own price when
      its date is in the window, and the prices after it. */
  lemma WindowPricesSplit(dates: seq<int>, prices: seq<real>, start: Option<int>, end: Option<int>, i: nat)
    requires |dates| == |prices| && i < |prices|
    ensures WindowPrices(dates, prices, start, end)
         == WindowPrices(dates[..i], prices[..i], start, end)
          + (if InWindow(dates[i], start, end) then [prices[i]] else [])
          + WindowPrices(dates[i + 1..], prices[i + 1..], start, end)
  {
    assert dates == dates[..i] + ([dates[i]] + dates[i + 1..]);
    assert prices == prices[..i] + ([prices[i]] + prices[i + 1..]);
    WindowPricesAppend([dates[i]], [prices[i]], dates[i + 1..], prices[i + 1..], start, end);
    WindowPricesAppend(dates[..i], prices[..i], [dates[i]] + dates[i + 1..], [prices[i]] + prices[i + 1..], start, end);
    WindowPricesOne(dates[i], prices[i], start, end);
    ConcatAssoc(WindowPrices(dates[..i], prices[..i], start, end),
                (if InWindow(dates[i], start, end) then [prices[i]] else []),
                WindowPrices(dates[i + 1..], prices[i + 1..], start, end));
  }

  /** The window is empty exactly when no row's date lies in it. */
  lemma WindowPricesEmpty(dates: seq<int>, prices: seq<real>, start: Option<int>, end: Option<int>)
    requires |dates| == |prices|
    ensures WindowPrices(dates, prices, start, end) == [] <==>
            forall i :: 0 <= i < |dates| ==> !InWindow(dates[i], start, end)
  {
    if exists i :: 0 <= i < |dates| && InWindow(dates[i], start, end) {
      var i :| 0 <= i < |dates| && InWindow(dates[i], start, end);
      WindowPricesSplit(dates, prices, start, end, i);
    } else {
      WindowPricesNone(dates, prices, start, end);
    }
  }

  /** The first kept price is that of the earliest row in the window. */
  lemma WindowFirst(dates: seq<int>, prices: seq<real>, start: Option<int>, end: Option<int>, i: nat)
    requires |dates| == |prices| && i < |prices|
    requires InWindow(dates[i], start, end)
    requires forall j :: 0 <= j < i ==> !InWindow(dates[j], start, end)
    ensures var w := WindowPrices(dates, prices, start, end);
            w != [] && w[0] == prices[i]
  {
    WindowPricesSplit(dates, prices, start, end, i);
    WindowPricesEmpty(dates[..i], prices[..i], start, end);
  }

  /** The last kept price is that of the latest row in the window. */
  lemma WindowLast(dates: seq<int>, prices: seq<real>, start: Option<int>, end: Option<int>, i: nat)
    requires |dates| == |prices| && i < |prices|
    requires InWindow(dates[i], start, end)
    requires forall j :: i < j < |dates| ==> !InWindow(dates[j], start, end)
    ensures var w := WindowPrices(dates, prices, start, end);
            w != [] && w[|w| - 1] == prices[i]
  {
    WindowPricesSplit(dates, prices, start, end, i);
    var post := dates[i + 1..];
    forall j | 0 <= j < |post| ensures !InWindow(post[j], start, end) {
      assert post[j] == dates[i + 1 + j];
    }
    WindowPricesEmpty(post, prices[i + 1..], start, end);
  }

  /** Filtering keeps only prices of the series. */
  lemma FilteredFrom(f: PriceFrame, start: Option<int>, end: Option<int>)
    requires WellShaped(f)
    ensures var w := Filtered(f, start, end);
            forall k :: 0 <= k < |w| ==> w[k] in f.prices
  {
    if f.dates.Some? {
      var w := Filtered(f, start, end);
      WindowPricesFrom(f.dates.value, f.prices, start, end);
      forall k | 0 <= k < |w| ensures w[k] in f.prices {
        assert PriceInWindow(w[k], f.dates.value, f.prices, start, end);
      }
    }
  }

  /** The price column after the date filter; without a `date` column no
      filter applies. */
  function Filtered(f: PriceFrame, start: Option<int>, end: Option<int>): seq<real>
    requires WellShaped(f)
  {
    match f.dates
    case None => f.prices
    case Some(ds) => WindowPrices(ds, f.prices, start, end)
  }

  /** `calculate_period_return`: 0 for an empty frame or a window of fewer
      than two rows; otherwise the percentage change from the first to the
      last price in the window. */
  function PeriodReturn(f: PriceFrame, start: Option<int>, end: Option<int>): (r: real)
    requires WellShaped(f)
    requires forall i :: 0 <= i < |f.prices| ==> f.prices[i] != 0.0
    ensures |Filtered(f, start, end)| < 2 ==> r == 0.0
    ensures var w := Filtered(f, start, end);
            |w| >= 2 ==> w[0] != 0.0 && r == (w[|w| - 1] - w[0]) / w[0] * 100.0
  {
    if f.prices == [] then 0.0
    else
      var w := Filtered(f, start, end);
      if |w| < 2 then 0.0
      else
        FilteredFrom(f, start, end);
        (w[|w| - 1] - w[0]) / w[0] * 100.0
  }

  /** With a `date` column, the return runs from the price of the earliest row
      in the window to the price of the latest one. */
  lemma PeriodReturnBetween(f: PriceFrame, start: Option<int>, end: Option<int>, i: nat, j: nat)
    requires WellShaped(f) && f.dates.Some?
    requires forall k :: 0 <= k < |f.prices| ==> f.prices[k] != 0.0
    requires i < j < |f.prices|
    requires InWindow(f.dates.value[i], start, end) && InWindow(f.dates.value[j], start, end)
    requires forall k :: 0 <= k < i ==> !InWindow(f.dates.value[k], start, end)
    requires forall k :: j < k < |f.prices| ==> !InWindow(f.dates.value[k], start, end)
    ensures PeriodReturn(f, start, end) == (f.prices[j] - f.prices[i]) / f.prices[i] * 100.0
  {
    var ds, ps := f.dates.value, f.prices;
    var w := WindowPrices(ds, ps, start, end);
    assert Filtered(f, start, end) == w;
    WindowFirst(ds, ps, start, end, i);
    WindowLast(ds, ps, start, end, j);
    assert |w| >= 2 by {
      WindowPricesSplit(ds, ps, start, end, j);
      assert ds[..j][i] == ds[i];
      WindowPricesEmpty(ds[..j], ps[..j], start, end);
    }
  }

  /** Without a `date` column the window is ignored: every window gives the
      return over the whole series. */
  lemma PeriodReturnWithoutDates(f: PriceFrame, start: Option<int>, end: Option<int>)
    requires WellShaped(f)
    requires forall i :: 0 <= i < |f.prices| ==> f.prices[i] != 0.0
    ensures f.dates.None? ==> PeriodReturn(f, start, end) == PeriodReturn(f, None, None)
  {
    if f.dates.None? {
      assert Filtered(f, start, end) == Filtered(f, None, None);
    }
  }

  /** Applying the return to the first price of the window gives the last:
      `last == first * (1 + r / 100)`, and a positive first price rose
      exactly when the return is positive. */
  lemma PeriodReturnCompounds(f: PriceFrame, start: Option<int>, end: Option<int>)
    requires WellShaped(f)
    requires forall i :: 0 <= i < |f.prices| ==> f.prices[i] > 0.0
    ensures var w := Filtered(f, start, end);
            var r := PeriodReturn(f, start, end);
            |w| >= 2 ==> w[|w| - 1] == w[0] * (1.0 + r / 100.0) && (r > 0.0 <==> w[|w| - 1] > w[0])
  {
    var w := Filtered(f, start, end);
    if |w| >= 2 {
      assert w[0] > 0.0 by {
        FilteredFrom(f, start, end);
      }
      var a, b := w[0], w[|w| - 1];
      assert (b - a) / a * 100.0 / 100.0 == (b - a) / a;
      assert a * (1.0 + (b - a) / a) == b;
      assert (b - a) / a > 0.0 <==> b - a > 0.0 by {
        QuotientSign(b - a, a);
      }
    }
  }

  lemma QuotientSign(x: real, y: real)
    requires y > 0.0
    ensures x / y > 0.0 <==> x > 0.0
  {
    if x > 0.0 {
      assert x / y * y == x;
    }
    if x / y > 0.0 {
      assert x == x / y * y;
    }
  }

  // ---------------------------------------------------------------------
  // Maximum drawdown
  // ---------------------------------------------------------------------

  /** `np.maximum.accumulate`: the largest price so far. */
  function RunningMax(p: seq<real>): (rm: seq<real>)
    ensures |rm| == |p|
    ensures forall i :: 0 <= i < |p| ==> p[i] <= rm[i]
  {
    seq(|p|, i requires 0 <= i < |p| => Max(p[..i + 1]))
  }

  /** The running maximum starts at the first price and moves up to a price
      exactly when that price exceeds it. */
  lemma RunningMaxStep(p: seq<real>, k: nat)
    requires 0 < k < |p|
    ensures RunningMax(p)[0] == p[0]
    ensures RunningMax(p)[k] == if p[k] > RunningMax(p)[k - 1] then p[k] else RunningMax(p)[k - 1]
  {
    var q := p[..k + 1];
    assert q[..|q| - 1] == p[..k];
    assert q[|q| - 1] == p[k];
  }

  lemma {:induction false} RunningMaxMonotone(p: seq<real>, i: nat, j: nat)
    requires i <= j < |p|
    ensures RunningMax(p)[i] <= RunningMax(p)[j]
    decreases j - i
  {
    if i < j {
      RunningMaxMonotone(p, i, j - 1);
      RunningMaxStep(p, j);
    }
  }

  /** The percentage by which `price` lies below `peak`. */
  function Fall(price: real, peak: real): real
    requires peak > 0.0
  {
    (price - peak) / peak * 100.0
  }

  /** A price at or below its peak has fallen by at most 0; by exactly 0 when
      it is the peak. */
  lemma FallNonPositive(price: real, peak: real)
    requires 0.0 < price <= peak
    ensures Fall(price, peak) <= 0.0
    ensures price == peak ==> Fall(price, peak) == 0.0
  {
    assert price - peak <= 0.0;
  }

  lemma CancelPositive(s: real, t: real, a: real)
    requires a > 0.0 && s * a <= t * a
    ensures s <= t
  {
  }

  /** Measured against a higher peak, the same price has fallen further. */
  lemma FallDeeperFromHigherPeak(price: real, a: real, b: real)
    requires price > 0.0 && 0.0 < a <= b
    ensures Fall(price, a) >= Fall(price, b)
  {
    var x, y := (price - a) / a, (price - b) / b;
    assert (x + 1.0) * a == price;
    assert (y + 1.0) * b == price;
    CancelPositive(0.0, y + 1.0, b);
    assert (y + 1.0) * a <= (y + 1.0) * b;
    CancelPositive(y + 1.0, x + 1.0, a);
  }

  /** `(prices - running_max) / running_max * 100`. */
  function Drawdowns(p: seq<real>): (dd: seq<real>)
    requires forall i :: 0 <= i < |p| ==> p[i] > 0.0
    ensures |dd| == |p|
    ensures forall i :: 0 <= i < |p| ==> RunningMax(p)[i] > 0.0 && dd[i] == Fall(p[i], RunningMax(p)[i])
  {
    var rm := RunningMax(p);
    seq(|p|, i requires 0 <= i < |p| => Fall(p[i], rm[i]))
  }

  /** What `calculate_max_drawdown` returns: for an empty frame only the keys
      `max_drawdown`, `peak` and `trough`, all 0. */
  datatype DrawdownResult =
    | EmptyDrawdown
    | Drawdown(maxDrawdown: real, maxDrawdownPct: real, peakValue: real, troughValue: real,
               peakIndex: nat, troughIndex: nat)

  function Abs(x: real): real { if x < 0.0 then -x else x }

  /** `calculate_max_drawdown` on a series of positive prices: the trough is
      the first row of deepest drawdown, the peak the first row up to it at
      which the running maximum is highest. */
  function MaxDrawdown(p: seq<real>): (r: DrawdownResult)
    requires forall i :: 0 <= i < |p| ==> p[i] > 0.0
    ensures r.EmptyDrawdown? <==> p == []
    ensures r.Drawdown? ==>
      && r.troughIndex < |p| && r.peakIndex <= r.troughIndex
      && r.maxDrawdown == Drawdowns(p)[r.troughIndex]
      && (forall k :: 0 <= k < |p| ==> r.maxDrawdown <= Drawdowns(p)[k])
      && r.maxDrawdownPct == Abs(r.maxDrawdown)
      && r.peakValue == p[r.peakIndex] && r.troughValue == p[r.troughIndex]
    ensures r.Drawdown? ==> forall k :: 0 <= k < r.troughIndex ==> Drawdowns(p)[k] > r.maxDrawdown
    ensures r.Drawdown? ==> forall k :: 0 <= k <= r.troughIndex ==> RunningMax(p)[k] <= RunningMax(p)[r.peakIndex]
    ensures r.Drawdown? ==> forall k :: 0 <= k < r.peakIndex ==> RunningMax(p)[k] < RunningMax(p)[r.peakIndex]
  {
    if p == [] then EmptyDrawdown
    else
      var dd := Drawdowns(p);
      var trough := ArgMin(dd);
      var prefix := RunningMax(p)[..trough + 1];
      var peak := ArgMax(prefix);
      assert forall k :: 0 <= k <= trough ==> prefix[k] == RunningMax(p)[k];
      Drawdown(dd[trough], Abs(dd[trough]), p[peak], p[trough], peak, trough)
  }

  /** Every drawdown is at most 0, so the reported percentage is its
      negation. */
  lemma MaxDrawdownNonPositive(p: seq<real>)
    requires p != [] && forall i :: 0 <= i < |p| ==> p[i] > 0.0
    ensures MaxDrawdown(p).maxDrawdown <= 0.0
    ensures MaxDrawdown(p).maxDrawdownPct == -MaxDrawdown(p).maxDrawdown
  {
    var t := MaxDrawdown(p).troughIndex;
    FallNonPositive(p[t], RunningMax(p)[t]);
  }

  /** The running maximum starts at the first price, and where it rises it
      rises to the price at that row. */
  lemma RunningMaxAttained(p: seq<real>, k: nat)
    requires k < |p|
    ensures k == 0 ==> RunningMax(p)[k] == p[0]
    ensures k > 0 && RunningMax(p)[k - 1] < RunningMax(p)[k] ==> RunningMax(p)[k] == p[k]
  {
    if k == 0 {
      assert p[..1] == [p[0]];
    } else {
      RunningMaxStep(p, k);
    }
  }

  /** The peak is where the running maximum first reaches its value at the
      trough: that value is the peak's own price. */
  lemma PeakIsRunningMax(p: seq<real>)
    requires p != [] && forall i :: 0 <= i < |p| ==> p[i] > 0.0
    ensures MaxDrawdown(p).peakValue == RunningMax(p)[MaxDrawdown(p).troughIndex]
  {
    var r := MaxDrawdown(p);
    RunningMaxMonotone(p, r.peakIndex, r.troughIndex);
    RunningMaxAttained(p, r.peakIndex);
  }

  /** The peak is the largest price up to the trough, and the drawdown is the
      fall from the peak to the trough. */
  lemma MaxDrawdownPeak(p: seq<real>)
    requires p != [] && forall i :: 0 <= i < |p| ==> p[i] > 0.0
    ensures MaxDrawdown(p).peakValue == Max(p[..MaxDrawdown(p).troughIndex + 1])
    ensures MaxDrawdown(p).maxDrawdown == Fall(MaxDrawdown(p).troughValue, MaxDrawdown(p).peakValue)
  {
    PeakIsRunningMax(p);
    var r := MaxDrawdown(p);
    var rm := RunningMax(p);
    assert rm[r.troughIndex] == Max(p[..r.troughIndex + 1]);
    assert Drawdowns(p)[r.troughIndex] == Fall(p[r.troughIndex], rm[r.troughIndex]);
  }

  /** No decline from an earlier price to a later one is deeper than the
      maximum drawdown. */
  lemma MaxDrawdownIsDeepest(p: seq<real>, i: nat, j: nat)
    requires i <= j < |p| && forall k :: 0 <= k < |p| ==> p[k] > 0.0
    ensures Fall(p[j], p[i]) >= MaxDrawdown(p).maxDrawdown
  {
    var rm := RunningMax(p);
    RunningMaxMonotone(p, i, j);
    FallDeeperFromHigherPeak(p[j], p[i], rm[j]);
  }

  /** The running maximum of a series that never falls is the series. */
  lemma NonDecreasingRunningMax(p: seq<real>, k: nat)
    requires k < |p|
    requires forall i, j :: 0 <= i <= j < |p| ==> p[i] <= p[j]
    ensures RunningMax(p)[k] == p[k]
  {
    var q := p[..k + 1];
    forall m | 0 <= m < |q| ensures q[m] <= p[k] {
      assert q[m] == p[m];
    }
    assert q[k] == p[k];
  }

  /** A series that never falls has no drawdown: 0, at index 0 for both the
      peak and the trough. */
  lemma NonDecreasingNoDrawdown(p: seq<real>)
    requires p != [] && forall i :: 0 <= i < |p| ==> p[i] > 0.0
    requires forall i, j :: 0 <= i <= j < |p| ==> p[i] <= p[j]
    ensures var r := MaxDrawdown(p);
            r.maxDrawdown == 0.0 && r.troughIndex == 0 && r.peakIndex == 0
  {
    var dd := Drawdowns(p);
    forall k | 0 <= k < |p| ensures dd[k] == 0.0 {
      NonDecreasingRunningMax(p, k);
      FallNonPositive(p[k], p[k]);
    }
  }

  // ---------------------------------------------------------------------
  // Performance metrics
  // ---------------------------------------------------------------------

  datatype PerformanceMetrics = PerformanceMetrics(
    totalReturn: real,
    ytdReturn: real,
    oneYearReturn: real,
    drawdown: DrawdownResult,
    currentPrice: real,
    high52Week: real,
    low52Week: real)

  /** `s.tail(n)`. */
  function Tail(s: seq<real>, n: nat): (t: seq<real>)
    ensures |t| == if |s| < n then |s| else n
    ensures t == s[|s| - |t|..]
  {
    if |s| <= n then s else s[|s| - n..]
  }

  /** `calculate_performance_metrics` without the volatility and Sharpe
      figures; `ytdStart` is 1 January of the current year and `yearAgo` is
      365 days before now. `None` for an empty frame. */
  function Performance(f: PriceFrame, ytdStart: int, yearAgo: int): (m: Option<PerformanceMetrics>)
    requires WellShaped(f)
    requires forall i :: 0 <= i < |f.prices| ==> f.prices[i] > 0.0
    ensures m.None? <==> f.prices == []
    ensures m.Some? ==>
      && m.value.totalReturn == PeriodReturn(f, None, None)
      && m.value.ytdReturn == PeriodReturn(f, Some(ytdStart), None)
      && m.value.oneYearReturn == PeriodReturn(f, Some(yearAgo), None)
      && m.value.drawdown == MaxDrawdown(f.prices)
      && m.value.currentPrice == f.prices[|f.prices| - 1]
      && m.value.high52Week == Max(Tail(f.prices, 252))
      && m.value.low52Week == Min(Tail(f.prices, 252))
    ensures m.Some? && f.dates.None? ==> m.value.ytdReturn == m.value.totalReturn && m.value.oneYearReturn == m.value.totalReturn
  {
    if f.prices == [] then None
    else
      PeriodReturnWithoutDates(f, Some(ytdStart), None);
      PeriodReturnWithoutDates(f, Some(yearAgo), None);
      var last252 := Tail(f.prices, 252);
      Some(PerformanceMetrics(
        PeriodReturn(f, None, None), PeriodReturn(f, Some(ytdStart), None), PeriodReturn(f, Some(yearAgo), None),
        MaxDrawdown(f.prices), f.prices[|f.prices| - 1], Max(last252), Min(last252)))
  }

  /** The current price lies within the 52-week range. */
  lemma CurrentWithin52WeekRange(f: PriceFrame, ytdStart: int, yearAgo: int)
    requires WellShaped(f) && f.prices != []
    requires forall i :: 0 <= i < |f.prices| ==> f.prices[i] > 0.0
    ensures var m := Performance(f, ytdStart, yearAgo).value;
            m.low52Week <= m.currentPrice <= m.high52Week
  {
    var t := Tail(f.prices, 252);
    assert t[|t| - 1] == f.prices[|f.prices| - 1];
  }
}
