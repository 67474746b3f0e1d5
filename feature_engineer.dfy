/** Technical indicators on one price column: daily return, simple moving
    averages, RSI from rolling average gain and loss, and MACD through an
    exponential moving average. Each indicator works on a copy of the
    frame: it returns a new frame with the same rows, its own columns added
    or replaced and every other column as it was. A missing value (pandas'
    NaN, or an infinity) is `None`. */
module FeatureEngineer {
  import opened Common
  import opened Frames

  /** The price column exists and has no missing value. */
  predicate HasPrices(f: Frame, column: string)
  {
    column in f.columns && forall i :: 0 <= i < |f.columns[column]| ==> f.columns[column][i].Some?
  }

  function Prices(f: Frame, column: string): (p: seq<real>)
    requires WellFormed(f) && HasPrices(f, column)
    ensures |p| == f.rows
  {
    Values(f.columns[column])
  }

  // ---------------------------------------------------------------------
  // Daily return
  // ---------------------------------------------------------------------

  /** `pct_change` between two consecutive prices; after a zero price pandas
      gives an infinity or NaN, so the change is undefined. */
  function Change(prev: real, cur: real): (r: Option<real>)
    ensures r.Some? <==> prev != 0.0
  {
    if prev == 0.0 then None else Some(cur / prev - 1.0)
  }

  /** Growing the earlier price by the change gives the later one. */
  lemma ChangeCompounds(prev: real, cur: real)
    requires prev != 0.0
    ensures cur == Grow(prev, Change(prev, cur).value)
  {
    assert prev * (cur / prev) == cur;
  }

  /** The `daily_return` column: undefined on the first row. */
  function DailyReturns(p: seq<real>): (r: Column)
    ensures |r| == |p|
    ensures p != [] ==> r[0] == None
    ensures forall i {:trigger r[i]} :: 1 <= i < |p| ==> r[i] == Change(p[i - 1], p[i])
  {
    seq(|p|, i requires 0 <= i < |p| => if i == 0 then None else Change(p[i - 1], p[i]))
  }

  /** A price grown by a return. */
  function Grow(price: real, r: real): real
  {
    price * (1.0 + r)
  }

  /** Rebuilds a price series from its first price and its daily returns. */
  function Compound(first: real, r: seq<real>): (p: seq<real>)
    ensures |p| == |r| + 1 && p[0] == first
  {
    if r == [] then [first]
    else
      var q := Compound(first, r[..|r| - 1]);
      q + [Grow(q[|q| - 1], r[|r| - 1])]
  }

  /** The defined daily returns of a series without zero prices. */
  function ReturnValues(p: seq<real>): (r: seq<real>)
    requires p != [] && forall i :: 0 <= i < |p| ==> p[i] != 0.0
    ensures |r| == |p| - 1
    ensures forall i {:trigger r[i]} :: 0 <= i < |r| ==> DailyReturns(p)[i + 1] == Some(r[i])
  {
    seq(|p| - 1, i requires 0 <= i < |p| - 1 => Change(p[i], p[i + 1]).value)
  }

  lemma ReturnValuesPrefix(p: seq<real>)
    requires |p| > 1 && forall i :: 0 <= i < |p| ==> p[i] != 0.0
    ensures ReturnValues(p)[..|p| - 2] == ReturnValues(p[..|p| - 1])
  {
  }

  /** Compounding the daily returns from the first price gives back the
      series. */
  lemma {:induction false} CompoundReturns(p: seq<real>)
    requires p != [] && forall i :: 0 <= i < |p| ==> p[i] != 0.0
    ensures Compound(p[0], ReturnValues(p)) == p
  {
    if |p| > 1 {
      var n := |p| - 1;
      var r := ReturnValues(p);
      CompoundReturns(p[..n]);
      ReturnValuesPrefix(p);
      assert p[..n][0] == p[0];
      var q := Compound(p[0], r[..n - 1]);
      assert q == p[..n];
      assert q[|q| - 1] == p[n - 1];
      ChangeCompounds(p[n - 1], p[n]);
      assert r[n - 1] == Change(p[n - 1], p[n]).value;
      assert p == p[..n] + [p[n]];
    }
  }

  const DailyReturnName: string := "daily_return"

  /** `calculate_returns`. */
  function CalculateReturns(f: Frame, column: string): (g: Frame)
    requires WellFormed(f) && HasPrices(f, column)
    ensures WellFormed(g) && g.rows == f.rows
    ensures g.columns.Keys == f.columns.Keys + {DailyReturnName}
    ensures g.columns[DailyReturnName] == DailyReturns(Prices(f, column))
    ensures forall k :: k in f.columns && k != DailyReturnName ==> g.columns[k] == f.columns[k]
  {
    WithColumn(f, DailyReturnName, DailyReturns(Prices(f, column)))
  }

  // ---------------------------------------------------------------------
  // Simple moving average
  // ---------------------------------------------------------------------

  /** The `w` values ending at row `i`. */
  function Window(p: seq<real>, i: nat, w: nat): (s: seq<real>)
    requires 1 <= w && w - 1 <= i < |p|
    ensures |s| == w
  {
    p[i - w + 1..i + 1]
  }

  /** `rolling(window=w).mean()`: undefined until the window is full, then
      the mean of the last `w` values. */
  function MovingAverage(p: seq<real>, w: nat): (ma: Column)
    requires w >= 1
    ensures |ma| == |p|
    ensures forall i :: 0 <= i < |p| ==> (ma[i].Some? <==> i >= w - 1)
    ensures forall i :: w - 1 <= i < |p| ==> ma[i] == Some(Mean(Window(p, i, w)))
  {
    seq(|p|, i requires 0 <= i < |p| => if i < w - 1 then None else Some(Mean(Window(p, i, w))))
  }

  /** Wherever it is defined, the average lies between the smallest and the
      largest price in its window. */
  lemma MovingAverageBounds(p: seq<real>, w: nat, i: nat)
    requires w >= 1 && w - 1 <= i < |p|
    ensures Min(Window(p, i, w)) <= MovingAverage(p, w)[i].value <= Max(Window(p, i, w))
  {
    var s := Window(p, i, w);
    MeanBounds(s, Min(s), Max(s));
  }

  /** On a constant series the average is that constant wherever defined. */
  lemma MovingAverageConstant(p: seq<real>, w: nat, c: real)
    requires w >= 1
    requires forall i :: 0 <= i < |p| ==> p[i] == c
    ensures forall i :: w - 1 <= i < |p| ==> MovingAverage(p, w)[i] == Some(c)
  {
    forall i | w - 1 <= i < |p| ensures MovingAverage(p, w)[i] == Some(c) {
      MeanConstant(Window(p, i, w), c);
    }
  }

  lemma SumCons(x: real, s: seq<real>)
    ensures Sum([x] + s) == x + Sum(s)
  {
    SumAppend([x], s);
    assert [x][..0] == [];
  }

  /** Sliding the window one row on adds the entering price and drops the
      leaving one, each weighted `1/w`. */
  lemma MovingAverageSlide(p: seq<real>, w: nat, i: nat)
    requires w >= 1 && w <= i < |p|
    ensures MovingAverage(p, w)[i].value
            == MovingAverage(p, w)[i - 1].value + (p[i] - p[i - w]) / w as real
  {
    WindowSumSlide(p, w, i);
    DivideSum(Sum(Window(p, i - 1, w)), p[i] - p[i - w], w as real);
  }

  /** The window's sum gains the entering price and loses the leaving one. */
  lemma WindowSumSlide(p: seq<real>, w: nat, i: nat)
    requires w >= 1 && w <= i < |p|
    ensures Sum(Window(p, i, w)) == Sum(Window(p, i - 1, w)) + (p[i] - p[i - w])
  {
    var old_, new_ := Window(p, i - 1, w), Window(p, i, w);
    var mid := p[i - w + 1..i];
    assert old_ == [p[i - w]] + mid;
    assert new_ == mid + [p[i]];
    SumCons(p[i - w], mid);
    SumAppend(mid, [p[i]]);
    assert Sum([p[i]]) == p[i] by { assert [p[i]][..0] == []; }
  }

  lemma DivideSum(a: real, d: real, n: real)
    requires n > 0.0
    ensures (a + d) / n == a / n + d / n
  {
  }

  function MaName(w: nat): string
  {
    "ma_" + NatStr(w)
  }

  lemma MaNameInjective(a: nat, b: nat)
    ensures MaName(a) == MaName(b) <==> a == b
  {
    if MaName(a) == MaName(b) {
      assert MaName(a)[3..] == NatStr(a);
      assert MaName(b)[3..] == NatStr(b);
      NatStrInjective(a, b);
    }
  }

  /** The `ma_<w>` names of a list of windows. */
  function MaNames(windows: seq<nat>): (names: set<string>)
    ensures forall k :: 0 <= k < |windows| ==> MaName(windows[k]) in names
  {
    if windows == [] then {}
    else
      var init := windows[..|windows| - 1];
      var names := MaNames(init);
      assert forall k :: 0 <= k < |init| ==> init[k] == windows[k];
      names + {MaName(windows[|windows| - 1])}
  }

  predicate ValidWindows(windows: seq<nat>)
  {
    forall k :: 0 <= k < |windows| ==> windows[k] >= 1
  }

  /** The frame after the `ma_<w>` columns of the given windows were written,
      one after another, from the prices `p`. */
  function WithMovingAverages(f: Frame, p: seq<real>, windows: seq<nat>): (g: Frame)
    requires WellFormed(f) && |p| == f.rows && ValidWindows(windows)
    ensures WellFormed(g) && g.rows == f.rows
    ensures g.columns.Keys == f.columns.Keys + MaNames(windows)
  {
    if windows == [] then f
    else
      var n := |windows| - 1;
      WithColumn(WithMovingAverages(f, p, windows[..n]), MaName(windows[n]), MovingAverage(p, windows[n]))
  }

  /** Each `ma_<w>` column holds the moving average over `w` rows, even when a
      window is listed twice. */
  lemma {:induction false} MovingAverageColumn(f: Frame, p: seq<real>, windows: seq<nat>, k: nat)
    requires WellFormed(f) && |p| == f.rows && ValidWindows(windows) && k < |windows|
    ensures WithMovingAverages(f, p, windows).columns[MaName(windows[k])] == MovingAverage(p, windows[k])
  {
    var n := |windows| - 1;
    var g0 := WithMovingAverages(f, p, windows[..n]);
    assert WithMovingAverages(f, p, windows) == WithColumn(g0, MaName(windows[n]), MovingAverage(p, windows[n]));
    MaNameInjective(windows[k], windows[n]);
    if k < n && windows[k] != windows[n] {
      assert windows[..n][k] == windows[k];
      MovingAverageColumn(f, p, windows[..n], k);
    }
  }

  /** Every other column is left as it was. */
  lemma {:induction false} MovingAveragesKeepOthers(f: Frame, p: seq<real>, windows: seq<nat>)
    requires WellFormed(f) && |p| == f.rows && ValidWindows(windows)
    ensures forall name :: name in f.columns && name !in MaNames(windows) ==>
              WithMovingAverages(f, p, windows).columns[name] == f.columns[name]
  {
    if windows != [] {
      var n := |windows| - 1;
      MovingAveragesKeepOthers(f, p, windows[..n]);
    }
  }

  /** A name that is no window's `ma_<w>` name is not among them. */
  lemma {:induction false} NotMaName(windows: seq<nat>, name: string)
    requires forall k :: 0 <= k < |windows| ==> MaName(windows[k]) != name
    ensures name !in MaNames(windows)
  {
    if windows != [] {
      var n := |windows| - 1;
      assert forall k :: 0 <= k < n ==> windows[..n][k] == windows[k];
      NotMaName(windows[..n], name);
    }
  }

  /** `calculate_moving_averages`: one `ma_<w>` column per window, each read
      from the price column as it stands in the copy. */
  method CalculateMovingAverages(f: Frame, column: string, windows: seq<nat>) returns (g: Frame)
    requires WellFormed(f) && HasPrices(f, column) && ValidWindows(windows)
    requires forall k :: 0 <= k < |windows| ==> MaName(windows[k]) != column
    ensures g == WithMovingAverages(f, Prices(f, column), windows)
    ensures forall k :: 0 <= k < |windows| ==> g.columns[MaName(windows[k])] == MovingAverage(Prices(f, column), windows[k])
  {
    var p := Prices(f, column);
    g := f;
    for i := 0 to |windows|
      invariant g == WithMovingAverages(f, p, windows[..i])
    {
      var w := windows[i];
      assert windows[..i + 1][..i] == windows[..i] && windows[..i + 1][i] == w;
      MovingAveragesKeepOthers(f, p, windows[..i]);
      NotMaName(windows[..i], column);
      assert g.columns[column] == f.columns[column];
      g := WithColumn(g, MaName(w), MovingAverage(Prices(g, column), w));
    }
    assert windows[..|windows|] == windows;
    forall k | 0 <= k < |windows| ensures g.columns[MaName(windows[k])] == MovingAverage(p, windows[k]) {
      MovingAverageColumn(f, p, windows, k);
    }
  }

  // ---------------------------------------------------------------------
  // Relative strength index
  // ---------------------------------------------------------------------

  /** The positive part of `diff()`, with the undefined first difference
      turned into 0 by `where`. */
  function Gains(p: seq<real>): (g: seq<real>)
    ensures |g| == |p|
    ensures forall i :: 0 <= i < |p| ==> g[i] >= 0.0
    ensures p != [] ==> g[0] == 0.0
  {
    seq(|p|, i requires 0 <= i < |p| => if i > 0 && p[i] - p[i - 1] > 0.0 then p[i] - p[i - 1] else 0.0)
  }

  /** The negated negative part of `diff()`, likewise 0 on the first row. */
  function Losses(p: seq<real>): (l: seq<real>)
    ensures |l| == |p|
    ensures forall i :: 0 <= i < |p| ==> l[i] >= 0.0
    ensures p != [] ==> l[0] == 0.0
  {
    seq(|p|, i requires 0 <= i < |p| => if i > 0 && p[i] - p[i - 1] < 0.0 then -(p[i] - p[i - 1]) else 0.0)
  }

  /** Gains and losses split each price change: at most one of them is
      non-zero, and their difference is the change. */
  lemma GainsLossesSplit(p: seq<real>, i: nat)
    requires 1 <= i < |p|
    ensures Gains(p)[i] - Losses(p)[i] == p[i] - p[i - 1]
    ensures Gains(p)[i] == 0.0 || Losses(p)[i] == 0.0
  {
  }

  /** `100 - 100 / (1 + rs)` with `rs = avg_gain / avg_loss`: a zero loss
      makes `rs` infinite and the index 100, unless the gain is zero too,
      which makes it NaN. */
  function RsiValue(avgGain: real, avgLoss: real): (r: Option<real>)
    requires avgGain >= 0.0 && avgLoss >= 0.0
    ensures r.None? <==> avgGain == 0.0 && avgLoss == 0.0
    ensures r.Some? ==> 0.0 <= r.value <= 100.0 && r.value * (avgGain + avgLoss) == 100.0 * avgGain
    ensures r.Some? ==> (r.value == 100.0 <==> avgLoss == 0.0)
  {
    if avgLoss > 0.0 then
      RsiAlgebra(avgGain, avgLoss);
      Some(100.0 - 100.0 / (1.0 + avgGain / avgLoss))
    else if avgGain > 0.0 then Some(100.0)
    else None
  }

  lemma RsiAlgebra(g: real, l: real)
    requires g >= 0.0 && l > 0.0
    ensures var r := 100.0 - 100.0 / (1.0 + g / l);
            0.0 <= r < 100.0 && r * (g + l) == 100.0 * g
  {
    var x := g / l;
    assert x * l == g;
    assert x >= 0.0;
    var q := 100.0 / (1.0 + x);
    assert q * (1.0 + x) == 100.0;
    assert 0.0 < q <= 100.0 by {
      CancelBelow(q, 1.0 + x);
    }
    var r := 100.0 - q;
    assert g + l == l * (1.0 + x);
    assert r * (g + l) == 100.0 * l * (1.0 + x) - q * (1.0 + x) * l;
  }

  lemma CancelBelow(q: real, y: real)
    requires y >= 1.0 && q * y == 100.0
    ensures 0.0 < q <= 100.0
  {
  }

  /** The index at row `i`, from the mean gain and loss over the `period`
      rows ending there. */
  function RsiAt(p: seq<real>, period: nat, i: nat): (r: Option<real>)
    requires period >= 1 && period - 1 <= i < |p|
    ensures Mean(Window(Gains(p), i, period)) >= 0.0 && Mean(Window(Losses(p), i, period)) >= 0.0
    ensures r == RsiValue(Mean(Window(Gains(p), i, period)), Mean(Window(Losses(p), i, period)))
  {
    AverageNonNegative(Gains(p), i, period);
    AverageNonNegative(Losses(p), i, period);
    RsiValue(Mean(Window(Gains(p), i, period)), Mean(Window(Losses(p), i, period)))
  }

  /** `calculate_rsi`'s `rsi` column: undefined until the averaging window
      is full, then `RsiValue` of the rolling average gain and loss. */
  function Rsi(p: seq<real>, period: nat): (r: Column)
    requires period >= 1
    ensures |r| == |p|
    ensures forall i :: 0 <= i < period - 1 && i < |p| ==> r[i] == None
    ensures forall i :: period - 1 <= i < |p| ==> r[i] == RsiAt(p, period, i)
  {
    seq(|p|, i requires 0 <= i < |p| => if i < period - 1 then None else RsiAt(p, period, i))
  }

  lemma AverageNonNegative(s: seq<real>, i: nat, w: nat)
    requires w >= 1 && w - 1 <= i < |s|
    requires forall k :: 0 <= k < |s| ==> s[k] >= 0.0
    ensures Mean(Window(s, i, w)) >= 0.0
  {
    var win := Window(s, i, w);
    assert forall k :: 0 <= k < |win| ==> win[k] == s[i - w + 1 + k];
    MeanBounds(win, 0.0, Max(win));
  }

  /** A series that does not move has neither gains nor losses, so its RSI
      is NaN on every row. */
  lemma RsiConstant(p: seq<real>, period: nat, c: real)
    requires period >= 1
    requires forall i :: 0 <= i < |p| ==> p[i] == c
    ensures forall i :: 0 <= i < |p| ==> Rsi(p, period)[i] == None
  {
    forall i | period - 1 <= i < |p| ensures Rsi(p, period)[i] == None {
      MeanConstant(Window(Gains(p), i, period), 0.0);
      MeanConstant(Window(Losses(p), i, period), 0.0);
    }
  }

  /** A series that rose on at least one day of the window and fell on none
      has an RSI of exactly 100. */
  lemma RsiRising(p: seq<real>, period: nat, i: nat)
    requires period >= 1 && period - 1 <= i < |p|
    requires forall k :: i - period + 1 <= k <= i && k > 0 ==> Diff(p, k) >= 0.0
    requires exists k :: i - period + 1 <= k <= i && k > 0 && Diff(p, k) > 0.0
    ensures Rsi(p, period)[i] == Some(100.0)
  {
    NoLossInWindow(p, period, i);
    SomeGainInWindow(p, period, i);
  }

  lemma NoLossInWindow(p: seq<real>, period: nat, i: nat)
    requires period >= 1 && period - 1 <= i < |p|
    requires forall k :: i - period + 1 <= k <= i && k > 0 ==> Diff(p, k) >= 0.0
    ensures Mean(Window(Losses(p), i, period)) == 0.0
  {
    var lo := i - period + 1;
    var lw := Window(Losses(p), i, period);
    forall m | 0 <= m < period ensures lw[m] == 0.0 {
      assert lw[m] == Losses(p)[lo + m];
      if lo + m > 0 {
        assert Diff(p, lo + m) >= 0.0;
      }
    }
    MeanConstant(lw, 0.0);
  }

  lemma SomeGainInWindow(p: seq<real>, period: nat, i: nat)
    requires period >= 1 && period - 1 <= i < |p|
    requires exists k :: i - period + 1 <= k <= i && k > 0 && Diff(p, k) > 0.0
    ensures Mean(Window(Gains(p), i, period)) > 0.0
  {
    var lo := i - period + 1;
    var g := Gains(p);
    var gw := Window(g, i, period);
    assert gw == g[lo..i + 1];
    var k :| lo <= k <= i && k > 0 && Diff(p, k) > 0.0;
    GainPositive(p, k);
    assert gw[k - lo] == g[k];
    forall m | 0 <= m < period ensures gw[m] >= 0.0 {
      assert gw[m] == g[lo + m];
    }
    MeanPositive(gw, k - lo);
  }

  lemma GainPositive(p: seq<real>, k: nat)
    requires 0 < k < |p| && Diff(p, k) > 0.0
    ensures Gains(p)[k] > 0.0
  {
  }

  /** The price change into row `k`. */
  function Diff(p: seq<real>, k: nat): real
    requires 0 < k < |p|
  {
    p[k] - p[k - 1]
  }

  /** A mean of non-negative terms, one of them positive, is positive. */
  lemma MeanPositive(s: seq<real>, j: nat)
    requires j < |s|
    requires forall k :: 0 <= k < |s| ==> s[k] >= 0.0
    requires s[j] > 0.0
    ensures Mean(s) > 0.0
  {
    SumPositive(s, j);
  }

  lemma {:induction false} SumPositive(s: seq<real>, j: nat)
    requires j < |s|
    requires forall k :: 0 <= k < |s| ==> s[k] >= 0.0
    requires s[j] > 0.0
    ensures Sum(s) > 0.0
  {
    var n := |s| - 1;
    if j < n {
      SumPositive(s[..n], j);
    } else {
      SumNonNegative(s[..n]);
    }
  }

  lemma {:induction false} SumNonNegative(s: seq<real>)
    requires forall k :: 0 <= k < |s| ==> s[k] >= 0.0
    ensures Sum(s) >= 0.0
  {
    if s != [] {
      SumNonNegative(s[..|s| - 1]);
    }
  }

  const RsiName: string := "rsi"

  /** `calculate_rsi`. */
  function CalculateRsi(f: Frame, column: string, period: nat): (g: Frame)
    requires WellFormed(f) && HasPrices(f, column) && period >= 1
    ensures WellFormed(g) && g.rows == f.rows
    ensures g.columns.Keys == f.columns.Keys + {RsiName}
    ensures g.columns[RsiName] == Rsi(Prices(f, column), period)
    ensures forall k :: k in f.columns && k != RsiName ==> g.columns[k] == f.columns[k]
  {
    WithColumn(f, RsiName, Rsi(Prices(f, column), period))
  }

  // ---------------------------------------------------------------------
  // Exponential moving average and MACD
  // ---------------------------------------------------------------------

  /** The smoothing factor of `ewm(span=span, adjust=False)`. */
  function Alpha(span: nat): (a: real)
    requires span >= 1
    ensures 0.0 < a <= 1.0
  {
    2.0 / (span as real + 1.0)
  }

  /** `ewm(adjust=False).mean()`: starts at the first value, then moves a
      fraction `a` of the way towards each new value. */
  function Ema(p: seq<real>, a: real): (e: seq<real>)
    ensures |e| == |p|
    ensures p != [] ==> e[0] == p[0]
  {
    if p == [] then []
    else if |p| == 1 then [p[0]]
    else
      var prev := Ema(p[..|p| - 1], a);
      prev + [a * p[|p| - 1] + (1.0 - a) * prev[|prev| - 1]]
  }

  /** The recurrence in index form: each value is `a * p[i] + (1 - a) * e[i-1]`. */
  lemma {:induction false} EmaStep(p: seq<real>, a: real, i: nat)
    requires 0 < i < |p|
    ensures Ema(p, a)[i] == a * p[i] + (1.0 - a) * Ema(p, a)[i - 1]
    decreases |p|
  {
    var n := |p| - 1;
    if i < n {
      EmaStep(p[..n], a, i);
      assert p[..n][i] == p[i];
    }
  }

  lemma ConvexBetween(a: real, x: real, y: real, lo: real, hi: real)
    requires 0.0 < a <= 1.0 && lo <= x <= hi && lo <= y <= hi
    ensures lo <= a * x + (1.0 - a) * y <= hi
  {
    assert a * x + (1.0 - a) * y - lo == a * (x - lo) + (1.0 - a) * (y - lo);
    assert hi - (a * x + (1.0 - a) * y) == a * (hi - x) + (1.0 - a) * (hi - y);
    MulNonNegative(a, x - lo);
    MulNonNegative(1.0 - a, y - lo);
    MulNonNegative(a, hi - x);
    MulNonNegative(1.0 - a, hi - y);
  }

  lemma MulNonNegative(u: real, v: real)
    requires u >= 0.0 && v >= 0.0
    ensures u * v >= 0.0
  {
  }

  /** The average stays within any bounds of the series. */
  lemma {:induction false} EmaBounds(p: seq<real>, a: real, lo: real, hi: real)
    requires 0.0 < a <= 1.0
    requires forall k :: 0 <= k < |p| ==> lo <= p[k] <= hi
    ensures forall k :: 0 <= k < |p| ==> lo <= Ema(p, a)[k] <= hi
  {
    if |p| > 1 {
      var n := |p| - 1;
      var prev := Ema(p[..n], a);
      EmaBounds(p[..n], a, lo, hi);
      assert Ema(p, a)[..n] == prev;
      ConvexBetween(a, p[n], prev[n - 1], lo, hi);
    }
  }

  /** On a constant series the average is the constant. */
  lemma EmaConstant(p: seq<real>, a: real, c: real)
    requires 0.0 < a <= 1.0
    requires forall k :: 0 <= k < |p| ==> p[k] == c
    ensures forall k :: 0 <= k < |p| ==> Ema(p, a)[k] == c
  {
    EmaBounds(p, a, c, c);
  }

  /** `macd`, `macd_signal` and `macd_histogram`. */
  datatype Macd = Macd(line: seq<real>, signal: seq<real>, histogram: seq<real>)

  function MacdOf(p: seq<real>, fast: nat, slow: nat, signal: nat): (m: Macd)
    requires fast >= 1 && slow >= 1 && signal >= 1
    ensures |m.line| == |p| && |m.signal| == |p| && |m.histogram| == |p|
    ensures forall i :: 0 <= i < |p| ==> m.line[i] == Ema(p, Alpha(fast))[i] - Ema(p, Alpha(slow))[i]
    ensures m.signal == Ema(m.line, Alpha(signal))
    ensures forall i :: 0 <= i < |p| ==> m.histogram[i] == m.line[i] - m.signal[i]
  {
    var ef, es := Ema(p, Alpha(fast)), Ema(p, Alpha(slow));
    var line := seq(|p|, i requires 0 <= i < |p| => ef[i] - es[i]);
    var sig := Ema(line, Alpha(signal));
    Macd(line, sig, seq(|p|, i requires 0 <= i < |p| => line[i] - sig[i]))
  }

  /** A constant series has a MACD line, signal and histogram of 0. */
  lemma MacdConstant(p: seq<real>, fast: nat, slow: nat, signal: nat, c: real)
    requires fast >= 1 && slow >= 1 && signal >= 1
    requires forall k :: 0 <= k < |p| ==> p[k] == c
    ensures var m := MacdOf(p, fast, slow, signal);
            forall i :: 0 <= i < |p| ==> m.line[i] == 0.0 && m.signal[i] == 0.0 && m.histogram[i] == 0.0
  {
    var m := MacdOf(p, fast, slow, signal);
    EmaConstant(p, Alpha(fast), c);
    EmaConstant(p, Alpha(slow), c);
    EmaConstant(m.line, Alpha(signal), 0.0);
  }

  /** The histogram is the fast average minus the slow one minus the signal:
      it is 0 exactly where the line meets its signal. */
  lemma MacdHistogramZero(p: seq<real>, fast: nat, slow: nat, signal: nat, i: nat)
    requires fast >= 1 && slow >= 1 && signal >= 1 && i < |p|
    ensures var m := MacdOf(p, fast, slow, signal);
            m.histogram[i] == 0.0 <==> m.line[i] == m.signal[i]
  {
  }

  const MacdName: string := "macd"
  const MacdSignalName: string := "macd_signal"
  const MacdHistogramName: string := "macd_histogram"

  /** `calculate_macd`: the signal is computed from the `macd` column just
      written. */
  function CalculateMacd(f: Frame, column: string, fast: nat, slow: nat, signal: nat): (g: Frame)
    requires WellFormed(f) && HasPrices(f, column)
    requires fast >= 1 && slow >= 1 && signal >= 1
    ensures WellFormed(g) && g.rows == f.rows
    ensures g.columns.Keys == f.columns.Keys + {MacdName, MacdSignalName, MacdHistogramName}
    ensures var m := MacdOf(Prices(f, column), fast, slow, signal);
            && g.columns[MacdName] == Present(m.line)
            && g.columns[MacdSignalName] == Present(m.signal)
            && g.columns[MacdHistogramName] == Present(m.histogram)
    ensures forall k :: k in f.columns && k !in {MacdName, MacdSignalName, MacdHistogramName} ==> g.columns[k] == f.columns[k]
  {
    var m := MacdOf(Prices(f, column), fast, slow, signal);
    var g1 := WithColumn(f, MacdName, Present(m.line));
    var g2 := WithColumn(g1, MacdSignalName, Present(m.signal));
    WithColumn(g2, MacdHistogramName, Present(m.histogram))
  }

  // ---------------------------------------------------------------------
  // All features
  // ---------------------------------------------------------------------

  const MaWindows: seq<nat> := [20, 50, 200]

  /** The feature columns other than the moving averages. */
  function OtherFeatureNames(): set<string>
  {
    {DailyReturnName, RsiName, MacdName, MacdSignalName, MacdHistogramName}
  }

  /** The columns `add_all_features` writes in this model, for the given
      moving-average windows. */
  function FeatureNames(windows: seq<nat>): set<string>
  {
    OtherFeatureNames() + MaNames(windows)
  }

  /** The frame `add_all_features` builds from the prices `p`, without the
      Bollinger and volatility columns: daily returns, the moving averages,
      RSI over 14 rows and MACD 12/26/9, written in that order. */
  function AllFeatures(f: Frame, p: seq<real>, windows: seq<nat>): (g: Frame)
    requires WellFormed(f) && |p| == f.rows && ValidWindows(windows)
    ensures WellFormed(g) && g.rows == f.rows
    ensures g.columns.Keys == f.columns.Keys + FeatureNames(windows)
  {
    var m := MacdOf(p, 12, 26, 9);
    var g1 := WithMovingAverages(WithColumn(f, DailyReturnName, DailyReturns(p)), p, windows);
    var g2 := WithColumn(g1, RsiName, Rsi(p, 14));
    var g3 := WithColumn(g2, MacdName, Present(m.line));
    var g4 := WithColumn(g3, MacdSignalName, Present(m.signal));
    WithColumn(g4, MacdHistogramName, Present(m.histogram))
  }

  /** Every `ma_<w>` name has `_` as its third character, which no other
      feature name has. */
  lemma OtherFeaturesNotMa(windows: seq<nat>)
    ensures forall name :: name in OtherFeatureNames() ==> name !in MaNames(windows)
  {
    forall name | name in OtherFeatureNames() ensures name !in MaNames(windows) {
      forall k | 0 <= k < |windows| ensures MaName(windows[k]) != name {
        var m := MaName(windows[k]);
        assert m[0] == 'm' && m[2] == '_';
      }
      NotMaName(windows, name);
    }
  }

  /** The RSI and MACD columns hold their indicators over the prices. */
  lemma AllFeaturesRsiMacd(f: Frame, p: seq<real>, windows: seq<nat>)
    requires WellFormed(f) && |p| == f.rows && ValidWindows(windows)
    ensures var g := AllFeatures(f, p, windows);
            var m := MacdOf(p, 12, 26, 9);
            && g.columns[RsiName] == Rsi(p, 14)
            && g.columns[MacdName] == Present(m.line)
            && g.columns[MacdSignalName] == Present(m.signal)
            && g.columns[MacdHistogramName] == Present(m.histogram)
  {
  }

  /** The `daily_return` column holds the daily returns: no later step
      overwrites it. */
  lemma AllFeaturesReturns(f: Frame, p: seq<real>, windows: seq<nat>)
    requires WellFormed(f) && |p| == f.rows && ValidWindows(windows)
    ensures AllFeatures(f, p, windows).columns[DailyReturnName] == DailyReturns(p)
  {
    OtherFeaturesNotMa(windows);
    MovingAveragesKeepOthers(WithColumn(f, DailyReturnName, DailyReturns(p)), p, windows);
  }

  /** Each `ma_<w>` column holds the moving average over `w` rows. */
  lemma AllFeaturesAverages(f: Frame, p: seq<real>, windows: seq<nat>, k: nat)
    requires WellFormed(f) && |p| == f.rows && ValidWindows(windows) && k < |windows|
    ensures AllFeatures(f, p, windows).columns[MaName(windows[k])] == MovingAverage(p, windows[k])
  {
    OtherFeaturesNotMa(windows);
    MovingAverageColumn(WithColumn(f, DailyReturnName, DailyReturns(p)), p, windows, k);
  }

  /** Every column that is not a feature column is left as it was. */
  lemma AllFeaturesKeepOthers(f: Frame, p: seq<real>, windows: seq<nat>)
    requires WellFormed(f) && |p| == f.rows && ValidWindows(windows)
    ensures forall name :: name in f.columns && name !in FeatureNames(windows) ==>
              AllFeatures(f, p, windows).columns[name] == f.columns[name]
  {
    MovingAveragesKeepOthers(WithColumn(f, DailyReturnName, DailyReturns(p)), p, windows);
  }

  /** `add_all_features` without the Bollinger and volatility steps: each
      step reads the price column, which no step overwrites. */
  method AddAllFeatures(f: Frame, column: string) returns (g: Frame)
    requires WellFormed(f) && HasPrices(f, column)
    requires column !in FeatureNames(MaWindows)
    ensures g == AllFeatures(f, Prices(f, column), MaWindows)
  {
    var p := Prices(f, column);
    var g1 := CalculateReturns(f, column);
    assert g1.columns[column] == f.columns[column];
    forall k | 0 <= k < |MaWindows| ensures MaName(MaWindows[k]) != column {
      assert MaName(MaWindows[k]) in MaNames(MaWindows);
    }
    var g2 := CalculateMovingAverages(g1, column, MaWindows);
    MovingAveragesKeepOthers(g1, p, MaWindows);
    assert g2.columns[column] == f.columns[column];
    var g3 := CalculateRsi(g2, column, 14);
    g := CalculateMacd(g3, column, 12, 26, 9);
  }
}
