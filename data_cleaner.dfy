/** Cleaning of a stock frame: rows with no value are dropped, gaps are
    filled forward and then backward, listed columns are min-max
    normalised, z-score outliers are flagged, and daily bars are
    aggregated per period (open first, high max, low min, close last,
    volume sum). */
module DataCleaner {
  import opened Common
  import opened Frames

  // ---------------------------------------------------------------------
  // Filling gaps
  // ---------------------------------------------------------------------

  /** The forward-filled value at row `i`: the row's own value, else the
      forward-filled value of the row before. */
  function FfillAt(s: Column, i: nat): Option<real>
    requires i < |s|
  {
    if s[i].Some? || i == 0 then s[i] else FfillAt(s, i - 1)
  }

  /** The backward-filled value at row `i`: the row's own value, else the
      backward-filled value of the row after. */
  function BfillAt(s: Column, i: nat): Option<real>
    requires i < |s|
    decreases |s| - i
  {
    if s[i].Some? || i == |s| - 1 then s[i] else BfillAt(s, i + 1)
  }

  function Ffill(s: Column): (t: Column)
    ensures |t| == |s|
  {
    seq(|s|, i requires 0 <= i < |s| => FfillAt(s, i))
  }

  function Bfill(s: Column): (t: Column)
    ensures |t| == |s|
  {
    seq(|s|, i requires 0 <= i < |s| => BfillAt(s, i))
  }

  /** The forward fill takes the nearest present value at or before the row;
      the row stays missing exactly when there is none. */
  lemma {:induction false} FfillNearest(s: Column, i: nat)
    requires i < |s|
    ensures FfillAt(s, i).None? <==> forall j :: 0 <= j <= i ==> s[j].None?
    ensures FfillAt(s, i).Some? ==>
              exists j :: 0 <= j <= i && s[j] == FfillAt(s, i) && forall m :: j < m <= i ==> s[m].None?
  {
    if s[i].None? && i > 0 {
      FfillNearest(s, i - 1);
      if FfillAt(s, i).Some? {
        var j :| 0 <= j <= i - 1 && s[j] == FfillAt(s, i - 1) && forall m :: j < m <= i - 1 ==> s[m].None?;
        assert forall m :: j < m <= i ==> s[m].None?;
      }
    }
  }

  /** The backward fill takes the nearest present value at or after the row;
      the row stays missing exactly when there is none. */
  lemma {:induction false} BfillNearest(s: Column, i: nat)
    requires i < |s|
    ensures BfillAt(s, i).None? <==> forall j :: i <= j < |s| ==> s[j].None?
    ensures BfillAt(s, i).Some? ==>
              exists j :: i <= j < |s| && s[j] == BfillAt(s, i) && forall m :: i <= m < j ==> s[m].None?
    decreases |s| - i
  {
    if s[i].None? && i < |s| - 1 {
      BfillNearest(s, i + 1);
      if BfillAt(s, i).Some? {
        var j :| i + 1 <= j < |s| && s[j] == BfillAt(s, i + 1) && forall m :: i + 1 <= m < j ==> s[m].None?;
        assert forall m :: i <= m < j ==> s[m].None?;
      }
    }
  }

  /** A present value is never overwritten by either fill. */
  lemma FillKeepsPresent(s: Column, i: nat)
    requires i < |s| && s[i].Some?
    ensures Ffill(s)[i] == s[i] && Bfill(s)[i] == s[i]
  {
  }

  /** After the forward and the backward fill a column has a gap only when
      it had no value at all. */
  lemma FillLeavesNoGap(s: Column)
    requires exists j :: 0 <= j < |s| && s[j].Some?
    ensures forall i :: 0 <= i < |s| ==> Bfill(Ffill(s))[i].Some?
  {
    var j :| 0 <= j < |s| && s[j].Some?;
    var t := Ffill(s);
    forall i | 0 <= i < |s| ensures Bfill(t)[i].Some? {
      FfillNearest(s, j);
      BfillNearest(t, i);
      if i <= j {
        assert t[j].Some?;
      } else {
        FfillNearest(s, i);
        assert t[i].Some?;
      }
    }
  }

  /** `fillna(method='ffill', inplace=True)` on one column. */
  method ForwardFill(a: array<Option<real>>)
    modifies a
    ensures a[..] == Ffill(old(a[..]))
  {
    ghost var s := a[..];
    if a.Length > 0 {
      for i := 1 to a.Length
        invariant forall k :: 0 <= k < i ==> a[k] == FfillAt(s, k)
        invariant forall k :: i <= k < a.Length ==> a[k] == s[k]
      {
        if a[i].None? {
          a[i] := a[i - 1];
        }
      }
    }
  }

  /** `fillna(method='bfill', inplace=True)` on one column. */
  method BackwardFill(a: array<Option<real>>)
    modifies a
    ensures a[..] == Bfill(old(a[..]))
  {
    ghost var s := a[..];
    if a.Length > 0 {
      var i := a.Length - 1;
      while i > 0
        invariant 0 <= i < a.Length
        invariant forall k :: i <= k < a.Length ==> a[k] == BfillAt(s, k)
        invariant forall k :: 0 <= k < i ==> a[k] == s[k]
      {
        i := i - 1;
        if a[i].None? {
          a[i] := a[i + 1];
        }
      }
    }
  }

  /** Both fills, in place, on a fresh copy of one column. */
  method FillGaps(s: Column) returns (t: Column)
    ensures t == Bfill(Ffill(s))
  {
    var a := new Option<real>[|s|](i requires 0 <= i < |s| => s[i]);
    assert a[..] == s;
    ForwardFill(a);
    BackwardFill(a);
    t := a[..];
  }

  // ---------------------------------------------------------------------
  // Dropping rows with no value
  // ---------------------------------------------------------------------

  predicate RowHasValue(f: Frame, i: nat)
    requires WellFormed(f) && i < f.rows
  {
    exists c :: c in f.columns && f.columns[c][i].Some?
  }

  /** The rows before `n` that hold at least one value, in order. */
  function KeptRows(f: Frame, n: nat): (idx: seq<nat>)
    requires WellFormed(f) && n <= f.rows
    ensures forall k :: 0 <= k < |idx| ==> idx[k] < n && RowHasValue(f, idx[k])
    ensures forall k, m :: 0 <= k < m < |idx| ==> idx[k] < idx[m]
    ensures forall i :: 0 <= i < n && RowHasValue(f, i) ==> i in idx
  {
    if n == 0 then []
    else
      var init := KeptRows(f, n - 1);
      if RowHasValue(f, n - 1) then init + [n - 1] else init
  }

  function Select(s: Column, idx: seq<nat>): (t: Column)
    requires forall k :: 0 <= k < |idx| ==> idx[k] < |s|
    ensures |t| == |idx|
    ensures forall k :: 0 <= k < |idx| ==> t[k] == s[idx[k]]
  {
    seq(|idx|, k requires 0 <= k < |idx| => s[idx[k]])
  }

  /** `dropna(how='all')`. */
  function DropEmptyRows(f: Frame): (g: Frame)
    requires WellFormed(f)
    ensures WellFormed(g) && g.columns.Keys == f.columns.Keys
  {
    var idx := KeptRows(f, f.rows);
    Frame(map c | c in f.columns :: Select(f.columns[c], idx), |idx|)
  }

  /** Every row that is left holds a value, and every row that held one is
      left, in the original order. */
  lemma DropEmptyRowsExact(f: Frame)
    requires WellFormed(f)
    ensures var g := DropEmptyRows(f);
            && (forall k :: 0 <= k < g.rows ==> RowHasValue(g, k))
            && g.rows == |KeptRows(f, f.rows)|
            && forall c, k :: c in f.columns && 0 <= k < g.rows ==> g.columns[c][k] == f.columns[c][KeptRows(f, f.rows)[k]]
  {
    var g := DropEmptyRows(f);
    var idx := KeptRows(f, f.rows);
    forall k | 0 <= k < g.rows ensures RowHasValue(g, k) {
      assert RowHasValue(f, idx[k]);
      var c :| c in f.columns && f.columns[c][idx[k]].Some?;
      assert g.columns[c][k] == f.columns[c][idx[k]];
    }
  }

  // ---------------------------------------------------------------------
  // clean_stock_data
  // ---------------------------------------------------------------------

  /** `df.empty`: no rows or no columns. */
  predicate Empty(f: Frame)
  {
    f.rows == 0 || f.columns == map[]
  }

  /** The cleaned frame: `None` and empty frames come back as they are;
      otherwise rows with no value are dropped and every column is filled
      forward, then backward. */
  function Cleaned(df: Option<Frame>): (r: Option<Frame>)
    requires df.Some? ==> WellFormed(df.value)
    ensures df.None? || Empty(df.value) ==> r == df
    ensures r.Some? ==> WellFormed(r.value) && r.value.columns.Keys == df.value.columns.Keys
  {
    if df.None? || Empty(df.value) then df
    else
      var g := DropEmptyRows(df.value);
      Some(Frame(Filled(g.columns), g.rows))
  }

  /** Every column filled forward, then backward. */
  function Filled(columns: map<string, Column>): (r: map<string, Column>)
    ensures r.Keys == columns.Keys
    ensures forall c :: c in r ==> |r[c]| == |columns[c]|
  {
    map c | c in columns :: Bfill(Ffill(columns[c]))
  }

  /** After cleaning, a column of a non-empty frame has a gap only when it
      has no value in any kept row, and every value of a kept row is kept. */
  lemma CleanedColumns(f: Frame, c: string)
    requires WellFormed(f) && !Empty(f) && c in f.columns
    ensures var g := DropEmptyRows(f);
            var r := Cleaned(Some(f)).value;
            && ((exists k :: 0 <= k < g.rows && g.columns[c][k].Some?) ==> forall k :: 0 <= k < r.rows ==> r.columns[c][k].Some?)
            && forall k :: 0 <= k < g.rows && g.columns[c][k].Some? ==> r.columns[c][k] == g.columns[c][k]
  {
    var g := DropEmptyRows(f);
    if exists k :: 0 <= k < g.rows && g.columns[c][k].Some? {
      FillLeavesNoGap(g.columns[c]);
    }
    forall k | 0 <= k < g.rows && g.columns[c][k].Some? ensures Bfill(Ffill(g.columns[c]))[k] == g.columns[c][k] {
      FillKeepsPresent(g.columns[c], k);
      FillKeepsPresent(Ffill(g.columns[c]), k);
    }
  }

  /** `clean_stock_data`: the fills run in place, column by column, on the
      copy with the empty rows dropped. */
  method CleanStockData(df: Option<Frame>) returns (r: Option<Frame>)
    requires df.Some? ==> WellFormed(df.value)
    ensures r == Cleaned(df)
  {
    if df.None? || Empty(df.value) {
      return df;
    }
    var g := DropEmptyRows(df.value);
    var cols := FillColumns(g.columns);
    r := Some(Frame(cols, g.rows));
  }

  /** The in-place fills of every column, in whatever order the columns
      come. */
  method FillColumns(columns: map<string, Column>) returns (cols: map<string, Column>)
    ensures cols == Filled(columns)
  {
    cols := columns;
    var todo := columns.Keys;
    while todo != {}
      invariant todo <= columns.Keys && cols.Keys == columns.Keys
      invariant forall c :: c in todo ==> cols[c] == columns[c]
      invariant forall c :: c in cols && c !in todo ==> cols[c] == Bfill(Ffill(columns[c]))
      decreases |todo|
    {
      var c :| c in todo;
      var filled := FillGaps(cols[c]);
      cols := cols[c := filled];
      todo := todo - {c};
    }
  }

  // ---------------------------------------------------------------------
  // Present values, min-max normalisation and outliers
  // ---------------------------------------------------------------------

  /** The present values of a column, in order (what pandas' reductions see). */
  function PresentValues(s: Column): (v: seq<real>)
    ensures |v| <= |s|
    ensures forall x :: x in v <==> Some(x) in s
  {
    if s == [] then []
    else
      var init := PresentValues(s[..|s| - 1]);
      assert s == s[..|s| - 1] + [s[|s| - 1]];
      if s[|s| - 1].Some? then init + [s[|s| - 1].value] else init
  }

  /** `(col - min) / (max - min)` when the column has two distinct values;
      otherwise the column is left as it is. */
  function NormalizedColumn(s: Column): (t: Column)
    ensures |t| == |s|
  {
    var v := PresentValues(s);
    if v == [] || Max(v) <= Min(v) then s
    else seq(|s|, i requires 0 <= i < |s| => if s[i].Some? then Some(Scale(s[i].value, Min(v), Max(v))) else None)
  }

  function Scale(x: real, lo: real, hi: real): real
    requires lo < hi
  {
    (x - lo) / (hi - lo)
  }

  /** Row `i` of the normalised column. */
  lemma NormalizedAt(s: Column, i: nat)
    requires i < |s|
    ensures var v := PresentValues(s);
            NormalizedColumn(s)[i] ==
              if v != [] && Max(v) > Min(v) && s[i].Some? then Some(Scale(s[i].value, Min(v), Max(v))) else s[i]
  {
  }

  /** A present value lies between the column's smallest and largest. */
  lemma PresentBetween(s: Column, i: nat)
    requires i < |s| && s[i].Some?
    ensures PresentValues(s) != [] && Min(PresentValues(s)) <= s[i].value <= Max(PresentValues(s))
  {
    var v := PresentValues(s);
    assert Some(s[i].value) in s;
    assert s[i].value in v;
  }

  lemma ScaleBounds(x: real, lo: real, hi: real)
    requires lo <= x <= hi && lo < hi
    ensures 0.0 <= Scale(x, lo, hi) <= 1.0
    ensures x == lo ==> Scale(x, lo, hi) == 0.0
    ensures x == hi ==> Scale(x, lo, hi) == 1.0
  {
    assert (x - lo) / (hi - lo) * (hi - lo) == x - lo;
  }

  /** A normalised column keeps its gaps, lies in [0, 1], and sends its
      smallest value to 0 and its largest to 1. */
  lemma NormalizedRange(s: Column, i: nat)
    requires i < |s|
    ensures var t := NormalizedColumn(s);
            && (t[i].Some? <==> s[i].Some?)
            && var v := PresentValues(s);
               v != [] && Max(v) > Min(v) && s[i].Some? ==>
                 && 0.0 <= t[i].value <= 1.0
                 && (s[i].value == Min(v) ==> t[i].value == 0.0)
                 && (s[i].value == Max(v) ==> t[i].value == 1.0)
  {
    var v := PresentValues(s);
    NormalizedAt(s, i);
    if v != [] && Max(v) > Min(v) && s[i].Some? {
      PresentBetween(s, i);
      ScaleBounds(s[i].value, Min(v), Max(v));
    }
  }

  lemma ScaleMonotone(x: real, y: real, lo: real, hi: real)
    requires x <= y && lo < hi
    ensures Scale(x, lo, hi) <= Scale(y, lo, hi)
  {
    assert (y - lo) / (hi - lo) - (x - lo) / (hi - lo) == (y - x) / (hi - lo);
  }

  /** Normalisation keeps the order of the values. */
  lemma NormalizedKeepsOrder(s: Column, i: nat, j: nat)
    requires i < |s| && j < |s| && s[i].Some? && s[j].Some? && s[i].value <= s[j].value
    ensures NormalizedColumn(s)[i].value <= NormalizedColumn(s)[j].value
  {
    var v := PresentValues(s);
    NormalizedAt(s, i);
    NormalizedAt(s, j);
    if v != [] && Max(v) > Min(v) {
      ScaleMonotone(s[i].value, s[j].value, Min(v), Max(v));
    }
  }

  /** Normalising twice is normalising once: the normalised column already
      runs from 0 to 1. */
  lemma NormalizedIdempotent(s: Column)
    ensures NormalizedColumn(NormalizedColumn(s)) == NormalizedColumn(s)
  {
    var v := PresentValues(s);
    var t := NormalizedColumn(s);
    if v != [] && Max(v) > Min(v) {
      NormalizedSpan(s);
      UnitColumnFixed(t);
    }
  }

  /** A column that already runs from 0 to 1 is left as it is. */
  lemma UnitColumnFixed(t: Column)
    requires var w := PresentValues(t); w != [] && Min(w) == 0.0 && Max(w) == 1.0
    ensures NormalizedColumn(t) == t
  {
    forall i | 0 <= i < |t| ensures NormalizedColumn(t)[i] == t[i] {
      if t[i].Some? {
        assert Scale(t[i].value, 0.0, 1.0) == t[i].value;
      }
    }
  }

  /** A normalised column with two distinct values runs from exactly 0 to
      exactly 1. */
  lemma NormalizedSpan(s: Column)
    requires PresentValues(s) != [] && Max(PresentValues(s)) > Min(PresentValues(s))
    ensures var w := PresentValues(NormalizedColumn(s));
            w != [] && Min(w) == 0.0 && Max(w) == 1.0
  {
    var v := PresentValues(s);
    var t := NormalizedColumn(s);
    var w := PresentValues(t);
    forall k | 0 <= k < |w| ensures 0.0 <= w[k] <= 1.0 {
      assert w[k] in w;
      var i :| 0 <= i < |t| && t[i] == Some(w[k]);
      NormalizedRange(s, i);
    }
    var a :| 0 <= a < |s| && s[a] == Some(Min(v));
    var b :| 0 <= b < |s| && s[b] == Some(Max(v));
    NormalizedRange(s, a);
    NormalizedRange(s, b);
    assert Some(0.0) == t[a] && Some(1.0) == t[b];
    ExtremesOf(w, 0.0, 1.0);
  }

  /** A sequence within [lo, hi] that holds both has them as its extremes. */
  lemma ExtremesOf(w: seq<real>, lo: real, hi: real)
    requires lo in w && hi in w
    requires forall k :: 0 <= k < |w| ==> lo <= w[k] <= hi
    ensures w != [] && Min(w) == lo && Max(w) == hi
  {
  }

  /** `normalize_data`: each listed column that exists is normalised in
      turn; a name listed twice is normalised twice, to the same result. */
  method NormalizeData(f: Frame, columns: seq<string>) returns (g: Frame)
    requires WellFormed(f)
    ensures NormalizedAs(f, g, columns)
  {
    g := f;
    for i := 0 to |columns|
      invariant NormalizedAs(f, g, columns[..i])
    {
      var col := columns[i];
      NormalizeStep(f, g, columns[..i], col);
      assert columns[..i + 1] == columns[..i] + [col];
      ghost var next := NormalizedOne(g, col);
      if col in g.columns {
        g := Frame(g.columns[col := NormalizedColumn(g.columns[col])], g.rows);
      }
      assert g == next;
    }
    assert columns[..|columns|] == columns;
  }

  /** The frame after one step of the loop. */
  function NormalizedOne(g: Frame, col: string): Frame
  {
    if col in g.columns then Frame(g.columns[col := NormalizedColumn(g.columns[col])], g.rows) else g
  }

  /** `g` is `f` with exactly the columns named in `done` normalised. */
  predicate NormalizedAs(f: Frame, g: Frame, done: seq<string>)
  {
    && WellFormed(f) && WellFormed(g) && g.rows == f.rows && g.columns.Keys == f.columns.Keys
    && forall c :: c in f.columns ==>
         g.columns[c] == if c in done then NormalizedColumn(f.columns[c]) else f.columns[c]
  }

  /** Normalising one more listed column extends the normalised set. */
  lemma NormalizeStep(f: Frame, g: Frame, done: seq<string>, col: string)
    requires NormalizedAs(f, g, done)
    ensures NormalizedAs(f, NormalizedOne(g, col), done + [col])
  {
    if col in g.columns && col in done {
      NormalizedIdempotent(f.columns[col]);
    }
  }

  /** Sum of squared deviations from `m`. */
  function SquaredDeviations(v: seq<real>, m: real): (d: real)
    ensures d >= 0.0
  {
    if v == [] then 0.0
    else
      var x := v[|v| - 1] - m;
      SquareNonNegative(x);
      SquaredDeviations(v[..|v| - 1], m) + x * x
  }

  lemma SquareNonNegative(x: real)
    ensures x * x >= 0.0
  {
  }

  /** `|x - m| / sqrt(variance) > t` without the square root: for `t >= 0` it
      is `(x - m)^2 > t^2 * variance`, and a negative `t` is exceeded by
      every score. */
  predicate Beyond(x: real, m: real, variance: real, t: real)
  {
    t < 0.0 || (x - m) * (x - m) > t * t * variance
  }

  /** `detect_outliers`: `len(df)` false flags for a missing column; fewer
      than two values or a zero deviation give NaN scores, which are never
      outliers; a missing value is never an outlier. */
  function DetectOutliers(f: Frame, column: string, threshold: real): (flags: seq<bool>)
    requires WellFormed(f)
    ensures |flags| == f.rows
    ensures column !in f.columns ==> forall i :: 0 <= i < |flags| ==> !flags[i]
    ensures column in f.columns ==> forall i :: 0 <= i < |flags| && f.columns[column][i].None? ==> !flags[i]
    ensures column in f.columns && |PresentValues(f.columns[column])| < 2 ==>
              forall i :: 0 <= i < |flags| ==> !flags[i]
  {
    if column !in f.columns then seq(f.rows, i => false)
    else
      var s := f.columns[column];
      var v := PresentValues(s);
      if |v| < 2 || Variance(v) == 0.0 then seq(f.rows, i => false)
      else seq(f.rows, i requires 0 <= i < f.rows => s[i].Some? && Beyond(s[i].value, Mean(v), Variance(v), threshold))
  }

  /** The sample variance (`ddof=1`), the square of pandas' `std()`. */
  function Variance(v: seq<real>): (r: real)
    requires |v| >= 2
    ensures r >= 0.0
  {
    SquaredDeviations(v, Mean(v)) / (|v| - 1) as real
  }

  lemma SquareMonotone(a: real, b: real)
    requires 0.0 <= a <= b
    ensures a * a <= b * b
  {
    assert a * a <= a * b;
  }

  /** A value at least as far from the mean as an outlier is an outlier. */
  lemma OutliersAreFarthest(f: Frame, column: string, threshold: real, i: nat, j: nat)
    requires WellFormed(f) && column in f.columns && i < f.rows && j < f.rows
    requires DetectOutliers(f, column, threshold)[i]
    requires f.columns[column][j].Some?
    requires var m := Mean(PresentValues(f.columns[column]));
             Abs(f.columns[column][j].value - m) >= Abs(f.columns[column][i].value - m)
    ensures DetectOutliers(f, column, threshold)[j]
  {
    var v := PresentValues(f.columns[column]);
    BeyondFarther(f.columns[column][i].value, f.columns[column][j].value, Mean(v), Variance(v), threshold);
  }

  lemma BeyondFarther(x: real, y: real, m: real, variance: real, t: real)
    requires Beyond(x, m, variance, t) && Abs(y - m) >= Abs(x - m)
    ensures Beyond(y, m, variance, t)
  {
    var a, b := Abs(x - m), Abs(y - m);
    SquareMonotone(a, b);
    assert a * a == (x - m) * (x - m);
    assert b * b == (y - m) * (y - m);
  }

  function Abs(x: real): real { if x < 0.0 then -x else x }

  /** With a positive standard deviation, the flag is exactly pandas'
      z-score test `|x - mean| / std > threshold`. */
  lemma DetectOutliersZScore(f: Frame, column: string, threshold: real, i: nat, std: real)
    requires WellFormed(f) && column in f.columns && i < f.rows
    requires |PresentValues(f.columns[column])| >= 2
    requires std > 0.0 && std * std == Variance(PresentValues(f.columns[column]))
    ensures DetectOutliers(f, column, threshold)[i]
        <==> f.columns[column][i].Some?
             && Abs(f.columns[column][i].value - Mean(PresentValues(f.columns[column]))) / std > threshold
  {
    var s := f.columns[column];
    var v := PresentValues(s);
    PositiveSquareNotZero(std, Variance(v));
    var flags := DetectOutliers(f, column, threshold);
    assert flags[i] == (s[i].Some? && Beyond(s[i].value, Mean(v), Variance(v), threshold));
    if s[i].Some? {
      BeyondIsZScore(s[i].value, Mean(v), std, threshold);
    }
  }

  lemma ProductPositive(x: real, y: real)
    requires x > 0.0 && y > 0.0
    ensures x * y > 0.0
  {
  }

  lemma PositiveSquareNotZero(std: real, w: real)
    requires std > 0.0 && std * std == w
    ensures w != 0.0
  {
    calc {
      w;
    ==
      std * std;
    >  { ProductPositive(std, std); }
      0.0;
    }
  }

  lemma SquareStrict(a: real, b: real)
    requires 0.0 <= b < a
    ensures b * b < a * a
  {
    ProductPositive(a - b, a + b);
    assert a * a - b * b == (a - b) * (a + b);
  }

  /** `Beyond` on the variance `std * std` is the z-score test. */
  lemma BeyondIsZScore(x: real, m: real, std: real, t: real)
    requires std > 0.0
    ensures Beyond(x, m, std * std, t) <==> Abs(x - m) / std > t
  {
    var a := Abs(x - m);
    assert a * a == (x - m) * (x - m);
    assert a / std > t <==> a > t * std;
    if t >= 0.0 {
      var b := t * std;
      assert b >= 0.0 by {
        if t > 0.0 {
          ProductPositive(t, std);
        }
      }
      assert b * b == t * t * (std * std);
      if a > b {
        SquareStrict(a, b);
      } else {
        SquareMonotone(a, b);
      }
    }
  }

  /** A column whose values are all equal has no outlier. */
  lemma ConstantColumnNoOutliers(f: Frame, column: string, threshold: real, c: real)
    requires WellFormed(f) && column in f.columns
    requires forall i :: 0 <= i < f.rows && f.columns[column][i].Some? ==> f.columns[column][i].value == c
    ensures forall i :: 0 <= i < f.rows ==> !DetectOutliers(f, column, threshold)[i]
  {
    var v := PresentValues(f.columns[column]);
    if |v| >= 2 {
      forall k | 0 <= k < |v| ensures v[k] == c {
        assert v[k] in v;
      }
      MeanConstant(v, c);
      SquaredDeviationsZero(v, c);
    }
  }

  lemma {:induction false} SquaredDeviationsZero(v: seq<real>, m: real)
    requires forall k :: 0 <= k < |v| ==> v[k] == m
    ensures SquaredDeviations(v, m) == 0.0
  {
    if v != [] {
      SquaredDeviationsZero(v[..|v| - 1], m);
    }
  }

  // ---------------------------------------------------------------------
  // Aggregation to periods
  // ---------------------------------------------------------------------

  /** One daily row: its date and the five price columns. */
  datatype Bar = Bar(date: int, open: Option<real>, high: Option<real>, low: Option<real>,
                     close: Option<real>, volume: Option<real>)

  /** One aggregated row; a column the input lacks is `None` throughout. */
  datatype PeriodBar = PeriodBar(period: int, open: Option<real>, high: Option<real>, low: Option<real>,
                                 close: Option<real>, volume: Option<real>)

  function OpenOf(b: Bar): Option<real> { b.open }
  function HighOf(b: Bar): Option<real> { b.high }
  function LowOf(b: Bar): Option<real> { b.low }
  function CloseOf(b: Bar): Option<real> { b.close }
  function VolumeOf(b: Bar): Option<real> { b.volume }

  /** The rows falling in period `p`, in order. */
  function Group(rows: seq<Bar>, period: int -> int, p: int): (g: seq<Bar>)
    ensures forall k :: 0 <= k < |g| ==> period(g[k].date) == p
  {
    if rows == [] then []
    else
      var last := rows[|rows| - 1];
      Group(rows[..|rows| - 1], period, p) + (if period(last.date) == p then [last] else [])
  }

  /** A single row is its period's group exactly when it falls in the period. */
  lemma GroupOne(b: Bar, period: int -> int, p: int)
    ensures Group([b], period, p) == if period(b.date) == p then [b] else []
  {
    assert [b][..0] == [];
  }

  /** A period's group keeps the rows in their original order: the group of a
      concatenation is the group of each part, one after the other. */
  lemma {:induction false} GroupAppend(a: seq<Bar>, b: seq<Bar>, period: int -> int, p: int)
    ensures Group(a + b, period, p) == Group(a, period, p) + Group(b, period, p)
    decreases |b|
  {
    if b == [] {
      assert a + b == a;
    } else {
      var b' := b[..|b| - 1];
      assert (a + b)[..|a + b| - 1] == a + b';
      assert (a + b)[|a + b| - 1] == b[|b| - 1];
      GroupAppend(a, b', period, p);
    }
  }

  /** `'first'`: the first present value. */
  function FirstPresent(g: seq<Bar>, field: Bar -> Option<real>): (r: Option<real>)
    ensures r.None? <==> forall k :: 0 <= k < |g| ==> field(g[k]).None?
  {
    if g == [] then None
    else if field(g[0]).Some? then field(g[0])
    else
      assert forall k :: 1 <= k < |g| ==> g[1..][k - 1] == g[k];
      FirstPresent(g[1..], field)
  }

  /** The first present value comes from a row with no present value
      before it. */
  lemma {:induction false} FirstPresentIsFirst(g: seq<Bar>, field: Bar -> Option<real>)
    requires FirstPresent(g, field).Some?
    ensures exists k :: 0 <= k < |g| && field(g[k]) == FirstPresent(g, field)
                        && forall j :: 0 <= j < k ==> field(g[j]).None?
  {
    if field(g[0]).None? {
      var r := FirstPresent(g, field);
      FirstPresentIsFirst(g[1..], field);
      var k :| 0 <= k < |g[1..]| && field(g[1..][k]) == r && forall j :: 0 <= j < k ==> field(g[1..][j]).None?;
      assert field(g[k + 1]) == r;
      assert forall j :: 0 <= j < k + 1 ==> field(g[j]).None? by {
        forall j | 0 <= j < k + 1 ensures field(g[j]).None? {
          if j > 0 { assert g[j] == g[1..][j - 1]; }
        }
      }
    }
  }

  /** `'last'`: the last present value. */
  function LastPresent(g: seq<Bar>, field: Bar -> Option<real>): (r: Option<real>)
    ensures r.None? <==> forall k :: 0 <= k < |g| ==> field(g[k]).None?
  {
    if g == [] then None
    else if field(g[|g| - 1]).Some? then field(g[|g| - 1])
    else
      var init := g[..|g| - 1];
      assert forall k :: 0 <= k < |init| ==> init[k] == g[k];
      LastPresent(init, field)
  }

  /** The last present value comes from a row with no present value after
      it. */
  lemma {:induction false} LastPresentIsLast(g: seq<Bar>, field: Bar -> Option<real>)
    requires LastPresent(g, field).Some?
    ensures exists k :: 0 <= k < |g| && field(g[k]) == LastPresent(g, field)
                        && forall j :: k < j < |g| ==> field(g[j]).None?
  {
    var n := |g| - 1;
    if field(g[n]).None? {
      var init := g[..n];
      var r := LastPresent(g, field);
      assert LastPresent(init, field) == r;
      LastPresentIsLast(init, field);
      var k :| 0 <= k < |init| && field(init[k]) == r && forall j :: k < j < |init| ==> field(init[j]).None?;
      assert field(g[k]) == r;
      forall j | k < j < |g| ensures field(g[j]).None? {
        if j < n { assert g[j] == init[j]; }
      }
    }
  }

  /** `'max'`: the largest present value. */
  function MaxPresent(g: seq<Bar>, field: Bar -> Option<real>): (r: Option<real>)
    ensures r.None? <==> forall k :: 0 <= k < |g| ==> field(g[k]).None?
  {
    if g == [] then None
    else
      var init := g[..|g| - 1];
      var r := MaxPresent(init, field);
      var x := field(g[|g| - 1]);
      assert forall k :: 0 <= k < |init| ==> init[k] == g[k];
      if x.None? then r
      else if r.None? || x.value > r.value then x
      else r
  }

  /** No present value exceeds the maximum. */
  lemma {:induction false} MaxPresentBounds(g: seq<Bar>, field: Bar -> Option<real>, k: nat)
    requires k < |g| && field(g[k]).Some?
    ensures MaxPresent(g, field).Some? && field(g[k]).value <= MaxPresent(g, field).value
  {
    var n := |g| - 1;
    var init := g[..n];
    if k < n {
      assert init[k] == g[k];
      MaxPresentBounds(init, field, k);
    }
  }

  /** The maximum is one of the present values. */
  lemma {:induction false} MaxPresentAttained(g: seq<Bar>, field: Bar -> Option<real>)
    requires MaxPresent(g, field).Some?
    ensures exists k :: 0 <= k < |g| && field(g[k]) == MaxPresent(g, field)
  {
    var n := |g| - 1;
    var init := g[..n];
    var r := MaxPresent(init, field);
    var x := field(g[n]);
    if x.Some? && (r.None? || x.value > r.value) {
      assert field(g[n]) == MaxPresent(g, field);
    } else {
      MaxPresentAttained(init, field);
      var k :| 0 <= k < |init| && field(init[k]) == r;
      assert init[k] == g[k];
    }
  }

  /** `'min'`: the smallest present value. */
  function MinPresent(g: seq<Bar>, field: Bar -> Option<real>): (r: Option<real>)
    ensures r.None? <==> forall k :: 0 <= k < |g| ==> field(g[k]).None?
  {
    if g == [] then None
    else
      var init := g[..|g| - 1];
      var r := MinPresent(init, field);
      var x := field(g[|g| - 1]);
      assert forall k :: 0 <= k < |init| ==> init[k] == g[k];
      if x.None? then r
      else if r.None? || x.value < r.value then x
      else r
  }

  /** No present value is below the minimum. */
  lemma {:induction false} MinPresentBounds(g: seq<Bar>, field: Bar -> Option<real>, k: nat)
    requires k < |g| && field(g[k]).Some?
    ensures MinPresent(g, field).Some? && MinPresent(g, field).value <= field(g[k]).value
  {
    var n := |g| - 1;
    var init := g[..n];
    if k < n {
      assert init[k] == g[k];
      MinPresentBounds(init, field, k);
    }
  }

  /** The minimum is one of the present values. */
  lemma {:induction false} MinPresentAttained(g: seq<Bar>, field: Bar -> Option<real>)
    requires MinPresent(g, field).Some?
    ensures exists k :: 0 <= k < |g| && field(g[k]) == MinPresent(g, field)
  {
    var n := |g| - 1;
    var init := g[..n];
    var r := MinPresent(init, field);
    var x := field(g[n]);
    if x.Some? && (r.None? || x.value < r.value) {
      assert field(g[n]) == MinPresent(g, field);
    } else {
      MinPresentAttained(init, field);
      var k :| 0 <= k < |init| && field(init[k]) == r;
      assert init[k] == g[k];
    }
  }

  /** `'sum'` of the volume column: the sum of the present volumes, 0 for
      none. */
  function SumVolume(g: seq<Bar>): real
  {
    if g == [] then 0.0 else SumVolume(g[..|g| - 1]) + Volume(g[|g| - 1])
  }

  /** The smallest and largest period of the rows. */
  function FirstPeriod(rows: seq<Bar>, period: int -> int): (lo: int)
    requires rows != []
    ensures forall k :: 0 <= k < |rows| ==> lo <= period(rows[k].date)
  {
    if |rows| == 1 then period(rows[0].date)
    else
      var init := rows[..|rows| - 1];
      var m := FirstPeriod(init, period);
      assert forall k :: 0 <= k < |init| ==> init[k] == rows[k];
      var p := period(rows[|rows| - 1].date);
      if p < m then p else m
  }

  function LastPeriod(rows: seq<Bar>, period: int -> int): (hi: int)
    requires rows != []
    ensures forall k :: 0 <= k < |rows| ==> period(rows[k].date) <= hi
    ensures hi >= FirstPeriod(rows, period)
  {
    if |rows| == 1 then period(rows[0].date)
    else
      var init := rows[..|rows| - 1];
      var m := LastPeriod(init, period);
      assert forall k :: 0 <= k < |init| ==> init[k] == rows[k];
      var p := period(rows[|rows| - 1].date);
      if p > m then p else m
  }

  /** The aggregated row of period `p`, with only the columns in `has`. */
  function PeriodRow(rows: seq<Bar>, has: set<string>, period: int -> int, p: int): (b: PeriodBar)
    ensures b.period == p
  {
    var g := Group(rows, period, p);
    PeriodBar(p,
      if "open" in has then FirstPresent(g, OpenOf) else None,
      if "high" in has then MaxPresent(g, HighOf) else None,
      if "low" in has then MinPresent(g, LowOf) else None,
      if "close" in has then LastPresent(g, CloseOf) else None,
      if "volume" in has then Some(SumVolume(g)) else None)
  }

  /** `aggregate_to_period`: one row per period from the first to the last,
      empty periods included; `period` maps a date to its period. */
  function AggregateToPeriod(rows: seq<Bar>, has: set<string>, period: int -> int): (r: seq<PeriodBar>)
    ensures rows == [] ==> r == []
    ensures rows != [] ==>
      && |r| == LastPeriod(rows, period) - FirstPeriod(rows, period) + 1
      && forall k :: 0 <= k < |r| ==> r[k].period == FirstPeriod(rows, period) + k
  {
    if rows == [] then []
    else
      var lo, hi := FirstPeriod(rows, period), LastPeriod(rows, period);
      Periods(rows, has, period, lo, hi - lo + 1)
  }

  /** The rows of periods `lo .. lo + n - 1`. */
  function Periods(rows: seq<Bar>, has: set<string>, period: int -> int, lo: int, n: nat): (r: seq<PeriodBar>)
    ensures |r| == n
    ensures forall k :: 0 <= k < n ==> r[k].period == lo + k
  {
    if n == 0 then []
    else Periods(rows, has, period, lo, n - 1) + [PeriodRow(rows, has, period, lo + n - 1)]
  }

  lemma {:induction false} PeriodsAt(rows: seq<Bar>, has: set<string>, period: int -> int, lo: int, n: nat, k: nat)
    requires k < n
    ensures Periods(rows, has, period, lo, n)[k] == PeriodRow(rows, has, period, lo + k)
  {
    var r := Periods(rows, has, period, lo, n - 1);
    var b := PeriodRow(rows, has, period, lo + n - 1);
    assert Periods(rows, has, period, lo, n) == r + [b];
    if k < n - 1 {
      PeriodsAt(rows, has, period, lo, n - 1, k);
      SnocAt(r, b, k);
    }
  }

  lemma SnocAt<T>(s: seq<T>, x: T, k: nat)
    requires k < |s|
    ensures (s + [x])[k] == s[k]
  {
  }

  /** Row `k` of the result aggregates the rows of period `first + k`. */
  lemma AggregatedRow(rows: seq<Bar>, has: set<string>, period: int -> int, k: nat)
    requires rows != [] && k < |AggregateToPeriod(rows, has, period)|
    ensures AggregateToPeriod(rows, has, period)[k] == PeriodRow(rows, has, period, FirstPeriod(rows, period) + k)
  {
    var lo, hi := FirstPeriod(rows, period), LastPeriod(rows, period);
    PeriodsAt(rows, has, period, lo, hi - lo + 1, k);
  }

  /** Every row falls in one of the aggregated periods. */
  lemma EveryRowHasItsPeriod(rows: seq<Bar>, has: set<string>, period: int -> int, i: nat)
    requires i < |rows|
    ensures var r := AggregateToPeriod(rows, has, period);
            exists k :: 0 <= k < |r| && r[k].period == period(rows[i].date) && rows[i] in Group(rows, period, r[k].period)
  {
    var r := AggregateToPeriod(rows, has, period);
    var k := period(rows[i].date) - FirstPeriod(rows, period);
    assert r[k].period == period(rows[i].date);
    GroupHasRow(rows, period, i);
  }

  lemma {:induction false} GroupHasRow(rows: seq<Bar>, period: int -> int, i: nat)
    requires i < |rows|
    ensures rows[i] in Group(rows, period, period(rows[i].date))
  {
    var n := |rows| - 1;
    if i < n {
      GroupHasRow(rows[..n], period, i);
    }
  }

  /** When every row's high is at least its low, a period with a row having
      both has an aggregated high at least its aggregated low. */
  lemma PeriodHighAboveLow(rows: seq<Bar>, has: set<string>, period: int -> int, p: int)
    requires "high" in has && "low" in has
    requires forall i :: 0 <= i < |rows| && rows[i].high.Some? && rows[i].low.Some? ==> rows[i].low.value <= rows[i].high.value
    requires var g := Group(rows, period, p);
             exists j :: 0 <= j < |g| && g[j].high.Some? && g[j].low.Some?
    ensures var b := PeriodRow(rows, has, period, p);
            b.high.Some? && b.low.Some? && b.low.value <= b.high.value
  {
    GroupFromRows(rows, period, p);
    GroupHighAboveLow(Group(rows, period, p));
  }

  lemma GroupHighAboveLow(g: seq<Bar>)
    requires forall i :: 0 <= i < |g| && g[i].high.Some? && g[i].low.Some? ==> g[i].low.value <= g[i].high.value
    requires exists j :: 0 <= j < |g| && g[j].high.Some? && g[j].low.Some?
    ensures MaxPresent(g, HighOf).Some? && MinPresent(g, LowOf).Some?
    ensures MinPresent(g, LowOf).value <= MaxPresent(g, HighOf).value
  {
    var j :| 0 <= j < |g| && g[j].high.Some? && g[j].low.Some?;
    assert HighOf(g[j]).Some? && LowOf(g[j]).Some?;
    MaxPresentBounds(g, HighOf, j);
    MinPresentBounds(g, LowOf, j);
  }

  lemma {:induction false} GroupFromRows(rows: seq<Bar>, period: int -> int, p: int)
    ensures forall k :: 0 <= k < |Group(rows, period, p)| ==> Group(rows, period, p)[k] in rows
  {
    if rows != [] {
      var init := rows[..|rows| - 1];
      GroupFromRows(init, period, p);
      assert forall x :: x in init ==> x in rows;
    }
  }

  /** The volume of one row, zero when missing. */
  function Volume(x: Bar): real
  {
    if x.volume.Some? then x.volume.value else 0.0
  }

  /** Volume of the rows whose period lies in `lo .. lo + n - 1`. */
  function VolumeIn(rows: seq<Bar>, period: int -> int, lo: int, n: nat): real
  {
    if rows == [] then 0.0
    else
      var last := rows[|rows| - 1];
      VolumeIn(rows[..|rows| - 1], period, lo, n) + (if lo <= period(last.date) < lo + n then Volume(last) else 0.0)
  }

  lemma SplitIndicator(q: int, lo: int, n: nat, a: real)
    requires n > 0
    ensures (if lo <= q < lo + n then a else 0.0)
            == (if lo <= q < lo + n - 1 then a else 0.0) + (if lo + n - 1 <= q < lo + n - 1 + 1 then a else 0.0)
  {
  }

  /** The last period of a range can be split off. */
  lemma {:induction false} VolumeInSplit(rows: seq<Bar>, period: int -> int, lo: int, n: nat)
    requires n > 0
    ensures VolumeIn(rows, period, lo, n) == VolumeIn(rows, period, lo, n - 1) + VolumeIn(rows, period, lo + n - 1, 1)
  {
    if rows != [] {
      var last := rows[|rows| - 1];
      VolumeInSplit(rows[..|rows| - 1], period, lo, n);
      SplitIndicator(period(last.date), lo, n, Volume(last));
    }
  }

  /** An empty range of periods holds no volume. */
  lemma {:induction false} VolumeInNone(rows: seq<Bar>, period: int -> int, lo: int)
    ensures VolumeIn(rows, period, lo, 0) == 0.0
  {
    if rows != [] {
      VolumeInNone(rows[..|rows| - 1], period, lo);
    }
  }

  /** The volume of one period's group is the volume of the rows in that
      period. */
  lemma {:induction false} GroupVolume(rows: seq<Bar>, period: int -> int, p: int)
    ensures SumVolume(Group(rows, period, p)) == VolumeIn(rows, period, p, 1)
  {
    if rows != [] {
      var init := rows[..|rows| - 1];
      var last := rows[|rows| - 1];
      GroupVolume(init, period, p);
      var g := Group(init, period, p);
      if period(last.date) == p {
        assert Group(rows, period, p) == g + [last];
        SumVolumeSnoc(g, last);
      } else {
        assert Group(rows, period, p) == g;
      }
    }
  }

  lemma SumVolumeSnoc(g: seq<Bar>, x: Bar)
    ensures SumVolume(g + [x]) == SumVolume(g) + Volume(x)
  {
    assert (g + [x])[..|g|] == g;
  }

  /** A range covering every row's period holds the total volume. */
  lemma {:induction false} VolumeInAll(rows: seq<Bar>, period: int -> int, lo: int, n: nat)
    requires forall i :: 0 <= i < |rows| ==> lo <= period(rows[i].date) < lo + n
    ensures VolumeIn(rows, period, lo, n) == SumVolume(rows)
  {
    if rows != [] {
      var init := rows[..|rows| - 1];
      assert forall i :: 0 <= i < |init| ==> init[i] == rows[i];
      VolumeInAll(init, period, lo, n);
    }
  }

  /** The volume column of the aggregated frame, zero where missing. */
  function PeriodVolumes(r: seq<PeriodBar>): (v: seq<real>)
    ensures |v| == |r|
  {
    if r == [] then []
    else
      var b := r[|r| - 1];
      PeriodVolumes(r[..|r| - 1]) + [if b.volume.Some? then b.volume.value else 0.0]
  }

  /** The aggregated volumes add up to the total volume: every row's volume
      lands in exactly one period. */
  lemma VolumeConserved(rows: seq<Bar>, has: set<string>, period: int -> int)
    requires "volume" in has && rows != []
    ensures Sum(PeriodVolumes(AggregateToPeriod(rows, has, period))) == SumVolume(rows)
  {
    var lo, hi := FirstPeriod(rows, period), LastPeriod(rows, period);
    AggregateIsPeriods(rows, has, period);
    RowsWithinPeriods(rows, period);
    PeriodsCoverAll(rows, has, period, lo, hi - lo + 1);
  }

  lemma AggregateIsPeriods(rows: seq<Bar>, has: set<string>, period: int -> int)
    requires rows != []
    ensures AggregateToPeriod(rows, has, period)
         == Periods(rows, has, period, FirstPeriod(rows, period),
                    LastPeriod(rows, period) - FirstPeriod(rows, period) + 1)
  {
  }

  lemma RowsWithinPeriods(rows: seq<Bar>, period: int -> int)
    requires rows != []
    ensures var lo := FirstPeriod(rows, period);
            forall i :: 0 <= i < |rows| ==>
              lo <= period(rows[i].date) < lo + (LastPeriod(rows, period) - lo + 1)
  {
  }

  /** Periods covering every row carry the total volume. */
  lemma PeriodsCoverAll(rows: seq<Bar>, has: set<string>, period: int -> int, lo: int, n: nat)
    requires "volume" in has
    requires forall i :: 0 <= i < |rows| ==> lo <= period(rows[i].date) < lo + n
    ensures Sum(PeriodVolumes(Periods(rows, has, period, lo, n))) == SumVolume(rows)
  {
    PeriodsGroupVolumes(rows, has, period, lo, n);
    GroupVolumesSum(rows, period, lo, n);
    VolumeInAll(rows, period, lo, n);
  }

  /** The group volumes of periods `lo .. lo + n - 1`. */
  function GroupVolumes(rows: seq<Bar>, period: int -> int, lo: int, n: nat): (v: seq<real>)
    ensures |v| == n
  {
    if n == 0 then [] else GroupVolumes(rows, period, lo, n - 1) + [SumVolume(Group(rows, period, lo + n - 1))]
  }

  /** The volume column of the aggregated periods lists each period's group
      volume. */
  lemma {:induction false} PeriodsGroupVolumes(rows: seq<Bar>, has: set<string>, period: int -> int, lo: int, n: nat)
    requires "volume" in has
    ensures PeriodVolumes(Periods(rows, has, period, lo, n)) == GroupVolumes(rows, period, lo, n)
  {
    if n > 0 {
      var r := Periods(rows, has, period, lo, n - 1);
      PeriodsGroupVolumes(rows, has, period, lo, n - 1);
      assert (r + [PeriodRow(rows, has, period, lo + n - 1)])[..n - 1] == r;
    }
  }

  /** The group volumes add up to the volume of the rows in the range. */
  lemma GroupVolumesSum(rows: seq<Bar>, period: int -> int, lo: int, n: nat)
    ensures Sum(GroupVolumes(rows, period, lo, n)) == VolumeIn(rows, period, lo, n)
  {
    var v := GroupVolumes(rows, period, lo, n);
    forall k | 0 <= k < n ensures v[k] == VolumeIn(rows, period, lo + k, 1) {
      GroupVolumeAt(rows, period, lo, n, k);
    }
    PerPeriodSum(v, rows, period, lo);
  }

  /** The k-th group volume is the volume of the one-period range `lo + k`. */
  lemma GroupVolumeAt(rows: seq<Bar>, period: int -> int, lo: int, n: nat, k: nat)
    requires k < n
    ensures GroupVolumes(rows, period, lo, n)[k] == VolumeIn(rows, period, lo + k, 1)
  {
    GroupVolumesAt(rows, period, lo, n, k);
    GroupVolume(rows, period, lo + k);
  }

  lemma {:induction false} GroupVolumesAt(rows: seq<Bar>, period: int -> int, lo: int, n: nat, k: nat)
    requires k < n
    ensures GroupVolumes(rows, period, lo, n)[k] == SumVolume(Group(rows, period, lo + k))
  {
    GroupVolumesSnoc(rows, period, lo, n);
    if k < n - 1 {
      GroupVolumesAt(rows, period, lo, n - 1, k);
      GroupVolumesPrefix(rows, period, lo, n, k);
    }
  }

  /** Extending the range keeps the earlier entries. */
  lemma GroupVolumesPrefix(rows: seq<Bar>, period: int -> int, lo: int, n: nat, k: nat)
    requires k < n - 1
    ensures GroupVolumes(rows, period, lo, n)[k] == GroupVolumes(rows, period, lo, n - 1)[k]
  {
    var v := GroupVolumes(rows, period, lo, n - 1);
    GroupVolumesSnoc(rows, period, lo, n);
    SnocAt(v, SumVolume(Group(rows, period, lo + n - 1)), k);
  }

  lemma GroupVolumesSnoc(rows: seq<Bar>, period: int -> int, lo: int, n: nat)
    requires n > 0
    ensures GroupVolumes(rows, period, lo, n)
         == GroupVolumes(rows, period, lo, n - 1) + [SumVolume(Group(rows, period, lo + n - 1))]
  {
  }

  /** Per-period volumes over `lo .. lo + |v| - 1` add up to the volume of
      the rows in that range. */
  lemma {:induction false} PerPeriodSum(v: seq<real>, rows: seq<Bar>, period: int -> int, lo: int)
    requires forall k :: 0 <= k < |v| ==> v[k] == VolumeIn(rows, period, lo + k, 1)
    ensures Sum(v) == VolumeIn(rows, period, lo, |v|)
  {
    if v == [] {
      VolumeInNone(rows, period, lo);
    } else {
      var n := |v|;
      var w := v[..n - 1];
      assert forall k :: 0 <= k < |w| ==> w[k] == v[k];
      PerPeriodSum(w, rows, period, lo);
      VolumeInSplit(rows, period, lo, n);
    }
  }
}
