/** The portfolio holdings table: a dictionary keyed by ticker (kept here as
    a sequence in the dictionary's insertion order), insert-or-overwrite and
    remove, the summary totals, the allocation table, and the weighted
    metrics that add a `weight` column to the caller's frame. */
module PortfolioTracker {
  import opened Common
  import opened Sorting

  /** One holding record, as `add_holding` stores it. */
  datatype Holding = Holding(
    ticker: string,
    quantity: real,
    purchasePrice: real,
    currentPrice: real,
    costBasis: real,
    currentValue: real,
    gainLoss: real,
    gainLossPct: real)

  /** The derived fields of a holding agree with its inputs. */
  predicate WellFormed(h: Holding)
  {
    && h.costBasis == h.quantity * h.purchasePrice
    && h.currentValue == h.quantity * h.currentPrice
    && h.gainLoss == (h.currentPrice - h.purchasePrice) * h.quantity
    && h.purchasePrice != 0.0
    && h.gainLossPct == (h.currentPrice - h.purchasePrice) / h.purchasePrice * 100.0
  }

  /** The record `add_holding` builds; a zero purchase price raises
      `ZeroDivisionError` before anything is stored (`None`). */
  function MakeHolding(ticker: string, quantity: real, purchasePrice: real, currentPrice: real): (r: Option<Holding>)
    ensures r.None? <==> purchasePrice == 0.0
    ensures r.Some? ==> WellFormed(r.value)
    ensures r.Some? ==>
      && r.value.ticker == ticker && r.value.quantity == quantity
      && r.value.purchasePrice == purchasePrice && r.value.currentPrice == currentPrice
    ensures r.Some? ==> r.value.gainLoss == r.value.currentValue - r.value.costBasis
  {
    if purchasePrice == 0.0 then None
    else Some(Holding(ticker, quantity, purchasePrice, currentPrice,
                      quantity * purchasePrice, quantity * currentPrice,
                      (currentPrice - purchasePrice) * quantity,
                      (currentPrice - purchasePrice) / purchasePrice * 100.0))
  }

  // ---------------------------------------------------------------------
  // The dictionary
  // ---------------------------------------------------------------------

  predicate UniqueTickers(hs: seq<Holding>)
  {
    forall i, j :: 0 <= i < j < |hs| ==> hs[i].ticker != hs[j].ticker
  }

  /** `holdings.get(ticker)`. */
  function Find(hs: seq<Holding>, ticker: string): (r: Option<Holding>)
    ensures r.Some? ==> r.value in hs && r.value.ticker == ticker
    ensures r.None? <==> forall i :: 0 <= i < |hs| ==> hs[i].ticker != ticker
  {
    if hs == [] then None
    else if hs[0].ticker == ticker then Some(hs[0])
    else
      var r := Find(hs[1..], ticker);
      assert forall i :: 1 <= i < |hs| ==> hs[i] == hs[1..][i - 1];
      r
  }

  /** `holdings[h.ticker] = h`: overwrite in place, or append a new key. */
  function Upsert(hs: seq<Holding>, h: Holding): (r: seq<Holding>)
    ensures h in r
    ensures |hs| <= |r| <= |hs| + 1
  {
    if hs == [] then [h]
    else if hs[0].ticker == h.ticker then [h] + hs[1..]
    else [hs[0]] + Upsert(hs[1..], h)
  }

  /** `del holdings[ticker]`. */
  function Remove(hs: seq<Holding>, ticker: string): (r: seq<Holding>)
    ensures |r| <= |hs|
    ensures forall x :: x in r ==> x in hs && x.ticker != ticker
  {
    if hs == [] then []
    else if hs[0].ticker == ticker then Remove(hs[1..], ticker)
    else [hs[0]] + Remove(hs[1..], ticker)
  }

  /** After an upsert the key maps to the new record and every other key is
      unchanged. */
  lemma {:induction false} UpsertFind(hs: seq<Holding>, h: Holding)
    ensures Find(Upsert(hs, h), h.ticker) == Some(h)
    ensures forall t :: t != h.ticker ==> Find(Upsert(hs, h), t) == Find(hs, t)
  {
    if hs != [] && hs[0].ticker != h.ticker {
      UpsertFind(hs[1..], h);
      var r := Upsert(hs, h);
      assert r[1..] == Upsert(hs[1..], h);
    } else if hs != [] {
      assert Upsert(hs, h)[1..] == hs[1..];
    }
  }

  /** Every record after an upsert is the new one or an old one. */
  lemma {:induction false} UpsertMembers(hs: seq<Holding>, h: Holding)
    ensures forall x :: x in Upsert(hs, h) ==> x == h || x in hs
  {
    if hs != [] && hs[0].ticker != h.ticker {
      UpsertMembers(hs[1..], h);
      assert Upsert(hs, h) == [hs[0]] + Upsert(hs[1..], h);
    } else if hs != [] {
      assert Upsert(hs, h) == [h] + hs[1..];
    }
  }

  /** Upserting keeps keys unique and grows the table only for a new key. */
  lemma UpsertShape(hs: seq<Holding>, h: Holding)
    requires UniqueTickers(hs)
    ensures UniqueTickers(Upsert(hs, h))
    ensures |Upsert(hs, h)| == |hs| + (if Find(hs, h.ticker).None? then 1 else 0)
  {
    UpsertUnique(hs, h);
    UpsertSize(hs, h);
  }

  lemma UniqueTail(hs: seq<Holding>)
    requires hs != [] && UniqueTickers(hs)
    ensures UniqueTickers(hs[1..])
  {
    var tail := hs[1..];
    forall i, j | 0 <= i < j < |tail| ensures tail[i].ticker != tail[j].ticker {
      assert tail[i] == hs[i + 1] && tail[j] == hs[j + 1];
    }
  }

  lemma {:induction false} UpsertUnique(hs: seq<Holding>, h: Holding)
    requires UniqueTickers(hs)
    ensures UniqueTickers(Upsert(hs, h))
  {
    if hs != [] {
      var tail := hs[1..];
      var r := Upsert(hs, h);
      if hs[0].ticker != h.ticker {
        UniqueTail(hs);
        UpsertUnique(tail, h);
        UpsertMembers(tail, h);
        var rest := Upsert(tail, h);
        assert r == [hs[0]] + rest;
        forall i, j | 0 <= i < j < |r| ensures r[i].ticker != r[j].ticker {
          if i == 0 {
            assert r[j] == rest[j - 1] && rest[j - 1] in rest;
            if r[j] != h {
              var k :| 0 <= k < |tail| && tail[k] == r[j];
              assert tail[k] == hs[k + 1];
            }
          } else {
            assert r[i] == rest[i - 1] && r[j] == rest[j - 1];
          }
        }
      } else {
        assert r == [h] + tail;
        forall i, j | 0 <= i < j < |r| ensures r[i].ticker != r[j].ticker {
          assert r[j] == hs[j];
          if i > 0 {
            assert r[i] == hs[i];
          }
        }
      }
    }
  }

  lemma {:induction false} UpsertSize(hs: seq<Holding>, h: Holding)
    ensures |Upsert(hs, h)| == |hs| + (if Find(hs, h.ticker).None? then 1 else 0)
  {
    if hs != [] && hs[0].ticker != h.ticker {
      UpsertSize(hs[1..], h);
    }
  }

  /** After a removal the key is absent, every other key is unchanged, keys
      stay unique, and the size shrinks by one exactly when the key was
      present. */
  lemma RemoveProperties(hs: seq<Holding>, ticker: string)
    requires UniqueTickers(hs)
    ensures var r := Remove(hs, ticker);
            && Find(r, ticker) == None
            && (forall t :: t != ticker ==> Find(r, t) == Find(hs, t))
            && UniqueTickers(r)
            && |r| == |hs| - (if Find(hs, ticker).Some? then 1 else 0)
            && (forall x :: x in r ==> x in hs)
  {
    RemoveFind(hs, ticker);
    RemoveSubset(hs, ticker);
    RemoveUnique(hs, ticker);
    RemoveSize(hs, ticker);
  }

  lemma {:induction false} RemoveFind(hs: seq<Holding>, ticker: string)
    ensures Find(Remove(hs, ticker), ticker) == None
    ensures forall t :: t != ticker ==> Find(Remove(hs, ticker), t) == Find(hs, t)
  {
    if hs != [] {
      RemoveFind(hs[1..], ticker);
    }
  }

  lemma {:induction false} RemoveSubset(hs: seq<Holding>, ticker: string)
    ensures forall x :: x in Remove(hs, ticker) ==> x in hs
  {
    if hs != [] {
      RemoveSubset(hs[1..], ticker);
    }
  }

  lemma {:induction false} RemoveUnique(hs: seq<Holding>, ticker: string)
    requires UniqueTickers(hs)
    ensures UniqueTickers(Remove(hs, ticker))
  {
    if hs != [] {
      var tail := hs[1..];
      UniqueTail(hs);
      RemoveUnique(tail, ticker);
      if hs[0].ticker != ticker {
        var rest := Remove(tail, ticker);
        var r := [hs[0]] + rest;
        RemoveSubset(tail, ticker);
        forall i, j | 0 <= i < j < |r| ensures r[i].ticker != r[j].ticker {
          if i == 0 {
            assert r[j] == rest[j - 1] && rest[j - 1] in tail;
            var k :| 0 <= k < |tail| && tail[k] == rest[j - 1];
            assert tail[k] == hs[k + 1];
          } else {
            assert r[i] == rest[i - 1] && r[j] == rest[j - 1];
          }
        }
      }
    }
  }

  lemma {:induction false} RemoveSize(hs: seq<Holding>, ticker: string)
    requires UniqueTickers(hs)
    ensures |Remove(hs, ticker)| == |hs| - (if Find(hs, ticker).Some? then 1 else 0)
  {
    if hs != [] {
      var tail := hs[1..];
      UniqueTail(hs);
      RemoveSize(tail, ticker);
      if hs[0].ticker == ticker {
        assert Find(tail, ticker) == None by {
          forall i | 0 <= i < |tail| ensures tail[i].ticker != ticker {
            assert tail[i] == hs[i + 1];
          }
        }
        RemoveFind(tail, ticker);
      }
    }
  }

  /** Dictionaries keep insertion order: a new ticker goes last. */
  lemma {:induction false} UpsertNewGoesLast(hs: seq<Holding>, h: Holding)
    requires Find(hs, h.ticker).None?
    ensures Upsert(hs, h) == hs + [h]
  {
    if hs != [] {
      var tail := hs[1..];
      assert Find(tail, h.ticker).None? by {
        forall i | 0 <= i < |tail| ensures tail[i].ticker != h.ticker {
          assert tail[i] == hs[i + 1];
        }
      }
      UpsertNewGoesLast(tail, h);
      assert [hs[0]] + (tail + [h]) == hs + [h];
    }
  }

  /** Overwriting a present ticker keeps its position. */
  lemma {:induction false} UpsertInPlace(hs: seq<Holding>, h: Holding, i: nat)
    requires i < |hs| && hs[i].ticker == h.ticker
    requires forall j :: 0 <= j < i ==> hs[j].ticker != h.ticker
    ensures Upsert(hs, h) == hs[i := h]
  {
    if i > 0 {
      var tail := hs[1..];
      forall j | 0 <= j < i - 1
        ensures tail[j].ticker != h.ticker
      {
        assert tail[j] == hs[j + 1];
      }
      UpsertInPlace(tail, h, i - 1);
      assert [hs[0]] + tail[i - 1 := h] == hs[i := h];
    }
  }

  /** Deleting an absent ticker changes nothing. */
  lemma {:induction false} RemoveAbsent(hs: seq<Holding>, ticker: string)
    requires Find(hs, ticker).None?
    ensures Remove(hs, ticker) == hs
  {
    if hs != [] {
      var tail := hs[1..];
      assert Find(tail, ticker).None? by {
        forall i | 0 <= i < |tail| ensures tail[i].ticker != ticker {
          assert tail[i] == hs[i + 1];
        }
      }
      RemoveAbsent(tail, ticker);
    }
  }

  /** Deleting a present ticker keeps the other records in their order. */
  lemma {:induction false} RemoveAt(hs: seq<Holding>, ticker: string, i: nat)
    requires UniqueTickers(hs) && i < |hs| && hs[i].ticker == ticker
    ensures Remove(hs, ticker) == hs[..i] + hs[i + 1..]
  {
    var tail := hs[1..];
    UniqueTail(hs);
    if i == 0 {
      HeadAbsentFromTail(hs);
      RemoveAbsent(tail, ticker);
    } else {
      UniqueApart(hs, 0, i);
      RemoveAt(tail, ticker, i - 1);
      ConsCut(hs, i);
    }
  }

  lemma HeadAbsentFromTail(hs: seq<Holding>)
    requires hs != [] && UniqueTickers(hs)
    ensures Find(hs[1..], hs[0].ticker).None?
  {
    var tail := hs[1..];
    forall j | 0 <= j < |tail|
      ensures tail[j].ticker != hs[0].ticker
    {
      assert tail[j] == hs[j + 1];
    }
  }

  lemma UniqueApart(hs: seq<Holding>, i: nat, j: nat)
    requires UniqueTickers(hs) && i < j < |hs|
    ensures hs[i].ticker != hs[j].ticker
  {
  }

  lemma ConsCut(hs: seq<Holding>, i: nat)
    requires 0 < i < |hs|
    ensures [hs[0]] + (hs[1..][..i - 1] + hs[1..][i..]) == hs[..i] + hs[i + 1..]
  {
  }

  /** `PortfolioTracker`: its `holdings` dictionary, in insertion order. */
  class Tracker {
    var holdings: seq<Holding>

    predicate Valid()
      reads this
    {
      UniqueTickers(holdings) && forall h :: h in holdings ==> WellFormed(h)
    }

    constructor ()
      ensures holdings == [] && Valid()
    {
      holdings := [];
    }

    /** `add_holding`: stores the new record under its ticker, replacing any
        previous one, and returns it. */
    method AddHolding(ticker: string, quantity: real, purchasePrice: real, currentPrice: real)
      returns (h: Option<Holding>)
      requires Valid()
      modifies this
      ensures Valid()
      ensures h == MakeHolding(ticker, quantity, purchasePrice, currentPrice)
      ensures h.None? ==> holdings == old(holdings)
      ensures h.Some? ==> holdings == Upsert(old(holdings), h.value)
    {
      h := MakeHolding(ticker, quantity, purchasePrice, currentPrice);
      if h.Some? {
        UpsertShape(holdings, h.value);
        UpsertMembers(holdings, h.value);
        holdings := Upsert(holdings, h.value);
      }
    }

    /** `remove_holding`: true exactly when the ticker was present. */
    method RemoveHolding(ticker: string) returns (removed: bool)
      requires Valid()
      modifies this
      ensures Valid()
      ensures removed == Find(old(holdings), ticker).Some?
      ensures holdings == Remove(old(holdings), ticker)
    {
      RemoveProperties(holdings, ticker);
      removed := Find(holdings, ticker).Some?;
      holdings := Remove(holdings, ticker);
    }

    /** `get_holdings_dataframe`: a new frame over the records, in order. */
    method GetHoldingsDataFrame() returns (frame: HoldingsFrame)
      ensures fresh(frame)
      ensures frame.rows == holdings && frame.weight == None
    {
      frame := new HoldingsFrame(holdings);
    }
  }

  // ---------------------------------------------------------------------
  // Summary
  // ---------------------------------------------------------------------

  datatype PortfolioSummary = PortfolioSummary(
    totalValue: real,
    totalCost: real,
    totalGainLoss: real,
    totalGainLossPct: real,
    numHoldings: nat)

  function CurrentValue(h: Holding): real { h.currentValue }
  function CostBasis(h: Holding): real { h.costBasis }
  function GainLoss(h: Holding): real { h.gainLoss }

  /** `get_portfolio_summary` over the tracker's holdings. */
  function Summary(holdings: seq<Holding>): (s: PortfolioSummary)
    ensures holdings == [] ==> s == PortfolioSummary(0.0, 0.0, 0.0, 0.0, 0)
    ensures s.numHoldings == |holdings|
    ensures s.totalValue == SumOf(holdings, CurrentValue) && s.totalCost == SumOf(holdings, CostBasis)
    ensures s.totalGainLoss == s.totalValue - s.totalCost
    ensures s.totalCost <= 0.0 ==> s.totalGainLossPct == 0.0
    ensures s.totalCost > 0.0 ==> s.totalGainLossPct == s.totalGainLoss / s.totalCost * 100.0
  {
    if holdings == [] then PortfolioSummary(0.0, 0.0, 0.0, 0.0, 0)
    else
      var value := SumOf(holdings, CurrentValue);
      var cost := SumOf(holdings, CostBasis);
      var gain := value - cost;
      PortfolioSummary(value, cost, gain, if cost > 0.0 then gain / cost * 100.0 else 0.0, |holdings|)
  }

  /** The total gain is the sum of the per-holding gains. */
  lemma {:induction false} SummaryGainIsSumOfGains(holdings: seq<Holding>)
    requires forall i :: 0 <= i < |holdings| ==> WellFormed(holdings[i])
    ensures Summary(holdings).totalGainLoss == SumOf(holdings, GainLoss)
  {
    if holdings != [] {
      var tail := holdings[1..];
      assert forall i :: 0 <= i < |tail| ==> tail[i] == holdings[i + 1];
      SummaryGainIsSumOfGains(tail);
      var h := holdings[0];
      assert h.gainLoss == h.currentValue - h.costBasis by {
        assert WellFormed(h);
        assert (h.currentPrice - h.purchasePrice) * h.quantity == h.quantity * h.currentPrice - h.quantity * h.purchasePrice;
      }
    }
  }

  // ---------------------------------------------------------------------
  // Allocation
  // ---------------------------------------------------------------------

  datatype AllocationRow = AllocationRow(ticker: string, currentValue: real, allocationPct: real)

  function AllocationPct(r: AllocationRow): real { r.allocationPct }

  /** The unsorted allocation rows for a non-zero total. */
  function AllocationRows(holdings: seq<Holding>, total: real): (rows: seq<AllocationRow>)
    requires total != 0.0
    ensures |rows| == |holdings|
    ensures forall i :: 0 <= i < |holdings| ==>
      rows[i] == AllocationRow(holdings[i].ticker, holdings[i].currentValue, holdings[i].currentValue / total * 100.0)
    ensures SumOf(rows, AllocationPct) == SumOf(holdings, CurrentValue) / total * 100.0
  {
    if holdings == [] then []
    else
      var h := holdings[0];
      var rest := AllocationRows(holdings[1..], total);
      var rows := [AllocationRow(h.ticker, h.currentValue, h.currentValue / total * 100.0)] + rest;
      assert rows[1..] == rest;
      assert SumOf(rows, AllocationPct) == h.currentValue / total * 100.0 + SumOf(holdings[1..], CurrentValue) / total * 100.0;
      DivideSum(h.currentValue, SumOf(holdings[1..], CurrentValue), total);
      rows
  }

  lemma DivideSum(a: real, b: real, total: real)
    requires total != 0.0
    ensures a / total * 100.0 + b / total * 100.0 == (a + b) / total * 100.0
  {
  }

  /** `get_allocation`: `Some([])` for an empty portfolio; `None` when the
      total value is zero, where pandas would divide by zero; otherwise the
      rows sorted by allocation percentage, descending. */
  function Allocation(holdings: seq<Holding>): (r: Option<seq<AllocationRow>>)
    ensures holdings == [] ==> r == Some([])
    ensures r.None? <==> holdings != [] && SumOf(holdings, CurrentValue) == 0.0
    ensures r.Some? && holdings != [] ==>
      var rows := AllocationRows(holdings, SumOf(holdings, CurrentValue));
      && |r.value| == |holdings|
      && multiset(r.value) == multiset(rows)
      && SortedDesc(r.value, AllocationPct)
  {
    if holdings == [] then Some([])
    else
      var total := SumOf(holdings, CurrentValue);
      if total == 0.0 then None
      else Some(SortDesc(AllocationRows(holdings, total), AllocationPct))
  }

  /** The allocation percentages add up to 100. */
  lemma AllocationSumsTo100(holdings: seq<Holding>)
    requires Allocation(holdings).Some? && holdings != []
    ensures SumOf(Allocation(holdings).value, AllocationPct) == 100.0
  {
    var total := SumOf(holdings, CurrentValue);
    var rows := AllocationRows(holdings, total);
    assert Allocation(holdings).value == SortDesc(rows, AllocationPct);
    SortDescKeepsSum(rows, AllocationPct);
    PercentOfWhole(total);
  }

  lemma PercentOfWhole(total: real)
    requires total != 0.0
    ensures total / total * 100.0 == 100.0
  {
  }

  // ---------------------------------------------------------------------
  // Weighted metrics
  // ---------------------------------------------------------------------

  /** A holdings frame; `weight` is the column `calculate_portfolio_metrics`
      adds in place (`None` until then). */
  class HoldingsFrame {
    var rows: seq<Holding>
    var weight: Option<seq<real>>

    constructor (rows: seq<Holding>)
      ensures this.rows == rows && weight == None
    {
      this.rows := rows;
      weight := None;
    }
  }

  datatype Metrics = Metrics(
    weightedReturn: real,
    bestPerformer: string,
    worstPerformer: string,
    bestReturn: real,
    worstReturn: real)

  /** `current_value / total` per row. */
  function Weights(rows: seq<Holding>, total: real): (w: seq<real>)
    requires total != 0.0
    ensures |w| == |rows|
    ensures forall i :: 0 <= i < |rows| ==> w[i] == rows[i].currentValue / total
  {
    seq(|rows|, i requires 0 <= i < |rows| => rows[i].currentValue / total)
  }

  /** `(gain_loss_pct * weight).sum()`. */
  function WeightedSum(rows: seq<Holding>, w: seq<real>): real
    requires |w| == |rows|
  {
    if rows == [] then 0.0
    else rows[0].gainLossPct * w[0] + WeightedSum(rows[1..], w[1..])
  }

  function Total(w: seq<real>): real
  {
    if w == [] then 0.0 else w[0] + Total(w[1..])
  }

  /** The `unrealized_gain_loss_pct` column. */
  function Returns(rows: seq<Holding>): (r: seq<real>)
    ensures |r| == |rows|
    ensures forall i :: 0 <= i < |rows| ==> r[i] == rows[i].gainLossPct
  {
    seq(|rows|, i requires 0 <= i < |rows| => rows[i].gainLossPct)
  }

  /** The weights of a frame with a non-zero total add up to 1. */
  lemma {:induction false} WeightsSumToOne(rows: seq<Holding>)
    requires SumOf(rows, CurrentValue) != 0.0
    ensures Total(Weights(rows, SumOf(rows, CurrentValue))) == 1.0
  {
    var total := SumOf(rows, CurrentValue);
    WeightsTotal(rows, total);
    assert total / total == 1.0;
  }

  lemma {:induction false} WeightsTotal(rows: seq<Holding>, total: real)
    requires total != 0.0
    ensures Total(Weights(rows, total)) == SumOf(rows, CurrentValue) / total
  {
    if rows != [] {
      var w := Weights(rows, total);
      assert w[1..] == Weights(rows[1..], total);
      WeightsTotal(rows[1..], total);
      assert rows[0].currentValue / total + SumOf(rows[1..], CurrentValue) / total
          == (rows[0].currentValue + SumOf(rows[1..], CurrentValue)) / total;
    }
  }

  /** With non-negative weights summing to 1, the weighted return lies
      between the worst and the best single return. */
  lemma {:induction false} WeightedSumBounds(rows: seq<Holding>, w: seq<real>, lo: real, hi: real)
    requires |w| == |rows|
    requires forall i :: 0 <= i < |w| ==> w[i] >= 0.0
    requires forall i :: 0 <= i < |rows| ==> lo <= rows[i].gainLossPct <= hi
    ensures lo * Total(w) <= WeightedSum(rows, w) <= hi * Total(w)
  {
    if rows != [] {
      assert forall i :: 0 <= i < |w| - 1 ==> w[1..][i] == w[i + 1];
      assert forall i :: 0 <= i < |rows| - 1 ==> rows[1..][i] == rows[i + 1];
      WeightedSumBounds(rows[1..], w[1..], lo, hi);
      BoundsStep(rows[0].gainLossPct, w[0], lo, hi, Total(w[1..]), WeightedSum(rows[1..], w[1..]));
    }
  }

  /** One more non-negative weight on a return between `lo` and `hi` keeps
      the weighted sum between `lo` and `hi` times the total weight. */
  lemma BoundsStep(p: real, x: real, lo: real, hi: real, total: real, sum: real)
    requires x >= 0.0 && lo <= p <= hi
    requires lo * total <= sum <= hi * total
    ensures lo * (x + total) <= p * x + sum <= hi * (x + total)
  {
    assert (hi - p) * x >= 0.0;
    assert (p - lo) * x >= 0.0;
  }

  /** `calculate_portfolio_metrics`: `None` for an empty frame (the source
      returns `{}`); otherwise adds the weight column to the frame and
      returns the weighted return and the best and worst performers. */
  method CalculatePortfolioMetrics(frame: HoldingsFrame) returns (m: Option<Metrics>)
    requires frame.rows == [] || SumOf(frame.rows, CurrentValue) != 0.0
    modifies frame
    ensures frame.rows == old(frame.rows)
    ensures old(frame.rows) == [] ==> m == None && frame.weight == old(frame.weight)
    ensures old(frame.rows) != [] ==>
      var rows := frame.rows;
      var w := Weights(rows, SumOf(rows, CurrentValue));
      && frame.weight == Some(w)
      && m == Some(Metrics(WeightedSum(rows, w),
                           rows[ArgMax(Returns(rows))].ticker, rows[ArgMin(Returns(rows))].ticker,
                           rows[ArgMax(Returns(rows))].gainLossPct, rows[ArgMin(Returns(rows))].gainLossPct))
  {
    var rows := frame.rows;
    if rows == [] {
      return None;
    }
    var total := SumOf(rows, CurrentValue);
    var w := Weights(rows, total);
    frame.weight := Some(w);
    var best := ArgMax(Returns(rows));
    var worst := ArgMin(Returns(rows));
    m := Some(Metrics(WeightedSum(rows, w), rows[best].ticker, rows[worst].ticker,
                      rows[best].gainLossPct, rows[worst].gainLossPct));
  }

  /** When every holding has a non-negative value (and the total is
      positive), the weighted return lies between the worst and the best
      return. */
  lemma WeightedReturnBetweenExtremes(rows: seq<Holding>)
    requires rows != []
    requires forall i :: 0 <= i < |rows| ==> rows[i].currentValue >= 0.0
    requires SumOf(rows, CurrentValue) > 0.0
    ensures var w := Weights(rows, SumOf(rows, CurrentValue));
            rows[ArgMin(Returns(rows))].gainLossPct <= WeightedSum(rows, w) <= rows[ArgMax(Returns(rows))].gainLossPct
  {
    var total := SumOf(rows, CurrentValue);
    var w := Weights(rows, total);
    forall i | 0 <= i < |w| ensures w[i] >= 0.0 {
      NonNegativeRatio(rows[i].currentValue, total);
    }
    var lo, hi := rows[ArgMin(Returns(rows))].gainLossPct, rows[ArgMax(Returns(rows))].gainLossPct;
    WeightsSumToOne(rows);
    WeightedSumBounds(rows, w, lo, hi);
    assert lo * Total(w) == lo && hi * Total(w) == hi;
  }

  lemma NonNegativeRatio(a: real, b: real)
    requires a >= 0.0 && b > 0.0
    ensures a / b >= 0.0
  {
  }
}
