/** A pandas data frame of numbers: named columns of equal length, a
    missing value (NaN) being `None`. Column order is not modelled. */
module Frames {
  import opened Common

  type Column = seq<Option<real>>

  datatype Frame = Frame(columns: map<string, Column>, rows: nat)

  predicate WellFormed(f: Frame)
  {
    forall c :: c in f.columns ==> |f.columns[c]| == f.rows
  }

  /** The values of a column with none missing. */
  function Values(c: Column): (v: seq<real>)
    requires forall i :: 0 <= i < |c| ==> c[i].Some?
    ensures |v| == |c|
    ensures forall i :: 0 <= i < |c| ==> c[i] == Some(v[i])
  {
    seq(|c|, i requires 0 <= i < |c| => c[i].value)
  }

  /** A column with every value present. */
  function Present(s: seq<real>): (c: Column)
    ensures |c| == |s|
    ensures forall i :: 0 <= i < |s| ==> c[i] == Some(s[i])
  {
    seq(|s|, i requires 0 <= i < |s| => Some(s[i]))
  }

  /** Filling a column from values and reading them back are inverse. */
  lemma ValuesPresent(s: seq<real>, c: Column)
    requires forall i :: 0 <= i < |c| ==> c[i].Some?
    ensures Values(Present(s)) == s
    ensures Present(Values(c)) == c
  {
    assert forall i :: 0 <= i < |s| ==> Values(Present(s))[i] == s[i];
    assert forall i :: 0 <= i < |c| ==> Present(Values(c))[i] == c[i];
  }

  /** `df[name] = c`: the column is added or replaced, the others stay. */
  function WithColumn(f: Frame, name: string, c: Column): (g: Frame)
    requires WellFormed(f) && |c| == f.rows
    ensures WellFormed(g) && g.rows == f.rows
    ensures g.columns.Keys == f.columns.Keys + {name}
    ensures g.columns[name] == c
    ensures forall k :: k in f.columns && k != name ==> g.columns[k] == f.columns[k]
  {
    Frame(f.columns[name := c], f.rows)
  }
}
