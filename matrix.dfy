/** The dense, append-only 2-D store behind the tableau. It starts empty,
    grows by whole zero rows and zero columns, and is read and written one
    bounds-checked cell at a time. */
module Matrices {

  /** `n` zeros. */
  function Zeros(n: nat): (z: seq<real>)
    ensures |z| == n
    ensures forall j :: 0 <= j < n ==> z[j] == 0.0
  {
    seq(n, _ => 0.0)
  }

  /** Every row of `m` with a 0 appended. */
  function AppendZeroColumn(m: seq<seq<real>>): (r: seq<seq<real>>)
    ensures |r| == |m|
    ensures forall i :: 0 <= i < |m| ==> r[i] == m[i] + [0.0]
  {
    seq(|m|, i requires 0 <= i < |m| => m[i] + [0.0])
  }

  /** A single row gets a single 0. */
  lemma AppendZeroColumnSingle(r: seq<real>)
    ensures AppendZeroColumn([r]) == [r + [0.0]]
  {
  }

  class Matrix {
    var values: seq<seq<real>>
    var numRows: nat
    var numCols: nat

    /** The shape invariant: one stored row per counted row, each of the
        counted width. */
    ghost predicate Valid()
      reads this
    {
      |values| == numRows &&
      forall i :: 0 <= i < |values| ==> |values[i]| == numCols
    }

    constructor ()
      ensures Valid()
      ensures numRows == 0 && numCols == 0 && values == []
    {
      values := [];
      numRows := 0;
      numCols := 0;
    }

    /** Appends a row of zeros and returns its index. */
    method AddRow() returns (index: nat)
      requires Valid()
      modifies this
      ensures Valid()
      ensures index == old(numRows) && numRows == old(numRows) + 1 && numCols == old(numCols)
      ensures values == old(values) + [Zeros(numCols)]
    {
      var newRow := Zeros(numCols);
      values := values + [newRow];
      numRows := numRows + 1;
      index := numRows - 1;
    }

    /** Appends a zero to every row and returns the new column's index. */
    method AddColumn() returns (index: nat)
      requires Valid()
      modifies this
      ensures Valid()
      ensures index == old(numCols) && numCols == old(numCols) + 1 && numRows == old(numRows)
      ensures values == AppendZeroColumn(old(values))
    {
      var i := 0;
      while i < |values|
        invariant 0 <= i <= |values| == |old(values)|
        invariant numRows == old(numRows) && numCols == old(numCols)
        invariant forall k :: 0 <= k < i ==> values[k] == old(values)[k] + [0.0]
        invariant forall k :: i <= k < |values| ==> values[k] == old(values)[k]
      {
        values := values[i := values[i] + [0.0]];
        i := i + 1;
      }
      numCols := numCols + 1;
      index := numCols - 1;
      assert values == AppendZeroColumn(old(values));
    }

    /** Writes one in-range cell; everything else stays as it was. */
    method SetValue(row: nat, column: nat, value: real)
      requires Valid()
      requires row < numRows && column < numCols
      modifies this
      ensures Valid()
      ensures numRows == old(numRows) && numCols == old(numCols)
      ensures values[row][column] == value
      ensures values == old(values)[row := old(values)[row][column := value]]
    {
      values := values[row := values[row][column := value]];
    }

    /** Reads one in-range cell. */
    method GetValue(row: nat, column: nat) returns (value: real)
      requires Valid()
      requires row < numRows && column < numCols
      ensures value == values[row][column]
    {
      value := values[row][column];
    }

    method NumCols() returns (n: nat)
      requires Valid()
      ensures n == numCols
      ensures forall i :: 0 <= i < |values| ==> |values[i]| == n
    {
      n := numCols;
    }

    method NumRows() returns (n: nat)
      requires Valid()
      ensures n == |values|
    {
      n := numRows;
    }
  }
}
