/** The tableau as a value: its layout after construction, the Gauss-Jordan
    pivot, the selection rules' predicates, and the facts about them that the
    pivot loop relies on. Column 0 is the right-hand side, column 1 the
    objective anchor Z, columns from 2 on the variables and then one slack
    column per constraint row. */
module TableauMath {
  import opened Lp
  import opened Matrices

  const RHS_INDEX: nat := 0
  const Z_INDEX: nat := 1

  /** Every row has `width` cells. */
  ghost predicate Rect(m: seq<seq<real>>, width: nat) {
    forall i :: 0 <= i < |m| ==> |m[i]| == width
  }

  /** Column `j` is the unit vector of row `i`: 1 there, 0 in every other row. */
  ghost predicate UnitColumn(m: seq<seq<real>>, j: nat, i: nat) {
    forall k :: 0 <= k < |m| ==> j < |m[k]| && m[k][j] == (if k == i then 1.0 else 0.0)
  }

  /** Each row's basic variable is the unit column of that row. */
  ghost predicate Canonical(m: seq<seq<real>>, basic: seq<nat>) {
    |basic| == |m| && forall i :: 0 <= i < |m| ==> UnitColumn(m, basic[i], i)
  }

  /** Some variable column (index 2 or more) has a negative reduced cost in row 0. */
  ghost predicate NegativeReducedCost(m: seq<seq<real>>) {
    |m| > 0 && exists j :: 2 <= j < |m[0]| && m[0][j] < 0.0
  }

  // ---------------------------------------------------------------------
  // Iteration order of a hash map

  /** `order` lists every element of `keys` exactly once. */
  ghost predicate Enumerates(order: seq<string>, keys: set<string>) {
    (forall i, j :: 0 <= i < j < |order| ==> order[i] != order[j]) &&
    (forall i :: 0 <= i < |order| ==> order[i] in keys) &&
    (forall k :: k in keys ==> k in order)
  }

  /** The keys of `m` in the order a hash map's iterator yields them. The
      program does not fix that order, so the model lets any order come out. */
  method IterationOrder<V>(m: map<string, V>) returns (order: seq<string>)
    ensures Enumerates(order, m.Keys)
  {
    order := [];
    var pending := m.Keys;
    while pending != {}
      invariant pending <= m.Keys
      invariant forall i, j :: 0 <= i < j < |order| ==> order[i] != order[j]
      invariant forall i :: 0 <= i < |order| ==> order[i] in m.Keys && order[i] !in pending
      invariant forall k :: k in m.Keys ==> k in order || k in pending
      decreases pending
    {
      var k :| k in pending;
      order := order + [k];
      pending := pending - {k};
    }
  }

  // ---------------------------------------------------------------------
  // Construction layout

  /** The variable columns: one per name, and together exactly the columns
      2, 3, ..., 1 + |cols|. */
  ghost predicate VariableColumns(cols: map<string, nat>) {
    (forall v :: v in cols ==> 2 <= cols[v] < 2 + |cols|) &&
    (forall v, w :: v in cols && w in cols && v != w ==> cols[v] != cols[w]) &&
    (forall j :: 2 <= j < 2 + |cols| ==> j in cols.Values)
  }

  /** Row 0 as construction leaves it: RHS 0, anchor 1, the negated objective
      coefficient in each variable's column, 0 in every slack column. */
  ghost predicate ObjectiveRow(row: seq<real>, variables: map<string, Variable>, cols: map<string, nat>) {
    VariableColumns(cols) && 2 + |cols| <= |row| &&
    row[RHS_INDEX] == 0.0 && row[Z_INDEX] == 1.0 &&
    (forall v :: v in cols ==> v in variables && row[cols[v]] == -variables[v].objectiveValue) &&
    (forall j :: 2 + |cols| <= j < |row| ==> row[j] == 0.0)
  }

  /** The slack column that constraint row `i` (i >= 1) receives when there
      are `nv` variable columns. */
  function SlackColumn(nv: nat, i: nat): nat {
    nv + 1 + i
  }

  /** Constraint row `i`: anchor 0, and in the slack region a 1 in its own
      slack column only. */
  ghost predicate SlackRow(row: seq<real>, nv: nat, i: nat) {
    2 + nv <= |row| && row[Z_INDEX] == 0.0 &&
    forall j :: 2 + nv <= j < |row| ==> row[j] == (if j == SlackColumn(nv, i) then 1.0 else 0.0)
  }

  /** The shape construction keeps after each step: the objective row, one
      slack column per constraint row, and the basic variables [Z, slack 1,
      slack 2, ...]. */
  ghost predicate Layout(m: seq<seq<real>>, width: nat, basic: seq<nat>,
                         variables: map<string, Variable>, cols: map<string, nat>) {
    |m| >= 1 && Rect(m, width) && width == 1 + |cols| + |m| &&
    cols.Keys == variables.Keys &&
    ObjectiveRow(m[0], variables, cols) &&
    (forall i :: 1 <= i < |m| ==> SlackRow(m[i], |cols|, i)) &&
    |basic| == |m| && basic[0] == Z_INDEX &&
    (forall i :: 1 <= i < |m| ==> basic[i] == SlackColumn(|cols|, i))
  }

  /** `row` is the tableau row of a less-than constraint with these
      coefficients: its RHS in column 0, and in each variable's column the
      coefficient for that variable, or 0 when it has none. */
  ghost predicate HoldsConstraint(row: seq<real>, constraintType: ConstraintType,
                                  coefficients: map<string, real>, cols: map<string, nat>) {
    constraintType.LessThan? && 1 <= |row| && row[RHS_INDEX] == constraintType.rhs &&
    forall v :: v in cols ==> cols[v] < |row| && row[cols[v]] == (if v in coefficients then coefficients[v] else 0.0)
  }

  /** Rows 1, 2, ... hold the constraints listed in `types` and `coefficients`, in that order. */
  ghost predicate RowsHold(m: seq<seq<real>>, types: seq<ConstraintType>,
                           coefficients: seq<map<string, real>>, cols: map<string, nat>) {
    |types| == |coefficients| && |m| == 1 + |types| &&
    forall k :: 0 <= k < |types| ==> HoldsConstraint(m[1 + k], types[k], coefficients[k], cols)
  }

  // Row 0

  /** Row 0 built from the variables in `order`: RHS 0, anchor 1, then each
      variable's negated objective coefficient. */
  function ObjectiveRowOf(variables: map<string, Variable>, order: seq<string>): (row: seq<real>)
    ensures |row| == 2 + |order| && row[RHS_INDEX] == 0.0 && row[Z_INDEX] == 1.0
  {
    [0.0, 1.0] + seq(|order|, i requires 0 <= i < |order| =>
      if order[i] in variables then -variables[order[i]].objectiveValue else 0.0)
  }

  /** Variable `order[i]`'s entry in row 0 is its negated objective coefficient. */
  lemma ObjectiveRowOfAt(variables: map<string, Variable>, order: seq<string>, i: nat)
    requires i < |order| && order[i] in variables
    ensures ObjectiveRowOf(variables, order)[2 + i] == -variables[order[i]].objectiveValue
  {
  }

  /** The columns handed out to the variables in `order`: `order[i]` gets 2 + i. */
  function ColumnsOf(order: seq<string>): map<string, nat>
    decreases |order|
  {
    if order == [] then map[] else ColumnsOf(order[..|order| - 1])[order[|order| - 1] := 1 + |order|]
  }

  /** Giving a new name the next column keeps the variable columns one per
      name and contiguous. */
  lemma {:induction false} VariableColumnsAdd(cols: map<string, nat>, name: string)
    requires VariableColumns(cols) && name !in cols
    ensures |cols[name := 2 + |cols|]| == |cols| + 1
    ensures VariableColumns(cols[name := 2 + |cols|])
  {
    var c := 2 + |cols|;
    var cols' := cols[name := c];
    assert cols'.Keys == cols.Keys + {name};
    assert |cols'| == |cols| + 1;
    forall j | 2 <= j < 2 + |cols'|
      ensures j in cols'.Values
    {
      if j < c {
        assert j in cols.Values;
        var v :| v in cols && cols[v] == j;
        assert cols'[v] == j;
      } else {
        assert cols'[name] == j;
      }
    }
  }

  /** Only names in `order` have a column. */
  lemma {:induction false} ColumnsOfDomain(order: seq<string>)
    ensures forall v :: v in ColumnsOf(order) ==> v in order
    decreases |order|
  {
    if order != [] {
      var n := |order|;
      var front := order[..n - 1];
      ColumnsOfDomain(front);
      forall v | v in ColumnsOf(order)
        ensures v in order
      {
        if v != order[n - 1] {
          assert v in ColumnsOf(front);
          assert v in front;
          var i :| 0 <= i < n - 1 && front[i] == v;
          assert order[i] == v;
        }
      }
    }
  }

  /** Among distinct names, `order[i]` has column 2 + i. */
  lemma {:induction false} ColumnsOfAt(order: seq<string>)
    requires forall i, j :: 0 <= i < j < |order| ==> order[i] != order[j]
    ensures forall i :: 0 <= i < |order| ==> order[i] in ColumnsOf(order) && ColumnsOf(order)[order[i]] == 2 + i
    decreases |order|
  {
    if order != [] {
      var n := |order|;
      var front := order[..n - 1];
      ColumnsOfAt(front);
      forall i | 0 <= i < n - 1
        ensures order[i] in ColumnsOf(order) && ColumnsOf(order)[order[i]] == 2 + i
      {
        assert front[i] == order[i];
      }
    }
  }

  /** Distinct names get distinct, contiguous columns. */
  lemma {:induction false} ColumnsOfContiguous(order: seq<string>)
    requires forall i, j :: 0 <= i < j < |order| ==> order[i] != order[j]
    ensures |ColumnsOf(order)| == |order|
    ensures VariableColumns(ColumnsOf(order))
    decreases |order|
  {
    if order != [] {
      var n := |order|;
      var front := order[..n - 1];
      ColumnsOfContiguous(front);
      ColumnsOfDomain(front);
      assert order[n - 1] !in front by {
        forall i | 0 <= i < n - 1
          ensures front[i] != order[n - 1]
        {
          assert front[i] == order[i];
        }
      }
      VariableColumnsAdd(ColumnsOf(front), order[n - 1]);
    }
  }

  /** One variable's step of row 0, on the whole one-row tableau: append a
      zero column, then write the variable's negated objective coefficient
      into it. */
  lemma ObjectiveRowStep(variables: map<string, Variable>, order: seq<string>, i: nat,
                         before: seq<seq<real>>, widened: seq<seq<real>>, column: nat, after: seq<seq<real>>)
    requires i < |order| && order[i] in variables
    requires before == [ObjectiveRowOf(variables, order[..i])]
    requires widened == AppendZeroColumn(before) && column == 2 + i
    requires after == widened[0 := widened[0][column := -variables[order[i]].objectiveValue]]
    ensures after == [ObjectiveRowOf(variables, order[..i + 1])]
  {
    var row := ObjectiveRowOf(variables, order[..i]);
    var next := ObjectiveRowOf(variables, order[..i + 1]);
    AppendZeroColumnSingle(row);
    assert widened[0] == row + [0.0];
    assert order[..i + 1][..i] == order[..i];
    assert after[0] == next;
  }

  /** Giving variable `order[i]` column 2 + i extends the columns of `order[..i]`. */
  lemma ColumnsOfStep(order: seq<string>, i: nat)
    requires i < |order|
    ensures ColumnsOf(order[..i + 1]) == ColumnsOf(order[..i])[order[i] := 2 + i]
  {
    assert order[..i + 1][..i] == order[..i];
  }

  /** Row 0 before any variable: RHS 0 and anchor 1. */
  lemma ObjectiveRowEmpty(variables: map<string, Variable>, order: seq<string>)
    ensures ObjectiveRowOf(variables, order[..0]) == ObjectiveRowOf(variables, []) && ColumnsOf(order[..0]) == map[]
  {
    assert order[..0] == [];
  }

  /** The first steps of row 0 (a zero row, two zero columns, the anchor
      set to 1 and the RHS to 0) give row 0 before any variable. */
  lemma ObjectiveRowStart(variables: map<string, Variable>, a: seq<seq<real>>, b: seq<seq<real>>,
                          c: seq<seq<real>>, d: seq<seq<real>>, e: seq<seq<real>>)
    requires a == [] + [Zeros(0)] && b == AppendZeroColumn(a) && c == AppendZeroColumn(b)
    requires d == c[0 := c[0][Z_INDEX := 1.0]] && e == d[0 := d[0][RHS_INDEX := 0.0]]
    ensures e == [ObjectiveRowOf(variables, [])]
  {
    var empty: seq<real> := [];
    assert a == [empty];
    AppendZeroColumnSingle(empty);
    assert empty + [0.0] == [0.0];
    assert b == [[0.0]];
    AppendZeroColumnSingle([0.0]);
    assert [0.0] + [0.0] == [0.0, 0.0];
    assert c == [[0.0, 0.0]];
    assert d[0] == [0.0, 1.0];
    assert e[0] == [0.0, 1.0];
    assert ObjectiveRowOf(variables, []) == [0.0, 1.0];
  }

  /** Row 0 built over an enumeration of all variables holds, in each
      variable's column, its negated objective coefficient. */
  lemma {:induction false} ObjectiveRowOfIsObjectiveRow(variables: map<string, Variable>, order: seq<string>)
    requires Enumerates(order, variables.Keys)
    ensures ObjectiveRow(ObjectiveRowOf(variables, order), variables, ColumnsOf(order))
  {
    var cols := ColumnsOf(order);
    var row := ObjectiveRowOf(variables, order);
    ColumnsOfDomain(order);
    ColumnsOfAt(order);
    ColumnsOfContiguous(order);
    forall v | v in cols
      ensures v in variables && row[cols[v]] == -variables[v].objectiveValue
    {
      var i :| 0 <= i < |order| && order[i] == v;
      assert cols[v] == 2 + i;
      ObjectiveRowOfAt(variables, order, i);
    }
  }

  /** Row 0 built over an enumeration of all variables is a laid-out
      one-row tableau with Z basic. */
  lemma ObjectiveRowLayout(variables: map<string, Variable>, order: seq<string>)
    requires Enumerates(order, variables.Keys)
    ensures Layout([ObjectiveRowOf(variables, order)], 2 + |order|, [Z_INDEX], variables, ColumnsOf(order))
  {
    ObjectiveRowOfIsObjectiveRow(variables, order);
    ColumnsOfKeys(order, variables.Keys);
  }

  /** An enumeration of `keys` gives exactly the names in `keys` a column. */
  lemma {:induction false} ColumnsOfKeys(order: seq<string>, keys: set<string>)
    requires Enumerates(order, keys)
    ensures ColumnsOf(order).Keys == keys
    ensures |ColumnsOf(order)| == |order|
  {
    ColumnsOfDomain(order);
    ColumnsOfAt(order);
    ColumnsOfContiguous(order);
    forall v | v in keys
      ensures v in ColumnsOf(order)
    {
      var i :| 0 <= i < |order| && order[i] == v;
    }
  }

  // Constraint rows

  /** A fresh constraint row of width `width` + 1 before its coefficients:
      the RHS in column 0 and a 1 in the new slack column `width`. */
  function SlackRowBase(rhs: real, width: nat): (row: seq<real>)
    ensures |row| == width + 1
  {
    seq(width + 1, j requires 0 <= j <= width => if j == RHS_INDEX then rhs else if j == width then 1.0 else 0.0)
  }

  /** The constraint's coefficients written into `row` key by key in
      `order`; a key with no variable column is skipped. */
  function WithCoefficients(row: seq<real>, coefficients: map<string, real>,
                            cols: map<string, nat>, order: seq<string>): (r: seq<real>)
    requires forall v :: v in order ==> v in coefficients
    requires forall v :: v in cols ==> cols[v] < |row|
    ensures |r| == |row|
    decreases |order|
  {
    if order == [] then row
    else
      var prev := WithCoefficients(row, coefficients, cols, order[..|order| - 1]);
      var name := order[|order| - 1];
      if name in cols then prev[cols[name] := coefficients[name]] else prev
  }

  /** One step of the coefficient loop. */
  lemma WithCoefficientsStep(row: seq<real>, coefficients: map<string, real>,
                             cols: map<string, nat>, order: seq<string>, i: nat)
    requires i < |order|
    requires forall v :: v in order ==> v in coefficients
    requires forall v :: v in cols ==> cols[v] < |row|
    ensures WithCoefficients(row, coefficients, cols, order[..i + 1]) ==
            (if order[i] in cols
             then WithCoefficients(row, coefficients, cols, order[..i])[cols[order[i]] := coefficients[order[i]]]
             else WithCoefficients(row, coefficients, cols, order[..i]))
  {
    assert order[..i + 1][..i] == order[..i];
  }

  /** After the coefficient loop each variable's column holds the
      coefficient written for it, if any; columns outside the variable
      region are untouched. */
  lemma {:induction false} WithCoefficientsAt(row: seq<real>, coefficients: map<string, real>,
                                              cols: map<string, nat>, order: seq<string>)
    requires forall i, j :: 0 <= i < j < |order| ==> order[i] != order[j]
    requires forall v :: v in order ==> v in coefficients
    requires VariableColumns(cols) && 2 + |cols| <= |row|
    ensures forall v :: v in cols ==>
      WithCoefficients(row, coefficients, cols, order)[cols[v]] == (if v in order then coefficients[v] else row[cols[v]])
    ensures forall j :: 0 <= j < |row| && (j < 2 || 2 + |cols| <= j) ==>
      WithCoefficients(row, coefficients, cols, order)[j] == row[j]
    decreases |order|
  {
    if order != [] {
      var n := |order|;
      var front := order[..n - 1];
      var last := order[n - 1];
      WithCoefficientsAt(row, coefficients, cols, front);
      forall v | v in cols
        ensures WithCoefficients(row, coefficients, cols, order)[cols[v]] ==
                (if v in order then coefficients[v] else row[cols[v]])
      {
        if v != last {
          assert v in order <==> v in front by {
            if v in order {
              var i :| 0 <= i < n && order[i] == v;
              assert front[i] == v;
            }
            if v in front {
              var i :| 0 <= i < n - 1 && front[i] == v;
              assert order[i] == v;
            }
          }
        } else {
          assert last in order;
        }
      }
    }
  }

  /** The coefficient a constraint puts in column `j`: that of the variable
      owning column `j` when the constraint names one for it, and 0
      otherwise. */
  ghost function CoefficientAt(coefficients: map<string, real>, cols: map<string, nat>, j: nat): real {
    if exists v :: v in cols && cols[v] == j && v in coefficients
    then var v :| v in cols && cols[v] == j && v in coefficients; coefficients[v]
    else 0.0
  }

  /** The row a less-than constraint gets when the tableau is `width`
      columns wide: its RHS, its coefficient (or 0) in each variable's
      column, and a 1 in its own new slack column `width`. */
  ghost function ConstraintRowOf(rhs: real, width: nat, coefficients: map<string, real>,
                                 cols: map<string, nat>): (row: seq<real>)
    ensures |row| == width + 1 && row[RHS_INDEX] == rhs
    ensures 1 <= width ==> row[width] == 1.0
  {
    seq(width + 1, j requires 0 <= j <= width =>
      if j == RHS_INDEX then rhs else if j == width then 1.0 else CoefficientAt(coefficients, cols, j))
  }

  lemma CoefficientAtVariable(coefficients: map<string, real>, cols: map<string, nat>, v: string)
    requires VariableColumns(cols) && v in cols
    ensures CoefficientAt(coefficients, cols, cols[v]) == if v in coefficients then coefficients[v] else 0.0
  {
    if v in coefficients {
      var w :| w in cols && cols[w] == cols[v] && w in coefficients && CoefficientAt(coefficients, cols, cols[v]) == coefficients[w];
      assert w == v;
    }
  }

  lemma CoefficientAtOutside(coefficients: map<string, real>, cols: map<string, nat>, j: nat)
    requires VariableColumns(cols) && (j < 2 || 2 + |cols| <= j)
    ensures CoefficientAt(coefficients, cols, j) == 0.0
  {
  }

  /** Whatever order the coefficient loop visits the keys in, it builds the
      constraint's row: each variable owns its own column. */
  lemma {:induction false} WithCoefficientsIsRow(rhs: real, width: nat, coefficients: map<string, real>,
                                                 cols: map<string, nat>, order: seq<string>)
    requires VariableColumns(cols) && 2 + |cols| <= width
    requires Enumerates(order, coefficients.Keys)
    ensures WithCoefficients(SlackRowBase(rhs, width), coefficients, cols, order) ==
            ConstraintRowOf(rhs, width, coefficients, cols)
  {
    var base := SlackRowBase(rhs, width);
    WithCoefficientsAt(base, coefficients, cols, order);
    var r := WithCoefficients(base, coefficients, cols, order);
    var row := ConstraintRowOf(rhs, width, coefficients, cols);
    forall j | 0 <= j <= width
      ensures r[j] == row[j]
    {
      if 2 <= j < 2 + |cols| {
        assert j in cols.Values;
        var v :| v in cols && cols[v] == j;
        CoefficientAtVariable(coefficients, cols, v);
        assert v in order <==> v in coefficients;
      } else {
        CoefficientAtOutside(coefficients, cols, j);
      }
    }
  }

  /** The constraint's row holds the constraint and is the slack row of
      row `i`, with its own slack column. */
  lemma ConstraintRowOfFacts(rhs: real, width: nat, coefficients: map<string, real>, cols: map<string, nat>, i: nat)
    requires VariableColumns(cols) && 1 <= i && width == 1 + |cols| + i
    ensures HoldsConstraint(ConstraintRowOf(rhs, width, coefficients, cols), LessThan(rhs), coefficients, cols)
    ensures SlackRow(ConstraintRowOf(rhs, width, coefficients, cols), |cols|, i)
  {
    var row := ConstraintRowOf(rhs, width, coefficients, cols);
    forall v | v in cols
      ensures row[cols[v]] == (if v in coefficients then coefficients[v] else 0.0)
    {
      CoefficientAtVariable(coefficients, cols, v);
    }
    CoefficientAtOutside(coefficients, cols, Z_INDEX);
    forall j | 2 + |cols| <= j < |row|
      ensures row[j] == (if j == SlackColumn(|cols|, i) then 1.0 else 0.0)
    {
      CoefficientAtOutside(coefficients, cols, j);
    }
  }

  // ---------------------------------------------------------------------
  // The constructed tableau

  /** The rows of the constraints `types`/`coefficients`, row k built when
      the tableau was 2 + nv + k columns wide. */
  ghost function ConstraintRows(types: seq<ConstraintType>, coefficients: seq<map<string, real>>,
                                nv: nat, cols: map<string, nat>): (rows: seq<seq<real>>)
    requires |types| == |coefficients|
    ensures |rows| == |types|
  {
    seq(|types|, k requires 0 <= k < |types| => ConstraintRowOf(types[k].rhs, 2 + nv + k, coefficients[k], cols))
  }

  /** `m` with `rows` appended one by one, each bringing one new column. */
  ghost function Grow(m: seq<seq<real>>, rows: seq<seq<real>>): (r: seq<seq<real>>)
    ensures |r| == |m| + |rows|
    decreases |rows|
  {
    if rows == [] then m else AppendZeroColumn(Grow(m, rows[..|rows| - 1])) + [rows[|rows| - 1]]
  }

  /** The basic variables after row 0 and `n` constraint rows: Z, then each
      row's slack column. */
  ghost function BasicOf(nv: nat, n: nat): (basic: seq<nat>)
    ensures |basic| == n + 1
  {
    [Z_INDEX] + seq(n, k requires 0 <= k < n => SlackColumn(nv, 1 + k))
  }

  lemma BasicOfAt(nv: nat, n: nat)
    ensures BasicOf(nv, n)[0] == Z_INDEX
    ensures forall i :: 1 <= i <= n ==> BasicOf(nv, n)[i] == SlackColumn(nv, i)
  {
  }

  /** Before the first constraint. */
  lemma ConstructedEmpty(top: seq<seq<real>>, types: seq<ConstraintType>, coefficients: seq<map<string, real>>,
                         nv: nat, cols: map<string, nat>)
    requires |types| == |coefficients|
    ensures Grow(top, ConstraintRows(types[..0], coefficients[..0], nv, cols)) == top
    ensures BasicOf(nv, 0) == [Z_INDEX]
  {
    assert ConstraintRows(types[..0], coefficients[..0], nv, cols) == [];
  }

  /** One constraint's step of the construction, on the whole tableau. */
  lemma ConstructedStep(top: seq<seq<real>>, types: seq<ConstraintType>, coefficients: seq<map<string, real>>,
                        nv: nat, cols: map<string, nat>, i: nat, width: nat, rhs: real, coefficientsI: map<string, real>,
                        before: seq<seq<real>>, after: seq<seq<real>>)
    requires i < |types| == |coefficients| && width == 2 + nv + i
    requires rhs == types[i].rhs && coefficientsI == coefficients[i]
    requires before == Grow(top, ConstraintRows(types[..i], coefficients[..i], nv, cols))
    requires after == AppendZeroColumn(before) + [ConstraintRowOf(rhs, width, coefficientsI, cols)]
    ensures after == Grow(top, ConstraintRows(types[..i + 1], coefficients[..i + 1], nv, cols))
    ensures BasicOf(nv, i) + [width] == BasicOf(nv, i + 1)
  {
    var rows := ConstraintRows(types[..i + 1], coefficients[..i + 1], nv, cols);
    assert rows[..i] == ConstraintRows(types[..i], coefficients[..i], nv, cols);
  }

  lemma ZerosStep(n: nat)
    ensures Zeros(n) + [0.0] == Zeros(n + 1)
  {
  }

  /** The rows of `top` in a grown tableau, padded with a zero per row
      appended after them. */
  lemma {:induction false} GrowAtTop(top: seq<seq<real>>, rows: seq<seq<real>>, i: nat)
    requires i < |top|
    ensures Grow(top, rows)[i] == top[i] + Zeros(|rows|)
    decreases |rows|
  {
    var n := |rows|;
    if n == 0 {
      assert top[i] + Zeros(0) == top[i];
    } else {
      var front := rows[..n - 1];
      GrowAtTop(top, front, i);
      ZerosStep(n - 1);
      assert Grow(top, front)[i] + [0.0] == top[i] + (Zeros(n - 1) + [0.0]);
    }
  }

  /** Appended row `k` in a grown tableau (at index `j` = |top| + k), padded
      with a zero per row appended after it. */
  lemma {:induction false} GrowAtRow(top: seq<seq<real>>, rows: seq<seq<real>>, k: nat, j: nat)
    requires k < |rows| && j == |top| + k
    ensures Grow(top, rows)[j] == rows[k] + Zeros(|rows| - 1 - k)
    decreases |rows|
  {
    var n := |rows|;
    var front := rows[..n - 1];
    if k == n - 1 {
      assert rows[k] + Zeros(0) == rows[k];
    } else {
      GrowAtRow(top, front, k, j);
      ZerosStep(n - 2 - k);
      assert Grow(top, front)[j] + [0.0] == rows[k] + (Zeros(n - 2 - k) + [0.0]);
    }
  }

  /** Row `k` of the constraint rows holds constraint `k` and is the slack
      row of tableau row 1 + k. */
  lemma ConstraintRowsAt(types: seq<ConstraintType>, coefficients: seq<map<string, real>>,
                         nv: nat, cols: map<string, nat>, k: nat)
    requires |types| == |coefficients| && k < |types|
    requires VariableColumns(cols) && |cols| == nv && types[k].LessThan?
    ensures var row := ConstraintRows(types, coefficients, nv, cols)[k];
            |row| == 3 + nv + k &&
            HoldsConstraint(row, types[k], coefficients[k], cols) && SlackRow(row, nv, 1 + k)
  {
    var rhs := types[k].rhs;
    ConstraintRowOfFacts(rhs, 2 + nv + k, coefficients[k], cols, 1 + k);
    assert types[k] == LessThan(rhs);
  }

  /** Zeros appended to row 0 fall in slack columns, where row 0 is 0. */
  lemma ObjectiveRowPadded(row: seq<real>, variables: map<string, Variable>, cols: map<string, nat>, p: nat)
    requires ObjectiveRow(row, variables, cols)
    ensures ObjectiveRow(row + Zeros(p), variables, cols)
  {
    var r := row + Zeros(p);
    forall v | v in cols
      ensures r[cols[v]] == row[cols[v]]
    {
    }
  }

  /** Zeros appended to a constraint row fall in later rows' slack columns. */
  lemma SlackRowPadded(row: seq<real>, nv: nat, i: nat, p: nat)
    requires SlackRow(row, nv, i) && SlackColumn(nv, i) < |row|
    ensures SlackRow(row + Zeros(p), nv, i)
  {
  }

  lemma HoldsConstraintPadded(row: seq<real>, constraintType: ConstraintType,
                              coefficients: map<string, real>, cols: map<string, nat>, p: nat)
    requires HoldsConstraint(row, constraintType, coefficients, cols)
    ensures HoldsConstraint(row + Zeros(p), constraintType, coefficients, cols)
  {
    var r := row + Zeros(p);
    forall v | v in cols
      ensures r[cols[v]] == row[cols[v]]
    {
    }
  }

  /** Row 0 of a grown one-row tableau is still the objective row. */
  lemma GrownObjectiveRow(top: seq<seq<real>>, rows: seq<seq<real>>, m: seq<seq<real>>,
                          variables: map<string, Variable>, cols: map<string, nat>)
    requires |top| == 1 && m == Grow(top, rows)
    requires ObjectiveRow(top[0], variables, cols)
    ensures |m[0]| == |top[0]| + |rows| && ObjectiveRow(m[0], variables, cols)
  {
    GrowAtTop(top, rows, 0);
    ObjectiveRowPadded(top[0], variables, cols, |rows|);
  }

  /** Row i = 1 + k of a grown one-row tableau is constraint k's row, padded:
      it is the slack row of row i and holds constraint k. */
  lemma GrownConstraintRow(top: seq<seq<real>>, types: seq<ConstraintType>, coefficients: seq<map<string, real>>,
                           nv: nat, cols: map<string, nat>, rows: seq<seq<real>>, m: seq<seq<real>>, k: nat, i: nat)
    requires |top| == 1 && |types| == |coefficients| && k < |types| && i == 1 + k
    requires rows == ConstraintRows(types, coefficients, nv, cols) && m == Grow(top, rows)
    requires VariableColumns(cols) && |cols| == nv && types[k].LessThan?
    ensures |m[i]| == 2 + nv + |types|
    ensures SlackRow(m[i], nv, i)
    ensures HoldsConstraint(m[i], types[k], coefficients[k], cols)
  {
    var row := rows[k];
    var p := |types| - 1 - k;
    GrowAtRow(top, rows, k, i);
    ConstraintRowsAt(types, coefficients, nv, cols, k);
    SlackRowPadded(row, nv, i, p);
    HoldsConstraintPadded(row, types[k], coefficients[k], cols, p);
  }

  /** A laid-out one-row tableau grown by the rows of less-than constraints
      is laid out, each constraint row having brought its slack column. */
  lemma GrownLayout(top: seq<seq<real>>, types: seq<ConstraintType>, coefficients: seq<map<string, real>>,
                    nv: nat, cols: map<string, nat>, rows: seq<seq<real>>, m: seq<seq<real>>,
                    variables: map<string, Variable>)
    requires |top| == 1 && |top[0]| == 2 + nv && ObjectiveRow(top[0], variables, cols)
    requires cols.Keys == variables.Keys && |cols| == nv && |types| == |coefficients|
    requires rows == ConstraintRows(types, coefficients, nv, cols) && m == Grow(top, rows)
    requires forall k :: 0 <= k < |types| ==> types[k].LessThan?
    ensures Layout(m, 2 + nv + |types|, BasicOf(nv, |types|), variables, cols)
  {
    GrownObjectiveRow(top, rows, m, variables, cols);
    BasicOfAt(nv, |types|);
    forall i | 1 <= i < |m|
      ensures |m[i]| == 2 + nv + |types| && SlackRow(m[i], nv, i)
    {
      GrownConstraintRow(top, types, coefficients, nv, cols, rows, m, i - 1, i);
    }
  }

  /** A one-row tableau grown by the rows of less-than constraints holds
      those constraints in rows 1, 2, .... */
  lemma GrownRowsHold(top: seq<seq<real>>, types: seq<ConstraintType>, coefficients: seq<map<string, real>>,
                      nv: nat, cols: map<string, nat>, rows: seq<seq<real>>, m: seq<seq<real>>)
    requires |top| == 1 && |types| == |coefficients|
    requires rows == ConstraintRows(types, coefficients, nv, cols) && m == Grow(top, rows)
    requires VariableColumns(cols) && |cols| == nv
    requires forall k :: 0 <= k < |types| ==> types[k].LessThan?
    ensures RowsHold(m, types, coefficients, cols)
  {
    forall k | 0 <= k < |types|
      ensures HoldsConstraint(m[1 + k], types[k], coefficients[k], cols)
    {
      GrownConstraintRow(top, types, coefficients, nv, cols, rows, m, k, 1 + k);
    }
  }

  /** Every relation in `types` is less-than (defined element by element
      from the front, the way the construction loop visits them). */
  ghost predicate LessThanAll(types: seq<ConstraintType>)
    decreases |types|
  {
    types == [] || (LessThanAll(types[..|types| - 1]) && types[|types| - 1].LessThan?)
  }

  lemma LessThanAllStep(types: seq<ConstraintType>, i: nat)
    requires i < |types| && LessThanAll(types[..i]) && types[i].LessThan?
    ensures LessThanAll(types[..i + 1])
  {
    assert types[..i + 1][..i] == types[..i];
  }

  lemma {:induction false} LessThanAllAt(types: seq<ConstraintType>)
    requires LessThanAll(types)
    ensures forall k :: 0 <= k < |types| ==> types[k].LessThan?
    decreases |types|
  {
    if types != [] {
      var front := types[..|types| - 1];
      LessThanAllAt(front);
      assert forall k :: 0 <= k < |front| ==> front[k] == types[k];
    }
  }

  /** The tableau built over enumerations of the model's variables and of
      its constraints, all of them less-than constraints, is laid out, in
      canonical form, and holds the constraints in order. */
  lemma ConstructedTableau(model: Model, names: seq<string>, top: seq<seq<real>>, cols: map<string, nat>,
                           m: seq<seq<real>>)
    requires Enumerates(names, model.constraints.Keys)
    requires |top| == 1 && |top[0]| == 2 + |cols| && ObjectiveRow(top[0], model.variables, cols)
    requires cols.Keys == model.variables.Keys
    requires LessThanAll(ConstraintTypes(model.constraints, names))
    requires m == Grow(top, ConstraintRows(ConstraintTypes(model.constraints, names),
                                           ConstraintCoefficients(model.constraints, names), |cols|, cols))
    ensures Layout(m, 2 + |cols| + |names|, BasicOf(|cols|, |names|), model.variables, cols)
    ensures Canonical(m, BasicOf(|cols|, |names|))
    ensures RowsHold(m, ConstraintTypes(model.constraints, names), ConstraintCoefficients(model.constraints, names), cols)
    ensures AllLessThan(model)
  {
    var types := ConstraintTypes(model.constraints, names);
    var coefficients := ConstraintCoefficients(model.constraints, names);
    var rows := ConstraintRows(types, coefficients, |cols|, cols);
    LessThanAllAt(types);
    GrownLayout(top, types, coefficients, |cols|, cols, rows, m, model.variables);
    GrownRowsHold(top, types, coefficients, |cols|, cols, rows, m);
    LayoutIsCanonical(m, 2 + |cols| + |names|, BasicOf(|cols|, |names|), model.variables, cols);
    forall k | k in model.constraints
      ensures model.constraints[k].constraintType.LessThan?
    {
      var n :| 0 <= n < |names| && names[n] == k;
      assert types[n].LessThan?;
    }
  }

  /** The shape of the tableau after a new row, its RHS and its slack column. */
  lemma ConstraintRowShape(m: seq<seq<real>>, width: nat, rhs: real)
    requires Rect(m, width) && 1 <= width
    ensures var added := (m + [Zeros(width)])[|m| := Zeros(width)[RHS_INDEX := rhs]];
            AppendZeroColumn(added)[|m| := added[|m|] + [1.0]] ==
            AppendZeroColumn(m) + [SlackRowBase(rhs, width)]
  {
    var added := (m + [Zeros(width)])[|m| := Zeros(width)[RHS_INDEX := rhs]];
    var lhs := AppendZeroColumn(added)[|m| := added[|m|] + [1.0]];
    var rhsSeq := AppendZeroColumn(m) + [SlackRowBase(rhs, width)];
    assert lhs[|m|] == rhsSeq[|m|];
    forall k | 0 <= k < |m|
      ensures lhs[k] == rhsSeq[k]
    {
      assert added[k] == m[k];
    }
  }

  /** Replacing the last element of `a + [s]`. */
  lemma ReplaceLast(a: seq<seq<real>>, s: seq<real>, t: seq<real>)
    ensures (a + [s])[|a| := t] == a + [t]
  {
  }

  /** The relations of the constraints named in `names`, in that order. */
  ghost function ConstraintTypes(constraints: map<string, Constraint>, names: seq<string>): seq<ConstraintType>
    requires forall n :: n in names ==> n in constraints
  {
    seq(|names|, k requires 0 <= k < |names| => constraints[names[k]].constraintType)
  }

  /** The coefficient maps of the constraints named in `names`, in that order. */
  ghost function ConstraintCoefficients(constraints: map<string, Constraint>, names: seq<string>): seq<map<string, real>>
    requires forall n :: n in names ==> n in constraints
    reads constraints.Values
  {
    seq(|names|, k requires 0 <= k < |names| reads constraints.Values => constraints[names[k]].coefficients)
  }

  /** Every constraint of the model is a less-than constraint. */
  ghost predicate AllLessThan(model: Model)
    reads model, model.constraints.Values
  {
    forall k :: k in model.constraints ==> model.constraints[k].constraintType.LessThan?
  }

  /** The constructed tableau is in canonical form: the anchor column is the
      unit vector of row 0 and each slack column that of its own row. */
  lemma {:induction false} LayoutIsCanonical(m: seq<seq<real>>, width: nat, basic: seq<nat>,
                                             variables: map<string, Variable>, cols: map<string, nat>)
    requires Layout(m, width, basic, variables, cols)
    ensures Canonical(m, basic)
  {
    var nv := |cols|;
    forall i | 0 <= i < |m|
      ensures UnitColumn(m, basic[i], i)
    {
      forall k | 0 <= k < |m|
        ensures basic[i] < |m[k]| && m[k][basic[i]] == (if k == i then 1.0 else 0.0)
      {
        if k >= 1 {
          assert SlackRow(m[k], nv, k);
        }
      }
    }
  }

  /** Right after construction the pivot loop has work to do exactly when
      some variable has a positive objective coefficient: row 0 holds the
      negated coefficients. */
  lemma {:induction false} LayoutNegativeReducedCostIff(m: seq<seq<real>>, width: nat, basic: seq<nat>,
                                                        variables: map<string, Variable>, cols: map<string, nat>)
    requires Layout(m, width, basic, variables, cols)
    ensures NegativeReducedCost(m) <==> exists v :: v in variables && variables[v].objectiveValue > 0.0
  {
    if NegativeReducedCost(m) {
      var j :| 2 <= j < |m[0]| && m[0][j] < 0.0;
      assert j < 2 + |cols|;
      assert j in cols.Values;
      var v :| v in cols && cols[v] == j;
      assert variables[v].objectiveValue > 0.0;
    }
    if exists v :: v in variables && variables[v].objectiveValue > 0.0 {
      var v :| v in variables && variables[v].objectiveValue > 0.0;
      assert m[0][cols[v]] < 0.0;
    }
  }

  // ---------------------------------------------------------------------
  // The Gauss-Jordan pivot

  /** The pivot row divided by its entry in the entering column. */
  function NormalizedRow(row: seq<real>, c: nat): (r: seq<real>)
    requires c < |row| && row[c] != 0.0
    ensures |r| == |row| && r[c] == 1.0
    ensures forall j :: 0 <= j < |row| ==> r[j] * row[c] == row[j]
  {
    seq(|row|, j requires 0 <= j < |row| => row[j] / row[c])
  }

  /** A non-pivot row after elimination: the normalized pivot row, scaled by
      this row's entry in the entering column, is subtracted from it. */
  function EliminatedRow(row: seq<real>, pivotRow: seq<real>, c: nat): (r: seq<real>)
    requires |row| == |pivotRow| && c < |row|
    ensures |r| == |row|
    ensures pivotRow[c] == 1.0 ==> r[c] == 0.0
    ensures forall j :: 0 <= j < |row| && pivotRow[j] == 0.0 ==> r[j] == row[j]
  {
    seq(|row|, j requires 0 <= j < |row| => row[j] + -row[c] * pivotRow[j])
  }

  /** The tableau after pivoting on row `r`, column `c`. */
  function Pivoted(m: seq<seq<real>>, r: nat, c: nat): (p: seq<seq<real>>)
    requires r < |m| && Rect(m, |m[r]|) && c < |m[r]| && m[r][c] != 0.0
    ensures |p| == |m| && Rect(p, |m[r]|)
    ensures forall i :: 0 <= i < |m| ==> p[i][c] == (if i == r then 1.0 else 0.0)
  {
    var pivotRow := NormalizedRow(m[r], c);
    seq(|m|, i requires 0 <= i < |m| => if i == r then pivotRow else EliminatedRow(m[i], pivotRow, c))
  }

  /** The elimination phase part-way: `m1` (its pivot row already
      normalized) with every row above `k` except the pivot row eliminated. */
  function PartiallyEliminated(m1: seq<seq<real>>, r: nat, c: nat, k: nat): (p: seq<seq<real>>)
    requires r < |m1| && Rect(m1, |m1[r]|) && c < |m1[r]|
    ensures |p| == |m1|
  {
    seq(|m1|, i requires 0 <= i < |m1| => if i < k && i != r then EliminatedRow(m1[i], m1[r], c) else m1[i])
  }

  /** One row part-way through its elimination: its first `j` cells have
      had `ratio` times the pivot row added. */
  function PartiallyEliminatedRow(row: seq<real>, pivotRow: seq<real>, ratio: real, j: nat): (r: seq<real>)
    requires |row| == |pivotRow|
    ensures |r| == |row|
  {
    seq(|row|, t requires 0 <= t < |row| => if t < j then row[t] + ratio * pivotRow[t] else row[t])
  }

  /** One step of the column loop. */
  lemma PartiallyEliminatedRowStep(row: seq<real>, pivotRow: seq<real>, ratio: real, j: nat)
    requires |row| == |pivotRow| && j < |row|
    ensures PartiallyEliminatedRow(row, pivotRow, ratio, j)[j] == row[j]
    ensures PartiallyEliminatedRow(row, pivotRow, ratio, j)[j := row[j] + ratio * pivotRow[j]] ==
            PartiallyEliminatedRow(row, pivotRow, ratio, j + 1)
  {
    var before := PartiallyEliminatedRow(row, pivotRow, ratio, j);
    var after := PartiallyEliminatedRow(row, pivotRow, ratio, j + 1);
    forall t | 0 <= t < |row|
      ensures before[j := row[j] + ratio * pivotRow[j]][t] == after[t]
    {
    }
  }

  /** One cell of the column loop, stated on the whole tableau: the cell
      `value` of the row and `pivotValue` of the pivot row, combined, and
      written back. */
  lemma EliminateCellStep(current: seq<seq<real>>, row: nat, pivotRow: nat, ratio: real, j: nat,
                          before: seq<seq<real>>, value: real, pivotValue: real, after: seq<seq<real>>)
    requires row < |current| && pivotRow < |current| && row != pivotRow
    requires |current[row]| == |current[pivotRow]| && j < |current[row]|
    requires before == current[row := PartiallyEliminatedRow(current[row], current[pivotRow], ratio, j)]
    requires value == before[row][j] && pivotValue == before[pivotRow][j]
    requires after == before[row := before[row][j := value + ratio * pivotValue]]
    ensures after == current[row := PartiallyEliminatedRow(current[row], current[pivotRow], ratio, j + 1)]
  {
    var r := current[row];
    var p := current[pivotRow];
    PartiallyEliminatedRowStep(r, p, ratio, j);
    var partial := PartiallyEliminatedRow(r, p, ratio, j);
    var next := PartiallyEliminatedRow(r, p, ratio, j + 1);
    assert before[row] == partial;
    assert value + ratio * pivotValue == r[j] + ratio * p[j];
    assert after[row] == next;
    UpdateTwice(current, row, before[row], next);
  }

  /** The column loop starts from the row and, with the ratio taken before
      it starts, ends at the eliminated row. */
  lemma PartiallyEliminatedRowEnds(row: seq<real>, pivotRow: seq<real>, c: nat)
    requires |row| == |pivotRow| && c < |row|
    ensures PartiallyEliminatedRow(row, pivotRow, -row[c], 0) == row
    ensures PartiallyEliminatedRow(row, pivotRow, -row[c], |row|) == EliminatedRow(row, pivotRow, c)
  {
  }

  /** One step of the row loop; the pivot row itself is skipped. */
  lemma PartiallyEliminatedStep(m1: seq<seq<real>>, r: nat, c: nat, k: nat)
    requires r < |m1| && Rect(m1, |m1[r]|) && c < |m1[r]| && k < |m1|
    ensures PartiallyEliminated(m1, r, c, k + 1) ==
            (if k == r then PartiallyEliminated(m1, r, c, k)
             else PartiallyEliminated(m1, r, c, k)[k := EliminatedRow(m1[k], m1[r], c)])
  {
  }

  /** The pivot is the normalization of the pivot row followed by the
      elimination of every other row. */
  lemma PivotedInTwoPhases(m: seq<seq<real>>, r: nat, c: nat)
    requires r < |m| && Rect(m, |m[r]|) && c < |m[r]| && m[r][c] != 0.0
    ensures PartiallyEliminated(m[r := NormalizedRow(m[r], c)], r, c, 0) == m[r := NormalizedRow(m[r], c)]
    ensures PartiallyEliminated(m[r := NormalizedRow(m[r], c)], r, c, |m|) == Pivoted(m, r, c)
  {
  }

  /** Writing twice at the same index keeps the second write. */
  lemma UpdateTwice(s: seq<seq<real>>, i: nat, a: seq<real>, b: seq<real>)
    requires i < |s|
    ensures s[i := a][i := b] == s[i := b]
  {
  }

  /** After the pivot the entering column is the unit vector of the pivot row. */
  lemma PivotMakesUnitColumn(m: seq<seq<real>>, r: nat, c: nat)
    requires r < |m| && Rect(m, |m[r]|) && c < |m[r]| && m[r][c] != 0.0
    ensures UnitColumn(Pivoted(m, r, c), c, r)
  {
  }

  /** A column that is 0 in the pivot row comes through the pivot unchanged.
      In particular the anchor column keeps its 1 in row 0 whenever the pivot
      row has 0 there. */
  lemma PivotKeepsColumn(m: seq<seq<real>>, r: nat, c: nat, j: nat)
    requires r < |m| && Rect(m, |m[r]|) && c < |m[r]| && m[r][c] != 0.0
    requires j < |m[r]| && m[r][j] == 0.0
    ensures forall k :: 0 <= k < |m| ==> Pivoted(m, r, c)[k][j] == m[k][j]
  {
    var p := Pivoted(m, r, c);
    assert p[r][j] == 0.0 / m[r][c];
  }

  /** A pivot with a nonzero pivot entry keeps the tableau canonical, with
      the entering column as the pivot row's new basic variable. */
  lemma {:induction false} PivotPreservesCanonical(m: seq<seq<real>>, basic: seq<nat>, r: nat, c: nat)
    requires r < |m| && Rect(m, |m[r]|) && c < |m[r]| && m[r][c] != 0.0
    requires Canonical(m, basic)
    ensures Canonical(Pivoted(m, r, c), basic[r := c])
  {
    var p := Pivoted(m, r, c);
    var basic' := basic[r := c];
    forall i | 0 <= i < |m|
      ensures UnitColumn(p, basic'[i], i)
    {
      if i == r {
        PivotMakesUnitColumn(m, r, c);
      } else {
        var b := basic[i];
        assert UnitColumn(m, b, i);
        assert m[r][b] == 0.0;
        PivotKeepsColumn(m, r, c, b);
      }
    }
  }

  // ---------------------------------------------------------------------
  // The minimum-ratio test

  /** Row `i` (a constraint row) may leave the basis for column `c`: its
      entry there is positive. */
  ghost predicate Eligible(m: seq<seq<real>>, i: nat, c: nat) {
    1 <= i < |m| && 0 < |m[i]| && c < |m[i]| && m[i][c] > 0.0
  }

  ghost function Ratio(m: seq<seq<real>>, i: nat, c: nat): real
    requires Eligible(m, i, c)
  {
    m[i][RHS_INDEX] / m[i][c]
  }

  /** Row `r` passes the minimum-ratio test for column `c`. */
  ghost predicate MinRatioRow(m: seq<seq<real>>, c: nat, r: nat) {
    Eligible(m, r, c) && forall i :: Eligible(m, i, c) ==> Ratio(m, r, c) <= Ratio(m, i, c)
  }

  /** Every constraint row has a non-negative right-hand side. */
  ghost predicate Feasible(m: seq<seq<real>>) {
    forall i :: 1 <= i < |m| ==> 0 < |m[i]| && m[i][RHS_INDEX] >= 0.0
  }

  /** A pivot on a row chosen by the minimum-ratio test keeps every
      right-hand side non-negative. */
  lemma {:induction false} PivotKeepsFeasible(m: seq<seq<real>>, r: nat, c: nat)
    requires r < |m| && Rect(m, |m[r]|) && c < |m[r]|
    requires Feasible(m) && MinRatioRow(m, c, r)
    ensures Feasible(Pivoted(m, r, c))
  {
    var p := Pivoted(m, r, c);
    var t := Ratio(m, r, c);
    assert t >= 0.0;
    assert p[r][RHS_INDEX] == t;
    forall i | 1 <= i < |m| && i != r
      ensures p[i][RHS_INDEX] >= 0.0
    {
      assert p[i][RHS_INDEX] == m[i][RHS_INDEX] + -m[i][c] * t;
      if m[i][c] > 0.0 {
        assert Eligible(m, i, c);
        assert t <= m[i][RHS_INDEX] / m[i][c];
        assert m[i][c] * t <= m[i][c] * (m[i][RHS_INDEX] / m[i][c]);
        assert m[i][c] * (m[i][RHS_INDEX] / m[i][c]) == m[i][RHS_INDEX];
      } else {
        assert -m[i][c] * t >= 0.0;
      }
    }
  }

  /** A pivot on a constraint row with a positive entry in a column whose
      reduced cost is negative never decreases row 0's right-hand side, the
      value the solver reports. */
  lemma {:induction false} PivotObjectiveNonDecreasing(m: seq<seq<real>>, r: nat, c: nat)
    requires r < |m| && Rect(m, |m[r]|) && c < |m[r]|
    requires Feasible(m) && Eligible(m, r, c) && m[0][c] < 0.0
    ensures Pivoted(m, r, c)[0][RHS_INDEX] >= m[0][RHS_INDEX]
  {
    var p := Pivoted(m, r, c);
    var t := Ratio(m, r, c);
    assert t >= 0.0;
    assert p[0][RHS_INDEX] == m[0][RHS_INDEX] + -m[0][c] * t;
    assert -m[0][c] * t >= 0.0;
  }

  // ---------------------------------------------------------------------
  // The solve loop as a sequence of pivots

  /** Dantzig's rule on `m`: `c` is a variable column with the least reduced
      cost, the first such column. */
  ghost predicate DantzigColumn(m: seq<seq<real>>, c: nat) {
    |m| > 0 && 2 <= c < |m[0]| &&
    (forall j :: 2 <= j < |m[0]| ==> m[0][c] <= m[0][j]) &&
    (forall j :: 2 <= j < c ==> m[0][c] < m[0][j])
  }

  /** The row the ratio test picks for column `c`: 0 when no constraint row
      is eligible, otherwise the first row with the minimum ratio. */
  ghost predicate RatioTestRow(m: seq<seq<real>>, c: nat, r: nat) {
    r < |m| &&
    (r == 0 <==> forall i :: 1 <= i < |m| ==> c < |m[i]| && m[i][c] <= 0.0) &&
    (r != 0 ==> MinRatioRow(m, c, r) &&
                forall i :: 1 <= i < r && Eligible(m, i, c) ==> Ratio(m, r, c) < Ratio(m, i, c))
  }

  /** One turn of the solve loop: some reduced cost of `m` is negative, the
      column and row are those the selection rules pick, and the tableau and
      its basic variables become the pivoted ones. */
  ghost predicate SolverStep(m: seq<seq<real>>, basic: seq<nat>, r: nat, c: nat,
                             m': seq<seq<real>>, basic': seq<nat>) {
    |m| > 0 && Rect(m, |m[0]|) && NegativeReducedCost(m) &&
    DantzigColumn(m, c) && RatioTestRow(m, c, r) && m[r][c] != 0.0 &&
    m' == Pivoted(m, r, c) && r < |basic| && basic' == basic[r := c]
  }

  /** `tableaux[k]` and `bases[k]` are the state after `k` turns of the solve
      loop, turn `k` pivoting on `steps[k]` (row, column). */
  ghost predicate Run(tableaux: seq<seq<seq<real>>>, bases: seq<seq<nat>>, steps: seq<(nat, nat)>)
    decreases |steps|
  {
    |tableaux| == |steps| + 1 && |bases| == |steps| + 1 &&
    (steps == [] ||
     (Run(tableaux[..|steps|], bases[..|steps|], steps[..|steps| - 1]) &&
      SolverStep(tableaux[|steps| - 1], bases[|steps| - 1], steps[|steps| - 1].0, steps[|steps| - 1].1,
                 tableaux[|steps|], bases[|steps|])))
  }

  /** A run extended by one more turn. */
  lemma RunStep(tableaux: seq<seq<seq<real>>>, bases: seq<seq<nat>>, steps: seq<(nat, nat)>,
                r: nat, c: nat, m': seq<seq<real>>, basic': seq<nat>)
    requires Run(tableaux, bases, steps)
    requires SolverStep(tableaux[|steps|], bases[|steps|], r, c, m', basic')
    ensures Run(tableaux + [m'], bases + [basic'], steps + [(r, c)])
  {
    var n := |steps|;
    assert (tableaux + [m'])[..n + 1] == tableaux;
    assert (bases + [basic'])[..n + 1] == bases;
    assert (steps + [(r, c)])[..n] == steps;
  }

  /** From a tableau whose constraint rows all have a non-negative RHS, a
      run whose every pivot row passed the ratio test (none fell back to
      row 0) keeps every RHS non-negative and never lowers the objective
      value in row 0. */
  lemma {:induction false} RunKeepsFeasible(tableaux: seq<seq<seq<real>>>, bases: seq<seq<nat>>,
                                            steps: seq<(nat, nat)>)
    requires Run(tableaux, bases, steps)
    requires |tableaux[0]| > 0 && |tableaux[0][0]| > 0 && Feasible(tableaux[0])
    requires forall k :: 0 <= k < |steps| ==> steps[k].0 != 0
    ensures |tableaux[|steps|]| == |tableaux[0]| && |tableaux[|steps|][0]| > 0
    ensures Feasible(tableaux[|steps|])
    ensures tableaux[|steps|][0][RHS_INDEX] >= tableaux[0][0][RHS_INDEX]
    decreases |steps|
  {
    if steps != [] {
      var n := |steps| - 1;
      var front := tableaux[..n + 1];
      assert forall k :: 0 <= k < |steps[..n]| ==> steps[..n][k] == steps[k];
      RunKeepsFeasible(front, bases[..n + 1], steps[..n]);
      assert front[n] == tableaux[n] && front[0] == tableaux[0];
      var m := tableaux[n];
      var (r, c) := steps[n];
      assert r != 0;
      var j :| 2 <= j < |m[0]| && m[0][j] < 0.0;
      assert m[0][c] <= m[0][j];
      PivotKeepsFeasible(m, r, c);
      PivotObjectiveNonDecreasing(m, r, c);
    }
  }
}
