/** The simplex solver: it builds its own tableau from a model (the same
    layout as the stand-alone tableau) and pivots, entering column by
    Dantzig's rule and leaving row by the minimum-ratio test, while some
    reduced cost is negative. */
module Simplex {
  import opened Lp
  import opened Matrices
  import opened TableauMath

  class Solver {
    const tableau: Matrix
    const model: Model
    var variableColumn: map<string, nat>
    var basicVariable: seq<nat>

    /** The solver's invariant: a non-empty tableau with the RHS and anchor
        columns, in canonical form with respect to `basicVariable`. */
    ghost predicate Valid()
      reads this, tableau
    {
      tableau.Valid() && 1 <= tableau.numRows && 2 <= tableau.numCols &&
      Canonical(tableau.values, basicVariable)
    }

    /** The state construction keeps between its steps. */
    ghost predicate Building()
      reads this, tableau, model
    {
      tableau.Valid() && Layout(tableau.values, tableau.numCols, basicVariable, model.variables, variableColumn)
    }

    /** What construction produces: one row per constraint of the model,
        row 1 + k holding constraint `order[k]`. */
    ghost predicate Initial(order: seq<string>)
      reads this, tableau, model, model.constraints.Values
    {
      Building() && Enumerates(order, model.constraints.Keys) &&
      RowsHold(tableau.values, ConstraintTypes(model.constraints, order),
               ConstraintCoefficients(model.constraints, order), variableColumn)
    }

    /** The empty solver state, before the tableau is initialised. */
    constructor Empty(model: Model)
      ensures this.model == model && fresh(tableau)
      ensures tableau.Valid() && tableau.values == [] && tableau.numCols == 0
      ensures variableColumn == map[] && basicVariable == []
    {
      this.model := model;
      tableau := new Matrix();
      variableColumn := map[];
      basicVariable := [];
    }

    /** Builds a solver for `model`. None stands for the abort on an
        equality or greater-than constraint, which are not implemented;
        `order` is the order the constraints were visited in. */
    static method New(model: Model) returns (solver: Option<Solver>, ghost order: seq<string>)
      ensures solver.Some? <==> AllLessThan(model)
      ensures solver.Some? ==> fresh(solver.value) && fresh(solver.value.tableau) && solver.value.model == model
      ensures solver.Some? ==> solver.value.Valid() && solver.value.Initial(order)
    {
      var s := new Solver.Empty(model);
      var ok;
      ok, order := s.InitializeTableau();
      solver := if ok then Some(s) else None;
    }

    /** Row 0, then one row per constraint of the model, visited in the
        map's iteration order `order`; stops (ok false) at the first
        constraint that is not a less-than constraint. */
    method InitializeTableau() returns (ok: bool, ghost order: seq<string>)
      requires tableau.Valid() && tableau.values == [] && tableau.numCols == 0
      requires variableColumn == map[] && basicVariable == []
      modifies this, tableau
      ensures ok <==> AllLessThan(model)
      ensures ok ==> Valid() && Initial(order)
    {
      CreateRow0();
      ghost var top := tableau.values;
      var names := IterationOrder(model.constraints);
      order := names;
      ok := CreateConstraintRows(names);
      if ok {
        ConstructedTableau(model, names, top, variableColumn, tableau.values);
      }
    }

    /** The loop of the initialisation over the model's constraints, in
        `names` order: one row each, stopping (ok false) at the first
        constraint that is not a less-than constraint. */
    method CreateConstraintRows(names: seq<string>) returns (ok: bool)
      requires forall n :: n in names ==> n in model.constraints
      requires tableau.Valid() && VariableColumns(variableColumn) && tableau.numCols == 2 + |variableColumn|
      requires basicVariable == [Z_INDEX]
      modifies this, tableau
      ensures ok ==> LessThanAll(ConstraintTypes(model.constraints, names))
      ensures !ok ==> !AllLessThan(model)
      ensures ok ==> tableau.Valid() && tableau.numCols == old(tableau.numCols) + |names|
      ensures ok ==> tableau.values == Grow(old(tableau.values), ConstraintRows(ConstraintTypes(model.constraints, names),
                                              ConstraintCoefficients(model.constraints, names), |variableColumn|, variableColumn))
      ensures ok ==> variableColumn == old(variableColumn) && basicVariable == BasicOf(|variableColumn|, |names|)
    {
      ghost var top := tableau.values;
      ghost var cols := variableColumn;
      ghost var nv := |variableColumn|;
      ghost var types := ConstraintTypes(model.constraints, names);
      ghost var coefficients := ConstraintCoefficients(model.constraints, names);
      ConstructedEmpty(top, types, coefficients, nv, cols);
      assert LessThanAll(types[..0]);
      var i := 0;
      while i < |names|
        invariant 0 <= i <= |names|
        invariant tableau.Valid() && tableau.numCols == 2 + nv + i
        invariant tableau.values == Grow(top, ConstraintRows(types[..i], coefficients[..i], nv, cols))
        invariant variableColumn == cols && basicVariable == BasicOf(nv, i)
        invariant LessThanAll(types[..i])
      {
        var constraint := model.constraints[names[i]];
        ghost var before := tableau.values;
        ghost var width := tableau.numCols;
        var created := CreateConstraint(constraint);
        if !created {
          return false;
        }
        LessThanAllStep(types, i);
        ConstructedStep(top, types, coefficients, nv, cols, i, width, constraint.constraintType.rhs, constraint.coefficients,
                        before, tableau.values);
        i := i + 1;
      }
      assert types[..i] == types && coefficients[..i] == coefficients;
      ok := true;
    }

    /** Row 0: RHS 0, anchor 1, and a fresh column per variable, in the
        map's iteration order, holding its negated objective coefficient;
        Z becomes row 0's basic variable. */
    method CreateRow0()
      requires tableau.Valid() && tableau.values == [] && tableau.numCols == 0
      requires variableColumn == map[] && basicVariable == []
      modifies this, tableau
      ensures Building() && |tableau.values| == 1
    {
      var _ := tableau.AddRow();
      ghost var a := tableau.values;
      var _ := tableau.AddColumn();
      ghost var b := tableau.values;
      var _ := tableau.AddColumn();
      ghost var c := tableau.values;
      tableau.SetValue(0, Z_INDEX, 1.0);
      ghost var d := tableau.values;
      tableau.SetValue(0, RHS_INDEX, 0.0);
      ObjectiveRowStart(model.variables, a, b, c, d, tableau.values);
      var names := IterationOrder(model.variables);
      CreateVariableColumns(names);
      basicVariable := basicVariable + [Z_INDEX];
      ObjectiveRowLayout(model.variables, names);
    }

    /** The loop of row 0 over the model's variables, in `names` order: a
        fresh column for each, named in `variableColumn`, holding its negated
        objective coefficient. */
    method CreateVariableColumns(names: seq<string>)
      requires forall n :: n in names ==> n in model.variables
      requires tableau.Valid() && tableau.values == [ObjectiveRowOf(model.variables, [])] && tableau.numCols == 2
      requires variableColumn == map[]
      modifies this, tableau
      ensures tableau.Valid() && tableau.values == [ObjectiveRowOf(model.variables, names)]
      ensures tableau.numCols == 2 + |names|
      ensures variableColumn == ColumnsOf(names) && basicVariable == old(basicVariable)
    {
      ObjectiveRowEmpty(model.variables, names);
      var i := 0;
      while i < |names|
        invariant 0 <= i <= |names|
        invariant tableau.Valid() && tableau.numCols == 2 + i
        invariant tableau.values == [ObjectiveRowOf(model.variables, names[..i])]
        invariant variableColumn == ColumnsOf(names[..i])
        invariant basicVariable == old(basicVariable)
      {
        var name := names[i];
        ghost var before := tableau.values;
        var column := tableau.AddColumn();
        ghost var widened := tableau.values;
        variableColumn := variableColumn[name := column];
        tableau.SetValue(0, column, -model.variables[name].objectiveValue);
        ObjectiveRowStep(model.variables, names, i, before, widened, column, tableau.values);
        ColumnsOfStep(names, i);
        i := i + 1;
      }
      assert names[..i] == names;
    }

    /** Appends one row for `constraint`. A less-than constraint gets its
        RHS, a new slack column that is basic in this row, and its
        coefficients in the columns of known variables (a coefficient for
        an unknown name is skipped); ok is false for the other relations,
        where the program aborts. */
    method CreateConstraint(constraint: Constraint) returns (ok: bool)
      requires tableau.Valid() && VariableColumns(variableColumn) && 2 + |variableColumn| <= tableau.numCols
      modifies this, tableau
      ensures ok <==> constraint.constraintType.LessThan?
      ensures ok ==> tableau.Valid() && tableau.numCols == old(tableau.numCols) + 1
      ensures ok ==> tableau.values == AppendZeroColumn(old(tableau.values)) +
                       [ConstraintRowOf(constraint.constraintType.rhs, old(tableau.numCols),
                                        constraint.coefficients, variableColumn)]
      ensures ok ==> basicVariable == old(basicVariable) + [old(tableau.numCols)]
      ensures ok ==> variableColumn == old(variableColumn)
    {
      ghost var m := tableau.values;
      ghost var width := tableau.numCols;
      ghost var basic := basicVariable;
      ghost var cols := variableColumn;
      var r := tableau.AddRow();
      match constraint.constraintType {
        case LessThan(rhs) =>
          tableau.SetValue(r, RHS_INDEX, rhs);
          CreateSlackVariable(r);
        case Equals(_) =>
          return false;
        case GreaterThan(_) =>
          return false;
      }
      ghost var rhs := constraint.constraintType.rhs;
      ghost var base := SlackRowBase(rhs, width);
      ConstraintRowShape(m, width, rhs);
      ghost var names := WriteCoefficients(r, constraint.coefficients);
      ReplaceLast(AppendZeroColumn(m), base, WithCoefficients(base, constraint.coefficients, cols, names));
      WithCoefficientsIsRow(rhs, width, constraint.coefficients, cols, names);
      ok := true;
    }

    /** The loop over the constraint's coefficients: each one whose name
        is a variable of the model is written into that variable's column
        of row `r`; the others are skipped. `order` is the map's iteration
        order. */
    method WriteCoefficients(r: nat, coefficients: map<string, real>) returns (ghost order: seq<string>)
      requires tableau.Valid() && r < tableau.numRows
      requires VariableColumns(variableColumn) && 2 + |variableColumn| <= tableau.numCols
      modifies tableau
      ensures Enumerates(order, coefficients.Keys)
      ensures tableau.Valid() && tableau.numRows == old(tableau.numRows) && tableau.numCols == old(tableau.numCols)
      ensures tableau.values == old(tableau.values)[r := WithCoefficients(old(tableau.values)[r], coefficients, variableColumn, order)]
    {
      ghost var m := tableau.values;
      var names := IterationOrder(coefficients);
      order := names;
      assert names[..0] == [];
      var i := 0;
      while i < |names|
        invariant 0 <= i <= |names|
        invariant tableau.Valid() && tableau.numRows == |m| && tableau.numCols == old(tableau.numCols)
        invariant tableau.values == m[r := WithCoefficients(m[r], coefficients, variableColumn, names[..i])]
      {
        var name := names[i];
        if name in variableColumn {
          tableau.SetValue(r, variableColumn[name], coefficients[name]);
        }
        // otherwise the coefficient names no variable of the model: skipped
        WithCoefficientsStep(m[r], coefficients, variableColumn, names, i);
        i := i + 1;
      }
      assert names[..i] == names;
    }

    /** Appends a column that is 1 in `row` and 0 elsewhere, and makes it the
        row's basic variable. */
    method CreateSlackVariable(row: nat)
      requires tableau.Valid() && row < tableau.numRows
      modifies this, tableau
      ensures tableau.Valid()
      ensures tableau.numRows == old(tableau.numRows) && tableau.numCols == old(tableau.numCols) + 1
      ensures tableau.values == AppendZeroColumn(old(tableau.values))[row := old(tableau.values)[row] + [1.0]]
      ensures basicVariable == old(basicVariable) + [old(tableau.numCols)]
      ensures variableColumn == old(variableColumn)
    {
      var column := tableau.AddColumn();
      tableau.SetValue(row, column, 1.0);
      assert (old(tableau.values)[row] + [0.0])[column := 1.0] == old(tableau.values)[row] + [1.0];
      basicVariable := basicVariable + [column];
    }

    /** Whether some variable column still has a negative reduced cost. */
    method ShouldContinue() returns (b: bool)
      requires Valid()
      ensures b <==> NegativeReducedCost(tableau.values)
    {
      var numCols := tableau.NumCols();
      var i := 2;
      while i < numCols
        invariant 2 <= i <= numCols
        invariant forall j :: 2 <= j < i ==> tableau.values[0][j] >= 0.0
      {
        var reducedCost := GetReducedCost(i);
        if reducedCost < 0.0 {
          return true;
        }
        i := i + 1;
      }
      return false;
    }

    /** Pivots while some reduced cost is negative. The program's loop has
        no bound (Dantzig's rule can cycle), so at most `fuel` pivots are
        made; `finished` says whether the loop stopped on its own condition.
        `tableaux`, `bases` and `steps` record the run: each turn pivots on
        the column and row the selection rules pick. */
    method Solve(fuel: nat) returns (finished: bool, ghost tableaux: seq<seq<seq<real>>>,
                                     ghost bases: seq<seq<nat>>, ghost steps: seq<(nat, nat)>)
      requires Valid()
      modifies this, tableau
      ensures Valid()
      ensures tableau.numRows == old(tableau.numRows) && tableau.numCols == old(tableau.numCols)
      ensures finished <==> !NegativeReducedCost(tableau.values)
      ensures !finished ==> |steps| == fuel
      ensures |steps| <= fuel && Run(tableaux, bases, steps)
      ensures tableaux[0] == old(tableau.values) && bases[0] == old(basicVariable)
      ensures tableaux[|steps|] == tableau.values && bases[|steps|] == basicVariable
      ensures variableColumn == old(variableColumn)
    {
      tableaux, bases, steps := [tableau.values], [basicVariable], [];
      var go := ShouldContinue();
      var count := 0;
      while go && count < fuel
        invariant Valid()
        invariant tableau.numRows == old(tableau.numRows) && tableau.numCols == old(tableau.numCols)
        invariant go <==> NegativeReducedCost(tableau.values)
        invariant count == |steps| <= fuel && Run(tableaux, bases, steps)
        invariant tableaux[0] == old(tableau.values) && bases[0] == old(basicVariable)
        invariant tableaux[|steps|] == tableau.values && bases[|steps|] == basicVariable
        invariant variableColumn == old(variableColumn)
        decreases fuel - count
      {
        ghost var j :| 2 <= j < |tableau.values[0]| && tableau.values[0][j] < 0.0;
        ghost var before := tableau.values;
        ghost var basicBefore := basicVariable;
        var column := ChoosePivotColumn();
        var row := ChoosePivotRow(column);
        assert tableau.values[row][column] != 0.0 by {
          if row == 0 {
            assert tableau.values[0][column] <= tableau.values[0][j];
          }
        }
        Pivot(row, column);
        RunStep(tableaux, bases, steps, row, column, tableau.values, basicVariable);
        tableaux, bases, steps := tableaux + [tableau.values], bases + [basicVariable], steps + [(row, column)];
        go := ShouldContinue();
        count := count + 1;
      }
      finished := !go;
    }

    /** The Gauss-Jordan step on (pivotRow, pivotColumn): the pivot row is
        normalised, the entering column eliminated from every other row, and
        the entering column becomes the pivot row's basic variable. */
    method Pivot(pivotRow: nat, pivotColumn: nat)
      requires Valid()
      requires pivotRow < tableau.numRows && pivotColumn < tableau.numCols
      requires tableau.values[pivotRow][pivotColumn] != 0.0
      modifies this, tableau
      ensures Valid()
      ensures tableau.numRows == old(tableau.numRows) && tableau.numCols == old(tableau.numCols)
      ensures tableau.values == Pivoted(old(tableau.values), pivotRow, pivotColumn)
      ensures basicVariable == old(basicVariable)[pivotRow := pivotColumn]
      ensures variableColumn == old(variableColumn)
    {
      ghost var m := tableau.values;
      NormalizePivotRow(pivotRow, pivotColumn);
      ghost var m1 := tableau.values;
      PivotedInTwoPhases(m, pivotRow, pivotColumn);
      var numRows := tableau.NumRows();
      var numCols := tableau.NumCols();
      var currentRow := 0;
      while currentRow < numRows
        invariant 0 <= currentRow <= numRows
        invariant tableau.Valid() && tableau.numRows == numRows && tableau.numCols == numCols
        invariant tableau.values == PartiallyEliminated(m1, pivotRow, pivotColumn, currentRow)
        invariant basicVariable == old(basicVariable)
        invariant variableColumn == old(variableColumn)
      {
        if currentRow != pivotRow {
          EliminateRow(currentRow, pivotRow, pivotColumn);
        }
        PartiallyEliminatedStep(m1, pivotRow, pivotColumn, currentRow);
        currentRow := currentRow + 1;
      }
      basicVariable := basicVariable[pivotRow := pivotColumn];
      PivotPreservesCanonical(m, old(basicVariable), pivotRow, pivotColumn);
    }

    /** The inner loop of the pivot: adds to `row` its negated entry in the
        entering column times the (normalized) pivot row, cell by cell. */
    method EliminateRow(row: nat, pivotRow: nat, pivotColumn: nat)
      requires tableau.Valid() && row < tableau.numRows && pivotRow < tableau.numRows && row != pivotRow
      requires pivotColumn < tableau.numCols
      modifies tableau
      ensures tableau.Valid() && tableau.numRows == old(tableau.numRows) && tableau.numCols == old(tableau.numCols)
      ensures tableau.values == old(tableau.values)[row := EliminatedRow(old(tableau.values)[row], old(tableau.values)[pivotRow], pivotColumn)]
    {
      ghost var current := tableau.values;
      var entry := tableau.GetValue(row, pivotColumn);
      var ratio := -entry;
      var numCols := tableau.NumCols();
      PartiallyEliminatedRowEnds(current[row], current[pivotRow], pivotColumn);
      var currentColumn := 0;
      while currentColumn < numCols
        invariant 0 <= currentColumn <= numCols
        invariant tableau.Valid() && tableau.numRows == |current| && tableau.numCols == numCols
        invariant tableau.values == current[row := PartiallyEliminatedRow(current[row], current[pivotRow], ratio, currentColumn)]
      {
        var value := tableau.GetValue(row, currentColumn);
        var pivotValue := tableau.GetValue(pivotRow, currentColumn);
        ghost var before := tableau.values;
        tableau.SetValue(row, currentColumn, value + ratio * pivotValue);
        EliminateCellStep(current, row, pivotRow, ratio, currentColumn, before, value, pivotValue, tableau.values);
        currentColumn := currentColumn + 1;
      }
    }

    /** Divides every cell of `row` by its entry in `column`. */
    method NormalizePivotRow(row: nat, column: nat)
      requires tableau.Valid()
      requires row < tableau.numRows && column < tableau.numCols
      requires tableau.values[row][column] != 0.0
      modifies tableau
      ensures tableau.Valid()
      ensures tableau.numRows == old(tableau.numRows) && tableau.numCols == old(tableau.numCols)
      ensures tableau.values == old(tableau.values)[row := NormalizedRow(old(tableau.values)[row], column)]
    {
      var ratio := tableau.GetValue(row, column);
      var numCols := tableau.NumCols();
      var i := 0;
      while i < numCols
        invariant tableau.Valid() && tableau.numRows == old(tableau.numRows) && tableau.numCols == numCols
        invariant 0 <= i <= numCols
        invariant forall k :: 0 <= k < |tableau.values| && k != row ==> tableau.values[k] == old(tableau.values)[k]
        invariant forall j :: 0 <= j < i ==> tableau.values[row][j] == old(tableau.values)[row][j] / ratio
        invariant forall j :: i <= j < numCols ==> tableau.values[row][j] == old(tableau.values)[row][j]
      {
        var value := tableau.GetValue(row, i);
        tableau.SetValue(row, i, value / ratio);
        i := i + 1;
      }
      assert tableau.values[row] == NormalizedRow(old(tableau.values)[row], column);
    }

    /** Dantzig's rule: the variable column with the most negative reduced
        cost, the lowest index among equals. */
    method ChoosePivotColumn() returns (nextColumn: nat)
      requires Valid() && tableau.numCols >= 3
      ensures nextColumn < tableau.numCols && DantzigColumn(tableau.values, nextColumn)
    {
      nextColumn := 2;
      var bestValue := GetReducedCost(2);
      var numCols := tableau.NumCols();
      var i := 3;
      while i < numCols
        invariant 3 <= i <= numCols
        invariant 2 <= nextColumn < i
        invariant bestValue == tableau.values[0][nextColumn]
        invariant forall j :: 2 <= j < i ==> bestValue <= tableau.values[0][j]
        invariant forall j :: 2 <= j < nextColumn ==> bestValue < tableau.values[0][j]
      {
        var value := GetReducedCost(i);
        if value < bestValue {
          nextColumn := i;
          bestValue := value;
        }
        i := i + 1;
      }
    }

    /** The minimum-ratio test over the constraint rows with a positive entry
        in the entering column, the lowest index among equals; 0 when no row
        has a positive entry. */
    method ChoosePivotRow(enteringVariable: nat) returns (row: nat)
      requires Valid() && enteringVariable < tableau.numCols
      ensures row < tableau.numRows && RatioTestRow(tableau.values, enteringVariable, row)
    {
      var minRatio: Option<real> := None;
      row := 0;
      var numRows := tableau.NumRows();
      var i := 1;
      while i < numRows
        invariant 1 <= i <= numRows
        invariant row < i
        invariant minRatio.None? <==> row == 0
        invariant row == 0 ==> forall k :: 1 <= k < i ==> tableau.values[k][enteringVariable] <= 0.0
        invariant row != 0 ==> Eligible(tableau.values, row, enteringVariable) &&
                               minRatio.value == Ratio(tableau.values, row, enteringVariable)
        invariant row != 0 ==> forall k :: 1 <= k < i && Eligible(tableau.values, k, enteringVariable) ==>
                                 minRatio.value <= Ratio(tableau.values, k, enteringVariable)
        invariant row != 0 ==> forall k :: 1 <= k < row && Eligible(tableau.values, k, enteringVariable) ==>
                                 minRatio.value < Ratio(tableau.values, k, enteringVariable)
      {
        var entry := tableau.GetValue(i, enteringVariable);
        if entry > 0.0 {
          var rhs := tableau.GetValue(i, RHS_INDEX);
          var ratio := rhs / entry;
          if minRatio.None? || ratio < minRatio.value {
            minRatio := Some(ratio);
            row := i;
          }
        }
        i := i + 1;
      }
    }

    /** Row 0's entry in `column`. */
    method GetReducedCost(column: nat) returns (value: real)
      requires Valid() && column < tableau.numCols
      ensures value == tableau.values[0][column]
    {
      value := tableau.GetValue(0, column);
    }

    /** Row 0's right-hand side. */
    method GetObjectiveValue() returns (value: real)
      requires Valid()
      ensures value == tableau.values[0][RHS_INDEX]
    {
      value := tableau.GetValue(0, RHS_INDEX);
    }
  }
}
