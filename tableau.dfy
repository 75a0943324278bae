/** The stand-alone tableau: the same layout the solver builds (row 0 holds
    the negated objective, one row per less-than constraint with its own
    slack column), together with the accessors the program offers on it. */
module Tableaux {
  import opened Lp
  import opened Matrices
  import opened TableauMath

  class Tableau {
    const matrix: Matrix
    var variableColumn: map<string, nat>
    var basicVariable: seq<nat>

    /** The shape every accessor relies on: a rectangular matrix with row 0
        and the RHS and anchor columns, and one basic variable per row. */
    ghost predicate Valid()
      reads this, matrix
    {
      matrix.Valid() && 1 <= matrix.numRows && 2 <= matrix.numCols &&
      |basicVariable| == matrix.numRows
    }

    /** The state construction keeps between its steps. */
    ghost predicate Building(model: Model)
      reads this, matrix, model
    {
      matrix.Valid() && Layout(matrix.values, matrix.numCols, basicVariable, model.variables, variableColumn)
    }

    /** What construction produces: one row per constraint of `model`,
        row 1 + k holding constraint `order[k]`. */
    ghost predicate Initial(model: Model, order: seq<string>)
      reads this, matrix, model, model.constraints.Values
    {
      Building(model) && Enumerates(order, model.constraints.Keys) &&
      RowsHold(matrix.values, ConstraintTypes(model.constraints, order),
               ConstraintCoefficients(model.constraints, order), variableColumn)
    }

    /** An empty matrix, no variable columns and no basic variables. */
    constructor Empty()
      ensures fresh(matrix)
      ensures matrix.Valid() && matrix.values == [] && matrix.numCols == 0
      ensures variableColumn == map[] && basicVariable == []
    {
      matrix := new Matrix();
      variableColumn := map[];
      basicVariable := [];
    }

    /** Builds the tableau of `model`: row 0, then the constraints. None
        stands for the abort on an equality or greater-than constraint;
        `order` is the order the constraints were visited in. The result
        is in canonical form, the first basic feasible solution when
        every RHS is non-negative. */
    static method New(model: Model) returns (tableau: Option<Tableau>, ghost order: seq<string>)
      ensures tableau.Some? <==> AllLessThan(model)
      ensures tableau.Some? ==> fresh(tableau.value) && fresh(tableau.value.matrix)
      ensures tableau.Some? ==> tableau.value.Valid() && tableau.value.Initial(model, order)
      ensures tableau.Some? ==> Canonical(tableau.value.matrix.values, tableau.value.basicVariable)
    {
      var t := new Tableau.Empty();
      var ok;
      ok, order := t.Build(model);
      tableau := if ok then Some(t) else None;
    }

    /** The body of the constructor on an empty tableau: row 0, then one
        row per constraint. */
    method Build(model: Model) returns (ok: bool, ghost order: seq<string>)
      requires matrix.Valid() && matrix.values == [] && matrix.numCols == 0
      requires variableColumn == map[] && basicVariable == []
      modifies this, matrix
      ensures ok <==> AllLessThan(model)
      ensures ok ==> Valid() && Initial(model, order) && Canonical(matrix.values, basicVariable)
    {
      CreateRow0(model);
      ghost var top := matrix.values;
      ok, order := CreateConstraints(model);
      if ok {
        ConstructedTableau(model, order, top, variableColumn, matrix.values);
      }
    }

    /** Writes `value` into one cell. */
    method SetValue(row: nat, column: nat, value: real)
      requires Valid() && row < matrix.numRows && column < matrix.numCols
      modifies matrix
      ensures Valid()
      ensures matrix.numRows == old(matrix.numRows) && matrix.numCols == old(matrix.numCols)
      ensures matrix.values == old(matrix.values)[row := old(matrix.values)[row][column := value]]
    {
      matrix.SetValue(row, column, value);
    }

    /** Reads one cell. */
    method GetValue(row: nat, column: nat) returns (value: real)
      requires Valid() && row < matrix.numRows && column < matrix.numCols
      ensures value == matrix.values[row][column]
    {
      value := matrix.GetValue(row, column);
    }

    /** Row 0: RHS 0, anchor 1, and a fresh column per variable, in the
        map's iteration order, holding its negated objective coefficient;
        Z becomes row 0's basic variable. */
    method CreateRow0(model: Model)
      requires matrix.Valid() && matrix.values == [] && matrix.numCols == 0
      requires variableColumn == map[] && basicVariable == []
      modifies this, matrix
      ensures Building(model) && |matrix.values| == 1
    {
      var _ := matrix.AddRow();
      ghost var a := matrix.values;
      var _ := matrix.AddColumn();
      ghost var b := matrix.values;
      var _ := matrix.AddColumn();
      ghost var c := matrix.values;
      matrix.SetValue(0, Z_INDEX, 1.0);
      ghost var d := matrix.values;
      matrix.SetValue(0, RHS_INDEX, 0.0);
      ObjectiveRowStart(model.variables, a, b, c, d, matrix.values);
      var names := IterationOrder(model.variables);
      CreateVariableColumns(model, names);
      basicVariable := basicVariable + [Z_INDEX];
      ObjectiveRowLayout(model.variables, names);
    }

    /** The loop of row 0 over the model's variables, in `names` order: a
        fresh column for each, named in `variableColumn`, holding its negated
        objective coefficient. */
    method CreateVariableColumns(model: Model, names: seq<string>)
      requires forall n :: n in names ==> n in model.variables
      requires matrix.Valid() && matrix.values == [ObjectiveRowOf(model.variables, [])] && matrix.numCols == 2
      requires variableColumn == map[]
      modifies this, matrix
      ensures matrix.Valid() && matrix.values == [ObjectiveRowOf(model.variables, names)]
      ensures matrix.numCols == 2 + |names|
      ensures variableColumn == ColumnsOf(names) && basicVariable == old(basicVariable)
    {
      ObjectiveRowEmpty(model.variables, names);
      var i := 0;
      while i < |names|
        invariant 0 <= i <= |names|
        invariant matrix.Valid() && matrix.numCols == 2 + i
        invariant matrix.values == [ObjectiveRowOf(model.variables, names[..i])]
        invariant variableColumn == ColumnsOf(names[..i])
        invariant basicVariable == old(basicVariable)
      {
        var name := names[i];
        ghost var before := matrix.values;
        var column := matrix.AddColumn();
        ghost var widened := matrix.values;
        variableColumn := variableColumn[name := column];
        matrix.SetValue(0, column, -model.variables[name].objectiveValue);
        ObjectiveRowStep(model.variables, names, i, before, widened, column, matrix.values);
        ColumnsOfStep(names, i);
        i := i + 1;
      }
      assert names[..i] == names;
    }

    /** One row per constraint of `model`, visited in the map's iteration
        order `order`; stops (ok false) at the first constraint that is not
        a less-than constraint. */
    method CreateConstraints(model: Model) returns (ok: bool, ghost order: seq<string>)
      requires matrix.Valid() && VariableColumns(variableColumn) && matrix.numCols == 2 + |variableColumn|
      requires basicVariable == [Z_INDEX]
      modifies this, matrix
      ensures Enumerates(order, model.constraints.Keys)
      ensures ok ==> LessThanAll(ConstraintTypes(model.constraints, order))
      ensures !ok ==> !AllLessThan(model)
      ensures ok ==> matrix.Valid() && matrix.numCols == old(matrix.numCols) + |order|
      ensures ok ==> matrix.values == Grow(old(matrix.values), ConstraintRows(ConstraintTypes(model.constraints, order),
                                              ConstraintCoefficients(model.constraints, order), |variableColumn|, variableColumn))
      ensures ok ==> variableColumn == old(variableColumn) && basicVariable == BasicOf(|variableColumn|, |order|)
    {
      var names := IterationOrder(model.constraints);
      order := names;
      ok := CreateConstraintRows(model, names);
    }

    /** The loop over the constraints, in `names` order: one row each,
        stopping (ok false) at the first constraint that is not a less-than
        constraint. */
    method CreateConstraintRows(model: Model, names: seq<string>) returns (ok: bool)
      requires forall n :: n in names ==> n in model.constraints
      requires matrix.Valid() && VariableColumns(variableColumn) && matrix.numCols == 2 + |variableColumn|
      requires basicVariable == [Z_INDEX]
      modifies this, matrix
      ensures ok ==> LessThanAll(ConstraintTypes(model.constraints, names))
      ensures !ok ==> !AllLessThan(model)
      ensures ok ==> matrix.Valid() && matrix.numCols == old(matrix.numCols) + |names|
      ensures ok ==> matrix.values == Grow(old(matrix.values), ConstraintRows(ConstraintTypes(model.constraints, names),
                                              ConstraintCoefficients(model.constraints, names), |variableColumn|, variableColumn))
      ensures ok ==> variableColumn == old(variableColumn) && basicVariable == BasicOf(|variableColumn|, |names|)
    {
      ghost var top := matrix.values;
      ghost var cols := variableColumn;
      ghost var nv := |variableColumn|;
      ghost var types := ConstraintTypes(model.constraints, names);
      ghost var coefficients := ConstraintCoefficients(model.constraints, names);
      ConstructedEmpty(top, types, coefficients, nv, cols);
      assert LessThanAll(types[..0]);
      var i := 0;
      while i < |names|
        invariant 0 <= i <= |names|
        invariant matrix.Valid() && matrix.numCols == 2 + nv + i
        invariant matrix.values == Grow(top, ConstraintRows(types[..i], coefficients[..i], nv, cols))
        invariant variableColumn == cols && basicVariable == BasicOf(nv, i)
        invariant LessThanAll(types[..i])
      {
        var constraint := model.constraints[names[i]];
        ghost var before := matrix.values;
        ghost var width := matrix.numCols;
        var created := CreateConstraint(constraint);
        if !created {
          return false;
        }
        LessThanAllStep(types, i);
        ConstructedStep(top, types, coefficients, nv, cols, i, width, constraint.constraintType.rhs, constraint.coefficients,
                        before, matrix.values);
        i := i + 1;
      }
      assert types[..i] == types && coefficients[..i] == coefficients;
      ok := true;
    }

    /** Appends one row for `constraint`. A less-than constraint gets its
        RHS, a new slack column that is basic in this row, and its
        coefficients in the columns of known variables (a coefficient for
        an unknown name is skipped); ok is false for the other relations,
        where the program aborts. */
    method CreateConstraint(constraint: Constraint) returns (ok: bool)
      requires matrix.Valid() && VariableColumns(variableColumn) && 2 + |variableColumn| <= matrix.numCols
      modifies this, matrix
      ensures ok <==> constraint.constraintType.LessThan?
      ensures ok ==> matrix.Valid() && matrix.numCols == old(matrix.numCols) + 1
      ensures ok ==> matrix.values == AppendZeroColumn(old(matrix.values)) +
                       [ConstraintRowOf(constraint.constraintType.rhs, old(matrix.numCols),
                                        constraint.coefficients, variableColumn)]
      ensures ok ==> basicVariable == old(basicVariable) + [old(matrix.numCols)]
      ensures ok ==> variableColumn == old(variableColumn)
    {
      ghost var m := matrix.values;
      ghost var width := matrix.numCols;
      ghost var cols := variableColumn;
      var r := matrix.AddRow();
      match constraint.constraintType {
        case LessThan(rhs) =>
          matrix.SetValue(r, RHS_INDEX, rhs);
          CreateSlackVariable(r);
        case Equals(_) =>
          return false;
        case GreaterThan(_) =>
          return false;
      }
      ghost var rhs := constraint.constraintType.rhs;
      ghost var base := SlackRowBase(rhs, width);
      ConstraintRowShape(m, width, rhs);
      ghost var names := WriteCoefficients(r, constraint.coefficients);
      ReplaceLast(AppendZeroColumn(m), base, WithCoefficients(base, constraint.coefficients, cols, names));
      WithCoefficientsIsRow(rhs, width, constraint.coefficients, cols, names);
      ok := true;
    }

    /** The loop over the constraint's coefficients: each one whose name
        is a variable of the model is written into that variable's column
        of row `r`; the others are skipped. `order` is the map's iteration
        order. */
    method WriteCoefficients(r: nat, coefficients: map<string, real>) returns (ghost order: seq<string>)
      requires matrix.Valid() && r < matrix.numRows
      requires VariableColumns(variableColumn) && 2 + |variableColumn| <= matrix.numCols
      modifies matrix
      ensures Enumerates(order, coefficients.Keys)
      ensures matrix.Valid() && matrix.numRows == old(matrix.numRows) && matrix.numCols == old(matrix.numCols)
      ensures matrix.values == old(matrix.values)[r := WithCoefficients(old(matrix.values)[r], coefficients, variableColumn, order)]
    {
      ghost var m := matrix.values;
      var names := IterationOrder(coefficients);
      order := names;
      assert names[..0] == [];
      var i := 0;
      while i < |names|
        invariant 0 <= i <= |names|
        invariant matrix.Valid() && matrix.numRows == |m| && matrix.numCols == old(matrix.numCols)
        invariant matrix.values == m[r := WithCoefficients(m[r], coefficients, variableColumn, names[..i])]
      {
        var name := names[i];
        if name in variableColumn {
          matrix.SetValue(r, variableColumn[name], coefficients[name]);
        }
        // otherwise the coefficient names no variable of the model: skipped
        WithCoefficientsStep(m[r], coefficients, variableColumn, names, i);
        i := i + 1;
      }
      assert names[..i] == names;
    }

    /** Appends a column that is 1 in `row` and 0 elsewhere, and makes it the
        row's basic variable. */
    method CreateSlackVariable(row: nat)
      requires matrix.Valid() && row < matrix.numRows
      modifies this, matrix
      ensures matrix.Valid()
      ensures matrix.numRows == old(matrix.numRows) && matrix.numCols == old(matrix.numCols) + 1
      ensures matrix.values == AppendZeroColumn(old(matrix.values))[row := old(matrix.values)[row] + [1.0]]
      ensures basicVariable == old(basicVariable) + [old(matrix.numCols)]
      ensures variableColumn == old(variableColumn)
    {
      var column := matrix.AddColumn();
      matrix.SetValue(row, column, 1.0);
      assert (old(matrix.values)[row] + [0.0])[column := 1.0] == old(matrix.values)[row] + [1.0];
      basicVariable := basicVariable + [column];
    }

    /** Row 0's entry in `column`. */
    method GetReducedCost(column: nat) returns (value: real)
      requires Valid() && column < matrix.numCols
      ensures value == matrix.values[0][column]
    {
      value := matrix.GetValue(0, column);
    }

    /** The right-hand side of `row`. */
    method GetRhs(row: nat) returns (value: real)
      requires Valid() && row < matrix.numRows
      ensures value == matrix.values[row][RHS_INDEX]
    {
      value := matrix.GetValue(row, RHS_INDEX);
    }

    /** The number of rows: row 0 and one per constraint. */
    method NumRows() returns (n: nat)
      requires Valid()
      ensures n == |matrix.values| && n >= 1
    {
      n := matrix.NumRows();
    }

    /** The number of columns: RHS, anchor, variables and slacks. */
    method NumCols() returns (n: nat)
      requires Valid()
      ensures n == matrix.numCols && n >= 2
      ensures forall i :: 0 <= i < |matrix.values| ==> |matrix.values[i]| == n
    {
      n := matrix.NumCols();
    }

    /** Row 0's right-hand side: the objective value of the current basic
        solution. */
    method GetObjectiveValue() returns (value: real)
      requires Valid()
      ensures value == matrix.values[0][RHS_INDEX]
    {
      value := matrix.GetValue(0, RHS_INDEX);
    }

    /** Whether some variable column still has a negative reduced cost. */
    method HasNegativeReducedCost() returns (b: bool)
      requires Valid()
      ensures b <==> NegativeReducedCost(matrix.values)
    {
      var numCols := matrix.NumCols();
      var i := 2;
      while i < numCols
        invariant 2 <= i <= numCols
        invariant forall j :: 2 <= j < i ==> matrix.values[0][j] >= 0.0
      {
        var reducedCost := GetReducedCost(i);
        if reducedCost < 0.0 {
          return true;
        }
        i := i + 1;
      }
      return false;
    }

    /** Makes `column` the basic variable of `row`; nothing else changes. */
    method SetBasicVariable(row: nat, column: nat)
      requires Valid() && row < |basicVariable|
      modifies this
      ensures Valid()
      ensures basicVariable == old(basicVariable)[row := column]
      ensures variableColumn == old(variableColumn)
    {
      basicVariable := basicVariable[row := column];
    }
  }
}
