# rustplex core in Dafny

This project models the core of rustplex, a small linear-programming library
that uses the tableau simplex method:

- **`lp.dfy`, module `Lp`: the model-building API.**
  - `ConstraintType` is the relation of a constraint and carries its right-hand side.
  - `Variable` is a value with consuming builders.
  - `Constraint` holds a sparse coefficient map that is filled in place.
  - `Model` keys its variables and its constraints by name.
- **`matrix.dfy`, module `Matrices`: the dense, append-only matrix.**
  - It grows by whole zero rows and zero columns.
  - It is read and written one bounds-checked cell at a time.
- **`tableau_math.dfy`, module `TableauMath`: the tableau as a value.**
  - The layout that construction produces: column 0 is the right-hand side (RHS), column 1 is the objective anchor Z, then come the variable columns, then one slack column per constraint row.
  - The Gauss-Jordan pivot.
  - The minimum-ratio test.
  - The facts the pivot loop relies on.
- **`simplex.dfy`, module `Simplex`: the solver.**
  - It builds its own tableau from a model.
  - It then pivots while some reduced cost is negative.
  - The entering column is chosen by Dantzig's rule: the most negative reduced cost, the lowest index among equals.
  - The leaving row is chosen by the minimum-ratio test.
- **`tableau.dfy`, module `Tableaux`: the stand-alone `Tableau`.**
  - It is built the same way as the solver's tableau.
  - It offers the accessors the program defines on it.

The classes (`Matrix`, `Constraint`, `Model`, `Solver`, `Tableau`) keep the
fields that the program updates in place. Each of their methods states the
whole new state; for `Solve` that state is given by the run of pivots it
records.

### What is proved

**Construction.**
- When every constraint of the model is a less-than constraint, construction:
  - succeeds;
  - yields a tableau in canonical form, where the basic variables are Z and then each row's own slack column;
  - puts each variable's negated objective coefficient in row 0;
  - puts each constraint's RHS and coefficients in its own row, with 0 for a variable the constraint does not mention.
- Otherwise construction aborts, as the program does at its `todo!()`.

**The pivot.**
- It is the normalization of the pivot row followed by the elimination of every other row.
- It keeps the tableau canonical, with the entering column as the pivot row's new basic variable.
- On a row chosen by the minimum-ratio test, it keeps every RHS non-negative.
- From a tableau whose constraint rows all have a non-negative RHS, a pivot on an eligible row of a column with a negative reduced cost never decreases the objective value in row 0.

**The solve loop.**
- `Solve` records its run: the tableaux and basic variables after each turn, and each turn's (row, column).
- In every turn some reduced cost is negative, the column is the one Dantzig's rule picks, the row is the one the ratio test picks, and the tableau becomes the pivoted one.
- At most `fuel` turns are made. `finished` is true exactly when no reduced cost is negative at the end; otherwise all `fuel` turns were made.
- From a tableau whose constraint rows all have a non-negative RHS, a run in which no turn fell back to row 0 keeps every RHS non-negative and never lowers the objective value.

**Right after construction.** The loop's test (some reduced cost is negative) holds exactly when some variable has a positive objective coefficient.

**Iteration order.** Iteration over a hash map is modelled by `IterationOrder`. It may return the keys in any order, and every statement about construction holds for every such order.

The program negates the objective in row 0 and pivots while a reduced cost is
negative. It therefore maximises the objective, and the model follows the code
in this.

`Tableau::create_constraints` reads the constraints through a field
`constraint_handler` that `Model` does not have. The model reads
`Model.constraints`, which is the map that `add_constraint` fills.

## Model

| member | source | states |
|---|---|---|
| Lp.Variable.New | src/lib.rs:55-62 | a new variable has the given name, no bounds and objective coefficient 0 |
| Lp.Variable.WithObjective | src/lib.rs:64-67 | sets the objective coefficient and keeps every other field |
| Lp.Variable.WithLowerBound | src/lib.rs:69-72 | sets the lower bound and keeps every other field |
| Lp.Variable.WithUpperBound | src/lib.rs:74-77 | sets the upper bound and keeps every other field |
| Lp.BuildersCommute | src/lib.rs:64-77 | builders on distinct fields commute; a later call overrides an earlier one; rebuilding a variable from `new` and its own fields gives it back |
| Lp.Constraint.constructor | src/lib.rs:89-95 | a new constraint has its name and relation and no coefficients |
| Lp.Constraint.SetCoefficient | src/lib.rs:97-100 | inserts or replaces the coefficient under the variable's name; every other coefficient is unchanged |
| Lp.Model.constructor | src/lib.rs:116-121 | a new model has no variables and no constraints |
| Lp.Model.AddVariable | src/lib.rs:123-127 | inserts or replaces the variable under its own name; the other variables and all constraints are unchanged; every entry stays keyed by its own name |
| Lp.Model.AddConstraint | src/lib.rs:129-133 | inserts or replaces the constraint under its own name; the other constraints and all variables are unchanged; every entry stays keyed by its own name |
| Matrices.Matrix.constructor | src/matrix.rs:10-16 | an empty 0 x 0 matrix |
| Matrices.Matrix.AddRow | src/matrix.rs:19-24 | appends a zero row of the current width and returns its index, the old row count |
| Matrices.Matrix.AddColumn | src/matrix.rs:27-33 | appends a 0 to every row and returns the new column's index, the old width |
| Matrices.Matrix.SetValue | src/matrix.rs:35-39 | requires both indices in range, as the asserts do; changes exactly that cell |
| Matrices.Matrix.GetValue | src/matrix.rs:41-45 | requires both indices in range; returns that cell |
| Matrices.Matrix.NumCols | src/matrix.rs:47-49 | the width, which every row has |
| Matrices.Matrix.NumRows | src/matrix.rs:51-53 | the number of stored rows |
| Matrices.AppendZeroColumn | src/matrix.rs:28-30 | the same number of rows, each with one more cell, 0 |
| TableauMath.IterationOrder | src/simplex.rs:61 | the keys of a hash map, each exactly once, in an unspecified order |
| TableauMath.ObjectiveRowOf | src/simplex.rs:53-71 | row 0 over the variables in `order` has RHS 0, Z 1 and one cell per variable |
| TableauMath.ObjectiveRowOfIsObjectiveRow | src/simplex.rs:53-71 | row 0 built over an enumeration of the variables has RHS 0, Z 1 and each variable's negated objective coefficient in the column assigned to it |
| TableauMath.ColumnsOfKeys | src/simplex.rs:61-64 | the variable loop gives a column to every variable and to nothing else, one column per variable |
| TableauMath.WithCoefficients | src/simplex.rs:90-108 | writing coefficients into a row keeps its length |
| TableauMath.ConstraintRowOf | src/simplex.rs:74-109 | a constraint's row is one cell wider than the tableau, with the RHS in column 0 and a 1 in its new slack column |
| TableauMath.ConstraintRowOfFacts | src/simplex.rs:74-109 | a constraint's row holds its RHS and, in each variable's column, its coefficient or 0; in the slack region it is 1 in its own slack column only |
| TableauMath.WithCoefficientsIsRow | src/simplex.rs:90-108 | the coefficient loop, in any order, leaves each variable's coefficient in its column (0 for one the constraint does not mention) and skips names that are not variables |
| TableauMath.ConstructedTableau | src/simplex.rs:45-50 | row 0 plus one row per less-than constraint forms the tableau layout; it is canonical, and row 1 + k holds the k-th constraint visited |
| TableauMath.LayoutIsCanonical | src/simplex.rs:53-115 | in the constructed layout each basic variable (Z, then each row's slack) is the unit column of its row |
| TableauMath.LayoutNegativeReducedCostIff | src/simplex.rs:118-125 | after construction some reduced cost is negative exactly when some variable has a positive objective coefficient |
| TableauMath.NormalizedRow | src/simplex.rs:149-156 | the pivot row divided by its pivot entry: the pivot entry becomes 1 and each cell times the old pivot entry gives the old cell |
| TableauMath.EliminatedRow | src/simplex.rs:136-142 | a row after elimination: 0 in the entering column, unchanged wherever the normalized pivot row is 0 |
| TableauMath.PivotedInTwoPhases | src/simplex.rs:127-146 | normalizing the pivot row and then eliminating the rows one by one, skipping the pivot row, yields the pivoted tableau |
| TableauMath.Pivoted | src/simplex.rs:127-146 | the pivoted tableau keeps its shape, and its entering column is 1 in the pivot row and 0 in every other row |
| TableauMath.PivotPreservesCanonical | src/simplex.rs:127-146 | a pivot on a nonzero entry keeps the tableau canonical, with the entering column as the pivot row's basic variable |
| TableauMath.PivotMakesUnitColumn | src/simplex.rs:130-143 | after the pivot the entering column is the unit vector of the pivot row |
| TableauMath.PivotKeepsColumn | src/simplex.rs:136-142 | a column that is 0 in the pivot row comes through the pivot unchanged |
| TableauMath.PivotKeepsFeasible | src/simplex.rs:175-193 | pivoting on the row chosen by the minimum-ratio test keeps every RHS non-negative |
| TableauMath.PivotObjectiveNonDecreasing | src/simplex.rs:34-43 | from a tableau whose constraint rows all have a non-negative RHS, a pivot on an eligible row in a column with a negative reduced cost never decreases the objective value in row 0 |
| TableauMath.RunKeepsFeasible | src/simplex.rs:34-43 | from a tableau whose constraint rows all have a non-negative RHS, a run of the solve loop in which no turn fell back to row 0 keeps every RHS non-negative and never lowers row 0's RHS |
| Simplex.Solver.Empty | src/simplex.rs:23-28 | an empty matrix, no variable columns and no basic variables, over the given model |
| Simplex.Solver.New | src/simplex.rs:21-32 | succeeds exactly when every constraint is a less-than constraint; the new solver's tableau is canonical and holds row 0 and the constraints |
| Simplex.Solver.InitializeTableau | src/simplex.rs:45-50 | row 0, then one row per constraint in the map's order; it stops at the first constraint that is not less-than |
| Simplex.Solver.CreateConstraintRows | src/simplex.rs:47-49 | the constraint loop: each visited constraint appends its row, and ok is false exactly when some constraint is not less-than |
| Simplex.Solver.CreateRow0 | src/simplex.rs:53-71 | leaves one row in the construction layout: RHS 0, Z 1, the negated objective coefficients, and Z basic |
| Simplex.Solver.CreateVariableColumns | src/simplex.rs:61-68 | the variable loop: one fresh column per variable, named in the column map, holding its negated objective coefficient |
| Simplex.Solver.CreateConstraint | src/simplex.rs:74-109 | a less-than constraint appends its row (RHS, its own slack column as basic, the coefficients of known variables); other relations give ok false |
| Simplex.Solver.WriteCoefficients | src/simplex.rs:90-108 | the coefficient loop: only the coefficient cells of row r change, as WithCoefficients in the map's order |
| Simplex.Solver.CreateSlackVariable | src/simplex.rs:111-115 | appends a column that is 1 in the row and 0 elsewhere, and makes it the row's basic variable |
| Simplex.Solver.ShouldContinue | src/simplex.rs:118-125 | true exactly when some variable column has a negative reduced cost |
| Simplex.Solver.Solve | src/simplex.rs:34-43 | makes at most `fuel` turns and records them as a run in which every turn pivots on the column Dantzig's rule picks and the row the ratio test picks, starting from the old tableau and ending at the new one; `finished` is true exactly when no reduced cost is negative, and otherwise all `fuel` turns were made; canonical form and the variable columns are kept |
| Simplex.Solver.Pivot | src/simplex.rs:127-146 | the tableau becomes the pivoted tableau and the entering column becomes the pivot row's basic variable; canonical form is kept |
| Simplex.Solver.EliminateRow | src/simplex.rs:136-142 | one row is replaced by its eliminated row; every other row is unchanged |
| Simplex.Solver.NormalizePivotRow | src/simplex.rs:149-156 | the pivot row is divided by its pivot entry; every other row is unchanged |
| Simplex.Solver.ChoosePivotColumn | src/simplex.rs:159-171 | a variable column with the least reduced cost, and the first such column |
| Simplex.Solver.ChoosePivotRow | src/simplex.rs:175-193 | 0 exactly when no constraint row has a positive entry in the column; otherwise the first row with the minimum ratio RHS / entry |
| Simplex.Solver.GetReducedCost | src/simplex.rs:196-198 | row 0's entry in the column |
| Simplex.Solver.GetObjectiveValue | src/simplex.rs:201-203 | row 0's RHS |
| Tableaux.Tableau.Empty | src/tableau.rs:20-24 | an empty matrix, no variable columns and no basic variables |
| Tableaux.Tableau.New | src/tableau.rs:19-29 | succeeds exactly when every constraint is a less-than constraint; the tableau is canonical and holds row 0 and the constraints |
| Tableaux.Tableau.Build | src/tableau.rs:26-27 | row 0, then the constraints: the construction layout, in canonical form |
| Tableaux.Tableau.SetValue | src/tableau.rs:31-33 | changes exactly one cell |
| Tableaux.Tableau.GetValue | src/tableau.rs:35-37 | returns one cell |
| Tableaux.Tableau.CreateRow0 | src/tableau.rs:40-58 | leaves one row in the construction layout: RHS 0, Z 1, the negated objective coefficients, and Z basic |
| Tableaux.Tableau.CreateVariableColumns | src/tableau.rs:48-55 | the variable loop: one fresh column per variable, holding its negated objective coefficient |
| Tableaux.Tableau.CreateConstraints | src/tableau.rs:60-64 | one row per constraint in the map's order; ok is false exactly when some constraint is not less-than |
| Tableaux.Tableau.CreateConstraintRows | src/tableau.rs:61-63 | the constraint loop over a given order of the constraints |
| Tableaux.Tableau.CreateConstraint | src/tableau.rs:67-102 | a less-than constraint appends its row (RHS, its own slack column as basic, the coefficients of known variables); other relations give ok false |
| Tableaux.Tableau.WriteCoefficients | src/tableau.rs:83-101 | the coefficient loop: only the coefficient cells of row r change, as WithCoefficients in the map's order |
| Tableaux.Tableau.CreateSlackVariable | src/tableau.rs:104-108 | appends a column that is 1 in the row and 0 elsewhere, and makes it the row's basic variable |
| Tableaux.Tableau.GetReducedCost | src/tableau.rs:111-113 | row 0's entry in the column |
| Tableaux.Tableau.GetRhs | src/tableau.rs:115-117 | the row's entry in the RHS column |
| Tableaux.Tableau.NumRows | src/tableau.rs:119-121 | the number of rows, at least 1 |
| Tableaux.Tableau.NumCols | src/tableau.rs:123-125 | the width, which every row has, at least 2 |
| Tableaux.Tableau.GetObjectiveValue | src/tableau.rs:128-130 | row 0's RHS |
| Tableaux.Tableau.HasNegativeReducedCost | src/tableau.rs:133-140 | true exactly when some variable column has a negative reduced cost |
| Tableaux.Tableau.SetBasicVariable | src/tableau.rs:142-144 | replaces the row's basic variable and changes nothing else |

## Left out

- Floating point: `f64` is modelled as `real`. There is no rounding, no NaN and no infinity.
- `choose_pivot_row` starts its minimum ratio at `f64::MAX`. The model uses "no ratio yet" instead, so a row whose ratio is `f64::MAX` or more would be chosen here and not by the program.
- `usize` arithmetic is unbounded here; overflow of row or column counts is not modelled.
- Hash-map iteration order is left unspecified (`IterationOrder`), as the program does not fix it.
- `todo!()` for equality and greater-than constraints is modelled as the failure result of construction (`None` or ok false), not as a panic.
- Logging (`log::debug!`, `log::warn!`, `log::trace!`), the `Debug` formatting of the matrix, the `variable!` and `constraint!` macros, and `src/main.rs` are not modelled.
- `ColumnType` has the single variant `Single`, so a column is modelled as a plain index.
- Simplex.Solver.Solve: the program's loop has no bound, and Dantzig's rule can cycle. The model makes at most `fuel` pivots and says whether it stopped on its own. Termination of the program's loop is not claimed.
- Simplex.Solver.Solve: when no constraint row is eligible (an unbounded problem), the program pivots on row 0. The model follows this and still proves the tableau canonical. Optimality or unboundedness of the result is not stated.
- TableauMath.ObjectiveRowOf: a name with no variable gives 0. Construction only calls it on the model's own variables, so that case never arises there.
- The loops of `create_row0`, `create_constraint` and `initialize_tableau` / `create_constraints` are stated as separate methods: `CreateVariableColumns`, `WriteCoefficients` and `CreateConstraintRows`. Each of them is called once, in the place of its loop.
- Variable bounds are stored by the builders but not used by the tableau, as in the program.
