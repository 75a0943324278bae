/** The model-building API the tableau consumes: constraint relations,
    variables with their builders, constraints with a sparse coefficient map,
    and the model that owns both collections by name. */
module Lp {

  datatype Option<+T> = None | Some(value: T)

  /** The relation of a constraint, carrying its right-hand side. */
  datatype ConstraintType = LessThan(rhs: real) | Equals(rhs: real) | GreaterThan(rhs: real)

  /** A decision variable. The builders consume the variable and return it
      with one field replaced. */
  datatype Variable = Variable(name: string, lowerBound: Option<real>, upperBound: Option<real>, objectiveValue: real)
  {
    /** A fresh variable: no bounds, objective coefficient 0. */
    static function New(name: string): (v: Variable)
      ensures v.name == name
      ensures v.lowerBound.None? && v.upperBound.None?
      ensures v.objectiveValue == 0.0
    {
      Variable(name, None, None, 0.0)
    }

    function WithObjective(objectiveValue': real): (v: Variable)
      ensures v.objectiveValue == objectiveValue'
      ensures v.name == name && v.lowerBound == lowerBound && v.upperBound == upperBound
    {
      this.(objectiveValue := objectiveValue')
    }

    function WithLowerBound(lowerBound': Option<real>): (v: Variable)
      ensures v.lowerBound == lowerBound'
      ensures v.name == name && v.upperBound == upperBound && v.objectiveValue == objectiveValue
    {
      this.(lowerBound := lowerBound')
    }

    function WithUpperBound(upperBound': Option<real>): (v: Variable)
      ensures v.upperBound == upperBound'
      ensures v.name == name && v.lowerBound == lowerBound && v.objectiveValue == objectiveValue
    {
      this.(upperBound := upperBound')
    }
  }

  /** Because each builder replaces only its own field, a chain of builders
      describes the same variable whatever order it is written in, and a
      later call to the same builder overrides an earlier one. */
  lemma BuildersCommute(v: Variable, o: real, lo: Option<real>, hi: Option<real>,
                        o2: real, lo2: Option<real>, hi2: Option<real>)
    ensures v.WithObjective(o).WithLowerBound(lo).WithUpperBound(hi)
         == v.WithUpperBound(hi).WithLowerBound(lo).WithObjective(o)
    ensures v.WithObjective(o).WithObjective(o2) == v.WithObjective(o2)
    ensures v.WithLowerBound(lo).WithLowerBound(lo2) == v.WithLowerBound(lo2)
    ensures v.WithUpperBound(hi).WithUpperBound(hi2) == v.WithUpperBound(hi2)
    ensures Variable.New(v.name).WithObjective(v.objectiveValue).WithLowerBound(v.lowerBound).WithUpperBound(v.upperBound) == v
  {
  }

  /** A named constraint; its coefficients are added one at a time. */
  class Constraint {
    const name: string
    var coefficients: map<string, real>
    const constraintType: ConstraintType

    constructor (name: string, constraintType: ConstraintType)
      ensures this.name == name && this.constraintType == constraintType
      ensures coefficients == map[]
    {
      this.name := name;
      this.constraintType := constraintType;
      coefficients := map[];
    }

    /** Records `coefficient` for the variable's name, replacing any earlier one. */
    method SetCoefficient(variable: Variable, coefficient: real)
      modifies this
      ensures coefficients.Keys == old(coefficients).Keys + {variable.name}
      ensures coefficients[variable.name] == coefficient
      ensures forall n :: n in old(coefficients) && n != variable.name ==> coefficients[n] == old(coefficients)[n]
    {
      coefficients := coefficients[variable.name := coefficient];
    }
  }

  /** Variables and constraints, each keyed by its own name. */
  class Model {
    var variables: map<string, Variable>
    var constraints: map<string, Constraint>

    /** Every entry is stored under its own name. */
    ghost predicate Valid()
      reads this
    {
      (forall n :: n in variables ==> variables[n].name == n) &&
      (forall n :: n in constraints ==> constraints[n].name == n)
    }

    constructor ()
      ensures Valid()
      ensures variables == map[] && constraints == map[]
    {
      variables := map[];
      constraints := map[];
    }

    method AddVariable(variable: Variable)
      requires Valid()
      modifies this
      ensures Valid()
      ensures variables.Keys == old(variables).Keys + {variable.name}
      ensures variables[variable.name] == variable
      ensures forall n :: n in old(variables) && n != variable.name ==> variables[n] == old(variables)[n]
      ensures constraints == old(constraints)
    {
      variables := variables[variable.name := variable];
    }

    method AddConstraint(constraint: Constraint)
      requires Valid()
      modifies this
      ensures Valid()
      ensures constraints.Keys == old(constraints).Keys + {constraint.name}
      ensures constraints[constraint.name] == constraint
      ensures forall n :: n in old(constraints) && n != constraint.name ==> constraints[n] == old(constraints)[n]
      ensures variables == old(variables)
    {
      constraints := constraints[constraint.name := constraint];
    }
  }
}
