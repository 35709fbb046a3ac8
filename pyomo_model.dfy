/** The parts of a Pyomo model that the alternative-solution utilities look at:
    variables, objectives, constraints and the tree of blocks that holds them. */
module PyomoModel {

  /** A variable data object. `id` is its identity (Pyomo compares variables by
      object identity); the flags are what `is_fixed()`, `is_continuous()`,
      `is_binary()` and `is_integer()` report. */
  datatype Var = Var(id: nat, fixed: bool, isContinuous: bool, isBinary: bool, isInteger: bool)

  datatype Sense = Minimize | Maximize

  /** An objective data object: the objective's expression is represented by its
      identity `id`. */
  datatype ObjectiveData = ObjectiveData(id: nat, active: bool, sense: Sense)

  /** An objective component: a scalar objective is its own data object; an
      indexed objective has a component-level `active` flag and one data object
      per index. */
  datatype Objective =
    | ScalarObjective(data: ObjectiveData)
    | IndexedObjective(active: bool, elements: seq<ObjectiveData>)

  /** A constraint data object, with the variables of its expression in the order
      the expression walker yields them. */
  datatype ConstraintData = ConstraintData(id: nat, vars: seq<Var>)

  /** A scalar or an indexed component of blocks, constraints or variables. */
  datatype Component<T> = Scalar(data: T) | Indexed(elements: seq<T>)
  {
    /** `comp.values() if comp.is_indexed() else (comp,)` */
    function Values(): seq<T>
    {
      match this
      case Scalar(d) => [d]
      case Indexed(es) => es
    }
  }

  /** A block data object: its own objectives and constraints and its sub-blocks
      (the data objects of indexed sub-blocks are listed individually). */
  datatype Block = Block(
    active: bool,
    objectives: seq<Objective>,
    constraints: seq<Component<ConstraintData>>,
    subBlocks: seq<Block>)
}
