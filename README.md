# Alternative-solution utilities of Pyomo, modelled in Dafny

This project models the helper functions in `aos_utils.py` that Pyomo's
alternative-optimal-solution generators use:

- **Active-objective selection** (`_get_active_objective`). The objective data
  objects of a model are collected from active blocks only. An indexed
  objective contributes one entry per active element. Exactly one entry must
  exist. Otherwise the call fails with a message that gives the count.
- **Objective cutoff constraints** (`_add_objective_constraint`). Both gaps
  are checked first: a negative relative or absolute gap is an error. A
  relative gap then adds the constraint `optimality_tol_rel` with cutoff
  `v + s·rel·|v|`. An absolute gap adds `optimality_tol_abs` with cutoff
  `v + s·abs`. Here `s` is +1 when minimising and −1 when maximising. The bound
  is an upper bound when minimising and a lower bound when maximising. The
  constraints are returned in that order, relative first.
- **Variable collection** (`_filter_model_variables`, `get_model_variables`).
  Variables are gathered into one insertion-ordered `ComponentSet` with no
  duplicates. A variable is added only if it is not already present, not fixed
  (unless fixed variables are included), and of an included kind. Input is
  either the whole model (`'all'`) or a list of components: blocks,
  `(block, descend)` tuples, constraints and variables. An unrecognised
  component adds nothing.

Modules:

- `PyomoModel` (pyomo_model.dfy) holds the model tree. It has variables,
  objectives, constraints, scalar and indexed components, and blocks with
  sub-blocks.
- `ActiveObjective` (active_objective.dfy) holds the objective walk and
  `GetActiveObjective`. That method is proved against `ActiveIn`, an
  independent definition of "active and reachable through active blocks".
- `ObjectiveConstraint` (objective_constraint.dfy) holds the cutoff
  arithmetic and `AddObjectiveConstraint`. The block the constraints are added
  to is a map from attribute names to constraints.
- `VariableCollection` (variable_collection.dfy) holds the `ComponentSet`
  class and the imperative filter and gather methods. They are proved against
  the specification function `Collect`, which gives the set's contents after
  a sequence of variables has passed through the filter. The lemmas about
  `Collect` and about the block walk give the promised properties: the set
  only grows, never holds duplicates, and contains exactly the admitted
  variables.

A zero gap gives a one-sided constraint whose cutoff is the reference value
(`ZeroGapIsTight`), not an equality.

In `_get_active_objective` (aos_utils.py:28-37) the walk
`component_data_objects(Objective, active=True)` on line 29 already yields
the individual active data objects, skipping deactivated elements of indexed
objectives. Lines 30-32 only append each yielded data object to the list, and
the `is_indexed()` branch never applies to a data object. The model follows
this: `ActiveObjectiveData` (with `ActiveElements` for the elements of an
indexed objective) is the walk of line 29, and the loop in
`GetActiveObjective` is the appending loop of lines 30-32.

## Model

| member | source | states |
|---|---|---|
| ActiveObjective.GetActiveObjective | pyomo/contrib/alternative_solutions/aos_utils.py:28-37 | succeeds iff the walk yields exactly one active objective data object, returns that one (active, reachable, the only such); otherwise fails carrying the count, which is never 1 |
| ActiveObjective.ActiveObjectiveDataExact | pyomo/contrib/alternative_solutions/aos_utils.py:29 | the objective walk yields exactly the active objective data objects reachable through active blocks (both directions) |
| ActiveObjective.ActiveInIsActive | pyomo/contrib/alternative_solutions/aos_utils.py:29 | every objective data object reachable through active blocks is itself active |
| ActiveObjective.ActiveElements | pyomo/contrib/alternative_solutions/aos_utils.py:29 | an indexed objective contributes exactly its active elements, each as a separate entry as often as it occurs (an inactive one never), and all of them when all are active |
| ActiveObjective.ActiveElementsSingleton | pyomo/contrib/alternative_solutions/aos_utils.py:29 | a single element is reported exactly when it is active |
| ActiveObjective.ActiveElementsAppend | pyomo/contrib/alternative_solutions/aos_utils.py:29 | the active elements of two runs of elements are those of the first followed by those of the second, so index order is kept |
| ActiveObjective.DecimalString | pyomo/contrib/alternative_solutions/aos_utils.py:34-35 | the rendered count is a non-empty string of decimal digits |
| ActiveObjective.DecimalRoundTrip | pyomo/contrib/alternative_solutions/aos_utils.py:34-35 | reading the rendered count back gives the count |
| ActiveObjective.MessageCarriesCount | pyomo/contrib/alternative_solutions/aos_utils.py:33-35 | the failure message is the fixed text around the decimal count, and the count can be read back from it |
| ActiveObjective.MultipleObjectives | pyomo/contrib/alternative_solutions/tests/test_aos_utils.py:29-34 | a scalar and a two-element indexed objective give 3 entries, and the message reads "Model has 3 active objective functions, exactly one is required." |
| ActiveObjective.NoObjectives | pyomo/contrib/alternative_solutions/tests/test_aos_utils.py:36-43 | with both objectives deactivated there are none, and the message gives 0 |
| ActiveObjective.OneObjective | pyomo/contrib/alternative_solutions/tests/test_aos_utils.py:45-49 | with `b1.o` and `b2.o[0]` deactivated, `b2.o[1]` is the only entry |
| ObjectiveConstraint.AddObjectiveConstraint | pyomo/contrib/alternative_solutions/aos_utils.py:45-94 | a negative relative gap fails first, then a negative absolute gap; otherwise one constraint per given gap, each on the objective and satisfied by the reference value, each stored on the block under its name; every other block entry, including an existing `optimality_tol_rel` or `optimality_tol_abs` whose gap is absent, keeps its value |
| ObjectiveConstraint.FailureNamesGap | pyomo/contrib/alternative_solutions/aos_utils.py:52-55 | a failure's message names the rejected argument: `rel_opt_gap` when the relative gap is negative, otherwise `abs_opt_gap` |
| ObjectiveConstraint.RelativeConstraint | pyomo/contrib/alternative_solutions/aos_utils.py:62-78 | the relative constraint comes first: upper bound `v + rel·abs(v)` and no lower bound when minimising; lower bound `v − rel·abs(v)` and no upper bound when maximising |
| ObjectiveConstraint.AbsoluteConstraint | pyomo/contrib/alternative_solutions/aos_utils.py:80-92 | the absolute constraint comes last: upper bound `v + abs` when minimising, lower bound `v − abs` when maximising, and no other bound |
| ObjectiveConstraint.NoGapNoConstraint | pyomo/contrib/alternative_solutions/aos_utils.py:57-94 | with both gaps absent the list is empty and the block unchanged |
| ObjectiveConstraint.LargerGapAdmitsMore | pyomo/contrib/alternative_solutions/aos_utils.py:62-91 | a larger gap never excludes an objective value that a smaller gap admits, for both kinds of cutoff and both senses |
| ObjectiveConstraint.ZeroGapIsTight | pyomo/contrib/alternative_solutions/aos_utils.py:66-82 | a zero gap puts the cutoff at the reference value |
| ObjectiveConstraint.MinRelObjConstraint | pyomo/contrib/alternative_solutions/tests/test_aos_utils.py:72-79 | minimise, v = 2, rel = 0.1: one constraint `optimality_tol_rel` with upper 2.2, no lower |
| ObjectiveConstraint.MinAbsObjConstraint | pyomo/contrib/alternative_solutions/tests/test_aos_utils.py:81-88 | minimise, v = 2, abs = 1: one constraint `optimality_tol_abs` with upper 3, no lower |
| ObjectiveConstraint.MinBothObjConstraint | pyomo/contrib/alternative_solutions/tests/test_aos_utils.py:90-100 | minimise, v = −10, rel = 0.3, abs = 5: upper bounds −7 then −5 |
| ObjectiveConstraint.MaxBothObjConstraint | pyomo/contrib/alternative_solutions/tests/test_aos_utils.py:102-111 | maximise, v = −1, rel = 0.3, abs = 1: lower bounds −1.3 then −2 |
| ObjectiveConstraint.MaxBothObjConstraint2 | pyomo/contrib/alternative_solutions/tests/test_aos_utils.py:113-122 | maximise, v = 20, rel = 0.5, abs = 11: lower bounds 10 then 9 |
| VariableCollection.Visit | pyomo/contrib/alternative_solutions/aos_utils.py:114-120 | one filter step appends the variable or leaves the set unchanged; it leaves it unchanged exactly when the variable is present, fixed and excluded, or of no included kind |
| VariableCollection.CollectExtends | pyomo/contrib/alternative_solutions/aos_utils.py:110-120 | the filter only grows the set: the old contents stay in place, and at most one element is added per variable offered |
| VariableCollection.CollectNoDuplicates | pyomo/contrib/alternative_solutions/aos_utils.py:115 | a duplicate-free set stays duplicate-free |
| VariableCollection.CollectElements | pyomo/contrib/alternative_solutions/aos_utils.py:114-120 | afterwards the set holds exactly its old members plus the admitted variables offered; any variable skipped was present, fixed and excluded, or of no included kind |
| VariableCollection.CollectAppend | pyomo/contrib/alternative_solutions/aos_utils.py:157-199 | filtering two variable sequences one after the other into the shared set equals filtering their concatenation |
| VariableCollection.CollectSaturated | pyomo/contrib/alternative_solutions/aos_utils.py:115 | when every offered variable is present or not admitted, the set is unchanged |
| VariableCollection.CollectIdempotent | pyomo/contrib/alternative_solutions/aos_utils.py:114-120 | filtering the same variables a second time changes nothing |
| VariableCollection.CollectAllAdmitted | pyomo/contrib/alternative_solutions/aos_utils.py:114-120 | distinct variables that all pass the filter are collected as given, in order |
| VariableCollection.AdmittedThenRejected | pyomo/contrib/alternative_solutions/aos_utils.py:114-120 | distinct admitted variables followed by rejected ones: exactly the admitted ones are collected, in order |
| VariableCollection.Visible | pyomo/contrib/alternative_solutions/aos_utils.py:159-161 | the walkers report every variable when fixed ones are included and the unfixed ones otherwise |
| VariableCollection.CollectIgnoresHiddenFixed | pyomo/contrib/alternative_solutions/aos_utils.py:170-174 | hiding fixed variables in the walker does not change what the filter collects |
| VariableCollection.ComponentSet.Contains | pyomo/contrib/alternative_solutions/aos_utils.py:115 | membership test on the set |
| VariableCollection.ComponentSet.Add | pyomo/contrib/alternative_solutions/aos_utils.py:120 | appends a variable not yet present and keeps the set duplicate-free |
| VariableCollection.FilterModelVariables | pyomo/contrib/alternative_solutions/aos_utils.py:110-120 | the set afterwards is `Collect` of its old contents and the offered variables |
| VariableCollection.FilterBlocks | pyomo/contrib/alternative_solutions/aos_utils.py:168-174 | filters the walk of each block data object in turn, with or without descent |
| VariableCollection.FilterConstraints | pyomo/contrib/alternative_solutions/aos_utils.py:188-194 | filters the variables of each constraint data object in turn |
| VariableCollection.FilterItem | pyomo/contrib/alternative_solutions/aos_utils.py:166-202 | dispatches on the kind of component; an unrecognised one leaves the set unchanged |
| VariableCollection.GetModelVariables | pyomo/contrib/alternative_solutions/aos_utils.py:122-204 | returns a new, duplicate-free set equal to `Collect` of the selection's variables from the empty set |
| VariableCollection.BlockVarsElements | pyomo/contrib/alternative_solutions/aos_utils.py:175-186 | the block walk reports exactly the visible variables of the block's own constraints, plus those of every block below it when descending |
| VariableCollection.ItemVarsElements | pyomo/contrib/alternative_solutions/aos_utils.py:166-202 | each kind of component offers exactly the variables `Offers` names: a plain block descends, `(block, False)` does not, an unrecognised component offers nothing |
| VariableCollection.GatherAll | pyomo/contrib/alternative_solutions/aos_utils.py:157-164 | with `'all'` the set holds exactly the admitted variables occurring in some constraint anywhere in the model |
| VariableCollection.GatherComponents | pyomo/contrib/alternative_solutions/aos_utils.py:165-199 | with a list of components the set is the union, filtered, of what each component offers |
| VariableCollection.ItemsVarsAppend | pyomo/contrib/alternative_solutions/aos_utils.py:165-199 | the variables offered by two lists of components, one after the other, are those of the first list followed by those of the second |
| VariableCollection.ItemsVarsElements | pyomo/contrib/alternative_solutions/aos_utils.py:165-199 | a variable is offered by a list of components exactly when some component of the list offers it |
| VariableCollection.UnrecognizedContributesNothing | pyomo/contrib/alternative_solutions/aos_utils.py:200-202 | removing an unrecognised component leaves the gathered variables unchanged |
| VariableCollection.BlockTupleFalseStaysLocal | pyomo/contrib/alternative_solutions/aos_utils.py:138-141 | for a block with a sub-block, `(block, False)` collects only the block's own variable, while the plain block also collects the sub-block's |
| VariableCollection.FixedVariablesExcludedByDefault | pyomo/contrib/alternative_solutions/aos_utils.py:115 | with the default switches, the fixed continuous, binary and integer variables are skipped |
| VariableCollection.FixedVariablesIncluded | pyomo/contrib/alternative_solutions/aos_utils.py:115 | with `include_fixed`, all six variables are collected in order |

## Left out

- `_get_random_direction` (aos_utils.py:96-108) is not modelled: it draws Gaussian samples and normalises them in floating point.
- `_add_aos_block` (aos_utils.py:39-43) is not modelled: it only wraps `unique_component_name` and `add_component`, and `pyomo/common/modeling.py` is not part of this model.
- The diagnostic `print` for an unrecognised component (aos_utils.py:201) is not modelled; the component simply contributes nothing.
- Floating point: gaps, reference values and cutoffs are exact reals. The test oracles (2.2, −1.3, …) hold exactly in the model.
- Python `assert` statements are modelled as always on. Under `python -O` they are removed and negative gaps or a wrong objective count would pass silently.
- Pyomo expressions are not modelled. An objective's expression is its identity. A constraint is represented only by the variables its expression walk yields, in order.
- The walkers `component_data_objects`, `get_vars_from_components` and `identify_variables` are foreign code. They are modelled as functions over the block tree: depth-first, a block's own components before its sub-blocks, fixed variables hidden unless included. Whether the walker removes repeated variables itself is not modelled. Repeats do not change the result, because the filter skips variables already present.
- A `components` entry that is a tuple with fewer than two elements raises `IndexError` at `comp[1]` (aos_utils.py:175). `Item` has no such entry, so this error path is not modelled: every tuple in the model is a `(block, bool)` pair, and any other entry is `Unrecognized`.
- Variable identity: a variable is its record (identity plus flags), and equality of records stands for Pyomo's object identity.
- The activity of the root block is ignored: the objective walk starts at the model whether or not the model itself is deactivated. Only sub-blocks' flags are consulted.
- Assigning `optimality_tol_rel` or `optimality_tol_abs` on a block that already has them replaces the old entry in the map. Pyomo's warning about implicit replacement is not modelled.
- The `get_var_model` fixture (test_aos_utils.py:124-143) is not modelled, because it refers to `m.x` and `m.y`, which it never defines. `FixedVariablesExcludedByDefault` and `FixedVariablesIncluded` use the same six kinds of variable it declares.
- The cutting-plane transformation and the subsystem utilities are not part of this model, because their implementation files are not part of it.
