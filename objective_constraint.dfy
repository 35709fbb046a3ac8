/** Objective cutoff constraints that keep later solutions within a relative
    and/or absolute gap of a reference objective value
    (`_add_objective_constraint`). */
module ObjectiveConstraint {
  import opened Wrappers
  import opened PyomoModel

  /** The two assertion failures, raised before anything is built. */
  datatype GapError = NegativeRelGap | NegativeAbsGap

  /** The name of the argument an error rejects. */
  function GapArgument(e: GapError): string
  {
    match e
    case NegativeRelGap => "rel_opt_gap"
    case NegativeAbsGap => "abs_opt_gap"
  }

  /** The assertion messages, with the source's wording. */
  function GapMessage(e: GapError): string
  {
    GapArgument(e) + " must be None of >= 0.0"
  }

  /** A constraint `lower <= body <= upper` on the objective expression `body`
      (the objective's identity); an absent bound is `None`. */
  datatype ObjectiveBound = ObjectiveBound(name: string, body: nat, lower: Option<real>, upper: Option<real>)

  /** The attribute names the constraints are stored under on the block. */
  const RelName := "optimality_tol_rel"
  const AbsName := "optimality_tol_abs"

  /** The components of the block the constraints are added to, by name. */
  type AosBlock = map<string, ObjectiveBound>

  function Abs(x: real): real
  {
    if x < 0.0 then -x else x
  }

  /** `objective_sense`: +1 when minimising, -1 when maximising. */
  function SenseSign(sense: Sense): real
  {
    if sense == Minimize then 1.0 else -1.0
  }

  /** A gap times a magnitude is not negative. */
  lemma GapTimesMagnitude(gap: real, m: real)
    requires gap >= 0.0 && m >= 0.0
    ensures gap * m >= 0.0
  {
    if gap > 0.0 && m > 0.0 {
      assert gap * m > 0.0 * m;
    }
  }

  function RelativeCutoff(sense: Sense, value: real, relGap: real): real
  {
    value + SenseSign(sense) * relGap * Abs(value)
  }

  function AbsoluteCutoff(sense: Sense, value: real, absGap: real): real
  {
    value + SenseSign(sense) * absGap
  }

  /** `expr <= cutoff` for a minimised objective, `expr >= cutoff` for a
      maximised one. */
  function CutoffBound(name: string, objective: ObjectiveData, cutoff: real): ObjectiveBound
  {
    if objective.sense == Minimize then ObjectiveBound(name, objective.id, None, Some(cutoff))
    else ObjectiveBound(name, objective.id, Some(cutoff), None)
  }

  /** An objective value `x` satisfies the constraint `c`. */
  predicate Admits(c: ObjectiveBound, x: real)
  {
    (c.lower.None? || c.lower.value <= x) && (c.upper.None? || x <= c.upper.value)
  }

  /** A gap argument the assertions accept. */
  predicate GapAccepted(gap: Option<real>)
  {
    gap.None? || gap.value >= 0.0
  }

  /** Checks both gaps, then adds the relative constraint (if a relative gap is
      given) and the absolute one (if an absolute gap is given) to the block, and
      returns the new block with the list of constraints added. */
  function AddObjectiveConstraint(aosBlock: AosBlock, objective: ObjectiveData, objectiveValue: real,
                                  relOptGap: Option<real>, absOptGap: Option<real>)
    : (r: Result<(AosBlock, seq<ObjectiveBound>), GapError>)
    ensures !GapAccepted(relOptGap) ==> r == Err(NegativeRelGap)
    ensures GapAccepted(relOptGap) && !GapAccepted(absOptGap) ==> r == Err(NegativeAbsGap)
    ensures r.Ok? <==> GapAccepted(relOptGap) && GapAccepted(absOptGap)
    ensures r.Ok? ==>
      var (block, cons) := r.value;
      && |cons| == (if relOptGap.Some? then 1 else 0) + (if absOptGap.Some? then 1 else 0)
      && (forall c :: c in cons ==> c.body == objective.id && Admits(c, objectiveValue))
      && (forall c :: c in cons ==> c.name in block && block[c.name] == c)
      && (RelName in block <==> RelName in aosBlock || relOptGap.Some?)
      && (AbsName in block <==> AbsName in aosBlock || absOptGap.Some?)
      && (forall n :: n in block && n != RelName && n != AbsName <==> n in aosBlock && n != RelName && n != AbsName)
      && (forall n :: n in aosBlock && n != RelName && n != AbsName ==> block[n] == aosBlock[n])
      && (relOptGap.None? && RelName in aosBlock ==> block[RelName] == aosBlock[RelName])
      && (absOptGap.None? && AbsName in aosBlock ==> block[AbsName] == aosBlock[AbsName])
  {
    if !GapAccepted(relOptGap) then Err(NegativeRelGap)
    else if !GapAccepted(absOptGap) then Err(NegativeAbsGap)
    else
      var relCons :=
        if relOptGap.Some?
        then [CutoffBound(RelName, objective, RelativeCutoff(objective.sense, objectiveValue, relOptGap.value))]
        else [];
      var absCons :=
        if absOptGap.Some?
        then [CutoffBound(AbsName, objective, AbsoluteCutoff(objective.sense, objectiveValue, absOptGap.value))]
        else [];
      assert RelName != AbsName by {
        assert RelName[15] != AbsName[15];
      }
      var withRel := if relOptGap.Some? then aosBlock[RelName := relCons[0]] else aosBlock;
      var withAbs := if absOptGap.Some? then withRel[AbsName := absCons[0]] else withRel;
      assert forall c :: c in relCons ==> Admits(c, objectiveValue) by {
        if relOptGap.Some? {
          GapTimesMagnitude(relOptGap.value, Abs(objectiveValue));
        }
      }
      Ok((withAbs, relCons + absCons))
  }

  /** A failure's message starts with the name of the rejected argument: the
      relative gap when it is negative, otherwise the absolute gap. */
  lemma FailureNamesGap(aosBlock: AosBlock, objective: ObjectiveData, v: real,
                        relOptGap: Option<real>, absOptGap: Option<real>)
    ensures var r := AddObjectiveConstraint(aosBlock, objective, v, relOptGap, absOptGap);
      r.Err? ==>
        var m, name := GapMessage(r.error), if !GapAccepted(relOptGap) then "rel_opt_gap" else "abs_opt_gap";
        |m| > |name| && m[..|name|] == name
  {
    var r := AddObjectiveConstraint(aosBlock, objective, v, relOptGap, absOptGap);
    if r.Err? {
      var m := GapMessage(r.error);
      assert m[..|GapArgument(r.error)|] == GapArgument(r.error);
    }
  }

  /** The relative constraint comes first; it bounds the objective from above by
      `v + rel * |v|` when minimising and from below by `v - rel * |v|` when
      maximising, and has no other bound. */
  lemma RelativeConstraint(aosBlock: AosBlock, objective: ObjectiveData, v: real, rel: real, absOptGap: Option<real>)
    requires rel >= 0.0 && GapAccepted(absOptGap)
    ensures var r := AddObjectiveConstraint(aosBlock, objective, v, Some(rel), absOptGap);
      && r.Ok? && |r.value.1| >= 1
      && var c := r.value.1[0];
      && c.name == RelName && r.value.0[RelName] == c
      && (objective.sense == Minimize ==> c.lower == None && c.upper == Some(v + rel * Abs(v)))
      && (objective.sense == Maximize ==> c.upper == None && c.lower == Some(v - rel * Abs(v)))
  {
  }

  /** The absolute constraint comes last; it bounds the objective from above by
      `v + abs` when minimising and from below by `v - abs` when maximising, and
      has no other bound. */
  lemma AbsoluteConstraint(aosBlock: AosBlock, objective: ObjectiveData, v: real, relOptGap: Option<real>, abs: real)
    requires abs >= 0.0 && GapAccepted(relOptGap)
    ensures var r := AddObjectiveConstraint(aosBlock, objective, v, relOptGap, Some(abs));
      && r.Ok? && |r.value.1| >= 1
      && var c := r.value.1[|r.value.1| - 1];
      && c.name == AbsName && r.value.0[AbsName] == c
      && (objective.sense == Minimize ==> c.lower == None && c.upper == Some(v + abs))
      && (objective.sense == Maximize ==> c.upper == None && c.lower == Some(v - abs))
  {
  }

  /** Without gaps nothing is added: the list is empty and the block unchanged. */
  lemma NoGapNoConstraint(aosBlock: AosBlock, objective: ObjectiveData, v: real)
    ensures AddObjectiveConstraint(aosBlock, objective, v, None, None) == Ok((aosBlock, []))
  {
  }

  /** A larger gap gives a looser cutoff: every objective value the tighter
      constraint admits, the looser one admits too. */
  lemma LargerGapAdmitsMore(objective: ObjectiveData, v: real, g1: real, g2: real, x: real)
    requires 0.0 <= g1 <= g2
    ensures Admits(CutoffBound(RelName, objective, RelativeCutoff(objective.sense, v, g1)), x) ==>
            Admits(CutoffBound(RelName, objective, RelativeCutoff(objective.sense, v, g2)), x)
    ensures Admits(CutoffBound(AbsName, objective, AbsoluteCutoff(objective.sense, v, g1)), x) ==>
            Admits(CutoffBound(AbsName, objective, AbsoluteCutoff(objective.sense, v, g2)), x)
  {
    var d := (g2 - g1) * Abs(v);
    GapTimesMagnitude(g2 - g1, Abs(v));
    assert g2 * Abs(v) == g1 * Abs(v) + d;
    if objective.sense == Minimize {
      assert RelativeCutoff(objective.sense, v, g2) == RelativeCutoff(objective.sense, v, g1) + d;
    } else {
      assert RelativeCutoff(objective.sense, v, g2) == RelativeCutoff(objective.sense, v, g1) - d;
    }
  }

  /** A zero gap makes the cutoff the reference value itself, so the constraint
      is tight at it. */
  lemma ZeroGapIsTight(objective: ObjectiveData, v: real)
    ensures RelativeCutoff(objective.sense, v, 0.0) == v
    ensures AbsoluteCutoff(objective.sense, v, 0.0) == v
  {
  }

  /** Minimise, v = 2, relative gap 0.1: one constraint, upper bound 2.2. */
  lemma MinRelObjConstraint(objective: ObjectiveData)
    requires objective.sense == Minimize
    ensures var r := AddObjectiveConstraint(map[], objective, 2.0, Some(0.1), None);
      r.Ok? && r.value.1 == [ObjectiveBound(RelName, objective.id, None, Some(2.2))] &&
      r.value.0 == map[RelName := r.value.1[0]]
  {
  }

  /** Minimise, v = 2, absolute gap 1: one constraint, upper bound 3. */
  lemma MinAbsObjConstraint(objective: ObjectiveData)
    requires objective.sense == Minimize
    ensures var r := AddObjectiveConstraint(map[], objective, 2.0, None, Some(1.0));
      r.Ok? && r.value.1 == [ObjectiveBound(AbsName, objective.id, None, Some(3.0))] &&
      r.value.0 == map[AbsName := r.value.1[0]]
  {
  }

  /** Minimise, v = -10, gaps 0.3 and 5: upper bounds -7 then -5. */
  lemma MinBothObjConstraint(objective: ObjectiveData)
    requires objective.sense == Minimize
    ensures var r := AddObjectiveConstraint(map[], objective, -10.0, Some(0.3), Some(5.0));
      r.Ok? && r.value.1 ==
        [ObjectiveBound(RelName, objective.id, None, Some(-7.0)),
         ObjectiveBound(AbsName, objective.id, None, Some(-5.0))] &&
      r.value.0 == map[RelName := r.value.1[0], AbsName := r.value.1[1]]
  {
  }

  /** Maximise, v = -1, gaps 0.3 and 1: lower bounds -1.3 then -2. */
  lemma MaxBothObjConstraint(objective: ObjectiveData)
    requires objective.sense == Maximize
    ensures var r := AddObjectiveConstraint(map[], objective, -1.0, Some(0.3), Some(1.0));
      r.Ok? && r.value.1 ==
        [ObjectiveBound(RelName, objective.id, Some(-1.3), None),
         ObjectiveBound(AbsName, objective.id, Some(-2.0), None)]
  {
  }

  /** Maximise, v = 20, gaps 0.5 and 11: lower bounds 10 then 9. */
  lemma MaxBothObjConstraint2(objective: ObjectiveData)
    requires objective.sense == Maximize
    ensures var r := AddObjectiveConstraint(map[], objective, 20.0, Some(0.5), Some(11.0));
      r.Ok? && r.value.1 ==
        [ObjectiveBound(RelName, objective.id, Some(10.0), None),
         ObjectiveBound(AbsName, objective.id, Some(9.0), None)]
  {
  }
}
