/** Collecting the variables of a model, filtered by kind and fixed status and
    without duplicates (`_filter_model_variables`, `get_model_variables`). */
module VariableCollection {
  import opened PyomoModel

  /** The `include_continuous`, `include_binary`, `include_integer` and
      `include_fixed` switches. */
  datatype Include = Include(continuous: bool, binary: bool, integer: bool, fixed: bool)

  /** The switches' default values: every kind, no fixed variables. */
  const DefaultInclude := Include(true, true, true, false)

  /** The kind test of the filter. */
  predicate KindIncluded(inc: Include, v: Var)
  {
    (v.isContinuous && inc.continuous) || (v.isBinary && inc.binary) || (v.isInteger && inc.integer)
  }

  /** A variable the filter adds unless it is already present. */
  predicate Admitted(inc: Include, v: Var)
  {
    !(v.fixed && !inc.fixed) && KindIncluded(inc, v)
  }

  predicate NoDuplicates(s: seq<Var>)
  {
    forall i, j :: 0 <= i < j < |s| ==> s[i] != s[j]
  }

  /** The set's contents after the filter has looked at `v`: unchanged when `v`
      is present already, fixed and excluded, or of no included kind; otherwise
      `v` is appended. */
  function Visit(s: seq<Var>, v: Var, inc: Include): (r: seq<Var>)
    ensures r == s || r == s + [v]
    ensures r == s <==> v in s || !Admitted(inc, v)
    ensures forall x :: x in r <==> x in s || (x == v && Admitted(inc, v))
  {
    if v in s || (v.fixed && !inc.fixed) then s
    else if KindIncluded(inc, v) then s + [v]
    else s
  }

  /** The set's contents after the filter has looked at every variable of
      `vars`, in order. */
  function Collect(s: seq<Var>, vars: seq<Var>, inc: Include): seq<Var>
    decreases |vars|
  {
    if vars == [] then s else Visit(Collect(s, vars[..|vars| - 1], inc), vars[|vars| - 1], inc)
  }

  /** The filter only grows the set: what was there stays, in place. */
  lemma {:induction false} CollectExtends(s: seq<Var>, vars: seq<Var>, inc: Include)
    ensures |s| <= |Collect(s, vars, inc)| <= |s| + |vars|
    ensures Collect(s, vars, inc)[..|s|] == s
    decreases |vars|
  {
    if vars != [] {
      CollectExtends(s, vars[..|vars| - 1], inc);
    }
  }

  /** The filter never adds a duplicate. */
  lemma {:induction false} CollectNoDuplicates(s: seq<Var>, vars: seq<Var>, inc: Include)
    requires NoDuplicates(s)
    ensures NoDuplicates(Collect(s, vars, inc))
    decreases |vars|
  {
    if vars != [] {
      CollectNoDuplicates(s, vars[..|vars| - 1], inc);
    }
  }

  /** What the set holds afterwards: what it held, plus exactly the admitted
      variables of `vars`. Every variable skipped was present, fixed and
      excluded, or of no included kind. */
  lemma {:induction false} CollectElements(s: seq<Var>, vars: seq<Var>, inc: Include)
    ensures forall x :: x in Collect(s, vars, inc) <==> x in s || (x in vars && Admitted(inc, x))
    decreases |vars|
  {
    if vars != [] {
      var init := vars[..|vars| - 1];
      assert vars == init + [vars[|vars| - 1]];
      CollectElements(s, init, inc);
    }
  }

  /** Filtering `a` and then `b` into the same set is filtering `a + b`. */
  lemma {:induction false} CollectAppend(s: seq<Var>, a: seq<Var>, b: seq<Var>, inc: Include)
    ensures Collect(s, a + b, inc) == Collect(Collect(s, a, inc), b, inc)
    decreases |b|
  {
    if b == [] {
      assert a + b == a;
    } else {
      var init := b[..|b| - 1];
      assert (a + b)[..|a + b| - 1] == a + init;
      CollectAppend(s, a, init, inc);
    }
  }

  /** When every variable is present already or not admitted, nothing is added. */
  lemma {:induction false} CollectSaturated(s: seq<Var>, vars: seq<Var>, inc: Include)
    requires forall x :: x in vars ==> x in s || !Admitted(inc, x)
    ensures Collect(s, vars, inc) == s
    decreases |vars|
  {
    if vars != [] {
      var init := vars[..|vars| - 1];
      assert forall x :: x in init ==> x in vars;
      CollectSaturated(s, init, inc);
    }
  }

  /** Filtering the same variables a second time changes nothing. */
  lemma CollectIdempotent(s: seq<Var>, vars: seq<Var>, inc: Include)
    ensures Collect(Collect(s, vars, inc), vars, inc) == Collect(s, vars, inc)
  {
    CollectElements(s, vars, inc);
    CollectSaturated(Collect(s, vars, inc), vars, inc);
  }

  /** The variables of `vars` an expression walker reports: all of them with
      `include_fixed`, the unfixed ones without. */
  function Visible(vars: seq<Var>, includeFixed: bool): (r: seq<Var>)
    ensures forall x :: x in r <==> x in vars && (includeFixed || !x.fixed)
    decreases |vars|
  {
    if vars == [] then []
    else
      var init, last := vars[..|vars| - 1], vars[|vars| - 1];
      assert vars == init + [last];
      Visible(init, includeFixed) + (if includeFixed || !last.fixed then [last] else [])
  }

  /** Hiding fixed variables before the filter, as the walkers do when fixed
      variables are excluded, does not change what the filter collects. */
  lemma {:induction false} CollectIgnoresHiddenFixed(s: seq<Var>, vars: seq<Var>, inc: Include)
    ensures Collect(s, Visible(vars, inc.fixed), inc) == Collect(s, vars, inc)
    decreases |vars|
  {
    if vars != [] {
      var init, last := vars[..|vars| - 1], vars[|vars| - 1];
      assert vars[..|vars| - 1] == init;
      CollectIgnoresHiddenFixed(s, init, inc);
      if inc.fixed || !last.fixed {
        assert Visible(vars, inc.fixed) == Visible(init, inc.fixed) + [last];
        CollectAppend(s, Visible(init, inc.fixed), [last], inc);
        assert [last][..0] == [];
      } else {
        assert Visible(vars, inc.fixed) == Visible(init, inc.fixed) + [];
        assert Visible(init, inc.fixed) + [] == Visible(init, inc.fixed);
      }
    }
  }

  /** `ComponentSet`: an insertion-ordered set of variables. */
  class ComponentSet {
    var items: seq<Var>

    ghost predicate Valid()
      reads this
    {
      NoDuplicates(items)
    }

    constructor ()
      ensures Valid() && items == []
    {
      items := [];
    }

    method Contains(v: Var) returns (b: bool)
      ensures b <==> v in items
    {
      b := v in items;
    }

    method Add(v: Var)
      requires Valid()
      modifies this
      ensures Valid()
      ensures items == if v in old(items) then old(items) else old(items) + [v]
    {
      if v !in items {
        items := items + [v];
      }
    }
  }

  /** Adds to `variableSet` every variable of `varGenerator` that passes the
      filter and is not present yet. */
  method FilterModelVariables(variableSet: ComponentSet, varGenerator: seq<Var>, inc: Include)
    requires variableSet.Valid()
    modifies variableSet
    ensures variableSet.Valid()
    ensures variableSet.items == Collect(old(variableSet.items), varGenerator, inc)
  {
    ghost var start := variableSet.items;
    for i := 0 to |varGenerator|
      invariant variableSet.Valid()
      invariant variableSet.items == Collect(start, varGenerator[..i], inc)
    {
      var v := varGenerator[i];
      assert varGenerator[..i + 1][..i] == varGenerator[..i];
      var present := variableSet.Contains(v);
      if present || (v.fixed && !inc.fixed) {
        continue;
      }
      if (v.isContinuous && inc.continuous) || (v.isBinary && inc.binary) || (v.isInteger && inc.integer) {
        variableSet.Add(v);
      }
    }
    assert varGenerator[..|varGenerator|] == varGenerator;
  }

  /** The variables of a list of constraint data objects, each walked with the
      expression walker. */
  function ConstraintDataVars(cs: seq<ConstraintData>, includeFixed: bool): seq<Var>
    decreases |cs|
  {
    if cs == [] then []
    else ConstraintDataVars(cs[..|cs| - 1], includeFixed) + Visible(cs[|cs| - 1].vars, includeFixed)
  }

  /** The variables of a block's own constraint components. */
  function ConstraintComponentsVars(comps: seq<Component<ConstraintData>>, includeFixed: bool): seq<Var>
    decreases |comps|
  {
    if comps == [] then []
    else
      ConstraintComponentsVars(comps[..|comps| - 1], includeFixed) +
      ConstraintDataVars(comps[|comps| - 1].Values(), includeFixed)
  }

  /** `get_vars_from_components(block, Constraint, include_fixed, descend_into)`:
      the variables of the block's constraints and, when descending, of its
      sub-blocks' constraints, depth first. */
  function BlockVars(b: Block, descend: bool, includeFixed: bool): seq<Var>
    decreases b, |b.subBlocks| + 1
  {
    ConstraintComponentsVars(b.constraints, includeFixed) +
    (if descend then SubBlocksVars(b, |b.subBlocks|, includeFixed) else [])
  }

  /** The variables of the first `n` sub-blocks of `b`, each with its own
      sub-blocks. */
  function SubBlocksVars(b: Block, n: nat, includeFixed: bool): seq<Var>
    requires n <= |b.subBlocks|
    decreases b, n
  {
    if n == 0 then []
    else SubBlocksVars(b, n - 1, includeFixed) + BlockVars(b.subBlocks[n - 1], true, includeFixed)
  }

  /** The variables of the data objects of a block component, in order. */
  function BlocksVars(bs: seq<Block>, descend: bool, includeFixed: bool): seq<Var>
    decreases |bs|
  {
    if bs == [] then []
    else BlocksVars(bs[..|bs| - 1], descend, includeFixed) + BlockVars(bs[|bs| - 1], descend, includeFixed)
  }

  /** An element of the `components` argument. */
  datatype Item =
    | BlockItem(block: Component<Block>)
    | BlockTuple(tupleBlock: Component<Block>, descendInto: bool)
    | ConstraintItem(constraint: Component<ConstraintData>)
    | VarItem(variable: Component<Var>)
    | Unrecognized

  /** `'all'` or a collection of components. */
  datatype Selection = All | Components(items: seq<Item>)

  /** The variables one component contributes before filtering. */
  function ItemVars(item: Item, includeFixed: bool): seq<Var>
  {
    match item
    case BlockItem(c) => BlocksVars(c.Values(), true, includeFixed)
    case BlockTuple(c, descend) => BlocksVars(c.Values(), descend, includeFixed)
    case ConstraintItem(c) => ConstraintDataVars(c.Values(), includeFixed)
    case VarItem(c) => c.Values()
    case Unrecognized => []
  }

  /** The concatenation of `f(x)` over `xs`, in order. */
  function Flatten<T>(xs: seq<T>, f: T -> seq<Var>): seq<Var>
    decreases |xs|
  {
    if xs == [] then [] else Flatten(xs[..|xs| - 1], f) + f(xs[|xs| - 1])
  }

  /** The variables the components offer, component after component. */
  function ItemsVars(items: seq<Item>, includeFixed: bool): seq<Var>
  {
    Flatten(items, (item: Item) => ItemVars(item, includeFixed))
  }

  /** The variables the selection offers to the filter, in order. */
  function SelectionVars(model: Block, components: Selection, includeFixed: bool): seq<Var>
  {
    match components
    case All => BlockVars(model, true, includeFixed)
    case Components(items) => ItemsVars(items, includeFixed)
  }

  /** Filters the variables of each data object of a block component into
      the set. */
  method FilterBlocks(variableSet: ComponentSet, blocks: seq<Block>, descend: bool, inc: Include)
    requires variableSet.Valid()
    modifies variableSet
    ensures variableSet.Valid()
    ensures variableSet.items == Collect(old(variableSet.items), BlocksVars(blocks, descend, inc.fixed), inc)
  {
    ghost var start := variableSet.items;
    for j := 0 to |blocks|
      invariant variableSet.Valid()
      invariant variableSet.items == Collect(start, BlocksVars(blocks[..j], descend, inc.fixed), inc)
    {
      var variables := BlockVars(blocks[j], descend, inc.fixed);
      assert blocks[..j + 1][..j] == blocks[..j];
      CollectAppend(start, BlocksVars(blocks[..j], descend, inc.fixed), variables, inc);
      FilterModelVariables(variableSet, variables, inc);
    }
    assert blocks[..|blocks|] == blocks;
  }

  /** Filters the variables of each data object of a constraint component into
      the set. */
  method FilterConstraints(variableSet: ComponentSet, constraints: seq<ConstraintData>, inc: Include)
    requires variableSet.Valid()
    modifies variableSet
    ensures variableSet.Valid()
    ensures variableSet.items == Collect(old(variableSet.items), ConstraintDataVars(constraints, inc.fixed), inc)
  {
    ghost var start := variableSet.items;
    for j := 0 to |constraints|
      invariant variableSet.Valid()
      invariant variableSet.items == Collect(start, ConstraintDataVars(constraints[..j], inc.fixed), inc)
    {
      var variables := Visible(constraints[j].vars, inc.fixed);
      assert constraints[..j + 1][..j] == constraints[..j];
      CollectAppend(start, ConstraintDataVars(constraints[..j], inc.fixed), variables, inc);
      FilterModelVariables(variableSet, variables, inc);
    }
    assert constraints[..|constraints|] == constraints;
  }

  /** Filters the variables one component offers into the set, by the kind of
      component; an unrecognised one adds nothing. */
  method FilterItem(variableSet: ComponentSet, item: Item, inc: Include)
    requires variableSet.Valid()
    modifies variableSet
    ensures variableSet.Valid()
    ensures variableSet.items == Collect(old(variableSet.items), ItemVars(item, inc.fixed), inc)
  {
    match item
    case BlockItem(c) =>
      FilterBlocks(variableSet, c.Values(), true, inc);
    case BlockTuple(c, descend) =>
      FilterBlocks(variableSet, c.Values(), descend, inc);
    case ConstraintItem(c) =>
      FilterConstraints(variableSet, c.Values(), inc);
    case VarItem(c) =>
      FilterModelVariables(variableSet, c.Values(), inc);
    case Unrecognized =>
  }

  /** Gathers the variables of the whole model or of the given components into a
      new set, component by component. */
  method GetModelVariables(model: Block, components: Selection, inc: Include) returns (variableSet: ComponentSet)
    ensures fresh(variableSet) && variableSet.Valid()
    ensures variableSet.items == Collect([], SelectionVars(model, components, inc.fixed), inc)
  {
    variableSet := new ComponentSet();
    match components
    case All =>
      FilterModelVariables(variableSet, BlockVars(model, true, inc.fixed), inc);
    case Components(items) =>
      for i := 0 to |items|
        invariant variableSet.Valid()
        invariant variableSet.items == Collect([], ItemsVars(items[..i], inc.fixed), inc)
      {
        assert items[..i + 1][..i] == items[..i];
        CollectAppend([], ItemsVars(items[..i], inc.fixed), ItemVars(items[i], inc.fixed), inc);
        FilterItem(variableSet, items[i], inc);
      }
      assert items[..|items|] == items;
  }

  /** `x` occurs in a constraint of `b` itself. */
  ghost predicate InOwnConstraints(b: Block, x: Var)
  {
    exists c, d :: c in b.constraints && d in c.Values() && x in d.vars
  }

  /** `x` occurs in a constraint of `b` or of any block below it: the reference
      definition the walk is proved against. */
  ghost predicate InBlockTree(b: Block, x: Var)
    decreases b
  {
    InOwnConstraints(b, x) || exists sb :: sb in b.subBlocks && InBlockTree(sb, x)
  }

  /** What one component offers to the filter, before the walkers hide fixed
      variables. */
  ghost predicate Offers(item: Item, x: Var)
  {
    match item
    case BlockItem(c) => exists b :: b in c.Values() && InBlockTree(b, x)
    case BlockTuple(c, descend) =>
      exists b :: b in c.Values() && (if descend then InBlockTree(b, x) else InOwnConstraints(b, x))
    case ConstraintItem(c) => exists d :: d in c.Values() && x in d.vars
    case VarItem(c) => x in c.Values()
    case Unrecognized => false
  }

  lemma {:induction false} ConstraintDataVarsElements(cs: seq<ConstraintData>, fx: bool, x: Var)
    ensures x in ConstraintDataVars(cs, fx) <==> (fx || !x.fixed) && exists d :: d in cs && x in d.vars
    decreases |cs|
  {
    if cs != [] {
      var init := cs[..|cs| - 1];
      assert cs == init + [cs[|cs| - 1]];
      ConstraintDataVarsElements(init, fx, x);
    }
  }

  lemma {:induction false} ConstraintComponentsVarsElements(comps: seq<Component<ConstraintData>>, fx: bool, x: Var)
    ensures x in ConstraintComponentsVars(comps, fx) <==>
      (fx || !x.fixed) && exists c, d :: c in comps && d in c.Values() && x in d.vars
    decreases |comps|
  {
    if comps != [] {
      var init, last := comps[..|comps| - 1], comps[|comps| - 1];
      assert comps == init + [last];
      ConstraintComponentsVarsElements(init, fx, x);
      ConstraintDataVarsElements(last.Values(), fx, x);
    }
  }

  lemma {:induction false} SubBlocksVarsElements(b: Block, n: nat, fx: bool, x: Var)
    requires n <= |b.subBlocks|
    ensures x in SubBlocksVars(b, n, fx) <==>
      (fx || !x.fixed) && exists j :: 0 <= j < n && InBlockTree(b.subBlocks[j], x)
    decreases b, n
  {
    if n > 0 {
      SubBlocksVarsElements(b, n - 1, fx, x);
      BlockVarsElements(b.subBlocks[n - 1], true, fx, x);
    }
  }

  /** The block walk reports exactly the visible variables of the block's own
      constraints, and with `descend` those of every block below it as well. */
  lemma {:induction false} BlockVarsElements(b: Block, descend: bool, fx: bool, x: Var)
    ensures x in BlockVars(b, descend, fx) <==>
      (fx || !x.fixed) && (if descend then InBlockTree(b, x) else InOwnConstraints(b, x))
    decreases b, |b.subBlocks| + 1
  {
    ConstraintComponentsVarsElements(b.constraints, fx, x);
    if descend {
      SubBlocksVarsElements(b, |b.subBlocks|, fx, x);
      if exists sb :: sb in b.subBlocks && InBlockTree(sb, x) {
        var sb :| sb in b.subBlocks && InBlockTree(sb, x);
        var j :| 0 <= j < |b.subBlocks| && b.subBlocks[j] == sb;
        assert InBlockTree(b.subBlocks[j], x);
      }
    }
  }

  lemma {:induction false} BlocksVarsElements(bs: seq<Block>, descend: bool, fx: bool, x: Var)
    ensures x in BlocksVars(bs, descend, fx) <==> exists b :: b in bs && x in BlockVars(b, descend, fx)
    decreases |bs|
  {
    if bs != [] {
      var init, last := bs[..|bs| - 1], bs[|bs| - 1];
      assert bs == init + [last];
      BlocksVarsElements(init, descend, fx, x);
      assert x in BlocksVars(bs, descend, fx) <==>
        x in BlocksVars(init, descend, fx) || x in BlockVars(last, descend, fx);
      if exists b :: b in bs && x in BlockVars(b, descend, fx) {
        var b :| b in bs && x in BlockVars(b, descend, fx);
        assert b in init || b == last;
      }
      assert last in bs;
    }
  }

  /** Each kind of component offers the variables of `Offers`; a block without
      `(block, False)` reaches its sub-blocks, an unrecognised component
      offers nothing, and only the walkers hide fixed variables. */
  lemma ItemVarsElements(item: Item, fx: bool, x: Var)
    ensures x in ItemVars(item, fx) <==> Offers(item, x) && (fx || !x.fixed || item.VarItem?)
  {
    match item
    case BlockItem(c) =>
      BlocksVarsElements(c.Values(), true, fx, x);
      forall b | b in c.Values() ensures x in BlockVars(b, true, fx) <==> (fx || !x.fixed) && InBlockTree(b, x) {
        BlockVarsElements(b, true, fx, x);
      }
    case BlockTuple(c, descend) =>
      BlocksVarsElements(c.Values(), descend, fx, x);
      forall b | b in c.Values()
        ensures x in BlockVars(b, descend, fx) <==>
          (fx || !x.fixed) && (if descend then InBlockTree(b, x) else InOwnConstraints(b, x))
      {
        BlockVarsElements(b, descend, fx, x);
      }
    case ConstraintItem(c) =>
      ConstraintDataVarsElements(c.Values(), fx, x);
    case VarItem(c) =>
    case Unrecognized =>
  }

  lemma {:induction false} FlattenAppend<T>(a: seq<T>, b: seq<T>, f: T -> seq<Var>)
    ensures Flatten(a + b, f) == Flatten(a, f) + Flatten(b, f)
    decreases |b|
  {
    if b == [] {
      assert a + b == a;
    } else {
      var init, last := b[..|b| - 1], b[|b| - 1];
      assert (a + b)[..|a + b| - 1] == a + init;
      assert (a + b)[|a + b| - 1] == last;
      FlattenAppend(a, init, f);
    }
  }

  lemma {:induction false} FlattenElements<T>(xs: seq<T>, f: T -> seq<Var>, x: Var)
    ensures x in Flatten(xs, f) <==> exists k :: 0 <= k < |xs| && x in f(xs[k])
    decreases |xs|
  {
    if xs != [] {
      var init, last := xs[..|xs| - 1], xs[|xs| - 1];
      FlattenElements(init, f, x);
      assert x in Flatten(xs, f) <==> x in Flatten(init, f) || x in f(last);
      if exists k :: 0 <= k < |xs| && x in f(xs[k]) {
        var k :| 0 <= k < |xs| && x in f(xs[k]);
        if k < |xs| - 1 {
          assert xs[k] == init[k];
        }
      }
      if x in f(last) {
        assert x in f(xs[|xs| - 1]);
      }
      if exists k :: 0 <= k < |init| && x in f(init[k]) {
        var k :| 0 <= k < |init| && x in f(init[k]);
        assert xs[k] == init[k];
      }
    }
  }

  lemma ItemsVarsAppend(a: seq<Item>, b: seq<Item>, fx: bool)
    ensures ItemsVars(a + b, fx) == ItemsVars(a, fx) + ItemsVars(b, fx)
  {
    FlattenAppend(a, b, (item: Item) => ItemVars(item, fx));
  }

  lemma ItemsVarsElements(items: seq<Item>, fx: bool, x: Var)
    ensures x in ItemsVars(items, fx) <==> exists k :: 0 <= k < |items| && x in ItemVars(items[k], fx)
  {
    FlattenElements(items, (item: Item) => ItemVars(item, fx), x);
  }

  /** With `'all'`, the set holds exactly the admitted variables occurring in
      some constraint anywhere in the model. */
  lemma GatherAll(model: Block, inc: Include, x: Var)
    ensures x in Collect([], SelectionVars(model, All, inc.fixed), inc) <==> InBlockTree(model, x) && Admitted(inc, x)
  {
    CollectElements([], SelectionVars(model, All, inc.fixed), inc);
    BlockVarsElements(model, true, inc.fixed, x);
  }

  /** With a collection of components, the set is the union of what each
      component offers, filtered. */
  lemma GatherComponents(model: Block, items: seq<Item>, inc: Include, x: Var)
    ensures x in Collect([], SelectionVars(model, Components(items), inc.fixed), inc) <==>
      Admitted(inc, x) && exists k :: 0 <= k < |items| && Offers(items[k], x)
  {
    var vars := ItemsVars(items, inc.fixed);
    CollectElements([], vars, inc);
    ItemsVarsElements(items, inc.fixed, x);
    forall k | 0 <= k < |items|
      ensures Admitted(inc, x) ==> (x in ItemVars(items[k], inc.fixed) <==> Offers(items[k], x))
    {
      ItemVarsElements(items[k], inc.fixed, x);
    }
  }

  lemma ItemsVarsOfUnrecognized(fx: bool)
    ensures ItemsVars([Unrecognized], fx) == []
  {
    assert [Unrecognized][..0] == [];
  }

  /** An unrecognised component contributes nothing: removing it leaves the
      gathered sequence unchanged. */
  lemma UnrecognizedContributesNothing(a: seq<Item>, b: seq<Item>, fx: bool)
    ensures ItemsVars(a + [Unrecognized] + b, fx) == ItemsVars(a + b, fx)
  {
    ItemsVarsAppend(a + [Unrecognized], b, fx);
    ItemsVarsAppend(a, [Unrecognized], fx);
    ItemsVarsOfUnrecognized(fx);
    ItemsVarsAppend(a, b, fx);
  }

  lemma CollectStep(s: seq<Var>, vars: seq<Var>, k: nat, inc: Include)
    requires k < |vars|
    ensures Collect(s, vars[..k + 1], inc) == Visit(Collect(s, vars[..k], inc), vars[k], inc)
  {
    assert vars[..k + 1][..k] == vars[..k];
  }

  /** A block with a constraint on `x` and a sub-block with a constraint on `y`. */
  function TwoLevelBlock(x: Var, y: Var): Block
  {
    Block(true, [], [Scalar(ConstraintData(0, [x]))], [Block(true, [], [Scalar(ConstraintData(1, [y]))], [])])
  }

  lemma ConstraintWalk(id: nat, x: Var)
    requires !x.fixed
    ensures ConstraintComponentsVars([Scalar(ConstraintData(id, [x]))], false) == [x]
  {
    assert Visible([x], false) == [x];
    assert ConstraintDataVars([ConstraintData(id, [x])], false) == [x];
  }

  lemma TwoLevelBlockWalk(x: Var, y: Var)
    requires !x.fixed && !y.fixed
    ensures BlocksVars([TwoLevelBlock(x, y)], false, false) == [x]
    ensures BlocksVars([TwoLevelBlock(x, y)], true, false) == [x, y]
  {
    var b := TwoLevelBlock(x, y);
    var sb := b.subBlocks[0];
    ConstraintWalk(0, x);
    ConstraintWalk(1, y);
    assert BlockVars(sb, true, false) == [y];
    assert SubBlocksVars(b, 1, false) == [y];
    assert BlockVars(b, false, false) == [x];
    assert BlockVars(b, true, false) == [x, y];
  }
  /** `(block, False)` collects only the variable of the block's own constraint;
      the plain block collects the sub-block's variable as well. */
  lemma BlockTupleFalseStaysLocal()
    ensures var x, y := Var(0, false, true, false, false), Var(1, false, true, false, false);
      && Collect([], ItemVars(BlockTuple(Scalar(TwoLevelBlock(x, y)), false), false), DefaultInclude) == [x]
      && Collect([], ItemVars(BlockItem(Scalar(TwoLevelBlock(x, y))), false), DefaultInclude) == [x, y]
  {
    var x, y := Var(0, false, true, false, false), Var(1, false, true, false, false);
    TwoLevelBlockWalk(x, y);
    CollectStep([], [x, y], 0, DefaultInclude);
    CollectStep([], [x, y], 1, DefaultInclude);
    assert [x, y][..2] == [x, y] && [x, y][..1] == [x];
  }

  /** A free and a fixed variable of each kind: continuous, binary (reported as
      integer as well) and integer. */
  function SixVariables(): seq<Var>
  {
    [Var(0, false, true, false, false), Var(1, false, false, true, true), Var(2, false, false, false, true),
     Var(3, true, true, false, false), Var(4, true, false, true, true), Var(5, true, false, false, true)]
  }

  /** Distinct variables that all pass the filter are collected as given, in
      order. */
  lemma {:induction false} CollectAllAdmitted(s: seq<Var>, vars: seq<Var>, inc: Include)
    requires NoDuplicates(s + vars)
    requires forall x :: x in vars ==> Admitted(inc, x)
    ensures Collect(s, vars, inc) == s + vars
    decreases |vars|
  {
    if vars != [] {
      var init, last := vars[..|vars| - 1], vars[|vars| - 1];
      assert vars == init + [last];
      assert s + vars == (s + init) + [last];
      assert NoDuplicates(s + init) by {
        forall i, j | 0 <= i < j < |s + init| ensures (s + init)[i] != (s + init)[j] {
          assert (s + init)[i] == (s + vars)[i] && (s + init)[j] == (s + vars)[j];
        }
      }
      CollectAllAdmitted(s, init, inc);
      assert last !in s + init by {
        forall i | 0 <= i < |s + init| ensures (s + init)[i] != last {
          assert (s + init)[i] == (s + vars)[i] && last == (s + vars)[|s + vars| - 1];
        }
      }
    }
  }

  /** With `include_fixed` all six are collected, in order. */
  lemma FixedVariablesIncluded()
    ensures Collect([], ItemVars(VarItem(Indexed(SixVariables())), true), DefaultInclude.(fixed := true)) == SixVariables()
  {
    var vars := SixVariables();
    var all := DefaultInclude.(fixed := true);
    assert [] + vars == vars;
    assert NoDuplicates(vars) by {
      forall i, j | 0 <= i < j < |vars| ensures vars[i] != vars[j] {
        assert vars[i].id == i && vars[j].id == j;
      }
    }
    assert forall x :: x in vars ==> Admitted(all, x);
    CollectAllAdmitted([], vars, all);
    assert ItemVars(VarItem(Indexed(vars)), true) == vars;
  }

  /** Distinct admitted variables followed by rejected ones: the admitted ones
      are collected, in order, and the rejected ones leave no trace. */
  lemma AdmittedThenRejected(admitted: seq<Var>, rejected: seq<Var>, inc: Include)
    requires NoDuplicates(admitted)
    requires forall x :: x in admitted ==> Admitted(inc, x)
    requires forall x :: x in rejected ==> !Admitted(inc, x)
    ensures Collect([], admitted + rejected, inc) == admitted
  {
    assert [] + admitted == admitted;
    CollectAllAdmitted([], admitted, inc);
    CollectAppend([], admitted, rejected, inc);
    CollectSaturated(admitted, rejected, inc);
  }

  /** Given as a variable component, the defaults collect the three free ones. */
  lemma FixedVariablesExcludedByDefault()
    ensures Collect([], ItemVars(VarItem(Indexed(SixVariables())), false), DefaultInclude) == SixVariables()[..3]
  {
    var vars := SixVariables();
    var free, fixed := vars[..3], vars[3..];
    assert vars == free + fixed;
    assert NoDuplicates(free) by {
      forall i, j | 0 <= i < j < |free| ensures free[i] != free[j] {
        assert free[i].id == i && free[j].id == j;
      }
    }
    assert forall x :: x in fixed ==> x.fixed;
    AdmittedThenRejected(free, fixed, DefaultInclude);
    assert ItemVars(VarItem(Indexed(vars)), false) == vars;
  }
}
