/** Finding the one active objective of a model (`_get_active_objective`). */
module ActiveObjective {
  import opened Wrappers
  import opened PyomoModel

  /** The active elements of an indexed objective, in index order. */
  function ActiveElements(es: seq<ObjectiveData>): (r: seq<ObjectiveData>)
    ensures |r| <= |es|
    ensures forall d :: d in r <==> d in es && d.active
    ensures (forall i :: 0 <= i < |es| ==> es[i].active) ==> r == es
    ensures forall d :: multiset(r)[d] == if d.active then multiset(es)[d] else 0
    decreases |es|
  {
    if es == [] then []
    else
      var rest := ActiveElements(es[..|es| - 1]);
      var last := es[|es| - 1];
      assert es == es[..|es| - 1] + [last];
      assert multiset(es) == multiset(es[..|es| - 1]) + multiset([last]);
      if last.active then rest + [last] else rest
  }

  /** A single element is kept exactly when it is active. */
  lemma ActiveElementsSingleton(d: ObjectiveData)
    ensures ActiveElements([d]) == if d.active then [d] else []
  {
    assert [d][..0] == [];
  }

  /** With `ActiveElementsSingleton`, `ActiveElements` is the order-preserving
      filter of the active elements: the elements of a concatenation are those
      of the first part followed by those of the second. */
  lemma {:induction false} ActiveElementsAppend(a: seq<ObjectiveData>, b: seq<ObjectiveData>)
    ensures ActiveElements(a + b) == ActiveElements(a) + ActiveElements(b)
    decreases |b|
  {
    if b == [] {
      assert a + b == a;
    } else {
      var init, last := b[..|b| - 1], b[|b| - 1];
      assert (a + b)[..|a + b| - 1] == a + init;
      assert (a + b)[|a + b| - 1] == last;
      ActiveElementsAppend(a, init);
    }
  }

  /** The active data objects of one objective component. */
  function ActiveData(o: Objective): seq<ObjectiveData>
  {
    match o
    case ScalarObjective(d) => if d.active then [d] else []
    case IndexedObjective(active, es) => if active then ActiveElements(es) else []
  }

  /** The active data objects of a block's own objective components, in
      declaration order. */
  function ObjectivesData(os: seq<Objective>): seq<ObjectiveData>
    decreases |os|
  {
    if os == [] then [] else ObjectivesData(os[..|os| - 1]) + ActiveData(os[|os| - 1])
  }

  /** What `model.component_data_objects(Objective, active=True)` yields: the
      active objective data objects of the block and, depth first, of its active
      sub-blocks. Each element of an indexed objective is a separate entry. */
  function ActiveObjectiveData(b: Block): seq<ObjectiveData>
    decreases b, |b.subBlocks| + 1
  {
    ObjectivesData(b.objectives) + SubBlocksData(b, |b.subBlocks|)
  }

  /** The active objective data of the first `n` sub-blocks of `b`, skipping the
      deactivated ones. */
  function SubBlocksData(b: Block, n: nat): seq<ObjectiveData>
    requires n <= |b.subBlocks|
    decreases b, n
  {
    if n == 0 then []
    else
      var sb := b.subBlocks[n - 1];
      SubBlocksData(b, n - 1) + (if sb.active then ActiveObjectiveData(sb) else [])
  }

  /** `d` is an active data object of the objective component `o`. */
  ghost predicate HasActiveData(o: Objective, d: ObjectiveData)
  {
    d.active &&
    match o
    case ScalarObjective(x) => x == d
    case IndexedObjective(active, es) => active && d in es
  }

  /** `d` is an active objective data object of `b` reachable through active
      blocks only: the reference definition the walk is proved against. */
  ghost predicate ActiveIn(b: Block, d: ObjectiveData)
    decreases b
  {
    (exists o :: o in b.objectives && HasActiveData(o, d)) ||
    (exists sb :: sb in b.subBlocks && sb.active && ActiveIn(sb, d))
  }

  lemma {:induction false} ObjectivesDataElements(os: seq<Objective>, d: ObjectiveData)
    ensures d in ObjectivesData(os) <==> exists o :: o in os && HasActiveData(o, d)
    decreases |os|
  {
    if os != [] {
      var init, last := os[..|os| - 1], os[|os| - 1];
      assert os == init + [last];
      ObjectivesDataElements(init, d);
      assert d in ActiveData(last) <==> HasActiveData(last, d);
    }
  }

  lemma {:induction false} SubBlocksDataElements(b: Block, n: nat, d: ObjectiveData)
    requires n <= |b.subBlocks|
    ensures d in SubBlocksData(b, n) <==>
      exists j :: 0 <= j < n && b.subBlocks[j].active && d in ActiveObjectiveData(b.subBlocks[j])
    decreases n
  {
    if n > 0 {
      SubBlocksDataElements(b, n - 1, d);
      SubBlocksDataLast(b, n, d);
      if d in SubBlocksData(b, n) {
        if d in SubBlocksData(b, n - 1) {
          var j :| 0 <= j < n - 1 && b.subBlocks[j].active && d in ActiveObjectiveData(b.subBlocks[j]);
          assert 0 <= j < n;
        } else {
          assert 0 <= n - 1 < n;
        }
      } else {
        forall j | 0 <= j < n ensures !(b.subBlocks[j].active && d in ActiveObjectiveData(b.subBlocks[j])) {
          if j < n - 1 {
            assert d !in SubBlocksData(b, n - 1);
          }
        }
      }
    }
  }

  lemma SubBlocksDataLast(b: Block, n: nat, d: ObjectiveData)
    requires 0 < n <= |b.subBlocks|
    ensures d in SubBlocksData(b, n) <==>
      d in SubBlocksData(b, n - 1) || (b.subBlocks[n - 1].active && d in ActiveObjectiveData(b.subBlocks[n - 1]))
  {
  }

  /** The walk yields exactly the active objective data objects reachable
      through active blocks. */
  lemma {:induction false} ActiveObjectiveDataExact(b: Block, d: ObjectiveData)
    ensures d in ActiveObjectiveData(b) <==> ActiveIn(b, d)
    decreases b
  {
    ObjectivesDataElements(b.objectives, d);
    SubBlocksDataElements(b, |b.subBlocks|, d);
    forall sb | sb in b.subBlocks ensures d in ActiveObjectiveData(sb) <==> ActiveIn(sb, d) {
      ActiveObjectiveDataExact(sb, d);
    }
    if exists sb :: sb in b.subBlocks && sb.active && ActiveIn(sb, d) {
      var sb :| sb in b.subBlocks && sb.active && ActiveIn(sb, d);
      var j :| 0 <= j < |b.subBlocks| && b.subBlocks[j] == sb;
      assert b.subBlocks[j].active && d in ActiveObjectiveData(b.subBlocks[j]);
    }
  }

  lemma {:induction false} ActiveInIsActive(b: Block, d: ObjectiveData)
    requires ActiveIn(b, d)
    ensures d.active
    decreases b
  {
    if !exists o :: o in b.objectives && HasActiveData(o, d) {
      var sb :| sb in b.subBlocks && sb.active && ActiveIn(sb, d);
      ActiveInIsActive(sb, d);
    }
  }

  /** The failure `_get_active_objective` raises: the number of active objective
      data objects found. */
  datatype ObjectiveCountError = ObjectiveCountError(count: nat)

  /** Collects the active objective data objects and returns the only one, or
      fails with their count. */
  method GetActiveObjective(model: Block) returns (r: Result<ObjectiveData, ObjectiveCountError>)
    ensures r.Ok? <==> |ActiveObjectiveData(model)| == 1
    ensures r.Ok? ==> ActiveObjectiveData(model) == [r.value] && r.value.active && ActiveIn(model, r.value)
    ensures r.Ok? ==> forall d :: ActiveIn(model, d) ==> d == r.value
    ensures r.Err? ==> r.error.count == |ActiveObjectiveData(model)| != 1
  {
    var generator := ActiveObjectiveData(model);
    var activeObjs: seq<ObjectiveData> := [];
    for i := 0 to |generator|
      invariant activeObjs == generator[..i]
    {
      activeObjs := activeObjs + [generator[i]];
    }
    assert activeObjs == generator;
    if |activeObjs| != 1 {
      return Err(ObjectiveCountError(|activeObjs|));
    }
    r := Ok(activeObjs[0]);
    ActiveObjectiveDataExact(model, r.value);
    ActiveInIsActive(model, r.value);
    forall d | ActiveIn(model, d) ensures d == r.value {
      ActiveObjectiveDataExact(model, d);
    }
  }

  /** The character of a decimal digit. */
  function DigitChar(d: nat): char
    requires d < 10
  {
    (48 + d) as char
  }

  /** `str(n)`: the decimal rendering of `n`, most significant digit first. */
  function DecimalString(n: nat): (s: string)
    ensures |s| >= 1
    ensures forall i :: 0 <= i < |s| ==> '0' <= s[i] <= '9'
    decreases n
  {
    if n < 10 then [DigitChar(n)] else DecimalString(n / 10) + [DigitChar(n % 10)]
  }

  /** The number a string of decimal digits denotes. */
  function DecimalValue(s: string): nat
    requires forall i :: 0 <= i < |s| ==> '0' <= s[i] <= '9'
    decreases |s|
  {
    if s == [] then 0 else DecimalValue(s[..|s| - 1]) * 10 + (s[|s| - 1] as int - 48)
  }

  /** The count rendered in the message can be read back. */
  lemma {:induction false} DecimalRoundTrip(n: nat)
    ensures DecimalValue(DecimalString(n)) == n
    decreases n
  {
    if n >= 10 {
      var s := DecimalString(n);
      assert s[..|s| - 1] == DecimalString(n / 10);
      DecimalRoundTrip(n / 10);
    }
  }

  const MessagePrefix := "Model has "
  const MessageSuffix := " active objective functions, exactly one is required."

  /** The assertion message of `_get_active_objective`. */
  function Message(e: ObjectiveCountError): string
  {
    MessagePrefix + DecimalString(e.count) + MessageSuffix
  }

  /** The count can be read back from the message: the text between the fixed
      prefix and suffix is the decimal rendering of the count. */
  lemma MessageCarriesCount(e: ObjectiveCountError)
    ensures var m := Message(e);
      |m| > |MessagePrefix| + |MessageSuffix| &&
      m[..|MessagePrefix|] == MessagePrefix &&
      m[|m| - |MessageSuffix|..] == MessageSuffix &&
      var digits := m[|MessagePrefix|..|m| - |MessageSuffix|];
      (forall i :: 0 <= i < |digits| ==> '0' <= digits[i] <= '9') &&
      DecimalValue(digits) == e.count
  {
    var m := Message(e);
    assert m[|MessagePrefix|..|m| - |MessageSuffix|] == DecimalString(e.count);
    DecimalRoundTrip(e.count);
  }

  /** The test model: a scalar objective `b1.o` and an objective `b2.o` indexed
      by 0 and 1, each on its own sub-block. The flags say which are active. */
  function TwoObjectiveModel(b1oActive: bool, b2oActive: bool, b2o0Active: bool): Block
  {
    Block(true, [], [], [
      Block(true, [ScalarObjective(ObjectiveData(1, b1oActive, Minimize))], [], []),
      Block(true, [IndexedObjective(b2oActive, [
        ObjectiveData(2, b2oActive && b2o0Active, Minimize),
        ObjectiveData(3, b2oActive, Minimize)])], [], [])])
  }

  /** A block holding one objective and nothing else yields that objective's
      active data. */
  lemma LeafBlockData(o: Objective)
    ensures ActiveObjectiveData(Block(true, [o], [], [])) == ActiveData(o)
  {
    assert [o][..0] == [];
    assert ObjectivesData([o]) == [] + ActiveData(o);
    assert SubBlocksData(Block(true, [o], [], []), 0) == [];
  }

  /** A block without objectives of its own, over two active sub-blocks, yields
      the data of the first and then of the second. */
  lemma RootBlockData(sb1: Block, sb2: Block)
    requires sb1.active && sb2.active
    ensures ActiveObjectiveData(Block(true, [], [], [sb1, sb2])) == ActiveObjectiveData(sb1) + ActiveObjectiveData(sb2)
  {
    var b := Block(true, [], [], [sb1, sb2]);
    assert SubBlocksData(b, 1) == ActiveObjectiveData(sb1);
  }

  /** The indexed objective `b2.o` with both elements' flags given. */
  lemma IndexedElements(o2: ObjectiveData, o3: ObjectiveData)
    ensures ActiveElements([o2, o3]) ==
      (if o2.active then [o2] else []) + (if o3.active then [o3] else [])
  {
    assert [o2, o3][..1] == [o2];
    assert [o2][..0] == [];
  }

  /** Three active objective data objects (the indexed one counts twice): the
      selection fails and reports 3. */
  lemma MultipleObjectives()
    ensures |ActiveObjectiveData(TwoObjectiveModel(true, true, true))| == 3
    ensures Message(ObjectiveCountError(3)) ==
      "Model has " + "3" + " active objective functions, exactly one is required."
  {
    var m := TwoObjectiveModel(true, true, true);
    RootBlockData(m.subBlocks[0], m.subBlocks[1]);
    LeafBlockData(m.subBlocks[0].objectives[0]);
    LeafBlockData(m.subBlocks[1].objectives[0]);
    IndexedElements(ObjectiveData(2, true, Minimize), ObjectiveData(3, true, Minimize));
    assert DecimalString(3) == "3";
  }

  /** With `b1.o` and `b2.o` deactivated there is none, and 0 is reported. */
  lemma NoObjectives()
    ensures ActiveObjectiveData(TwoObjectiveModel(false, false, true)) == []
    ensures Message(ObjectiveCountError(0)) ==
      "Model has " + "0" + " active objective functions, exactly one is required."
  {
    var m := TwoObjectiveModel(false, false, true);
    RootBlockData(m.subBlocks[0], m.subBlocks[1]);
    LeafBlockData(m.subBlocks[0].objectives[0]);
    LeafBlockData(m.subBlocks[1].objectives[0]);
    assert DecimalString(0) == "0";
  }

  /** With `b1.o` and `b2.o[0]` deactivated, `b2.o[1]` is the one selected. */
  lemma OneObjective()
    ensures ActiveObjectiveData(TwoObjectiveModel(false, true, false)) ==
      [ObjectiveData(3, true, Minimize)]
  {
    var m := TwoObjectiveModel(false, true, false);
    RootBlockData(m.subBlocks[0], m.subBlocks[1]);
    LeafBlockData(m.subBlocks[0].objectives[0]);
    LeafBlockData(m.subBlocks[1].objectives[0]);
    IndexedElements(ObjectiveData(2, false, Minimize), ObjectiveData(3, true, Minimize));
  }
}
