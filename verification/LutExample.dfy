/** An array variable that the compiler promotes although it changes. */
module LutExamples {
  import opened Spirv
  import opened Graphs
  import opened Paths
  import opened Dominance
  import opened Soundness
  import opened Cfg
  import opened DominatorBuilders
  import opened Instructions
  import opened Luts
  import opened LutLoads

  const ARRAY: VariableInfo := VariableInfo(true, false, false, true, 0)

  /** One block stores constant 3 to variable 2, takes a chain into it, stores constant 4 to it and
      loads through the chain. */
  function StoresTwice(): seq<Instr> { [Store(2, 3), AccessChain(5, 2), Store(2, 4), Load(6, 5)] }

  function TwiceStored(): Body {
    Body(Function(1, map[1 := Block(Return, MergeNone, 0, 0, 0, 0, 0, 0, [])]), [1],
         map[1 := StoresTwice()], Pointers({2}, map[5 := 2]))
  }

  lemma BodyKnown()
    ensures var body := TwiceStored();
            && body.WellFormed() && body.func.entry == 1 && body.blocks == [1] && body.Ops(1) == StoresTwice()
            && body.pointers.vars == {2} && body.pointers == Pointers({2}, map[5 := 2])
  {
    var f := TwiceStored().func;
    assert f.blocks[1].VisitTargets() == [];
  }

  /** The scan stops at the first access chain: the second store goes unnoticed. */
  lemma {:induction false} ScanMissesSecondStore(v: Id, r: Id, c1: Id, c2: Id, rest: seq<Instr>)
    ensures ScanFrom([Store(v, c1), AccessChain(r, v), Store(v, c2)] + rest, v, Scan(0, 0)) == Scan(c1, 1)
  {
    var ops := [Store(v, c1), AccessChain(r, v), Store(v, c2)] + rest;
    assert ops[1..] == [AccessChain(r, v), Store(v, c2)] + rest;
    assert StopsScan(ops[1..][0], v, Scan(c1, 1));
  }

  lemma Written(op: Instr)
    requires op in StoresTwice()
    ensures 2 !in WrittenPartBy(Pointers({2}, map[5 := 2]), op)
  {
  }

  lemma OneBlockAccesses(g: Graph)
    requires Traversed(g) && g.func == TwiceStored().func
    ensures NearestAccessDominator(g, TwiceStored(), 2, 1)
  {
    hide Traversed, TwiceStored, Body.WellFormed, Nearest, AccessedBy;
    BodyKnown();
    OrderWithinBlocks(g);
    TraversedDescends(g);
    Ranks(g);
    Accessed();
    assert (set b | b in g.order && AccessedIn(TwiceStored(), 2, b)) == {1};
    NearestOfOne(g, 1);
  }

  lemma Accessed()
    ensures AccessedIn(TwiceStored(), 2, 1)
  {
    BodyKnown();
    assert Store(2, 3) in StoresTwice();
    assert 2 in AccessedBy(Pointers({2}, map[5 := 2]), Store(2, 3));
  }

  /** The variable qualifies for promotion to the first constant. */
  lemma TwiceStoredQualifies(g: Graph)
    requires Traversed(g) && g.func == TwiceStored().func
    ensures MayBeLut(ARRAY, false) && IsLut(g, TwiceStored(), ARRAY, {3, 4}, 2, 3, 1)
  {
    hide Traversed, TwiceStored, Body.WellFormed, NearestAccessDominator, WrittenPartBy, WrittenWholeBy, ScanFrom;
    hide SingleStore;
    BodyKnown();
    OneBlockAccesses(g);
    forall op | op in StoresTwice() ensures 2 !in WrittenPartBy(TwiceStored().pointers, op) { Written(op); }
    ScanMissesSecondStore(2, 5, 3, 4, [Load(6, 5)]);
    assert StoresTwice() == [Store(2, 3), AccessChain(5, 2), Store(2, 4)] + [Load(6, 5)];
    ScanIff(StoresTwice(), 2, 3);
  }

  /** The load through the chain, after the second store, finds the other constant. */
  lemma LoadSeesSecondStore() returns (e: Execution)
    ensures IsExecution(TwiceStored(), map[], 2, Unset, e) && e.run == [1]
    ensures LoadsVariable(TwiceStored(), e.run, 2, 0, 3) && |e.cells[0]| == 5 && e.cells[0][3] == Holds(Named(4))
  {
    hide TwiceStored, Body.WellFormed;
    BodyKnown();
    var cells := [Unset, Holds(Named(3)), Holds(Named(3)), Holds(Named(4)), Holds(Named(4))];
    e := Execution([1], [cells]);
    var ops := StoresTwice();
    assert Effect(TwiceStored(), map[], ops[0], 2, cells[0], cells[1]);
    assert Effect(TwiceStored(), map[], ops[1], 2, cells[1], cells[2]);
    assert Effect(TwiceStored(), map[], ops[2], 2, cells[2], cells[3]);
    assert Effect(TwiceStored(), map[], ops[3], 2, cells[3], cells[4]);
    hide Effect;
    assert BlockTrace(TwiceStored(), map[], 2, ops, cells);
    Single(RealEdges(TwiceStored().func), 1);
    assert Earlier(0, 1, 0, 3) && ChainMade(TwiceStored(), [1], 5, 2, 0, 1);
  }

  lemma OnlyFirstConstant(g: Graph, c: Id, d: Id)
    requires Traversed(g) && g.func == TwiceStored().func && IsLut(g, TwiceStored(), ARRAY, {3, 4}, 2, c, d)
    ensures c == 3
  {
    hide Traversed, TwiceStored, Body.WellFormed, NearestAccessDominator, WrittenPartBy, ScanFrom, SingleStore;
    BodyKnown();
    assert Store(2, 3) in StoresTwice();
    assert 2 in WrittenWholeBy(Pointers({2}, map[5 := 2]), Store(2, 3));
    assert d == 1;
    ScanMissesSecondStore(2, 5, 3, 4, [Load(6, 5)]);
    assert StoresTwice() == [Store(2, 3), AccessChain(5, 2), Store(2, 4)] + [Load(6, 5)];
    ScanIff(StoresTwice(), 2, c);
  }

  lemma OnlyVariable(handler: AccessHandler, v: Id)
    requires Complete(handler) && handler.body == TwiceStored()
    ensures v in handler.accessed ==> v == 2
    ensures 2 in handler.accessed
  {
    hide Complete, AccessBlocks, WholeBlocks, PartBlocks, TwiceStored, Body.WellFormed;
    BodyKnown();
    HandlerHolds(handler, v);
    if v in handler.accessed {
      AccessedIsVariable(handler.body, v);
    }
    HandlerHolds(handler, 2);
    BlockAccesses();
  }

  lemma BlockAccesses()
    ensures AccessBlocks(TwiceStored(), 2) != {}
  {
    hide TwiceStored, AccessedBy;
    BodyKnown();
    Accessed();
    assert 1 in AccessBlocks(TwiceStored(), 2);
  }

  /** The compiler does promote the variable: to the constant that the load does not find. */
  method PromotesTwiceStored() returns (luts: LocalLuts, ghost e: Execution)
    ensures 2 in luts.staticExpressions && luts.staticExpressions[2] == 3
    ensures IsExecution(TwiceStored(), map[], 2, Unset, e) && e.run == [1]
    ensures LoadsVariable(TwiceStored(), e.run, 2, 0, 3) && e.cells[0][3] == Holds(Named(4))
    ensures !ConstantAtLoads(TwiceStored(), map[], 2, Unset, 3)
  {
    hide Traversed, Descending, IdomTree, IsLut, Function.WellFormed, TwiceStored, IsExecution, StoresTwice;
    BodyKnown();
    var cfg := new CFG(TwiceStored().func);
    var handler := new AccessHandler(TwiceStored());
    handler.Traverse();
    forall v ensures v in handler.accessed ==> v == 2 { OnlyVariable(handler, v); }
    OnlyVariable(handler, 2);
    luts := new LocalLuts();
    luts.FindFunctionLocalLuts(cfg, handler, map[2 := ARRAY], {3, 4}, false);
    TwiceStoredQualifies(cfg.State());
    OnlyFirstConstant(cfg.State(), luts.staticExpressions[2], luts.dominators[2]);
    e := LoadSeesSecondStore();
    hide LoadsVariable;
    assert !LoadFinds(e, 3, 0, 3);
  }

  // ---------------------------------------------------------------- a second store that does no harm

  /** The same, but the load comes before the second store. */
  function LoadsBetween(): seq<Instr> { [Store(2, 3), AccessChain(5, 2), Load(6, 5), Store(2, 4)] }

  function LoadedBetween(): Body {
    Body(Function(1, map[1 := Block(Return, MergeNone, 0, 0, 0, 0, 0, 0, [])]), [1],
         map[1 := LoadsBetween()], Pointers({2}, map[5 := 2]))
  }

  lemma OneBlockRuns(run: seq<Id>)
    requires IsRun(LoadedBetween(), run)
    ensures run == [1] && LoadedBetween().Ops(1) == LoadsBetween()
  {
    assert forall y :: !Step(RealEdges(LoadedBetween().func), 1, y);
    RunSteps(LoadedBetween(), run);
  }

  /** Nothing is loaded once the other constant is stored, although the variable ends up holding it. */
  lemma NothingSpoiled()
    ensures !LoadsSpoiled(LoadedBetween(), map[], 2, 3)
    ensures !OnlyConstantWritten(LoadedBetween(), map[], 2, 3)
  {
    var body := LoadedBetween();
    forall run, j: nat, l: nat, i: nat, k: nat ensures !Spoils(body, map[], 2, 3, run, j, l, i, k) {
      if IsRun(body, run) && At(body, run, j, l) && OtherWrite(body, map[], OpAt(body, run, j, l), 2, 3) {
        OneBlockRuns(run);
      }
    }
    Single(RealEdges(body.func), 1);
    assert ReallyReached(body, 1) && LoadsBetween()[3] in body.Ops(1);
    assert Writes(body, map[], Store(2, 4), 2);
  }
}
