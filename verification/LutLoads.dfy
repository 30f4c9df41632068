/** When promotion to a constant preserves meaning: what the loads of the variable yield. */
module LutLoads {
  import opened Spirv
  import opened Graphs
  import opened Paths
  import opened Dominance
  import opened Soundness
  import opened Instructions
  import opened Luts

  // ---------------------------------------------------------------- loads and what spoils them

  ghost predicate IsRun(body: Body, run: seq<Id>) {
    run != [] && run[0] == body.func.entry && IsPath(RealEdges(body.func), run)
  }

  predicate At(body: Body, run: seq<Id>, i: nat, k: nat) { i < |run| && k < |body.Ops(run[i])| }

  function OpAt(body: Body, run: seq<Id>, i: nat, k: nat): Instr
    requires At(body, run, i, k)
  {
    body.Ops(run[i])[k]
  }

  /** Here the run loads the variable, as a whole or through access chains into it. */
  ghost predicate LoadsVariable(body: Body, run: seq<Id>, v: Id, i: nat, k: nat) {
    && At(body, run, i, k) && OpAt(body, run, i, k).Load?
    && (OpAt(body, run, i, k).ptr == v || ChainedFrom(body, run, v, OpAt(body, run, i, k).ptr, i, k))
  }

  /** On every execution, every load of the variable finds it holding the constant `c`. */
  ghost predicate ConstantAtLoads(body: Body, hidden: Aliases, v: Id, init: Cell, c: Id) {
    forall e, i: nat, k: nat :: IsExecution(body, hidden, v, init, e) && LoadsVariable(body, e.run, v, i, k) ==>
      LoadFinds(e, c, i, k)
  }

  /** The variable holds `c` before instruction `k` of the i-th block. */
  predicate LoadFinds(e: Execution, c: Id, i: nat, k: nat) {
    i < |e.cells| && k < |e.cells[i]| && e.cells[i][k] == Holds(Named(c))
  }

  ghost predicate OtherWrite(body: Body, hidden: Aliases, op: Instr, v: Id, c: Id) {
    Writes(body, hidden, op, v) && !KeepsConstant(op, v, c)
  }

  /** Nowhere strictly between the two places does the run store `c` again. */
  ghost predicate NotRestored(body: Body, run: seq<Id>, v: Id, c: Id, j: nat, l: nat, i: nat, k: nat) {
    forall x: nat, y: nat :: At(body, run, x, y) && Earlier(j, l, x, y) && Earlier(x, y, i, k) ==>
      OpAt(body, run, x, y) != Store(v, c)
  }

  /** The run writes something else to the variable at (j, l) and loads it at (i, k) before `c` is
      stored again. */
  ghost predicate Spoils(body: Body, hidden: Aliases, v: Id, c: Id, run: seq<Id>, j: nat, l: nat, i: nat, k: nat) {
    && IsRun(body, run) && Earlier(j, l, i, k)
    && At(body, run, j, l) && OtherWrite(body, hidden, OpAt(body, run, j, l), v, c)
    && LoadsVariable(body, run, v, i, k) && NotRestored(body, run, v, c, j, l, i, k)
  }

  ghost predicate LoadsSpoiled(body: Body, hidden: Aliases, v: Id, c: Id) {
    exists run, j: nat, l: nat, i: nat, k: nat :: Spoils(body, hidden, v, c, run, j, l, i, k)
  }

  // ---------------------------------------------------------------- nothing spoils: the constant is found

  lemma StepBack(body: Body, hidden: Aliases, op: Instr, v: Id, c: Id, before: Cell, after: Cell)
    requires v in body.pointers.vars && v != 0 && Effect(body, hidden, op, v, before, after)
    requires after.Holds? && after != Holds(Named(c)) && !OtherWrite(body, hidden, op, v, c)
    ensures before == after && op != Store(v, c)
  {
  }

  lemma LastOfBlock(body: Body, hidden: Aliases, v: Id, init: Cell, e: Execution, i: nat)
    requires IsExecution(body, hidden, v, init, e) && i < |e.run|
    ensures |e.cells| == |e.run| && |e.cells[i]| == |body.Ops(e.run[i])| + 1
    ensures i > 0 ==> e.cells[i - 1] != []
    ensures i > 0 ==> e.cells[i][0] == e.cells[i - 1][|e.cells[i - 1]| - 1]
    ensures i == 0 ==> e.cells[i][0] == init
    ensures forall k: nat :: k < |body.Ops(e.run[i])| ==>
              Effect(body, hidden, body.Ops(e.run[i])[k], v, e.cells[i][k], e.cells[i][k + 1])
  {
    hide Effect;
    assert BlockTrace(body, hidden, v, body.Ops(e.run[i]), e.cells[i]);
  }

  /** What else the variable holds has been written, and `c` not stored since. */
  lemma {:induction false} OtherWasWritten(body: Body, hidden: Aliases, v: Id, init: Cell, c: Id, e: Execution,
                                           i: nat, k: nat)
    returns (j: nat, l: nat)
    requires v in body.pointers.vars && v != 0 && ConstantCell(init, c)
    requires IsExecution(body, hidden, v, init, e) && i < |e.run| && k < |e.cells[i]|
    requires e.cells[i][k].Holds? && e.cells[i][k] != Holds(Named(c))
    ensures At(body, e.run, j, l) && Earlier(j, l, i, k) && OtherWrite(body, hidden, OpAt(body, e.run, j, l), v, c)
    ensures NotRestored(body, e.run, v, c, j, l, i, k)
    decreases i, k
  {
    hide IsExecution, OtherWrite, Effect;
    LastOfBlock(body, hidden, v, init, e, i);
    if k > 0 {
      var op := OpAt(body, e.run, i, k - 1);
      if OtherWrite(body, hidden, op, v, c) {
        j, l := i, k - 1;
      } else {
        StepBack(body, hidden, op, v, c, e.cells[i][k - 1], e.cells[i][k]);
        j, l := OtherWasWritten(body, hidden, v, init, c, e, i, k - 1);
        OneMore(body, e.run, v, c, j, l, i, k - 1);
      }
    } else {
      LastOfBlock(body, hidden, v, init, e, i - 1);
      var n := |body.Ops(e.run[i - 1])|;
      j, l := OtherWasWritten(body, hidden, v, init, c, e, i - 1, n);
      NextBlock(body, e.run, v, c, j, l, i - 1);
    }
  }

  lemma OneMore(body: Body, run: seq<Id>, v: Id, c: Id, j: nat, l: nat, i: nat, k: nat)
    requires NotRestored(body, run, v, c, j, l, i, k) && At(body, run, i, k) && OpAt(body, run, i, k) != Store(v, c)
    ensures NotRestored(body, run, v, c, j, l, i, k + 1)
  {
  }

  lemma NextBlock(body: Body, run: seq<Id>, v: Id, c: Id, j: nat, l: nat, i: nat)
    requires i < |run| && NotRestored(body, run, v, c, j, l, i, |body.Ops(run[i])|)
    ensures NotRestored(body, run, v, c, j, l, i + 1, 0)
  {
  }

  // ---------------------------------------------------------------- something spoils: it shows

  lemma OtherNext(body: Body, hidden: Aliases, op: Instr, v: Id, c: Id, before: Cell)
    requires v in body.pointers.vars && v != 0
    ensures OtherWrite(body, hidden, op, v, c) ==> Next(body, hidden, op, v, before) != Holds(Named(c))
    ensures before != Holds(Named(c)) && op != Store(v, c) ==> Next(body, hidden, op, v, before) != Holds(Named(c))
  {
  }

  lemma NextAt(body: Body, hidden: Aliases, v: Id, init: Cell, e: Execution, i: nat, k: nat)
    requires IsExecution(body, hidden, v, init, e) && TakesNext(body, hidden, v, e) && At(body, e.run, i, k)
    ensures k + 1 < |e.cells[i]|
    ensures e.cells[i][k + 1] == Next(body, hidden, OpAt(body, e.run, i, k), v, e.cells[i][k])
  {
    hide IsExecution, Next;
    LastOfBlock(body, hidden, v, init, e, i);
    assert e.cells[i] == Trace(body, hidden, v, body.Ops(e.run[i]), e.cells[i][0]);
  }

  /** Until `c` is stored again, the variable does not hold it. */
  lemma {:induction false} StaysOther(body: Body, hidden: Aliases, v: Id, init: Cell, c: Id, e: Execution,
                                      j: nat, l: nat, i: nat, k: nat)
    requires v in body.pointers.vars && v != 0
    requires IsExecution(body, hidden, v, init, e) && TakesNext(body, hidden, v, e)
    requires At(body, e.run, j, l) && OtherWrite(body, hidden, OpAt(body, e.run, j, l), v, c)
    requires Earlier(j, l, i, k) && i < |e.run| && k < |e.cells[i]| && NotRestored(body, e.run, v, c, j, l, i, k)
    ensures e.cells[i][k] != Holds(Named(c))
    decreases i, k
  {
    hide IsExecution, TakesNext, OtherWrite, Next;
    LastOfBlock(body, hidden, v, init, e, i);
    if k > 0 {
      NextAt(body, hidden, v, init, e, i, k - 1);
      OtherNext(body, hidden, OpAt(body, e.run, i, k - 1), v, c, e.cells[i][k - 1]);
      if i != j || k - 1 != l {
        StaysOther(body, hidden, v, init, c, e, j, l, i, k - 1);
      }
    } else {
      LastOfBlock(body, hidden, v, init, e, i - 1);
      StaysOther(body, hidden, v, init, c, e, j, l, i - 1, |e.cells[i - 1]| - 1);
    }
  }

  lemma SpoiltLoadShows(body: Body, hidden: Aliases, v: Id, init: Cell, c: Id, run: seq<Id>,
                        j: nat, l: nat, i: nat, k: nat)
    requires v in body.pointers.vars && v != 0 && Spoils(body, hidden, v, c, run, j, l, i, k)
    ensures !ConstantAtLoads(body, hidden, v, init, c)
  {
    hide OtherWrite, LoadsVariable, NotRestored;
    var e := RunExecutes(body, hidden, v, init, run);
    hide IsExecution, TakesNext;
    LoadIsAt(body, run, v, i, k);
    LastOfBlock(body, hidden, v, init, e, i);
    StaysOther(body, hidden, v, init, c, e, j, l, i, k);
    assert LoadsVariable(body, e.run, v, i, k) && !LoadFinds(e, c, i, k);
  }

  lemma LoadIsAt(body: Body, run: seq<Id>, v: Id, i: nat, k: nat)
    requires LoadsVariable(body, run, v, i, k)
    ensures At(body, run, i, k) && OpAt(body, run, i, k).Load?
  {
  }

  // ---------------------------------------------------------------- the exact condition, over runs

  /** In structured control flow a promoted variable is set whenever it is loaded. */
  lemma LutIsSetAtLoad(g: Graph, idom: map<Id, Id>, body: Body, hidden: Aliases, info: VariableInfo,
                       constants: set<Id>, v: Id, c: Id, d: Id, e: Execution, i: nat, k: nat)
    requires Traversed(g) && IdomTree(g, idom, 1) && Reducible(g)
    requires body.WellFormed() && g.func == body.func && v in body.pointers.vars
    requires IsLut(g, body, info, constants, v, c, d)
    requires IsExecution(body, hidden, v, InitialCell(info), e) && LoadsVariable(body, e.run, v, i, k)
    ensures k < |e.cells[i]| && e.cells[i][k].Holds?
  {
    hide Traversed, IdomTree, Reducible, IsLut, Body.WellFormed, IsExecution, ChainedFrom;
    LastOfBlock(body, hidden, v, InitialCell(info), e, i);
    var p := OpAt(body, e.run, i, k).ptr;
    if p == v {
      LutIsSetBeforeUse(g, idom, body, hidden, info, constants, v, c, d, e, i, k);
    } else {
      var j, l := ChainRoot(body, e.run, v, p, i, k);
      hide Uses;
      LastOfBlock(body, hidden, v, InitialCell(info), e, j);
      LutIsSetBeforeUse(g, idom, body, hidden, info, constants, v, c, d, e, j, l);
      StaysSet(body, hidden, v, InitialCell(info), e, j, l, i, k);
    }
  }

  lemma VariableNotZero(body: Body, v: Id)
    requires body.WellFormed() && v in body.pointers.vars
    ensures v != 0
  {
  }

  lemma StartsConstant(g: Graph, body: Body, info: VariableInfo, constants: set<Id>, v: Id, c: Id, d: Id)
    requires IsLut(g, body, info, constants, v, c, d)
    ensures ConstantCell(InitialCell(info), c)
  {
  }

  /** Promotion preserves meaning, that is, every load on every execution yields the chosen constant, if
      and only if no run loads the variable after something else was written and before the constant is
      stored again. */
  lemma LutLoadsConstantIff(g: Graph, idom: map<Id, Id>, body: Body, hidden: Aliases, info: VariableInfo,
                            constants: set<Id>, v: Id, c: Id, d: Id)
    requires Traversed(g) && IdomTree(g, idom, 1) && Reducible(g)
    requires body.WellFormed() && g.func == body.func && v in body.pointers.vars
    requires IsLut(g, body, info, constants, v, c, d)
    ensures ConstantAtLoads(body, hidden, v, InitialCell(info), c) <==> !LoadsSpoiled(body, hidden, v, c)
  {
    hide Traversed, IdomTree, Reducible, IsLut, Body.WellFormed, LoadsVariable, OtherWrite, NotRestored, Effect;
    hide LoadsSpoiled, BlockTrace;
    VariableNotZero(body, v);
    var init := InitialCell(info);
    if !LoadsSpoiled(body, hidden, v, c) {
      forall e, i: nat, k: nat | IsExecution(body, hidden, v, init, e) && LoadsVariable(body, e.run, v, i, k)
        ensures LoadFinds(e, c, i, k)
      {
        UnspoiltLoad(g, idom, body, hidden, info, constants, v, c, d, e, i, k);
      }
    }
    if LoadsSpoiled(body, hidden, v, c) {
      SpoiltShows(body, hidden, v, init, c);
    }
  }

  lemma SpoiltShows(body: Body, hidden: Aliases, v: Id, init: Cell, c: Id)
    requires v in body.pointers.vars && v != 0 && LoadsSpoiled(body, hidden, v, c)
    ensures !ConstantAtLoads(body, hidden, v, init, c)
  {
    hide Spoils, ConstantAtLoads;
    var run, j: nat, l: nat, i: nat, k: nat :| Spoils(body, hidden, v, c, run, j, l, i, k);
    SpoiltLoadShows(body, hidden, v, init, c, run, j, l, i, k);
  }

  lemma UnspoiltLoad(g: Graph, idom: map<Id, Id>, body: Body, hidden: Aliases, info: VariableInfo,
                     constants: set<Id>, v: Id, c: Id, d: Id, e: Execution, i: nat, k: nat)
    requires Traversed(g) && IdomTree(g, idom, 1) && Reducible(g)
    requires body.WellFormed() && g.func == body.func && v in body.pointers.vars
    requires IsLut(g, body, info, constants, v, c, d) && !LoadsSpoiled(body, hidden, v, c)
    requires IsExecution(body, hidden, v, InitialCell(info), e) && LoadsVariable(body, e.run, v, i, k)
    ensures LoadFinds(e, c, i, k)
  {
    hide Traversed, IdomTree, Reducible, Body.WellFormed, IsExecution, LoadsVariable, OtherWrite, NotRestored;
    VariableNotZero(body, v);
    StartsConstant(g, body, info, constants, v, c, d);
    LoadIsAt(body, e.run, v, i, k);
    hide IsLut;
    var init := InitialCell(info);
    hide InitialCell;
    LastOfBlock(body, hidden, v, init, e, i);
    LutIsSetAtLoad(g, idom, body, hidden, info, constants, v, c, d, e, i, k);
    if e.cells[i][k] != Holds(Named(c)) {
      OtherIsSpoilt(body, hidden, v, init, c, e, i, k);
      assert false;
    }
  }

  lemma OtherIsSpoilt(body: Body, hidden: Aliases, v: Id, init: Cell, c: Id, e: Execution, i: nat, k: nat)
    requires v in body.pointers.vars && v != 0 && ConstantCell(init, c)
    requires IsExecution(body, hidden, v, init, e) && LoadsVariable(body, e.run, v, i, k)
    requires i < |e.cells| && k < |e.cells[i]| && e.cells[i][k].Holds? && e.cells[i][k] != Holds(Named(c))
    ensures LoadsSpoiled(body, hidden, v, c)
  {
    hide IsExecution, LoadsVariable, OtherWrite, NotRestored, IsRun;
    LoadIsAt(body, e.run, v, i, k);
    var j, l := OtherWasWritten(body, hidden, v, init, c, e, i, k);
    RunOfExecution(body, hidden, v, init, e);
    assert Spoils(body, hidden, v, c, e.run, j, l, i, k);
  }

  lemma RunSteps(body: Body, run: seq<Id>)
    requires IsRun(body, run)
    ensures |run| == 1 || Step(RealEdges(body.func), run[0], run[1])
  {
  }

  lemma RunOfExecution(body: Body, hidden: Aliases, v: Id, init: Cell, e: Execution)
    requires IsExecution(body, hidden, v, init, e)
    ensures IsRun(body, e.run)
  {
  }

  // ---------------------------------------------------------------- the exact condition, over places

  predicate LoadsThrough(body: Body, op: Instr, v: Id) { op.Load? && body.pointers.Backing(op.ptr) == v }

  /** Pointers are made before they are used, and traced to the variable that their chains start from:
      the loads that the compiler knows of are those that a run can make. */
  ghost predicate ChainsTracked(body: Body, v: Id) {
    forall run, i: nat, k: nat :: IsRun(body, run) && At(body, run, i, k) && OpAt(body, run, i, k).Load? ==>
      (LoadsThrough(body, OpAt(body, run, i, k), v) <==> LoadsVariable(body, run, v, i, k))
  }

  /** Between these two places of a block the constant is not stored. */
  predicate NotStored(ops: seq<Instr>, v: Id, c: Id, from: nat, to: nat) {
    forall y :: from <= y < to && y < |ops| ==> ops[y] != Store(v, c)
  }

  /** Instruction `l` of block `d` writes something else to the variable as a whole, and a load follows
      in the block before the constant is stored again, or the block does not store it again and leads
      to another block with a load. */
  ghost predicate SpoilsFrom(body: Body, v: Id, c: Id, d: Id, l: nat) {
    var ops := body.Ops(d);
    && l < |ops| && v in WrittenWholeBy(body.pointers, ops[l]) && !KeepsConstant(ops[l], v, c)
    && ((exists k :: l < k < |ops| && LoadsThrough(body, ops[k], v) && NotStored(ops, v, c, l + 1, k))
        || (NotStored(ops, v, c, l + 1, |ops|) && exists b :: LoadsBeyond(body, v, d, b)))
  }

  ghost predicate LoadsBeyond(body: Body, v: Id, d: Id, b: Id) {
    b != d && Paths.Reaches(RealEdges(body.func), d, b) && exists op :: op in body.Ops(b) && LoadsThrough(body, op, v)
  }

  /** A write through an untraced pointer spoils a load. */
  ghost predicate HiddenSpoils(body: Body, hidden: Aliases, v: Id, c: Id) {
    exists run, j: nat, l: nat, i: nat, k: nat ::
      Spoils(body, hidden, v, c, run, j, l, i, k) && HiddenWrite(body, hidden, OpAt(body, run, j, l), v)
  }

  ghost predicate PlaceSpoils(body: Body, v: Id, c: Id, d: Id) {
    ReallyReached(body, d) && exists l: nat :: SpoilsFrom(body, v, c, d, l)
  }

  lemma RunBlockKnown(body: Body, run: seq<Id>, i: nat)
    requires body.WellFormed() && IsRun(body, run) && i < |run|
    ensures ReallyReached(body, run[i]) && run[i] in body.blocks && run[i] != 0
  {
    hide Body.WellFormed, ReallyReached;
    RunReaches(body, run, i);
    ReachedIsKnown(body, run[i]);
  }

  /** What else a run writes to a promoted variable is hidden, or a whole write in its block. */
  lemma OtherWriteCases(g: Graph, body: Body, hidden: Aliases, info: VariableInfo, constants: set<Id>,
                        v: Id, c: Id, d: Id, run: seq<Id>, j: nat, l: nat)
    requires body.WellFormed() && IsLut(g, body, info, constants, v, c, d) && IsRun(body, run) && At(body, run, j, l)
    requires OtherWrite(body, hidden, OpAt(body, run, j, l), v, c) && v in body.pointers.vars
    ensures !HiddenWrite(body, hidden, OpAt(body, run, j, l), v) ==>
              run[j] == d && info.initializer == 0 && v in WrittenWholeBy(body.pointers, OpAt(body, run, j, l))
  {
    hide WrittenWholeBy, WrittenPartBy, Writes, KeepsConstant, Body.WellFormed, NearestAccessDominator, SingleStore;
    hide HiddenWrite;
    RunBlockKnown(body, run, j);
    VariableNotZero(body, v);
    WriteCases(body, hidden, OpAt(body, run, j, l), v);
    assert OpAt(body, run, j, l) in body.Ops(run[j]);
  }

  /** The constant is stored in the dominating block only. */
  lemma StoredOnlyIn(g: Graph, body: Body, info: VariableInfo, constants: set<Id>, v: Id, c: Id, d: Id,
                     run: seq<Id>, x: nat, y: nat)
    requires body.WellFormed() && v in body.pointers.vars && IsLut(g, body, info, constants, v, c, d)
    requires info.initializer == 0 && IsRun(body, run) && At(body, run, x, y) && OpAt(body, run, x, y) == Store(v, c)
    ensures run[x] == d
  {
    VariableNotZero(body, v);
    assert v in WrittenWholeBy(body.pointers, Store(v, c));
    hide WrittenWholeBy, Body.WellFormed, NearestAccessDominator, SingleStore;
    RunBlockKnown(body, run, x);
    assert OpAt(body, run, x, y) in body.Ops(run[x]);
  }

  lemma {:induction false} FirstIndex(run: seq<Id>, d: Id, i: nat) returns (m: nat)
    requires i < |run| && run[i] == d
    ensures m <= i && run[m] == d && forall x :: 0 <= x < m ==> run[x] != d
  {
    if x: nat :| x < i && run[x] == d {
      m := FirstIndex(run, d, x);
    } else {
      m := i;
    }
  }

  lemma PrefixRuns(body: Body, run: seq<Id>, m: nat)
    requires IsRun(body, run) && m < |run|
    ensures IsRun(body, run[..m + 1])
  {
    Split(RealEdges(body.func), run, run[0], run[|run| - 1], m);
  }

  /** The dominating block does not load the variable before it stores the constant. */
  lemma NoLoadBeforeStore(g: Graph, idom: map<Id, Id>, body: Body, info: VariableInfo, constants: set<Id>,
                          v: Id, c: Id, d: Id, run: seq<Id>, i: nat, k: nat, s: nat)
    requires Traversed(g) && IdomTree(g, idom, 1) && Reducible(g)
    requires body.WellFormed() && g.func == body.func && v in body.pointers.vars && ChainsTracked(body, v)
    requires IsLut(g, body, info, constants, v, c, d) && info.initializer == 0
    requires IsRun(body, run) && i < |run| && run[i] == d && k < s < |body.Ops(d)|
    requires forall x :: 0 <= x < s ==> !Uses(body.Ops(d)[x], v)
    ensures !LoadsThrough(body, body.Ops(d)[k], v)
  {
    hide Traversed, IdomTree, Reducible, Body.WellFormed, NearestAccessDominator, SingleStore, WrittenOnlyIn;
    hide NoPartialWrites, ChainedFrom, IsPath;
    if LoadsThrough(body, body.Ops(d)[k], v) {
      var m := FirstIndex(run, d, i);
      PrefixRuns(body, run, m);
      var start := run[..m + 1];
      assert At(body, start, m, k) && LoadsVariable(body, start, v, m, k);
      assert !Uses(body.Ops(d)[k], v);
      var x, y := ChainRoot(body, start, v, OpAt(body, start, m, k).ptr, m, k);
      var z := DominatorVisited(g, idom, body, v, d, start, x, y);
      assert false;
    }
  }

  /** A visible write that spoils a load does so at the places that `SpoilsFrom` names. */
  lemma VisibleSpoils(g: Graph, idom: map<Id, Id>, body: Body, hidden: Aliases, info: VariableInfo, constants: set<Id>,
                      v: Id, c: Id, d: Id, run: seq<Id>, j: nat, l: nat, i: nat, k: nat)
    requires Traversed(g) && IdomTree(g, idom, 1) && Reducible(g)
    requires body.WellFormed() && g.func == body.func && v in body.pointers.vars && ChainsTracked(body, v)
    requires IsLut(g, body, info, constants, v, c, d)
    requires Spoils(body, hidden, v, c, run, j, l, i, k) && !HiddenWrite(body, hidden, OpAt(body, run, j, l), v)
    ensures PlaceSpoils(body, v, c, d)
  {
    hide Traversed, IdomTree, Reducible, Body.WellFormed, IsLut, HiddenWrite, WrittenWholeBy, LoadsVariable, IsRun;
    OtherWriteCases(g, body, hidden, info, constants, v, c, d, run, j, l);
    RunBlockKnown(body, run, j);
    hide ReallyReached;
    LoadIsAt(body, run, v, i, k);
    assert LoadsThrough(body, OpAt(body, run, i, k), v);
    var ops := body.Ops(d);
    if i == j {
      forall y | l + 1 <= y < k ensures ops[y] != Store(v, c) { assert At(body, run, j, y); }
      assert SpoilsFrom(body, v, c, d, l);
    } else {
      forall y | l + 1 <= y < |ops| ensures ops[y] != Store(v, c) { assert At(body, run, j, y); }
      if run[i] == d {
        LoadComesAfterStore(g, idom, body, hidden, info, constants, v, c, d, run, j, l, i, k);
        assert false;
      }
      SuffixReaches(body, run, j, i);
      assert LoadsBeyond(body, v, d, run[i]) by { assert OpAt(body, run, i, k) in body.Ops(run[i]); }
      assert SpoilsFrom(body, v, c, d, l);
    }
  }

  lemma SuffixReaches(body: Body, run: seq<Id>, j: nat, i: nat)
    requires IsRun(body, run) && j <= i < |run|
    ensures Paths.Reaches(RealEdges(body.func), run[j], run[i])
  {
    hide Step;
    var e := RealEdges(body.func);
    Split(e, run, run[0], run[|run| - 1], i);
    Split(e, run[..i + 1], run[0], run[i], j);
    assert Connects(e, run[..i + 1][j..], run[j], run[i]);
  }

  /** When the run comes back to the dominating block, the constant is stored again before any load. */
  lemma LoadComesAfterStore(g: Graph, idom: map<Id, Id>, body: Body, hidden: Aliases, info: VariableInfo,
                            constants: set<Id>, v: Id, c: Id, d: Id, run: seq<Id>, j: nat, l: nat, i: nat, k: nat)
    requires Traversed(g) && IdomTree(g, idom, 1) && Reducible(g)
    requires body.WellFormed() && g.func == body.func && v in body.pointers.vars && ChainsTracked(body, v)
    requires IsLut(g, body, info, constants, v, c, d) && info.initializer == 0
    requires Spoils(body, hidden, v, c, run, j, l, i, k) && j < i
    ensures run[i] != d
  {
    hide Traversed, IdomTree, Reducible, Body.WellFormed, NearestAccessDominator, WrittenOnlyIn;
    hide NoStoreBeforeChain;
    hide NoPartialWrites, LoadsVariable, IsRun, OtherWrite;
    LoadIsAt(body, run, v, i, k);
    if run[i] == d {
      var s: nat :| SingleStore(body.Ops(d), v, c, s);
      assert At(body, run, i, s) && OpAt(body, run, i, s) == Store(v, c);
      assert k < s;
      NoLoadBeforeStore(g, idom, body, info, constants, v, c, d, run, i, k, s);
      assert false;
    }
  }

  /** And at each of these places a run can be found. */
  lemma PlaceSpoilsRun(g: Graph, body: Body, hidden: Aliases, info: VariableInfo, constants: set<Id>,
                       v: Id, c: Id, d: Id, l: nat)
    requires body.WellFormed() && v in body.pointers.vars && ChainsTracked(body, v)
    requires IsLut(g, body, info, constants, v, c, d) && ReallyReached(body, d) && SpoilsFrom(body, v, c, d, l)
    ensures LoadsSpoiled(body, hidden, v, c)
  {
    hide Body.WellFormed, IsLut, WrittenWholeBy;
    var ops, e := body.Ops(d), RealEdges(body.func);
    VariableNotZero(body, v);
    WholeWriteWrites(body, hidden, ops[l], v);
    var run :| Connects(e, run, body.func.entry, d);
    var j := |run| - 1;
    if k :| l < k < |ops| && LoadsThrough(body, ops[k], v) && NotStored(ops, v, c, l + 1, k) {
      SpoilsInBlock(body, hidden, v, c, run, l, k);
    } else {
      var b :| LoadsBeyond(body, v, d, b);
      SpoilsBeyond(g, body, hidden, info, constants, v, c, d, run, l, b);
    }
  }

  lemma SpoilsInBlock(body: Body, hidden: Aliases, v: Id, c: Id, run: seq<Id>, l: nat, k: nat)
    requires ChainsTracked(body, v) && IsRun(body, run)
    requires var ops := body.Ops(run[|run| - 1]);
             l < k < |ops| && OtherWrite(body, hidden, ops[l], v, c) && LoadsThrough(body, ops[k], v)
             && NotStored(ops, v, c, l + 1, k)
    ensures LoadsSpoiled(body, hidden, v, c)
  {
    hide OtherWrite, LoadsVariable, IsPath;
    var j := |run| - 1;
    assert At(body, run, j, k) && OpAt(body, run, j, k).Load?;
    assert Spoils(body, hidden, v, c, run, j, l, j, k);
  }

  lemma {:induction false} LastVisit(e: Edges, q: seq<Id>, d: Id, b: Id) returns (r: seq<Id>)
    requires Connects(e, q, d, b) && b != d
    ensures Connects(e, r, d, b) && |r| > 1 && d !in r[1..]
    decreases |q|
  {
    hide Step;
    assert |q| > 1;
    if i: nat :| 1 <= i < |q| && q[i] == d {
      Split(e, q, d, b, i);
      r := LastVisit(e, q[i..], d, b);
    } else {
      r := q;
    }
  }

  lemma SpoilsBeyond(g: Graph, body: Body, hidden: Aliases, info: VariableInfo, constants: set<Id>,
                     v: Id, c: Id, d: Id, run: seq<Id>, l: nat, b: Id)
    requires body.WellFormed() && v in body.pointers.vars && ChainsTracked(body, v)
    requires IsLut(g, body, info, constants, v, c, d) && LoadsBeyond(body, v, d, b)
    requires Connects(RealEdges(body.func), run, body.func.entry, d)
    requires l < |body.Ops(d)| && OtherWrite(body, hidden, body.Ops(d)[l], v, c)
    requires v in WrittenWholeBy(body.pointers, body.Ops(d)[l])
    requires NotStored(body.Ops(d), v, c, l + 1, |body.Ops(d)|)
    ensures LoadsSpoiled(body, hidden, v, c)
  {
    hide Body.WellFormed, IsLut, WrittenWholeBy, OtherWrite, Step, LoadsVariable;
    var e := RealEdges(body.func);
    var q :| Connects(e, q, d, b);
    var r := LastVisit(e, q, d, b);
    Join(e, run, r, body.func.entry, d, b);
    var all, j := run + r[1..], |run| - 1;
    var i := |all| - 1;
    var op :| op in body.Ops(b) && LoadsThrough(body, op, v);
    var k: nat :| k < |body.Ops(b)| && body.Ops(b)[k] == op;
    assert all[j] == d && all[i] == b && IsRun(body, all);
    assert At(body, all, i, k) && OpAt(body, all, i, k) == op && At(body, all, j, l);
    WrittenWithoutInitializer(g, body, info, constants, v, c, d, all, j, l);
    forall x: nat | j < x < |all| ensures all[x] != d { assert all[x] == r[1..][x - |run|]; }
    forall x: nat, y: nat | At(body, all, x, y) && Earlier(j, l, x, y) && Earlier(x, y, i, k)
      ensures OpAt(body, all, x, y) != Store(v, c)
    {
      if x > j && OpAt(body, all, x, y) == Store(v, c) {
        StoredOnlyIn(g, body, info, constants, v, c, d, all, x, y);
        assert false;
      }
    }
    assert Spoils(body, hidden, v, c, all, j, l, i, k);
  }

  lemma WrittenWithoutInitializer(g: Graph, body: Body, info: VariableInfo, constants: set<Id>, v: Id, c: Id, d: Id,
                                  run: seq<Id>, j: nat, l: nat)
    requires body.WellFormed() && IsLut(g, body, info, constants, v, c, d) && IsRun(body, run) && At(body, run, j, l)
    requires v in WrittenWholeBy(body.pointers, OpAt(body, run, j, l))
    ensures info.initializer == 0
  {
    hide WrittenWholeBy, Body.WellFormed, NearestAccessDominator, SingleStore, NoPartialWrites;
    RunBlockKnown(body, run, j);
    assert OpAt(body, run, j, l) in body.Ops(run[j]);
  }

  /** The same condition by places: promotion preserves meaning if and only if no write through an
      untraced pointer spoils a load, and no whole write in the dominating block is followed, there or
      in a block that it leads to, by a load before the constant is stored again. */
  lemma PromotionIsRightIff(g: Graph, idom: map<Id, Id>, body: Body, hidden: Aliases, info: VariableInfo,
                            constants: set<Id>, v: Id, c: Id, d: Id)
    requires Traversed(g) && IdomTree(g, idom, 1) && Reducible(g)
    requires body.WellFormed() && g.func == body.func && v in body.pointers.vars && ChainsTracked(body, v)
    requires IsLut(g, body, info, constants, v, c, d)
    ensures ConstantAtLoads(body, hidden, v, InitialCell(info), c) <==>
              !HiddenSpoils(body, hidden, v, c) && !PlaceSpoils(body, v, c, d)
  {
    hide Traversed, IdomTree, Reducible, Body.WellFormed, IsLut, ChainsTracked, ConstantAtLoads, Spoils, SpoilsFrom;
    hide HiddenWrite, ReallyReached, InitialCell;
    LutLoadsConstantIff(g, idom, body, hidden, info, constants, v, c, d);
    if LoadsSpoiled(body, hidden, v, c) && !HiddenSpoils(body, hidden, v, c) {
      var run, j: nat, l: nat, i: nat, k: nat :| Spoils(body, hidden, v, c, run, j, l, i, k);
      SpoilsAt(body, hidden, v, c, run, j, l, i, k);
      VisibleSpoils(g, idom, body, hidden, info, constants, v, c, d, run, j, l, i, k);
    }
    if PlaceSpoils(body, v, c, d) {
      var l: nat :| SpoilsFrom(body, v, c, d, l);
      PlaceSpoilsRun(g, body, hidden, info, constants, v, c, d, l);
    }
  }

  lemma SpoilsAt(body: Body, hidden: Aliases, v: Id, c: Id, run: seq<Id>, j: nat, l: nat, i: nat, k: nat)
    requires Spoils(body, hidden, v, c, run, j, l, i, k)
    ensures At(body, run, j, l)
  {
  }
}
