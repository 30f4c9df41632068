/** The backward walks over the recorded graph. */
module Walks {
  import opened Lists
  import opened Spirv
  import opened Graphs
  import opened Paths
  import opened Dominance
  import opened Structure
  import opened Soundness
  import opened Reducibility
  import opened Cfg
  import opened DominatorBuilders

  // ---------------------------------------------------------------- find_loop_dominator

  predicate IsLoopHeader(f: Function, h: Id) { h in f.blocks && f.blocks[h].merge.MergeLoop? }

  /** `h` declares `b` as the merge block of its loop. */
  predicate LoopMergesTo(f: Function, h: Id, b: Id) { IsLoopHeader(f, h) && f.blocks[h].mergeBlock == b }

  predicate SelectionMergesTo(f: Function, h: Id, b: Id) {
    h in f.blocks && f.blocks[h].merge.MergeSelection? && f.blocks[h].nextBlock == b
  }

  predicate Declares(f: Function, h: Id, b: Id) { LoopMergesTo(f, h, b) || SelectionMergesTo(f, h, b) }

  /** A block is the merge block of at most one header (SPIR-V Specification, section 2.11). */
  ghost predicate MergesUnique(f: Function) {
    forall h, k, b :: Declares(f, h, b) && Declares(f, k, b) ==> h == k
  }

  /** The step from `b` up to `a`: to a header that declares `b`, if one precedes it. */
  ghost predicate StepsUp(g: Graph, a: Id, b: Id) {
    && a in g.Pred(b)
    && ((exists x :: x in g.Pred(b) && Declares(g.func, x, b)) ==> Declares(g.func, a, b))
  }

  /** A walk, read downwards: it steps over whole loops, from the header to the merge block. */
  ghost predicate StepsOverLoops(g: Graph, p: seq<Id>) {
    && (forall i, j :: 0 <= i && j == i + 1 && j < |p| ==> StepsUp(g, p[i], p[j]))
    && (forall i, j :: 0 <= i && j == i + 1 && j < |p| && IsLoopHeader(g.func, p[i]) ==>
          LoopMergesTo(g.func, p[i], p[j]))
  }

  /** `h` is the first loop header met from `start` upwards that is not left through its merge. */
  ghost predicate EnclosingLoop(g: Graph, h: Id, p: seq<Id>, start: Id) {
    && IsLoopHeader(g.func, h) && |p| > 1 && Connects(g.succ, p, h, start)
    && StepsOverLoops(g, p[1..]) && StepsUp(g, h, p[1]) && !LoopMergesTo(g.func, h, p[1])
    && (MergesUnique(g.func) ==> g.func.blocks[h].mergeBlock !in p[1..])
  }

  /** Outside all loops: a walk from the entry that only steps over loops. */
  ghost predicate OutsideLoops(g: Graph, p: seq<Id>, start: Id) {
    Connects(g.succ, p, g.func.entry, start) && StepsOverLoops(g, p)
  }

  /** No header above the current block has its merge block further down the walk. */
  ghost predicate NotPastMerge(g: Graph, p: seq<Id>) {
    p != [] && p[0] in g.order &&
    forall h :: IsLoopHeader(g.func, h) && h in g.order && g.order[h] > g.order[p[0]] ==>
      g.func.blocks[h].mergeBlock !in p[1..]
  }

  /** Picks the predecessor to walk to, and tells whether it is a loop header left through its merge. */
  method ChoosePredecessor(f: Function, preds: seq<Id>, b: Id) returns (pred: Id, ignoreLoopHeader: bool)
    requires preds != [] && forall x :: x in preds ==> x in f.blocks
    ensures pred in preds
    ensures (exists x :: x in preds && Declares(f, x, b)) ==> Declares(f, pred, b)
    ensures Declares(f, pred, b) ==>
              exists i :: 0 <= i < |preds| && preds[i] == pred && forall j :: 0 <= j < i ==> !Declares(f, preds[j], b)
    ensures !Declares(f, pred, b) ==> pred == preds[0]
    ensures ignoreLoopHeader <==> LoopMergesTo(f, pred, b)
    ensures forall i, h ::
              (&& 0 <= i < |preds| && h == f.blocks[preds[i]] && (forall j :: 0 <= j < i ==> !Declares(f, preds[j], b))
               && ((h.merge.MergeLoop? && h.mergeBlock == b) || (h.merge.MergeSelection? && h.nextBlock == b))) ==>
              pred == preds[i] && ignoreLoopHeader == h.merge.MergeLoop?
  {
    for i := 0 to |preds|
      invariant forall j :: 0 <= j < i ==> !Declares(f, preds[j], b)
    {
      var block := f.blocks[preds[i]];
      if block.merge.MergeLoop? && block.mergeBlock == b {
        return preds[i], true;
      } else if block.merge.MergeSelection? && block.nextBlock == b {
        return preds[i], false;
      }
    }
    return preds[0], false;
  }

  lemma MergeHeaderPrecedes(g: Graph, h: Id, b: Id)
    requires Traversed(g) && h in g.order && b in g.order && LoopMergesTo(g.func, h, b) && g.order[b] < g.order[h]
    ensures h in g.Pred(b) && Declares(g.func, h, b)
  {
    assert g.func.blocks[h].LoopMerge()[0] == b;
    BranchDroppedIff(g, h, b);
    assert h in g.Pred(b) <==> b in g.Succ(h);
  }

  lemma WalkUp(g: Graph, p: seq<Id>, a: Id, start: Id)
    requires Traversed(g) && Descending(g) && p != [] && Connects(g.succ, p, p[0], start)
    requires a in g.Pred(p[0])
    ensures Connects(g.succ, [a] + p, a, start)
    ensures a in g.order && p[0] in g.order && g.order[a] > g.order[p[0]]
  {
    hide Traversed;
    PredecessorIsHigher(g, a, p[0]);
    Single(g.succ, a);
    Append(g.succ, [a], a, a, p[0]);
    Join(g.succ, [a, p[0]], p, a, p[0], start);
    assert [a, p[0]] + p[1..] == [a] + p;
  }

  /** Header `h` sits above the step from `a` to `p[0]`, or is `a` itself and not left by its merge. */
  lemma MergeNotHere(g: Graph, p: seq<Id>, a: Id, h: Id)
    requires Traversed(g) && MergesUnique(g.func) && p != [] && NotPastMerge(g, p)
    requires StepsUp(g, a, p[0]) && a in g.order && g.order[a] > g.order[p[0]]
    requires IsLoopHeader(g.func, h) && h in g.order && g.order[h] >= g.order[a]
    requires h == a ==> !LoopMergesTo(g.func, h, p[0])
    requires h != a ==> g.order[h] > g.order[a]
    ensures g.func.blocks[h].mergeBlock !in p
  {
    hide Traversed;
    var m := g.func.blocks[h].mergeBlock;
    assert p == [p[0]] + p[1..];
    if m == p[0] {
      MergeHeaderPrecedes(g, h, m);
      assert false;
    }
  }

  lemma WalkedOne(g: Graph, p: seq<Id>, a: Id)
    requires Traversed(g) && p != [] && StepsOverLoops(g, p) && StepsUp(g, a, p[0])
    requires a in g.order && p[0] in g.order && g.order[a] > g.order[p[0]]
    requires !IsLoopHeader(g.func, a) || LoopMergesTo(g.func, a, p[0])
    ensures StepsOverLoops(g, [a] + p)
    ensures MergesUnique(g.func) && NotPastMerge(g, p) ==> NotPastMerge(g, [a] + p)
  {
    hide Traversed;
    var q := [a] + p;
    assert q[1..] == p;
    forall i, j | 0 <= i && j == i + 1 && j < |q|
      ensures StepsUp(g, q[i], q[j]) && (IsLoopHeader(g.func, q[i]) ==> LoopMergesTo(g.func, q[i], q[j]))
    {
      if i > 0 {
        assert q[i] == p[i - 1] && q[j] == p[j - 1];
      }
    }
    if MergesUnique(g.func) && NotPastMerge(g, p) {
      forall h | IsLoopHeader(g.func, h) && h in g.order && g.order[h] > g.order[a]
        ensures g.func.blocks[h].mergeBlock !in q[1..]
      {
        MergeNotHere(g, p, a, h);
      }
    }
  }

  lemma LoopFound(g: Graph, p: seq<Id>, h: Id, start: Id)
    requires Traversed(g) && p != [] && StepsOverLoops(g, p) && StepsUp(g, h, p[0])
    requires Connects(g.succ, [h] + p, h, start)
    requires h in g.order && p[0] in g.order && g.order[h] > g.order[p[0]]
    requires IsLoopHeader(g.func, h) && !LoopMergesTo(g.func, h, p[0])
    requires MergesUnique(g.func) ==> NotPastMerge(g, p)
    ensures EnclosingLoop(g, h, [h] + p, start)
  {
    assert ([h] + p)[1..] == p;
    if MergesUnique(g.func) {
      MergeNotHere(g, p, h, h);
    }
  }

  /** The walk has come from `start` up to `block` along `p`. */
  ghost predicate Walked(g: Graph, p: seq<Id>, block: Id, start: Id) {
    && p != [] && p[0] == block && block in g.order
    && Connects(g.succ, p, block, start) && StepsOverLoops(g, p)
    && (MergesUnique(g.func) ==> NotPastMerge(g, p))
  }

  lemma WalkStarts(g: Graph, start: Id)
    requires start in g.order
    ensures Walked(g, [start], start, start)
  {
  }

  lemma WalkAtTop(g: Graph, p: seq<Id>, block: Id, start: Id)
    requires Descending(g) && Walked(g, p, block, start) && g.Pred(block) == []
    ensures OutsideLoops(g, p, start)
  {
  }

  lemma WalkContinues(g: Graph, p: seq<Id>, a: Id, block: Id, start: Id)
    requires Traversed(g) && Descending(g) && Walked(g, p, block, start) && StepsUp(g, a, block)
    ensures a in g.order && g.order[a] > g.order[block]
    ensures !IsLoopHeader(g.func, a) || LoopMergesTo(g.func, a, block) ==> Walked(g, [a] + p, a, start)
    ensures IsLoopHeader(g.func, a) && !LoopMergesTo(g.func, a, block) ==> EnclosingLoop(g, a, [a] + p, start)
  {
    hide Traversed;
    WalkUp(g, p, a, start);
    if !IsLoopHeader(g.func, a) || LoopMergesTo(g.func, a, block) {
      WalkedOne(g, p, a);
    } else {
      LoopFound(g, p, a, start);
    }
  }

  lemma PredecessorsKnown(g: Graph, b: Id)
    requires Traversed(g) && Descending(g)
    ensures forall x :: x in g.Pred(b) ==> x in g.func.blocks && x != 0 && x in g.order
    ensures b !in g.order ==> g.Pred(b) == []
    ensures b in g.order ==> b != NO_DOMINATOR && g.order[b] <= g.order[g.func.entry]
  {
    hide Traversed;
    PostOrderCovers(g);
    OrderWithinBlocks(g);
    assert g.func.WellFormed() by { FunctionWellFormed(g); }
    FirstIsMember(g.Pred(b));
    forall x | x in g.Pred(b) ensures x in g.func.blocks && x != 0 && x in g.order && b in g.order {
      PredecessorIsHigher(g, x, b);
    }
  }

  /** The first loop header above `start` that is not left through its merge block, or NO_DOMINATOR if
      the walk gets to the top. The walk that it took is the witness. */
  method FindLoopDominator(cfg: CFG, start: Id) returns (h: Id, ghost p: seq<Id>)
    requires cfg.Valid()
    ensures start !in cfg.visitOrder ==> h == NO_DOMINATOR
    ensures start in cfg.visitOrder ==>
              if h == NO_DOMINATOR then OutsideLoops(cfg.State(), p, start)
              else h in cfg.visitOrder && EnclosingLoop(cfg.State(), h, p, start)
  {
    hide Traversed, Descending, IdomTree, Walked, EnclosingLoop, OutsideLoops;
    ghost var g := cfg.State();
    var block := start;
    p := [start];
    Ranks(g);
    PredecessorsKnown(g, start);
    if start in cfg.visitOrder {
      WalkStarts(g, start);
    }
    while block != NO_DOMINATOR
      invariant if start in cfg.visitOrder then Walked(g, p, block, start) && block in cfg.visitOrder
                else block == start
      decreases (if block in cfg.visitOrder then cfg.visitOrder[cfg.func.entry] - cfg.visitOrder[block] else 0)
    {
      PredecessorsKnown(g, block);
      if block in cfg.visitOrder && g.Pred(block) == [] {
        WalkAtTop(g, p, block, start);
      }
      if block !in cfg.precedingEdges {
        return NO_DOMINATOR, p;
      }
      var preds := cfg.precedingEdges[block];
      if |preds| == 0 {
        return NO_DOMINATOR, p;
      }
      var pred, ignoreLoopHeader := ChoosePredecessor(cfg.func, preds, block);
      PredecessorsKnown(g, pred);
      WalkContinues(g, p, pred, block, start);
      if !ignoreLoopHeader && pred != 0 {
        if cfg.func.blocks[pred].merge.MergeLoop? {
          return pred, [pred] + p;
        }
      }
      block, p := pred, [pred] + p;
    }
    PredecessorsKnown(g, block);
    return block, p;
  }

  /** A loop construct holds the blocks dominated by the header but not by the merge block: the
      start of the walk is not beyond the merge block. */
  lemma NotBeyondMerge(g: Graph, h: Id, p: seq<Id>, start: Id)
    requires Traversed(g) && MergesUnique(g.func) && h in g.order && EnclosingLoop(g, h, p, start)
    requires g.func.blocks[h].mergeBlock in g.Succ(h)
    ensures !Dom(g, g.func.blocks[h].mergeBlock, start)
  {
    hide Traversed, StepsOverLoops, StepsUp;
    TraversedDescends(g);
    var m := g.func.blocks[h].mergeBlock;
    assert Step(g.succ, h, m);
    var q := VisitedIsReached(g, h);
    PathDescends(g, q, g.func.entry, h);
    Join(g.succ, q, p, g.func.entry, h, start);
    assert m !in q + p[1..];
  }

  /** `x` belongs to the loop of header `h`: the header dominates it, the merge block does not
      (SPIR-V Specification, section 2.11). */
  ghost predicate InLoop(f: Function, h: Id, x: Id) {
    h in f.blocks && TargetDominates(f, h, x) && !TargetDominates(f, f.blocks[h].mergeBlock, x)
  }

  /** Structured loops: a header belongs to its loop, and control leaves the loop for its merge block
      only. */
  ghost predicate LoopsExitByMerge(f: Function) {
    forall h :: IsLoopHeader(f, h) ==>
      && (Reaches(TargetEdges(f), f.entry, h) ==> InLoop(f, h, h))
      && forall a, b :: InLoop(f, h, a) && Step(TargetEdges(f), a, b) ==> InLoop(f, h, b) || b == f.blocks[h].mergeBlock
  }

  lemma {:induction false} StaysInLoop(f: Function, h: Id, p: seq<Id>, i: nat)
    requires LoopsExitByMerge(f) && IsLoopHeader(f, h) && Reaches(TargetEdges(f), f.entry, h)
    requires IsPath(TargetEdges(f), p) && p[0] == h && f.blocks[h].mergeBlock !in p[1..] && i < |p|
    ensures InLoop(f, h, p[i])
  {
    hide InLoop, Step, TargetEdges, Reaches;
    if i > 0 {
      StaysInLoop(f, h, p, i - 1);
      assert Step(TargetEdges(f), p[i - 1], p[i]);
      assert p[i] in p[1..];
    }
  }

  /** In structured control flow the header found dominates the block that the walk started from. */
  lemma LoopHeaderDominates(g: Graph, h: Id, p: seq<Id>, start: Id)
    requires Traversed(g) && MergesUnique(g.func) && LoopsExitByMerge(g.func)
    requires h in g.order && EnclosingLoop(g, h, p, start)
    ensures InLoop(g.func, h, start) && Dom(g, h, start)
  {
    hide Traversed, MergesUnique, LoopsExitByMerge, StepsOverLoops, StepsUp, TargetEdges, Step;
    VisitsExactlyReachable(g, h);
    RecordedIsTarget(g);
    Monotone(g.succ, TargetEdges(g.func), p, h, start);
    StaysInLoop(g.func, h, p, |p| - 1);
    TargetDominatorRecorded(g, h, start);
  }

  /** Structured loops are entered by their headers only. */
  ghost predicate LoopsEnteredByHeader(f: Function) {
    forall h, a, b :: IsLoopHeader(f, h) && InLoop(f, h, b) && b != h && Step(TargetEdges(f), a, b) ==> InLoop(f, h, a)
  }

  lemma MergeIsOutside(f: Function, h: Id)
    requires h in f.blocks
    ensures !InLoop(f, h, f.blocks[h].mergeBlock)
  {
    Reflexive(TargetEdges(f), f.entry, f.blocks[h].mergeBlock);
  }

  /** Read upwards, a walk that only steps over loops does not leave a loop that it started in, nor does
      it pass the header. */
  lemma {:induction false} WalkStaysInside(f: Function, p: seq<Id>, h2: Id, i: nat)
    requires LoopsEnteredByHeader(f) && IsLoopHeader(f, h2) && IsPath(TargetEdges(f), p)
    requires InLoop(f, h2, p[|p| - 1]) && h2 != p[|p| - 1] && i < |p|
    requires forall j, k :: 0 < j && k == j + 1 && k < |p| && IsLoopHeader(f, p[j]) ==> LoopMergesTo(f, p[j], p[k])
    ensures InLoop(f, h2, p[i]) && (i > 0 ==> p[i] != h2)
    decreases |p| - i
  {
    hide InLoop, Step, TargetEdges;
    if i < |p| - 1 {
      WalkStaysInside(f, p, h2, i + 1);
      assert Step(TargetEdges(f), p[i], p[i + 1]);
      MergeIsOutside(f, h2);
    }
  }

  lemma WalkIsPath(g: Graph, p: seq<Id>, a: Id, b: Id)
    requires Traversed(g) && Connects(g.succ, p, a, b)
    ensures Connects(TargetEdges(g.func), p, a, b)
  {
    hide Traversed, TargetEdges, Step;
    RecordedIsTarget(g);
    Monotone(g.succ, TargetEdges(g.func), p, a, b);
  }

  /** The header found is the innermost one: every other loop that the start is in holds it too. */
  lemma HeaderIsInnermost(g: Graph, h: Id, p: seq<Id>, start: Id, h2: Id)
    requires Traversed(g) && LoopsEnteredByHeader(g.func) && EnclosingLoop(g, h, p, start)
    requires IsLoopHeader(g.func, h2) && h2 != start && InLoop(g.func, h2, start)
    ensures InLoop(g.func, h2, h) && TargetDominates(g.func, h2, h)
  {
    hide Traversed, TargetEdges, Step, StepsUp, LoopsEnteredByHeader, TargetDominates;
    WalkIsPath(g, p, h, start);
    forall j, k | 0 < j && k == j + 1 && k < |p| && IsLoopHeader(g.func, p[j])
      ensures LoopMergesTo(g.func, p[j], p[k])
    {
      assert p[1..][j - 1] == p[j] && p[1..][k - 1] == p[k];
    }
    WalkStaysInside(g.func, p, h2, 0);
  }

  /** And where no header is found the start is in no loop, other than its own. */
  lemma OutsideIsInNoLoop(g: Graph, p: seq<Id>, start: Id, h2: Id)
    requires Traversed(g) && LoopsEnteredByHeader(g.func) && OutsideLoops(g, p, start)
    requires IsLoopHeader(g.func, h2) && h2 != start
    ensures !InLoop(g.func, h2, start)
  {
    hide Traversed, TargetEdges, Step, StepsUp, LoopsEnteredByHeader, TargetDominates;
    var f := g.func;
    WalkIsPath(g, p, f.entry, start);
    if InLoop(f, h2, start) {
      WalkStaysInside(f, p, h2, 0);
      OnlyEntryAbove(f, h2);
      if |p| > 1 {
        WalkStaysInside(f, p, h2, 1);
        MergeIsOutside(f, h2);
      }
      assert false;
    }
  }

  lemma OnlyEntryAbove(f: Function, d: Id)
    ensures TargetDominates(f, d, f.entry) ==> d == f.entry
  {
    Single(TargetEdges(f), f.entry);
    assert TargetDominates(f, d, f.entry) ==> d in [f.entry];
  }

  // ---------------------------------------------------------------- straight lines of blocks

  /** Blocks that only branch on, with no merge declared. */
  ghost function PlainEdges(f: Function): Edges {
    map b | b in f.blocks && f.blocks[b].terminator.Direct? && f.blocks[b].merge.MergeNone? ::
      [f.blocks[b].nextBlock]
  }

  /** No cycle consists of such blocks alone. */
  ghost predicate NoPlainCycle(f: Function) {
    forall c :: !IsCycle(PlainEdges(f), c)
  }

  /** Every cycle of branches and declared merges contains a loop header (SPIR-V Specification,
      section 2.11). */
  ghost predicate CyclesHaveHeaders(f: Function) {
    forall c :: IsCycle(TargetEdges(f), c) ==> exists h :: h in c && IsLoopHeader(f, h)
  }

  lemma PlainStep(f: Function, a: Id, b: Id)
    requires f.WellFormed() && Step(PlainEdges(f), a, b)
    ensures a in f.blocks && b in f.blocks && b == f.blocks[a].nextBlock && !IsLoopHeader(f, a)
    ensures Step(TargetEdges(f), a, b)
    ensures Step(RealEdges(f), a, b) && forall c :: Step(RealEdges(f), a, c) ==> c == b
  {
    assert f.blocks[a].BranchTargets() == [b];
    f.TargetsKnown(a);
    TargetStep(f, a, b);
  }

  /** Loop headers break up all plain cycles. */
  lemma HeadersBreakPlainCycles(f: Function)
    requires f.WellFormed() && CyclesHaveHeaders(f)
    ensures NoPlainCycle(f)
  {
    hide Function.WellFormed, TargetEdges, PlainEdges, Step;
    forall c ensures !IsCycle(PlainEdges(f), c) {
      if IsCycle(PlainEdges(f), c) {
        forall x, y | Step(PlainEdges(f), x, y) ensures Step(TargetEdges(f), x, y) { PlainStep(f, x, y); }
        assert IsCycle(TargetEdges(f), c);
        var h :| h in c && IsLoopHeader(f, h);
        var i :| 0 <= i < |c| && c[i] == h;
        PlainStep(f, h, if i + 1 < |c| then c[i + 1] else c[0]);
        assert false;
      }
    }
  }

  lemma PlainUnfold(f: Function, a: Id, b: Id)
    ensures Reaches(PlainEdges(f), a, b) <==>
              a == b || (a in PlainEdges(f) && Reaches(PlainEdges(f), f.blocks[a].nextBlock, b))
  {
    var e := PlainEdges(f);
    if Reaches(e, a, b) {
      var p :| Connects(e, p, a, b);
      if |p| > 1 {
        assert Step(e, p[0], p[1]);
        Split(e, p, a, b, 1);
      }
    }
    if a == b {
      Single(e, a);
    }
    if a in e && Reaches(e, f.blocks[a].nextBlock, b) {
      var p :| Connects(e, p, f.blocks[a].nextBlock, b);
      var n := f.blocks[a].nextBlock;
      assert Step(e, a, n);
      Single(e, a);
      Append(e, [a], a, a, n);
      Join(e, [a, n], p, a, n, b);
    }
  }

  lemma PlainPathIsSimple(f: Function, p: seq<Id>, n: Id)
    requires NoPlainCycle(f) && IsPath(PlainEdges(f), p) && Step(PlainEdges(f), p[|p| - 1], n)
    ensures n !in p
  {
    hide PlainEdges, Step, IsPath;
    if n in p {
      var i :| 0 <= i < |p| && p[i] == n;
      CycleClosed(PlainEdges(f), p, i);
      assert false;
    }
  }

  /** The blocks that the walk from `from` has passed. */
  ghost predicate PlainWalk(f: Function, p: seq<Id>, from: Id, at: Id) {
    Connects(PlainEdges(f), p, from, at) && Elements(p) <= f.blocks.Keys
  }

  lemma PlainWalkGrows(f: Function, p: seq<Id>, from: Id, at: Id)
    requires f.WellFormed() && NoPlainCycle(f) && PlainWalk(f, p, from, at) && at in PlainEdges(f)
    ensures var n := f.blocks[at].nextBlock;
            PlainWalk(f, p + [n], from, n) && Elements(p) < Elements(p + [n])
  {
    hide Function.WellFormed;
    var n := f.blocks[at].nextBlock;
    assert Step(PlainEdges(f), at, n);
    PlainStep(f, at, n);
    PlainPathIsSimple(f, p, n);
    Append(PlainEdges(f), p, from, at, n);
    assert Elements(p + [n]) == Elements(p) + {n};
  }

  lemma PlainWalkEnd(f: Function, p: seq<Id>, from: Id, at: Id)
    requires PlainWalk(f, p, from, at)
    ensures at in f.blocks
  {
    assert at in p;
  }

  /** The walk from `from` meets `to` or a block where it stops. */
  ghost predicate WalkEnds(f: Function, from: Id, to: Id) {
    exists p, x :: Connects(PlainEdges(f), p, from, x) && (x == to || x !in PlainEdges(f))
  }

  lemma WalkEndsFrom(f: Function, p: seq<Id>, from: Id, at: Id, to: Id)
    requires f.WellFormed() && NoPlainCycle(f) && PlainWalk(f, p, from, at)
    ensures WalkEnds(f, from, to)
    decreases f.blocks.Keys - Elements(p)
  {
    hide Function.WellFormed, NoPlainCycle, PlainEdges, Elements, Connects;
    PlainWalkEnd(f, p, from, at);
    if at in PlainEdges(f) {
      PlainWalkGrows(f, p, from, at);
      WalkEndsFrom(f, p + [f.blocks[at].nextBlock], from, f.blocks[at].nextBlock, to);
    }
  }

  lemma {:induction false} CaughtInCycle(f: Function, c: seq<Id>, p: seq<Id>, x: Id)
    requires IsCycle(PlainEdges(f), c) && Connects(PlainEdges(f), p, c[0], x)
    ensures x in c && x in PlainEdges(f)
    decreases |p|
  {
    var n := |p| - 1;
    if n > 0 {
      Split(PlainEdges(f), p, c[0], x, n - 1);
      CaughtInCycle(f, c, p[..n], p[n - 1]);
      assert Step(PlainEdges(f), p[n - 1], p[n]);
      var i :| 0 <= i < |c| && c[i] == p[n - 1];
      assert Step(PlainEdges(f), c[i], if i + 1 < |c| then c[i + 1] else c[0]);
    }
    var i :| 0 <= i < |c| && c[i] == x;
    assert Step(PlainEdges(f), c[i], if i + 1 < |c| then c[i + 1] else c[0]);
  }

  /** The walk always ends if and only if there is no plain cycle. */
  lemma BranchlessEndsIff(f: Function)
    requires f.WellFormed()
    ensures NoPlainCycle(f) <==> forall from, to :: from in f.blocks ==> WalkEnds(f, from, to)
  {
    hide Function.WellFormed, PlainEdges;
    if NoPlainCycle(f) {
      forall from, to | from in f.blocks ensures WalkEnds(f, from, to) {
        Single(PlainEdges(f), from);
        WalkEndsFrom(f, [from], from, from, to);
      }
    }
    if c :| IsCycle(PlainEdges(f), c) {
      PlainStep(f, c[0], if |c| > 1 then c[1] else c[0]);
      ZeroIsNoBlock(f);
      forall p, x | Connects(PlainEdges(f), p, c[0], x) ensures x != 0 && x in PlainEdges(f) {
        CaughtInCycle(f, c, p, x);
      }
      assert !WalkEnds(f, c[0], 0);
    }
  }

  /** Block `a` declares no merge and branches unconditionally to `b`. */
  predicate BranchesOnlyTo(f: Function, a: Id, b: Id) {
    a in f.blocks && f.blocks[a].terminator.Direct? && f.blocks[a].merge.MergeNone? && f.blocks[a].nextBlock == b
  }

  /** A straight line of such blocks. */
  ghost predicate IsLine(f: Function, p: seq<Id>, from: Id, to: Id) {
    && p != [] && p[0] == from && p[|p| - 1] == to
    && forall i, j :: 0 <= i && j == i + 1 && j < |p| ==> BranchesOnlyTo(f, p[i], p[j])
  }

  lemma PlainStepIff(f: Function, a: Id, b: Id)
    ensures Step(PlainEdges(f), a, b) <==> BranchesOnlyTo(f, a, b)
  {
  }

  lemma LineIsPath(f: Function, p: seq<Id>, from: Id, to: Id)
    ensures Connects(PlainEdges(f), p, from, to) <==> IsLine(f, p, from, to)
  {
    hide PlainEdges, Step, BranchesOnlyTo;
    forall i, j | 0 <= i && j == i + 1 && j < |p|
      ensures Step(PlainEdges(f), p[i], p[j]) <==> BranchesOnlyTo(f, p[i], p[j])
    {
      PlainStepIff(f, p[i], p[j]);
    }
  }

  lemma LineIff(f: Function, from: Id, to: Id)
    ensures Reaches(PlainEdges(f), from, to) <==> exists p: seq<Id> :: IsLine(f, p, from, to)
  {
    hide IsLine, Connects;
    forall p: seq<Id> ensures Connects(PlainEdges(f), p, from, to) <==> IsLine(f, p, from, to) {
      LineIsPath(f, p, from, to);
    }
  }

  /** Is `to` on the straight line of unconditional branches that starts at `from`? */
  method ExecutionIsBranchless(f: Function, from: Id, to: Id) returns (r: bool)
    requires f.WellFormed() && from in f.blocks && WalkEnds(f, from, to)
    ensures r <==> Reaches(PlainEdges(f), from, to)
    ensures r <==> exists p: seq<Id> :: IsLine(f, p, from, to)
  {
    LineIff(f, from, to);
    hide Reaches, Function.WellFormed, IsLine;
    var start := from;
    ghost var p, x :| Connects(PlainEdges(f), p, from, x) && (x == to || x !in PlainEdges(f));
    ghost var n := 0;
    while true
      invariant start in f.blocks && 0 <= n < |p| && p[n] == start
      invariant Reaches(PlainEdges(f), start, to) <==> Reaches(PlainEdges(f), from, to)
      decreases |p| - n
    {
      PlainUnfold(f, start, to);
      if start == to {
        return true;
      }
      var block := f.blocks[start];
      if block.terminator.Direct? && block.merge.MergeNone? {
        assert n + 1 < |p|;
        assert Step(PlainEdges(f), p[n], p[n + 1]);
        PlainStep(f, start, p[n + 1]);
        start, n := block.nextBlock, n + 1;
      } else {
        return false;
      }
    }
  }

  lemma ZeroIsNoBlock(f: Function)
    requires f.WellFormed()
    ensures 0 !in PlainEdges(f)
  {
  }

  // ---------------------------------------------------------------- node_terminates_control_flow_in_sub_graph

  /** The step from `to` up to its immediate dominator `d` leaves no control flow open: `d` declares
      `to`, branches to it plainly, or its other branch only leaves the loop with merge `ignore`. */
  ghost predicate Closes(f: Function, ignore: Id, d: Id, to: Id)
    requires d in f.blocks
  {
    var block := f.blocks[d];
    || Declares(f, d, to)
    || (block.terminator.Direct? && block.nextBlock == to)
    || (block.terminator.Select? && ignore != 0
        && ((block.trueBlock == to && Reaches(PlainEdges(f), block.falseBlock, ignore))
            || (block.falseBlock == to && Reaches(PlainEdges(f), block.trueBlock, ignore))))
  }

  lemma {:induction false} PlainRunArrives(f: Function, q: seq<Id>, run: seq<Id>, a: Id, to: Id, exit: Id)
    requires f.WellFormed() && Connects(PlainEdges(f), q, a, to) && Connects(RealEdges(f), run, a, exit)
    requires exit in f.blocks && f.blocks[exit].BranchTargets() == []
    ensures to in run
    decreases |q|
  {
    hide Function.WellFormed, Block.BranchTargets, PlainEdges, RealEdges;
    if |q| > 1 {
      assert Step(PlainEdges(f), q[0], q[1]);
      PlainStep(f, a, q[1]);
      OnwardStep(f, run, a, q[1], exit);
      Split(PlainEdges(f), q, a, to, 1);
      Split(RealEdges(f), run, a, exit, 1);
      PlainRunArrives(f, q[1..], run[1..], q[1], to, exit);
      assert run == [run[0]] + run[1..];
    }
  }

  /** A run that ends where control ends takes a step from every block that branches. */
  lemma OnwardStep(f: Function, run: seq<Id>, a: Id, b: Id, exit: Id)
    requires Connects(RealEdges(f), run, a, exit) && Step(RealEdges(f), a, b)
    requires exit in f.blocks && f.blocks[exit].BranchTargets() == []
    ensures |run| > 1 && Step(RealEdges(f), a, run[1])
  {
    hide Block.BranchTargets;
    if |run| > 1 { assert Step(RealEdges(f), run[0], run[1]); }
  }

  /** What a closed step means for control flow: unless `d` merely declares `to`, every run from `d` to
      the end of the function passes `to`, or leaves the loop through its merge block. */
  lemma ClosedStepIsForced(f: Function, ignore: Id, d: Id, to: Id, run: seq<Id>, exit: Id)
    requires f.WellFormed() && d in f.blocks && Closes(f, ignore, d, to) && !Declares(f, d, to)
    requires Connects(RealEdges(f), run, d, exit) && exit in f.blocks && f.blocks[exit].BranchTargets() == []
    ensures to in run || (ignore != 0 && ignore in run)
  {
    hide Function.WellFormed, Block.BranchTargets, PlainEdges, RealEdges, Declares;
    var b := f.blocks[d];
    RealStepByField(f, d, if b.terminator.Direct? then b.nextBlock else b.trueBlock);
    OnwardStep(f, run, d, if b.terminator.Direct? then b.nextBlock else b.trueBlock, exit);
    RealStepByField(f, d, run[1]);
    if run[1] != to {
      Split(RealEdges(f), run, d, exit, 1);
      var q :| Connects(PlainEdges(f), q, run[1], ignore);
      PlainRunArrives(f, q, run[1..], run[1], ignore, exit);
      assert run == [run[0]] + run[1..];
    }
  }

  /** The branchless walks that the step at `d` makes come to an end. */
  ghost predicate StepEnds(f: Function, ignore: Id, d: Id) {
    ignore != 0 && d in f.blocks && f.blocks[d].terminator.Select? ==>
      WalkEnds(f, f.blocks[d].trueBlock, ignore) && WalkEnds(f, f.blocks[d].falseBlock, ignore)
  }

  /** So do those of every step that the walk from `to` up to `from` takes. */
  ghost predicate StepsEndUpTo(g: Graph, idom: map<Id, Id>, ignore: Id, from: Id, to: Id)
    requires Descending(g) && IdomTree(g, idom, 1) && g.order.Keys <= g.func.blocks.Keys
    decreases if to in g.order then g.order[g.func.entry] - g.order[to] else 0
  {
    to == from || to !in g.order || to == g.func.entry ||
    (TreeEntry(g, idom, 1, to);
     StepEnds(g.func, ignore, idom[to])
     && (Closes(g.func, ignore, idom[to], to) ==> StepsEndUpTo(g, idom, ignore, from, idom[to])))
  }

  /** Without plain cycles they all do. */
  lemma {:induction false} NoPlainCycleSuffices(g: Graph, idom: map<Id, Id>, ignore: Id, from: Id, to: Id)
    requires Descending(g) && IdomTree(g, idom, 1) && g.order.Keys <= g.func.blocks.Keys
    requires g.func.WellFormed() && NoPlainCycle(g.func)
    ensures StepsEndUpTo(g, idom, ignore, from, to)
    decreases if to in g.order then g.order[g.func.entry] - g.order[to] else 0
  {
    hide Descending, IdomTree, Function.WellFormed, NoPlainCycle, Closes, WalkEnds;
    if to != from && to in g.order && to != g.func.entry {
      Ranks(g);
      TreeEntry(g, idom, 1, to);
      BranchlessEndsIff(g.func);
      SelectTargetsKnown(g.func, idom[to]);
      NoPlainCycleSuffices(g, idom, ignore, from, idom[to]);
    }
  }

  /** Every step of the dominator tree from `to` up to `from` closes its control flow. */
  ghost predicate ClosesUpTo(g: Graph, idom: map<Id, Id>, ignore: Id, from: Id, to: Id)
    requires Descending(g) && IdomTree(g, idom, 1) && g.order.Keys <= g.func.blocks.Keys
    decreases if to in g.order then g.order[g.func.entry] - g.order[to] else 0
  {
    to == from ||
    (to in g.order && to != g.func.entry &&
     (TreeEntry(g, idom, 1, to);
      Closes(g.func, ignore, idom[to], to) && ClosesUpTo(g, idom, ignore, from, idom[to])))
  }

  lemma {:induction false} ClosedIsDominated(g: Graph, idom: map<Id, Id>, ignore: Id, from: Id, to: Id)
    requires Descending(g) && IdomTree(g, idom, 1) && g.order.Keys <= g.func.blocks.Keys
    requires ClosesUpTo(g, idom, ignore, from, to)
    ensures Dom(g, from, to)
    decreases if to in g.order then g.order[g.func.entry] - g.order[to] else 0
  {
    Reflexive(g.succ, g.func.entry, to);
    if to != from {
      TreeEntry(g, idom, 1, to);
      ClosedIsDominated(g, idom, ignore, from, idom[to]);
      Transitive(g.succ, g.func.entry, from, idom[to], to);
    }
  }

  /** Folding all predecessors of a reachable block gives its immediate dominator, or nothing for
      the entry block. */
  method FoldedDominator(cfg: CFG, to: Id) returns (dominator: Id)
    requires cfg.Valid() && to in cfg.precedingEdges
    ensures dominator == if to in cfg.visitOrder && to != cfg.func.entry then cfg.immediateDominators[to] else 0
  {
    hide Traversed, Descending, IdomTree, Nearest;
    ghost var g := cfg.State();
    var preds := cfg.precedingEdges[to];
    PredecessorsKnown(g, to);
    var builder := new DominatorBuilder(cfg);
    for i := 0 to |preds|
      invariant builder.Valid() && builder.cfg == cfg && fresh(builder) && cfg.Valid() && cfg.State() == g
      invariant builder.added == Elements(preds[..i])
    {
      assert Elements(preds[..i + 1]) == Elements(preds[..i]) + {preds[i]};
      builder.AddBlock(preds[i]);
    }
    assert preds[..|preds|] == preds;
    dominator := builder.dominator;
    if to in cfg.visitOrder && to != cfg.func.entry {
      FoldIsIdom(g, cfg.immediateDominators, to, dominator);
    } else {
      EntryHasNoPredecessor(g);
    }
  }

  lemma FoldIsIdom(g: Graph, idom: map<Id, Id>, b: Id, r: Id)
    requires Descending(g) && IdomTree(g, idom, 1) && b in g.order && b != g.func.entry
    requires Elements(g.Pred(b)) != {} ==> r in g.order && Nearest(g, r, Elements(g.Pred(b)))
    ensures b in idom && r == idom[b]
  {
    TreeEntry(g, idom, 1, b);
    FirstIsMember(g.Pred(b));
    assert g.Pred(b)[0] in Elements(g.Pred(b));
    PredecessorsFromIdom(g, idom[b], b);
    NearestUnique(g, r, idom[b], Elements(g.Pred(b)));
  }

  method StepCloses(cfg: CFG, ignoreBlock: Id, dominator: Id, to: Id) returns (closed: bool)
    requires cfg.Valid() && dominator in cfg.func.blocks && StepEnds(cfg.func, ignoreBlock, dominator)
    ensures closed <==> Closes(cfg.func, ignoreBlock, dominator, to)
    ensures var d := cfg.func.blocks[dominator];
            closed <==>
              || (d.merge.MergeSelection? && d.nextBlock == to) || (d.merge.MergeLoop? && d.mergeBlock == to)
              || (d.terminator.Direct? && d.nextBlock == to)
              || (d.terminator.Select? && d.trueBlock == to && ignoreBlock != 0
                  && Reaches(PlainEdges(cfg.func), d.falseBlock, ignoreBlock))
              || (d.terminator.Select? && d.falseBlock == to && ignoreBlock != 0
                  && Reaches(PlainEdges(cfg.func), d.trueBlock, ignoreBlock))
  {
    hide Traversed, Descending, IdomTree, WalkEnds, Reaches, Function.WellFormed, Function.LeadsTo;
    FunctionWellFormed(cfg.State());
    SelectTargetsKnown(cfg.func, dominator);
    var dom := cfg.func.blocks[dominator];
    var truePathIgnore, falsePathIgnore := false, false;
    if ignoreBlock != 0 && dom.terminator.Select? {
      truePathIgnore := ExecutionIsBranchless(cfg.func, dom.trueBlock, ignoreBlock);
      falsePathIgnore := ExecutionIsBranchless(cfg.func, dom.falseBlock, ignoreBlock);
    }
    closed :=
      (dom.merge.MergeSelection? && dom.nextBlock == to) ||
      (dom.merge.MergeLoop? && dom.mergeBlock == to) ||
      (dom.terminator.Direct? && dom.nextBlock == to) ||
      (dom.terminator.Select? && dom.trueBlock == to && falsePathIgnore) ||
      (dom.terminator.Select? && dom.falseBlock == to && truePathIgnore);
  }

  /** Walks from `to` up the dominator tree; a positive answer implies that `from` dominates `to`. */
  method NodeTerminatesControlFlowInSubGraph(cfg: CFG, from: Id, to0: Id) returns (r: bool)
    requires cfg.Valid() && from in cfg.func.blocks
    requires var b := cfg.func.blocks[from];
             StepsEndUpTo(cfg.State(), cfg.immediateDominators,
                          if b.merge.MergeLoop? then b.mergeBlock else 0, from, to0)
    ensures cfg.visitOrder.Keys <= cfg.func.blocks.Keys
    ensures var b := cfg.func.blocks[from];
            r <==> ClosesUpTo(cfg.State(), cfg.immediateDominators,
                              if b.merge.MergeLoop? then b.mergeBlock else 0, from, to0)
    ensures r ==> Dom(cfg.State(), from, to0)
  {
    hide Traversed, Descending, IdomTree, StepEnds, StepsEndUpTo, ClosesUpTo, Reaches, Dominates;
    ghost var g, idom := cfg.State(), cfg.immediateDominators;
    Entries(g, idom);
    var fromBlock := cfg.func.blocks[from];
    var ignoreBlock := if fromBlock.merge.MergeLoop? then fromBlock.mergeBlock else 0;
    var to := to0;
    ClosesUnfold(g, idom, ignoreBlock, from, to);
    while to != from
      invariant to in cfg.visitOrder ==> cfg.visitOrder[to] <= cfg.visitOrder[cfg.func.entry]
      invariant ClosesUpTo(g, idom, ignoreBlock, from, to) <==> ClosesUpTo(g, idom, ignoreBlock, from, to0)
      invariant StepsEndUpTo(g, idom, ignoreBlock, from, to)
      decreases if to in cfg.visitOrder then cfg.visitOrder[cfg.func.entry] - cfg.visitOrder[to] else 0
    {
      ClosesUnfold(g, idom, ignoreBlock, from, to);
      EndsUnfold(g, idom, ignoreBlock, from, to);
      KnownToTraversal(g, to);
      if to !in cfg.precedingEdges {
        return false;
      }
      var dominator := FoldedDominator(cfg, to);
      if dominator == 0 {
        return false;
      }
      var closed := StepCloses(cfg, ignoreBlock, dominator, to);
      if closed {
        to := dominator;
      } else {
        return false;
      }
    }
    ClosesUnfold(g, idom, ignoreBlock, from, to);
    ClosedIsDominated(g, idom, ignoreBlock, from, to0);
    return true;
  }

  lemma ClosesUnfold(g: Graph, idom: map<Id, Id>, ignore: Id, from: Id, to: Id)
    requires Descending(g) && IdomTree(g, idom, 1) && g.order.Keys <= g.func.blocks.Keys
    ensures to in g.order ==> to in idom && idom[to] in g.order && g.order[to] <= g.order[g.func.entry]
    ensures to in g.order && to != g.func.entry ==> g.order[to] < g.order[idom[to]] <= g.order[g.func.entry]
    ensures ClosesUpTo(g, idom, ignore, from, to) <==>
              to == from ||
              (to in g.order && to != g.func.entry
               && Closes(g.func, ignore, idom[to], to) && ClosesUpTo(g, idom, ignore, from, idom[to]))
  {
    if to in g.order {
      TreeEntry(g, idom, 1, to);
    }
  }

  lemma EndsUnfold(g: Graph, idom: map<Id, Id>, ignore: Id, from: Id, to: Id)
    requires Descending(g) && IdomTree(g, idom, 1) && g.order.Keys <= g.func.blocks.Keys
    requires StepsEndUpTo(g, idom, ignore, from, to) && to != from
    ensures to in g.order && to != g.func.entry ==>
              && to in idom && idom[to] in g.func.blocks && StepEnds(g.func, ignore, idom[to])
              && (Closes(g.func, ignore, idom[to], to) ==> StepsEndUpTo(g, idom, ignore, from, idom[to]))
  {
    if to in g.order {
      TreeEntry(g, idom, 1, to);
    }
  }

  lemma KnownToTraversal(g: Graph, to: Id)
    requires Traversed(g) && Descending(g)
    ensures to in g.order && to != g.func.entry ==> to in g.pred
    ensures 0 !in g.order
  {
    PostOrderCovers(g);
  }

  lemma SelectTargetsKnown(f: Function, b: Id)
    requires f.WellFormed() && b in f.blocks
    ensures f.blocks[b].terminator.Select? ==> f.blocks[b].trueBlock in f.blocks && f.blocks[b].falseBlock in f.blocks
  {
    f.TargetsKnown(b);
  }
}
