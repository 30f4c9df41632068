/** A function outside structured control flow, and what the compiler reports for it. */
module Irreducible {
  import opened Lists
  import opened Spirv
  import opened Graphs
  import opened Paths
  import opened Dominance
  import opened Structure
  import opened Soundness
  import opened Reducibility
  import opened Cfg

  const BRANCH: Block := Block(Direct, MergeNone, 0, 0, 0, 0, 0, 0, [])

  /** Block 1 enters the cycle of 3 and 4 in two places: at 3, by way of 2, and at 4. */
  function TwoWaysIn(swapped: bool): Function {
    Function(1, map[
      1 := BRANCH.(terminator := Select, trueBlock := if swapped then 4 else 2, falseBlock := if swapped then 2 else 4),
      2 := BRANCH.(nextBlock := 3),
      3 := BRANCH.(nextBlock := 4),
      4 := BRANCH.(nextBlock := 3)])
  }

  ghost function TargetsOf(swapped: bool, a: Id): seq<Id> {
    if a == 1 then (if swapped then [4, 2] else [2, 4]) else if a == 3 then [4] else [3]
  }

  lemma Targets(swapped: bool)
    ensures TwoWaysIn(swapped).blocks.Keys == {1, 2, 3, 4} && TwoWaysIn(swapped).entry == 1
    ensures forall a :: a in TwoWaysIn(swapped).blocks ==>
              var block := TwoWaysIn(swapped).blocks[a];
              block.VisitTargets() == TargetsOf(swapped, a) == block.BranchTargets()
  {
  }

  lemma Known(swapped: bool)
    ensures TwoWaysIn(swapped).WellFormed()
  {
    Targets(swapped);
    hide TwoWaysIn, Block.VisitTargets;
  }

  ghost predicate Possible(x: Id, y: Id) {
    (x == 1 && (y == 2 || y == 4)) || (x == 2 && y == 3) || (x == 3 && y == 4) || (x == 4 && y == 3)
  }

  /** The steps of the function, by branches or by declared merges, which it has none of. */
  lemma Steps(swapped: bool, x: Id, y: Id)
    ensures Step(TargetEdges(TwoWaysIn(swapped)), x, y) <==> Possible(x, y)
    ensures Step(RealEdges(TwoWaysIn(swapped)), x, y) <==> Possible(x, y)
  {
    Targets(swapped);
    hide TwoWaysIn, Block.VisitTargets, Block.BranchTargets;
    var f := TwoWaysIn(swapped);
    assert x in TargetEdges(f) ==> TargetEdges(f)[x] == TargetsOf(swapped, x) == RealEdges(f)[x];
  }

  lemma NeitherDominates(swapped: bool)
    ensures IsCycle(TargetEdges(TwoWaysIn(swapped)), [3, 4])
    ensures !TargetDominates(TwoWaysIn(swapped), 3, 4) && !TargetDominates(TwoWaysIn(swapped), 4, 3)
  {
    Targets(swapped);
    forall x, y ensures Step(TargetEdges(TwoWaysIn(swapped)), x, y) <==> Possible(x, y) { Steps(swapped, x, y); }
    hide TwoWaysIn, TargetEdges, Step;
    var e := TargetEdges(TwoWaysIn(swapped));
    assert Connects(e, [1, 4], 1, 4) && Connects(e, [1, 2, 3], 1, 3);
    assert 3 !in [1, 4] && 4 !in [1, 2, 3];
  }

  lemma NotReducible(swapped: bool)
    ensures !ReducibleFunction(TwoWaysIn(swapped))
  {
    NeitherDominates(swapped);
    hide TwoWaysIn, TargetEdges, TargetDominates;
    var c := [3, 4];
    assert 3 in c && 4 in c;
    assert forall d :: d in c ==> d == 3 || d == 4;
    assert !SingleEntry(TwoWaysIn(swapped), c);
  }

  // ---------------------------------------------------------------- the numbers the traversal gives

  lemma AllVisited(g: Graph, swapped: bool)
    requires Traversed(g) && g.func == TwoWaysIn(swapped)
    ensures g.disc.Keys == g.order.Keys == {1, 2, 3, 4} && g.disc[1] == 0 && g.func.entry == 1
    ensures forall a, b :: a in g.order && b in g.order && g.order[a] == g.order[b] ==> a == b
    ensures forall a :: a in g.order ==> 0 < g.order[a] <= g.order[1]
  {
    hide Traversed, TwoWaysIn, Block.VisitTargets, Block.BranchTargets;
    TraversedDescends(g);
    Targets(swapped);
    OrderKnown(g);
    TargetsVisited(g, 1);
    TargetsVisited(g, 2);
    assert 2 in TargetsOf(swapped, 1) && 4 in TargetsOf(swapped, 1) && 3 in TargetsOf(swapped, 2);
    assert g.func.blocks[1].VisitTargets() == TargetsOf(swapped, 1);
    assert g.func.blocks[2].VisitTargets() == TargetsOf(swapped, 2);
  }

  lemma OrderKnown(g: Graph)
    requires Traversed(g)
    ensures g.disc.Keys == g.order.Keys <= g.func.blocks.Keys && g.func.entry in g.order && g.disc[g.func.entry] == 0
  {
    hide AllExplored, EdgesDescend, Rooted;
  }

  /** What the visit of a block with one target leaves behind. */
  ghost predicate LookedAtOne(g: Graph, a: Id, t: Id) {
    && a in g.disc && t in g.disc && a in g.order && t in g.order
    && (g.order[t] < g.order[a] ==> g.order[t] <= g.disc[a] || g.disc[t] == g.disc[a])
    && (g.order[t] >= g.order[a] ==> g.disc[t] <= g.disc[a])
    && g.order[a] == (if g.order[t] < g.order[a] && g.order[t] > g.disc[a] then g.order[t] else g.disc[a]) + 1
  }

  lemma OneTarget(g: Graph, a: Id, t: Id)
    requires Traversed(g) && a in g.order && a in g.func.blocks && g.func.blocks[a].VisitTargets() == [t]
    ensures LookedAtOne(g, a, t)
  {
    hide Traversed, Block.VisitTargets, OnWayTo;
    LookedAtAll(g, a);
    ExploredAt(g, a);
    OrderKnown(g);
    assert [t][..0] == [];
    TargetsVisited(g, a);
    NumberedFromOne(g, t);
  }

  lemma NumberedFromOne(g: Graph, a: Id)
    requires Traversed(g) && a in g.order
    ensures g.order[a] > 0
  {
    hide AllExplored, EdgesDescend, Rooted, Numbered;
  }

  /** What the visit of a block with two targets leaves behind, when both finished before it. */
  lemma TwoTargets(g: Graph, a: Id, t: Id, n: Id)
    requires Traversed(g) && a in g.order && a in g.func.blocks && g.func.blocks[a].VisitTargets() == [t, n]
    requires t in g.order && n in g.order && g.order[t] < g.order[a] && g.order[n] < g.order[a]
    ensures a in g.disc && t in g.disc && n in g.disc && (g.order[t] <= g.disc[a] || g.disc[t] == g.disc[a])
    ensures var c := if g.order[t] > g.disc[a] then g.order[t] else g.disc[a]; g.order[n] <= c || g.disc[n] == c
  {
    hide Traversed, Block.VisitTargets, OnWayTo;
    LookedAtAll(g, a);
    OrderKnown(g);
    NumberedFromOne(g, t);
    NumberedFromOne(g, n);
    assert [t, n][..1] == [t] && [t][..0] == [];
    hide Explored;
    assert InOrder(g, a, [t]);
  }

  /** No way to block 2 leads through block 3. */
  lemma TwoComesBeforeThree(swapped: bool)
    ensures !OnWayTo(TwoWaysIn(swapped), 3, 2)
  {
    var f := TwoWaysIn(swapped);
    Targets(swapped);
    forall x, y ensures Step(TargetEdges(f), x, y) <==> Possible(x, y) { Steps(swapped, x, y); }
    hide TwoWaysIn, TargetEdges, Step, NoDuplicates;
    forall s | SimplePath(f, s, 2) ensures 3 !in s {
      assert forall i, j :: 0 <= i && j == i + 1 && j < |s| ==> Possible(s[i], s[j]);
      OnlyByOne(s);
    }
  }

  lemma OnlyByOne(s: seq<Id>)
    requires s != [] && s[0] == 1 && s[|s| - 1] == 2
    requires forall i, j :: 0 <= i && j == i + 1 && j < |s| ==> Possible(s[i], s[j])
    ensures s == [1, 2]
  {
    assert Possible(s[|s| - 2], s[|s| - 1]);
    assert |s| > 2 ==> Possible(s[|s| - 3], s[|s| - 2]);
  }

  lemma ThreeBelowTwo(g: Graph, swapped: bool)
    requires Traversed(g) && g.func == TwoWaysIn(swapped)
    ensures 2 in g.order && 3 in g.order && g.order[3] < g.order[2]
  {
    hide Traversed, TwoWaysIn, Block.VisitTargets, Block.BranchTargets, OnWayTo;
    AllVisited(g, swapped);
    TwoComesBeforeThree(swapped);
    Targets(swapped);
    assert g.func.blocks[2].VisitTargets() == [3];
    if g.order[3] >= g.order[2] {
      RetreatEncloses(g, 2, 3);
    }
  }

  /** Whichever target of block 1 comes first, the cycle is entered there. */
  lemma CycleOrder(g: Graph, swapped: bool)
    requires Traversed(g) && g.func == TwoWaysIn(swapped)
    ensures 3 in g.order && 4 in g.order
    ensures if swapped then g.order[3] < g.order[4] else g.order[4] < g.order[3]
  {
    hide Traversed, TwoWaysIn, Block.VisitTargets, Block.BranchTargets;
    AllVisited(g, swapped);
    ThreeBelowTwo(g, swapped);
    Targets(swapped);
    var first, second := if swapped then 4 else 2, if swapped then 2 else 4;
    TwoTargets(g, 1, first, second);
    OneTarget(g, 2, 3);
    OneTarget(g, 3, 4);
    OneTarget(g, 4, 3);
  }

  // ---------------------------------------------------------------- what is reported

  /** The edges into a block that are recorded. */
  lemma RecordedSteps(g: Graph, swapped: bool, x: Id, y: Id)
    requires Traversed(g) && g.func == TwoWaysIn(swapped) && Step(g.succ, x, y)
    ensures Step(TargetEdges(TwoWaysIn(swapped)), x, y) && x in g.order && y in g.order && g.order[y] < g.order[x]
  {
    hide Traversed, TwoWaysIn, TargetEdges, Step;
    RecordedIsTarget(g);
    TraversedDescends(g);
  }

  lemma RecordedBranch(g: Graph, a: Id, t: Id)
    requires Traversed(g) && a in g.order && t in g.func.blocks[a].BranchTargets()
    requires t in g.order && g.order[t] < g.order[a]
    ensures Step(g.succ, a, t)
  {
    hide Traversed, Block.BranchTargets;
    BranchDroppedIff(g, a, t);
  }

  lemma OnlyFromTwo(g: Graph)
    requires Traversed(g) && g.func == TwoWaysIn(false)
    ensures 2 in g.order && Step(g.succ, 2, 3) && forall a :: Step(g.succ, a, 3) ==> a == 2
  {
    hide Traversed, TwoWaysIn, Step, Block.VisitTargets, Block.BranchTargets;
    CycleOrder(g, false);
    ThreeBelowTwo(g, false);
    Targets(false);
    assert 3 in TargetsOf(false, 2);
    RecordedBranch(g, 2, 3);
    forall a | Step(g.succ, a, 3) ensures a == 2 {
      RecordedSteps(g, false, a, 3);
      Steps(false, a, 3);
    }
  }

  lemma TwoIsReported(g: Graph)
    requires Traversed(g) && g.func == TwoWaysIn(false)
    ensures IsIdom(g, 2, 3)
  {
    OnlyFromTwo(g);
    AllVisited(g, false);
    hide Traversed, TwoWaysIn, Dominates, Step;
    Reflexive(g.succ, 1, 2);
    DominatesAfter(g.succ, 1, 2, 3);
    forall d | Dom(g, d, 3) && d != 3 ensures Dom(g, d, 2) {
      DominatesBefore(g.succ, 1, d, 2, 3);
    }
  }

  lemma RunMissesTwo()
    ensures Connects(RealEdges(TwoWaysIn(false)), [1, 4, 3], 1, 3) && !Dominates(RealEdges(TwoWaysIn(false)), 1, 2, 3)
  {
    Steps(false, 1, 4);
    Steps(false, 4, 3);
    hide TwoWaysIn, Step;
    assert 2 !in [1, 4, 3];
  }

  /** The compiler reports block 2 as the immediate dominator of block 3, but the run 1, 4, 3 does
      not pass it. */
  method DominatorMissed() returns (cfg: CFG)
    ensures cfg.Valid() && cfg.func == TwoWaysIn(false)
    ensures 3 in cfg.immediateDominators && cfg.immediateDominators[3] == 2
    ensures Connects(RealEdges(cfg.func), [1, 4, 3], 1, 3) && !Dominates(RealEdges(cfg.func), 1, 2, 3)
  {
    hide TwoWaysIn, Traversed, Descending, IdomTree;
    Known(false);
    cfg := new CFG(TwoWaysIn(false));
    ghost var g := cfg.State();
    TwoIsReported(g);
    AllVisited(g, false);
    Targets(false);
    TreeEntry(g, cfg.immediateDominators, 1, 3);
    IdomUnique(g, cfg.immediateDominators[3], 2, 3);
    RunMissesTwo();
  }

  /** The same branches in the other order: now all reported dominators hold, although the function
      is as irreducible as before. So soundness is not a matter of the branches alone. */
  lemma SwappedIsSound(g: Graph, idom: map<Id, Id>)
    requires Traversed(g) && g.func == TwoWaysIn(true) && IdomTree(g, idom, 1)
    ensures DominatorsSound(g) && !ReducibleFunction(g.func)
  {
    hide Traversed, TwoWaysIn, ReducibleFunction, IdomTree, Dropped;
    NotReducible(true);
    forall u, h | Dropped(g, u, h) ensures h in idom && Dom(g, idom[h], u) {
      SwappedDrops(g, u, h);
      FourBelowOne(g, idom);
      EntryDominates(g.succ, g.func.entry, u);
    }
    SoundIffDroppedStayBelow(g, idom);
  }

  lemma SwappedDrops(g: Graph, u: Id, h: Id)
    requires Traversed(g) && g.func == TwoWaysIn(true) && Dropped(g, u, h)
    ensures u == 3 && h == 4
  {
    hide Traversed, TwoWaysIn, Block.VisitTargets, Block.BranchTargets, TargetEdges, Step;
    DroppedRetreats(g, u, h);
    AllVisited(g, true);
    CycleOrder(g, true);
    ThreeBelowTwo(g, true);
    TargetStep(g.func, u, h);
    Steps(true, u, h);
  }

  lemma FourBelowOne(g: Graph, idom: map<Id, Id>)
    requires Traversed(g) && g.func == TwoWaysIn(true) && IdomTree(g, idom, 1)
    ensures 4 in idom && idom[4] == g.func.entry
  {
    hide Traversed, TwoWaysIn, Block.VisitTargets, Block.BranchTargets, Descending, IdomTree, Dominates, Step;
    AllVisited(g, true);
    TraversedDescends(g);
    Targets(true);
    assert 4 in TargetsOf(true, 1);
    assert g.order[4] != g.order[1];
    RecordedBranch(g, 1, 4);
    TreeEntry(g, idom, 1, 4);
    DominatesBefore(g.succ, g.func.entry, idom[4], 1, 4);
    OnlyEntryDominatesEntry(g, idom[4]);
  }
}
