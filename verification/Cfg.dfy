/** The control-flow graph of a function: depth-first traversal, edge maps, immediate dominators. */
module Cfg {
  import opened Lists
  import opened Spirv
  import opened Graphs
  import opened Traversal
  import opened Dominance

  class CFG {
    const func: Function
    var precedingEdges: map<Id, seq<Id>>
    var succeedingEdges: map<Id, seq<Id>>
    var visitOrder: map<Id, nat>
    var postOrder: seq<Id>
    var visitCount: nat
    var immediateDominators: map<Id, Id>
    ghost var discovered: map<Id, nat>

    /** The traversal so far, as a value. */
    ghost function State(): Graph
      reads this
    {
      Graph(func, visitOrder, discovered, postOrder, precedingEdges, succeedingEdges)
    }

    ghost predicate Searching()
      reads this
    {
      Consistent(State()) && visitCount == |postOrder|
    }

    /** Builds the graph of `f` and its dominator tree. */
    constructor (f: Function)
      requires f.WellFormed()
      ensures Valid() && func == f
    {
      func := f;
      precedingEdges := map[];
      succeedingEdges := map[];
      visitOrder := map[];
      postOrder := [];
      visitCount := 0;
      immediateDominators := map[];
      discovered := map[];
      new;
      BuildPostOrderVisitOrder();
      BuildImmediateDominators();
    }

    /** 0 for a block the traversal never reached. */
    function GetImmediateDominator(block: Id): Id
      reads this
    {
      if block in immediateDominators then immediateDominators[block] else 0
    }

    function GetVisitOrder(block: Id): nat
      requires block in visitOrder
      reads this
    {
      visitOrder[block]
    }

    function GetPrecedingEdges(block: Id): seq<Id>
      reads this
    {
      if block in precedingEdges then precedingEdges[block] else []
    }

    function GetSucceedingEdges(block: Id): seq<Id>
      reads this
    {
      if block in succeedingEdges then succeedingEdges[block] else []
    }

    predicate IsBackEdge(to: Id)
      reads this
    {
      to in visitOrder && visitOrder[to] == 0
    }

    predicate HasVisitedForwardEdge(to: Id)
      reads this
    {
      to in visitOrder && visitOrder[to] > 0
    }

    method AddBranch(from: Id, to: Id)
      modifies this`precedingEdges, this`succeedingEdges
      ensures State() == WithEdge(old(State()), from, to)
    {
      var pred := if to in precedingEdges then precedingEdges[to] else [];
      if from !in pred {
        pred := pred + [from];
      }
      precedingEdges := precedingEdges[to := pred];
      var succ := if from in succeedingEdges then succeedingEdges[from] else [];
      if to !in succ {
        succ := succ + [to];
      }
      succeedingEdges := succeedingEdges[from := succ];
    }

    /** `open` holds the blocks in progress, `block` last. */
    ghost predicate OnTop(open: seq<Id>, block: Id)
      reads this
    {
      open != [] && open[|open| - 1] == block && Stacked(State(), open)
    }

    /** The magic number 0 marks a block whose visit has begun. */
    method BeginVisit(block: Id)
      modifies this`visitOrder, this`discovered
      ensures State() == Started(old(State()), block) && visitOrder == old(visitOrder)[block := 0]
    {
      visitOrder := visitOrder[block := 0];
      discovered := discovered[block := |postOrder|];
    }

    /** Numbers are given from one upwards. */
    method EndVisit(block: Id)
      requires visitCount == |postOrder|
      modifies this`visitOrder, this`visitCount, this`postOrder
      ensures State() == Ended(old(State()), block) && visitCount == |postOrder|
      ensures visitOrder == old(visitOrder)[block := visitCount] && visitCount > 0
    {
      visitCount := visitCount + 1;
      visitOrder := visitOrder[block := visitCount];
      postOrder := postOrder + [block];
    }

    /** Visits `block` unless it has been seen; tells whether a branch to it is a forward edge. The
        blocks on `stack` are those whose visit has not ended. */
    method PostOrderVisit(block: Id, ghost stack: seq<Id>) returns (forward: bool)
      requires Searching() && Rooted(State(), {}) && block in func.blocks
      requires Stacked(State(), stack) && Next(func, stack, block)
      modifies this
      ensures Searching() && LeavesOpen(old(State()), State())
      ensures Rooted(State(), if block in old(visitOrder) then {} else {block})
      ensures block in visitOrder && (forward <==> State().Finished(block))
      ensures block !in old(visitOrder) ==> forward
      ensures block in old(visitOrder) ==> State() == old(State())
      ensures block !in old(visitOrder) ==>
                visitOrder[block] == |postOrder| && discovered[block] == |old(postOrder)|
      decreases func.blocks.Keys - visitOrder.Keys, 1
    {
      hide EdgesDescend, AllExplored, Numbered, Rooted, Extends, InOrder, Kept, Cursor;
      hide LeavesOpen, Inside, Visiting, ReadyToEnd, Function.WellFormed, Started, Ended, Stacked;
      hide Function.LeadsTo, Block.VisitTargets;
      func.TargetsKnown(block);
      Unchanged(State());
      if HasVisitedForwardEdge(block) {
        return true;
      } else if IsBackEdge(block) {
        return false;
      }
      ghost var g0 := State();
      VisitStarted(g0, block);
      InsideStarted(g0, block);
      StackPushed(g0, stack, block);
      BeginVisit(block);
      ghost var open := stack + [block];

      var b := func.blocks[block];
      ghost var seen := [];
      if b.merge.MergeLoop? {
        VisitTarget(block, b.mergeBlock, seen, g0, open);
        seen := seen + [b.mergeBlock];
      }
      assert seen == b.LoopMerge();

      seen := VisitBranches(block, seen, g0, open);
      if b.merge.MergeSelection? {
        VisitSelectionMerge(block, seen, g0, open);
      } else {
        MergeNotNeeded(State(), block);
      }

      VisitEnded(State(), block);
      InsideEnded(g0, State(), block);
      EndVisit(block);
      forward := true;
    }

    /** The branch targets of the block, in the order of its terminator. */
    method VisitBranches(block: Id, ghost looked: seq<Id>, ghost g0: Graph, ghost open: seq<Id>)
      returns (ghost seen: seq<Id>)
      requires Searching() && Rooted(State(), {}) && block in visitOrder && block in func.blocks
      requires OnTop(open, block)
      requires Inside(g0, State(), block) && Visiting(State(), block, looked)
      modifies this
      ensures Searching() && Rooted(State(), {}) && block in visitOrder
      ensures old(visitOrder).Keys <= visitOrder.Keys
      ensures seen == looked + func.blocks[block].BranchTargets() && OnTop(open, block)
      ensures Inside(g0, State(), block) && Visiting(State(), block, seen)
      decreases func.blocks.Keys - visitOrder.Keys, 3
    {
      hide EdgesDescend, AllExplored, Numbered, Rooted, Extends, InOrder, Kept, Cursor;
      hide LeavesOpen, Inside, Visiting, Stacked, Function.WellFormed, Function.LeadsTo, Block.VisitTargets;
      func.TargetsKnown(block);
      var b := func.blocks[block];
      seen := looked;
      match b.terminator {
        case Direct =>
          VisitTarget(block, b.nextBlock, seen, g0, open);
          seen := seen + [b.nextBlock];
        case Select =>
          VisitTarget(block, b.trueBlock, seen, g0, open);
          seen := seen + [b.trueBlock];
          VisitTarget(block, b.falseBlock, seen, g0, open);
          seen := seen + [b.falseBlock];
        case MultiSelect =>
          for i := 0 to |b.cases|
            invariant Searching() && Rooted(State(), {}) && Inside(g0, State(), block) && OnTop(open, block)
            invariant block in visitOrder && old(visitOrder).Keys <= visitOrder.Keys
            invariant seen == looked + b.cases[..i] && Visiting(State(), block, seen)
          {
            VisitTarget(block, b.cases[i], seen, g0, open);
            seen := seen + [b.cases[i]];
          }
          if b.defaultBlock != 0 {
            VisitTarget(block, b.defaultBlock, seen, g0, open);
            seen := seen + [b.defaultBlock];
          }
        case _ =>
      }
    }

    /** A branch target or loop merge: visit it and record the edge if it leads forward. */
    method VisitTarget(block: Id, target: Id, ghost seen: seq<Id>, ghost g0: Graph, ghost open: seq<Id>)
      requires Searching() && Rooted(State(), {}) && func.LeadsTo(block, target) && OnTop(open, block)
      requires block in visitOrder && Inside(g0, State(), block) && Visiting(State(), block, seen)
      modifies this
      ensures Searching() && Rooted(State(), {}) && block in visitOrder
      ensures old(visitOrder).Keys <= visitOrder.Keys
      ensures Inside(g0, State(), block) && Visiting(State(), block, seen + [target]) && OnTop(open, block)
      decreases func.blocks.Keys - visitOrder.Keys, 2
    {
      hide EdgesDescend, AllExplored, Numbered, Rooted, Extends, InOrder, Kept, Cursor;
      hide LeavesOpen, Inside, Visiting, Stacked, Encloses, AddUnique, WithEdge, NoEmptyLists;
      hide Function.WellFormed, Function.LeadsTo, Block.VisitTargets, Next;
      ghost var g := State();
      TargetIsNext(func, open, block, target);
      TopEnclosed(g, open, target);
      var forward := PostOrderVisit(target, open);
      ghost var h := State();
      StackKept(g, h, open);
      VisitedOne(g, h, block, seen, target);
      InsideStep(g0, g, h, block);
      if forward {
        ForwardEdge(g0, h, block, seen + [target], target, if target in g.order then {} else {target}, open);
        AddBranch(block, target);
      }
    }

    /** The implied branch from a selection header to its merge block. */
    method VisitSelectionMerge(block: Id, ghost seen: seq<Id>, ghost g0: Graph, ghost open: seq<Id>)
      requires Searching() && Rooted(State(), {}) && block in func.blocks && OnTop(open, block)
      requires func.blocks[block].merge.MergeSelection?
      requires seen == func.blocks[block].LoopMerge() + func.blocks[block].BranchTargets()
      requires block in visitOrder && Inside(g0, State(), block) && Visiting(State(), block, seen)
      modifies this
      ensures Searching() && Rooted(State(), {}) && block in visitOrder
      ensures old(visitOrder).Keys <= visitOrder.Keys
      ensures Inside(g0, State(), block) && visitOrder[block] == 0 && ReadyToEnd(State(), block)
      decreases func.blocks.Keys - visitOrder.Keys, 2
    {
      hide EdgesDescend, AllExplored, Numbered, Rooted, Extends, InOrder, Kept, Cursor;
      hide LeavesOpen, Inside, Visiting, Stacked, Encloses, Function.WellFormed;
      func.TargetsKnown(block);
      var b := func.blocks[block];
      ghost var g := State();
      assert Next(func, open, b.nextBlock);
      TopEnclosed(g, open, b.nextBlock);
      var forward := PostOrderVisit(b.nextBlock, open);
      ghost var h := State();
      StackKept(g, h, open);
      assert block in open;
      InsideStep(g0, g, h, block);
      if forward {
        EdgeRecorded(h, block, b.nextBlock);
        InsideEdge(g0, h, block, b.nextBlock);
        AddSelectionBranch(block, b.nextBlock, b.terminator.MultiSelect?,
                           if b.nextBlock in g.order then {} else {b.nextBlock});
      }
      MergeVisited(g, h, State(), block, b.nextBlock);
    }

    method AddSelectionBranch(block: Id, next: Id, isSwitch: bool, ghost pending: set<Id>)
      requires Rooted(State(), pending) && pending <= {next}
      requires EdgesDescend(State()) && NoEmptyLists(State()) && State().Finished(next)
      requires block in visitOrder && visitOrder[block] == 0
      modifies this`precedingEdges, this`succeedingEdges
      ensures State() == old(State()) || State() == WithEdge(old(State()), block, next)
      ensures Rooted(State(), {})
      ensures SelectionFixed(State(), block, old(State()).Succ(block), isSwitch, next)
    {
      hide EdgesDescend, Rooted;
      ghost var h := State();
      EdgeRoots(h, block, next, pending);
      if next in precedingEdges {
        EdgeMapsAgree(h, block, next);
        AlreadyRooted(h, next, pending);
        var pred := precedingEdges[next];
        var numSucceedingEdges := if block in succeedingEdges then |succeedingEdges[block]| else 0;
        if isSwitch && numSucceedingEdges == 1 {
          if |pred| > 0 {
            AddBranch(block, next);
          }
        } else if |pred| == 1 && pred[0] != block {
          AddBranch(block, next);
          assert State().Pred(next)[1] == block;
        }
      } else {
        AddBranch(block, next);
        assert State().Pred(next) == [block];
      }
    }

    method BuildPostOrderVisitOrder()
      requires func.WellFormed() && precedingEdges == map[] && succeedingEdges == map[]
      modifies this
      ensures Traversed(State())
    {
      visitCount := 0;
      visitOrder := map[];
      postOrder := [];
      discovered := map[];
      assert Consistent(State());
      var _ := PostOrderVisit(func.entry, []);
      hide Settled;
    }

    /** Climbs from two blocks to their nearest common dominator. */
    method FindCommonDominator(a0: Id, b0: Id, ghost k: nat) returns (a: Id)
      requires Descending(State()) && IdomTree(State(), immediateDominators, k)
      requires a0 in visitOrder && b0 in visitOrder && visitOrder[a0] >= k && visitOrder[b0] >= k
      ensures a in visitOrder && visitOrder[a] >= visitOrder[a0] && visitOrder[a] >= visitOrder[b0]
      ensures Nearest(State(), a, {a0, b0})
    {
      hide Descending, IdomTree, IsIdom, Nearest;
      a := a0;
      var b := b0;
      ghost var g := State();
      Ranks(g);
      while a != b
        invariant a in visitOrder && visitOrder[a] >= visitOrder[a0]
        invariant b in visitOrder && visitOrder[b] >= visitOrder[b0]
        invariant SameCommon(g, a, b, a0, b0)
        decreases 2 * visitOrder[func.entry] - visitOrder[a] - visitOrder[b]
      {
        if visitOrder[a] < visitOrder[b] {
          TreeEntry(g, immediateDominators, k, a);
          Climb(g, immediateDominators[a], a, b);
          a := immediateDominators[a];
        } else {
          TreeEntry(g, immediateDominators, k, b);
          Climb(g, immediateDominators[b], b, a);
          b := immediateDominators[b];
        }
      }
      CommonMet(g, a, a0, b0);
    }

    /** The finished graph with its immediate-dominator tree: exactly the visited blocks have an
        entry, and it is their immediate dominator. */
    ghost predicate Valid()
      reads this
    {
      && Traversed(State())
      && Descending(State())
      && immediateDominators.Keys == visitOrder.Keys
      && IdomTree(State(), immediateDominators, 1)
    }

    /** The dominator tree is complete for the blocks numbered above `i`. */
    ghost predicate TreeAbove(i: nat)
      reads this
    {
      && Traversed(State()) && Descending(State())
      && IdomTree(State(), immediateDominators, i + 1)
      && immediateDominators.Keys <= visitOrder.Keys
      && (forall b :: b in immediateDominators ==> b in visitOrder && (b == func.entry || visitOrder[b] > i))
      && func.entry in immediateDominators && immediateDominators[func.entry] == func.entry
    }

    /** One pass over the post-order in reverse is enough. */
    method BuildImmediateDominators()
      requires Traversed(State())
      modifies this`immediateDominators, this`precedingEdges
      ensures Valid()
    {
      hide Traversed, Descending, IdomTree;
      TraversedDescends(State());
      PostOrderCovers(State());
      TreeStarts(State());
      immediateDominators := map[func.entry := func.entry];
      var i := |postOrder|;
      while i > 0
        invariant 0 <= i <= |postOrder| && TreeAbove(i)
      {
        DominateBlock(i);
        i := i - 1;
      }
      TreeComplete(State(), immediateDominators);
    }

    /** The entry of the block numbered `i`, once those above are known. */
    method DominateBlock(i: nat)
      requires 0 < i <= |postOrder| && TreeAbove(i)
      modifies this`immediateDominators, this`precedingEdges
      ensures TreeAbove(i - 1)
    {
      hide Traversed, Descending, IdomTree;
      PostOrderCovers(State());
      var block := postOrder[i - 1];
      ghost var before := State();
      var pred := PrecedingOf(block);
      TreeSame(before, State(), immediateDominators, i + 1);
      if |pred| != 0 {
        EntryHasNoPredecessor(State());
        FoldPredecessors(block, pred);
      } else {
        OnlyEntryHasNoPredecessor(State(), block);
        TreeReachesEntry(State(), immediateDominators, block);
      }
    }

    /** `preceding_edges[block]`, which stores an empty list for an unknown block. */
    method PrecedingOf(block: Id) returns (pred: seq<Id>)
      requires Traversed(State())
      modifies this`precedingEdges
      ensures Traversed(State()) && Descending(State())
      ensures pred == State().Pred(block)
    {
      hide Traversed, Descending;
      if block !in precedingEdges {
        EmptyListAdded(State(), block);
        precedingEdges := precedingEdges[block := []];
      }
      TraversedDescends(State());
      pred := precedingEdges[block];
    }

    method FoldPredecessors(block: Id, pred: seq<Id>)
      requires Descending(State()) && 0 !in visitOrder && block in visitOrder
      requires IdomTree(State(), immediateDominators, visitOrder[block] + 1)
      requires pred == State().Pred(block) && pred != [] && block != func.entry
      requires block !in immediateDominators
      modifies this`immediateDominators
      ensures IdomTree(State(), immediateDominators, visitOrder[block])
      ensures immediateDominators.Keys == old(immediateDominators).Keys + {block}
      ensures forall b :: b in old(immediateDominators) ==> immediateDominators[b] == old(immediateDominators)[b]
    {
      hide Nearest, IsIdom, IdomTree, Descending;
      ghost var g := State();
      ghost var idom0 := immediateDominators;
      for j := 0 to |pred|
        invariant IdomTree(g, immediateDominators, visitOrder[block] + 1)
        invariant j == 0 ==> immediateDominators == idom0
        invariant j > 0 ==>
                    && block in immediateDominators && immediateDominators == idom0[block := immediateDominators[block]]
                    && immediateDominators[block] in visitOrder
                    && visitOrder[immediateDominators[block]] > visitOrder[block]
                    && Nearest(g, immediateDominators[block], Elements(pred[..j]))
      {
        var edge := pred[j];
        PredecessorIsHigher(g, edge, block);
        assert Elements(pred[..j + 1]) == Elements(pred[..j]) + {edge};
        var current := if block in immediateDominators then immediateDominators[block] else 0;
        if current != 0 {
          TreeEntry(g, immediateDominators, visitOrder[block] + 1, edge);
          assert edge in immediateDominators && immediateDominators[edge] != 0;
          var nearest := FindCommonDominator(current, edge, visitOrder[block] + 1);
          NearestFolds(g, current, Elements(pred[..j]), edge, nearest);
          TreeKeeps(g, immediateDominators, block, nearest);
          immediateDominators := immediateDominators[block := nearest];
        } else {
          assert Elements(pred[..j + 1]) == {edge};
          NearestOfOne(g, edge);
          TreeKeeps(g, immediateDominators, block, edge);
          immediateDominators := immediateDominators[block := edge];
        }
      }
      assert pred[..|pred|] == pred;
      IdomFromPredecessors(g, immediateDominators[block], block);
      TreeGrows(g, idom0, immediateDominators, block);
    }
  }
}
