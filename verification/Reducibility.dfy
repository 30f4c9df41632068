/** Structured control flow as a property of the function, and what follows for its graph. */
module Reducibility {
  import opened Lists
  import opened Spirv
  import opened Graphs
  import opened Paths
  import opened Dominance
  import opened Structure
  import opened Soundness
  import opened Cfg

  ghost predicate TargetDominates(f: Function, d: Id, b: Id) { Dominates(TargetEdges(f), f.entry, d, b) }

  /** One block of the cycle dominates all of it. */
  ghost predicate SingleEntry(f: Function, c: seq<Id>) {
    exists d :: d in c && forall x :: x in c ==> TargetDominates(f, d, x)
  }

  /** Every cycle of branches and declared merges is entered at one block only. */
  ghost predicate ReducibleFunction(f: Function) {
    forall c :: IsCycle(TargetEdges(f), c) ==> SingleEntry(f, c)
  }

  ghost predicate LoopFree(f: Function) {
    forall c :: !IsCycle(TargetEdges(f), c)
  }

  // ---------------------------------------------------------------- the recorded graph and all targets

  lemma RecordedIsTarget(g: Graph)
    requires Traversed(g)
    ensures forall x, y :: Step(g.succ, x, y) ==> Step(TargetEdges(g.func), x, y)
  {
    TraversedDescends(g);
    hide Traversed;
    forall x, y | Step(g.succ, x, y) ensures Step(TargetEdges(g.func), x, y) {
      assert y in g.Succ(x);
      EdgeHasReason(g, x, y);
      ExploredAt(g, x);
    }
  }

  /** A dominator among all targets is one in the recorded graph. */
  lemma TargetDominatorRecorded(g: Graph, d: Id, b: Id)
    requires Traversed(g) && TargetDominates(g.func, d, b)
    ensures Dom(g, d, b)
  {
    RecordedIsTarget(g);
    hide Traversed;
    forall p | Connects(g.succ, p, g.func.entry, b) ensures d in p {
      Monotone(g.succ, TargetEdges(g.func), p, g.func.entry, b);
    }
  }

  /** It also lies on every run. */
  lemma TargetDominatorOnRun(f: Function, d: Id, b: Id, run: seq<Id>)
    requires TargetDominates(f, d, b) && Connects(RealEdges(f), run, f.entry, b)
    ensures d in run
  {
    RealIsTarget(f);
    Monotone(RealEdges(f), TargetEdges(f), run, f.entry, b);
  }

  lemma RealIsTarget(f: Function)
    ensures forall x, y :: Step(RealEdges(f), x, y) ==> Step(TargetEdges(f), x, y)
  {
    forall x, y | Step(RealEdges(f), x, y) ensures Step(TargetEdges(f), x, y) {
      assert y in f.blocks[x].VisitTargets();
    }
  }

  lemma DroppedRetreats(g: Graph, u: Id, h: Id)
    requires Traversed(g) && Dropped(g, u, h)
    ensures Retreats(g, u, h)
  {
    BranchDroppedIff(g, u, h);
  }

  /** A dropped branch closes a cycle, so a function without cycles loses nothing. */
  lemma LoopFreeDropsNothing(g: Graph)
    requires Traversed(g) && LoopFree(g.func)
    ensures forall u, h :: !Dropped(g, u, h)
  {
    forall u, h ensures !Dropped(g, u, h) {
      if Dropped(g, u, h) {
        DroppedRetreats(g, u, h);
        var c := RetreatCloses(g, u, h);
        assert false;
      }
    }
  }

  /** The source of a dropped branch is reached from its target. */
  lemma DroppedIsReached(g: Graph, u: Id, h: Id)
    requires Traversed(g) && Dropped(g, u, h)
    ensures Paths.Reaches(TargetEdges(g.func), h, u)
  {
    DroppedRetreats(g, u, h);
    var c := RetreatCloses(g, u, h);
    assert Connects(TargetEdges(g.func), c, h, u);
  }

  // ---------------------------------------------------------------- reducible functions

  lemma RetreatIsDominated(g: Graph, u: Id, h: Id)
    requires Traversed(g) && ReducibleFunction(g.func) && Retreats(g, u, h)
    ensures TargetDominates(g.func, h, u)
  {
    hide Traversed, TargetEdges, Step, IsPath, NoDuplicates, Block.VisitTargets, Dominates;
    RetreatEncloses(g, u, h);
    TargetStep(g.func, u, h);
    var e := TargetEdges(g.func);
    var s :| SimplePath(g.func, s, u) && h in s;
    var i :| 0 <= i < |s| && s[i] == h;
    CycleClosed(e, s, i);
    assert SingleEntry(g.func, s[i..]);
    var d :| d in s[i..] && forall x :: x in s[i..] ==> TargetDominates(g.func, d, x);
    assert h in s[i..] && u in s[i..];
    SimplyEntered(g.func, s, u, i, d);
  }

  lemma SimplyEntered(f: Function, s: seq<Id>, u: Id, i: nat, d: Id)
    requires SimplePath(f, s, u) && i < |s| && d in s[i..] && TargetDominates(f, d, s[i])
    ensures d == s[i]
  {
    EnteredAtStart(TargetEdges(f), f.entry, s, i, d);
  }

  lemma {:induction false} Highest(order: map<Id, nat>, c: seq<Id>) returns (m: nat)
    requires c != [] && forall x :: x in c ==> x in order
    ensures m < |c| && forall x :: x in c ==> order[x] <= order[c[m]]
  {
    var n := |c| - 1;
    assert c == c[..n] + [c[n]];
    if n == 0 {
      m := 0;
    } else {
      m := Highest(order, c[..n]);
      assert c[..n][m] == c[m];
      if order[c[n]] > order[c[m]] {
        m := n;
      }
    }
  }

  lemma {:induction false} PathFromVisited(g: Graph, c: seq<Id>, i: nat)
    requires Traversed(g) && IsPath(TargetEdges(g.func), c) && c[0] in g.order && i < |c|
    ensures c[i] in g.order
  {
    hide Traversed, TargetEdges, Step, Block.VisitTargets;
    if i > 0 {
      PathFromVisited(g, c, i - 1);
      assert Step(TargetEdges(g.func), c[i - 1], c[i]);
      TargetStep(g.func, c[i - 1], c[i]);
      TargetsVisited(g, c[i - 1]);
    }
  }

  lemma UnvisitedIsDominated(g: Graph, d: Id, b: Id)
    requires Traversed(g) && b !in g.order
    ensures TargetDominates(g.func, d, b)
  {
    if p :| Connects(TargetEdges(g.func), p, g.func.entry, b) {
      ReachedIsVisited(g, p, b);
      assert false;
    }
  }

  /** A cycle that the traversal does not reach is visited nowhere. */
  lemma CycleUnvisited(g: Graph, c: seq<Id>, i: nat, j: nat)
    requires Traversed(g) && IsCycle(TargetEdges(g.func), c) && i < |c| && j < |c| && c[i] !in g.order
    ensures c[j] !in g.order
  {
    hide Traversed, TargetEdges, Step;
    if c[0] in g.order {
      PathFromVisited(g, c, i);
    }
    if c[j] in g.order {
      BackToStart(TargetEdges(g.func), c, j);
      PathFromVisited(g, c[j..] + [c[0]], |c| - j);
    }
  }

  lemma CycleEnteredOnce(g: Graph, c: seq<Id>)
    requires Traversed(g) && IsCycle(TargetEdges(g.func), c)
    requires forall u, h :: Retreats(g, u, h) ==> TargetDominates(g.func, h, u)
    ensures SingleEntry(g.func, c)
  {
    hide Traversed, TargetEdges, Step, IsPath, Dominates, Block.VisitTargets;
    var f := g.func;
    if i: nat :| i < |c| && c[i] !in g.order {
      forall y | y in c ensures TargetDominates(f, c[0], y) {
        var j :| 0 <= j < |c| && c[j] == y;
        CycleUnvisited(g, c, i, j);
        UnvisitedIsDominated(g, c[0], y);
      }
      CycleNotEmpty(f, c);
    } else {
      CycleNotEmpty(f, c);
      var m := Highest(g.order, c);
      forall x | x in c && Step(TargetEdges(f), x, c[m]) ensures TargetDominates(f, c[m], x) {
        TargetStep(f, x, c[m]);
        assert Retreats(g, x, c[m]);
      }
      forall y | y in c ensures TargetDominates(f, c[m], y) {
        var j :| 0 <= j < |c| && c[j] == y;
        DominatesAround(TargetEdges(f), f.entry, c, m, j);
      }
      assert c[m] in c;
    }
  }

  lemma CycleNotEmpty(f: Function, c: seq<Id>)
    requires IsCycle(TargetEdges(f), c)
    ensures c != [] && c[0] in c
  {
  }

  /** A function is reducible if and only if every target that does not lead to a lower number
      dominates the block that leads to it. So one traversal, in whatever order, decides it. */
  lemma ReducibleIff(g: Graph)
    requires Traversed(g)
    ensures ReducibleFunction(g.func) <==> forall u, h :: Retreats(g, u, h) ==> TargetDominates(g.func, h, u)
  {
    hide Traversed, TargetDominates;
    if ReducibleFunction(g.func) {
      forall u, h | Retreats(g, u, h) ensures TargetDominates(g.func, h, u) {
        RetreatIsDominated(g, u, h);
      }
    }
    if forall u, h :: Retreats(g, u, h) ==> TargetDominates(g.func, h, u) {
      forall c | IsCycle(TargetEdges(g.func), c) ensures SingleEntry(g.func, c) {
        CycleEnteredOnce(g, c);
      }
    }
  }

  /** The graph of a reducible function drops only branches to dominating blocks. */
  lemma ReducibleGraph(g: Graph)
    requires Traversed(g) && ReducibleFunction(g.func)
    ensures Reducible(g)
  {
    hide Traversed;
    forall u, h | Dropped(g, u, h) ensures Dom(g, h, u) {
      DroppedRetreats(g, u, h);
      RetreatIsDominated(g, u, h);
      TargetDominatorRecorded(g, h, u);
    }
  }

  /** What the compiler reports for a reducible function: whatever stands above a block in the
      dominator tree lies on every run from the entry to that block. */
  lemma ReportedDominatorsHold(cfg: CFG, d: Id, b: Id, run: seq<Id>)
    requires cfg.Valid() && ReducibleFunction(cfg.func)
    requires AboveInTree(cfg.State(), cfg.immediateDominators, d, b)
    requires Connects(RealEdges(cfg.func), run, cfg.func.entry, b)
    ensures d in run
  {
    hide Traversed, Descending, IdomTree, AboveInTree, ReducibleFunction, Reducible;
    var g := cfg.State();
    ReducibleGraph(g);
    RealIsFull(g);
    Monotone(RealEdges(g.func), FullEdges(g), run, g.func.entry, b);
    FullPathVisited(g, run, b);
    TreeIsDominance(g, cfg.immediateDominators, d, b);
    DominatorsHoldOnRuns(g, cfg.immediateDominators, d, b, run);
  }
}
