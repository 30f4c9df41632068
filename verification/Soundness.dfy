/** From the recorded graph to real executions: the recorded graph lacks the dropped branches and
    has extra edges to merge blocks. */
module Soundness {
  import opened Spirv
  import opened Graphs
  import opened Paths
  import opened Dominance
  import opened Structure

  /** The branches control can really take. */
  ghost function RealEdges(f: Function): Edges {
    map b | b in f.blocks :: f.blocks[b].BranchTargets()
  }

  /** A run goes on from block `a` to `t` exactly when the terminator of `a` names `t`. */
  lemma RealStepByField(f: Function, a: Id, t: Id)
    ensures Step(RealEdges(f), a, t) <==>
              a in f.blocks &&
              (var b := f.blocks[a];
               || (b.terminator.Direct? && t == b.nextBlock)
               || (b.terminator.Select? && (t == b.trueBlock || t == b.falseBlock))
               || (b.terminator.MultiSelect? && (t in b.cases || (t == b.defaultBlock && t != 0))))
  {
    if a in f.blocks {
      BranchesByField(f.blocks[a], t);
    }
  }

  /** All branches, dropped or not, together with the recorded edges. */
  ghost function FullEdges(g: Graph): Edges {
    map b | b in g.func.blocks :: g.Succ(b) + g.func.blocks[b].BranchTargets()
  }

  ghost predicate Dropped(g: Graph, u: Id, h: Id) {
    u in g.order && u in g.func.blocks && h in g.func.blocks[u].BranchTargets() && h !in g.Succ(u)
  }

  /** What the compiler can check: the immediate dominator of the target of a dropped branch also
      dominates its source. */
  ghost predicate DroppedStayBelow(g: Graph, idom: map<Id, Id>) {
    forall u, h :: Dropped(g, u, h) ==> h in idom && Dom(g, idom[h], u)
  }

  /** Structured control flow: every dropped branch goes back to a block that dominates it. */
  ghost predicate Reducible(g: Graph) {
    forall u, h :: Dropped(g, u, h) ==> Dom(g, h, u)
  }

  /** Every dominator of the recorded graph is one when all branches count. */
  ghost predicate DominatorsSound(g: Graph) {
    forall d, b :: b in g.order && Dom(g, d, b) ==> Dominates(FullEdges(g), g.func.entry, d, b)
  }

  lemma FullStep(g: Graph, u: Id, b: Id)
    requires Traversed(g) && u in g.order && Step(FullEdges(g), u, b)
    ensures b in g.order && (Step(g.succ, u, b) || Dropped(g, u, b))
  {
    TargetsVisited(g, u);
    assert u in g.func.blocks by { ExploredAt(g, u); }
    if b in g.Succ(u) {
      assert g.Before(b, u);
    }
  }

  lemma {:induction false} FullPathVisited(g: Graph, p: seq<Id>, b: Id)
    requires Traversed(g) && Connects(FullEdges(g), p, g.func.entry, b)
    ensures b in g.order
  {
    if |p| > 1 {
      assert Step(FullEdges(g), p[|p| - 2], p[|p| - 1]);
      Split(FullEdges(g), p, g.func.entry, b, |p| - 2);
      FullPathVisited(g, p[..|p| - 1], p[|p| - 2]);
      FullStep(g, p[|p| - 2], b);
    }
  }

  lemma RealIsFull(g: Graph)
    ensures forall x, y :: Step(RealEdges(g.func), x, y) ==> Step(FullEdges(g), x, y)
  {
  }

  lemma OnlyEntryDominatesEntry(g: Graph, d: Id)
    requires Dom(g, d, g.func.entry)
    ensures d == g.func.entry
  {
    Single(g.succ, g.func.entry);
  }

  lemma {:induction false} DominatorOnFullPath(g: Graph, idom: map<Id, Id>, d: Id, p: seq<Id>, b: Id)
    requires Traversed(g) && IdomTree(g, idom, 1) && DroppedStayBelow(g, idom)
    requires Connects(FullEdges(g), p, g.func.entry, b) && Dom(g, d, b)
    ensures d in p
  {
    hide Traversed;
    TraversedDescends(g);
    FullPathVisited(g, p, b);
    if b == g.func.entry {
      OnlyEntryDominatesEntry(g, d);
      assert p[0] == d;
    } else if d == b {
      assert p[|p| - 1] == d;
    } else {
      var u := p[|p| - 2];
      assert Step(FullEdges(g), p[|p| - 2], p[|p| - 1]);
      Split(FullEdges(g), p, g.func.entry, b, |p| - 2);
      FullPathVisited(g, p[..|p| - 1], u);
      FullStep(g, u, b);
      if Step(g.succ, u, b) {
        DominatesBefore(g.succ, g.func.entry, d, u, b);
      } else {
        TreeEntry(g, idom, 1, b);
        Transitive(g.succ, g.func.entry, d, idom[b], u);
      }
      DominatorOnFullPath(g, idom, d, p[..|p| - 1], u);
    }
  }

  lemma DroppedBelowIfSound(g: Graph, idom: map<Id, Id>, u: Id, h: Id)
    requires Traversed(g) && IdomTree(g, idom, 1) && DominatorsSound(g) && Dropped(g, u, h)
    ensures h in idom && Dom(g, idom[h], u)
  {
    hide Traversed;
    TraversedDescends(g);
    assert u in g.func.blocks && h in FullEdges(g)[u];
    FullStep(g, u, h);
    TreeEntry(g, idom, 1, h);
    var i := idom[h];
    if h == g.func.entry {
      EntryDominates(g.succ, g.func.entry, u);
    } else {
      forall p | Connects(g.succ, p, g.func.entry, u) ensures i in p {
        forall x, y | Step(g.succ, x, y) ensures Step(FullEdges(g), x, y) {
          assert x in g.order && g.Finished(x);
          ExploredAt(g, x);
          assert y in g.Succ(x);
        }
        Monotone(g.succ, FullEdges(g), p, g.func.entry, u);
        Append(FullEdges(g), p, g.func.entry, u, h);
      }
    }
  }

  /** The dominators of the recorded graph hold on every path of real and recorded edges, cycles
      included, if and only if each dropped branch stays below its target's immediate dominator. */
  lemma SoundIffDroppedStayBelow(g: Graph, idom: map<Id, Id>)
    requires Traversed(g) && IdomTree(g, idom, 1)
    ensures DominatorsSound(g) <==> DroppedStayBelow(g, idom)
  {
    if DroppedStayBelow(g, idom) {
      forall d, b | b in g.order && Dom(g, d, b) ensures Dominates(FullEdges(g), g.func.entry, d, b) {
        forall p | Connects(FullEdges(g), p, g.func.entry, b) ensures d in p {
          DominatorOnFullPath(g, idom, d, p, b);
        }
      }
    }
    if DominatorsSound(g) {
      forall u, h | Dropped(g, u, h) ensures h in idom && Dom(g, idom[h], u) {
        DroppedBelowIfSound(g, idom, u, h);
      }
    }
  }

  lemma ReducibleStaysBelow(g: Graph, idom: map<Id, Id>)
    requires Traversed(g) && IdomTree(g, idom, 1) && Reducible(g)
    ensures DroppedStayBelow(g, idom)
  {
    TraversedDescends(g);
    forall u, h | Dropped(g, u, h) ensures h in idom && Dom(g, idom[h], u) {
      FullStep(g, u, h);
      TreeEntry(g, idom, 1, h);
      if h == g.func.entry {
        EntryDominates(g.succ, g.func.entry, u);
      } else {
        Transitive(g.succ, g.func.entry, idom[h], h, u);
      }
    }
  }

  /** For structured control flow, what the compiler reports as a dominator lies on every run of
      the function from its entry block. */
  lemma DominatorsHoldOnRuns(g: Graph, idom: map<Id, Id>, d: Id, b: Id, run: seq<Id>)
    requires Traversed(g) && IdomTree(g, idom, 1) && Reducible(g)
    requires Dom(g, d, b) && Connects(RealEdges(g.func), run, g.func.entry, b)
    ensures d in run
  {
    ReducibleStaysBelow(g, idom);
    Monotone(RealEdges(g.func), FullEdges(g), run, g.func.entry, b);
    DominatorOnFullPath(g, idom, d, run, b);
  }
}
