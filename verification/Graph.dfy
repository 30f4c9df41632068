/** The recorded control-flow graph as a value, and what a depth-first traversal must have left
    in it. `Cfg.dfy` computes such a graph; `Dominance.dfy` reasons about it. */
module Graphs {
  import opened Lists
  import opened Spirv
  import opened Paths

  /** All branches and declared merges of the function. */
  ghost function TargetEdges(f: Function): Edges {
    map b | b in f.blocks :: f.blocks[b].VisitTargets()
  }

  /** `s` leads from the entry to `a` and passes no block twice. */
  ghost predicate SimplePath(f: Function, s: seq<Id>, a: Id) {
    Connects(TargetEdges(f), s, f.entry, a) && NoDuplicates(s)
  }

  /** `t` lies on a way to `a` that passes no block twice. */
  ghost predicate OnWayTo(f: Function, t: Id, a: Id) {
    exists s :: SimplePath(f, s, a) && t in s
  }

  /** `order` maps a block to 0 while it is being visited and to its post-order number afterwards;
      `disc` is the number of blocks finished when the visit of a block began. */
  datatype Graph = Graph(
    func: Function,
    order: map<Id, nat>,
    disc: map<Id, nat>,
    post: seq<Id>,
    pred: map<Id, seq<Id>>,
    succ: map<Id, seq<Id>>)
  {
    function Pred(b: Id): seq<Id> { if b in pred then pred[b] else [] }

    function Succ(b: Id): seq<Id> { if b in succ then succ[b] else [] }

    predicate Finished(b: Id) { b in order && order[b] > 0 }

    /** `t` is finished and was finished before `a`. */
    predicate Before(t: Id, a: Id) {
      Finished(t) && a in order && (order[a] == 0 || order[t] < order[a])
    }
  }

  function AddUnique(l: seq<Id>, v: Id): seq<Id> {
    if v in l then l else l + [v]
  }

  predicate AmongFirstTwo(l: seq<Id>, v: Id) {
    (|l| > 0 && l[0] == v) || (|l| > 1 && l[1] == v)
  }

  /** The post-order numbers are a bijection with the positions of `post`. */
  ghost predicate Numbered(g: Graph) {
    && g.order.Keys <= g.func.blocks.Keys
    && g.disc.Keys == g.order.Keys
    && (forall i {:trigger g.post[i]} :: 0 <= i < |g.post| ==> g.post[i] in g.order && g.order[g.post[i]] == i + 1)
    && (forall b {:trigger g.Finished(b)} :: g.Finished(b) ==> g.order[b] <= |g.post| && g.post[g.order[b] - 1] == b)
    && (forall b {:trigger g.disc[b]} :: b in g.disc ==>
          g.disc[b] <= |g.post| && (g.order[b] > 0 ==> g.disc[b] < g.order[b]))
  }

  /** Both edge maps hold the same edges, without repetition, and each edge leads to a block that
      finished earlier than its source. */
  ghost predicate EdgesDescend(g: Graph) {
    && (forall b :: NoDuplicates(g.Pred(b)) && NoDuplicates(g.Succ(b)))
    && (forall a, b :: a in g.Pred(b) <==> b in g.Succ(a))
    && (forall a, b :: b in g.Succ(a) ==> g.Before(b, a))
  }

  /** Every finished block other than the entry and those in `pending` has been entered by an edge. */
  ghost predicate Rooted(g: Graph, pending: set<Id>) {
    forall b :: g.Finished(b) && b != g.func.entry && b !in pending ==> g.Pred(b) != []
  }

  /** The targets in `ts` that finished before `a`, each once, in order of first appearance. */
  ghost function Kept(g: Graph, a: Id, ts: seq<Id>): seq<Id> {
    if ts == [] then []
    else
      var rest := Kept(g, a, ts[..|ts| - 1]);
      var t := ts[|ts| - 1];
      if g.Before(t, a) then AddUnique(rest, t) else rest
  }

  /** The number of finished blocks once `a` has looked at all of `ts`. */
  ghost function Cursor(g: Graph, a: Id, ts: seq<Id>): nat
    requires a in g.disc
  {
    if ts == [] then g.disc[a]
    else
      var c := Cursor(g, a, ts[..|ts| - 1]);
      var t := ts[|ts| - 1];
      if g.Before(t, a) && g.order[t] > c then g.order[t] else c
  }

  /** `a` looked at `ts` one after the other: each target had already finished by then, was first
      discovered at that very moment, or was still being visited. In the last case it was discovered
      no later than `a` and lies on the way from the entry to `a`. */
  ghost predicate InOrder(g: Graph, a: Id, ts: seq<Id>)
    requires a in g.disc && g.disc.Keys == g.order.Keys
  {
    ts == [] ||
    (var t, c := ts[|ts| - 1], Cursor(g, a, ts[..|ts| - 1]);
     && InOrder(g, a, ts[..|ts| - 1])
     && t in g.order
     && (g.Before(t, a) ==> g.order[t] <= c || g.disc[t] == c)
     && (!g.Before(t, a) ==> g.disc[t] <= g.disc[a] && OnWayTo(g.func, t, a)))
  }

  /** The fix-up for selection merges. The header is an extra predecessor of its merge block when
      that block would otherwise have a single way in (or, for a switch, when the header has a
      single way out), and only then. */
  ghost predicate SelectionFixed(g: Graph, a: Id, kept: seq<Id>, isSwitch: bool, n: Id) {
    && (g.Succ(a) == kept || (g.Before(n, a) && g.Succ(a) == AddUnique(kept, n)))
    && (g.Before(n, a) ==>
          && (n in g.Succ(a) || |g.Pred(n)| >= 2)
          && (isSwitch && |kept| == 1 ==> n in g.Succ(a))
          && (n in g.Succ(a) && n !in kept && !(isSwitch && |kept| == 1) ==>
                AmongFirstTwo(g.Pred(n), a)))
  }

  /** Everything the traversal guarantees about one finished block. */
  ghost predicate Explored(g: Graph, a: Id)
    requires a in g.disc && g.disc.Keys == g.order.Keys && a in g.func.blocks && g.Finished(a)
  {
    var block := g.func.blocks[a];
    var direct := block.LoopMerge() + block.BranchTargets();
    && InOrder(g, a, block.VisitTargets())
    && g.order[a] == Cursor(g, a, block.VisitTargets()) + 1
    && (if block.merge.MergeSelection?
        then SelectionFixed(g, a, Kept(g, a, direct), block.terminator.MultiSelect?, block.nextBlock)
        else g.Succ(a) == Kept(g, a, direct))
  }

  ghost predicate AllExplored(g: Graph)
    requires g.disc.Keys == g.order.Keys <= g.func.blocks.Keys
  {
    forall a :: g.Finished(a) ==> Explored(g, a)
  }

  ghost predicate Settled(g: Graph) {
    && g.func.WellFormed()
    && Numbered(g)
    && EdgesDescend(g)
    && AllExplored(g)
  }

  ghost predicate NoEmptyLists(g: Graph) {
    forall b :: b in g.pred ==> g.pred[b] != []
  }

  /** The invariant of the traversal: holds between any two of its steps. */
  ghost predicate Consistent(g: Graph) {
    Settled(g) && NoEmptyLists(g)
  }

  /** The traversal is over: nothing is in progress and the entry block finished last. */
  ghost predicate Traversed(g: Graph) {
    && Settled(g)
    && Rooted(g, {})
    && g.Finished(g.func.entry)
    && g.order[g.func.entry] == |g.post| && g.disc[g.func.entry] == 0
    && (forall b :: b in g.order ==> g.order[b] > 0)
  }

  /** `h` continues the traversal of `g`: numbers given and edges of finished blocks stay. */
  ghost predicate Extends(g: Graph, h: Graph) {
    && g.func == h.func
    && g.post <= h.post
    && g.order.Keys <= h.order.Keys
    && g.disc.Keys == g.order.Keys && h.disc.Keys == h.order.Keys
    && (forall b :: b in g.order ==> g.disc[b] == h.disc[b])
    && (forall b :: g.Finished(b) ==> h.order[b] == g.order[b] && h.Succ(b) == g.Succ(b))
    && (forall b :: b in g.order && g.order[b] == 0 ==> h.order[b] == 0 || h.order[b] > |g.post|)
    && (forall b :: b in h.order && b !in g.order ==> h.order[b] == 0 || h.order[b] > |g.post|)
    && (forall b :: g.Pred(b) <= h.Pred(b))
  }
}
