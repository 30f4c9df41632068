/** Why every step of the depth-first search keeps the invariant of `Graphs.Consistent`. */
module Traversal {
  import opened Spirv
  import opened Graphs
  import opened Paths

  // ---------------------------------------------------------------- what later steps keep

  lemma BeforeStable(g: Graph, h: Graph, t: Id, a: Id)
    requires Numbered(g) && Extends(g, h) && g.Finished(a) && t in g.order
    ensures g.Before(t, a) <==> h.Before(t, a)
    ensures g.Before(t, a) ==> g.order[t] == h.order[t]
    ensures g.order[a] == h.order[a]
  {
  }

  lemma {:induction false} VisitsStable(g: Graph, h: Graph, a: Id, ts: seq<Id>)
    requires Numbered(g) && Extends(g, h) && g.Finished(a)
    requires forall t :: t in ts ==> t in g.order
    ensures Cursor(g, a, ts) == Cursor(h, a, ts)
    ensures Kept(g, a, ts) == Kept(h, a, ts)
    ensures InOrder(g, a, ts) ==> InOrder(h, a, ts)
  {
    if ts != [] {
      VisitsStable(g, h, a, ts[..|ts| - 1]);
      BeforeStable(g, h, ts[|ts| - 1], a);
    }
  }

  lemma {:induction false} InOrderVisited(g: Graph, a: Id, ts: seq<Id>)
    requires a in g.disc && g.disc.Keys == g.order.Keys && InOrder(g, a, ts)
    ensures forall t :: t in ts ==> t in g.order
  {
    if ts != [] {
      InOrderVisited(g, a, ts[..|ts| - 1]);
    }
  }

  lemma FixStable(g: Graph, h: Graph, a: Id, kept: seq<Id>, isSwitch: bool, n: Id)
    requires Numbered(g) && Extends(g, h) && g.Finished(a) && n in g.order
    requires SelectionFixed(g, a, kept, isSwitch, n)
    ensures SelectionFixed(h, a, kept, isSwitch, n)
  {
    BeforeStable(g, h, n, a);
    var p, q := g.Pred(n), h.Pred(n);
    assert p <= q;
  }

  lemma ExploredStable(g: Graph, h: Graph, a: Id)
    requires Numbered(g) && Numbered(h) && Extends(g, h) && g.Finished(a)
    requires Explored(g, a)
    ensures Explored(h, a)
  {
    var block := g.func.blocks[a];
    var direct := block.LoopMerge() + block.BranchTargets();
    var all := block.VisitTargets();
    assert all == direct + block.SelectionMerge();
    InOrderVisited(g, a, all);
    VisitsStable(g, h, a, all);
    VisitsStable(g, h, a, direct);
    if block.merge.MergeSelection? {
      assert all[|all| - 1] == block.nextBlock;
      FixStable(g, h, a, Kept(g, a, direct), block.terminator.MultiSelect?, block.nextBlock);
    }
  }

  lemma StillExplored(g: Graph, h: Graph, done: set<Id>)
    requires Numbered(g) && Numbered(h) && Extends(g, h) && AllExplored(g)
    requires forall b :: h.Finished(b) ==> g.Finished(b) || b in done
    requires forall b :: b in done ==> h.Finished(b) && Explored(h, b)
    ensures AllExplored(h)
  {
    forall b | h.Finished(b) ensures Explored(h, b) {
      if b !in done { ExploredStable(g, h, b); }
    }
  }

  // ---------------------------------------------------------------- one block in progress

  /** Block `a` is being visited and has looked at `ts` so far. */
  ghost predicate Visiting(g: Graph, a: Id, ts: seq<Id>) {
    && a in g.order && g.order[a] == 0 && g.disc.Keys == g.order.Keys
    && g.Succ(a) == Kept(g, a, ts)
    && InOrder(g, a, ts)
    && Cursor(g, a, ts) == |g.post|
  }

  /** The visit of one further target: the callee left `a` alone. */
  ghost predicate LeavesOpen(g: Graph, h: Graph) {
    && Extends(g, h)
    && (forall b :: b in g.order ==> h.order[b] == g.order[b] && h.Succ(b) == g.Succ(b))
    && (forall b :: b in h.order && b !in g.order ==> h.order[b] > |g.post| && h.disc[b] >= |g.post|)
  }

  lemma Unchanged(g: Graph)
    requires Numbered(g)
    ensures LeavesOpen(g, g)
  {
  }

  lemma {:induction false} VisitsOpen(g: Graph, h: Graph, a: Id, ts: seq<Id>)
    requires Numbered(g) && LeavesOpen(g, h) && a in g.order && g.order[a] == 0
    requires InOrder(g, a, ts)
    ensures Cursor(g, a, ts) == Cursor(h, a, ts)
    ensures Kept(g, a, ts) == Kept(h, a, ts)
    ensures InOrder(h, a, ts)
  {
    if ts != [] {
      VisitsOpen(g, h, a, ts[..|ts| - 1]);
    }
  }

  predicate StillOpen(g: Graph, t: Id) { t in g.order && g.order[t] == 0 }

  /** The visit of `t` began no later than that of `a`, on the way to `a`. */
  ghost predicate Encloses(g: Graph, t: Id, a: Id) {
    t in g.disc && a in g.disc && g.disc[t] <= g.disc[a] && OnWayTo(g.func, t, a)
  }

  lemma VisitedOne(g: Graph, h: Graph, a: Id, ts: seq<Id>, t: Id)
    requires Numbered(g) && Visiting(g, a, ts) && LeavesOpen(g, h)
    requires t in h.order
    requires t in g.order ==> |h.post| == |g.post|
    requires t !in g.order ==> h.order[t] == |h.post| && h.disc[t] == |g.post|
    requires StillOpen(g, t) ==> Encloses(g, t, a)
    ensures InOrder(h, a, ts + [t])
    ensures Cursor(h, a, ts + [t]) == |h.post|
    ensures Kept(h, a, ts + [t]) == if h.Finished(t) then AddUnique(h.Succ(a), t) else h.Succ(a)
    ensures !h.Finished(t) ==> Visiting(h, a, ts + [t])
  {
    VisitsOpen(g, h, a, ts);
    assert (ts + [t])[..|ts + [t]| - 1] == ts && (ts + [t])[|ts + [t]| - 1] == t;
    assert t in g.order ==> h.order[t] == g.order[t];
    assert g.Finished(t) ==> g.order[t] <= |g.post|;
  }

  ghost function WithEdge(g: Graph, from: Id, to: Id): Graph {
    g.(pred := g.pred[to := AddUnique(g.Pred(to), from)],
       succ := g.succ[from := AddUnique(g.Succ(from), to)])
  }

  lemma EdgeDescends(g: Graph, a: Id, t: Id)
    requires EdgesDescend(g) && a in g.order && g.order[a] == 0 && g.Finished(t)
    ensures EdgesDescend(WithEdge(g, a, t))
  {
    var h := WithEdge(g, a, t);
    assert forall b :: h.Pred(b) == if b == t then AddUnique(g.Pred(t), a) else g.Pred(b);
    assert forall b :: h.Succ(b) == if b == a then AddUnique(g.Succ(a), t) else g.Succ(b);
    forall x, y ensures x in h.Pred(y) <==> y in h.Succ(x) {
      assert x in g.Pred(y) <==> y in g.Succ(x);
    }
    forall x, y | y in h.Succ(x) ensures h.Before(y, x) {
      assert y in g.Succ(x) || (x == a && y == t);
      assert y in g.Succ(x) ==> g.Before(y, x);
    }
  }

  lemma EdgeExtends(g: Graph, a: Id, t: Id)
    requires Numbered(g) && a in g.order && g.order[a] == 0
    ensures Numbered(WithEdge(g, a, t)) && Extends(g, WithEdge(g, a, t))
  {
    var h := WithEdge(g, a, t);
    assert forall b :: g.Finished(b) <==> h.Finished(b);
    assert forall b :: g.Pred(b) <= h.Pred(b);
  }

  lemma EdgeListed(g: Graph, a: Id, t: Id)
    requires NoEmptyLists(g)
    ensures NoEmptyLists(WithEdge(g, a, t))
  {
  }

  lemma EdgeRoots(g: Graph, a: Id, t: Id, pending: set<Id>)
    requires Rooted(g, pending) && pending <= {t}
    ensures Rooted(WithEdge(g, a, t), {})
  {
    var h := WithEdge(g, a, t);
    forall b | h.Finished(b) && b != h.func.entry ensures h.Pred(b) != [] {
      assert g.Finished(b);
    }
  }

  lemma AlreadyRooted(g: Graph, n: Id, pending: set<Id>)
    requires Rooted(g, pending) && NoEmptyLists(g) && n in g.pred && pending <= {n}
    ensures Rooted(g, {})
  {
    forall b | g.Finished(b) && b != g.func.entry ensures g.Pred(b) != [] {
      assert b == n || b !in pending;
    }
  }

  /** Recording an edge from the block in progress to a finished one keeps the invariant. */
  lemma EdgeRecorded(g: Graph, a: Id, t: Id)
    requires Consistent(g) && a in g.order && g.order[a] == 0 && g.Finished(t)
    ensures Consistent(WithEdge(g, a, t)) && Extends(g, WithEdge(g, a, t))
  {
    hide AddUnique, EdgesDescend, Extends, NoEmptyLists;
    EdgeDescends(g, a, t);
    EdgeExtends(g, a, t);
    EdgeListed(g, a, t);
    StillExplored(g, WithEdge(g, a, t), {});
  }

  ghost function Started(g: Graph, a: Id): Graph {
    g.(order := g.order[a := 0], disc := g.disc[a := |g.post|])
  }

  lemma StartNumbered(g: Graph, a: Id)
    requires Numbered(g) && a in g.func.blocks && a !in g.order
    ensures Numbered(Started(g, a))
  {
    assert forall b :: Started(g, a).Finished(b) <==> g.Finished(b);
  }

  lemma StartExtends(g: Graph, a: Id)
    requires Numbered(g) && a !in g.order
    ensures Extends(g, Started(g, a))
  {
    assert forall b :: Started(g, a).Pred(b) == g.Pred(b) && Started(g, a).Succ(b) == g.Succ(b);
  }

  lemma StartDescends(g: Graph, a: Id)
    requires EdgesDescend(g) && a !in g.order
    ensures EdgesDescend(Started(g, a)) && g.Succ(a) == []
  {
    var h := Started(g, a);
    assert g.Succ(a) == [] by {
      assert |g.Succ(a)| > 0 ==> g.Succ(a)[0] in g.Succ(a);
      assert forall y :: y in g.Succ(a) ==> g.Before(y, a);
    }
    assert forall x :: h.Succ(x) == g.Succ(x) && h.Pred(x) == g.Pred(x);
    forall x, y | y in h.Succ(x) ensures h.Before(y, x) { assert g.Before(y, x); }
  }

  lemma VisitStarted(g: Graph, a: Id)
    requires Consistent(g) && Rooted(g, {}) && a in g.func.blocks && a !in g.order
    ensures Consistent(Started(g, a)) && Rooted(Started(g, a), {}) && Extends(g, Started(g, a))
    ensures Visiting(Started(g, a), a, [])
  {
    StartNumbered(g, a);
    StartExtends(g, a);
    StartDescends(g, a);
    StillExplored(g, Started(g, a), {});
    assert forall b :: Started(g, a).Finished(b) ==> g.Finished(b);
  }

  ghost function Ended(g: Graph, a: Id): Graph {
    g.(order := g.order[a := |g.post| + 1], post := g.post + [a])
  }

  lemma {:induction false} VisitsEnded(g: Graph, a: Id, ts: seq<Id>)
    requires Numbered(g) && a in g.order && g.order[a] == 0 && InOrder(g, a, ts)
    ensures Cursor(g, a, ts) == Cursor(Ended(g, a), a, ts)
    ensures Kept(g, a, ts) == Kept(Ended(g, a), a, ts)
    ensures InOrder(Ended(g, a), a, ts)
  {
    if ts != [] {
      VisitsEnded(g, a, ts[..|ts| - 1]);
    }
  }

  lemma EndNumbered(g: Graph, a: Id)
    requires Numbered(g) && a in g.order && g.order[a] == 0
    ensures Numbered(Ended(g, a))
  {
    var h := Ended(g, a);
    forall b {:trigger h.Finished(b)} | h.Finished(b)
      ensures h.order[b] <= |h.post| && h.post[h.order[b] - 1] == b
    {
      assert b == a || g.Finished(b);
    }
  }

  lemma EndDescends(g: Graph, a: Id)
    requires EdgesDescend(g) && Numbered(g) && a in g.order && g.order[a] == 0
    ensures EdgesDescend(Ended(g, a)) && Extends(g, Ended(g, a))
  {
    var h := Ended(g, a);
    assert forall x :: h.Succ(x) == g.Succ(x) && h.Pred(x) == g.Pred(x);
    forall x, y | y in h.Succ(x) ensures h.Before(y, x) { assert g.Before(y, x); }
  }

  /** `a` is about to get its number: it has looked at everything and its edges are complete. */
  ghost predicate ReadyToEnd(g: Graph, a: Id)
    requires g.disc.Keys == g.order.Keys <= g.func.blocks.Keys && a in g.order
  {
    var block := g.func.blocks[a];
    var direct := block.LoopMerge() + block.BranchTargets();
    && g.order[a] == 0
    && InOrder(g, a, direct)
    && InOrder(g, a, block.VisitTargets())
    && Cursor(g, a, block.VisitTargets()) == |g.post|
    && (if block.merge.MergeSelection?
        then SelectionFixed(g, a, Kept(g, a, direct), block.terminator.MultiSelect?, block.nextBlock)
        else g.Succ(a) == Kept(g, a, direct))
  }

  lemma FixEnded(g: Graph, a: Id, kept: seq<Id>, isSwitch: bool, n: Id)
    requires Numbered(g) && a in g.order && g.order[a] == 0
    requires SelectionFixed(g, a, kept, isSwitch, n)
    ensures SelectionFixed(Ended(g, a), a, kept, isSwitch, n)
  {
    assert g.Finished(n) ==> g.order[n] <= |g.post|;
  }

  lemma EndedExplored(g: Graph, a: Id)
    requires Numbered(g) && a in g.order && ReadyToEnd(g, a)
    ensures g.disc.Keys == Ended(g, a).order.Keys && Explored(Ended(g, a), a)
  {
    var block := g.func.blocks[a];
    var direct := block.LoopMerge() + block.BranchTargets();
    VisitsEnded(g, a, block.VisitTargets());
    VisitsEnded(g, a, direct);
    if block.merge.MergeSelection? {
      FixEnded(g, a, Kept(g, a, direct), block.terminator.MultiSelect?, block.nextBlock);
    }
  }

  lemma EndRooted(g: Graph, a: Id)
    requires Rooted(g, {}) && a in g.order
    ensures Rooted(Ended(g, a), {a})
  {
    var h := Ended(g, a);
    forall b | h.Finished(b) && b != h.func.entry && b !in {a} ensures h.Pred(b) != [] {
      assert g.Finished(b);
    }
  }

  lemma VisitEnded(g: Graph, a: Id)
    requires Consistent(g) && Rooted(g, {}) && a in g.order && g.order[a] == 0 && ReadyToEnd(g, a)
    ensures Consistent(Ended(g, a)) && Rooted(Ended(g, a), {a}) && Extends(g, Ended(g, a))
  {
    hide Rooted, EdgesDescend, AllExplored, Extends, Explored, ReadyToEnd;
    EndNumbered(g, a);
    EndDescends(g, a);
    EndRooted(g, a);
    EndedExplored(g, a);
    assert forall b :: Ended(g, a).Finished(b) ==> g.Finished(b) || b == a;
    hide Numbered;
    StillExplored(g, Ended(g, a), {a});
  }

  // ---------------------------------------------------------------- the blocks in progress

  /** `stack` holds the blocks in progress, each reached from the one before. */
  ghost predicate Stacked(g: Graph, stack: seq<Id>) {
    && g.disc.Keys == g.order.Keys
    && (forall b :: b in stack <==> StillOpen(g, b))
    && (stack != [] ==>
          var top := stack[|stack| - 1];
          && SimplePath(g.func, stack, top) && top in g.disc
          && forall b :: b in stack ==> b in g.disc && g.disc[b] <= g.disc[top])
  }

  /** Block `a` is what the search looks at next. */
  ghost predicate Next(f: Function, stack: seq<Id>, a: Id) {
    if stack == [] then a == f.entry else Step(TargetEdges(f), stack[|stack| - 1], a)
  }

  lemma TargetIsNext(f: Function, stack: seq<Id>, b: Id, t: Id)
    requires f.LeadsTo(b, t) && stack != [] && stack[|stack| - 1] == b
    ensures Next(f, stack, t) && t in f.blocks
  {
  }

  lemma StackKept(g: Graph, h: Graph, stack: seq<Id>)
    requires Stacked(g, stack) && LeavesOpen(g, h)
    ensures Stacked(h, stack)
    ensures forall a :: a in stack ==> a in g.order && h.Succ(a) == g.Succ(a)
  {
    hide SimplePath;
    forall b ensures b in stack <==> StillOpen(h, b) { assert StillOpen(g, b) <==> StillOpen(h, b); }
  }

  lemma StackSame(g: Graph, h: Graph, stack: seq<Id>)
    requires Stacked(g, stack) && h.func == g.func && h.order == g.order && h.disc == g.disc
    ensures Stacked(h, stack)
  {
    hide SimplePath;
    forall b ensures b in stack <==> StillOpen(h, b) { assert StillOpen(g, b) <==> StillOpen(h, b); }
  }

  lemma StackPushed(g: Graph, stack: seq<Id>, a: Id)
    requires Numbered(g) && Stacked(g, stack) && a !in g.order && Next(g.func, stack, a)
    ensures Stacked(Started(g, a), stack + [a])
  {
    var h, more := Started(g, a), stack + [a];
    forall b ensures b in more <==> StillOpen(h, b) {
      assert b in stack <==> StillOpen(g, b);
    }
    assert a !in stack;
    if stack == [] {
      Single(TargetEdges(g.func), a);
    } else {
      Append(TargetEdges(g.func), stack, g.func.entry, stack[|stack| - 1], a);
    }
    hide TargetEdges, Connects;
  }

  /** What is in progress encloses the block on top. */
  lemma TopEnclosed(g: Graph, stack: seq<Id>, t: Id)
    requires Stacked(g, stack) && stack != []
    ensures StillOpen(g, t) ==> Encloses(g, t, stack[|stack| - 1])
  {
    hide SimplePath;
    var top := stack[|stack| - 1];
    assert top in stack;
    if StillOpen(g, t) {
      assert t in stack;
    }
  }

  // ---------------------------------------------------------------- from the start of a visit

  /** `g` is reached from `g0` while block `a`, new since then, is still being visited. */
  ghost predicate Inside(g0: Graph, g: Graph, a: Id) {
    && Extends(g0, g)
    && a !in g0.order && a in g.order && g.order[a] == 0 && g.disc[a] == |g0.post|
    && (forall b :: b in g0.order ==> g.order[b] == g0.order[b] && g.Succ(b) == g0.Succ(b))
    && (forall b :: b in g.order && b !in g0.order && b != a ==>
          g.order[b] > |g0.post| && g.disc[b] >= |g0.post|)
  }

  lemma InsideStarted(g: Graph, a: Id)
    requires Numbered(g) && a !in g.order
    ensures Inside(g, Started(g, a), a)
  {
    StartExtends(g, a);
  }

  lemma InsideStep(g0: Graph, g: Graph, h: Graph, a: Id)
    requires Inside(g0, g, a) && LeavesOpen(g, h)
    ensures Inside(g0, h, a)
    ensures a in h.order && h.order[a] == 0 && g0.order.Keys <= g.order.Keys <= h.order.Keys
  {
    forall b ensures g0.Pred(b) <= h.Pred(b) {
      assert g0.Pred(b) <= g.Pred(b) <= h.Pred(b);
    }
  }

  lemma EdgeChanges(g: Graph, a: Id, t: Id)
    ensures var h := WithEdge(g, a, t);
            && h.func == g.func && h.order == g.order && h.disc == g.disc && h.post == g.post
            && (forall b :: g.Pred(b) <= h.Pred(b)) && forall b :: b != a ==> h.Succ(b) == g.Succ(b)
  {
  }

  lemma InsideEdge(g0: Graph, g: Graph, a: Id, t: Id)
    requires Inside(g0, g, a) && Numbered(g)
    ensures Inside(g0, WithEdge(g, a, t), a)
  {
    EdgeChanges(g, a, t);
    hide Numbered, WithEdge, AddUnique;
    InsideSame(g0, g, WithEdge(g, a, t), a);
  }

  lemma InsideSame(g0: Graph, g: Graph, h: Graph, a: Id)
    requires Inside(g0, g, a)
    requires h.func == g.func && h.order == g.order && h.disc == g.disc && h.post == g.post
    requires (forall b :: g.Pred(b) <= h.Pred(b)) && forall b :: b != a ==> h.Succ(b) == g.Succ(b)
    ensures Inside(g0, h, a)
  {
    hide Graph.Pred;
    assert forall b :: g0.Finished(b) ==> b != a;
    forall b ensures g0.Pred(b) <= h.Pred(b) {
      assert g0.Pred(b) <= g.Pred(b) <= h.Pred(b);
    }
  }

  lemma InsideExtends(g0: Graph, g: Graph, a: Id)
    requires Inside(g0, g, a)
    ensures Extends(g0, Ended(g, a))
  {
    var h := Ended(g, a);
    assert forall b :: h.Pred(b) == g.Pred(b) && h.Succ(b) == g.Succ(b);
    assert g0.post <= g.post <= h.post;
    assert forall b :: g0.Finished(b) ==> b != a;
    hide Graph.Pred, Graph.Succ;
  }

  lemma InsideEnded(g0: Graph, g: Graph, a: Id)
    requires Inside(g0, g, a)
    ensures LeavesOpen(g0, Ended(g, a)) && a in g.disc && g.disc[a] == |g0.post|
  {
    InsideExtends(g0, g, a);
    var h := Ended(g, a);
    assert forall b :: h.Succ(b) == g.Succ(b);
    assert g0.post <= g.post && g.disc.Keys == g.order.Keys;
    hide Extends, Graph.Succ;
  }

  lemma {:induction false} VisitsSame(g: Graph, h: Graph, a: Id, ts: seq<Id>)
    requires g.order == h.order && g.disc == h.disc && g.disc.Keys == g.order.Keys && a in g.order
    requires g.func == h.func
    ensures Cursor(g, a, ts) == Cursor(h, a, ts)
    ensures Kept(g, a, ts) == Kept(h, a, ts)
    ensures InOrder(g, a, ts) <==> InOrder(h, a, ts)
  {
    if ts != [] {
      VisitsSame(g, h, a, ts[..|ts| - 1]);
    }
  }

  lemma EdgeVisited(g: Graph, a: Id, ts: seq<Id>, t: Id)
    requires Numbered(g) && a in g.order && g.order[a] == 0
    requires InOrder(g, a, ts) && Cursor(g, a, ts) == |g.post|
    requires Kept(g, a, ts) == AddUnique(g.Succ(a), t)
    ensures Visiting(WithEdge(g, a, t), a, ts)
  {
    VisitsSame(g, WithEdge(g, a, t), a, ts);
  }

  /** A forward edge to `t`, which the block in progress has just looked at. */
  lemma ForwardEdge(g0: Graph, g: Graph, a: Id, ts: seq<Id>, t: Id, pending: set<Id>, open: seq<Id>)
    requires Consistent(g) && Rooted(g, pending) && pending <= {t} && g.Finished(t)
    requires a in g.order && g.order[a] == 0 && Inside(g0, g, a) && Stacked(g, open)
    requires InOrder(g, a, ts) && Cursor(g, a, ts) == |g.post| && Kept(g, a, ts) == AddUnique(g.Succ(a), t)
    ensures var h := WithEdge(g, a, t);
            && Consistent(h) && Rooted(h, {}) && Inside(g0, h, a) && Stacked(h, open)
            && Visiting(h, a, ts)
  {
    hide EdgesDescend, AllExplored, Numbered, Rooted, InOrder, Kept, Cursor, Inside, Stacked, AddUnique;
    EdgeRecorded(g, a, t);
    EdgeRoots(g, a, t, pending);
    InsideEdge(g0, g, a, t);
    EdgeVisited(g, a, ts, t);
    StackSame(g, WithEdge(g, a, t), open);
  }

  lemma EdgeMapsAgree(g: Graph, a: Id, n: Id)
    requires EdgesDescend(g) && NoEmptyLists(g) && n in g.pred
    ensures g.pred[n] != [] && (a in g.pred[n] <==> n in g.Succ(a))
  {
    assert a in g.Pred(n) <==> n in g.Succ(a);
  }

  lemma MergeNotNeeded(g: Graph, a: Id)
    requires Numbered(g) && a in g.order
    requires var block := g.func.blocks[a];
             !block.merge.MergeSelection? && Visiting(g, a, block.LoopMerge() + block.BranchTargets())
    ensures ReadyToEnd(g, a) && g.order[a] == 0
  {
    var block := g.func.blocks[a];
    assert block.VisitTargets() == block.LoopMerge() + block.BranchTargets();
  }

  /** After looking at the selection merge `n`, the block in progress can be completed once its
      edges satisfy `SelectionFixed`. */
  lemma MergeVisited(g: Graph, h: Graph, k: Graph, a: Id, n: Id)
    requires Numbered(g) && Numbered(h) && LeavesOpen(g, h) && a in g.func.blocks && k.func == g.func
    requires var block := g.func.blocks[a];
             var direct := block.LoopMerge() + block.BranchTargets();
             && block.merge.MergeSelection? && n == block.nextBlock
             && Visiting(g, a, direct)
             && SelectionFixed(k, a, g.Succ(a), block.terminator.MultiSelect?, n)
    requires n in h.order
    requires n in g.order ==> |h.post| == |g.post|
    requires n !in g.order ==> h.order[n] == |h.post| && h.disc[n] == |g.post|
    requires StillOpen(g, n) ==> Encloses(g, n, a)
    requires k.order == h.order && k.disc == h.disc && k.post == h.post
    ensures a in k.order && k.order[a] == 0 && ReadyToEnd(k, a)
  {
    var block := g.func.blocks[a];
    var direct := block.LoopMerge() + block.BranchTargets();
    assert block.VisitTargets() == direct + [n];
    VisitedOne(g, h, a, direct, n);
    VisitsOpen(g, h, a, direct);
    VisitsSame(h, k, a, direct);
    VisitsSame(h, k, a, direct + [n]);
  }

  /** Storing an empty list for a block without predecessors changes nothing. */
  lemma EmptyListAdded(g: Graph, b: Id)
    requires Traversed(g) && b !in g.pred
    ensures Traversed(g.(pred := g.pred[b := []]))
  {
    hide AllExplored, Explored;
    var h := g.(pred := g.pred[b := []]);
    assert forall x :: h.Pred(x) == g.Pred(x);
    SameShape(g, h);
    SameEdges(g, h);
    StillExplored(g, h, {});
  }

  lemma SameShape(g: Graph, h: Graph)
    requires Numbered(g) && h == g.(pred := h.pred)
    requires forall x :: h.Pred(x) == g.Pred(x)
    ensures Numbered(h) && Extends(g, h)
    ensures Rooted(g, {}) ==> Rooted(h, {})
  {
    assert forall x :: g.Finished(x) <==> h.Finished(x);
    assert forall x :: g.Succ(x) == h.Succ(x);
  }

  lemma SameEdges(g: Graph, h: Graph)
    requires EdgesDescend(g) && h == g.(pred := h.pred)
    requires forall x :: h.Pred(x) == g.Pred(x)
    ensures EdgesDescend(h)
  {
    assert forall x :: g.Succ(x) == h.Succ(x);
    forall x, y ensures x in h.Pred(y) <==> y in h.Succ(x) {
      assert x in g.Pred(y) <==> y in g.Succ(x);
    }
    forall x, y | y in h.Succ(x) ensures h.Before(y, x) { assert g.Before(y, x); }
  }
}
