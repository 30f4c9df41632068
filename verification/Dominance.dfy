/** Dominance in a recorded graph, whose edges all lead to lower post-order numbers. */
module Dominance {
  import opened Lists
  import opened Spirv
  import opened Graphs
  import opened Paths

  /** What dominance needs of a finished traversal. */
  ghost predicate Descending(g: Graph) {
    && g.func.entry in g.order
    && (forall b :: b in g.order ==> 0 < g.order[b] <= g.order[g.func.entry])
    && (forall a, b :: a in g.order && b in g.order && g.order[a] == g.order[b] ==> a == b)
    && (forall a, b :: Step(g.succ, a, b) ==> a in g.order && b in g.order && g.order[b] < g.order[a])
    && (forall a, b :: a in g.Pred(b) <==> Step(g.succ, a, b))
    && (forall b :: b in g.order && b != g.func.entry ==> g.Pred(b) != [])
  }

  lemma NumbersAreRanks(g: Graph)
    requires Numbered(g) && g.Finished(g.func.entry) && g.order[g.func.entry] == |g.post|
    requires forall b :: b in g.order ==> g.order[b] > 0
    ensures forall b :: b in g.order ==> 0 < g.order[b] <= g.order[g.func.entry]
    ensures forall a, b :: a in g.order && b in g.order && g.order[a] == g.order[b] ==> a == b
  {
    assert forall b :: b in g.order ==> g.Finished(b);
  }

  lemma TraversedDescends(g: Graph)
    requires Traversed(g)
    ensures Descending(g)
  {
    hide AllExplored, Function.WellFormed;
    NumbersAreRanks(g);
    hide Numbered;
    forall a, b ensures b in g.Succ(a) <==> Step(g.succ, a, b) {}
    forall a, b | Step(g.succ, a, b) ensures a in g.order && b in g.order && g.order[b] < g.order[a] {
      assert b in g.Succ(a) ==> g.Before(b, a);
    }
    forall b | b in g.order && b != g.func.entry ensures g.Pred(b) != [] {
      assert g.Finished(b);
    }
  }

  ghost predicate Dom(g: Graph, d: Id, b: Id) { Dominates(g.succ, g.func.entry, d, b) }

  /** `i` is the immediate dominator of `b`: its last strict dominator. */
  ghost predicate IsIdom(g: Graph, i: Id, b: Id) {
    && i != b && Dom(g, i, b)
    && (forall d :: Dom(g, d, b) && d != b ==> Dom(g, d, i))
  }

  /** `r` is the nearest common dominator of `s`. */
  ghost predicate Nearest(g: Graph, r: Id, s: set<Id>) {
    forall d :: Dom(g, d, r) <==> DominatesAll(g.succ, g.func.entry, d, s)
  }

  // ---------------------------------------------------------------- paths go down

  lemma {:induction false} PathDescends(g: Graph, p: seq<Id>, a: Id, b: Id)
    requires Descending(g) && Connects(g.succ, p, a, b) && (a in g.order || |p| > 1)
    ensures a in g.order && b in g.order
    ensures forall c :: c in p ==> c in g.order && g.order[b] <= g.order[c] <= g.order[a]
    ensures |p| > 1 ==> g.order[b] < g.order[a]
    ensures forall c :: c in p && c != b ==> g.order[b] < g.order[c]
  {
    if |p| > 1 {
      assert Step(g.succ, p[0], p[1]);
      Split(g.succ, p, a, b, 1);
      PathDescends(g, p[1..], p[1], b);
      assert forall c :: c in p ==> c == a || c in p[1..];
    }
  }

  lemma {:induction false} VisitedIsReached(g: Graph, b: Id) returns (p: seq<Id>)
    requires Descending(g) && b in g.order
    ensures Connects(g.succ, p, g.func.entry, b)
    decreases g.order[g.func.entry] - g.order[b]
  {
    if b == g.func.entry {
      p := [b];
    } else {
      var a := g.Pred(b)[0];
      assert a in g.Pred(b);
      assert Step(g.succ, a, b);
      p := VisitedIsReached(g, a);
      Append(g.succ, p, g.func.entry, a, b);
      p := p + [b];
    }
  }

  // ---------------------------------------------------------------- dominators form chains

  lemma DominatorIsHigher(g: Graph, d: Id, b: Id)
    requires Descending(g) && b in g.order && Dom(g, d, b)
    ensures d in g.order && g.order[b] <= g.order[d] && (d != b ==> g.order[b] < g.order[d])
  {
    var p := VisitedIsReached(g, b);
    PathDescends(g, p, g.func.entry, b);
  }

  lemma DominatorsFormChain(g: Graph, d: Id, e: Id, b: Id)
    requires Descending(g) && b in g.order && Dom(g, d, b) && Dom(g, e, b)
    requires d in g.order && e in g.order && g.order[e] <= g.order[d]
    ensures Dom(g, d, e)
  {
    var p := VisitedIsReached(g, b);
    var i :| 0 <= i < |p| && p[i] == e;
    Split(g.succ, p, g.func.entry, b, i);
    var low := p[i..];
    PathDescends(g, low, e, b);
    forall q | Connects(g.succ, q, g.func.entry, e) ensures d in q {
      Join(g.succ, q, low, g.func.entry, e, b);
      assert d in q + low[1..];
      assert d in q || d in low;
    }
  }

  /** Immediate dominators are unique. */
  lemma IdomUnique(g: Graph, i: Id, j: Id, b: Id)
    requires Descending(g) && b in g.order && IsIdom(g, i, b) && IsIdom(g, j, b)
    ensures i == j
  {
    DominatorIsHigher(g, i, b);
    DominatorIsHigher(g, j, b);
    DominatorIsHigher(g, i, j);
    DominatorIsHigher(g, j, i);
  }

  lemma NearestUnique(g: Graph, r: Id, t: Id, s: set<Id>)
    requires Descending(g) && r in g.order && t in g.order
    requires Nearest(g, r, s) && Nearest(g, t, s)
    ensures r == t
  {
    Reflexive(g.succ, g.func.entry, r);
    Reflexive(g.succ, g.func.entry, t);
    assert Dom(g, r, t) && Dom(g, t, r);
    DominatorIsHigher(g, r, t);
    DominatorIsHigher(g, t, r);
  }

  /** Replacing the lower of two blocks by its immediate dominator keeps their common dominators. */
  lemma ClimbOne(g: Graph, i: Id, a: Id, b: Id, d: Id)
    requires Descending(g) && a in g.order && b in g.order && g.order[a] < g.order[b] && IsIdom(g, i, a)
    ensures Dom(g, d, i) && Dom(g, d, b) <==> Dom(g, d, a) && Dom(g, d, b)
  {
    if Dom(g, d, i) {
      Transitive(g.succ, g.func.entry, d, i, a);
    }
    if Dom(g, d, b) {
      DominatorIsHigher(g, d, b);
    }
  }

  /** The immediate dominator is the nearest common dominator of all predecessors. */
  lemma IdomFromPredecessors(g: Graph, i: Id, b: Id)
    requires Descending(g) && b in g.order && b != g.func.entry && i in g.order
    requires Nearest(g, i, Elements(g.Pred(b)))
    ensures IsIdom(g, i, b)
  {
    var preds := Elements(g.Pred(b));
    var a := g.Pred(b)[0];
    assert a in preds && Step(g.succ, a, b);
    Reflexive(g.succ, g.func.entry, i);
    assert Dom(g, i, i);
    assert Dom(g, i, a);
    DominatorIsHigher(g, i, a);
    forall c | Step(g.succ, c, b) ensures Dom(g, i, c) {
      assert c in g.Pred(b);
      assert c in preds;
    }
    StrictDominators(g.succ, g.func.entry, i, b);
    forall d | Dom(g, d, b) && d != b ensures Dom(g, d, i) {
      StrictDominators(g.succ, g.func.entry, d, b);
      forall c | c in preds ensures Dom(g, d, c) { assert Step(g.succ, c, b); }
    }
  }

  lemma PredecessorsFromIdom(g: Graph, i: Id, b: Id)
    requires Descending(g) && b in g.order && b != g.func.entry && IsIdom(g, i, b)
    ensures Nearest(g, i, Elements(g.Pred(b)))
  {
    var preds := Elements(g.Pred(b));
    forall d ensures Dom(g, d, i) <==> DominatesAll(g.succ, g.func.entry, d, preds) {
      if Dom(g, d, i) {
        DominatorIsHigher(g, i, b);
        DominatorIsHigher(g, d, i);
        Transitive(g.succ, g.func.entry, d, i, b);
        StrictDominators(g.succ, g.func.entry, d, b);
      }
      if DominatesAll(g.succ, g.func.entry, d, preds) {
        forall c | Step(g.succ, c, b) ensures Dom(g, d, c) {
          assert c in g.Pred(b);
          assert c in preds;
        }
        var a := g.Pred(b)[0];
        assert a in g.Pred(b);
        DominatorIsHigher(g, d, a);
        StrictDominators(g.succ, g.func.entry, d, b);
      }
    }
  }

  lemma NearestOfOne(g: Graph, b: Id)
    ensures Nearest(g, b, {b})
  {
    assert forall d :: Dom(g, d, b) <==> DominatesAll(g.succ, g.func.entry, d, {b}) by {
      assert b in {b};
    }
  }

  /** Nearest common dominators can be folded one block at a time. */
  lemma NearestFolds(g: Graph, r: Id, s: set<Id>, b: Id, t: Id)
    requires Nearest(g, r, s) && Nearest(g, t, {r, b})
    ensures Nearest(g, t, s + {b})
  {
    forall d ensures Dom(g, d, t) <==> DominatesAll(g.succ, g.func.entry, d, s + {b}) {
      assert r in {r, b} && b in {r, b} && b in s + {b};
      assert Dom(g, d, t) <==> DominatesAll(g.succ, g.func.entry, d, {r, b});
      assert DominatesAll(g.succ, g.func.entry, d, {r, b}) <==> Dom(g, d, r) && Dom(g, d, b);
      assert Dom(g, d, r) <==> DominatesAll(g.succ, g.func.entry, d, s);
      assert DominatesAll(g.succ, g.func.entry, d, s + {b}) ==> DominatesAll(g.succ, g.func.entry, d, s) by {
        assert forall x :: x in s ==> x in s + {b};
      }
    }
  }

  /** The way back: a fold over a set can be redone from its result. */
  lemma NearestPair(g: Graph, r: Id, s: set<Id>, b: Id, t: Id)
    requires Nearest(g, r, s) && Nearest(g, t, s + {b})
    ensures Nearest(g, t, {r, b})
  {
    forall d ensures Dom(g, d, t) <==> DominatesAll(g.succ, g.func.entry, d, {r, b}) {
      assert r in {r, b} && b in {r, b} && b in s + {b};
      assert Dom(g, d, r) <==> DominatesAll(g.succ, g.func.entry, d, s);
      assert DominatesAll(g.succ, g.func.entry, d, s + {b}) ==> DominatesAll(g.succ, g.func.entry, d, s) by {
        assert forall x :: x in s ==> x in s + {b};
      }
      assert Dom(g, d, t) <==> DominatesAll(g.succ, g.func.entry, d, s + {b});
    }
  }

  lemma FirstIsMember(l: seq<Id>)
    ensures l == [] || l[0] in l
  {
  }

  lemma Ranks(g: Graph)
    requires Descending(g)
    ensures g.func.entry in g.order
    ensures forall b :: b in g.order ==> 0 < g.order[b] <= g.order[g.func.entry]
    ensures forall a, b :: a in g.order && b in g.order && g.order[a] == g.order[b] ==> a == b
  {
  }

  lemma PredecessorIsHigher(g: Graph, a: Id, b: Id)
    requires Descending(g) && a in g.Pred(b)
    ensures Step(g.succ, a, b) && a in g.order && b in g.order && g.order[b] < g.order[a]
  {
  }

  lemma EntryHasNoPredecessor(g: Graph)
    requires Descending(g)
    ensures g.Pred(g.func.entry) == []
  {
    FirstIsMember(g.Pred(g.func.entry));
    assert forall a :: a in g.Pred(g.func.entry) ==> Step(g.succ, a, g.func.entry);
  }

  lemma OnlyEntryHasNoPredecessor(g: Graph, b: Id)
    requires Descending(g) && b in g.order && g.Pred(b) == []
    ensures b == g.func.entry
  {
  }

  lemma PostOrderCovers(g: Graph)
    requires Traversed(g)
    ensures 0 !in g.order && g.func.entry in g.order
    ensures forall i :: 0 <= i < |g.post| ==> g.post[i] in g.order && g.order[g.post[i]] == i + 1
    ensures forall b :: b in g.order ==> 0 < g.order[b] <= |g.post|
  {
    hide AllExplored, EdgesDescend, Rooted;
    assert forall b :: b in g.order ==> g.Finished(b);
  }

  // ---------------------------------------------------------------- the dominator tree

  /** Entries of `idom` for the blocks numbered `k` and above are their immediate dominators; the
      entry block stands for itself. */
  ghost predicate IdomTree(g: Graph, idom: map<Id, Id>, k: nat) {
    && idom.Keys <= g.order.Keys
    && (forall b :: b in g.order && g.order[b] >= k ==>
          b in idom && (if b == g.func.entry then idom[b] == b else IsIdom(g, idom[b], b)))
  }

  lemma TreeEntry(g: Graph, idom: map<Id, Id>, k: nat, b: Id)
    requires Descending(g) && IdomTree(g, idom, k) && b in g.order && g.order[b] >= k
    ensures b in idom && idom[b] in g.order
    ensures if b == g.func.entry then idom[b] == b else IsIdom(g, idom[b], b) && g.order[b] < g.order[idom[b]]
  {
    if b != g.func.entry {
      DominatorIsHigher(g, idom[b], b);
    }
  }

  lemma TreeStarts(g: Graph)
    requires Traversed(g)
    ensures IdomTree(g, map[g.func.entry := g.func.entry], |g.post| + 1)
  {
    PostOrderCovers(g);
  }

  lemma TreeComplete(g: Graph, idom: map<Id, Id>)
    requires Descending(g) && IdomTree(g, idom, 1)
    ensures idom.Keys == g.order.Keys
  {
  }

  lemma TreeGrows(g: Graph, idom: map<Id, Id>, more: map<Id, Id>, b: Id)
    requires Descending(g) && b in g.order && IdomTree(g, idom, g.order[b] + 1)
    requires b != g.func.entry && b in more && IsIdom(g, more[b], b)
    requires more.Keys == idom.Keys + {b}
    requires forall c :: c in idom && c != b ==> more[c] == idom[c]
    ensures IdomTree(g, more, g.order[b])
  {
    forall c | c in g.order && g.order[c] >= g.order[b]
      ensures c in more && (if c == g.func.entry then more[c] == c else IsIdom(g, more[c], c))
    {
      assert c == b || g.order[c] >= g.order[b] + 1;
    }
  }

  lemma TreeReachesEntry(g: Graph, idom: map<Id, Id>, b: Id)
    requires Descending(g) && b in g.order && IdomTree(g, idom, g.order[b] + 1)
    requires b == g.func.entry && b in idom && idom[b] == b
    ensures IdomTree(g, idom, g.order[b])
  {
  }

  lemma TreeKeeps(g: Graph, idom: map<Id, Id>, b: Id, i: Id)
    requires b in g.order && IdomTree(g, idom, g.order[b] + 1)
    ensures IdomTree(g, idom[b := i], g.order[b] + 1)
  {
  }

  lemma TreeSame(g: Graph, h: Graph, idom: map<Id, Id>, k: nat)
    requires IdomTree(g, idom, k) && h == g.(pred := h.pred)
    ensures IdomTree(h, idom, k)
  {
    assert forall d, b :: Dom(g, d, b) <==> Dom(h, d, b);
    assert forall i, b :: IsIdom(g, i, b) ==> IsIdom(h, i, b);
  }

  /** `d` is `b` or above it in the dominator tree. */
  ghost predicate AboveInTree(g: Graph, idom: map<Id, Id>, d: Id, b: Id)
    requires Descending(g) && IdomTree(g, idom, 1)
    decreases if b in g.order then g.order[g.func.entry] - g.order[b] else 0
  {
    d == b || (b in g.order && b != g.func.entry && (TreeEntry(g, idom, 1, b); AboveInTree(g, idom, d, idom[b])))
  }

  /** The dominator tree holds all dominators of a visited block, and nothing else. */
  lemma {:induction false} TreeIsDominance(g: Graph, idom: map<Id, Id>, d: Id, b: Id)
    requires Descending(g) && IdomTree(g, idom, 1) && b in g.order
    ensures AboveInTree(g, idom, d, b) <==> Dom(g, d, b)
    decreases g.order[g.func.entry] - g.order[b]
  {
    Reflexive(g.succ, g.func.entry, b);
    if b == g.func.entry {
      if Dom(g, d, b) {
        Single(g.succ, b);
        assert d in [b];
      }
    } else if d != b {
      TreeEntry(g, idom, 1, b);
      TreeIsDominance(g, idom, d, idom[b]);
      if Dom(g, d, idom[b]) {
        Transitive(g.succ, g.func.entry, d, idom[b], b);
      }
    }
  }

  /** Climbing either of two blocks keeps all their common dominators at once. */
  lemma Climb(g: Graph, i: Id, a: Id, b: Id)
    requires Descending(g) && a in g.order && b in g.order && g.order[a] < g.order[b] && IsIdom(g, i, a)
    ensures SameCommon(g, i, b, a, b)
  {
    forall d ensures Dom(g, d, i) && Dom(g, d, b) <==> Dom(g, d, a) && Dom(g, d, b) {
      ClimbOne(g, i, a, b, d);
    }
  }

  ghost predicate SameCommon(g: Graph, a: Id, b: Id, x: Id, y: Id) {
    forall d :: Dom(g, d, a) && Dom(g, d, b) <==> Dom(g, d, x) && Dom(g, d, y)
  }

  lemma CommonMet(g: Graph, a: Id, x: Id, y: Id)
    requires SameCommon(g, a, a, x, y)
    ensures Nearest(g, a, {x, y})
  {
    forall d ensures Dom(g, d, a) <==> DominatesAll(g.succ, g.func.entry, d, {x, y}) {
      assert x in {x, y} && y in {x, y};
    }
  }
}
