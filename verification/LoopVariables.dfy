/** When a variable may be declared in the header of a loop. */
module LoopVariables {
  import opened Lists
  import opened Spirv
  import opened Graphs
  import opened Paths
  import opened Dominance
  import opened Cfg

  // ---------------------------------------------------------------- walk_from

  /** `p` leads from `b` to `x` through blocks outside `seen`, and the operation asks to go on at
      every block before `x`. */
  ghost predicate WalksBy(g: Graph, op: Id -> bool, seen: set<Id>, b: Id, x: Id, p: seq<Id>) {
    && Connects(g.succ, p, b, x)
    && (forall y :: y in p ==> y !in seen)
    && (forall i :: 0 <= i < |p| - 1 ==> op(p[i]))
  }

  ghost predicate WalkReaches(g: Graph, op: Id -> bool, seen: set<Id>, b: Id, x: Id) {
    exists p :: WalksBy(g, op, seen, b, x, p)
  }

  /** The blocks of `done` where the operation asks to go on have all their successors seen. */
  ghost predicate ClosedUnder(g: Graph, op: Id -> bool, done: seq<Id>, seen: set<Id>) {
    forall x, y :: x in done && op(x) && y in g.Succ(x) ==> y in seen
  }

  /** Runs the operation once on every block the walk reaches; `calls` lists them in order. */
  method WalkFrom(cfg: CFG, op: Id -> bool, seen0: set<Id>, block: Id) returns (seen: set<Id>, calls: seq<Id>)
    requires cfg.Valid()
    ensures block in seen && seen == seen0 + Elements(calls)
    ensures NoDuplicates(calls) && forall x :: x in calls ==> x !in seen0
    ensures ClosedUnder(cfg.State(), op, calls, seen)
    ensures forall x :: x in calls ==> WalkReaches(cfg.State(), op, seen0, block, x)
    decreases if block in cfg.visitOrder then cfg.visitOrder[block] else 0
  {
    hide Traversed, Descending, IdomTree, WalkReaches;
    ghost var g := cfg.State();
    assert NoDuplicates([block]);
    hide NoDuplicates;
    seen, calls := seen0, [];
    if block in seen {
      assert Elements<Id>([]) == {};
      return;
    }
    seen := seen + {block};
    calls := [block];
    Here(g, op, seen0, block);
    if op(block) {
      var succ := cfg.GetSucceedingEdges(block);
      for i := 0 to |succ|
        invariant block in seen && seen == seen0 + Elements(calls) && block in calls
        invariant NoDuplicates(calls) && forall x :: x in calls ==> x !in seen0
        invariant forall j :: 0 <= j < i ==> succ[j] in seen
        invariant forall x, y :: x in calls && x != block && op(x) && y in g.Succ(x) ==> y in seen
        invariant forall x :: x in calls ==> WalkReaches(g, op, seen0, block, x)
      {
        EdgeGoesDown(g, block, succ[i]);
        assert Step(g.succ, block, succ[i]);
        var more, added := WalkFrom(cfg, op, seen, succ[i]);
        AllFurther(g, op, seen0, seen, block, succ[i], added);
        StillDistinct(calls, added);
        seen := more;
        calls := calls + added;
      }
    }
  }

  lemma StillDistinct(a: seq<Id>, b: seq<Id>)
    requires NoDuplicates(a) && NoDuplicates(b) && Elements(a) !! Elements(b)
    ensures NoDuplicates(a + b)
  {
    forall i, j | 0 <= i < j < |a + b| ensures (a + b)[i] != (a + b)[j] {
      if i < |a| <= j {
        assert a[i] in Elements(a) && b[j - |a|] in Elements(b);
      }
    }
  }

  lemma Here(g: Graph, op: Id -> bool, seen: set<Id>, b: Id)
    requires b !in seen
    ensures WalkReaches(g, op, seen, b, b)
  {
    assert WalksBy(g, op, seen, b, b, [b]);
  }

  lemma Further(g: Graph, op: Id -> bool, seen0: set<Id>, seen: set<Id>, b: Id, s: Id, x: Id)
    requires b !in seen0 && op(b) && Step(g.succ, b, s) && seen0 <= seen
    requires WalkReaches(g, op, seen, s, x)
    ensures WalkReaches(g, op, seen0, b, x)
  {
    var p :| WalksBy(g, op, seen, s, x, p);
    Single(g.succ, b);
    Append(g.succ, [b], b, b, s);
    Join(g.succ, [b, s], p, b, s, x);
    var q := [b] + p;
    assert [b, s] + p[1..] == q;
    assert WalksBy(g, op, seen0, b, x, q) by {
      assert forall i :: 0 < i < |q| - 1 ==> q[i] == p[i - 1];
    }
  }

  lemma AllFurther(g: Graph, op: Id -> bool, seen0: set<Id>, seen: set<Id>, b: Id, s: Id, added: seq<Id>)
    requires b !in seen0 && op(b) && Step(g.succ, b, s) && seen0 <= seen
    requires forall x :: x in added ==> WalkReaches(g, op, seen, s, x)
    ensures forall x :: x in added ==> WalkReaches(g, op, seen0, b, x)
  {
    forall x | x in added ensures WalkReaches(g, op, seen0, b, x) {
      Further(g, op, seen0, seen, b, s, x);
    }
  }

  lemma {:induction false} WalkedAlong(g: Graph, op: Id -> bool, seen0: set<Id>, seen: set<Id>, calls: seq<Id>,
                                       b: Id, x: Id, p: seq<Id>)
    requires seen == seen0 + Elements(calls) && b in seen && ClosedUnder(g, op, calls, seen)
    requires WalksBy(g, op, seen0, b, x, p)
    ensures x in calls
    decreases |p|
  {
    assert b in p;
    if |p| > 1 {
      assert Step(g.succ, p[0], p[1]);
      assert p[1] in g.Succ(b);
      Split(g.succ, p, b, x, 1);
      assert WalksBy(g, op, seen0, p[1], x, p[1..]) by {
        assert forall i :: 0 <= i < |p[1..]| - 1 ==> p[1..][i] == p[i + 1];
      }
      WalkedAlong(g, op, seen0, seen, calls, p[1], x, p[1..]);
    }
  }

  /** The operation runs on exactly the blocks that the walk can reach from its start. */
  lemma WalkIsExact(g: Graph, op: Id -> bool, seen0: set<Id>, seen: set<Id>, calls: seq<Id>, b: Id, x: Id)
    requires seen == seen0 + Elements(calls) && b in seen && ClosedUnder(g, op, calls, seen)
    requires forall y :: y in calls ==> WalkReaches(g, op, seen0, b, y)
    ensures x in calls <==> WalkReaches(g, op, seen0, b, x)
  {
    if WalkReaches(g, op, seen0, b, x) {
      var p :| WalksBy(g, op, seen0, b, x, p);
      WalkedAlong(g, op, seen0, seen, calls, b, x, p);
    }
  }

  // ---------------------------------------------------------------- the straight line to the header

  /** A chain in which every block has one successor and that successor one predecessor. */
  ghost predicate Chain(g: Graph, c: seq<Id>, a: Id, b: Id) {
    && c != [] && c[0] == a && c[|c| - 1] == b
    && forall i, j :: 0 <= i && j == i + 1 && j < |c| ==> g.Succ(c[i]) == [c[j]] && g.Pred(c[j]) == [c[i]]
  }

  ghost predicate Straight(g: Graph, a: Id, b: Id) {
    exists c :: Chain(g, c, a, b)
  }

  /** The chain from `a` to `b` exists and one of its blocks is in `blocks`. */
  ghost predicate AccessedOnChain(g: Graph, blocks: set<Id>, a: Id, b: Id) {
    exists c :: Chain(g, c, a, b) && exists x :: x in c && x in blocks
  }

  /** What makes a variable accessed in `blocks` and declared in `dominator` a loop variable. */
  ghost predicate LoopVariable(g: Graph, dominator: Id, header: Id, blocks: set<Id>) {
    && AccessedOnChain(g, blocks, dominator, header)
    && header in g.func.blocks
    && (forall x :: Reaches(g.succ, g.func.blocks[header].mergeBlock, x) ==> x !in blocks)
  }

  lemma {:induction false} ChainsAgree(g: Graph, c: seq<Id>, d: seq<Id>, a: Id, b: Id)
    requires Descending(g) && Chain(g, c, a, b) && Chain(g, d, a, b)
    ensures c == d
  {
    ChainDescends(g, c, a, b);
    ChainDescends(g, d, a, b);
    if |c| > 1 && |d| > 1 {
      assert g.Succ(c[0]) == [c[1]] && g.Succ(d[0]) == [d[1]];
      ChainTail(g, c, a, b);
      ChainTail(g, d, a, b);
      ChainsAgree(g, c[1..], d[1..], c[1], b);
    }
    assert c == [c[0]] + c[1..] && d == [d[0]] + d[1..];
  }

  lemma ChainTail(g: Graph, c: seq<Id>, a: Id, b: Id)
    requires Chain(g, c, a, b) && |c| > 1
    ensures Chain(g, c[1..], c[1], b)
  {
    var t := c[1..];
    forall i, j | 0 <= i && j == i + 1 && j < |t| ensures g.Succ(t[i]) == [t[j]] && g.Pred(t[j]) == [t[i]] {
      assert t[i] == c[i + 1] && t[j] == c[j + 1];
    }
  }

  lemma {:induction false} ChainDescends(g: Graph, c: seq<Id>, a: Id, b: Id)
    requires Descending(g) && Chain(g, c, a, b)
    ensures Connects(g.succ, c, a, b) && (|c| > 1 ==> a != b)
  {
    forall i, j | 0 <= i && j == i + 1 && j < |c| ensures Step(g.succ, c[i], c[j]) {
      assert c[j] in g.Succ(c[i]);
    }
    if |c| > 1 {
      PathDescends(g, c, a, b);
    }
  }

  /** Everything that runs from the first block of a chain on runs through its last block: the first
      block dominates the last one, and no other block enters or leaves in between. */
  lemma {:induction false} ChainIsForced(g: Graph, c: seq<Id>, a: Id, b: Id, p: seq<Id>, x: Id)
    requires Chain(g, c, a, b) && Connects(g.succ, p, a, x)
    ensures x in c || b in p
  {
    if |c| > 1 && |p| > 1 {
      assert g.Succ(c[0]) == [c[1]];
      assert Step(g.succ, p[0], p[1]);
      assert p[1] in g.Succ(a);
      ChainTail(g, c, a, b);
      Split(g.succ, p, a, x, 1);
      ChainIsForced(g, c[1..], c[1], b, p[1..], x);
      assert forall y :: y in p[1..] ==> y in p;
      assert forall y :: y in c[1..] ==> y in c;
    } else if |p| == 1 {
      assert x == c[0];
    } else {
      assert b == p[0];
    }
  }

  lemma {:induction false} ChainDominates(g: Graph, c: seq<Id>, a: Id, b: Id)
    requires Descending(g) && a in g.order && Chain(g, c, a, b)
    ensures Dom(g, a, b)
    decreases |c|
  {
    if |c| == 1 {
      Reflexive(g.succ, g.func.entry, a);
    } else {
      var n := |c| - 2;
      assert g.Pred(c[n + 1]) == [c[n]];
      ChainDominates(g, c[..|c| - 1], a, c[n]);
      ChainDescends(g, c, a, b);
      assert b != g.func.entry by { PathDescends(g, c, a, b); }
      forall y | Step(g.succ, y, b) ensures Dom(g, a, y) {
        assert y in g.Pred(b);
      }
      DominatesAfter(g.succ, g.func.entry, a, b);
    }
  }

  /** What makes it right to declare the variable in the loop header: every access that the declaring
      block dominates is in the chain down to the header or below the header, and none is beyond the
      merge block. */
  lemma AccessedInLoopOnly(g: Graph, place: Id, header: Id, blocks: set<Id>, b: Id) returns (c: seq<Id>)
    requires LoopVariable(g, place, header, blocks) && b in blocks && Dom(g, place, b)
    ensures Chain(g, c, place, header) && (b in c || Dom(g, header, b))
    ensures header in g.func.blocks && !Reaches(g.succ, g.func.blocks[header].mergeBlock, b)
  {
    hide Chain, Reaches;
    c :| Chain(g, c, place, header);
    if b !in c {
      forall p | Connects(g.succ, p, g.func.entry, b) ensures header in p {
        var i :| 0 <= i < |p| && p[i] == place;
        Split(g.succ, p, g.func.entry, b, i);
        ChainIsForced(g, c, place, header, p[i..], b);
        assert forall x :: x in p[i..] ==> x in p;
      }
    }
  }

  ghost predicate ChainStep(g: Graph, a: Id, n: Id) {
    g.Succ(a) == [n] && g.Pred(n) == [a]
  }

  lemma Prepend(g: Graph, c: seq<Id>, a: Id, n: Id, b: Id)
    requires Chain(g, c, n, b) && ChainStep(g, a, n)
    ensures Chain(g, [a] + c, a, b)
  {
    var q := [a] + c;
    forall i, j | 0 <= i && j == i + 1 && j < |q| ensures g.Succ(q[i]) == [q[j]] && g.Pred(q[j]) == [q[i]] {
      assert i > 0 ==> q[i] == c[i - 1] && q[j] == c[j - 1];
    }
  }

  lemma StraightUnfold(g: Graph, blocks: set<Id>, a: Id, b: Id)
    requires Descending(g)
    ensures Straight(g, a, a)
    ensures AccessedOnChain(g, blocks, a, a) <==> a in blocks
    ensures AccessedOnChain(g, blocks, a, b) ==> Straight(g, a, b)
    ensures b in blocks && Straight(g, a, b) ==> AccessedOnChain(g, blocks, a, b)
    ensures a != b && Straight(g, a, b) ==> |g.Succ(a)| == 1 && ChainStep(g, a, g.Succ(a)[0])
  {
    assert Chain(g, [a], a, a);
    assert a in [a];
    forall c | Chain(g, c, a, a) ensures c == [a] { ChainsAgree(g, c, [a], a, a); }
    if a != b {
      forall c | Chain(g, c, a, b) ensures |c| > 1 && ChainStep(g, a, c[1]) && Chain(g, c[1..], c[1], b) {
        ChainTail(g, c, a, b);
      }
    }
  }

  lemma StraightStep(g: Graph, blocks: set<Id>, a: Id, n: Id, b: Id)
    requires Descending(g) && a != b && ChainStep(g, a, n)
    ensures Straight(g, a, b) <==> Straight(g, n, b)
    ensures AccessedOnChain(g, blocks, a, b) <==>
              Straight(g, n, b) && (a in blocks || AccessedOnChain(g, blocks, n, b))
  {
    if Straight(g, n, b) {
      var c :| Chain(g, c, n, b);
      Prepend(g, c, a, n, b);
      assert a in [a] + c;
    }
    if AccessedOnChain(g, blocks, n, b) {
      var c, x :| Chain(g, c, n, b) && x in c && x in blocks;
      Prepend(g, c, a, n, b);
      assert x in [a] + c;
    }
    if Straight(g, a, b) {
      var c :| Chain(g, c, a, b);
      ChainTail(g, c, a, b);
    }
    if AccessedOnChain(g, blocks, a, b) {
      var c, x :| Chain(g, c, a, b) && x in c && x in blocks;
      ChainTail(g, c, a, b);
      assert c == [a] + c[1..];
    }
  }

  /** Follows the straight line from the dominator to the loop header, then looks for accesses
      beyond the merge block. */
  method IsLoopVariable(cfg: CFG, dominator0: Id, header: Id, blocks: set<Id>) returns (r: bool)
    requires cfg.Valid() && header in cfg.func.blocks
    ensures r <==> LoopVariable(cfg.State(), dominator0, header, blocks)
  {
    hide Traversed, Descending, IdomTree, Straight, AccessedOnChain, Reaches;
    ghost var g := cfg.State();
    var hasAccessedVariable := header in blocks;
    var dominator := dominator0;
    StraightUnfold(g, blocks, dominator, header);
    while dominator != header
      invariant header in blocks ==> hasAccessedVariable
      invariant AccessedOnChain(g, blocks, dominator0, header) <==>
                  Straight(g, dominator, header)
                  && (hasAccessedVariable || AccessedOnChain(g, blocks, dominator, header))
      decreases if dominator in cfg.visitOrder then cfg.visitOrder[dominator] else 0
    {
      StraightUnfold(g, blocks, dominator, header);
      var accessedHere := dominator in blocks;
      var succ := cfg.GetSucceedingEdges(dominator);
      if |succ| != 1 {
        return false;
      }
      var pred := cfg.GetPrecedingEdges(succ[0]);
      if |pred| != 1 || pred[0] != dominator {
        return false;
      }
      StraightStep(g, blocks, dominator, succ[0], header);
      EdgeGoesDown(g, dominator, succ[0]);
      if accessedHere {
        hasAccessedVariable := true;
      }
      dominator := succ[0];
    }
    StraightUnfold(g, blocks, header, header);
    if !hasAccessedVariable {
      return false;
    }
    var seen, calls := WalkFrom(cfg, _ => true, {}, cfg.func.blocks[header].mergeBlock);
    forall x ensures x in calls <==> Reaches(g.succ, cfg.func.blocks[header].mergeBlock, x) {
      WalkIsExact(g, _ => true, {}, seen, calls, cfg.func.blocks[header].mergeBlock, x);
      WalkReachesAll(g, cfg.func.blocks[header].mergeBlock, x);
    }
    r := true;
    for i := 0 to |calls|
      invariant r <==> forall j :: 0 <= j < i ==> calls[j] !in blocks
    {
      if calls[i] in blocks {
        r := false;
      }
    }
  }

  lemma EdgeGoesDown(g: Graph, a: Id, n: Id)
    requires Descending(g) && n in g.Succ(a)
    ensures a in g.order && n in g.order && g.order[n] < g.order[a]
  {
    assert Step(g.succ, a, n);
  }

  lemma WalkReachesAll(g: Graph, b: Id, x: Id)
    ensures WalkReaches(g, _ => true, {}, b, x) <==> Reaches(g.succ, b, x)
  {
    if Reaches(g.succ, b, x) {
      var p :| Connects(g.succ, p, b, x);
      assert WalksBy(g, _ => true, {}, b, x, p);
    }
  }
}
