/** What a finished traversal says about the function it was run on. */
module Structure {
  import opened Lists
  import opened Spirv
  import opened Graphs
  import opened Paths
  import opened Dominance
  import opened Traversal

  // ---------------------------------------------------------------- reading off one block

  lemma {:induction false} KeptExactly(g: Graph, a: Id, ts: seq<Id>, t: Id)
    ensures t in Kept(g, a, ts) <==> t in ts && g.Before(t, a)
  {
    if ts != [] {
      assert ts == ts[..|ts| - 1] + [ts[|ts| - 1]];
      KeptExactly(g, a, ts[..|ts| - 1], t);
    }
  }

  lemma ExploredAt(g: Graph, a: Id)
    requires Traversed(g) && a in g.order
    ensures a in g.func.blocks && g.Finished(a) && g.disc.Keys == g.order.Keys && Explored(g, a)
  {
    hide EdgesDescend, Rooted;
    assert g.Finished(a);
  }

  lemma FunctionWellFormed(g: Graph)
    requires Traversed(g)
    ensures g.func.WellFormed()
  {
  }

  lemma TargetsVisited(g: Graph, a: Id)
    requires Traversed(g) && a in g.order
    ensures forall t :: t in g.func.blocks[a].VisitTargets() ==> t in g.order
  {
    ExploredAt(g, a);
    InOrderVisited(g, a, g.func.blocks[a].VisitTargets());
  }

  /** Every recorded edge is a branch or a declared merge. */
  lemma EdgeHasReason(g: Graph, a: Id, b: Id)
    requires Traversed(g) && a in g.order && b in g.Succ(a)
    ensures b in g.func.blocks[a].VisitTargets()
  {
    ExploredAt(g, a);
    hide Traversed, InOrder, Cursor, Kept;
    var block := g.func.blocks[a];
    KeptExactly(g, a, block.LoopMerge() + block.BranchTargets(), b);
  }

  lemma SuccessorIsBefore(g: Graph, a: Id, b: Id)
    requires Traversed(g)
    ensures b in g.Succ(a) ==> g.Before(b, a)
  {
    hide Rooted, AllExplored, Numbered;
  }

  /** A branch or loop merge is dropped exactly when its target's final number is not lower. */
  lemma BranchDroppedIff(g: Graph, a: Id, t: Id)
    requires Traversed(g) && a in g.order
    requires t in g.func.blocks[a].LoopMerge() + g.func.blocks[a].BranchTargets()
    ensures t in g.order && (t !in g.Succ(a) <==> g.order[t] >= g.order[a])
  {
    hide Traversed, InOrder, Cursor, Kept;
    ExploredAt(g, a);
    TargetsVisited(g, a);
    var block := g.func.blocks[a];
    assert t in block.VisitTargets();
    ExploredAt(g, t);
    assert t in g.Succ(a) ==> g.Before(t, a) by { SuccessorIsBefore(g, a, t); }
    KeptExactly(g, a, block.LoopMerge() + block.BranchTargets(), t);
  }

  // ---------------------------------------------------------------- which blocks are visited

  lemma {:induction false} ReachedIsVisited(g: Graph, p: seq<Id>, b: Id)
    requires Traversed(g) && Connects(TargetEdges(g.func), p, g.func.entry, b)
    ensures b in g.order
  {
    if |p| > 1 {
      var a := p[|p| - 2];
      assert Step(TargetEdges(g.func), p[|p| - 2], p[|p| - 1]);
      Split(TargetEdges(g.func), p, g.func.entry, b, |p| - 2);
      ReachedIsVisited(g, p[..|p| - 1], a);
      TargetsVisited(g, a);
    }
  }

  /** The traversal visits exactly the blocks reachable through branches and declared merges. */
  lemma VisitsExactlyReachable(g: Graph, b: Id)
    requires Traversed(g)
    ensures b in g.order <==> Reaches(TargetEdges(g.func), g.func.entry, b)
  {
    if b in g.order {
      TraversedDescends(g);
      var p := VisitedIsReached(g, b);
      forall x, y | Step(g.succ, x, y) ensures Step(TargetEdges(g.func), x, y) {
        assert y in g.Succ(x);
        EdgeHasReason(g, x, y);
        ExploredAt(g, x);
      }
      Monotone(g.succ, TargetEdges(g.func), p, g.func.entry, b);
    }
    if Reaches(TargetEdges(g.func), g.func.entry, b) {
      var p :| Connects(TargetEdges(g.func), p, g.func.entry, b);
      ReachedIsVisited(g, p, b);
    }
  }

  // ---------------------------------------------------------------- loop merges come first

  lemma {:induction false} InOrderPrefix(g: Graph, a: Id, ts: seq<Id>, n: nat)
    requires a in g.disc && g.disc.Keys == g.order.Keys && InOrder(g, a, ts) && n <= |ts|
    ensures InOrder(g, a, ts[..n])
  {
    if n < |ts| {
      InOrderPrefix(g, a, ts[..|ts| - 1], n);
      assert ts[..|ts| - 1][..n] == ts[..n];
    } else {
      assert ts[..n] == ts;
    }
  }

  lemma FirstTarget(g: Graph, a: Id, ts: seq<Id>)
    requires a in g.disc && g.disc.Keys == g.order.Keys && InOrder(g, a, ts)
    requires ts != [] && g.Before(ts[0], a)
    ensures g.order[ts[0]] <= g.disc[a] || g.disc[ts[0]] == g.disc[a]
  {
    InOrderPrefix(g, a, ts, 1);
    assert ts[..1] == [ts[0]];
    assert [ts[0]][..0] == [];
  }

  // ---------------------------------------------------------------- targets that are not lower

  /** A branch or declared merge that does not lead to a lower number. */
  ghost predicate Retreats(g: Graph, u: Id, t: Id) {
    && u in g.order && u in g.func.blocks && t in g.func.blocks[u].VisitTargets()
    && t in g.order && g.order[t] >= g.order[u]
  }

  /** Its target was in progress: its visit encloses that of the source, and a way to the source that
      passes no block twice leads through it. */
  lemma RetreatEncloses(g: Graph, u: Id, t: Id)
    requires Traversed(g) && Retreats(g, u, t)
    ensures u in g.disc && t in g.disc && g.disc[t] <= g.disc[u] && g.order[u] <= g.order[t]
    ensures OnWayTo(g.func, t, u)
  {
    hide Traversed, OnWayTo, Kept, Cursor, InOrder, Explored, Block.VisitTargets;
    ExploredAt(g, u);
    LookedAtAll(g, u);
    var ts := g.func.blocks[u].VisitTargets();
    var i :| 0 <= i < |ts| && ts[i] == t;
    InOrderPrefix(g, u, ts, i + 1);
    assert ts[..i + 1][..i] == ts[..i] && ts[..i + 1] == ts[..i] + [t];
    LastInOrder(g, u, ts[..i], t);
  }

  lemma LookedAtAll(g: Graph, a: Id)
    requires Traversed(g) && a in g.order
    ensures a in g.disc && g.disc.Keys == g.order.Keys && a in g.func.blocks && g.order[a] > 0
    ensures InOrder(g, a, g.func.blocks[a].VisitTargets())
  {
    ExploredAt(g, a);
  }

  lemma LastInOrder(g: Graph, a: Id, ts: seq<Id>, t: Id)
    requires a in g.disc && g.disc.Keys == g.order.Keys && InOrder(g, a, ts + [t])
    ensures t in g.order && t in g.disc
    ensures !g.Before(t, a) ==> g.disc[t] <= g.disc[a] && OnWayTo(g.func, t, a)
  {
    hide OnWayTo;
    assert (ts + [t])[|ts + [t]| - 1] == t;
  }

  lemma TargetStep(f: Function, u: Id, t: Id)
    ensures Step(TargetEdges(f), u, t) <==> u in f.blocks && t in f.blocks[u].VisitTargets()
  {
  }

  /** So it closes a cycle. */
  lemma RetreatCloses(g: Graph, u: Id, t: Id) returns (c: seq<Id>)
    requires Traversed(g) && Retreats(g, u, t)
    ensures IsCycle(TargetEdges(g.func), c) && c[0] == t && c[|c| - 1] == u
  {
    hide Traversed, TargetEdges, Step, IsPath, NoDuplicates;
    RetreatEncloses(g, u, t);
    TargetStep(g.func, u, t);
    var s :| SimplePath(g.func, s, u) && t in s;
    var i :| 0 <= i < |s| && s[i] == t;
    CycleClosed(TargetEdges(g.func), s, i);
    c := s[i..];
  }

  lemma MergeFirst(g: Graph, h: Id)
    requires Traversed(g) && h in g.order && g.func.blocks[h].merge.MergeLoop?
    requires g.func.blocks[h].mergeBlock in g.Succ(h)
    ensures var m := g.func.blocks[h].mergeBlock;
            && h in g.disc && m in g.disc && m in g.order && g.order[m] < g.order[h]
            && (g.order[m] <= g.disc[h] || g.disc[m] == g.disc[h])
  {
    ExploredAt(g, h);
    assert g.Before(g.func.blocks[h].mergeBlock, h);
    hide Traversed, Kept, Cursor;
    FirstTarget(g, h, g.func.blocks[h].VisitTargets());
  }

  lemma StartsBelowOwnNumber(g: Graph, x: Id)
    requires Traversed(g) && x in g.order
    ensures x in g.disc && g.disc[x] < g.order[x]
  {
    hide EdgesDescend, Rooted, AllExplored;
  }

  /** `x` was first discovered while `a` was being visited. */
  predicate DiscoveredWithin(g: Graph, x: Id, a: Id) {
    && a in g.order && x in g.order && a in g.disc && x in g.disc
    && g.disc[a] <= g.disc[x] && g.order[x] <= g.order[a]
  }

  /** When the edge from a loop header to its merge block is recorded, the merge block and all that
      it leads to are numbered below every block that the loop body discovers. */
  lemma MergeBelowBody(g: Graph, h: Id, x: Id, y: Id)
    requires Traversed(g) && h in g.order && g.func.blocks[h].merge.MergeLoop?
    requires g.func.blocks[h].mergeBlock in g.Succ(h)
    requires x != h && DiscoveredWithin(g, x, h) && !DiscoveredWithin(g, x, g.func.blocks[h].mergeBlock)
    requires Reaches(g.succ, g.func.blocks[h].mergeBlock, y)
    ensures y in g.order && g.order[y] < g.order[x]
  {
    var m := g.func.blocks[h].mergeBlock;
    TraversedDescends(g);
    MergeFirst(g, h);
    StartsBelowOwnNumber(g, x);
    hide Traversed, Descending;
    var p :| Connects(g.succ, p, m, y);
    PathDescends(g, p, m, y);
  }

  // ---------------------------------------------------------------- field by field

  /** The list of targets, place by place. */
  lemma TargetsInOrder(b: Block)
    ensures var ts, k := b.VisitTargets(), if b.merge.MergeLoop? then 1 else 0;
            && (b.merge.MergeLoop? ==> |ts| > 0 && ts[0] == b.mergeBlock)
            && (b.terminator.Direct? ==> |ts| > k && ts[k] == b.nextBlock)
            && (b.terminator.Select? ==> |ts| > k + 1 && ts[k] == b.trueBlock && ts[k + 1] == b.falseBlock)
            && (b.terminator.MultiSelect? ==>
                  && |ts| >= k + |b.cases| && (forall i :: 0 <= i < |b.cases| ==> ts[k + i] == b.cases[i])
                  && (b.defaultBlock != 0 ==> |ts| > k + |b.cases| && ts[k + |b.cases|] == b.defaultBlock))
            && (b.merge.MergeSelection? ==> |ts| > 0 && ts[|ts| - 1] == b.nextBlock)
    ensures |b.VisitTargets()| ==
              (match b.terminator
               case Direct => 1
               case Select => 2
               case MultiSelect => |b.cases| + (if b.defaultBlock != 0 then 1 else 0)
               case _ => 0)
              + (if b.merge.MergeNone? then 0 else 1)
  {
    if b.terminator.Select? {
      assert b.BranchTargets()[0] == b.trueBlock && b.BranchTargets()[1] == b.falseBlock;
    }
  }

  lemma BranchesByField(b: Block, t: Id)
    ensures t in b.BranchTargets() <==>
              || (b.terminator.Direct? && t == b.nextBlock)
              || (b.terminator.Select? && (t == b.trueBlock || t == b.falseBlock))
              || (b.terminator.MultiSelect? && (t in b.cases || (t == b.defaultBlock && t != 0)))
  {
    if b.terminator.Select? {
      assert b.BranchTargets()[0] == b.trueBlock && b.BranchTargets()[1] == b.falseBlock;
    }
  }

  lemma TargetsByField(b: Block, t: Id)
    ensures t in b.VisitTargets() <==>
              || (b.merge.MergeLoop? && t == b.mergeBlock)
              || t in b.BranchTargets()
              || (b.merge.MergeSelection? && t == b.nextBlock)
  {
    hide Block.BranchTargets;
    assert b.VisitTargets() == b.LoopMerge() + (b.BranchTargets() + b.SelectionMerge());
  }

  /** The blocks that a block branches to or declares as a merge. */
  lemma TargetStepByField(f: Function, a: Id, t: Id)
    ensures Step(TargetEdges(f), a, t) <==>
              a in f.blocks &&
              (var b := f.blocks[a];
               || (b.merge.MergeLoop? && t == b.mergeBlock)
               || (b.terminator.Direct? && t == b.nextBlock)
               || (b.terminator.Select? && (t == b.trueBlock || t == b.falseBlock))
               || (b.terminator.MultiSelect? && (t in b.cases || (t == b.defaultBlock && t != 0)))
               || (b.merge.MergeSelection? && t == b.nextBlock))
  {
    hide Block.BranchTargets, Block.VisitTargets;
    if a in f.blocks {
      BranchesByField(f.blocks[a], t);
      TargetsByField(f.blocks[a], t);
    }
  }

  /** The edge is recorded if and only if it leads to a lower number. */
  predicate RecordedIffLower(g: Graph, a: Id, t: Id) {
    a in g.order && t in g.order && (t in g.Succ(a) <==> g.order[t] < g.order[a])
  }

  lemma DirectTargetRecorded(g: Graph, a: Id, t: Id)
    requires Traversed(g) && a in g.order && a in g.func.blocks
    requires var b := g.func.blocks[a]; t in b.BranchTargets() || (b.merge.MergeLoop? && t == b.mergeBlock)
    ensures RecordedIffLower(g, a, t)
  {
    hide Block.BranchTargets, Traversed;
    var b := g.func.blocks[a];
    assert b.merge.MergeLoop? ==> b.LoopMerge()[0] == b.mergeBlock;
    BranchDroppedIff(g, a, t);
  }

  /** Which edges a finished graph records: a branch or loop merge if and only if its target has the
      lower number. */
  lemma BranchRecordedIffLower(g: Graph, a: Id)
    requires Traversed(g) && a in g.order && a in g.func.blocks
    ensures var b := g.func.blocks[a];
            && (b.merge.MergeLoop? ==> RecordedIffLower(g, a, b.mergeBlock))
            && (b.terminator.Direct? ==> RecordedIffLower(g, a, b.nextBlock))
            && (b.terminator.Select? ==> RecordedIffLower(g, a, b.trueBlock) && RecordedIffLower(g, a, b.falseBlock))
            && (b.terminator.MultiSelect? ==>
                  && (forall i :: 0 <= i < |b.cases| ==> RecordedIffLower(g, a, b.cases[i]))
                  && (b.defaultBlock != 0 ==> RecordedIffLower(g, a, b.defaultBlock)))
  {
    hide Block.BranchTargets, Block.VisitTargets, Traversed, RecordedIffLower;
    var b := g.func.blocks[a];
    forall t | t in b.BranchTargets() ensures RecordedIffLower(g, a, t) {
      DirectTargetRecorded(g, a, t);
    }
    if b.merge.MergeLoop? {
      DirectTargetRecorded(g, a, b.mergeBlock);
    }
    forall t ensures t in b.BranchTargets() <==>
                       || (b.terminator.Direct? && t == b.nextBlock)
                       || (b.terminator.Select? && (t == b.trueBlock || t == b.falseBlock))
                       || (b.terminator.MultiSelect? && (t in b.cases || (t == b.defaultBlock && t != 0)))
    {
      BranchesByField(b, t);
    }
  }

  /** And nothing else, other than the merge block of a selection header. */
  lemma RecordedByField(g: Graph, a: Id, t: Id)
    requires Traversed(g) && a in g.order && t in g.Succ(a)
    ensures t in g.order && g.order[t] < g.order[a] && a in g.func.blocks
    ensures var b := g.func.blocks[a];
            || (b.merge.MergeLoop? && t == b.mergeBlock)
            || (b.terminator.Direct? && t == b.nextBlock)
            || (b.terminator.Select? && (t == b.trueBlock || t == b.falseBlock))
            || (b.terminator.MultiSelect? && (t in b.cases || (t == b.defaultBlock && t != 0)))
            || (b.merge.MergeSelection? && t == b.nextBlock)
  {
    hide InOrder, Cursor, Kept, Block.BranchTargets, Block.VisitTargets, SelectionFixed;
    ExploredAt(g, a);
    EdgeHasReason(g, a, t);
    assert g.Before(t, a);
    BranchesByField(g.func.blocks[a], t);
    TargetsByField(g.func.blocks[a], t);
  }

  /** When the header of a selection is recorded as a predecessor of its merge block: never for a
      higher number; always when the merge block would have no or one way in; always when a switch
      would have one way out; and for a block it does not branch to, only in these cases. */
  lemma SelectionMergeByField(g: Graph, a: Id)
    requires Traversed(g) && a in g.order && a in g.func.blocks && g.func.blocks[a].merge.MergeSelection?
    ensures var b, n := g.func.blocks[a], g.func.blocks[a].nextBlock;
            && n in g.order
            && (g.order[n] >= g.order[a] ==> n !in g.Succ(a))
            && (g.order[n] < g.order[a] ==> n in g.Succ(a) || |g.Pred(n)| >= 2)
            && (g.order[n] < g.order[a] && b.terminator.MultiSelect? && |g.Succ(a)| == 1 ==> g.Succ(a) == [n])
            && (n in g.Succ(a) && n !in b.BranchTargets() && !(b.terminator.MultiSelect? && |g.Succ(a)| == 2) ==>
                  AmongFirstTwo(g.Pred(n), a))
  {
    hide InOrder, Cursor, Kept, Block.BranchTargets;
    ExploredAt(g, a);
    TargetsVisited(g, a);
    var b := g.func.blocks[a];
    var n, kept := b.nextBlock, Kept(g, a, b.LoopMerge() + b.BranchTargets());
    assert b.VisitTargets()[|b.VisitTargets()| - 1] == n;
    KeptExactly(g, a, b.LoopMerge() + b.BranchTargets(), n);
  }

  // ---------------------------------------------------------------- the order of the visits

  predicate IsLeaf(f: Function, b: Id) {
    b in f.blocks && f.blocks[b].terminator.Return? && f.blocks[b].merge.MergeNone?
  }

  lemma LeafNumber(g: Graph, b: Id)
    requires Traversed(g) && b in g.order && IsLeaf(g.func, b)
    ensures b in g.disc && g.order[b] == g.disc[b] + 1
  {
    hide Traversed, InOrder, Kept, SelectionFixed;
    ExploredAt(g, b);
    assert g.func.blocks[b].VisitTargets() == [];
  }

  /** The entry block has different targets, and control ends in each of them. */
  ghost predicate IsStar(f: Function) {
    && f.entry in f.blocks && NoDuplicates(f.blocks[f.entry].VisitTargets())
    && (forall t :: t in f.blocks[f.entry].VisitTargets() ==> IsLeaf(f, t) && t != f.entry)
  }

  lemma NumberedOnce(g: Graph, a: Id, b: Id)
    requires Numbered(g) && g.Finished(a) && b in g.order && g.order[a] == g.order[b]
    ensures a == b
  {
    assert g.Finished(b);
  }

  lemma EntryIsLast(g: Graph)
    requires Traversed(g)
    ensures Numbered(g) && g.Finished(g.func.entry) && g.disc[g.func.entry] == 0
    ensures g.order[g.func.entry] == |g.post| && forall b :: b in g.order ==> g.Finished(b)
  {
    hide Rooted, EdgesDescend, AllExplored;
  }

  /** A leaf that the entry looks at after `n` others, numbered from one up, gets the next number. */
  lemma NextLeaf(g: Graph, ts: seq<Id>, n: nat)
    requires Traversed(g) && IsStar(g.func) && ts == g.func.blocks[g.func.entry].VisitTargets() && n < |ts|
    requires g.func.entry in g.disc && g.disc.Keys == g.order.Keys
    requires InOrder(g, g.func.entry, ts[..n] + [ts[n]]) && Cursor(g, g.func.entry, ts[..n]) == n
    requires forall i :: 0 <= i < n ==> ts[i] in g.order && g.order[ts[i]] == i + 1
    ensures g.Before(ts[n], g.func.entry) && g.order[ts[n]] == n + 1
  {
    hide Traversed, Numbered, Block.VisitTargets, IsLeaf, Kept;
    var entry, t, us := g.func.entry, ts[n], ts[..n] + [ts[n]];
    assert us[..|us| - 1] == ts[..n] && us[|us| - 1] == t;
    EntryIsLast(g);
    LeafNumber(g, t);
    if g.order[t] >= g.order[entry] {
      OrderBounded(g, t);
      NumberedOnce(g, t, entry);
    }
    if g.order[t] <= n {
      NumberedOnce(g, t, ts[g.order[t] - 1]);
      assert false;
    }
  }

  lemma OrderBounded(g: Graph, b: Id)
    requires Numbered(g) && g.Finished(b)
    ensures g.order[b] <= |g.post|
  {
  }

  lemma {:induction false} StarNumbers(g: Graph, ts: seq<Id>, n: nat)
    requires Traversed(g) && IsStar(g.func) && ts == g.func.blocks[g.func.entry].VisitTargets() && n <= |ts|
    ensures g.disc.Keys == g.order.Keys && Cursor(g, g.func.entry, ts[..n]) == n
    ensures forall i :: 0 <= i < n ==> ts[i] in g.order && g.order[ts[i]] == i + 1
  {
    hide Traversed, Numbered, Block.VisitTargets, IsLeaf;
    var entry := g.func.entry;
    EntryIsLast(g);
    LookedAtAll(g, entry);
    if n > 0 {
      StarNumbers(g, ts, n - 1);
      InOrderPrefix(g, entry, ts, n);
      assert ts[..n] == ts[..n - 1] + [ts[n - 1]];
      NextLeaf(g, ts, n - 1);
      assert ts[..n][..n - 1] == ts[..n - 1];
    }
  }

  /** The targets are looked at in the order of the fields: loop merge, branches, selection merge. */
  lemma StarOrder(g: Graph)
    requires Traversed(g) && IsStar(g.func)
    ensures var b, k := g.func.blocks[g.func.entry], if g.func.blocks[g.func.entry].merge.MergeLoop? then 1 else 0;
            && (b.merge.MergeLoop? ==> HasNumber(g, b.mergeBlock, 1))
            && (b.terminator.Direct? ==> HasNumber(g, b.nextBlock, k + 1))
            && (b.terminator.Select? ==> HasNumber(g, b.trueBlock, k + 1) && HasNumber(g, b.falseBlock, k + 2))
            && (b.terminator.MultiSelect? ==>
                  && (forall i :: 0 <= i < |b.cases| ==> HasNumber(g, b.cases[i], k + i + 1))
                  && (b.defaultBlock != 0 ==> HasNumber(g, b.defaultBlock, k + |b.cases| + 1)))
            && (b.merge.MergeSelection? ==> HasNumber(g, b.nextBlock, g.order[g.func.entry] - 1))
  {
    hide Traversed, IsLeaf, NoDuplicates, Block.VisitTargets, Cursor;
    var ts := g.func.blocks[g.func.entry].VisitTargets();
    TargetsInOrder(g.func.blocks[g.func.entry]);
    StarNumbers(g, ts, |ts|);
    assert forall i :: 0 <= i < |ts| ==> HasNumber(g, ts[i], i + 1);
    StarEntry(g);
  }

  predicate HasNumber(g: Graph, b: Id, n: nat) { b in g.order && g.order[b] == n }

  lemma StarEntry(g: Graph)
    requires Traversed(g) && IsStar(g.func)
    ensures g.func.entry in g.order && g.order[g.func.entry] == |g.func.blocks[g.func.entry].VisitTargets()| + 1
  {
    hide Traversed, IsStar, Block.VisitTargets, Block.BranchTargets, Cursor, InOrder, Kept, SelectionFixed;
    EntryIsLast(g);
    ExploredAt(g, g.func.entry);
    var ts := g.func.blocks[g.func.entry].VisitTargets();
    StarNumbers(g, ts, |ts|);
    assert ts[..|ts|] == ts;
  }
}
