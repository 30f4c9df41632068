/** Which pointer arguments a function must preserve because some way through it leaves them
    unwritten. */
module Preservation {
  import opened Spirv
  import opened Graphs
  import opened Paths
  import opened Dominance
  import opened Structure
  import opened Soundness
  import opened Cfg

  /** `p` leads from `b` to a block without recorded successors and touches no block of `blocks`. */
  ghost predicate EscapesBy(g: Graph, blocks: set<Id>, b: Id, p: seq<Id>) {
    && IsPath(g.succ, p) && p[0] == b && g.Succ(p[|p| - 1]) == []
    && forall x :: x in p ==> x !in blocks
  }

  ghost predicate Escapes(g: Graph, blocks: set<Id>, b: Id) {
    exists p :: EscapesBy(g, blocks, b, p)
  }

  lemma EscapesUnfold(g: Graph, blocks: set<Id>, b: Id)
    ensures Escapes(g, blocks, b) <==>
              b !in blocks && (g.Succ(b) == [] || exists s :: s in g.Succ(b) && Escapes(g, blocks, s))
  {
    if Escapes(g, blocks, b) {
      var p :| EscapesBy(g, blocks, b, p);
      assert b in p;
      if |p| > 1 {
        assert Step(g.succ, p[0], p[1]);
        Split(g.succ, p, b, p[|p| - 1], 1);
        assert EscapesBy(g, blocks, p[1], p[1..]);
        assert p[1] in g.Succ(b);
      }
    }
    if b !in blocks && g.Succ(b) == [] {
      assert EscapesBy(g, blocks, b, [b]);
    }
    if b !in blocks && exists s :: s in g.Succ(b) && Escapes(g, blocks, s) {
      var s :| s in g.Succ(b) && Escapes(g, blocks, s);
      var p :| EscapesBy(g, blocks, s, p);
      Join(g.succ, [b, s], p, b, s, p[|p| - 1]);
      assert EscapesBy(g, blocks, b, [b, s] + p[1..]);
    }
  }

  /** The memoised search: `cache` holds blocks known to have no way out. A failed search leaves all
      successors in it, so none is searched twice. */
  method ExistsUnaccessedPathToReturn(cfg: CFG, block: Id, blocks: set<Id>, cache0: set<Id>)
    returns (found: bool, cache: set<Id>)
    requires cfg.Valid()
    requires forall x :: x in cache0 ==> !Escapes(cfg.State(), blocks, x)
    ensures found <==> Escapes(cfg.State(), blocks, block)
    ensures cache0 <= cache && forall x :: x in cache ==> !Escapes(cfg.State(), blocks, x)
    ensures !found && block !in blocks ==> forall s :: s in cfg.State().Succ(block) ==> s in cache
    decreases if block in cfg.visitOrder then cfg.visitOrder[block] else 0
  {
    hide Traversed, IdomTree, Escapes;
    ghost var g := cfg.State();
    cache := cache0;
    EscapesUnfold(g, blocks, block);
    if block in blocks {
      return false, cache;
    }
    var succ := cfg.GetSucceedingEdges(block);
    if |succ| == 0 {
      return true, cache;
    }
    for i := 0 to |succ|
      invariant forall j :: 0 <= j < i ==> succ[j] in cache
      invariant cache0 <= cache && forall x :: x in cache ==> !Escapes(g, blocks, x)
    {
      if succ[i] !in cache {
        assert Step(g.succ, block, succ[i]);
        found, cache := ExistsUnaccessedPathToReturn(cfg, succ[i], blocks, cache);
        if found {
          return true, cache;
        }
        cache := cache + {succ[i]};
      }
    }
    found := false;
  }

  // ---------------------------------------------------------------- arguments

  datatype Parameter = Parameter(id: Id, pointer: bool, opaqueType: bool, readCount: nat)

  /** The argument is accessed, and some recorded way out writes it nowhere completely. */
  ghost predicate MustPreserve(g: Graph, arg: Parameter, accessed: map<Id, set<Id>>, written: map<Id, set<Id>>) {
    && arg.pointer && !arg.opaqueType && arg.id in accessed
    && (arg.id in written ==> Escapes(g, written[arg.id], g.func.entry))
  }

  /** An argument is to be preserved if and only if it is an accessed pointer to something that is not
      opaque, and either nothing writes it as a whole or some recorded way from the entry to the end of
      the function meets none of the blocks that do. */
  lemma MustPreserveIff(g: Graph, arg: Parameter, accessed: map<Id, set<Id>>, written: map<Id, set<Id>>)
    ensures MustPreserve(g, arg, accessed, written) <==>
              && arg.pointer && !arg.opaqueType && arg.id in accessed
              && (arg.id !in written ||
                  exists p ::
                    && IsPath(g.succ, p) && p[0] == g.func.entry && g.Succ(p[|p| - 1]) == []
                    && forall i :: 0 <= i < |p| ==> p[i] !in written[arg.id])
  {
    if arg.id in written {
      if p :| IsPath(g.succ, p) && p[0] == g.func.entry && g.Succ(p[|p| - 1]) == []
              && forall i :: 0 <= i < |p| ==> p[i] !in written[arg.id]
      {
        assert EscapesBy(g, written[arg.id], g.func.entry, p);
      }
    }
  }

  class FunctionInfo {
    var arguments: seq<Parameter>

    /** Counts a read for exactly the arguments that must be preserved. */
    method AnalyzeParameterPreservation(cfg: CFG, accessed: map<Id, set<Id>>, written: map<Id, set<Id>>)
      requires cfg.Valid()
      modifies this
      ensures |arguments| == |old(arguments)|
      ensures forall i :: 0 <= i < |arguments| ==>
                arguments[i] == (var arg := old(arguments)[i];
                                 if MustPreserve(cfg.State(), arg, accessed, written)
                                 then arg.(readCount := arg.readCount + 1) else arg)
    {
      hide Escapes, CFG.Valid;
      ghost var args0 := arguments;
      ghost var g := cfg.State();
      for i := 0 to |arguments|
        invariant |arguments| == |args0| && cfg.Valid() && cfg.State() == g
        invariant forall j :: 0 <= j < |args0| ==>
                    arguments[j] == (if j < i && MustPreserve(g, args0[j], accessed, written)
                                     then args0[j].(readCount := args0[j].readCount + 1) else args0[j])
      {
        var arg := arguments[i];
        if arg.pointer && !arg.opaqueType && arg.id in accessed {
          if arg.id !in written {
            arguments := arguments[i := arg.(readCount := arg.readCount + 1)];
          } else {
            var found, _ := ExistsUnaccessedPathToReturn(cfg, cfg.func.entry, written[arg.id], {});
            if found {
              arguments := arguments[i := arg.(readCount := arg.readCount + 1)];
            }
          }
        }
      }
    }
  }

  // ---------------------------------------------------------------- what this means for real runs

  /** Merge declarations come right before a branch (SPIR-V Specification, section 2.11). */
  ghost predicate MergesBranch(f: Function) {
    forall b :: b in f.blocks && f.blocks[b].BranchTargets() == [] ==> f.blocks[b].merge.MergeNone?
  }

  /** A run through a reducible function contains a recorded path with the same ends. */
  lemma {:induction false} CutCycles(g: Graph, run: seq<Id>, b: Id) returns (p: seq<Id>)
    requires Traversed(g) && Reducible(g) && Connects(RealEdges(g.func), run, g.func.entry, b)
    ensures Connects(g.succ, p, g.func.entry, b)
    ensures forall x :: x in p ==> x in run
  {
    hide Traversed;
    if |run| == 1 {
      p := run;
    } else {
      var u := run[|run| - 2];
      assert Step(RealEdges(g.func), run[|run| - 2], run[|run| - 1]);
      Split(RealEdges(g.func), run, g.func.entry, b, |run| - 2);
      p := CutCycles(g, run[..|run| - 1], u);
      assert forall x :: x in run[..|run| - 1] ==> x in run;
      assert b in run;
      Monotone(RealEdges(g.func), FullEdges(g), run[..|run| - 1], g.func.entry, u);
      FullPathVisited(g, run[..|run| - 1], u);
      if Step(g.succ, u, b) {
        Append(g.succ, p, g.func.entry, u, b);
        p := p + [b];
      } else {
        assert Dropped(g, u, b);
        var i :| 0 <= i < |p| && p[i] == b;
        Split(g.succ, p, g.func.entry, u, i);
        p := p[..i + 1];
      }
    }
  }

  /** An accessed pointer argument that is not counted as read is completely written on every run
      from the entry to the end of the function. */
  lemma UnpreservedIsWritten(g: Graph, arg: Parameter, accessed: map<Id, set<Id>>, written: map<Id, set<Id>>,
                             run: seq<Id>, exit: Id)
    requires Traversed(g) && Reducible(g) && MergesBranch(g.func)
    requires arg.pointer && !arg.opaqueType && arg.id in accessed && !MustPreserve(g, arg, accessed, written)
    requires Connects(RealEdges(g.func), run, g.func.entry, exit)
    requires exit in g.func.blocks && g.func.blocks[exit].BranchTargets() == []
    ensures arg.id in written && exists x :: x in run && x in written[arg.id]
  {
    var p := CutCycles(g, run, exit);
    ExitHasNoEdges(g, p, exit);
    assert p[0] == g.func.entry && p[|p| - 1] == exit && IsPath(g.succ, p);
    assert !EscapesBy(g, written[arg.id], g.func.entry, p);
  }

  lemma ExitHasNoEdges(g: Graph, p: seq<Id>, exit: Id)
    requires Traversed(g) && MergesBranch(g.func) && Connects(g.succ, p, g.func.entry, exit)
    requires exit in g.func.blocks && g.func.blocks[exit].BranchTargets() == []
    ensures g.Succ(exit) == []
  {
    TraversedDescends(g);
    PathDescends(g, p, g.func.entry, exit);
    ExploredAt(g, exit);
    hide Traversed, Descending, InOrder, Cursor;
    assert Kept(g, exit, []) == [];
  }
}
