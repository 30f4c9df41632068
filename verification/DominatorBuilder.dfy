/** The accumulator for nearest common dominators that the analyses share. */
module DominatorBuilders {
  import opened Spirv
  import opened Graphs
  import opened Paths
  import opened Dominance
  import opened Structure
  import opened Cfg

  /** Accumulates the nearest common dominator of a set of blocks. */
  class DominatorBuilder {
    const cfg: CFG
    var dominator: Id
    /** The reachable blocks that count so far. */
    ghost var added: set<Id>

    ghost predicate Valid()
      reads this, cfg
    {
      && cfg.Valid()
      && added <= cfg.visitOrder.Keys
      && (dominator == 0 <==> added == {})
      && (dominator != 0 ==> dominator in cfg.visitOrder && Nearest(cfg.State(), dominator, added))
    }

    constructor (cfg: CFG)
      requires cfg.Valid()
      ensures Valid() && this.cfg == cfg && added == {}
    {
      hide CFG.Valid, Nearest;
      this.cfg := cfg;
      dominator := 0;
      added := {};
    }

    method AddBlock(block: Id)
      requires Valid()
      modifies this
      ensures Valid()
      ensures added == if block in cfg.visitOrder then old(added) + {block} else old(added)
    {
      hide Nearest, CFG.Valid, Traversed, Descending, IdomTree;
      ValidMeans(cfg);
      if cfg.GetImmediateDominator(block) == 0 {
        return;
      }
      NearestGrows(cfg.State(), dominator, added, block);
      added := added + {block};
      if dominator == 0 {
        dominator := block;
        return;
      }
      if block != dominator {
        dominator := cfg.FindCommonDominator(block, dominator, 1);
      }
    }

    /** Moves a dominator that branches to a higher-numbered block to the entry block, which is the
        same as adding the entry block. */
    method LiftContinueBlockDominator()
      requires Valid()
      modifies this
      ensures Valid()
      ensures added == if BranchesUp(cfg.State(), old(dominator)) then old(added) + {cfg.func.entry} else old(added)
      ensures dominator == if BranchesUp(cfg.State(), old(dominator)) then cfg.func.entry else old(dominator)
      ensures old(dominator) != 0 ==>
                && old(dominator) in cfg.func.blocks
                && dominator == if NamesHigher(cfg.State(), old(dominator), cfg.func.blocks[old(dominator)])
                                then cfg.func.entry else old(dominator)
    {
      hide Nearest, CFG.Valid, Traversed, Descending, IdomTree, BranchesUp;
      ValidMeans(cfg);
      if dominator == 0 {
        return;
      }
      BranchesUpIff(cfg.State(), dominator);
      hide NamesHigher;
      var backEdgeDominator := BranchesToHigher(cfg, dominator);
      if backEdgeDominator {
        NearestWithEntry(cfg.State(), added);
        added := added + {cfg.func.entry};
        dominator := cfg.func.entry;
      }
    }
  }

  method BranchesToHigher(cfg: CFG, b: Id) returns (higher: bool)
    requires cfg.Valid() && b in cfg.visitOrder
    ensures higher <==> BranchesUp(cfg.State(), b)
  {
    hide CFG.Valid, Traversed, Descending, IdomTree, Block.BranchTargets;
    ValidMeans(cfg);
    BranchTargetsVisited(cfg, b);
    var targets := cfg.func.blocks[b].BranchTargets();
    higher := false;
    for i := 0 to |targets|
      invariant higher <==> exists j :: 0 <= j < i && cfg.visitOrder[targets[j]] > cfg.visitOrder[b]
    {
      if cfg.GetVisitOrder(targets[i]) > cfg.GetVisitOrder(b) {
        higher := true;
      }
    }
  }

  ghost predicate BranchesUp(g: Graph, b: Id) {
    b in g.order && b in g.func.blocks &&
    exists t :: t in g.func.blocks[b].BranchTargets() && t in g.order && g.order[t] > g.order[b]
  }

  predicate IsHigher(g: Graph, t: Id, b: Id) { t in g.order && b in g.order && g.order[t] > g.order[b] }

  /** A branch field of the block `b` names a block with a higher number. */
  predicate NamesHigher(g: Graph, b: Id, block: Block) {
    match block.terminator
    case Direct => IsHigher(g, block.nextBlock, b)
    case Select => IsHigher(g, block.trueBlock, b) || IsHigher(g, block.falseBlock, b)
    case MultiSelect =>
      || (block.defaultBlock != 0 && IsHigher(g, block.defaultBlock, b))
      || exists i :: 0 <= i < |block.cases| && IsHigher(g, block.cases[i], b)
    case _ => false
  }

  lemma BranchesUpIff(g: Graph, b: Id)
    requires b in g.order && b in g.func.blocks
    ensures BranchesUp(g, b) <==> NamesHigher(g, b, g.func.blocks[b])
  {
    hide Block.BranchTargets;
    var block := g.func.blocks[b];
    forall t ensures t in block.BranchTargets() <==>
                       || (block.terminator.Direct? && t == block.nextBlock)
                       || (block.terminator.Select? && (t == block.trueBlock || t == block.falseBlock))
                       || (block.terminator.MultiSelect? && (t in block.cases || (t == block.defaultBlock && t != 0)))
    {
      BranchesByField(block, t);
    }
  }

  lemma BranchTargetsVisited(cfg: CFG, b: Id)
    requires cfg.Valid() && b in cfg.visitOrder
    ensures b in cfg.func.blocks && forall t :: t in cfg.func.blocks[b].BranchTargets() ==> t in cfg.visitOrder
  {
    hide Traversed, Descending, IdomTree;
    ExploredAt(cfg.State(), b);
    TargetsVisited(cfg.State(), b);
    var block := cfg.func.blocks[b];
    assert forall t :: t in block.BranchTargets() ==> t in block.VisitTargets();
  }

  /** The nearest common dominator with one more block is that of the one before and the block. */
  lemma NearestGrows(g: Graph, d: Id, s: set<Id>, b: Id)
    ensures s == {} ==> Nearest(g, b, s + {b})
    ensures Nearest(g, d, s) ==> forall r :: Nearest(g, r, {b, d}) ==> Nearest(g, r, s + {b})
    ensures Nearest(g, d, s) && b == d ==> Nearest(g, d, s + {b})
  {
    hide Nearest;
    NearestOfOne(g, b);
    assert s == {} ==> s + {b} == {b};
    if Nearest(g, d, s) {
      assert {b, d} == {d, b};
      forall r | Nearest(g, r, {b, d}) ensures Nearest(g, r, s + {b}) {
        NearestFolds(g, d, s, b, r);
      }
      if b == d {
        assert {d, b} == {b};
        NearestFolds(g, d, s, b, d);
      }
    }
  }

  lemma OrderWithinBlocks(g: Graph)
    requires Traversed(g)
    ensures g.order.Keys <= g.func.blocks.Keys
  {
    hide AllExplored, EdgesDescend, Rooted;
  }

  lemma Entries(g: Graph, idom: map<Id, Id>)
    requires Traversed(g) && Descending(g) && idom.Keys == g.order.Keys && IdomTree(g, idom, 1)
    ensures 0 !in g.order && g.func.entry in g.order && g.order.Keys <= g.func.blocks.Keys
    ensures forall b :: b in g.order ==> g.order[b] >= 1 && idom[b] in g.order
    ensures !BranchesUp(g, 0)
  {
    hide Traversed, Descending, IdomTree;
    PostOrderCovers(g);
    OrderWithinBlocks(g);
    forall b | b in g.order ensures idom[b] in g.order {
      TreeEntry(g, idom, 1, b);
    }
  }

  /** What a finished graph guarantees about its blocks. */
  lemma ValidMeans(cfg: CFG)
    requires cfg.Valid()
    ensures Traversed(cfg.State()) && Descending(cfg.State()) && IdomTree(cfg.State(), cfg.immediateDominators, 1)
    ensures cfg.immediateDominators.Keys == cfg.visitOrder.Keys
    ensures 0 !in cfg.visitOrder && NO_DOMINATOR !in cfg.visitOrder
    ensures cfg.func.entry in cfg.visitOrder && cfg.visitOrder.Keys <= cfg.func.blocks.Keys
    ensures forall b :: b in cfg.visitOrder ==> cfg.visitOrder[b] >= 1 && cfg.immediateDominators[b] in cfg.visitOrder
    ensures !BranchesUp(cfg.State(), 0) && 0 !in cfg.func.blocks && NO_DOMINATOR !in cfg.func.blocks
  {
    hide IdomTree, Traversed, Descending;
    Entries(cfg.State(), cfg.immediateDominators);
    FunctionWellFormed(cfg.State());
    PostOrderCovers(cfg.State());
    OrderWithinBlocks(cfg.State());
  }

  lemma NearestWithEntry(g: Graph, s: set<Id>)
    requires Descending(g)
    ensures Nearest(g, g.func.entry, s + {g.func.entry})
  {
    var entry := g.func.entry;
    forall d ensures Dom(g, d, entry) <==> DominatesAll(g.succ, entry, d, s + {entry}) {
      assert entry in s + {entry};
      if Dom(g, d, entry) {
        Single(g.succ, entry);
        forall b | b in s + {entry} ensures Dom(g, d, b) {
          EntryDominates(g.succ, entry, b);
        }
      }
    }
  }

  /** The result depends only on which blocks were added, not on their order or repetition. */
  lemma SameBlocksSameDominator(x: DominatorBuilder, y: DominatorBuilder)
    requires x.Valid() && y.Valid() && x.cfg == y.cfg && x.added == y.added
    ensures x.dominator == y.dominator
  {
    if x.dominator != 0 {
      NearestUnique(x.cfg.State(), x.dominator, y.dominator, x.added);
    }
  }
}
