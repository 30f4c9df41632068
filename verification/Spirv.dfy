/** The part of the parsed SPIR-V module that control-flow analysis reads: the blocks of one
    function with their terminators and merge declarations. */
module Spirv {

  /** Ids are 32-bit numbers; 0 means "none" and the largest value means "no dominator". */
  type Id = n: nat | n <= 0xffff_ffff

  const NO_DOMINATOR: Id := 0xffff_ffff

  datatype Terminator =
    | Unknown | Direct | Select | MultiSelect
    | Return | Unreachable | Kill | IgnoreIntersection | TerminateRay

  datatype Merge = MergeNone | MergeLoop | MergeSelection

  /** `cases` is the case list already selected by the width of the switch condition. */
  datatype Block = Block(
    terminator: Terminator,
    merge: Merge,
    nextBlock: Id,
    mergeBlock: Id,
    continueBlock: Id,
    trueBlock: Id,
    falseBlock: Id,
    defaultBlock: Id,
    cases: seq<Id>)
  {
    /** The blocks control can pass to, in the order the compiler looks at them. */
    function BranchTargets(): seq<Id> {
      match terminator
      case Direct => [nextBlock]
      case Select => [trueBlock, falseBlock]
      case MultiSelect => cases + (if defaultBlock != 0 then [defaultBlock] else [])
      case _ => []
    }

    function LoopMerge(): seq<Id> {
      if merge.MergeLoop? then [mergeBlock] else []
    }

    function SelectionMerge(): seq<Id> {
      if merge.MergeSelection? then [nextBlock] else []
    }

    /** Every block the depth-first search looks at from here, in order. */
    function VisitTargets(): seq<Id> {
      LoopMerge() + BranchTargets() + SelectionMerge()
    }
  }

  datatype Function = Function(entry: Id, blocks: map<Id, Block>)
  {
    /** What the parser guarantees: known, non-zero blocks and no target outside the function. */
    ghost predicate WellFormed() {
      && entry in blocks
      && 0 !in blocks
      && NO_DOMINATOR !in blocks
      && (forall b, t :: b in blocks && t in blocks[b].VisitTargets() ==> t in blocks)
    }

    /** Block `b` branches to `t` or declares it as a merge block. */
    predicate LeadsTo(b: Id, t: Id) {
      b in blocks && t in blocks && t in blocks[b].VisitTargets()
    }

    lemma TargetsKnown(b: Id)
      requires WellFormed() && b in blocks
      ensures blocks[b].merge.MergeLoop? ==> LeadsTo(b, blocks[b].mergeBlock)
      ensures blocks[b].merge.MergeSelection? ==> LeadsTo(b, blocks[b].nextBlock)
      ensures blocks[b].terminator.Direct? ==> LeadsTo(b, blocks[b].nextBlock)
      ensures blocks[b].terminator.Select? ==> LeadsTo(b, blocks[b].trueBlock) && LeadsTo(b, blocks[b].falseBlock)
      ensures blocks[b].terminator.MultiSelect? ==>
                && (forall i :: 0 <= i < |blocks[b].cases| ==> LeadsTo(b, blocks[b].cases[i]))
                && (blocks[b].defaultBlock != 0 ==> LeadsTo(b, blocks[b].defaultBlock))
      ensures forall t :: t in blocks[b].BranchTargets() ==> LeadsTo(b, t)
    {
      var block := blocks[b];
      var first, all := block.LoopMerge(), block.VisitTargets();
      assert forall t :: t in block.BranchTargets() ==> t in all;
      assert block.merge.MergeLoop? ==> all[0] == block.mergeBlock;
      assert block.merge.MergeSelection? ==> all[|all| - 1] == block.nextBlock;
      assert block.terminator.Direct? ==> block.BranchTargets()[0] == block.nextBlock;
      assert block.terminator.Select? ==>
          block.BranchTargets()[0] == block.trueBlock && block.BranchTargets()[1] == block.falseBlock;
      if block.terminator.MultiSelect? {
        assert forall i :: 0 <= i < |block.cases| ==> block.BranchTargets()[i] == block.cases[i];
        assert block.defaultBlock != 0 ==> block.BranchTargets()[|block.cases|] == block.defaultBlock;
      }
    }
  }
}
