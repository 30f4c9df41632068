/** Where local variables are declared. */
module Scopes {
  import opened Spirv
  import opened Graphs
  import opened Paths
  import opened Dominance
  import opened Soundness
  import opened Reducibility
  import opened Cfg
  import opened DominatorBuilders
  import opened Instructions
  import opened Walks
  import opened LoopVariables

  // ---------------------------------------------------------------- may_read_undefined_variable_in_block

  /** Does the block use the variable before, or without, writing it as a whole? */
  predicate MayReadUndefined(ops: seq<Instr>, v: Id) {
    if ops == [] then true
    else
      match ops[0]
      case Store(p, _) => p != v && MayReadUndefined(ops[1..], v)
      case CopyMemory(d, _) => d != v && MayReadUndefined(ops[1..], v)
      case AccessChain(_, b) => b == v || MayReadUndefined(ops[1..], v)
      case Select(_, a, b) => a == v || b == v || MayReadUndefined(ops[1..], v)
      case Phi(_, values) => v in values || MayReadUndefined(ops[1..], v)
      case CopyObject(_, s) => s == v || MayReadUndefined(ops[1..], v)
      case Load(_, p) => p == v || MayReadUndefined(ops[1..], v)
      case Call(_, args) => v in args || MayReadUndefined(ops[1..], v)
      case _ => MayReadUndefined(ops[1..], v)
  }

  /** The instruction reads the variable or lets it be read, as far as the compiler looks. */
  predicate SeenToRead(op: Instr, v: Id) {
    match op
    case AccessChain(_, b) => b == v
    case Select(_, a, b) => a == v || b == v
    case Phi(_, values) => v in values
    case CopyObject(_, s) => s == v
    case Load(_, p) => p == v
    case Call(_, args) => v in args
    case _ => false
  }

  predicate WritesWhole(op: Instr, v: Id) {
    (op.Store? && op.ptr == v) || (op.CopyMemory? && op.dst == v)
  }

  /** The answer is no exactly when a whole write comes before everything seen to read. */
  lemma {:induction false} ReadsUndefinedIff(ops: seq<Instr>, v: Id)
    ensures !MayReadUndefined(ops, v) <==>
              exists k :: 0 <= k < |ops| && WritesWhole(ops[k], v) && forall j :: 0 <= j < k ==> !SeenToRead(ops[j], v)
  {
    if ops != [] {
      var rest := ops[1..];
      ReadsUndefinedIff(rest, v);
      if !MayReadUndefined(rest, v) && !SeenToRead(ops[0], v) {
        var k :| 0 <= k < |rest| && WritesWhole(rest[k], v) && forall j :: 0 <= j < k ==> !SeenToRead(rest[j], v);
        assert ops[k + 1] == rest[k];
        assert forall j :: 0 < j < k + 1 ==> ops[j] == rest[j - 1];
      }
      forall k | 0 < k < |ops| && WritesWhole(ops[k], v) && forall j :: 0 <= j < k ==> !SeenToRead(ops[j], v)
        ensures !MayReadUndefined(rest, v) && !SeenToRead(ops[0], v)
      {
        assert rest[k - 1] == ops[k];
        assert forall j :: 0 <= j < k - 1 ==> rest[j] == ops[j + 1];
      }
    }
  }

  /** The instruction accesses the variable, directly or through an access chain, or selects it by
      OpPhi. */
  predicate Touches(ptrs: Pointers, op: Instr, v: Id) {
    v in AccessedBy(ptrs, op) || (op.Phi? && v in op.values)
  }

  /** The instruction overwrites the variable as a whole, and not by a copy of itself. */
  predicate Overwrites(ptrs: Pointers, op: Instr, v: Id) {
    v in WrittenWholeBy(ptrs, op) && !(op.CopyMemory? && ptrs.Backing(op.src) == v)
  }

  /** What the answer is meant to say: the first access to the variable overwrites it. */
  ghost predicate FirstAccessWrites(ptrs: Pointers, ops: seq<Instr>, v: Id) {
    exists k :: 0 <= k < |ops| && Overwrites(ptrs, ops[k], v) && forall j :: 0 <= j < k ==> !Touches(ptrs, ops[j], v)
  }

  /** What the compiler does not look at: an access through a chain, or as the source of a copy. */
  predicate Unseen(ptrs: Pointers, op: Instr, v: Id) {
    match op
    case Store(p, _) => p != v && ptrs.Backing(p) == v
    case CopyMemory(d, s) => (d != v && ptrs.Backing(d) == v) || ptrs.Backing(s) == v
    case Load(_, p) => p != v && ptrs.Backing(p) == v
    case CopyObject(_, s) => s != v && ptrs.Backing(s) == v
    case Select(_, a, b) => a != v && b != v && (ptrs.Backing(a) == v || ptrs.Backing(b) == v)
    case Call(_, args) => v !in args && exists a :: a in args && ptrs.Backing(a) == v
    case ExtStore(p) => p != v && ptrs.Backing(p) == v
    case _ => false
  }

  /** Such an access comes before every whole write. */
  ghost predicate UnseenFirst(ptrs: Pointers, ops: seq<Instr>, v: Id) {
    exists k :: 0 <= k < |ops| && Unseen(ptrs, ops[k], v) && forall j :: 0 <= j < k ==> !Overwrites(ptrs, ops[j], v)
  }

  /** The variable is first accessed by modf or frexp, which overwrite it; the compiler does not count
      them as writes. */
  ghost predicate ExtStoreFirst(ptrs: Pointers, ops: seq<Instr>, v: Id) {
    exists k :: 0 <= k < |ops| && ops[k] == ExtStore(v) && forall j :: 0 <= j < k ==> !Touches(ptrs, ops[j], v)
  }

  lemma {:induction false} AmongArguments(ptrs: Pointers, args: seq<Id>, v: Id)
    requires v != 0
    ensures v in BehindAll(ptrs, args) <==> exists a :: a in args && ptrs.Backing(a) == v
  {
    if args != [] {
      var n := |args| - 1;
      assert args == args[..n] + [args[n]];
      AmongArguments(ptrs, args[..n], v);
    }
  }

  /** An access is seen to read, unseen, or a whole write. */
  lemma TouchCases(ptrs: Pointers, op: Instr, v: Id)
    requires v in ptrs.vars && v != 0
    ensures Touches(ptrs, op, v) <==> SeenToRead(op, v) || Unseen(ptrs, op, v) || v in WrittenWholeBy(ptrs, op)
    ensures Overwrites(ptrs, op, v) ==> !SeenToRead(op, v) && !Unseen(ptrs, op, v)
    ensures Overwrites(ptrs, op, v) <==> (WritesWhole(op, v) && !Unseen(ptrs, op, v)) || op == ExtStore(v)
    ensures v in WrittenWholeBy(ptrs, op) ==> Overwrites(ptrs, op, v) || Unseen(ptrs, op, v)
  {
    if op.Call? {
      AmongArguments(ptrs, op.args, v);
      assert v in op.args ==> ptrs.Backing(v) == v;
    }
  }

  lemma {:induction false} FirstOverwrite(ptrs: Pointers, ops: seq<Instr>, v: Id, k: nat) returns (f: nat)
    requires k < |ops| && Overwrites(ptrs, ops[k], v)
    ensures f <= k && Overwrites(ptrs, ops[f], v) && forall j :: 0 <= j < f ==> !Overwrites(ptrs, ops[j], v)
  {
    if j :| 0 <= j < k && Overwrites(ptrs, ops[j], v) {
      f := FirstOverwrite(ptrs, ops, v, j);
    } else {
      f := k;
    }
  }

  lemma FirstAccessIfNo(ptrs: Pointers, ops: seq<Instr>, v: Id)
    requires v in ptrs.vars && v != 0 && !MayReadUndefined(ops, v) && !UnseenFirst(ptrs, ops, v)
    ensures FirstAccessWrites(ptrs, ops, v)
  {
    hide MayReadUndefined, SeenToRead, Unseen, Touches, Overwrites, WritesWhole, WrittenWholeBy;
    ReadsUndefinedIff(ops, v);
    var k :| 0 <= k < |ops| && WritesWhole(ops[k], v) && forall j :: 0 <= j < k ==> !SeenToRead(ops[j], v);
    forall i | 0 <= i < |ops|
      ensures WritesWhole(ops[i], v) && !Unseen(ptrs, ops[i], v) ==> Overwrites(ptrs, ops[i], v)
    {
      TouchCases(ptrs, ops[i], v);
    }
    if Unseen(ptrs, ops[k], v) {
      var i :| 0 <= i < k && Overwrites(ptrs, ops[i], v);
      FirstIsAccess(ptrs, ops, v, i);
    } else {
      FirstIsAccess(ptrs, ops, v, k);
    }
  }

  lemma FirstIsAccess(ptrs: Pointers, ops: seq<Instr>, v: Id, k: nat)
    requires v in ptrs.vars && v != 0 && !UnseenFirst(ptrs, ops, v) && k < |ops| && Overwrites(ptrs, ops[k], v)
    requires forall j :: 0 <= j < k ==> !SeenToRead(ops[j], v)
    ensures FirstAccessWrites(ptrs, ops, v)
  {
    hide SeenToRead, Unseen, Touches, Overwrites, WritesWhole, WrittenWholeBy;
    var f := FirstOverwrite(ptrs, ops, v, k);
    forall j | 0 <= j < f ensures !Touches(ptrs, ops[j], v) {
      TouchCases(ptrs, ops[j], v);
    }
  }

  lemma FirstAccessOnlyIf(ptrs: Pointers, ops: seq<Instr>, v: Id)
    requires v in ptrs.vars && v != 0 && FirstAccessWrites(ptrs, ops, v)
    ensures !UnseenFirst(ptrs, ops, v)
    ensures MayReadUndefined(ops, v) ==> ExtStoreFirst(ptrs, ops, v)
  {
    hide MayReadUndefined, SeenToRead, Unseen, Touches, Overwrites, WritesWhole, WrittenWholeBy;
    var k :| 0 <= k < |ops| && Overwrites(ptrs, ops[k], v) && forall j :: 0 <= j < k ==> !Touches(ptrs, ops[j], v);
    forall j | 0 <= j <= k ensures !Unseen(ptrs, ops[j], v) && !SeenToRead(ops[j], v) {
      TouchCases(ptrs, ops[j], v);
    }
    TouchCases(ptrs, ops[k], v);
    ReadsUndefinedIff(ops, v);
  }

  /** When the compiler answers no, the first access overwrites the variable if and only if no unseen
      access comes first. When it answers yes, that happens only for modf and frexp, and then it is
      merely cautious. */
  lemma FirstAccessWritesIff(ptrs: Pointers, ops: seq<Instr>, v: Id)
    requires v in ptrs.vars && v != 0
    ensures FirstAccessWrites(ptrs, ops, v) <==>
              if MayReadUndefined(ops, v) then ExtStoreFirst(ptrs, ops, v) else !UnseenFirst(ptrs, ops, v)
  {
    hide MayReadUndefined, UnseenFirst;
    if FirstAccessWrites(ptrs, ops, v) {
      FirstAccessOnlyIf(ptrs, ops, v);
    }
    if !MayReadUndefined(ops, v) && !UnseenFirst(ptrs, ops, v) {
      FirstAccessIfNo(ptrs, ops, v);
    }
    if ExtStoreFirst(ptrs, ops, v) {
      var k :| 0 <= k < |ops| && ops[k] == ExtStore(v) && forall j :: 0 <= j < k ==> !Touches(ptrs, ops[j], v);
      assert Overwrites(ptrs, ops[k], v);
    }
  }

  /** A variable that is copied elsewhere and only then written passes as written first. */
  lemma CopyGoesUnnoticed(ptrs: Pointers, v: Id, x: Id, c: Id)
    requires v in ptrs.vars && v != 0 && x != v
    ensures var ops := [CopyMemory(x, v), Store(v, c)]; !MayReadUndefined(ops, v) && !FirstAccessWrites(ptrs, ops, v)
  {
    var ops := [CopyMemory(x, v), Store(v, c)];
    assert ops[1..] == [Store(v, c)];
    assert Unseen(ptrs, ops[0], v);
    FirstAccessWritesIff(ptrs, ops, v);
  }

  /** So does one that is loaded through an access chain taken in another block. */
  lemma LoadThroughChainGoesUnnoticed(ptrs: Pointers, v: Id, p: Id, x: Id, c: Id)
    requires v in ptrs.vars && v != 0 && p != v && ptrs.Backing(p) == v
    ensures var ops := [Load(x, p), Store(v, c)]; !MayReadUndefined(ops, v) && !FirstAccessWrites(ptrs, ops, v)
  {
    var ops := [Load(x, p), Store(v, c)];
    assert ops[1..] == [Store(v, c)];
    assert Unseen(ptrs, ops[0], v);
    FirstAccessWritesIff(ptrs, ops, v);
  }

  // ---------------------------------------------------------------- the analysis

  /** `h` is what the walk from `b` finds. */
  ghost predicate LoopOf(g: Graph, b: Id, h: Id) {
    if b !in g.order then h == NO_DOMINATOR
    else exists p :: if h == NO_DOMINATOR then OutsideLoops(g, p, b) else h in g.order && EnclosingLoop(g, h, p, b)
  }

  /** What the parser knows about loops: each continue block with its loop header. */
  datatype Loops = Loops(continueBlocks: set<Id>, headerOf: map<Id, Id>)
  {
    /** Headers are known and dominate their continue blocks (SPIR-V Specification, section 2.11). */
    ghost predicate WellFormed(f: Function) {
      && (forall b :: b in continueBlocks ==> b in headerOf)
      && (forall b :: b in headerOf ==> headerOf[b] in f.blocks && TargetDominates(f, headerOf[b], b))
    }
  }

  /** Loop dominators only lead upwards. */
  ghost predicate LoopsNest(g: Graph, loopDominator: map<Id, Id>) {
    g.func.entry in g.order &&
    forall b :: b in g.order ==>
      b in loopDominator && g.order[b] <= g.order[g.func.entry] &&
      (loopDominator[b] == NO_DOMINATOR
       || (loopDominator[b] in g.order && g.order[b] < g.order[loopDominator[b]]))
  }

  ghost function Outermost(g: Graph, loopDominator: map<Id, Id>, b: Id): (r: Id)
    requires LoopsNest(g, loopDominator) && b in g.order
    ensures r in g.order && loopDominator[r] == NO_DOMINATOR
    decreases g.order[g.func.entry] - g.order[b]
  {
    if loopDominator[b] == NO_DOMINATOR then b else Outermost(g, loopDominator, loopDominator[b])
  }

  /** The visited blocks the declaration has to dominate: the accesses, and the loop header for an
      access in a continue block. */
  ghost function MustDominate(g: Graph, loops: Loops, blocks: set<Id>): set<Id> {
    set b | b in g.order && (b in blocks || exists c :: c in blocks && HeaderFor(loops, c, b))
  }

  ghost predicate HeaderFor(loops: Loops, c: Id, h: Id) {
    c in loops.continueBlocks && c in loops.headerOf && loops.headerOf[c] == h
  }

  class ScopeAnalysis {
    const cfg: CFG
    const body: Body
    const loops: Loops
    var loopDominator: map<Id, Id>
    /** The declaring block of each variable, and the variables that each block declares. */
    var dominator: map<Id, Id>
    var dominatedVariables: map<Id, seq<Id>>
    /** The loop variables of each loop header, sorted. */
    var loopVariables: map<Id, seq<Id>>

    ghost predicate Inputs()
      reads cfg
    {
      cfg.Valid() && body.WellFormed() && body.func == cfg.func && loops.WellFormed(cfg.func)
    }

    constructor (cfg: CFG, body: Body, loops: Loops)
      requires cfg.Valid() && body.WellFormed() && body.func == cfg.func && loops.WellFormed(cfg.func)
      ensures Inputs() && this.cfg == cfg && this.body == body && this.loops == loops
      ensures dominator == map[] && dominatedVariables == map[] && loopVariables == map[]
    {
      hide CFG.Valid, Body.WellFormed, Loops.WellFormed;
      this.cfg, this.body, this.loops := cfg, body, loops;
      loopDominator, dominator, dominatedVariables, loopVariables := map[], map[], map[], map[];
    }

    method FindLoopDominators()
      requires Inputs()
      modifies this`loopDominator
      ensures Inputs() && LoopsNest(cfg.State(), loopDominator)
      ensures forall b :: b in body.blocks ==>
                && b in loopDominator
                && (if b in loops.headerOf && loops.headerOf[b] != b
                    then loopDominator[b] == loops.headerOf[b]
                    else LoopOf(cfg.State(), b, loopDominator[b]))
    {
      hide CFG.Valid, LoopOf, Body.WellFormed, Loops.WellFormed, LoopsNest, EnclosingLoop, OutsideLoops;
      ghost var g := cfg.State();
      for i := 0 to |body.blocks|
        invariant cfg.State() == g && cfg.Valid()
        invariant forall j :: 0 <= j < i ==> var b := body.blocks[j];
                    && b in loopDominator
                    && (if b in loops.headerOf && loops.headerOf[b] != b
                        then loopDominator[b] == loops.headerOf[b]
                        else LoopOf(g, b, loopDominator[b]))
      {
        var b := body.blocks[i];
        if b in loops.headerOf && loops.headerOf[b] != b {
          loopDominator := loopDominator[b := loops.headerOf[b]];
        } else {
          var h, p := FindLoopDominator(cfg, b);
          FoundLoop(g, b, h, p);
          loopDominator := loopDominator[b := h];
        }
      }
      ValidMeans(cfg);
      LoopsDoNest(g, body, loops, loopDominator);
    }

    method OutermostLoop(b: Id) returns (r: Id)
      requires LoopsNest(cfg.State(), loopDominator) && b in cfg.visitOrder
      ensures r == Outermost(cfg.State(), loopDominator, b)
    {
      hide Descending, Traversed;
      r := b;
      while loopDominator[r] != NO_DOMINATOR
        invariant r in cfg.visitOrder
        invariant Outermost(cfg.State(), loopDominator, r) == Outermost(cfg.State(), loopDominator, b)
        decreases cfg.visitOrder[cfg.func.entry] - cfg.visitOrder[r]
      {
        r := loopDominator[r];
      }
    }

    /** Adds the accessing blocks of one variable, in whatever order, with the loop headers of the
        continue blocks among them. */
    method AddAccesses(builder: DominatorBuilder, blocks: set<Id>)
      requires Inputs() && builder.Valid() && builder.cfg == cfg && builder.added == {}
      modifies builder
      ensures builder.Valid() && builder.added == MustDominate(cfg.State(), loops, blocks)
      ensures forall b :: b in builder.added <==>
                b in cfg.visitOrder &&
                (b in blocks ||
                 exists c :: c in blocks && c in loops.continueBlocks && c in loops.headerOf && loops.headerOf[c] == b)
    {
      hide CFG.Valid, Nearest, Body.WellFormed, MustDominate;
      ghost var g := cfg.State();
      var rest := blocks;
      MustDominateNone(g, loops);
      assert blocks - rest == {};
      while rest != {}
        invariant rest <= blocks
        invariant builder.Valid() && Inputs() && cfg.State() == g
        invariant builder.added == MustDominate(g, loops, blocks - rest)
        decreases rest
      {
        var b :| b in rest;
        ghost var done := blocks - rest;
        if b in loops.continueBlocks {
          builder.AddBlock(loops.headerOf[b]);
        }
        builder.AddBlock(b);
        MustDominateOne(g, loops, done, b);
        rest := rest - {b};
        assert blocks - rest == done + {b};
      }
      assert blocks - rest == blocks;
      MustDominateIff(g, loops, blocks);
    }

    /** The block that declares variable `v`, accessed in `blocks`; 0 if no access is reachable. */
    method PlaceVariable(v: Id, blocks: set<Id>, isPhi: bool) returns (place: Id, ghost first: Id, ghost lifted: Id)
      requires Inputs() && LoopsNest(cfg.State(), loopDominator)
      ensures place == 0 <==> MustDominate(cfg.State(), loops, blocks) == {}
      ensures place != 0 ==> Placed(cfg.State(), body, loops, loopDominator, v, blocks, isPhi, first, lifted, place)
    {
      hide CFG.Valid, Traversed, Descending, IdomTree, Nearest, Body.WellFormed, Loops.WellFormed;
      hide LoopsNest, BranchesUp, MustDominate, MayReadUndefined, Outermost;
      ghost var g := cfg.State();
      ValidMeans(cfg);
      var builder := new DominatorBuilder(cfg);
      AddAccesses(builder, blocks);
      first := builder.dominator;
      builder.LiftContinueBlockDominator();
      place, lifted := builder.dominator, builder.dominator;
      if place != 0 && !isPhi {
        var preserve := MayReadUndefined(body.Ops(place), v);
        if preserve {
          place := HoistOutOfLoops(builder);
        }
      }
    }

    /** Declares the accessed local variables, in whatever order. */
    method PlaceVariables(accessed: BlockMap, locals: set<Id>, phis: set<Id>)
      requires Inputs() && LoopsNest(cfg.State(), loopDominator)
      requires dominator == map[] && dominatedVariables == map[]
      modifies this`dominator, this`dominatedVariables
      ensures ListedOnce(dominator, dominatedVariables)
      ensures forall v :: v in dominator <==>
                v in accessed && v in locals && MustDominate(cfg.State(), loops, accessed[v]) != {}
      ensures forall v :: v in dominator ==>
                exists first, lifted ::
                  Placed(cfg.State(), body, loops, loopDominator, v, accessed[v], v in phis,
                         first, lifted, dominator[v])
      ensures forall v, b ::
                v in accessed && v in locals && b in accessed[v] && b in cfg.visitOrder ==> v in dominator
      ensures forall v, b :: v in dominator && b in accessed[v] && b in cfg.visitOrder ==>
              Dom(cfg.State(), dominator[v], b)
      ensures forall v, b ::
                (v in dominator && b in accessed[v] && b in loops.continueBlocks
                 && b in loops.headerOf && loops.headerOf[b] in cfg.visitOrder) ==>
                Dom(cfg.State(), dominator[v], loops.headerOf[b])
    {
      hide CFG.Valid, Body.WellFormed, Loops.WellFormed, LoopsNest, MustDominate, Placed, ListedOnce, Dominates;
      ghost var g := cfg.State();
      ghost var nest := loopDominator;
      var rest := accessed.Keys;
      NothingListed();
      while rest != {}
        invariant rest <= accessed.Keys
        invariant Inputs() && cfg.State() == g && loopDominator == nest
        invariant ListedOnce(dominator, dominatedVariables)
        invariant forall v :: v in dominator <==>
                    v in accessed && v !in rest && v in locals && MustDominate(g, loops, accessed[v]) != {}
        invariant forall v :: v in dominator ==>
                    exists first, lifted ::
                      Placed(g, body, loops, nest, v, accessed[v], v in phis, first, lifted, dominator[v])
        decreases rest
      {
        var v :| v in rest;
        rest := rest - {v};
        if v in locals {
          var place, first, lifted := PlaceVariable(v, accessed[v], v in phis);
          if place != 0 {
            ListOne(dominator, dominatedVariables, v, place);
            dominatedVariables := dominatedVariables[place := ListOf(dominatedVariables, place) + [v]];
            dominator := dominator[v := place];
          }
        }
      }
      AllPlacedDominate(cfg, body, loops, nest, accessed, phis, dominator);
      forall v, b | v in accessed && v in locals && b in accessed[v] && b in cfg.visitOrder ensures v in dominator {
        AccessMustBeDominated(g, loops, accessed[v], b);
      }
    }

    /** The one continue block among the accesses; 0 if there is none, NO_DOMINATOR if there are more. */
    method PotentialLoopVariable(blocks: set<Id>) returns (potential: Id)
      requires 0 !in blocks && NO_DOMINATOR !in blocks
      ensures potential == 0 <==> blocks * loops.continueBlocks == {}
      ensures potential != 0 && potential != NO_DOMINATOR <==> |blocks * loops.continueBlocks| == 1
      ensures |blocks * loops.continueBlocks| == 1 ==> blocks * loops.continueBlocks == {potential}
    {
      potential := 0;
      var rest := blocks;
      ghost var hit: set<Id> := {};
      while rest != {}
        invariant rest <= blocks && hit == (blocks - rest) * loops.continueBlocks
        invariant potential == 0 <==> hit == {}
        invariant potential != 0 && potential != NO_DOMINATOR <==> |hit| == 1
        invariant |hit| == 1 ==> hit == {potential}
        decreases rest
      {
        var b :| b in rest;
        if b in loops.continueBlocks {
          OneMore(hit, b);
          potential := if potential == 0 then b else NO_DOMINATOR;
          hit := hit + {b};
        }
        rest := rest - {b};
        assert hit == (blocks - rest) * loops.continueBlocks;
      }
      assert blocks - rest == blocks;
    }

    /** Marks exactly the placed scalar variables that one continue block accesses and that can be
        declared in the header of its loop. The lists do not depend on the order of the search. */
    method FindLoopVariables(accessed: BlockMap, scalars: set<Id>)
      requires Inputs() && loopVariables == map[] && scalars <= accessed.Keys
      requires forall v :: v in accessed ==> accessed[v] <= cfg.func.blocks.Keys
      modifies this`loopVariables
      ensures forall h :: h in loopVariables ==> Ascending(loopVariables[h])
      ensures forall v, h :: (h in loopVariables && v in loopVariables[h]) <==>
                && v in scalars && v in dominator
                && IsLoopVariableOf(cfg.State(), loops, dominator[v], accessed[v], h)
    {
      hide CFG.Valid, IsLoopVariableOf, Body.WellFormed, Loops.WellFormed;
      ghost var g := cfg.State();
      ghost var placed := dominator;
      var rest := scalars;
      while rest != {}
        invariant rest <= scalars && Inputs() && cfg.State() == g && dominator == placed
        invariant forall h :: h in loopVariables ==> Ascending(loopVariables[h])
        invariant forall v, h :: (h in loopVariables && v in loopVariables[h]) <==>
                    v in scalars && v !in rest && v in placed && IsLoopVariableOf(g, loops, placed[v], accessed[v], h)
        decreases rest
      {
        var v :| v in rest;
        rest := rest - {v};
        if v in dominator {
          var isLoopVariable, header := DecideLoopVariable(dominator[v], accessed[v]);
          if isLoopVariable {
            var before := ListOf(loopVariables, header);
            SortedAscends(before, v);
            loopVariables := loopVariables[header := Sorted(before, v)];
          }
        }
      }
    }

    method DecideLoopVariable(place: Id, blocks: set<Id>) returns (isLoopVariable: bool, header: Id)
      requires Inputs() && blocks <= cfg.func.blocks.Keys
      ensures forall h :: IsLoopVariableOf(cfg.State(), loops, place, blocks, h) <==> isLoopVariable && h == header
    {
      hide CFG.Valid, Traversed, Descending, IdomTree, LoopVariable, Body.WellFormed;
      ValidMeans(cfg);
      var block := PotentialLoopVariable(blocks);
      if block == 0 || block == NO_DOMINATOR {
        return false, 0;
      }
      header := loops.headerOf[block];
      OneContinueBlock(cfg.State(), loops, place, blocks, block);
      isLoopVariable := IsLoopVariable(cfg, place, header, blocks);
    }

    method HoistOutOfLoops(builder: DominatorBuilder) returns (place: Id)
      requires Inputs() && LoopsNest(cfg.State(), loopDominator)
      requires builder.Valid() && builder.cfg == cfg && builder.dominator != 0
      modifies builder
      ensures place in cfg.visitOrder
      ensures Nearest(cfg.State(), place,
                      {old(builder.dominator), Outermost(cfg.State(), loopDominator, old(builder.dominator))})
    {
      hide CFG.Valid, Traversed, Descending, IdomTree, Nearest, Body.WellFormed, Loops.WellFormed, LoopsNest;
      hide Outermost;
      ghost var g := cfg.State();
      ghost var added0 := builder.added;
      ValidMeans(cfg);
      place := builder.dominator;
      var outermost := OutermostLoop(place);
      if outermost != place {
        ghost var lifted := place;
        builder.AddBlock(outermost);
        place := builder.dominator;
        NearestPair(g, lifted, added0, outermost, place);
      } else {
        NearestOfOne(g, place);
        assert {place, outermost} == {place};
      }
    }
  }

  // ---------------------------------------------------------------- all variables

  /** The variable belongs to the header `h` of the one loop whose continue block accesses it. */
  ghost predicate IsLoopVariableOf(g: Graph, loops: Loops, place: Id, blocks: set<Id>, h: Id) {
    && |blocks * loops.continueBlocks| == 1
    && (exists c :: c in blocks && HeaderFor(loops, c, h))
    && LoopVariable(g, place, h, blocks)
  }

  lemma OneContinueBlock(g: Graph, loops: Loops, place: Id, blocks: set<Id>, c: Id)
    requires blocks * loops.continueBlocks == {c} && c in loops.headerOf
    ensures forall h :: IsLoopVariableOf(g, loops, place, blocks, h) <==>
              h == loops.headerOf[c] && LoopVariable(g, place, h, blocks)
  {
    hide LoopVariable;
    assert c in blocks && c in loops.continueBlocks by { assert c in blocks * loops.continueBlocks; }
    assert HeaderFor(loops, c, loops.headerOf[c]);
    forall x, h | x in blocks && HeaderFor(loops, x, h) ensures x == c && h == loops.headerOf[c] {
      assert x in blocks * loops.continueBlocks;
    }
  }

  predicate Ascending(l: seq<Id>) { forall i, j :: 0 <= i < j < |l| ==> l[i] < l[j] }

  /** A sorted list with one more element, sorted again. */
  function Sorted(l: seq<Id>, v: Id): (r: seq<Id>)
    ensures forall x :: x in r <==> x in l || x == v
  {
    if l == [] || v <= l[0] then [v] + l else [l[0]] + Sorted(l[1..], v)
  }

  lemma {:induction false} SortedAscends(l: seq<Id>, v: Id)
    requires Ascending(l) && v !in l
    ensures Ascending(Sorted(l, v))
  {
    if l != [] && v > l[0] {
      var rest := Sorted(l[1..], v);
      SortedAscends(l[1..], v);
      forall i | 0 <= i < |rest| ensures l[0] < rest[i] {
        assert rest[i] in rest;
        assert rest[i] in l[1..] || rest[i] == v;
      }
    }
  }

  function ListOf(m: map<Id, seq<Id>>, b: Id): seq<Id> { if b in m then m[b] else [] }

  /** Every placed variable is listed once, in the block that declares it, and nowhere else. */
  ghost predicate ListedOnce(dominator: map<Id, Id>, dominated: map<Id, seq<Id>>) {
    forall b, v :: multiset(ListOf(dominated, b))[v] == if v in dominator && dominator[v] == b then 1 else 0
  }

  lemma OneMore(s: set<Id>, x: Id)
    requires x !in s
    ensures |s + {x}| == |s| + 1 && (s == {} ==> s + {x} == {x})
    ensures |s| == 0 <==> s == {}
  {
  }

  lemma NothingListed()
    ensures ListedOnce(map[], map[])
  {
  }

  lemma ListOne(dominator: map<Id, Id>, dominated: map<Id, seq<Id>>, v: Id, b: Id)
    requires ListedOnce(dominator, dominated) && v !in dominator
    ensures ListedOnce(dominator[v := b], dominated[b := ListOf(dominated, b) + [v]])
  {
    var l, more := ListOf(dominated, b), dominated[b := ListOf(dominated, b) + [v]];
    forall c, w
      ensures multiset(ListOf(more, c))[w] == if w in dominator[v := b] && dominator[v := b][w] == c then 1 else 0
    {
      assert multiset(ListOf(dominated, c))[w] == if w in dominator && dominator[w] == c then 1 else 0;
      assert multiset(l + [v]) == multiset(l) + multiset{v};
    }
  }

  /** The declaring block dominates every visited block that accesses the variable. */
  lemma PlacedDominates(g: Graph, body: Body, loops: Loops, loopDominator: map<Id, Id>, v: Id, blocks: set<Id>,
                        isPhi: bool, first: Id, lifted: Id, place: Id, b: Id)
    requires Descending(g) && Placed(g, body, loops, loopDominator, v, blocks, isPhi, first, lifted, place)
    requires b in MustDominate(g, loops, blocks)
    ensures Dom(g, place, b)
  {
    hide Descending, MayReadUndefined, MustDominate, LoopsNest, Outermost, BranchesUp;
    Reflexive(g.succ, g.func.entry, first);
    Reflexive(g.succ, g.func.entry, place);
    assert Dom(g, first, first) && Dom(g, first, b);
    EntryDominates(g.succ, g.func.entry, b);
    assert Dom(g, lifted, b);
    assert Dom(g, place, lifted) by {
      assert Dom(g, place, place);
      assert LoopsNest(g, loopDominator) ==> lifted in {lifted, Outermost(g, loopDominator, lifted)};
    }
    Transitive(g.succ, g.func.entry, place, lifted, b);
  }

  /** In structured control flow, no run reaches an access before the block that declares the
      variable. */
  lemma DeclaredBeforeUse(g: Graph, idom: map<Id, Id>, body: Body, loops: Loops, loopDominator: map<Id, Id>, v: Id,
                          blocks: set<Id>, isPhi: bool, first: Id, lifted: Id, place: Id, b: Id, run: seq<Id>)
    requires Traversed(g) && IdomTree(g, idom, 1) && Reducible(g)
    requires Placed(g, body, loops, loopDominator, v, blocks, isPhi, first, lifted, place) && b in blocks
    requires Connects(RealEdges(g.func), run, g.func.entry, b)
    ensures place in run
  {
    hide Traversed, Descending, IdomTree, Reducible, Placed;
    TraversedDescends(g);
    Monotone(RealEdges(g.func), FullEdges(g), run, g.func.entry, b);
    FullPathVisited(g, run, b);
    PlacedDominates(g, body, loops, loopDominator, v, blocks, isPhi, first, lifted, place, b);
    DominatorsHoldOnRuns(g, idom, place, b, run);
  }

  lemma AllPlacedDominate(cfg: CFG, body: Body, loops: Loops, nest: map<Id, Id>, accessed: BlockMap, phis: set<Id>,
                          dominator: map<Id, Id>)
    requires cfg.Valid() && dominator.Keys <= accessed.Keys
    requires forall v :: v in dominator ==>
               exists first, lifted ::
                 Placed(cfg.State(), body, loops, nest, v, accessed[v], v in phis, first, lifted, dominator[v])
    ensures forall v, b :: v in dominator && b in accessed[v] && b in cfg.visitOrder ==>
              Dom(cfg.State(), dominator[v], b)
    ensures forall v, b ::
              (v in dominator && b in accessed[v] && b in loops.continueBlocks
               && b in loops.headerOf && loops.headerOf[b] in cfg.visitOrder) ==>
              Dom(cfg.State(), dominator[v], loops.headerOf[b])
  {
    hide CFG.Valid, Traversed, Descending, IdomTree, Placed, MustDominate, Dominates;
    ValidMeans(cfg);
    var g := cfg.State();
    forall v, b | v in dominator && b in accessed[v] && b in loops.continueBlocks
        && b in loops.headerOf && loops.headerOf[b] in cfg.visitOrder
      ensures Dom(g, dominator[v], loops.headerOf[b])
    {
      var h := loops.headerOf[b];
      var first, lifted :| Placed(g, body, loops, nest, v, accessed[v], v in phis, first, lifted, dominator[v]);
      HeaderMustBeDominated(g, loops, accessed[v], b);
      PlacedDominates(g, body, loops, nest, v, accessed[v], v in phis, first, lifted, dominator[v], h);
    }
    forall v, b | v in dominator && b in accessed[v] && b in cfg.visitOrder ensures Dom(g, dominator[v], b) {
      var first, lifted :| Placed(g, body, loops, nest, v, accessed[v], v in phis, first, lifted, dominator[v]);
      AccessMustBeDominated(g, loops, accessed[v], b);
      PlacedDominates(g, body, loops, nest, v, accessed[v], v in phis, first, lifted, dominator[v], b);
    }
  }

  lemma AccessMustBeDominated(g: Graph, loops: Loops, blocks: set<Id>, b: Id)
    requires b in g.order && b in blocks
    ensures b in MustDominate(g, loops, blocks)
  {
  }

  lemma MustDominateIff(g: Graph, loops: Loops, blocks: set<Id>)
    ensures forall b :: b in MustDominate(g, loops, blocks) <==>
              b in g.order &&
              (b in blocks ||
               exists c :: c in blocks && c in loops.continueBlocks && c in loops.headerOf && loops.headerOf[c] == b)
  {
    assert forall c, b :: c in blocks && c in loops.continueBlocks && c in loops.headerOf && loops.headerOf[c] == b ==>
        HeaderFor(loops, c, b);
  }

  lemma HeaderMustBeDominated(g: Graph, loops: Loops, blocks: set<Id>, b: Id)
    requires b in blocks && b in loops.continueBlocks && b in loops.headerOf && loops.headerOf[b] in g.order
    ensures loops.headerOf[b] in MustDominate(g, loops, blocks)
  {
    assert HeaderFor(loops, b, loops.headerOf[b]);
  }

  /** A block other than the entry that declares a variable, before hoisting, names no block with a
      higher number as a branch target; and only for such a target is the nearest block given up. */
  lemma PlacedIsLifted(g: Graph, body: Body, loops: Loops, loopDominator: map<Id, Id>, v: Id, blocks: set<Id>,
                       isPhi: bool, first: Id, lifted: Id, place: Id)
    requires Placed(g, body, loops, loopDominator, v, blocks, isPhi, first, lifted, place)
    requires first in g.func.blocks && lifted in g.func.blocks
    ensures lifted == g.func.entry || !NamesHigher(g, lifted, g.func.blocks[lifted])
    ensures lifted != first ==> lifted == g.func.entry && NamesHigher(g, first, g.func.blocks[first])
  {
    hide Nearest, MustDominate, MayReadUndefined, LoopsNest, BranchesUp, NamesHigher;
    BranchesUpIff(g, first);
    BranchesUpIff(g, lifted);
  }

  /** Nor is the variable declared further up than needed: unless it is hoisted, its block is dominated
      by whatever dominates the visited blocks that access it and the headers of the loops whose
      continue blocks do. */
  lemma PlacedIsNearest(g: Graph, body: Body, loops: Loops, loopDominator: map<Id, Id>, v: Id, blocks: set<Id>,
                        isPhi: bool, first: Id, lifted: Id, place: Id, d: Id)
    requires Placed(g, body, loops, loopDominator, v, blocks, isPhi, first, lifted, place)
    requires forall b :: b in blocks && b in g.order ==> Dom(g, d, b)
    requires forall b :: (b in blocks && b in loops.continueBlocks && b in loops.headerOf
                          && loops.headerOf[b] in g.order) ==> Dom(g, d, loops.headerOf[b])
    ensures Dom(g, d, first)
    ensures !BranchesUp(g, first) && (isPhi || !MayReadUndefined(body.Ops(first), v)) ==> place == first
  {
    hide Dominates, MayReadUndefined, BranchesUp, LoopsNest;
    forall b | b in MustDominate(g, loops, blocks) ensures Dom(g, d, b) {
    }
  }

  lemma MustDominateNone(g: Graph, loops: Loops)
    ensures MustDominate(g, loops, {}) == {}
  {
  }

  lemma MustDominateOne(g: Graph, loops: Loops, done: set<Id>, b: Id)
    requires b in loops.continueBlocks ==> b in loops.headerOf
    ensures MustDominate(g, loops, done + {b}) ==
            MustDominate(g, loops, done)
            + (if b in loops.continueBlocks && loops.headerOf[b] in g.order then {loops.headerOf[b]} else {})
            + (if b in g.order then {b} else {})
  {
    forall c, h | c in done + {b} && HeaderFor(loops, c, h) ensures c in done || (c == b && h == loops.headerOf[b]) {
    }
    assert b in done + {b};
    assert b in loops.continueBlocks ==> HeaderFor(loops, b, loops.headerOf[b]);
    assert forall c :: c in done ==> c in done + {b};
  }

  /** How the declaring block comes about: `first` is the nearest common dominator of all that it
      must dominate; `lifted` is `first`, or the entry block if `first` branches upwards; unless the
      block of `lifted` starts by writing the variable, the outermost loop around it counts too. */
  ghost predicate Placed(g: Graph, body: Body, loops: Loops, loopDominator: map<Id, Id>, v: Id, blocks: set<Id>,
                         isPhi: bool, first: Id, lifted: Id, place: Id)
  {
    && first in g.order && lifted in g.order && place in g.order
    && Nearest(g, first, MustDominate(g, loops, blocks))
    && lifted == (if BranchesUp(g, first) then g.func.entry else first)
    && (if isPhi || !MayReadUndefined(body.Ops(lifted), v) then place == lifted
        else LoopsNest(g, loopDominator) && Nearest(g, place, {lifted, Outermost(g, loopDominator, lifted)}))
  }

  /** Every loop dominator dominates its block. */
  ghost predicate LoopsDominate(g: Graph, loopDominator: map<Id, Id>) {
    forall b :: b in g.order && b in loopDominator && loopDominator[b] != NO_DOMINATOR ==> Dom(g, loopDominator[b], b)
  }

  /** In structured control flow this is what `FindLoopDominators` leaves. */
  lemma LoopDominatorsDominate(g: Graph, body: Body, loops: Loops, loopDominator: map<Id, Id>)
    requires Traversed(g) && Descending(g) && body.WellFormed() && body.func == g.func && loops.WellFormed(g.func)
    requires MergesUnique(g.func) && LoopsExitByMerge(g.func)
    requires forall b :: b in body.blocks ==>
                && b in loopDominator
                && (if b in loops.headerOf && loops.headerOf[b] != b
                    then loopDominator[b] == loops.headerOf[b]
                    else LoopOf(g, b, loopDominator[b]))
    ensures LoopsDominate(g, loopDominator)
  {
    hide Traversed, Descending, Function.WellFormed, MergesUnique, LoopsExitByMerge, EnclosingLoop, Dominates;
    OrderWithinBlocks(g);
    forall b | b in g.order && loopDominator[b] != NO_DOMINATOR ensures Dom(g, loopDominator[b], b) {
      if b in loops.headerOf && loops.headerOf[b] != b {
        TargetDominatorRecorded(g, loops.headerOf[b], b);
      } else {
        var p :| EnclosingLoop(g, loopDominator[b], p, b);
        LoopHeaderDominates(g, loopDominator[b], p, b);
      }
    }
  }

  lemma {:induction false} OutermostDominates(g: Graph, loopDominator: map<Id, Id>, b: Id)
    requires LoopsNest(g, loopDominator) && LoopsDominate(g, loopDominator) && b in g.order
    ensures Dom(g, Outermost(g, loopDominator, b), b)
    decreases g.order[g.func.entry] - g.order[b]
  {
    hide Dominates;
    Reflexive(g.succ, g.func.entry, b);
    if loopDominator[b] != NO_DOMINATOR {
      OutermostDominates(g, loopDominator, loopDominator[b]);
      Transitive(g.succ, g.func.entry, Outermost(g, loopDominator, loopDominator[b]), loopDominator[b], b);
    }
  }

  lemma NearestIsAbove(g: Graph, b: Id, d: Id)
    requires Dom(g, d, b)
    ensures Nearest(g, d, {b, d})
  {
    hide Dominates;
    forall x ensures Dom(g, x, d) <==> DominatesAll(g.succ, g.func.entry, x, {b, d}) {
      assert b in {b, d} && d in {b, d};
      if Dom(g, x, d) {
        Transitive(g.succ, g.func.entry, x, d, b);
      }
    }
  }

  /** What hoisting is for: in structured control flow a variable is declared outside all loops, unless
      its declaring block starts by writing it. */
  lemma HoistedOutOfLoops(g: Graph, body: Body, loops: Loops, loopDominator: map<Id, Id>, v: Id, blocks: set<Id>,
                          first: Id, lifted: Id, place: Id)
    requires Descending(g) && LoopsNest(g, loopDominator) && LoopsDominate(g, loopDominator)
    requires Placed(g, body, loops, loopDominator, v, blocks, false, first, lifted, place)
    ensures place in loopDominator
    ensures loopDominator[place] == NO_DOMINATOR || !MayReadUndefined(body.Ops(place), v)
  {
    hide Descending, MayReadUndefined, MustDominate, BranchesUp, LoopsDominate, Nearest, Dominates;
    if MayReadUndefined(body.Ops(lifted), v) {
      var out := Outermost(g, loopDominator, lifted);
      OutermostDominates(g, loopDominator, lifted);
      NearestIsAbove(g, lifted, out);
      NearestUnique(g, place, out, {lifted, out});
    }
  }

  lemma FoundLoop(g: Graph, b: Id, h: Id, p: seq<Id>)
    requires if b !in g.order then h == NO_DOMINATOR
             else if h == NO_DOMINATOR then OutsideLoops(g, p, b) else h in g.order && EnclosingLoop(g, h, p, b)
    ensures LoopOf(g, b, h)
  {
  }

  lemma HeaderIsAbove(g: Graph, loops: Loops, b: Id)
    requires Traversed(g) && Descending(g) && loops.WellFormed(g.func)
    requires b in g.order && b in loops.headerOf && loops.headerOf[b] != b
    ensures loops.headerOf[b] in g.order && g.order[b] < g.order[loops.headerOf[b]]
  {
    hide Traversed, Descending;
    TargetDominatorRecorded(g, loops.headerOf[b], b);
    DominatorIsHigher(g, loops.headerOf[b], b);
  }

  lemma LoopIsAbove(g: Graph, b: Id, h: Id)
    requires Descending(g) && b in g.order && LoopOf(g, b, h)
    ensures h == NO_DOMINATOR || (h in g.order && g.order[b] < g.order[h] <= g.order[g.func.entry])
  {
    if h != NO_DOMINATOR {
      var p :| EnclosingLoop(g, h, p, b);
      PathDescends(g, p, h, b);
    }
  }

  lemma LoopsDoNest(g: Graph, body: Body, loops: Loops, loopDominator: map<Id, Id>)
    requires Traversed(g) && Descending(g) && body.WellFormed() && body.func == g.func && loops.WellFormed(g.func)
    requires forall b :: b in body.blocks ==>
                && b in loopDominator
                && (if b in loops.headerOf && loops.headerOf[b] != b
                    then loopDominator[b] == loops.headerOf[b]
                    else LoopOf(g, b, loopDominator[b]))
    ensures LoopsNest(g, loopDominator)
  {
    hide Traversed, Descending, LoopOf, Function.WellFormed;
    OrderWithinBlocks(g);
    Ranks(g);
    forall b | b in g.order
      ensures b in loopDominator && g.order[b] <= g.order[g.func.entry]
      ensures loopDominator[b] == NO_DOMINATOR
              || (loopDominator[b] in g.order && g.order[b] < g.order[loopDominator[b]])
    {
      if b in loops.headerOf && loops.headerOf[b] != b {
        HeaderIsAbove(g, loops, b);
      } else {
        LoopIsAbove(g, b, loopDominator[b]);
      }
    }
  }
}
