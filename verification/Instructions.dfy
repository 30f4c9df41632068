/** The few instructions the variable analyses look at, and which blocks access which variable. */
module Instructions {
  import opened Spirv

  datatype Instr =
    | Store(ptr: Id, value: Id)
    | CopyMemory(dst: Id, src: Id)
    | Load(result: Id, ptr: Id)
    | AccessChain(result: Id, base: Id)
    | CopyObject(result: Id, src: Id)
    | Select(result: Id, a: Id, b: Id)
    | Phi(result: Id, values: seq<Id>)
    | Call(result: Id, args: seq<Id>)
    | ExtStore(ptr: Id) // the pointer operand of modf and frexp
    | Other

  /** `vars` are the variables; `loadedFrom` gives the variable behind each access chain. */
  datatype Pointers = Pointers(vars: set<Id>, loadedFrom: map<Id, Id>)
  {
    /** 0 when the compiler knows no variable behind the pointer. */
    function Backing(p: Id): Id {
      if p in vars then p else if p in loadedFrom then loadedFrom[p] else 0
    }
  }

  /** The pointer is the variable itself, or the compiler knows that it leads into it. */
  predicate Traced(ptrs: Pointers, p: Id, v: Id) {
    v != 0 && (if p in ptrs.vars then p == v else p in ptrs.loadedFrom && ptrs.loadedFrom[p] == v)
  }

  /** A function body: `blocks` lists its blocks in module order. */
  datatype Body = Body(func: Function, blocks: seq<Id>, ops: map<Id, seq<Instr>>, pointers: Pointers)
  {
    ghost predicate WellFormed() {
      && func.WellFormed()
      && (forall b :: b in blocks <==> b in func.blocks)
      && ops.Keys == func.blocks.Keys
      && 0 !in pointers.vars
      && (forall p :: p in pointers.loadedFrom && pointers.loadedFrom[p] != 0 ==>
            pointers.loadedFrom[p] in pointers.vars)
    }

    function Ops(b: Id): seq<Instr> { if b in ops then ops[b] else [] }
  }

  // ---------------------------------------------------------------- one instruction

  function Behind(ptrs: Pointers, p: Id): set<Id> {
    if ptrs.Backing(p) != 0 then {ptrs.Backing(p)} else {}
  }

  function BehindAll(ptrs: Pointers, args: seq<Id>): set<Id> {
    if args == [] then {} else BehindAll(ptrs, args[..|args| - 1]) + Behind(ptrs, args[|args| - 1])
  }

  /** The variables that the instruction names, directly or through an access chain. */
  function AccessedBy(ptrs: Pointers, op: Instr): set<Id> {
    match op
    case Store(p, _) => Behind(ptrs, p)
    case CopyMemory(d, s) => Behind(ptrs, d) + Behind(ptrs, s)
    case Load(_, p) => Behind(ptrs, p)
    case AccessChain(_, b) => if b in ptrs.vars then {b} else {}
    case CopyObject(_, s) => Behind(ptrs, s)
    case Select(_, a, b) => Behind(ptrs, a) + Behind(ptrs, b)
    case Call(_, args) => BehindAll(ptrs, args)
    case ExtStore(p) => Behind(ptrs, p)
    case _ => {}
  }

  /** The variable that the instruction overwrites as a whole. */
  function WrittenWholeBy(ptrs: Pointers, op: Instr): set<Id> {
    match op
    case Store(p, _) => Behind(ptrs, p) * {p}
    case CopyMemory(d, _) => Behind(ptrs, d) * {d}
    case ExtStore(p) => Behind(ptrs, p) * {p}
    case _ => {}
  }

  /** The variables that the instruction may change in part, or passes on to something that may. */
  function WrittenPartBy(ptrs: Pointers, op: Instr): set<Id> {
    match op
    case Store(p, _) => Behind(ptrs, p) - {p}
    case CopyMemory(d, _) => Behind(ptrs, d) - {d}
    case ExtStore(p) => Behind(ptrs, p) - {p}
    case Select(_, a, b) => Behind(ptrs, a) + Behind(ptrs, b)
    case Call(_, args) => BehindAll(ptrs, args)
    case _ => {}
  }

  lemma BehindIffTraced(ptrs: Pointers, p: Id, v: Id)
    ensures v in Behind(ptrs, p) <==> Traced(ptrs, p, v)
  {
  }

  lemma {:induction false} BehindAllIffTraced(ptrs: Pointers, args: seq<Id>, v: Id)
    ensures v in BehindAll(ptrs, args) <==> exists a :: a in args && Traced(ptrs, a, v)
  {
    if args != [] {
      BehindAllIffTraced(ptrs, args[..|args| - 1], v);
      BehindIffTraced(ptrs, args[|args| - 1], v);
      assert args == args[..|args| - 1] + [args[|args| - 1]];
    }
  }

  /** Which instructions access a variable, operand by operand. */
  lemma AccessedIff(ptrs: Pointers, op: Instr, v: Id)
    ensures v in AccessedBy(ptrs, op) <==>
              || (op.Store? && Traced(ptrs, op.ptr, v))
              || (op.CopyMemory? && (Traced(ptrs, op.dst, v) || Traced(ptrs, op.src, v)))
              || (op.Load? && Traced(ptrs, op.ptr, v))
              || (op.AccessChain? && op.base == v && v in ptrs.vars)
              || (op.CopyObject? && Traced(ptrs, op.src, v))
              || (op.Select? && (Traced(ptrs, op.a, v) || Traced(ptrs, op.b, v)))
              || (op.Call? && exists a :: a in op.args && Traced(ptrs, a, v))
              || (op.ExtStore? && Traced(ptrs, op.ptr, v))
  {
    hide Traced, Behind, BehindAll;
    forall p ensures v in Behind(ptrs, p) <==> Traced(ptrs, p, v) { BehindIffTraced(ptrs, p, v); }
    if op.Call? { BehindAllIffTraced(ptrs, op.args, v); }
  }

  /** It is overwritten as a whole by what stores to the variable itself. */
  lemma WrittenWholeIff(ptrs: Pointers, op: Instr, v: Id)
    ensures v in WrittenWholeBy(ptrs, op) <==>
              && Traced(ptrs, v, v)
              && ((op.Store? && op.ptr == v) || (op.CopyMemory? && op.dst == v) || (op.ExtStore? && op.ptr == v))
  {
  }

  /** It counts as changed in part by a store through an access chain into it, and by every selection
      or call that takes a pointer traced to it. */
  lemma WrittenPartIff(ptrs: Pointers, op: Instr, v: Id)
    ensures v in WrittenPartBy(ptrs, op) <==>
              || (op.Store? && op.ptr != v && Traced(ptrs, op.ptr, v))
              || (op.CopyMemory? && op.dst != v && Traced(ptrs, op.dst, v))
              || (op.ExtStore? && op.ptr != v && Traced(ptrs, op.ptr, v))
              || (op.Select? && (Traced(ptrs, op.a, v) || Traced(ptrs, op.b, v)))
              || (op.Call? && exists a :: a in op.args && Traced(ptrs, a, v))
  {
    hide Traced, Behind, BehindAll;
    forall p ensures v in Behind(ptrs, p) <==> Traced(ptrs, p, v) { BehindIffTraced(ptrs, p, v); }
    if op.Call? { BehindAllIffTraced(ptrs, op.args, v); }
  }

  // ---------------------------------------------------------------- the access handler

  /** Variable id to the blocks where something happens to it. */
  type BlockMap = map<Id, set<Id>>

  ghost predicate NoEmptySets(m: BlockMap) { forall v :: v in m ==> m[v] != {} }

  /** The same as a relation between variables and blocks. */
  ghost function Pairs(m: BlockMap): set<(Id, Id)> {
    set v, b | v in m && b in m[v] :: (v, b)
  }

  ghost function With(vs: set<Id>, b: Id): set<(Id, Id)> {
    set v | v in vs :: (v, b)
  }

  lemma WithTwice(a: set<Id>, c: set<Id>, b: Id)
    ensures With(a, b) + With(c, b) == With(a + c, b)
  {
  }

  function Insert(m: BlockMap, v: Id, b: Id): (r: BlockMap)
    ensures Pairs(r) == Pairs(m) + With({v}, b)
    ensures NoEmptySets(m) ==> NoEmptySets(r)
  {
    m[v := (if v in m then m[v] else {}) + {b}]
  }

  /** What the handler has recorded, kind by kind. */
  datatype Record = Record(accessed: set<(Id, Id)>, whole: set<(Id, Id)>, part: set<(Id, Id)>)
  {
    ghost function Plus(a: set<Id>, w: set<Id>, p: set<Id>, b: Id): Record {
      Record(accessed + With(a, b), whole + With(w, b), part + With(p, b))
    }

    lemma PlusNothing(b: Id)
      ensures Plus({}, {}, {}, b) == this
    {
      assert With({}, b) == {};
    }

    lemma PlusAccess(v: Id, b: Id)
      ensures Plus({v}, {}, {}, b) == this.(accessed := accessed + With({v}, b))
    {
      assert With({}, b) == {};
    }

    lemma PlusTwice(a: set<Id>, w: set<Id>, p: set<Id>, c: set<Id>, x: set<Id>, q: set<Id>, b: Id)
      ensures Plus(a, w, p, b).Plus(c, x, q, b) == Plus(a + c, w + x, p + q, b)
    {
      WithTwice(a, c, b);
      WithTwice(w, x, b);
      WithTwice(p, q, b);
    }

    ghost function PlusOp(ptrs: Pointers, op: Instr, b: Id): Record {
      Plus(AccessedBy(ptrs, op), WrittenWholeBy(ptrs, op), WrittenPartBy(ptrs, op), b)
    }

    ghost function PlusOps(ptrs: Pointers, ops: seq<Instr>, b: Id): Record {
      if ops == [] then this
      else PlusOps(ptrs, ops[..|ops| - 1], b).PlusOp(ptrs, ops[|ops| - 1], b)
    }

    ghost function PlusBlocks(body: Body, blocks: seq<Id>): Record {
      if blocks == [] then this
      else
        var b := blocks[|blocks| - 1];
        PlusBlocks(body, blocks[..|blocks| - 1]).PlusOps(body.pointers, body.Ops(b), b)
    }
  }

  class AccessHandler {
    const body: Body
    var accessed: BlockMap
    var completeWrites: BlockMap
    var partialWrites: BlockMap

    ghost function Recorded(): Record
      reads this
    {
      Record(Pairs(accessed), Pairs(completeWrites), Pairs(partialWrites))
    }

    ghost predicate Valid()
      reads this
    {
      NoEmptySets(accessed) && NoEmptySets(completeWrites) && NoEmptySets(partialWrites)
    }

    constructor (body: Body)
      ensures this.body == body && Valid() && Recorded() == Record({}, {}, {})
    {
      this.body := body;
      accessed, completeWrites, partialWrites := map[], map[], map[];
    }

    /** A store to `p`: complete if `p` is a variable, partial through an access chain. */
    method NoteWrite(p: Id, b: Id)
      requires Valid()
      modifies this
      ensures Valid()
      ensures var vs := Behind(body.pointers, p);
              Recorded() == old(Recorded()).Plus(vs, vs * {p}, vs - {p}, b)
    {
      var v := body.pointers.Backing(p);
      assert With({}, b) == {};
      if v != 0 {
        accessed := Insert(accessed, v, b);
        if v == p {
          completeWrites := Insert(completeWrites, v, b);
          assert {v} * {p} == {v} && {v} - {p} == {};
        } else {
          partialWrites := Insert(partialWrites, v, b);
          assert {v} * {p} == {} && {v} - {p} == {v};
        }
      }
    }

    method NoteRead(p: Id, b: Id)
      requires Valid()
      modifies this
      ensures Valid() && Recorded() == old(Recorded()).Plus(Behind(body.pointers, p), {}, {}, b)
    {
      var v := body.pointers.Backing(p);
      assert With({}, b) == {};
      if v != 0 {
        accessed := Insert(accessed, v, b);
      }
    }

    /** `p` is passed on to something that may write through it. */
    method NotePassed(p: Id, b: Id)
      requires Valid()
      modifies this
      ensures var vs := Behind(body.pointers, p);
              Valid() && Recorded() == old(Recorded()).Plus(vs, {}, vs, b)
    {
      var v := body.pointers.Backing(p);
      assert With({}, b) == {};
      if v != 0 {
        accessed := Insert(accessed, v, b);
        partialWrites := Insert(partialWrites, v, b);
      }
    }

    method NoteArguments(args: seq<Id>, b: Id)
      requires Valid()
      modifies this
      ensures var vs := BehindAll(body.pointers, args);
              Valid() && Recorded() == old(Recorded()).Plus(vs, {}, vs, b)
    {
      hide Pairs, With, NoEmptySets, Record.Plus, Behind;
      ghost var r0 := Recorded();
      r0.PlusNothing(b);
      for i := 0 to |args|
        invariant var vs := BehindAll(body.pointers, args[..i]);
                  Valid() && Recorded() == r0.Plus(vs, {}, vs, b)
      {
        ghost var vs, more := BehindAll(body.pointers, args[..i]), Behind(body.pointers, args[i]);
        assert args[..i + 1][..i] == args[..i];
        NotePassed(args[i], b);
        r0.PlusTwice(vs, {}, vs, more, {}, more, b);
        assert forall none: set<Id> :: none == {} ==> none + none == none;
      }
      assert args[..|args|] == args;
    }

    /** One instruction of block `b`. */
    method Handle(op: Instr, b: Id)
      requires Valid()
      modifies this
      ensures Valid() && Recorded() == old(Recorded()).PlusOp(body.pointers, op, b)
    {
      hide Pairs, With, Record.Plus, Behind;
      ghost var r0 := Recorded();
      r0.PlusNothing(b);
      match op {
        case Store(p, _) => NoteWrite(p, b);
        case CopyMemory(d, s) =>
          ghost var w, r := Behind(body.pointers, d), Behind(body.pointers, s);
          NoteWrite(d, b);
          NoteRead(s, b);
          r0.PlusTwice(w, w * {d}, w - {d}, r, {}, {}, b);
          assert w * {d} + {} == w * {d} && w - {d} + {} == w - {d};
        case Load(_, p) => NoteRead(p, b);
        case AccessChain(_, base) =>
          if base in body.pointers.vars {
            accessed := Insert(accessed, base, b);
            r0.PlusAccess(base, b);
          }
        case CopyObject(_, s) => NoteRead(s, b);
        case Select(_, x, y) =>
          ghost var w, r := Behind(body.pointers, x), Behind(body.pointers, y);
          NotePassed(x, b);
          NotePassed(y, b);
          r0.PlusTwice(w, {}, w, r, {}, r, b);
          assert forall none: set<Id> :: none == {} ==> none + none == none;
        case Call(_, args) => NoteArguments(args, b);
        case ExtStore(p) => NoteWrite(p, b);
        case _ =>
      }
    }

    /** All instructions of all blocks, in module order. */
    method Traverse()
      requires Valid()
      modifies this
      ensures Valid() && Recorded() == old(Recorded()).PlusBlocks(body, body.blocks)
    {
      hide Pairs, With, NoEmptySets, Record.Plus, Record.PlusOp;
      ghost var r0 := Recorded();
      for i := 0 to |body.blocks|
        invariant Valid() && Recorded() == r0.PlusBlocks(body, body.blocks[..i])
      {
        var b := body.blocks[i];
        var ops := body.Ops(b);
        ghost var r1 := Recorded();
        for k := 0 to |ops|
          invariant Valid() && Recorded() == r1.PlusOps(body.pointers, ops[..k], b)
        {
          Handle(ops[k], b);
          assert ops[..k + 1][..k] == ops[..k];
        }
        assert ops[..|ops|] == ops;
        assert body.blocks[..i + 1][..i] == body.blocks[..i];
      }
      assert body.blocks[..|body.blocks|] == body.blocks;
    }
  }

  // ---------------------------------------------------------------- what has been recorded

  lemma {:induction false} OpsRecorded(r: Record, ptrs: Pointers, ops: seq<Instr>, b: Id, v: Id, x: Id)
    ensures (v, x) in r.PlusOps(ptrs, ops, b).accessed <==>
              (v, x) in r.accessed || (x == b && exists op :: op in ops && v in AccessedBy(ptrs, op))
    ensures (v, x) in r.PlusOps(ptrs, ops, b).whole <==>
              (v, x) in r.whole || (x == b && exists op :: op in ops && v in WrittenWholeBy(ptrs, op))
    ensures (v, x) in r.PlusOps(ptrs, ops, b).part <==>
              (v, x) in r.part || (x == b && exists op :: op in ops && v in WrittenPartBy(ptrs, op))
  {
    if ops != [] {
      OpsRecorded(r, ptrs, ops[..|ops| - 1], b, v, x);
      assert ops == ops[..|ops| - 1] + [ops[|ops| - 1]];
    }
  }

  lemma {:induction false} BlocksRecorded(body: Body, blocks: seq<Id>, v: Id, x: Id)
    ensures var r := Record({}, {}, {}).PlusBlocks(body, blocks);
            && ((v, x) in r.accessed <==>
                  x in blocks && exists op :: op in body.Ops(x) && v in AccessedBy(body.pointers, op))
            && ((v, x) in r.whole <==>
                  x in blocks && exists op :: op in body.Ops(x) && v in WrittenWholeBy(body.pointers, op))
            && ((v, x) in r.part <==>
                  x in blocks && exists op :: op in body.Ops(x) && v in WrittenPartBy(body.pointers, op))
  {
    if blocks != [] {
      var n := |blocks| - 1;
      BlocksRecorded(body, blocks[..n], v, x);
      var before := Record({}, {}, {}).PlusBlocks(body, blocks[..n]);
      OpsRecorded(before, body.pointers, body.Ops(blocks[n]), blocks[n], v, x);
      assert blocks == blocks[..n] + [blocks[n]];
    }
  }
}
