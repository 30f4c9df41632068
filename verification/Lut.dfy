/** Promotion of an array variable to a constant lookup table. */
module Luts {
  import opened Spirv
  import opened Graphs
  import opened Paths
  import opened Dominance
  import opened Soundness
  import opened Cfg
  import opened DominatorBuilders
  import opened Instructions

  // ---------------------------------------------------------------- running the function

  /** What a variable holds: the value named by an id, or something not known at compile time. */
  datatype Value = Named(id: Id) | Computed(tag: nat)
  datatype Cell = Unset | Holds(value: Value)

  /** Pointers that the compiler traces to no variable but that point into one all the same (copies
      made by OpCopyObject, for instance). */
  type Aliases = map<Id, Id>

  ghost function Target(body: Body, hidden: Aliases, p: Id): Id {
    if body.pointers.Backing(p) != 0 then body.pointers.Backing(p)
    else if p in hidden then hidden[p] else 0
  }

  /** The instruction may write `v`, through whatever pointer. */
  ghost predicate Writes(body: Body, hidden: Aliases, op: Instr, v: Id) {
    match op
    case Store(p, _) => Target(body, hidden, p) == v
    case CopyMemory(d, _) => Target(body, hidden, d) == v
    case ExtStore(p) => Target(body, hidden, p) == v
    case Call(_, args) => exists a :: a in args && Target(body, hidden, a) == v
    case _ => false
  }

  /** The effect of one instruction on the content of `v`. Other memory is not tracked: what is
      copied from it, computed by a callee or written in part can be anything. */
  ghost predicate Effect(body: Body, hidden: Aliases, op: Instr, v: Id, before: Cell, after: Cell) {
    if op.Store? && op.ptr == v then after == Holds(Named(op.value))
    else if op.CopyMemory? && op.dst == v && op.src == v then after == before
    else if Writes(body, hidden, op, v) then before.Holds? ==> after.Holds?
    else after == before
  }

  /** A run of the function with the content of one variable before and after each instruction. */
  datatype Execution = Execution(run: seq<Id>, cells: seq<seq<Cell>>)

  ghost predicate BlockTrace(body: Body, hidden: Aliases, v: Id, ops: seq<Instr>, cells: seq<Cell>) {
    && |cells| == |ops| + 1
    && forall k {:trigger ops[k]} :: 0 <= k < |ops| ==> Effect(body, hidden, ops[k], v, cells[k], cells[k + 1])
  }

  ghost predicate IsExecution(body: Body, hidden: Aliases, v: Id, init: Cell, e: Execution) {
    && e.run != [] && |e.cells| == |e.run|
    && e.run[0] == body.func.entry && IsPath(RealEdges(body.func), e.run)
    && (forall i {:trigger e.run[i]} :: 0 <= i < |e.run| ==>
          BlockTrace(body, hidden, v, body.Ops(e.run[i]), e.cells[i]))
    && (forall i :: 0 <= i < |e.cells| ==> e.cells[i] != [])
    && e.cells[0][0] == init
    && (forall i, j :: 0 <= i && j == i + 1 && j < |e.run| ==>
          e.cells[j][0] == e.cells[i][|e.cells[i]| - 1])
  }

  /** Wherever the variable has a content, on every execution, it is the constant `c`. */
  ghost predicate AlwaysConstant(body: Body, hidden: Aliases, v: Id, init: Cell, c: Id) {
    forall e, i, k :: IsExecution(body, hidden, v, init, e) && 0 <= i < |e.run| && 0 <= k < |e.cells[i]| ==>
      e.cells[i][k] == Unset || e.cells[i][k] == Holds(Named(c))
  }

  ghost predicate ReallyReached(body: Body, b: Id) {
    Reaches(RealEdges(body.func), body.func.entry, b)
  }

  // ---------------------------------------------------------------- the scan of the dominating block

  datatype Scan = Scan(expression: Id, writeCount: nat)

  predicate StopsScan(op: Instr, v: Id, found: Scan) {
    || (op.Load? && op.ptr == v && found.expression == 0)
    || (op.AccessChain? && op.base == v)
  }

  function ScanFrom(ops: seq<Instr>, v: Id, found: Scan): Scan {
    if ops == [] || StopsScan(ops[0], v, found) then found
    else
      ScanFrom(ops[1..], v,
               if ops[0].Store? && ops[0].ptr == v then Scan(ops[0].value, found.writeCount + 1) else found)
  }

  /** The static-expression handler run over one block. */
  method ScanBlock(ops: seq<Instr>, v: Id) returns (found: Scan)
    ensures found == ScanFrom(ops, v, Scan(0, 0))
    ensures forall c: Id :: c != 0 ==> (found == Scan(c, 1) <==> exists s: nat :: SingleStore(ops, v, c, s))
  {
    forall c: Id | c != 0
      ensures ScanFrom(ops, v, Scan(0, 0)) == Scan(c, 1) <==> exists s: nat :: SingleStore(ops, v, c, s)
    {
      ScanIff(ops, v, c);
    }
    hide SingleStore;
    found := Scan(0, 0);
    var k := 0;
    while k < |ops|
      invariant 0 <= k <= |ops|
      invariant ScanFrom(ops[k..], v, found) == ScanFrom(ops, v, Scan(0, 0))
    {
      assert ops[k..][1..] == ops[k + 1..];
      match ops[k] {
        case Store(p, x) =>
          if p == v {
            found := Scan(x, found.writeCount + 1);
          }
        case Load(_, p) =>
          if p == v && found.expression == 0 {
            return;
          }
        case AccessChain(_, b) =>
          if b == v {
            return;
          }
        case _ =>
      }
      k := k + 1;
    }
  }

  lemma {:induction false} ScanCounts(ops: seq<Instr>, v: Id, found: Scan)
    ensures ScanFrom(ops, v, found).writeCount >= found.writeCount
    ensures ScanFrom(ops, v, found).writeCount == found.writeCount ==> ScanFrom(ops, v, found) == found
  {
    if ops != [] && !StopsScan(ops[0], v, found) {
      ScanCounts(ops[1..], v,
                 if ops[0].Store? && ops[0].ptr == v then Scan(ops[0].value, found.writeCount + 1) else found);
    }
  }

  /** A scan that finds one store of `c` means: the block stores `c`, and neither loads the variable
      nor takes a chain into it before that. */
  lemma {:induction false} ScanFindsStore(ops: seq<Instr>, v: Id) returns (s: nat)
    requires ScanFrom(ops, v, Scan(0, 0)).writeCount == 1
    ensures s < |ops| && ops[s] == Store(v, ScanFrom(ops, v, Scan(0, 0)).expression)
    ensures forall k :: 0 <= k < s ==> !(ops[k].Load? && ops[k].ptr == v) && !(ops[k].AccessChain? && ops[k].base == v)
  {
    if ops[0].Store? && ops[0].ptr == v {
      ScanCounts(ops[1..], v, Scan(ops[0].value, 1));
      s := 0;
    } else {
      var t := ScanFindsStore(ops[1..], v);
      s := t + 1;
      assert forall k :: 0 < k < s ==> ops[k] == ops[1..][k - 1];
    }
  }

  /** An access chain into the variable is taken before place `k`. */
  ghost predicate ChainBefore(ops: seq<Instr>, v: Id, k: nat) {
    exists j :: 0 <= j < k && j < |ops| && ops[j].AccessChain? && ops[j].base == v
  }

  /** No store to the variable, unless an access chain into it comes first. */
  ghost predicate NoStoreBeforeChain(ops: seq<Instr>, v: Id) {
    forall k: nat :: k < |ops| && ops[k].Store? && ops[k].ptr == v ==> ChainBefore(ops, v, k)
  }

  /** Instruction `s` stores `c` to the variable. The block neither stores to it, loads it nor takes a
      chain into it before that, and does not store to it again before the first chain. */
  ghost predicate SingleStore(ops: seq<Instr>, v: Id, c: Id, s: nat) {
    && s < |ops| && ops[s] == Store(v, c)
    && (forall k :: 0 <= k < s ==>
          && !(ops[k].Store? && ops[k].ptr == v) && !(ops[k].Load? && ops[k].ptr == v)
          && !(ops[k].AccessChain? && ops[k].base == v))
    && NoStoreBeforeChain(ops[s + 1..], v)
  }

  lemma ChainTail(ops: seq<Instr>, v: Id, k: nat)
    requires ops != [] && !(ops[0].AccessChain? && ops[0].base == v)
    ensures ChainBefore(ops, v, k + 1) <==> ChainBefore(ops[1..], v, k)
  {
    if j :| 0 <= j < k + 1 && j < |ops| && ops[j].AccessChain? && ops[j].base == v {
      assert ops[1..][j - 1] == ops[j];
    }
    if j :| 0 <= j < k && j < |ops[1..]| && ops[1..][j].AccessChain? && ops[1..][j].base == v {
      assert ops[j + 1] == ops[1..][j];
    }
  }

  lemma NoStoreTail(ops: seq<Instr>, v: Id)
    requires ops != [] && !(ops[0].AccessChain? && ops[0].base == v)
    ensures NoStoreBeforeChain(ops, v) <==> !(ops[0].Store? && ops[0].ptr == v) && NoStoreBeforeChain(ops[1..], v)
  {
    assert !ChainBefore(ops, v, 0);
    forall k: nat ensures ChainBefore(ops, v, k + 1) <==> ChainBefore(ops[1..], v, k) { ChainTail(ops, v, k); }
    hide ChainBefore;
    if NoStoreBeforeChain(ops, v) {
      forall k: nat | k < |ops[1..]| && ops[1..][k].Store? && ops[1..][k].ptr == v ensures ChainBefore(ops[1..], v, k) {
        assert ops[k + 1] == ops[1..][k];
      }
    }
    if !(ops[0].Store? && ops[0].ptr == v) && NoStoreBeforeChain(ops[1..], v) {
      forall k: nat | k < |ops| && ops[k].Store? && ops[k].ptr == v ensures ChainBefore(ops, v, k) {
        assert k > 0 && ops[1..][k - 1] == ops[k];
      }
    }
  }

  /** Once a store has been found, a further one is counted unless a chain comes first. */
  lemma {:induction false} ScanGoesOn(ops: seq<Instr>, v: Id, c: Id)
    requires c != 0
    ensures ScanFrom(ops, v, Scan(c, 1)) == Scan(c, 1) <==> NoStoreBeforeChain(ops, v)
  {
    if ops != [] {
      if ops[0].AccessChain? && ops[0].base == v {
        assert NoStoreBeforeChain(ops, v);
      } else {
        NoStoreTail(ops, v);
        if ops[0].Store? && ops[0].ptr == v {
          ScanCounts(ops[1..], v, Scan(ops[0].value, 2));
        } else {
          ScanGoesOn(ops[1..], v, c);
        }
      }
    }
  }

  lemma {:induction false} SingleStoreTail(ops: seq<Instr>, v: Id, c: Id, s: nat)
    requires ops != []
    requires !(ops[0].Store? && ops[0].ptr == v) && !(ops[0].Load? && ops[0].ptr == v)
    requires !(ops[0].AccessChain? && ops[0].base == v)
    ensures SingleStore(ops[1..], v, c, s) <==> SingleStore(ops, v, c, s + 1)
  {
    hide NoStoreBeforeChain;
    assert s < |ops[1..]| ==> ops[1..][s + 1..] == ops[s + 2..];
    if SingleStore(ops, v, c, s + 1) {
      forall k | 0 <= k < s
        ensures !(ops[1..][k].Store? && ops[1..][k].ptr == v) && !(ops[1..][k].Load? && ops[1..][k].ptr == v)
        ensures !(ops[1..][k].AccessChain? && ops[1..][k].base == v)
      {
        assert ops[1..][k] == ops[k + 1];
      }
    }
  }

  /** The scan counts one store, of `c`, if and only if there is such a single store. */
  lemma {:induction false} ScanIff(ops: seq<Instr>, v: Id, c: Id)
    requires c != 0
    ensures ScanFrom(ops, v, Scan(0, 0)) == Scan(c, 1) <==> exists s: nat :: SingleStore(ops, v, c, s)
  {
    if ops == [] || StopsScan(ops[0], v, Scan(0, 0)) {
      forall s: nat ensures !SingleStore(ops, v, c, s) {}
    } else if ops[0].Store? && ops[0].ptr == v {
      ScanStarts(ops, v, c);
    } else {
      ScanIff(ops[1..], v, c);
      forall s: nat ensures SingleStore(ops[1..], v, c, s) <==> SingleStore(ops, v, c, s + 1) {
        SingleStoreTail(ops, v, c, s);
      }
      if s: nat :| SingleStore(ops, v, c, s) {
        assert SingleStore(ops[1..], v, c, s - 1);
      }
    }
  }

  lemma ScanStarts(ops: seq<Instr>, v: Id, c: Id)
    requires c != 0 && ops != [] && ops[0].Store? && ops[0].ptr == v
    ensures ScanFrom(ops, v, Scan(0, 0)) == Scan(c, 1) <==> exists s: nat :: SingleStore(ops, v, c, s)
  {
    assert ScanFrom(ops, v, Scan(0, 0)) == ScanFrom(ops[1..], v, Scan(ops[0].value, 1));
    if ops[0].value == c {
      ScanGoesOn(ops[1..], v, c);
      assert SingleStore(ops, v, c, 0) <==> NoStoreBeforeChain(ops[1..], v);
    } else {
      ScanCounts(ops[1..], v, Scan(ops[0].value, 1));
    }
    forall s: nat | SingleStore(ops, v, c, s) ensures s == 0 {}
  }

  /** Two different places or constants cannot both be single stores. */
  lemma SingleStoreUnique(ops: seq<Instr>, v: Id, c: Id, s: nat, b: Id, t: nat)
    requires SingleStore(ops, v, c, s) && SingleStore(ops, v, b, t)
    ensures s == t && c == b
  {
  }

  // ---------------------------------------------------------------- constant if nothing else is written

  /** `c` stored to the variable itself, or the variable copied onto itself. */
  predicate KeepsConstant(op: Instr, v: Id, c: Id) {
    op == Store(v, c) || op == CopyMemory(v, v)
  }

  ghost predicate OnlyConstantWritten(body: Body, hidden: Aliases, v: Id, c: Id) {
    forall b, op :: ReallyReached(body, b) && op in body.Ops(b) && Writes(body, hidden, op, v) ==>
      KeepsConstant(op, v, c)
  }

  ghost predicate ConstantCell(cell: Cell, c: Id) { cell == Unset || cell == Holds(Named(c)) }

  lemma RunReaches(body: Body, run: seq<Id>, i: nat)
    requires IsPath(RealEdges(body.func), run) && run[0] == body.func.entry && i < |run|
    ensures ReallyReached(body, run[i])
  {
    Split(RealEdges(body.func), run, run[0], run[|run| - 1], i);
  }

  lemma {:induction false} CellsStayConstant(body: Body, hidden: Aliases, v: Id, init: Cell, c: Id, e: Execution,
                                             i: nat, k: nat)
    requires v in body.pointers.vars && v != 0
    requires ConstantCell(init, c) && OnlyConstantWritten(body, hidden, v, c)
    requires IsExecution(body, hidden, v, init, e) && i < |e.run| && k < |e.cells[i]|
    ensures ConstantCell(e.cells[i][k], c)
    decreases i, k
  {
    var ops := body.Ops(e.run[i]);
    if k > 0 {
      CellsStayConstant(body, hidden, v, init, c, e, i, k - 1);
      assert BlockTrace(body, hidden, v, ops, e.cells[i]);
      assert Effect(body, hidden, ops[k - 1], v, e.cells[i][k - 1], e.cells[i][k]);
      RunReaches(body, e.run, i);
      assert ops[k - 1] in ops;
      assert body.pointers.Backing(v) == v;
      assert Writes(body, hidden, ops[k - 1], v) ==> KeepsConstant(ops[k - 1], v, c);
    } else if i > 0 {
      CellsStayConstant(body, hidden, v, init, c, e, i - 1, |e.cells[i - 1]| - 1);
    }
  }

  /** One possible effect: whatever is not known becomes something that is not `c`. */
  ghost function Next(body: Body, hidden: Aliases, op: Instr, v: Id, before: Cell): (after: Cell)
    ensures Effect(body, hidden, op, v, before, after)
  {
    if op.Store? && op.ptr == v then Holds(Named(op.value))
    else if op.CopyMemory? && op.dst == v && op.src == v then before
    else if Writes(body, hidden, op, v) then Holds(Computed(0))
    else before
  }

  ghost function Trace(body: Body, hidden: Aliases, v: Id, ops: seq<Instr>, before: Cell): (cells: seq<Cell>)
    ensures |cells| == |ops| + 1 && cells[0] == before
    ensures forall k {:trigger ops[k]} :: 0 <= k < |ops| ==> cells[k + 1] == Next(body, hidden, ops[k], v, cells[k])
  {
    if ops == [] then [before]
    else
      var cells := Trace(body, hidden, v, ops[..|ops| - 1], before);
      assert forall k {:trigger ops[k]} :: 0 <= k < |ops| - 1 ==> ops[..|ops| - 1][k] == ops[k];
      cells + [Next(body, hidden, ops[|ops| - 1], v, cells[|cells| - 1])]
  }

  lemma TraceIsTrace(body: Body, hidden: Aliases, v: Id, ops: seq<Instr>, before: Cell)
    ensures BlockTrace(body, hidden, v, ops, Trace(body, hidden, v, ops, before))
  {
  }

  /** Every instruction of the execution has the effect that `Next` gives. */
  ghost predicate TakesNext(body: Body, hidden: Aliases, v: Id, e: Execution)
    requires |e.cells| == |e.run|
  {
    forall i {:trigger e.run[i]} :: 0 <= i < |e.run| ==>
      e.cells[i] != [] && e.cells[i] == Trace(body, hidden, v, body.Ops(e.run[i]), e.cells[i][0])
  }

  lemma {:induction false} RunExecutes(body: Body, hidden: Aliases, v: Id, init: Cell, run: seq<Id>)
    returns (e: Execution)
    requires run != [] && run[0] == body.func.entry && IsPath(RealEdges(body.func), run)
    ensures e.run == run && IsExecution(body, hidden, v, init, e) && TakesNext(body, hidden, v, e)
  {
    hide Trace, RealEdges, Step, Effect, Body.Ops;
    var n := |run| - 1;
    if n == 0 {
      TraceIsTrace(body, hidden, v, body.Ops(run[0]), init);
      e := Execution(run, [Trace(body, hidden, v, body.Ops(run[0]), init)]);
    } else {
      Split(RealEdges(body.func), run, run[0], run[n], n - 1);
      var d := RunExecutes(body, hidden, v, init, run[..n]);
      var before := d.cells[n - 1][|d.cells[n - 1]| - 1];
      var cells := Trace(body, hidden, v, body.Ops(run[n]), before);
      TraceIsTrace(body, hidden, v, body.Ops(run[n]), before);
      e := Execution(run, d.cells + [cells]);
      forall i {:trigger e.run[i]} | 0 <= i < |e.run|
        ensures BlockTrace(body, hidden, v, body.Ops(e.run[i]), e.cells[i])
        ensures e.cells[i] != [] && e.cells[i] == Trace(body, hidden, v, body.Ops(e.run[i]), e.cells[i][0])
      {
        if i < n { assert d.run[i] == e.run[i] && e.cells[i] == d.cells[i]; }
      }
    }
  }

  /** The content of the variable is never anything but `c` if and only if every write to it that
      can be reached stores `c`. */
  lemma ConstantIffOnlyWritten(body: Body, hidden: Aliases, v: Id, init: Cell, c: Id)
    requires v in body.pointers.vars && v != 0 && ConstantCell(init, c)
    ensures AlwaysConstant(body, hidden, v, init, c) <==> OnlyConstantWritten(body, hidden, v, c)
  {
    if OnlyConstantWritten(body, hidden, v, c) {
      forall e, i, k | IsExecution(body, hidden, v, init, e) && 0 <= i < |e.run| && 0 <= k < |e.cells[i]|
        ensures ConstantCell(e.cells[i][k], c)
      {
        CellsStayConstant(body, hidden, v, init, c, e, i, k);
      }
    }
    if AlwaysConstant(body, hidden, v, init, c) {
      forall b, op | ReallyReached(body, b) && op in body.Ops(b) && Writes(body, hidden, op, v)
        ensures KeepsConstant(op, v, c)
      {
        OtherWriteShows(body, hidden, v, init, c, b, op);
      }
    }
  }

  lemma OtherWriteShows(body: Body, hidden: Aliases, v: Id, init: Cell, c: Id, b: Id, op: Instr)
    requires v in body.pointers.vars && v != 0 && AlwaysConstant(body, hidden, v, init, c)
    requires ReallyReached(body, b) && op in body.Ops(b) && Writes(body, hidden, op, v)
    ensures KeepsConstant(op, v, c)
  {
    var run :| Connects(RealEdges(body.func), run, body.func.entry, b);
    var e := RunExecutes(body, hidden, v, init, run);
    var n := |run| - 1;
    var ops := body.Ops(b);
    var k :| 0 <= k < |ops| && ops[k] == op;
    assert e.run[n] == b && e.cells[n] == Trace(body, hidden, v, ops, e.cells[n][0]);
    assert e.cells[n][k + 1] == Next(body, hidden, ops[k], v, e.cells[n][k]);
    assert 0 <= n < |e.run| && 0 <= k + 1 < |e.cells[n]|;
    assert ConstantCell(e.cells[n][k + 1], c);
  }

  // ---------------------------------------------------------------- find_function_local_luts

  datatype VariableInfo = VariableInfo(
    functionStorage: bool,
    privateStorage: bool,
    phi: bool,
    isArray: bool,
    initializer: Id)

  /** The variable may be considered at all. */
  predicate MayBeLut(info: VariableInfo, singleFunction: bool) {
    (info.functionStorage || (singleFunction && info.privateStorage)) && !info.phi && info.isArray
  }

  ghost predicate NoPartialWrites(body: Body, v: Id) {
    forall b, op :: b in body.blocks && op in body.Ops(b) ==> v !in WrittenPartBy(body.pointers, op)
  }

  /** All complete writes are in block `d`, if anywhere. */
  ghost predicate WrittenOnlyIn(body: Body, v: Id, d: Id) {
    forall b, op :: b in body.blocks && op in body.Ops(b) && v in WrittenWholeBy(body.pointers, op) ==> b == d
  }

  ghost predicate AccessedIn(body: Body, v: Id, b: Id) {
    b in body.blocks && exists op :: op in body.Ops(b) && v in AccessedBy(body.pointers, op)
  }

  /** `d` is the nearest common dominator of the visited blocks that access `v`. */
  ghost predicate NearestAccessDominator(g: Graph, body: Body, v: Id, d: Id) {
    d in g.order && Nearest(g, d, set b | b in g.order && AccessedIn(body, v, b))
  }

  /** The variable with initializer `info.initializer` becomes the constant `c`; without one, its
      single store is in the dominating block `d`. */
  ghost predicate IsLut(g: Graph, body: Body, info: VariableInfo, constants: set<Id>, v: Id, c: Id, d: Id) {
    && c in constants && NoPartialWrites(body, v)
    && (if info.initializer != 0
        then c == info.initializer && WrittenOnlyIn(body, v, 0)
        else
          && NearestAccessDominator(g, body, v, d)
          && WrittenOnlyIn(body, v, d)
          && exists s: nat :: SingleStore(body.Ops(d), v, c, s))
  }

  function InitialCell(info: VariableInfo): Cell {
    if info.initializer != 0 then Holds(Named(info.initializer)) else Unset
  }

  /** The instruction may write through the pointer. */
  predicate WritesThrough(op: Instr, p: Id) {
    match op
    case Store(q, _) => p == q
    case CopyMemory(d, _) => p == d
    case ExtStore(q) => p == q
    case Call(_, args) => p in args
    case _ => false
  }

  /** A write through a pointer that the compiler traces to no variable, and through none that it
      traces to this one. */
  ghost predicate HiddenWrite(body: Body, hidden: Aliases, op: Instr, v: Id) {
    && (exists p :: WritesThrough(op, p) && p in hidden && hidden[p] == v
          && forall u: Id :: !Traced(body.pointers, p, u))
    && (forall p :: WritesThrough(op, p) ==> !Traced(body.pointers, p, v))
  }

  lemma TargetIff(body: Body, hidden: Aliases, p: Id, v: Id)
    requires v != 0
    ensures Target(body, hidden, p) == v <==>
              || Traced(body.pointers, p, v)
              || (p in hidden && hidden[p] == v && forall u: Id :: !Traced(body.pointers, p, u))
  {
    if body.pointers.Backing(p) != 0 {
      assert Traced(body.pointers, p, body.pointers.Backing(p));
    }
  }

  /** Every write is seen by the access handler, or goes through an untraced pointer. */
  lemma WriteCases(body: Body, hidden: Aliases, op: Instr, v: Id)
    requires v != 0
    ensures Writes(body, hidden, op, v) ==>
              HiddenWrite(body, hidden, op, v)
              || v in WrittenWholeBy(body.pointers, op) || v in WrittenPartBy(body.pointers, op)
    ensures HiddenWrite(body, hidden, op, v) ==>
              && Writes(body, hidden, op, v)
              && v !in WrittenWholeBy(body.pointers, op) && v !in WrittenPartBy(body.pointers, op)
  {
    hide Target, Traced, WrittenWholeBy, WrittenPartBy;
    WrittenWholeIff(body.pointers, op, v);
    WrittenPartIff(body.pointers, op, v);
    forall p ensures Target(body, hidden, p) == v <==>
                       || Traced(body.pointers, p, v)
                       || (p in hidden && hidden[p] == v && forall u: Id :: !Traced(body.pointers, p, u))
    {
      TargetIff(body, hidden, p, v);
    }
  }

  /** What the scan leaves unchecked: it stops at the first access chain and ignores copies, so the
      dominating block may write the variable again; and pointers may be copied. */
  ghost predicate NothingElseWritten(body: Body, hidden: Aliases, info: VariableInfo, v: Id, c: Id, d: Id) {
    && (forall b, op :: ReallyReached(body, b) && op in body.Ops(b) ==> !HiddenWrite(body, hidden, op, v))
    && (info.initializer == 0 && ReallyReached(body, d) ==>
          forall op :: op in body.Ops(d) && v in WrittenWholeBy(body.pointers, op) ==> KeepsConstant(op, v, c))
  }

  lemma WholeWriteWrites(body: Body, hidden: Aliases, op: Instr, v: Id)
    requires v in WrittenWholeBy(body.pointers, op) && v != 0
    ensures Writes(body, hidden, op, v)
  {
  }

  lemma ReachedIsKnown(body: Body, b: Id)
    requires body.WellFormed() && ReallyReached(body, b)
    ensures b in body.blocks && b != 0
  {
    var run :| Connects(RealEdges(body.func), run, body.func.entry, b);
    if |run| > 1 {
      assert Step(RealEdges(body.func), run[|run| - 2], run[|run| - 1]);
      body.func.TargetsKnown(run[|run| - 2]);
    }
  }

  lemma KeptIsSeen(body: Body, hidden: Aliases, op: Instr, v: Id, c: Id)
    requires v in body.pointers.vars && v != 0 && KeepsConstant(op, v, c)
    ensures !HiddenWrite(body, hidden, op, v)
  {
    assert WritesThrough(op, v) && Traced(body.pointers, v, v);
  }

  /** The variable never holds anything but the chosen constant, on any execution and whether it is read
      or not, if and only if nothing else is written. */
  lemma LutIsConstantIff(g: Graph, body: Body, hidden: Aliases, info: VariableInfo, constants: set<Id>,
                         v: Id, c: Id, d: Id)
    requires body.WellFormed() && v in body.pointers.vars
    requires IsLut(g, body, info, constants, v, c, d)
    ensures AlwaysConstant(body, hidden, v, InitialCell(info), c) <==>
              NothingElseWritten(body, hidden, info, v, c, d)
  {
    hide AlwaysConstant, Reaches, Nearest, SingleStore, Writes, HiddenWrite, KeepsConstant, Function.WellFormed;
    hide WrittenWholeBy, WrittenPartBy, ReallyReached;
    ConstantIffOnlyWritten(body, hidden, v, InitialCell(info), c);
    if NothingElseWritten(body, hidden, info, v, c, d) {
      forall b, op | ReallyReached(body, b) && op in body.Ops(b) && Writes(body, hidden, op, v)
        ensures KeepsConstant(op, v, c)
      {
        ReachedIsKnown(body, b);
        WriteCases(body, hidden, op, v);
      }
    }
    if OnlyConstantWritten(body, hidden, v, c) {
      forall b, op | ReallyReached(body, b) && op in body.Ops(b) ensures !HiddenWrite(body, hidden, op, v) {
        WriteCases(body, hidden, op, v);
        if KeepsConstant(op, v, c) { KeptIsSeen(body, hidden, op, v, c); }
      }
      if info.initializer == 0 && ReallyReached(body, d) {
        forall op | op in body.Ops(d) && v in WrittenWholeBy(body.pointers, op) ensures KeepsConstant(op, v, c) {
          WholeWriteWrites(body, hidden, op, v);
        }
      }
    }
  }

  // ---------------------------------------------------------------- set before every use

  /** The instruction loads the variable itself or takes a chain into it. */
  predicate Uses(op: Instr, v: Id) {
    (op.Load? && op.ptr == v) || (op.AccessChain? && op.base == v)
  }

  /** Once set, always set. */
  lemma {:induction false} StaysSet(body: Body, hidden: Aliases, v: Id, init: Cell, e: Execution,
                                    j: nat, l: nat, i: nat, k: nat)
    requires IsExecution(body, hidden, v, init, e)
    requires i < |e.run| && k < |e.cells[i]| && j < |e.run| && l < |e.cells[j]|
    requires j < i || (j == i && l <= k)
    requires e.cells[j][l].Holds?
    ensures e.cells[i][k].Holds?
    decreases i, k
  {
    var ops := body.Ops(e.run[i]);
    if i == j && k == l {
    } else if k > 0 {
      StaysSet(body, hidden, v, init, e, j, l, i, k - 1);
      assert BlockTrace(body, hidden, v, ops, e.cells[i]);
      assert Effect(body, hidden, ops[k - 1], v, e.cells[i][k - 1], e.cells[i][k]);
    } else {
      assert e.cells[i][0] == e.cells[i - 1][|e.cells[i - 1]| - 1];
      StaysSet(body, hidden, v, init, e, j, l, i - 1, |e.cells[i - 1]| - 1);
    }
  }

  /** In structured control flow, a promoted variable is set whenever it is loaded or a chain into
      it is taken. */
  lemma LutIsSetBeforeUse(g: Graph, idom: map<Id, Id>, body: Body, hidden: Aliases, info: VariableInfo,
                          constants: set<Id>, v: Id, c: Id, d: Id, e: Execution, i: nat, k: nat)
    requires Traversed(g) && IdomTree(g, idom, 1) && Reducible(g)
    requires body.WellFormed() && g.func == body.func && v in body.pointers.vars
    requires IsLut(g, body, info, constants, v, c, d)
    requires IsExecution(body, hidden, v, InitialCell(info), e)
    requires i < |e.run| && k < |body.Ops(e.run[i])| && Uses(body.Ops(e.run[i])[k], v)
    ensures k < |e.cells[i]| && e.cells[i][k].Holds?
  {
    hide Traversed, IdomTree, Reducible, NearestAccessDominator, Function.WellFormed, WrittenOnlyIn;
    hide NoPartialWrites, Step, NoStoreBeforeChain;
    assert BlockTrace(body, hidden, v, body.Ops(e.run[i]), e.cells[i]);
    if info.initializer != 0 {
      StaysSet(body, hidden, v, InitialCell(info), e, 0, 0, i, k);
    } else {
      var j := DominatorVisited(g, idom, body, v, d, e.run, i, k);
      var s: nat :| SingleStore(body.Ops(d), v, c, s);
      assert body.Ops(d)[s] == Store(v, c);
      assert BlockTrace(body, hidden, v, body.Ops(e.run[j]), e.cells[j]);
      assert Effect(body, hidden, body.Ops(d)[s], v, e.cells[j][s], e.cells[j][s + 1]);
      assert j == i ==> s + 1 <= k;
      StaysSet(body, hidden, v, InitialCell(info), e, j, s + 1, i, k);
    }
  }

  /** So a promoted variable can be read as its constant wherever it is used. */
  lemma LutHoldsConstantAtUse(g: Graph, idom: map<Id, Id>, body: Body, hidden: Aliases, info: VariableInfo,
                              constants: set<Id>, v: Id, c: Id, d: Id, e: Execution, i: nat, k: nat)
    requires Traversed(g) && IdomTree(g, idom, 1) && Reducible(g)
    requires body.WellFormed() && g.func == body.func && v in body.pointers.vars
    requires IsLut(g, body, info, constants, v, c, d) && NothingElseWritten(body, hidden, info, v, c, d)
    requires IsExecution(body, hidden, v, InitialCell(info), e)
    requires i < |e.run| && k < |body.Ops(e.run[i])| && Uses(body.Ops(e.run[i])[k], v)
    ensures k < |e.cells[i]| && e.cells[i][k] == Holds(Named(c))
  {
    hide Traversed, IdomTree, Reducible, IsLut, NothingElseWritten, Body.WellFormed, IsExecution, Uses;
    LutIsSetBeforeUse(g, idom, body, hidden, info, constants, v, c, d, e, i, k);
    LutIsConstantIff(g, body, hidden, info, constants, v, c, d);
  }

  predicate Earlier(j: nat, l: nat, i: nat, k: nat) { j < i || (j == i && l < k) }

  ghost predicate ChainMade(body: Body, run: seq<Id>, p: Id, base: Id, j: nat, l: nat) {
    j < |run| && l < |body.Ops(run[j])| && body.Ops(run[j])[l] == AccessChain(p, base)
  }

  /** Before instruction `k` of the run's block `i`, the pointer `p` was made from variable `v` by
      access chains. */
  ghost predicate ChainedFrom(body: Body, run: seq<Id>, v: Id, p: Id, i: nat, k: nat)
    decreases i, k
  {
    exists j: nat, l: nat, base: Id :: Earlier(j, l, i, k) && ChainMade(body, run, p, base, j, l)
      && (base == v || ChainedFrom(body, run, v, base, j, l))
  }

  /** The first of these chains takes the variable itself. */
  lemma {:induction false} ChainRoot(body: Body, run: seq<Id>, v: Id, p: Id, i: nat, k: nat) returns (j: nat, l: nat)
    requires ChainedFrom(body, run, v, p, i, k)
    ensures Earlier(j, l, i, k) && j < |run| && l < |body.Ops(run[j])| && Uses(body.Ops(run[j])[l], v)
    decreases i, k
  {
    var x: nat, y: nat, base: Id :| Earlier(x, y, i, k) && ChainMade(body, run, p, base, x, y)
      && (base == v || ChainedFrom(body, run, v, base, x, y));
    j, l := x, y;
    if base != v {
      j, l := ChainRoot(body, run, v, base, x, y);
    }
  }

  /** The way arrays are read: a load through an access chain into a promoted variable finds it holding
      the constant, whatever happened between the chain and the load. */
  lemma LutHoldsConstantAtLoad(g: Graph, idom: map<Id, Id>, body: Body, hidden: Aliases, info: VariableInfo,
                               constants: set<Id>, v: Id, c: Id, d: Id, e: Execution, p: Id, i: nat, k: nat)
    requires Traversed(g) && IdomTree(g, idom, 1) && Reducible(g)
    requires body.WellFormed() && g.func == body.func && v in body.pointers.vars
    requires IsLut(g, body, info, constants, v, c, d) && NothingElseWritten(body, hidden, info, v, c, d)
    requires IsExecution(body, hidden, v, InitialCell(info), e)
    requires i < |e.run| && k < |body.Ops(e.run[i])| && body.Ops(e.run[i])[k].Load? && body.Ops(e.run[i])[k].ptr == p
    requires ChainedFrom(body, e.run, v, p, i, k)
    ensures k < |e.cells[i]| && e.cells[i][k] == Holds(Named(c))
  {
    hide Traversed, IdomTree, Reducible, IsLut, NothingElseWritten, Body.WellFormed, Uses, ChainedFrom, Effect;
    var j, l := ChainRoot(body, e.run, v, p, i, k);
    assert BlockTrace(body, hidden, v, body.Ops(e.run[i]), e.cells[i]);
    assert BlockTrace(body, hidden, v, body.Ops(e.run[j]), e.cells[j]);
    hide IsExecution;
    LutIsSetBeforeUse(g, idom, body, hidden, info, constants, v, c, d, e, j, l);
    StaysSet(body, hidden, v, InitialCell(info), e, j, l, i, k);
    LutIsConstantIff(g, body, hidden, info, constants, v, c, d);
  }

  lemma AccessIsDominated(g: Graph, body: Body, v: Id, d: Id, b: Id)
    requires NearestAccessDominator(g, body, v, d) && b in g.order && AccessedIn(body, v, b)
    ensures Dom(g, d, b)
  {
    Reflexive(g.succ, g.func.entry, d);
    assert Dom(g, d, d);
  }

  lemma UseIsAccess(body: Body, v: Id, b: Id, k: nat)
    requires b in body.blocks && k < |body.Ops(b)| && Uses(body.Ops(b)[k], v) && v in body.pointers.vars && v != 0
    ensures AccessedIn(body, v, b)
  {
    assert body.Ops(b)[k] in body.Ops(b) && v in AccessedBy(body.pointers, body.Ops(b)[k]);
  }

  lemma DominatorVisited(g: Graph, idom: map<Id, Id>, body: Body, v: Id, d: Id, run: seq<Id>, i: nat, k: nat)
    returns (j: nat)
    requires Traversed(g) && IdomTree(g, idom, 1) && Reducible(g)
    requires body.WellFormed() && g.func == body.func && v in body.pointers.vars
    requires NearestAccessDominator(g, body, v, d)
    requires run != [] && IsPath(RealEdges(body.func), run) && run[0] == body.func.entry
    requires i < |run| && k < |body.Ops(run[i])| && Uses(body.Ops(run[i])[k], v)
    ensures j <= i && run[j] == d
  {
    hide Traversed, IdomTree, Reducible, NearestAccessDominator, AccessedIn, Uses, Function.WellFormed;
    var b, upTo := run[i], run[..i + 1];
    Split(RealEdges(body.func), run, run[0], run[|run| - 1], i);
    RunReaches(body, run, i);
    ReachedIsKnown(body, b);
    RealIsFull(g);
    Monotone(RealEdges(body.func), FullEdges(g), upTo, body.func.entry, b);
    FullPathVisited(g, upTo, b);
    UseIsAccess(body, v, b, k);
    AccessIsDominated(g, body, v, d, b);
    DominatorsHoldOnRuns(g, idom, d, b, upTo);
    j :| 0 <= j < |upTo| && upTo[j] == d;
  }

  // ---------------------------------------------------------------- the search itself

  ghost function AccessBlocks(body: Body, v: Id): set<Id> {
    set b | b in body.blocks && exists op :: op in body.Ops(b) && v in AccessedBy(body.pointers, op)
  }

  ghost function WholeBlocks(body: Body, v: Id): set<Id> {
    set b | b in body.blocks && exists op :: op in body.Ops(b) && v in WrittenWholeBy(body.pointers, op)
  }

  ghost function PartBlocks(body: Body, v: Id): set<Id> {
    set b | b in body.blocks && exists op :: op in body.Ops(b) && v in WrittenPartBy(body.pointers, op)
  }

  /** The handler has been over the whole body. */
  ghost predicate Complete(handler: AccessHandler)
    reads handler
  {
    handler.Valid() && handler.Recorded() == Record({}, {}, {}).PlusBlocks(handler.body, handler.body.blocks)
  }

  lemma MapHolds(m: BlockMap, v: Id, bs: set<Id>)
    requires NoEmptySets(m) && forall b :: (v, b) in Pairs(m) <==> b in bs
    ensures v in m <==> bs != {}
    ensures v in m ==> m[v] == bs
  {
    if v in m {
      forall b ensures b in m[v] <==> b in bs { assert (v, b) in Pairs(m) <==> b in m[v]; }
    }
    if bs != {} {
      var b :| b in bs;
      assert (v, b) in Pairs(m);
    }
  }

  lemma HandlerHolds(handler: AccessHandler, v: Id)
    requires Complete(handler)
    ensures v in handler.accessed <==> AccessBlocks(handler.body, v) != {}
    ensures v in handler.accessed ==> handler.accessed[v] == AccessBlocks(handler.body, v)
    ensures v in handler.completeWrites <==> WholeBlocks(handler.body, v) != {}
    ensures v in handler.completeWrites ==> handler.completeWrites[v] == WholeBlocks(handler.body, v)
    ensures v in handler.partialWrites <==> PartBlocks(handler.body, v) != {}
  {
    hide Pairs, Record.PlusBlocks, AccessedBy, WrittenWholeBy, WrittenPartBy, NoEmptySets;
    var body := handler.body;
    forall b ensures (v, b) in Pairs(handler.accessed) <==> b in AccessBlocks(body, v) {
      BlocksRecorded(body, body.blocks, v, b);
    }
    forall b ensures (v, b) in Pairs(handler.completeWrites) <==> b in WholeBlocks(body, v) {
      BlocksRecorded(body, body.blocks, v, b);
    }
    forall b ensures (v, b) in Pairs(handler.partialWrites) <==> b in PartBlocks(body, v) {
      BlocksRecorded(body, body.blocks, v, b);
    }
    MapHolds(handler.accessed, v, AccessBlocks(body, v));
    MapHolds(handler.completeWrites, v, WholeBlocks(body, v));
    MapHolds(handler.partialWrites, v, PartBlocks(body, v));
  }

  lemma AccessedIsVariable(body: Body, v: Id)
    requires body.WellFormed() && AccessBlocks(body, v) != {}
    ensures v in body.pointers.vars
  {
    hide Function.WellFormed;
    var b :| b in AccessBlocks(body, v);
    var op :| op in body.Ops(b) && v in AccessedBy(body.pointers, op);
    if op.Call? {
      BehindIsVariable(body, op.args, v);
    }
  }

  lemma {:induction false} BehindIsVariable(body: Body, args: seq<Id>, v: Id)
    requires body.WellFormed() && v in BehindAll(body.pointers, args)
    ensures v in body.pointers.vars
  {
    if v !in Behind(body.pointers, args[|args| - 1]) {
      BehindIsVariable(body, args[..|args| - 1], v);
    }
  }

  lemma WritesAsBlocks(body: Body, v: Id, d: Id)
    ensures NoPartialWrites(body, v) <==> PartBlocks(body, v) == {}
    ensures WrittenOnlyIn(body, v, d) <==> WholeBlocks(body, v) <= {d}
  {
    hide WrittenWholeBy, WrittenPartBy;
    if PartBlocks(body, v) == {} {
      forall b, op | b in body.blocks && op in body.Ops(b) ensures v !in WrittenPartBy(body.pointers, op) {
        assert b !in PartBlocks(body, v);
      }
    }
    if WholeBlocks(body, v) <= {d} {
      forall b, op | b in body.blocks && op in body.Ops(b) && v in WrittenWholeBy(body.pointers, op) ensures b == d {
        assert b in WholeBlocks(body, v);
      }
    }
  }

  ghost function VisitedOf(order: map<Id, nat>, blocks: set<Id>): set<Id> {
    set b | b in order && b in blocks
  }

  /** The nearest common dominator of the visited access blocks, or 0 if none is visited. */
  method AccessDominator(cfg: CFG, blocks: set<Id>) returns (dominator: Id)
    requires cfg.Valid()
    ensures var reached := VisitedOf(cfg.visitOrder, blocks);
            && (dominator == 0 <==> reached == {})
            && (dominator != 0 ==> dominator in cfg.visitOrder && Nearest(cfg.State(), dominator, reached))
  {
    hide CFG.Valid, Nearest;
    ghost var g := cfg.State();
    var builder := new DominatorBuilder(cfg);
    var rest := blocks;
    while rest != {}
      invariant rest <= blocks
      invariant builder.Valid() && builder.cfg == cfg && fresh(builder) && cfg.Valid() && cfg.State() == g
      invariant builder.added == VisitedOf(cfg.visitOrder, blocks - rest)
      decreases rest
    {
      var b :| b in rest;
      builder.AddBlock(b);
      rest := rest - {b};
    }
    assert blocks - rest == blocks;
    dominator := builder.dominator;
  }

  lemma WrittenBlocksKnown(body: Body, v: Id)
    requires body.WellFormed()
    ensures 0 !in WholeBlocks(body, v)
  {
    assert 0 !in body.blocks;
  }

  lemma VariableKnown(body: Body, v: Id)
    requires body.WellFormed() && v in body.pointers.vars
    ensures v != 0 && Traced(body.pointers, v, v)
  {
  }

  lemma LutIsWritten(g: Graph, body: Body, info: VariableInfo, constants: set<Id>, v: Id, c: Id, d: Id)
    requires Traversed(g) && g.func == body.func && body.WellFormed() && v in body.pointers.vars
    requires info.initializer == 0 && IsLut(g, body, info, constants, v, c, d)
    ensures d in WholeBlocks(body, v)
  {
    hide Traversed, Nearest, NoPartialWrites, WrittenOnlyIn, NoStoreBeforeChain, WrittenWholeBy;
    OrderWithinBlocks(g);
    var s: nat :| SingleStore(body.Ops(d), v, c, s);
    VariableKnown(body, v);
    WrittenWholeIff(body.pointers, body.Ops(d)[s], v);
    assert body.Ops(d)[s] in body.Ops(d) && v in WrittenWholeBy(body.pointers, body.Ops(d)[s]);
  }

  lemma DominatorOfAccesses(g: Graph, body: Body, v: Id, r: Id)
    requires Descending(g) && 0 !in g.order
    requires var reached := VisitedOf(g.order, AccessBlocks(body, v));
             && (r == 0 <==> reached == {}) && (r != 0 ==> r in g.order && Nearest(g, r, reached))
    ensures r != 0 ==> NearestAccessDominator(g, body, v, r)
    ensures forall d :: NearestAccessDominator(g, body, v, d) ==> d == r
  {
    var reached := VisitedOf(g.order, AccessBlocks(body, v));
    assert reached == set b | b in g.order && AccessedIn(body, v, b);
    forall d | NearestAccessDominator(g, body, v, d) ensures d == r {
      if r != 0 {
        NearestUnique(g, r, d, reached);
      } else {
        assert DominatesAll(g.succ, g.func.entry, 0, reached);
        DominatorIsHigher(g, 0, d);
        assert false;
      }
    }
  }

  /** At most one constant qualifies. */
  lemma LutUnique(g: Graph, body: Body, info: VariableInfo, constants: set<Id>, v: Id, b: Id, d: Id, c: Id, e: Id)
    requires Descending(g)
    requires IsLut(g, body, info, constants, v, b, d) && IsLut(g, body, info, constants, v, c, e)
    ensures b == c && (info.initializer == 0 ==> d == e)
  {
    hide Descending, Nearest, SingleStore, NoPartialWrites, WrittenOnlyIn, AccessedIn;
    if info.initializer == 0 {
      NearestUnique(g, d, e, set b | b in g.order && AccessedIn(body, v, b));
      var s: nat :| SingleStore(body.Ops(d), v, b, s);
      var t: nat :| SingleStore(body.Ops(d), v, c, t);
      SingleStoreUnique(body.Ops(d), v, b, s, c, t);
    }
  }

  lemma MarkedOnce(cfg: CFG, body: Body, infos: map<Id, VariableInfo>, constants: set<Id>, marked: map<Id, Id>,
                   dominators: map<Id, Id>)
    requires cfg.Valid() && marked.Keys == dominators.Keys <= infos.Keys
    requires forall v :: v in marked ==> IsLut(cfg.State(), body, infos[v], constants, v, marked[v], dominators[v])
    ensures forall v, c, d :: v in marked && IsLut(cfg.State(), body, infos[v], constants, v, c, d) ==> marked[v] == c
  {
    hide CFG.Valid, IsLut, Traversed, Descending, IdomTree;
    ValidMeans(cfg);
    forall v, c, d | v in marked && IsLut(cfg.State(), body, infos[v], constants, v, c, d) ensures marked[v] == c {
      LutUnique(cfg.State(), body, infos[v], constants, v, marked[v], dominators[v], c, d);
    }
  }

  lemma OnlyElement(s: set<Id>, x: Id)
    requires |s| == 1 && x in s
    ensures s == {x}
  {
    assert |s - {x}| == 0;
  }

  /** The constant, found, and that no other exists. */
  ghost predicate Decides(g: Graph, body: Body, info: VariableInfo, constants: set<Id>, v: Id, c: Id, d: Id) {
    if c != 0 then IsLut(g, body, info, constants, v, c, d)
    else forall x, y :: !IsLut(g, body, info, constants, v, x, y)
  }

  method FindInitializer(handler: AccessHandler, info: VariableInfo, constants: set<Id>, v: Id, ghost g: Graph)
    returns (c: Id)
    requires Complete(handler) && handler.body.WellFormed() && info.initializer != 0 && 0 !in constants
    ensures Decides(g, handler.body, info, constants, v, c, 0)
    ensures c != 0 ==> exists e :: IsLut(g, handler.body, info, constants, v, c, e)
  {
    hide Complete, AccessBlocks, WholeBlocks, PartBlocks, NoPartialWrites, WrittenOnlyIn, Body.WellFormed;
    hide NearestAccessDominator;
    HandlerHolds(handler, v);
    WritesAsBlocks(handler.body, v, 0);
    WrittenBlocksKnown(handler.body, v);
    if info.initializer !in constants {
      return 0;
    }
    if v in handler.completeWrites || v in handler.partialWrites {
      return 0;
    }
    return info.initializer;
  }

  method FindSingleStore(cfg: CFG, handler: AccessHandler, info: VariableInfo, constants: set<Id>, v: Id)
    returns (c: Id, ghost d: Id)
    requires cfg.Valid() && Complete(handler) && handler.body.WellFormed() && handler.body.func == cfg.func
    requires v in handler.accessed && 0 !in constants && info.initializer == 0
    ensures Decides(cfg.State(), handler.body, info, constants, v, c, d)
    ensures c != 0 ==> exists e :: IsLut(cfg.State(), handler.body, info, constants, v, c, e)
  {
    hide CFG.Valid, Traversed, Descending, IdomTree, BranchesUp, Complete, Nearest;
    hide AccessBlocks, WholeBlocks, PartBlocks;
    hide NoPartialWrites, WrittenOnlyIn, Body.WellFormed, ScanFrom, NearestAccessDominator, SingleStore;
    ghost var body, g := handler.body, cfg.State();
    c, d := 0, 0;
    HandlerHolds(handler, v);
    AccessedIsVariable(body, v);
    ValidMeans(cfg);
    WritesAsBlocks(body, v, 0);
    forall x: Id, y: Id | IsLut(g, body, info, constants, v, x, y)
      ensures WholeBlocks(body, v) == {y}
    {
      LutIsWritten(g, body, info, constants, v, x, y);
      WritesAsBlocks(body, v, y);
    }
    if v in handler.partialWrites {
      return;
    }
    if v !in handler.completeWrites {
      return;
    }
    var writeBlocks := handler.completeWrites[v];
    if |writeBlocks| != 1 {
      return;
    }
    var dominator := AccessDominator(cfg, handler.accessed[v]);
    DominatorOfAccesses(g, body, v, dominator);
    if dominator !in writeBlocks {
      return;
    }
    OnlyElement(writeBlocks, dominator);
    WrittenBlocksKnown(body, v);
    WritesAsBlocks(body, v, dominator);
    var found := ScanBlock(handler.body.Ops(dominator), v);
    forall x: Id, y: Id | IsLut(g, body, info, constants, v, x, y) ensures found == Scan(x, 1) {
      assert y == dominator;
    }
    if found.writeCount != 1 || found.expression == 0 || found.expression !in constants {
      return;
    }
    return found.expression, dominator;
  }

  /** The constant an array variable can be replaced by, or 0. */
  method FindStaticConstant(cfg: CFG, handler: AccessHandler, info: VariableInfo, constants: set<Id>,
                            singleFunction: bool, v: Id) returns (c: Id, ghost d: Id)
    requires cfg.Valid() && Complete(handler) && handler.body.WellFormed() && handler.body.func == cfg.func
    requires v in handler.accessed && 0 !in constants
    ensures if MayBeLut(info, singleFunction) then Decides(cfg.State(), handler.body, info, constants, v, c, d)
            else c == 0
    ensures c != 0 ==> exists e :: IsLut(cfg.State(), handler.body, info, constants, v, c, e)
  {
    hide CFG.Valid, Complete, Decides, Body.WellFormed;
    d := 0;
    if !info.functionStorage && !(singleFunction && info.privateStorage) {
      return 0, d;
    }
    if info.phi || !info.isArray {
      return 0, d;
    }
    if info.initializer != 0 {
      c := FindInitializer(handler, info, constants, v, cfg.State());
    } else {
      c, d := FindSingleStore(cfg, handler, info, constants, v);
    }
  }

  class LocalLuts {
    /** Variables marked as statically assigned, with their constants. */
    var staticExpressions: map<Id, Id>
    /** The dominating block of each marked variable. */
    ghost var dominators: map<Id, Id>

    constructor ()
      ensures staticExpressions == map[]
    {
      staticExpressions := map[];
      dominators := map[];
    }

    /** Marks exactly the accessed array variables that qualify. */
    method FindFunctionLocalLuts(cfg: CFG, handler: AccessHandler, infos: map<Id, VariableInfo>,
                                 constants: set<Id>, singleFunction: bool)
      requires cfg.Valid() && Complete(handler) && handler.body.WellFormed() && handler.body.func == cfg.func
      requires handler.accessed.Keys <= infos.Keys && 0 !in constants && staticExpressions == map[]
      modifies this
      ensures staticExpressions.Keys == dominators.Keys <= handler.accessed.Keys
      ensures forall v :: v in staticExpressions ==>
                && (infos[v].functionStorage || (singleFunction && infos[v].privateStorage))
                && !infos[v].phi && infos[v].isArray
                && IsLut(cfg.State(), handler.body, infos[v], constants, v, staticExpressions[v], dominators[v])
      ensures forall v, c, d ::
                (&& v in handler.accessed && !infos[v].phi && infos[v].isArray
                 && (infos[v].functionStorage || (singleFunction && infos[v].privateStorage))
                 && IsLut(cfg.State(), handler.body, infos[v], constants, v, c, d)) ==>
                v in staticExpressions && staticExpressions[v] == c
    {
      hide CFG.Valid, Complete, IsLut, Body.WellFormed;
      ghost var g := cfg.State();
      var rest := handler.accessed.Keys;
      dominators := map[];
      while rest != {}
        invariant rest <= handler.accessed.Keys
        invariant staticExpressions.Keys == dominators.Keys <= handler.accessed.Keys - rest
        invariant cfg.Valid() && cfg.State() == g && Complete(handler)
        invariant forall v :: v in staticExpressions ==>
                    && MayBeLut(infos[v], singleFunction)
                    && IsLut(g, handler.body, infos[v], constants, v, staticExpressions[v], dominators[v])
        invariant forall v, c, d ::
                    (v in handler.accessed && v !in rest && v !in staticExpressions
                     && MayBeLut(infos[v], singleFunction)) ==>
                    !IsLut(g, handler.body, infos[v], constants, v, c, d)
        decreases rest
      {
        var v :| v in rest;
        var c, d := FindStaticConstant(cfg, handler, infos[v], constants, singleFunction, v);
        if c != 0 {
          staticExpressions := staticExpressions[v := c];
          dominators := dominators[v := d];
        }
        rest := rest - {v};
      }
      MarkedOnce(cfg, handler.body, infos, constants, staticExpressions, dominators);
    }
  }
}
