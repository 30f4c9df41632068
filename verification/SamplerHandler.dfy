/** The traversal that collects combined image samplers. */
module SamplerHandler {
  import opened Lists
  import opened Spirv
  import opened CombinedSamplers
  import I = Instructions

  /** What the handler keeps about functions, as a value. */
  datatype Tables = Tables(combined: map<Id, seq<Combined>>, done: set<Id>)

  /** Functions that are done have their full list; those never entered have none. */
  ghost predicate Consistent(prog: Program, t: Tables, stack: seq<Id>)
    requires prog.WellFormed()
  {
    && t.combined.Keys == prog.functions.Keys && t.done <= prog.functions.Keys
    && (forall f :: f in prog.functions ==> NoDuplicates(t.combined[f]))
    && (forall f :: f in t.done ==> Elements(t.combined[f]) == Own(prog, f))
    && (forall f :: f in prog.functions && f !in t.done && f !in stack ==> t.combined[f] == [])
  }

  ghost predicate CalleesDone(prog: Program, f: Id, n: nat, done: set<Id>)
    requires f in prog.functions && n <= |prog.functions[f].ops|
  {
    forall k :: 0 <= k < n && prog.functions[f].ops[k].CallFunction? ==> prog.functions[f].ops[k].callee in done
  }

  /** All that a done function calls is done. */
  ghost predicate Closed(prog: Program, done: set<Id>) {
    done <= prog.functions.Keys && forall f :: f in done ==> CalleesDone(prog, f, |prog.functions[f].ops|, done)
  }

  lemma ClosedGrows(prog: Program, done: set<Id>, g: Id)
    requires Closed(prog, done) && g in prog.functions && CalleesDone(prog, g, |prog.functions[g].ops|, done)
    ensures Closed(prog, done + {g})
  {
    forall f | f in done + {g} ensures CalleesDone(prog, f, |prog.functions[f].ops|, done + {g}) {
      assert CalleesDone(prog, f, |prog.functions[f].ops|, done);
    }
  }

  lemma {:induction false} CalledIsDone(prog: Program, f: Id, calls: seq<Op>, done: set<Id>)
    requires IsCallPath(prog, f, calls) && calls != []
    requires Closed(prog, done) && CalleesDone(prog, f, |prog.functions[f].ops|, done)
    ensures calls[|calls| - 1].CallFunction? && calls[|calls| - 1].callee in done
    decreases |calls|
  {
    var k :| 0 <= k < |prog.functions[f].ops| && prog.functions[f].ops[k] == calls[0];
    if |calls| > 1 {
      CalledIsDone(prog, calls[0].callee, calls[1..], done);
    }
  }

  /** Nothing changes for functions higher up than `n`. */
  ghost predicate SameAbove(prog: Program, t: Tables, u: Tables, n: nat) {
    && t.combined.Keys == u.combined.Keys && t.done <= u.done
    && forall f :: f in prog.height && prog.height[f] > n ==>
         (f in t.done <==> f in u.done) && (f in t.combined ==> t.combined[f] == u.combined[f])
  }

  /** A call changes nothing above the caller, and for the caller only what is handed over at the end. */
  lemma CallStaysBelow(prog: Program, t: Tables, u: Tables, v: Tables, f: Id, g: Id)
    requires f in prog.height && g in prog.height && prog.height[g] < prog.height[f]
    requires SameAbove(prog, t, u, prog.height[g]) && f in t.combined
    requires v.combined.Keys == u.combined.Keys && v.combined == u.combined[f := v.combined[f]]
    requires v.done == u.done + {g}
    ensures SameAbove(prog, t, v, prog.height[f])
    ensures f in u.combined && u.combined[f] == t.combined[f] && (f in v.done <==> f in t.done)
    ensures f in u.done <==> f in t.done
  {
  }

  /** The part of a function's own list that a prefix of its instructions gives. */
  ghost function OwnOf(prog: Program, f: Id, ops: seq<Op>): set<Combined>
    requires prog.WellFormed() && f in prog.functions && ops <= prog.functions[f].ops
  {
    var params := prog.functions[f].params;
    DescribeAll(params, PairsOfOps(prog, f, ops, Self(params)))
  }

  lemma OwnOfNext(prog: Program, f: Id, ops: seq<Op>, op: Op)
    requires prog.WellFormed() && f in prog.functions && ops + [op] <= prog.functions[f].ops
    ensures op in prog.functions[f].ops
    ensures var params := prog.functions[f].params;
            OwnOf(prog, f, ops + [op]) ==
            OwnOf(prog, f, ops) + DescribeAll(params, PairsOfOp(prog, f, op, Self(params)))
    ensures forall env ::
              PairsOfOps(prog, f, ops + [op], env) == PairsOfOps(prog, f, ops, env) + PairsOfOp(prog, f, op, env)
  {
    assert (ops + [op])[..|ops|] == ops;
    assert (ops + [op])[|ops|] == op;
    assert op in ops + [op];
  }

  lemma Entered(prog: Program, t: Tables, stack: seq<Id>, g: Id)
    requires prog.WellFormed() && Consistent(prog, t, stack)
    ensures Consistent(prog, t, stack + [g])
    ensures g in prog.functions && g !in stack && g !in t.done ==> t.combined[g] == []
  {
    hide Own;
  }

  lemma FunctionKnown(prog: Program, t: Tables, stack: seq<Id>, f: Id)
    requires prog.WellFormed() && Consistent(prog, t, stack) && f in prog.functions
    ensures f in t.combined && NoDuplicates(t.combined[f])
    ensures f in t.done ==> Elements(t.combined[f]) == Own(prog, f)
    ensures f !in t.done && f !in stack ==> t.combined[f] == []
  {
    hide Own;
  }

  lemma Left(prog: Program, t: Tables, stack: seq<Id>, g: Id)
    requires prog.WellFormed() && Consistent(prog, t, stack) && stack != [] && stack[|stack| - 1] == g
    requires g in prog.functions && Elements(t.combined[g]) == Own(prog, g)
    ensures Consistent(prog, t.(done := t.done + {g}), stack[..|stack| - 1])
  {
    hide Own;
    assert stack == stack[..|stack| - 1] + [g];
  }

  /** Only a function that is being traversed for the first time gets new combined parameters. */
  lemma Recorded(prog: Program, t: Tables, stack: seq<Id>, f: Id, l: seq<Combined>)
    requires prog.WellFormed() && Consistent(prog, t, stack) && f in prog.functions && f in stack && f !in t.done
    requires NoDuplicates(l)
    ensures Consistent(prog, t.(combined := t.combined[f := l]), stack)
  {
    hide Own;
  }

  lemma Described(params: seq<Id>, a: Id, b: Id)
    ensures DescribeAll(params, {(a, b)}) == if Describe(params, a, b).AllGlobal() then {} else {Describe(params, a, b)}
  {
    hide Describe;
    assert (a, b) in {(a, b)};
  }

  lemma NothingYet(prog: Program, f: Id, env: Env)
    requires prog.WellFormed() && f in prog.functions
    ensures OwnOf(prog, f, []) == {} && PairsOfOps(prog, f, [], env) == {} && Elements<Combined>([]) == {}
    ensures OwnOf(prog, f, prog.functions[f].ops) == Own(prog, f)
    ensures PairsOfOps(prog, f, prog.functions[f].ops, env) == Pairs(prog, f, env)
  {
    hide Describe;
  }

  class CombinedImageSamplerHandler {
    const prog: Program
    var parameterRemapping: seq<Env>
    var functions: seq<Id>
    var combinedParameters: map<Id, seq<Combined>>
    /** The functions with do_combined_parameters == false. */
    var done: set<Id>
    var combinedImageSamplers: seq<(Id, Id)>

    ghost function State(): Tables
      reads this
    {
      Tables(combinedParameters, done)
    }

    function TopEnv(): Env
      reads this
    {
      if parameterRemapping == [] then map[] else parameterRemapping[|parameterRemapping| - 1]
    }

    function RemapParameter(id: Id): Id
      reads this
    {
      Sub(TopEnv(), prog.Base(id))
    }

    /** The functions below the running one. */
    ghost function Below(): seq<Id>
      reads this
    {
      if functions == [] then [] else functions[..|functions| - 1]
    }

    /** One function runs inside the calls on the stack. */
    ghost predicate Running(f: Id)
      reads this
    {
      && prog.WellFormed() && f in prog.functions && f in prog.height
      && |functions| == |parameterRemapping|
      && (functions != [] ==> functions[|functions| - 1] == f)
      && (forall g :: g in Below() ==> g in prog.height && prog.height[g] > prog.height[f])
      && Consistent(prog, State(), functions)
      && NoDuplicates(combinedImageSamplers)
      && Closed(prog, done)
    }

    constructor (prog: Program)
      requires prog.WellFormed()
      ensures this.prog == prog && functions == [] && parameterRemapping == [] && combinedImageSamplers == []
      ensures Running(prog.entry) && done == {}
    {
      this.prog := prog;
      parameterRemapping, functions, combinedImageSamplers := [], [], [];
      combinedParameters := map f | f in prog.functions :: [];
      done := {};
    }

    method PushRemapParameters(params: seq<Id>, args: seq<Id>)
      requires |params| == |args|
      modifies this`parameterRemapping
      ensures parameterRemapping == old(parameterRemapping) + [Bind(prog, old(TopEnv()), params, args)]
    {
      var remapping := map[];
      for i := 0 to |params|
        invariant remapping == Bind(prog, TopEnv(), params[..i], args[..i])
        invariant parameterRemapping == old(parameterRemapping)
      {
        assert params[..i + 1][..i] == params[..i] && args[..i + 1][..i] == args[..i];
        remapping := remapping[params[i] := RemapParameter(args[i])];
      }
      assert params[..|params|] == params && args[..|args|] == args;
      parameterRemapping := parameterRemapping + [remapping];
    }

    /** Adds one pair to the combined parameters of `f`, unless both are global or it is there. */
    method RegisterCombinedImageSampler(f: Id, image: Id, sampler: Id)
      requires f in combinedParameters && f in prog.functions && NoDuplicates(combinedParameters[f])
      modifies this`combinedParameters
      ensures f in combinedParameters
      ensures combinedParameters == old(combinedParameters)[f := combinedParameters[f]]
      ensures NoDuplicates(combinedParameters[f])
      ensures var c := Describe(prog.functions[f].params, image, sampler);
              Elements(combinedParameters[f]) ==
              Elements(old(combinedParameters)[f]) + (if c.AllGlobal() then {} else {c})
    {
      var param := Describe(prog.functions[f].params, image, sampler);
      if param.AllGlobal() {
        return;
      }
      if param !in combinedParameters[f] {
        combinedParameters := combinedParameters[f := combinedParameters[f] + [param]];
      }
    }

    /** `f` collects its own combined parameters at the moment. */
    predicate Records(f: Id)
      reads this
    {
      functions != [] && f !in done
    }

    /** One OpSampledImage of function `f`. */
    method HandleSampledImage(f: Id, image: Id, sampler: Id)
      requires Running(f)
      modifies this`combinedParameters, this`combinedImageSamplers
      ensures Running(f) && f in combinedParameters
      ensures !Records(f) ==> combinedParameters == old(combinedParameters)
      ensures combinedParameters == old(combinedParameters)[f := combinedParameters[f]]
      ensures var c := Describe(prog.functions[f].params, prog.Base(image), prog.Base(sampler));
              Elements(combinedParameters[f]) ==
              Elements(old(combinedParameters)[f]) + (if Records(f) && !c.AllGlobal() then {c} else {})
      ensures Elements(combinedImageSamplers) ==
              Elements(old(combinedImageSamplers)) + {(RemapParameter(image), RemapParameter(sampler))}
    {
      hide Program.WellFormed, Own, Describe, Consistent, Closed;
      FunctionKnown(prog, State(), functions, f);
      if functions != [] && f !in done {
        ghost var t := State();
        assert f in functions by { assert functions[|functions| - 1] == f; }
        RegisterCombinedImageSampler(f, prog.Base(image), prog.Base(sampler));
        Recorded(prog, t, functions, f, combinedParameters[f]);
      }
      var pair := (RemapParameter(image), RemapParameter(sampler));
      if pair !in combinedImageSamplers {
        combinedImageSamplers := combinedImageSamplers + [pair];
      }
    }

    method BeginFunctionScope(f: Id, op: Op)
      requires Running(f) && op in prog.functions[f].ops && op.CallFunction?
      modifies this`parameterRemapping, this`functions
      ensures functions == old(functions) + [op.callee]
      ensures |parameterRemapping| == |old(parameterRemapping)| + 1
      ensures parameterRemapping[..|old(parameterRemapping)|] == old(parameterRemapping)
      ensures Running(op.callee) && op.callee !in old(functions) && op.callee in combinedParameters
      ensures op.callee !in done ==> combinedParameters[op.callee] == []
      ensures TopEnv() == Bind(prog, old(TopEnv()), prog.functions[op.callee].params, op.args)
    {
      hide Program.WellFormed, Own, Consistent, Closed;
      CalleeKnown(prog, f, op);
      Entered(prog, State(), functions, op.callee);
      FunctionKnown(prog, State(), functions, op.callee);
      assert functions != [] ==> functions == Below() + [f];
      PushRemapParameters(prog.functions[op.callee].params, op.args);
      functions := functions + [op.callee];
    }

    method EndFunctionScope(f: Id, op: Op)
      requires prog.WellFormed() && f in prog.functions && op in prog.functions[f].ops && op.CallFunction?
      requires Running(op.callee) && |functions| > 0 && functions[|functions| - 1] == op.callee
      requires op.callee !in functions[..|functions| - 1]
      requires |functions| > 1 ==> functions[|functions| - 2] == f
      requires f in prog.height
      requires |functions| > 1 ==>
                 forall g :: g in functions[..|functions| - 2] ==> g in prog.height && prog.height[g] > prog.height[f]
      requires Elements(combinedParameters[op.callee]) == Own(prog, op.callee)
      requires CalleesDone(prog, op.callee, |prog.functions[op.callee].ops|, done)
      modifies this`parameterRemapping, this`functions, this`done, this`combinedParameters
      ensures Running(f) && f in combinedParameters
      ensures !Records(f) ==> combinedParameters == old(combinedParameters)
      ensures functions == old(functions)[..|old(functions)| - 1]
      ensures parameterRemapping == old(parameterRemapping)[..|old(functions)| - 1]
      ensures done == old(done) + {op.callee}
      ensures combinedParameters == old(combinedParameters)[f := combinedParameters[f]]
      ensures Elements(combinedParameters[f]) ==
              Elements(old(combinedParameters)[f])
              + (if Records(f) then AllAtCall(prog, prog.functions[f].params, Own(prog, op.callee), op.args) else {})
    {
      hide Program.WellFormed, Own, Consistent, Closed;
      CalleeKnown(prog, f, op);
      OwnThroughCall(prog, f, op);
      ghost var t, stack := State(), functions;
      Left(prog, t, stack, op.callee);
      ClosedGrows(prog, done, op.callee);
      parameterRemapping := parameterRemapping[..|parameterRemapping| - 1];
      done := done + {op.callee};
      FunctionKnown(prog, State(), stack[..|stack| - 1], f);
      FunctionKnown(prog, State(), stack[..|stack| - 1], op.callee);
      var params := combinedParameters[op.callee];
      functions := functions[..|functions| - 1];
      if functions != [] && f !in done {
        ghost var u := State();
        assert f in functions by { assert functions[|functions| - 1] == f; }
        RegisterAll(f, params, op.args);
        Recorded(prog, u, functions, f, combinedParameters[f]);
      }
    }

    /** Passes the callee's combined parameters on to the caller `f`. */
    method RegisterAll(f: Id, params: seq<Combined>, args: seq<Id>)
      requires f in combinedParameters && f in prog.functions && NoDuplicates(combinedParameters[f])
      requires forall c :: c in params ==> Fits(c, |args|)
      modifies this`combinedParameters
      ensures f in combinedParameters
      ensures combinedParameters == old(combinedParameters)[f := combinedParameters[f]]
      ensures NoDuplicates(combinedParameters[f])
      ensures Elements(combinedParameters[f]) ==
              Elements(old(combinedParameters)[f]) + AllAtCall(prog, prog.functions[f].params, Elements(params), args)
    {
      hide Describe;
      ghost var before := Elements(combinedParameters[f]);
      ghost var mine := prog.functions[f].params;
      for i := 0 to |params|
        invariant f in combinedParameters
        invariant combinedParameters == old(combinedParameters)[f := combinedParameters[f]]
        invariant NoDuplicates(combinedParameters[f])
        invariant Elements(combinedParameters[f]) == before + AllAtCall(prog, mine, Elements(params[..i]), args)
      {
        var c := params[i];
        assert Elements(params[..i + 1]) == Elements(params[..i]) + {c};
        AllAtCallOne(prog, mine, Elements(params[..i]), c, args);
        RegisterCombinedImageSampler(f, At(prog, c.globalImage, c.image, args),
                                     At(prog, c.globalSampler, c.sampler, args));
      }
      assert params[..|params|] == params;
    }

    /** One call in `f`: the callee runs with its parameters bound, then hands over its own list. */
    method HandleCall(f: Id, op: Op)
      requires Running(f) && op in prog.functions[f].ops && op.CallFunction?
      modifies this
      ensures Running(f) && functions == old(functions) && parameterRemapping == old(parameterRemapping)
      ensures SameAbove(prog, old(State()), State(), prog.height[f])
      ensures f in done <==> f in old(done)
      ensures f in combinedParameters && f in old(combinedParameters)
      ensures Records(f) ==>
                Elements(combinedParameters[f]) ==
                Elements(old(combinedParameters)[f])
                + DescribeAll(prog.functions[f].params, PairsOfOp(prog, f, op, Self(prog.functions[f].params)))
      ensures !Records(f) ==> combinedParameters[f] == old(combinedParameters)[f]
      ensures Elements(combinedImageSamplers) == Elements(old(combinedImageSamplers)) + PairsOfOp(prog, f, op, TopEnv())
      ensures op.CallFunction? ==> op.callee in done
      decreases prog.height[f], 0
    {
      hide Program.WellFormed, Own, Consistent, Closed, DescribeAll, Bind, AllAtCall, Elements, Pairs, PairsOfOp;
      hide SameAbove, CalleesDone;
      CallPairs(prog, f, op, TopEnv());
      CalleeKnown(prog, f, op);
      FunctionKnown(prog, State(), functions, f);
      ghost var t := State();
      BeginFunctionScope(f, op);
      TraverseFunction(op.callee);
      ghost var u := State();
      FunctionKnown(prog, u, functions, op.callee);
      FunctionKnown(prog, u, functions, f);
      EndFunctionScope(f, op);
      OwnThroughCall(prog, f, op);
      CallStaysBelow(prog, t, u, State(), f, op.callee);
    }

    /** One instruction of `f`. */
    method HandleOp(f: Id, op: Op)
      requires Running(f) && op in prog.functions[f].ops
      modifies this
      ensures Running(f) && functions == old(functions) && parameterRemapping == old(parameterRemapping)
      ensures SameAbove(prog, old(State()), State(), prog.height[f])
      ensures f in done <==> f in old(done)
      ensures f in combinedParameters && f in old(combinedParameters)
      ensures Records(f) ==>
                Elements(combinedParameters[f]) ==
                Elements(old(combinedParameters)[f])
                + DescribeAll(prog.functions[f].params, PairsOfOp(prog, f, op, Self(prog.functions[f].params)))
      ensures !Records(f) ==> combinedParameters[f] == old(combinedParameters)[f]
      ensures Elements(combinedImageSamplers) == Elements(old(combinedImageSamplers)) + PairsOfOp(prog, f, op, TopEnv())
      ensures op.CallFunction? ==> op.callee in done
      decreases prog.height[f], 1
    {
      hide Program.WellFormed, Own, Consistent, Closed;
      FunctionKnown(prog, State(), functions, f);
      match op {
        case SampledImage(i, s) =>
          HandleSampledImage(f, i, s);
          Described(prog.functions[f].params, prog.Base(i), prog.Base(s));
        case CallFunction(g, args) =>
          HandleCall(f, op);
        case OtherOp =>
      }
    }

    /** All instructions of `f`, following its calls. */
    method TraverseFunction(f: Id)
      requires Running(f) && (Records(f) ==> f in combinedParameters && combinedParameters[f] == [])
      modifies this
      ensures Running(f) && functions == old(functions) && parameterRemapping == old(parameterRemapping)
      ensures SameAbove(prog, old(State()), State(), prog.height[f])
      ensures f in done <==> f in old(done)
      ensures f in combinedParameters && f in old(combinedParameters)
      ensures Records(f) ==> Elements(combinedParameters[f]) == Own(prog, f)
      ensures !Records(f) ==> combinedParameters[f] == old(combinedParameters)[f]
      ensures Elements(combinedImageSamplers) == Elements(old(combinedImageSamplers)) + Pairs(prog, f, TopEnv())
      ensures CalleesDone(prog, f, |prog.functions[f].ops|, done)
      decreases prog.height[f], 2
    {
      hide Program.WellFormed, Consistent, Closed, Own, OwnOf, Pairs, PairsOfOps, PairsOfOp, DescribeAll, Elements;
      FunctionKnown(prog, State(), functions, f);
      NothingYet(prog, f, TopEnv());
      var ops := prog.functions[f].ops;
      ghost var env := TopEnv();
      for i := 0 to |ops|
        invariant Running(f) && functions == old(functions) && parameterRemapping == old(parameterRemapping)
        invariant SameAbove(prog, old(State()), State(), prog.height[f]) && f in combinedParameters
        invariant f in done <==> f in old(done)
        invariant CalleesDone(prog, f, i, done)
        invariant Records(f) ==> Elements(combinedParameters[f]) == OwnOf(prog, f, ops[..i])
        invariant !Records(f) ==> combinedParameters[f] == old(combinedParameters)[f]
        invariant Elements(combinedImageSamplers) ==
                  Elements(old(combinedImageSamplers)) + PairsOfOps(prog, f, ops[..i], env)
      {
        assert ops[..i + 1] == ops[..i] + [ops[i]];
        OwnOfNext(prog, f, ops[..i], ops[i]);
        HandleOp(f, ops[i]);
      }
      assert ops[..|ops|] == ops;
    }
  }

  /** What the list of a whole program says, once it holds the pairs of the entry function. */
  lemma PairsListed(prog: Program, l: seq<(Id, Id)>)
    requires prog.WellFormed() && prog.entry in prog.functions && Elements(l) == Pairs(prog, prog.entry, map[])
    ensures forall pr :: pr in l <==> exists calls :: CombinesAt(prog, prog.entry, calls, pr)
    ensures forall op, i: Id, s: Id :: (op in prog.functions[prog.entry].ops && op.SampledImage?
                && I.Traced(prog.pointers, op.image, i) && I.Traced(prog.pointers, op.sampler, s)) ==> (i, s) in l
    ensures AllTraced(prog) ==> forall pr :: pr in l ==> pr.0 in prog.pointers.vars && pr.1 in prog.pointers.vars
    ensures prog.functions[prog.entry].params == [] ==>
              forall pr :: pr in l ==> IsGlobal(prog, pr.0) && IsGlobal(prog, pr.1)
  {
    hide CombinesAt, AllTraced, Pairs, Program.WellFormed, I.Traced, IsGlobal;
    forall pr ensures pr in l <==> exists calls :: CombinesAt(prog, prog.entry, calls, pr) {
      PairsAreResolved(prog, prog.entry, map[], pr);
      assert pr in l <==> pr in Elements(l);
    }
    forall op, i: Id, s: Id | op in prog.functions[prog.entry].ops && op.SampledImage?
        && I.Traced(prog.pointers, op.image, i) && I.Traced(prog.pointers, op.sampler, s)
      ensures (i, s) in l
    {
      CombinesOwn(prog, prog.entry, op, i, s);
    }
    if AllTraced(prog) {
      forall pr | pr in l ensures pr.0 in prog.pointers.vars && pr.1 in prog.pointers.vars {
        var calls :| CombinesAt(prog, prog.entry, calls, pr);
        CombinesVariables(prog, prog.entry, calls, pr);
      }
    }
    if prog.functions[prog.entry].params == [] {
      forall pr | pr in l ensures IsGlobal(prog, pr.0) && IsGlobal(prog, pr.1) {
        assert pr in Elements(l);
        PairIsGlobal(prog, prog.entry, map[], pr);
      }
    }
  }

  /** A call path from `f` combines a pair that `c` asks for. */
  ghost predicate IsAsked(prog: Program, f: Id, c: Combined) {
    f in prog.functions &&
    exists calls, a: Id, b: Id :: CombinesAt(prog, f, calls, (a, b)) && AsksFor(prog.functions[f].params, c, a, b)
  }

  lemma OwnListed(prog: Program, f: Id, l: seq<Combined>)
    requires prog.WellFormed() && f in prog.functions && Elements(l) == Own(prog, f)
    ensures forall c :: c in l <==> IsAsked(prog, f, c)
  {
    hide CombinesAt, AsksFor, Own, Program.WellFormed;
    forall c ensures c in l <==> IsAsked(prog, f, c) {
      assert c in l <==> c in Elements(l);
      OwnIsResolved(prog, f, c);
    }
  }

  /** Collecting combined image samplers for a whole program. */
  method BuildCombinedImageSamplers(prog: Program) returns (h: CombinedImageSamplerHandler)
    requires prog.WellFormed()
    ensures h.prog == prog && NoDuplicates(h.combinedImageSamplers)
    ensures forall pr :: pr in h.combinedImageSamplers <==> exists calls :: CombinesAt(prog, prog.entry, calls, pr)
    ensures forall op, i: Id, s: Id :: (op in prog.functions[prog.entry].ops && op.SampledImage?
                && I.Traced(prog.pointers, op.image, i) && I.Traced(prog.pointers, op.sampler, s)) ==>
              (i, s) in h.combinedImageSamplers
    ensures AllTraced(prog) ==>
              forall pr :: pr in h.combinedImageSamplers ==> pr.0 in prog.pointers.vars && pr.1 in prog.pointers.vars
    ensures prog.functions[prog.entry].params == [] ==>
              forall pr :: pr in h.combinedImageSamplers ==> IsGlobal(prog, pr.0) && IsGlobal(prog, pr.1)
    ensures forall calls: seq<Op> :: IsCallPath(prog, prog.entry, calls) && calls != [] ==>
              calls[|calls| - 1].CallFunction? && calls[|calls| - 1].callee in h.done
    ensures forall f :: f in h.done ==>
              f in prog.functions && f in h.combinedParameters && NoDuplicates(h.combinedParameters[f])
              && forall c :: c in h.combinedParameters[f] <==> IsAsked(prog, f, c)
  {
    hide CombinesAt, AllTraced, AsksFor, Own, Pairs, Program.WellFormed, I.Traced, IsGlobal, IsCallPath;
    h := new CombinedImageSamplerHandler(prog);
    h.TraverseFunction(prog.entry);
    PairsListed(prog, h.combinedImageSamplers);
    forall f | f in h.done
      ensures f in prog.functions && f in h.combinedParameters && NoDuplicates(h.combinedParameters[f])
      ensures forall c :: c in h.combinedParameters[f] <==> IsAsked(prog, f, c)
    {
      FunctionKnown(prog, h.State(), h.functions, f);
      OwnListed(prog, f, h.combinedParameters[f]);
    }
    forall calls: seq<Op> | IsCallPath(prog, prog.entry, calls) && calls != []
      ensures calls[|calls| - 1].CallFunction? && calls[|calls| - 1].callee in h.done
    {
      CalledIsDone(prog, prog.entry, calls, h.done);
    }
  }

  lemma AllAtCallOne(prog: Program, params: seq<Id>, cs: set<Combined>, c: Combined, args: seq<Id>)
    requires Fits(c, |args|)
    ensures AllAtCall(prog, params, cs + {c}, args) ==
            AllAtCall(prog, params, cs, args)
            + (if AtCall(prog, params, c, args).AllGlobal() then {} else {AtCall(prog, params, c, args)})
  {
    hide AtCall;
  }
}
