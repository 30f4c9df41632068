/** Which image is combined with which sampler, over all calls of a program. */
module CombinedSamplers {
  import opened Spirv
  import opened Instructions

  datatype Op = SampledImage(image: Id, sampler: Id) | CallFunction(callee: Id, args: seq<Id>) | OtherOp

  datatype Code = Code(params: seq<Id>, ops: seq<Op>)

  /** `height` bears witness that the call graph has no cycle. */
  datatype Program = Program(functions: map<Id, Code>, entry: Id, pointers: Pointers, height: map<Id, nat>)
  {
    /** The variable behind an id, or the id itself. */
    function Base(x: Id): Id {
      if pointers.Backing(x) != 0 then pointers.Backing(x) else x
    }

    predicate UsedBy(op: Op, x: Id) {
      match op
      case SampledImage(i, s) => x == Base(i) || x == Base(s)
      case CallFunction(_, args) => exists a :: a in args && x == Base(a)
      case OtherOp => false
    }

    ghost predicate Uses(f: Id, x: Id) {
      f in functions && exists op :: op in functions[f].ops && UsedBy(op, x)
    }

    /** Calls are acyclic and well-typed, and parameters belong to one function. */
    ghost predicate WellFormed() {
      && 0 !in pointers.vars
      && (forall p :: p in pointers.loadedFrom && pointers.loadedFrom[p] != 0 ==>
            pointers.loadedFrom[p] in pointers.vars)
      && entry in functions && height.Keys == functions.Keys
      && (forall f, op :: f in functions && op in functions[f].ops && op.CallFunction? ==>
            && op.callee in functions && height[op.callee] < height[f]
            && |op.args| == |functions[op.callee].params|)
      && (forall f, i, j :: f in functions && 0 <= i < j < |functions[f].params| ==>
            functions[f].params[i] != functions[f].params[j])
      && (forall f, g, x :: f in functions && f != g && Uses(g, x) ==> x !in functions[f].params)
    }
  }

  // ---------------------------------------------------------------- substitution

  type Env = map<Id, Id>

  function Sub(env: Env, x: Id): Id { if x in env then env[x] else x }

  /** Parameters bound to what their arguments stand for. */
  function Bind(prog: Program, env: Env, params: seq<Id>, args: seq<Id>): (r: Env)
    requires |params| == |args|
    ensures r.Keys == set p | p in params
  {
    if params == [] then map[]
    else
      var n := |params| - 1;
      assert params == params[..n] + [params[n]];
      Bind(prog, env, params[..n], args[..n])[params[n] := Sub(env, prog.Base(args[n]))]
  }

  /** All pairs that `f` combines when its parameters stand for `env`, directly or in a callee. */
  ghost function Pairs(prog: Program, f: Id, env: Env): set<(Id, Id)>
    requires prog.WellFormed() && f in prog.functions
    decreases prog.height[f], |prog.functions[f].ops| + 1
  {
    PairsOfOps(prog, f, prog.functions[f].ops, env)
  }

  ghost function PairsOfOps(prog: Program, f: Id, ops: seq<Op>, env: Env): set<(Id, Id)>
    requires prog.WellFormed() && f in prog.functions && ops <= prog.functions[f].ops
    decreases prog.height[f], |ops|
  {
    if ops == [] then {}
    else
      var n := |ops| - 1;
      assert ops[n] in prog.functions[f].ops;
      PairsOfOps(prog, f, ops[..n], env) + PairsOfOp(prog, f, ops[n], env)
  }

  ghost function PairsOfOp(prog: Program, f: Id, op: Op, env: Env): set<(Id, Id)>
    requires prog.WellFormed() && f in prog.functions && op in prog.functions[f].ops
    decreases prog.height[f], 0
  {
    match op
    case SampledImage(i, s) => {(Sub(env, prog.Base(i)), Sub(env, prog.Base(s)))}
    case CallFunction(g, args) => Pairs(prog, g, Bind(prog, env, prog.functions[g].params, args))
    case OtherOp => {}
  }

  // ---------------------------------------------------------------- the reference: call paths

  /** A chain of calls, each made by the function that the one before it enters. */
  ghost predicate IsCallPath(prog: Program, f: Id, calls: seq<Op>)
    decreases |calls|
  {
    f in prog.functions &&
    (calls == [] ||
     (&& calls[0].CallFunction? && calls[0] in prog.functions[f].ops
      && calls[0].callee in prog.functions
      && |calls[0].args| == |prog.functions[calls[0].callee].params|
      && IsCallPath(prog, calls[0].callee, calls[1..])))
  }

  /** `pr` is combined at the end of the call path, with arguments substituted along it. */
  ghost predicate CombinedAlong(prog: Program, f: Id, env: Env, calls: seq<Op>, pr: (Id, Id))
    requires IsCallPath(prog, f, calls)
    decreases |calls|
  {
    if calls == [] then
      exists op :: op in prog.functions[f].ops && op.SampledImage?
        && pr == (Sub(env, prog.Base(op.image)), Sub(env, prog.Base(op.sampler)))
    else
      CombinedAlong(prog, calls[0].callee, Bind(prog, env, prog.functions[calls[0].callee].params, calls[0].args),
                    calls[1..], pr)
  }

  ghost predicate Combines(prog: Program, f: Id, env: Env, calls: seq<Op>, pr: (Id, Id)) {
    IsCallPath(prog, f, calls) && CombinedAlong(prog, f, env, calls, pr)
  }

  lemma {:induction false} InPairsOfOps(prog: Program, f: Id, ops: seq<Op>, env: Env, pr: (Id, Id))
    requires prog.WellFormed() && f in prog.functions && ops <= prog.functions[f].ops
    ensures pr in PairsOfOps(prog, f, ops, env) <==>
              exists op :: op in ops && op in prog.functions[f].ops && pr in PairsOfOp(prog, f, op, env)
    decreases |ops|
  {
    if ops != [] {
      var n := |ops| - 1;
      assert ops == ops[..n] + [ops[n]];
      assert ops[n] in prog.functions[f].ops;
      InPairsOfOps(prog, f, ops[..n], env, pr);
    }
  }

  lemma {:induction false} PairHasPath(prog: Program, f: Id, env: Env, pr: (Id, Id)) returns (calls: seq<Op>)
    requires prog.WellFormed() && f in prog.functions && pr in Pairs(prog, f, env)
    ensures IsCallPath(prog, f, calls) && CombinedAlong(prog, f, env, calls, pr)
    decreases prog.height[f]
  {
    var ops := prog.functions[f].ops;
    InPairsOfOps(prog, f, ops, env, pr);
    var op :| op in ops && pr in PairsOfOp(prog, f, op, env);
    match op {
      case SampledImage(i, s) => calls := [];
      case CallFunction(g, args) =>
        var rest := PairHasPath(prog, g, Bind(prog, env, prog.functions[g].params, args), pr);
        calls := [op] + rest;
        assert calls[1..] == rest;
    }
  }

  lemma {:induction false} PathGivesPair(prog: Program, f: Id, env: Env, calls: seq<Op>, pr: (Id, Id))
    requires prog.WellFormed() && IsCallPath(prog, f, calls) && CombinedAlong(prog, f, env, calls, pr)
    ensures pr in Pairs(prog, f, env)
    decreases |calls|
  {
    var ops := prog.functions[f].ops;
    InPairsOfOps(prog, f, ops, env, pr);
    if calls == [] {
      var op :| op in ops && op.SampledImage? && pr == (Sub(env, prog.Base(op.image)), Sub(env, prog.Base(op.sampler)));
      assert pr in PairsOfOp(prog, f, op, env);
    } else {
      PathGivesPair(prog, calls[0].callee,
                    Bind(prog, env, prog.functions[calls[0].callee].params, calls[0].args), calls[1..], pr);
      assert pr in PairsOfOp(prog, f, calls[0], env);
    }
  }

  /** The pairs of a function are exactly what its call paths combine. */
  lemma PairsAreCallPaths(prog: Program, f: Id, env: Env, pr: (Id, Id))
    requires prog.WellFormed() && f in prog.functions
    ensures pr in Pairs(prog, f, env) <==> exists calls :: Combines(prog, f, env, calls, pr)
  {
    if pr in Pairs(prog, f, env) {
      var calls := PairHasPath(prog, f, env, pr);
      assert Combines(prog, f, env, calls, pr);
    }
    forall calls | Combines(prog, f, env, calls, pr)
      ensures pr in Pairs(prog, f, env)
    {
      PathGivesPair(prog, f, env, calls, pr);
    }
  }

  // ---------------------------------------------------------------- which variables that is

  function IndexOf(params: seq<Id>, x: Id): (i: nat)
    ensures i <= |params| && (i < |params| <==> x in params)
    ensures i < |params| ==> params[i] == x
    ensures forall j :: 0 <= j < i ==> params[j] != x
  {
    if params == [] || params[0] == x then 0 else 1 + IndexOf(params[1..], x)
  }

  /** The function at the end of the call path. */
  ghost function Reached(f: Id, calls: seq<Op>): Id {
    if calls != [] && calls[|calls| - 1].CallFunction? then calls[|calls| - 1].callee else f
  }

  /** What an operand in the function at the end of the call path stands for: the operand itself, or
      the variable it was loaded from, and for a parameter of that function what its argument stands
      for in the caller. */
  ghost function Resolve(prog: Program, calls: seq<Op>, x: Id): Id
    decreases |calls|
  {
    var loaded := prog.pointers.loadedFrom;
    var own := if x !in prog.pointers.vars && x in loaded && loaded[x] != 0 then loaded[x] else x;
    if calls == [] || !calls[|calls| - 1].CallFunction? || calls[|calls| - 1].callee !in prog.functions then own
    else
      var call := calls[|calls| - 1];
      var i := IndexOf(prog.functions[call.callee].params, own);
      if i < |prog.functions[call.callee].params| && i < |call.args|
      then Resolve(prog, calls[..|calls| - 1], call.args[i])
      else own
  }

  /** The function at the end of the call path combines what stands for these two. */
  ghost predicate CombinesAt(prog: Program, f: Id, calls: seq<Op>, pr: (Id, Id)) {
    && IsCallPath(prog, f, calls) && Reached(f, calls) in prog.functions
    && exists op :: op in prog.functions[Reached(f, calls)].ops && op.SampledImage?
         && pr == (Resolve(prog, calls, op.image), Resolve(prog, calls, op.sampler))
  }

  lemma {:induction false} BindAt(prog: Program, env: Env, params: seq<Id>, args: seq<Id>, i: nat)
    requires |params| == |args| && i < |params|
    requires forall j, k :: 0 <= j < k < |params| ==> params[j] != params[k]
    ensures Bind(prog, env, params, args)[params[i]] == Sub(env, prog.Base(args[i]))
  {
    var n := |params| - 1;
    var before := Bind(prog, env, params[..n], args[..n]);
    if i < n {
      BindAt(prog, env, params[..n], args[..n], i);
      assert before[params[i]] == Sub(env, prog.Base(args[i]));
      assert params[i] != params[n];
    }
  }

  /** What the parameters of the function at the end of the call path are bound to. */
  ghost function EnvAlong(prog: Program, f: Id, env: Env, calls: seq<Op>): Env
    requires IsCallPath(prog, f, calls)
    decreases |calls|
  {
    if calls == [] then env
    else
      var params := prog.functions[calls[0].callee].params;
      EnvAlong(prog, calls[0].callee, Bind(prog, env, params, calls[0].args), calls[1..])
  }

  lemma {:induction false} EndOfPath(prog: Program, f: Id, env: Env, calls: seq<Op>, pr: (Id, Id))
    requires IsCallPath(prog, f, calls)
    ensures Reached(f, calls) in prog.functions
    ensures CombinedAlong(prog, f, env, calls, pr) <==>
              exists op :: op in prog.functions[Reached(f, calls)].ops && op.SampledImage?
                && pr == (Sub(EnvAlong(prog, f, env, calls), prog.Base(op.image)),
                          Sub(EnvAlong(prog, f, env, calls), prog.Base(op.sampler)))
    decreases |calls|
  {
    if calls != [] {
      var g, rest := calls[0].callee, calls[1..];
      EndOfPath(prog, g, Bind(prog, env, prog.functions[g].params, calls[0].args), rest, pr);
      assert Reached(f, calls) == Reached(g, rest) by {
        if rest != [] { assert rest[|rest| - 1] == calls[|calls| - 1]; LastCall(prog, f, calls); }
      }
    }
  }

  lemma {:induction false} LastCall(prog: Program, f: Id, calls: seq<Op>)
    requires IsCallPath(prog, f, calls) && calls != []
    ensures var last := calls[|calls| - 1];
            && last.CallFunction? && last.callee in prog.functions
            && |last.args| == |prog.functions[last.callee].params|
    decreases |calls|
  {
    if |calls| > 1 {
      LastCall(prog, calls[0].callee, calls[1..]);
    }
  }

  lemma {:induction false} EnvLast(prog: Program, f: Id, env: Env, calls: seq<Op>)
    requires IsCallPath(prog, f, calls) && calls != []
    ensures var n := |calls| - 1;
            && calls[n].CallFunction? && calls[n].callee in prog.functions
            && |calls[n].args| == |prog.functions[calls[n].callee].params|
            && IsCallPath(prog, f, calls[..n])
            && EnvAlong(prog, f, env, calls) ==
               Bind(prog, EnvAlong(prog, f, env, calls[..n]), prog.functions[calls[n].callee].params, calls[n].args)
    decreases |calls|
  {
    var n := |calls| - 1;
    if n > 0 {
      var g, rest := calls[0].callee, calls[1..];
      EnvLast(prog, g, Bind(prog, env, prog.functions[g].params, calls[0].args), rest);
      assert calls[..n][1..] == rest[..n - 1] && calls[..n][0] == calls[0];
    }
  }

  /** Nothing is replaced by something else. */
  ghost predicate IsIdentity(env: Env) { forall x :: x in env ==> env[x] == x }

  /** Binding parameters on the way down gives what looking up arguments on the way back gives. */
  lemma {:induction false} BoundIsResolved(prog: Program, f: Id, env: Env, calls: seq<Op>, x: Id)
    requires prog.WellFormed() && IsCallPath(prog, f, calls) && IsIdentity(env)
    ensures Sub(EnvAlong(prog, f, env, calls), prog.Base(x)) == Resolve(prog, calls, x)
    decreases |calls|
  {
    if calls != [] {
      EnvLast(prog, f, env, calls);
      var before, call := calls[..|calls| - 1], calls[|calls| - 1];
      var params, own := prog.functions[call.callee].params, prog.Base(x);
      if own in params {
        var i := IndexOf(params, own);
        BindAt(prog, EnvAlong(prog, f, env, before), params, call.args, i);
        BoundIsResolved(prog, f, env, before, call.args[i]);
      }
    }
  }

  /** The pairs of a function are exactly those of variables that its call paths combine. */
  lemma PairsAreResolved(prog: Program, f: Id, env: Env, pr: (Id, Id))
    requires prog.WellFormed() && f in prog.functions && IsIdentity(env)
    ensures pr in Pairs(prog, f, env) <==> exists calls :: CombinesAt(prog, f, calls, pr)
  {
    hide Program.WellFormed, Pairs, Program.Base, Resolve, CombinedAlong, IsIdentity;
    PairsAreCallPaths(prog, f, env, pr);
    forall calls | IsCallPath(prog, f, calls)
      ensures Combines(prog, f, env, calls, pr) <==> CombinesAt(prog, f, calls, pr)
    {
      EndOfPath(prog, f, env, calls, pr);
      forall op: Op | op.SampledImage?
        ensures Sub(EnvAlong(prog, f, env, calls), prog.Base(op.image)) == Resolve(prog, calls, op.image)
        ensures Sub(EnvAlong(prog, f, env, calls), prog.Base(op.sampler)) == Resolve(prog, calls, op.sampler)
      {
        BoundIsResolved(prog, f, env, calls, op.image);
        BoundIsResolved(prog, f, env, calls, op.sampler);
      }
    }
    if pr in Pairs(prog, f, env) {
      var calls :| Combines(prog, f, env, calls, pr);
      assert CombinesAt(prog, f, calls, pr);
    }
    if calls :| CombinesAt(prog, f, calls, pr) {
      assert Combines(prog, f, env, calls, pr);
    }
  }

  /** The compiler knows a variable behind every operand and argument. */
  ghost predicate AllTraced(prog: Program) {
    forall f, op, x :: f in prog.functions && op in prog.functions[f].ops && HasOperand(op, x) ==>
      exists v :: Traced(prog.pointers, x, v)
  }

  predicate HasOperand(op: Op, x: Id) {
    match op
    case SampledImage(i, s) => x == i || x == s
    case CallFunction(_, args) => x in args
    case OtherOp => false
  }

  lemma {:induction false} PathBefore(prog: Program, f: Id, calls: seq<Op>)
    requires IsCallPath(prog, f, calls) && calls != []
    ensures var n := |calls| - 1;
            && IsCallPath(prog, f, calls[..n]) && Reached(f, calls[..n]) in prog.functions
            && calls[n] in prog.functions[Reached(f, calls[..n])].ops && calls[n].CallFunction?
    decreases |calls|
  {
    var n := |calls| - 1;
    if n > 0 {
      var g, rest := calls[0].callee, calls[1..];
      PathBefore(prog, g, rest);
      assert calls[..n][1..] == rest[..n - 1] && calls[..n][0] == calls[0];
      if n > 1 {
        LastCall(prog, g, rest[..n - 1]);
        assert rest[..n - 1][n - 2] == calls[..n][n - 1];
      }
    }
  }

  lemma OperandTraced(prog: Program, g: Id, op: Op, x: Id)
    requires prog.WellFormed() && AllTraced(prog)
    requires g in prog.functions && op in prog.functions[g].ops && HasOperand(op, x)
    ensures x in prog.pointers.vars ||
            (x in prog.pointers.loadedFrom && prog.pointers.loadedFrom[x] in prog.pointers.vars
             && prog.pointers.loadedFrom[x] != 0)
  {
    var v :| Traced(prog.pointers, x, v);
  }

  /** Then every operand stands for a variable. */
  lemma {:induction false} ResolvesToVariable(prog: Program, f: Id, calls: seq<Op>, op: Op, x: Id)
    requires prog.WellFormed() && AllTraced(prog) && IsCallPath(prog, f, calls)
    requires Reached(f, calls) in prog.functions && op in prog.functions[Reached(f, calls)].ops && HasOperand(op, x)
    ensures Resolve(prog, calls, x) in prog.pointers.vars
    decreases |calls|
  {
    OperandTraced(prog, Reached(f, calls), op, x);
    if calls != [] {
      hide Program.WellFormed, AllTraced, IsCallPath;
      PathBefore(prog, f, calls);
      LastCall(prog, f, calls);
      var call := calls[|calls| - 1];
      var own := if x in prog.pointers.vars then x else prog.pointers.loadedFrom[x];
      var i := IndexOf(prog.functions[call.callee].params, own);
      if i < |call.args| {
        ResolvesToVariable(prog, f, calls[..|calls| - 1], call, call.args[i]);
      }
    }
  }

  lemma CombinesVariables(prog: Program, f: Id, calls: seq<Op>, pr: (Id, Id))
    requires prog.WellFormed() && AllTraced(prog) && CombinesAt(prog, f, calls, pr)
    ensures pr.0 in prog.pointers.vars && pr.1 in prog.pointers.vars
  {
    var op :| op in prog.functions[Reached(f, calls)].ops && op.SampledImage?
           && pr == (Resolve(prog, calls, op.image), Resolve(prog, calls, op.sampler));
    ResolvesToVariable(prog, f, calls, op, op.image);
    ResolvesToVariable(prog, f, calls, op, op.sampler);
  }

  /** In `f` itself, an image and a sampler loaded from two variables combine these variables. */
  lemma CombinesOwn(prog: Program, f: Id, op: Op, i: Id, s: Id)
    requires f in prog.functions && op in prog.functions[f].ops && op.SampledImage?
    requires Traced(prog.pointers, op.image, i) && Traced(prog.pointers, op.sampler, s)
    ensures CombinesAt(prog, f, [], (i, s))
  {
  }

  // ---------------------------------------------------------------- pairs relative to a function

  /** Every parameter stands for itself. */
  ghost function Self(params: seq<Id>): Env { map p | p in params :: p }

  ghost function Then(env: Env, sigma: Env): Env { map x | x in env :: Sub(sigma, env[x]) }

  ghost function MapPairs(pairs: set<(Id, Id)>, sigma: Env): set<(Id, Id)> {
    set pr | pr in pairs :: (Sub(sigma, pr.0), Sub(sigma, pr.1))
  }

  /** `sigma` changes nothing that `f` or a function below it uses, except through `env`. */
  ghost predicate Reaches(prog: Program, f: Id, env: Env, sigma: Env)
    requires prog.WellFormed() && f in prog.functions
  {
    && (forall x :: prog.Uses(f, x) && x !in env ==> x !in sigma)
    && (forall g, x :: g in prog.functions && prog.height[g] < prog.height[f] && prog.Uses(g, x) ==>
          x in prog.functions[g].params || x !in sigma)
  }

  lemma {:induction false} BindThen(prog: Program, env: Env, sigma: Env, params: seq<Id>, args: seq<Id>)
    requires |params| == |args|
    requires forall a :: a in args ==> prog.Base(a) in env || prog.Base(a) !in sigma
    ensures Bind(prog, Then(env, sigma), params, args) == Then(Bind(prog, env, params, args), sigma)
  {
    if params != [] {
      var n := |params| - 1;
      assert args == args[..n] + [args[n]];
      BindThen(prog, env, sigma, params[..n], args[..n]);
    }
  }

  /** Substituting before or after collecting the pairs comes to the same. */
  lemma {:induction false} PairsThen(prog: Program, f: Id, env: Env, sigma: Env)
    requires prog.WellFormed() && f in prog.functions && Reaches(prog, f, env, sigma)
    ensures Pairs(prog, f, Then(env, sigma)) == MapPairs(Pairs(prog, f, env), sigma)
    decreases prog.height[f], |prog.functions[f].ops| + 1
  {
    PairsOfOpsThen(prog, f, prog.functions[f].ops, env, sigma);
  }

  lemma {:induction false} PairsOfOpsThen(prog: Program, f: Id, ops: seq<Op>, env: Env, sigma: Env)
    requires prog.WellFormed() && f in prog.functions && Reaches(prog, f, env, sigma)
    requires ops <= prog.functions[f].ops
    ensures PairsOfOps(prog, f, ops, Then(env, sigma)) == MapPairs(PairsOfOps(prog, f, ops, env), sigma)
    decreases prog.height[f], |ops|
  {
    if ops != [] {
      var n := |ops| - 1;
      var op := ops[n];
      assert op in prog.functions[f].ops;
      PairsOfOpsThen(prog, f, ops[..n], env, sigma);
      PairsOfOpThen(prog, f, op, env, sigma);
    }
  }

  lemma {:induction false} PairsOfOpThen(prog: Program, f: Id, op: Op, env: Env, sigma: Env)
    requires prog.WellFormed() && f in prog.functions && Reaches(prog, f, env, sigma)
    requires op in prog.functions[f].ops
    ensures PairsOfOp(prog, f, op, Then(env, sigma)) == MapPairs(PairsOfOp(prog, f, op, env), sigma)
    decreases prog.height[f], 0
  {
    match op {
      case SampledImage(i, s) =>
        assert prog.UsedBy(op, prog.Base(i)) && prog.UsedBy(op, prog.Base(s));
        assert prog.Uses(f, prog.Base(i)) && prog.Uses(f, prog.Base(s));
      case CallFunction(g, args) =>
        forall a | a in args ensures prog.Base(a) in env || prog.Base(a) !in sigma {
          assert prog.UsedBy(op, prog.Base(a));
          assert prog.Uses(f, prog.Base(a));
        }
        var params := prog.functions[g].params;
        BindThen(prog, env, sigma, params, args);
        PairsThen(prog, g, Bind(prog, env, params, args), sigma);
      case OtherOp =>
    }
  }

  // ---------------------------------------------------------------- what a function asks of its callers

  /** A parameter is given by its position, anything else by its id. */
  datatype Combined = Combined(globalImage: bool, image: nat, globalSampler: bool, sampler: nat)
  {
    predicate AllGlobal() { globalImage && globalSampler }
  }

  function Position(params: seq<Id>, x: Id): nat {
    if x in params then IndexOf(params, x) else x
  }

  function Describe(params: seq<Id>, image: Id, sampler: Id): Combined {
    Combined(image !in params, Position(params, image), sampler !in params, Position(params, sampler))
  }

  ghost function DescribeAll(params: seq<Id>, pairs: set<(Id, Id)>): set<Combined> {
    set pr | pr in pairs && !Describe(params, pr.0, pr.1).AllGlobal() :: Describe(params, pr.0, pr.1)
  }

  /** The combined parameters of `f`: all pairs below it that involve one of its parameters. */
  ghost function Own(prog: Program, f: Id): set<Combined>
    requires prog.WellFormed() && f in prog.functions
  {
    var params := prog.functions[f].params;
    DescribeAll(params, Pairs(prog, f, Self(params)))
  }

  /** `c` asks for the pair `(a, b)`, which involves a parameter: parameters by position. */
  predicate AsksFor(params: seq<Id>, c: Combined, a: Id, b: Id) {
    && (a in params || b in params)
    && c.globalImage == (a !in params) && c.globalSampler == (b !in params)
    && (if c.globalImage then c.image == a else c.image < |params| && params[c.image] == a)
    && (if c.globalSampler then c.sampler == b else c.sampler < |params| && params[c.sampler] == b)
  }

  lemma DescribedIffAsked(params: seq<Id>, c: Combined, a: Id, b: Id)
    requires forall i, j :: 0 <= i < j < |params| ==> params[i] != params[j]
    ensures AsksFor(params, c, a, b) <==> c == Describe(params, a, b) && !c.AllGlobal()
  {
  }

  /** The combined parameters of `f` are exactly the pairs that call paths from `f` combine and that
      involve one of its parameters. */
  lemma OwnIsResolved(prog: Program, f: Id, c: Combined)
    requires prog.WellFormed() && f in prog.functions
    ensures c in Own(prog, f) <==>
              exists calls, a: Id, b: Id ::
                CombinesAt(prog, f, calls, (a, b)) && AsksFor(prog.functions[f].params, c, a, b)
  {
    hide CombinesAt, Pairs, Describe, AsksFor;
    var params := prog.functions[f].params;
    forall a: Id, b: Id
      ensures (a, b) in Pairs(prog, f, Self(params)) <==> exists calls :: CombinesAt(prog, f, calls, (a, b))
    {
      PairsAreResolved(prog, f, Self(params), (a, b));
    }
    forall a: Id, b: Id ensures AsksFor(params, c, a, b) <==> c == Describe(params, a, b) && !c.AllGlobal() {
      DescribedIffAsked(params, c, a, b);
    }
    if c in Own(prog, f) {
      var pr :| pr in Pairs(prog, f, Self(params)) && c == Describe(params, pr.0, pr.1) && !c.AllGlobal();
      assert (pr.0, pr.1) == pr;
      var calls :| CombinesAt(prog, f, calls, (pr.0, pr.1));
    }
    if calls, a: Id, b: Id :| CombinesAt(prog, f, calls, (a, b)) && AsksFor(params, c, a, b) {
      assert (a, b) in Pairs(prog, f, Self(params));
    }
  }

  /** A position that was made from a parameter or an id, turned back into an id at a call. */
  function At(prog: Program, global: bool, position: nat, args: seq<Id>): Id
    requires if global then position <= 0xffff_ffff else position < |args|
  {
    if global then prog.Base(position) else prog.Base(args[position])
  }

  ghost predicate Fits(c: Combined, n: nat) {
    && (if c.globalImage then c.image <= 0xffff_ffff else c.image < n)
    && (if c.globalSampler then c.sampler <= 0xffff_ffff else c.sampler < n)
  }

  ghost function AtCall(prog: Program, params: seq<Id>, c: Combined, args: seq<Id>): Combined
    requires Fits(c, |args|)
  {
    Describe(params, At(prog, c.globalImage, c.image, args), At(prog, c.globalSampler, c.sampler, args))
  }

  lemma BaseIsStable(prog: Program, x: Id)
    requires prog.WellFormed()
    ensures prog.Base(prog.Base(x)) == prog.Base(x)
  {
  }

  /** Where the ids of a pair come from. */
  ghost predicate Comes(prog: Program, f: Id, env: Env, a: Id)
    requires prog.WellFormed() && f in prog.functions
  {
    (exists x :: x in env && env[x] == a) ||
    (exists h :: h in prog.functions && prog.height[h] <= prog.height[f] && prog.Uses(h, a) && prog.Base(a) == a)
  }

  lemma SubComes(prog: Program, f: Id, env: Env, op: Op, a: Id)
    requires prog.WellFormed() && f in prog.functions && op in prog.functions[f].ops && prog.UsedBy(op, prog.Base(a))
    ensures Comes(prog, f, env, Sub(env, prog.Base(a)))
  {
    BaseIsStable(prog, a);
    assert prog.Uses(f, prog.Base(a));
  }

  lemma {:induction false} BindComes(prog: Program, f: Id, env: Env, op: Op, params: seq<Id>, args: seq<Id>, x: Id)
    requires prog.WellFormed() && f in prog.functions && op in prog.functions[f].ops
    requires op.CallFunction? && |params| == |args| && (forall a :: a in args ==> a in op.args)
    requires x in Bind(prog, env, params, args)
    ensures Comes(prog, f, env, Bind(prog, env, params, args)[x])
  {
    var n := |params| - 1;
    if x == params[n] {
      assert args[n] in args && prog.UsedBy(op, prog.Base(args[n]));
      SubComes(prog, f, env, op, args[n]);
    } else {
      assert args == args[..n] + [args[n]];
      BindComes(prog, f, env, op, params[..n], args[..n], x);
    }
  }

  lemma {:induction false} PairComes(prog: Program, f: Id, env: Env, pr: (Id, Id))
    requires prog.WellFormed() && f in prog.functions && pr in Pairs(prog, f, env)
    ensures Comes(prog, f, env, pr.0) && Comes(prog, f, env, pr.1)
    decreases prog.height[f]
  {
    var ops := prog.functions[f].ops;
    InPairsOfOps(prog, f, ops, env, pr);
    var op :| op in ops && pr in PairsOfOp(prog, f, op, env);
    match op {
      case SampledImage(i, s) =>
        SubComes(prog, f, env, op, i);
        SubComes(prog, f, env, op, s);
      case CallFunction(g, args) =>
        var params := prog.functions[g].params;
        var below := Bind(prog, env, params, args);
        PairComes(prog, g, below, pr);
        forall x | x in below ensures Comes(prog, f, env, below[x]) {
          BindComes(prog, f, env, op, params, args, x);
        }
    }
  }

  /** The id is no function parameter. */
  ghost predicate IsGlobal(prog: Program, a: Id) {
    forall f :: f in prog.functions ==> a !in prog.functions[f].params
  }

  /** All parameters of `f` stand for globals. */
  ghost predicate BoundToGlobals(prog: Program, f: Id, env: Env)
    requires f in prog.functions
  {
    (forall p :: p in prog.functions[f].params ==> p in env) && forall x :: x in env ==> IsGlobal(prog, env[x])
  }

  lemma SubIsGlobal(prog: Program, f: Id, env: Env, op: Op, a: Id)
    requires prog.WellFormed() && f in prog.functions && op in prog.functions[f].ops && prog.UsedBy(op, prog.Base(a))
    requires BoundToGlobals(prog, f, env)
    ensures IsGlobal(prog, Sub(env, prog.Base(a)))
  {
    assert prog.Uses(f, prog.Base(a));
  }

  lemma {:induction false} BindToGlobals(prog: Program, f: Id, env: Env, op: Op, params: seq<Id>, args: seq<Id>)
    requires prog.WellFormed() && f in prog.functions && op in prog.functions[f].ops && BoundToGlobals(prog, f, env)
    requires op.CallFunction? && |params| == |args| && (forall a :: a in args ==> a in op.args)
    ensures forall x :: x in Bind(prog, env, params, args) ==> IsGlobal(prog, Bind(prog, env, params, args)[x])
  {
    hide IsGlobal, Program.WellFormed, BoundToGlobals;
    if params != [] {
      var n := |params| - 1;
      assert args == args[..n] + [args[n]];
      BindToGlobals(prog, f, env, op, params[..n], args[..n]);
      assert args[n] in args && prog.UsedBy(op, prog.Base(args[n]));
      SubIsGlobal(prog, f, env, op, args[n]);
    }
  }

  /** Once parameters stand for globals, everything that is combined is global. */
  lemma {:induction false} PairIsGlobal(prog: Program, f: Id, env: Env, pr: (Id, Id))
    requires prog.WellFormed() && f in prog.functions && pr in Pairs(prog, f, env) && BoundToGlobals(prog, f, env)
    ensures IsGlobal(prog, pr.0) && IsGlobal(prog, pr.1)
    decreases prog.height[f]
  {
    hide IsGlobal;
    var ops := prog.functions[f].ops;
    InPairsOfOps(prog, f, ops, env, pr);
    var op :| op in ops && pr in PairsOfOp(prog, f, op, env);
    match op {
      case SampledImage(i, s) =>
        SubIsGlobal(prog, f, env, op, i);
        SubIsGlobal(prog, f, env, op, s);
      case CallFunction(g, args) =>
        BindToGlobals(prog, f, env, op, prog.functions[g].params, args);
        PairIsGlobal(prog, g, Bind(prog, env, prog.functions[g].params, args), pr);
    }
  }

  /** At a call, the parameters that the callee asks for are found again among those of the caller. */
  lemma OwnThroughCall(prog: Program, f: Id, op: Op)
    requires prog.WellFormed() && f in prog.functions && op in prog.functions[f].ops && op.CallFunction?
    ensures forall c :: c in Own(prog, op.callee) ==> Fits(c, |op.args|)
    ensures DescribeAll(prog.functions[f].params, PairsOfOp(prog, f, op, Self(prog.functions[f].params))) ==
            AllAtCall(prog, prog.functions[f].params, Own(prog, op.callee), op.args)
  {
    hide Program.WellFormed, Pairs, PairsOfOp, Describe, AtCall;
    var g, mine := op.callee, prog.functions[f].params;
    CalleeKnown(prog, f, op);
    var params := prog.functions[g].params;
    var below := Bind(prog, Self(mine), params, op.args);
    var pairs := Pairs(prog, g, Self(params));
    PairsThroughCall(prog, f, op);
    forall pr | pr in pairs
      ensures var c, d := Describe(params, pr.0, pr.1), Describe(mine, Sub(below, pr.0), Sub(below, pr.1));
              Fits(c, |op.args|) && AtCall(prog, mine, c, op.args) == d && (c.AllGlobal() ==> d.AllGlobal())
    {
      DescribeThroughCall(prog, f, op, pr);
    }
    var here := PairsOfOp(prog, f, op, Self(mine));
    forall d | d in DescribeAll(mine, here) ensures d in AllAtCall(prog, mine, Own(prog, g), op.args) {
      var at :| at in here && d == Describe(mine, at.0, at.1) && !d.AllGlobal();
      var pr :| pr in pairs && at == (Sub(below, pr.0), Sub(below, pr.1));
      assert Describe(params, pr.0, pr.1) in Own(prog, g);
    }
    forall d | d in AllAtCall(prog, mine, Own(prog, g), op.args) ensures d in DescribeAll(mine, here) {
      var c :| c in Own(prog, g) && Fits(c, |op.args|) && d == AtCall(prog, mine, c, op.args) && !d.AllGlobal();
      var pr :| pr in pairs && c == Describe(params, pr.0, pr.1);
      assert (Sub(below, pr.0), Sub(below, pr.1)) in here;
    }
  }

  ghost function AllAtCall(prog: Program, params: seq<Id>, cs: set<Combined>, args: seq<Id>): set<Combined> {
    set c | c in cs && Fits(c, |args|) && !AtCall(prog, params, c, args).AllGlobal() :: AtCall(prog, params, c, args)
  }

  lemma CalleeKnown(prog: Program, f: Id, op: Op)
    requires prog.WellFormed() && f in prog.functions && op in prog.functions[f].ops && op.CallFunction?
    ensures op.callee in prog.functions && f in prog.height && op.callee in prog.height
    ensures prog.height[op.callee] < prog.height[f]
    ensures |op.args| == |prog.functions[op.callee].params|
  {
  }

  lemma PairsThroughCall(prog: Program, f: Id, op: Op)
    requires prog.WellFormed() && f in prog.functions && op in prog.functions[f].ops && op.CallFunction?
    ensures var mine, params := prog.functions[f].params, prog.functions[op.callee].params;
            PairsOfOp(prog, f, op, Self(mine)) ==
            MapPairs(Pairs(prog, op.callee, Self(params)), Bind(prog, Self(mine), params, op.args))
  {
    var g, mine := op.callee, prog.functions[f].params;
    var params := prog.functions[g].params;
    var below := Bind(prog, Self(mine), params, op.args);
    assert Then(Self(params), below) == below;
    assert Reaches(prog, g, Self(params), below);
    PairsThen(prog, g, Self(params), below);
  }

  lemma DescribeThroughCall(prog: Program, f: Id, op: Op, pr: (Id, Id))
    requires prog.WellFormed() && f in prog.functions && op in prog.functions[f].ops && op.CallFunction?
    requires pr in Pairs(prog, op.callee, Self(prog.functions[op.callee].params))
    ensures var params, mine := prog.functions[op.callee].params, prog.functions[f].params;
            var below := Bind(prog, Self(mine), params, op.args);
            var c, d := Describe(params, pr.0, pr.1), Describe(mine, Sub(below, pr.0), Sub(below, pr.1));
            Fits(c, |op.args|) && AtCall(prog, mine, c, op.args) == d && (c.AllGlobal() ==> d.AllGlobal())
  {
    hide Program.WellFormed, Pairs, Bind;
    CalleeKnown(prog, f, op);
    IdAtCall(prog, f, op, pr.0, pr);
    IdAtCall(prog, f, op, pr.1, pr);
  }

  lemma IdAtCall(prog: Program, f: Id, op: Op, a: Id, pr: (Id, Id))
    requires prog.WellFormed() && f in prog.functions && op in prog.functions[f].ops && op.CallFunction?
    requires pr in Pairs(prog, op.callee, Self(prog.functions[op.callee].params)) && (a == pr.0 || a == pr.1)
    ensures var params, mine := prog.functions[op.callee].params, prog.functions[f].params;
            var below := Bind(prog, Self(mine), params, op.args);
            if a in params
            then Position(params, a) < |op.args| && Sub(below, a) == prog.Base(op.args[Position(params, a)])
            else Sub(below, a) == a == prog.Base(a) && a !in mine
  {
    var params, mine := prog.functions[op.callee].params, prog.functions[f].params;
    PairComes(prog, op.callee, Self(params), pr);
    if a in params {
      BindAt(prog, Self(mine), params, op.args, IndexOf(params, a));
    } else {
      var h :| h in prog.functions && prog.height[h] <= prog.height[op.callee] && prog.Uses(h, a) && prog.Base(a) == a;
      assert h != f;
    }
  }

  lemma CallPairs(prog: Program, f: Id, op: Op, env: Env)
    requires prog.WellFormed() && f in prog.functions && op in prog.functions[f].ops && op.CallFunction?
    ensures PairsOfOp(prog, f, op, env) ==
            Pairs(prog, op.callee, Bind(prog, env, prog.functions[op.callee].params, op.args))
  {
  }

  /** Whatever combined parameter a callee asks for, its caller has among its own, or it is a pair of
      two globals. */
  lemma CallerCanSupply(prog: Program, f: Id, op: Op, c: Combined)
    requires prog.WellFormed() && f in prog.functions && op in prog.functions[f].ops && op.CallFunction?
    requires c in Own(prog, op.callee)
    ensures Fits(c, |op.args|)
    ensures var d := AtCall(prog, prog.functions[f].params, c, op.args); d.AllGlobal() || d in Own(prog, f)
  {
    hide Program.WellFormed, PairsOfOp, Describe, AtCall;
    CalleeKnown(prog, f, op);
    OwnThroughCall(prog, f, op);
    var mine := prog.functions[f].params;
    var d := AtCall(prog, mine, c, op.args);
    if !d.AllGlobal() {
      assert d in AllAtCall(prog, mine, Own(prog, op.callee), op.args);
      var pr :| pr in PairsOfOp(prog, f, op, Self(mine)) && d == Describe(mine, pr.0, pr.1);
      InPairsOfOps(prog, f, prog.functions[f].ops, Self(mine), pr);
      assert pr in Pairs(prog, f, Self(mine));
    }
  }
}
