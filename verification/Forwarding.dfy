/** Expressions forwarded from variables, and when they go stale. */
module Forwarding {
  import opened Lists
  import opened Spirv

  /** What is fixed while a function is emitted. `aliased`, `globals`, `locals` and `arguments` are
      the compiler's lists of variables; `pointable` are the variables that pointers may point to,
      whether the compiler lists them or not. */
  datatype Context = Context(
    variables: set<Id>,
    immutable: set<Id>,
    storageAliased: set<Id>,
    pointerData: set<Id>,
    pointable: set<Id>,
    parameters: set<Id>,
    aliased: seq<Id>,
    globals: seq<Id>,
    locals: seq<Id>,
    arguments: seq<Id>)
  {
    function Active(): set<Id> {
      set v | v in locals + arguments + globals + aliased
    }

    function Aliased(): set<Id> { set v | v in aliased }

    function AtomicCapable(): set<Id> { set v | v in globals + aliased }

    ghost predicate WellFormed() {
      && 0 !in variables
      && (forall v :: v in locals + arguments + globals + aliased ==> v in variables)
      && (forall v :: v in storageAliased ==> v in aliased)
      && pointable <= variables
    }

    ghost function Regions(): set<Region> {
      (set v | v in variables :: OwnData(v)) + {PhysicalMemory}
    }

    // -------------------------------------------------------------- what the language allows

    /** A region that other buffers may overlap. */
    predicate IsBuffer(r: Region) { r.PhysicalMemory? || r.variable in storageAliased }

    /** A store to a pointer that is traced to variable `v` (0 if to none) may change the variable
        itself; any buffer, if it goes to one; and whatever can be pointed to, if it goes through a
        pointer held in the variable or through an untraced one. */
    predicate MayChange(v: Id, t: ChainType, r: Region) {
      || (v != 0 && !t.physical && r == OwnData(v))
      || ((if v != 0 then t.physical || v in storageAliased else t.pointer && t.physical) && IsBuffer(r))
      || ((if v != 0 then v in pointerData else t.pointer) && r.OwnData? && r.variable in pointable)
    }

    // -------------------------------------------------------------- what the compiler invalidates

    /** Every variable whose dependees a store invalidates. */
    function Flushes(v: Id, t: ChainType): set<Id> {
      if v == 0 then (if t.pointer then Active() else {})
      else
        (if v in pointerData then Active() else {})
        + (if t.physical || v in storageAliased then Aliased() else {v})
    }

    /** Variable by variable: those in one of the four lists, when the store may go anywhere; those in
        the aliased list, when it goes to a buffer; and else the variable stored to. */
    lemma FlushesIff(v: Id, t: ChainType, w: Id)
      ensures w in Flushes(v, t) <==>
                || ((if v == 0 then t.pointer else v in pointerData)
                    && (w in locals || w in arguments || w in globals || w in aliased))
                || (v != 0 && (t.physical || v in storageAliased) && w in aliased)
                || (v != 0 && !t.physical && v !in storageAliased && w == v)
    {
    }

    /** The dependees of the variable stored to are among them. */
    predicate FlushesOwn(v: Id, t: ChainType) {
      || !t.physical || v in aliased
      || (v in pointerData && (v in locals || v in arguments || v in globals))
    }

    lemma OwnFlushIff(v: Id, t: ChainType)
      requires WellFormed() && v in variables
      ensures v in Flushes(v, t) <==> FlushesOwn(v, t)
    {
    }

    /** No store can change region `r` without invalidating the dependees of `w`. */
    predicate Covered(w: Id, r: Region) {
      var listed := w in locals || w in arguments || w in globals || w in aliased;
      || (r == OwnData(w) && (w !in pointable || listed))
      || (IsBuffer(r) && w in aliased)
      || (listed && (if IsBuffer(r) then variables <= pointerData else r.variable in pointerData))
    }

    lemma CoveredIsFlushed(w: Id, r: Region, v: Id, t: ChainType)
      requires WellFormed() && Covered(w, r) && w in variables && (v == 0 || v in variables)
      requires MayChange(v, t, r)
      ensures w in Flushes(v, t)
    {
    }

    /** A store that changes `r` and leaves the dependees of `w` alone. */
    lemma Uncovered(w: Id, r: Region) returns (v: Id, t: ChainType)
      requires WellFormed() && !Covered(w, r) && w in variables && r in Regions()
      ensures (v == 0 || v in variables) && MayChange(v, t, r) && w !in Flushes(v, t)
    {
      if r == OwnData(w) {
        v, t := 0, ChainType(true, 1, false);
      } else if !IsBuffer(r) {
        v, t := r.variable, ChainType(true, 1, false);
      } else if w in locals || w in arguments || w in globals || w in aliased {
        v :| v in variables && v !in pointerData;
        t := ChainType(true, 1, true);
      } else if r.PhysicalMemory? {
        v, t := 0, ChainType(true, 1, true);
      } else {
        v, t := w, ChainType(true, 1, true);
      }
    }

    /** What is read is covered exactly when every store that may change it invalidates the dependees
        of the variable it was traced to. */
    lemma CoveredIff(w: Id, r: Region)
      requires WellFormed() && w in variables && r in Regions()
      ensures Covered(w, r) <==>
                forall v, t :: (v == 0 || v in variables) && MayChange(v, t, r) ==> w in Flushes(v, t)
    {
      hide WellFormed, Covered, MayChange, Flushes, Regions;
      if Covered(w, r) {
        forall v, t | (v == 0 || v in variables) && MayChange(v, t, r) ensures w in Flushes(v, t) {
          CoveredIsFlushed(w, r, v, t);
        }
      } else {
        var v, t := Uncovered(w, r);
      }
    }

    /** The data of a variable that pointers may reach but the compiler does not list, such as a storage
        buffer decorated Restrict, is not covered: a store through an untraced pointer may change it and
        leaves it forwarded. */
    lemma UnlistedPointeeUncovered(w: Id)
      requires WellFormed() && w in variables && w in pointable
      requires w !in locals && w !in arguments && w !in globals && w !in aliased
      ensures !Covered(w, OwnData(w))
      ensures MayChange(0, ChainType(true, 1, false), OwnData(w)) && w !in Flushes(0, ChainType(true, 1, false))
    {
    }

    /** What is read through a physical pointer held in a variable that is neither aliased nor of
        pointer type itself, such as a block of push constants, is not covered: the next store through
        the same pointer changes it and leaves it forwarded. */
    lemma PhysicalReadUncovered(w: Id)
      requires WellFormed() && w in variables && w !in aliased && w !in pointerData
      ensures !Covered(w, PhysicalMemory)
      ensures MayChange(w, ChainType(true, 1, true), PhysicalMemory) && w !in Flushes(w, ChainType(true, 1, true))
    {
    }
  }

  /** The type of the pointer that is stored through. */
  datatype ChainType = ChainType(pointer: bool, pointerDepth: nat, physical: bool)

  /** Memory that expressions are read from: the data of one variable, or the memory behind physical
      pointers. */
  datatype Region = OwnData(variable: Id) | PhysicalMemory

  /** Expression `expr` was read from `region`, at that version, by a pointer traced to `variable`. */
  datatype Forward = Forward(expr: Id, variable: Id, region: Region, version: nat)

  class Tracker {
    const ctx: Context
    var dependees: map<Id, seq<Id>>
    var invalidExpressions: set<Id>
    var loadedFrom: map<Id, Id>
    var readCount: map<Id, nat>
    var writeCount: map<Id, nat>
    var forceRecompile: bool
    /** How often the content of each region has changed, and every forwarded read so far. */
    ghost var version: map<Region, nat>
    ghost var forwards: set<Forward>

    /** An expression that is not invalid is a dependee of its variable and, if what it was read from is
        covered, still up to date. */
    ghost predicate Valid()
      reads this
    {
      && ctx.WellFormed()
      && dependees.Keys == ctx.variables && version.Keys == ctx.Regions()
      && readCount.Keys == writeCount.Keys == ctx.parameters
      && ctx.parameters <= ctx.variables && 0 !in ctx.parameters
      && (forall x :: x in loadedFrom && loadedFrom[x] != 0 ==> loadedFrom[x] in ctx.variables)
      && UpToDate(ctx, forwards, State(), version)
    }

    constructor (ctx: Context)
      requires ctx.WellFormed() && ctx.parameters <= ctx.variables
      ensures Valid() && this.ctx == ctx && invalidExpressions == {} && forwards == {} && loadedFrom == map[]
      ensures forall v :: v in dependees ==> dependees[v] == []
    {
      this.ctx := ctx;
      dependees := map v | v in ctx.variables :: [];
      version := map r | r in ctx.Regions() :: 0;
      readCount := map v | v in ctx.parameters :: 0;
      writeCount := map v | v in ctx.parameters :: 0;
      loadedFrom := map[];
      invalidExpressions, forwards, forceRecompile := {}, {}, false;
    }

    /** 0 when no variable is known behind the chain. */
    function BackingVariable(chain: Id): Id
      reads this
    {
      if chain in ctx.variables then chain else if chain in loadedFrom then loadedFrom[chain] else 0
    }

    method AddDependee(v: Id, expr: Id, ghost region: Region)
      requires UpToDate(ctx, forwards, State(), version) && v in dependees && region in version
      modifies this`dependees, this`forwards
      ensures UpToDate(ctx, forwards, State(), version) && dependees.Keys == old(dependees).Keys
      ensures dependees == old(dependees)[v := old(dependees)[v] + [expr]]
      ensures forwards == old(forwards) + {Forward(expr, v, region, version[region])}
    {
      ReadKeeps(ctx, forwards, State(), version, v, expr, region);
      dependees := dependees[v := dependees[v] + [expr]];
      forwards := forwards + {Forward(expr, v, region, version[region])};
    }

    /** `region` is what is really read. */
    method RegisterRead(expr: Id, chain: Id, forwarded: bool, ghost region: Region)
      requires Valid() && region in version
      modifies this
      ensures Valid() && invalidExpressions == old(invalidExpressions) && version == old(version)
      ensures var v := if chain in ctx.variables then chain
                       else if chain in old(loadedFrom) then old(loadedFrom)[chain] else 0;
              if v == 0 then forwards == old(forwards) && dependees == old(dependees) && loadedFrom == old(loadedFrom)
              else
                && loadedFrom == old(loadedFrom)[expr := v]
                && (if forwarded && v !in ctx.immutable
                    then forwards == old(forwards) + {Forward(expr, v, region, version[region])}
                         && dependees == old(dependees)[v := old(dependees)[v] + [expr]]
                    else forwards == old(forwards) && dependees == old(dependees))
      ensures writeCount == old(writeCount) && forceRecompile == old(forceRecompile)
      ensures readCount == (var v := old(BackingVariable(chain));
                            if v in ctx.parameters then old(readCount)[v := old(readCount)[v] + 1] else old(readCount))
    {
      hide UpToDate, Context.WellFormed, Context.Regions, Context.Covered;
      var v := BackingVariable(chain);
      if v != 0 {
        loadedFrom := loadedFrom[expr := v];
        if forwarded && v !in ctx.immutable {
          AddDependee(v, expr, region);
        }
        if v in ctx.parameters {
          readCount := readCount[v := readCount[v] + 1];
        }
      }
    }

    ghost function State(): Cache
      reads this
    {
      Cache(dependees, invalidExpressions)
    }

    method FlushDependees(v: Id)
      requires v in dependees
      modifies this`dependees, this`invalidExpressions
      ensures State() == old(State()).Flushed({v})
    {
      var l := dependees[v];
      for i := 0 to |l|
        invariant dependees == old(dependees)
        invariant invalidExpressions == old(invalidExpressions) + Elements(l[..i])
      {
        assert Elements(l[..i + 1]) == Elements(l[..i]) + {l[i]};
        invalidExpressions := invalidExpressions + {l[i]};
      }
      assert l[..|l|] == l;
      dependees := dependees[v := []];
      assert Dependents(old(dependees), {v}) == Elements(l);
    }

    method FlushList(l: seq<Id>)
      requires forall v :: v in l ==> v in dependees
      modifies this`dependees, this`invalidExpressions
      ensures State() == old(State()).Flushed(Elements(l))
    {
      hide Cache.Flushed;
      ghost var before := State();
      before.FlushNothing();
      assert Elements(l[..0]) == {};
      for i := 0 to |l|
        invariant State() == before.Flushed(Elements(l[..i])) && dependees.Keys == before.dependees.Keys
      {
        assert Elements(l[..i + 1]) == Elements(l[..i]) + {l[i]};
        before.FlushTwice(Elements(l[..i]), {l[i]});
        FlushDependees(l[i]);
        State().SameKeys({});
        before.SameKeys(Elements(l[..i + 1]));
      }
      assert l[..|l|] == l;
    }

    /** The compiler's lists hold variables. */
    ghost predicate Listed()
      reads this
    {
      ctx.WellFormed() && dependees.Keys == ctx.variables
    }

    method FlushAllAliasedVariables()
      requires Listed()
      modifies this`dependees, this`invalidExpressions
      ensures State() == old(State()).Flushed(ctx.Aliased())
    {
      FlushList(ctx.aliased);
      assert Elements(ctx.aliased) == ctx.Aliased();
    }

    method FlushAllAtomicCapableVariables()
      requires Valid()
      modifies this`dependees, this`invalidExpressions
      ensures State() == old(State()).Flushed(ctx.AtomicCapable()) && Valid()
      ensures NothingElse(old(State()), State())
      ensures forall w :: w in old(dependees) ==>
                InvalidatedIf(forwards, old(State()), State(), w, w in ctx.globals || w in ctx.aliased)
    {
      hide UpToDate, Cache.Flushed, InvalidatedIf, NothingElse;
      ghost var before := State();
      before.SameKeys(Elements(ctx.globals));
      before.SameKeys(ctx.AtomicCapable());
      FlushList(ctx.globals);
      FlushList(ctx.aliased);
      before.FlushTwice(Elements(ctx.globals), Elements(ctx.aliased));
      assert ctx.AtomicCapable() == Elements(ctx.globals) + Elements(ctx.aliased);
      FlushInvalidates(ctx, forwards, before, version, ctx.AtomicCapable());
      WriteKeeps(ctx, forwards, before, version, ctx.AtomicCapable(), {});
      assert Bumped(version, {}) == version;
    }

    method FlushAllActiveVariables()
      requires Listed()
      modifies this`dependees, this`invalidExpressions
      ensures State() == old(State()).Flushed(ctx.Active())
      ensures FlushedLists(ctx, old(State()), State())
    {
      hide Cache.Flushed, FlushedLists;
      ghost var before := State();
      before.SameKeys({});
      ghost var l, a, g := Elements(ctx.locals), Elements(ctx.arguments), Elements(ctx.globals);
      before.SameKeys(l);
      before.SameKeys(l + a);
      before.SameKeys(l + a + g);
      FlushList(ctx.locals);
      FlushList(ctx.arguments);
      before.FlushTwice(l, a);
      FlushList(ctx.globals);
      before.FlushTwice(l + a, g);
      FlushList(ctx.aliased);
      before.FlushTwice(l + a + g, Elements(ctx.aliased));
      ActiveByLists(ctx, before);
      assert ctx.Active() == l + a + g + Elements(ctx.aliased);
    }

    /** Flushes for a store traced to variable `v`; tells whether `v` itself is written to. */
    method FlushThrough(v: Id, t: ChainType) returns (checkArgumentStorageQualifier: bool)
      requires Listed() && v in ctx.variables && v != 0
      modifies this`dependees, this`invalidExpressions
      ensures State() == old(State()).Flushed(ctx.Flushes(v, t))
      ensures checkArgumentStorageQualifier <==> !(v in ctx.pointerData && t.pointerDepth == 1)
    {
      hide UpToDate, Cache.Flushed, Context.Active, Context.Aliased, Context.WellFormed;
      ghost var before := State();
      before.FlushNothing();
      checkArgumentStorageQualifier := true;
      if v in ctx.pointerData {
        FlushAllActiveVariables();
        if t.pointerDepth == 1 {
          checkArgumentStorageQualifier := false;
        }
      }
      ghost var first: set<Id> := if v in ctx.pointerData then ctx.Active() else {};
      before.SameKeys(first);
      if t.physical || v in ctx.storageAliased {
        FlushAllAliasedVariables();
        before.FlushTwice(first, ctx.Aliased());
      } else {
        FlushDependees(v);
        before.FlushTwice(first, {v});
      }
    }

    /** Flushes for a store that is traced to `v`, or to nothing if that is 0, and changes `hit`. */
    method FlushForStore(v: Id, t: ChainType, ghost hit: set<Region>) returns (checkArgumentStorageQualifier: bool)
      requires Listed() && (v == 0 || v in ctx.variables) && UpToDate(ctx, forwards, State(), version)
      requires hit <= version.Keys && forall r :: r in hit ==> ctx.MayChange(v, t, r)
      modifies this`dependees, this`invalidExpressions, this`version
      ensures Listed() && UpToDate(ctx, forwards, State(), version)
      ensures version == Bumped(old(version), hit) && version.Keys == old(version).Keys
      ensures State() == old(State()).Flushed(ctx.Flushes(v, t))
      ensures v != 0 ==> StoredTo(ctx, forwards, old(State()), State(), v, t)
      ensures v == 0 ==> StoredUntraced(ctx, forwards, old(State()), State(), t)
      ensures checkArgumentStorageQualifier <==> v != 0 && !(v in ctx.pointerData && t.pointerDepth == 1)
    {
      hide Cache.Flushed, Context.Active, Context.Aliased, Context.WellFormed, UpToDate, StoredTo, StoredUntraced;
      hide Context.MayChange, Bumped;
      ghost var before := State();
      StoreByLists(ctx, forwards, before, version, v, t);
      StoreKeeps(ctx, forwards, before, version, v, t, hit);
      checkArgumentStorageQualifier := false;
      if v != 0 {
        checkArgumentStorageQualifier := FlushThrough(v, t);
      } else if t.pointer {
        FlushAllActiveVariables();
      } else {
        State().FlushNothing();
        assert ctx.Flushes(v, t) == {};
      }
      version := Bumped(version, hit);
    }

    /** The first write to a parameter makes it an output, which needs another pass. */
    method MarkWritten(v: Id)
      requires writeCount.Keys == ctx.parameters
      modifies this`writeCount, this`forceRecompile
      ensures var marks := v in ctx.parameters && old(writeCount)[v] == 0;
              && writeCount == (if marks then old(writeCount)[v := 1] else old(writeCount))
              && forceRecompile == (old(forceRecompile) || marks)
    {
      if v in ctx.parameters && writeCount[v] == 0 {
        writeCount := writeCount[v := 1];
        forceRecompile := true;
      }
    }

    /** A store through the chain; `hit` is what it really changes, which is up to the language. */
    method RegisterWrite(chain: Id, t: ChainType, ghost hit: set<Region>)
      requires Valid() && hit <= version.Keys
      requires forall r :: r in hit ==> ctx.MayChange(BackingVariable(chain), t, r)
      modifies this
      ensures Valid() && forwards == old(forwards) && loadedFrom == old(loadedFrom)
      ensures State() == old(State()).Flushed(ctx.Flushes(old(BackingVariable(chain)), t))
      ensures var v := if chain in ctx.variables then chain
                       else if chain in old(loadedFrom) then old(loadedFrom)[chain] else 0;
              if v != 0 then StoredTo(ctx, forwards, old(State()), State(), v, t)
              else StoredUntraced(ctx, forwards, old(State()), State(), t)
      ensures version == Bumped(old(version), hit)
      ensures readCount == old(readCount)
      ensures var v := old(BackingVariable(chain));
              var marks := v in ctx.parameters && old(writeCount)[v] == 0
                           && !(v in ctx.pointerData && t.pointerDepth == 1);
              && writeCount == (if marks then old(writeCount)[v := 1] else old(writeCount))
              && forceRecompile == (old(forceRecompile) || marks)
    {
      hide UpToDate, Cache.Flushed, Context.Flushes, Context.WellFormed, Context.Regions, Context.MayChange, Bumped;
      var v := BackingVariable(chain);
      KnownVariables();
      hide BackingVariable, StoredTo, StoredUntraced;
      var checkArgumentStorageQualifier := FlushForStore(v, t, hit);
      if checkArgumentStorageQualifier {
        MarkWritten(v);
      }
    }

    lemma AliasedAreListed(v: Id)
      requires Valid()
      ensures v in ctx.storageAliased ==> v in ctx.aliased
    {
    }

    lemma KnownVariables()
      requires Valid()
      ensures ctx.WellFormed() && dependees.Keys == ctx.variables && 0 !in ctx.variables && 0 !in ctx.parameters
      ensures forall x :: BackingVariable(x) != 0 ==> BackingVariable(x) in ctx.variables
    {
    }

    /** Over any run of reads and writes: an expression read from covered memory that has changed since
        is invalid. */
    lemma StaleIsInvalid(r: Forward)
      requires Valid() && r in forwards && ctx.Covered(r.variable, r.region) && r.version != version[r.region]
      ensures r.expr in invalidExpressions
    {
    }
  }

  /** For memory that is not covered, a read and then a store that `Context.Uncovered` names leave an
      expression that is stale and still counts as valid. */
  method UncoveredGoesStale(tracker: Tracker, expr: Id, w: Id, ghost region: Region, chain: Id, t: ChainType)
    returns (ghost r: Forward)
    requires tracker.Valid() && w in tracker.ctx.variables && region in tracker.version
    requires w !in tracker.ctx.immutable && chain != expr
    requires tracker.ctx.MayChange(tracker.BackingVariable(chain), t, region)
    requires w !in tracker.ctx.Flushes(tracker.BackingVariable(chain), t)
    requires expr !in tracker.invalidExpressions && forall v :: v in tracker.dependees ==> expr !in tracker.dependees[v]
    modifies tracker
    ensures tracker.Valid() && r in tracker.forwards && r.expr == expr && r.variable == w && r.region == region
    ensures r.region in tracker.version && r.version != tracker.version[r.region] && expr !in tracker.invalidExpressions
  {
    hide UpToDate, Context.WellFormed, Context.MayChange, Context.Flushes, Context.Covered, Context.Regions;
    ghost var v := tracker.BackingVariable(chain);
    r := Forward(expr, w, region, tracker.version[region]);
    tracker.KnownVariables();
    tracker.RegisterRead(expr, w, true, region);
    assert tracker.BackingVariable(chain) == v;
    tracker.RegisterWrite(chain, t, {region});
  }

  /** What is read through a pointer that was itself read from a variable becomes invalid when
      something is stored through that pointer. */
  method ReadThenStore(tracker: Tracker, pointer: Id, expr: Id, w: Id, ghost region: Region, t: ChainType,
                       ghost hit: set<Region>)
    requires tracker.Valid() && w in tracker.ctx.variables && region in tracker.version && hit <= tracker.version.Keys
    requires w !in tracker.ctx.immutable && !t.physical
    requires pointer !in tracker.ctx.variables && pointer != expr
    requires forall r :: r in hit ==> tracker.ctx.MayChange(w, t, r)
    modifies tracker
    ensures tracker.Valid() && expr in tracker.invalidExpressions
  {
    hide UpToDate, Context.WellFormed, Context.MayChange, Context.Flushes, Context.Covered, Context.Regions;
    tracker.KnownVariables();
    tracker.AliasedAreListed(w);
    tracker.RegisterRead(pointer, w, false, region);
    tracker.RegisterRead(expr, pointer, true, region);
    assert Forward(expr, w, region, tracker.version[region]) in tracker.forwards;
    tracker.RegisterWrite(pointer, t, hit);
  }

  /** One variable, and nothing in the compiler's lists. */
  function Unlisted(w: Id, pointable: set<Id>): Context {
    Context({w}, {}, {}, {}, pointable, {}, [], [], [], [])
  }

  /** A storage buffer decorated Restrict is loaded from, and then stored to through a selected pointer
      that is traced to no variable. */
  method RestrictBufferGoesStale() returns (tracker: Tracker, ghost r: Forward)
    ensures tracker.Valid() && r in tracker.forwards && r.region == OwnData(7) && r.region in tracker.version
    ensures r.version != tracker.version[r.region] && r.expr !in tracker.invalidExpressions
  {
    var ctx := Unlisted(7, {7});
    ctx.UnlistedPointeeUncovered(7);
    tracker := new Tracker(ctx);
    assert OwnData(7) in ctx.Regions();
    hide Context.MayChange, Context.Flushes, Context.Covered, Context.Regions, UpToDate;
    r := UncoveredGoesStale(tracker, 8, 7, OwnData(7), 9, ChainType(true, 1, false));
  }

  /** A block of push constants holds a pointer to a physical buffer, which is loaded from and stored to
      through it. */
  method PhysicalBufferGoesStale() returns (tracker: Tracker, ghost r: Forward)
    ensures tracker.Valid() && r in tracker.forwards && r.region == PhysicalMemory && r.region in tracker.version
    ensures r.version != tracker.version[r.region] && r.expr !in tracker.invalidExpressions
  {
    var ctx := Unlisted(7, {});
    ctx.PhysicalReadUncovered(7);
    tracker := new Tracker(ctx);
    assert PhysicalMemory in ctx.Regions();
    hide Context.MayChange, Context.Flushes, Context.Covered, Context.Regions, UpToDate;
    r := UncoveredGoesStale(tracker, 8, 7, PhysicalMemory, 7, ChainType(true, 1, true));
  }

  ghost predicate UpToDate(ctx: Context, forwards: set<Forward>, c: Cache, version: map<Region, nat>) {
    && (forall r :: r in forwards ==> r.variable in c.dependees && r.region in version)
    && (forall r :: r in forwards && r.expr !in c.invalid ==>
          && r.expr in c.dependees[r.variable]
          && (ctx.Covered(r.variable, r.region) ==> r.version == version[r.region]))
  }

  lemma ReadKeeps(ctx: Context, forwards: set<Forward>, c: Cache, version: map<Region, nat>,
                  v: Id, expr: Id, region: Region)
    requires UpToDate(ctx, forwards, c, version) && v in c.dependees && region in version
    ensures UpToDate(ctx, forwards + {Forward(expr, v, region, version[region])},
                     c.(dependees := c.dependees[v := c.dependees[v] + [expr]]), version)
  {
  }

  /** A write keeps the invariant if it changes nothing covered without flushing its dependees. */
  lemma WriteKeeps(ctx: Context, forwards: set<Forward>, c: Cache, version: map<Region, nat>,
                   flushed: set<Id>, hit: set<Region>)
    requires UpToDate(ctx, forwards, c, version) && hit <= version.Keys
    requires forall w, r :: r in hit && w in c.dependees && ctx.Covered(w, r) ==> w in flushed
    ensures UpToDate(ctx, forwards, c.Flushed(flushed), Bumped(version, hit))
    ensures Bumped(version, hit).Keys == version.Keys
  {
    var d := c.Flushed(flushed);
    forall r | r in forwards && r.expr !in d.invalid
      ensures r.expr in d.dependees[r.variable]
      ensures ctx.Covered(r.variable, r.region) ==> r.version == Bumped(version, hit)[r.region]
    {
      assert r.expr in c.dependees[r.variable];
      assert r.variable !in flushed;
    }
  }

  /** What the compiler flushes for a store is enough, whatever the store changes. */
  lemma StoreKeeps(ctx: Context, forwards: set<Forward>, c: Cache, version: map<Region, nat>,
                   v: Id, t: ChainType, hit: set<Region>)
    requires ctx.WellFormed() && c.dependees.Keys == ctx.variables && (v == 0 || v in ctx.variables)
    requires UpToDate(ctx, forwards, c, version) && hit <= version.Keys
    requires forall r :: r in hit ==> ctx.MayChange(v, t, r)
    ensures var d := c.Flushed(ctx.Flushes(v, t));
            && UpToDate(ctx, forwards, d, Bumped(version, hit)) && d.dependees.Keys == ctx.variables
    ensures Bumped(version, hit).Keys == version.Keys
  {
    hide UpToDate, Context.WellFormed, Context.MayChange, Context.Flushes, Context.Covered, Bumped;
    forall w, r | r in hit && w in c.dependees && ctx.Covered(w, r) ensures w in ctx.Flushes(v, t) {
      ctx.CoveredIsFlushed(w, r, v, t);
    }
    WriteKeeps(ctx, forwards, c, version, ctx.Flushes(v, t), hit);
    c.SameKeys(ctx.Flushes(v, t));
  }

  /** What a store does to the expressions read through variables: those of the variable stored to
      become invalid exactly under `FlushesOwn`; a store to an aliased variable takes those of all
      aliased variables with it, one through an untraced pointer those of all active ones. */
  lemma StoreInvalidates(ctx: Context, forwards: set<Forward>, c: Cache, version: map<Region, nat>, v: Id, t: ChainType)
    requires ctx.WellFormed() && c.dependees.Keys == ctx.variables && UpToDate(ctx, forwards, c, version)
    ensures v in ctx.variables && ctx.FlushesOwn(v, t) ==>
              forall r :: r in forwards && r.variable == v ==> r.expr in c.Flushed(ctx.Flushes(v, t)).invalid
    ensures v in ctx.variables && !ctx.FlushesOwn(v, t) ==>
              forall e :: e in c.dependees[v] && c.OnlyOf(v, e) && e !in c.invalid ==>
                e !in c.Flushed(ctx.Flushes(v, t)).invalid
    ensures v in ctx.variables && v in ctx.storageAliased ==>
              forall r :: r in forwards && r.variable in ctx.aliased ==> r.expr in c.Flushed(ctx.Flushes(v, t)).invalid
    ensures v == 0 && t.pointer ==>
              forall r :: r in forwards && r.variable in ctx.Active() ==> r.expr in c.Flushed(ctx.Flushes(v, t)).invalid
  {
    if v in ctx.variables {
      ctx.OwnFlushIff(v, t);
    }
    FlushedIsInvalid(ctx, forwards, c, version, ctx.Flushes(v, t));
  }

  /** The dependees of the variables in the four lists, and no others, are invalid and forgotten. */
  ghost predicate FlushedLists(ctx: Context, c: Cache, d: Cache) {
    && (forall v :: v in c.dependees ==>
          && v in d.dependees
          && d.dependees[v] == if v in ctx.locals || v in ctx.arguments || v in ctx.globals || v in ctx.aliased
                               then [] else c.dependees[v])
    && (forall e :: e in d.invalid <==>
          e in c.invalid ||
          exists v :: v in c.dependees && e in c.dependees[v]
            && (v in ctx.locals || v in ctx.arguments || v in ctx.globals || v in ctx.aliased))
  }

  lemma ActiveByLists(ctx: Context, c: Cache)
    ensures FlushedLists(ctx, c, c.Flushed(ctx.Active()))
  {
    c.SameKeys(ctx.Active());
    c.FlushedAt(ctx.Active());
  }

  /** A store traced to variable `v` invalidates exactly: what was read through variables of the four
      lists, if `v` holds pointers; what was read through aliased variables, if it goes to a buffer; and
      what was read through `v` itself otherwise. */
  ghost predicate StoredTo(ctx: Context, forwards: set<Forward>, c: Cache, d: Cache, v: Id, t: ChainType) {
    && (forall w :: w in c.dependees ==>
          InvalidatedIf(forwards, c, d, w,
                        || (v in ctx.pointerData
                            && (w in ctx.locals || w in ctx.arguments || w in ctx.globals || w in ctx.aliased))
                        || ((t.physical || v in ctx.storageAliased) && w in ctx.aliased)
                        || (!t.physical && v !in ctx.storageAliased && w == v)))
    && NothingElse(c, d)
  }

  /** A store that is traced to no variable: what was read through variables of the four lists, if it
      goes through a pointer. */
  ghost predicate StoredUntraced(ctx: Context, forwards: set<Forward>, c: Cache, d: Cache, t: ChainType) {
    && (forall w :: w in c.dependees ==>
          InvalidatedIf(forwards, c, d, w, t.pointer
                        && (w in ctx.locals || w in ctx.arguments || w in ctx.globals || w in ctx.aliased)))
    && NothingElse(c, d)
  }

  /** Everything read through `w` has become invalid, or its dependees are as before. */
  ghost predicate InvalidatedIf(forwards: set<Forward>, c: Cache, d: Cache, w: Id, flushed: bool)
    requires w in c.dependees
  {
    w in d.dependees &&
    if flushed then d.dependees[w] == [] && forall r :: r in forwards && r.variable == w ==> r.expr in d.invalid
    else d.dependees[w] == c.dependees[w]
  }

  /** Only dependees that were forgotten have become invalid. */
  ghost predicate NothingElse(c: Cache, d: Cache) {
    && d.dependees.Keys == c.dependees.Keys && c.invalid <= d.invalid
    && forall e :: e in d.invalid && e !in c.invalid ==>
         exists w :: w in c.dependees && e in c.dependees[w] && d.dependees[w] == []
  }

  lemma StoreByLists(ctx: Context, forwards: set<Forward>, c: Cache, version: map<Region, nat>, v: Id, t: ChainType)
    requires UpToDate(ctx, forwards, c, version)
    ensures v != 0 ==> StoredTo(ctx, forwards, c, c.Flushed(ctx.Flushes(v, t)), v, t)
    ensures v == 0 ==> StoredUntraced(ctx, forwards, c, c.Flushed(ctx.Flushes(v, t)), t)
  {
    hide UpToDate, Context.Flushes, InvalidatedIf, NothingElse;
    FlushInvalidates(ctx, forwards, c, version, ctx.Flushes(v, t));
    forall w ensures w in ctx.Flushes(v, t) <==>
                || ((if v == 0 then t.pointer else v in ctx.pointerData)
                    && (w in ctx.locals || w in ctx.arguments || w in ctx.globals || w in ctx.aliased))
                || (v != 0 && (t.physical || v in ctx.storageAliased) && w in ctx.aliased)
                || (v != 0 && !t.physical && v !in ctx.storageAliased && w == v)
    {
      ctx.FlushesIff(v, t, w);
    }
  }

  lemma FlushInvalidates(ctx: Context, forwards: set<Forward>, c: Cache, version: map<Region, nat>, vs: set<Id>)
    requires UpToDate(ctx, forwards, c, version)
    ensures NothingElse(c, c.Flushed(vs))
    ensures forall w :: w in c.dependees ==> InvalidatedIf(forwards, c, c.Flushed(vs), w, w in vs)
  {
    FlushedIsInvalid(ctx, forwards, c, version, vs);
    forall e | e in c.Flushed(vs).invalid && e !in c.invalid
      ensures exists w :: w in c.dependees && e in c.dependees[w] && c.Flushed(vs).dependees[w] == []
    {
      var w :| w in vs && w in c.dependees && e in c.dependees[w];
      assert c.Flushed(vs).dependees[w] == [];
    }
  }

  lemma FlushedIsInvalid(ctx: Context, forwards: set<Forward>, c: Cache, version: map<Region, nat>, flushed: set<Id>)
    requires UpToDate(ctx, forwards, c, version)
    ensures forall r :: r in forwards && r.variable in flushed ==> r.expr in c.Flushed(flushed).invalid
  {
    forall r | r in forwards && r.variable in flushed ensures r.expr in c.Flushed(flushed).invalid {
      if r.expr !in c.invalid {
        assert r.expr in Dependents(c.dependees, flushed);
      }
    }
  }

  function Bumped(version: map<Region, nat>, hit: set<Region>): map<Region, nat> {
    map r | r in version :: version[r] + (if r in hit then 1 else 0)
  }

  ghost function Dependents(dependees: map<Id, seq<Id>>, vs: set<Id>): set<Id> {
    set v, e | v in vs && v in dependees && e in dependees[v] :: e
  }

  /** The staleness cache as a value. */
  datatype Cache = Cache(dependees: map<Id, seq<Id>>, invalid: set<Id>)
  {
    /** The dependees of the variables in `vs` become invalid and are forgotten. */
    ghost function Flushed(vs: set<Id>): Cache {
      Cache(map v | v in dependees :: if v in vs then [] else dependees[v], invalid + Dependents(dependees, vs))
    }

    /** The expression depends on no other variable. */
    ghost predicate OnlyOf(v: Id, e: Id) { forall w :: w in dependees && w != v ==> e !in dependees[w] }

    lemma FlushNothing()
      ensures Flushed({}) == this
    {
    }

    lemma SameKeys(vs: set<Id>)
      ensures Flushed(vs).dependees.Keys == dependees.Keys
    {
    }

    /** Which dependees are left, and what is invalid afterwards. */
    lemma FlushedAt(vs: set<Id>)
      ensures forall v :: v in dependees ==> Flushed(vs).dependees[v] == if v in vs then [] else dependees[v]
      ensures forall e :: e in Flushed(vs).invalid <==>
                e in invalid || exists v :: v in dependees && e in dependees[v] && v in vs
    {
    }

    lemma FlushTwice(a: set<Id>, b: set<Id>)
      ensures Flushed(a).Flushed(b) == Flushed(a + b)
    {
      var once := Flushed(a);
      assert Dependents(dependees, a + b) == Dependents(dependees, a) + Dependents(once.dependees, b) by {
        forall e | e in Dependents(dependees, a + b)
          ensures e in Dependents(dependees, a) + Dependents(once.dependees, b)
        {
          var v :| v in a + b && v in dependees && e in dependees[v];
          assert v in a || e in once.dependees[v];
        }
      }
    }
  }
}
