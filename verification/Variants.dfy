/** Variants: typed handles that own at most one object of an object pool. */
module Variants {
  import opened ObjectPools

  const TYPE_NONE: nat := 0

  /** The pool for objects of type `kind` in pool group `group`. */
  datatype Key = Key(group: nat, kind: nat)

  /** One slot of one pool. */
  datatype Place = Place(key: Key, slot: Slot)

  datatype Holder = Nothing | Holding(slot: Slot)

  datatype Variant = Variant(group: nat, holder: Holder, kind: nat, allowTypeRewrite: bool) {

    /** The place of the object that the variant owns, if any. */
    ghost function Owns(): set<Place> {
      if holder.Nothing? then {} else {Place(Key(group, kind), holder.slot)}
    }

    predicate Rejects(newKind: nat) {
      !allowTypeRewrite && kind != TYPE_NONE && kind != newKind
    }
  }

  datatype Outcome = Done | TypeOverwritten

  /** Every live object has one owner: one variant, or else the caller that is about to set it. */
  ghost predicate Owned(variants: map<nat, Variant>, live: set<Place>, loose: set<Place>) {
    && (forall i, j :: i in variants && j in variants && i != j ==> variants[i].Owns() !! variants[j].Owns())
    && (forall i :: i in variants ==> variants[i].Owns() <= live - loose)
    && loose <= live
    && forall p :: p in live ==> p in loose || exists i :: i in variants && p in variants[i].Owns()
  }

  lemma LooseIsLive(variants: map<nat, Variant>, live: set<Place>, loose: set<Place>)
    requires Owned(variants, live, loose)
    ensures loose <= live
    ensures forall i :: i in variants ==> variants[i].Owns() <= live
  {
  }

  lemma Obtained(variants: map<nat, Variant>, live: set<Place>, loose: set<Place>, p: Place)
    requires Owned(variants, live, loose) && p !in live
    ensures Owned(variants, live + {p}, loose + {p})
  {
    hide Variant.Owns;
    forall i | i in variants ensures variants[i].Owns() <= live + {p} - (loose + {p}) {
      assert p !in variants[i].Owns();
    }
  }

  lemma Freed(variants: map<nat, Variant>, live: set<Place>, loose: set<Place>, freed: set<Place>)
    requires Owned(variants, live, loose) && freed <= loose
    ensures Owned(variants, live - freed, loose - freed)
    ensures freed <= live
  {
    hide Variant.Owns;
  }

  /** A variant lets go of its object. */
  lemma LetGo(variants: map<nat, Variant>, live: set<Place>, loose: set<Place>, i: nat, v: Variant)
    requires Owned(variants, live, loose) && i in variants && v.Owns() == {}
    ensures Owned(variants[i := v], live, loose + variants[i].Owns())
  {
    hide Variant.Owns;
    var after := variants[i := v];
    forall p | p in live
      ensures p in loose + variants[i].Owns() || exists j :: j in after && p in after[j].Owns()
    {
      if p !in loose {
        var j :| j in variants && p in variants[j].Owns();
        assert j in after && (j != i ==> after[j] == variants[j]);
      }
    }
  }

  /** A variant's object is given back. */
  lemma Released(variants: map<nat, Variant>, live: set<Place>, loose: set<Place>, i: nat, v: Variant)
    requires Owned(variants, live, loose) && i in variants && v.Owns() == {}
    ensures Owned(variants[i := v], live - variants[i].Owns(), loose)
    ensures variants[i].Owns() <= live
  {
    hide Variant.Owns;
    var owns := variants[i].Owns();
    LetGo(variants, live, loose, i, v);
    assert loose + owns - owns == loose;
    hide Owned;
    Freed(variants[i := v], live, loose + owns, owns);
  }

  /** A variant that owns nothing takes over a loose object. */
  lemma TookOver(variants: map<nat, Variant>, live: set<Place>, loose: set<Place>, i: nat, v: Variant)
    requires Owned(variants, live, loose)
    requires (i in variants ==> variants[i].Owns() == {}) && v.Owns() <= loose
    ensures Owned(variants[i := v], live, loose - v.Owns())
  {
    hide Variant.Owns;
    var after := variants[i := v];
    forall p | p in live
      ensures p in loose - v.Owns() || exists j :: j in after && p in after[j].Owns()
    {
      if p in v.Owns() {
        assert i in after && p in after[i].Owns();
      } else if p !in loose {
        var j :| j in variants && p in variants[j].Owns();
        assert j in after && after[j] == variants[j];
      }
    }
  }

  /** A variant that owns nothing is rewritten and still owns nothing. */
  lemma Rewritten(variants: map<nat, Variant>, live: set<Place>, loose: set<Place>, i: nat, v: Variant)
    requires Owned(variants, live, loose)
    requires (i in variants ==> variants[i].Owns() == {}) && v.Owns() == {}
    ensures Owned(variants[i := v], live, loose)
  {
    hide Variant.Owns;
    TookOver(variants, live, loose, i, v);
    assert loose - v.Owns() == loose;
  }

  /** A variant is changed and owns what it owned before. */
  lemma Remarked(variants: map<nat, Variant>, live: set<Place>, loose: set<Place>, i: nat, v: Variant)
    requires Owned(variants, live, loose) && i in variants && v.Owns() == variants[i].Owns()
    ensures Owned(variants[i := v], live, loose)
  {
    hide Variant.Owns;
    var after := variants[i := v];
    forall p | p in live && p !in loose ensures exists j :: j in after && p in after[j].Owns() {
      var j :| j in variants && p in variants[j].Owns();
      assert j in after && p in after[j].Owns();
    }
  }

  /** An object moves from variant `src` to variant `dst`, which owned nothing. */
  lemma Moved(variants: map<nat, Variant>, live: set<Place>, loose: set<Place>, dst: nat, src: nat, left: Variant)
    requires Owned(variants, live, loose) && dst in variants && src in variants && dst != src
    requires variants[dst].Owns() == {} && left.Owns() == {}
    ensures Owned(variants[dst := variants[src]][src := left], live, loose)
  {
    hide Variant.Owns;
    var moved := variants[src];
    LetGo(variants, live, loose, src, left);
    assert moved.Owns() !! loose;
    hide Owned;
    TookOver(variants[src := left], live, loose + moved.Owns(), dst, moved);
    assert loose + moved.Owns() - moved.Owns() == loose;
    assert variants[src := left][dst := moved] == variants[dst := moved][src := left];
  }

  /** A variant that owns nothing goes away. */
  lemma WentAway(variants: map<nat, Variant>, live: set<Place>, loose: set<Place>, i: nat)
    requires Owned(variants, live, loose) && i in variants && variants[i].Owns() == {}
    ensures Owned(variants - {i}, live, loose)
  {
    hide Variant.Owns;
    var after := variants - {i};
    forall p | p in live && p !in loose
      ensures exists j :: j in after && p in after[j].Owns()
    {
      var j :| j in variants && p in variants[j].Owns();
      assert j in after && after[j] == variants[j];
    }
  }

  ghost function Owners(variants: map<nat, Variant>): set<nat> {
    set i | i in variants && variants[i].holder.Holding?
  }

  lemma NoOwners(variants: map<nat, Variant>, live: set<Place>, loose: set<Place>)
    requires Owned(variants, live, loose) && Owners(variants) == {}
    ensures live == loose
  {
    forall i | i in variants ensures variants[i].Owns() == {} {
      assert i !in Owners(variants);
    }
    hide Owners, Variant.Owns;
    forall p | p in live ensures p in loose {
    }
  }

  lemma OwnedIsNotLoose(variants: map<nat, Variant>, live: set<Place>, loose: set<Place>, i: nat)
    requires Owned(variants, live, loose) && i in variants
    ensures variants[i].Owns() !! loose
  {
    hide Variant.Owns;
  }

  lemma OwnersWithout(variants: map<nat, Variant>, i: nat, v: Variant)
    requires i in Owners(variants) && v.holder.Nothing?
    ensures Owners(variants[i := v]) == Owners(variants) - {i}
  {
  }

  /** There are as many live objects as variants that own one, besides the loose ones. */
  lemma {:induction false} OwnersCountLive(variants: map<nat, Variant>, live: set<Place>, loose: set<Place>)
    requires Owned(variants, live, loose)
    ensures |live| == |Owners(variants)| + |loose|
    decreases |Owners(variants)|
  {
    if Owners(variants) == {} {
      NoOwners(variants, live, loose);
    } else {
      var i :| i in Owners(variants);
      assert i in variants && variants[i].holder.Holding?;
      hide Owned, Owners;
      var v := variants[i].(holder := Nothing);
      LetGo(variants, live, loose, i, v);
      OwnersWithout(variants, i, v);
      var place := Place(Key(variants[i].group, variants[i].kind), variants[i].holder.slot);
      OwnedIsNotLoose(variants, live, loose, i);
      assert loose + variants[i].Owns() == loose + {place} && place !in loose;
      OwnersCountLive(variants[i := v], live, loose + variants[i].Owns());
    }
  }

  /** All variants, by number, and all pools that they draw from. */
  class VariantStore {
    const pools: map<Key, ObjectPool>
    var variants: map<nat, Variant>
    /** The places of all live objects. */
    ghost var live: set<Place>
    /** Objects allocated for a variant and not yet given to it. */
    ghost var loose: set<Place>

    ghost function Pools(): set<object> { set k | k in pools :: pools[k] }

    ghost predicate PoolsAre(live: set<Place>)
      reads Pools()
    {
      && (forall k :: k in pools ==> pools[k].Valid())
      && (forall k, l :: k in pools && l in pools && k != l ==> pools[k] != pools[l])
      && (forall k, s :: k in pools ==> (s in pools[k].live <==> Place(k, s) in live))
      && forall p :: p in live ==> p.key in pools
    }

    ghost predicate Valid()
      reads this, Pools()
    {
      PoolsAre(live) && Owned(variants, live, loose)
    }

    predicate HasRoom(key: Key)
      requires key in pools
      reads pools[key]
    {
      pools[key].vacants == [] ==> pools[key].CanGrow()
    }

    /** The pool that a variant's object came from, if it owns one. */
    ghost function PoolOf(v: Variant): (s: set<object>)
      ensures s <= Pools()
    {
      var key := Key(v.group, v.kind);
      if v.holder.Holding? && key in pools then {pools[key]} else {}
    }

    constructor (pools: map<Key, ObjectPool>)
      requires forall k :: k in pools ==> pools[k].Valid() && pools[k].live == {}
      requires forall k, l :: k in pools && l in pools && k != l ==> pools[k] != pools[l]
      ensures Valid() && variants == map[] && live == {} && loose == {} && this.pools == pools
    {
      this.pools := pools;
      variants, live, loose := map[], {}, {};
    }

    method Allocate(key: Key) returns (slot: Slot)
      requires PoolsAre(live) && key in pools && HasRoom(key)
      modifies pools[key], this`live
      ensures PoolsAre(live)
      ensures Place(key, slot) !in old(live) && live == old(live) + {Place(key, slot)}
    {
      hide ObjectPool.Valid, ObjectPool.CanGrow;
      slot := pools[key].Allocate();
      live := live + {Place(key, slot)};
    }

    method Deallocate(key: Key, slot: Slot)
      requires PoolsAre(live) && Place(key, slot) in live
      modifies pools[key], this`live
      ensures PoolsAre(live)
      ensures live == old(live) - {Place(key, slot)} && pools[key].vacants != []
    {
      hide ObjectPool.Valid, ObjectPool.CanGrow;
      pools[key].Deallocate(slot);
      live := live - {Place(key, slot)};
    }

    /** Gives the object that a variant owns back to its pool. */
    method ReleaseHolder(id: nat)
      requires Valid() && id in variants
      modifies PoolOf(variants[id]), this`variants, this`live
      ensures Valid() && variants == old(variants)[id := old(variants[id]).(holder := Nothing)]
      ensures live == old(live) - old(variants[id]).Owns()
      ensures var key := Key(old(variants[id]).group, old(variants[id]).kind);
        old(variants[id]).holder.Holding? ==> key in pools && pools[key].vacants != []
    {
      hide Owned, ObjectPool.Valid;
      var v := variants[id];
      var cleared := v.(holder := Nothing);
      Released(variants, live, loose, id, cleared);
      if v.holder.Holding? {
        Deallocate(Key(v.group, v.kind), v.holder.slot);
      }
      assert live == old(live) - v.Owns();
      variants := variants[id := cleared];
    }

    /** A new object that no variant owns yet. */
    method AllocateLoose(key: Key) returns (slot: Slot)
      requires Valid() && key in pools && HasRoom(key)
      modifies pools[key], this`live, this`loose
      ensures Valid() && Place(key, slot) !in old(live) && Place(key, slot) !in old(loose)
      ensures live == old(live) + {Place(key, slot)} && loose == old(loose) + {Place(key, slot)}
    {
      hide Owned, ObjectPool.Valid;
      LooseIsLive(variants, live, loose);
      slot := Allocate(key);
      Obtained(variants, old(live), loose, Place(key, slot));
      loose := loose + {Place(key, slot)};
    }

    method Construct(id: nat, group: nat)
      requires Valid() && id !in variants
      modifies this`variants
      ensures Valid() && variants == old(variants)[id := Variant(group, Nothing, TYPE_NONE, false)]
    {
      hide Owned, ObjectPool.Valid;
      var v := Variant(group, Nothing, TYPE_NONE, false);
      Rewritten(variants, live, loose, id, v);
      variants := variants[id := v];
    }

    method Destroy(id: nat)
      requires Valid() && id in variants
      modifies PoolOf(variants[id]), this`variants, this`live
      ensures Valid() && variants == old(variants) - {id}
      ensures live == old(live) - old(variants[id]).Owns()
    {
      hide Owned, ObjectPool.Valid;
      ReleaseHolder(id);
      WentAway(variants, live, loose, id);
      variants := variants - {id};
    }

    method Reset(id: nat)
      requires Valid() && id in variants
      modifies PoolOf(variants[id]), this`variants, this`live
      ensures Valid()
      ensures variants == old(variants)[id := old(variants[id]).(holder := Nothing, kind := TYPE_NONE)]
      ensures live == old(live) - old(variants[id]).Owns()
    {
      hide Owned, ObjectPool.Valid;
      ReleaseHolder(id);
      var v := variants[id].(kind := TYPE_NONE);
      Rewritten(variants, live, loose, id, v);
      variants := variants[id := v];
    }

    method SetAllowTypeRewrite(id: nat)
      requires Valid() && id in variants
      modifies this`variants
      ensures Valid() && variants == old(variants)[id := old(variants[id]).(allowTypeRewrite := true)]
    {
      hide Owned, ObjectPool.Valid;
      var v := variants[id].(allowTypeRewrite := true);
      Remarked(variants, live, loose, id, v);
      variants := variants[id := v];
    }

    /** Gives `holder`, an object allocated for it, to a variant, unless that would change the
        variant's type without permission: then the object is given back too. */
    method Set(id: nat, holder: Holder, newKind: nat) returns (o: Outcome)
      requires Valid() && id in variants
      requires Variant(variants[id].group, holder, newKind, false).Owns() <= loose
      modifies Pools(), this
      ensures Valid()
      ensures o.TypeOverwritten? <==>
                var before := old(variants[id]);
                !before.allowTypeRewrite && before.kind != TYPE_NONE && before.kind != newKind
      ensures var before := old(variants[id]);
        var given := Variant(before.group, holder, newKind, false);
        && loose == old(loose) - given.Owns()
        && variants == old(variants)[id := if o.Done? then given else before.(holder := Nothing)]
        && live == old(live) - before.Owns() - if o.Done? then {} else given.Owns()
    {
      hide Owned, ObjectPool.Valid;
      ReleaseHolder(id);
      var given := Variant(variants[id].group, holder, newKind, false);
      if variants[id].Rejects(newKind) {
        Freed(variants, live, loose, given.Owns());
        if holder.Holding? {
          var key := Key(given.group, newKind);
          assert Place(key, holder.slot) in live && pools[key] in Pools();
          Deallocate(key, holder.slot);
        }
        assert live == old(live) - old(variants[id]).Owns() - given.Owns();
        loose := loose - given.Owns();
        return TypeOverwritten;
      }
      TookOver(variants, live, loose, id, given);
      variants := variants[id := given];
      loose := loose - given.Owns();
      return Done;
    }

    /** Makes a variant own a new object of the given type. */
    method AllocateAndSet(id: nat, newKind: nat) returns (o: Outcome)
      requires Valid() && id in variants && Key(variants[id].group, newKind) in pools
      requires HasRoom(Key(variants[id].group, newKind))
      modifies Pools(), this
      ensures Valid() && loose == old(loose)
      ensures o.TypeOverwritten? <==>
                var before := old(variants[id]);
                !before.allowTypeRewrite && before.kind != TYPE_NONE && before.kind != newKind
      ensures o.TypeOverwritten? ==>
        && variants == old(variants)[id := old(variants[id]).(holder := Nothing)]
        && live == old(live) - old(variants[id]).Owns()
      ensures o.Done? ==>
        && id in variants && variants[id].holder.Holding?
        && variants == old(variants)[id := Variant(old(variants[id]).group, variants[id].holder, newKind, false)]
        && variants[id].Owns() !! old(live)
        && live == old(live) - old(variants[id]).Owns() + variants[id].Owns()
    {
      hide Owned, ObjectPool.Valid;
      var key := Key(variants[id].group, newKind);
      LooseIsLive(variants, live, loose);
      var slot := AllocateLoose(key);
      o := Set(id, Holding(slot), newKind);
      assert loose == old(loose);
      assert old(live) + {Place(key, slot)} - {Place(key, slot)} == old(live);
    }

    /** Moves the object of variant `src` into variant `dst`. */
    method Move(dst: nat, src: nat)
      requires Valid() && dst in variants && src in variants
      modifies PoolOf(variants[dst]), this`variants, this`live
      ensures Valid()
      ensures dst == src ==> variants == old(variants) && live == old(live)
      ensures dst != src ==>
        && variants == old(variants)[dst := old(variants[src])]
                                    [src := old(variants[src]).(holder := Nothing, kind := TYPE_NONE)]
        && live == old(live) - old(variants[dst]).Owns()
    {
      hide Owned, ObjectPool.Valid;
      if dst != src {
        ReleaseHolder(dst);
        var moved := variants[src];
        var left := moved.(holder := Nothing, kind := TYPE_NONE);
        Moved(variants, live, loose, dst, src, left);
        variants := variants[dst := moved][src := left];
      }
    }

    /** Makes variant `dst` own a copy of the object of `src`, from a pool of its own group. */
    method Copy(dst: nat, src: nat)
      requires Valid() && dst in variants && src in variants
      requires dst != src && variants[src].holder.Holding? ==>
        var key := Key(variants[dst].group, variants[src].kind);
        key in pools && (pools[key] in PoolOf(variants[dst]) || HasRoom(key))
      modifies Pools(), this
      ensures Valid() && loose == old(loose)
      ensures dst == src ==> variants == old(variants) && live == old(live)
      ensures dst != src ==>
        && dst in variants
        && variants == old(variants)[dst := old(variants[src]).(group := old(variants[dst]).group,
                                                                holder := variants[dst].holder)]
        && variants[dst].holder.Holding? == old(variants[src]).holder.Holding?
        && variants[dst].Owns() !! old(live) - old(variants[dst]).Owns()
        && live == old(live) - old(variants[dst]).Owns() + variants[dst].Owns()
    {
      hide Owned, ObjectPool.Valid;
      if dst != src {
        ReleaseHolder(dst);
        var copied := variants[src].(group := variants[dst].group, holder := Nothing);
        if variants[src].holder.Holding? {
          var key := Key(copied.group, copied.kind);
          var slot := AllocateLoose(key);
          copied := copied.(holder := Holding(slot));
        }
        TookOver(variants, live, loose, dst, copied);
        loose := loose - copied.Owns();
        assert loose == old(loose);
        variants := variants[dst := copied];
      }
    }
  }
}
