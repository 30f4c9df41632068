/** Paths in a directed graph, and dominance defined by them: `d` dominates `b` when it lies on
    every path from the entry to `b` (SPIR-V Specification, section 2.2.5). */
module Paths {
  import opened Spirv

  type Edges = map<Id, seq<Id>>

  predicate Step(e: Edges, a: Id, b: Id) { a in e && b in e[a] }

  ghost predicate IsPath(e: Edges, p: seq<Id>) {
    p != [] && forall i, j :: 0 <= i && j == i + 1 && j < |p| ==> Step(e, p[i], p[j])
  }

  ghost predicate Connects(e: Edges, p: seq<Id>, a: Id, b: Id) {
    IsPath(e, p) && p[0] == a && p[|p| - 1] == b
  }

  ghost predicate IsCycle(e: Edges, c: seq<Id>) {
    IsPath(e, c) && Step(e, c[|c| - 1], c[0])
  }

  ghost predicate Reaches(e: Edges, a: Id, b: Id) {
    exists p :: Connects(e, p, a, b)
  }

  ghost predicate Dominates(e: Edges, entry: Id, d: Id, b: Id) {
    forall p :: Connects(e, p, entry, b) ==> d in p
  }

  /** `d` dominates every block of `s`. */
  ghost predicate DominatesAll(e: Edges, entry: Id, d: Id, s: set<Id>) {
    forall b :: b in s ==> Dominates(e, entry, d, b)
  }

  // ---------------------------------------------------------------- building paths

  lemma Join(e: Edges, p: seq<Id>, q: seq<Id>, a: Id, b: Id, c: Id)
    requires Connects(e, p, a, b) && Connects(e, q, b, c)
    ensures Connects(e, p + q[1..], a, c)
  {
    var r := p + q[1..];
    forall i, j | 0 <= i && j == i + 1 && j < |r| ensures Step(e, r[i], r[j]) {
      if j < |p| {
        assert r[i] == p[i] && r[j] == p[j];
      } else {
        assert r[j] == q[j - |p| + 1];
        assert r[i] == q[i - |p| + 1];
      }
    }
  }

  lemma Single(e: Edges, a: Id)
    ensures Connects(e, [a], a, a)
  {
  }

  lemma Append(e: Edges, p: seq<Id>, a: Id, b: Id, c: Id)
    requires Connects(e, p, a, b) && Step(e, b, c)
    ensures Connects(e, p + [c], a, c)
  {
    var r := p + [c];
    forall i, j | 0 <= i && j == i + 1 && j < |r| ensures Step(e, r[i], r[j]) {
      assert r[i] == p[i];
      assert j < |p| ==> r[j] == p[j];
    }
  }

  lemma Split(e: Edges, p: seq<Id>, a: Id, b: Id, i: nat)
    requires Connects(e, p, a, b) && i < |p|
    ensures Connects(e, p[..i + 1], a, p[i]) && Connects(e, p[i..], p[i], b)
  {
    forall k, j | 0 <= k && j == k + 1 && j < |p[i..]| ensures Step(e, p[i..][k], p[i..][j]) {
      assert Step(e, p[i + k], p[i + j]);
    }
  }

  lemma {:induction false} Monotone(e: Edges, f: Edges, p: seq<Id>, a: Id, b: Id)
    requires Connects(e, p, a, b)
    requires forall x, y :: Step(e, x, y) ==> Step(f, x, y)
    ensures Connects(f, p, a, b)
  {
  }

  // ---------------------------------------------------------------- dominance in any graph

  lemma Reflexive(e: Edges, entry: Id, b: Id)
    ensures Dominates(e, entry, b, b)
  {
    forall p | Connects(e, p, entry, b) ensures b in p {
      assert p[|p| - 1] == b;
    }
  }

  lemma EntryDominates(e: Edges, entry: Id, b: Id)
    ensures Dominates(e, entry, entry, b)
  {
    forall p | Connects(e, p, entry, b) ensures entry in p {
      assert p[0] == entry;
    }
  }

  lemma Transitive(e: Edges, entry: Id, c: Id, d: Id, b: Id)
    requires Dominates(e, entry, c, d) && Dominates(e, entry, d, b)
    ensures Dominates(e, entry, c, b)
  {
    forall p | Connects(e, p, entry, b) ensures c in p {
      var i :| 0 <= i < |p| && p[i] == d;
      Split(e, p, entry, b, i);
    }
  }

  /** A strict dominator dominates every predecessor. */
  lemma DominatesBefore(e: Edges, entry: Id, d: Id, a: Id, b: Id)
    requires Dominates(e, entry, d, b) && d != b && Step(e, a, b)
    ensures Dominates(e, entry, d, a)
  {
    forall p | Connects(e, p, entry, a) ensures d in p {
      Append(e, p, entry, a, b);
    }
  }

  /** What dominates every predecessor dominates the block. */
  lemma DominatesAfter(e: Edges, entry: Id, d: Id, b: Id)
    requires b != entry
    requires forall a :: Step(e, a, b) ==> Dominates(e, entry, d, a)
    ensures Dominates(e, entry, d, b)
  {
    forall p | Connects(e, p, entry, b) ensures d in p {
      var i := |p| - 2;
      assert Step(e, p[i], p[i + 1]);
      Split(e, p, entry, b, i);
    }
  }

  /** The strict dominators of a block are what all its predecessors have in common. */
  lemma StrictDominators(e: Edges, entry: Id, d: Id, b: Id)
    requires b != entry && d != b
    ensures Dominates(e, entry, d, b) <==> (forall a :: Step(e, a, b) ==> Dominates(e, entry, d, a))
  {
    if Dominates(e, entry, d, b) {
      forall a | Step(e, a, b) ensures Dominates(e, entry, d, a) {
        DominatesBefore(e, entry, d, a, b);
      }
    }
    if forall a :: Step(e, a, b) ==> Dominates(e, entry, d, a) {
      DominatesAfter(e, entry, d, b);
    }
  }

  // ---------------------------------------------------------------- cycles

  lemma {:induction false} BackAlong(e: Edges, entry: Id, c: seq<Id>, h: Id, i: nat, j: nat)
    requires IsPath(e, c) && i <= j < |c| && Dominates(e, entry, h, c[j])
    requires forall x :: x in c && Step(e, x, h) ==> Dominates(e, entry, h, x)
    ensures Dominates(e, entry, h, c[i])
    decreases j
  {
    hide Step, Dominates;
    if i < j {
      assert Step(e, c[j - 1], c[j]);
      if c[j] != h {
        DominatesBefore(e, entry, h, c[j - 1], c[j]);
      }
      BackAlong(e, entry, c, h, i, j - 1);
    }
  }

  /** A block that dominates all its predecessors in a cycle dominates the cycle. */
  lemma DominatesAround(e: Edges, entry: Id, c: seq<Id>, m: nat, i: nat)
    requires IsCycle(e, c) && m < |c| && i < |c|
    requires forall x :: x in c && Step(e, x, c[m]) ==> Dominates(e, entry, c[m], x)
    ensures Dominates(e, entry, c[m], c[i])
  {
    hide Step, Dominates;
    var h, n := c[m], |c| - 1;
    Reflexive(e, entry, h);
    BackAlong(e, entry, c, h, 0, m);
    if c[0] != h {
      DominatesBefore(e, entry, h, c[n], c[0]);
    }
    BackAlong(e, entry, c, h, i, n);
  }

  /** A cycle that ends a path without repetition is entered at its first block: no other of its
      blocks dominates that one. */
  lemma EnteredAtStart(e: Edges, entry: Id, s: seq<Id>, i: nat, d: Id)
    requires IsPath(e, s) && s[0] == entry && i < |s|
    requires forall j, k :: 0 <= j < k < |s| ==> s[j] != s[k]
    requires d in s[i..] && Dominates(e, entry, d, s[i])
    ensures d == s[i]
  {
    Split(e, s, entry, s[|s| - 1], i);
    hide IsPath, Step;
    assert d in s[..i + 1];
    var j :| 0 <= j < |s[i..]| && s[i..][j] == d;
    var k :| 0 <= k < i + 1 && s[..i + 1][k] == d;
    assert s[i + j] == d && s[k] == d;
  }

  lemma CycleClosed(e: Edges, s: seq<Id>, i: nat)
    requires IsPath(e, s) && i < |s| && Step(e, s[|s| - 1], s[i])
    ensures IsCycle(e, s[i..]) && s[i..][0] == s[i] && s[i..][|s[i..]| - 1] == s[|s| - 1]
  {
    hide Step;
    Split(e, s, s[0], s[|s| - 1], i);
  }

  lemma BackToStart(e: Edges, c: seq<Id>, i: nat)
    requires IsCycle(e, c) && i < |c|
    ensures IsPath(e, c[i..] + [c[0]])
  {
    hide Step;
    Split(e, c, c[0], c[|c| - 1], i);
    Append(e, c[i..], c[i], c[|c| - 1], c[0]);
  }
}
