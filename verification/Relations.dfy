/** Finite binary relations over indices, the paths they induce, and Warshall's closure.
    Task hierarchies, method orderings and plan orders are all such relations. */
module Relations {

  type Rel = set<(nat, nat)>

  /** The first k indices. */
  ghost function Upto(k: nat): (s: set<nat>)
    ensures forall i: nat :: i in s <==> i < k
    ensures |s| == k
  {
    if k == 0 then {} else Upto(k - 1) + {k - 1}
  }

  /** p is a path from x to y along e; the one-element path is allowed. */
  ghost predicate IsPath(e: Rel, p: seq<nat>, x: nat, y: nat) {
    && |p| > 0
    && p[0] == x
    && p[|p| - 1] == y
    && forall i :: 0 < i < |p| ==> (p[i - 1], p[i]) in e
  }

  /** y can be reached from x in zero or more steps. */
  ghost predicate Reach(e: Rel, x: nat, y: nat) {
    exists p :: IsPath(e, p, x, y)
  }

  /** y can be reached from x in one or more steps: the transitive closure of e. */
  ghost predicate Plus(e: Rel, x: nat, y: nat) {
    exists p :: IsPath(e, p, x, y) && |p| > 1
  }

  ghost predicate Acyclic(e: Rel) {
    forall x: nat :: !Plus(e, x, x)
  }

  ghost predicate Within(e: Rel, n: nat) {
    forall a, b :: (a, b) in e ==> a < n && b < n
  }

  ghost predicate Transitive(e: Rel) {
    forall a, b, c :: (a, b) in e && (b, c) in e ==> (a, c) in e
  }

  ghost predicate ClosedUnder(e: Rel, s: iset<nat>) {
    forall a, b :: (a, b) in e && a in s ==> b in s
  }

  lemma ReachRefl(e: Rel, x: nat)
    ensures Reach(e, x, x)
  {
    assert IsPath(e, [x], x, x);
  }

  lemma PlusStep(e: Rel, x: nat, y: nat)
    requires (x, y) in e
    ensures Plus(e, x, y) && Reach(e, x, y)
  {
    assert IsPath(e, [x, y], x, y);
  }

  lemma JoinPaths(e: Rel, p: seq<nat>, q: seq<nat>, x: nat, y: nat, z: nat)
    requires IsPath(e, p, x, y) && IsPath(e, q, y, z)
    ensures IsPath(e, p + q[1..], x, z)
  {
    var r := p + q[1..];
    forall i | 0 < i < |r|
      ensures (r[i - 1], r[i]) in e
    {
      if i > |p| {
        assert r[i - 1] == q[i - |p|] && r[i] == q[i - |p| + 1];
      } else if i == |p| {
        assert r[i - 1] == q[0] && r[i] == q[1];
      }
    }
  }

  lemma ReachTrans(e: Rel, x: nat, y: nat, z: nat)
    requires Reach(e, x, y) && Reach(e, y, z)
    ensures Reach(e, x, z)
  {
    var p :| IsPath(e, p, x, y);
    var q :| IsPath(e, q, y, z);
    JoinPaths(e, p, q, x, y, z);
  }

  lemma PlusReach(e: Rel, x: nat, y: nat, z: nat)
    requires (Plus(e, x, y) && Reach(e, y, z)) || (Reach(e, x, y) && Plus(e, y, z))
    ensures Plus(e, x, z)
  {
    if Plus(e, x, y) && Reach(e, y, z) {
      var p :| IsPath(e, p, x, y) && |p| > 1;
      var q :| IsPath(e, q, y, z);
      JoinPaths(e, p, q, x, y, z);
    } else {
      var p :| IsPath(e, p, x, y);
      var q :| IsPath(e, q, y, z) && |q| > 1;
      JoinPaths(e, p, q, x, y, z);
    }
  }

  lemma PlusIsReach(e: Rel, x: nat, y: nat)
    requires Plus(e, x, y)
    ensures Reach(e, x, y)
  {
  }

  lemma ReachIsPlusOrEqual(e: Rel, x: nat, y: nat)
    requires Reach(e, x, y)
    ensures x == y || Plus(e, x, y)
  {
    var p :| IsPath(e, p, x, y);
  }

  /** The first step of a path with at least one step. */
  lemma PlusFirstStep(e: Rel, x: nat, y: nat) returns (z: nat)
    requires Plus(e, x, y)
    ensures (x, z) in e && Reach(e, z, y)
  {
    var p :| IsPath(e, p, x, y) && |p| > 1;
    z := p[1];
    assert (p[1 - 1], p[1]) in e;
    assert IsPath(e, p[1..], z, y);
  }

  lemma {:induction false} PathStaysInside(e: Rel, s: iset<nat>, p: seq<nat>, x: nat, y: nat)
    requires ClosedUnder(e, s) && x in s && IsPath(e, p, x, y)
    ensures y in s
    decreases |p|
  {
    if |p| > 1 {
      assert (p[1 - 1], p[1]) in e;
      PathStaysInside(e, s, p[1..], p[1], y);
    }
  }

  /** A set closed under the steps of e contains everything its members reach. */
  lemma ReachStaysInside(e: Rel, s: iset<nat>, x: nat, y: nat)
    requires ClosedUnder(e, s) && x in s && Reach(e, x, y)
    ensures y in s
  {
    var p :| IsPath(e, p, x, y);
    PathStaysInside(e, s, p, x, y);
  }

  lemma {:induction false} PathInTransitive(e: Rel, p: seq<nat>, x: nat, y: nat)
    requires Transitive(e) && IsPath(e, p, x, y) && |p| > 1
    ensures (x, y) in e
    decreases |p|
  {
    assert (p[1 - 1], p[1]) in e;
    if |p| > 2 {
      PathInTransitive(e, p[1..], p[1], y);
    }
  }

  /** The closure of e is the least transitive relation around e. */
  lemma PlusInTransitive(e: Rel, t: Rel, x: nat, y: nat)
    requires Transitive(t) && e <= t && Plus(e, x, y)
    ensures (x, y) in t
  {
    var p :| IsPath(e, p, x, y) && |p| > 1;
    assert IsPath(t, p, x, y);
    PathInTransitive(t, p, x, y);
  }

  lemma PlusMonotone(e: Rel, f: Rel, x: nat, y: nat)
    requires forall a, b :: (a, b) in e ==> Plus(f, a, b)
    requires Plus(e, x, y)
    ensures Plus(f, x, y)
  {
    var p :| IsPath(e, p, x, y) && |p| > 1;
    PathMonotone(e, f, p, x, y);
  }

  lemma {:induction false} PathMonotone(e: Rel, f: Rel, p: seq<nat>, x: nat, y: nat)
    requires forall a, b :: (a, b) in e ==> Plus(f, a, b)
    requires IsPath(e, p, x, y) && |p| > 1
    ensures Plus(f, x, y)
    decreases |p|
  {
    assert (p[1 - 1], p[1]) in e;
    if |p| > 2 {
      assert IsPath(e, p[1..], p[1], y);
      PathMonotone(e, f, p[1..], p[1], y);
      PlusIsReach(f, p[1], y);
      PlusReach(f, x, p[1], y);
    }
  }

  lemma PlusWithin(e: Rel, n: nat, x: nat, y: nat)
    requires Within(e, n) && Plus(e, x, y)
    ensures x < n && y < n
  {
    var p :| IsPath(e, p, x, y) && |p| > 1;
    assert (p[1 - 1], p[1]) in e;
    var last := |p| - 1;
    assert (p[last - 1], p[last]) in e;
  }

  /** The closure as a finite set of pairs. */
  ghost function Closure(e: Rel, n: nat): (c: Rel)
    requires Within(e, n)
    ensures forall x: nat, y: nat :: (x, y) in c <==> Plus(e, x, y)
  {
    var c := set x: nat, y: nat | x < n && y < n && Plus(e, x, y) :: (x, y);
    assert forall x: nat, y: nat :: (x, y) in c <==> Plus(e, x, y) by {
      forall x: nat, y: nat | Plus(e, x, y) ensures x < n && y < n { PlusWithin(e, n, x, y); }
    }
    c
  }

  lemma ClosureTransitive(e: Rel, n: nat)
    requires Within(e, n)
    ensures Transitive(Closure(e, n)) && Within(Closure(e, n), n)
  {
    var c := Closure(e, n);
    forall a, b, d | (a, b) in c && (b, d) in c ensures (a, d) in c {
      PlusIsReach(e, b, d);
      PlusReach(e, a, b, d);
    }
    forall a, b | (a, b) in c ensures a < n && b < n { PlusWithin(e, n, a, b); }
  }

  // ----- Warshall's algorithm -----

  /** The pairs a boolean matrix marks. */
  ghost function Marked(m: array2<bool>): (e: Rel)
    reads m
    requires m.Length0 == m.Length1
    ensures forall x: nat, y: nat :: (x, y) in e <==> x < m.Length0 && y < m.Length0 && m[x, y]
    ensures Within(e, m.Length0)
  {
    set x: nat, y: nat | x < m.Length0 && y < m.Length0 && m[x, y] :: (x, y)
  }

  /** One round: pairs connected directly or through k. */
  ghost function Through(e: Rel, n: nat, k: nat): (t: Rel)
    requires Within(e, n)
    ensures forall x, y :: (x, y) in t <==> (x, y) in e || ((x, k) in e && (k, y) in e)
  {
    var t := set x, y | 0 <= x < n && 0 <= y < n && ((x, y) in e || ((x, k) in e && (k, y) in e)) :: (x, y);
    assert forall x, y :: (x, y) in e || ((x, k) in e && (k, y) in e) ==> x < n && y < n;
    t
  }

  /** e has no gap at any intermediate node below k. */
  ghost predicate TransitiveBelow(e: Rel, k: nat) {
    forall a, b, c :: b < k && (a, b) in e && (b, c) in e ==> (a, c) in e
  }

  lemma ThroughKeepsTransitivity(e: Rel, n: nat, k: nat)
    requires Within(e, n) && TransitiveBelow(e, k)
    ensures TransitiveBelow(Through(e, n, k), k + 1)
  {
    var t := Through(e, n, k);
    forall a, b, c | b < k + 1 && (a, b) in t && (b, c) in t
      ensures (a, c) in t
    {
      if b < k {
        if (a, b) !in e && (b, c) in e {
          assert (k, c) in e;
        } else if (a, b) in e && (b, c) !in e {
          assert (a, k) in e;
        }
      }
    }
  }

  lemma ThroughWithinPlus(o: Rel, e: Rel, n: nat, k: nat)
    requires Within(e, n)
    requires forall x, y :: (x, y) in e ==> Plus(o, x, y)
    ensures forall x, y :: (x, y) in Through(e, n, k) ==> Plus(o, x, y)
  {
    forall x, y | (x, y) in Through(e, n, k) ensures Plus(o, x, y) {
      if (x, y) !in e {
        PlusIsReach(o, k, y);
        PlusReach(o, x, k, y);
      }
    }
  }

  /** The triple loop that closes a matrix in place (Model.cpp:3020-3023, orderingDecomposition.cpp:106-110). */
  method Warshall(m: array2<bool>)
    requires m.Length0 == m.Length1
    modifies m
    ensures Marked(m) == Closure(old(Marked(m)), m.Length0)
    ensures forall x, y :: 0 <= x < m.Length0 && 0 <= y < m.Length0 ==> m[x, y] == Plus(old(Marked(m)), x, y)
  {
    var n := m.Length0;
    ghost var o := Marked(m);
    forall x, y | (x, y) in o ensures Plus(o, x, y) { PlusStep(o, x, y); }
    for k := 0 to n
      invariant o <= Marked(m)
      invariant TransitiveBelow(Marked(m), k)
      invariant forall x, y :: (x, y) in Marked(m) ==> Plus(o, x, y)
    {
      ghost var e := Marked(m);
      WarshallRound(m, k);
      ThroughKeepsTransitivity(e, n, k);
      ThroughWithinPlus(o, e, n, k);
    }
    forall x: nat, y: nat | Plus(o, x, y) ensures (x, y) in Marked(m) {
      assert Transitive(Marked(m));
      PlusInTransitive(o, Marked(m), x, y);
    }
    assert forall x, y :: (x, y) in Marked(m) <==> (x, y) in Closure(o, n);
    assert forall x, y :: 0 <= x < n && 0 <= y < n ==> (m[x, y] <==> (x, y) in Marked(m));
  }

  /** One value of the outer loop: the inner two loops read entries they have already rewritten. */
  method WarshallRound(m: array2<bool>, k: nat)
    requires m.Length0 == m.Length1 && k < m.Length0
    modifies m
    ensures Marked(m) == Through(old(Marked(m)), m.Length0, k)
  {
    var n := m.Length0;
    ghost var e := Marked(m);
    ghost var t := Through(e, n, k);
    for x := 0 to n
      invariant forall i, j :: 0 <= i < x && 0 <= j < n ==> (m[i, j] <==> (i, j) in t)
      invariant forall i, j :: x <= i < n && 0 <= j < n ==> (m[i, j] <==> (i, j) in e)
    {
      for y := 0 to n
        invariant forall i, j :: 0 <= i < n && i != x && 0 <= j < n ==> (m[i, j] <==> (i, j) in (if i < x then t else e))
        invariant forall j :: 0 <= j < n ==> (m[x, j] <==> (x, j) in (if j < y then t else e))
      {
        assert m[x, k] <==> (x, k) in e;
        assert m[k, y] <==> (k, y) in e;
        if m[x, k] && m[k, y] {
          m[x, y] := true;
        }
      }
    }
    assert forall i, j :: (i, j) in Marked(m) <==> (i, j) in t;
  }
}
