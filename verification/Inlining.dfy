/** Inlining a task that has only one method (pandaPIgrounder: postprocessing.cpp:415-549). */
module Inlining {
  import opened Relations
  import opened TopologicalSort
  import opened PlanNames

  /** subtasks holds task numbers, orderingConstraints pairs of positions, preconditionOrdering a linearisation of the positions. */
  datatype MethodValue = MethodValue(name: string, subtasks: seq<nat>, orderingConstraints: seq<(nat, nat)>, preconditionOrdering: seq<nat>)

  ghost predicate MethodOk(m: MethodValue) {
    && Within(ConstraintEdges(m.orderingConstraints), |m.subtasks|)
    && LinearExtension(m.preconditionOrdering, ConstraintEdges(m.orderingConstraints), |m.subtasks|)
  }

  /** The tasks in the order of the linearisation. */
  ghost function Word(m: MethodValue): (w: seq<nat>)
    requires MethodOk(m)
    ensures |w| == |m.subtasks| == |m.preconditionOrdering|
    ensures forall i :: 0 <= i < |w| ==> w[i] == m.subtasks[m.preconditionOrdering[i]]
  {
    seq(|m.subtasks|, i requires 0 <= i < |m.subtasks| => m.subtasks[m.preconditionOrdering[i]])
  }

  // ----- positions in the new method -----

  /** The inlined subtasks take position s and the positions from n on. */
  predicate IsInner(s: nat, n: nat, x: nat) {
    x == s || x >= n
  }

  function InnerIndex(s: nat, n: nat, x: nat): nat {
    if x < n then 0 else x - n + 1
  }

  function Origin(s: nat, n: nat, x: nat): nat {
    if x < n then x else s
  }

  function PlaceOf(s: nat, n: nat, i: nat): nat
    requires n > 0
  {
    if i == 0 then s else n - 1 + i
  }

  /** After the task at s is removed. */
  function Up(s: nat, x: nat): nat {
    if x < s then x else x + 1
  }

  function Down(s: nat, x: nat): nat {
    if x > s then x - 1 else x
  }

  // ----- the orders -----

  ghost predicate FullEdge(e: Rel, f: Rel, s: nat, n: nat, k: nat, x: nat, y: nat) {
    x < n - 1 + k && y < n - 1 + k &&
    if IsInner(s, n, x) && IsInner(s, n, y) then (InnerIndex(s, n, x), InnerIndex(s, n, y)) in f else (Origin(s, n, x), Origin(s, n, y)) in e
  }

  ghost predicate FullEdges(e: Rel, f: Rel, s: nat, n: nat, k: nat, g: Rel) {
    forall x: nat, y: nat :: (x, y) in g <==> FullEdge(e, f, s, n, k, x, y)
  }

  ghost predicate EmptyEdge(e: Rel, s: nat, n: nat, x: nat, y: nat) {
    x < n - 1 && y < n - 1 && ((Up(s, x), Up(s, y)) in e || ((Up(s, x), s) in e && (s, Up(s, y)) in e))
  }

  ghost predicate EmptyEdges(e: Rel, s: nat, n: nat, g: Rel) {
    forall x: nat, y: nat :: (x, y) in g <==> EmptyEdge(e, s, n, x, y)
  }

  lemma LinearAcyclic(order: seq<nat>, e: Rel, n: nat)
    requires LinearExtension(order, e, n) && Within(e, n)
    ensures Acyclic(e)
  {
    forall x: nat ensures !Plus(e, x, x) {
      if Plus(e, x, x) {
        PlusWithin(e, n, x, x);
        var p :| IsPath(e, p, x, x) && |p| > 1;
        AllListed(order, n, x);
        var i :| 0 <= i < |order| && order[i] == x;
        var j := PathForward(order, e, n, p, x, x, i);
      }
    }
  }

  lemma AllListed(order: seq<nat>, n: nat, x: nat)
    requires Permutation(order, n) && x < n
    ensures x in order
  {
    DistinctCount(order, n);
    if x !in order {
      var more := order + [x];
      forall i, j | 0 <= i < j < |more| ensures more[i] != more[j] { }
      DistinctCount(more, n);
    }
  }

  lemma {:induction false} PathForward(order: seq<nat>, e: Rel, n: nat, p: seq<nat>, x: nat, y: nat, i: nat) returns (j: nat)
    requires LinearExtension(order, e, n) && Within(e, n) && IsPath(e, p, x, y) && |p| > 1 && i < |order| && order[i] == x
    ensures i < j < |order| && order[j] == y
    decreases |p|
  {
    var z := p[1];
    assert (p[1 - 1], p[1]) in e;
    AllListed(order, n, z);
    var k: nat :| k < |order| && order[k] == z;
    assert (order[i], order[k]) in e;
    if |p| == 2 {
      j := k;
    } else {
      assert IsPath(e, p[1..], z, y);
      j := PathForward(order, e, n, p[1..], z, y, k);
    }
  }

  /** A path between the new positions either stays among the inlined subtasks or projects to a path of the old method. */
  lemma {:induction false} FullPath(e: Rel, f: Rel, s: nat, n: nat, k: nat, g: Rel, p: seq<nat>, x: nat, y: nat)
    requires FullEdges(e, f, s, n, k, g) && s < n && IsPath(g, p, x, y) && |p| > 1
    ensures (IsInner(s, n, x) && IsInner(s, n, y) && Plus(f, InnerIndex(s, n, x), InnerIndex(s, n, y))) || Plus(e, Origin(s, n, x), Origin(s, n, y))
    decreases |p|
  {
    var z := p[1];
    assert (p[1 - 1], p[1]) in g;
    assert FullEdge(e, f, s, n, k, x, z);
    hide FullEdges;
    if IsInner(s, n, x) && IsInner(s, n, z) {
      PlusStep(f, InnerIndex(s, n, x), InnerIndex(s, n, z));
    } else {
      PlusStep(e, Origin(s, n, x), Origin(s, n, z));
    }
    if |p| > 2 {
      assert IsPath(g, p[1..], z, y);
      FullPath(e, f, s, n, k, g, p[1..], z, y);
      Compose(e, f, s, n, x, z, y);
    }
  }

  lemma Compose(e: Rel, f: Rel, s: nat, n: nat, x: nat, z: nat, y: nat)
    requires s < n
    requires (IsInner(s, n, x) && IsInner(s, n, z) && Plus(f, InnerIndex(s, n, x), InnerIndex(s, n, z))) || Plus(e, Origin(s, n, x), Origin(s, n, z))
    requires (IsInner(s, n, z) && IsInner(s, n, y) && Plus(f, InnerIndex(s, n, z), InnerIndex(s, n, y))) || Plus(e, Origin(s, n, z), Origin(s, n, y))
    ensures (IsInner(s, n, x) && IsInner(s, n, y) && Plus(f, InnerIndex(s, n, x), InnerIndex(s, n, y))) || Plus(e, Origin(s, n, x), Origin(s, n, y))
  {
    var ox, oz, oy := Origin(s, n, x), Origin(s, n, z), Origin(s, n, y);
    if Plus(e, ox, oz) && Plus(e, oz, oy) {
      PlusIsReach(e, oz, oy);
      PlusReach(e, ox, oz, oy);
    } else if !Plus(e, ox, oz) && !Plus(e, oz, oy) {
      PlusIsReach(f, InnerIndex(s, n, z), InnerIndex(s, n, y));
      PlusReach(f, InnerIndex(s, n, x), InnerIndex(s, n, z), InnerIndex(s, n, y));
    }
  }

  lemma {:induction false} LiftPath(f: Rel, s: nat, n: nat, g: Rel, p: seq<nat>, i: nat, j: nat)
    requires n > 0 && (forall a, b :: (a, b) in f ==> (PlaceOf(s, n, a), PlaceOf(s, n, b)) in g) && IsPath(f, p, i, j) && |p| > 1
    ensures Plus(g, PlaceOf(s, n, i), PlaceOf(s, n, j))
    decreases |p|
  {
    assert (p[1 - 1], p[1]) in f;
    PlusStep(g, PlaceOf(s, n, i), PlaceOf(s, n, p[1]));
    if |p| > 2 {
      assert IsPath(f, p[1..], p[1], j);
      LiftPath(f, s, n, g, p[1..], p[1], j);
      PlusIsReach(g, PlaceOf(s, n, p[1]), PlaceOf(s, n, j));
      PlusReach(g, PlaceOf(s, n, i), PlaceOf(s, n, p[1]), PlaceOf(s, n, j));
    }
  }

  lemma PlusLastStep(e: Rel, x: nat, y: nat) returns (z: nat)
    requires Plus(e, x, y)
    ensures (z, y) in e && Reach(e, x, z)
  {
    var p :| IsPath(e, p, x, y) && |p| > 1;
    z := p[|p| - 2];
    assert (p[|p| - 1 - 1], p[|p| - 1]) in e;
    assert IsPath(e, p[..|p| - 1], x, z);
  }

  lemma PlusSubset(e: Rel, g: Rel, x: nat, y: nat)
    requires e <= g && Plus(e, x, y)
    ensures Plus(g, x, y)
  {
    forall a, b | (a, b) in e ensures Plus(g, a, b) { PlusStep(g, a, b); }
    PlusMonotone(e, g, x, y);
  }

  lemma ReachMonotone(e: Rel, g: Rel, x: nat, y: nat)
    requires Reach(e, x, y) && e <= g
    ensures Reach(g, x, y)
  {
    ReachIsPlusOrEqual(e, x, y);
    if Plus(e, x, y) {
      PlusSubset(e, g, x, y);
      PlusIsReach(g, x, y);
    } else {
      ReachRefl(g, x);
    }
  }

  /** Exact substitution: inlined subtasks stand to each other as in the inlined method, and to the others as the replaced task did. */
  lemma Substitution(e: Rel, f: Rel, s: nat, n: nat, k: nat, g: Rel, x: nat, y: nat)
    requires FullEdges(e, f, s, n, k, g) && s < n && k > 0 && Within(e, n) && Within(f, k) && Acyclic(e) && x < n - 1 + k && y < n - 1 + k
    ensures Plus(g, x, y) <==>
      if IsInner(s, n, x) && IsInner(s, n, y) then Plus(f, InnerIndex(s, n, x), InnerIndex(s, n, y)) else Plus(e, Origin(s, n, x), Origin(s, n, y))
  {
    if Plus(g, x, y) {
      var p :| IsPath(g, p, x, y) && |p| > 1;
      FullPath(e, f, s, n, k, g, p, x, y);
    }
    OldInside(e, f, s, n, k, g);
    if IsInner(s, n, x) && IsInner(s, n, y) {
      if Plus(f, InnerIndex(s, n, x), InnerIndex(s, n, y)) {
        var p :| IsPath(f, p, InnerIndex(s, n, x), InnerIndex(s, n, y)) && |p| > 1;
        LiftPath(f, s, n, g, p, InnerIndex(s, n, x), InnerIndex(s, n, y));
      }
    } else if Plus(e, Origin(s, n, x), Origin(s, n, y)) {
      if x >= n {
        FromInner(e, f, s, n, k, g, x, y);
      } else if y >= n {
        ToInner(e, f, s, n, k, g, x, y);
      } else {
        PlusSubset(e, g, x, y);
      }
    }
  }

  lemma OldInside(e: Rel, f: Rel, s: nat, n: nat, k: nat, g: Rel)
    requires FullEdges(e, f, s, n, k, g) && s < n && k > 0 && Within(e, n) && Within(f, k) && Acyclic(e)
    ensures e <= g && forall a, b :: (a, b) in f ==> (PlaceOf(s, n, a), PlaceOf(s, n, b)) in g
  {
    forall c | c in e ensures c in g {
      OldEdge(e, f, s, n, k, g, c.0, c.1);
      assert c == (c.0, c.1);
    }
    forall a, b | (a, b) in f ensures (PlaceOf(s, n, a), PlaceOf(s, n, b)) in g { NewEdge(e, f, s, n, k, g, a, b); }
  }

  lemma OldEdge(e: Rel, f: Rel, s: nat, n: nat, k: nat, g: Rel, a: nat, b: nat)
    requires FullEdges(e, f, s, n, k, g) && s < n && k > 0 && Within(e, n) && Acyclic(e) && (a, b) in e
    ensures (a, b) in g
  {
    NoLoop(e, a);
    EdgeIs(e, f, s, n, k, g, a, b);
    hide Acyclic, FullEdges;
  }

  lemma NewEdge(e: Rel, f: Rel, s: nat, n: nat, k: nat, g: Rel, a: nat, b: nat)
    requires FullEdges(e, f, s, n, k, g) && s < n && k > 0 && Within(f, k) && (a, b) in f
    ensures (PlaceOf(s, n, a), PlaceOf(s, n, b)) in g
  {
    var x, y := PlaceOf(s, n, a), PlaceOf(s, n, b);
    EdgeIs(e, f, s, n, k, g, x, y);
    hide FullEdges;
    assert IsInner(s, n, x) && IsInner(s, n, y) && InnerIndex(s, n, x) == a && InnerIndex(s, n, y) == b;
  }

  lemma EdgeIs(e: Rel, f: Rel, s: nat, n: nat, k: nat, g: Rel, x: nat, y: nat)
    requires FullEdges(e, f, s, n, k, g)
    ensures (x, y) in g <==> FullEdge(e, f, s, n, k, x, y)
  {
    hide FullEdge;
  }

  lemma NoLoop(e: Rel, a: nat)
    requires Acyclic(e)
    ensures (a, a) !in e
  {
    if (a, a) in e { PlusStep(e, a, a); }
  }

  lemma FromInner(e: Rel, f: Rel, s: nat, n: nat, k: nat, g: Rel, x: nat, y: nat)
    requires FullEdges(e, f, s, n, k, g) && s < n && k > 0 && Within(e, n) && Acyclic(e) && e <= g
    requires n <= x < n - 1 + k && y < n && y != s && Plus(e, s, y)
    ensures Plus(g, x, y)
  {
    var z := PlusFirstStep(e, s, y);
    NoLoop(e, s);
    assert FullEdge(e, f, s, n, k, x, z);
    PlusStep(g, x, z);
    ReachMonotone(e, g, z, y);
    PlusReach(g, x, z, y);
  }

  lemma ToInner(e: Rel, f: Rel, s: nat, n: nat, k: nat, g: Rel, x: nat, y: nat)
    requires FullEdges(e, f, s, n, k, g) && s < n && k > 0 && Within(e, n) && Acyclic(e) && e <= g
    requires x < n && x != s && n <= y < n - 1 + k && Plus(e, x, s)
    ensures Plus(g, x, y)
  {
    var z := PlusLastStep(e, x, s);
    NoLoop(e, s);
    assert FullEdge(e, f, s, n, k, z, y);
    PlusStep(g, z, y);
    ReachMonotone(e, g, x, z);
    PlusReach(g, x, z, y);
  }

  /** Removing a task without subtasks leaves the closure of the others. */
  lemma Restriction(e: Rel, s: nat, n: nat, g: Rel, x: nat, y: nat)
    requires EmptyEdges(e, s, n, g) && s < n && Within(e, n) && Acyclic(e) && x < n - 1 && y < n - 1
    ensures Plus(g, x, y) <==> Plus(e, Up(s, x), Up(s, y))
  {
    if Plus(g, x, y) {
      var p :| IsPath(g, p, x, y) && |p| > 1;
      EmptyPath(e, s, n, g, p, x, y);
    }
    if Plus(e, Up(s, x), Up(s, y)) {
      var p :| IsPath(e, p, Up(s, x), Up(s, y)) && |p| > 1;
      AroundPath(e, s, n, g, p, x, y);
    }
  }

  lemma {:induction false} EmptyPath(e: Rel, s: nat, n: nat, g: Rel, p: seq<nat>, x: nat, y: nat)
    requires EmptyEdges(e, s, n, g) && IsPath(g, p, x, y) && |p| > 1
    ensures Plus(e, Up(s, x), Up(s, y))
    decreases |p|
  {
    var z := p[1];
    assert (p[1 - 1], p[1]) in g;
    assert EmptyEdge(e, s, n, x, z);
    OneEdge(e, s, n, x, z);
    if |p| > 2 {
      assert IsPath(g, p[1..], z, y);
      EmptyPath(e, s, n, g, p[1..], z, y);
      PlusIsReach(e, Up(s, z), Up(s, y));
      PlusReach(e, Up(s, x), Up(s, z), Up(s, y));
    }
  }

  lemma OneEdge(e: Rel, s: nat, n: nat, x: nat, z: nat)
    requires EmptyEdge(e, s, n, x, z)
    ensures Plus(e, Up(s, x), Up(s, z))
  {
    if (Up(s, x), Up(s, z)) in e {
      PlusStep(e, Up(s, x), Up(s, z));
    } else {
      PlusStep(e, Up(s, x), s);
      PlusStep(e, s, Up(s, z));
      PlusReach(e, Up(s, x), s, Up(s, z));
    }
  }

  lemma {:induction false} AroundPath(e: Rel, s: nat, n: nat, g: Rel, p: seq<nat>, x: nat, y: nat)
    requires EmptyEdges(e, s, n, g) && s < n && Within(e, n) && Acyclic(e) && x < n - 1 && y < n - 1
    requires IsPath(e, p, Up(s, x), Up(s, y)) && |p| > 1
    ensures Plus(g, x, y)
    decreases |p|
  {
    assert (p[1 - 1], p[1]) in e;
    var m := if p[1] != s then 1 else 2;
    if p[1] == s {
      assert |p| > 2 && (p[2 - 1], p[2]) in e;
      NoLoop(e, s);
    }
    var z := Down(s, p[m]);
    assert Up(s, z) == p[m] && EmptyEdge(e, s, n, x, z);
    PlusStep(g, x, z);
    if |p| > m + 1 {
      assert IsPath(e, p[m..], Up(s, z), Up(s, y));
      AroundPath(e, s, n, g, p[m..], z, y);
      PlusIsReach(g, z, y);
      PlusReach(g, x, z, y);
    }
  }

  // ----- the linearisation -----

  ghost function Lift(order: seq<nat>, s: nat, n: nat): (r: seq<nat>)
    requires n > 0
    ensures |r| == |order| && forall j :: 0 <= j < |order| ==> r[j] == PlaceOf(s, n, order[j])
  {
    seq(|order|, j requires 0 <= j < |order| => PlaceOf(s, n, order[j]))
  }

  ghost function Lower(order: seq<nat>, s: nat): (r: seq<nat>)
    ensures |r| == |order| && forall j :: 0 <= j < |order| ==> r[j] == Down(s, order[j])
  {
    seq(|order|, j requires 0 <= j < |order| => Down(s, order[j]))
  }

  function Splice<T>(order: seq<T>, position: nat, middle: seq<T>): (r: seq<T>)
    requires position < |order|
    ensures |r| == |order| - 1 + |middle|
    ensures forall i :: 0 <= i < position ==> r[i] == order[i]
    ensures forall i {:trigger r[i]} :: position <= i < position + |middle| ==> r[i] == middle[i - position]
    ensures forall i {:trigger r[i]} :: position + |middle| <= i < |r| ==> r[i] == order[i + 1 - |middle|]
  {
    order[..position] + middle + order[position + 1..]
  }

  /** The position in the old linearisation a new one belongs to. */
  function Source(position: nat, k: nat, i: nat): nat
    requires i < position + k || i + 1 >= k
  {
    if i < position then i else if i < position + k then position else i + 1 - k
  }

  lemma FullOrder(order: seq<nat>, e: Rel, n: nat, s: nat, position: nat, inner: seq<nat>, f: Rel, k: nat, g: Rel)
    requires LinearExtension(order, e, n) && LinearExtension(inner, f, k) && k > 0 && position < n && order[position] == s
    requires FullEdges(e, f, s, n, k, g)
    ensures s < n && LinearExtension(Splice(order, position, Lift(inner, s, n)), g, n - 1 + k)
  {
    var r := Splice(order, position, Lift(inner, s, n));
    forall i | 0 <= i < |r| ensures Origin(s, n, r[i]) == order[Source(position, k, i)] && (IsInner(s, n, r[i]) <==> position <= i < position + k) && r[i] < n - 1 + k {
      OneOrigin(order, n, s, position, inner, k, i);
    }
    forall i | position <= i < position + k ensures InnerIndex(s, n, r[i]) == inner[i - position] { }
    forall i, j | 0 <= i < j < |r| ensures r[i] != r[j] {
      OneOrigin(order, n, s, position, inner, k, i);
      OneOrigin(order, n, s, position, inner, k, j);
    }
    forall i, j | 0 <= i < |r| && 0 <= j < |r| && (r[i], r[j]) in g ensures i < j {
      assert FullEdge(e, f, s, n, k, r[i], r[j]);
      if IsInner(s, n, r[i]) && IsInner(s, n, r[j]) {
        assert (inner[i - position], inner[j - position]) in f;
      } else {
        assert (order[Source(position, k, i)], order[Source(position, k, j)]) in e;
      }
    }
  }

  lemma OneOrigin(order: seq<nat>, n: nat, s: nat, position: nat, inner: seq<nat>, k: nat, i: nat)
    requires Permutation(order, n) && Permutation(inner, k) && k > 0 && position < n && order[position] == s && i < n - 1 + k
    ensures var r := Splice(order, position, Lift(inner, s, n));
      Origin(s, n, r[i]) == order[Source(position, k, i)] && (IsInner(s, n, r[i]) <==> position <= i < position + k) && r[i] < n - 1 + k
  {
  }

  lemma EmptyOrder(order: seq<nat>, e: Rel, n: nat, s: nat, position: nat, g: Rel)
    requires LinearExtension(order, e, n) && position < n && order[position] == s && EmptyEdges(e, s, n, g)
    ensures LinearExtension(Lower(Splice(order, position, []), s), g, n - 1)
  {
    var r := Lower(Splice(order, position, []), s);
    forall i | 0 <= i < |r| ensures Up(s, r[i]) == order[Source(position, 0, i)] && r[i] < n - 1 { }
    forall i, j | 0 <= i < |r| && 0 <= j < |r| && (r[i], r[j]) in g ensures i < j {
      assert EmptyEdge(e, s, n, r[i], r[j]);
      var a, b := Source(position, 0, i), Source(position, 0, j);
      if (order[a], order[b]) in e {
      } else {
        assert (order[a], order[position]) in e && (order[position], order[b]) in e;
      }
    }
  }

  // ----- the method being rewritten -----

  /** The word with every occurrence of t replaced. */
  ghost function Replace(w: seq<nat>, t: nat, inner: seq<nat>): seq<nat> {
    if w == [] then [] else (if w[0] == t then inner else [w[0]]) + Replace(w[1..], t, inner)
  }

  lemma {:induction false} ReplaceConcat(u: seq<nat>, w: seq<nat>, t: nat, inner: seq<nat>)
    ensures Replace(u + w, t, inner) == Replace(u, t, inner) + Replace(w, t, inner)
    decreases |u|
  {
    if u == [] {
      assert u + w == w;
    } else {
      assert (u + w)[1..] == u[1..] + w;
      ReplaceConcat(u[1..], w, t, inner);
    }
  }

  lemma {:induction false} ReplaceNothing(w: seq<nat>, t: nat, inner: seq<nat>)
    requires t !in w
    ensures Replace(w, t, inner) == w
    decreases |w|
  {
    if w != [] {
      ReplaceNothing(w[1..], t, inner);
      assert w == [w[0]] + w[1..];
    }
  }

  lemma ReplaceParts(u: seq<nat>, x: seq<nat>, v: seq<nat>, t: nat, inner: seq<nat>)
    ensures Replace(u + x + v, t, inner) == Replace(u, t, inner) + Replace(x, t, inner) + Replace(v, t, inner)
  {
    hide Replace;
    ReplaceConcat(u + x, v, t, inner);
    ReplaceConcat(u, x, t, inner);
  }

  lemma ReplaceSingle(t: nat, inner: seq<nat>)
    ensures Replace([t], t, inner) == inner
  {
    assert [t][1..] == [] && inner + [] == inner;
  }

  lemma ReplaceOne(w: seq<nat>, position: nat, t: nat, inner: seq<nat>)
    requires position < |w| && w[position] == t && t !in inner
    ensures Replace(Splice(w, position, inner), t, inner) == Replace(w, t, inner)
  {
    hide Replace;
    var u, v := w[..position], w[position + 1..];
    assert w == u + [t] + v;
    ReplaceParts(u, [t], v, t, inner);
    ReplaceParts(u, inner, v, t, inner);
    ReplaceNothing(inner, t, inner);
    ReplaceSingle(t, inner);
  }

  /** new_ is old_ with the task at position s of its subtasks replaced by the subtasks of inner. */
  ghost predicate Substituted(old_: MethodValue, s: nat, inner: MethodValue, new_: MethodValue) {
    var e, f, g, n, k := ConstraintEdges(old_.orderingConstraints), ConstraintEdges(inner.orderingConstraints), ConstraintEdges(new_.orderingConstraints), |old_.subtasks|, |inner.subtasks|;
    s < n &&
    if k > 0 then
      && |new_.subtasks| == n - 1 + k
      && (forall x: nat :: x < n - 1 + k ==> new_.subtasks[x] == SubtaskFrom(old_.subtasks, inner.subtasks, s, x))
      && (forall x: nat, y: nat :: x < n - 1 + k && y < n - 1 + k ==> (Plus(g, x, y) <==> Related(e, f, s, n, x, y)))
    else
      && |new_.subtasks| == n - 1
      && (forall x: nat :: x < n - 1 ==> Up(s, x) < n && new_.subtasks[x] == old_.subtasks[Up(s, x)])
      && (forall x: nat, y: nat :: x < n - 1 && y < n - 1 ==> (Plus(g, x, y) <==> Plus(e, Up(s, x), Up(s, y))))
  }

  ghost function SubtaskFrom(old_: seq<nat>, inner: seq<nat>, s: nat, x: nat): nat
    requires x < |old_| - 1 + |inner| && |inner| > 0 && |old_| > 0
  {
    if IsInner(s, |old_|, x) then inner[InnerIndex(s, |old_|, x)] else old_[x]
  }

  ghost predicate Related(e: Rel, f: Rel, s: nat, n: nat, x: nat, y: nat) {
    if IsInner(s, n, x) && IsInner(s, n, y) then Plus(f, InnerIndex(s, n, x), InnerIndex(s, n, y)) else Plus(e, Origin(s, n, x), Origin(s, n, y))
  }

  // ----- the pieces of lines 423-537 -----

  /** Lines 423-429. */
  method Pertaining(constraints: seq<(nat, nat)>, s: nat) returns (pertaining: seq<(nat, nat)>, other: seq<(nat, nat)>)
    ensures forall a: nat, b: nat :: (a, b) in pertaining <==> (a, b) in constraints && (a == s || b == s)
    ensures forall a: nat, b: nat :: (a, b) in other <==> (a, b) in constraints && a != s && b != s
  {
    pertaining, other := [], [];
    for i := 0 to |constraints|
      invariant forall a: nat, b: nat :: (a, b) in pertaining <==> (a, b) in constraints[..i] && (a == s || b == s)
      invariant forall a: nat, b: nat :: (a, b) in other <==> (a, b) in constraints[..i] && a != s && b != s
    {
      assert constraints[..i + 1] == constraints[..i] + [constraints[i]];
      if constraints[i].0 == s || constraints[i].1 == s {
        pertaining := pertaining + [constraints[i]];
      } else {
        other := other + [constraints[i]];
      }
    }
    assert constraints[..|constraints|] == constraints;
  }

  ghost predicate Copied(pertaining: seq<(nat, nat)>, s: nat, from: nat, to: nat, a: nat, b: nat) {
    (from <= a < to && (s, b) in pertaining) || (from <= b < to && a != s && (a, s) in pertaining)
  }

  /** Lines 476-480 for one new position. */
  method CopyFor(constraints: seq<(nat, nat)>, pertaining: seq<(nat, nat)>, s: nat, position: nat) returns (r: seq<(nat, nat)>)
    requires forall a: nat, b: nat :: (a, b) in pertaining ==> (a == s || b == s)
    ensures forall a: nat, b: nat :: (a, b) in r <==> (a, b) in constraints || Copied(pertaining, s, position, position + 1, a, b)
  {
    r := constraints;
    for i := 0 to |pertaining|
      invariant forall a: nat, b: nat :: (a, b) in r <==> (a, b) in constraints || Copied(pertaining[..i], s, position, position + 1, a, b)
    {
      var order := pertaining[i];
      assert order == (order.0, order.1) && order in pertaining;
      assert pertaining[..i + 1] == pertaining[..i] + [order];
      if order.0 == s {
        r := r + [(position, order.1)];
      } else {
        r := r + [(order.0, position)];
      }
    }
    assert pertaining[..|pertaining|] == pertaining;
  }

  /** Lines 472-485: every further inlined subtask gets copies of the replaced task's constraints. */
  method CopyAll(constraints: seq<(nat, nat)>, pertaining: seq<(nat, nat)>, s: nat, n: nat, k: nat) returns (r: seq<(nat, nat)>)
    requires k > 0 && forall a: nat, b: nat :: (a, b) in pertaining ==> (a == s || b == s)
    ensures forall a: nat, b: nat :: (a, b) in r <==> (a, b) in constraints || Copied(pertaining, s, n, n - 1 + k, a, b)
  {
    r := constraints;
    for i := 1 to k
      invariant forall a: nat, b: nat :: (a, b) in r <==> (a, b) in constraints || Copied(pertaining, s, n, n - 1 + i, a, b)
    {
      r := CopyFor(r, pertaining, s, n - 1 + i);
    }
  }

  ghost predicate Lifted(constraints: seq<(nat, nat)>, s: nat, n: nat, x: nat, y: nat) {
    n > 0 && exists i :: 0 <= i < |constraints| && x == PlaceOf(s, n, constraints[i].0) && y == PlaceOf(s, n, constraints[i].1)
  }

  /** Lines 514-521. */
  method LiftAll(constraints: seq<(nat, nat)>, inner: seq<(nat, nat)>, s: nat, n: nat) returns (r: seq<(nat, nat)>)
    requires n > 0 && forall i :: 0 <= i < |inner| ==> inner[i].0 != 0 || inner[i].1 != 0
    ensures forall a: nat, b: nat :: (a, b) in r <==> (a, b) in constraints || Lifted(inner, s, n, a, b)
  {
    r := constraints;
    for i := 0 to |inner|
      invariant forall a: nat, b: nat :: (a, b) in r <==> (a, b) in constraints || Lifted(inner[..i], s, n, a, b)
    {
      var order := inner[i];
      ghost var before := r;
      if order.0 == 0 {
        r := r + [(s, order.1 - 1 + n)];
      } else if order.1 == 0 {
        r := r + [(order.0 - 1 + n, s)];
      } else {
        r := r + [(order.0 - 1 + n, order.1 - 1 + n)];
      }
      assert r == before + [(PlaceOf(s, n, order.0), PlaceOf(s, n, order.1))];
      LiftedNext(inner, i, s, n);
    }
    assert inner[..|inner|] == inner;
  }

  lemma LiftedNext(inner: seq<(nat, nat)>, i: nat, s: nat, n: nat)
    requires i < |inner| && n > 0
    ensures forall x: nat, y: nat :: Lifted(inner[..i + 1], s, n, x, y) <==>
      Lifted(inner[..i], s, n, x, y) || (x == PlaceOf(s, n, inner[i].0) && y == PlaceOf(s, n, inner[i].1))
  {
    forall x: nat, y: nat ensures Lifted(inner[..i + 1], s, n, x, y) <==>
      Lifted(inner[..i], s, n, x, y) || (x == PlaceOf(s, n, inner[i].0) && y == PlaceOf(s, n, inner[i].1))
    {
      if Lifted(inner[..i], s, n, x, y) {
        var j :| 0 <= j < i && x == PlaceOf(s, n, inner[..i][j].0) && y == PlaceOf(s, n, inner[..i][j].1);
        assert inner[..i + 1][j] == inner[..i][j];
      }
      if x == PlaceOf(s, n, inner[i].0) && y == PlaceOf(s, n, inner[i].1) { assert inner[..i + 1][i] == inner[i]; }
    }
  }

  /** Together they are the constraints of the substitution. */
  lemma FullFromParts(e: Rel, constraints: seq<(nat, nat)>, f: Rel, inner: seq<(nat, nat)>, pertaining: seq<(nat, nat)>, s: nat, n: nat, k: nat, r: seq<(nat, nat)>)
    requires e == ConstraintEdges(constraints) && f == ConstraintEdges(inner) && Within(e, n) && Within(f, k) && s < n && k > 0 && Acyclic(e)
    requires forall a: nat, b: nat :: (a, b) in pertaining <==> (a, b) in constraints && (a == s || b == s)
    requires forall a: nat, b: nat :: (a, b) in r <==> (a, b) in constraints || Copied(pertaining, s, n, n - 1 + k, a, b) || Lifted(inner, s, n, a, b)
    ensures FullEdges(e, f, s, n, k, ConstraintEdges(r))
  {
    NoLoop(e, s);
    forall x: nat, y: nat ensures (x, y) in r <==> FullEdge(e, f, s, n, k, x, y) {
      LiftedEdge(inner, f, s, n, k, x, y);
      CopiedEdge(e, constraints, pertaining, s, n, k, x, y);
    }
  }

  lemma LiftedEdge(inner: seq<(nat, nat)>, f: Rel, s: nat, n: nat, k: nat, x: nat, y: nat)
    requires f == ConstraintEdges(inner) && Within(f, k) && s < n
    ensures Lifted(inner, s, n, x, y) <==> x < n - 1 + k && y < n - 1 + k && IsInner(s, n, x) && IsInner(s, n, y) && (InnerIndex(s, n, x), InnerIndex(s, n, y)) in f
  {
    if Lifted(inner, s, n, x, y) {
      var i :| 0 <= i < |inner| && x == PlaceOf(s, n, inner[i].0) && y == PlaceOf(s, n, inner[i].1);
      var a, b := inner[i].0, inner[i].1;
      assert inner[i] == (a, b) && (a, b) in f;
      assert InnerIndex(s, n, x) == a && InnerIndex(s, n, y) == b;
    }
    if x < n - 1 + k && y < n - 1 + k && IsInner(s, n, x) && IsInner(s, n, y) && (InnerIndex(s, n, x), InnerIndex(s, n, y)) in f {
      var i :| 0 <= i < |inner| && inner[i] == (InnerIndex(s, n, x), InnerIndex(s, n, y));
      assert x == PlaceOf(s, n, inner[i].0) && y == PlaceOf(s, n, inner[i].1);
    }
  }

  lemma CopiedEdge(e: Rel, constraints: seq<(nat, nat)>, pertaining: seq<(nat, nat)>, s: nat, n: nat, k: nat, x: nat, y: nat)
    requires e == ConstraintEdges(constraints) && Within(e, n) && s < n && k > 0 && (s, s) !in e
    requires forall a: nat, b: nat :: (a, b) in pertaining <==> (a, b) in constraints && (a == s || b == s)
    ensures (x, y) in constraints || Copied(pertaining, s, n, n - 1 + k, x, y) <==>
      x < n - 1 + k && y < n - 1 + k && !(IsInner(s, n, x) && IsInner(s, n, y)) && (Origin(s, n, x), Origin(s, n, y)) in e
  {
  }

  function Iota(from: nat, to: nat): (r: seq<int>)
    requires from <= to
    ensures |r| == to - from && forall i :: 0 <= i < |r| ==> r[i] == from + i
  {
    seq(to - from, i requires 0 <= i < to - from => from + i)
  }

  function Negatives(k: nat): (r: seq<int>)
    ensures |r| == k && forall i :: 0 <= i < |r| ==> r[i] == 0 - i - 1
  {
    seq(k, i requires 0 <= i < k => 0 - i - 1)
  }

  lemma IdMapParts(n: nat, position: nat, k: nat)
    requires position < n
    ensures IdMap(n, position, k) == Iota(0, position) + Negatives(k) + Iota(position + 1, n)
  {
  }

  /** Lines 494-503: the inlined subtasks in their order. */
  method PlaceInner(inner: seq<nat>, s: nat, n: nat) returns (places: seq<nat>, ids: seq<int>)
    requires n > 0
    ensures places == Lift(inner, s, n) && ids == Negatives(|inner|)
  {
    places, ids := [], [];
    for j := 0 to |inner|
      invariant places == Lift(inner, s, n)[..j] && ids == Negatives(|inner|)[..j]
    {
      var unitTask := inner[j];
      places := places + [if unitTask == 0 then s else n + unitTask - 1];
      var id: int := 0 - j - 1;
      ids := ids + [id];
    }
  }

  ghost predicate SplicedUpTo(order: seq<nat>, place: nat, middle: seq<nat>, negatives: seq<int>, i: nat, newOrdering: seq<nat>, ids: seq<int>)
    requires i <= |order| && place < |order|
  {
    && newOrdering == (if i > place then order[..place] + middle + order[place + 1..i] else order[..i])
    && ids == (if i > place then Iota(0, place) + negatives + Iota(place + 1, i) else Iota(0, i))
  }

  lemma SplicedStep(order: seq<nat>, place: nat, middle: seq<nat>, negatives: seq<int>, i: nat, newOrdering: seq<nat>, ids: seq<int>)
    requires i < |order| && place < |order| && SplicedUpTo(order, place, middle, negatives, i, newOrdering, ids)
    ensures i == place ==> SplicedUpTo(order, place, middle, negatives, i + 1, newOrdering + middle, ids + negatives)
    ensures i != place ==> SplicedUpTo(order, place, middle, negatives, i + 1, newOrdering + [order[i]], ids + [i])
  {
    if i == place {
      assert order[place + 1..i + 1] == [] && Iota(place + 1, i + 1) == [];
    } else if i > place {
      assert order[place + 1..i + 1] == order[place + 1..i] + [order[i]] && Iota(place + 1, i + 1) == Iota(place + 1, i) + [i];
    } else {
      assert order[..i + 1] == order[..i] + [order[i]] && Iota(0, i + 1) == Iota(0, i) + [i];
    }
  }

  lemma SplicedEnd(order: seq<nat>, place: nat, middle: seq<nat>, k: nat, newOrdering: seq<nat>, ids: seq<int>)
    requires place < |order| && |middle| == k && SplicedUpTo(order, place, middle, Negatives(k), |order|, newOrdering, ids)
    ensures newOrdering == Splice(order, place, middle) && ids == IdMap(|order|, place, k)
  {
    IdMapParts(|order|, place, k);
    assert order[place + 1..|order|] == order[place + 1..];
  }

  lemma SplicedStart(order: seq<nat>, place: nat, middle: seq<nat>, negatives: seq<int>)
    requires place < |order|
    ensures SplicedUpTo(order, place, middle, negatives, 0, [], [])
  {
  }

  lemma Where(order: seq<nat>, n: nat, s: nat) returns (place: nat)
    requires Permutation(order, n) && s < n
    ensures place < n == |order| && forall i :: 0 <= i < n ==> (order[i] == s <==> i == place)
  {
    AllListed(order, n, s);
    place :| place < n && order[place] == s;
  }

  /** Lines 487-511: the inlined linearisation takes the place of the replaced task. */
  method SpliceOrdering(order: seq<nat>, s: nat, inner: seq<nat>, n: nat) returns (newOrdering: seq<nat>, idmapping: seq<int>, position: nat)
    requires Permutation(order, n) && s < n && |inner| > 0
    ensures position < n == |order| && order[position] == s && newOrdering == Splice(order, position, Lift(inner, s, n)) && idmapping == IdMap(n, position, |inner|)
  {
    hide SplicedUpTo, Permutation, Splice, IdMap, Negatives;
    ghost var place := Where(order, n, s);
    position, newOrdering, idmapping := n, [], [];
    SplicedStart(order, place, Lift(inner, s, n), Negatives(|inner|));
    var i: nat := 0;
    while i < |order|
      invariant i <= |order| && position == (if i > place then place else n)
      invariant SplicedUpTo(order, place, Lift(inner, s, n), Negatives(|inner|), i, newOrdering, idmapping)
    {
      SplicedStep(order, place, Lift(inner, s, n), Negatives(|inner|), i, newOrdering, idmapping);
      if order[i] == s {
        position := i;
        var places, ids := PlaceInner(inner, s, n);
        newOrdering, idmapping := newOrdering + places, idmapping + ids;
      } else {
        newOrdering, idmapping := newOrdering + [order[i]], idmapping + [i];
      }
      i := i + 1;
    }
    SplicedEnd(order, place, Lift(inner, s, n), |inner|, newOrdering, idmapping);
  }

  lemma LowerSnoc(order: seq<nat>, s: nat, x: nat)
    ensures Lower(order + [x], s) == Lower(order, s) + [Down(s, x)]
    ensures Lower([], s) == []
  {
  }

  /** Lines 443-454: the task is dropped from the linearisation. */
  method DropFromOrdering(order: seq<nat>, s: nat, n: nat) returns (newOrdering: seq<nat>, idmapping: seq<int>, position: nat)
    requires Permutation(order, n) && s < n
    ensures position < n == |order| && order[position] == s && newOrdering == Lower(Splice(order, position, []), s) && idmapping == IdMap(n, position, 0)
  {
    hide SplicedUpTo, Permutation, Splice, IdMap, Negatives, Lower;
    ghost var place := Where(order, n, s);
    ghost var kept: seq<nat> := [];
    position, newOrdering, idmapping := n, [], [];
    SplicedStart(order, place, [], Negatives(0));
    LowerSnoc([], s, 0);
    var i: nat := 0;
    while i < |order|
      invariant i <= |order| && position == (if i > place then place else n)
      invariant SplicedUpTo(order, place, [], Negatives(0), i, kept, idmapping) && newOrdering == Lower(kept, s)
    {
      SplicedStep(order, place, [], Negatives(0), i, kept, idmapping);
      if order[i] == s {
        position := i;
        Nothing(kept, idmapping);
      } else {
        LowerSnoc(kept, s, order[i]);
        newOrdering := newOrdering + [order[i] - (if order[i] > s then 1 else 0)];
        kept, idmapping := kept + [order[i]], idmapping + [i];
      }
      i := i + 1;
    }
    SplicedEnd(order, place, [], 0, kept, idmapping);
  }

  lemma Nothing(kept: seq<nat>, ids: seq<int>)
    ensures kept + [] == kept && ids + Negatives(0) == ids
  {
  }

  ghost predicate Bridged(pertaining: seq<(nat, nat)>, s: nat, a: nat, b: nat) {
    (a, s) in pertaining && (s, b) in pertaining
  }

  /** Lines 456-463: orderings that were induced through the removed task. */
  method Bridge(constraints: seq<(nat, nat)>, pertaining: seq<(nat, nat)>, s: nat) returns (r: seq<(nat, nat)>)
    ensures forall a: nat, b: nat :: (a, b) in r <==> (a, b) in constraints || Bridged(pertaining, s, a, b)
  {
    r := constraints;
    for i := 0 to |pertaining|
      invariant forall a: nat, b: nat :: (a, b) in r <==> (a, b) in constraints || ((a, s) in pertaining[..i] && (s, b) in pertaining)
    {
      var x := pertaining[i];
      assert x == (x.0, x.1) && pertaining[..i + 1] == pertaining[..i] + [x];
      if x.1 != s { continue; }
      ghost var before := r;
      for j := 0 to |pertaining|
        invariant forall a: nat, b: nat :: (a, b) in r <==> (a, b) in before || (a == x.0 && (s, b) in pertaining[..j])
      {
        var y := pertaining[j];
        assert y == (y.0, y.1) && pertaining[..j + 1] == pertaining[..j] + [y];
        if y.0 != s { continue; }
        r := r + [(x.0, y.1)];
      }
      assert pertaining[..|pertaining|] == pertaining;
    }
    assert pertaining[..|pertaining|] == pertaining;
  }

  lemma UpDown(s: nat, c: nat, x: nat)
    requires c != s
    ensures x == Down(s, c) <==> Up(s, x) == c
  {
  }

  ghost predicate Renumbered(constraints: seq<(nat, nat)>, s: nat, r: seq<(nat, nat)>) {
    forall x: nat, y: nat :: (x, y) in r <==> (Up(s, x), Up(s, y)) in constraints
  }

  /** Lines 464-469: the later positions move down. */
  method Renumber(constraints: seq<(nat, nat)>, s: nat) returns (r: seq<(nat, nat)>)
    requires forall a: nat, b: nat :: (a, b) in constraints ==> a != s && b != s
    ensures Renumbered(constraints, s, r)
  {
    r := [];
    RenumberNone(constraints, s);
    hide Renumbered;
    var i: nat := 0;
    while i < |constraints|
      invariant i <= |constraints| && Renumbered(constraints[..i], s, r)
    {
      var a, b := constraints[i].0, constraints[i].1;
      assert constraints[i] == (a, b) && (a, b) in constraints;
      RenumberStep(constraints, s, r, i);
      r := r + [(if a > s then a - 1 else a, if b > s then b - 1 else b)];
      i := i + 1;
    }
    assert constraints[..i] == constraints;
  }

  lemma RenumberNone(constraints: seq<(nat, nat)>, s: nat)
    ensures Renumbered(constraints[..0], s, [])
  {
  }

  lemma RenumberStep(constraints: seq<(nat, nat)>, s: nat, r: seq<(nat, nat)>, i: nat)
    requires i < |constraints| && constraints[i].0 != s && constraints[i].1 != s && Renumbered(constraints[..i], s, r)
    ensures Renumbered(constraints[..i + 1], s, r + [(Down(s, constraints[i].0), Down(s, constraints[i].1))])
  {
    var a, b := constraints[i].0, constraints[i].1;
    assert constraints[i] == (a, b) && constraints[..i + 1] == constraints[..i] + [(a, b)];
    hide Up, Down;
    forall x: nat, y: nat ensures (x, y) in r + [(Down(s, a), Down(s, b))] <==> (Up(s, x), Up(s, y)) in constraints[..i + 1] {
      UpDown(s, a, x);
      UpDown(s, b, y);
    }
  }

  /** Lines 533-536. */
  method IdText(ids: seq<int>) returns (text: string)
    ensures text == Join(Texts(ids), ',')
  {
    text := "";
    var i: nat := 0;
    while i < |ids|
      invariant i <= |ids| && text == Join(Texts(ids)[..i], ',')
    {
      var words := Texts(ids);
      assert words[..i + 1] == words[..i] + [Text(ids[i])];
      if i > 0 {
        JoinSnoc(words[..i], ',', words[i]);
        text := text + [','];
      } else {
        assert words[..1] == [words[0]] && text + Text(ids[0]) == Text(ids[0]);
      }
      text := text + Text(ids[i]);
      i := i + 1;
    }
    assert Texts(ids)[..|ids|] == Texts(ids);
  }

  method InlinedName(main: string, taskName: string, inner: string, position: nat, ids: seq<int>) returns (name: string)
    ensures name == InlineName(main, taskName, inner, position, ids)
  {
    var text := IdText(ids);
    name := "<" + (main + ";" + taskName + ";" + inner + ";" + Text(position) + ";" + text) + ">";
  }

  /** What one inlining does to a method. */
  ghost predicate InlinedAt(old_: MethodValue, s: nat, inner: MethodValue, taskName: string, position: nat, new_: MethodValue) {
    && MethodOk(old_) && MethodOk(inner) && MethodOk(new_) && Substituted(old_, s, inner, new_)
    && position < |old_.preconditionOrdering| && old_.preconditionOrdering[position] == s
    && Word(new_) == Splice(Word(old_), position, Word(inner))
    && new_.name == InlineName(old_.name, taskName, inner.name, position, IdMap(|old_.subtasks|, position, |inner.subtasks|))
  }

  lemma FullInlined(old_: MethodValue, s: nat, inner: MethodValue, taskName: string, position: nat, new_: MethodValue)
    requires MethodOk(old_) && MethodOk(inner) && s < |old_.subtasks| && |inner.subtasks| > 0
    requires position < |old_.preconditionOrdering| && old_.preconditionOrdering[position] == s
    requires new_.subtasks == old_.subtasks[s := inner.subtasks[0]] + inner.subtasks[1..]
    requires FullEdges(ConstraintEdges(old_.orderingConstraints), ConstraintEdges(inner.orderingConstraints), s, |old_.subtasks|, |inner.subtasks|, ConstraintEdges(new_.orderingConstraints))
    requires new_.preconditionOrdering == Splice(old_.preconditionOrdering, position, Lift(inner.preconditionOrdering, s, |old_.subtasks|))
    requires new_.name == InlineName(old_.name, taskName, inner.name, position, IdMap(|old_.subtasks|, position, |inner.subtasks|))
    ensures InlinedAt(old_, s, inner, taskName, position, new_)
  {
    var e, f, g, n, k := ConstraintEdges(old_.orderingConstraints), ConstraintEdges(inner.orderingConstraints), ConstraintEdges(new_.orderingConstraints), |old_.subtasks|, |inner.subtasks|;
    LinearAcyclic(old_.preconditionOrdering, e, n);
    FullOrder(old_.preconditionOrdering, e, n, s, position, inner.preconditionOrdering, f, k, g);
    FullWithin(e, f, s, n, k, g);
    assert MethodOk(new_);
    FullWord(old_, s, inner, position, new_);
    hide LinearExtension, Within, Acyclic, FullEdges, InlineName, IdMap, Word, MethodOk, ConstraintEdges, Splice, Lift;
    forall x: nat, y: nat | x < n - 1 + k && y < n - 1 + k ensures Plus(g, x, y) <==> Related(e, f, s, n, x, y) {
      WithinOf(old_);
      WithinOf(inner);
      Substitution(e, f, s, n, k, g, x, y);
    }
  }

  lemma OrderOk(m: MethodValue)
    requires MethodOk(m)
    ensures Permutation(m.preconditionOrdering, |m.subtasks|) && |m.preconditionOrdering| == |m.subtasks|
  {
  }

  lemma WithinOf(m: MethodValue)
    requires MethodOk(m)
    ensures Within(ConstraintEdges(m.orderingConstraints), |m.subtasks|)
  {
  }

  lemma FullWithin(e: Rel, f: Rel, s: nat, n: nat, k: nat, g: Rel)
    requires FullEdges(e, f, s, n, k, g) && s < n
    ensures Within(g, n - 1 + k)
  {
  }

  lemma FullWord(old_: MethodValue, s: nat, inner: MethodValue, position: nat, new_: MethodValue)
    requires MethodOk(old_) && MethodOk(inner) && MethodOk(new_) && s < |old_.subtasks| && |inner.subtasks| > 0
    requires position < |old_.preconditionOrdering| && old_.preconditionOrdering[position] == s
    requires new_.subtasks == old_.subtasks[s := inner.subtasks[0]] + inner.subtasks[1..]
    requires new_.preconditionOrdering == Splice(old_.preconditionOrdering, position, Lift(inner.preconditionOrdering, s, |old_.subtasks|))
    ensures Word(new_) == Splice(Word(old_), position, Word(inner))
  {
    hide LinearExtension, Within, Forward;
    OrderOk(old_);
    OrderOk(inner);
    var n, k, order := |old_.subtasks|, |inner.subtasks|, old_.preconditionOrdering;
    var w, v := Word(new_), Splice(Word(old_), position, Word(inner));
    forall i | 0 <= i < |w| ensures w[i] == v[i] {
      OneOrigin(order, n, s, position, inner.preconditionOrdering, k, i);
    }
  }

  lemma EmptyInlined(old_: MethodValue, s: nat, inner: MethodValue, taskName: string, position: nat, new_: MethodValue)
    requires MethodOk(old_) && MethodOk(inner) && s < |old_.subtasks| && |inner.subtasks| == 0
    requires position < |old_.preconditionOrdering| && old_.preconditionOrdering[position] == s
    requires new_.subtasks == old_.subtasks[..s] + old_.subtasks[s + 1..]
    requires EmptyEdges(ConstraintEdges(old_.orderingConstraints), s, |old_.subtasks|, ConstraintEdges(new_.orderingConstraints))
    requires new_.preconditionOrdering == Lower(Splice(old_.preconditionOrdering, position, []), s)
    requires new_.name == InlineName(old_.name, taskName, inner.name, position, IdMap(|old_.subtasks|, position, 0))
    ensures InlinedAt(old_, s, inner, taskName, position, new_)
  {
    hide LinearExtension, Acyclic, EmptyEdges, InlineName, IdMap, Word, MethodOk, ConstraintEdges, Splice, Lower, Within;
    var e, g, n := ConstraintEdges(old_.orderingConstraints), ConstraintEdges(new_.orderingConstraints), |old_.subtasks|;
    EmptyOk(old_, s, position, new_);
    EmptyWord(old_, s, inner, position, new_);
    forall x: nat, y: nat | x < n - 1 && y < n - 1 ensures Plus(g, x, y) <==> Plus(e, Up(s, x), Up(s, y)) {
      WithinOf(old_);
      Restriction(e, s, n, g, x, y);
    }
  }

  lemma EmptyOk(old_: MethodValue, s: nat, position: nat, new_: MethodValue)
    requires MethodOk(old_) && s < |old_.subtasks| && position < |old_.preconditionOrdering| && old_.preconditionOrdering[position] == s
    requires |new_.subtasks| == |old_.subtasks| - 1
    requires EmptyEdges(ConstraintEdges(old_.orderingConstraints), s, |old_.subtasks|, ConstraintEdges(new_.orderingConstraints))
    requires new_.preconditionOrdering == Lower(Splice(old_.preconditionOrdering, position, []), s)
    ensures MethodOk(new_) && Acyclic(ConstraintEdges(old_.orderingConstraints))
  {
    var e, g, n := ConstraintEdges(old_.orderingConstraints), ConstraintEdges(new_.orderingConstraints), |old_.subtasks|;
    LinearAcyclic(old_.preconditionOrdering, e, n);
    EmptyOrder(old_.preconditionOrdering, e, n, s, position, g);
    assert Within(g, n - 1) by { hide LinearExtension, Acyclic, Splice, Lower; }
  }

  lemma EmptyWord(old_: MethodValue, s: nat, inner: MethodValue, position: nat, new_: MethodValue)
    requires MethodOk(old_) && MethodOk(inner) && MethodOk(new_) && s < |old_.subtasks| && |inner.subtasks| == 0
    requires position < |old_.preconditionOrdering| && old_.preconditionOrdering[position] == s
    requires new_.subtasks == old_.subtasks[..s] + old_.subtasks[s + 1..]
    requires new_.preconditionOrdering == Lower(Splice(old_.preconditionOrdering, position, []), s)
    ensures Word(new_) == Splice(Word(old_), position, Word(inner))
  {
    var order := old_.preconditionOrdering;
    var w, v := Word(new_), Splice(Word(old_), position, Word(inner));
    forall i | 0 <= i < |w| ensures w[i] == v[i] {
      var x := order[Source(position, 0, i)];
      assert x != s && Up(s, Down(s, x)) == x;
    }
  }

  lemma NoOccurrence(m: MethodValue, task: nat, inner: seq<nat>)
    requires MethodOk(m) && task !in m.subtasks
    ensures Replace(Word(m), task, inner) == Word(m)
  {
    ReplaceNothing(Word(m), task, inner);
  }

  lemma StillGoal(old_: MethodValue, s: nat, inner: MethodValue, taskName: string, position: nat, new_: MethodValue, task: nat)
    requires InlinedAt(old_, s, inner, taskName, position, new_) && s < |old_.subtasks| && old_.subtasks[s] == task && task !in inner.subtasks
    ensures MethodOk(old_) && MethodOk(inner) && MethodOk(new_)
    ensures Replace(Word(new_), task, Word(inner)) == Replace(Word(old_), task, Word(inner))
  {
    hide Replace, Substituted, InlineName, IdMap;
    ReplaceOne(Word(old_), position, task, Word(inner));
  }

  lemma FewerOccurrences(subtasks: seq<nat>, inner: seq<nat>, s: nat, task: nat)
    requires s < |subtasks| && subtasks[s] == task && task !in inner
    ensures |inner| > 0 ==> multiset(subtasks[s := inner[0]] + inner[1..])[task] == multiset(subtasks)[task] - 1
    ensures multiset(subtasks[..s] + subtasks[s + 1..])[task] == multiset(subtasks)[task] - 1
  {
    assert subtasks == subtasks[..s] + [task] + subtasks[s + 1..];
    if |inner| > 0 {
      assert subtasks[s := inner[0]] == subtasks[..s] + [inner[0]] + subtasks[s + 1..];
      assert task !in multiset(inner[1..]);
    }
  }

  // ----- all occurrences -----

  /** The first occurrence of the task is inlined. */
  ghost predicate FirstInlined(task: nat, inner: MethodValue, taskName: string, a: MethodValue, b: MethodValue) {
    exists s: nat, position: nat {:trigger InlinedAt(a, s, inner, taskName, position, b)} ::
      s < |a.subtasks| && a.subtasks[s] == task && task !in a.subtasks[..s] && InlinedAt(a, s, inner, taskName, position, b)
  }

  ghost predicate InliningRun(task: nat, inner: MethodValue, taskName: string, ms: seq<MethodValue>) {
    |ms| > 0 && forall i :: 0 <= i < |ms| - 1 ==> FirstInlined(task, inner, taskName, ms[i], ms[i + 1])
  }

  /** b comes from a by inlining first occurrences one after the other. */
  ghost predicate RunTo(task: nat, inner: MethodValue, taskName: string, a: MethodValue, b: MethodValue) {
    exists ms :: InliningRun(task, inner, taskName, ms) && ms[0] == a && ms[|ms| - 1] == b
  }

  lemma RunSelf(task: nat, inner: MethodValue, taskName: string, a: MethodValue)
    ensures RunTo(task, inner, taskName, a, a)
  {
    var ms := [a];
    assert InliningRun(task, inner, taskName, ms) && ms[0] == a && ms[|ms| - 1] == a;
  }

  lemma RunStep(task: nat, inner: MethodValue, taskName: string, a: MethodValue, b: MethodValue, c: MethodValue)
    requires RunTo(task, inner, taskName, a, b) && FirstInlined(task, inner, taskName, b, c)
    ensures RunTo(task, inner, taskName, a, c)
  {
    hide FirstInlined;
    var ms :| InliningRun(task, inner, taskName, ms) && ms[0] == a && ms[|ms| - 1] == b;
    var more := ms + [c];
    assert InliningRun(task, inner, taskName, more) && more[0] == a && more[|more| - 1] == c;
  }

  /** Where a subtask of the new method comes from: it was there, or it is one of those inlined for a position. */
  datatype Place = Kept(position: nat) | Inlined(position: nat, index: nat)

  ghost predicate PlaceOk(old_: MethodValue, task: nat, inner: MethodValue, t: nat, place: Place) {
    place.position < |old_.subtasks| &&
    match place
    case Kept(p) => t == old_.subtasks[p]
    case Inlined(p, i) => old_.subtasks[p] == task && i < |inner.subtasks| && t == inner.subtasks[i]
  }

  /** Either the subtask at p is still there or everything inlined for it is. */
  ghost predicate Present(old_: MethodValue, task: nat, inner: MethodValue, places: seq<Place>, p: nat)
    requires p < |old_.subtasks|
  {
    Kept(p) in places || (old_.subtasks[p] == task && forall i: nat :: i < |inner.subtasks| ==> Inlined(p, i) in places)
  }

  /** Nothing is lost, nothing doubled, and no subtask is there together with what was inlined for it. */
  ghost predicate Placed(old_: MethodValue, task: nat, inner: MethodValue, m: MethodValue, places: seq<Place>) {
    && |places| == |m.subtasks|
    && (forall x :: 0 <= x < |places| ==> PlaceOk(old_, task, inner, m.subtasks[x], places[x]))
    && (forall x, y :: 0 <= x < y < |places| ==> places[x] != places[y])
    && (forall x, y :: 0 <= x < |places| && 0 <= y < |places| && places[x].Kept? && places[y].Inlined? ==> places[x].position != places[y].position)
    && (forall p: nat :: p < |old_.subtasks| ==> Present(old_, task, inner, places, p))
  }

  /** Inlined for the same position: as in the inlined method; otherwise as the positions were before. */
  ghost predicate PlaceRelated(e: Rel, f: Rel, a: Place, b: Place) {
    if a.Inlined? && b.Inlined? && a.position == b.position then Plus(f, a.index, b.index) else Plus(e, a.position, b.position)
  }

  ghost predicate OrderedAs(old_: MethodValue, inner: MethodValue, m: MethodValue, places: seq<Place>) {
    var e, f, g := ConstraintEdges(old_.orderingConstraints), ConstraintEdges(inner.orderingConstraints), ConstraintEdges(m.orderingConstraints);
    |places| == |m.subtasks| &&
    forall x: nat, y: nat :: x < |places| && y < |places| ==> (Plus(g, x, y) <==> PlaceRelated(e, f, places[x], places[y]))
  }

  lemma PlacedSelf(m: MethodValue, task: nat, inner: MethodValue) returns (places: seq<Place>)
    ensures Placed(m, task, inner, m, places) && OrderedAs(m, inner, m, places)
  {
    places := seq(|m.subtasks|, x requires 0 <= x < |m.subtasks| => Kept(x));
    forall p: nat | p < |m.subtasks| ensures Present(m, task, inner, places, p) { assert places[p] == Kept(p); }
  }

  /** A place that holds the task has not been inlined. */
  lemma StillKept(old_: MethodValue, task: nat, inner: MethodValue, m: MethodValue, places: seq<Place>, s: nat)
    requires Placed(old_, task, inner, m, places) && s < |places| && m.subtasks[s] == task && task !in inner.subtasks
    ensures places[s].Kept? && old_.subtasks[places[s].position] == task
  {
    assert PlaceOk(old_, task, inner, m.subtasks[s], places[s]);
  }

  ghost function NewPlaces(places: seq<Place>, s: nat, k: nat): (r: seq<Place>)
    requires s < |places|
    ensures |r| == |places| - 1 + k
    ensures k > 0 ==> forall x :: 0 <= x < |r| ==> r[x] == if IsInner(s, |places|, x) then Inlined(places[s].position, InnerIndex(s, |places|, x)) else places[x]
    ensures k == 0 ==> forall x :: 0 <= x < |r| ==> r[x] == places[Up(s, x)]
  {
    seq(|places| - 1 + k, x requires 0 <= x < |places| - 1 + k =>
      if k == 0 then places[Up(s, x)] else if IsInner(s, |places|, x) then Inlined(places[s].position, InnerIndex(s, |places|, x)) else places[x])
  }

  lemma StepPlaced(old_: MethodValue, task: nat, inner: MethodValue, a: MethodValue, places: seq<Place>, s: nat, b: MethodValue)
    requires Placed(old_, task, inner, a, places) && s < |a.subtasks| && a.subtasks[s] == task && task !in inner.subtasks && Substituted(a, s, inner, b)
    ensures Placed(old_, task, inner, b, NewPlaces(places, s, |inner.subtasks|))
  {
    hide Plus, ConstraintEdges, Related;
    var n, k, r := |places|, |inner.subtasks|, NewPlaces(places, s, |inner.subtasks|);
    StillKept(old_, task, inner, a, places, s);
    forall x | 0 <= x < |r| ensures PlaceOk(old_, task, inner, b.subtasks[x], r[x]) {
      StepPlaceOk(old_, task, inner, a, places, s, b, x);
    }
    forall p: nat | p < |old_.subtasks| ensures Present(old_, task, inner, r, p) {
      StepPresent(old_, task, inner, a, places, s, p);
    }
  }

  lemma StepPlaceOk(old_: MethodValue, task: nat, inner: MethodValue, a: MethodValue, places: seq<Place>, s: nat, b: MethodValue, x: nat)
    requires Placed(old_, task, inner, a, places) && s < |a.subtasks| && a.subtasks[s] == task && task !in inner.subtasks && Substituted(a, s, inner, b)
    requires x < |b.subtasks| && |b.subtasks| == |places| - 1 + |inner.subtasks|
    ensures PlaceOk(old_, task, inner, b.subtasks[x], NewPlaces(places, s, |inner.subtasks|)[x])
  {
    hide Plus, ConstraintEdges, Related;
    StillKept(old_, task, inner, a, places, s);
    if |inner.subtasks| == 0 {
      assert PlaceOk(old_, task, inner, a.subtasks[Up(s, x)], places[Up(s, x)]);
    } else if !IsInner(s, |places|, x) {
      assert PlaceOk(old_, task, inner, a.subtasks[x], places[x]);
    }
  }

  lemma StepPresent(old_: MethodValue, task: nat, inner: MethodValue, a: MethodValue, places: seq<Place>, s: nat, p: nat)
    requires Placed(old_, task, inner, a, places) && s < |a.subtasks| && a.subtasks[s] == task && task !in inner.subtasks && p < |old_.subtasks|
    ensures Present(old_, task, inner, NewPlaces(places, s, |inner.subtasks|), p)
  {
    var n, k, r := |places|, |inner.subtasks|, NewPlaces(places, s, |inner.subtasks|);
    StillKept(old_, task, inner, a, places, s);
    assert Present(old_, task, inner, places, p);
    forall q: Place | q in places && q != places[s] ensures q in r {
      var x :| 0 <= x < n && places[x] == q;
      assert r[if k == 0 then Down(s, x) else x] == q;
    }
    if places[s] == Kept(p) {
      forall i: nat | i < k ensures Inlined(p, i) in r { assert r[PlaceOf(s, n, i)] == Inlined(p, i); }
    }
  }

  lemma StepOrdered(old_: MethodValue, task: nat, inner: MethodValue, a: MethodValue, places: seq<Place>, s: nat, b: MethodValue)
    requires Placed(old_, task, inner, a, places) && OrderedAs(old_, inner, a, places)
    requires s < |a.subtasks| && a.subtasks[s] == task && task !in inner.subtasks && Substituted(a, s, inner, b)
    ensures OrderedAs(old_, inner, b, NewPlaces(places, s, |inner.subtasks|))
  {
    hide Plus, ConstraintEdges;
    var e, f := ConstraintEdges(old_.orderingConstraints), ConstraintEdges(inner.orderingConstraints);
    var n, k, r := |places|, |inner.subtasks|, NewPlaces(places, s, |inner.subtasks|);
    StillKept(old_, task, inner, a, places, s);
    forall x: nat, y: nat | x < |r| && y < |r| ensures Plus(ConstraintEdges(b.orderingConstraints), x, y) <==> PlaceRelated(e, f, r[x], r[y]) {
      if k > 0 {
        assert Plus(ConstraintEdges(b.orderingConstraints), x, y) <==> Related(ConstraintEdges(a.orderingConstraints), f, s, n, x, y);
        if !(IsInner(s, n, x) && IsInner(s, n, y)) {
          NotBoth(places, s, k, x, y);
        }
      }
    }
  }

  lemma NotBoth(places: seq<Place>, s: nat, k: nat, x: nat, y: nat)
    requires s < |places| && k > 0 && x < |places| - 1 + k && y < |places| - 1 + k && !(IsInner(s, |places|, x) && IsInner(s, |places|, y))
    requires places[s].Kept? && forall x, y :: 0 <= x < |places| && 0 <= y < |places| && places[x].Kept? && places[y].Inlined? ==> places[x].position != places[y].position
    ensures forall e, f :: PlaceRelated(e, f, NewPlaces(places, s, k)[x], NewPlaces(places, s, k)[y]) <==>
      PlaceRelated(e, f, places[Origin(s, |places|, x)], places[Origin(s, |places|, y)])
  {
    hide Plus;
  }

  /** Over a whole run, every subtask keeps its relations to all others and inlined ones inherit those of the task they stand for. */
  lemma {:induction false} RunSubstitutes(task: nat, inner: MethodValue, taskName: string, ms: seq<MethodValue>) returns (places: seq<Place>)
    requires InliningRun(task, inner, taskName, ms) && task !in inner.subtasks
    ensures Placed(ms[0], task, inner, ms[|ms| - 1], places) && OrderedAs(ms[0], inner, ms[|ms| - 1], places)
    decreases |ms|
  {
    hide *;
    RunPrefix(task, inner, taskName, ms);
    var last := |ms| - 1;
    if last == 0 {
      places := PlacedSelf(ms[0], task, inner);
    } else {
      var before := RunSubstitutes(task, inner, taskName, ms[..last]);
      places := StepPlaces(ms[0], task, inner, taskName, ms[last - 1], before, ms[last]);
    }
  }

  lemma RunPrefix(task: nat, inner: MethodValue, taskName: string, ms: seq<MethodValue>)
    requires InliningRun(task, inner, taskName, ms)
    ensures |ms| > 0
    ensures |ms| > 1 ==> InliningRun(task, inner, taskName, ms[..|ms| - 1]) && FirstInlined(task, inner, taskName, ms[|ms| - 2], ms[|ms| - 1])
  {
    hide FirstInlined;
    if |ms| > 1 {
      assert FirstInlined(task, inner, taskName, ms[|ms| - 2], ms[|ms| - 2 + 1]);
    }
  }

  lemma StepPlaces(old_: MethodValue, task: nat, inner: MethodValue, taskName: string, a: MethodValue, before: seq<Place>, b: MethodValue) returns (places: seq<Place>)
    requires Placed(old_, task, inner, a, before) && OrderedAs(old_, inner, a, before) && FirstInlined(task, inner, taskName, a, b) && task !in inner.subtasks
    ensures Placed(old_, task, inner, b, places) && OrderedAs(old_, inner, b, places)
  {
    hide Placed, OrderedAs, Substituted, MethodOk, Word, InlineName, IdMap, Splice;
    var s: nat, position: nat :| s < |a.subtasks| && a.subtasks[s] == task && task !in a.subtasks[..s] && InlinedAt(a, s, inner, taskName, position, b);
    PlacedSize(old_, task, inner, a, before);
    StepPlaced(old_, task, inner, a, before, s, b);
    StepOrdered(old_, task, inner, a, before, s, b);
    places := NewPlaces(before, s, |inner.subtasks|);
  }

  lemma PlacedSize(old_: MethodValue, task: nat, inner: MethodValue, m: MethodValue, places: seq<Place>)
    requires Placed(old_, task, inner, m, places)
    ensures |places| == |m.subtasks|
  {
  }

  /** Every occurrence of the task has been replaced by all subtasks of the method, every other subtask is kept, and the
      closure of the orderings is that of the substitution. */
  ghost predicate AllInlined(old_: MethodValue, task: nat, inner: MethodValue, m: MethodValue, places: seq<Place>) {
    Placed(old_, task, inner, m, places) && OrderedAs(old_, inner, m, places) &&
    forall p: nat :: p < |old_.subtasks| ==> Exchanged(old_, task, inner, places, p)
  }

  ghost predicate Exchanged(old_: MethodValue, task: nat, inner: MethodValue, places: seq<Place>, p: nat)
    requires p < |old_.subtasks|
  {
    if old_.subtasks[p] == task then Kept(p) !in places && forall i: nat :: i < |inner.subtasks| ==> Inlined(p, i) in places else Kept(p) in places
  }

  lemma RunIsComplete(task: nat, inner: MethodValue, taskName: string, a: MethodValue, b: MethodValue) returns (places: seq<Place>)
    requires RunTo(task, inner, taskName, a, b) && task !in inner.subtasks && task !in b.subtasks
    ensures AllInlined(a, task, inner, b, places)
  {
    hide OrderedAs, Placed, FirstInlined, AllInlined;
    var ms :| InliningRun(task, inner, taskName, ms) && ms[0] == a && ms[|ms| - 1] == b;
    places := RunSubstitutes(task, inner, taskName, ms);
    NoneLeft(a, task, inner, b, places);
  }

  lemma NoneLeft(a: MethodValue, task: nat, inner: MethodValue, b: MethodValue, places: seq<Place>)
    requires Placed(a, task, inner, b, places) && OrderedAs(a, inner, b, places) && task !in b.subtasks
    ensures AllInlined(a, task, inner, b, places)
  {
    hide OrderedAs;
    forall p: nat | p < |a.subtasks| && a.subtasks[p] == task ensures Kept(p) !in places {
      forall x | 0 <= x < |places| ensures places[x] != Kept(p) {
        assert PlaceOk(a, task, inner, b.subtasks[x], places[x]) && b.subtasks[x] in b.subtasks;
      }
    }
    forall p: nat | p < |a.subtasks| ensures Exchanged(a, task, inner, places, p) {
      assert Present(a, task, inner, places, p);
      if a.subtasks[p] != task { assert Kept(p) in places; }
    }
  }

  class Method {
    var name: string
    var subtasks: seq<nat>
    var orderingConstraints: seq<(nat, nat)>
    var preconditionOrdering: seq<nat>

    constructor (m: MethodValue)
      ensures Value() == m
    {
      name, subtasks, orderingConstraints, preconditionOrdering := m.name, m.subtasks, m.orderingConstraints, m.preconditionOrdering;
    }

    function Value(): MethodValue
      reads this
    {
      MethodValue(name, subtasks, orderingConstraints, preconditionOrdering)
    }

    /** Lines 419-540: the subtask at position s is replaced by the subtasks of its only method. */
    method Inline(s: nat, inner: MethodValue, taskName: string) returns (ghost position: nat)
      requires MethodOk(Value()) && MethodOk(inner) && s < |subtasks|
      modifies this
      ensures InlinedAt(old(Value()), s, inner, taskName, position, Value())
      ensures |inner.subtasks| > 0 ==> subtasks == old(subtasks)[s := inner.subtasks[0]] + inner.subtasks[1..]
      ensures |inner.subtasks| == 0 ==> subtasks == old(subtasks)[..s] + old(subtasks)[s + 1..]
    {
      var pertaining, other := Pertaining(orderingConstraints, s);
      if |inner.subtasks| == 0 {
        position := InlineEmpty(s, inner, taskName, pertaining, other);
      } else {
        position := InlineFull(s, inner, taskName, pertaining);
      }
    }

    /** Lines 415-545: every occurrence of the task is inlined. */
    method InlineTask(task: nat, inner: MethodValue, taskName: string)
      requires MethodOk(Value()) && MethodOk(inner) && task !in inner.subtasks
      modifies this
      ensures MethodOk(Value()) && task !in subtasks
      ensures Word(Value()) == Replace(old(Word(Value())), task, Word(inner))
      ensures RunTo(task, inner, taskName, old(Value()), Value())
      ensures exists places :: AllInlined(old(Value()), task, inner, Value(), places)
    {
      hide InlinedAt, MethodOk, Word, Replace, RunTo, FirstInlined, AllInlined;
      ghost var goal, start := Replace(Word(Value()), task, Word(inner)), Value();
      RunSelf(task, inner, taskName, start);
      var found := true;
      while found
        invariant MethodOk(Value()) && Replace(Word(Value()), task, Word(inner)) == goal
        invariant RunTo(task, inner, taskName, start, Value())
        invariant !found ==> task !in subtasks
        decreases multiset(subtasks)[task], found
      {
        found := InlineOnce(task, inner, taskName, goal, start);
      }
      NoOccurrence(Value(), task, Word(inner));
      ghost var places := RunIsComplete(task, inner, taskName, start, Value());
    }

    method InlineOccurrence(s: nat, task: nat, inner: MethodValue, taskName: string, ghost goal: seq<nat>, ghost start: MethodValue)
      requires MethodOk(Value()) && MethodOk(inner) && task !in inner.subtasks && Replace(Word(Value()), task, Word(inner)) == goal
      requires s < |subtasks| && subtasks[s] == task && task !in subtasks[..s] && RunTo(task, inner, taskName, start, Value())
      modifies this
      ensures RunTo(task, inner, taskName, start, Value()) && (|inner.subtasks| > 0 ==> s < |subtasks| && task !in subtasks[..s + 1])
      ensures MethodOk(Value()) && Replace(Word(Value()), task, Word(inner)) == goal
      ensures multiset(subtasks)[task] < old(multiset(subtasks))[task]
    {
      hide InlinedAt, MethodOk, Word, Replace, RunTo;
      ghost var before := Value();
      ghost var position := Inline(s, inner, taskName);
      StillGoal(before, s, inner, taskName, position, Value(), task);
      FewerOccurrences(before.subtasks, inner.subtasks, s, task);
      assert FirstInlined(task, inner, taskName, before, Value());
      RunStep(task, inner, taskName, start, before, Value());
      if |inner.subtasks| > 0 { assert subtasks[..s + 1] == before.subtasks[..s] + [inner.subtasks[0]]; }
    }

    /** Lines 417-541: one pass; it starts again after an empty method has been inlined. */
    method InlineOnce(task: nat, inner: MethodValue, taskName: string, ghost goal: seq<nat>, ghost start: MethodValue) returns (found: bool)
      requires MethodOk(Value()) && MethodOk(inner) && task !in inner.subtasks && Replace(Word(Value()), task, Word(inner)) == goal
      requires RunTo(task, inner, taskName, start, Value())
      modifies this
      ensures RunTo(task, inner, taskName, start, Value())
      ensures MethodOk(Value()) && Replace(Word(Value()), task, Word(inner)) == goal
      ensures if found then multiset(subtasks)[task] < old(multiset(subtasks))[task] else task !in subtasks && subtasks == old(subtasks)
    {
      hide InlinedAt, MethodOk, Word, Replace, RunTo;
      found := false;
      var subTaskIdx: nat := 0;
      while subTaskIdx < |subtasks|
        invariant MethodOk(Value()) && Replace(Word(Value()), task, Word(inner)) == goal
        invariant subTaskIdx <= |subtasks| && (!found ==> subtasks == old(subtasks)) && task !in subtasks[..subTaskIdx]
        invariant RunTo(task, inner, taskName, start, Value())
        invariant found ==> multiset(subtasks)[task] < old(multiset(subtasks))[task]
        decreases multiset(subtasks)[task], |subtasks| - subTaskIdx
      {
        assert subtasks[..subTaskIdx + 1] == subtasks[..subTaskIdx] + [subtasks[subTaskIdx]];
        if subtasks[subTaskIdx] == task {
          found := true;
          InlineOccurrence(subTaskIdx, task, inner, taskName, goal, start);
          if |inner.subtasks| == 0 { break; }
        }
        subTaskIdx := subTaskIdx + 1;
      }
    }

    method InlineEmpty(s: nat, inner: MethodValue, taskName: string, pertaining: seq<(nat, nat)>, other: seq<(nat, nat)>) returns (ghost position: nat)
      requires MethodOk(Value()) && MethodOk(inner) && s < |subtasks| && |inner.subtasks| == 0
      requires forall a: nat, b: nat :: (a, b) in pertaining <==> (a, b) in orderingConstraints && (a == s || b == s)
      requires forall a: nat, b: nat :: (a, b) in other <==> (a, b) in orderingConstraints && a != s && b != s
      modifies this
      ensures InlinedAt(old(Value()), s, inner, taskName, position, Value())
      ensures subtasks == old(subtasks)[..s] + old(subtasks)[s + 1..]
    {
      hide InlinedAt, IdMap, InlineName, Splice, Lower, MethodOk, Permutation, Renumbered, EmptyEdges, Bridged, ConstraintEdges;
      ghost var before := Value();
      var n := |subtasks|;
      OrderOk(before);
      var newOrder, idmapping, at := DropFromOrdering(preconditionOrdering, s, n);
      position := at;
      var bridged := Bridge(other, pertaining, s);
      NoneAt(before, s, pertaining, other, bridged);
      var renumbered := Renumber(bridged, s);
      EmptyFromParts(before, s, pertaining, other, bridged, renumbered);
      subtasks := subtasks[..s] + subtasks[s + 1..];
      preconditionOrdering, orderingConstraints := newOrder, renumbered;
      name := InlinedName(name, taskName, inner.name, at, idmapping);
      EmptyInlined(before, s, inner, taskName, position, Value());
    }

    method InlineFull(s: nat, inner: MethodValue, taskName: string, pertaining: seq<(nat, nat)>) returns (ghost position: nat)
      requires MethodOk(Value()) && MethodOk(inner) && s < |subtasks| && |inner.subtasks| > 0
      requires forall a: nat, b: nat :: (a, b) in pertaining <==> (a, b) in orderingConstraints && (a == s || b == s)
      modifies this
      ensures InlinedAt(old(Value()), s, inner, taskName, position, Value())
      ensures subtasks == old(subtasks)[s := inner.subtasks[0]] + inner.subtasks[1..]
    {
      hide InlinedAt, IdMap, InlineName, Splice, Lift, FullEdges, MethodOk, Permutation, ConstraintEdges;
      ghost var before := Value();
      var n := |subtasks|;
      OrderOk(before);
      OrderOk(inner);
      var copied := CopyAll(orderingConstraints, pertaining, s, n, |inner.subtasks|);
      var newOrdering, idmapping, at := SpliceOrdering(preconditionOrdering, s, inner.preconditionOrdering, n);
      position := at;
      NoZeroLoop(inner);
      var lifted := LiftAll(copied, inner.orderingConstraints, s, n);
      FullParts(before, inner, s, pertaining, lifted);
      subtasks := subtasks[s := inner.subtasks[0]] + inner.subtasks[1..];
      preconditionOrdering, orderingConstraints := newOrdering, lifted;
      name := InlinedName(name, taskName, inner.name, at, idmapping);
      FullInlined(before, s, inner, taskName, position, Value());
    }
  }

  lemma NoZeroLoop(m: MethodValue)
    requires MethodOk(m)
    ensures forall i :: 0 <= i < |m.orderingConstraints| ==> m.orderingConstraints[i].0 != 0 || m.orderingConstraints[i].1 != 0
  {
    var e := ConstraintEdges(m.orderingConstraints);
    LinearAcyclic(m.preconditionOrdering, e, |m.subtasks|);
    NoLoop(e, 0);
    forall i | 0 <= i < |m.orderingConstraints| ensures m.orderingConstraints[i].0 != 0 || m.orderingConstraints[i].1 != 0 {
      var c := m.orderingConstraints[i];
      assert c in m.orderingConstraints && c == (c.0, c.1);
    }
  }

  lemma FullParts(m: MethodValue, inner: MethodValue, s: nat, pertaining: seq<(nat, nat)>, r: seq<(nat, nat)>)
    requires MethodOk(m) && MethodOk(inner) && s < |m.subtasks| && |inner.subtasks| > 0
    requires forall a: nat, b: nat :: (a, b) in pertaining <==> (a, b) in m.orderingConstraints && (a == s || b == s)
    requires forall a: nat, b: nat :: (a, b) in r <==> (a, b) in m.orderingConstraints || Copied(pertaining, s, |m.subtasks|, |m.subtasks| - 1 + |inner.subtasks|, a, b) || Lifted(inner.orderingConstraints, s, |m.subtasks|, a, b)
    ensures FullEdges(ConstraintEdges(m.orderingConstraints), ConstraintEdges(inner.orderingConstraints), s, |m.subtasks|, |inner.subtasks|, ConstraintEdges(r))
  {
    var e, f := ConstraintEdges(m.orderingConstraints), ConstraintEdges(inner.orderingConstraints);
    LinearAcyclic(m.preconditionOrdering, e, |m.subtasks|);
    FullFromParts(e, m.orderingConstraints, f, inner.orderingConstraints, pertaining, s, |m.subtasks|, |inner.subtasks|, r);
  }

  lemma NoneAt(m: MethodValue, s: nat, pertaining: seq<(nat, nat)>, other: seq<(nat, nat)>, bridged: seq<(nat, nat)>)
    requires MethodOk(m)
    requires forall a: nat, b: nat :: (a, b) in pertaining <==> (a, b) in m.orderingConstraints && (a == s || b == s)
    requires forall a: nat, b: nat :: (a, b) in other <==> (a, b) in m.orderingConstraints && a != s && b != s
    requires forall a: nat, b: nat :: (a, b) in bridged <==> (a, b) in other || Bridged(pertaining, s, a, b)
    ensures forall a: nat, b: nat :: (a, b) in bridged ==> a != s && b != s
  {
    var e := ConstraintEdges(m.orderingConstraints);
    LinearAcyclic(m.preconditionOrdering, e, |m.subtasks|);
    NoLoop(e, s);
  }

  lemma EmptyFromParts(m: MethodValue, s: nat, pertaining: seq<(nat, nat)>, other: seq<(nat, nat)>, bridged: seq<(nat, nat)>, r: seq<(nat, nat)>)
    requires MethodOk(m) && s < |m.subtasks| && Renumbered(bridged, s, r)
    requires forall a: nat, b: nat :: (a, b) in pertaining <==> (a, b) in m.orderingConstraints && (a == s || b == s)
    requires forall a: nat, b: nat :: (a, b) in other <==> (a, b) in m.orderingConstraints && a != s && b != s
    requires forall a: nat, b: nat :: (a, b) in bridged <==> (a, b) in other || Bridged(pertaining, s, a, b)
    ensures EmptyEdges(ConstraintEdges(m.orderingConstraints), s, |m.subtasks|, ConstraintEdges(r))
  {
    var e := ConstraintEdges(m.orderingConstraints);
    forall x: nat, y: nat ensures (x, y) in r <==> EmptyEdge(e, s, |m.subtasks|, x, y) {
      assert Up(s, x) != s && Up(s, y) != s;
      assert (x, y) in r <==> (Up(s, x), Up(s, y)) in bridged;
    }
  }
}
