/** Depth-first topological sorting of a method's subtasks (pandaPIgrounder: util.cpp:5-21, postprocessing.cpp:13-30). */
module TopologicalSort {
  import opened Relations

  const WHITE: nat := 0
  const GRAY: nat := 1
  const BLACK: nat := 2

  ghost function Edges(adj: seq<seq<nat>>): (e: Rel)
    ensures forall a: nat, b: nat :: (a, b) in e <==> a < |adj| && b in adj[a]
  {
    set a: nat, b: nat | a < |adj| && b in adj[a] :: (a, b)
  }

  /** The list holds every index below n once. */
  ghost predicate Permutation(order: seq<nat>, n: nat) {
    && |order| == n && (forall i :: 0 <= i < n ==> order[i] < n)
    && (forall i, j :: 0 <= i < j < n ==> order[i] != order[j])
  }

  /** Every edge goes forward in the list. */
  ghost predicate Forward(order: seq<nat>, e: Rel) {
    forall i, j :: 0 <= i < |order| && 0 <= j < |order| && (order[i], order[j]) in e ==> i < j
  }

  ghost predicate LinearExtension(order: seq<nat>, e: Rel, n: nat) {
    Permutation(order, n) && Forward(order, e)
  }

  /** The nodes placed so far, last first finished: each once, and after each node all its successors. */
  ghost predicate Placed(list: seq<nat>, adj: seq<seq<nat>>) {
    && (forall i :: 0 <= i < |list| ==> list[i] < |adj|)
    && (forall i, j :: 0 <= i < j < |list| ==> list[i] != list[j])
    && (forall i, b :: 0 <= i < |list| && list[i] < |adj| && b in adj[list[i]] ==> b in list[i + 1..])
  }

  lemma Prepend(list: seq<nat>, adj: seq<seq<nat>>, a: nat)
    requires Placed(list, adj) && a < |adj| && a !in list && forall b :: b in adj[a] ==> b in list
    ensures Placed([a] + list, adj)
  {
    var more := [a] + list;
    forall i, b | 0 <= i < |more| && more[i] < |adj| && b in adj[more[i]] ensures b in more[i + 1..] {
      if i == 0 {
        assert more[1..] == list;
      } else {
        assert more[i + 1..] == list[i..] && list[i - 1 + 1..] == list[i..];
      }
    }
  }

  lemma {:induction false} DistinctCount(list: seq<nat>, n: nat)
    requires (forall i :: 0 <= i < |list| ==> list[i] < n) && forall i, j :: 0 <= i < j < |list| ==> list[i] != list[j]
    ensures |Members(list)| == |list| && |list| <= n
    decreases |list|
  {
    if list != [] {
      var front := list[..|list| - 1];
      var last := list[|list| - 1];
      DistinctCount(front, n);
      assert list == front + [last];
      assert last !in Members(front) && Members(list) == Members(front) + {last};
    }
    Subset(Members(list), Upto(n));
  }

  ghost function Members(list: seq<nat>): (s: set<nat>)
    ensures forall x :: x in s <==> x in list
  {
    set x | x in list
  }

  lemma {:induction false} Subset(s: set<nat>, t: set<nat>)
    requires s <= t
    ensures |s| <= |t|
    decreases |s|
  {
    if s != {} {
      var x :| x in s;
      Subset(s - {x}, t - {x});
    }
  }

  lemma Fits(list: seq<nat>, adj: seq<seq<nat>>, a: nat)
    requires Placed(list, adj) && a < |adj| && a !in list
    ensures |list| < |adj|
  {
    var more := list + [a];
    forall i, j | 0 <= i < j < |more| ensures more[i] != more[j] { }
    DistinctCount(more, |adj|);
  }

  ghost predicate Kept(v0: seq<nat>, v1: seq<nat>) {
    |v0| == |v1| && forall x :: 0 <= x < |v0| && v0[x] != WHITE ==> v1[x] == v0[x]
  }

  /** Only a may have become gray. */
  ghost predicate NoGray(v0: seq<nat>, v1: seq<nat>, a: nat) {
    |v0| == |v1| && forall x :: 0 <= x < |v1| && v1[x] == GRAY ==> v0[x] == GRAY || x == a
  }

  /** When all nodes are placed the list is a linear extension. */
  lemma AllPlaced(list: seq<nat>, adj: seq<seq<nat>>)
    requires Placed(list, adj) && |list| == |adj|
    ensures LinearExtension(list, Edges(adj), |adj|)
  {
    forall i, j | 0 <= i < |list| && 0 <= j < |list| && (list[i], list[j]) in Edges(adj) ensures i < j {
      assert list[j] in adj[list[i]];
      var k :| 0 <= k < |list[i + 1..]| && list[i + 1..][k] == list[j];
      assert list[i + 1 + k] == list[j];
    }
  }

  lemma AllBlack(list: seq<nat>, adj: seq<seq<nat>>)
    requires Placed(list, adj) && forall a: nat :: a < |adj| ==> a in list
    ensures |list| == |adj|
  {
    DistinctCount(list, |adj|);
    assert Members(list) == Upto(|adj|);
  }

  class TopSort {
    const adj: seq<seq<nat>>
    var v: seq<nat>
    var od: seq<nat>
    var p: int

    constructor (adj: seq<seq<nat>>)
      requires forall a: nat, b :: a < |adj| && b in adj[a] ==> b < |adj|
      ensures this.adj == adj && Valid() && forall a :: 0 <= a < |adj| ==> v[a] == WHITE
    {
      this.adj := adj;
      v, od, p := seq(|adj|, _ => WHITE), seq(|adj|, _ => 0), |adj| - 1;
    }

    /** od is filled from its end. */
    ghost function List(): seq<nat>
      requires -1 <= p < |od|
      reads this
    {
      od[p + 1..]
    }

    ghost predicate Valid()
      reads this
    {
      && |v| == |od| == |adj| && -1 <= p < |adj| && (forall a: nat, b :: a < |adj| && b in adj[a] ==> b < |adj|)
      && Placed(List(), adj) && (forall a: nat :: a < |v| ==> v[a] <= BLACK && (v[a] == BLACK <==> a in List()))
    }

    ghost function Whites(): (s: set<nat>)
      reads this
      ensures forall a: nat :: a in s <==> a < |v| && v[a] == WHITE
    {
      set a: nat | a < |v| && v[a] == WHITE
    }

    /** The gray nodes are the ones being expanded: they lead to a. */
    ghost predicate GraysReach(a: nat)
      reads this
    {
      forall g: nat :: g < |v| && v[g] == GRAY ==> Plus(Edges(adj), g, a)
    }

    /** Lines 5-12; the assertion that no gray node is met again holds because the edges are acyclic. */
    method Dfs(a: nat)
      requires Valid() && a < |adj| && Acyclic(Edges(adj)) && GraysReach(a)
      modifies this`v, this`od, this`p
      ensures Valid() && v[a] == BLACK && Whites() <= old(Whites())
      ensures Kept(old(v), v) && NoGray(old(v), v, |v|)
      decreases Whites(), 0
    {
      hide Placed, Edges, Acyclic;
      NotGray(a);
      assert v[a] != GRAY;
      if v[a] != WHITE { return; }
      v := v[a := GRAY];
      assert Whites() < old(Whites()) by { assert a in old(Whites()) && a !in Whites(); }
      Children(a);
      Place(a);
    }

    lemma NotGray(a: nat)
      requires a < |v| && Acyclic(Edges(adj)) && GraysReach(a)
      ensures v[a] != GRAY
    {
    }

    method Children(a: nat)
      requires Valid() && a < |adj| && v[a] == GRAY && Acyclic(Edges(adj))
      requires forall g: nat :: g < |v| && v[g] == GRAY ==> g == a || Plus(Edges(adj), g, a)
      modifies this`v, this`od, this`p
      ensures Valid() && v[a] == GRAY && Whites() <= old(Whites()) && Kept(old(v), v) && NoGray(old(v), v, a)
      ensures forall j :: 0 <= j < |adj[a]| ==> adj[a][j] < |v| && v[adj[a][j]] == BLACK
      decreases Whites(), 1
    {
      hide Placed, Edges, Acyclic;
      var i: nat := 0;
      while i < |adj[a]|
        invariant i <= |adj[a]| && Valid() && v[a] == GRAY && Whites() <= old(Whites())
        invariant Kept(old(v), v) && NoGray(old(v), v, a)
        invariant forall j :: 0 <= j < i ==> adj[a][j] < |v| && v[adj[a][j]] == BLACK
      {
        assert adj[a][i] in adj[a];
        ReachChild(a, i);
        Dfs(adj[a][i]);
        i := i + 1;
      }
    }

    /** Lines 10-11. */
    method Place(a: nat)
      requires Valid() && a < |adj| && v[a] == GRAY && forall j :: 0 <= j < |adj[a]| ==> adj[a][j] < |v| && v[adj[a][j]] == BLACK
      modifies this`v, this`od, this`p
      ensures Valid() && v == old(v)[a := BLACK]
    {
      Fits(List(), adj, a);
      Prepend(List(), adj, a);
      ghost var list := List();
      v, od, p := v[a := BLACK], od[p := a], p - 1;
      assert List() == [a] + list;
    }

    lemma ReachChild(a: nat, i: nat)
      requires a < |adj| && i < |adj[a]| && |v| == |adj|
      requires forall g: nat :: g < |v| && v[g] == GRAY ==> g == a || Plus(Edges(adj), g, a)
      ensures GraysReach(adj[a][i])
    {
      var e, b := Edges(adj), adj[a][i];
      assert (a, b) in e;
      PlusStep(e, a, b);
      forall g: nat | g < |v| && v[g] == GRAY ensures Plus(e, g, b) {
        if g != a { PlusReach(e, g, a, b); }
      }
    }
  }

  /** Lines 14-21. */
  method Sort(adj: seq<seq<nat>>) returns (od: seq<nat>)
    requires (forall a: nat, b :: a < |adj| && b in adj[a] ==> b < |adj|) && Acyclic(Edges(adj))
    ensures LinearExtension(od, Edges(adj), |adj|)
  {
    var t := new TopSort(adj);
    for i := 0 to |adj|
      invariant t.Valid() && t.adj == adj && fresh(t)
      invariant forall x :: 0 <= x < i ==> t.v[x] == BLACK
      invariant forall x :: 0 <= x < |t.v| ==> t.v[x] != GRAY
    {
      if t.v[i] == WHITE { t.Dfs(i); }
    }
    AllBlack(t.List(), adj);
    assert t.List() == t.od;
    AllPlaced(t.od, adj);
    od := t.od;
  }

  /** postprocessing.cpp:13-30: the subtasks of a method, sorted along its ordering constraints. */
  method SortSubtasks(n: nat, orderingConstraints: seq<(nat, nat)>) returns (preconditionOrdering: seq<nat>)
    requires Within(ConstraintEdges(orderingConstraints), n) && Acyclic(ConstraintEdges(orderingConstraints))
    ensures LinearExtension(preconditionOrdering, ConstraintEdges(orderingConstraints), n)
  {
    var adj: seq<seq<nat>> := seq(n, _ => []);
    var k: nat := 0;
    while k < |orderingConstraints|
      invariant k <= |orderingConstraints| && |adj| == n
      invariant forall a: nat, b :: a < n ==> (b in adj[a] <==> (a, b) in orderingConstraints[..k])
    {
      var c := orderingConstraints[k];
      assert c in ConstraintEdges(orderingConstraints) && c == (c.0, c.1);
      assert orderingConstraints[..k + 1] == orderingConstraints[..k] + [c];
      adj := adj[c.0 := adj[c.0] + [c.1]];
      k := k + 1;
    }
    assert orderingConstraints[..k] == orderingConstraints;
    forall c | true ensures c in Edges(adj) <==> c in ConstraintEdges(orderingConstraints) { assert c == (c.0, c.1); }
    assert Edges(adj) == ConstraintEdges(orderingConstraints);
    preconditionOrdering := Sort(adj);
  }

  ghost function ConstraintEdges(constraints: seq<(nat, nat)>): (e: Rel)
    ensures forall a, b :: (a, b) in e <==> (a, b) in constraints
  {
    set c | c in constraints
  }
}
