/** Task orders as nested sequential and parallel blocks (pandaPIparser/src/orderingDecomposition.cpp). Identifiers are
    represented by their positions in ids. */
module OrderDecomposition {
  import opened Relations

  // ----- trees and the orders they induce -----

  datatype Tree = Leaf(id: nat) | Node(isParallel: bool, elements: seq<Tree>)

  ghost function Leaves(t: Tree): set<nat>
    decreases t
  {
    match t
    case Leaf(i) => {i}
    case Node(_, es) => LeavesAll(es)
  }

  ghost function LeavesAll(es: seq<Tree>): set<nat>
    decreases es
  {
    if es == [] then {} else Leaves(es[0]) + LeavesAll(es[1..])
  }

  /** x comes before y in the order t stands for. */
  ghost predicate Before(t: Tree, x: nat, y: nat)
    decreases t
  {
    t.Node? && BeforeAll(t.isParallel, t.elements, x, y)
  }

  ghost predicate BeforeAll(isParallel: bool, es: seq<Tree>, x: nat, y: nat)
    decreases es
  {
    es != [] && (Before(es[0], x, y) || BeforeAll(isParallel, es[1..], x, y)
                 || (!isParallel && x in Leaves(es[0]) && y in LeavesAll(es[1..])))
  }

  /** No leaf occurs twice. */
  ghost predicate Distinct(t: Tree)
    decreases t
  {
    t.Node? ==> DistinctAll(t.elements)
  }

  ghost predicate DistinctAll(es: seq<Tree>)
    decreases es
  {
    es != [] ==> Distinct(es[0]) && DistinctAll(es[1..]) && Leaves(es[0]) !! LeavesAll(es[1..])
  }

  /** t orders exactly the members of b, as c does. */
  ghost predicate Induces(t: Tree, c: Rel, b: set<nat>) {
    Distinct(t) && Leaves(t) == b && forall x: nat, y: nat :: Before(t, x, y) <==> (x, y) in c && x in b && y in b
  }

  /** c restricted to b is series-parallel: some tree induces it. */
  ghost predicate SeriesParallel(c: Rel, b: set<nat>) {
    exists t :: Induces(t, c, b)
  }

  /** The definitions one level down. */
  lemma Unfold(p: bool, es: seq<Tree>)
    ensures Leaves(Node(p, es)) == LeavesAll(es) && (Distinct(Node(p, es)) <==> DistinctAll(es))
    ensures forall x: nat, y: nat :: Before(Node(p, es), x, y) <==> BeforeAll(p, es, x, y)
    ensures es != [] ==> LeavesAll(es) == Leaves(es[0]) + LeavesAll(es[1..])
    ensures es != [] ==> (DistinctAll(es) <==> Distinct(es[0]) && DistinctAll(es[1..]) && Leaves(es[0]) !! LeavesAll(es[1..]))
  {
  }

  lemma {:induction false} BeforeLeaves(t: Tree, x: nat, y: nat)
    requires Before(t, x, y)
    ensures x in Leaves(t) && y in Leaves(t)
    decreases t
  {
    BeforeAllLeaves(t.isParallel, t.elements, x, y);
  }

  lemma {:induction false} BeforeAllLeaves(p: bool, es: seq<Tree>, x: nat, y: nat)
    requires BeforeAll(p, es, x, y)
    ensures x in LeavesAll(es) && y in LeavesAll(es)
    decreases es
  {
    if Before(es[0], x, y) {
      BeforeLeaves(es[0], x, y);
    } else if BeforeAll(p, es[1..], x, y) {
      BeforeAllLeaves(p, es[1..], x, y);
    }
  }

  /** With distinct leaves nothing comes before itself. */
  lemma {:induction false} Irreflexive(t: Tree, x: nat)
    requires Distinct(t)
    ensures !Before(t, x, x)
    decreases t
  {
    if t.Node? { IrreflexiveAll(t.isParallel, t.elements, x); }
  }

  lemma {:induction false} IrreflexiveAll(p: bool, es: seq<Tree>, x: nat)
    requires DistinctAll(es)
    ensures !BeforeAll(p, es, x, x)
    decreases es
  {
    if es != [] {
      Irreflexive(es[0], x);
      IrreflexiveAll(p, es[1..], x);
    }
  }

  // ----- restricting a tree -----

  ghost function Restrict(t: Tree, s: set<nat>): Tree
    decreases t
  {
    match t
    case Leaf(i) => if i in s then t else Node(true, [])
    case Node(p, es) => Node(p, RestrictAll(es, s))
  }

  ghost function RestrictAll(es: seq<Tree>, s: set<nat>): seq<Tree>
    decreases es
  {
    if es == [] then [] else [Restrict(es[0], s)] + RestrictAll(es[1..], s)
  }

  lemma {:induction false} RestrictInduces(t: Tree, s: set<nat>)
    ensures Leaves(Restrict(t, s)) == Leaves(t) * s
    ensures Distinct(t) ==> Distinct(Restrict(t, s))
    ensures forall x: nat, y: nat :: Before(Restrict(t, s), x, y) <==> Before(t, x, y) && x in s && y in s
    decreases t
  {
    if t.Node? { RestrictAllInduces(t.isParallel, t.elements, s); }
  }

  lemma {:induction false} RestrictAllInduces(p: bool, es: seq<Tree>, s: set<nat>)
    ensures LeavesAll(RestrictAll(es, s)) == LeavesAll(es) * s
    ensures DistinctAll(es) ==> DistinctAll(RestrictAll(es, s))
    ensures forall x: nat, y: nat :: BeforeAll(p, RestrictAll(es, s), x, y) <==> BeforeAll(p, es, x, y) && x in s && y in s
    decreases es
  {
    if es != [] {
      RestrictInduces(es[0], s);
      RestrictAllInduces(p, es[1..], s);
      var r := RestrictAll(es, s);
      assert r[0] == Restrict(es[0], s) && r[1..] == RestrictAll(es[1..], s);
    }
  }

  /** Parts of series-parallel orders are series-parallel. */
  lemma PartsSeriesParallel(c: Rel, b: set<nat>, s: set<nat>)
    requires SeriesParallel(c, b) && s <= b
    ensures SeriesParallel(c, s)
  {
    var t :| Induces(t, c, b);
    RestrictInduces(t, s);
    assert Leaves(t) * s == s;
    assert Induces(Restrict(t, s), c, s);
  }

  // ----- splits -----

  /** The members of s and the rest of b: not ordered at all, or s entirely first (lines 15-29). */
  ghost predicate Splits(c: Rel, b: set<nat>, s: set<nat>) {
    (forall x: nat, y: nat :: x in s && y in b - s ==> (x, y) !in c && (y, x) !in c)
    || (forall x: nat, y: nat :: x in s && y in b - s ==> (x, y) in c)
  }

  /** A series-parallel order on two or more elements has a split into two proper parts. */
  lemma {:induction false} SplitExists(t: Tree, c: Rel, b: set<nat>) returns (s: set<nat>)
    requires Induces(t, c, b) && |b| >= 2
    ensures s < b && s != {} && Splits(c, b, s)
    decreases t
  {
    if t.Leaf? {
      assert b == {t.id};
      s := {};
    } else {
      s := SplitAll(t.isParallel, t.elements, c, b);
    }
  }

  lemma {:induction false} SplitAll(p: bool, es: seq<Tree>, c: Rel, b: set<nat>) returns (s: set<nat>)
    requires Induces(Node(p, es), c, b) && |b| >= 2
    ensures s < b && s != {} && Splits(c, b, s)
    decreases es
  {
    Unfold(p, es);
    if es == [] {
      s := {};
    } else if Leaves(es[0]) == b {
      assert LeavesAll(es[1..]) == {};
      EmptyOrdersNothing(p, es[1..]);
      forall x: nat, y: nat ensures Before(es[0], x, y) <==> (x, y) in c && x in b && y in b {
        assert Before(Node(p, es), x, y) <==> BeforeAll(p, es, x, y);
        assert BeforeAll(p, es, x, y) <==> Before(es[0], x, y);
      }
      assert Induces(es[0], c, b);
      s := SplitExists(es[0], c, b);
    } else if Leaves(es[0]) == {} {
      NothingBefore(es[0]);
      Unfold(p, es[1..]);
      forall x: nat, y: nat ensures Before(Node(p, es[1..]), x, y) <==> (x, y) in c && x in b && y in b {
        assert Before(Node(p, es), x, y) <==> BeforeAll(p, es, x, y);
        assert BeforeAll(p, es, x, y) <==> BeforeAll(p, es[1..], x, y);
      }
      assert Induces(Node(p, es[1..]), c, b);
      s := SplitAll(p, es[1..], c, b);
    } else {
      s := Leaves(es[0]);
      FirstSplits(p, es, c, b);
    }
  }

  lemma NothingBefore(t: Tree)
    requires Leaves(t) == {}
    ensures forall x: nat, y: nat :: !Before(t, x, y)
  {
    forall x: nat, y: nat ensures !Before(t, x, y) {
      if Before(t, x, y) { BeforeLeaves(t, x, y); }
    }
  }

  lemma EmptyOrdersNothing(p: bool, es: seq<Tree>)
    requires LeavesAll(es) == {}
    ensures forall x: nat, y: nat :: !BeforeAll(p, es, x, y)
  {
    forall x: nat, y: nat ensures !BeforeAll(p, es, x, y) {
      if BeforeAll(p, es, x, y) { BeforeAllLeaves(p, es, x, y); }
    }
  }

  lemma FirstSplits(p: bool, es: seq<Tree>, c: Rel, b: set<nat>)
    requires es != [] && Induces(Node(p, es), c, b)
    ensures Splits(c, b, Leaves(es[0]))
  {
    var s := Leaves(es[0]);
    Unfold(p, es);
    assert b - s == LeavesAll(es[1..]);
    forall x: nat, y: nat | x in s && y in b - s ensures !Before(es[0], x, y) && !Before(es[0], y, x) && !BeforeAll(p, es[1..], x, y) && !BeforeAll(p, es[1..], y, x) {
      if Before(es[0], x, y) { BeforeLeaves(es[0], x, y); }
      if Before(es[0], y, x) { BeforeLeaves(es[0], y, x); }
      if BeforeAll(p, es[1..], x, y) { BeforeAllLeaves(p, es[1..], x, y); }
      if BeforeAll(p, es[1..], y, x) { BeforeAllLeaves(p, es[1..], y, x); }
    }
    var n := Node(p, es);
    forall x: nat, y: nat | x in s && y in b - s ensures ((x, y) in c <==> !p) && (y, x) !in c {
      assert Before(n, x, y) <==> (x, y) in c;
      assert Before(n, y, x) <==> (y, x) in c;
    }
  }

  /** Two trees side by side, or one after the other. */
  lemma Joined(p: bool, t1: Tree, t2: Tree, c: Rel, b1: set<nat>, b2: set<nat>)
    requires Induces(t1, c, b1) && Induces(t2, c, b2) && b1 !! b2
    requires forall x: nat, y: nat :: x in b1 && y in b2 ==> ((x, y) in c <==> !p) && (y, x) !in c
    ensures Induces(Node(p, [t1, t2]), c, b1 + b2)
  {
    var es := [t1, t2];
    assert es[1..] == [t2] && es[1..][1..] == [];
    assert LeavesAll(es[1..]) == Leaves(t2) + LeavesAll([]);
    assert LeavesAll(es) == b1 + b2;
    assert DistinctAll(es[1..]);
    forall x: nat, y: nat
      ensures Before(Node(p, es), x, y) <==> (x, y) in c && x in b1 + b2 && y in b1 + b2
    {
      assert BeforeAll(p, es[1..], x, y) <==> Before(t2, x, y);
      assert Before(Node(p, es), x, y) <==> Before(t1, x, y) || Before(t2, x, y) || (!p && x in b1 && y in b2);
    }
  }

  // ----- simplification -----

  /** Own-kind children are replaced by their children. */
  ghost function Spliced(p: bool, es: seq<Tree>): seq<Tree> {
    if es == [] then [] else
      (if es[0].Node? && es[0].isParallel == p then es[0].elements else [es[0]]) + Spliced(p, es[1..])
  }

  ghost function Simplified(t: Tree): Tree
    decreases t
  {
    match t
    case Leaf(_) => t
    case Node(p, es) => Node(p, Spliced(p, SimplifiedAll(es)))
  }

  ghost function SimplifiedAll(es: seq<Tree>): (r: seq<Tree>)
    ensures |r| == |es|
    decreases es
  {
    if es == [] then [] else [Simplified(es[0])] + SimplifiedAll(es[1..])
  }

  /** No node has a child of its own kind. */
  ghost predicate Alternating(t: Tree)
    decreases t
  {
    t.Node? ==> AlternatingAll(t.isParallel, t.elements)
  }

  ghost predicate AlternatingAll(p: bool, es: seq<Tree>)
    decreases es
  {
    es != [] ==> Alternating(es[0]) && (es[0].Node? ==> es[0].isParallel != p) && AlternatingAll(p, es[1..])
  }

  lemma {:induction false} ConcatAll(p: bool, a: seq<Tree>, b: seq<Tree>)
    ensures LeavesAll(a + b) == LeavesAll(a) + LeavesAll(b)
    ensures DistinctAll(a + b) <==> DistinctAll(a) && DistinctAll(b) && LeavesAll(a) !! LeavesAll(b)
    ensures forall x: nat, y: nat :: BeforeAll(p, a + b, x, y) <==>
      BeforeAll(p, a, x, y) || BeforeAll(p, b, x, y) || (!p && x in LeavesAll(a) && y in LeavesAll(b))
    ensures AlternatingAll(p, a + b) <==> AlternatingAll(p, a) && AlternatingAll(p, b)
    decreases |a|
  {
    if a == [] {
      assert a + b == b;
    } else {
      ConcatAll(p, a[1..], b);
      assert (a + b)[1..] == a[1..] + b && (a + b)[0] == a[0];
    }
  }

  /** Splicing changes neither leaves nor order. */
  lemma {:induction false} SplicedSame(p: bool, es: seq<Tree>)
    ensures LeavesAll(Spliced(p, es)) == LeavesAll(es)
    ensures DistinctAll(es) ==> DistinctAll(Spliced(p, es))
    ensures forall x: nat, y: nat :: BeforeAll(p, Spliced(p, es), x, y) <==> BeforeAll(p, es, x, y)
    decreases |es|
  {
    if es != [] {
      var head := if es[0].Node? && es[0].isParallel == p then es[0].elements else [es[0]];
      SplicedSame(p, es[1..]);
      ConcatAll(p, head, Spliced(p, es[1..]));
      HeadSame(p, es[0]);
      assert es == [es[0]] + es[1..];
    }
  }

  lemma HeadSame(p: bool, t: Tree)
    ensures var head := if t.Node? && t.isParallel == p then t.elements else [t];
      && LeavesAll(head) == Leaves(t) && (DistinctAll(head) <==> Distinct(t))
      && forall x: nat, y: nat :: BeforeAll(p, head, x, y) <==> Before(t, x, y)
  {
    if t.Node? && t.isParallel == p {
    } else {
      var head := [t];
      assert head[0] == t && head[1..] == [];
      assert LeavesAll(head) == Leaves(t) + LeavesAll(head[1..]);
      assert DistinctAll(head) <==> Distinct(head[0]) && DistinctAll(head[1..]) && Leaves(head[0]) !! LeavesAll(head[1..]);
      forall x: nat, y: nat ensures BeforeAll(p, head, x, y) <==> Before(t, x, y) {
        assert !BeforeAll(p, head[1..], x, y);
      }
    }
  }

  lemma {:induction false} SplicedAlternates(p: bool, es: seq<Tree>)
    requires forall i :: 0 <= i < |es| ==> Alternating(es[i])
    ensures AlternatingAll(p, Spliced(p, es))
    decreases |es|
  {
    if es != [] {
      var head := if es[0].Node? && es[0].isParallel == p then es[0].elements else [es[0]];
      SplicedAlternates(p, es[1..]);
      assert AlternatingAll(p, head) by {
        if !(es[0].Node? && es[0].isParallel == p) {
          assert head[0] == es[0] && head[1..] == [];
          assert AlternatingAll(p, head[1..]);
        }
      }
      ConcatAll(p, head, Spliced(p, es[1..]));
    }
  }

  /** Simplification keeps leaves and order and leaves no child of its parent's kind. */
  lemma {:induction false} SimplifiedSame(t: Tree)
    ensures Leaves(Simplified(t)) == Leaves(t) && (Distinct(t) ==> Distinct(Simplified(t)))
    ensures forall x: nat, y: nat :: Before(Simplified(t), x, y) <==> Before(t, x, y)
    ensures Alternating(Simplified(t)) && (Simplified(t).Node? <==> t.Node?)
    decreases t
  {
    if t.Node? {
      var es := SimplifiedAll(t.elements);
      SimplifiedAllSame(t.isParallel, t.elements);
      SplicedSame(t.isParallel, es);
      SplicedAlternates(t.isParallel, es);
      Unfold(t.isParallel, t.elements);
      Unfold(t.isParallel, Spliced(t.isParallel, es));
      assert t == Node(t.isParallel, t.elements);
    }
  }

  lemma {:induction false} SimplifiedAllSame(p: bool, es: seq<Tree>)
    ensures LeavesAll(SimplifiedAll(es)) == LeavesAll(es) && (DistinctAll(es) ==> DistinctAll(SimplifiedAll(es)))
    ensures forall x: nat, y: nat :: BeforeAll(p, SimplifiedAll(es), x, y) <==> BeforeAll(p, es, x, y)
    ensures forall i :: 0 <= i < |es| ==> Alternating(SimplifiedAll(es)[i])
    decreases es
  {
    if es != [] {
      SimplifiedSame(es[0]);
      SimplifiedAllSame(p, es[1..]);
      var r := SimplifiedAll(es);
      assert r[0] == Simplified(es[0]) && r[1..] == SimplifiedAll(es[1..]);
      forall i | 0 <= i < |es| ensures Alternating(r[i]) {
        if i > 0 { assert r[i] == SimplifiedAll(es[1..])[i - 1]; }
      }
    }
  }

  lemma SimplifiedInduces(t: Tree, c: Rel, b: set<nat>)
    requires Induces(t, c, b)
    ensures Induces(Simplified(t), c, b)
  {
    SimplifiedSame(t);
  }

  // ----- subsets by number (76-81) -----

  /** i & (1 << b) != 0. */
  function BitOf(i: nat, b: nat): bool {
    if b == 0 then i % 2 == 1 else BitOf(i / 2, b - 1)
  }

  function Pow2(n: nat): (r: nat)
    ensures r > 0
  {
    if n == 0 then 1 else 2 * Pow2(n - 1)
  }

  /** The members of list at the positions of the set bits of i. */
  ghost function Chosen(list: seq<nat>, i: nat): set<nat> {
    if list == [] then {} else (if i % 2 == 1 then {list[0]} else {}) + Chosen(list[1..], i / 2)
  }

  ghost function Members(list: seq<nat>): (s: set<nat>)
    ensures forall x :: x in s <==> x in list
  {
    set x | x in list
  }

  ghost predicate NoDuplicates(list: seq<nat>) {
    forall i, j :: 0 <= i < j < |list| ==> list[i] != list[j]
  }

  lemma {:induction false} ChosenBits(list: seq<nat>, i: nat)
    ensures forall x :: x in Chosen(list, i) <==> exists b {:trigger list[b]} :: 0 <= b < |list| && BitOf(i, b) && list[b] == x
  {
    if list != [] {
      ChosenBits(list[1..], i / 2);
      forall x ensures x in Chosen(list, i) <==> exists b {:trigger list[b]} :: 0 <= b < |list| && BitOf(i, b) && list[b] == x {
        if x in Chosen(list[1..], i / 2) {
          var b :| 0 <= b < |list[1..]| && BitOf(i / 2, b) && list[1..][b] == x;
          assert BitOf(i, b + 1) && list[b + 1] == x;
        }
        if b :| 0 <= b < |list| && BitOf(i, b) && list[b] == x {
          if b > 0 { assert BitOf(i / 2, b - 1) && list[1..][b - 1] == x; }
        }
      }
    }
  }

  /** Every subset has a number, and only the whole list has the largest one. */
  lemma {:induction false} NumberOf(list: seq<nat>, s: set<nat>) returns (i: nat)
    requires s <= Members(list) && NoDuplicates(list)
    ensures i < Pow2(|list|) && Chosen(list, i) == s
    ensures s != {} ==> i > 0
    ensures s != Members(list) ==> i < Pow2(|list|) - 1
    decreases |list|
  {
    if list == [] {
      i := 0;
      assert s == {};
    } else {
      var rest := list[1..];
      assert Members(list) == Members(rest) + {list[0]};
      assert list[0] !in Members(rest);
      var k := NumberOf(rest, s - {list[0]});
      i := 2 * k + (if list[0] in s then 1 else 0);
      assert i / 2 == k && (i % 2 == 1 <==> list[0] in s);
      if s != Members(list) && list[0] in s {
        assert s - {list[0]} != Members(rest);
      }
      assert list[0] !in s ==> s - {list[0]} == s;
    }
  }

  lemma {:induction false} ChosenWithin(list: seq<nat>, i: nat)
    ensures Chosen(list, i) <= Members(list)
    ensures 0 < i < Pow2(|list|) ==> Chosen(list, i) != {}
  {
    if list != [] {
      ChosenWithin(list[1..], i / 2);
      assert Members(list) == Members(list[1..]) + {list[0]};
    }
  }

  lemma {:induction false} ChosenProper(list: seq<nat>, i: nat)
    requires NoDuplicates(list) && i < Pow2(|list|) - 1
    ensures Chosen(list, i) != Members(list)
  {
    if list != [] {
      ChosenWithin(list[1..], i / 2);
      assert list[0] !in Members(list[1..]);
      assert Members(list) == Members(list[1..]) + {list[0]};
      if i % 2 == 1 {
        ChosenProper(list[1..], i / 2);
        assert Chosen(list[1..], i / 2) < Members(list[1..]);
        var x :| x in Members(list[1..]) && x !in Chosen(list[1..], i / 2);
        assert x in Members(list) && x !in Chosen(list, i);
      }
    }
  }

  // ----- building the tree (11-84) -----

  ghost predicate Antisymmetric(c: Rel) {
    forall x, y :: (x, y) in c ==> (y, x) !in c
  }

  datatype Element = Id(id: nat) | Sub(node: OrderDecomposition)

  class OrderDecomposition {
    var isParallel: bool
    var elements: seq<Element>
    /** The tree this node stands for and the nodes of its subtree. */
    ghost var tree: Tree
    ghost var Repr: set<OrderDecomposition>

    /** The elements stand for the trees; their subtrees lie in area and do not overlap. */
    static ghost predicate ListOk(es: seq<Element>, ts: seq<Tree>, area: set<OrderDecomposition>)
      reads area
      decreases area, 1
    {
      && |es| == |ts|
      && (forall i :: 0 <= i < |es| && es[i].Sub? ==> es[i].node in area && es[i].node.Repr <= area)
      && (forall i :: 0 <= i < |es| ==> ElementOk(es[i], ts[i], area))
      && (forall i, j :: 0 <= i < j < |es| && es[i].Sub? && es[j].Sub? ==> es[i].node.Repr !! es[j].node.Repr)
    }

    static ghost predicate ElementOk(e: Element, t: Tree, area: set<OrderDecomposition>)
      requires e.Sub? ==> e.node in area && e.node.Repr <= area
      reads area
      decreases area, 0, 1
    {
      if e.Id? then t == Leaf(e.id) else e.node.Valid() && e.node.tree == t
    }

    ghost predicate Valid()
      reads this, Repr
      decreases Repr, 0, 0
    {
      this in Repr && tree.Node? && tree.isParallel == isParallel && ListOk(elements, tree.elements, Repr - {this})
    }

    constructor Pair(isParallel: bool, a: Element, b: Element)
      requires a.Sub? ==> a.node.Valid()
      requires b.Sub? ==> b.node.Valid()
      requires a.Sub? && b.Sub? ==> a.node.Repr !! b.node.Repr
      ensures Valid() && tree == Node(isParallel, [Represents(a), Represents(b)])
      ensures Repr == {this} + Footprint(a) + Footprint(b)
    {
      this.isParallel := isParallel;
      elements := [a, b];
      tree := Node(isParallel, [Represents(a), Represents(b)]);
      new;
      Repr := {this} + Footprint(a) + Footprint(b);
    }

    /** Lists over disjoint areas can be appended. */
    static lemma Append(a: seq<Element>, ta: seq<Tree>, x: set<OrderDecomposition>, b: seq<Element>, tb: seq<Tree>, y: set<OrderDecomposition>,
                        z: set<OrderDecomposition>)
      requires ListOk(a, ta, x) && ListOk(b, tb, y) && x !! y && x + y <= z
      ensures ListOk(a + b, ta + tb, z)
    {
      hide OrderDecomposition.Valid;
      var es, ts := a + b, ta + tb;
      forall i | 0 <= i < |es| ensures ElementOkIn(es[i], ts[i], z) {
        if i < |a| {
          assert ElementOk(a[i], ta[i], x);
        } else {
          assert ElementOk(b[i - |a|], tb[i - |a|], y);
        }
      }
      forall i, j | 0 <= i < j < |es| && es[i].Sub? && es[j].Sub? ensures es[i].node.Repr !! es[j].node.Repr {
        if j < |a| {
          assert a[i].node.Repr !! a[j].node.Repr;
        } else if i >= |a| {
          assert b[i - |a|].node.Repr !! b[j - |a|].node.Repr;
        } else {
          assert a[i].node.Repr <= x && b[j - |a|].node.Repr <= y;
        }
      }
    }

    static ghost predicate ElementOkIn(e: Element, t: Tree, area: set<OrderDecomposition>)
      reads area
    {
      (e.Sub? ==> e.node in area && e.node.Repr <= area) && ElementOk(e, t, area)
    }

    constructor Single(id: nat)
      ensures Valid() && tree == Node(false, [Leaf(id)]) && Repr == {this}
    {
      isParallel := false;
      elements := [Id(id)];
      tree := Node(false, [Leaf(id)]);
      new;
      Repr := {this};
    }
  }

  ghost function Represents(e: Element): Tree
    reads if e.Id? then {} else {e.node}
  {
    if e.Id? then Leaf(e.id) else e.node.tree
  }

  ghost function Footprint(e: Element): set<OrderDecomposition>
    reads if e.Id? then {} else {e.node}
  {
    if e.Id? then {} else e.node.Repr
  }

  /** Lines 15-28. */
  method CheckSplit(m: array2<bool>, bitmask_set: set<nat>, split: set<nat>) returns (anyOrder: bool, allAfter: bool)
    requires m.Length0 == m.Length1 && split <= bitmask_set && forall x :: x in bitmask_set ==> x < m.Length0
    ensures anyOrder <==> exists x, y :: x in split && y in bitmask_set - split && ((x, y) in Marked(m) || (y, x) in Marked(m))
    ensures allAfter <==> forall x, y :: x in split && y in bitmask_set - split ==> (x, y) in Marked(m)
  {
    anyOrder, allAfter := false, true;
    ghost var c, rest := Marked(m), bitmask_set - split;
    for ax := 0 to m.Length0
      invariant anyOrder <==> exists x, y :: x in split && x < ax && y in rest && ((x, y) in c || (y, x) in c)
      invariant allAfter <==> forall x, y :: x in split && x < ax && y in rest ==> (x, y) in c
    {
      if ax !in bitmask_set || ax !in split { continue; }
      for bx := 0 to m.Length0
        invariant anyOrder <==> exists x, y :: x in split && y in rest && (x < ax || (x == ax && y < bx)) && ((x, y) in c || (y, x) in c)
        invariant allAfter <==> forall x, y :: x in split && y in rest && (x < ax || (x == ax && y < bx)) ==> (x, y) in c
      {
        if bx !in bitmask_set || bx in split { continue; }
        if m[ax, bx] || m[bx, ax] { anyOrder := true; }
        if !m[ax, bx] { allAfter := false; }
      }
    }
  }

  /** Lines 31-34. */
  method Partition(bitmask: seq<nat>, split: set<nat>) returns (first_set: seq<nat>, second_set: seq<nat>)
    requires NoDuplicates(bitmask) && split <= Members(bitmask)
    ensures Members(first_set) == split && Members(second_set) == Members(bitmask) - split
    ensures NoDuplicates(first_set) && NoDuplicates(second_set) && |first_set| + |second_set| == |bitmask|
  {
    first_set, second_set := [], [];
    for k := 0 to |bitmask|
      invariant Members(first_set) == Members(bitmask[..k]) * split && Members(second_set) == Members(bitmask[..k]) - split
      invariant NoDuplicates(first_set) && NoDuplicates(second_set) && |first_set| + |second_set| == k
    {
      var b := bitmask[k];
      assert bitmask[..k + 1] == bitmask[..k] + [b];
      MembersSnoc(bitmask[..k], b);
      assert b !in Members(bitmask[..k]);
      if b in split {
        MembersSnoc(first_set, b);
        first_set := first_set + [b];
      } else {
        MembersSnoc(second_set, b);
        second_set := second_set + [b];
      }
    }
    assert bitmask[..|bitmask|] == bitmask;
  }

  lemma MembersSnoc(list: seq<nat>, b: nat)
    ensures Members(list + [b]) == Members(list) + {b}
    ensures NoDuplicates(list) && b !in Members(list) ==> NoDuplicates(list + [b])
  {
  }

  /** The tree for a list of identifiers: a node, or the only identifier where the node is null. */
  ghost function TreeOf(node: OrderDecomposition?, bitmask: seq<nat>): Tree
    requires |bitmask| > 0
    reads node
  {
    if node == null then Leaf(bitmask[0]) else node.tree
  }

  /** What a search over bitmask delivers: ok is false where the code does not return. */
  ghost predicate Delivered(c: Rel, bitmask: seq<nat>, ok: bool, node: OrderDecomposition?)
    requires |bitmask| > 0
    reads node, if node == null then {} else node.Repr
  {
    && (ok && node == null ==> |bitmask| == 1)
    && (ok && node != null ==> node.Valid())
    && (Antisymmetric(c) ==> (ok <==> SeriesParallel(c, Members(bitmask))))
    && (Antisymmetric(c) && ok ==> Induces(TreeOf(node, bitmask), c, Members(bitmask)))
  }

  method Wrap(node: OrderDecomposition?, bitmask: seq<nat>) returns (e: Element)
    requires |bitmask| > 0 && (node == null ==> |bitmask| == 1)
    ensures Represents(e) == TreeOf(node, bitmask)
    ensures e == if node == null then Id(bitmask[0]) else Sub(node)
  {
    e := if node == null then Id(bitmask[0]) else Sub(node);
  }

  lemma SingletonMembers(bitmask: seq<nat>)
    requires |bitmask| == 1
    ensures Members(bitmask) == {bitmask[0]}
  {
  }

  lemma SingletonDelivered(c: Rel, bitmask: seq<nat>)
    requires |bitmask| == 1
    ensures Delivered(c, bitmask, true, null)
  {
    SingletonMembers(bitmask);
    if Antisymmetric(c) {
      var t := Leaf(bitmask[0]);
      var only := bitmask[0];
      assert (only, only) !in c;
      forall x: nat, y: nat ensures Before(t, x, y) <==> (x, y) in c && x in Members(bitmask) && y in Members(bitmask) {
      }
      assert Induces(t, c, Members(bitmask));
    }
  }

  /** try_extract_order_decomposition (11-52): a split that is no split fails; otherwise both parts are searched. */
  method TryExtract(m: array2<bool>, bitmask: seq<nat>, split: set<nat>) returns (success: bool, ok: bool, node: OrderDecomposition?)
    requires m.Length0 == m.Length1 && NoDuplicates(bitmask) && InMatrix(bitmask, m.Length0)
    requires split < Members(bitmask) && split != {}
    ensures |bitmask| > 0
    ensures success ==> Delivered(Marked(m), bitmask, ok, node) && (node != null ==> fresh(node.Repr)) && (ok ==> node != null)
    ensures !success && Antisymmetric(Marked(m)) ==> !Splits(Marked(m), Members(bitmask), split)
    decreases |bitmask|, 1
  {
    hide Delivered, SeriesParallel, Induces;
    MembersInMatrix(bitmask, m.Length0);
    var anyOrder, allAfter := CheckSplit(m, (set x | x in bitmask), split);
    node, ok := null, false;
    if anyOrder && !allAfter {
      return false, false, null;
    }
    success := true;
    ok, node := SearchParts(m, bitmask, split, !anyOrder);
  }

  /** Lines 31-51. */
  method SearchParts(m: array2<bool>, bitmask: seq<nat>, split: set<nat>, isParallel: bool) returns (ok: bool, node: OrderDecomposition?)
    requires m.Length0 == m.Length1 && NoDuplicates(bitmask) && InMatrix(bitmask, m.Length0)
    requires split < Members(bitmask) && split != {}
    requires isParallel ==> forall x, y :: x in split && y in Members(bitmask) - split ==> (x, y) !in Marked(m) && (y, x) !in Marked(m)
    requires !isParallel ==> forall x, y :: x in split && y in Members(bitmask) - split ==> (x, y) in Marked(m)
    ensures |bitmask| > 0 && Delivered(Marked(m), bitmask, ok, node) && (node != null ==> fresh(node.Repr)) && (ok ==> node != null)
    decreases |bitmask|, 0
  {
    hide Delivered, SeriesParallel, Induces, Marked, InMatrix, Represents, Footprint;
    ghost var c := Marked(m);
    node, ok := null, false;
    var first_set, second_set := Partition(bitmask, split);
    PartSizes(bitmask, split, first_set, second_set);
    PartsInMatrix(bitmask, first_set, m.Length0);
    PartsInMatrix(bitmask, second_set, m.Length0);
    var ok1, first := ExtractDfs(m, first_set);
    var ok2, second := ExtractDfs(m, second_set);
    if ok1 && ok2 {
      DeliveredParts(c, first_set, first);
      DeliveredParts(c, second_set, second);
      ok := true;
      node := JoinNodes(isParallel, first, first_set, second, second_set);
      BothDelivered(c, bitmask, first_set, second_set, isParallel, first, second, node);
    } else {
      OneMissing(c, bitmask, first_set, second_set, ok1, first, ok2, second);
    }
  }

  ghost predicate InMatrix(bitmask: seq<nat>, n: nat) {
    forall k :: 0 <= k < |bitmask| ==> bitmask[k] < n
  }

  lemma PartsInMatrix(bitmask: seq<nat>, part: seq<nat>, n: nat)
    requires InMatrix(bitmask, n) && Members(part) <= Members(bitmask)
    ensures InMatrix(part, n)
  {
    forall k | 0 <= k < |part| ensures part[k] < n { assert part[k] in Members(part); }
  }

  /** Lines 39-49. */
  method JoinNodes(isParallel: bool, first: OrderDecomposition?, first_set: seq<nat>, second: OrderDecomposition?, second_set: seq<nat>)
    returns (node: OrderDecomposition)
    requires |first_set| > 0 && |second_set| > 0 && (first == null ==> |first_set| == 1) && (second == null ==> |second_set| == 1)
    requires (first != null ==> first.Valid()) && (second != null ==> second.Valid())
    requires first != null && second != null ==> first.Repr !! second.Repr
    ensures node.Valid() && fresh(node)
    ensures node.Repr == {node} + (if first == null then {} else first.Repr) + (if second == null then {} else second.Repr)
    ensures node.tree == Node(isParallel, [TreeOf(first, first_set), TreeOf(second, second_set)])
  {
    var e1 := Wrap(first, first_set);
    var e2 := Wrap(second, second_set);
    node := new OrderDecomposition.Pair(isParallel, e1, e2);
  }

  lemma MembersInMatrix(bitmask: seq<nat>, n: nat)
    requires InMatrix(bitmask, n)
    ensures forall x :: x in Members(bitmask) ==> x < n
    ensures Members(bitmask) != {} ==> |bitmask| > 0
  {
  }

  lemma PartSizes(bitmask: seq<nat>, split: set<nat>, first_set: seq<nat>, second_set: seq<nat>)
    requires split < Members(bitmask) && split != {} && Members(first_set) == split && Members(second_set) == Members(bitmask) - split
    ensures |first_set| > 0 && |second_set| > 0
  {
    var x :| x in split;
    assert x in first_set;
    var y :| y in Members(bitmask) && y !in split;
    assert y in second_set;
  }

  lemma DeliveredParts(c: Rel, bitmask: seq<nat>, node: OrderDecomposition?)
    requires |bitmask| > 0 && Delivered(c, bitmask, true, node)
    ensures (node == null ==> |bitmask| == 1) && (node != null ==> node.Valid() && node in node.Repr)
    ensures Antisymmetric(c) ==> Induces(TreeOf(node, bitmask), c, Members(bitmask))
  {
  }

  lemma BothDelivered(c: Rel, bitmask: seq<nat>, first_set: seq<nat>, second_set: seq<nat>, p: bool,
                      first: OrderDecomposition?, second: OrderDecomposition?, node: OrderDecomposition)
    requires |bitmask| > 0 && |first_set| > 0 && |second_set| > 0 && Members(first_set) !! Members(second_set)
    requires Members(bitmask) == Members(first_set) + Members(second_set)
    requires Antisymmetric(c) ==> Induces(TreeOf(first, first_set), c, Members(first_set)) && Induces(TreeOf(second, second_set), c, Members(second_set))
    requires p ==> forall x, y :: x in Members(first_set) && y in Members(second_set) ==> (x, y) !in c && (y, x) !in c
    requires !p ==> forall x, y :: x in Members(first_set) && y in Members(second_set) ==> (x, y) in c
    requires node.Valid() && node.tree == Node(p, [TreeOf(first, first_set), TreeOf(second, second_set)])
    ensures Delivered(c, bitmask, true, node)
  {
    if Antisymmetric(c) {
      Joined(p, TreeOf(first, first_set), TreeOf(second, second_set), c, Members(first_set), Members(second_set));
      assert Induces(node.tree, c, Members(bitmask));
    }
  }

  lemma OneMissing(c: Rel, bitmask: seq<nat>, first_set: seq<nat>, second_set: seq<nat>,
                   ok1: bool, first: OrderDecomposition?, ok2: bool, second: OrderDecomposition?)
    requires |bitmask| > 0 && |first_set| > 0 && |second_set| > 0 && !(ok1 && ok2)
    requires Members(first_set) <= Members(bitmask) && Members(second_set) <= Members(bitmask)
    requires Delivered(c, first_set, ok1, first) && Delivered(c, second_set, ok2, second)
    ensures Delivered(c, bitmask, false, null)
  {
    if Antisymmetric(c) && SeriesParallel(c, Members(bitmask)) {
      PartsSeriesParallel(c, Members(bitmask), Members(first_set));
      PartsSeriesParallel(c, Members(bitmask), Members(second_set));
    }
  }

  /** The subset with number i, collected bit by bit (77-78). */
  method CollectSplit(bitmask: seq<nat>, i: nat) returns (split: set<nat>)
    ensures split == Chosen(bitmask, i)
  {
    split := {};
    for b := 0 to |bitmask|
      invariant forall x :: x in split <==> exists k {:trigger bitmask[k]} :: 0 <= k < b && BitOf(i, k) && bitmask[k] == x
    {
      ghost var before := split;
      if BitOf(i, b) { split := split + {bitmask[b]}; }
      forall x ensures x in split <==> exists k {:trigger bitmask[k]} :: 0 <= k < b + 1 && BitOf(i, k) && bitmask[k] == x {
        if x in before {
          var k :| 0 <= k < b && BitOf(i, k) && bitmask[k] == x;
          assert 0 <= k < b + 1 && BitOf(i, k) && bitmask[k] == x;
        }
      }
    }
    ChosenBits(bitmask, i);
  }

  /** extract_order_decomposition_dfs (55-83): first single elements, then all subsets in the order of their numbers.
      The last number stands for the whole list; the code takes that for a split and never returns. */
  method ExtractDfs(m: array2<bool>, bitmask: seq<nat>) returns (ok: bool, node: OrderDecomposition?)
    requires m.Length0 == m.Length1 && NoDuplicates(bitmask) && InMatrix(bitmask, m.Length0)
    requires |bitmask| > 0
    ensures Delivered(Marked(m), bitmask, ok, node) && (node != null ==> fresh(node.Repr)) && (ok && node == null ==> |bitmask| == 1)
    ensures |bitmask| > 1 && ok ==> node != null
    decreases |bitmask|, 2
  {
    hide Delivered, SeriesParallel, Induces, Splits, Chosen;
    if |bitmask| == 1 {
      SingletonDelivered(Marked(m), bitmask);
      return true, null;
    }
    for e := 0 to |bitmask|
    {
      ProperSingleton(bitmask, e);
      var success;
      success, ok, node := TryExtract(m, bitmask, {bitmask[e]});
      if success { return; }
    }
    var i := 1;
    while i < Pow2(|bitmask|) - 1
      invariant 1 <= i
      invariant Antisymmetric(Marked(m)) ==> forall k {:trigger Chosen(bitmask, k)} :: 1 <= k < i ==> !Splits(Marked(m), Members(bitmask), Chosen(bitmask, k))
    {
      var split := CollectSplit(bitmask, i);
      ChosenWithin(bitmask, i);
      ChosenProper(bitmask, i);
      var success;
      success, ok, node := TryExtract(m, bitmask, split);
      if success { return; }
      i := i + 1;
    }
    NoSplit(Marked(m), bitmask);
    return false, null;
  }

  lemma ProperSingleton(bitmask: seq<nat>, e: nat)
    requires NoDuplicates(bitmask) && |bitmask| > 1 && e < |bitmask|
    ensures {bitmask[e]} < Members(bitmask)
  {
    var other := if e == 0 then 1 else 0;
    assert bitmask[other] != bitmask[e] && bitmask[other] in Members(bitmask) && bitmask[e] in Members(bitmask);
  }

  lemma NoSplit(c: Rel, bitmask: seq<nat>)
    requires NoDuplicates(bitmask) && |bitmask| > 1
    requires Antisymmetric(c) ==> forall k {:trigger Chosen(bitmask, k)} :: 1 <= k < Pow2(|bitmask|) - 1 ==> !Splits(c, Members(bitmask), Chosen(bitmask, k))
    ensures Delivered(c, bitmask, false, null)
  {
    if Antisymmetric(c) && SeriesParallel(c, Members(bitmask)) {
      var t :| Induces(t, c, Members(bitmask));
      TwoMembers(bitmask);
      var s := SplitExists(t, c, Members(bitmask));
      var i := NumberOf(bitmask, s);
    }
  }

  lemma TwoMembers(bitmask: seq<nat>)
    requires NoDuplicates(bitmask) && |bitmask| > 1
    ensures |Members(bitmask)| >= 2
  {
    assert bitmask[0] in Members(bitmask) && bitmask[1] in Members(bitmask) && bitmask[0] != bitmask[1];
    var rest := Members(bitmask) - {bitmask[0]};
    assert bitmask[1] in rest;
    assert |Members(bitmask)| == |rest| + 1;
  }

  // ----- the whole extraction (86-115) -----

  /** The range 0..n-1 as a list. */
  method AllIds(n: nat) returns (bitmask: seq<nat>)
    ensures Members(bitmask) == Upto(n) && NoDuplicates(bitmask) && InMatrix(bitmask, n) && |bitmask| == n
  {
    bitmask := [];
    for i := 0 to n
      invariant Members(bitmask) == Upto(i) && NoDuplicates(bitmask) && InMatrix(bitmask, i) && |bitmask| == i
    {
      MembersSnoc(bitmask, i);
      bitmask := bitmask + [i];
    }
  }

  ghost function PairSet(ordering: seq<(nat, nat)>): (e: Rel)
    ensures forall p :: p in e <==> p in ordering
  {
    set p | p in ordering
  }

  method FillMatrix(ordering: seq<(nat, nat)>, n: nat) returns (m: array2<bool>)
    requires Within(PairSet(ordering), n)
    ensures fresh(m) && m.Length0 == m.Length1 == n && Marked(m) == PairSet(ordering)
  {
    m := new bool[n, n]((x, y) => false);
    for k := 0 to |ordering|
      invariant Marked(m) == PairSet(ordering[..k])
    {
      assert ordering[k] in PairSet(ordering);
      assert ordering[..k + 1] == ordering[..k] + [ordering[k]];
      ghost var before := Marked(m);
      var (x, y) := ordering[k];
      m[x, y] := true;
      assert forall i: nat, j: nat :: (i, j) in Marked(m) <==> (i, j) in before || (i, j) == (x, y);
      assert Marked(m) == before + {ordering[k]};
    }
    assert ordering[..|ordering|] == ordering;
  }

  lemma ClosureAntisymmetric(e: Rel, n: nat)
    requires Within(e, n) && Acyclic(e)
    ensures Antisymmetric(Closure(e, n))
  {
    ClosureTransitive(e, n);
    forall x, y | (x, y) in Closure(e, n) ensures (y, x) !in Closure(e, n) {
      assert (x, x) !in Closure(e, n);
    }
  }

  /** extract_order_decomposition: for an acyclic ordering a tree is returned exactly when the closure is series-parallel,
      and it induces the closure. Lists of up to 30 identifiers keep 1 << size within an int. */
  method ExtractOrderDecomposition(ordering: seq<(nat, nat)>, n: nat) returns (ok: bool, node: OrderDecomposition?)
    requires Within(PairSet(ordering), n) && n <= 30
    ensures n == 0 ==> ok && node == null
    ensures n > 0 && ok ==> node != null && node.Valid() && fresh(node.Repr)
    ensures n > 0 && Acyclic(PairSet(ordering)) ==> (ok <==> SeriesParallel(Closure(PairSet(ordering), n), Upto(n)))
    ensures n > 0 && Acyclic(PairSet(ordering)) && ok ==> Induces(node.tree, Closure(PairSet(ordering), n), Upto(n))
  {
    hide SeriesParallel, Induces;
    ghost var e := PairSet(ordering);
    if n == 0 {
      return true, null;
    }
    if n == 1 {
      node := new OrderDecomposition.Single(0);
      OneOnly(e);
      return true, node;
    }
    var m := FillMatrix(ordering, n);
    Warshall(m);
    var bitmask := AllIds(n);
    ok, node := ExtractDfs(m, bitmask);
    if Acyclic(e) { ClosureAntisymmetric(e, n); }
  }

  lemma OneOnly(e: Rel)
    requires Within(e, 1)
    ensures Acyclic(e) ==> Induces(Node(false, [Leaf(0)]), Closure(e, 1), Upto(1)) && SeriesParallel(Closure(e, 1), Upto(1))
  {
    if Acyclic(e) {
      var t := Node(false, [Leaf(0)]);
      Unfold(false, [Leaf(0)]);
      assert [Leaf(0)][1..] == [];
      ClosureTransitive(e, 1);
      forall x: nat, y: nat ensures Before(t, x, y) <==> (x, y) in Closure(e, 1) && x in Upto(1) && y in Upto(1) {
        assert !BeforeAll(false, [Leaf(0)][1..], x, y);
      }
      assert Induces(t, Closure(e, 1), Upto(1));
    }
  }

  /** A tree can induce the closure of acyclic orderings only: for a cyclic one the returned tree is wrong. */
  lemma InducedAcyclic(t: Tree, e: Rel, n: nat)
    requires Within(e, n) && Induces(t, Closure(e, n), Upto(n))
    ensures Acyclic(e)
  {
    forall x: nat ensures !Plus(e, x, x) {
      Irreflexive(t, x);
      assert Before(t, x, x) <==> (x, x) in Closure(e, n) && x in Upto(n);
      if Plus(e, x, x) { PlusWithin(e, n, x, x); }
    }
  }

  // ----- simplification in place (117-136) -----

  ghost function Head(p: bool, t: Tree): seq<Tree> {
    if t.Node? && t.isParallel == p then t.elements else [t]
  }

  lemma {:induction false} SplicedSnoc(p: bool, es: seq<Tree>, t: Tree)
    ensures Spliced(p, es + [t]) == Spliced(p, es) + Head(p, t)
  {
    if es == [] {
      assert es + [t] == [t];
      assert Spliced(p, [t]) == Head(p, t) + Spliced(p, [t][1..]);
    } else {
      assert (es + [t])[1..] == es[1..] + [t];
      SplicedSnoc(p, es[1..], t);
    }
  }

  lemma {:induction false} SimplifiedAllAt(es: seq<Tree>, i: nat)
    requires i < |es|
    ensures SimplifiedAll(es)[i] == Simplified(es[i])
  {
    if i > 0 { SimplifiedAllAt(es[1..], i - 1); }
  }

  /** The first i trees are simplified. */
  ghost function Partly(es: seq<Tree>, i: nat): (r: seq<Tree>)
    requires i <= |es|
    ensures |r| == |es|
  {
    SimplifiedAll(es)[..i] + es[i..]
  }

  lemma PartlyNext(es: seq<Tree>, i: nat)
    requires i < |es|
    ensures Partly(es, i)[i] == es[i] && Partly(es, i + 1) == Partly(es, i)[i := Simplified(es[i])]
  {
    SimplifiedAllAt(es, i);
    hide SimplifiedAll, Simplified;
    var r, a, b := SimplifiedAll(es), Partly(es, i), Partly(es, i + 1);
    assert |r[..i + 1]| == i + 1 && |r[..i]| == i;
    forall k | 0 <= k < |es| ensures b[k] == a[i := Simplified(es[i])][k] {
    }
  }

  lemma PartlyEnds(es: seq<Tree>)
    ensures Partly(es, 0) == es && Partly(es, |es|) == SimplifiedAll(es)
  {
  }

  lemma NeighbourAt(es: seq<Element>, ts: seq<Tree>, area: set<OrderDecomposition>, i: nat, j: nat)
    requires OrderDecomposition.ListOk(es, ts, area) && i < |es| && j < |es| && i != j && es[i].Sub? && es[j].Sub?
    ensures es[j].node in es[j].node.Repr && es[j].node.Repr !! es[i].node.Repr
  {
    assert OrderDecomposition.ElementOk(es[j], ts[j], area);
    assert es[j].node.Valid();
  }

  lemma ListFrom(es: seq<Element>, ts: seq<Tree>, area: set<OrderDecomposition>)
    requires |es| == |ts| && forall j :: 0 <= j < |es| ==> OrderDecomposition.ElementOkIn(es[j], ts[j], area)
    requires forall i, j :: 0 <= i < j < |es| && es[i].Sub? && es[j].Sub? ==> es[i].node.Repr !! es[j].node.Repr
    ensures OrderDecomposition.ListOk(es, ts, area)
  {
  }

  lemma ElementAt(es: seq<Element>, ts: seq<Tree>, area: set<OrderDecomposition>, i: nat)
    requires OrderDecomposition.ListOk(es, ts, area) && i < |es|
    ensures |es| == |ts|
    ensures es[i].Id? ==> ts[i] == Leaf(es[i].id)
    ensures es[i].Sub? ==> es[i].node in area && es[i].node.Repr <= area && es[i].node.Valid() && es[i].node.tree == ts[i]
  {
    assert OrderDecomposition.ElementOk(es[i], ts[i], area);
  }

  lemma SameLength(ord: OrderDecomposition)
    requires ord.Valid()
    ensures |ord.tree.elements| == |ord.elements|
  {
  }

  /** Lines 118-123. */
  method SimplifyChildren(ord: OrderDecomposition)
    requires ord.Valid()
    modifies ord.Repr - {ord}
    ensures OrderDecomposition.ListOk(ord.elements, SimplifiedAll(old(ord.tree.elements)), ord.Repr - {ord})
    decreases ord.Repr, 0
  {
    hide OrderDecomposition.ListOk, Simplified, SimplifiedAll, Partly;
    ghost var trees, area := ord.tree.elements, ord.Repr - {ord};
    PartlyEnds(trees);
    SameLength(ord);
    for i := 0 to |ord.elements|
      invariant |trees| == |ord.elements| && OrderDecomposition.ListOk(ord.elements, Partly(trees, i), area)
    {
      PartlyNext(trees, i);
      ElementAt(ord.elements, Partly(trees, i), area, i);
      if ord.elements[i].Sub? {
        SimplifyOne(ord.elements, Partly(trees, i), area, i);
      } else {
        assert Simplified(trees[i]) == trees[i] by { LeafSimplified(trees[i]); }
        assert Partly(trees, i + 1) == Partly(trees, i);
      }
    }
  }

  lemma LeafSimplified(t: Tree)
    requires t.Leaf?
    ensures Simplified(t) == t
  {
  }

  method SimplifyOne(es: seq<Element>, ghost ts: seq<Tree>, ghost area: set<OrderDecomposition>, i: nat)
    requires OrderDecomposition.ListOk(es, ts, area) && i < |es| == |ts| && es[i].Sub?
    modifies area
    ensures OrderDecomposition.ListOk(es, ts[i := Simplified(ts[i])], area)
    decreases area, 3
  {
    hide OrderDecomposition.ListOk, Simplified, OrderDecomposition.Valid;
    forall j, k | 0 <= j < |es| && 0 <= k < |es| && j != k && es[j].Sub? && es[k].Sub?
      ensures es[k].node in es[k].node.Repr && es[k].node.Repr !! es[j].node.Repr
    {
      NeighbourAt(es, ts, area, j, k);
    }
    forall j | 0 <= j < |es|
      ensures es[j].Id? ==> ts[j] == Leaf(es[j].id)
      ensures es[j].Sub? ==> es[j].node in area && es[j].node.Repr <= area && es[j].node.Valid() && es[j].node.tree == ts[j]
    {
      ElementAt(es, ts, area, j);
    }
    SimplifyOrderDecomposition(es[i].node);
    ghost var ts2 := ts[i := Simplified(ts[i])];
    forall j | 0 <= j < |es|
      ensures OrderDecomposition.ElementOkIn(es[j], ts2[j], area) && (es[j].Sub? ==> es[j].node.Repr == old(es[j].node.Repr))
    {
    }
    ListFrom(es, ts2, area);
  }

  /** Lines 125-134: own-kind children are replaced by their elements. */
  method SpliceChildren(sub: seq<Element>, isParallel: bool, ghost ts: seq<Tree>, ghost area: set<OrderDecomposition>) returns (elements: seq<Element>)
    requires OrderDecomposition.ListOk(sub, ts, area)
    ensures OrderDecomposition.ListOk(elements, Spliced(isParallel, ts), area)
  {
    hide OrderDecomposition.ListOk, Spliced, OrderDecomposition.Valid;
    elements := [];
    ghost var used: set<OrderDecomposition> := {};
    NothingSpliced(isParallel, sub, ts, area);
    for i := 0 to |sub|
      invariant |ts| == |sub| && OrderDecomposition.ListOk(elements, Spliced(isParallel, ts[..i]), used)
      invariant used <= area && forall k :: i <= k < |sub| && sub[k].Sub? ==> sub[k].node.Repr !! used
    {
      ElementAt(sub, ts, area, i);
      assert ts[..i + 1] == ts[..i] + [ts[i]];
      SplicedSnoc(isParallel, ts[..i], ts[i]);
      AreasApart(sub, ts, area, i);
      var more := HeadElements(sub[i], ts[i], isParallel);
      ghost var next := used + Footprint(sub[i]);
      OrderDecomposition.Append(elements, Spliced(isParallel, ts[..i]), used, more, Head(isParallel, ts[i]), Footprint(sub[i]), next);
      elements := elements + more;
      used := next;
    }
    assert ts[..|ts|] == ts;
    Widen(elements, Spliced(isParallel, ts), used, area);
  }

  /** What one child contributes. */
  method HeadElements(e: Element, ghost t: Tree, isParallel: bool) returns (more: seq<Element>)
    requires e.Id? ==> t == Leaf(e.id)
    requires e.Sub? ==> e.node.Valid() && e.node.tree == t
    ensures OrderDecomposition.ListOk(more, Head(isParallel, t), Footprint(e))
  {
    if e.Sub? && e.node.isParallel == isParallel {
      more := e.node.elements;
      Widen(more, t.elements, e.node.Repr - {e.node}, e.node.Repr);
    } else {
      more := [e];
    }
  }

  lemma Widen(es: seq<Element>, ts: seq<Tree>, x: set<OrderDecomposition>, y: set<OrderDecomposition>)
    requires OrderDecomposition.ListOk(es, ts, x) && x <= y
    ensures OrderDecomposition.ListOk(es, ts, y)
  {
    OrderDecomposition.Append(es, ts, x, [], [], {}, y);
    assert es + [] == es && ts + [] == ts;
  }

  lemma AreasApart(es: seq<Element>, ts: seq<Tree>, area: set<OrderDecomposition>, i: nat)
    requires OrderDecomposition.ListOk(es, ts, area) && i < |es|
    ensures forall k :: i < k < |es| && es[k].Sub? ==> es[k].node.Repr !! Footprint(es[i])
  {
  }

  lemma NothingSpliced(p: bool, sub: seq<Element>, ts: seq<Tree>, area: set<OrderDecomposition>)
    requires OrderDecomposition.ListOk(sub, ts, area)
    ensures |ts| == |sub| && Spliced(p, ts[..0]) == [] && OrderDecomposition.ListOk([], [], {})
  {
  }

  /** simplify_order_decomposition: rewrites the element lists of the whole tree. */
  method SimplifyOrderDecomposition(ord: OrderDecomposition)
    requires ord.Valid()
    modifies ord.Repr
    ensures ord.Valid() && ord.Repr == old(ord.Repr) && ord.tree == Simplified(old(ord.tree))
    decreases ord.Repr, 2
  {
    hide OrderDecomposition.ListOk, Simplified, SimplifiedAll, Spliced;
    ghost var trees, area := ord.tree.elements, ord.Repr - {ord};
    SimplifyChildren(ord);
    ghost var simple := SimplifiedAll(trees);
    var elements := SpliceChildren(ord.elements, ord.isParallel, simple, area);
    ord.elements := elements;
    ord.tree := Node(ord.isParallel, Spliced(ord.isParallel, simple));
    SimplifiedIs(ord.isParallel, trees);
  }

  lemma SimplifiedIs(p: bool, es: seq<Tree>)
    ensures Simplified(Node(p, es)) == Node(p, Spliced(p, SimplifiedAll(es)))
  {
  }
}
