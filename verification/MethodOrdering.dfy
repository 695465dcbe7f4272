/** Transitive reduction of method orderings while the model is read, and the flags derived from it
    (Model.cpp:1860-1894, 3009-3088). */
module MethodOrdering {
  import opened Relations

  // ----- the reduction of a closed relation -----

  /** The pairs of c without an element in between (3033-3036). */
  ghost function Covers(c: Rel): (r: Rel)
    ensures forall x, y :: (x, y) in r <==> (x, y) in c && !exists k :: (x, k) in c && (k, y) in c
  {
    set p | p in c && !exists k :: (p.0, k) in c && (k, p.1) in c
  }

  /** A strict partial order on the first n indices. */
  ghost predicate Order(c: Rel, n: nat) {
    Within(c, n) && Transitive(c) && forall x :: (x, x) !in c
  }

  ghost predicate Total(c: Rel, n: nat) {
    forall x, y :: 0 <= x < n && 0 <= y < n && x != y ==> (x, y) in c || (y, x) in c
  }

  lemma ClosureOrder(e: Rel, n: nat)
    requires Within(e, n) && Acyclic(e)
    ensures Order(Closure(e, n), n)
  {
    ClosureTransitive(e, n);
  }

  ghost function Above(c: Rel, n: nat, x: nat): (s: set<nat>)
    requires Within(c, n)
    ensures forall y: nat :: y in s <==> (x, y) in c
  {
    set y: nat | y in Upto(n) && (x, y) in c
  }

  ghost function Under(c: Rel, n: nat, y: nat): (s: set<nat>)
    requires Within(c, n)
    ensures forall x: nat :: x in s <==> (x, y) in c
  {
    set x: nat | x in Upto(n) && (x, y) in c
  }

  lemma Smaller(a: set<nat>, b: set<nat>, x: nat)
    requires a <= b && x in b && x !in a
    ensures |a| < |b|
  {
    Fewer(a, b - {x});
  }

  lemma Fewer(a: set<nat>, b: set<nat>)
    requires a <= b
    ensures |a| <= |b|
    decreases |a|
  {
    if a != {} {
      var x :| x in a;
      Fewer(a - {x}, b - {x});
    }
  }

  /** Every pair of c begins with a cover, and ends with one. */
  lemma CoverAbove(c: Rel, n: nat, x: nat, y: nat) returns (z: nat)
    requires Order(c, n) && (x, y) in c
    ensures (x, z) in Covers(c) && (z == y || (z, y) in c)
    decreases |Under(c, n, y)|
  {
    if k: nat :| (x, k) in c && (k, y) in c {
      Smaller(Under(c, n, k), Under(c, n, y), k);
      z := CoverAbove(c, n, x, k);
    } else {
      z := y;
      assert !exists k :: (x, k) in c && (k, y) in c;
    }
  }

  lemma CoverUnder(c: Rel, n: nat, x: nat, y: nat) returns (z: nat)
    requires Order(c, n) && (x, y) in c
    ensures (z, y) in Covers(c) && (z == x || (x, z) in c)
    decreases |Above(c, n, x)|
  {
    if k: nat :| (x, k) in c && (k, y) in c {
      Smaller(Above(c, n, k), Above(c, n, x), k);
      z := CoverUnder(c, n, k, y);
    } else {
      z := x;
      assert !exists k :: (x, k) in c && (k, y) in c;
    }
  }

  lemma CoversGenerate(c: Rel, n: nat, x: nat, y: nat)
    requires Order(c, n) && (x, y) in c
    ensures Plus(Covers(c), x, y)
    decreases |Above(c, n, x)|
  {
    var z := CoverAbove(c, n, x, y);
    PlusStep(Covers(c), x, z);
    if z != y {
      Smaller(Above(c, n, z), Above(c, n, x), z);
      CoversGenerate(c, n, z, y);
      PlusIsReach(Covers(c), z, y);
      PlusReach(Covers(c), x, z, y);
    }
  }

  /** The reduction of the closure has the closure of the input. */
  lemma ReductionKeepsClosure(e: Rel, n: nat)
    requires Within(e, n) && Acyclic(e)
    ensures Within(Covers(Closure(e, n)), n)
    ensures forall x: nat, y: nat :: Plus(Covers(Closure(e, n)), x, y) <==> Plus(e, x, y)
  {
    var c := Closure(e, n);
    ClosureOrder(e, n);
    forall x: nat, y: nat ensures Plus(Covers(c), x, y) <==> Plus(e, x, y) {
      if Plus(e, x, y) { CoversGenerate(c, n, x, y); }
      if Plus(Covers(c), x, y) { PlusInTransitive(Covers(c), c, x, y); }
    }
  }

  /** No edge of the reduction follows from the others. */
  lemma NoRedundantEdge(e: Rel, n: nat, x: nat, y: nat)
    requires Within(e, n) && Acyclic(e) && (x, y) in Covers(Closure(e, n))
    ensures !Plus(Covers(Closure(e, n)) - {(x, y)}, x, y)
  {
    var c := Closure(e, n);
    ClosureOrder(e, n);
    var rest := Covers(c) - {(x, y)};
    if Plus(rest, x, y) {
      var z := PlusFirstStep(rest, x, y);
      ReachIsPlusOrEqual(rest, z, y);
      if z != y { PlusInTransitive(rest, c, z, y); }
    }
  }

  // ----- when the closure is a total order -----

  /** The elements with none or several successors, or predecessors, in r (3041-3068). */
  ghost function NotOneSuccessor(r: Rel, n: nat): (s: set<nat>)
    requires Within(r, n)
    ensures forall x: nat :: x in s <==> x < n && |Above(r, n, x)| != 1
  {
    set x: nat | x in Upto(n) && |Above(r, n, x)| != 1
  }

  ghost function NotOnePredecessor(r: Rel, n: nat): (s: set<nat>)
    requires Within(r, n)
    ensures forall y: nat :: y in s <==> y < n && |Under(r, n, y)| != 1
  {
    set y: nat | y in Upto(n) && |Under(r, n, y)| != 1
  }

  lemma CoversWithin(c: Rel, n: nat)
    requires Within(c, n)
    ensures Within(Covers(c), n)
  {
  }

  lemma SingleMember(s: set<nat>, x: nat, y: nat)
    requires |s| <= 1 && x in s && y in s
    ensures x == y
  {
    if x != y { Smaller({x}, s, y); }
  }

  /** In a total order every element has at most one cover and only the last one has none. */
  lemma TotalHasFewExceptions(c: Rel, n: nat)
    requires Order(c, n) && Total(c, n) && Within(Covers(c), n)
    ensures |NotOneSuccessor(Covers(c), n)| <= 1 && |NotOnePredecessor(Covers(c), n)| <= 1
  {
    var r := Covers(c);
    forall x: nat, y: nat | x in NotOneSuccessor(r, n) && y in NotOneSuccessor(r, n) ensures x == y {
      NoCoverIfOdd(c, n, x);
      NoCoverIfOdd(c, n, y);
    }
    AtMostOne(NotOneSuccessor(r, n));
    forall x: nat, y: nat | x in NotOnePredecessor(r, n) && y in NotOnePredecessor(r, n) ensures x == y {
      NoPredecessorIfOdd(c, n, x);
      NoPredecessorIfOdd(c, n, y);
    }
    AtMostOne(NotOnePredecessor(r, n));
  }

  lemma AtMostOne(s: set<nat>)
    requires forall x: nat, y: nat :: x in s && y in s ==> x == y
    ensures |s| <= 1
  {
    if s != {} {
      var x :| x in s;
      assert s == {x};
    }
  }

  lemma NoCoverIfOdd(c: Rel, n: nat, x: nat)
    requires Order(c, n) && Total(c, n) && Within(Covers(c), n) && x in NotOneSuccessor(Covers(c), n)
    ensures forall y: nat :: (x, y) !in c
  {
    var s := Above(Covers(c), n, x);
    forall y: nat, z: nat | y in s && z in s ensures y == z {
    }
    AtMostOne(s);
    assert s == {};
    if y: nat :| (x, y) in c {
      var z := CoverAbove(c, n, x, y);
    }
  }

  lemma NoPredecessorIfOdd(c: Rel, n: nat, y: nat)
    requires Order(c, n) && Total(c, n) && Within(Covers(c), n) && y in NotOnePredecessor(Covers(c), n)
    ensures forall x: nat :: (x, y) !in c
  {
    var s := Under(Covers(c), n, y);
    forall x: nat, z: nat | x in s && z in s ensures x == z {
    }
    AtMostOne(s);
    assert s == {};
    if x: nat :| (x, y) in c {
      var z := CoverUnder(c, n, x, y);
    }
  }

  /** Something maximal lies above x, something minimal below it. */
  lemma Last(c: Rel, n: nat, x: nat) returns (m: nat)
    requires Order(c, n) && x < n
    ensures m < n && (m == x || (x, m) in c) && forall y: nat :: (m, y) !in c
    decreases |Above(c, n, x)|
  {
    if y: nat :| (x, y) in c {
      Smaller(Above(c, n, y), Above(c, n, x), y);
      m := Last(c, n, y);
    } else {
      m := x;
    }
  }

  lemma First(c: Rel, n: nat, x: nat) returns (m: nat)
    requires Order(c, n) && x < n
    ensures m < n && (m == x || (m, x) in c) && forall y: nat :: (y, m) !in c
    decreases |Under(c, n, x)|
  {
    if y: nat :| (y, x) in c {
      Smaller(Under(c, n, y), Under(c, n, x), y);
      m := First(c, n, y);
    } else {
      m := x;
    }
  }

  lemma NoneIsOdd(c: Rel, n: nat, m: nat)
    requires Order(c, n) && Within(Covers(c), n) && m < n
    ensures (forall y: nat :: (m, y) !in c) ==> m in NotOneSuccessor(Covers(c), n)
    ensures (forall y: nat :: (y, m) !in c) ==> m in NotOnePredecessor(Covers(c), n)
  {
    if forall y: nat :: (m, y) !in c { assert Above(Covers(c), n, m) == {}; }
    if forall y: nat :: (y, m) !in c { assert Under(Covers(c), n, m) == {}; }
  }

  /** With at most one exception on either side any two elements are comparable. */
  lemma FewExceptionsTotal(c: Rel, n: nat, x: nat, y: nat)
    requires Order(c, n) && Within(Covers(c), n) && x < n && y < n && x != y
    requires |NotOneSuccessor(Covers(c), n)| <= 1 && |NotOnePredecessor(Covers(c), n)| <= 1
    ensures (x, y) in c || (y, x) in c
    decreases |Above(c, n, x)|
  {
    var r := Covers(c);
    var m := Last(c, n, x);
    var m2 := Last(c, n, y);
    NoneIsOdd(c, n, m);
    NoneIsOdd(c, n, m2);
    SingleMember(NotOneSuccessor(r, n), m, m2);
    if x != m && y != m {
      var s := CoverAbove(c, n, x, m);
      Smaller(Above(c, n, s), Above(c, n, x), s);
      if s != y {
        FewExceptionsTotal(c, n, s, y);
        if (y, s) in c {
          var p := CoverUnder(c, n, y, s);
          OnePredecessor(c, n, s, x, p);
        }
      }
    }
  }

  lemma OnePredecessor(c: Rel, n: nat, s: nat, x: nat, p: nat)
    requires Order(c, n) && Within(Covers(c), n) && (x, s) in Covers(c) && (p, s) in Covers(c)
    requires |NotOnePredecessor(Covers(c), n)| <= 1
    ensures p == x
  {
    var r := Covers(c);
    var f := First(c, n, s);
    NoneIsOdd(c, n, f);
    if s in NotOnePredecessor(r, n) {
      SingleMember(NotOnePredecessor(r, n), s, f);
    }
    assert |Under(r, n, s)| == 1;
    SingleMember(Under(r, n, s), x, p);
  }

  /** At most one element without exactly one successor, and at most one without exactly one predecessor: that is
      the case exactly for total orders. */
  lemma TotalExactly(e: Rel, n: nat)
    requires Within(e, n) && Acyclic(e) && Within(Covers(Closure(e, n)), n)
    ensures var r := Covers(Closure(e, n));
      |NotOneSuccessor(r, n)| <= 1 && |NotOnePredecessor(r, n)| <= 1 <==> Total(Closure(e, n), n)
  {
    var c := Closure(e, n);
    ClosureOrder(e, n);
    if Total(c, n) {
      TotalHasFewExceptions(c, n);
    }
    if |NotOneSuccessor(Covers(c), n)| <= 1 && |NotOnePredecessor(Covers(c), n)| <= 1 {
      forall x, y | 0 <= x < n && 0 <= y < n && x != y ensures (x, y) in c || (y, x) in c {
        FewExceptionsTotal(c, n, x, y);
      }
    }
  }

  // ----- the matrices of computeTransitiveChangeOfMethodOrderings (3009-3081) -----

  /** The pairs of a flat list x0, y0, x1, y1, ... */
  ghost function PairsOf(ordering: seq<nat>): (e: Rel) {
    var k := |ordering|;
    if k < 2 then {} else PairsOf(ordering[..k - 2]) + {(ordering[k - 2], ordering[k - 1])}
  }

  lemma PairsSnoc(ordering: seq<nat>, x: nat, y: nat)
    ensures PairsOf(ordering + [x, y]) == PairsOf(ordering) + {(x, y)}
  {
    assert (ordering + [x, y])[..|ordering|] == ordering;
  }

  ghost predicate Flat(ordering: seq<nat>, n: nat) {
    |ordering| % 2 == 0 && forall o :: 0 <= o < |ordering| ==> ordering[o] < n
  }

  lemma FlatSnoc(ordering: seq<nat>, n: nat, x: nat, y: nat)
    requires Flat(ordering, n) && x < n && y < n
    ensures Flat(ordering + [x, y], n)
  {
  }

  ghost predicate Readable(ordering: seq<nat>, n: nat) {
    Flat(ordering, n) && Acyclic(PairsOf(ordering))
  }

  lemma PairsWithin(ordering: seq<nat>, n: nat)
    requires Flat(ordering, n)
    ensures Within(PairsOf(ordering), n)
  {
  }

  method Mark(trans: array2<bool>, x: nat, y: nat)
    requires trans.Length0 == trans.Length1 && x < trans.Length0 && y < trans.Length0
    modifies trans
    ensures Marked(trans) == old(Marked(trans)) + {(x, y)}
  {
    ghost var e := Marked(trans);
    trans[x, y] := true;
    assert forall i: nat, j: nat :: (i, j) in Marked(trans) <==> (i, j) in e || (i, j) == (x, y);
  }

  /** Lines 3011-3018. */
  method ToMatrix(ordering: seq<nat>, n: nat) returns (trans: array2<bool>)
    requires Flat(ordering, n)
    ensures fresh(trans) && trans.Length0 == trans.Length1 == n && Marked(trans) == PairsOf(ordering)
  {
    trans := new bool[n, n]((x, y) => false);
    var o := 0;
    while o < |ordering|
      invariant o % 2 == 0 && o <= |ordering|
      invariant Marked(trans) == PairsOf(ordering[..o])
    {
      PairsSnoc(ordering[..o], ordering[o], ordering[o + 1]);
      assert ordering[..o + 2] == ordering[..o] + [ordering[o], ordering[o + 1]];
      Mark(trans, ordering[o], ordering[o + 1]);
      o := o + 2;
    }
    assert ordering[..|ordering|] == ordering;
  }

  /** The pairs of c with no element below k in between. */
  ghost function CoversBelow(c: Rel, k: nat): (r: Rel)
    ensures forall x, y :: (x, y) in r <==> (x, y) in c && !exists m :: 0 <= m < k && (x, m) in c && (m, y) in c
  {
    set p | p in c && !exists m :: 0 <= m < k && (p.0, m) in c && (m, p.1) in c
  }

  /** Lines 3033-3036 for one k: pairs that k lies between are removed. */
  method ReductionRound(trans: array2<bool>, transRed: array2<bool>, k: nat)
    requires trans.Length0 == trans.Length1 == transRed.Length0 == transRed.Length1 && trans != transRed && k < trans.Length0
    modifies transRed
    ensures forall x, y :: 0 <= x < trans.Length0 && 0 <= y < trans.Length0 ==> transRed[x, y] == (old(transRed[x, y]) && !(trans[x, k] && trans[k, y]))
  {
    var n := trans.Length0;
    for x := 0 to n
      invariant forall i, j :: 0 <= i < x && 0 <= j < n ==> transRed[i, j] == (old(transRed[i, j]) && !(trans[i, k] && trans[k, j]))
      invariant forall i, j :: x <= i < n && 0 <= j < n ==> transRed[i, j] == old(transRed[i, j])
    {
      for y := 0 to n
        invariant forall i, j :: 0 <= i < x && 0 <= j < n ==> transRed[i, j] == (old(transRed[i, j]) && !(trans[i, k] && trans[k, j]))
        invariant forall j :: 0 <= j < y ==> transRed[x, j] == (old(transRed[x, j]) && !(trans[x, k] && trans[k, j]))
        invariant forall j :: y <= j < n ==> transRed[x, j] == old(transRed[x, j])
        invariant forall i, j :: x < i < n && 0 <= j < n ==> transRed[i, j] == old(transRed[i, j])
      {
        if trans[x, k] && trans[k, y] { transRed[x, y] := false; }
      }
    }
  }

  ghost function Minus(r: Rel, c: Rel, k: nat): (s: Rel)
    ensures forall x, y :: (x, y) in s <==> (x, y) in r && !((x, k) in c && (k, y) in c)
  {
    set p | p in r && !((p.0, k) in c && (k, p.1) in c)
  }

  method RemoveAround(trans: array2<bool>, transRed: array2<bool>, k: nat)
    requires trans.Length0 == trans.Length1 == transRed.Length0 == transRed.Length1 && trans != transRed && k < trans.Length0
    modifies transRed
    ensures Marked(transRed) == Minus(old(Marked(transRed)), Marked(trans), k)
  {
    ghost var r, c := Marked(transRed), Marked(trans);
    ReductionRound(trans, transRed, k);
    assert forall x: nat, y: nat :: (x, y) in Marked(transRed) <==> (x, y) in Minus(r, c, k);
  }

  lemma CoversBelowNext(c: Rel, k: nat)
    ensures CoversBelow(c, k + 1) == Minus(CoversBelow(c, k), c, k)
  {
    assert forall x, y :: (x, y) in CoversBelow(c, k + 1) <==> (x, y) in Minus(CoversBelow(c, k), c, k);
  }

  lemma CoversBelowAll(c: Rel, n: nat)
    requires Within(c, n)
    ensures CoversBelow(c, n) == Covers(c) && CoversBelow(c, 0) == c
  {
    var r, s := CoversBelow(c, n), Covers(c);
    assert forall x, y :: (x, y) in r <==> (x, y) in s;
  }

  method CopyMatrix(trans: array2<bool>) returns (copy: array2<bool>)
    requires trans.Length0 == trans.Length1
    ensures fresh(copy) && copy.Length0 == copy.Length1 == trans.Length0 && Marked(copy) == Marked(trans)
  {
    var n := trans.Length0;
    copy := new bool[n, n]((x, y) reads trans requires 0 <= x < n && 0 <= y < n && trans.Length0 == trans.Length1 == n => trans[x, y]);
    assert forall x: nat, y: nat :: (x, y) in Marked(copy) <==> (x, y) in Marked(trans);
  }

  /** Lines 3026-3039. */
  method Reduce(trans: array2<bool>) returns (transRed: array2<bool>)
    requires trans.Length0 == trans.Length1
    ensures fresh(transRed) && transRed.Length0 == transRed.Length1 == trans.Length0
    ensures Marked(transRed) == Covers(Marked(trans))
  {
    hide CoversBelow, Covers, Minus;
    ghost var c := Marked(trans);
    transRed := CopyMatrix(trans);
    CoversBelowAll(c, trans.Length0);
    for k := 0 to trans.Length0
      invariant fresh(transRed) && transRed.Length0 == transRed.Length1 == trans.Length0
      invariant Marked(trans) == c && Marked(transRed) == CoversBelow(c, k)
    {
      RemoveAround(trans, transRed, k);
      CoversBelowNext(c, k);
    }
  }

  // ----- counting (3042-3066) -----

  ghost function AboveUpTo(e: Rel, x: nat, k: nat): (s: set<nat>)
    ensures forall y: nat :: y in s <==> y < k && (x, y) in e
  {
    set y: nat | y in Upto(k) && (x, y) in e
  }

  ghost function UnderUpTo(e: Rel, y: nat, k: nat): (s: set<nat>)
    ensures forall x: nat :: x in s <==> x < k && (x, y) in e
  {
    set x: nat | x in Upto(k) && (x, y) in e
  }

  lemma Grown(a: set<nat>, b: set<nat>, k: nat, more: bool)
    requires forall x: nat :: x in b <==> x in a || (more && x == k)
    requires k !in a
    ensures |b| == |a| + (if more then 1 else 0)
  {
    if more { assert b == a + {k}; } else { assert b == a; }
  }

  lemma OneMore(e: Rel, x: nat, k: nat)
    ensures |AboveUpTo(e, x, k + 1)| == |AboveUpTo(e, x, k)| + (if (x, k) in e then 1 else 0)
    ensures |UnderUpTo(e, x, k + 1)| == |UnderUpTo(e, x, k)| + (if (k, x) in e then 1 else 0)
  {
    hide *;
    Grown(AboveUpTo(e, x, k), AboveUpTo(e, x, k + 1), k, (x, k) in e);
    Grown(UnderUpTo(e, x, k), UnderUpTo(e, x, k + 1), k, (k, x) in e);
  }

  /** The pairs of e that begin with x and end before k. */
  ghost function RowUpTo(e: Rel, x: nat, k: nat): (r: Rel)
    ensures forall a, b :: (a, b) in r <==> (a, b) in e && a == x && b < k
  {
    set p | p in e && p.0 == x && p.1 < k
  }

  ghost function RowsUpTo(e: Rel, k: nat): (r: Rel)
    ensures forall a, b :: (a, b) in r <==> (a, b) in e && a < k
  {
    set p | p in e && p.0 < k
  }

  lemma RowNext(e: Rel, x: nat, k: nat)
    ensures RowUpTo(e, x, k + 1) == RowUpTo(e, x, k) + (if (x, k) in e then {(x, k)} else {})
    ensures RowUpTo(e, x, 0) == {} && AboveUpTo(e, x, 0) == {}
  {
  }

  lemma RowsNext(e: Rel, x: nat, n: nat)
    requires Within(e, n)
    ensures RowsUpTo(e, x + 1) == RowsUpTo(e, x) + RowUpTo(e, x, n)
    ensures RowsUpTo(e, n) == e
  {
  }

  /** Lines 3045-3050 for one x: its pairs are listed and counted. */
  method ListRow(trans: array2<bool>, x: nat, ord0: seq<nat>) returns (ord: seq<nat>, numSucc: nat)
    requires trans.Length0 == trans.Length1 && x < trans.Length0
    requires Flat(ord0, trans.Length0)
    ensures Flat(ord, trans.Length0)
    ensures PairsOf(ord) == PairsOf(ord0) + RowUpTo(Marked(trans), x, trans.Length0)
    ensures |ord| == |ord0| + 2 * numSucc
    ensures numSucc == |Above(Marked(trans), trans.Length0, x)|
  {
    hide Above, AboveUpTo, PairsOf, RowUpTo, Flat;
    ghost var e := Marked(trans);
    ord, numSucc := ord0, 0;
    RowNext(e, x, 0);
    for y := 0 to trans.Length0
      invariant Flat(ord, trans.Length0)
      invariant PairsOf(ord) == PairsOf(ord0) + RowUpTo(e, x, y)
      invariant |ord| == |ord0| + 2 * numSucc && numSucc == |AboveUpTo(e, x, y)|
    {
      OneMore(e, x, y);
      RowNext(e, x, y);
      if trans[x, y] {
        numSucc := numSucc + 1;
        PairsSnoc(ord, x, y);
        FlatSnoc(ord, trans.Length0, x, y);
        ord := ord + [x, y];
      }
    }
    assert AboveUpTo(e, x, trans.Length0) == Above(e, trans.Length0, x);
  }

  ghost predicate SomeMany(e: Rel, n: nat, k: nat, above: bool)
    requires Within(e, n)
  {
    exists x: nat :: x < k && (if above then |Above(e, n, x)| > 1 else |Under(e, n, x)| > 1)
  }

  /** The exceptions below k. */
  ghost function OddUpTo(e: Rel, n: nat, k: nat, above: bool): (s: set<nat>)
    requires Within(e, n)
    ensures forall x: nat :: x in s <==> x < k && (if above then |Above(e, n, x)| != 1 else |Under(e, n, x)| != 1)
  {
    set x: nat | x in Upto(k) && (if above then |Above(e, n, x)| != 1 else |Under(e, n, x)| != 1)
  }

  lemma OddNext(e: Rel, n: nat, k: nat, above: bool)
    requires Within(e, n)
    ensures var m := if above then |Above(e, n, k)| else |Under(e, n, k)|;
      && |OddUpTo(e, n, k + 1, above)| == |OddUpTo(e, n, k, above)| + (if m != 1 then 1 else 0)
      && (SomeMany(e, n, k + 1, above) <==> SomeMany(e, n, k, above) || m > 1)
  {
    var m := if above then |Above(e, n, k)| else |Under(e, n, k)|;
    hide Above, Under, OddUpTo;
    Grown(OddUpTo(e, n, k, above), OddUpTo(e, n, k + 1, above), k, m != 1);
  }

  lemma OddAll(e: Rel, n: nat)
    requires Within(e, n)
    ensures OddUpTo(e, n, n, true) == NotOneSuccessor(e, n) && OddUpTo(e, n, n, false) == NotOnePredecessor(e, n)
    ensures OddUpTo(e, n, 0, true) == OddUpTo(e, n, 0, false) == {}
  {
  }

  /** Lines 3042-3053. */
  method CountSuccessors(trans: array2<bool>) returns (ord: seq<nat>, notOneSuccessor: nat, notZeroOrOneSuccessor: bool)
    requires trans.Length0 == trans.Length1
    ensures Flat(ord, trans.Length0) && PairsOf(ord) == Marked(trans)
    ensures notOneSuccessor == |NotOneSuccessor(Marked(trans), trans.Length0)|
    ensures notZeroOrOneSuccessor <==> SomeMany(Marked(trans), trans.Length0, trans.Length0, true)
  {
    hide Above, OddUpTo, SomeMany, NotOneSuccessor, PairsOf, RowsUpTo, RowUpTo, Marked, Flat;
    assert Flat([], trans.Length0) by { NothingFlat(trans.Length0); }
    ghost var e, n := Marked(trans), trans.Length0;
    ord, notOneSuccessor, notZeroOrOneSuccessor := [], 0, false;
    OddAll(e, n);
    NoPairs(e, n);
    for x := 0 to trans.Length0
      invariant Flat(ord, trans.Length0)
      invariant PairsOf(ord) == RowsUpTo(e, x)
      invariant notOneSuccessor == |OddUpTo(e, n, x, true)|
      invariant notZeroOrOneSuccessor <==> SomeMany(e, n, x, true)
    {
      var numSucc;
      ord, numSucc := ListRow(trans, x, ord);
      RowsNext(e, x, n);
      OddNext(e, n, x, true);
      if numSucc != 1 { notOneSuccessor := notOneSuccessor + 1; }
      if numSucc > 1 { notZeroOrOneSuccessor := true; }
    }
    RowsNext(e, n, n);
  }

  lemma NothingFlat(n: nat)
    ensures Flat([], n)
  {
  }

  lemma NoPairs(e: Rel, n: nat)
    requires Within(e, n)
    ensures PairsOf([]) == RowsUpTo(e, 0) && !SomeMany(e, n, 0, true) && !SomeMany(e, n, 0, false)
  {
  }

  method CountColumn(trans: array2<bool>, y: nat) returns (numPrec: nat)
    requires trans.Length0 == trans.Length1 && y < trans.Length0
    ensures numPrec == |Under(Marked(trans), trans.Length0, y)|
  {
    hide Under, UnderUpTo, AboveUpTo;
    ghost var e := Marked(trans);
    numPrec := 0;
    assert UnderUpTo(e, y, 0) == {};
    for x := 0 to trans.Length0
      invariant numPrec == |UnderUpTo(e, y, x)|
    {
      OneMore(e, y, x);
      if trans[x, y] { numPrec := numPrec + 1; }
    }
    assert UnderUpTo(e, y, trans.Length0) == Under(e, trans.Length0, y);
  }

  /** Lines 3056-3066. */
  method CountPredecessors(trans: array2<bool>) returns (notOnePredecessor: nat, notZeroOrOnePredecessor: bool)
    requires trans.Length0 == trans.Length1
    ensures notOnePredecessor == |NotOnePredecessor(Marked(trans), trans.Length0)|
    ensures notZeroOrOnePredecessor <==> SomeMany(Marked(trans), trans.Length0, trans.Length0, false)
  {
    hide Under, OddUpTo, SomeMany, NotOnePredecessor, Marked;
    ghost var e, n := Marked(trans), trans.Length0;
    notOnePredecessor, notZeroOrOnePredecessor := 0, false;
    OddAll(e, n);
    NoPairs(e, n);
    for y := 0 to trans.Length0
      invariant notOnePredecessor == |OddUpTo(e, n, y, false)|
      invariant notZeroOrOnePredecessor <==> SomeMany(e, n, y, false)
    {
      var numPrec := CountColumn(trans, y);
      OddNext(e, n, y, false);
      if numPrec != 1 { notOnePredecessor := notOnePredecessor + 1; }
      if numPrec > 1 { notZeroOrOnePredecessor := true; }
    }
  }

  // ----- the flags (3067-3075) -----

  /** An element with two covers, or two elements that one covers. */
  ghost predicate Forks(r: Rel, n: nat)
    requires Within(r, n)
  {
    SomeMany(r, n, n, true)
  }

  ghost predicate Joins(r: Rel, n: nat)
    requires Within(r, n)
  {
    SomeMany(r, n, n, false)
  }

  /** Neither: the steps form sequences side by side. */
  ghost predicate Chains(r: Rel, n: nat)
    requires Within(r, n)
  {
    !Forks(r, n) && !Joins(r, n)
  }

  lemma TotalHasChains(c: Rel, n: nat)
    requires Order(c, n) && Total(c, n) && Within(Covers(c), n)
    ensures Chains(Covers(c), n)
  {
    forall x: nat | x < n ensures |Above(Covers(c), n, x)| <= 1 && |Under(Covers(c), n, x)| <= 1 {
      AtMostOne(Above(Covers(c), n, x));
      AtMostOne(Under(Covers(c), n, x));
    }
  }

  /** A method as far as its ordering goes. */
  ghost predicate IsTotal(e: Rel, n: nat)
    requires Within(e, n)
  {
    Total(Closure(e, n), n)
  }

  /** What the three flags ask of one method, read off the code. */
  ghost predicate PathsOk(e: Rel, n: nat, isInitial: bool)
    requires Within(e, n) && Within(Covers(Closure(e, n)), n)
  {
    IsTotal(e, n) || (isInitial && !Forks(Covers(Closure(e, n)), n))
  }

  ghost predicate SequencesOk(e: Rel, n: nat, isInitial: bool)
    requires Within(e, n) && Within(Covers(Closure(e, n)), n)
  {
    IsTotal(e, n) || (isInitial && !(Forks(Covers(Closure(e, n)), n) && Joins(Covers(Closure(e, n)), n)))
  }

  /** The flag for parallel sequences accepts a method exactly when it is a total order or the initial method with
      sequences side by side, or the initial method with forks only or joins only, which is none of them. */
  lemma SequencesExactly(e: Rel, n: nat, isInitial: bool)
    requires Within(e, n) && Acyclic(e) && Within(Covers(Closure(e, n)), n)
    ensures var r := Covers(Closure(e, n));
      SequencesOk(e, n, isInitial) <==> IsTotal(e, n) || (isInitial && Chains(r, n)) || (isInitial && (Forks(r, n) <==> !Joins(r, n)))
  {
  }

  lemma ClosureOfTransitive(e: Rel, n: nat)
    requires Within(e, n) && Transitive(e)
    ensures Closure(e, n) == e
  {
    forall x: nat, y: nat ensures Plus(e, x, y) <==> (x, y) in e {
      if Plus(e, x, y) { PlusInTransitive(e, e, x, y); }
      if (x, y) in e { PlusStep(e, x, y); }
    }
    var c := Closure(e, n);
    forall p | p in c ensures p in e {
      var x, y := p.0, p.1;
      assert (x, y) in c;
    }
    forall p | p in e ensures p in c {
      var x, y := p.0, p.1;
      assert (x, y) in e;
    }
  }

  function Fork(): Rel {
    {(0, 1), (0, 2)}
  }

  lemma ForkReduced()
    ensures Within(Fork(), 3) && Transitive(Fork()) && Covers(Fork()) == Fork()
  {
    var r := Covers(Fork());
    assert forall x: nat, y: nat :: (x, y) in r <==> (x, y) in Fork();
  }

  lemma ForkCounts(r: Rel)
    requires r == Fork() && Within(r, 3)
    ensures Forks(r, 3) && !Joins(r, 3)
  {
    assert 1 in Above(r, 3, 0) && 2 in Above(r, 3, 0);
    Smaller({1}, Above(r, 3, 0), 2);
    forall x: nat | x < 3 ensures |Under(r, 3, x)| <= 1 { AtMostOne(Under(r, 3, x)); }
  }

  /** An initial method in which one step precedes two others is no set of sequences, but the flag survives it. */
  lemma ForkAccepted()
    ensures Within(Fork(), 3) && Acyclic(Fork()) && Within(Covers(Closure(Fork(), 3)), 3)
    ensures SequencesOk(Fork(), 3, true) && !IsTotal(Fork(), 3) && !Chains(Covers(Closure(Fork(), 3)), 3)
  {
    ForkReduced();
    ClosureOfTransitive(Fork(), 3);
    ForkCounts(Fork());
    forall x: nat ensures !Plus(Fork(), x, x) {
      if Plus(Fork(), x, x) { PlusInTransitive(Fork(), Fork(), x, x); }
    }
    hide Forks, Joins, Covers, Closure;
    assert !((1, 2) in Fork() || (2, 1) in Fork());
  }

  class Model {
    const numSubTasks: seq<nat>
    const decomposedTask: seq<nat>
    const initialTask: nat
    const ordering: array<seq<nat>>
    var isTotallyOrdered: bool
    var isUniquePaths: bool
    var isParallelSequences: bool

    ghost predicate Shape()
      reads this, ordering
    {
      |numSubTasks| == |decomposedTask| == ordering.Length
    }

    ghost predicate Read(i: nat)
      reads this, ordering
    {
      i < ordering.Length && i < |numSubTasks| && Readable(ordering[i], numSubTasks[i])
    }

    /** computeTransitiveChangeOfMethodOrderings. */
    method ComputeTransitiveChange(closure: bool, i: nat)
      requires Shape() && Read(i)
      modifies this, ordering
      ensures forall j :: 0 <= j < ordering.Length && j != i ==> ordering[j] == old(ordering[j])
      ensures var n, e := numSubTasks[i], old(PairsOf(ordering[i]));
        && Within(e, n) && Flat(ordering[i], n) && Within(Covers(Closure(e, n)), n)
        && PairsOf(ordering[i]) == (if closure then Closure(e, n) else Covers(Closure(e, n)))
        && (closure ==> unchanged(this))
        && (!closure ==> (isTotallyOrdered <==> old(isTotallyOrdered) && IsTotal(e, n)))
        && (!closure ==> (isUniquePaths <==> old(isUniquePaths) && PathsOk(e, n, decomposedTask[i] == initialTask)))
        && (!closure ==> (isParallelSequences <==> old(isParallelSequences) && SequencesOk(e, n, decomposedTask[i] == initialTask)))
    {
      hide PairsOf, Flat, Marked, Covers, Closure, NotOneSuccessor, NotOnePredecessor, SomeMany, Acyclic, IsTotal;
      var n := numSubTasks[i];
      PairsWithin(ordering[i], n);
      ghost var e := PairsOf(ordering[i]);
      var trans := ToMatrix(ordering[i], n);
      Warshall(trans);
      ClosureTransitive(e, n);
      CoversWithin(Closure(e, n), n);
      if !closure {
        trans := Reduce(trans);
      }
      var ord, notOneSuccessor, notZeroOrOneSuccessor := CountSuccessors(trans);
      if !closure {
        var notOnePredecessor, notZeroOrOnePredecessor := CountPredecessors(trans);
        TotalExactly(e, n);
        FlagFacts(e, n);
        if notOneSuccessor > 1 || notOnePredecessor > 1 {
          isTotallyOrdered := false;
          if notZeroOrOneSuccessor || decomposedTask[i] != initialTask {
            isUniquePaths := false;
            if notZeroOrOnePredecessor || decomposedTask[i] != initialTask {
              isParallelSequences := false;
            }
          }
        }
      }
      ordering[i] := ord;
    }

    /** What reading has to say about the methods below k, whose input orderings were input. */
    ghost predicate ReadBefore(input: seq<seq<nat>>, k: nat)
      reads this, ordering
      requires Shape() && |input| == ordering.Length && k <= |input| && forall i :: 0 <= i < |input| ==> Readable(input[i], numSubTasks[i])
    {
      && (forall i :: 0 <= i < k ==> Reduced(input[i], ordering[i], numSubTasks[i]))
      && (forall i :: k <= i < |input| ==> ordering[i] == input[i])
      && (isTotallyOrdered <==> forall i :: 0 <= i < k ==> TotalInput(input[i], numSubTasks[i]))
      && (isUniquePaths <==> forall i :: 0 <= i < k ==> PathInput(input[i], numSubTasks[i], decomposedTask[i] == initialTask))
      && (isParallelSequences <==> forall i :: 0 <= i < k ==> SequenceInput(input[i], numSubTasks[i], decomposedTask[i] == initialTask))
    }

    /** Lines 1860-1894: afterwards every ordering is the reduction of what was read, isTotallyOrdered holds exactly
        when every method's closure is a total order, and the other flags exactly when every method passes their tests. */
    method ReadMethods()
      requires Shape() && forall i :: 0 <= i < ordering.Length ==> Readable(ordering[i], numSubTasks[i])
      modifies this, ordering
      ensures Shape()
      ensures forall i :: 0 <= i < ordering.Length ==> Reduced(old(ordering[..])[i], ordering[i], numSubTasks[i])
      ensures isTotallyOrdered <==> forall i :: 0 <= i < ordering.Length ==> TotalInput(old(ordering[..])[i], numSubTasks[i])
      ensures isUniquePaths <==>
        forall i :: 0 <= i < ordering.Length ==> PathInput(old(ordering[..])[i], numSubTasks[i], decomposedTask[i] == initialTask)
      ensures isParallelSequences <==>
        forall i :: 0 <= i < ordering.Length ==> SequenceInput(old(ordering[..])[i], numSubTasks[i], decomposedTask[i] == initialTask)
    {
      hide Readable, Reduced, TotalInput, PathInput, SequenceInput, PairsOf, Flat;
      isTotallyOrdered := true;
      isUniquePaths := true;
      isParallelSequences := true;
      ghost var input := ordering[..];
      for i := 0 to ordering.Length
        invariant Shape() && ReadBefore(input, i)
      {
        assert Readable(input[i], numSubTasks[i]);
        ComputeTransitiveChange(false, i);
        ReadOne(input[i], ordering[i], numSubTasks[i], decomposedTask[i] == initialTask);
      }
    }
  }

  /** output is the reduction of input: the same closure, and no edge follows from the others. */
  ghost predicate Reduced(input: seq<nat>, output: seq<nat>, n: nat) {
    && Flat(output, n)
    && (forall x: nat, y: nat :: Plus(PairsOf(output), x, y) <==> Plus(PairsOf(input), x, y))
    && (forall x: nat, y: nat :: (x, y) in PairsOf(output) ==> !Plus(PairsOf(output) - {(x, y)}, x, y))
  }

  ghost predicate TotalInput(input: seq<nat>, n: nat) {
    Within(PairsOf(input), n) && IsTotal(PairsOf(input), n)
  }

  ghost predicate PathInput(input: seq<nat>, n: nat, isInitial: bool) {
    var e := PairsOf(input);
    Within(e, n) && Within(Covers(Closure(e, n)), n) && PathsOk(e, n, isInitial)
  }

  ghost predicate SequenceInput(input: seq<nat>, n: nat, isInitial: bool) {
    var e := PairsOf(input);
    Within(e, n) && Within(Covers(Closure(e, n)), n) && SequencesOk(e, n, isInitial)
  }

  lemma ReadOne(input: seq<nat>, output: seq<nat>, n: nat, isInitial: bool)
    requires Readable(input, n) && Flat(output, n) && Within(PairsOf(input), n)
    requires PairsOf(output) == Covers(Closure(PairsOf(input), n))
    ensures Reduced(input, output, n)
    ensures TotalInput(input, n) <==> IsTotal(PairsOf(input), n)
    ensures Within(Covers(Closure(PairsOf(input), n)), n)
    ensures PathInput(input, n, isInitial) <==> PathsOk(PairsOf(input), n, isInitial)
    ensures SequenceInput(input, n, isInitial) <==> SequencesOk(PairsOf(input), n, isInitial)
  {
    var e := PairsOf(input);
    ReductionKeepsClosure(e, n);
    forall x: nat, y: nat | (x, y) in PairsOf(output) ensures !Plus(PairsOf(output) - {(x, y)}, x, y) {
      NoRedundantEdge(e, n, x, y);
    }
  }

  lemma FlagFacts(e: Rel, n: nat)
    requires Within(e, n) && Within(Covers(Closure(e, n)), n)
    ensures IsTotal(e, n) <==> Total(Closure(e, n), n)
  {
  }
}
