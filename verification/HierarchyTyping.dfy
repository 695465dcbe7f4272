/** Hierarchy typing (pandaPIgrounder: hierarchy-typing.cpp:21-109, 167-225, 228-319, 499-682), without static precondition checks:
    which constants the variables of tasks and methods can take below the top task. */
module HierarchyTyping {

  /** A std::set<int>, in its order. The singleton of -s-1 stands for all members of sort s. */
  type Constants = seq<int>

  type Possible = seq<Constants>

  datatype Constraint = Constraint(equal: bool, var1: nat, var2: nat)

  datatype Subtask = Subtask(task: nat, arguments: seq<nat>)

  datatype Task = Task(variableSorts: seq<nat>, constraints: seq<Constraint>, methods: seq<nat>)

  datatype Method = Method(variableSorts: seq<nat>, parameters: seq<nat>, constraints: seq<Constraint>, subtasks: seq<Subtask>)

  datatype Domain = Domain(constants: nat, sorts: seq<Constants>, tasks: seq<Task>, methods: seq<Method>)
  {
    ghost predicate Valid() {
      && (forall s :: 0 <= s < |sorts| ==> SetOk(sorts[s], constants))
      && (forall t :: 0 <= t < |tasks| ==> TaskOk(tasks[t]))
      && (forall m :: 0 <= m < |methods| ==> MethodOk(methods[m]))
    }

    ghost predicate TaskOk(t: Task) {
      && (forall v :: 0 <= v < |t.variableSorts| ==> t.variableSorts[v] < |sorts|) && ConstraintsOk(t.constraints, |t.variableSorts|)
      && (forall i :: 0 <= i < |t.methods| ==> t.methods[i] < |methods| && |methods[t.methods[i]].parameters| == |t.variableSorts|)
    }

    ghost predicate MethodOk(m: Method) {
      && (forall v :: 0 <= v < |m.variableSorts| ==> m.variableSorts[v] < |sorts|) && ConstraintsOk(m.constraints, |m.variableSorts|)
      && (forall i :: 0 <= i < |m.parameters| ==> m.parameters[i] < |m.variableSorts|)
      && (forall k :: 0 <= k < |m.subtasks| ==> SubtaskOk(m.subtasks[k], |m.variableSorts|))
    }

    ghost predicate SubtaskOk(s: Subtask, n: nat) {
      s.task < |tasks| && |s.arguments| == |tasks[s.task].variableSorts| && forall i :: 0 <= i < |s.arguments| ==> s.arguments[i] < n
    }
  }

  ghost predicate ConstraintsOk(constraints: seq<Constraint>, n: nat) {
    forall c :: 0 <= c < |constraints| ==> constraints[c].var1 < n && constraints[c].var2 < n
  }

  ghost predicate Increasing(s: Constants) {
    forall i, j :: 0 <= i < j < |s| ==> s[i] < s[j]
  }

  ghost predicate SetOk(s: Constants, n: nat) {
    Increasing(s) && forall i :: 0 <= i < |s| ==> 0 <= s[i] < n
  }

  // ----- intersecting (21-63) -----

  function Code(sort: nat): int {
    0 - sort - 1
  }

  predicate Coded(s: Constants) {
    |s| == 1 && s[0] < 0
  }

  ghost predicate CodedOk(d: Domain, s: Constants) {
    if Coded(s) then -s[0] - 1 < |d.sorts| else SetOk(s, d.constants)
  }

  function Decoded(d: Domain, s: Constants): Constants {
    if Coded(s) && -s[0] - 1 < |d.sorts| then d.sorts[-s[0] - 1] else s
  }

  lemma DecodedOk(d: Domain, s: Constants)
    requires d.Valid() && CodedOk(d, s)
    ensures SetOk(Decoded(d, s), d.constants)
  {
  }

  /** The elements of s that belong to t. */
  method Filter(s: Constants, t: Constants, ghost n: nat) returns (r: Constants)
    requires SetOk(s, n)
    ensures SetOk(r, n) && forall x :: x in r <==> x in s && x in t
  {
    r := [];
    for i := 0 to |s|
      invariant SetOk(r, n) && (forall x :: x in r <==> x in s[..i] && x in t) && (|r| > 0 ==> i > 0 && r[|r| - 1] <= s[i - 1])
    {
      assert s[..i + 1] == s[..i] + [s[i]];
      if s[i] in t { r := r + [s[i]]; }
    }
    assert s[..|s|] == s;
  }

  /** x lies above all of b. */
  ghost predicate Above(b: Constants, x: int) {
    forall j :: 0 <= j < |b| ==> b[j] < x
  }

  /** The scan stands at a[i] and b[j], r holds what was kept of a[..i]. */
  ghost predicate Merging(a: Constants, b: Constants, r: Constants, i: nat, j: nat) {
    && i <= |a| && j <= |b| && Increasing(r) && (|r| > 0 ==> i > 0 && r[|r| - 1] <= a[i - 1])
    && (forall x :: x in r <==> x in a[..i] && x in b)
    && (forall l, k :: 0 <= l < j && i <= k < |a| ==> b[l] < a[k])
    && (forall k :: 0 <= k < i ==> exists l :: 0 <= l < |b| && b[l] >= a[k])
  }

  /** Lines 48-60: elements of a below the last one of b that are missing in b are erased; the rest of a stays. */
  method Merge(a: Constants, b: Constants, ghost n: nat) returns (r: Constants)
    requires SetOk(a, n) && Increasing(b)
    ensures SetOk(r, n) && forall x :: x in r <==> x in a && (x in b || Above(b, x))
  {
    hide *;
    var i, j := 0, 0;
    r := [];
    MergeStart(a, b);
    while i < |a| && j < |b|
      invariant 0 <= i <= |a| && 0 <= j <= |b| && Merging(a, b, r, i, j)
      decreases |a| - i + |b| - j
    {
      MergeStep(a, b, r, i, j, n);
      if a[i] < b[j] {
        i := i + 1;
      } else if a[i] > b[j] {
        j := j + 1;
      } else {
        r := r + [a[i]];
        i, j := i + 1, j + 1;
      }
    }
    MergeTail(a, b, r, i, j, n);
    MergeDone(a, b, r, i, j);
    r := r + a[i..];
  }

  lemma MergeStart(a: Constants, b: Constants)
    ensures Merging(a, b, [], 0, 0)
  {
  }

  lemma Missing(a: Constants, b: Constants, i: nat, j: nat)
    requires i < |a| && j < |b| && a[i] < b[j] && Increasing(b) && forall l :: 0 <= l < j ==> b[l] < a[i]
    ensures a[i] !in b
  {
  }

  lemma MergeStep(a: Constants, b: Constants, r: Constants, i: nat, j: nat, n: nat)
    requires SetOk(a, n) && Increasing(b) && Merging(a, b, r, i, j) && i < |a| && j < |b|
    ensures a[i] < b[j] ==> Merging(a, b, r, i + 1, j)
    ensures a[i] > b[j] ==> Merging(a, b, r, i, j + 1)
    ensures a[i] == b[j] ==> Merging(a, b, r + [a[i]], i + 1, j + 1)
  {
    assert a[..i + 1] == a[..i] + [a[i]];
    if a[i] < b[j] { Missing(a, b, i, j); }
  }

  lemma MergeTail(a: Constants, b: Constants, r: Constants, i: nat, j: nat, n: nat)
    requires SetOk(a, n) && Merging(a, b, r, i, j)
    ensures SetOk(r + a[i..], n)
  {
    forall k | 0 <= k < |r| ensures r[k] in a[..i] { assert r[k] in r; }
  }

  lemma MergeDone(a: Constants, b: Constants, r: Constants, i: nat, j: nat)
    requires Merging(a, b, r, i, j) && (i == |a| || j == |b|)
    ensures forall x :: x in r + a[i..] <==> x in a && (x in b || Above(b, x))
  {
    assert a == a[..i] + a[i..];
    forall k | i <= k < |a| ensures Above(b, a[k]) { }
    forall k | 0 <= k < i ensures !Above(b, a[k]) { }
    forall x | x in a[i..] ensures Above(b, x) {
      var k :| 0 <= k < |a[i..]| && a[i..][k] == x;
      assert a[i + k] == x;
    }
    forall x | x in a[..i] ensures !Above(b, x) {
      var k :| 0 <= k < |a[..i]| && a[..i][k] == x;
      assert a[k] == x;
    }
  }

  /** Neither set is a whole sort or more than ten times as large as the other. */
  ghost predicate SameMagnitude(d: Domain, a: Constants, b: Constants) {
    !Coded(a) && |a| <= 10 * |Decoded(d, b)| && |Decoded(d, b)| <= 10 * |a|
  }

  /** What is left of a: the common elements and, for sets of the same magnitude, those above all of b. */
  ghost predicate Remains(d: Domain, a: Constants, b: Constants, x: int) {
    x in Decoded(d, a) && (x in Decoded(d, b) || (SameMagnitude(d, a, b) && Above(Decoded(d, b), x)))
  }

  /** intersect: nothing common is lost and nothing is added, but the third branch leaves the tail of a. */
  method Intersect(d: Domain, a: Constants, bParameter: Constants) returns (r: Constants)
    requires d.Valid() && CodedOk(d, a) && CodedOk(d, bParameter)
    ensures SetOk(r, d.constants) && forall x :: x in r <==> Remains(d, a, bParameter, x)
  {
    DecodedOk(d, a);
    DecodedOk(d, bParameter);
    var b := Decoded(d, bParameter);
    hide Domain.Valid;
    if Coded(a) {
      r := Filter(b, d.sorts[-a[0] - 1], d.constants);
    } else if |a| > 10 * |b| {
      r := Filter(b, a, d.constants);
    } else if |b| > 10 * |a| {
      r := Filter(a, b, d.constants);
    } else {
      r := Merge(a, b, d.constants);
    }
  }

  /** The result is the intersection if and only if no element of a lies above all of b, or the sets differ in magnitude. */
  lemma IntersectionExactly(d: Domain, a: Constants, b: Constants)
    ensures (forall x :: Remains(d, a, b, x) <==> x in Decoded(d, a) && x in Decoded(d, b)) <==>
      !(SameMagnitude(d, a, b) && exists i :: 0 <= i < |a| && Above(Decoded(d, b), a[i]))
  {
    var db := Decoded(d, b);
    if SameMagnitude(d, a, b) && exists i :: 0 <= i < |a| && Above(db, a[i]) {
      var i :| 0 <= i < |a| && Above(db, a[i]);
      var x := a[i];
      assert x !in db && Remains(d, a, b, x);
    }
  }

  /** It is not in general: 3 stays in {1, 3} although it is not in {1, 2}. */
  lemma IntersectionNotExact()
    ensures exists d: Domain, a: Constants, b: Constants, x :: Remains(d, a, b, x) && x !in Decoded(d, b)
  {
    var d, a, b := Domain(4, [], [], []), [1, 3], [1, 2];
    assert a[1] == 3 && Remains(d, a, b, 3) && 3 !in Decoded(d, b);
  }

  // ----- constraints (66-109) -----

  ghost predicate Satisfies(c: Constraint, s: seq<int>)
    requires c.var1 < |s| && c.var2 < |s|
  {
    if c.equal then s[c.var1] == s[c.var2] else s[c.var1] != s[c.var2]
  }

  ghost predicate Holds(constraints: seq<Constraint>, s: seq<int>) {
    ConstraintsOk(constraints, |s|) && forall c :: 0 <= c < |constraints| ==> Satisfies(constraints[c], s)
  }

  /** The values lie in the sets. */
  ghost predicate Fits(s: seq<int>, p: Possible) {
    |s| == |p| && forall v :: 0 <= v < |p| ==> s[v] in p[v]
  }

  ghost predicate PossibleOk(p: Possible, n: nat) {
    forall v :: 0 <= v < |p| ==> SetOk(p[v], n)
  }

  function TotalSize(p: Possible): nat {
    if |p| == 0 then 0 else TotalSize(p[..|p| - 1]) + |p[|p| - 1]|
  }

  lemma {:induction false} TotalUpdate(p: Possible, v: nat, s: Constants)
    requires v < |p|
    ensures TotalSize(p[v := s]) == TotalSize(p) - |p[v]| + |s|
    decreases |p|
  {
    var n := |p| - 1;
    if v < n {
      TotalUpdate(p[..n], v, s);
      assert p[v := s][..n] == p[..n][v := s];
    } else {
      assert p[v := s][..n] == p[..n];
    }
  }

  /** The constraint cannot reduce the sets further. */
  ghost predicate Settled(c: Constraint, p: Possible) {
    c.var1 < |p| && c.var2 < |p| &&
    if c.equal then p[c.var1] == p[c.var2]
    else (|p[c.var1]| == 1 ==> p[c.var1][0] !in p[c.var2]) && (|p[c.var2]| == 1 ==> p[c.var2][0] !in p[c.var1])
  }

  ghost predicate AllSettled(constraints: seq<Constraint>, n: nat, p: Possible) {
    n <= |constraints| && forall c :: 0 <= c < n ==> Settled(constraints[c], p)
  }

  /** What is left when the value of v, if it has only one, is erased from w. */
  ghost predicate Erased(v: nat, w: nat, p: Possible, r: Possible) {
    |r| == |p| && v < |p| && forall u, x {:trigger x in r[u]} :: 0 <= u < |p| ==> (x in r[u] <==> x in p[u] && !(u == w && |p[v]| == 1 && p[v][0] == x))
  }

  /** Both variables are left with their common values. */
  ghost predicate Equalized(v: nat, w: nat, p: Possible, r: Possible) {
    |r| == |p| && v < |p| && w < |p| && forall u, x {:trigger x in r[u]} :: 0 <= u < |p| ==> (x in r[u] <==> if u == v || u == w then x in p[v] && x in p[w] else x in p[u])
  }

  /** What one constraint does to the sets: the common values for both variables, or an erasure from either side. */
  ghost predicate Effect(c: Constraint, p: Possible, r: Possible) {
    |r| == |p| && c.var1 < |p| && c.var2 < |p| &&
    if c.equal then Equalized(c.var1, c.var2, p, r) else
      exists q {:trigger Erased(c.var1, c.var2, p, q)} :: Erased(c.var1, c.var2, p, q) && Erased(c.var2, c.var1, q, r)
  }

  ghost predicate EffectOfSome(constraints: seq<Constraint>, p: Possible, r: Possible) {
    exists c :: 0 <= c < |constraints| && Effect(constraints[c], p, r)
  }

  ghost predicate Steps(constraints: seq<Constraint>, ps: seq<Possible>) {
    forall i :: 0 <= i < |ps| - 1 ==> EffectOfSome(constraints, ps[i], ps[i + 1])
  }

  /** The sets r come from p by the effects of constraints and nothing else. */
  ghost predicate NarrowsTo(constraints: seq<Constraint>, p: Possible, r: Possible) {
    exists ps: seq<Possible> :: |ps| > 0 && ps[0] == p && ps[|ps| - 1] == r && Steps(constraints, ps)
  }

  lemma NarrowsSelf(constraints: seq<Constraint>, p: Possible)
    ensures NarrowsTo(constraints, p, p)
  {
    var ps := [p];
    assert |ps| > 0 && ps[0] == p && ps[|ps| - 1] == p && Steps(constraints, ps);
  }

  lemma NarrowsStep(constraints: seq<Constraint>, i: nat, p: Possible, q: Possible, r: Possible)
    requires NarrowsTo(constraints, p, q) && i < |constraints| && Effect(constraints[i], q, r)
    ensures NarrowsTo(constraints, p, r)
  {
    var ps: seq<Possible> :| |ps| > 0 && ps[0] == p && ps[|ps| - 1] == q && Steps(constraints, ps);
    var more := ps + [r];
    assert EffectOfSome(constraints, q, r);
    assert Steps(constraints, more);
    assert |more| > 0 && more[0] == p && more[|more| - 1] == r;
  }

  lemma NarrowsOn(constraints: seq<Constraint>, p: Possible, q: Possible, r: Possible)
    requires NarrowsTo(constraints, p, q) && NarrowsTo(constraints, q, r)
    ensures NarrowsTo(constraints, p, r)
  {
    hide EffectOfSome;
    var a: seq<Possible> :| |a| > 0 && a[0] == p && a[|a| - 1] == q && Steps(constraints, a);
    var b: seq<Possible> :| |b| > 0 && b[0] == q && b[|b| - 1] == r && Steps(constraints, b);
    var all := a + b[1..];
    assert Steps(constraints, all);
    assert |all| > 0 && all[0] == p && all[|all| - 1] == r;
  }

  /** One constraint: satisfying assignments stay, nothing but its effect is made, and changed says whether a set shrank. */
  ghost predicate OneStep(c: Constraint, p: Possible, r: Possible, n: nat, changed: bool) {
    && |r| == |p| && PossibleOk(r, n) && Effect(c, p, r)
    && (forall s :: Fits(s, p) && c.var1 < |s| && c.var2 < |s| && Satisfies(c, s) ==> Fits(s, r))
    && (forall v, x :: 0 <= v < |p| && x in r[v] ==> x in p[v])
    && (if changed then TotalSize(r) < TotalSize(p) else r == p && Settled(c, p))
  }

  method Equalize(p: Possible, v: nat, w: nat, n: nat) returns (r: Possible, changed: bool)
    requires PossibleOk(p, n) && v < |p| && w < |p|
    ensures OneStep(Constraint(true, v, w), p, r, n, changed)
  {
    var both := Filter(p[v], p[w], n);
    changed := |both| < |p[v]| || |both| < |p[w]|;
    r := p[v := both][w := both];
    SubsetSize(both, p[v], n);
    SubsetSize(both, p[w], n);
    TotalUpdate(p, v, both);
    TotalUpdate(p[v := both], w, both);
    if !changed {
      SameSize(both, p[v], n);
      SameSize(both, p[w], n);
      assert r == p;
    }
  }

  /** The last element of r is the k-th of s; the elements of r before it are among the first k of s. */
  lemma LastIn(r: Constants, s: Constants, n: nat) returns (k: nat)
    requires SetOk(r, n) && SetOk(s, n) && |r| > 0 && forall x :: x in r ==> x in s
    ensures k < |s| && s[k] == r[|r| - 1] && forall x :: x in r[..|r| - 1] ==> x in s[..k]
  {
    assert r[|r| - 1] in r;
    k :| 0 <= k < |s| && s[k] == r[|r| - 1];
    forall x | x in r[..|r| - 1] ensures x in s[..k] {
      var j :| 0 <= j < |r| - 1 && r[..|r| - 1][j] == x;
      assert r[j] == x && x in s;
      var i :| 0 <= i < |s| && s[i] == x;
      assert s[..k][i] == x;
    }
  }

  lemma {:induction false} SubsetSize(r: Constants, s: Constants, n: nat)
    requires SetOk(r, n) && SetOk(s, n) && forall x :: x in r ==> x in s
    ensures |r| <= |s|
    decreases |r|
  {
    if |r| > 0 {
      var k := LastIn(r, s, n);
      SubsetSize(r[..|r| - 1], s[..k], n);
    }
  }

  lemma {:induction false} SameSize(r: Constants, s: Constants, n: nat)
    requires SetOk(r, n) && SetOk(s, n) && (forall x :: x in r ==> x in s) && |r| == |s|
    ensures r == s
    decreases |r|
  {
    if |r| > 0 {
      var m := |r| - 1;
      var k := LastIn(r, s, n);
      SubsetSize(r[..m], s[..k], n);
      assert k == m;
      SameSize(r[..m], s[..m], n);
      assert r == r[..m] + [r[m]] && s == s[..m] + [s[m]];
    }
  }

  /** Lines 98-101: erasing one value. */
  method Erase(s: Constants, x: int, ghost n: nat) returns (r: Constants)
    requires SetOk(s, n)
    ensures SetOk(r, n) && (forall y :: y in r <==> y in s && y != x) && |r| == |s| - (if x in s then 1 else 0)
  {
    r := [];
    var i: nat := 0;
    while i < |s|
      invariant i <= |s| && SetOk(r, n) && (forall y :: y in r <==> y in s[..i] && y != x) && (|r| > 0 ==> i > 0 && r[|r| - 1] <= s[i - 1])
      invariant |r| == i - (if x in s[..i] then 1 else 0)
    {
      assert s[..i + 1] == s[..i] + [s[i]];
      if s[i] != x { r := r + [s[i]]; }
      i := i + 1;
    }
    assert s[..i] == s;
  }

  /** The only value of v is erased from w. */
  ghost predicate Differ(v: nat, w: nat, p: Possible, r: Possible, n: nat, erased: nat) {
    && |r| == |p| && PossibleOk(r, n) && TotalSize(r) + erased == TotalSize(p) && (erased == 0 ==> r == p)
    && (erased == 0 && v < |p| && w < |p| && |p[v]| == 1 ==> p[v][0] !in p[w]) && Erased(v, w, p, r)
    && (forall s :: Fits(s, p) && v < |s| && w < |s| && s[v] != s[w] ==> Fits(s, r))
    && (forall u, x :: 0 <= u < |p| && x in r[u] ==> x in p[u])
  }

  method EraseOnly(p: Possible, v: nat, w: nat, n: nat) returns (r: Possible, erased: nat)
    requires PossibleOk(p, n) && v < |p| && w < |p|
    ensures Differ(v, w, p, r, n, erased)
  {
    r, erased := p, 0;
    if |p[v]| == 1 {
      var only := p[v][0];
      var rest := Erase(p[w], only, n);
      r, erased := p[w := rest], if only in p[w] then 1 else 0;
      TotalUpdate(p, w, rest);
      if erased == 0 {
        SameSize(rest, p[w], n);
        assert r == p;
      }
    }
  }

  method Distinguish(p: Possible, v: nat, w: nat, n: nat) returns (r: Possible, changed: bool)
    requires PossibleOk(p, n) && v < |p| && w < |p|
    ensures OneStep(Constraint(false, v, w), p, r, n, changed)
  {
    var q, e := EraseOnly(p, v, w, n);
    var r2, f := EraseOnly(q, w, v, n);
    r, changed := r2, e + f > 0;
    BothDiffer(p, q, r, v, w, n, e, f);
  }

  lemma BothDiffer(p: Possible, q: Possible, r: Possible, v: nat, w: nat, n: nat, e: nat, f: nat)
    requires Differ(v, w, p, q, n, e) && Differ(w, v, q, r, n, f) && v < |p| && w < |p|
    ensures OneStep(Constraint(false, v, w), p, r, n, e + f > 0)
  {
    hide TotalSize, PossibleOk;
    forall s | Fits(s, p) && v < |s| && w < |s| && s[v] != s[w] ensures Fits(s, r) { assert Fits(s, q); }
  }

  /** Several constraints, one after the other. */
  ghost predicate Narrowed(constraints: seq<Constraint>, p: Possible, r: Possible, n: nat, changed: bool) {
    && |r| == |p| && PossibleOk(r, n) && NarrowsTo(constraints, p, r)
    && (forall s :: Fits(s, p) && Holds(constraints, s) ==> Fits(s, r))
    && (forall v, x :: 0 <= v < |p| && x in r[v] ==> x in p[v])
    && (if changed then TotalSize(r) < TotalSize(p) else r == p)
  }

  lemma NarrowedStep(constraints: seq<Constraint>, i: nat, p: Possible, q: Possible, r: Possible, n: nat, changed: bool, more: bool)
    requires i < |constraints| && Narrowed(constraints, p, q, n, changed) && OneStep(constraints[i], q, r, n, more)
    ensures Narrowed(constraints, p, r, n, changed || more)
  {
    hide TotalSize, PossibleOk, NarrowsTo, Effect;
    NarrowsStep(constraints, i, p, q, r);
    forall s | Fits(s, p) && Holds(constraints, s) ensures Fits(s, r) {
      assert Fits(s, q) && Satisfies(constraints[i], s);
    }
  }

  lemma NarrowedOn(constraints: seq<Constraint>, p: Possible, q: Possible, r: Possible, n: nat, changed: bool, more: bool)
    requires Narrowed(constraints, p, q, n, changed) && Narrowed(constraints, q, r, n, more)
    ensures Narrowed(constraints, p, r, n, changed || more)
  {
    hide TotalSize, PossibleOk, NarrowsTo;
    NarrowsOn(constraints, p, q, r);
    forall s | Fits(s, p) && Holds(constraints, s) ensures Fits(s, r) { assert Fits(s, q); }
  }

  method ApplyConstraint(p: Possible, c: Constraint, n: nat) returns (r: Possible, changed: bool)
    requires PossibleOk(p, n) && c.var1 < |p| && c.var2 < |p|
    ensures OneStep(c, p, r, n, changed)
  {
    if c.equal {
      r, changed := Equalize(p, c.var1, c.var2, n);
    } else {
      r, changed := Distinguish(p, c.var1, c.var2, n);
    }
  }

  /** Lines 74-109: every satisfying assignment is kept, nothing is erased but by the constraints, none of them can erase more,
      and the loop ends because the sets shrink. */
  method ApplyConstraints(p: Possible, constraints: seq<Constraint>, n: nat) returns (r: Possible)
    requires PossibleOk(p, n) && ConstraintsOk(constraints, |p|)
    ensures |r| == |p| && PossibleOk(r, n)
    ensures forall s :: Fits(s, p) && Holds(constraints, s) ==> Fits(s, r)
    ensures forall v, x :: 0 <= v < |p| && x in r[v] ==> x in p[v]
    ensures AllSettled(constraints, |constraints|, r) && NarrowsTo(constraints, p, r)
  {
    r := p;
    var changed := true;
    ghost var ever := false;
    NarrowsSelf(constraints, p);
    assert Narrowed(constraints, p, r, n, false);
    hide Narrowed, OneStep, PossibleOk;
    NarrowedShape(constraints, p, r, n, ever);
    while changed
      invariant Narrowed(constraints, p, r, n, ever) && |r| == |p| && PossibleOk(r, n)
      invariant !changed ==> AllSettled(constraints, |constraints|, r)
      decreases TotalSize(r), changed
    {
      ghost var before := r;
      r, changed := OnePass(r, constraints, n);
      NarrowedOn(constraints, p, before, r, n, ever, changed);
      NarrowedShape(constraints, before, r, n, changed);
      ever := ever || changed;
    }
    NarrowedFacts(constraints, p, r, n, ever);
  }

  lemma NarrowedShape(constraints: seq<Constraint>, p: Possible, r: Possible, n: nat, changed: bool)
    requires Narrowed(constraints, p, r, n, changed)
    ensures |r| == |p| && PossibleOk(r, n) && (if changed then TotalSize(r) < TotalSize(p) else r == p)
  {
  }

  lemma NarrowedFacts(constraints: seq<Constraint>, p: Possible, r: Possible, n: nat, changed: bool)
    requires Narrowed(constraints, p, r, n, changed)
    ensures |r| == |p| && PossibleOk(r, n) && NarrowsTo(constraints, p, r)
    ensures forall s :: Fits(s, p) && Holds(constraints, s) ==> Fits(s, r)
    ensures forall v, x :: 0 <= v < |p| && x in r[v] ==> x in p[v]
  {
  }

  lemma StepSettled(c: Constraint, p: Possible, r: Possible, n: nat, changed: bool)
    requires OneStep(c, p, r, n, changed)
    ensures !changed ==> r == p && Settled(c, p)
  {
  }

  method OnePass(p: Possible, constraints: seq<Constraint>, n: nat) returns (r: Possible, changed: bool)
    requires PossibleOk(p, n) && ConstraintsOk(constraints, |p|)
    ensures Narrowed(constraints, p, r, n, changed)
    ensures !changed ==> AllSettled(constraints, |constraints|, r)
  {
    r, changed := p, false;
    NarrowsSelf(constraints, p);
    assert Narrowed(constraints, p, r, n, false);
    hide Narrowed, OneStep, PossibleOk;
    NarrowedShape(constraints, p, r, n, false);
    var i: nat := 0;
    while i < |constraints|
      invariant i <= |constraints| && Narrowed(constraints, p, r, n, changed) && |r| == |p| && PossibleOk(r, n)
      invariant !changed ==> AllSettled(constraints, i, r)
    {
      ghost var q := r;
      var next, more := ApplyConstraint(r, constraints[i], n);
      NarrowedStep(constraints, i, p, q, next, n, changed, more);
      StepSettled(constraints[i], q, next, n, more);
      r, changed := next, changed || more;
      NarrowedShape(constraints, p, r, n, changed);
      i := i + 1;
    }
  }

  // ----- ground instances -----

  ghost predicate Members(d: Domain, sort: nat, x: int) {
    sort < |d.sorts| && x in d.sorts[sort]
  }

  /** A ground instance of method m: values of the right sorts that satisfy its constraints. */
  ghost predicate LegalMethod(d: Domain, m: nat, s: seq<int>) {
    && m < |d.methods| && |s| == |d.methods[m].variableSorts| && Holds(d.methods[m].constraints, s)
    && forall v :: 0 <= v < |s| ==> Members(d, d.methods[m].variableSorts[v], s[v])
  }

  ghost predicate LegalTask(d: Domain, t: nat, s: seq<int>) {
    t < |d.tasks| && |s| == |d.tasks[t].variableSorts| && Holds(d.tasks[t].constraints, s)
  }

  /** The values of the listed variables. */
  function Pick(s: seq<int>, vars: seq<nat>): (r: seq<int>)
    ensures |r| == |vars|
    ensures forall i :: 0 <= i < |vars| && vars[i] < |s| ==> r[i] == s[vars[i]]
  {
    seq(|vars|, i requires 0 <= i < |vars| => if vars[i] < |s| then s[vars[i]] else -1)
  }

  /** A decomposition tree: a task instance, and below it the instance of a method and its subtasks. */
  datatype Tree = Leaf(task: nat, arguments: seq<int>) | Node(task: nat, arguments: seq<int>, how: nat, values: seq<int>, children: seq<Tree>)

  ghost predicate IsDecomposition(d: Domain, t: Tree)
    decreases t
  {
    && LegalTask(d, t.task, t.arguments)
    && (t.Node? ==>
      && t.how in d.tasks[t.task].methods && LegalMethod(d, t.how, t.values) && Pick(t.values, d.methods[t.how].parameters) == t.arguments
      && |t.children| == |d.methods[t.how].subtasks|
      && forall k :: 0 <= k < |t.children| ==>
           t.children[k].task == d.methods[t.how].subtasks[k].task && t.children[k].arguments == Pick(t.values, d.methods[t.how].subtasks[k].arguments) &&
           IsDecomposition(d, t.children[k]))
  }

  // ----- what has been recorded -----

  type Table = seq<seq<Possible>>

  /** Some recorded entry has all the values. */
  ghost predicate Covered(table: Table, t: nat, s: seq<int>) {
    t < |table| && exists i :: 0 <= i < |table[t]| && Fits(s, table[t][i])
  }

  /** Everything below an instance that fits the entry is recorded. */
  ghost predicate MethodExpanded(d: Domain, p: Possible, m: nat, perTask: Table, perMethod: Table) {
    forall s :: LegalMethod(d, m, s) && Fits(Pick(s, d.methods[m].parameters), p) ==> BelowCovered(d, m, s, perTask, perMethod)
  }

  ghost predicate BelowCovered(d: Domain, m: nat, s: seq<int>, perTask: Table, perMethod: Table)
    requires m < |d.methods|
  {
    && Covered(perMethod, m, s)
    && forall k :: 0 <= k < |d.methods[m].subtasks| ==> SubtaskCovered(d, d.methods[m].subtasks[k], s, perTask)
  }

  ghost predicate SubtaskCovered(d: Domain, sub: Subtask, s: seq<int>, perTask: Table) {
    LegalTask(d, sub.task, Pick(s, sub.arguments)) ==> Covered(perTask, sub.task, Pick(s, sub.arguments))
  }

  ghost predicate Expanded(d: Domain, t: nat, p: Possible, perTask: Table, perMethod: Table)
    requires t < |d.tasks|
  {
    forall j :: 0 <= j < |d.tasks[t].methods| ==> MethodExpanded(d, p, d.tasks[t].methods[j], perTask, perMethod)
  }

  /** Entries are only added at the ends. */
  ghost predicate Grown(old_: Table, new_: Table) {
    |new_| == |old_| && forall t :: 0 <= t < |old_| ==> old_[t] <= new_[t]
  }

  lemma GrownOn(a: Table, b: Table, c: Table)
    requires Grown(a, b) && Grown(b, c)
    ensures Grown(a, c)
  {
    forall t | 0 <= t < |a| ensures a[t] <= c[t] { assert a[t] <= b[t] <= c[t]; }
  }

  lemma CoveredMore(a: Table, b: Table, t: nat, s: seq<int>)
    requires Grown(a, b) && Covered(a, t, s)
    ensures Covered(b, t, s)
  {
    var i :| 0 <= i < |a[t]| && Fits(s, a[t][i]);
    assert a[t] <= b[t];
    assert b[t][i] == a[t][i];
  }

  lemma ExpandedMore(d: Domain, p: Possible, m: nat, perTask: Table, perMethod: Table, perTask2: Table, perMethod2: Table)
    requires MethodExpanded(d, p, m, perTask, perMethod) && Grown(perTask, perTask2) && Grown(perMethod, perMethod2)
    ensures MethodExpanded(d, p, m, perTask2, perMethod2)
  {
    hide Covered, Grown, LegalMethod, LegalTask, Fits;
    MoreCovered(perTask, perTask2);
    MoreCovered(perMethod, perMethod2);
    MethodExists(d, m);
    forall s | LegalMethod(d, m, s) && Fits(Pick(s, d.methods[m].parameters), p) ensures BelowCovered(d, m, s, perTask2, perMethod2) {
      assert BelowCovered(d, m, s, perTask, perMethod);
      assert forall k :: 0 <= k < |d.methods[m].subtasks| ==> SubtaskCovered(d, d.methods[m].subtasks[k], s, perTask);
    }
  }

  lemma MethodExists(d: Domain, m: nat)
    ensures forall s :: LegalMethod(d, m, s) ==> m < |d.methods|
  {
  }

  lemma MoreCovered(a: Table, b: Table)
    requires Grown(a, b)
    ensures forall t: nat, s :: Covered(a, t, s) ==> Covered(b, t, s)
  {
    forall t: nat, s | Covered(a, t, s) ensures Covered(b, t, s) { CoveredMore(a, b, t, s); }
  }

  lemma AllExpandedMore(d: Domain, t: nat, p: Possible, perTask: Table, perMethod: Table, perTask2: Table, perMethod2: Table)
    requires t < |d.tasks| && Expanded(d, t, p, perTask, perMethod) && Grown(perTask, perTask2) && Grown(perMethod, perMethod2)
    ensures Expanded(d, t, p, perTask2, perMethod2)
  {
    hide MethodExpanded, Grown;
    forall j | 0 <= j < |d.tasks[t].methods| ensures MethodExpanded(d, p, d.tasks[t].methods[j], perTask2, perMethod2) {
      ExpandedMore(d, p, d.tasks[t].methods[j], perTask, perMethod, perTask2, perMethod2);
    }
  }

  /** Every entry beyond those of perTask0, except perhaps the last of task gray, has been expanded. */
  ghost predicate NewExpanded(d: Domain, perTask0: Table, perTask: Table, perMethod: Table, gray: nat) {
    |perTask0| == |perTask| == |d.tasks| &&
    forall t: nat, i: nat :: t < |perTask| && |perTask0[t]| <= i < |perTask[t]| && !(t == gray && i == |perTask0[t]|) ==> Expanded(d, t, perTask[t][i], perTask, perMethod)
  }

  /** Coverage: everything in a decomposition of a recorded instance is recorded. */
  ghost predicate TreeCovered(t: Tree, perTask: Table, perMethod: Table)
    decreases t
  {
    && Covered(perTask, t.task, t.arguments)
    && (t.Node? ==> Covered(perMethod, t.how, t.values) && forall k :: 0 <= k < |t.children| ==> TreeCovered(t.children[k], perTask, perMethod))
  }

  lemma {:induction false} Coverage(d: Domain, t: Tree, perTask: Table, perMethod: Table)
    requires IsDecomposition(d, t) && Covered(perTask, t.task, t.arguments) && |perTask| == |d.tasks|
    requires forall u: nat, i: nat :: u < |perTask| && i < |perTask[u]| ==> Expanded(d, u, perTask[u][i], perTask, perMethod)
    ensures TreeCovered(t, perTask, perMethod)
    decreases t
  {
    if t.Node? {
      var i: nat :| i < |perTask[t.task]| && Fits(t.arguments, perTask[t.task][i]);
      assert Expanded(d, t.task, perTask[t.task][i], perTask, perMethod);
      var j :| 0 <= j < |d.tasks[t.task].methods| && d.tasks[t.task].methods[j] == t.how;
      assert MethodExpanded(d, perTask[t.task][i], d.tasks[t.task].methods[j], perTask, perMethod);
      assert BelowCovered(d, t.how, t.values, perTask, perMethod);
      forall k | 0 <= k < |t.children| ensures TreeCovered(t.children[k], perTask, perMethod) {
        assert IsDecomposition(d, t.children[k]);
        assert SubtaskCovered(d, d.methods[t.how].subtasks[k], t.values, perTask);
        assert LegalTask(d, t.children[k].task, t.children[k].arguments);
        Coverage(d, t.children[k], perTask, perMethod);
      }
    }
  }

  // ----- termination: there are finitely many entries -----

  ghost function AllSets(n: nat): (r: set<Constants>) {
    if n == 0 then {[]} else
      var fewer := AllSets(n - 1);
      fewer + (set s | s in fewer :: s + [n - 1])
  }

  lemma Bounded(s: Constants, n: nat)
    requires SetOk(s, n) && |s| > 0
    ensures n > 0
  {
    assert 0 <= s[0] < n;
  }

  lemma {:induction false} InAllSets(s: Constants, n: nat)
    requires SetOk(s, n)
    ensures s in AllSets(n)
    decreases n
  {
    if |s| > 0 { Bounded(s, n); }
    if n > 0 {
      if |s| > 0 && s[|s| - 1] == n - 1 {
        InAllSets(s[..|s| - 1], n - 1);
        assert s == s[..|s| - 1] + [n - 1];
      } else {
        forall i | 0 <= i < |s| ensures s[i] < n - 1 { assert s[i] <= s[|s| - 1]; }
        InAllSets(s, n - 1);
      }
    }
  }

  ghost function AllTuples(k: nat, n: nat): (r: set<Possible>) {
    if k == 0 then {[]} else set p, s | p in AllTuples(k - 1, n) && s in AllSets(n) :: p + [s]
  }

  lemma {:induction false} InAllTuples(p: Possible, n: nat)
    requires PossibleOk(p, n)
    ensures p in AllTuples(|p|, n)
    decreases |p|
  {
    if |p| > 0 {
      InAllTuples(p[..|p| - 1], n);
      InAllSets(p[|p| - 1], n);
      assert p == p[..|p| - 1] + [p[|p| - 1]];
    }
  }

  datatype Entry = Entry(task: nat, possible: Possible)

  ghost function AllEntries(d: Domain, k: nat): (r: set<Entry>)
    requires k <= |d.tasks|
  {
    if k == 0 then {} else
      var tuples := AllTuples(|d.tasks[k - 1].variableSorts|, d.constants);
      AllEntries(d, k - 1) + (set p | p in tuples :: Entry(k - 1, p))
  }

  lemma {:induction false} InAllEntries(d: Domain, k: nat, t: nat, p: Possible)
    requires t < k <= |d.tasks| && |p| == |d.tasks[t].variableSorts| && PossibleOk(p, d.constants)
    ensures Entry(t, p) in AllEntries(d, k)
    decreases k
  {
    if t < k - 1 { InAllEntries(d, k - 1, t, p); } else { InAllTuples(p, d.constants); }
  }

  /** The entries that are not recorded yet. */
  ghost function Free(d: Domain, perTask: Table): (r: set<Entry>)
    ensures forall e :: e in r <==> e in AllEntries(d, |d.tasks|) && !(e.task < |perTask| && e.possible in perTask[e.task])
  {
    set e | e in AllEntries(d, |d.tasks|) && !(e.task < |perTask| && e.possible in perTask[e.task])
  }

  lemma FreeLess(d: Domain, a: Table, b: Table)
    requires Grown(a, b)
    ensures Free(d, b) <= Free(d, a)
  {
    forall e | e in Free(d, b) ensures e in Free(d, a) {
      if e.task < |a| && e.possible in a[e.task] {
        assert a[e.task] <= b[e.task];
        Prefix(a[e.task], b[e.task], e.possible);
      }
    }
  }

  lemma Prefix<T>(a: seq<T>, b: seq<T>, x: T)
    requires a <= b && x in a
    ensures x in b
  {
    var i :| 0 <= i < |a| && a[i] == x;
    assert b[i] == x;
  }

  lemma FreeNext(d: Domain, table: Table, t: nat, p: Possible)
    requires t < |table| == |d.tasks| && |p| == |d.tasks[t].variableSorts| && PossibleOk(p, d.constants) && p !in table[t]
    ensures Grown(table, table[t := table[t] + [p]]) && Free(d, table[t := table[t] + [p]]) < Free(d, table)
  {
    var next := table[t := table[t] + [p]];
    FreeLess(d, table, next);
    InAllEntries(d, |d.tasks|, t, p);
    assert Entry(t, p) in Free(d, table) && Entry(t, p) !in Free(d, next);
  }

  ghost predicate TableOk(table: Table, d: Domain, arity: seq<nat>) {
    |table| == |arity| && forall t: nat, i: nat :: t < |table| && i < |table[t]| ==> |table[t][i]| == arity[t] && PossibleOk(table[t][i], d.constants)
  }

  // ----- the search -----

  /** The subset test of 244 or, with exact comparison, equality (250). */
  ghost predicate Includes(larger: Possible, smaller: Possible) {
    |larger| == |smaller| && forall v :: 0 <= v < |smaller| ==> SetIncludes(larger[v], smaller[v])
  }

  ghost predicate SetIncludes(larger: Constants, smaller: Constants) {
    forall x :: x in smaller ==> x in larger
  }

  lemma Inside(larger: Constants, smaller: Constants, x: int)
    requires SetIncludes(larger, smaller) && x in smaller
    ensures x in larger
  {
  }

  lemma IncludedFits(larger: Possible, smaller: Possible, s: seq<int>)
    requires Includes(larger, smaller) && Fits(s, smaller)
    ensures Fits(s, larger)
  {
    forall v | 0 <= v < |larger| ensures s[v] in larger[v] { Inside(larger[v], smaller[v], s[v]); }
  }

  ghost function TaskArity(d: Domain): (r: seq<nat>)
    ensures |r| == |d.tasks| && forall t :: 0 <= t < |r| ==> r[t] == |d.tasks[t].variableSorts|
  {
    seq(|d.tasks|, t requires 0 <= t < |d.tasks| => |d.tasks[t].variableSorts|)
  }

  ghost function MethodArity(d: Domain): (r: seq<nat>)
    ensures |r| == |d.methods| && forall m :: 0 <= m < |r| ==> r[m] == |d.methods[m].variableSorts|
  {
    seq(|d.methods|, m requires 0 <= m < |d.methods| => |d.methods[m].variableSorts|)
  }

  /** The recorded entry makes p superfluous. */
  ghost predicate Covers(useIncludes: bool, known: Possible, p: Possible) {
    if useIncludes then Includes(known, p) else known == p
  }

  /** Includes or equality, set by set. */
  method Visited(known: Possible, p: Possible, useIncludes: bool) returns (visited: bool)
    requires |known| == |p|
    ensures visited <==> Covers(useIncludes, known, p)
    ensures Covers(useIncludes, known, p) ==> Includes(known, p)
  {
    visited := true;
    var v: nat := 0;
    while v < |p|
      invariant v <= |p| && forall u :: 0 <= u < v ==> SetIncludes(known[u], p[u]) && (!useIncludes ==> known[u] == p[u])
    {
      if useIncludes {
        var all := Subset(p[v], known[v]);
        if !all { return false; }
      } else if known[v] != p[v] {
        return false;
      }
      v := v + 1;
    }
  }

  method Subset(s: Constants, t: Constants) returns (all: bool)
    ensures all <==> SetIncludes(t, s)
  {
    for i := 0 to |s|
      invariant forall x :: x in s[..i] ==> x in t
    {
      assert s[..i + 1] == s[..i] + [s[i]];
      if s[i] !in t {
        ghost var x := s[i];
        assert x in s && x !in t;
        return false;
      }
    }
    assert s[..|s|] == s;
    all := true;
  }

  /** The set of the method's variable for the i-th task variable is intersected with the set of that one. */
  ghost predicate IntersectedAt(d: Domain, m: Method, p: Possible, i: nat, r: Possible, next: Possible)
    requires i < |m.parameters| && i < |p|
  {
    && |r| == |next| == |m.variableSorts| && m.parameters[i] < |r|
    && (forall u :: 0 <= u < |r| && u != m.parameters[i] ==> next[u] == r[u])
    && forall x :: x in next[m.parameters[i]] <==> Remains(d, r[m.parameters[i]], p[i], x)
  }

  ghost predicate Intersections(d: Domain, m: Method, p: Possible, rs: seq<Possible>) {
    && 0 < |rs| <= |m.parameters| + 1 && |rs| <= |p| + 1
    && |rs[0]| == |m.variableSorts| && (forall v :: 0 <= v < |rs[0]| ==> rs[0][v] == [Code(m.variableSorts[v])])
    && forall i :: 0 <= i < |rs| - 1 ==> IntersectedAt(d, m, p, i, rs[i], rs[i + 1])
  }

  /** r is what the first k intersections make of the whole sorts. */
  ghost predicate Intersected(d: Domain, m: Method, p: Possible, k: nat, r: Possible) {
    exists rs :: Intersections(d, m, p, rs) && |rs| == k + 1 && rs[k] == r
  }

  /** The sets a method starts with below a task whose sets are p. */
  ghost predicate MethodStart(d: Domain, m: Method, p: Possible, q: Possible) {
    exists r: Possible {:trigger Intersected(d, m, p, |m.parameters|, r)} :: Intersected(d, m, p, |m.parameters|, r) && |q| == |r| &&
      forall v :: 0 <= v < |q| ==> q[v] == Decoded(d, r[v])
  }

  lemma StartIntersected(d: Domain, m: Method, p: Possible, r: Possible)
    requires |r| == |m.variableSorts| && forall v :: 0 <= v < |r| ==> r[v] == [Code(m.variableSorts[v])]
    ensures Intersected(d, m, p, 0, r)
  {
    var rs := [r];
    assert Intersections(d, m, p, rs) && |rs| == 1 && rs[0] == r;
  }

  lemma NextIntersected(d: Domain, m: Method, p: Possible, k: nat, r: Possible, next: Possible)
    requires Intersected(d, m, p, k, r) && k < |m.parameters| == |p| && IntersectedAt(d, m, p, k, r, next)
    ensures Intersected(d, m, p, k + 1, next)
  {
    hide IntersectedAt;
    var rs :| Intersections(d, m, p, rs) && |rs| == k + 1 && rs[k] == r;
    var more := rs + [next];
    assert Intersections(d, m, p, more) && |more| == k + 1 + 1 && more[k + 1] == next;
  }

  /** Lines 305-319: all constants of the variables' sorts, narrowed by what the task's variables can be. */
  method MethodConstants(d: Domain, m: nat, p: Possible) returns (r: Possible)
    requires d.Valid() && m < |d.methods| && |p| == |d.methods[m].parameters| && PossibleOk(p, d.constants)
    ensures |r| == |d.methods[m].variableSorts| && PossibleOk(r, d.constants)
    ensures forall s :: LegalMethod(d, m, s) && Fits(Pick(s, d.methods[m].parameters), p) ==> Fits(s, r)
    ensures MethodStart(d, d.methods[m], p, r)
  {
    hide Intersected, Within, CodesOk, Remains, Fits, LegalMethod, CodedOk;
    var meth := d.methods[m];
    assert d.MethodOk(meth);
    r := seq(|meth.variableSorts|, v requires 0 <= v < |meth.variableSorts| => [Code(meth.variableSorts[v])]);
    StartCodes(d, m, r);
    StartIntersected(d, meth, p, r);
    var i: nat := 0;
    while i < |meth.parameters|
      invariant i <= |meth.parameters| && |r| == |meth.variableSorts| && CodesOk(d, meth, r) && Within(d, m, p, r) && Intersected(d, meth, p, i, r)
    {
      var v := meth.parameters[i];
      ghost var before := r;
      CodeAt(d, meth, r, v);
      CodeOfSet(d, p, i);
      var both := Intersect(d, r[v], p[i]);
      NarrowCode(d, m, p, r, i, both);
      r := r[v := both];
      NextIntersected(d, meth, p, i, before, r);
      i := i + 1;
    }
    r := Decode(d, m, p, r);
  }

  lemma CodeAt(d: Domain, m: Method, r: Possible, v: nat)
    requires CodesOk(d, m, r) && v < |r|
    ensures CodedOk(d, r[v])
  {
  }

  lemma CodeOfSet(d: Domain, p: Possible, i: nat)
    requires PossibleOk(p, d.constants) && i < |p|
    ensures CodedOk(d, p[i])
  {
    NotCoded(p[i], d.constants);
  }

  ghost predicate CodesOk(d: Domain, m: Method, r: Possible) {
    |r| == |m.variableSorts| && forall v :: 0 <= v < |r| ==> CodedOk(d, r[v])
  }

  /** Legal instances that match the task's sets are still possible. */
  ghost predicate Within(d: Domain, m: nat, p: Possible, r: Possible) {
    forall s :: LegalMethod(d, m, s) && Fits(Pick(s, d.methods[m].parameters), p) ==> InCodes(d, s, r)
  }

  ghost predicate InCodes(d: Domain, s: seq<int>, r: Possible) {
    |s| == |r| && forall v :: 0 <= v < |r| ==> s[v] in Decoded(d, r[v])
  }

  lemma StartCodes(d: Domain, m: nat, r: Possible)
    requires d.Valid() && m < |d.methods| && |r| == |d.methods[m].variableSorts|
    requires forall v :: 0 <= v < |r| ==> r[v] == [Code(d.methods[m].variableSorts[v])]
    ensures CodesOk(d, d.methods[m], r) && forall p :: Within(d, m, p, r)
  {
    var meth := d.methods[m];
    assert d.MethodOk(meth);
    forall v | 0 <= v < |r| ensures Coded(r[v]) && Decoded(d, r[v]) == d.sorts[meth.variableSorts[v]] { }
    forall p, s | LegalMethod(d, m, s) && Fits(Pick(s, meth.parameters), p) ensures InCodes(d, s, r) {
      forall v | 0 <= v < |r| ensures s[v] in Decoded(d, r[v]) { assert Members(d, meth.variableSorts[v], s[v]); }
    }
  }

  lemma NarrowCode(d: Domain, m: nat, p: Possible, r: Possible, i: nat, both: Constants)
    requires d.Valid() && m < |d.methods| && i < |d.methods[m].parameters| == |p| && CodesOk(d, d.methods[m], r) && Within(d, m, p, r)
    requires PossibleOk(p, d.constants) && d.methods[m].parameters[i] < |r| && SetOk(both, d.constants)
    requires forall x :: x in both <==> Remains(d, r[d.methods[m].parameters[i]], p[i], x)
    ensures CodesOk(d, d.methods[m], r[d.methods[m].parameters[i] := both]) && Within(d, m, p, r[d.methods[m].parameters[i] := both])
  {
    var meth := d.methods[m];
    var v := meth.parameters[i];
    NotCoded(p[i], d.constants);
    NotCoded(both, d.constants);
    hide Domain.Valid;
    forall s | LegalMethod(d, m, s) && Fits(Pick(s, meth.parameters), p) ensures InCodes(d, s, r[v := both]) {
      assert InCodes(d, s, r);
      assert Pick(s, meth.parameters)[i] == s[v];
    }
  }

  lemma NotCoded(s: Constants, n: nat)
    requires SetOk(s, n)
    ensures !Coded(s)
  {
  }

  /** Lines 499-507: what is still a whole sort is written out. */
  method Decode(d: Domain, ghost m: nat, ghost p: Possible, r: Possible) returns (q: Possible)
    requires d.Valid() && m < |d.methods| && CodesOk(d, d.methods[m], r) && Within(d, m, p, r)
    ensures |q| == |r| && PossibleOk(q, d.constants) && forall v :: 0 <= v < |q| ==> q[v] == Decoded(d, r[v])
    ensures forall s :: LegalMethod(d, m, s) && Fits(Pick(s, d.methods[m].parameters), p) ==> Fits(s, q)
  {
    q := r;
    var v: nat := 0;
    while v < |q|
      invariant v <= |q| == |r| && forall u :: 0 <= u < |r| ==> q[u] == if u < v then Decoded(d, r[u]) else r[u]
    {
      if |q[v]| == 1 && q[v][0] < 0 { q := q[v := d.sorts[-q[v][0] - 1]]; }
      v := v + 1;
    }
    forall u | 0 <= u < |q| ensures SetOk(q[u], d.constants) { DecodedOk(d, r[u]); }
    forall s | LegalMethod(d, m, s) && Fits(Pick(s, d.methods[m].parameters), p) ensures Fits(s, q) { assert InCodes(d, s, r); }
  }

  // ----- nothing is recorded without a reason -----

  /** q comes from the entry p of a task with method m, and every variable has a value. */
  ghost predicate MethodFrom(d: Domain, m: nat, p: Possible, q: Possible) {
    && m < |d.methods| && (forall v :: 0 <= v < |q| ==> q[v] != [])
    && AllSettled(d.methods[m].constraints, |d.methods[m].constraints|, q)
    && exists q0 {:trigger MethodStart(d, d.methods[m], p, q0)} :: MethodStart(d, d.methods[m], p, q0) && NarrowsTo(d.methods[m].constraints, q0, q)
  }

  ghost predicate MethodReason(d: Domain, m: nat, q: Possible, perTask: Table) {
    exists t: nat, i: nat :: t < |perTask| && i < |perTask[t]| && t < |d.tasks| && m in d.tasks[t].methods && MethodFrom(d, m, perTask[t][i], q)
  }

  /** p comes from the entry q of a method with a subtask t. */
  ghost predicate TaskFrom(d: Domain, m: nat, k: nat, q: Possible, t: nat, p: Possible) {
    && m < |d.methods| && k < |d.methods[m].subtasks| && d.methods[m].subtasks[k].task == t < |d.tasks|
    && AllSettled(d.tasks[t].constraints, |d.tasks[t].constraints|, p)
    && exists ps {:trigger Projected(q, d.methods[m].subtasks[k].arguments, ps)} ::
      Projected(q, d.methods[m].subtasks[k].arguments, ps) && NarrowsTo(d.tasks[t].constraints, ps, p)
  }

  ghost predicate TopEntry(d: Domain, top: nat, p: Possible) {
    && top < |d.tasks| && |d.tasks[top].variableSorts| <= |d.sorts|
    && NarrowsTo(d.tasks[top].constraints, d.sorts[..|d.tasks[top].variableSorts|], p)
    && AllSettled(d.tasks[top].constraints, |d.tasks[top].constraints|, p)
  }

  ghost predicate TaskReason(d: Domain, top: nat, t: nat, p: Possible, perMethod: Table) {
    || (t == top && TopEntry(d, top, p))
    || exists m: nat, k: nat, i: nat :: m < |perMethod| && i < |perMethod[m]| && TaskFrom(d, m, k, perMethod[m][i], t, p)
  }

  ghost predicate TaskReasons(d: Domain, top: nat, perTask: Table, perMethod: Table) {
    forall t: nat, i: nat :: t < |perTask| && i < |perTask[t]| ==> TaskReason(d, top, t, perTask[t][i], perMethod)
  }

  ghost predicate MethodReasons(d: Domain, perTask: Table, perMethod: Table) {
    forall m: nat, i: nat :: m < |perMethod| && i < |perMethod[m]| ==> MethodReason(d, m, perMethod[m][i], perTask)
  }

  ghost predicate Reasons(d: Domain, top: nat, perTask: Table, perMethod: Table) {
    TaskReasons(d, top, perTask, perMethod) && MethodReasons(d, perTask, perMethod)
  }

  /** No entry makes a later one of the same task superfluous. */
  ghost predicate NoneSuperfluous(useIncludes: bool, perTask: Table) {
    forall t: nat, i: nat, j: nat :: t < |perTask| && i < j < |perTask[t]| ==> !Covers(useIncludes, perTask[t][i], perTask[t][j])
  }

  lemma MethodReasonMore(d: Domain, m: nat, q: Possible, a: Table, b: Table)
    requires Grown(a, b) && MethodReason(d, m, q, a)
    ensures MethodReason(d, m, q, b)
  {
    hide MethodFrom;
    var t: nat, i: nat :| t < |a| && i < |a[t]| && t < |d.tasks| && m in d.tasks[t].methods && MethodFrom(d, m, a[t][i], q);
    assert a[t] <= b[t];
    assert b[t][i] == a[t][i];
  }

  lemma TaskReasonMore(d: Domain, top: nat, t: nat, p: Possible, a: Table, b: Table)
    requires Grown(a, b) && TaskReason(d, top, t, p, a)
    ensures TaskReason(d, top, t, p, b)
  {
    hide TaskFrom, TopEntry;
    if !(t == top && TopEntry(d, top, p)) {
      var m: nat, k: nat, i: nat :| m < |a| && i < |a[m]| && TaskFrom(d, m, k, a[m][i], t, p);
      assert a[m] <= b[m];
      assert b[m][i] == a[m][i];
    }
  }

  lemma AddTask(d: Domain, top: nat, useIncludes: bool, t: nat, p: Possible, a: Table, b: Table)
    requires Reasons(d, top, a, b) && NoneSuperfluous(useIncludes, a) && t < |a| && TaskReason(d, top, t, p, b)
    requires forall i :: 0 <= i < |a[t]| ==> !Covers(useIncludes, a[t][i], p)
    ensures Reasons(d, top, a[t := a[t] + [p]], b) && NoneSuperfluous(useIncludes, a[t := a[t] + [p]])
  {
    hide MethodReason, TaskReason, Covers;
    var next := a[t := a[t] + [p]];
    assert Grown(a, next);
    forall m: nat, i: nat | m < |b| && i < |b[m]| ensures MethodReason(d, m, b[m][i], next) { MethodReasonMore(d, m, b[m][i], a, next); }
    forall u: nat, i: nat | u < |next| && i < |next[u]| ensures TaskReason(d, top, u, next[u][i], b) {
      if u != t || i < |a[t]| { assert next[u][i] == a[u][i]; }
    }
    forall u: nat, i: nat, j: nat | u < |next| && i < j < |next[u]| ensures !Covers(useIncludes, next[u][i], next[u][j]) {
      assert next[u][i] == a[u][i];
      if u != t || j < |a[t]| { assert next[u][j] == a[u][j]; }
    }
  }

  lemma AddMethod(d: Domain, top: nat, m: nat, q: Possible, a: Table, b: Table)
    requires Reasons(d, top, a, b) && m < |b| && MethodReason(d, m, q, a)
    ensures Reasons(d, top, a, b[m := b[m] + [q]])
  {
    hide MethodReason, TaskReason;
    var next := b[m := b[m] + [q]];
    assert Grown(b, next);
    forall t: nat, i: nat | t < |a| && i < |a[t]| ensures TaskReason(d, top, t, a[t][i], next) { TaskReasonMore(d, top, t, a[t][i], b, next); }
    forall u: nat, i: nat | u < |next| && i < |next[u]| ensures MethodReason(d, u, next[u][i], a) {
      if u != m || i < |b[m]| { assert next[u][i] == b[u][i]; }
    }
  }

  lemma ReasonForMethod(d: Domain, t: nat, i: nat, m: nat, q0: Possible, q: Possible, perTask: Table)
    requires t < |perTask| == |d.tasks| && i < |perTask[t]| && m in d.tasks[t].methods && m < |d.methods|
    requires MethodStart(d, d.methods[m], perTask[t][i], q0) && NarrowsTo(d.methods[m].constraints, q0, q)
    requires AllSettled(d.methods[m].constraints, |d.methods[m].constraints|, q) && forall v :: 0 <= v < |q| ==> q[v] != []
    ensures MethodReason(d, m, q, perTask)
  {
    assert MethodFrom(d, m, perTask[t][i], q);
  }

  lemma ReasonForTask(d: Domain, top: nat, m: nat, k: nat, i: nat, ps: Possible, p: Possible, perMethod: Table)
    requires m < |perMethod| == |d.methods| && i < |perMethod[m]| && k < |d.methods[m].subtasks| && d.methods[m].subtasks[k].task < |d.tasks|
    requires Projected(perMethod[m][i], d.methods[m].subtasks[k].arguments, ps)
    requires var t := d.methods[m].subtasks[k].task; NarrowsTo(d.tasks[t].constraints, ps, p) && AllSettled(d.tasks[t].constraints, |d.tasks[t].constraints|, p)
    ensures TaskReason(d, top, d.methods[m].subtasks[k].task, p, perMethod)
  {
    assert TaskFrom(d, m, k, perMethod[m][i], d.methods[m].subtasks[k].task, p);
  }

  /** Each value of a variable is of its sort, and one its task variable can have; with several task variables for it, the first. */
  lemma RecordedInside(d: Domain, m: nat, p: Possible, q: Possible, v: nat, x: int)
    requires d.Valid() && m < |d.methods| && PossibleOk(p, d.constants) && |p| == |d.methods[m].parameters|
    requires MethodFrom(d, m, p, q) && v < |q| && x in q[v]
    ensures v < |d.methods[m].variableSorts| && Members(d, d.methods[m].variableSorts[v], x)
    ensures forall i :: 0 <= i < |p| && IsFirst(d.methods[m].parameters, i) && d.methods[m].parameters[i] == v ==> x in p[i]
  {
    var meth := d.methods[m];
    assert d.MethodOk(meth);
    var q0 :| MethodStart(d, meth, p, q0) && NarrowsTo(meth.constraints, q0, q);
    NarrowsInside(meth.constraints, q0, q, v, x);
    var r: Possible :| Intersected(d, meth, p, |meth.parameters|, r) && |q0| == |r| && forall u :: 0 <= u < |q0| ==> q0[u] == Decoded(d, r[u]);
    var rs :| Intersections(d, meth, p, rs) && |rs| == |meth.parameters| + 1 && rs[|meth.parameters|] == r;
    IntersectionsSized(d, meth, p, rs, |meth.parameters|);
    IntersectedInside(d, meth, p, rs, |meth.parameters|, v, x);
  }

  ghost predicate IsFirst(s: seq<nat>, i: nat) {
    i < |s| && forall j :: 0 <= j < i ==> s[j] != s[i]
  }

  lemma NarrowsInside(constraints: seq<Constraint>, p: Possible, r: Possible, v: nat, x: int)
    requires NarrowsTo(constraints, p, r) && v < |r| && x in r[v]
    ensures |r| == |p| && x in p[v]
  {
    var ps: seq<Possible> :| |ps| > 0 && ps[0] == p && ps[|ps| - 1] == r && Steps(constraints, ps);
    StepsInside(constraints, ps, v, x, |ps| - 1);
  }

  lemma EffectInside(constraints: seq<Constraint>, p: Possible, r: Possible, v: nat, x: int)
    requires EffectOfSome(constraints, p, r) && v < |r| && x in r[v]
    ensures |r| == |p| && x in p[v]
  {
    var c :| 0 <= c < |constraints| && Effect(constraints[c], p, r);
    var con := constraints[c];
    if con.equal {
      EqualizedInside(con.var1, con.var2, p, r, v, x);
    } else {
      var q: Possible :| Erased(con.var1, con.var2, p, q) && Erased(con.var2, con.var1, q, r);
      ErasedInside(con.var2, con.var1, q, r, v, x);
      ErasedInside(con.var1, con.var2, p, q, v, x);
    }
  }

  lemma EqualizedInside(v: nat, w: nat, p: Possible, r: Possible, u: nat, x: int)
    requires Equalized(v, w, p, r) && u < |r| && x in r[u]
    ensures x in p[u]
  {
  }

  lemma ErasedInside(v: nat, w: nat, p: Possible, r: Possible, u: nat, x: int)
    requires Erased(v, w, p, r) && u < |r| && x in r[u]
    ensures x in p[u]
  {
  }

  lemma {:induction false} StepsInside(constraints: seq<Constraint>, ps: seq<Possible>, v: nat, x: int, k: nat)
    requires k < |ps| && Steps(constraints, ps) && v < |ps[k]| && x in ps[k][v]
    ensures |ps[0]| == |ps[k]| && x in ps[0][v]
  {
    if k > 0 {
      assert EffectOfSome(constraints, ps[k - 1], ps[k - 1 + 1]);
      EffectInside(constraints, ps[k - 1], ps[k], v, x);
      StepsInside(constraints, ps, v, x, k - 1);
    }
  }

  lemma {:induction false} IntersectionsSized(d: Domain, m: Method, p: Possible, rs: seq<Possible>, k: nat)
    requires Intersections(d, m, p, rs) && k < |rs|
    ensures |rs[k]| == |m.variableSorts|
  {
    if k > 0 { assert IntersectedAt(d, m, p, k - 1, rs[k - 1], rs[k - 1 + 1]); }
  }

  lemma {:induction false} IntersectedInside(d: Domain, m: Method, p: Possible, rs: seq<Possible>, k: nat, v: nat, x: int)
    requires d.Valid() && d.MethodOk(m) && PossibleOk(p, d.constants) && Intersections(d, m, p, rs) && k < |rs| && v < |rs[k]| == |m.variableSorts|
    requires x in Decoded(d, rs[k][v])
    ensures x in d.sorts[m.variableSorts[v]]
    ensures (forall j :: 0 <= j < k ==> m.parameters[j] != v) ==> rs[k][v] == [Code(m.variableSorts[v])]
    ensures forall i :: 0 <= i < k && IsFirst(m.parameters, i) && m.parameters[i] == v ==> x in p[i]
  {
    if k > 0 {
      assert IntersectedAt(d, m, p, k - 1, rs[k - 1], rs[k - 1 + 1]);
      if m.parameters[k - 1] == v {
        forall y | y in rs[k][v] ensures y >= 0 {
          assert Remains(d, rs[k - 1][v], p[k - 1], y);
          IntersectedInside(d, m, p, rs, k - 1, v, y);
        }
        assert |rs[k][v]| > 0 ==> rs[k][v][0] in rs[k][v];
        assert Decoded(d, rs[k][v]) == rs[k][v];
        assert Remains(d, rs[k - 1][v], p[k - 1], x);
        IntersectedInside(d, m, p, rs, k - 1, v, x);
        NotCoded(p[k - 1], d.constants);
      } else {
        IntersectedInside(d, m, p, rs, k - 1, v, x);
      }
    }
  }

  // ----- bookkeeping of the search -----

  lemma NothingNew(d: Domain, perTask: Table, perMethod: Table)
    requires |perTask| == |d.tasks|
    ensures Grown(perTask, perTask) && Grown(perMethod, perMethod) && NewExpanded(d, perTask, perTask, perMethod, |d.tasks|)
  {
  }

  lemma SelfIncluded(p: Possible)
    ensures Includes(p, p)
  {
  }

  /** The first i methods of the task have been expanded for p. */
  ghost predicate MethodsExpanded(d: Domain, t: nat, p: Possible, i: nat, perTask: Table, perMethod: Table) {
    t < |d.tasks| && i <= |d.tasks[t].methods| && forall j :: 0 <= j < i ==> MethodExpanded(d, p, d.tasks[t].methods[j], perTask, perMethod)
  }

  lemma StartGray(d: Domain, perTask0: Table, perTask: Table, perMethod: Table, t: nat, p: Possible)
    requires t < |perTask0| == |d.tasks| && perTask == perTask0[t := perTask0[t] + [p]]
    ensures Grown(perTask, perTask) && Grown(perMethod, perMethod)
    ensures NewExpanded(d, perTask0, perTask, perMethod, t) && MethodsExpanded(d, t, p, 0, perTask, perMethod)
  {
    hide Expanded;
  }

  lemma NewOn(d: Domain, perTask0: Table, a: Table, b: Table, perTask: Table, perMethod: Table, gray: nat)
    requires NewExpanded(d, perTask0, a, b, gray) && NewExpanded(d, a, perTask, perMethod, |d.tasks|)
    requires Grown(a, perTask) && Grown(b, perMethod)
    ensures NewExpanded(d, perTask0, perTask, perMethod, gray)
  {
    hide Expanded;
    forall u: nat, i: nat | u < |perTask| && |perTask0[u]| <= i < |perTask[u]| && !(u == gray && i == |perTask0[u]|) ensures Expanded(d, u, perTask[u][i], perTask, perMethod) {
      assert a[u] <= perTask[u];
      if i < |a[u]| {
        assert a[u][i] == perTask[u][i];
        AllExpandedMore(d, u, a[u][i], a, b, perTask, perMethod);
      }
    }
  }

  lemma StillExpanded(d: Domain, t: nat, p: Possible, i: nat, perTask0: Table, a: Table, b: Table, perTask: Table, perMethod: Table)
    requires NewExpanded(d, perTask0, a, b, t) && NewExpanded(d, a, perTask, perMethod, |d.tasks|) && Grown(a, perTask) && Grown(b, perMethod)
    requires MethodsExpanded(d, t, p, i, a, b) && i < |d.tasks[t].methods| && MethodExpanded(d, p, d.tasks[t].methods[i], perTask, perMethod)
    ensures NewExpanded(d, perTask0, perTask, perMethod, t) && MethodsExpanded(d, t, p, i + 1, perTask, perMethod)
  {
    hide MethodExpanded, Expanded, Grown, NewExpanded;
    NewOn(d, perTask0, a, b, perTask, perMethod, t);
    forall j | 0 <= j < i + 1 ensures MethodExpanded(d, p, d.tasks[t].methods[j], perTask, perMethod) {
      if j < i { ExpandedMore(d, p, d.tasks[t].methods[j], a, b, perTask, perMethod); }
    }
  }

  lemma Finished(d: Domain, t: nat, p: Possible, perTask0: Table, perTask: Table, perMethod: Table)
    requires t < |perTask0| == |d.tasks| && Grown(perTask0[t := perTask0[t] + [p]], perTask) && NewExpanded(d, perTask0, perTask, perMethod, t)
    requires MethodsExpanded(d, t, p, |d.tasks[t].methods|, perTask, perMethod)
    ensures |perTask0[t]| < |perTask[t]| && perTask[t][|perTask0[t]|] == p && NewExpanded(d, perTask0, perTask, perMethod, |d.tasks|)
  {
    hide MethodExpanded;
    assert perTask0[t := perTask0[t] + [p]][t] <= perTask[t];
    assert perTask[t][|perTask0[t]|] == (perTask0[t] + [p])[|perTask0[t]|] == p;
    assert Expanded(d, t, p, perTask, perMethod);
    hide Expanded;
  }

  /** The first k subtasks of all instances that fit q are recorded. */
  ghost predicate SubtasksCovered(d: Domain, m: nat, q: Possible, k: nat, perTask: Table) {
    m < |d.methods| && k <= |d.methods[m].subtasks| &&
    forall s, j :: 0 <= j < k && Fits(s, q) ==> SubtaskCovered(d, d.methods[m].subtasks[j], s, perTask)
  }

  lemma SubtaskStep(d: Domain, m: nat, q: Possible, k: nat, a: Table, perTask: Table, ps: Possible, entry: nat)
    requires SubtasksCovered(d, m, q, k, a) && k < |d.methods[m].subtasks| && Grown(a, perTask)
    requires forall s :: Fits(s, q) && LegalTask(d, d.methods[m].subtasks[k].task, Pick(s, d.methods[m].subtasks[k].arguments)) ==> Fits(Pick(s, d.methods[m].subtasks[k].arguments), ps)
    requires d.methods[m].subtasks[k].task < |perTask| && entry < |perTask[d.methods[m].subtasks[k].task]| && Includes(perTask[d.methods[m].subtasks[k].task][entry], ps)
    ensures SubtasksCovered(d, m, q, k + 1, perTask)
  {
    hide Fits, Includes, LegalTask, Grown;
    MoreCovered(a, perTask);
    var sub := d.methods[m].subtasks[k];
    forall s, j | 0 <= j < k + 1 && Fits(s, q) ensures SubtaskCovered(d, d.methods[m].subtasks[j], s, perTask) {
      if j < k {
        assert SubtaskCovered(d, d.methods[m].subtasks[j], s, a);
      } else if LegalTask(d, sub.task, Pick(s, sub.arguments)) {
        IncludedFits(perTask[sub.task][entry], ps, Pick(s, sub.arguments));
      }
    }
  }

  lemma MethodDone(d: Domain, m: nat, p: Possible, q0: Possible, q: Possible, perTask: Table, perMethod: Table, entry: nat)
    requires m < |d.methods| && SubtasksCovered(d, m, q, |d.methods[m].subtasks|, perTask)
    requires forall s :: LegalMethod(d, m, s) && Fits(Pick(s, d.methods[m].parameters), p) ==> Fits(s, q0)
    requires forall s :: Fits(s, q0) && Holds(d.methods[m].constraints, s) ==> Fits(s, q)
    requires m < |perMethod| && entry < |perMethod[m]| && perMethod[m][entry] == q
    ensures MethodExpanded(d, p, m, perTask, perMethod)
  {
    hide SubtaskCovered;
    forall s | LegalMethod(d, m, s) && Fits(Pick(s, d.methods[m].parameters), p) ensures BelowCovered(d, m, s, perTask, perMethod) {
      assert Fits(s, q0) && Fits(s, q);
      assert Covered(perMethod, m, s);
    }
  }

  lemma NoInstance(d: Domain, m: nat, p: Possible, q0: Possible, q: Possible, v: nat, perTask: Table, perMethod: Table)
    requires m < |d.methods| && v < |q| && q[v] == []
    requires forall s :: LegalMethod(d, m, s) && Fits(Pick(s, d.methods[m].parameters), p) ==> Fits(s, q0)
    requires forall s :: Fits(s, q0) && Holds(d.methods[m].constraints, s) ==> Fits(s, q)
    ensures MethodExpanded(d, p, m, perTask, perMethod)
  {
    forall s | LegalMethod(d, m, s) ensures !Fits(Pick(s, d.methods[m].parameters), p) {
      assert !Fits(s, q);
    }
  }

  /** The sets of the listed variables. */
  ghost predicate Projected(q: Possible, vars: seq<nat>, ps: Possible) {
    |ps| == |vars| && forall i :: 0 <= i < |vars| ==> vars[i] < |q| && ps[i] == q[vars[i]]
  }

  /** Lines 539-544. */
  method SubtaskConstants(q: Possible, arguments: seq<nat>, n: nat) returns (ps: Possible)
    requires PossibleOk(q, n) && forall i :: 0 <= i < |arguments| ==> arguments[i] < |q|
    ensures Projected(q, arguments, ps) && PossibleOk(ps, n) && forall s :: Fits(s, q) ==> Fits(Pick(s, arguments), ps)
  {
    ps := [];
    for i := 0 to |arguments|
      invariant |ps| == i && forall j :: 0 <= j < i ==> ps[j] == q[arguments[j]]
    {
      ps := ps + [q[arguments[i]]];
    }
  }

  method FirstEmpty(q: Possible) returns (v: int)
    ensures v == -1 || (0 <= v < |q| && q[v] == [])
    ensures v == -1 ==> forall u :: 0 <= u < |q| ==> q[u] != []
  {
    for i := 0 to |q|
      invariant forall u :: 0 <= u < i ==> q[u] != []
    {
      if |q[i]| == 0 { return i; }
    }
    v := -1;
  }

  class Typing {
    const domain: Domain
    const useIncludesForContainsTest: bool
    ghost const top: nat
    var possibleConstantsPerTask: Table
    var possibleConstantsPerMethod: Table

    constructor (domain: Domain, useIncludes: bool, ghost top: nat)
      requires domain.Valid()
      ensures Valid() && this.domain == domain && useIncludesForContainsTest == useIncludes && this.top == top && Justified()
      ensures forall t :: 0 <= t < |possibleConstantsPerTask| ==> possibleConstantsPerTask[t] == []
    {
      this.domain, useIncludesForContainsTest, this.top := domain, useIncludes, top;
      possibleConstantsPerTask := seq(|domain.tasks|, _ => []);
      possibleConstantsPerMethod := seq(|domain.methods|, _ => []);
    }

    ghost predicate Valid()
      reads this
    {
      domain.Valid() && TableOk(possibleConstantsPerTask, domain, TaskArity(domain)) && TableOk(possibleConstantsPerMethod, domain, MethodArity(domain))
    }

    /** Every entry comes from another one, or is the top task's, and none makes a later one superfluous. */
    ghost predicate Justified()
      reads this
    {
      && Reasons(domain, top, possibleConstantsPerTask, possibleConstantsPerMethod)
      && NoneSuperfluous(useIncludesForContainsTest, possibleConstantsPerTask)
    }

    /** Lines 232-261: the first recorded entry that makes this one superfluous. */
    method FindVisited(t: nat, p: Possible) returns (index: int)
      requires Valid() && t < |domain.tasks| && |p| == |domain.tasks[t].variableSorts|
      ensures index == -1 || (0 <= index < |possibleConstantsPerTask[t]| && Includes(possibleConstantsPerTask[t][index], p))
      ensures index == -1 ==> p !in possibleConstantsPerTask[t]
      ensures forall j :: 0 <= j < (if index == -1 then |possibleConstantsPerTask[t]| else index) ==>
        !Covers(useIncludesForContainsTest, possibleConstantsPerTask[t][j], p)
      ensures index >= 0 ==> Covers(useIncludesForContainsTest, possibleConstantsPerTask[t][index], p)
    {
      var i: nat := 0;
      while i < |possibleConstantsPerTask[t]|
        invariant i <= |possibleConstantsPerTask[t]| && forall j :: 0 <= j < i ==> possibleConstantsPerTask[t][j] != p
        invariant forall j :: 0 <= j < i ==> !Covers(useIncludesForContainsTest, possibleConstantsPerTask[t][j], p)
      {
        var visited := Visited(possibleConstantsPerTask[t][i], p, useIncludesForContainsTest);
        if visited { return i; }
        i := i + 1;
      }
      index := -1;
    }

    /** Lines 228-319 and 499-561. The returned entry includes p; it may still be under way, but every entry added here is expanded. */
    method TaskDfs(t: nat, p: Possible) returns (index: nat)
      requires Valid() && t < |domain.tasks| && |p| == |domain.tasks[t].variableSorts| && PossibleOk(p, domain.constants)
      requires Justified() && TaskReason(domain, top, t, p, possibleConstantsPerMethod)
      modifies this
      ensures Justified()
      ensures Valid() && Grown(old(possibleConstantsPerTask), possibleConstantsPerTask) && Grown(old(possibleConstantsPerMethod), possibleConstantsPerMethod)
      ensures index < |possibleConstantsPerTask[t]| && Includes(possibleConstantsPerTask[t][index], p)
      ensures NewExpanded(domain, old(possibleConstantsPerTask), possibleConstantsPerTask, possibleConstantsPerMethod, |domain.tasks|)
      decreases Free(domain, possibleConstantsPerTask), 0
    {
      hide *;
      TableFacts(t);
      ghost var perTask0, perMethod0 := possibleConstantsPerTask, possibleConstantsPerMethod;
      var found := FindVisited(t, p);
      if found >= 0 {
        index := found;
        NothingNew(domain, possibleConstantsPerTask, possibleConstantsPerMethod);
        return;
      }
      index := |possibleConstantsPerTask[t]|;
      FreeNext(domain, possibleConstantsPerTask, t, p);
      Justify();
      AddTask(domain, top, useIncludesForContainsTest, t, p, perTask0, perMethod0);
      PushTask(t, p);
      Justify();
      ghost var perTask1 := possibleConstantsPerTask;
      SelfIncluded(p);
      StartGray(domain, perTask0, possibleConstantsPerTask, possibleConstantsPerMethod, t, p);
      var i: nat := 0;
      while i < |domain.tasks[t].methods|
        invariant i <= |domain.tasks[t].methods| && Valid() && Justified() && Grown(perTask1, possibleConstantsPerTask) && Grown(perMethod0, possibleConstantsPerMethod)
        invariant NewExpanded(domain, perTask0, possibleConstantsPerTask, possibleConstantsPerMethod, t)
        invariant MethodsExpanded(domain, t, p, i, possibleConstantsPerTask, possibleConstantsPerMethod)
      {
        TaskMethod(t, i);
        FreeLess(domain, perTask1, possibleConstantsPerTask);
        ghost var a, b := possibleConstantsPerTask, possibleConstantsPerMethod;
        EntryStays(perTask1, possibleConstantsPerTask, t, index);
        ExpandMethod(t, index, domain.tasks[t].methods[i], p);
        GrownOn(perTask1, a, possibleConstantsPerTask);
        GrownOn(perMethod0, b, possibleConstantsPerMethod);
        StillExpanded(domain, t, p, i, perTask0, a, b, possibleConstantsPerTask, possibleConstantsPerMethod);
        i := i + 1;
      }
      GrownOn(perTask0, perTask1, possibleConstantsPerTask);
      Finished(domain, t, p, perTask0, possibleConstantsPerTask, possibleConstantsPerMethod);
    }

    lemma Justify()
      ensures Justified() <==>
        Reasons(domain, top, possibleConstantsPerTask, possibleConstantsPerMethod) && NoneSuperfluous(useIncludesForContainsTest, possibleConstantsPerTask)
    {
    }

    lemma TableFacts(t: nat)
      requires Valid() && t < |domain.tasks|
      ensures t < |possibleConstantsPerTask| == |domain.tasks|
    {
    }

    lemma TaskMethod(t: nat, i: nat)
      requires Valid() && t < |domain.tasks| && i < |domain.tasks[t].methods|
      ensures domain.tasks[t].methods[i] < |domain.methods| && |domain.methods[domain.tasks[t].methods[i]].parameters| == |domain.tasks[t].variableSorts|
    {
      assert domain.TaskOk(domain.tasks[t]);
    }

    method PushTask(t: nat, p: Possible)
      requires Valid() && t < |domain.tasks| && |p| == |domain.tasks[t].variableSorts| && PossibleOk(p, domain.constants) && t < |possibleConstantsPerTask|
      modifies this`possibleConstantsPerTask
      ensures Valid() && possibleConstantsPerTask == old(possibleConstantsPerTask)[t := old(possibleConstantsPerTask)[t] + [p]]
    {
      possibleConstantsPerTask := possibleConstantsPerTask[t := possibleConstantsPerTask[t] + [p]];
    }

    method PushMethod(m: nat, q: Possible)
      requires Valid() && m < |domain.methods| && |q| == |domain.methods[m].variableSorts| && PossibleOk(q, domain.constants)
      modifies this`possibleConstantsPerMethod
      ensures Valid() && m < |possibleConstantsPerMethod| && Grown(old(possibleConstantsPerMethod), possibleConstantsPerMethod)
      ensures m < |old(possibleConstantsPerMethod)| && possibleConstantsPerMethod == old(possibleConstantsPerMethod)[m := old(possibleConstantsPerMethod[m]) + [q]]
      ensures |possibleConstantsPerMethod[m]| > 0 && possibleConstantsPerMethod[m][|possibleConstantsPerMethod[m]| - 1] == q
    {
      possibleConstantsPerMethod := possibleConstantsPerMethod[m := possibleConstantsPerMethod[m] + [q]];
    }

    /** Lines 295-319 and 499-557 for one method. */
    method ExpandMethod(ghost t: nat, ghost index: nat, m: nat, p: Possible)
      requires t < |possibleConstantsPerTask| && index < |possibleConstantsPerTask[t]| && possibleConstantsPerTask[t][index] == p
      requires Justified() && t < |domain.tasks| && m in domain.tasks[t].methods
      requires Valid() && m < |domain.methods| && |p| == |domain.methods[m].parameters| && PossibleOk(p, domain.constants)
      modifies this
      ensures Justified()
      ensures Valid() && Grown(old(possibleConstantsPerTask), possibleConstantsPerTask) && Grown(old(possibleConstantsPerMethod), possibleConstantsPerMethod)
      ensures MethodExpanded(domain, p, m, possibleConstantsPerTask, possibleConstantsPerMethod)
      ensures NewExpanded(domain, old(possibleConstantsPerTask), possibleConstantsPerTask, possibleConstantsPerMethod, |domain.tasks|)
      decreases Free(domain, possibleConstantsPerTask), 2
    {
      hide *;
      MethodFacts(m);
      var q0 := MethodConstants(domain, m, p);
      var q := ApplyConstraints(q0, domain.methods[m].constraints, domain.constants);
      NothingNew(domain, possibleConstantsPerTask, possibleConstantsPerMethod);
      var empty := FirstEmpty(q);
      if empty >= 0 {
        NoInstance(domain, m, p, q0, q, empty, possibleConstantsPerTask, possibleConstantsPerMethod);
        return;
      }
      ghost var perTask0, perMethod0 := possibleConstantsPerTask, possibleConstantsPerMethod;
      ReasonForMethod(domain, t, index, m, q0, q, perTask0);
      Justify();
      TablesSized();
      AddMethod(domain, top, m, q, perTask0, perMethod0);
      PushMethod(m, q);
      Justify();
      ghost var entry, perMethod1 := |possibleConstantsPerMethod[m]| - 1, possibleConstantsPerMethod;
      ExpandSubtasks(m, q, entry);
      GrownOn(old(possibleConstantsPerMethod), perMethod1, possibleConstantsPerMethod);
      EntryStays(perMethod1, possibleConstantsPerMethod, m, entry);
      MethodDone(domain, m, p, q0, q, possibleConstantsPerTask, possibleConstantsPerMethod, entry);
    }

    lemma MethodFacts(m: nat)
      requires Valid() && m < |domain.methods|
      ensures domain.Valid() && |possibleConstantsPerTask| == |domain.tasks|
      ensures ConstraintsOk(domain.methods[m].constraints, |domain.methods[m].variableSorts|)
    {
      assert domain.MethodOk(domain.methods[m]);
    }

    lemma TablesSized()
      requires Valid()
      ensures |possibleConstantsPerTask| == |domain.tasks| && |possibleConstantsPerMethod| == |domain.methods|
    {
    }

    lemma SubtaskFacts(m: nat, k: nat)
      requires Valid() && m < |domain.methods| && k < |domain.methods[m].subtasks|
      ensures var sub := domain.methods[m].subtasks[k]; sub.task < |domain.tasks| && |sub.arguments| == |domain.tasks[sub.task].variableSorts|
      ensures ConstraintsOk(domain.tasks[domain.methods[m].subtasks[k].task].constraints, |domain.methods[m].subtasks[k].arguments|)
      ensures forall i :: 0 <= i < |domain.methods[m].subtasks[k].arguments| ==> domain.methods[m].subtasks[k].arguments[i] < |domain.methods[m].variableSorts|
    {
      assert domain.MethodOk(domain.methods[m]) && domain.SubtaskOk(domain.methods[m].subtasks[k], |domain.methods[m].variableSorts|);
      assert domain.TaskOk(domain.tasks[domain.methods[m].subtasks[k].task]);
    }

    static lemma EntryStays(a: Table, b: Table, m: nat, entry: nat)
      requires Grown(a, b) && m < |a| && entry < |a[m]|
      ensures m < |b| && entry < |b[m]| && b[m][entry] == a[m][entry]
    {
      assert a[m] <= b[m];
    }

    /** Lines 535-557. */
    method ExpandSubtasks(m: nat, q: Possible, ghost entryOfMethod: nat)
      requires Justified() && m < |possibleConstantsPerMethod| && entryOfMethod < |possibleConstantsPerMethod[m]| && possibleConstantsPerMethod[m][entryOfMethod] == q
      requires Valid() && m < |domain.methods| && |q| == |domain.methods[m].variableSorts| && PossibleOk(q, domain.constants)
      modifies this
      ensures Justified()
      ensures Valid() && Grown(old(possibleConstantsPerTask), possibleConstantsPerTask) && Grown(old(possibleConstantsPerMethod), possibleConstantsPerMethod)
      ensures SubtasksCovered(domain, m, q, |domain.methods[m].subtasks|, possibleConstantsPerTask)
      ensures NewExpanded(domain, old(possibleConstantsPerTask), possibleConstantsPerTask, possibleConstantsPerMethod, |domain.tasks|)
      decreases Free(domain, possibleConstantsPerTask), 1
    {
      hide *;
      MethodFacts(m);
      ghost var perTask0, perMethod0 := possibleConstantsPerTask, possibleConstantsPerMethod;
      NothingNew(domain, possibleConstantsPerTask, possibleConstantsPerMethod);
      NoSubtasksYet(domain, m, q, possibleConstantsPerTask);
      var k: nat := 0;
      while k < |domain.methods[m].subtasks|
        invariant k <= |domain.methods[m].subtasks| && Valid() && Justified() && Grown(perTask0, possibleConstantsPerTask) && Grown(perMethod0, possibleConstantsPerMethod)
        invariant SubtasksCovered(domain, m, q, k, possibleConstantsPerTask)
        invariant NewExpanded(domain, perTask0, possibleConstantsPerTask, possibleConstantsPerMethod, |domain.tasks|)
      {
        var sub := domain.methods[m].subtasks[k];
        SubtaskFacts(m, k);
        ghost var a, b := possibleConstantsPerTask, possibleConstantsPerMethod;
        TablesSized();
        EntryStays(perMethod0, b, m, entryOfMethod);
        var ps0 := SubtaskConstants(q, sub.arguments, domain.constants);
        ProjectedSize(q, sub.arguments, ps0);
        var ps := ApplyConstraints(ps0, domain.tasks[sub.task].constraints, domain.constants);
        FreeLess(domain, perTask0, possibleConstantsPerTask);
        ReasonForTask(domain, top, m, k, entryOfMethod, ps0, ps, b);
        var entry := TaskDfs(sub.task, ps);
        TableFacts(sub.task);
        LegalFits(domain, sub, q, ps0, ps);
        SubtaskStep(domain, m, q, k, a, possibleConstantsPerTask, ps, entry);
        GrownOn(perTask0, a, possibleConstantsPerTask);
        GrownOn(perMethod0, b, possibleConstantsPerMethod);
        NewOn(domain, perTask0, a, b, possibleConstantsPerTask, possibleConstantsPerMethod, |domain.tasks|);
        k := k + 1;
      }
    }

    static lemma ProjectedSize(q: Possible, vars: seq<nat>, ps: Possible)
      requires Projected(q, vars, ps)
      ensures |ps| == |vars|
    {
    }

    static lemma NoSubtasksYet(d: Domain, m: nat, q: Possible, perTask: Table)
      requires m < |d.methods|
      ensures SubtasksCovered(d, m, q, 0, perTask)
    {
    }

    static lemma LegalFits(d: Domain, sub: Subtask, q: Possible, ps0: Possible, ps: Possible)
      requires sub.task < |d.tasks|
      requires forall s :: Fits(s, q) ==> Fits(Pick(s, sub.arguments), ps0)
      requires forall s :: Fits(s, ps0) && Holds(d.tasks[sub.task].constraints, s) ==> Fits(s, ps)
      ensures forall s :: Fits(s, q) && LegalTask(d, sub.task, Pick(s, sub.arguments)) ==> Fits(Pick(s, sub.arguments), ps)
    {
      hide Fits, Holds;
    }
  }

  /** Lines 167-181: typing below the top task. The initial sets are those of the first sorts of the domain, whatever the sorts of the
      top task's variables are (172); for the usual parameterless top task there is nothing to choose. Everything in a decomposition of
      an instance whose arguments lie in the initial sets is recorded; every recorded entry is that of the top task or comes from
      another one by exactly these intersections and constraints, and none is superfluous. */
  method Compute(d: Domain, top: nat, useIncludes: bool) returns (perTask: Table, perMethod: Table)
    requires d.Valid() && top < |d.tasks| && |d.tasks[top].variableSorts| <= |d.sorts|
    ensures forall t: Tree :: IsDecomposition(d, t) && t.task == top && Fits(t.arguments, d.sorts[..|d.tasks[top].variableSorts|]) ==> TreeCovered(t, perTask, perMethod)
    ensures |perTask| == |d.tasks| && |perMethod| == |d.methods| && Reasons(d, top, perTask, perMethod) && NoneSuperfluous(useIncludes, perTask)
  {
    hide *;
    var typing := new Typing(d, useIncludes, top);
    var n := |d.tasks[top].variableSorts|;
    TopFacts(d, top);
    var constants := ApplyConstraints(d.sorts[..n], d.tasks[top].constraints, d.constants);
    ghost var perTask0 := typing.possibleConstantsPerTask;
    TopReason(d, top, constants, typing.possibleConstantsPerMethod);
    var entry := typing.TaskDfs(top, constants);
    perTask, perMethod := typing.possibleConstantsPerTask, typing.possibleConstantsPerMethod;
    typing.TableFacts(top);
    typing.TablesSized();
    typing.Justify();
    AllDone(d, top, constants, perTask0, perTask, perMethod, entry);
  }

  lemma TopReason(d: Domain, top: nat, p: Possible, perMethod: Table)
    requires top < |d.tasks| && |d.tasks[top].variableSorts| <= |d.sorts|
    requires NarrowsTo(d.tasks[top].constraints, d.sorts[..|d.tasks[top].variableSorts|], p)
    requires AllSettled(d.tasks[top].constraints, |d.tasks[top].constraints|, p)
    ensures TaskReason(d, top, top, p, perMethod)
  {
  }

  lemma TopFacts(d: Domain, top: nat)
    requires d.Valid() && top < |d.tasks| && |d.tasks[top].variableSorts| <= |d.sorts|
    ensures PossibleOk(d.sorts[..|d.tasks[top].variableSorts|], d.constants) && ConstraintsOk(d.tasks[top].constraints, |d.tasks[top].variableSorts|)
  {
    assert d.TaskOk(d.tasks[top]);
  }

  lemma AllDone(d: Domain, top: nat, p: Possible, perTask0: Table, perTask: Table, perMethod: Table, entry: nat)
    requires top < |d.tasks| == |perTask| && |d.tasks[top].variableSorts| <= |d.sorts|
    requires forall s :: Fits(s, d.sorts[..|d.tasks[top].variableSorts|]) && Holds(d.tasks[top].constraints, s) ==> Fits(s, p)
    requires (forall t :: 0 <= t < |perTask0| ==> perTask0[t] == []) && NewExpanded(d, perTask0, perTask, perMethod, |d.tasks|)
    requires entry < |perTask[top]| && Includes(perTask[top][entry], p)
    ensures forall t: Tree :: IsDecomposition(d, t) && t.task == top && Fits(t.arguments, d.sorts[..|d.tasks[top].variableSorts|]) ==> TreeCovered(t, perTask, perMethod)
  {
    hide Expanded, Includes, TreeCovered;
    forall t: Tree | IsDecomposition(d, t) && t.task == top && Fits(t.arguments, d.sorts[..|d.tasks[top].variableSorts|]) ensures TreeCovered(t, perTask, perMethod) {
      assert Fits(t.arguments, p);
      IncludedFits(perTask[top][entry], p, t.arguments);
      assert Covered(perTask, t.task, t.arguments);
      Coverage(d, t, perTask, perMethod);
    }
  }

  // ----- asking (201-211, 563-605, 637-682), without a given plan -----

  const NOT_ASSIGNED := -1

  /** The assigned variables have values in the entry. */
  ghost predicate Compatible(p: Possible, partial: seq<int>) {
    |p| == |partial| && forall v :: 0 <= v < |p| && partial[v] != NOT_ASSIGNED ==> partial[v] in p[v]
  }

  /** For variable v the entries by the constants they allow. */
  ghost predicate IsSplit(entries: seq<Possible>, v: nat, k: nat, m: map<int, seq<nat>>)
    requires k <= |entries| && forall i :: 0 <= i < |entries| ==> v < |entries[i]|
  {
    && (forall e :: e in m ==> forall j :: 0 <= j < |m[e]| ==> m[e][j] < k && e in entries[m[e][j]][v])
    && (forall i: nat, e :: i < k && e in entries[i][v] ==> e in m && i in m[e])
  }

  /** Lines 201-211 for one variable. */
  method SplitVariable(entries: seq<Possible>, v: nat) returns (m: map<int, seq<nat>>)
    requires forall i :: 0 <= i < |entries| ==> v < |entries[i]|
    ensures IsSplit(entries, v, |entries|, m)
  {
    m := map[];
    var pc: nat := 0;
    while pc < |entries|
      invariant pc <= |entries| && IsSplit(entries, v, pc, m)
    {
      m := SplitEntry(entries, v, pc, m);
      pc := pc + 1;
    }
  }

  method SplitEntry(entries: seq<Possible>, v: nat, pc: nat, m0: map<int, seq<nat>>) returns (m: map<int, seq<nat>>)
    requires pc < |entries| && (forall i :: 0 <= i < |entries| ==> v < |entries[i]|) && IsSplit(entries, v, pc, m0)
    ensures IsSplit(entries, v, pc + 1, m)
  {
    m := m0;
    var set_ := entries[pc][v];
    var i: nat := 0;
    while i < |set_|
      invariant i <= |set_|
      invariant forall e :: e in m ==> forall j :: 0 <= j < |m[e]| ==> m[e][j] < pc + 1 && e in entries[m[e][j]][v]
      invariant forall q: nat, e :: q < pc && e in entries[q][v] ==> e in m && q in m[e]
      invariant forall e :: e in set_[..i] ==> e in m && pc in m[e]
    {
      var e := set_[i];
      assert set_[..i + 1] == set_[..i] + [e];
      var list := (if e in m then m[e] else []) + [pc];
      assert pc in list && (e in m ==> forall q :: q in m[e] ==> q in list);
      m := m[e := list];
      i := i + 1;
    }
    assert set_[..i] == set_;
  }

  method EntryAllows(p: Possible, partial: seq<int>) returns (yes: bool)
    requires |p| == |partial|
    ensures yes <==> Compatible(p, partial)
  {
    for v := 0 to |p|
      invariant forall u :: 0 <= u < v && partial[u] != NOT_ASSIGNED ==> partial[u] in p[u]
    {
      if partial[v] != NOT_ASSIGNED && partial[v] !in p[v] { return false; }
    }
    yes := true;
  }

  /** Looking only at the entries of the assigned variable with the fewest loses nothing: the answer is whether some recorded entry
      allows all assigned values; an assignment of no variable at all is always accepted. */
  method IsAssignmentCompatible(entries: seq<Possible>, splitted: seq<map<int, seq<nat>>>, partial: seq<int>) returns (yes: bool)
    requires |splitted| == |partial| && forall i :: 0 <= i < |entries| ==> |entries[i]| == |partial|
    requires forall v :: 0 <= v < |partial| ==> IsSplit(entries, v, |entries|, splitted[v])
    ensures yes <==> (exists i :: 0 <= i < |entries| && Compatible(entries[i], partial)) || (|partial| > 0 && forall v :: 0 <= v < |partial| ==> partial[v] == NOT_ASSIGNED)
  {
    var best := -1;
    var v: nat := 0;
    while v < |partial|
      invariant v <= |partial| && (best == -1 || (0 <= best < v && partial[best] != NOT_ASSIGNED && partial[best] in splitted[best]))
      invariant best == -1 ==> forall u :: 0 <= u < v ==> partial[u] == NOT_ASSIGNED
    {
      var e := partial[v];
      if e != NOT_ASSIGNED {
        if e !in splitted[v] {
          NoneAllows(entries, v, splitted[v], partial);
          return false;
        }
        if best == -1 || |splitted[v][e]| < |splitted[best][partial[best]]| { best := v; }
      }
      v := v + 1;
    }
    if best == -1 && |partial| > 0 { return true; }
    var ids := if best == -1 then seq(|entries|, i => i) else splitted[best][partial[best]];
    var j: nat := 0;
    while j < |ids|
      invariant j <= |ids| && forall k :: 0 <= k < j ==> !Compatible(entries[ids[k]], partial)
    {
      yes := EntryAllows(entries[ids[j]], partial);
      if yes { return true; }
      j := j + 1;
    }
    yes := false;
    forall i | 0 <= i < |entries| ensures !Compatible(entries[i], partial) {
      if best == -1 {
        assert ids[i] == i;
      } else if partial[best] in entries[i][best] {
        assert i in ids;
      }
    }
  }

  lemma NoneAllows(entries: seq<Possible>, v: nat, m: map<int, seq<nat>>, partial: seq<int>)
    requires v < |partial| && forall i :: 0 <= i < |entries| ==> |entries[i]| == |partial|
    requires IsSplit(entries, v, |entries|, m) && partial[v] != NOT_ASSIGNED && partial[v] !in m
    ensures forall i :: 0 <= i < |entries| ==> !Compatible(entries[i], partial)
  {
  }
}
