/** Search nodes and their successors (Model.cpp:488-998, 1001-1376, 1395-1411, 1482-1541, 2641-2673): the unconstrained
    steps and the task multiset are maintained incrementally, and effect-free and forced actions are applied at once. */
module Progression {
  import opened ProgressionSystem
  import opened TaskCounter

  datatype SearchNode = SearchNode(state: State, unconstraintPrimitive: seq<nat>, unconstraintAbstract: seq<nat>, contained: Counter,
                                   goalReachable: bool)

  // ----- what a node means -----

  /** The list holds every member of s once. */
  ghost predicate Enumerates(list: seq<nat>, s: set<nat>) {
    && (forall i :: 0 <= i < |list| ==> list[i] in s)
    && (forall i, j :: 0 <= i < j < |list| ==> list[i] != list[j])
    && (forall x :: x in s ==> x in list)
  }

  /** r is closed under successors. */
  ghost predicate Network(store: Store, r: set<nat>) {
    (forall x :: x in r ==> x in store) && (forall x, i :: x in r && x in store && 0 <= i < |store[x].successors| ==> store[x].successors[i] in r)
  }

  /** The steps of r without predecessors in r, actions or abstract steps. */
  ghost function FirstSteps(d: Domain, store: Store, r: set<nat>, primitive: bool): (s: set<nat>)
    ensures forall x :: x in s <==> x in r && x in store && !HasPredecessor(store, r, x) && store[x].task < |d.isPrimitive| && d.isPrimitive[store[x].task] == primitive
  {
    set x | x in r && x in store && !HasPredecessor(store, r, x) && store[x].task < |d.isPrimitive| && d.isPrimitive[store[x].task] == primitive
  }

  ghost function StepsOf(store: Store, r: set<nat>, t: int): (s: set<nat>)
    ensures forall x :: x in s <==> x in r && x in store && store[x].task == t
  {
    set x | x in r && x in store && store[x].task == t
  }

  /** The counter is the sorted multiset of the tasks of r. */
  ghost predicate Counts(c: Counter, store: Store, r: set<nat>) {
    c.Valid() && forall t :: c.Of(t) == |StepsOf(store, r, t)|
  }

  /** r is what remains to be done in node n: the two arrays hold exactly its steps without predecessors. */
  ghost predicate NodeOk(d: Domain, store: Store, n: SearchNode, r: set<nat>) {
    && |n.state| == d.stateBits && Network(store, r)
    && Enumerates(n.unconstraintPrimitive, FirstSteps(d, store, r, true))
    && Enumerates(n.unconstraintAbstract, FirstSteps(d, store, r, false))
    && Counts(n.contained, store, r)
  }

  /** Successors exist and lie on lower levels: the store is acyclic. */
  ghost predicate StoreOk(d: Domain, store: Store, level: map<nat, nat>, psID: nat) {
    && d.Valid()
    && (forall x :: x in store ==> x <= psID && store[x].task < |d.isPrimitive| && x in level)
    && (forall x, i :: x in store && 0 <= i < |store[x].successors| ==> Lower(store, level, x, store[x].successors[i]))
  }

  ghost predicate Lower(store: Store, level: map<nat, nat>, x: nat, y: nat) {
    y in store && x in level && y in level && level[y] < level[x]
  }

  ghost function Conf(n: SearchNode, r: set<nat>, store: Store, psID: nat): Config {
    Config(n.state, r, store, psID)
  }

  lemma ConfWellFormed(d: Domain, store: Store, level: map<nat, nat>, psID: nat, n: SearchNode, r: set<nat>)
    requires StoreOk(d, store, level, psID) && NodeOk(d, store, n, r)
    ensures d.Valid() && WellFormed(d, Conf(n, r, store, psID))
  {
  }

  /** Nodes stay as they are when the store grows. */
  lemma NodeOkGrows(d: Domain, store: Store, more: Store, n: SearchNode, r: set<nat>)
    requires NodeOk(d, store, n, r) && (forall x :: x in store ==> x in more && more[x] == store[x])
    ensures NodeOk(d, more, n, r)
  {
    assert forall y :: HasPredecessor(store, r, y) <==> HasPredecessor(more, r, y);
    assert FirstSteps(d, store, r, true) == FirstSteps(d, more, r, true);
    assert FirstSteps(d, store, r, false) == FirstSteps(d, more, r, false);
    forall t ensures StepsOf(store, r, t) == StepsOf(more, r, t) {
    }
  }

  /** The unconstrained steps determine what remains: it lies in every closed set around them. */
  lemma RemainingLeast(d: Domain, store: Store, level: map<nat, nat>, psID: nat, n: SearchNode, r: set<nat>, closed: set<nat>)
    requires StoreOk(d, store, level, psID) && NodeOk(d, store, n, r) && Network(store, closed)
    requires (forall x :: x in n.unconstraintPrimitive ==> x in closed) && (forall x :: x in n.unconstraintAbstract ==> x in closed)
    ensures r <= closed
  {
    var top := TopLevel(level, r);
    forall x | x in r ensures x in closed {
      InClosed(d, store, level, psID, n, r, closed, top, x);
    }
  }

  lemma {:induction false} InClosed(d: Domain, store: Store, level: map<nat, nat>, psID: nat, n: SearchNode, r: set<nat>, closed: set<nat>, top: nat, x: nat)
    requires StoreOk(d, store, level, psID) && NodeOk(d, store, n, r) && Network(store, closed) && x in r
    requires (forall y :: y in n.unconstraintPrimitive ==> y in closed) && (forall y :: y in n.unconstraintAbstract ==> y in closed)
    requires forall y :: y in r && y in level ==> level[y] <= top
    ensures x in closed
    decreases top - level[x]
  {
    if HasPredecessor(store, r, x) {
      var p :| p in r && p in store && x in store[p].successors;
      var i :| 0 <= i < |store[p].successors| && store[p].successors[i] == x;
      assert Lower(store, level, p, store[p].successors[i]);
      InClosed(d, store, level, psID, n, r, closed, top, p);
    } else {
      assert x in FirstSteps(d, store, r, true) || x in FirstSteps(d, store, r, false);
    }
  }

  lemma TopLevel(level: map<nat, nat>, r: set<nat>) returns (top: nat)
    ensures forall y :: y in r && y in level ==> level[y] <= top
    decreases |r|
  {
    if r == {} {
      top := 0;
    } else {
      var x :| x in r;
      top := TopLevel(level, r - {x});
      if x in level && level[x] > top { top := level[x]; }
    }
  }

  // ----- weights: why the predecessor elimination ends -----

  /** Number of paths below a step, counting itself. */
  ghost function Weight(d: Domain, store: Store, level: map<nat, nat>, psID: nat, x: nat): nat
    requires StoreOk(d, store, level, psID) && x in store
    decreases level[x], 0
  {
    1 + WeightBelow(d, store, level, psID, x, |store[x].successors|)
  }

  ghost function WeightBelow(d: Domain, store: Store, level: map<nat, nat>, psID: nat, x: nat, k: nat): nat
    requires StoreOk(d, store, level, psID) && x in store && k <= |store[x].successors|
    decreases level[x], 0, k
  {
    if k == 0 then 0 else
      assert Lower(store, level, x, store[x].successors[k - 1]);
      WeightBelow(d, store, level, psID, x, k - 1) + Weight(d, store, level, psID, store[x].successors[k - 1])
  }

  ghost predicate AllStored(store: Store, s: seq<nat>) {
    forall i :: 0 <= i < |s| ==> s[i] in store
  }

  ghost function WeightOf(d: Domain, store: Store, level: map<nat, nat>, psID: nat, s: seq<nat>): nat
    requires StoreOk(d, store, level, psID) && AllStored(store, s)
  {
    if s == [] then 0 else Weight(d, store, level, psID, s[0]) + WeightOf(d, store, level, psID, s[1..])
  }

  // ----- predecessor elimination (1009-1058) -----

  ghost function Elements(s: seq<nat>): (x: set<nat>)
    ensures forall i :: i in x <==> i in s
  {
    set i | i in s
  }

  /** The roots of the search: the other unconstrained steps and the successors of the progressed one. */
  ghost predicate Roots(store: Store, r: set<nat>, s: nat, roots: set<nat>) {
    && s in store && roots <= r - {s}
    && (forall x :: x in r - {s} && !HasPredecessor(store, r, x) ==> x in roots)
    && (forall y :: y in store[s].successors ==> y in roots)
  }

  /** What the loop keeps: first is what is still potentially first, stack what is to be looked at. */
  ghost predicate Eliminating(store: Store, r: set<nat>, s: nat, roots: set<nat>, first: set<nat>, stack: seq<nat>, done: set<nat>) {
    && s in store && first !! done
    && (forall x :: x in first ==> x in store[s].successors)
    && (forall x :: x in store[s].successors && x !in first ==> HasPredecessor(store, r - {s}, x))
    && (forall i :: 0 <= i < |stack| ==> HasPredecessor(store, r - {s}, stack[i]))
    && (forall z, y :: (z in roots || z in done) && z in store && y in store[z].successors ==> y in done || y in stack)
  }

  /** Everything below the roots has been looked at. */
  lemma {:induction false} Covered(store: Store, level: map<nat, nat>, r: set<nat>, s: nat, roots: set<nat>, done: set<nat>, top: nat, x: nat)
    requires Roots(store, r, s, roots) && Network(store, r) && x in r - {s}
    requires forall a, i :: a in store && 0 <= i < |store[a].successors| ==> Lower(store, level, a, store[a].successors[i])
    requires forall z, y :: (z in roots || z in done) && z in store && y in store[z].successors ==> y in done
    requires x in level && forall y :: y in r && y in level ==> level[y] <= top
    ensures x in roots || x in done
    ensures HasPredecessor(store, r - {s}, x) ==> x in done
    decreases top - level[x]
  {
    if HasPredecessor(store, r - {s}, x) {
      var p :| p in r - {s} && p in store && x in store[p].successors;
      var i :| 0 <= i < |store[p].successors| && store[p].successors[i] == x;
      assert Lower(store, level, p, store[p].successors[i]);
      Covered(store, level, r, s, roots, done, top, p);
    } else if HasPredecessor(store, r, x) {
      assert x in store[s].successors;
    }
  }

  /** The successors of s that s alone held back. */
  ghost function Released(store: Store, r: set<nat>, s: nat): (f: set<nat>)
    requires s in store
    ensures forall x :: x in f <==> x in store[s].successors && !HasPredecessor(store, r - {s}, x)
  {
    set x | x in store[s].successors && !HasPredecessor(store, r - {s}, x)
  }

  lemma EliminationDone(d: Domain, store: Store, level: map<nat, nat>, psID: nat, r: set<nat>, s: nat, roots: set<nat>, first: set<nat>, stack: seq<nat>, done: set<nat>)
    requires StoreOk(d, store, level, psID) && Network(store, r) && Roots(store, r, s, roots) && s in r
    requires Eliminating(store, r, s, roots, first, stack, done) && (first == {} || stack == [])
    ensures first == Released(store, r, s)
  {
    if stack == [] {
      var top := TopLevel(level, r);
      forall x | x in first ensures !HasPredecessor(store, r - {s}, x) {
        Covered(store, level, r, s, roots, done, top, x);
      }
    }
  }

  lemma PopStack(d: Domain, store: Store, level: map<nat, nat>, psID: nat, r: set<nat>, s: nat, roots: set<nat>, first: set<nat>, stack: seq<nat>, done: set<nat>,
                 pushed: seq<nat>)
    requires StoreOk(d, store, level, psID) && Network(store, r) && |stack| > 0 && stack[0] in store && !HasPredecessor(store, r, s)
    requires Eliminating(store, r, s, roots, first, stack, done)
    requires forall y :: y in store[stack[0]].successors && y !in done + {stack[0]} ==> y in pushed
    requires forall y :: y in pushed ==> y in store[stack[0]].successors || y in stack[1..]
    requires forall y :: y in stack[1..] ==> y in pushed
    ensures Eliminating(store, r, s, roots, first - {stack[0]}, pushed, done + {stack[0]})
  {
    var ps2 := stack[0];
    assert HasPredecessor(store, r - {s}, stack[0]);
    FewerPredecessors(store, r, r - {s}, ps2);
    forall i | 0 <= i < |pushed| ensures HasPredecessor(store, r - {s}, pushed[i]) {
      if pushed[i] in stack[1..] {
        var j :| 0 <= j < |stack[1..]| && stack[1..][j] == pushed[i];
        assert stack[j + 1] == pushed[i];
      } else {
        StaysInside(store, r, s, ps2, pushed[i]);
      }
    }
    forall z, y | (z in roots || z in done + {ps2}) && z in store && y in store[z].successors ensures y in done + {ps2} || y in pushed {
      if z in roots || z in done {
        assert y in done || y in stack;
        assert y in stack ==> y == ps2 || y in stack[1..];
      }
    }
  }

  /** A step with a predecessor other than s is itself a predecessor other than s. */
  lemma StaysInside(store: Store, r: set<nat>, s: nat, x: nat, y: nat)
    requires Network(store, r) && x in store && HasPredecessor(store, r - {s}, x) && y in store[x].successors && x != s
    ensures HasPredecessor(store, r - {s}, y)
  {
    var p :| p in r - {s} && p in store && x in store[p].successors;
    var i :| 0 <= i < |store[p].successors| && store[p].successors[i] == x;
    assert x in r - {s};
  }

  lemma {:induction false} WeightConcat(d: Domain, store: Store, level: map<nat, nat>, psID: nat, s: seq<nat>, t: seq<nat>)
    requires StoreOk(d, store, level, psID) && AllStored(store, s) && AllStored(store, t)
    ensures AllStored(store, s + t) && WeightOf(d, store, level, psID, s + t) == WeightOf(d, store, level, psID, s) + WeightOf(d, store, level, psID, t)
  {
    if s == [] {
      assert s + t == t;
    } else {
      WeightConcat(d, store, level, psID, s[1..], t);
      assert (s + t)[1..] == s[1..] + t;
    }
  }

  class Model {
    const d: Domain
    const progressEffectLess: bool
    const progressOneModActions: bool
    const methodsFirstTasks: seq<seq<nat>>
    const methodsLastTasks: seq<seq<nat>>
    const sortedDistinctSubtasks: seq<Counter>
    /** The plan steps created so far, their levels, and the last identifier. */
    var store: Store
    ghost var level: map<nat, nat>
    var psID: nat
    /** The stack of indices of effect-free actions and its iterator. */
    var effectLess: seq<nat>
    var iterI: int
    var potentiallyFirst: set<nat>
    var potentialPredecessors: seq<nat>
    var done: set<nat>

    /** distinct holds, for every method, its subtasks as a sorted multiset. */
    constructor (d: Domain, progressEffectLess: bool, progressOneModActions: bool, distinct: seq<Counter>)
      requires d.Valid() && |distinct| == |d.methods|
      requires forall m :: 0 <= m < |distinct| ==> distinct[m].Valid() && forall t :: distinct[m].Of(t) == Occurrences(d.methods[m].subTasks, t)
      ensures this.d == d && Valid() && Tables() && Quiet() && store == map[] && psID == 0
    {
      this.d := d;
      this.progressEffectLess := progressEffectLess;
      this.progressOneModActions := progressOneModActions;
      sortedDistinctSubtasks := distinct;
      store, level, psID, effectLess, iterI := map[], map[], 0, [], -1;
      potentiallyFirst, potentialPredecessors, done := {}, [], {};
      var firsts, lasts := AllRepresentations(d);
      methodsFirstTasks := firsts;
      methodsLastTasks := lasts;
    }

    /** prepareTNi (2641-2673): the initial task alone. */
    method PrepareTNi(initialTask: nat, s0List: seq<nat>) returns (tnI: SearchNode, ghost r: set<nat>)
      requires Valid() && store == map[] && psID == 0 && initialTask < |d.isPrimitive| && !d.isPrimitive[initialTask]
      requires forall i :: 0 <= i < |s0List| ==> s0List[i] < d.stateBits
      modifies this`store, this`level
      ensures Valid() && NodeOk(d, store, tnI, r) && NoFree(tnI) && Settled(tnI)
      ensures r == {0} && store == map[0 := PlanStep(initialTask, [])] && tnI.unconstraintAbstract == [0]
      ensures forall p :: 0 <= p < d.stateBits ==> (tnI.state[p] <==> p in s0List)
    {
      var state := seq(d.stateBits, _ => false);
      for i := 0 to |s0List|
        invariant |state| == d.stateBits && forall p :: 0 <= p < d.stateBits ==> (state[p] <==> p in s0List[..i])
      {
        assert s0List[..i + 1] == s0List[..i] + [s0List[i]];
        state := state[s0List[i] := true];
      }
      assert s0List[..|s0List|] == s0List;
      store := map[0 := PlanStep(initialTask, [])];
      level := map[0 := 0];
      tnI := SearchNode(state, [], [0], Counter([initialTask], [1]), true);
      r := {0};
      InitialOk(d, store, tnI, initialTask);
    }

    /** isGoal (1403-1411). */
    method IsGoal(n: SearchNode, ghost r: set<nat>) returns (yes: bool)
      requires Valid() && NodeOk(d, store, n, r)
      ensures yes <==> Goal(d, Conf(n, r, store, psID))
    {
      DoneExactly(d, store, level, psID, n, r);
      if |n.unconstraintAbstract| > 0 || |n.unconstraintPrimitive| > 0 {
        return false;
      }
      for i := 0 to |d.gList|
        invariant forall j :: 0 <= j < i ==> n.state[d.gList[j]]
      {
        if !n.state[d.gList[i]] { return false; }
      }
      return true;
    }

    ghost predicate Valid()
      reads this`store, this`level, this`psID
    {
      StoreOk(d, store, level, psID)
    }

    /** push_front for every successor of x. */
    method PushSuccessors(x: nat)
      requires Valid() && x in store && AllStored(store, potentialPredecessors)
      modifies this`potentialPredecessors
      ensures AllStored(store, potentialPredecessors)
      ensures forall y :: y in potentialPredecessors <==> y in old(potentialPredecessors) || y in store[x].successors
    {
      SuccessorsStored(d, store, level, psID, x);
      for j := 0 to |store[x].successors|
        invariant AllStored(store, potentialPredecessors)
        invariant forall y :: y in potentialPredecessors <==> y in old(potentialPredecessors) || y in store[x].successors[..j]
      {
        assert store[x].successors[..j + 1] == store[x].successors[..j] + [store[x].successors[j]];
        potentialPredecessors := [store[x].successors[j]] + potentialPredecessors;
      }
      assert store[x].successors[..|store[x].successors|] == store[x].successors;
    }

    /** Lines 1052-1057: successors that have not been looked at are pushed; the total weight of the stack shrinks. */
    method PushUndone(ps2: nat)
      requires Valid() && ps2 in store && AllStored(store, potentialPredecessors)
      modifies this`potentialPredecessors
      ensures AllStored(store, potentialPredecessors)
      ensures forall y :: y in old(potentialPredecessors) ==> y in potentialPredecessors
      ensures forall y :: y in store[ps2].successors && y !in done ==> y in potentialPredecessors
      ensures forall y :: y in potentialPredecessors ==> y in old(potentialPredecessors) || y in store[ps2].successors
      ensures WeightOf(d, store, level, psID, potentialPredecessors) <
        WeightOf(d, store, level, psID, old(potentialPredecessors)) + Weight(d, store, level, psID, ps2)
    {
      hide StoreOk, Lower;
      SuccessorsStored(d, store, level, psID, ps2);
      ghost var before := potentialPredecessors;
      for i := 0 to |store[ps2].successors|
        invariant AllStored(store, potentialPredecessors)
        invariant forall y :: y in before ==> y in potentialPredecessors
        invariant forall k :: 0 <= k < i && store[ps2].successors[k] !in done ==> store[ps2].successors[k] in potentialPredecessors
        invariant forall y :: y in potentialPredecessors ==> y in before || y in store[ps2].successors
        invariant WeightOf(d, store, level, psID, potentialPredecessors) <=
          WeightOf(d, store, level, psID, before) + WeightBelow(d, store, level, psID, ps2, i)
      {
        var ps := store[ps2].successors[i];
        if ps !in done {
          ghost var stack := potentialPredecessors;
          potentialPredecessors := [ps] + potentialPredecessors;
          assert potentialPredecessors[1..] == stack;
        }
      }
    }

    /** Lines 1011-1058: afterwards potentiallyFirst holds exactly the successors that only the progressed step held
        back. */
    method FindFirsts(n: SearchNode, taskNo: nat, ghost r: set<nat>)
      requires Valid() && NodeOk(d, store, n, r) && taskNo < |n.unconstraintPrimitive|
      modifies this`potentiallyFirst, this`potentialPredecessors, this`done
      ensures n.unconstraintPrimitive[taskNo] in store && potentiallyFirst == Released(store, r, n.unconstraintPrimitive[taskNo])
    {
      hide StoreOk, Lower, Network, Counts, Roots, Eliminating, PushedFor;
      PrimitiveAt(d, store, n, r, taskNo);
      var progressed := n.unconstraintPrimitive[taskNo];
      potentiallyFirst, potentialPredecessors, done := {}, [], {};
      SuccessorsStored(d, store, level, psID, progressed);
      NothingPushed(store);
      ghost var roots: set<nat> := {};
      for i := 0 to |store[progressed].successors|
        invariant potentiallyFirst == Elements(store[progressed].successors[..i]) && done == {}
        invariant AllStored(store, potentialPredecessors) && roots == potentiallyFirst && PushedFor(store, roots, potentialPredecessors)
      {
        var succ := store[progressed].successors[i];
        assert store[progressed].successors[..i + 1] == store[progressed].successors[..i] + [succ];
        ElementsSnoc(store[progressed].successors[..i], succ);
        potentiallyFirst := potentiallyFirst + {succ};
        ghost var stack := potentialPredecessors;
        PushSuccessors(succ);
        PushedMore(store, roots, stack, succ, potentialPredecessors);
        roots := roots + {succ};
      }
      assert store[progressed].successors[..|store[progressed].successors|] == store[progressed].successors;
      ghost var direct := roots;
      for i := 0 to |n.unconstraintAbstract|
        invariant AllStored(store, potentialPredecessors) && roots == direct + Elements(n.unconstraintAbstract[..i]) && PushedFor(store, roots, potentialPredecessors)
        invariant potentiallyFirst == direct && done == {}
      {
        AbstractAt(d, store, n, r, i);
        var x := n.unconstraintAbstract[i];
        assert n.unconstraintAbstract[..i + 1] == n.unconstraintAbstract[..i] + [x];
        ElementsSnoc(n.unconstraintAbstract[..i], x);
        ghost var stack := potentialPredecessors;
        PushSuccessors(x);
        PushedMore(store, roots, stack, x, potentialPredecessors);
        roots := roots + {x};
      }
      assert n.unconstraintAbstract[..|n.unconstraintAbstract|] == n.unconstraintAbstract;
      ghost var more := roots;
      for i := 0 to |n.unconstraintPrimitive|
        invariant AllStored(store, potentialPredecessors) && PushedFor(store, roots, potentialPredecessors)
        invariant roots == more + (Elements(n.unconstraintPrimitive[..i]) - {progressed})
        invariant potentiallyFirst == direct && done == {}
      {
        PrimitiveAt(d, store, n, r, i);
        var x := n.unconstraintPrimitive[i];
        assert n.unconstraintPrimitive[..i + 1] == n.unconstraintPrimitive[..i] + [x];
        ElementsSnoc(n.unconstraintPrimitive[..i], x);
        DifferentSteps(d, store, n, r, i, taskNo);
        if i != taskNo {
          ghost var stack := potentialPredecessors;
          PushSuccessors(x);
          PushedMore(store, roots, stack, x, potentialPredecessors);
          roots := roots + {x};
        }
      }
      assert n.unconstraintPrimitive[..|n.unconstraintPrimitive|] == n.unconstraintPrimitive;
      StartElimination(d, store, level, psID, n, r, taskNo, roots, potentiallyFirst, potentialPredecessors);
      Eliminate(r, progressed, roots);
    }

    /** Lines 1038-1058. */
    method Eliminate(ghost r: set<nat>, ghost s: nat, ghost roots: set<nat>)
      requires Valid() && Network(store, r) && s in r && Roots(store, r, s, roots) && !HasPredecessor(store, r, s)
      requires Eliminating(store, r, s, roots, potentiallyFirst, potentialPredecessors, done) && AllStored(store, potentialPredecessors)
      modifies this`potentiallyFirst, this`potentialPredecessors, this`done
      ensures s in store && potentiallyFirst == Released(store, r, s)
    {
      hide StoreOk, Lower, Network, Roots, Eliminating;
      RootsStored(store, r, s, roots);
      while true
        invariant Eliminating(store, r, s, roots, potentiallyFirst, potentialPredecessors, done) && AllStored(store, potentialPredecessors)
        decreases WeightOf(d, store, level, psID, potentialPredecessors)
      {
        if potentiallyFirst == {} { break; }
        if |potentialPredecessors| == 0 { break; }
        ghost var first, stack, looked := potentiallyFirst, potentialPredecessors, done;
        var ps2 := potentialPredecessors[0];
        potentialPredecessors := potentialPredecessors[1..];
        done := done + {ps2};
        potentiallyFirst := potentiallyFirst - {ps2};
        PushUndone(ps2);
        PopStack(d, store, level, psID, r, s, roots, first, stack, looked, potentialPredecessors);
      }
      EliminationDone(d, store, level, psID, r, s, roots, potentiallyFirst, potentialPredecessors, done);
    }

    // ----- apply (1001-1376) -----

    /** Lines 966-971. */
    method ApplyEffects(state0: State, t: nat) returns (state: State)
      requires d.Valid() && t < |d.addLists| && |state0| == d.stateBits
      ensures state == Result(d, state0, t)
    {
      EffectsInRange(d, t);
      state := state0;
      for i := 0 to |d.delLists[t]|
        invariant |state| == |state0| && forall p :: 0 <= p < |state| ==> state[p] == (state0[p] && p !in d.delLists[t][..i])
      {
        assert d.delLists[t][..i + 1] == d.delLists[t][..i] + [d.delLists[t][i]];
        state := state[d.delLists[t][i] := false];
      }
      assert d.delLists[t][..|d.delLists[t]|] == d.delLists[t];
      ghost var middle := state;
      for i := 0 to |d.addLists[t]|
        invariant |state| == |state0| && forall p :: 0 <= p < |state| ==> state[p] == (p in d.addLists[t][..i] || middle[p])
      {
        assert d.addLists[t][..i + 1] == d.addLists[t][..i] + [d.addLists[t][i]];
        state := state[d.addLists[t][i] := true];
      }
      assert d.addLists[t][..|d.addLists[t]|] == d.addLists[t];
    }

    /** isApplicable (1395-1401). */
    method IsApplicable(state: State, action: nat) returns (yes: bool)
      requires d.Valid() && |state| == d.stateBits && action < |d.precLists|
      ensures yes <==> Applicable(d, state, action)
    {
      EffectsInRange(d, action);
      for i := 0 to |d.precLists[action]|
        invariant forall j :: 0 <= j < i ==> state[d.precLists[action][j]]
      {
        if !state[d.precLists[action][i]] { return false; }
      }
      return true;
    }

    /** An action that changes nothing and is applicable is noted under its index. */
    method NoteFree(list: seq<nat>, from: nat, state: State, x: nat)
      requires Valid() && |state| == d.stateBits && x in store && from <= |list|
      requires progressEffectLess ==> FreeListed(d, store, state, list, from, effectLess)
      modifies this`effectLess
      ensures progressEffectLess ==> FreeListed(d, store, state, list + [x], from, effectLess)
      ensures !progressEffectLess ==> effectLess == old(effectLess)
    {
      if progressEffectLess {
        ghost var before := effectLess;
        if |d.addLists[store[x].task]| == 0 && |d.delLists[store[x].task]| == 0 {
          var yes := IsApplicable(state, store[x].task);
          if yes { effectLess := effectLess + [|list|]; }
        }
        FreeSnoc(d, store, state, list, from, before, x, effectLess);
      }
    }

    /** Lines 1083-1120: the other first steps stay. */
    method OtherPrimitives(n: SearchNode, taskNo: nat, state: State, ghost r: set<nat>) returns (prim: seq<nat>)
      requires Valid() && NodeOk(d, store, n, r) && taskNo < |n.unconstraintPrimitive| && |state| == d.stateBits
      modifies this`effectLess
      ensures Enumerates(prim, FirstSteps(d, store, r, true) - {n.unconstraintPrimitive[taskNo]})
      ensures progressEffectLess ==> FreeListed(d, store, state, prim, 0, effectLess)
      ensures !progressEffectLess ==> effectLess == old(effectLess)
    {
      hide StoreOk, Counts, FreeListed, Enumerates;
      ghost var s := n.unconstraintPrimitive[taskNo];
      OldLists(d, store, n, r);
      prim := [];
      if progressEffectLess { effectLess := []; }
      NothingFree(d, store, state);
      assert n.unconstraintPrimitive[..0] == [] && Elements([]) - {s} == {};
      for i := 0 to |n.unconstraintPrimitive|
        invariant Enumerates(prim, Elements(n.unconstraintPrimitive[..i]) - {s})
        invariant progressEffectLess ==> FreeListed(d, store, state, prim, 0, effectLess)
        invariant !progressEffectLess ==> effectLess == old(effectLess)
      {
        var x := n.unconstraintPrimitive[i];
        PrimitiveAt(d, store, n, r, i);
        DifferentSteps(d, store, n, r, i, taskNo);
        assert n.unconstraintPrimitive[..i + 1] == n.unconstraintPrimitive[..i] + [x];
        ElementsSnoc(n.unconstraintPrimitive[..i], x);
        if i != taskNo {
          NewElement(d, store, n, r, i);
          NoteFree(prim, 0, state, x);
          EnumSnoc(prim, Elements(n.unconstraintPrimitive[..i]) - {s}, x);
          assert Elements(n.unconstraintPrimitive[..i + 1]) - {s} == Elements(n.unconstraintPrimitive[..i]) - {s} + {x};
          prim := prim + [x];
        } else {
          assert Elements(n.unconstraintPrimitive[..i + 1]) - {s} == Elements(n.unconstraintPrimitive[..i]) - {s};
        }
      }
      assert n.unconstraintPrimitive[..|n.unconstraintPrimitive|] == n.unconstraintPrimitive;
    }

    /** Lines 672-697 and 1122-1141: every step of first goes to the end of its list. */
    method AddSteps(first: seq<nat>, state: State, prim0: seq<nat>, abs0: seq<nat>, ghost p0: set<nat>, ghost a0: set<nat>, from: nat)
      returns (prim: seq<nat>, abs: seq<nat>)
      requires Valid() && |state| == d.stateBits && Enumerates(prim0, p0) && Enumerates(abs0, a0) && from <= |prim0|
      requires forall i, j :: 0 <= i < j < |first| ==> first[i] != first[j]
      requires forall i :: 0 <= i < |first| ==> NewStep(d, store, p0, a0, first[i])
      requires progressEffectLess ==> FreeListed(d, store, state, prim0, from, effectLess)
      modifies this`effectLess
      ensures Enumerates(prim, p0 + Chosen(d, store, Elements(first), true)) && Enumerates(abs, a0 + Chosen(d, store, Elements(first), false))
      ensures progressEffectLess ==> FreeListed(d, store, state, prim, from, effectLess)
      ensures !progressEffectLess ==> effectLess == old(effectLess)
      ensures prim0 <= prim && abs0 <= abs
    {
      hide StoreOk, Counts, FreeListed, Enumerates, Chosen;
      prim, abs := prim0, abs0;
      NothingFree(d, store, state);
      assert first[..0] == [] && p0 + {} == p0 && a0 + {} == a0;
      for i := 0 to |first|
        invariant prim0 <= prim && abs0 <= abs
        invariant Enumerates(prim, p0 + Chosen(d, store, Elements(first[..i]), true)) && Enumerates(abs, a0 + Chosen(d, store, Elements(first[..i]), false))
        invariant progressEffectLess ==> FreeListed(d, store, state, prim, from, effectLess)
        invariant !progressEffectLess ==> effectLess == old(effectLess)
      {
        var ps2 := first[i];
        assert NewStep(d, store, p0, a0, ps2);
        ghost var p1, a1 := Chosen(d, store, Elements(first[..i]), true), Chosen(d, store, Elements(first[..i]), false);
        assert first[..i + 1] == first[..i] + [ps2];
        ChosenSnoc(d, store, first, i);
        if d.isPrimitive[store[ps2].task] {
          NoteFree(prim, from, state, ps2);
          EnumSnoc(prim, p0 + p1, ps2);
          assert p0 + p1 + {ps2} == p0 + (p1 + {ps2});
          prim := prim + [ps2];
        } else {
          EnumSnoc(abs, a0 + a1, ps2);
          assert a0 + a1 + {ps2} == a0 + (a1 + {ps2});
          abs := abs + [ps2];
        }
      }
      assert first[..|first|] == first;
    }

    method ListOf(s: set<nat>) returns (list: seq<nat>)
      ensures Elements(list) == s && forall i, j :: 0 <= i < j < |list| ==> list[i] != list[j]
    {
      list := [];
      var rest := s;
      while rest != {}
        invariant rest <= s && Elements(list) == s - rest
        invariant forall i, j :: 0 <= i < j < |list| ==> list[i] != list[j]
      {
        var x :| x in rest;
        assert x !in Elements(list);
        ElementsSnoc(list, x);
        list := list + [x];
        rest := rest - {x};
      }
    }

    /** Lines 1083-1141: the unconstrained steps of the new node. */
    method BuildApplied(n: SearchNode, taskNo: nat, state: State, ghost r: set<nat>) returns (prim: seq<nat>, abs: seq<nat>)
      requires Valid() && NodeOk(d, store, n, r) && taskNo < |n.unconstraintPrimitive| && |state| == d.stateBits
      requires n.unconstraintPrimitive[taskNo] in store && potentiallyFirst == Released(store, r, n.unconstraintPrimitive[taskNo])
      modifies this`effectLess
      ensures Enumerates(prim, FirstSteps(d, store, r - {n.unconstraintPrimitive[taskNo]}, true))
      ensures Enumerates(abs, FirstSteps(d, store, r - {n.unconstraintPrimitive[taskNo]}, false))
      ensures progressEffectLess ==> FreeListed(d, store, state, prim, 0, effectLess)
      ensures !progressEffectLess ==> effectLess == old(effectLess)
    {
      hide StoreOk, Counts, FreeListed, Enumerates, Chosen;
      ghost var s := n.unconstraintPrimitive[taskNo];
      OldLists(d, store, n, r);
      prim := OtherPrimitives(n, taskNo, state, r);
      ReleasedApart(d, store, level, psID, n, r, taskNo);
      var first := ListOf(potentiallyFirst);
      assert forall i :: 0 <= i < |first| ==> first[i] in Elements(first);
      prim, abs := AddSteps(first, state, prim, n.unconstraintAbstract, FirstSteps(d, store, r, true) - {s}, FirstSteps(d, store, r, false), 0);
      AppliedFirsts(d, store, level, psID, n, r, taskNo);
    }

    method GetFirst() returns (i: int)
      modifies this`iterI
      ensures |effectLess| == 0 ==> i == -1 && iterI == old(iterI)
      ensures |effectLess| > 0 ==> i == effectLess[0] && iterI == 0
    {
      if |effectLess| == 0 { return -1; }
      iterI := 0;
      i := effectLess[0];
    }

    method GetNext() returns (i: int)
      requires iterI >= -1
      modifies this`iterI
      ensures iterI == old(iterI) + 1
      ensures i == if iterI < |effectLess| then effectLess[iterI] else -1
    {
      iterI := iterI + 1;
      i := if iterI < |effectLess| then effectLess[iterI] else -1;
    }

    /** The node stands for the configuration c after eager moves and nothing else: it has a plan exactly when c has one,
        and is marked dead only when there is none. */
    ghost predicate Refines(c: Config, n: SearchNode, r: set<nat>)
      reads this`store, this`level, this`psID
    {
      && Valid() && NodeOk(d, store, n, r) && WellFormed(d, c) && WellFormed(d, Conf(n, r, store, psID))
      && EagerlyReaches(d, c, Conf(n, r, store, psID), progressEffectLess, progressOneModActions)
      && (Solvable(d, c) <==> Solvable(d, Conf(n, r, store, psID)))
      && (!n.goalReachable ==> !Solvable(d, Conf(n, r, store, psID)))
    }

    /** Only actions are left to start with and none of them can be applied. */
    ghost predicate Stuck(n: SearchNode)
      reads this`store
    {
      |n.unconstraintAbstract| == 0 && |n.unconstraintPrimitive| > 0 &&
      forall i :: 0 <= i < |n.unconstraintPrimitive| ==> !IsProgressible(d, store, n, i)
    }

    /** With forced moves on, exactly the stuck nodes are marked dead and no forced move is left to be made; with them
        off no node is marked. */
    ghost predicate Settled(n: SearchNode)
      reads this`store
    {
      if progressOneModActions then
        && (!n.goalReachable <==> Stuck(n))
        && (|n.unconstraintAbstract| == 0 ==> forall i :: 0 <= i < |n.unconstraintPrimitive| ==> !OnlyProgressible(d, store, n, i))
      else n.goalReachable
    }

    /** No unconstrained action is applicable without having an effect. */
    ghost predicate NoFree(n: SearchNode)
      reads this`store
    {
      forall i :: 0 <= i < |n.unconstraintPrimitive| ==> !FreeStep(d, store, n.state, n.unconstraintPrimitive[i])
    }

    ghost predicate Quiet()
      reads this
    {
      iterI >= -1 && (!progressEffectLess ==> effectLess == [])
    }

    /** apply: the action is applied, then whatever can be applied without a choice. */
    method Apply(n: SearchNode, taskNo: nat, ghost r: set<nat>) returns (result: SearchNode, ghost r2: set<nat>)
      requires Valid() && NodeOk(d, store, n, r) && taskNo < |n.unconstraintPrimitive| && Quiet()
      requires IsProgressible(d, store, n, taskNo)
      modifies this`effectLess, this`iterI, this`potentiallyFirst, this`potentialPredecessors, this`done
      ensures Quiet() && effectLess == [] && r2 <= r - {n.unconstraintPrimitive[taskNo]}
      ensures Moved(d, Conf(n, r, store, psID), n.unconstraintPrimitive[taskNo])
      ensures Refines(Next(d, Conf(n, r, store, psID), Progress(n.unconstraintPrimitive[taskNo])), result, r2)
      ensures Settled(result) && (progressEffectLess ==> NoFree(result))
      decreases |r|, 0
    {
      hide StoreOk, NodeOk, FreeListed, FreeStep, Enumerates, Solvable, WellFormed, Network, Counts, Settled;
      ghost var s := n.unconstraintPrimitive[taskNo];
      ApplyFacts(d, store, level, psID, n, r, taskNo);
      var progressed := n.unconstraintPrimitive[taskNo];
      var state := ApplyEffects(n.state, store[progressed].task);
      FindFirsts(n, taskNo, r);
      var prim, abs := BuildApplied(n, taskNo, state, r);
      var contained := UpdateTaskCounterA(n.contained, store[progressed].task);
      result := SearchNode(state, prim, abs, contained, true);
      AppliedNode(d, store, level, psID, n, r, taskNo, result);
      potentiallyFirst, done, potentialPredecessors := {}, {}, [];
      Fewer(r, s);
      result, r2 := ProgressEagerly(result, r - {s}, 0);
    }

    /** Lines 902-938 and 1340-1376. The stack of effect-free actions is empty whenever apply returns, so the loop over it
        makes at most one call; that call deals with the rest. */
    method ProgressEagerly(n0: SearchNode, ghost r0: set<nat>, ghost from: nat) returns (n: SearchNode, ghost r: set<nat>)
      requires Valid() && NodeOk(d, store, n0, r0) && n0.goalReachable && Quiet() && from <= |n0.unconstraintPrimitive|
      requires progressEffectLess ==> FreeListed(d, store, n0.state, n0.unconstraintPrimitive, from, effectLess)
      modifies this`effectLess, this`iterI, this`potentiallyFirst, this`potentialPredecessors, this`done
      ensures Quiet() && effectLess == [] && r <= r0
      ensures Refines(Conf(n0, r0, store, psID), n, r) && Settled(n)
      ensures progressEffectLess && (forall i :: 0 <= i < from ==> !FreeStep(d, store, n0.state, n0.unconstraintPrimitive[i])) ==> NoFree(n)
      decreases |r0|, 2
    {
      hide StoreOk, NodeOk, FreeListed, FreeStep, FreeProgress, Enumerates, Solvable, WellFormed, Network, Counts, NoFree, Refines, Eager, EagerlyReaches, Settled, Stuck;
      n, r := n0, r0;
      RefinesSelf(n0, r0);
      if progressEffectLess {
        NothingNoted(n0, from);
        var ac := GetFirst();
        if ac >= 0 { FreeProgressible(d, store, level, psID, n0, r0, from, effectLess); }
        while ac >= 0
          invariant Refines(Conf(n0, r0, store, psID), n, r) && r <= r0 && Quiet()
          invariant ac >= 0 ==> |effectLess| > 0 && n == n0 && r == r0 && ac < |n.unconstraintPrimitive| && FreeProgress(d, store, n, ac)
          invariant ac < 0 ==> effectLess == []
          invariant n.goalReachable || (progressOneModActions && Stuck(n))
          invariant ac < 0 && (forall i :: 0 <= i < from ==> !FreeStep(d, store, n0.state, n0.unconstraintPrimitive[i])) ==> NoFree(n)
          decreases |effectLess|
        {
          ghost var s := n.unconstraintPrimitive[ac];
          ghost var c := Conf(n, r, store, psID);
          RefinesNode(Conf(n0, r0, store, psID), n, r);
          FreeStepLegal(d, store, level, psID, n, r, ac);
          n, r := Apply(n, ac, r);
          RefinesOn(c, s, n, r);
          SettledDead(n);
          ac := GetNext();
        }
      }
      if progressOneModActions {
        NoMore(r, r0);
        n, r := ProgressForced(n0, r0, n, r);
      } else {
        SettledOff(n);
      }
    }

    /** Lines 912-937 and 1350-1375. */
    method ProgressForced(ghost n0: SearchNode, ghost r0: set<nat>, n1: SearchNode, ghost r1: set<nat>) returns (n: SearchNode, ghost r: set<nat>)
      requires Refines(Conf(n0, r0, store, psID), n1, r1) && r1 <= r0 && Quiet() && effectLess == []
      requires progressOneModActions && (n1.goalReachable || Stuck(n1))
      modifies this`effectLess, this`iterI, this`potentiallyFirst, this`potentialPredecessors, this`done
      ensures Quiet() && effectLess == [] && r <= r1
      ensures Refines(Conf(n0, r0, store, psID), n, r) && Settled(n)
      ensures progressEffectLess && NoFree(n1) ==> NoFree(n)
      decreases |r1|, 1
    {
      hide StoreOk, NodeOk, FreeListed, FreeStep, Enumerates, Solvable, WellFormed, Network, Counts, Refines, Eager, EagerlyReaches, Settled, Stuck;
      n, r := n1, r1;
      RefinesNode(Conf(n0, r0, store, psID), n1, r1);
      if |n.unconstraintAbstract| == 0 && |n.unconstraintPrimitive| > 0 {
        var applicable := FindForced(n, r);
        if applicable >= 0 {
          ghost var c := Conf(n, r, store, psID);
          ghost var s := n.unconstraintPrimitive[applicable];
          ForcedLegal(d, store, level, psID, n, r, applicable);
          n, r := Apply(n, applicable, r);
          RefinesOn(c, s, n, r);
          RefinesChain(Conf(n0, r0, store, psID), n1, r1, n, r);
        } else if applicable == -1 {
          NoneLegal(d, store, level, psID, n, r);
          MarkDead(Conf(n0, r0, store, psID), n, r);
          SettledNone(n);
          n := n.(goalReachable := false);
        } else {
          SettledSeveral(n);
        }
      } else {
        SettledElse(n);
      }
    }

    lemma RefinesSelf(n: SearchNode, r: set<nat>)
      requires Valid() && NodeOk(d, store, n, r) && n.goalReachable
      ensures Refines(Conf(n, r, store, psID), n, r)
    {
      ConfWellFormed(d, store, level, psID, n, r);
      EagerNothing(d, Conf(n, r, store, psID), progressEffectLess, progressOneModActions);
    }

    lemma RefinesNode(c: Config, n: SearchNode, r: set<nat>)
      requires Refines(c, n, r)
      ensures Valid() && NodeOk(d, store, n, r) && d.Valid() && WellFormed(d, c) && WellFormed(d, Conf(n, r, store, psID))
    {
    }

    lemma RefinesOn(c: Config, s: nat, n: SearchNode, r: set<nat>)
      requires d.Valid() && WellFormed(d, c) && s in c.store && Refines(Next(d, c, Progress(s)), n, r)
      requires Eager(d, c, s, progressEffectLess, progressOneModActions) && (Solvable(d, c) <==> Solvable(d, Next(d, c, Progress(s))))
      ensures Refines(c, n, r)
    {
      hide Solvable, NodeOk, EagerlyReaches;
      EagerFirst(d, c, s, Conf(n, r, store, psID), progressEffectLess, progressOneModActions);
    }

    lemma SettledDead(n: SearchNode)
      requires Settled(n)
      ensures n.goalReachable || (progressOneModActions && Stuck(n))
    {
    }

    lemma SettledOff(n: SearchNode)
      requires n.goalReachable && !progressOneModActions
      ensures Settled(n)
    {
    }

    lemma SettledNone(n: SearchNode)
      requires progressOneModActions && |n.unconstraintAbstract| == 0 && |n.unconstraintPrimitive| > 0
      requires forall i :: 0 <= i < |n.unconstraintPrimitive| ==> !IsProgressible(d, store, n, i)
      ensures Settled(n.(goalReachable := false))
    {
      var m := n.(goalReachable := false);
      assert forall i :: 0 <= i < |m.unconstraintPrimitive| ==> IsProgressible(d, store, m, i) == IsProgressible(d, store, n, i);
    }

    lemma SettledSeveral(n: SearchNode)
      requires progressOneModActions && (n.goalReachable || Stuck(n)) && Several(n)
      ensures Settled(n)
    {
    }

    lemma SettledElse(n: SearchNode)
      requires progressOneModActions && (n.goalReachable || Stuck(n)) && (|n.unconstraintAbstract| > 0 || |n.unconstraintPrimitive| == 0)
      ensures Settled(n)
    {
    }

    lemma RefinesChain(c: Config, n1: SearchNode, r1: set<nat>, n: SearchNode, r: set<nat>)
      requires Refines(c, n1, r1) && Refines(Conf(n1, r1, store, psID), n, r)
      ensures Refines(c, n, r)
    {
      hide Solvable, NodeOk, EagerlyReaches;
      EagerChain(d, c, Conf(n1, r1, store, psID), Conf(n, r, store, psID), progressEffectLess, progressOneModActions);
    }

    lemma MarkDead(c: Config, n: SearchNode, r: set<nat>)
      requires Refines(c, n, r) && !Solvable(d, Conf(n, r, store, psID))
      ensures Refines(c, n.(goalReachable := false), r) && (NoFree(n) ==> NoFree(n.(goalReachable := false)))
    {
      var m := n.(goalReachable := false);
      assert Conf(m, r, store, psID) == Conf(n, r, store, psID);
    }

    lemma NothingNoted(n: SearchNode, from: nat)
      requires FreeListed(d, store, n.state, n.unconstraintPrimitive, from, effectLess)
      ensures effectLess == [] && (forall i :: 0 <= i < from && i < |n.unconstraintPrimitive| ==> !FreeStep(d, store, n.state, n.unconstraintPrimitive[i])) ==> NoFree(n)
    {
    }

    ghost predicate Several(n: SearchNode)
      reads this`store
    {
      exists i, k :: 0 <= i < k < |n.unconstraintPrimitive| && IsProgressible(d, store, n, i) && IsProgressible(d, store, n, k)
    }

    /** Lines 914-924: the only applicable action, -1 when there is none, -2 when there are several. */
    method FindForced(n: SearchNode, ghost r: set<nat>) returns (applicable: int)
      requires Valid() && NodeOk(d, store, n, r)
      ensures applicable == -1 || applicable == -2 || 0 <= applicable < |n.unconstraintPrimitive|
      ensures applicable >= 0 ==> OnlyProgressible(d, store, n, applicable)
      ensures applicable == -2 ==> Several(n)
      ensures applicable == -1 ==> forall i :: 0 <= i < |n.unconstraintPrimitive| ==> !IsProgressible(d, store, n, i)
    {
      hide StoreOk, NodeOk, Applicable;
      applicable := -1;
      for i := 0 to |n.unconstraintPrimitive|
        invariant applicable == -1 || 0 <= applicable < i
        invariant applicable == -1 ==> forall k :: 0 <= k < i ==> !IsProgressible(d, store, n, k)
        invariant applicable >= 0 ==> IsProgressible(d, store, n, applicable) && forall k :: 0 <= k < i && k != applicable ==> !IsProgressible(d, store, n, k)
      {
        StepFacts(d, store, level, psID, n, r, i);
        var yes := IsApplicable(n.state, store[n.unconstraintPrimitive[i]].task);
        if yes {
          if applicable == -1 {
            applicable := i;
          } else {
            assert IsProgressible(d, store, n, applicable) && IsProgressible(d, store, n, i);
            return -2;
          }
        }
      }
    }

    // ----- decompose (604-938) and initializeMethod (958-998) -----

    ghost predicate Tables()
    {
      && d.Valid()
      && |methodsFirstTasks| == |methodsLastTasks| == |sortedDistinctSubtasks| == |d.methods|
      && forall m :: 0 <= m < |d.methods| ==> TableOk(d.methods[m], methodsFirstTasks[m], methodsLastTasks[m], sortedDistinctSubtasks[m])
    }

    /** New steps for the subtasks, linked as the method orders them; the last ones go on with the given successors. */
    method InitializeMethod(how: nat, decomposed: nat) returns (firsts: seq<nat>)
      requires Valid() && Tables() && how < |d.methods| && decomposed in store
      modifies this`store, this`level, this`psID
      ensures Valid() && psID == old(psID) + |d.methods[how].subTasks|
      ensures store == old(store) + Instance(d.methods[how], old(psID), old(store[decomposed].successors))
      ensures forall x :: x in old(store) ==> x in store && store[x] == old(store[x])
      ensures |firsts| == |methodsFirstTasks[how]| && forall i :: 0 <= i < |firsts| ==> firsts[i] == old(psID) + 1 + methodsFirstTasks[how][i]
    {
      hide StoreOk, TableOk, IsLast, Inner;
      var m := d.methods[how];
      var base := psID;
      ghost var store0, level0 := store, level;
      MethodFacts(how);
      var succs := LinkInner(m, base);
      succs := LinkLasts(m, base, succs, methodsLastTasks[how], store[decomposed].successors);
      StoreSteps(m.subTasks, succs);
      firsts := Offsets(methodsFirstTasks[how], base);
      ghost var h: seq<nat> :| Heights(m, h);
      ghost var level1 := level0 + NewLevels(h, base, level0[decomposed]);
      InstanceStored(d, store0, level0, base, m, decomposed, h, store, level1, psID);
      level := level1;
    }

    method StoreSteps(subTasks: seq<nat>, succs: seq<seq<nat>>)
      requires |succs| == |subTasks|
      modifies this`store, this`psID
      ensures psID == old(psID) + |subTasks|
      ensures forall x :: x in store <==> x in old(store) || old(psID) < x <= old(psID) + |subTasks|
      ensures forall x :: x in old(store) && !(old(psID) < x <= old(psID) + |subTasks|) ==> store[x] == old(store)[x]
      ensures forall k :: 0 <= k < |subTasks| ==> store[old(psID) + 1 + k] == PlanStep(subTasks[k], succs[k])
    {
      for i := 0 to |subTasks|
        invariant psID == old(psID) + i
        invariant forall x :: x in store <==> x in old(store) || old(psID) < x <= old(psID) + i
        invariant forall x :: x in old(store) && !(old(psID) < x <= old(psID) + i) ==> store[x] == old(store)[x]
        invariant forall k :: 0 <= k < i ==> store[old(psID) + 1 + k] == PlanStep(subTasks[k], succs[k])
      {
        psID := psID + 1;
        store := store[psID := PlanStep(subTasks[i], succs[i])];
      }
    }

    method Offsets(list: seq<nat>, base: nat) returns (r: seq<nat>)
      ensures |r| == |list| && forall k :: 0 <= k < |r| ==> r[k] == base + 1 + list[k]
    {
      r := [];
      for i := 0 to |list|
        invariant |r| == i && forall k :: 0 <= k < i ==> r[k] == base + 1 + list[k]
      {
        r := r + [base + 1 + list[i]];
      }
    }

    lemma MethodFacts(how: nat)
      requires Valid() && Tables() && how < |d.methods|
      ensures d.MethodOk(d.methods[how])
      ensures TableOk(d.methods[how], methodsFirstTasks[how], methodsLastTasks[how], sortedDistinctSubtasks[how])
      ensures forall x :: x in store ==> x <= psID && x in level
    {
    }

    /** Lines 640-650: the abstract steps without the decomposed one. */
    method OtherAbstract(n: SearchNode, taskNo: nat, ghost r: set<nat>) returns (abs: seq<nat>)
      requires Valid() && NodeOk(d, store, n, r) && taskNo < |n.unconstraintAbstract|
      ensures Enumerates(abs, FirstSteps(d, store, r, false) - {n.unconstraintAbstract[taskNo]})
    {
      hide StoreOk, Counts, Enumerates;
      ghost var s := n.unconstraintAbstract[taskNo];
      OldLists(d, store, n, r);
      abs := [];
      NothingFree(d, store, n.state);
      assert n.unconstraintAbstract[..0] == [] && Elements([]) - {s} == {};
      for i := 0 to |n.unconstraintAbstract|
        invariant Enumerates(abs, Elements(n.unconstraintAbstract[..i]) - {s})
      {
        var x := n.unconstraintAbstract[i];
        AbstractDistinct(d, store, n, r, i, taskNo);
        assert n.unconstraintAbstract[..i + 1] == n.unconstraintAbstract[..i] + [x];
        ElementsSnoc(n.unconstraintAbstract[..i], x);
        if i != taskNo {
          EnumSnoc(abs, Elements(n.unconstraintAbstract[..i]) - {s}, x);
          assert Elements(n.unconstraintAbstract[..i + 1]) - {s} == Elements(n.unconstraintAbstract[..i]) - {s} + {x};
          abs := abs + [x];
        } else {
          assert Elements(n.unconstraintAbstract[..i + 1]) - {s} == Elements(n.unconstraintAbstract[..i]) - {s};
        }
      }
      assert n.unconstraintAbstract[..|n.unconstraintAbstract|] == n.unconstraintAbstract;
    }

    /** Lines 604-745: the method's steps replace the decomposed one. */
    method ReplaceStep(n: SearchNode, taskNo: nat, how: nat, ghost r: set<nat>) returns (result: SearchNode, ghost r2: set<nat>)
      requires Valid() && Tables() && NodeOk(d, store, n, r) && Quiet()
      requires taskNo < |n.unconstraintAbstract| && how < |d.methods|
      requires n.unconstraintAbstract[taskNo] in store && store[n.unconstraintAbstract[taskNo]].task == d.methods[how].task
      modifies this`store, this`level, this`psID, this`effectLess
      ensures Valid() && Quiet() && forall x :: x in old(store) ==> x in store && store[x] == old(store[x])
      ensures result.goalReachable && NodeOk(d, store, result, r2) && |n.unconstraintPrimitive| <= |result.unconstraintPrimitive|
      ensures Moved(d, Conf(n, r, old(store), old(psID)), n.unconstraintAbstract[taskNo])
      ensures Conf(result, r2, store, psID) == Next(d, Conf(n, r, old(store), old(psID)), ProgressionSystem.Decompose(n.unconstraintAbstract[taskNo], how))
      ensures progressEffectLess ==> FreeListed(d, store, result.state, result.unconstraintPrimitive, |n.unconstraintPrimitive|, effectLess)
      ensures old(NoFree(n)) ==> forall i :: 0 <= i < |n.unconstraintPrimitive| ==> !FreeStep(d, store, result.state, result.unconstraintPrimitive[i])
    {
      hide StoreOk, NodeOk, FreeListed, FreeStep, Enumerates, Solvable, WellFormed, Network, Counts, TableOk, Instance, Next, Moved, Lower, FirstSteps, Chosen, Elements, NewStep;
      ghost var store0, level0, base := store, level, psID;
      DecomposeFacts(d, store, level, psID, n, r, taskNo, how);
      MethodFacts(how);
      TableFacts(how);
      var decomposed := n.unconstraintAbstract[taskNo];
      ghost var p0, a0 := FirstSteps(d, store, r, true), FirstSteps(d, store, r, false) - {decomposed};
      OldLists(d, store, n, r);
      var abs0 := OtherAbstract(n, taskNo, r);
      var firsts := InitializeMethod(how, decomposed);
      if progressEffectLess { effectLess := []; }
      FirstsNew(d, store0, level0, base, d.methods[how], r, methodsFirstTasks[how], firsts, store, store0[decomposed].successors, p0, a0);
      NoteNothing(n.state, n.unconstraintPrimitive);
      var prim, abs := AddSteps(firsts, n.state, n.unconstraintPrimitive, abs0, p0, a0, |n.unconstraintPrimitive|);
      var contained := UpdateTaskCounterM(n.contained, sortedDistinctSubtasks[how], d.methods[how].task);
      result := SearchNode(n.state, prim, abs, contained, true);
      r2 := r - {decomposed} + NewIds(d.methods[how], base);
      DecomposedNode(d, store0, level0, base, n, r, taskNo, how, methodsFirstTasks[how], sortedDistinctSubtasks[how], firsts, store, psID, result);
      StillNoFree(n, store0, prim);
    }

    /** decompose: after the replacement, whatever can be applied without a choice is applied. */
    method Decompose(n: SearchNode, taskNo: nat, how: nat, ghost r: set<nat>) returns (result: SearchNode, ghost r2: set<nat>)
      requires Valid() && Tables() && NodeOk(d, store, n, r) && Quiet()
      requires taskNo < |n.unconstraintAbstract| && how < |d.methods|
      requires n.unconstraintAbstract[taskNo] in store && store[n.unconstraintAbstract[taskNo]].task == d.methods[how].task
      modifies this`store, this`level, this`psID, this`effectLess, this`iterI, this`potentiallyFirst, this`potentialPredecessors, this`done
      ensures Valid() && Quiet() && effectLess == []
      ensures forall x :: x in old(store) ==> x in store && store[x] == old(store[x])
      ensures Moved(d, Conf(n, r, old(store), old(psID)), n.unconstraintAbstract[taskNo])
      ensures Refines(Next(d, Conf(n, r, old(store), old(psID)), ProgressionSystem.Decompose(n.unconstraintAbstract[taskNo], how)), result, r2)
      ensures Settled(result) && (progressEffectLess && old(NoFree(n)) ==> NoFree(result))
    {
      hide StoreOk, NodeOk, FreeListed, FreeStep, Solvable, WellFormed, NoFree, Refines, Next, Tables, Settled;
      result, r2 := ReplaceStep(n, taskNo, how, r);
      result, r2 := ProgressEagerly(result, r2, |n.unconstraintPrimitive|);
    }

    lemma StillNoFree(n: SearchNode, store0: Store, prim: seq<nat>)
      requires n.unconstraintPrimitive <= prim && forall x :: x in store0 ==> x in store && store[x] == store0[x]
      requires forall i :: 0 <= i < |n.unconstraintPrimitive| ==> n.unconstraintPrimitive[i] in store0
      ensures (forall i :: 0 <= i < |n.unconstraintPrimitive| ==> !FreeStep(d, store0, n.state, n.unconstraintPrimitive[i])) ==>
        forall i :: 0 <= i < |n.unconstraintPrimitive| ==> !FreeStep(d, store, n.state, prim[i])
    {
    }

    lemma NoteNothing(state: State, list: seq<nat>)
      ensures FreeListed(d, store, state, list, |list|, [])
    {
    }

    lemma TableFacts(how: nat)
      requires Tables() && how < |d.methods|
      ensures sortedDistinctSubtasks[how].Valid() && Enumerates(methodsFirstTasks[how], Positions(d.methods[how], true))
    {
    }
  }

  /** The stack holds exactly the successors of the given steps. */
  ghost predicate PushedFor(store: Store, steps: set<nat>, stack: seq<nat>) {
    forall y :: y in stack <==> HasPredecessor(store, steps, y)
  }

  lemma NothingPushed(store: Store)
    ensures PushedFor(store, {}, [])
  {
  }

  lemma PushedMore(store: Store, steps: set<nat>, stack: seq<nat>, x: nat, after: seq<nat>)
    requires PushedFor(store, steps, stack) && x in store && forall y :: y in after <==> y in stack || y in store[x].successors
    ensures PushedFor(store, steps + {x}, after)
  {
    forall y ensures y in after <==> HasPredecessor(store, steps + {x}, y) {
      if y in store[x].successors { assert x in steps + {x}; }
      FewerPredecessors(store, steps + {x}, steps, y);
    }
  }

  lemma ElementsSnoc(s: seq<nat>, x: nat)
    ensures Elements(s + [x]) == Elements(s) + {x} && Elements([]) == {}
  {
  }

  lemma PrimitiveAt(d: Domain, store: Store, n: SearchNode, r: set<nat>, i: nat)
    requires NodeOk(d, store, n, r) && i < |n.unconstraintPrimitive|
    ensures var x := n.unconstraintPrimitive[i];
      x in r && x in store && !HasPredecessor(store, r, x) && store[x].task < |d.isPrimitive| && d.isPrimitive[store[x].task]
    ensures Network(store, r)
  {
    assert n.unconstraintPrimitive[i] in FirstSteps(d, store, r, true);
  }

  lemma AbstractAt(d: Domain, store: Store, n: SearchNode, r: set<nat>, i: nat)
    requires NodeOk(d, store, n, r) && i < |n.unconstraintAbstract|
    ensures var x := n.unconstraintAbstract[i];
      x in r && x in store && !HasPredecessor(store, r, x) && store[x].task < |d.isPrimitive| && !d.isPrimitive[store[x].task]
    ensures Network(store, r)
  {
    assert n.unconstraintAbstract[i] in FirstSteps(d, store, r, false);
  }

  lemma DifferentSteps(d: Domain, store: Store, n: SearchNode, r: set<nat>, i: nat, j: nat)
    requires NodeOk(d, store, n, r) && i < |n.unconstraintPrimitive| && j < |n.unconstraintPrimitive|
    ensures i == j <==> n.unconstraintPrimitive[i] == n.unconstraintPrimitive[j]
  {
  }

  lemma RootsStored(store: Store, r: set<nat>, s: nat, roots: set<nat>)
    requires Roots(store, r, s, roots)
    ensures s in store
  {
  }

  lemma StartElimination(d: Domain, store: Store, level: map<nat, nat>, psID: nat, n: SearchNode, r: set<nat>, taskNo: nat, roots: set<nat>, first: set<nat>, stack: seq<nat>)
    requires StoreOk(d, store, level, psID) && NodeOk(d, store, n, r) && taskNo < |n.unconstraintPrimitive| && n.unconstraintPrimitive[taskNo] in store
    requires var s := n.unconstraintPrimitive[taskNo];
      && first == Elements(store[s].successors) && PushedFor(store, roots, stack)
      && roots == first + Elements(n.unconstraintAbstract) + (Elements(n.unconstraintPrimitive) - {s})
    ensures var s := n.unconstraintPrimitive[taskNo];
      Roots(store, r, s, roots) && Eliminating(store, r, s, roots, first, stack, {})
  {
    var s := n.unconstraintPrimitive[taskNo];
    PrimitiveAt(d, store, n, r, taskNo);
    forall x | x in roots ensures x in r - {s} {
      if x in first {
        var i :| 0 <= i < |store[s].successors| && store[s].successors[i] == x;
        assert Lower(store, level, s, store[s].successors[i]);
      } else if x in Elements(n.unconstraintAbstract) {
        assert x in FirstSteps(d, store, r, false);
      } else {
        assert x in FirstSteps(d, store, r, true);
      }
    }
    forall x | x in r - {s} && !HasPredecessor(store, r, x) ensures x in roots {
      assert x in FirstSteps(d, store, r, true) || x in FirstSteps(d, store, r, false);
    }
    forall i | 0 <= i < |stack| ensures HasPredecessor(store, r - {s}, stack[i]) {
      assert stack[i] in stack;
      FewerPredecessors(store, r - {s}, roots, stack[i]);
    }
  }

  lemma SuccessorsStored(d: Domain, store: Store, level: map<nat, nat>, psID: nat, x: nat)
    requires StoreOk(d, store, level, psID) && x in store
    ensures AllStored(store, store[x].successors)
  {
    forall i | 0 <= i < |store[x].successors| ensures store[x].successors[i] in store {
      assert Lower(store, level, x, store[x].successors[i]);
    }
  }

  lemma EffectsInRange(d: Domain, t: nat)
    requires d.Valid() && t < |d.addLists|
    ensures |d.delLists| == |d.precLists| == |d.addLists| == |d.isPrimitive|
    ensures d.Bits(d.addLists[t]) && d.Bits(d.delLists[t]) && d.Bits(d.precLists[t])
  {
  }

  ghost predicate FreeStep(d: Domain, store: Store, state: State, x: nat) {
    && x in store && store[x].task < |d.addLists| && store[x].task < |d.delLists| && store[x].task < |d.precLists|
    && EffectFree(d, store[x].task) && Applicable(d, state, store[x].task)
  }

  /** The noted indices are those of the effect-free applicable actions in the list from a position on. */
  ghost predicate FreeListed(d: Domain, store: Store, state: State, list: seq<nat>, from: nat, noted: seq<nat>) {
    && (forall k :: 0 <= k < |noted| ==> from <= noted[k] < |list| && FreeStep(d, store, state, list[noted[k]]))
    && (forall i :: from <= i < |list| && FreeStep(d, store, state, list[i]) ==> i in noted)
  }

  lemma NothingFree(d: Domain, store: Store, state: State)
    ensures FreeListed(d, store, state, [], 0, []) && Enumerates([], {}) && Elements([]) == {}
    ensures forall p :: Chosen(d, store, {}, p) == {}
  {
  }

  lemma FreeSnoc(d: Domain, store: Store, state: State, list: seq<nat>, from: nat, noted: seq<nat>, x: nat, after: seq<nat>)
    requires from <= |list| && FreeListed(d, store, state, list, from, noted)
    requires after == if FreeStep(d, store, state, x) then noted + [|list|] else noted
    ensures FreeListed(d, store, state, list + [x], from, after)
  {
    hide FreeStep;
    var longer := list + [x];
    assert forall i :: i in noted ==> i in after;
    assert FreeStep(d, store, state, x) ==> after[|noted|] == |list|;
    forall k | 0 <= k < |after| ensures from <= after[k] < |longer| && FreeStep(d, store, state, longer[after[k]]) {
      if k < |noted| { assert after[k] == noted[k] && longer[noted[k]] == list[noted[k]]; }
    }
    forall i | from <= i < |longer| && FreeStep(d, store, state, longer[i]) ensures i in after {
      if i < |list| { assert longer[i] == list[i]; }
    }
  }

  lemma EnumSnoc(list: seq<nat>, s: set<nat>, x: nat)
    requires Enumerates(list, s) && x !in s
    ensures Enumerates(list + [x], s + {x})
  {
    assert (list + [x])[|list|] == x;
    assert forall y :: y in list ==> y in list + [x];
  }

  lemma OldLists(d: Domain, store: Store, n: SearchNode, r: set<nat>)
    requires NodeOk(d, store, n, r)
    ensures Enumerates(n.unconstraintPrimitive, FirstSteps(d, store, r, true)) && Enumerates(n.unconstraintAbstract, FirstSteps(d, store, r, false))
    ensures Elements(n.unconstraintPrimitive) == FirstSteps(d, store, r, true) && Elements(n.unconstraintAbstract) == FirstSteps(d, store, r, false)
  {
  }

  lemma NewElement(d: Domain, store: Store, n: SearchNode, r: set<nat>, i: nat)
    requires NodeOk(d, store, n, r) && i < |n.unconstraintPrimitive|
    ensures n.unconstraintPrimitive[i] !in Elements(n.unconstraintPrimitive[..i])
  {
  }

  /** The members that are actions, or abstract steps. */
  ghost function Chosen(d: Domain, store: Store, s: set<nat>, primitive: bool): (c: set<nat>)
    ensures forall x :: x in c <==> x in s && x in store && store[x].task < |d.isPrimitive| && d.isPrimitive[store[x].task] == primitive
  {
    set x | x in s && x in store && store[x].task < |d.isPrimitive| && d.isPrimitive[store[x].task] == primitive
  }

  ghost predicate NewStep(d: Domain, store: Store, p0: set<nat>, a0: set<nat>, x: nat) {
    x in store && store[x].task < |d.isPrimitive| && x !in p0 && x !in a0
  }

  lemma ChosenSnoc(d: Domain, store: Store, first: seq<nat>, i: nat)
    requires i < |first| && first[i] in store && store[first[i]].task < |d.isPrimitive| && forall j :: 0 <= j < i ==> first[j] != first[i]
    ensures var x := first[i];
      var p := d.isPrimitive[store[x].task];
      && Chosen(d, store, Elements(first[..i] + [x]), p) == Chosen(d, store, Elements(first[..i]), p) + {x}
      && Chosen(d, store, Elements(first[..i] + [x]), !p) == Chosen(d, store, Elements(first[..i]), !p)
      && x !in Elements(first[..i])
  {
    ElementsSnoc(first[..i], first[i]);
  }

  /** Released steps were no first steps before. */
  lemma ReleasedApart(d: Domain, store: Store, level: map<nat, nat>, psID: nat, n: SearchNode, r: set<nat>, taskNo: nat)
    requires StoreOk(d, store, level, psID) && NodeOk(d, store, n, r) && taskNo < |n.unconstraintPrimitive| && n.unconstraintPrimitive[taskNo] in store
    ensures forall x :: x in Released(store, r, n.unconstraintPrimitive[taskNo]) ==>
      x in r && x in store && x != n.unconstraintPrimitive[taskNo] && store[x].task < |d.isPrimitive| && HasPredecessor(store, r, x)
  {
    var s := n.unconstraintPrimitive[taskNo];
    PrimitiveAt(d, store, n, r, taskNo);
    forall x | x in Released(store, r, s) ensures x in r && x in store && x != s && HasPredecessor(store, r, x) {
      var i :| 0 <= i < |store[s].successors| && store[s].successors[i] == x;
      assert Lower(store, level, s, store[s].successors[i]);
    }
  }

  /** The first steps after s has been progressed. */
  lemma AppliedFirsts(d: Domain, store: Store, level: map<nat, nat>, psID: nat, n: SearchNode, r: set<nat>, taskNo: nat)
    requires StoreOk(d, store, level, psID) && NodeOk(d, store, n, r) && taskNo < |n.unconstraintPrimitive| && n.unconstraintPrimitive[taskNo] in store
    ensures var s := n.unconstraintPrimitive[taskNo];
      && FirstSteps(d, store, r - {s}, true) == FirstSteps(d, store, r, true) - {s} + Chosen(d, store, Released(store, r, s), true)
      && FirstSteps(d, store, r - {s}, false) == FirstSteps(d, store, r, false) + Chosen(d, store, Released(store, r, s), false)
      && Network(store, r - {s})
  {
    var s := n.unconstraintPrimitive[taskNo];
    PrimitiveAt(d, store, n, r, taskNo);
    ReleasedApart(d, store, level, psID, n, r, taskNo);
    forall x | x in r - {s} ensures !HasPredecessor(store, r - {s}, x) <==> !HasPredecessor(store, r, x) || x in Released(store, r, s) {
      FewerPredecessors(store, r, r - {s}, x);
    }
    forall x, i | x in r - {s} && x in store && 0 <= i < |store[x].successors| ensures store[x].successors[i] in r - {s} {
      assert store[x].successors[i] in store[x].successors;
    }
    forall p: bool ensures FirstSteps(d, store, r - {s}, p) == FirstSteps(d, store, r, p) - {s} + Chosen(d, store, Released(store, r, s), p) {
    }
  }

  ghost predicate IsProgressible(d: Domain, store: Store, n: SearchNode, i: nat)
    requires i < |n.unconstraintPrimitive|
  {
    var x := n.unconstraintPrimitive[i];
    x in store && store[x].task < |d.precLists| && Applicable(d, n.state, store[x].task)
  }

  ghost predicate FreeProgress(d: Domain, store: Store, n: SearchNode, i: nat)
    requires i < |n.unconstraintPrimitive|
  {
    IsProgressible(d, store, n, i) && FreeStep(d, store, n.state, n.unconstraintPrimitive[i])
  }

  ghost predicate OnlyProgressible(d: Domain, store: Store, n: SearchNode, i: nat)
    requires i < |n.unconstraintPrimitive|
  {
    IsProgressible(d, store, n, i) && forall k :: 0 <= k < |n.unconstraintPrimitive| && k != i ==> !IsProgressible(d, store, n, k)
  }

  ghost predicate Moved(d: Domain, c: Config, s: nat) {
    d.Valid() && WellFormed(d, c) && s in c.store
  }

  lemma Fewer(r: set<nat>, s: nat)
    requires s in r
    ensures |r - {s}| < |r|
  {
    assert r == r - {s} + {s};
  }

  lemma NoMore(r: set<nat>, s: set<nat>)
    requires r <= s
    ensures |r| <= |s|
  {
    assert s == r + (s - r);
  }

  lemma StepFacts(d: Domain, store: Store, level: map<nat, nat>, psID: nat, n: SearchNode, r: set<nat>, i: nat)
    requires StoreOk(d, store, level, psID) && NodeOk(d, store, n, r) && i < |n.unconstraintPrimitive|
    ensures var x := n.unconstraintPrimitive[i];
      && d.Valid() && |n.state| == d.stateBits && x in r && x in store
      && store[x].task < |d.precLists| && store[x].task < |d.addLists| && store[x].task < |d.delLists|
  {
    PrimitiveAt(d, store, n, r, i);
  }

  lemma ApplyFacts(d: Domain, store: Store, level: map<nat, nat>, psID: nat, n: SearchNode, r: set<nat>, taskNo: nat)
    requires StoreOk(d, store, level, psID) && NodeOk(d, store, n, r) && taskNo < |n.unconstraintPrimitive|
    ensures var x := n.unconstraintPrimitive[taskNo];
      && d.Valid() && |n.state| == d.stateBits && x in r && x in store
      && store[x].task < |d.precLists| && store[x].task < |d.addLists| && store[x].task < |d.delLists|
      && n.contained.Valid() && store[x].task in n.contained.tasks && Moved(d, Conf(n, r, store, psID), x)
  {
    var x := n.unconstraintPrimitive[taskNo];
    StepFacts(d, store, level, psID, n, r, taskNo);
    ConfWellFormed(d, store, level, psID, n, r);
    var t := store[x].task;
    assert x in StepsOf(store, r, t);
    assert n.contained.Of(t) == |StepsOf(store, r, t)|;
    Fewer(StepsOf(store, r, t), x);
    TaskListed(n.contained, t);
  }

  lemma CountsLess(c: Counter, store: Store, r: set<nat>, x: nat, c2: Counter)
    requires Counts(c, store, r) && x in r && x in store && c2.Valid()
    requires forall t :: c2.Of(t) == c.Of(t) - (if t == store[x].task then 1 else 0)
    ensures Counts(c2, store, r - {x})
  {
    forall t ensures c2.Of(t) == |StepsOf(store, r - {x}, t)| {
      assert c.Of(t) == |StepsOf(store, r, t)|;
      if t == store[x].task {
        assert StepsOf(store, r, t) == StepsOf(store, r - {x}, t) + {x};
      } else {
        assert StepsOf(store, r, t) == StepsOf(store, r - {x}, t);
      }
    }
  }

  lemma AppliedNode(d: Domain, store: Store, level: map<nat, nat>, psID: nat, n: SearchNode, r: set<nat>, taskNo: nat, result: SearchNode)
    requires StoreOk(d, store, level, psID) && NodeOk(d, store, n, r) && taskNo < |n.unconstraintPrimitive|
    requires n.unconstraintPrimitive[taskNo] in r && n.unconstraintPrimitive[taskNo] in store
    requires Moved(d, Conf(n, r, store, psID), n.unconstraintPrimitive[taskNo])
    requires var s := n.unconstraintPrimitive[taskNo];
      && store[s].task < |d.addLists| && store[s].task < |d.delLists|
      && result.state == Result(d, n.state, store[s].task)
      && Enumerates(result.unconstraintPrimitive, FirstSteps(d, store, r - {s}, true))
      && Enumerates(result.unconstraintAbstract, FirstSteps(d, store, r - {s}, false))
      && result.contained.Valid() && forall t :: result.contained.Of(t) == n.contained.Of(t) - (if t == store[s].task then 1 else 0)
    ensures NodeOk(d, store, result, r - {n.unconstraintPrimitive[taskNo]})
    ensures Conf(result, r - {n.unconstraintPrimitive[taskNo]}, store, psID) == Next(d, Conf(n, r, store, psID), Progress(n.unconstraintPrimitive[taskNo]))
  {
    var s := n.unconstraintPrimitive[taskNo];
    AppliedFirsts(d, store, level, psID, n, r, taskNo);
    CountsLess(n.contained, store, r, s, result.contained);
  }

  /** Unconstrained actions are first steps of the configuration. */
  lemma ActionLegal(d: Domain, store: Store, level: map<nat, nat>, psID: nat, n: SearchNode, r: set<nat>, i: nat)
    requires StoreOk(d, store, level, psID) && NodeOk(d, store, n, r) && i < |n.unconstraintPrimitive| && IsProgressible(d, store, n, i)
    ensures d.Valid() && WellFormed(d, Conf(n, r, store, psID)) && Legal(d, Conf(n, r, store, psID), Progress(n.unconstraintPrimitive[i]))
  {
    ConfWellFormed(d, store, level, psID, n, r);
    PrimitiveAt(d, store, n, r, i);
  }

  lemma FreeProgressible(d: Domain, store: Store, level: map<nat, nat>, psID: nat, n: SearchNode, r: set<nat>, from: nat, noted: seq<nat>)
    requires StoreOk(d, store, level, psID) && NodeOk(d, store, n, r) && |noted| > 0
    requires FreeListed(d, store, n.state, n.unconstraintPrimitive, from, noted)
    ensures noted[0] < |n.unconstraintPrimitive| && FreeProgress(d, store, n, noted[0])
  {
    assert FreeStep(d, store, n.state, n.unconstraintPrimitive[noted[0]]);
  }

  lemma FreeStepLegal(d: Domain, store: Store, level: map<nat, nat>, psID: nat, n: SearchNode, r: set<nat>, i: nat)
    requires StoreOk(d, store, level, psID) && NodeOk(d, store, n, r) && i < |n.unconstraintPrimitive| && FreeProgress(d, store, n, i)
    ensures IsProgressible(d, store, n, i) && Moved(d, Conf(n, r, store, psID), n.unconstraintPrimitive[i])
    ensures forall forced :: Eager(d, Conf(n, r, store, psID), n.unconstraintPrimitive[i], true, forced)
    ensures Solvable(d, Conf(n, r, store, psID)) <==> Solvable(d, Next(d, Conf(n, r, store, psID), Progress(n.unconstraintPrimitive[i])))
  {
    ActionLegal(d, store, level, psID, n, r, i);
    FreeStepSafe(d, Conf(n, r, store, psID), n.unconstraintPrimitive[i]);
  }

  /** Without abstract steps in front every first step is one of the unconstrained actions. */
  lemma OnlyActions(d: Domain, store: Store, level: map<nat, nat>, psID: nat, n: SearchNode, r: set<nat>)
    requires StoreOk(d, store, level, psID) && NodeOk(d, store, n, r) && |n.unconstraintAbstract| == 0
    ensures d.Valid() && WellFormed(d, Conf(n, r, store, psID)) && OnlyActionsFirst(d, Conf(n, r, store, psID))
    ensures forall x :: IsFirstStep(Conf(n, r, store, psID), x) ==> x in n.unconstraintPrimitive
  {
    ConfWellFormed(d, store, level, psID, n, r);
    forall x | IsFirstStep(Conf(n, r, store, psID), x) ensures x in n.unconstraintPrimitive && d.isPrimitive[store[x].task] {
      assert x in FirstSteps(d, store, r, true) || x in FirstSteps(d, store, r, false);
    }
  }

  lemma ForcedLegal(d: Domain, store: Store, level: map<nat, nat>, psID: nat, n: SearchNode, r: set<nat>, i: nat)
    requires StoreOk(d, store, level, psID) && NodeOk(d, store, n, r) && |n.unconstraintAbstract| == 0
    requires i < |n.unconstraintPrimitive| && OnlyProgressible(d, store, n, i)
    ensures Moved(d, Conf(n, r, store, psID), n.unconstraintPrimitive[i])
    ensures forall free :: Eager(d, Conf(n, r, store, psID), n.unconstraintPrimitive[i], free, true)
    ensures Solvable(d, Conf(n, r, store, psID)) <==> Solvable(d, Next(d, Conf(n, r, store, psID), Progress(n.unconstraintPrimitive[i])))
  {
    var c := Conf(n, r, store, psID);
    ActionLegal(d, store, level, psID, n, r, i);
    OnlyActions(d, store, level, psID, n, r);
    forall x | IsFirstStep(c, x) && Applicable(d, c.state, c.store[x].task) ensures x == n.unconstraintPrimitive[i] {
      var k :| 0 <= k < |n.unconstraintPrimitive| && n.unconstraintPrimitive[k] == x;
      assert IsProgressible(d, store, n, k);
    }
    ForcedStepSafe(d, c, n.unconstraintPrimitive[i]);
  }

  lemma NoneLegal(d: Domain, store: Store, level: map<nat, nat>, psID: nat, n: SearchNode, r: set<nat>)
    requires StoreOk(d, store, level, psID) && NodeOk(d, store, n, r) && |n.unconstraintAbstract| == 0 && |n.unconstraintPrimitive| > 0
    requires forall i :: 0 <= i < |n.unconstraintPrimitive| ==> !IsProgressible(d, store, n, i)
    ensures d.Valid() && WellFormed(d, Conf(n, r, store, psID)) && !Solvable(d, Conf(n, r, store, psID))
  {
    var c := Conf(n, r, store, psID);
    OnlyActions(d, store, level, psID, n, r);
    PrimitiveAt(d, store, n, r, 0);
    forall x | IsFirstStep(c, x) ensures !Applicable(d, c.state, c.store[x].task) {
      var k :| 0 <= k < |n.unconstraintPrimitive| && n.unconstraintPrimitive[k] == x;
      assert !IsProgressible(d, store, n, k);
    }
    DeadEnd(d, c);
  }

  // ----- method instances -----

  ghost function Positions(m: Method, first: bool): (s: set<nat>)
    ensures forall i: nat :: i in s <==> i < |m.subTasks| && (if first then IsFirst(m, i) else IsLast(m, i))
  {
    set i: nat | i in Range0(|m.subTasks|) && (if first then IsFirst(m, i) else IsLast(m, i))
  }

  ghost function Range0(k: nat): (s: set<nat>)
    ensures forall i: nat :: i in s <==> i < k
  {
    if k == 0 then {} else Range0(k - 1) + {k - 1}
  }

  ghost function Occurrences(s: seq<nat>, t: int): nat {
    if s == [] then 0 else Occurrences(s[..|s| - 1], t) + (if s[|s| - 1] == t then 1 else 0)
  }

  /** What generateMethodRepresentation stores for a method, and its subtasks as a sorted multiset. */
  ghost predicate TableOk(m: Method, firsts: seq<nat>, lasts: seq<nat>, distinct: Counter) {
    && Enumerates(firsts, Positions(m, true)) && Enumerates(lasts, Positions(m, false))
    && distinct.Valid() && forall t :: distinct.Of(t) == Occurrences(m.subTasks, t)
  }

  /** Lines 1491-1535. */
  method GenerateMethodRepresentation(m: Method) returns (firstTasks: seq<nat>, lastTasks: seq<nat>)
    requires forall o :: 0 <= o < |m.ordering| ==> m.ordering[o].0 < |m.subTasks| && m.ordering[o].1 < |m.subTasks|
    ensures Enumerates(firstTasks, Positions(m, true)) && Enumerates(lastTasks, Positions(m, false))
  {
    hide Enumerates, Positions, PositionsUpTo;
    var n := |m.subTasks|;
    PositionsAll(m);
    var firsts := new bool[n](_ => true);
    var lasts := new bool[n](_ => true);
    for o := 0 to |m.ordering|
      invariant forall i :: 0 <= i < n ==> (firsts[i] <==> forall k :: 0 <= k < o ==> m.ordering[k].1 != i)
      invariant forall i :: 0 <= i < n ==> (lasts[i] <==> forall k :: 0 <= k < o ==> m.ordering[k].0 != i)
    {
      firsts[m.ordering[o].1] := false;
      lasts[m.ordering[o].0] := false;
    }
    firstTasks, lastTasks := [], [];
    for j := 0 to n
      invariant forall i :: 0 <= i < n ==> (firsts[i] <==> forall k :: 0 <= k < |m.ordering| ==> m.ordering[k].1 != i)
      invariant forall i :: 0 <= i < n ==> (lasts[i] <==> forall k :: 0 <= k < |m.ordering| ==> m.ordering[k].0 != i)
      invariant Enumerates(firstTasks, PositionsUpTo(m, true, j)) && Enumerates(lastTasks, PositionsUpTo(m, false, j))
    {
      PositionsNext(m, j);
      assert (firsts[j] <==> IsFirst(m, j)) && (lasts[j] <==> IsLast(m, j));
      if firsts[j] {
        EnumSnoc(firstTasks, PositionsUpTo(m, true, j), j);
        firstTasks := firstTasks + [j];
      }
      if lasts[j] {
        EnumSnoc(lastTasks, PositionsUpTo(m, false, j), j);
        lastTasks := lastTasks + [j];
      }
    }
  }

  lemma PositionsAll(m: Method)
    ensures PositionsUpTo(m, true, |m.subTasks|) == Positions(m, true) && PositionsUpTo(m, false, |m.subTasks|) == Positions(m, false)
    ensures PositionsUpTo(m, true, 0) == {} && PositionsUpTo(m, false, 0) == {} && Enumerates([], {})
  {
  }

  ghost function PositionsUpTo(m: Method, first: bool, k: nat): (s: set<nat>)
    ensures forall i: nat :: i in s <==> i < k && (if first then IsFirst(m, i) else IsLast(m, i))
  {
    set i: nat | i in Range0(k) && (if first then IsFirst(m, i) else IsLast(m, i))
  }

  lemma PositionsNext(m: Method, k: nat)
    ensures PositionsUpTo(m, true, k + 1) == if IsFirst(m, k) then PositionsUpTo(m, true, k) + {k} else PositionsUpTo(m, true, k)
    ensures PositionsUpTo(m, false, k + 1) == if IsLast(m, k) then PositionsUpTo(m, false, k) + {k} else PositionsUpTo(m, false, k)
    ensures k !in PositionsUpTo(m, true, k) && k !in PositionsUpTo(m, false, k)
  {
  }

  /** Lines 977-988: the successor lists inside the method. */
  method LinkInner(m: Method, base: nat) returns (succs: seq<seq<nat>>)
    requires forall o :: 0 <= o < |m.ordering| ==> m.ordering[o].0 < |m.subTasks| && m.ordering[o].1 < |m.subTasks|
    ensures |succs| == |m.subTasks| && forall i :: 0 <= i < |succs| ==> succs[i] == Inner(m, i, base)
  {
    succs := seq(|m.subTasks|, _ => []);
    for o := 0 to |m.ordering|
      invariant |succs| == |m.subTasks| && forall i :: 0 <= i < |succs| ==> succs[i] == InnerUpTo(m, i, base, o)
    {
      var (pred, succ) := m.ordering[o];
      succs := succs[pred := succs[pred] + [base + 1 + succ]];
    }
  }

  /** Lines 653-661: the successors of the decomposed step become those of the last steps. */
  method LinkLasts(m: Method, base: nat, succs0: seq<seq<nat>>, lasts: seq<nat>, successors: seq<nat>) returns (succs: seq<seq<nat>>)
    requires |succs0| == |m.subTasks| && (forall i :: 0 <= i < |succs0| ==> succs0[i] == Inner(m, i, base)) && Enumerates(lasts, Positions(m, false))
    ensures |succs| == |m.subTasks| && forall i :: 0 <= i < |succs| ==> succs[i] == if IsLast(m, i) then successors else Inner(m, i, base)
  {
    succs := succs0;
    for k := 0 to |lasts|
      invariant |succs| == |succs0|
      invariant forall i :: 0 <= i < |succs| ==> succs[i] == if i in lasts[..k] then successors else succs0[i]
    {
      assert lasts[..k + 1] == lasts[..k] + [lasts[k]];
      assert lasts[k] in Positions(m, false);
      succs := succs[lasts[k] := successors];
    }
    assert lasts[..|lasts|] == lasts;
    assert forall i: nat :: i < |succs| ==> (i in lasts <==> i in Positions(m, false));
  }

  ghost function NewLevels(h: seq<nat>, base: nat, top: nat): (l: map<nat, nat>)
    ensures forall x :: x in l <==> base < x <= base + |h|
    ensures forall x :: x in l ==> l[x] == top + h[x - base - 1]
  {
    map x: nat | x in Range(base, |h|) :: top + h[x - base - 1]
  }

  lemma {:induction false} InnerMembers(m: Method, i: nat, base: nat, k: nat)
    requires k <= |m.ordering|
    ensures forall y :: y in InnerUpTo(m, i, base, k) <==> exists o {:trigger m.ordering[o]} :: 0 <= o < k && m.ordering[o].0 == i && y == base + 1 + m.ordering[o].1
    decreases k
  {
    if k > 0 {
      InnerMembers(m, i, base, k - 1);
      var last := if m.ordering[k - 1].0 == i then [base + 1 + m.ordering[k - 1].1] else [];
      assert InnerUpTo(m, i, base, k) == InnerUpTo(m, i, base, k - 1) + last;
    }
  }

  /** The store after a method instance has been added. */
  lemma InstanceStored(d: Domain, store0: Store, level0: map<nat, nat>, base: nat, m: Method, decomposed: nat, h: seq<nat>, store: Store, level: map<nat, nat>, psID: nat)
    requires StoreOk(d, store0, level0, base) && decomposed in store0 && d.MethodOk(m) && Heights(m, h) && psID == base + |m.subTasks|
    requires level == level0 + NewLevels(h, base, level0[decomposed])
    requires forall x :: x in store <==> x in store0 || base < x <= base + |m.subTasks|
    requires forall x :: x in store0 && !(base < x <= base + |m.subTasks|) ==> store[x] == store0[x]
    requires forall k :: 0 <= k < |m.subTasks| ==> store[base + 1 + k] == InstanceStep(m, k, base, store0[decomposed].successors)
    ensures store == store0 + Instance(m, base, store0[decomposed].successors)
    ensures forall x :: x in store0 ==> x in store && store[x] == store0[x]
    ensures StoreOk(d, store, level, psID)
  {
    forall x | base < x <= base + |m.subTasks| ensures x in store && store[x] == InstanceStep(m, x - base - 1, base, store0[decomposed].successors) {
      assert store[base + 1 + (x - base - 1)] == InstanceStep(m, x - base - 1, base, store0[decomposed].successors);
    }
    forall x, i | x in store && 0 <= i < |store[x].successors| ensures Lower(store, level, x, store[x].successors[i]) {
      if base < x {
        InstanceLower(d, store0, level0, base, m, decomposed, h, store, level, x, i);
      } else {
        assert Lower(store0, level0, x, store0[x].successors[i]);
      }
    }
  }

  lemma InstanceLower(d: Domain, store0: Store, level0: map<nat, nat>, base: nat, m: Method, decomposed: nat, h: seq<nat>, store: Store, level: map<nat, nat>, x: nat, i: nat)
    requires StoreOk(d, store0, level0, base) && decomposed in store0 && d.MethodOk(m) && Heights(m, h)
    requires level == level0 + NewLevels(h, base, level0[decomposed])
    requires forall y :: y in store <==> y in store0 || base < y <= base + |m.subTasks|
    requires base < x <= base + |m.subTasks| && store[x] == InstanceStep(m, x - base - 1, base, store0[decomposed].successors)
    requires i < |store[x].successors|
    ensures Lower(store, level, x, store[x].successors[i])
  {
    var y := store[x].successors[i];
    if IsLast(m, x - base - 1) {
      assert Lower(store0, level0, decomposed, store0[decomposed].successors[i]);
    } else {
      InnerMembers(m, x - base - 1, base, |m.ordering|);
      assert y in Inner(m, x - base - 1, base);
      var o :| 0 <= o < |m.ordering| && m.ordering[o].0 == x - base - 1 && y == base + 1 + m.ordering[o].1;
      assert h[m.ordering[o].1] < h[m.ordering[o].0];
    }
  }

  lemma AbstractDistinct(d: Domain, store: Store, n: SearchNode, r: set<nat>, i: nat, j: nat)
    requires NodeOk(d, store, n, r) && i < |n.unconstraintAbstract| && j < |n.unconstraintAbstract|
    ensures i == j <==> n.unconstraintAbstract[i] == n.unconstraintAbstract[j]
    ensures n.unconstraintAbstract[i] !in Elements(n.unconstraintAbstract[..i])
  {
  }

  lemma DecomposeFacts(d: Domain, store: Store, level: map<nat, nat>, psID: nat, n: SearchNode, r: set<nat>, taskNo: nat, how: nat)
    requires StoreOk(d, store, level, psID) && NodeOk(d, store, n, r) && taskNo < |n.unconstraintAbstract| && how < |d.methods|
    requires n.unconstraintAbstract[taskNo] in store && store[n.unconstraintAbstract[taskNo]].task == d.methods[how].task
    ensures var x := n.unconstraintAbstract[taskNo];
      && d.Valid() && d.MethodOk(d.methods[how]) && |n.state| == d.stateBits && x in r
      && n.contained.Valid() && d.methods[how].task in n.contained.tasks && Moved(d, Conf(n, r, store, psID), x)
    ensures forall i :: 0 <= i < |n.unconstraintPrimitive| ==> n.unconstraintPrimitive[i] in store
  {
    var x := n.unconstraintAbstract[taskNo];
    AbstractAt(d, store, n, r, taskNo);
    ConfWellFormed(d, store, level, psID, n, r);
    var t := store[x].task;
    assert x in StepsOf(store, r, t);
    assert n.contained.Of(t) == |StepsOf(store, r, t)|;
    Fewer(StepsOf(store, r, t), x);
    TaskListed(n.contained, t);
    forall i | 0 <= i < |n.unconstraintPrimitive| ensures n.unconstraintPrimitive[i] in store { PrimitiveAt(d, store, n, r, i); }
  }

  /** The instance and the network around it. */
  ghost predicate Instantiated(d: Domain, store0: Store, level0: map<nat, nat>, base: nat, m: Method, r: set<nat>, dec: nat, store: Store) {
    && StoreOk(d, store0, level0, base) && d.MethodOk(m) && Network(store0, r) && dec in r && dec in store0 && !HasPredecessor(store0, r, dec)
    && Added(store0, base, m, store0[dec].successors, store)
  }

  ghost predicate Added(store0: Store, base: nat, m: Method, successors: seq<nat>, store: Store) {
    && (forall x :: x in store <==> x in store0 || base < x <= base + |m.subTasks|)
    && (forall x :: x in store0 && x <= base ==> store[x] == store0[x])
    && forall x :: base < x <= base + |m.subTasks| ==> store[x] == InstanceStep(m, x - base - 1, base, successors)
  }

  lemma InstanceMembers(m: Method, base: nat, successors: seq<nat>)
    ensures forall x :: x in Instance(m, base, successors) <==> base < x <= base + |m.subTasks|
    ensures forall x :: base < x <= base + |m.subTasks| ==> Instance(m, base, successors)[x] == InstanceStep(m, x - base - 1, base, successors)
  {
    hide InstanceStep;
  }

  lemma AddedInstance(store0: Store, base: nat, m: Method, successors: seq<nat>, store: Store)
    requires store == store0 + Instance(m, base, successors)
    ensures Added(store0, base, m, successors, store)
  {
    hide InstanceStep, Instance;
    var inst := Instance(m, base, successors);
    InstanceMembers(m, base, successors);
    Joined(store0, inst, store);
    forall x | base < x <= base + |m.subTasks| ensures store[x] == InstanceStep(m, x - base - 1, base, successors) {
      assert x in inst;
    }
  }

  lemma {:induction false} LowestIsLast(m: Method, h: seq<nat>, k: nat) returns (i: nat)
    requires Heights(m, h) && |h| > 0 && 0 < k <= |h|
    ensures i < k && forall j :: 0 <= j < k ==> h[i] <= h[j]
    decreases k
  {
    if k == 1 {
      i := 0;
    } else {
      i := LowestIsLast(m, h, k - 1);
      if h[k - 1] < h[i] { i := k - 1; }
    }
  }

  lemma SomeLast(d: Domain, m: Method) returns (i: nat)
    requires d.MethodOk(m)
    ensures i < |m.subTasks| && IsLast(m, i)
  {
    var h: seq<nat> :| Heights(m, h);
    i := LowestIsLast(m, h, |h|);
  }

  lemma OldIds(d: Domain, store: Store, level: map<nat, nat>, psID: nat, r: set<nat>)
    requires StoreOk(d, store, level, psID) && Network(store, r)
    ensures (forall x :: x in store ==> x <= psID) && forall x :: x in r ==> x in store
  {
  }

  lemma Joined(a: Store, b: Store, s: Store)
    requires s == a + b
    ensures forall x :: x in s <==> x in a || x in b
    ensures forall x :: x in b ==> s[x] == b[x]
    ensures forall x :: x in a && x !in b ==> s[x] == a[x]
  {
  }

  lemma InstanceFacts(d: Domain, store0: Store, level0: map<nat, nat>, base: nat, m: Method, r: set<nat>, dec: nat, store: Store)
    requires Instantiated(d, store0, level0, base, m, r, dec, store)
    ensures forall x :: x in store0 ==> x <= base && x in store && store[x] == store0[x]
    ensures forall x :: x in store ==> x in store0 || base < x <= base + |m.subTasks|
    ensures forall x :: base < x <= base + |m.subTasks| ==> x in store && store[x] == InstanceStep(m, x - base - 1, base, store0[dec].successors)
    ensures (forall x :: x in r ==> x in store0) && dec in r && !HasPredecessor(store0, r, dec)
  {
    OldIds(d, store0, level0, base, r);
    hide StoreOk, Network, HasPredecessor, InstanceStep, Domain.MethodOk;
  }

  /** The successors of a new step: those of the decomposed one, or new ones given by the ordering. */
  lemma NewSuccessors(m: Method, i: nat, base: nat, successors: seq<nat>, y: nat)
    requires i < |m.subTasks| && y in InstanceStep(m, i, base, successors).successors
    ensures if IsLast(m, i) then y in successors
      else exists o {:trigger m.ordering[o]} :: 0 <= o < |m.ordering| && m.ordering[o].0 == i && y == base + 1 + m.ordering[o].1
  {
    InnerMembers(m, i, base, |m.ordering|);
  }

  /** r without dec and with the new steps. */
  ghost predicate Replaced(r: set<nat>, dec: nat, m: Method, base: nat, r2: set<nat>) {
    forall x :: x in r2 <==> (x in r && x != dec) || base < x <= base + |m.subTasks|
  }

  lemma OldPredecessorBefore(d: Domain, store0: Store, level0: map<nat, nat>, base: nat, m: Method, r: set<nat>, dec: nat, store: Store, r2: set<nat>, x: nat, p: nat)
    requires Instantiated(d, store0, level0, base, m, r, dec, store) && Replaced(r, dec, m, base, r2) && x <= base
    requires p in r2 && p in store && x in store[p].successors
    ensures HasPredecessor(store0, r, x)
  {
    InstanceFacts(d, store0, level0, base, m, r, dec, store);
    hide Instantiated, Instance, InstanceStep, IsLast, Inner;
    if base < p {
      NewSuccessors(m, p - base - 1, base, store0[dec].successors, x);
      assert dec in r && x in store0[dec].successors;
    } else {
      assert p in r && p in store0 && x in store0[p].successors;
    }
  }

  lemma OldPredecessorAfter(d: Domain, store0: Store, level0: map<nat, nat>, base: nat, m: Method, r: set<nat>, dec: nat, store: Store, r2: set<nat>, x: nat, p: nat)
    requires Instantiated(d, store0, level0, base, m, r, dec, store) && Replaced(r, dec, m, base, r2)
    requires p in r && p in store0 && x in store0[p].successors
    ensures HasPredecessor(store, r2, x)
  {
    InstanceFacts(d, store0, level0, base, m, r, dec, store);
    var l := SomeLast(d, m);
    hide Instantiated, Instance, IsLast, Inner;
    if p == dec {
      LastSuccessors(m, l, base, store0[dec].successors);
      var q := base + 1 + l;
      assert q in r2 && x in store[q].successors;
    } else {
      assert p in r2 && x in store[p].successors;
    }
  }

  lemma OldPredecessor(d: Domain, store0: Store, level0: map<nat, nat>, base: nat, m: Method, r: set<nat>, dec: nat, store: Store, r2: set<nat>, x: nat)
    requires Instantiated(d, store0, level0, base, m, r, dec, store) && Replaced(r, dec, m, base, r2) && x in r && x != dec && x <= base
    ensures HasPredecessor(store, r2, x) <==> HasPredecessor(store0, r, x)
  {
    hide Instantiated, Replaced;
    if HasPredecessor(store, r2, x) {
      var p :| p in r2 && p in store && x in store[p].successors;
      OldPredecessorBefore(d, store0, level0, base, m, r, dec, store, r2, x, p);
    }
    if HasPredecessor(store0, r, x) {
      var p :| p in r && p in store0 && x in store0[p].successors;
      OldPredecessorAfter(d, store0, level0, base, m, r, dec, store, r2, x, p);
    }
  }

  lemma LastSuccessors(m: Method, l: nat, base: nat, successors: seq<nat>)
    requires l < |m.subTasks| && IsLast(m, l)
    ensures InstanceStep(m, l, base, successors).successors == successors
  {
  }

  lemma SuccessorsOld(d: Domain, store0: Store, level0: map<nat, nat>, base: nat, x: nat)
    requires StoreOk(d, store0, level0, base) && x in store0
    ensures forall y :: y in store0[x].successors ==> y in store0 && y <= base
  {
    forall y | y in store0[x].successors ensures y in store0 && y <= base {
      var i :| 0 <= i < |store0[x].successors| && store0[x].successors[i] == y;
      assert Lower(store0, level0, x, store0[x].successors[i]);
    }
  }

  lemma NewPredecessor(d: Domain, store0: Store, level0: map<nat, nat>, base: nat, m: Method, r: set<nat>, dec: nat, store: Store, r2: set<nat>, i: nat)
    requires Instantiated(d, store0, level0, base, m, r, dec, store) && Replaced(r, dec, m, base, r2) && i < |m.subTasks|
    ensures HasPredecessor(store, r2, base + 1 + i) <==> !IsFirst(m, i)
  {
    hide Instantiated, Replaced, IsFirst;
    var x := base + 1 + i;
    if HasPredecessor(store, r2, x) {
      var p :| p in r2 && p in store && x in store[p].successors;
      HasNewSuccessor(d, store0, level0, base, m, r, dec, store, i, p);
    }
    if !IsFirst(m, i) {
      var o := NotFirst(m, i);
      InnerPredecessor(d, store0, level0, base, m, r, dec, store, r2, o);
    }
  }

  lemma NotFirst(m: Method, i: nat) returns (o: nat)
    requires !IsFirst(m, i)
    ensures o < |m.ordering| && m.ordering[o].1 == i
  {
    o :| 0 <= o < |m.ordering| && m.ordering[o].1 == i;
  }

  lemma InnerPredecessor(d: Domain, store0: Store, level0: map<nat, nat>, base: nat, m: Method, r: set<nat>, dec: nat, store: Store, r2: set<nat>, o: nat)
    requires Instantiated(d, store0, level0, base, m, r, dec, store) && Replaced(r, dec, m, base, r2) && o < |m.ordering|
    ensures HasPredecessor(store, r2, base + 1 + m.ordering[o].1)
  {
    InnerSuccessor(d, store0, level0, base, m, r, dec, store, o);
    hide Instantiated;
    var q := base + 1 + m.ordering[o].0;
    assert q in r2 && base + 1 + m.ordering[o].1 in store[q].successors;
  }

  lemma HasNewSuccessor(d: Domain, store0: Store, level0: map<nat, nat>, base: nat, m: Method, r: set<nat>, dec: nat, store: Store, i: nat, p: nat)
    requires Instantiated(d, store0, level0, base, m, r, dec, store) && i < |m.subTasks| && p in store && base + 1 + i in store[p].successors
    ensures !IsFirst(m, i)
  {
    if base < p {
      NewStepIs(d, store0, level0, base, m, r, dec, store, p);
      SuccessorsOld(d, store0, level0, base, dec);
      hide Instantiated, InstanceStep;
      NewSuccessors(m, p - base - 1, base, store0[dec].successors, base + 1 + i);
    } else {
      StillOld(d, store0, level0, base, m, r, dec, store, p);
    }
  }

  lemma NewStepIs(d: Domain, store0: Store, level0: map<nat, nat>, base: nat, m: Method, r: set<nat>, dec: nat, store: Store, p: nat)
    requires Instantiated(d, store0, level0, base, m, r, dec, store) && p in store && base < p
    ensures p <= base + |m.subTasks| && dec in store0 && store[p] == InstanceStep(m, p - base - 1, base, store0[dec].successors)
  {
    InstanceFacts(d, store0, level0, base, m, r, dec, store);
  }

  lemma StillOld(d: Domain, store0: Store, level0: map<nat, nat>, base: nat, m: Method, r: set<nat>, dec: nat, store: Store, p: nat)
    requires Instantiated(d, store0, level0, base, m, r, dec, store) && p in store && p <= base
    ensures p in store0 && store[p] == store0[p] && forall y :: y in store[p].successors ==> y <= base
  {
    InstanceFacts(d, store0, level0, base, m, r, dec, store);
    SuccessorsOld(d, store0, level0, base, p);
  }

  lemma InnerSuccessor(d: Domain, store0: Store, level0: map<nat, nat>, base: nat, m: Method, r: set<nat>, dec: nat, store: Store, o: nat)
    requires Instantiated(d, store0, level0, base, m, r, dec, store) && o < |m.ordering|
    ensures m.ordering[o].0 < |m.subTasks| && base + 1 + m.ordering[o].0 in store
    ensures base + 1 + m.ordering[o].1 in store[base + 1 + m.ordering[o].0].successors
  {
    InstanceFacts(d, store0, level0, base, m, r, dec, store);
    var a := m.ordering[o].0;
    InnerMembers(m, a, base, |m.ordering|);
    assert !IsLast(m, a);
    assert base + 1 + m.ordering[o].1 in Inner(m, a, base);
  }

  lemma InstanceNetwork(d: Domain, store0: Store, level0: map<nat, nat>, base: nat, m: Method, r: set<nat>, dec: nat, store: Store)
    requires Instantiated(d, store0, level0, base, m, r, dec, store)
    ensures Network(store, r - {dec} + NewIds(m, base))
  {
    var r2 := r - {dec} + NewIds(m, base);
    InstanceFacts(d, store0, level0, base, m, r, dec, store);
    assert Replaced(r, dec, m, base, r2);
    hide Instantiated, Replaced;
    forall x, i | x in r2 && x in store && 0 <= i < |store[x].successors| ensures store[x].successors[i] in r2 {
      assert store[x].successors[i] in store[x].successors;
      SuccessorStays(d, store0, level0, base, m, r, dec, store, r2, x, store[x].successors[i]);
    }
  }

  lemma SuccessorStays(d: Domain, store0: Store, level0: map<nat, nat>, base: nat, m: Method, r: set<nat>, dec: nat, store: Store, r2: set<nat>, x: nat, y: nat)
    requires Instantiated(d, store0, level0, base, m, r, dec, store) && Replaced(r, dec, m, base, r2)
    requires x in r2 && x in store && y in store[x].successors
    ensures y in r2
  {
    if base < x {
      NewStepIs(d, store0, level0, base, m, r, dec, store, x);
      NewSuccessors(m, x - base - 1, base, store0[dec].successors, y);
      OldSuccessorStays(d, store0, level0, base, m, r, dec, store);
    } else {
      StillOld(d, store0, level0, base, m, r, dec, store, x);
      var i :| 0 <= i < |store0[x].successors| && store0[x].successors[i] == y;
      assert x in r && y in r;
      assert x in r && x in store0 && y in store0[x].successors;
    }
  }

  lemma OldSuccessorStays(d: Domain, store0: Store, level0: map<nat, nat>, base: nat, m: Method, r: set<nat>, dec: nat, store: Store)
    requires Instantiated(d, store0, level0, base, m, r, dec, store)
    ensures dec in store0 && forall y :: y in store0[dec].successors ==> y in r && y != dec
    ensures forall o :: 0 <= o < |m.ordering| ==> m.ordering[o].1 < |m.subTasks|
  {
    forall y | y in store0[dec].successors ensures y in r && y != dec {
      var i :| 0 <= i < |store0[dec].successors| && store0[dec].successors[i] == y;
      assert store0[dec].successors[i] in r;
    }
  }

  /** Exactly the first tasks of the method become first steps. */
  lemma InstanceFirsts(d: Domain, store0: Store, level0: map<nat, nat>, base: nat, m: Method, r: set<nat>, dec: nat, store: Store,
                       positions: seq<nat>, firsts: seq<nat>, primitive: bool)
    requires Instantiated(d, store0, level0, base, m, r, dec, store) && Enumerates(positions, Positions(m, true))
    requires |firsts| == |positions| && forall k :: 0 <= k < |firsts| ==> firsts[k] == base + 1 + positions[k]
    ensures FirstSteps(d, store, r - {dec} + NewIds(m, base), primitive) ==
      FirstSteps(d, store0, r, primitive) - {dec} + Chosen(d, store, Elements(firsts), primitive)
  {
    var r2 := r - {dec} + NewIds(m, base);
    var left, right := FirstSteps(d, store, r2, primitive), FirstSteps(d, store0, r, primitive) - {dec} + Chosen(d, store, Elements(firsts), primitive);
    RightInside(d, store0, store, base, m, r, dec, positions, firsts, r2, primitive);
    hide Instantiated, HasPredecessor, Enumerates, Replaced;
    forall x | x in r2 ensures x in left <==> x in right {
      FirstIff(d, store0, level0, base, m, r, dec, store, positions, firsts, r2, x);
    }
  }

  lemma RightInside(d: Domain, store0: Store, store: Store, base: nat, m: Method, r: set<nat>, dec: nat,
                    positions: seq<nat>, firsts: seq<nat>, r2: set<nat>, primitive: bool)
    requires Enumerates(positions, Positions(m, true)) && |firsts| == |positions| && forall k :: 0 <= k < |firsts| ==> firsts[k] == base + 1 + positions[k]
    requires r2 == r - {dec} + NewIds(m, base)
    ensures Replaced(r, dec, m, base, r2)
    ensures forall x :: x in FirstSteps(d, store0, r, primitive) - {dec} + Chosen(d, store, Elements(firsts), primitive) ==> x in r2
  {
    forall x | x in Elements(firsts) ensures x in r2 {
      var k :| 0 <= k < |firsts| && firsts[k] == x;
      assert positions[k] in Positions(m, true);
    }
  }

  lemma FirstIff(d: Domain, store0: Store, level0: map<nat, nat>, base: nat, m: Method, r: set<nat>, dec: nat, store: Store,
                 positions: seq<nat>, firsts: seq<nat>, r2: set<nat>, x: nat)
    requires Instantiated(d, store0, level0, base, m, r, dec, store) && Enumerates(positions, Positions(m, true))
    requires |firsts| == |positions| && forall k :: 0 <= k < |firsts| ==> firsts[k] == base + 1 + positions[k]
    requires Replaced(r, dec, m, base, r2) && x in r2
    ensures !HasPredecessor(store, r2, x) <==> (x in r && x != dec && !HasPredecessor(store0, r, x)) || x in Elements(firsts)
    ensures x in store && (x in r && x != dec <==> x <= base) && (x in store0 <==> x <= base) && (x <= base ==> store[x] == store0[x])
  {
    hide *;
    WhereFrom(d, store0, level0, base, m, r, dec, store, r2, x);
    assert !HasPredecessor(store, r2, x) <==> (x in r && x != dec && !HasPredecessor(store0, r, x)) || x in Elements(firsts) by {
      if base < x {
        NewFirst(d, store0, level0, base, m, r, dec, store, positions, firsts, r2, x);
      } else {
        OldPredecessor(d, store0, level0, base, m, r, dec, store, r2, x);
        OnlyNewListed(base, positions, firsts, x);
      }
    }
  }

  lemma NewFirst(d: Domain, store0: Store, level0: map<nat, nat>, base: nat, m: Method, r: set<nat>, dec: nat, store: Store,
                 positions: seq<nat>, firsts: seq<nat>, r2: set<nat>, x: nat)
    requires Instantiated(d, store0, level0, base, m, r, dec, store) && Enumerates(positions, Positions(m, true))
    requires |firsts| == |positions| && forall k :: 0 <= k < |firsts| ==> firsts[k] == base + 1 + positions[k]
    requires Replaced(r, dec, m, base, r2) && base < x <= base + |m.subTasks|
    ensures !HasPredecessor(store, r2, x) <==> x in Elements(firsts)
  {
    hide *;
    NewPredecessor(d, store0, level0, base, m, r, dec, store, r2, x - base - 1);
    FirstListed(m, base, positions, firsts, x - base - 1);
  }

  lemma WhereFrom(d: Domain, store0: Store, level0: map<nat, nat>, base: nat, m: Method, r: set<nat>, dec: nat, store: Store, r2: set<nat>, x: nat)
    requires Instantiated(d, store0, level0, base, m, r, dec, store) && Replaced(r, dec, m, base, r2) && x in r2
    ensures x in store && (x in r && x != dec <==> x <= base) && (x in store0 <==> x <= base) && (x <= base ==> store[x] == store0[x])
    ensures x <= base + |m.subTasks|
  {
    InstanceFacts(d, store0, level0, base, m, r, dec, store);
  }

  lemma FirstListed(m: Method, base: nat, positions: seq<nat>, firsts: seq<nat>, i: nat)
    requires Enumerates(positions, Positions(m, true)) && i < |m.subTasks|
    requires |firsts| == |positions| && forall k :: 0 <= k < |firsts| ==> firsts[k] == base + 1 + positions[k]
    ensures base + 1 + i in Elements(firsts) <==> IsFirst(m, i)
  {
    if IsFirst(m, i) {
      assert i in Positions(m, true);
      var k :| 0 <= k < |positions| && positions[k] == i;
      assert firsts[k] == base + 1 + i;
    }
    if base + 1 + i in Elements(firsts) {
      var k :| 0 <= k < |firsts| && firsts[k] == base + 1 + i;
      assert positions[k] in Positions(m, true);
    }
  }

  lemma OnlyNewListed(base: nat, positions: seq<nat>, firsts: seq<nat>, x: nat)
    requires |firsts| == |positions| && (forall k :: 0 <= k < |firsts| ==> firsts[k] == base + 1 + positions[k]) && x <= base
    ensures x !in Elements(firsts)
  {
  }

  lemma FirstsNew(d: Domain, store0: Store, level0: map<nat, nat>, base: nat, m: Method, r: set<nat>, positions: seq<nat>, firsts: seq<nat>,
                  store: Store, successors: seq<nat>, p0: set<nat>, a0: set<nat>)
    requires StoreOk(d, store0, level0, base) && d.MethodOk(m) && Enumerates(positions, Positions(m, true)) && store == store0 + Instance(m, base, successors)
    requires |firsts| == |positions| && forall k :: 0 <= k < |firsts| ==> firsts[k] == base + 1 + positions[k]
    requires (forall x :: x in p0 ==> x in store0) && (forall x :: x in a0 ==> x in store0)
    ensures forall i, j :: 0 <= i < j < |firsts| ==> firsts[i] != firsts[j]
    ensures forall i :: 0 <= i < |firsts| ==> NewStep(d, store, p0, a0, firsts[i])
  {
    AddedInstance(store0, base, m, successors, store);
    hide Instance;
    forall i | 0 <= i < |firsts| ensures NewStep(d, store, p0, a0, firsts[i]) {
      assert positions[i] in Positions(m, true);
      assert store[firsts[i]] == InstanceStep(m, positions[i], base, successors);
    }
  }

  /** The new steps with task t among the first k subtasks. */
  ghost function NewOf(m: Method, base: nat, t: int, k: nat): (s: set<nat>)
    requires k <= |m.subTasks|
    ensures forall x :: x in s <==> base < x <= base + k && m.subTasks[x - base - 1] == t
  {
    if k == 0 then {} else NewOf(m, base, t, k - 1) + (if m.subTasks[k - 1] == t then {base + k} else {})
  }

  lemma NewOfNext(m: Method, base: nat, t: int, k: nat)
    requires 0 < k <= |m.subTasks|
    ensures |NewOf(m, base, t, k)| == |NewOf(m, base, t, k - 1)| + (if m.subTasks[k - 1] == t then 1 else 0)
  {
    var s := NewOf(m, base, t, k - 1);
    assert base + k !in s;
    if m.subTasks[k - 1] == t {
      assert NewOf(m, base, t, k) == s + {base + k};
    } else {
      assert NewOf(m, base, t, k) == s + {} == s;
    }
  }

  lemma {:induction false} NewOfCount(m: Method, base: nat, t: int, k: nat)
    requires k <= |m.subTasks|
    ensures |NewOf(m, base, t, k)| == Occurrences(m.subTasks[..k], t)
    decreases k
  {
    if k > 0 {
      NewOfCount(m, base, t, k - 1);
      assert m.subTasks[..k][..k - 1] == m.subTasks[..k - 1];
      NewOfNext(m, base, t, k);
    }
  }

  lemma InstanceCounts(d: Domain, store0: Store, level0: map<nat, nat>, base: nat, m: Method, r: set<nat>, dec: nat, store: Store,
                       c0: Counter, distinct: Counter, c: Counter)
    requires Instantiated(d, store0, level0, base, m, r, dec, store) && Counts(c0, store0, r) && store0[dec].task == m.task
    requires c.Valid() && distinct.Valid() && forall t :: distinct.Of(t) == Occurrences(m.subTasks, t)
    requires forall t :: c.Of(t) == c0.Of(t) + distinct.Of(t) - (if t == m.task then 1 else 0)
    ensures Counts(c, store, r - {dec} + NewIds(m, base))
  {
    forall t ensures c.Of(t) == |StepsOf(store, r - {dec} + NewIds(m, base), t)| {
      InstanceCount(d, store0, level0, base, m, r, dec, store, t);
      assert c0.Of(t) == |StepsOf(store0, r, t)| && distinct.Of(t) == Occurrences(m.subTasks, t);
    }
  }

  lemma InstanceCount(d: Domain, store0: Store, level0: map<nat, nat>, base: nat, m: Method, r: set<nat>, dec: nat, store: Store, t: int)
    requires Instantiated(d, store0, level0, base, m, r, dec, store) && store0[dec].task == m.task
    ensures |StepsOf(store, r - {dec} + NewIds(m, base), t)| == |StepsOf(store0, r, t)| + Occurrences(m.subTasks, t) - (if t == m.task then 1 else 0)
  {
    InstanceFacts(d, store0, level0, base, m, r, dec, store);
    hide Instantiated, HasPredecessor, InstanceStep;
    var r2, k := r - {dec} + NewIds(m, base), |m.subTasks|;
    var old_, new_ := StepsOf(store0, r - {dec}, t), NewOf(m, base, t, k);
    NewOfCount(m, base, t, k);
    assert m.subTasks[..k] == m.subTasks;
    forall x | base < x <= base + k ensures store[x].task == m.subTasks[x - base - 1] {
      StepTask(m, x - base - 1, base, store0[dec].successors);
    }
    Union(StepsOf(store, r2, t), old_, new_);
    if t == m.task {
      assert StepsOf(store0, r, t) == old_ + {dec};
    } else {
      assert StepsOf(store0, r, t) == old_;
    }
  }

  lemma StepTask(m: Method, i: nat, base: nat, successors: seq<nat>)
    requires i < |m.subTasks|
    ensures InstanceStep(m, i, base, successors).task == m.subTasks[i]
  {
  }

  lemma Union(s: set<nat>, a: set<nat>, b: set<nat>)
    requires a !! b && forall x :: x in s <==> x in a || x in b
    ensures |s| == |a| + |b|
  {
    assert s == a + b;
  }

  lemma DecomposedNode(d: Domain, store0: Store, level0: map<nat, nat>, base: nat, n: SearchNode, r: set<nat>, taskNo: nat, how: nat,
                       positions: seq<nat>, distinct: Counter, firsts: seq<nat>, store: Store, psID: nat, result: SearchNode)
    requires StoreOk(d, store0, level0, base) && NodeOk(d, store0, n, r) && taskNo < |n.unconstraintAbstract| && how < |d.methods|
    requires n.unconstraintAbstract[taskNo] in store0 && store0[n.unconstraintAbstract[taskNo]].task == d.methods[how].task
    requires d.MethodOk(d.methods[how]) && Moved(d, Conf(n, r, store0, base), n.unconstraintAbstract[taskNo])
    requires store == store0 + Instance(d.methods[how], base, store0[n.unconstraintAbstract[taskNo]].successors) && psID == base + |d.methods[how].subTasks|
    requires Enumerates(positions, Positions(d.methods[how], true)) && |firsts| == |positions| && forall k :: 0 <= k < |firsts| ==> firsts[k] == base + 1 + positions[k]
    requires distinct.Valid() && forall t :: distinct.Of(t) == Occurrences(d.methods[how].subTasks, t)
    requires result.state == n.state && result.contained.Valid()
    requires forall t :: result.contained.Of(t) == n.contained.Of(t) + distinct.Of(t) - (if t == d.methods[how].task then 1 else 0)
    requires Enumerates(result.unconstraintPrimitive, FirstSteps(d, store0, r, true) + Chosen(d, store, Elements(firsts), true))
    requires Enumerates(result.unconstraintAbstract, FirstSteps(d, store0, r, false) - {n.unconstraintAbstract[taskNo]} + Chosen(d, store, Elements(firsts), false))
    ensures var dec := n.unconstraintAbstract[taskNo];
      var r2 := r - {dec} + NewIds(d.methods[how], base);
      && NodeOk(d, store, result, r2)
      && Conf(result, r2, store, psID) == Next(d, Conf(n, r, store0, base), ProgressionSystem.Decompose(dec, how))
  {
    var dec, m := n.unconstraintAbstract[taskNo], d.methods[how];
    DecomposedStart(d, store0, level0, base, n, r, taskNo, m, store);
    hide *;
    InstanceNetwork(d, store0, level0, base, m, r, dec, store);
    InstanceFirsts(d, store0, level0, base, m, r, dec, store, positions, firsts, true);
    InstanceFirsts(d, store0, level0, base, m, r, dec, store, positions, firsts, false);
    InstanceCounts(d, store0, level0, base, m, r, dec, store, n.contained, distinct, result.contained);
    DecomposedConf(d, n, r, store0, base, dec, how, result, store, psID);
  }

  lemma DecomposedStart(d: Domain, store0: Store, level0: map<nat, nat>, base: nat, n: SearchNode, r: set<nat>, taskNo: nat, m: Method, store: Store)
    requires StoreOk(d, store0, level0, base) && NodeOk(d, store0, n, r) && taskNo < |n.unconstraintAbstract| && d.MethodOk(m)
    requires n.unconstraintAbstract[taskNo] in store0 && store == store0 + Instance(m, base, store0[n.unconstraintAbstract[taskNo]].successors)
    ensures Instantiated(d, store0, level0, base, m, r, n.unconstraintAbstract[taskNo], store) && Counts(n.contained, store0, r) && |n.state| == d.stateBits
    ensures FirstSteps(d, store0, r, true) - {n.unconstraintAbstract[taskNo]} == FirstSteps(d, store0, r, true)
  {
    AbstractAt(d, store0, n, r, taskNo);
    AddedInstance(store0, base, m, store0[n.unconstraintAbstract[taskNo]].successors, store);
    hide StoreOk, Enumerates, Instance, Counts, Network, Added, Domain.MethodOk;
  }

  lemma DecomposedConf(d: Domain, n: SearchNode, r: set<nat>, store0: Store, base: nat, dec: nat, how: nat, result: SearchNode, store: Store, psID: nat)
    requires Moved(d, Conf(n, r, store0, base), dec) && how < |d.methods| && result.state == n.state
    requires store == store0 + Instance(d.methods[how], base, store0[dec].successors) && psID == base + |d.methods[how].subTasks|
    ensures Conf(result, r - {dec} + NewIds(d.methods[how], base), store, psID) == Next(d, Conf(n, r, store0, base), ProgressionSystem.Decompose(dec, how))
  {
  }

  /** Lines 1491-1540 for all methods. */
  method AllRepresentations(d: Domain) returns (firsts: seq<seq<nat>>, lasts: seq<seq<nat>>)
    requires d.Valid()
    ensures |firsts| == |lasts| == |d.methods|
    ensures forall m :: 0 <= m < |d.methods| ==> Enumerates(firsts[m], Positions(d.methods[m], true)) && Enumerates(lasts[m], Positions(d.methods[m], false))
  {
    firsts, lasts := [], [];
    for m := 0 to |d.methods|
      invariant |firsts| == |lasts| == m
      invariant forall k :: 0 <= k < m ==> Enumerates(firsts[k], Positions(d.methods[k], true)) && Enumerates(lasts[k], Positions(d.methods[k], false))
    {
      assert d.MethodOk(d.methods[m]);
      var f, l := GenerateMethodRepresentation(d.methods[m]);
      firsts, lasts := firsts + [f], lasts + [l];
    }
  }

  lemma InitialOk(d: Domain, store: Store, n: SearchNode, initialTask: nat)
    requires initialTask < |d.isPrimitive| && !d.isPrimitive[initialTask] && store == map[0 := PlanStep(initialTask, [])]
    requires |n.state| == d.stateBits && n.unconstraintPrimitive == [] && n.unconstraintAbstract == [0] && n.contained == Counter([initialTask], [1])
    ensures NodeOk(d, store, n, {0})
  {
    var c := n.contained;
    forall t ensures c.Of(t) == |StepsOf(store, {0}, t)| {
      assert c.OfUpTo(t, 1) == c.OfUpTo(t, 0) + (if initialTask == t then 1 else 0);
      if t == initialTask {
        assert StepsOf(store, {0}, t) == {0};
      } else {
        assert StepsOf(store, {0}, t) == {};
      }
    }
    assert FirstSteps(d, store, {0}, false) == {0};
    assert FirstSteps(d, store, {0}, true) == {};
  }

  /** Nothing remains exactly when nothing is unconstrained. */
  lemma DoneExactly(d: Domain, store: Store, level: map<nat, nat>, psID: nat, n: SearchNode, r: set<nat>)
    requires StoreOk(d, store, level, psID) && NodeOk(d, store, n, r)
    ensures r == {} <==> |n.unconstraintPrimitive| == 0 && |n.unconstraintAbstract| == 0
    ensures forall i :: 0 <= i < |d.gList| ==> d.gList[i] < |n.state|
  {
    if |n.unconstraintPrimitive| == 0 && |n.unconstraintAbstract| == 0 {
      RemainingLeast(d, store, level, psID, n, r, {});
    }
    if r == {} {
      if |n.unconstraintPrimitive| > 0 { SomeListed(n.unconstraintPrimitive, FirstSteps(d, store, r, true)); }
      if |n.unconstraintAbstract| > 0 { SomeListed(n.unconstraintAbstract, FirstSteps(d, store, r, false)); }
    }
  }

  lemma SomeListed(list: seq<nat>, s: set<nat>)
    requires Enumerates(list, s) && |list| > 0
    ensures exists x :: x in s
  {
    assert list[0] in s;
  }
}
