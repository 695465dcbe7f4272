/** Alternating pruning of grounded tasks and methods: relaxed reachability, bottom-up and top-down passes over the
    decomposition graph (groundedGPG.cpp:13-423). Nothing that occurs in a solution is lost. */
module GroundedPruning {
  import opened HornClosure

  /** primitive says that the task number is below nPrimitiveTasks, isInitial that it is that of the initial task. */
  datatype GroundedTask = GroundedTask(primitive: bool, isInitial: bool, isCompiledConditionalEffect: bool,
                                       pre: seq<nat>, add: seq<nat>, del: seq<nat>, decompositionMethods: seq<nat>)

  /** The preconditions of a method are its subtasks, its only added item is the task it decomposes. */
  datatype GroundedMethod = GroundedMethod(subtasks: seq<nat>, addTasks: seq<nat>)

  datatype Problem = Problem(tasks: seq<GroundedTask>, methods: seq<GroundedMethod>, nFacts: nat, nInit: nat)
  {
    ghost predicate Valid() {
      && nInit <= nFacts
      && (forall t :: 0 <= t < |tasks| ==> TaskOk(t))
      && (forall m :: 0 <= m < |methods| ==> MethodOk(m))
    }

    ghost predicate TaskOk(t: nat)
      requires t < |tasks|
    {
      && Bounded(tasks[t].pre, nFacts) && Bounded(tasks[t].add, nFacts) && Bounded(tasks[t].decompositionMethods, |methods|)
      && (tasks[t].primitive ==> tasks[t].decompositionMethods == [])
      && (tasks[t].isCompiledConditionalEffect ==> tasks[t].primitive)
      && forall k :: 0 <= k < |tasks[t].decompositionMethods| ==> methods[tasks[t].decompositionMethods[k]].addTasks == [t]
    }

    ghost predicate MethodOk(m: nat)
      requires m < |methods|
    {
      && Bounded(methods[m].subtasks, |tasks|) && Bounded(methods[m].addTasks, |tasks|) && |methods[m].addTasks| == 1
      && forall k :: 0 <= k < |methods[m].addTasks| ==> m in tasks[methods[m].addTasks[k]].decompositionMethods
    }
  }

  // ----- solutions -----

  /** A decomposition: inner nodes carry the method that was applied. */
  datatype Tree = Leaf(task: nat) | Node(task: nat, how: nat, children: seq<Tree>)

  ghost predicate IsTree(p: Problem, d: Tree)
    decreases d
  {
    && d.task < |p.tasks|
    && match d
       case Leaf(t) => p.tasks[t].primitive
       case Node(t, m, children) =>
         && m < |p.methods| && m in p.tasks[t].decompositionMethods
         && |children| == |p.methods[m].subtasks|
         && forall i :: 0 <= i < |children| ==> children[i].task == p.methods[m].subtasks[i] && IsTree(p, children[i])
  }

  /** t occurs at a leaf. */
  ghost predicate AtLeaf(d: Tree, t: nat)
    decreases d
  {
    match d
    case Leaf(u) => u == t
    case Node(_, _, children) => exists i :: 0 <= i < |children| && AtLeaf(children[i], t)
  }

  /** Executing the actions one after the other from state s, with their deletions. */
  ghost predicate Executable(p: Problem, s: set<nat>, plan: seq<nat>)
    decreases |plan|
  {
    plan == [] ||
    (plan[0] < |p.tasks| && p.tasks[plan[0]].primitive && AllIn(p.tasks[plan[0]].pre, s) && Executable(p, After(p.tasks[plan[0]], s), plan[1..]))
  }

  ghost function After(t: GroundedTask, s: set<nat>): set<nat> {
    s - Members(t.del) + Members(t.add)
  }

  /** A decomposition of the initial task and an order of its leaves that can be executed in the initial state. */
  ghost predicate Solution(p: Problem, d: Tree, plan: seq<nat>) {
    && IsTree(p, d) && p.tasks[d.task].isInitial
    && (forall t :: t in plan <==> AtLeaf(d, t))
    && Executable(p, Upto(p.nInit), plan)
  }

  /** No task and no method of the decomposition is pruned. */
  ghost predicate Alive(p: Problem, d: Tree, prunedTasks: seq<bool>, prunedMethods: seq<bool>)
    requires |prunedTasks| == |p.tasks| && |prunedMethods| == |p.methods|
    decreases d
  {
    && d.task < |p.tasks| && !prunedTasks[d.task]
    && (d.Node? ==> d.how < |p.methods| && !prunedMethods[d.how])
    && (d.Node? ==> forall i :: 0 <= i < |d.children| ==> Alive(p, d.children[i], prunedTasks, prunedMethods))
  }

  // ----- the rules of the two bottom-up passes -----

  ghost function TaskRules(p: Problem): (r: seq<Rule>)
    ensures |r| == |p.tasks| && forall t :: 0 <= t < |r| ==> r[t] == Rule(p.tasks[t].pre, p.tasks[t].add)
  {
    seq(|p.tasks|, t requires 0 <= t < |p.tasks| => Rule(p.tasks[t].pre, p.tasks[t].add))
  }

  ghost function ActiveTasks(p: Problem, prunedTasks: seq<bool>): (a: seq<bool>)
    requires |prunedTasks| == |p.tasks|
    ensures |a| == |p.tasks| && forall t :: 0 <= t < |a| ==> a[t] == (p.tasks[t].primitive && !prunedTasks[t])
  {
    seq(|p.tasks|, t requires 0 <= t < |p.tasks| => p.tasks[t].primitive && !prunedTasks[t])
  }

  ghost function MethodRules(p: Problem): (r: seq<Rule>)
    ensures |r| == |p.methods| && forall m :: 0 <= m < |r| ==> r[m] == Rule(p.methods[m].subtasks, p.methods[m].addTasks)
  {
    seq(|p.methods|, m requires 0 <= m < |p.methods| => Rule(p.methods[m].subtasks, p.methods[m].addTasks))
  }

  ghost function ActiveMethods(prunedMethods: seq<bool>): (a: seq<bool>)
    ensures |a| == |prunedMethods| && forall m :: 0 <= m < |a| ==> a[m] == !prunedMethods[m]
  {
    seq(|prunedMethods|, m requires 0 <= m < |prunedMethods| => !prunedMethods[m])
  }

  /** The primitive tasks that are not pruned. */
  ghost function Remaining(p: Problem, prunedTasks: seq<bool>): (s: set<nat>)
    requires |prunedTasks| == |p.tasks|
    ensures forall t: nat :: t in s <==> t < |p.tasks| && p.tasks[t].primitive && !prunedTasks[t]
  {
    set t: nat | t in Upto(|p.tasks|) && p.tasks[t].primitive && !prunedTasks[t]
  }

  /** facts is what the unpruned actions can reach when nothing is deleted. */
  ghost predicate RelaxedReachable(p: Problem, prunedTasks: seq<bool>, facts: set<nat>)
    requires |prunedTasks| == |p.tasks|
  {
    Least(TaskRules(p), ActiveTasks(p, prunedTasks), Upto(p.nInit), facts)
  }

  /** tasks is what the unpruned methods can build from unpruned actions. */
  ghost predicate Composable(p: Problem, prunedTasks: seq<bool>, prunedMethods: seq<bool>, tasks: set<nat>)
    requires |prunedTasks| == |p.tasks| && |prunedMethods| == |p.methods|
  {
    Least(MethodRules(p), ActiveMethods(prunedMethods), Remaining(p, prunedTasks), tasks)
  }

  // ----- each pass keeps every solution -----

  /** Exactly the actions out of relaxed reach are pruned. */
  ghost predicate PgPruned(p: Problem, before: seq<bool>, facts: set<nat>, after: seq<bool>)
    requires |before| == |after| == |p.tasks|
  {
    forall t :: 0 <= t < |after| ==> (after[t] <==> before[t] || (p.tasks[t].primitive && !AllIn(p.tasks[t].pre, facts)))
  }

  /** The states of an execution stay within the relaxed reachable facts. */
  lemma {:induction false} ExecutionRelaxed(p: Problem, prunedTasks: seq<bool>, facts: set<nat>, s: set<nat>, plan: seq<nat>, t: nat)
    requires |prunedTasks| == |p.tasks| && Closed(TaskRules(p), ActiveTasks(p, prunedTasks), Upto(p.nInit), facts)
    requires s <= facts && Executable(p, s, plan) && t in plan
    requires forall i :: 0 <= i < |plan| ==> plan[i] < |p.tasks| && !prunedTasks[plan[i]]
    ensures AllIn(p.tasks[t].pre, facts)
    decreases |plan|
  {
    var a := plan[0];
    AllInMore(p.tasks[a].pre, s, facts);
    if t != a {
      assert !prunedTasks[plan[0]] && ActiveTasks(p, prunedTasks)[a] && AllIn(TaskRules(p)[a].pre, facts);
      assert AllIn(TaskRules(p)[a].add, facts);
      var i :| 0 <= i < |plan| && plan[i] == t;
      assert plan[1..][i - 1] == t;
      ExecutionRelaxed(p, prunedTasks, facts, After(p.tasks[a], s), plan[1..], t);
    }
  }

  lemma {:induction false} LeafAlive(p: Problem, d: Tree, prunedTasks: seq<bool>, prunedMethods: seq<bool>, t: nat)
    requires |prunedTasks| == |p.tasks| && |prunedMethods| == |p.methods|
    requires IsTree(p, d) && Alive(p, d, prunedTasks, prunedMethods) && AtLeaf(d, t)
    ensures t < |p.tasks| && p.tasks[t].primitive && !prunedTasks[t]
    decreases d
  {
    if d.Node? {
      var i :| 0 <= i < |d.children| && AtLeaf(d.children[i], t);
      LeafAlive(p, d.children[i], prunedTasks, prunedMethods, t);
    }
  }

  /** A tree stays alive when its leaves, and nothing but actions, are considered. */
  lemma {:induction false} AliveAfterPg(p: Problem, d: Tree, before: seq<bool>, facts: set<nat>, after: seq<bool>, prunedMethods: seq<bool>)
    requires |before| == |after| == |p.tasks| && |prunedMethods| == |p.methods| && PgPruned(p, before, facts, after)
    requires p.Valid() && IsTree(p, d) && Alive(p, d, before, prunedMethods)
    requires forall t: nat :: AtLeaf(d, t) ==> t < |p.tasks| && AllIn(p.tasks[t].pre, facts)
    ensures Alive(p, d, after, prunedMethods)
    decreases d
  {
    match d {
      case Leaf(t) =>
        assert AtLeaf(d, t);
      case Node(t, m, children) =>
        assert p.TaskOk(t) && !p.tasks[t].primitive;
        forall i | 0 <= i < |children| ensures Alive(p, children[i], after, prunedMethods) {
          forall u: nat | AtLeaf(children[i], u) ensures u < |p.tasks| && AllIn(p.tasks[u].pre, facts) {
            assert AtLeaf(d, u);
          }
          AliveAfterPg(p, children[i], before, facts, after, prunedMethods);
        }
    }
  }

  lemma PgKeeps(p: Problem, d: Tree, plan: seq<nat>, before: seq<bool>, facts: set<nat>, after: seq<bool>, prunedMethods: seq<bool>)
    requires |before| == |after| == |p.tasks| && |prunedMethods| == |p.methods| && p.Valid()
    requires RelaxedReachable(p, before, facts) && PgPruned(p, before, facts, after)
    requires Solution(p, d, plan) && Alive(p, d, before, prunedMethods)
    ensures Alive(p, d, after, prunedMethods)
  {
    forall i | 0 <= i < |plan| ensures plan[i] < |p.tasks| && !before[plan[i]] {
      LeafAlive(p, d, before, prunedMethods, plan[i]);
    }
    forall t: nat | AtLeaf(d, t) ensures t < |p.tasks| && AllIn(p.tasks[t].pre, facts) {
      LeafAlive(p, d, before, prunedMethods, t);
      ExecutionRelaxed(p, before, facts, Upto(p.nInit), plan, t);
    }
    AliveAfterPg(p, d, before, facts, after, prunedMethods);
  }

  /** Exactly the methods and tasks that cannot be built are pruned. */
  ghost predicate TdgPruned(p: Problem, t0: seq<bool>, m0: seq<bool>, built: set<nat>, t1: seq<bool>, m1: seq<bool>)
    requires |t0| == |t1| == |p.tasks| && |m0| == |m1| == |p.methods|
  {
    && (forall t :: 0 <= t < |t1| ==> (t1[t] <==> t0[t] || t !in built))
    && (forall m :: 0 <= m < |m1| ==> (m1[m] <==> m0[m] || !AllIn(p.methods[m].subtasks, built)))
  }

  lemma {:induction false} TdgKeeps(p: Problem, d: Tree, t0: seq<bool>, m0: seq<bool>, built: set<nat>, t1: seq<bool>, m1: seq<bool>)
    requires |t0| == |t1| == |p.tasks| && |m0| == |m1| == |p.methods| && p.Valid()
    requires Composable(p, t0, m0, built) && TdgPruned(p, t0, m0, built, t1, m1)
    requires IsTree(p, d) && Alive(p, d, t0, m0)
    ensures Alive(p, d, t1, m1) && d.task in built
    decreases d
  {
    match d {
      case Leaf(t) =>
        assert t in Remaining(p, t0);
      case Node(t, m, children) =>
        forall i | 0 <= i < |children| ensures Alive(p, children[i], t1, m1) && p.methods[m].subtasks[i] in built {
          TdgKeeps(p, children[i], t0, m0, built, t1, m1);
        }
        assert AllIn(MethodRules(p)[m].pre, built) && ActiveMethods(m0)[m];
        assert AllIn(MethodRules(p)[m].add, built);
        assert p.TaskOk(t);
        assert p.methods[m].addTasks[0] == t;
    }
  }

  // ----- what the passes leave -----

  /** An unpruned method of t has u among its subtasks. */
  ghost predicate Leads(p: Problem, pm: seq<bool>, t: nat, u: nat)
    requires |pm| == |p.methods| && t < |p.tasks|
  {
    exists m: nat :: m < |pm| && !pm[m] && m in p.tasks[t].decompositionMethods && u in p.methods[m].subtasks
  }

  /** From an unpruned instance of the initial task down through unpruned methods. */
  ghost predicate Chain(p: Problem, pt: seq<bool>, pm: seq<bool>, path: seq<nat>)
    requires |pt| == |p.tasks| && |pm| == |p.methods|
  {
    && |path| > 0 && (forall i :: 0 <= i < |path| ==> path[i] < |p.tasks|)
    && p.tasks[path[0]].isInitial && !pt[path[0]]
    && forall i :: 0 <= i < |path| - 1 ==> Leads(p, pm, path[i], path[i + 1])
  }

  ghost predicate InUse(p: Problem, pt: seq<bool>, pm: seq<bool>, t: nat)
    requires |pt| == |p.tasks| && |pm| == |p.methods|
  {
    exists path :: Chain(p, pt, pm, path) && path[|path| - 1] == t
  }

  lemma InitialInUse(p: Problem, pt: seq<bool>, pm: seq<bool>, t: nat)
    requires |pt| == |p.tasks| && |pm| == |p.methods| && t < |pt| && p.tasks[t].isInitial && !pt[t]
    ensures InUse(p, pt, pm, t)
  {
    var path := [t];
    assert Chain(p, pt, pm, path) && path[|path| - 1] == t;
  }

  lemma SubtasksInUse(p: Problem, pt: seq<bool>, pm: seq<bool>, t: nat, m: nat)
    requires p.Valid() && |pt| == |p.tasks| && |pm| == |p.methods| && t < |pt| && InUse(p, pt, pm, t)
    requires m < |pm| && !pm[m] && m in p.tasks[t].decompositionMethods
    ensures forall i :: 0 <= i < |p.methods[m].subtasks| ==> InUse(p, pt, pm, p.methods[m].subtasks[i])
  {
    assert p.MethodOk(m);
    var path :| Chain(p, pt, pm, path) && path[|path| - 1] == t;
    forall i | 0 <= i < |p.methods[m].subtasks| ensures InUse(p, pt, pm, p.methods[m].subtasks[i]) {
      var u := p.methods[m].subtasks[i];
      assert Leads(p, pm, t, u);
      assert Chain(p, pt, pm, path + [u]) && (path + [u])[|path + [u]| - 1] == u;
    }
  }

  lemma InUseLess(p: Problem, t0: seq<bool>, m0: seq<bool>, t1: seq<bool>, m1: seq<bool>, t: nat)
    requires |t0| == |t1| == |p.tasks| && |m0| == |m1| == |p.methods| && More(t0, t1) && More(m0, m1) && InUse(p, t1, m1, t)
    ensures InUse(p, t0, m0, t)
  {
    var path :| Chain(p, t1, m1, path) && path[|path| - 1] == t;
    forall i | 0 <= i < |path| - 1 ensures Leads(p, m0, path[i], path[i + 1]) {
      assert Leads(p, m1, path[i], path[i + 1]);
    }
    assert Chain(p, t0, m0, path);
  }

  /** Every unpruned task is in use; compiled conditional effects hang on other actions and are exempt. */
  ghost predicate AllInUse(p: Problem, pt: seq<bool>, pm: seq<bool>)
    requires |pt| == |p.tasks| && |pm| == |p.methods|
  {
    forall t: nat :: t < |pt| && !pt[t] && !p.tasks[t].isCompiledConditionalEffect ==> InUse(p, pt, pm, t)
  }

  /** Every unpruned task can be built from unpruned actions by unpruned methods. */
  ghost predicate Composed(p: Problem, pt: seq<bool>, pm: seq<bool>)
    requires |pt| == |p.tasks| && |pm| == |p.methods|
  {
    forall y, t: nat {:trigger ComposedIn(p, pt, pm, y), t in y} :: ComposedIn(p, pt, pm, y) && t < |pt| && !pt[t] ==> t in y
  }

  ghost predicate ComposedIn(p: Problem, pt: seq<bool>, pm: seq<bool>, y: set<nat>)
    requires |pt| == |p.tasks| && |pm| == |p.methods|
  {
    Closed(MethodRules(p), ActiveMethods(pm), Remaining(p, pt), y)
  }

  /** What a bottom-up and a top-down pass establish together. */
  ghost predicate Trimmed(p: Problem, pt: seq<bool>, pm: seq<bool>)
    requires p.Valid() && |pt| == |p.tasks| && |pm| == |p.methods|
  {
    SubtasksAlive(p, pt, pm) && OwnersAlive(p, pt, pm) && Composed(p, pt, pm) && AllInUse(p, pt, pm)
  }

  /** None of the three passes could prune anything. */
  ghost predicate Consistent(p: Problem, pt: seq<bool>, pm: seq<bool>)
    requires p.Valid() && |pt| == |p.tasks| && |pm| == |p.methods|
  {
    Stable(p, pt) && Trimmed(p, pt, pm)
  }

  /** Whatever is consistent and unpruned before is unpruned after. */
  ghost predicate KeepsConsistent(p: Problem, t0: seq<bool>, m0: seq<bool>, t1: seq<bool>, m1: seq<bool>)
    requires p.Valid() && |t0| == |t1| == |p.tasks| && |m0| == |m1| == |p.methods|
  {
    forall ct, cm {:trigger Within(p, t0, m0, ct, cm)} :: Within(p, t0, m0, ct, cm) ==> More(t1, ct) && More(m1, cm)
  }

  ghost predicate Within(p: Problem, t0: seq<bool>, m0: seq<bool>, ct: seq<bool>, cm: seq<bool>)
    requires p.Valid()
  {
    |t0| == |ct| == |p.tasks| && |m0| == |cm| == |p.methods| && More(t0, ct) && More(m0, cm) && Consistent(p, ct, cm)
  }

  lemma KeepsConsistentTransitive(p: Problem, t0: seq<bool>, m0: seq<bool>, t1: seq<bool>, m1: seq<bool>, t2: seq<bool>, m2: seq<bool>)
    requires p.Valid() && |t0| == |t1| == |t2| == |p.tasks| && |m0| == |m1| == |m2| == |p.methods|
    requires KeepsConsistent(p, t0, m0, t1, m1) && KeepsConsistent(p, t1, m1, t2, m2)
    ensures KeepsConsistent(p, t0, m0, t2, m2)
  {
    hide Consistent;
    forall ct, cm | Within(p, t0, m0, ct, cm) ensures More(t2, ct) && More(m2, cm) {
      assert Within(p, t1, m1, ct, cm);
    }
  }

  // ----- the top-down pass (239-322) -----

  /** The unpruned methods of t and their subtasks have been visited. */
  ghost predicate Complete(p: Problem, prunedMethods: seq<bool>, vt: seq<bool>, vm: seq<bool>, t: nat)
    requires p.Valid() && |prunedMethods| == |vm| == |p.methods| && |vt| == |p.tasks| && t < |p.tasks|
  {
    assert p.TaskOk(t);
    forall k :: 0 <= k < |p.tasks[t].decompositionMethods| ==> MethodDone(p, prunedMethods, vt, vm, p.tasks[t].decompositionMethods[k])
  }

  ghost predicate MethodDone(p: Problem, prunedMethods: seq<bool>, vt: seq<bool>, vm: seq<bool>, m: nat)
    requires p.Valid() && |prunedMethods| == |vm| == |p.methods| && |vt| == |p.tasks| && m < |p.methods|
  {
    assert p.MethodOk(m);
    !prunedMethods[m] ==> vm[m] && forall i :: 0 <= i < |p.methods[m].subtasks| ==> vt[p.methods[m].subtasks[i]]
  }

  ghost predicate More(x: seq<bool>, y: seq<bool>) {
    |x| == |y| && forall i :: 0 <= i < |x| && x[i] ==> y[i]
  }

  /** Visited methods are unpruned methods of visited tasks; only unpruned tasks in use are visited. */
  ghost predicate Visited(p: Problem, pt: seq<bool>, pm: seq<bool>, t0: seq<bool>, m0: seq<bool>, vt: seq<bool>, vm: seq<bool>)
    requires p.Valid() && |pm| == |p.methods| && |pt| == |p.tasks|
  {
    && More(t0, vt) && More(m0, vm) && |vm| == |p.methods| && |vt| == |p.tasks|
    && (forall t :: 0 <= t < |vt| && vt[t] && !t0[t] ==> !pt[t] && InUse(p, pt, pm, t))
    && (forall m :: 0 <= m < |vm| && vm[m] && !m0[m] ==> !pm[m] && Owned(p, m, vt))
  }

  ghost predicate Owned(p: Problem, m: nat, vt: seq<bool>)
    requires |vt| == |p.tasks| && m < |p.methods|
  {
    exists t: nat :: t < |vt| && vt[t] && m in p.tasks[t].decompositionMethods
  }

  ghost predicate AllComplete(p: Problem, pm: seq<bool>, t0: seq<bool>, vt: seq<bool>, vm: seq<bool>, but: nat)
    requires p.Valid() && |pm| == |vm| == |p.methods| && |t0| == |vt| == |p.tasks|
  {
    forall t: nat :: t < |vt| && vt[t] && !t0[t] && t != but ==> Complete(p, pm, vt, vm, t)
  }

  /** Subtasks of unpruned methods are unpruned (the assertion in line 246). */
  ghost predicate SubtasksAlive(p: Problem, pt: seq<bool>, pm: seq<bool>)
    requires p.Valid() && |pt| == |p.tasks| && |pm| == |p.methods|
  {
    forall m, i :: 0 <= m < |pm| && !pm[m] && 0 <= i < |p.methods[m].subtasks| ==> SubtaskAlive(p, pt, m, i)
  }

  ghost predicate SubtaskAlive(p: Problem, pt: seq<bool>, m: nat, i: nat)
    requires p.Valid() && |pt| == |p.tasks| && m < |p.methods| && i < |p.methods[m].subtasks|
  {
    assert p.MethodOk(m);
    !pt[p.methods[m].subtasks[i]]
  }

  lemma CompleteMore(p: Problem, pm: seq<bool>, t1: seq<bool>, m1: seq<bool>, t2: seq<bool>, m2: seq<bool>)
    requires p.Valid() && |pm| == |m1| == |p.methods| && |t1| == |p.tasks| && More(t1, t2) && More(m1, m2)
    ensures forall t: nat {:trigger Complete(p, pm, t1, m1, t)} :: t < |p.tasks| && Complete(p, pm, t1, m1, t) ==> Complete(p, pm, t2, m2, t)
    ensures forall m: nat {:trigger MethodDone(p, pm, t1, m1, m)} :: m < |p.methods| && MethodDone(p, pm, t1, m1, m) ==> MethodDone(p, pm, t2, m2, m)
  {
    forall t: nat | t < |p.tasks| && Complete(p, pm, t1, m1, t) ensures Complete(p, pm, t2, m2, t) {
      assert p.TaskOk(t);
      forall k | 0 <= k < |p.tasks[t].decompositionMethods| ensures MethodDone(p, pm, t2, m2, p.tasks[t].decompositionMethods[k]) {
        assert MethodDone(p, pm, t1, m1, p.tasks[t].decompositionMethods[k]);
      }
    }
    forall m: nat | m < |p.methods| && MethodDone(p, pm, t1, m1, m) ensures MethodDone(p, pm, t2, m2, m) {
      assert p.MethodOk(m);
    }
  }

  lemma VisitedMore(p: Problem, pt: seq<bool>, pm: seq<bool>, t0: seq<bool>, m0: seq<bool>, t1: seq<bool>, m1: seq<bool>, t2: seq<bool>, m2: seq<bool>, but: nat)
    requires p.Valid() && |pm| == |p.methods| && |pt| == |p.tasks|
    requires Visited(p, pt, pm, t0, m0, t1, m1) && Visited(p, pt, pm, t1, m1, t2, m2)
    requires AllComplete(p, pm, t0, t1, m1, but) && AllComplete(p, pm, t1, t2, m2, |p.tasks|)
    ensures Visited(p, pt, pm, t0, m0, t2, m2) && AllComplete(p, pm, t0, t2, m2, but)
  {
    CompleteMore(p, pm, t1, m1, t2, m2);
    forall m | 0 <= m < |m2| && m2[m] && !m0[m] ensures !pm[m] && Owned(p, m, t2) {
      if m1[m] {
        assert Owned(p, m, t1);
        var t: nat :| t < |t1| && t1[t] && m in p.tasks[t].decompositionMethods;
        assert t2[t];
      }
    }
  }

  ghost function Left(vt: seq<bool>): (k: nat) {
    MarkedCount(vt);
    |vt| - |Marked(vt)|
  }

  lemma MarkedCount(vt: seq<bool>)
    ensures |Marked(vt)| <= |vt|
  {
    Counted(Marked(vt), |vt|);
  }

  lemma LeftMore(x: seq<bool>, y: seq<bool>)
    requires More(x, y)
    ensures Left(y) <= Left(x)
    ensures (exists i :: 0 <= i < |x| && y[i] && !x[i]) ==> Left(y) < Left(x)
  {
    assert Marked(x) <= Marked(y);
    if i :| 0 <= i < |x| && y[i] && !x[i] {
      assert i in Marked(y) && i !in Marked(x);
      FewerThan(Marked(x), Marked(y));
    } else {
      assert Marked(x) == Marked(y);
    }
  }

  lemma VisitedSame(p: Problem, pt: seq<bool>, pm: seq<bool>, vt: seq<bool>, vm: seq<bool>)
    requires p.Valid() && |pm| == |vm| == |p.methods| && |pt| == |vt| == |p.tasks|
    ensures Visited(p, pt, pm, vt, vm, vt, vm) && forall but :: AllComplete(p, pm, vt, vt, vm, but)
  {
  }

  lemma SubtaskOk(p: Problem, pt: seq<bool>, pm: seq<bool>, m: nat, i: nat)
    requires p.Valid() && |pm| == |p.methods| && |pt| == |p.tasks| && SubtasksAlive(p, pt, pm)
    requires m < |pm| && !pm[m] && i < |p.methods[m].subtasks|
    ensures p.methods[m].subtasks[i] < |p.tasks| && !pt[p.methods[m].subtasks[i]]
  {
    assert p.MethodOk(m) && SubtaskAlive(p, pt, m, i);
  }

  /** The subtasks of one unpruned method, one after the other (257-259). */
  method VisitSubtasks(p: Problem, pt: seq<bool>, pm: seq<bool>, vt: array<bool>, vm: array<bool>, m: nat)
    requires p.Valid() && |pm| == vm.Length == |p.methods| && |pt| == vt.Length == |p.tasks| && SubtasksAlive(p, pt, pm) && vt != vm
    requires m < |pm| && !pm[m] && forall i :: 0 <= i < |p.methods[m].subtasks| ==> InUse(p, pt, pm, p.methods[m].subtasks[i])
    modifies vt, vm
    ensures Visited(p, pt, pm, old(vt[..]), old(vm[..]), vt[..], vm[..])
    ensures AllComplete(p, pm, old(vt[..]), vt[..], vm[..], |p.tasks|)
    ensures forall i :: 0 <= i < |p.methods[m].subtasks| ==> p.methods[m].subtasks[i] < |p.tasks| && vt[p.methods[m].subtasks[i]]
    decreases Left(vt[..]), 1
  {
    hide Visited, AllComplete, SubtasksAlive, Problem.Valid, InUse;
    ghost var t0, m0 := vt[..], vm[..];
    VisitedSame(p, pt, pm, t0, m0);
    for i := 0 to |p.methods[m].subtasks|
      invariant Visited(p, pt, pm, t0, m0, vt[..], vm[..]) && AllComplete(p, pm, t0, vt[..], vm[..], |p.tasks|)
      invariant forall j :: 0 <= j < i ==> p.methods[m].subtasks[j] < |p.tasks| && vt[p.methods[m].subtasks[j]]
    {
      ghost var t1, m1 := vt[..], vm[..];
      VisitedIsMore(p, pt, pm, t0, m0, t1, m1);
      LeftMore(t0, t1);
      SubtaskOk(p, pt, pm, m, i);
      GroundedInnerTdgDfs(p, pt, pm, vt, vm, p.methods[m].subtasks[i]);
      VisitedIsMore(p, pt, pm, t1, m1, vt[..], vm[..]);
      VisitedMore(p, pt, pm, t0, m0, t1, m1, vt[..], vm[..], |p.tasks|);
    }
  }

  lemma VisitedIsMore(p: Problem, pt: seq<bool>, pm: seq<bool>, t0: seq<bool>, m0: seq<bool>, t1: seq<bool>, m1: seq<bool>)
    requires p.Valid() && |pm| == |p.methods| && |pt| == |p.tasks| && Visited(p, pt, pm, t0, m0, t1, m1)
    ensures More(t0, t1) && More(m0, m1)
  {
  }

  /** groundedInnerTdgDfs (239-261). */
  method GroundedInnerTdgDfs(p: Problem, pt: seq<bool>, pm: seq<bool>, vt: array<bool>, vm: array<bool>, t: nat)
    requires p.Valid() && |pm| == vm.Length == |p.methods| && |pt| == vt.Length == |p.tasks| && SubtasksAlive(p, pt, pm) && vt != vm
    requires t < |p.tasks| && !pt[t] && InUse(p, pt, pm, t)
    modifies vt, vm
    ensures Visited(p, pt, pm, old(vt[..]), old(vm[..]), vt[..], vm[..])
    ensures AllComplete(p, pm, old(vt[..]), vt[..], vm[..], |p.tasks|) && vt[t]
    decreases Left(vt[..]), 0
  {
    hide Visited, AllComplete, SubtasksAlive, Problem.Valid, Complete, MethodDone, InUse;
    ghost var t0, m0 := vt[..], vm[..];
    VisitedSame(p, pt, pm, t0, m0);
    if vt[t] { return; }
    vt[t] := true;
    EnterTask(p, pt, pm, t0, m0, t);
    assert vt[..] == t0[t := true];
    TaskMethods(p, t);
    for k := 0 to |p.tasks[t].decompositionMethods|
      invariant Visited(p, pt, pm, t0, m0, vt[..], vm[..]) && AllComplete(p, pm, t0, vt[..], vm[..], t) && vt[t]
      invariant forall j :: 0 <= j < k ==> MethodDone(p, pm, vt[..], vm[..], p.tasks[t].decompositionMethods[j])
    {
      var m := p.tasks[t].decompositionMethods[k];
      ghost var t1, m1 := vt[..], vm[..];
      VisitedIsMore(p, pt, pm, t0, m0, t1, m1);
      if pm[m] {
        SkipMethod(p, pm, t1, m1, m);
        continue;
      }
      vm[m] := true;
      assert vm[..] == m1[m := true];
      EnterMethod(p, pt, pm, t0, m0, t1, m1, t, m);
      LeftMore(t0, t1);
      SubtasksInUse(p, pt, pm, t, m);
      VisitSubtasks(p, pt, pm, vt, vm, m);
      VisitedIsMore(p, pt, pm, t1, m1[m := true], vt[..], vm[..]);
      VisitedMore(p, pt, pm, t0, m0, t1, m1[m := true], vt[..], vm[..], t);
      CompleteMore(p, pm, t1, m1, vt[..], vm[..]);
      MethodFinished(p, pm, vt[..], vm[..], m);
    }
    TaskFinished(p, pt, pm, t0, m0, vt[..], vm[..], t);
  }

  lemma TaskMethods(p: Problem, t: nat)
    requires p.Valid() && t < |p.tasks|
    ensures forall k :: 0 <= k < |p.tasks[t].decompositionMethods| ==> p.tasks[t].decompositionMethods[k] < |p.methods|
  {
    assert p.TaskOk(t);
  }

  lemma EnterTask(p: Problem, pt: seq<bool>, pm: seq<bool>, t0: seq<bool>, m0: seq<bool>, t: nat)
    requires p.Valid() && |pm| == |m0| == |p.methods| && |pt| == |t0| == |p.tasks| && t < |p.tasks| && !pt[t] && !t0[t]
    requires InUse(p, pt, pm, t)
    ensures Visited(p, pt, pm, t0, m0, t0[t := true], m0) && AllComplete(p, pm, t0, t0[t := true], m0, t)
  {
  }

  lemma EnterMethod(p: Problem, pt: seq<bool>, pm: seq<bool>, t0: seq<bool>, m0: seq<bool>, t1: seq<bool>, m1: seq<bool>, t: nat, m: nat)
    requires p.Valid() && |pm| == |p.methods| && |pt| == |p.tasks| && Visited(p, pt, pm, t0, m0, t1, m1)
    requires t < |t1| && t1[t] && AllComplete(p, pm, t0, t1, m1, t) && m < |pm| && !pm[m] && m in p.tasks[t].decompositionMethods
    ensures Visited(p, pt, pm, t0, m0, t1, m1[m := true]) && AllComplete(p, pm, t0, t1, m1[m := true], t)
  {
    assert Owned(p, m, t1);
    CompleteMore(p, pm, t1, m1, t1, m1[m := true]);
  }

  lemma SkipMethod(p: Problem, pm: seq<bool>, vt: seq<bool>, vm: seq<bool>, m: nat)
    requires p.Valid() && |pm| == |vm| == |p.methods| && |vt| == |p.tasks| && m < |pm| && pm[m]
    ensures MethodDone(p, pm, vt, vm, m)
  {
  }

  lemma MethodFinished(p: Problem, pm: seq<bool>, vt: seq<bool>, vm: seq<bool>, m: nat)
    requires p.Valid() && |pm| == |vm| == |p.methods| && |vt| == |p.tasks| && m < |pm| && vm[m]
    requires forall i :: 0 <= i < |p.methods[m].subtasks| ==> p.methods[m].subtasks[i] < |p.tasks| && vt[p.methods[m].subtasks[i]]
    ensures MethodDone(p, pm, vt, vm, m)
  {
  }

  lemma TaskFinished(p: Problem, pt: seq<bool>, pm: seq<bool>, t0: seq<bool>, m0: seq<bool>, vt: seq<bool>, vm: seq<bool>, t: nat)
    requires p.Valid() && |pm| == |p.methods| && |pt| == |p.tasks| && Visited(p, pt, pm, t0, m0, vt, vm)
    requires t < |p.tasks| && AllComplete(p, pm, t0, vt, vm, t)
    requires forall k :: 0 <= k < |p.tasks[t].decompositionMethods| ==>
      p.tasks[t].decompositionMethods[k] < |p.methods| && MethodDone(p, pm, vt, vm, p.tasks[t].decompositionMethods[k])
    ensures AllComplete(p, pm, t0, vt, vm, |p.tasks|)
  {
  }

  /** A visited set that is complete and holds the roots covers every living tree from a root. */
  lemma {:induction false} VisitedKeeps(p: Problem, pm: seq<bool>, vt: seq<bool>, vm: seq<bool>, d: Tree, pt: seq<bool>)
    requires p.Valid() && |pm| == |vm| == |p.methods| && |pt| == |vt| == |p.tasks|
    requires forall t: nat :: t < |vt| && vt[t] ==> Complete(p, pm, vt, vm, t)
    requires IsTree(p, d) && Alive(p, d, pt, pm) && vt[d.task]
    ensures Alive(p, d, Unvisited(vt), Unvisited(vm))
    decreases d
  {
    if d.Node? {
      assert p.TaskOk(d.task) && Complete(p, pm, vt, vm, d.task);
      var k :| 0 <= k < |p.tasks[d.task].decompositionMethods| && p.tasks[d.task].decompositionMethods[k] == d.how;
      assert MethodDone(p, pm, vt, vm, p.tasks[d.task].decompositionMethods[k]);
      assert p.MethodOk(d.how);
      forall i | 0 <= i < |d.children| ensures Alive(p, d.children[i], Unvisited(vt), Unvisited(vm)) {
        VisitedKeeps(p, pm, vt, vm, d.children[i], pt);
      }
    }
  }

  ghost function Unvisited(v: seq<bool>): (u: seq<bool>)
    ensures |u| == |v| && forall i :: 0 <= i < |u| ==> u[i] == !v[i]
  {
    seq(|v|, i requires 0 <= i < |v| => !v[i])
  }

  /** Less pruning keeps more. */
  lemma {:induction false} AliveLess(p: Problem, d: Tree, t0: seq<bool>, m0: seq<bool>, t1: seq<bool>, m1: seq<bool>)
    requires |t0| == |t1| == |p.tasks| && |m0| == |m1| == |p.methods| && More(t1, t0) && More(m1, m0) && Alive(p, d, t0, m0)
    ensures Alive(p, d, t1, m1)
    decreases d
  {
    if d.Node? {
      forall i | 0 <= i < |d.children| ensures Alive(p, d.children[i], t1, m1) {
        AliveLess(p, d.children[i], t0, m0, t1, m1);
      }
    }
  }

  /** Every solution alive before is alive after. */
  ghost predicate Keeps(p: Problem, t0: seq<bool>, m0: seq<bool>, t1: seq<bool>, m1: seq<bool>)
    requires |t0| == |t1| == |p.tasks| && |m0| == |m1| == |p.methods|
  {
    forall d, plan {:trigger Solution(p, d, plan)} :: Solution(p, d, plan) && Alive(p, d, t0, m0) ==> Alive(p, d, t1, m1)
  }

  lemma KeepsTransitive(p: Problem, t0: seq<bool>, m0: seq<bool>, t1: seq<bool>, m1: seq<bool>, t2: seq<bool>, m2: seq<bool>)
    requires |t0| == |t1| == |t2| == |p.tasks| && |m0| == |m1| == |m2| == |p.methods|
    requires Keeps(p, t0, m0, t1, m1) && Keeps(p, t1, m1, t2, m2)
    ensures Keeps(p, t0, m0, t2, m2)
  {
    hide Solution, Alive;
  }

  /** The task a method decomposes is unpruned when the method is. */
  ghost predicate OwnersAlive(p: Problem, pt: seq<bool>, pm: seq<bool>)
    requires |pt| == |p.tasks| && |pm| == |p.methods|
  {
    forall m, t :: 0 <= m < |pm| && 0 <= t < |pt| && !pm[m] && m in p.tasks[t].decompositionMethods ==> !pt[t]
  }

  // ----- the passes as methods -----

  lemma TaskRulesValid(p: Problem)
    requires p.Valid()
    ensures HornClosure.Valid(TaskRules(p), p.nFacts) && HornClosure.Valid(MethodRules(p), |p.tasks|)
  {
    forall t | 0 <= t < |p.tasks| ensures Bounded(TaskRules(p)[t].pre, p.nFacts) && Bounded(TaskRules(p)[t].add, p.nFacts) { assert p.TaskOk(t); }
    forall m | 0 <= m < |p.methods| ensures Bounded(MethodRules(p)[m].pre, |p.tasks|) && Bounded(MethodRules(p)[m].add, |p.tasks|) { assert p.MethodOk(m); }
  }

  /** The rules of the primitive tasks, and which of them take part. */
  method CollectTaskRules(p: Problem, pruned: array<bool>) returns (rules: seq<Rule>, active: seq<bool>)
    requires pruned.Length == |p.tasks|
    ensures rules == TaskRules(p) && active == ActiveTasks(p, pruned[..])
  {
    rules, active := [], [];
    for t := 0 to |p.tasks|
      invariant rules == TaskRules(p)[..t] && active == ActiveTasks(p, pruned[..])[..t]
    {
      rules := rules + [Rule(p.tasks[t].pre, p.tasks[t].add)];
      active := active + [p.tasks[t].primitive && !pruned[t]];
    }
  }

  method CollectMethodRules(p: Problem, pruned: array<bool>) returns (rules: seq<Rule>, active: seq<bool>)
    requires pruned.Length == |p.methods|
    ensures rules == MethodRules(p) && active == ActiveMethods(pruned[..])
  {
    rules, active := [], [];
    for m := 0 to |p.methods|
      invariant rules == MethodRules(p)[..m] && active == ActiveMethods(pruned[..])[..m]
    {
      rules := rules + [Rule(p.methods[m].subtasks, p.methods[m].addTasks)];
      active := active + [!pruned[m]];
    }
  }

  method FirstNumbers(k: nat) returns (s: seq<nat>)
    ensures Members(s) == Upto(k) && forall i :: 0 <= i < |s| ==> s[i] < k
  {
    s := [];
    for i := 0 to k
      invariant Members(s) == Upto(i) && forall j :: 0 <= j < |s| ==> s[j] < i
    {
      s := s + [i];
    }
  }

  /** pruned[i] becomes true where the counter is above zero. */
  method PruneUnfulfilled(pruned: array<bool>, unfulfilled: array<nat>)
    requires pruned.Length == unfulfilled.Length
    modifies pruned
    ensures forall i :: 0 <= i < pruned.Length ==> (pruned[i] <==> old(pruned[i]) || unfulfilled[i] > 0)
  {
    for i := 0 to pruned.Length
      invariant forall j :: 0 <= j < i ==> (pruned[j] <==> old(pruned[j]) || unfulfilled[j] > 0)
      invariant forall j :: i <= j < pruned.Length ==> pruned[j] == old(pruned[j])
    {
      if unfulfilled[i] > 0 { pruned[i] := true; }
    }
  }

  method PruneUnreached(pruned: array<bool>, reached: array<bool>)
    requires pruned.Length == reached.Length && pruned != reached
    modifies pruned
    ensures forall i :: 0 <= i < pruned.Length ==> (pruned[i] <==> old(pruned[i]) || !reached[i])
  {
    for i := 0 to pruned.Length
      invariant forall j :: 0 <= j < i ==> (pruned[j] <==> old(pruned[j]) || !reached[j])
      invariant forall j :: i <= j < pruned.Length ==> pruned[j] == old(pruned[j])
    {
      if !reached[i] { pruned[i] := true; }
    }
  }

  /** groundedPg (13-134): computes exactly the relaxed reachable facts, prunes exactly the actions that are never
      applicable there, and counts both. */
  method GroundedPg(p: Problem, prunedTasks: array<bool>, prunedFacts: array<bool>) returns (reachedTasksCount: nat, reachedFactsCount: nat, ghost facts: set<nat>)
    requires p.Valid() && prunedTasks.Length == |p.tasks| && prunedFacts.Length == p.nFacts && prunedTasks != prunedFacts
    modifies prunedTasks, prunedFacts
    ensures RelaxedReachable(p, old(prunedTasks[..]), facts) && PgPruned(p, old(prunedTasks[..]), facts, prunedTasks[..])
    ensures forall f :: 0 <= f < p.nFacts ==> (prunedFacts[f] <==> old(prunedFacts[f]) || f !in facts)
    ensures reachedTasksCount == |Remaining(p, prunedTasks[..])| && reachedFactsCount == |facts|
  {
    hide Least, AllIn, TaskRules, ActiveTasks, Problem.Valid;
    ghost var before := prunedTasks[..];
    TaskRulesValid(p);
    InitBounded(p);
    var rules, active := CollectTaskRules(p, prunedTasks);
    var given := FirstNumbers(p.nInit);
    var factReached, unfulfilledPreconditions, fired, count := Propagate(rules, active, p.nFacts, given);
    facts := Marked(factReached[..]);
    reachedTasksCount, reachedFactsCount := fired, count;
    PruneUnfulfilled(prunedTasks, unfulfilledPreconditions);
    PruneUnreached(prunedFacts, factReached);
    PgCounts(p, before, facts, prunedTasks[..], unfulfilledPreconditions[..]);
  }

  lemma InitBounded(p: Problem)
    requires p.Valid()
    ensures p.nInit <= p.nFacts
  {
  }

  lemma PgCounts(p: Problem, before: seq<bool>, facts: set<nat>, after: seq<bool>, unfulfilled: seq<nat>)
    requires |before| == |after| == |unfulfilled| == |p.tasks|
    requires forall i :: 0 <= i < |after| ==> (after[i] <==> before[i] || unfulfilled[i] > 0)
    requires forall r :: 0 <= r < |p.tasks| ==> (unfulfilled[r] == 0 <==> !ActiveTasks(p, before)[r] || AllIn(TaskRules(p)[r].pre, facts))
    ensures PgPruned(p, before, facts, after)
    ensures Applicable(TaskRules(p), ActiveTasks(p, before), facts) == Remaining(p, after)
  {
    forall t | 0 <= t < |after| ensures after[t] <==> before[t] || (p.tasks[t].primitive && !AllIn(p.tasks[t].pre, facts)) {
      assert unfulfilled[t] == 0 <==> !ActiveTasks(p, before)[t] || AllIn(TaskRules(p)[t].pre, facts);
    }
  }

  /** Lines 186-194: the unpruned primitive tasks. */
  method ListRemaining(p: Problem, pruned: array<bool>) returns (s: seq<nat>)
    requires pruned.Length == |p.tasks|
    ensures Members(s) == Remaining(p, pruned[..]) && Bounded(s, |p.tasks|)
  {
    s := [];
    for t := 0 to |p.tasks|
      invariant Bounded(s, t) && forall i :: i in Members(s) <==> i < t && i in Remaining(p, pruned[..])
    {
      if !pruned[t] && p.tasks[t].primitive {
        assert forall i :: i in s + [t] <==> i in s || i == t;
        s := s + [t];
      }
    }
  }

  /** groundedTdg (136-237): computes exactly what can be built bottom-up and prunes exactly the rest. */
  method GroundedTdg(p: Problem, prunedMethods: array<bool>, prunedTasks: array<bool>) returns (reachedMethodsCount: nat, ghost built: set<nat>)
    requires p.Valid() && prunedTasks.Length == |p.tasks| && prunedMethods.Length == |p.methods| && prunedTasks != prunedMethods
    modifies prunedMethods, prunedTasks
    ensures Composable(p, old(prunedTasks[..]), old(prunedMethods[..]), built)
    ensures TdgPruned(p, old(prunedTasks[..]), old(prunedMethods[..]), built, prunedTasks[..], prunedMethods[..])
  {
    hide Least, AllIn, MethodRules, ActiveMethods, Problem.Valid, Remaining;
    ghost var t0, m0 := prunedTasks[..], prunedMethods[..];
    TaskRulesValid(p);
    var rules, active := CollectMethodRules(p, prunedMethods);
    var given := ListRemaining(p, prunedTasks);
    var taskReached, unfulfilledPreconditions, fired, count := Propagate(rules, active, |p.tasks|, given);
    built := Marked(taskReached[..]);
    reachedMethodsCount := fired;
    PruneUnfulfilled(prunedMethods, unfulfilledPreconditions);
    PruneUnreached(prunedTasks, taskReached);
    TdgIs(p, t0, m0, built, prunedTasks[..], prunedMethods[..], unfulfilledPreconditions[..]);
  }

  lemma TdgIs(p: Problem, t0: seq<bool>, m0: seq<bool>, built: set<nat>, t1: seq<bool>, m1: seq<bool>, unfulfilled: seq<nat>)
    requires |t0| == |t1| == |p.tasks| && |m0| == |m1| == |unfulfilled| == |p.methods|
    requires forall i :: 0 <= i < |m1| ==> (m1[i] <==> m0[i] || unfulfilled[i] > 0)
    requires forall i :: 0 <= i < |t1| ==> (t1[i] <==> t0[i] || i !in built)
    requires forall r :: 0 <= r < |p.methods| ==> (unfulfilled[r] == 0 <==> !ActiveMethods(m0)[r] || AllIn(MethodRules(p)[r].pre, built))
    ensures TdgPruned(p, t0, m0, built, t1, m1)
  {
    forall m | 0 <= m < |m1| ensures m1[m] <==> m0[m] || !AllIn(p.methods[m].subtasks, built) {
      assert unfulfilled[m] == 0 <==> !ActiveMethods(m0)[m] || AllIn(MethodRules(p)[m].pre, built);
    }
  }

  /** Everything built is unpruned, so unpruned methods have unpruned subtasks and owners afterwards. */
  lemma TdgConsistent(p: Problem, t0: seq<bool>, m0: seq<bool>, built: set<nat>, t1: seq<bool>, m1: seq<bool>)
    requires |t0| == |t1| == |p.tasks| && |m0| == |m1| == |p.methods| && p.Valid() && OwnersAlive(p, t0, m0)
    requires Composable(p, t0, m0, built) && TdgPruned(p, t0, m0, built, t1, m1)
    ensures SubtasksAlive(p, t1, m1) && OwnersAlive(p, t1, m1) && More(t0, t1) && More(m0, m1)
    ensures Remaining(p, t1) == Remaining(p, t0)
  {
    var unpruned := set t: nat | t in Upto(|p.tasks|) && !t0[t];
    assert Closed(MethodRules(p), ActiveMethods(m0), Remaining(p, t0), unpruned) by {
      forall m | 0 <= m < |p.methods| && ActiveMethods(m0)[m] ensures AllIn(MethodRules(p)[m].add, unpruned) {
        assert p.MethodOk(m);
      }
    }
    assert built <= unpruned;
    forall m, i | 0 <= m < |m1| && !m1[m] && 0 <= i < |p.methods[m].subtasks| ensures SubtaskAlive(p, t1, m, i) {
      assert p.MethodOk(m) && p.methods[m].subtasks[i] in built;
    }
    forall m, t | 0 <= m < |m1| && 0 <= t < |t1| && !m1[m] && m in p.tasks[t].decompositionMethods ensures !t1[t] {
      assert p.TaskOk(t) && p.methods[m].addTasks == [t];
      assert AllIn(MethodRules(p)[m].pre, built) && AllIn(MethodRules(p)[m].add, built);
      assert MethodRules(p)[m].add[0] == t;
    }
  }

  /** Lines 279-289: the depth-first search from every unpruned instance of the initial task. */
  method VisitRoots(p: Problem, pt: seq<bool>, pm: seq<bool>) returns (vt: array<bool>, vm: array<bool>)
    requires p.Valid() && |pm| == |p.methods| && |pt| == |p.tasks| && SubtasksAlive(p, pt, pm)
    ensures fresh(vt) && fresh(vm) && vt.Length == |pt| && vm.Length == |pm|
    ensures forall t :: 0 <= t < |pt| && vt[t] ==> !pt[t] && InUse(p, pt, pm, t) && Complete(p, pm, vt[..], vm[..], t)
    ensures forall m :: 0 <= m < |pm| && vm[m] ==> !pm[m] && Owned(p, m, vt[..])
    ensures forall t :: 0 <= t < |pt| && p.tasks[t].isInitial && !pt[t] ==> vt[t]
  {
    hide Visited, AllComplete, SubtasksAlive, Problem.Valid, Complete, MethodDone, InUse;
    vt := new bool[|p.tasks|](_ => false);
    vm := new bool[|p.methods|](_ => false);
    ghost var t0, m0 := vt[..], vm[..];
    VisitedSame(p, pt, pm, t0, m0);
    for t := 0 to |p.tasks|
      invariant fresh(vt) && fresh(vm) && vt.Length == |pt| && vm.Length == |pm| && vt != vm
      invariant Visited(p, pt, pm, t0, m0, vt[..], vm[..]) && AllComplete(p, pm, t0, vt[..], vm[..], |p.tasks|)
      invariant forall u :: 0 <= u < t && p.tasks[u].isInitial && !pt[u] ==> vt[u]
    {
      if p.tasks[t].isInitial && !pt[t] {
        ghost var t1, m1 := vt[..], vm[..];
        InitialInUse(p, pt, pm, t);
        GroundedInnerTdgDfs(p, pt, pm, vt, vm, t);
        VisitedIsMore(p, pt, pm, t1, m1, vt[..], vm[..]);
        VisitedMore(p, pt, pm, t0, m0, t1, m1, vt[..], vm[..], |p.tasks|);
      }
    }
    RootsVisited(p, pt, pm, t0, m0, vt[..], vm[..]);
  }

  lemma RootsVisited(p: Problem, pt: seq<bool>, pm: seq<bool>, t0: seq<bool>, m0: seq<bool>, vt: seq<bool>, vm: seq<bool>)
    requires p.Valid() && |pm| == |p.methods| && |pt| == |p.tasks| && Visited(p, pt, pm, t0, m0, vt, vm) && AllComplete(p, pm, t0, vt, vm, |p.tasks|)
    requires (forall t :: 0 <= t < |t0| ==> !t0[t]) && (forall m :: 0 <= m < |m0| ==> !m0[m])
    ensures forall t :: 0 <= t < |pt| && vt[t] ==> !pt[t] && InUse(p, pt, pm, t) && Complete(p, pm, vt, vm, t)
    ensures forall m :: 0 <= m < |pm| && vm[m] ==> !pm[m] && Owned(p, m, vt)
  {
  }

  /** What the top-down pass leaves: visited tasks, unpruned compiled conditional effects, visited methods. */
  ghost predicate DfsPruned(p: Problem, t0: seq<bool>, m0: seq<bool>, vt: seq<bool>, vm: seq<bool>, t1: seq<bool>, m1: seq<bool>)
    requires |t0| == |t1| == |vt| == |p.tasks| && |m0| == |m1| == |vm| == |p.methods|
  {
    && (forall t :: 0 <= t < |t1| ==> (t1[t] <==> t0[t] || (!vt[t] && !p.tasks[t].isCompiledConditionalEffect)))
    && (forall m :: 0 <= m < |m1| ==> (m1[m] <==> m0[m] || !vm[m]))
  }

  ghost function RemainingUpTo(p: Problem, prunedTasks: seq<bool>, k: nat): (s: set<nat>)
    requires |prunedTasks| == |p.tasks| && k <= |p.tasks|
    ensures forall t: nat :: t in s <==> t < k && p.tasks[t].primitive && !prunedTasks[t]
  {
    set t: nat | t in Upto(k) && p.tasks[t].primitive && !prunedTasks[t]
  }

  lemma RemainingNext(p: Problem, before: seq<bool>, after: seq<bool>, k: nat)
    requires |before| == |after| == |p.tasks| && k < |p.tasks| && forall t :: 0 <= t < k ==> before[t] == after[t]
    ensures |RemainingUpTo(p, after, k + 1)| == |RemainingUpTo(p, before, k)| + (if p.tasks[k].primitive && !after[k] then 1 else 0)
  {
    if p.tasks[k].primitive && !after[k] {
      assert RemainingUpTo(p, after, k + 1) == RemainingUpTo(p, before, k) + {k};
    } else {
      assert RemainingUpTo(p, after, k + 1) == RemainingUpTo(p, before, k);
    }
  }

  /** Lines 294-313. */
  method PruneUnvisited(p: Problem, prunedTasks: array<bool>, visitedTasks: array<bool>) returns (reachedPrimitiveTasksCount: nat)
    requires p.Valid() && prunedTasks.Length == visitedTasks.Length == |p.tasks| && prunedTasks != visitedTasks
    requires forall t :: 0 <= t < |p.tasks| && visitedTasks[t] ==> !prunedTasks[t]
    modifies prunedTasks
    ensures forall t :: 0 <= t < |p.tasks| ==>
      (prunedTasks[t] <==> old(prunedTasks[t]) || (!visitedTasks[t] && !p.tasks[t].isCompiledConditionalEffect))
    ensures reachedPrimitiveTasksCount == |Remaining(p, prunedTasks[..])|
  {
    hide RemainingUpTo, Remaining;
    reachedPrimitiveTasksCount := 0;
    NoneRemaining(p, prunedTasks[..]);
    for t := 0 to |p.tasks|
      invariant forall u :: 0 <= u < t ==> (prunedTasks[u] <==> old(prunedTasks[u]) || (!visitedTasks[u] && !p.tasks[u].isCompiledConditionalEffect))
      invariant forall u :: t <= u < |p.tasks| ==> prunedTasks[u] == old(prunedTasks[u])
      invariant reachedPrimitiveTasksCount == |RemainingUpTo(p, prunedTasks[..], t)|
    {
      ghost var before := prunedTasks[..];
      assert p.TaskOk(t);
      if visitedTasks[t] {
        if p.tasks[t].primitive { reachedPrimitiveTasksCount := reachedPrimitiveTasksCount + 1; }
      } else if !prunedTasks[t] && p.tasks[t].isCompiledConditionalEffect {
        reachedPrimitiveTasksCount := reachedPrimitiveTasksCount + 1;
      } else {
        prunedTasks[t] := true;
      }
      RemainingNext(p, before, prunedTasks[..], t);
    }
    NoneRemaining(p, prunedTasks[..]);
  }

  lemma NoneRemaining(p: Problem, prunedTasks: seq<bool>)
    requires |prunedTasks| == |p.tasks|
    ensures RemainingUpTo(p, prunedTasks, 0) == {} && RemainingUpTo(p, prunedTasks, |p.tasks|) == Remaining(p, prunedTasks)
  {
  }

  /** groundedTdgDfs (263-322). */
  method GroundedTdgDfs(p: Problem, prunedTasks: array<bool>, prunedMethods: array<bool>) returns (reachedPrimitiveTasksCount: nat)
    requires p.Valid() && prunedTasks.Length == |p.tasks| && prunedMethods.Length == |p.methods| && prunedTasks != prunedMethods
    requires SubtasksAlive(p, prunedTasks[..], prunedMethods[..]) && Composed(p, prunedTasks[..], prunedMethods[..])
    modifies prunedTasks, prunedMethods
    ensures Keeps(p, old(prunedTasks[..]), old(prunedMethods[..]), prunedTasks[..], prunedMethods[..])
    ensures KeepsConsistent(p, old(prunedTasks[..]), old(prunedMethods[..]), prunedTasks[..], prunedMethods[..])
    ensures Trimmed(p, prunedTasks[..], prunedMethods[..])
    ensures More(old(prunedTasks[..]), prunedTasks[..]) && More(old(prunedMethods[..]), prunedMethods[..])
    ensures reachedPrimitiveTasksCount == |Remaining(p, prunedTasks[..])|
  {
    hide SubtasksAlive, Complete, Keeps, KeepsConsistent, OwnersAlive, Composed, InUse, Trimmed, Problem.Valid;
    ghost var t0, m0 := prunedTasks[..], prunedMethods[..];
    var visitedTasks, visitedMethods := VisitRoots(p, prunedTasks[..], prunedMethods[..]);
    reachedPrimitiveTasksCount := PruneUnvisited(p, prunedTasks, visitedTasks);
    PruneUnreached(prunedMethods, visitedMethods);
    ghost var vt, vm, t1, m1 := visitedTasks[..], visitedMethods[..], prunedTasks[..], prunedMethods[..];
    DfsKeeps(p, t0, m0, vt, vm, t1, m1);
    DfsTrims(p, t0, m0, vt, vm, t1, m1);
    DfsKeepsConsistent(p, t0, m0, vt, vm, t1, m1);
  }

  lemma DfsKeeps(p: Problem, t0: seq<bool>, m0: seq<bool>, vt: seq<bool>, vm: seq<bool>, t1: seq<bool>, m1: seq<bool>)
    requires p.Valid() && |t0| == |t1| == |vt| == |p.tasks| && |m0| == |m1| == |vm| == |p.methods|
    requires DfsPruned(p, t0, m0, vt, vm, t1, m1)
    requires forall t :: 0 <= t < |t0| && vt[t] ==> !t0[t] && Complete(p, m0, vt, vm, t)
    requires forall m :: 0 <= m < |m0| && vm[m] ==> !m0[m] && Owned(p, m, vt)
    requires forall t :: 0 <= t < |t0| && p.tasks[t].isInitial && !t0[t] ==> vt[t]
    ensures Keeps(p, t0, m0, t1, m1) && OwnersAlive(p, t1, m1) && More(t0, t1)
  {
    forall d, plan | Solution(p, d, plan) && Alive(p, d, t0, m0) ensures Alive(p, d, t1, m1) {
      VisitedKeeps(p, m0, vt, vm, d, t0);
      AliveLess(p, d, Unvisited(vt), Unvisited(vm), t1, m1);
    }
    forall m, t | 0 <= m < |m1| && 0 <= t < |t1| && !m1[m] && m in p.tasks[t].decompositionMethods ensures !t1[t] {
      assert Owned(p, m, vt);
      var u: nat :| u < |vt| && vt[u] && m in p.tasks[u].decompositionMethods;
      assert p.TaskOk(t) && p.TaskOk(u) && p.methods[m].addTasks == [t] == [u];
    }
  }

  /** What VisitRoots hands over. */
  ghost predicate Explored(p: Problem, t0: seq<bool>, m0: seq<bool>, vt: seq<bool>, vm: seq<bool>)
    requires p.Valid() && |t0| == |vt| == |p.tasks| && |m0| == |vm| == |p.methods|
  {
    && (forall t :: 0 <= t < |t0| && vt[t] ==> !t0[t] && InUse(p, t0, m0, t) && Complete(p, m0, vt, vm, t))
    && (forall m :: 0 <= m < |m0| && vm[m] ==> !m0[m] && Owned(p, m, vt))
    && (forall t :: 0 <= t < |t0| && p.tasks[t].isInitial && !t0[t] ==> vt[t])
  }

  /** An unpruned method of a visited task was visited, and so were its subtasks. */
  lemma VisitedMethod(p: Problem, t0: seq<bool>, m0: seq<bool>, vt: seq<bool>, vm: seq<bool>, t: nat, m: nat)
    requires p.Valid() && |t0| == |vt| == |p.tasks| && |m0| == |vm| == |p.methods| && Explored(p, t0, m0, vt, vm)
    requires t < |vt| && vt[t] && m < |m0| && !m0[m] && m in p.tasks[t].decompositionMethods
    ensures vm[m] && forall i :: 0 <= i < |p.methods[m].subtasks| ==> p.methods[m].subtasks[i] < |vt| && vt[p.methods[m].subtasks[i]]
  {
    hide InUse;
    assert p.TaskOk(t) && p.MethodOk(m) && Complete(p, m0, vt, vm, t);
    var k :| 0 <= k < |p.tasks[t].decompositionMethods| && p.tasks[t].decompositionMethods[k] == m;
    assert MethodDone(p, m0, vt, vm, p.tasks[t].decompositionMethods[k]);
  }

  /** A chain from the initial task stays within what was visited. */
  lemma {:induction false} ChainVisited(p: Problem, t0: seq<bool>, m0: seq<bool>, vt: seq<bool>, vm: seq<bool>, path: seq<nat>, k: nat)
    requires p.Valid() && |t0| == |vt| == |p.tasks| && |m0| == |vm| == |p.methods| && Explored(p, t0, m0, vt, vm)
    requires Chain(p, t0, m0, path) && k < |path|
    ensures vt[path[k]]
  {
    hide InUse, Complete;
    if k > 0 {
      ChainVisited(p, t0, m0, vt, vm, path, k - 1);
      assert Leads(p, m0, path[k - 1], path[k - 1 + 1]);
      var m: nat :| m < |m0| && !m0[m] && m in p.tasks[path[k - 1]].decompositionMethods && path[k] in p.methods[m].subtasks;
      VisitedMethod(p, t0, m0, vt, vm, path[k - 1], m);
    }
  }

  lemma UsedIsVisited(p: Problem, t0: seq<bool>, m0: seq<bool>, vt: seq<bool>, vm: seq<bool>, t: nat)
    requires p.Valid() && |t0| == |vt| == |p.tasks| && |m0| == |vm| == |p.methods| && Explored(p, t0, m0, vt, vm)
    requires InUse(p, t0, m0, t)
    ensures t < |vt| && vt[t]
  {
    hide Explored;
    var path :| Chain(p, t0, m0, path) && path[|path| - 1] == t;
    ChainVisited(p, t0, m0, vt, vm, path, |path| - 1);
  }

  lemma StaysInUse(p: Problem, t0: seq<bool>, m0: seq<bool>, vt: seq<bool>, vm: seq<bool>, t1: seq<bool>, m1: seq<bool>, t: nat)
    requires p.Valid() && |t0| == |t1| == |vt| == |p.tasks| && |m0| == |m1| == |vm| == |p.methods|
    requires Explored(p, t0, m0, vt, vm) && DfsPruned(p, t0, m0, vt, vm, t1, m1) && InUse(p, t0, m0, t)
    ensures InUse(p, t1, m1, t)
  {
    hide Explored;
    var path :| Chain(p, t0, m0, path) && path[|path| - 1] == t;
    ChainVisited(p, t0, m0, vt, vm, path, 0);
    forall i | 0 <= i < |path| - 1 ensures Leads(p, m1, path[i], path[i + 1]) {
      ChainVisited(p, t0, m0, vt, vm, path, i);
      assert Leads(p, m0, path[i], path[i + 1]);
      var m: nat :| m < |m0| && !m0[m] && m in p.tasks[path[i]].decompositionMethods && path[i + 1] in p.methods[m].subtasks;
      VisitedMethod(p, t0, m0, vt, vm, path[i], m);
    }
    assert Chain(p, t1, m1, path);
  }

  lemma OwnerVisited(p: Problem, t0: seq<bool>, m0: seq<bool>, vt: seq<bool>, vm: seq<bool>, m: nat) returns (u: nat)
    requires p.Valid() && |t0| == |vt| == |p.tasks| && |m0| == |vm| == |p.methods| && Explored(p, t0, m0, vt, vm)
    requires m < |vm| && vm[m]
    ensures !m0[m] && u < |vt| && vt[u] && m in p.tasks[u].decompositionMethods
  {
    hide InUse, Complete;
    assert Owned(p, m, vt);
    u :| u < |vt| && vt[u] && m in p.tasks[u].decompositionMethods;
  }

  lemma DfsTrims(p: Problem, t0: seq<bool>, m0: seq<bool>, vt: seq<bool>, vm: seq<bool>, t1: seq<bool>, m1: seq<bool>)
    requires p.Valid() && |t0| == |t1| == |vt| == |p.tasks| && |m0| == |m1| == |vm| == |p.methods|
    requires Explored(p, t0, m0, vt, vm) && DfsPruned(p, t0, m0, vt, vm, t1, m1) && Composed(p, t0, m0)
    ensures Trimmed(p, t1, m1)
  {
    hide InUse, Complete, Composed, Explored;
    VisitedUnpruned(p, t0, m0, vt, vm, t1, m1);
    forall m, i | 0 <= m < |m1| && !m1[m] && 0 <= i < |p.methods[m].subtasks| ensures SubtaskAlive(p, t1, m, i) {
      var u := OwnerVisited(p, t0, m0, vt, vm, m);
      VisitedMethod(p, t0, m0, vt, vm, u, m);
      assert p.MethodOk(m);
    }
    forall m, t | 0 <= m < |m1| && 0 <= t < |t1| && !m1[m] && m in p.tasks[t].decompositionMethods ensures !t1[t] {
      var u := OwnerVisited(p, t0, m0, vt, vm, m);
      assert p.TaskOk(t) && p.TaskOk(u) && p.methods[m].addTasks == [t] == [u];
    }
    forall t: nat | t < |t1| && !t1[t] && !p.tasks[t].isCompiledConditionalEffect ensures InUse(p, t1, m1, t) {
      StaysInUse(p, t0, m0, vt, vm, t1, m1, t);
    }
    DfsComposed(p, t0, m0, vt, vm, t1, m1);
  }

  lemma VisitedUnpruned(p: Problem, t0: seq<bool>, m0: seq<bool>, vt: seq<bool>, vm: seq<bool>, t1: seq<bool>, m1: seq<bool>)
    requires p.Valid() && |t0| == |t1| == |vt| == |p.tasks| && |m0| == |m1| == |vm| == |p.methods|
    requires Explored(p, t0, m0, vt, vm) && DfsPruned(p, t0, m0, vt, vm, t1, m1)
    ensures forall t: nat :: t < |vt| && vt[t] ==> !t0[t] && !t1[t] && InUse(p, t0, m0, t)
    ensures forall t: nat :: t < |vt| && !t1[t] && !p.tasks[t].isCompiledConditionalEffect ==> vt[t]
    ensures forall m: nat :: m < |vm| ==> (m1[m] <==> !vm[m])
  {
    hide InUse, Complete;
  }

  /** Visited tasks are still built from visited ones. */
  lemma DfsComposed(p: Problem, t0: seq<bool>, m0: seq<bool>, vt: seq<bool>, vm: seq<bool>, t1: seq<bool>, m1: seq<bool>)
    requires p.Valid() && |t0| == |t1| == |vt| == |p.tasks| && |m0| == |m1| == |vm| == |p.methods|
    requires Explored(p, t0, m0, vt, vm) && DfsPruned(p, t0, m0, vt, vm, t1, m1) && Composed(p, t0, m0)
    ensures Composed(p, t1, m1)
  {
    hide InUse, Complete, Explored;
    VisitedUnpruned(p, t0, m0, vt, vm, t1, m1);
    forall y, t: nat | ComposedIn(p, t1, m1, y) && t < |t1| && !t1[t] ensures t in y {
      var z := y + set u: nat | u in Upto(|p.tasks|) && !vt[u];
      forall m: nat | m < |p.methods| && !m0[m] && AllIn(p.methods[m].subtasks, z) ensures AllIn(p.methods[m].addTasks, z) {
        ComposedStep(p, t0, m0, vt, vm, t1, m1, y, z, m);
      }
      assert ComposedIn(p, t0, m0, z);
      assert t in z;
      assert p.TaskOk(t);
      if !vt[t] { assert t in Remaining(p, t1); }
    }
  }

  lemma ComposedStep(p: Problem, t0: seq<bool>, m0: seq<bool>, vt: seq<bool>, vm: seq<bool>, t1: seq<bool>, m1: seq<bool>, y: set<nat>, z: set<nat>, m: nat)
    requires p.Valid() && |t0| == |t1| == |vt| == |p.tasks| && |m0| == |m1| == |vm| == |p.methods|
    requires Explored(p, t0, m0, vt, vm) && DfsPruned(p, t0, m0, vt, vm, t1, m1) && ComposedIn(p, t1, m1, y)
    requires m < |p.methods| && !m0[m] && AllIn(p.methods[m].subtasks, z)
    requires forall u: nat :: u in z <==> u in y || (u < |p.tasks| && !vt[u])
    ensures AllIn(p.methods[m].addTasks, z)
  {
    hide InUse, Complete, Explored;
    VisitedUnpruned(p, t0, m0, vt, vm, t1, m1);
    forall k | 0 <= k < |p.methods[m].addTasks| ensures p.methods[m].addTasks[k] in z {
      assert p.MethodOk(m);
      var u := p.methods[m].addTasks[k];
      if vt[u] {
        VisitedMethod(p, t0, m0, vt, vm, u, m);
        assert AllIn(MethodRules(p)[m].pre, y) && ActiveMethods(m1)[m];
        assert AllIn(MethodRules(p)[m].add, y);
      }
    }
  }

  lemma DfsKeepsConsistent(p: Problem, t0: seq<bool>, m0: seq<bool>, vt: seq<bool>, vm: seq<bool>, t1: seq<bool>, m1: seq<bool>)
    requires p.Valid() && |t0| == |t1| == |vt| == |p.tasks| && |m0| == |m1| == |vm| == |p.methods|
    requires Explored(p, t0, m0, vt, vm) && DfsPruned(p, t0, m0, vt, vm, t1, m1)
    ensures KeepsConsistent(p, t0, m0, t1, m1)
  {
    forall ct, cm | Within(p, t0, m0, ct, cm) ensures More(t1, ct) && More(m1, cm) {
      DfsKeepsOne(p, t0, m0, vt, vm, t1, m1, ct, cm);
    }
  }

  lemma DfsKeepsOne(p: Problem, t0: seq<bool>, m0: seq<bool>, vt: seq<bool>, vm: seq<bool>, t1: seq<bool>, m1: seq<bool>, ct: seq<bool>, cm: seq<bool>)
    requires p.Valid() && |t0| == |t1| == |vt| == |p.tasks| && |m0| == |m1| == |vm| == |p.methods|
    requires Explored(p, t0, m0, vt, vm) && DfsPruned(p, t0, m0, vt, vm, t1, m1) && Within(p, t0, m0, ct, cm)
    ensures More(t1, ct) && More(m1, cm)
  {
    hide InUse, Complete, Explored, Stable, Composed, SubtasksAlive;
    VisitedUnpruned(p, t0, m0, vt, vm, t1, m1);
    forall t: nat | t < |ct| && !ct[t] && !p.tasks[t].isCompiledConditionalEffect ensures vt[t] {
      InUseLess(p, t0, m0, ct, cm, t);
      UsedIsVisited(p, t0, m0, vt, vm, t);
    }
    forall m | 0 <= m < |cm| && !cm[m] ensures !m1[m] {
      assert p.MethodOk(m);
      var t := p.methods[m].addTasks[0];
      assert m in p.tasks[t].decompositionMethods && !ct[t];
      assert p.TaskOk(t);
      VisitedMethod(p, t0, m0, vt, vm, t, m);
    }
  }

  // ----- the loop (324-423) -----

  lemma PgKeepsAll(p: Problem, before: seq<bool>, facts: set<nat>, after: seq<bool>, pm: seq<bool>)
    requires |before| == |after| == |p.tasks| && |pm| == |p.methods| && p.Valid()
    requires RelaxedReachable(p, before, facts) && PgPruned(p, before, facts, after)
    ensures Keeps(p, before, pm, after, pm) && More(before, after)
    ensures OwnersAlive(p, before, pm) ==> OwnersAlive(p, after, pm)
    ensures Remaining(p, after) <= Remaining(p, before)
  {
    forall d, plan | Solution(p, d, plan) && Alive(p, d, before, pm) ensures Alive(p, d, after, pm) {
      PgKeeps(p, d, plan, before, facts, after, pm);
    }
    forall t | 0 <= t < |after| && p.tasks[t].decompositionMethods != [] ensures after[t] == before[t] {
      assert p.TaskOk(t);
    }
  }

  lemma TdgKeepsAll(p: Problem, t0: seq<bool>, m0: seq<bool>, built: set<nat>, t1: seq<bool>, m1: seq<bool>)
    requires |t0| == |t1| == |p.tasks| && |m0| == |m1| == |p.methods| && p.Valid()
    requires Composable(p, t0, m0, built) && TdgPruned(p, t0, m0, built, t1, m1)
    ensures Keeps(p, t0, m0, t1, m1)
  {
    forall d, plan | Solution(p, d, plan) && Alive(p, d, t0, m0) ensures Alive(p, d, t1, m1) {
      TdgKeeps(p, d, t0, m0, built, t1, m1);
    }
  }

  /** What was pruned was not needed to build the rest. */
  lemma TdgComposed(p: Problem, t0: seq<bool>, m0: seq<bool>, built: set<nat>, t1: seq<bool>, m1: seq<bool>)
    requires |t0| == |t1| == |p.tasks| && |m0| == |m1| == |p.methods| && p.Valid()
    requires Composable(p, t0, m0, built) && TdgPruned(p, t0, m0, built, t1, m1)
    ensures Composed(p, t1, m1)
  {
    var rules, a0, given := MethodRules(p), ActiveMethods(m0), Remaining(p, t0);
    forall y, t: nat | ComposedIn(p, t1, m1, y) && t < |t1| && !t1[t] ensures t in y {
      var z := y * built;
      forall r | 0 <= r < |rules| && a0[r] && AllIn(rules[r].pre, z) ensures AllIn(rules[r].add, z) {
        AllInMore(rules[r].pre, z, y);
        AllInMore(rules[r].pre, z, built);
        assert ActiveMethods(m1)[r];
      }
      assert given <= z by {
        assert Remaining(p, t0) <= Remaining(p, t1);
      }
      assert Closed(rules, a0, given, z);
    }
  }

  lemma TdgKeepsConsistent(p: Problem, t0: seq<bool>, m0: seq<bool>, built: set<nat>, t1: seq<bool>, m1: seq<bool>)
    requires |t0| == |t1| == |p.tasks| && |m0| == |m1| == |p.methods| && p.Valid()
    requires Composable(p, t0, m0, built) && TdgPruned(p, t0, m0, built, t1, m1)
    ensures KeepsConsistent(p, t0, m0, t1, m1)
  {
    hide Stable, AllInUse, OwnersAlive;
    forall ct, cm | Within(p, t0, m0, ct, cm) ensures More(t1, ct) && More(m1, cm) {
      forall r | 0 <= r < |p.methods| && ActiveMethods(cm)[r] && AllIn(MethodRules(p)[r].pre, built) ensures AllIn(MethodRules(p)[r].add, built) {
        assert ActiveMethods(m0)[r];
      }
      assert Remaining(p, ct) <= Remaining(p, t0);
      assert ComposedIn(p, ct, cm, built);
      forall m | 0 <= m < |cm| && !cm[m] ensures AllIn(p.methods[m].subtasks, built) {
        forall i | 0 <= i < |p.methods[m].subtasks| ensures p.methods[m].subtasks[i] in built {
          SubtaskOk(p, ct, cm, m, i);
        }
      }
    }
  }

  lemma PgKeepsConsistent(p: Problem, before: seq<bool>, facts: set<nat>, after: seq<bool>, pm: seq<bool>)
    requires |before| == |after| == |p.tasks| && |pm| == |p.methods| && p.Valid()
    requires RelaxedReachable(p, before, facts) && PgPruned(p, before, facts, after)
    ensures KeepsConsistent(p, before, pm, after, pm)
  {
    hide Trimmed, Problem.Valid;
    forall ct, cm | Within(p, before, pm, ct, cm) ensures More(after, ct) && More(pm, cm) {
      var f: set<nat> :| RelaxedReachable(p, ct, f) && forall t :: t in Remaining(p, ct) ==> AllIn(p.tasks[t].pre, f);
      FewerFacts(p, before, facts, ct, f);
      forall t | 0 <= t < |ct| && !ct[t] && p.tasks[t].primitive ensures AllIn(p.tasks[t].pre, facts) {
        assert t in Remaining(p, ct);
        AllInMore(p.tasks[t].pre, f, facts);
      }
    }
  }

  /** With more pruned, less is reached. */
  lemma FewerFacts(p: Problem, t0: seq<bool>, f0: set<nat>, t1: seq<bool>, f1: set<nat>)
    requires |t0| == |t1| == |p.tasks| && More(t0, t1) && RelaxedReachable(p, t0, f0) && RelaxedReachable(p, t1, f1)
    ensures f1 <= f0
  {
    forall r | 0 <= r < |p.tasks| && ActiveTasks(p, t1)[r] ensures ActiveTasks(p, t0)[r] { }
    assert Closed(TaskRules(p), ActiveTasks(p, t1), Upto(p.nInit), f0);
  }

  /** Every unpruned action is applicable in relaxed reach of the unpruned actions themselves. */
  ghost predicate Stable(p: Problem, prunedTasks: seq<bool>)
    requires |prunedTasks| == |p.tasks|
  {
    exists facts {:trigger RelaxedReachable(p, prunedTasks, facts)} :: RelaxedReachable(p, prunedTasks, facts)
      && forall t :: t in Remaining(p, prunedTasks) ==> AllIn(p.tasks[t].pre, facts)
  }

  lemma PgStable(p: Problem, before: seq<bool>, facts: set<nat>, after: seq<bool>)
    requires |before| == |after| == |p.tasks| && RelaxedReachable(p, before, facts) && PgPruned(p, before, facts, after)
    ensures Stable(p, after)
  {
    PgReachable(p, before, facts, after);
  }

  /** What was pruned contributed nothing. */
  lemma PgReachable(p: Problem, before: seq<bool>, facts: set<nat>, after: seq<bool>)
    requires |before| == |after| == |p.tasks| && RelaxedReachable(p, before, facts) && PgPruned(p, before, facts, after)
    ensures RelaxedReachable(p, after, facts) && forall t :: t in Remaining(p, after) ==> AllIn(p.tasks[t].pre, facts)
  {
    var rules, a0, a1, given := TaskRules(p), ActiveTasks(p, before), ActiveTasks(p, after), Upto(p.nInit);
    assert Closed(rules, a1, given, facts);
    forall y | Closed(rules, a1, given, y) ensures facts <= y {
      var z := y * facts;
      forall r | 0 <= r < |rules| && a0[r] && AllIn(rules[r].pre, z) ensures AllIn(rules[r].add, z) {
        AllInMore(rules[r].pre, z, y);
        AllInMore(rules[r].pre, z, facts);
      }
      assert Closed(rules, a0, given, z);
    }
    assert RelaxedReachable(p, after, facts);
  }

  lemma RemainingShrinks(p: Problem, t1: seq<bool>, t2: seq<bool>)
    requires |t1| == |t2| == |p.tasks| && More(t1, t2)
    ensures Remaining(p, t2) <= Remaining(p, t1) && |Remaining(p, t2)| <= |Remaining(p, t1)|
  {
    if Remaining(p, t2) < Remaining(p, t1) {
      FewerThan(Remaining(p, t2), Remaining(p, t1));
    } else {
      assert Remaining(p, t2) == Remaining(p, t1);
    }
  }

  lemma KeepsSame(p: Problem, t0: seq<bool>, m0: seq<bool>)
    requires |t0| == |p.tasks| && |m0| == |p.methods|
    ensures Keeps(p, t0, m0, t0, m0)
  {
  }

  /** Lines 341-347. */
  method CountPrimitive(p: Problem) returns (remainingPrimitiveTasks: nat)
    ensures remainingPrimitiveTasks == |Primitives(p, |p.tasks|)|
  {
    hide *;
    remainingPrimitiveTasks := 0;
    PrimitivesNone(p);
    for t := 0 to |p.tasks|
      invariant remainingPrimitiveTasks == |Primitives(p, t)|
    {
      PrimitivesNext(p, t);
      if p.tasks[t].primitive { remainingPrimitiveTasks := remainingPrimitiveTasks + 1; }
    }
  }

  lemma PrimitivesNone(p: Problem)
    ensures |Primitives(p, 0)| == 0
  {
    assert Primitives(p, 0) == {};
  }

  lemma PrimitivesNext(p: Problem, t: nat)
    requires t < |p.tasks|
    ensures |Primitives(p, t + 1)| == |Primitives(p, t)| + (if p.tasks[t].primitive then 1 else 0)
  {
    if p.tasks[t].primitive {
      assert Primitives(p, t + 1) == Primitives(p, t) + {t};
    } else {
      assert Primitives(p, t + 1) == Primitives(p, t);
    }
  }

  ghost function Primitives(p: Problem, k: nat): (s: set<nat>)
    requires k <= |p.tasks|
    ensures forall t: nat :: t in s <==> t < k && p.tasks[t].primitive
  {
    set t: nat | t in Upto(k) && p.tasks[t].primitive
  }

  /** One round behind the reachability pass: bottom-up, then top-down. */
  method Decomposition(p: Problem, prunedTasks: array<bool>, prunedMethods: array<bool>) returns (reachedPrimitiveTasksCount: nat)
    requires p.Valid() && prunedTasks.Length == |p.tasks| && prunedMethods.Length == |p.methods| && prunedTasks != prunedMethods
    requires OwnersAlive(p, prunedTasks[..], prunedMethods[..])
    modifies prunedTasks, prunedMethods
    ensures Keeps(p, old(prunedTasks[..]), old(prunedMethods[..]), prunedTasks[..], prunedMethods[..])
    ensures KeepsConsistent(p, old(prunedTasks[..]), old(prunedMethods[..]), prunedTasks[..], prunedMethods[..])
    ensures Trimmed(p, prunedTasks[..], prunedMethods[..])
    ensures More(old(prunedTasks[..]), prunedTasks[..]) && More(old(prunedMethods[..]), prunedMethods[..])
    ensures reachedPrimitiveTasksCount == |Remaining(p, prunedTasks[..])|
  {
    hide Keeps, KeepsConsistent, OwnersAlive, Composable, Composed, Trimmed, TdgPruned, SubtasksAlive, Problem.Valid, Remaining;
    ghost var t0, m0 := prunedTasks[..], prunedMethods[..];
    var reachedMethodsCount, built := GroundedTdg(p, prunedMethods, prunedTasks);
    ghost var t1, m1 := prunedTasks[..], prunedMethods[..];
    TdgConsistent(p, t0, m0, built, t1, m1);
    TdgKeepsAll(p, t0, m0, built, t1, m1);
    TdgComposed(p, t0, m0, built, t1, m1);
    TdgKeepsConsistent(p, t0, m0, built, t1, m1);
    reachedPrimitiveTasksCount := GroundedTdgDfs(p, prunedTasks, prunedMethods);
    KeepsTransitive(p, t0, m0, t1, m1, prunedTasks[..], prunedMethods[..]);
    KeepsConsistentTransitive(p, t0, m0, t1, m1, prunedTasks[..], prunedMethods[..]);
  }

  /** No action is pruned beforehand, none is out of relaxed reach, and a first round is not asked for. */
  ghost predicate NothingToDo(p: Problem, prunedTasks: seq<bool>, alwaysRunDFS: bool)
    requires |prunedTasks| == |p.tasks|
  {
    !alwaysRunDFS && Stable(p, prunedTasks) && forall t :: 0 <= t < |prunedTasks| && p.tasks[t].primitive ==> !prunedTasks[t]
  }

  /** facts is what the unpruned actions reach, all of them are applicable there, and exactly the other facts were
      pruned in addition to those pruned beforehand. */
  ghost predicate FactsOf(p: Problem, prunedTasks: seq<bool>, f0: seq<bool>, f1: seq<bool>, facts: set<nat>)
    requires |prunedTasks| == |p.tasks|
  {
    && RelaxedReachable(p, prunedTasks, facts) && (forall t :: t in Remaining(p, prunedTasks) ==> AllIn(p.tasks[t].pre, facts))
    && FactsPruned(f0, f1, facts)
  }

  ghost predicate FactsPruned(f0: seq<bool>, f1: seq<bool>, facts: set<nat>) {
    |f0| == |f1| && forall f :: 0 <= f < |f1| ==> (f1[f] <==> f0[f] || f !in facts)
  }

  lemma FactsPrunedAgain(p: Problem, t0: seq<bool>, a: set<nat>, t1: seq<bool>, b: set<nat>, f0: seq<bool>, f1: seq<bool>, f2: seq<bool>)
    requires |t0| == |t1| == |p.tasks| && More(t0, t1) && RelaxedReachable(p, t0, a) && RelaxedReachable(p, t1, b)
    requires FactsPruned(f0, f1, a) && FactsPruned(f1, f2, b)
    ensures FactsPruned(f0, f2, b)
  {
    FewerFacts(p, t0, a, t1, b);
  }

  lemma SameActions(p: Problem, t1: seq<bool>, t2: seq<bool>)
    requires |t1| == |t2| == |p.tasks| && More(t1, t2) && |Remaining(p, t2)| == |Remaining(p, t1)|
    ensures Remaining(p, t1) == Remaining(p, t2) && ActiveTasks(p, t1) == ActiveTasks(p, t2)
  {
    assert Remaining(p, t2) <= Remaining(p, t1);
    if Remaining(p, t2) < Remaining(p, t1) { FewerThan(Remaining(p, t2), Remaining(p, t1)); }
    assert Remaining(p, t2) == Remaining(p, t1);
    forall t | 0 <= t < |p.tasks| ensures ActiveTasks(p, t1)[t] == ActiveTasks(p, t2)[t] {
      assert ActiveTasks(p, t1)[t] <==> t in Remaining(p, t1);
      assert ActiveTasks(p, t2)[t] <==> t in Remaining(p, t2);
    }
  }

  /** After a reachability pass, as long as no further action is pruned. */
  lemma PgFacts(p: Problem, t1: seq<bool>, facts: set<nat>, t2: seq<bool>, t3: seq<bool>, f0: seq<bool>, f1: seq<bool>)
    requires |t1| == |t2| == |t3| == |p.tasks| && RelaxedReachable(p, t1, facts) && PgPruned(p, t1, facts, t2)
    requires More(t2, t3) && |Remaining(p, t3)| == |Remaining(p, t2)| && FactsPruned(f0, f1, facts)
    ensures FactsOf(p, t3, f0, f1, facts) && Stable(p, t3)
  {
    PgReachable(p, t1, facts, t2);
    SameActions(p, t2, t3);
    assert RelaxedReachable(p, t3, facts);
  }

  /** A pass that leaves as many actions as there were changes nothing. */
  lemma PgNothing(p: Problem, t1: seq<bool>, facts: set<nat>, t2: seq<bool>)
    requires |t1| == |t2| == |p.tasks| && PgPruned(p, t1, facts, t2) && |Remaining(p, t2)| == |Remaining(p, t1)|
    ensures t1 == t2
  {
    SameActions(p, t1, t2);
    forall t | 0 <= t < |t1| ensures t1[t] == t2[t] {
      if !t1[t] && p.tasks[t].primitive { assert t in Remaining(p, t2); }
    }
  }

  /** All actions are left after the pass: none was pruned before or by it, and vice versa. */
  lemma PgAllLeft(p: Problem, t1: seq<bool>, facts: set<nat>, t2: seq<bool>)
    requires |t1| == |t2| == |p.tasks| && RelaxedReachable(p, t1, facts) && PgPruned(p, t1, facts, t2)
    ensures |Remaining(p, t2)| == |Primitives(p, |p.tasks|)| ==> t1 == t2 && NothingToDo(p, t1, false)
    ensures NothingToDo(p, t1, false) ==> |Remaining(p, t2)| == |Primitives(p, |p.tasks|)|
  {
    var all := Primitives(p, |p.tasks|);
    assert Remaining(p, t2) <= all;
    if |Remaining(p, t2)| == |all| {
      if Remaining(p, t2) < all { FewerThan(Remaining(p, t2), all); }
      forall t: nat | t < |t2| && p.tasks[t].primitive ensures !t2[t] { assert t in all; }
      assert t1 == t2;
      PgStable(p, t1, facts, t2);
    }
    if NothingToDo(p, t1, false) {
      var f: set<nat> :| RelaxedReachable(p, t1, f) && forall t :: t in Remaining(p, t1) ==> AllIn(p.tasks[t].pre, f);
      LeastUnique(TaskRules(p), ActiveTasks(p, t1), Upto(p.nInit), f, facts);
      assert Remaining(p, t2) == all;
    }
  }

  lemma KeepsConsistentSame(p: Problem, t0: seq<bool>, m0: seq<bool>)
    requires p.Valid() && |t0| == |p.tasks| && |m0| == |p.methods|
    ensures KeepsConsistent(p, t0, m0, t0, m0) && More(t0, t0) && More(m0, m0)
  {
  }

  lemma MoreTransitive(x: seq<bool>, y: seq<bool>, z: seq<bool>)
    requires More(x, y) && More(y, z)
    ensures More(x, z)
  {
  }

  lemma TrimmedOwners(p: Problem, pt: seq<bool>, pm: seq<bool>)
    requires p.Valid() && |pt| == |p.tasks| && |pm| == |p.methods| && Trimmed(p, pt, pm)
    ensures OwnersAlive(p, pt, pm)
  {
  }

  /** run_grounded_HTN_GPG: the alternation ends and loses no solution. Unless there is nothing to do to begin with, what
      it leaves unpruned is the greatest part of what was unpruned before in which every action is relaxed reachable,
      every task can be built, is in use, and methods have unpruned subtasks and owners. */
  method RunGroundedHtnGpg(p: Problem, hasInitialTask: bool, prunedFacts: array<bool>, prunedTasks: array<bool>, prunedMethods: array<bool>,
                           alwaysRunDFS0: bool)
    requires p.Valid() && prunedTasks.Length == |p.tasks| && prunedMethods.Length == |p.methods| && prunedFacts.Length == p.nFacts
    requires prunedTasks != prunedMethods && prunedTasks != prunedFacts && prunedMethods != prunedFacts
    requires OwnersAlive(p, prunedTasks[..], prunedMethods[..])
    modifies prunedFacts, prunedTasks, prunedMethods
    ensures Keeps(p, old(prunedTasks[..]), old(prunedMethods[..]), prunedTasks[..], prunedMethods[..])
    ensures !hasInitialTask ==> prunedFacts[..] == old(prunedFacts[..])
    ensures !hasInitialTask || NothingToDo(p, old(prunedTasks[..]), alwaysRunDFS0) ==>
      prunedTasks[..] == old(prunedTasks[..]) && prunedMethods[..] == old(prunedMethods[..])
    ensures hasInitialTask && !NothingToDo(p, old(prunedTasks[..]), alwaysRunDFS0) ==>
      && Consistent(p, prunedTasks[..], prunedMethods[..])
      && More(old(prunedTasks[..]), prunedTasks[..]) && More(old(prunedMethods[..]), prunedMethods[..])
      && KeepsConsistent(p, old(prunedTasks[..]), old(prunedMethods[..]), prunedTasks[..], prunedMethods[..])
    ensures hasInitialTask ==> exists facts :: FactsOf(p, prunedTasks[..], old(prunedFacts[..]), prunedFacts[..], facts)
  {
    hide *;
    ghost var t0, m0, f0 := prunedTasks[..], prunedMethods[..], prunedFacts[..];
    KeepsSame(p, t0, m0);
    KeepsConsistentSame(p, t0, m0);
    if !hasInitialTask { return; }
    var alwaysRunDFS := alwaysRunDFS0;
    var remainingPrimitiveTasks := CountPrimitive(p);
    ghost var first, last, tl := true, {}, t0;
    while true
      invariant OwnersAlive(p, prunedTasks[..], prunedMethods[..]) && Keeps(p, t0, m0, prunedTasks[..], prunedMethods[..])
      invariant KeepsConsistent(p, t0, m0, prunedTasks[..], prunedMethods[..]) && More(t0, prunedTasks[..]) && More(m0, prunedMethods[..])
      invariant first ==> prunedTasks[..] == t0 && prunedMethods[..] == m0 && prunedFacts[..] == f0
      invariant first ==> remainingPrimitiveTasks == |Primitives(p, |p.tasks|)| && alwaysRunDFS == alwaysRunDFS0
      invariant !first ==> remainingPrimitiveTasks == |Remaining(p, prunedTasks[..])| && !alwaysRunDFS
      invariant !first ==> Trimmed(p, prunedTasks[..], prunedMethods[..]) && !NothingToDo(p, t0, alwaysRunDFS0)
      invariant !first ==> |tl| == |p.tasks| && More(tl, prunedTasks[..]) && RelaxedReachable(p, tl, last) && FactsPruned(f0, prunedFacts[..], last)
      decreases first, |Remaining(p, prunedTasks[..])|
    {
      ghost var t1, m1, f1 := prunedTasks[..], prunedMethods[..], prunedFacts[..];
      var reachedTasksCount, reachedFactsCount, facts := GroundedPg(p, prunedTasks, prunedFacts);
      ghost var t2, f2 := prunedTasks[..], prunedFacts[..];
      PgRound(p, t0, m0, t1, m1, facts, t2);
      PgAllLeft(p, t1, facts, t2);
      if first { FactsPrunedNow(f1, f2, facts); } else { FactsPrunedNow(f1, f2, facts); FactsPrunedAgain(p, tl, last, t1, facts, f0, f1, f2); }
      if reachedTasksCount == remainingPrimitiveTasks && !alwaysRunDFS {
        PgFacts(p, t1, facts, t2, t2, f0, f2);
        assert FactsOf(p, prunedTasks[..], f0, prunedFacts[..], facts);
        if !first { PgNothing(p, t1, facts, t2); AlsoStable(p, t2, m1); }
        DoNothing(p, t0, alwaysRunDFS0);
        break;
      }
      DoNothing(p, t0, alwaysRunDFS0);
      alwaysRunDFS := false;
      remainingPrimitiveTasks := reachedTasksCount;
      var reachedPrimitiveTasksCountDfs := Decomposition(p, prunedTasks, prunedMethods);
      ghost var t3, m3 := prunedTasks[..], prunedMethods[..];
      DecompositionRound(p, t0, m0, t1, t2, m1, t3, m3);
      if reachedPrimitiveTasksCountDfs == remainingPrimitiveTasks {
        PgFacts(p, t1, facts, t2, t3, f0, f2);
        assert FactsOf(p, prunedTasks[..], f0, prunedFacts[..], facts);
        AlsoStable(p, t3, m3);
        break;
      }
      remainingPrimitiveTasks := reachedPrimitiveTasksCountDfs;
      first, last, tl := false, facts, t1;
    }
  }

  lemma FactsPrunedNow(f1: seq<bool>, f2: seq<bool>, facts: set<nat>)
    requires |f1| == |f2| && forall f :: 0 <= f < |f2| ==> (f2[f] <==> f1[f] || f !in facts)
    ensures FactsPruned(f1, f2, facts)
  {
  }

  lemma AlsoStable(p: Problem, pt: seq<bool>, pm: seq<bool>)
    requires p.Valid() && |pt| == |p.tasks| && |pm| == |p.methods| && Stable(p, pt) && Trimmed(p, pt, pm)
    ensures Consistent(p, pt, pm)
  {
  }

  lemma DoNothing(p: Problem, t0: seq<bool>, alwaysRunDFS: bool)
    requires |t0| == |p.tasks|
    ensures NothingToDo(p, t0, alwaysRunDFS) <==> !alwaysRunDFS && NothingToDo(p, t0, false)
  {
  }

  lemma PgRound(p: Problem, t0: seq<bool>, m0: seq<bool>, t1: seq<bool>, m1: seq<bool>, facts: set<nat>, t2: seq<bool>)
    requires p.Valid() && |t0| == |t1| == |t2| == |p.tasks| && |m0| == |m1| == |p.methods|
    requires RelaxedReachable(p, t1, facts) && PgPruned(p, t1, facts, t2) && OwnersAlive(p, t1, m1)
    requires Keeps(p, t0, m0, t1, m1) && KeepsConsistent(p, t0, m0, t1, m1) && More(t0, t1)
    ensures Keeps(p, t0, m0, t2, m1) && KeepsConsistent(p, t0, m0, t2, m1) && More(t0, t2) && More(t1, t2) && OwnersAlive(p, t2, m1)
    ensures |Remaining(p, t2)| <= |Remaining(p, t1)|
  {
    hide *;
    PgKeepsAll(p, t1, facts, t2, m1);
    PgKeepsConsistent(p, t1, facts, t2, m1);
    RemainingShrinks(p, t1, t2);
    KeepsTransitive(p, t0, m0, t1, m1, t2, m1);
    KeepsConsistentTransitive(p, t0, m0, t1, m1, t2, m1);
    MoreTransitive(t0, t1, t2);
  }

  lemma DecompositionRound(p: Problem, t0: seq<bool>, m0: seq<bool>, t1: seq<bool>, t2: seq<bool>, m1: seq<bool>, t3: seq<bool>, m3: seq<bool>)
    requires p.Valid() && |t0| == |t1| == |t2| == |t3| == |p.tasks| && |m0| == |m1| == |m3| == |p.methods|
    requires Keeps(p, t0, m0, t2, m1) && KeepsConsistent(p, t0, m0, t2, m1) && More(t0, t2) && More(t1, t2) && More(m0, m1)
    requires Keeps(p, t2, m1, t3, m3) && KeepsConsistent(p, t2, m1, t3, m3) && More(t2, t3) && More(m1, m3) && Trimmed(p, t3, m3)
    ensures Keeps(p, t0, m0, t3, m3) && KeepsConsistent(p, t0, m0, t3, m3) && More(t0, t3) && More(t1, t3) && More(m0, m3) && OwnersAlive(p, t3, m3)
    ensures |Remaining(p, t3)| <= |Remaining(p, t2)|
  {
    hide *;
    RemainingShrinks(p, t2, t3);
    KeepsTransitive(p, t0, m0, t2, m1, t3, m3);
    KeepsConsistentTransitive(p, t0, m0, t2, m1, t3, m3);
    MoreTransitive(t0, t2, t3);
    MoreTransitive(t1, t2, t3);
    MoreTransitive(m0, m1, m3);
    TrimmedOwners(p, t3, m3);
  }
}
