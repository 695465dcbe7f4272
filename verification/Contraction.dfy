/** Blocks of primitive subtasks contracted to one macro action (postprocessing.cpp:646-829), and the priority
    between add and delete effects of one action (postprocessing.cpp:64-95). States are sets of facts. */
module Contraction {

  type Facts = set<nat>

  datatype Action = Action(preconditions: seq<nat>, addEffects: seq<nat>, delEffects: seq<nat>)

  function Elements(s: seq<nat>): (r: Facts)
    ensures forall x :: x in r <==> x in s
  {
    set x | x in s
  }

  lemma Snoc(s: seq<nat>, i: nat)
    requires i < |s|
    ensures Elements(s[..i + 1]) == Elements(s[..i]) + {s[i]}
  {
    assert s[..i + 1] == s[..i] + [s[i]];
  }

  predicate Applicable(s: Facts, a: Action) {
    Elements(a.preconditions) <= s
  }

  /** First the deletions, then the additions. */
  function Result(s: Facts, a: Action): Facts {
    s - Elements(a.delEffects) + Elements(a.addEffects)
  }

  predicate Executable(s: Facts, block: seq<Action>) {
    if block == [] then true else Executable(s, block[..|block| - 1]) && Applicable(Final(s, block[..|block| - 1]), block[|block| - 1])
  }

  function Final(s: Facts, block: seq<Action>): Facts {
    if block == [] then s else Result(Final(s, block[..|block| - 1]), block[|block| - 1])
  }

  // ----- priority between the effects of one action -----

  /** s without the members of x, order kept. */
  function Without(s: seq<nat>, x: Facts): (r: seq<nat>)
    ensures Elements(r) == Elements(s) - x
  {
    if s == [] then [] else
      var r := Without(s[..|s| - 1], x);
      assert s == s[..|s| - 1] + [s[|s| - 1]];
      if s[|s| - 1] in x then r else r + [s[|s| - 1]]
  }

  /** Facts that are added and deleted: a fact of a predicate that stands for a negation (its name starts with '-')
      is kept as deletion, any other as addition. */
  function Contested(a: Action, negated: Facts, keepDeleted: bool): (r: Facts)
  {
    set p | p in Elements(a.addEffects) && p in Elements(a.delEffects) && (p in negated <==> keepDeleted)
  }

  function Prioritised(a: Action, negated: Facts): Action {
    a.(addEffects := Without(a.addEffects, Contested(a, negated, true)), delEffects := Without(a.delEffects, Contested(a, negated, false)))
  }

  method RemoveAll(s: seq<nat>, x: Facts) returns (r: seq<nat>)
    ensures r == Without(s, x)
  {
    r := [];
    for i := 0 to |s|
      invariant r == Without(s[..i], x)
    {
      assert s[..i + 1][..i] == s[..i];
      if s[i] !in x { r := r + [s[i]]; }
    }
    assert s[..|s|] == s;
  }

  /** Lines 67-79. */
  method FindContested(task: Action, negated: Facts) returns (addToRemove: Facts, delToRemove: Facts)
    ensures addToRemove == Contested(task, negated, true) && delToRemove == Contested(task, negated, false)
  {
    var addSet := Elements(task.addEffects);
    addToRemove, delToRemove := {}, {};
    for i := 0 to |task.delEffects|
      invariant forall p: nat :: p in addToRemove <==> p in Elements(task.delEffects[..i]) && p in addSet && p in negated
      invariant forall p: nat :: p in delToRemove <==> p in Elements(task.delEffects[..i]) && p in addSet && p !in negated
    {
      var del := task.delEffects[i];
      Snoc(task.delEffects, i);
      if del in addSet {
        if del !in negated { delToRemove := delToRemove + {del}; } else { addToRemove := addToRemove + {del}; }
      }
    }
    assert task.delEffects[..|task.delEffects|] == task.delEffects;
  }

  /** Lines 64-95, for every task that is primitive and not pruned. */
  method ApplyEffectPriority(tasks: array<Action>, considered: seq<bool>, negated: Facts)
    requires |considered| == tasks.Length
    modifies tasks
    ensures forall t :: 0 <= t < tasks.Length ==> tasks[t] == if considered[t] then Prioritised(old(tasks[t]), negated) else old(tasks[t])
  {
    for t := 0 to tasks.Length
      invariant forall u :: 0 <= u < t ==> tasks[u] == if considered[u] then Prioritised(old(tasks[u]), negated) else old(tasks[u])
      invariant forall u :: t <= u < tasks.Length ==> tasks[u] == old(tasks[u])
    {
      if considered[t] {
        var addToRemove, delToRemove := FindContested(tasks[t], negated);
        var newAdd := RemoveAll(tasks[t].addEffects, addToRemove);
        var newDel := RemoveAll(tasks[t].delEffects, delToRemove);
        tasks[t] := tasks[t].(addEffects := newAdd, delEffects := newDel);
      }
    }
  }

  /** Afterwards no fact is added and deleted, and every fact is still touched that was touched before. */
  lemma PriorityDisjoint(a: Action, negated: Facts)
    ensures var b := Prioritised(a, negated);
      && Elements(b.addEffects) !! Elements(b.delEffects)
      && Elements(b.addEffects) + Elements(b.delEffects) == Elements(a.addEffects) + Elements(a.delEffects)
      && b.preconditions == a.preconditions
  {
  }

  /** p and q are a fact and its compiled negation: an action adds one exactly when it deletes the other. */
  ghost predicate Complementary(a: Action, p: nat, q: nat) {
    (p in a.addEffects <==> q in a.delEffects) && (q in a.addEffects <==> p in a.delEffects)
  }

  /** With the priorities a fact and its compiled negation never hold, or fail, together. */
  lemma ComplementsKept(a: Action, negated: Facts, p: nat, q: nat, s: Facts)
    requires Complementary(a, p, q) && p !in negated && q in negated
    requires p in s <==> q !in s
    ensures p in Result(s, Prioritised(a, negated)) <==> q !in Result(s, Prioritised(a, negated))
    ensures p in Result(s, Prioritised(a, negated)) <==> p in Result(s, a)
  {
    var b := Prioritised(a, negated);
    assert p in Elements(a.addEffects) <==> q in Elements(a.delEffects);
    assert q in Elements(a.addEffects) <==> p in Elements(a.delEffects);
  }

  /** Without them they can. */
  lemma ComplementsLost()
    ensures Complementary(Action([], [0, 1], [0, 1]), 0, 1)
    ensures 0 in Result({0}, Action([], [0, 1], [0, 1])) && 1 in Result({0}, Action([], [0, 1], [0, 1]))
  {
    assert [0, 1][0] == 0 && [0, 1][1] == 1;
  }

  // ----- one block -----

  /** The sets collected while a block is contracted. */
  datatype Macro = Macro(pre: Facts, add: Facts, del: Facts, rejected: bool)

  /** The macro says in which states the block runs and where it ends. */
  ghost predicate Summarises(m: Macro, block: seq<Action>) {
    && m.add !! m.del
    && (m.rejected ==> forall s: Facts :: !Executable(s, block))
    && (!m.rejected ==> forall s: Facts :: Executable(s, block) <==> m.pre <= s)
    && (forall s: Facts :: Final(s, block) == s - m.del + m.add)
  }

  /** Lines 724-729: the preconditions of the next action. */
  method AddPreconditions(a: Action, m: Macro) returns (r: Macro)
    ensures r.add == m.add && r.del == m.del
    ensures r.rejected <==> m.rejected || exists p :: p in a.preconditions && p in m.del
    ensures r.pre == m.pre + (Elements(a.preconditions) - m.add)
  {
    r := m;
    for i := 0 to |a.preconditions|
      invariant r.add == m.add && r.del == m.del
      invariant r.rejected <==> m.rejected || exists k :: 0 <= k < i && a.preconditions[k] in m.del
      invariant r.pre == m.pre + (Elements(a.preconditions[..i]) - m.add)
    {
      var myPre := a.preconditions[i];
      Snoc(a.preconditions, i);
      if myPre in r.del { r := r.(rejected := true); }
      if myPre !in r.add { r := r.(pre := r.pre + {myPre}); }
    }
    assert a.preconditions[..|a.preconditions|] == a.preconditions;
  }

  /** Lines 732-743: the effects of the next action, deletions first. */
  method AddEffects(a: Action, m: Macro) returns (r: Macro)
    ensures r.pre == m.pre && r.rejected == m.rejected
    ensures r.del == m.del + Elements(a.delEffects) - Elements(a.addEffects)
    ensures r.add == m.add - Elements(a.delEffects) + Elements(a.addEffects)
  {
    r := m;
    for i := 0 to |a.delEffects|
      invariant r.pre == m.pre && r.rejected == m.rejected
      invariant r.del == m.del + Elements(a.delEffects[..i])
      invariant r.add == m.add - Elements(a.delEffects[..i])
    {
      Snoc(a.delEffects, i);
      r := r.(del := r.del + {a.delEffects[i]});
      r := r.(add := r.add - {a.delEffects[i]});
    }
    assert a.delEffects[..|a.delEffects|] == a.delEffects;
    ghost var d := r;
    for i := 0 to |a.addEffects|
      invariant r.pre == m.pre && r.rejected == m.rejected
      invariant r.del == d.del - Elements(a.addEffects[..i])
      invariant r.add == d.add + Elements(a.addEffects[..i])
    {
      Snoc(a.addEffects, i);
      r := r.(add := r.add + {a.addEffects[i]});
      r := r.(del := r.del - {a.addEffects[i]});
    }
    assert a.addEffects[..|a.addEffects|] == a.addEffects;
  }

  /** The sets after one more action summarise the longer block. */
  lemma Extended(m: Macro, block: seq<Action>, a: Action, r: Macro)
    requires Summarises(m, block)
    requires r.rejected <==> m.rejected || exists p :: p in a.preconditions && p in m.del
    requires r.pre == m.pre + (Elements(a.preconditions) - m.add)
    requires r.del == m.del + Elements(a.delEffects) - Elements(a.addEffects)
    requires r.add == m.add - Elements(a.delEffects) + Elements(a.addEffects)
    ensures Summarises(r, block + [a])
  {
    var longer := block + [a];
    assert longer[..|longer| - 1] == block;
    forall s: Facts ensures Final(s, longer) == s - r.del + r.add {
      assert Final(s, block) == s - m.del + m.add;
      EffectsCompose(s, m, a, r);
    }
    forall s: Facts ensures Executable(s, longer) <==> !r.rejected && r.pre <= s {
      assert Final(s, block) == s - m.del + m.add;
      if !m.rejected && m.pre <= s {
        PreconditionsMet(s, m, a, r);
      }
    }
  }

  lemma EffectsCompose(s: Facts, m: Macro, a: Action, r: Macro)
    requires r.del == m.del + Elements(a.delEffects) - Elements(a.addEffects)
    requires r.add == m.add - Elements(a.delEffects) + Elements(a.addEffects)
    ensures Result(s - m.del + m.add, a) == s - r.del + r.add
  {
  }

  lemma PreconditionsMet(s: Facts, m: Macro, a: Action, r: Macro)
    requires m.add !! m.del && !m.rejected && m.pre <= s
    requires r.rejected <==> m.rejected || exists p :: p in a.preconditions && p in m.del
    requires r.pre == m.pre + (Elements(a.preconditions) - m.add)
    ensures Applicable(s - m.del + m.add, a) <==> !r.rejected && r.pre <= s
  {
    if r.rejected {
      var p :| p in a.preconditions && p in m.del;
      assert p in Elements(a.preconditions) && p !in s - m.del + m.add;
    } else if r.pre <= s {
      forall p | p in Elements(a.preconditions) ensures p in s - m.del + m.add {
      }
    } else {
      var p :| p in r.pre && p !in s;
      assert p in Elements(a.preconditions) && p !in s - m.del + m.add;
    }
  }

  /** Lines 715-744: the action that replaces a block. It is applicable exactly where the block is executable and
      has the same result; a block is rejected exactly when no state executes it. */
  method ContractBlock(block: seq<Action>) returns (m: Macro)
    ensures m.rejected <==> forall s: Facts :: !Executable(s, block)
    ensures !m.rejected ==> forall s: Facts :: Executable(s, block) <==> m.pre <= s
    ensures forall s: Facts :: Final(s, block) == s - m.del + m.add
    ensures m.add !! m.del
  {
    m := Macro({}, {}, {}, false);
    for i := 0 to |block|
      invariant Summarises(m, block[..i])
    {
      var before := m;
      m := AddPreconditions(block[i], m);
      m := AddEffects(block[i], m);
      Extended(before, block[..i], block[i], m);
      assert block[..i] + [block[i]] == block[..i + 1];
    }
    assert block[..|block|] == block;
    assert Summarises(m, block);
    RejectedExactly(m, block);
  }

  lemma ExecutableAt(m: Macro, block: seq<Action>)
    requires Summarises(m, block) && !m.rejected
    ensures exists s: Facts :: Executable(s, block)
  {
    assert m.pre <= m.pre;
  }

  lemma RejectedExactly(m: Macro, block: seq<Action>)
    requires Summarises(m, block)
    ensures m.rejected <==> forall s: Facts :: !Executable(s, block)
  {
    if !m.rejected {
      ExecutableAt(m, block);
    }
  }

  // ----- one method -----

  datatype GroundedTask = GroundedTask(primitive: bool, action: Action)

  /** What the decomposition of an abstract task can do to a state; nothing is assumed about it. */
  type Meaning = (nat, Facts, Facts) -> bool

  ghost predicate Step(table: seq<GroundedTask>, abs: Meaning, t: nat, s: Facts, r: Facts)
    requires t < |table|
  {
    if table[t].primitive then Applicable(s, table[t].action) && r == Result(s, table[t].action) else abs(t, s, r)
  }

  ghost predicate InTable(table: seq<GroundedTask>, tasks: seq<nat>) {
    forall i :: 0 <= i < |tasks| ==> tasks[i] < |table|
  }

  /** trace holds the states before, between and after the tasks. */
  ghost predicate Run(table: seq<GroundedTask>, abs: Meaning, tasks: seq<nat>, trace: seq<Facts>)
    requires InTable(table, tasks)
  {
    |trace| == |tasks| + 1 && forall i :: 0 <= i < |tasks| ==> Step(table, abs, tasks[i], trace[i], trace[i + 1])
  }

  /** Carrying out tasks in this order can lead from s to r. */
  ghost predicate Leads(table: seq<GroundedTask>, abs: Meaning, tasks: seq<nat>, s: Facts, r: Facts)
    requires InTable(table, tasks)
  {
    exists trace {:trigger Run(table, abs, tasks, trace)} :: Run(table, abs, tasks, trace) && trace[0] == s && trace[|tasks|] == r
  }

  lemma LeadsApart(table: seq<GroundedTask>, abs: Meaning, x: seq<nat>, y: seq<nat>, s: Facts, r: Facts) returns (m: Facts)
    requires InTable(table, x) && InTable(table, y) && InTable(table, x + y) && Leads(table, abs, x + y, s, r)
    ensures Leads(table, abs, x, s, m) && Leads(table, abs, y, m, r)
  {
    var trace :| Run(table, abs, x + y, trace) && trace[0] == s && trace[|x + y|] == r;
    m := trace[|x|];
    var t1, t2 := trace[..|x| + 1], trace[|x|..];
    assert Run(table, abs, x, t1) by {
      forall i | 0 <= i < |x| ensures Step(table, abs, x[i], t1[i], t1[i + 1]) { assert (x + y)[i] == x[i]; }
    }
    assert Run(table, abs, y, t2) by {
      forall i | 0 <= i < |y| ensures Step(table, abs, y[i], t2[i], t2[i + 1]) { assert (x + y)[|x| + i] == y[i]; }
    }
  }

  lemma LeadsTogether(table: seq<GroundedTask>, abs: Meaning, x: seq<nat>, y: seq<nat>, s: Facts, m: Facts, r: Facts)
    requires InTable(table, x) && InTable(table, y)
    requires Leads(table, abs, x, s, m) && Leads(table, abs, y, m, r)
    ensures InTable(table, x + y) && Leads(table, abs, x + y, s, r)
  {
    var t1 :| Run(table, abs, x, t1) && t1[0] == s && t1[|x|] == m;
    var t2 :| Run(table, abs, y, t2) && t2[0] == m && t2[|y|] == r;
    var trace := t1 + t2[1..];
    forall i | 0 <= i < |x + y| ensures Step(table, abs, (x + y)[i], trace[i], trace[i + 1]) {
      if i < |x| {
        assert Step(table, abs, x[i], t1[i], t1[i + 1]);
      } else {
        assert Step(table, abs, y[i - |x|], t2[i - |x|], t2[i - |x| + 1]);
        assert trace[i] == t2[i - |x|];
      }
    }
    assert Run(table, abs, x + y, trace);
  }

  function Actions(table: seq<GroundedTask>, tasks: seq<nat>): (r: seq<Action>)
    requires forall i :: 0 <= i < |tasks| ==> tasks[i] < |table|
    ensures |r| == |tasks|
    ensures forall i :: 0 <= i < |r| ==> r[i] == table[tasks[i]].action
  {
    seq(|tasks|, i requires 0 <= i < |tasks| => table[tasks[i]].action)
  }

  ghost predicate AllPrimitive(table: seq<GroundedTask>, tasks: seq<nat>) {
    forall i :: 0 <= i < |tasks| ==> tasks[i] < |table| && table[tasks[i]].primitive
  }

  /** A block of primitives leads from s to r exactly when it is executable in s and r is where it ends. */
  lemma {:induction false} BlockRuns(table: seq<GroundedTask>, abs: Meaning, block: seq<nat>, trace: seq<Facts>)
    requires InTable(table, block) && AllPrimitive(table, block) && Run(table, abs, block, trace)
    ensures Executable(trace[0], Actions(table, block)) && trace[|block|] == Final(trace[0], Actions(table, block))
    decreases |block|
  {
    if block != [] {
      var k := |block| - 1;
      var actions := Actions(table, block);
      assert actions[..k] == Actions(table, block[..k]);
      BlockRuns(table, abs, block[..k], trace[..k + 1]);
      assert Step(table, abs, block[k], trace[k], trace[k + 1]);
    }
  }

  lemma {:induction false} ExecutableRuns(table: seq<GroundedTask>, abs: Meaning, block: seq<nat>, s: Facts) returns (trace: seq<Facts>)
    requires InTable(table, block) && AllPrimitive(table, block) && Executable(s, Actions(table, block))
    ensures Run(table, abs, block, trace) && trace[0] == s && trace[|block|] == Final(s, Actions(table, block))
    decreases |block|
  {
    if block == [] {
      trace := [s];
    } else {
      var k := |block| - 1;
      var actions := Actions(table, block);
      assert actions[..k] == Actions(table, block[..k]);
      trace := ExecutableRuns(table, abs, block[..k], s);
      var longer := trace + [Final(s, actions)];
      forall i | 0 <= i < |block| ensures Step(table, abs, block[i], longer[i], longer[i + 1]) {
        if i < k { assert Step(table, abs, block[..k][i], trace[i], trace[i + 1]); }
      }
      trace := longer;
    }
  }

  lemma BlockLeads(table: seq<GroundedTask>, abs: Meaning, block: seq<nat>, s: Facts, r: Facts)
    requires InTable(table, block) && AllPrimitive(table, block)
    ensures Leads(table, abs, block, s, r) <==> Executable(s, Actions(table, block)) && r == Final(s, Actions(table, block))
  {
    if Leads(table, abs, block, s, r) {
      var trace :| Run(table, abs, block, trace) && trace[0] == s && trace[|block|] == r;
      BlockRuns(table, abs, block, trace);
    }
    if Executable(s, Actions(table, block)) && r == Final(s, Actions(table, block)) {
      var trace := ExecutableRuns(table, abs, block, s);
    }
  }

  function Concat(segments: seq<seq<nat>>): seq<nat> {
    if segments == [] then [] else Concat(segments[..|segments| - 1]) + segments[|segments| - 1]
  }

  /** A segment with several members holds primitives only. */
  ghost predicate Segment(table: seq<GroundedTask>, g: seq<nat>) {
    InTable(table, g) && g != [] && (|g| > 1 ==> AllPrimitive(table, g))
  }

  /** Primitives that follow each other directly are in one segment. */
  ghost predicate Cut(table: seq<GroundedTask>, segments: seq<seq<nat>>) {
    && (forall i :: 0 <= i < |segments| ==> Segment(table, segments[i]))
    && (forall i :: 0 < i < |segments| ==> !AllPrimitive(table, segments[i - 1]) || !AllPrimitive(table, segments[i]))
  }

  ghost predicate EndsAbstract(table: seq<GroundedTask>, segments: seq<seq<nat>>) {
    segments != [] ==> !AllPrimitive(table, segments[|segments| - 1])
  }

  lemma AddSegment(table: seq<GroundedTask>, segments: seq<seq<nat>>, g: seq<nat>)
    requires Cut(table, segments) && Segment(table, g) && (EndsAbstract(table, segments) || !AllPrimitive(table, g))
    ensures Cut(table, segments + [g]) && Concat(segments + [g]) == Concat(segments) + g
    ensures EndsAbstract(table, segments + [g]) <==> !AllPrimitive(table, g)
  {
    assert (segments + [g])[..|segments|] == segments;
  }

  /** Lines 663-693: the subtasks in their linear order, cut before and after every abstract task. */
  method Segmentation(table: seq<GroundedTask>, ordered: seq<nat>) returns (segmentation: seq<seq<nat>>)
    requires InTable(table, ordered)
    ensures Concat(segmentation) == ordered && Cut(table, segmentation)
  {
    hide Cut, EndsAbstract, Concat;
    segmentation := [];
    var currentPrimitiveBlock: seq<nat> := [];
    NothingCut(table);
    for currentSubtask := 0 to |ordered|
      invariant AllPrimitive(table, currentPrimitiveBlock)
      invariant Concat(segmentation) + currentPrimitiveBlock == ordered[..currentSubtask]
      invariant Cut(table, segmentation) && EndsAbstract(table, segmentation)
    {
      var groundedSubtask := ordered[currentSubtask];
      assert ordered[..currentSubtask + 1] == ordered[..currentSubtask] + [groundedSubtask];
      if table[groundedSubtask].primitive {
        currentPrimitiveBlock := currentPrimitiveBlock + [groundedSubtask];
      } else {
        if |currentPrimitiveBlock| > 0 {
          AddSegment(table, segmentation, currentPrimitiveBlock);
          segmentation := segmentation + [currentPrimitiveBlock];
        }
        assert !AllPrimitive(table, [groundedSubtask]) by { assert [groundedSubtask][0] == groundedSubtask; }
        AddSegment(table, segmentation, [groundedSubtask]);
        segmentation := segmentation + [[groundedSubtask]];
        currentPrimitiveBlock := [];
      }
    }
    assert ordered[..|ordered|] == ordered;
    if |currentPrimitiveBlock| > 0 {
      AddSegment(table, segmentation, currentPrimitiveBlock);
      segmentation := segmentation + [currentPrimitiveBlock];
    }
  }

  lemma NothingCut(table: seq<GroundedTask>)
    ensures Cut(table, []) && EndsAbstract(table, []) && Concat([]) == []
  {
  }

  datatype Outcome = Unchanged | Pruned | Replaced(methodTasks: seq<nat>)

  method ListOf(s: Facts) returns (l: seq<nat>)
    ensures Elements(l) == s
  {
    l := [];
    var rest := s;
    while rest != {}
      invariant rest <= s && Elements(l) == s - rest
    {
      var x :| x in rest;
      rest := rest - {x};
      l := l + [x];
    }
  }

  /** Same effect on every state, whatever the abstract tasks may do. */
  ghost predicate SameMeaning(t1: seq<GroundedTask>, x: seq<nat>, t2: seq<GroundedTask>, y: seq<nat>)
    requires InTable(t1, x) && InTable(t2, y)
  {
    forall abs, s, r {:trigger Leads(t1, abs, x, s, r)} {:trigger Leads(t2, abs, y, s, r)} ::
      Leads(t1, abs, x, s, r) <==> Leads(t2, abs, y, s, r)
  }

  ghost predicate Impossible(table: seq<GroundedTask>, x: seq<nat>)
    requires InTable(table, x)
  {
    forall abs, s, r :: !Leads(table, abs, x, s, r)
  }

  lemma SameConcat(t1: seq<GroundedTask>, x: seq<nat>, x2: seq<nat>, t2: seq<GroundedTask>, y: seq<nat>, y2: seq<nat>)
    requires InTable(t1, x) && InTable(t2, y) && InTable(t1, x2) && InTable(t2, y2)
    requires SameMeaning(t1, x, t2, y) && SameMeaning(t1, x2, t2, y2)
    ensures InTable(t1, x + x2) && InTable(t2, y + y2) && SameMeaning(t1, x + x2, t2, y + y2)
  {
    hide Leads;
    forall abs, s, r ensures Leads(t1, abs, x + x2, s, r) <==> Leads(t2, abs, y + y2, s, r) {
      if Leads(t1, abs, x + x2, s, r) {
        var m := LeadsApart(t1, abs, x, x2, s, r);
        LeadsTogether(t2, abs, y, y2, s, m, r);
      }
      if Leads(t2, abs, y + y2, s, r) {
        var m := LeadsApart(t2, abs, y, y2, s, r);
        LeadsTogether(t1, abs, x, x2, s, m, r);
      }
    }
  }

  lemma ImpossibleConcat(table: seq<GroundedTask>, x: seq<nat>, y: seq<nat>)
    requires InTable(table, x) && InTable(table, y) && (Impossible(table, x) || Impossible(table, y))
    ensures InTable(table, x + y) && Impossible(table, x + y)
  {
    hide Leads;
    forall abs, s, r ensures !Leads(table, abs, x + y, s, r) {
      if Leads(table, abs, x + y, s, r) {
        var m := LeadsApart(table, abs, x, y, s, r);
      }
    }
  }

  /** Appending to the table changes no earlier task. */
  lemma TableGrows(table: seq<GroundedTask>, more: seq<GroundedTask>, x: seq<nat>)
    requires InTable(table, x)
    ensures InTable(table + more, x) && SameMeaning(table, x, table + more, x)
  {
    forall abs, s, r ensures Leads(table, abs, x, s, r) <==> Leads(table + more, abs, x, s, r) {
      forall trace: seq<Facts> ensures Run(table, abs, x, trace) <==> Run(table + more, abs, x, trace) {
      }
    }
  }

  /** The new action stands for the block. */
  lemma MacroStands(table: seq<GroundedTask>, g: seq<nat>, m: Macro, a: Action)
    requires InTable(table, g) && AllPrimitive(table, g) && Summarises(m, Actions(table, g)) && !m.rejected
    requires Elements(a.preconditions) == m.pre && Elements(a.addEffects) == m.add && Elements(a.delEffects) == m.del
    ensures SameMeaning(table, g, table + [GroundedTask(true, a)], [|table|])
  {
    var t2 := table + [GroundedTask(true, a)];
    var block := [|table|];
    forall abs, s, r ensures Leads(table, abs, g, s, r) <==> Leads(t2, abs, block, s, r) {
      BlockLeads(table, abs, g, s, r);
      BlockLeads(t2, abs, block, s, r);
      assert Actions(t2, block) == [a] && [a][..0] == [];
      assert Executable(s, [a]) <==> Executable(s, []) && Applicable(Final(s, []), a);
      assert Final(s, [a]) == Result(s, a);
    }
  }

  lemma RejectedImpossible(table: seq<GroundedTask>, g: seq<nat>, m: Macro)
    requires InTable(table, g) && AllPrimitive(table, g) && Summarises(m, Actions(table, g)) && m.rejected
    ensures Impossible(table, g)
  {
    forall abs, s, r ensures !Leads(table, abs, g, s, r) {
      BlockLeads(table, abs, g, s, r);
    }
  }

  /** No two neighbours are primitive. */
  ghost predicate Compact(table: seq<GroundedTask>, tasks: seq<nat>) {
    InTable(table, tasks) && forall i :: 0 < i < |tasks| ==> !table[tasks[i - 1]].primitive || !table[tasks[i]].primitive
  }

  lemma {:induction false} SingletonsConcat(segments: seq<seq<nat>>)
    requires forall i :: 0 <= i < |segments| ==> |segments[i]| == 1
    ensures |Concat(segments)| == |segments|
    ensures forall i :: 0 <= i < |segments| ==> Concat(segments)[i] == segments[i][0]
    decreases |segments|
  {
    if segments != [] {
      SingletonsConcat(segments[..|segments| - 1]);
    }
  }

  lemma NothingToCompact(table: seq<GroundedTask>, segments: seq<seq<nat>>)
    requires Cut(table, segments) && InTable(table, Concat(segments))
    requires forall i :: 0 <= i < |segments| ==> |segments[i]| <= 1
    ensures Compact(table, Concat(segments))
  {
    forall i | 0 <= i < |segments| ensures |segments[i]| == 1 { assert Segment(table, segments[i]); }
    SingletonsConcat(segments);
    var tasks := Concat(segments);
    forall i | 0 < i < |tasks| ensures !table[tasks[i - 1]].primitive || !table[tasks[i]].primitive {
      assert !AllPrimitive(table, segments[i - 1]) || !AllPrimitive(table, segments[i]);
      assert segments[i - 1] == [tasks[i - 1]] && segments[i] == [tasks[i]];
    }
  }

  /** Two members of one segment are neighbours. */
  lemma SomethingToCompact(table: seq<GroundedTask>, segments: seq<seq<nat>>, k: nat)
    requires k < |segments| && |segments[k]| > 1 && Segment(table, segments[k]) && InTable(table, Concat(segments))
    ensures !Compact(table, Concat(segments))
  {
    hide Concat;
    var before, after := SplitAt(segments, k);
    var tasks, g, i := Concat(segments), segments[k], |before| + 1;
    assert tasks[i - 1] == g[0] && tasks[i] == g[1];
    assert table[g[0]].primitive && table[g[1]].primitive;
  }

  /** The first k segments have been translated to methodTasks. */
  ghost predicate Translated(table: seq<GroundedTask>, segments: seq<seq<nat>>, k: nat, table2: seq<GroundedTask>, methodTasks: seq<nat>)
    requires k <= |segments|
  {
    && |methodTasks| == k && table <= table2 && InTable(table2, methodTasks)
    && InTable(table, Concat(segments[..k])) && SameMeaning(table, Concat(segments[..k]), table2, methodTasks)
    && forall i :: 0 <= i < k ==> (table2[methodTasks[i]].primitive <==> AllPrimitive(table, segments[i]))
  }

  /** One more segment g, carried out by the single task t of the grown table. */
  lemma TranslateOne(table: seq<GroundedTask>, segments: seq<seq<nat>>, k: nat, table2: seq<GroundedTask>, methodTasks: seq<nat>,
                     more: seq<GroundedTask>, t: nat)
    requires k < |segments| && Cut(table, segments) && Translated(table, segments, k, table2, methodTasks)
    requires t < |table2 + more| && SameMeaning(table2, segments[k], table2 + more, [t])
    requires (table2 + more)[t].primitive <==> AllPrimitive(table, segments[k])
    ensures Translated(table, segments, k + 1, table2 + more, methodTasks + [t])
  {
    var g, done, table3 := segments[k], Concat(segments[..k]), table2 + more;
    assert segments[..k + 1][..k] == segments[..k];
    assert Concat(segments[..k + 1]) == done + g;
    assert table2 == table + table2[|table|..];
    TableGrows(table2, more, methodTasks);
    TableGrows(table, table2[|table|..], g);
    assert SameMeaning(table, done, table3, methodTasks) by { Chain(table, done, table2, methodTasks, table3, methodTasks); }
    assert SameMeaning(table, g, table3, [t]) by { Chain(table, g, table2, g, table3, [t]); }
    SameConcat(table, done, g, table3, methodTasks, [t]);
  }

  lemma Chain(t1: seq<GroundedTask>, x: seq<nat>, t2: seq<GroundedTask>, y: seq<nat>, t3: seq<GroundedTask>, z: seq<nat>)
    requires InTable(t1, x) && InTable(t2, y) && InTable(t3, z)
    requires SameMeaning(t1, x, t2, y) && SameMeaning(t2, y, t3, z)
    ensures SameMeaning(t1, x, t3, z)
  {
    hide Leads;
    forall abs, s, r ensures Leads(t1, abs, x, s, r) <==> Leads(t3, abs, z, s, r) {
      assert Leads(t1, abs, x, s, r) <==> Leads(t2, abs, y, s, r);
    }
  }

  lemma SplitAt(segments: seq<seq<nat>>, k: nat) returns (before: seq<nat>, after: seq<nat>)
    requires k < |segments|
    ensures Concat(segments) == before + segments[k] + after
    decreases |segments|
  {
    var n := |segments| - 1;
    if k == n {
      before, after := Concat(segments[..n]), [];
    } else {
      before, after := SplitAt(segments[..n], k);
      after := after + segments[n];
      assert segments[..n][k] == segments[k];
    }
  }

  lemma OneImpossible(table: seq<GroundedTask>, segments: seq<seq<nat>>, k: nat)
    requires k < |segments| && InTable(table, Concat(segments)) && InTable(table, segments[k]) && Impossible(table, segments[k])
    ensures Impossible(table, Concat(segments))
  {
    hide Impossible, Concat;
    var before, after := SplitAt(segments, k);
    InTableParts(table, before, segments[k], after);
    ImpossibleConcat(table, before, segments[k]);
    ImpossibleConcat(table, before + segments[k], after);
  }

  lemma InTableParts(table: seq<GroundedTask>, x: seq<nat>, y: seq<nat>, z: seq<nat>)
    requires InTable(table, x + y + z)
    ensures InTable(table, x) && InTable(table, y) && InTable(table, z)
  {
    var all := x + y + z;
    forall i | 0 <= i < |x| ensures x[i] < |table| { assert all[i] == x[i]; }
    forall i | 0 <= i < |y| ensures y[i] < |table| { assert all[|x| + i] == y[i]; }
    forall i | 0 <= i < |z| ensures z[i] < |table| { assert all[|x| + |y| + i] == z[i]; }
  }

  lemma CutInTable(table: seq<GroundedTask>, segments: seq<seq<nat>>, k: nat)
    requires Cut(table, segments) && k < |segments|
    ensures Segment(table, segments[k])
  {
  }

  lemma AllTranslated(table: seq<GroundedTask>, segments: seq<seq<nat>>, table2: seq<GroundedTask>, methodTasks: seq<nat>)
    requires Cut(table, segments) && Translated(table, segments, |segments|, table2, methodTasks)
    ensures InTable(table, Concat(segments)) && SameMeaning(table, Concat(segments), table2, methodTasks)
    ensures Compact(table2, methodTasks)
  {
    assert segments[..|segments|] == segments;
    forall i | 0 < i < |methodTasks| ensures !table2[methodTasks[i - 1]].primitive || !table2[methodTasks[i]].primitive {
      assert !AllPrimitive(table, segments[i - 1]) || !AllPrimitive(table, segments[i]);
    }
  }

  /** Lines 698-744: what replaces one segment. */
  method TranslateSegment(table: seq<GroundedTask>, g: seq<nat>) returns (rejected: bool, more: seq<GroundedTask>, t: nat)
    requires Segment(table, g)
    ensures rejected ==> Impossible(table, g) && more == []
    ensures !rejected ==> t < |table + more| && SameMeaning(table, g, table + more, [t])
    ensures !rejected ==> ((table + more)[t].primitive <==> AllPrimitive(table, g))
  {
    hide SameMeaning, Impossible;
    rejected, more := false, [];
    if |g| == 1 {
      t := g[0];
      assert table + [] == table && g == [t];
      TableGrows(table, [], g);
      assert AllPrimitive(table, g) <==> table[t].primitive;
    } else {
      var m := ContractBlock(Actions(table, g));
      if m.rejected {
        t := 0;
        rejected := true;
        RejectedImpossible(table, g, m);
      } else {
        var pre := ListOf(m.pre);
        var add := ListOf(m.add);
        var del := ListOf(m.del);
        var a := Action(pre, add, del);
        t := |table|;
        more := [GroundedTask(true, a)];
        MacroStands(table, g, m, a);
      }
    }
  }

  /** Lines 656-829 for one method: its subtasks are kept, or it is pruned because no state lets it run to the end,
      or its blocks become macro actions of the same meaning; no two primitives are neighbours then. */
  method ContractMethod(inputTasks: seq<GroundedTask>, newGroundTasks: seq<GroundedTask>, subtasks: seq<nat>, ordering: seq<nat>)
    returns (outcome: Outcome, newTasks: seq<GroundedTask>)
    requires InTable(inputTasks, subtasks) && |ordering| == |subtasks|
    requires forall i :: 0 <= i < |ordering| ==> ordering[i] < |subtasks|
    ensures newGroundTasks <= newTasks
    ensures var table := inputTasks + newGroundTasks;
      var ordered := Linear(subtasks, ordering);
      && InTable(table, ordered)
      && (outcome.Unchanged? <==> Compact(table, ordered))
      && (outcome.Pruned? ==> Impossible(table, ordered))
      && (outcome.Replaced? ==> Compact(inputTasks + newTasks, outcome.methodTasks))
      && (outcome.Replaced? ==> SameMeaning(table, ordered, inputTasks + newTasks, outcome.methodTasks))
  {
    hide SameMeaning, Impossible, Cut, Translated, Concat, Compact, Segment;
    newTasks := newGroundTasks;
    var table := inputTasks + newGroundTasks;
    var ordered := Linear(subtasks, ordering);
    LinearInTable(inputTasks, newGroundTasks, subtasks, ordering);
    if |subtasks| < 2 {
      CompactShort(table, ordered);
      return Unchanged, newTasks;
    }
    var segmentation := Segmentation(table, ordered);
    var largerThanOne := false;
    for i := 0 to |segmentation|
      invariant largerThanOne <==> exists j :: 0 <= j < i && |segmentation[j]| > 1
    {
      largerThanOne := largerThanOne || |segmentation[i]| > 1;
    }
    if !largerThanOne {
      NothingToCompact(table, segmentation);
      return Unchanged, newTasks;
    }
    ghost var longer :| 0 <= longer < |segmentation| && |segmentation[longer]| > 1;
    CutInTable(table, segmentation, longer);
    SomethingToCompact(table, segmentation, longer);
    var methodTasks: seq<nat> := [];
    NothingTranslated(table, segmentation);
    for k := 0 to |segmentation|
      invariant newGroundTasks <= newTasks
      invariant Translated(table, segmentation, k, inputTasks + newTasks, methodTasks)
    {
      CutInTable(table, segmentation, k);
      SegmentLater(table, segmentation, k, inputTasks + newTasks, methodTasks);
      var rejected, more, t := TranslateSegment(inputTasks + newTasks, segmentation[k]);
      if rejected {
        ImpossibleEarlier(table, segmentation, k, inputTasks + newTasks, methodTasks);
        OneImpossible(table, segmentation, k);
        return Pruned, newTasks;
      }
      TranslateOne(table, segmentation, k, inputTasks + newTasks, methodTasks, more, t);
      assert inputTasks + newTasks + more == inputTasks + (newTasks + more);
      newTasks := newTasks + more;
      methodTasks := methodTasks + [t];
    }
    AllTranslated(table, segmentation, inputTasks + newTasks, methodTasks);
    outcome := Replaced(methodTasks);
  }

  function Linear(subtasks: seq<nat>, ordering: seq<nat>): (r: seq<nat>)
    requires forall i :: 0 <= i < |ordering| ==> ordering[i] < |subtasks|
    ensures |r| == |ordering|
    ensures forall i :: 0 <= i < |r| ==> r[i] == subtasks[ordering[i]]
  {
    seq(|ordering|, i requires 0 <= i < |ordering| => subtasks[ordering[i]])
  }

  lemma LinearInTable(inputTasks: seq<GroundedTask>, more: seq<GroundedTask>, subtasks: seq<nat>, ordering: seq<nat>)
    requires InTable(inputTasks, subtasks) && forall i :: 0 <= i < |ordering| ==> ordering[i] < |subtasks|
    ensures InTable(inputTasks + more, Linear(subtasks, ordering))
  {
  }

  lemma CompactShort(table: seq<GroundedTask>, tasks: seq<nat>)
    requires InTable(table, tasks) && |tasks| < 2
    ensures Compact(table, tasks)
  {
  }

  lemma NothingTranslated(table: seq<GroundedTask>, segments: seq<seq<nat>>)
    ensures Translated(table, segments, 0, table, [])
  {
    assert Concat(segments[..0]) == [];
  }

  lemma SegmentLater(table: seq<GroundedTask>, segments: seq<seq<nat>>, k: nat, table2: seq<GroundedTask>, methodTasks: seq<nat>)
    requires k < |segments| && Translated(table, segments, k, table2, methodTasks) && Segment(table, segments[k])
    ensures Segment(table2, segments[k])
    ensures AllPrimitive(table2, segments[k]) <==> AllPrimitive(table, segments[k])
    ensures InTable(table, segments[k])
  {
    var g := segments[k];
    forall i | 0 <= i < |g| ensures g[i] < |table2| && table2[g[i]] == table[g[i]] {
    }
  }

  lemma ImpossibleEarlier(table: seq<GroundedTask>, segments: seq<seq<nat>>, k: nat, table2: seq<GroundedTask>, methodTasks: seq<nat>)
    requires k < |segments| && Translated(table, segments, k, table2, methodTasks)
    requires InTable(table, segments[k]) && InTable(table2, segments[k]) && Impossible(table2, segments[k])
    ensures Impossible(table, segments[k])
  {
    assert table2 == table + table2[|table|..];
    TableGrows(table, table2[|table|..], segments[k]);
  }
}
