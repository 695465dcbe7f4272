/** Plain progression search on task networks: one step is applied or decomposed at a time. The moves the planner
    makes eagerly (Model.cpp:902-938, 1340-1376) are shown to lose no plan. */
module ProgressionSystem {

  /** ordering holds pairs of positions in subTasks. */
  datatype Method = Method(task: nat, subTasks: seq<nat>, ordering: seq<(nat, nat)>)

  datatype Domain = Domain(stateBits: nat, isPrimitive: seq<bool>, precLists: seq<seq<nat>>, addLists: seq<seq<nat>>, delLists: seq<seq<nat>>,
                           methods: seq<Method>, gList: seq<nat>)
  {
    ghost predicate Valid() {
      && |isPrimitive| == |precLists| == |addLists| == |delLists|
      && (forall t :: 0 <= t < |isPrimitive| ==> Bits(precLists[t]) && Bits(addLists[t]) && Bits(delLists[t]))
      && Bits(gList)
      && (forall m :: 0 <= m < |methods| ==> MethodOk(methods[m]))
    }

    ghost predicate Bits(s: seq<nat>) {
      forall i :: 0 <= i < |s| ==> s[i] < stateBits
    }

    /** The reader rejects empty methods; orderings are acyclic: positions can be numbered against them. */
    ghost predicate MethodOk(m: Method) {
      && |m.subTasks| > 0 && m.task < |isPrimitive| && !isPrimitive[m.task]
      && (forall i :: 0 <= i < |m.subTasks| ==> m.subTasks[i] < |isPrimitive|)
      && (forall o :: 0 <= o < |m.ordering| ==> m.ordering[o].0 < |m.subTasks| && m.ordering[o].1 < |m.subTasks|)
      && exists h: seq<nat> :: Heights(m, h)
    }
  }

  ghost predicate Heights(m: Method, h: seq<nat>) {
    |h| == |m.subTasks| && forall o :: 0 <= o < |m.ordering| ==>
      m.ordering[o].0 < |h| && m.ordering[o].1 < |h| && h[m.ordering[o].1] < h[m.ordering[o].0]
  }

  // ----- states -----

  type State = seq<bool>

  predicate Applicable(d: Domain, s: State, t: nat)
    requires t < |d.precLists|
  {
    forall i :: 0 <= i < |d.precLists[t]| ==> d.precLists[t][i] < |s| && s[d.precLists[t][i]]
  }

  /** Deletions first, then additions (966-971). */
  ghost function Result(d: Domain, s: State, t: nat): (r: State)
    requires t < |d.addLists| && t < |d.delLists|
    ensures |r| == |s|
    ensures forall p :: 0 <= p < |s| ==> r[p] == (p in d.addLists[t] || (s[p] && p !in d.delLists[t]))
  {
    seq(|s|, p requires 0 <= p < |s| => p in d.addLists[t] || (s[p] && p !in d.delLists[t]))
  }

  predicate EffectFree(d: Domain, t: nat)
    requires t < |d.addLists| && t < |d.delLists|
  {
    |d.addLists[t]| == 0 && |d.delLists[t]| == 0
  }

  // ----- task networks -----

  datatype PlanStep = PlanStep(task: nat, successors: seq<nat>)

  type Store = map<nat, PlanStep>

  /** The steps that remain to be done, in the order given by their successor lists; identifiers up to lastId are in use. */
  datatype Config = Config(state: State, remaining: set<nat>, store: Store, lastId: nat)

  ghost predicate HasPredecessor(store: Store, r: set<nat>, y: nat) {
    exists x :: x in r && x in store && y in store[x].successors
  }

  ghost predicate WellFormed(d: Domain, c: Config) {
    && |c.state| == d.stateBits
    && (forall x :: x in c.remaining ==> x in c.store)
    && (forall x :: x in c.store ==> x <= c.lastId && c.store[x].task < |d.isPrimitive|)
  }

  datatype Move = Progress(step: nat) | Decompose(step: nat, how: nat)

  /** The successors of position i of a method whose instance starts after identifier base. */
  function Inner(m: Method, i: nat, base: nat): (r: seq<nat>) {
    InnerUpTo(m, i, base, |m.ordering|)
  }

  function InnerUpTo(m: Method, i: nat, base: nat, k: nat): (r: seq<nat>)
    requires k <= |m.ordering|
  {
    if k == 0 then [] else
      InnerUpTo(m, i, base, k - 1) + (if m.ordering[k - 1].0 == i then [base + 1 + m.ordering[k - 1].1] else [])
  }

  predicate IsLast(m: Method, i: nat) {
    forall o :: 0 <= o < |m.ordering| ==> m.ordering[o].0 != i
  }

  predicate IsFirst(m: Method, i: nat) {
    forall o :: 0 <= o < |m.ordering| ==> m.ordering[o].1 != i
  }

  ghost function Range(base: nat, k: nat): (s: set<nat>)
    ensures forall x :: x in s <==> base < x <= base + k
  {
    if k == 0 then {} else Range(base, k - 1) + {base + k}
  }

  ghost function NewIds(m: Method, base: nat): (s: set<nat>)
    ensures forall x :: x in s <==> base < x <= base + |m.subTasks|
  {
    Range(base, |m.subTasks|)
  }

  /** The steps of a method instance; the last ones inherit the successors of the decomposed step. */
  ghost function Instance(m: Method, base: nat, successors: seq<nat>): (s: Store)
    ensures forall x :: x in s <==> base < x <= base + |m.subTasks|
    ensures forall x :: x in s ==> s[x] == InstanceStep(m, x - base - 1, base, successors)
  {
    map x: nat | x in NewIds(m, base) :: InstanceStep(m, x - base - 1, base, successors)
  }

  function InstanceStep(m: Method, i: nat, base: nat, successors: seq<nat>): PlanStep
    requires i < |m.subTasks|
  {
    PlanStep(m.subTasks[i], if IsLast(m, i) then successors else Inner(m, i, base))
  }

  ghost predicate IsFirstStep(c: Config, x: nat) {
    x in c.remaining && x in c.store && !HasPredecessor(c.store, c.remaining, x)
  }

  ghost predicate Legal(d: Domain, c: Config, mv: Move)
    requires d.Valid() && WellFormed(d, c)
  {
    && IsFirstStep(c, mv.step)
    && match mv
       case Progress(x) => d.isPrimitive[c.store[x].task] && Applicable(d, c.state, c.store[x].task)
       case Decompose(x, m) => m < |d.methods| && d.methods[m].task == c.store[x].task
  }

  ghost function Next(d: Domain, c: Config, mv: Move): (r: Config)
    requires d.Valid() && WellFormed(d, c) && mv.step in c.store && (mv.Decompose? ==> mv.how < |d.methods|)
    ensures WellFormed(d, r)
  {
    match mv
    case Progress(x) => Config(Result(d, c.state, c.store[x].task), c.remaining - {x}, c.store, c.lastId)
    case Decompose(x, m) =>
      assert d.MethodOk(d.methods[m]);
      Config(c.state, c.remaining - {x} + NewIds(d.methods[m], c.lastId),
             c.store + Instance(d.methods[m], c.lastId, c.store[x].successors), c.lastId + |d.methods[m].subTasks|)
  }

  ghost predicate Goal(d: Domain, c: Config) {
    c.remaining == {} && forall i :: 0 <= i < |d.gList| ==> d.gList[i] < |c.state| && c.state[d.gList[i]]
  }

  /** The moves are legal one after the other and end in a goal. */
  ghost predicate Run(d: Domain, c: Config, moves: seq<Move>)
    requires d.Valid() && WellFormed(d, c)
    decreases |moves|
  {
    if moves == [] then Goal(d, c) else Legal(d, c, moves[0]) && Run(d, Next(d, c, moves[0]), moves[1..])
  }

  ghost predicate Solvable(d: Domain, c: Config)
    requires d.Valid() && WellFormed(d, c)
  {
    exists moves :: Run(d, c, moves)
  }

  // ----- effect-free steps -----

  ghost function Without(c: Config, s: nat): Config {
    c.(remaining := c.remaining - {s})
  }

  lemma FreeChangesNothing(d: Domain, c: Config, s: nat)
    requires d.Valid() && WellFormed(d, c) && s in c.remaining && EffectFree(d, c.store[s].task)
    ensures Next(d, c, Progress(s)) == Without(c, s)
  {
    assert Result(d, c.state, c.store[s].task) == c.state;
  }

  lemma FewerPredecessors(store: Store, r: set<nat>, s: set<nat>, y: nat)
    requires s <= r
    ensures HasPredecessor(store, s, y) ==> HasPredecessor(store, r, y)
  {
  }

  lemma DecomposesAbstract(d: Domain, c: Config, mv: Move)
    requires d.Valid() && WellFormed(d, c) && Legal(d, c, mv)
    ensures mv.Decompose? ==> !d.isPrimitive[c.store[mv.step].task]
  {
    assert mv.Decompose? ==> d.MethodOk(d.methods[mv.how]);
  }

  /** A move of another step can be made just as well when s has gone, and with the same outcome. */
  lemma MoveWithout(d: Domain, c: Config, s: nat, mv: Move)
    requires d.Valid() && WellFormed(d, c) && s in c.remaining && Legal(d, c, mv) && mv.step != s
    ensures WellFormed(d, Without(c, s)) && Legal(d, Without(c, s), mv)
    ensures Next(d, Without(c, s), mv) == Without(Next(d, c, mv), s)
    ensures s in Next(d, c, mv).remaining && Next(d, c, mv).store[s] == c.store[s]
  {
    var w := Without(c, s);
    FewerPredecessors(c.store, c.remaining, w.remaining, mv.step);
    match mv {
      case Progress(x) =>
        assert c.remaining - {s} - {x} == c.remaining - {x} - {s};
      case Decompose(x, m) =>
        var new_ := NewIds(d.methods[m], c.lastId);
        assert c.remaining - {s} - {x} + new_ == c.remaining - {x} + new_ - {s};
    }
  }

  /** Dropping the move of an effect-free step from a run leaves a run without that step. */
  lemma {:induction false} DropFreeStep(d: Domain, c: Config, moves: seq<Move>, s: nat) returns (rest: seq<Move>)
    requires d.Valid() && WellFormed(d, c) && Run(d, c, moves)
    requires s in c.remaining && d.isPrimitive[c.store[s].task] && EffectFree(d, c.store[s].task)
    ensures WellFormed(d, Without(c, s)) && Run(d, Without(c, s), rest)
    decreases |moves|
  {
    var mv := moves[0];
    if mv == Progress(s) {
      FreeChangesNothing(d, c, s);
      rest := moves[1..];
    } else {
      DecomposesAbstract(d, c, mv);
      MoveWithout(d, c, s, mv);
      var later := DropFreeStep(d, Next(d, c, mv), moves[1..], s);
      rest := [mv] + later;
      assert rest[1..] == later;
    }
  }

  /** Applying an applicable effect-free first step at once loses no plan and invents none. */
  lemma FreeStepSafe(d: Domain, c: Config, s: nat)
    requires d.Valid() && WellFormed(d, c) && Legal(d, c, Progress(s)) && EffectFree(d, c.store[s].task)
    ensures Solvable(d, c) <==> Solvable(d, Next(d, c, Progress(s)))
  {
    if Solvable(d, c) {
      var moves: seq<Move> :| Run(d, c, moves);
      var rest := DropFreeStep(d, c, moves, s);
      FreeChangesNothing(d, c, s);
    }
    if Solvable(d, Next(d, c, Progress(s))) {
      var moves: seq<Move> :| Run(d, Next(d, c, Progress(s)), moves);
      assert ([Progress(s)] + moves)[1..] == moves;
      assert Run(d, c, [Progress(s)] + moves);
    }
  }

  // ----- forced steps and dead ends -----

  ghost predicate OnlyActionsFirst(d: Domain, c: Config)
    requires d.Valid() && WellFormed(d, c)
  {
    forall x :: IsFirstStep(c, x) ==> d.isPrimitive[c.store[x].task]
  }

  /** With actions as first steps only and a single one of them applicable, that one comes next in every plan. */
  lemma ForcedStepSafe(d: Domain, c: Config, s: nat)
    requires d.Valid() && WellFormed(d, c) && OnlyActionsFirst(d, c) && Legal(d, c, Progress(s))
    requires OnlyApplicable(d, c, s)
    ensures Solvable(d, c) <==> Solvable(d, Next(d, c, Progress(s)))
  {
    if Solvable(d, c) {
      var moves: seq<Move> :| Run(d, c, moves);
      var mv := moves[0];
      DecomposesAbstract(d, c, mv);
      assert mv == Progress(s);
      assert Run(d, Next(d, c, Progress(s)), moves[1..]);
    }
    if Solvable(d, Next(d, c, Progress(s))) {
      var moves: seq<Move> :| Run(d, Next(d, c, Progress(s)), moves);
      assert ([Progress(s)] + moves)[1..] == moves;
      assert Run(d, c, [Progress(s)] + moves);
    }
  }

  // ----- chains of eager moves -----

  /** The step may be made at once: it is effect-free, or it is the only one that can be made. */
  ghost predicate Eager(d: Domain, c: Config, s: nat, free: bool, forced: bool)
    requires d.Valid() && WellFormed(d, c)
  {
    && Legal(d, c, Progress(s))
    && ((free && EffectFree(d, c.store[s].task)) || (forced && OnlyActionsFirst(d, c) && OnlyApplicable(d, c, s)))
  }

  ghost predicate OnlyApplicable(d: Domain, c: Config, s: nat)
    requires d.Valid() && WellFormed(d, c)
  {
    forall x :: IsFirstStep(c, x) && Applicable(d, c.state, c.store[x].task) ==> x == s
  }

  ghost predicate EagerRun(d: Domain, c: Config, steps: seq<nat>, end: Config, free: bool, forced: bool)
    requires d.Valid() && WellFormed(d, c)
    decreases |steps|
  {
    if steps == [] then c == end else
      Eager(d, c, steps[0], free, forced) && EagerRun(d, Next(d, c, Progress(steps[0])), steps[1..], end, free, forced)
  }

  ghost predicate EagerlyReaches(d: Domain, c: Config, end: Config, free: bool, forced: bool)
    requires d.Valid() && WellFormed(d, c)
  {
    exists steps :: EagerRun(d, c, steps, end, free, forced)
  }

  lemma EagerNothing(d: Domain, c: Config, free: bool, forced: bool)
    requires d.Valid() && WellFormed(d, c)
    ensures EagerlyReaches(d, c, c, free, forced)
  {
    assert EagerRun(d, c, [], c, free, forced);
  }

  lemma EagerFirst(d: Domain, c: Config, s: nat, end: Config, free: bool, forced: bool)
    requires d.Valid() && WellFormed(d, c) && Eager(d, c, s, free, forced)
    requires EagerlyReaches(d, Next(d, c, Progress(s)), end, free, forced)
    ensures EagerlyReaches(d, c, end, free, forced)
  {
    var steps :| EagerRun(d, Next(d, c, Progress(s)), steps, end, free, forced);
    assert ([s] + steps)[1..] == steps;
    assert EagerRun(d, c, [s] + steps, end, free, forced);
  }

  lemma EagerChain(d: Domain, c: Config, middle: Config, end: Config, free: bool, forced: bool)
    requires d.Valid() && WellFormed(d, c) && WellFormed(d, middle)
    requires EagerlyReaches(d, c, middle, free, forced) && EagerlyReaches(d, middle, end, free, forced)
    ensures EagerlyReaches(d, c, end, free, forced)
  {
    var steps :| EagerRun(d, c, steps, middle, free, forced);
    EagerAppend(d, c, steps, middle, end, free, forced);
  }

  lemma {:induction false} EagerAppend(d: Domain, c: Config, steps: seq<nat>, middle: Config, end: Config, free: bool, forced: bool)
    requires d.Valid() && WellFormed(d, c) && WellFormed(d, middle)
    requires EagerRun(d, c, steps, middle, free, forced) && EagerlyReaches(d, middle, end, free, forced)
    ensures EagerlyReaches(d, c, end, free, forced)
    decreases |steps|
  {
    if steps != [] {
      EagerAppend(d, Next(d, c, Progress(steps[0])), steps[1..], middle, end, free, forced);
      EagerFirst(d, c, steps[0], end, free, forced);
    }
  }

  /** However many eager moves are made, the configuration keeps a plan exactly when it had one. */
  lemma {:induction false} EagerSafe(d: Domain, c: Config, steps: seq<nat>, end: Config, free: bool, forced: bool)
    requires d.Valid() && WellFormed(d, c) && WellFormed(d, end) && EagerRun(d, c, steps, end, free, forced)
    ensures Solvable(d, c) <==> Solvable(d, end)
    decreases |steps|
  {
    if steps != [] {
      var s := steps[0];
      if free && EffectFree(d, c.store[s].task) {
        FreeStepSafe(d, c, s);
      } else {
        ForcedStepSafe(d, c, s);
      }
      EagerSafe(d, Next(d, c, Progress(s)), steps[1..], end, free, forced);
    }
  }

  /** With actions as first steps only and none applicable there is no plan. */
  lemma DeadEnd(d: Domain, c: Config)
    requires d.Valid() && WellFormed(d, c) && OnlyActionsFirst(d, c) && c.remaining != {}
    requires forall x :: IsFirstStep(c, x) ==> !Applicable(d, c.state, c.store[x].task)
    ensures !Solvable(d, c)
  {
    forall moves: seq<Move> ensures !Run(d, c, moves) {
      if Run(d, c, moves) {
        var mv := moves[0];
        DecomposesAbstract(d, c, mv);
      }
    }
  }
}
