/** Rules over facts with sorted variables (pandaPIgrounder: model.cpp:60-128, 190-245 and the instances in gpg.h:650-720, 1189-1300), and
    what they derive: the meaning against which the semi-naive grounding is proved. */
module Rules {

  const NOT_ASSIGNED := -1

  /** An antecedent or consequence: its arguments are variables of the action. */
  datatype Atom = Atom(head: nat, arguments: seq<nat>)

  datatype Fact = Fact(head: nat, arguments: seq<int>)

  datatype Constraint = Constraint(equal: bool, var1: nat, var2: nat)

  datatype Action = Action(variableSorts: seq<nat>, antecedents: seq<Atom>, consequences: seq<Atom>, variableConstraints: seq<Constraint>)

  /** Tasks over facts, or methods over tasks. */
  datatype Instance = Instance(sorts: seq<seq<int>>, arity: seq<nat>, actions: seq<Action>, init: seq<Fact>)
  {
    ghost predicate Valid() {
      && (forall s :: 0 <= s < |sorts| ==> SortOk(sorts[s]))
      && (forall a :: 0 <= a < |actions| ==> ActionOk(actions[a]))
      && (forall i :: 0 <= i < |init| ==> FactOk(init[i]))
    }

    ghost predicate SortOk(members: seq<int>) {
      (forall i :: 0 <= i < |members| ==> members[i] >= 0) && (forall i, j :: 0 <= i < j < |members| ==> members[i] != members[j])
    }

    ghost predicate ActionOk(act: Action) {
      && (forall v :: 0 <= v < |act.variableSorts| ==> act.variableSorts[v] < |sorts|)
      && (forall p :: 0 <= p < |act.antecedents| ==> AtomOk(act, act.antecedents[p]))
      && (forall c :: 0 <= c < |act.consequences| ==> AtomOk(act, act.consequences[c]))
      && (forall c :: 0 <= c < |act.variableConstraints| ==>
            act.variableConstraints[c].var1 < |act.variableSorts| && act.variableConstraints[c].var2 < |act.variableSorts|)
    }

    ghost predicate AtomOk(act: Action, atom: Atom) {
      atom.head < |arity| && |atom.arguments| == arity[atom.head] && forall i :: 0 <= i < |atom.arguments| ==> atom.arguments[i] < |act.variableSorts|
    }

    ghost predicate FactOk(f: Fact) {
      f.head < |arity| && |f.arguments| == arity[f.head]
    }
  }

  // ----- ground instances -----

  predicate InSort(inst: Instance, sort: nat, c: int) {
    sort < |inst.sorts| && c in inst.sorts[sort]
  }

  function Value(s: seq<int>, v: nat): int {
    if v < |s| then s[v] else NOT_ASSIGNED
  }

  function Ground(atom: Atom, s: seq<int>): (f: Fact)
    ensures f.head == atom.head && |f.arguments| == |atom.arguments|
    ensures forall i :: 0 <= i < |atom.arguments| ==> f.arguments[i] == Value(s, atom.arguments[i])
  {
    Fact(atom.head, seq(|atom.arguments|, i requires 0 <= i < |atom.arguments| => Value(s, atom.arguments[i])))
  }

  predicate Satisfies(c: Constraint, s: seq<int>) {
    if c.equal then Value(s, c.var1) == Value(s, c.var2) else Value(s, c.var1) != Value(s, c.var2)
  }

  ghost predicate ConstraintsHold(act: Action, s: seq<int>) {
    forall c :: 0 <= c < |act.variableConstraints| ==> Satisfies(act.variableConstraints[c], s)
  }

  /** All ways to give the variables values of their sorts. */
  ghost function Assignments(inst: Instance, variableSorts: seq<nat>): (r: set<seq<int>>) {
    if variableSorts == [] then {[]} else
      var n := |variableSorts| - 1;
      set s, x | s in Assignments(inst, variableSorts[..n]) && x in Members(inst, variableSorts[n]) :: s + [x]
  }

  function Members(inst: Instance, sort: nat): seq<int> {
    if sort < |inst.sorts| then inst.sorts[sort] else []
  }

  ghost predicate WellSorted(inst: Instance, variableSorts: seq<nat>, s: seq<int>) {
    |s| == |variableSorts| && forall v :: 0 <= v < |s| ==> InSort(inst, variableSorts[v], s[v])
  }

  lemma {:induction false} AssignmentsAre(inst: Instance, variableSorts: seq<nat>, s: seq<int>)
    ensures s in Assignments(inst, variableSorts) <==> WellSorted(inst, variableSorts, s)
    decreases |variableSorts|
  {
    if variableSorts != [] {
      var n := |variableSorts| - 1;
      var front := variableSorts[..n];
      if s in Assignments(inst, variableSorts) {
        var t, x :| t in Assignments(inst, front) && x in Members(inst, variableSorts[n]) && s == t + [x];
        AssignmentsAre(inst, front, t);
        forall v | 0 <= v < |s| ensures InSort(inst, variableSorts[v], s[v]) {
          if v < n { assert InSort(inst, front[v], t[v]); }
        }
      }
      if WellSorted(inst, variableSorts, s) {
        AssignmentsAre(inst, front, s[..n]);
        assert s == s[..n] + [s[n]];
        assert InSort(inst, variableSorts[n], s[n]);
      }
    }
  }

  /** The well-sorted assignments of action a that satisfy its constraints. */
  ghost function Legal(inst: Instance, a: nat): (r: set<seq<int>>)
    requires a < |inst.actions|
    ensures forall s :: s in r <==> WellSorted(inst, inst.actions[a].variableSorts, s) && ConstraintsHold(inst.actions[a], s)
  {
    var all := Assignments(inst, inst.actions[a].variableSorts);
    assert forall s {:trigger s in all} :: s in all <==> WellSorted(inst, inst.actions[a].variableSorts, s) by {
      forall s: seq<int> ensures s in all <==> WellSorted(inst, inst.actions[a].variableSorts, s) { AssignmentsAre(inst, inst.actions[a].variableSorts, s); }
    }
    set s | s in all && ConstraintsHold(inst.actions[a], s)
  }

  /** All antecedents of action a under s lie in facts. */
  ghost predicate AllIn(act: Action, s: seq<int>, facts: set<Fact>) {
    forall p :: 0 <= p < |act.antecedents| ==> Ground(act.antecedents[p], s) in facts
  }

  ghost predicate Fires(inst: Instance, a: nat, s: seq<int>, facts: set<Fact>) {
    a < |inst.actions| && s in Legal(inst, a) && AllIn(inst.actions[a], s, facts)
  }

  // ----- derivation -----

  /** The initial facts and the consequences of everything that fires. */
  ghost predicate Closed(inst: Instance, facts: set<Fact>) {
    && (forall i :: 0 <= i < |inst.init| ==> inst.init[i] in facts)
    && (forall a: nat, s :: Fires(inst, a, s, facts) ==> Supplies(inst.actions[a], s, facts))
  }

  ghost predicate Supplies(act: Action, s: seq<int>, facts: set<Fact>) {
    forall c :: 0 <= c < |act.consequences| ==> Ground(act.consequences[c], s) in facts
  }

  ghost predicate Least(inst: Instance, facts: set<Fact>) {
    Closed(inst, facts) && forall t: set<Fact> :: Closed(inst, t) ==> facts <= t
  }

  ghost predicate Derivable(inst: Instance, f: Fact) {
    forall t: set<Fact> :: Closed(inst, t) ==> f in t
  }

  lemma FiresMore(inst: Instance, a: nat, s: seq<int>, facts: set<Fact>, more: set<Fact>)
    requires Fires(inst, a, s, facts) && facts <= more
    ensures Fires(inst, a, s, more)
  {
  }

  /** Consequences of derivable facts are derivable. */
  lemma DerivableStep(inst: Instance, a: nat, s: seq<int>, facts: set<Fact>, c: nat)
    requires Fires(inst, a, s, facts) && (forall f :: f in facts ==> Derivable(inst, f)) && c < |inst.actions[a].consequences|
    ensures Derivable(inst, Ground(inst.actions[a].consequences[c], s))
  {
    forall t: set<Fact> | Closed(inst, t) ensures Ground(inst.actions[a].consequences[c], s) in t {
      FiresMore(inst, a, s, facts, t);
      assert Supplies(inst.actions[a], s, t);
    }
  }

  /** There are finitely many facts to derive. */
  ghost function Universe(inst: Instance): (u: set<Fact>) {
    (set i | 0 <= i < |inst.init| :: inst.init[i]) + ConsequencesUpTo(inst, |inst.actions|)
  }

  ghost function ConsequencesUpTo(inst: Instance, n: nat): (u: set<Fact>)
    requires n <= |inst.actions|
  {
    if n == 0 then {} else
      ConsequencesUpTo(inst, n - 1) + (set s, c | s in Legal(inst, n - 1) && c in inst.actions[n - 1].consequences :: Ground(c, s))
  }

  lemma {:induction false} InUniverse(inst: Instance, n: nat, a: nat, s: seq<int>, c: nat)
    requires a < n <= |inst.actions| && s in Legal(inst, a) && c < |inst.actions[a].consequences|
    ensures Ground(inst.actions[a].consequences[c], s) in ConsequencesUpTo(inst, n)
    decreases n
  {
    if a < n - 1 {
      InUniverse(inst, n - 1, a, s, c);
    } else {
      var consequences := inst.actions[n - 1].consequences;
      assert consequences[c] in consequences;
    }
  }

  // ----- what is grounded -----

  datatype Key = Key(action: nat, arguments: seq<int>)

  ghost function Tagged(a: nat, s: set<seq<int>>): (r: set<Key>)
    ensures forall k: Key :: k in r <==> k.action == a && k.arguments in s
  {
    var r := set x | x in s :: Key(a, x);
    assert forall k: Key :: k.action == a && k.arguments in s ==> Key(a, k.arguments) in r;
    r
  }

  /** The ground instances whose antecedents lie in facts. */
  ghost predicate IsFiring(inst: Instance, facts: set<Fact>, k: Key) {
    Fires(inst, k.action, k.arguments, facts)
  }

  // ----- partial assignments -----

  ghost predicate Extends(s: seq<int>, partial: seq<int>) {
    |s| == |partial| && forall v :: 0 <= v < |s| && partial[v] != NOT_ASSIGNED ==> s[v] == partial[v]
  }

  /** Assigned variables have values of their sorts. */
  ghost predicate PartialOk(inst: Instance, act: Action, partial: seq<int>) {
    |partial| == |act.variableSorts| && forall v :: 0 <= v < |partial| && partial[v] != NOT_ASSIGNED ==> InSort(inst, act.variableSorts[v], partial[v])
  }

  ghost predicate Full(partial: seq<int>) {
    forall v :: 0 <= v < |partial| ==> partial[v] != NOT_ASSIGNED
  }

  ghost function Completions(inst: Instance, a: nat, partial: seq<int>): (r: set<seq<int>>)
    requires a < |inst.actions|
    ensures forall s :: s in r <==> s in Legal(inst, a) && Extends(s, partial)
  {
    set s | s in Legal(inst, a) && Extends(s, partial)
  }

  lemma FullCompletion(inst: Instance, a: nat, partial: seq<int>)
    requires a < |inst.actions| && PartialOk(inst, inst.actions[a], partial) && Full(partial)
    ensures Completions(inst, a, partial) == if ConstraintsHold(inst.actions[a], partial) then {partial} else {}
  {
    forall s | s in Completions(inst, a, partial) ensures s == partial {
      assert |s| == |partial| && forall v :: 0 <= v < |s| ==> s[v] == partial[v];
    }
    if ConstraintsHold(inst.actions[a], partial) {
      assert WellSorted(inst, inst.actions[a].variableSorts, partial);
      assert partial in Completions(inst, a, partial);
    } else {
      assert partial !in Legal(inst, a);
    }
  }

  /** The completions that give variable v one of the listed values. */
  ghost function Choices(inst: Instance, a: nat, partial: seq<int>, v: nat, values: seq<int>): (r: set<seq<int>>)
    requires a < |inst.actions|
    ensures forall s :: s in r <==> s in Completions(inst, a, partial) && Value(s, v) in values
  {
    set s | s in Completions(inst, a, partial) && Value(s, v) in values
  }

  lemma ChoiceStep(inst: Instance, a: nat, partial: seq<int>, v: nat, members: seq<int>, k: nat)
    requires a < |inst.actions| && v < |partial| && partial[v] == NOT_ASSIGNED && k < |members| && members[k] >= 0
    ensures Choices(inst, a, partial, v, members[..k + 1]) == Choices(inst, a, partial, v, members[..k]) + Completions(inst, a, partial[v := members[k]])
    ensures (forall i :: 0 <= i < k ==> members[i] != members[k]) ==>
      Choices(inst, a, partial, v, members[..k]) !! Completions(inst, a, partial[v := members[k]])
  {
    assert members[..k + 1] == members[..k] + [members[k]];
    var next := partial[v := members[k]];
    forall s | |s| == |partial| ensures Extends(s, next) <==> Extends(s, partial) && s[v] == members[k] {
      if Extends(s, next) { assert s[v] == next[v]; }
    }
  }

  lemma AllChoices(inst: Instance, a: nat, partial: seq<int>, v: nat)
    requires inst.Valid() && a < |inst.actions| && v < |partial| == |inst.actions[a].variableSorts|
    ensures Choices(inst, a, partial, v, inst.sorts[inst.actions[a].variableSorts[v]]) == Completions(inst, a, partial)
    ensures Choices(inst, a, partial, v, []) == {}
  {
    forall s | s in Completions(inst, a, partial) ensures Value(s, v) in inst.sorts[inst.actions[a].variableSorts[v]] {
      assert InSort(inst, inst.actions[a].variableSorts[v], s[v]);
    }
  }

  /** The number of assigned variables (model.cpp, VariableAssignment::size). */
  function Count(partial: seq<int>): (n: nat)
    ensures n <= |partial|
  {
    if partial == [] then 0 else Count(partial[..|partial| - 1]) + (if partial[|partial| - 1] == NOT_ASSIGNED then 0 else 1)
  }

  lemma {:induction false} CountFull(partial: seq<int>)
    ensures Count(partial) == |partial| <==> Full(partial)
    decreases |partial|
  {
    if partial != [] {
      var front := partial[..|partial| - 1];
      CountFull(front);
      if Full(partial) {
        assert Full(front);
      }
      if Count(partial) == |partial| {
        assert Full(front);
        forall v | 0 <= v < |partial| ensures partial[v] != NOT_ASSIGNED { if v < |front| { assert front[v] != NOT_ASSIGNED; } }
      }
    }
  }

  // ----- matching -----

  /** The fact can instantiate the atom: values of the right sorts, equal where the variable is the same. */
  ghost predicate Fits(inst: Instance, act: Action, atom: Atom, f: Fact) {
    && f.head == atom.head && |f.arguments| == |atom.arguments|
    && (forall i :: 0 <= i < |atom.arguments| ==> ArgumentFits(inst, act, atom.arguments[i], f.arguments[i]))
    && SameWhereSame(atom.arguments, f.arguments)
  }

  ghost predicate ArgumentFits(inst: Instance, act: Action, v: nat, c: int) {
    v < |act.variableSorts| && InSort(inst, act.variableSorts[v], c)
  }

  ghost predicate SameWhereSame(vars: seq<nat>, values: seq<int>) {
    |vars| == |values| && forall i, j :: 0 <= i < |vars| && 0 <= j < |vars| && vars[i] == vars[j] ==> values[i] == values[j]
  }

  lemma GroundFits(inst: Instance, a: nat, atom: Atom, s: seq<int>)
    requires a < |inst.actions| && s in Legal(inst, a) && inst.AtomOk(inst.actions[a], atom)
    ensures Fits(inst, inst.actions[a], atom, Ground(atom, s))
  {
  }

  /** The other antecedents from p on hold, and those after initially do not use the new fact f again (gpg.h:1027-1030). */
  ghost predicate Rest(act: Action, s: seq<int>, initially: nat, f: Fact, p: nat, known: set<Fact>) {
    forall q :: p <= q < |act.antecedents| && q != initially ==> RestAt(act, s, initially, f, q, known)
  }

  ghost predicate RestAt(act: Action, s: seq<int>, initially: nat, f: Fact, q: nat, known: set<Fact>)
    requires q < |act.antecedents|
  {
    Ground(act.antecedents[q], s) in known && (q > initially ==> Ground(act.antecedents[q], s) != f)
  }

  /** What a join from antecedent p on must produce. */
  ghost function Matches(inst: Instance, a: nat, partial: seq<int>, initially: nat, f: Fact, p: nat, known: set<Fact>): (r: set<seq<int>>)
    requires a < |inst.actions|
    ensures forall s :: s in r <==> s in Legal(inst, a) && Extends(s, partial) && Rest(inst.actions[a], s, initially, f, p, known)
  {
    set s | s in Legal(inst, a) && Extends(s, partial) && Rest(inst.actions[a], s, initially, f, p, known)
  }

  lemma MatchesEnd(inst: Instance, a: nat, partial: seq<int>, initially: nat, f: Fact, p: nat, known: set<Fact>)
    requires a < |inst.actions| && p >= |inst.actions[a].antecedents|
    ensures Matches(inst, a, partial, initially, f, p, known) == Completions(inst, a, partial)
  {
  }

  lemma MatchesSkip(inst: Instance, a: nat, partial: seq<int>, initially: nat, f: Fact, known: set<Fact>)
    requires a < |inst.actions| && initially < |inst.actions[a].antecedents|
    ensures Matches(inst, a, partial, initially, f, initially, known) == Matches(inst, a, partial, initially, f, initially + 1, known)
  {
  }

  /** The matches that use one of the listed facts for antecedent p. */
  ghost function Using(inst: Instance, a: nat, partial: seq<int>, initially: nat, f: Fact, p: nat, known: set<Fact>, facts: seq<Fact>): (r: set<seq<int>>)
    requires a < |inst.actions| && p < |inst.actions[a].antecedents|
    ensures forall s :: s in r <==> s in Matches(inst, a, partial, initially, f, p, known) && Ground(inst.actions[a].antecedents[p], s) in facts
  {
    set s | s in Matches(inst, a, partial, initially, f, p, known) && Ground(inst.actions[a].antecedents[p], s) in facts
  }

  /** next is partial with the variables of the atom bound to the arguments of g. */
  ghost predicate Binds(atom: Atom, g: Fact, partial: seq<int>, next: seq<int>) {
    && |next| == |partial| && |g.arguments| == |atom.arguments|
    && (forall v :: 0 <= v < |partial| && partial[v] != NOT_ASSIGNED ==> next[v] == partial[v])
    && (forall i :: 0 <= i < |atom.arguments| ==> Value(next, atom.arguments[i]) == g.arguments[i])
    && (forall v :: 0 <= v < |partial| && next[v] != partial[v] ==> v in atom.arguments)
  }

  lemma UsingNone(inst: Instance, a: nat, partial: seq<int>, initially: nat, f: Fact, p: nat, known: set<Fact>)
    requires a < |inst.actions| && p < |inst.actions[a].antecedents|
    ensures Using(inst, a, partial, initially, f, p, known, []) == {}
  {
  }

  lemma UsingSplit(inst: Instance, a: nat, partial: seq<int>, initially: nat, f: Fact, p: nat, known: set<Fact>, facts: seq<Fact>, k: nat)
    requires a < |inst.actions| && p < |inst.actions[a].antecedents| && k < |facts|
    ensures Using(inst, a, partial, initially, f, p, known, facts[..k + 1]) ==
      Using(inst, a, partial, initially, f, p, known, facts[..k]) + Using(inst, a, partial, initially, f, p, known, [facts[k]])
    ensures (forall i :: 0 <= i < k ==> facts[i] != facts[k]) ==>
      Using(inst, a, partial, initially, f, p, known, facts[..k]) !! Using(inst, a, partial, initially, f, p, known, [facts[k]])
    ensures Using(inst, a, partial, initially, f, p, known, [facts[k]]) <= Matches(inst, a, partial, initially, f, p, known)
  {
    assert facts[..k + 1] == facts[..k] + [facts[k]];
  }

  /** Repeating the new fact after initially is left to another call. */
  lemma UsingRepeated(inst: Instance, a: nat, partial: seq<int>, initially: nat, f: Fact, p: nat, known: set<Fact>)
    requires a < |inst.actions| && p < |inst.actions[a].antecedents| && p > initially
    ensures Using(inst, a, partial, initially, f, p, known, [f]) == {}
  {
    forall s | s in Matches(inst, a, partial, initially, f, p, known) ensures Ground(inst.actions[a].antecedents[p], s) != f {
      assert RestAt(inst.actions[a], s, initially, f, p, known);
    }
  }

  ghost predicate Clash(atom: Atom, g: Fact, partial: seq<int>) {
    exists i :: 0 <= i < |atom.arguments| && i < |g.arguments| && Value(partial, atom.arguments[i]) != NOT_ASSIGNED && Value(partial, atom.arguments[i]) != g.arguments[i]
  }

  /** A fact that contradicts the assignment is used by no match. */
  lemma UsingClash(inst: Instance, a: nat, partial: seq<int>, initially: nat, f: Fact, p: nat, known: set<Fact>, g: Fact)
    requires a < |inst.actions| && p < |inst.actions[a].antecedents| && Clash(inst.actions[a].antecedents[p], g, partial)
    ensures Using(inst, a, partial, initially, f, p, known, [g]) == {}
  {
    var atom := inst.actions[a].antecedents[p];
    var i :| 0 <= i < |atom.arguments| && i < |g.arguments| && Value(partial, atom.arguments[i]) != NOT_ASSIGNED && Value(partial, atom.arguments[i]) != g.arguments[i];
    forall s | s in Matches(inst, a, partial, initially, f, p, known) ensures Ground(atom, s) != g {
      assert s[atom.arguments[i]] == partial[atom.arguments[i]];
      assert Ground(atom, s).arguments[i] == Value(s, atom.arguments[i]);
    }
  }

  /** The matches that use the fact g are those of the remaining antecedents under the extended assignment. */
  lemma UsingNext(inst: Instance, a: nat, partial: seq<int>, initially: nat, f: Fact, p: nat, known: set<Fact>, g: Fact, next: seq<int>)
    requires a < |inst.actions| && p < |inst.actions[a].antecedents| && p != initially && g in known
    requires !(p > initially && g == f) && Fits(inst, inst.actions[a], inst.actions[a].antecedents[p], g) && inst.Valid()
    requires Binds(inst.actions[a].antecedents[p], g, partial, next)
    ensures Using(inst, a, partial, initially, f, p, known, [g]) == Matches(inst, a, next, initially, f, p + 1, known)
  {
    FitsValues(inst, inst.actions[a], inst.actions[a].antecedents[p], g);
    hide Binds, Fits, Instance.Valid;
    forall s ensures s in Matches(inst, a, next, initially, f, p + 1, known) <==>
      s in Matches(inst, a, partial, initially, f, p, known) && Ground(inst.actions[a].antecedents[p], s) == g
    {
      MatchStep(inst, a, partial, initially, f, p, known, g, next, s);
    }
  }

  lemma FitsValues(inst: Instance, act: Action, atom: Atom, g: Fact)
    requires inst.Valid() && Fits(inst, act, atom, g)
    ensures g.head == atom.head && forall i :: 0 <= i < |g.arguments| ==> g.arguments[i] >= 0
  {
    forall i | 0 <= i < |g.arguments| ensures g.arguments[i] >= 0 {
      assert ArgumentFits(inst, act, atom.arguments[i], g.arguments[i]);
      var sort := act.variableSorts[atom.arguments[i]];
      assert inst.SortOk(inst.sorts[sort]);
    }
  }

  lemma MatchStep(inst: Instance, a: nat, partial: seq<int>, initially: nat, f: Fact, p: nat, known: set<Fact>, g: Fact, next: seq<int>, s: seq<int>)
    requires a < |inst.actions| && p < |inst.actions[a].antecedents| && p != initially && g in known
    requires !(p > initially && g == f) && g.head == inst.actions[a].antecedents[p].head && Binds(inst.actions[a].antecedents[p], g, partial, next)
    requires forall i :: 0 <= i < |g.arguments| ==> g.arguments[i] >= 0
    ensures s in Matches(inst, a, next, initially, f, p + 1, known) <==>
      s in Matches(inst, a, partial, initially, f, p, known) && Ground(inst.actions[a].antecedents[p], s) == g
  {
    var act := inst.actions[a];
    var atom := act.antecedents[p];
    if s in Matches(inst, a, next, initially, f, p + 1, known) {
      BoundBy(atom, g, partial, next, s);
      assert RestAt(act, s, initially, f, p, known);
      forall q | p <= q < |act.antecedents| && q != initially ensures RestAt(act, s, initially, f, q, known) { }
    }
    if s in Matches(inst, a, partial, initially, f, p, known) && Ground(atom, s) == g {
      BindsBack(atom, g, partial, next, s);
      forall q | p + 1 <= q < |act.antecedents| && q != initially ensures RestAt(act, s, initially, f, q, known) { }
    }
  }

  lemma BoundBy(atom: Atom, g: Fact, partial: seq<int>, next: seq<int>, s: seq<int>)
    requires Binds(atom, g, partial, next) && Extends(s, next) && g.head == atom.head
    requires forall i :: 0 <= i < |g.arguments| ==> g.arguments[i] >= 0
    ensures Extends(s, partial) && Ground(atom, s) == g
  {
    forall i | 0 <= i < |atom.arguments| ensures Value(s, atom.arguments[i]) == g.arguments[i] {
      assert Value(next, atom.arguments[i]) == g.arguments[i] >= 0;
    }
    assert Ground(atom, s).arguments == g.arguments;
  }

  lemma BindsBack(atom: Atom, g: Fact, partial: seq<int>, next: seq<int>, s: seq<int>)
    requires Binds(atom, g, partial, next) && Extends(s, partial) && Ground(atom, s) == g
    ensures Extends(s, next)
  {
    forall v | 0 <= v < |s| && next[v] != NOT_ASSIGNED ensures s[v] == next[v] {
      if next[v] != partial[v] {
        var i :| 0 <= i < |atom.arguments| && atom.arguments[i] == v;
        assert Value(next, atom.arguments[i]) == g.arguments[i] == Value(s, atom.arguments[i]);
      }
    }
  }

  // ----- progress of a join -----

  /** The set of the listed facts. */
  ghost function FactSet(facts: seq<Fact>): (r: set<Fact>)
    ensures forall f :: f in r <==> f in facts
  {
    set f | f in facts
  }

  ghost predicate Bound(atom: Atom, partial: seq<int>) {
    forall i :: 0 <= i < |atom.arguments| ==> Value(partial, atom.arguments[i]) != NOT_ASSIGNED
  }

  ghost predicate BoundBelow(act: Action, partial: seq<int>, p: nat, initially: nat) {
    forall q :: 0 <= q < |act.antecedents| && (q < p || q == initially) ==> Bound(act.antecedents[q], partial)
  }

  lemma BoundGround(atom: Atom, partial: seq<int>, s: seq<int>)
    requires Bound(atom, partial) && Extends(s, partial)
    ensures Ground(atom, s) == Ground(atom, partial)
  {
    forall i | 0 <= i < |atom.arguments| ensures Value(s, atom.arguments[i]) == Value(partial, atom.arguments[i]) {
      assert Value(partial, atom.arguments[i]) != NOT_ASSIGNED;
    }
    assert Ground(atom, s).arguments == Ground(atom, partial).arguments;
  }

  lemma BoundBelowNext(act: Action, partial: seq<int>, next: seq<int>, p: nat, initially: nat, g: Fact, inst: Instance)
    requires p < |act.antecedents| && BoundBelow(act, partial, p, initially) && Binds(act.antecedents[p], g, partial, next)
    requires inst.Valid() && Fits(inst, act, act.antecedents[p], g)
    ensures BoundBelow(act, next, p + 1, initially) && Extends(next, partial)
  {
    FitsValues(inst, act, act.antecedents[p], g);
    hide Fits, Instance.Valid;
    forall q | 0 <= q < |act.antecedents| && (q < p + 1 || q == initially) ensures Bound(act.antecedents[q], next) {
      if q != p {
        BoundMore(act.antecedents[q], partial, next);
      } else {
        forall i | 0 <= i < |act.antecedents[p].arguments| ensures Value(next, act.antecedents[p].arguments[i]) != NOT_ASSIGNED {
          assert Value(next, act.antecedents[p].arguments[i]) == g.arguments[i] >= 0;
        }
      }
    }
  }

  lemma BoundMore(atom: Atom, partial: seq<int>, next: seq<int>)
    requires Bound(atom, partial) && Extends(next, partial)
    ensures Bound(atom, next)
  {
    forall i | 0 <= i < |atom.arguments| ensures Value(next, atom.arguments[i]) != NOT_ASSIGNED {
      assert Value(partial, atom.arguments[i]) != NOT_ASSIGNED;
    }
  }
}
