/** The preprocessed rules and the fact index of the grounder (gpg.h:155-310, 375-400): facts are found by the values of the variables
    that are assigned when an antecedent is reached. */
module FactIndex {
  import opened Rules

  // ----- preprocessing (155-312) -----

  /** ids maps the initially matched antecedent, or -1, to the position in sets of the variables assigned before this antecedent. */
  datatype Antecedent = Antecedent(ids: map<int, nat>, sets: seq<set<nat>>, identical: seq<seq<nat>>)

  datatype Prepared = Prepared(antecedents: seq<seq<Antecedent>>, byPredicate: seq<seq<(nat, nat)>>, eligible: seq<set<nat>>)

  function Vars(atom: Atom): (v: set<nat>)
    ensures forall x :: x in v <==> x in atom.arguments
  {
    set x | x in atom.arguments
  }

  ghost function VarsBefore(act: Action, p: nat): (v: set<nat>)
    requires p <= |act.antecedents|
    ensures forall q, x :: 0 <= q < p && x in act.antecedents[q].arguments ==> x in v
    ensures forall x :: x in v ==> exists q :: 0 <= q < p && x in act.antecedents[q].arguments
  {
    if p == 0 then {} else VarsBefore(act, p - 1) + Vars(act.antecedents[p - 1])
  }

  /** The variables assigned when antecedent p is reached and antecedent initially has been matched first (-1: none that counts). */
  ghost function AssignedBefore(act: Action, p: nat, initially: int): (v: set<nat>)
    requires p <= |act.antecedents|
  {
    if initially >= 0 && initially < |act.antecedents| then VarsBefore(act, p) + Vars(act.antecedents[initially]) else VarsBefore(act, p)
  }

  /** Some variable is not a constant. */
  ghost predicate Eligible(inst: Instance, act: Action, atom: Atom) {
    exists i :: 0 <= i < |atom.arguments| && |Members(inst, SortOf(act, atom.arguments[i]))| != 1
  }

  function SortOf(act: Action, v: nat): nat {
    if v < |act.variableSorts| then act.variableSorts[v] else 0
  }

  ghost predicate AntecedentOk(act: Action, p: nat, eligible: set<nat>, e: Antecedent)
    requires p < |act.antecedents|
  {
    && (forall i :: i in e.ids <==> i == -1 || (i >= 0 && i in eligible))
    && (forall i :: i in e.ids ==> e.ids[i] < |e.sets| && e.sets[e.ids[i]] == AssignedBefore(act, p, i))
    && e.ids[-1] == 0
    && (forall f: Fact :: |f.arguments| == |act.antecedents[p].arguments| ==>
          (GroupsAgree(e.identical, f) <==> SameWhereSame(act.antecedents[p].arguments, f.arguments)))
  }

  ghost predicate GroupsAgree(groups: seq<seq<nat>>, f: Fact) {
    forall g :: 0 <= g < |groups| ==> GroupAgrees(groups[g], f)
  }

  ghost predicate GroupAgrees(group: seq<nat>, f: Fact) {
    |group| > 0 && group[0] < |f.arguments| && forall i :: 0 <= i < |group| ==> group[i] < |f.arguments| && f.arguments[group[i]] == f.arguments[group[0]]
  }

  ghost predicate InRange(inst: Instance, a: nat, p: nat) {
    a < |inst.actions| && p < |inst.actions[a].antecedents|
  }

  ghost predicate ActionPrepared(inst: Instance, act: Action, eligible: set<nat>, es: seq<Antecedent>) {
    && |es| == |act.antecedents|
    && (forall q: nat :: q in eligible <==> q < |act.antecedents| && Eligible(inst, act, act.antecedents[q]))
    && (forall p :: 0 <= p < |es| ==> AntecedentOk(act, p, eligible, es[p]))
  }

  ghost predicate PreparedOk(inst: Instance, prep: Prepared) {
    && |prep.antecedents| == |inst.actions| == |prep.eligible| && |prep.byPredicate| == |inst.arity|
    && (forall a :: 0 <= a < |inst.actions| ==> ActionPrepared(inst, inst.actions[a], prep.eligible[a], prep.antecedents[a]))
    && (forall h :: 0 <= h < |inst.arity| ==> PairsOk(inst, h, prep.byPredicate[h]))
  }

  /** The list holds every antecedent with head h once. */
  ghost predicate PairsOk(inst: Instance, h: nat, pairs: seq<(nat, nat)>) {
    && (forall k :: 0 <= k < |pairs| ==> InRange(inst, pairs[k].0, pairs[k].1) && inst.actions[pairs[k].0].antecedents[pairs[k].1].head == h)
    && (forall k, l :: 0 <= k < l < |pairs| ==> pairs[k] != pairs[l])
    && (forall a: nat, p: nat :: InRange(inst, a, p) && inst.actions[a].antecedents[p].head == h ==> (a, p) in pairs)
  }

  /** Lines 228-240: the positions of every variable that occurs more than once. */
  method IdenticalArguments(atom: Atom) returns (groups: seq<seq<nat>>)
    ensures forall f: Fact :: |f.arguments| == |atom.arguments| ==> (GroupsAgree(groups, f) <==> SameWhereSame(atom.arguments, f.arguments))
  {
    hide GroupsAgree, SameWhereSame, PositionsOf, IsGroup;
    var variablesAt := VariablesAt(atom.arguments);
    groups := [];
    var left := variablesAt.Keys;
    while left != {}
      invariant left <= variablesAt.Keys
      invariant forall v :: v in variablesAt && v !in left ==> |variablesAt[v]| <= 1 || variablesAt[v] in groups
      invariant forall g :: 0 <= g < |groups| ==> IsGroup(atom.arguments, groups[g])
      decreases |left|
    {
      var v := Pick(left);
      left := left - {v};
      if |variablesAt[v]| > 1 {
        OneGroup(atom.arguments, v, variablesAt[v]);
        groups := groups + [variablesAt[v]];
      }
    }
    GroupsSuffice(atom.arguments, variablesAt, groups);
  }

  method VariablesAt(vars: seq<nat>) returns (variablesAt: map<nat, seq<nat>>)
    ensures forall v :: v in variablesAt <==> v in vars
    ensures forall v :: v in variablesAt ==> PositionsOf(vars, |vars|, v, variablesAt[v])
  {
    variablesAt := map[];
    for i := 0 to |vars|
      invariant forall v :: v in variablesAt <==> v in vars[..i]
      invariant forall v :: v in variablesAt ==> PositionsOf(vars, i, v, variablesAt[v])
    {
      var v := vars[i];
      assert vars[..i + 1] == vars[..i] + [v];
      PositionsNext(vars, i, if v in variablesAt then variablesAt[v] else []);
      ghost var before := variablesAt;
      variablesAt := variablesAt[v := (if v in variablesAt then variablesAt[v] else []) + [i]];
      forall w | w in variablesAt ensures PositionsOf(vars, i + 1, w, variablesAt[w]) {
        if w != v { assert PositionsOf(vars, i, w, before[w]); }
      }
    }
    assert vars[..|vars|] == vars;
  }

  lemma OneGroup(vars: seq<nat>, v: nat, positions: seq<nat>)
    requires PositionsOf(vars, |vars|, v, positions) && |positions| > 1
    ensures IsGroup(vars, positions)
  {
  }

  method Pick<T(==)>(s: set<T>) returns (x: T)
    requires s != {}
    ensures x in s
  {
    x :| x in s;
  }

  ghost predicate PositionsOf(vars: seq<nat>, n: nat, v: nat, positions: seq<nat>)
    requires n <= |vars|
  {
    (forall k :: 0 <= k < |positions| ==> positions[k] < n && vars[positions[k]] == v) && (forall i: nat :: i < n && vars[i] == v ==> i in positions)
  }

  lemma PositionsNext(vars: seq<nat>, n: nat, positions: seq<nat>)
    requires n < |vars| && (PositionsOf(vars, n, vars[n], positions) || (vars[n] !in vars[..n] && positions == []))
    ensures PositionsOf(vars, n + 1, vars[n], positions + [n])
  {
    forall i: nat | i < n + 1 && vars[i] == vars[n] ensures i in positions + [n] {
      if i < n { assert vars[i] in vars[..n]; }
    }
  }

  ghost predicate IsGroup(vars: seq<nat>, group: seq<nat>) {
    |group| > 1 && group[0] < |vars| && forall k :: 0 <= k < |group| ==> group[k] < |vars| && vars[group[k]] == vars[group[0]]
  }

  lemma GroupsSuffice(vars: seq<nat>, variablesAt: map<nat, seq<nat>>, groups: seq<seq<nat>>)
    requires forall v :: v in variablesAt <==> v in vars
    requires forall v :: v in variablesAt ==> PositionsOf(vars, |vars|, v, variablesAt[v])
    requires forall v :: v in variablesAt ==> |variablesAt[v]| <= 1 || variablesAt[v] in groups
    requires forall g :: 0 <= g < |groups| ==> IsGroup(vars, groups[g])
    ensures forall f: Fact :: |f.arguments| == |vars| ==> (GroupsAgree(groups, f) <==> SameWhereSame(vars, f.arguments))
  {
    forall f: Fact | |f.arguments| == |vars| ensures GroupsAgree(groups, f) <==> SameWhereSame(vars, f.arguments) {
      if SameWhereSame(vars, f.arguments) {
        forall g | 0 <= g < |groups| ensures GroupAgrees(groups[g], f) { assert IsGroup(vars, groups[g]); }
      }
      if GroupsAgree(groups, f) {
        forall i, j | 0 <= i < |vars| && 0 <= j < |vars| && vars[i] == vars[j] ensures f.arguments[i] == f.arguments[j] {
          SameGroup(vars, variablesAt, groups, f, i, j);
        }
      }
    }
  }

  lemma SameGroup(vars: seq<nat>, variablesAt: map<nat, seq<nat>>, groups: seq<seq<nat>>, f: Fact, i: nat, j: nat)
    requires i < |vars| && j < |vars| && vars[i] == vars[j] && vars[i] in variablesAt && PositionsOf(vars, |vars|, vars[i], variablesAt[vars[i]])
    requires |variablesAt[vars[i]]| <= 1 || variablesAt[vars[i]] in groups
    requires GroupsAgree(groups, f) && |f.arguments| == |vars|
    ensures f.arguments[i] == f.arguments[j]
  {
    var group := variablesAt[vars[i]];
    assert i in group && j in group;
    if |group| > 1 {
      var g :| 0 <= g < |groups| && groups[g] == group;
      assert GroupAgrees(groups[g], f);
    }
  }

  /** Lines 242-256. */
  method EligibleAntecedents(inst: Instance, act: Action) returns (eligible: set<nat>)
    requires inst.Valid() && inst.ActionOk(act)
    ensures forall q: nat :: q in eligible <==> q < |act.antecedents| && Eligible(inst, act, act.antecedents[q])
  {
    eligible := {};
    for p := 0 to |act.antecedents|
      invariant forall q: nat :: q in eligible <==> q < p && Eligible(inst, act, act.antecedents[q])
    {
      var atom := act.antecedents[p];
      assert inst.AtomOk(act, atom);
      var allVariablesAreConstants := true;
      for i := 0 to |atom.arguments|
        invariant allVariablesAreConstants <==> forall j :: 0 <= j < i ==> |Members(inst, SortOf(act, atom.arguments[j]))| == 1
      {
        allVariablesAreConstants := allVariablesAreConstants && |inst.sorts[act.variableSorts[atom.arguments[i]]]| == 1;
      }
      if !allVariablesAreConstants { eligible := eligible + {p}; }
    }
  }

  /** Lines 257-298: the variable sets for one antecedent. */
  method AssignedVariables(act: Action, p: nat, eligible: set<nat>, already: set<nat>) returns (ids: map<int, nat>, sets: seq<set<nat>>)
    requires p < |act.antecedents| && (forall q :: q in eligible ==> q < |act.antecedents|) && already == VarsBefore(act, p)
    ensures forall i :: i in ids <==> i == -1 || (i >= 0 && i in eligible)
    ensures forall i :: i in ids ==> ids[i] < |sets| && sets[ids[i]] == AssignedBefore(act, p, i)
    ensures ids[-1] == 0
  {
    ids, sets := map[-1 := 0], [already];
    for q := 0 to |act.antecedents|
      invariant |sets| > 0 && -1 in ids && ids[-1] == 0
      invariant forall i :: i in ids <==> i == -1 || (0 <= i < q && i in eligible)
      invariant forall i :: i in ids ==> ids[i] < |sets| && sets[ids[i]] == AssignedBefore(act, p, i)
    {
      if q in eligible {
        var inner := already;
        var atom := act.antecedents[q];
        for j := 0 to |atom.arguments|
          invariant inner == already + (set x | x in atom.arguments[..j])
        {
          assert atom.arguments[..j + 1] == atom.arguments[..j] + [atom.arguments[j]];
          inner := inner + {atom.arguments[j]};
        }
        assert atom.arguments[..|atom.arguments|] == atom.arguments;
        assert inner == AssignedBefore(act, p, q);
        var id := 0;
        while id < |sets| && sets[id] != inner
          invariant id <= |sets|
          decreases |sets| - id
        {
          id := id + 1;
        }
        if id == |sets| { sets := sets + [inner]; }
        ids := ids[q := id];
      }
    }
  }

  method PrepareAntecedent(act: Action, p: nat, eligible: set<nat>, already: set<nat>) returns (e: Antecedent)
    requires p < |act.antecedents| && (forall q :: q in eligible ==> q < |act.antecedents|) && already == VarsBefore(act, p)
    ensures AntecedentOk(act, p, eligible, e)
  {
    hide GroupsAgree, SameWhereSame, AssignedBefore, VarsBefore;
    var identical := IdenticalArguments(act.antecedents[p]);
    var ids, sets := AssignedVariables(act, p, eligible, already);
    e := Antecedent(ids, sets, identical);
  }

  lemma BeforeNext(act: Action, p: nat)
    requires p < |act.antecedents|
    ensures VarsBefore(act, 0) == {}
    ensures VarsBefore(act, p + 1) == VarsBefore(act, p) + Vars(act.antecedents[p])
  {
  }

  method PrepareAntecedents(act: Action, eligible: set<nat>) returns (es: seq<Antecedent>)
    requires forall q :: q in eligible ==> q < |act.antecedents|
    ensures |es| == |act.antecedents| && forall p :: 0 <= p < |es| ==> AntecedentOk(act, p, eligible, es[p])
  {
    hide AntecedentOk, VarsBefore, Vars;
    es := [];
    if |act.antecedents| == 0 { return; }
    BeforeNext(act, 0);
    var already: set<nat> := {};
    var p := 0;
    while p < |act.antecedents|
      invariant p <= |act.antecedents| && |es| == p && already == VarsBefore(act, p)
      invariant forall q :: 0 <= q < p ==> AntecedentOk(act, q, eligible, es[q])
    {
      var e := PrepareAntecedent(act, p, eligible, already);
      es := es + [e];
      BeforeNext(act, p);
      already := already + Vars(act.antecedents[p]);
      p := p + 1;
    }
  }

  method PrepareAction(inst: Instance, act: Action) returns (eligible: set<nat>, es: seq<Antecedent>)
    requires inst.Valid() && inst.ActionOk(act)
    ensures ActionPrepared(inst, act, eligible, es)
  {
    eligible := EligibleAntecedents(inst, act);
    hide Eligible, AntecedentOk;
    es := PrepareAntecedents(act, eligible);
  }

  ghost predicate PairsUpTo(inst: Instance, h: nat, pairs: seq<(nat, nat)>, n: nat, m: nat) {
    && (forall k :: 0 <= k < |pairs| ==> InRange(inst, pairs[k].0, pairs[k].1) && inst.actions[pairs[k].0].antecedents[pairs[k].1].head == h)
    && (forall k :: 0 <= k < |pairs| ==> pairs[k].0 < n || (pairs[k].0 == n && pairs[k].1 < m))
    && (forall k, l :: 0 <= k < l < |pairs| ==> pairs[k] != pairs[l])
    && (forall a: nat, p: nat :: InRange(inst, a, p) && (a < n || (a == n && p < m)) && inst.actions[a].antecedents[p].head == h ==> (a, p) in pairs)
  }

  lemma PairsSnoc(inst: Instance, h: nat, pairs: seq<(nat, nat)>, n: nat, m: nat)
    requires PairsUpTo(inst, h, pairs, n, m) && InRange(inst, n, m)
    ensures PairsUpTo(inst, h, if inst.actions[n].antecedents[m].head == h then pairs + [(n, m)] else pairs, n, m + 1)
  {
    forall a: nat, p: nat | InRange(inst, a, p) && (a < n || (a == n && p < m + 1)) && inst.actions[a].antecedents[p].head == h
      ensures (a, p) in (if inst.actions[n].antecedents[m].head == h then pairs + [(n, m)] else pairs)
    {
      if a != n || p != m { assert (a, p) in pairs; }
    }
  }

  /** Line 308. */
  method GroupByPredicate(inst: Instance) returns (byPredicate: seq<seq<(nat, nat)>>)
    requires inst.Valid()
    ensures |byPredicate| == |inst.arity| && forall h :: 0 <= h < |inst.arity| ==> PairsOk(inst, h, byPredicate[h])
  {
    byPredicate := seq(|inst.arity|, _ => []);
    for a := 0 to |inst.actions|
      invariant |byPredicate| == |inst.arity| && forall h :: 0 <= h < |inst.arity| ==> PairsUpTo(inst, h, byPredicate[h], a, 0)
    {
      var act := inst.actions[a];
      assert inst.ActionOk(act);
      for p := 0 to |act.antecedents|
        invariant |byPredicate| == |inst.arity| && forall h :: 0 <= h < |inst.arity| ==> PairsUpTo(inst, h, byPredicate[h], a, p)
      {
        var head := act.antecedents[p].head;
        assert inst.AtomOk(act, act.antecedents[p]);
        ghost var before := byPredicate;
        byPredicate := byPredicate[head := byPredicate[head] + [(a, p)]];
        hide PairsUpTo;
        forall h | 0 <= h < |inst.arity| ensures PairsUpTo(inst, h, byPredicate[h], a, p + 1) { PairsSnoc(inst, h, before[h], a, p); }
      }
      NextAction(inst, byPredicate, a);
    }
    AllPairs(inst, byPredicate);
  }

  lemma NextAction(inst: Instance, byPredicate: seq<seq<(nat, nat)>>, a: nat)
    requires a < |inst.actions| && |byPredicate| == |inst.arity|
    requires forall h :: 0 <= h < |inst.arity| ==> PairsUpTo(inst, h, byPredicate[h], a, |inst.actions[a].antecedents|)
    ensures forall h :: 0 <= h < |inst.arity| ==> PairsUpTo(inst, h, byPredicate[h], a + 1, 0)
  {
  }

  lemma AllPairs(inst: Instance, byPredicate: seq<seq<(nat, nat)>>)
    requires |byPredicate| == |inst.arity| && forall h :: 0 <= h < |inst.arity| ==> PairsUpTo(inst, h, byPredicate[h], |inst.actions|, 0)
    ensures forall h :: 0 <= h < |inst.arity| ==> PairsOk(inst, h, byPredicate[h])
  {
  }

  method Prepare(inst: Instance) returns (prep: Prepared)
    requires inst.Valid()
    ensures PreparedOk(inst, prep)
  {
    hide ActionPrepared, PairsOk, Instance.ActionOk;
    var antecedents, eligible := [], [];
    for a := 0 to |inst.actions|
      invariant |antecedents| == |eligible| == a
      invariant forall b :: 0 <= b < a ==> ActionPrepared(inst, inst.actions[b], eligible[b], antecedents[b])
    {
      var el, es := PrepareAction(inst, inst.actions[a]);
      antecedents, eligible := antecedents + [es], eligible + [el];
    }
    var byPredicate := GroupByPredicate(inst);
    prep := Prepared(antecedents, byPredicate, eligible);
  }

  // ----- the tables (375-400) -----

  datatype Slot = Slot(action: nat, antecedent: nat, id: nat)

  datatype Entry = Entry(action: nat, next: nat, future: nat, initially: int, values: seq<int>)

  type FactMap = map<Slot, map<seq<int>, seq<nat>>>

  /** The values of the positions among the first k whose variable is in v. */
  ghost function ProjectUpTo(vars: seq<nat>, values: seq<int>, v: set<nat>, k: nat): seq<int>
    requires k <= |vars| == |values|
  {
    if k == 0 then [] else ProjectUpTo(vars, values, v, k - 1) + (if vars[k - 1] in v then [values[k - 1]] else [])
  }

  ghost function Project(vars: seq<nat>, values: seq<int>, v: set<nat>): seq<int>
    requires |vars| == |values|
  {
    ProjectUpTo(vars, values, v, |vars|)
  }

  lemma {:induction false} ProjectAgree(vars: seq<nat>, x: seq<int>, y: seq<int>, v: set<nat>, k: nat)
    requires k <= |vars| == |x| == |y| && forall i :: 0 <= i < |vars| && vars[i] in v ==> x[i] == y[i]
    ensures ProjectUpTo(vars, x, v, k) == ProjectUpTo(vars, y, v, k)
    decreases k
  {
    if k > 0 { ProjectAgree(vars, x, y, v, k - 1); }
  }

  ghost predicate HasFact(inst: Instance, act: Action, atom: Atom, added: seq<Fact>) {
    exists x :: 0 <= x < |added| && Fits(inst, act, atom, added[x])
  }

  ghost predicate FitsAt(inst: Instance, act: Action, atom: Atom, v: set<nat>, f: Fact, key: seq<int>) {
    Fits(inst, act, atom, f) && Project(atom.arguments, f.arguments, v) == key
  }

  /** One map of the index: under every key exactly the fitting facts with these values, each once. */
  ghost predicate SlotOk(inst: Instance, act: Action, atom: Atom, v: set<nat>, added: seq<Fact>, m: map<seq<int>, seq<nat>>) {
    && (forall key :: key in m ==> ListOk(inst, act, atom, v, added, key, m[key]))
    && (forall x: nat, key :: x < |added| && FitsAt(inst, act, atom, v, added[x], key) ==> key in m && x in m[key])
  }

  ghost predicate ListOk(inst: Instance, act: Action, atom: Atom, v: set<nat>, added: seq<Fact>, key: seq<int>, list: seq<nat>) {
    && (forall i :: 0 <= i < |list| ==> list[i] < |added| && FitsAt(inst, act, atom, v, added[list[i]], key))
    && (forall i, j :: 0 <= i < j < |list| ==> list[i] < list[j])
  }

  lemma SlotAdd(inst: Instance, act: Action, atom: Atom, v: set<nat>, added: seq<Fact>, m: map<seq<int>, seq<nat>>, f: Fact, key: seq<int>)
    requires SlotOk(inst, act, atom, v, added, m) && FitsAt(inst, act, atom, v, f, key)
    ensures SlotOk(inst, act, atom, v, added + [f], m[key := (if key in m then m[key] else []) + [|added|]])
  {
    hide Fits, Project, SlotOk;
    var m2 := m[key := (if key in m then m[key] else []) + [|added|]];
    forall k | k in m2 ensures ListOk(inst, act, atom, v, added + [f], k, m2[k]) {
      SlotList(inst, act, atom, v, added, m, k);
      if k == key {
        ListAdd(inst, act, atom, v, added, key, if key in m then m[key] else [], f);
      } else {
        ListKeep(inst, act, atom, v, added, k, m[k], f);
      }
    }
    forall x: nat, k | x < |added + [f]| && FitsAt(inst, act, atom, v, (added + [f])[x], k) ensures k in m2 && x in m2[k] {
      if x < |added| { SlotHas(inst, act, atom, v, added, m, x, k); }
    }
    SlotFrom(inst, act, atom, v, added + [f], m2);
  }

  lemma SlotList(inst: Instance, act: Action, atom: Atom, v: set<nat>, added: seq<Fact>, m: map<seq<int>, seq<nat>>, key: seq<int>)
    requires SlotOk(inst, act, atom, v, added, m)
    ensures ListOk(inst, act, atom, v, added, key, if key in m then m[key] else [])
  {
  }

  lemma SlotHas(inst: Instance, act: Action, atom: Atom, v: set<nat>, added: seq<Fact>, m: map<seq<int>, seq<nat>>, x: nat, key: seq<int>)
    requires SlotOk(inst, act, atom, v, added, m) && x < |added| && FitsAt(inst, act, atom, v, added[x], key)
    ensures key in m && x in m[key]
  {
  }

  lemma SlotFrom(inst: Instance, act: Action, atom: Atom, v: set<nat>, added: seq<Fact>, m: map<seq<int>, seq<nat>>)
    requires forall key :: key in m ==> ListOk(inst, act, atom, v, added, key, m[key])
    requires forall x: nat, key :: x < |added| && FitsAt(inst, act, atom, v, added[x], key) ==> key in m && x in m[key]
    ensures SlotOk(inst, act, atom, v, added, m)
  {
  }

  lemma ListAdd(inst: Instance, act: Action, atom: Atom, v: set<nat>, added: seq<Fact>, key: seq<int>, list: seq<nat>, f: Fact)
    requires ListOk(inst, act, atom, v, added, key, list) && FitsAt(inst, act, atom, v, f, key)
    ensures ListOk(inst, act, atom, v, added + [f], key, list + [|added|])
  {
  }

  lemma ListKeep(inst: Instance, act: Action, atom: Atom, v: set<nat>, added: seq<Fact>, key: seq<int>, list: seq<nat>, f: Fact)
    requires ListOk(inst, act, atom, v, added, key, list)
    ensures ListOk(inst, act, atom, v, added + [f], key, list)
  {
  }

  lemma SlotKeep(inst: Instance, act: Action, atom: Atom, v: set<nat>, added: seq<Fact>, m: map<seq<int>, seq<nat>>, f: Fact)
    requires SlotOk(inst, act, atom, v, added, m) && !Fits(inst, act, atom, f)
    ensures SlotOk(inst, act, atom, v, added + [f], m)
  {
    hide Fits, Project;
    forall k | k in m ensures ListOk(inst, act, atom, v, added + [f], k, m[k]) {
      ListKeep(inst, act, atom, v, added, k, m[k], f);
    }
  }

  /** All maps for antecedent p of action a; the first one is empty exactly when no fact fits. */
  ghost predicate Indexed(inst: Instance, act: Action, a: nat, p: nat, sets: seq<set<nat>>, added: seq<Fact>, factMap: FactMap)
    requires p < |act.antecedents|
  {
    && (forall id: nat :: id < |sets| ==> SlotIndexed(inst, act, act.antecedents[p], sets[id], Slot(a, p, id), added, factMap))
    && (Slot(a, p, 0) in factMap && factMap[Slot(a, p, 0)] != map[] ==> HasFact(inst, act, act.antecedents[p], added))
  }

  ghost predicate SlotIndexed(inst: Instance, act: Action, atom: Atom, v: set<nat>, slot: Slot, added: seq<Fact>, factMap: FactMap) {
    slot in factMap && SlotOk(inst, act, atom, v, added, factMap[slot])
  }

  /** The antecedents of action a for which there is no fact. */
  ghost function Lacking(inst: Instance, act: Action, added: seq<Fact>): (r: set<nat>)
    ensures forall p: nat :: p in r <==> p < |act.antecedents| && !HasFact(inst, act, act.antecedents[p], added)
  {
    set p: nat | p < |act.antecedents| && !HasFact(inst, act, act.antecedents[p], added)
  }

  function AssignedSet(e: Antecedent, initially: int): set<nat> {
    if initially in e.ids && e.ids[initially] < |e.sets| then e.sets[e.ids[initially]] else {}
  }

  /** Whatever fits antecedent q is noted for every earlier point of a join. */
  ghost predicate FutureOk(inst: Instance, act: Action, a: nat, q: nat, es: seq<Antecedent>, eligible: set<nat>, caching: bool, added: seq<Fact>, consistency: set<Entry>)
    requires q < |act.antecedents|
  {
    forall x: nat, next: nat, i: int :: x < |added| && next <= q && CachedFor(i, eligible, caching) && Fits(inst, act, act.antecedents[q], added[x]) && next < |es| ==>
      Entry(a, next, q, i, Project(act.antecedents[q].arguments, added[x].arguments, AssignedSet(es[next], i))) in consistency
  }

  predicate CachedFor(i: int, eligible: set<nat>, caching: bool) {
    i == -1 || (caching && i >= 0 && i in eligible)
  }
}
