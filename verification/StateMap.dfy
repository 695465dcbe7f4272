/** The grounder's fact index and its look-ahead table as they are kept up to date (gpg.h:361-641). */
module StateMap {
  import opened Rules
  import opened FactIndex

  // ----- what the tables hold -----

  function SetsOf(prep: Prepared, a: nat, p: nat): seq<set<nat>> {
    if a < |prep.antecedents| && p < |prep.antecedents[a]| then prep.antecedents[a][p].sets else []
  }

  function EntriesOf(prep: Prepared, a: nat): seq<Antecedent> {
    if a < |prep.antecedents| then prep.antecedents[a] else []
  }

  function EligibleOf(prep: Prepared, a: nat): set<nat> {
    if a < |prep.eligible| then prep.eligible[a] else {}
  }

  ghost predicate Tables(inst: Instance, prep: Prepared, added: seq<Fact>, factMap: FactMap) {
    forall a: nat, p: nat :: InRange(inst, a, p) ==> Indexed(inst, inst.actions[a], a, p, SetsOf(prep, a, p), added, factMap)
  }

  ghost predicate Counters(inst: Instance, added: seq<Fact>, without: seq<nat>) {
    |without| == |inst.actions| && forall a :: 0 <= a < |without| ==> without[a] == |Lacking(inst, inst.actions[a], added)|
  }

  ghost predicate Futures(inst: Instance, prep: Prepared, caching: bool, added: seq<Fact>, prune: seq<bool>, consistency: set<Entry>) {
    |prune| == |inst.actions| && forall a: nat, q: nat :: InRange(inst, a, q) && prune[a] ==>
      FutureOk(inst, inst.actions[a], a, q, EntriesOf(prep, a), EligibleOf(prep, a), caching, added, consistency)
  }

  // While the fact f is inserted at the first k pairs.

  ghost function Upto(added: seq<Fact>, f: Fact, pairs: seq<(nat, nat)>, k: nat, a: nat, p: nat): seq<Fact>
    requires k <= |pairs|
  {
    if (a, p) in pairs[..k] then added + [f] else added
  }

  ghost predicate TablesMid(inst: Instance, prep: Prepared, added: seq<Fact>, f: Fact, pairs: seq<(nat, nat)>, k: nat, factMap: FactMap)
    requires k <= |pairs|
  {
    forall a: nat, p: nat :: InRange(inst, a, p) ==> Indexed(inst, inst.actions[a], a, p, SetsOf(prep, a, p), Upto(added, f, pairs, k, a, p), factMap)
  }

  ghost function LackingMid(inst: Instance, a: nat, added: seq<Fact>, f: Fact, pairs: seq<(nat, nat)>, k: nat): (r: set<nat>)
    requires a < |inst.actions| && k <= |pairs|
    ensures forall p: nat :: p in r <==> p < |inst.actions[a].antecedents| && !HasFact(inst, inst.actions[a], inst.actions[a].antecedents[p], Upto(added, f, pairs, k, a, p))
  {
    set p: nat | p < |inst.actions[a].antecedents| && !HasFact(inst, inst.actions[a], inst.actions[a].antecedents[p], Upto(added, f, pairs, k, a, p))
  }

  ghost predicate CountersMid(inst: Instance, added: seq<Fact>, f: Fact, pairs: seq<(nat, nat)>, k: nat, without: seq<nat>)
    requires k <= |pairs|
  {
    |without| == |inst.actions| && forall a :: 0 <= a < |without| ==> without[a] == |LackingMid(inst, a, added, f, pairs, k)|
  }

  ghost predicate FuturesMid(inst: Instance, prep: Prepared, caching: bool, added: seq<Fact>, f: Fact, pairs: seq<(nat, nat)>, k: nat, prune: seq<bool>, consistency: set<Entry>)
    requires k <= |pairs|
  {
    |prune| == |inst.actions| && forall a: nat, q: nat :: InRange(inst, a, q) && prune[a] ==>
      FutureOk(inst, inst.actions[a], a, q, EntriesOf(prep, a), EligibleOf(prep, a), caching, Upto(added, f, pairs, k, a, q), consistency)
  }

  lemma StartTables(inst: Instance, prep: Prepared, caching: bool, added: seq<Fact>, f: Fact, pairs: seq<(nat, nat)>,
                    factMap: FactMap, without: seq<nat>, prune: seq<bool>, consistency: set<Entry>)
    requires Tables(inst, prep, added, factMap) && Counters(inst, added, without) && Futures(inst, prep, caching, added, prune, consistency)
    ensures TablesMid(inst, prep, added, f, pairs, 0, factMap) && CountersMid(inst, added, f, pairs, 0, without)
    ensures FuturesMid(inst, prep, caching, added, f, pairs, 0, prune, consistency)
  {
    hide Indexed, FutureOk, HasFact;
    assert pairs[..0] == [];
    forall a: nat, p: nat ensures Upto(added, f, pairs, 0, a, p) == added { }
    forall a: nat | a < |without| ensures without[a] == |LackingMid(inst, a, added, f, pairs, 0)| {
      assert LackingMid(inst, a, added, f, pairs, 0) == Lacking(inst, inst.actions[a], added);
    }
  }

  lemma OtherHead(inst: Instance, f: Fact, pairs: seq<(nat, nat)>, a: nat, p: nat)
    requires PairsOk(inst, f.head, pairs) && InRange(inst, a, p) && (a, p) !in pairs
    ensures !Fits(inst, inst.actions[a], inst.actions[a].antecedents[p], f)
  {
  }

  lemma IndexedKeep(inst: Instance, act: Action, a: nat, p: nat, sets: seq<set<nat>>, added: seq<Fact>, factMap: FactMap, f: Fact)
    requires p < |act.antecedents| && Indexed(inst, act, a, p, sets, added, factMap) && !Fits(inst, act, act.antecedents[p], f)
    ensures Indexed(inst, act, a, p, sets, added + [f], factMap)
  {
    hide Fits, SlotOk;
    forall id: nat | id < |sets| ensures SlotIndexed(inst, act, act.antecedents[p], sets[id], Slot(a, p, id), added + [f], factMap) {
      assert SlotIndexed(inst, act, act.antecedents[p], sets[id], Slot(a, p, id), added, factMap);
      SlotKeep(inst, act, act.antecedents[p], sets[id], added, factMap[Slot(a, p, id)], f);
    }
    HasMore(inst, act, act.antecedents[p], added, f);
  }

  lemma HasMore(inst: Instance, act: Action, atom: Atom, added: seq<Fact>, f: Fact)
    ensures HasFact(inst, act, atom, added + [f]) <==> HasFact(inst, act, atom, added) || Fits(inst, act, atom, f)
  {
    hide Fits;
    if HasFact(inst, act, atom, added) {
      var x :| 0 <= x < |added| && Fits(inst, act, atom, added[x]);
      assert (added + [f])[x] == added[x];
    }
    assert (added + [f])[|added|] == f;
  }

  lemma FutureKeep(inst: Instance, act: Action, a: nat, q: nat, es: seq<Antecedent>, eligible: set<nat>, caching: bool, added: seq<Fact>, f: Fact, consistency: set<Entry>)
    requires q < |act.antecedents| && FutureOk(inst, act, a, q, es, eligible, caching, added, consistency) && !Fits(inst, act, act.antecedents[q], f)
    ensures FutureOk(inst, act, a, q, es, eligible, caching, added + [f], consistency)
  {
    hide Fits, Project, AssignedSet;
  }

  lemma EndTables(inst: Instance, prep: Prepared, caching: bool, added: seq<Fact>, f: Fact, pairs: seq<(nat, nat)>,
                  factMap: FactMap, without: seq<nat>, prune: seq<bool>, consistency: set<Entry>)
    requires PairsOk(inst, f.head, pairs)
    requires TablesMid(inst, prep, added, f, pairs, |pairs|, factMap) && CountersMid(inst, added, f, pairs, |pairs|, without)
    requires FuturesMid(inst, prep, caching, added, f, pairs, |pairs|, prune, consistency)
    ensures Tables(inst, prep, added + [f], factMap) && Counters(inst, added + [f], without) && Futures(inst, prep, caching, added + [f], prune, consistency)
  {
    hide Indexed, FutureOk, HasFact, PairsOk, Fits;
    var k := |pairs|;
    assert pairs[..k] == pairs;
    forall a: nat, p: nat | InRange(inst, a, p) ensures Indexed(inst, inst.actions[a], a, p, SetsOf(prep, a, p), added + [f], factMap) {
      assert Indexed(inst, inst.actions[a], a, p, SetsOf(prep, a, p), Upto(added, f, pairs, k, a, p), factMap);
      if (a, p) !in pairs {
        OtherHead(inst, f, pairs, a, p);
        IndexedKeep(inst, inst.actions[a], a, p, SetsOf(prep, a, p), added, factMap, f);
      }
    }
    forall a: nat, q: nat | InRange(inst, a, q) && prune[a]
      ensures FutureOk(inst, inst.actions[a], a, q, EntriesOf(prep, a), EligibleOf(prep, a), caching, added + [f], consistency)
    {
      assert FutureOk(inst, inst.actions[a], a, q, EntriesOf(prep, a), EligibleOf(prep, a), caching, Upto(added, f, pairs, k, a, q), consistency);
      if (a, q) !in pairs {
        OtherHead(inst, f, pairs, a, q);
        FutureKeep(inst, inst.actions[a], a, q, EntriesOf(prep, a), EligibleOf(prep, a), caching, added, f, consistency);
      }
    }
    forall a: nat | a < |without| ensures without[a] == |Lacking(inst, inst.actions[a], added + [f])| { EndLacking(inst, a, added, f, pairs); }
  }

  lemma EndLacking(inst: Instance, a: nat, added: seq<Fact>, f: Fact, pairs: seq<(nat, nat)>)
    requires PairsOk(inst, f.head, pairs) && a < |inst.actions|
    ensures LackingMid(inst, a, added, f, pairs, |pairs|) == Lacking(inst, inst.actions[a], added + [f])
  {
    hide HasFact, PairsOk, Fits;
    assert pairs[..|pairs|] == pairs;
    forall p: nat | p < |inst.actions[a].antecedents|
      ensures HasFact(inst, inst.actions[a], inst.actions[a].antecedents[p], Upto(added, f, pairs, |pairs|, a, p)) <==>
              HasFact(inst, inst.actions[a], inst.actions[a].antecedents[p], added + [f])
    {
      if (a, p) !in pairs {
        OtherHead(inst, f, pairs, a, p);
        HasMore(inst, inst.actions[a], inst.actions[a].antecedents[p], added, f);
      }
    }
  }

  // One pair (a, p) is the k-th.

  lemma UptoNext(inst: Instance, added: seq<Fact>, f: Fact, pairs: seq<(nat, nat)>, k: nat, a: nat, p: nat)
    requires PairsOk(inst, f.head, pairs) && k < |pairs|
    ensures (a, p) == pairs[k] ==> Upto(added, f, pairs, k, a, p) == added && Upto(added, f, pairs, k + 1, a, p) == added + [f]
    ensures (a, p) != pairs[k] ==> Upto(added, f, pairs, k + 1, a, p) == Upto(added, f, pairs, k, a, p)
  {
    assert pairs[..k + 1] == pairs[..k] + [pairs[k]];
  }

  ghost predicate SameElsewhere(old_: FactMap, new_: FactMap, a: nat, p: nat) {
    forall s: Slot :: s.action != a || s.antecedent != p ==> (s in old_ <==> s in new_) && (s in old_ ==> old_[s] == new_[s])
  }

  lemma IndexedFrame(inst: Instance, act: Action, a: nat, p: nat, sets: seq<set<nat>>, added: seq<Fact>, m: FactMap, m2: FactMap, b: nat, q: nat)
    requires p < |act.antecedents| && Indexed(inst, act, a, p, sets, added, m) && SameElsewhere(m, m2, b, q) && (a != b || p != q)
    ensures Indexed(inst, act, a, p, sets, added, m2)
  {
    hide SlotOk, HasFact;
    forall id: nat | id < |sets| ensures SlotIndexed(inst, act, act.antecedents[p], sets[id], Slot(a, p, id), added, m2) {
      assert SlotIndexed(inst, act, act.antecedents[p], sets[id], Slot(a, p, id), added, m);
    }
  }

  lemma TablesNext(inst: Instance, prep: Prepared, added: seq<Fact>, f: Fact, pairs: seq<(nat, nat)>, k: nat, m: FactMap, m2: FactMap)
    requires PairsOk(inst, f.head, pairs) && k < |pairs| && TablesMid(inst, prep, added, f, pairs, k, m)
    requires InRange(inst, pairs[k].0, pairs[k].1) && SameElsewhere(m, m2, pairs[k].0, pairs[k].1)
    requires Indexed(inst, inst.actions[pairs[k].0], pairs[k].0, pairs[k].1, SetsOf(prep, pairs[k].0, pairs[k].1), added + [f], m2)
    ensures TablesMid(inst, prep, added, f, pairs, k + 1, m2)
  {
    hide Indexed, PairsOk, Upto, SameElsewhere;
    forall a: nat, p: nat | InRange(inst, a, p)
      ensures Indexed(inst, inst.actions[a], a, p, SetsOf(prep, a, p), Upto(added, f, pairs, k + 1, a, p), m2)
    {
      UptoNext(inst, added, f, pairs, k, a, p);
      if (a, p) != pairs[k] {
        var b, q := pairs[k].0, pairs[k].1;
        assert pairs[k] == (b, q);
        IndexedFrame(inst, inst.actions[a], a, p, SetsOf(prep, a, p), Upto(added, f, pairs, k, a, p), m, m2, b, q);
      }
    }
  }

  lemma LackingNext(inst: Instance, a: nat, added: seq<Fact>, f: Fact, pairs: seq<(nat, nat)>, k: nat)
    requires PairsOk(inst, f.head, pairs) && k < |pairs| && a < |inst.actions|
    ensures LackingMid(inst, a, added, f, pairs, k + 1) ==
      if pairs[k].0 == a && InRange(inst, a, pairs[k].1) && Fits(inst, inst.actions[a], inst.actions[a].antecedents[pairs[k].1], f)
      then LackingMid(inst, a, added, f, pairs, k) - {pairs[k].1} else LackingMid(inst, a, added, f, pairs, k)
  {
    hide HasFact, PairsOk, Fits, Upto;
    forall p: nat | p < |inst.actions[a].antecedents|
      ensures HasFact(inst, inst.actions[a], inst.actions[a].antecedents[p], Upto(added, f, pairs, k + 1, a, p)) <==>
              HasFact(inst, inst.actions[a], inst.actions[a].antecedents[p], Upto(added, f, pairs, k, a, p)) ||
              ((a, p) == pairs[k] && Fits(inst, inst.actions[a], inst.actions[a].antecedents[p], f))
    {
      UptoNext(inst, added, f, pairs, k, a, p);
      HasMore(inst, inst.actions[a], inst.actions[a].antecedents[p], added, f);
    }
  }

  lemma LackingCount(inst: Instance, a: nat, added: seq<Fact>, f: Fact, pairs: seq<(nat, nat)>, k: nat)
    requires PairsOk(inst, f.head, pairs) && k < |pairs| && a < |inst.actions|
    ensures |LackingMid(inst, a, added, f, pairs, k + 1)| == |LackingMid(inst, a, added, f, pairs, k)| -
      (if pairs[k].0 == a && InRange(inst, a, pairs[k].1) && Fits(inst, inst.actions[a], inst.actions[a].antecedents[pairs[k].1], f) &&
          !HasFact(inst, inst.actions[a], inst.actions[a].antecedents[pairs[k].1], added) then 1 else 0)
  {
    LackingNext(inst, a, added, f, pairs, k);
    UptoNext(inst, added, f, pairs, k, pairs[k].0, pairs[k].1);
    hide HasFact, PairsOk, Fits, Upto;
    var p := pairs[k].1;
    assert pairs[k].0 == a ==> pairs[k] == (a, p);
    if pairs[k].0 == a && InRange(inst, a, p) && Fits(inst, inst.actions[a], inst.actions[a].antecedents[p], f) {
      Less(LackingMid(inst, a, added, f, pairs, k), p);
    }
  }

  lemma Less(s: set<nat>, x: nat)
    ensures |s - {x}| == |s| - (if x in s then 1 else 0)
  {
    if x !in s { assert s - {x} == s; }
  }

  lemma FuturesNext(inst: Instance, prep: Prepared, caching: bool, added: seq<Fact>, f: Fact, pairs: seq<(nat, nat)>, k: nat, prune: seq<bool>, c: set<Entry>, c2: set<Entry>)
    requires PairsOk(inst, f.head, pairs) && k < |pairs| && FuturesMid(inst, prep, caching, added, f, pairs, k, prune, c) && c <= c2
    requires InRange(inst, pairs[k].0, pairs[k].1)
    requires prune[pairs[k].0] ==> FutureOk(inst, inst.actions[pairs[k].0], pairs[k].0, pairs[k].1, EntriesOf(prep, pairs[k].0), EligibleOf(prep, pairs[k].0), caching, added + [f], c2)
    ensures FuturesMid(inst, prep, caching, added, f, pairs, k + 1, prune, c2)
  {
    hide FutureOk, PairsOk, Upto;
    forall a: nat, q: nat | InRange(inst, a, q) && prune[a]
      ensures FutureOk(inst, inst.actions[a], a, q, EntriesOf(prep, a), EligibleOf(prep, a), caching, Upto(added, f, pairs, k + 1, a, q), c2)
    {
      UptoNext(inst, added, f, pairs, k, a, q);
      if (a, q) != pairs[k] {
        FutureMore(inst, inst.actions[a], a, q, EntriesOf(prep, a), EligibleOf(prep, a), caching, Upto(added, f, pairs, k, a, q), c, c2);
      }
    }
  }

  lemma FutureMore(inst: Instance, act: Action, a: nat, q: nat, es: seq<Antecedent>, eligible: set<nat>, caching: bool, added: seq<Fact>, c: set<Entry>, c2: set<Entry>)
    requires q < |act.antecedents| && FutureOk(inst, act, a, q, es, eligible, caching, added, c) && c <= c2
    ensures FutureOk(inst, act, a, q, es, eligible, caching, added, c2)
  {
    hide Fits, Project, AssignedSet;
  }

  lemma PreparedFacts(inst: Instance, prep: Prepared, a: nat, p: nat)
    requires inst.Valid() && PreparedOk(inst, prep) && InRange(inst, a, p)
    ensures a < |prep.antecedents| && p < |prep.antecedents[a]| && |prep.antecedents[a]| == |inst.actions[a].antecedents| && a < |prep.eligible|
    ensures AntecedentOk(inst.actions[a], p, prep.eligible[a], prep.antecedents[a][p])
    ensures forall q :: q in prep.eligible[a] ==> q < |inst.actions[a].antecedents|
    ensures inst.ActionOk(inst.actions[a]) && inst.AtomOk(inst.actions[a], inst.actions[a].antecedents[p])
  {
    assert ActionPrepared(inst, inst.actions[a], prep.eligible[a], prep.antecedents[a]);
  }

  /** The map for no matched antecedent comes first: it is empty exactly when no fact fits. */
  lemma FirstMap(inst: Instance, prep: Prepared, a: nat, p: nat, added: seq<Fact>, factMap: FactMap)
    requires inst.Valid() && PreparedOk(inst, prep) && InRange(inst, a, p)
    requires Indexed(inst, inst.actions[a], a, p, SetsOf(prep, a, p), added, factMap)
    ensures Slot(a, p, 0) in factMap && (factMap[Slot(a, p, 0)] == map[] <==> !HasFact(inst, inst.actions[a], inst.actions[a].antecedents[p], added))
  {
    PreparedFacts(inst, prep, a, p);
    hide PreparedOk, Fits, Project, SlotOk, Instance.Valid;
    var act, sets := inst.actions[a], SetsOf(prep, a, p);
    var atom := act.antecedents[p];
    assert SlotIndexed(inst, act, atom, sets[0], Slot(a, p, 0), added, factMap);
    if HasFact(inst, act, atom, added) {
      var x: nat :| x < |added| && Fits(inst, act, atom, added[x]);
      FactListed(inst, act, atom, sets[0], added, factMap[Slot(a, p, 0)], x);
    }
  }

  lemma FactListed(inst: Instance, act: Action, atom: Atom, v: set<nat>, added: seq<Fact>, m: map<seq<int>, seq<nat>>, x: nat)
    requires SlotOk(inst, act, atom, v, added, m) && x < |added| && Fits(inst, act, atom, added[x])
    ensures Project(atom.arguments, added[x].arguments, v) in m
  {
    assert FitsAt(inst, act, atom, v, added[x], Project(atom.arguments, added[x].arguments, v));
  }

  lemma PairFacts(inst: Instance, prep: Prepared, added: seq<Fact>, f: Fact, pairs: seq<(nat, nat)>, k: nat, factMap: FactMap)
    requires inst.Valid() && PreparedOk(inst, prep) && k < |pairs| && PairsOk(inst, f.head, pairs)
    requires TablesMid(inst, prep, added, f, pairs, k, factMap)
    ensures InRange(inst, pairs[k].0, pairs[k].1) && inst.actions[pairs[k].0].antecedents[pairs[k].1].head == f.head
    ensures Indexed(inst, inst.actions[pairs[k].0], pairs[k].0, pairs[k].1, SetsOf(prep, pairs[k].0, pairs[k].1), added, factMap)
    ensures Slot(pairs[k].0, pairs[k].1, 0) in factMap
    ensures factMap[Slot(pairs[k].0, pairs[k].1, 0)] == map[] <==>
      !HasFact(inst, inst.actions[pairs[k].0], inst.actions[pairs[k].0].antecedents[pairs[k].1], added)
  {
    var a, p := pairs[k].0, pairs[k].1;
    hide PreparedOk, Indexed, HasFact, Instance.Valid, Upto;
    UptoNext(inst, added, f, pairs, k, a, p);
    assert pairs[k] == (a, p);
    assert Indexed(inst, inst.actions[a], a, p, SetsOf(prep, a, p), Upto(added, f, pairs, k, a, p), factMap);
    FirstMap(inst, prep, a, p, added, factMap);
  }

  lemma FutureHere(inst: Instance, prep: Prepared, caching: bool, added: seq<Fact>, f: Fact, pairs: seq<(nat, nat)>, k: nat, prune: seq<bool>, c: set<Entry>)
    requires PairsOk(inst, f.head, pairs) && k < |pairs| && FuturesMid(inst, prep, caching, added, f, pairs, k, prune, c)
    requires InRange(inst, pairs[k].0, pairs[k].1)
    ensures |prune| == |inst.actions|
    ensures var a, p := pairs[k].0, pairs[k].1;
      prune[a] ==> FutureOk(inst, inst.actions[a], a, p, EntriesOf(prep, a), EligibleOf(prep, a), caching, added, c)
  {
    var a, p := pairs[k].0, pairs[k].1;
    hide FutureOk, Upto;
    UptoNext(inst, added, f, pairs, k, a, p);
    assert pairs[k] == (a, p);
  }

  lemma FutureKept(inst: Instance, prep: Prepared, caching: bool, added: seq<Fact>, f: Fact, pairs: seq<(nat, nat)>, k: nat, prune: seq<bool>, c: set<Entry>)
    requires PairsOk(inst, f.head, pairs) && k < |pairs| && FuturesMid(inst, prep, caching, added, f, pairs, k, prune, c)
    requires InRange(inst, pairs[k].0, pairs[k].1) && !Fits(inst, inst.actions[pairs[k].0], inst.actions[pairs[k].0].antecedents[pairs[k].1], f)
    ensures var a, p := pairs[k].0, pairs[k].1;
      |prune| == |inst.actions| && (prune[a] ==> FutureOk(inst, inst.actions[a], a, p, EntriesOf(prep, a), EligibleOf(prep, a), caching, added + [f], c))
  {
    var a, p := pairs[k].0, pairs[k].1;
    hide FutureOk;
    FutureHere(inst, prep, caching, added, f, pairs, k, prune, c);
    if prune[a] { FutureKeep(inst, inst.actions[a], a, p, EntriesOf(prep, a), EligibleOf(prep, a), caching, added, f, c); }
  }

  /** The entries for fact f at antecedent q that a join looks up when it is about to match antecedent next. */
  ghost predicate Noted(a: nat, next: nat, q: nat, atom: Atom, e: Antecedent, eligible: set<nat>, caching: bool, f: Fact, c: set<Entry>)
    requires |atom.arguments| == |f.arguments|
  {
    forall i: int :: CachedFor(i, eligible, caching) ==> Entry(a, next, q, i, Project(atom.arguments, f.arguments, AssignedSet(e, i))) in c
  }

  lemma FutureAdd(inst: Instance, act: Action, a: nat, q: nat, es: seq<Antecedent>, eligible: set<nat>, caching: bool, added: seq<Fact>, f: Fact, c: set<Entry>)
    requires q < |act.antecedents| && FutureOk(inst, act, a, q, es, eligible, caching, added, c) && |act.antecedents[q].arguments| == |f.arguments|
    requires forall next: nat :: next <= q && next < |es| ==> Noted(a, next, q, act.antecedents[q], es[next], eligible, caching, f, c)
    ensures FutureOk(inst, act, a, q, es, eligible, caching, added + [f], c)
  {
    hide Fits, Project, AssignedSet;
  }

  ghost predicate Distinct(added: seq<Fact>) {
    forall i, j :: 0 <= i < j < |added| ==> added[i] != added[j]
  }

  /** Exactly the facts that fit the antecedent with these values, each once. */
  ghost predicate FactsFor(inst: Instance, act: Action, atom: Atom, v: set<nat>, added: seq<Fact>, key: seq<int>, facts: seq<Fact>) {
    && (forall i :: 0 <= i < |facts| ==> facts[i] in added && FitsAt(inst, act, atom, v, facts[i], key))
    && Distinct(facts)
    && (forall x :: 0 <= x < |added| && FitsAt(inst, act, atom, v, added[x], key) ==> added[x] in facts)
  }

  lemma ListedFacts(inst: Instance, act: Action, atom: Atom, v: set<nat>, added: seq<Fact>, m: map<seq<int>, seq<nat>>, key: seq<int>, list: seq<nat>, facts: seq<Fact>)
    requires SlotOk(inst, act, atom, v, added, m) && Distinct(added) && list == (if key in m then m[key] else [])
    requires |facts| == |list| && forall i :: 0 <= i < |list| ==> list[i] < |added| && facts[i] == added[list[i]]
    ensures FactsFor(inst, act, atom, v, added, key, facts)
  {
    SlotList(inst, act, atom, v, added, m, key);
    forall x: nat | x < |added| && FitsAt(inst, act, atom, v, added[x], key) ensures added[x] in facts {
      SlotHas(inst, act, atom, v, added, m, x, key);
      var i :| 0 <= i < |list| && list[i] == x;
      assert facts[i] == added[x];
    }
  }

  /** Asking for an unknown key leaves an empty entry behind (580), which is harmless: the antecedent already has a fact. */
  lemma EmptyEntry(inst: Instance, act: Action, a: nat, p: nat, sets: seq<set<nat>>, added: seq<Fact>, m: FactMap, slot: Slot, key: seq<int>)
    requires p < |act.antecedents| && Indexed(inst, act, a, p, sets, added, m) && HasFact(inst, act, act.antecedents[p], added)
    requires slot.action == a && slot.antecedent == p && slot in m && key !in m[slot]
    ensures Indexed(inst, act, a, p, sets, added, m[slot := m[slot][key := []]])
  {
    var m2 := m[slot := m[slot][key := []]];
    hide FitsAt, HasFact;
    forall id: nat | id < |sets| ensures SlotIndexed(inst, act, act.antecedents[p], sets[id], Slot(a, p, id), added, m2) {
      assert SlotIndexed(inst, act, act.antecedents[p], sets[id], Slot(a, p, id), added, m);
    }
  }

  lemma TablesFrame(inst: Instance, prep: Prepared, added: seq<Fact>, m: FactMap, m2: FactMap, a: nat, p: nat)
    requires Tables(inst, prep, added, m) && SameElsewhere(m, m2, a, p)
    requires InRange(inst, a, p) && Indexed(inst, inst.actions[a], a, p, SetsOf(prep, a, p), added, m2)
    ensures Tables(inst, prep, added, m2)
  {
    hide Indexed, SameElsewhere;
    forall b: nat, q: nat | InRange(inst, b, q) ensures Indexed(inst, inst.actions[b], b, q, SetsOf(prep, b, q), added, m2) {
      if b != a || q != p { IndexedFrame(inst, inst.actions[b], b, q, SetsOf(prep, b, q), added, m, m2, a, p); }
    }
  }

  lemma SlotKnown(inst: Instance, prep: Prepared, added: seq<Fact>, m: FactMap, a: nat, p: nat, i: int)
    requires inst.Valid() && PreparedOk(inst, prep) && Tables(inst, prep, added, m) && InRange(inst, a, p)
    requires i == -1 || (i >= 0 && i in EligibleOf(prep, a))
    ensures a < |prep.antecedents| && p < |prep.antecedents[a]| && i in prep.antecedents[a][p].ids
    ensures var id := prep.antecedents[a][p].ids[i];
      id < |prep.antecedents[a][p].sets| && AssignedSet(prep.antecedents[a][p], i) == prep.antecedents[a][p].sets[id] == AssignedBefore(inst.actions[a], p, i)
      && SlotIndexed(inst, inst.actions[a], inst.actions[a].antecedents[p], prep.antecedents[a][p].sets[id], Slot(a, p, id), added, m)
    ensures Indexed(inst, inst.actions[a], a, p, SetsOf(prep, a, p), added, m)
  {
    PreparedFacts(inst, prep, a, p);
    assert Indexed(inst, inst.actions[a], a, p, SetsOf(prep, a, p), added, m);
  }

  ghost predicate IsSlot(inst: Instance, prep: Prepared, s: Slot) {
    InRange(inst, s.action, s.antecedent) && s.id < |SetsOf(prep, s.action, s.antecedent)|
  }

  ghost predicate Earlier(s: Slot, a: nat, p: nat, id: nat) {
    s.action < a || (s.action == a && (s.antecedent < p || (s.antecedent == p && s.id < id)))
  }

  method EmptyTables(inst: Instance, prep: Prepared) returns (m: FactMap)
    requires inst.Valid() && PreparedOk(inst, prep)
    ensures Tables(inst, prep, [], m)
  {
    m := map[];
    for a := 0 to |inst.actions|
      invariant forall s: Slot :: s in m <==> IsSlot(inst, prep, s) && s.action < a
      invariant forall s: Slot :: s in m ==> m[s] == map[]
    {
      for p := 0 to |inst.actions[a].antecedents|
        invariant forall s: Slot :: s in m <==> IsSlot(inst, prep, s) && Earlier(s, a, p, 0)
        invariant forall s: Slot :: s in m ==> m[s] == map[]
      {
        for id := 0 to |SetsOf(prep, a, p)|
          invariant forall s: Slot :: s in m <==> IsSlot(inst, prep, s) && Earlier(s, a, p, id)
          invariant forall s: Slot :: s in m ==> m[s] == map[]
        {
          m := m[Slot(a, p, id) := map[]];
        }
      }
    }
    EmptyOk(inst, prep, m);
  }

  lemma EmptyOk(inst: Instance, prep: Prepared, m: FactMap)
    requires forall s: Slot :: s in m <==> IsSlot(inst, prep, s)
    requires forall s: Slot :: s in m ==> m[s] == map[]
    ensures Tables(inst, prep, [], m)
  {
    forall a: nat, p: nat | InRange(inst, a, p) ensures Indexed(inst, inst.actions[a], a, p, SetsOf(prep, a, p), [], m) {
      var sets := SetsOf(prep, a, p);
      forall id: nat | id < |sets| ensures SlotIndexed(inst, inst.actions[a], inst.actions[a].antecedents[p], sets[id], Slot(a, p, id), [], m) {
        assert Slot(a, p, id) in m;
      }
    }
  }

  method NoFactsYet(inst: Instance) returns (w: seq<nat>)
    ensures Counters(inst, [], w)
  {
    w := [];
    for a := 0 to |inst.actions|
      invariant |w| == a && forall b :: 0 <= b < a ==> w[b] == |Lacking(inst, inst.actions[b], [])|
    {
      AllLacking(inst, inst.actions[a]);
      w := w + [|inst.actions[a].antecedents|];
    }
  }

  lemma AllLacking(inst: Instance, act: Action)
    ensures |Lacking(inst, act, [])| == |act.antecedents|
  {
    assert Lacking(inst, act, []) == Below(|act.antecedents|);
    BelowCount(|act.antecedents|);
  }

  ghost function Below(n: nat): (s: set<nat>)
    ensures forall x: nat :: x in s <==> x < n
  {
    if n == 0 then {} else Below(n - 1) + {n - 1}
  }

  lemma {:induction false} BelowCount(n: nat)
    ensures |Below(n)| == n
    decreases n
  {
    if n > 0 {
      BelowCount(n - 1);
      var s := Below(n - 1);
      assert n - 1 !in s && Below(n) == s + {n - 1};
    }
  }

  lemma NothingElsewhere(m: FactMap, a: nat, p: nat)
    ensures SameElsewhere(m, m, a, p)
  {
  }

  /** The counter of the pair's action drops exactly when its antecedent gets its first fact. */
  lemma CountersNext(inst: Instance, added: seq<Fact>, f: Fact, pairs: seq<(nat, nat)>, k: nat, without: seq<nat>, first: bool)
    requires PairsOk(inst, f.head, pairs) && k < |pairs| && CountersMid(inst, added, f, pairs, k, without) && InRange(inst, pairs[k].0, pairs[k].1)
    requires var a, p := pairs[k].0, pairs[k].1;
      first <==> Fits(inst, inst.actions[a], inst.actions[a].antecedents[p], f) && !HasFact(inst, inst.actions[a], inst.actions[a].antecedents[p], added)
    ensures pairs[k].0 < |without| && (first ==> without[pairs[k].0] > 0)
    ensures CountersMid(inst, added, f, pairs, k + 1, if first then without[pairs[k].0 := without[pairs[k].0] - 1] else without)
  {
    hide HasFact, PairsOk, Fits, Upto, LackingMid;
    forall b: nat | b < |inst.actions| { LackingCount(inst, b, added, f, pairs, k); }
  }

  lemma ElsewhereOn(m: FactMap, m1: FactMap, m2: FactMap, a: nat, p: nat)
    requires SameElsewhere(m, m1, a, p) && SameElsewhere(m1, m2, a, p)
    ensures SameElsewhere(m, m2, a, p)
  {
  }

  lemma IndexedStart(inst: Instance, act: Action, a: nat, p: nat, sets: seq<set<nat>>, added: seq<Fact>, f: Fact, m: FactMap)
    requires p < |act.antecedents| && Indexed(inst, act, a, p, sets, added, m)
    ensures forall j: nat :: j < |sets| ==> SlotIndexed(inst, act, act.antecedents[p], sets[j], Slot(a, p, j), if j < 0 then added + [f] else added, m)
  {
    hide SlotIndexed;
  }

  lemma IndexedEnd(inst: Instance, act: Action, a: nat, p: nat, sets: seq<set<nat>>, added: seq<Fact>, f: Fact, m: FactMap)
    requires p < |act.antecedents| && Fits(inst, act, act.antecedents[p], f)
    requires forall j: nat :: j < |sets| ==> SlotIndexed(inst, act, act.antecedents[p], sets[j], Slot(a, p, j), if j < |sets| then added + [f] else added, m)
    ensures Indexed(inst, act, a, p, sets, added + [f], m)
  {
    HasMore(inst, act, act.antecedents[p], added, f);
    hide SlotIndexed, Fits, HasFact;
  }

  // ----- the class -----

  class GpgStateMap {
    const instance: Instance
    const prepared: Prepared
    const futureCachingByPrecondition: bool
    var addedStateElements: seq<Fact>
    var factMap: FactMap
    var numberOfAntecedantsWithoutFact: seq<nat>
    var consistency: set<Entry>
    /** Kept by the instance in the original; look-ahead can only be turned off. */
    var pruneWithFutureSatisfiablility: seq<bool>

    ghost predicate Ready() {
      instance.Valid() && PreparedOk(instance, prepared)
    }

    ghost predicate Valid()
      reads this
    {
      && Ready()
      && Tables(instance, prepared, addedStateElements, factMap)
      && Counters(instance, addedStateElements, numberOfAntecedantsWithoutFact)
      && Futures(instance, prepared, futureCachingByPrecondition, addedStateElements, pruneWithFutureSatisfiablility, consistency)
    }

    /** Lines 199-204. */
    predicate HasVariable(a: nat, p: nat, initially: int, v: nat) {
      a < |prepared.antecedents| && p < |prepared.antecedents[a]| && v in AssignedSet(prepared.antecedents[a][p], initially)
    }

    /** The values of the positions whose variable is in the set. */
    static method KeyFor(vars: seq<nat>, values: seq<int>, v: set<nat>) returns (key: seq<int>)
      requires |vars| == |values|
      ensures key == Project(vars, values, v)
    {
      key := [];
      for i := 0 to |vars|
        invariant key == ProjectUpTo(vars, values, v, i)
      {
        if vars[i] in v { key := key + [values[i]]; }
      }
    }

    /** Lines 442-461: whether the fact can instantiate the antecedent at all. */
    method Compatible(a: nat, p: nat, f: Fact) returns (yes: bool)
      requires Ready() && InRange(instance, a, p) && f.head == instance.actions[a].antecedents[p].head && instance.FactOk(f)
      ensures yes <==> Fits(instance, instance.actions[a], instance.actions[a].antecedents[p], f)
    {
      var act := instance.actions[a];
      var atom := act.antecedents[p];
      PreparedFacts(instance, prepared, a, p);
      var identical := prepared.antecedents[a][p].identical;
      hide PreparedOk, SameWhereSame;
      var k := 0;
      while k < |identical|
        invariant k <= |identical| && forall g :: 0 <= g < k ==> GroupAgrees(identical[g], f)
      {
        var agrees := Agrees(identical[k], f);
        if !agrees {
          assert !GroupsAgree(identical, f);
          return false;
        }
        k := k + 1;
      }
      assert GroupsAgree(identical, f);
      for i := 0 to |atom.arguments|
        invariant forall j :: 0 <= j < i ==> ArgumentFits(instance, act, atom.arguments[j], f.arguments[j])
      {
        if f.arguments[i] !in instance.sorts[act.variableSorts[atom.arguments[i]]] {
          assert !ArgumentFits(instance, act, atom.arguments[i], f.arguments[i]);
          return false;
        }
      }
      yes := true;
    }

    static method Agrees(group: seq<nat>, f: Fact) returns (yes: bool)
      ensures yes <==> GroupAgrees(group, f)
    {
      if |group| == 0 || group[0] >= |f.arguments| { return false; }
      for i := 0 to |group|
        invariant forall j :: 0 <= j < i ==> group[j] < |f.arguments| && f.arguments[group[j]] == f.arguments[group[0]]
      {
        if group[i] >= |f.arguments| || f.arguments[group[i]] != f.arguments[group[0]] { return false; }
      }
      yes := true;
    }

    /** Lines 403-423. */
    constructor (instance: Instance, prepared: Prepared, futureCachingByPrecondition: bool)
      requires instance.Valid() && PreparedOk(instance, prepared)
      ensures Valid() && addedStateElements == []
      ensures this.instance == instance && this.prepared == prepared
    {
      this.instance, this.prepared, this.futureCachingByPrecondition := instance, prepared, futureCachingByPrecondition;
      addedStateElements, consistency := [], {};
      pruneWithFutureSatisfiablility := seq(|instance.actions|, _ => true);
      var m := EmptyTables(instance, prepared);
      var w := NoFactsYet(instance);
      factMap, numberOfAntecedantsWithoutFact := m, w;
    }

    /** Lines 466-479: the fact is entered under the values of each set of assigned variables. */
    method IndexFact(a: nat, p: nat, f: Fact)
      requires Ready() && InRange(instance, a, p) && Fits(instance, instance.actions[a], instance.actions[a].antecedents[p], f)
      requires Indexed(instance, instance.actions[a], a, p, SetsOf(prepared, a, p), addedStateElements, factMap)
      modifies this`factMap
      ensures SameElsewhere(old(factMap), factMap, a, p)
      ensures Indexed(instance, instance.actions[a], a, p, SetsOf(prepared, a, p), addedStateElements + [f], factMap)
    {
      hide *;
      PreparedHere(a, p);
      var act, sets := instance.actions[a], prepared.antecedents[a][p].sets;
      var atom := act.antecedents[p];
      IndexedStart(instance, act, a, p, sets, addedStateElements, f, factMap);
      NothingElsewhere(factMap, a, p);
      var id: nat := 0;
      while id < |sets|
        invariant id <= |sets| && SameElsewhere(old(factMap), factMap, a, p)
        invariant forall j: nat :: j < |sets| ==>
          SlotIndexed(instance, act, atom, sets[j], Slot(a, p, j), if j < id then addedStateElements + [f] else addedStateElements, factMap)
      {
        ghost var m := factMap;
        EnterFact(a, p, f, id, act, atom, sets);
        ElsewhereOn(old(factMap), m, factMap, a, p);
        id := id + 1;
      }
      IndexedEnd(instance, act, a, p, sets, addedStateElements, f, factMap);
    }

    lemma PreparedHere(a: nat, p: nat)
      requires Ready() && InRange(instance, a, p)
      ensures a < |instance.actions| && p < |instance.actions[a].antecedents|
      ensures a < |prepared.antecedents| && p < |prepared.antecedents[a]| && |prepared.antecedents[a]| == |instance.actions[a].antecedents|
      ensures SetsOf(prepared, a, p) == prepared.antecedents[a][p].sets && EntriesOf(prepared, a) == prepared.antecedents[a]
      ensures a < |prepared.eligible| && EligibleOf(prepared, a) == prepared.eligible[a]
      ensures forall q :: q in prepared.eligible[a] ==> q < |prepared.antecedents[a]|
    {
      PreparedFacts(instance, prepared, a, p);
    }

    method EnterFact(a: nat, p: nat, f: Fact, id: nat, act: Action, atom: Atom, sets: seq<set<nat>>)
      requires id < |sets| && Fits(instance, act, atom, f)
      requires forall j: nat :: j < |sets| ==>
        SlotIndexed(instance, act, atom, sets[j], Slot(a, p, j), if j < id then addedStateElements + [f] else addedStateElements, factMap)
      modifies this`factMap
      ensures SameElsewhere(old(factMap), factMap, a, p)
      ensures forall j: nat :: j < |sets| ==>
        SlotIndexed(instance, act, atom, sets[j], Slot(a, p, j), if j < id + 1 then addedStateElements + [f] else addedStateElements, factMap)
    {
      ghost var before := factMap;
      hide SlotOk;
      var slot := Slot(a, p, id);
      assert SlotIndexed(instance, act, atom, sets[id], slot, addedStateElements, factMap);
      assert |atom.arguments| == |f.arguments|;
      var key := KeyFor(atom.arguments, f.arguments, sets[id]);
      hide Fits;
      assert FitsAt(instance, act, atom, sets[id], f, key);
      SlotAdd(instance, act, atom, sets[id], addedStateElements, factMap[slot], f, key);
      var m, x: nat := factMap[slot], |addedStateElements|;
      var list: seq<nat> := (if key in m then m[key] else []) + [x];
      factMap := factMap[slot := m[key := list]];
      forall j: nat | j < |sets|
        ensures SlotIndexed(instance, act, atom, sets[j], Slot(a, p, j), if j < id + 1 then addedStateElements + [f] else addedStateElements, factMap)
      {
        assert SlotIndexed(instance, act, atom, sets[j], Slot(a, p, j), if j < id then addedStateElements + [f] else addedStateElements, before);
      }
    }

    /** Lines 483-516. */
    method MarkFuture(a: nat, p: nat, f: Fact)
      requires Ready() && InRange(instance, a, p) && |instance.actions[a].antecedents[p].arguments| == |f.arguments|
      requires FutureOk(instance, instance.actions[a], a, p, EntriesOf(prepared, a), EligibleOf(prepared, a), futureCachingByPrecondition, addedStateElements, consistency)
      modifies this`consistency
      ensures old(consistency) <= consistency
      ensures FutureOk(instance, instance.actions[a], a, p, EntriesOf(prepared, a), EligibleOf(prepared, a), futureCachingByPrecondition, addedStateElements + [f], consistency)
    {
      hide *;
      PreparedHere(a, p);
      var es, eligible, atom := prepared.antecedents[a], prepared.eligible[a], instance.actions[a].antecedents[p];
      var next: nat := 0;
      while next < p + 1
        invariant next <= p + 1 && old(consistency) <= consistency
        invariant forall n: nat :: n < next ==> Noted(a, n, p, atom, es[n], eligible, futureCachingByPrecondition, f, consistency)
      {
        ghost var c := consistency;
        NoteAt(a, next, p, atom, es[next], eligible, f, |es|);
        forall n: nat | n < next { NotedMore(a, n, p, atom, es[n], eligible, futureCachingByPrecondition, f, c, consistency); }
        next := next + 1;
      }
      FutureMore(instance, instance.actions[a], a, p, es, eligible, futureCachingByPrecondition, addedStateElements, old(consistency), consistency);
      FutureAdd(instance, instance.actions[a], a, p, es, eligible, futureCachingByPrecondition, addedStateElements, f, consistency);
    }

    lemma NotedMore(a: nat, next: nat, q: nat, atom: Atom, e: Antecedent, eligible: set<nat>, caching: bool, f: Fact, c: set<Entry>, c2: set<Entry>)
      requires |atom.arguments| == |f.arguments| && Noted(a, next, q, atom, e, eligible, caching, f, c) && c <= c2
      ensures Noted(a, next, q, atom, e, eligible, caching, f, c2)
    {
      hide Project, AssignedSet;
    }

    method NoteAt(a: nat, next: nat, p: nat, atom: Atom, e: Antecedent, eligible: set<nat>, f: Fact, n: nat)
      requires |atom.arguments| == |f.arguments| && forall q :: q in eligible ==> q < n
      modifies this`consistency
      ensures old(consistency) <= consistency && Noted(a, next, p, atom, e, eligible, futureCachingByPrecondition, f, consistency)
    {
      hide Project, AssignedSet;
      var values := KeyFor(atom.arguments, f.arguments, AssignedSet(e, -1));
      consistency := consistency + {Entry(a, next, p, -1, values)};
      if !futureCachingByPrecondition { return; }
      var q: nat := 0;
      while q < n
        invariant old(consistency) <= consistency && Entry(a, next, p, -1, Project(atom.arguments, f.arguments, AssignedSet(e, -1))) in consistency
        invariant forall i: nat :: i < q && i in eligible ==> Entry(a, next, p, i, Project(atom.arguments, f.arguments, AssignedSet(e, i))) in consistency
      {
        if q in eligible {
          values := KeyFor(atom.arguments, f.arguments, AssignedSet(e, q));
          consistency := consistency + {Entry(a, next, p, q, values)};
        }
        q := q + 1;
      }
    }

    /** Lines 555-585. */
    method GetFacts(a: nat, p: nat, assignedVariables: seq<int>, initially: nat) returns (facts: seq<Fact>)
      requires Valid() && InRange(instance, a, p) && Distinct(addedStateElements)
      requires HasFact(instance, instance.actions[a], instance.actions[a].antecedents[p], addedStateElements)
      modifies this`factMap
      ensures Valid()
      ensures FactsFor(instance, instance.actions[a], instance.actions[a].antecedents[p], Counted(a, p, initially), addedStateElements,
                       Project(instance.actions[a].antecedents[p].arguments, Ground(instance.actions[a].antecedents[p], assignedVariables).arguments, Counted(a, p, initially)), facts)
    {
      hide Counters, Futures, Tables, PreparedOk, Indexed, SlotOk, FactsFor, Instance.Valid, AssignedSet, Project, HasFact, FitsAt, Distinct, AssignedBefore;
      var i := Effective(a, initially);
      var atom := instance.actions[a].antecedents[p];
      SlotKnown(instance, prepared, addedStateElements, factMap, a, p, i);
      var slot := Slot(a, p, prepared.antecedents[a][p].ids[i]);
      var key := KeyFor(atom.arguments, Ground(atom, assignedVariables).arguments, AssignedSet(prepared.antecedents[a][p], i));
      ghost var before := factMap;
      if key !in factMap[slot] {
        EmptyEntry(instance, instance.actions[a], a, p, SetsOf(prepared, a, p), addedStateElements, factMap, slot, key);
        factMap := factMap[slot := factMap[slot][key := []]];
        TablesFrame(instance, prepared, addedStateElements, before, factMap, a, p);
        SlotKnown(instance, prepared, addedStateElements, factMap, a, p, i);
      }
      facts := Listed(instance.actions[a], atom, AssignedSet(prepared.antecedents[a][p], i), factMap[slot], key);
    }

    method Listed(ghost act: Action, ghost atom: Atom, ghost v: set<nat>, m: map<seq<int>, seq<nat>>, key: seq<int>) returns (facts: seq<Fact>)
      requires SlotOk(instance, act, atom, v, addedStateElements, m) && Distinct(addedStateElements) && key in m
      ensures FactsFor(instance, act, atom, v, addedStateElements, key, facts)
    {
      SlotList(instance, act, atom, v, addedStateElements, m, key);
      hide SlotOk, FactsFor, FitsAt;
      var list := m[key];
      facts := [];
      for j := 0 to |list|
        invariant |facts| == j && forall k :: 0 <= k < j ==> facts[k] == addedStateElements[list[k]]
      {
        facts := facts + [addedStateElements[list[j]]];
      }
      ListedFacts(instance, act, atom, v, addedStateElements, m, key, list, facts);
    }

    /** The antecedent matched first counts only if it is eligible (559-561). */
    function Effective(a: nat, initially: nat): (i: int)
      ensures i == -1 || (i >= 0 && i in EligibleOf(prepared, a))
    {
      if initially in EligibleOf(prepared, a) then initially else -1
    }

    function EffectiveAhead(a: nat, initially: nat): (i: int)
      ensures CachedFor(i, EligibleOf(prepared, a), futureCachingByPrecondition)
    {
      if initially in EligibleOf(prepared, a) && futureCachingByPrecondition then initially else -1
    }

    function Counted(a: nat, p: nat, initially: nat): set<nat> {
      if p < |EntriesOf(prepared, a)| then AssignedSet(EntriesOf(prepared, a)[p], Effective(a, initially)) else {}
    }

    /** Lines 587-592. */
    method HasInstanceForAllAntecedants(a: nat, initially: nat) returns (yes: bool)
      requires Valid() && InRange(instance, a, initially)
      ensures !yes ==> exists q: nat :: q < |instance.actions[a].antecedents| && !HasFact(instance, instance.actions[a], instance.actions[a].antecedents[q], addedStateElements)
      ensures yes && HasFact(instance, instance.actions[a], instance.actions[a].antecedents[initially], addedStateElements) ==>
        forall q: nat :: q < |instance.actions[a].antecedents| ==> HasFact(instance, instance.actions[a], instance.actions[a].antecedents[q], addedStateElements)
    {
      assert Indexed(instance, instance.actions[a], a, initially, SetsOf(prepared, a, initially), addedStateElements, factMap);
      FirstMap(instance, prepared, a, initially, addedStateElements, factMap);
      hide PreparedOk, Tables, Futures, Indexed, HasFact, Instance.Valid;
      ghost var lacking := Lacking(instance, instance.actions[a], addedStateElements);
      assert numberOfAntecedantsWithoutFact[a] == |lacking|;
      if numberOfAntecedantsWithoutFact[a] == 0 {
        assert lacking == {};
        return true;
      }
      ghost var q := PickGhost(lacking);
      if numberOfAntecedantsWithoutFact[a] >= 2 { return false; }
      yes := factMap[Slot(a, initially, 0)] == map[];
    }

    static ghost method PickGhost(s: set<nat>) returns (x: nat)
      requires |s| > 0
      ensures x in s
    {
      x :| x in s;
    }

    /** Lines 597-635: a later antecedent has no known fact with the values assigned so far; next is the first unmatched antecedent. */
    method HasPotentiallyConsistentExtension(a: nat, next: nat, assignedVariables: seq<int>, initially: nat) returns (yes: bool)
      requires Valid() && a < |instance.actions|
      ensures !yes ==> exists q: nat :: next <= q < |instance.actions[a].antecedents| && NoFuture(a, next, q, assignedVariables, initially)
    {
      hide Tables, Counters, Futures, Project, AssignedSet;
      var act := instance.actions[a];
      var i := EffectiveAhead(a, initially);
      var q := next;
      while q < |act.antecedents|
      {
        var atom := act.antecedents[q];
        PreparedFacts(instance, prepared, a, next);
        var values := KeyFor(atom.arguments, Ground(atom, assignedVariables).arguments, AssignedSet(prepared.antecedents[a][next], i));
        if Entry(a, next, q, i, values) !in consistency {
          assert NoFuture(a, next, q, assignedVariables, initially);
          return false;
        }
        q := q + 1;
      }
      yes := true;
    }

    ghost predicate NoFuture(a: nat, next: nat, q: nat, assignedVariables: seq<int>, initially: nat)
      reads this`consistency
    {
      && a < |instance.actions| && q < |instance.actions[a].antecedents| && next < |EntriesOf(prepared, a)|
      && var atom := instance.actions[a].antecedents[q];
         Entry(a, next, q, EffectiveAhead(a, initially),
               Project(atom.arguments, Ground(atom, assignedVariables).arguments, AssignedSet(EntriesOf(prepared, a)[next], EffectiveAhead(a, initially)))) !in consistency
    }

    /** A rejected look-ahead is right: no instance that extends the assignment uses a known fact for antecedent q. */
    lemma NoExtension(a: nat, next: nat, q: nat, partial: seq<int>, initially: nat, s: seq<int>)
      requires Valid() && InRange(instance, a, q) && pruneWithFutureSatisfiablility[a] && next <= q && NoFuture(a, next, q, partial, initially)
      requires BoundBelow(instance.actions[a], partial, next, initially) && s in Legal(instance, a) && Extends(s, partial)
      ensures Ground(instance.actions[a].antecedents[q], s) !in addedStateElements
    {
      hide GpgStateMap.Valid, GpgStateMap.NoFuture, Legal, BoundBelow;
      if Ground(instance.actions[a].antecedents[q], s) in addedStateElements { FactNoted(a, next, q, partial, initially, s); }
    }

    lemma FactNoted(a: nat, next: nat, q: nat, partial: seq<int>, initially: nat, s: seq<int>)
      requires Valid() && InRange(instance, a, q) && pruneWithFutureSatisfiablility[a] && next <= q
      requires BoundBelow(instance.actions[a], partial, next, initially) && s in Legal(instance, a) && Extends(s, partial)
      requires Ground(instance.actions[a].antecedents[q], s) in addedStateElements
      ensures !NoFuture(a, next, q, partial, initially)
    {
      hide Tables, Counters, Futures, PreparedOk, Instance.Valid, Fits, Project, AssignedBefore, AssignedSet, BoundBelow;
      var act := instance.actions[a];
      var atom, i := act.antecedents[q], EffectiveAhead(a, initially);
      var g := Ground(atom, s);
      var x: nat :| x < |addedStateElements| && addedStateElements[x] == g;
      PreparedHere(a, next);
      AssignedHere(a, next, i, initially);
      var v := AssignedSet(EntriesOf(prepared, a)[next], i);
      AtomHere(a, q);
      GroundFits(instance, a, atom, s);
      SameKey(act, atom, next, initially, partial, s, v);
      FutureEntry(a, next, q, i, x);
    }

    lemma AtomHere(a: nat, p: nat)
      requires Ready() && InRange(instance, a, p)
      ensures instance.AtomOk(instance.actions[a], instance.actions[a].antecedents[p])
    {
      PreparedFacts(instance, prepared, a, p);
    }

    lemma AssignedHere(a: nat, next: nat, i: int, initially: nat)
      requires Ready() && InRange(instance, a, next) && (i == -1 || (i == initially && initially in EligibleOf(prepared, a)))
      ensures next < |EntriesOf(prepared, a)| && AssignedSet(EntriesOf(prepared, a)[next], i) <= AssignedBefore(instance.actions[a], next, initially)
    {
      PreparedFacts(instance, prepared, a, next);
    }

    lemma FutureEntry(a: nat, next: nat, q: nat, i: int, x: nat)
      requires Valid() && InRange(instance, a, q) && pruneWithFutureSatisfiablility[a] && next <= q && x < |addedStateElements|
      requires CachedFor(i, EligibleOf(prepared, a), futureCachingByPrecondition) && next < |EntriesOf(prepared, a)|
      requires Fits(instance, instance.actions[a], instance.actions[a].antecedents[q], addedStateElements[x])
      ensures Entry(a, next, q, i, Project(instance.actions[a].antecedents[q].arguments, addedStateElements[x].arguments, AssignedSet(EntriesOf(prepared, a)[next], i))) in consistency
    {
      hide Tables, Counters, PreparedOk, Instance.Valid, Project, AssignedSet;
      assert FutureOk(instance, instance.actions[a], a, q, EntriesOf(prepared, a), EligibleOf(prepared, a), futureCachingByPrecondition, addedStateElements, consistency);
    }

    static lemma SameKey(act: Action, atom: Atom, next: nat, initially: nat, partial: seq<int>, s: seq<int>, v: set<nat>)
      requires next <= |act.antecedents| && BoundBelow(act, partial, next, initially) && Extends(s, partial) && v <= AssignedBefore(act, next, initially)
      ensures Project(atom.arguments, Ground(atom, s).arguments, v) == Project(atom.arguments, Ground(atom, partial).arguments, v)
    {
      forall i | 0 <= i < |atom.arguments| && atom.arguments[i] in v ensures Value(s, atom.arguments[i]) == Value(partial, atom.arguments[i]) {
        VariableBound(act, next, initially, partial, atom.arguments[i]);
      }
      ProjectAgree(atom.arguments, Ground(atom, s).arguments, Ground(atom, partial).arguments, v, |atom.arguments|);
    }

    static lemma VariableBound(act: Action, next: nat, initially: nat, partial: seq<int>, x: nat)
      requires next <= |act.antecedents| && BoundBelow(act, partial, next, initially) && x in AssignedBefore(act, next, initially)
      ensures Value(partial, x) != NOT_ASSIGNED
    {
      var q: nat;
      if x in VarsBefore(act, next) {
        q :| q < next && x in act.antecedents[q].arguments;
      } else {
        q := initially;
      }
      assert Bound(act.antecedents[q], partial);
      var i :| 0 <= i < |act.antecedents[q].arguments| && act.antecedents[q].arguments[i] == x;
    }

    /** Look-ahead may be given up for one action (1148-1155) or for all (1130-1146), whenever that seems worthwhile. */
    method MayDisable(a: nat)
      requires Valid() && a < |instance.actions|
      modifies this`pruneWithFutureSatisfiablility, this`consistency
      ensures Valid()
    {
      if * {
        pruneWithFutureSatisfiablility := pruneWithFutureSatisfiablility[a := false];
      } else if * {
        pruneWithFutureSatisfiablility := seq(|instance.actions|, _ => false);
        consistency := {};
      }
    }

    lemma Parts()
      requires Valid()
      ensures Ready() && Tables(instance, prepared, addedStateElements, factMap)
      ensures Counters(instance, addedStateElements, numberOfAntecedantsWithoutFact)
      ensures Futures(instance, prepared, futureCachingByPrecondition, addedStateElements, pruneWithFutureSatisfiablility, consistency)
    {
    }

    lemma Whole()
      requires Ready() && Tables(instance, prepared, addedStateElements, factMap)
      requires Counters(instance, addedStateElements, numberOfAntecedantsWithoutFact)
      requires Futures(instance, prepared, futureCachingByPrecondition, addedStateElements, pruneWithFutureSatisfiablility, consistency)
      ensures Valid()
    {
    }

    lemma PairsFor(f: Fact)
      requires Ready() && instance.FactOk(f)
      ensures f.head < |prepared.byPredicate| && PairsOk(instance, f.head, prepared.byPredicate[f.head])
    {
    }

    /** Lines 428-520. */
    method InsertState(f: Fact)
      requires Valid() && instance.FactOk(f)
      modifies this`addedStateElements, this`factMap, this`numberOfAntecedantsWithoutFact, this`consistency
      ensures Valid() && addedStateElements == old(addedStateElements) + [f]
    {
      hide *;
      Parts();
      PairsFor(f);
      ghost var added, pairs := addedStateElements, prepared.byPredicate[f.head];
      StartTables(instance, prepared, futureCachingByPrecondition, added, f, pairs, factMap, numberOfAntecedantsWithoutFact, pruneWithFutureSatisfiablility, consistency);
      InsertAll(f, prepared.byPredicate[f.head]);
      addedStateElements := addedStateElements + [f];
      EndTables(instance, prepared, futureCachingByPrecondition, added, f, pairs, factMap, numberOfAntecedantsWithoutFact, pruneWithFutureSatisfiablility, consistency);
      Whole();
    }

    method InsertAll(f: Fact, pairs: seq<(nat, nat)>)
      requires Ready() && instance.FactOk(f) && PairsOk(instance, f.head, pairs)
      requires TablesMid(instance, prepared, addedStateElements, f, pairs, 0, factMap)
      requires CountersMid(instance, addedStateElements, f, pairs, 0, numberOfAntecedantsWithoutFact)
      requires FuturesMid(instance, prepared, futureCachingByPrecondition, addedStateElements, f, pairs, 0, pruneWithFutureSatisfiablility, consistency)
      modifies this`factMap, this`numberOfAntecedantsWithoutFact, this`consistency
      ensures TablesMid(instance, prepared, addedStateElements, f, pairs, |pairs|, factMap)
      ensures CountersMid(instance, addedStateElements, f, pairs, |pairs|, numberOfAntecedantsWithoutFact)
      ensures FuturesMid(instance, prepared, futureCachingByPrecondition, addedStateElements, f, pairs, |pairs|, pruneWithFutureSatisfiablility, consistency)
    {
      hide *;
      var k := 0;
      while k < |pairs|
        invariant k <= |pairs|
        invariant TablesMid(instance, prepared, addedStateElements, f, pairs, k, factMap)
        invariant CountersMid(instance, addedStateElements, f, pairs, k, numberOfAntecedantsWithoutFact)
        invariant FuturesMid(instance, prepared, futureCachingByPrecondition, addedStateElements, f, pairs, k, pruneWithFutureSatisfiablility, consistency)
      {
        InsertAt(f, pairs, k);
        k := k + 1;
      }
    }

    /** Lines 435-518 for one pair. */
    method InsertAt(f: Fact, pairs: seq<(nat, nat)>, k: nat)
      requires Ready() && instance.FactOk(f) && k < |pairs| && PairsOk(instance, f.head, pairs)
      requires TablesMid(instance, prepared, addedStateElements, f, pairs, k, factMap)
      requires CountersMid(instance, addedStateElements, f, pairs, k, numberOfAntecedantsWithoutFact)
      requires FuturesMid(instance, prepared, futureCachingByPrecondition, addedStateElements, f, pairs, k, pruneWithFutureSatisfiablility, consistency)
      modifies this`factMap, this`numberOfAntecedantsWithoutFact, this`consistency
      ensures TablesMid(instance, prepared, addedStateElements, f, pairs, k + 1, factMap)
      ensures CountersMid(instance, addedStateElements, f, pairs, k + 1, numberOfAntecedantsWithoutFact)
      ensures FuturesMid(instance, prepared, futureCachingByPrecondition, addedStateElements, f, pairs, k + 1, pruneWithFutureSatisfiablility, consistency)
    {
      hide *;
      var a, p := pairs[k].0, pairs[k].1;
      ghost var m, c := factMap, consistency;
      PairHere(f, pairs, k);
      var fits := Compatible(a, p, f);
      var first := fits && factMap[Slot(a, p, 0)] == map[];
      CountersNext(instance, addedStateElements, f, pairs, k, numberOfAntecedantsWithoutFact, first);
      if fits {
        if first {
          numberOfAntecedantsWithoutFact := numberOfAntecedantsWithoutFact[a := numberOfAntecedantsWithoutFact[a] - 1];
        }
        IndexFact(a, p, f);
        if pruneWithFutureSatisfiablility[a] { MarkFuture(a, p, f); }
      } else {
        IndexedKeep(instance, instance.actions[a], a, p, SetsOf(prepared, a, p), addedStateElements, factMap, f);
        FutureKept(instance, prepared, futureCachingByPrecondition, addedStateElements, f, pairs, k, pruneWithFutureSatisfiablility, consistency);
        NothingElsewhere(factMap, a, p);
      }
      TablesNext(instance, prepared, addedStateElements, f, pairs, k, m, factMap);
      FuturesNext(instance, prepared, futureCachingByPrecondition, addedStateElements, f, pairs, k, pruneWithFutureSatisfiablility, c, consistency);
    }

    lemma PairHere(f: Fact, pairs: seq<(nat, nat)>, k: nat)
      requires Ready() && instance.FactOk(f) && k < |pairs| && PairsOk(instance, f.head, pairs)
      requires TablesMid(instance, prepared, addedStateElements, f, pairs, k, factMap)
      requires CountersMid(instance, addedStateElements, f, pairs, k, numberOfAntecedantsWithoutFact)
      requires FuturesMid(instance, prepared, futureCachingByPrecondition, addedStateElements, f, pairs, k, pruneWithFutureSatisfiablility, consistency)
      ensures var a, p := pairs[k].0, pairs[k].1;
        && a < |instance.actions| && p < |instance.actions[a].antecedents| && InRange(instance, a, p) && instance.actions[a].antecedents[p].head == f.head
        && |instance.actions[a].antecedents[p].arguments| == |f.arguments|
        && Indexed(instance, instance.actions[a], a, p, SetsOf(prepared, a, p), addedStateElements, factMap)
        && Slot(a, p, 0) in factMap
        && (factMap[Slot(a, p, 0)] == map[] <==> !HasFact(instance, instance.actions[a], instance.actions[a].antecedents[p], addedStateElements))
        && a < |pruneWithFutureSatisfiablility|
        && (pruneWithFutureSatisfiablility[a] ==>
              FutureOk(instance, instance.actions[a], a, p, EntriesOf(prepared, a), EligibleOf(prepared, a), futureCachingByPrecondition, addedStateElements, consistency))
    {
      PairFacts(instance, prepared, addedStateElements, f, pairs, k, factMap);
      FutureHere(instance, prepared, futureCachingByPrecondition, addedStateElements, f, pairs, k, pruneWithFutureSatisfiablility, consistency);
      PreparedFacts(instance, prepared, pairs[k].0, pairs[k].1);
      hide *;
      hide Ready;
    }
  }
}
