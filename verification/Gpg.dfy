/** Semi-naive grounding (gpg.h:737-876, 964-1186, 1312-1500): every new fact is joined with the known ones, and every ground instance of the
    rules whose antecedents are derivable is produced exactly once. Hierarchy typing is off. */
module Gpg {
  import opened Rules
  import opened FactIndex
  import opened StateMap

  datatype Grounded = Grounded(groundedNo: nat, action: nat, arguments: seq<int>, groundedPreconditions: seq<int>, groundedAddEffects: seq<nat>)

  // ----- the books -----

  function KeyOf(g: Grounded): Key {
    Key(g.action, g.arguments)
  }

  ghost function Keys(output: seq<Grounded>): (r: set<Key>)
    ensures forall i :: 0 <= i < |output| ==> KeyOf(output[i]) in r
    ensures forall k: Key :: k in r ==> exists i :: 0 <= i < |output| && KeyOf(output[i]) == k
  {
    set i | 0 <= i < |output| :: KeyOf(output[i])
  }

  ghost predicate DistinctKeys(output: seq<Grounded>) {
    forall i, j :: 0 <= i < j < |output| ==> KeyOf(output[i]) != KeyOf(output[j])
  }

  /** Fact f has number x. */
  ghost predicate Numbered(known: seq<Fact>, f: Fact, x: int) {
    0 <= x < |known| && known[x] == f
  }

  ghost predicate AllNumbered(known: seq<Fact>, atoms: seq<Atom>, s: seq<int>, numbers: seq<int>) {
    |numbers| == |atoms| && forall p :: 0 <= p < |atoms| ==> Numbered(known, Ground(atoms[p], s), numbers[p])
  }

  ghost predicate AddsNumbered(known: seq<Fact>, atoms: seq<Atom>, s: seq<int>, numbers: seq<nat>) {
    |numbers| == |atoms| && forall c :: 0 <= c < |atoms| ==> Numbered(known, Ground(atoms[c], s), numbers[c])
  }

  ghost predicate EntryOk(inst: Instance, known: seq<Fact>, g: Grounded, i: nat) {
    && g.groundedNo == i && g.action < |inst.actions| && g.arguments in Legal(inst, g.action)
    && AllNumbered(known, inst.actions[g.action].antecedents, g.arguments, g.groundedPreconditions)
    && AddsNumbered(known, inst.actions[g.action].consequences, g.arguments, g.groundedAddEffects)
  }

  /** Each instance carries its position and the numbers of its facts, and none is repeated. */
  ghost predicate Outputs(inst: Instance, output: seq<Grounded>, known: seq<Fact>) {
    DistinctKeys(output) && forall i: nat :: i < |output| ==> EntryOk(inst, known, output[i], i)
  }

  ghost predicate FactFine(inst: Instance, f: Fact) {
    inst.FactOk(f) && Derivable(inst, f) && f in Universe(inst)
  }

  ghost predicate Books(m: map<Fact, nat>, s: seq<Fact>, base: nat) {
    && (forall i :: 0 <= i < |s| ==> s[i] in m && m[s[i]] == base + i)
    && (forall f :: f in m ==> base <= m[f] < base + |s| && s[m[f] - base] == f)
  }

  /** The processed facts in order, then the queue, are numbered from 0; each is derivable. */
  ghost predicate Book(inst: Instance, added: seq<Fact>, processed: map<Fact, nat>, toBe: map<Fact, nat>, queue: seq<Fact>) {
    && Books(processed, added, 0) && Books(toBe, queue, |added|)
    && (forall f :: f in toBe ==> f !in processed)
    && (forall i :: 0 <= i < |added| ==> FactFine(inst, added[i])) && (forall i :: 0 <= i < |queue| ==> FactFine(inst, queue[i]))
  }

  lemma {:induction false} DistinctSize(s: seq<Fact>)
    requires Distinct(s)
    ensures |FactSet(s)| == |s|
    decreases |s|
  {
    if s == [] {
      assert FactSet(s) == {};
    } else {
      var n := |s| - 1;
      DistinctSize(s[..n]);
      assert s == s[..n] + [s[n]];
      var front := FactSet(s[..n]);
      assert s[n] !in front && FactSet(s) == front + {s[n]};
    }
  }

  lemma BooksSize(m: map<Fact, nat>, s: seq<Fact>, base: nat)
    requires Books(m, s, base)
    ensures |m| == |s|
  {
    forall i, j | 0 <= i < j < |s| ensures s[i] != s[j] { assert m[s[i]] == base + i && m[s[j]] == base + j; }
    DistinctSize(s);
    assert m.Keys == FactSet(s);
    assert |m| == |m.Keys|;
  }

  lemma BooksSnoc(m: map<Fact, nat>, s: seq<Fact>, base: nat, f: Fact)
    requires Books(m, s, base) && f !in m
    ensures Books(m[f := base + |s|], s + [f], base)
  {
  }

  lemma NumberedMore(known: seq<Fact>, more: seq<Fact>, f: Fact, x: int)
    requires Numbered(known, f, x) && known <= more
    ensures Numbered(more, f, x)
  {
  }

  lemma OutputsMore(inst: Instance, output: seq<Grounded>, known: seq<Fact>, more: seq<Fact>)
    requires Outputs(inst, output, known) && known <= more
    ensures Outputs(inst, output, more)
  {
    hide Numbered, Legal;
    forall i: nat | i < |output| ensures EntryOk(inst, more, output[i], i) {
      assert EntryOk(inst, known, output[i], i);
      var act, g := inst.actions[output[i].action], output[i];
      forall p | 0 <= p < |act.antecedents| ensures Numbered(more, Ground(act.antecedents[p], g.arguments), g.groundedPreconditions[p]) {
        NumberedMore(known, more, Ground(act.antecedents[p], g.arguments), g.groundedPreconditions[p]);
      }
      forall c | 0 <= c < |act.consequences| ensures Numbered(more, Ground(act.consequences[c], g.arguments), g.groundedAddEffects[c]) {
        NumberedMore(known, more, Ground(act.consequences[c], g.arguments), g.groundedAddEffects[c]);
      }
    }
  }

  lemma OutputsSnoc(inst: Instance, output: seq<Grounded>, known: seq<Fact>, g: Grounded)
    requires Outputs(inst, output, known) && EntryOk(inst, known, g, |output|) && KeyOf(g) !in Keys(output)
    ensures Outputs(inst, output + [g], known) && Keys(output + [g]) == Keys(output) + {KeyOf(g)}
  {
    hide EntryOk;
    var more := output + [g];
    forall i: nat | i < |more| ensures EntryOk(inst, known, more[i], i) {
      if i < |output| { assert EntryOk(inst, known, output[i], i); }
    }
    forall i: nat | i < |output| ensures KeyOf(output[i]) in Keys(more) { assert more[i] == output[i]; }
    assert more[|output|] == g;
  }

  /** A new fact gets the next number. */
  lemma BookNew(inst: Instance, added: seq<Fact>, processed: map<Fact, nat>, toBe: map<Fact, nat>, queue: seq<Fact>, f: Fact)
    requires Book(inst, added, processed, toBe, queue) && f !in processed && f !in toBe && FactFine(inst, f)
    ensures |processed| + |toBe| == |added| + |queue|
    ensures Book(inst, added, processed, toBe[f := |added| + |queue|], queue + [f])
    ensures added + queue <= added + (queue + [f]) && Numbered(added + (queue + [f]), f, |added| + |queue|)
  {
    hide FactFine, Books;
    BooksSize(processed, added, 0);
    BooksSize(toBe, queue, |added|);
    BooksSnoc(toBe, queue, |added|, f);
    assert added + (queue + [f]) == added + queue + [f];
  }

  lemma BookHas(inst: Instance, added: seq<Fact>, processed: map<Fact, nat>, toBe: map<Fact, nat>, queue: seq<Fact>, f: Fact)
    requires Book(inst, added, processed, toBe, queue)
    ensures f in processed ==> Numbered(added + queue, f, processed[f])
    ensures f in toBe ==> Numbered(added + queue, f, toBe[f])
    ensures f in processed <==> f in added
    ensures f in added ==> Numbered(added, f, processed[f])
  {
    hide FactFine;
  }

  lemma BookPop(inst: Instance, added: seq<Fact>, processed: map<Fact, nat>, toBe: map<Fact, nat>, queue: seq<Fact>)
    requires Book(inst, added, processed, toBe, queue) && |queue| > 0
    ensures queue[0] in toBe && toBe[queue[0]] == |added| && FactFine(inst, queue[0]) && queue[0] !in added
    ensures Book(inst, added + [queue[0]], processed[queue[0] := |added|], toBe - {queue[0]}, queue[1..])
    ensures added + [queue[0]] + queue[1..] == added + queue
  {
    hide FactFine;
  }

  lemma BookDistinct(inst: Instance, added: seq<Fact>, processed: map<Fact, nat>, toBe: map<Fact, nat>, queue: seq<Fact>)
    requires Book(inst, added, processed, toBe, queue)
    ensures Distinct(added) && FactSet(added) <= Universe(inst) && forall f :: f in FactSet(added) ==> Derivable(inst, f)
  {
    forall i, j | 0 <= i < j < |added| ensures added[i] != added[j] { assert processed[added[i]] == i && processed[added[j]] == j; }
    forall f | f in FactSet(added) ensures Derivable(inst, f) && f in Universe(inst) {
      var i :| 0 <= i < |added| && added[i] == f;
      assert FactFine(inst, added[i]);
    }
  }

  // ----- joins -----

  /** The antecedents before p, and the one matched first, are matched by facts with the noted numbers. */
  ghost predicate MatchedBelow(act: Action, partial: seq<int>, matched: seq<int>, added: seq<Fact>, p: nat, initially: nat) {
    |matched| == |act.antecedents| && forall q :: 0 <= q < |act.antecedents| && (q < p || q == initially) ==> MatchedAt(act.antecedents[q], partial, matched[q], added)
  }

  ghost predicate MatchedAt(atom: Atom, partial: seq<int>, x: int, added: seq<Fact>) {
    Bound(atom, partial) && Numbered(added, Ground(atom, partial), x)
  }

  lemma MatchedNext(inst: Instance, act: Action, partial: seq<int>, next: seq<int>, matched: seq<int>, added: seq<Fact>, p: nat, initially: nat, g: Fact, x: nat)
    requires MatchedBelow(act, partial, matched, added, p, initially) && p < |act.antecedents| && p != initially
    requires inst.Valid() && Fits(inst, act, act.antecedents[p], g) && Binds(act.antecedents[p], g, partial, next) && Numbered(added, g, x)
    ensures MatchedBelow(act, next, matched[p := x], added, p + 1, initially)
  {
    FitsValues(inst, act, act.antecedents[p], g);
    hide Fits, Instance.Valid;
    BindsExtends(act.antecedents[p], g, partial, next);
    forall q | 0 <= q < |act.antecedents| && (q < p + 1 || q == initially) ensures MatchedAt(act.antecedents[q], next, matched[p := x][q], added) {
      if q != p {
        assert MatchedAt(act.antecedents[q], partial, matched[q], added);
        BoundMore(act.antecedents[q], partial, next);
        BoundGround(act.antecedents[q], partial, next);
      } else {
        BoundBy(act.antecedents[p], g, partial, next, next);
        forall i | 0 <= i < |act.antecedents[p].arguments| ensures Value(next, act.antecedents[p].arguments[i]) != NOT_ASSIGNED {
          assert Value(next, act.antecedents[p].arguments[i]) == g.arguments[i] >= 0;
        }
      }
    }
  }

  lemma BindsExtends(atom: Atom, g: Fact, partial: seq<int>, next: seq<int>)
    requires Binds(atom, g, partial, next)
    ensures Extends(next, partial) && Extends(next, next)
  {
  }

  lemma MatchedBound(act: Action, partial: seq<int>, matched: seq<int>, added: seq<Fact>, p: nat, initially: nat)
    requires MatchedBelow(act, partial, matched, added, p, initially)
    ensures BoundBelow(act, partial, p, initially)
    ensures initially < |act.antecedents| ==> Bound(act.antecedents[initially], partial) && Ground(act.antecedents[initially], partial) in added
  {
    forall q | 0 <= q < |act.antecedents| && (q < p || q == initially) ensures Bound(act.antecedents[q], partial) {
      assert MatchedAt(act.antecedents[q], partial, matched[q], added);
    }
    if initially < |act.antecedents| { assert MatchedAt(act.antecedents[initially], partial, matched[initially], added); }
  }

  lemma MatchedSkip(act: Action, partial: seq<int>, matched: seq<int>, added: seq<Fact>, initially: nat)
    requires MatchedBelow(act, partial, matched, added, initially, initially)
    ensures MatchedBelow(act, partial, matched, added, initially + 1, initially)
  {
  }

  /** Everything that could be used for antecedent p is among the listed facts. */
  lemma AllUsed(inst: Instance, a: nat, partial: seq<int>, initially: nat, f: Fact, p: nat, added: seq<Fact>, facts: seq<Fact>, v: set<nat>, matched: seq<int>)
    requires inst.Valid() && InRange(inst, a, p) && p != initially && v <= AssignedBefore(inst.actions[a], p, initially)
    requires MatchedBelow(inst.actions[a], partial, matched, added, p, initially)
    requires FactsFor(inst, inst.actions[a], inst.actions[a].antecedents[p], v, added,
                      Project(inst.actions[a].antecedents[p].arguments, Ground(inst.actions[a].antecedents[p], partial).arguments, v), facts)
    ensures Using(inst, a, partial, initially, f, p, FactSet(added), facts) == Matches(inst, a, partial, initially, f, p, FactSet(added))
  {
    var act, known := inst.actions[a], FactSet(added);
    var atom := act.antecedents[p];
    MatchedBound(act, partial, matched, added, p, initially);
    assert inst.ActionOk(act) && inst.AtomOk(act, atom);
    hide Instance.Valid, MatchedBelow, BoundBelow, Fits, AssignedBefore, Project;
    forall s | s in Matches(inst, a, partial, initially, f, p, known) ensures Ground(atom, s) in facts {
      assert RestAt(act, s, initially, f, p, known);
      GroundFits(inst, a, atom, s);
      GpgStateMap.SameKey(act, atom, p, initially, partial, s, v);
      var x :| 0 <= x < |added| && added[x] == Ground(atom, s);
      assert FitsAt(inst, act, atom, v, added[x], Project(atom.arguments, Ground(atom, partial).arguments, v));
    }
  }

  /** A violated constraint between assigned variables stays violated. */
  lemma ConstraintLost(inst: Instance, a: nat, partial: seq<int>, c: nat, initially: nat, f: Fact, p: nat, known: set<Fact>)
    requires a < |inst.actions| && c < |inst.actions[a].variableConstraints| && !Satisfies(inst.actions[a].variableConstraints[c], partial)
    requires Value(partial, inst.actions[a].variableConstraints[c].var1) != NOT_ASSIGNED && Value(partial, inst.actions[a].variableConstraints[c].var2) != NOT_ASSIGNED
    ensures Matches(inst, a, partial, initially, f, p, known) == {}
  {
    forall s | s in Legal(inst, a) ensures !Extends(s, partial) {
      assert Satisfies(inst.actions[a].variableConstraints[c], s);
    }
  }

  // ----- one new fact -----

  /** What joining the new fact f with the known ones at antecedent p must produce: f is matched to p, and to none after p. */
  ghost function Batch(inst: Instance, a: nat, p: nat, f: Fact, known: set<Fact>): (r: set<seq<int>>)
    requires InRange(inst, a, p)
    ensures forall s :: s in r <==> s in Legal(inst, a) && Ground(inst.actions[a].antecedents[p], s) == f && Rest(inst.actions[a], s, p, f, 0, known)
  {
    set s | s in Legal(inst, a) && Ground(inst.actions[a].antecedents[p], s) == f && Rest(inst.actions[a], s, p, f, 0, known)
  }

  function Unassigned(n: nat): (s: seq<int>)
    ensures |s| == n && forall i :: 0 <= i < n ==> s[i] == NOT_ASSIGNED
  {
    seq(n, _ => NOT_ASSIGNED)
  }

  lemma BatchMatches(inst: Instance, a: nat, p: nat, f: Fact, known: set<Fact>, partial: seq<int>)
    requires inst.Valid() && InRange(inst, a, p) && Fits(inst, inst.actions[a], inst.actions[a].antecedents[p], f)
    requires Binds(inst.actions[a].antecedents[p], f, Unassigned(|inst.actions[a].variableSorts|), partial)
    ensures Batch(inst, a, p, f, known) == Matches(inst, a, partial, p, f, 0, known)
  {
    var atom, none := inst.actions[a].antecedents[p], Unassigned(|inst.actions[a].variableSorts|);
    FitsValues(inst, inst.actions[a], atom, f);
    hide Fits, Instance.Valid, Rest;
    forall s | s in Legal(inst, a) ensures Extends(s, partial) <==> Ground(atom, s) == f {
      assert Extends(s, none);
      if Extends(s, partial) { BoundBy(atom, f, none, partial, s); }
      if Ground(atom, s) == f { BindsBack(atom, f, none, partial, s); }
    }
  }

  lemma BatchUnfit(inst: Instance, a: nat, p: nat, f: Fact, known: set<Fact>)
    requires inst.Valid() && InRange(inst, a, p) && !Fits(inst, inst.actions[a], inst.actions[a].antecedents[p], f)
    ensures Batch(inst, a, p, f, known) == {}
  {
    assert inst.ActionOk(inst.actions[a]) && inst.AtomOk(inst.actions[a], inst.actions[a].antecedents[p]);
    forall s | s in Legal(inst, a) ensures Ground(inst.actions[a].antecedents[p], s) != f { GroundFits(inst, a, inst.actions[a].antecedents[p], s); }
  }

  lemma KnownFits(inst: Instance, act: Action, atom: Atom, added: seq<Fact>, g: Fact)
    requires g in added && Fits(inst, act, atom, g)
    ensures HasFact(inst, act, atom, added)
  {
    hide Fits;
    var x :| 0 <= x < |added| && added[x] == g;
  }

  lemma BatchLacking(inst: Instance, a: nat, p: nat, f: Fact, added: seq<Fact>, q: nat)
    requires inst.Valid() && InRange(inst, a, p) && InRange(inst, a, q) && f in added && !HasFact(inst, inst.actions[a], inst.actions[a].antecedents[q], added)
    ensures Batch(inst, a, p, f, FactSet(added)) == {}
  {
    var act := inst.actions[a];
    assert inst.ActionOk(act) && inst.AtomOk(act, act.antecedents[q]);
    hide Fits, Instance.Valid;
    forall s | s in Legal(inst, a) && Ground(act.antecedents[p], s) == f ensures !Rest(act, s, p, f, 0, FactSet(added)) {
      GroundFits(inst, a, act.antecedents[q], s);
      if Ground(act.antecedents[q], s) in added { KnownFits(inst, act, act.antecedents[q], added, Ground(act.antecedents[q], s)); }
      assert Ground(act.antecedents[q], s) !in added;
      assert q != p && !RestAt(act, s, p, f, q, FactSet(added));
    }
  }

  ghost predicate InBatch(inst: Instance, pairs: seq<(nat, nat)>, k: nat, f: Fact, known: set<Fact>, key: Key) {
    exists j :: 0 <= j < k && j < |pairs| && BatchAt(inst, pairs[j].0, pairs[j].1, f, known, key)
  }

  ghost predicate BatchAt(inst: Instance, a: nat, p: nat, f: Fact, known: set<Fact>, key: Key) {
    InRange(inst, a, p) && key.action == a && key.arguments in Batch(inst, a, p, f, known)
  }

  /** No instance belongs to two batches, and none was possible before the new fact. */
  lemma BatchesApart(inst: Instance, added: seq<Fact>, f: Fact, pairs: seq<(nat, nat)>, k: nat, key: Key)
    requires PairsOk(inst, f.head, pairs) && k < |pairs| && f !in added
    requires BatchAt(inst, pairs[k].0, pairs[k].1, f, FactSet(added + [f]), key)
    ensures !IsFiring(inst, FactSet(added), key) && !InBatch(inst, pairs, k, f, FactSet(added + [f]), key)
  {
    var known := FactSet(added + [f]);
    var a, p := pairs[k].0, pairs[k].1;
    var act := inst.actions[a];
    assert Ground(act.antecedents[p], key.arguments) == f;
    forall j | 0 <= j < k ensures !BatchAt(inst, pairs[j].0, pairs[j].1, f, known, key) {
      var b, q := pairs[j].0, pairs[j].1;
      assert pairs[j] != pairs[k] && pairs[j] == (b, q) && pairs[k] == (a, p);
      if a == b {
        OneBatch(inst, a, p, q, f, known, key.arguments);
      }
    }
  }

  lemma OneBatch(inst: Instance, a: nat, p: nat, q: nat, f: Fact, known: set<Fact>, s: seq<int>)
    requires InRange(inst, a, p) && InRange(inst, a, q) && p != q
    ensures !(s in Batch(inst, a, p, f, known) && s in Batch(inst, a, q, f, known))
  {
    var act := inst.actions[a];
    if Rest(act, s, p, f, 0, known) && Rest(act, s, q, f, 0, known) {
      assert RestAt(act, s, p, f, q, known) && RestAt(act, s, q, f, p, known);
    }
  }

  lemma {:induction false} LastUse(act: Action, s: seq<int>, f: Fact, n: nat, q: nat) returns (p: nat)
    requires q < n <= |act.antecedents| && Ground(act.antecedents[q], s) == f
    ensures p < n && Ground(act.antecedents[p], s) == f && forall r :: p < r < n ==> Ground(act.antecedents[r], s) != f
    decreases n
  {
    if Ground(act.antecedents[n - 1], s) == f {
      p := n - 1;
    } else {
      p := LastUse(act, s, f, n - 1, q);
    }
  }

  /** The batches make up exactly what becomes possible with the new fact. */
  lemma BatchesSuffice(inst: Instance, added: seq<Fact>, f: Fact, pairs: seq<(nat, nat)>, key: Key)
    requires PairsOk(inst, f.head, pairs)
    ensures IsFiring(inst, FactSet(added + [f]), key) <==> IsFiring(inst, FactSet(added), key) || InBatch(inst, pairs, |pairs|, f, FactSet(added + [f]), key)
  {
    var known0, known := FactSet(added), FactSet(added + [f]);
    var a, s := key.action, key.arguments;
    if IsFiring(inst, known, key) && !IsFiring(inst, known0, key) {
      var act := inst.actions[a];
      var q :| 0 <= q < |act.antecedents| && Ground(act.antecedents[q], s) !in known0;
      assert Ground(act.antecedents[q], s) in known;
      var p := LastUse(act, s, f, |act.antecedents|, q);
      FiringBatch(inst, a, s, f, known, p);
      assert (a, p) in pairs;
      var j :| 0 <= j < |pairs| && pairs[j] == (a, p);
      assert BatchAt(inst, pairs[j].0, pairs[j].1, f, known, key);
    }
    if InBatch(inst, pairs, |pairs|, f, known, key) {
      var j :| 0 <= j < |pairs| && BatchAt(inst, pairs[j].0, pairs[j].1, f, known, key);
      BatchFires(inst, a, pairs[j].1, s, f, known);
    }
    if IsFiring(inst, known0, key) { FiresMore(inst, a, s, known0, known); }
  }

  lemma FiringBatch(inst: Instance, a: nat, s: seq<int>, f: Fact, known: set<Fact>, p: nat)
    requires Fires(inst, a, s, known) && InRange(inst, a, p) && Ground(inst.actions[a].antecedents[p], s) == f
    requires forall r :: p < r < |inst.actions[a].antecedents| ==> Ground(inst.actions[a].antecedents[r], s) != f
    ensures s in Batch(inst, a, p, f, known)
  {
    forall q | 0 <= q < |inst.actions[a].antecedents| && q != p ensures RestAt(inst.actions[a], s, p, f, q, known) { }
  }

  lemma BatchFires(inst: Instance, a: nat, p: nat, s: seq<int>, f: Fact, known: set<Fact>)
    requires InRange(inst, a, p) && s in Batch(inst, a, p, f, known) && f in known
    ensures Fires(inst, a, s, known)
  {
    forall q | 0 <= q < |inst.actions[a].antecedents| ensures Ground(inst.actions[a].antecedents[q], s) in known {
      if q != p { assert RestAt(inst.actions[a], s, p, f, q, known); }
    }
  }

  lemma FiringFine(inst: Instance, a: nat, s: seq<int>, known: set<Fact>, c: nat)
    requires inst.Valid() && Fires(inst, a, s, known) && (forall f :: f in known ==> Derivable(inst, f)) && c < |inst.actions[a].consequences|
    ensures FactFine(inst, Ground(inst.actions[a].consequences[c], s))
  {
    assert inst.ActionOk(inst.actions[a]) && inst.AtomOk(inst.actions[a], inst.actions[a].consequences[c]);
    DerivableStep(inst, a, s, known, c);
    InUniverse(inst, |inst.actions|, a, s, c);
  }

  lemma MatchedFires(inst: Instance, a: nat, s: seq<int>, matched: seq<int>, added: seq<Fact>)
    requires a < |inst.actions| && s in Legal(inst, a) && MatchedBelow(inst.actions[a], s, matched, added, |inst.actions[a].antecedents|, |inst.actions[a].antecedents|)
    ensures Fires(inst, a, s, FactSet(added))
    ensures AllNumbered(added, inst.actions[a].antecedents, s, matched)
  {
    var act := inst.actions[a];
    hide Legal;
    forall q | 0 <= q < |act.antecedents| ensures Ground(act.antecedents[q], s) in added && Numbered(added, Ground(act.antecedents[q], s), matched[q]) {
      assert MatchedAt(act.antecedents[q], s, matched[q], added);
    }
  }

  // ----- matching one fact -----

  /** Releasing the listed variables gives partial back. */
  ghost predicate Releases(partial: seq<int>, next: seq<int>, newlyAssigned: seq<nat>) {
    && |next| == |partial|
    && (forall i :: 0 <= i < |newlyAssigned| ==> newlyAssigned[i] < |partial| && partial[newlyAssigned[i]] == NOT_ASSIGNED)
    && (forall v :: 0 <= v < |partial| && v !in newlyAssigned ==> next[v] == partial[v])
  }

  /** The first n arguments are bound. */
  ghost predicate BindUpTo(inst: Instance, act: Action, atom: Atom, g: Fact, partial: seq<int>, next: seq<int>, newlyAssigned: seq<nat>, n: nat) {
    && inst.ActionOk(act) && inst.AtomOk(act, atom) && Fits(inst, act, atom, g) && PartialOk(inst, act, next) && n <= |atom.arguments|
    && Releases(partial, next, newlyAssigned)
    && (forall v :: 0 <= v < |partial| && partial[v] != NOT_ASSIGNED ==> next[v] == partial[v])
    && (forall i :: 0 <= i < n ==> Value(next, atom.arguments[i]) == g.arguments[i])
    && (forall v :: 0 <= v < |partial| && next[v] != partial[v] ==> v in atom.arguments[..n])
    && (forall i :: 0 <= i < |g.arguments| ==> g.arguments[i] >= 0)
  }

  lemma BindStart(inst: Instance, a: nat, p: nat, g: Fact, partial: seq<int>)
    requires inst.Valid() && InRange(inst, a, p) && PartialOk(inst, inst.actions[a], partial) && Fits(inst, inst.actions[a], inst.actions[a].antecedents[p], g)
    ensures BindUpTo(inst, inst.actions[a], inst.actions[a].antecedents[p], g, partial, partial, [], 0)
    ensures a < |inst.actions| && p < |inst.actions[a].antecedents|
  {
    FitsValues(inst, inst.actions[a], inst.actions[a].antecedents[p], g);
    assert inst.ActionOk(inst.actions[a]) && inst.AtomOk(inst.actions[a], inst.actions[a].antecedents[p]);
    hide Fits, Instance.AtomOk, Instance.ActionOk;
  }

  lemma BindStep(inst: Instance, act: Action, atom: Atom, g: Fact, partial: seq<int>, next: seq<int>, newlyAssigned: seq<nat>, i: nat)
    requires i < |atom.arguments| && BindUpTo(inst, act, atom, g, partial, next, newlyAssigned, i)
    ensures i < |g.arguments| && atom.arguments[i] < |next| && atom.arguments[i] < |act.variableSorts|
    ensures act.variableSorts[atom.arguments[i]] < |inst.sorts| && g.arguments[i] in inst.sorts[act.variableSorts[atom.arguments[i]]]
    ensures Releases(partial, next, newlyAssigned)
    ensures next[atom.arguments[i]] == NOT_ASSIGNED ==>
      BindUpTo(inst, act, atom, g, partial, next[atom.arguments[i] := g.arguments[i]], newlyAssigned + [atom.arguments[i]], i + 1)
    ensures next[atom.arguments[i]] == g.arguments[i] ==> BindUpTo(inst, act, atom, g, partial, next, newlyAssigned, i + 1)
    ensures next[atom.arguments[i]] != NOT_ASSIGNED && next[atom.arguments[i]] != g.arguments[i] ==> Clash(atom, g, partial)
  {
    var v, c := atom.arguments[i], g.arguments[i];
    assert ArgumentFits(inst, act, v, c);
    assert atom.arguments[..i + 1] == atom.arguments[..i] + [v];
    if next[v] == NOT_ASSIGNED {
      BindNew(inst, act, atom, g, partial, next, newlyAssigned, i);
    } else if next[v] != c {
      BindOld(inst, act, atom, g, partial, next, newlyAssigned, i);
      assert Value(partial, atom.arguments[i]) == next[v];
    }
  }

  lemma BindOld(inst: Instance, act: Action, atom: Atom, g: Fact, partial: seq<int>, next: seq<int>, newlyAssigned: seq<nat>, i: nat)
    requires i < |atom.arguments| && BindUpTo(inst, act, atom, g, partial, next, newlyAssigned, i) && i < |g.arguments| && atom.arguments[i] < |next|
    ensures next[atom.arguments[i]] == partial[atom.arguments[i]] || next[atom.arguments[i]] == g.arguments[i]
  {
    if next[atom.arguments[i]] != partial[atom.arguments[i]] {
      var j :| 0 <= j < i && atom.arguments[j] == atom.arguments[i];
      assert Value(next, atom.arguments[j]) == g.arguments[j];
    }
  }

  lemma BindNew(inst: Instance, act: Action, atom: Atom, g: Fact, partial: seq<int>, next: seq<int>, newlyAssigned: seq<nat>, i: nat)
    requires i < |atom.arguments| && BindUpTo(inst, act, atom, g, partial, next, newlyAssigned, i) && i < |g.arguments| && atom.arguments[i] < |next|
    requires ArgumentFits(inst, act, atom.arguments[i], g.arguments[i]) && next[atom.arguments[i]] == NOT_ASSIGNED
    ensures BindUpTo(inst, act, atom, g, partial, next[atom.arguments[i] := g.arguments[i]], newlyAssigned + [atom.arguments[i]], i + 1)
  {
    var v, c := atom.arguments[i], g.arguments[i];
    var more := next[v := c];
    assert atom.arguments[..i + 1] == atom.arguments[..i] + [v];
    hide Fits, Instance.AtomOk, Instance.ActionOk;
    forall j | 0 <= j < i + 1 ensures Value(more, atom.arguments[j]) == g.arguments[j] {
      if j < i { assert Value(next, atom.arguments[j]) == g.arguments[j]; }
    }
    assert partial[v] == NOT_ASSIGNED;
    forall u | 0 <= u < |partial| && u !in newlyAssigned + [v] ensures more[u] == partial[u] {
      assert v in newlyAssigned + [v];
    }
  }

  lemma BindEnd(inst: Instance, act: Action, atom: Atom, g: Fact, partial: seq<int>, next: seq<int>, newlyAssigned: seq<nat>)
    requires BindUpTo(inst, act, atom, g, partial, next, newlyAssigned, |atom.arguments|)
    ensures Releases(partial, next, newlyAssigned) && Binds(atom, g, partial, next) && PartialOk(inst, act, next)
  {
    assert atom.arguments[..|atom.arguments|] == atom.arguments;
  }

  ghost predicate Violated(c: Constraint, partial: seq<int>) {
    Value(partial, c.var1) != NOT_ASSIGNED && Value(partial, c.var2) != NOT_ASSIGNED && !Satisfies(c, partial)
  }

  ghost predicate AllHave(inst: Instance, act: Action, added: seq<Fact>) {
    forall q :: 0 <= q < |act.antecedents| ==> HasFact(inst, act, act.antecedents[q], added)
  }

  /** Only entries of later antecedents differ. */
  ghost predicate SameBelow(old_: seq<int>, new_: seq<int>, p: nat, initially: nat) {
    |new_| == |old_| && forall q :: 0 <= q < |old_| && (q < p || q == initially) ==> new_[q] == old_[q]
  }

  lemma SameBelowSelf(s: seq<int>, p: nat, initially: nat)
    ensures SameBelow(s, s, p, initially)
  {
  }

  lemma SameBelowLess(s: seq<int>, t: seq<int>, p: nat, initially: nat)
    requires SameBelow(s, t, p + 1, initially)
    ensures SameBelow(s, t, p, initially)
  {
  }

  lemma SameBelowOn(s: seq<int>, t: seq<int>, u: seq<int>, p: nat, initially: nat)
    requires SameBelow(s, t, p, initially) && SameBelow(t, u, p, initially)
    ensures SameBelow(s, u, p, initially)
  {
  }

  lemma SameBelowNote(s: seq<int>, t: seq<int>, u: seq<int>, p: nat, initially: nat)
    requires p < |s| && p != initially && |t| == |s| && t == s[p := t[p]] && SameBelow(t, u, p + 1, initially)
    ensures SameBelow(s, u, p, initially)
  {
  }

  lemma MatchedEnd(act: Action, partial: seq<int>, matched: seq<int>, added: seq<Fact>, p: nat, initially: nat)
    requires MatchedBelow(act, partial, matched, added, p, initially) && p >= |act.antecedents|
    ensures MatchedBelow(act, partial, matched, added, |act.antecedents|, |act.antecedents|)
  {
  }

  lemma MatchedSame(act: Action, partial: seq<int>, matched: seq<int>, matched2: seq<int>, added: seq<Fact>, p: nat, initially: nat)
    requires MatchedBelow(act, partial, matched, added, p, initially) && SameBelow(matched, matched2, p, initially)
    ensures MatchedBelow(act, partial, matched2, added, p, initially)
  {
    hide MatchedAt;
  }

  ghost predicate InitKnown(act: Action, partial: seq<int>, added: seq<Fact>, initially: nat) {
    initially < |act.antecedents| ==> Bound(act.antecedents[initially], partial) && Ground(act.antecedents[initially], partial) in added
  }

  lemma InitKnownNext(act: Action, partial: seq<int>, next: seq<int>, added: seq<Fact>, initially: nat)
    requires InitKnown(act, partial, added, initially) && Extends(next, partial)
    ensures InitKnown(act, next, added, initially)
  {
    if initially < |act.antecedents| {
      BoundMore(act.antecedents[initially], partial, next);
      BoundGround(act.antecedents[initially], partial, next);
    }
  }

  ghost predicate FactsFit(inst: Instance, act: Action, atom: Atom, added: seq<Fact>, facts: seq<Fact>) {
    Distinct(facts) && forall i :: 0 <= i < |facts| ==> facts[i] in added && Fits(inst, act, atom, facts[i])
  }

  lemma FactFits(inst: Instance, act: Action, atom: Atom, added: seq<Fact>, facts: seq<Fact>, k: nat)
    requires FactsFit(inst, act, atom, added, facts) && k < |facts|
    ensures facts[k] in added && Fits(inst, act, atom, facts[k]) && forall i :: 0 <= i < k ==> facts[i] != facts[k]
  {
  }

  lemma BatchLackingSome(inst: Instance, a: nat, p: nat, f: Fact, added: seq<Fact>)
    requires inst.Valid() && InRange(inst, a, p) && f in added
    requires exists q: nat :: q < |inst.actions[a].antecedents| && !HasFact(inst, inst.actions[a], inst.actions[a].antecedents[q], added)
    ensures Batch(inst, a, p, f, FactSet(added)) == {}
  {
    hide HasFact, Instance.Valid;
    var q: nat :| q < |inst.actions[a].antecedents| && !HasFact(inst, inst.actions[a], inst.actions[a].antecedents[q], added);
    BatchLacking(inst, a, p, f, added, q);
  }

  lemma NoBatchYet(inst: Instance, pairs: seq<(nat, nat)>, f: Fact, known: set<Fact>)
    ensures forall key: Key :: !InBatch(inst, pairs, 0, f, known, key)
  {
  }

  /** The first n arguments of f have been taken over into the assignment. */
  ghost predicate TakenUpTo(inst: Instance, act: Action, atom: Atom, f: Fact, taken: seq<int>, n: nat) {
    && inst.Valid() && inst.AtomOk(act, atom) && inst.ActionOk(act) && |f.arguments| == |atom.arguments| && n <= |atom.arguments|
    && PartialOk(inst, act, taken)
    && (forall i :: 0 <= i < n ==> Value(taken, atom.arguments[i]) == f.arguments[i] && ArgumentFits(inst, act, atom.arguments[i], f.arguments[i]) && f.arguments[i] >= 0)
    && (forall v :: 0 <= v < |taken| && taken[v] != NOT_ASSIGNED ==> v in atom.arguments[..n])
  }

  lemma TakeStep(inst: Instance, act: Action, atom: Atom, f: Fact, taken: seq<int>, i: nat)
    requires i < |atom.arguments| && TakenUpTo(inst, act, atom, f, taken, i)
    requires atom.arguments[i] < |act.variableSorts| && act.variableSorts[atom.arguments[i]] < |inst.sorts| && f.arguments[i] in inst.sorts[act.variableSorts[atom.arguments[i]]]
    ensures atom.arguments[i] < |taken|
    ensures taken[atom.arguments[i]] == NOT_ASSIGNED ==> TakenUpTo(inst, act, atom, f, taken[atom.arguments[i] := f.arguments[i]], i + 1)
    ensures taken[atom.arguments[i]] == f.arguments[i] ==> TakenUpTo(inst, act, atom, f, taken, i + 1)
    ensures taken[atom.arguments[i]] != NOT_ASSIGNED && taken[atom.arguments[i]] != f.arguments[i] ==> !SameWhereSame(atom.arguments, f.arguments)
  {
    var v, c := atom.arguments[i], f.arguments[i];
    assert inst.SortOk(inst.sorts[act.variableSorts[v]]);
    assert ArgumentFits(inst, act, v, c) && c >= 0;
    assert atom.arguments[..i + 1] == atom.arguments[..i] + [v];
    if taken[v] == NOT_ASSIGNED {
      TakeNew(inst, act, atom, f, taken, i);
    } else if taken[v] != c {
      var j :| 0 <= j < i && atom.arguments[j] == v;
      assert Value(taken, atom.arguments[j]) == f.arguments[j];
    }
  }

  lemma TakeNew(inst: Instance, act: Action, atom: Atom, f: Fact, taken: seq<int>, i: nat)
    requires i < |atom.arguments| && TakenUpTo(inst, act, atom, f, taken, i) && atom.arguments[i] < |taken| && taken[atom.arguments[i]] == NOT_ASSIGNED
    requires ArgumentFits(inst, act, atom.arguments[i], f.arguments[i]) && f.arguments[i] >= 0
    ensures TakenUpTo(inst, act, atom, f, taken[atom.arguments[i] := f.arguments[i]], i + 1)
  {
    var v, c := atom.arguments[i], f.arguments[i];
    var next := taken[v := c];
    assert atom.arguments[..i + 1] == atom.arguments[..i] + [v];
    hide Instance.Valid, Instance.AtomOk, Instance.ActionOk;
    forall j | 0 <= j < i + 1 ensures Value(next, atom.arguments[j]) == f.arguments[j] && ArgumentFits(inst, act, atom.arguments[j], f.arguments[j]) && f.arguments[j] >= 0 {
      if j < i { assert Value(taken, atom.arguments[j]) == f.arguments[j]; }
    }
    forall u | 0 <= u < |next| && next[u] != NOT_ASSIGNED ensures u in atom.arguments[..i + 1] {
      if u == v { assert atom.arguments[..i + 1][i] == v; }
    }
  }

  lemma TakeEnd(inst: Instance, act: Action, atom: Atom, f: Fact, taken: seq<int>)
    requires TakenUpTo(inst, act, atom, f, taken, |atom.arguments|) && f.head == atom.head
    ensures Fits(inst, act, atom, f) && PartialOk(inst, act, taken) && Binds(atom, f, Unassigned(|act.variableSorts|), taken)
  {
    hide Instance.Valid, Instance.ActionOk;
    assert atom.arguments[..|atom.arguments|] == atom.arguments;
    forall i, j | 0 <= i < |atom.arguments| && 0 <= j < |atom.arguments| && atom.arguments[i] == atom.arguments[j] ensures f.arguments[i] == f.arguments[j] {
      assert Value(taken, atom.arguments[i]) == f.arguments[i] && Value(taken, atom.arguments[j]) == f.arguments[j];
    }
  }

  lemma InitialFine(inst: Instance, i: nat)
    requires inst.Valid() && i < |inst.init|
    ensures FactFine(inst, inst.init[i])
  {
  }

  lemma StillKnown(known: seq<Fact>, more: seq<Fact>, f: Fact)
    requires f in known && known <= more
    ensures f in more
  {
    var i :| 0 <= i < |known| && known[i] == f;
    assert more[i] == f;
  }

  // ----- bookkeeping of keys -----

  lemma TagEmpty(a: nat)
    ensures Tagged(a, {}) == {}
  {
  }

  lemma TagUnion(a: nat, s: set<seq<int>>, t: set<seq<int>>)
    ensures Tagged(a, s + t) == Tagged(a, s) + Tagged(a, t)
  {
  }

  lemma TagFresh(a: nat, keys: set<Key>, whole: set<seq<int>>, done: set<seq<int>>, step: set<seq<int>>)
    requires Tagged(a, whole) !! keys && step <= whole && done !! step
    ensures Tagged(a, step) !! keys + Tagged(a, done)
  {
    forall k: Key | k in Tagged(a, step) ensures k !in keys && k !in Tagged(a, done) { assert k in Tagged(a, whole); }
  }

  lemma SortsHere(inst: Instance, a: nat, partial: seq<int>)
    requires inst.Valid() && a < |inst.actions| && PartialOk(inst, inst.actions[a], partial)
    ensures |partial| == |inst.actions[a].variableSorts|
    ensures forall v :: 0 <= v < |partial| ==> inst.actions[a].variableSorts[v] < |inst.sorts|
  {
    assert inst.ActionOk(inst.actions[a]);
  }

  ghost predicate FullBelow(partial: seq<int>, v: nat) {
    forall u :: 0 <= u < v && u < |partial| ==> partial[u] != NOT_ASSIGNED
  }

  lemma FullNext(partial: seq<int>, v: nat)
    requires FullBelow(partial, v) && v < |partial| && partial[v] != NOT_ASSIGNED
    ensures FullBelow(partial, v + 1)
  {
  }

  lemma NotFull(partial: seq<int>, v: nat)
    requires v <= |partial| && FullBelow(partial, v) && !Full(partial)
    ensures v < |partial|
  {
  }

  lemma ChoiceWithin(inst: Instance, a: nat, partial: seq<int>, v: nat, members: seq<int>, k: nat)
    requires a < |inst.actions| && v < |partial| && partial[v] == NOT_ASSIGNED && k < |members| && members[k] >= 0
    ensures Completions(inst, a, partial[v := members[k]]) <= Completions(inst, a, partial)
  {
    var next := partial[v := members[k]];
    forall s | s in Completions(inst, a, next) ensures Extends(s, partial) {
      forall u | 0 <= u < |s| && partial[u] != NOT_ASSIGNED ensures s[u] == partial[u] { assert next[u] == partial[u]; }
    }
  }

  /** Trying the k-th member of its sort for variable v. */
  lemma Trial(inst: Instance, a: nat, partial: seq<int>, v: nat, members: seq<int>, k: nat, matched: seq<int>, added: seq<Fact>)
    requires inst.Valid() && a < |inst.actions| && PartialOk(inst, inst.actions[a], partial) && v < |partial| && partial[v] == NOT_ASSIGNED
    requires FullBelow(partial, v)
    requires MatchedBelow(inst.actions[a], partial, matched, added, |inst.actions[a].antecedents|, |inst.actions[a].antecedents|)
    requires v < |inst.actions[a].variableSorts| && inst.actions[a].variableSorts[v] < |inst.sorts| && members == inst.sorts[inst.actions[a].variableSorts[v]] && k < |members|
    ensures members[k] >= 0 && forall i :: 0 <= i < k ==> members[i] != members[k]
    ensures PartialOk(inst, inst.actions[a], partial[v := members[k]]) && FullBelow(partial[v := members[k]], v + 1)
    ensures MatchedBelow(inst.actions[a], partial[v := members[k]], matched, added, |inst.actions[a].antecedents|, |inst.actions[a].antecedents|)
  {
    var act, next := inst.actions[a], partial[v := members[k]];
    assert inst.SortOk(members);
    assert Extends(next, partial);
    forall q | 0 <= q < |act.antecedents| ensures MatchedAt(act.antecedents[q], next, matched[q], added) {
      assert MatchedAt(act.antecedents[q], partial, matched[q], added);
      BoundMore(act.antecedents[q], partial, next);
      BoundGround(act.antecedents[q], partial, next);
    }
  }

  // ----- the run -----

  class GroundingRun {
    const instance: Instance
    const stateMap: GpgStateMap
    var output: seq<Grounded>
    var processedStateElements: map<Fact, nat>
    var toBeProcessedSet: map<Fact, nat>
    var toBeProcessedQueue: seq<Fact>
    var assignedVariables: seq<int>
    var matchedPreconditions: seq<int>

    constructor (stateMap: GpgStateMap)
      requires stateMap.Valid() && stateMap.addedStateElements == []
      ensures Valid() && this.stateMap == stateMap && instance == stateMap.instance && output == [] && toBeProcessedQueue == []
    {
      this.stateMap, instance := stateMap, stateMap.instance;
      output, toBeProcessedQueue, assignedVariables, matchedPreconditions := [], [], [], [];
      processedStateElements, toBeProcessedSet := map[], map[];
    }

    ghost function Known(): seq<Fact>
      reads this`toBeProcessedQueue, stateMap`addedStateElements
    {
      stateMap.addedStateElements + toBeProcessedQueue
    }

    ghost predicate BookOk()
      reads this`processedStateElements, this`toBeProcessedSet, this`toBeProcessedQueue, stateMap`addedStateElements
    {
      Book(instance, stateMap.addedStateElements, processedStateElements, toBeProcessedSet, toBeProcessedQueue)
    }

    ghost predicate Valid()
      reads this`output, this`processedStateElements, this`toBeProcessedSet, this`toBeProcessedQueue, stateMap
    {
      stateMap.Valid() && stateMap.instance == instance && BookOk() && Outputs(instance, output, Known())
    }

    lemma Parts()
      requires Valid()
      ensures stateMap.Valid() && stateMap.instance == instance && instance.Valid() && BookOk() && Outputs(instance, output, Known())
      ensures Distinct(stateMap.addedStateElements)
      ensures forall f :: f in FactSet(stateMap.addedStateElements) ==> Derivable(instance, f)
      ensures |stateMap.pruneWithFutureSatisfiablility| == |instance.actions|
    {
      BookDistinct(instance, stateMap.addedStateElements, processedStateElements, toBeProcessedSet, toBeProcessedQueue);
    }

    lemma Whole()
      requires stateMap.Valid() && stateMap.instance == instance && BookOk() && Outputs(instance, output, Known())
      ensures Valid()
    {
    }

    lemma AddedWithin()
      requires Valid()
      ensures FactSet(stateMap.addedStateElements) <= Universe(instance)
    {
      BookDistinct(instance, stateMap.addedStateElements, processedStateElements, toBeProcessedSet, toBeProcessedQueue);
    }

    /** Lines 820-851: a fact that is not known yet is numbered and queued. */
    method AddState(f: Fact) returns (number: nat)
      requires BookOk() && FactFine(instance, f)
      modifies this`toBeProcessedSet, this`toBeProcessedQueue
      ensures BookOk() && old(Known()) <= Known() && Numbered(Known(), f, number)
    {
      hide Book, FactFine;
      BookHas(instance, stateMap.addedStateElements, processedStateElements, toBeProcessedSet, toBeProcessedQueue, f);
      if f in processedStateElements {
        number := processedStateElements[f];
      } else if f in toBeProcessedSet {
        number := toBeProcessedSet[f];
      } else {
        BookNew(instance, stateMap.addedStateElements, processedStateElements, toBeProcessedSet, toBeProcessedQueue, f);
        number := |processedStateElements| + |toBeProcessedSet|;
        toBeProcessedSet := toBeProcessedSet[f := number];
        toBeProcessedQueue := toBeProcessedQueue + [f];
      }
    }

    /** Lines 807-855: all add effects of the instance. */
    method AddEffects(a: nat, s: seq<int>) returns (numbers: seq<nat>)
      requires instance.Valid() && BookOk() && Fires(instance, a, s, FactSet(stateMap.addedStateElements))
      requires forall f :: f in FactSet(stateMap.addedStateElements) ==> Derivable(instance, f)
      modifies this`toBeProcessedSet, this`toBeProcessedQueue
      ensures BookOk() && old(Known()) <= Known() && AddsNumbered(Known(), instance.actions[a].consequences, s, numbers)
    {
      hide BookOk, Known, FactFine, Derivable, Numbered, Instance.Valid;
      var consequences := instance.actions[a].consequences;
      numbers := [];
      var c: nat := 0;
      while c < |consequences|
        invariant c <= |consequences| && BookOk() && old(Known()) <= Known() && |numbers| == c
        invariant forall d :: 0 <= d < c ==> Numbered(Known(), Ground(consequences[d], s), numbers[d])
      {
        FiringFine(instance, a, s, FactSet(stateMap.addedStateElements), c);
        ghost var known := Known();
        var number := AddState(Ground(consequences[c], s));
        forall d | 0 <= d < c { NumberedMore(known, Known(), Ground(consequences[d], s), numbers[d]); }
        numbers := numbers + [number];
        c := c + 1;
      }
    }

    /** Lines 762-777. */
    method ConstraintsSatisfied(a: nat) returns (yes: bool)
      requires a < |instance.actions|
      ensures yes <==> ConstraintsHold(instance.actions[a], assignedVariables)
    {
      var constraints := instance.actions[a].variableConstraints;
      for c := 0 to |constraints|
        invariant forall d :: 0 <= d < c ==> Satisfies(constraints[d], assignedVariables)
      {
        if !Satisfies(constraints[c], assignedVariables) { return false; }
      }
      yes := true;
    }

    /** Lines 758-860: all variables are assigned. */
    method Emit(a: nat)
      requires Valid() && a < |instance.actions| && PartialOk(instance, instance.actions[a], assignedVariables) && Full(assignedVariables)
      requires MatchedBelow(instance.actions[a], assignedVariables, matchedPreconditions, stateMap.addedStateElements, |instance.actions[a].antecedents|, |instance.actions[a].antecedents|)
      requires Tagged(a, Completions(instance, a, assignedVariables)) !! Keys(output)
      modifies this`output, this`toBeProcessedSet, this`toBeProcessedQueue
      ensures Valid() && old(Known()) <= Known() && Keys(output) == old(Keys(output)) + Tagged(a, Completions(instance, a, assignedVariables))
    {
      hide *;
      Parts();
      FullCompletion(instance, a, assignedVariables);
      var yes := ConstraintsSatisfied(a);
      if !yes { return; }
      LegalHere(a);
      MatchedFires(instance, a, assignedVariables, matchedPreconditions, stateMap.addedStateElements);
      ghost var known, out := Known(), output;
      var numbers := AddEffects(a, assignedVariables);
      OutputsMore(instance, output, known, Known());
      var result := Grounded(|output|, a, assignedVariables, matchedPreconditions, numbers);
      EntryHere(a, result);
      OutputsSnoc(instance, output, Known(), result);
      output := output + [result];
      Whole();
    }

    lemma LegalHere(a: nat)
      requires a < |instance.actions| && Completions(instance, a, assignedVariables) == {assignedVariables}
      ensures assignedVariables in Legal(instance, a) && Key(a, assignedVariables) in Tagged(a, Completions(instance, a, assignedVariables))
      ensures Tagged(a, Completions(instance, a, assignedVariables)) == {Key(a, assignedVariables)}
    {
      assert assignedVariables in Completions(instance, a, assignedVariables);
    }

    lemma EntryHere(a: nat, g: Grounded)
      requires a < |instance.actions| && g.action == a && g.groundedNo == |output| && g.arguments in Legal(instance, a)
      requires AllNumbered(stateMap.addedStateElements, instance.actions[a].antecedents, g.arguments, g.groundedPreconditions)
      requires AddsNumbered(Known(), instance.actions[a].consequences, g.arguments, g.groundedAddEffects)
      ensures EntryOk(instance, Known(), g, |output|) && KeyOf(g) == Key(a, g.arguments)
    {
      hide Legal;
      var atoms := instance.actions[a].antecedents;
      forall p | 0 <= p < |atoms| ensures Numbered(Known(), Ground(atoms[p], g.arguments), g.groundedPreconditions[p]) {
        assert Numbered(stateMap.addedStateElements, Ground(atoms[p], g.arguments), g.groundedPreconditions[p]);
      }
    }

    /** Lines 738-876: the variables from v on are tried with all members of their sorts. */
    method AssignVariables(a: nat, v: nat)
      requires Valid() && a < |instance.actions| && PartialOk(instance, instance.actions[a], assignedVariables)
      requires v <= |assignedVariables| && FullBelow(assignedVariables, v)
      requires MatchedBelow(instance.actions[a], assignedVariables, matchedPreconditions, stateMap.addedStateElements, |instance.actions[a].antecedents|, |instance.actions[a].antecedents|)
      requires Tagged(a, Completions(instance, a, assignedVariables)) !! Keys(output)
      modifies this`output, this`toBeProcessedSet, this`toBeProcessedQueue, this`assignedVariables
      ensures Valid() && old(Known()) <= Known() && assignedVariables == old(assignedVariables)
      ensures Keys(output) == old(Keys(output)) + Tagged(a, Completions(instance, a, assignedVariables))
      decreases |assignedVariables| - v, 1
    {
      hide *;
      CountFull(assignedVariables);
      Parts();
      SortsHere(instance, a, assignedVariables);
      if Count(assignedVariables) == |instance.actions[a].variableSorts| {
        Emit(a);
        return;
      }
      NotFull(assignedVariables, v);
      if assignedVariables[v] != NOT_ASSIGNED {
        FullNext(assignedVariables, v);
        AssignVariables(a, v + 1);
        return;
      }
      TryAll(a, v);
    }

    /** Lines 869-875: one value after the other, then the variable is released again. */
    method TryAll(a: nat, v: nat)
      requires Valid() && a < |instance.actions| && PartialOk(instance, instance.actions[a], assignedVariables)
      requires v < |assignedVariables| && assignedVariables[v] == NOT_ASSIGNED && FullBelow(assignedVariables, v)
      requires MatchedBelow(instance.actions[a], assignedVariables, matchedPreconditions, stateMap.addedStateElements, |instance.actions[a].antecedents|, |instance.actions[a].antecedents|)
      requires Tagged(a, Completions(instance, a, assignedVariables)) !! Keys(output)
      modifies this`output, this`toBeProcessedSet, this`toBeProcessedQueue, this`assignedVariables
      ensures Valid() && old(Known()) <= Known() && assignedVariables == old(assignedVariables)
      ensures Keys(output) == old(Keys(output)) + Tagged(a, Completions(instance, a, assignedVariables))
      decreases |assignedVariables| - v, 0
    {
      hide *;
      ghost var partial, keys := assignedVariables, Keys(output);
      Parts();
      SortsHere(instance, a, assignedVariables);
      var members := instance.sorts[instance.actions[a].variableSorts[v]];
      AllChoices(instance, a, partial, v);
      TagEmpty(a);
      assert members[..0] == [];
      var k: nat := 0;
      while k < |members|
        invariant k <= |members| && Valid() && old(Known()) <= Known()
        invariant |assignedVariables| == |partial| && assignedVariables[v := NOT_ASSIGNED] == partial
        invariant Keys(output) == keys + Tagged(a, Choices(instance, a, partial, v, members[..k]))
      {
        ghost var next := partial[v := members[k]];
        Trial(instance, a, partial, v, members, k, matchedPreconditions, stateMap.addedStateElements);
        ChoiceStep(instance, a, partial, v, members, k);
        ChoiceWithin(instance, a, partial, v, members, k);
        TagFresh(a, keys, Completions(instance, a, partial), Choices(instance, a, partial, v, members[..k]), Completions(instance, a, next));
        assignedVariables := assignedVariables[v := members[k]];
        assert assignedVariables == next;
        AssignVariables(a, v + 1);
        TagUnion(a, Choices(instance, a, partial, v, members[..k]), Completions(instance, a, next));
        k := k + 1;
      }
      assert members[..|members|] == members;
      assignedVariables := assignedVariables[v := NOT_ASSIGNED];
    }

    /** Lines 1037-1070: binds the variables of antecedent p to the arguments of g; newlyAssigned lists what must be released again. */
    method TryFact(a: nat, p: nat, g: Fact) returns (factMatches: bool, newlyAssigned: seq<nat>)
      requires instance.Valid() && InRange(instance, a, p) && PartialOk(instance, instance.actions[a], assignedVariables)
      requires Fits(instance, instance.actions[a], instance.actions[a].antecedents[p], g)
      modifies this`assignedVariables
      ensures Releases(old(assignedVariables), assignedVariables, newlyAssigned)
      ensures factMatches ==> Binds(instance.actions[a].antecedents[p], g, old(assignedVariables), assignedVariables)
      ensures factMatches ==> PartialOk(instance, instance.actions[a], assignedVariables)
      ensures !factMatches ==> Clash(instance.actions[a].antecedents[p], g, old(assignedVariables))
    {
      hide *;
      ghost var partial := assignedVariables;
      BindStart(instance, a, p, g, partial);
      var atom := instance.actions[a].antecedents[p];
      newlyAssigned := [];
      var i: nat := 0;
      while i < |atom.arguments|
        invariant i <= |atom.arguments| && BindUpTo(instance, instance.actions[a], atom, g, partial, assignedVariables, newlyAssigned, i)
      {
        var v := atom.arguments[i];
        BindStep(instance, instance.actions[a], atom, g, partial, assignedVariables, newlyAssigned, i);
        if assignedVariables[v] == NOT_ASSIGNED {
          assert instance.actions[a].variableSorts[v] < |instance.sorts| && g.arguments[i] in instance.sorts[instance.actions[a].variableSorts[v]];
          newlyAssigned := newlyAssigned + [v];
          assignedVariables := assignedVariables[v := g.arguments[i]];
        } else if assignedVariables[v] != g.arguments[i] {
          return false, newlyAssigned;
        }
        i := i + 1;
      }
      BindEnd(instance, instance.actions[a], atom, g, partial, assignedVariables, newlyAssigned);
      factMatches := true;
    }

    /** Lines 1180-1181. */
    method Release(newlyAssigned: seq<nat>, ghost partial: seq<int>)
      requires Releases(partial, assignedVariables, newlyAssigned)
      modifies this`assignedVariables
      ensures assignedVariables == partial
    {
      var i: nat := 0;
      while i < |newlyAssigned|
        invariant i <= |newlyAssigned| && |assignedVariables| == |partial|
        invariant forall v :: 0 <= v < |partial| && v !in newlyAssigned[i..] ==> assignedVariables[v] == partial[v]
      {
        assert newlyAssigned[i..] == [newlyAssigned[i]] + newlyAssigned[i + 1..];
        assignedVariables := assignedVariables[newlyAssigned[i] := NOT_ASSIGNED];
        i := i + 1;
      }
    }

    /** Lines 1097-1122. */
    method ConstraintsPossible(a: nat) returns (yes: bool)
      requires a < |instance.actions|
      ensures !yes ==> exists c :: 0 <= c < |instance.actions[a].variableConstraints| && Violated(instance.actions[a].variableConstraints[c], assignedVariables)
    {
      var constraints := instance.actions[a].variableConstraints;
      for c := 0 to |constraints| {
        if Value(assignedVariables, constraints[c].var1) == NOT_ASSIGNED || Value(assignedVariables, constraints[c].var2) == NOT_ASSIGNED { continue; }
        if !Satisfies(constraints[c], assignedVariables) {
          assert Violated(constraints[c], assignedVariables);
          return false;
        }
      }
      yes := true;
    }

    /** The state of a join of action a before antecedent p. */
    ghost predicate Joining(a: nat, p: nat, initially: nat)
      reads this`assignedVariables, this`matchedPreconditions, stateMap`addedStateElements
    {
      && a < |instance.actions| && p <= |instance.actions[a].antecedents| && PartialOk(instance, instance.actions[a], assignedVariables)
      && MatchedBelow(instance.actions[a], assignedVariables, matchedPreconditions, stateMap.addedStateElements, p, initially)
      && AllHave(instance, instance.actions[a], stateMap.addedStateElements)
    }

    /** Lines 964-1186: produces exactly the instances that match the antecedents from p on, and leaves the assignment as it was. */
    method MatchPrecondition(a: nat, initially: nat, f: Fact, p: nat)
      requires Valid() && Joining(a, p, initially)
      requires Tagged(a, Matches(instance, a, assignedVariables, initially, f, p, FactSet(stateMap.addedStateElements))) !! Keys(output)
      modifies this`output, this`toBeProcessedSet, this`toBeProcessedQueue, this`assignedVariables, this`matchedPreconditions,
               stateMap`factMap, stateMap`consistency, stateMap`pruneWithFutureSatisfiablility
      ensures Valid() && old(Known()) <= Known() && assignedVariables == old(assignedVariables) && SameBelow(old(matchedPreconditions), matchedPreconditions, p, initially)
      ensures Keys(output) == old(Keys(output)) + Tagged(a, Matches(instance, a, assignedVariables, initially, f, p, FactSet(stateMap.addedStateElements)))
      decreases |instance.actions[a].antecedents| - p, 1
    {
      hide *;
      JoinFacts(a, p, initially);
      SameBelowSelf(matchedPreconditions, p, initially);
      if p == 0 && stateMap.pruneWithFutureSatisfiablility[a] {
        var extensible := stateMap.HasPotentiallyConsistentExtension(a, 0, assignedVariables, initially);
        if !extensible {
          LookAheadEmpty(a, 0, initially, f);
          TagEmpty(a);
          return;
        }
      }
      if p >= |instance.actions[a].antecedents| {
        MatchesEnd(instance, a, assignedVariables, initially, f, p, FactSet(stateMap.addedStateElements));
        MatchedEnd(instance.actions[a], assignedVariables, matchedPreconditions, stateMap.addedStateElements, p, initially);
        AssignVariables(a, 0);
        return;
      }
      if p == initially {
        MatchesSkip(instance, a, assignedVariables, initially, f, FactSet(stateMap.addedStateElements));
        JoinSkip(a, initially);
        MatchPrecondition(a, initially, f, p + 1);
        SameBelowLess(old(matchedPreconditions), matchedPreconditions, p, initially);
        return;
      }
      MatchFacts(a, initially, f, p);
    }

    /** Lines 1020-1182: all facts for antecedent p. */
    method MatchFacts(a: nat, initially: nat, f: Fact, p: nat)
      requires Valid() && Joining(a, p, initially) && p < |instance.actions[a].antecedents| && p != initially
      requires Tagged(a, Matches(instance, a, assignedVariables, initially, f, p, FactSet(stateMap.addedStateElements))) !! Keys(output)
      modifies this`output, this`toBeProcessedSet, this`toBeProcessedQueue, this`assignedVariables, this`matchedPreconditions,
               stateMap`factMap, stateMap`consistency, stateMap`pruneWithFutureSatisfiablility
      ensures Valid() && old(Known()) <= Known() && assignedVariables == old(assignedVariables) && SameBelow(old(matchedPreconditions), matchedPreconditions, p, initially)
      ensures Keys(output) == old(Keys(output)) + Tagged(a, Matches(instance, a, assignedVariables, initially, f, p, FactSet(stateMap.addedStateElements)))
      decreases |instance.actions[a].antecedents| - p, 0, 1
    {
      hide *;
      ghost var partial, keys, known, matched := assignedVariables, Keys(output), FactSet(stateMap.addedStateElements), matchedPreconditions;
      Parts();
      JoinFacts(a, p, initially);
      FactHere(a, p);
      var facts := stateMap.GetFacts(a, p, assignedVariables, initially);
      Whole();
      FactsHere(a, p, initially, f, facts);
      SameBelowSelf(matchedPreconditions, p, initially);
      TagEmpty(a);
      assert facts[..0] == [];
      var k: nat := 0;
      UsingNone(instance, a, partial, initially, f, p, known);
      while k < |facts|
        invariant k <= |facts| && Valid() && old(Known()) <= Known() && assignedVariables == partial && SameBelow(matched, matchedPreconditions, p, initially)
        invariant Keys(output) == keys + Tagged(a, Using(instance, a, partial, initially, f, p, known, facts[..k]))
      {
        FactFits(instance, instance.actions[a], instance.actions[a].antecedents[p], stateMap.addedStateElements, facts, k);
        UsingSplit(instance, a, partial, initially, f, p, known, facts, k);
        TagFresh(a, keys, Matches(instance, a, partial, initially, f, p, known), Using(instance, a, partial, initially, f, p, known, facts[..k]), Using(instance, a, partial, initially, f, p, known, [facts[k]]));
        MatchedSame(instance.actions[a], partial, matched, matchedPreconditions, stateMap.addedStateElements, p, initially);
        JoinFrom(a, p, initially);
        ghost var before := matchedPreconditions;
        MatchFact(a, initially, f, p, facts[k]);
        SameBelowOn(matched, before, matchedPreconditions, p, initially);
        TagUnion(a, Using(instance, a, partial, initially, f, p, known, facts[..k]), Using(instance, a, partial, initially, f, p, known, [facts[k]]));
        k := k + 1;
      }
      assert facts[..|facts|] == facts;
    }

    /** Lines 1029-1181 for one fact. */
    method MatchFact(a: nat, initially: nat, f: Fact, p: nat, g: Fact)
      requires Valid() && Joining(a, p, initially) && p < |instance.actions[a].antecedents| && p != initially
      requires g in stateMap.addedStateElements && Fits(instance, instance.actions[a], instance.actions[a].antecedents[p], g)
      requires Tagged(a, Using(instance, a, assignedVariables, initially, f, p, FactSet(stateMap.addedStateElements), [g])) !! Keys(output)
      modifies this`output, this`toBeProcessedSet, this`toBeProcessedQueue, this`assignedVariables, this`matchedPreconditions,
               stateMap`factMap, stateMap`consistency, stateMap`pruneWithFutureSatisfiablility
      ensures Valid() && old(Known()) <= Known() && assignedVariables == old(assignedVariables) && SameBelow(old(matchedPreconditions), matchedPreconditions, p, initially)
      ensures Keys(output) == old(Keys(output)) + Tagged(a, Using(instance, a, assignedVariables, initially, f, p, FactSet(stateMap.addedStateElements), [g]))
      decreases |instance.actions[a].antecedents| - p, 0, 0
    {
      hide *;
      ghost var partial, known, matched := assignedVariables, FactSet(stateMap.addedStateElements), matchedPreconditions;
      TagEmpty(a);
      SameBelowSelf(matchedPreconditions, p, initially);
      Parts();
      JoinFacts(a, p, initially);
      if p > initially && g == f {
        UsingRepeated(instance, a, partial, initially, f, p, known);
        return;
      }
      var factMatches, newlyAssigned := TryFact(a, p, g);
      ghost var next := assignedVariables;
      if factMatches {
        UsingNext(instance, a, partial, initially, f, p, known, g, next);
        BoundBelowNext(instance.actions[a], partial, next, p, initially, g, instance);
        InitKnownNext(instance.actions[a], partial, next, stateMap.addedStateElements, initially);
        factMatches := Promising(a, p + 1, initially, f);
      } else {
        UsingClash(instance, a, partial, initially, f, p, known, g);
      }
      if factMatches {
        NoteFact(a, initially, p, g, partial);
        ghost var noted := matchedPreconditions;
        MatchPrecondition(a, initially, f, p + 1);
        SameBelowNote(matched, noted, matchedPreconditions, p, initially);
      }
      Release(newlyAssigned, partial);
    }

    /** Line 1176. */
    method NoteFact(a: nat, initially: nat, p: nat, g: Fact, ghost partial: seq<int>)
      requires BookOk() && instance.Valid() && g in stateMap.addedStateElements && InRange(instance, a, p) && p != initially
      requires MatchedBelow(instance.actions[a], partial, matchedPreconditions, stateMap.addedStateElements, p, initially)
      requires Fits(instance, instance.actions[a], instance.actions[a].antecedents[p], g) && Binds(instance.actions[a].antecedents[p], g, partial, assignedVariables)
      requires PartialOk(instance, instance.actions[a], assignedVariables) && AllHave(instance, instance.actions[a], stateMap.addedStateElements)
      modifies this`matchedPreconditions
      ensures p < |old(matchedPreconditions)| == |matchedPreconditions| && matchedPreconditions == old(matchedPreconditions)[p := matchedPreconditions[p]]
      ensures Joining(a, p + 1, initially)
    {
      NumberHere(g);
      hide BookOk, Fits, Binds, PartialOk, AllHave;
      MatchedNext(instance, instance.actions[a], partial, assignedVariables, matchedPreconditions, stateMap.addedStateElements, p, initially, g, processedStateElements[g]);
      matchedPreconditions := matchedPreconditions[p := processedStateElements[g]];
      JoinFrom(a, p + 1, initially);
    }

    /** Lines 1078-1155: the look-ahead and the constraints; either may reject, and then nothing is lost. */
    method Promising(a: nat, next: nat, initially: nat, f: Fact) returns (factMatches: bool)
      requires Valid() && a < |instance.actions| && a < |stateMap.pruneWithFutureSatisfiablility|
      requires BoundBelow(instance.actions[a], assignedVariables, next, initially) && InitKnown(instance.actions[a], assignedVariables, stateMap.addedStateElements, initially)
      modifies stateMap`consistency, stateMap`pruneWithFutureSatisfiablility
      ensures Valid()
      ensures !factMatches ==> Matches(instance, a, assignedVariables, initially, f, next, FactSet(stateMap.addedStateElements)) == {}
    {
      hide *;
      Parts();
      factMatches := true;
      if stateMap.pruneWithFutureSatisfiablility[a] && next != |instance.actions[a].antecedents| {
        factMatches := stateMap.HasPotentiallyConsistentExtension(a, next, assignedVariables, initially);
        if !factMatches { LookAheadEmpty(a, next, initially, f); }
      }
      if factMatches {
        factMatches := ConstraintsPossible(a);
        if !factMatches { ConstraintEmpty(a, initially, f, next, FactSet(stateMap.addedStateElements)); }
      }
      stateMap.MayDisable(a);
      Whole();
    }

    // What the join methods use.

    lemma JoinFacts(a: nat, p: nat, initially: nat)
      requires Valid() && Joining(a, p, initially)
      ensures a < |instance.actions| && a < |stateMap.pruneWithFutureSatisfiablility| && p <= |instance.actions[a].antecedents| && |matchedPreconditions| == |instance.actions[a].antecedents|
      ensures stateMap.Valid() && stateMap.instance == instance && instance.Valid() && PartialOk(instance, instance.actions[a], assignedVariables)
      ensures MatchedBelow(instance.actions[a], assignedVariables, matchedPreconditions, stateMap.addedStateElements, p, initially)
      ensures BoundBelow(instance.actions[a], assignedVariables, p, initially) && FullBelow(assignedVariables, 0)
      ensures p < |instance.actions[a].antecedents| ==> InRange(instance, a, p)
      ensures AllHave(instance, instance.actions[a], stateMap.addedStateElements) && InitKnown(instance.actions[a], assignedVariables, stateMap.addedStateElements, initially)
    {
      MatchedBound(instance.actions[a], assignedVariables, matchedPreconditions, stateMap.addedStateElements, p, initially);
    }

    lemma FactHere(a: nat, p: nat)
      requires a < |instance.actions| && p < |instance.actions[a].antecedents| && AllHave(instance, instance.actions[a], stateMap.addedStateElements)
      ensures HasFact(instance, instance.actions[a], instance.actions[a].antecedents[p], stateMap.addedStateElements) && InRange(instance, a, p)
    {
    }

    lemma JoinFrom(a: nat, p: nat, initially: nat)
      requires a < |instance.actions| && p <= |instance.actions[a].antecedents| && PartialOk(instance, instance.actions[a], assignedVariables)
      requires MatchedBelow(instance.actions[a], assignedVariables, matchedPreconditions, stateMap.addedStateElements, p, initially)
      requires AllHave(instance, instance.actions[a], stateMap.addedStateElements)
      ensures Joining(a, p, initially)
    {
    }

    lemma JoinSkip(a: nat, initially: nat)
      requires Joining(a, initially, initially) && initially < |instance.actions[a].antecedents|
      ensures Joining(a, initially + 1, initially)
    {
      MatchedSkip(instance.actions[a], assignedVariables, matchedPreconditions, stateMap.addedStateElements, initially);
    }

    lemma FactsHere(a: nat, p: nat, initially: nat, f: Fact, facts: seq<Fact>)
      requires Valid() && Joining(a, p, initially) && InRange(instance, a, p) && p != initially
      requires FactsFor(instance, instance.actions[a], instance.actions[a].antecedents[p], stateMap.Counted(a, p, initially), stateMap.addedStateElements,
                        Project(instance.actions[a].antecedents[p].arguments, Ground(instance.actions[a].antecedents[p], assignedVariables).arguments, stateMap.Counted(a, p, initially)), facts)
      ensures Using(instance, a, assignedVariables, initially, f, p, FactSet(stateMap.addedStateElements), facts) ==
        Matches(instance, a, assignedVariables, initially, f, p, FactSet(stateMap.addedStateElements))
      ensures FactsFit(instance, instance.actions[a], instance.actions[a].antecedents[p], stateMap.addedStateElements, facts)
    {
      stateMap.AssignedHere(a, p, stateMap.Effective(a, initially), initially);
      AllUsed(instance, a, assignedVariables, initially, f, p, stateMap.addedStateElements, facts, stateMap.Counted(a, p, initially), matchedPreconditions);
    }

    /** A failed look-ahead loses no match. */
    lemma LookAheadEmpty(a: nat, next: nat, initially: nat, f: Fact)
      requires stateMap.Valid() && stateMap.instance == instance && a < |instance.actions| && a < |stateMap.pruneWithFutureSatisfiablility| && stateMap.pruneWithFutureSatisfiablility[a]
      requires BoundBelow(instance.actions[a], assignedVariables, next, initially) && InitKnown(instance.actions[a], assignedVariables, stateMap.addedStateElements, initially)
      requires exists q: nat :: next <= q < |instance.actions[a].antecedents| && stateMap.NoFuture(a, next, q, assignedVariables, initially)
      ensures Matches(instance, a, assignedVariables, initially, f, next, FactSet(stateMap.addedStateElements)) == {}
    {
      hide BoundBelow, GpgStateMap.Valid, GpgStateMap.NoFuture, Legal;
      var act := instance.actions[a];
      var q: nat :| next <= q < |act.antecedents| && stateMap.NoFuture(a, next, q, assignedVariables, initially);
      forall s | s in Legal(instance, a) && Extends(s, assignedVariables) ensures !Rest(act, s, initially, f, next, FactSet(stateMap.addedStateElements)) {
        stateMap.NoExtension(a, next, q, assignedVariables, initially, s);
        if q == initially {
          BoundGround(act.antecedents[q], assignedVariables, s);
        }
        assert q != initially && !RestAt(act, s, initially, f, q, FactSet(stateMap.addedStateElements));
      }
    }

    lemma ConstraintEmpty(a: nat, initially: nat, f: Fact, p: nat, known: set<Fact>)
      requires a < |instance.actions|
      requires exists c :: 0 <= c < |instance.actions[a].variableConstraints| && Violated(instance.actions[a].variableConstraints[c], assignedVariables)
      ensures Matches(instance, a, assignedVariables, initially, f, p, known) == {}
    {
      var c :| 0 <= c < |instance.actions[a].variableConstraints| && Violated(instance.actions[a].variableConstraints[c], assignedVariables);
      ConstraintLost(instance, a, assignedVariables, c, initially, f, p, known);
    }

    lemma NumberHere(g: Fact)
      requires BookOk() && g in stateMap.addedStateElements
      ensures g in processedStateElements && Numbered(stateMap.addedStateElements, g, processedStateElements[g])
    {
      BookHas(instance, stateMap.addedStateElements, processedStateElements, toBeProcessedSet, toBeProcessedQueue, g);
    }

    // The outer loop.

    /** model.cpp:60-95 and gpg.h:1256-1291, which do the same. */
    method DoesStateFulfillPrecondition(a: nat, p: nat, f: Fact) returns (fulfils: bool, taken: seq<int>)
      requires instance.Valid() && InRange(instance, a, p) && instance.FactOk(f)
      ensures fulfils <==> Fits(instance, instance.actions[a], instance.actions[a].antecedents[p], f)
      ensures fulfils ==> PartialOk(instance, instance.actions[a], taken)
      ensures fulfils ==> Binds(instance.actions[a].antecedents[p], f, Unassigned(|instance.actions[a].variableSorts|), taken)
    {
      var act := instance.actions[a];
      var atom := act.antecedents[p];
      assert instance.ActionOk(act) && instance.AtomOk(act, atom);
      taken := Unassigned(|act.variableSorts|);
      if atom.head != f.head { return false, taken; }
      var i: nat := 0;
      while i < |atom.arguments|
        invariant i <= |atom.arguments| && TakenUpTo(instance, act, atom, f, taken, i)
      {
        var v := atom.arguments[i];
        if f.arguments[i] !in instance.sorts[act.variableSorts[v]] {
          assert !ArgumentFits(instance, act, v, f.arguments[i]);
          return false, taken;
        }
        TakeStep(instance, act, atom, f, taken, i);
        if taken[v] != NOT_ASSIGNED {
          if taken[v] != f.arguments[i] { return false, taken; }
        } else {
          taken := taken[v := f.arguments[i]];
        }
        i := i + 1;
      }
      TakeEnd(instance, act, atom, f, taken);
      fulfils := true;
    }

    /** Lines 1444-1478: the new fact f is joined at antecedent p of action a. */
    method ProcessPair(a: nat, p: nat, f: Fact)
      requires Valid() && a < |instance.actions| && p < |instance.actions[a].antecedents| && InRange(instance, a, p)
      requires instance.FactOk(f) && f in stateMap.addedStateElements
      requires Tagged(a, Batch(instance, a, p, f, FactSet(stateMap.addedStateElements))) !! Keys(output)
      modifies this`output, this`toBeProcessedSet, this`toBeProcessedQueue, this`assignedVariables, this`matchedPreconditions,
               stateMap`factMap, stateMap`consistency, stateMap`pruneWithFutureSatisfiablility
      ensures Valid() && old(Known()) <= Known()
      ensures Keys(output) == old(Keys(output)) + Tagged(a, Batch(instance, a, p, f, FactSet(stateMap.addedStateElements)))
    {
      hide *;
      ghost var added, known := stateMap.addedStateElements, FactSet(stateMap.addedStateElements);
      Parts();
      TagEmpty(a);
      var possible := stateMap.HasInstanceForAllAntecedants(a, p);
      if !possible {
        BatchLackingSome(instance, a, p, f, added);
        return;
      }
      var fulfils, taken := DoesStateFulfillPrecondition(a, p, f);
      if !fulfils {
        BatchUnfit(instance, a, p, f, known);
        return;
      }
      assignedVariables := taken;
      BatchMatches(instance, a, p, f, known, assignedVariables);
      PairStart(a, p, f);
      StartJoin(a, p, f);
    }

    /** Lines 1457-1470. */
    method StartJoin(a: nat, p: nat, f: Fact)
      requires Valid() && a < |instance.actions| && p < |instance.actions[a].antecedents| && InRange(instance, a, p)
      requires f in stateMap.addedStateElements && PartialOk(instance, instance.actions[a], assignedVariables)
      requires BoundBelow(instance.actions[a], assignedVariables, 0, p) && InitKnown(instance.actions[a], assignedVariables, stateMap.addedStateElements, p)
      requires Bound(instance.actions[a].antecedents[p], assignedVariables) && Ground(instance.actions[a].antecedents[p], assignedVariables) == f
      requires forall q: nat :: q < |instance.actions[a].antecedents| ==> HasFact(instance, instance.actions[a], instance.actions[a].antecedents[q], stateMap.addedStateElements)
      requires Tagged(a, Matches(instance, a, assignedVariables, p, f, 0, FactSet(stateMap.addedStateElements))) !! Keys(output)
      modifies this`output, this`toBeProcessedSet, this`toBeProcessedQueue, this`assignedVariables, this`matchedPreconditions,
               stateMap`factMap, stateMap`consistency, stateMap`pruneWithFutureSatisfiablility
      ensures Valid() && old(Known()) <= Known()
      ensures Keys(output) == old(Keys(output)) + Tagged(a, Matches(instance, a, old(assignedVariables), p, f, 0, FactSet(stateMap.addedStateElements)))
    {
      hide *;
      Parts();
      TagEmpty(a);
      NumberHere(f);
      if stateMap.pruneWithFutureSatisfiablility[a] && |instance.actions[a].antecedents| != 1 {
        var extensible := stateMap.HasPotentiallyConsistentExtension(a, 0, assignedVariables, p);
        if !extensible {
          LookAheadEmpty(a, 0, p, f);
          return;
        }
      }
      matchedPreconditions := Unassigned(|instance.actions[a].antecedents|)[p := processedStateElements[f]];
      JoinStart(a, p);
      MatchPrecondition(a, p, f, 0);
    }

    lemma PairStart(a: nat, p: nat, f: Fact)
      requires InRange(instance, a, p) && instance.Valid() && Fits(instance, instance.actions[a], instance.actions[a].antecedents[p], f) && f in stateMap.addedStateElements
      requires Binds(instance.actions[a].antecedents[p], f, Unassigned(|instance.actions[a].variableSorts|), assignedVariables)
      ensures HasFact(instance, instance.actions[a], instance.actions[a].antecedents[p], stateMap.addedStateElements)
      ensures BoundBelow(instance.actions[a], assignedVariables, 0, p) && InitKnown(instance.actions[a], assignedVariables, stateMap.addedStateElements, p)
      ensures Bound(instance.actions[a].antecedents[p], assignedVariables) && Ground(instance.actions[a].antecedents[p], assignedVariables) == f
    {
      var atom := instance.actions[a].antecedents[p];
      KnownFits(instance, instance.actions[a], atom, stateMap.addedStateElements, f);
      FitsValues(instance, instance.actions[a], atom, f);
      hide Fits, Instance.Valid;
      forall i | 0 <= i < |atom.arguments| ensures Value(assignedVariables, atom.arguments[i]) == f.arguments[i] >= 0 { }
      assert Ground(atom, assignedVariables).arguments == f.arguments;
    }

    lemma JoinStart(a: nat, p: nat)
      requires InRange(instance, a, p) && PartialOk(instance, instance.actions[a], assignedVariables) && |matchedPreconditions| == |instance.actions[a].antecedents|
      requires Bound(instance.actions[a].antecedents[p], assignedVariables)
      requires Numbered(stateMap.addedStateElements, Ground(instance.actions[a].antecedents[p], assignedVariables), matchedPreconditions[p])
      requires forall q: nat :: q < |instance.actions[a].antecedents| ==> HasFact(instance, instance.actions[a], instance.actions[a].antecedents[q], stateMap.addedStateElements)
      ensures Joining(a, 0, p)
    {
      hide HasFact, PartialOk;
      assert MatchedAt(instance.actions[a].antecedents[p], assignedVariables, matchedPreconditions[p], stateMap.addedStateElements);
    }

    /** Exactly the instances whose antecedents are all processed have been produced. */
    ghost predicate Caught(facts: seq<Fact>)
      reads this`output
    {
      forall key: Key :: key in Keys(output) <==> IsFiring(instance, FactSet(facts), key)
    }

    /** Lines 1413-1494: one fact is taken from the queue. */
    method ProcessState()
      requires Valid() && |toBeProcessedQueue| > 0 && Caught(stateMap.addedStateElements)
      modifies this, stateMap`addedStateElements, stateMap`factMap, stateMap`numberOfAntecedantsWithoutFact, stateMap`consistency, stateMap`pruneWithFutureSatisfiablility
      ensures Valid() && old(Known()) <= Known() && Caught(stateMap.addedStateElements)
      ensures stateMap.addedStateElements == old(stateMap.addedStateElements) + [old(toBeProcessedQueue)[0]]
      ensures old(toBeProcessedQueue)[0] !in old(stateMap.addedStateElements) && old(toBeProcessedQueue)[0] in Universe(instance)
    {
      hide *;
      ghost var added := stateMap.addedStateElements;
      Parts();
      var f := toBeProcessedQueue[0];
      TakeFirst();
      HeadHere(f);
      var pairs := stateMap.prepared.byPredicate[f.head];
      ghost var known := FactSet(stateMap.addedStateElements);
      ghost var started := Known();
      NoBatchYet(instance, pairs, f, known);
      var k: nat := 0;
      while k < |pairs|
        invariant k <= |pairs| && Valid() && started <= Known() && stateMap.addedStateElements == added + [f]
        invariant forall key: Key :: key in Keys(output) <==> IsFiring(instance, FactSet(added), key) || InBatch(instance, pairs, k, f, known, key)
      {
        NextBatch(added, f, pairs, k);
        ProcessPair(pairs[k].0, pairs[k].1, f);
        k := k + 1;
      }
      forall key: Key ensures key in Keys(output) <==> IsFiring(instance, FactSet(stateMap.addedStateElements), key) { BatchesSuffice(instance, added, f, pairs, key); }
      CaughtFrom(stateMap.addedStateElements);
    }

    lemma CaughtFrom(facts: seq<Fact>)
      requires forall key: Key :: key in Keys(output) <==> IsFiring(instance, FactSet(facts), key)
      ensures Caught(facts)
    {
    }

    /** Lines 1420-1434. */
    method TakeFirst()
      requires Valid() && |toBeProcessedQueue| > 0 && Caught(stateMap.addedStateElements)
      modifies this`toBeProcessedQueue, this`toBeProcessedSet, this`processedStateElements,
               stateMap`addedStateElements, stateMap`factMap, stateMap`numberOfAntecedantsWithoutFact, stateMap`consistency
      ensures Valid() && Known() == old(Known())
      ensures stateMap.addedStateElements == old(stateMap.addedStateElements) + [old(toBeProcessedQueue)[0]]
      ensures FactFine(instance, old(toBeProcessedQueue)[0]) && old(toBeProcessedQueue)[0] !in old(stateMap.addedStateElements)
      ensures forall key: Key :: key in Keys(output) <==> IsFiring(instance, FactSet(old(stateMap.addedStateElements)), key)
    {
      hide Book, FactFine, Outputs, GpgStateMap.Valid, Universe, Derivable;
      Parts();
      var f := toBeProcessedQueue[0];
      BookPop(instance, stateMap.addedStateElements, processedStateElements, toBeProcessedSet, toBeProcessedQueue);
      assert instance.FactOk(f) by { FineOk(f); }
      var number := toBeProcessedSet[f];
      toBeProcessedQueue := toBeProcessedQueue[1..];
      toBeProcessedSet := toBeProcessedSet - {f};
      processedStateElements := processedStateElements[f := number];
      stateMap.InsertState(f);
    }

    lemma FineOk(f: Fact)
      requires FactFine(instance, f)
      ensures instance.FactOk(f) && f in Universe(instance)
    {
    }

    lemma HeadHere(f: Fact)
      requires Valid() && FactFine(instance, f) && f in stateMap.addedStateElements
      ensures f.head < |stateMap.prepared.byPredicate| && PairsOk(instance, f.head, stateMap.prepared.byPredicate[f.head])
      ensures instance.FactOk(f) && f in Universe(instance)
      ensures forall k :: 0 <= k < |stateMap.prepared.byPredicate[f.head]| ==> InRange(instance, stateMap.prepared.byPredicate[f.head][k].0, stateMap.prepared.byPredicate[f.head][k].1)
    {
      stateMap.PairsFor(f);
    }

    lemma NextBatch(added: seq<Fact>, f: Fact, pairs: seq<(nat, nat)>, k: nat)
      requires PairsOk(instance, f.head, pairs) && k < |pairs| && f !in added && InRange(instance, pairs[k].0, pairs[k].1)
      requires forall key: Key :: key in Keys(output) <==> IsFiring(instance, FactSet(added), key) || InBatch(instance, pairs, k, f, FactSet(added + [f]), key)
      ensures pairs[k].0 < |instance.actions| && pairs[k].1 < |instance.actions[pairs[k].0].antecedents|
      ensures Tagged(pairs[k].0, Batch(instance, pairs[k].0, pairs[k].1, f, FactSet(added + [f]))) !! Keys(output)
      ensures forall key: Key :: InBatch(instance, pairs, k + 1, f, FactSet(added + [f]), key) <==>
        InBatch(instance, pairs, k, f, FactSet(added + [f]), key) || key in Tagged(pairs[k].0, Batch(instance, pairs[k].0, pairs[k].1, f, FactSet(added + [f])))
    {
      hide Batch, IsFiring, PairsOk, Keys;
      var known := FactSet(added + [f]);
      forall key: Key | key in Tagged(pairs[k].0, Batch(instance, pairs[k].0, pairs[k].1, f, known)) ensures key !in Keys(output) {
        BatchesApart(instance, added, f, pairs, k, key);
      }
    }
  }

  /** Lines 1328-1354: nothing is processed yet, so numbering and the duplicate test are those of AddState. */
  method InitialFacts(run: GroundingRun)
    requires run.Valid() && run.stateMap.addedStateElements == [] && run.toBeProcessedQueue == [] && run.output == []
    modifies run`toBeProcessedQueue, run`toBeProcessedSet
    ensures run.Valid() && AllOf(run.instance.init, run.Known())
  {
    hide *;
    var init := run.instance.init;
    run.Parts();
    NoneOf(init, run.Known());
    var i: nat := 0;
    while i < |init|
      invariant i <= |init| && run.BookOk() && AllOf(init[..i], run.Known())
    {
      InitialFine(run.instance, i);
      ghost var known := run.Known();
      var number := run.AddState(init[i]);
      OneMoreOf(init, i, known, run.Known(), number);
      i := i + 1;
    }
    assert init[..|init|] == init;
    NoOutputs(run.instance, run.output, run.Known());
    run.Whole();
  }

  ghost predicate AllOf(facts: seq<Fact>, known: seq<Fact>) {
    forall i :: 0 <= i < |facts| ==> facts[i] in known
  }

  lemma NoneOf(facts: seq<Fact>, known: seq<Fact>)
    ensures AllOf(facts[..0], known)
  {
  }

  lemma OneMoreOf(facts: seq<Fact>, i: nat, known: seq<Fact>, more: seq<Fact>, x: nat)
    requires i < |facts| && AllOf(facts[..i], known) && known <= more && Numbered(more, facts[i], x)
    ensures AllOf(facts[..i + 1], more)
  {
    forall j | 0 <= j < i + 1 ensures facts[j] in more {
      if j < i {
        assert facts[..i][j] in known;
        StillKnown(known, more, facts[j]);
      }
    }
  }

  lemma AllOfMore(facts: seq<Fact>, known: seq<Fact>, more: seq<Fact>)
    requires AllOf(facts, known) && known <= more
    ensures AllOf(facts, more)
  {
    forall j | 0 <= j < |facts| ensures facts[j] in more { StillKnown(known, more, facts[j]); }
  }

  lemma NoOutputs(inst: Instance, output: seq<Grounded>, known: seq<Fact>)
    requires output == []
    ensures Outputs(inst, output, known)
  {
  }

  /** Lines 1398-1409: the rules without antecedents. */
  method WithoutPreconditions(run: GroundingRun)
    requires run.Valid() && run.stateMap.addedStateElements == [] && run.output == []
    modifies run, run.stateMap`factMap, run.stateMap`consistency, run.stateMap`pruneWithFutureSatisfiablility
    ensures run.Valid() && old(run.Known()) <= run.Known() && run.Caught([])
  {
    hide *;
    run.Parts();
    NothingYet(run);
    var a: nat := 0;
    while a < |run.instance.actions|
      invariant a <= |run.instance.actions| && run.Valid() && old(run.Known()) <= run.Known() && run.stateMap.addedStateElements == []
      invariant forall key: Key :: key in Keys(run.output) <==> IsFiring(run.instance, {}, key) && key.action < a
    {
      run.Parts();
      if |run.instance.actions[a].antecedents| == 0 {
        run.assignedVariables := Unassigned(|run.instance.actions[a].variableSorts|);
        run.matchedPreconditions := [];
        FreeStart(run, a);
        run.MatchPrecondition(a, 0, Fact(0, []), 0);
      } else {
        NeedsFacts(run.instance, a);
      }
      a := a + 1;
    }
    AllFree(run);
  }

  lemma NothingYet(run: GroundingRun)
    requires run.output == []
    ensures forall key: Key :: key !in Keys(run.output)
  {
  }

  lemma FreeStart(run: GroundingRun, a: nat)
    requires run.Valid() && a < |run.instance.actions| && |run.instance.actions[a].antecedents| == 0 && run.matchedPreconditions == []
    requires run.assignedVariables == Unassigned(|run.instance.actions[a].variableSorts|)
    requires forall key: Key :: key in Keys(run.output) <==> IsFiring(run.instance, {}, key) && key.action < a
    ensures run.Joining(a, 0, 0)
    ensures Tagged(a, Matches(run.instance, a, run.assignedVariables, 0, Fact(0, []), 0, FactSet(run.stateMap.addedStateElements))) !! Keys(run.output)
    ensures forall key: Key :: IsFiring(run.instance, {}, key) && key.action == a <==>
      key in Tagged(a, Matches(run.instance, a, run.assignedVariables, 0, Fact(0, []), 0, FactSet(run.stateMap.addedStateElements)))
  {
    var m := Matches(run.instance, a, run.assignedVariables, 0, Fact(0, []), 0, FactSet(run.stateMap.addedStateElements));
    forall s ensures s in m <==> s in Legal(run.instance, a) {
      if s in Legal(run.instance, a) { assert Extends(s, run.assignedVariables); }
    }
  }

  lemma NeedsFacts(inst: Instance, a: nat)
    requires a < |inst.actions| && |inst.actions[a].antecedents| > 0
    ensures forall key: Key :: key.action == a ==> !IsFiring(inst, {}, key)
  {
    forall key: Key | key.action == a ensures !IsFiring(inst, {}, key) {
      assert Ground(inst.actions[a].antecedents[0], key.arguments) !in {};
    }
  }

  lemma AllFree(run: GroundingRun)
    requires forall key: Key :: key in Keys(run.output) <==> IsFiring(run.instance, {}, key) && key.action < |run.instance.actions|
    ensures run.Caught([])
  {
    assert FactSet([]) == {};
  }

  /** The whole run: the facts in the order of their numbers are the least set closed under the rules, and the ground instances are exactly
      those whose antecedents belong to it, each once, with the numbers of their antecedents and consequences. */
  method RunGpg(instance: Instance, futureCachingByPrecondition: bool) returns (output: seq<Grounded>, outputStateElements: seq<Fact>)
    requires instance.Valid()
    ensures Least(instance, FactSet(outputStateElements)) && Distinct(outputStateElements)
    ensures forall key: Key :: (exists i :: 0 <= i < |output| && KeyOf(output[i]) == key) <==> IsFiring(instance, FactSet(outputStateElements), key)
    ensures DistinctKeys(output)
    ensures forall i: nat :: i < |output| ==> EntryOk(instance, outputStateElements, output[i], i)
  {
    hide *;
    var prepared := Prepare(instance);
    var stateMap := new GpgStateMap(instance, prepared, futureCachingByPrecondition);
    var run := new GroundingRun(stateMap);
    InitialFacts(run);
    ghost var known := run.Known();
    WithoutPreconditions(run);
    run.AddedWithin();
    while |run.toBeProcessedQueue| > 0
      invariant run.Valid() && known <= run.Known() && run.Caught(run.stateMap.addedStateElements) && FactSet(run.stateMap.addedStateElements) <= Universe(instance)
      invariant run.stateMap == stateMap && run.instance == instance && fresh(run) && fresh(stateMap)
      decreases |Universe(instance) - FactSet(run.stateMap.addedStateElements)|
    {
      ghost var added := run.stateMap.addedStateElements;
      run.ProcessState();
      OneLess(Universe(instance), added, run.stateMap.addedStateElements);
    }
    output, outputStateElements := run.output, run.stateMap.addedStateElements;
    AllOfMore(instance.init, known, run.Known());
    Finished(run);
  }

  lemma OneLess(u: set<Fact>, added: seq<Fact>, more: seq<Fact>)
    requires |more| == |added| + 1 && more == added + [more[|added|]] && more[|added|] !in added && more[|added|] in u && FactSet(added) <= u
    ensures FactSet(more) <= u && |u - FactSet(more)| < |u - FactSet(added)|
  {
    var f := more[|added|];
    assert FactSet(more) == FactSet(added) + {f};
    assert u - FactSet(added) == (u - FactSet(more)) + {f};
  }

  /** When the queue is empty the processed facts are closed under the rules. */
  lemma Finished(run: GroundingRun)
    requires run.Valid() && run.toBeProcessedQueue == [] && run.Caught(run.stateMap.addedStateElements) && AllOf(run.instance.init, run.Known())
    ensures Least(run.instance, FactSet(run.stateMap.addedStateElements)) && Distinct(run.stateMap.addedStateElements)
    ensures forall key: Key :: (exists i :: 0 <= i < |run.output| && KeyOf(run.output[i]) == key) <==> IsFiring(run.instance, FactSet(run.stateMap.addedStateElements), key)
    ensures DistinctKeys(run.output)
    ensures forall i: nat :: i < |run.output| ==> EntryOk(run.instance, run.stateMap.addedStateElements, run.output[i], i)
  {
    var inst, added := run.instance, run.stateMap.addedStateElements;
    run.Parts();
    assert run.Known() == added;
    hide EntryOk, Legal, GpgStateMap.Valid;
    forall a: nat, s | Fires(inst, a, s, FactSet(added)) ensures Supplies(inst.actions[a], s, FactSet(added)) {
      assert IsFiring(inst, FactSet(added), Key(a, s));
      var i: nat :| i < |run.output| && KeyOf(run.output[i]) == Key(a, s);
      EntrySupplies(inst, added, run.output[i], i);
    }
    assert Closed(inst, FactSet(added));
    forall t: set<Fact> | Closed(inst, t) ensures FactSet(added) <= t {
      forall f | f in FactSet(added) ensures f in t { assert Derivable(inst, f); }
    }
  }

  lemma EntrySupplies(inst: Instance, known: seq<Fact>, g: Grounded, i: nat)
    requires EntryOk(inst, known, g, i)
    ensures Supplies(inst.actions[g.action], g.arguments, FactSet(known))
  {
    var act := inst.actions[g.action];
    forall c | 0 <= c < |act.consequences| ensures Ground(act.consequences[c], g.arguments) in FactSet(known) {
      assert Numbered(known, Ground(act.consequences[c], g.arguments), g.groundedAddEffects[c]);
    }
  }
}
