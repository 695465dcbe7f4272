/** Synthesis of two-literal invariants (Invariants.cpp:191-449): start from every clause true in the
    initial state and delete those an action may falsify until nothing changes. */
module RintanenInvariants {
  import opened States

  // ----- what the checks mean -----

  /** A candidate: two different bits, the smaller first, and true initially (216-223). */
  ghost predicate Candidate(m: Task, c: Clause) {
    && 0 <= Bit(c.0) < Bit(c.1) < m.n
    && (InitiallyTrue(m, c.0) || InitiallyTrue(m, c.1))
  }

  ghost predicate InitiallyTrue(m: Task, l: int) {
    if l >= 0 then l in m.s0List else -l - 1 !in m.s0List
  }

  /** A precondition, or the other half of a clause whose first half a precondition refutes (302-335). */
  ghost predicate Inferred(m: Task, live: set<Clause>, t: int, l: int)
    requires m.Valid() && 0 <= t < |m.precLists|
  {
    InferredUpTo(m, live, t, |m.precLists[t]|, l)
  }

  /** By one of the first k preconditions. */
  ghost predicate InferredUpTo(m: Task, live: set<Clause>, t: int, k: int, l: int)
    requires m.Valid() && 0 <= t < |m.precLists| && 0 <= k <= |m.precLists[t]|
  {
    exists i :: 0 <= i < k && InferredFrom(live, m.precLists[t][i], l)
  }

  ghost predicate InferredFrom(live: set<Clause>, pre: int, l: int) {
    l == pre || (Not(pre), l) in live || (l, Not(pre)) in live
  }

  predicate Falsified(m: Task, t: int, l: int)
    requires 0 <= t < |m.addVectors| == |m.delVectors| && |m.addVectors[t]| == |m.delVectors[t]| == m.n && IsLiteral(m.n, l)
  {
    if l >= 0 then m.delVectors[t][l] else m.addVectors[t][-l - 1]
  }

  /** ensuresPosP and ensuresNegP (353-354). */
  ghost predicate Ensured(m: Task, live: set<Clause>, t: int, l: int)
    requires m.Valid() && 0 <= t < |m.precLists| && IsLiteral(m.n, l)
  {
    if l >= 0 then
      (Inferred(m, live, t, l) && !m.delVectors[t][l]) || m.addVectors[t][l]
    else
      (Inferred(m, live, t, l) && !m.addVectors[t][-l - 1]) || m.delVectors[t][-l - 1]
  }

  /** Action t falsifies one half of c without ensuring the other. */
  ghost predicate Broken(m: Task, live: set<Clause>, t: int, c: Clause)
    requires m.Valid() && 0 <= t < |m.precLists| && IsClause(m.n, c)
  {
    || (Falsified(m, t, c.0) && !Ensured(m, live, t, c.1))
    || (Falsified(m, t, c.1) && !Ensured(m, live, t, c.0))
  }

  ghost predicate Contradictory(m: Task, live: set<Clause>, t: int)
    requires m.Valid() && 0 <= t < |m.precLists|
  {
    exists p :: 0 <= p < m.n && Inferred(m, live, t, p) && Inferred(m, live, t, Not(p))
  }

  /** Action t was found inapplicable, or breaks no clause. */
  ghost predicate Clean(m: Task, live: set<Clause>, t: int)
    requires m.Valid() && 0 <= t < |m.precLists|
  {
    Contradictory(m, live, t) || forall c :: c in live && IsClause(m.n, c) ==> !Broken(m, live, t, c)
  }

  /** A set of candidates that supports itself: every action is inapplicable under it or breaks none of its clauses. */
  ghost predicate SelfSupporting(m: Task, w: set<Clause>)
    requires m.Valid()
  {
    && (forall c :: c in w ==> Candidate(m, c))
    && (forall t :: 0 <= t < |m.precLists| ==> Clean(m, w, t))
  }

  ghost predicate KeepsSupported(m: Task, live: set<Clause>)
    requires m.Valid()
  {
    forall w {:trigger SelfSupporting(m, w)} :: SelfSupporting(m, w) ==> w <= live
  }

  // ----- soundness -----

  lemma PreIsInferred(m: Task, live: set<Clause>, t: int, i: int)
    requires m.Valid() && 0 <= t < |m.precLists| && 0 <= i < |m.precLists[t]|
    ensures Inferred(m, live, t, m.precLists[t][i])
  {
    assert InferredFrom(live, m.precLists[t][i], m.precLists[t][i]);
  }

  lemma InferredHolds(m: Task, live: set<Clause>, t: int, s: State, l: int)
    requires m.Valid() && |s| == m.n && 0 <= t < |m.precLists| && IsLiteral(m.n, l)
    requires SatisfiesAll(s, live) && m.Applicable(s, t) && Inferred(m, live, t, l)
    ensures Holds(s, l)
  {
    var i :| 0 <= i < |m.precLists[t]| && InferredFrom(live, m.precLists[t][i], l);
    var pre := m.precLists[t][i];
    assert Holds(s, pre);
    if (Not(pre), l) in live {
      assert Satisfies(s, (Not(pre), l));
    } else if (l, Not(pre)) in live {
      assert Satisfies(s, (l, Not(pre)));
    }
  }

  lemma EnsuredHolds(m: Task, live: set<Clause>, t: int, s: State, l: int)
    requires m.Valid() && m.EffectsDisjoint() && |s| == m.n && 0 <= t < |m.precLists| && IsLiteral(m.n, l)
    requires SatisfiesAll(s, live) && m.Applicable(s, t)
    requires Ensured(m, live, t, l)
    ensures Holds(m.Apply(s, t), l)
  {
    assert m.Mirrors(m.addLists[t], m.addVectors[t]);
    if Inferred(m, live, t, l) { InferredHolds(m, live, t, s, l); }
  }

  lemma StepKeeps(m: Task, live: set<Clause>, t: int, s: State, c: Clause)
    requires m.Valid() && m.EffectsDisjoint() && |s| == m.n && 0 <= t < |m.precLists|
    requires SatisfiesAll(s, live) && m.Applicable(s, t) && Clean(m, live, t)
    requires c in live && IsClause(m.n, c)
    ensures Satisfies(m.Apply(s, t), c)
  {
    assert m.Mirrors(m.addLists[t], m.addVectors[t]);
    if Contradictory(m, live, t) {
      var p :| 0 <= p < m.n && Inferred(m, live, t, p) && Inferred(m, live, t, Not(p));
      InferredHolds(m, live, t, s, p);
      InferredHolds(m, live, t, s, Not(p));
    } else {
      assert !Broken(m, live, t, c);
      if Falsified(m, t, c.0) {
        EnsuredHolds(m, live, t, s, c.1);
      } else if Falsified(m, t, c.1) {
        EnsuredHolds(m, live, t, s, c.0);
      }
    }
  }

  lemma {:induction false} RunKeeps(m: Task, live: set<Clause>, s: State, plan: seq<int>, r: State)
    requires m.Valid() && m.EffectsDisjoint() && |s| == m.n
    requires forall c :: c in live ==> IsClause(m.n, c)
    requires forall t :: 0 <= t < |m.precLists| ==> Clean(m, live, t)
    requires SatisfiesAll(s, live) && m.Executes(s, plan, r)
    ensures SatisfiesAll(r, live)
    decreases |plan|
  {
    if plan != [] {
      forall c | c in live ensures Satisfies(m.Apply(s, plan[0]), c) {
        StepKeeps(m, live, plan[0], s, c);
      }
      RunKeeps(m, live, m.Apply(s, plan[0]), plan[1..], r);
    }
  }

  /** Every clause left at the end holds in every state reachable from the initial one. */
  lemma InvariantsSound(m: Task, live: set<Clause>, s0: State, plan: seq<int>, r: State)
    requires m.Valid() && m.EffectsDisjoint() && m.Initial(s0)
    requires forall c :: c in live ==> Candidate(m, c)
    requires forall t :: 0 <= t < |m.precLists| ==> Clean(m, live, t)
    requires m.Executes(s0, plan, r)
    ensures SatisfiesAll(r, live)
  {
    assert SatisfiesAll(s0, live);
    RunKeeps(m, live, s0, plan, r);
  }

  lemma InferredMonotone(m: Task, w: set<Clause>, live: set<Clause>, t: int, l: int)
    requires m.Valid() && 0 <= t < |m.precLists| && w <= live && Inferred(m, w, t, l)
    ensures Inferred(m, live, t, l)
  {
    var i :| 0 <= i < |m.precLists[t]| && InferredFrom(w, m.precLists[t][i], l);
    assert InferredFrom(live, m.precLists[t][i], l);
  }

  lemma ContradictoryMonotone(m: Task, w: set<Clause>, live: set<Clause>, t: int)
    requires m.Valid() && 0 <= t < |m.precLists| && w <= live && Contradictory(m, w, t)
    ensures Contradictory(m, live, t)
  {
    var p :| 0 <= p < m.n && Inferred(m, w, t, p) && Inferred(m, w, t, Not(p));
    InferredMonotone(m, w, live, t, p);
    InferredMonotone(m, w, live, t, Not(p));
  }

  lemma BrokenMonotone(m: Task, w: set<Clause>, live: set<Clause>, t: int, c: Clause)
    requires m.Valid() && 0 <= t < |m.precLists| && w <= live && IsClause(m.n, c) && Broken(m, live, t, c)
    ensures Broken(m, w, t, c)
  {
    if Ensured(m, w, t, c.0) && Inferred(m, w, t, c.0) { InferredMonotone(m, w, live, t, c.0); }
    if Ensured(m, w, t, c.1) && Inferred(m, w, t, c.1) { InferredMonotone(m, w, live, t, c.1); }
  }

  /** Deleting what an applicable action breaks takes nothing from a set that supports itself. */
  lemma RemovalKeepsSupported(m: Task, live: set<Clause>, t: int, left: set<Clause>)
    requires m.Valid() && 0 <= t < |m.precLists| && KeepsSupported(m, live) && !Contradictory(m, live, t)
    requires forall c :: c in live && c !in left ==> IsClause(m.n, c) && Broken(m, live, t, c)
    ensures KeepsSupported(m, left)
  {
    hide Broken, Contradictory, Candidate;
    forall w, c | SelfSupporting(m, w) && c in w ensures c in left {
      assert w <= live && Clean(m, w, t);
      if Contradictory(m, w, t) { ContradictoryMonotone(m, w, live, t); }
      if c !in left { BrokenMonotone(m, w, live, t, c); }
    }
  }

  // ----- the tables -----

  function ListFor(pos: seq<seq<int>>, neg: seq<seq<int>>, l: int): seq<int>
    requires |pos| == |neg| && IsLiteral(|pos|, l)
  {
    if l >= 0 then pos[l] else neg[-l - 1]
  }

  predicate Mentions(c: Clause, l: int) {
    c.0 == l || c.1 == l
  }

  function Other(c: Clause, l: int): int {
    if c.0 == l then c.1 else c.0
  }

  /** Per literal, exactly the numbers of the clauses that mention it. */
  ghost predicate Indexed(n: int, v0: seq<Clause>, pos: seq<seq<int>>, neg: seq<seq<int>>) {
    && |pos| == |neg| == n
    && (forall i :: 0 <= i < |v0| ==> IsClause(n, v0[i]) && Bit(v0[i].0) != Bit(v0[i].1))
    && (forall i :: 0 <= i < |v0| ==> i in ListFor(pos, neg, v0[i].0) && i in ListFor(pos, neg, v0[i].1))
    && (forall l, j {:trigger ListFor(pos, neg, l)[j]} :: IsLiteral(n, l) && 0 <= j < |ListFor(pos, neg, l)| ==>
          0 <= ListFor(pos, neg, l)[j] < |v0| && Mentions(v0[ListFor(pos, neg, l)[j]], l))
  }

  function Pushed(lists: seq<seq<int>>, p: int, i: int): (r: seq<seq<int>>)
    requires 0 <= p < |lists|
  {
    lists[p := lists[p] + [i]]
  }

  function PushedPos(pos: seq<seq<int>>, l: int, i: int): seq<seq<int>>
    requires IsLiteral(|pos|, l)
  {
    if l >= 0 then Pushed(pos, l, i) else pos
  }

  function PushedNeg(neg: seq<seq<int>>, l: int, i: int): seq<seq<int>>
    requires IsLiteral(|neg|, l)
  {
    if l < 0 then Pushed(neg, -l - 1, i) else neg
  }

  lemma IndexedStep(n: int, v0: seq<Clause>, pos: seq<seq<int>>, neg: seq<seq<int>>, c: Clause)
    requires Indexed(n, v0, pos, neg) && IsClause(n, c) && Bit(c.0) != Bit(c.1)
    ensures Indexed(n, v0 + [c], PushedPos(PushedPos(pos, c.0, |v0|), c.1, |v0|), PushedNeg(PushedNeg(neg, c.0, |v0|), c.1, |v0|))
  {
    var pos', neg' := PushedPos(PushedPos(pos, c.0, |v0|), c.1, |v0|), PushedNeg(PushedNeg(neg, c.0, |v0|), c.1, |v0|);
    var v1 := v0 + [c];
    forall i, l | 0 <= i < |v1| && Mentions(v1[i], l) ensures i in ListFor(pos', neg', l) {
      ListGrows(n, pos, neg, c, |v0|, l);
      if i == |v0| { InTail(ListFor(pos, neg, l), i); } else { InTail(ListFor(pos, neg, l), |v0|); }
    }
    forall l, j | IsLiteral(n, l) && 0 <= j < |ListFor(pos', neg', l)|
      ensures 0 <= ListFor(pos', neg', l)[j] < |v1| && Mentions(v1[ListFor(pos', neg', l)[j]], l)
    {
      IndexedEntry(n, v0, pos, neg, c, l, j);
    }
  }

  lemma InTail(list: seq<int>, i: int)
    ensures i in list + [i]
    ensures forall k :: k in list ==> k in list + [i]
  {
    assert (list + [i])[|list|] == i;
  }

  lemma IndexedEntry(n: int, v0: seq<Clause>, pos: seq<seq<int>>, neg: seq<seq<int>>, c: Clause, l: int, j: int)
    requires Indexed(n, v0, pos, neg) && IsClause(n, c) && Bit(c.0) != Bit(c.1) && IsLiteral(n, l)
    requires var list := ListFor(PushedPos(PushedPos(pos, c.0, |v0|), c.1, |v0|), PushedNeg(PushedNeg(neg, c.0, |v0|), c.1, |v0|), l);
             0 <= j < |list|
    ensures var list := ListFor(PushedPos(PushedPos(pos, c.0, |v0|), c.1, |v0|), PushedNeg(PushedNeg(neg, c.0, |v0|), c.1, |v0|), l);
            0 <= list[j] < |v0 + [c]| && Mentions((v0 + [c])[list[j]], l)
  {
    ListGrows(n, pos, neg, c, |v0|, l);
    if j < |ListFor(pos, neg, l)| {
      var k := ListFor(pos, neg, l)[j];
      assert 0 <= k < |v0| && Mentions(v0[k], l);
    }
  }

  lemma ListGrows(n: int, pos: seq<seq<int>>, neg: seq<seq<int>>, c: Clause, i: int, l: int)
    requires |pos| == |neg| == n && IsClause(n, c) && Bit(c.0) != Bit(c.1) && IsLiteral(n, l)
    ensures ListFor(PushedPos(PushedPos(pos, c.0, i), c.1, i), PushedNeg(PushedNeg(neg, c.0, i), c.1, i), l)
            == ListFor(pos, neg, l) + (if Mentions(c, l) then [i] else [])
  {
  }

  // ----- what a table of deletion marks says; del and was are such tables -----

  /** Every clause whose half l was falsified without the other half being ensured is deleted. */
  ghost predicate Handled(m: Task, v0: seq<Clause>, live: set<Clause>, t: int, l: int, del: seq<bool>)
    requires m.Valid() && 0 <= t < |m.precLists|
  {
    forall i :: 0 <= i < |v0| && Mentions(v0[i], l) ==> HandledAt(m, v0, live, t, l, i, del)
  }

  ghost predicate HandledAt(m: Task, v0: seq<Clause>, live: set<Clause>, t: int, l: int, i: int, del: seq<bool>)
    requires m.Valid() && 0 <= t < |m.precLists|
  {
    && 0 <= i < |v0| == |del|
    && IsClause(m.n, v0[i])
    && (Mentions(v0[i], l) && !Ensured(m, live, t, Other(v0[i], l)) ==> del[i])
  }

  /** The deletions since was are justified. */
  ghost predicate OnlyBroken(m: Task, v0: seq<Clause>, live: set<Clause>, t: int, was: seq<bool>, del: seq<bool>)
    requires m.Valid() && 0 <= t < |m.precLists|
  {
    && |was| == |del| == |v0|
    && Grows(was, del)
    && (forall i {:trigger del[i]} :: 0 <= i < |v0| && del[i] ==> was[i] || (IsClause(m.n, v0[i]) && Broken(m, live, t, v0[i])))
  }

  predicate Grows(was: seq<bool>, del: seq<bool>) {
    |was| == |del| && forall i :: 0 <= i < |was| && was[i] ==> del[i]
  }

  lemma GrowsRefl(a: seq<bool>)
    ensures Grows(a, a)
  {
  }

  lemma GrowsTrans(a: seq<bool>, b: seq<bool>, c: seq<bool>)
    requires Grows(a, b) && Grows(b, c)
    ensures Grows(a, c)
  {
  }

  lemma GrowsAntisymmetric(a: seq<bool>, b: seq<bool>, c: seq<bool>)
    requires Grows(a, b) && Grows(b, c)
    ensures a == c ==> a == b
  {
  }

  lemma OnlyBrokenRefl(m: Task, v0: seq<Clause>, live: set<Clause>, t: int, was: seq<bool>)
    requires m.Valid() && 0 <= t < |m.precLists| && |was| == |v0|
    ensures OnlyBroken(m, v0, live, t, was, was)
  {
  }

  lemma HandledAtStays(m: Task, v0: seq<Clause>, live: set<Clause>, t: int, l: int, i: int, a: seq<bool>, b: seq<bool>)
    requires m.Valid() && 0 <= t < |m.precLists| && HandledAt(m, v0, live, t, l, i, a) && Grows(a, b)
    ensures HandledAt(m, v0, live, t, l, i, b)
  {
  }

  lemma HandledStays(m: Task, v0: seq<Clause>, live: set<Clause>, t: int, l: int, a: seq<bool>, b: seq<bool>)
    requires m.Valid() && 0 <= t < |m.precLists| && Handled(m, v0, live, t, l, a) && Grows(a, b)
    ensures Handled(m, v0, live, t, l, b)
  {
    forall i | 0 <= i < |v0| && Mentions(v0[i], l) ensures HandledAt(m, v0, live, t, l, i, b) {
      HandledAtStays(m, v0, live, t, l, i, a, b);
    }
  }

  lemma BrokenHere(m: Task, t: int, l: int, c: Clause, live: set<Clause>)
    requires m.Valid() && 0 <= t < |m.precLists| && IsLiteral(m.n, l) && IsClause(m.n, c)
    requires Falsified(m, t, l) && Mentions(c, l) && !Ensured(m, live, t, Other(c, l))
    ensures Broken(m, live, t, c)
  {
  }

  /** A deleted bit falsifies the positive literal, an added bit the negative one (357-360). */
  function EffectLiteral(p: int, additions: bool): int {
    if additions then -p - 1 else p
  }

  lemma EffectsFalsify(m: Task, t: int, additions: bool, k: int)
    requires m.Valid() && 0 <= t < |m.precLists| && 0 <= k < |if additions then m.addLists[t] else m.delLists[t]|
    ensures m.Mirrors(m.addLists[t], m.addVectors[t]) && m.Mirrors(m.delLists[t], m.delVectors[t])
    ensures |m.addVectors[t]| == |m.delVectors[t]| == m.n
    ensures var l := EffectLiteral((if additions then m.addLists[t] else m.delLists[t])[k], additions);
            IsLiteral(m.n, l) && Falsified(m, t, l)
  {
  }

  lemma FalsifiedByList(m: Task, t: int, additions: bool, l: int) returns (k: int)
    requires m.Valid() && 0 <= t < |m.precLists| && IsLiteral(m.n, l) && |m.addVectors[t]| == |m.delVectors[t]| == m.n
    requires (l < 0 <==> additions) && Falsified(m, t, l)
    ensures var list := if additions then m.addLists[t] else m.delLists[t];
            0 <= k < |list| && EffectLiteral(list[k], additions) == l
  {
    assert m.Mirrors(m.addLists[t], m.addVectors[t]) && m.Mirrors(m.delLists[t], m.delVectors[t]);
    var list := if additions then m.addLists[t] else m.delLists[t];
    k :| 0 <= k < |list| && list[k] == Bit(l);
  }

  // ----- the order in which 211-232 meets the candidates -----

  function Sign(l: int): int {
    if l < 0 then 1 else 0
  }

  predicate Before(c: Clause, p1: int, p2: int, b1: int, b2: int) {
    || Bit(c.0) < p1
    || (Bit(c.0) == p1 && Bit(c.1) < p2)
    || (Bit(c.0) == p1 && Bit(c.1) == p2 && Sign(c.0) < b1)
    || (Bit(c.0) == p1 && Bit(c.1) == p2 && Sign(c.0) == b1 && Sign(c.1) < b2)
  }

  ghost predicate Listed(m: Task, v0: seq<Clause>, p1: int, p2: int, b1: int, b2: int) {
    forall c :: c in v0 <==> Candidate(m, c) && Before(c, p1, p2, b1, b2)
  }

  /** No candidate lies between the two positions. */
  lemma ListedCarry(m: Task, v0: seq<Clause>, p1: int, p2: int, b1: int, b2: int, q1: int, q2: int, c1: int, c2: int)
    requires Listed(m, v0, p1, p2, b1, b2)
    requires || (q1 == p1 && q2 == p2 && c1 == b1 + 1 && c2 == 0 && b2 == 2)
             || (q1 == p1 && q2 == p2 + 1 && c1 == c2 == 0 && b1 == 2 && b2 == 0)
             || (q1 == p1 + 1 && q2 == c1 == c2 == 0 && p2 >= m.n && b1 == b2 == 0)
             || (q1 == p1 && p2 == 0 && q2 == p1 + 1 && b1 == b2 == c1 == c2 == 0)
    ensures Listed(m, v0, q1, q2, c1, c2)
  {
  }

  lemma ListedStep(m: Task, v0: seq<Clause>, p1: int, p2: int, b1: int, b2: int, c: Clause)
    requires Listed(m, v0, p1, p2, b1, b2) && 0 <= p1 < p2 < m.n && 0 <= b1 < 2 && 0 <= b2 < 2
    requires c == (if b1 == 1 then -p1 - 1 else p1, if b2 == 1 then -p2 - 1 else p2)
    ensures IsClause(m.n, c) && Bit(c.0) != Bit(c.1)
    ensures Candidate(m, c) <==> !((b1 == 1) == (p1 in m.s0List) && (b2 == 1) == (p2 in m.s0List))
    ensures Candidate(m, c) ==> Listed(m, v0 + [c], p1, p2, b1, b2 + 1)
    ensures !Candidate(m, c) ==> Listed(m, v0, p1, p2, b1, b2 + 1)
  {
    assert forall x :: x in v0 + [c] <==> x in v0 || x == c;
  }

  lemma ListedAll(m: Task, v0: seq<Clause>)
    ensures Listed(m, [], 0, 0, 0, 0)
    ensures Listed(m, v0, m.n, 0, 0, 0) ==> forall c :: c in v0 <==> Candidate(m, c)
  {
  }

  lemma NothingIndexed(n: nat, pos: seq<seq<int>>, neg: seq<seq<int>>)
    requires |pos| == |neg| == n
    requires forall p :: 0 <= p < n ==> pos[p] == neg[p] == []
    ensures Indexed(n, [], pos, neg)
  {
  }

  method InitialState(m: Task) returns (s0Vector: seq<bool>)
    requires m.Valid()
    ensures |s0Vector| == m.n && forall p :: 0 <= p < m.n ==> (s0Vector[p] <==> p in m.s0List)
  {
    s0Vector := seq(m.n, _ => false);
    for i := 0 to |m.s0List|
      invariant |s0Vector| == m.n && forall p :: 0 <= p < m.n ==> (s0Vector[p] <==> p in m.s0List[..i])
    {
      s0Vector := s0Vector[m.s0List[i] := true];
      assert m.s0List[..i + 1] == m.s0List[..i] + [m.s0List[i]];
    }
    assert m.s0List[..|m.s0List|] == m.s0List;
  }

  /** Lines 222-231 and 259-273: number a clause and enter it in the tables. */
  method Add(n: nat, v0: seq<Clause>, pos: seq<seq<int>>, neg: seq<seq<int>>, c: Clause)
    returns (v1: seq<Clause>, pos1: seq<seq<int>>, neg1: seq<seq<int>>)
    requires Indexed(n, v0, pos, neg) && IsClause(n, c) && Bit(c.0) != Bit(c.1)
    ensures Indexed(n, v1, pos1, neg1) && v1 == v0 + [c]
  {
    var num := |v0|;
    pos1, neg1 := pos, neg;
    if c.0 < 0 {
      neg1 := neg1[-c.0 - 1 := neg1[-c.0 - 1] + [num]];
    } else {
      pos1 := pos1[c.0 := pos1[c.0] + [num]];
    }
    if c.1 < 0 {
      neg1 := neg1[-c.1 - 1 := neg1[-c.1 - 1] + [num]];
    } else {
      pos1 := pos1[c.1 := pos1[c.1] + [num]];
    }
    v1 := v0 + [c];
    IndexedStep(n, v0, pos, neg, c);
  }

  /** compute_Rintanen_initial_invariants (191-238). */
  method InitialCandidates(m: Task) returns (v0: seq<Clause>, pos: seq<seq<int>>, neg: seq<seq<int>>)
    requires m.Valid()
    ensures Indexed(m.n, v0, pos, neg)
    ensures forall c :: c in v0 <==> Candidate(m, c)
  {
    hide *;
    var s0Vector := InitialState(m);
    v0, pos, neg := [], seq(m.n, _ => []), seq(m.n, _ => []);
    NothingIndexed(m.n, pos, neg);
    ListedAll(m, v0);
    for p1 := 0 to m.n
      invariant Indexed(m.n, v0, pos, neg)
      invariant Listed(m, v0, p1, 0, 0, 0)
    {
      ListedCarry(m, v0, p1, 0, 0, 0, p1, p1 + 1, 0, 0);
      for p2 := p1 + 1 to m.n
        invariant Indexed(m.n, v0, pos, neg)
        invariant Listed(m, v0, p1, p2, 0, 0)
      {
        for b1 := 0 to 2
          invariant Indexed(m.n, v0, pos, neg)
          invariant Listed(m, v0, p1, p2, b1, 0)
        {
          for b2 := 0 to 2
            invariant Indexed(m.n, v0, pos, neg)
            invariant Listed(m, v0, p1, p2, b1, b2)
          {
            var l1 := if b1 == 1 then -p1 - 1 else p1;
            var l2 := if b2 == 1 then -p2 - 1 else p2;
            ListedStep(m, v0, p1, p2, b1, b2, (l1, l2));
            if !((b1 == 1) == s0Vector[p1] && (b2 == 1) == s0Vector[p2]) {
              v0, pos, neg := Add(m.n, v0, pos, neg, (l1, l2));
            }
          }
          ListedCarry(m, v0, p1, p2, b1, 2, p1, p2, b1 + 1, 0);
        }
        ListedCarry(m, v0, p1, p2, 2, 0, p1, p2 + 1, 0, 0);
      }
      ListedCarry(m, v0, p1, if m.n > p1 + 1 then m.n else p1 + 1, 0, 0, p1 + 1, 0, 0, 0);
    }
    ListedAll(m, v0);
  }

  /** The clauses that are not marked for deletion. */
  ghost function LiveOf(v0: seq<Clause>, del: seq<bool>): (live: set<Clause>)
    requires |del| == |v0|
    ensures forall c :: c in live <==> exists i :: 0 <= i < |v0| && !del[i] && v0[i] == c
  {
    set i | 0 <= i < |v0| && !del[i] :: v0[i]
  }

  lemma LiveOfStep(v0: seq<Clause>, del: seq<bool>, i: int)
    requires |del| == |v0| && 0 <= i < |v0|
    ensures LiveOf(v0[..i + 1], del[..i + 1]) == LiveOf(v0[..i], del[..i]) + (if del[i] then {} else {v0[i]})
  {
    var a, b := LiveOf(v0[..i + 1], del[..i + 1]), LiveOf(v0[..i], del[..i]);
    forall c | c in a ensures c in b + (if del[i] then {} else {v0[i]}) {
      var k :| 0 <= k < i + 1 && !del[..i + 1][k] && v0[..i + 1][k] == c;
      if k < i { assert !del[..i][k] && v0[..i][k] == c; }
    }
    forall c | c in b ensures c in a {
      var k :| 0 <= k < i && !del[..i][k] && v0[..i][k] == c;
      assert !del[..i + 1][k] && v0[..i + 1][k] == c;
    }
    if !del[i] { assert !del[..i + 1][i] && v0[..i + 1][i] == v0[i]; }
  }

  lemma AllLive(v0: seq<Clause>, del: seq<bool>)
    requires |del| == |v0| && NoneMarked(del)
    ensures LiveOf(v0, del) == Elements(v0)
  {
  }

  lemma ClauseAt(n: int, v0: seq<Clause>, pos: seq<seq<int>>, neg: seq<seq<int>>, i: int)
    requires Indexed(n, v0, pos, neg) && 0 <= i < |v0|
    ensures IsClause(n, v0[i]) && Bit(v0[i].0) != Bit(v0[i].1)
  {
  }

  lemma TablesFit(n: int, v0: seq<Clause>, pos: seq<seq<int>>, neg: seq<seq<int>>)
    requires Indexed(n, v0, pos, neg)
    ensures |pos| == |neg| == n
  {
  }

  lemma LiveAfter(v0: seq<Clause>, was: seq<bool>, del: seq<bool>, gone: iset<Clause>)
    requires |was| == |del| == |v0|
    requires forall i :: 0 <= i < |v0| ==> (del[i] <==> was[i] || v0[i] in gone)
    ensures forall c :: c in LiveOf(v0, del) <==> c in LiveOf(v0, was) && c !in gone
    ensures del != was ==> LiveOf(v0, del) != LiveOf(v0, was)
  {
    forall c | c in LiveOf(v0, was) && c !in gone ensures c in LiveOf(v0, del) {
      var i :| 0 <= i < |v0| && !was[i] && v0[i] == c;
      assert !del[i];
    }
    if del != was {
      var i :| 0 <= i < |v0| && del[i] != was[i];
      assert v0[i] in LiveOf(v0, was) && v0[i] in gone;
    }
  }

  lemma MentionedIsListed(n: int, v0: seq<Clause>, pos: seq<seq<int>>, neg: seq<seq<int>>, i: int, l: int)
    requires Indexed(n, v0, pos, neg) && 0 <= i < |v0| && Mentions(v0[i], l) && IsLiteral(n, l) && |pos| == |neg| == n
    ensures i in ListFor(pos, neg, l)
  {
  }

  class Synthesis {
    const m: Task
    var v0: seq<Clause>
    var toDelete: array<bool>
    var posInvarsPerPredicate: seq<seq<int>>
    var negInvarsPerPredicate: seq<seq<int>>
    const posInferred: array<bool>
    const negInferred: array<bool>

    ghost predicate Shape()
      reads this
    {
      && m.Valid()
      && toDelete.Length == |v0|
      && posInferred.Length == negInferred.Length == m.n
      && toDelete != posInferred && toDelete != negInferred && posInferred != negInferred
      && |posInvarsPerPredicate| == |negInvarsPerPredicate| == m.n
      && Indexed(m.n, v0, posInvarsPerPredicate, negInvarsPerPredicate)
    }

    /** The clauses that are not marked for deletion. */
    ghost function Live(): set<Clause>
      reads this, toDelete
      requires toDelete.Length == |v0|
    {
      LiveOf(v0, toDelete[..])
    }

    ghost predicate Marked(l: int)
      reads posInferred, negInferred
    {
      && (l >= 0 ==> l < posInferred.Length && posInferred[l])
      && (l < 0 ==> -l - 1 < negInferred.Length && negInferred[-l - 1])
    }

    /** Lines 191-238 and 399-408. */
    constructor (m: Task)
      requires m.Valid()
      ensures this.m == m && Shape() && fresh(toDelete) && fresh(posInferred) && fresh(negInferred)
      ensures forall c :: c in Live() <==> Candidate(m, c)
      ensures NoneMarked(toDelete[..])
    {
      var candidates, pos, neg := InitialCandidates(m);
      this.m := m;
      v0, posInvarsPerPredicate, negInvarsPerPredicate := candidates, pos, neg;
      toDelete := new bool[|candidates|](_ => false);
      posInferred := new bool[m.n](_ => false);
      negInferred := new bool[m.n](_ => false);
      new;
      assert forall i :: 0 <= i < |v0| ==> !toDelete[i];
      assert forall c :: c in Live() <==> c in candidates;
    }

    method Mark(l: int) returns (contradiction: bool)
      requires Shape() && IsLiteral(m.n, l)
      modifies posInferred, negInferred
      ensures forall k :: IsLiteral(m.n, k) ==> (Marked(k) <==> old(Marked(k)) || k == l)
      ensures contradiction <==> old(Marked(Not(l)))
    {
      if l < 0 {
        negInferred[-l - 1] := true;
        contradiction := posInferred[-l - 1];
      } else {
        posInferred[l] := true;
        contradiction := negInferred[l];
      }
    }

    /** compute_Rintanten_action_applicable (288-339). */
    method ActionApplicable(t: int) returns (applicable: bool)
      requires Shape() && 0 <= t < |m.precLists|
      modifies posInferred, negInferred
      ensures applicable <==> !Contradictory(m, Live(), t)
      ensures applicable ==> MarkedRight(t, Live())
    {
      hide Indexed, Inferred, InferredUpTo, ClashFree, InferredFrom, Ensured, Broken, Contradictory, Handled, HandledAt, OnlyBroken, Grows, MarkedRight, MarkedUpTo, Task.Mirrors;
      Reset();
      NothingClashes();
      var inapplicable := false;
      var preIndex := 0;
      ghost var live := Live();
      while !inapplicable && preIndex < |m.precLists[t]|
        invariant 0 <= preIndex <= |m.precLists[t]|
        invariant Shape() && Live() == live
        invariant inapplicable ==> Contradictory(m, live, t)
        invariant forall l :: IsLiteral(m.n, l) && Marked(l) ==> InferredUpTo(m, live, t, preIndex, l)
        invariant !inapplicable ==> MarkedUpTo(live, t, preIndex) && ClashFree(-1)
      {
        inapplicable := InferFrom(t, preIndex, live);
        preIndex := preIndex + 1;
      }
      applicable := !inapplicable;
      if applicable {
        AllMarked(live, t);
      }
    }

    ghost predicate MarkedUpTo(live: set<Clause>, t: int, k: int)
      reads this, posInferred, negInferred
      requires m.Valid() && 0 <= t < |m.precLists| && 0 <= k <= |m.precLists[t]|
    {
      forall i, l {:trigger InferredFrom(live, m.precLists[t][i], l)} ::
        0 <= i < k && IsLiteral(m.n, l) && InferredFrom(live, m.precLists[t][i], l) ==> Marked(l)
    }

    /** No bit is marked both ways, but possibly the given one. */
    ghost predicate ClashFree(but: int)
      reads this, posInferred, negInferred
    {
      forall l :: IsLiteral(m.n, l) && Marked(l) && Marked(Not(l)) ==> Bit(l) == but
    }

    lemma NothingClashes()
      requires forall l :: IsLiteral(m.n, l) ==> !Marked(l)
      ensures ClashFree(-1)
    {
    }

    lemma AllMarked(live: set<Clause>, t: int)
      requires m.Valid() && 0 <= t < |m.precLists| && MarkedUpTo(live, t, |m.precLists[t]|) && ClashFree(-1)
      requires forall l :: IsLiteral(m.n, l) && Marked(l) ==> InferredUpTo(m, live, t, |m.precLists[t]|, l)
      ensures MarkedRight(t, live) && !Contradictory(m, live, t)
    {
      hide InferredFrom, Task.Mirrors;
      forall p | 0 <= p < m.n ensures !(Inferred(m, live, t, p) && Inferred(m, live, t, Not(p))) {
        assert Inferred(m, live, t, p) ==> Marked(p);
        assert Inferred(m, live, t, Not(p)) ==> Marked(Not(p));
      }
    }

    /** A precondition refuted by an earlier one refutes that one in turn, so the clash was noticed. */
    lemma NoClashAt(live: set<Clause>, t: int, preIndex: int)
      requires Shape() && 0 <= t < |m.precLists| && 0 <= preIndex < |m.precLists[t]| && live == Live()
      requires MarkedUpTo(live, t, preIndex + 1) && ClashFree(m.precLists[t][preIndex])
      requires Marked(Not(m.precLists[t][preIndex])) ==> InferredUpTo(m, live, t, preIndex, Not(m.precLists[t][preIndex]))
      ensures ClashFree(-1)
    {
      hide InferredFrom, Indexed, LiveOf, Task.Mirrors;
      var pre := m.precLists[t][preIndex];
      forall i | 0 <= i < preIndex ensures !InferredFrom(live, m.precLists[t][i], Not(pre)) {
        RefutesBack(live, m.precLists[t][i], pre);
      }
      assert !Marked(Not(pre));
      forall l | IsLiteral(m.n, l) ensures !(Marked(l) && Marked(Not(l))) {
        assert Bit(l) == pre ==> l == pre || Not(l) == pre;
      }
    }

    lemma RefutesBack(live: set<Clause>, q: int, pre: int)
      requires Shape() && live == Live() && 0 <= q < m.n && 0 <= pre < m.n
      ensures InferredFrom(live, q, q)
      ensures InferredFrom(live, q, Not(pre)) ==> q != pre && InferredFrom(live, pre, Not(q))
    {
      hide Indexed, Task.Mirrors;
      if InferredFrom(live, q, Not(pre)) {
        var c := if (Not(q), Not(pre)) in live then (Not(q), Not(pre)) else (Not(pre), Not(q));
        var k :| 0 <= k < |v0| && v0[k] == c;
        ClauseAt(m.n, v0, posInvarsPerPredicate, negInvarsPerPredicate, k);
      }
    }

    method Reset()
      requires Shape()
      modifies posInferred, negInferred
      ensures Shape()
      ensures forall l :: IsLiteral(m.n, l) ==> !Marked(l)
      ensures forall t, live :: 0 <= t < |m.precLists| ==> MarkedUpTo(live, t, 0)
    {
      for p1 := 0 to m.n
        invariant forall p :: 0 <= p < p1 ==> !posInferred[p] && !negInferred[p]
      {
        posInferred[p1] := false;
        negInferred[p1] := false;
      }
    }

    /** Lines 310-336: one precondition and all undeleted clauses it refutes a half of. */
    method InferFrom(t: int, preIndex: int, ghost live: set<Clause>) returns (inapplicable: bool)
      requires Shape() && 0 <= t < |m.precLists| && 0 <= preIndex < |m.precLists[t]| && live == Live()
      requires forall l :: IsLiteral(m.n, l) && Marked(l) ==> InferredUpTo(m, live, t, preIndex, l)
      requires MarkedUpTo(live, t, preIndex) && ClashFree(-1)
      modifies posInferred, negInferred
      ensures Shape() && Live() == live
      ensures inapplicable ==> Contradictory(m, live, t)
      ensures forall l :: IsLiteral(m.n, l) && Marked(l) ==> InferredUpTo(m, live, t, preIndex + 1, l)
      ensures !inapplicable ==> MarkedUpTo(live, t, preIndex + 1) && ClashFree(-1)
    {
      hide Contradictory, Inferred, InferredUpTo, InferredFrom, Indexed, LiveOf, Task.Mirrors;
      var pre := m.precLists[t][preIndex];
      OneMore(live, t, preIndex);
      posInferred[pre] := true;
      var list := ListFor(posInvarsPerPredicate, negInvarsPerPredicate, Not(pre));
      inapplicable := false;
      var j := 0;
      while !inapplicable && j < |list|
        invariant 0 <= j <= |list|
        invariant Shape() && Live() == live
        invariant inapplicable ==> Contradictory(m, live, t)
        invariant forall l :: IsLiteral(m.n, l) && Marked(l) ==> InferredUpTo(m, live, t, preIndex + 1, l)
        invariant MarkedUpTo(live, t, preIndex) && Marked(pre)
        invariant !inapplicable ==> ClashFree(pre) && (Marked(Not(pre)) ==> old(Marked(Not(pre))))
        invariant !inapplicable ==> forall k :: 0 <= k < j ==> Treated(list[k], pre)
      {
        var invar := list[j];
        ListEntry(Not(pre), j);
        if !toDelete[invar] {
          inapplicable := InferFromClause(t, preIndex, invar, live);
          assert Not(Not(pre)) == pre;
        }
        j := j + 1;
      }
      if !inapplicable {
        ListComplete(pre, live, list);
        Extend(live, t, preIndex);
        NoClashAt(live, t, preIndex);
      }
    }

    lemma OneMore(live: set<Clause>, t: int, preIndex: int)
      requires m.Valid() && 0 <= t < |m.precLists| && 0 <= preIndex < |m.precLists[t]|
      ensures forall l :: InferredUpTo(m, live, t, preIndex, l) ==> InferredUpTo(m, live, t, preIndex + 1, l)
      ensures InferredUpTo(m, live, t, preIndex + 1, m.precLists[t][preIndex])
    {
      assert InferredFrom(live, m.precLists[t][preIndex], m.precLists[t][preIndex]);
    }

    ghost predicate Treated(invar: int, pre: int)
      reads this, toDelete, posInferred, negInferred
    {
      0 <= invar < |v0| && invar < toDelete.Length && (!toDelete[invar] ==>
        (v0[invar].0 == Not(pre) ==> Marked(v0[invar].1)) && (v0[invar].1 == Not(pre) ==> Marked(v0[invar].0)))
    }

    lemma ListEntry(l: int, j: int)
      requires Shape() && IsLiteral(m.n, l) && 0 <= j < |ListFor(posInvarsPerPredicate, negInvarsPerPredicate, l)|
      ensures var i := ListFor(posInvarsPerPredicate, negInvarsPerPredicate, l)[j];
              0 <= i < |v0| && Mentions(v0[i], l) && IsClause(m.n, v0[i]) && Bit(v0[i].0) != Bit(v0[i].1)
    {
    }

    lemma ListComplete(pre: int, live: set<Clause>, list: seq<int>)
      requires Shape() && 0 <= pre < m.n && live == Live()
      requires list == ListFor(posInvarsPerPredicate, negInvarsPerPredicate, Not(pre))
      requires forall k :: 0 <= k < |list| ==> Treated(list[k], pre)
      requires Marked(pre)
      ensures forall l :: IsLiteral(m.n, l) && InferredFrom(live, pre, l) ==> Marked(l)
    {
      hide Indexed, Task.Mirrors;
      forall l | IsLiteral(m.n, l) && InferredFrom(live, pre, l) ensures Marked(l) {
        if l != pre {
          var c := if (Not(pre), l) in live then (Not(pre), l) else (l, Not(pre));
          var i :| 0 <= i < |v0| && !toDelete[..][i] && v0[i] == c;
          MentionedIsListed(m.n, v0, posInvarsPerPredicate, negInvarsPerPredicate, i, Not(pre));
          assert Treated(i, pre);
        }
      }
    }

    lemma Extend(live: set<Clause>, t: int, k: int)
      requires Shape() && 0 <= t < |m.precLists| && 0 <= k < |m.precLists[t]|
      requires MarkedUpTo(live, t, k)
      requires forall l :: IsLiteral(m.n, l) && InferredFrom(live, m.precLists[t][k], l) ==> Marked(l)
      ensures MarkedUpTo(live, t, k + 1)
    {
    }

    /** Lines 317-334. */
    method InferFromClause(t: int, preIndex: int, invar: int, ghost live: set<Clause>) returns (inapplicable: bool)
      requires Shape() && 0 <= t < |m.precLists| && 0 <= preIndex < |m.precLists[t]| && live == Live()
      requires 0 <= invar < |v0| && !toDelete[invar] && IsClause(m.n, v0[invar])
      requires forall l :: IsLiteral(m.n, l) && Marked(l) ==> InferredUpTo(m, live, t, preIndex + 1, l)
      modifies posInferred, negInferred
      ensures inapplicable ==> Contradictory(m, live, t)
      ensures forall l :: IsLiteral(m.n, l) && Marked(l) ==> InferredUpTo(m, live, t, preIndex + 1, l)
      ensures forall l :: IsLiteral(m.n, l) && old(Marked(l)) ==> Marked(l)
      ensures !inapplicable ==> forall l :: IsLiteral(m.n, l) && Marked(l) && !old(Marked(l)) ==> !Marked(Not(l))
      ensures Treated(invar, m.precLists[t][preIndex]) || inapplicable
    {
      hide Contradictory, Inferred, InferredUpTo, InferredFrom, Indexed, LiveOf, Task.Mirrors;
      var pre := m.precLists[t][preIndex];
      inapplicable := false;
      if v0[invar].0 < 0 && pre == -v0[invar].0 - 1 {
        MarkIsInferred(live, t, preIndex, invar, v0[invar].1);
        inapplicable := Mark(v0[invar].1);
      }
      if !inapplicable && v0[invar].1 < 0 && pre == -v0[invar].1 - 1 {
        MarkIsInferred(live, t, preIndex, invar, v0[invar].0);
        inapplicable := Mark(v0[invar].0);
      }
    }

    lemma MarkIsInferred(live: set<Clause>, t: int, preIndex: int, invar: int, l: int)
      requires Shape() && 0 <= t < |m.precLists| && 0 <= preIndex < |m.precLists[t]| && live == Live()
      requires 0 <= invar < |v0| && !toDelete[invar]
      requires v0[invar] == (Not(m.precLists[t][preIndex]), l) || v0[invar] == (l, Not(m.precLists[t][preIndex]))
      ensures InferredUpTo(m, live, t, preIndex + 1, l) && IsLiteral(m.n, l)
      ensures InferredUpTo(m, live, t, preIndex + 1, Not(l)) ==> Contradictory(m, live, t)
    {
      assert v0[invar] in live;
      assert InferredFrom(live, m.precLists[t][preIndex], l);
      if InferredUpTo(m, live, t, preIndex + 1, Not(l)) {
        BothInferred(live, t, preIndex + 1, l);
      }
    }

    lemma BothInferred(live: set<Clause>, t: int, k: int, l: int)
      requires m.Valid() && 0 <= t < |m.precLists| && 0 <= k <= |m.precLists[t]| && IsLiteral(m.n, l)
      requires InferredUpTo(m, live, t, k, l) && InferredUpTo(m, live, t, k, Not(l))
      ensures Contradictory(m, live, t)
    {
      assert Inferred(m, live, t, l) && Inferred(m, live, t, Not(l));
      assert Not(Not(l)) == l;
    }

    // ----- compute_Rintanten_action_effect (343-391) -----

    /** ensuresPosP / ensuresNegP as computed from the tables. */
    method EnsuredNow(t: int, l: int, ghost live: set<Clause>) returns (ensured: bool)
      requires Shape() && 0 <= t < |m.precLists| && IsLiteral(m.n, l)
      requires MarkedRight(t, live)
      ensures ensured <==> Ensured(m, live, t, l)
    {
      hide Inferred, Indexed;
      assert m.Mirrors(m.addLists[t], m.addVectors[t]) && m.Mirrors(m.delLists[t], m.delVectors[t]);
      if l >= 0 {
        ensured := (posInferred[l] && !m.delVectors[t][l]) || m.addVectors[t][l];
      } else {
        ensured := (negInferred[-l - 1] && !m.addVectors[t][-l - 1]) || m.delVectors[t][-l - 1];
      }
    }

    /** Lines 362-388 for one falsified literal. */
    method DeleteUnsupported(t: int, l: int, ghost live: set<Clause>, ghost was: seq<bool>) returns (removed: int)
      requires Shape() && 0 <= t < |m.precLists| && IsLiteral(m.n, l) && Falsified(m, t, l)
      requires MarkedRight(t, live)
      requires OnlyBroken(m, v0, live, t, was, toDelete[..])
      modifies toDelete
      ensures OnlyBroken(m, v0, live, t, was, toDelete[..]) && Handled(m, v0, live, t, l, toDelete[..])
      ensures Grows(old(toDelete[..]), toDelete[..])
      ensures removed >= 0 && (removed == 0 <==> toDelete[..] == old(toDelete[..]))
    {
      hide Indexed, Inferred, InferredFrom, Ensured, Broken, Contradictory, Handled, HandledAt, OnlyBroken, Grows, MarkedRight, MarkedUpTo, Task.Mirrors;
      removed := 0;
      var list := ListFor(posInvarsPerPredicate, negInvarsPerPredicate, l);
      GrowsRefl(toDelete[..]);
      for j := 0 to |list|
        invariant Shape() && MarkedRight(t, live)
        invariant OnlyBroken(m, v0, live, t, was, toDelete[..])
        invariant forall k :: 0 <= k < j ==> HandledAt(m, v0, live, t, l, list[k], toDelete[..])
        invariant Grows(old(toDelete[..]), toDelete[..])
        invariant removed >= 0 && (removed == 0 <==> toDelete[..] == old(toDelete[..]))
      {
        ghost var before := toDelete[..];
        var r := TreatClause(t, l, list[j], j, live, was);
        forall k | 0 <= k < j ensures HandledAt(m, v0, live, t, l, list[k], toDelete[..]) {
          HandledAtStays(m, v0, live, t, l, list[k], before, toDelete[..]);
        }
        GrowsTrans(old(toDelete[..]), before, toDelete[..]);
        GrowsAntisymmetric(old(toDelete[..]), before, toDelete[..]);
        removed := removed + r;
      }
      HandledByList(t, l, live, list);
    }

    /** Lines 365-388: one clause that mentions the falsified literal. */
    method TreatClause(t: int, l: int, invar: int, ghost j: int, ghost live: set<Clause>, ghost was: seq<bool>) returns (removed: int)
      requires Shape() && 0 <= t < |m.precLists| && IsLiteral(m.n, l) && Falsified(m, t, l)
      requires MarkedRight(t, live)
      requires 0 <= j < |ListFor(posInvarsPerPredicate, negInvarsPerPredicate, l)|
      requires invar == ListFor(posInvarsPerPredicate, negInvarsPerPredicate, l)[j]
      requires OnlyBroken(m, v0, live, t, was, toDelete[..])
      modifies toDelete
      ensures OnlyBroken(m, v0, live, t, was, toDelete[..])
      ensures HandledAt(m, v0, live, t, l, invar, toDelete[..])
      ensures Grows(old(toDelete[..]), toDelete[..])
      ensures removed >= 0 && (removed == 0 <==> toDelete[..] == old(toDelete[..]))
    {
      hide Indexed, Ensured, Broken;
      removed := 0;
      ListEntry(l, j);
      if !toDelete[invar] {
        var other := if Bit(v0[invar].0) == Bit(l) then v0[invar].1 else v0[invar].0;
        var ensured := EnsuredNow(t, other, live);
        if !ensured {
          BrokenHere(m, t, l, v0[invar], live);
          toDelete[invar] := true;
          removed := 1;
        }
      }
    }

    lemma HandledByList(t: int, l: int, live: set<Clause>, list: seq<int>)
      requires Shape() && 0 <= t < |m.precLists| && IsLiteral(m.n, l)
      requires list == ListFor(posInvarsPerPredicate, negInvarsPerPredicate, l)
      requires forall k :: 0 <= k < |list| ==> HandledAt(m, v0, live, t, l, list[k], toDelete[..])
      ensures Handled(m, v0, live, t, l, toDelete[..])
    {
      forall i | 0 <= i < |v0| && Mentions(v0[i], l) ensures HandledAt(m, v0, live, t, l, i, toDelete[..]) {
        assert i in list;
      }
    }

    ghost predicate MarkedRight(t: int, live: set<Clause>)
      reads this, posInferred, negInferred
      requires m.Valid() && 0 <= t < |m.precLists|
    {
      forall k :: IsLiteral(m.n, k) ==> (Marked(k) <==> Inferred(m, live, t, k))
    }

    /** The loop over one effect list (358-388): deletions falsify positive literals, additions negative ones. */
    method DeleteForEffects(t: int, additions: bool, ghost live: set<Clause>, ghost was: seq<bool>) returns (removed: int)
      requires Shape() && 0 <= t < |m.precLists| && MarkedRight(t, live)
      requires OnlyBroken(m, v0, live, t, was, toDelete[..])
      modifies toDelete
      ensures OnlyBroken(m, v0, live, t, was, toDelete[..])
      ensures forall l :: IsLiteral(m.n, l) && (l < 0 <==> additions) && Falsified(m, t, l) ==> Handled(m, v0, live, t, l, toDelete[..])
      ensures Grows(old(toDelete[..]), toDelete[..])
      ensures removed >= 0 && (removed == 0 <==> toDelete[..] == old(toDelete[..]))
    {
      hide Indexed, Inferred, InferredFrom, Ensured, Broken, Contradictory, Handled, HandledAt, OnlyBroken, Grows, MarkedRight, MarkedUpTo, Task.Mirrors;
      removed := 0;
      var list := if additions then m.addLists[t] else m.delLists[t];
      GrowsRefl(toDelete[..]);
      for index := 0 to |list|
        invariant Shape() && MarkedRight(t, live) && OnlyBroken(m, v0, live, t, was, toDelete[..])
        invariant forall k :: 0 <= k < index ==> Handled(m, v0, live, t, EffectLiteral(list[k], additions), toDelete[..])
        invariant Grows(old(toDelete[..]), toDelete[..])
        invariant removed >= 0 && (removed == 0 <==> toDelete[..] == old(toDelete[..]))
      {
        ghost var before := toDelete[..];
        EffectsFalsify(m, t, additions, index);
        var r := DeleteUnsupported(t, EffectLiteral(list[index], additions), live, was);
        forall k | 0 <= k < index ensures Handled(m, v0, live, t, EffectLiteral(list[k], additions), toDelete[..]) {
          HandledStays(m, v0, live, t, EffectLiteral(list[k], additions), before, toDelete[..]);
        }
        GrowsTrans(old(toDelete[..]), before, toDelete[..]);
        GrowsAntisymmetric(old(toDelete[..]), before, toDelete[..]);
        removed := removed + r;
      }
      forall l | IsLiteral(m.n, l) && (l < 0 <==> additions) && Falsified(m, t, l) ensures Handled(m, v0, live, t, l, toDelete[..]) {
        var k := FalsifiedByList(m, t, additions, l);
      }
    }

    /** compute_Rintanten_action_effect (343-391): exactly the clauses that t breaks are deleted. */
    method ActionEffect(t: int) returns (removedInvariants: int)
      requires Shape() && 0 <= t < |m.precLists| && MarkedRight(t, Live())
      modifies toDelete
      ensures removedInvariants >= 0 && (removedInvariants == 0 <==> toDelete[..] == old(toDelete[..]))
      ensures forall c :: c in Live() <==> c in old(Live()) && IsClause(m.n, c) && !Broken(m, old(Live()), t, c)
      ensures removedInvariants == 0 ==> Live() == old(Live())
      ensures removedInvariants != 0 ==> Live() < old(Live())
    {
      hide Indexed, Inferred, InferredFrom, Ensured, Broken, Contradictory, Handled, HandledAt, OnlyBroken, Grows, MarkedRight, MarkedUpTo, Task.Mirrors;
      ghost var live, was := Live(), toDelete[..];
      OnlyBrokenRefl(m, v0, live, t, was);
      var removedByDels := DeleteForEffects(t, false, live, was);
      ghost var mid := toDelete[..];
      var removedByAdds := DeleteForEffects(t, true, live, was);
      removedInvariants := removedByDels + removedByAdds;
      GrowsTrans(was, mid, toDelete[..]);
      GrowsAntisymmetric(was, mid, toDelete[..]);
      forall l | IsLiteral(m.n, l) && Falsified(m, t, l) ensures Handled(m, v0, live, t, l, toDelete[..]) {
        if l >= 0 { HandledStays(m, v0, live, t, l, mid, toDelete[..]); }
      }
      BrokenAreGone(t, live, was);
    }

    lemma BrokenAreGone(t: int, live: set<Clause>, was: seq<bool>)
      requires Shape() && 0 <= t < |m.precLists| && |was| == |v0|
      requires live == LiveOf(v0, was)
      requires OnlyBroken(m, v0, live, t, was, toDelete[..])
      requires forall l :: IsLiteral(m.n, l) && Falsified(m, t, l) ==> Handled(m, v0, live, t, l, toDelete[..])
      ensures forall c :: c in Live() <==> c in live && IsClause(m.n, c) && !Broken(m, live, t, c)
      ensures toDelete[..] != was ==> Live() != live
    {
      hide LiveOf;
      forall i | 0 <= i < |v0| ensures IsClause(m.n, v0[i]) && (toDelete[i] <==> was[i] || Broken(m, live, t, v0[i])) {
        BrokenIsGone(t, live, was, i);
      }
      LiveAfter(v0, was, toDelete[..], iset c | IsClause(m.n, c) && Broken(m, live, t, c));
    }

    lemma BrokenIsGone(t: int, live: set<Clause>, was: seq<bool>, i: int)
      requires Shape() && 0 <= t < |m.precLists| && |was| == |v0| && 0 <= i < |v0|
      requires OnlyBroken(m, v0, live, t, was, toDelete[..])
      requires forall l :: IsLiteral(m.n, l) && Falsified(m, t, l) ==> Handled(m, v0, live, t, l, toDelete[..])
      ensures IsClause(m.n, v0[i]) && (toDelete[i] <==> was[i] || Broken(m, live, t, v0[i]))
    {
      hide Ensured;
      assert IsClause(m.n, v0[i]);
      if Falsified(m, t, v0[i].0) { assert HandledAt(m, v0, live, t, v0[i].0, i, toDelete[..]); }
      if Falsified(m, t, v0[i].1) { assert HandledAt(m, v0, live, t, v0[i].1, i, toDelete[..]); }
      assert toDelete[..][i] == toDelete[i];
    }

    // ----- compute_Rintanen_reduce_invariants (240-285) -----

    method Reduce()
      requires Shape()
      modifies this
      ensures Shape() && fresh(toDelete)
      ensures Live() == old(Live())
      ensures NoneMarked(toDelete[..])
    {
      hide Indexed, LiveOf, Task.Mirrors;
      var v1: seq<Clause>, pos, neg := [], seq(m.n, _ => []), seq(m.n, _ => []);
      ghost var del := toDelete[..];
      NothingIndexed(m.n, pos, neg);
      for i := 0 to |v0|
        invariant unchanged(this) && Indexed(m.n, v1, pos, neg)
        invariant Elements(v1) == LiveOf(v0[..i], del[..i])
      {
        LiveOfStep(v0, del, i);
        if !toDelete[i] {
          ClauseAt(m.n, v0, posInvarsPerPredicate, negInvarsPerPredicate, i);
          assert Elements(v1 + [v0[i]]) == Elements(v1) + {v0[i]};
          v1, pos, neg := Add(m.n, v1, pos, neg, v0[i]);
        }
      }
      assert v0[..|v0|] == v0 && del[..|v0|] == del;
      v0, posInvarsPerPredicate, negInvarsPerPredicate := v1, pos, neg;
      toDelete := new bool[|v1|](_ => false);
      TablesFit(m.n, v1, pos, neg);
      AllLive(v1, toDelete[..]);
    }

    lemma LiveAreClauses()
      requires Shape()
      ensures forall c :: c in Live() ==> IsClause(m.n, c)
    {
    }

    /** One action of a round (429-441). */
    method CheckAction(t: int) returns (removed: int)
      requires Shape() && 0 <= t < |m.precLists| && KeepsSupported(m, Live())
      modifies toDelete, posInferred, negInferred
      ensures Shape() && KeepsSupported(m, Live())
      ensures removed >= 0
      ensures removed == 0 ==> Live() == old(Live()) && toDelete[..] == old(toDelete[..]) && Clean(m, Live(), t)
      ensures removed != 0 ==> Live() < old(Live())
    {
      hide Indexed, Inferred, Ensured, Broken, Contradictory, MarkedRight, Task.Mirrors;
      removed := 0;
      ghost var live := Live();
      LiveAreClauses();
      var applicable := ActionApplicable(t);
      if applicable {
        removed := ActionEffect(t);
        RemovalKeepsSupported(m, live, t, Live());
      }
    }
  }

  /** Line 427 compares a size_t with an int: -1 is converted to the largest 64-bit value. */
  function AsSize(i: int): int {
    if i < 0 then i + 0x1_0000_0000_0000_0000 else i
  }

  /** compute_Rintanen_Invariants (394-449). Everything returned holds in every reachable state, and nothing is
      lost: the result is the greatest set of candidates under which every action is inapplicable or breaks nothing. */
  method ComputeInvariants(m: Task) returns (v0: seq<Clause>)
    requires m.Valid() && |m.precLists| < 0x8000_0000
    ensures forall c :: c in v0 ==> Candidate(m, c)
    ensures forall t :: 0 <= t < |m.precLists| ==> Clean(m, Elements(v0), t)
    ensures m.EffectsDisjoint() ==> forall s0, plan, r :: m.Initial(s0) && m.Executes(s0, plan, r) ==> SatisfiesAll(r, Elements(v0))
    ensures forall w :: SelfSupporting(m, w) ==> w <= Elements(v0)
  {
    hide Indexed, Inferred, Ensured, Broken, Contradictory, Task.Mirrors, Clean, SelfSupporting, KeepsSupported, Candidate, Task.Executes;
    var r := new Synthesis(m);
    AllCandidates(m, r.Live());
    var round := 1;
    var lastChangeAtAction := -1;
    var again := true;
    while again
      invariant r.Shape() && r.m == m && fresh(r) && fresh(r.toDelete) && fresh(r.posInferred) && fresh(r.negInferred)
      invariant KeepsSupported(m, r.Live())
      invariant forall c :: c in r.Live() ==> Candidate(m, c)
      invariant -1 <= lastChangeAtAction < |m.precLists|
      invariant again && lastChangeAtAction >= 0 ==> CleanRange(m, r.Live(), lastChangeAtAction + 1, |m.precLists|)
      invariant !again ==> CleanRange(m, r.Live(), 0, |m.precLists|)
      invariant !again || round == 1 ==> NoneMarked(r.toDelete[..])
      decreases r.Live(), again
    {
      var nc := 0;
      if round != 1 {
        r.Reduce();
      }
      round := round + 1;
      var tIndex := 0;
      ghost var live, last := r.Live(), lastChangeAtAction;
      while tIndex < |m.precLists| && !(nc == 0 && tIndex > AsSize(lastChangeAtAction))
        invariant r.Shape() && r.m == m && fresh(r) && fresh(r.toDelete) && fresh(r.posInferred) && fresh(r.negInferred)
        invariant KeepsSupported(m, r.Live()) && nc >= 0
        invariant 0 <= tIndex <= |m.precLists| && -1 <= lastChangeAtAction < |m.precLists|
        invariant nc == 0 ==> r.Live() == live && lastChangeAtAction == last && CleanRange(m, live, 0, tIndex)
        invariant nc == 0 ==> NoneMarked(r.toDelete[..])
        invariant nc != 0 ==> r.Live() < live && 0 <= lastChangeAtAction < tIndex
        invariant nc != 0 ==> CleanRange(m, r.Live(), lastChangeAtAction + 1, tIndex)
      {
        var removed := r.CheckAction(tIndex);
        if removed != 0 {
          nc := nc + removed;
          lastChangeAtAction := tIndex;
        }
        tIndex := tIndex + 1;
      }
      again := nc != 0;
    }
    v0 := r.v0;
    assert Elements(v0) == r.Live();
    AllRunsSatisfy(m, Elements(v0));
  }

  ghost function Elements(v0: seq<Clause>): (e: set<Clause>)
    ensures forall c :: c in e <==> c in v0
  {
    set c | c in v0
  }

  ghost predicate NoneMarked(del: seq<bool>) {
    forall i :: 0 <= i < |del| ==> !del[i]
  }

  /** Every action from a up to, not including, b is clean with respect to the clauses in live. */
  ghost predicate CleanRange(m: Task, live: set<Clause>, a: int, b: int)
    requires m.Valid()
  {
    forall t :: 0 <= t < |m.precLists| && a <= t < b ==> Clean(m, live, t)
  }

  lemma AllCandidates(m: Task, live: set<Clause>)
    requires m.Valid() && forall c :: c in live <==> Candidate(m, c)
    ensures KeepsSupported(m, live)
  {
  }

  lemma AllRunsSatisfy(m: Task, live: set<Clause>)
    requires m.Valid() && CleanRange(m, live, 0, |m.precLists|) && KeepsSupported(m, live)
    requires forall c :: c in live ==> Candidate(m, c)
    ensures m.EffectsDisjoint() ==> forall s0, plan, r :: m.Initial(s0) && m.Executes(s0, plan, r) ==> SatisfiesAll(r, live)
    ensures forall w :: SelfSupporting(m, w) ==> w <= live
  {
    if m.EffectsDisjoint() {
      forall s0, plan, r | m.Initial(s0) && m.Executes(s0, plan, r) ensures SatisfiesAll(r, live) {
        InvariantsSound(m, live, s0, plan, r);
      }
    }
  }
}
