/** Two-literal clauses taken from the parsed model, closed under resolution and under the rule that a
    variable takes one of its values (Invariants.cpp:23-36, 45-181). */
module ClauseInference {
  import opened States

  /** invariants are disjunctions; of a strict mutex exactly one fact holds, of a mutex at most one; the facts
      firstIndex[v]..lastIndex[v] are the values of variable v. */
  datatype Parsed = Parsed(n: nat, invariants: seq<seq<int>>, strictMutexes: seq<seq<int>>, mutexes: seq<seq<int>>,
                           firstIndex: seq<int>, lastIndex: seq<int>)
  {
    ghost predicate Valid() {
      && (forall i, j :: 0 <= i < |invariants| && 0 <= j < |invariants[i]| ==> IsLiteral(n, invariants[i][j]))
      && (forall i, j :: 0 <= i < |strictMutexes| && 0 <= j < |strictMutexes[i]| ==> 0 <= strictMutexes[i][j] < n)
      && (forall i, j :: 0 <= i < |mutexes| && 0 <= j < |mutexes[i]| ==> 0 <= mutexes[i][j] < n)
      && |firstIndex| == |lastIndex|
      && (forall v :: 0 <= v < |firstIndex| ==> 0 <= firstIndex[v] <= lastIndex[v] < n)
    }

    /** s is a state the input does not rule out. */
    ghost predicate Allows(s: State)
      requires Valid()
    {
      && |s| == n
      && (forall i :: 0 <= i < |invariants| ==> exists j :: 0 <= j < |invariants[i]| && Holds(s, invariants[i][j]))
      && (forall i :: 0 <= i < |strictMutexes| ==> AtMostOne(s, strictMutexes[i]) && AtLeastOne(s, strictMutexes[i]))
      && (forall i :: 0 <= i < |mutexes| ==> AtMostOne(s, mutexes[i]))
      && (forall v :: 0 <= v < |firstIndex| ==> AtMostOne(s, Values(v)) && (firstIndex[v] != lastIndex[v] ==> AtLeastOne(s, Values(v))))
    }

    /** The values of variable v in order. */
    function Values(v: int): (r: seq<int>)
      requires 0 <= v < |firstIndex| == |lastIndex| && 0 <= firstIndex[v] <= lastIndex[v] < n
      ensures |r| == lastIndex[v] - firstIndex[v] + 1
      ensures forall k :: 0 <= k < |r| ==> r[k] == firstIndex[v] + k
    {
      seq(lastIndex[v] - firstIndex[v] + 1, k => firstIndex[v] + k)
    }
  }

  ghost predicate AtMostOne(s: State, facts: seq<int>)
    requires forall i :: 0 <= i < |facts| ==> 0 <= facts[i] < |s|
  {
    forall i, j :: 0 <= i < j < |facts| ==> !(s[facts[i]] && s[facts[j]])
  }

  ghost predicate AtLeastOne(s: State, facts: seq<int>)
    requires forall i :: 0 <= i < |facts| ==> 0 <= facts[i] < |s|
  {
    exists i :: 0 <= i < |facts| && s[facts[i]]
  }

  // ----- meaning of a set of clauses -----

  type Clauses = set<(int, int)>

  /** a or b holds in every state the input allows. */
  ghost predicate Entailed(inp: Parsed, a: int, b: int)
    requires inp.Valid() && IsLiteral(inp.n, a) && IsLiteral(inp.n, b)
  {
    forall s :: inp.Allows(s) ==> Satisfies(s, (a, b))
  }

  /** The stated clauses are present, in both forms, and the two rules lead to nothing new. */
  ghost predicate RuleClosed(inp: Parsed, q: Clauses)
    requires inp.Valid()
  {
    AllStated(inp, q) && Symmetric(q) && Saturated(q) && GroupRule(inp, q)
  }

  /** Whenever l excludes all values of a variable but k, l or k is present. */
  ghost predicate GroupRule(inp: Parsed, q: Clauses)
    requires inp.Valid()
  {
    forall l, v, k {:trigger OthersExcluded(inp, q, l, v, k)} :: IsLiteral(inp.n, l) && 0 <= v < |inp.firstIndex| && OthersExcluded(inp, q, l, v, k) ==> (l, k) in q
  }

  ghost predicate OthersExcluded(inp: Parsed, q: Clauses, l: int, v: int, k: int)
    requires inp.Valid() && 0 <= v < |inp.firstIndex|
  {
    && inp.firstIndex[v] != inp.lastIndex[v] && !(inp.firstIndex[v] <= Bit(l) <= inp.lastIndex[v])
    && inp.firstIndex[v] <= k <= inp.lastIndex[v]
    && forall i :: inp.firstIndex[v] <= i <= inp.lastIndex[v] && i != k ==> (l, Not(i)) in q
  }

  /** The clause follows by the rules: every set that is closed under them contains it. */
  ghost predicate Derivable(inp: Parsed, a: int, b: int)
    requires inp.Valid() && IsLiteral(inp.n, a) && IsLiteral(inp.n, b)
  {
    forall q {:trigger RuleClosed(inp, q)} :: RuleClosed(inp, q) ==> (a, b) in q
  }

  /** Nothing is present that does not follow by the rules. */
  ghost predicate Sound(inp: Parsed, p: Clauses)
    requires inp.Valid()
  {
    forall a, b :: (a, b) in p ==> IsLiteral(inp.n, a) && IsLiteral(inp.n, b) && Derivable(inp, a, b)
  }

  ghost predicate Symmetric(p: Clauses) {
    forall a, b :: (a, b) in p ==> (b, a) in p
  }

  /** Every resolvent of two clauses is present, unless it is a tautology. */
  ghost predicate Saturated(p: Clauses) {
    forall x, y, j :: (x, y) in p && (Not(x), j) in p && j != Not(y) ==> (y, j) in p
  }

  /** l excludes every value of v but k. */
  ghost predicate AllButOne(inp: Parsed, p: Clauses, l: int, v: int, k: int)
    requires inp.Valid() && 0 <= v < |inp.firstIndex|
  {
    && inp.firstIndex[v] <= k <= inp.lastIndex[v]
    && (l, Not(k)) !in p
    && forall i :: inp.firstIndex[v] <= i <= inp.lastIndex[v] && i != k ==> (l, Not(i)) in p
  }

  /** A literal outside variable v that excludes all of its values but one is clausified with that one. */
  ghost predicate GroupOk(inp: Parsed, p: Clauses, l: int, v: int)
    requires inp.Valid() && 0 <= v < |inp.firstIndex|
  {
    inp.firstIndex[v] != inp.lastIndex[v] && !(inp.firstIndex[v] <= Bit(l) <= inp.lastIndex[v]) ==>
      forall k :: AllButOne(inp, p, l, v, k) ==> (l, k) in p
  }

  ghost predicate GroupClosed(inp: Parsed, p: Clauses)
    requires inp.Valid()
  {
    forall l, v {:trigger GroupOk(inp, p, l, v)} :: IsLiteral(inp.n, l) && 0 <= v < |inp.firstIndex| ==> GroupOk(inp, p, l, v)
  }

  /** The pairs of literals read off a list of which at most one fact holds. */
  ghost predicate Excludes(facts: seq<int>, a: int, b: int) {
    exists i, j :: 0 <= i < j < |facts| && a == Not(facts[i]) && b == Not(facts[j])
  }

  /** a and b are the two values of variable v. */
  predicate TwoValues(inp: Parsed, v: int, a: int, b: int)
    requires 0 <= v < |inp.firstIndex| == |inp.lastIndex|
  {
    inp.lastIndex[v] - inp.firstIndex[v] == 1 && a == inp.firstIndex[v] && b == inp.lastIndex[v]
  }

  /** The clauses the input states directly (54-90). */
  ghost predicate Stated(inp: Parsed, a: int, b: int)
    requires inp.Valid()
  {
    || (exists i :: 0 <= i < |inp.invariants| && |inp.invariants[i]| == 2 && inp.invariants[i] == [a, b])
    || (exists i :: 0 <= i < |inp.strictMutexes| && Excludes(inp.strictMutexes[i], a, b))
    || (exists i :: 0 <= i < |inp.strictMutexes| && inp.strictMutexes[i] == [a, b])
    || (exists i :: 0 <= i < |inp.mutexes| && Excludes(inp.mutexes[i], a, b))
    || (exists v :: 0 <= v < |inp.firstIndex| && Excludes(inp.Values(v), a, b))
    || (exists v :: 0 <= v < |inp.firstIndex| && TwoValues(inp, v, a, b))
  }

  ghost predicate AllStated(inp: Parsed, p: Clauses)
    requires inp.Valid()
  {
    forall a, b :: Stated(inp, a, b) ==> (a, b) in p
  }

  function With(p: Clauses, a: int, b: int): Clauses {
    p + {(a, b), (b, a)}
  }

  lemma ResolventDerivable(inp: Parsed, x: int, y: int, j: int)
    requires inp.Valid() && IsLiteral(inp.n, x) && IsLiteral(inp.n, y) && IsLiteral(inp.n, j)
    requires Derivable(inp, x, y) && Derivable(inp, Not(x), j) && j != Not(y)
    ensures Derivable(inp, y, j) && Derivable(inp, j, y)
  {
    forall q | RuleClosed(inp, q) ensures (y, j) in q && (j, y) in q {
      assert (x, y) in q && (Not(x), j) in q;
    }
  }

  lemma SoundWith(inp: Parsed, p: Clauses, a: int, b: int)
    requires inp.Valid() && Sound(inp, p) && Symmetric(p)
    requires IsLiteral(inp.n, a) && IsLiteral(inp.n, b) && Derivable(inp, a, b)
    ensures Sound(inp, With(p, a, b)) && Symmetric(With(p, a, b))
  {
    assert Derivable(inp, b, a) by {
      forall q | RuleClosed(inp, q) ensures (b, a) in q { assert (a, b) in q; }
    }
  }

  lemma GroupDerivable(inp: Parsed, p: Clauses, l: int, v: int, k: int)
    requires inp.Valid() && Sound(inp, p) && IsLiteral(inp.n, l) && 0 <= v < |inp.firstIndex| && OthersExcluded(inp, p, l, v, k)
    ensures Derivable(inp, k, l)
  {
    forall q | RuleClosed(inp, q) ensures (k, l) in q {
      forall i | inp.firstIndex[v] <= i <= inp.lastIndex[v] && i != k ensures (l, Not(i)) in q {
        assert (l, Not(i)) in p && Derivable(inp, l, Not(i));
      }
      assert OthersExcluded(inp, q, l, v, k);
      assert (l, k) in q;
    }
  }

  // ----- what follows by the rules is true -----

  /** If l excludes all values of v but k, then l or k holds. */
  lemma GroupEntailed(inp: Parsed, p: Clauses, l: int, v: int, k: int)
    requires inp.Valid() && IsLiteral(inp.n, l) && 0 <= v < |inp.firstIndex| && OthersExcluded(inp, p, l, v, k)
    requires forall a, b :: (a, b) in p ==> IsLiteral(inp.n, a) && IsLiteral(inp.n, b) && Entailed(inp, a, b)
    ensures Entailed(inp, l, k)
  {
    forall s | inp.Allows(s) ensures Satisfies(s, (l, k)) {
      assert AtLeastOne(s, inp.Values(v));
      var q :| 0 <= q < |inp.Values(v)| && s[inp.Values(v)[q]];
      var i := inp.Values(v)[q];
      if i != k {
        assert (l, Not(i)) in p && Entailed(inp, l, Not(i));
        assert Satisfies(s, (l, Not(i)));
      }
    }
  }

  lemma ResolventEntailed(inp: Parsed, x: int, y: int, j: int)
    requires inp.Valid() && IsLiteral(inp.n, x) && IsLiteral(inp.n, y) && IsLiteral(inp.n, j)
    requires Entailed(inp, x, y) && Entailed(inp, Not(x), j)
    ensures Entailed(inp, y, j)
  {
    forall s | inp.Allows(s) ensures Satisfies(s, (y, j)) {
      assert Satisfies(s, (x, y)) && Satisfies(s, (Not(x), j));
    }
  }

  lemma ExclusionEntailed(inp: Parsed, facts: seq<int>, a: int, b: int)
    requires inp.Valid() && (forall k :: 0 <= k < |facts| ==> 0 <= facts[k] < inp.n) && Excludes(facts, a, b)
    requires forall s :: inp.Allows(s) ==> AtMostOne(s, facts)
    ensures IsLiteral(inp.n, a) && IsLiteral(inp.n, b) && Entailed(inp, a, b)
  {
    var i, j :| 0 <= i < j < |facts| && a == Not(facts[i]) && b == Not(facts[j]);
    forall s | inp.Allows(s) ensures Satisfies(s, (a, b)) { assert AtMostOne(s, facts); }
  }

  lemma PairEntailed(inp: Parsed, a: int, b: int)
    requires inp.Valid() && IsLiteral(inp.n, a) && IsLiteral(inp.n, b)
    ensures forall i :: 0 <= i < |inp.invariants| && inp.invariants[i] == [a, b] ==> Entailed(inp, a, b)
    ensures forall i :: 0 <= i < |inp.strictMutexes| && inp.strictMutexes[i] == [a, b] ==> Entailed(inp, a, b)
    ensures forall v :: 0 <= v < |inp.firstIndex| && TwoValues(inp, v, a, b) ==> Entailed(inp, a, b)
  {
    forall i | 0 <= i < |inp.invariants| && inp.invariants[i] == [a, b] ensures Entailed(inp, a, b) {
      forall s | inp.Allows(s) ensures Satisfies(s, (a, b)) {
        var j :| 0 <= j < |inp.invariants[i]| && Holds(s, inp.invariants[i][j]);
      }
    }
    forall i | 0 <= i < |inp.strictMutexes| && inp.strictMutexes[i] == [a, b] ensures Entailed(inp, a, b) {
      forall s | inp.Allows(s) ensures Satisfies(s, (a, b)) {
        assert AtLeastOne(s, inp.strictMutexes[i]);
      }
    }
    forall v | 0 <= v < |inp.firstIndex| && TwoValues(inp, v, a, b) ensures Entailed(inp, a, b) {
      forall s | inp.Allows(s) ensures Satisfies(s, (a, b)) {
        assert AtLeastOne(s, inp.Values(v));
        var q :| 0 <= q < |inp.Values(v)| && s[inp.Values(v)[q]];
      }
    }
  }

  lemma StatedEntailed(inp: Parsed, a: int, b: int)
    requires inp.Valid() && Stated(inp, a, b)
    ensures IsLiteral(inp.n, a) && IsLiteral(inp.n, b) && Entailed(inp, a, b)
  {
    hide Excludes, Entailed;
    AllowsMutexes(inp);
    if i :| 0 <= i < |inp.strictMutexes| && Excludes(inp.strictMutexes[i], a, b) {
      ExclusionEntailed(inp, inp.strictMutexes[i], a, b);
    } else if i :| 0 <= i < |inp.mutexes| && Excludes(inp.mutexes[i], a, b) {
      ExclusionEntailed(inp, inp.mutexes[i], a, b);
    } else if v :| 0 <= v < |inp.firstIndex| && Excludes(inp.Values(v), a, b) {
      ExclusionEntailed(inp, inp.Values(v), a, b);
    } else {
      PairLiterals(inp, a, b);
      PairEntailed(inp, a, b);
    }
  }

  lemma PairLiterals(inp: Parsed, a: int, b: int)
    requires inp.Valid()
    requires (exists i :: 0 <= i < |inp.invariants| && inp.invariants[i] == [a, b]) || (exists i :: 0 <= i < |inp.strictMutexes| && inp.strictMutexes[i] == [a, b])
          || (exists v :: 0 <= v < |inp.firstIndex| && TwoValues(inp, v, a, b))
    ensures IsLiteral(inp.n, a) && IsLiteral(inp.n, b)
  {
    if i :| 0 <= i < |inp.invariants| && inp.invariants[i] == [a, b] {
      assert inp.invariants[i][0] == a && inp.invariants[i][1] == b;
    } else if i :| 0 <= i < |inp.strictMutexes| && inp.strictMutexes[i] == [a, b] {
      assert inp.strictMutexes[i][0] == a && inp.strictMutexes[i][1] == b;
    }
  }

  /** All clauses that hold in every allowed state. */
  ghost function EntailedPairs(inp: Parsed): (q: Clauses)
    requires inp.Valid()
    ensures forall a, b :: (a, b) in q <==> IsLiteral(inp.n, a) && IsLiteral(inp.n, b) && Entailed(inp, a, b)
  {
    set c | c in Universe(inp.n) && EntailedClause(inp, c)
  }

  ghost predicate EntailedClause(inp: Parsed, c: (int, int))
    requires inp.Valid()
  {
    IsLiteral(inp.n, c.0) && IsLiteral(inp.n, c.1) && Entailed(inp, c.0, c.1)
  }

  lemma EntailedIsClosed(inp: Parsed)
    requires inp.Valid()
    ensures RuleClosed(inp, EntailedPairs(inp))
  {
    hide Stated, EntailedPairs, OthersExcluded;
    var q := EntailedPairs(inp);
    forall a, b | Stated(inp, a, b) ensures (a, b) in q { StatedEntailed(inp, a, b); }
    forall x, y, j | (x, y) in q && (Not(x), j) in q && j != Not(y) ensures (y, j) in q { ResolventEntailed(inp, x, y, j); }
    forall l, v, k | IsLiteral(inp.n, l) && 0 <= v < |inp.firstIndex| && OthersExcluded(inp, q, l, v, k) ensures (l, k) in q {
      ValueLiteral(inp, q, l, v, k);
      GroupEntailed(inp, q, l, v, k);
    }
    forall a, b | (a, b) in q ensures (b, a) in q {
      forall s | inp.Allows(s) ensures Satisfies(s, (b, a)) { assert Satisfies(s, (a, b)); }
    }
  }

  lemma ValueLiteral(inp: Parsed, q: Clauses, l: int, v: int, k: int)
    requires inp.Valid() && 0 <= v < |inp.firstIndex| && OthersExcluded(inp, q, l, v, k)
    ensures IsLiteral(inp.n, k)
  {
  }

  /** The rules are sound. */
  lemma DerivableIsEntailed(inp: Parsed, a: int, b: int)
    requires inp.Valid() && IsLiteral(inp.n, a) && IsLiteral(inp.n, b) && Derivable(inp, a, b)
    ensures Entailed(inp, a, b)
  {
    hide RuleClosed, Entailed;
    EntailedIsClosed(inp);
    assert (a, b) in EntailedPairs(inp);
  }

  // ----- the given-clause bookkeeping -----

  /** Resolvents of finished clauses with each other and with idle ones are present. */
  ghost predicate ResolvedSoFar(p: Clauses, finished: Clauses, idle: Clauses) {
    && finished <= p && idle <= p && Symmetric(finished)
    && forall x, y, j :: (x, y) in finished && ((Not(x), j) in finished || (Not(x), j) in idle) && j != Not(y) ==> (y, j) in p
  }

  /** Every clause is finished, idle, or waits in the queue in one of its two forms. */
  ghost predicate Accounted(p: Clauses, finished: Clauses, idle: Clauses, queue: seq<(int, int)>) {
    && (forall a, b :: (a, b) in p ==> (a, b) in finished || (a, b) in idle || (a, b) in queue || (b, a) in queue)
    && (forall i :: 0 <= i < |queue| ==> queue[i] in p)
  }

  /** Idle clauses speak about one fact only. */
  ghost predicate OneFact(idle: Clauses) {
    Symmetric(idle) && forall a, b :: (a, b) in idle ==> Bit(a) == Bit(b)
  }

  /** What holds whenever the worklist is looked at. */
  ghost predicate Working(inp: Parsed, p: Clauses, finished: Clauses, idle: Clauses, queue: seq<(int, int)>)
    requires inp.Valid()
  {
    && Sound(inp, p) && Symmetric(p) && OneFact(idle)
    && ResolvedSoFar(p, finished, idle)
    && Accounted(p, finished, idle, queue)
  }

  lemma AllFinished(inp: Parsed, p: Clauses, finished: Clauses, idle: Clauses)
    requires inp.Valid() && Working(inp, p, finished, idle, [])
    ensures Saturated(p)
  {
    assert Symmetric(p) && OneFact(idle) && ResolvedSoFar(p, finished, idle);
    assert forall a, b :: (a, b) in p ==> (a, b) in finished || (a, b) in idle;
    hide Working, Sound;
    forall x, y, j | (x, y) in p && (Not(x), j) in p && j != Not(y) ensures (y, j) in p {
      ResolventPresent(p, finished, idle, x, y, j);
    }
  }

  lemma ResolventPresent(p: Clauses, finished: Clauses, idle: Clauses, x: int, y: int, j: int)
    requires Symmetric(p) && OneFact(idle) && ResolvedSoFar(p, finished, idle)
    requires (x, y) in finished || (x, y) in idle
    requires (Not(x), j) in finished || (Not(x), j) in idle
    requires j != Not(y)
    ensures (y, j) in p
  {
    if (x, y) in finished {
    } else if (Not(x), j) in finished {
      assert Not(Not(x)) == x;
      assert (j, y) in p;
    } else {
      assert Bit(x) == Bit(y) == Bit(j);
      assert (y, j) == (x, y) || (y, j) == (Not(x), j);
    }
  }

  /** A new clause enters set and queue. */
  lemma Enqueue(inp: Parsed, p: Clauses, finished: Clauses, idle: Clauses, queue: seq<(int, int)>, a: int, b: int)
    requires inp.Valid() && Working(inp, p, finished, idle, queue)
    requires IsLiteral(inp.n, a) && IsLiteral(inp.n, b) && Derivable(inp, a, b)
    ensures Working(inp, With(p, a, b), finished, idle, queue + [(a, b)])
  {
    SoundWith(inp, p, a, b);
    assert (queue + [(a, b)])[|queue|] == (a, b);
    assert forall c :: c in queue ==> c in queue + [(a, b)];
  }

  lemma PairsWithin(p: Clauses, q: Clauses)
    requires forall a, b :: (a, b) in p ==> (a, b) in q
    ensures p <= q
  {
    forall c | c in p ensures c in q {
      var a, b := c.0, c.1;
      assert c == (a, b);
    }
  }

  ghost function Universe(n: nat): (u: Clauses)
    ensures forall a, b :: (a, b) in u <==> IsLiteral(n, a) && IsLiteral(n, b)
  {
    var m: int := n;
    set a: int, b: int | -m <= a < m && -m <= b < m :: (a, b)
  }

  /** binary_invariants: for every literal, offset by n, the literals it forms a clause with. */
  class InvariantTable {
    const n: nat
    const binary_invariants: array<set<int>>

    ghost predicate Valid()
      reads this
    {
      binary_invariants.Length == 2 * n
    }

    ghost function Pairs(): (p: Clauses)
      reads this, binary_invariants
      requires Valid()
      ensures forall a, b :: (a, b) in p <==> IsLiteral(n, a) && b in binary_invariants[a + n]
    {
      set i, b | 0 <= i < 2 * n && b in binary_invariants[i] :: (i - n, b)
    }

    constructor (n: nat)
      ensures this.n == n && Valid() && fresh(binary_invariants) && Pairs() == {}
    {
      this.n := n;
      binary_invariants := new set<int>[2 * n](_ => {});
    }

    /** insert_invariant (32-36). */
    method Insert(a: int, b: int)
      requires Valid() && IsLiteral(n, a) && IsLiteral(n, b)
      modifies binary_invariants
      ensures Pairs() == With(old(Pairs()), a, b)
    {
      ghost var p := Pairs();
      binary_invariants[a + n] := binary_invariants[a + n] + {b};
      binary_invariants[b + n] := binary_invariants[b + n] + {a};
      forall x, y ensures (x, y) in Pairs() <==> (x, y) in With(p, a, b) {
      }
    }

    /** can_state_features_co_occur (23-30): may the literals a and b hold together? */
    method CanStateFeaturesCoOccur(a: int, b: int) returns (can: bool)
      requires Valid() && IsLiteral(n, a) && IsLiteral(n, b)
      ensures can <==> a != Not(b) && (Not(a), Not(b)) !in Pairs()
    {
      if a == -b - 1 {
        return false;
      }
      can := -b - 1 !in binary_invariants[-a - 1 + n];
    }

    /** Lines 64-70 and 75-79: no two facts of the list hold together. */
    method InsertMutex(ghost inp: Parsed, facts: seq<int>)
      requires Valid() && inp.Valid() && inp.n == n && Sound(inp, Pairs()) && Symmetric(Pairs())
      requires forall i :: 0 <= i < |facts| ==> 0 <= facts[i] < n
      requires forall a, b :: Excludes(facts, a, b) ==> Stated(inp, a, b)
      modifies binary_invariants
      ensures Sound(inp, Pairs()) && Symmetric(Pairs()) && old(Pairs()) <= Pairs()
      ensures MutexStated(facts, Pairs())
    {
      hide Pairs, Sound, Symmetric, Derivable, Stated;
      for m1 := 0 to |facts|
        invariant Sound(inp, Pairs()) && Symmetric(Pairs()) && old(Pairs()) <= Pairs()
        invariant forall i, j :: 0 <= i < m1 && i < j < |facts| ==> (Not(facts[i]), Not(facts[j])) in Pairs()
      {
        for m2 := m1 + 1 to |facts|
          invariant Sound(inp, Pairs()) && Symmetric(Pairs()) && old(Pairs()) <= Pairs()
          invariant forall i, j :: 0 <= i < m1 && i < j < |facts| ==> (Not(facts[i]), Not(facts[j])) in Pairs()
          invariant forall j :: m1 < j < m2 ==> (Not(facts[m1]), Not(facts[j])) in Pairs()
        {
          assert Excludes(facts, -facts[m1] - 1, -facts[m2] - 1);
          StatedDerivable(inp, -facts[m1] - 1, -facts[m2] - 1);
          SoundWith(inp, Pairs(), -facts[m1] - 1, -facts[m2] - 1);
          Insert(-facts[m1] - 1, -facts[m2] - 1);
        }
      }
    }

    /** One directly stated clause. */
    method InsertStated(ghost inp: Parsed, a: int, b: int)
      requires Valid() && inp.Valid() && inp.n == n && Sound(inp, Pairs()) && Symmetric(Pairs())
      requires IsLiteral(n, a) && IsLiteral(n, b) && Derivable(inp, a, b)
      modifies binary_invariants
      ensures Sound(inp, Pairs()) && Symmetric(Pairs()) && old(Pairs()) <= Pairs() && (a, b) in Pairs()
    {
      SoundWith(inp, Pairs(), a, b);
      Insert(a, b);
    }
  }

  lemma StatedDerivable(inp: Parsed, a: int, b: int)
    requires inp.Valid() && Stated(inp, a, b)
    ensures IsLiteral(inp.n, a) && IsLiteral(inp.n, b) && Derivable(inp, a, b)
  {
    StatedEntailed(inp, a, b);
    hide Stated, Saturated, GroupRule;
  }

  ghost predicate Fine(inp: Parsed, t: InvariantTable)
    requires inp.Valid()
    reads t, t.binary_invariants
  {
    t.n == inp.n && t.Valid() && Sound(inp, t.Pairs()) && Symmetric(t.Pairs())
  }

  /** Lines 54-58. */
  method ExtractInvariantPairs(t: InvariantTable, inp: Parsed)
    requires inp.Valid() && Fine(inp, t)
    modifies t.binary_invariants
    ensures Fine(inp, t) && old(t.Pairs()) <= t.Pairs()
    ensures forall k :: 0 <= k < |inp.invariants| && |inp.invariants[k]| == 2 ==> (inp.invariants[k][0], inp.invariants[k][1]) in t.Pairs()
  {
    hide Sound, Symmetric, Derivable, InvariantTable.Pairs;
    for i := 0 to |inp.invariants|
      invariant Fine(inp, t) && old(t.Pairs()) <= t.Pairs()
      invariant forall k :: 0 <= k < i && |inp.invariants[k]| == 2 ==> (inp.invariants[k][0], inp.invariants[k][1]) in t.Pairs()
    {
      if |inp.invariants[i]| == 2 {
        assert inp.invariants[i] == [inp.invariants[i][0], inp.invariants[i][1]];
        StatedDerivable(inp, inp.invariants[i][0], inp.invariants[i][1]);
        t.InsertStated(inp, inp.invariants[i][0], inp.invariants[i][1]);
      }
    }
  }

  ghost predicate MutexStated(facts: seq<int>, p: Clauses) {
    forall a, b :: Excludes(facts, a, b) ==> (a, b) in p
  }

  lemma MutexStatedGrows(p: Clauses, q: Clauses)
    requires p <= q
    ensures forall facts :: MutexStated(facts, p) ==> MutexStated(facts, q)
  {
  }

  ghost predicate StrictStated(inp: Parsed, p: Clauses, k: int)
    requires 0 <= k < |inp.strictMutexes|
  {
    MutexStated(inp.strictMutexes[k], p) && (|inp.strictMutexes[k]| == 2 ==> (inp.strictMutexes[k][0], inp.strictMutexes[k][1]) in p)
  }

  lemma StrictGrows(inp: Parsed, p: Clauses, q: Clauses, i: int)
    requires p <= q && 0 <= i <= |inp.strictMutexes| && forall k :: 0 <= k < i ==> StrictStated(inp, p, k)
    ensures forall k :: 0 <= k < i ==> StrictStated(inp, q, k)
  {
    MutexStatedGrows(p, q);
    hide MutexStated;
    forall k | 0 <= k < i ensures StrictStated(inp, q, k) {
      assert StrictStated(inp, p, k);
    }
  }

  /** Lines 60-70. */
  method ExtractStrictMutexes(t: InvariantTable, inp: Parsed)
    requires inp.Valid() && Fine(inp, t)
    modifies t.binary_invariants
    ensures Fine(inp, t) && old(t.Pairs()) <= t.Pairs()
    ensures forall k :: 0 <= k < |inp.strictMutexes| ==> StrictStated(inp, t.Pairs(), k)
  {
    hide Sound, Symmetric, Derivable, InvariantTable.Pairs, MutexStated, Excludes, Parsed.Values;
    ListsStated(inp);
    for i := 0 to |inp.strictMutexes|
      invariant Fine(inp, t) && old(t.Pairs()) <= t.Pairs()
      invariant forall k :: 0 <= k < i ==> StrictStated(inp, t.Pairs(), k)
    {
      ghost var p := t.Pairs();
      t.InsertMutex(inp, inp.strictMutexes[i]);
      ghost var q := t.Pairs();
      if |inp.strictMutexes[i]| == 2 {
        assert inp.strictMutexes[i] == [inp.strictMutexes[i][0], inp.strictMutexes[i][1]];
        StatedDerivable(inp, inp.strictMutexes[i][0], inp.strictMutexes[i][1]);
        t.InsertStated(inp, inp.strictMutexes[i][0], inp.strictMutexes[i][1]);
      }
      MutexStatedGrows(q, t.Pairs());
      StrictGrows(inp, p, t.Pairs(), i);
    }
  }

  /** Lines 74-79. */
  method ExtractMutexes(t: InvariantTable, inp: Parsed)
    requires inp.Valid() && Fine(inp, t)
    modifies t.binary_invariants
    ensures Fine(inp, t) && old(t.Pairs()) <= t.Pairs()
    ensures forall k :: 0 <= k < |inp.mutexes| ==> MutexStated(inp.mutexes[k], t.Pairs())
  {
    hide Sound, Symmetric, Derivable, InvariantTable.Pairs, MutexStated, Excludes, Parsed.Values;
    ListsStated(inp);
    for i := 0 to |inp.mutexes|
      invariant Fine(inp, t) && old(t.Pairs()) <= t.Pairs()
      invariant forall k :: 0 <= k < i ==> MutexStated(inp.mutexes[k], t.Pairs())
    {
      ghost var p := t.Pairs();
      t.InsertMutex(inp, inp.mutexes[i]);
      MutexStatedGrows(p, t.Pairs());
    }
  }

  ghost predicate GroupStated(inp: Parsed, p: Clauses, v: int)
    requires inp.Valid() && 0 <= v < |inp.firstIndex|
  {
    MutexStated(inp.Values(v), p) && (inp.lastIndex[v] - inp.firstIndex[v] == 1 ==> (inp.firstIndex[v], inp.lastIndex[v]) in p)
  }

  lemma GroupsGrow(inp: Parsed, p: Clauses, q: Clauses, v: int)
    requires inp.Valid() && p <= q && 0 <= v <= |inp.firstIndex| && forall w :: 0 <= w < v ==> GroupStated(inp, p, w)
    ensures forall w :: 0 <= w < v ==> GroupStated(inp, q, w)
  {
    MutexStatedGrows(p, q);
    hide MutexStated;
    forall w | 0 <= w < v ensures GroupStated(inp, q, w) {
      assert GroupStated(inp, p, w);
    }
  }

  /** Lines 82-90. */
  method ExtractGroups(t: InvariantTable, inp: Parsed)
    requires inp.Valid() && Fine(inp, t)
    modifies t.binary_invariants
    ensures Fine(inp, t) && old(t.Pairs()) <= t.Pairs()
    ensures forall v :: 0 <= v < |inp.firstIndex| ==> GroupStated(inp, t.Pairs(), v)
  {
    hide Sound, Symmetric, Derivable, InvariantTable.Pairs, MutexStated, Excludes, Parsed.Values;
    ListsStated(inp);
    for v := 0 to |inp.firstIndex|
      invariant Fine(inp, t) && old(t.Pairs()) <= t.Pairs()
      invariant forall w :: 0 <= w < v ==> GroupStated(inp, t.Pairs(), w)
    {
      ghost var p := t.Pairs();
      t.InsertMutex(inp, inp.Values(v));
      ghost var q := t.Pairs();
      if inp.lastIndex[v] - inp.firstIndex[v] == 1 {
        assert TwoValues(inp, v, inp.firstIndex[v], inp.lastIndex[v]);
        StatedDerivable(inp, inp.firstIndex[v], inp.lastIndex[v]);
        t.InsertStated(inp, inp.firstIndex[v], inp.lastIndex[v]);
      }
      MutexStatedGrows(q, t.Pairs());
      GroupsGrow(inp, p, t.Pairs(), v);
    }
  }

  /** Lines 54-90. */
  method ExtractStated(inp: Parsed) returns (t: InvariantTable)
    requires inp.Valid()
    ensures t.n == inp.n && t.Valid() && fresh(t) && fresh(t.binary_invariants)
    ensures Sound(inp, t.Pairs()) && Symmetric(t.Pairs()) && AllStated(inp, t.Pairs())
  {
    hide Sound, Symmetric, Derivable, InvariantTable.Pairs, StrictStated, MutexStated, GroupStated, AllStated, Parsed.Allows;
    t := new InvariantTable(inp.n);
    NothingStated(inp);
    ExtractInvariantPairs(t, inp);
    ghost var p1 := t.Pairs();
    ExtractStrictMutexes(t, inp);
    ghost var p2 := t.Pairs();
    ExtractMutexes(t, inp);
    ghost var p3 := t.Pairs();
    ExtractGroups(t, inp);
    EverythingStated(inp, p1, p2, p3, t.Pairs());
  }

  lemma EverythingStated(inp: Parsed, p1: Clauses, p2: Clauses, p3: Clauses, p: Clauses)
    requires inp.Valid() && p1 <= p2 <= p3 <= p
    requires forall k :: 0 <= k < |inp.invariants| && |inp.invariants[k]| == 2 ==> (inp.invariants[k][0], inp.invariants[k][1]) in p1
    requires forall k :: 0 <= k < |inp.strictMutexes| ==> StrictStated(inp, p2, k)
    requires forall k :: 0 <= k < |inp.mutexes| ==> MutexStated(inp.mutexes[k], p3)
    requires forall v :: 0 <= v < |inp.firstIndex| ==> GroupStated(inp, p, v)
    ensures AllStated(inp, p)
  {
    hide Excludes;
    forall a, b | Stated(inp, a, b) ensures (a, b) in p {
      if i :| 0 <= i < |inp.invariants| && |inp.invariants[i]| == 2 && inp.invariants[i] == [a, b] {
        assert (inp.invariants[i][0], inp.invariants[i][1]) in p1;
        assert (a, b) in p;
      } else if i :| 0 <= i < |inp.strictMutexes| && Excludes(inp.strictMutexes[i], a, b) {
        assert StrictStated(inp, p2, i);
        assert (a, b) in p;
      } else if i :| 0 <= i < |inp.strictMutexes| && inp.strictMutexes[i] == [a, b] {
        assert StrictStated(inp, p2, i);
        assert (inp.strictMutexes[i][0], inp.strictMutexes[i][1]) in p2;
        assert (a, b) in p;
      } else if i :| 0 <= i < |inp.mutexes| && Excludes(inp.mutexes[i], a, b) {
        assert MutexStated(inp.mutexes[i], p3);
        assert (a, b) in p;
      } else {
        var v :| 0 <= v < |inp.firstIndex| && (Excludes(inp.Values(v), a, b) || TwoValues(inp, v, a, b));
        assert GroupStated(inp, p, v) && MutexStated(inp.Values(v), p);
        if TwoValues(inp, v, a, b) {
          assert (inp.firstIndex[v], inp.lastIndex[v]) in p;
        } else {
          assert Excludes(inp.Values(v), a, b);
        }
      }
    }
  }

  lemma NothingStated(inp: Parsed)
    requires inp.Valid()
    ensures Sound(inp, {}) && Symmetric({})
  {
  }

  lemma ListsStated(inp: Parsed)
    requires inp.Valid()
    ensures forall i, a, b :: 0 <= i < |inp.strictMutexes| && Excludes(inp.strictMutexes[i], a, b) ==> Stated(inp, a, b)
    ensures forall i, a, b :: 0 <= i < |inp.mutexes| && Excludes(inp.mutexes[i], a, b) ==> Stated(inp, a, b)
    ensures forall v, a, b :: 0 <= v < |inp.firstIndex| && Excludes(inp.Values(v), a, b) ==> Stated(inp, a, b)
  {
    hide Excludes;
  }

  lemma AllowsMutexes(inp: Parsed)
    requires inp.Valid()
    ensures forall s, i :: inp.Allows(s) && 0 <= i < |inp.strictMutexes| ==> AtMostOne(s, inp.strictMutexes[i])
    ensures forall s, i :: inp.Allows(s) && 0 <= i < |inp.mutexes| ==> AtMostOne(s, inp.mutexes[i])
    ensures forall s, v :: inp.Allows(s) && 0 <= v < |inp.firstIndex| ==> AtMostOne(s, inp.Values(v))
  {
  }

  // ----- closing the set (97-171) -----

  /** The queue holds exactly the clauses in queued. */
  method Pick<T(==)>(s: set<T>) returns (x: T)
    requires s != {}
    ensures x in s
  {
    x :| x in s;
  }

  ghost predicate Holding(queue: seq<(int, int)>, queued: Clauses) {
    (forall i :: 0 <= i < |queue| ==> queue[i] in queued) && (forall c :: c in queued ==> c in queue)
  }

  lemma NothingQueued()
    ensures Holding([], {})
  {
  }

  lemma HoldingMore(queue: seq<(int, int)>, queued: Clauses, c: (int, int))
    requires Holding(queue, queued)
    ensures Holding(queue + [c], queued + {c})
  {
    assert (queue + [c])[|queue|] == c;
  }

  /** Lines 101-110: the clauses of one literal l with a literal over a later fact. */
  method QueueRow(l: int, row: set<int>, queue0: seq<(int, int)>, ghost queued0: Clauses) returns (queue: seq<(int, int)>, ghost queued: Clauses)
    requires Holding(queue0, queued0)
    ensures Holding(queue, queued)
    ensures queued == queued0 + set b | b in row && Bit(l) < Bit(b) :: (l, b)
  {
    hide Holding;
    queue, queued := queue0, queued0;
    var rest := row;
    while rest != {}
      invariant rest <= row && Holding(queue, queued)
      invariant queued == queued0 + set b | b in row - rest && Bit(l) < Bit(b) :: (l, b)
    {
      var j := Pick(rest);
      if Bit(l) < Bit(j) {
        HoldingMore(queue, queued, (l, j));
        queue, queued := queue + [(l, j)], queued + {(l, j)};
      }
      rest := rest - {j};
    }
  }

  /** Lines 100-111: every clause about two facts is queued in one of its forms; the others are idle. */
  method InitialQueue(t: InvariantTable, ghost inp: Parsed) returns (queue: seq<(int, int)>, ghost idle: Clauses)
    requires inp.Valid() && t.n == inp.n && t.Valid() && Sound(inp, t.Pairs()) && Symmetric(t.Pairs())
    ensures Working(inp, t.Pairs(), {}, idle, queue)
    ensures queue == [] ==> forall a, b :: (a, b) in t.Pairs() ==> Bit(a) == Bit(b)
  {
    hide Holding, Sound, Symmetric, Working, InvariantTable.Pairs;
    queue := [];
    ghost var queued: Clauses := {};
    ghost var p := t.Pairs();
    NothingQueued();
    for i := 0 to 2 * t.n
      invariant Holding(queue, queued)
      invariant forall a, b :: (a, b) in queued <==> (a, b) in p && a + t.n < i && Bit(a) < Bit(b)
    {
      TableRow(t, i - t.n);
      queue, queued := QueueRow(i - t.n, t.binary_invariants[i], queue, queued);
    }
    idle := set c | c in p && Bit(c.0) == Bit(c.1);
    InitiallyWorking(inp, p, queue, queued, idle);
  }

  lemma InitiallyWorking(inp: Parsed, p: Clauses, queue: seq<(int, int)>, queued: Clauses, idle: Clauses)
    requires inp.Valid() && Sound(inp, p) && Symmetric(p) && Holding(queue, queued)
    requires forall a, b :: (a, b) in queued <==> (a, b) in p && a < inp.n && Bit(a) < Bit(b)
    requires idle == set c | c in p && Bit(c.0) == Bit(c.1)
    ensures Working(inp, p, {}, idle, queue)
    ensures queue == [] ==> forall a, b :: (a, b) in p ==> Bit(a) == Bit(b)
  {
    forall a, b | (a, b) in p ensures (a, b) in idle || (a, b) in queue || (b, a) in queue {
      assert (b, a) in p && IsLiteral(inp.n, a) && IsLiteral(inp.n, b);
      assert (a, b) in queued || (b, a) in queued || Bit(a) == Bit(b);
    }
    PairsWithin(queued, p);
  }

  /** Lines 122-139: the resolvents of (keep or -other-1) with everything that contains other. */
  method ResolveOn(t: InvariantTable, ghost inp: Parsed, other: int, keep: int, queue0: seq<(int, int)>, ghost finished: Clauses, ghost idle: Clauses)
    returns (queue: seq<(int, int)>)
    requires inp.Valid() && t.n == inp.n && t.Valid() && IsLiteral(t.n, other) && IsLiteral(t.n, keep)
    requires Working(inp, t.Pairs(), finished, idle, queue0)
    requires Derivable(inp, Not(other), keep)
    modifies t.binary_invariants
    ensures Working(inp, t.Pairs(), finished, idle, queue) && old(t.Pairs()) <= t.Pairs()
    ensures forall j :: (other, j) in old(t.Pairs()) && j != Not(keep) ==> (keep, j) in t.Pairs()
    ensures (queue == queue0 && t.Pairs() == old(t.Pairs())) || old(t.Pairs()) < t.Pairs()
    ensures queue0 <= queue
  {
    hide Working, Derivable, InvariantTable.Pairs;
    queue := queue0;
    ghost var p := t.Pairs();
    var snapshot := t.binary_invariants[other + t.n];
    TableRow(t, other);
    var rest := snapshot;
    while rest != {}
      invariant rest <= snapshot && t.Valid()
      invariant Working(inp, t.Pairs(), finished, idle, queue) && p <= t.Pairs()
      invariant forall j :: j in snapshot && j !in rest && j != Not(keep) ==> (keep, j) in t.Pairs()
      invariant (queue == queue0 && t.Pairs() == p) || p < t.Pairs()
      invariant queue0 <= queue
    {
      var j := Pick(rest);
      rest := rest - {j};
      if -j - 1 != keep {
        var known := Contains(t, keep, j);
        if !known {
          NewResolvent(inp, t.Pairs(), p, finished, idle, queue, other, keep, j);
          t.Insert(keep, j);
          queue := queue + [(keep, j)];
        }
      }
    }
  }

  method Contains(t: InvariantTable, a: int, b: int) returns (known: bool)
    requires t.Valid() && IsLiteral(t.n, a)
    ensures known <==> (a, b) in t.Pairs()
  {
    known := b in t.binary_invariants[a + t.n];
  }

  lemma TableRow(t: InvariantTable, l: int)
    requires t.Valid() && IsLiteral(t.n, l)
    ensures forall j :: j in t.binary_invariants[l + t.n] <==> (l, j) in t.Pairs()
  {
  }

  lemma NewResolvent(inp: Parsed, p: Clauses, old_p: Clauses, finished: Clauses, idle: Clauses, queue: seq<(int, int)>, other: int, keep: int, j: int)
    requires inp.Valid() && Working(inp, p, finished, idle, queue) && IsLiteral(inp.n, other) && IsLiteral(inp.n, keep)
    requires (other, j) in old_p && old_p <= p && Derivable(inp, Not(other), keep) && j != Not(keep)
    ensures IsLiteral(inp.n, j) && Working(inp, With(p, keep, j), finished, idle, queue + [(keep, j)])
  {
    assert (other, j) in p;
    assert Derivable(inp, Not(Not(other)), j);
    ResolventDerivable(inp, Not(other), keep, j);
    Enqueue(inp, p, finished, idle, queue, keep, j);
  }

  /** The first queue entry (a, b) has been resolved on both of its literals. */
  lemma ClauseFinished(inp: Parsed, p: Clauses, p2: Clauses, finished: Clauses, idle: Clauses, queue: seq<(int, int)>, a: int, b: int)
    requires inp.Valid() && Working(inp, p2, finished, idle, queue) && |queue| > 0 && queue[0] == (a, b)
    requires finished + idle <= p <= p2
    requires forall j :: (Not(a), j) in p && j != Not(b) ==> (b, j) in p2
    requires forall j :: (Not(b), j) in p && j != Not(a) ==> (a, j) in p2
    ensures Working(inp, p2, With(finished, a, b), idle, queue[1..])
  {
    var done := With(finished, a, b);
    forall x, y, j | (x, y) in done && ((Not(x), j) in done || (Not(x), j) in idle) && j != Not(y) ensures (y, j) in p2 {
      ResolvedPair(p, p2, finished, idle, a, b, x, y, j);
    }
    assert forall c :: c in queue ==> c == (a, b) || c in queue[1..];
    assert (a, b) in p2 by { assert queue[0] in p2; }
  }

  lemma ResolvedPair(p: Clauses, p2: Clauses, finished: Clauses, idle: Clauses, a: int, b: int, x: int, y: int, j: int)
    requires Symmetric(p2) && Symmetric(finished) && Symmetric(idle) && finished + idle <= p <= p2
    requires ResolvedSoFar(p2, finished, idle)
    requires forall k :: (Not(a), k) in p && k != Not(b) ==> (b, k) in p2
    requires forall k :: (Not(b), k) in p && k != Not(a) ==> (a, k) in p2
    requires (x, y) in With(finished, a, b) && ((Not(x), j) in With(finished, a, b) || (Not(x), j) in idle) && j != Not(y)
    ensures (y, j) in p2
  {
    if (x, y) in finished {
      if (Not(x), j) !in finished && (Not(x), j) !in idle {
        assert Not(Not(x)) == x && (Not(Not(x)), y) in p;
        assert (j, y) in p2;
      }
    }
  }

  lemma HeadFacts(inp: Parsed, p: Clauses, finished: Clauses, idle: Clauses, queue: seq<(int, int)>)
    requires inp.Valid() && Working(inp, p, finished, idle, queue) && |queue| > 0
    ensures var (a, b) := queue[0];
      IsLiteral(inp.n, a) && IsLiteral(inp.n, b) && Derivable(inp, Not(Not(a)), b) && Derivable(inp, Not(Not(b)), a)
    ensures finished + idle <= p
  {
    var (a, b) := queue[0];
    assert queue[0] in p && (b, a) in p;
  }

  /** Lines 116-145: the first clause of the queue is taken and resolved on both of its literals. */
  method ProcessClause(t: InvariantTable, ghost inp: Parsed, queue0: seq<(int, int)>, ghost finished0: Clauses, ghost idle: Clauses)
    returns (queue: seq<(int, int)>, ghost finished: Clauses)
    requires inp.Valid() && t.n == inp.n && t.Valid() && |queue0| > 0
    requires Working(inp, t.Pairs(), finished0, idle, queue0)
    modifies t.binary_invariants
    ensures Working(inp, t.Pairs(), finished, idle, queue) && old(t.Pairs()) <= t.Pairs()
    ensures (queue == queue0[1..] && t.Pairs() == old(t.Pairs())) || old(t.Pairs()) < t.Pairs()
  {
    hide Working, Derivable, InvariantTable.Pairs;
    ghost var p := t.Pairs();
    HeadFacts(inp, p, finished0, idle, queue0);
    var inv := queue0[0];
    var invA, invB := -inv.0 - 1, -inv.1 - 1;
    var q1 := ResolveOn(t, inp, invA, inv.1, queue0, finished0, idle);
    var q2 := ResolveOn(t, inp, invB, inv.0, q1, finished0, idle);
    queue := q2[1..];
    finished := With(finished0, inv.0, inv.1);
    ClauseFinished(inp, p, t.Pairs(), finished0, idle, q2, inv.0, inv.1);
  }

  /** Lines 157-163: invar is 0 when l excludes all values of v, -k-1 when it excludes all but k, 1 otherwise. */
  method CountOpen(t: InvariantTable, inp: Parsed, l: int, v: int) returns (invar: int)
    requires inp.Valid() && t.n == inp.n && t.Valid() && IsLiteral(t.n, l) && 0 <= v < |inp.firstIndex|
    ensures invar < 0 ==> AllButOne(inp, t.Pairs(), l, v, -invar - 1)
    ensures forall k :: AllButOne(inp, t.Pairs(), l, v, k) ==> invar == -k - 1
  {
    hide InvariantTable.Pairs;
    invar := 0;
    for i := inp.firstIndex[v] to inp.lastIndex[v] + 1
      invariant invar <= 0
      invariant invar == 0 ==> forall k :: inp.firstIndex[v] <= k < i ==> (l, Not(k)) in t.Pairs()
      invariant invar < 0 ==> inp.firstIndex[v] <= -invar - 1 < i && (l, invar) !in t.Pairs()
      invariant invar < 0 ==> forall k :: inp.firstIndex[v] <= k < i && k != -invar - 1 ==> (l, Not(k)) in t.Pairs()
    {
      var known := Contains(t, l, -i - 1);
      if !known {
        if invar == 0 {
          invar := -i - 1;
        } else {
          assert (l, Not(-invar - 1)) !in t.Pairs() && (l, Not(i)) !in t.Pairs();
          invar := 1;
          return;
        }
      }
    }
  }

  /** Lines 151-175: one literal against one variable. */
  method InferFromGroup(t: InvariantTable, inp: Parsed, l: int, v: int, queue0: seq<(int, int)>, ghost finished: Clauses, ghost idle: Clauses)
    returns (queue: seq<(int, int)>)
    requires inp.Valid() && t.n == inp.n && t.Valid() && IsLiteral(t.n, l) && 0 <= v < |inp.firstIndex|
    requires Working(inp, t.Pairs(), finished, idle, queue0)
    modifies t.binary_invariants
    ensures Working(inp, t.Pairs(), finished, idle, queue) && old(t.Pairs()) <= t.Pairs() && queue0 <= queue
    ensures (queue == queue0 && t.Pairs() == old(t.Pairs()) && GroupOk(inp, t.Pairs(), l, v)) || (old(t.Pairs()) < t.Pairs() && queue0 < queue)
  {
    hide InvariantTable.Pairs, Working, Derivable;
    queue := queue0;
    if inp.firstIndex[v] == inp.lastIndex[v] { return; }
    var pred := if l < 0 then -l - 1 else l;
    if inp.firstIndex[v] <= pred <= inp.lastIndex[v] { return; }
    var invar := CountOpen(t, inp, l, v);
    if invar < 0 {
      var known := Contains(t, l, -invar - 1);
      if !known {
        GroupClause(inp, t.Pairs(), finished, idle, queue0, l, v, -invar - 1);
        t.Insert(-invar - 1, l);
        queue := queue + [(-invar - 1, l)];
      }
    }
  }

  lemma GroupClause(inp: Parsed, p: Clauses, finished: Clauses, idle: Clauses, queue: seq<(int, int)>, l: int, v: int, k: int)
    requires inp.Valid() && IsLiteral(inp.n, l) && 0 <= v < |inp.firstIndex| && inp.firstIndex[v] != inp.lastIndex[v]
    requires !(inp.firstIndex[v] <= Bit(l) <= inp.lastIndex[v])
    requires Working(inp, p, finished, idle, queue) && AllButOne(inp, p, l, v, k)
    ensures Working(inp, With(p, k, l), finished, idle, queue + [(k, l)])
  {
    GroupDerivable(inp, p, l, v, k);
    Enqueue(inp, p, finished, idle, queue, k, l);
  }

  /** Lines 148-176: every literal against every variable. Nothing is queued exactly when the set is closed. */
  method GroupPass(t: InvariantTable, inp: Parsed, ghost finished: Clauses, ghost idle: Clauses) returns (queue: seq<(int, int)>)
    requires inp.Valid() && t.n == inp.n && t.Valid()
    requires Working(inp, t.Pairs(), finished, idle, [])
    modifies t.binary_invariants
    ensures Working(inp, t.Pairs(), finished, idle, queue) && old(t.Pairs()) <= t.Pairs()
    ensures (queue == [] && t.Pairs() == old(t.Pairs()) && GroupClosed(inp, t.Pairs())) || (queue != [] && old(t.Pairs()) < t.Pairs())
  {
    hide InvariantTable.Pairs, Working, Derivable, GroupOk;
    queue := [];
    ghost var p := t.Pairs();
    for iAccess := 0 to 2 * t.n
      invariant t.Valid() && Working(inp, t.Pairs(), finished, idle, queue)
      invariant (queue == [] && t.Pairs() == p) || (queue != [] && p < t.Pairs())
      invariant queue == [] ==> forall l, v {:trigger GroupOk(inp, p, l, v)} :: 0 <= l + t.n < iAccess && 0 <= v < |inp.firstIndex| ==> GroupOk(inp, p, l, v)
    {
      for var_ := 0 to |inp.firstIndex|
        invariant t.Valid() && Working(inp, t.Pairs(), finished, idle, queue)
        invariant (queue == [] && t.Pairs() == p) || (queue != [] && p < t.Pairs())
        invariant queue == [] ==> forall l, v {:trigger GroupOk(inp, p, l, v)} :: 0 <= l + t.n < iAccess && 0 <= v < |inp.firstIndex| ==> GroupOk(inp, p, l, v)
        invariant queue == [] ==> forall v {:trigger GroupOk(inp, p, iAccess - t.n, v)} :: 0 <= v < var_ ==> GroupOk(inp, p, iAccess - t.n, v)
      {
        queue := InferFromGroup(t, inp, iAccess - t.n, var_, queue, finished, idle);
      }
    }
  }

  lemma InUniverse(inp: Parsed, p: Clauses, finished: Clauses, idle: Clauses, queue: seq<(int, int)>)
    requires inp.Valid() && Working(inp, p, finished, idle, queue)
    ensures p <= Universe(inp.n) && Sound(inp, p) && Symmetric(p)
  {
    var u := Universe(inp.n);
    forall a, b | (a, b) in p ensures (a, b) in u {
      assert IsLiteral(inp.n, a) && IsLiteral(inp.n, b);
    }
    PairsWithin(p, u);
  }

  /** Lines 54-176: the clauses of the input, closed under resolution and the group rule, and nothing that does not follow by
      these rules. */
  method ExtractInvariants(inp: Parsed) returns (t: InvariantTable)
    requires inp.Valid()
    ensures t.n == inp.n && t.Valid() && fresh(t) && fresh(t.binary_invariants)
    ensures Symmetric(t.Pairs()) && AllStated(inp, t.Pairs()) && Saturated(t.Pairs()) && GroupClosed(inp, t.Pairs())
    ensures Sound(inp, t.Pairs()) && forall q :: RuleClosed(inp, q) ==> t.Pairs() <= q
    ensures forall a, b :: (a, b) in t.Pairs() ==> IsLiteral(inp.n, a) && IsLiteral(inp.n, b) && Entailed(inp, a, b)
  {
    hide InvariantTable.Pairs, Working, Sound, AllStated, Saturated, GroupClosed, Symmetric, RuleClosed, Entailed;
    t := ExtractStated(inp);
    ghost var stated := t.Pairs();
    var queue, idle := InitialQueue(t, inp);
    ghost var finished: Clauses := {};
    ghost var closed := false;
    if queue == [] { NoGroups(inp, t.Pairs()); }
    while |queue| > 0
      invariant t.Valid() && Working(inp, t.Pairs(), finished, idle, queue) && stated <= t.Pairs()
      invariant queue == [] ==> GroupClosed(inp, t.Pairs())
      decreases Universe(inp.n) - t.Pairs(), |queue|
    {
      ghost var p := t.Pairs();
      ghost var pending := queue;
      while |queue| > 0
        invariant t.Valid() && Working(inp, t.Pairs(), finished, idle, queue)
        invariant p < t.Pairs() || (p == t.Pairs() && |queue| < |pending|) || (p == t.Pairs() && queue == pending)
        decreases Universe(inp.n) - t.Pairs(), |queue|
      {
        ghost var before := t.Pairs();
        queue, finished := ProcessClause(t, inp, queue, finished, idle);
        InUniverse(inp, t.Pairs(), finished, idle, queue);
      }
      queue := GroupPass(t, inp, finished, idle);
      InUniverse(inp, t.Pairs(), finished, idle, queue);
    }
    AllFinished(inp, t.Pairs(), finished, idle);
    InUniverse(inp, t.Pairs(), finished, idle, []);
    StatedGrows(inp, stated, t.Pairs());
    OnlyDerived(inp, t.Pairs());
  }

  lemma OnlyDerived(inp: Parsed, p: Clauses)
    requires inp.Valid() && Sound(inp, p)
    ensures forall q :: RuleClosed(inp, q) ==> p <= q
    ensures forall a, b :: (a, b) in p ==> IsLiteral(inp.n, a) && IsLiteral(inp.n, b) && Entailed(inp, a, b)
  {
    hide RuleClosed, Entailed;
    forall q | RuleClosed(inp, q) ensures p <= q { PairsWithin(p, q); }
    forall a, b | (a, b) in p ensures IsLiteral(inp.n, a) && IsLiteral(inp.n, b) && Entailed(inp, a, b) { DerivableIsEntailed(inp, a, b); }
  }

  lemma StatedGrows(inp: Parsed, p: Clauses, q: Clauses)
    requires inp.Valid() && AllStated(inp, p) && p <= q
    ensures AllStated(inp, q)
  {
  }

  /** Without a clause over two facts there is no variable with two values. */
  lemma NoGroups(inp: Parsed, p: Clauses)
    requires inp.Valid() && AllStated(inp, p) && forall a, b :: (a, b) in p ==> Bit(a) == Bit(b)
    ensures GroupClosed(inp, p)
  {
    forall v | 0 <= v < |inp.firstIndex| ensures inp.firstIndex[v] == inp.lastIndex[v] {
      if inp.firstIndex[v] != inp.lastIndex[v] {
        var values := inp.Values(v);
        assert Excludes(values, Not(values[0]), Not(values[1]));
        assert Stated(inp, Not(values[0]), Not(values[1]));
      }
    }
  }

  /** Literals that are refused together hold together in no state the input allows. */
  lemma RefusalJustified(inp: Parsed, p: Clauses, a: int, b: int, s: State)
    requires inp.Valid() && Sound(inp, p) && IsLiteral(inp.n, a) && IsLiteral(inp.n, b)
    requires a == Not(b) || (Not(a), Not(b)) in p
    requires inp.Allows(s)
    ensures !(Holds(s, a) && Holds(s, b))
  {
    if a != Not(b) {
      DerivableIsEntailed(inp, Not(a), Not(b));
      assert Satisfies(s, (Not(a), Not(b)));
    }
  }
}
