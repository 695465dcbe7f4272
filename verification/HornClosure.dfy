/** Least models of rules "all of pre gives all of add": the counter-based worklist of groundedPg and groundedTdg
    (groundedGPG.cpp:13-134, 136-237) and the repeated sweep of the naive grounder (naiveGrounding.cpp:178-197). */
module HornClosure {

  datatype Rule = Rule(pre: seq<nat>, add: seq<nat>)

  ghost predicate Valid(rules: seq<Rule>, n: nat) {
    forall r :: 0 <= r < |rules| ==> Bounded(rules[r].pre, n) && Bounded(rules[r].add, n)
  }

  ghost predicate Bounded(s: seq<nat>, n: nat) {
    forall i :: 0 <= i < |s| ==> s[i] < n
  }

  ghost predicate AllIn(s: seq<nat>, x: set<nat>) {
    forall i :: 0 <= i < |s| ==> s[i] in x
  }

  /** x holds the given items and what the active rules derive from x. */
  ghost predicate Closed(rules: seq<Rule>, active: seq<bool>, given: set<nat>, x: set<nat>)
    requires |active| == |rules|
  {
    given <= x && forall r :: 0 <= r < |rules| && active[r] && AllIn(rules[r].pre, x) ==> AllIn(rules[r].add, x)
  }

  ghost predicate Least(rules: seq<Rule>, active: seq<bool>, given: set<nat>, x: set<nat>)
    requires |active| == |rules|
  {
    Closed(rules, active, given, x) && Below(rules, active, given, x)
  }

  /** x is contained in every closed set. */
  ghost predicate Below(rules: seq<Rule>, active: seq<bool>, given: set<nat>, x: set<nat>)
    requires |active| == |rules|
  {
    forall y {:trigger Closed(rules, active, given, y)} :: Closed(rules, active, given, y) ==> x <= y
  }

  lemma LeastUnique(rules: seq<Rule>, active: seq<bool>, given: set<nat>, x: set<nat>, y: set<nat>)
    requires |active| == |rules| && Least(rules, active, given, x) && Least(rules, active, given, y)
    ensures x == y
  {
  }

  /** Firing one rule stays below every closed set. */
  lemma FireBelow(rules: seq<Rule>, active: seq<bool>, given: set<nat>, x: set<nat>, r: nat, z: set<nat>)
    requires |active| == |rules| && Below(rules, active, given, x)
    requires r < |rules| && active[r] && AllIn(rules[r].pre, x)
    requires forall i :: i in z ==> i in x || i in rules[r].add
    ensures Below(rules, active, given, z)
  {
    forall y | Closed(rules, active, given, y) ensures z <= y {
      assert AllIn(rules[r].pre, y);
    }
  }

  lemma GivenBelow(rules: seq<Rule>, active: seq<bool>, given: set<nat>, x: set<nat>, z: set<nat>)
    requires |active| == |rules| && Below(rules, active, given, x) && z <= x + given
    ensures Below(rules, active, given, z)
  {
  }

  // ----- the sweep (naiveGrounding.cpp:171-197) -----

  /** Rules marked in fired have their additions in x; the others have not been found applicable. */
  ghost predicate Swept(rules: seq<Rule>, fired: seq<bool>, x: set<nat>)
    requires |fired| == |rules|
  {
    forall r :: 0 <= r < |rules| && fired[r] ==> AllIn(rules[r].add, x)
  }

  method AddAll(add: seq<nat>, x0: set<nat>) returns (x: set<nat>, changed: bool)
    ensures forall i :: i in x <==> i in x0 || i in add
    ensures AllIn(add, x) && x0 <= x
    ensures changed <==> x != x0
  {
    x, changed := x0, false;
    for k := 0 to |add|
      invariant forall i :: i in x <==> i in x0 || i in add[..k]
      invariant changed <==> x != x0
    {
      assert add[..k + 1] == add[..k] + [add[k]];
      if add[k] !in x {
        x := x + {add[k]};
        changed := true;
      }
    }
    assert add[..|add|] == add;
  }

  method AllPresent(pre: seq<nat>, x: set<nat>) returns (all: bool)
    ensures all <==> AllIn(pre, x)
  {
    all := true;
    for k := 0 to |pre|
      invariant all <==> forall i :: 0 <= i < k ==> pre[i] in x
    {
      all := all && pre[k] in x;
    }
  }

  lemma Counted(x: set<nat>, n: nat)
    requires forall i :: i in x ==> i < n
    ensures |x| <= n
  {
    if n > 0 {
      var y := x - {n - 1};
      Counted(y, n - 1);
      assert n - 1 in x ==> |x| == |y| + 1;
      assert n - 1 !in x ==> x == y;
    } else {
      assert x == {};
    }
  }

  lemma FewerThan(x: set<nat>, y: set<nat>)
    requires x < y
    ensures |x| < |y|
  {
    var d := y - x;
    assert y == x + d && x * d == {};
    var i :| i in y && i !in x;
    assert i in d;
  }

  /** Over all rules again and again, until a sweep adds nothing. */
  method NaiveSweep(rules: seq<Rule>, given: set<nat>, n: nat) returns (state: set<nat>, appli: array<bool>)
    requires Valid(rules, n) && forall i :: i in given ==> i < n
    ensures Least(rules, seq(|rules|, _ => true), given, state)
    ensures appli.Length == |rules| && forall r :: 0 <= r < |rules| ==> (appli[r] <==> AllIn(rules[r].pre, state))
  {
    hide Closed, Below;
    ghost var active := seq(|rules|, _ => true);
    state := given;
    appli := new bool[|rules|](_ => false);
    NothingDerived(rules, active, given);
    var changed := true;
    while changed
      invariant fresh(appli) && appli.Length == |rules|
      invariant Within(state, n) && given <= state && Below(rules, active, given, state)
      invariant Swept(rules, appli[..], state) && Sound(rules, appli[..], state)
      invariant !changed ==> Finished(rules, |rules|, appli[..], state)
      decreases n - |state|, changed
    {
      var before := state;
      state, changed := OneSweep(rules, active, given, n, state, appli);
      Counted(before, n);
      Counted(state, n);
      if state != before { FewerThan(before, state); }
    }
    SweepDone(rules, active, given, state, appli[..]);
  }

  ghost predicate Within(x: set<nat>, n: nat) {
    forall i :: i in x ==> i < n
  }

  ghost predicate Sound(rules: seq<Rule>, fired: seq<bool>, x: set<nat>)
    requires |fired| == |rules|
  {
    forall r :: 0 <= r < |rules| && fired[r] ==> AllIn(rules[r].pre, x)
  }

  /** Among the first k rules the applicable ones have fired. */
  ghost predicate Finished(rules: seq<Rule>, k: nat, fired: seq<bool>, x: set<nat>)
    requires k <= |rules| == |fired|
  {
    forall r :: 0 <= r < k && AllIn(rules[r].pre, x) ==> fired[r]
  }

  lemma NothingDerived(rules: seq<Rule>, active: seq<bool>, given: set<nat>)
    requires |active| == |rules|
    ensures Below(rules, active, given, given) && Below(rules, active, given, {})
  {
  }

  lemma SweepDone(rules: seq<Rule>, active: seq<bool>, given: set<nat>, x: set<nat>, fired: seq<bool>)
    requires |active| == |rules| == |fired| && given <= x && Below(rules, active, given, x)
    requires Swept(rules, fired, x) && Finished(rules, |rules|, fired, x)
    ensures Least(rules, active, given, x)
  {
  }

  lemma FiredMore(rules: seq<Rule>, fired: seq<bool>, x: set<nat>, gt: nat, z: set<nat>)
    requires |fired| == |rules| && gt < |rules| && x <= z && Swept(rules, fired, x) && Sound(rules, fired, x)
    requires AllIn(rules[gt].pre, x) && AllIn(rules[gt].add, z)
    ensures Swept(rules, fired[gt := true], z) && Sound(rules, fired[gt := true], z)
  {
  }

  method OneSweep(rules: seq<Rule>, ghost active: seq<bool>, ghost given: set<nat>, n: nat, state0: set<nat>, appli: array<bool>)
    returns (state: set<nat>, changed: bool)
    requires Valid(rules, n) && appli.Length == |rules| == |active| && forall r :: 0 <= r < |active| ==> active[r]
    requires Within(state0, n) && given <= state0 && Below(rules, active, given, state0)
    requires Swept(rules, appli[..], state0) && Sound(rules, appli[..], state0)
    modifies appli
    ensures Within(state, n) && state0 <= state && Below(rules, active, given, state)
    ensures Swept(rules, appli[..], state) && Sound(rules, appli[..], state)
    ensures changed <==> state != state0
    ensures !changed ==> Finished(rules, |rules|, appli[..], state)
  {
    hide Closed, Below, Swept, Sound, Finished, AllIn;
    state, changed := state0, false;
    NoneFinished(rules, appli[..], state);
    for gt := 0 to |rules|
      invariant Within(state, n) && state0 <= state && Below(rules, active, given, state)
      invariant Swept(rules, appli[..], state) && Sound(rules, appli[..], state)
      invariant changed <==> state != state0
      invariant !changed ==> Finished(rules, gt, appli[..], state)
    {
      ghost var fired := appli[..];
      if appli[gt] {
        FinishedNext(rules, gt, fired, state);
        continue;
      }
      var all := AllPresent(rules[gt].pre, state);
      if !all {
        FinishedNext(rules, gt, fired, state);
        continue;
      }
      appli[gt] := true;
      assert appli[..] == fired[gt := true];
      var before, more := state, false;
      state, more := AddAll(rules[gt].add, state);
      changed := changed || more;
      FireBelow(rules, active, given, before, gt, state);
      FiredMore(rules, fired, before, gt, state);
      AddedWithin(rules, n, gt, before, state);
      if !changed {
        FinishedFired(rules, gt, fired, state);
      }
    }
  }

  lemma NoneFinished(rules: seq<Rule>, fired: seq<bool>, x: set<nat>)
    requires |fired| == |rules|
    ensures Finished(rules, 0, fired, x)
  {
  }

  lemma FinishedNext(rules: seq<Rule>, k: nat, fired: seq<bool>, x: set<nat>)
    requires k < |rules| == |fired| && (fired[k] || !AllIn(rules[k].pre, x))
    ensures Finished(rules, k, fired, x) ==> Finished(rules, k + 1, fired, x)
  {
  }

  lemma FinishedFired(rules: seq<Rule>, k: nat, fired: seq<bool>, x: set<nat>)
    requires k < |rules| == |fired| && Finished(rules, k, fired, x)
    ensures Finished(rules, k + 1, fired[k := true], x)
  {
  }

  lemma AddedWithin(rules: seq<Rule>, n: nat, r: nat, x: set<nat>, z: set<nat>)
    requires Valid(rules, n) && r < |rules| && Within(x, n) && forall i :: i in z ==> i in x || i in rules[r].add
    ensures Within(z, n)
  {
  }

  // ----- the worklist -----

  /** Number of positions of pre whose item is not in done. */
  ghost function Missing(pre: seq<nat>, done: set<nat>): nat {
    if pre == [] then 0 else Missing(pre[..|pre| - 1], done) + (if pre[|pre| - 1] in done then 0 else 1)
  }

  /** Number of occurrences. */
  ghost function Count(s: seq<nat>, i: nat): nat {
    if s == [] then 0 else Count(s[..|s| - 1], i) + (if s[|s| - 1] == i then 1 else 0)
  }

  lemma {:induction false} MissingLess(pre: seq<nat>, done: set<nat>, f: nat)
    requires f !in done
    ensures Missing(pre, done) == Missing(pre, done + {f}) + Count(pre, f)
  {
    if pre != [] { MissingLess(pre[..|pre| - 1], done, f); }
  }

  lemma {:induction false} MissingNone(pre: seq<nat>, done: set<nat>)
    ensures Missing(pre, done) == 0 <==> AllIn(pre, done)
  {
    if pre != [] {
      MissingNone(pre[..|pre| - 1], done);
      assert pre == pre[..|pre| - 1] + [pre[|pre| - 1]];
    }
  }

  lemma {:induction false} MissingAll(pre: seq<nat>)
    ensures Missing(pre, {}) == |pre|
  {
    if pre != [] { MissingAll(pre[..|pre| - 1]); }
  }

  lemma CountSnoc(s: seq<nat>, x: nat, i: nat)
    ensures Count(s + [x], i) == Count(s, i) + (if x == i then 1 else 0)
  {
    assert (s + [x])[..|s|] == s;
  }

  /** The list holds every member of x once. */
  ghost predicate Lists(queue: seq<nat>, x: set<nat>) {
    && (forall i :: 0 <= i < |queue| ==> queue[i] in x)
    && (forall i, j :: 0 <= i < j < |queue| ==> queue[i] != queue[j])
    && (forall f :: f in x ==> f in queue)
  }

  lemma PushBack(queue: seq<nat>, x: set<nat>, f: nat)
    requires Lists(queue, x) && f !in x
    ensures Lists(queue + [f], x + {f})
  {
    assert (queue + [f])[|queue|] == f;
    assert forall g :: g in queue ==> g in queue + [f];
  }

  lemma PopFront(queue: seq<nat>, x: set<nat>)
    requires Lists(queue, x) && |queue| > 0
    ensures Lists(queue[1..], x - {queue[0]}) && queue[0] in x
  {
    forall f | f in x - {queue[0]} ensures f in queue[1..] {
      var i :| 0 <= i < |queue| && queue[i] == f;
      assert queue[1..][i - 1] == f;
    }
  }

  ghost function Share(rules: seq<Rule>, active: seq<bool>, i: nat, r: nat): nat
    requires r < |rules| == |active|
  {
    if active[r] then Count(rules[r].pre, i) else 0
  }

  lemma {:induction false} CountPrefix(s: seq<nat>, j: nat)
    requires j < |s|
    ensures Count(s[..j], s[j]) + 1 == Count(s[..j + 1], s[j]) <= Count(s, s[j])
    decreases |s|
  {
    assert s[..j + 1][..j] == s[..j];
    if j + 1 < |s| {
      CountPrefix(s[..|s| - 1], j);
      assert s[..|s| - 1][..j] == s[..j] && s[..|s| - 1][..j + 1] == s[..j + 1];
    } else {
      assert s[..j + 1] == s;
    }
  }

  // ----- the sets of reached and waiting items -----

  ghost predicate Front(reached: seq<bool>, queue: seq<nat>, done: set<nat>, waiting: set<nat>) {
    && (forall i: nat :: i < |reached| ==> (reached[i] <==> i in done || i in waiting))
    && (forall i :: i in done || i in waiting ==> i < |reached|)
    && done !! waiting && Lists(queue, waiting)
  }

  /** An item is queued when it is reached for the first time. */
  method ReachItem(reached: array<bool>, queue0: seq<nat>, f: nat, ghost done: set<nat>, ghost waiting0: set<nat>, count0: nat)
    returns (queue: seq<nat>, ghost waiting: set<nat>, count: nat)
    requires f < reached.Length && Front(reached[..], queue0, done, waiting0) && count0 == |done + waiting0|
    modifies reached
    ensures Front(reached[..], queue, done, waiting) && count == |done + waiting|
    ensures waiting == if f in done then waiting0 else waiting0 + {f}
  {
    queue, waiting, count := queue0, waiting0, count0;
    if !reached[f] {
      PushBack(queue, waiting, f);
      queue := queue + [f];
      waiting := waiting + {f};
      reached[f] := true;
      count := count + 1;
      assert done + waiting == done + waiting0 + {f};
    } else {
      assert f in done || waiting0 + {f} == waiting0;
    }
  }

  method ReachAll(reached: array<bool>, queue0: seq<nat>, add: seq<nat>, ghost done: set<nat>, ghost waiting0: set<nat>, count0: nat)
    returns (queue: seq<nat>, ghost waiting: set<nat>, count: nat)
    requires Bounded(add, reached.Length) && Front(reached[..], queue0, done, waiting0) && count0 == |done + waiting0|
    modifies reached
    ensures Front(reached[..], queue, done, waiting) && count == |done + waiting| && waiting0 <= waiting
    ensures forall i :: i in done + waiting <==> i in done + waiting0 || i in add
  {
    hide Front;
    queue, waiting, count := queue0, waiting0, count0;
    for k := 0 to |add|
      invariant Front(reached[..], queue, done, waiting) && count == |done + waiting| && waiting0 <= waiting
      invariant forall i :: i in done + waiting <==> i in done + waiting0 || i in add[..k]
    {
      assert add[..k + 1] == add[..k] + [add[k]];
      queue, waiting, count := ReachItem(reached, queue, add[k], done, waiting, count);
    }
    assert add[..|add|] == add;
  }

  // ----- the counters -----

  /** While item f is being processed, j entries of its list have been handled. */
  ghost predicate Counters(rules: seq<Rule>, active: seq<bool>, unfulfilled: seq<nat>, done: set<nat>, list: seq<nat>) {
    && |unfulfilled| == |active| == |rules|
    && forall r: nat :: r < |rules| ==> unfulfilled[r] + Count(list, r) == if active[r] then Missing(rules[r].pre, done) else 0
  }

  ghost predicate Fired(rules: seq<Rule>, active: seq<bool>, unfulfilled: seq<nat>, x: set<nat>) {
    && |unfulfilled| == |active| == |rules|
    && forall r :: 0 <= r < |rules| && active[r] && unfulfilled[r] == 0 ==> AllIn(rules[r].add, x)
  }

  ghost function Upto(k: nat): (s: set<nat>)
    ensures forall i: nat :: i in s <==> i < k
  {
    if k == 0 then {} else Upto(k - 1) + {k - 1}
  }

  /** The active rules whose preconditions are all processed. */
  ghost function Ready(active: seq<bool>, unfulfilled: seq<nat>): (s: set<nat>)
    requires |active| == |unfulfilled|
    ensures forall r: nat :: r in s <==> r < |active| && active[r] && unfulfilled[r] == 0
  {
    set r: nat | r in Upto(|active|) && active[r] && unfulfilled[r] == 0
  }

  lemma CountersNext(rules: seq<Rule>, active: seq<bool>, unfulfilled: seq<nat>, done: set<nat>, list: seq<nat>, j: nat, f: nat)
    requires j < |list| && list[j] < |rules| && f !in done && Counters(rules, active, unfulfilled, done, list[..j])
    requires forall r: nat :: r < |rules| ==> Count(list, r) == Share(rules, active, f, r)
    ensures var r := list[j];
      && active[r] && unfulfilled[r] > 0
      && Counters(rules, active, unfulfilled[r := unfulfilled[r] - 1], done, list[..j + 1])
      && (unfulfilled[r] == 1 ==> AllIn(rules[r].pre, done + {f}))
  {
    var r := list[j];
    hide Missing, Count, AllIn;
    CountPrefix(list, j);
    assert Count(list, r) == Share(rules, active, f, r);
    assert Count(list[..j], r) >= 0;
    assert active[r];
    MissingLess(rules[r].pre, done, f);
    MissingNone(rules[r].pre, done + {f});
    CountsNext(list, j);
  }

  lemma CountsNext(list: seq<nat>, j: nat)
    requires j < |list|
    ensures forall q :: Count(list[..j + 1], q) == Count(list[..j], q) + (if q == list[j] then 1 else 0)
  {
    assert list[..j + 1] == list[..j] + [list[j]];
    forall q ensures Count(list[..j + 1], q) == Count(list[..j], q) + (if q == list[j] then 1 else 0) {
      CountSnoc(list[..j], list[j], q);
    }
  }

  lemma CountersDone(rules: seq<Rule>, active: seq<bool>, unfulfilled: seq<nat>, done: set<nat>, list: seq<nat>, f: nat)
    requires Counters(rules, active, unfulfilled, done, list) && f !in done
    requires forall r: nat :: r < |rules| ==> Count(list, r) == Share(rules, active, f, r)
    ensures Counters(rules, active, unfulfilled, done + {f}, [])
  {
    forall r: nat | r < |rules| ensures unfulfilled[r] + Count([], r) == if active[r] then Missing(rules[r].pre, done + {f}) else 0 {
      assert Count(list, r) == Share(rules, active, f, r);
      MissingLess(rules[r].pre, done, f);
    }
  }

  /** What a decremented counter means for fired rules and the tally. */
  lemma Decremented(rules: seq<Rule>, active: seq<bool>, unfulfilled: seq<nat>, r: nat, x: set<nat>, z: set<nat>)
    requires Fired(rules, active, unfulfilled, x) && r < |rules| && active[r] && unfulfilled[r] > 0 && x <= z
    requires unfulfilled[r] == 1 ==> AllIn(rules[r].add, z)
    ensures Fired(rules, active, unfulfilled[r := unfulfilled[r] - 1], z)
    ensures |Ready(active, unfulfilled[r := unfulfilled[r] - 1])| == |Ready(active, unfulfilled)| + (if unfulfilled[r] == 1 then 1 else 0)
  {
    var after := unfulfilled[r := unfulfilled[r] - 1];
    if unfulfilled[r] == 1 {
      assert Ready(active, after) == Ready(active, unfulfilled) + {r};
    } else {
      assert Ready(active, after) == Ready(active, unfulfilled);
    }
  }

  /** Everything the loops maintain besides the counters. */
  ghost predicate Working(rules: seq<Rule>, active: seq<bool>, given: set<nat>, unfulfilled: seq<nat>, reached: seq<bool>,
                          queue: seq<nat>, done: set<nat>, waiting: set<nat>, processed: set<nat>)
    requires |active| == |rules|
  {
    && Front(reached, queue, done, waiting) && processed <= done
    && Below(rules, active, given, done + waiting)
    && Fired(rules, active, unfulfilled, done + waiting)
  }

  /** The body of the main loop (groundedGPG.cpp:95-118, 195-218): item f leaves the queue and is taken off every
      counter in whose rule it occurs. */
  method ProcessItem(rules: seq<Rule>, active: seq<bool>, ghost given: set<nat>, list: seq<nat>, f: nat, reached: array<bool>, unfulfilled: array<nat>,
                     queue0: seq<nat>, ghost done: set<nat>, ghost waiting0: set<nat>, count0: nat, fired0: nat)
    returns (queue: seq<nat>, ghost waiting: set<nat>, count: nat, fired: nat)
    requires Valid(rules, reached.Length) && |active| == |rules| == unfulfilled.Length
    requires f !in done && Working(rules, active, given, unfulfilled[..], reached[..], queue0, done + {f}, waiting0, done)
    requires Counters(rules, active, unfulfilled[..], done, [])
    requires (forall j :: 0 <= j < |list| ==> list[j] < |rules|) && forall r: nat :: r < |rules| ==> Count(list, r) == Share(rules, active, f, r)
    requires count0 == |done + {f} + waiting0| && fired0 == |Ready(active, unfulfilled[..])|
    modifies reached, unfulfilled
    ensures Working(rules, active, given, unfulfilled[..], reached[..], queue, done + {f}, waiting, done + {f})
    ensures Counters(rules, active, unfulfilled[..], done + {f}, []) && waiting0 <= waiting
    ensures count == |done + {f} + waiting| && fired == |Ready(active, unfulfilled[..])|
  {
    hide Front, Below, Fired, Counters, Missing, Count, Share, Ready, Valid, AllIn;
    queue, waiting, count, fired := queue0, waiting0, count0, fired0;
    assert list[..0] == [];
    for j := 0 to |list|
      invariant Working(rules, active, given, unfulfilled[..], reached[..], queue, done + {f}, waiting, done)
      invariant Counters(rules, active, unfulfilled[..], done, list[..j]) && waiting0 <= waiting
      invariant count == |done + {f} + waiting| && fired == |Ready(active, unfulfilled[..])|
    {
      var r := list[j];
      ghost var x, before := done + {f} + waiting, unfulfilled[..];
      CountersNext(rules, active, before, done, list, j, f);
      unfulfilled[r] := unfulfilled[r] - 1;
      assert unfulfilled[..] == before[r := before[r] - 1];
      if unfulfilled[r] == 0 {
        fired := fired + 1;
        AddBounded(rules, r, reached.Length);
        queue, waiting, count := ReachAll(reached, queue, rules[r].add, done + {f}, waiting, count);
        AllInMore(rules[r].pre, done + {f}, x);
        FireBelow(rules, active, given, x, r, done + {f} + waiting);
        AllInBy(rules[r].add, done + {f} + waiting);
      }
      Decremented(rules, active, before, r, x, done + {f} + waiting);
    }
    assert list[..|list|] == list;
    CountersDone(rules, active, unfulfilled[..], done, list, f);
  }

  lemma AddBounded(rules: seq<Rule>, r: nat, n: nat)
    requires Valid(rules, n) && r < |rules|
    ensures Bounded(rules[r].add, n)
  {
  }

  lemma AllInMore(s: seq<nat>, x: set<nat>, z: set<nat>)
    requires AllIn(s, x) && x <= z
    ensures AllIn(s, z)
  {
  }

  lemma AllInBy(s: seq<nat>, x: set<nat>)
    requires forall i :: i in s ==> i in x
    ensures AllIn(s, x)
  {
  }

  /** Lines 30-52 and 149-169: the counters start at the number of preconditions; rules without any fire at once. */
  method Initialise(rules: seq<Rule>, active: seq<bool>, n: nat, ghost given: set<nat>)
    returns (reached: array<bool>, unfulfilled: array<nat>, queue: seq<nat>, ghost waiting: set<nat>, count: nat, fired: nat)
    requires Valid(rules, n) && |active| == |rules|
    ensures fresh(reached) && fresh(unfulfilled) && reached.Length == n && unfulfilled.Length == |rules|
    ensures Working(rules, active, given, unfulfilled[..], reached[..], queue, {}, waiting, {})
    ensures Counters(rules, active, unfulfilled[..], {}, [])
    ensures count == |waiting| && fired == |Ready(active, unfulfilled[..])|
  {
    hide Below, Missing, Count, Valid, AllIn, Ready, Counters, Front, StartedUpTo, ReadyUpTo;
    reached := new bool[n](_ => false);
    unfulfilled := new nat[|rules|](_ => 0);
    queue, waiting, count, fired := [], {}, 0, 0;
    NothingDerived(rules, active, given);
    NothingStarted(rules, active, unfulfilled[..], reached[..]);
    for r := 0 to |rules|
      invariant fresh(reached) && fresh(unfulfilled)
      invariant Front(reached[..], queue, {}, waiting) && Below(rules, active, given, waiting)
      invariant count == |waiting| && fired == |ReadyUpTo(active, unfulfilled[..], r)|
      invariant StartedUpTo(rules, active, unfulfilled[..], waiting, r)
    {
      ghost var before, x := unfulfilled[..], waiting;
      unfulfilled[r] := if active[r] then |rules[r].pre| else 0;
      if active[r] && unfulfilled[r] == 0 {
        fired := fired + 1;
        AddBounded(rules, r, n);
        queue, waiting, count := ReachAll(reached, queue, rules[r].add, {}, waiting, count);
        NoPreconditions(rules[r].pre, x);
        FireBelow(rules, active, given, x, r, waiting);
        AllInBy(rules[r].add, waiting);
      }
      ReadyNext(active, before, unfulfilled[..], r);
      StartedNext(rules, active, before, unfulfilled[..], x, waiting, r);
    }
    ReadyAll(active, unfulfilled[..]);
    StartCounters(rules, active, unfulfilled[..], waiting);
    assert {} + waiting == waiting;
  }

  /** The first k counters are set; their rules without preconditions have fired. */
  ghost predicate StartedUpTo(rules: seq<Rule>, active: seq<bool>, unfulfilled: seq<nat>, x: set<nat>, k: nat) {
    && |rules| == |active| == |unfulfilled| && k <= |rules|
    && forall q: nat :: q < k ==> unfulfilled[q] == (if active[q] then |rules[q].pre| else 0) && (active[q] && |rules[q].pre| == 0 ==> AllIn(rules[q].add, x))
  }

  lemma NothingStarted(rules: seq<Rule>, active: seq<bool>, unfulfilled: seq<nat>, reached: seq<bool>)
    requires |rules| == |active| == |unfulfilled| && forall i :: 0 <= i < |reached| ==> !reached[i]
    ensures StartedUpTo(rules, active, unfulfilled, {}, 0) && ReadyUpTo(active, unfulfilled, 0) == {} && Front(reached, [], {}, {})
  {
  }

  lemma StartedNext(rules: seq<Rule>, active: seq<bool>, before: seq<nat>, after: seq<nat>, x: set<nat>, z: set<nat>, k: nat)
    requires StartedUpTo(rules, active, before, x, k) && k < |rules| && |after| == |before| && x <= z
    requires forall q :: 0 <= q < k ==> before[q] == after[q]
    requires after[k] == (if active[k] then |rules[k].pre| else 0) && (active[k] && |rules[k].pre| == 0 ==> AllIn(rules[k].add, z))
    ensures StartedUpTo(rules, active, after, z, k + 1)
  {
  }

  lemma NoPreconditions(pre: seq<nat>, x: set<nat>)
    requires |pre| == 0
    ensures AllIn(pre, x)
  {
  }

  ghost function ReadyUpTo(active: seq<bool>, unfulfilled: seq<nat>, k: nat): (s: set<nat>)
    requires |active| == |unfulfilled| && k <= |active|
    ensures forall r: nat :: r in s <==> r < k && active[r] && unfulfilled[r] == 0
  {
    set r: nat | r in Upto(k) && active[r] && unfulfilled[r] == 0
  }

  lemma ReadyNext(active: seq<bool>, before: seq<nat>, after: seq<nat>, r: nat)
    requires |active| == |before| == |after| && r < |active| && forall q :: 0 <= q < r ==> before[q] == after[q]
    ensures |ReadyUpTo(active, after, r + 1)| == |ReadyUpTo(active, before, r)| + (if active[r] && after[r] == 0 then 1 else 0)
  {
    if active[r] && after[r] == 0 {
      assert ReadyUpTo(active, after, r + 1) == ReadyUpTo(active, before, r) + {r};
    } else {
      assert ReadyUpTo(active, after, r + 1) == ReadyUpTo(active, before, r);
    }
  }

  lemma ReadyAll(active: seq<bool>, unfulfilled: seq<nat>)
    requires |active| == |unfulfilled|
    ensures ReadyUpTo(active, unfulfilled, |active|) == Ready(active, unfulfilled)
  {
  }

  lemma StartCounters(rules: seq<Rule>, active: seq<bool>, unfulfilled: seq<nat>, x: set<nat>)
    requires StartedUpTo(rules, active, unfulfilled, x, |rules|)
    ensures Counters(rules, active, unfulfilled, {}, []) && Fired(rules, active, unfulfilled, x)
  {
    forall q: nat | q < |rules| ensures Missing(rules[q].pre, {}) == |rules[q].pre| { MissingAll(rules[q].pre); }
  }

  /** Lines 70-86 and 180-191: the lists of rules by precondition. */
  method BuildIndex(rules: seq<Rule>, active: seq<bool>, n: nat) returns (index: seq<seq<nat>>)
    requires Valid(rules, n) && |active| == |rules|
    ensures IndexedUpTo(rules, active, index, n, |rules|)
  {
    hide Valid, Count;
    index := seq(n, _ => []);
    NothingIndexed(rules, active, n);
    for r := 0 to |rules|
      invariant IndexedUpTo(rules, active, index, n, r)
    {
      if active[r] {
        PreBounded(rules, r, n);
        index := IndexRule(rules, active, index, n, r);
      } else {
        SkipRule(rules, active, index, n, r);
      }
    }
  }

  /** The lists hold the first k rules, those that are active, as often as they have the item as precondition. */
  ghost predicate IndexedUpTo(rules: seq<Rule>, active: seq<bool>, index: seq<seq<nat>>, n: nat, k: nat)
    requires |active| == |rules| && k <= |rules|
  {
    && |index| == n
    && (forall i, r :: 0 <= i < n && 0 <= r < k ==> Count(index[i], r) == Share(rules, active, i, r))
    && (forall i, j :: 0 <= i < n && 0 <= j < |index[i]| ==> index[i][j] < k)
  }

  lemma NothingIndexed(rules: seq<Rule>, active: seq<bool>, n: nat)
    requires |active| == |rules|
    ensures IndexedUpTo(rules, active, seq(n, _ => []), n, 0)
  {
  }

  lemma PreBounded(rules: seq<Rule>, r: nat, n: nat)
    requires Valid(rules, n) && r < |rules|
    ensures Bounded(rules[r].pre, n)
  {
  }

  lemma {:induction false} CountZero(s: seq<nat>, r: nat)
    requires forall j :: 0 <= j < |s| ==> s[j] < r
    ensures Count(s, r) == 0
  {
    if s != [] { CountZero(s[..|s| - 1], r); }
  }

  lemma SkipRule(rules: seq<Rule>, active: seq<bool>, index: seq<seq<nat>>, n: nat, r: nat)
    requires |active| == |rules| && r < |rules| && !active[r] && IndexedUpTo(rules, active, index, n, r)
    ensures IndexedUpTo(rules, active, index, n, r + 1)
  {
    forall i | 0 <= i < n ensures Count(index[i], r) == 0 { CountZero(index[i], r); }
  }

  method IndexRule(rules: seq<Rule>, active: seq<bool>, index0: seq<seq<nat>>, n: nat, r: nat) returns (index: seq<seq<nat>>)
    requires |active| == |rules| && r < |rules| && active[r] && Bounded(rules[r].pre, n) && IndexedUpTo(rules, active, index0, n, r)
    ensures IndexedUpTo(rules, active, index, n, r + 1)
  {
    hide Count;
    index := index0;
    var pre := rules[r].pre;
    RuleStart(index, n, r);
    for k := 0 to |pre|
      invariant |index| == n
      invariant forall i, q :: 0 <= i < n && 0 <= q < r ==> Count(index[i], q) == Share(rules, active, i, q)
      invariant forall i :: 0 <= i < n ==> Count(index[i], r) == Count(pre[..k], i)
      invariant forall i, j :: 0 <= i < n && 0 <= j < |index[i]| ==> index[i][j] <= r
    {
      assert pre[..k + 1] == pre[..k] + [pre[k]];
      forall i ensures Count(pre[..k + 1], i) == Count(pre[..k], i) + (if pre[k] == i then 1 else 0) { CountSnoc(pre[..k], pre[k], i); }
      forall q ensures Count(index[pre[k]] + [r], q) == Count(index[pre[k]], q) + (if q == r then 1 else 0) { CountSnoc(index[pre[k]], r, q); }
      index := index[pre[k] := index[pre[k]] + [r]];
    }
    assert pre[..|pre|] == pre;
  }

  lemma RuleStart(index: seq<seq<nat>>, n: nat, r: nat)
    requires |index| == n && forall i, j :: 0 <= i < n && 0 <= j < |index[i]| ==> index[i][j] < r
    ensures forall i :: 0 <= i < n ==> Count(index[i], r) == 0 == Count([], i)
  {
    forall i | 0 <= i < n ensures Count(index[i], r) == 0 { CountZero(index[i], r); }
  }

  ghost function Marked(b: seq<bool>): (s: set<nat>)
    ensures forall i: nat :: i in s <==> i < |b| && b[i]
  {
    set i: nat | i in Upto(|b|) && b[i]
  }

  ghost function Members(s: seq<nat>): (x: set<nat>)
    ensures forall i :: i in x <==> i in s
  {
    set i | i in s
  }

  ghost function Applicable(rules: seq<Rule>, active: seq<bool>, x: set<nat>): (s: set<nat>)
    requires |active| == |rules|
    ensures forall r: nat :: r in s <==> r < |rules| && active[r] && AllIn(rules[r].pre, x)
  {
    set r: nat | r in Upto(|rules|) && active[r] && AllIn(rules[r].pre, x)
  }

  lemma StartLoop(rules: seq<Rule>, active: seq<bool>, given: set<nat>, unfulfilled: seq<nat>, reached: seq<bool>,
                  queue: seq<nat>, waiting: set<nat>, add: seq<nat>, waiting2: set<nat>, reached2: seq<bool>, queue2: seq<nat>)
    requires |active| == |rules| && Working(rules, active, given, unfulfilled, reached, queue, {}, waiting, {})
    requires Front(reached2, queue2, {}, waiting2) && given == Members(add) && waiting <= waiting2
    requires forall i :: i in {} + waiting2 <==> i in {} + waiting || i in add
    ensures Working(rules, active, given, unfulfilled, reached2, queue2, {}, waiting2, {}) && given <= waiting2
  {
    assert {} + waiting == waiting && {} + waiting2 == waiting2;
    hide Front, Closed;
    GivenBelow(rules, active, given, waiting, waiting2);
    forall r | 0 <= r < |rules| && active[r] && unfulfilled[r] == 0 ensures AllIn(rules[r].add, waiting2) {
      AllInMore(rules[r].add, waiting, waiting2);
    }
  }

  lemma TakeFirst(rules: seq<Rule>, active: seq<bool>, given: set<nat>, unfulfilled: seq<nat>, reached: seq<bool>,
                  queue: seq<nat>, done: set<nat>, waiting: set<nat>)
    requires |active| == |rules| && |queue| > 0 && Working(rules, active, given, unfulfilled, reached, queue, done, waiting, done)
    ensures var f := queue[0];
      && f < |reached| && f in waiting && f !in done
      && done + {f} + (waiting - {f}) == done + waiting
      && Working(rules, active, given, unfulfilled, reached, queue[1..], done + {f}, waiting - {f}, done)
  {
    PopFront(queue, waiting);
    assert done + {queue[0]} + (waiting - {queue[0]}) == done + waiting;
  }

  lemma IndexRow(rules: seq<Rule>, active: seq<bool>, index: seq<seq<nat>>, n: nat, f: nat)
    requires |active| == |rules| && IndexedUpTo(rules, active, index, n, |rules|) && f < n
    ensures |index| == n && forall j :: 0 <= j < |index[f]| ==> index[f][j] < |rules|
    ensures forall r: nat :: r < |rules| ==> Count(index[f], r) == Share(rules, active, f, r)
  {
  }

  lemma Converged(rules: seq<Rule>, active: seq<bool>, given: set<nat>, unfulfilled: seq<nat>, reached: seq<bool>, done: set<nat>)
    requires |active| == |rules| && Working(rules, active, given, unfulfilled, reached, [], done, {}, done)
    requires Counters(rules, active, unfulfilled, done, []) && given <= done
    ensures Marked(reached) == done && Least(rules, active, given, done)
    ensures forall r :: 0 <= r < |rules| ==> (unfulfilled[r] == 0 <==> !active[r] || AllIn(rules[r].pre, done))
    ensures Ready(active, unfulfilled) == Applicable(rules, active, done)
  {
    assert done + {} == done;
    forall r: nat | r < |rules| ensures unfulfilled[r] == 0 <==> !active[r] || AllIn(rules[r].pre, done) {
      MissingNone(rules[r].pre, done);
      assert unfulfilled[r] + Count([], r) == if active[r] then Missing(rules[r].pre, done) else 0;
    }
  }

  lemma NothingWaits(queue: seq<nat>, waiting: set<nat>)
    requires Lists(queue, waiting) && |queue| == 0
    ensures waiting == {}
  {
  }

  lemma FrontLists(reached: seq<bool>, queue: seq<nat>, done: set<nat>, waiting: set<nat>)
    requires Front(reached, queue, done, waiting)
    ensures Lists(queue, waiting) && Within(done, |reached|) && done !! waiting
  {
  }

  /** The whole computation: reached is the least set that holds the given items and is closed under the active
      rules; a counter is zero exactly for the rules whose preconditions are reached. */
  method Propagate(rules: seq<Rule>, active: seq<bool>, n: nat, given: seq<nat>)
    returns (reached: array<bool>, unfulfilled: array<nat>, fired: nat, count: nat)
    requires Valid(rules, n) && |active| == |rules| && Bounded(given, n)
    ensures fresh(reached) && fresh(unfulfilled) && reached.Length == n && unfulfilled.Length == |rules|
    ensures Least(rules, active, Members(given), Marked(reached[..]))
    ensures forall r :: 0 <= r < |rules| ==> (unfulfilled[r] == 0 <==> !active[r] || AllIn(rules[r].pre, Marked(reached[..])))
    ensures fired == |Applicable(rules, active, Marked(reached[..]))| && count == |Marked(reached[..])|
  {
    hide Valid, Front, Below, Fired, Counters, Missing, Count, Share, Ready, AllIn, IndexedUpTo, Lists, Closed;
    ghost var start := Members(given);
    var queue;
    ghost var waiting;
    ghost var done: set<nat> := {};
    reached, unfulfilled, queue, waiting, count, fired := Initialise(rules, active, n, start);
    var index := BuildIndex(rules, active, n);
    assert {} + waiting == waiting;
    ghost var reached0, queue0, waiting0 := reached[..], queue, waiting;
    queue, waiting, count := ReachAll(reached, queue, given, done, waiting, count);
    StartLoop(rules, active, start, unfulfilled[..], reached0, queue0, waiting0, given, waiting, reached[..], queue);
    FrontLists(reached[..], queue, done, waiting);
    while |queue| > 0
      invariant fresh(reached) && fresh(unfulfilled) && reached.Length == n && unfulfilled.Length == |rules|
      invariant Working(rules, active, start, unfulfilled[..], reached[..], queue, done, waiting, done)
      invariant Counters(rules, active, unfulfilled[..], done, []) && start <= done + waiting
      invariant count == |done + waiting| && fired == |Ready(active, unfulfilled[..])|
      invariant Within(done, n)
      decreases n - |done|
    {
      var factIdx := queue[0];
      TakeFirst(rules, active, start, unfulfilled[..], reached[..], queue, done, waiting);
      queue := queue[1..];
      IndexRow(rules, active, index, n, factIdx);
      ghost var rest := waiting - {factIdx};
      queue, waiting, count, fired := ProcessItem(rules, active, start, index[factIdx], factIdx, reached, unfulfilled, queue, done, rest, count, fired);
      Counted(done + {factIdx}, n);
      done := done + {factIdx};
    }
    FrontLists(reached[..], queue, done, waiting);
    NothingWaits(queue, waiting);
    assert queue == [] && done + waiting == done;
    Converged(rules, active, start, unfulfilled[..], reached[..], done);
  }
}
