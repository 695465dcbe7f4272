/** Tarjan's strongly connected components over the task hierarchy (Model.cpp:2252-2390). */
module Tarjan {
  import opened Relations

  /** The parts of the planning model the analysis reads: the methods of each task and their subtasks. */
  datatype Hierarchy = Hierarchy(numTasks: nat, taskToMethods: seq<seq<nat>>, subTasks: seq<seq<nat>>, initialTask: nat) {
    predicate Valid() {
      && |taskToMethods| == numTasks
      && initialTask < numTasks
      && (forall t, i :: 0 <= t < numTasks && 0 <= i < |taskToMethods[t]| ==> taskToMethods[t][i] < |subTasks|)
      && (forall m, j :: 0 <= m < |subTasks| && 0 <= j < |subTasks[m]| ==> subTasks[m][j] < numTasks)
    }

    /** Subtasks of v seen after mi whole methods of v and the first sj subtasks of the next one. */
    ghost function Seen(v: nat, mi: nat, sj: nat): (s: set<nat>)
      requires Valid() && v < numTasks && mi <= |taskToMethods[v]|
      requires mi < |taskToMethods[v]| ==> sj <= |subTasks[taskToMethods[v][mi]]|
      requires mi == |taskToMethods[v]| ==> sj == 0
      ensures forall t :: t in s ==> t < numTasks
    {
      (set i, j | 0 <= i < mi && 0 <= j < |subTasks[taskToMethods[v][i]]| :: subTasks[taskToMethods[v][i]][j])
      + (set j | 0 <= j < sj :: subTasks[taskToMethods[v][mi]][j])
    }

    /** t is a subtask of some method of v. */
    ghost predicate Edge(v: nat, t: nat)
      requires Valid()
    {
      v < numTasks && t in Seen(v, |taskToMethods[v]|, 0)
    }

    ghost function Edges(): (e: Rel)
      requires Valid()
      ensures forall v: nat, t: nat :: (v, t) in e <==> Edge(v, t)
      ensures Within(e, numTasks)
    {
      set v: nat, t: nat | v < numTasks && t < numTasks && Edge(v, t) :: (v, t)
    }
  }

  /** A snapshot of the depth-first search: unvisited tasks, tasks on the stack, and the four tables. */
  datatype Dfs = Dfs(white: set<nat>, on: set<nat>, num: seq<int>, low: seq<int>, scc: seq<int>, sccs: int, next: int)

  ghost predicate ClosedSet(e: Rel, s: set<nat>) {
    forall a, b :: (a, b) in e && a in s ==> b in s
  }

  /** The nodes below n, the edges e and the reachability r they induce. */
  datatype Digraph = Digraph(n: nat, e: Rel, r: Rel) {
    ghost predicate Valid() {
      && Within(e, n)
      && e <= r
      && Transitive(r)
      && (forall x: nat :: x < n ==> (x, x) in r)
      && (forall s :: ClosedSet(e, s) ==> forall a, b :: (a, b) in r && a in s ==> b in s)
    }
  }

  ghost function DigraphOf(h: Hierarchy): (d: Digraph)
    requires h.Valid()
    ensures d.Valid() && d.n == h.numTasks && d.e == h.Edges()
    ensures forall a: nat, b: nat :: (a, b) in d.r <==> a < d.n && b < d.n && Reach(d.e, a, b)
  {
    var n, e := h.numTasks, h.Edges();
    var r := set a: nat, b: nat | a < n && b < n && Reach(e, a, b) :: (a, b);
    DigraphIsValid(n, e, r);
    Digraph(n, e, r)
  }

  lemma DigraphIsValid(n: nat, e: Rel, r: Rel)
    requires Within(e, n)
    requires forall a: nat, b: nat :: (a, b) in r <==> a < n && b < n && Reach(e, a, b)
    ensures Digraph(n, e, r).Valid()
  {
    forall p | p in e ensures p in r { PlusStep(e, p.0, p.1); }
    forall a, b, c | (a, b) in r && (b, c) in r ensures (a, c) in r { ReachTrans(e, a, b, c); }
    forall x: nat | x < n ensures (x, x) in r { ReachRefl(e, x); }
    forall s, a, b | ClosedSet(e, s) && (a, b) in r && a in s ensures b in s {
      ReachStaysInside(e, (iset x | x in s), a, b);
    }
  }

  // ----- what holds between any two steps of the search; gray is the chain of unfinished calls -----

  ghost predicate WellFormed(n: nat, s: Dfs, gray: set<nat>) {
    && |s.num| == |s.low| == |s.scc| == n
    && 0 <= s.sccs
    && s.white !! s.on
    && gray <= s.on
    && (forall v :: v in s.white ==> v < n)
    && (forall v :: v in s.on ==> v < n && s.num[v] < s.next)
    && (forall v: nat :: v < n ==> (s.scc[v] == -1 <==> v in s.white || v in s.on))
    && (forall v: nat :: v < n ==> -1 <= s.scc[v] < s.sccs)
  }

  ghost predicate BlackSeesNoWhite(d: Digraph, s: Dfs, gray: set<nat>) {
    forall a, b :: (a, b) in d.e && a !in s.white && a !in gray ==> b !in s.white
  }

  ghost predicate ReachesGray(d: Digraph, s: Dfs, gray: set<nat>, x: nat)
    requires forall g :: g in gray ==> g < |s.num|
    requires x < |s.num|
  {
    exists g :: g in gray && s.num[g] <= s.num[x] && (x, g) in d.r
  }

  /** Everything on the stack reaches an unfinished call at or below it, and is reached by those. */
  ghost predicate StackConnected(d: Digraph, s: Dfs, gray: set<nat>)
    requires WellFormed(d.n, s, gray)
  {
    && (forall x {:trigger ReachesGray(d, s, gray, x)} :: x in s.on ==> ReachesGray(d, s, gray, x))
    && (forall g, x :: g in gray && x in s.on && s.num[g] <= s.num[x] ==> (g, x) in d.r)
  }

  /** Numbered components are closed under edges, ordered against them, and maximal. */
  ghost predicate FinishedOk(d: Digraph, scc: seq<int>)
    requires |scc| == d.n && d.Valid()
  {
    && (forall a, b :: (a, b) in d.e && scc[a] != -1 ==> scc[b] != -1 && scc[b] <= scc[a])
    && (forall a: nat, b: nat :: a < d.n && b < d.n && scc[a] != -1 && scc[b] != -1 ==>
          (scc[a] == scc[b] <==> (a, b) in d.r && (b, a) in d.r))
  }

  ghost predicate InUse(scc: seq<int>, c: int) {
    exists v: nat :: v < |scc| && scc[v] == c
  }

  /** Every number given out so far belongs to some task. */
  ghost predicate NumbersInUse(scc: seq<int>, sccs: int) {
    forall c :: 0 <= c < sccs ==> InUse(scc, c)
  }

  ghost predicate Inv(d: Digraph, s: Dfs, gray: set<nat>) {
    && d.Valid()
    && WellFormed(d.n, s, gray)
    && BlackSeesNoWhite(d, s, gray)
    && StackConnected(d, s, gray)
    && FinishedOk(d, s.scc)
    && NumbersInUse(s.scc, s.sccs)
  }

  /** What a finished call leaves of the state it found. */
  ghost predicate Extends(n: nat, s: Dfs, t: Dfs) {
    && |s.num| == |s.low| == |s.scc| == |t.num| == |t.low| == |t.scc| == n
    && t.white <= s.white
    && s.on <= t.on <= s.on + s.white
    && (forall v :: v in t.on && v !in s.on ==> v < n && s.next <= t.num[v])
    && (forall v: nat :: v < n && v !in s.white ==> t.num[v] == s.num[v] && t.low[v] == s.low[v])
    && (forall v: nat :: v < n && s.scc[v] != -1 ==> t.scc[v] == s.scc[v])
    && s.next <= t.next
    && s.sccs <= t.sccs
  }

  /** y is among the tasks below, has number d and can be reached from v. */
  ghost predicate LowWitness(d: Digraph, s: Dfs, below: set<nat>, v: nat, low: int) {
    exists y :: y in below && y < |s.num| && s.num[y] == low && (v, y) in d.r
  }

  ghost predicate LowBounds(d: Digraph, s: Dfs, below: set<nat>, x: nat, low: int) {
    forall y :: y in below && (x, y) in d.e && y < |s.num| ==> low <= s.num[y]
  }

  /** tarjan(v) run in s has ended in t. */
  ghost predicate Done(d: Digraph, s: Dfs, t: Dfs, v: nat) {
    && Extends(d.n, s, t)
    && v in s.white && v < d.n && v !in t.white
    && s.next <= t.num[v]
    && t.low[v] <= t.num[v]
    && (v in t.on ==> LowWitness(d, t, s.on, v, t.low[v]))
    && (v !in t.on ==> t.on == s.on && t.low[v] == t.num[v])
    && (forall x :: x in t.on && x !in s.on ==> LowBounds(d, t, s.on, x, t.low[v]))
  }

  /** tarjan(v) was entered in o. */
  ghost predicate Begun(n: nat, o: Dfs, s: Dfs, gray: set<nat>, v: nat) {
    && Extends(n, o, s)
    && v in o.white && v < n && v in s.on && v !in gray
    && gray <= o.on && o.on !! o.white
    && (forall x :: x in o.on ==> x < n && o.num[x] < o.next)
    && s.num[v] == o.next < s.next
  }

  /** lowlink[v] summarises the subtasks in seen and everything above v on the stack. */
  ghost predicate LowOk(d: Digraph, o: Dfs, s: Dfs, v: nat, seen: set<nat>)
    requires v < |s.low| && v < |s.num|
  {
    && s.low[v] <= s.num[v]
    && LowWitness(d, s, o.on + {v}, v, s.low[v])
    && (forall x :: x in s.on && x !in o.on && x != v ==> LowBounds(d, s, o.on, x, s.low[v]))
    && (forall y :: y in seen ==> y !in s.white && (y in o.on && y < |s.num| ==> s.low[v] <= s.num[y]))
  }

  /** tarjan(v) entered in o is now in s and has dealt with the subtasks in seen. */
  ghost predicate Exploring(d: Digraph, o: Dfs, s: Dfs, gray: set<nat>, v: nat, seen: set<nat>) {
    && Inv(d, s, gray + {v})
    && Begun(d.n, o, s, gray, v)
    && LowOk(d, o, s, v, seen)
  }

  ghost predicate Entered(n: nat, o: Dfs, s: Dfs, v: nat)
    requires |o.num| == |o.low| == n && v < n
  {
    s == Dfs(o.white - {v}, o.on + {v}, o.num[v := o.next], o.low[v := o.next], o.scc, o.sccs, o.next + 1)
  }

  lemma EnterConnected(d: Digraph, o: Dfs, s: Dfs, gray: set<nat>, v: nat, x: nat)
    requires d.Valid() && WellFormed(d.n, o, gray) && StackConnected(d, o, gray)
    requires v in o.white && Entered(d.n, o, s, v) && WellFormed(d.n, s, gray + {v})
    requires x in s.on
    ensures ReachesGray(d, s, gray + {v}, x)
  {
    if x != v {
      assert ReachesGray(d, o, gray, x);
      var g :| g in gray && o.num[g] <= o.num[x] && (x, g) in d.r;
      assert g in gray + {v} && s.num[g] <= s.num[x];
    } else {
      assert v in gray + {v} && (v, v) in d.r;
    }
  }

  lemma EnterReached(d: Digraph, o: Dfs, s: Dfs, gray: set<nat>, v: nat, g: nat, x: nat)
    requires d.Valid() && WellFormed(d.n, o, gray)
    requires forall g, x :: g in gray && x in o.on && o.num[g] <= o.num[x] ==> (g, x) in d.r
    requires forall g :: g in gray ==> (g, v) in d.r
    requires v in o.white && Entered(d.n, o, s, v)
    requires g in gray + {v} && x in o.on + {v} && s.num[g] <= s.num[x]
    ensures (g, x) in d.r
  {
  }

  lemma Enter(d: Digraph, o: Dfs, s: Dfs, gray: set<nat>, v: nat)
    requires Inv(d, o, gray) && v in o.white
    requires forall g :: g in gray ==> (g, v) in d.r
    requires Entered(d.n, o, s, v)
    ensures Exploring(d, o, s, gray, v, {})
  {
    var gray' := gray + {v};
    assert WellFormed(d.n, s, gray');
    assert StackConnected(d, s, gray') by {
      forall x | x in s.on ensures ReachesGray(d, s, gray', x) {
        EnterConnected(d, o, s, gray, v, x);
      }
      forall g, x | g in gray' && x in s.on && s.num[g] <= s.num[x] ensures (g, x) in d.r {
        EnterReached(d, o, s, gray, v, g, x);
      }
    }
    assert Begun(d.n, o, s, gray, v);
    assert v in o.on + {v} && s.num[v] == s.low[v];
  }

  function Lowered(s: Dfs, v: nat, d: int): Dfs
    requires v < |s.low|
  {
    if s.low[v] > d then s.(low := s.low[v := d]) else s
  }

  lemma InvIgnoresLow(d: Digraph, s: Dfs, t: Dfs, gray: set<nat>)
    requires Inv(d, s, gray) && |t.low| == d.n && t == s.(low := t.low)
    ensures Inv(d, t, gray)
  {
    assert WellFormed(d.n, t, gray);
    forall x | x in t.on ensures ReachesGray(d, t, gray, x) {
      assert ReachesGray(d, s, gray, x);
      var g :| g in gray && s.num[g] <= s.num[x] && (x, g) in d.r;
      assert g in gray && t.num[g] <= t.num[x];
    }
  }

  lemma BegunComposes(n: nat, o: Dfs, s: Dfs, t: Dfs, gray: set<nat>, v: nat)
    requires Begun(n, o, s, gray, v) && Extends(n, s, t)
    requires s.white !! s.on
    ensures Begun(n, o, t, gray, v)
  {
  }

  /** The new lowlink of v is the number of something v reaches at or below itself. */
  lemma AfterCallWitness(d: Digraph, o: Dfs, s: Dfs, t: Dfs, gray: set<nat>, v: nat, y: nat)
    requires Begun(d.n, o, s, gray, v) && Begun(d.n, o, t, gray, v) && s.on !! s.white
    requires (forall x :: x in s.on ==> x < d.n && s.num[x] < s.next)
    requires LowWitness(d, s, o.on + {v}, v, s.low[v]) && s.low[v] <= s.num[v]
    requires d.Valid() && (v, y) in d.e && Done(d, s, t, y)
    ensures LowWitness(d, t, o.on + {v}, v, Lowered(t, v, t.low[y]).low[v])
  {
    if t.low[v] > t.low[y] {
      assert y in t.on;
      var z :| z in s.on && z < |t.num| && t.num[z] == t.low[y] && (y, z) in d.r;
      assert (v, y) in d.r;
      assert z in o.on + {v};
    } else {
      var z :| z in o.on + {v} && z < |s.num| && s.num[z] == s.low[v] && (v, z) in d.r;
      assert z !in s.white;
    }
  }

  lemma AfterCallBounds(d: Digraph, o: Dfs, s: Dfs, t: Dfs, gray: set<nat>, v: nat, seen: set<nat>, y: nat, x: nat)
    requires Begun(d.n, o, s, gray, v) && Begun(d.n, o, t, gray, v) && s.on !! s.white
    requires LowOk(d, o, s, v, seen)
    requires Done(d, s, t, y)
    requires x in t.on && x !in o.on && x != v
    ensures LowBounds(d, t, o.on, x, Lowered(t, v, t.low[y]).low[v])
  {
    var low := Lowered(t, v, t.low[y]).low[v];
    forall z | z in o.on && (x, z) in d.e && z < |t.num| ensures low <= t.num[z] {
      if x in s.on {
        assert LowBounds(d, s, o.on, x, s.low[v]);
      } else {
        assert LowBounds(d, t, s.on, x, t.low[y]);
      }
    }
  }

  /** Lines 2355-2359: the subtask was unvisited and its call has returned. */
  lemma AfterCall(d: Digraph, o: Dfs, s: Dfs, t: Dfs, gray: set<nat>, v: nat, seen: set<nat>, y: nat)
    requires Exploring(d, o, s, gray, v, seen)
    requires (v, y) in d.e
    requires Inv(d, t, gray + {v}) && Done(d, s, t, y)
    ensures Exploring(d, o, Lowered(t, v, t.low[y]), gray, v, seen + {y})
  {
    hide LowOk;
    var r := Lowered(t, v, t.low[y]);
    InvIgnoresLow(d, t, r, gray + {v});
    BegunComposes(d.n, o, s, t, gray, v);
    AfterCallLow(d, o, s, t, gray, v, seen, y);
  }

  lemma AfterCallLow(d: Digraph, o: Dfs, s: Dfs, t: Dfs, gray: set<nat>, v: nat, seen: set<nat>, y: nat)
    requires d.Valid() && Begun(d.n, o, s, gray, v) && Begun(d.n, o, t, gray, v) && s.on !! s.white
    requires (forall x :: x in s.on ==> x < d.n && s.num[x] < s.next)
    requires LowOk(d, o, s, v, seen)
    requires (v, y) in d.e && Done(d, s, t, y)
    ensures LowOk(d, o, Lowered(t, v, t.low[y]), v, seen + {y})
  {
    var r := Lowered(t, v, t.low[y]);
    AfterCallWitness(d, o, s, t, gray, v, y);
    assert LowWitness(d, r, o.on + {v}, v, r.low[v]);
    forall x | x in r.on && x !in o.on && x != v
      ensures LowBounds(d, r, o.on, x, r.low[v])
    {
      AfterCallBounds(d, o, s, t, gray, v, seen, y, x);
    }
  }

  /** Lines 2360-2363: the subtask was visited before, and is on the stack or belongs to a finished component. */
  lemma AfterVisited(d: Digraph, o: Dfs, s: Dfs, gray: set<nat>, v: nat, seen: set<nat>, y: nat)
    requires Exploring(d, o, s, gray, v, seen)
    requires (v, y) in d.e && y !in s.white
    ensures y in s.on ==> Exploring(d, o, Lowered(s, v, s.num[y]), gray, v, seen + {y})
    ensures y !in s.on ==> Exploring(d, o, s, gray, v, seen + {y})
  {
    if y in s.on {
      var r := Lowered(s, v, s.num[y]);
      InvIgnoresLow(d, s, r, gray + {v});
      assert Begun(d.n, o, r, gray, v);
      assert LowWitness(d, r, o.on + {v}, v, r.low[v]) by {
        if s.low[v] > s.num[y] {
          assert y in o.on + {v};
        } else {
          var z :| z in o.on + {v} && z < |s.num| && s.num[z] == s.low[v] && (v, z) in d.r;
        }
      }
      forall x | x in r.on && x !in o.on && x != v
        ensures LowBounds(d, r, o.on, x, r.low[v])
      {
        assert LowBounds(d, s, o.on, x, s.low[v]);
      }
      assert LowOk(d, o, r, v, seen + {y});
    }
  }

  ghost predicate SeesAll(d: Digraph, v: nat, seen: set<nat>) {
    forall y :: (v, y) in d.e ==> y in seen
  }

  /** When v reaches a stack entry below it, its chain of unfinished calls below serves everything above. */
  lemma LeaveConnected(d: Digraph, o: Dfs, s: Dfs, gray: set<nat>, v: nat)
    requires d.Valid() && WellFormed(d.n, s, gray + {v}) && StackConnected(d, s, gray + {v})
    requires Begun(d.n, o, s, gray, v)
    requires LowWitness(d, s, o.on, v, s.low[v])
    ensures StackConnected(d, s, gray)
  {
    var z :| z in o.on && z < |s.num| && s.num[z] == s.low[v] && (v, z) in d.r;
    assert ReachesGray(d, s, gray + {v}, z);
    var g :| g in gray + {v} && s.num[g] <= s.num[z] && (z, g) in d.r;
    assert g in gray;
    assert (v, g) in d.r;
    forall x | x in s.on ensures ReachesGray(d, s, gray, x) {
      assert ReachesGray(d, s, gray + {v}, x);
      var h :| h in gray + {v} && s.num[h] <= s.num[x] && (x, h) in d.r;
      if h == v {
        assert (x, g) in d.r;
      }
    }
  }

  /** v reaches a stack entry below it: it stays on the stack and turns black. */
  lemma LeaveOnStack(d: Digraph, o: Dfs, s: Dfs, gray: set<nat>, v: nat, seen: set<nat>)
    requires Exploring(d, o, s, gray, v, seen) && SeesAll(d, v, seen)
    requires s.low[v] != s.num[v]
    ensures Inv(d, s, gray) && Done(d, o, s, v)
  {
    assert LowWitness(d, s, o.on, v, s.low[v]) by {
      var z :| z in o.on + {v} && z < |s.num| && s.num[z] == s.low[v] && (v, z) in d.r;
      assert z in o.on;
    }
    LeaveConnected(d, o, s, gray, v);
    assert LowBounds(d, s, o.on, v, s.low[v]);
    assert WellFormed(d.n, s, gray);
  }

  /** The state after the loop at 2370-2375 has numbered everything from v upwards. */
  ghost predicate Popped(n: nat, o: Dfs, s: Dfs, t: Dfs)
    requires |s.scc| == n
  {
    && |t.scc| == n
    && t == s.(on := o.on, scc := t.scc, sccs := s.sccs + 1)
    && (forall x: nat :: x < n ==> t.scc[x] == (if x in s.on - o.on then s.sccs else s.scc[x]))
  }

  /** Nothing leaves the part of the stack from v upwards except into finished components. */
  lemma TopIsClosed(d: Digraph, o: Dfs, s: Dfs, gray: set<nat>, v: nat, seen: set<nat>, x: nat, y: nat)
    requires Exploring(d, o, s, gray, v, seen) && SeesAll(d, v, seen)
    requires s.low[v] == s.num[v]
    requires x in s.on - o.on && (x, y) in d.e
    ensures y !in o.on && y !in s.white
  {
    if x != v {
      assert LowBounds(d, s, o.on, x, s.low[v]);
    }
  }

  /** Everything from v upwards is one component. */
  lemma TopIsConnected(d: Digraph, o: Dfs, s: Dfs, gray: set<nat>, v: nat, x: nat)
    requires d.Valid() && WellFormed(d.n, s, gray + {v}) && StackConnected(d, s, gray + {v})
    requires Begun(d.n, o, s, gray, v)
    requires x in s.on - o.on
    ensures (v, x) in d.r && (x, v) in d.r
  {
    assert ReachesGray(d, s, gray + {v}, x);
    var g :| g in gray + {v} && s.num[g] <= s.num[x] && (x, g) in d.r;
    if g != v {
      assert s.num[g] <= s.num[v];
    }
    assert (x, v) in d.r;
  }

  lemma PopConnected(d: Digraph, o: Dfs, s: Dfs, t: Dfs, gray: set<nat>, v: nat)
    requires WellFormed(d.n, s, gray + {v}) && StackConnected(d, s, gray + {v})
    requires Begun(d.n, o, s, gray, v)
    requires Popped(d.n, o, s, t) && WellFormed(d.n, t, gray)
    ensures StackConnected(d, t, gray)
  {
    forall x | x in t.on ensures ReachesGray(d, t, gray, x) {
      assert ReachesGray(d, s, gray + {v}, x);
      var g :| g in gray + {v} && s.num[g] <= s.num[x] && (x, g) in d.r;
      assert g in gray && t.num[g] <= t.num[x];
    }
  }

  lemma PopKeepsFinished(d: Digraph, o: Dfs, s: Dfs, t: Dfs, gray: set<nat>, v: nat, seen: set<nat>)
    requires Exploring(d, o, s, gray, v, seen) && SeesAll(d, v, seen)
    requires s.low[v] == s.num[v] && Popped(d.n, o, s, t)
    ensures FinishedOk(d, t.scc)
  {
    forall a, b | (a, b) in d.e && t.scc[a] != -1 ensures t.scc[b] != -1 && t.scc[b] <= t.scc[a] {
      if a in s.on - o.on { TopIsClosed(d, o, s, gray, v, seen, a, b); }
    }
    forall a: nat, b: nat | a < d.n && b < d.n && t.scc[a] != -1 && t.scc[b] != -1
      ensures t.scc[a] == t.scc[b] <==> (a, b) in d.r && (b, a) in d.r
    {
      if a in s.on - o.on && b in s.on - o.on {
        TopIsConnected(d, o, s, gray, v, a);
        TopIsConnected(d, o, s, gray, v, b);
        assert (a, b) in d.r;
        assert (b, a) in d.r;
      } else if a in s.on - o.on {
        FinishedIsClosed(d, s.scc, b, a);
      } else if b in s.on - o.on {
        FinishedIsClosed(d, s.scc, a, b);
      }
    }
  }

  lemma PopKeepsNumbers(d: Digraph, o: Dfs, s: Dfs, t: Dfs, gray: set<nat>, v: nat)
    requires WellFormed(d.n, s, gray + {v}) && NumbersInUse(s.scc, s.sccs)
    requires Begun(d.n, o, s, gray, v) && Popped(d.n, o, s, t)
    ensures NumbersInUse(t.scc, t.sccs)
  {
    forall c | 0 <= c < t.sccs ensures InUse(t.scc, c) {
      if c < s.sccs {
        assert InUse(s.scc, c);
        var x: nat :| x < |s.scc| && s.scc[x] == c;
        assert t.scc[x] == c;
      } else {
        assert t.scc[v] == c;
      }
    }
  }

  lemma LeavePopped(d: Digraph, o: Dfs, s: Dfs, t: Dfs, gray: set<nat>, v: nat, seen: set<nat>)
    requires Exploring(d, o, s, gray, v, seen) && SeesAll(d, v, seen)
    requires s.low[v] == s.num[v] && Popped(d.n, o, s, t)
    ensures Inv(d, t, gray) && Done(d, o, t, v)
  {
    assert WellFormed(d.n, t, gray);
    PopConnected(d, o, s, t, gray, v);
    PopKeepsFinished(d, o, s, t, gray, v, seen);
    PopKeepsNumbers(d, o, s, t, gray, v);
    hide NumbersInUse;
    assert BlackSeesNoWhite(d, t, gray) by {
      forall a, b | (a, b) in d.e && a !in t.white && a !in gray ensures b !in t.white {
        if a == v { assert b in seen; }
      }
    }
  }

  lemma GrayReachesSubtask(d: Digraph, o: Dfs, s: Dfs, gray: set<nat>, v: nat, y: nat)
    requires d.Valid() && WellFormed(d.n, s, gray + {v}) && StackConnected(d, s, gray + {v})
    requires Begun(d.n, o, s, gray, v) && (v, y) in d.e
    ensures forall g :: g in gray + {v} ==> (g, y) in d.r
  {
    forall g | g in gray + {v} ensures (g, y) in d.r {
      assert s.num[g] <= s.num[v];
    }
  }

  lemma FinishedIsClosed(d: Digraph, scc: seq<int>, a: nat, b: nat)
    requires |scc| == d.n && d.Valid() && FinishedOk(d, scc)
    requires a < d.n && b < d.n && scc[a] != -1 && scc[b] == -1
    ensures (a, b) !in d.r
  {
    assert ClosedSet(d.e, set x: nat | x < d.n && scc[x] != -1);
  }

  class SccAnalysis {
    const h: Hierarchy
    ghost const d: Digraph         // its edges and what they reach
    const U: array<bool>           // unvisited tasks
    const containedS: array<bool>
    const dfsI: array<int>
    const lowlink: array<int>
    const taskToSCC: array<int>
    var S: seq<nat>
    var maxdfs: int
    var numSCCs: int

    ghost predicate Shape()
      reads this
    {
      && h.Valid()
      && d.n == h.numTasks && d.e == h.Edges()
      && U.Length == containedS.Length == dfsI.Length == lowlink.Length == taskToSCC.Length == h.numTasks
      && U != containedS && dfsI != lowlink && dfsI != taskToSCC && lowlink != taskToSCC
    }

    ghost function State(): Dfs
      reads this, U, dfsI, lowlink, taskToSCC
    {
      Dfs((set v: nat | v < U.Length && U[v]), (set v | v in S), dfsI[..], lowlink[..], taskToSCC[..], numSCCs, maxdfs)
    }

    /** containedS marks the stack, and the stack is ordered by visiting number. */
    ghost predicate StackOk()
      reads this, containedS, dfsI
    {
      && (forall v: nat :: v < containedS.Length ==> (containedS[v] <==> v in S))
      && (forall i :: 0 <= i < |S| ==> S[i] < dfsI.Length)
      && (forall i, j :: 0 <= i < j < |S| ==> dfsI[S[i]] < dfsI[S[j]])
    }

    /** calcSCCs up to the call of tarjan (2265-2280). */
    constructor (h: Hierarchy)
      requires h.Valid()
      ensures this.h == h && d == DigraphOf(h) && Shape() && StackOk()
      ensures fresh(U) && fresh(containedS) && fresh(dfsI) && fresh(lowlink) && fresh(taskToSCC)
      ensures Inv(d, State(), {})
      ensures forall v: nat :: v < h.numTasks <==> v in State().white
    {
      this.h := h;
      d := DigraphOf(h);
      U := new bool[h.numTasks](_ => true);
      containedS := new bool[h.numTasks](_ => false);
      dfsI := new int[h.numTasks];
      lowlink := new int[h.numTasks];
      taskToSCC := new int[h.numTasks](_ => -1);
      S := [];
      maxdfs := 0;
      numSCCs := 0;
    }

    /** tarjan(v) (2339-2378). */
    method Tarjan(v: nat, ghost gray: set<nat>)
      requires Shape() && StackOk()
      requires v in State().white
      requires Inv(d, State(), gray)
      requires forall g :: g in gray ==> (g, v) in d.r
      modifies this`S, this`maxdfs, this`numSCCs, U, containedS, dfsI, lowlink, taskToSCC
      ensures StackOk() && old(S) <= S
      ensures Inv(d, State(), gray)
      ensures Done(d, old(State()), State(), v)
      decreases State().white, 0
    {
      ghost var o := State();
      ghost var below := S;
      Push(v, gray);
      ExploreAll(v, o, gray);
      Leave(v, o, below, gray, h.Seen(v, |h.taskToMethods[v]|, 0));
    }

    /** Lines 2348-2366: all methods of v. */
    method ExploreAll(v: nat, ghost o: Dfs, ghost gray: set<nat>)
      requires Shape() && StackOk() && v < h.numTasks
      requires Exploring(d, o, State(), gray, v, {})
      modifies this`S, this`maxdfs, this`numSCCs, U, containedS, dfsI, lowlink, taskToSCC
      ensures StackOk() && old(S) <= S
      ensures Exploring(d, o, State(), gray, v, h.Seen(v, |h.taskToMethods[v]|, 0))
      ensures SeesAll(d, v, h.Seen(v, |h.taskToMethods[v]|, 0))
      decreases State().white, 4
    {
      hide Exploring, StackOk, SeesAll, Hierarchy.Seen, Hierarchy.Edge;
      SeenNoneAndAll(h, d, v);
      for iM := 0 to |h.taskToMethods[v]|
        invariant StackOk() && old(S) <= S
        invariant State().white <= old(State().white)
        invariant Exploring(d, o, State(), gray, v, h.Seen(v, iM, 0))
      {
        ExploreMethod(v, iM, o, gray);
      }
    }

    /** Lines 2349-2365: the subtasks of one method. */
    method ExploreMethod(v: nat, iM: nat, ghost o: Dfs, ghost gray: set<nat>)
      requires Shape() && StackOk()
      requires v < h.numTasks && iM < |h.taskToMethods[v]|
      requires Exploring(d, o, State(), gray, v, h.Seen(v, iM, 0))
      modifies this`S, this`maxdfs, this`numSCCs, U, containedS, dfsI, lowlink, taskToSCC
      ensures StackOk() && old(S) <= S && State().white <= old(State().white)
      ensures Exploring(d, o, State(), gray, v, h.Seen(v, iM + 1, 0))
      decreases State().white, 3
    {
      var m := h.taskToMethods[v][iM];
      for iST := 0 to |h.subTasks[m]|
        invariant StackOk() && old(S) <= S
        invariant State().white <= old(State().white)
        invariant Exploring(d, o, State(), gray, v, h.Seen(v, iM, iST))
      {
        SeenStep(h, v, iM, iST);
        VisitSubtask(v, h.subTasks[m][iST], o, gray, h.Seen(v, iM, iST));
      }
      SeenMethod(h, v, iM);
    }

    /** Lines 2340-2346. */
    method Push(v: nat, ghost gray: set<nat>)
      requires Shape() && StackOk()
      requires v in State().white
      requires Inv(d, State(), gray)
      requires forall g :: g in gray ==> (g, v) in d.r
      modifies this`S, this`maxdfs, U, containedS, dfsI, lowlink
      ensures StackOk() && S == old(S) + [v]
      ensures Exploring(d, old(State()), State(), gray, v, {})
    {
      ghost var o := State();
      dfsI[v] := maxdfs;
      lowlink[v] := maxdfs;
      maxdfs := maxdfs + 1;
      S := S + [v];
      containedS[v] := true;
      U[v] := false;
      assert State().white == o.white - {v};
      assert State().on == o.on + {v};
      assert forall i :: 0 <= i < |S| - 1 ==> S[i] in o.on;
      Enter(d, o, State(), gray, v);
    }

    /** Lines 2353-2363. */
    method VisitSubtask(v: nat, v2: nat, ghost o: Dfs, ghost gray: set<nat>, ghost seen: set<nat>)
      requires Shape() && StackOk()
      requires v < h.numTasks && v2 < h.numTasks && (v, v2) in d.e
      requires Exploring(d, o, State(), gray, v, seen)
      modifies this`S, this`maxdfs, this`numSCCs, U, containedS, dfsI, lowlink, taskToSCC
      ensures StackOk() && old(S) <= S && State().white <= old(State().white)
      ensures Exploring(d, o, State(), gray, v, seen + {v2})
      decreases State().white, 2
    {
      if U[v2] {
        VisitNew(v, v2, o, gray, seen);
      } else {
        ghost var s := State();
        AfterVisited(d, o, s, gray, v, seen, v2);
        if containedS[v2] {
          Lower(v, dfsI[v2]);
        }
      }
    }

    /** Lines 2357-2358 and 2361-2362. */
    method Lower(v: nat, low: int)
      requires Shape() && v < h.numTasks
      modifies lowlink
      ensures State() == Lowered(old(State()), v, low)
    {
      ghost var s := State();
      if lowlink[v] > low {
        lowlink[v] := low;
        assert lowlink[..] == s.low[v := low];
      }
    }

    /** Lines 2355-2359. */
    method VisitNew(v: nat, v2: nat, ghost o: Dfs, ghost gray: set<nat>, ghost seen: set<nat>)
      requires Shape() && StackOk()
      requires v < h.numTasks && v2 < h.numTasks && (v, v2) in d.e && U[v2]
      requires Exploring(d, o, State(), gray, v, seen)
      modifies this`S, this`maxdfs, this`numSCCs, U, containedS, dfsI, lowlink, taskToSCC
      ensures StackOk() && old(S) <= S && State().white <= old(State().white)
      ensures Exploring(d, o, State(), gray, v, seen + {v2})
      decreases State().white, 1
    {
      ghost var s := State();
      GrayReachesSubtask(d, o, s, gray, v, v2);
      Tarjan(v2, gray + {v});
      ghost var t := State();
      Lower(v, lowlink[v2]);
      AfterCall(d, o, s, t, gray, v, seen, v2);
    }

    /** Lines 2368-2377. */
    method Leave(v: nat, ghost o: Dfs, ghost below: seq<nat>, ghost gray: set<nat>, ghost seen: set<nat>)
      requires Shape() && StackOk()
      requires v < h.numTasks && SeesAll(d, v, seen)
      requires Exploring(d, o, State(), gray, v, seen)
      requires below + [v] <= S && o.on == (set x | x in below)
      modifies this`S, this`numSCCs, containedS, taskToSCC
      ensures StackOk() && below <= S
      ensures Inv(d, State(), gray)
      ensures Done(d, o, State(), v)
    {
      ghost var s := State();
      if lowlink[v] == dfsI[v] {
        PopComponent(v, below);
        assert Popped(d.n, o, s, State());
        LeavePopped(d, o, s, State(), gray, v, seen);
      } else {
        LeaveOnStack(d, o, s, gray, v, seen);
      }
    }

    /** Lines 2369-2376: pop and number everything down to v. */
    method PopComponent(v: nat, ghost below: seq<nat>)
      requires Shape() && StackOk()
      requires below + [v] <= S
      modifies this`S, this`numSCCs, containedS, taskToSCC
      ensures StackOk() && S == below && numSCCs == old(numSCCs) + 1
      ensures forall x: nat :: x < h.numTasks ==>
                taskToSCC[x] == (if x in old(S) && x !in below then old(numSCCs) else old(taskToSCC[x]))
    {
      ghost var all := S;
      assert all[|below|] == v;
      var go := true;
      while go
        invariant if go then |below| < |S| else |below| == |S|
        invariant |S| <= |all| && S == all[..|S|]
        invariant forall x: nat :: x < h.numTasks ==> (containedS[x] <==> x in S)
        invariant numSCCs == old(numSCCs)
        invariant forall x: nat :: x < h.numTasks ==>
                    taskToSCC[x] == (if x in all && x !in S then numSCCs else old(taskToSCC[x]))
        decreases |S|, go
      {
        var v2 := S[|S| - 1];
        LastIsNew(S, v2, below, v);
        S := S[..|S| - 1];
        containedS[v2] := false;
        taskToSCC[v2] := numSCCs;
        go := v2 != v;
      }
      assert S == below;
      numSCCs := numSCCs + 1;
    }
  }

  /** In a list without repetitions the last entry occurs nowhere before. */
  lemma LastIsNew(s: seq<nat>, last: nat, below: seq<nat>, v: nat)
    requires |below| < |s| && last == s[|s| - 1] && s[|below|] == v
    requires forall i, j :: 0 <= i < j < |s| ==> s[i] != s[j]
    ensures last !in s[..|s| - 1]
    ensures forall x :: x in s <==> x in s[..|s| - 1] || x == last
    ensures last == v <==> |s| - 1 == |below|
  {
    assert s == s[..|s| - 1] + [last];
  }

  lemma SeenNoneAndAll(h: Hierarchy, d: Digraph, v: nat)
    requires h.Valid() && v < h.numTasks && d.e == h.Edges()
    ensures h.Seen(v, 0, 0) == {} && SeesAll(d, v, h.Seen(v, |h.taskToMethods[v]|, 0))
  {
  }

  lemma SeenStep(h: Hierarchy, v: nat, mi: nat, sj: nat)
    requires h.Valid() && v < h.numTasks && mi < |h.taskToMethods[v]|
    requires sj < |h.subTasks[h.taskToMethods[v][mi]]|
    ensures h.Seen(v, mi, sj + 1) == h.Seen(v, mi, sj) + {h.subTasks[h.taskToMethods[v][mi]][sj]}
    ensures (v, h.subTasks[h.taskToMethods[v][mi]][sj]) in h.Edges()
  {
  }

  lemma SeenMethod(h: Hierarchy, v: nat, mi: nat)
    requires h.Valid() && v < h.numTasks && mi < |h.taskToMethods[v]|
    ensures h.Seen(v, mi, |h.subTasks[h.taskToMethods[v][mi]]|) == h.Seen(v, mi + 1, 0)
  {
  }

  /** calcSCCs (2265-2281): with every task reachable from the initial one, the numbers are exactly the
      components, none of the numSCCs numbers is left unused, and hierarchy edges between components go from
      higher to strictly lower numbers. */
  method CalcSccs(h: Hierarchy) returns (taskToSCC: seq<int>, numSCCs: int)
    requires h.Valid()
    requires forall t: nat :: t < h.numTasks ==> Reach(h.Edges(), h.initialTask, t)
    ensures |taskToSCC| == h.numTasks
    ensures forall t: nat :: t < h.numTasks ==> 0 <= taskToSCC[t] < numSCCs
    ensures forall c :: 0 <= c < numSCCs ==> InUse(taskToSCC, c)
    ensures forall a: nat, b: nat :: a < h.numTasks && b < h.numTasks ==>
              (taskToSCC[a] == taskToSCC[b] <==> Reach(h.Edges(), a, b) && Reach(h.Edges(), b, a))
    ensures forall a: nat, b: nat :: a < h.numTasks && b < h.numTasks && h.Edge(a, b) && taskToSCC[a] != taskToSCC[b] ==>
              taskToSCC[b] < taskToSCC[a]
  {
    var analysis := new SccAnalysis(h);
    analysis.Tarjan(h.initialTask, {});
    ghost var d, s := DigraphOf(h), analysis.State();
    taskToSCC, numSCCs := analysis.taskToSCC[..], analysis.numSCCs;
    forall t: nat | t < h.numTasks ensures taskToSCC[t] != -1 {
      FinishedReaches(d, s, h.initialTask, t);
    }
  }

  lemma FinishedReaches(d: Digraph, s: Dfs, a: nat, b: nat)
    requires Inv(d, s, {}) && a < d.n && b < d.n && a !in s.white && (a, b) in d.r
    ensures s.scc[b] != -1
  {
    assert a in s.on ==> ReachesGray(d, s, {}, a);
    if s.scc[b] == -1 {
      FinishedIsClosed(d, s.scc, a, b);
    }
  }
}
