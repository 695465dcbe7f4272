/** The graph of strongly connected components: its edges, the tasks each component reaches, and
    which components lead into no cycle (Model.cpp:2288-2328, 2392-2465, 2474-2609). */
module SccGraph {
  import opened Relations
  import opened Tarjan

  /** The result of calcSCCs: components are numbered 0..k-1 against the direction of the edges. */
  ghost predicate Numbered(d: Digraph, scc: seq<nat>, k: nat) {
    && d.Valid() && Within(d.r, d.n)
    && |scc| == d.n
    && (forall t: nat :: t < d.n ==> scc[t] < k)
    && (forall c: nat :: c < k ==> Used(scc, c))
    && (forall a: nat, b: nat {:trigger Mutual(d, a, b)} :: a < d.n && b < d.n ==> (scc[a] == scc[b] <==> Mutual(d, a, b)))
    && (forall a, b :: (a, b) in d.e ==> scc[b] <= scc[a])
  }

  ghost predicate Used(scc: seq<nat>, c: nat) {
    exists t: nat :: t < |scc| && scc[t] == c
  }

  /** What calcSCCs hands over. */
  lemma ComponentsNumbered(h: Hierarchy, taskToSCC: seq<int>, numSCCs: int, scc: seq<nat>)
    requires h.Valid() && |taskToSCC| == |scc| == h.numTasks && numSCCs >= 0
    requires forall t: nat :: t < h.numTasks ==> 0 <= taskToSCC[t] < numSCCs && scc[t] == taskToSCC[t]
    requires forall c :: 0 <= c < numSCCs ==> InUse(taskToSCC, c)
    requires forall a: nat, b: nat :: a < h.numTasks && b < h.numTasks ==>
               (taskToSCC[a] == taskToSCC[b] <==> Reach(h.Edges(), a, b) && Reach(h.Edges(), b, a))
    requires forall a: nat, b: nat :: a < h.numTasks && b < h.numTasks && h.Edge(a, b) && taskToSCC[a] != taskToSCC[b] ==>
               taskToSCC[b] < taskToSCC[a]
    ensures Numbered(DigraphOf(h), scc, numSCCs)
  {
    hide Hierarchy.Edge, Reach, Hierarchy.Valid;
    var d := DigraphOf(h);
    forall c: nat | c < numSCCs ensures Used(scc, c) {
      assert InUse(taskToSCC, c);
      var t: nat :| t < |taskToSCC| && taskToSCC[t] == c;
      assert scc[t] == c;
    }
    forall a, b | (a, b) in d.e ensures scc[b] <= scc[a] { assert h.Edge(a, b); }
  }

  ghost predicate Mutual(d: Digraph, a: nat, b: nat) {
    (a, b) in d.r && (b, a) in d.r
  }

  /** The component edges that the task edges in es give rise to. */
  ghost function LinksOf(scc: seq<nat>, es: Rel): (l: Rel) {
    set p | p in es && p.0 < |scc| && p.1 < |scc| && scc[p.0] != scc[p.1] :: (scc[p.0], scc[p.1])
  }

  /** The task edges met by the loops at 2402-2413 before position (t, mi, sj). */
  ghost function Met(h: Hierarchy, t: nat, seen: set<nat>): (es: Rel)
    requires h.Valid()
    ensures forall a: nat, b: nat :: (a, b) in es <==> (a < t && (a, b) in h.Edges()) || (a == t && b in seen)
  {
    (set p | p in h.Edges() && p.0 < t) + (set b | b in seen :: (t, b))
  }

  /** constructSCCGraph (2392-2465). */
  method ConstructSccGraph(h: Hierarchy, scc: seq<nat>, k: nat) returns (sccG: seq<set<nat>>, sccGinverse: seq<set<nat>>)
    requires h.Valid() && |scc| == h.numTasks
    requires forall t: nat :: t < h.numTasks ==> scc[t] < k
    ensures |sccG| == |sccGinverse| == k
    ensures forall i: nat :: i < k ==> sccG[i] == Heads(LinksOf(scc, h.Edges()), i)
    ensures forall i: nat :: i < k ==> sccGinverse[i] == Tails(LinksOf(scc, h.Edges()), i)
  {
    hide Hierarchy.Seen, Hierarchy.Edge, Hierarchy.Edges, Met, LinksOf;
    NothingMet(h, scc);
    var sccg := new set<nat>[k](_ => {});
    var sccg_rev := new set<nat>[k](_ => {});
    for iT := 0 to h.numTasks
      invariant Recorded(sccg, sccg_rev, LinksOf(scc, Met(h, iT, {})))
    {
      RecordTask(h, scc, k, iT, sccg, sccg_rev);
    }
    sccG, sccGinverse := sccg[..], sccg_rev[..];
    SameSets(sccG, sccGinverse, LinksOf(scc, h.Edges()), k);
  }

  lemma NothingMet(h: Hierarchy, scc: seq<nat>)
    requires h.Valid()
    ensures LinksOf(scc, Met(h, 0, {})) == {}
    ensures Met(h, h.numTasks, {}) == h.Edges()
  {
    assert Met(h, 0, {}) == {};
  }

  lemma SameSets(succ: seq<set<nat>>, pred: seq<set<nat>>, l: Rel, k: nat)
    requires |succ| == |pred| == k
    requires forall i: nat, j: nat :: i < k ==> (j in succ[i] <==> (i, j) in l)
    requires forall i: nat, j: nat :: j < k ==> (i in pred[j] <==> (i, j) in l)
    ensures forall i: nat :: i < k ==> succ[i] == Heads(l, i)
    ensures forall i: nat :: i < k ==> pred[i] == Tails(l, i)
  {
    forall i: nat | i < k ensures succ[i] == Heads(l, i) && pred[i] == Tails(l, i) {
    }
  }

  /** The loops over the methods of one task (2404-2413). */
  method RecordTask(h: Hierarchy, scc: seq<nat>, k: nat, iT: nat, sccg: array<set<nat>>, sccg_rev: array<set<nat>>)
    requires h.Valid() && |scc| == h.numTasks && sccg.Length == k
    requires forall t: nat :: t < h.numTasks ==> scc[t] < k
    requires iT < h.numTasks
    requires Recorded(sccg, sccg_rev, LinksOf(scc, Met(h, iT, {})))
    modifies sccg, sccg_rev
    ensures Recorded(sccg, sccg_rev, LinksOf(scc, Met(h, iT + 1, {})))
  {
    assert h.Seen(iT, 0, 0) == {};
    for iM := 0 to |h.taskToMethods[iT]|
      invariant Recorded(sccg, sccg_rev, LinksOf(scc, Met(h, iT, h.Seen(iT, iM, 0))))
    {
      RecordMethod(h, scc, k, iT, iM, sccg, sccg_rev);
    }
    assert Met(h, iT, h.Seen(iT, |h.taskToMethods[iT]|, 0)) == Met(h, iT + 1, {});
  }

  /** The innermost loop (2406-2412). */
  method RecordMethod(h: Hierarchy, scc: seq<nat>, k: nat, iT: nat, iM: nat, sccg: array<set<nat>>, sccg_rev: array<set<nat>>)
    requires h.Valid() && |scc| == h.numTasks && sccg.Length == k
    requires forall t: nat :: t < h.numTasks ==> scc[t] < k
    requires iT < h.numTasks && iM < |h.taskToMethods[iT]|
    requires Recorded(sccg, sccg_rev, LinksOf(scc, Met(h, iT, h.Seen(iT, iM, 0))))
    modifies sccg, sccg_rev
    ensures Recorded(sccg, sccg_rev, LinksOf(scc, Met(h, iT, h.Seen(iT, iM + 1, 0))))
  {
    var m := h.taskToMethods[iT][iM];
    for iST := 0 to |h.subTasks[m]|
      invariant Recorded(sccg, sccg_rev, LinksOf(scc, Met(h, iT, h.Seen(iT, iM, iST))))
    {
      var sub := h.subTasks[m][iST];
      SeenStep(h, iT, iM, iST);
      LinkStep(h, scc, iT, h.Seen(iT, iM, iST), sub);
      RecordLink(scc[iT], scc[sub], sccg, sccg_rev, LinksOf(scc, Met(h, iT, h.Seen(iT, iM, iST))));
    }
    SeenMethod(h, iT, iM);
  }

  method RecordLink(sccFrom: nat, sccTo: nat, sccg: array<set<nat>>, sccg_rev: array<set<nat>>, ghost l: Rel)
    requires Recorded(sccg, sccg_rev, l) && sccFrom < sccg.Length && sccTo < sccg.Length
    modifies sccg, sccg_rev
    ensures Recorded(sccg, sccg_rev, l + (if sccFrom != sccTo then {(sccFrom, sccTo)} else {}))
  {
    if sccFrom != sccTo {
      sccg[sccFrom] := sccg[sccFrom] + {sccTo};
      sccg_rev[sccTo] := sccg_rev[sccTo] + {sccFrom};
    }
  }

  ghost function Heads(l: Rel, i: nat): (s: set<nat>)
    ensures forall j :: j in s <==> (i, j) in l
  {
    set p | p in l && p.0 == i :: p.1
  }

  ghost function Tails(l: Rel, j: nat): (s: set<nat>)
    ensures forall i :: i in s <==> (i, j) in l
  {
    set p | p in l && p.1 == j :: p.0
  }

  ghost predicate Recorded(sccg: array<set<nat>>, rev: array<set<nat>>, l: Rel)
    reads sccg, rev
  {
    && sccg.Length == rev.Length && sccg != rev
    && (forall i: nat, j: nat :: i < sccg.Length ==> (j in sccg[i] <==> (i, j) in l))
    && (forall i: nat, j: nat :: j < rev.Length ==> (i in rev[j] <==> (i, j) in l))
  }

  lemma LinkStep(h: Hierarchy, scc: seq<nat>, t: nat, seen: set<nat>, sub: nat)
    requires h.Valid() && |scc| == h.numTasks && t < h.numTasks && sub < h.numTasks
    ensures LinksOf(scc, Met(h, t, seen + {sub})) ==
            LinksOf(scc, Met(h, t, seen)) + (if scc[t] != scc[sub] then {(scc[t], scc[sub])} else {})
  {
    var a, b := Met(h, t, seen + {sub}), Met(h, t, seen);
    assert a == b + {(t, sub)};
    forall q | q in LinksOf(scc, a)
      ensures q in LinksOf(scc, b) + (if scc[t] != scc[sub] then {(scc[t], scc[sub])} else {})
    {
      var p :| p in a && p.0 < |scc| && p.1 < |scc| && scc[p.0] != scc[p.1] && q == (scc[p.0], scc[p.1]);
      if p != (t, sub) { assert p in b; }
    }
    forall q | q in LinksOf(scc, b) ensures q in LinksOf(scc, a) {
      var p :| p in b && p.0 < |scc| && p.1 < |scc| && scc[p.0] != scc[p.1] && q == (scc[p.0], scc[p.1]);
      assert p in a;
    }
    if scc[t] != scc[sub] { assert (t, sub) in a; }
  }

  /** The inverse mapping (2296-2309). */
  method InverseMapping(scc: seq<nat>, k: nat) returns (sccToTasks: seq<set<nat>>)
    requires forall t :: 0 <= t < |scc| ==> scc[t] < k
    ensures |sccToTasks| == k
    ensures forall i: nat :: i < k ==> sccToTasks[i] == Members(scc, i)
  {
    var lists := new set<nat>[k](_ => {});
    for t: nat := 0 to |scc|
      invariant forall i: nat, x: nat :: i < k ==> (x in lists[i] <==> x in Members(scc, i) && x < t)
    {
      lists[scc[t]] := lists[scc[t]] + {t};
    }
    sccToTasks := lists[..];
  }

  ghost function Members(scc: seq<nat>, i: nat): (s: set<nat>)
    ensures forall t: nat :: t in s <==> t < |scc| && scc[t] == i
  {
    set t: nat | t < |scc| && scc[t] == i
  }

  // ----- reachability (2514-2590) -----

  /** Everything a task reaches lies in its own component or behind an edge that leaves it. */
  lemma LeavingEdge(d: Digraph, scc: seq<nat>, k: nat, x: nat, t: nat) returns (a: nat, b: nat)
    requires Numbered(d, scc, k) && (x, t) in d.r && x < d.n && t < d.n && scc[t] != scc[x]
    ensures (a, b) in d.e && a < d.n && b < d.n && scc[a] == scc[x] && scc[b] != scc[x] && (b, t) in d.r
  {
    var inside := set y: nat | y < d.n && scc[y] == scc[x];
    var behind := set y: nat | y < d.n && Behind(d, scc, x, y);
    forall p, q | (p, q) in d.e && p in inside + behind ensures q in inside + behind {
      if p in behind {
        var a', b' :| (a', b') in d.e && a' < |scc| && b' < |scc| && scc[a'] == scc[x] && scc[b'] != scc[x] && (b', p) in d.r;
        assert (b', q) in d.r;
        assert Behind(d, scc, x, q);
      } else if scc[q] != scc[x] {
        assert (q, q) in d.r;
        assert Behind(d, scc, x, q);
      }
    }
    assert ClosedSet(d.e, inside + behind);
    assert t in behind;
    a, b :| (a, b) in d.e && a < |scc| && b < |scc| && scc[a] == scc[x] && scc[b] != scc[x] && (b, t) in d.r;
  }

  ghost predicate Behind(d: Digraph, scc: seq<nat>, x: nat, y: nat)
    requires x < |scc|
  {
    exists a, b :: (a, b) in d.e && a < |scc| && b < |scc| && scc[a] == scc[x] && scc[b] != scc[x] && (b, y) in d.r
  }

  /** s holds exactly the tasks below last that x reaches. */
  ghost predicate IsReached(d: Digraph, x: nat, last: nat, s: set<nat>) {
    forall t: nat :: t in s <==> t < last && (x, t) in d.r
  }

  ghost predicate DoneFor(d: Digraph, scc: seq<nat>, last: nat, processed: set<nat>, reachable: array<set<nat>>)
    requires |scc| == d.n
    reads reachable
  {
    reachable.Length == d.n && forall x: nat :: x < d.n && scc[x] in processed ==> IsReached(d, x, last, reachable[x])
  }

  /** succ and pred are the two directions of one graph whose edges go down. */
  ghost predicate TwoWay(k: nat, succ: seq<set<nat>>, pred: seq<set<nat>>) {
    && |succ| == |pred| == k
    && (forall i: nat, j {:trigger j in succ[i]} :: i < k && j in succ[i] ==> j < i)
    && (forall i: nat, j {:trigger j in succ[i]} :: i < k && j in succ[i] ==> i in pred[j])
    && (forall j: nat, i {:trigger i in pred[j]} :: j < k && i in pred[j] ==> j < i < k && j in succ[i])
  }

  ghost predicate Counted(succ: seq<set<nat>>, processed: set<nat>, ready: array<int>)
    reads ready
  {
    ready.Length == |succ| && forall j: nat :: j < |succ| ==> ready[j] == |succ[j] - processed|
  }

  /** The stack lists the set pending without repetition. */
  ghost predicate Listing(stack: seq<int>, pending: set<nat>) {
    && |stack| == |pending|
    && (forall p :: 0 <= p < |stack| ==> stack[p] in pending)
    && (forall p, q :: 0 <= p < q < |stack| ==> stack[p] != stack[q])
  }

  /** pending are the unprocessed components that wait for nothing, apart from those in busy. */
  ghost predicate Pending(pending: set<nat>, ready: array<int>, processed: set<nat>, busy: set<nat>)
    reads ready
  {
    && pending !! busy
    && (forall c: nat :: c in pending || c in busy <==> c < ready.Length && c !in processed && ready[c] == 0)
  }

  /** The worklist of calcSCCGraph (2535-2590): reachable[t] becomes exactly the tasks below last that t
      reaches, itself included, and every component is taken from the stack exactly once. */
  method CalcReachability(ghost d: Digraph, scc: seq<nat>, k: nat, last: nat,
                          sccG: seq<set<nat>>, sccGinverse: seq<set<nat>>, sccToTasks: seq<set<nat>>)
    returns (reachable: array<set<nat>>, processedSCCs: nat)
    requires Numbered(d, scc, k)
    requires |sccG| == |sccGinverse| == |sccToTasks| == k
    requires forall i: nat :: i < k ==> sccG[i] == Heads(LinksOf(scc, d.e), i)
    requires forall i: nat :: i < k ==> sccGinverse[i] == Tails(LinksOf(scc, d.e), i)
    requires forall i: nat :: i < k ==> sccToTasks[i] == Members(scc, i)
    ensures fresh(reachable) && reachable.Length == d.n
    ensures forall x: nat :: x < d.n ==> IsReached(d, x, last, reachable[x])
    ensures processedSCCs == k
  {
    GraphFacts(d, scc, k, sccG, sccGinverse, sccToTasks);
    reachable, processedSCCs := ProcessAll(d, scc, k, last, sccG, sccGinverse, sccToTasks);
  }

  /** Every edge that leaves component i ends in a component of succ[i], all of which have tasks. */
  ghost predicate Succeeds(d: Digraph, scc: seq<nat>, k: nat, succ: seq<set<nat>>, members: seq<set<nat>>) {
    && |scc| == d.n && |succ| == |members| == k
    && (forall a, b :: (a, b) in d.e && a < d.n && b < d.n && scc[a] < k && scc[a] != scc[b] ==> scc[b] in succ[scc[a]])
    && (forall i: nat, t: nat {:trigger t in members[i]} :: i < k ==> (t in members[i] <==> t < d.n && scc[t] == i))
    && (forall i: nat, j :: i < k && j in succ[i] ==> HasEdge(d, scc, k, members, i, j))
  }

  ghost predicate HasEdge(d: Digraph, scc: seq<nat>, k: nat, members: seq<set<nat>>, i: nat, j: nat)
    requires |members| == k && i < k
  {
    j < k && exists a, b :: a in members[i] && b in members[j] && (a, b) in d.e
  }

  lemma GraphFacts(d: Digraph, scc: seq<nat>, k: nat, succ: seq<set<nat>>, pred: seq<set<nat>>, members: seq<set<nat>>)
    requires Numbered(d, scc, k)
    requires |succ| == |pred| == |members| == k
    requires forall i: nat :: i < k ==> succ[i] == Heads(LinksOf(scc, d.e), i)
    requires forall i: nat :: i < k ==> pred[i] == Tails(LinksOf(scc, d.e), i)
    requires forall i: nat :: i < k ==> members[i] == Members(scc, i)
    ensures TwoWay(k, succ, pred) && Succeeds(d, scc, k, succ, members)
  {
    var links := LinksOf(scc, d.e);
    assert forall i, j :: (i, j) in links ==> j < i < k;
    forall i: nat, j | i < k && j in succ[i] ensures HasEdge(d, scc, k, members, i, j) {
      var p :| p in d.e && p.0 < |scc| && p.1 < |scc| && scc[p.0] == i && scc[p.1] == j;
      assert p.0 in members[i] && p.1 in members[j] && (p.0, p.1) in d.e;
    }
    forall a, b | (a, b) in d.e && a < d.n && b < d.n && scc[a] != scc[b] ensures scc[b] in succ[scc[a]] {
      assert (scc[a], scc[b]) in links;
    }
  }

  method ProcessAll(ghost d: Digraph, scc: seq<nat>, k: nat, last: nat,
                    succ: seq<set<nat>>, pred: seq<set<nat>>, members: seq<set<nat>>)
    returns (reachable: array<set<nat>>, processedSCCs: nat)
    requires Numbered(d, scc, k) && TwoWay(k, succ, pred) && Succeeds(d, scc, k, succ, members)
    requires |scc| == d.n && |succ| == |pred| == |members| == k
    ensures fresh(reachable) && reachable.Length == d.n
    ensures forall x: nat :: x < d.n ==> IsReached(d, x, last, reachable[x])
    ensures processedSCCs == k
  {
    hide *;
    reachable := new set<nat>[|scc|];
    NoneDone(d, scc, last, reachable);
    var ready := new int[k];
    var stack, pending := InitialStack(succ, ready);
    processedSCCs := 0;
    ghost var processed: set<nat> := {};
    while stack != []
      invariant processed <= Upto(k) && processedSCCs == |processed|
      invariant Counted(succ, processed, ready)
      invariant Listing(stack, pending) && Pending(pending, ready, processed, {})
      invariant forall i :: i in processed ==> succ[i] <= processed
      invariant DoneFor(d, scc, last, processed, reachable)
      decreases Upto(k) - processed
    {
      var c := stack[|stack| - 1];
      TakeLast(succ, stack, pending, ready, processed);
      stack, pending := stack[..|stack| - 1], pending - {c};
      processedSCCs := processedSCCs + 1;
      WriteBack(d, scc, k, last, succ, members, c, reachable, processed);
      stack, pending := Release(k, succ, pred, c, ready, stack, pending, processed);
      processed := processed + {c};
    }
    NonePending(k, succ, pred, stack, pending, ready, processed);
    AllDone(d, scc, k, last, processed, reachable);
  }

  lemma AllDone(d: Digraph, scc: seq<nat>, k: nat, last: nat, processed: set<nat>, reachable: array<set<nat>>)
    requires Numbered(d, scc, k) && |scc| == d.n && processed == Upto(k)
    requires DoneFor(d, scc, last, processed, reachable)
    ensures reachable.Length == d.n
    ensures forall x: nat :: x < d.n ==> IsReached(d, x, last, reachable[x])
  {
  }

  lemma NonePending(k: nat, succ: seq<set<nat>>, pred: seq<set<nat>>, stack: seq<int>, pending: set<nat>, ready: array<int>, processed: set<nat>)
    requires TwoWay(k, succ, pred) && stack == []
    requires Counted(succ, processed, ready) && Listing(stack, pending) && Pending(pending, ready, processed, {})
    requires processed <= Upto(k)
    ensures processed == Upto(k)
  {
    assert pending == {};
    AllProcessed(k, succ, pred, processed, ready[..]);
  }

  lemma NoneDone(d: Digraph, scc: seq<nat>, last: nat, reachable: array<set<nat>>)
    requires |scc| == d.n == reachable.Length
    ensures DoneFor(d, scc, last, {}, reachable)
  {
  }

  /** The entry on top of the stack is unprocessed and waits for nothing (2541-2543). */
  lemma TakeLast(succ: seq<set<nat>>, stack: seq<int>, pending: set<nat>, ready: array<int>, processed: set<nat>)
    requires stack != [] && Counted(succ, processed, ready)
    requires Listing(stack, pending) && Pending(pending, ready, processed, {})
    ensures var c := stack[|stack| - 1];
            && 0 <= c < |succ| && c !in processed && succ[c] <= processed
            && Listing(stack[..|stack| - 1], pending - {c}) && Pending(pending - {c}, ready, processed, {c})
  {
    var c := stack[|stack| - 1];
    assert c in pending;
    var w := succ[c] - processed;
    assert w == {};
    assert forall j :: j in succ[c] && j !in processed ==> j in w;
  }

  /** A component that still waits has an unprocessed successor with a smaller number; so none is left. */
  lemma AllProcessed(k: nat, succ: seq<set<nat>>, pred: seq<set<nat>>, processed: set<nat>, ready: seq<int>)
    requires TwoWay(k, succ, pred) && |ready| == k
    requires forall j: nat :: j < k ==> ready[j] == |succ[j] - processed|
    requires forall c: nat :: c < k && c !in processed ==> ready[c] != 0
    ensures forall c: nat :: c < k ==> c in processed
  {
    for c: nat := 0 to k
      invariant forall b: nat :: b < c ==> b in processed
    {
      forall b | b in succ[c] ensures b in processed {
        assert b < c;
      }
      assert succ[c] - processed == {};
    }
  }

  /** Lines 2535-2539. */
  method InitialStack(succ: seq<set<nat>>, ready: array<int>) returns (stack: seq<int>, ghost pending: set<nat>)
    requires ready.Length == |succ|
    modifies ready
    ensures Counted(succ, {}, ready)
    ensures Listing(stack, pending) && Pending(pending, ready, {}, {})
  {
    stack, pending := [], {};
    for i: nat := 0 to |succ|
      invariant forall j: nat :: j < i ==> ready[j] == |succ[j]|
      invariant Listing(stack, pending)
      invariant forall c: nat :: c in pending <==> c < i && ready[c] == 0
    {
      ready[i] := |succ[i]|;
      if |succ[i]| == 0 {
        stack, pending := stack + [i], pending + {i};
      }
    }
    forall j: nat | j < |succ| ensures ready[j] == |succ[j] - {}| {
      assert succ[j] - {} == succ[j];
    }
  }

  /** Lines 2541-2567: collect what component c reaches and store it for each of its tasks. */
  method WriteBack(ghost d: Digraph, scc: seq<nat>, k: nat, last: nat, succ: seq<set<nat>>, members: seq<set<nat>>,
                   c: nat, reachable: array<set<nat>>, ghost processed: set<nat>)
    requires Numbered(d, scc, k) && Succeeds(d, scc, k, succ, members)
    requires c < k && c !in processed && succ[c] <= processed
    requires DoneFor(d, scc, last, processed, reachable)
    modifies reachable
    ensures DoneFor(d, scc, last, processed + {c}, reachable)
  {
    var tReachable := Collect(d, scc, k, last, succ, members, c, reachable);
    var rest := members[c];
    while rest != {}
      invariant rest <= members[c]
      invariant DoneFor(d, scc, last, processed, reachable)
      invariant forall x :: x in members[c] && x !in rest ==> reachable[x] == tReachable
    {
      var task :| task in rest;
      rest := rest - {task};
      reachable[task] := tReachable;
    }
    assert forall x: nat :: x < d.n && scc[x] == c ==> x in members[c];
  }

  /** Everything in s lies below last and is reached from all of own. */
  ghost predicate AllReach(d: Digraph, own: set<nat>, last: nat, s: set<nat>) {
    forall x, t :: x in own && t in s ==> t < last && (x, t) in d.r
  }

  /** s contains what the components in did reach. */
  ghost predicate Covers(d: Digraph, scc: seq<nat>, last: nat, did: set<nat>, s: set<nat>)
    requires |scc| == d.n
  {
    forall y: nat, t: nat :: y < d.n && scc[y] in did && t < last && (y, t) in d.r ==> t in s
  }

  /** Lines 2541-2557. */
  method Collect(ghost d: Digraph, scc: seq<nat>, ghost k: nat, last: nat, succ: seq<set<nat>>, members: seq<set<nat>>,
                 c: nat, reachable: array<set<nat>>)
    returns (tReachable: set<nat>)
    requires Numbered(d, scc, k) && Succeeds(d, scc, k, succ, members) && c < k
    requires DoneFor(d, scc, last, succ[c], reachable)
    ensures forall x :: x in members[c] ==> IsReached(d, x, last, tReachable)
  {
    tReachable := set t | t in members[c] && t < last;
    OwnTasksReach(d, scc, k, last, members[c], c, tReachable);
    var rest := succ[c];
    ghost var did: set<nat> := {};
    while rest != {}
      invariant did !! rest && did + rest == succ[c]
      invariant forall t :: t in members[c] && t < last ==> t in tReachable
      invariant AllReach(d, members[c], last, tReachable)
      invariant Covers(d, scc, last, did, tReachable)
    {
      var nextSCC :| nextSCC in rest;
      assert HasEdge(d, scc, k, members, c, nextSCC);
      var someTask :| someTask in members[nextSCC];
      SuccessorReach(d, scc, k, last, succ, members, c, nextSCC, someTask, reachable[someTask]);
      tReachable := tReachable + reachable[someTask];
      rest, did := rest - {nextSCC}, did + {nextSCC};
    }
    forall x | x in members[c] ensures IsReached(d, x, last, tReachable) {
      EverythingReached(d, scc, k, last, succ, members, x, tReachable);
    }
  }

  lemma OwnTasksReach(d: Digraph, scc: seq<nat>, k: nat, last: nat, own: set<nat>, c: nat, s: set<nat>)
    requires Numbered(d, scc, k)
    requires forall t :: t in own ==> t < d.n && scc[t] == c
    requires s <= own && forall t :: t in s ==> t < last
    ensures AllReach(d, own, last, s)
  {
    forall x, t | x in own && t in s ensures (x, t) in d.r {
      assert Mutual(d, x, t);
    }
  }

  /** What one task of a successor component reaches is what the whole component reaches, and c reaches it too. */
  lemma SuccessorReach(d: Digraph, scc: seq<nat>, k: nat, last: nat, succ: seq<set<nat>>, members: seq<set<nat>>,
                       c: nat, next: nat, y: nat, s: set<nat>)
    requires Numbered(d, scc, k) && Succeeds(d, scc, k, succ, members)
    requires c < k && next in succ[c] && next < k && y in members[next] && IsReached(d, y, last, s)
    ensures AllReach(d, members[c], last, s) && Covers(d, scc, last, {next}, s)
  {
    assert HasEdge(d, scc, k, members, c, next);
    var a, b :| a in members[c] && b in members[next] && (a, b) in d.e;
    assert (a, b) in d.r;
    forall x, t | x in members[c] && t in s ensures (x, t) in d.r {
      assert Mutual(d, x, a) && Mutual(d, b, y);
      assert (x, b) in d.r && (b, t) in d.r;
    }
    forall z: nat, t: nat | z < d.n && scc[z] in {next} && t < last && (z, t) in d.r ensures t in s {
      assert Mutual(d, y, z);
      assert (y, t) in d.r;
    }
  }

  lemma EverythingReached(d: Digraph, scc: seq<nat>, k: nat, last: nat, succ: seq<set<nat>>, members: seq<set<nat>>, x: nat, s: set<nat>)
    requires Numbered(d, scc, k) && Succeeds(d, scc, k, succ, members) && x < d.n
    requires AllReach(d, members[scc[x]], last, s) && Covers(d, scc, last, succ[scc[x]], s)
    requires forall t :: t in members[scc[x]] && t < last ==> t in s
    ensures IsReached(d, x, last, s)
  {
    forall t: nat | t < last && (x, t) in d.r ensures t in s {
      if scc[t] != scc[x] {
        var a, b := LeavingEdge(d, scc, k, x, t);
        assert scc[b] in succ[scc[x]];
      } else {
        assert t in members[scc[x]];
      }
    }
  }

  /** Lines 2570-2576: the predecessors wait for one component less, and those that now wait for none are pushed. */
  method Release(k: nat, ghost succ: seq<set<nat>>, pred: seq<set<nat>>, c: nat, ready: array<int>,
                 stack0: seq<int>, ghost pending0: set<nat>, ghost processed: set<nat>)
    returns (stack: seq<int>, ghost pending: set<nat>)
    requires TwoWay(k, succ, pred) && |succ| == |pred| == k && c < k && c !in processed
    requires forall i :: i in processed ==> i < k && succ[i] <= processed
    requires ready.Length == k && Counted(succ, processed, ready)
    requires Listing(stack0, pending0) && Pending(pending0, ready, processed, {c})
    modifies ready
    ensures Counted(succ, processed + {c}, ready)
    ensures Listing(stack, pending) && Pending(pending, ready, processed + {c}, {})
  {
    hide *;
    ghost var was := ready[..];
    CountedAs(succ, processed, ready);
    stack, pending := stack0, pending0;
    ghost var told: set<nat> := {};
    var rest := pred[c];
    while rest != {}
      invariant told !! rest && told + rest == pred[c]
      invariant forall j: nat :: j < k ==> ready[j] == was[j] - (if j in told then 1 else 0)
      invariant Listing(stack, pending) && Pending(pending, ready, processed, {c})
    {
      var q :| q in rest;
      rest, told := rest - {q}, told + {q};
      Waits(k, succ, pred, processed, c, q);
      stack, pending := Tell(q, c, ready, stack, pending, processed);
    }
    assert told == pred[c];
    AllTold(k, succ, pred, c, processed, was, ready);
    DoneWith(pending, ready, processed, c);
  }

  lemma CountedAs(succ: seq<set<nat>>, processed: set<nat>, ready: array<int>)
    requires Counted(succ, processed, ready)
    ensures ready.Length == |succ| && forall j: nat :: j < |succ| ==> ready[..][j] == |succ[j] - processed|
  {
  }

  lemma DoneWith(pending: set<nat>, ready: array<int>, processed: set<nat>, c: nat)
    requires Pending(pending, ready, processed, {c})
    ensures Pending(pending, ready, processed + {c}, {})
  {
    assert forall b :: b in pending ==> b !in {c};
  }

  lemma AllTold(k: nat, succ: seq<set<nat>>, pred: seq<set<nat>>, c: nat, processed: set<nat>, was: seq<int>, ready: array<int>)
    requires TwoWay(k, succ, pred) && |succ| == |pred| == |was| == ready.Length == k && c < k && c !in processed
    requires forall j: nat :: j < k ==> was[j] == |succ[j] - processed|
    requires forall j: nat :: j < k ==> ready[j] == was[j] - (if j in pred[c] then 1 else 0)
    ensures Counted(succ, processed + {c}, ready)
  {
    forall j: nat | j < k ensures ready[j] == |succ[j] - (processed + {c})| {
      OneLess(succ[j], processed, c);
      Transposed(k, succ, pred, c, j);
    }
  }

  lemma Transposed(k: nat, succ: seq<set<nat>>, pred: seq<set<nat>>, c: nat, j: nat)
    requires TwoWay(k, succ, pred) && c < k && j < k
    ensures j in pred[c] <==> c in succ[j]
  {
  }

  /** One predecessor learns that one of its successors is done (2571-2574). */
  method Tell(q: nat, ghost c: nat, ready: array<int>, stack0: seq<int>, ghost pending0: set<nat>, ghost processed: set<nat>)
    returns (stack: seq<int>, ghost pending: set<nat>)
    requires q < ready.Length && q != c && q !in processed && ready[q] > 0
    requires Listing(stack0, pending0) && Pending(pending0, ready, processed, {c})
    modifies ready
    ensures forall j :: 0 <= j < ready.Length ==> ready[j] == (if j == q then old(ready[j]) - 1 else old(ready[j]))
    ensures Listing(stack, pending) && Pending(pending, ready, processed, {c})
  {
    stack, pending := stack0, pending0;
    ready[q] := ready[q] - 1;
    if ready[q] == 0 {
      stack, pending := stack + [q], pending + {q};
    }
  }

  lemma Waits(k: nat, succ: seq<set<nat>>, pred: seq<set<nat>>, processed: set<nat>, c: nat, q: nat)
    requires TwoWay(k, succ, pred) && c < k && c !in processed && q in pred[c]
    requires forall i :: i in processed ==> i < k && succ[i] <= processed
    ensures q < k && q != c && q !in processed && |succ[q] - processed| > 0
  {
    assert c in succ[q] - processed;
  }

  lemma OneLess(s: set<nat>, processed: set<nat>, c: nat)
    requires c !in processed
    ensures |s - (processed + {c})| == |s - processed| - (if c in s then 1 else 0)
  {
    if c in s {
      assert s - processed == (s - (processed + {c})) + {c};
    } else {
      assert s - processed == s - (processed + {c});
    }
  }

  // ----- cycles (2311-2328, 2494-2502) -----

  /** y can be decomposed into a network that contains y again. */
  ghost predicate OnCycle(d: Digraph, y: nat) {
    exists z :: (y, z) in d.e && (z, y) in d.r
  }

  /** No task that x reaches lies on a cycle. */
  ghost predicate NoCycle(d: Digraph, x: nat) {
    forall y: nat :: (x, y) in d.r ==> !OnCycle(d, y)
  }

  /** A component is cyclic iff it has two tasks or its only task is a subtask of itself. */
  lemma CyclicComponent(d: Digraph, scc: seq<nat>, k: nat, own: set<nat>, x: nat)
    requires Numbered(d, scc, k) && x < d.n && own == Members(scc, scc[x])
    ensures OnCycle(d, x) <==> |own| > 1 || (x, x) in d.e
  {
    assert x in own;
    if OnCycle(d, x) && (x, x) !in d.e {
      var z :| (x, z) in d.e && (z, x) in d.r;
      assert Mutual(d, x, z);
      assert {x, z} <= own && x != z;
      TwoMembers(own, x, z);
    }
    if |own| > 1 {
      var y := Another(own, x);
      assert Mutual(d, x, y);
      FirstEdge(d, x, y);
    }
  }

  lemma TwoMembers(s: set<nat>, x: nat, y: nat)
    requires x in s && y in s && x != y
    ensures |s| > 1
  {
    var rest := s - {x};
    assert y in rest && s == rest + {x};
  }

  lemma Another(s: set<nat>, x: nat) returns (y: nat)
    requires x in s && |s| > 1
    ensures y in s && y != x
  {
    var rest := s - {x};
    assert |rest| > 0;
    y :| y in rest;
  }

  lemma FirstEdge(d: Digraph, x: nat, y: nat)
    requires d.Valid() && x < d.n && (x, y) in d.r && (y, x) in d.r && x != y
    ensures OnCycle(d, x)
  {
    var s := {x} + set p | p in d.r && (x, p.0) in d.e :: p.1;
    forall a, b | (a, b) in d.e && a in s ensures b in s {
      if a == x {
        assert (b, b) in d.r && (x, b) in d.e;
      } else {
        var p :| p in d.r && (x, p.0) in d.e && p.1 == a;
        assert (p.0, b) in d.r;
      }
    }
    assert ClosedSet(d.e, s);
    assert y in s;
    var p :| p in d.r && (x, p.0) in d.e && p.1 == y;
    assert (p.0, x) in d.r;
  }

  /** Lines 2311-2325: is task a subtask of one of its own methods? */
  method HasSelfLoop(h: Hierarchy, task: nat) returns (selfLoop: bool)
    requires h.Valid() && task < h.numTasks
    ensures selfLoop <==> (task, task) in h.Edges()
  {
    hide Hierarchy.Seen, Hierarchy.Edge;
    selfLoop := false;
    SeenNone(h, task);
    for mi := 0 to |h.taskToMethods[task]|
      invariant selfLoop <==> task in h.Seen(task, mi, 0)
    {
      var m := h.taskToMethods[task][mi];
      for ist := 0 to |h.subTasks[m]|
        invariant selfLoop <==> task in h.Seen(task, mi, ist)
      {
        SeenStep(h, task, mi, ist);
        if task == h.subTasks[m][ist] {
          selfLoop := true;
        }
      }
      SeenMethod(h, task, mi);
    }
    EdgeIsSeen(h, task);
  }

  lemma SeenNone(h: Hierarchy, task: nat)
    requires h.Valid() && task < h.numTasks
    ensures h.Seen(task, 0, 0) == {}
  {
  }

  lemma EdgeIsSeen(h: Hierarchy, task: nat)
    requires h.Valid() && task < h.numTasks
    ensures (task, task) in h.Edges() <==> task in h.Seen(task, |h.taskToMethods[task]|, 0)
  {
    assert (task, task) in h.Edges() <==> h.Edge(task, task);
  }

  /** sccsCyclic (2311-2328): exactly the components whose tasks lie on a cycle. */
  method CyclicComponents(h: Hierarchy, ghost d: Digraph, scc: seq<nat>, k: nat, sccToTasks: seq<set<nat>>) returns (sccsCyclic: set<nat>)
    requires h.Valid() && Numbered(d, scc, k) && d.n == h.numTasks && d.e == h.Edges()
    requires |sccToTasks| == k && |scc| == d.n
    requires forall i: nat :: i < k ==> sccToTasks[i] == Members(scc, i)
    ensures forall c :: c in sccsCyclic ==> c < k
    ensures forall x: nat :: x < d.n ==> (scc[x] in sccsCyclic <==> OnCycle(d, x))
  {
    hide *;
    sccsCyclic := {};
    for i: nat := 0 to k
      invariant forall c :: c in sccsCyclic ==> c < i
      invariant forall x: nat :: x < d.n && scc[x] < i ==> (scc[x] in sccsCyclic <==> OnCycle(d, x))
    {
      var cyclic := |sccToTasks[i]| > 1;
      ghost var x0: nat := 0;
      if |sccToTasks[i]| == 1 {
        var task :| task in sccToTasks[i];
        InMembers(scc, i, task);
        cyclic := HasSelfLoop(h, task);
        OnlyMember(d, scc, k, sccToTasks[i], task);
      }
      forall x: nat | x < d.n && scc[x] == i ensures cyclic <==> OnCycle(d, x) {
        InMembers(scc, i, x);
        CyclicComponent(d, scc, k, sccToTasks[i], x);
        if |sccToTasks[i]| == 1 {
          OnlyMember(d, scc, k, sccToTasks[i], x);
        }
      }
      if cyclic {
        sccsCyclic := sccsCyclic + {i};
      }
    }
    AllNumbered(d, scc, k);
  }

  lemma AllNumbered(d: Digraph, scc: seq<nat>, k: nat)
    requires Numbered(d, scc, k)
    ensures |scc| == d.n && forall x: nat :: x < d.n ==> scc[x] < k
  {
  }

  lemma InMembers(scc: seq<nat>, i: nat, x: nat)
    ensures x in Members(scc, i) <==> x < |scc| && scc[x] == i
  {
  }

  lemma OnlyMember(d: Digraph, scc: seq<nat>, k: nat, own: set<nat>, x: nat)
    requires |own| == 1 && x in own
    ensures own == {x}
  {
    forall z | z in own ensures z == x {
      if z != x { TwoMembers(own, x, z); }
    }
  }

  /** analyseSCCcyclicity (2488-2502): one pass over the components in the order of their numbers. */
  method AnalyseCyclicity(ghost d: Digraph, scc: seq<nat>, k: nat, sccG: seq<set<nat>>, ghost members: seq<set<nat>>, sccsCyclic: set<nat>)
    returns (sccIsAcyclic: array<bool>)
    requires Numbered(d, scc, k) && Succeeds(d, scc, k, sccG, members)
    requires |scc| == d.n && |sccG| == k
    requires forall i: nat, j {:trigger j in sccG[i]} :: i < k && j in sccG[i] ==> j < i
    requires forall x: nat :: x < d.n ==> (scc[x] in sccsCyclic <==> OnCycle(d, x))
    ensures sccIsAcyclic.Length == k
    ensures forall x: nat :: x < d.n ==> scc[x] < k && (sccIsAcyclic[scc[x]] <==> NoCycle(d, x))
  {
    hide *;
    sccIsAcyclic := new bool[k](i => i !in sccsCyclic);
    for i: nat := 0 to k
      invariant forall x: nat :: x < d.n && scc[x] < i ==> (sccIsAcyclic[scc[x]] <==> NoCycle(d, x))
      invariant forall j: nat :: i <= j < k ==> sccIsAcyclic[j] == (j !in sccsCyclic)
    {
      if sccIsAcyclic[i] {
        AndSuccessors(i, sccG[i], sccIsAcyclic);
      }
      forall x: nat | x < d.n && scc[x] == i ensures sccIsAcyclic[i] <==> NoCycle(d, x) {
        AcyclicStep(d, scc, k, sccG, members, sccsCyclic, x, sccIsAcyclic[..]);
      }
    }
    AllNumbered(d, scc, k);
  }

  method AndSuccessors(i: nat, succ: set<nat>, sccIsAcyclic: array<bool>)
    requires i < sccIsAcyclic.Length && sccIsAcyclic[i] && forall j :: j in succ ==> j < i
    modifies sccIsAcyclic
    ensures forall j: nat :: j < sccIsAcyclic.Length && j != i ==> sccIsAcyclic[j] == old(sccIsAcyclic[j])
    ensures sccIsAcyclic[i] <==> forall j :: j in succ ==> sccIsAcyclic[j]
  {
    var rest := succ;
    ghost var did: set<nat> := {};
    while rest != {} && sccIsAcyclic[i]
      invariant did + rest == succ
      invariant sccIsAcyclic[i] <==> forall j :: j in did ==> sccIsAcyclic[j]
      invariant forall j: nat :: j < sccIsAcyclic.Length && j != i ==> sccIsAcyclic[j] == old(sccIsAcyclic[j])
      decreases rest
    {
      var j :| j in rest;
      rest, did := rest - {j}, did + {j};
      sccIsAcyclic[i] := sccIsAcyclic[i] && sccIsAcyclic[j];
    }
  }

  /** x reaches no cycle iff its component is no cycle and no successor component reaches one. */
  lemma AcyclicStep(d: Digraph, scc: seq<nat>, k: nat, succ: seq<set<nat>>, members: seq<set<nat>>, cyclic: set<nat>, x: nat, acyclic: seq<bool>)
    requires Numbered(d, scc, k) && Succeeds(d, scc, k, succ, members) && x < d.n && |scc| == d.n && |acyclic| == k
    requires scc[x] < k && |succ| == k && forall j :: j in succ[scc[x]] ==> j < scc[x]
    requires forall y: nat :: y < d.n ==> (scc[y] in cyclic <==> OnCycle(d, y))
    requires forall y: nat :: y < d.n && scc[y] < scc[x] ==> (acyclic[scc[y]] <==> NoCycle(d, y))
    requires acyclic[scc[x]] <==> scc[x] !in cyclic && forall j :: j in succ[scc[x]] ==> acyclic[j]
    ensures acyclic[scc[x]] <==> NoCycle(d, x)
  {
    var i := scc[x];
    if acyclic[i] {
      forall y: nat | (x, y) in d.r ensures !OnCycle(d, y) {
        if scc[y] != i {
          var a, b := LeavingEdge(d, scc, k, x, y);
          assert scc[b] in succ[i];
          assert NoCycle(d, b);
        }
      }
    } else if i in cyclic {
      assert (x, x) in d.r;
    } else {
      var j :| j in succ[i] && !acyclic[j];
      assert HasEdge(d, scc, k, members, i, j);
      var a, b :| a in members[i] && b in members[j] && (a, b) in d.e;
      assert Mutual(d, x, a);
      assert (x, b) in d.r;
      assert !NoCycle(d, b);
      var y: nat :| (b, y) in d.r && OnCycle(d, y);
      assert (x, y) in d.r;
    }
  }
}
