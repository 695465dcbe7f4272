/** The visited list in total-order and in parallel-sequence mode (VisitedList.cpp:27-51, 150-155, 281-332, 380-427,
    507-558): a node is reported as new exactly when no earlier one had its state and its multiset of task sequences. */
module VisitedList {
  import opened Trie

  // ----- search nodes whose remaining steps form parallel sequences -----

  /** A step of the task network; the steps after it are its unfolding. */
  datatype Step = Step(id: nat, task: nat, successors: seq<Step>)

  /** containedTasks counts the tasks of all remaining steps. */
  datatype SearchNode = SearchNode(state: seq<bool>, unconstraintAbstract: seq<Step>, unconstraintPrimitive: seq<Step>,
                                   containedTasks: multiset<nat>)

  type Tasks = seq<nat>

  ghost predicate IsChain(s: Step) {
    |s.successors| <= 1 && (|s.successors| == 1 ==> IsChain(s.successors[0]))
  }

  ghost function Chain(s: Step): (r: seq<Step>)
    requires IsChain(s)
    ensures |r| > 0 && r[0] == s
    ensures forall i :: 0 <= i < |r| ==> IsChain(r[i]) && r[i].successors == if i + 1 < |r| then [r[i + 1]] else []
  {
    if s.successors == [] then [s] else
      assert s.successors == [s.successors[0]];
      [s] + Chain(s.successors[0])
  }

  ghost function TasksOf(steps: seq<Step>): (r: Tasks)
    ensures |r| == |steps| && forall i :: 0 <= i < |r| ==> r[i] == steps[i].task
  {
    seq(|steps|, i requires 0 <= i < |steps| => steps[i].task)
  }

  /** The tasks of the sequence that begins with s. */
  ghost function Sequence(s: Step): Tasks
    requires IsChain(s)
  {
    TasksOf(Chain(s))
  }

  ghost predicate Chains(steps: seq<Step>) {
    forall i :: 0 <= i < |steps| ==> IsChain(steps[i])
  }

  ghost function Sequences(steps: seq<Step>): (r: seq<Tasks>)
    requires Chains(steps)
    ensures |r| == |steps| && forall i :: 0 <= i < |r| ==> r[i] == Sequence(steps[i])
  {
    seq(|steps|, i requires 0 <= i < |steps| => Sequence(steps[i]))
  }

  /** to_dfs (150-155): appends the tasks of the sequence. */
  method ToDfs(s: Step, seq0: Tasks) returns (seq1: Tasks)
    requires IsChain(s)
    ensures seq1 == seq0 + Sequence(s)
    decreases s
  {
    seq1 := seq0 + [s.task];
    if |s.successors| == 0 {
      assert Sequence(s) == [s.task];
    } else {
      assert s.successors == [s.successors[0]];
      assert Sequence(s) == [s.task] + Sequence(s.successors[0]);
      seq1 := ToDfs(s.successors[0], seq1);
    }
  }

  // ----- the order of sequences -----

  /** Lexicographic order of vectors. */
  predicate Leq(a: Tasks, b: Tasks) {
    a == [] || (b != [] && (a[0] < b[0] || (a[0] == b[0] && Leq(a[1..], b[1..]))))
  }

  lemma {:induction false} LeqTotal(a: Tasks, b: Tasks)
    ensures Leq(a, b) || Leq(b, a)
    ensures Leq(a, b) && Leq(b, a) ==> a == b
  {
    if a != [] && b != [] && a[0] == b[0] {
      LeqTotal(a[1..], b[1..]);
      assert a == [a[0]] + a[1..] && b == [b[0]] + b[1..];
    }
  }

  lemma {:induction false} LeqTransitive(a: Tasks, b: Tasks, c: Tasks)
    requires Leq(a, b) && Leq(b, c)
    ensures Leq(a, c)
  {
    if a != [] && a[0] == b[0] && b[0] == c[0] {
      LeqTransitive(a[1..], b[1..], c[1..]);
    }
  }

  ghost predicate IsSorted(s: seq<Tasks>) {
    forall i, j :: 0 <= i <= j < |s| ==> Leq(s[i], s[j])
  }

  function Place(x: Tasks, s: seq<Tasks>): (r: seq<Tasks>) {
    if s == [] || Leq(x, s[0]) then [x] + s else [s[0]] + Place(x, s[1..])
  }

  /** What std::sort makes of the sequences. */
  function Sort(s: seq<Tasks>): (r: seq<Tasks>) {
    if s == [] then [] else Place(s[0], Sort(s[1..]))
  }

  lemma {:induction false} PlaceSorted(x: Tasks, s: seq<Tasks>)
    requires IsSorted(s)
    ensures IsSorted(Place(x, s)) && multiset(Place(x, s)) == multiset(s) + multiset{x}
  {
    hide Leq;
    if s == [] || Leq(x, s[0]) {
      var r := [x] + s;
      forall i, j | 0 <= i <= j < |r| ensures Leq(r[i], r[j]) {
        LeqTotal(x, x);
        if i == 0 < j { LeqTransitive(x, s[0], s[j - 1]); }
      }
    } else {
      PlaceSorted(x, s[1..]);
      assert s == [s[0]] + s[1..];
      LeqTotal(x, s[0]);
      LeqTotal(s[0], s[0]);
      var t := Place(x, s[1..]);
      var r := [s[0]] + t;
      forall i, j | 0 <= i <= j < |r| ensures Leq(r[i], r[j]) {
        if i == 0 < j {
          assert t[j - 1] in multiset(t);
          assert t[j - 1] == x || t[j - 1] in s[1..];
        }
      }
    }
  }

  lemma {:induction false} SortSorts(s: seq<Tasks>)
    ensures IsSorted(Sort(s)) && multiset(Sort(s)) == multiset(s)
  {
    if s != [] {
      SortSorts(s[1..]);
      PlaceSorted(s[0], Sort(s[1..]));
      assert s == [s[0]] + s[1..];
    }
  }

  /** There is one sorted list for a multiset. */
  lemma {:induction false} SortedUnique(a: seq<Tasks>, b: seq<Tasks>)
    requires IsSorted(a) && IsSorted(b) && multiset(a) == multiset(b)
    ensures a == b
  {
    hide Leq;
    if a == [] {
      assert |multiset(b)| == 0;
    } else {
      assert a[0] in multiset(b) && |multiset(b)| > 0;
      assert b[0] in multiset(a);
      var i :| 0 <= i < |b| && b[i] == a[0];
      var j :| 0 <= j < |a| && a[j] == b[0];
      LeqTotal(a[0], b[0]);
      assert a == [a[0]] + a[1..] && b == [b[0]] + b[1..];
      assert multiset(a[1..]) == multiset(a) - multiset{a[0]};
      assert multiset(b[1..]) == multiset(b) - multiset{b[0]};
      SortedUnique(a[1..], b[1..]);
    }
  }

  /** Sorting forgets exactly the order of the list. */
  lemma SortCanonical(a: seq<Tasks>, b: seq<Tasks>)
    ensures Sort(a) == Sort(b) <==> multiset(a) == multiset(b)
  {
    SortSorts(a);
    SortSorts(b);
    if multiset(a) == multiset(b) { SortedUnique(Sort(a), Sort(b)); }
  }

  // ----- one list of task numbers for a node -----

  /** The sequences one after the other, the number sep between them. */
  function Join(s: seq<Tasks>, sep: nat): Tasks {
    if s == [] then [] else if |s| == 1 then s[0] else s[0] + [sep] + Join(s[1..], sep)
  }

  ghost predicate Below(s: Tasks, sep: nat) {
    forall i :: 0 <= i < |s| ==> s[i] < sep
  }

  ghost predicate Proper(s: seq<Tasks>, sep: nat) {
    forall i :: 0 <= i < |s| ==> s[i] != [] && Below(s[i], sep)
  }

  lemma JoinBounded(s: seq<Tasks>, sep: nat)
    requires Proper(s, sep)
    ensures forall i :: 0 <= i < |Join(s, sep)| ==> Join(s, sep)[i] <= sep
    ensures s != [] ==> Join(s, sep) != []
  {
  }

  lemma NotShorter(a: Tasks, x: Tasks, b: Tasks, y: Tasks, sep: nat)
    requires Below(b, sep) && a + x == b + y && (x != [] ==> x[0] == sep)
    ensures |a| >= |b|
  {
    var c := a + x;
    assert x == c[|a|..] && b == c[..|b|];
  }

  /** Two lists that start below sep and go on with sep, or end. */
  lemma FirstPart(a: Tasks, x: Tasks, b: Tasks, y: Tasks, sep: nat)
    requires Below(a, sep) && Below(b, sep) && a + x == b + y
    requires (x != [] ==> x[0] == sep) && (y != [] ==> y[0] == sep)
    ensures a == b && x == y
  {
    NotShorter(a, x, b, y, sep);
    NotShorter(b, y, a, x, sep);
    assert a == (a + x)[..|a|] && b == (b + y)[..|b|];
    assert x == (a + x)[|a|..] && y == (b + y)[|b|..];
  }

  /** The separator number makes the joined list readable again. */
  lemma {:induction false} JoinInjective(s: seq<Tasks>, t: seq<Tasks>, sep: nat)
    requires Proper(s, sep) && Proper(t, sep) && Join(s, sep) == Join(t, sep)
    ensures s == t
  {
    if s == [] || t == [] {
      JoinBounded(s, sep);
      JoinBounded(t, sep);
    } else {
      var x := if |s| == 1 then [] else [sep] + Join(s[1..], sep);
      var y := if |t| == 1 then [] else [sep] + Join(t[1..], sep);
      assert Join(s, sep) == s[0] + x && Join(t, sep) == t[0] + y;
      FirstPart(s[0], x, t[0], y, sep);
      JoinBounded(s[1..], sep);
      JoinBounded(t[1..], sep);
      if |s| > 1 && |t| > 1 {
        assert Join(s[1..], sep) == x[1..] && Join(t[1..], sep) == y[1..];
        JoinInjective(s[1..], t[1..], sep);
        assert s == [s[0]] + s[1..] && t == [t[0]] + t[1..];
      } else {
        assert |s| == |t| == 1;
      }
    }
  }

  // ----- numbers as bits -----

  /** task & (1 << bit), read as a truth value. */
  function BitOf(task: nat, bit: nat): bool {
    if bit == 0 then task % 2 == 1 else BitOf(task / 2, bit - 1)
  }

  /** 32 - __builtin_clz(x). */
  function BitLength(x: nat): nat {
    if x == 0 then 0 else 1 + BitLength(x / 2)
  }

  /** The number of bits needed for the largest number tells all smaller ones apart. */
  lemma {:induction false} BitsTell(u: nat, v: nat, x: nat)
    requires u <= x && v <= x && forall b: nat :: b < BitLength(x) ==> BitOf(u, b) == BitOf(v, b)
    ensures u == v
  {
    if x > 0 {
      forall b: nat | b < BitLength(x / 2) ensures BitOf(u / 2, b) == BitOf(v / 2, b) {
        assert BitOf(u, b + 1) == BitOf(v, b + 1);
      }
      BitsTell(u / 2, v / 2, x / 2);
      assert BitOf(u, 0) == BitOf(v, 0);
    }
  }

  function Bin(task: nat, width: nat): (r: Bits)
    ensures |r| == width && forall b :: 0 <= b < width ==> r[b] == BitOf(task, b)
  {
    seq(width, b requires 0 <= b < width => BitOf(task, b))
  }

  function Encode(tasks: Tasks, width: nat): (r: Bits)
    ensures |r| == |tasks| * width
  {
    if tasks == [] then [] else Encode(tasks[..|tasks| - 1], width) + Bin(tasks[|tasks| - 1], width)
  }

  lemma {:induction false} EncodeInjective(s: Tasks, t: Tasks, max: nat)
    requires max > 0 && Encode(s, BitLength(max)) == Encode(t, BitLength(max))
    requires (forall i :: 0 <= i < |s| ==> s[i] <= max) && (forall i :: 0 <= i < |t| ==> t[i] <= max)
    ensures s == t
    decreases |s|
  {
    var w := BitLength(max);
    SameCount(|s|, |t|, w);
    if s != [] {
      var n := |s| - 1;
      var a, b := Encode(s, w), Encode(t, w);
      assert Encode(s[..n], w) == a[..n * w] && Encode(t[..n], w) == b[..n * w];
      assert Bin(s[n], w) == a[n * w..] && Bin(t[n], w) == b[n * w..];
      forall k: nat | k < w ensures BitOf(s[n], k) == BitOf(t[n], k) {
        assert Bin(s[n], w)[k] == Bin(t[n], w)[k];
      }
      BitsTell(s[n], t[n], max);
      EncodeInjective(s[..n], t[..n], max);
      assert s == s[..n] + [s[n]] && t == t[..n] + [t[n]];
    }
  }

  lemma SameCount(m: nat, n: nat, w: nat)
    requires w > 0 && m * w == n * w
    ensures m == n
  {
    if m < n { LessTimes(m, n, w); }
    if n < m { LessTimes(n, m, w); }
  }

  lemma LessTimes(m: nat, n: nat, w: nat)
    requires m < n && w > 0
    ensures m * w < n * w
  {
    assert (m + 1) * w <= n * w;
  }

  /** The inner loop of lines 425-426. */
  method PushTask(bits0: Bits, task: nat, bitsNeededPerTask: nat) returns (bits: Bits)
    ensures bits == bits0 + Bin(task, bitsNeededPerTask)
  {
    bits := bits0;
    for bit := 0 to bitsNeededPerTask
      invariant bits == bits0 + Bin(task, bitsNeededPerTask)[..bit]
    {
      bits := bits + [BitOf(task, bit)];
    }
  }

  /** Lines 423-426. */
  method PushTasks(bits0: Bits, tasks: Tasks, bitsNeededPerTask: nat) returns (bits: Bits)
    ensures bits == bits0 + Encode(tasks, bitsNeededPerTask)
  {
    bits := bits0;
    for i := 0 to |tasks|
      invariant bits == bits0 + Encode(tasks[..i], bitsNeededPerTask)
    {
      assert tasks[..i + 1][..i] == tasks[..i];
      bits := PushTask(bits, tasks[i], bitsNeededPerTask);
    }
    assert tasks[..|tasks|] == tasks;
  }

  // ----- bits as words -----

  /** state2Int (27-51): the trie reads back exactly the bit string. */
  method State2Int(state: Bits) returns (vec: seq<Bits>, padding: nat)
    requires 0 < |state| <= 64 * 0xFFFF
    ensures Padded(vec, padding) && Key(vec, padding) == state
    ensures padding == 0 <==> |state| % 64 == 0
  {
    hide Key;
    var pos := 0;
    var cur := seq(64, _ => false);
    vec := [];
    for i := 0 to |state|
      invariant i == 64 * |vec| + pos && pos < 64 && |cur| == 64
      invariant Words(vec)
      invariant forall w: nat, j: nat :: w < |vec| && j < 64 ==> vec[w][j] == state[64 * w + j]
      invariant forall j: nat :: j < 64 ==> cur[j] == (j < pos && state[64 * |vec| + j])
    {
      if state[i] { cur := cur[pos := true]; }
      pos := pos + 1;
      if pos == 64 {
        vec := vec + [cur];
        pos := 0;
        cur := seq(64, _ => false);
      }
    }
    padding := 0;
    if pos != 0 {
      vec := vec + [cur];
      padding := 64 - pos;
    }
    ReadsBack(state, vec, padding);
  }

  lemma ReadsBack(state: Bits, vec: seq<Bits>, padding: nat)
    requires 0 < |state| <= 64 * 0xFFFF && Words(vec) && padding < 64 && |state| == 64 * |vec| - padding
    requires forall w: nat, j: nat :: w < |vec| && j < 64 ==> vec[w][j] == (64 * w + j < |state| && state[64 * w + j])
    ensures Padded(vec, padding) && Key(vec, padding) == state
  {
    var k := |vec| - 1;
    forall j: nat | j < 64 ensures vec[k][j] == IgnoreLast(vec[k], padding)[j] {
      assert vec[k][j] == (64 * k + j < |state| && state[64 * k + j]);
    }
    assert vec[k] == IgnoreLast(vec[k], padding);
    forall i: nat | i < |state| ensures Key(vec, padding)[i] == state[i] {
      assert vec[i / 64][i % 64] == (64 * (i / 64) + i % 64 < |state| && state[64 * (i / 64) + i % 64]);
    }
  }

  // ----- what identifies a node -----

  /** Settings of the list: number of tasks and state bits, mode, hash function (VisitedList.cpp:82-105). */
  datatype Config = Config(numTasks: nat, numStateBits: nat, useTotalOrderMode: bool, useSequencesMode: bool,
                           hash: (Bits, multiset<nat>, Tasks) -> nat)
  {
    ghost predicate Valid() {
      numTasks >= 2 && numStateBits > 0 && (useTotalOrderMode || useSequencesMode)
    }

    /** The largest number that is written: in sequence mode the number of tasks serves as separator. */
    function Largest(): nat
      requires numTasks >= 2
    {
      if useSequencesMode then numTasks else numTasks - 1
    }

    function BitsNeededPerTask(): nat
      requires numTasks >= 2
    {
      BitLength(Largest())
    }
  }

  ghost function Heads(n: SearchNode): seq<Step> {
    n.unconstraintAbstract + n.unconstraintPrimitive
  }

  ghost function Concat(s: seq<Tasks>): Tasks {
    if s == [] then [] else s[0] + Concat(s[1..])
  }

  /** The remaining steps form chains, a single one in total-order mode. */
  ghost predicate NodeOk(c: Config, n: SearchNode)
    requires c.Valid()
  {
    && |n.state| == c.numStateBits
    && Chains(Heads(n))
    && Proper(Sequences(Heads(n)), c.numTasks)
    && (c.useTotalOrderMode ==> |Heads(n)| <= 1 && forall h :: h in Heads(n) ==> DistinctIds(Chain(h)))
    && n.containedTasks == multiset(Concat(Sequences(Heads(n))))
    && |Code(c, n)| <= 64 * 0xFFFF
  }

  ghost predicate DistinctIds(steps: seq<Step>) {
    forall i, j :: 0 <= i < j < |steps| ==> steps[i].id != steps[j].id
  }

  /** sequenceForHashing: in total-order mode alone the chain, in sequence mode the joined sequences, in both modes the
      chain in front of them (395-421). */
  ghost function Listing(c: Config, n: SearchNode): Tasks
    requires c.Valid() && Chains(Heads(n))
  {
    (if c.useTotalOrderMode then Concat(Sequences(Heads(n))) else [])
    + (if c.useSequencesMode then Join(Sort(Sequences(Heads(n))), c.numTasks) else [])
  }

  ghost function Code(c: Config, n: SearchNode): Bits
    requires c.Valid() && Chains(Heads(n))
  {
    n.state + Encode(Listing(c, n), c.BitsNeededPerTask())
  }

  /** Same state and same multiset of task sequences. */
  ghost predicate Same(m: SearchNode, n: SearchNode)
    requires Chains(Heads(m)) && Chains(Heads(n))
  {
    m.state == n.state && multiset(Sequences(Heads(m))) == multiset(Sequences(Heads(n)))
  }

  lemma ListingBounded(c: Config, n: SearchNode)
    requires c.Valid() && NodeOk(c, n)
    ensures forall i :: 0 <= i < |Listing(c, n)| ==> Listing(c, n)[i] <= c.Largest()
  {
    var s := Sequences(Heads(n));
    SortSorts(s);
    assert Proper(Sort(s), c.numTasks) by { SortProper(s, c.numTasks); }
    JoinBounded(Sort(s), c.numTasks);
    if c.useTotalOrderMode {
      if |s| == 1 { OneConcat(s); }
    }
  }

  lemma OneConcat(s: seq<Tasks>)
    requires |s| == 1
    ensures Concat(s) == s[0] && Sort(s) == s
  {
    assert s == [s[0]] && Concat(s[1..]) == [] && Sort(s[1..]) == [];
    assert Concat(s) == s[0] + Concat(s[1..]);
    assert Sort(s) == Place(s[0], Sort(s[1..]));
  }

  lemma SortProper(s: seq<Tasks>, sep: nat)
    requires Proper(s, sep)
    ensures Proper(Sort(s), sep)
  {
    SortSorts(s);
    forall i | 0 <= i < |Sort(s)| ensures Sort(s)[i] != [] && Below(Sort(s)[i], sep) {
      assert Sort(s)[i] in multiset(Sort(s));
      assert Sort(s)[i] in s;
    }
  }

  /** The listing determines the multiset of sequences. */
  lemma ListingTells(c: Config, m: SearchNode, n: SearchNode)
    requires c.Valid() && NodeOk(c, m) && NodeOk(c, n)
    ensures Listing(c, m) == Listing(c, n) <==> multiset(Sequences(Heads(m))) == multiset(Sequences(Heads(n)))
  {
    var s, t := Sequences(Heads(m)), Sequences(Heads(n));
    SequencesTell(c, s, t, Listing(c, m), Listing(c, n));
  }

  lemma SequencesTell(c: Config, s: seq<Tasks>, t: seq<Tasks>, x: Tasks, y: Tasks)
    requires Proper(s, c.numTasks) && Proper(t, c.numTasks) && (c.useTotalOrderMode || c.useSequencesMode)
    requires c.useTotalOrderMode ==> |s| <= 1 && |t| <= 1
    requires x == (if c.useTotalOrderMode then Concat(s) else []) + (if c.useSequencesMode then Join(Sort(s), c.numTasks) else [])
    requires y == (if c.useTotalOrderMode then Concat(t) else []) + (if c.useSequencesMode then Join(Sort(t), c.numTasks) else [])
    ensures x == y <==> multiset(s) == multiset(t)
  {
    hide Sort, Concat, Join, Proper;
    SortCanonical(s, t);
    if c.useTotalOrderMode {
      Short(s);
      Short(t);
      if x == y { ChainTells(c, s, t); }
    } else {
      assert x == Join(Sort(s), c.numTasks) && y == Join(Sort(t), c.numTasks);
      SortProper(s, c.numTasks);
      SortProper(t, c.numTasks);
      if x == y { JoinInjective(Sort(s), Sort(t), c.numTasks); }
    }
  }

  lemma Short(s: seq<Tasks>)
    requires |s| <= 1
    ensures Sort(s) == s
  {
    if |s| == 1 { OneConcat(s); }
  }

  /** At most one sequence, written once or twice. */
  lemma ChainTells(c: Config, s: seq<Tasks>, t: seq<Tasks>)
    requires |s| <= 1 && |t| <= 1 && Proper(s, c.numTasks) && Proper(t, c.numTasks) && Sort(s) == s && Sort(t) == t
    requires Concat(s) + (if c.useSequencesMode then Join(Sort(s), c.numTasks) else []) == Concat(t) + (if c.useSequencesMode then Join(Sort(t), c.numTasks) else [])
    ensures s == t
  {
    var x, y := if s == [] then [] else s[0], if t == [] then [] else t[0];
    if s != [] { OneConcat(s); }
    if t != [] { OneConcat(t); }
    assert Concat(s) == x && Concat(t) == y && Join(s, c.numTasks) == x && Join(t, c.numTasks) == y;
    if c.useSequencesMode {
      Doubled(x, y);
    }
    assert x == y;
    assert s == (if x == [] then [] else [x]) && t == (if y == [] then [] else [y]);
  }

  lemma Doubled(x: Tasks, y: Tasks)
    requires x + x == y + y
    ensures x == y
  {
    assert |x + x| == |y + y|;
    assert x == (x + x)[..|x|] && y == (y + y)[..|y|];
  }

  /** The bit string of a node is the same for two nodes exactly when state and multiset of sequences are. */
  lemma CodeTells(c: Config, m: SearchNode, n: SearchNode)
    requires c.Valid() && NodeOk(c, m) && NodeOk(c, n)
    ensures Code(c, m) == Code(c, n) <==> Same(m, n)
  {
    var w := c.BitsNeededPerTask();
    ListingTells(c, m, n);
    if Code(c, m) == Code(c, n) {
      assert m.state == Code(c, m)[..c.numStateBits] && n.state == Code(c, n)[..c.numStateBits];
      assert Encode(Listing(c, m), w) == Code(c, m)[c.numStateBits..] && Encode(Listing(c, n), w) == Code(c, n)[c.numStateBits..];
      ListingBounded(c, m);
      ListingBounded(c, n);
      EncodeInjective(Listing(c, m), Listing(c, n), c.Largest());
    }
  }

  lemma PlaceCounts(x: Tasks, s: seq<Tasks>)
    ensures multiset(Concat(Place(x, s))) == multiset(x) + multiset(Concat(s))
  {
    if s == [] || Leq(x, s[0]) {
      assert ([x] + s)[1..] == s;
    } else {
      PlaceCounts(x, s[1..]);
      assert ([s[0]] + Place(x, s[1..]))[1..] == Place(x, s[1..]);
    }
  }

  lemma SortCounts(s: seq<Tasks>)
    ensures multiset(Concat(Sort(s))) == multiset(Concat(s))
  {
    if s != [] {
      SortCounts(s[1..]);
      PlaceCounts(s[0], Sort(s[1..]));
    }
  }

  /** Whatever the hash function, equal nodes get equal hashes. */
  ghost function HashOf(c: Config, n: SearchNode): nat
    requires c.Valid() && Chains(Heads(n))
  {
    c.hash(n.state, n.containedTasks, Listing(c, n))
  }

  lemma SameHash(c: Config, m: SearchNode, n: SearchNode)
    requires c.Valid() && NodeOk(c, m) && NodeOk(c, n) && Same(m, n)
    ensures HashOf(c, m) == HashOf(c, n)
  {
    var s, t := Sequences(Heads(m)), Sequences(Heads(n));
    ListingTells(c, m, n);
    SortCanonical(s, t);
    SortCounts(s);
    SortCounts(t);
  }

  // ----- topSort (281-332) on a single chain -----

  type Links = map<nat, set<nat>>

  /** operator[] of std::map. */
  function At(m: Links, k: nat): set<nat> {
    if k in m then m[k] else {}
  }

  ghost function NextId(chain: seq<Step>, k: nat, i: nat): set<nat> {
    if k < i && k + 1 < |chain| then {chain[k + 1].id} else {}
  }

  ghost function PreviousId(chain: seq<Step>, k: nat, i: nat): set<nat>
    requires 0 < k < |chain|
  {
    if k <= i then {chain[k - 1].id} else {}
  }

  ghost predicate SuccessorsLinked(chain: seq<Step>, i: nat, successors: Links) {
    forall k: nat :: k < |chain| ==> At(successors, chain[k].id) == NextId(chain, k, i)
  }

  ghost predicate PredecessorsLinked(chain: seq<Step>, i: nat, predecessors: Links) {
    forall k: nat :: 0 < k < |chain| ==> At(predecessors, chain[k].id) == PreviousId(chain, k, i)
  }

  ghost predicate TasksKnown(chain: seq<Step>, i: nat, idToTask: map<nat, nat>) {
    && (forall k: nat :: k < i && k < |chain| ==> chain[k].id in idToTask && idToTask[chain[k].id] == chain[k].task)
    && (forall k: nat :: i <= k < |chain| ==> chain[k].id !in idToTask)
  }

  /** The first i steps of the chain have been entered in the maps. */
  ghost predicate Linked(chain: seq<Step>, i: nat, successors: Links, predecessors: Links, idToTask: map<nat, nat>) {
    SuccessorsLinked(chain, i, successors) && PredecessorsLinked(chain, i, predecessors) && TasksKnown(chain, i, idToTask)
  }

  lemma LinkSuccessor(chain: seq<Step>, i: nat, successors: Links)
    requires i < |chain| && DistinctIds(chain) && SuccessorsLinked(chain, i, successors)
    ensures i + 1 == |chain| ==> SuccessorsLinked(chain, i + 1, successors)
    ensures i + 1 < |chain| ==> SuccessorsLinked(chain, i + 1, successors[chain[i].id := At(successors, chain[i].id) + {chain[i + 1].id}])
  {
  }

  lemma LinkPredecessor(chain: seq<Step>, i: nat, predecessors: Links)
    requires i < |chain| && DistinctIds(chain) && PredecessorsLinked(chain, i, predecessors)
    ensures i + 1 == |chain| ==> PredecessorsLinked(chain, i + 1, predecessors)
    ensures i + 1 < |chain| ==> PredecessorsLinked(chain, i + 1, predecessors[chain[i + 1].id := At(predecessors, chain[i + 1].id) + {chain[i].id}])
  {
  }

  lemma LinkTask(chain: seq<Step>, i: nat, idToTask: map<nat, nat>)
    requires i < |chain| && DistinctIds(chain) && TasksKnown(chain, i, idToTask)
    ensures chain[i].id !in idToTask && TasksKnown(chain, i + 1, idToTask[chain[i].id := chain[i].task])
  {
  }

  /** Lines 288-316: the maps over all steps behind the head. */
  method Collect(head: Step) returns (successors: Links, predecessors: Links, idToTask: map<nat, nat>)
    requires IsChain(head) && DistinctIds(Chain(head))
    ensures Linked(Chain(head), |Chain(head)|, successors, predecessors, idToTask)
  {
    hide SuccessorsLinked, PredecessorsLinked, TasksKnown, At;
    ghost var chain := Chain(head);
    ghost var i := 0;
    successors, predecessors, idToTask := map[], map[], map[];
    var todo := [head];
    NothingLinked(chain);
    while |todo| > 0
      invariant i <= |chain| && todo == if i < |chain| then [chain[i]] else []
      invariant Linked(chain, i, successors, predecessors, idToTask)
      decreases |chain| - i
    {
      var ps := todo[0];
      todo := todo[1..];
      LinkSuccessor(chain, i, successors);
      LinkPredecessor(chain, i, predecessors);
      LinkTask(chain, i, idToTask);
      assert ps.successors == if i + 1 < |chain| then [chain[i + 1]] else [];
      if ps.id !in idToTask {
        idToTask := idToTask[ps.id := ps.task];
        if |ps.successors| > 0 {
          var succ := ps.successors[0];
          todo := todo + [succ];
          successors := successors[ps.id := At(successors, ps.id) + {succ.id}];
          predecessors := predecessors[succ.id := At(predecessors, succ.id) + {ps.id}];
        }
      }
      i := i + 1;
    }
  }

  lemma NothingLinked(chain: seq<Step>)
    ensures Linked(chain, 0, map[], map[], map[])
  {
    var none: Links := map[];
    forall k ensures At(none, k) == {} {
    }
  }

  /** The steps from number i on are still to be popped. */
  ghost predicate Waiting(chain: seq<Step>, i: nat, predecessors: Links) {
    forall k :: i < k < |chain| ==> At(predecessors, chain[k].id) == PreviousId(chain, k, |chain|)
  }

  /** Lines 281-332; IntPairHeap is used by its contract: the entry with the smallest key comes out first. */
  method TopSort(n: SearchNode) returns (res: Tasks)
    requires Chains(Heads(n)) && |Heads(n)| <= 1 && forall h :: h in Heads(n) ==> DistinctIds(Chain(h))
    ensures res == Concat(Sequences(Heads(n)))
  {
    res := [];
    if |n.unconstraintPrimitive| + |n.unconstraintAbstract| == 0 {
      assert Heads(n) == [];
      return;
    }
    var head := if |n.unconstraintPrimitive| > 0 then n.unconstraintPrimitive[0] else n.unconstraintAbstract[0];
    assert Heads(n) == [head];
    OneConcat(Sequences(Heads(n)));
    res := SortChain(head);
  }

  method SortChain(head: Step) returns (res: Tasks)
    requires IsChain(head) && DistinctIds(Chain(head))
    ensures res == Sequence(head)
  {
    hide SuccessorsLinked, PredecessorsLinked, TasksKnown, Waiting, At;
    ghost var chain := Chain(head);
    var unconstrained := [(head.task, head.id)];
    var successors, predecessors, idToTask := Collect(head);
    AllWaiting(chain, predecessors);
    res := [];
    ghost var i := 0;
    while |unconstrained| > 0
      invariant i <= |chain| && res == TasksOf(chain)[..i]
      invariant unconstrained == if i < |chain| then [(chain[i].task, chain[i].id)] else []
      invariant Waiting(chain, i, predecessors)
      decreases |chain| - i
    {
      var top := SmallestKey(unconstrained);
      var (task, id) := unconstrained[top];
      unconstrained := unconstrained[..top] + unconstrained[top + 1..];
      SuccessorOf(chain, i, successors);
      res := res + [task];
      var ready;
      predecessors, ready := Release(chain, i, id, At(successors, id), predecessors, idToTask);
      assert unconstrained == [];
      unconstrained := unconstrained + ready;
      i := i + 1;
    }
  }

  /** Lines 322-328: the successors of the popped step lose this predecessor; the one left without any is ready. */
  method Release(ghost chain: seq<Step>, ghost i: nat, id: nat, succs: set<nat>, predecessors0: Links, idToTask: map<nat, nat>)
    returns (predecessors: Links, ready: seq<(nat, nat)>)
    requires i < |chain| && id == chain[i].id && DistinctIds(chain) && succs == NextId(chain, i, |chain|) && Waiting(chain, i, predecessors0)
    requires TasksKnown(chain, |chain|, idToTask)
    ensures Waiting(chain, i + 1, predecessors)
    ensures ready == if i + 1 < |chain| then [(chain[i + 1].task, chain[i + 1].id)] else []
  {
    predecessors, ready := predecessors0, [];
    var rest := succs;
    while rest != {}
      invariant rest == succs || rest == {}
      invariant rest == succs ==> predecessors == predecessors0 && ready == []
      invariant rest != succs ==> i + 1 < |chain| && ready == [(chain[i + 1].task, chain[i + 1].id)] && Waiting(chain, i + 1, predecessors)
    {
      var succ :| succ in rest;
      rest := rest - {succ};
      predecessors := predecessors[succ := At(predecessors, succ) - {id}];
      if At(predecessors, succ) == {} {
        ready := ready + [(idToTask[succ], succ)];
      }
    }
  }

  lemma AllWaiting(chain: seq<Step>, predecessors: Links)
    requires PredecessorsLinked(chain, |chain|, predecessors)
    ensures Waiting(chain, 0, predecessors)
  {
  }

  lemma SuccessorOf(chain: seq<Step>, i: nat, successors: Links)
    requires i < |chain| && SuccessorsLinked(chain, |chain|, successors)
    ensures At(successors, chain[i].id) == NextId(chain, i, |chain|)
  {
  }

  method SmallestKey(heap: seq<(nat, nat)>) returns (top: nat)
    requires |heap| > 0
    ensures top < |heap| && forall k :: 0 <= k < |heap| ==> heap[top].0 <= heap[k].0
  {
    top := 0;
    for i := 1 to |heap|
      invariant top < |heap| && forall k :: 0 <= k < i ==> heap[top].0 <= heap[k].0
    {
      if heap[i].0 < heap[top].0 { top := i; }
    }
  }

  // ----- the list (339-427, 507-558) -----

  /** Lines 395-421: the task numbers that identify the remaining steps. */
  method SequenceForHashing(c: Config, n: SearchNode) returns (listing: Tasks)
    requires c.Valid() && NodeOk(c, n)
    ensures listing == Listing(c, n)
  {
    hide *;
    NodeLists(c, n);
    listing := [];
    if c.useTotalOrderMode {
      if |n.unconstraintPrimitive| > 0 { listing := FirstChain(n.unconstraintPrimitive, listing); }
      if |n.unconstraintAbstract| > 0 { listing := FirstChain(n.unconstraintAbstract, listing); }
      ChainListed(n, listing);
    }
    if c.useSequencesMode {
      var sequences := AllChains(n);
      sequences := Sort(sequences);
      listing := listing + Join(sequences, c.numTasks);
    } else {
      listing := TopSort(n);
    }
  }

  lemma NodeLists(c: Config, n: SearchNode)
    requires c.Valid() && NodeOk(c, n)
    ensures Chains(Heads(n)) && Chains(n.unconstraintPrimitive) && Chains(n.unconstraintAbstract)
    ensures c.useTotalOrderMode || c.useSequencesMode
    ensures c.useTotalOrderMode ==> |Heads(n)| <= 1 && |n.unconstraintPrimitive| + |n.unconstraintAbstract| == |Heads(n)|
    ensures c.useTotalOrderMode ==> forall h :: h in Heads(n) ==> DistinctIds(Chain(h))
    ensures Listing(c, n) ==
      (if c.useTotalOrderMode then Concat(Sequences(Heads(n))) else []) + (if c.useSequencesMode then Join(Sort(Sequences(Heads(n))), c.numTasks) else [])
  {
    hide Sequences, Concat, Join, Sort, Proper, Code, DistinctIds, Chain;
    var abs := n.unconstraintAbstract;
    assert forall i :: 0 <= i < |abs| ==> Heads(n)[i] == abs[i];
    assert forall i :: 0 <= i < |n.unconstraintPrimitive| ==> Heads(n)[|abs| + i] == n.unconstraintPrimitive[i];
  }

  method FirstChain(steps: seq<Step>, listing0: Tasks) returns (listing: Tasks)
    requires |steps| > 0 && Chains(steps)
    ensures listing == listing0 + Sequence(steps[0])
  {
    listing := ToDfs(steps[0], listing0);
  }

  lemma ChainListed(n: SearchNode, listing: Tasks)
    requires Chains(Heads(n)) && |Heads(n)| <= 1
    requires |n.unconstraintPrimitive| == 0 && |n.unconstraintAbstract| == 0 ==> listing == []
    requires |n.unconstraintPrimitive| > 0 ==> Chains(n.unconstraintPrimitive) && listing == Sequence(n.unconstraintPrimitive[0])
    requires |n.unconstraintAbstract| > 0 ==> Chains(n.unconstraintAbstract) && listing == Sequence(n.unconstraintAbstract[0])
    ensures listing == Concat(Sequences(Heads(n)))
  {
    if |Heads(n)| == 1 { OneConcat(Sequences(Heads(n))); }
  }

  /** Lines 400-409. */
  method AllChains(n: SearchNode) returns (sequences: seq<Tasks>)
    requires Chains(Heads(n))
    ensures sequences == Sequences(Heads(n))
  {
    sequences := [];
    for a := 0 to |n.unconstraintAbstract|
      invariant sequences == Sequences(Heads(n))[..a]
    {
      assert Heads(n)[a] == n.unconstraintAbstract[a];
      var q := ToDfs(n.unconstraintAbstract[a], []);
      assert q == Sequences(Heads(n))[a];
      sequences := sequences + [q];
    }
    for p := 0 to |n.unconstraintPrimitive|
      invariant sequences == Sequences(Heads(n))[..|n.unconstraintAbstract| + p]
    {
      assert Heads(n)[|n.unconstraintAbstract| + p] == n.unconstraintPrimitive[p];
      var q := ToDfs(n.unconstraintPrimitive[p], []);
      assert q == Sequences(Heads(n))[|n.unconstraintAbstract| + p];
      sequences := sequences + [q];
    }
  }

  /** The strings stored in bucket b are those of the nodes in earlier that hash to b. */
  ghost predicate Filed(c: Config, buckets: nat, stored: seq<set<Bits>>, earlier: set<SearchNode>)
    requires c.Valid()
  {
    && |stored| == buckets > 0
    && (forall m :: m in earlier ==> NodeOk(c, m) && Code(c, m) in stored[HashOf(c, m) % buckets])
    && (forall b, k :: 0 <= b < buckets && k in stored[b] ==> exists m {:trigger NodeOk(c, m)} :: m in earlier && NodeOk(c, m) && Code(c, m) == k)
  }

  /** Filing one more node: it was known exactly when a node like it was. */
  lemma FileOne(c: Config, buckets: nat, stored: seq<set<Bits>>, earlier: set<SearchNode>, n: SearchNode)
    requires c.Valid() && NodeOk(c, n) && Filed(c, buckets, stored, earlier)
    ensures var b := HashOf(c, n) % buckets;
      && (Code(c, n) in stored[b] <==> exists m :: m in earlier && NodeOk(c, m) && Same(m, n))
      && Filed(c, buckets, stored[b := stored[b] + {Code(c, n)}], earlier + {n})
  {
    var b := HashOf(c, n) % buckets;
    if Code(c, n) in stored[b] {
      var m :| m in earlier && NodeOk(c, m) && Code(c, m) == Code(c, n);
      CodeTells(c, m, n);
    }
    if m :| m in earlier && NodeOk(c, m) && Same(m, n) {
      CodeTells(c, m, n);
      SameHash(c, m, n);
    }
    FiledMore(c, buckets, stored, earlier, n);
  }

  lemma FiledMore(c: Config, buckets: nat, stored: seq<set<Bits>>, earlier: set<SearchNode>, n: SearchNode)
    requires c.Valid() && NodeOk(c, n) && Filed(c, buckets, stored, earlier)
    ensures var b := HashOf(c, n) % buckets; Filed(c, buckets, stored[b := stored[b] + {Code(c, n)}], earlier + {n})
  {
    hide Code, HashOf;
    var b := HashOf(c, n) % buckets;
    var after := stored[b := stored[b] + {Code(c, n)}];
    forall i, k | 0 <= i < buckets && k in after[i] ensures exists m {:trigger NodeOk(c, m)} :: m in earlier + {n} && NodeOk(c, m) && Code(c, m) == k {
      if k in stored[i] {
        var m :| m in earlier && NodeOk(c, m) && Code(c, m) == k;
        assert m in earlier + {n};
      } else {
        assert n in earlier + {n} && NodeOk(c, n);
      }
    }
  }

  lemma OneItem(key: Bits)
    ensures Items(map[key := None][key := Some(1)]).Keys == {key}
  {
  }

  class VisitedList {
    const c: Config
    const stateTable: array<CompressedSequenceTrie?>
    /** The nodes inserted so far and the trie nodes in use. */
    ghost var earlier: set<SearchNode>
    ghost var owned: set<CompressedSequenceTrie>

    ghost predicate Trees()
      reads this`owned, stateTable, owned
    {
      && (forall b :: 0 <= b < stateTable.Length ==> Tree(stateTable[b]))
      && (forall b, d :: 0 <= b < d < stateTable.Length && stateTable[b] != null && stateTable[d] != null ==> stateTable[b].Repr !! stateTable[d].Repr)
    }

    ghost predicate Tree(t: CompressedSequenceTrie?)
      reads this`owned, owned
    {
      t != null ==> t in owned && t.Repr <= owned && t.Valid() && t.Start() == 0
    }

    /** The strings that have been marked in each bucket. */
    ghost function Stored(): (r: seq<set<Bits>>)
      requires Trees()
      reads this`owned, stateTable, owned
      ensures |r| == stateTable.Length
      ensures forall b :: 0 <= b < |r| ==> r[b] == Marked(stateTable[b])
    {
      StoredUpTo(stateTable.Length)
    }

    ghost function StoredUpTo(k: nat): (r: seq<set<Bits>>)
      requires Trees() && k <= stateTable.Length
      reads this`owned, stateTable, owned
      ensures |r| == k
      ensures forall b :: 0 <= b < |r| ==> r[b] == Marked(stateTable[b])
    {
      if k == 0 then [] else StoredUpTo(k - 1) + [Marked(stateTable[k - 1])]
    }

    ghost function Marked(t: CompressedSequenceTrie?): set<Bits>
      requires Tree(t)
      reads this`owned, owned
    {
      if t == null then {} else Items(t.Payloads()).Keys
    }

    ghost predicate Valid()
      reads this, stateTable, owned
    {
      c.Valid() && Trees() && Filed(c, stateTable.Length, Stored(), earlier)
    }

    constructor (c: Config, hashingP: nat)
      requires c.Valid() && hashingP > 0
      ensures Valid() && earlier == {} && owned == {} && this.c == c && fresh(stateTable)
    {
      this.c := c;
      stateTable := new CompressedSequenceTrie?[hashingP](_ => null);
      earlier, owned := {}, {};
    }

    /** Every bucket but b is as before. */
    twostate predicate OnlyBucket(new b: nat)
      reads this, stateTable, owned
    {
      && old(owned) <= owned
      && forall d :: 0 <= d < stateTable.Length && d != b ==>
           stateTable[d] == old(stateTable[d]) && (stateTable[d] != null ==> forall t :: t in old(stateTable[d].Repr) ==> t in owned && unchanged(t))
    }

    twostate lemma OtherBucket(new b: nat, new d: nat)
      requires old(Trees()) && OnlyBucket(b) && d < stateTable.Length && d != b
      ensures Tree(stateTable[d]) && Marked(stateTable[d]) == old(Marked(stateTable[d]))
    {
      var t := stateTable[d];
      assert old(Tree(stateTable[d]));
      if t != null {
        t.SameAfter();
      }
    }

    /** The trie of bucket b grew by fresh nodes only. */
    twostate predicate GrewFreshly(new b: nat)
      requires b < stateTable.Length
      reads this, stateTable, owned
    {
      var t := stateTable[b];
      t != null && Tree(t) && forall o :: o in t.Repr && o in old(owned) ==> old(stateTable[b]) == t && o in old(t.Repr)
    }

    twostate lemma StillTrees(new b: nat)
      requires old(Trees()) && b < stateTable.Length && OnlyBucket(b) && GrewFreshly(b)
      ensures Trees()
      ensures forall d :: 0 <= d < stateTable.Length && d != b ==> Marked(stateTable[d]) == old(Marked(stateTable[d]))
    {
      forall d | 0 <= d < stateTable.Length && d != b
        ensures Tree(stateTable[d]) && Marked(stateTable[d]) == old(Marked(stateTable[d]))
        ensures stateTable[d] != null ==> stateTable[d].Repr == old(stateTable[d].Repr) && stateTable[d].Repr <= old(owned) && stateTable[d].Repr !! stateTable[b].Repr
      {
        OtherBucket(b, d);
        assert old(Tree(stateTable[d]));
      }
    }

    twostate lemma StoredAfter(new b: nat)
      requires old(Trees()) && b < stateTable.Length && Trees()
      requires forall d :: 0 <= d < stateTable.Length && d != b ==> Marked(stateTable[d]) == old(Marked(stateTable[d]))
      ensures Stored() == old(Stored())[b := Marked(stateTable[b])]
    {
    }

    /** The string ends within the string of a node of the bucket's trie, without being that of another node. */
    ghost predicate EndsInside(b: nat, key: Bits)
      requires Trees() && b < stateTable.Length
      reads this`owned, stateTable, owned
    {
      Tree(stateTable[b]) && stateTable[b] != null && Inside(stateTable[b].Payloads(), key)
    }

    /** Lines 518-526 and 536-542: the bucket's trie is created or searched, and the slot of the string is marked. */
    method Access(b: nat, accessVector: seq<Bits>, padding: nat) returns (ok: bool, isNew: bool)
      requires Trees() && b < stateTable.Length && Padded(accessVector, padding)
      modifies stateTable, owned, this`owned
      ensures Trees() && fresh(owned - old(owned)) && old(owned) <= owned
      ensures Stored() == if ok then old(Stored())[b := old(Stored())[b] + {Key(accessVector, padding)}] else old(Stored())
      ensures ok ==> (isNew <==> Key(accessVector, padding) !in old(Stored())[b])
      ensures ok <==> !(padding == 0 && old(EndsInside(b, Key(accessVector, padding))))
    {
      hide Filed, Padded, Key, CompressedSequenceTrie.Valid, CompressedSequenceTrie.Payloads, Items, Inside;
      PaddedWords(accessVector, padding);
      ghost var key := Key(accessVector, padding);
      ghost var stored := Stored();
      var t := stateTable[b];
      if t == null {
        t := new CompressedSequenceTrie(accessVector, padding);
        t.LeafIs(key, 0);
        t.SetSlot(key, t, 1);
        OneItem(key);
        stateTable[b] := t;
        ok, isNew := true, true;
      } else {
        assert Tree(t);
        var previous;
        ok, previous := t.Store(accessVector, padding, 1);
        isNew := previous == None;
      }
      owned := owned + t.Repr;
      StillTrees(b);
      StoredAfter(b);
      assert Marked(t) == if ok then old(Stored())[b] + {key} else old(Stored())[b];
    }

    /** insertVisi: whatever hash collisions occur, the answer is true exactly when no earlier node had the same state
        and the same multiset of task sequences. Exactly the bit strings without padding that end within a stored one are refused by the trie. */
    method InsertVisi(n: SearchNode) returns (ok: bool, isNew: bool)
      requires Valid() && NodeOk(c, n)
      modifies this`owned, this`earlier, stateTable, owned
      ensures Valid() && fresh(owned - old(owned))
      ensures ok ==> (isNew <==> forall m :: m in old(earlier) ==> !Same(m, n))
      ensures ok ==> earlier == old(earlier) + {n}
      ensures !ok ==> earlier == old(earlier)
      ensures ok <==> !(|Code(c, n)| % 64 == 0 && old(EndsInside(HashOf(c, n) % stateTable.Length, Code(c, n))))
    {
      hide NodeOk, Filed, Trees, Padded, Key, Stored, HashOf, Code, Listing, Same, EndsInside, Tree, Marked;
      EarlierOk(n);
      NodeParts(c, n);
      var sequenceForHashing := SequenceForHashing(c, n);
      var exactBitString := PushTasks(n.state, sequenceForHashing, c.BitsNeededPerTask());
      var accessVector, padding := State2Int(exactBitString);
      var hash := c.hash(n.state, n.containedTasks, sequenceForHashing);
      var b := hash % stateTable.Length;
      ghost var stored := Stored();
      assert Filed(c, stateTable.Length, stored, earlier);
      FileOne(c, stateTable.Length, stored, earlier, n);
      assert Filed(c, stateTable.Length, stored[b := stored[b] + {Code(c, n)}], earlier + {n});
      ok, isNew := Access(b, accessVector, padding);
      assert Stored() == if ok then stored[b := stored[b] + {Code(c, n)}] else stored;
      if ok { earlier := earlier + {n}; }
      assert Stored() == if ok then stored[b := stored[b] + {Code(c, n)}] else stored;
      assert Filed(c, stateTable.Length, Stored(), earlier);
    }

    lemma EarlierOk(n: SearchNode)
      requires Valid()
      ensures forall m :: m in earlier ==> NodeOk(c, m) && Chains(Heads(m))
      ensures stateTable.Length > 0
    {
    }
  }

  lemma NodeParts(c: Config, n: SearchNode)
    requires c.Valid() && NodeOk(c, n)
    ensures Chains(Heads(n)) && 0 < |Code(c, n)| <= 64 * 0xFFFF
    ensures Code(c, n) == n.state + Encode(Listing(c, n), c.BitsNeededPerTask())
    ensures HashOf(c, n) == c.hash(n.state, n.containedTasks, Listing(c, n))
  {
  }
}
