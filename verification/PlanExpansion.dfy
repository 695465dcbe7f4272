/** Taking inlined methods apart again in a plan (pandaPIparser: plan.cpp:276-281, 357-422, 592-604). */
module PlanExpansion {
  import opened PlanNames

  datatype PlanStep = PlanStep(name: string, arguments: seq<string>, declaredPrimitive: bool)

  /** Without arguments the parser reads one empty argument (see TaskRoundTrip). */
  function ReadArguments(arguments: seq<string>): seq<string> {
    if |arguments| == 0 then [""] else arguments
  }

  /** The values of the map in the order of their keys below n. */
  function Collect(m: map<nat, nat>, n: nat): seq<nat> {
    if n == 0 then [] else Collect(m, n - 1) + (if n - 1 in m then [m[n - 1]] else [])
  }

  lemma {:induction false} CollectAll(m: map<nat, nat>, n: nat, list: seq<nat>)
    requires n <= |list| && forall x: nat :: x < n ==> x in m && m[x] == list[x]
    ensures Collect(m, n) == list[..n]
    decreases n
  {
    if n > 0 {
      CollectAll(m, n - 1, list);
      assert list[..n] == list[..n - 1] + [list[n - 1]];
    }
  }

  /** Beyond all keys nothing is added. */
  lemma {:induction false} CollectMore(m: map<nat, nat>, n: nat, k: nat)
    requires n <= k && forall x :: x in m ==> x < n
    ensures Collect(m, k) == Collect(m, n)
    decreases k
  {
    if n < k { CollectMore(m, n, k - 1); }
  }

  // ----- nested inlinings -----

  /** How a method came about: a method of the domain with size subtasks, or the inlining of one method into another. */
  datatype Tree = Base(name: string, size: nat) | Inlined(main: Tree, task: string, arguments: seq<string>, inner: Tree, position: nat)

  ghost function Size(t: Tree): int {
    match t
    case Base(_, size) => size
    case Inlined(main, _, _, inner, _) => Size(main) - 1 + Size(inner)
  }

  ghost predicate Encoded(name: string) {
    |name| > 0 && name[0] == '<'
  }

  ghost predicate Good(t: Tree) {
    Size(t) >= 0 &&
    match t
    case Base(name, _) => WellNamed(name) && !Encoded(name)
    case Inlined(main, task, arguments, inner, position) =>
      Good(main) && Good(inner) && position < Size(main) && Without(task, '[') && AllClean(arguments) && WellNamed(TaskText(task, arguments))
  }

  ghost function Encode(t: Tree): string
    requires Good(t)
  {
    match t
    case Base(name, _) => name
    case Inlined(main, task, arguments, inner, position) =>
      InlineName(Encode(main), TaskText(task, arguments), Encode(inner), position, IdMap(Size(main), position, Size(inner)))
  }

  lemma {:induction false} EncodeWellNamed(t: Tree)
    requires Good(t)
    ensures WellNamed(Encode(t)) && (Encoded(Encode(t)) <==> t.Inlined?)
    decreases t
  {
    match t
    case Base(_, _) =>
    case Inlined(main, task, arguments, inner, position) =>
      EncodeWellNamed(main);
      EncodeWellNamed(inner);
      InlineNameWellNamed(Encode(main), TaskText(task, arguments), Encode(inner), position, IdMap(Size(main), position, Size(inner)));
  }

  ghost function Weight(t: Tree): nat {
    match t
    case Base(_, _) => 0
    case Inlined(main, _, _, inner, _) => 1 + Weight(main) + Weight(inner)
  }

  type Trees = map<nat, Tree>

  /** The subtasks of a task: none if there is no entry. */
  function SubtasksIn(subtasks: map<nat, seq<nat>>, id: nat): seq<nat> {
    if id in subtasks then subtasks[id] else []
  }

  /** Task id is decomposed by the method t with these subtasks: either this is still to be expanded, or the inlining has been undone
      by a task of its own in the old place. */
  ghost predicate Decomposed(t: Tree, list: seq<nat>, id: nat, tasks: map<nat, PlanStep>, trees: Trees, subtasks: map<nat, seq<nat>>)
    decreases t
  {
    (id in trees && trees[id] == t && SubtasksIn(subtasks, id) == list) ||
    (t.Inlined? && exists c: nat :: Restored(t, list, id, c, tasks, trees, subtasks))
  }

  ghost predicate Restored(t: Tree, list: seq<nat>, id: nat, c: nat, tasks: map<nat, PlanStep>, trees: Trees, subtasks: map<nat, seq<nat>>)
    requires t.Inlined?
    decreases t, 0
  {
    && c in tasks && tasks[c] == PlanStep(t.task, ReadArguments(t.arguments), false)
    && Size(t.inner) >= 0 && t.position + Size(t.inner) <= |list|
    && Decomposed(t.inner, list[t.position..t.position + Size(t.inner)], c, tasks, trees, subtasks)
    && Decomposed(t.main, list[..t.position] + [c] + list[t.position + Size(t.inner)..], id, tasks, trees, subtasks)
  }

  /** The names are the encodings of the trees, and the numbers of subtasks agree. */
  ghost predicate TreesOk(applied: map<nat, string>, trees: Trees, subtasks: map<nat, seq<nat>>) {
    trees.Keys == applied.Keys && forall id :: id in applied ==> TreeOk(applied[id], trees[id], SubtasksIn(subtasks, id))
  }

  ghost predicate TreeOk(name: string, t: Tree, list: seq<nat>) {
    Good(t) && name == Encode(t) && |list| == Size(t)
  }

  /** Undoing one inlining keeps all decompositions. */
  lemma {:induction false} StillDecomposed(t: Tree, list: seq<nat>, id: nat, tasks: map<nat, PlanStep>, trees: Trees, subtasks: map<nat, seq<nat>>,
                        e: nat, c: nat, tasks2: map<nat, PlanStep>, trees2: Trees, subtasks2: map<nat, seq<nat>>)
    requires Decomposed(t, list, id, tasks, trees, subtasks) && Undone(e, c, tasks, trees, subtasks, tasks2, trees2, subtasks2)
    ensures Decomposed(t, list, id, tasks2, trees2, subtasks2)
    decreases t
  {
    if id in trees && trees[id] == t && SubtasksIn(subtasks, id) == list {
      if id == e { RestoredNow(t, list, e, c, tasks, trees, subtasks, tasks2, trees2, subtasks2); }
    } else {
      var d: nat :| Restored(t, list, id, d, tasks, trees, subtasks);
      StillDecomposed(t.inner, list[t.position..t.position + Size(t.inner)], d, tasks, trees, subtasks, e, c, tasks2, trees2, subtasks2);
      StillDecomposed(t.main, list[..t.position] + [d] + list[t.position + Size(t.inner)..], id, tasks, trees, subtasks, e, c, tasks2, trees2, subtasks2);
      hide Size;
      assert Restored(t, list, id, d, tasks2, trees2, subtasks2);
    }
  }

  lemma RestoredNow(t: Tree, list: seq<nat>, e: nat, c: nat, tasks: map<nat, PlanStep>, trees: Trees, subtasks: map<nat, seq<nat>>,
                    tasks2: map<nat, PlanStep>, trees2: Trees, subtasks2: map<nat, seq<nat>>)
    requires Undone(e, c, tasks, trees, subtasks, tasks2, trees2, subtasks2) && trees[e] == t && SubtasksIn(subtasks, e) == list
    ensures Decomposed(t, list, e, tasks2, trees2, subtasks2)
  {
    assert Decomposed(t.inner, list[t.position..t.position + Size(t.inner)], c, tasks2, trees2, subtasks2);
    assert Decomposed(t.main, list[..t.position] + [c] + list[t.position + Size(t.inner)..], e, tasks2, trees2, subtasks2);
    assert Restored(t, list, e, c, tasks2, trees2, subtasks2);
  }

  lemma TreesStep(applied: map<nat, string>, trees: Trees, subtasks: map<nat, seq<nat>>, e: nat, c: nat, before: seq<nat>, middle: seq<nat>, after: seq<nat>, subtasks2: map<nat, seq<nat>>)
    requires TreesOk(applied, trees, subtasks) && e in trees && trees[e].Inlined? && c !in trees && e != c && Good(trees[e])
    requires |before| == trees[e].position && |middle| == Size(trees[e].inner) && |before| + 1 + |after| == Size(trees[e].main)
    requires SubtasksIn(subtasks2, e) == before + [c] + after && SubtasksIn(subtasks2, c) == middle
    requires forall x: nat :: x != e && x != c ==> SubtasksIn(subtasks2, x) == SubtasksIn(subtasks, x)
    ensures TreesOk(applied[c := Encode(trees[e].inner)][e := Encode(trees[e].main)], trees[c := trees[e].inner][e := trees[e].main], subtasks2)
  {
    hide Good, Encode, Size, SubtasksIn;
    GoodParts(trees[e]);
    var applied2, trees2 := applied[c := Encode(trees[e].inner)][e := Encode(trees[e].main)], trees[c := trees[e].inner][e := trees[e].main];
    forall id | id in applied2 ensures TreeOk(applied2[id], trees2[id], SubtasksIn(subtasks2, id)) {
      if id != e && id != c { assert TreeOk(applied[id], trees[id], SubtasksIn(subtasks, id)); }
    }
  }

  lemma GoodParts(t: Tree)
    requires Good(t) && t.Inlined?
    ensures Good(t.main) && Good(t.inner) && Size(t.inner) >= 0 && t.position < Size(t.main) && Size(t) == Size(t.main) - 1 + Size(t.inner)
    ensures Without(t.task, '[') && AllClean(t.arguments) && WellNamed(TaskText(t.task, t.arguments))
    ensures Encode(t) == InlineName(Encode(t.main), TaskText(t.task, t.arguments), Encode(t.inner), t.position, IdMap(Size(t.main), t.position, Size(t.inner)))
  {
  }

  /** The inlining at task e has been undone with the new task c. */
  ghost predicate Undone(e: nat, c: nat, tasks: map<nat, PlanStep>, trees: Trees, subtasks: map<nat, seq<nat>>,
                         tasks2: map<nat, PlanStep>, trees2: Trees, subtasks2: map<nat, seq<nat>>) {
    && e in trees && trees[e].Inlined? && c !in tasks && c !in trees && e != c
    && (forall x :: x in tasks ==> x in tasks2 && tasks2[x] == tasks[x])
    && trees2 == trees[c := trees[e].inner][e := trees[e].main]
    && (forall x: nat :: x != e && x != c ==> SubtasksIn(subtasks2, x) == SubtasksIn(subtasks, x))
    && var t, list := trees[e], SubtasksIn(subtasks, e);
       && Size(t.inner) >= 0 && t.position + Size(t.inner) <= |list|
       && c in tasks2 && tasks2[c] == PlanStep(t.task, ReadArguments(t.arguments), false)
       && SubtasksIn(subtasks2, c) == list[t.position..t.position + Size(t.inner)]
       && SubtasksIn(subtasks2, e) == list[..t.position] + [c] + list[t.position + Size(t.inner)..]
  }

  /** The number of inlinings still recorded in the names of the tasks below n. */
  ghost function Pending(trees: Trees, n: nat): nat {
    if n == 0 then 0 else Pending(trees, n - 1) + (if n - 1 in trees then Weight(trees[n - 1]) else 0)
  }

  lemma {:induction false} PendingSame(trees: Trees, trees2: Trees, n: nat)
    requires forall x: nat :: x < n ==> (x in trees <==> x in trees2) && (x in trees ==> trees[x] == trees2[x])
    ensures Pending(trees, n) == Pending(trees2, n)
    decreases n
  {
    if n > 0 { PendingSame(trees, trees2, n - 1); }
  }

  lemma {:induction false} PendingChange(trees: Trees, e: nat, t: Tree, n: nat)
    requires e < n && e in trees
    ensures Pending(trees[e := t], n) == Pending(trees, n) - Weight(trees[e]) + Weight(t)
    decreases n
  {
    if e == n - 1 {
      PendingSame(trees, trees[e := t], n - 1);
    } else {
      PendingChange(trees, e, t, n - 1);
    }
  }

  lemma {:induction false} PendingNew(trees: Trees, c: nat, t: Tree, n: nat)
    requires c < n && c !in trees
    ensures Pending(trees[c := t], n) == Pending(trees, n) + Weight(t)
    decreases n
  {
    if c == n - 1 {
      PendingSame(trees, trees[c := t], n - 1);
    } else {
      PendingNew(trees, c, t, n - 1);
    }
  }

  lemma {:induction false} PendingMore(trees: Trees, n: nat, m: nat)
    requires n <= m && forall x :: x in trees ==> x < n
    ensures Pending(trees, m) == Pending(trees, n)
    decreases m
  {
    if n < m { PendingMore(trees, n, m - 1); }
  }

  ghost function Above(s: set<nat>): (n: nat)
    ensures forall x :: x in s ==> x < n
  {
    if s == {} then 0 else
      var x :| x in s;
      assert forall y :: y in s ==> y == x || y in s - {x};
      var n := Above(s - {x});
      if x < n then n else x + 1
  }

  /** The number of inlinings still to be undone. */
  ghost function Total(trees: Trees): nat {
    Pending(trees, Above(trees.Keys))
  }

  lemma OneLess(e: nat, c: nat, tasks: map<nat, PlanStep>, trees: Trees, subtasks: map<nat, seq<nat>>,
                tasks2: map<nat, PlanStep>, trees2: Trees, subtasks2: map<nat, seq<nat>>)
    requires Undone(e, c, tasks, trees, subtasks, tasks2, trees2, subtasks2)
    ensures Total(trees2) + 1 == Total(trees)
  {
    var m := Above(trees.Keys) + Above(trees2.Keys) + c + e + 1;
    PendingMore(trees, Above(trees.Keys), m);
    PendingMore(trees2, Above(trees2.Keys), m);
    var t := trees[e];
    PendingNew(trees, c, t.inner, m);
    PendingChange(trees[c := t.inner], e, t.main, m);
  }

  /** Every task that had a method at the start is still decomposed accordingly. */
  ghost predicate AllDecomposed(trees0: Trees, subtasks0: map<nat, seq<nat>>, tasks: map<nat, PlanStep>, trees: Trees, subtasks: map<nat, seq<nat>>) {
    forall id :: id in trees0 ==> Decomposed(trees0[id], SubtasksIn(subtasks0, id), id, tasks, trees, subtasks)
  }

  lemma AtFirst(trees: Trees, tasks: map<nat, PlanStep>, subtasks: map<nat, seq<nat>>)
    ensures AllDecomposed(trees, subtasks, tasks, trees, subtasks)
  {
  }

  lemma AllStill(trees0: Trees, subtasks0: map<nat, seq<nat>>, tasks: map<nat, PlanStep>, trees: Trees, subtasks: map<nat, seq<nat>>,
                 e: nat, c: nat, tasks2: map<nat, PlanStep>, trees2: Trees, subtasks2: map<nat, seq<nat>>)
    requires AllDecomposed(trees0, subtasks0, tasks, trees, subtasks) && Undone(e, c, tasks, trees, subtasks, tasks2, trees2, subtasks2)
    ensures AllDecomposed(trees0, subtasks0, tasks2, trees2, subtasks2)
  {
    hide Decomposed, Undone;
    forall id | id in trees0 ensures Decomposed(trees0[id], SubtasksIn(subtasks0, id), id, tasks2, trees2, subtasks2) {
      StillDecomposed(trees0[id], SubtasksIn(subtasks0, id), id, tasks, trees, subtasks, e, c, tasks2, trees2, subtasks2);
    }
  }

  /** From the i-th on the listed tasks, each once, have encoded methods. */
  ghost predicate AllEncoded(expand: seq<nat>, i: nat, applied: map<nat, string>) {
    && (forall j :: i <= j < |expand| ==> expand[j] in applied && Encoded(applied[expand[j]]))
    && (forall j, k :: 0 <= j < k < |expand| ==> expand[j] != expand[k])
  }

  class ParsedPlan {
    var tasks: map<nat, PlanStep>
    var appliedMethod: map<nat, string>
    var subtasksForTask: map<nat, seq<nat>>

    constructor (tasks: map<nat, PlanStep>, appliedMethod: map<nat, string>, subtasksForTask: map<nat, seq<nat>>)
      requires appliedMethod.Keys <= tasks.Keys && subtasksForTask.Keys <= tasks.Keys
      ensures Valid() && this.tasks == tasks && this.appliedMethod == appliedMethod && this.subtasksForTask == subtasksForTask
    {
      this.tasks, this.appliedMethod, this.subtasksForTask := tasks, appliedMethod, subtasksForTask;
    }

    /** Methods and subtasks belong to known tasks. */
    ghost predicate Valid()
      reads this
    {
      appliedMethod.Keys <= tasks.Keys && subtasksForTask.Keys <= tasks.Keys
    }

    /** Reading an absent entry of a std::map yields the empty list. */
    function Subtasks(id: nat): seq<nat>
      reads this`subtasksForTask
    {
      SubtasksIn(subtasksForTask, id)
    }

    /** Lines 276-281. */
    method GetNextFreeId() returns (id: nat)
      ensures forall x :: x in tasks ==> x < id
      ensures tasks == map[] ==> id == 0
      ensures tasks != map[] ==> id > 0 && id - 1 in tasks
    {
      var maxId: int := -1;
      var left := tasks.Keys;
      while left != {}
        invariant left <= tasks.Keys && (forall x :: x in tasks && x !in left ==> x <= maxId)
        invariant maxId == -1 || (maxId >= 0 && maxId in tasks)
        invariant tasks.Keys != left ==> maxId >= 0
        decreases |left|
      {
        var x := Pick(left);
        left := left - {x};
        maxId := if x > maxId then x else maxId;
      }
      id := maxId + 1;
    }

    static method Pick(s: set<nat>) returns (x: nat)
      requires s != {}
      ensures x in s
    {
      x :| x in s;
    }

    /** Lines 389-395: the subtasks of the inlined method by their positions. */
    static method InnerPositions(translation: seq<int>, subtasks: seq<nat>, ghost n: nat, ghost position: nat, ghost k: nat)
      returns (inner: map<nat, nat>, bound: nat)
      requires position < n && translation == IdMap(n, position, k) && |subtasks| == |translation|
      ensures (forall j: nat :: j in inner <==> j < k) && forall j: nat :: j < k ==> inner[j] == subtasks[position + j]
      ensures bound >= k
    {
      inner, bound := map[], 0;
      var i: nat := 0;
      while i < |translation|
        invariant i <= |translation|
        invariant forall j: nat :: j in inner <==> j < k && position + j < i
        invariant forall j: nat :: j in inner ==> j < bound && inner[j] == subtasks[position + j]
      {
        var t := translation[i];
        assert t == IdAt(position, k, i);
        if t < 0 {
          inner := inner[-t - 1 := subtasks[i]];
          bound := if -t - 1 >= bound then -t else bound;
        }
        i := i + 1;
      }
      assert k > 0 ==> k - 1 in inner;
    }

    /** Where position x of the main method stands in the inlined one. */
    static function From(position: nat, k: nat, x: nat): int {
      if x < position then x else x - 1 + k
    }

    /** Lines 411-415: the other subtasks of the main method by their positions. */
    static method MainPositions(translation: seq<int>, subtasks: seq<nat>, ghost n: nat, ghost position: nat, ghost k: nat)
      returns (main: map<nat, nat>, bound: nat)
      requires position < n && translation == IdMap(n, position, k) && |subtasks| == |translation|
      ensures forall x: nat :: x in main <==> x < n && x != position
      ensures forall x: nat :: x in main ==> 0 <= From(position, k, x) < |subtasks| && main[x] == subtasks[From(position, k, x)]
      ensures forall x :: x in main ==> x < bound
    {
      main, bound := map[], 0;
      var i: nat := 0;
      while i < |translation|
        invariant i <= |translation|
        invariant forall x: nat :: x in main <==> x < n && x != position && From(position, k, x) < i
        invariant forall x: nat :: x in main ==> 0 <= From(position, k, x) < |subtasks| && main[x] == subtasks[From(position, k, x)]
        invariant forall x :: x in main ==> x < bound
      {
        var t := translation[i];
        assert t == IdAt(position, k, i);
        if t >= 0 {
          assert From(position, k, t) == i;
          main := main[t := subtasks[i]];
          bound := if t >= bound then t + 1 else bound;
        }
        i := i + 1;
      }
    }

    /** Lines 358-380: the parts of the name. */
    static method ParseName(name: string, ghost main: string, ghost task: string, ghost arguments: seq<string>, ghost inner: string, ghost position: nat, ghost ids: seq<int>)
      returns (mainMethod: string, decomposedTask: string, decomposedArguments: seq<string>, appliedMethod: string, decomposedId: nat, translation: seq<int>)
      requires WellNamed(main) && WellNamed(inner) && WellNamed(TaskText(task, arguments)) && Without(task, '[') && AllClean(arguments)
      requires name == InlineName(main, TaskText(task, arguments), inner, position, ids)
      ensures mainMethod == main && decomposedTask == task && decomposedArguments == ReadArguments(arguments) && appliedMethod == inner
      ensures decomposedId == position && translation == ids
    {
      hide *;
      SplitInlineName(main, TaskText(task, arguments), inner, position, ids);
      var blocks := SplitBlocks(name);
      TaskRoundTrip(task, arguments);
      mainMethod, appliedMethod := blocks[0], blocks[2];
      decomposedTask, decomposedArguments := ParseTask(blocks[1]);
      Pair(decomposedTask, decomposedArguments, ParsedTask(blocks[1]));
      TextRoundTrip(position);
      decomposedId := NumberOf(blocks[3]);
      IdsRoundTrip(ids);
      translation := ParseListOfIntegers(Spaced(blocks[4]));
      ReadIs(arguments);
    }

    static lemma Pair(a: string, b: seq<string>, c: (string, seq<string>))
      requires (a, b) == c
      ensures a == c.0 && b == c.1
    {
    }

    static lemma ReadIs(arguments: seq<string>)
      ensures ReadArguments(arguments) == if |arguments| == 0 then [""] else arguments
    {
    }

    /** One inlining is undone: the decomposed task gets its own step again, with the subtasks of the inlined method, and stands at
        its old position among the subtasks of the main method. */
    method ExpandCompressedMethod(expanded: nat, ghost main: string, ghost task: string, ghost arguments: seq<string>, ghost inner: string,
                                  ghost before: seq<nat>, ghost middle: seq<nat>, ghost after: seq<nat>) returns (created: nat)
      requires Valid() && expanded in appliedMethod && WellNamed(main) && WellNamed(inner) && WellNamed(TaskText(task, arguments))
      requires Without(task, '[') && AllClean(arguments)
      requires appliedMethod[expanded] == InlineName(main, TaskText(task, arguments), inner, |before|, IdMap(|before| + 1 + |after|, |before|, |middle|))
      requires Subtasks(expanded) == before + middle + after
      modifies this
      ensures Valid() && created !in old(tasks) && forall x :: x in old(tasks) ==> x < created
      ensures tasks == old(tasks)[created := PlanStep(task, ReadArguments(arguments), false)]
      ensures appliedMethod == old(appliedMethod)[created := inner][expanded := main]
      ensures Subtasks(expanded) == before + [created] + after && Subtasks(created) == middle
      ensures forall x: nat :: x != expanded && x != created ==> SubtasksIn(subtasksForTask, x) == SubtasksIn(old(subtasksForTask), x)
    {
      hide InlineName, WellNamed, TaskText, Without, AllClean, ReadArguments, Collect, IdMap;
      ghost var n := |before| + 1 + |after|;
      var subtasks := Subtasks(expanded);
      var mainMethod, decomposedTask, decomposedArguments, applied, decomposedId, translation :=
        ParseName(appliedMethod[expanded], main, task, arguments, inner, |before|, IdMap(|before| + 1 + |after|, |before|, |middle|));
      var innerList, mainMap, bound := Lists(translation, subtasks, before, middle, after);
      created := GetNextFreeId();
      tasks := tasks[created := PlanStep(decomposedTask, decomposedArguments, false)];
      appliedMethod := appliedMethod[created := applied];
      if |innerList| > 0 { subtasksForTask := subtasksForTask[created := innerList]; }
      appliedMethod := appliedMethod[expanded := mainMethod];
      var mainList := MainList(mainMap, decomposedId, created, bound, before, middle, after);
      subtasksForTask := subtasksForTask[expanded := mainList];
    }

    static method Lists(translation: seq<int>, subtasks: seq<nat>, ghost before: seq<nat>, ghost middle: seq<nat>, ghost after: seq<nat>)
      returns (innerList: seq<nat>, mainMap: map<nat, nat>, bound: nat)
      requires translation == IdMap(|before| + 1 + |after|, |before|, |middle|) && subtasks == before + middle + after
      ensures innerList == middle
      ensures forall x: nat :: x in mainMap <==> x < |before| + 1 + |after| && x != |before|
      ensures forall x: nat :: x in mainMap ==> 0 <= From(|before|, |middle|, x) < |before + middle + after| && mainMap[x] == (before + middle + after)[From(|before|, |middle|, x)]
      ensures forall x :: x in mainMap ==> x < bound
    {
      var inner, top := InnerPositions(translation, subtasks, |before| + 1 + |after|, |before|, |middle|);
      InnerOrder(inner, before, middle, after, top);
      innerList := InKeyOrder(inner, top);
      mainMap, bound := MainPositions(translation, subtasks, |before| + 1 + |after|, |before|, |middle|);
    }

    /** Lines 416-419. */
    static method MainList(mainMap: map<nat, nat>, decomposedId: nat, created: nat, bound: nat, ghost before: seq<nat>, ghost middle: seq<nat>, ghost after: seq<nat>)
      returns (list: seq<nat>)
      requires decomposedId == |before|
      requires forall x: nat :: x in mainMap <==> x < |before| + 1 + |after| && x != |before|
      requires forall x: nat :: x in mainMap ==> 0 <= From(|before|, |middle|, x) < |before + middle + after| && mainMap[x] == (before + middle + after)[From(|before|, |middle|, x)]
      requires forall x :: x in mainMap ==> x < bound
      ensures list == before + [created] + after
    {
      var main := mainMap[decomposedId := created];
      var top := if decomposedId >= bound then decomposedId + 1 else bound;
      MainOrder(main, before, middle, after, created, top);
      list := InKeyOrder(main, top);
    }

    /** The inlining recorded at the given task is undone; the trees of the plan follow. */
    method ExpandOne(expanded: nat, ghost trees: Trees) returns (ghost created: nat, ghost trees2: Trees)
      requires Valid() && expanded in appliedMethod && Encoded(appliedMethod[expanded]) && TreesOk(appliedMethod, trees, subtasksForTask)
      modifies this
      ensures Valid() && TreesOk(appliedMethod, trees2, subtasksForTask) && tasks.Keys == old(tasks).Keys + {created}
      ensures Undone(expanded, created, old(tasks), trees, old(subtasksForTask), tasks, trees2, subtasksForTask)
      ensures forall x :: x in old(appliedMethod) && x != expanded ==> x in appliedMethod && appliedMethod[x] == old(appliedMethod)[x]
    {
      hide WellNamed, InlineName, TaskText, Without, AllClean, ReadArguments, Good, Encode, Size, IdMap, Encoded, SubtasksIn;
      ghost var t, list := trees[expanded], Subtasks(expanded);
      assert TreeOk(appliedMethod[expanded], t, list);
      EncodeWellNamed(t);
      GoodParts(t);
      EncodeWellNamed(t.main);
      EncodeWellNamed(t.inner);
      ghost var p, k := t.position, Size(t.inner);
      ghost var before, middle, after := list[..p], list[p..p + k], list[p + k..];
      assert list == before + middle + after;
      var c := ExpandCompressedMethod(expanded, Encode(t.main), t.task, t.arguments, Encode(t.inner), before, middle, after);
      created := c;
      trees2 := trees[c := t.inner][expanded := t.main];
      TreesStep(old(appliedMethod), trees, old(subtasksForTask), expanded, c, before, middle, after, subtasksForTask);
    }

    /** Lines 592-604 until nothing is encoded any more: every task that had a method keeps its decomposition, with every undone inlining
        as a task of its own, and no encoded name is left. */
    method ExpandAll(ghost trees0: Trees) returns (ghost trees: Trees)
      requires Valid() && TreesOk(appliedMethod, trees0, subtasksForTask)
      modifies this
      ensures Valid() && TreesOk(appliedMethod, trees, subtasksForTask)
      ensures forall id :: id in appliedMethod ==> !Encoded(appliedMethod[id])
      ensures AllDecomposed(trees0, old(subtasksForTask), tasks, trees, subtasksForTask)
    {
      hide TreesOk, Decomposed, Encoded, SubtasksIn;
      trees := trees0;
      AtFirst(trees0, tasks, subtasksForTask);
      var expand := ToExpand();
      while |expand| > 0
        invariant Valid() && TreesOk(appliedMethod, trees, subtasksForTask) && AllEncoded(expand, 0, appliedMethod)
        invariant |expand| == 0 ==> forall id :: id in appliedMethod ==> !Encoded(appliedMethod[id])
        invariant AllDecomposed(trees0, old(subtasksForTask), tasks, trees, subtasksForTask)
        decreases Total(trees)
      {
        trees := ExpandRound(expand, trees0, old(subtasksForTask), trees);
        expand := ToExpand();
      }
    }

    /** Lines 600-601: the listed tasks are expanded one after the other. */
    method ExpandRound(expand: seq<nat>, ghost trees0: Trees, ghost subtasks0: map<nat, seq<nat>>, ghost trees1: Trees) returns (ghost trees: Trees)
      requires Valid() && TreesOk(appliedMethod, trees1, subtasksForTask) && AllEncoded(expand, 0, appliedMethod) && |expand| > 0
      requires AllDecomposed(trees0, subtasks0, tasks, trees1, subtasksForTask)
      modifies this
      ensures Valid() && TreesOk(appliedMethod, trees, subtasksForTask) && Total(trees) < Total(trees1)
      ensures AllDecomposed(trees0, subtasks0, tasks, trees, subtasksForTask)
    {
      hide TreesOk, Encoded, SubtasksIn, Total, AllDecomposed, Undone;
      trees := trees1;
      var i: nat := 0;
      while i < |expand|
        invariant i <= |expand| && Valid() && TreesOk(appliedMethod, trees, subtasksForTask) && AllEncoded(expand, i, appliedMethod)
        invariant AllDecomposed(trees0, subtasks0, tasks, trees, subtasksForTask)
        invariant Total(trees) + i <= Total(trees1)
      {
        ghost var before, subs, was := tasks, subtasksForTask, trees;
        ghost var created;
        created, trees := ExpandOne(expand[i], trees);
        OneLess(expand[i], created, before, was, subs, tasks, trees, subtasksForTask);
        AllStill(trees0, subtasks0, before, was, subs, expand[i], created, tasks, trees, subtasksForTask);
        i := i + 1;
      }
    }

    /** The tasks whose method is an encoded name. */
    method ToExpand() returns (expand: seq<nat>)
      ensures AllEncoded(expand, 0, appliedMethod)
      ensures |expand| == 0 ==> forall id :: id in appliedMethod ==> !Encoded(appliedMethod[id])
    {
      expand := [];
      var left := appliedMethod.Keys;
      while left != {}
        invariant left <= appliedMethod.Keys && AllEncoded(expand, 0, appliedMethod)
        invariant forall i :: 0 <= i < |expand| ==> expand[i] !in left
        invariant |expand| == 0 ==> forall id :: id in appliedMethod && id !in left ==> !Encoded(appliedMethod[id])
        decreases |left|
      {
        var x := Pick(left);
        left := left - {x};
        if |appliedMethod[x]| > 0 && appliedMethod[x][0] == '<' { expand := expand + [x]; }
      }
    }

    /** std::stoi on a number. */
    static method NumberOf(s: string) returns (x: nat)
      requires StrToL(s).Some? && StrToL(s).value >= 0
      ensures StrToL(s) == Some(x)
    {
      x := StrToL(s).value;
    }

    static method InKeyOrder(m: map<nat, nat>, bound: nat) returns (values: seq<nat>)
      ensures values == Collect(m, bound)
    {
      values := [];
      for i := 0 to bound
        invariant values == Collect(m, i)
      {
        if i in m { values := values + [m[i]]; }
      }
    }

    static lemma InnerOrder(inner: map<nat, nat>, before: seq<nat>, middle: seq<nat>, after: seq<nat>, bound: nat)
      requires (forall j: nat :: j in inner <==> j < |middle|) && bound >= |middle|
      requires forall j: nat :: j < |middle| ==> inner[j] == (before + middle + after)[|before| + j]
      ensures Collect(inner, bound) == middle
    {
      CollectAll(inner, |middle|, middle);
      CollectMore(inner, |middle|, bound);
    }

    static lemma MainOrder(main: map<nat, nat>, before: seq<nat>, middle: seq<nat>, after: seq<nat>, created: nat, top: nat)
      requires (forall x: nat :: x in main <==> x < |before| + 1 + |after|) && forall x :: x in main ==> x < top
      requires main[|before|] == created
      requires forall x: nat :: x in main && x != |before| ==>
        0 <= From(|before|, |middle|, x) < |before + middle + after| && main[x] == (before + middle + after)[From(|before|, |middle|, x)]
      ensures Collect(main, top) == before + [created] + after
    {
      var list := before + [created] + after;
      assert |before| + |after| in main;
      forall x: nat | x < |list| ensures x in main && main[x] == list[x] {
        if x != |before| { assert main[x] == (before + middle + after)[From(|before|, |middle|, x)]; }
      }
      CollectAll(main, |list|, list);
      CollectMore(main, |list|, top);
    }
  }
}
