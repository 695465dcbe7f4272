/** The sorted task multiset of a search node, updated by applying an action or a method
    (Model.cpp:237-263, 388-486). */
module TaskCounter {

  /** containedTasks and containedTaskCount: strictly increasing task numbers, each with a positive count. */
  datatype Counter = Counter(tasks: seq<int>, counts: seq<int>)
  {
    ghost predicate Valid() {
      && |tasks| == |counts|
      && (forall i, j :: 0 <= i < j < |tasks| ==> tasks[i] < tasks[j])
      && (forall i :: 0 <= i < |counts| ==> counts[i] > 0)
    }

    /** The multiplicity of task t. */
    ghost function Of(t: int): int
      requires |tasks| == |counts|
    {
      OfUpTo(t, |tasks|)
    }

    /** The multiplicity among the first k entries. */
    ghost function OfUpTo(t: int, k: nat): int
      requires k <= |tasks| == |counts|
    {
      if k == 0 then 0 else OfUpTo(t, k - 1) + (if tasks[k - 1] == t then counts[k - 1] else 0)
    }
  }

  lemma {:induction false} OfAbsent(c: Counter, t: int, k: nat)
    requires k <= |c.tasks| == |c.counts| && forall i :: 0 <= i < k ==> c.tasks[i] != t
    ensures c.OfUpTo(t, k) == 0
    decreases k
  {
    if k > 0 { OfAbsent(c, t, k - 1); }
  }

  lemma {:induction false} OfPresent(c: Counter, i: nat, k: nat)
    requires c.Valid() && i < |c.tasks| && k <= |c.tasks|
    ensures c.OfUpTo(c.tasks[i], k) == if i < k then c.counts[i] else 0
    decreases k
  {
    if k > 0 { OfPresent(c, i, k - 1); }
  }

  lemma {:induction false} OfPrefix(c: Counter, d: Counter, t: int, k: nat)
    requires k <= |c.tasks| == |c.counts| && k <= |d.tasks| == |d.counts|
    requires forall i :: 0 <= i < k ==> c.tasks[i] == d.tasks[i] && c.counts[i] == d.counts[i]
    ensures c.OfUpTo(t, k) == d.OfUpTo(t, k)
    decreases k
  {
    if k > 0 { OfPrefix(c, d, t, k - 1); }
  }

  function Push(c: Counter, t: int, n: int): Counter {
    Counter(c.tasks + [t], c.counts + [n])
  }

  lemma OfPush(c: Counter, t: int, n: int, x: int)
    requires |c.tasks| == |c.counts|
    ensures Push(c, t, n).Of(x) == c.Of(x) + (if x == t then n else 0)
  {
    OfPrefix(c, Push(c, t, n), x, |c.tasks|);
  }

  /** IntUtil::indexOf: binary search in a sorted list; -1 when the value is not between low and high. */
  method IndexOf(sorted: seq<int>, low0: int, high0: int, value: int) returns (r: int)
    requires 0 <= low0 && high0 < |sorted| && forall i, j :: 0 <= i < j < |sorted| ==> sorted[i] < sorted[j]
    ensures r == -1 || (low0 <= r <= high0 && sorted[r] == value)
    ensures r == -1 ==> forall i :: low0 <= i <= high0 ==> sorted[i] != value
  {
    var low, high := low0, high0;
    while low <= high
      invariant low0 <= low && high <= high0
      invariant forall i :: low0 <= i < low && i <= high0 ==> sorted[i] < value
      invariant forall i :: high < i <= high0 && low0 <= i ==> sorted[i] > value
    {
      var mid := low + (high - low) / 2;
      if sorted[mid] == value {
        return mid;
      } else if sorted[mid] > value {
        high := mid - 1;
      } else {
        low := mid + 1;
      }
    }
    return -1;
  }

  /** updateTaskCounterA (237-263): one occurrence of action disappears. */
  method UpdateTaskCounterA(parent: Counter, action: int) returns (n: Counter)
    requires parent.Valid() && action in parent.tasks
    ensures n.Valid() && forall t :: n.Of(t) == parent.Of(t) - (if t == action then 1 else 0)
  {
    var ai := IndexOf(parent.tasks, 0, |parent.tasks| - 1, action);
    var removeAI := parent.counts[ai] == 1;
    ghost var numContainedTasks := if removeAI then |parent.tasks| - 1 else |parent.tasks|;
    n := Counter([], []);
    for i := 0 to ai
      invariant n == Counter(parent.tasks[..i], parent.counts[..i])
    {
      n := Push(n, parent.tasks[i], parent.counts[i]);
    }
    if !removeAI {
      n := Push(n, parent.tasks[ai], parent.counts[ai] - 1);
    }
    ghost var shift := if removeAI then 1 else 0;
    for i := ai + 1 to |parent.tasks|
      invariant |n.tasks| == |n.counts| == i - shift
      invariant forall j :: 0 <= j < ai ==> n.tasks[j] == parent.tasks[j] && n.counts[j] == parent.counts[j]
      invariant !removeAI ==> n.tasks[ai] == action && n.counts[ai] == parent.counts[ai] - 1
      invariant forall j :: ai < j < i ==> n.tasks[j - shift] == parent.tasks[j] && n.counts[j - shift] == parent.counts[j]
    {
      n := Push(n, parent.tasks[i], parent.counts[i]);
    }
    assert |n.tasks| == numContainedTasks;
    OneLess(parent, n, ai);
  }

  /** The list without entry ai, or with its count lowered. */
  lemma OneLess(parent: Counter, n: Counter, ai: nat)
    requires parent.Valid() && ai < |parent.tasks| && |n.tasks| == |n.counts|
    requires var shift := if parent.counts[ai] == 1 then 1 else 0;
      && |n.tasks| == |parent.tasks| - shift
      && (forall j :: 0 <= j < ai ==> n.tasks[j] == parent.tasks[j] && n.counts[j] == parent.counts[j])
      && (shift == 0 ==> n.tasks[ai] == parent.tasks[ai] && n.counts[ai] == parent.counts[ai] - 1)
      && (forall j :: ai < j < |parent.tasks| ==> n.tasks[j - shift] == parent.tasks[j] && n.counts[j - shift] == parent.counts[j])
    ensures n.Valid() && forall t :: n.Of(t) == parent.Of(t) - (if t == parent.tasks[ai] then 1 else 0)
  {
    var shift := if parent.counts[ai] == 1 then 1 else 0;
    forall i, j | 0 <= i < j < |n.tasks| ensures n.tasks[i] < n.tasks[j] {
      var i2 := if i < ai then i else i + shift;
      var j2 := if j < ai then j else j + shift;
      assert n.tasks[i] == parent.tasks[i2] && n.tasks[j] == parent.tasks[j2];
    }
    forall i | 0 <= i < |n.counts| ensures n.counts[i] > 0 {
      var i2 := if i < ai then i else i + shift;
      assert parent.counts[i2] > 0;
      if i2 == ai {
        assert shift == 0 && n.counts[i] == parent.counts[ai] - 1;
      } else {
        assert n.counts[i2 - (if i2 > ai then shift else 0)] == parent.counts[i2];
      }
    }
    forall t ensures n.Of(t) == parent.Of(t) - (if t == parent.tasks[ai] then 1 else 0) {
      LessUpTo(parent, n, ai, t, |parent.tasks|);
    }
  }

  lemma {:induction false} LessUpTo(parent: Counter, n: Counter, ai: nat, t: int, k: nat)
    requires parent.Valid() && ai < k <= |parent.tasks| && |n.tasks| == |n.counts|
    requires var shift := if parent.counts[ai] == 1 then 1 else 0;
      && |n.tasks| == |parent.tasks| - shift
      && (forall j :: 0 <= j < ai ==> n.tasks[j] == parent.tasks[j] && n.counts[j] == parent.counts[j])
      && (shift == 0 ==> n.tasks[ai] == parent.tasks[ai] && n.counts[ai] == parent.counts[ai] - 1)
      && (forall j :: ai < j < |parent.tasks| ==> n.tasks[j - shift] == parent.tasks[j] && n.counts[j - shift] == parent.counts[j])
    ensures n.OfUpTo(t, k - (if parent.counts[ai] == 1 then 1 else 0)) == parent.OfUpTo(t, k) - (if t == parent.tasks[ai] then 1 else 0)
    decreases k
  {
    if k == ai + 1 {
      OfPrefix(parent, n, t, ai);
    } else {
      LessUpTo(parent, n, ai, t, k - 1);
    }
  }

  // ----- updateTaskCounterM (388-486) -----

  /** How many of the first k tasks of d do not occur in p. */
  ghost function NewUpTo(p: Counter, d: Counter, k: nat): nat
    requires k <= |d.tasks|
  {
    if k == 0 then 0 else NewUpTo(p, d, k - 1) + (if d.tasks[k - 1] in p.tasks then 0 else 1)
  }

  /** The decomposed task vanishes from the list. */
  predicate Skip(removeAbs: bool, mAbs: int, t: int) {
    removeAbs && t == mAbs
  }

  /** Multiplicity among the first k entries that are not skipped. */
  ghost function KeptUpTo(p: Counter, removeAbs: bool, mAbs: int, t: int, k: nat): int
    requires k <= |p.tasks| == |p.counts|
  {
    if k == 0 then 0 else
      KeptUpTo(p, removeAbs, mAbs, t, k - 1) + (if p.tasks[k - 1] == t && !Skip(removeAbs, mAbs, t) then p.counts[k - 1] else 0)
  }

  /** Number of skipped entries among the first k. */
  ghost function SkippedUpTo(p: Counter, removeAbs: bool, mAbs: int, k: nat): nat
    requires k <= |p.tasks|
  {
    if k == 0 then 0 else SkippedUpTo(p, removeAbs, mAbs, k - 1) + (if Skip(removeAbs, mAbs, p.tasks[k - 1]) then 1 else 0)
  }

  /** The state of the merge: itn entries of p and im entries of d have been merged into n. */
  ghost predicate Merging(p: Counter, d: Counter, removeAbs: bool, mAbs: int, itn: nat, im: nat, n: Counter) {
    && p.Valid() && d.Valid() && n.Valid() && itn <= |p.tasks| && im <= |d.tasks|
    && (itn < |p.tasks| ==> forall j :: 0 <= j < |n.tasks| ==> n.tasks[j] < p.tasks[itn])
    && (im < |d.tasks| ==> forall j :: 0 <= j < |n.tasks| ==> n.tasks[j] < d.tasks[im])
    && (im < |d.tasks| ==> forall j :: 0 <= j < itn ==> Skip(removeAbs, mAbs, p.tasks[j]) || p.tasks[j] < d.tasks[im])
    && (forall t :: n.Of(t) == KeptUpTo(p, removeAbs, mAbs, t, itn) + d.OfUpTo(t, im))
    && |n.tasks| == itn - SkippedUpTo(p, removeAbs, mAbs, itn) + NewUpTo(p, d, im)
  }

  lemma MergeSkip(p: Counter, d: Counter, removeAbs: bool, mAbs: int, itn: nat, im: nat, n: Counter)
    requires Merging(p, d, removeAbs, mAbs, itn, im, n) && itn < |p.tasks| && Skip(removeAbs, mAbs, p.tasks[itn])
    ensures Merging(p, d, removeAbs, mAbs, itn + 1, im, n)
  {
  }

  /** The next entry of p is smaller, or d is exhausted. */
  lemma MergeLeft(p: Counter, d: Counter, removeAbs: bool, mAbs: int, itn: nat, im: nat, n: Counter)
    requires Merging(p, d, removeAbs, mAbs, itn, im, n) && itn < |p.tasks| && !Skip(removeAbs, mAbs, p.tasks[itn])
    requires im < |d.tasks| ==> p.tasks[itn] < d.tasks[im]
    ensures Merging(p, d, removeAbs, mAbs, itn + 1, im, Push(n, p.tasks[itn], p.counts[itn]))
  {
    forall t ensures Push(n, p.tasks[itn], p.counts[itn]).Of(t) == KeptUpTo(p, removeAbs, mAbs, t, itn + 1) + d.OfUpTo(t, im) {
      OfPush(n, p.tasks[itn], p.counts[itn], t);
    }
  }

  /** The next entry of d is smaller, or p is exhausted. */
  lemma MergeRight(p: Counter, d: Counter, removeAbs: bool, mAbs: int, itn: nat, im: nat, n: Counter)
    requires Merging(p, d, removeAbs, mAbs, itn, im, n) && im < |d.tasks| && (removeAbs ==> mAbs !in d.tasks)
    requires itn < |p.tasks| ==> d.tasks[im] < p.tasks[itn]
    ensures Merging(p, d, removeAbs, mAbs, itn, im + 1, Push(n, d.tasks[im], d.counts[im]))
  {
    assert d.tasks[im] !in p.tasks;
    forall t ensures Push(n, d.tasks[im], d.counts[im]).Of(t) == KeptUpTo(p, removeAbs, mAbs, t, itn) + d.OfUpTo(t, im + 1) {
      OfPush(n, d.tasks[im], d.counts[im], t);
    }
  }

  lemma MergeBoth(p: Counter, d: Counter, removeAbs: bool, mAbs: int, itn: nat, im: nat, n: Counter)
    requires Merging(p, d, removeAbs, mAbs, itn, im, n) && itn < |p.tasks| && im < |d.tasks| && p.tasks[itn] == d.tasks[im]
    requires !Skip(removeAbs, mAbs, p.tasks[itn])
    ensures Merging(p, d, removeAbs, mAbs, itn + 1, im + 1, Push(n, d.tasks[im], d.counts[im] + p.counts[itn]))
  {
    var m := Push(n, d.tasks[im], d.counts[im] + p.counts[itn]);
    forall t ensures m.Of(t) == KeptUpTo(p, removeAbs, mAbs, t, itn + 1) + d.OfUpTo(t, im + 1) {
      OfPush(n, d.tasks[im], d.counts[im] + p.counts[itn], t);
    }
  }

  lemma {:induction false} KeptAll(p: Counter, removeAbs: bool, mAbs: int, t: int, k: nat)
    requires k <= |p.tasks| == |p.counts|
    ensures KeptUpTo(p, removeAbs, mAbs, t, k) == if Skip(removeAbs, mAbs, t) then 0 else p.OfUpTo(t, k)
    decreases k
  {
    if k > 0 { KeptAll(p, removeAbs, mAbs, t, k - 1); }
  }

  lemma {:induction false} SkippedAll(p: Counter, removeAbs: bool, mAbs: int, i: nat, k: nat)
    requires p.Valid() && i < |p.tasks| && p.tasks[i] == mAbs && k <= |p.tasks|
    ensures SkippedUpTo(p, removeAbs, mAbs, k) == if removeAbs && i < k then 1 else 0
    decreases k
  {
    if k > 0 { SkippedAll(p, removeAbs, mAbs, i, k - 1); }
  }

  /** Lines 402-412: how many distinct subtasks are new. */
  method CountNew(p: Counter, d: Counter) returns (newElements: nat)
    requires p.Valid() && d.Valid()
    ensures newElements == NewUpTo(p, d, |d.tasks|)
  {
    newElements := 0;
    var low := 0;
    for i := 0 to |d.tasks|
      invariant newElements == NewUpTo(p, d, i)
      invariant 0 <= low <= |p.tasks| && forall j, k :: 0 <= j < low && i <= k < |d.tasks| ==> p.tasks[j] < d.tasks[k]
    {
      var index := IndexOf(p.tasks, low, |p.tasks| - 1, d.tasks[i]);
      if index >= 0 {
        low := index + 1;
      } else {
        newElements := newElements + 1;
      }
    }
  }

  /** The merge loop (432-481). The branches that skip the decomposed task among the subtasks are never taken, as it is
      removed only when it is no subtask. */
  method Merge(p: Counter, d: Counter, removeAbs: bool, mAbs: int) returns (n: Counter)
    requires p.Valid() && d.Valid() && (removeAbs ==> mAbs !in d.tasks)
    ensures Merging(p, d, removeAbs, mAbs, |p.tasks|, |d.tasks|, n)
  {
    hide Merging, NewUpTo, KeptUpTo, SkippedUpTo;
    n := Counter([], []);
    var itn, im := 0, 0;
    NothingMerged(p, d, removeAbs, mAbs);
    while itn < |p.tasks| || im < |d.tasks|
      invariant itn <= |p.tasks| && im <= |d.tasks| && Merging(p, d, removeAbs, mAbs, itn, im, n)
      decreases |p.tasks| - itn + |d.tasks| - im
    {
      if itn < |p.tasks| && im < |d.tasks| {
        if removeAbs && p.tasks[itn] == mAbs {
          MergeSkip(p, d, removeAbs, mAbs, itn, im, n);
          itn := itn + 1;
        } else if p.tasks[itn] < d.tasks[im] {
          MergeLeft(p, d, removeAbs, mAbs, itn, im, n);
          n := Push(n, p.tasks[itn], p.counts[itn]);
          itn := itn + 1;
        } else if p.tasks[itn] > d.tasks[im] {
          MergeRight(p, d, removeAbs, mAbs, itn, im, n);
          n := Push(n, d.tasks[im], d.counts[im]);
          im := im + 1;
        } else {
          MergeBoth(p, d, removeAbs, mAbs, itn, im, n);
          n := Push(n, d.tasks[im], d.counts[im] + p.counts[itn]);
          itn := itn + 1;
          im := im + 1;
        }
      } else if itn < |p.tasks| {
        if removeAbs && p.tasks[itn] == mAbs {
          MergeSkip(p, d, removeAbs, mAbs, itn, im, n);
        } else {
          MergeLeft(p, d, removeAbs, mAbs, itn, im, n);
          n := Push(n, p.tasks[itn], p.counts[itn]);
        }
        itn := itn + 1;
      } else {
        MergeRight(p, d, removeAbs, mAbs, itn, im, n);
        n := Push(n, d.tasks[im], d.counts[im]);
        im := im + 1;
      }
    }
  }

  lemma NothingMerged(p: Counter, d: Counter, removeAbs: bool, mAbs: int)
    requires p.Valid() && d.Valid()
    ensures Merging(p, d, removeAbs, mAbs, 0, 0, Counter([], []))
  {
  }

  /** One method application: the subtasks are added and one occurrence of the decomposed task disappears. The arrays of
      the code have exactly the size that is computed before they are filled. */
  method UpdateTaskCounterM(parent: Counter, distinct: Counter, mAbs: int) returns (n: Counter)
    requires parent.Valid() && distinct.Valid() && mAbs in parent.tasks
    ensures n.Valid() && forall t :: n.Of(t) == parent.Of(t) + distinct.Of(t) - (if t == mAbs then 1 else 0)
  {
    hide Merging;
    var newElements := CountNew(parent, distinct);
    var index := IndexOf(parent.tasks, 0, |parent.tasks| - 1, mAbs);
    var own := IndexOf(distinct.tasks, 0, |distinct.tasks| - 1, mAbs);
    var removeAbs := parent.counts[index] == 1 && own < 0;
    var numContainedTasks := |parent.tasks| + newElements - (if removeAbs then 1 else 0);
    n := Merge(parent, distinct, removeAbs, mAbs);
    MergeResult(parent, distinct, removeAbs, mAbs, index, n);
    assert |n.tasks| == numContainedTasks;
    if !removeAbs {
      var i := IndexOf(n.tasks, 0, |n.tasks| - 1, mAbs);
      TaskListed(n, mAbs);
      OfPresent(n, i, |n.tasks|);
      ghost var merged := n;
      n := n.(counts := n.counts[i := n.counts[i] - 1]);
      LowerCount(merged, n, i);
    }
  }

  lemma MergeResult(p: Counter, d: Counter, removeAbs: bool, mAbs: int, i: nat, n: Counter)
    requires p.Valid() && d.Valid() && i < |p.tasks| && p.tasks[i] == mAbs && Merging(p, d, removeAbs, mAbs, |p.tasks|, |d.tasks|, n)
    requires removeAbs <==> p.counts[i] == 1 && mAbs !in d.tasks
    ensures n.Valid() && |n.tasks| == |p.tasks| - (if removeAbs then 1 else 0) + NewUpTo(p, d, |d.tasks|)
    ensures forall t :: n.Of(t) == p.Of(t) + d.Of(t) - (if removeAbs && t == mAbs then 1 else 0)
    ensures !removeAbs ==> n.Of(mAbs) > 1
  {
    SkippedAll(p, removeAbs, mAbs, i, |p.tasks|);
    OfPresent(p, i, |p.tasks|);
    forall t ensures n.Of(t) == p.Of(t) + d.Of(t) - (if removeAbs && t == mAbs then 1 else 0) {
      KeptAll(p, removeAbs, mAbs, t, |p.tasks|);
      assert n.Of(t) == KeptUpTo(p, removeAbs, mAbs, t, |p.tasks|) + d.OfUpTo(t, |d.tasks|);
    }
    if mAbs in d.tasks {
      var j :| 0 <= j < |d.tasks| && d.tasks[j] == mAbs;
      OfPresent(d, j, |d.tasks|);
    } else {
      OfAbsent(d, mAbs, |d.tasks|);
    }
  }

  lemma TaskListed(n: Counter, t: int)
    requires n.Valid() && n.Of(t) > 0
    ensures t in n.tasks
  {
    if t !in n.tasks { OfAbsent(n, t, |n.tasks|); }
  }

  lemma LowerCount(n: Counter, m: Counter, i: nat)
    requires n.Valid() && i < |n.tasks| && n.counts[i] > 1 && m == n.(counts := n.counts[i := n.counts[i] - 1])
    ensures m.Valid() && forall t :: m.Of(t) == n.Of(t) - (if t == n.tasks[i] then 1 else 0)
  {
    forall t ensures m.Of(t) == n.Of(t) - (if t == n.tasks[i] then 1 else 0) {
      LowerUpTo(n, m, i, t, |n.tasks|);
    }
  }

  lemma {:induction false} LowerUpTo(n: Counter, m: Counter, i: nat, t: int, k: nat)
    requires n.Valid() && i < |n.tasks| && m == n.(counts := n.counts[i := n.counts[i] - 1]) && k <= |n.tasks|
    ensures m.OfUpTo(t, k) == n.OfUpTo(t, k) - (if i < k && t == n.tasks[i] then 1 else 0)
    decreases k
  {
    if k > 0 { LowerUpTo(n, m, i, t, k - 1); }
  }
}
