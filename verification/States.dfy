/** Ground states, actions and plans, and literals over state bits. */
module States {

  type State = seq<bool>

  /** Literal l >= 0 says that bit l is true, literal l < 0 that bit -l-1 is false (Model.cpp:2158). */
  function Bit(l: int): int {
    if l >= 0 then l else -l - 1
  }

  function Not(l: int): int {
    -l - 1
  }

  predicate IsLiteral(n: nat, l: int) {
    0 <= Bit(l) < n
  }

  predicate Holds(s: State, l: int)
    requires IsLiteral(|s|, l)
  {
    if l >= 0 then s[l] else !s[-l - 1]
  }

  type Clause = (int, int)

  predicate IsClause(n: nat, c: Clause) {
    IsLiteral(n, c.0) && IsLiteral(n, c.1)
  }

  predicate Satisfies(s: State, c: Clause)
    requires IsClause(|s|, c)
  {
    Holds(s, c.0) || Holds(s, c.1)
  }

  ghost predicate SatisfiesAll(s: State, cs: set<Clause>) {
    forall c :: c in cs ==> IsClause(|s|, c) && Satisfies(s, c)
  }

  /** The ground part of the planning model the engine works on: effects both as lists and as bit vectors. */
  datatype Task = Task(n: nat, s0List: seq<int>,
                       precLists: seq<seq<int>>, addLists: seq<seq<int>>, delLists: seq<seq<int>>,
                       addVectors: seq<seq<bool>>, delVectors: seq<seq<bool>>)
  {
    ghost predicate Valid() {
      && |precLists| == |addLists| == |delLists| == |addVectors| == |delVectors|
      && (forall i :: 0 <= i < |s0List| ==> 0 <= s0List[i] < n)
      && (forall t, i :: 0 <= t < |precLists| && 0 <= i < |precLists[t]| ==> 0 <= precLists[t][i] < n)
      && (forall t :: 0 <= t < |addVectors| ==> |addVectors[t]| == |delVectors[t]| == n)
      && (forall t :: 0 <= t < |addLists| ==> Mirrors(addLists[t], addVectors[t]) && Mirrors(delLists[t], delVectors[t]))
    }

    ghost predicate Mirrors(list: seq<int>, vector: seq<bool>) {
      && |vector| == n
      && (forall i :: 0 <= i < |list| ==> 0 <= list[i] < n && vector[list[i]])
      && (forall p :: 0 <= p < n && vector[p] ==> p in list)
    }

    /** No action adds and deletes the same bit; applyEffectPriority sees to that. */
    ghost predicate EffectsDisjoint()
      requires Valid()
    {
      forall t, p :: 0 <= t < |addVectors| && 0 <= p < n ==> !(addVectors[t][p] && delVectors[t][p])
    }

    ghost predicate Initial(s: State) {
      |s| == n && forall p :: 0 <= p < n ==> (s[p] <==> p in s0List)
    }

    ghost predicate Applicable(s: State, t: int)
      requires Valid() && |s| == n && 0 <= t < |precLists|
    {
      forall i :: 0 <= i < |precLists[t]| ==> s[precLists[t][i]]
    }

    /** Deletions first, then additions (Model.cpp:966-971). */
    ghost function Apply(s: State, t: int): (r: State)
      requires Valid() && |s| == n && 0 <= t < |precLists|
      ensures |r| == n
      ensures forall p :: 0 <= p < n ==> r[p] == (addVectors[t][p] || (s[p] && !delVectors[t][p]))
    {
      seq(n, p requires 0 <= p < n => addVectors[t][p] || (s[p] && !delVectors[t][p]))
    }

    /** Executing the actions of plan one after the other leads from s to r. */
    ghost predicate Executes(s: State, plan: seq<int>, r: State)
      requires Valid() && |s| == n
      decreases |plan|
    {
      if plan == [] then
        r == s
      else
        0 <= plan[0] < |precLists| && Applicable(s, plan[0]) && Executes(Apply(s, plan[0]), plan[1..], r)
    }
  }
}
