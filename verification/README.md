# Verified models of the PANDA planner's algorithms

The repository vendors the PANDA HTN planner: a parser that turns a hierarchical planning problem into a grounded one and
converts plans back, a grounder, and a progression search engine. The files here model its algorithmic cores in Dafny and
prove what each of them is relied upon for. Loops stay loops, objects whose methods rewrite their fields stay classes,
arrays that are filled in place stay arrays; each such method is proved against a specification, and the properties are
proved about that specification.

`dafny verify dfyconfig.toml` checks everything.

## What is modelled

Engine, task graph: `Tarjan` and `SccGraph` (components, component graph, reachability worklist, cyclicity pass),
`MethodOrdering` (closure, reduction and the three order flags), on the relations of `Relations`.

Engine, search: `ProgressionSystem` is plain progression search, one step applied or decomposed at a time.
`Progression` is the planner's transition system with its incremental bookkeeping (`TaskCounter` keeps the sorted
multiset of tasks) and its eager moves. A node stands for a configuration of the plain system; `apply` and `decompose`
are the plain move followed by a chain of eager moves and nothing else. Such chains keep solvability in both directions,
and with forced moves on a node is marked dead exactly when it has only actions to start with and none is applicable.

Engine, duplicate detection: `Trie` is the bit-level radix trie with its in-place splits, proved to be a map from bit
strings to payloads; `VisitedList` is the hash table of tries on top of it, in total-order and in parallel-sequence mode,
for any hash function.

Engine, invariants: `RintanenInvariants` (the shrinking fixpoint over two-literal clauses, shown to be the greatest
clean set) and `ClauseInference` (resolution and the all-but-one group rule, shown to contain only what its rules derive
and to be closed under them), over the ground states of `States`.

Grounder, lifted: `Rules` fixes the rules, their least model and the sets of matches; `FactIndex`, `StateMap` and `Gpg`
are the semi-naive join with fact index, look-ahead and the rule against duplicates. `HierarchyTyping` is the typing
search with its termination on subsumed, possibly unfinished entries.

Grounder, ground: `HornClosure` has the naive sweep and the counter-based worklist, which compute the same least set;
`GroundedPruning` alternates relaxed reachability with bottom-up and top-down passes. `Contraction` contracts blocks of
actions, `TopologicalSort` and `Inlining` inline methods of tasks with a single method.

Parser: `PlanNames` and `PlanExpansion` decode the nested names inlining leaves behind and restore the decomposition;
`OrderDecomposition` decomposes series-parallel orders.

## Results that differ from what one might expect

- CompressedSequenceSet.cpp:243-246: without padding bits a key that ends inside a node makes the split bit 64, which
  line 287 forbids. `Trie.CompressedSequenceTrie.Insert` is correct exactly when this does not happen, and
  `VisitedList.VisitedList.InsertVisi` says when it does: the bit string fills its last word and ends inside a stored one.
- VisitedList.cpp:396-421: an `else` seems to be missing, so in total-order mode alone the first listing is overwritten, and
  with both modes on the sequence is listed twice. Exactness survives both.
- Model.cpp:3067-3073: the flag for parallel sequences survives an initial method with forks only, or joins only
  (`MethodOrdering.ForkAccepted`; the exact condition is `SequencesExactly`).
- Invariants.cpp:427 compares a `size_t` with an `int` that starts at -1; the initial value acts as infinity and is
  modelled that way. Soundness needs disjoint add and delete lists, which postprocessing.cpp:64-95 establishes.
- Invariants.cpp:307 sets a precondition without looking for a clash; no contradiction is missed for all that, because the
  clause is met again from its other half.
- hierarchy-typing.cpp:47-61 leaves the tail of the first set; `IntersectionExactly` says when the result is the
  intersection. Line 172 takes the first sorts of the domain for the top task's variables instead of their own sorts;
  coverage is stated for top instances over those sets, which is no restriction for a parameterless top task.
- plan.cpp:88-105 reads one empty argument from an empty argument list, so a task is read back exactly if and only if it
  has an argument.
- orderingDecomposition.cpp: for a cyclic ordering no tree can be right. For an order that is not series-parallel the
  code takes the full set for a split and never returns; the model reports failure there.
- groundedGPG.cpp:372-373: if the first reachability pass prunes no action and no first round is asked for, the other two
  passes never run, and methods without use stay unpruned.

## Model

| member | source | states |
|---|---|---|
| Tarjan.CalcSccs | pandaPI/pandaPIengine/src/Model.cpp:2265-2390 | two tasks share a component number iff each reaches the other through method subtasks; every number below numSCCs is in use, so numSCCs is the number of components; edges between components go from a higher to a strictly lower number |
| Tarjan.SccAnalysis.constructor | pandaPI/pandaPIengine/src/Model.cpp:2265-2280 | before the search all tasks are unvisited, no task has a component, and the search invariant holds |
| Tarjan.SccAnalysis.Tarjan | pandaPI/pandaPIengine/src/Model.cpp:2339-2378 | a call for an unvisited task keeps the search invariant (black tasks see no unvisited ones, the stack is connected, finished components are maximal and ordered) and leaves the call summary: what was added to the stack, and what the lowlink bounds |
| Tarjan.SccAnalysis.Push | pandaPI/pandaPIengine/src/Model.cpp:2340-2346 | the task gets the next number, goes on top of the stack and begins an exploration that has seen nothing |
| Tarjan.SccAnalysis.ExploreAll | pandaPI/pandaPIengine/src/Model.cpp:2348-2366 | after all methods of the task every hierarchy edge from it has been followed |
| Tarjan.SccAnalysis.ExploreMethod | pandaPI/pandaPIengine/src/Model.cpp:2349-2365 | the exploration has seen exactly the subtasks of one more method |
| Tarjan.SccAnalysis.VisitSubtask | pandaPI/pandaPIengine/src/Model.cpp:2353-2363 | whichever of the three cases applies, the exploration has seen one more subtask |
| Tarjan.AfterCall | pandaPI/pandaPIengine/src/Model.cpp:2355-2359 | after the call for an unvisited subtask, lowering the lowlink keeps its two-sided meaning: some reachable stack entry has that number, and nothing above reaches a smaller one |
| Tarjan.AfterVisited | pandaPI/pandaPIengine/src/Model.cpp:2360-2363 | the same when the subtask is on the stack; a subtask of a finished component needs no update |
| Tarjan.SccAnalysis.Leave | pandaPI/pandaPIengine/src/Model.cpp:2368-2377 | leaving a task keeps the search invariant, whether a component is popped or the task stays on the stack |
| Tarjan.TopIsClosed | pandaPI/pandaPIengine/src/Model.cpp:2368-2377 | when lowlink and number of v agree, no edge leads from the stack above v to below it or to an unvisited task |
| Tarjan.TopIsConnected | pandaPI/pandaPIengine/src/Model.cpp:2368-2377 | then everything above v and v reach each other |
| Tarjan.LeavePopped | pandaPI/pandaPIengine/src/Model.cpp:2368-2377 | popping down to v keeps the search invariant: the new number is one maximal component, numbered below all that can reach it |
| Tarjan.LeaveOnStack | pandaPI/pandaPIengine/src/Model.cpp:2368-2377 | a task that reaches further down the stack may turn black without being popped |
| Tarjan.SccAnalysis.PopComponent | pandaPI/pandaPIengine/src/Model.cpp:2369-2376 | exactly the tasks above the given part of the stack get the current number; the stack is cut there and one number is used up |
| SccGraph.ComponentsNumbered | pandaPI/pandaPIengine/src/Model.cpp:2265-2390 | what calcSCCs delivers is a numbering as the component graph needs it |
| SccGraph.ConstructSccGraph | pandaPI/pandaPIengine/src/Model.cpp:2392-2465 | the two adjacency tables hold exactly the component pairs joined by a hierarchy edge, in either direction |
| SccGraph.InverseMapping | pandaPI/pandaPIengine/src/Model.cpp:2296-2309 | each component number is mapped to exactly its tasks |
| SccGraph.CalcReachability | pandaPI/pandaPIengine/src/Model.cpp:2514-2590 | reachable[t] is exactly the set of maintained tasks that t reaches, itself included, and the worklist takes every component exactly once |
| SccGraph.AllProcessed | pandaPI/pandaPIengine/src/Model.cpp:2535-2590 | when the stack is empty no component still waits, because a waiting one has a waiting successor with a smaller number |
| SccGraph.WriteBack | pandaPI/pandaPIengine/src/Model.cpp:2541-2567 | once all successor components are done, the collected set is what each task of the component reaches |
| SccGraph.Release | pandaPI/pandaPIengine/src/Model.cpp:2570-2576 | finishing a component pushes exactly those predecessors that now wait for nothing |
| SccGraph.CyclicComponent | pandaPI/pandaPIengine/src/Model.cpp:2311-2328 | a task lies on a cycle iff its component has two tasks or it is a subtask of itself |
| SccGraph.CyclicComponents | pandaPI/pandaPIengine/src/Model.cpp:2311-2328 | exactly the components whose tasks lie on a cycle are reported |
| SccGraph.HasSelfLoop | pandaPI/pandaPIengine/src/Model.cpp:2311-2325 | the loop answers whether a task is a subtask of one of its own methods |
| SccGraph.AnalyseCyclicity | pandaPI/pandaPIengine/src/Model.cpp:2474-2502 | after the single pass in index order a component is marked acyclic iff none of its tasks reaches a cycle |
| SccGraph.AcyclicStep | pandaPI/pandaPIengine/src/Model.cpp:2488-2502 | a task reaches no cycle iff its component is none and no successor component reaches one |
| Relations.Warshall | pandaPI/pandaPIengine/src/Model.cpp:3019-3025 | the in-place triple loop turns the matrix of a relation into that of its transitive closure, although rows are read while being rewritten |
| MethodOrdering.Reduce | pandaPI/pandaPIengine/src/Model.cpp:3026-3039 | what is left of a transitive matrix is exactly its covering relation |
| MethodOrdering.ReductionKeepsClosure | pandaPI/pandaPIengine/src/Model.cpp:3009-3039 | for acyclic orderings the covering relation of the closure has the closure of the input |
| MethodOrdering.NoRedundantEdge | pandaPI/pandaPIengine/src/Model.cpp:3009-3039 | no edge of the reduction follows from the others |
| MethodOrdering.TotalExactly | pandaPI/pandaPIengine/src/Model.cpp:3042-3081 | counting exceptions decides totality: at most one element without exactly one successor and at most one without exactly one predecessor iff the closure is a total order |
| MethodOrdering.SequencesExactly | pandaPI/pandaPIengine/src/Model.cpp:3042-3081 | what the flag for parallel sequences accepts: total orders, and for the initial method chains side by side, or forks only, or joins only |
| MethodOrdering.ForkAccepted | pandaPI/pandaPIengine/src/Model.cpp:3067-3073 | an initial method with one step before two others is no set of sequences but keeps the flag |
| MethodOrdering.Model.ComputeTransitiveChange | pandaPI/pandaPIengine/src/Model.cpp:3009-3088 | one method: the stored ordering becomes the closure or the reduction, and the three flags are cleared exactly when the closure fails their tests |
| MethodOrdering.Model.ReadMethods | pandaPI/pandaPIengine/src/Model.cpp:1860-1894 | after reading, every ordering is the irredundant reduction of its input with the same closure; isTotallyOrdered holds iff every closure is a total order; the other two flags hold iff every method passes |
| TaskCounter.IndexOf | pandaPI/pandaPIengine/src/Model.cpp:237-263 | binary search finds the entry of a value in a sorted list iff there is one |
| TaskCounter.UpdateTaskCounterA | pandaPI/pandaPIengine/src/Model.cpp:237-263 | the sorted multiset loses exactly one occurrence of the action |
| TaskCounter.CountNew | pandaPI/pandaPIengine/src/Model.cpp:402-412 | the merge-like count is the number of subtasks that do not occur yet |
| TaskCounter.Merge | pandaPI/pandaPIengine/src/Model.cpp:432-481 | the merge of two sorted lists adds multiplicities and leaves out what is to be removed, in exactly the space computed before |
| TaskCounter.UpdateTaskCounterM | pandaPI/pandaPIengine/src/Model.cpp:388-486 | the sorted multiset gains the subtasks and loses one occurrence of the decomposed task |
| ProgressionSystem.DropFreeStep | pandaPI/pandaPIengine/src/Model.cpp:902-911 | from any run the move of an effect-free step can be dropped, giving a run without that step |
| ProgressionSystem.FreeStepSafe | pandaPI/pandaPIengine/src/Model.cpp:902-911 | applying an applicable effect-free first step at once neither loses nor invents a plan |
| ProgressionSystem.ForcedStepSafe | pandaPI/pandaPIengine/src/Model.cpp:912-933 | with actions as only first steps and one of them applicable, applying it neither loses nor invents a plan |
| ProgressionSystem.EagerSafe | pandaPI/pandaPIengine/src/Model.cpp:902-938 | a chain of eager moves of any length keeps solvability in both directions |
| ProgressionSystem.DeadEnd | pandaPI/pandaPIengine/src/Model.cpp:934-937 | with actions as only first steps and none applicable there is no plan |
| Progression.GenerateMethodRepresentation | pandaPI/pandaPIengine/src/Model.cpp:1491-1535 | the first and last tasks of a method are exactly the positions without predecessor and without successor |
| Progression.Model.constructor | pandaPI/pandaPIengine/src/Model.cpp:1482-1541 | the tables agree with every method of the domain |
| Progression.Model.PrepareTNi | pandaPI/pandaPIengine/src/Model.cpp:2641-2673 | the initial node holds the initial task alone, in exactly the initial state, and meets the node invariant |
| Progression.Model.IsGoal | pandaPI/pandaPIengine/src/Model.cpp:1403-1411 | a node is accepted iff no step remains at all and the goal holds |
| Progression.Model.FindFirsts | pandaPI/pandaPIengine/src/Model.cpp:1011-1058 | exactly those successors are released that the applied step alone held back; the elimination loop ends |
| Progression.Model.Eliminate | pandaPI/pandaPIengine/src/Model.cpp:1038-1058 | a candidate is struck out iff some remaining step precedes it; every step is looked at once |
| Progression.Model.ApplyEffects | pandaPI/pandaPIengine/src/Model.cpp:966-971 | deletions first, then additions |
| Progression.Model.IsApplicable | pandaPI/pandaPIengine/src/Model.cpp:1395-1401 | the test accepts exactly the states that hold all preconditions |
| Progression.Model.OtherPrimitives | pandaPI/pandaPIengine/src/Model.cpp:1083-1120 | the other unconstrained actions stay, the applied one goes, and exactly the applicable effect-free ones are noted |
| Progression.Model.BuildApplied | pandaPI/pandaPIengine/src/Model.cpp:1083-1141 | the two arrays hold exactly the first steps of what remains after the action |
| Progression.Model.AddSteps | pandaPI/pandaPIengine/src/Model.cpp:672-697 | every new first step goes into the array of its kind, once |
| Progression.Model.Apply | pandaPI/pandaPIengine/src/Model.cpp:1001-1376 | the result stands for the configuration after the action followed by eager moves and nothing else; it meets the node invariant; no effect-free action and no forced action is left; it is marked dead iff only inapplicable actions are left |
| Progression.Model.ProgressEagerly | pandaPI/pandaPIengine/src/Model.cpp:902-938 | eager progression ends in a node with a plan iff there was one, with no eager move left |
| Progression.Model.ProgressForced | pandaPI/pandaPIengine/src/Model.cpp:912-937 | a single applicable action is applied, no applicable action marks the node dead, several leave it alone |
| Progression.Model.FindForced | pandaPI/pandaPIengine/src/Model.cpp:914-924 | the answer is the only applicable action, or that there is none, or that there are two |
| Progression.Model.InitializeMethod | pandaPI/pandaPIengine/src/Model.cpp:940-998 | the new steps are linked as the method orders them and the last ones inherit the successors of the decomposed step; old steps are untouched |
| Progression.Model.ReplaceStep | pandaPI/pandaPIengine/src/Model.cpp:604-745 | the node stands for exactly the configuration after the decomposition, with the multiset of tasks kept in step |
| Progression.Model.Decompose | pandaPI/pandaPIengine/src/Model.cpp:488-938 | as for apply: the decomposition followed by eager moves only, invariant kept, dead iff stuck, no eager move left |
| Progression.LinkLasts | pandaPI/pandaPIengine/src/Model.cpp:653-661 | exactly the last steps of the method get the successors of the decomposed step |
| Progression.RemainingLeast | pandaPI/pandaPIengine/src/Model.cpp:604-721 | the remaining steps are the least set closed under successors around the two arrays, so the arrays determine the node |
| Progression.AppliedFirsts | pandaPI/pandaPIengine/src/Model.cpp:1083-1141 | first steps after an action: the old ones without it and the released ones |
| Progression.InstanceFirsts | pandaPI/pandaPIengine/src/Model.cpp:604-721 | exactly the first tasks of a method become first steps of the new node |
| Progression.DoneExactly | pandaPI/pandaPIengine/src/Model.cpp:1403-1411 | nothing remains iff both arrays are empty |
| Trie.CompressedSequenceTrie.constructor | pandaPI/pandaPIengine/src/intDataStructures/CompressedSequenceSet.cpp:64-77 | the new node stores exactly the given bit string, without payload |
| Trie.CompressedSequenceTrie.Suffix | pandaPI/pandaPIengine/src/intDataStructures/CompressedSequenceSet.cpp:80-96 | the new node stores exactly what follows the given position |
| Trie.CompressedSequenceTrie.Rest | pandaPI/pandaPIengine/src/intDataStructures/CompressedSequenceSet.cpp:101-121 | the new node takes over rest, payload and children from the position on |
| Trie.CompressedSequenceTrie.SplitMeAt | pandaPI/pandaPIengine/src/intDataStructures/CompressedSequenceSet.cpp:98-149 | splitting keeps every stored string and payload and adds one slot, empty, for the common prefix |
| Trie.CompressedSequenceTrie.FindDifference | pandaPI/pandaPIengine/src/intDataStructures/CompressedSequenceSet.cpp:161-180 | the block found is the first one in which key and string differ, or there is none on the common part |
| Trie.CompressedSequenceTrie.FirstDifference | pandaPI/pandaPIengine/src/intDataStructures/CompressedSequenceSet.cpp:263-276 | the bit found is the first in which key and string differ |
| Trie.CompressedSequenceTrie.AttachLeaf | pandaPI/pandaPIengine/src/intDataStructures/CompressedSequenceSet.cpp:199-205 | exactly one slot is added, that of the key |
| Trie.CompressedSequenceTrie.InsertBelow | pandaPI/pandaPIengine/src/intDataStructures/CompressedSequenceSet.cpp:189-240 | inserting behind a node grows the map by at most the key, other payloads stay |
| Trie.CompressedSequenceTrie.SplitHere | pandaPI/pandaPIengine/src/intDataStructures/CompressedSequenceSet.cpp:207-252 | a key that ends inside a node gets a slot unless there is no padding bit, in which case nothing is inserted |
| Trie.CompressedSequenceTrie.SplitAtDifference | pandaPI/pandaPIengine/src/intDataStructures/CompressedSequenceSet.cpp:255-281 | a key that leaves a node gets a sibling; all else is kept |
| Trie.CompressedSequenceTrie.Insert | pandaPI/pandaPIengine/src/intDataStructures/CompressedSequenceSet.cpp:151-283 | the returned slot belongs to exactly the given bit string, is empty iff that was never set, and every other string keeps its payload; refusal happens iff padding is 0 and the key ends inside a node |
| Trie.CompressedSequenceTrie.Store | pandaPI/pandaPIengine/src/intDataStructures/CompressedSequenceSet.cpp:151-283 | with the payload written the trie is the map with one entry updated, and the old value is returned |
| Trie.Replay | pandaPI/pandaPIengine/src/intDataStructures/CompressedSequenceSet.cpp:399-441 | over any run of insertions with padding the trie equals the map written by the same entries |
| Trie.PaddingZeroFails | pandaPI/pandaPIengine/src/intDataStructures/CompressedSequenceSet.cpp:243-246 | without padding bits a concrete pair of strings makes the split position illegal |
| VisitedList.ToDfs | pandaPI/pandaPIengine/src/VisitedList.cpp:150-155 | the recursion appends exactly the task sequence of a chain |
| VisitedList.State2Int | pandaPI/pandaPIengine/src/VisitedList.cpp:27-51 | the words, masked by the padding, read back as exactly the bit string |
| VisitedList.TopSort | pandaPI/pandaPIengine/src/VisitedList.cpp:281-332 | for a totally ordered network the listing is the sequence of its tasks |
| VisitedList.AllChains | pandaPI/pandaPIengine/src/VisitedList.cpp:400-409 | the sequences of all chains, in the order of the arrays |
| VisitedList.SequenceForHashing | pandaPI/pandaPIengine/src/VisitedList.cpp:395-421 | the listing: in sequence mode the sorted sequences joined by a separator, in total-order mode alone the one sequence, in both modes the sequence in front |
| VisitedList.JoinInjective | pandaPI/pandaPIengine/src/VisitedList.cpp:400-421 | the separator makes the joined list readable again |
| VisitedList.SortCanonical | pandaPI/pandaPIengine/src/VisitedList.cpp:400-421 | sorting forgets exactly the order of the list of sequences |
| VisitedList.ListingTells | pandaPI/pandaPIengine/src/VisitedList.cpp:395-421 | equal listings mean equal multisets of sequences |
| VisitedList.CodeTells | pandaPI/pandaPIengine/src/VisitedList.cpp:395-427 | the bit strings of two nodes agree iff their states and their multisets of sequences do |
| VisitedList.VisitedList.Access | pandaPI/pandaPIengine/src/VisitedList.cpp:518-542 | the slot of the string is found or made in the bucket of the hash; no other bucket changes; a string is refused iff it has no padding and ends inside a stored one |
| VisitedList.VisitedList.InsertVisi | pandaPI/pandaPIengine/src/VisitedList.cpp:507-558 | the answer is true iff no earlier node had the same state and the same multiset of task sequences, whatever hash function is used |
| RintanenInvariants.InitialCandidates | pandaPI/pandaPIengine/src/Invariants.cpp:191-238 | exactly the two-literal clauses over different bits that are true initially, indexed under both literals |
| RintanenInvariants.Synthesis.constructor | pandaPI/pandaPIengine/src/Invariants.cpp:394-415 | the synthesis starts from all candidates |
| RintanenInvariants.Synthesis.ActionApplicable | pandaPI/pandaPIengine/src/Invariants.cpp:288-339 | an action is found inapplicable iff the literals inferred from its preconditions contradict each other, although a clash is not looked for when a precondition itself is set; otherwise exactly the inferred literals are marked |
| RintanenInvariants.Synthesis.NoClashAt | pandaPI/pandaPIengine/src/Invariants.cpp:310-336 | a clash with an earlier inference is always met when the clause is read from its other half |
| RintanenInvariants.Synthesis.ActionEffect | pandaPI/pandaPIengine/src/Invariants.cpp:343-391 | exactly the clauses the action may falsify are deleted |
| RintanenInvariants.Synthesis.CheckAction | pandaPI/pandaPIengine/src/Invariants.cpp:429-441 | one action: nothing removed means the action is clean, and no clause of a self-supporting set is ever removed |
| RintanenInvariants.RemovalKeepsSupported | pandaPI/pandaPIengine/src/Invariants.cpp:429-441 | deleting what an applicable action breaks takes nothing from a set that supports itself |
| RintanenInvariants.InvariantsSound | pandaPI/pandaPIengine/src/Invariants.cpp:394-449 | clauses that are clean under every action hold in every state reachable from the initial one |
| RintanenInvariants.ComputeInvariants | pandaPI/pandaPIengine/src/Invariants.cpp:394-449 | the result holds in every reachable state and is the greatest set of candidates that is clean under every action; the early stop comes only when all actions have been checked against the same set |
| ClauseInference.InvariantTable.Insert | pandaPI/pandaPIengine/src/Invariants.cpp:32-36 | exactly the clause, in both forms, is added |
| ClauseInference.InvariantTable.CanStateFeaturesCoOccur | pandaPI/pandaPIengine/src/Invariants.cpp:23-30 | refused iff the literals are opposite or the clause of their negations is present |
| ClauseInference.ExtractStated | pandaPI/pandaPIengine/src/Invariants.cpp:54-90 | all clauses stated by invariants, mutexes and groups are present, and nothing that does not follow |
| ClauseInference.InitialQueue | pandaPI/pandaPIengine/src/Invariants.cpp:100-111 | every clause over two facts waits in one of its forms |
| ClauseInference.ResolveOn | pandaPI/pandaPIengine/src/Invariants.cpp:122-139 | all nontrivial resolvents on the literal are present afterwards |
| ClauseInference.ProcessClause | pandaPI/pandaPIengine/src/Invariants.cpp:116-145 | the clause joins the finished ones, whose mutual resolvents are all present |
| ClauseInference.GroupEntailed | pandaPI/pandaPIengine/src/Invariants.cpp:151-175 | a literal that excludes all values of a variable but one forms a true clause with that value |
| ClauseInference.InferFromGroup | pandaPI/pandaPIengine/src/Invariants.cpp:151-175 | either the group rule gives nothing new for the literal and variable, or one derivable clause is added and queued |
| ClauseInference.GroupPass | pandaPI/pandaPIengine/src/Invariants.cpp:148-176 | nothing is queued iff the set is closed under the group rule |
| ClauseInference.EntailedIsClosed | pandaPI/pandaPIengine/src/Invariants.cpp:54-176 | the clauses true in all allowed states are closed under all rules, so the rules are sound |
| ClauseInference.ExtractInvariants | pandaPI/pandaPIengine/src/Invariants.cpp:54-176 | the result contains what is stated, is symmetric, closed under nontrivial resolution and the group rule, is contained in every set closed under the rules, and is true in every allowed state |
| ClauseInference.RefusalJustified | pandaPI/pandaPIengine/src/Invariants.cpp:23-30 | two literals refused together hold together in no allowed state |
| Contraction.ApplyEffectPriority | pandaPI/pandaPIgrounder/src/postprocessing.cpp:64-95 | the effects of exactly the unpruned primitive tasks are rewritten so that contested facts are deleted if they stand for a negation and added otherwise |
| Contraction.PriorityDisjoint | pandaPI/pandaPIgrounder/src/postprocessing.cpp:64-95 | afterwards no fact is both added and deleted, and no effect is lost |
| Contraction.ComplementsKept | pandaPI/pandaPIgrounder/src/postprocessing.cpp:64-95 | with the priorities a fact and its compiled negation stay complementary under every action |
| Contraction.ComplementsLost | pandaPI/pandaPIgrounder/src/postprocessing.cpp:64-95 | without them a concrete action breaks this |
| Contraction.ContractBlock | pandaPI/pandaPIgrounder/src/postprocessing.cpp:715-744 | the macro action is applicable in exactly the states that execute the block and gives the same successor; the block is rejected iff no state executes it |
| Contraction.Extended | pandaPI/pandaPIgrounder/src/postprocessing.cpp:715-744 | the three sets after one more action summarise the longer block |
| Contraction.BlockRuns | pandaPI/pandaPIgrounder/src/postprocessing.cpp:715-744 | a block of primitives leads from one state to another iff it is executable and ends there |
| Contraction.Segmentation | pandaPI/pandaPIgrounder/src/postprocessing.cpp:663-693 | the linearised subtasks are cut exactly around abstract tasks |
| Contraction.TranslateSegment | pandaPI/pandaPIgrounder/src/postprocessing.cpp:698-744 | one task of the same meaning replaces a segment, or the segment cannot be executed |
| Contraction.ContractMethod | pandaPI/pandaPIgrounder/src/postprocessing.cpp:656-829 | a method stays iff no two primitives are neighbours; otherwise it is pruned because nothing executes it, or replaced by one of the same meaning without neighbouring primitives |
| HornClosure.NaiveSweep | pandaPI/pandaPIgrounder/src/naiveGrounding.cpp:178-197 | sweeping over all rules until nothing changes yields the least closed set and exactly the applicable rules |
| HornClosure.BuildIndex | pandaPI/pandaPIgrounder/src/groundedGPG.cpp:70-86 | the lists by precondition hold every rule as often as it has the precondition |
| HornClosure.Initialise | pandaPI/pandaPIgrounder/src/groundedGPG.cpp:30-52 | counters start at the number of preconditions of active rules, and rules without any fire at once |
| HornClosure.ProcessItem | pandaPI/pandaPIgrounder/src/groundedGPG.cpp:95-118 | taking an item from the queue keeps the counter meaning: open preconditions not yet processed |
| HornClosure.Propagate | pandaPI/pandaPIgrounder/src/groundedGPG.cpp:13-134 | the worklist with counters yields the least set closed under the active rules, the same that sweeping yields, a zero counter iff a rule is reached, and exact tallies |
| HornClosure.LeastUnique | pandaPI/pandaPIgrounder/src/naiveGrounding.cpp:178-197 | there is only one least closed set, so sweep and worklist agree |
| GroundedPruning.GroundedPg | pandaPI/pandaPIgrounder/src/groundedGPG.cpp:13-134 | exactly the actions out of relaxed reach of the unpruned ones are pruned, and exactly the unreached facts; both are counted |
| GroundedPruning.GroundedTdg | pandaPI/pandaPIgrounder/src/groundedGPG.cpp:136-237 | exactly the tasks and methods that cannot be built from unpruned actions are pruned |
| GroundedPruning.TdgConsistent | pandaPI/pandaPIgrounder/src/groundedGPG.cpp:136-237 | afterwards unpruned methods have unpruned subtasks and owners, and no action was pruned |
| GroundedPruning.GroundedInnerTdgDfs | pandaPI/pandaPIgrounder/src/groundedGPG.cpp:239-261 | every task visited is unpruned and in use, and complete: its unpruned methods and their subtasks are visited |
| GroundedPruning.GroundedTdgDfs | pandaPI/pandaPIgrounder/src/groundedGPG.cpp:263-322 | what is left is in use from the initial task, can still be built, and has consistent methods; nothing consistent and no solution is lost |
| GroundedPruning.ExecutionRelaxed | pandaPI/pandaPIgrounder/src/groundedGPG.cpp:13-134 | every action of an execution is applicable in the relaxed reachable facts |
| GroundedPruning.AliveAfterPg | pandaPI/pandaPIgrounder/src/groundedGPG.cpp:13-134 | a decomposition whose actions are relaxed applicable survives the reachability pass |
| GroundedPruning.PgKeeps | pandaPI/pandaPIgrounder/src/groundedGPG.cpp:13-134 | no solution loses a task or method in the reachability pass |
| GroundedPruning.TdgKeeps | pandaPI/pandaPIgrounder/src/groundedGPG.cpp:136-237 | no living decomposition loses a task or method in the bottom-up pass |
| GroundedPruning.VisitedKeeps | pandaPI/pandaPIgrounder/src/groundedGPG.cpp:239-322 | no living decomposition of the initial task loses anything in the top-down pass |
| GroundedPruning.PgStable | pandaPI/pandaPIgrounder/src/groundedGPG.cpp:324-423 | what the reachability pass prunes contributed nothing to reachability |
| GroundedPruning.Decomposition | pandaPI/pandaPIgrounder/src/groundedGPG.cpp:367-415 | a bottom-up and a top-down pass together leave a trimmed graph |
| GroundedPruning.RunGroundedHtnGpg | pandaPI/pandaPIgrounder/src/groundedGPG.cpp:324-423 | the alternation ends; every solution alive before is alive after; unless there is nothing to do the unpruned part is the greatest consistent part of what was unpruned; prunedFacts gains exactly the facts the remaining actions do not reach |
| Rules.AssignmentsAre | pandaPI/pandaPIgrounder/src/gpg.h:737-760 | the enumeration by sorts yields exactly the well-sorted assignments |
| Rules.DerivableStep | pandaPI/pandaPIgrounder/src/gpg.h:758-860 | consequences of derivable facts are derivable |
| Rules.MatchStep | pandaPI/pandaPIgrounder/src/gpg.h:1027-1070 | matching one more antecedent with a fact keeps exactly the instances that use that fact there |
| Rules.UsingNext | pandaPI/pandaPIgrounder/src/gpg.h:1027-1070 | the matches that use a fact for an antecedent are those of the remaining antecedents under the extended assignment |
| Rules.UsingRepeated | pandaPI/pandaPIgrounder/src/gpg.h:1027-1030 | an antecedent after the initial one never takes the new fact: another call produces that instance |
| Rules.CountFull | pandaPI/pandaPIgrounder/src/model.cpp:153-156 | the number of assigned variables equals the arity iff every variable is assigned |
| FactIndex.IdenticalArguments | pandaPI/pandaPIgrounder/src/gpg.h:228-240 | a fact agrees on the recorded groups iff equal variables get equal constants |
| FactIndex.EligibleAntecedents | pandaPI/pandaPIgrounder/src/gpg.h:242-256 | exactly the antecedents with a variable whose sort does not have just one member |
| FactIndex.AssignedVariables | pandaPI/pandaPIgrounder/src/gpg.h:257-298 | for each initially matched antecedent the recorded set is that of the variables bound when the antecedent is reached |
| FactIndex.GroupByPredicate | pandaPI/pandaPIgrounder/src/gpg.h:307-308 | each predicate is mapped to exactly its antecedents |
| FactIndex.Prepare | pandaPI/pandaPIgrounder/src/gpg.h:212-312 | the preprocessed tables describe the rules |
| StateMap.GpgStateMap.constructor | pandaPI/pandaPIgrounder/src/gpg.h:403-423 | the empty index meets its invariant |
| StateMap.GpgStateMap.Compatible | pandaPI/pandaPIgrounder/src/gpg.h:442-461 | a fact is entered for an antecedent iff it can instantiate it |
| StateMap.GpgStateMap.IndexFact | pandaPI/pandaPIgrounder/src/gpg.h:466-479 | the fact becomes visible under exactly its values for each set of bound variables |
| StateMap.GpgStateMap.MarkFuture | pandaPI/pandaPIgrounder/src/gpg.h:483-516 | the look-ahead tables note the fact for every antecedent it can serve later |
| StateMap.GpgStateMap.InsertState | pandaPI/pandaPIgrounder/src/gpg.h:428-520 | index, counters and look-ahead tables describe the facts so far with the new one |
| StateMap.GpgStateMap.GetFacts | pandaPI/pandaPIgrounder/src/gpg.h:555-585 | the list holds exactly the known facts that agree with the variables bound so far |
| StateMap.EmptyEntry | pandaPI/pandaPIgrounder/src/gpg.h:580 | asking for an unknown key leaves an empty entry, which harms no later answer |
| StateMap.GpgStateMap.HasInstanceForAllAntecedants | pandaPI/pandaPIgrounder/src/gpg.h:587-592 | a refusal means some antecedent has no known fact; given one for the initial antecedent, an acceptance means all have one |
| StateMap.GpgStateMap.HasPotentiallyConsistentExtension | pandaPI/pandaPIgrounder/src/gpg.h:597-635 | a refusal means some later antecedent has no fact noted for the values bound so far |
| StateMap.GpgStateMap.NoExtension | pandaPI/pandaPIgrounder/src/gpg.h:597-635 | a refused assignment extends to no instance over known facts |
| StateMap.GpgStateMap.MayDisable | pandaPI/pandaPIgrounder/src/gpg.h:1130-1155 | whatever is switched off, the index stays correct |
| Gpg.OneBatch | pandaPI/pandaPIgrounder/src/gpg.h:1027-1030 | no instance belongs to the batches of two antecedents, however often the new fact occurs in it |
| Gpg.BatchesApart | pandaPI/pandaPIgrounder/src/gpg.h:1027-1030 | what a new fact gives at one antecedent was not possible before and is in no earlier batch |
| Gpg.BatchesSuffice | pandaPI/pandaPIgrounder/src/gpg.h:1027-1030 | the instances possible with the new fact are those possible before and those of the batches |
| Gpg.GroundingRun.AddState | pandaPI/pandaPIgrounder/src/gpg.h:820-851 | a fact is numbered and queued iff it is new |
| Gpg.GroundingRun.Emit | pandaPI/pandaPIgrounder/src/gpg.h:758-860 | a full assignment yields one new instance iff its constraints hold |
| Gpg.GroundingRun.AssignVariables | pandaPI/pandaPIgrounder/src/gpg.h:737-876 | exactly the completions of the assignment are produced, and it is restored |
| Gpg.GroundingRun.TryAll | pandaPI/pandaPIgrounder/src/gpg.h:869-875 | every value of the sort is tried and released |
| Gpg.GroundingRun.TryFact | pandaPI/pandaPIgrounder/src/gpg.h:1037-1070 | the fact binds the open variables of the antecedent or contradicts the bound ones; what was bound is listed |
| Gpg.GroundingRun.ConstraintsPossible | pandaPI/pandaPIgrounder/src/gpg.h:1097-1122 | a refusal means that the values bound already violate a constraint |
| Gpg.GroundingRun.LookAheadEmpty | pandaPI/pandaPIgrounder/src/gpg.h:1078-1155 | a failed look-ahead loses no match |
| Gpg.GroundingRun.Promising | pandaPI/pandaPIgrounder/src/gpg.h:1078-1155 | rejection means there is no match at all |
| Gpg.GroundingRun.MatchFact | pandaPI/pandaPIgrounder/src/gpg.h:1029-1181 | exactly the instances that use the fact for the antecedent are produced |
| Gpg.GroundingRun.MatchFacts | pandaPI/pandaPIgrounder/src/gpg.h:1020-1182 | exactly the instances over the listed facts are produced |
| Gpg.GroundingRun.MatchPrecondition | pandaPI/pandaPIgrounder/src/gpg.h:964-1186 | exactly the instances that match the antecedents from here on are produced, none of them a second time, and the assignment is as before |
| Gpg.GroundingRun.DoesStateFulfillPrecondition | pandaPI/pandaPIgrounder/src/model.cpp:60-95 | the fact matches the antecedent iff sorts, constants and repeated variables agree, and then binds exactly its variables |
| Gpg.GroundingRun.ProcessPair | pandaPI/pandaPIgrounder/src/gpg.h:1444-1478 | joining the new fact at one antecedent produces exactly its batch |
| Gpg.GroundingRun.ProcessState | pandaPI/pandaPIgrounder/src/gpg.h:1413-1494 | after a fact is processed, exactly the instances over processed facts have been produced |
| Gpg.GroundingRun.TakeFirst | pandaPI/pandaPIgrounder/src/gpg.h:1420-1434 | the first queued fact becomes a processed one, the facts known stay the same, and the output is still that of the facts processed before |
| Gpg.InitialFacts | pandaPI/pandaPIgrounder/src/gpg.h:1328-1354 | every initial fact is known afterwards, numbered once and queued once |
| Gpg.WithoutPreconditions | pandaPI/pandaPIgrounder/src/gpg.h:1398-1409 | exactly the legal instances of rules without antecedents are produced |
| Gpg.RunGpg | pandaPI/pandaPIgrounder/src/gpg.h:1312-1500 | the facts are the least set closed under the rules, densely and uniquely numbered; the output is exactly the set of legal instances whose antecedents belong to it, each once, with the numbers of its antecedents and consequences |
| OrderDecomposition.CheckSplit | pandaPI/pandaPIparser/src/orderingDecomposition.cpp:15-28 | the two answers: whether any element on one side is ordered with the other side, and whether all of them come before all others |
| OrderDecomposition.TryExtract | pandaPI/pandaPIparser/src/orderingDecomposition.cpp:11-52 | a failure means the subset is no series or parallel split; success delivers the tree of the elements |
| OrderDecomposition.ExtractDfs | pandaPI/pandaPIparser/src/orderingDecomposition.cpp:55-83 | single elements, then all subsets: a tree is delivered iff the restriction is series-parallel, and it induces it |
| OrderDecomposition.ExtractOrderDecomposition | pandaPI/pandaPIparser/src/orderingDecomposition.cpp:86-110 | for acyclic orderings a tree is returned iff the closure is series-parallel, and it induces exactly the closure on the same leaves |
| OrderDecomposition.InducedAcyclic | pandaPI/pandaPIparser/src/orderingDecomposition.cpp:86-110 | no tree induces the closure of a cyclic ordering, so its result would be wrong |
| OrderDecomposition.SplitExists | pandaPI/pandaPIparser/src/orderingDecomposition.cpp:11-83 | every series-parallel order on two or more elements has a proper split |
| OrderDecomposition.SimplifiedSame | pandaPI/pandaPIparser/src/orderingDecomposition.cpp:113-136 | simplification keeps leaves and order and leaves no child of its parent's kind |
| OrderDecomposition.SpliceChildren | pandaPI/pandaPIparser/src/orderingDecomposition.cpp:125-134 | children of the own kind are replaced by their elements, in place |
| OrderDecomposition.SimplifyOrderDecomposition | pandaPI/pandaPIparser/src/orderingDecomposition.cpp:113-136 | the rewritten node structure denotes the simplified tree |
| TopologicalSort.TopSort.Dfs | pandaPI/pandaPIgrounder/src/util.cpp:5-12 | the node and everything it reaches are placed behind nothing they must precede; the gray nodes are those of unfinished calls |
| TopologicalSort.Sort | pandaPI/pandaPIgrounder/src/util.cpp:14-21 | for acyclic graphs the list is a linear extension |
| TopologicalSort.SortSubtasks | pandaPI/pandaPIgrounder/src/postprocessing.cpp:13-30 | the linearisation of the subtasks is a linear extension of the ordering constraints |
| Inlining.Substitution | pandaPI/pandaPIgrounder/src/postprocessing.cpp:472-521 | exact substitution: the closure of the new constraints relates inlined subtasks as the inlined method does and every other pair as the old positions were related |
| Inlining.Restriction | pandaPI/pandaPIgrounder/src/postprocessing.cpp:443-469 | for an empty method the new closure is the old one restricted to the other subtasks |
| Inlining.FullOrder | pandaPI/pandaPIgrounder/src/postprocessing.cpp:487-511 | the spliced linearisation is a linear extension of the new constraints |
| Inlining.EmptyOrder | pandaPI/pandaPIgrounder/src/postprocessing.cpp:443-454 | so is the one with the task dropped |
| Inlining.Pertaining | pandaPI/pandaPIgrounder/src/postprocessing.cpp:423-429 | the constraints are divided into those of the task and the others |
| Inlining.CopyAll | pandaPI/pandaPIgrounder/src/postprocessing.cpp:472-485 | every further inlined subtask gets exactly the constraints of the replaced task |
| Inlining.LiftAll | pandaPI/pandaPIgrounder/src/postprocessing.cpp:514-521 | exactly the constraints of the inlined method are added, moved to the new positions |
| Inlining.SpliceOrdering | pandaPI/pandaPIgrounder/src/postprocessing.cpp:487-511 | the inner linearisation takes the place of the task; the id list says where every subtask comes from |
| Inlining.DropFromOrdering | pandaPI/pandaPIgrounder/src/postprocessing.cpp:443-454 | the task disappears from the linearisation and later positions move down |
| Inlining.Bridge | pandaPI/pandaPIgrounder/src/postprocessing.cpp:456-463 | exactly the pairs induced through the removed task are added |
| Inlining.Renumber | pandaPI/pandaPIgrounder/src/postprocessing.cpp:464-469 | the constraints are those over the moved positions |
| Inlining.InlinedName | pandaPI/pandaPIgrounder/src/postprocessing.cpp:530-537 | the name encodes both methods, the task, the position and the id list |
| Inlining.Method.Inline | pandaPI/pandaPIgrounder/src/postprocessing.cpp:419-540 | one inlining: subtasks, closure, linearisation and name are those of the substitution |
| Inlining.Method.InlineOnce | pandaPI/pandaPIgrounder/src/postprocessing.cpp:417-541 | one pass replaces first occurrences until none is left, or starts again after an empty method |
| Inlining.Method.InlineTask | pandaPI/pandaPIgrounder/src/postprocessing.cpp:415-545 | no occurrence is left; the method comes from the old one by inlining first occurrences one after the other; every old subtask is kept or exchanged for all inner subtasks, and the final closure relates all of them as the substitution demands |
| Inlining.ReplaceOne | pandaPI/pandaPIgrounder/src/postprocessing.cpp:487-511 | replacing one occurrence in the linearised word leaves the fully replaced word unchanged |
| Inlining.RunSubstitutes | pandaPI/pandaPIgrounder/src/postprocessing.cpp:415-545 | over any number of inlinings subtasks keep their relations, and inlined ones inherit those of the task they stand for |
| PlanNames.WordsJoin | pandaPI/pandaPIparser/src/plan.cpp:44-59 | words without spaces joined by spaces are read back |
| PlanNames.ParseListOfStrings | pandaPI/pandaPIparser/src/plan.cpp:44-59 | the loop reads exactly the words of the line, an empty one at its end included |
| PlanNames.ParseListOfIntegers | pandaPI/pandaPIparser/src/plan.cpp:61-86 | the loop reads exactly the numbers of the line |
| PlanNames.IdsRoundTrip | pandaPI/pandaPIparser/src/plan.cpp:357-380 | a list of numbers written with commas is read back |
| PlanNames.ParseTask | pandaPI/pandaPIparser/src/plan.cpp:88-105 | name and arguments are cut at the bracket and commas |
| PlanNames.TaskRoundTrip | pandaPI/pandaPIparser/src/plan.cpp:88-105 | a task is read back exactly iff it has an argument; without one, an empty argument is read |
| PlanNames.SplitBlocks | pandaPI/pandaPIparser/src/plan.cpp:362-373 | the loop cuts the name at the semicolons outside nested names |
| PlanNames.SplitInlineName | pandaPI/pandaPIparser/src/plan.cpp:362-373 | the five parts of an encoded name are found again, however deeply the parts are nested |
| PlanNames.InlineNameWellNamed | pandaPI/pandaPIparser/src/plan.cpp:362-373 | encoded names of well-formed parts are well formed |
| PlanExpansion.ParsedPlan.GetNextFreeId | pandaPI/pandaPIparser/src/plan.cpp:276-281 | the identifier is above all in use |
| PlanExpansion.ParsedPlan.InnerPositions | pandaPI/pandaPIparser/src/plan.cpp:389-395 | the subtasks of the inlined method are collected at their own positions |
| PlanExpansion.ParsedPlan.MainPositions | pandaPI/pandaPIparser/src/plan.cpp:411-415 | the other subtasks are collected at their positions in the main method |
| PlanExpansion.ParsedPlan.ParseName | pandaPI/pandaPIparser/src/plan.cpp:358-380 | the parts of an encoded name, text and numbers, are recovered |
| PlanExpansion.ParsedPlan.ExpandCompressedMethod | pandaPI/pandaPIparser/src/plan.cpp:357-422 | undoing one inlining restores the two-level decomposition: every subtask at its original position, the inner ones below a new task, empty inner methods included; all other tasks are untouched |
| PlanExpansion.ParsedPlan.ExpandOne | pandaPI/pandaPIparser/src/plan.cpp:357-422 | one expansion replaces the node of the plan by the two nodes it came from |
| PlanExpansion.StillDecomposed | pandaPI/pandaPIparser/src/plan.cpp:357-422 | undoing one inlining keeps every decomposition of the plan |
| PlanExpansion.ParsedPlan.ExpandRound | pandaPI/pandaPIparser/src/plan.cpp:600-601 | expanding the listed tasks one after the other keeps all decompositions and leaves fewer encoded inlinings |
| PlanExpansion.ParsedPlan.ExpandAll | pandaPI/pandaPIparser/src/plan.cpp:592-604 | the rounds end; no encoded name is left and every task keeps its decomposition with all inlinings undone |
| HierarchyTyping.Merge | pandaPI/pandaPIgrounder/src/hierarchy-typing.cpp:48-60 | of a, the common elements are left and those above all of b |
| HierarchyTyping.Intersect | pandaPI/pandaPIgrounder/src/hierarchy-typing.cpp:21-63 | exactly the common elements, and in the third branch also those of a above all of b |
| HierarchyTyping.IntersectionExactly | pandaPI/pandaPIgrounder/src/hierarchy-typing.cpp:21-63 | the result is the intersection iff the sizes differ by more than ten times, or a is a whole sort, or no element of a lies above all of b |
| HierarchyTyping.IntersectionNotExact | pandaPI/pandaPIgrounder/src/hierarchy-typing.cpp:47-61 | a concrete pair of sets for which it is not |
| HierarchyTyping.ApplyConstraints | pandaPI/pandaPIgrounder/src/hierarchy-typing.cpp:74-109 | the loop ends; every satisfying assignment is kept, values go only by the effect of some constraint, and at the end no constraint can remove any |
| HierarchyTyping.MethodConstants | pandaPI/pandaPIgrounder/src/hierarchy-typing.cpp:305-319 | the sets are those of the variables' sorts after intersection with the task's sets, one parameter after the other; no legal instance is lost |
| HierarchyTyping.RecordedInside | pandaPI/pandaPIgrounder/src/hierarchy-typing.cpp:305-319 | each recorded value of a method variable is of its sort and among the values of the first task variable it stands for |
| HierarchyTyping.Coverage | pandaPI/pandaPIgrounder/src/hierarchy-typing.cpp:228-345 | if every entry has been expanded, all task and method instances in a decomposition of a covered instance are covered |
| HierarchyTyping.Typing.FindVisited | pandaPI/pandaPIgrounder/src/hierarchy-typing.cpp:232-261 | the index is the first entry that makes the new one superfluous, by inclusion or equality as configured |
| HierarchyTyping.Typing.TaskDfs | pandaPI/pandaPIgrounder/src/hierarchy-typing.cpp:228-561 | the search ends; an entry including the given sets exists, every entry added is expanded although entries under way are taken as done, and every entry has a reason |
| HierarchyTyping.Typing.ExpandMethod | pandaPI/pandaPIgrounder/src/hierarchy-typing.cpp:295-557 | everything below an instance of the method that fits the task's sets is recorded |
| HierarchyTyping.Compute | pandaPI/pandaPIgrounder/src/hierarchy-typing.cpp:167-181 | every decomposition of a top instance over the initial sets is covered; conversely each entry is the top one or comes from another by exactly the code's intersections and constraints, and none is superfluous |
| HierarchyTyping.SplitVariable | pandaPI/pandaPIgrounder/src/hierarchy-typing.cpp:201-211 | each constant is mapped to exactly the entries that allow it |
| HierarchyTyping.IsAssignmentCompatible | pandaPI/pandaPIgrounder/src/hierarchy-typing.cpp:610-657 | looking only at the rarest bound value, the answer is whether some entry allows the partial assignment, or no variable is bound |

## Left out

- OrderDecomposition.ExtractOrderDecomposition: only up to 30 identifiers, beyond which the shift that counts the subsets overflows; identifiers are taken as positions 0 to n-1 instead of being numbered by a map first.
- VisitedList.VisitedList.InsertVisi: total-order and parallel-sequence modes with topological ordering and without reopening; partial-order and graph-isomorphism modes are not modelled, as the latter is not an exact isomorphism test.
- Gpg.RunGpg: the run is for one kind of instance with no hierarchy typing; the static state map of line 1319, which would be shared by several calls with the same types, belongs to one call here.
- StateMap.GpgStateMap.MayDisable: what makes the code give up look-ahead (memory and statistics) is a free choice.
- HierarchyTyping.Compute: static precondition checks, the edges recorded for the whole graph and typing along a given plan are not modelled; coverage is for top instances over the sets of line 172.
- Inlining.Method.InlineTask: which tasks are inlined, in which order, and the bookkeeping of pruned flags around it (postprocessing.cpp:350-395) are not modelled; the task must not occur in its own only method.
- Contraction.ContractMethod: names and variable lists of the lifted macro tasks are not modelled.
- Contraction.ApplyEffectPriority: conditional effects are not modelled.
- GroundedPruning.RunGroundedHtnGpg: compiled conditional effects are exempt from the top-down pass as in the code, but how they hang on other actions is not modelled.
- Progression.Model.Decompose: the orders in which the reader fills sortedDistinctSubtasks are given, as tables that agree with the methods; search nodes refer to steps by number instead of by counted pointers.
- PlanExpansion.ParsedPlan.ExpandAll: the other conversions of plan.cpp (contracted actions, compiled-away tasks, sorting and printing) are not modelled; numbers are unbounded.
- Iteration orders of unordered containers are arbitrary here, and sorts and initial facts of the grounder are given as lists.
- Integer widths: identifiers, counters and sizes are unbounded, except where a comparison depends on the width.
- IntUtil, IntPairHeap and the bit-mask helpers appear by their contracts only.
- Landmarks, FAM groups, the h2 preprocessor, planningGraph.cpp, calcMinimalImpliedX, reopening, the heuristics and the search loop are not modelled.
- Command lines, file formats, readers, writers and statistics are not modelled.
