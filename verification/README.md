# ProcessPatch, proved

ProcessPatch compiles policy rules into a constraint model, runs a procedure graph
against a case, searches for a case on which the two disagree, rewrites the graph, and
takes the rewrite through human gates that are backed by versioned records. The system
checks its claims on a finite cohort of cases only. This project models that code in
Dafny and proves the claims for every graph, every case and every interleaving; where a
claim needs a side condition, the condition is stated as something a caller can check.
Where the code itself can leave that condition, a lemma gives an input on which the claim
fails (`Inputs`, `Stale` and the lemmas named below).

`dafny verify dfyconfig.toml` checks everything.

## How it is laid out

Graphs and meaning:

- `Expr`, `Graphs`: conditions and cases; graphs, paths, ranks, cycles.
- `Kahn`, `Dag`: the topological sort and the graph contract, as loops proved equal to
  functions.
- `Flow`, `Interpreter`: the breadth-first run, and what it reaches as a least set.
- `Journey`: the run's verdicts, steps and order, said of nodes, edges and paths.
- `Rewiring`, `Splice`, `Reorder`: the two rewrites of the patcher and what they do to
  the graph contract and to every run.
- `Ordering`, `Stale`: the loop of moves over a list of ordering rules, and two lists it
  gets wrong.
- `Compiler`, `Differ`, `Repair`, `Enforce`, `Patcher`: rules to model, classification
  of disagreements, aligning gates and steps, gates for prohibitions, and the patched
  copy with its operation log (a class, mutated step by step).
- `Interval`: what the interval check of one field has accumulated.
- `Policy`: what the compiled model expects of a case, said of the rules.
- `Complete`: what aligning gates and steps and enforcing prohibitions leave together.
- `Journal`: the operation log of a proposal, replayed on nodes and edges.
- `Inputs`: small graphs and models on which a claim fails without its side condition.
- `Boundary`, `Witness`: the finite search and its completeness over the unbounded domain.
- `Normalizer`, `Labels`: labels for a change of rules, and what each stands for.

Records and gates:

- `Optimistic`, `Gate`, `Approvals`, `Activation`, `Overlap`: state machines over the steps
  of any number of workers; a run is any sequence of steps, crashes included.
- `Resume`: what a whole resume of a gate brings about while others interleave.
- `Storage`: one dictionary or list collection, rows over a legacy blob, refining a map.

Values are real numbers; a date is its day number. Node ids, fields and actions are
abstract names. A missing field and a null field are the same thing: no entry. The two
tokens of an ordering rule, and the submit node, are given as resolved node ids. Clocks,
task-token signals and the outcome of a domain decision are parameters of a step.
SHA-256 is an injective function.

## What the proofs found

- Cycle check: `ValidateDag` shows that the "unreachable nodes" error can never be
  raised once the earlier checks have passed, nor can the validator's dead-end check fail.
- Aligning gates keeps only the last of several comparisons on one field. "Between 5 and
  10" is two of them, the form in which the text extractor emits it: the gate loses its
  lower bound and a case below it is wrongly accepted (`LowerBoundLost`); `RepairExactly`
  says on which cases that happens.
- A run stops at the first gate that turns a case away, and what lies behind that gate it
  cannot tell. So no alignment makes policy and procedure agree on every case: one that is
  neither eligible nor on time, and meets a bound before any deadline, stays a deadline
  mismatch (`LateAndTurnedAway`), and one that is eligible but late is never asked for a step
  behind the deadline gate (`StepBehindDeadline`). Those are all: aligning the gates leaves
  a deadline mismatch on exactly such cases (`MismatchSettled`).
- Aligning gates and steps and enforcing prohibitions, taken together, leave a procedure
  that agrees with the policy on every case of the unbounded domain exactly when the
  ordering rules are kept, the case gets to a shut gate of either kind exactly when it
  fails the rules of that kind, and for an eligible case every step it can get to folds as it
  should, none in force is out of reach, and every violated prohibition has a gate it gets
  to (`AllStepsExactly`). One comparison a field, conditional exceptions and prohibitions of
  one comparison each on fields without a gate leave only ordering rules and what lies
  behind the gate that stops a late case (`AllStepsComplete`).
- `_splice_before` keeps the graph contract unless a predecessor has two edges to the
  target (`SpliceValid`, `TwoBranchesRepeat`); it keeps the meaning unless a branch into
  the target was off (`SplicePassing`, `BranchOffReached`). A target that resolves to the
  new node itself gives it an edge to itself (`SelfTargetCycles`).
- A pass of splices before the submit node leaves a valid graph exactly when no id is used
  twice (`PassValidExactly`). Step 5 names a gate after its field, so two prohibitions on
  one field break the graph (`EnforcedValidExactly`, `TwoBansOneField`): a repeated edge
  when their gates are neighbours, otherwise a cycle. Step 4 gives every deadline gate the
  same id, with the same effect on two ungated deadline fields.
- The move of a prerequisite is acyclic exactly when no path from the target to the
  prerequisite passes through a third node, and may also repeat edges (`MoveValid`,
  `DetourCloses`, `SharedNeighbourCollides`).
- The loop over several ordering rules judges them all by one list sorted before the first
  move. It leaves an acyclic graph exactly when at every move it makes no third node lies
  between the two, in either direction (`LoopAcyclicExactly`); a rule that already holds
  can be acted on all the same and close a cycle (`StaleListCloses`). What one move puts
  in order, or finds led to when its rule is judged, only a rule asking for the opposite
  takes away (`LoopKeepsRule`); a rule that merely happened to be sorted right can be
  broken by a later move (`SortedRuleLost`).
- The exception fold drops exceptions without a condition, and fits exactly unless the
  exception that applies is one of those (`FoldAgrees`). The requirement of an added form
  holds no exception at all (`AddedFormAgrees`, `AddedFormIgnoresWaiver`). The fold would
  also turn an obligation that is never in force into a required step once it has an
  exception, but rules do not compile to such an obligation (`FoldCounterexamples`,
  `CompiledInForce`).
- A prohibition with a single negated comparison gets a gate that blocks the allowed
  cases (`NegatedBanIsMisread`).
- The interval check never rejects bounds some number meets. It passes bounds no number
  meets exactly when they leave finitely many values (an equality, an interval of one
  point, a membership list) and each is refused by a comparison it has lost sight of
  (`CheckErrsExactly`): `> v` followed by `>= v`, or `< v` by `<= v`; and, behind the guard
  as well, `!=` with the one value left, or a membership list against a bound
  (`DomainNeedsGuard`). Behind the guard and without `!=` and lists it is exact
  (`DomainExact`).
- The search misses disagreements behind a branch condition on a field nothing else
  mentions (`HiddenBranchMissed`), and between close literals from 1000 on
  (`CoarseStepMisses`).
- The comment at services/governance/store.py:378 says a decision is applied at most once
  per gate; the code allows one more for every stale claim taken over
  (`AtMostOneDecision`), and for every number of takeovers some run reaches that bound
  (`BoundIsMet`).
- The comment at services/governance/store.py:281-284 speaks of no partial-state window;
  two overlapping activations end with exactly one active version precisely when one
  worker wrote both targets last (`OverlapOutcome`), and a run from the empty store ends
  with two (`TwoActiveReachable`).
- A claim neither outlived nor overtaken by a new arming always ends with its decision on
  record, whatever other workers do (`ResumeRecords`).
- For one-number bounds, eligibility under the new rules implies eligibility under the old
  exactly when each old bound is covered by a new one on its field, in its direction, at
  least as strong (`ImpliedExactly`). THRESHOLD_TIGHTENED and an unchanged type keep their
  promise exactly when the dropped bounds are covered so (`TightenedExactly`,
  `UnchangedMeans`); neither label looks at bounds dropped on other fields
  (`TightenedMissesDroppedField`, `DroppedBoundLooksUnchanged`). DEADLINE_EXTENDED keeps
  its promise exactly when every added deadline is covered by an old one
  (`ExtendedExactly`): always when all are upper bounds on one field (`ExtendedSound`), not
  when the deadline moved to another field (`ExtendedMissesOtherField`).
- `propose` raises when it collects gates for step 4b and one compares with a list
  (services/patcher/patcher.py:270-273, modelled by `Propose`); aligning a gate to a
  membership rule makes it one (`AlignedToList`).
- Deleting a record present both as a row and in the blob brings the blob's copy back
  (`DeleteItem`).

## Model

| member | source | states |
|---|---|---|
| Expr.EvalAgrees | services/workflow/expr.py:34-57 | a condition gives the same answer on two cases that lie on the same side of every literal it mentions |
| Expr.ChildLeaves | services/workflow/expr.py:60-72 | every comparison of a sub-condition is among the comparisons of the whole |
| Expr.CompareLaws | services/workflow/expr.py:13-22 | the comparisons come in opposite pairs, order two numbers, and membership is equality with a listed value |
| Expr.NothingToCompare | services/workflow/expr.py:44-57 | no comparison holds of a missing field, nor of a list where a number is meant |
| Graphs.LastEntryCounts | services/workflow/interpreter.py:171 | of several node entries with one id the last counts |
| Kahn.OrderedNodes | services/workflow/interpreter.py:23-46 | the sort succeeds exactly on acyclic graphs with a topological order of all nodes; otherwise the reported leftover nodes contain a cycle |
| Kahn.KahnCorrect | services/workflow/interpreter.py:36-46 | emitted order and leftover set: nothing is left over iff there is no cycle, iff the counts match; what is left over contains a cycle |
| Kahn.Adjacency | services/workflow/interpreter.py:27-33 | in-degrees and adjacency lists count and list exactly the edges whose two ends are known nodes |
| Kahn.RelaxTargets | services/workflow/interpreter.py:39-42 | the inner loop lowers in-degrees and appends to the queue as the specification does |
| Kahn.RelaxSpec | services/workflow/interpreter.py:39-42 | exactly the targets whose in-degree drops to zero are queued, each once |
| Kahn.SortStep | services/workflow/interpreter.py:36-42 | one turn keeps: emitted plus queued nodes are those with nothing pending, and every edge into an emitted node comes from an earlier one |
| Kahn.AcyclicHasRank | services/workflow/interpreter.py:43-46 | a graph without cycles has a rank that grows along every edge |
| Dag.ValidateDag | services/workflow/interpreter.py:49-84 | which error is raised in exactly which situation; the unreachable-nodes error never |
| Dag.CheckEdges | services/workflow/interpreter.py:54-64 | dangling before duplicate, each found exactly when present |
| Dag.ReachableFrom | services/workflow/interpreter.py:70-80 | the depth-first walk collects exactly the nodes reachable from the start |
| Dag.SingleStartReachesAll | services/workflow/interpreter.py:65-83 | acyclic with one start: every node is reachable |
| Dag.NoDeadEnds | services/regression/validator.py:102-116 | on a valid graph every node reaches a terminal, and the recursion that looks for one terminates |
| Flow.DivertThrough | services/patcher/patcher.py:66-74 | diverting every step into a point through a new one that lets through changes what is reached only by the new point, exactly unless some step into it was off |
| Flow.DivertStopped | services/patcher/patcher.py:66-74 | diverting into a point that stops makes the target unreachable and loses nothing else if the target led nowhere |
| Interpreter.VisitNode | services/workflow/interpreter.py:191-250 | one visited node's effect on path, flags, requirements and frontier, kind by kind; the `Journey` rows say what that comes to over a run |
| Interpreter.RunLoop | services/workflow/interpreter.py:182-250 | the frontier loop terminates and computes the specified walk |
| Interpreter.CheckOrdering | services/workflow/interpreter.py:252-268 | order verdict: sorted right way round, prerequisite present, and on the path whenever the target is |
| Interpreter.Execute | services/workflow/interpreter.py:169-272 | fails exactly on invalid graphs, otherwise returns the outcome the `Journey` rows describe |
| Interpreter.RunIsLeast | services/workflow/interpreter.py:182-250 | the nodes visited are the least set holding the start and closed under enabled edges out of nodes that let through; eligible, on time, prohibited, stopped, required and path are read off that set |
| Interpreter.WalkFaithful | services/workflow/interpreter.py:186-250 | every flag and requirement matches the visited nodes at every point of the run |
| Interpreter.WalkClosed | services/workflow/interpreter.py:186-250 | the visited set ends up closed under the steps a run can take |
| Interpreter.WalkLeast | services/workflow/interpreter.py:186-250 | nothing outside any closed set that holds the frontier is ever visited |
| Interpreter.EdgeOrderIrrelevant | services/workflow/interpreter.py:169-250 | the order of the edges changes no verdict, and no requirement when each action has one form |
| Interpreter.OnPath | services/workflow/interpreter.py:227-247 | the path holds exactly the reached nodes that are not skipped forms |
| Interpreter.OrderVerdict | services/workflow/interpreter.py:252-268 | when a is sorted before b and reached whenever b is, the rule "a before b" fails exactly when b is on the path and a is a skipped form |
| Journey.ReachedMeans | services/workflow/interpreter.py:182-250 | a node is visited iff a path leads to it from the start on which every gate before it is met (a prohibition unmet), no submit node lies, and every branch is on |
| Journey.DeadlineGate | services/workflow/interpreter.py:205-217 | from a deadline gate that is met the run goes on to every unconditional successor; from one whose field is missing or whose comparison fails it goes nowhere |
| Journey.EligibleMeans | services/workflow/interpreter.py:193-204 | eligible iff every threshold gate reached has its field in the case and is met |
| Journey.OnTimeMeans | services/workflow/interpreter.py:205-217 | on time iff every deadline gate reached has its field in the case and is met |
| Journey.ProhibitedMeans | services/workflow/interpreter.py:218-226 | prohibited iff the comparison of some prohibition gate reached holds |
| Journey.StoppedMeans | services/workflow/interpreter.py:191-226 | stopped early iff one of the three verdicts is against the case |
| Journey.RequiredMeans | services/workflow/interpreter.py:227-244 | an action has an entry iff a form of it is reached, and is asked for iff that form's flag is set and its condition holds |
| Journey.PathMeans | services/workflow/interpreter.py:227-249 | the path lists each reached node once, but for forms with a condition that are not asked for |
| Journey.OrderMeans | services/workflow/interpreter.py:252-268 | the order is kept iff for every rule whose target is found its prerequisite is found, sorted no later, and taken by every case that takes the target |
| Journey.BackwardsNeverKept | services/workflow/interpreter.py:256-261 | a prerequisite that its target leads to breaks the rule on every case |
| Rewiring.Preds | services/patcher/patcher.py:66 | exactly the sources of edges into the target other than the new node |
| Rewiring.Without | services/patcher/patcher.py:67-68 | exactly the edges that do not lead from those sources into the target |
| Rewiring.Succs | services/patcher/patcher.py:215 | exactly the targets of edges out of the moved node other than its new successor |
| Rewiring.Apart | services/patcher/patcher.py:216-219 | exactly the edges not into b, not out of a and not between the two |
| Splice.SpliceValid | services/patcher/patcher.py:43-74 | the splice keeps edges inside the graph, no cycle and one start; it keeps the whole contract iff no predecessor has two edges to the target |
| Splice.SplicePrecedes | services/patcher/patcher.py:43-74 | in every topological order of the result the new node precedes the target |
| Splice.SameIdTwiceBreaks | services/patcher/patcher.py:247-263 | a second node under the same id spliced right after the first before the same target repeats an edge |
| Splice.SelfTargetCycles | services/patcher/patcher.py:47-49 | a target that resolves to the new node itself closes a cycle |
| Splice.SplicePassing | services/patcher/patcher.py:66-74 | when the new node lets through, the old nodes reached are the same iff no reached predecessor had its branch to the target off |
| Splice.SpliceStopping | services/patcher/patcher.py:66-74 | when the new node stops, the target is never reached and, before a submit node, nothing else changes |
| Splice.UnconditionalNeverCutOff | services/patcher/patcher.py:66-74 | with unconditional edges into the target that exception cannot occur |
| Splice.SpliceKeepsVerdicts | services/patcher/patcher.py:66-74 | a new node that lets through changes no verdict |
| Splice.SpliceKeepsRequired | services/patcher/patcher.py:184-195 | it changes the requirements only by its own form's entry |
| Splice.SplicedProhibitionBlocks | services/patcher/patcher.py:312-324 | a prohibition gate before a submit node blocks exactly the forbidden cases that would have reached it and touches no other verdict |
| Splice.GateKeepsRequired | services/patcher/patcher.py:312-324 | a gate before the submit node changes no requirement of any case, blocked or not |
| Reorder.MoveAcyclic | services/patcher/patcher.py:213-232 | the moved graph has no cycle iff no path from b to a passes through a third node |
| Reorder.MoveNoDuplicates | services/patcher/patcher.py:213-232 | the moved graph repeats no edge iff no double edge is moved and no added edge is there already |
| Reorder.MoveStart | services/patcher/patcher.py:213-232 | without a detour one start remains: a if b was the start, else the old one |
| Reorder.MoveValid | services/patcher/patcher.py:202-232 | the moved graph is valid iff there is no detour and no collision |
| Reorder.MovePrecedes | services/patcher/patcher.py:202-232 | a precedes b in every topological order of the result |
| Reorder.MoveReachesBoth | services/patcher/patcher.py:213-232 | every run that visits b has visited a |
| Reorder.MoveRestoresOrder | services/patcher/patcher.py:198-232 | after a valid move the ordering rule holds of a case exactly unless a is a form the case skips on its way to b |
| Ordering.AnyMoveAcyclic | services/patcher/patcher.py:213-232 | on any acyclic graph, whichever comes first, the moved graph is acyclic iff no third node lies between the two |
| Ordering.MoveKeepsOrder | services/patcher/patcher.py:213-232 | a move keeps every node that led to another leading to it, except b to a |
| Ordering.LoopAcyclicExactly | services/patcher/patcher.py:198-232 | the loop over the rules leaves an acyclic graph iff no move it makes has a third node between its two nodes; a bad move is never undone |
| Ordering.LoopKeepsOrder | services/patcher/patcher.py:198-232 | what led to what before the loop still does unless a rule asks for the opposite |
| Ordering.LoopKeepsRule | services/patcher/patcher.py:198-232 | a rule whose two nodes are the wrong way round in the list when it is judged, or whose first node leads to its second, is put in order and kept to the end unless a later rule asks for the opposite |
| Ordering.PromotedList | services/patcher/patcher.py:209-210 | in the list the moved id goes right before its target and the others keep their order |
| Stale.StaleListCloses | services/patcher/patcher.py:200-209 | a valid graph and two rules: the second already holds after the first move, the stale list does not show it, and the second move closes a cycle |
| Stale.SortedRuleLost | services/patcher/patcher.py:200-232 | a valid graph and two rules: the first holds of the first sort and is not acted on; after the move for the second, the sort breaks it |
| Compiler.ThresholdDomain | services/compiler/compiler.py:30-83 | the loop returns whether the accumulated interval is inhabited |
| Interval.LowerEnd | services/compiler/compiler.py:38-60 | the lower end is that of the last of the highest lower bounds read, inclusive iff that one is |
| Interval.UpperEnd | services/compiler/compiler.py:38-66 | the upper end is that of the last of the lowest upper bounds read |
| Interval.EqualityKept | services/compiler/compiler.py:46-48 | the value kept is the first equality's, and there is a clash iff some equality names another |
| Interval.AllowedKept | services/compiler/compiler.py:41-45 | the values allowed are those in every membership list |
| Interval.EqualityJudged | services/compiler/compiler.py:67-76 | with an equality: different ones fail, one with a list passes whatever the bounds, one with a number passes iff it meets the deciding bound on each side and is in every membership list |
| Interval.BoundsJudged | services/compiler/compiler.py:77-83 | without one: passes iff the deciding bounds do not cross and the membership lists, if any, share a value |
| Compiler.CheckErrsExactly | services/compiler/compiler.py:30-83 | on any list of readable comparisons, lists as operands of `==` and `!=` included, without the guard: the check is right exactly unless it passes a list that leaves finitely many values, each refused by some comparison; it never rejects a satisfiable list |
| Compiler.SlipsAtPoint | services/compiler/compiler.py:30-83 | without membership lists it errs exactly when the one value left fails a comparison |
| Compiler.DomainExact | services/compiler/compiler.py:30-109 | with one lower and one upper bound it errs on numbers exactly when an inequality excludes the one value left; without inequalities it passes iff some number meets every bound |
| Compiler.DomainNeedsGuard | services/compiler/compiler.py:39-66 | four lists no number meets that the check passes: `>` before `>=` and `<` before `<=`; behind the guard, `==` with `!=`, and a membership list against a bound |
| Compiler.Guarded | services/compiler/compiler.py:100-109 | a field passes iff it has no two different lower bounds, no two different upper bounds, and an inhabited interval |
| Compiler.FirstBlocked | services/compiler/compiler.py:95-109 | a blocked field is found iff there is one, and it is the first listed |
| Compiler.BuildModel | services/compiler/compiler.py:111-138 | fails exactly on a conditional obligation without a condition, naming the first |
| Compiler.CompileRules | services/compiler/compiler.py:86-138 | CONFLICT is raised iff some field is blocked, on the blocked field the rules bound first; otherwise the model of the rules is returned iff all are compilable |
| Compiler.ModelExactly | services/compiler/compiler.py:111-137 | criteria, exceptions, prohibitions, deadlines and ordering entries are exactly those of the active rules |
| Compiler.ObligationsExactly | services/compiler/compiler.py:119-124 | an action's obligation is the one of the last active rule that sets it, and there is none if no rule does |
| Compiler.CompiledInForce | services/compiler/compiler.py:119-124 | no compiled obligation is one that is never in force |
| Compiler.BlockedExactly | services/compiler/compiler.py:99-109 | a field with readable comparisons is blocked iff its bounds are ambiguous, or no number meets them and the check does not err, whatever the other rules are |
| Compiler.CompiledIsSatisfiable | services/compiler/compiler.py:86-159 | when rules compile, some case meets all their threshold comparisons iff the check erred on no field; without compound thresholds, some case is eligible iff so |
| Policy.EligibleMeans | services/compiler/compiler.py:158-159 | a case is expected to be eligible iff it meets every active threshold rule |
| Policy.OnTimeMeans | services/compiler/compiler.py:161-162 | on time iff it has the field of every active deadline rule, with a value that meets the comparison |
| Policy.BreachesMeans | services/compiler/compiler.py:163-164 | the prohibitions reported are exactly the breached active ones, each once, in rule order |
| Policy.RequiredMeans | services/compiler/compiler.py:144-160 | an action has an entry iff some active rule obliges to it, and is asked for iff the last such rule's condition holds and no active exception for it, or for every action, applies |
| Differ.AgreementMeans | services/semantic_diff/differ.py:9-34 | no disagreement iff the verdicts agree, the order is kept, and for an eligible case violated prohibitions block and every action is asked for by both sides or neither |
| Differ.KindMeans | services/semantic_diff/differ.py:9-34 | each kind and key is reported in exactly the situation it names |
| Differ.Smallest | services/semantic_diff/differ.py:27 | the differing action reported is the first in sorted order |
| Repair.FoldMeans | services/patcher/patcher.py:120-134 | what the folded flag asks for on a case, mode by mode |
| Repair.FoldAgrees | services/patcher/patcher.py:120-142 | the fold agrees with the policy on a case iff the action is excused, or neither is the obligation in force beside a condition-less exception nor is it one never in force that has an exception |
| Repair.FoldCounterexamples | services/patcher/patcher.py:122-134 | an input for each of the two failures; the second is not one that rules compile to |
| Repair.AddedFormAgrees | services/patcher/patcher.py:184-193 | an added form agrees with the policy exactly unless an exception waives an obligation in force |
| Repair.RepairedValid | services/patcher/patcher.py:91-145 | the aligned graph is valid with the same ids and start |
| Repair.RepairedReach | services/patcher/patcher.py:91-108 | a node of the aligned graph is reached iff the old graph has a path to it on which the surviving comparison of every gate's field holds |
| Repair.RepairedVerdicts | services/patcher/patcher.py:91-108 | the aligned procedure turns a case away, or finds it late, iff such a path leads to a gate of the kind whose surviving comparison fails |
| Repair.HitsMean | services/patcher/patcher.py:91-108 | a case that meets every survivor gets everywhere; any other gets to a shut gate of a kind it fails, and only one that fails both kinds may miss one |
| Repair.MismatchMeans | services/patcher/patcher.py:91-108 | with one comparison a field, a deadline mismatch is left exactly on cases neither eligible nor on time that are stopped by a bound before any deadline |
| Repair.RepairExactly | services/patcher/patcher.py:91-145 | on every case of a plain graph with bounds and deadlines, for any ordering rules: policy and aligned procedure agree iff the order is kept, the case is eligible iff it gets to no shut bound and on time iff to no shut deadline, and, if eligible, every step it gets to folds as it should, none in force is out of reach and no prohibition is violated |
| Repair.RepairComplete | services/patcher/patcher.py:91-145 | with one comparison a field, conditional exceptions and obligations that can be in force, what is left to disagree on is a broken ordering rule, a violated prohibition of an eligible case, and what lies behind the gate that stops a late case |
| Repair.NoDeadlineTells | services/patcher/patcher.py:91-145 | without deadlines nothing lies behind such a gate |
| Repair.CompiledRepairComplete | services/patcher/patcher.py:91-145 | the same for a model compiled from rules, whose obligations can always be in force |
| Enforce.ToGate | services/patcher/patcher.py:300-310 | exactly the prohibitions of one comparison on a field without a gate |
| Enforce.GatedOnce | services/patcher/patcher.py:296-310 | a one-comparison prohibition gets a gate iff no prohibition gate is on its field yet |
| Enforce.GatesInOrder | services/patcher/patcher.py:304-310 | the gates come in the order of the prohibitions, one for each that gets one |
| Enforce.PassValidExactly | services/patcher/patcher.py:247-324 | splicing nodes with fresh ids before the submit node one after the other leaves a valid graph iff no id is used twice |
| Enforce.EnforcedValidExactly | services/patcher/patcher.py:304-324 | step 5 leaves a valid graph iff no two of its gates share a name |
| Enforce.EnforceBlocksExactly | services/patcher/patcher.py:296-324 | with names fresh and apart, the graph is valid and a case is blocked iff one of the gated comparisons holds of it and it would have reached the submit node; eligibility and deadlines are untouched |
| Enforce.SubmitOnlyIfAllowed | services/patcher/patcher.py:296-324 | for any prohibitions: the submit node is reached on exactly the cases that reached it before and meet none of the gated comparisons; when every prohibition gets a gate, exactly those that violate none |
| Enforce.GateSaysSo | services/patcher/patcher.py:305-316 | the gate enforces a one-comparison prohibition on every case iff the condition stands or falls with that comparison |
| Enforce.NegatedBanIsMisread | services/patcher/patcher.py:305-316 | the gate of a negated comparison decides every case the wrong way round |
| Complete.AllStepsExactly | services/patcher/patcher.py:91-324 | gates and steps aligned, prohibitions enforced: on every case policy and procedure agree iff the order is kept, eligibility and deadlines are as for the aligned procedure, and for an eligible case every step is asked for as it should be and every violated prohibition is caught by a gate the case gets to |
| Complete.AllStepsComplete | services/patcher/patcher.py:91-324 | for a foldable model whose prohibitions can all be gated, on every case they agree iff the order is kept and nothing the policy says of a late case lies behind the gate that stops it |
| Patcher.CollectTargets | services/patcher/patcher.py:93-98 | one target per field, a later rule replacing an earlier one, deadlines last |
| Patcher.AlignGate | services/patcher/patcher.py:99-107 | a gate takes its field's target, logged iff it changes |
| Patcher.AlignStep | services/patcher/patcher.py:112-145 | a form or task takes its obligation's folded requirement, logged iff it changes |
| Patcher.AlignAllGates | services/patcher/patcher.py:99-107 | every gate aligned, the log in node order |
| Patcher.AlignAllSteps | services/patcher/patcher.py:112-145 | every form and task aligned, the log in node order |
| Patcher.RedirectTo | services/patcher/patcher.py:69-72 | one edge and two operations per predecessor, in order |
| Patcher.HandOverTo | services/patcher/patcher.py:228-231 | one edge and two operations per successor, in order |
| Patcher.Draft.constructor | services/patcher/patcher.py:86-87 | a copy of the workflow and an empty log |
| Patcher.Draft.AlignGates | services/patcher/patcher.py:91-108 | step 1 on the draft |
| Patcher.Draft.AlignSteps | services/patcher/patcher.py:110-145 | step 2 on the draft |
| Patcher.Draft.SpliceBefore | services/patcher/patcher.py:65-74 | the edges and operations of the splice |
| Patcher.Draft.InsertBefore | services/patcher/patcher.py:184-195 | a node added and spliced in; the result is valid iff no predecessor had two edges to the target |
| Patcher.Draft.EnforceBans | services/patcher/patcher.py:296-324 | step 5 on the draft: a gate for each prohibition that gets one |
| Patcher.Draft.MoveBefore | services/patcher/patcher.py:206-232 | step 3's move on the draft |
| Patcher.Draft.ReorderAll | services/patcher/patcher.py:198-232 | the loop of step 3 over rules whose two nodes exist, judged by the list sorted first |
| Patcher.Propose | services/patcher/patcher.py:85-330 | returns the proposal `Journal.StepsTaken` and `Journal.ProposalOpsFaithful` describe; fails iff wrong acceptance is among the faults and a threshold gate compares with a list; where the faults call for all the steps the model needs, only a broken ordering rule and what lies behind the gate that stops a late case are left to disagree on, on every case |
| Patcher.ProposalAgrees | services/patcher/patcher.py:85-324 | the proposal for gate and step faults, and for prohibition breaches when there are prohibitions, agrees with the policy on every case iff the order is kept and a late case finds nothing behind the gate that stops it |
| Patcher.MismatchSettled | services/patcher/patcher.py:91-108 | a proposal for a deadline mismatch, whatever the other faults, leaves one exactly on cases neither eligible nor on time that are stopped by a bound before any deadline |
| Journal.StepsTaken | services/patcher/patcher.py:85-145 | node by node: gates take their target for the three gate faults, forms and tasks their folded requirement for the two step faults, nothing else changes, and without any such fault the proposal is the workflow and an empty log |
| Journal.ProposalOpsFaithful | services/patcher/patcher.py:85-330 | the log of a proposal, replayed on the old nodes and edges, gives the patched nodes in order and the patched edges |
| Journal.GatesLogged | services/patcher/patcher.py:138-145 | a changed requirement is logged with a gate iff it has a condition, and with that condition |
| Journal.MovesLogged | services/patcher/patcher.py:203-212 | the moves logged, each with its prerequisite, are those of the rules whose nodes were the wrong way round in the list when judged |
| Patcher.SpliceOpsFaithful | services/patcher/patcher.py:66-74 | the recorded operations, replayed on the old edges, give the new edges |
| Patcher.MoveOpsFaithful | services/patcher/patcher.py:206-232 | the same for the move |
| Patcher.RuleOpsFaithful | services/patcher/patcher.py:198-232 | the same for the whole loop over the ordering rules |
| Inputs.TwoBranchesRepeat | services/patcher/patcher.py:66-74 | a predecessor with two branches to the target: the splice repeats an edge |
| Inputs.BranchOffReached | services/patcher/patcher.py:66-74 | a branch into the target that is off: the splice makes the submit node reached |
| Inputs.DetourCloses | services/patcher/patcher.py:213-232 | a third node between the two: the move closes a cycle |
| Inputs.SharedNeighbourCollides | services/patcher/patcher.py:213-232 | no third node, but a shared predecessor: the move repeats an edge |
| Inputs.TwoBansOneField | services/patcher/patcher.py:304-324 | two prohibitions on one field: step 5 breaks a valid graph |
| Inputs.AddedFormIgnoresWaiver | services/patcher/patcher.py:184-193 | an added form asks for what an exception waives |
| Inputs.LowerBoundLost | services/patcher/patcher.py:93-98 | `>= 5` then `<= 10` on one field: the aligned gate accepts 3 |
| Inputs.LateAndTurnedAway | services/patcher/patcher.py:91-108 | a bound, then a deadline: a case that fails both stays a deadline mismatch |
| Inputs.StepBehindDeadline | services/patcher/patcher.py:91-145 | a deadline, then a form: an eligible late case is never asked for the step |
| Inputs.AlignedToList | services/patcher/patcher.py:268-273 | aligning a gate to a membership rule gives it a list, on which step 4b fails |
| Boundary.ComputeNeighbors | services/workflow/expr.py:86-110 | the loops collect each literal and its two neighbours, rounded |
| Boundary.RepresentativesExactly | services/workflow/expr.py:86-110 | the candidates represent every value of the unbounded grid iff every gap between neighbouring literals with room for a value holds one |
| Boundary.GapsSuffice | services/workflow/expr.py:86-110 | then every grid value lies on the same side of every literal as some candidate |
| Boundary.SpacedIsCovered | services/workflow/expr.py:101-104 | literals farther apart than their own step leave no gap uncovered |
| Boundary.FineStepRepresents | services/workflow/expr.py:101-104 | literals below a thousand, and dates, always have candidates for the whole grid |
| Boundary.CandidatesAreNear | services/workflow/expr.py:86-110 | every candidate is within a step, and the rounding, of some literal |
| Boundary.CoarseStepMisses | services/workflow/expr.py:102 | 1000.25 has no representative between the literals 1000 and 1000.5 |
| Witness.AddLeaves | services/witness/generator.py:32-40 | adds every literal of the comparisons, lists member by member |
| Witness.AddObligations | services/witness/generator.py:44-46 | adds the literals of every conditional obligation |
| Witness.SearchedMeans | services/witness/generator.py:30-61 | the comparisons searched are those of the rules' conditions, the deadlines, the gates, and the conditions of forms and tasks, and no others |
| Witness.CollectLiterals | services/witness/generator.py:30-61 | the literals of exactly those comparisons, per field |
| Witness.FieldValues | services/witness/generator.py:69-73 | lists the boundary candidates and default values of a field |
| Witness.Listing | services/witness/generator.py:66-73 | lists every field and its values |
| Witness.ProductHas | services/witness/generator.py:76-77 | the product holds every choice of one value per field |
| Witness.ProductOnly | services/witness/generator.py:76-77 | and nothing else |
| Witness.CasesAre | services/witness/generator.py:64-83 | the cases searched are the combinations of a value near a literal or from the tables for each field, over the baseline, all of them below the cap, and then the cases given from outside |
| Witness.CandidateCases | services/witness/generator.py:64-83 | the capped product merged over the baseline, then the cases given from outside |
| Witness.OneCase | services/witness/generator.py:88-91 | the verdict on one case, or the error of an invalid graph |
| Witness.SearchCases | services/witness/generator.py:86-103 | every witness is a real disagreement, numbered, no kind and key twice, each on the first case that shows it, and every disagreement among the cases is reported |
| Witness.VerdictAlike | services/witness/generator.py:86-95 | two cases on the same side of every collected literal get the same verdict |
| Witness.SearchComplete | services/witness/generator.py:30-103 | every complete case of the unbounded domain has a candidate case with the very same verdict |
| Witness.FindWitnesses | services/witness/generator.py:86-103 | sound always, fails exactly on an invalid graph (unless there is no case at all); every disagreement on a case given from outside is reported, and below the cap every one on a combination; when also every gap between literals holds a candidate, no membership list is empty and branch conditions mention collected literals only, so is every disagreement of any complete case at all |
| Witness.HiddenBranchMissed | services/witness/generator.py:55-60 | a branch condition on a field nothing else mentions hides a disagreement from every candidate |
| Normalizer.SemanticRuleDelta | services/normalizer/normalizer.py:61-146 | the loops collect exactly the labels of the added and removed rules |
| Labels.KindLabels | services/normalizer/normalizer.py:106-136 | exceptions, prerequisites, prohibitions: added iff a rule of the kind is new, removed iff one is gone and none is new |
| Labels.ObligationLabels | services/normalizer/normalizer.py:97-105 | OBLIGATION_ADDED iff an unconditional one is new, or a conditional one on whose action nothing was dropped; REMOVED iff an unconditional one is gone and nothing new is on its action |
| Labels.ThresholdLabels | services/normalizer/normalizer.py:73-96 | a new threshold is relaxed or tightened against the last old one of its action on its field, else the first dropped one on its field, and added iff there is neither |
| Labels.ConditionLabel | services/normalizer/normalizer.py:73-105 | CONDITION_CHANGED iff a conditional obligation is new where a rule on its action was dropped, or a new threshold is neither looser nor tighter than the one it is compared with |
| Labels.DeadlineLabels | services/normalizer/normalizer.py:117-126 | a new deadline is extended, tightened or added by its value against that of the first deadline dropped |
| Normalizer.LabelExactly | services/normalizer/normalizer.py:48-58 | between bounds in one direction: relaxed iff more than one value is gained, tightened iff more than one is lost, otherwise at most the old number changes sides |
| Normalizer.RelaxedSound | services/regression/validator.py:141-143 | THRESHOLD_RELAXED: on every case, eligible before implies eligible after |
| Normalizer.ImpliedExactly | services/regression/validator.py:144-149 | for one-number bounds of one kind (thresholds, or deadlines) that some case meets: meeting the new ones implies meeting the old ones, on every case, iff each old bound is covered by a new one on its field, in its direction, at least as strong |
| Normalizer.TightenedExactly | services/regression/validator.py:144-146 | THRESHOLD_TIGHTENED keeps its promise iff every dropped bound is covered |
| Normalizer.TightenedSound | services/regression/validator.py:144-146 | it does, for rules of any form, when each dropped bound has a successor on its field in its direction and the old rules bound each field at most once a direction |
| Normalizer.TightenedMissesDroppedField | services/normalizer/normalizer.py:127-137 | an input on which it does not |
| Normalizer.ExtendedExactly | services/regression/validator.py:147-149 | DEADLINE_EXTENDED keeps its promise, on time before implies on time after, iff every added deadline is covered by an old one |
| Normalizer.ExtendedSound | services/normalizer/normalizer.py:117-126 | it does for any number of upper deadlines on one field |
| Normalizer.ExtendedMissesOtherField | services/normalizer/normalizer.py:117-126 | an input on which it does not: the deadline moved to another field |
| Normalizer.UnchangedMeans | services/normalizer/normalizer.py:61-71 | without labels nothing was added; eligibility is the same on every case iff every dropped bound is covered by one that stayed |
| Normalizer.DroppedBoundLooksUnchanged | services/normalizer/normalizer.py:127-137 | a dropped bound gets no label although it changes who is eligible |
| Optimistic.NoLostUpdate | services/storage.py:262-307 | over every interleaving of workers that pass the version they read, versions count 1, 2, 3, ... and each write replaces exactly the payload its writer read |
| Optimistic.WriteLandsExactly | services/storage.py:274-307 | a worker's read, check and write land, with the next version, iff the version is still the one read, however others interleave; otherwise the record stays as the others left it |
| Optimistic.BlindWriteLoses | services/storage.py:298-299 | a write without an expected version can lose another |
| Gate.AtMostOneDecision | services/governance/store.py:424-481 | over every interleaving, an arming of the gate sees at most one applied decision more than stale claims taken over |
| Gate.DecidedIsFinal | services/governance/store.py:443-480 | without stale claims a decided record holds the one decision applied, and nobody is left who could apply another |
| Gate.DecisionSticks | services/governance/store.py:443-480 | once decided the record keeps its decision until the gate is armed again, and a later resume reuses it and applies nothing |
| Gate.OnlyHolderMoves | services/governance/store.py:446-480 | a record in DECIDING changes only through the claim's holder (finalize, or give back as WAITING), a takeover of a claim at least 60 seconds old, or a new arming |
| Gate.ClaimHasOneHolder | services/governance/store.py:449-453 | a claim in progress has at most one holder |
| Gate.BoundIsMet | services/governance/store.py:446-455 | for every k, a run with k stale claims taken over and k + 1 decisions applied to one arming |
| Gate.StaleClaimAppliesTwice | services/governance/store.py:446-455 | with one takeover, two different decisions |
| Resume.ResumeRecords | services/governance/store.py:424-481 | from any reachable state in which the gate waits or its claim is 60 seconds old: a worker that claims, decides, signals and finalizes before its own claim is that old leaves the record decided with that decision and with whether the signal went out, whatever others interleave |
| Resume.FailedResumeWaits | services/governance/store.py:455-465 | if its decision fails instead, the gate waits again in the same arming |
| Resume.LoneResume | services/governance/store.py:424-481 | with nobody else about, from a freshly armed gate |
| Resume.ClaimIsSafe | services/governance/store.py:446-453 | while a claim is fresh no other worker's step touches the record or its holder |
| Resume.FinalizeRecords | services/governance/store.py:475-477 | finalizing at the record's version leaves it decided with the very output in hand |
| Resume.FailureGivesBack | services/governance/store.py:457-461 | a failed decision leaves the gate waiting in the same arming |
| Resume.DecidedIsReplayed | services/governance/store.py:443-445 | a resume of a decided gate signals the recorded decision again and applies nothing |
| Resume.ArmedAnew | services/governance/store.py:360-371 | arming the gate makes it wait in a new arming |
| Resume.CrashEndsIt | services/governance/store.py:424-481 | a worker that crashed carries on with nothing it had under way |
| Approvals.ApprovalsAreDurable | services/governance/store.py:159-179 | no approval row is ever overwritten or lost |
| Approvals.MintOutcome | services/governance/store.py:163-179 | a minted id holds its worker's own record ever after; failure means at least eight other approvals of that day since the load |
| Approvals.IdsAreUnique | services/governance/store.py:159-179 | over every interleaving the ids handed out are pairwise distinct and are exactly the ids stored; no two workers hold the same one |
| Approvals.EightTriesDecide | services/governance/store.py:163-179 | eight tries after its load a worker holds an id of the day with its own record, or at least eight other approvals of that day came in between |
| Approvals.LoneMint | services/governance/store.py:163-175 | alone, a worker mints the day's next number at once |
| Activation.ActivatedWasApproved | services/governance/store.py:112-287 | over every interleaving, a version a step makes active holds the content bound by an approval of a build with no open rule review, no conflict, a passed validation, every unchanged case preserved and full provenance |
| Activation.ApproveExactly | services/governance/store.py:182-212 | an approval goes on record iff the operations are those opened for review, each of the five guardrails holds and there is a patched graph; then the candidate is stored unless its id is taken |
| Activation.BeginsExactly | services/governance/store.py:258-273 | in every run an activation can begin iff the last approval of the build was taken on the rules, graphs, operations and certificate the build has now, and the chosen version is stored, a candidate or active, and holds the approved graph |
| Activation.NeverWithoutApproval | services/governance/store.py:258-261 | with no approval on record none can begin |
| Activation.SaveOnce | services/registry/store.py:54-69 | a version is stored under a free id only |
| Activation.DecideOnlyRecords | services/governance/store.py:182-212 | any other decision is recorded and changes nothing else |
| Activation.GraphsAreImmutable | services/registry/store.py:54-69 | a stored version never disappears and its graph never changes |
| Activation.SequentialActivation | services/governance/store.py:270-287 | an activation on its own leaves its target as the only active version of its workflow and other workflows untouched |
| Activation.InterleavedActivations | services/governance/store.py:270-287 | from any state in which two activations of one workflow have begun and not written, some run leaves both targets active |
| Overlap.TwoActiveReachable | services/governance/store.py:182-287 | such a run from the empty store, approvals included |
| Overlap.BeginIsMidWay | services/governance/store.py:250-280 | once begun, each record of the workflow is still to be written or already as wanted |
| Overlap.OverlapOutcome | services/governance/store.py:270-287 | after two overlapping activations finish, a target is active iff its own worker wrote it last, everything else is superseded, and exactly one target is active iff one worker wrote both last |
| Storage.Collection.constructor | services/storage.py:251-259 | a collection written by the old design is its blob |
| Storage.Collection.GetItem | services/storage.py:262-271 | agrees with the whole-collection read on every key; version 0 iff absent, -1 when present without a version |
| Storage.Collection.Load | services/storage.py:130-152 | the blob with the rows over it |
| Storage.Collection.PutItem | services/storage.py:274-307 | a map update that shadows the blob, or an error that changes nothing when the version differs |
| Storage.Collection.SaveDict | services/storage.py:158-176 | the map becomes the argument and the blob is gone |
| Storage.Collection.SaveList | services/storage.py:177-192 | rows that disappeared go, changed ones lose their version, untouched ones keep it |
| Storage.Collection.DeleteItem | services/storage.py:374-392 | a map removal, unless the key was both a row and in the blob: then the blob's copy shows again |
| Storage.DeleteTwice | services/storage.py:374-392 | a second delete removes it for good |
| Storage.Collapse | services/storage.py:104-113 | duplicate keys collapse, the last item winning |
| Storage.LastWinsMeans | services/storage.py:104-113 | a key is present iff some item has it, with the value of the last such item |
| Storage.PutAll | services/storage.py:164-176 | the puts of a batch |

## Left out

- Patcher.Propose: steps 2b, 2c, 3, 4 and 4b are not part of the method. Their parts are (insertion before the submit node, the added form, the loop of moves, the failure on list-valued gates), but not the loops over missing obligations, removed obligations, ungated deadlines and exclusions, nor the anchor used when no submit node is found.
- Repair.RepairExactly: for procedures with unconditional edges, at most one form an action, and no prohibition gate before step 5; a branch that is off hides a gate or a form just as a shut gate does.
- Patcher.Draft.ReorderAll: a rule whose prerequisite has no node makes the code add one before its target; only rules with two nodes are in the loop.
- Witness.FindWitnesses: fields and values are listed in some order, not sorted by text, which matters only for what the cap cuts off; text values have no representative of "any other text" and are not modelled.
- Boundary.RepresentativesExactly: literals are on the grid (hundredths, or days); off-grid literals are rounded by the code and can then move to the other side.
- Normalizer.SemanticRuleDelta: only the set of labels and the type; notes, affected ids, and the provenance-only type are not modelled, and deadline values compare as day numbers where the code compares text.
- Compiler.CompileRules: the two tokens of an ordering entry are resolved to nodes outside the model; a threshold rule without a condition raises in the code and is not modelled.
- Compiler.CheckErrsExactly: an order comparison with a list and a compound condition are skipped by the check, and are not among the comparisons the result is about.
- Compiler.ThresholdDomain: an equality with a list beside a membership list raises in the code; the model lets the field pass.
- Reorder.MoveValid: assumes no node id is listed twice, because a doubled entry counts as two starts.
- Splice.SpliceValid: assumes the new id is fresh and the resolved target is an old node, as every intended use does; `PassValidExactly` and `SelfTargetCycles` say what happens otherwise.
- Activation.SequentialActivation: the choice among several active versions by creation time is not modelled.
- Activation.ActivatedWasApproved: guardrail evidence is part of the build record given to the approval; how validation produced it is not modelled.
- Gate.AtMostOneDecision: what a decision does (rule reviews, approvals) is one step that succeeds or fails; the compare-and-set write is one step here and two in `Optimistic`.
- Optimistic.NoLostUpdate: records written by the old bulk path (version -1) and deletes are not among the steps; the first write over such a record is unconditional.
- Storage.Collection.PutItem: the blob's own sort key is not a record key; the file backend is not modelled.
- Token matching of node labels, string branch conditions, type coercion and mixed-type comparison, floating-point rounding, unsupported operators and malformed records.
- HTTP and Lambda routing, authentication, workspaces, AWS calls, certificates, schema checks, JSON text.
- The text extractor, trace ingestion, synthetic cohorts, impact counts, benchmarks, purge and archive: wiring or counting that would add only easy members.
