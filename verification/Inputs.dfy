/** Inputs on which a claim fails once its side condition is dropped: graphs of two
    or three nodes and models of one or two rules. */
module Inputs {
  import opened Wrappers
  import opened Expr
  import opened Graphs
  import opened Dag
  import opened Interpreter
  import opened Rewiring
  import opened Splice
  import opened Reorder
  import opened Compiler
  import opened Differ
  import opened Repair
  import opened Enforce
  import opened Patcher

  // ---- Small graphs ------------------------------------------------------------------------

  lemma SmallDag(g: Graph, r: map<NodeId, int>, start: NodeId)
    requires r.Keys == Ids(g.nodes) && Ranked(g.edges, r) && NoDuplicates(g.edges)
    requires OneEntryEach(g.nodes) && start in Ids(g.nodes)
    requires forall id :: id in Ids(g.nodes) ==> (HasIncoming(g.edges, id) <==> id != start)
    ensures ValidDag(g) && Start(g) == start
  {
    RankedAcyclic(g.edges, r);
    OnlyStart(g.nodes, g.edges, start);
  }

  lemma TwoNodes(a: Node, b: Node)
    requires a.id != b.id
    ensures var ns := [a, b];
      Ids(ns) == {a.id, b.id} && OneEntryEach(ns) && ImplOf(ns, a.id) == a.impl && ImplOf(ns, b.id) == b.impl
  {
    assert [a, b] == [a] + [b] && [a] == [] + [a];
    IdsAppend([], a);
    IdsAppend([a], b);
    ImplOfAppend([a], b, a.id);
  }

  lemma ThreeNodes(a: Node, b: Node, c: Node)
    requires a.id != b.id && c.id !in {a.id, b.id}
    ensures Ids([a, b, c]) == {a.id, b.id, c.id} && OneEntryEach([a, b, c])
  {
    TwoNodes(a, b);
    IdsAppend([a, b], c);
    assert [a, b, c] == [a, b] + [c];
  }

  // ---- Splices -------------------------------------------------------------------------------

  const LOW: Cond := Cmp(0, Lt, One(5.0))
  const HIGH: Cond := Cmp(0, Ge, One(5.0))

  // A node with two branches to the submit node.
  function TwoBranches(): Graph {
    Graph([Node(0, Plain), Node(1, Submit)], [Edge(0, 1, true, Some(LOW)), Edge(0, 1, true, Some(HIGH))])
  }

  lemma TwoBranchesValid()
    ensures ValidDag(TwoBranches())
  {
    var g := TwoBranches();
    TwoNodes(g.nodes[0], g.nodes[1]);
    assert g.edges[0] in g.edges;
    SmallDag(g, map[0 := 0, 1 := 1], 0);
  }

  /** One predecessor with two branches to the target: the splice repeats an edge. */
  lemma TwoBranchesRepeat(n: Node)
    requires n.id !in {0, 1}
    ensures CanSplice(TwoBranches(), n, 1) && !ValidDag(Spliced(TwoBranches(), n, 1))
  {
    hide ValidDag;
    var g := TwoBranches();
    TwoBranchesValid();
    TwoNodes(g.nodes[0], g.nodes[1]);
    SpliceValid(g, n, 1);
    var es := g.edges;
    assert es[..1][..0] == [];
    assert Preds(es[..1], 1, n.id) == [0];
    assert Preds(es, 1, n.id) == [0] + [0];
  }

  // A single branch to the submit node.
  function OneBranch(): Graph { Graph([Node(0, Plain), Node(1, Submit)], [Edge(0, 1, true, Some(HIGH))]) }

  lemma OneBranchValid()
    ensures ValidDag(OneBranch()) && Start(OneBranch()) == 0
    ensures Ids(OneBranch().nodes) == {0, 1} && ImplOf(OneBranch().nodes, 0) == Plain
  {
    var g := OneBranch();
    TwoNodes(g.nodes[0], g.nodes[1]);
    assert g.edges[0] in g.edges;
    SmallDag(g, map[0 := 0, 1 := 1], 0);
  }

  lemma OneBranchSpliced(n: Node)
    requires n.id !in {0, 1}
    ensures SplicedDag(OneBranch(), n, 1)
  {
    hide ValidDag;
    var g := OneBranch();
    OneBranchValid();
    SpliceValid(g, n, 1);
    assert g.edges[..0] == [];
    assert Preds(g.edges, 1, n.id) == [0];
  }

  /** A branch into the target that is off: the splice drops its condition, and
      the submit node is reached although it was not. */
  lemma BranchOffReached(n: Node)
    requires n.id !in {0, 1} && n.impl == Plain
    ensures SplicedDag(OneBranch(), n, 1)
    ensures 1 !in Reached(OneBranch(), map[]) && 1 in Reached(Spliced(OneBranch(), n, 1), map[])
  {
    var g, h := OneBranch(), Spliced(OneBranch(), n, 1);
    var x: Case := map[];
    OneBranchValid();
    OneBranchSpliced(n);
    hide ValidDag, RunOf, SplicedEdges;
    assert Steps(g, x) == {};
    LeastReached(g, x, {0});
    ReachedShape(g, x);
    ReachedShape(h, x);
    SpliceStart(g, n, 1);
    SplicedImpls(g, n);
    assert g.edges[0] in g.edges;
    assert HasEdge(g.edges, 0, 1);
    SplicedEdge(g, n, 1, NextEdge(0, n.id));
    SplicedEdge(g, n, 1, NextEdge(n.id, 1));
    StepEdge(h, x, NextEdge(0, n.id));
    StepEdge(h, x, NextEdge(n.id, 1));
  }

  // ---- Moves ---------------------------------------------------------------------------------

  // 0 leads to 1 and 1 to 2.
  function Chain(): Graph {
    Graph([Node(0, Plain), Node(1, Plain), Node(2, Plain)], [NextEdge(0, 1), NextEdge(1, 2)])
  }

  lemma ChainValid()
    ensures ValidDag(Chain()) && Reaches(Chain().edges, 0, 1) && Reaches(Chain().edges, 1, 2)
  {
    var g := Chain();
    ThreeNodes(g.nodes[0], g.nodes[1], g.nodes[2]);
    assert g.edges[0] in g.edges && g.edges[1] in g.edges;
    ReachesNext(g.edges, 0, 1);
    ReachesNext(g.edges, 1, 2);
    SmallDag(g, map[0 := 0, 1 := 1, 2 := 2], 0);
  }

  lemma ReachesNext(es: seq<Edge>, u: NodeId, v: NodeId)
    requires HasEdge(es, u, v)
    ensures Reaches(es, u, v)
  {
    ReachesSelf(es, u);
    ReachesStep(es, u, u, v);
  }

  /** A third node between the two: moving 2 before 0 closes a cycle. */
  lemma DetourCloses()
    ensures Misordered(Chain(), 2, 0) && Detour(Chain().edges, 2, 0) && !Acyclic(MovedEdges(Chain().edges, 2, 0))
  {
    hide ValidDag, MovedEdges, Acyclic;
    var g := Chain();
    ChainValid();
    ReachesTrans(g.edges, 0, 1, 2);
    Journey.LeadsSorted(g, 0, 2);
    MoveAcyclic(g, 2, 0);
  }

  // 0 leads to 1 and to 2, and 1 to 2.
  function Triangle(): Graph {
    Graph([Node(0, Plain), Node(1, Plain), Node(2, Plain)], [NextEdge(0, 1), NextEdge(0, 2), NextEdge(1, 2)])
  }

  lemma TriangleValid()
    ensures ValidDag(Triangle()) && Reaches(Triangle().edges, 1, 2) && HasEdge(Triangle().edges, 0, 1)
    ensures Ranked(Triangle().edges, map[0 := 0, 1 := 1, 2 := 2])
  {
    var g := Triangle();
    ThreeNodes(g.nodes[0], g.nodes[1], g.nodes[2]);
    assert g.edges[0] in g.edges && g.edges[1] in g.edges && g.edges[2] in g.edges;
    ReachesNext(g.edges, 1, 2);
    SmallDag(g, map[0 := 0, 1 := 1, 2 := 2], 0);
  }

  /** A shared predecessor: moving 2 before 1 closes no cycle but repeats the edge
      from 0 to 2. */
  lemma SharedNeighbourCollides()
    ensures Misordered(Triangle(), 2, 1) && !Detour(Triangle().edges, 2, 1) && !ValidDag(Moved(Triangle(), 2, 1))
  {
    hide ValidDag, MovedEdges;
    var g := Triangle();
    var r := map[0 := 0, 1 := 1, 2 := 2];
    TriangleValid();
    Journey.LeadsSorted(g, 1, 2);
    if m :| m != 2 && m != 1 && Reaches(g.edges, 1, m) && Reaches(g.edges, m, 2) {
      RankedReaches(g.edges, r, 1, m);
      RankedReaches(g.edges, r, m, 2);
      assert false;
    }
    ThreeNodes(g.nodes[0], g.nodes[1], g.nodes[2]);
    assert g.edges[1] in g.edges;
    assert Collides(g.edges, 2, 1);
    MoveValid(g, 2, 1);
  }

  // ---- Gates for prohibitions ----------------------------------------------------------------

  // A step and the submit node.
  function StepAndSubmit(i: Impl): Graph { Graph([Node(0, i), Node(1, Submit)], [NextEdge(0, 1)]) }

  lemma StepAndSubmitValid(i: Impl)
    requires !i.Submit?
    ensures Submits(StepAndSubmit(i), 1) && Ids(StepAndSubmit(i).nodes) == {0, 1}
    ensures ImplOf(StepAndSubmit(i).nodes, 0) == i && ImplOf(StepAndSubmit(i).nodes, 1) == Submit
  {
    var g := StepAndSubmit(i);
    TwoNodes(g.nodes[0], g.nodes[1]);
    assert g.edges[0] in g.edges;
    SmallDag(g, map[0 := 0, 1 := 1], 0);
  }

  /** Two prohibitions on one field get gates of one name, and the graph breaks. */
  lemma TwoBansOneField(name: Naming)
    requires name(9) !in {0, 1}
    ensures var bans := [Ban(Some(Cmp(9, Gt, One(5.0))), 1), Ban(Some(Cmp(9, Lt, One(1.0))), 2)];
      Submits(StepAndSubmit(Plain), 1) && !ValidDag(Enforced(StepAndSubmit(Plain), ToGate(bans, {}), name, 1))
  {
    var g := StepAndSubmit(Plain);
    var p, q := Ban(Some(Cmp(9, Gt, One(5.0))), 1), Ban(Some(Cmp(9, Lt, One(1.0))), 2);
    StepAndSubmitValid(Plain);
    hide Submits, ValidDag, Enforced;
    assert [p, q][..1] == [p] && [p][..0] == [];
    assert ToGate([p], {}) == [Leaf(9, Gt, One(5.0))];
    var ls := ToGate([p, q], {});
    assert ls == [Leaf(9, Gt, One(5.0))] + [Leaf(9, Lt, One(1.0))];
    EnforcedValidExactly(g, ls, name, 1);
    assert name(ls[0].field) == name(ls[1].field);
  }

  // ---- Alignment -------------------------------------------------------------------------------

  /** An added form whose exception applies: the procedure asks for what the policy waives. */
  lemma AddedFormIgnoresWaiver(x: Case)
    requires 0 in x && x[0] >= 1.0
    ensures var o, es := Obligation(AlwaysTrue, 0), [Waiver(Some(5), Some(Cmp(0, Ge, One(1.0))), 1)];
      Needs(AddedForm(o, 5), x) && !RequiredFor(o, es, 5, x)
  {
    var w := Waiver(Some(5), Some(Cmp(0, Ge, One(1.0))), 1);
    assert w in [w] && Holds(w.cond, x);
  }

  // Two bounds on one field, as for "between 5 and 10".
  function BetweenBounds(): Model {
    Model([Criterion(Cmp(0, Ge, One(5.0)), 1), Criterion(Cmp(0, Le, One(10.0)), 2)], map[], [], [], [], [])
  }

  lemma BetweenTargets()
    ensures TargetsOf(BetweenBounds()) == map[0 := Target(Le, One(10.0), 2)]
    ensures BoundFields(BetweenBounds()) == {0} && DueFields(BetweenBounds()) == {}
  {
    var cs := BetweenBounds().eligibility;
    assert cs[..1][..0] == [];
    assert EligibilityTargets(cs[..1]) == map[0 := Target(Ge, One(5.0), 1)];
    assert cs[0] in cs;
  }

  lemma BetweenMatches()
    ensures var g := StepAndSubmit(Threshold(0, Ge, One(5.0)));
      PlainGraph(g) && Matches(BetweenBounds(), g)
  {
    var g := StepAndSubmit(Threshold(0, Ge, One(5.0)));
    StepAndSubmitValid(Threshold(0, Ge, One(5.0)));
    BetweenTargets();
    hide TargetsOf, ImplOf, BoundFields, DueFields;
    assert GateFor(g.nodes, 0, 0);
  }

  // A case below the lower bound meets what survives of the two.
  lemma BetweenSurvivors()
    ensures !Eligible(BetweenBounds(), map[0 := 3.0])
    ensures Admits(BetweenBounds(), map[0 := 3.0]) && Punctual(BetweenBounds(), map[0 := 3.0])
  {
    BetweenTargets();
    hide TargetsOf, BoundFields, DueFields;
    assert BetweenBounds().eligibility[0] in BetweenBounds().eligibility;
  }

  /** Step 1 keeps the last of two bounds on one field: the gate loses its lower
      bound, and a case below it is wrongly accepted. */
  lemma LowerBoundLost(cs: seq<Constraint>)
    requires Resolved(Repaired(BetweenBounds(), StepAndSubmit(Threshold(0, Ge, One(5.0)))), cs)
    ensures var m, g := BetweenBounds(), StepAndSubmit(Threshold(0, Ge, One(5.0)));
      && PlainGraph(g) && Matches(m, g)
      && Classify(EvaluateExpected(m, map[0 := 3.0]), OutcomeOf(Repaired(m, g), map[0 := 3.0], cs))
         == Some(Disagreement(WrongAcceptance, EligibleKey))
  {
    hide OutcomeOf, Classify, PlainGraph, Matches, RunOf, Admits, Punctual, Eligible, Repaired, Resolved, ValidDag,
      GatesMatch, HitsBound, HitsDeadline;
    var m, g := BetweenBounds(), StepAndSubmit(Threshold(0, Ge, One(5.0)));
    var x: Case := map[0 := 3.0];
    BetweenMatches();
    BetweenSurvivors();
    MatchesGates(m, g);
    HitsMean(m, g, x);
    RepairedVerdicts(m, g, x);
    OutcomeRuns(Repaired(m, g), x, cs);
    KindMeans(EvaluateExpected(m, x), OutcomeOf(Repaired(m, g), x, cs), 0, 0);
  }

  lemma MatchesGates(m: Model, g: Graph)
    requires PlainGraph(g) && Matches(m, g)
    ensures GatesMatch(m, g) && ValidDag(g)
  {
  }

  // ---- Deadlines -----------------------------------------------------------------------------

  // A gate of each kind, one after the other, and then the submit node.
  function TwoGates(): Graph {
    Graph([Node(0, Threshold(0, Ge, One(5.0))), Node(1, Deadline(1, Le, One(10.0))), Node(2, Submit)],
      [NextEdge(0, 1), NextEdge(1, 2)])
  }

  function BoundAndDue(): Model {
    Model([Criterion(Cmp(0, Ge, One(5.0)), 1)], map[], [], [], [Due(1, Le, One(20.0), 2)], [])
  }

  lemma TwoGatesValid()
    ensures ValidDag(TwoGates()) && Start(TwoGates()) == 0 && Ids(TwoGates().nodes) == {0, 1, 2}
    ensures var ns := TwoGates().nodes;
      && ImplOf(ns, 0) == Threshold(0, Ge, One(5.0)) && ImplOf(ns, 1) == Deadline(1, Le, One(10.0))
      && ImplOf(ns, 2) == Submit
  {
    var g := TwoGates();
    ThreeNodes(g.nodes[0], g.nodes[1], g.nodes[2]);
    assert g.edges[0] in g.edges && g.edges[1] in g.edges;
    SmallDag(g, map[0 := 0, 1 := 1, 2 := 2], 0);
  }

  lemma BoundAndDueTargets()
    ensures TargetsOf(BoundAndDue()) == map[0 := Target(Ge, One(5.0), 1), 1 := Target(Le, One(20.0), 2)]
    ensures BoundFields(BoundAndDue()) == {0} && DueFields(BoundAndDue()) == {1}
  {
    var cs, ds := BoundAndDue().eligibility, BoundAndDue().deadlines;
    assert cs[..0] == [] && ds[..0] == [] && cs[0] in cs && ds[0] in ds;
    assert EligibilityTargets(cs) == map[0 := Target(Ge, One(5.0), 1)];
  }

  lemma TwoGatesPlain()
    ensures PlainGraph(TwoGates())
  {
    TwoGatesValid();
    hide ImplOf, ValidDag;
  }

  lemma TwoGatesMatch()
    ensures Matches(BoundAndDue(), TwoGates())
  {
    TwoGatesValid();
    BoundAndDueTargets();
    hide ImplOf, BoundFields, DueFields, ValidDag;
    assert GateFor(TwoGates().nodes, 0, 0) && DueGateFor(TwoGates().nodes, 1, 1);
  }

  lemma BoundAndDueOnce()
    ensures OnePerField(BoundAndDue())
  {
    BoundAndDueTargets();
    hide BoundFields, DueFields;
  }

  // The only way past the first gate is through it.
  lemma SecondGateHidden(x: Case)
    requires 0 in x && x[0] < 5.0
    ensures var m, g := BoundAndDue(), TwoGates(); ValidDag(g) && HitsBound(m, g, x) && !HitsDeadline(m, g, x)
  {
    var m, g := BoundAndDue(), TwoGates();
    TwoGatesValid();
    BoundAndDueTargets();
    hide TargetsOf, ImplOf, ValidDag, Starts, Start;
    assert OpenWay(m, g, x, [0]) && [0][0] == Start(g);
    assert Exposed(m, g, x, 0) && GateFor(g.nodes, 0, 0);
    forall id | Exposed(m, g, x, id) ensures id == 0 {
      var p :| OpenWay(m, g, x, p) && p[0] == Start(g) && p[|p| - 1] == id;
      if |p| > 1 { assert Open(m, ImplOf(g.nodes, p[0]), x); }
    }
  }

  lemma BothFail(x: Case)
    requires x == map[0 := 3.0, 1 := 30.0]
    ensures !Eligible(BoundAndDue(), x) && !OnTime(BoundAndDue(), x)
  {
    var m := BoundAndDue();
    assert m.eligibility[0] in m.eligibility && m.deadlines[0] in m.deadlines;
  }

  /** A case that is neither eligible nor on time is stopped by the first gate of
      the two: aligning both leaves it a deadline mismatch. */
  lemma LateAndTurnedAway(cs: seq<Constraint>)
    requires Resolved(Repaired(BoundAndDue(), TwoGates()), cs)
    ensures PlainGraph(TwoGates()) && Matches(BoundAndDue(), TwoGates())
    ensures var m, x := BoundAndDue(), map[0 := 3.0, 1 := 30.0];
      Classify(EvaluateExpected(m, x), OutcomeOf(Repaired(m, TwoGates()), x, cs))
      == Some(Disagreement(DeadlineMismatch, OnTimeKey))
  {
    var m, g, x := BoundAndDue(), TwoGates(), map[0 := 3.0, 1 := 30.0];
    TwoGatesPlain();
    TwoGatesMatch();
    BoundAndDueOnce();
    SecondGateHidden(x);
    BothFail(x);
    hide PlainGraph, GatesMatch, OutcomeOf, RunOf, Classify, HitsBound, HitsDeadline, OnePerField, ValidDag, Repaired,
      Resolved, Eligible, OnTime, BoundAndDue, TwoGates, EvaluateExpected;
    RepairedVerdicts(m, g, x);
    OutcomeRuns(Repaired(m, g), x, cs);
    MismatchMeans(m, g, x, OutcomeOf(Repaired(m, g), x, cs));
  }

  // A deadline gate before the one form.
  function DueThenForm(): Graph {
    Graph([Node(0, Deadline(0, Le, One(10.0))), Node(1, Form(5, true, None)), Node(2, Submit)],
      [NextEdge(0, 1), NextEdge(1, 2)])
  }

  function DueAndStep(): Model {
    Model([], map[5 := Obligation(AlwaysTrue, 1)], [], [], [Due(0, Le, One(10.0), 2)], [])
  }

  lemma DueThenFormValid()
    ensures ValidDag(DueThenForm()) && Start(DueThenForm()) == 0 && Ids(DueThenForm().nodes) == {0, 1, 2}
    ensures var ns := DueThenForm().nodes;
      && ImplOf(ns, 0) == Deadline(0, Le, One(10.0)) && ImplOf(ns, 1) == Form(5, true, None) && ImplOf(ns, 2) == Submit
  {
    var g := DueThenForm();
    ThreeNodes(g.nodes[0], g.nodes[1], g.nodes[2]);
    assert g.edges[0] in g.edges && g.edges[1] in g.edges;
    SmallDag(g, map[0 := 0, 1 := 1, 2 := 2], 0);
  }

  lemma DueAndStepTargets()
    ensures TargetsOf(DueAndStep()) == map[0 := Target(Le, One(10.0), 2)]
    ensures BoundFields(DueAndStep()) == {} && DueFields(DueAndStep()) == {0}
  {
    var ds := DueAndStep().deadlines;
    assert ds[..0] == [] && ds[0] in ds;
  }

  lemma DueThenFormPlain()
    ensures PlainGraph(DueThenForm())
  {
    DueThenFormValid();
    hide ImplOf, ValidDag;
  }

  lemma DueThenFormGates()
    ensures GatesMatch(DueAndStep(), DueThenForm())
  {
    DueThenFormValid();
    DueAndStepTargets();
    hide ImplOf, BoundFields, DueFields, ValidDag;
    assert DueGateFor(DueThenForm().nodes, 0, 0);
  }

  lemma DueThenFormMatches()
    ensures Matches(DueAndStep(), DueThenForm())
  {
    DueThenFormGates();
    DueThenFormValid();
    hide ImplOf, ValidDag, GatesMatch;
    assert FormFor(DueThenForm().nodes, Ids(DueThenForm().nodes), 1, 5);
  }

  lemma DueAndStepFolds()
    ensures Foldable(DueAndStep())
  {
    DueAndStepTargets();
    hide BoundFields, DueFields;
  }

  lemma OnlyLate(x: Case)
    requires x == map[0 := 30.0]
    ensures var m := DueAndStep();
      Eligible(m, x) && !OnTime(m, x) && RequiredFor(m.obligations[5], m.exceptions, 5, x)
  {
    var m := DueAndStep();
    assert m.deadlines[0] in m.deadlines;
  }

  lemma FormBehindDeadline(x: Case)
    requires 0 in x && x[0] > 10.0
    ensures ValidDag(DueThenForm()) && !FormExposed(DueAndStep(), DueThenForm(), x, 5)
  {
    var m, g := DueAndStep(), DueThenForm();
    DueThenFormValid();
    DueAndStepTargets();
    hide TargetsOf, ImplOf, ValidDag, Starts, Start;
    forall id | Exposed(m, g, x, id) ensures id == 0 {
      var p :| OpenWay(m, g, x, p) && p[0] == Start(g) && p[|p| - 1] == id;
      if |p| > 1 { assert Open(m, ImplOf(g.nodes, p[0]), x); }
    }
  }

  /** An eligible case that is late is stopped before the form: the procedure, already
      aligned, never asks for a step the policy asks for. */
  lemma StepBehindDeadline(cs: seq<Constraint>)
    requires Resolved(Repaired(DueAndStep(), DueThenForm()), cs)
    ensures PlainGraph(DueThenForm()) && Matches(DueAndStep(), DueThenForm()) && Foldable(DueAndStep())
    ensures var m, x := DueAndStep(), map[0 := 30.0];
      && Eligible(m, x) && !OnTime(m, x)
      && Classify(EvaluateExpected(m, x), OutcomeOf(Repaired(m, DueThenForm()), x, cs)) != None
  {
    var m, g, x := DueAndStep(), DueThenForm(), map[0 := 30.0];
    DueThenFormPlain();
    DueThenFormMatches();
    DueAndStepFolds();
    FormBehindDeadline(x);
    OnlyLate(x);
    hide PlainGraph, Matches, Foldable, OutcomeOf, RunOf, Classify, EvaluateExpected, Eligible, OnTime, FormExposed,
      Repaired, Resolved, HitsBound, HitsDeadline, Violated, ValidDag, RequiredFor;
    RepairComplete(m, g, x, cs);
  }

  // One membership criterion.
  function MemberModel(): Model { Model([Criterion(Cmp(0, In, Many([1.0])), 1)], map[], [], [], [], []) }

  /** Aligning a gate to a membership criterion gives it a list, on which the
      collection of gates for step 4b fails. */
  lemma AlignedToList()
    ensures var g := StepAndSubmit(Threshold(0, Ge, One(1.0)));
      !HasListGate(g.nodes) && HasListGate(AlignedFor(MemberModel(), g, {WrongAcceptance}).nodes)
  {
    var g, m := StepAndSubmit(Threshold(0, Ge, One(1.0))), MemberModel();
    assert m.eligibility[..0] == [];
    assert TargetsOf(m) == map[0 := Target(In, Many([1.0]), 1)];
    var ns := AlignedGates(TargetsOf(m), g.nodes);
    assert WrongAcceptance in {WrongAcceptance} * GATE_FAULTS;
    assert {WrongAcceptance} * STEP_FAULTS == {};
    assert ns[0] in ns && ns[0].impl == Threshold(0, In, Many([1.0]));
  }
}
