/** What aligning gates and steps and enforcing prohibitions leave together
    (services/patcher/patcher.py, lines 91-145 and 296-324). */
module Complete {
  import opened Wrappers
  import opened Expr
  import opened Graphs
  import opened Dag
  import opened Interpreter
  import opened Compiler
  import opened Differ
  import opened Splice
  import opened Repair
  import opened Enforce

  // The comparisons that get a gate once gates and steps are aligned.
  function BansFor(m: Model, g: Graph): seq<Leaf> { ToGate(m.prohibitions, GatedFields(Repaired(m, g).nodes)) }

  function Finished(m: Model, g: Graph, name: Naming, tid: NodeId): Graph {
    Enforced(Repaired(m, g), BansFor(m, g), name, tid)
  }

  lemma {:induction false} EnforceKeepsRequired(g: Graph, ls: seq<Leaf>, name: Naming, tid: NodeId, x: Case)
    requires Submits(g, tid) && FreshNames(g, ls, name) && OneFormEach(g.nodes)
    ensures OneFormEach(Enforced(g, ls, name, tid).nodes)
    ensures RunOf(Enforced(g, ls, name, tid), x).required == RunOf(g, x).required
    decreases |ls|
  {
    hide RunOf, OneFormEach, SplicedEdges;
    if ls != [] {
      var front, last := ls[..|ls| - 1], ls[|ls| - 1];
      assert ls == front + [last];
      var h, n := Enforced(g, front, name, tid), GateNode(last, name);
      LastNameFresh(g, ls, name);
      EnforceKeepsRequired(g, front, name, tid, x);
      EnforcedSubmits(g, front, name, tid);
      GateKeepsSubmits(h, n, tid);
      UnconditionalNeverCutOff(h, x, tid);
      GateKeepsRequired(h, n, tid, x);
      OneFormStays(h.nodes, n);
    }
  }

  // Where the three steps apply: a plain graph whose submit node is entered by
  // unconditional edges, and fresh names, no two alike, for the gates.
  ghost predicate CanFinish(m: Model, g: Graph, name: Naming, tid: NodeId) {
    && PlainGraph(g) && Matches(m, g) && Submits(g, tid)
    && FreshNames(g, BansFor(m, g), name)
  }

  lemma RepairedOneForm(m: Model, g: Graph)
    requires PlainGraph(g) && Matches(m, g)
    ensures OneFormEach(Repaired(m, g).nodes)
  {
    var h := Repaired(m, g);
    var x: Case := map[];
    hide Matches, FormFor, Repaired, ValidDag;
    forall i, a ensures FormFor(h.nodes, Ids(h.nodes), i, a) <==> FormFor(g.nodes, Ids(g.nodes), i, a) {
      RepairedForm(m, g, i, a, x);
    }
  }

  lemma RepairedSubmits(m: Model, g: Graph, name: Naming, tid: NodeId)
    requires CanFinish(m, g, name, tid)
    ensures Submits(Repaired(m, g), tid) && FreshNames(Repaired(m, g), BansFor(m, g), name)
  {
    var x: Case := map[];
    RepairedValid(m, g);
    GateMeets(m, g, x, tid);
    hide Matches, PlainGraph, BansFor, ValidDag;
  }

  // The run of the finished graph against that of the aligned one.
  lemma FinishedRun(m: Model, g: Graph, name: Naming, tid: NodeId, x: Case)
    requires CanFinish(m, g, name, tid)
    ensures ValidDag(Finished(m, g, name, tid))
    ensures BlocksOn(RunOf(Repaired(m, g), x), RunOf(Finished(m, g, name, tid), x), tid, AnyHolds(BansFor(m, g), x))
    ensures RunOf(Finished(m, g, name, tid), x).required == RunOf(Repaired(m, g), x).required
  {
    hide RunOf, Repaired, BansFor;
    RepairedSubmits(m, g, name, tid);
    RepairedOneForm(m, g);
    EnforceBlocksExactly(Repaired(m, g), BansFor(m, g), name, tid, x);
    EnforceKeepsRequired(Repaired(m, g), BansFor(m, g), name, tid, x);
  }

  // A violated prohibition is caught by a gate, which the case gets to with the
  // submit node.
  ghost predicate Caught(m: Model, g: Graph, x: Case, tid: NodeId)
    requires ValidDag(g)
  {
    Violated(m.prohibitions, x) != [] ==> AnyHolds(BansFor(m, g), x) && Exposed(m, g, x, tid)
  }

  /** On every case of the unbounded domain policy and procedure agree, after the
      three steps, exactly when the ordering rules are kept, the case gets to a shut
      gate of either kind exactly when it fails the rules of that kind, and for an
      eligible case every step is asked for as it should be and every violated
      prohibition is caught. */
  lemma AllStepsExactly(m: Model, g: Graph, name: Naming, tid: NodeId, x: Case, cs: seq<Constraint>)
    requires CanFinish(m, g, name, tid) && Resolved(Finished(m, g, name, tid), cs)
    ensures ValidDag(Finished(m, g, name, tid))
    ensures Classify(EvaluateExpected(m, x), OutcomeOf(Finished(m, g, name, tid), x, cs)) == None <==>
      && OutcomeOf(Finished(m, g, name, tid), x, cs).orderOk
      && (Eligible(m, x) <==> !HitsBound(m, g, x))
      && (OnTime(m, x) <==> !HitsDeadline(m, g, x))
      && (Eligible(m, x) ==> AllServed(m, g, x) && Caught(m, g, x, tid))
  {
    var h := Finished(m, g, name, tid);
    FinishedRun(m, g, name, tid, x);
    RepairedVerdicts(m, g, x);
    RepairedReach(m, g, x, tid);
    RequirementsAgree(m, g, x);
    OutcomeRuns(h, x, cs);
    hide OutcomeOf, RunOf, Classify, AllServed, HitsBound, HitsDeadline, Finished, Repaired, BansFor, AnyHolds, Exposed;
    AgreementMeans(EvaluateExpected(m, x), OutcomeOf(h, x, cs));
  }

  /** For a foldable model whose prohibitions can all be gated nothing is left to
      disagree on, on any case, but an ordering rule and what lies behind the gate
      that stops a late case: a step in force, or the gates of a violated prohibition. */
  lemma AllStepsComplete(m: Model, g: Graph, name: Naming, tid: NodeId, x: Case, cs: seq<Constraint>)
    requires CanFinish(m, g, name, tid) && Resolved(Finished(m, g, name, tid), cs)
    requires Foldable(m) && Enforceable(m.prohibitions, GatedFields(Repaired(m, g).nodes))
    ensures ValidDag(Finished(m, g, name, tid))
    ensures Classify(EvaluateExpected(m, x), OutcomeOf(Finished(m, g, name, tid), x, cs)) == None <==>
      && OutcomeOf(Finished(m, g, name, tid), x, cs).orderOk && StopsTell(m, g, x)
      && (Eligible(m, x) && !OnTime(m, x) && Violated(m.prohibitions, x) != [] ==> Exposed(m, g, x, tid))
  {
    AllStepsExactly(m, g, name, tid, x, cs);
    FoldableAgrees(m, g, x);
    GatesCoverBans(m.prohibitions, GatedFields(Repaired(m, g).nodes), x);
    ViolatedMeans(m.prohibitions, x);
    assert tid in Ids(g.nodes);
    hide OutcomeOf, Classify, EvaluateExpected, Finished, ToGate, Repaired, StopsTell, AllServed, HitsBound,
      HitsDeadline, Eligible, OnTime, Exposed, Violated, AnyHolds;
  }
}
