/** The recorded operations of a proposal as a log of nodes and edges
    (services/patcher/patcher.py, lines 85-330): what is hashed and approved is
    what was done. */
module Journal {
  import opened Wrappers
  import opened Expr
  import opened Graphs
  import opened Dag
  import opened Compiler
  import opened Differ
  import opened Rewiring
  import opened Splice
  import opened Kahn
  import opened Ordering
  import opened Reorder
  import opened Repair
  import opened Enforce
  import opened Patcher

  // ---- Replaying operations on the node list -------------------------------------------------

  function Regated(i: Impl, t: Target): Impl {
    match i
    case Threshold(f, _, _) => Threshold(f, t.op, t.want)
    case Deadline(f, _, _) => Deadline(f, t.op, t.want)
    case _ => i
  }

  function Reflagged(i: Impl, f: Flag): Impl {
    match i
    case Form(a, _, _) => Form(a, f.required, f.cond)
    case Task(a, _, _) => Task(a, f.required, f.cond)
    case _ => i
  }

  function Changed(n: Node, op: PatchOp): Node {
    match op
    case ChangeCondition(id, t) => if n.id == id then Node(id, Regated(n.impl, t)) else n
    case ChangeRequiredFlag(id, f) => if n.id == id then Node(id, Reflagged(n.impl, f)) else n
    case _ => n
  }

  function Onto(op: PatchOp, ns: seq<Node>): (r: seq<Node>)
    ensures |r| == |ns| + if op.AddNode? then 1 else 0
    ensures forall k :: 0 <= k < |ns| ==> r[k] == Changed(ns[k], op)
    ensures op.AddNode? ==> r[|ns|] == op.node
  {
    seq(|ns|, k requires 0 <= k < |ns| => Changed(ns[k], op)) + if op.AddNode? then [op.node] else []
  }

  function ReplayNodes(ops: seq<PatchOp>, ns: seq<Node>): seq<Node> {
    if ops == [] then ns else Onto(ops[|ops| - 1], ReplayNodes(ops[..|ops| - 1], ns))
  }

  lemma {:induction false} NodesJoin(p: seq<PatchOp>, q: seq<PatchOp>, ns: seq<Node>)
    ensures ReplayNodes(p + q, ns) == ReplayNodes(q, ReplayNodes(p, ns))
    decreases |q|
  {
    hide Onto;
    if q == [] {
      assert p + q == p;
    } else {
      var n := |q| - 1;
      assert (p + q)[..|p + q| - 1] == p + q[..n];
      NodesJoin(p, q[..n], ns);
    }
  }

  lemma OneOp(op: PatchOp, ns: seq<Node>)
    ensures ReplayNodes([op], ns) == Onto(op, ns)
  {
    assert [op][..0] == [];
  }

  // Operations that say nothing about nodes.
  predicate OnlyEdges(ops: seq<PatchOp>) {
    forall o :: o in ops ==> !o.AddNode? && !o.ChangeCondition? && !o.ChangeRequiredFlag?
  }

  predicate OnlyNodes(ops: seq<PatchOp>) { forall o :: o in ops ==> !o.AddEdge? && !o.RemoveEdge? }

  lemma {:induction false} EdgesLeaveNodes(ops: seq<PatchOp>, ns: seq<Node>)
    requires OnlyEdges(ops)
    ensures ReplayNodes(ops, ns) == ns
    decreases |ops|
  {
    if ops != [] {
      assert ops[|ops| - 1] in ops;
      EdgesLeaveNodes(ops[..|ops| - 1], ns);
    }
  }

  lemma {:induction false} NodesLeaveEdges(ops: seq<PatchOp>, arcs: Arcs)
    requires OnlyNodes(ops)
    ensures Replay(ops, arcs) == arcs
    decreases |ops|
  {
    if ops != [] {
      assert ops[|ops| - 1] in ops;
      NodesLeaveEdges(ops[..|ops| - 1], arcs);
    }
  }

  // ---- Steps 1 and 2 ---------------------------------------------------------------------------

  // One change made to the first i nodes as they are after a step, the others as they were.
  lemma HalfStep(done: seq<Node>, before: seq<Node>, i: nat, op: PatchOp)
    requires i < |before| && |done| == |before| && OneEntryEach(before) && !op.AddNode?
    requires forall k :: 0 <= k < |before| ==> done[k].id == before[k].id
    requires forall n: Node :: n.id != before[i].id ==> Changed(n, op) == n
    requires Changed(before[i], op) == done[i]
    ensures Onto(op, done[..i] + before[i..]) == done[..i + 1] + before[i + 1..]
  {
    var ns, ms := done[..i] + before[i..], done[..i + 1] + before[i + 1..];
    forall k | 0 <= k < |ns| ensures Changed(ns[k], op) == ms[k] {
      if k != i { assert ns[k].id == before[k].id != before[i].id; }
    }
  }

  // The operations for one node, if any: the first changes it, the others no node.
  ghost predicate Turns(ops: seq<PatchOp>, n: Node, to: Node) {
    && to.id == n.id && (ops == [] ==> to == n)
    && (ops != [] ==> !ops[0].AddNode? && Changed(n, ops[0]) == to && OnlyEdges(ops[1..])
                        && forall k: Node :: k.id != n.id ==> Changed(k, ops[0]) == k)
  }

  lemma TurnReplays(done: seq<Node>, before: seq<Node>, i: nat, ops: seq<PatchOp>)
    requires i < |before| && |done| == |before| && OneEntryEach(before)
    requires forall k :: 0 <= k < |before| ==> done[k].id == before[k].id
    requires Turns(ops, before[i], done[i])
    ensures ReplayNodes(ops, done[..i] + before[i..]) == done[..i + 1] + before[i + 1..]
  {
    if ops == [] {
      assert done[..i + 1] + before[i + 1..] == done[..i] + before[i..];
    } else {
      HalfStep(done, before, i, ops[0]);
      hide Onto, Turns, Changed;
      assert ops == [ops[0]] + ops[1..];
      NodesJoin([ops[0]], ops[1..], done[..i] + before[i..]);
      OneOp(ops[0], done[..i] + before[i..]);
      assert Turns(ops, before[i], done[i]);
      EdgesLeaveNodes(ops[1..], done[..i + 1] + before[i + 1..]);
    }
  }

  lemma GateTurns(ts: map<Field, Target>, n: Node)
    ensures Turns(GateOp(ts, n), n, Node(n.id, AlignedGate(ts, n.impl)))
  {
  }

  lemma StepTurns(m: Model, n: Node)
    ensures Turns(StepOp(m, n), n, Node(n.id, AlignedStep(m, n.impl)))
  {
    hide FoldFor;
    if AlignedStep(m, n.impl) != n.impl {
      var f := FoldFor(m, n.impl.action);
      assert StepOp(m, n)[1..] == if f.cond.Some? then [AddGate(n.id, f.cond.value)] else [];
    }
  }

  lemma GateOpsSnoc(ts: map<Field, Target>, ns: seq<Node>, i: nat)
    requires 0 < i <= |ns|
    ensures GateOps(ts, ns[..i]) == GateOps(ts, ns[..i - 1]) + GateOp(ts, ns[i - 1])
  {
    assert ns[..i][..i - 1] == ns[..i - 1];
  }

  lemma StepOpsSnoc(m: Model, ns: seq<Node>, i: nat)
    requires 0 < i <= |ns|
    ensures StepOps(m, ns[..i]) == StepOps(m, ns[..i - 1]) + StepOp(m, ns[i - 1])
  {
    assert ns[..i][..i - 1] == ns[..i - 1];
  }

  lemma {:induction false} GatesReplay(ts: map<Field, Target>, ns: seq<Node>, i: nat)
    requires i <= |ns| && OneEntryEach(ns)
    ensures ReplayNodes(GateOps(ts, ns[..i]), ns) == AlignedGates(ts, ns)[..i] + ns[i..]
    decreases i
  {
    hide Onto, AlignedGate, GateOp, GateOps, Turns, OneEntryEach;
    var done := AlignedGates(ts, ns);
    if i == 0 {
      assert GateOps(ts, []) == [] by { NoGateOps(ts); }
    } else {
      GatesReplay(ts, ns, i - 1);
      GateOpsSnoc(ts, ns, i);
      NodesJoin(GateOps(ts, ns[..i - 1]), GateOp(ts, ns[i - 1]), ns);
      GateTurns(ts, ns[i - 1]);
      TurnReplays(done, ns, i - 1, GateOp(ts, ns[i - 1]));
    }
  }

  lemma NoGateOps(ts: map<Field, Target>)
    ensures GateOps(ts, []) == []
  {
  }

  lemma NoStepOps(m: Model)
    ensures StepOps(m, []) == []
  {
  }

  lemma {:induction false} StepsReplay(m: Model, ns: seq<Node>, i: nat)
    requires i <= |ns| && OneEntryEach(ns)
    ensures ReplayNodes(StepOps(m, ns[..i]), ns) == AlignedSteps(m, ns)[..i] + ns[i..]
    decreases i
  {
    hide Onto, AlignedStep, StepOp, StepOps, Turns, OneEntryEach;
    var done := AlignedSteps(m, ns);
    if i == 0 {
      assert StepOps(m, []) == [] by { NoStepOps(m); }
    } else {
      StepsReplay(m, ns, i - 1);
      StepOpsSnoc(m, ns, i);
      NodesJoin(StepOps(m, ns[..i - 1]), StepOp(m, ns[i - 1]), ns);
      StepTurns(m, ns[i - 1]);
      TurnReplays(done, ns, i - 1, StepOp(m, ns[i - 1]));
    }
  }

  lemma {:induction false} GateOpsOnNodes(ts: map<Field, Target>, ns: seq<Node>)
    ensures OnlyNodes(GateOps(ts, ns))
    decreases |ns|
  {
    if ns != [] { GateOpsOnNodes(ts, ns[..|ns| - 1]); }
  }

  lemma {:induction false} StepOpsOnNodes(m: Model, ns: seq<Node>)
    ensures OnlyNodes(StepOps(m, ns))
    decreases |ns|
  {
    hide FoldFor, AlignedStep;
    if ns != [] { StepOpsOnNodes(m, ns[..|ns| - 1]); }
  }

  // ---- Step 5 ------------------------------------------------------------------------------------

  lemma {:induction false} RedirectOnEdges(ps: seq<NodeId>, to: NodeId, from: NodeId)
    ensures OnlyEdges(Redirect(ps, to, from))
    decreases |ps|
  {
    if ps != [] { RedirectOnEdges(ps[..|ps| - 1], to, from); }
  }

  // One gate put in front of the submit node.
  lemma InsertReplays(g: Graph, n: Node, tid: NodeId)
    requires NoDangling(g) && n.id !in Ids(g.nodes) && tid in Ids(g.nodes)
    ensures var ops := [AddNode(n)] + SpliceOps(g.edges, n.id, tid);
      && ReplayNodes(ops, g.nodes) == Spliced(g, n, tid).nodes
      && Replay(ops, ArcsOf(g.edges)) == ArcsOf(Spliced(g, n, tid).edges)
  {
    var ops := SpliceOps(g.edges, n.id, tid);
    RedirectOnEdges(Preds(g.edges, tid, n.id), n.id, tid);
    NodesJoin([AddNode(n)], ops, g.nodes);
    OneOp(AddNode(n), g.nodes);
    assert Onto(AddNode(n), g.nodes) == g.nodes + [n];
    EdgesLeaveNodes(ops, g.nodes + [n]);
    ReplayJoin([AddNode(n)], ops, ArcsOf(g.edges));
    NodesLeaveEdges([AddNode(n)], ArcsOf(g.edges));
    SpliceOpsFaithful(g.edges, n.id, tid);
  }

  lemma {:induction false} EnforceReplays(g: Graph, ls: seq<Leaf>, name: Naming, tid: NodeId)
    requires Submits(g, tid) && FreshNames(g, ls, name)
    ensures ReplayNodes(EnforceOps(g, ls, name, tid), g.nodes) == Enforced(g, ls, name, tid).nodes
    ensures Replay(EnforceOps(g, ls, name, tid), ArcsOf(g.edges)) == ArcsOf(Enforced(g, ls, name, tid).edges)
    decreases |ls|
  {
    hide Submits, FreshNames, Spliced, SpliceOps, Enforced, EnforceOps, ReplayNodes, Replay, ArcsOf;
    if ls == [] {
      NothingEnforced(g, name, tid);
    } else {
      var front, n := ls[..|ls| - 1], GateNode(ls[|ls| - 1], name);
      var h := Enforced(g, front, name, tid);
      LastNameFresh(g, ls, name);
      EnforceReplays(g, front, name, tid);
      EnforcedSubmits(g, front, name, tid);
      assert ls == front + [ls[|ls| - 1]];
      EnforcedSnoc(g, front, ls[|ls| - 1], name, tid);
      SubmitsInside(h, tid);
      InsertReplays(h, n, tid);
      var before, more := EnforceOps(g, front, name, tid), [AddNode(n)] + SpliceOps(h.edges, n.id, tid);
      assert EnforceOps(g, ls, name, tid) == before + more;
      NodesJoin(before, more, g.nodes);
      ReplayJoin(before, more, ArcsOf(g.edges));
    }
  }

  lemma NothingEnforced(g: Graph, name: Naming, tid: NodeId)
    ensures ReplayNodes(EnforceOps(g, [], name, tid), g.nodes) == Enforced(g, [], name, tid).nodes
    ensures Replay(EnforceOps(g, [], name, tid), ArcsOf(g.edges)) == ArcsOf(Enforced(g, [], name, tid).edges)
  {
  }

  lemma SubmitsInside(g: Graph, tid: NodeId)
    requires Submits(g, tid)
    ensures NoDangling(g) && tid in Ids(g.nodes)
  {
  }

  // ---- A whole proposal --------------------------------------------------------------------------

  // What steps 1 and 2 record.
  function AlignOps(m: Model, g: Graph, faults: set<Kind>): seq<PatchOp> {
    var gated := if faults * GATE_FAULTS != {} then AlignedGates(TargetsOf(m), g.nodes) else g.nodes;
    (if faults * GATE_FAULTS != {} then GateOps(TargetsOf(m), g.nodes) else [])
    + (if faults * STEP_FAULTS != {} then StepOps(m, gated) else [])
  }

  lemma GateStepReplays(ts: map<Field, Target>, ns: seq<Node>)
    requires OneEntryEach(ns)
    ensures ReplayNodes(GateOps(ts, ns), ns) == AlignedGates(ts, ns)
    ensures OneEntryEach(AlignedGates(ts, ns)) && OnlyNodes(GateOps(ts, ns))
  {
    GatesReplay(ts, ns, |ns|);
    GateOpsOnNodes(ts, ns);
    assert ns[..|ns|] == ns && ns[|ns|..] == [] && AlignedGates(ts, ns)[..|ns|] + [] == AlignedGates(ts, ns);
  }

  lemma StepStepReplays(m: Model, ns: seq<Node>)
    requires OneEntryEach(ns)
    ensures ReplayNodes(StepOps(m, ns), ns) == AlignedSteps(m, ns) && OnlyNodes(StepOps(m, ns))
  {
    StepsReplay(m, ns, |ns|);
    StepOpsOnNodes(m, ns);
    assert ns[..|ns|] == ns && ns[|ns|..] == [] && AlignedSteps(m, ns)[..|ns|] + [] == AlignedSteps(m, ns);
  }

  lemma AlignedReplays(m: Model, g: Graph, faults: set<Kind>)
    requires OneEntryEach(g.nodes)
    ensures ReplayNodes(AlignOps(m, g, faults), g.nodes) == AlignedFor(m, g, faults).nodes
    ensures OnlyNodes(AlignOps(m, g, faults))
  {
    var ts := TargetsOf(m);
    var gated := if faults * GATE_FAULTS != {} then AlignedGates(ts, g.nodes) else g.nodes;
    var first := if faults * GATE_FAULTS != {} then GateOps(ts, g.nodes) else [];
    var second := if faults * STEP_FAULTS != {} then StepOps(m, gated) else [];
    GateStepReplays(ts, g.nodes);
    StepStepReplays(m, gated);
    NodesJoin(first, second, g.nodes);
    hide GateOps, StepOps, AlignedGates, AlignedSteps, OneEntryEach;
  }

  /** Replayed on the workflow it was made for, the log of a proposal gives the
      patched nodes, in order, and the patched arcs. */
  lemma ProposalOpsFaithful(m: Model, g: Graph, faults: set<Kind>, name: Naming, submit: NodeId)
    requires OneEntryEach(g.nodes) && CanEnforce(m, g, faults, name, submit)
    ensures var p := ProposalFor(m, g, faults, name, submit);
      ReplayNodes(p.ops, g.nodes) == p.patched.nodes && Replay(p.ops, ArcsOf(g.edges)) == ArcsOf(p.patched.edges)
  {
    hide GateOps, StepOps, EnforceOps, Enforced, ToGate, TargetsOf, AlignedGates, AlignedSteps, OneEntryEach;
    hide ReplayNodes, Replay, ArcsOf, Submits, FreshNames;
    var p, h := ProposalFor(m, g, faults, name, submit), AlignedFor(m, g, faults);
    var bans := ToGate(m.prohibitions, GatedFields(h.nodes));
    var ops := AlignOps(m, g, faults);
    var more := if ProhibitionBreach in faults then EnforceOps(h, bans, name, submit) else [];
    assert p.ops == ops + more;
    AlignedReplays(m, g, faults);
    NodesJoin(ops, more, g.nodes);
    ReplayJoin(ops, more, ArcsOf(g.edges));
    NodesLeaveEdges(ops, ArcsOf(g.edges));
    if ProhibitionBreach in faults {
      EnforceReplays(h, bans, name, submit);
    } else {
      EdgesLeaveNodes([], h.nodes);
      NodesLeaveEdges([], ArcsOf(h.edges));
    }
  }

  /** Every changed requirement that has a condition is logged with that condition
      as a gate of its own, and no other gate is. */
  lemma {:induction false} GatesLogged(m: Model, ns: seq<Node>, id: NodeId, c: Cond)
    ensures AddGate(id, c) in StepOps(m, ns) <==>
      exists f :: ChangeRequiredFlag(id, f) in StepOps(m, ns) && f.cond == Some(c)
    decreases |ns|
  {
    hide FoldFor, AlignedStep;
    if ns != [] {
      GatesLogged(m, ns[..|ns| - 1], id, c);
    }
  }

  // The k-th rule has its two nodes the wrong way round in the list when it is judged.
  predicate WrongWayRound(p: Plan, cs: seq<OrderRule>, k: nat)
    requires k < |cs|
  {
    var ids, c := ApplyRules(p, cs[..k]).ids, cs[k];
    c.0 in ids && c.1 in ids && IndexOf(ids, c.0) > IndexOf(ids, c.1)
  }

  predicate EdgesOnly(ops: seq<PatchOp>) { forall o :: o in ops ==> o.AddEdge? || o.RemoveEdge? }

  lemma {:induction false} RedirectEdges(ps: seq<NodeId>, to: NodeId, from: NodeId)
    ensures EdgesOnly(Redirect(ps, to, from)) && EdgesOnly(HandOver(ps, to, from))
    decreases |ps|
  {
    if ps != [] { RedirectEdges(ps[..|ps| - 1], to, from); }
  }

  lemma MoveOpsNamed(es: seq<Edge>, a: NodeId, b: NodeId, x: NodeId, y: NodeId)
    ensures MoveNode(x, y) in MoveOps(es, a, b) <==> (x, y) == (a, b)
    ensures AddPrerequisite(x, y) in MoveOps(es, a, b) <==> (x, y) == (a, b)
  {
    RedirectEdges(Preds(es, b, a), a, b);
    RedirectEdges(Succs(es, a, b), b, a);
    hide Redirect, HandOver, Preds, Succs, ArcsOf;
  }

  /** The moves logged, each with its prerequisite, are those of the rules whose nodes
      were the wrong way round when they were judged. */
  lemma {:induction false} MovesLogged(p: Plan, cs: seq<OrderRule>, a: NodeId, b: NodeId)
    ensures MoveNode(a, b) in RuleOps(p, cs) <==>
      exists k :: 0 <= k < |cs| && cs[k] == (a, b) && WrongWayRound(p, cs, k)
    ensures AddPrerequisite(a, b) in RuleOps(p, cs) <==> MoveNode(a, b) in RuleOps(p, cs)
    decreases |cs|
  {
    hide MoveOps, ApplyRules, IndexOf;
    if cs != [] {
      var n := |cs| - 1;
      var front := cs[..n];
      MovesLogged(p, front, a, b);
      MoveOpsNamed(ApplyRules(p, front).es, cs[n].0, cs[n].1, a, b);
      forall k | 0 <= k < n ensures WrongWayRound(p, front, k) <==> WrongWayRound(p, cs, k) {
        assert front[..k] == cs[..k];
      }
    }
  }

  // ---- Which faults call for which step -----------------------------------------------------------

  /** The gates are aligned for a wrong rejection, a wrong acceptance or a deadline
      mismatch, the forms and tasks for an unnecessary burden or a missing safeguard,
      and prohibitions are enforced for a breach; without any of those the proposal
      is the workflow itself with an empty log. */
  lemma StepsTaken(m: Model, g: Graph, faults: set<Kind>, name: Naming, submit: NodeId, k: nat)
    requires k < |g.nodes|
    ensures var gates := WrongRejection in faults || WrongAcceptance in faults || DeadlineMismatch in faults;
      var steps := UnnecessaryBurden in faults || MissingSafeguard in faults;
      var h := AlignedFor(m, g, faults);
      var i, j := g.nodes[k].impl, h.nodes[k].impl;
      && h.nodes[k].id == g.nodes[k].id && h.edges == g.edges
      && (i.Threshold? || i.Deadline? ==> j == if gates && i.field in TargetsOf(m)
                                               then Regated(i, TargetsOf(m)[i.field]) else i)
      && (i.Form? || i.Task? ==> j == if steps && i.action in m.obligations
                                      then Reflagged(i, FoldFor(m, i.action)) else i)
      && (!i.Threshold? && !i.Deadline? && !i.Form? && !i.Task? ==> j == i)
      && (!gates && !steps && ProhibitionBreach !in faults ==>
            ProposalFor(m, g, faults, name, submit) == Proposal(g, []))
      && (ProhibitionBreach !in faults ==> ProposalFor(m, g, faults, name, submit).patched == h)
  {
    hide TargetsOf, FoldFor;
    assert faults * GATE_FAULTS != {} <==>
      WrongRejection in faults || WrongAcceptance in faults || DeadlineMismatch in faults by {
      if f :| f in faults * GATE_FAULTS {}
      if WrongRejection in faults { assert WrongRejection in faults * GATE_FAULTS; }
      if WrongAcceptance in faults { assert WrongAcceptance in faults * GATE_FAULTS; }
      if DeadlineMismatch in faults { assert DeadlineMismatch in faults * GATE_FAULTS; }
    }
    assert faults * STEP_FAULTS != {} <==> UnnecessaryBurden in faults || MissingSafeguard in faults by {
      if f :| f in faults * STEP_FAULTS {}
      if UnnecessaryBurden in faults { assert UnnecessaryBurden in faults * STEP_FAULTS; }
      if MissingSafeguard in faults { assert MissingSafeguard in faults * STEP_FAULTS; }
    }
  }
}
