/** The patched copy of a workflow and the recorded operations
    (services/patcher/patcher.py). */
module Patcher {
  import opened Wrappers
  import opened Expr
  import opened Graphs
  import opened Kahn
  import opened Dag
  import opened Interpreter
  import opened Compiler
  import opened Differ
  import opened Rewiring
  import opened Splice
  import opened Reorder
  import opened Ordering
  import opened Repair
  import opened Enforce
  import opened Complete

  datatype PatchOp =
    | AddNode(node: Node)
    | AddEdge(src: NodeId, dst: NodeId)
    | RemoveEdge(src: NodeId, dst: NodeId)
    | ChangeCondition(id: NodeId, target: Target)
    | ChangeRequiredFlag(id: NodeId, flag: Flag)
    | AddGate(id: NodeId, cond: Cond)
    | MoveNode(id: NodeId, anchor: NodeId)
    | AddPrerequisite(before: NodeId, after: NodeId)

  // ---- The operations as a log of the edges ----------------------------------------------

  type Arcs = set<(NodeId, NodeId)>

  function ArcsOf(es: seq<Edge>): Arcs { set e | e in es :: (e.src, e.dst) }

  function InArcs(ps: seq<NodeId>, to: NodeId): (r: Arcs)
    ensures forall x :: x in r <==> x.0 in ps && x.1 == to
  {
    set p | p in ps :: (p, to)
  }

  function OutArcs(from: NodeId, ss: seq<NodeId>): (r: Arcs)
    ensures forall x :: x in r <==> x.0 == from && x.1 in ss
  {
    set s | s in ss :: (from, s)
  }

  function Replay(ops: seq<PatchOp>, arcs: Arcs): Arcs {
    if ops == [] then arcs else
      var before := Replay(ops[..|ops| - 1], arcs);
      match ops[|ops| - 1]
      case AddEdge(a, b) => before + {(a, b)}
      case RemoveEdge(a, b) => before - {(a, b)}
      case _ => before
  }

  lemma {:induction false} ReplayJoin(p: seq<PatchOp>, q: seq<PatchOp>, arcs: Arcs)
    ensures Replay(p + q, arcs) == Replay(q, Replay(p, arcs))
    decreases |q|
  {
    if q == [] {
      assert p + q == p;
    } else {
      var n := |q| - 1;
      assert (p + q)[..|p + q| - 1] == p + q[..n];
      ReplayJoin(p, q[..n], arcs);
    }
  }

  // Each predecessor is led to `to` instead of `from`.
  function Redirect(ps: seq<NodeId>, to: NodeId, from: NodeId): seq<PatchOp> {
    if ps == [] then [] else
      var p := ps[|ps| - 1];
      Redirect(ps[..|ps| - 1], to, from) + [AddEdge(p, to), RemoveEdge(p, from)]
  }

  // Each successor is reached from `to` instead of `from`.
  function HandOver(ss: seq<NodeId>, to: NodeId, from: NodeId): seq<PatchOp> {
    if ss == [] then [] else
      var s := ss[|ss| - 1];
      HandOver(ss[..|ss| - 1], to, from) + [AddEdge(to, s), RemoveEdge(from, s)]
  }

  function SpliceOps(es: seq<Edge>, newId: NodeId, tid: NodeId): seq<PatchOp> {
    Redirect(Preds(es, tid, newId), newId, tid) + [AddEdge(newId, tid)]
  }

  function MoveOps(es: seq<Edge>, a: NodeId, b: NodeId): seq<PatchOp> {
    [MoveNode(a, b), AddPrerequisite(a, b)]
    + (if (b, a) in ArcsOf(es) then [RemoveEdge(b, a)] else [])
    + Redirect(Preds(es, b, a), a, b)
    + [AddEdge(a, b)]
    + HandOver(Succs(es, a, b), b, a)
  }

  function EnforceOps(g: Graph, ls: seq<Leaf>, name: Naming, tid: NodeId): seq<PatchOp> {
    if ls == [] then [] else
      var front, n := ls[..|ls| - 1], GateNode(ls[|ls| - 1], name);
      EnforceOps(g, front, name, tid) + [AddNode(n)] + SpliceOps(Enforced(g, front, name, tid).edges, n.id, tid)
  }

  function RuleOps(p: Plan, cs: seq<OrderRule>): seq<PatchOp> {
    if cs == [] then [] else
      var q, c := ApplyRules(p, cs[..|cs| - 1]), cs[|cs| - 1];
      RuleOps(p, cs[..|cs| - 1]) + if Moves(q, c) then MoveOps(q.es, c.0, c.1) else []
  }

  lemma ReplayTwo(ops: seq<PatchOp>, arcs: Arcs, add: (NodeId, NodeId), remove: (NodeId, NodeId))
    ensures Replay(ops + [AddEdge(add.0, add.1), RemoveEdge(remove.0, remove.1)], arcs) ==
      Replay(ops, arcs) + {add} - {remove}
  {
    var two := [AddEdge(add.0, add.1), RemoveEdge(remove.0, remove.1)];
    assert (ops + two)[..|ops| + 1] == ops + two[..1];
    assert (ops + two[..1])[..|ops|] == ops;
  }

  lemma {:induction false} RedirectReplays(ps: seq<NodeId>, to: NodeId, from: NodeId, arcs: Arcs)
    requires to != from
    ensures Replay(Redirect(ps, to, from), arcs) ==
      arcs + InArcs(ps, to) - InArcs(ps, from)
    decreases |ps|
  {
    if ps != [] {
      var n := |ps| - 1;
      assert ps == ps[..n] + [ps[n]];
      RedirectReplays(ps[..n], to, from, arcs);
      ReplayTwo(Redirect(ps[..n], to, from), arcs, (ps[n], to), (ps[n], from));
    }
  }

  lemma {:induction false} HandOverReplays(ss: seq<NodeId>, to: NodeId, from: NodeId, arcs: Arcs)
    requires to != from
    ensures Replay(HandOver(ss, to, from), arcs) ==
      arcs + OutArcs(to, ss) - OutArcs(from, ss)
    decreases |ss|
  {
    if ss != [] {
      var n := |ss| - 1;
      assert ss == ss[..n] + [ss[n]];
      HandOverReplays(ss[..n], to, from, arcs);
      ReplayTwo(HandOver(ss[..n], to, from), arcs, (to, ss[n]), (from, ss[n]));
    }
  }

  lemma ReplayAdd(ops: seq<PatchOp>, arcs: Arcs, a: NodeId, b: NodeId)
    ensures Replay(ops + [AddEdge(a, b)], arcs) == Replay(ops, arcs) + {(a, b)}
  {
    assert (ops + [AddEdge(a, b)])[..|ops|] == ops;
  }

  lemma ArcsJoin(a: seq<Edge>, b: seq<Edge>)
    ensures ArcsOf(a + b) == ArcsOf(a) + ArcsOf(b)
  {
    assert forall e :: e in a + b <==> e in a || e in b;
  }

  lemma IntoArcs(ps: seq<NodeId>, to: NodeId)
    ensures ArcsOf(Into(ps, to)) == InArcs(ps, to)
  {
    forall p | p in ps ensures NextEdge(p, to) in Into(ps, to) { assert NextEdge(p, to).src == p; }
    forall x | x in InArcs(ps, to) ensures x in ArcsOf(Into(ps, to)) {
      assert x == (x.0, x.1) && NextEdge(x.0, to) in Into(ps, to);
    }
  }

  lemma OutOfArcs(from: NodeId, ss: seq<NodeId>)
    ensures ArcsOf(OutOf(from, ss)) == OutArcs(from, ss)
  {
    forall s | s in ss ensures NextEdge(from, s) in OutOf(from, ss) { assert NextEdge(from, s).dst == s; }
    forall x | x in OutArcs(from, ss) ensures x in ArcsOf(OutOf(from, ss)) {
      assert x == (x.0, x.1) && NextEdge(from, x.1) in OutOf(from, ss);
    }
  }

  lemma WithoutArcs(es: seq<Edge>, ps: seq<NodeId>, tid: NodeId)
    ensures ArcsOf(Without(es, ps, tid)) == ArcsOf(es) - InArcs(ps, tid)
  {
  }

  /** The operations recorded by a splice, replayed on the old edges, give the
      new edges: what is hashed and approved is what was done. */
  lemma SpliceOpsFaithful(es: seq<Edge>, newId: NodeId, tid: NodeId)
    requires newId != tid && forall e :: e in es ==> e.src != newId && e.dst != newId
    ensures Replay(SpliceOps(es, newId, tid), ArcsOf(es)) == ArcsOf(SplicedEdges(es, newId, tid))
  {
    var ps := Preds(es, tid, newId);
    RedirectReplays(ps, newId, tid, ArcsOf(es));
    ReplayAdd(Redirect(ps, newId, tid), ArcsOf(es), newId, tid);
    WithoutArcs(es, ps, tid);
    IntoArcs(ps, newId);
    ArcsJoin(Without(es, ps, tid), Into(ps, newId));
    ArcsJoin(Without(es, ps, tid) + Into(ps, newId), [NextEdge(newId, tid)]);
  }

  lemma OneArc(a: NodeId, b: NodeId)
    ensures ArcsOf([NextEdge(a, b)]) == {(a, b)}
  {
    assert NextEdge(a, b) in [NextEdge(a, b)];
  }

  lemma MovedArcs(es: seq<Edge>, a: NodeId, b: NodeId)
    ensures ArcsOf(MovedEdges(es, a, b)) ==
      ArcsOf(Apart(es, a, b)) + InArcs(Preds(es, b, a), a) + {(a, b)} + OutArcs(b, Succs(es, a, b))
  {
    hide ArcsOf, Apart, Into, OutOf, Preds, Succs, InArcs, OutArcs;
    var k, p, s := Apart(es, a, b), Into(Preds(es, b, a), a), OutOf(b, Succs(es, a, b));
    OneArc(a, b);
    IntoArcs(Preds(es, b, a), a);
    OutOfArcs(b, Succs(es, a, b));
    ArcsJoin(k, p);
    ArcsJoin(k + p, [NextEdge(a, b)]);
    ArcsJoin(k + p + [NextEdge(a, b)], s);
  }

  lemma ApartArcs(es: seq<Edge>, a: NodeId, b: NodeId, x: (NodeId, NodeId))
    ensures x in ArcsOf(Apart(es, a, b)) <==> x in ArcsOf(es) && x.1 != b && x.0 != a && x != (b, a)
  {
  }

  // The net effect of the redirections, arc by arc.
  lemma MoveArc(arcs: Arcs, kept: Arcs, a: NodeId, b: NodeId, ps: seq<NodeId>, ss: seq<NodeId>)
    requires a != b && a !in ps && b !in ps && a !in ss && b !in ss
    requires forall x :: x in kept <==> x in arcs && x.1 != b && x.0 != a && x != (b, a)
    requires forall x :: x in arcs && x.1 == b && x.0 != a ==> x.0 in ps
    requires forall x :: x in arcs && x.0 == a && x.1 != b ==> x.1 in ss
    ensures arcs - {(b, a)} + InArcs(ps, a) - InArcs(ps, b) + {(a, b)} + OutArcs(b, ss) - OutArcs(a, ss)
      == kept + InArcs(ps, a) + {(a, b)} + OutArcs(b, ss)
  {
  }

  lemma MoveArcs(es: seq<Edge>, a: NodeId, b: NodeId)
    requires a != b && forall e :: e in es ==> e.src != e.dst
    ensures var ps, ss := Preds(es, b, a), Succs(es, a, b);
      ArcsOf(es) - {(b, a)} + InArcs(ps, a) - InArcs(ps, b) + {(a, b)} + OutArcs(b, ss) - OutArcs(a, ss)
      == ArcsOf(MovedEdges(es, a, b))
  {
    var ps, ss := Preds(es, b, a), Succs(es, a, b);
    forall x { ApartArcs(es, a, b, x); }
    forall x | x in ArcsOf(es) ensures HasEdge(es, x.0, x.1) {}
    MoveArc(ArcsOf(es), ArcsOf(Apart(es, a, b)), a, b, ps, ss);
    MovedArcs(es, a, b);
  }

  /** The operations recorded by a move, replayed on the old edges, give the new edges. */
  lemma MoveOpsFaithful(es: seq<Edge>, a: NodeId, b: NodeId)
    requires a != b && forall e :: e in es ==> e.src != e.dst
    ensures Replay(MoveOps(es, a, b), ArcsOf(es)) == ArcsOf(MovedEdges(es, a, b))
  {
    var ps, ss := Preds(es, b, a), Succs(es, a, b);
    var arcs := ArcsOf(es);
    var head := [MoveNode(a, b), AddPrerequisite(a, b)];
    var cut := if (b, a) in arcs then [RemoveEdge(b, a)] else [];
    assert head[..1] == [MoveNode(a, b)] && head[..1][..0] == [];
    assert Replay(head[..1], arcs) == arcs;
    assert Replay(head, arcs) == arcs;
    ReplayJoin(head, cut, arcs);
    assert Replay(cut, arcs) == arcs - {(b, a)} by {
      if cut != [] { assert cut[..0] == []; }
    }
    ReplayJoin(head + cut, Redirect(ps, a, b), arcs);
    RedirectReplays(ps, a, b, arcs - {(b, a)});
    ReplayAdd(head + cut + Redirect(ps, a, b), arcs, a, b);
    var front := head + cut + Redirect(ps, a, b) + [AddEdge(a, b)];
    ReplayJoin(front, HandOver(ss, b, a), arcs);
    HandOverReplays(ss, b, a, Replay(front, arcs));
    MoveArcs(es, a, b);
  }

  ghost predicate NoLoops(es: seq<Edge>) { forall e :: e in es ==> e.src != e.dst }

  lemma MovedNoLoops(es: seq<Edge>, a: NodeId, b: NodeId)
    requires NoLoops(es) && a != b
    ensures NoLoops(MovedEdges(es, a, b))
  {
    forall e | e in MovedEdges(es, a, b) ensures e.src != e.dst { MovedEdge(es, a, b, e); }
  }

  /** So do the operations recorded by the whole loop over the ordering rules. */
  lemma {:induction false} RuleOpsFaithful(p: Plan, cs: seq<OrderRule>)
    requires NoLoops(p.es)
    ensures Replay(RuleOps(p, cs), ArcsOf(p.es)) == ArcsOf(ApplyRules(p, cs).es) && NoLoops(ApplyRules(p, cs).es)
    decreases |cs|
  {
    hide MoveOps, MovedEdges, ArcsOf, Promoted;
    if cs != [] {
      var front, c := cs[..|cs| - 1], cs[|cs| - 1];
      var q := ApplyRules(p, front);
      RuleOpsFaithful(p, front);
      if Moves(q, c) {
        MovedNoLoops(q.es, c.0, c.1);
        MoveOpsFaithful(q.es, c.0, c.1);
        ReplayJoin(RuleOps(p, front), MoveOps(q.es, c.0, c.1), ArcsOf(p.es));
      } else {
        assert RuleOps(p, front) + [] == RuleOps(p, front);
      }
    }
  }

  // ---- The patched copy --------------------------------------------------------------------

  function GateOp(ts: map<Field, Target>, n: Node): seq<PatchOp> {
    if (n.impl.Threshold? || n.impl.Deadline?) && n.impl.field in ts && AlignedGate(ts, n.impl) != n.impl
    then [ChangeCondition(n.id, ts[n.impl.field])] else []
  }

  function GateOps(ts: map<Field, Target>, ns: seq<Node>): seq<PatchOp> {
    if ns == [] then [] else GateOps(ts, ns[..|ns| - 1]) + GateOp(ts, ns[|ns| - 1])
  }

  function StepOp(m: Model, n: Node): seq<PatchOp> {
    if AlignedStep(m, n.impl) != n.impl then
      var f := FoldFor(m, n.impl.action);
      [ChangeRequiredFlag(n.id, f)] + if f.cond.Some? then [AddGate(n.id, f.cond.value)] else []
    else []
  }

  function StepOps(m: Model, ns: seq<Node>): seq<PatchOp> {
    if ns == [] then [] else StepOps(m, ns[..|ns| - 1]) + StepOp(m, ns[|ns| - 1])
  }

  // One gate: its operator and value are replaced, and logged, only if they differ.
  method AlignGate(ts: map<Field, Target>, n: Node) returns (n': Node, log: seq<PatchOp>)
    ensures n' == Node(n.id, AlignedGate(ts, n.impl)) && log == GateOp(ts, n)
  {
    n', log := n, [];
    var impl := n.impl;
    if (impl.Threshold? || impl.Deadline?) && impl.field in ts {
      var t := ts[impl.field];
      if impl.op != t.op || impl.want != t.want {
        log := [ChangeCondition(n.id, t)];
        n' := Node(n.id, if impl.Threshold? then Threshold(impl.field, t.op, t.want)
                         else Deadline(impl.field, t.op, t.want));
      }
    }
  }

  // One form or task: its requirement is replaced, and logged, only if it differs.
  method AlignStep(m: Model, n: Node) returns (n': Node, log: seq<PatchOp>)
    ensures n' == Node(n.id, AlignedStep(m, n.impl)) && log == StepOp(m, n)
  {
    n', log := n, [];
    if (n.impl.Form? || n.impl.Task?) && n.impl.action in m.obligations {
      var f := FoldFor(m, n.impl.action);
      if n.impl.required != f.required || n.impl.cond != f.cond {
        log := [ChangeRequiredFlag(n.id, f)];
        if f.cond.Some? {
          log := log + [AddGate(n.id, f.cond.value)];
        }
        n' := Node(n.id,
          if n.impl.Form? then Form(n.impl.action, f.required, f.cond)
          else Task(n.impl.action, f.required, f.cond));
      }
    }
  }

  lemma AlignedGatesSnoc(ts: map<Field, Target>, ns: seq<Node>, i: nat)
    requires i < |ns|
    ensures AlignedGates(ts, ns[..i + 1]) == AlignedGates(ts, ns[..i]) + [Node(ns[i].id, AlignedGate(ts, ns[i].impl))]
    ensures GateOps(ts, ns[..i + 1]) == GateOps(ts, ns[..i]) + GateOp(ts, ns[i])
  {
    assert ns[..i + 1][..i] == ns[..i];
  }

  lemma AlignedStepsSnoc(m: Model, ns: seq<Node>, i: nat)
    requires i < |ns|
    ensures AlignedSteps(m, ns[..i + 1]) == AlignedSteps(m, ns[..i]) + [Node(ns[i].id, AlignedStep(m, ns[i].impl))]
    ensures StepOps(m, ns[..i + 1]) == StepOps(m, ns[..i]) + StepOp(m, ns[i])
  {
    assert ns[..i + 1][..i] == ns[..i];
  }

  lemma ReplaceNext<T>(done: seq<T>, all: seq<T>, i: nat, x: T)
    requires i < |all| && |done| == i
    ensures (done + all[i..])[i] == all[i]
    ensures (done + all[i..])[i := x] == done + [x] + all[i + 1..]
  {
  }

  // The loop over the nodes of step 1.
  method AlignAllGates(ts: map<Field, Target>, before: seq<Node>) returns (ns: seq<Node>, log: seq<PatchOp>)
    ensures ns == AlignedGates(ts, before) && log == GateOps(ts, before)
  {
    ns, log := before, [];
    for i := 0 to |before|
      invariant ns == AlignedGates(ts, before[..i]) + before[i..]
      invariant log == GateOps(ts, before[..i])
    {
      AlignedGatesSnoc(ts, before, i);
      ReplaceNext(AlignedGates(ts, before[..i]), before, i, Node(before[i].id, AlignedGate(ts, before[i].impl)));
      var n, more := AlignGate(ts, ns[i]);
      ns := ns[i := n];
      log := log + more;
    }
    assert before[..|before|] == before;
  }

  // The loop over the nodes of step 2.
  method AlignAllSteps(m: Model, before: seq<Node>) returns (ns: seq<Node>, log: seq<PatchOp>)
    ensures ns == AlignedSteps(m, before) && log == StepOps(m, before)
  {
    ns, log := before, [];
    for i := 0 to |before|
      invariant ns == AlignedSteps(m, before[..i]) + before[i..]
      invariant log == StepOps(m, before[..i])
    {
      AlignedStepsSnoc(m, before, i);
      ReplaceNext(AlignedSteps(m, before[..i]), before, i, Node(before[i].id, AlignedStep(m, before[i].impl)));
      var n, more := AlignStep(m, ns[i]);
      ns := ns[i := n];
      log := log + more;
    }
    assert before[..|before|] == before;
  }

  // The loop that leads each predecessor to `to` instead of `from`.
  method RedirectTo(ps: seq<NodeId>, to: NodeId, from: NodeId, es0: seq<Edge>, ops0: seq<PatchOp>)
      returns (es: seq<Edge>, ops: seq<PatchOp>)
    ensures es == es0 + Into(ps, to) && ops == ops0 + Redirect(ps, to, from)
  {
    es, ops := es0, ops0;
    for i := 0 to |ps|
      invariant es == es0 + Into(ps[..i], to) && ops == ops0 + Redirect(ps[..i], to, from)
    {
      assert ps[..i + 1][..i] == ps[..i] && ps[..i + 1][i] == ps[i];
      assert Into(ps[..i + 1], to) == Into(ps[..i], to) + [NextEdge(ps[i], to)];
      es := es + [NextEdge(ps[i], to)];
      ops := ops + [AddEdge(ps[i], to), RemoveEdge(ps[i], from)];
    }
    assert ps[..|ps|] == ps;
  }

  // The loop that reaches each successor from `to` instead of `from`.
  method HandOverTo(ss: seq<NodeId>, to: NodeId, from: NodeId, es0: seq<Edge>, ops0: seq<PatchOp>)
      returns (es: seq<Edge>, ops: seq<PatchOp>)
    ensures es == es0 + OutOf(to, ss) && ops == ops0 + HandOver(ss, to, from)
  {
    es, ops := es0, ops0;
    for i := 0 to |ss|
      invariant es == es0 + OutOf(to, ss[..i]) && ops == ops0 + HandOver(ss[..i], to, from)
    {
      assert ss[..i + 1][..i] == ss[..i] && ss[..i + 1][i] == ss[i];
      assert OutOf(to, ss[..i + 1]) == OutOf(to, ss[..i]) + [NextEdge(to, ss[i])];
      es := es + [NextEdge(to, ss[i])];
      ops := ops + [AddEdge(to, ss[i]), RemoveEdge(from, ss[i])];
    }
    assert ss[..|ss|] == ss;
  }

  lemma NoRules(p: Plan, cs: seq<OrderRule>)
    ensures ApplyRules(p, cs[..0]) == p && RuleOps(p, cs[..0]) == []
  {
  }

  lemma RulesSnoc(p: Plan, cs: seq<OrderRule>, i: nat)
    requires i < |cs|
    ensures ApplyRules(p, cs[..i + 1]) == ApplyRule(ApplyRules(p, cs[..i]), cs[i])
    ensures RuleOps(p, cs[..i + 1]) == RuleOps(p, cs[..i]) +
      if Moves(ApplyRules(p, cs[..i]), cs[i]) then MoveOps(ApplyRules(p, cs[..i]).es, cs[i].0, cs[i].1) else []
  {
    assert cs[..i + 1][..i] == cs[..i];
  }

  lemma ToGateSnoc(ps: seq<Ban>, i: nat, gated: set<Field>)
    requires i < |ps|
    ensures ToGate(ps[..i + 1], gated) ==
      var ls := LeavesOpt(ps[i].cond);
      if |ls| == 1 && ls[0].field !in gated then ToGate(ps[..i], gated) + [ls[0]] else ToGate(ps[..i], gated)
  {
    assert ps[..i + 1][..i] == ps[..i];
    assert ToGate(ps[..i], gated) + [] == ToGate(ps[..i], gated);
  }

  lemma NoneEnforced(g: Graph, ps: seq<Ban>, gated: set<Field>, name: Naming, tid: NodeId)
    ensures Enforced(g, ToGate(ps[..0], gated), name, tid) == g
    ensures EnforceOps(g, ToGate(ps[..0], gated), name, tid) == []
  {
  }

  lemma EnforcedSnoc(g: Graph, ls: seq<Leaf>, l: Leaf, name: Naming, tid: NodeId)
    ensures Enforced(g, ls + [l], name, tid) == Spliced(Enforced(g, ls, name, tid), GateNode(l, name), tid)
    ensures EnforceOps(g, ls + [l], name, tid) == EnforceOps(g, ls, name, tid) + [AddNode(GateNode(l, name))]
      + SpliceOps(Enforced(g, ls, name, tid).edges, name(l.field), tid)
  {
    assert (ls + [l])[..|ls|] == ls;
  }

  class Draft {
    var nodes: seq<Node>
    var edges: seq<Edge>
    var ops: seq<PatchOp>

    constructor (g: Graph)
      ensures nodes == g.nodes && edges == g.edges && ops == []
    {
      nodes, edges, ops := g.nodes, g.edges, [];
    }

    function G(): Graph
      reads this
    {
      Graph(nodes, edges)
    }

    // Step 1: gates take the operator and value of the model's target for their field.
    method AlignGates(m: Model)
      modifies this
      ensures nodes == AlignedGates(TargetsOf(m), old(nodes)) && edges == old(edges)
      ensures ops == old(ops) + GateOps(TargetsOf(m), old(nodes))
    {
      var ts := CollectTargets(m);
      var log;
      nodes, log := AlignAllGates(ts, nodes);
      ops := ops + log;
    }

    // Step 2: each form and task takes the folded requirement of its obligation.
    method AlignSteps(m: Model)
      modifies this
      ensures nodes == AlignedSteps(m, old(nodes)) && edges == old(edges)
      ensures ops == old(ops) + StepOps(m, old(nodes))
    {
      var log;
      nodes, log := AlignAllSteps(m, nodes);
      ops := ops + log;
    }

    // Predecessors of the target lead to the new node, which leads to the target.
    method SpliceBefore(newId: NodeId, tid: NodeId)
      modifies this
      ensures nodes == old(nodes) && edges == SplicedEdges(old(edges), newId, tid)
      ensures ops == old(ops) + SpliceOps(old(edges), newId, tid)
    {
      var preds := Preds(edges, tid, newId);
      edges := Without(edges, preds, tid);
      edges, ops := RedirectTo(preds, newId, tid, edges, ops);
      edges := edges + [NextEdge(newId, tid)];
      ops := ops + [AddEdge(newId, tid)];
    }

    // A new node is added and put in front of the target.
    method InsertBefore(n: Node, tid: NodeId)
      modifies this
      ensures G() == Spliced(old(G()), n, tid)
      ensures ops == old(ops) + [AddNode(n)] + SpliceOps(old(edges), n.id, tid)
      ensures CanSplice(old(G()), n, tid) ==> (ValidDag(G()) <==> NoDup(Preds(old(edges), tid, n.id)))
    {
      ops := ops + [AddNode(n)];
      nodes := nodes + [n];
      SpliceBefore(n.id, tid);
      if CanSplice(old(G()), n, tid) {
        SpliceValid(old(G()), n, tid);
      }
    }

    // Step 5: a gate before the target for each prohibition of a single comparison
    // on a field that had no gate when the step began.
    method EnforceBans(bans: seq<Ban>, name: Naming, tid: NodeId)
      modifies this
      ensures G() == Enforced(old(G()), ToGate(bans, GatedFields(old(nodes))), name, tid)
      ensures ops == old(ops) + EnforceOps(old(G()), ToGate(bans, GatedFields(old(nodes))), name, tid)
    {
      hide SpliceOps, Spliced, Enforced, EnforceOps, ToGate, CanSplice, ValidDag, NoDup;
      ghost var g, log := G(), ops;
      var gated := GatedFields(nodes);
      NoneEnforced(g, bans, gated, name, tid);
      for i := 0 to |bans|
        invariant G() == Enforced(g, ToGate(bans[..i], gated), name, tid)
        invariant ops == log + EnforceOps(g, ToGate(bans[..i], gated), name, tid)
      {
        ToGateSnoc(bans, i, gated);
        var leaves := LeavesOpt(bans[i].cond);
        if |leaves| == 1 && leaves[0].field !in gated {
          EnforcedSnoc(g, ToGate(bans[..i], gated), leaves[0], name, tid);
          InsertBefore(GateNode(leaves[0], name), tid);
        }
      }
      assert bans[..|bans|] == bans;
    }

    // Step 3: physically move a prerequisite in front of its target.
    method MoveBefore(a: NodeId, b: NodeId)
      requires a != b
      modifies this
      ensures G() == Moved(old(G()), a, b)
      ensures ops == old(ops) + MoveOps(old(edges), a, b)
    {
      var log := [MoveNode(a, b), AddPrerequisite(a, b)];
      var preds, succs := Preds(edges, b, a), Succs(edges, a, b);
      log := log + if (b, a) in ArcsOf(edges) then [RemoveEdge(b, a)] else [];
      var moved := Apart(edges, a, b);
      moved, log := RedirectTo(preds, a, b, moved, log);
      moved := moved + [NextEdge(a, b)];
      log := log + [AddEdge(a, b)];
      moved, log := HandOverTo(succs, b, a, moved, log);
      edges := moved;
      ops := ops + log;
    }

    // The loop of step 3 over rules whose two nodes exist: each is judged by the list
    // sorted before the first move.
    method ReorderAll(rules: seq<OrderRule>, order: seq<NodeId>)
      modifies this
      ensures nodes == old(nodes) && edges == ApplyRules(Plan(old(edges), order), rules).es
      ensures ops == old(ops) + RuleOps(Plan(old(edges), order), rules)
    {
      hide ApplyRules, RuleOps, MovedEdges, MoveOps, Promoted;
      ghost var p, log := Plan(edges, order), ops;
      var ids := order;
      NoRules(p, rules);
      for i := 0 to |rules|
        invariant nodes == old(nodes) && Plan(edges, ids) == ApplyRules(p, rules[..i])
        invariant ops == log + RuleOps(p, rules[..i])
      {
        RulesSnoc(p, rules, i);
        var c := rules[i];
        if c.0 in ids && c.1 in ids && IndexOf(ids, c.0) > IndexOf(ids, c.1) {
          MoveBefore(c.0, c.1);
          ids := Promoted(ids, c.0, c.1);
        }
      }
      assert rules[..|rules|] == rules;
    }
  }

  // The dictionary of step 1, filled rule by rule.
  method CollectTargets(m: Model) returns (ts: map<Field, Target>)
    ensures ts == TargetsOf(m)
  {
    ts := map[];
    for i := 0 to |m.eligibility|
      invariant ts == EligibilityTargets(m.eligibility[..i])
    {
      assert m.eligibility[..i + 1][..i] == m.eligibility[..i];
      var c := m.eligibility[i];
      if c.cond.Cmp? {
        ts := ts[c.cond.field := Target(c.cond.op, c.cond.want, c.rule)];
      }
    }
    assert m.eligibility[..|m.eligibility|] == m.eligibility;
    ghost var first := ts;
    for i := 0 to |m.deadlines|
      invariant ts == DeadlineTargets(first, m.deadlines[..i])
    {
      assert m.deadlines[..i + 1][..i] == m.deadlines[..i];
      var d := m.deadlines[i];
      ts := ts[d.field := Target(d.op, d.want, d.rule)];
    }
    assert m.deadlines[..|m.deadlines|] == m.deadlines;
  }

  // The copy after steps 1 and 2, each taken only for the faults it answers.
  function AlignedFor(m: Model, g: Graph, faults: set<Kind>): Graph {
    var ns := if faults * GATE_FAULTS != {} then AlignedGates(TargetsOf(m), g.nodes) else g.nodes;
    Graph(if faults * STEP_FAULTS != {} then AlignedSteps(m, ns) else ns, g.edges)
  }

  const GATE_FAULTS: set<Kind> := {WrongRejection, WrongAcceptance, DeadlineMismatch}
  const STEP_FAULTS: set<Kind> := {UnnecessaryBurden, MissingSafeguard}

  // A threshold gate against a list.
  predicate HasListGate(ns: seq<Node>) { exists n :: n in ns && n.impl.Threshold? && n.impl.want.Many? }

  datatype Failure = ListValuedGate

  datatype Proposal = Proposal(patched: Graph, ops: seq<PatchOp>)

  function ProposalFor(m: Model, g: Graph, faults: set<Kind>, name: Naming, submit: NodeId): Proposal {
    var h := AlignedFor(m, g, faults);
    var bans := ToGate(m.prohibitions, GatedFields(h.nodes));
    var gated := if faults * GATE_FAULTS != {} then AlignedGates(TargetsOf(m), g.nodes) else g.nodes;
    Proposal(if ProhibitionBreach in faults then Enforced(h, bans, name, submit) else h,
             (if faults * GATE_FAULTS != {} then GateOps(TargetsOf(m), g.nodes) else [])
             + (if faults * STEP_FAULTS != {} then StepOps(m, gated) else [])
             + (if ProhibitionBreach in faults then EnforceOps(h, bans, name, submit) else []))
  }

  // What a proposal needs to answer everything it can: a fault for each step there is
  // work for, and the conditions of those steps.
  ghost predicate Settles(m: Model, g: Graph, faults: set<Kind>, name: Naming, submit: NodeId) {
    && faults * GATE_FAULTS != {} && faults * STEP_FAULTS != {}
    && PlainGraph(g) && Matches(m, g) && Foldable(m)
    && if ProhibitionBreach in faults then
         CanFinish(m, g, name, submit) && Enforceable(m.prohibitions, GatedFields(Repaired(m, g).nodes))
       else m.prohibitions == []
  }

  // All that such a proposal leaves to disagree on, beside the ordering rules: what lies
  // behind the gate that stops a late case.
  ghost predicate NothingElse(m: Model, g: Graph, x: Case, submit: NodeId)
    requires ValidDag(g)
  {
    StopsTell(m, g, x)
    && (Eligible(m, x) && !OnTime(m, x) && Violated(m.prohibitions, x) != [] ==> Exposed(m, g, x, submit))
  }

  /** On every case such a proposal agrees with the policy exactly when the ordering
      rules are kept and a late case finds nothing behind the gate that stops it. */
  lemma ProposalAgrees(m: Model, g: Graph, faults: set<Kind>, name: Naming, submit: NodeId,
      x: Case, cs: seq<Constraint>)
    requires Settles(m, g, faults, name, submit)
    requires Resolved(ProposalFor(m, g, faults, name, submit).patched, cs)
    ensures var h := ProposalFor(m, g, faults, name, submit).patched;
      Classify(EvaluateExpected(m, x), OutcomeOf(h, x, cs)) == None <==>
      OutcomeOf(h, x, cs).orderOk && NothingElse(m, g, x, submit)
  {
    hide OutcomeOf, Classify, EvaluateExpected, Foldable, StopsTell, Exposed;
    if ProhibitionBreach in faults {
      AllStepsComplete(m, g, name, submit, x, cs);
    } else {
      RepairComplete(m, g, x, cs);
    }
  }

  // Without obligations step 2 changes nothing.
  lemma BareAligns(m: Model, g: Graph)
    ensures Repaired(m.(obligations := map[]), g) == Graph(AlignedGates(TargetsOf(m), g.nodes), g.edges)
  {
    var bare := m.(obligations := map[]);
    var ns := AlignedGates(TargetsOf(m), g.nodes);
    assert TargetsOf(bare) == TargetsOf(m);
    forall n: Node ensures AlignedStep(bare, n.impl) == n.impl {}
    assert AlignedSteps(bare, ns) == ns;
  }

  // Obligations have no part in the gates.
  lemma BareSame(m: Model, bare: Model, g: Graph, x: Case)
    requires bare == m.(obligations := map[]) && ValidDag(g)
    ensures GatesMatch(bare, g) <==> GatesMatch(m, g)
    ensures HitsBound(bare, g, x) <==> HitsBound(m, g, x)
    ensures HitsDeadline(bare, g, x) <==> HitsDeadline(m, g, x)
  {
    forall id ensures Exposed(bare, g, x, id) <==> Exposed(m, g, x, id) {
      forall p ensures OpenWay(bare, g, x, p) <==> OpenWay(m, g, x, p) {}
    }
    assert BoundFields(bare) == BoundFields(m) && DueFields(bare) == DueFields(m);
    hide Exposed, TargetsOf, TargetHolds;
  }

  // A fault that step 1 answers.
  predicate AsksForGates(faults: set<Kind>) {
    WrongRejection in faults || WrongAcceptance in faults || DeadlineMismatch in faults
  }

  // The verdicts of the copy after steps 1 and 2, whichever faults call for step 2.
  lemma AlignedVerdicts(m: Model, g: Graph, faults: set<Kind>, x: Case)
    requires AsksForGates(faults) && PlainGraph(g) && GatesMatch(m, g)
    ensures var h := AlignedFor(m, g, faults);
      && ValidDag(h)
      && (RunOf(h, x).eligible <==> !HitsBound(m, g, x)) && (RunOf(h, x).onTime <==> !HitsDeadline(m, g, x))
  {
    var k :| k in faults && k in {WrongRejection, WrongAcceptance, DeadlineMismatch};
    assert k in faults * GATE_FAULTS;
    var bare := m.(obligations := map[]);
    if faults * STEP_FAULTS == {} {
      BareAligns(m, g);
      BareSame(m, bare, g, x);
    }
    hide PlainGraph, GatesMatch, HitsBound, HitsDeadline, RunOf, ValidDag;
    RepairedVerdicts(if faults * STEP_FAULTS == {} then bare else m, g, x);
  }

  // The gates of step 5, if called for, can be put in.
  ghost predicate CanEnforce(m: Model, g: Graph, faults: set<Kind>, name: Naming, submit: NodeId) {
    var h := AlignedFor(m, g, faults);
    ProhibitionBreach in faults ==>
      Submits(h, submit) && FreshNames(h, ToGate(m.prohibitions, GatedFields(h.nodes)), name)
  }

  lemma ProposalVerdicts(m: Model, g: Graph, faults: set<Kind>, name: Naming, submit: NodeId, x: Case)
    requires AsksForGates(faults) && PlainGraph(g) && GatesMatch(m, g) && CanEnforce(m, g, faults, name, submit)
    ensures var h := ProposalFor(m, g, faults, name, submit).patched;
      && ValidDag(h)
      && (RunOf(h, x).eligible <==> !HitsBound(m, g, x)) && (RunOf(h, x).onTime <==> !HitsDeadline(m, g, x))
  {
    AlignedVerdicts(m, g, faults, x);
    hide PlainGraph, GatesMatch, HitsBound, HitsDeadline, RunOf, ValidDag, AlignedFor, ToGate, Enforced;
    var h := AlignedFor(m, g, faults);
    if ProhibitionBreach in faults {
      EnforceBlocksExactly(h, ToGate(m.prohibitions, GatedFields(h.nodes)), name, submit, x);
    }
  }

  /** What a proposal for a deadline mismatch leaves of it, whatever the other
      faults: the cases that are neither eligible nor on time and are stopped by a
      bound before they get to a deadline, and no others. */
  lemma MismatchSettled(m: Model, g: Graph, faults: set<Kind>, name: Naming, submit: NodeId,
      x: Case, cs: seq<Constraint>)
    requires DeadlineMismatch in faults && PlainGraph(g) && GatesMatch(m, g) && CanEnforce(m, g, faults, name, submit)
    requires OnePerField(m) && Resolved(ProposalFor(m, g, faults, name, submit).patched, cs)
    ensures var h := ProposalFor(m, g, faults, name, submit).patched;
      var what := Classify(EvaluateExpected(m, x), OutcomeOf(h, x, cs));
      what == Some(Disagreement(DeadlineMismatch, OnTimeKey)) <==>
      !Eligible(m, x) && !OnTime(m, x) && HitsBound(m, g, x) && !HitsDeadline(m, g, x)
  {
    var h := ProposalFor(m, g, faults, name, submit).patched;
    ProposalVerdicts(m, g, faults, name, submit, x);
    OutcomeRuns(h, x, cs);
    MismatchMeans(m, g, x, OutcomeOf(h, x, cs));
  }

  // On every case, for any ordering rules.
  ghost predicate SettledBy(m: Model, g: Graph, h: Graph, submit: NodeId)
    requires ValidDag(g)
  {
    forall x, cs :: Resolved(h, cs) ==>
      (Classify(EvaluateExpected(m, x), OutcomeOf(h, x, cs)) == None <==>
       OutcomeOf(h, x, cs).orderOk && NothingElse(m, g, x, submit))
  }

  lemma ProposalSettles(m: Model, g: Graph, faults: set<Kind>, name: Naming, submit: NodeId)
    requires Settles(m, g, faults, name, submit)
    ensures ValidDag(g) && SettledBy(m, g, ProposalFor(m, g, faults, name, submit).patched, submit)
  {
    hide OutcomeOf, Classify, EvaluateExpected, NothingElse, ProposalFor, Resolved;
    forall x, cs | Resolved(ProposalFor(m, g, faults, name, submit).patched, cs)
      ensures var h := ProposalFor(m, g, faults, name, submit).patched;
        Classify(EvaluateExpected(m, x), OutcomeOf(h, x, cs)) == None <==>
        OutcomeOf(h, x, cs).orderOk && NothingElse(m, g, x, submit)
    {
      ProposalAgrees(m, g, faults, name, submit, x, cs);
    }
  }

  /** Steps 1, 2 and 5 on a copy of the workflow; `submit` is the resolved submit
      node. Collecting the gates for step 4b fails when one compares with a list. */
  method Propose(m: Model, g: Graph, faults: set<Kind>, name: Naming, submit: NodeId)
      returns (r: Result<Proposal, Failure>)
    ensures r.Err? <==>
      WrongAcceptance in faults
      && exists n :: n in AlignedFor(m, g, faults).nodes && n.impl.Threshold? && n.impl.want.Many?
    ensures r.Ok? ==> r.value == ProposalFor(m, g, faults, name, submit)
    ensures r.Ok? && Settles(m, g, faults, name, submit) ==>
      ValidDag(g) && SettledBy(m, g, r.value.patched, submit)
  {
    hide Enforced, EnforceOps, ToGate, GateOps, StepOps, TargetsOf, GatedFields;
    hide Settles, SettledBy, ValidDag;
    var d := new Draft(g);
    if faults * GATE_FAULTS != {} {
      d.AlignGates(m);
    }
    if faults * STEP_FAULTS != {} {
      d.AlignSteps(m);
    }
    assert d.G() == AlignedFor(m, g, faults);
    if WrongAcceptance in faults && HasListGate(d.nodes) {
      return Err(ListValuedGate);
    }
    if ProhibitionBreach in faults {
      d.EnforceBans(m.prohibitions, name, submit);
    }
    r := Ok(Proposal(d.G(), d.ops));
    if Settles(m, g, faults, name, submit) {
      ProposalSettles(m, g, faults, name, submit);
    }
  }
}
