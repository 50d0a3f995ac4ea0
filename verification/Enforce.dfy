/** Turning prohibitions into gates before the submit node
    (services/patcher/patcher.py, lines 296-324). */
module Enforce {
  import opened Wrappers
  import opened Expr
  import opened Graphs
  import opened Dag
  import opened Interpreter
  import opened Compiler
  import opened Rewiring
  import opened Splice

  // The id of a field's gate; the source derives it from the field's name.
  type Naming = Field -> NodeId

  function LeafCond(l: Leaf): Cond { Cmp(l.field, l.op, l.want) }

  function GateNode(l: Leaf, name: Naming): Node { Node(name(l.field), Prohibition(l.field, l.op, l.want)) }

  function GatedFields(ns: seq<Node>): set<Field> { set n | n in ns && n.impl.Prohibition? :: n.impl.field }

  // Bans made of a single comparison get a gate, unless their field had one before.
  function ToGate(ps: seq<Ban>, gated: set<Field>): (r: seq<Leaf>)
    ensures forall l :: l in r <==> l.field !in gated && exists p :: p in ps && LeavesOpt(p.cond) == [l]
  {
    if ps == [] then [] else
      var last, front := ps[|ps| - 1], ps[..|ps| - 1];
      assert ps == front + [last];
      var ls := LeavesOpt(last.cond);
      ToGate(front, gated) + if |ls| == 1 && ls[0].field !in gated then [ls[0]] else []
  }

  /** A prohibition of a single comparison gets a gate exactly when no prohibition
      gate is on its field yet. */
  lemma GatedOnce(ps: seq<Ban>, ns: seq<Node>, l: Leaf)
    ensures l in ToGate(ps, GatedFields(ns)) <==>
      && (exists p :: p in ps && LeavesOpt(p.cond) == [l])
      && forall n :: n in ns && n.impl.Prohibition? ==> n.impl.field != l.field
  {
  }

  predicate Gateable(p: Ban, gated: set<Field>) {
    |LeavesOpt(p.cond)| == 1 && LeavesOpt(p.cond)[0].field !in gated
  }

  function OnlyLeaf(p: Ban, gated: set<Field>): (l: Leaf)
    requires Gateable(p, gated)
    ensures LeavesOpt(p.cond) == [l]
  {
    LeavesOpt(p.cond)[0]
  }

  lemma GatesGrow(ps: seq<Ban>, gated: set<Field>)
    ensures ps == [] ==> ToGate(ps, gated) == []
    ensures ps != [] ==>
      var front, last := ps[..|ps| - 1], ps[|ps| - 1];
      ToGate(ps, gated) == ToGate(front, gated) + if Gateable(last, gated) then [OnlyLeaf(last, gated)] else []
  {
  }

  /** The gates come in the order of the prohibitions, one for each that has a single
      comparison on a field without a gate: `at` gives its place in the list. */
  lemma {:induction false} GatesInOrder(ps: seq<Ban>, gated: set<Field>) returns (at: seq<nat>)
    ensures |at| == |ToGate(ps, gated)|
    ensures forall k :: 0 <= k < |at| ==>
      at[k] < |ps| && Gateable(ps[at[k]], gated) && LeavesOpt(ps[at[k]].cond) == [ToGate(ps, gated)[k]]
    ensures forall j, k :: 0 <= j < k < |at| ==> at[j] < at[k]
    ensures forall i :: 0 <= i < |ps| && Gateable(ps[i], gated) ==> i in at
    decreases |ps|
  {
    hide ToGate, LeavesOpt, Gateable;
    at := [];
    GatesGrow(ps, gated);
    if ps != [] {
      var n := |ps| - 1;
      at := GatesInOrder(ps[..n], gated);
      if Gateable(ps[n], gated) {
        at := at + [n];
      }
    }
  }

  function Enforced(g: Graph, ls: seq<Leaf>, name: Naming, tid: NodeId): Graph {
    if ls == [] then g
    else Spliced(Enforced(g, ls[..|ls| - 1], name, tid), GateNode(ls[|ls| - 1], name), tid)
  }

  // ---- What the gates do to a run ---------------------------------------------------------

  ghost predicate PlainInto(es: seq<Edge>, tid: NodeId) { forall e :: e in es && e.dst == tid ==> e.cond == None }

  // A valid graph with unconditional edges into its submit node.
  ghost predicate Submits(g: Graph, tid: NodeId) {
    ValidDag(g) && tid in Ids(g.nodes) && ImplOf(g.nodes, tid).Submit? && PlainInto(g.edges, tid)
  }

  ghost predicate FreshNames(g: Graph, ls: seq<Leaf>, name: Naming) {
    && (forall l :: l in ls ==> name(l.field) !in Ids(g.nodes))
    && forall i, j :: 0 <= i < j < |ls| ==> name(ls[i].field) != name(ls[j].field)
  }

  lemma {:induction false} PlainPreds(es: seq<Edge>, tid: NodeId, n: NodeId)
    requires NoDuplicates(es) && PlainInto(es, tid)
    ensures NoDup(Preds(es, tid, n))
    decreases |es|
  {
    if es != [] {
      var front, last := es[..|es| - 1], es[|es| - 1];
      assert es == front + [last] && last in es;
      NoDuplicatesJoin(front, [last]);
      PlainPreds(front, tid, n);
      forall e | e in front && e.dst == tid && last.dst == tid ensures e.src != last.src {
        assert e in es && last in [last] && !SameKey(e, last);
      }
      assert last.dst == tid ==> !HasEdge(front, last.src, tid);
      assert last.dst == tid ==> last.src !in Preds(front, tid, n);
    }
  }

  // One gate: the graph stays as it has to be for the next.
  lemma GateKeepsSubmits(g: Graph, n: Node, tid: NodeId)
    requires Submits(g, tid) && n.id !in Ids(g.nodes)
    ensures Submits(Spliced(g, n, tid), tid) && Ids(Spliced(g, n, tid).nodes) == Ids(g.nodes) + {n.id}
  {
    PlainPreds(g.edges, tid, n.id);
    hide SplicedEdges, ValidDag;
    SpliceValid(g, n, tid);
    IdsAppend(g.nodes, n);
    ImplOfAppend(g.nodes, n, tid);
    forall e | e in Spliced(g, n, tid).edges && e.dst == tid ensures e.cond == None {
      SplicedEdge(g, n, tid, e);
    }
  }

  predicate AnyHolds(ls: seq<Leaf>, x: Case) { exists l :: l in ls && Eval(LeafCond(l), x) }

  // The verdicts of a run through gates for ls, against the run without them.
  ghost predicate BlocksOn(r: Run, q: Run, tid: NodeId, forbidden: bool) {
    && q.eligible == r.eligible && q.onTime == r.onTime
    && (q.prohibited <==> r.prohibited || (forbidden && tid in r.visited))
    && (tid in q.visited <==> tid in r.visited && !forbidden)
  }

  lemma OneGateBlocks(g: Graph, l: Leaf, name: Naming, tid: NodeId, x: Case)
    requires Submits(g, tid) && name(l.field) !in Ids(g.nodes)
    ensures BlocksOn(RunOf(g, x), RunOf(Spliced(g, GateNode(l, name), tid), x), tid, Eval(LeafCond(l), x))
  {
    hide RunOf, SplicedEdges;
    GateKeepsSubmits(g, GateNode(l, name), tid);
    UnconditionalNeverCutOff(g, x, tid);
    SplicedProhibitionBlocks(g, GateNode(l, name), tid, x);
  }

  lemma BlocksTwice(r: Run, s: Run, q: Run, tid: NodeId, first: bool, second: bool)
    requires BlocksOn(r, s, tid, first) && BlocksOn(s, q, tid, second)
    ensures BlocksOn(r, q, tid, first || second)
  {
  }

  lemma AnyHoldsSnoc(ls: seq<Leaf>, x: Case)
    requires ls != []
    ensures AnyHolds(ls, x) <==> AnyHolds(ls[..|ls| - 1], x) || Eval(LeafCond(ls[|ls| - 1]), x)
  {
    assert ls == ls[..|ls| - 1] + [ls[|ls| - 1]];
    assert ls[|ls| - 1] in ls;
  }

  // The names still to come are fresh for the graph so far.
  lemma {:induction false} EnforcedSubmits(g: Graph, ls: seq<Leaf>, name: Naming, tid: NodeId)
    requires Submits(g, tid) && FreshNames(g, ls, name)
    ensures Submits(Enforced(g, ls, name, tid), tid)
    ensures Ids(Enforced(g, ls, name, tid).nodes) == Ids(g.nodes) + set l | l in ls :: name(l.field)
    decreases |ls|
  {
    hide Submits, Spliced;
    if ls != [] {
      var front, last := ls[..|ls| - 1], ls[|ls| - 1];
      assert ls == front + [last];
      EnforcedSubmits(g, front, name, tid);
      LastNameFresh(g, ls, name);
      GateKeepsSubmits(Enforced(g, front, name, tid), GateNode(last, name), tid);
    }
  }

  lemma LastNameFresh(g: Graph, ls: seq<Leaf>, name: Naming)
    requires ls != [] && FreshNames(g, ls, name)
    ensures FreshNames(g, ls[..|ls| - 1], name)
    ensures name(ls[|ls| - 1].field) !in Ids(g.nodes) + set l | l in ls[..|ls| - 1] :: name(l.field)
  {
    assert ls[|ls| - 1] in ls;
  }

  /** The gates leave a valid graph on which a case is blocked exactly when one
      of the gated comparisons holds of it and it would have reached the submit
      node; eligibility and deadlines are untouched. */
  lemma {:induction false} EnforceBlocksExactly(g: Graph, ls: seq<Leaf>, name: Naming, tid: NodeId, x: Case)
    requires Submits(g, tid) && FreshNames(g, ls, name)
    ensures ValidDag(Enforced(g, ls, name, tid))
    ensures BlocksOn(RunOf(g, x), RunOf(Enforced(g, ls, name, tid), x), tid, AnyHolds(ls, x))
    decreases |ls|
  {
    hide RunOf, Spliced;
    EnforcedSubmits(g, ls, name, tid);
    if ls != [] {
      var front, last := ls[..|ls| - 1], ls[|ls| - 1];
      var h := Enforced(g, front, name, tid);
      LastNameFresh(g, ls, name);
      EnforcedSubmits(g, front, name, tid);
      EnforceBlocksExactly(g, front, name, tid, x);
      OneGateBlocks(h, last, name, tid, x);
      BlocksTwice(RunOf(g, x), RunOf(h, x), RunOf(Enforced(g, ls, name, tid), x),
        tid, AnyHolds(front, x), Eval(LeafCond(last), x));
      AnyHoldsSnoc(ls, x);
    }
  }

  // ---- Exactly when a pass of splices leaves a valid graph ------------------------------------

  function AllSpliced(g: Graph, ns: seq<Node>, tid: NodeId): Graph {
    if ns == [] then g else Spliced(AllSpliced(g, ns[..|ns| - 1], tid), ns[|ns| - 1], tid)
  }

  ghost predicate ApartIds(ns: seq<Node>) { forall i, j :: 0 <= i < j < |ns| ==> ns[i].id != ns[j].id }

  ghost predicate FreshIds(g: Graph, ns: seq<Node>) { forall n :: n in ns ==> n.id !in Ids(g.nodes) }

  lemma AllSplicedIds(g: Graph, ns: seq<Node>, tid: NodeId)
    ensures Ids(AllSpliced(g, ns, tid).nodes) == Ids(g.nodes) + Ids(ns)
  {
    if ns != [] {
      var front, last := ns[..|ns| - 1], ns[|ns| - 1];
      assert ns == front + [last];
      AllSplicedIds(g, front, tid);
      IdsAppend(front, last);
      IdsAppend(AllSpliced(g, front, tid).nodes, last);
    }
  }

  // Distinct fresh ids keep everything the next splice needs.
  lemma {:induction false} ApartStaysValid(g: Graph, ns: seq<Node>, tid: NodeId)
    requires Submits(g, tid) && FreshIds(g, ns) && ApartIds(ns)
    ensures Submits(AllSpliced(g, ns, tid), tid)
    decreases |ns|
  {
    hide Submits, Spliced;
    if ns != [] {
      var front, last := ns[..|ns| - 1], ns[|ns| - 1];
      assert ns == front + [last];
      ApartStaysValid(g, front, tid);
      AllSplicedIds(g, front, tid);
      assert last.id !in Ids(front);
      GateKeepsSubmits(AllSpliced(g, front, tid), last, tid);
    }
  }

  ghost predicate Sound(es: seq<Edge>) { NoDuplicates(es) && Acyclic(es) }

  // A repeated edge survives a splice.
  lemma {:induction false} DuplicatesSurvive(es: seq<Edge>, ps: seq<NodeId>, id: NodeId, tid: NodeId)
    requires NoDuplicates(Without(es, ps, tid)) && NoDup(Preds(es, tid, id)) && id !in ps
    ensures NoDuplicates(es)
    decreases |es|
  {
    if es != [] {
      var front, last := es[..|es| - 1], es[|es| - 1];
      assert es == front + [last];
      var rest := Without(front, ps, tid);
      NoDuplicatesJoin(rest, [last]);
      var before := Preds(front, tid, id);
      PrefixNoDup(before, last.src);
      assert Preds(es, tid, id) == before + if last.dst == tid && last.src != id then [last.src] else [];
      assert before + [] == before;
      DuplicatesSurvive(front, ps, id, tid);
      if last.src in ps && last.dst == tid {
        assert last.src !in before;
        assert !HasEdge(front, last.src, tid);
      } else {
        assert last in [last];
        assert forall e :: e in front && SameKey(e, last) ==> e in rest;
      }
      NoDuplicatesJoin(front, [last]);
    }
  }

  lemma PrefixNoDup(s: seq<NodeId>, x: NodeId)
    ensures NoDup(s + [x]) ==> NoDup(s) && x !in s
  {
    if NoDup(s + [x]) {
      forall i, j | 0 <= i < j < |s| ensures s[i] != s[j] { assert (s + [x])[i] != (s + [x])[j]; }
      forall i | 0 <= i < |s| ensures s[i] != x { assert (s + [x])[i] != (s + [x])[|s|]; }
    }
  }

  lemma NoDuplicatesBefore(es: seq<Edge>, id: NodeId, tid: NodeId)
    requires NoDuplicates(SplicedEdges(es, id, tid))
    ensures NoDuplicates(es)
  {
    var ps := Preds(es, tid, id);
    NoDuplicatesJoin(Without(es, ps, tid) + Into(ps, id), [NextEdge(id, tid)]);
    NoDuplicatesJoin(Without(es, ps, tid), Into(ps, id));
    IntoNoDuplicates(ps, id);
    DuplicatesSurvive(es, ps, id, tid);
  }

  // A rank of the spliced edges ranks the old ones: each replaced edge is a detour.
  lemma RankBefore(es: seq<Edge>, id: NodeId, tid: NodeId, r: map<NodeId, int>)
    requires id != tid && Ranked(SplicedEdges(es, id, tid), r)
    ensures Ranked(es, r)
  {
    SplicedArc(es, id, tid, NextEdge(id, tid));
    forall e | e in es ensures e.src in r && e.dst in r && r[e.src] < r[e.dst] {
      SplicedArc(es, id, tid, e);
      if e.dst == tid && e.src != id {
        assert HasEdge(es, e.src, tid);
        SplicedArc(es, id, tid, NextEdge(e.src, id));
      }
    }
  }

  // The target is entered from the last node spliced in and from nowhere else.
  lemma OnlyFromLast(es: seq<Edge>, id: NodeId, tid: NodeId)
    requires id != tid
    ensures NextEdge(id, tid) in SplicedEdges(es, id, tid)
    ensures forall e :: e in SplicedEdges(es, id, tid) && e.dst == tid ==> e.src == id
  {
    SplicedArc(es, id, tid, NextEdge(id, tid));
    forall e | e in SplicedEdges(es, id, tid) && e.dst == tid ensures e.src == id {
      SplicedArc(es, id, tid, e);
    }
  }

  // Every node spliced in ranks at most as high as the last.
  lemma {:induction false} ChainRanks(g: Graph, ns: seq<Node>, tid: NodeId, r: map<NodeId, int>, n: Node)
    requires (forall m :: m in ns ==> m.id != tid) && n in ns && Ranked(AllSpliced(g, ns, tid).edges, r)
    ensures n.id in r && ns[|ns| - 1].id in r && r[n.id] <= r[ns[|ns| - 1].id]
    decreases |ns|
  {
    var front, last := ns[..|ns| - 1], ns[|ns| - 1];
    assert ns == front + [last];
    var es := AllSpliced(g, front, tid).edges;
    OnlyFromLast(es, last.id, tid);
    if n in front {
      RankBefore(es, last.id, tid, r);
      ChainRanks(g, front, tid, r, n);
      LastEnters(g, front, tid);
      var m := front[|front| - 1];
      if m.id != last.id {
        SplicedArc(es, last.id, tid, NextEdge(m.id, last.id));
      }
    }
  }

  lemma LastEnters(g: Graph, ns: seq<Node>, tid: NodeId)
    requires ns != [] && forall m :: m in ns ==> m.id != tid
    ensures var es, last := AllSpliced(g, ns, tid).edges, ns[|ns| - 1].id;
      && NextEdge(last, tid) in es && HasEdge(es, last, tid)
      && forall e :: e in es && e.dst == tid ==> e.src == last
  {
    OnlyFromLast(AllSpliced(g, ns[..|ns| - 1], tid).edges, ns[|ns| - 1].id, tid);
  }

  lemma {:induction false} AllSplicedInside(g: Graph, ns: seq<Node>, tid: NodeId)
    requires NoDangling(g) && tid in Ids(g.nodes) && forall m :: m in ns ==> m.id != tid
    ensures NoDangling(AllSpliced(g, ns, tid))
    decreases |ns|
  {
    if ns != [] {
      var front, last := ns[..|ns| - 1], ns[|ns| - 1];
      var h := AllSpliced(g, front, tid);
      AllSplicedInside(g, front, tid);
      AllSplicedIds(g, front, tid);
      IdsAppend(h.nodes, last);
      forall e | e in SplicedEdges(h.edges, last.id, tid)
        ensures e.src in Ids(h.nodes) + {last.id} && e.dst in Ids(h.nodes) + {last.id}
      {
        SplicedArc(h.edges, last.id, tid, e);
      }
    }
  }

  // An id spliced in before, with others in between or not, breaks the graph.
  lemma RepeatBreaks(g: Graph, ns: seq<Node>, tid: NodeId, n: Node)
    requires NoDangling(g) && tid in Ids(g.nodes) && forall m :: m in ns ==> m.id != tid
    requires ns != [] && n in ns[..|ns| - 1] && n.id == ns[|ns| - 1].id
    ensures !Sound(AllSpliced(g, ns, tid).edges)
  {
    hide SplicedEdges;
    var front, last := ns[..|ns| - 1], ns[|ns| - 1];
    var es, h := AllSpliced(g, front, tid).edges, AllSpliced(g, ns, tid);
    LastEnters(g, front, tid);
    var m := front[|front| - 1];
    if m.id == last.id {
      NoOtherPreds(es, last.id, tid);
      RepeatedArc(es, last.id, tid);
    } else if Acyclic(h.edges) {
      AllSplicedInside(g, ns, tid);
      var r := RankOf(h);
      RankBefore(es, last.id, tid, r);
      ChainRanks(g, front, tid, r, n);
      SplicedArc(es, last.id, tid, NextEdge(m.id, last.id));
      assert false;
    }
  }

  lemma NoOtherPreds(es: seq<Edge>, id: NodeId, tid: NodeId)
    requires forall e :: e in es && e.dst == tid ==> e.src == id
    ensures Preds(es, tid, id) == []
  {
    if es != [] {
      assert es == es[..|es| - 1] + [es[|es| - 1]];
      NoOtherPreds(es[..|es| - 1], id, tid);
    }
  }

  lemma {:induction false} SoundMeansApart(g: Graph, ns: seq<Node>, tid: NodeId)
    requires NoDangling(g) && tid in Ids(g.nodes) && FreshIds(g, ns) && Sound(AllSpliced(g, ns, tid).edges)
    ensures ApartIds(ns)
    decreases |ns|
  {
    hide SplicedEdges;
    if ns != [] {
      var front, last := ns[..|ns| - 1], ns[|ns| - 1];
      assert ns == front + [last];
      var es := AllSpliced(g, front, tid).edges;
      NoDuplicatesBefore(es, last.id, tid);
      AllSplicedInside(g, ns, tid);
      var r := RankOf(AllSpliced(g, ns, tid));
      RankBefore(es, last.id, tid, r);
      RankedAcyclic(es, r);
      SoundMeansApart(g, front, tid);
      forall n | n in front ensures n.id != last.id {
        if n.id == last.id { RepeatBreaks(g, ns, tid, n); }
      }
    }
  }

  /** A pass that splices nodes with fresh ids before the submit node leaves a
      valid graph exactly when no id is used twice. */
  lemma PassValidExactly(g: Graph, ns: seq<Node>, tid: NodeId)
    requires Submits(g, tid) && FreshIds(g, ns)
    ensures ValidDag(AllSpliced(g, ns, tid)) <==> ApartIds(ns)
  {
    if ApartIds(ns) {
      ApartStaysValid(g, ns, tid);
    }
    if ValidDag(AllSpliced(g, ns, tid)) {
      SoundMeansApart(g, ns, tid);
    }
  }

  function Gates(ls: seq<Leaf>, name: Naming): (r: seq<Node>)
    ensures |r| == |ls| && forall i :: 0 <= i < |ls| ==> r[i] == GateNode(ls[i], name)
  {
    seq(|ls|, i requires 0 <= i < |ls| => GateNode(ls[i], name))
  }

  lemma {:induction false} EnforcedIs(g: Graph, ls: seq<Leaf>, name: Naming, tid: NodeId)
    ensures Enforced(g, ls, name, tid) == AllSpliced(g, Gates(ls, name), tid)
    decreases |ls|
  {
    hide Spliced;
    if ls != [] {
      var front := ls[..|ls| - 1];
      EnforcedIs(g, front, name, tid);
      var ns := Gates(ls, name);
      assert ns[..|ns| - 1] == Gates(front, name);
      assert ns[|ns| - 1] == GateNode(ls[|ls| - 1], name);
    }
  }

  /** Step 5 leaves a valid graph exactly when no two of the gates share a name,
      as gates on one field do. */
  lemma EnforcedValidExactly(g: Graph, ls: seq<Leaf>, name: Naming, tid: NodeId)
    requires Submits(g, tid) && forall l :: l in ls ==> name(l.field) !in Ids(g.nodes)
    ensures ValidDag(Enforced(g, ls, name, tid)) <==>
      forall i, j :: 0 <= i < j < |ls| ==> name(ls[i].field) != name(ls[j].field)
  {
    hide Submits, ValidDag, Enforced, AllSpliced, Ids;
    EnforcedIs(g, ls, name, tid);
    var ns := Gates(ls, name);
    forall n | n in ns ensures n.id !in Ids(g.nodes) {
      var i :| 0 <= i < |ns| && ns[i] == n;
      assert ls[i] in ls;
    }
    PassValidExactly(g, ns, tid);
    assert forall i, j :: 0 <= i < j < |ls| ==> ns[i].id == name(ls[i].field) && ns[j].id == name(ls[j].field);
  }

  // ---- Does the gate say what the prohibition says? ------------------------------------------

  // The truth of a condition when every comparison in it has truth value b.
  predicate Under(c: Cond, b: bool)
    decreases c
  {
    match c
    case Cmp(_, _, _) => b
    case And(cs) => forall d :: d in cs ==> Under(d, b)
    case Or(cs) => exists d :: d in cs && Under(d, b)
    case Not(d) => !Under(d, b)
    case Structural => true
  }

  lemma {:induction false} EvalUnder(c: Cond, l: Leaf, x: Case)
    requires forall k :: k in Leaves(c) ==> k == l
    ensures Eval(c, x) == Under(c, Eval(LeafCond(l), x))
    decreases c
  {
    match c
    case Cmp(f, op, want) => assert Leaf(f, op, want) in Leaves(c);
    case And(cs) =>
      assert Leaves(c) == LeavesAll(cs);
      EvalUnderAll(cs, l, x);
    case Or(cs) =>
      assert Leaves(c) == LeavesAll(cs);
      EvalUnderAll(cs, l, x);
    case Not(d) =>
      assert Leaves(c) == Leaves(d);
      EvalUnder(d, l, x);
    case Structural =>
  }

  lemma {:induction false} EvalUnderAll(cs: seq<Cond>, l: Leaf, x: Case)
    requires forall k :: k in LeavesAll(cs) ==> k == l
    ensures forall d :: d in cs ==> Eval(d, x) == Under(d, Eval(LeafCond(l), x))
    decreases cs
  {
    forall d | d in cs ensures Eval(d, x) == Under(d, Eval(LeafCond(l), x)) {
      forall k | k in Leaves(d) ensures k == l { ChildLeaves(cs, d, k); }
      EvalUnder(d, l, x);
    }
  }

  // The condition stands or falls with its one comparison.
  predicate ReadsStraight(c: Cond) { Under(c, true) && !Under(c, false) }

  lemma StraightAgrees(c: Cond, l: Leaf, x: Case)
    requires Leaves(c) == [l] && ReadsStraight(c)
    ensures Eval(c, x) == Eval(LeafCond(l), x)
  {
    EvalUnder(c, l, x);
    if Eval(LeafCond(l), x) {
      assert Under(c, true);
    }
  }

  /** The gate made from a one-comparison prohibition enforces it on every case
      exactly when the condition stands or falls with that comparison. */
  lemma GateSaysSo(c: Cond, l: Leaf, some: Case)
    requires Leaves(c) == [l] && Eval(LeafCond(l), some)
    ensures (forall x :: Eval(c, x) == Eval(LeafCond(l), x)) <==> ReadsStraight(c)
  {
    var none: Case := map[];
    EvalUnder(c, l, some);
    EvalUnder(c, l, none);
    assert !Eval(LeafCond(l), none);
    if ReadsStraight(c) {
      forall x ensures Eval(c, x) == Eval(LeafCond(l), x) { StraightAgrees(c, l, x); }
    } else {
      assert Eval(c, some) != Eval(LeafCond(l), some) || Eval(c, none) != Eval(LeafCond(l), none);
    }
  }

  /** A negated prohibition has one comparison too: its gate blocks the allowed
      cases and lets the forbidden ones through. */
  lemma NegatedBanIsMisread(l: Leaf, x: Case)
    ensures Leaves(Not(LeafCond(l))) == [l] && !ReadsStraight(Not(LeafCond(l)))
    ensures Eval(Not(LeafCond(l)), x) != Eval(LeafCond(l), x)
  {
    assert Leaves(LeafCond(l)) == [l] && Under(LeafCond(l), true);
  }

  predicate CanGate(p: Ban, gated: set<Field>) {
    && p.cond.Some? && ReadsStraight(p.cond.value)
    && |Leaves(p.cond.value)| == 1 && Leaves(p.cond.value)[0].field !in gated
  }

  ghost predicate Enforceable(ps: seq<Ban>, gated: set<Field>) {
    forall p :: p in ps ==> CanGate(p, gated)
  }

  lemma ViolatedMeans(ps: seq<Ban>, x: Case)
    ensures Violated(ps, x) != [] <==> exists p :: p in ps && Holds(p.cond, x)
  {
    if ps != [] {
      var front, last := ps[..|ps| - 1], ps[|ps| - 1];
      assert ps == front + [last] && last in ps;
      ViolatedMeans(front, x);
    }
  }

  lemma GatesCoverBans(ps: seq<Ban>, gated: set<Field>, x: Case)
    requires Enforceable(ps, gated)
    ensures AnyHolds(ToGate(ps, gated), x) <==> exists p :: p in ps && Holds(p.cond, x)
  {
    hide ToGate;
    forall p | p in ps
      ensures var l := Leaves(p.cond.value)[0];
        l in ToGate(ps, gated) && Holds(p.cond, x) == Eval(LeafCond(l), x)
    {
      assert CanGate(p, gated);
      StraightAgrees(p.cond.value, Leaves(p.cond.value)[0], x);
    }
  }

  /** With the gates in place the submit node is reached on exactly the cases that
      reached it before and of which no gated comparison holds; when every
      prohibition can be gated, on exactly those that violate none, and the others
      are blocked. */
  lemma SubmitOnlyIfAllowed(m: Model, g: Graph, name: Naming, tid: NodeId, x: Case)
    requires Submits(g, tid) && FreshNames(g, ToGate(m.prohibitions, GatedFields(g.nodes)), name)
    ensures var ls := ToGate(m.prohibitions, GatedFields(g.nodes));
      var h, allowed := Enforced(g, ls, name, tid), EvaluateExpected(m, x).violated == [];
      && ValidDag(h)
      && (tid in Reached(h, x) <==> tid in Reached(g, x) && !AnyHolds(ls, x))
      && (Enforceable(m.prohibitions, GatedFields(g.nodes)) ==>
            && (tid in Reached(h, x) <==> tid in Reached(g, x) && allowed)
            && (tid in Reached(g, x) && !allowed ==> RunOf(h, x).prohibited))
  {
    hide RunOf, Enforced, ToGate;
    var ls := ToGate(m.prohibitions, GatedFields(g.nodes));
    EnforceBlocksExactly(g, ls, name, tid, x);
    if Enforceable(m.prohibitions, GatedFields(g.nodes)) {
      GatesCoverBans(m.prohibitions, GatedFields(g.nodes), x);
      ViolatedMeans(m.prohibitions, x);
    }
  }
}
