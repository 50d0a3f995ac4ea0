/** Inserting a node in front of a target (services/patcher/patcher.py, lines 43-74). */
module Splice {
  import opened Wrappers
  import opened Expr
  import opened Graphs
  import opened Kahn
  import opened Dag
  import opened Interpreter
  import opened Flow
  import opened Rewiring

  function SplicedEdges(es: seq<Edge>, newId: NodeId, tid: NodeId): seq<Edge> {
    var ps := Preds(es, tid, newId);
    Without(es, ps, tid) + Into(ps, newId) + [NextEdge(newId, tid)]
  }

  function Spliced(g: Graph, n: Node, tid: NodeId): Graph {
    Graph(g.nodes + [n], SplicedEdges(g.edges, n.id, tid))
  }

  // The setting of every use: a valid graph, a fresh node, an existing target.
  ghost predicate CanSplice(g: Graph, n: Node, tid: NodeId) {
    ValidDag(g) && n.id !in Ids(g.nodes) && tid in Ids(g.nodes)
  }

  lemma SplicedEdge(g: Graph, n: Node, tid: NodeId, e: Edge)
    requires CanSplice(g, n, tid)
    ensures e in Spliced(g, n, tid).edges <==>
      || (e in g.edges && e.dst != tid)
      || (e == NextEdge(e.src, n.id) && HasEdge(g.edges, e.src, tid))
      || e == NextEdge(n.id, tid)
  {
    if e in g.edges && e.dst == tid {
      assert HasEdge(g.edges, e.src, tid);
    }
  }

  // The same without any assumption on the new id but that it is not the target.
  lemma SplicedArc(es: seq<Edge>, id: NodeId, tid: NodeId, e: Edge)
    requires id != tid
    ensures e in SplicedEdges(es, id, tid) <==>
      || (e in es && (e.dst != tid || e.src == id))
      || (e == NextEdge(e.src, id) && e.src != id && HasEdge(es, e.src, tid))
      || e == NextEdge(id, tid)
  {
    if e in es && e.dst == tid {
      assert HasEdge(es, e.src, tid);
    }
  }

  /** When the resolved target is the new node itself it gets an edge to itself. */
  lemma SelfTargetCycles(es: seq<Edge>, id: NodeId)
    ensures !Acyclic(SplicedEdges(es, id, id))
  {
    var fs := SplicedEdges(es, id, id);
    assert NextEdge(id, id) in fs;
    assert HasEdge(fs, id, id);
    assert Cycle(fs, [id, id]);
  }

  // ---- The graph contract ------------------------------------------------------

  lemma SpliceRanked(g: Graph, n: Node, tid: NodeId)
    requires CanSplice(g, n, tid)
    ensures NoDangling(Spliced(g, n, tid)) && Acyclic(Spliced(g, n, tid).edges)
  {
    var h := Spliced(g, n, tid);
    IdsAppend(g.nodes, n);
    var r := RankOf(g);
    var q := SplicedRank(r, n.id, tid);
    forall e | e in h.edges
      ensures e.src in Ids(h.nodes) && e.dst in Ids(h.nodes) && q[e.src] < q[e.dst]
    {
      SplicedEdge(g, n, tid, e);
    }
    RankedAcyclic(h.edges, q);
  }

  // Old ranks doubled; the new node fits just below the target.
  ghost function SplicedRank(r: map<NodeId, int>, id: NodeId, tid: NodeId): (q: map<NodeId, int>)
    requires tid in r && id !in r
    ensures q.Keys == r.Keys + {id} && q[id] == 2 * r[tid] - 1
    ensures forall k :: k in r ==> q[k] == 2 * r[k]
  {
    (map k | k in r :: 2 * r[k])[id := 2 * r[tid] - 1]
  }

  lemma SplicedIncoming(g: Graph, n: Node, tid: NodeId, id: NodeId)
    requires CanSplice(g, n, tid)
    ensures HasIncoming(Spliced(g, n, tid).edges, id) <==>
      if id == n.id then HasIncoming(g.edges, tid) else id == tid || HasIncoming(g.edges, id)
  {
    var h := Spliced(g, n, tid);
    if HasIncoming(h.edges, id) {
      var e :| e in h.edges && e.dst == id;
      SplicedEdge(g, n, tid, e);
    }
    if id == tid {
      SplicedEdge(g, n, tid, NextEdge(n.id, tid));
    } else if id == n.id {
      if HasIncoming(g.edges, tid) {
        var e :| e in g.edges && e.dst == tid;
        assert HasEdge(g.edges, e.src, tid);
        SplicedEdge(g, n, tid, NextEdge(e.src, n.id));
      }
    } else if HasIncoming(g.edges, id) {
      var e :| e in g.edges && e.dst == id;
      SplicedEdge(g, n, tid, e);
    }
  }

  lemma NoStarts(ns: seq<Node>, es: seq<Edge>)
    requires forall id :: id in Ids(ns) ==> HasIncoming(es, id)
    ensures StartsOf(ns, es) == []
  {
    if ns != [] {
      assert ns == ns[..|ns| - 1] + [ns[|ns| - 1]];
      NoStarts(ns[..|ns| - 1], es);
    }
  }

  lemma SplicedStarts(g: Graph, n: Node, es: seq<Edge>)
    ensures StartsOf(g.nodes + [n], es) == StartsOf(g.nodes, es) + if HasIncoming(es, n.id) then [] else [n.id]
  {
    assert (g.nodes + [n])[..|g.nodes|] == g.nodes;
  }

  lemma SpliceStart(g: Graph, n: Node, tid: NodeId)
    requires CanSplice(g, n, tid)
    ensures Starts(Spliced(g, n, tid)) == [if tid == Start(g) then n.id else Start(g)]
  {
    var es := Spliced(g, n, tid).edges;
    SplicedStarts(g, n, es);
    SplicedIncoming(g, n, tid, n.id);
    StartIs(g);
    if tid == Start(g) {
      forall id | id in Ids(g.nodes) ensures HasIncoming(es, id) { SplicedIncoming(g, n, tid, id); }
      NoStarts(g.nodes, es);
    } else {
      forall id | id in Ids(g.nodes) ensures HasIncoming(es, id) == HasIncoming(g.edges, id) {
        SplicedIncoming(g, n, tid, id);
      }
      SameStarts(g.nodes, g.edges, es);
    }
  }

  /** The splice keeps the graph contract, except that one predecessor with two
      edges to the target yields a duplicate edge. */
  lemma SpliceValid(g: Graph, n: Node, tid: NodeId)
    requires CanSplice(g, n, tid)
    ensures NoDangling(Spliced(g, n, tid)) && Acyclic(Spliced(g, n, tid).edges)
    ensures |Starts(Spliced(g, n, tid))| == 1
    ensures ValidDag(Spliced(g, n, tid)) <==> NoDup(Preds(g.edges, tid, n.id))
  {
    SpliceRanked(g, n, tid);
    SpliceStart(g, n, tid);
    var ps := Preds(g.edges, tid, n.id);
    var kept, entering := Without(g.edges, ps, tid), Into(ps, n.id);
    forall e, f | e in kept && f in entering ensures !SameKey(e, f) {
      assert e.dst in Ids(g.nodes);
    }
    forall e, f | e in kept + entering && f in [NextEdge(n.id, tid)] ensures !SameKey(e, f) {
      if e in kept { assert e.src in Ids(g.nodes); }
    }
    IntoNoDuplicates(ps, n.id);
    NoDuplicatesJoin(kept, entering);
    NoDuplicatesJoin(kept + entering, [NextEdge(n.id, tid)]);
  }

  /** Splicing a second node under the same id before the same target repeats the
      edge into it: gates named alike in one pass break the graph. */
  lemma SameIdTwiceBreaks(g: Graph, n: Node, twin: Node, tid: NodeId)
    requires CanSplice(g, n, tid) && twin.id == n.id
    ensures !ValidDag(Spliced(Spliced(g, n, tid), twin, tid))
  {
    hide SplicedEdges;
    var es, e := Spliced(g, n, tid).edges, NextEdge(n.id, tid);
    var ps := Preds(es, tid, n.id);
    var first := if ps == [] then tid else ps[0];
    assert ps != [] ==> first in ps;
    SplicedEdge(g, n, tid, e);
    forall p ensures p !in ps {
      if p in ps {
        var f :| f in es && f.src == p && f.dst == tid;
        SplicedEdge(g, n, tid, f);
      }
    }
    RepeatedArc(es, n.id, tid);
  }

  lemma RepeatedArc(es: seq<Edge>, id: NodeId, tid: NodeId)
    requires NextEdge(id, tid) in es && Preds(es, tid, id) == []
    ensures !NoDuplicates(SplicedEdges(es, id, tid))
  {
    hide Preds, Without, Into, NoDuplicates;
    var kept, e := Without(es, [], tid) + Into([], id), NextEdge(id, tid);
    assert e in kept && e in [e] && SameKey(e, e);
    NoDuplicatesJoin(kept, [e]);
  }

  /** In every topological order of the result the new node precedes the target. */
  lemma SplicePrecedes(g: Graph, n: Node, tid: NodeId, order: seq<NodeId>)
    requires CanSplice(g, n, tid) && TopologicalOrder(Spliced(g, n, tid), order)
    ensures n.id in order && tid in order && IndexOf(order, n.id) < IndexOf(order, tid)
  {
    var h := Spliced(g, n, tid);
    IdsAppend(g.nodes, n);
    assert tid in Elems(order);
    SplicedEdge(g, n, tid, NextEdge(n.id, tid));
    ForwardEdge(Live(h), order, NextEdge(n.id, tid));
  }

  // ---- What a run reaches ------------------------------------------------------

  // Predecessors of tid that let the run through, whether or not their branch is on.
  function Feeders(g: Graph, x: Case, tid: NodeId): set<NodeId> {
    set e | e in g.edges && e.dst == tid && e.src in Ids(g.nodes) && Passes(ImplOf(g.nodes, e.src), x) :: e.src
  }

  // A reached predecessor lets the run through, but its branch to tid is off.
  ghost predicate CutOff(g: Graph, x: Case, tid: NodeId) { Cut(Feeders(g, x, tid), tid, Reached(g, x)) }

  ghost predicate SplicedDag(g: Graph, n: Node, tid: NodeId) {
    CanSplice(g, n, tid) && ValidDag(Spliced(g, n, tid))
  }

  lemma UnconditionalNeverCutOff(g: Graph, x: Case, tid: NodeId)
    requires ValidDag(g)
    requires forall e :: e in g.edges && e.dst == tid ==> !e.branch || e.cond == None
    ensures !CutOff(g, x, tid)
  {
    ReachedShape(g, x);
    forall a | a in Feeders(g, x, tid) * Reached(g, x) ensures tid in Reached(g, x) {
      assert (a, tid) in Steps(g, x);
    }
  }

  lemma SplicedImpls(g: Graph, n: Node)
    requires n.id !in Ids(g.nodes)
    ensures Ids(g.nodes + [n]) == Ids(g.nodes) + {n.id} && ImplOf(g.nodes + [n], n.id) == n.impl
    ensures forall id :: id in Ids(g.nodes) ==> ImplOf(g.nodes + [n], id) == ImplOf(g.nodes, id)
  {
    IdsAppend(g.nodes, n);
    forall id | id in Ids(g.nodes) ensures ImplOf(g.nodes + [n], id) == ImplOf(g.nodes, id) {
      ImplOfAppend(g.nodes, n, id);
    }
  }

  lemma StepEdge(g: Graph, x: Case, e: Edge)
    requires e in g.edges && e.src in Ids(g.nodes) && Passes(ImplOf(g.nodes, e.src), x) && Enabled(e, x)
    ensures (e.src, e.dst) in Steps(g, x)
  {
  }

  lemma SplicedStepFrom(g: Graph, n: Node, tid: NodeId, x: Case, e: Edge)
    requires CanSplice(g, n, tid) && e in Spliced(g, n, tid).edges && Enabled(e, x)
    requires e.src in Ids(g.nodes + [n]) && Passes(ImplOf(g.nodes + [n], e.src), x)
    ensures (e.src, e.dst) in Divert(Steps(g, x), Feeders(g, x, tid), n.id, tid, Passes(n.impl, x))
  {
    SplicedImpls(g, n);
    SplicedEdge(g, n, tid, e);
    DivertIn(Steps(g, x), Feeders(g, x, tid), n.id, tid, Passes(n.impl, x), (e.src, e.dst));
    if e in g.edges && e.dst != tid {
      StepEdge(g, x, e);
    }
  }

  lemma SplicedStepInto(g: Graph, n: Node, tid: NodeId, x: Case, a: NodeId, b: NodeId)
    requires CanSplice(g, n, tid)
    requires (a, b) in Divert(Steps(g, x), Feeders(g, x, tid), n.id, tid, Passes(n.impl, x))
    ensures (a, b) in Steps(Spliced(g, n, tid), x)
  {
    SplicedImpls(g, n);
    DivertIn(Steps(g, x), Feeders(g, x, tid), n.id, tid, Passes(n.impl, x), (a, b));
    var e;
    if (a, b) in Steps(g, x) && b != tid {
      e :| e in g.edges && e.src == a && e.dst == b && Enabled(e, x);
    } else {
      e := NextEdge(a, b);
      assert a in Feeders(g, x, tid) ==> HasEdge(g.edges, a, tid);
    }
    SplicedEdge(g, n, tid, e);
    StepEdge(Spliced(g, n, tid), x, e);
  }

  // Splicing the graph is splicing the step relation.
  lemma SplicedSteps(g: Graph, n: Node, tid: NodeId, x: Case)
    requires CanSplice(g, n, tid)
    ensures Steps(Spliced(g, n, tid), x) == Divert(Steps(g, x), Feeders(g, x, tid), n.id, tid, Passes(n.impl, x))
  {
    hide CanSplice, SplicedEdges, Divert, Feeders;
    var h := Spliced(g, n, tid);
    var d := Divert(Steps(g, x), Feeders(g, x, tid), n.id, tid, Passes(n.impl, x));
    forall p | p in Steps(h, x) ensures p in d {
      var e :| e in h.edges && p == (e.src, e.dst) && e.src in Ids(h.nodes)
        && Passes(ImplOf(h.nodes, e.src), x) && Enabled(e, x);
      SplicedStepFrom(g, n, tid, x, e);
    }
    forall p | p in d ensures p in Steps(h, x) {
      SplicedStepInto(g, n, tid, x, p.0, p.1);
    }
  }

  lemma FeedersInside(g: Graph, n: Node, tid: NodeId, x: Case)
    requires CanSplice(g, n, tid)
    ensures Divertible(Steps(g, x), Feeders(g, x, tid), Start(g), n.id, tid)
  {
    StartIs(g);
  }

  lemma SpliceDiverts(g: Graph, n: Node, tid: NodeId, x: Case)
    requires SplicedDag(g, n, tid)
    ensures var f, fs, w := Steps(g, x), Feeders(g, x, tid), Reached(Spliced(g, n, tid), x);
      && Divertible(f, fs, Start(g), n.id, tid)
      && Least(f, Start(g), Reached(g, x)) && Reached(g, x) <= Ids(g.nodes)
      && Least(Divert(f, fs, n.id, tid, Passes(n.impl, x)), NewStart(Start(g), n.id, tid), w)
  {
    var h := Spliced(g, n, tid);
    SplicedSteps(g, n, tid, x);
    FeedersInside(g, n, tid, x);
    SpliceStart(g, n, tid);
    hide Least, Divert, Divertible, Steps, Feeders, Reached, Stable;
    ReachedLeast(g, x);
    ReachedShape(g, x);
    ReachedLeast(h, x);
  }

  /** The splice is a conservative extension: when the new node lets the run
      through, the old nodes reached are the same, exactly unless a branch into
      the target was off; the new node is reached when the target is. */
  lemma SplicePassing(g: Graph, n: Node, tid: NodeId, x: Case)
    requires SplicedDag(g, n, tid) && Passes(n.impl, x)
    ensures Reached(Spliced(g, n, tid), x) - {n.id} == Reached(g, x) <==> !CutOff(g, x, tid)
    ensures !CutOff(g, x, tid) ==> Reached(Spliced(g, n, tid), x) == WithNew(Reached(g, x), n.id, tid)
  {
    SpliceDiverts(g, n, tid, x);
    DivertThrough(Steps(g, x), Feeders(g, x, tid), Start(g), n.id, tid, Reached(g, x), Reached(Spliced(g, n, tid), x));
  }

  /** When the new node stops the run, the target is never reached, and the new
      node is reached exactly when the target was; in front of a node that ends
      the run anyway, such as a submit node, nothing else changes. */
  lemma SpliceStopping(g: Graph, n: Node, tid: NodeId, x: Case)
    requires SplicedDag(g, n, tid) && !Passes(n.impl, x)
    ensures tid !in Reached(Spliced(g, n, tid), x)
    ensures !CutOff(g, x, tid) ==> Reached(Spliced(g, n, tid), x) - {n.id} <= Reached(g, x) - {tid}
    ensures !CutOff(g, x, tid) ==> (n.id in Reached(Spliced(g, n, tid), x) <==> tid in Reached(g, x))
    ensures !CutOff(g, x, tid) && !Passes(ImplOf(g.nodes, tid), x) ==>
      Reached(Spliced(g, n, tid), x) == Replaced(Reached(g, x), n.id, tid)
  {
    SpliceDiverts(g, n, tid, x);
    DivertStopped(Steps(g, x), Feeders(g, x, tid), Start(g), n.id, tid, Reached(g, x), Reached(Spliced(g, n, tid), x));
  }

  // ---- Verdicts ------------------------------------------------------------------

  lemma SplicedStops(ns: seq<Node>, n: Node, x: Case, v: set<NodeId>, k: Stop)
    requires n.id !in Ids(ns) && v <= Ids(ns)
    ensures Stopped(ns + [n], x, v, k) == Stopped(ns, x, v, k)
    ensures Stopped(ns + [n], x, v + {n.id}, k) == (Stopped(ns, x, v, k) || StopsBy(k, n.impl, x))
  {
    var ms := ns + [n];
    IdsAppend(ns, n);
    forall id | id in Ids(ns) ensures ImplOf(ms, id) == ImplOf(ns, id) {
      ImplOfAppend(ns, n, id);
    }
    VisitedGrows(ms, x, v, n.id, k);
  }

  /** When the new node lets the run through, no verdict changes. */
  lemma SpliceKeepsVerdicts(g: Graph, n: Node, tid: NodeId, x: Case)
    requires SplicedDag(g, n, tid) && !CutOff(g, x, tid) && Passes(n.impl, x)
    ensures var r, q := RunOf(g, x), RunOf(Spliced(g, n, tid), x);
      r.eligible == q.eligible && r.onTime == q.onTime && r.prohibited == q.prohibited && r.stopped == q.stopped
  {
    var h := Spliced(g, n, tid);
    RunFlags(g, x);
    RunFlags(h, x);
    ReachedShape(g, x);
    SplicePassing(g, n, tid, x);
    forall k { SplicedStops(g.nodes, n, x, Reached(g, x), k); }
  }

  lemma SubmitStopsNothing(ns: seq<Node>, x: Case, v: set<NodeId>, tid: NodeId, k: Stop)
    requires tid in Ids(ns) && ImplOf(ns, tid).Submit?
    ensures Stopped(ns, x, v - {tid}, k) == Stopped(ns, x, v, k)
  {
    if Stopped(ns, x, v, k) {
      var id :| id in v && id in Ids(ns) && StopsBy(k, ImplOf(ns, id), x);
      assert id in v - {tid};
    }
  }

  lemma StoppingSplice(ns: seq<Node>, n: Node, tid: NodeId, x: Case, v: set<NodeId>, k: Stop)
    requires n.id !in Ids(ns) && v <= Ids(ns)
    requires tid in Ids(ns) && ImplOf(ns, tid).Submit?
    ensures Stopped(ns + [n], x, Replaced(v, n.id, tid), k) ==
      (Stopped(ns, x, v, k) || (tid in v && StopsBy(k, n.impl, x)))
  {
    SplicedStops(ns, n, x, v - {tid}, k);
    SubmitStopsNothing(ns, x, v, tid, k);
    if tid !in v {
      assert v - {tid} + {} == v - {tid} == v;
    }
  }

  lemma BlockedFlags(ns: seq<Node>, n: Node, tid: NodeId, x: Case, r: Run, q: Run)
    requires n.id !in Ids(ns) && tid in Ids(ns) && ImplOf(ns, tid).Submit?
    requires n.impl.Prohibition? && !Passes(n.impl, x)
    requires Flags(ns, x, r) && Flags(ns + [n], x, q)
    requires r.visited <= Ids(ns) && q.visited == Replaced(r.visited, n.id, tid)
    ensures q.eligible == r.eligible && q.onTime == r.onTime && (q.prohibited <==> r.prohibited || tid in r.visited)
  {
    hide Stopped, Replaced, Ids, ImplOf, Passes;
    StoppingSplice(ns, n, tid, x, r.visited, Rejects);
    StoppingSplice(ns, n, tid, x, r.visited, Late);
    StoppingSplice(ns, n, tid, x, r.visited, Blocks);
  }

  lemma BlockingSplice(g: Graph, n: Node, tid: NodeId, x: Case)
    requires SplicedDag(g, n, tid) && !CutOff(g, x, tid) && !Passes(n.impl, x)
    requires n.impl.Prohibition? && ImplOf(g.nodes, tid).Submit?
    ensures var r, q := RunOf(g, x), RunOf(Spliced(g, n, tid), x);
      q.eligible == r.eligible && q.onTime == r.onTime && (q.prohibited <==> r.prohibited || tid in r.visited)
  {
    hide RunOf, SplicedEdges, Stopped, Flags, Replaced;
    assert !Passes(ImplOf(g.nodes, tid), x);
    SpliceStopping(g, n, tid, x);
    ReachedShape(g, x);
    RunFlags(g, x);
    RunFlags(Spliced(g, n, tid), x);
    BlockedFlags(g.nodes, n, tid, x, RunOf(g, x), RunOf(Spliced(g, n, tid), x));
  }

  /** A prohibition gate put before a submit node blocks exactly the forbidden
      cases that would have reached it, and touches no other verdict. */
  lemma SplicedProhibitionBlocks(g: Graph, n: Node, tid: NodeId, x: Case)
    requires SplicedDag(g, n, tid) && !CutOff(g, x, tid)
    requires n.impl.Prohibition? && ImplOf(g.nodes, tid).Submit?
    ensures var r, q := RunOf(g, x), RunOf(Spliced(g, n, tid), x);
      var forbidden := Eval(Cmp(n.impl.field, n.impl.op, n.impl.want), x);
      && q.eligible == r.eligible && q.onTime == r.onTime
      && (q.prohibited <==> r.prohibited || (forbidden && tid in r.visited))
      && (tid in q.visited <==> tid in r.visited && !forbidden)
  {
    if Passes(n.impl, x) {
      SpliceKeepsVerdicts(g, n, tid, x);
      SplicePassing(g, n, tid, x);
    } else {
      BlockingSplice(g, n, tid, x);
      SpliceStopping(g, n, tid, x);
    }
  }

  lemma SplicedForms(ns: seq<Node>, n: Node, x: Case, r: Run)
    requires n.id !in Ids(ns) && r.visited <= Ids(ns) && RequiredMatches(ns, x, r)
    ensures RequiredMatches(ns + [n], x, r)
  {
    var ms := ns + [n];
    IdsAppend(ns, n);
    forall id | id in Ids(ns) ensures ImplOf(ms, id) == ImplOf(ns, id) {
      ImplOfAppend(ns, n, id);
    }
    assert forall id, a :: FormFor(ms, r.visited, id, a) <==> FormFor(ns, r.visited, id, a);
  }

  /** When the new node lets the run through, the requirements change only by
      the new form's own entry. */
  lemma SpliceKeepsRequired(g: Graph, n: Node, tid: NodeId, x: Case)
    requires SplicedDag(g, n, tid) && !CutOff(g, x, tid) && Passes(n.impl, x)
    requires OneFormEach(Spliced(g, n, tid).nodes)
    ensures var r, q := RunOf(g, x), RunOf(Spliced(g, n, tid), x);
      q.required == if n.impl.Form? && tid in r.visited
        then r.required[n.impl.action := Needs(n.impl, x)]
        else r.required
  {
    var h, v := Spliced(g, n, tid), Reached(g, x);
    var r, q := RunOf(g, x), RunOf(h, x);
    RunRequired(g, x);
    RunRequired(h, x);
    ReachedShape(g, x);
    SplicePassing(g, n, tid, x);
    IdsAppend(g.nodes, n);
    SplicedForms(g.nodes, n, x, r);
    var want := if tid in v then Visit(r, n.id, n.impl, x) else r;
    if tid in v {
      VisitKeepsRequired(h.nodes, x, r, n.id);
    }
    assert want.visited == q.visited;
    SameRequired(h.nodes, h.nodes, x, want, q);
  }

  lemma OneFormStays(ns: seq<Node>, n: Node)
    requires OneFormEach(ns) && n.id !in Ids(ns) && !n.impl.Form?
    ensures OneFormEach(ns + [n])
  {
    SplicedImpls(Graph(ns, []), n);
    assert forall id, a :: FormFor(ns + [n], Ids(ns + [n]), id, a) ==> FormFor(ns, Ids(ns), id, a);
  }

  lemma SameForms(ns: seq<Node>, n: Node, tid: NodeId, v: set<NodeId>, w: set<NodeId>)
    requires n.id !in Ids(ns) && !n.impl.Form? && tid in Ids(ns) && ImplOf(ns, tid).Submit?
    requires v <= Ids(ns) && w - {n.id} <= v && v - {tid} <= w
    ensures forall id, a :: FormFor(ns, v, id, a) <==> FormFor(ns + [n], w, id, a)
    ensures forall id, a :: FormFor(ns, v, id, a) ==> ImplOf(ns, id) == ImplOf(ns + [n], id)
  {
    SplicedImpls(Graph(ns, []), n);
    forall id, a ensures FormFor(ns, v, id, a) <==> FormFor(ns + [n], w, id, a) {
      if id != n.id && id != tid {
        assert id in v <==> id in w;
      }
    }
  }

  lemma GateReach(g: Graph, n: Node, tid: NodeId, x: Case)
    requires SplicedDag(g, n, tid) && !CutOff(g, x, tid) && ImplOf(g.nodes, tid).Submit?
    ensures var v, w := Reached(g, x), Reached(Spliced(g, n, tid), x);
      v <= Ids(g.nodes) && w - {n.id} <= v && v - {tid} <= w
  {
    hide SplicedEdges, ValidDag, Reached;
    ReachedShape(g, x);
    if Passes(n.impl, x) {
      SplicePassing(g, n, tid, x);
    } else {
      assert !Passes(ImplOf(g.nodes, tid), x);
      SpliceStopping(g, n, tid, x);
    }
  }

  /** A gate before a submit node changes no requirement, whether it lets the run
      through or stops it. */
  lemma GateKeepsRequired(g: Graph, n: Node, tid: NodeId, x: Case)
    requires SplicedDag(g, n, tid) && !CutOff(g, x, tid) && !n.impl.Form?
    requires ImplOf(g.nodes, tid).Submit? && OneFormEach(g.nodes)
    ensures RunOf(Spliced(g, n, tid), x).required == RunOf(g, x).required
  {
    hide RunOf, RequiredMatches, SplicedEdges, OneFormEach, FormFor;
    var h := Spliced(g, n, tid);
    RunRequired(g, x);
    RunRequired(h, x);
    GateReach(g, n, tid, x);
    SameForms(g.nodes, n, tid, RunOf(g, x).visited, RunOf(h, x).visited);
    SameRequired(g.nodes, h.nodes, x, RunOf(g, x), RunOf(h, x));
  }
}
