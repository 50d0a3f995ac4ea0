/** Moving a prerequisite a in front of its target b
    (services/patcher/patcher.py, lines 202-232). */
module Reorder {
  import opened Wrappers
  import opened Expr
  import opened Graphs
  import opened Kahn
  import opened Dag
  import opened Interpreter
  import opened Flow
  import opened Rewiring

  function MovedEdges(es: seq<Edge>, a: NodeId, b: NodeId): seq<Edge> {
    Apart(es, a, b) + Into(Preds(es, b, a), a) + [NextEdge(a, b)] + OutOf(b, Succs(es, a, b))
  }

  function Moved(g: Graph, a: NodeId, b: NodeId): Graph {
    Graph(g.nodes, MovedEdges(g.edges, a, b))
  }

  // The rewrite is tried when the sort puts a after b.
  ghost predicate Misordered(g: Graph, a: NodeId, b: NodeId) {
    && ValidDag(g) && a in KahnOrder(g) && b in KahnOrder(g)
    && IndexOf(KahnOrder(g), a) > IndexOf(KahnOrder(g), b)
  }

  // A path from b to a through a third node.
  ghost predicate Detour(es: seq<Edge>, a: NodeId, b: NodeId) {
    exists m :: m != a && m != b && Reaches(es, b, m) && Reaches(es, m, a)
  }

  lemma MovedEdge(es: seq<Edge>, a: NodeId, b: NodeId, e: Edge)
    requires a != b
    ensures e in MovedEdges(es, a, b) <==>
      || (e in es && e.dst != b && e.src != a && !(e.src == b && e.dst == a))
      || (e == NextEdge(e.src, a) && e.src != a && HasEdge(es, e.src, b))
      || e == NextEdge(a, b)
      || (e == NextEdge(b, e.dst) && e.dst != b && HasEdge(es, a, e.dst))
  {
  }

  lemma SortRank(g: Graph, a: NodeId, b: NodeId) returns (r: map<NodeId, int>)
    requires Misordered(g, a, b)
    ensures Ranked(g.edges, r) && r.Keys == Ids(g.nodes) && a in r && b in r && r[b] < r[a]
    ensures forall k :: k in r ==> 0 <= r[k] < |KahnOrder(g)|
  {
    LiveAll(Ids(g.nodes), g.edges);
    KahnCorrect(g);
    ForwardRanked(g, KahnOrder(g));
    r := RankBy(KahnOrder(g));
  }

  // ---- A detour closes a cycle ---------------------------------------------------

  // An edge between the ranks of b and a, other than one from b to a, is kept.
  lemma EdgeSurvives(es: seq<Edge>, r: map<NodeId, int>, a: NodeId, b: NodeId, u: NodeId, v: NodeId)
    requires Ranked(es, r) && a in r && b in r && a != b && HasEdge(es, u, v)
    requires r[b] <= r[u] && r[v] <= r[a] && !(u == b && v == a)
    ensures HasEdge(MovedEdges(es, a, b), u, v)
  {
    var e :| e in es && e.src == u && e.dst == v;
    MovedEdge(es, a, b, e);
  }

  // A path between those ranks, other than one from b to a, is not cut.
  lemma {:induction false} PathSurvives(es: seq<Edge>, r: map<NodeId, int>, a: NodeId, b: NodeId, p: seq<NodeId>)
    requires Ranked(es, r) && a in r && b in r && a != b && IsPath(es, p)
    requires p[0] in r && p[|p| - 1] in r && r[b] <= r[p[0]] && r[p[|p| - 1]] <= r[a]
    requires !(p[0] == b && p[|p| - 1] == a)
    ensures IsPath(MovedEdges(es, a, b), p)
    decreases |p|
  {
    hide MovedEdges;
    if |p| > 1 {
      var n := |p| - 1;
      var front := p[..n];
      assert HasEdge(es, p[n - 1], p[n]);
      assert IsPath(es, front) by {
        forall i | 0 <= i < n - 1 ensures HasEdge(es, front[i], front[i + 1]) { assert HasEdge(es, p[i], p[i + 1]); }
      }
      if n > 1 {
        PathRanks(es, r, front);
      }
      PathSurvives(es, r, a, b, front);
      EdgeSurvives(es, r, a, b, p[n - 1], p[n]);
      forall i | 0 <= i < n ensures HasEdge(MovedEdges(es, a, b), p[i], p[i + 1]) {
        if i < n - 1 {
          assert HasEdge(MovedEdges(es, a, b), front[i], front[i + 1]);
        }
      }
    }
  }

  // Each half of a detour survives the rewrite.
  lemma HalfSurvives(g: Graph, r: map<NodeId, int>, a: NodeId, b: NodeId, u: NodeId, v: NodeId)
    requires Ranked(g.edges, r) && a in r && b in r && a != b && u in r && v in r
    requires r[b] <= r[u] && r[v] <= r[a] && !(u == b && v == a) && Reaches(g.edges, u, v)
    ensures Reaches(MovedEdges(g.edges, a, b), u, v)
  {
    var p :| PathFromTo(g.edges, p, u, v);
    PathSurvives(g.edges, r, a, b, p);
    assert PathFromTo(MovedEdges(g.edges, a, b), p, u, v);
  }

  // a, b and m lie on one cycle.
  ghost predicate Tangled(es: seq<Edge>, a: NodeId, b: NodeId, m: NodeId) {
    && a != b && a != m && b != m
    && Reaches(es, a, b) && Reaches(es, b, m) && Reaches(es, m, a)
  }

  lemma TangledCycles(es: seq<Edge>, a: NodeId, b: NodeId, m: NodeId)
    requires Tangled(es, a, b, m)
    ensures !Acyclic(es)
  {
    ReachesTrans(es, b, m, a);
    var p :| PathFromTo(es, p, a, b);
    var q :| PathFromTo(es, q, b, a);
    var c := p + q[1..];
    forall i | 0 <= i < |c| - 1 ensures HasEdge(es, c[i], c[i + 1]) {
      if i < |p| - 1 {
        assert HasEdge(es, p[i], p[i + 1]);
      } else {
        assert HasEdge(es, q[i + 1 - |p|], q[i + 2 - |p|]);
      }
    }
    assert Cycle(es, c);
  }

  lemma OneEdge(es: seq<Edge>, e: Edge)
    requires e in es
    ensures Reaches(es, e.src, e.dst)
  {
    ReachesSelf(es, e.src);
    assert HasEdge(es, e.src, e.dst);
    ReachesStep(es, e.src, e.src, e.dst);
  }

  // A third node on a way from b to a ends up on a cycle with both.
  lemma DetourTangles(g: Graph, r: map<NodeId, int>, a: NodeId, b: NodeId, m: NodeId)
    requires Ranked(g.edges, r) && a != b && m != a && m != b && Reaches(g.edges, b, m) && Reaches(g.edges, m, a)
    ensures Tangled(MovedEdges(g.edges, a, b), a, b, m)
  {
    hide MovedEdges;
    var es := MovedEdges(g.edges, a, b);
    RankedReaches(g.edges, r, b, m);
    RankedReaches(g.edges, r, m, a);
    HalfSurvives(g, r, a, b, b, m);
    HalfSurvives(g, r, a, b, m, a);
    MovedEdge(g.edges, a, b, NextEdge(a, b));
    OneEdge(es, NextEdge(a, b));
  }

  lemma DetourCycles(g: Graph, a: NodeId, b: NodeId)
    requires Misordered(g, a, b) && Detour(g.edges, a, b)
    ensures !Acyclic(MovedEdges(g.edges, a, b))
  {
    hide MovedEdges;
    var r := SortRank(g, a, b);
    var m :| m != a && m != b && Reaches(g.edges, b, m) && Reaches(g.edges, m, a);
    DetourTangles(g, r, a, b, m);
    TangledCycles(MovedEdges(g.edges, a, b), a, b, m);
  }

  // ---- Without a detour a rank remains -------------------------------------------

  // EVERYTHING downstream of a or b.
  ghost function Downstream(g: Graph, a: NodeId, b: NodeId): set<NodeId> {
    set k | k in Ids(g.nodes) && k != a && k != b && (Reaches(g.edges, a, k) || Reaches(g.edges, b, k))
  }

  ghost function MovedRank(g: Graph, r: map<NodeId, int>, top: int, a: NodeId, b: NodeId): map<NodeId, int> {
    map k | k in r :: if k == a then top else if k == b then top + 1
                      else if k in Downstream(g, a, b) then top + 2 + r[k] else r[k]
  }

  lemma DownstreamStep(g: Graph, a: NodeId, b: NodeId, e: Edge)
    requires NoDangling(g) && e in g.edges && e.dst != a && e.dst != b
    requires e.src == a || e.src == b || e.src in Downstream(g, a, b)
    ensures e.dst in Downstream(g, a, b)
  {
    assert HasEdge(g.edges, e.src, e.dst);
    ReachesSelf(g.edges, e.src);
    var from := if e.src == a || (e.src != b && Reaches(g.edges, a, e.src)) then a else b;
    ReachesStep(g.edges, from, e.src, e.dst);
  }

  lemma DownstreamEnds(g: Graph, r: map<NodeId, int>, a: NodeId, b: NodeId, e: Edge)
    requires Ranked(g.edges, r) && a in r && b in r && r[b] < r[a] && e in g.edges
    requires !Detour(g.edges, a, b) && e.src in Downstream(g, a, b)
    ensures e.dst != a && e.dst != b
  {
    var k := e.src;
    if e.dst == a || e.dst == b {
      assert HasEdge(g.edges, k, e.dst);
      ReachesSelf(g.edges, k);
      ReachesStep(g.edges, k, k, e.dst);
      if Reaches(g.edges, a, k) {
        RankedReaches(g.edges, r, a, k);
      } else {
        RankedReaches(g.edges, r, b, k);
      }
    }
  }

  lemma MovedEdgeRanked(g: Graph, r: map<NodeId, int>, top: int, a: NodeId, b: NodeId, e: Edge)
    requires NoDangling(g) && Ranked(g.edges, r) && r.Keys == Ids(g.nodes) && a in r && b in r && r[b] < r[a]
    requires forall k :: k in r ==> 0 <= r[k] < top
    requires !Detour(g.edges, a, b) && e in MovedEdges(g.edges, a, b)
    ensures var q := MovedRank(g, r, top, a, b); e.src in q && e.dst in q && q[e.src] < q[e.dst]
  {
    var d := Downstream(g, a, b);
    MovedEdge(g.edges, a, b, e);
    if e == NextEdge(a, b) {
    } else if e == NextEdge(e.src, a) && HasEdge(g.edges, e.src, b) {
      var f :| f in g.edges && f.src == e.src && f.dst == b;
      if e.src in d { DownstreamEnds(g, r, a, b, f); }
    } else if e == NextEdge(b, e.dst) && HasEdge(g.edges, a, e.dst) {
      var f :| f in g.edges && f.src == a && f.dst == e.dst;
      DownstreamStep(g, a, b, f);
    } else {
      if e.src in d { DownstreamEnds(g, r, a, b, e); }
      if e.dst != a && (e.src == b || e.src in d) { DownstreamStep(g, a, b, e); }
    }
  }

  /** The rewritten graph has no cycle exactly when no path from b to a passes
      through a third node. */
  lemma MoveAcyclic(g: Graph, a: NodeId, b: NodeId)
    requires Misordered(g, a, b)
    ensures Acyclic(MovedEdges(g.edges, a, b)) <==> !Detour(g.edges, a, b)
  {
    if Detour(g.edges, a, b) {
      DetourCycles(g, a, b);
    } else {
      var r := SortRank(g, a, b);
      var q := MovedRank(g, r, |KahnOrder(g)|, a, b);
      forall e | e in MovedEdges(g.edges, a, b) ensures e.src in q && e.dst in q && q[e.src] < q[e.dst] {
        MovedEdgeRanked(g, r, |KahnOrder(g)|, a, b, e);
      }
      RankedAcyclic(MovedEdges(g.edges, a, b), q);
    }
  }

  // ---- The start -------------------------------------------------------------------

  lemma IncomingFrom(es: seq<Edge>, id: NodeId) returns (e: Edge)
    requires HasIncoming(es, id)
    ensures e in es && e.dst == id && HasEdge(es, e.src, id)
  {
    e :| e in es && e.dst == id;
  }

  lemma MovedIncoming(g: Graph, a: NodeId, b: NodeId, id: NodeId)
    requires Misordered(g, a, b) && id != a
    ensures HasIncoming(MovedEdges(g.edges, a, b), id) <==> id == b || HasIncoming(g.edges, id)
  {
    var es := MovedEdges(g.edges, a, b);
    if HasIncoming(es, id) {
      var e := IncomingFrom(es, id);
      MovedEdge(g.edges, a, b, e);
    }
    if id == b {
      MovedEdge(g.edges, a, b, NextEdge(a, b));
    } else if HasIncoming(g.edges, id) {
      var e := IncomingFrom(g.edges, id);
      MovedEdge(g.edges, a, b, e);
      MovedEdge(g.edges, a, b, NextEdge(b, id));
    }
  }

  lemma StartIsNotA(g: Graph, a: NodeId, b: NodeId)
    requires Misordered(g, a, b)
    ensures a != Start(g)
  {
    var r := SortRank(g, a, b);
    SingleStartReachesAll(g);
    if a == Start(g) {
      RankedReaches(g.edges, r, a, b);
    }
  }

  // When b was the start and no detour exists, nothing but b led to a.
  lemma OnlyBLeadsToA(g: Graph, a: NodeId, b: NodeId, e: Edge)
    requires Misordered(g, a, b) && !Detour(g.edges, a, b) && b == Start(g)
    ensures !(e in g.edges && e.dst == a && e.src != b && e.src != a)
  {
    if e in g.edges && e.dst == a && e.src != b && e.src != a {
      SingleStartReachesAll(g);
      assert HasEdge(g.edges, e.src, a);
      ReachesSelf(g.edges, e.src);
      ReachesStep(g.edges, e.src, e.src, a);
    }
  }

  // a keeps an incoming edge unless b was the start.
  lemma MovedIncomingA(g: Graph, a: NodeId, b: NodeId)
    requires Misordered(g, a, b) && !Detour(g.edges, a, b)
    ensures HasIncoming(MovedEdges(g.edges, a, b), a) <==> b != Start(g)
  {
    var r := SortRank(g, a, b);
    StartIs(g);
    if b != Start(g) {
      var e := IncomingFrom(g.edges, b);
      MovedEdge(g.edges, a, b, NextEdge(e.src, a));
    } else {
      forall e | e in MovedEdges(g.edges, a, b) ensures e.dst != a {
        MovedEdge(g.edges, a, b, e);
        OnlyBLeadsToA(g, a, b, e);
      }
    }
  }

  // No two node entries share an id.
  ghost predicate OneEntryEach(ns: seq<Node>) {
    forall i, j :: 0 <= i < j < |ns| ==> ns[i].id != ns[j].id
  }

  lemma {:induction false} OnlyStart(ns: seq<Node>, es: seq<Edge>, only: NodeId)
    requires OneEntryEach(ns) && forall id :: id in Ids(ns) ==> (HasIncoming(es, id) <==> id != only)
    ensures StartsOf(ns, es) == if only in Ids(ns) then [only] else []
    decreases |ns|
  {
    if ns != [] {
      var front, last := ns[..|ns| - 1], ns[|ns| - 1];
      IdsAppend(front, last);
      assert ns == front + [last];
      OnlyStart(front, es, only);
      if last.id == only {
        forall m | m in front ensures m.id != only {
          var i :| 0 <= i < |front| && front[i] == m;
          assert ns[i].id != ns[|front|].id;
        }
        assert only !in Ids(front);
      } else {
        assert StartsOf(ns, es) == StartsOf(front, es) + [];
      }
    }
  }

  lemma MoveStart(g: Graph, a: NodeId, b: NodeId)
    requires Misordered(g, a, b) && !Detour(g.edges, a, b) && OneEntryEach(g.nodes)
    ensures Starts(Moved(g, a, b)) == [if b == Start(g) then a else Start(g)]
  {
    StartIs(g);
    StartIsNotA(g, a, b);
    MovedIncomingA(g, a, b);
    var only := if b == Start(g) then a else Start(g);
    LiveAll(Ids(g.nodes), g.edges);
    KahnCorrect(g);
    assert a in Elems(KahnOrder(g));
    forall id | id in Ids(g.nodes)
      ensures HasIncoming(MovedEdges(g.edges, a, b), id) <==> id != only
    {
      if id != a {
        MovedIncoming(g, a, b, id);
      }
    }
    OnlyStart(g.nodes, MovedEdges(g.edges, a, b), only);
  }

  // ---- Duplicate edges -------------------------------------------------------------

  // The added edges collide: a double edge is moved, or a and b already share a neighbour.
  ghost predicate Collides(es: seq<Edge>, a: NodeId, b: NodeId) {
    || !NoDup(Preds(es, b, a))
    || !NoDup(Succs(es, a, b))
    || (exists e :: e in es && e.dst == a && e.cond == None && HasEdge(es, e.src, b))
    || (exists e :: e in es && e.src == b && e.cond == None && HasEdge(es, a, e.dst))
  }

  lemma NoDuplicatesJoin3(k: seq<Edge>, p: seq<Edge>, m: Edge, s: seq<Edge>)
    requires forall e :: e in p ==> !SameKey(e, m)
    requires forall e, f :: e in p && f in s ==> !SameKey(e, f)
    requires forall e :: e in k ==> !SameKey(e, m)
    requires forall e :: e in s ==> !SameKey(m, e)
    ensures NoDuplicates(k + p + [m] + s) <==>
      && NoDuplicates(k) && NoDuplicates(p) && NoDuplicates(s)
      && (forall e, f :: e in k && f in p ==> !SameKey(e, f))
      && (forall e, f :: e in k && f in s ==> !SameKey(e, f))
  {
    NoDuplicatesJoin(k, p);
    NoDuplicatesJoin(k + p, [m]);
    NoDuplicatesJoin(k + p + [m], s);
    assert NoDuplicates([m]);
    assert forall e :: e in k + p + [m] <==> e in k || e in p || e == m;
  }

  lemma KeptCollisions(g: Graph, a: NodeId, b: NodeId, r: map<NodeId, int>)
    requires Ranked(g.edges, r) && a in r && b in r && r[b] < r[a]
    ensures var es := g.edges; var k := Apart(es, a, b);
      && ((exists e, f :: e in k && f in Into(Preds(es, b, a), a) && SameKey(e, f)) <==>
          exists e :: e in es && e.dst == a && e.cond == None && HasEdge(es, e.src, b))
      && ((exists e, f :: e in k && f in OutOf(b, Succs(es, a, b)) && SameKey(e, f)) <==>
          exists e :: e in es && e.src == b && e.cond == None && HasEdge(es, a, e.dst))
  {
    var es := g.edges;
    var k, p, s := Apart(es, a, b), Into(Preds(es, b, a), a), OutOf(b, Succs(es, a, b));
    forall e | e in es && e.dst == a && e.cond == None && HasEdge(es, e.src, b)
      ensures exists e', f :: e' in k && f in p && SameKey(e', f)
    {
      assert e in k && NextEdge(e.src, a) in p && SameKey(e, NextEdge(e.src, a));
    }
    forall e | e in es && e.src == b && e.cond == None && HasEdge(es, a, e.dst)
      ensures exists e', f :: e' in k && f in s && SameKey(e', f)
    {
      assert e in k && NextEdge(b, e.dst) in s && SameKey(e, NextEdge(b, e.dst));
    }
  }

  lemma MoveNoDuplicates(g: Graph, a: NodeId, b: NodeId)
    requires Misordered(g, a, b)
    ensures NoDuplicates(MovedEdges(g.edges, a, b)) <==> !Collides(g.edges, a, b)
  {
    var es := g.edges;
    var r := SortRank(g, a, b);
    var k, p, s := Apart(es, a, b), Into(Preds(es, b, a), a), OutOf(b, Succs(es, a, b));
    IntoNoDuplicates(Preds(es, b, a), a);
    OutOfNoDuplicates(b, Succs(es, a, b));
    NoDuplicatesJoin3(k, p, NextEdge(a, b), s);
    KeptCollisions(g, a, b, r);
  }

  lemma MovedInside(g: Graph, a: NodeId, b: NodeId)
    requires Misordered(g, a, b)
    ensures NoDangling(Moved(g, a, b))
  {
    var r := SortRank(g, a, b);
    forall e | e in MovedEdges(g.edges, a, b) ensures e.src in Ids(g.nodes) && e.dst in Ids(g.nodes) {
      MovedEdge(g.edges, a, b, e);
    }
  }

  /** MOVE_NODE yields a valid graph exactly when b has no detour to a and none
      of the edges it adds is already there. */
  lemma MoveValid(g: Graph, a: NodeId, b: NodeId)
    requires Misordered(g, a, b) && OneEntryEach(g.nodes)
    ensures ValidDag(Moved(g, a, b)) <==> !Detour(g.edges, a, b) && !Collides(g.edges, a, b)
  {
    MovedInside(g, a, b);
    MoveAcyclic(g, a, b);
    MoveNoDuplicates(g, a, b);
    if !Detour(g.edges, a, b) {
      MoveStart(g, a, b);
    }
  }

  // ---- Order and runs --------------------------------------------------------------

  /** a precedes b in every topological order of the result. */
  lemma MovePrecedes(g: Graph, a: NodeId, b: NodeId, order: seq<NodeId>)
    requires Misordered(g, a, b) && TopologicalOrder(Moved(g, a, b), order)
    ensures a in order && b in order && IndexOf(order, a) < IndexOf(order, b)
  {
    var h := Moved(g, a, b);
    var r := SortRank(g, a, b);
    MovedEdge(g.edges, a, b, NextEdge(a, b));
    assert NextEdge(a, b) in Live(h);
    assert b in Elems(order);
    ForwardEdge(Live(h), order, NextEdge(a, b));
  }

  lemma MovedStepsIntoB(g: Graph, a: NodeId, b: NodeId, x: Case, p: (NodeId, NodeId))
    requires a != b && p in Steps(Moved(g, a, b), x) && p.1 == b
    requires forall e :: e in g.edges ==> e.src != e.dst
    ensures p.0 == a
  {
    var e :| e in MovedEdges(g.edges, a, b) && p == (e.src, e.dst);
    MovedEdge(g.edges, a, b, e);
  }

  /** Every run that visits b has visited a. */
  lemma MoveReachesBoth(g: Graph, a: NodeId, b: NodeId, x: Case)
    requires Misordered(g, a, b) && OneEntryEach(g.nodes) && ValidDag(Moved(g, a, b))
    requires b in Reached(Moved(g, a, b), x)
    ensures a in Reached(Moved(g, a, b), x)
  {
    var h := Moved(g, a, b);
    var r := SortRank(g, a, b);
    MoveValid(g, a, b);
    MoveStart(g, a, b);
    forall p | p in Steps(h, x) && p.1 == b ensures p.0 == a { MovedStepsIntoB(g, a, b, x, p); }
    ReachedLeast(h, x);
    EnteredFrom(Steps(h, x), Start(h), Reached(h, x), a, b);
  }

  /** After a valid move the ordering rule holds of a case exactly unless the
      prerequisite is a form the case skips on its way to b. */
  lemma MoveRestoresOrder(g: Graph, a: NodeId, b: NodeId, x: Case)
    requires Misordered(g, a, b) && OneEntryEach(g.nodes) && ValidDag(Moved(g, a, b))
    requires a in Ids(g.nodes) && b in Ids(g.nodes)
    ensures OutcomeOf(Moved(g, a, b), x, [Constraint(Some(a), Some(b))]).orderOk <==>
      !(b in RunOf(Moved(g, a, b), x).path && Skipped(ImplOf(g.nodes, a), x))
  {
    var h := Moved(g, a, b);
    if b in Reached(h, x) {
      MoveReachesBoth(g, a, b, x);
    }
    SortedIds(h);
    MovePrecedes(g, a, b, KahnOrder(h));
    OrderVerdict(h, x, a, b);
  }
}
