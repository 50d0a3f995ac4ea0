/** The graph contract (services/workflow/interpreter.py, lines 49-84) and the
    dead-end check of the validator (services/regression/validator.py, lines 102-116). */
module Dag {
  import opened Wrappers
  import opened Graphs
  import opened Kahn

  datatype Invalid =
    | Dangling
    | DuplicateEdge
    | HasCycle(leftover: set<NodeId>)
    | StartCount(starts: seq<NodeId>)
    | Unreachable(orphans: set<NodeId>)

  ghost predicate NoDangling(g: Graph) { Closed(g.edges, Ids(g.nodes)) }

  predicate SameKey(e: Edge, f: Edge) { e.src == f.src && e.dst == f.dst && e.cond == f.cond }

  ghost predicate NoDuplicates(es: seq<Edge>) {
    forall i, j :: 0 <= i < j < |es| ==> !SameKey(es[i], es[j])
  }

  lemma NoDuplicatesJoin(a: seq<Edge>, b: seq<Edge>)
    ensures NoDuplicates(a + b) <==>
      NoDuplicates(a) && NoDuplicates(b) && forall e, f :: e in a && f in b ==> !SameKey(e, f)
  {
    if NoDuplicates(a + b) {
      forall i, j | 0 <= i < j < |a| ensures !SameKey(a[i], a[j]) { assert !SameKey((a + b)[i], (a + b)[j]); }
      forall i, j | 0 <= i < j < |b| ensures !SameKey(b[i], b[j]) {
        assert !SameKey((a + b)[|a| + i], (a + b)[|a| + j]);
      }
      forall e, f | e in a && f in b ensures !SameKey(e, f) {
        var i :| 0 <= i < |a| && a[i] == e;
        var j :| 0 <= j < |b| && b[j] == f;
        assert !SameKey((a + b)[i], (a + b)[|a| + j]);
      }
    }
  }

  predicate HasIncoming(es: seq<Edge>, id: NodeId) { exists e :: e in es && e.dst == id }

  // Node entries without an incoming edge, in file order.
  function StartsOf(ns: seq<Node>, es: seq<Edge>): (r: seq<NodeId>)
    ensures forall id :: id in r <==> id in Ids(ns) && !HasIncoming(es, id)
  {
    if ns == [] then [] else
      var last := ns[|ns| - 1];
      assert ns == ns[..|ns| - 1] + [last];
      StartsOf(ns[..|ns| - 1], es) + if HasIncoming(es, last.id) then [] else [last.id]
  }

  function Starts(g: Graph): seq<NodeId> { StartsOf(g.nodes, g.edges) }

  ghost predicate ValidDag(g: Graph) {
    NoDangling(g) && NoDuplicates(g.edges) && Acyclic(g.edges) && |Starts(g)| == 1
  }

  lemma SameStarts(ns: seq<Node>, es: seq<Edge>, fs: seq<Edge>)
    requires forall id :: id in Ids(ns) ==> HasIncoming(es, id) == HasIncoming(fs, id)
    ensures StartsOf(ns, es) == StartsOf(ns, fs)
  {
    if ns != [] {
      assert ns == ns[..|ns| - 1] + [ns[|ns| - 1]];
      SameStarts(ns[..|ns| - 1], es, fs);
    }
  }

  function Start(g: Graph): NodeId
    requires |Starts(g)| == 1
  {
    Starts(g)[0]
  }

  lemma StartIs(g: Graph)
    requires |Starts(g)| == 1
    ensures Start(g) in Ids(g.nodes) && !HasIncoming(g.edges, Start(g))
    ensures forall id :: id in Ids(g.nodes) && id != Start(g) ==> HasIncoming(g.edges, id)
  {
    assert Start(g) in Starts(g);
    forall id | id in Ids(g.nodes) && id != Start(g) ensures HasIncoming(g.edges, id) {
      assert id !in Starts(g);
    }
  }

  lemma RankOf(g: Graph) returns (r: map<NodeId, int>)
    requires NoDangling(g) && Acyclic(g.edges)
    ensures Ranked(g.edges, r) && r.Keys == Ids(g.nodes)
    ensures forall x :: x in r ==> 0 <= r[x] < |KahnOrder(g)|
  {
    LiveAll(Ids(g.nodes), g.edges);
    r := AcyclicHasRank(g);
  }

  lemma {:induction false} ReachedFromStart(g: Graph, r: map<NodeId, int>, id: NodeId)
    requires NoDangling(g) && |Starts(g)| == 1 && id in Ids(g.nodes)
    requires Ranked(g.edges, r) && forall x :: x in r ==> 0 <= r[x]
    ensures Reaches(g.edges, Start(g), id)
    decreases if id in r then r[id] else 0
  {
    StartIs(g);
    if id == Start(g) {
      ReachesSelf(g.edges, id);
    } else {
      var e :| e in g.edges && e.dst == id;
      ReachedFromStart(g, r, e.src);
      assert HasEdge(g.edges, e.src, id);
      ReachesStep(g.edges, Start(g), e.src, id);
    }
  }

  /** In a graph with one start and no cycle every node is reachable from the
      start, so the reachability check that follows can never fire. */
  lemma SingleStartReachesAll(g: Graph)
    requires NoDangling(g) && Acyclic(g.edges) && |Starts(g)| == 1
    ensures forall id :: id in Ids(g.nodes) ==> Reaches(g.edges, Start(g), id)
  {
    var r := RankOf(g);
    forall id | id in Ids(g.nodes) ensures Reaches(g.edges, Start(g), id) {
      ReachedFromStart(g, r, id);
    }
  }

  method CheckEdges(g: Graph) returns (bad: Option<Invalid>)
    ensures bad == Some(Dangling) <==> !NoDangling(g)
    ensures bad == Some(DuplicateEdge) <==> NoDangling(g) && !NoDuplicates(g.edges)
    ensures bad == None <==> NoDangling(g) && NoDuplicates(g.edges)
  {
    var ids := Ids(g.nodes);
    for i := 0 to |g.edges|
      invariant forall k :: 0 <= k < i ==> g.edges[k].src in ids && g.edges[k].dst in ids
    {
      if g.edges[i].src !in ids || g.edges[i].dst !in ids {
        assert g.edges[i] in g.edges;
        return Some(Dangling);
      }
    }
    var seen: set<(NodeId, NodeId, Option<Expr.Cond>)> := {};
    for i := 0 to |g.edges|
      invariant forall k, l :: 0 <= k < l < i ==> !SameKey(g.edges[k], g.edges[l])
      invariant forall k :: 0 <= k < i ==> (g.edges[k].src, g.edges[k].dst, g.edges[k].cond) in seen
      invariant forall t :: t in seen ==>
        exists k :: 0 <= k < i && t == (g.edges[k].src, g.edges[k].dst, g.edges[k].cond)
    {
      var key := (g.edges[i].src, g.edges[i].dst, g.edges[i].cond);
      if key in seen {
        ghost var k :| 0 <= k < i && key == (g.edges[k].src, g.edges[k].dst, g.edges[k].cond);
        assert SameKey(g.edges[k], g.edges[i]);
        return Some(DuplicateEdge);
      }
      seen := seen + {key};
    }
    bad := None;
  }

  // The depth-first walk from the start.
  method ReachableFrom(g: Graph, start: NodeId) returns (seen: set<NodeId>)
    requires NoDangling(g) && start in Ids(g.nodes)
    ensures forall id :: id in seen <==> Reaches(g.edges, start, id)
  {
    seen := {};
    var stack := [start];
    ReachesSelf(g.edges, start);
    while stack != []
      invariant seen <= Ids(g.nodes) && forall id :: id in stack ==> id in Ids(g.nodes)
      invariant forall id :: id in seen || id in stack ==> Reaches(g.edges, start, id)
      invariant forall e :: e in g.edges && e.src in seen ==> e.dst in seen || e.dst in stack
      invariant start in seen || start in stack
      decreases |Ids(g.nodes) - seen|, |stack|
    {
      var nid := stack[|stack| - 1];
      ghost var before := stack;
      stack := stack[..|stack| - 1];
      assert before == stack + [nid];
      if nid !in seen {
        assert Ids(g.nodes) - seen == (Ids(g.nodes) - (seen + {nid})) + {nid};
        seen := seen + {nid};
        var next := Targets(g.edges, nid);
        TargetsAre(g.edges, nid);
        forall m | m in next ensures m in Ids(g.nodes) && Reaches(g.edges, start, m) {
          assert HasEdge(g.edges, nid, m);
          ReachesStep(g.edges, start, nid, m);
        }
        stack := stack + next;
      }
    }
    forall id | Reaches(g.edges, start, id) ensures id in seen {
      var p :| PathFromTo(g.edges, p, start, id);
      StaysIn(g.edges, p, seen);
    }
  }

  lemma {:induction false} StaysIn(es: seq<Edge>, p: seq<NodeId>, s: set<NodeId>)
    requires IsPath(es, p) && p[0] in s
    requires forall e :: e in es && e.src in s ==> e.dst in s
    ensures p[|p| - 1] in s
    decreases |p|
  {
    if |p| > 1 {
      StaysIn(es, p[..|p| - 1], s);
      assert HasEdge(es, p[|p| - 2], p[|p| - 1]);
    }
  }

  method ValidateDag(g: Graph) returns (r: Result<seq<NodeId>, Invalid>)
    ensures r.Ok? <==> ValidDag(g)
    ensures r.Ok? ==> r.value == Starts(g)
    ensures r == Err(Dangling) <==> !NoDangling(g)
    ensures r == Err(DuplicateEdge) <==> NoDangling(g) && !NoDuplicates(g.edges)
    ensures r.Err? && r.error.HasCycle? <==> NoDangling(g) && NoDuplicates(g.edges) && !Acyclic(g.edges)
    ensures r.Err? && r.error.HasCycle? ==> CycleWithin(g.edges, r.error.leftover)
    ensures r == Err(StartCount(Starts(g))) <==>
      NoDangling(g) && NoDuplicates(g.edges) && Acyclic(g.edges) && |Starts(g)| != 1
    ensures r.Err? ==> !r.error.Unreachable?
  {
    var bad := CheckEdges(g);
    if bad.Some? {
      return Err(bad.value);
    }
    LiveAll(Ids(g.nodes), g.edges);
    var order := OrderedNodes(g);
    if order.Err? {
      return Err(HasCycle(order.error));
    }
    var starts := Starts(g);
    if |starts| != 1 {
      return Err(StartCount(starts));
    }
    StartIs(g);
    var seen := ReachableFrom(g, starts[0]);
    var orphans := Ids(g.nodes) - seen;
    r := if orphans != {} then Err(Unreachable(orphans)) else Ok(starts);
    SingleStartReachesAll(g);
  }

  // ---- Every branch reaches a terminal ---------------------------------------

  predicate Terminal(g: Graph, id: NodeId) { Targets(g.edges, id) == [] }

  predicate ReachesTerminal(g: Graph, id: NodeId, seen: set<NodeId>)
    requires NoDangling(g) && id in Ids(g.nodes) && seen <= Ids(g.nodes)
    decreases |Ids(g.nodes) - seen|
  {
    TargetsAre(g.edges, id);
    assert id !in seen ==> Ids(g.nodes) - seen == (Ids(g.nodes) - (seen + {id})) + {id};
    Terminal(g, id) ||
    (id !in seen && exists s :: s in Targets(g.edges, id) && ReachesTerminal(g, s, seen + {id}))
  }

  lemma {:induction false} RankedReachesTerminal(g: Graph, r: map<NodeId, int>, top: int, id: NodeId, seen: set<NodeId>)
    requires NoDangling(g) && id in Ids(g.nodes) && seen <= Ids(g.nodes)
    requires Ranked(g.edges, r) && r.Keys == Ids(g.nodes) && forall x :: x in r ==> r[x] < top
    requires forall x :: x in seen ==> r[x] < r[id]
    ensures ReachesTerminal(g, id, seen)
    decreases top - r[id]
  {
    TargetsAre(g.edges, id);
    if !Terminal(g, id) {
      var s := Targets(g.edges, id)[0];
      assert s in Targets(g.edges, id);
      RankedReachesTerminal(g, r, top, s, seen + {id});
    }
  }

  /** After the graph contract has passed, no node is a dead end: the
      validator's branches_reach_terminal check always succeeds. */
  lemma NoDeadEnds(g: Graph, id: NodeId)
    requires ValidDag(g) && id in Ids(g.nodes)
    ensures ReachesTerminal(g, id, {})
  {
    var r := RankOf(g);
    RankedReachesTerminal(g, r, |KahnOrder(g)|, id, {});
  }
}
