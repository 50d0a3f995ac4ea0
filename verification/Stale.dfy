/** Two lists of ordering rules that the loop of moves gets wrong
    (services/patcher/patcher.py, lines 200-232), with the order the sort really
    gives. */
module Stale {
  import opened Graphs
  import opened Kahn
  import opened Dag
  import opened Rewiring
  import opened Reorder
  import opened Ordering

  // ---- A list gone stale -------------------------------------------------------------------

  // 0 leads to 1 and to 2, and 2 to 3.
  function Fork(): Graph {
    Graph([Node(0, Plain), Node(1, Plain), Node(2, Plain), Node(3, Plain)],
      [NextEdge(0, 1), NextEdge(0, 2), NextEdge(2, 3)])
  }

  lemma NextKey(ns: seq<Node>, n: Node)
    requires n.id !in Ids(ns)
    ensures Keys(ns + [n]) == Keys(ns) + [n.id] && Ids(ns + [n]) == Ids(ns) + {n.id}
  {
    IdsAppend(ns, n);
    assert (ns + [n])[..|ns|] == ns;
  }

  lemma TwoKeys(a: Node, b: Node)
    requires a.id != b.id
    ensures Keys([a, b]) == [a.id, b.id] && Ids([a, b]) == {a.id, b.id}
  {
    assert [a, b] == [a] + [b] && [a][..0] == [] && Keys([a]) == [a.id];
    NextKey([a], b);
  }

  lemma FourKeys(a: Node, b: Node, c: Node, d: Node)
    requires a.id != b.id && c.id !in {a.id, b.id} && d.id !in {a.id, b.id, c.id}
    ensures Keys([a, b, c, d]) == [a.id, b.id, c.id, d.id] && Ids([a, b, c, d]) == {a.id, b.id, c.id, d.id}
  {
    TwoKeys(a, b);
    hide Keys, Ids;
    NextKey([a, b], c);
    assert [a, b, c] == [a, b] + [c];
    NextKey([a, b, c], d);
    assert [a, b, c, d] == [a, b, c] + [d];
  }

  lemma ForkIds()
    ensures Ids(Fork().nodes) == {0, 1, 2, 3} && Keys(Fork().nodes) == [0, 1, 2, 3] && Live(Fork()) == Fork().edges
  {
    hide Keys, Ids, LiveEdges;
    FourKeys(Node(0, Plain), Node(1, Plain), Node(2, Plain), Node(3, Plain));
    LiveAll(Ids(Fork().nodes), Fork().edges);
  }

  lemma ForkTargets()
    ensures var es := Fork().edges;
      Targets(es, 0) == [1, 2] && Targets(es, 1) == [] && Targets(es, 2) == [3] && Targets(es, 3) == []
  {
    var es := Fork().edges;
    assert es[..2][..1][..0] == [];
    forall id ensures Targets(es[..2][..1], id) == if id == 0 then [1] else [] {}
    forall id ensures Targets(es[..2], id) == if id == 0 then [1, 2] else [] {}
  }

  lemma ForkInDegrees()
    ensures InDegrees({0, 1, 2, 3}, Fork().edges) == ForkDegrees(0)
  {
    var es := Fork().edges;
    assert es[..2][..1][..0] == [];
    forall id ensures Pending(es[..2][..1], id, {}) == if id == 1 then 1 else 0 {}
    forall id ensures Pending(es[..2], id, {}) == if id == 1 || id == 2 then 1 else 0 {}
    forall id ensures Pending(es, id, {}) == if id == 1 || id == 2 || id == 3 then 1 else 0 {}
  }

  // The in-degrees after n nodes have been emitted.
  function ForkDegrees(n: nat): map<NodeId, int> {
    map[0 := 0, 1 := if n < 1 then 1 else 0, 2 := if n < 1 then 1 else 0, 3 := if n < 3 then 1 else 0]
  }

  lemma ForkZero()
    ensures ZeroIn([0, 1, 2, 3], ForkDegrees(0)) == [0]
  {
    hide ZeroIn;
    var ks: seq<NodeId> := [0, 1, 2, 3];
    assert forall k :: k in ks <==> k in {0, 1, 2, 3};
    OnlyOne(ZeroIn(ks, ForkDegrees(0)), 0);
  }

  lemma ForkStart()
    ensures InitialSorting(Fork()) == Sorting(ForkDegrees(0), [0])
  {
    ForkIds();
    ForkInDegrees();
    ForkZero();
    hide InDegrees, Keys, LiveEdges, ZeroIn;
  }

  lemma OnlyOne(r: seq<NodeId>, a: NodeId)
    requires NoDup(r) && forall k :: k in r <==> k == a
    ensures r == [a]
  {
    NoDupCard(r);
    assert Elems(r) == {a};
    assert |r| == 1 && r[0] in r;
  }

  lemma SortNext(es: seq<Edge>, ids: set<NodeId>, s: Sorting, order: seq<NodeId>, t: Sorting)
    requires SortInv(es, ids, s, order) && s.queue != []
    requires forall k :: k in Targets(es, s.queue[0]) ==> k in s.indeg
    requires t == Relax(Targets(es, s.queue[0]), s.(queue := s.queue[1..]))
    ensures SortInv(es, ids, t, order + [s.queue[0]])
    ensures SortFrom(es, ids, s, order) == SortFrom(es, ids, t, order + [s.queue[0]])
  {
    SortStep(es, ids, s, order);
  }

  lemma RelaxOne(k: NodeId, s: Sorting)
    requires k in s.indeg
    ensures Relax([k], s) == Lower(s, k)
  {
    assert [k][1..] == [];
  }

  lemma RelaxTwo(j: NodeId, k: NodeId, s: Sorting)
    requires j in s.indeg && k in s.indeg
    ensures Relax([j, k], s) == Lower(Lower(s, j), k)
  {
    assert [j, k][1..] == [k];
    RelaxOne(k, Lower(s, j));
  }

  lemma ForkRelaxed()
    ensures Relax([1, 2], Sorting(ForkDegrees(0), [])) == Sorting(ForkDegrees(1), [1, 2])
    ensures Relax([], Sorting(ForkDegrees(1), [2])) == Sorting(ForkDegrees(2), [2])
    ensures Relax([3], Sorting(ForkDegrees(2), [])) == Sorting(ForkDegrees(3), [3])
    ensures Relax([], Sorting(ForkDegrees(3), [])) == Sorting(ForkDegrees(4), [])
  {
    RelaxTwo(1, 2, Sorting(ForkDegrees(0), []));
    RelaxOne(3, Sorting(ForkDegrees(2), []));
  }

  lemma ForkSorted()
    ensures KahnOrder(Fork()) == [0, 1, 2, 3]
  {
    hide Targets, InDegrees, ZeroIn, LiveEdges, SortInv, Relax, Lower, InitialSorting;
    var es, ids := Fork().edges, Ids(Fork().nodes);
    ForkIds();
    ForkTargets();
    ForkStart();
    InitialInv(Fork());
    ForkRelaxed();
    assert [1, 2][1..] == [2] && [0][1..] == [] && [2][1..] == [] && [3][1..] == [];
    var s0, s1 := Sorting(ForkDegrees(0), [0]), Sorting(ForkDegrees(1), [1, 2]);
    var s2, s3 := Sorting(ForkDegrees(2), [2]), Sorting(ForkDegrees(3), [3]);
    assert InitialSorting(Fork()) == s0;
    ForkEmits(es, ids, s0, s1, s2, s3);
  }

  lemma ForkEmits(es: seq<Edge>, ids: set<NodeId>, s0: Sorting, s1: Sorting, s2: Sorting, s3: Sorting)
    requires es == Fork().edges && SortInv(es, ids, s0, [])
    requires s0 == Sorting(ForkDegrees(0), [0]) && s1 == Sorting(ForkDegrees(1), [1, 2])
    requires s2 == Sorting(ForkDegrees(2), [2]) && s3 == Sorting(ForkDegrees(3), [3])
    ensures SortFrom(es, ids, s0, []) == [0, 1, 2, 3]
  {
    hide Targets, SortInv, Relax, Lower;
    ForkTargets();
    ForkRelaxed();
    assert [1, 2][1..] == [2] && [0][1..] == [] && [2][1..] == [] && [3][1..] == [];
    var s4 := Sorting(ForkDegrees(4), []);
    SortNext(es, ids, s0, [], s1);
    assert [] + [0] == [0] && [0] + [1] == [0, 1] && [0, 1] + [2] == [0, 1, 2] && [0, 1, 2] + [3] == [0, 1, 2, 3];
    SortNext(es, ids, s1, [0], s2);
    SortNext(es, ids, s2, [0, 1], s3);
    SortNext(es, ids, s3, [0, 1, 2], s4);
  }

  lemma ForkIncoming(id: NodeId)
    ensures HasIncoming(Fork().edges, id) <==> id in {1, 2, 3}
  {
    ForkHas(0, 1);
    ForkHas(0, 2);
    ForkHas(2, 3);
  }

  lemma ForkStarts()
    ensures Starts(Fork()) == [0]
  {
    ForkIds();
    forall id { ForkIncoming(id); }
    hide HasIncoming, StartsOf, Keys, LiveEdges;
    OnlyStart(Fork().nodes, Fork().edges, 0);
  }

  lemma ForkEdges()
    ensures Closed(Fork().edges, {0, 1, 2, 3}) && NoDuplicates(Fork().edges)
    ensures Ranked(Fork().edges, map[0 := 0, 1 := 1, 2 := 1, 3 := 2])
  {
  }

  lemma ForkValid()
    ensures ValidDag(Fork())
  {
    hide StartsOf, Keys, LiveEdges, Acyclic, Ranked, Closed, NoDuplicates;
    ForkIds();
    ForkStarts();
    ForkEdges();
    RankedAcyclic(Fork().edges, map[0 := 0, 1 := 1, 2 := 1, 3 := 2]);
  }

  lemma ForkHas(u: NodeId, v: NodeId)
    ensures HasEdge(Fork().edges, u, v) <==> (u, v) in {(0, 1), (0, 2), (2, 3)}
  {
    var es := Fork().edges;
    assert es[0] in es && es[1] in es && es[2] in es;
  }

  lemma ForkPromoted()
    ensures Promoted([0, 1, 2, 3], 3, 1) == [0, 3, 1, 2]
  {
    var ids: seq<NodeId> := [0, 1, 2, 3];
    assert ids[..3] + ids[4..] == [0, 1, 2];
    assert IndexOf(ids, 3) == 3 && IndexOf([0, 1, 2], 1) == 1;
  }

  // The edges after the first move.
  lemma ForkMoved(e: Edge)
    ensures e in MovedEdges(Fork().edges, 3, 1) <==>
      e in [NextEdge(0, 2), NextEdge(2, 3), NextEdge(0, 3), NextEdge(3, 1)]
  {
    MovedEdge(Fork().edges, 3, 1, e);
    ForkHas(e.src, 1);
    ForkHas(3, e.dst);
    hide MovedEdges, HasEdge;
  }

  lemma ForkMoves()
    ensures var es := MovedEdges(Fork().edges, 3, 1);
      Acyclic(es) && Reaches(es, 2, 1) && Between(es, 2, 1)
  {
    hide MovedEdges, Acyclic;
    var es := MovedEdges(Fork().edges, 3, 1);
    var r := map[0 := 0, 2 := 1, 3 := 2, 1 := 3];
    forall e | e in es ensures e.src in r && e.dst in r && r[e.src] < r[e.dst] { ForkMoved(e); }
    RankedAcyclic(es, r);
    ForkMoved(NextEdge(2, 3));
    ForkMoved(NextEdge(3, 1));
    OneEdge(es, NextEdge(2, 3));
    OneEdge(es, NextEdge(3, 1));
    ReachesTrans(es, 2, 3, 1);
  }

  lemma ForkRules(p: Plan, q: Plan)
    requires p == Plan(Fork().edges, [0, 1, 2, 3]) && q == Plan(MovedEdges(Fork().edges, 3, 1), [0, 3, 1, 2])
    ensures ApplyRules(p, [(3, 1)]) == q && Moves(p, (3, 1))
    ensures ApplyRules(p, [(3, 1), (2, 1)]) == Plan(MovedEdges(q.es, 2, 1), Promoted(q.ids, 2, 1))
  {
    ForkPromoted();
    hide MovedEdges, Promoted;
    assert IndexOf(p.ids, 3) == 3 && IndexOf(p.ids, 1) == 1;
    assert IndexOf(q.ids, 2) == 3 && IndexOf(q.ids, 1) == 2;
    assert [(3, 1)][..0] == [] && [(3, 1), (2, 1)][..1] == [(3, 1)];
    assert ApplyRules(p, []) == p;
    assert ApplyRule(p, (3, 1)) == q;
  }

  /** The list the rules are judged by is sorted once. On this valid graph the
      first move is fine; the second rule already holds, but the list no longer
      shows it, and the move it asks for closes a cycle. */
  lemma StaleListCloses()
    ensures var g := Fork(); var p := Plan(g.edges, KahnOrder(g));
      && ValidDag(g) && Planned(g.nodes, p)
      && Acyclic(ApplyRules(p, [(3, 1)]).es) && Reaches(ApplyRules(p, [(3, 1)]).es, 2, 1)
      && !Acyclic(ApplyRules(p, [(3, 1), (2, 1)]).es)
  {
    hide KahnOrder, ValidDag, MovedEdges, Promoted, Acyclic, ApplyRules, Between, Tangled, Reaches, Keys, LiveEdges;
    var g := Fork();
    var p, q := Plan(g.edges, [0, 1, 2, 3]), Plan(MovedEdges(g.edges, 3, 1), [0, 3, 1, 2]);
    ForkIds();
    ForkSorted();
    ForkValid();
    ForkRules(p, q);
    ForkMoves();
    RuleStaysPlanned(g.nodes, p, (3, 1));
    StaleMove(g.nodes, q.es);
  }

  lemma StaleMove(ns: seq<Node>, es: seq<Edge>)
    requires Closed(es, Ids(ns)) && Acyclic(es) && Between(es, 2, 1)
    ensures !Acyclic(MovedEdges(es, 2, 1))
  {
    hide Acyclic, Between, MovedEdges, Tangled;
    var m := BetweenTangles(Graph(ns, es), 2, 1);
    TangledCycles(MovedEdges(es, 2, 1), 2, 1, m);
  }

  // ---- A rule that was only sorted right -----------------------------------------------------

  lemma {:induction false} QueueFirst(es: seq<Edge>, ids: set<NodeId>, s: Sorting, order: seq<NodeId>)
    requires SortInv(es, ids, s, order)
    ensures order + s.queue <= SortFrom(es, ids, s, order)
    decreases |ids| - |order|
  {
    hide SortInv, Relax;
    if s.queue != [] {
      SortStep(es, ids, s, order);
      var t := Relax(Targets(es, s.queue[0]), s.(queue := s.queue[1..]));
      QueueFirst(es, ids, t, order + [s.queue[0]]);
      RelaxQueue(Targets(es, s.queue[0]), s.(queue := s.queue[1..]));
      assert order + s.queue <= order + [s.queue[0]] + t.queue;
    } else {
      assert order + [] == order;
    }
  }

  // The only node without incoming edges is queued first.
  lemma StartQueue(g: Graph, start: NodeId)
    requires start in Ids(g.nodes)
    requires forall id :: id in Ids(g.nodes) ==> (HasIncoming(Live(g), id) <==> id != start)
    ensures InitialSorting(g).queue == [start]
  {
    var q := InitialSorting(g).queue;
    forall k | k in Ids(g.nodes) ensures k in q <==> k == start { PendingZero(Live(g), k, {}); }
    OnlyOne(q, start);
  }

  lemma FirstNewly(ts: seq<NodeId>, s: Sorting)
    requires ts != [] && (forall t :: t in ts ==> t in s.indeg) && s.indeg[ts[0]] == 1
    ensures Newly(ts, s) != [] && Newly(ts, s)[0] == ts[0]
  {
  }

  // The queue after the start has been emitted.
  lemma FirstRelaxed(es: seq<Edge>, ids: set<NodeId>, start: NodeId, m: NodeId, s: Sorting)
    requires SortInv(es, ids, s, []) && s.queue == [start] && Targets(es, start) != [] && Targets(es, start)[0] == m
    requires m in s.indeg && s.indeg[m] == 1
    ensures forall k :: k in Targets(es, start) ==> k in s.indeg
    ensures var t := Relax(Targets(es, start), s.(queue := []));
      SortInv(es, ids, t, [start]) && SortFrom(es, ids, s, []) == SortFrom(es, ids, t, [start]) && [m] <= t.queue
  {
    SortStep(es, ids, s, []);
    assert s.queue[1..] == [] && [] + [start] == [start];
    var ts, rest := Targets(es, start), s.(queue := []);
    SortNext(es, ids, s, [], Relax(ts, rest));
    hide SortInv, SortFrom, Targets, Relax, Newly;
    RelaxQueue(ts, rest);
    FirstNewly(ts, rest);
  }

  // Its first target is emitted second if nothing else leads there.
  lemma FirstEmitted(g: Graph, start: NodeId, m: NodeId)
    requires InitialSorting(g).queue == [start] && Targets(Live(g), start) != [] && Targets(Live(g), start)[0] == m
    requires m in Ids(g.nodes) && Pending(Live(g), m, {}) == 1
    ensures [start, m] <= KahnOrder(g)
  {
    var es, ids, s := Live(g), Ids(g.nodes), InitialSorting(g);
    InitialInv(g);
    hide SortInv, Relax, LiveEdges, Targets, Pending, SortFrom;
    FirstRelaxed(es, ids, start, m, s);
    var t := Relax(Targets(es, start), s.(queue := []));
    QueueFirst(es, ids, t, [start]);
    Extends(KahnOrder(g), start, m, t.queue);
  }

  lemma Extends(order: seq<NodeId>, s: NodeId, m: NodeId, queue: seq<NodeId>)
    requires [s] + queue <= order && [m] <= queue
    ensures [s, m] <= order
  {
    assert ([s] + queue)[1] == queue[0] == m;
  }

  // 0 leads to 1, 2 and 3, and 3 to 4.
  function Fan(): seq<Edge> { [NextEdge(0, 1), NextEdge(0, 2), NextEdge(0, 3), NextEdge(3, 4)] }

  // The same after 4 has been moved before 1.
  function FanMoved(): seq<Edge> { [NextEdge(0, 2), NextEdge(0, 3), NextEdge(3, 4), NextEdge(0, 4), NextEdge(4, 1)] }

  function FiveNodes(): seq<Node> { [Node(0, Plain), Node(1, Plain), Node(2, Plain), Node(3, Plain), Node(4, Plain)] }

  lemma FiveIds()
    ensures Ids(FiveNodes()) == {0, 1, 2, 3, 4}
  {
    var ns := FiveNodes();
    assert ns[0] in ns && ns[1] in ns && ns[2] in ns && ns[3] in ns && ns[4] in ns;
  }

  lemma TargetSnoc(es: seq<Edge>, e: Edge, a: NodeId)
    ensures Targets(es + [e], a) == if e.src == a then Targets(es, a) + [e.dst] else Targets(es, a)
  {
    assert (es + [e])[..|es|] == es;
    assert Targets(es, a) + [] == Targets(es, a);
  }

  lemma PendingSnoc(es: seq<Edge>, e: Edge, a: NodeId)
    ensures Pending(es + [e], a, {}) == Pending(es, a, {}) + if e.dst == a then 1 else 0
  {
    assert (es + [e])[..|es|] == es;
  }

  lemma ApartSnoc(es: seq<Edge>, e: Edge, a: NodeId, b: NodeId)
    ensures Apart(es + [e], a, b) ==
      if e.dst != b && e.src != a && !(e.src == b && e.dst == a) then Apart(es, a, b) + [e] else Apart(es, a, b)
  {
    assert (es + [e])[..|es|] == es;
  }

  lemma PredSnoc(es: seq<Edge>, e: Edge, a: NodeId, b: NodeId)
    ensures Preds(es + [e], b, a) == if e.dst == b && e.src != a then Preds(es, b, a) + [e.src] else Preds(es, b, a)
  {
    assert (es + [e])[..|es|] == es;
    assert Preds(es, b, a) + [] == Preds(es, b, a);
  }

  lemma SuccSnoc(es: seq<Edge>, e: Edge, a: NodeId, b: NodeId)
    ensures Succs(es + [e], a, b) == if e.src == a && e.dst != b then Succs(es, a, b) + [e.dst] else Succs(es, a, b)
  {
    assert (es + [e])[..|es|] == es;
    assert Succs(es, a, b) + [] == Succs(es, a, b);
  }

  lemma NoEdge(a: NodeId, b: NodeId)
    ensures Targets([], a) == [] && Pending([], a, {}) == 0
    ensures Apart([], a, b) == [] && Preds([], b, a) == [] && Succs([], a, b) == []
  {
  }

  lemma FanTargets()
    ensures Targets(Fan(), 0) == [1, 2, 3]
  {
    hide Targets;
    var e1, e2, e3, e4 := NextEdge(0, 1), NextEdge(0, 2), NextEdge(0, 3), NextEdge(3, 4);
    NoEdge(0, 0);
    assert [] + [e1] == [e1];
    TargetSnoc([], e1, 0);
    assert [e1] + [e2] == [e1, e2];
    TargetSnoc([e1], e2, 0);
    assert [e1, e2] + [e3] == [e1, e2, e3];
    TargetSnoc([e1, e2], e3, 0);
    assert [e1, e2, e3] + [e4] == [e1, e2, e3, e4];
    TargetSnoc([e1, e2, e3], e4, 0);
  }

  lemma FanPending()
    ensures Pending(Fan(), 1, {}) == 1
  {
    hide Pending;
    var e1, e2, e3, e4 := NextEdge(0, 1), NextEdge(0, 2), NextEdge(0, 3), NextEdge(3, 4);
    NoEdge(1, 1);
    assert [] + [e1] == [e1];
    PendingSnoc([], e1, 1);
    assert [e1] + [e2] == [e1, e2];
    PendingSnoc([e1], e2, 1);
    assert [e1, e2] + [e3] == [e1, e2, e3];
    PendingSnoc([e1, e2], e3, 1);
    assert [e1, e2, e3] + [e4] == [e1, e2, e3, e4];
    PendingSnoc([e1, e2, e3], e4, 1);
  }

  lemma FanApartHalf()
    ensures Apart([NextEdge(0, 1), NextEdge(0, 2)], 4, 1) == [NextEdge(0, 2)]
  {
    hide Apart;
    var e1, e2 := NextEdge(0, 1), NextEdge(0, 2);
    NoEdge(4, 1);
    assert [] + [e1] == [e1];
    ApartSnoc([], e1, 4, 1);
    assert [e1] + [e2] == [e1, e2];
    ApartSnoc([e1], e2, 4, 1);
  }

  lemma FanApart()
    ensures Apart(Fan(), 4, 1) == [NextEdge(0, 2), NextEdge(0, 3), NextEdge(3, 4)]
  {
    hide Apart;
    FanApartHalf();
    var half, e3, e4 := [NextEdge(0, 1), NextEdge(0, 2)], NextEdge(0, 3), NextEdge(3, 4);
    ApartSnoc(half, e3, 4, 1);
    ApartSnoc(half + [e3], e4, 4, 1);
    assert half + [e3] + [e4] == Fan();
  }

  lemma FanPreds()
    ensures Preds(Fan(), 1, 4) == [0]
  {
    hide Preds;
    var e1, e2, e3, e4 := NextEdge(0, 1), NextEdge(0, 2), NextEdge(0, 3), NextEdge(3, 4);
    NoEdge(4, 1);
    assert [] + [e1] == [e1];
    PredSnoc([], e1, 4, 1);
    assert [e1] + [e2] == [e1, e2];
    PredSnoc([e1], e2, 4, 1);
    assert [e1, e2] + [e3] == [e1, e2, e3];
    PredSnoc([e1, e2], e3, 4, 1);
    assert [e1, e2, e3] + [e4] == [e1, e2, e3, e4];
    PredSnoc([e1, e2, e3], e4, 4, 1);
  }

  lemma FanSuccs()
    ensures Succs(Fan(), 4, 1) == []
  {
    hide Succs;
    var e1, e2, e3, e4 := NextEdge(0, 1), NextEdge(0, 2), NextEdge(0, 3), NextEdge(3, 4);
    NoEdge(4, 1);
    assert [] + [e1] == [e1];
    SuccSnoc([], e1, 4, 1);
    assert [e1] + [e2] == [e1, e2];
    SuccSnoc([e1], e2, 4, 1);
    assert [e1, e2] + [e3] == [e1, e2, e3];
    SuccSnoc([e1, e2], e3, 4, 1);
    assert [e1, e2, e3] + [e4] == [e1, e2, e3, e4];
    SuccSnoc([e1, e2, e3], e4, 4, 1);
  }

  lemma FanIsMoved()
    ensures MovedEdges(Fan(), 4, 1) == FanMoved()
  {
    FanApart();
    FanPreds();
    FanSuccs();
    hide Apart, Preds, Succs;
    assert Into([0], 4) == [NextEdge(0, 4)];
    assert OutOf(1, []) == [];
  }

  lemma FanMovedTargets()
    ensures Targets(FanMoved(), 0) == [2, 3, 4]
  {
    hide Targets;
    var e1, e2, e3, e4, e5 := NextEdge(0, 2), NextEdge(0, 3), NextEdge(3, 4), NextEdge(0, 4), NextEdge(4, 1);
    NoEdge(0, 0);
    assert [] + [e1] == [e1];
    TargetSnoc([], e1, 0);
    assert [e1] + [e2] == [e1, e2];
    TargetSnoc([e1], e2, 0);
    assert [e1, e2] + [e3] == [e1, e2, e3];
    TargetSnoc([e1, e2], e3, 0);
    assert [e1, e2, e3] + [e4] == [e1, e2, e3, e4];
    TargetSnoc([e1, e2, e3], e4, 0);
    assert [e1, e2, e3, e4] + [e5] == [e1, e2, e3, e4, e5];
    TargetSnoc([e1, e2, e3, e4], e5, 0);
  }

  lemma FanMovedPending()
    ensures Pending(FanMoved(), 2, {}) == 1
  {
    hide Pending;
    var e1, e2, e3, e4, e5 := NextEdge(0, 2), NextEdge(0, 3), NextEdge(3, 4), NextEdge(0, 4), NextEdge(4, 1);
    NoEdge(2, 2);
    assert [] + [e1] == [e1];
    PendingSnoc([], e1, 2);
    assert [e1] + [e2] == [e1, e2];
    PendingSnoc([e1], e2, 2);
    assert [e1, e2] + [e3] == [e1, e2, e3];
    PendingSnoc([e1, e2], e3, 2);
    assert [e1, e2, e3] + [e4] == [e1, e2, e3, e4];
    PendingSnoc([e1, e2, e3], e4, 2);
    assert [e1, e2, e3, e4] + [e5] == [e1, e2, e3, e4, e5];
    PendingSnoc([e1, e2, e3, e4], e5, 2);
  }

  // The sort of such a graph starts with 0 and the first target of 0.
  lemma SortStarts(es: seq<Edge>, m: NodeId)
    requires Closed(es, {0, 1, 2, 3, 4}) && m in {1, 2, 3, 4}
    requires forall id :: id in {0, 1, 2, 3, 4} ==> (HasIncoming(es, id) <==> id != 0)
    requires Targets(es, 0) != [] && Targets(es, 0)[0] == m && Pending(es, m, {}) == 1
    ensures [0, m] <= KahnOrder(Graph(FiveNodes(), es))
  {
    hide Targets, Pending, HasIncoming, KahnOrder, InitialSorting, LiveEdges;
    var g := Graph(FiveNodes(), es);
    FiveIds();
    LiveAll(Ids(g.nodes), es);
    StartQueue(g, 0);
    FirstEmitted(g, 0, m);
  }

  lemma FanIncoming(id: NodeId)
    requires id in {0, 1, 2, 3, 4}
    ensures HasIncoming(Fan(), id) <==> id != 0
    ensures HasIncoming(FanMoved(), id) <==> id != 0
  {
    var es, fs := Fan(), FanMoved();
    assert es[0] in es && es[1] in es && es[2] in es && es[3] in es;
    assert fs[0] in fs && fs[1] in fs && fs[2] in fs && fs[4] in fs;
  }

  lemma FanSorts()
    ensures [0, 1] <= KahnOrder(Graph(FiveNodes(), Fan())) && [0, 2] <= KahnOrder(Graph(FiveNodes(), FanMoved()))
  {
    hide HasIncoming, KahnOrder;
    forall id | id in {0, 1, 2, 3, 4} { FanIncoming(id); }
    FanTargets();
    FanPending();
    FanMovedTargets();
    FanMovedPending();
    SortStarts(Fan(), 1);
    SortStarts(FanMoved(), 2);
  }

  lemma FanRanked()
    ensures Ranked(Fan(), map[0 := 0, 1 := 1, 2 := 1, 3 := 1, 4 := 2]) && NoDuplicates(Fan())
    ensures Ranked(FanMoved(), map[0 := 0, 2 := 1, 3 := 1, 4 := 2, 1 := 3]) && Closed(Fan(), {0, 1, 2, 3, 4})
  {
  }

  lemma FanValid()
    ensures ValidDag(Graph(FiveNodes(), Fan())) && Acyclic(FanMoved()) && Closed(FanMoved(), Ids(FiveNodes()))
  {
    hide HasIncoming, Acyclic, StartsOf, Ranked;
    FiveIds();
    FanRanked();
    RankedAcyclic(Fan(), map[0 := 0, 1 := 1, 2 := 1, 3 := 1, 4 := 2]);
    RankedAcyclic(FanMoved(), map[0 := 0, 2 := 1, 3 := 1, 4 := 2, 1 := 3]);
    forall id | id in {0, 1, 2, 3, 4} { FanIncoming(id); }
    OnlyStart(FiveNodes(), Fan(), 0);
  }

  // The second node of a sort comes before every node but the first.
  lemma SecondFirst(order: seq<NodeId>, s: NodeId, u: NodeId, v: NodeId)
    requires [s, u] <= order && NoDup(order) && v in order && v !in {s, u}
    ensures u in order && IndexOf(order, u) < IndexOf(order, v)
  {
    assert order[0] == s && order[1] == u;
    assert u in order;
  }

  lemma FanOrders()
    ensures var before, after := KahnOrder(Graph(FiveNodes(), Fan())), KahnOrder(Graph(FiveNodes(), FanMoved()));
      && 1 in before && 2 in before && 4 in before && 1 in after && 2 in after
      && IndexOf(before, 1) < IndexOf(before, 2) && IndexOf(before, 1) < IndexOf(before, 4)
      && IndexOf(after, 2) < IndexOf(after, 1)
  {
    hide KahnOrder, LiveEdges, Acyclic;
    FiveIds();
    FanValid();
    FanSorts();
    var g, h := Graph(FiveNodes(), Fan()), Graph(FiveNodes(), FanMoved());
    FanSorted(g);
    FanSorted(h);
    SecondFirst(KahnOrder(g), 0, 1, 2);
    SecondFirst(KahnOrder(g), 0, 1, 4);
    SecondFirst(KahnOrder(h), 0, 2, 1);
  }

  lemma FanSorted(g: Graph)
    requires Closed(g.edges, Ids(g.nodes)) && Acyclic(g.edges) && Ids(g.nodes) == {0, 1, 2, 3, 4}
    ensures NoDup(KahnOrder(g)) && forall k :: k in {0, 1, 2, 3, 4} ==> k in KahnOrder(g)
  {
    hide KahnOrder, Acyclic;
    LiveAll(Ids(g.nodes), g.edges);
    KahnCorrect(g);
    assert forall k :: k in {0, 1, 2, 3, 4} ==> k in Elems(KahnOrder(g));
  }

  /** A rule that merely happened to be sorted right is neither acted on nor kept:
      "1 before 2" holds of the first sort, the move for "4 before 1" leaves a graph
      whose sort breaks it. */
  lemma SortedRuleLost()
    ensures var g := Graph(FiveNodes(), Fan()); var p := Plan(g.edges, KahnOrder(g));
      var h := Graph(g.nodes, ApplyRules(p, [(1, 2), (4, 1)]).es);
      && ValidDag(g) && 1 in p.ids && 2 in p.ids && IndexOf(p.ids, 1) < IndexOf(p.ids, 2)
      && Acyclic(h.edges) && 1 in KahnOrder(h) && 2 in KahnOrder(h)
      && IndexOf(KahnOrder(h), 2) < IndexOf(KahnOrder(h), 1)
  {
    hide KahnOrder, ValidDag, Acyclic, MovedEdges, Promoted;
    var p := Plan(Fan(), KahnOrder(Graph(FiveNodes(), Fan())));
    FanValid();
    FanOrders();
    FanIsMoved();
    var rules: seq<OrderRule> := [(1, 2), (4, 1)];
    assert rules[..1][..0] == [];
    assert ApplyRules(p, rules[..1][..0]) == p;
    assert ApplyRules(p, rules[..1]) == p;
    assert ApplyRules(p, rules).es == FanMoved();
  }
}
