/** The topological sort (services/workflow/interpreter.py, lines 23-46). */
module Kahn {
  import opened Wrappers
  import opened Graphs

  // Edges with an unknown end are ignored by the sort.
  function LiveEdges(ids: set<NodeId>, es: seq<Edge>): (r: seq<Edge>)
    ensures forall e :: e in r <==> e in es && e.src in ids && e.dst in ids
  {
    if es == [] then [] else
      var last := es[|es| - 1];
      var front := es[..|es| - 1];
      assert es == front + [last];
      LiveEdges(ids, front) + if last.src in ids && last.dst in ids then [last] else []
  }

  function Live(g: Graph): seq<Edge> { LiveEdges(Ids(g.nodes), g.edges) }

  lemma LiveAll(ids: set<NodeId>, es: seq<Edge>)
    requires forall e :: e in es ==> e.src in ids && e.dst in ids
    ensures LiveEdges(ids, es) == es
  {
    if es != [] {
      assert es == es[..|es| - 1] + [es[|es| - 1]];
      LiveAll(ids, es[..|es| - 1]);
    }
  }

  // The adjacency list of one node, in edge order.
  function Targets(es: seq<Edge>, id: NodeId): seq<NodeId> {
    if es == [] then [] else
      Targets(es[..|es| - 1], id) + if es[|es| - 1].src == id then [es[|es| - 1].dst] else []
  }

  // How many edges into m come from nodes not yet emitted.
  function Pending(es: seq<Edge>, m: NodeId, done: set<NodeId>): nat {
    if es == [] then 0 else
      Pending(es[..|es| - 1], m, done) +
      if es[|es| - 1].dst == m && es[|es| - 1].src !in done then 1 else 0
  }

  datatype Sorting = Sorting(indeg: map<NodeId, int>, queue: seq<NodeId>)

  // Lower the in-degree of one target; queue it if it drops to zero.
  function Lower(s: Sorting, t: NodeId): Sorting
    requires t in s.indeg
  {
    var d := s.indeg[t] - 1;
    Sorting(s.indeg[t := d], if d == 0 then s.queue + [t] else s.queue)
  }

  function Relax(ts: seq<NodeId>, s: Sorting): Sorting
    requires forall t :: t in ts ==> t in s.indeg
  {
    if ts == [] then s else Relax(ts[1..], Lower(s, ts[0]))
  }

  // Every edge into an emitted node starts at an earlier emitted node.
  ghost predicate Forward(es: seq<Edge>, order: seq<NodeId>) {
    order == [] ||
    var n := |order| - 1;
    Forward(es, order[..n]) && AllFrom(es, order[n], order[..n])
  }

  ghost predicate AllFrom(es: seq<Edge>, m: NodeId, order: seq<NodeId>) {
    forall e :: e in es && e.dst == m ==> e.src in order
  }

  ghost predicate Closed(es: seq<Edge>, ids: set<NodeId>) {
    forall e :: e in es ==> e.src in ids && e.dst in ids
  }

  ghost predicate Counted(es: seq<Edge>, ids: set<NodeId>, indeg: map<NodeId, int>, done: set<NodeId>) {
    indeg.Keys == ids && forall m :: m in ids ==> indeg[m] == Pending(es, m, done)
  }

  // Emitted and queued nodes together are exactly those with nothing pending.
  ghost predicate Ready(ids: set<NodeId>, indeg: map<NodeId, int>, seen: seq<NodeId>) {
    NoDup(seen) && indeg.Keys == ids && forall m :: m in seen <==> m in ids && indeg[m] == 0
  }

  ghost predicate SortInv(es: seq<Edge>, ids: set<NodeId>, s: Sorting, order: seq<NodeId>) {
    && Closed(es, ids)
    && Counted(es, ids, s.indeg, Elems(order))
    && Ready(ids, s.indeg, order + s.queue)
    && Forward(es, order)
  }

  lemma TargetsAre(es: seq<Edge>, id: NodeId)
    ensures forall m :: m in Targets(es, id) ==> exists e :: e in es && e.src == id && e.dst == m
    ensures forall e :: e in es && e.src == id ==> e.dst in Targets(es, id)
  {
    if es != [] {
      assert es == es[..|es| - 1] + [es[|es| - 1]];
      TargetsAre(es[..|es| - 1], id);
    }
  }

  lemma PendingZero(es: seq<Edge>, m: NodeId, done: set<NodeId>)
    ensures Pending(es, m, done) == 0 <==> forall e :: e in es && e.dst == m ==> e.src in done
  {
    if es != [] {
      assert es == es[..|es| - 1] + [es[|es| - 1]];
      PendingZero(es[..|es| - 1], m, done);
    }
  }

  lemma PendingDrop(es: seq<Edge>, m: NodeId, done: set<NodeId>, id: NodeId)
    requires id !in done
    ensures Pending(es, m, done) - multiset(Targets(es, id))[m] == Pending(es, m, done + {id})
  {
    if es != [] {
      PendingDrop(es[..|es| - 1], m, done, id);
    }
  }

  ghost predicate Enough(ts: seq<NodeId>, s: Sorting) {
    (forall t :: t in ts ==> t in s.indeg) && forall t :: t in s.indeg ==> multiset(ts)[t] <= s.indeg[t]
  }

  // One target relaxed, in terms of the rest.
  lemma LowerStep(ts: seq<NodeId>, s: Sorting)
    requires ts != [] && Enough(ts, s)
    ensures Enough(ts[1..], Lower(s, ts[0]))
    ensures forall t :: t in s.indeg ==> Lower(s, ts[0]).indeg[t] - multiset(ts[1..])[t] == s.indeg[t] - multiset(ts)[t]
    ensures s.indeg[ts[0]] == 1 ==> ts[0] !in ts[1..]
  {
    var t, rest := ts[0], ts[1..];
    assert ts == [t] + rest;
    assert multiset(ts) == multiset{t} + multiset(rest);
    if s.indeg[t] == 1 {
      assert multiset(rest)[t] == 0;
    }
  }

  lemma {:induction false} RelaxCounts(ts: seq<NodeId>, s: Sorting)
    requires Enough(ts, s)
    ensures Relax(ts, s).indeg.Keys == s.indeg.Keys
    ensures forall m :: m in s.indeg ==> Relax(ts, s).indeg[m] == s.indeg[m] - multiset(ts)[m]
    decreases |ts|
  {
    if ts != [] {
      LowerStep(ts, s);
      RelaxCounts(ts[1..], Lower(s, ts[0]));
    }
  }

  // The targets that drop to zero, in order.
  function Newly(ts: seq<NodeId>, s: Sorting): seq<NodeId>
    requires forall t :: t in ts ==> t in s.indeg
  {
    if ts == [] then [] else
      (if s.indeg[ts[0]] == 1 then [ts[0]] else []) + Newly(ts[1..], Lower(s, ts[0]))
  }

  lemma {:induction false} RelaxQueue(ts: seq<NodeId>, s: Sorting)
    requires forall t :: t in ts ==> t in s.indeg
    ensures Relax(ts, s).queue == s.queue + Newly(ts, s)
    decreases |ts|
  {
    if ts != [] {
      var s' := Lower(s, ts[0]);
      RelaxQueue(ts[1..], s');
      assert s'.queue == s.queue + if s.indeg[ts[0]] == 1 then [ts[0]] else [];
      assert Relax(ts, s) == Relax(ts[1..], s');
    }
  }

  lemma {:induction false} NewlyAre(ts: seq<NodeId>, s: Sorting)
    requires Enough(ts, s)
    ensures NoDup(Newly(ts, s))
    ensures forall m :: m in Newly(ts, s) <==> m in ts && s.indeg[m] == multiset(ts)[m]
    decreases |ts|
  {
    if ts != [] {
      var t, rest := ts[0], ts[1..];
      assert ts == [t] + rest;
      LowerStep(ts, s);
      NewlyAre(rest, Lower(s, t));
      forall m | m in ts ensures m in rest || (m == t && multiset(rest)[t] == 0) {}
    }
  }

  lemma RelaxSpec(ts: seq<NodeId>, s: Sorting) returns (news: seq<NodeId>)
    requires Enough(ts, s)
    ensures Relax(ts, s).indeg.Keys == s.indeg.Keys
    ensures Relax(ts, s).queue == s.queue + news && NoDup(news)
    ensures forall m :: m in news <==> m in ts && Relax(ts, s).indeg[m] == 0
  {
    RelaxCounts(ts, s);
    RelaxQueue(ts, s);
    NewlyAre(ts, s);
    news := Newly(ts, s);
  }

  lemma RelaxStep(es: seq<Edge>, ids: set<NodeId>, s: Sorting, done: set<NodeId>, id: NodeId)
      returns (news: seq<NodeId>)
    requires Closed(es, ids) && Counted(es, ids, s.indeg, done) && id !in done
    ensures forall t :: t in Targets(es, id) ==> t in s.indeg
    ensures var r := Relax(Targets(es, id), s);
      && Counted(es, ids, r.indeg, done + {id})
      && r.queue == s.queue + news && NoDup(news)
      && (forall m :: m in news <==> m in Targets(es, id) && r.indeg[m] == 0)
    ensures forall m :: m in Targets(es, id) ==> s.indeg[m] > 0
    ensures forall m :: m in ids && m !in Targets(es, id) ==> Relax(Targets(es, id), s).indeg[m] == s.indeg[m]
  {
    var ts := Targets(es, id);
    TargetsAre(es, id);
    forall m | m in ids
      ensures multiset(ts)[m] <= s.indeg[m]
      ensures s.indeg[m] - multiset(ts)[m] == Pending(es, m, done + {id})
    {
      PendingDrop(es, m, done, id);
    }
    news := RelaxSpec(ts, s);
    RelaxCounts(ts, s);
    forall m | m in ts ensures s.indeg[m] > 0 {
      assert multiset(ts)[m] > 0;
    }
  }

  lemma ReadyStep(ids: set<NodeId>, before: map<NodeId, int>, after: map<NodeId, int>, ts: seq<NodeId>,
                  seen: seq<NodeId>, news: seq<NodeId>)
    requires Ready(ids, before, seen) && after.Keys == ids && NoDup(news)
    requires forall m :: m in ts ==> m in ids && before[m] > 0
    requires forall m :: m in ids && m !in ts ==> after[m] == before[m]
    requires forall m :: m in news <==> m in ts && after[m] == 0
    ensures Ready(ids, after, seen + news)
  {
    forall m ensures m in seen + news <==> m in ids && after[m] == 0 {
      assert m in seen + news <==> m in seen || m in news;
    }
    forall i, j | 0 <= i < j < |seen + news| ensures (seen + news)[i] != (seen + news)[j] {
      if i < |seen| <= j {
        assert seen[i] in seen && news[j - |seen|] in news;
      }
    }
  }

  lemma ForwardStep(es: seq<Edge>, order: seq<NodeId>, id: NodeId)
    requires Forward(es, order) && AllFrom(es, id, order)
    ensures Forward(es, order + [id])
  {
    assert (order + [id])[..|order|] == order;
  }

  lemma Requeue(order: seq<NodeId>, queue: seq<NodeId>, news: seq<NodeId>)
    requires queue != []
    ensures order + [queue[0]] + (queue[1..] + news) == order + queue + news
  {
  }

  lemma SortStep(es: seq<Edge>, ids: set<NodeId>, s: Sorting, order: seq<NodeId>)
    requires SortInv(es, ids, s, order) && s.queue != []
    ensures forall t :: t in Targets(es, s.queue[0]) ==> t in s.indeg
    ensures SortInv(es, ids, Relax(Targets(es, s.queue[0]), s.(queue := s.queue[1..])), order + [s.queue[0]])
    ensures |order| < |ids|
  {
    var id, rest := s.queue[0], s.(queue := s.queue[1..]);
    var seen := order + s.queue;
    assert seen[|order|] == id;
    assert id !in order by { assert forall i :: 0 <= i < |order| ==> seen[i] == order[i]; }
    NoDupCard(seen);
    SubsetCard(Elems(seen), ids);
    var news := RelaxStep(es, ids, rest, Elems(order), id);
    var r := Relax(Targets(es, id), rest);
    assert Elems(order + [id]) == Elems(order) + {id};
    ReadyStep(ids, s.indeg, r.indeg, Targets(es, id), seen, news);
    Requeue(order, s.queue, news);
    assert id in seen;
    PendingZero(es, id, Elems(order));
    ForwardStep(es, order, id);
  }

  function SortFrom(es: seq<Edge>, ids: set<NodeId>, s: Sorting, order: seq<NodeId>): seq<NodeId>
    requires SortInv(es, ids, s, order)
    decreases |ids| - |order|
  {
    if s.queue == [] then order else
      SortStep(es, ids, s, order);
      SortFrom(es, ids, Relax(Targets(es, s.queue[0]), s.(queue := s.queue[1..])), order + [s.queue[0]])
  }

  function ZeroIn(ks: seq<NodeId>, indeg: map<NodeId, int>): (r: seq<NodeId>)
    requires forall k :: k in ks ==> k in indeg
    ensures forall k :: k in r <==> k in ks && indeg[k] == 0
    ensures NoDup(ks) ==> NoDup(r)
  {
    if ks == [] then [] else
      var last := ks[|ks| - 1];
      assert ks == ks[..|ks| - 1] + [last];
      ZeroIn(ks[..|ks| - 1], indeg) + if indeg[last] == 0 then [last] else []
  }

  function InDegrees(ids: set<NodeId>, es: seq<Edge>): (r: map<NodeId, int>)
    ensures r.Keys == ids
  {
    map id | id in ids :: Pending(es, id, {}) as int
  }

  function AdjacencyOf(ids: set<NodeId>, es: seq<Edge>): (r: map<NodeId, seq<NodeId>>)
    ensures r.Keys == ids
  {
    map id | id in ids :: Targets(es, id)
  }

  function InitialSorting(g: Graph): Sorting {
    var indeg := InDegrees(Ids(g.nodes), Live(g));
    Sorting(indeg, ZeroIn(Keys(g.nodes), indeg))
  }

  lemma InitialInv(g: Graph)
    ensures SortInv(Live(g), Ids(g.nodes), InitialSorting(g), [])
  {
    var s := InitialSorting(g);
    assert [] + s.queue == s.queue;
    assert Elems<NodeId>([]) == {};
    assert Counted(Live(g), Ids(g.nodes), s.indeg, {});
  }

  /** The nodes the sort emits; all of them exactly when it succeeds. */
  function KahnOrder(g: Graph): seq<NodeId> {
    InitialInv(g);
    SortFrom(Live(g), Ids(g.nodes), InitialSorting(g), [])
  }

  ghost predicate TopologicalOrder(g: Graph, order: seq<NodeId>) {
    NoDup(order) && Elems(order) == Ids(g.nodes) && Forward(Live(g), order)
  }

  lemma {:induction false} SortFromSpec(es: seq<Edge>, ids: set<NodeId>, s: Sorting, order: seq<NodeId>)
    requires SortInv(es, ids, s, order)
    ensures var r := SortFrom(es, ids, s, order);
      NoDup(r) && Elems(r) <= ids && Forward(es, r) && Backed(es, ids - Elems(r))
    decreases |ids| - |order|
  {
    if s.queue == [] {
      assert order + s.queue == order;
      forall m | m in ids - Elems(order)
        ensures PredIn(es, ids - Elems(order), m)
      {
        PendingZero(es, m, Elems(order));
        var e :| e in es && e.dst == m && e.src !in Elems(order);
        assert HasEdge(es, e.src, m);
      }
    } else {
      SortStep(es, ids, s, order);
      SortFromSpec(es, ids, Relax(Targets(es, s.queue[0]), s.(queue := s.queue[1..])), order + [s.queue[0]]);
    }
  }

  function Leftover(g: Graph): set<NodeId> { Ids(g.nodes) - Elems(KahnOrder(g)) }

  // Position in a sequence, as a rank.
  function IndexOf(s: seq<NodeId>, x: NodeId): (i: nat)
    requires x in s
    ensures i < |s| && s[i] == x && x !in s[..i]
  {
    if s[0] == x then 0 else 1 + IndexOf(s[1..], x)
  }

  ghost function RankBy(order: seq<NodeId>): map<NodeId, int> {
    map x | x in Elems(order) :: IndexOf(order, x) as int
  }

  lemma ForwardEdge(es: seq<Edge>, order: seq<NodeId>, e: Edge)
    requires Forward(es, order) && NoDup(order) && e in es && e.dst in order
    ensures e.src in order && IndexOf(order, e.src) < IndexOf(order, e.dst)
  {
    var n := |order| - 1;
    assert order == order[..n] + [order[n]];
    if e.dst == order[n] {
      assert e.src in order[..n];
      IndexOfPrefix(order, n, e.src);
    } else {
      ForwardEdge(es, order[..n], e);
      IndexOfPrefix(order, n, e.src);
      IndexOfPrefix(order, n, e.dst);
    }
  }

  lemma IndexOfPrefix(s: seq<NodeId>, n: nat, x: NodeId)
    requires n <= |s| && x in s[..n]
    ensures IndexOf(s, x) == IndexOf(s[..n], x) < n
  {
    if s[0] != x {
      assert s[1..][..n - 1] == s[..n][1..];
      IndexOfPrefix(s[1..], n - 1, x);
    }
  }

  lemma ForwardRanked(g: Graph, order: seq<NodeId>)
    requires TopologicalOrder(g, order)
    ensures Ranked(Live(g), RankBy(order)) && RankBy(order).Keys == Ids(g.nodes)
  {
    forall e | e in Live(g)
      ensures e.src in order && e.dst in order && IndexOf(order, e.src) < IndexOf(order, e.dst)
    {
      assert e.dst in Elems(order);
      ForwardEdge(Live(g), order, e);
    }
  }

  /** The sort is sound and complete: it emits every node, each after all its
      predecessors, exactly when the graph has no cycle; the nodes it leaves
      behind contain a cycle. */
  lemma KahnCorrect(g: Graph)
    ensures Leftover(g) == {} <==> Acyclic(Live(g))
    ensures |KahnOrder(g)| == |Keys(g.nodes)| <==> Leftover(g) == {}
    ensures Leftover(g) == {} ==> TopologicalOrder(g, KahnOrder(g))
    ensures Leftover(g) != {} ==> CycleWithin(Live(g), Leftover(g))
  {
    var es, ids, order := Live(g), Ids(g.nodes), KahnOrder(g);
    InitialInv(g);
    SortFromSpec(es, ids, InitialSorting(g), []);
    SizeOfOrder(g, order);
    if Leftover(g) == {} {
      ForwardRanked(g, order);
      RankedAcyclic(es, RankBy(order));
    } else {
      var p := BackedHasCycle(es, Leftover(g));
    }
  }

  ghost predicate CycleWithin(es: seq<Edge>, s: set<NodeId>) {
    exists p :: Cycle(es, p) && Elems(p) <= s
  }

  lemma SizeOfOrder(g: Graph, order: seq<NodeId>)
    requires NoDup(order) && Elems(order) <= Ids(g.nodes)
    ensures |order| == |Keys(g.nodes)| <==> Elems(order) == Ids(g.nodes)
    ensures |order| <= |Keys(g.nodes)|
    ensures Ids(g.nodes) - Elems(order) == {} <==> Elems(order) == Ids(g.nodes)
  {
    NoDupCard(order);
    NoDupCard(Keys(g.nodes));
    assert Elems(Keys(g.nodes)) == Ids(g.nodes);
    SubsetCard(Elems(order), Ids(g.nodes));
    assert Elems(order) == Ids(g.nodes) - (Ids(g.nodes) - Elems(order));
  }

  /** Acyclic graphs are exactly those with a rank. */
  lemma AcyclicHasRank(g: Graph) returns (r: map<NodeId, int>)
    requires Acyclic(Live(g))
    ensures Ranked(Live(g), r) && r.Keys == Ids(g.nodes)
    ensures forall x :: x in r ==> 0 <= r[x] < |KahnOrder(g)|
  {
    KahnCorrect(g);
    ForwardRanked(g, KahnOrder(g));
    r := RankBy(KahnOrder(g));
  }

  lemma Snoc(ids: set<NodeId>, es: seq<Edge>, e: Edge)
    requires e.src in ids && e.dst in ids
    ensures InDegrees(ids, es + [e]) == InDegrees(ids, es)[e.dst := InDegrees(ids, es)[e.dst] + 1]
    ensures AdjacencyOf(ids, es + [e]) == AdjacencyOf(ids, es)[e.src := AdjacencyOf(ids, es)[e.src] + [e.dst]]
  {
    assert (es + [e])[..|es|] == es;
    forall id | id in ids
      ensures Targets(es + [e], id) == if id == e.src then Targets(es, id) + [e.dst] else Targets(es, id)
    {
      assert Targets(es, id) + [] == Targets(es, id);
    }
  }

  lemma LiveSnoc(ids: set<NodeId>, es: seq<Edge>, i: nat)
    requires i < |es|
    ensures LiveEdges(ids, es[..i + 1]) ==
      if es[i].src in ids && es[i].dst in ids then LiveEdges(ids, es[..i]) + [es[i]] else LiveEdges(ids, es[..i])
  {
    assert es[..i + 1][..i] == es[..i];
    assert LiveEdges(ids, es[..i]) + [] == LiveEdges(ids, es[..i]);
  }

  lemma LiveNone(ids: set<NodeId>, es: seq<Edge>)
    ensures LiveEdges(ids, es[..0]) == []
  {
  }

  // One edge's effect on the in-degrees and the adjacency lists.
  lemma AdjacencyStep(ids: set<NodeId>, es: seq<Edge>, i: nat)
    requires i < |es|
    ensures var e, before, after := es[i], LiveEdges(ids, es[..i]), LiveEdges(ids, es[..i + 1]);
      if e.src in ids && e.dst in ids then
        && InDegrees(ids, after) == InDegrees(ids, before)[e.dst := InDegrees(ids, before)[e.dst] + 1]
        && AdjacencyOf(ids, after) == AdjacencyOf(ids, before)[e.src := AdjacencyOf(ids, before)[e.src] + [e.dst]]
      else after == before
  {
    hide Pending, Targets, LiveEdges, InDegrees, AdjacencyOf;
    LiveSnoc(ids, es, i);
    if es[i].src in ids && es[i].dst in ids {
      Snoc(ids, LiveEdges(ids, es[..i]), es[i]);
    }
  }

  // The loop that builds in-degrees and adjacency lists.
  method Adjacency(g: Graph) returns (indeg: map<NodeId, int>, adj: map<NodeId, seq<NodeId>>)
    ensures indeg == InDegrees(Ids(g.nodes), Live(g))
    ensures adj == AdjacencyOf(Ids(g.nodes), Live(g))
  {
    hide Pending, Targets, LiveEdges, InDegrees, AdjacencyOf;
    var ids := Ids(g.nodes);
    indeg, adj := NoEdges(ids);
    LiveNone(ids, g.edges);
    for i := 0 to |g.edges|
      invariant indeg == InDegrees(ids, LiveEdges(ids, g.edges[..i]))
      invariant adj == AdjacencyOf(ids, LiveEdges(ids, g.edges[..i]))
    {
      var e := g.edges[i];
      AdjacencyStep(ids, g.edges, i);
      if e.src in ids && e.dst in ids {
        adj := adj[e.src := adj[e.src] + [e.dst]];
        indeg := indeg[e.dst := indeg[e.dst] + 1];
      }
    }
    assert g.edges[..|g.edges|] == g.edges;
  }

  method NoEdges(ids: set<NodeId>) returns (indeg: map<NodeId, int>, adj: map<NodeId, seq<NodeId>>)
    ensures indeg == InDegrees(ids, []) && adj == AdjacencyOf(ids, [])
  {
    indeg := map id | id in ids :: 0;
    adj := map id | id in ids :: [];
  }

  lemma RelaxFrom(ts: seq<NodeId>, k: nat, s: Sorting)
    requires k < |ts| && forall t :: t in ts[k..] ==> t in s.indeg
    ensures ts[k] in s.indeg && forall t :: t in ts[k + 1..] ==> t in s.indeg
    ensures Relax(ts[k..], s) == Relax(ts[k + 1..], Lower(s, ts[k]))
  {
    assert ts[k..] == [ts[k]] + ts[k + 1..];
    assert ts[k..][1..] == ts[k + 1..];
  }

  // The inner loop: lower each target's in-degree and queue those that reach zero.
  method RelaxTargets(ts: seq<NodeId>, s: Sorting) returns (r: Sorting)
    requires forall t :: t in ts ==> t in s.indeg
    ensures r == Relax(ts, s)
  {
    var indeg, queue := s.indeg, s.queue;
    for k := 0 to |ts|
      invariant forall t :: t in ts[k..] ==> t in indeg
      invariant Relax(ts[k..], Sorting(indeg, queue)) == Relax(ts, s)
    {
      RelaxFrom(ts, k, Sorting(indeg, queue));
      var m := ts[k];
      indeg := indeg[m := indeg[m] - 1];
      if indeg[m] == 0 {
        queue := queue + [m];
      }
    }
    r := Sorting(indeg, queue);
  }

  method OrderedNodes(g: Graph) returns (r: Result<seq<NodeId>, set<NodeId>>)
    ensures r == if Leftover(g) == {} then Ok(KahnOrder(g)) else Err(Leftover(g))
    ensures r.Ok? <==> Acyclic(Live(g))
    ensures r.Ok? ==> TopologicalOrder(g, r.value)
    ensures r.Err? ==> CycleWithin(Live(g), r.error)
  {
    var indeg, adj := Adjacency(g);
    var queue, order := ZeroIn(Keys(g.nodes), indeg), [];
    ghost var es, ids := Live(g), Ids(g.nodes);
    InitialInv(g);
    while queue != []
      invariant SortInv(es, ids, Sorting(indeg, queue), order)
      invariant SortFrom(es, ids, Sorting(indeg, queue), order) == KahnOrder(g)
      decreases |ids| - |order|
    {
      var nid := queue[0];
      SortStep(es, ids, Sorting(indeg, queue), order);
      order := order + [nid];
      assert nid in ids;
      var s := RelaxTargets(adj[nid], Sorting(indeg, queue[1..]));
      indeg, queue := s.indeg, s.queue;
    }
    KahnCorrect(g);
    if |order| != |Keys(g.nodes)| {
      r := Err(Ids(g.nodes) - Elems(order));
    } else {
      r := Ok(order);
    }
  }
}
