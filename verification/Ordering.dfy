/** The loop over the ordering rules (services/patcher/patcher.py, lines 198-232):
    moves made on a list of nodes sorted once, before the first of them. */
module Ordering {
  import opened Graphs
  import opened Kahn
  import opened Dag
  import opened Rewiring
  import opened Reorder

  // ---- A move that was not called for ---------------------------------------------------

  // A path strictly between a and b survives.
  lemma {:induction false} InsideSurvives(es: seq<Edge>, r: map<NodeId, int>, a: NodeId, b: NodeId, p: seq<NodeId>)
    requires Ranked(es, r) && a in r && b in r && a != b && IsPath(es, p)
    requires p[0] in r && p[|p| - 1] in r && r[a] < r[p[0]] && r[p[|p| - 1]] < r[b]
    ensures IsPath(MovedEdges(es, a, b), p)
    decreases |p|
  {
    hide MovedEdges;
    if |p| > 1 {
      var n := |p| - 1;
      var front := p[..n];
      assert HasEdge(es, p[n - 1], p[n]);
      forall i | 0 <= i < n - 1 ensures HasEdge(es, front[i], front[i + 1]) { assert HasEdge(es, p[i], p[i + 1]); }
      if n > 1 {
        PathRanks(es, r, front);
      }
      InsideSurvives(es, r, a, b, front);
      var e :| e in es && e.src == p[n - 1] && e.dst == p[n];
      MovedEdge(es, a, b, e);
      forall i | 0 <= i < n ensures HasEdge(MovedEdges(es, a, b), p[i], p[i + 1]) {
        if i < n - 1 {
          assert HasEdge(MovedEdges(es, a, b), front[i], front[i + 1]);
        }
      }
    }
  }

  // A path out of a is taken over by b.
  lemma HeadMoves(es: seq<Edge>, r: map<NodeId, int>, a: NodeId, b: NodeId, m: NodeId)
    requires Ranked(es, r) && a != b && m != a && Reaches(es, a, m) && b in r && m in r && r[m] < r[b]
    ensures Reaches(MovedEdges(es, a, b), b, m)
  {
    hide MovedEdges;
    var p :| PathFromTo(es, p, a, m);
    var q := p[1..];
    assert HasEdge(es, p[0], p[1]);
    forall i | 0 <= i < |q| - 1 ensures HasEdge(es, q[i], q[i + 1]) { assert HasEdge(es, p[i + 1], p[i + 2]); }
    if |q| > 1 { PathRanks(es, r, q); }
    InsideSurvives(es, r, a, b, q);
    var fs := MovedEdges(es, a, b);
    MovedEdge(es, a, b, NextEdge(b, q[0]));
    OneEdge(fs, NextEdge(b, q[0]));
    assert PathFromTo(fs, q, q[0], m);
    ReachesTrans(fs, b, q[0], m);
  }

  // A path into b leads to a.
  lemma TailMoves(es: seq<Edge>, r: map<NodeId, int>, a: NodeId, b: NodeId, m: NodeId)
    requires Ranked(es, r) && a != b && m != b && Reaches(es, m, b) && a in r && m in r && r[a] < r[m]
    ensures Reaches(MovedEdges(es, a, b), m, a)
  {
    hide MovedEdges;
    var p :| PathFromTo(es, p, m, b);
    var n := |p| - 1;
    var q := p[..n];
    assert HasEdge(es, p[n - 1], p[n]);
    forall i | 0 <= i < |q| - 1 ensures HasEdge(es, q[i], q[i + 1]) { assert HasEdge(es, p[i], p[i + 1]); }
    if |q| > 1 { PathRanks(es, r, q); }
    InsideSurvives(es, r, a, b, q);
    var fs := MovedEdges(es, a, b);
    MovedEdge(es, a, b, NextEdge(p[n - 1], a));
    OneEdge(fs, NextEdge(p[n - 1], a));
    assert PathFromTo(fs, q, m, p[n - 1]);
    ReachesTrans(fs, m, p[n - 1], a);
  }

  // So does a third node on a way from a to b.
  lemma ForwardTangles(g: Graph, r: map<NodeId, int>, a: NodeId, b: NodeId, m: NodeId)
    requires Ranked(g.edges, r) && a != b && m != a && m != b && Reaches(g.edges, a, m) && Reaches(g.edges, m, b)
    ensures Tangled(MovedEdges(g.edges, a, b), a, b, m)
  {
    hide MovedEdges;
    RankedReaches(g.edges, r, a, m);
    RankedReaches(g.edges, r, m, b);
    HeadMoves(g.edges, r, a, b, m);
    TailMoves(g.edges, r, a, b, m);
    MovedEdge(g.edges, a, b, NextEdge(a, b));
    OneEdge(MovedEdges(g.edges, a, b), NextEdge(a, b));
  }

  // A third node lies between a and b, whichever comes first.
  ghost predicate Between(es: seq<Edge>, a: NodeId, b: NodeId) { Detour(es, a, b) || Detour(es, b, a) }

  lemma BetweenTangles(g: Graph, a: NodeId, b: NodeId) returns (m: NodeId)
    requires NoDangling(g) && Acyclic(g.edges) && a != b && Between(g.edges, a, b)
    ensures Tangled(MovedEdges(g.edges, a, b), a, b, m)
  {
    hide MovedEdges;
    var r := RankOf(g);
    if Detour(g.edges, a, b) {
      m :| m != a && m != b && Reaches(g.edges, b, m) && Reaches(g.edges, m, a);
      DetourTangles(g, r, a, b, m);
    } else {
      m :| m != b && m != a && Reaches(g.edges, a, m) && Reaches(g.edges, m, b);
      ForwardTangles(g, r, a, b, m);
    }
  }

  lemma ReachesMore(es: seq<Edge>, fs: seq<Edge>, u: NodeId, v: NodeId)
    requires Reaches(es, u, v) && forall e :: e in es ==> e in fs
    ensures Reaches(fs, u, v)
  {
    var p :| PathFromTo(es, p, u, v);
    forall i | 0 <= i < |p| - 1 ensures HasEdge(fs, p[i], p[i + 1]) { assert HasEdge(es, p[i], p[i + 1]); }
    assert PathFromTo(fs, p, u, v);
  }

  // Without its direct edges into b, a does not lead to b at all.
  lemma OnlyDirectly(es: seq<Edge>, a: NodeId, b: NodeId)
    requires Acyclic(es) && a != b && !Detour(es, b, a)
    ensures !Reaches(Without(es, [a], b), a, b)
  {
    var fs := Without(es, [a], b);
    if Reaches(fs, a, b) {
      var p :| PathFromTo(fs, p, a, b);
      assert HasEdge(fs, p[0], p[1]);
      var e :| e in fs && e.src == p[0] && e.dst == p[1];
      assert e in es && HasEdge(es, a, p[1]);
      OneEdge(es, e);
      if p[1] == a {
        assert Cycle(es, [a, a]);
      }
      var q := p[1..];
      forall i | 0 <= i < |q| - 1 ensures HasEdge(fs, q[i], q[i + 1]) { assert HasEdge(fs, p[i + 1], p[i + 2]); }
      assert PathFromTo(fs, q, p[1], b);
      ReachesMore(fs, es, p[1], b);
    }
  }

  // A rank that puts b before a, when a does not lead to b.
  lemma RankApart(ns: seq<Node>, es: seq<Edge>, r: map<NodeId, int>, top: int, a: NodeId, b: NodeId)
      returns (q: map<NodeId, int>)
    requires Ranked(es, r) && a in r && b in r && !Reaches(es, a, b) && forall k :: k in r ==> 0 <= r[k] < top
    ensures Ranked(es, q) && q.Keys == r.Keys && q[b] < q[a] && forall k :: k in q ==> 0 <= q[k] < 2 * top
  {
    q := map k | k in r :: if Reaches(es, a, k) then r[k] + top else r[k];
    ReachesSelf(es, a);
    forall e | e in es ensures e.src in q && e.dst in q && q[e.src] < q[e.dst] {
      if Reaches(es, a, e.src) {
        assert HasEdge(es, e.src, e.dst);
        ReachesStep(es, a, e.src, e.dst);
      }
    }
  }

  // Direct edges from a to b make no difference to the move.
  lemma DirectEdgesMoot(es: seq<Edge>, a: NodeId, b: NodeId, e: Edge)
    requires a != b
    ensures e in MovedEdges(es, a, b) <==> e in MovedEdges(Without(es, [a], b), a, b)
  {
    var fs := Without(es, [a], b);
    MovedEdge(es, a, b, e);
    MovedEdge(fs, a, b, e);
    forall u, v | !(u == a && v == b) ensures HasEdge(fs, u, v) == HasEdge(es, u, v) {}
  }

  lemma FewerDetours(es: seq<Edge>, fs: seq<Edge>, a: NodeId, b: NodeId)
    requires !Detour(es, a, b) && forall e :: e in fs ==> e in es
    ensures !Detour(fs, a, b)
  {
    if m :| m != a && m != b && Reaches(fs, b, m) && Reaches(fs, m, a) {
      ReachesMore(fs, es, b, m);
      ReachesMore(fs, es, m, a);
      assert false;
    }
  }

  lemma ClearStaysAcyclic(g: Graph, a: NodeId, b: NodeId)
    requires NoDangling(g) && Acyclic(g.edges) && a in Ids(g.nodes) && b in Ids(g.nodes)
      && a != b && !Between(g.edges, a, b)
    ensures Acyclic(MovedEdges(g.edges, a, b))
  {
    hide MovedEdges;
    var r := RankOf(g);
    var top := |KahnOrder(g)|;
    var h := Graph(g.nodes, Without(g.edges, [a], b));
    OnlyDirectly(g.edges, a, b);
    assert Ranked(h.edges, r);
    var q := RankApart(h.nodes, h.edges, r, top, a, b);
    FewerDetours(g.edges, h.edges, a, b);
    hide Acyclic;
    var rank := MovedRank(h, q, 2 * top, a, b);
    forall e | e in MovedEdges(g.edges, a, b) ensures e.src in rank && e.dst in rank && rank[e.src] < rank[e.dst] {
      DirectEdgesMoot(g.edges, a, b, e);
      MovedEdgeRanked(h, q, 2 * top, a, b, e);
    }
    RankedAcyclic(MovedEdges(g.edges, a, b), rank);
  }

  /** On any acyclic graph, whichever of the two comes first: the move leaves it
      acyclic exactly when no third node lies between them. */
  lemma AnyMoveAcyclic(g: Graph, a: NodeId, b: NodeId)
    requires NoDangling(g) && Acyclic(g.edges) && a in Ids(g.nodes) && b in Ids(g.nodes) && a != b
    ensures Acyclic(MovedEdges(g.edges, a, b)) <==> !Between(g.edges, a, b)
  {
    if Between(g.edges, a, b) {
      var m := BetweenTangles(g, a, b);
      TangledCycles(MovedEdges(g.edges, a, b), a, b, m);
    } else {
      ClearStaysAcyclic(g, a, b);
    }
  }

  // ---- What a move leaves in order ---------------------------------------------------------

  lemma NewEdges(es: seq<Edge>, a: NodeId, b: NodeId, u: NodeId)
    requires a != b
    ensures Reaches(MovedEdges(es, a, b), a, b)
    ensures u != a && HasEdge(es, u, b) ==> Reaches(MovedEdges(es, a, b), u, a)
    ensures u != b && HasEdge(es, a, u) ==> Reaches(MovedEdges(es, a, b), b, u)
  {
    var fs := MovedEdges(es, a, b);
    MovedEdge(es, a, b, NextEdge(a, b));
    OneEdge(fs, NextEdge(a, b));
    MovedEdge(es, a, b, NextEdge(u, a));
    MovedEdge(es, a, b, NextEdge(b, u));
    hide MovedEdges;
    if u != a && HasEdge(es, u, b) { OneEdge(fs, NextEdge(u, a)); }
    if u != b && HasEdge(es, a, u) { OneEdge(fs, NextEdge(b, u)); }
  }

  lemma KeptEdge(es: seq<Edge>, a: NodeId, b: NodeId, u: NodeId, v: NodeId)
    requires a != b && HasEdge(es, u, v) && v != b && u != a && !(u == b && v == a)
    ensures Reaches(MovedEdges(es, a, b), u, v)
  {
    var e :| e in es && e.src == u && e.dst == v;
    MovedEdge(es, a, b, e);
    OneEdge(MovedEdges(es, a, b), e);
  }

  lemma {:induction false} PathKept(es: seq<Edge>, a: NodeId, b: NodeId, p: seq<NodeId>)
    requires a != b && IsPath(es, p) && !(p[0] == b && p[|p| - 1] == a)
    ensures Reaches(MovedEdges(es, a, b), p[0], p[|p| - 1])
    decreases |p|
  {
    hide MovedEdges;
    var fs, u, v := MovedEdges(es, a, b), p[0], p[|p| - 1];
    if u == v {
      ReachesSelf(fs, u);
    } else {
      var y, tail := p[1], p[1..];
      assert HasEdge(es, p[0], p[1]);
      forall i | 0 <= i < |tail| - 1 ensures HasEdge(es, tail[i], tail[i + 1])
        { assert HasEdge(es, p[i + 1], p[i + 2]); }
      if u == b && y == a {
        var z, rest := p[2], p[2..];
        assert HasEdge(es, p[1], p[2]);
        forall i | 0 <= i < |rest| - 1 ensures HasEdge(es, rest[i], rest[i + 1])
          { assert HasEdge(es, p[i + 2], p[i + 3]); }
        PathKept(es, a, b, rest);
        if z != b {
          NewEdges(es, a, b, z);
          ReachesTrans(fs, b, z, v);
        }
      } else if y == b && v == a {
        NewEdges(es, a, b, u);
      } else {
        PathKept(es, a, b, tail);
        FirstStepKept(es, a, b, u, y);
        ReachesTrans(fs, u, y, v);
      }
    }
  }

  lemma FirstStepKept(es: seq<Edge>, a: NodeId, b: NodeId, u: NodeId, y: NodeId)
    requires a != b && HasEdge(es, u, y) && !(u == b && y == a)
    ensures Reaches(MovedEdges(es, a, b), u, y)
  {
    hide MovedEdges;
    var fs := MovedEdges(es, a, b);
    if y == b {
      NewEdges(es, a, b, u);
      if u != a { ReachesTrans(fs, u, a, b); }
    } else if u == a {
      NewEdges(es, a, b, y);
      ReachesTrans(fs, a, b, y);
    } else {
      KeptEdge(es, a, b, u, y);
    }
  }

  /** A move puts a before b and keeps every other node that led to another
      leading to it: the only order it can take away is that of b before a. */
  lemma MoveKeepsOrder(es: seq<Edge>, a: NodeId, b: NodeId, u: NodeId, v: NodeId)
    requires a != b
    ensures Reaches(MovedEdges(es, a, b), a, b)
    ensures Reaches(es, u, v) && !(u == b && v == a) ==> Reaches(MovedEdges(es, a, b), u, v)
  {
    NewEdges(es, a, b, a);
    if Reaches(es, u, v) && !(u == b && v == a) {
      var p :| PathFromTo(es, p, u, v);
      PathKept(es, a, b, p);
    }
  }

  // ---- The loop over the ordering rules ------------------------------------------------------

  // The edges, and the list of ids sorted before the first move and patched by each.
  datatype Plan = Plan(es: seq<Edge>, ids: seq<NodeId>)

  // Two resolved node ids: first before second.
  type OrderRule = (NodeId, NodeId)

  function Dropped(ids: seq<NodeId>, a: NodeId): (r: seq<NodeId>)
    requires a in ids
    ensures forall k :: k in ids && k != a ==> k in r
    ensures forall k :: k in r ==> k in ids
  {
    var i := IndexOf(ids, a);
    assert ids == ids[..i] + [a] + ids[i + 1..];
    ids[..i] + ids[i + 1..]
  }

  function Promoted(ids: seq<NodeId>, a: NodeId, b: NodeId): (r: seq<NodeId>)
    requires a in ids && b in ids && a != b
    ensures forall k :: k in r <==> k in ids
  {
    var rest := Dropped(ids, a);
    var i := IndexOf(rest, b);
    assert rest == rest[..i] + rest[i..];
    rest[..i] + [a] + rest[i..]
  }

  lemma IndexIn(front: seq<NodeId>, x: NodeId, back: seq<NodeId>)
    requires x !in front
    ensures x in front + [x] + back && IndexOf(front + [x] + back, x) == |front|
  {
    assert (front + [x] + back)[|front|] == x;
    if front != [] {
      assert (front + [x] + back)[1..] == front[1..] + [x] + back;
      IndexIn(front[1..], x, back);
    }
  }

  lemma DroppedList(front: seq<NodeId>, a: NodeId, back: seq<NodeId>)
    requires a !in front
    ensures a in front + [a] + back && Dropped(front + [a] + back, a) == front + back
  {
    IndexIn(front, a, back);
  }

  lemma PutBefore(ids: seq<NodeId>, a: NodeId, front: seq<NodeId>, b: NodeId, back: seq<NodeId>)
    requires a in ids && a != b && Dropped(ids, a) == front + [b] + back && b !in front && b in ids
    ensures Promoted(ids, a, b) == front + [a] + ([b] + back)
  {
    IndexIn(front, b, back);
    var rest := front + [b] + back;
    assert rest[..|front|] == front && rest[|front|..] == [b] + back;
  }

  lemma NoDupApart(front: seq<NodeId>, x: NodeId, back: seq<NodeId>)
    requires NoDup(front + [x] + back)
    ensures x !in front && x !in back
  {
    var s := front + [x] + back;
    assert s[|front|] == x;
    forall k | 0 <= k < |front| ensures front[k] != x { assert s[k] == front[k]; }
    forall k | 0 <= k < |back| ensures back[k] != x { assert s[|front| + 1 + k] == back[k]; }
  }

  /** The moved id goes right before its target, and the others keep their order. */
  lemma PromotedList(front: seq<NodeId>, b: NodeId, mid: seq<NodeId>, a: NodeId, back: seq<NodeId>)
    requires NoDup(front + [b] + mid + [a] + back)
    ensures var ids := front + [b] + mid + [a] + back;
      a != b && a in ids && b in ids && Promoted(ids, a, b) == front + [a, b] + mid + back
  {
    hide Dropped, Promoted, NoDup;
    var ids := front + [b] + mid + [a] + back;
    assert ids == front + [b] + (mid + [a] + back) == (front + [b] + mid) + [a] + back;
    NoDupApart(front, b, mid + [a] + back);
    NoDupApart(front + [b] + mid, a, back);
    DroppedList(front + [b] + mid, a, back);
    assert (front + [b] + mid) + back == front + [b] + (mid + back);
    PutBefore(ids, a, front, b, mid + back);
    assert front + [a] + ([b] + (mid + back)) == front + [a, b] + mid + back;
  }

  predicate Moves(p: Plan, c: OrderRule) { c.0 in p.ids && c.1 in p.ids && IndexOf(p.ids, c.0) > IndexOf(p.ids, c.1) }

  function ApplyRule(p: Plan, c: OrderRule): Plan {
    if Moves(p, c) then Plan(MovedEdges(p.es, c.0, c.1), Promoted(p.ids, c.0, c.1)) else p
  }

  function ApplyRules(p: Plan, cs: seq<OrderRule>): Plan {
    if cs == [] then p else ApplyRule(ApplyRules(p, cs[..|cs| - 1]), cs[|cs| - 1])
  }

  // At every move made, no third node lies between the two.
  ghost predicate NoneBetween(p: Plan, cs: seq<OrderRule>) {
    cs == [] ||
    (NoneBetween(p, cs[..|cs| - 1]) &&
     var q, c := ApplyRules(p, cs[..|cs| - 1]), cs[|cs| - 1];
     Moves(q, c) ==> !Between(q.es, c.0, c.1))
  }

  ghost predicate Planned(ns: seq<Node>, p: Plan) { Closed(p.es, Ids(ns)) && forall k :: k in p.ids ==> k in Ids(ns) }

  lemma RuleStaysPlanned(ns: seq<Node>, p: Plan, c: OrderRule)
    requires Planned(ns, p)
    ensures Planned(ns, ApplyRule(p, c))
  {
    if Moves(p, c) {
      forall e | e in MovedEdges(p.es, c.0, c.1) ensures e.src in Ids(ns) && e.dst in Ids(ns)
        { MovedEdge(p.es, c.0, c.1, e); }
    }
  }

  // Three nodes on one cycle stay on one cycle whatever is moved.
  lemma TangleStays(es: seq<Edge>, a: NodeId, b: NodeId, x: NodeId, y: NodeId, z: NodeId)
    requires a != b && Tangled(es, x, y, z)
    ensures Tangled(MovedEdges(es, a, b), x, y, z)
  {
    var fs := MovedEdges(es, a, b);
    ReachesTrans(es, x, y, z);
    ReachesTrans(es, y, z, x);
    ReachesTrans(es, z, x, y);
    hide MovedEdges;
    StillLeads(es, a, b, x, y, z);
    StillLeads(es, a, b, y, z, x);
    StillLeads(es, a, b, z, x, y);
  }

  lemma StillLeads(es: seq<Edge>, a: NodeId, b: NodeId, x: NodeId, y: NodeId, z: NodeId)
    requires a != b && x != y && y != z && x != z && Reaches(es, x, y) && Reaches(es, x, z) && Reaches(es, z, y)
    ensures Reaches(MovedEdges(es, a, b), x, y)
  {
    hide MovedEdges;
    if x == b && y == a {
      MoveKeepsOrder(es, a, b, x, z);
      MoveKeepsOrder(es, a, b, z, y);
      ReachesTrans(MovedEdges(es, a, b), x, z, y);
    } else {
      MoveKeepsOrder(es, a, b, x, y);
    }
  }

  ghost predicate SomeTangle(es: seq<Edge>) { exists x, y, z :: Tangled(es, x, y, z) }

  // The state of the loop: still acyclic, or beyond repair.
  lemma {:induction false} LoopState(ns: seq<Node>, p: Plan, cs: seq<OrderRule>)
    requires Planned(ns, p) && Acyclic(p.es)
    ensures Planned(ns, ApplyRules(p, cs))
    ensures NoneBetween(p, cs) ==> Acyclic(ApplyRules(p, cs).es)
    ensures !NoneBetween(p, cs) ==> SomeTangle(ApplyRules(p, cs).es)
    decreases |cs|
  {
    if cs != [] {
      var q, c := ApplyRules(p, cs[..|cs| - 1]), cs[|cs| - 1];
      LoopState(ns, p, cs[..|cs| - 1]);
      RuleStaysPlanned(ns, q, c);
      hide MovedEdges, Acyclic, Between, Tangled, Promoted;
      if Moves(q, c) {
        if !NoneBetween(p, cs[..|cs| - 1]) {
          var x, y, z :| Tangled(q.es, x, y, z);
          TangleStays(q.es, c.0, c.1, x, y, z);
        } else if Between(q.es, c.0, c.1) {
          var m := BetweenTangles(Graph(ns, q.es), c.0, c.1);
        } else {
          ClearStaysAcyclic(Graph(ns, q.es), c.0, c.1);
        }
      }
    }
  }

  /** The loop leaves an acyclic graph exactly when at every move it makes no
      third node lies between the two nodes; one bad move is never undone. */
  lemma LoopAcyclicExactly(ns: seq<Node>, p: Plan, cs: seq<OrderRule>)
    requires Planned(ns, p) && Acyclic(p.es)
    ensures Acyclic(ApplyRules(p, cs).es) <==> NoneBetween(p, cs)
  {
    hide Acyclic;
    LoopState(ns, p, cs);
    if !NoneBetween(p, cs) {
      var x, y, z :| Tangled(ApplyRules(p, cs).es, x, y, z);
      TangledCycles(ApplyRules(p, cs).es, x, y, z);
    }
  }

  /** Whatever led to what before keeps leading to it unless a rule asks for the
      opposite. */
  lemma {:induction false} LoopKeepsOrder(p: Plan, cs: seq<OrderRule>, u: NodeId, v: NodeId)
    requires Reaches(p.es, u, v) && forall c :: c in cs ==> c != (v, u)
    ensures Reaches(ApplyRules(p, cs).es, u, v)
    decreases |cs|
  {
    if cs != [] {
      var front, c := cs[..|cs| - 1], cs[|cs| - 1];
      assert cs == front + [c];
      assert forall d :: d in front ==> d in cs;
      assert c in cs && c != (v, u);
      LoopKeepsOrder(p, front, u, v);
      hide Reaches, MovedEdges;
      if Moves(ApplyRules(p, front), c) {
        MoveKeepsOrder(ApplyRules(p, front).es, c.0, c.1, u, v);
      }
    }
  }

  lemma {:induction false} RulesJoin(p: Plan, cs: seq<OrderRule>, more: seq<OrderRule>)
    ensures ApplyRules(p, cs + more) == ApplyRules(ApplyRules(p, cs), more)
    decreases |more|
  {
    if more == [] {
      assert cs + more == cs;
    } else {
      var n := |more| - 1;
      assert (cs + more)[..|cs + more| - 1] == cs + more[..n];
      RulesJoin(p, cs, more[..n]);
    }
  }

  /** A rule survives to the end, unless a later one asks for the opposite, if it
      was acted on, or if its first node led to its second when it was judged. */
  lemma LoopKeepsRule(p: Plan, cs: seq<OrderRule>, c: OrderRule, more: seq<OrderRule>)
    requires var q := ApplyRules(p, cs);
      || (c.0 in q.ids && c.1 in q.ids && IndexOf(q.ids, c.0) > IndexOf(q.ids, c.1))
      || Reaches(q.es, c.0, c.1)
    requires forall d :: d in more ==> d != (c.1, c.0)
    ensures Reaches(ApplyRules(p, cs + [c] + more).es, c.0, c.1)
  {
    var q := ApplyRules(p, cs);
    if Moves(q, c) {
      MoveKeepsOrder(q.es, c.0, c.1, c.0, c.1);
    }
    assert (cs + [c])[..|cs|] == cs;
    RulesJoin(p, cs + [c], more);
    LoopKeepsOrder(ApplyRules(p, cs + [c]), more, c.0, c.1);
  }
}
