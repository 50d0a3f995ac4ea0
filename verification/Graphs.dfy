/** Procedure graphs, paths, ranks and cycles. */
module Graphs {
  import opened Wrappers
  import opened Expr

  type NodeId = nat
  type Action = nat

  // The node shapes the code tells apart. A task is an action without a form field:
  // the interpreter only visits it. Plain covers approvals and role steps.
  datatype Impl =
    | Threshold(field: Field, op: Op, want: Operand)
    | Deadline(field: Field, op: Op, want: Operand)
    | Prohibition(field: Field, op: Op, want: Operand)
    | Form(action: Action, required: bool, cond: Option<Cond>)
    | Task(action: Action, required: bool, cond: Option<Cond>)
    | Submit
    | Plain

  datatype Node = Node(id: NodeId, impl: Impl)

  datatype Edge = Edge(src: NodeId, dst: NodeId, branch: bool, cond: Option<Cond>)

  datatype Graph = Graph(nodes: seq<Node>, edges: seq<Edge>)

  function NextEdge(a: NodeId, b: NodeId): Edge { Edge(a, b, false, None) }

  // ---- Nodes by id: a later entry with the same id replaces an earlier one ----

  function Ids(ns: seq<Node>): set<NodeId> { set n | n in ns :: n.id }

  // The ids in order of first appearance.
  function Keys(ns: seq<Node>): (r: seq<NodeId>)
    ensures forall id :: id in r <==> id in Ids(ns)
    ensures NoDup(r)
  {
    if ns == [] then [] else
      var last := ns[|ns| - 1];
      var front := ns[..|ns| - 1];
      assert ns == front + [last];
      var r := Keys(front);
      if last.id in r then r else r + [last.id]
  }

  function ImplOf(ns: seq<Node>, id: NodeId): (r: Impl)
    requires id in Ids(ns)
    ensures Node(id, r) in ns
  {
    var last := ns[|ns| - 1];
    var front := ns[..|ns| - 1];
    assert ns == front + [last];
    if last.id == id then last.impl else ImplOf(front, id)
  }

  /** Of several entries with one id the last counts. */
  lemma {:induction false} LastEntryCounts(ns: seq<Node>, i: nat)
    requires i < |ns| && forall j :: i < j < |ns| ==> ns[j].id != ns[i].id
    ensures ns[i].id in Ids(ns) && ImplOf(ns, ns[i].id) == ns[i].impl
    decreases |ns|
  {
    var n := |ns| - 1;
    assert ns[i] in ns;
    if i != n {
      LastEntryCounts(ns[..n], i);
    }
  }

  lemma ImplOfAppend(ns: seq<Node>, n: Node, id: NodeId)
    requires id in Ids(ns) && id != n.id
    ensures id in Ids(ns + [n]) && ImplOf(ns + [n], id) == ImplOf(ns, id)
  {
    assert (ns + [n])[..|ns|] == ns;
    var m :| m in ns && m.id == id;
    assert m in ns + [n];
  }

  lemma IdsAppend(ns: seq<Node>, n: Node)
    ensures Ids(ns + [n]) == Ids(ns) + {n.id}
    ensures ImplOf(ns + [n], n.id) == n.impl
  {
    assert n in ns + [n];
    assert forall m :: m in ns + [n] <==> m in ns || m == n;
  }

  // ---- Sequences and sets ---------------------------------------------------

  ghost predicate NoDup<T>(s: seq<T>) { forall i, j :: 0 <= i < j < |s| ==> s[i] != s[j] }

  function Elems<T>(s: seq<T>): set<T> { set x | x in s }

  lemma Member<T>(s: set<T>) returns (x: T)
    requires s != {}
    ensures x in s
  {
    x :| x in s;
  }

  lemma ElemsSnoc<T>(s: seq<T>, x: T)
    ensures Elems(s + [x]) == Elems(s) + {x}
  {
  }

  lemma {:induction false} NoDupCard<T>(s: seq<T>)
    requires NoDup(s)
    ensures |Elems(s)| == |s|
    decreases |s|
  {
    if s != [] {
      var front, last := s[..|s| - 1], s[|s| - 1];
      assert s == front + [last];
      NoDupCard(front);
      ElemsSnoc(front, last);
      assert last !in front;
    }
  }

  lemma SubsetCard<T>(a: set<T>, b: set<T>)
    requires a <= b
    ensures |a| <= |b|
    ensures |a| == |b| ==> a == b
  {
    assert b == a + (b - a);
    assert |b| == |a| + |b - a|;
  }

  // Pigeonhole: a sequence longer than the set it is drawn from repeats itself.
  lemma Pigeonhole<T>(s: seq<T>, from: set<T>) returns (i: nat, j: nat)
    requires |s| > |from| && forall k :: 0 <= k < |s| ==> s[k] in from
    ensures i < j < |s| && s[i] == s[j]
  {
    if NoDup(s) {
      NoDupCard(s);
      SubsetCard(Elems(s), from);
      assert false;
    }
    i, j :| 0 <= i < j < |s| && s[i] == s[j];
  }

  // ---- Edges, paths, ranks ---------------------------------------------------

  ghost predicate HasEdge(es: seq<Edge>, a: NodeId, b: NodeId) {
    exists e :: e in es && e.src == a && e.dst == b
  }

  ghost predicate IsPath(es: seq<Edge>, p: seq<NodeId>) {
    |p| >= 1 && forall i :: 0 <= i < |p| - 1 ==> HasEdge(es, p[i], p[i + 1])
  }

  ghost predicate PathFromTo(es: seq<Edge>, p: seq<NodeId>, a: NodeId, b: NodeId) {
    IsPath(es, p) && p[0] == a && p[|p| - 1] == b
  }

  ghost predicate Reaches(es: seq<Edge>, a: NodeId, b: NodeId) {
    exists p :: PathFromTo(es, p, a, b)
  }

  ghost predicate Cycle(es: seq<Edge>, p: seq<NodeId>) {
    IsPath(es, p) && |p| >= 2 && p[0] == p[|p| - 1]
  }

  ghost predicate Acyclic(es: seq<Edge>) { forall p :: !Cycle(es, p) }

  // A rank that grows along every edge: the certificate of acyclicity.
  ghost predicate Ranked(es: seq<Edge>, r: map<NodeId, int>) {
    forall e :: e in es ==> e.src in r && e.dst in r && r[e.src] < r[e.dst]
  }

  lemma ReachesSelf(es: seq<Edge>, a: NodeId)
    ensures Reaches(es, a, a)
  {
    assert PathFromTo(es, [a], a, a);
  }

  lemma ReachesStep(es: seq<Edge>, a: NodeId, b: NodeId, c: NodeId)
    requires Reaches(es, a, b) && HasEdge(es, b, c)
    ensures Reaches(es, a, c)
  {
    var p :| PathFromTo(es, p, a, b);
    assert PathFromTo(es, p + [c], a, c);
  }

  lemma ReachesTrans(es: seq<Edge>, a: NodeId, b: NodeId, c: NodeId)
    requires Reaches(es, a, b) && Reaches(es, b, c)
    ensures Reaches(es, a, c)
  {
    var p :| PathFromTo(es, p, a, b);
    var q :| PathFromTo(es, q, b, c);
    var r := p + q[1..];
    forall i | 0 <= i < |r| - 1
      ensures HasEdge(es, r[i], r[i + 1])
    {
      if i < |p| - 1 {
        assert HasEdge(es, p[i], p[i + 1]);
      } else {
        assert HasEdge(es, q[i - |p| + 1], q[i - |p| + 2]);
      }
    }
    assert PathFromTo(es, r, a, c);
  }

  lemma PathRanks(es: seq<Edge>, r: map<NodeId, int>, p: seq<NodeId>)
    requires Ranked(es, r) && IsPath(es, p) && |p| >= 2
    ensures p[0] in r && p[|p| - 1] in r && r[p[0]] < r[p[|p| - 1]]
  {
    assert HasEdge(es, p[|p| - 2], p[|p| - 1]);
    if |p| > 2 {
      PathRanks(es, r, p[..|p| - 1]);
    }
  }

  lemma RankedReaches(es: seq<Edge>, r: map<NodeId, int>, a: NodeId, b: NodeId)
    requires Ranked(es, r) && Reaches(es, a, b) && a != b
    ensures a in r && b in r && r[a] < r[b]
  {
    var p :| PathFromTo(es, p, a, b);
    PathRanks(es, r, p);
  }

  lemma RankedAcyclic(es: seq<Edge>, r: map<NodeId, int>)
    requires Ranked(es, r)
    ensures Acyclic(es)
  {
    forall p ensures !Cycle(es, p) {
      if Cycle(es, p) {
        PathRanks(es, r, p);
      }
    }
  }

  // ---- Every node of a closed set has a predecessor in it: there is a cycle ----

  ghost predicate PredIn(es: seq<Edge>, s: set<NodeId>, b: NodeId) {
    exists a :: a in s && HasEdge(es, a, b)
  }

  ghost predicate Backed(es: seq<Edge>, s: set<NodeId>) {
    forall b {:trigger PredIn(es, s, b)} :: b in s ==> PredIn(es, s, b)
  }

  lemma {:induction false} BackWalk(es: seq<Edge>, s: set<NodeId>, n: nat) returns (w: seq<NodeId>)
    requires Backed(es, s) && s != {}
    ensures |w| == n + 1 && forall i :: 0 <= i <= n ==> w[i] in s
    ensures forall i :: 0 < i <= n ==> HasEdge(es, w[i], w[i - 1])
  {
    if n == 0 {
      var a :| a in s;
      w := [a];
    } else {
      w := BackWalk(es, s, n - 1);
      assert PredIn(es, s, w[n - 1]);
      var a :| a in s && HasEdge(es, a, w[n - 1]);
      w := w + [a];
    }
  }

  lemma BackedHasCycle(es: seq<Edge>, s: set<NodeId>) returns (p: seq<NodeId>)
    requires Backed(es, s) && s != {}
    ensures Cycle(es, p) && forall i :: 0 <= i < |p| ==> p[i] in s
  {
    var w := BackWalk(es, s, |s|);
    var i, j := Pigeonhole(w, s);
    p := seq(j - i + 1, k requires 0 <= k <= j - i => w[j - k]);
    forall k | 0 <= k < |p| - 1 ensures HasEdge(es, p[k], p[k + 1]) {
      assert HasEdge(es, w[j - k], w[j - k - 1]);
    }
  }
}
