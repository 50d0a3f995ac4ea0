/** The edge-list operations shared by the two rewrites of the patcher. */
module Rewiring {
  import opened Graphs
  import opened Dag

  // Sources of the edges into tid, one entry per edge.
  function Preds(es: seq<Edge>, tid: NodeId, newId: NodeId): (r: seq<NodeId>)
    ensures forall p :: p in r <==> p != newId && HasEdge(es, p, tid)
  {
    if es == [] then [] else
      var last := es[|es| - 1];
      var front := es[..|es| - 1];
      assert es == front + [last];
      Preds(front, tid, newId) + if last.dst == tid && last.src != newId then [last.src] else []
  }

  function Without(es: seq<Edge>, ps: seq<NodeId>, tid: NodeId): (r: seq<Edge>)
    ensures forall e :: e in r <==> e in es && !(e.src in ps && e.dst == tid)
    ensures NoDuplicates(es) ==> NoDuplicates(r)
  {
    if es == [] then [] else
      var last := es[|es| - 1];
      var front := es[..|es| - 1];
      assert es == front + [last];
      NoDuplicatesJoin(front, [last]);
      var r := Without(front, ps, tid);
      NoDuplicatesJoin(r, [last]);
      if last.src in ps && last.dst == tid then r else r + [last]
  }

  function Into(ps: seq<NodeId>, to: NodeId): (r: seq<Edge>)
    ensures |r| == |ps| && forall i :: 0 <= i < |ps| ==> r[i] == NextEdge(ps[i], to)
    ensures forall e :: e in r <==> e.src in ps && e == NextEdge(e.src, to)
  {
    if ps == [] then [] else
      assert ps == ps[..|ps| - 1] + [ps[|ps| - 1]];
      Into(ps[..|ps| - 1], to) + [NextEdge(ps[|ps| - 1], to)]
  }

  lemma IntoNoDuplicates(ps: seq<NodeId>, to: NodeId)
    ensures NoDuplicates(Into(ps, to)) <==> NoDup(ps)
  {
    var r := Into(ps, to);
    forall i, j | 0 <= i < j < |ps| ensures SameKey(r[i], r[j]) <==> ps[i] == ps[j] {}
    if NoDuplicates(r) {
      forall i, j | 0 <= i < j < |ps| ensures ps[i] != ps[j] { assert !SameKey(r[i], r[j]); }
    }
  }

  // Targets of the edges out of a, except those into b, one entry per edge.
  function Succs(es: seq<Edge>, a: NodeId, b: NodeId): (r: seq<NodeId>)
    ensures forall s :: s in r <==> s != b && HasEdge(es, a, s)
  {
    if es == [] then [] else
      var last := es[|es| - 1];
      var front := es[..|es| - 1];
      assert es == front + [last];
      Succs(front, a, b) + if last.src == a && last.dst != b then [last.dst] else []
  }

  function OutOf(from: NodeId, ss: seq<NodeId>): (r: seq<Edge>)
    ensures |r| == |ss| && forall i :: 0 <= i < |ss| ==> r[i] == NextEdge(from, ss[i])
    ensures forall e :: e in r <==> e.dst in ss && e == NextEdge(from, e.dst)
  {
    if ss == [] then [] else
      assert ss == ss[..|ss| - 1] + [ss[|ss| - 1]];
      OutOf(from, ss[..|ss| - 1]) + [NextEdge(from, ss[|ss| - 1])]
  }

  lemma OutOfNoDuplicates(from: NodeId, ss: seq<NodeId>)
    ensures NoDuplicates(OutOf(from, ss)) <==> NoDup(ss)
  {
    var r := OutOf(from, ss);
    forall i, j | 0 <= i < j < |ss| ensures SameKey(r[i], r[j]) <==> ss[i] == ss[j] {}
    if NoDuplicates(r) {
      forall i, j | 0 <= i < j < |ss| ensures ss[i] != ss[j] { assert !SameKey(r[i], r[j]); }
    }
  }

  // Neither into b, nor out of a, nor between the two.
  function Apart(es: seq<Edge>, a: NodeId, b: NodeId): (r: seq<Edge>)
    ensures forall e :: e in r <==> e in es && e.dst != b && e.src != a && !(e.src == b && e.dst == a)
    ensures NoDuplicates(es) ==> NoDuplicates(r)
  {
    if es == [] then [] else
      var last := es[|es| - 1];
      var front := es[..|es| - 1];
      assert es == front + [last];
      NoDuplicatesJoin(front, [last]);
      var r := Apart(front, a, b);
      NoDuplicatesJoin(r, [last]);
      if last.dst != b && last.src != a && !(last.src == b && last.dst == a) then r + [last] else r
  }
}
