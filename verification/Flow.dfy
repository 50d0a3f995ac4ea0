/** Least stable sets of a step relation, and how splicing a point into the
    relation changes them. */
module Flow {
  import opened Graphs

  type Pairs = set<(NodeId, NodeId)>

  ghost predicate Stable(f: Pairs, s: set<NodeId>) {
    forall p :: p in f && p.0 in s ==> p.1 in s
  }

  // The least set that holds the start and is stable.
  ghost predicate Least(f: Pairs, start: NodeId, v: set<NodeId>) {
    start in v && Stable(f, v) && forall s :: start in s && Stable(f, s) ==> v <= s
  }

  lemma LeastUnique(f: Pairs, start: NodeId, v: set<NodeId>, w: set<NodeId>)
    requires Least(f, start, v) && Least(f, start, w)
    ensures v == w
  {
  }

  // A point entered only from a is not reached without a.
  lemma EnteredFrom(f: Pairs, start: NodeId, v: set<NodeId>, a: NodeId, b: NodeId)
    requires Least(f, start, v) && start != b && b in v
    requires forall p :: p in f && p.1 == b ==> p.0 == a
    ensures a in v
  {
    if a !in v {
      assert Stable(f, v - {b});
    }
  }

  // Every step into tid is diverted to n; n leads on to tid when it lets the run through.
  function Divert(f: Pairs, feeders: set<NodeId>, n: NodeId, tid: NodeId, thru: bool): Pairs {
    (set p | p in f && p.1 != tid) + (set a | a in feeders :: (a, n)) + if thru then {(n, tid)} else {}
  }

  ghost predicate Divertible(f: Pairs, feeders: set<NodeId>, start: NodeId, n: NodeId, tid: NodeId) {
    && n != tid && n != start && n !in feeders
    && (forall p :: p in f ==> p.0 != n && p.1 != n)
    && (forall p :: p in f && p.1 == tid ==> p.0 in feeders)
    && (start == tid ==> feeders == {})
  }

  function NewStart(start: NodeId, n: NodeId, tid: NodeId): NodeId { if start == tid then n else start }

  lemma DivertIn(f: Pairs, feeders: set<NodeId>, n: NodeId, tid: NodeId, thru: bool, p: (NodeId, NodeId))
    ensures p in Divert(f, feeders, n, tid, thru) <==>
      (p in f && p.1 != tid) || (p.0 in feeders && p.1 == n) || (thru && p == (n, tid))
  {
    assert p == (p.0, p.1);
  }

  // tid is entered only through n.
  lemma OnlyThroughNew(f: Pairs, fs: set<NodeId>, start: NodeId, n: NodeId, tid: NodeId, thru: bool, w: set<NodeId>)
    requires Divertible(f, fs, start, n, tid) && Least(Divert(f, fs, n, tid, thru), NewStart(start, n, tid), w)
    ensures tid in w <==> n in w && thru
  {
    var h := Divert(f, fs, n, tid, thru);
    DivertIn(f, fs, n, tid, thru, (n, tid));
    if !(n in w && thru) {
      forall p | p in h && p.0 in w - {tid} ensures p.1 in w - {tid} {
        DivertIn(f, fs, n, tid, thru, p);
      }
      assert Stable(h, w - {tid});
    }
  }

  // A feeder is in v although tid is not: its own step to tid was off.
  ghost predicate Cut(fs: set<NodeId>, tid: NodeId, v: set<NodeId>) { tid !in v && fs * v != {} }

  // What is reached once n stands before tid, and lets the run through or stops it.
  function WithNew(v: set<NodeId>, n: NodeId, tid: NodeId): set<NodeId> { v + if tid in v then {n} else {} }

  function Replaced(v: set<NodeId>, n: NodeId, tid: NodeId): set<NodeId> { v - {tid} + if tid in v then {n} else {} }

  lemma NoMore(f: Pairs, fs: set<NodeId>, start: NodeId, n: NodeId, tid: NodeId, thru: bool,
      v: set<NodeId>, w: set<NodeId>)
    requires Divertible(f, fs, start, n, tid) && Least(f, start, v) && n !in v
    requires Least(Divert(f, fs, n, tid, thru), NewStart(start, n, tid), w)
    requires !Cut(fs, tid, v)
    ensures w <= if thru then WithNew(v, n, tid) else Replaced(v, n, tid)
  {
    var h := Divert(f, fs, n, tid, thru);
    var s := if thru then WithNew(v, n, tid) else Replaced(v, n, tid);
    forall p | p in h && p.0 in s ensures p.1 in s {
      DivertIn(f, fs, n, tid, thru, p);
      if p.0 in fs {
        assert p.0 in fs * v;
      }
    }
    assert Stable(h, s);
  }

  lemma NoLess(f: Pairs, fs: set<NodeId>, start: NodeId, n: NodeId, tid: NodeId, thru: bool,
               v: set<NodeId>, w: set<NodeId>, extra: set<NodeId>)
    requires Divertible(f, fs, start, n, tid) && Least(f, start, v)
    requires Least(Divert(f, fs, n, tid, thru), NewStart(start, n, tid), w)
    requires extra == {} || (extra == {tid} && forall p :: p in f ==> p.0 != tid)
    requires n in w ==> thru || extra == {tid}
    ensures v <= w - {n} + extra
  {
    var s := w - {n} + extra;
    OnlyThroughNew(f, fs, start, n, tid, thru, w);
    forall p | p in f && p.0 in s ensures p.1 in s {
      DivertIn(f, fs, n, tid, thru, p);
      DivertIn(f, fs, n, tid, thru, (p.0, n));
    }
    assert Stable(f, s);
  }

  /** Letting the run through: the same points are reached, exactly unless a
      step into the target was off; the new point is reached with the target. */
  lemma DivertThrough(f: Pairs, fs: set<NodeId>, start: NodeId, n: NodeId, tid: NodeId, v: set<NodeId>, w: set<NodeId>)
    requires Divertible(f, fs, start, n, tid) && Least(f, start, v) && n !in v
    requires Least(Divert(f, fs, n, tid, true), NewStart(start, n, tid), w)
    ensures w - {n} == v <==> !Cut(fs, tid, v)
    ensures !Cut(fs, tid, v) ==> w == WithNew(v, n, tid)
  {
    OnlyThroughNew(f, fs, start, n, tid, true, w);
    if Cut(fs, tid, v) {
      var a :| a in fs * v;
      DivertIn(f, fs, n, tid, true, (a, n));
    } else {
      NoMore(f, fs, start, n, tid, true, v, w);
      NoLess(f, fs, start, n, tid, true, v, w, {});
    }
  }

  /** Stopping the run: the target is out of reach, the new point is reached
      when the target was, and nothing else is lost if the target led nowhere. */
  lemma DivertStopped(f: Pairs, fs: set<NodeId>, start: NodeId, n: NodeId, tid: NodeId, v: set<NodeId>, w: set<NodeId>)
    requires Divertible(f, fs, start, n, tid) && Least(f, start, v) && n !in v
    requires Least(Divert(f, fs, n, tid, false), NewStart(start, n, tid), w)
    ensures tid !in w
    ensures !Cut(fs, tid, v) ==> w - {n} <= v - {tid} && (n in w <==> tid in v)
    ensures !Cut(fs, tid, v) && (forall p :: p in f ==> p.0 != tid) ==> w == Replaced(v, n, tid)
  {
    OnlyThroughNew(f, fs, start, n, tid, false, w);
    if !Cut(fs, tid, v) {
      NoMore(f, fs, start, n, tid, false, v, w);
      if n !in w {
        NoLess(f, fs, start, n, tid, false, v, w, {});
      } else if forall p :: p in f ==> p.0 != tid {
        NoLess(f, fs, start, n, tid, false, v, w, {tid});
      }
    }
  }
}
