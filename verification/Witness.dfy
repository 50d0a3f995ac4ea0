/** The bounded search for a case on which policy and procedure disagree
    (services/witness/generator.py), and its completeness over the unbounded domain. */
module Witness {
  import opened Wrappers
  import opened Expr
  import opened Graphs
  import opened Dag
  import opened Interpreter
  import opened Compiler
  import opened Differ
  import opened Boundary

  // ---- Literals -----------------------------------------------------------------------

  function LeafSet(ls: seq<Leaf>): set<Leaf> { set l | l in ls }

  function ImplLeaves(i: Impl): seq<Leaf> {
    match i
    case Threshold(f, op, w) => [Leaf(f, op, w)]
    case Deadline(f, op, w) => [Leaf(f, op, w)]
    case Prohibition(f, op, w) => [Leaf(f, op, w)]
    case Form(_, _, c) => LeavesOpt(c)
    case Submit => []
    case Task(_, _, c) => LeavesOpt(c)
    case Plain => []
  }

  function ModeLeaves(m: Mode): seq<Leaf> { if m.Conditional? then Leaves(m.cond) else [] }

  // A literal set per field; an empty membership list contributes nothing.
  function FieldsIn(ls: set<Leaf>): set<Field> { set l | l in ls && Members(l.want) != [] :: l.field }

  function ValuesIn(ls: set<Leaf>, f: Field): set<real> {
    set l, v | l in ls && l.field == f && v in Members(l.want) :: v
  }

  function LiteralsOf(ls: set<Leaf>): Literals { map f | f in FieldsIn(ls) :: ValuesIn(ls, f) }

  function AddLeaf(lits: Literals, l: Leaf): Literals {
    if Members(l.want) == [] then lits else
      lits[l.field := (if l.field in lits then lits[l.field] else {}) + set v | v in Members(l.want)]
  }

  lemma LiteralIn(ls: set<Leaf>, l: Leaf, v: real)
    requires l in ls && v in Members(l.want)
    ensures l.field in LiteralsOf(ls) && v in LiteralsOf(ls)[l.field]
  {
    assert Members(l.want) != [];
  }

  lemma LiteralFrom(ls: set<Leaf>, f: Field, v: real) returns (l: Leaf)
    requires f in LiteralsOf(ls) && v in LiteralsOf(ls)[f]
    ensures l in ls && l.field == f && v in Members(l.want)
  {
    l :| l in ls && l.field == f && v in Members(l.want);
  }

  lemma AddLeafKeys(ls: set<Leaf>, l: Leaf)
    ensures AddLeaf(LiteralsOf(ls), l).Keys == LiteralsOf(ls + {l}).Keys
  {
  }

  lemma AddLeafValues(ls: set<Leaf>, l: Leaf, f: Field)
    requires f in AddLeaf(LiteralsOf(ls), l) && f in LiteralsOf(ls + {l})
    ensures AddLeaf(LiteralsOf(ls), l)[f] == LiteralsOf(ls + {l})[f]
  {
    var a, b := AddLeaf(LiteralsOf(ls), l)[f], LiteralsOf(ls + {l})[f];
    forall v | v in a ensures v in b {
      if f in LiteralsOf(ls) && v in LiteralsOf(ls)[f] {
        var k := LiteralFrom(ls, f, v);
        LiteralIn(ls + {l}, k, v);
      } else {
        LiteralIn(ls + {l}, l, v);
      }
    }
    forall v | v in b ensures v in a {
      var k := LiteralFrom(ls + {l}, f, v);
      if k in ls {
        LiteralIn(ls, k, v);
      }
    }
  }

  lemma AddLeafIs(ls: set<Leaf>, l: Leaf)
    ensures AddLeaf(LiteralsOf(ls), l) == LiteralsOf(ls + {l})
  {
    AddLeafKeys(ls, l);
    forall f | f in LiteralsOf(ls + {l}) { AddLeafValues(ls, l, f); }
  }

  method AddLeaves(lits0: Literals, ls: seq<Leaf>, ghost seen: set<Leaf>) returns (lits: Literals)
    requires lits0 == LiteralsOf(seen)
    ensures lits == LiteralsOf(seen + LeafSet(ls))
  {
    lits := lits0;
    assert seen + LeafSet(ls[..0]) == seen;
    for i := 0 to |ls|
      invariant lits == LiteralsOf(seen + LeafSet(ls[..i]))
    {
      AddLeafIs(seen + LeafSet(ls[..i]), ls[i]);
      assert ls[..i + 1] == ls[..i] + [ls[i]];
      assert seen + LeafSet(ls[..i + 1]) == seen + LeafSet(ls[..i]) + {ls[i]};
      lits := AddLeaf(lits, ls[i]);
    }
    assert ls[..|ls|] == ls;
  }

  // The comparisons in the order the collector meets them.
  function EligibilityLeaves(cs: seq<Criterion>): seq<Leaf> {
    if cs == [] then [] else EligibilityLeaves(cs[..|cs| - 1]) + Leaves(cs[|cs| - 1].cond)
  }

  function WaiverLeaves(es: seq<Waiver>): seq<Leaf> {
    if es == [] then [] else WaiverLeaves(es[..|es| - 1]) + LeavesOpt(es[|es| - 1].cond)
  }

  function DueLeaves(ds: seq<Due>): seq<Leaf> {
    if ds == [] then [] else
      DueLeaves(ds[..|ds| - 1]) + [Leaf(ds[|ds| - 1].field, ds[|ds| - 1].op, ds[|ds| - 1].want)]
  }

  function BanLeaves(ps: seq<Ban>): seq<Leaf> {
    if ps == [] then [] else BanLeaves(ps[..|ps| - 1]) + LeavesOpt(ps[|ps| - 1].cond)
  }

  function NodeLeaves(ns: seq<Node>): seq<Leaf> {
    if ns == [] then [] else NodeLeaves(ns[..|ns| - 1]) + ImplLeaves(ns[|ns| - 1].impl)
  }

  lemma {:induction false} EligibilityLeavesHave(cs: seq<Criterion>, c: Criterion, l: Leaf)
    requires c in cs && l in Leaves(c.cond)
    ensures l in EligibilityLeaves(cs)
    decreases |cs|
  {
    var front, last := cs[..|cs| - 1], cs[|cs| - 1];
    assert cs == front + [last];
    if c in front {
      EligibilityLeavesHave(front, c, l);
    }
  }

  lemma {:induction false} WaiverLeavesHave(es: seq<Waiver>, e: Waiver, l: Leaf)
    requires e in es && l in LeavesOpt(e.cond)
    ensures l in WaiverLeaves(es)
    decreases |es|
  {
    var front, last := es[..|es| - 1], es[|es| - 1];
    assert es == front + [last];
    if e in front {
      WaiverLeavesHave(front, e, l);
    }
  }

  lemma {:induction false} DueLeavesHave(ds: seq<Due>, d: Due, l: Leaf)
    requires d in ds && l in [Leaf(d.field, d.op, d.want)]
    ensures l in DueLeaves(ds)
    decreases |ds|
  {
    var front, last := ds[..|ds| - 1], ds[|ds| - 1];
    assert ds == front + [last];
    if d in front {
      DueLeavesHave(front, d, l);
    }
  }

  lemma {:induction false} BanLeavesHave(ps: seq<Ban>, p: Ban, l: Leaf)
    requires p in ps && l in LeavesOpt(p.cond)
    ensures l in BanLeaves(ps)
    decreases |ps|
  {
    var front, last := ps[..|ps| - 1], ps[|ps| - 1];
    assert ps == front + [last];
    if p in front {
      BanLeavesHave(front, p, l);
    }
  }

  lemma {:induction false} NodeLeavesHave(ns: seq<Node>, n: Node, l: Leaf)
    requires n in ns && l in ImplLeaves(n.impl)
    ensures l in NodeLeaves(ns)
    decreases |ns|
  {
    var front, last := ns[..|ns| - 1], ns[|ns| - 1];
    assert ns == front + [last];
    if n in front {
      NodeLeavesHave(front, n, l);
    }
  }

  function ObligationLeaves(m: Model, actions: set<Action>): set<Leaf>
    requires actions <= m.obligations.Keys
  {
    set a, l | a in actions && l in ModeLeaves(m.obligations[a].mode) :: l
  }

  // Every comparison the search looks at: the model's and the nodes', not the edges'.
  function SearchedLeaves(m: Model, g: Graph): set<Leaf> {
    LeafSet(EligibilityLeaves(m.eligibility)) + ObligationLeaves(m, m.obligations.Keys)
    + LeafSet(WaiverLeaves(m.exceptions)) + LeafSet(DueLeaves(m.deadlines))
    + LeafSet(BanLeaves(m.prohibitions)) + LeafSet(NodeLeaves(g.nodes))
  }

  lemma {:induction false} EligibilityLeavesFrom(cs: seq<Criterion>, l: Leaf)
    requires l in EligibilityLeaves(cs)
    ensures exists c :: c in cs && l in Leaves(c.cond)
    decreases |cs|
  {
    var front, last := cs[..|cs| - 1], cs[|cs| - 1];
    assert cs == front + [last] && last in cs;
    if l in EligibilityLeaves(front) {
      EligibilityLeavesFrom(front, l);
    }
  }

  lemma {:induction false} WaiverLeavesFrom(es: seq<Waiver>, l: Leaf)
    requires l in WaiverLeaves(es)
    ensures exists e :: e in es && l in LeavesOpt(e.cond)
    decreases |es|
  {
    var front, last := es[..|es| - 1], es[|es| - 1];
    assert es == front + [last] && last in es;
    if l in WaiverLeaves(front) {
      WaiverLeavesFrom(front, l);
    }
  }

  lemma {:induction false} DueLeavesFrom(ds: seq<Due>, l: Leaf)
    requires l in DueLeaves(ds)
    ensures exists d :: d in ds && l == Leaf(d.field, d.op, d.want)
    decreases |ds|
  {
    var front, last := ds[..|ds| - 1], ds[|ds| - 1];
    assert ds == front + [last] && last in ds;
    if l in DueLeaves(front) {
      DueLeavesFrom(front, l);
    }
  }

  lemma {:induction false} BanLeavesFrom(ps: seq<Ban>, l: Leaf)
    requires l in BanLeaves(ps)
    ensures exists p :: p in ps && l in LeavesOpt(p.cond)
    decreases |ps|
  {
    var front, last := ps[..|ps| - 1], ps[|ps| - 1];
    assert ps == front + [last] && last in ps;
    if l in BanLeaves(front) {
      BanLeavesFrom(front, l);
    }
  }

  lemma {:induction false} NodeLeavesFrom(ns: seq<Node>, l: Leaf)
    requires l in NodeLeaves(ns)
    ensures exists n :: n in ns && l in ImplLeaves(n.impl)
    decreases |ns|
  {
    var front, last := ns[..|ns| - 1], ns[|ns| - 1];
    assert ns == front + [last] && last in ns;
    if l in NodeLeaves(front) {
      NodeLeavesFrom(front, l);
    }
  }

  predicate InNode(i: Impl, l: Leaf) {
    || ((i.Threshold? || i.Deadline? || i.Prohibition?) && l == Leaf(i.field, i.op, i.want))
    || ((i.Form? || i.Task?) && i.cond.Some? && l in Leaves(i.cond.value))
  }

  predicate InObligation(o: Obligation, l: Leaf) { o.mode.Conditional? && l in Leaves(o.mode.cond) }

  /** The comparisons searched are those of the rules' conditions, the deadlines, the
      gates, and the conditions of forms and tasks; none else. */
  lemma SearchedMeans(m: Model, g: Graph, l: Leaf)
    ensures l in SearchedLeaves(m, g) <==>
      || (exists c :: c in m.eligibility && l in Leaves(c.cond))
      || (exists a :: a in m.obligations && InObligation(m.obligations[a], l))
      || (exists e :: e in m.exceptions && e.cond.Some? && l in Leaves(e.cond.value))
      || (exists d :: d in m.deadlines && l == Leaf(d.field, d.op, d.want))
      || (exists p :: p in m.prohibitions && p.cond.Some? && l in Leaves(p.cond.value))
      || (exists n :: n in g.nodes && InNode(n.impl, l))
  {
    forall i: Impl ensures l in ImplLeaves(i) <==> InNode(i, l) {}
    forall a | a in m.obligations
      ensures l in ModeLeaves(m.obligations[a].mode) <==> InObligation(m.obligations[a], l)
    {}
    forall c: Option<Cond> ensures l in LeavesOpt(c) <==> c.Some? && l in Leaves(c.value) {}
    if l in EligibilityLeaves(m.eligibility) { EligibilityLeavesFrom(m.eligibility, l); }
    if l in WaiverLeaves(m.exceptions) { WaiverLeavesFrom(m.exceptions, l); }
    if l in DueLeaves(m.deadlines) { DueLeavesFrom(m.deadlines, l); }
    if l in BanLeaves(m.prohibitions) { BanLeavesFrom(m.prohibitions, l); }
    if l in NodeLeaves(g.nodes) { NodeLeavesFrom(g.nodes, l); }
    hide EligibilityLeaves, WaiverLeaves, DueLeaves, BanLeaves, NodeLeaves, ImplLeaves, LeavesOpt, Leaves, InNode,
      ModeLeaves, InObligation;
    forall c | c in m.eligibility && l in Leaves(c.cond) { EligibilityLeavesHave(m.eligibility, c, l); }
    forall e | e in m.exceptions && l in LeavesOpt(e.cond) { WaiverLeavesHave(m.exceptions, e, l); }
    forall d | d in m.deadlines && l == Leaf(d.field, d.op, d.want) { DueLeavesHave(m.deadlines, d, l); }
    forall p | p in m.prohibitions && l in LeavesOpt(p.cond) { BanLeavesHave(m.prohibitions, p, l); }
    forall n | n in g.nodes && l in ImplLeaves(n.impl) { NodeLeavesHave(g.nodes, n, l); }
  }

  method AddObligations(m: Model, lits0: Literals, ghost seen: set<Leaf>) returns (lits: Literals)
    requires lits0 == LiteralsOf(seen)
    ensures lits == LiteralsOf(seen + ObligationLeaves(m, m.obligations.Keys))
  {
    lits := lits0;
    var todo := m.obligations.Keys;
    ghost var done: set<Action> := {};
    assert seen + ObligationLeaves(m, done) == seen;
    while todo != {}
      invariant todo <= m.obligations.Keys && done == m.obligations.Keys - todo
      invariant lits == LiteralsOf(seen + ObligationLeaves(m, done))
    {
      var a := Any(todo);
      ghost var before := seen + ObligationLeaves(m, done);
      lits := AddLeaves(lits, ModeLeaves(m.obligations[a].mode), before);
      todo, done := todo - {a}, done + {a};
      assert seen + ObligationLeaves(m, done) == before + LeafSet(ModeLeaves(m.obligations[a].mode));
    }
    assert done == m.obligations.Keys;
  }

  method CollectLiterals(m: Model, g: Graph) returns (lits: Literals)
    ensures lits == LiteralsOf(SearchedLeaves(m, g))
  {
    ghost var seen: set<Leaf> := {};
    lits := map[];
    assert lits == LiteralsOf(seen);
    lits := AddLeaves(lits, EligibilityLeaves(m.eligibility), seen);
    seen := seen + LeafSet(EligibilityLeaves(m.eligibility));
    lits := AddObligations(m, lits, seen);
    seen := seen + ObligationLeaves(m, m.obligations.Keys);
    lits := AddLeaves(lits, WaiverLeaves(m.exceptions), seen);
    seen := seen + LeafSet(WaiverLeaves(m.exceptions));
    lits := AddLeaves(lits, DueLeaves(m.deadlines), seen);
    seen := seen + LeafSet(DueLeaves(m.deadlines));
    lits := AddLeaves(lits, BanLeaves(m.prohibitions), seen);
    seen := seen + LeafSet(BanLeaves(m.prohibitions));
    lits := AddLeaves(lits, NodeLeaves(g.nodes), seen);
    assert seen + LeafSet(NodeLeaves(g.nodes)) == SearchedLeaves(m, g);
  }

  // ---- Candidate cases --------------------------------------------------------------------

  // The search's fixed tables: kinds of the fields, extra values per field, baseline case.
  datatype Setup = Setup(kinds: map<Field, FieldKind>, defaults: map<Field, set<real>>, base: Case, cap: nat)

  function KindOf(s: Setup, f: Field): FieldKind { if f in s.kinds then s.kinds[f] else Number }

  function Values(s: Setup, lits: Literals, f: Field): set<real>
    requires f in lits
  {
    Neighbors(KindOf(s, f), lits[f]) + if f in s.defaults then s.defaults[f] else {}
  }

  // One case per value of the first field and case of the rest, the last field fastest.
  function WithField(f: Field, vs: seq<real>, rest: seq<Case>): seq<Case> {
    if vs == [] then [] else
      seq(|rest|, i requires 0 <= i < |rest| => rest[i][f := vs[0]]) + WithField(f, vs[1..], rest)
  }

  function Product(fs: seq<Field>, per: map<Field, seq<real>>): seq<Case>
    requires forall f :: f in fs ==> f in per
  {
    if fs == [] then [map[]] else WithField(fs[0], per[fs[0]], Product(fs[1..], per))
  }

  function MergeBase(base: Case, cs: seq<Case>): (r: seq<Case>)
    ensures |r| == |cs| && forall i :: 0 <= i < |cs| ==> r[i] == base + cs[i]
  {
    seq(|cs|, i requires 0 <= i < |cs| => base + cs[i])
  }

  lemma {:induction false} WithFieldHas(f: Field, vs: seq<real>, rest: seq<Case>, v: real, c: Case)
    requires v in vs && c in rest
    ensures c[f := v] in WithField(f, vs, rest)
    decreases |vs|
  {
    var here := seq(|rest|, i requires 0 <= i < |rest| => rest[i][f := vs[0]]);
    if v == vs[0] {
      var i :| 0 <= i < |rest| && rest[i] == c;
      assert here[i] == c[f := v];
      assert here[i] in here;
    } else {
      WithFieldHas(f, vs[1..], rest, v, c);
    }
  }

  function Slice(fs: seq<Field>, c: Case): Case
    requires forall f :: f in fs ==> f in c
  {
    map f | f in fs :: c[f]
  }

  /** The product holds every choice of one value per field. */
  lemma {:induction false} ProductHas(fs: seq<Field>, per: map<Field, seq<real>>, c: Case)
    requires forall f :: f in fs ==> f in per && f in c && c[f] in per[f]
    ensures Slice(fs, c) in Product(fs, per)
    decreases |fs|
  {
    if fs != [] {
      var f, rest := fs[0], fs[1..];
      assert fs == [f] + rest && f in fs;
      ProductHas(rest, per, c);
      WithFieldHas(f, per[f], Product(rest, per), c[f], Slice(rest, c));
      assert Slice(rest, c)[f := c[f]] == Slice(fs, c);
    }
  }

  /** And nothing else. */
  lemma {:induction false} ProductOnly(fs: seq<Field>, per: map<Field, seq<real>>, c: Case)
    requires (forall f :: f in fs ==> f in per) && c in Product(fs, per)
    ensures forall f :: f in c ==> f in fs && c[f] in per[f]
    ensures forall f :: f in fs ==> f in c
    decreases |fs|
  {
    if fs != [] {
      var f, rest := fs[0], fs[1..];
      assert fs == [f] + rest && f in fs;
      var v, d := WithFieldFrom(f, per[f], Product(rest, per), c);
      ProductOnly(rest, per, d);
    }
  }

  lemma {:induction false} WithFieldFrom(f: Field, vs: seq<real>, rest: seq<Case>, c: Case) returns (v: real, d: Case)
    requires c in WithField(f, vs, rest)
    ensures v in vs && d in rest && c == d[f := v]
    decreases |vs|
  {
    var here := seq(|rest|, i requires 0 <= i < |rest| => rest[i][f := vs[0]]);
    if c in here {
      var i :| 0 <= i < |here| && here[i] == c;
      v, d := vs[0], rest[i];
    } else {
      v, d := WithFieldFrom(f, vs[1..], rest, c);
    }
  }

  ghost predicate Enumerates<T>(s: seq<T>, all: set<T>) { NoDup(s) && Elems(s) == all }

  method ListOf<T(==)>(all: set<T>) returns (s: seq<T>)
    ensures Enumerates(s, all)
  {
    s := [];
    var rest := all;
    while rest != {}
      invariant rest <= all && Enumerates(s, all - rest)
    {
      var x := Any(rest);
      rest := rest - {x};
      s := s + [x];
      assert all - rest == (all - (rest + {x})) + {x};
      assert Elems(s) == Elems(s[..|s| - 1]) + {x};
    }
    assert all - rest == all;
  }

  // A listing of the cases: fields and values in some order, cut at the cap.
  ghost predicate Lists(s: Setup, lits: Literals, fs: seq<Field>, per: map<Field, seq<real>>) {
    && Enumerates(fs, lits.Keys)
    && per.Keys == lits.Keys
    && forall f :: f in lits ==> Enumerates(per[f], Values(s, lits, f))
  }

  // The first so many.
  function Capped<T>(cs: seq<T>, cap: nat): (r: seq<T>)
    ensures r <= cs && |r| == if |cs| <= cap then |cs| else cap
  {
    if |cs| <= cap then cs else cs[..cap]
  }

  method FieldValues(s: Setup, lits: Literals, f: Field) returns (vs: seq<real>)
    requires f in lits
    ensures Enumerates(vs, Values(s, lits, f))
  {
    var cands := ComputeNeighbors(KindOf(s, f), lits[f]);
    if f in s.defaults {
      cands := cands + s.defaults[f];
    }
    assert cands == Values(s, lits, f);
    vs := ListOf(cands);
  }

  method Listing(s: Setup, lits: Literals) returns (fs: seq<Field>, per: map<Field, seq<real>>)
    ensures Lists(s, lits, fs, per) && forall f :: f in fs ==> f in per
  {
    fs := ListOf(lits.Keys);
    per := map[];
    for i := 0 to |fs|
      invariant per.Keys == Elems(fs[..i])
      invariant forall f :: f in per ==> f in lits && Enumerates(per[f], Values(s, lits, f))
    {
      var f := fs[i];
      assert f in Elems(fs);
      var vs := FieldValues(s, lits, f);
      per := per[f := vs];
      assert fs[..i + 1] == fs[..i] + [f];
      assert Elems(fs[..i + 1]) == Elems(fs[..i]) + {f};
    }
    assert fs[..|fs|] == fs;
    forall f | f in fs ensures f in per { assert f in Elems(fs); }
  }

  // The cases given from outside come after the combinations.
  method CandidateCases(s: Setup, m: Model, g: Graph, extra: seq<Case>)
      returns (cases: seq<Case>, fs: seq<Field>, per: map<Field, seq<real>>)
    ensures Lists(s, LiteralsOf(SearchedLeaves(m, g)), fs, per)
    ensures forall f :: f in fs ==> f in per
    ensures cases == MergeBase(s.base, Capped(Product(fs, per), s.cap)) + extra
  {
    var lits := CollectLiterals(m, g);
    fs, per := Listing(s, lits);
    cases := MergeBase(s.base, Capped(Product(fs, per), s.cap)) + extra;
  }

  // ---- The search ------------------------------------------------------------------------

  datatype Found = Found(id: nat, x: Case, what: Disagreement)

  ghost function Verdict(m: Model, g: Graph, order: seq<Constraint>, x: Case): Option<Disagreement> {
    Classify(EvaluateExpected(m, x), OutcomeOf(g, x, order))
  }

  // Numbered, all real, and no disagreement twice.
  ghost predicate Genuine(m: Model, g: Graph, order: seq<Constraint>, cases: seq<Case>, ws: seq<Found>) {
    && (forall i :: 0 <= i < |ws| ==> ws[i].id == i + 1)
    && (forall i, j :: 0 <= i < j < |ws| ==> ws[i].what != ws[j].what)
    && (forall w :: w in ws ==> w.x in cases && Verdict(m, g, order, w.x) == Some(w.what))
  }

  // Every disagreement among the cases is reported.
  ghost predicate Reports(m: Model, g: Graph, order: seq<Constraint>, cases: seq<Case>, ws: seq<Found>) {
    forall x :: x in cases && Verdict(m, g, order, x).Some? ==>
      Verdict(m, g, order, x).value in Kinds(ws)
  }

  // Each is shown on the first case that shows it.
  ghost predicate Earliest(m: Model, g: Graph, order: seq<Constraint>, cases: seq<Case>, ws: seq<Found>) {
    forall w :: w in ws ==> FirstShown(m, g, order, cases, w)
  }

  ghost predicate FirstShown(m: Model, g: Graph, order: seq<Constraint>, cases: seq<Case>, w: Found) {
    exists i :: 0 <= i < |cases| && cases[i] == w.x && NotBefore(m, g, order, cases, w.what, i)
  }

  ghost predicate NotBefore(m: Model, g: Graph, order: seq<Constraint>, cases: seq<Case>, what: Disagreement, i: nat)
    requires i <= |cases|
  {
    forall j :: 0 <= j < i ==> Verdict(m, g, order, cases[j]) != Some(what)
  }

  // A disagreement not reported so far has not shown so far.
  lemma UnseenBefore(m: Model, g: Graph, order: seq<Constraint>, cases: seq<Case>, i: nat, ws: seq<Found>, w: Found)
    requires i < |cases| && Reports(m, g, order, cases[..i], ws) && w.what !in Kinds(ws) && w.x == cases[i]
    ensures FirstShown(m, g, order, cases, w)
  {
    hide Verdict, Kinds;
    forall j | 0 <= j < i ensures Verdict(m, g, order, cases[j]) != Some(w.what) { assert cases[..i][j] in cases[..i]; }
    assert NotBefore(m, g, order, cases, w.what, i);
  }

  function Kinds(ws: seq<Found>): set<Disagreement> { set w | w in ws :: w.what }

  lemma ReportStep(m: Model, g: Graph, order: seq<Constraint>, cases: seq<Case>,
      x: Case, ws: seq<Found>, more: seq<Found>)
    requires Reports(m, g, order, cases, ws)
    requires Verdict(m, g, order, x).Some? ==> Verdict(m, g, order, x).value in Kinds(ws + more)
    ensures Reports(m, g, order, cases + [x], ws + more)
  {
    hide Verdict;
    KindsJoin(ws, more);
  }

  lemma KindsJoin(ws: seq<Found>, more: seq<Found>)
    ensures Kinds(ws + more) == Kinds(ws) + Kinds(more)
  {
    assert forall w :: w in ws + more <==> w in ws || w in more;
  }

  lemma TakeMore<T>(s: seq<T>, i: nat)
    requires i < |s|
    ensures s[..i + 1] == s[..i] + [s[i]] && s[i] in s
  {
  }

  lemma GenuineStep(m: Model, g: Graph, order: seq<Constraint>, cases: seq<Case>, ws: seq<Found>, w: Found)
    requires Genuine(m, g, order, cases, ws)
    requires w.id == |ws| + 1 && w.x in cases && Verdict(m, g, order, w.x) == Some(w.what)
    requires w.what !in Kinds(ws)
    ensures Genuine(m, g, order, cases, ws + [w])
  {
    hide Verdict;
    forall i, j | 0 <= i < j < |ws + [w]| ensures (ws + [w])[i].what != (ws + [w])[j].what {
      if j == |ws| { assert ws[i] in ws; }
    }
  }

  method OneCase(m: Model, g: Graph, order: seq<Constraint>, x: Case) returns (r: Result<Option<Disagreement>, Invalid>)
    requires Resolved(g, order)
    ensures r.Ok? <==> ValidDag(g)
    ensures r.Ok? ==> r.value == Verdict(m, g, order, x)
  {
    var actual := Execute(g, x, order);
    if actual.Err? {
      return Err(actual.error);
    }
    r := Ok(Classify(EvaluateExpected(m, x), actual.value));
  }

  // Executing the first case raises the error of an invalid graph.
  method SearchCases(m: Model, g: Graph, order: seq<Constraint>, cases: seq<Case>)
      returns (r: Result<seq<Found>, Invalid>)
    requires Resolved(g, order)
    ensures r.Ok? <==> ValidDag(g) || cases == []
    ensures r.Ok? ==> Genuine(m, g, order, cases, r.value) && Reports(m, g, order, cases, r.value)
    ensures r.Ok? ==> Earliest(m, g, order, cases, r.value)
  {
    hide Verdict, ValidDag, FirstShown;
    var ws: seq<Found> := [];
    var seen: set<Disagreement> := {};
    for i := 0 to |cases|
      invariant i > 0 ==> ValidDag(g)
      invariant Genuine(m, g, order, cases, ws) && Reports(m, g, order, cases[..i], ws)
      invariant Earliest(m, g, order, cases, ws)
      invariant seen == Kinds(ws)
    {
      TakeMore(cases, i);
      var d := OneCase(m, g, order, cases[i]);
      if d.Err? {
        return Err(d.error);
      }
      if d.value.Some? && d.value.value !in seen {
        seen := seen + {d.value.value};
        var w := Found(|ws| + 1, cases[i], d.value.value);
        UnseenBefore(m, g, order, cases, i, ws, w);
        GenuineStep(m, g, order, cases, ws, w);
        KindsJoin(ws, [w]);
        ReportStep(m, g, order, cases[..i], cases[i], ws, [w]);
        ws := ws + [w];
      } else {
        assert ws + [] == ws;
        ReportStep(m, g, order, cases[..i], cases[i], ws, []);
      }
    }
    assert cases[..|cases|] == cases;
    r := Ok(ws);
  }

  // ---- Cases no collected literal tells apart ------------------------------------------------

  // EVERYTHING a run evaluates agrees on the two cases.
  ghost predicate AlikeFor(g: Graph, x: Case, y: Case) {
    && (forall id :: id in Ids(g.nodes) ==> AlikeImpl(ImplOf(g.nodes, id), x, y))
    && (forall e :: e in g.edges ==> Enabled(e, x) == Enabled(e, y))
  }

  ghost predicate AlikeImpl(i: Impl, x: Case, y: Case) {
    Passes(i, x) == Passes(i, y) && Needs(i, x) == Needs(i, y)
  }

  lemma {:induction false} FollowAlike(es: seq<Edge>, id: NodeId, x: Case, y: Case)
    requires forall e :: e in es ==> Enabled(e, x) == Enabled(e, y)
    ensures Follow(es, id, x) == Follow(es, id, y)
    decreases |es|
  {
    if es != [] {
      assert es == es[..|es| - 1] + [es[|es| - 1]];
      FollowAlike(es[..|es| - 1], id, x, y);
    }
  }

  lemma VisitAlike(r: Run, id: NodeId, i: Impl, x: Case, y: Case)
    requires AlikeImpl(i, x, y)
    ensures Visit(r, id, i, x) == Visit(r, id, i, y)
  {
  }

  lemma {:induction false} WalkAlike(g: Graph, x: Case, y: Case, frontier: seq<NodeId>, r: Run)
    requires NoDangling(g) && Elems(frontier) <= Ids(g.nodes) && AlikeFor(g, x, y)
    ensures Walk(g, x, frontier, r) == Walk(g, y, frontier, r)
    decreases |Ids(g.nodes) - r.visited|, |frontier|
  {
    if frontier != [] {
      FrontierStep(g, x, frontier, r.visited);
      var id, rest := frontier[0], frontier[1..];
      if id in r.visited {
        WalkAlike(g, x, y, rest, r);
      } else {
        FollowAlike(g.edges, id, x, y);
        VisitAlike(r, id, ImplOf(g.nodes, id), x, y);
        assert Onward(g, x, id) == Onward(g, y, id);
        WalkAlike(g, x, y, rest + Onward(g, x, id), Visit(r, id, ImplOf(g.nodes, id), x));
      }
    }
  }

  lemma RunAlike(g: Graph, x: Case, y: Case)
    requires ValidDag(g) && AlikeFor(g, x, y)
    ensures RunOf(g, x) == RunOf(g, y)
  {
    StartIs(g);
    WalkAlike(g, x, y, [Start(g)], FRESH_RUN);
  }

  ghost predicate LeavesIn(ls: seq<Leaf>, all: set<Leaf>) { forall l :: l in ls ==> l in all }

  // No comparison has an empty membership list.
  ghost predicate NoEmptyLists(all: set<Leaf>) { forall l :: l in all ==> Members(l.want) != [] }

  lemma LeavesCollected(ls: seq<Leaf>, all: set<Leaf>)
    requires LeavesIn(ls, all) && NoEmptyLists(all)
    ensures Collected(ls, LiteralsOf(all))
  {
    forall l | l in ls
      ensures l.field in LiteralsOf(all) && forall v :: v in Members(l.want) ==> v in LiteralsOf(all)[l.field]
    {
      LiteralIn(all, l, Members(l.want)[0]);
      forall v | v in Members(l.want) { LiteralIn(all, l, v); }
    }
  }

  lemma HoldsAlike(c: Option<Cond>, all: set<Leaf>, x: Case, y: Case)
    requires LeavesIn(LeavesOpt(c), all) && NoEmptyLists(all) && Indistinct(LiteralsOf(all), x, y)
    ensures Holds(c, x) == Holds(c, y)
  {
    if c.Some? {
      LeavesCollected(Leaves(c.value), all);
      EvalAgrees(c.value, LiteralsOf(all), x, y);
    }
  }

  lemma ImplAlike(i: Impl, all: set<Leaf>, x: Case, y: Case)
    requires LeavesIn(ImplLeaves(i), all) && NoEmptyLists(all) && Indistinct(LiteralsOf(all), x, y)
    ensures AlikeImpl(i, x, y)
  {
    match i {
      case Form(_, _, c) => HoldsAlike(c, all, x, y);
      case Submit =>
      case Task(_, _, _) =>
      case Plain =>
      case Threshold(f, op, w) => CmpAlike(f, op, w, all, x, y);
      case Deadline(f, op, w) => CmpAlike(f, op, w, all, x, y);
      case Prohibition(f, op, w) => CmpAlike(f, op, w, all, x, y);
    }
  }

  lemma CmpAlike(f: Field, op: Op, w: Operand, all: set<Leaf>, x: Case, y: Case)
    requires Leaf(f, op, w) in all && NoEmptyLists(all) && Indistinct(LiteralsOf(all), x, y)
    ensures Eval(Cmp(f, op, w), x) == Eval(Cmp(f, op, w), y)
  {
    var c := Cmp(f, op, w);
    assert Leaves(c) == [Leaf(f, op, w)];
    HoldsAlike(Some(c), all, x, y);
  }

  lemma {:induction false} ViolatedAlike(ps: seq<Ban>, all: set<Leaf>, x: Case, y: Case)
    requires forall p :: p in ps ==> LeavesIn(LeavesOpt(p.cond), all)
    requires NoEmptyLists(all) && Indistinct(LiteralsOf(all), x, y)
    ensures Violated(ps, x) == Violated(ps, y)
    decreases |ps|
  {
    if ps != [] {
      assert ps == ps[..|ps| - 1] + [ps[|ps| - 1]];
      ViolatedAlike(ps[..|ps| - 1], all, x, y);
      HoldsAlike(ps[|ps| - 1].cond, all, x, y);
    }
  }

  ghost predicate Alike(m: Model, g: Graph, x: Case, y: Case) {
    NoEmptyLists(SearchedLeaves(m, g)) && Indistinct(LiteralsOf(SearchedLeaves(m, g)), x, y)
  }

  lemma ExpectedAlike(m: Model, g: Graph, x: Case, y: Case)
    requires Alike(m, g, x, y)
    ensures EvaluateExpected(m, x) == EvaluateExpected(m, y)
  {
    var all := SearchedLeaves(m, g);
    forall c | c in m.eligibility ensures Eval(c.cond, x) == Eval(c.cond, y) {
      forall l | l in Leaves(c.cond) ensures l in all { EligibilityLeavesHave(m.eligibility, c, l); }
      HoldsAlike(Some(c.cond), all, x, y);
    }
    forall d | d in m.deadlines ensures Eval(Cmp(d.field, d.op, d.want), x) == Eval(Cmp(d.field, d.op, d.want), y) {
      DueLeavesHave(m.deadlines, d, Leaf(d.field, d.op, d.want));
      CmpAlike(d.field, d.op, d.want, all, x, y);
    }
    forall p | p in m.prohibitions ensures LeavesIn(LeavesOpt(p.cond), all) {
      forall l | l in LeavesOpt(p.cond) ensures l in all { BanLeavesHave(m.prohibitions, p, l); }
    }
    ViolatedAlike(m.prohibitions, all, x, y);
    RequiredAlike(m, g, x, y);
  }

  lemma WaivedAlike(m: Model, g: Graph, x: Case, y: Case, a: Action)
    requires Alike(m, g, x, y)
    ensures Waived(m.exceptions, a, x) == Waived(m.exceptions, a, y)
  {
    var all := SearchedLeaves(m, g);
    forall e | e in m.exceptions ensures Holds(e.cond, x) == Holds(e.cond, y) {
      forall l | l in LeavesOpt(e.cond) ensures l in all { WaiverLeavesHave(m.exceptions, e, l); }
      HoldsAlike(e.cond, all, x, y);
    }
  }

  lemma NeededAlike(m: Model, g: Graph, x: Case, y: Case, a: Action)
    requires Alike(m, g, x, y) && a in m.obligations
    ensures Needed(m.obligations[a].mode, x) == Needed(m.obligations[a].mode, y)
  {
    var all, mode := SearchedLeaves(m, g), m.obligations[a].mode;
    if mode.Conditional? {
      forall l | l in Leaves(mode.cond) ensures l in all {
        assert l in ModeLeaves(mode);
        assert l in ObligationLeaves(m, m.obligations.Keys);
      }
      HoldsAlike(Some(mode.cond), all, x, y);
    }
  }

  lemma RequiredAlike(m: Model, g: Graph, x: Case, y: Case)
    requires Alike(m, g, x, y)
    ensures EvaluateExpected(m, x).required == EvaluateExpected(m, y).required
  {
    forall a | a in m.obligations
      ensures RequiredFor(m.obligations[a], m.exceptions, a, x) == RequiredFor(m.obligations[a], m.exceptions, a, y)
    {
      WaivedAlike(m, g, x, y, a);
      NeededAlike(m, g, x, y, a);
    }
  }

  // The conditions on branch edges mention only literals the search collects.
  ghost predicate BranchesSearched(m: Model, g: Graph) {
    forall e :: e in g.edges && e.branch ==> Collected(LeavesOpt(e.cond), LiteralsOf(SearchedLeaves(m, g)))
  }

  lemma GraphAlike(m: Model, g: Graph, x: Case, y: Case)
    requires BranchesSearched(m, g) && Alike(m, g, x, y)
    ensures AlikeFor(g, x, y)
  {
    var all := SearchedLeaves(m, g);
    forall id | id in Ids(g.nodes) ensures AlikeImpl(ImplOf(g.nodes, id), x, y) {
      var i := ImplOf(g.nodes, id);
      forall l | l in ImplLeaves(i) ensures l in all { NodeLeavesHave(g.nodes, Node(id, i), l); }
      ImplAlike(i, all, x, y);
    }
    forall e | e in g.edges ensures Enabled(e, x) == Enabled(e, y) {
      if e.branch && e.cond.Some? {
        EvalAgrees(e.cond.value, LiteralsOf(all), x, y);
      }
    }
  }

  /** Two cases on the same side of every collected literal get the same verdict. */
  lemma VerdictAlike(m: Model, g: Graph, order: seq<Constraint>, x: Case, y: Case)
    requires ValidDag(g) && Resolved(g, order) && BranchesSearched(m, g) && Alike(m, g, x, y)
    ensures Verdict(m, g, order, x) == Verdict(m, g, order, y)
  {
    ExpectedAlike(m, g, x, y);
    GraphAlike(m, g, x, y);
    RunAlike(g, x, y);
  }

  // ---- Completeness ---------------------------------------------------------------------------

  // What the search needs of policy and procedure to stand for the whole domain.
  ghost predicate Searchable(s: Setup, m: Model, g: Graph) {
    var all := SearchedLeaves(m, g);
    && BranchesSearched(m, g) && NoEmptyLists(all)
    && forall f :: f in LiteralsOf(all) ==>
         OnGridAll(KindOf(s, f), LiteralsOf(all)[f]) && GapsCovered(KindOf(s, f), LiteralsOf(all)[f])
  }

  // A case that gives every searched field a value of its kind.
  ghost predicate Complete(s: Setup, lits: Literals, x: Case) {
    forall f :: f in lits ==> f in x && OnGrid(KindOf(s, f), x[f])
  }

  lemma LiteralsNonEmpty(all: set<Leaf>, f: Field)
    requires f in LiteralsOf(all)
    ensures LiteralsOf(all)[f] != {}
  {
    var l :| l in all && Members(l.want) != [] && l.field == f;
    LiteralIn(all, l, Members(l.want)[0]);
  }

  ghost function Chosen(k: FieldKind, ls: set<real>, v: real): (c: real)
    requires Represented(k, ls, v)
    ensures c in Neighbors(k, ls) && SameSide(ls, v, c)
  {
    var c :| c in Neighbors(k, ls) && SameSide(ls, v, c);
    c
  }

  lemma ChosenPoint(s: Setup, lits: Literals, x: Case) returns (c: Case)
    requires Complete(s, lits, x)
    requires forall f :: f in lits ==>
      lits[f] != {} && OnGridAll(KindOf(s, f), lits[f]) && GapsCovered(KindOf(s, f), lits[f])
    ensures c.Keys == lits.Keys && Indistinct(lits, x, c)
    ensures forall f :: f in lits ==> c[f] in Values(s, lits, f)
  {
    forall f | f in lits ensures Represented(KindOf(s, f), lits[f], x[f]) {
      GapsSuffice(KindOf(s, f), lits[f], x[f]);
    }
    c := map f | f in lits :: Chosen(KindOf(s, f), lits[f], x[f]);
  }

  lemma ListedFields(s: Setup, lits: Literals, fs: seq<Field>, per: map<Field, seq<real>>)
    requires Lists(s, lits, fs, per)
    ensures forall f :: f in fs <==> f in lits
    ensures forall f :: f in fs ==> f in per
  {
    assert forall f :: f in fs <==> f in Elems(fs);
  }

  lemma ValueListed(s: Setup, lits: Literals, fs: seq<Field>, per: map<Field, seq<real>>, f: Field, v: real)
    requires Lists(s, lits, fs, per) && f in lits && v in Values(s, lits, f)
    ensures f in per && v in per[f]
  {
    hide Values;
    assert v in Elems(per[f]);
  }

  lemma PointListed(s: Setup, lits: Literals, fs: seq<Field>, per: map<Field, seq<real>>, c: Case)
    requires Lists(s, lits, fs, per) && c.Keys == lits.Keys
    requires forall f :: f in lits ==> c[f] in Values(s, lits, f)
    ensures forall f :: f in fs ==> f in per
    ensures c in Product(fs, per)
  {
    ListedFields(s, lits, fs, per);
    forall f | f in fs ensures f in c && c[f] in per[f] { ValueListed(s, lits, fs, per, f, c[f]); }
    hide Lists, Values, Product;
    assert Slice(fs, c) == c;
    ProductHas(fs, per, c);
  }

  lemma Representative(s: Setup, m: Model, g: Graph, x: Case, fs: seq<Field>, per: map<Field, seq<real>>)
      returns (y: Case)
    requires Searchable(s, m, g) && Complete(s, LiteralsOf(SearchedLeaves(m, g)), x)
    requires Lists(s, LiteralsOf(SearchedLeaves(m, g)), fs, per)
    ensures forall f :: f in fs ==> f in per
    ensures y in Product(fs, per) && Alike(m, g, x, s.base + y)
  {
    hide Product, SearchedLeaves, LiteralsOf;
    var lits := LiteralsOf(SearchedLeaves(m, g));
    forall f | f in lits ensures lits[f] != {} { LiteralsNonEmpty(SearchedLeaves(m, g), f); }
    y := ChosenPoint(s, lits, x);
    PointListed(s, lits, fs, per, y);
  }

  /** Small-model completeness: every complete case of the unbounded domain has a
      candidate case with the very same verdict, as long as the cap is not hit. */
  lemma SearchComplete(s: Setup, m: Model, g: Graph, order: seq<Constraint>, x: Case,
                       fs: seq<Field>, per: map<Field, seq<real>>) returns (y: Case)
    requires ValidDag(g) && Resolved(g, order) && Searchable(s, m, g)
    requires Complete(s, LiteralsOf(SearchedLeaves(m, g)), x)
    requires Lists(s, LiteralsOf(SearchedLeaves(m, g)), fs, per) && forall f :: f in fs ==> f in per
    requires |Product(fs, per)| <= s.cap
    ensures y in MergeBase(s.base, Capped(Product(fs, per), s.cap))
    ensures Verdict(m, g, order, y) == Verdict(m, g, order, x)
  {
    var c := Representative(s, m, g, x, fs, per);
    var cs := Product(fs, per);
    y := s.base + c;
    var i :| 0 <= i < |cs| && cs[i] == c;
    assert MergeBase(s.base, cs)[i] == y;
    assert MergeBase(s.base, cs)[i] in MergeBase(s.base, cs);
    VerdictAlike(m, g, order, x, y);
  }

  // Every field has a value, so there is at least one combination.
  lemma SomeCombination(s: Setup, m: Model, g: Graph, fs: seq<Field>, per: map<Field, seq<real>>)
    requires Lists(s, LiteralsOf(SearchedLeaves(m, g)), fs, per) && forall f :: f in fs ==> f in per
    ensures Product(fs, per) != []
  {
    hide Product;
    var lits := LiteralsOf(SearchedLeaves(m, g));
    forall f | f in fs ensures per[f] != [] {
      ListedFields(s, lits, fs, per);
      LiteralsNonEmpty(SearchedLeaves(m, g), f);
      var l := Member(lits[f]);
      assert Near(KindOf(s, f), l)[0] in Near(KindOf(s, f), l);
      assert Near(KindOf(s, f), l)[0] in Values(s, lits, f);
      assert Near(KindOf(s, f), l)[0] in Elems(per[f]);
    }
    ProductHas(fs, per, map f | f in fs :: per[f][0]);
  }

  // One value for each searched field: near a literal of the field, or one of the
  // extra values of the search's tables.
  ghost predicate Combination(s: Setup, lits: Literals, c: Case) {
    && c.Keys == lits.Keys
    && forall f :: f in lits ==>
         || (exists l :: l in lits[f] && c[f] in Near(if f in s.kinds then s.kinds[f] else Number, l))
         || (f in s.defaults && c[f] in s.defaults[f])
  }

  lemma NearIsNeighbor(k: FieldKind, ls: set<real>, l: real, c: real)
    requires l in ls && c in Near(k, l)
    ensures c in Neighbors(k, ls)
  {
  }

  lemma CombinationListed(s: Setup, lits: Literals, fs: seq<Field>, per: map<Field, seq<real>>, c: Case)
    requires Lists(s, lits, fs, per) && Combination(s, lits, c)
    ensures forall f :: f in fs ==> f in per
    ensures c in Product(fs, per)
  {
    hide Product, Lists, Near, Neighbors;
    forall f | f in lits ensures c[f] in Values(s, lits, f) {
      if l :| l in lits[f] && c[f] in Near(KindOf(s, f), l) {
        NearIsNeighbor(KindOf(s, f), lits[f], l, c[f]);
      }
    }
    PointListed(s, lits, fs, per, c);
  }

  lemma CombinationTried(s: Setup, lits: Literals, fs: seq<Field>, per: map<Field, seq<real>>, c: Case)
    requires Lists(s, lits, fs, per) && Combination(s, lits, c)
    requires (forall f :: f in fs ==> f in per) && |Product(fs, per)| <= s.cap
    ensures s.base + c in MergeBase(s.base, Capped(Product(fs, per), s.cap))
  {
    CombinationListed(s, lits, fs, per, c);
    hide Product, Lists, Combination;
    var cs := Product(fs, per);
    var i :| 0 <= i < |cs| && cs[i] == c;
    assert MergeBase(s.base, cs)[i] == s.base + c;
  }

  /** The cases searched are the combinations, merged over the baseline, all of them
      unless there are more than the cap, and then the cases given from outside. */
  lemma CasesAre(s: Setup, lits: Literals, fs: seq<Field>, per: map<Field, seq<real>>, extra: seq<Case>, y: Case)
    requires Lists(s, lits, fs, per) && forall f :: f in fs ==> f in per
    ensures var cases := MergeBase(s.base, Capped(Product(fs, per), s.cap)) + extra;
      && (y in cases ==> y in extra || exists c :: Combination(s, lits, c) && y == s.base + c)
      && (y in extra ==> y in cases)
      && (|Product(fs, per)| <= s.cap ==> forall c :: Combination(s, lits, c) && y == s.base + c ==> y in cases)
      && (|Product(fs, per)| > s.cap ==> |cases| == s.cap + |extra|)
  {
    hide Product, Combination;
    var cs := Capped(Product(fs, per), s.cap);
    var merged := MergeBase(s.base, cs);
    if y in merged {
      var i :| 0 <= i < |merged| && merged[i] == y;
      assert cs[i] in Product(fs, per) && y == s.base + cs[i];
      OnlyCombinations(s, lits, fs, per, cs[i]);
    }
    if |Product(fs, per)| <= s.cap {
      forall c | Combination(s, lits, c) && y == s.base + c ensures y in merged {
        CombinationTried(s, lits, fs, per, c);
      }
    }
  }

  lemma OnlyCombinations(s: Setup, lits: Literals, fs: seq<Field>, per: map<Field, seq<real>>, c: Case)
    requires Lists(s, lits, fs, per) && (forall f :: f in fs ==> f in per) && c in Product(fs, per)
    ensures Combination(s, lits, c)
  {
    ProductOnly(fs, per, c);
    ListedFields(s, lits, fs, per);
    hide Product, Values;
    forall f | f in lits ensures f in c && c[f] in Values(s, lits, f) { assert c[f] in Elems(per[f]); }
    hide Lists;
    assert c.Keys == lits.Keys;
    ValuesAre(s, lits, c);
  }

  lemma ValuesAre(s: Setup, lits: Literals, c: Case)
    requires c.Keys == lits.Keys && forall f :: f in lits ==> c[f] in Values(s, lits, f)
    ensures Combination(s, lits, c)
  {
    hide Near;
  }

  /** The whole search. It fails only on an invalid graph; every witness is a
      real disagreement; every disagreement on a case given from outside and, below
      the cap, on a combination is among the witnesses; and when the search is
      representative, so is every disagreement of any complete case at all. */
  method FindWitnesses(s: Setup, m: Model, g: Graph, order: seq<Constraint>, extra: seq<Case>)
      returns (r: Result<seq<Found>, Invalid>, ghost capped: bool)
    requires Resolved(g, order)
    ensures r.Ok? <==> ValidDag(g) || (s.cap == 0 && extra == [])
    ensures r.Ok? ==> forall w :: w in r.value ==> Verdict(m, g, order, w.x) == Some(w.what)
    ensures r.Ok? ==> forall i, j :: 0 <= i < j < |r.value| ==> r.value[i].what != r.value[j].what
    ensures r.Ok? ==> forall x :: x in extra && Verdict(m, g, order, x).Some? ==>
      exists w :: w in r.value && Some(w.what) == Verdict(m, g, order, x)
    ensures r.Ok? && !capped ==>
      forall c :: Combination(s, LiteralsOf(SearchedLeaves(m, g)), c) && Verdict(m, g, order, s.base + c).Some? ==>
        exists w :: w in r.value && Some(w.what) == Verdict(m, g, order, s.base + c)
    ensures ValidDag(g) && !capped && Searchable(s, m, g) ==>
      forall x :: Complete(s, LiteralsOf(SearchedLeaves(m, g)), x) && Verdict(m, g, order, x).Some? ==>
        exists w :: w in r.value && Some(w.what) == Verdict(m, g, order, x)
  {
    hide Verdict, Product, SearchedLeaves, LiteralsOf, ValidDag, Combination, Earliest;
    var cases, fs, per := CandidateCases(s, m, g, extra);
    capped := |Product(fs, per)| > s.cap;
    SomeCombination(s, m, g, fs, per);
    r := SearchCases(m, g, order, cases);
    if r.Ok? && !capped {
      forall c | Combination(s, LiteralsOf(SearchedLeaves(m, g)), c) && Verdict(m, g, order, s.base + c).Some?
        ensures exists w :: w in r.value && Some(w.what) == Verdict(m, g, order, s.base + c)
      {
        CombinationTried(s, LiteralsOf(SearchedLeaves(m, g)), fs, per, c);
        assert s.base + c in cases;
      }
    }
    if ValidDag(g) && !capped && Searchable(s, m, g) {
      forall x | Complete(s, LiteralsOf(SearchedLeaves(m, g)), x) && Verdict(m, g, order, x).Some?
        ensures exists w :: w in r.value && Some(w.what) == Verdict(m, g, order, x)
      {
        var y := SearchComplete(s, m, g, order, x, fs, per);
        assert y in cases;
      }
    }
  }

  // ---- A branch the search cannot see -----------------------------------------------------

  // The one form is behind a branch on a field that nothing else mentions.
  function HiddenBranch(): Graph {
    Graph([Node(0, Plain), Node(1, Form(1, true, None))], [Edge(0, 1, true, Some(Not(Cmp(9, Gt, One(5.0)))))])
  }

  function AlwaysOne(): Model { Model([], map[1 := Obligation(AlwaysTrue, 0)], [], [], [], []) }

  lemma HiddenBranchNodes()
    ensures var g := HiddenBranch();
      Ids(g.nodes) == {0, 1} && ImplOf(g.nodes, 0) == Plain && ImplOf(g.nodes, 1) == Form(1, true, None)
  {
    var front, last := [Node(0, Plain)], Node(1, Form(1, true, None));
    IdsAppend([], front[0]);
    IdsAppend(front, last);
    assert [] + front == front && front + [last] == HiddenBranch().nodes;
    ImplOfAppend(front, last, 0);
  }

  lemma HiddenBranchValid()
    ensures ValidDag(HiddenBranch()) && Start(HiddenBranch()) == 0
  {
    var g := HiddenBranch();
    HiddenBranchNodes();
    RankedAcyclic(g.edges, map[0 := 0, 1 := 1]);
    assert HasIncoming(g.edges, 1) by { assert g.edges[0] in g.edges; }
    assert !HasIncoming(g.edges, 0);
    assert g.nodes[..1][..0] == [];
    assert StartsOf(g.nodes[..1], g.edges) == [0];
  }

  // The form is asked for exactly when the branch is on.
  lemma HiddenBranchRun(x: Case)
    ensures var r := RunOf(HiddenBranch(), x);
      r.eligible && r.onTime && (1 in r.required <==> Enabled(HiddenBranch().edges[0], x))
      && (forall a :: a in r.required ==> a == 1 && r.required[a])
  {
    var g := HiddenBranch();
    hide RunOf;
    HiddenBranchNodes();
    HiddenBranchValid();
    RunFlags(g, x);
    RunRequired(g, x);
    ReachedShape(g, x);
    var e := g.edges[0];
    assert e in g.edges;
    if Enabled(e, x) {
      assert (0, 1) in Steps(g, x);
      assert FormFor(g.nodes, Reached(g, x), 1, 1);
    } else {
      assert Steps(g, x) == {};
      LeastReached(g, x, {0});
    }
  }

  lemma NothingSearched()
    ensures SearchedLeaves(AlwaysOne(), HiddenBranch()) == {}
  {
    var ns := HiddenBranch().nodes;
    assert ns[..1][..0] == [];
    assert ns[1].impl == Form(1, true, None) && LeavesOpt(None) == [];
    assert NodeLeaves(ns[..1]) == [] && ImplLeaves(ns[1].impl) == [];
    assert ModeLeaves(AlwaysTrue) == [];
  }

  // With nothing late, prohibited or rejected, only the one action matters.
  lemma OneActionVerdict(e: Expected, run: Run, asked: bool)
    requires e.eligible && e.onTime && e.violated == [] && e.required == map[1 := true]
    requires run.eligible && run.onTime && (1 in run.required <==> asked)
    requires forall a :: a in run.required ==> a == 1 && run.required[a]
    ensures Classify(e, Outcome(run, true)) ==
      if asked then None else Some(Disagreement(MissingSafeguard, ActionKey(1)))
  {
    if asked {
      assert Differing(e.required, run.required) == {};
    } else {
      assert Differing(e.required, run.required) == {1};
    }
  }

  lemma HiddenBranchVerdict(x: Case)
    ensures Verdict(AlwaysOne(), HiddenBranch(), [], x) ==
      if Enabled(HiddenBranch().edges[0], x) then None else Some(Disagreement(MissingSafeguard, ActionKey(1)))
  {
    var m, g := AlwaysOne(), HiddenBranch();
    hide RunOf, OutcomeOf, ValidDag, Classify;
    HiddenBranchValid();
    HiddenBranchRun(x);
    NoRulesToBreak(g, x);
    OneActionVerdict(EvaluateExpected(m, x), RunOf(g, x), Enabled(g.edges[0], x));
  }

  /** Without that condition the search is blind: a branch on a field that no
      rule and no node mentions hides a disagreement from every candidate case. */
  lemma HiddenBranchMissed(base: Case, x: Case)
    requires 9 !in base && 9 in x && x[9] > 5.0
    ensures ValidDag(HiddenBranch()) && SearchedLeaves(AlwaysOne(), HiddenBranch()) == {}
    ensures Verdict(AlwaysOne(), HiddenBranch(), [], base) == None
    ensures Verdict(AlwaysOne(), HiddenBranch(), [], x) == Some(Disagreement(MissingSafeguard, ActionKey(1)))
  {
    hide Verdict, SearchedLeaves, ValidDag;
    HiddenBranchValid();
    NothingSearched();
    HiddenBranchVerdict(base);
    HiddenBranchVerdict(x);
  }
}
