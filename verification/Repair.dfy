/** Aligning gates and steps to the model (services/patcher/patcher.py, lines 91-145)
    and what the aligned procedure then does on every case. */
module Repair {
  import opened Wrappers
  import opened Expr
  import opened Graphs
  import opened Dag
  import opened Interpreter
  import opened Journey
  import opened Compiler
  import opened Differ

  // ---- Folding exceptions into one condition -----------------------------------------

  // The conditions of the conditional exceptions that match an action.
  function Excuses(es: seq<Waiver>, action: Action): (r: seq<Cond>)
    ensures forall c :: c in r <==> exists e :: e in es && Applies(e, action) && e.cond == Some(c)
  {
    if es == [] then [] else
      var last := es[|es| - 1];
      var front := es[..|es| - 1];
      assert es == front + [last];
      Excuses(front, action) + if Applies(last, action) && last.cond.Some? then [last.cond.value] else []
  }

  function AnyOf(cs: seq<Cond>): Cond { if |cs| == 1 then cs[0] else Or(cs) }

  datatype Flag = Flag(required: bool, cond: Option<Cond>)

  function Fold(m: Mode, excuses: seq<Cond>): Flag {
    if m.AlwaysTrue? && excuses == [] then Flag(true, None)
    else if m.AlwaysFalse? && excuses == [] then Flag(false, None)
    else
      var base := if m.Conditional? then Some(m.cond) else None;
      if m.AlwaysTrue? then Flag(true, Some(Not(AnyOf(excuses))))
      else if excuses != [] then
        Flag(true, Some(And((if base.Some? then [base.value] else []) + [Not(AnyOf(excuses))])))
      else Flag(true, base)
  }

  function FoldFor(m: Model, action: Action): Flag
    requires action in m.obligations
  {
    Fold(m.obligations[action].mode, Excuses(m.exceptions, action))
  }

  predicate FlagNeeds(f: Flag, x: Case) { f.required && Holds(f.cond, x) }

  predicate Excused(es: seq<Waiver>, action: Action, x: Case) {
    exists e :: e in es && Applies(e, action) && e.cond.Some? && Eval(e.cond.value, x)
  }

  // An exception without a condition: it always waives, but the fold drops it.
  predicate HasBlanket(es: seq<Waiver>, action: Action) {
    exists e :: e in es && Applies(e, action) && e.cond.None?
  }

  lemma AnyOfEval(cs: seq<Cond>, x: Case)
    ensures Eval(AnyOf(cs), x) <==> exists c :: c in cs && Eval(c, x)
  {
    if |cs| == 1 {
      assert cs[0] in cs;
    }
  }

  lemma ExcusesEval(es: seq<Waiver>, action: Action, x: Case)
    ensures (exists c :: c in Excuses(es, action) && Eval(c, x)) <==> Excused(es, action, x)
  {
    if Excused(es, action, x) {
      var e :| e in es && Applies(e, action) && e.cond.Some? && Eval(e.cond.value, x);
      assert e.cond == Some(e.cond.value);
      assert e.cond.value in Excuses(es, action);
    }
    if c :| c in Excuses(es, action) && Eval(c, x) {
      var e :| e in es && Applies(e, action) && e.cond == Some(c);
      assert Eval(e.cond.value, x);
    }
  }

  lemma FoldMeans(m: Mode, es: seq<Waiver>, action: Action, x: Case)
    ensures FlagNeeds(Fold(m, Excuses(es, action)), x) <==>
      !Excused(es, action, x) && match m
                                 case AlwaysTrue => true
                                 case AlwaysFalse => Excuses(es, action) != []
                                 case Conditional(c) => Eval(c, x)
  {
    var cs := Excuses(es, action);
    ExcusesEval(es, action, x);
    hide Excuses, Excused;
    FoldCases(m, cs, x);
  }

  lemma NoneOf(cs: seq<Cond>, x: Case)
    ensures Eval(Not(AnyOf(cs)), x) <==> forall c :: c in cs ==> !Eval(c, x)
  {
    AnyOfEval(cs, x);
  }

  lemma BothHold(a: Cond, b: Cond, x: Case)
    ensures Eval(And([a] + [b]), x) <==> Eval(a, x) && Eval(b, x)
    ensures Eval(And([] + [b]), x) <==> Eval(b, x)
  {
    assert forall d :: d in [a] + [b] <==> d == a || d == b;
    assert forall d :: d in [] + [b] <==> d == b;
  }

  lemma FoldCases(m: Mode, cs: seq<Cond>, x: Case)
    ensures FlagNeeds(Fold(m, cs), x) <==>
      !(exists c :: c in cs && Eval(c, x)) && match m
                                              case AlwaysTrue => true
                                              case AlwaysFalse => cs != []
                                              case Conditional(c) => Eval(c, x)
  {
    var no := Not(AnyOf(cs));
    NoneOf(cs, x);
    BothHold(if m.Conditional? then m.cond else no, no, x);
    hide Eval, AnyOf;
  }

  // What the fold gets wrong, unless a conditional exception applies anyway: an
  // obligation in force with a blanket exception, and one that never is with a
  // conditional exception.
  predicate FoldFits(o: Obligation, es: seq<Waiver>, action: Action, x: Case) {
    Excused(es, action, x)
    || !((Needed(o.mode, x) && HasBlanket(es, action)) || (o.mode.AlwaysFalse? && Excuses(es, action) != []))
  }

  /** Exception folding keeps the meaning of an obligation on a case exactly
      unless no conditional exception applies and either a condition-less one
      waives an obligation in force, or the obligation is never in force but has
      a conditional exception. */
  lemma FoldAgrees(o: Obligation, es: seq<Waiver>, action: Action, x: Case)
    ensures FlagNeeds(Fold(o.mode, Excuses(es, action)), x) == RequiredFor(o, es, action, x) <==>
      FoldFits(o, es, action, x)
  {
    FoldMeans(o.mode, es, action, x);
    WaivedSplit(es, action, x);
  }

  lemma WaivedSplit(es: seq<Waiver>, action: Action, x: Case)
    ensures Waived(es, action, x) <==> Excused(es, action, x) || HasBlanket(es, action)
  {
    forall e | e in es && Applies(e, action) && Holds(e.cond, x)
      ensures Excused(es, action, x) || HasBlanket(es, action)
    {}
  }

  /** The two ways the fold goes wrong: a blanket exception is dropped, and an
      obligation never in force becomes required once it has an exception. Rules
      compile to the first but not to the second (CompiledInForce). */
  lemma FoldCounterexamples(x: Case)
    requires 0 !in x
    ensures var es := [Waiver(None, None, 1)]; var o := Obligation(AlwaysTrue, 0);
      FlagNeeds(Fold(o.mode, Excuses(es, 5)), x) && !RequiredFor(o, es, 5, x)
    ensures var es := [Waiver(None, Some(Cmp(0, Ge, One(1.0))), 1)]; var o := Obligation(AlwaysFalse, 0);
      FlagNeeds(Fold(o.mode, Excuses(es, 5)), x) && !RequiredFor(o, es, 5, x)
  {
    var w := Waiver(None, None, 1);
    var blanket := [w];
    assert w in blanket;
    FoldMeans(AlwaysTrue, blanket, 5, x);
    var c := Cmp(0, Ge, One(1.0));
    var v := Waiver(None, Some(c), 1);
    var never := [v];
    assert v in never;
    assert c in Excuses(never, 5);
    FoldMeans(AlwaysFalse, never, 5, x);
  }

  // The form added for an obligation no node serves: its exceptions are not folded in.
  function AddedForm(o: Obligation, action: Action): Impl {
    Form(action, true, if o.mode.Conditional? then Some(o.mode.cond) else None)
  }

  /** An added form asks for its step as the policy does exactly unless an
      exception waives an obligation in force. */
  lemma AddedFormAgrees(o: Obligation, es: seq<Waiver>, action: Action, x: Case)
    requires !o.mode.AlwaysFalse?
    ensures Needs(AddedForm(o, action), x) == RequiredFor(o, es, action, x) <==>
      !(Needed(o.mode, x) && Waived(es, action, x))
  {
  }

  // ---- The two alignment steps ---------------------------------------------------------

  datatype Target = Target(op: Op, want: Operand, rule: RuleId)

  function EligibilityTargets(cs: seq<Criterion>): map<Field, Target> {
    if cs == [] then map[] else
      var ts, last := EligibilityTargets(cs[..|cs| - 1]), cs[|cs| - 1];
      if last.cond.Cmp? then ts[last.cond.field := Target(last.cond.op, last.cond.want, last.rule)] else ts
  }

  function DeadlineTargets(ts: map<Field, Target>, ds: seq<Due>): map<Field, Target> {
    if ds == [] then ts else
      var last := ds[|ds| - 1];
      DeadlineTargets(ts, ds[..|ds| - 1])[last.field := Target(last.op, last.want, last.rule)]
  }

  // One target per field: a later rule on the same field replaces an earlier one.
  function TargetsOf(m: Model): map<Field, Target> { DeadlineTargets(EligibilityTargets(m.eligibility), m.deadlines) }

  function AlignedGate(ts: map<Field, Target>, i: Impl): Impl {
    match i
    case Threshold(f, _, _) => if f in ts then Threshold(f, ts[f].op, ts[f].want) else i
    case Deadline(f, _, _) => if f in ts then Deadline(f, ts[f].op, ts[f].want) else i
    case _ => i
  }

  function AlignedStep(m: Model, i: Impl): Impl {
    if (i.Form? || i.Task?) && i.action in m.obligations then
      var f := FoldFor(m, i.action);
      if i.Form? then Form(i.action, f.required, f.cond) else Task(i.action, f.required, f.cond)
    else i
  }

  function AlignedGates(ts: map<Field, Target>, ns: seq<Node>): (r: seq<Node>)
    ensures |r| == |ns| && forall k :: 0 <= k < |ns| ==> r[k] == Node(ns[k].id, AlignedGate(ts, ns[k].impl))
  {
    seq(|ns|, k requires 0 <= k < |ns| => Node(ns[k].id, AlignedGate(ts, ns[k].impl)))
  }

  function AlignedSteps(m: Model, ns: seq<Node>): (r: seq<Node>)
    ensures |r| == |ns| && forall k :: 0 <= k < |ns| ==> r[k] == Node(ns[k].id, AlignedStep(m, ns[k].impl))
  {
    seq(|ns|, k requires 0 <= k < |ns| => Node(ns[k].id, AlignedStep(m, ns[k].impl)))
  }

  function AlignedImpl(m: Model, i: Impl): Impl { AlignedStep(m, AlignedGate(TargetsOf(m), i)) }

  function Repaired(m: Model, g: Graph): Graph {
    Graph(AlignedSteps(m, AlignedGates(TargetsOf(m), g.nodes)), g.edges)
  }

  // ---- Relabelling nodes keeps the graph -------------------------------------------------

  ghost predicate Relabels(m: Model, ns: seq<Node>, ms: seq<Node>) {
    |ms| == |ns| && forall k :: 0 <= k < |ns| ==> ms[k] == Node(ns[k].id, AlignedImpl(m, ns[k].impl))
  }

  lemma RelabelIds(m: Model, ns: seq<Node>, ms: seq<Node>)
    requires Relabels(m, ns, ms)
    ensures Ids(ms) == Ids(ns)
  {
    forall id | id in Ids(ns) ensures id in Ids(ms) {
      var k :| 0 <= k < |ns| && ns[k].id == id;
      assert ms[k] in ms;
    }
    forall id | id in Ids(ms) ensures id in Ids(ns) {
      var k :| 0 <= k < |ms| && ms[k].id == id;
      assert ns[k] in ns;
    }
  }

  lemma {:induction false} RelabelImpl(m: Model, ns: seq<Node>, ms: seq<Node>, id: NodeId)
    requires Relabels(m, ns, ms) && id in Ids(ns)
    ensures id in Ids(ms) && ImplOf(ms, id) == AlignedImpl(m, ImplOf(ns, id))
    decreases |ns|
  {
    RelabelIds(m, ns, ms);
    var n := |ns| - 1;
    assert ns == ns[..n] + [ns[n]];
    if ns[n].id != id {
      RelabelImpl(m, ns[..n], ms[..n], id);
    }
  }

  lemma {:induction false} RelabelStarts(m: Model, ns: seq<Node>, ms: seq<Node>, es: seq<Edge>)
    requires Relabels(m, ns, ms)
    ensures StartsOf(ms, es) == StartsOf(ns, es)
    decreases |ns|
  {
    if ns != [] {
      var n := |ns| - 1;
      RelabelStarts(m, ns[..n], ms[..n], es);
    }
  }

  lemma RepairedValid(m: Model, g: Graph)
    requires ValidDag(g)
    ensures ValidDag(Repaired(m, g)) && Start(Repaired(m, g)) == Start(g)
    ensures Ids(Repaired(m, g).nodes) == Ids(g.nodes)
    ensures Relabels(m, g.nodes, Repaired(m, g).nodes)
  {
    var h := Repaired(m, g);
    assert Relabels(m, g.nodes, h.nodes);
    RelabelIds(m, g.nodes, h.nodes);
    RelabelStarts(m, g.nodes, h.nodes, g.edges);
  }

  // ---- Where an aligned procedure goes ---------------------------------------------------

  // Unconditional edges, nothing after a submit node, no prohibition gate yet, and
  // at most one form an action.
  ghost predicate PlainGraph(g: Graph) {
    && ValidDag(g)
    && (forall e :: e in g.edges ==> !e.branch || e.cond == None)
    && (forall e :: e in g.edges && e.src in Ids(g.nodes) ==> !ImplOf(g.nodes, e.src).Submit?)
    && (forall id :: id in Ids(g.nodes) ==> !ImplOf(g.nodes, id).Prohibition?)
    && OneFormEach(g.nodes)
  }

  ghost predicate GateFor(ns: seq<Node>, id: NodeId, f: Field) {
    id in Ids(ns) && ImplOf(ns, id).Threshold? && ImplOf(ns, id).field == f
  }

  ghost predicate DueGateFor(ns: seq<Node>, id: NodeId, f: Field) {
    id in Ids(ns) && ImplOf(ns, id).Deadline? && ImplOf(ns, id).field == f
  }

  function BoundFields(m: Model): set<Field> { set c | c in m.eligibility && c.cond.Cmp? :: c.cond.field }

  function DueFields(m: Model): set<Field> { set d | d in m.deadlines :: d.field }

  // Every bound and deadline has a gate of its kind on its field and every such gate
  // a bound or deadline.
  ghost predicate GatesMatch(m: Model, g: Graph) {
    && (forall c :: c in m.eligibility ==> c.cond.Cmp?)
    && (forall f :: f in BoundFields(m) ==> exists id :: GateFor(g.nodes, id, f))
    && (forall id, f :: GateFor(g.nodes, id, f) ==> f in BoundFields(m))
    && (forall f :: f in DueFields(m) ==> exists id :: DueGateFor(g.nodes, id, f))
    && (forall id, f :: DueGateFor(g.nodes, id, f) ==> f in DueFields(m))
  }

  // The same for obligations and forms.
  ghost predicate Matches(m: Model, g: Graph) {
    && GatesMatch(m, g)
    && (forall a :: a in m.obligations ==> exists id :: FormFor(g.nodes, Ids(g.nodes), id, a))
    && (forall id, a :: FormFor(g.nodes, Ids(g.nodes), id, a) ==> a in m.obligations)
  }

  predicate TargetHolds(ts: map<Field, Target>, f: Field, x: Case) {
    f in ts ==> Eval(Cmp(f, ts[f].op, ts[f].want), x)
  }

  // The comparison that survived holds, for each field the rules bound and for each
  // field with a deadline.
  predicate Admits(m: Model, x: Case) { forall f :: f in BoundFields(m) ==> TargetHolds(TargetsOf(m), f, x) }

  predicate Punctual(m: Model, x: Case) { forall f :: f in DueFields(m) ==> TargetHolds(TargetsOf(m), f, x) }

  // The node is no gate, or the comparison that survived for its field holds.
  predicate Open(m: Model, i: Impl, x: Case) { i.Threshold? || i.Deadline? ==> TargetHolds(TargetsOf(m), i.field, x) }

  // A way through the old graph that is open at every node but its last.
  ghost predicate OpenWay(m: Model, g: Graph, x: Case, p: seq<NodeId>) {
    IsPath(g.edges, p) && forall k :: 0 <= k < |p| - 1 ==> p[k] in Ids(g.nodes) && Open(m, ImplOf(g.nodes, p[k]), x)
  }

  // The node can be got to from the start without passing a gate that is shut.
  ghost predicate Exposed(m: Model, g: Graph, x: Case, id: NodeId)
    requires ValidDag(g)
  {
    exists p :: OpenWay(m, g, x, p) && p[0] == Start(g) && p[|p| - 1] == id
  }

  // A shut gate of the kind can be got to.
  ghost predicate HitsBound(m: Model, g: Graph, x: Case)
    requires ValidDag(g)
  {
    exists id, f :: GateFor(g.nodes, id, f) && Exposed(m, g, x, id) && !TargetHolds(TargetsOf(m), f, x)
  }

  ghost predicate HitsDeadline(m: Model, g: Graph, x: Case)
    requires ValidDag(g)
  {
    exists id, f :: DueGateFor(g.nodes, id, f) && Exposed(m, g, x, id) && !TargetHolds(TargetsOf(m), f, x)
  }

  lemma {:induction false} BoundKeys(cs: seq<Criterion>)
    ensures forall f :: f in EligibilityTargets(cs) <==> exists c :: c in cs && c.cond.Cmp? && c.cond.field == f
    decreases |cs|
  {
    if cs != [] {
      assert cs == cs[..|cs| - 1] + [cs[|cs| - 1]];
      BoundKeys(cs[..|cs| - 1]);
    }
  }

  lemma {:induction false} DueKeys(ts: map<Field, Target>, ds: seq<Due>)
    ensures forall f :: f in DeadlineTargets(ts, ds) <==> f in ts || exists d :: d in ds && d.field == f
    decreases |ds|
  {
    if ds != [] {
      assert ds == ds[..|ds| - 1] + [ds[|ds| - 1]];
      DueKeys(ts, ds[..|ds| - 1]);
    }
  }

  predicate IsTarget(d: Due, t: Target) { d.op == t.op && d.want == t.want }

  // Deadlines come last: a field with one has the comparison of one of them.
  lemma {:induction false} DueTarget(ts: map<Field, Target>, ds: seq<Due>, f: Field)
    requires exists d :: d in ds && d.field == f
    ensures f in DeadlineTargets(ts, ds)
    ensures exists d :: d in ds && d.field == f && IsTarget(d, DeadlineTargets(ts, ds)[f])
    decreases |ds|
  {
    var front, last := ds[..|ds| - 1], ds[|ds| - 1];
    assert ds == front + [last] && last in ds;
    if last.field == f {
      assert IsTarget(last, DeadlineTargets(ts, ds)[f]);
    } else {
      DueTarget(ts, front, f);
      var e :| e in front && e.field == f && IsTarget(e, DeadlineTargets(ts, front)[f]);
      assert e in ds;
    }
  }

  lemma {:induction false} NoDueTarget(ts: map<Field, Target>, ds: seq<Due>, f: Field)
    requires f in ts && forall d :: d in ds ==> d.field != f
    ensures f in DeadlineTargets(ts, ds) && DeadlineTargets(ts, ds)[f] == ts[f]
    decreases |ds|
  {
    if ds != [] {
      assert ds[|ds| - 1] in ds;
      NoDueTarget(ts, ds[..|ds| - 1], f);
    }
  }

  lemma TargetKeys(m: Model)
    ensures forall f :: f in TargetsOf(m) <==> f in BoundFields(m) || f in DueFields(m)
  {
    BoundKeys(m.eligibility);
    DueKeys(EligibilityTargets(m.eligibility), m.deadlines);
    hide EligibilityTargets, DeadlineTargets;
  }

  lemma RepairedImpl(m: Model, g: Graph, id: NodeId)
    requires ValidDag(g) && id in Ids(g.nodes)
    ensures id in Ids(Repaired(m, g).nodes)
    ensures ImplOf(Repaired(m, g).nodes, id) == AlignedImpl(m, ImplOf(g.nodes, id))
  {
    RepairedValid(m, g);
    RelabelImpl(m, g.nodes, Repaired(m, g).nodes, id);
  }

  predicate SameKind(i: Impl, h: Impl) {
    && (h.Threshold? <==> i.Threshold?) && (h.Deadline? <==> i.Deadline?) && (h.Prohibition? <==> i.Prohibition?)
    && (h.Form? <==> i.Form?) && (h.Submit? <==> i.Submit?)
  }

  // What alignment makes of one node.
  lemma AlignedShape(m: Model, i: Impl, x: Case)
    requires i.Threshold? || i.Deadline? ==> i.field in TargetsOf(m)
    ensures SameKind(i, AlignedImpl(m, i))
    ensures i.Threshold? || i.Deadline? ==> (Met(AlignedImpl(m, i), x) <==> TargetHolds(TargetsOf(m), i.field, x))
  {
    hide TargetsOf, FoldFor;
  }

  // A gate of the aligned graph is met exactly when its field's surviving comparison holds.
  lemma GateMeets(m: Model, g: Graph, x: Case, id: NodeId)
    requires PlainGraph(g) && GatesMatch(m, g) && id in Ids(g.nodes)
    ensures id in Ids(Repaired(m, g).nodes)
    ensures var i, h := ImplOf(g.nodes, id), ImplOf(Repaired(m, g).nodes, id);
      && SameKind(i, h) && !h.Prohibition?
      && (i.Threshold? || i.Deadline? ==> (Met(h, x) <==> TargetHolds(TargetsOf(m), i.field, x)))
  {
    var i := ImplOf(g.nodes, id);
    assert i.Threshold? ==> GateFor(g.nodes, id, i.field);
    assert i.Deadline? ==> DueGateFor(g.nodes, id, i.field);
    RepairedImpl(m, g, id);
    TargetKeys(m);
    hide AlignedImpl, TargetsOf, ImplOf, TargetHolds, Met;
    AlignedShape(m, i, x);
  }

  // A step of a run through the aligned graph.
  lemma JoinedWhenOpen(m: Model, g: Graph, x: Case, a: NodeId, b: NodeId)
    requires PlainGraph(g) && GatesMatch(m, g)
    ensures Joined(Repaired(m, g), x, a, b) <==>
      HasEdge(g.edges, a, b) && a in Ids(g.nodes) && Open(m, ImplOf(g.nodes, a), x)
  {
    RepairedValid(m, g);
    if a in Ids(g.nodes) {
      GateMeets(m, g, x, a);
    }
    hide ImplOf, TargetHolds, Met, TargetsOf, Ids;
    if HasEdge(g.edges, a, b) && a in Ids(g.nodes) && Open(m, ImplOf(g.nodes, a), x) {
      var e :| e in g.edges && e.src == a && e.dst == b;
      assert Followed(Repaired(m, g), x, e);
    }
  }

  lemma TravelIsOpen(m: Model, g: Graph, h: Graph, x: Case, p: seq<NodeId>)
    requires |Starts(g)| == 1 && |Starts(h)| == 1 && Start(h) == Start(g)
    requires forall a, b :: Joined(h, x, a, b) <==>
      HasEdge(g.edges, a, b) && a in Ids(g.nodes) && Open(m, ImplOf(g.nodes, a), x)
    ensures Travels(h, x, p) <==> OpenWay(m, g, x, p) && p[0] == Start(g)
  {
    hide Joined, Open, HasEdge, Ids, ImplOf, Starts, Start;
    if Travels(h, x, p) {
      forall k | 0 <= k < |p| - 1
        ensures HasEdge(g.edges, p[k], p[k + 1]) && p[k] in Ids(g.nodes) && Open(m, ImplOf(g.nodes, p[k]), x)
      {
        assert Joined(h, x, p[k], p[k + 1]);
      }
    } else if OpenWay(m, g, x, p) && p[0] == Start(g) {
      forall k | 0 <= k < |p| - 1 ensures Joined(h, x, p[k], p[k + 1]) { assert HasEdge(g.edges, p[k], p[k + 1]); }
    }
  }

  /** What an aligned procedure reaches, said of the old graph and the model. */
  lemma RepairedReach(m: Model, g: Graph, x: Case, id: NodeId)
    requires PlainGraph(g) && GatesMatch(m, g)
    ensures id in Reached(Repaired(m, g), x) <==> Exposed(m, g, x, id)
  {
    var h := Repaired(m, g);
    RepairedValid(m, g);
    ReachedMeans(h, x, id);
    forall a, b { JoinedWhenOpen(m, g, x, a, b); }
    assert |Starts(g)| == 1 && |Starts(h)| == 1;
    hide ValidDag, Repaired, Joined, Open, Reached, HasEdge, ImplOf, GatesMatch, PlainGraph, Starts, Start, Travels,
      OpenWay;
    forall p ensures Travels(h, x, p) <==> OpenWay(m, g, x, p) && p[0] == Start(g) { TravelIsOpen(m, g, h, x, p); }
  }

  // A shut gate of the aligned graph that a run gets to, against the old graph and the model.
  lemma GateAgrees(m: Model, g: Graph, x: Case, id: NodeId)
    requires PlainGraph(g) && GatesMatch(m, g) && id in Ids(g.nodes)
    ensures id in Ids(Repaired(m, g).nodes) && (ReachesGate(Repaired(m, g), x, id) <==> Exposed(m, g, x, id))
    ensures var i, h := ImplOf(g.nodes, id), ImplOf(Repaired(m, g).nodes, id);
      && !h.Prohibition?
      && (h.Threshold? && !Met(h, x) <==> i.Threshold? && !TargetHolds(TargetsOf(m), i.field, x))
      && (h.Deadline? && !Met(h, x) <==> i.Deadline? && !TargetHolds(TargetsOf(m), i.field, x))
  {
    RepairedReach(m, g, x, id);
    GateMeets(m, g, x, id);
    hide Reached, Exposed, TargetHolds, TargetsOf, Met, GatesMatch, PlainGraph, Repaired, ImplOf;
  }

  lemma BoundsHit(m: Model, g: Graph, x: Case)
    requires PlainGraph(g) && GatesMatch(m, g)
    ensures RunOf(Repaired(m, g), x).eligible <==> !HitsBound(m, g, x)
  {
    var h := Repaired(m, g);
    RepairedValid(m, g);
    EligibleMeans(h, x);
    hide RunOf, Exposed, TargetHolds, TargetsOf, Met, GatesMatch, Repaired, PlainGraph, ValidDag, Ids, ImplOf;
    if !RunOf(h, x).eligible {
      var id :| ReachesGate(h, x, id) && ImplOf(h.nodes, id).Threshold? && !Met(ImplOf(h.nodes, id), x);
      GateAgrees(m, g, x, id);
      assert GateFor(g.nodes, id, ImplOf(g.nodes, id).field);
    }
    if id, f :| GateFor(g.nodes, id, f) && Exposed(m, g, x, id) && !TargetHolds(TargetsOf(m), f, x) {
      GateAgrees(m, g, x, id);
    }
  }

  lemma DeadlinesHit(m: Model, g: Graph, x: Case)
    requires PlainGraph(g) && GatesMatch(m, g)
    ensures RunOf(Repaired(m, g), x).onTime <==> !HitsDeadline(m, g, x)
  {
    var h := Repaired(m, g);
    RepairedValid(m, g);
    OnTimeMeans(h, x);
    hide RunOf, Exposed, TargetHolds, TargetsOf, Met, GatesMatch, Repaired, PlainGraph, ValidDag, Ids, ImplOf;
    if !RunOf(h, x).onTime {
      var id :| ReachesGate(h, x, id) && ImplOf(h.nodes, id).Deadline? && !Met(ImplOf(h.nodes, id), x);
      GateAgrees(m, g, x, id);
      assert DueGateFor(g.nodes, id, ImplOf(g.nodes, id).field);
    }
    if id, f :| DueGateFor(g.nodes, id, f) && Exposed(m, g, x, id) && !TargetHolds(TargetsOf(m), f, x) {
      GateAgrees(m, g, x, id);
    }
  }

  /** The verdicts of an aligned procedure: a case is turned away, or late, when a
      shut gate of the kind can be got to. */
  lemma RepairedVerdicts(m: Model, g: Graph, x: Case)
    requires PlainGraph(g) && GatesMatch(m, g)
    ensures ValidDag(Repaired(m, g))
    ensures RunOf(Repaired(m, g), x).eligible <==> !HitsBound(m, g, x)
    ensures RunOf(Repaired(m, g), x).onTime <==> !HitsDeadline(m, g, x)
    ensures !RunOf(Repaired(m, g), x).prohibited
  {
    var h := Repaired(m, g);
    RepairedValid(m, g);
    BoundsHit(m, g, x);
    DeadlinesHit(m, g, x);
    ProhibitedMeans(h, x);
    hide RunOf, HitsBound, HitsDeadline, Met, GatesMatch, Repaired, PlainGraph, ValidDag;
    if id :| ReachesGate(h, x, id) && ImplOf(h.nodes, id).Prohibition? && Met(ImplOf(h.nodes, id), x) {
      GateAgrees(m, g, x, id);
    }
  }

  // While no gate got to is shut, every node can be got to.
  lemma NoHitExposesAll(m: Model, g: Graph, x: Case)
    requires PlainGraph(g) && GatesMatch(m, g) && !HitsBound(m, g, x) && !HitsDeadline(m, g, x)
    ensures forall id :: id in Ids(g.nodes) ==> Exposed(m, g, x, id)
  {
    var v := set id | id in Ids(g.nodes) && Exposed(m, g, x, id);
    StartIs(g);
    assert OpenWay(m, g, x, [Start(g)]);
    SingleStartReachesAll(g);
    hide GatesMatch, HitsBound, HitsDeadline;
    forall e | e in g.edges && e.src in v ensures e.dst in v {
      OpenUnlessHit(m, g, x, e.src);
      ExposedOnward(m, g, x, e);
    }
    forall id | id in Ids(g.nodes) ensures id in v {
      var p :| PathFromTo(g.edges, p, Start(g), id);
      StaysIn(g.edges, p, v);
    }
  }

  lemma OpenUnlessHit(m: Model, g: Graph, x: Case, id: NodeId)
    requires ValidDag(g) && id in Ids(g.nodes) && Exposed(m, g, x, id)
    requires !HitsBound(m, g, x) && !HitsDeadline(m, g, x)
    ensures Open(m, ImplOf(g.nodes, id), x)
  {
    hide Exposed, TargetHolds;
    var i := ImplOf(g.nodes, id);
    assert i.Threshold? ==> GateFor(g.nodes, id, i.field);
    assert i.Deadline? ==> DueGateFor(g.nodes, id, i.field);
  }

  lemma ExposedOnward(m: Model, g: Graph, x: Case, e: Edge)
    requires ValidDag(g) && e in g.edges && e.src in Ids(g.nodes) && Exposed(m, g, x, e.src)
    requires Open(m, ImplOf(g.nodes, e.src), x)
    ensures e.dst in Ids(g.nodes) && Exposed(m, g, x, e.dst)
  {
    hide Open;
    var p :| OpenWay(m, g, x, p) && p[0] == Start(g) && p[|p| - 1] == e.src;
    var q := p + [e.dst];
    forall k | 0 <= k < |q| - 1
      ensures HasEdge(g.edges, q[k], q[k + 1]) && q[k] in Ids(g.nodes) && Open(m, ImplOf(g.nodes, q[k]), x)
    {
      if k < |p| - 1 { assert HasEdge(g.edges, p[k], p[k + 1]); }
    }
    assert OpenWay(m, g, x, q) && q[|q| - 1] == e.dst;
  }

  /** Which gates a case runs into. With every survivor met it runs into none and
      gets everywhere; otherwise it runs into one, of a kind whose survivors fail.
      Only a case that fails survivors of both kinds may miss one of the two. */
  lemma HitsMean(m: Model, g: Graph, x: Case)
    requires PlainGraph(g) && GatesMatch(m, g)
    ensures HitsBound(m, g, x) ==> !Admits(m, x)
    ensures HitsDeadline(m, g, x) ==> !Punctual(m, x)
    ensures Admits(m, x) && Punctual(m, x) <==> !HitsBound(m, g, x) && !HitsDeadline(m, g, x)
    ensures Admits(m, x) && Punctual(m, x) ==> forall id :: id in Ids(g.nodes) ==> Exposed(m, g, x, id)
  {
    if !HitsBound(m, g, x) && !HitsDeadline(m, g, x) {
      NoHitExposesAll(m, g, x);
    }
    hide Exposed, TargetHolds, TargetsOf, PlainGraph, BoundFields, DueFields;
  }

  // ---- Forms of an aligned procedure -----------------------------------------------------

  predicate FoldsFaithfully(m: Model, a: Action, x: Case)
    requires a in m.obligations
  {
    FoldFits(m.obligations[a], m.exceptions, a, x)
  }

  // What alignment makes of a form.
  lemma AlignedForm(m: Model, i: Impl, x: Case)
    ensures var h := AlignedImpl(m, i);
      (h.Form? <==> i.Form?) && (i.Form? ==> h.action == i.action)
      && (i.Form? && i.action in m.obligations ==> Needs(h, x) == FlagNeeds(FoldFor(m, i.action), x))
  {
    hide FoldFor, TargetsOf;
  }

  lemma RepairedForm(m: Model, g: Graph, id: NodeId, a: Action, x: Case)
    requires PlainGraph(g) && Matches(m, g)
    ensures Ids(Repaired(m, g).nodes) == Ids(g.nodes)
    ensures FormFor(Repaired(m, g).nodes, Ids(g.nodes), id, a) <==> FormFor(g.nodes, Ids(g.nodes), id, a)
    ensures FormFor(g.nodes, Ids(g.nodes), id, a) ==>
      a in m.obligations && Needs(ImplOf(Repaired(m, g).nodes, id), x) == FlagNeeds(FoldFor(m, a), x)
  {
    RepairedValid(m, g);
    if id in Ids(g.nodes) {
      RepairedImpl(m, g, id);
      hide AlignedImpl, FoldFor, ValidDag, TargetsOf;
      AlignedForm(m, ImplOf(g.nodes, id), x);
    }
  }

  // The action's form can be got to.
  ghost predicate FormExposed(m: Model, g: Graph, x: Case, a: Action)
    requires ValidDag(g)
  {
    exists id :: FormFor(g.nodes, Ids(g.nodes), id, a) && Exposed(m, g, x, id)
  }

  // A run asks for an obligation's step when it gets to its form and the folded flag says so.
  lemma RepairedRequired(m: Model, g: Graph, x: Case, a: Action)
    requires PlainGraph(g) && Matches(m, g)
    ensures Asks(RunOf(Repaired(m, g), x).required, a) <==>
      a in m.obligations && FormExposed(m, g, x, a) && FlagNeeds(FoldFor(m, a), x)
  {
    var h := Repaired(m, g);
    RepairedValid(m, g);
    RunRequired(h, x);
    ReachedShape(h, x);
    var req := RunOf(h, x).required;
    hide RunOf, Exposed, FoldFor, Repaired, Matches, PlainGraph, ImplOf;
    if a in req {
      var id :| FormFor(h.nodes, Reached(h, x), id, a) && req[a] == Needs(ImplOf(h.nodes, id), x);
      RepairedForm(m, g, id, a, x);
      RepairedReach(m, g, x, id);
    }
    if FormExposed(m, g, x, a) {
      var id :| FormFor(g.nodes, Ids(g.nodes), id, a) && Exposed(m, g, x, id);
      RepairedForm(m, g, id, a, x);
      RepairedReach(m, g, x, id);
      assert FormFor(h.nodes, Reached(h, x), id, a);
    }
  }

  // The step is asked for as the policy asks for it.
  ghost predicate Served(m: Model, g: Graph, x: Case, a: Action)
    requires ValidDag(g) && a in m.obligations
  {
    if FormExposed(m, g, x, a) then FoldsFaithfully(m, a, x)
    else !RequiredFor(m.obligations[a], m.exceptions, a, x)
  }

  ghost predicate AllServed(m: Model, g: Graph, x: Case)
    requires ValidDag(g)
  {
    forall a :: a in m.obligations ==> Served(m, g, x, a)
  }

  lemma RequirementAgrees(m: Model, g: Graph, x: Case, a: Action)
    requires PlainGraph(g) && Matches(m, g)
    ensures Asks(EvaluateExpected(m, x).required, a) == Asks(RunOf(Repaired(m, g), x).required, a) <==>
      (a in m.obligations ==> Served(m, g, x, a))
  {
    RepairedRequired(m, g, x, a);
    if a in m.obligations {
      FoldAgrees(m.obligations[a], m.exceptions, a, x);
    }
    hide RunOf, FormExposed, Repaired, Matches, RequiredFor, FoldFor, FlagNeeds, FoldFits;
  }

  lemma RequirementsAgree(m: Model, g: Graph, x: Case)
    requires PlainGraph(g) && Matches(m, g)
    ensures (forall k :: Asks(EvaluateExpected(m, x).required, k) == Asks(RunOf(Repaired(m, g), x).required, k)) <==>
      AllServed(m, g, x)
  {
    forall k { RequirementAgrees(m, g, x, k); }
    hide RunOf, Repaired, Matches, EvaluateExpected, Asks, Served;
  }

  // ---- When policy and aligned procedure agree ---------------------------------------------

  lemma OutcomeRuns(g: Graph, x: Case, cs: seq<Constraint>)
    requires ValidDag(g) && Resolved(g, cs)
    ensures OutcomeOf(g, x, cs).run == RunOf(g, x)
  {
  }

  /** What the repair achieves on every case of the unbounded domain. Policy and
      repaired procedure agree exactly when the ordering rules are kept; an eligible
      case gets to no gate whose surviving bound fails, and any other case gets to
      one; the same for deadlines; and for an eligible case every step is asked for
      as it should be and no prohibition is violated (no gate enforces one yet). */
  lemma RepairExactly(m: Model, g: Graph, x: Case, cs: seq<Constraint>)
    requires PlainGraph(g) && Matches(m, g) && Resolved(Repaired(m, g), cs)
    ensures Classify(EvaluateExpected(m, x), OutcomeOf(Repaired(m, g), x, cs)) == None <==>
      && OutcomeOf(Repaired(m, g), x, cs).orderOk
      && (Eligible(m, x) <==> !HitsBound(m, g, x))
      && (OnTime(m, x) <==> !HitsDeadline(m, g, x))
      && (Eligible(m, x) ==> AllServed(m, g, x) && Violated(m.prohibitions, x) == [])
  {
    hide OutcomeOf, RunOf, Classify, AllServed, HitsBound, HitsDeadline;
    RepairedVerdicts(m, g, x);
    RequirementsAgree(m, g, x);
    OutcomeRuns(Repaired(m, g), x, cs);
    AgreementMeans(EvaluateExpected(m, x), OutcomeOf(Repaired(m, g), x, cs));
  }

  // ---- Models that fold ----------------------------------------------------------------------

  // One comparison a field, be it a bound or a deadline.
  ghost predicate OnePerField(m: Model) {
    && (forall c, d | c in m.eligibility && d in m.eligibility && c.cond.Cmp? && d.cond.Cmp? ::
          c.cond.field == d.cond.field ==> c.cond == d.cond)
    && (forall c, d | c in m.deadlines && d in m.deadlines :: c.field == d.field ==> c.op == d.op && c.want == d.want)
    && BoundFields(m) !! DueFields(m)
  }

  // One comparison a field, conditional exceptions, obligations that can be in force.
  ghost predicate Foldable(m: Model) {
    && OnePerField(m)
    && (forall e :: e in m.exceptions ==> e.cond.Some?)
    && (forall a :: a in m.obligations ==> !m.obligations[a].mode.AlwaysFalse?)
  }

  predicate IsBound(c: Criterion, f: Field, t: Target) { c.cond == Cmp(f, t.op, t.want) }

  // A surviving comparison is one of the model's own.
  lemma {:induction false} SurvivorIsBound(cs: seq<Criterion>, f: Field)
    requires f in EligibilityTargets(cs)
    ensures exists c :: c in cs && IsBound(c, f, EligibilityTargets(cs)[f])
    decreases |cs|
  {
    var front, last := cs[..|cs| - 1], cs[|cs| - 1];
    assert cs == front + [last] && last in cs;
    if last.cond.Cmp? && last.cond.field == f {
      assert IsBound(last, f, EligibilityTargets(cs)[f]);
    } else {
      SurvivorIsBound(front, f);
      var c :| c in front && IsBound(c, f, EligibilityTargets(front)[f]);
      assert c in cs;
    }
  }

  lemma BoundSurvives(m: Model, c: Criterion, x: Case)
    requires OnePerField(m) && c in m.eligibility && c.cond.Cmp?
    ensures TargetHolds(TargetsOf(m), c.cond.field, x) <==> Eval(c.cond, x)
  {
    var es, f := EligibilityTargets(m.eligibility), c.cond.field;
    BoundKeys(m.eligibility);
    SurvivorIsBound(m.eligibility, f);
    assert f in BoundFields(m);
    assert forall d :: d in m.deadlines ==> d.field in DueFields(m);
    NoDueTarget(es, m.deadlines, f);
    hide EligibilityTargets, DeadlineTargets, Eval;
    var d :| d in m.eligibility && IsBound(d, f, es[f]);
    assert c.cond == d.cond;
  }

  // With one comparison a field the survivors are all there are.
  lemma BoundsSurvive(m: Model, x: Case)
    requires OnePerField(m) && forall c :: c in m.eligibility ==> c.cond.Cmp?
    ensures Admits(m, x) <==> Eligible(m, x)
  {
    forall c | c in m.eligibility { BoundSurvives(m, c, x); }
    hide TargetHolds, TargetsOf, Eval, OnePerField;
  }

  lemma DeadlineSurvives(m: Model, d: Due, x: Case)
    requires OnePerField(m) && d in m.deadlines
    ensures TargetHolds(TargetsOf(m), d.field, x) <==> Eval(Cmp(d.field, d.op, d.want), x)
  {
    var es := EligibilityTargets(m.eligibility);
    DueTarget(es, m.deadlines, d.field);
    hide EligibilityTargets, DeadlineTargets, Eval;
    var e :| e in m.deadlines && e.field == d.field && IsTarget(e, DeadlineTargets(es, m.deadlines)[d.field]);
    assert e.op == d.op && e.want == d.want;
  }

  lemma DeadlinesSurvive(m: Model, x: Case)
    requires OnePerField(m)
    ensures Punctual(m, x) <==> OnTime(m, x)
  {
    forall d | d in m.deadlines { DeadlineSurvives(m, d, x); }
    hide TargetHolds, TargetsOf, Eval, OnePerField;
  }

  lemma FoldableFits(m: Model, x: Case, a: Action)
    requires Foldable(m) && a in m.obligations
    ensures FoldsFaithfully(m, a, x)
  {
  }

  // Every step in force for the case can be got to.
  ghost predicate NothingBehind(m: Model, g: Graph, x: Case)
    requires ValidDag(g)
  {
    forall a :: a in m.obligations && RequiredFor(m.obligations[a], m.exceptions, a, x) ==> FormExposed(m, g, x, a)
  }

  // What a run cut short still has to get right: a case that is neither eligible
  // nor on time gets to a gate of either kind, and an eligible one that is late has
  // no step in force behind the gate that stops it.
  ghost predicate StopsTell(m: Model, g: Graph, x: Case)
    requires ValidDag(g)
  {
    && (!Eligible(m, x) && !OnTime(m, x) ==> HitsBound(m, g, x) && HitsDeadline(m, g, x))
    && (Eligible(m, x) && !OnTime(m, x) ==> NothingBehind(m, g, x))
  }

  // For a foldable model that is all the verdicts and the steps come down to.
  lemma FoldableAgrees(m: Model, g: Graph, x: Case)
    requires PlainGraph(g) && Matches(m, g) && Foldable(m)
    ensures StopsTell(m, g, x) <==>
      && (Eligible(m, x) <==> !HitsBound(m, g, x)) && (OnTime(m, x) <==> !HitsDeadline(m, g, x))
      && (Eligible(m, x) ==> AllServed(m, g, x))
    ensures Eligible(m, x) && OnTime(m, x) ==> forall id :: id in Ids(g.nodes) ==> Exposed(m, g, x, id)
  {
    HitsMean(m, g, x);
    BoundsSurvive(m, x);
    DeadlinesSurvive(m, x);
    forall a | a in m.obligations ensures FoldsFaithfully(m, a, x) { FoldableFits(m, x, a); }
    hide HitsBound, HitsDeadline, Eligible, OnTime, Admits, Punctual, FoldsFaithfully, RequiredFor, Exposed, PlainGraph,
      Foldable, GatesMatch;
    if Eligible(m, x) && OnTime(m, x) {
      forall a | a in m.obligations ensures FormExposed(m, g, x, a) {
        var id :| FormFor(g.nodes, Ids(g.nodes), id, a);
      }
    }
    hide FormExposed;
  }

  /** Repair completeness: for a foldable model all that is left to disagree on is
      an ordering rule, a prohibition that an eligible case violates, and what lies
      behind the gate that stops a late case. */
  lemma RepairComplete(m: Model, g: Graph, x: Case, cs: seq<Constraint>)
    requires PlainGraph(g) && Matches(m, g) && Foldable(m) && Resolved(Repaired(m, g), cs)
    ensures ValidDag(Repaired(m, g))
    ensures Classify(EvaluateExpected(m, x), OutcomeOf(Repaired(m, g), x, cs)) == None <==>
      && OutcomeOf(Repaired(m, g), x, cs).orderOk && StopsTell(m, g, x)
      && (Eligible(m, x) ==> Violated(m.prohibitions, x) == [])
  {
    RepairedValid(m, g);
    RepairExactly(m, g, x, cs);
    hide OutcomeOf, Classify, EvaluateExpected, StopsTell, HitsBound, HitsDeadline, AllServed, PlainGraph, Matches,
      Foldable, Eligible, OnTime;
    FoldableAgrees(m, g, x);
  }

  // Without deadlines there is nothing to get right behind a gate.
  lemma NoDeadlineTells(m: Model, g: Graph, x: Case)
    requires ValidDag(g) && m.deadlines == []
    ensures StopsTell(m, g, x)
  {
  }

  /** A procedure whose verdicts come from its aligned gates disagrees about the
      deadlines exactly on the cases that are neither eligible nor on time and are
      stopped by a bound before they get to a deadline. */
  lemma MismatchMeans(m: Model, g: Graph, x: Case, o: Outcome)
    requires PlainGraph(g) && GatesMatch(m, g) && OnePerField(m)
    requires (o.run.eligible <==> !HitsBound(m, g, x)) && (o.run.onTime <==> !HitsDeadline(m, g, x))
    ensures Classify(EvaluateExpected(m, x), o) == Some(Disagreement(DeadlineMismatch, OnTimeKey)) <==>
      !Eligible(m, x) && !OnTime(m, x) && HitsBound(m, g, x) && !HitsDeadline(m, g, x)
  {
    HitsMean(m, g, x);
    BoundsSurvive(m, x);
    DeadlinesSurvive(m, x);
    hide Classify, HitsBound, HitsDeadline, Eligible, OnTime, Admits, Punctual, PlainGraph, GatesMatch, OnePerField;
    KindMeans(EvaluateExpected(m, x), o, 0, 0);
  }

  /** A model compiled from rules is foldable as soon as its exceptions are
      conditional and it has one comparison per field. */
  lemma CompiledRepairComplete(rs: seq<Rule>, g: Graph, x: Case, cs: seq<Constraint>)
    requires PlainGraph(g) && Matches(ModelOf(rs), g) && OnePerField(ModelOf(rs))
      && Resolved(Repaired(ModelOf(rs), g), cs)
    requires forall e :: e in ModelOf(rs).exceptions ==> e.cond.Some?
    ensures var m, h := ModelOf(rs), Repaired(ModelOf(rs), g);
      Classify(EvaluateExpected(m, x), OutcomeOf(h, x, cs)) == None <==>
      && OutcomeOf(h, x, cs).orderOk && StopsTell(m, g, x)
      && (Eligible(m, x) ==> Violated(m.prohibitions, x) == [])
  {
    hide ModelOf, PlainGraph, Matches, OnePerField, OutcomeOf, Classify, EvaluateExpected, Repaired, StopsTell;
    var m := ModelOf(rs);
    forall a | a in m.obligations ensures !m.obligations[a].mode.AlwaysFalse? { CompiledInForce(rs, a); }
    RepairComplete(m, g, x, cs);
  }
}
