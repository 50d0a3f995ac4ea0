/** The breadth-first interpreter (services/workflow/interpreter.py, lines 144-272). */
module Interpreter {
  import opened Wrappers
  import opened Expr
  import opened Graphs
  import opened Kahn
  import opened Dag
  import opened Flow

  // An ordering rule whose two tokens have been resolved to node ids.
  datatype Constraint = Constraint(before: Option<NodeId>, after: Option<NodeId>)

  datatype Run = Run(
    visited: set<NodeId>,
    path: seq<NodeId>,
    eligible: bool,
    onTime: bool,
    prohibited: bool,
    required: map<Action, bool>,
    stopped: bool)

  datatype Outcome = Outcome(run: Run, orderOk: bool)

  const FRESH_RUN := Run({}, [], true, true, false, map[], false)

  predicate Enabled(e: Edge, x: Case) { e.branch ==> Holds(e.cond, x) }

  // Does the run follow the outgoing edges of such a node?
  predicate Passes(impl: Impl, x: Case) {
    match impl
    case Threshold(f, op, w) => Eval(Cmp(f, op, w), x)
    case Deadline(f, op, w) => Eval(Cmp(f, op, w), x)
    case Prohibition(f, op, w) => !Eval(Cmp(f, op, w), x)
    case Form(_, _, _) => true
    case Submit => false
    case Task(_, _, _) => true
    case Plain => true
  }

  predicate Needs(impl: Impl, x: Case) { impl.Form? && impl.required && Holds(impl.cond, x) }

  predicate Skipped(impl: Impl, x: Case) { impl.Form? && impl.cond.Some? && !Needs(impl, x) }

  predicate IsGate(impl: Impl) { impl.Threshold? || impl.Deadline? || impl.Prohibition? }

  // The ways in which a gate stops a run.
  datatype Stop = Rejects | Late | Blocks | AnyStop

  predicate StopsBy(k: Stop, impl: Impl, x: Case) {
    !Passes(impl, x) &&
    match k
    case Rejects => impl.Threshold?
    case Late => impl.Deadline?
    case Blocks => impl.Prohibition?
    case AnyStop => IsGate(impl)
  }

  function Follow(es: seq<Edge>, id: NodeId, x: Case): (r: seq<NodeId>)
    ensures forall m :: m in r <==> exists e :: e in es && e.src == id && e.dst == m && Enabled(e, x)
  {
    if es == [] then [] else
      var last := es[|es| - 1];
      var front := es[..|es| - 1];
      assert es == front + [last];
      Follow(front, id, x) + if last.src == id && Enabled(last, x) then [last.dst] else []
  }

  // The effect of visiting one node, field by field.
  function Visit(r: Run, id: NodeId, impl: Impl, x: Case): Run {
    Run(r.visited + {id},
        if Skipped(impl, x) then r.path else r.path + [id],
        r.eligible && !StopsBy(Rejects, impl, x),
        r.onTime && !StopsBy(Late, impl, x),
        r.prohibited || StopsBy(Blocks, impl, x),
        if impl.Form? then r.required[impl.action := Needs(impl, x)] else r.required,
        r.stopped || StopsBy(AnyStop, impl, x))
  }

  // What the run follows from a node it has just visited.
  function Onward(g: Graph, x: Case, id: NodeId): seq<NodeId>
    requires id in Ids(g.nodes)
  {
    if Passes(ImplOf(g.nodes, id), x) then Follow(g.edges, id, x) else []
  }

  lemma FrontierStep(g: Graph, x: Case, frontier: seq<NodeId>, visited: set<NodeId>)
    requires NoDangling(g) && Elems(frontier) <= Ids(g.nodes) && frontier != []
    ensures frontier[0] in Ids(g.nodes)
    ensures Elems(frontier) == {frontier[0]} + Elems(frontier[1..])
    ensures Elems(frontier[1..] + Onward(g, x, frontier[0])) == Elems(frontier[1..]) + Elems(Onward(g, x, frontier[0]))
    ensures Elems(Onward(g, x, frontier[0])) <= Ids(g.nodes)
    ensures frontier[0] !in visited ==>
      |Ids(g.nodes) - (visited + {frontier[0]})| < |Ids(g.nodes) - visited|
  {
    var id, ids := frontier[0], Ids(g.nodes);
    assert frontier == [id] + frontier[1..];
    assert id in Elems(frontier);
    if id !in visited {
      assert ids - visited == (ids - (visited + {id})) + {id};
    }
  }

  function Walk(g: Graph, x: Case, frontier: seq<NodeId>, r: Run): Run
    requires NoDangling(g) && Elems(frontier) <= Ids(g.nodes)
    decreases |Ids(g.nodes) - r.visited|, |frontier|
  {
    if frontier == [] then r else
      FrontierStep(g, x, frontier, r.visited);
      var id, rest := frontier[0], frontier[1..];
      if id in r.visited then Walk(g, x, rest, r)
      else Walk(g, x, rest + Onward(g, x, id), Visit(r, id, ImplOf(g.nodes, id), x))
  }

  ghost predicate Resolved(g: Graph, cs: seq<Constraint>) {
    forall c | c in cs ::
      && (c.before.Some? ==> c.before.value in Ids(g.nodes))
      && (c.after.Some? ==> c.after.value in Ids(g.nodes))
  }

  // Both ids found: sorted the right way round. Target found without its
  // prerequisite: violated. And a target on the path needs its prerequisite there.
  predicate Respects(order: seq<NodeId>, path: seq<NodeId>, c: Constraint)
    requires c.before.Some? ==> c.before.value in order
    requires c.after.Some? ==> c.after.value in order
  {
    && (c.after.Some? ==> c.before.Some? && IndexOf(order, c.before.value) <= IndexOf(order, c.after.value))
    && (c.after.Some? && c.after.value in path ==> c.before.Some? && c.before.value in path)
  }

  predicate RespectsAll(order: seq<NodeId>, path: seq<NodeId>, cs: seq<Constraint>)
    requires forall c :: c in cs ==>
      (c.before.Some? ==> c.before.value in order) && (c.after.Some? ==> c.after.value in order)
  {
    forall c :: c in cs ==> Respects(order, path, c)
  }

  lemma RespectsOne(order: seq<NodeId>, path: seq<NodeId>, c: Constraint)
    requires (c.before.Some? ==> c.before.value in order) && (c.after.Some? ==> c.after.value in order)
    ensures RespectsAll(order, path, [c]) == Respects(order, path, c)
  {
    assert c in [c];
  }

  lemma SortedIds(g: Graph)
    requires ValidDag(g)
    ensures Elems(KahnOrder(g)) == Ids(g.nodes)
    ensures TopologicalOrder(g, KahnOrder(g))
  {
    LiveAll(Ids(g.nodes), g.edges);
    KahnCorrect(g);
  }

  // Executing an invalid graph raises an error; it has no run to speak of.
  ghost function RunOf(g: Graph, x: Case): Run {
    if ValidDag(g) then
      StartIs(g);
      Walk(g, x, [Start(g)], FRESH_RUN)
    else FRESH_RUN
  }

  ghost function OutcomeOf(g: Graph, x: Case, cs: seq<Constraint>): Outcome {
    if ValidDag(g) && Resolved(g, cs) then
      SortedIds(g);
      Outcome(RunOf(g, x), RespectsAll(KahnOrder(g), RunOf(g, x).path, cs))
    else Outcome(FRESH_RUN, true)
  }

  lemma NoRulesToBreak(g: Graph, x: Case)
    requires ValidDag(g)
    ensures OutcomeOf(g, x, []) == Outcome(RunOf(g, x), true)
  {
    assert Resolved(g, []);
  }

  method CheckOrdering(order: seq<NodeId>, path: seq<NodeId>, cs: seq<Constraint>) returns (ok: bool)
    requires forall c :: c in cs ==>
      (c.before.Some? ==> c.before.value in order) && (c.after.Some? ==> c.after.value in order)
    ensures ok == RespectsAll(order, path, cs)
  {
    ok := true;
    for i := 0 to |cs|
      invariant ok <==> forall k :: 0 <= k < i ==> Respects(order, path, cs[k])
    {
      var a, b := cs[i].before, cs[i].after;
      if a.Some? && b.Some? {
        if IndexOf(order, a.value) > IndexOf(order, b.value) {
          ok := false;
        }
      } else if b.Some? && a.None? {
        ok := false;
      }
      if b.Some? && b.value in path && (a.None? || a.value !in path) {
        ok := false;
      }
    }
  }

  // One turn of the loop, kind by kind; `onward` says whether to follow the edges.
  method VisitNode(r: Run, id: NodeId, impl: Impl, x: Case) returns (r': Run, onward: bool)
    ensures r' == Visit(r, id, impl, x) && onward == Passes(impl, x)
  {
    var path, required := r.path, r.required;
    var eligible, onTime, prohibited, stopped := r.eligible, r.onTime, r.prohibited, r.stopped;
    onward := true;
    match impl {
      case Threshold(f, op, w) =>
        path := path + [id];
        if !Eval(Cmp(f, op, w), x) {
          eligible, stopped, onward := false, true, false;
        }
      case Deadline(f, op, w) =>
        path := path + [id];
        if !Eval(Cmp(f, op, w), x) {
          onTime, stopped, onward := false, true, false;
        }
      case Prohibition(f, op, w) =>
        path := path + [id];
        if Eval(Cmp(f, op, w), x) {
          prohibited, stopped, onward := true, true, false;
        }
      case Form(action, req, cond) =>
        var need := req;
        if cond.Some? {
          need := need && Eval(cond.value, x);
        }
        if need || cond.None? {
          path := path + [id];
        }
        required := required[action := need];
      case Submit =>
        path := path + [id];
        onward := false;
      case Task(_, _, _) =>
        path := path + [id];
      case Plain =>
        path := path + [id];
    }
    r' := Run(r.visited + {id}, path, eligible, onTime, prohibited, required, stopped);
  }

  method RunLoop(g: Graph, x: Case, start: NodeId) returns (run: Run)
    requires NoDangling(g) && start in Ids(g.nodes)
    ensures run == Walk(g, x, [start], FRESH_RUN)
  {
    var frontier := [start];
    run := FRESH_RUN;
    while frontier != []
      invariant Elems(frontier) <= Ids(g.nodes)
      invariant Walk(g, x, frontier, run) == Walk(g, x, [start], FRESH_RUN)
      decreases |Ids(g.nodes) - run.visited|, |frontier|
    {
      FrontierStep(g, x, frontier, run.visited);
      var id := frontier[0];
      frontier := frontier[1..];
      if id !in run.visited {
        var onward;
        run, onward := VisitNode(run, id, ImplOf(g.nodes, id), x);
        if onward {
          frontier := frontier + Follow(g.edges, id, x);
        } else {
          assert frontier + [] == frontier;
        }
      }
    }
  }

  method Execute(g: Graph, x: Case, cs: seq<Constraint>) returns (r: Result<Outcome, Invalid>)
    requires Resolved(g, cs)
    ensures r.Ok? <==> ValidDag(g)
    ensures r.Ok? ==> r.value == OutcomeOf(g, x, cs)
  {
    var valid := ValidateDag(g);
    if valid.Err? {
      return Err(valid.error);
    }
    StartIs(g);
    var run := RunLoop(g, x, valid.value[0]);
    var order := OrderedNodes(g);
    LiveAll(Ids(g.nodes), g.edges);
    SortedIds(g);
    var ok := CheckOrdering(order.value, run.path, cs);
    r := Ok(Outcome(run, ok));
  }

  // ---- What a run computes -----------------------------------------------------

  // The steps a run can take: enabled edges out of nodes that let it through.
  function Steps(g: Graph, x: Case): Pairs {
    set e | e in g.edges && e.src in Ids(g.nodes) && Passes(ImplOf(g.nodes, e.src), x) && Enabled(e, x)
      :: (e.src, e.dst)
  }

  ghost predicate Stopped(ns: seq<Node>, x: Case, v: set<NodeId>, k: Stop) {
    exists id :: id in v && id in Ids(ns) && StopsBy(k, ImplOf(ns, id), x)
  }

  ghost predicate Flags(ns: seq<Node>, x: Case, r: Run) {
    && (r.eligible <==> !Stopped(ns, x, r.visited, Rejects))
    && (r.onTime <==> !Stopped(ns, x, r.visited, Late))
    && (r.prohibited <==> Stopped(ns, x, r.visited, Blocks))
    && (r.stopped <==> Stopped(ns, x, r.visited, AnyStop))
  }

  ghost predicate FormFor(ns: seq<Node>, v: set<NodeId>, id: NodeId, a: Action) {
    id in v && id in Ids(ns) && ImplOf(ns, id).Form? && ImplOf(ns, id).action == a
  }

  // Some visited form of the action decides it; no other action is recorded.
  ghost predicate RequiredMatches(ns: seq<Node>, x: Case, r: Run) {
    && (forall id, a :: FormFor(ns, r.visited, id, a) ==> a in r.required)
    && (forall a :: a in r.required ==>
          exists id :: FormFor(ns, r.visited, id, a) && r.required[a] == Needs(ImplOf(ns, id), x))
  }

  ghost predicate PathMatches(ns: seq<Node>, x: Case, r: Run) {
    && NoDup(r.path)
    && forall id :: id in r.path <==> id in r.visited && id in Ids(ns) && !Skipped(ImplOf(ns, id), x)
  }

  lemma VisitedGrows(ns: seq<Node>, x: Case, v: set<NodeId>, id: NodeId, k: Stop)
    requires id in Ids(ns)
    ensures Stopped(ns, x, v + {id}, k) <==> Stopped(ns, x, v, k) || StopsBy(k, ImplOf(ns, id), x)
  {
    assert id in v + {id};
    if Stopped(ns, x, v, k) {
      var m :| m in v && m in Ids(ns) && StopsBy(k, ImplOf(ns, m), x);
      assert m in v + {id};
    }
  }

  lemma VisitKeepsRequired(ns: seq<Node>, x: Case, r: Run, id: NodeId)
    requires id in Ids(ns) && RequiredMatches(ns, x, r)
    ensures RequiredMatches(ns, x, Visit(r, id, ImplOf(ns, id), x))
  {
    var impl := ImplOf(ns, id);
    var r' := Visit(r, id, impl, x);
    assert forall k, a :: FormFor(ns, r'.visited, k, a) <==>
      FormFor(ns, r.visited, k, a) || (k == id && impl.Form? && impl.action == a);
    forall a | a in r'.required
      ensures exists k :: FormFor(ns, r'.visited, k, a) && r'.required[a] == Needs(ImplOf(ns, k), x)
    {
      if impl.Form? && impl.action == a {
        assert FormFor(ns, r'.visited, id, a);
      } else {
        var k :| FormFor(ns, r.visited, k, a) && r.required[a] == Needs(ImplOf(ns, k), x);
        assert FormFor(ns, r'.visited, k, a);
      }
    }
  }

  ghost predicate Faithful(ns: seq<Node>, x: Case, r: Run) {
    Flags(ns, x, r) && RequiredMatches(ns, x, r) && PathMatches(ns, x, r)
  }

  lemma VisitKeeps(ns: seq<Node>, x: Case, r: Run, id: NodeId)
    requires id in Ids(ns) && id !in r.visited && Faithful(ns, x, r)
    ensures Visit(r, id, ImplOf(ns, id), x).visited == r.visited + {id}
    ensures Faithful(ns, x, Visit(r, id, ImplOf(ns, id), x))
  {
    forall k { VisitedGrows(ns, x, r.visited, id, k); }
    VisitKeepsRequired(ns, x, r, id);
  }

  ghost predicate StepsInto(g: Graph, x: Case, s: set<NodeId>, t: set<NodeId>) {
    forall p :: p in Steps(g, x) && p.0 in s ==> p.1 in t
  }

  lemma OnwardSteps(g: Graph, x: Case, id: NodeId)
    requires id in Ids(g.nodes)
    ensures forall m :: m in Onward(g, x, id) <==> (id, m) in Steps(g, x)
  {
  }

  lemma {:induction false} WalkFaithful(g: Graph, x: Case, frontier: seq<NodeId>, r: Run)
    requires NoDangling(g) && Elems(frontier) <= Ids(g.nodes) && Faithful(g.nodes, x, r)
    ensures Faithful(g.nodes, x, Walk(g, x, frontier, r))
    decreases |Ids(g.nodes) - r.visited|, |frontier|
  {
    if frontier != [] {
      var id, rest := frontier[0], frontier[1..];
      FrontierStep(g, x, frontier, r.visited);
      if id in r.visited {
        WalkFaithful(g, x, rest, r);
      } else {
        VisitKeeps(g.nodes, x, r, id);
        WalkFaithful(g, x, rest + Onward(g, x, id), Visit(r, id, ImplOf(g.nodes, id), x));
      }
    }
  }

  lemma {:induction false} WalkClosed(g: Graph, x: Case, frontier: seq<NodeId>, r: Run)
    requires NoDangling(g) && Elems(frontier) <= Ids(g.nodes) && r.visited <= Ids(g.nodes)
    requires StepsInto(g, x, r.visited, r.visited + Elems(frontier))
    ensures var v := Walk(g, x, frontier, r).visited;
      r.visited + Elems(frontier) <= v <= Ids(g.nodes) && Stable(Steps(g, x), v)
    decreases |Ids(g.nodes) - r.visited|, |frontier|
  {
    if frontier != [] {
      var id, rest := frontier[0], frontier[1..];
      FrontierStep(g, x, frontier, r.visited);
      if id in r.visited {
        assert r.visited + Elems(frontier) == r.visited + Elems(rest);
        WalkClosed(g, x, rest, r);
      } else {
        var next := rest + Onward(g, x, id);
        OnwardSteps(g, x, id);
        assert r.visited + {id} + Elems(next) == r.visited + Elems(frontier) + Elems(Onward(g, x, id));
        WalkClosed(g, x, next, Visit(r, id, ImplOf(g.nodes, id), x));
      }
    }
  }

  lemma {:induction false} WalkLeast(g: Graph, x: Case, frontier: seq<NodeId>, r: Run, s: set<NodeId>)
    requires NoDangling(g) && Elems(frontier) <= Ids(g.nodes)
    requires Stable(Steps(g, x), s) && Elems(frontier) <= s && r.visited <= s
    ensures Walk(g, x, frontier, r).visited <= s
    decreases |Ids(g.nodes) - r.visited|, |frontier|
  {
    if frontier != [] {
      var id, rest := frontier[0], frontier[1..];
      FrontierStep(g, x, frontier, r.visited);
      if id in r.visited {
        WalkLeast(g, x, rest, r, s);
      } else {
        OnwardSteps(g, x, id);
        var r' := Visit(r, id, ImplOf(g.nodes, id), x);
        assert r'.visited == r.visited + {id};
        WalkLeast(g, x, rest + Onward(g, x, id), r', s);
      }
    }
  }

  // The set a run reaches.
  ghost function Reached(g: Graph, x: Case): set<NodeId> { RunOf(g, x).visited }

  lemma ReachedShape(g: Graph, x: Case)
    requires ValidDag(g)
    ensures Start(g) in Reached(g, x) && Reached(g, x) <= Ids(g.nodes) && Stable(Steps(g, x), Reached(g, x))
  {
    StartIs(g);
    assert Start(g) in Elems([Start(g)]);
    WalkClosed(g, x, [Start(g)], FRESH_RUN);
  }

  lemma RunFaithful(g: Graph, x: Case)
    requires ValidDag(g)
    ensures Faithful(g.nodes, x, RunOf(g, x))
  {
    StartIs(g);
    WalkFaithful(g, x, [Start(g)], FRESH_RUN);
  }

  lemma RunFlags(g: Graph, x: Case)
    requires ValidDag(g)
    ensures Flags(g.nodes, x, RunOf(g, x))
  {
    RunFaithful(g, x);
  }

  lemma RunRequired(g: Graph, x: Case)
    requires ValidDag(g)
    ensures RequiredMatches(g.nodes, x, RunOf(g, x))
  {
    RunFaithful(g, x);
  }

  lemma OnPath(g: Graph, x: Case, id: NodeId)
    requires ValidDag(g) && id in Ids(g.nodes)
    ensures id in RunOf(g, x).path <==> id in Reached(g, x) && !Skipped(ImplOf(g.nodes, id), x)
  {
    RunFaithful(g, x);
  }

  // When a is sorted before b and reached whenever b is, the rule "a before b"
  // fails only if a is skipped.
  lemma OrderVerdict(g: Graph, x: Case, a: NodeId, b: NodeId)
    requires ValidDag(g) && a in KahnOrder(g) && b in KahnOrder(g)
    requires IndexOf(KahnOrder(g), a) < IndexOf(KahnOrder(g), b)
    requires b in Reached(g, x) ==> a in Reached(g, x)
    ensures a in Ids(g.nodes) && b in Ids(g.nodes)
    ensures OutcomeOf(g, x, [Constraint(Some(a), Some(b))]).orderOk <==>
      !(b in RunOf(g, x).path && Skipped(ImplOf(g.nodes, a), x))
  {
    hide RunOf, KahnOrder;
    SortedIds(g);
    assert a in Elems(KahnOrder(g)) && b in Elems(KahnOrder(g));
    OnPath(g, x, a);
    OnPath(g, x, b);
    var c := Constraint(Some(a), Some(b));
    assert Resolved(g, [c]);
    RespectsOne(KahnOrder(g), RunOf(g, x).path, c);
  }

  lemma LeastReached(g: Graph, x: Case, s: set<NodeId>)
    requires ValidDag(g) && Start(g) in s && Stable(Steps(g, x), s)
    ensures Reached(g, x) <= s
  {
    StartIs(g);
    WalkLeast(g, x, [Start(g)], FRESH_RUN, s);
  }

  lemma ReachedLeast(g: Graph, x: Case)
    requires ValidDag(g)
    ensures Least(Steps(g, x), Start(g), Reached(g, x))
  {
    ReachedShape(g, x);
    forall s | Start(g) in s && Stable(Steps(g, x), s) ensures Reached(g, x) <= s {
      LeastReached(g, x, s);
    }
  }

  /** The run visits exactly the least set of nodes that holds the start and is
      closed under the enabled edges out of nodes that let the run through; its
      flags, requirements and path are read off that set. */
  lemma RunIsLeast(g: Graph, x: Case)
    requires ValidDag(g)
    ensures Least(Steps(g, x), Start(g), Reached(g, x)) && Reached(g, x) <= Ids(g.nodes)
    ensures Faithful(g.nodes, x, RunOf(g, x))
  {
    ReachedLeast(g, x);
    ReachedShape(g, x);
    RunFaithful(g, x);
  }

  // Each action has at most one form.
  ghost predicate OneFormEach(ns: seq<Node>) {
    forall i, j, a :: FormFor(ns, Ids(ns), i, a) && FormFor(ns, Ids(ns), j, a) ==> i == j
  }

  lemma SameEdgesSameReach(g: Graph, h: Graph, x: Case)
    requires ValidDag(g) && ValidDag(h) && g.nodes == h.nodes
    requires forall e :: e in g.edges <==> e in h.edges
    ensures Reached(g, x) == Reached(h, x)
  {
    StartIs(g);
    StartIs(h);
    assert HasIncoming(g.edges, Start(g)) == HasIncoming(h.edges, Start(g));
    assert Steps(g, x) == Steps(h, x);
    ReachedLeast(g, x);
    ReachedLeast(h, x);
    LeastUnique(Steps(g, x), Start(g), Reached(g, x), Reached(h, x));
  }

  /** Reordering edges changes no verdict of a run. */
  lemma EdgeOrderIrrelevant(g: Graph, h: Graph, x: Case)
    requires ValidDag(g) && ValidDag(h) && g.nodes == h.nodes
    requires forall e :: e in g.edges <==> e in h.edges
    ensures Reached(g, x) == Reached(h, x)
    ensures var r, q := RunOf(g, x), RunOf(h, x);
      && r.eligible == q.eligible && r.onTime == q.onTime
      && r.prohibited == q.prohibited && r.stopped == q.stopped
      && (OneFormEach(g.nodes) ==> r.required == q.required)
  {
    SameEdgesSameReach(g, h, x);
    ReachedShape(g, x);
    RunFlags(g, x);
    RunFlags(h, x);
    var v := Reached(g, x);
    assert forall k :: Stopped(g.nodes, x, v, k) == Stopped(h.nodes, x, v, k);
    if OneFormEach(g.nodes) {
      RunRequired(g, x);
      RunRequired(h, x);
      assert forall id, a :: FormFor(g.nodes, v, id, a) <==> FormFor(h.nodes, v, id, a);
      SameRequired(g.nodes, h.nodes, x, RunOf(g, x), RunOf(h, x));
    }
  }

  lemma SameRequired(ns: seq<Node>, ms: seq<Node>, x: Case, r: Run, q: Run)
    requires OneFormEach(ns) && RequiredMatches(ns, x, r) && RequiredMatches(ms, x, q)
    requires r.visited <= Ids(ns)
    requires forall id, a :: FormFor(ns, r.visited, id, a) <==> FormFor(ms, q.visited, id, a)
    requires forall id, a :: FormFor(ns, r.visited, id, a) ==> ImplOf(ns, id) == ImplOf(ms, id)
    ensures r.required == q.required
  {
    forall a | a in r.required || a in q.required
      ensures a in r.required && a in q.required && r.required[a] == q.required[a]
    {
      if a in q.required {
        var k :| FormFor(ms, q.visited, k, a) && q.required[a] == Needs(ImplOf(ms, k), x);
        assert FormFor(ns, r.visited, k, a);
      }
      if a in r.required {
        var i :| FormFor(ns, r.visited, i, a) && r.required[a] == Needs(ImplOf(ns, i), x);
        assert FormFor(ms, q.visited, i, a);
        var j :| FormFor(ms, q.visited, j, a) && q.required[a] == Needs(ImplOf(ms, j), x);
        assert FormFor(ns, Ids(ns), i, a) && FormFor(ns, Ids(ns), j, a);
      }
    }
  }
}
