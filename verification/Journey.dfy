/** What a run does, said of the nodes and edges of the graph
    (services/workflow/interpreter.py, lines 144-272). */
module Journey {
  import opened Wrappers
  import opened Expr
  import opened Graphs
  import opened Kahn
  import opened Dag
  import opened Interpreter

  // The gate's field is there and its value meets the comparison.
  predicate Met(i: Impl, x: Case)
    requires i.Threshold? || i.Deadline? || i.Prohibition?
  {
    i.field in x && Compare(i.op, x[i.field], i.want)
  }

  // ---- Where a run goes ------------------------------------------------------------------

  // A gate of the first two kinds has to be met and a prohibition not; nothing
  // follows a submit node.
  predicate GoesOn(i: Impl, x: Case) {
    match i
    case Threshold(_, _, _) => Met(i, x)
    case Deadline(_, _, _) => Met(i, x)
    case Prohibition(_, _, _) => !Met(i, x)
    case Submit => false
    case _ => true
  }

  // The condition of an edge counts only on a branch.
  predicate Followed(g: Graph, x: Case, e: Edge) {
    && e in g.edges && e.src in Ids(g.nodes) && GoesOn(ImplOf(g.nodes, e.src), x)
    && (e.branch && e.cond.Some? ==> Eval(e.cond.value, x))
  }

  predicate Joined(g: Graph, x: Case, a: NodeId, b: NodeId) {
    exists e :: e in g.edges && Followed(g, x, e) && e.src == a && e.dst == b
  }

  ghost predicate Travels(g: Graph, x: Case, p: seq<NodeId>)
    requires |Starts(g)| == 1
  {
    p != [] && p[0] == Start(g) && forall i :: 0 <= i < |p| - 1 ==> Joined(g, x, p[i], p[i + 1])
  }

  ghost predicate TravelsTo(g: Graph, x: Case, id: NodeId)
    requires |Starts(g)| == 1
  {
    exists p :: Travels(g, x, p) && p[|p| - 1] == id
  }

  lemma FollowedIsStep(g: Graph, x: Case, a: NodeId, b: NodeId)
    ensures (a, b) in Steps(g, x) <==> Joined(g, x, a, b)
  {
    forall i: Impl ensures GoesOn(i, x) == Passes(i, x) {}
    if (a, b) in Steps(g, x) {
      var e :| e in g.edges && e.src == a && e.dst == b && e.src in Ids(g.nodes)
        && Passes(ImplOf(g.nodes, e.src), x) && Enabled(e, x);
      assert Followed(g, x, e);
    }
  }

  lemma {:induction false} TravelStays(g: Graph, x: Case, p: seq<NodeId>)
    requires ValidDag(g) && Travels(g, x, p)
    ensures p[|p| - 1] in Reached(g, x)
    decreases |p|
  {
    hide Joined, Reached, ValidDag;
    ReachedShape(g, x);
    if |p| > 1 {
      var n := |p| - 1;
      assert Joined(g, x, p[n - 1], p[n]);
      TravelStays(g, x, p[..n]);
      FollowedIsStep(g, x, p[n - 1], p[n]);
    }
  }

  lemma TravelGrows(g: Graph, x: Case, a: NodeId, b: NodeId)
    requires |Starts(g)| == 1 && TravelsTo(g, x, a) && (a, b) in Steps(g, x)
    ensures TravelsTo(g, x, b)
  {
    FollowedIsStep(g, x, a, b);
    hide Joined, Steps;
    var p :| Travels(g, x, p) && p[|p| - 1] == a;
    var q := p + [b];
    forall i | 0 <= i < |q| - 1 ensures Joined(g, x, q[i], q[i + 1]) {
      if i < |p| - 1 { assert Joined(g, x, p[i], p[i + 1]); }
    }
    assert Travels(g, x, q) && q[|q| - 1] == b;
  }

  /** A run visits a node exactly when a path of followed edges leads to it from
      the start. */
  lemma ReachedMeans(g: Graph, x: Case, id: NodeId)
    requires ValidDag(g)
    ensures id in Reached(g, x) <==> TravelsTo(g, x, id)
  {
    if TravelsTo(g, x, id) {
      var p :| Travels(g, x, p) && p[|p| - 1] == id;
      TravelStays(g, x, p);
    }
    hide Reached;
    ReachedShape(g, x);
    var s := set k | k in Reached(g, x) && TravelsTo(g, x, k);
    assert Travels(g, x, [Start(g)]);
    assert TravelsTo(g, x, Start(g));
    forall q | q in Steps(g, x) && q.0 in s ensures q.1 in s {
      TravelGrows(g, x, q.0, q.1);
    }
    LeastReached(g, x, s);
  }

  /** From a deadline gate whose comparison holds the run goes on to every
      successor it is joined to unconditionally; from one whose field is missing
      or whose comparison fails it goes nowhere. */
  lemma DeadlineGate(g: Graph, x: Case, e: Edge)
    requires ValidDag(g) && e in g.edges && e.src in Reached(g, x)
    requires e.src in Ids(g.nodes) && ImplOf(g.nodes, e.src).Deadline?
    ensures var i := ImplOf(g.nodes, e.src);
      && (i.field in x && Compare(i.op, x[i.field], i.want) && (e.branch ==> e.cond.None?) ==> e.dst in Reached(g, x))
      && (i.field !in x || !Compare(i.op, x[i.field], i.want) ==>
            forall p, k :: Travels(g, x, p) && 0 <= k < |p| - 1 ==> p[k] != e.src)
  {
    ReachedShape(g, x);
    FollowedIsStep(g, x, e.src, e.dst);
    var i := ImplOf(g.nodes, e.src);
    if i.field in x && Compare(i.op, x[i.field], i.want) && (e.branch ==> e.cond.None?) {
      assert Followed(g, x, e);
    }
    if i.field !in x || !Compare(i.op, x[i.field], i.want) {
      forall p, k | Travels(g, x, p) && 0 <= k < |p| - 1 ensures p[k] != e.src {
        assert Joined(g, x, p[k], p[k + 1]);
      }
    }
  }

  // ---- The verdicts ------------------------------------------------------------------------

  ghost predicate ReachesGate(g: Graph, x: Case, id: NodeId) {
    id in Reached(g, x) && id in Ids(g.nodes)
  }

  // A gate of the kind is reached and stops the run.
  lemma StoppedBy(g: Graph, x: Case, k: Stop)
    ensures Stopped(g.nodes, x, Reached(g, x), k) <==>
      exists id :: ReachesGate(g, x, id) && StopsBy(k, ImplOf(g.nodes, id), x)
  {
    hide Reached, StopsBy;
    if Stopped(g.nodes, x, Reached(g, x), k) {
      var id :| id in Reached(g, x) && id in Ids(g.nodes) && StopsBy(k, ImplOf(g.nodes, id), x);
      assert ReachesGate(g, x, id);
    }
  }

  /** Eligible: every threshold gate reached is met. */
  lemma EligibleMeans(g: Graph, x: Case)
    requires ValidDag(g)
    ensures RunOf(g, x).eligible <==>
      forall id :: ReachesGate(g, x, id) && ImplOf(g.nodes, id).Threshold? ==> Met(ImplOf(g.nodes, id), x)
  {
    RunFlags(g, x);
    StoppedBy(g, x, Rejects);
    hide RunOf, Reached, ImplOf, ReachesGate;
  }

  /** On time: every deadline gate reached has its field in the case and is met. */
  lemma OnTimeMeans(g: Graph, x: Case)
    requires ValidDag(g)
    ensures RunOf(g, x).onTime <==>
      forall id :: ReachesGate(g, x, id) && ImplOf(g.nodes, id).Deadline? ==> Met(ImplOf(g.nodes, id), x)
  {
    RunFlags(g, x);
    StoppedBy(g, x, Late);
    hide RunOf, Reached, ImplOf, ReachesGate;
  }

  /** Prohibited: some prohibition gate reached has a comparison that holds. */
  lemma ProhibitedMeans(g: Graph, x: Case)
    requires ValidDag(g)
    ensures RunOf(g, x).prohibited <==>
      exists id :: ReachesGate(g, x, id) && ImplOf(g.nodes, id).Prohibition? && Met(ImplOf(g.nodes, id), x)
  {
    RunFlags(g, x);
    StoppedBy(g, x, Blocks);
    hide RunOf, Reached, ImplOf, ReachesGate;
  }

  /** Stopped early: exactly when one of the three verdicts is against the case. */
  lemma StoppedMeans(g: Graph, x: Case)
    requires ValidDag(g)
    ensures var r := RunOf(g, x); r.stopped <==> !r.eligible || !r.onTime || r.prohibited
  {
    RunFlags(g, x);
    hide RunOf;
    forall i: Impl
      ensures StopsBy(AnyStop, i, x) <==> StopsBy(Rejects, i, x) || StopsBy(Late, i, x) || StopsBy(Blocks, i, x)
    {}
    hide StopsBy;
  }

  // The form's flag is set and its condition, if it has one, holds.
  predicate Wanted(i: Impl, x: Case)
    requires i.Form?
  {
    i.required && (i.cond.Some? ==> Eval(i.cond.value, x))
  }

  /** A form reached, the only one of its action, is asked for exactly when its
      flag is set and its condition holds; an action has an entry only through a
      form reached. */
  lemma RequiredMeans(g: Graph, x: Case, a: Action)
    requires ValidDag(g) && OneFormEach(g.nodes)
    ensures a in RunOf(g, x).required <==> exists id :: FormFor(g.nodes, Reached(g, x), id, a)
    ensures forall id :: FormFor(g.nodes, Reached(g, x), id, a) ==>
      (RunOf(g, x).required[a] <==> Wanted(ImplOf(g.nodes, id), x))
  {
    RunRequired(g, x);
    hide RunOf;
    forall id | FormFor(g.nodes, Reached(g, x), id, a)
      ensures RunOf(g, x).required[a] <==> Wanted(ImplOf(g.nodes, id), x)
    {
      var k :| FormFor(g.nodes, Reached(g, x), k, a) && RunOf(g, x).required[a] == Needs(ImplOf(g.nodes, k), x);
      assert FormFor(g.nodes, Ids(g.nodes), k, a) && FormFor(g.nodes, Ids(g.nodes), id, a);
    }
  }

  // The case takes the step: it gets there, and the step is not a form with a
  // condition on which it is not asked for.
  ghost predicate Takes(g: Graph, x: Case, id: NodeId) {
    && id in Reached(g, x) && id in Ids(g.nodes)
    && (ImplOf(g.nodes, id).Form? && ImplOf(g.nodes, id).cond.Some? ==> Wanted(ImplOf(g.nodes, id), x))
  }

  /** The path lists each step taken once, and nothing else. */
  lemma PathMeans(g: Graph, x: Case, id: NodeId)
    requires ValidDag(g)
    ensures NoDup(RunOf(g, x).path) && (id in RunOf(g, x).path <==> Takes(g, x, id))
  {
    RunFaithful(g, x);
  }

  // ---- The order -----------------------------------------------------------------------------

  // The rule's second token was found: so was its first, sorted no later, and
  // whoever takes the second step takes the first.
  ghost predicate InOrder(g: Graph, x: Case, c: Constraint) {
    c.after.Some? ==>
      && c.before.Some?
      && (c.before.value in KahnOrder(g) && c.after.value in KahnOrder(g) ==>
            IndexOf(KahnOrder(g), c.before.value) <= IndexOf(KahnOrder(g), c.after.value))
      && (Takes(g, x, c.after.value) ==> Takes(g, x, c.before.value))
  }

  /** The order verdict, rule by rule. */
  lemma OrderMeans(g: Graph, x: Case, cs: seq<Constraint>)
    requires ValidDag(g) && Resolved(g, cs)
    ensures OutcomeOf(g, x, cs).run == RunOf(g, x)
    ensures OutcomeOf(g, x, cs).orderOk <==> forall c :: c in cs ==> InOrder(g, x, c)
  {
    hide RunOf, KahnOrder;
    SortedIds(g);
    forall id { PathMeans(g, x, id); }
    forall c | c in cs ensures Respects(KahnOrder(g), RunOf(g, x).path, c) <==> InOrder(g, x, c) {
      forall o: Option<NodeId> | o == c.before || o == c.after
        ensures o.Some? ==> o.value in KahnOrder(g)
      {
        assert o.Some? ==> o.value in Elems(KahnOrder(g));
      }
    }
  }

  // A node that leads to another is sorted before it.
  lemma LeadsSorted(g: Graph, u: NodeId, v: NodeId)
    requires ValidDag(g) && Reaches(g.edges, u, v) && u != v
    ensures u in KahnOrder(g) && v in KahnOrder(g) && IndexOf(KahnOrder(g), u) < IndexOf(KahnOrder(g), v)
  {
    LiveAll(Ids(g.nodes), g.edges);
    SortedIds(g);
    ForwardRanked(g, KahnOrder(g));
    RankedReaches(g.edges, RankBy(KahnOrder(g)), u, v);
  }

  /** A prerequisite that its target leads to breaks the rule on every case, whatever
      the run does. */
  lemma BackwardsNeverKept(g: Graph, x: Case, cs: seq<Constraint>, a: NodeId, b: NodeId)
    requires ValidDag(g) && Resolved(g, cs) && Constraint(Some(a), Some(b)) in cs
    requires Reaches(g.edges, b, a) && a != b
    ensures !OutcomeOf(g, x, cs).orderOk
  {
    hide OutcomeOf;
    OrderMeans(g, x, cs);
    LeadsSorted(g, b, a);
    assert !InOrder(g, x, Constraint(Some(a), Some(b)));
  }
}
