/** What a compiled policy expects of a case, said of the rules themselves
    (services/compiler/compiler.py, lines 86-168). */
module Policy {
  import opened Expr
  import opened Graphs
  import opened Compiler

  // What is expected of a case under the compiled rules.
  function Expects(rs: seq<Rule>, x: Case): Expected { EvaluateExpected(ModelOf(rs), x) }

  /** A case is eligible exactly when it meets every active threshold rule. */
  lemma EligibleMeans(rs: seq<Rule>, x: Case)
    ensures Expects(rs, x).eligible <==> forall r :: r in rs && r.ThresholdRule? && r.active ==> Eval(r.bound, x)
  {
    ModelExactly(rs);
    forall r | r in rs && r.ThresholdRule? && r.active ensures Criterion(r.bound, r.id) in ModelOf(rs).eligibility {
      assert r == ThresholdRule(r.id, true, r.bound);
    }
  }

  /** It is on time exactly when it has the field of every active deadline rule,
      with a value that meets the rule's comparison. */
  lemma OnTimeMeans(rs: seq<Rule>, x: Case)
    ensures Expects(rs, x).onTime <==>
      forall r :: r in rs && r.DeadlineRule? && r.active ==> r.field in x && Compare(r.op, x[r.field], r.want)
  {
    ModelExactly(rs);
    forall r | r in rs && r.DeadlineRule? && r.active
      ensures Due(r.field, r.op, r.want, r.id) in ModelOf(rs).deadlines
    {
      assert r == DeadlineRule(r.id, true, r.field, r.op, r.want);
    }
  }

  predicate Breached(r: Rule, x: Case) { r.ProhibitionRule? && r.active && (r.when.Some? ==> Eval(r.when.value, x)) }

  /** The prohibitions reported are the breached ones, each once, in rule order:
      `at` gives their places in the list of rules. */
  lemma {:induction false} BreachesMeans(rs: seq<Rule>, x: Case) returns (at: seq<nat>)
    ensures |at| == |Expects(rs, x).violated|
    ensures forall k :: 0 <= k < |at| ==>
      at[k] < |rs| && Breached(rs[at[k]], x) && rs[at[k]].id == Expects(rs, x).violated[k]
    ensures forall j, k :: 0 <= j < k < |at| ==> at[j] < at[k]
    ensures forall i :: 0 <= i < |rs| && Breached(rs[i], x) ==> i in at
    decreases |rs|
  {
    at := [];
    if rs != [] {
      var n := |rs| - 1;
      at := BreachesMeans(rs[..n], x);
      BansGrow(rs, x);
      if Breached(rs[n], x) {
        at := at + [n];
      }
    }
  }

  lemma BansGrow(rs: seq<Rule>, x: Case)
    requires rs != []
    ensures var n := |rs| - 1;
      Expects(rs, x).violated == Expects(rs[..n], x).violated + if Breached(rs[n], x) then [rs[n].id] else []
  {
    var n := |rs| - 1;
    var ps, r := ModelOf(rs[..n]).prohibitions, rs[n];
    if r.ProhibitionRule? && r.active {
      assert (ps + [Ban(r.when, r.id)])[..|ps|] == ps;
    } else {
      assert ModelOf(rs).prohibitions == ps;
    }
  }

  // The rule sets the obligation of an action.
  predicate Obliges(r: Rule, a: Action) {
    r.active && (r.ObligationRule? || (r.ConditionalRule? && r.when.Some?)) && r.act == a
  }

  predicate Excuses(r: Rule, a: Action, x: Case) {
    r.active && r.ExceptionRule? && (r.excused.Some? ==> r.excused.value == a)
    && (r.when.Some? ==> Eval(r.when.value, x))
  }

  /** An action is asked for exactly when the last active rule that obliges to it
      has no condition or a condition that holds, and no active exception made for
      it, or for every action, applies; it has an entry exactly when some active
      rule obliges to it. */
  lemma RequiredMeans(rs: seq<Rule>, x: Case, a: Action)
    ensures a in Expects(rs, x).required <==> exists r :: r in rs && Obliges(r, a)
    ensures forall i :: 0 <= i < |rs| && Obliges(rs[i], a) && (forall j :: i < j < |rs| ==> !Obliges(rs[j], a)) ==>
      (Expects(rs, x).required[a] <==>
       (rs[i].ConditionalRule? ==> Eval(rs[i].when.value, x)) && !exists e :: e in rs && Excuses(e, a, x))
  {
    forall r: Rule ensures Sets(r, a) == Obliges(r, a) {}
    var i := ObligationsExactly(rs, a);
    ExcusedMeans(rs, x, a);
    if i != -1 {
      assert Obliges(rs[i], a) && rs[i] in rs;
    }
  }

  lemma ExcusedMeans(rs: seq<Rule>, x: Case, a: Action)
    ensures Waived(ModelOf(rs).exceptions, a, x) <==> exists e :: e in rs && Excuses(e, a, x)
  {
    ModelExactly(rs);
    var es := ModelOf(rs).exceptions;
    if Waived(es, a, x) {
      var e :| e in es && Applies(e, a) && Holds(e.cond, x);
      assert Excuses(ExceptionRule(e.rule, true, e.action, e.cond), a, x);
    }
    if r :| r in rs && Excuses(r, a, x) {
      assert r == ExceptionRule(r.id, true, r.excused, r.when);
      assert Waiver(r.excused, r.when, r.id) in es;
    }
  }
}
