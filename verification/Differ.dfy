/** Comparing what the policy expects with what the procedure does
    (services/semantic_diff/differ.py). */
module Differ {
  import opened Wrappers
  import opened Graphs
  import opened Compiler
  import opened Interpreter

  datatype Kind =
    | WrongRejection | WrongAcceptance | DeadlineMismatch | ProhibitionBreach
    | WrongJourney | UnnecessaryBurden | MissingSafeguard

  datatype Key = EligibleKey | OnTimeKey | RuleKey(rule: RuleId) | OrderKey | ActionKey(action: Action)

  datatype Disagreement = Disagreement(kind: Kind, key: Key)

  // A missing entry counts as not required.
  predicate Asks(req: map<Action, bool>, a: Action) { a in req && req[a] }

  function Differing(e: map<Action, bool>, r: map<Action, bool>): set<Action> {
    set a | a in e.Keys + r.Keys && Asks(e, a) != Asks(r, a)
  }

  // The first action in sorted order.
  function Smallest(s: set<Action>): (m: Action)
    requires s != {}
    ensures m in s && forall a :: a in s ==> m <= a
  {
    SmallestExists(s);
    var m :| m in s && forall a :: a in s ==> m <= a;
    m
  }

  lemma SmallestExists(s: set<Action>)
    requires s != {}
    ensures exists m :: m in s && forall a :: a in s ==> m <= a
  {
    var m := FindSmallest(s);
  }

  lemma {:induction false} FindSmallest(s: set<Action>) returns (m: Action)
    requires s != {}
    ensures m in s && forall a :: a in s ==> m <= a
    decreases |s|
  {
    m :| m in s;
    if s != {m} {
      var r := FindSmallest(s - {m});
      forall a | a in s && a != m ensures r <= a { assert a in s - {m}; }
      m := if r < m then r else m;
    }
  }

  // The policy side's order_ok is always true.
  function Classify(e: Expected, a: Outcome): Option<Disagreement> {
    if e.eligible != a.run.eligible then
      Some(Disagreement(if e.eligible then WrongRejection else WrongAcceptance, EligibleKey))
    else if e.onTime != a.run.onTime then
      Some(Disagreement(DeadlineMismatch, OnTimeKey))
    else if e.violated != [] && !a.run.prohibited && (e.eligible || a.run.eligible) then
      Some(Disagreement(ProhibitionBreach, RuleKey(e.violated[0])))
    else if !e.eligible && !a.run.eligible then
      if !a.orderOk then Some(Disagreement(WrongJourney, OrderKey)) else None
    else
      var d := Differing(e.required, a.run.required);
      if d != {} then
        var k := Smallest(d);
        Some(Disagreement(if Asks(a.run.required, k) then UnnecessaryBurden else MissingSafeguard, ActionKey(k)))
      else if !a.orderOk then Some(Disagreement(WrongJourney, OrderKey))
      else None
  }

  /** No disagreement is reported exactly when the verdicts agree, the order is
      kept, and for an eligible case a violated prohibition blocks and every
      action is asked for by both sides or by neither. */
  lemma AgreementMeans(e: Expected, a: Outcome)
    ensures Classify(e, a) == None <==>
      && e.eligible == a.run.eligible && e.onTime == a.run.onTime && a.orderOk
      && (e.eligible ==> (e.violated != [] ==> a.run.prohibited)
                         && forall k :: Asks(e.required, k) == Asks(a.run.required, k))
  {
    var d := Differing(e.required, a.run.required);
    if d == {} {
      forall k ensures Asks(e.required, k) == Asks(a.run.required, k) {
        assert k !in d;
      }
    }
  }

  // Both verdicts agree and no violated prohibition goes unblocked.
  predicate VerdictsAgree(e: Expected, a: Outcome) {
    e.eligible == a.run.eligible && e.onTime == a.run.onTime
    && (e.eligible && e.violated != [] ==> a.run.prohibited)
  }

  // k is the first action that one side asks for and the other does not.
  ghost predicate FirstDiffering(e: Expected, a: Outcome, k: Action) {
    Asks(e.required, k) != Asks(a.run.required, k)
    && forall j: Action :: j < k ==> Asks(e.required, j) == Asks(a.run.required, j)
  }

  lemma DifferingMeans(e: map<Action, bool>, r: map<Action, bool>, k: Action)
    ensures k in Differing(e, r) <==> Asks(e, k) != Asks(r, k)
  {
  }

  /** Each kind of disagreement is reported in exactly the situation it names. */
  lemma KindMeans(e: Expected, a: Outcome, k: Action, r: RuleId)
    ensures var c := Classify(e, a);
      && (c == Some(Disagreement(WrongRejection, EligibleKey)) <==> e.eligible && !a.run.eligible)
      && (c == Some(Disagreement(WrongAcceptance, EligibleKey)) <==> !e.eligible && a.run.eligible)
      && (c == Some(Disagreement(DeadlineMismatch, OnTimeKey)) <==>
        e.eligible == a.run.eligible && e.onTime != a.run.onTime)
      && (c == Some(Disagreement(ProhibitionBreach, RuleKey(r))) <==>
            e.eligible && a.run.eligible && e.onTime == a.run.onTime && !a.run.prohibited && [r] <= e.violated)
      && (c == Some(Disagreement(MissingSafeguard, ActionKey(k))) <==>
            VerdictsAgree(e, a) && e.eligible && FirstDiffering(e, a, k) && Asks(e.required, k))
      && (c == Some(Disagreement(UnnecessaryBurden, ActionKey(k))) <==>
            VerdictsAgree(e, a) && e.eligible && FirstDiffering(e, a, k) && Asks(a.run.required, k))
      && (c == Some(Disagreement(WrongJourney, OrderKey)) <==>
            VerdictsAgree(e, a) && !a.orderOk
            && (e.eligible ==> forall j: Action :: Asks(e.required, j) == Asks(a.run.required, j)))
  {
    var d := Differing(e.required, a.run.required);
    forall j: Action ensures j in d <==> Asks(e.required, j) != Asks(a.run.required, j) {
      DifferingMeans(e.required, a.run.required, j);
    }
    hide Differing, Asks;
    assert [r] <= e.violated <==> e.violated != [] && e.violated[0] == r;
    if d != {} {
      var s := Smallest(d);
      assert FirstDiffering(e, a, k) <==> k == s;
    }
  }
}
