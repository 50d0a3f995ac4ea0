/** From policy rules to a constraint model, and what the model expects of a
    case (services/compiler/compiler.py). */
module Compiler {
  import opened Wrappers
  import opened Expr
  import opened Graphs

  type RuleId = nat

  datatype Mode = AlwaysTrue | AlwaysFalse | Conditional(cond: Cond)

  datatype Obligation = Obligation(mode: Mode, rule: RuleId)

  datatype Criterion = Criterion(cond: Cond, rule: RuleId)

  // No action means every action (the source writes "*" or null).
  datatype Waiver = Waiver(action: Option<Action>, cond: Option<Cond>, rule: RuleId)

  datatype Ban = Ban(cond: Option<Cond>, rule: RuleId)

  datatype Due = Due(field: Field, op: Op, want: Operand, rule: RuleId)

  // Node tokens, resolved to ids only when a procedure is run or patched.
  type Token = nat

  datatype Prior = Prior(before: Option<Token>, after: Option<Token>, rule: RuleId)

  datatype Model = Model(
    eligibility: seq<Criterion>,
    obligations: map<Action, Obligation>,
    exceptions: seq<Waiver>,
    prohibitions: seq<Ban>,
    deadlines: seq<Due>,
    ordering: seq<Prior>)

  datatype Expected = Expected(eligible: bool, required: map<Action, bool>, onTime: bool, violated: seq<RuleId>)

  // ---- What the model expects ----------------------------------------------------

  predicate Applies(e: Waiver, action: Action) { e.action == None || e.action == Some(action) }

  predicate Needed(m: Mode, x: Case) { m == AlwaysTrue || (m.Conditional? && Eval(m.cond, x)) }

  predicate Waived(es: seq<Waiver>, action: Action, x: Case) {
    exists e :: e in es && Applies(e, action) && Holds(e.cond, x)
  }

  predicate RequiredFor(o: Obligation, es: seq<Waiver>, action: Action, x: Case) {
    Needed(o.mode, x) && !Waived(es, action, x)
  }

  function Violated(ps: seq<Ban>, x: Case): seq<RuleId> {
    if ps == [] then [] else
      Violated(ps[..|ps| - 1], x) + if Holds(ps[|ps| - 1].cond, x) then [ps[|ps| - 1].rule] else []
  }

  predicate Eligible(m: Model, x: Case) { forall c :: c in m.eligibility ==> Eval(c.cond, x) }

  predicate OnTime(m: Model, x: Case) {
    forall d :: d in m.deadlines ==> Eval(Cmp(d.field, d.op, d.want), x)
  }

  function EvaluateExpected(m: Model, x: Case): Expected {
    Expected(Eligible(m, x),
             map a | a in m.obligations :: RequiredFor(m.obligations[a], m.exceptions, a, x),
             OnTime(m, x),
             Violated(m.prohibitions, x))
  }

  // ---- Rules -----------------------------------------------------------------------

  datatype Rule =
    | ThresholdRule(id: RuleId, active: bool, bound: Cond)
    | ObligationRule(id: RuleId, active: bool, act: Action)
    | ConditionalRule(id: RuleId, active: bool, act: Action, when: Option<Cond>)
    | ExceptionRule(id: RuleId, active: bool, excused: Option<Action>, when: Option<Cond>)
    | ProhibitionRule(id: RuleId, active: bool, when: Option<Cond>)
    | PrerequisiteRule(id: RuleId, active: bool, before: Option<Token>, after: Option<Token>)
    | DeadlineRule(id: RuleId, active: bool, field: Field, op: Op, want: Operand)

  datatype CompileError = Conflict(field: Field) | Uncompilable(rule: RuleId)

  const EMPTY_MODEL := Model([], map[], [], [], [], [])

  function AddRule(m: Model, r: Rule): Model {
    if !r.active then m else
    match r
    case ThresholdRule(id, _, c) => m.(eligibility := m.eligibility + [Criterion(c, id)])
    case ObligationRule(id, _, a) => m.(obligations := m.obligations[a := Obligation(AlwaysTrue, id)])
    case ConditionalRule(id, _, a, when) =>
      if when.Some? then m.(obligations := m.obligations[a := Obligation(Conditional(when.value), id)]) else m
    case ExceptionRule(id, _, a, when) => m.(exceptions := m.exceptions + [Waiver(a, when, id)])
    case ProhibitionRule(id, _, when) => m.(prohibitions := m.prohibitions + [Ban(when, id)])
    case PrerequisiteRule(id, _, a, b) => m.(ordering := m.ordering + [Prior(a, b, id)])
    case DeadlineRule(id, _, f, op, w) => m.(deadlines := m.deadlines + [Due(f, op, w, id)])
  }

  function ModelOf(rs: seq<Rule>): Model {
    if rs == [] then EMPTY_MODEL else AddRule(ModelOf(rs[..|rs| - 1]), rs[|rs| - 1])
  }

  // ---- The interval check of one field ----------------------------------------------

  predicate IsLower(c: Cond) { c.Cmp? && (c.op == Gt || c.op == Ge) }

  predicate IsUpper(c: Cond) { c.Cmp? && (c.op == Lt || c.op == Le) }

  datatype Domain = Domain(
    lo: Option<real>, loInc: bool, hi: Option<real>, hiInc: bool,
    eq: Option<Operand>, clash: bool, allowed: Option<set<real>>)

  const EVERYTHING := Domain(None, true, None, true, None, false, None)

  function Narrow(d: Domain, op: Op, want: Operand): Domain {
    match op
    case In =>
      var vals := set v | v in Members(want);
      d.(allowed := Some(if d.allowed.Some? then d.allowed.value * vals else vals))
    case NotIn => d
    case Ne => d
    case Eq =>
      if d.eq.None? then d.(eq := Some(want)) else d.(clash := d.clash || d.eq.value != want)
    case Gt =>
      if want.One? && (d.lo.None? || want.v > d.lo.value || (want.v == d.lo.value && d.loInc))
      then d.(lo := Some(want.v), loInc := false) else d
    case Ge =>
      if want.One? && (d.lo.None? || want.v > d.lo.value || (want.v == d.lo.value && !d.loInc))
      then d.(lo := Some(want.v), loInc := true) else d
    case Lt =>
      if want.One? && (d.hi.None? || want.v < d.hi.value || (want.v == d.hi.value && d.hiInc))
      then d.(hi := Some(want.v), hiInc := false) else d
    case Le =>
      if want.One? && (d.hi.None? || want.v < d.hi.value || (want.v == d.hi.value && !d.hiInc))
      then d.(hi := Some(want.v), hiInc := true) else d
  }

  function DomainOf(cs: seq<Cond>): Domain {
    if cs == [] then EVERYTHING else
      var d, last := DomainOf(cs[..|cs| - 1]), cs[|cs| - 1];
      if last.Cmp? then Narrow(d, last.op, last.want) else d
  }

  predicate Above(d: Domain, v: real) { d.lo.None? || v > d.lo.value || (v == d.lo.value && d.loInc) }

  predicate Below(d: Domain, v: real) { d.hi.None? || v < d.hi.value || (v == d.hi.value && d.hiInc) }

  predicate Inhabited(d: Domain) {
    if d.clash then false
    else if d.eq.Some? then
      // A list is not a number: the bounds are not looked at.
      d.eq.value.One? ==>
        && Above(d, d.eq.value.v) && Below(d, d.eq.value.v)
        && (d.allowed.Some? ==> d.eq.value.v in d.allowed.value)
    else
      !(d.lo.Some? && d.hi.Some? &&
        (d.lo.value > d.hi.value || (d.lo.value == d.hi.value && !(d.loInc && d.hiInc)))) &&
      (d.allowed.Some? ==> d.allowed.value != {})
  }

  method ThresholdDomain(cs: seq<Cond>) returns (ok: bool)
    ensures ok == Inhabited(DomainOf(cs))
  {
    var d := EVERYTHING;
    for i := 0 to |cs|
      invariant d == DomainOf(cs[..i])
    {
      assert cs[..i + 1][..i] == cs[..i];
      if cs[i].Cmp? {
        d := Narrow(d, cs[i].op, cs[i].want);
      }
    }
    assert cs[..|cs|] == cs;
    ok := Inhabited(d);
  }

  // ---- Exactness ---------------------------------------------------------------------

  // Anything but an order comparison with a list, which the check skips.
  predicate Readable(c: Cond) { c.Cmp? && (c.want.One? || !(IsLower(c) || IsUpper(c))) }

  // An order comparison, equality or inequality with one number.
  predicate OneNumber(c: Cond) { c.Cmp? && c.want.One? && c.op != In && c.op != NotIn }

  ghost predicate OneLower(cs: seq<Cond>) {
    forall c, d :: c in cs && d in cs && IsLower(c) && IsLower(d) ==> c.op == d.op && c.want == d.want
  }

  ghost predicate OneUpper(cs: seq<Cond>) {
    forall c, d :: c in cs && d in cs && IsUpper(c) && IsUpper(d) ==> c.op == d.op && c.want == d.want
  }

  ghost predicate Satisfies(cs: seq<Cond>, v: real) {
    forall c :: c in cs && c.Cmp? ==> Compare(c.op, v, c.want)
  }

  ghost predicate Satisfiable(cs: seq<Cond>) { exists v :: Satisfies(cs, v) }

  // Every value that meets the conditions is within the accumulated state.
  predicate Within(d: Domain, v: real) {
    && !d.clash && Above(d, v) && Below(d, v)
    && (d.eq.Some? ==> d.eq.value == One(v)) && (d.allowed.Some? ==> v in d.allowed.value)
  }

  lemma NarrowKeeps(d: Domain, c: Cond, v: real)
    requires Readable(c) && Within(d, v) && Compare(c.op, v, c.want)
    ensures Within(Narrow(d, c.op, c.want), v)
  {
  }

  lemma {:induction false} SatisfiedWithin(cs: seq<Cond>, v: real)
    requires (forall c :: c in cs ==> Readable(c)) && Satisfies(cs, v)
    ensures Within(DomainOf(cs), v)
    decreases |cs|
  {
    if cs != [] {
      var front, last := cs[..|cs| - 1], cs[|cs| - 1];
      assert cs == front + [last];
      SatisfiedWithin(front, v);
      NarrowKeeps(DomainOf(front), last, v);
    }
  }

  // The accumulated bounds are at least as tight as each bound read.
  ghost predicate Tightest(cs: seq<Cond>, d: Domain) {
    forall c :: c in cs ==> BoundedBy(c, d)
  }

  predicate BoundedBy(c: Cond, d: Domain) {
    && Readable(c)
    && (IsLower(c) ==> d.lo.Some? && c.want.One? && c.want.v <= d.lo.value)
    && (IsUpper(c) ==> d.hi.Some? && c.want.One? && d.hi.value <= c.want.v)
    && (c.op == Eq ==> d.eq.Some?) && (c.op == In ==> d.allowed.Some?)
  }

  lemma NarrowBounds(d: Domain, c: Cond)
    requires Readable(c)
    ensures BoundedBy(c, Narrow(d, c.op, c.want))
  {
  }

  lemma NarrowTightens(d: Domain, b: Cond, c: Cond)
    requires Readable(c) && BoundedBy(b, d)
    ensures BoundedBy(b, Narrow(d, c.op, c.want))
  {
  }

  lemma {:induction false} DomainTightest(cs: seq<Cond>)
    requires forall c :: c in cs ==> Readable(c)
    ensures Tightest(cs, DomainOf(cs))
    decreases |cs|
  {
    if cs != [] {
      var front, last := cs[..|cs| - 1], cs[|cs| - 1];
      assert cs == front + [last];
      DomainTightest(front);
      NarrowBounds(DomainOf(front), last);
      forall c | c in front ensures BoundedBy(c, DomainOf(cs)) { NarrowTightens(DomainOf(front), c, last); }
    }
  }

  // The state leaves only finitely many values, and which.
  predicate Pinned(d: Domain) { d.eq.Some? || d.allowed.Some? || (d.lo.Some? && d.lo == d.hi) }

  predicate Candidate(d: Domain, v: real) {
    if d.eq.Some? then d.eq.value == One(v)
    else if d.allowed.Some? then v in d.allowed.value
    else d.lo == Some(v)
  }

  ghost predicate Refused(cs: seq<Cond>, v: real) { exists c :: c in cs && c.Cmp? && !Compare(c.op, v, c.want) }

  // The check passes, but each of the finitely many values left fails a comparison.
  ghost predicate Slips(cs: seq<Cond>) {
    var d := DomainOf(cs);
    Inhabited(d) && Pinned(d) && forall v :: Candidate(d, v) ==> Refused(cs, v)
  }

  // A value between two numbers that avoids finitely many others.
  lemma {:induction false} Avoiding(lo: real, hi: real, bad: set<real>) returns (v: real)
    requires lo < hi
    ensures lo < v < hi && v !in bad
    decreases |bad|
  {
    if bad == {} {
      v := (lo + hi) / 2.0;
    } else {
      var b := Member(bad);
      v := Avoiding(lo, if lo < b < hi then b else hi, bad - {b});
    }
  }

  // The numbers that inequalities and exclusions rule out.
  function Excluded(cs: seq<Cond>): (r: set<real>)
    ensures forall c, v :: c in cs && c.Cmp? && (c.op == Ne || c.op == NotIn) && v in Members(c.want) ==> v in r
  {
    if cs == [] then {} else
      var front, last := cs[..|cs| - 1], cs[|cs| - 1];
      assert cs == front + [last];
      Excluded(front) + if last.Cmp? && (last.op == Ne || last.op == NotIn) then set v | v in Members(last.want) else {}
  }

  lemma UnpinnedMet(cs: seq<Cond>, d: Domain, v: real, c: Cond)
    requires Tightest(cs, d) && !Pinned(d) && c in cs && v !in Excluded(cs)
    requires (d.lo.Some? ==> d.lo.value < v) && (d.hi.Some? ==> v < d.hi.value)
    ensures Compare(c.op, v, c.want)
  {
    assert BoundedBy(c, d);
    if c.op == Ne && c.want.One? {
      assert c.want.v in Members(c.want);
    }
  }

  lemma UnpinnedSatisfiable(cs: seq<Cond>)
    requires (forall c :: c in cs ==> Readable(c)) && Inhabited(DomainOf(cs)) && !Pinned(DomainOf(cs))
    ensures Satisfiable(cs)
  {
    var d := DomainOf(cs);
    DomainTightest(cs);
    var lo := if d.lo.Some? then d.lo.value else if d.hi.Some? then d.hi.value - 1.0 else 0.0;
    var hi := if d.hi.Some? then d.hi.value else lo + 1.0;
    var v := Avoiding(lo, hi, Excluded(cs));
    forall c | c in cs ensures Compare(c.op, v, c.want) { UnpinnedMet(cs, d, v, c); }
    assert Satisfies(cs, v);
  }

  lemma WithinInhabited(d: Domain, v: real)
    requires Within(d, v)
    ensures Inhabited(d) && (Pinned(d) ==> Candidate(d, v))
  {
  }

  /** The interval check, on any list of readable comparisons and without its
      guard, is right exactly unless it passes a list that leaves only finitely
      many values, each refused by a comparison it has lost sight of. */
  lemma CheckErrsExactly(cs: seq<Cond>)
    requires forall c :: c in cs ==> Readable(c)
    ensures (Inhabited(DomainOf(cs)) <==> Satisfiable(cs)) <==> !Slips(cs)
    ensures Satisfiable(cs) ==> Inhabited(DomainOf(cs))
  {
    hide DomainOf, Inhabited, Within, Candidate, Compare, Pinned;
    var d := DomainOf(cs);
    forall v ensures Refused(cs, v) <==> !Satisfies(cs, v) {}
    forall v | Satisfies(cs, v) ensures Inhabited(d) && (Pinned(d) ==> Candidate(d, v)) {
      SatisfiedWithin(cs, v);
      WithinInhabited(d, v);
    }
    hide Satisfies, Refused;
    if v :| Satisfies(cs, v) {
      assert Inhabited(d) && !Refused(cs, v);
    } else if Inhabited(d) {
      if !Pinned(d) {
        UnpinnedSatisfiable(cs);
      }
      assert forall v :: Candidate(d, v) ==> Refused(cs, v);
    }
  }

  // The one value an equality or a closed interval of one point leaves.
  predicate Point(d: Domain, v: real) { d.eq == Some(One(v)) || (d.eq.None? && d.lo == d.hi == Some(v)) }

  lemma {:induction false} NoMembership(cs: seq<Cond>)
    requires forall c :: c in cs ==> OneNumber(c)
    ensures DomainOf(cs).allowed.None? && (DomainOf(cs).eq.Some? ==> DomainOf(cs).eq.value.One?)
    decreases |cs|
  {
    if cs != [] {
      var front, last := cs[..|cs| - 1], cs[|cs| - 1];
      assert cs == front + [last] && OneNumber(last);
      NoMembership(front);
    }
  }

  /** Without membership lists: exactly when the one value left fails a comparison. */
  lemma SlipsAtPoint(cs: seq<Cond>)
    requires forall c :: c in cs ==> OneNumber(c)
    ensures Slips(cs) <==>
      Inhabited(DomainOf(cs)) && exists v, c :: Point(DomainOf(cs), v) && c in cs && c.Cmp? && !Compare(c.op, v, c.want)
  {
    NoMembership(cs);
    OnePoint(cs, DomainOf(cs));
  }

  lemma OnePoint(cs: seq<Cond>, d: Domain)
    requires d.allowed.None? && (d.eq.Some? ==> d.eq.value.One?)
    ensures Pinned(d) && (forall v :: Candidate(d, v) ==> Refused(cs, v)) <==>
      exists v, c :: Point(d, v) && c in cs && c.Cmp? && !Compare(c.op, v, c.want)
  {
    if Pinned(d) {
      var v := if d.eq.Some? then d.eq.value.v else d.lo.value;
      assert Point(d, v) && forall w :: (Candidate(d, w) <==> w == v) && (Point(d, w) <==> w == v);
      hide Pinned, Candidate, Point;
      if c :| c in cs && c.Cmp? && !Compare(c.op, v, c.want) {
        assert Refused(cs, v);
      }
    } else {
      assert forall v :: !Point(d, v);
    }
  }

  // What each part of the accumulated state says about the conditions read.
  ghost predicate LowerRead(cs: seq<Cond>, d: Domain) {
    && (d.lo.Some? ==> exists c :: c in cs && IsLower(c))
    && (forall c :: c in cs && IsLower(c) ==> d.lo.Some? && c.want == One(d.lo.value) && d.loInc == (c.op == Ge))
  }

  ghost predicate UpperRead(cs: seq<Cond>, d: Domain) {
    && (d.hi.Some? ==> exists c :: c in cs && IsUpper(c))
    && (forall c :: c in cs && IsUpper(c) ==> d.hi.Some? && c.want == One(d.hi.value) && d.hiInc == (c.op == Le))
  }

  predicate IsEq(c: Cond) { c.Cmp? && c.op == Eq }

  ghost predicate EqRead(cs: seq<Cond>, d: Domain) {
    && (d.eq.Some? ==> exists c :: c in cs && IsEq(c) && c.want == d.eq.value)
    && (forall c :: c in cs && IsEq(c) ==> d.eq.Some? && (d.clash || c.want == d.eq.value))
    && (d.clash ==> exists c :: c in cs && IsEq(c) && d.eq.Some? && c.want != d.eq.value)
    && d.allowed.None?
  }

  lemma {:induction false} DomainReads(cs: seq<Cond>)
    requires forall c :: c in cs ==> OneNumber(c)
    requires OneLower(cs) && OneUpper(cs)
    ensures LowerRead(cs, DomainOf(cs)) && UpperRead(cs, DomainOf(cs)) && EqRead(cs, DomainOf(cs))
  {
    if cs != [] {
      var front, last := cs[..|cs| - 1], cs[|cs| - 1];
      assert cs == front + [last];
      assert last in cs && OneNumber(last);
      DomainReads(front);
      LowerStep(front, last, DomainOf(front));
      UpperStep(front, last, DomainOf(front));
      EqStep(front, last, DomainOf(front));
    }
  }

  lemma LowerStep(front: seq<Cond>, last: Cond, d: Domain)
    requires LowerRead(front, d) && OneNumber(last) && OneLower(front + [last])
    ensures LowerRead(front + [last], Narrow(d, last.op, last.want))
  {
    assert forall c :: c in front + [last] <==> c in front || c == last;
    if d.lo.Some? {
      var w :| w in front && IsLower(w);
      assert w in front + [last];
    }
  }

  lemma UpperStep(front: seq<Cond>, last: Cond, d: Domain)
    requires UpperRead(front, d) && OneNumber(last) && OneUpper(front + [last])
    ensures UpperRead(front + [last], Narrow(d, last.op, last.want))
  {
    assert forall c :: c in front + [last] <==> c in front || c == last;
    if d.hi.Some? {
      var w :| w in front && IsUpper(w);
      assert w in front + [last];
    }
  }

  lemma EqStep(front: seq<Cond>, last: Cond, d: Domain)
    requires EqRead(front, d) && OneNumber(last)
    ensures EqRead(front + [last], Narrow(d, last.op, last.want))
  {
    assert forall c :: c in front + [last] <==> c in front || c == last;
    if d.eq.Some? {
      var w :| w in front && IsEq(w) && w.want == d.eq.value;
      assert w in front + [last];
    }
  }

  // Behind the guard only an inequality can refuse the one value left.
  lemma PointMet(cs: seq<Cond>, v: real, c: Cond)
    requires (forall b :: b in cs ==> OneNumber(b)) && OneLower(cs) && OneUpper(cs)
    requires Inhabited(DomainOf(cs)) && Point(DomainOf(cs), v) && c in cs && c.Cmp? && c.op != Ne
    ensures Compare(c.op, v, c.want)
  {
    DomainReads(cs);
    var d := DomainOf(cs);
    hide DomainOf;
    assert OneNumber(c) && (c.op == Eq ==> IsEq(c));
  }

  /** Behind its guard (one lower and one upper bound per field) the check on
      numbers errs exactly when the one value left is one an inequality excludes;
      without inequalities it is exact. */
  lemma DomainExact(cs: seq<Cond>)
    requires forall c :: c in cs ==> OneNumber(c)
    requires OneLower(cs) && OneUpper(cs)
    ensures Slips(cs) <==> Inhabited(DomainOf(cs)) && exists v :: Point(DomainOf(cs), v) && Excludes(cs, v)
    ensures (forall c :: c in cs && c.Cmp? ==> c.op != Ne) ==> (Inhabited(DomainOf(cs)) <==> Satisfiable(cs))
  {
    SlipsAtPoint(cs);
    CheckErrsExactly(cs);
    hide DomainOf, Inhabited, Slips;
    if Inhabited(DomainOf(cs)) {
      forall v, c | Point(DomainOf(cs), v) && c in cs && c.Cmp? && c.op != Ne
        ensures Compare(c.op, v, c.want)
        { PointMet(cs, v, c); }
      forall v, c | Point(DomainOf(cs), v) && c in cs && c.Cmp? && !Compare(c.op, v, c.want) ensures Excludes(cs, v) {
        assert c == Cmp(c.field, Ne, One(v));
      }
    }
  }

  // Some inequality excludes v.
  ghost predicate Excludes(cs: seq<Cond>, v: real) { exists c :: c in cs && c.Cmp? && c.op == Ne && c.want == One(v) }

  // `> v`, then `>= v`, with an upper bound of v.
  lemma LooserBoundWins(a: Cond, b: Cond, c: Cond)
    requires a == Cmp(0, Gt, One(8.0)) && b == Cmp(0, Ge, One(8.0)) && c == Cmp(0, Le, One(8.0))
    ensures OneUpper([a, b, c]) && Inhabited(DomainOf([a, b, c])) && !Satisfiable([a, b, c])
  {
    assert [a, b, c][..2] == [a, b] && [a, b][..1] == [a] && [a][..0] == [];
    assert DomainOf([a]) == Narrow(EVERYTHING, Gt, One(8.0));
    assert DomainOf([a, b]) == Narrow(DomainOf([a]), Ge, One(8.0));
    assert DomainOf([a, b, c]) == Narrow(DomainOf([a, b]), Le, One(8.0));
    forall v ensures !Satisfies([a, b, c], v) {
      assert a in [a, b, c] && c in [a, b, c];
    }
  }

  // `< v`, then `<= v`, with a lower bound of v.
  lemma LooserUpperWins(a: Cond, b: Cond, c: Cond)
    requires a == Cmp(0, Lt, One(8.0)) && b == Cmp(0, Le, One(8.0)) && c == Cmp(0, Ge, One(8.0))
    ensures OneLower([a, b, c]) && Inhabited(DomainOf([a, b, c])) && !Satisfiable([a, b, c])
  {
    assert [a, b, c][..2] == [a, b] && [a, b][..1] == [a] && [a][..0] == [];
    assert DomainOf([a]) == Narrow(EVERYTHING, Lt, One(8.0));
    assert DomainOf([a, b]) == Narrow(DomainOf([a]), Le, One(8.0));
    assert DomainOf([a, b, c]) == Narrow(DomainOf([a, b]), Ge, One(8.0));
    forall v ensures !Satisfies([a, b, c], v) {
      assert a in [a, b, c] && c in [a, b, c];
    }
  }

  // `== v` and `!= v`.
  lemma UnequalIsNotRead(p: Cond, q: Cond)
    requires p == Cmp(0, Eq, One(8.0)) && q == Cmp(0, Ne, One(8.0))
    ensures OneLower([p, q]) && OneUpper([p, q]) && Inhabited(DomainOf([p, q])) && !Satisfiable([p, q])
  {
    assert [p, q][..1] == [p] && [p][..0] == [];
    assert DomainOf([p]) == Narrow(EVERYTHING, Eq, One(8.0));
    assert DomainOf([p, q]) == Narrow(DomainOf([p]), Ne, One(8.0));
    forall v ensures !Satisfies([p, q], v) {
      assert p in [p, q] && q in [p, q];
    }
  }

  // `IN {5}` and `>= 8`.
  lemma MembershipIsReadApart(p: Cond, q: Cond)
    requires p == Cmp(0, In, Many([5.0])) && q == Cmp(0, Ge, One(8.0))
    ensures OneLower([p, q]) && OneUpper([p, q]) && Inhabited(DomainOf([p, q])) && !Satisfiable([p, q])
  {
    assert [p, q][..1] == [p] && [p][..0] == [];
    assert 5.0 in Members(p.want);
    assert DomainOf([p]) == Narrow(EVERYTHING, In, p.want);
    assert DomainOf([p, q]) == Narrow(DomainOf([p]), Ge, One(8.0));
    assert 5.0 in DomainOf([p, q]).allowed.value;
    forall v ensures !Satisfies([p, q], v) {
      assert p in [p, q] && q in [p, q];
    }
  }

  /** Four lists the check passes although no number meets them: `> v` followed
      by `>= v` is read as `>= v`, and `< v` followed by `<= v` as `<= v`; behind the guard, `!=` is not read at all and
      membership is not held against the bounds. */
  lemma DomainNeedsGuard()
    ensures exists cs :: OneUpper(cs) && (forall c :: c in cs ==> OneNumber(c))
              && Inhabited(DomainOf(cs)) && !Satisfiable(cs)
    ensures exists cs :: OneLower(cs) && (forall c :: c in cs ==> OneNumber(c))
              && Inhabited(DomainOf(cs)) && !Satisfiable(cs)
    ensures exists cs :: OneLower(cs) && OneUpper(cs) && (forall c :: c in cs ==> OneNumber(c))
              && Inhabited(DomainOf(cs)) && !Satisfiable(cs)
    ensures exists cs :: OneLower(cs) && OneUpper(cs) && (exists c: Cond :: c in cs && c.Cmp? && c.op == In)
              && Inhabited(DomainOf(cs)) && !Satisfiable(cs)
  {
    hide DomainOf, Satisfies, Inhabited, Satisfiable, OneLower, OneUpper;
    LooserBoundWins(Cmp(0, Gt, One(8.0)), Cmp(0, Ge, One(8.0)), Cmp(0, Le, One(8.0)));
    LooserUpperWins(Cmp(0, Lt, One(8.0)), Cmp(0, Le, One(8.0)), Cmp(0, Ge, One(8.0)));
    UnequalIsNotRead(Cmp(0, Eq, One(8.0)), Cmp(0, Ne, One(8.0)));
    var p, q := Cmp(0, In, Many([5.0])), Cmp(0, Ge, One(8.0));
    MembershipIsReadApart(p, q);
    assert p in [p, q];
  }

  // ---- Compilation ---------------------------------------------------------------------

  // The threshold conditions of one field among the active rules.
  function FieldConds(rs: seq<Rule>, f: Field): (cs: seq<Cond>)
    ensures forall c :: c in cs <==>
      (c.Cmp? && c.field == f && exists r :: r in rs && r.ThresholdRule? && r.active && r.bound == c)
  {
    if rs == [] then [] else
      var last := rs[|rs| - 1];
      var front := rs[..|rs| - 1];
      assert rs == front + [last];
      FieldConds(front, f) +
      if last.ThresholdRule? && last.active && last.bound.Cmp? && last.bound.field == f then [last.bound] else []
  }

  function Fields(rs: seq<Rule>): (fs: seq<Field>)
    ensures forall f :: f in fs <==> FieldConds(rs, f) != []
  {
    if rs == [] then [] else
      var last := rs[|rs| - 1];
      var front := rs[..|rs| - 1];
      var fs := Fields(front);
      if last.ThresholdRule? && last.active && last.bound.Cmp? && last.bound.field !in fs
        then fs + [last.bound.field]
        else fs
  }

  // Ambiguous (two different lower or two different upper bounds) or empty.
  ghost predicate Blocked(cs: seq<Cond>) {
    !OneLower(cs) || !OneUpper(cs) || !Inhabited(DomainOf(cs))
  }

  method Guarded(cs: seq<Cond>) returns (ok: bool)
    ensures ok <==> !Blocked(cs)
  {
    var lowers := set c | c in cs && IsLower(c) :: (c.op, c.want);
    var uppers := set c | c in cs && IsUpper(c) :: (c.op, c.want);
    SameBound(cs, lowers, uppers);
    if |lowers| > 1 || |uppers| > 1 {
      ok := false;
    } else {
      ok := ThresholdDomain(cs);
    }
  }

  lemma SameBound(cs: seq<Cond>, lowers: set<(Op, Operand)>, uppers: set<(Op, Operand)>)
    requires lowers == set c | c in cs && IsLower(c) :: (c.op, c.want)
    requires uppers == set c | c in cs && IsUpper(c) :: (c.op, c.want)
    ensures OneLower(cs) <==> |lowers| <= 1
    ensures OneUpper(cs) <==> |uppers| <= 1
  {
    AtMostOne(lowers);
    AtMostOne(uppers);
    forall c, d | c in cs && d in cs && IsLower(c) && IsLower(d)
      ensures (c.op, c.want) in lowers && (d.op, d.want) in lowers
    {}
    forall c, d | c in cs && d in cs && IsUpper(c) && IsUpper(d)
      ensures (c.op, c.want) in uppers && (d.op, d.want) in uppers
    {}
    if |lowers| <= 1 {
      forall c, d | c in cs && d in cs && IsLower(c) && IsLower(d) ensures c.op == d.op && c.want == d.want {
        assert (c.op, c.want) == (d.op, d.want);
      }
    }
    if |uppers| <= 1 {
      forall c, d | c in cs && d in cs && IsUpper(c) && IsUpper(d) ensures c.op == d.op && c.want == d.want {
        assert (c.op, c.want) == (d.op, d.want);
      }
    }
  }

  lemma AtMostOne<T>(s: set<T>)
    ensures |s| <= 1 <==> forall p, q :: p in s && q in s ==> p == q
  {
    if p, q :| p in s && q in s && p != q {
      assert {p, q} <= s;
      SubsetCard({p, q}, s);
    } else if p :| p in s {
      assert s == {p};
    }
  }

  // The first field whose bounds are blocked.
  method FirstBlocked(rs: seq<Rule>, fs: seq<Field>) returns (bad: Option<Field>)
    ensures bad.Some? ==> Blocked(FieldConds(rs, bad.value)) && exists k ::
      0 <= k < |fs| && fs[k] == bad.value && forall j :: 0 <= j < k ==> !Blocked(FieldConds(rs, fs[j]))
    ensures bad.None? ==> forall f :: f in fs ==> !Blocked(FieldConds(rs, f))
  {
    hide Blocked, FieldConds;
    for i := 0 to |fs|
      invariant forall k :: 0 <= k < i ==> !Blocked(FieldConds(rs, fs[k]))
    {
      var f := fs[i];
      var ok := Guarded(FieldConds(rs, f));
      if !ok {
        return Some(f);
      }
    }
    bad := None;
  }

  lemma UnlistedNotBlocked(rs: seq<Rule>, f: Field)
    requires f !in Fields(rs)
    ensures !Blocked(FieldConds(rs, f))
  {
    assert FieldConds(rs, f) == [];
  }

  // An active threshold rule that compares this field.
  predicate Bounds(r: Rule, f: Field) { r.ThresholdRule? && r.active && r.bound.Cmp? && r.bound.field == f }

  ghost predicate FirstBounded(rs: seq<Rule>, f: Field, i: int) {
    0 <= i < |rs| && Bounds(rs[i], f) && forall j :: 0 <= j < i ==> !Bounds(rs[j], f)
  }

  lemma FieldsGrow(rs: seq<Rule>)
    ensures rs == [] ==> Fields(rs) == []
    ensures rs != [] ==>
      var front, last := rs[..|rs| - 1], rs[|rs| - 1];
      if last.ThresholdRule? && last.active && last.bound.Cmp? && last.bound.field !in Fields(front)
      then Fields(rs) == Fields(front) + [last.bound.field] else Fields(rs) == Fields(front)
  {
  }

  lemma {:induction false} NotListed(rs: seq<Rule>, f: Field)
    requires forall j :: 0 <= j < |rs| ==> !Bounds(rs[j], f)
    ensures f !in Fields(rs)
    decreases |rs|
  {
    hide Fields;
    FieldsGrow(rs);
    if rs != [] { NotListed(rs[..|rs| - 1], f); }
  }

  lemma {:induction false} FieldListed(rs: seq<Rule>, f: Field, i: int)
    requires FirstBounded(rs, f, i)
    ensures f in Fields(rs)
    decreases |rs|
  {
    hide Fields;
    FieldsGrow(rs);
    var n := |rs| - 1;
    if i < n {
      FieldListed(rs[..n], f, i);
    }
  }

  // More rules add fields at the end only.
  lemma {:induction false} FieldsPrefix(rs: seq<Rule>, k: nat)
    requires k <= |rs|
    ensures Fields(rs[..k]) <= Fields(rs)
    decreases |rs|
  {
    hide Fields;
    var n := |rs| - 1;
    if k == |rs| {
      assert rs[..k] == rs;
    } else {
      FieldsGrow(rs);
      assert rs[..n][..k] == rs[..k];
      FieldsPrefix(rs[..n], k);
    }
  }

  // So the fields are listed as the rules first bound them.
  lemma ListedBefore(rs: seq<Rule>, f: Field, i: int, g: Field, j: int, k: int)
    requires FirstBounded(rs, f, i) && FirstBounded(rs, g, j) && i < j && 0 <= k < |Fields(rs)| && Fields(rs)[k] == g
    ensures exists a :: 0 <= a < k && Fields(rs)[a] == f
  {
    hide Fields;
    FieldsPrefix(rs, j);
    FieldListed(rs[..j], f, i);
    NotListed(rs[..j], g);
    var some := Fields(rs[..j]);
    var a :| 0 <= a < |some| && some[a] == f;
    assert Fields(rs)[a] == f;
    assert forall b :: 0 <= b < |some| ==> Fields(rs)[b] == some[b] && some[b] != g;
  }

  method CompileRules(rs: seq<Rule>) returns (r: Result<Model, CompileError>)
    ensures r.Err? && r.error.Conflict? ==> Blocked(FieldConds(rs, r.error.field))
    ensures r.Err? && r.error.Conflict? ==> forall f, i, j ::
      FirstBounded(rs, f, i) && FirstBounded(rs, r.error.field, j) && i < j ==> !Blocked(FieldConds(rs, f))
    ensures r.Err? && r.error.Uncompilable? ==> FirstUncompilable(rs, r.error.rule)
    ensures (exists f :: Blocked(FieldConds(rs, f))) <==> r.Err? && r.error.Conflict?
    ensures r.Ok? <==> (forall f :: !Blocked(FieldConds(rs, f))) && forall q :: q in rs ==> Compilable(q)
    ensures r.Ok? ==> r.value == ModelOf(rs)
  {
    hide Blocked, FieldConds, ModelOf, Fields;
    var bad := FirstBlocked(rs, Fields(rs));
    if bad.Some? {
      forall f, i, j | FirstBounded(rs, f, i) && FirstBounded(rs, bad.value, j) && i < j
        ensures !Blocked(FieldConds(rs, f))
      {
        var k :| 0 <= k < |Fields(rs)| && Fields(rs)[k] == bad.value
          && forall j :: 0 <= j < k ==> !Blocked(FieldConds(rs, Fields(rs)[j]));
        ListedBefore(rs, f, i, bad.value, j, k);
      }
      return Err(Conflict(bad.value));
    }
    forall f ensures !Blocked(FieldConds(rs, f)) {
      if f !in Fields(rs) {
        UnlistedNotBlocked(rs, f);
      }
    }
    r := BuildModel(rs);
  }

  predicate Compilable(r: Rule) { r.active && r.ConditionalRule? ==> r.when.Some? }

  // The first rule that cannot be compiled.
  predicate FirstUncompilable(rs: seq<Rule>, id: RuleId) {
    exists i :: 0 <= i < |rs| && !Compilable(rs[i]) && rs[i].id == id && forall j :: 0 <= j < i ==> Compilable(rs[j])
  }

  method BuildModel(rs: seq<Rule>) returns (r: Result<Model, CompileError>)
    ensures r.Ok? <==> forall q :: q in rs ==> Compilable(q)
    ensures r.Ok? ==> r.value == ModelOf(rs)
    ensures r.Err? ==> r.error.Uncompilable? && FirstUncompilable(rs, r.error.rule)
  {
    var m := EMPTY_MODEL;
    for i := 0 to |rs|
      invariant m == ModelOf(rs[..i])
      invariant forall k :: 0 <= k < i ==> Compilable(rs[k])
    {
      assert rs[..i + 1][..i] == rs[..i];
      if !Compilable(rs[i]) {
        return Err(Uncompilable(rs[i].id));
      }
      m := AddRule(m, rs[i]);
    }
    assert rs[..|rs|] == rs;
    r := Ok(m);
  }

  // The rule that sets an action's obligation, and what it sets.
  predicate Sets(r: Rule, a: Action) {
    r.active && ((r.ObligationRule? && r.act == a) || (r.ConditionalRule? && r.act == a && r.when.Some?))
  }

  function ObligationBy(r: Rule): Obligation
    requires (r.ObligationRule?) || (r.ConditionalRule? && r.when.Some?)
  {
    if r.ObligationRule? then Obligation(AlwaysTrue, r.id) else Obligation(Conditional(r.when.value), r.id)
  }

  ghost predicate LastToSet(rs: seq<Rule>, a: Action, i: nat) {
    i < |rs| && Sets(rs[i], a) && forall j :: i < j < |rs| ==> !Sets(rs[j], a)
  }

  /** The model's parts hold exactly what the active rules say; of several rules
      on one action the last sets the obligation. */
  lemma {:induction false} ModelExactly(rs: seq<Rule>)
    ensures var m := ModelOf(rs);
      && (forall c :: c in m.eligibility <==> ThresholdRule(c.rule, true, c.cond) in rs)
      && (forall e :: e in m.exceptions <==> ExceptionRule(e.rule, true, e.action, e.cond) in rs)
      && (forall p :: p in m.prohibitions <==> ProhibitionRule(p.rule, true, p.cond) in rs)
      && (forall d :: d in m.deadlines <==> DeadlineRule(d.rule, true, d.field, d.op, d.want) in rs)
      && (forall o :: o in m.ordering <==> PrerequisiteRule(o.rule, true, o.before, o.after) in rs)
  {
    if rs != [] {
      var front, last := rs[..|rs| - 1], rs[|rs| - 1];
      assert rs == front + [last];
      ModelExactly(front);
    }
  }

  // The index of that rule, or -1 when no rule sets the action's obligation.
  lemma {:induction false} ObligationsExactly(rs: seq<Rule>, a: Action) returns (i: int)
    ensures i == -1 ==> a !in ModelOf(rs).obligations && forall r :: r in rs ==> !Sets(r, a)
    ensures i != -1 ==> i >= 0 && LastToSet(rs, a, i)
    ensures i != -1 ==> a in ModelOf(rs).obligations && ModelOf(rs).obligations[a] == ObligationBy(rs[i])
  {
    i := -1;
    if rs != [] {
      var n := |rs| - 1;
      assert rs == rs[..n] + [rs[n]];
      if Sets(rs[n], a) {
        i := n;
      } else {
        i := ObligationsExactly(rs[..n], a);
      }
    }
  }

  /** No compiled obligation is "never in force". */
  lemma CompiledInForce(rs: seq<Rule>, a: Action)
    requires a in ModelOf(rs).obligations
    ensures !ModelOf(rs).obligations[a].mode.AlwaysFalse?
  {
    var i := ObligationsExactly(rs, a);
  }

  ghost predicate AllReadable(cs: seq<Cond>) { forall c :: c in cs ==> Readable(c) }

  /** A field is blocked exactly when its bounds are ambiguous, or no number meets
      its comparisons and the check does not err. */
  lemma BlockedExactly(rs: seq<Rule>, f: Field)
    requires AllReadable(FieldConds(rs, f))
    ensures var cs := FieldConds(rs, f);
      Blocked(cs) <==> !OneLower(cs) || !OneUpper(cs) || (!Slips(cs) && !Satisfiable(cs))
  {
    CheckErrsExactly(FieldConds(rs, f));
    hide Satisfies, OneLower, OneUpper, DomainOf;
  }

  ghost function Pick(cs: seq<Cond>): real
    requires Satisfiable(cs)
    ensures Satisfies(cs, Pick(cs))
  {
    var v :| Satisfies(cs, v);
    v
  }

  // The criteria that are comparisons; compound ones are not checked at compile time.
  predicate MeetsComparisons(m: Model, x: Case) {
    forall c :: c in m.eligibility && c.cond.Cmp? ==> Eval(c.cond, x)
  }

  ghost predicate SomeMeets(m: Model) { exists x :: MeetsComparisons(m, x) }

  ghost predicate SlipsOn(rs: seq<Rule>, f: Field) { Slips(FieldConds(rs, f)) }

  ghost predicate MetOn(rs: seq<Rule>, f: Field) { Satisfiable(FieldConds(rs, f)) }

  // Field by field, the comparisons can be met.
  lemma MeetsEach(rs: seq<Rule>)
    requires forall f :: MetOn(rs, f)
    ensures SomeMeets(ModelOf(rs))
  {
    forall f ensures Satisfiable(FieldConds(rs, f)) { assert MetOn(rs, f); }
    var x := map f | f in Fields(rs) :: Pick(FieldConds(rs, f));
    ModelExactly(rs);
    forall k | k in ModelOf(rs).eligibility && k.cond.Cmp? ensures Eval(k.cond, x) {
      assert ThresholdRule(k.rule, true, k.cond).bound == k.cond;
      assert k.cond in FieldConds(rs, k.cond.field);
    }
    assert MeetsComparisons(ModelOf(rs), x);
  }

  lemma MeetsField(rs: seq<Rule>, f: Field)
    requires SomeMeets(ModelOf(rs))
    ensures MetOn(rs, f)
  {
    var x :| MeetsComparisons(ModelOf(rs), x);
    ModelExactly(rs);
    var cs := FieldConds(rs, f);
    forall c | c in cs ensures Eval(c, x) && c.field == f {
      var r :| r in rs && r.ThresholdRule? && r.active && r.bound == c;
      assert Criterion(c, r.id) in ModelOf(rs).eligibility;
    }
    assert Satisfies(cs, if f in x then x[f] else 0.0);
  }

  lemma CompiledMeets(rs: seq<Rule>, f: Field)
    requires AllReadable(FieldConds(rs, f)) && !Blocked(FieldConds(rs, f))
    ensures MetOn(rs, f) <==> !SlipsOn(rs, f)
  {
    BlockedExactly(rs, f);
    CheckErrsExactly(FieldConds(rs, f));
  }

  /** When rules compile whose comparisons are readable, some case meets all those
      comparisons exactly if the check erred on no field; with no compound
      threshold among them, some case is eligible exactly then. */
  lemma CompiledIsSatisfiable(rs: seq<Rule>)
    requires forall f :: AllReadable(FieldConds(rs, f)) && !Blocked(FieldConds(rs, f))
    ensures SomeMeets(ModelOf(rs)) <==> forall f :: !SlipsOn(rs, f)
    ensures (forall c :: c in ModelOf(rs).eligibility ==> c.cond.Cmp?) ==>
      (SomeMeets(ModelOf(rs)) <==> exists x :: EvaluateExpected(ModelOf(rs), x).eligible)
  {
    forall f ensures MetOn(rs, f) <==> !SlipsOn(rs, f) { CompiledMeets(rs, f); }
    if forall c :: c in ModelOf(rs).eligibility ==> c.cond.Cmp? {
      forall x ensures EvaluateExpected(ModelOf(rs), x).eligible == MeetsComparisons(ModelOf(rs), x) {}
    }
    hide SlipsOn, MetOn, AllReadable, MeetsComparisons, EvaluateExpected;
    if SomeMeets(ModelOf(rs)) {
      forall f ensures MetOn(rs, f) { MeetsField(rs, f); }
    }
    if forall f :: MetOn(rs, f) {
      MeetsEach(rs);
    }
  }
}
