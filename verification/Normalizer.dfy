/** Labels for a change of rules (services/normalizer/normalizer.py) and what
    they promise (services/regression/validator.py, lines 136-149). */
module Normalizer {
  import opened Wrappers
  import opened Expr
  import opened Graphs

  datatype Kind = ThresholdK | ObligationK | ConditionalK | ExceptionK | PrerequisiteK | ProhibitionK | DeadlineK

  datatype Rule = Rule(kind: Kind, action: Option<Action>, cond: Option<Cond>)

  datatype Label =
    | ThresholdRelaxed | ThresholdTightened | ThresholdAdded | ConditionChanged
    | ObligationAdded | ObligationRemoved | ExceptionAdded | ExceptionRemoved
    | PrerequisiteAdded | PrerequisiteRemoved | ProhibitionAdded
    | DeadlineExtended | DeadlineTightened | DeadlineAdded

  // Two rules are the same rule when kind, action and condition agree.
  predicate Known(r: Rule, rs: seq<Rule>) { r in rs }

  function FieldOf(r: Rule): Option<Field> {
    if r.cond.Some? && r.cond.value.Cmp? then Some(r.cond.value.field) else None
  }

  function ValueOf(r: Rule): Option<real> {
    if r.cond.Some? && r.cond.value.Cmp? && r.cond.value.want.One? then Some(r.cond.value.want.v) else None
  }

  predicate IsLower(r: Rule) { r.cond.Some? && r.cond.value.Cmp? && (r.cond.value.op == Ge || r.cond.value.op == Gt) }

  predicate IsUpper(r: Rule) { r.cond.Some? && r.cond.value.Cmp? && (r.cond.value.op == Le || r.cond.value.op == Lt) }

  function ThresholdCmp(o: Rule, n: Rule): Label {
    if ValueOf(o).None? || ValueOf(n).None? then ConditionChanged
    else
      var a, b := ValueOf(o).value, ValueOf(n).value;
      if IsLower(o) && IsLower(n) then
        if b < a then ThresholdRelaxed else if b > a then ThresholdTightened else ConditionChanged
      else if IsUpper(o) && IsUpper(n) then
        if b > a then ThresholdRelaxed else if b < a then ThresholdTightened else ConditionChanged
      else ConditionChanged
  }

  // The last old rule of a kind and action.
  function LastOf(rs: seq<Rule>, k: Kind, a: Option<Action>): (r: Option<Rule>)
    ensures r.Some? ==> r.value in rs && r.value.kind == k && r.value.action == a
  {
    if rs == [] then None
    else if rs[|rs| - 1].kind == k && rs[|rs| - 1].action == a then Some(rs[|rs| - 1])
    else LastOf(rs[..|rs| - 1], k, a)
  }

  // The first dropped rule of a kind, on a field if one is given to match.
  function FirstDropped(prev: seq<Rule>, next: seq<Rule>, k: Kind, onField: bool, f: Option<Field>): (r: Option<Rule>)
    ensures r.Some? ==> r.value in prev && !Known(r.value, next) && r.value.kind == k
    ensures r.Some? && onField ==> FieldOf(r.value) == f
    ensures r.None? ==> forall q :: q in prev && !Known(q, next) && q.kind == k ==> onField && FieldOf(q) != f
  {
    if prev == [] then None
    else if !Known(prev[0], next) && prev[0].kind == k && (onField ==> FieldOf(prev[0]) == f) then Some(prev[0])
    else
      assert prev == [prev[0]] + prev[1..];
      FirstDropped(prev[1..], next, k, onField, f)
  }

  function LabelAdded(prev: seq<Rule>, next: seq<Rule>, r: Rule): Label {
    match r.kind
    case ThresholdK =>
      var o := LastOf(prev, ThresholdK, r.action);
      if o.Some? && FieldOf(o.value) == FieldOf(r) then ThresholdCmp(o.value, r)
      else
        var ro := FirstDropped(prev, next, ThresholdK, true, FieldOf(r));
        if ro.Some? then ThresholdCmp(ro.value, r) else ThresholdAdded
    case ObligationK => ObligationAdded
    case ConditionalK =>
      if exists q :: q in prev && !Known(q, next) && q.action == r.action then ConditionChanged else ObligationAdded
    case ExceptionK => ExceptionAdded
    case PrerequisiteK => PrerequisiteAdded
    case ProhibitionK => ProhibitionAdded
    case DeadlineK =>
      var ro := FirstDropped(prev, next, DeadlineK, false, None);
      if ro.Some? && ValueOf(ro.value) != ValueOf(r) then
        if ValueOf(r).Some? && ValueOf(ro.value).Some? && ValueOf(r).value > ValueOf(ro.value).value
        then DeadlineExtended else DeadlineTightened
      else DeadlineAdded
  }

  function LabelRemoved(prev: seq<Rule>, next: seq<Rule>, r: Rule): Option<Label> {
    if r.kind == ObligationK && !exists q :: q in next && !Known(q, prev) && q.action == r.action
      then Some(ObligationRemoved)
    else if r.kind == ExceptionK && !exists q :: q in next && !Known(q, prev) && q.kind == ExceptionK
      then Some(ExceptionRemoved)
    else if r.kind == PrerequisiteK && !exists q :: q in next && !Known(q, prev) && q.kind == PrerequisiteK
      then Some(PrerequisiteRemoved)
    else None
  }

  function Changes(prev: seq<Rule>, next: seq<Rule>): set<Label> {
    (set r | r in next && !Known(r, prev) :: LabelAdded(prev, next, r))
    + (set r | r in prev && !Known(r, next) && LabelRemoved(prev, next, r).Some? :: LabelRemoved(prev, next, r).value)
  }

  datatype Delta = Unchanged | Only(sole: Label) | Compound

  function DeltaOf(changes: set<Label>): Delta {
    if changes == {} then Unchanged else if |changes| == 1 then Only(TheOne(changes)) else Compound
  }

  function TheOne(s: set<Label>): (l: Label)
    requires |s| == 1
    ensures s == {l}
  {
    Single(s);
    var l :| l in s;
    l
  }

  lemma Single(s: set<Label>)
    requires |s| == 1
    ensures exists l :: s == {l}
    ensures forall l, k :: l in s && k in s ==> l == k
  {
    var l :| l in s;
    SubsetCard({l}, s);
  }

  method SemanticRuleDelta(prev: seq<Rule>, next: seq<Rule>) returns (d: Delta)
    ensures d == DeltaOf(Changes(prev, next))
  {
    var changes: set<Label> := {};
    for i := 0 to |next|
      invariant changes == set r | r in next[..i] && !Known(r, prev) :: LabelAdded(prev, next, r)
    {
      assert next[..i + 1] == next[..i] + [next[i]];
      if !Known(next[i], prev) {
        changes := changes + {LabelAdded(prev, next, next[i])};
      }
    }
    assert next[..|next|] == next;
    ghost var added := changes;
    for i := 0 to |prev|
      invariant changes == added +
        set r | r in prev[..i] && !Known(r, next) && LabelRemoved(prev, next, r).Some?
        :: LabelRemoved(prev, next, r).value
    {
      assert prev[..i + 1] == prev[..i] + [prev[i]];
      var l := LabelRemoved(prev, next, prev[i]);
      if !Known(prev[i], next) && l.Some? {
        changes := changes + {l.value};
      }
    }
    assert prev[..|prev|] == prev;
    d := DeltaOf(changes);
  }

  // ---- What the rules say of a case ------------------------------------------------------

  predicate Meets(rs: seq<Rule>, k: Kind, x: Case) { forall r :: r in rs && r.kind == k ==> Holds(r.cond, x) }

  predicate EligibleUnder(rs: seq<Rule>, x: Case) { Meets(rs, ThresholdK, x) }

  predicate OnTimeUnder(rs: seq<Rule>, x: Case) { Meets(rs, DeadlineK, x) }

  lemma OnlyLabel(prev: seq<Rule>, next: seq<Rule>, l: Label, r: Rule)
    requires DeltaOf(Changes(prev, next)) == Only(l) && r in next && !Known(r, prev)
    ensures LabelAdded(prev, next, r) == l
  {
    assert LabelAdded(prev, next, r) in Changes(prev, next);
  }

  lemma RelaxedImplies(o: Rule, n: Rule, x: Case)
    requires ThresholdCmp(o, n) == ThresholdRelaxed && FieldOf(o) == FieldOf(n) && Holds(o.cond, x)
    ensures Holds(n.cond, x)
  {
  }

  lemma TightenedImplies(o: Rule, n: Rule, x: Case)
    requires ThresholdCmp(o, n) == ThresholdTightened && FieldOf(o) == FieldOf(n) && Holds(n.cond, x)
    ensures Holds(o.cond, x)
  {
  }

  // The values the rule's comparison accepts.
  predicate Accepts(r: Rule, v: real) {
    r.cond.Some? && r.cond.value.Cmp? && Compare(r.cond.value.op, v, r.cond.value.want)
  }

  ghost predicate GainsTwo(o: Rule, n: Rule) {
    exists v, w :: v < w && Accepts(n, v) && Accepts(n, w) && !Accepts(o, v) && !Accepts(o, w)
  }

  // Two bounds in the same direction, with numbers.
  predicate SameDirection(o: Rule, n: Rule) {
    ValueOf(o).Some? && ValueOf(n).Some? && ((IsLower(o) && IsLower(n)) || (IsUpper(o) && IsUpper(n)))
  }

  /** Between bounds in the same direction the label is exact up to the boundary
      value itself: relaxed when more than one value is gained, tightened when
      more than one is lost, and otherwise at most the old number changes sides. */
  lemma LabelExactly(o: Rule, n: Rule)
    requires SameDirection(o, n)
    ensures ThresholdCmp(o, n) == ThresholdRelaxed <==> GainsTwo(o, n)
    ensures ThresholdCmp(o, n) == ThresholdTightened <==> GainsTwo(n, o)
    ensures ThresholdCmp(o, n) == ConditionChanged ==>
      forall v :: Accepts(o, v) != Accepts(n, v) ==> v == ValueOf(o).value
  {
    var a, b := ValueOf(o).value, ValueOf(n).value;
    var v, w := (2.0 * a + b) / 3.0, (a + 2.0 * b) / 3.0;
    var lo, hi := if v < w then v else w, if v < w then w else v;
    if a != b {
      assert lo < hi && (a < b ==> a < lo && hi < b) && (b < a ==> b < lo && hi < a);
      if ThresholdCmp(o, n) == ThresholdRelaxed {
        assert Accepts(n, lo) && Accepts(n, hi) && !Accepts(o, lo) && !Accepts(o, hi);
      } else {
        assert Accepts(o, lo) && Accepts(o, hi) && !Accepts(n, lo) && !Accepts(n, hi);
      }
    }
  }

  /** THRESHOLD_RELAXED is sound for every case: whoever was eligible still is. */
  lemma RelaxedSound(prev: seq<Rule>, next: seq<Rule>, x: Case)
    requires DeltaOf(Changes(prev, next)) == Only(ThresholdRelaxed) && EligibleUnder(prev, x)
    ensures EligibleUnder(next, x)
  {
    forall r | r in next && r.kind == ThresholdK ensures Holds(r.cond, x) {
      if !Known(r, prev) {
        OnlyLabel(prev, next, ThresholdRelaxed, r);
        var o := LastOf(prev, ThresholdK, r.action);
        var ro := FirstDropped(prev, next, ThresholdK, true, FieldOf(r));
        RelaxedImplies(if o.Some? && FieldOf(o.value) == FieldOf(r) then o.value else ro.value, r, x);
      }
    }
  }

  // One number, and a direction.
  predicate OrderBound(r: Rule) { ValueOf(r).Some? && (IsLower(r) || IsUpper(r)) }

  ghost predicate OrderBounds(rs: seq<Rule>, k: Kind) { forall r :: r in rs && r.kind == k ==> OrderBound(r) }

  // Bounds on one field in one direction.
  predicate SameSense(p: Rule, q: Rule) {
    FieldOf(p).Some? && FieldOf(p) == FieldOf(q) && ((IsLower(p) && IsLower(q)) || (IsUpper(p) && IsUpper(q)))
  }

  // r is on p's field, in its direction, and at least as strong.
  predicate Covers(r: Rule, p: Rule) {
    && SameSense(p, r) && OrderBound(r) && OrderBound(p)
    && var a, b := ValueOf(p).value, ValueOf(r).value;
       if IsLower(p) then b > a || (b == a && (r.cond.value.op == Gt || p.cond.value.op == Ge))
       else b < a || (b == a && (r.cond.value.op == Lt || p.cond.value.op == Le))
  }

  ghost predicate Covered(p: Rule, rs: seq<Rule>) { exists r :: r in rs && r.kind == p.kind && Covers(r, p) }

  lemma CoversMeans(r: Rule, p: Rule, x: Case)
    requires Covers(r, p) && Holds(r.cond, x)
    ensures Holds(p.cond, x)
  {
  }

  // The rules of p's kind on its field in its direction.
  predicate Rival(r: Rule, p: Rule) { r.kind == p.kind && SameSense(p, r) }

  // A value that p refuses although every rival of p accepts it.
  lemma {:induction false} Room(rs: seq<Rule>, p: Rule) returns (v: real)
    requires OrderBounds(rs, p.kind) && OrderBound(p) && !Covered(p, rs)
    ensures !Accepts(p, v)
    ensures forall r :: r in rs && Rival(r, p) ==> Accepts(r, v)
    decreases |rs|
  {
    if rs == [] {
      v := if IsLower(p) then ValueOf(p).value - 1.0 else ValueOf(p).value + 1.0;
    } else {
      var front, last := rs[..|rs| - 1], rs[|rs| - 1];
      assert rs == front + [last] && last in rs;
      assert forall r :: r in front ==> r in rs;
      var u := Room(front, p);
      v := if Rival(last, p) then Nearer(p, last, u) else u;
      forall r | r in rs && Rival(r, p) ensures Accepts(r, v) {
        if r in front { StillAccepts(p, r, u, v); }
      }
    }
  }

  // The midpoint of p's number and a weaker rival's, or u if that is nearer to p.
  function Nearer(p: Rule, r: Rule, u: real): (v: real)
    requires OrderBound(p) && OrderBound(r) && SameSense(p, r) && !Covers(r, p) && !Accepts(p, u)
    ensures !Accepts(p, v) && Accepts(r, v) && (if IsLower(p) then u <= v else v <= u)
  {
    var a, b := ValueOf(p).value, ValueOf(r).value;
    var m := if a == b then a else (a + b) / 2.0;
    if IsLower(p) then (if u > m then u else m) else (if u < m then u else m)
  }

  // A value nearer to p stays accepted in p's direction.
  lemma StillAccepts(p: Rule, r: Rule, u: real, v: real)
    requires OrderBound(p) && OrderBound(r) && SameSense(p, r) && Accepts(r, u)
    requires if IsLower(p) then u <= v else v <= u
    ensures Accepts(r, v)
  {
  }

  // A bound that nothing covers is failed by some case eligible under the rest.
  lemma UncoveredFailed(rs: seq<Rule>, p: Rule, x0: Case) returns (x: Case)
    requires OrderBounds(rs, p.kind) && OrderBound(p) && !Covered(p, rs) && Meets(rs, p.kind, x0)
    ensures Meets(rs, p.kind, x) && !Holds(p.cond, x)
  {
    x := x0;
    if Holds(p.cond, x0) {
      var f := p.cond.value.field;
      var v := Room(rs, p);
      x := x0[f := v];
      forall r | r in rs && r.kind == p.kind ensures Holds(r.cond, x) { Moved(rs, p, r, x0, v); }
    }
  }

  lemma Moved(rs: seq<Rule>, p: Rule, r: Rule, x0: Case, v: real)
    requires OrderBound(p) && Holds(p.cond, x0) && !Accepts(p, v)
    requires OrderBound(r) && r.kind == p.kind && Holds(r.cond, x0) && (Rival(r, p) ==> Accepts(r, v))
    ensures Holds(r.cond, x0[p.cond.value.field := v])
  {
    var f := p.cond.value.field;
    assert Accepts(p, x0[f]);
    if r.cond.value.field == f && !SameSense(p, r) {
      assert Accepts(r, x0[f]);
    }
  }

  // On every case: meeting the new rules of a kind implies meeting the old.
  ghost predicate Implied(prev: seq<Rule>, next: seq<Rule>, k: Kind) {
    forall x :: Meets(next, k, x) ==> Meets(prev, k, x)
  }

  ghost predicate AllCovered(prev: seq<Rule>, next: seq<Rule>, k: Kind) {
    forall p :: p in prev && p.kind == k ==> Covered(p, next)
  }

  /** For one-number order bounds that some case meets: whoever meets the new
      rules of a kind met the old exactly when every old bound is covered by a new
      one, on the same field, in the same direction and at least as strong. */
  lemma ImpliedExactly(prev: seq<Rule>, next: seq<Rule>, k: Kind, x0: Case)
    requires OrderBounds(prev, k) && OrderBounds(next, k) && Meets(next, k, x0)
    ensures Implied(prev, next, k) <==> AllCovered(prev, next, k)
  {
    forall p | p in prev && p.kind == k && !Covered(p, next) ensures !Implied(prev, next, k) {
      var x := UncoveredFailed(next, p, x0);
      assert !Meets(prev, k, x);
    }
    if AllCovered(prev, next, k) {
      forall x | Meets(next, k, x) ensures Meets(prev, k, x) {
        forall p | p in prev && p.kind == k ensures Holds(p.cond, x) {
          var r :| r in next && r.kind == k && Covers(r, p);
          CoversMeans(r, p, x);
        }
      }
    }
  }

  ghost predicate DroppedCovered(prev: seq<Rule>, next: seq<Rule>, k: Kind) {
    forall p :: p in prev && p.kind == k && !Known(p, next) ==> Covered(p, next)
  }

  // A rule on both sides covers itself.
  lemma OnlyDroppedMatter(prev: seq<Rule>, next: seq<Rule>, k: Kind)
    requires OrderBounds(prev, k)
    ensures AllCovered(prev, next, k) <==> DroppedCovered(prev, next, k)
  {
    forall p | p in prev && p.kind == k && Known(p, next) ensures Covered(p, next) { assert Covers(p, p); }
  }

  /** THRESHOLD_TIGHTENED promises that whoever is eligible now was before; it
      keeps the promise exactly when every dropped bound is covered by a new one. */
  lemma TightenedExactly(prev: seq<Rule>, next: seq<Rule>, x0: Case)
    requires DeltaOf(Changes(prev, next)) == Only(ThresholdTightened)
    requires OrderBounds(prev, ThresholdK) && OrderBounds(next, ThresholdK) && EligibleUnder(next, x0)
    ensures Implied(prev, next, ThresholdK) <==> DroppedCovered(prev, next, ThresholdK)
  {
    ImpliedExactly(prev, next, ThresholdK, x0);
    OnlyDroppedMatter(prev, next, ThresholdK);
  }

  // Each dropped bound has a successor on its field in its direction, and the old
  // rules bound each field at most once a direction.
  ghost predicate SuccessorsOnce(prev: seq<Rule>, next: seq<Rule>) {
    && (forall p, q | p in prev && q in prev && p.kind == ThresholdK && q.kind == ThresholdK ::
          SameSense(p, q) ==> p == q)
    && (forall p :: p in prev && p.kind == ThresholdK && !Known(p, next) ==> exists q :: q in next && Rival(q, p))
  }

  lemma TightenedSense(o: Rule, n: Rule)
    requires ThresholdCmp(o, n) == ThresholdTightened && FieldOf(o) == FieldOf(n)
    ensures SameSense(o, n)
  {
  }

  /** In particular when each dropped bound has a successor on its field in its
      direction and the old rules bound each field at most once a direction. */
  lemma TightenedSound(prev: seq<Rule>, next: seq<Rule>, x: Case)
    requires DeltaOf(Changes(prev, next)) == Only(ThresholdTightened) && SuccessorsOnce(prev, next)
      && EligibleUnder(next, x)
    ensures EligibleUnder(prev, x)
  {
    forall p | p in prev && p.kind == ThresholdK ensures Holds(p.cond, x) {
      if !Known(p, next) {
        var r :| r in next && Rival(r, p);
        assert !Known(r, prev);
        OnlyLabel(prev, next, ThresholdTightened, r);
        var o := LastOf(prev, ThresholdK, r.action);
        var ro := FirstDropped(prev, next, ThresholdK, true, FieldOf(r));
        var was := if o.Some? && FieldOf(o.value) == FieldOf(r) then o.value else ro.value;
        TightenedSense(was, r);
        assert SameSense(p, was);
        TightenedImplies(p, r, x);
      }
    }
  }

  function AtLeast(f: Field, v: real): Rule { Rule(ThresholdK, None, Some(Cmp(f, Ge, One(v)))) }

  lemma RaisedAndDropped(a: Rule, b: Rule, c: Rule)
    requires a == AtLeast(0, 1.0) && b == AtLeast(1, 5.0) && c == AtLeast(0, 2.0)
    ensures Changes([b, a], [c]) == {ThresholdTightened}
  {
    assert LastOf([b, a], ThresholdK, None) == Some(a);
    assert LabelAdded([b, a], [c], c) == ThresholdTightened;
    assert forall r :: r in [c] && !Known(r, [b, a]) ==> r == c;
    assert forall r :: r in [b, a] ==> LabelRemoved([b, a], [c], r) == None;
    assert c in [c] && !Known(c, [b, a]);
  }

  /** Without that condition it is not: a bound on another field that is dropped
      alongside gets no label of its own. */
  lemma TightenedMissesDroppedField()
    ensures exists prev, next, x {:trigger EligibleUnder(prev, x), EligibleUnder(next, x)} ::
      DeltaOf(Changes(prev, next)) == Only(ThresholdTightened) && EligibleUnder(next, x) && !EligibleUnder(prev, x)
  {
    var a, b, c := AtLeast(0, 1.0), AtLeast(1, 5.0), AtLeast(0, 2.0);
    var x: Case := map[0 := 3.0];
    RaisedAndDropped(a, b, c);
    assert EligibleUnder([c], x);
    assert !EligibleUnder([b, a], x) by {
      assert b in [b, a] && !Holds(b.cond, x);
    }
    assert TheOne({ThresholdTightened}) == ThresholdTightened;
    hide Changes, LastOf, FirstDropped;
    assert DeltaOf(Changes([b, a], [c])) == Only(ThresholdTightened);
  }

  /** DEADLINE_EXTENDED promises that whoever was on time still is; it keeps the
      promise exactly when every added deadline is covered by an old one, on the
      same field, in the same direction and at least as strict. */
  lemma ExtendedExactly(prev: seq<Rule>, next: seq<Rule>, x0: Case)
    requires DeltaOf(Changes(prev, next)) == Only(DeadlineExtended)
    requires OrderBounds(prev, DeadlineK) && OrderBounds(next, DeadlineK) && OnTimeUnder(prev, x0)
    ensures Implied(next, prev, DeadlineK) <==> DroppedCovered(next, prev, DeadlineK)
  {
    ImpliedExactly(next, prev, DeadlineK, x0);
    OnlyDroppedMatter(next, prev, DeadlineK);
  }

  // Every deadline is an upper bound on this field.
  ghost predicate UpperDeadlines(rs: seq<Rule>, f: Field) {
    forall r :: r in rs && r.kind == DeadlineK ==> OrderBound(r) && IsUpper(r) && FieldOf(r) == Some(f)
  }

  // The first dropped deadline is the one an added deadline was compared with.
  lemma ExtendedCovered(prev: seq<Rule>, next: seq<Rule>, f: Field, r: Rule)
    requires DeltaOf(Changes(prev, next)) == Only(DeadlineExtended) && UpperDeadlines(prev, f)
      && UpperDeadlines(next, f)
    requires r in next && r.kind == DeadlineK && !Known(r, prev)
    ensures Covered(r, prev)
  {
    OnlyLabel(prev, next, DeadlineExtended, r);
    var ro := FirstDropped(prev, next, DeadlineK, false, None);
    assert Covers(ro.value, r);
  }

  /** In particular when all deadlines are upper bounds on one field, however many. */
  lemma ExtendedSound(prev: seq<Rule>, next: seq<Rule>, f: Field, x: Case)
    requires DeltaOf(Changes(prev, next)) == Only(DeadlineExtended)
    requires UpperDeadlines(prev, f) && UpperDeadlines(next, f) && OnTimeUnder(prev, x)
    ensures OnTimeUnder(next, x)
  {
    hide Changes;
    ExtendedExactly(prev, next, x);
    forall r | r in next && r.kind == DeadlineK && !Known(r, prev) ensures Covered(r, prev) {
      ExtendedCovered(prev, next, f, r);
    }
  }

  function DueBy(f: Field, v: real): Rule { Rule(DeadlineK, None, Some(Cmp(f, Le, One(v)))) }

  lemma MovedToOtherField(a: Rule, b: Rule)
    requires a == DueBy(0, 10.0) && b == DueBy(1, 20.0)
    ensures Changes([a], [b]) == {DeadlineExtended}
  {
    assert FirstDropped([a], [b], DeadlineK, false, None) == Some(a);
    assert LabelAdded([a], [b], b) == DeadlineExtended && LabelRemoved([a], [b], a) == None;
    assert b in [b] && !Known(b, [a]);
    assert forall r :: r in [b] && !Known(r, [a]) ==> r == b;
    assert forall r :: r in [a] ==> r == a;
  }

  /** It is compared with the first dropped deadline whatever that one is on: a
      later number on another field is no extension. */
  lemma ExtendedMissesOtherField()
    ensures exists prev, next, x {:trigger OnTimeUnder(prev, x), OnTimeUnder(next, x)} ::
      DeltaOf(Changes(prev, next)) == Only(DeadlineExtended) && OnTimeUnder(prev, x) && !OnTimeUnder(next, x)
  {
    var a, b := DueBy(0, 10.0), DueBy(1, 20.0);
    var x: Case := map[0 := 5.0];
    MovedToOtherField(a, b);
    assert OnTimeUnder([a], x);
    assert !OnTimeUnder([b], x) by {
      assert b in [b] && !Holds(b.cond, x);
    }
    assert TheOne({DeadlineExtended}) == DeadlineExtended;
    hide Changes, LastOf, FirstDropped;
    assert DeltaOf(Changes([a], [b])) == Only(DeadlineExtended);
  }

  lemma UnchangedAddsNothing(prev: seq<Rule>, next: seq<Rule>, r: Rule)
    requires DeltaOf(Changes(prev, next)) == Unchanged && r in next
    ensures Known(r, prev)
  {
    assert LabelAdded(prev, next, r) in Changes(prev, next) || Known(r, prev);
  }

  /** With no label at all nothing was added, so eligibility can only have
      widened; it is the same on every case exactly when every dropped bound is
      covered by one that stayed. */
  lemma UnchangedMeans(prev: seq<Rule>, next: seq<Rule>)
    requires DeltaOf(Changes(prev, next)) == Unchanged
    ensures Implied(next, prev, ThresholdK)
    ensures (forall p :: p in prev && p.kind == ThresholdK ==> Known(p, next)) ==> Implied(prev, next, ThresholdK)
    ensures OrderBounds(prev, ThresholdK) && OrderBounds(next, ThresholdK) && (exists x0 :: EligibleUnder(next, x0)) ==>
      (Implied(prev, next, ThresholdK) <==> DroppedCovered(prev, next, ThresholdK))
  {
    forall r | r in next ensures Known(r, prev) { UnchangedAddsNothing(prev, next, r); }
    hide Changes, Covered, OrderBound;
    if OrderBounds(prev, ThresholdK) && OrderBounds(next, ThresholdK) {
      if x0 :| EligibleUnder(next, x0) {
        ImpliedExactly(prev, next, ThresholdK, x0);
        OnlyDroppedMatter(prev, next, ThresholdK);
      }
    }
  }

  /** A dropped bound is labelled as no change although it changes who is eligible. */
  lemma DroppedBoundLooksUnchanged()
    ensures exists prev, x :: DeltaOf(Changes(prev, [])) == Unchanged && EligibleUnder([], x) && !EligibleUnder(prev, x)
  {
    var r := Rule(ThresholdK, None, Some(Cmp(0, Ge, One(1.0))));
    var x: Case := map[];
    assert r in [r] && !Holds(r.cond, x);
    assert Changes([r], []) == {};
    assert DeltaOf(Changes([r], [])) == Unchanged && EligibleUnder([], x) && !EligibleUnder([r], x);
  }
}
