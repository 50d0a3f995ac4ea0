/** Shared result types. */
module Wrappers {
  datatype Option<+T> = None | Some(value: T)

  datatype Result<+T, +E> = Ok(value: T) | Err(error: E)
}

/** Case predicates (services/workflow/expr.py). Numbers and ISO dates are both
    real numbers here: a date is its day number. */
module Expr {
  import opened Wrappers

  type Field = nat

  // A field that is missing, or present with a null, is simply not a key.
  type Case = map<Field, real>

  datatype Op = Gt | Ge | Lt | Le | Eq | Ne | In | NotIn

  datatype Operand = One(v: real) | Many(vs: seq<real>)

  datatype Cond =
    | Cmp(field: Field, op: Op, want: Operand)
    | And(cs: seq<Cond>)
    | Or(cs: seq<Cond>)
    | Not(c: Cond)
    | Structural

  datatype Leaf = Leaf(field: Field, op: Op, want: Operand)

  function Members(w: Operand): seq<real> {
    match w
    case One(v) => [v]
    case Many(vs) => vs
  }

  // An order comparison with a list is a type error, which counts as false.
  predicate Compare(op: Op, a: real, want: Operand) {
    match op
    case Gt => want.One? && a > want.v
    case Ge => want.One? && a >= want.v
    case Lt => want.One? && a < want.v
    case Le => want.One? && a <= want.v
    case Eq => want.One? && a == want.v
    case Ne => !(want.One? && a == want.v)
    case In => a in Members(want)
    case NotIn => a !in Members(want)
  }

  predicate Eval(c: Cond, x: Case)
    decreases c
  {
    match c
    case Cmp(f, op, want) => f in x && Compare(op, x[f], want)
    case And(cs) => forall d :: d in cs ==> Eval(d, x)
    case Or(cs) => exists d :: d in cs && Eval(d, x)
    case Not(d) => !Eval(d, x)
    case Structural => true
  }

  // A null condition always holds.
  predicate Holds(c: Option<Cond>, x: Case) {
    c.Some? ==> Eval(c.value, x)
  }

  /** The comparisons come in pairs of opposites; a number is below, at or above
      another; membership is being one of the values listed. */
  lemma CompareLaws(v: real, w: real, vs: seq<real>)
    ensures Compare(Lt, v, One(w)) <==> !Compare(Ge, v, One(w))
    ensures Compare(Gt, v, One(w)) <==> !Compare(Le, v, One(w))
    ensures Compare(Eq, v, One(w)) <==> !Compare(Ne, v, One(w))
    ensures Compare(In, v, Many(vs)) <==> !Compare(NotIn, v, Many(vs))
    ensures Compare(In, v, Many(vs)) <==> exists i :: 0 <= i < |vs| && Compare(Eq, v, One(vs[i]))
    ensures Compare(Le, v, One(w)) <==> Compare(Lt, v, One(w)) || Compare(Eq, v, One(w))
    ensures Compare(Lt, v, One(w)) <==> Compare(Gt, w, One(v))
    ensures !(Compare(Lt, v, One(w)) && Compare(Gt, v, One(w))) && Compare(Eq, v, One(v))
  {
    if Compare(In, v, Many(vs)) {
      var i :| 0 <= i < |vs| && vs[i] == v;
      assert Compare(Eq, v, One(vs[i]));
    }
  }

  /** No comparison holds of a missing field, or of a list where a number is meant. */
  lemma NothingToCompare(f: Field, op: Op, want: Operand, x: Case)
    requires f !in x || (want.Many? && op in {Gt, Ge, Lt, Le, Eq})
    ensures !Eval(Cmp(f, op, want), x) && Eval(Not(Cmp(f, op, want)), x)
  {
  }

  // Every comparison in a condition tree, left to right.
  function Leaves(c: Cond): seq<Leaf>
    decreases c, 0
  {
    match c
    case Cmp(f, op, want) => [Leaf(f, op, want)]
    case And(cs) => LeavesAll(cs)
    case Or(cs) => LeavesAll(cs)
    case Not(d) => Leaves(d)
    case Structural => []
  }

  function LeavesAll(cs: seq<Cond>): seq<Leaf>
    decreases cs, 0
  {
    if cs == [] then [] else Leaves(cs[0]) + LeavesAll(cs[1..])
  }

  function LeavesOpt(c: Option<Cond>): seq<Leaf> {
    if c.Some? then Leaves(c.value) else []
  }

  // ---- Cases that no literal can tell apart --------------------------------

  type Literals = map<Field, set<real>>

  ghost predicate Collected(leaves: seq<Leaf>, lits: Literals) {
    forall l :: l in leaves ==> l.field in lits && forall v :: v in Members(l.want) ==> v in lits[l.field]
  }

  ghost predicate SameSide(ls: set<real>, u: real, v: real) {
    forall l :: l in ls ==> (u < l <==> v < l) && (u == l <==> v == l)
  }

  ghost predicate Indistinct(lits: Literals, x: Case, y: Case) {
    forall f :: f in lits ==> f in x && f in y && SameSide(lits[f], x[f], y[f])
  }

  lemma {:induction false} ChildLeaves(cs: seq<Cond>, d: Cond, l: Leaf)
    requires d in cs && l in Leaves(d)
    ensures l in LeavesAll(cs)
  {
    if d != cs[0] {
      ChildLeaves(cs[1..], d, l);
    }
  }

  lemma CompareAgrees(op: Op, want: Operand, ls: set<real>, u: real, v: real)
    requires SameSide(ls, u, v)
    requires forall m :: m in Members(want) ==> m in ls
    ensures Compare(op, u, want) == Compare(op, v, want)
  {
    assert want.One? ==> want.v in Members(want);
    assert forall m :: m in Members(want) ==> (u == m <==> v == m);
  }

  /** A condition gives the same answer on two cases that lie on the same side
      of every literal it mentions. */
  lemma {:induction false} EvalAgrees(c: Cond, lits: Literals, x: Case, y: Case)
    requires Collected(Leaves(c), lits) && Indistinct(lits, x, y)
    ensures Eval(c, x) == Eval(c, y)
    decreases c
  {
    match c
    case Cmp(f, op, want) =>
      assert Leaf(f, op, want) in Leaves(c);
      CompareAgrees(op, want, lits[f], x[f], y[f]);
    case And(cs) => EvalAgreesAll(cs, lits, x, y);
    case Or(cs) => EvalAgreesAll(cs, lits, x, y);
    case Not(d) => EvalAgrees(d, lits, x, y);
    case Structural =>
  }

  lemma {:induction false} EvalAgreesAll(cs: seq<Cond>, lits: Literals, x: Case, y: Case)
    requires Collected(LeavesAll(cs), lits) && Indistinct(lits, x, y)
    ensures forall d :: d in cs ==> Eval(d, x) == Eval(d, y)
    decreases cs
  {
    forall d | d in cs
      ensures Eval(d, x) == Eval(d, y)
    {
      forall l | l in Leaves(d) ensures l in LeavesAll(cs) { ChildLeaves(cs, d, l); }
      EvalAgrees(d, lits, x, y);
    }
  }
}
