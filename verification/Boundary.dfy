/** Boundary candidates around the literals of one field
    (services/workflow/expr.py, lines 86-110), and when they stand for the whole
    unbounded domain. */
module Boundary {
  import opened Expr
  import Graphs

  datatype FieldKind = Number | Day

  // Numbers are stepped by a hundredth, or by one from a thousand on; dates by a day.
  function Step(k: FieldKind, l: real): real {
    if k == Day then 1.0 else if -1000.0 < l < 1000.0 then 0.01 else 1.0
  }

  function Unit(k: FieldKind): real { if k == Day then 1.0 else 0.01 }

  function Round2(v: real): real { (v * 100.0 + 0.5).Floor as real / 100.0 }

  function Candidate(k: FieldKind, v: real): real { if k == Day then v else Round2(v) }

  function Near(k: FieldKind, l: real): seq<real> {
    [Candidate(k, l - Step(k, l)), Candidate(k, l), Candidate(k, l + Step(k, l))]
  }

  function Neighbors(k: FieldKind, ls: set<real>): set<real> {
    set l, c | l in ls && c in Near(k, l) :: c
  }

  method Any<T(==)>(s: set<T>) returns (x: T)
    requires s != {}
    ensures x in s
  {
    x :| x in s;
  }

  method ComputeNeighbors(k: FieldKind, ls: set<real>) returns (cands: set<real>)
    ensures cands == Neighbors(k, ls)
  {
    cands := {};
    var rest := ls;
    while rest != {}
      invariant rest <= ls && cands == Neighbors(k, ls - rest)
    {
      var l := Any(rest);
      rest := rest - {l};
      ghost var before := cands;
      for i := 0 to 3
        invariant cands == before + set c | c in Near(k, l)[..i]
      {
        cands := cands + {Near(k, l)[i]};
        assert Near(k, l)[..i + 1] == Near(k, l)[..i] + [Near(k, l)[i]];
      }
      assert Near(k, l)[..3] == Near(k, l);
      assert ls - rest == (ls - (rest + {l})) + {l};
    }
    assert ls - rest == ls;
  }

  // The n-th hundredth, or the n-th day.
  function Units(k: FieldKind, n: int): real { if k == Day then n as real else n as real / 100.0 }

  // The values of a field: hundredths, or whole days.
  ghost predicate OnGrid(k: FieldKind, v: real) { exists n: int :: v == Units(k, n) }

  lemma FloorHalf(n: int)
    ensures (n as real + 0.5).Floor == n
  {
  }

  lemma RoundGrid(k: FieldKind, v: real)
    requires OnGrid(k, v)
    ensures Candidate(k, v) == v
  {
    if k == Number {
      var n: int :| v == Units(k, n);
      FloorHalf(n);
      assert v * 100.0 == n as real;
    }
  }

  lemma GridShift(k: FieldKind, v: real, l: real)
    requires OnGrid(k, v)
    ensures OnGrid(k, v + Step(k, l)) && OnGrid(k, v - Step(k, l)) && OnGrid(k, v + Unit(k))
  {
    var n: int :| v == Units(k, n);
    var d := if k == Number && Step(k, l) == 1.0 then 100 else 1;
    assert v + Step(k, l) == Units(k, n + d);
    assert v - Step(k, l) == Units(k, n - d);
    assert v + Unit(k) == Units(k, n + 1);
  }

  lemma GridGap(k: FieldKind, u: real, v: real)
    requires OnGrid(k, u) && OnGrid(k, v) && u < v
    ensures v - u >= Unit(k)
  {
    var n: int :| u == Units(k, n);
    var m: int :| v == Units(k, m);
    assert n + 1 <= m;
  }

  ghost predicate OnGridAll(k: FieldKind, ls: set<real>) { forall l :: l in ls ==> OnGrid(k, l) }

  lemma NearIn(k: FieldKind, ls: set<real>, l: real)
    requires l in ls && OnGrid(k, l)
    ensures l in Neighbors(k, ls) && l + Step(k, l) in Neighbors(k, ls) && l - Step(k, l) in Neighbors(k, ls)
  {
    GridShift(k, l, l);
    RoundGrid(k, l);
    RoundGrid(k, l + Step(k, l));
    RoundGrid(k, l - Step(k, l));
    assert Near(k, l)[0] in Near(k, l) && Near(k, l)[1] in Near(k, l) && Near(k, l)[2] in Near(k, l);
  }

  // Two neighbouring literals with room for a value between them.
  ghost predicate WideGap(k: FieldKind, ls: set<real>, b: real, a: real) {
    b in ls && a in ls && a - b > Unit(k) && forall l :: l in ls ==> l <= b || a <= l
  }

  ghost predicate Within(cs: set<real>, b: real, a: real) { exists c :: c in cs && b < c < a }

  // Every gap with room for a value holds a candidate.
  ghost predicate GapsCovered(k: FieldKind, ls: set<real>) {
    forall b, a :: WideGap(k, ls, b, a) ==> Within(Neighbors(k, ls), b, a)
  }

  ghost predicate Represented(k: FieldKind, ls: set<real>, v: real) {
    exists c :: c in Neighbors(k, ls) && SameSide(ls, v, c)
  }

  lemma {:induction false} Greatest(s: set<real>) returns (m: real)
    requires s != {}
    ensures m in s && forall l :: l in s ==> l <= m
    decreases |s|
  {
    m := Graphs.Member(s);
    if s != {m} {
      var r := Greatest(s - {m});
      forall l | l in s && l != m ensures l <= r { assert l in s - {m}; }
      m := if r > m then r else m;
    }
  }

  lemma {:induction false} Least(s: set<real>) returns (m: real)
    requires s != {}
    ensures m in s && forall l :: l in s ==> m <= l
    decreases |s|
  {
    m := Graphs.Member(s);
    if s != {m} {
      var r := Least(s - {m});
      forall l | l in s && l != m ensures r <= l { assert l in s - {m}; }
      m := if r < m then r else m;
    }
  }

  lemma GapsSuffice(k: FieldKind, ls: set<real>, v: real)
    requires ls != {} && OnGridAll(k, ls) && OnGrid(k, v) && GapsCovered(k, ls)
    ensures Represented(k, ls, v)
  {
    var lows, highs := set l | l in ls && l < v, set l | l in ls && l > v;
    if v in ls {
      NearIn(k, ls, v);
    } else if highs == {} {
      var m := Greatest(ls);
      NearIn(k, ls, m);
      assert m !in highs;
      assert SameSide(ls, v, m + Step(k, m)) by {
        forall l | l in ls ensures l < v && l < m + Step(k, m) { assert l !in highs; }
      }
    } else if lows == {} {
      var m := Least(ls);
      NearIn(k, ls, m);
      assert SameSide(ls, v, m - Step(k, m)) by {
        forall l | l in ls ensures l > v && l > m - Step(k, m) { assert l !in lows; }
      }
    } else {
      var b := Greatest(lows);
      var a := Least(highs);
      forall l | l in ls ensures l <= b || a <= l { assert l in lows || l in highs; }
      GridGap(k, b, v);
      GridGap(k, v, a);
      assert WideGap(k, ls, b, a);
      var c :| c in Neighbors(k, ls) && b < c < a;
      assert SameSide(ls, v, c);
    }
  }

  /** The candidates around the literals of a field represent every value of its
      unbounded domain exactly when every gap with room for a value holds one. */
  lemma RepresentativesExactly(k: FieldKind, ls: set<real>)
    requires ls != {} && OnGridAll(k, ls)
    ensures GapsCovered(k, ls) <==> forall v :: OnGrid(k, v) ==> Represented(k, ls, v)
  {
    if GapsCovered(k, ls) {
      forall v | OnGrid(k, v) ensures Represented(k, ls, v) { GapsSuffice(k, ls, v); }
    }
    if forall v :: OnGrid(k, v) ==> Represented(k, ls, v) {
      forall b, a | WideGap(k, ls, b, a) ensures Within(Neighbors(k, ls), b, a) {
        GridShift(k, b, b);
        assert Represented(k, ls, b + Unit(k));
        GapHolds(k, ls, b, a);
      }
    }
  }

  lemma GapHolds(k: FieldKind, ls: set<real>, b: real, a: real)
    requires WideGap(k, ls, b, a) && Represented(k, ls, b + Unit(k))
    ensures Within(Neighbors(k, ls), b, a)
  {
    var c :| c in Neighbors(k, ls) && SameSide(ls, b + Unit(k), c);
    assert b < c < a;
  }

  /** Literals farther apart than their own step leave no gap uncovered. */
  lemma SpacedIsCovered(k: FieldKind, ls: set<real>)
    requires OnGridAll(k, ls)
    requires forall l, m :: l in ls && m in ls && l < m ==> Step(k, l) == Unit(k) || m - l > Step(k, l)
    ensures GapsCovered(k, ls)
  {
    forall b, a | WideGap(k, ls, b, a) ensures Within(Neighbors(k, ls), b, a) {
      NearIn(k, ls, b);
      assert b < b + Step(k, b) < a;
    }
  }

  /** Literals below a thousand, and all dates, are stepped by the unit of their grid,
      so their candidates always stand for the whole domain. */
  lemma FineStepRepresents(k: FieldKind, ls: set<real>, v: real)
    requires ls != {} && OnGridAll(k, ls) && OnGrid(k, v)
    requires k == Day || forall l :: l in ls ==> -1000.0 < l < 1000.0
    ensures Represented(k, ls, v)
  {
    SpacedIsCovered(k, ls);
    GapsSuffice(k, ls, v);
  }

  predicate Nearby(k: FieldKind, l: real, c: real) {
    var reach := if k == Day then 1.0 else if -1000.0 < l < 1000.0 then 0.015 else 1.005;
    -reach <= c - l <= reach
  }

  /** Every candidate is within a step of some literal: a hundredth below a thousand
      and one from there on for numbers, a day for dates, and half a hundredth of
      rounding. */
  lemma CandidatesAreNear(k: FieldKind, ls: set<real>, c: real)
    requires c in Neighbors(k, ls)
    ensures exists l :: l in ls && Nearby(k, l, c)
  {
    var l :| l in ls && c in Near(k, l);
    Rounded(l - Step(k, l));
    Rounded(l);
    Rounded(l + Step(k, l));
    assert Nearby(k, l, c);
  }

  // Rounding moves a number by at most half a hundredth, onto the grid.
  lemma Rounded(v: real)
    ensures -0.005 <= Round2(v) - v <= 0.005 && OnGrid(Number, Round2(v))
  {
    var n := (v * 100.0 + 0.5).Floor;
    assert n as real <= v * 100.0 + 0.5 < n as real + 1.0;
    assert Round2(v) == Units(Number, n);
  }

  /** Above a thousand the step is too coarse for closer literals: no candidate
      falls between 1000.00 and 1000.50. */
  lemma CoarseStepMisses()
    ensures var ls := {1000.0, 1000.5};
      OnGridAll(Number, ls) && OnGrid(Number, 1000.25) && !Represented(Number, ls, 1000.25)
  {
    var ls := {1000.0, 1000.5};
    assert 1000.0 == Units(Number, 100000) && 1000.5 == Units(Number, 100050) && 1000.25 == Units(Number, 100025);
    GridShift(Number, 1000.0, 1000.0);
    GridShift(Number, 1000.5, 1000.5);
    RoundGrid(Number, 999.0);
    RoundGrid(Number, 1000.0);
    RoundGrid(Number, 1001.0);
    RoundGrid(Number, 999.5);
    RoundGrid(Number, 1000.5);
    RoundGrid(Number, 1001.5);
    assert Near(Number, 1000.0) == [999.0, 1000.0, 1001.0] && Near(Number, 1000.5) == [999.5, 1000.5, 1001.5];
    forall c | c in Neighbors(Number, ls) ensures !SameSide(ls, 1000.25, c) {
      assert 1000.0 in ls && 1000.5 in ls;
    }
  }
}
