/** What the interval check has accumulated once it has read the comparisons of a
    field, said of the list of comparisons (services/compiler/compiler.py, lines
    30-66). */
module Interval {
  import opened Wrappers
  import opened Expr
  import Graphs
  import opened Compiler

  // A bound with a number; one with a list is skipped.
  predicate LowerBound(c: Cond) { IsLower(c) && c.want.One? }

  predicate UpperBound(c: Cond) { IsUpper(c) && c.want.One? }

  // The last of the highest lower bounds, and of the lowest upper bounds.
  predicate LastHighest(cs: seq<Cond>, i: int) {
    && 0 <= i < |cs| && LowerBound(cs[i])
    && forall j :: 0 <= j < |cs| && LowerBound(cs[j]) ==>
         cs[j].want.v <= cs[i].want.v && (j > i ==> cs[j].want.v < cs[i].want.v)
  }

  predicate LastLowest(cs: seq<Cond>, i: int) {
    && 0 <= i < |cs| && UpperBound(cs[i])
    && forall j :: 0 <= j < |cs| && UpperBound(cs[j]) ==>
         cs[i].want.v <= cs[j].want.v && (j > i ==> cs[i].want.v < cs[j].want.v)
  }

  // The first equality.
  predicate FirstEqual(cs: seq<Cond>, i: int) {
    0 <= i < |cs| && IsEq(cs[i]) && forall j :: 0 <= j < i ==> !IsEq(cs[j])
  }

  predicate Membership(c: Cond) { c.Cmp? && c.op == In }

  lemma DomainGrows(cs: seq<Cond>)
    ensures cs == [] ==> DomainOf(cs) == EVERYTHING
    ensures cs != [] ==>
      var d, last := DomainOf(cs[..|cs| - 1]), cs[|cs| - 1];
      DomainOf(cs) == if last.Cmp? then Narrow(d, last.op, last.want) else d
  {
  }

  // What one more comparison does to the lower end, and to the upper.
  lemma LowerNarrows(d: Domain, c: Cond)
    requires c.Cmp?
    ensures var e := Narrow(d, c.op, c.want);
      if LowerBound(c) && (d.lo.None? || d.lo.value <= c.want.v)
      then e.lo == Some(c.want.v) && e.loInc == (c.op == Ge) else e.lo == d.lo && e.loInc == d.loInc
  {
  }

  lemma UpperNarrows(d: Domain, c: Cond)
    requires c.Cmp?
    ensures var e := Narrow(d, c.op, c.want);
      if UpperBound(c) && (d.hi.None? || c.want.v <= d.hi.value)
      then e.hi == Some(c.want.v) && e.hiInc == (c.op == Le) else e.hi == d.hi && e.hiInc == d.hiInc
  {
  }

  /** The lower end is that of the last of the highest lower bounds, inclusive
      exactly when that one is; without a lower bound (-1) there is none. */
  lemma {:induction false} LowerEnd(cs: seq<Cond>) returns (i: int)
    ensures i == -1 ==> DomainOf(cs).lo.None? && forall c :: c in cs ==> !LowerBound(c)
    ensures i != -1 ==> LastHighest(cs, i) && DomainOf(cs).lo == Some(cs[i].want.v)
    ensures i != -1 ==> (DomainOf(cs).loInc <==> cs[i].op == Ge)
    decreases |cs|
  {
    hide DomainOf, Narrow;
    DomainGrows(cs);
    i := -1;
    if cs != [] {
      var n := |cs| - 1;
      assert cs == cs[..n] + [cs[n]];
      i := LowerEnd(cs[..n]);
      if cs[n].Cmp? { LowerNarrows(DomainOf(cs[..n]), cs[n]); }
      if LowerBound(cs[n]) && (i == -1 || cs[i].want.v <= cs[n].want.v) {
        forall j | 0 <= j < n && LowerBound(cs[j]) ensures i != -1 && cs[j].want.v <= cs[i].want.v {
          assert cs[..n][j] == cs[j];
        }
        i := n;
      } else if i != -1 {
        forall j | 0 <= j < n && LowerBound(cs[j])
          ensures cs[j].want.v <= cs[i].want.v && (j > i ==> cs[j].want.v < cs[i].want.v)
        {
          assert cs[..n][j] == cs[j];
        }
      }
    }
  }

  /** The same for the upper end and the last of the lowest upper bounds. */
  lemma {:induction false} UpperEnd(cs: seq<Cond>) returns (i: int)
    ensures i == -1 ==> DomainOf(cs).hi.None? && forall c :: c in cs ==> !UpperBound(c)
    ensures i != -1 ==> LastLowest(cs, i) && DomainOf(cs).hi == Some(cs[i].want.v)
    ensures i != -1 ==> (DomainOf(cs).hiInc <==> cs[i].op == Le)
    decreases |cs|
  {
    hide DomainOf, Narrow;
    DomainGrows(cs);
    i := -1;
    if cs != [] {
      var n := |cs| - 1;
      assert cs == cs[..n] + [cs[n]];
      i := UpperEnd(cs[..n]);
      if cs[n].Cmp? { UpperNarrows(DomainOf(cs[..n]), cs[n]); }
      if UpperBound(cs[n]) && (i == -1 || cs[n].want.v <= cs[i].want.v) {
        forall j | 0 <= j < n && UpperBound(cs[j]) ensures i != -1 && cs[i].want.v <= cs[j].want.v {
          assert cs[..n][j] == cs[j];
        }
        i := n;
      } else if i != -1 {
        forall j | 0 <= j < n && UpperBound(cs[j])
          ensures cs[i].want.v <= cs[j].want.v && (j > i ==> cs[i].want.v < cs[j].want.v)
        {
          assert cs[..n][j] == cs[j];
        }
      }
    }
  }

  /** The value kept is that of the first equality, and there is a clash exactly when
      some equality names another. */
  lemma {:induction false} EqualityKept(cs: seq<Cond>) returns (i: int)
    ensures i == -1 ==> DomainOf(cs).eq.None? && forall c :: c in cs ==> !IsEq(c)
    ensures i != -1 ==> FirstEqual(cs, i) && DomainOf(cs).eq == Some(cs[i].want)
    ensures DomainOf(cs).clash <==> i != -1 && exists c :: c in cs && IsEq(c) && c.want != cs[i].want
    decreases |cs|
  {
    hide Narrow, DomainOf;
    DomainGrows(cs);
    i := -1;
    if cs != [] {
      var n := |cs| - 1;
      var front, last := cs[..n], cs[n];
      assert cs == front + [last];
      i := EqualityKept(front);
      if last.Cmp? { EqualNarrows(DomainOf(front), last); }
      i := if i == -1 && IsEq(last) then n else i;
    }
  }

  lemma EqualNarrows(d: Domain, c: Cond)
    requires c.Cmp?
    ensures var e := Narrow(d, c.op, c.want);
      && (IsEq(c) && d.eq.None? ==> e.eq == Some(c.want) && e.clash == d.clash)
      && (IsEq(c) && d.eq.Some? ==> e.eq == d.eq && e.clash == (d.clash || d.eq.value != c.want))
      && (!IsEq(c) ==> e.eq == d.eq && e.clash == d.clash)
  {
  }

  /** The values allowed are those in every membership list. */
  lemma {:induction false} AllowedKept(cs: seq<Cond>, v: real)
    ensures DomainOf(cs).allowed.None? <==> forall c :: c in cs ==> !Membership(c)
    ensures DomainOf(cs).allowed.Some? ==>
      (v in DomainOf(cs).allowed.value <==> forall c :: c in cs && Membership(c) ==> v in Members(c.want))
    decreases |cs|
  {
    hide Narrow, DomainOf;
    DomainGrows(cs);
    if cs != [] {
      var n := |cs| - 1;
      assert cs == cs[..n] + [cs[n]] && cs[n] in cs;
      AllowedKept(cs[..n], v);
      if cs[n].Cmp? { AllowedNarrows(DomainOf(cs[..n]), cs[n], v); }
    }
  }

  lemma AllowedNarrows(d: Domain, c: Cond, v: real)
    requires c.Cmp?
    ensures var e := Narrow(d, c.op, c.want);
      if c.op == In then
        && e.allowed.Some?
        && (v in e.allowed.value <==> v in Members(c.want) && (d.allowed.Some? ==> v in d.allowed.value))
      else e.allowed == d.allowed
  {
  }

  // ---- The answer -----------------------------------------------------------------------------

  // No equality names another value than the first.
  predicate OneEquality(cs: seq<Cond>, k: int) {
    FirstEqual(cs, k) && forall c :: c in cs && IsEq(c) ==> c.want == cs[k].want
  }

  lemma EqualityIs(cs: seq<Cond>, k: int)
    requires FirstEqual(cs, k)
    ensures DomainOf(cs).eq == Some(cs[k].want) && (DomainOf(cs).clash <==> !OneEquality(cs, k))
  {
    hide DomainOf;
    var i := EqualityKept(cs);
    assert cs[k] in cs;
    assert i == k;
  }

  lemma LowerIs(cs: seq<Cond>, i: int)
    requires LastHighest(cs, i)
    ensures DomainOf(cs).lo == Some(cs[i].want.v) && (DomainOf(cs).loInc <==> cs[i].op == Ge)
  {
    hide DomainOf;
    var k := LowerEnd(cs);
    assert cs[i] in cs;
    assert k == i;
  }

  lemma UpperIs(cs: seq<Cond>, i: int)
    requires LastLowest(cs, i)
    ensures DomainOf(cs).hi == Some(cs[i].want.v) && (DomainOf(cs).hiInc <==> cs[i].op == Le)
  {
    hide DomainOf;
    var k := UpperEnd(cs);
    assert cs[i] in cs;
    assert k == i;
  }

  ghost predicate MeetsLower(cs: seq<Cond>, v: real) {
    forall i :: LastHighest(cs, i) ==> Compare(cs[i].op, v, cs[i].want)
  }

  ghost predicate MeetsUpper(cs: seq<Cond>, v: real) {
    forall i :: LastLowest(cs, i) ==> Compare(cs[i].op, v, cs[i].want)
  }

  lemma EndsJudge(cs: seq<Cond>, v: real)
    ensures Above(DomainOf(cs), v) <==> MeetsLower(cs, v)
    ensures Below(DomainOf(cs), v) <==> MeetsUpper(cs, v)
  {
    hide DomainOf;
    var i := LowerEnd(cs);
    var j := UpperEnd(cs);
    forall k | LastHighest(cs, k) { LowerIs(cs, k); }
    forall k | LastLowest(cs, k) { UpperIs(cs, k); }
    if i == -1 {
      forall k ensures !LastHighest(cs, k) { assert 0 <= k < |cs| ==> cs[k] in cs; }
    }
    if j == -1 {
      forall k ensures !LastLowest(cs, k) { assert 0 <= k < |cs| ==> cs[k] in cs; }
    }
  }

  /** With an equality: different ones fail; one with a list passes whatever the
      bounds are; one with a number passes exactly when the number meets the last of
      the highest lower bounds and of the lowest upper ones, and is in every
      membership list. */
  lemma EqualityJudged(cs: seq<Cond>, k: int)
    requires FirstEqual(cs, k)
    ensures !OneEquality(cs, k) ==> !Inhabited(DomainOf(cs))
    ensures OneEquality(cs, k) && cs[k].want.Many? ==> Inhabited(DomainOf(cs))
    ensures OneEquality(cs, k) && cs[k].want.One? ==>
      (Inhabited(DomainOf(cs)) <==>
       && MeetsLower(cs, cs[k].want.v) && MeetsUpper(cs, cs[k].want.v)
       && forall c :: c in cs && Membership(c) ==> cs[k].want.v in Members(c.want))
  {
    hide DomainOf, Above, Below, OneEquality, MeetsLower, MeetsUpper;
    EqualityIs(cs, k);
    if cs[k].want.One? {
      EndsJudge(cs, cs[k].want.v);
      AllowedKept(cs, cs[k].want.v);
    }
  }

  lemma {:induction false} NoEquality(cs: seq<Cond>)
    requires forall c :: c in cs ==> !IsEq(c)
    ensures DomainOf(cs).eq.None? && !DomainOf(cs).clash
    decreases |cs|
  {
    hide DomainOf, Narrow;
    DomainGrows(cs);
    if cs != [] {
      var n := |cs| - 1;
      assert cs[n] in cs;
      NoEquality(cs[..n]);
      if cs[n].Cmp? { EqualNarrows(DomainOf(cs[..n]), cs[n]); }
    }
  }

  // Some lower and some upper bound leave no number between them.
  ghost predicate Crossed(cs: seq<Cond>) {
    exists i, j :: LastHighest(cs, i) && LastLowest(cs, j)
      && (cs[i].want.v > cs[j].want.v || (cs[i].want.v == cs[j].want.v && !(cs[i].op == Ge && cs[j].op == Le)))
  }

  ghost predicate Shared(cs: seq<Cond>, v: real) { forall c :: c in cs && Membership(c) ==> v in Members(c.want) }

  /** Without an equality: it passes exactly when the bounds do not cross and, if there
      are membership lists, they share a value, on whichever side of the bounds. */
  lemma BoundsJudged(cs: seq<Cond>)
    requires forall c :: c in cs ==> !IsEq(c)
    ensures Inhabited(DomainOf(cs)) <==>
      !Crossed(cs) && ((exists c :: c in cs && Membership(c)) ==> exists v :: Shared(cs, v))
  {
    hide DomainOf;
    NoEquality(cs);
    CrossedIs(cs);
    SharedIs(cs);
    hide Crossed, Shared, Membership;
  }

  lemma CrossedIs(cs: seq<Cond>)
    ensures var d := DomainOf(cs);
      Crossed(cs) <==>
      && d.lo.Some? && d.hi.Some?
      && (d.lo.value > d.hi.value || (d.lo.value == d.hi.value && !(d.loInc && d.hiInc)))
  {
    hide DomainOf;
    var i := LowerEnd(cs);
    var j := UpperEnd(cs);
    if a, b :| LastHighest(cs, a) && LastLowest(cs, b) {
      LowerIs(cs, a);
      UpperIs(cs, b);
    }
    forall a | LastHighest(cs, a) { LowerIs(cs, a); }
    forall b | LastLowest(cs, b) { UpperIs(cs, b); }
  }

  lemma SharedIs(cs: seq<Cond>)
    ensures var d := DomainOf(cs);
      && (d.allowed.Some? <==> exists c :: c in cs && Membership(c))
      && (d.allowed.Some? ==> (d.allowed.value != {} <==> exists v :: Shared(cs, v)))
  {
    hide DomainOf;
    var d := DomainOf(cs);
    forall v { AllowedKept(cs, v); }
    AllowedKept(cs, 0.0);
    if d.allowed.Some? && d.allowed.value != {} {
      var v := Graphs.Member(d.allowed.value);
      assert Shared(cs, v);
    }
    if d.allowed.Some? {
      if v :| Shared(cs, v) { assert v in d.allowed.value; }
    }
  }
}
