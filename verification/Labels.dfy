/** Which change of rules each label stands for, said of the two lists of rules
    (services/normalizer/normalizer.py, lines 61-141). */
module Labels {
  import opened Wrappers
  import opened Normalizer

  predicate Added(prev: seq<Rule>, next: seq<Rule>, r: Rule) { r in next && r !in prev }

  predicate Dropped(prev: seq<Rule>, next: seq<Rule>, r: Rule) { r in prev && r !in next }

  // ---- What puts a label among the changes -------------------------------------------------

  lemma LabelFrom(prev: seq<Rule>, next: seq<Rule>, l: Label)
    ensures l in Changes(prev, next) <==>
      || (exists r :: Added(prev, next, r) && LabelAdded(prev, next, r) == l)
      || (exists r :: Dropped(prev, next, r) && LabelRemoved(prev, next, r) == Some(l))
  {
    if r :| Added(prev, next, r) && LabelAdded(prev, next, r) == l {
      assert r in next && !Known(r, prev);
    }
    if r :| Dropped(prev, next, r) && LabelRemoved(prev, next, r) == Some(l) {
      assert r in prev && !Known(r, next);
    }
    if l in Changes(prev, next) {
      if r :| r in next && !Known(r, prev) && LabelAdded(prev, next, r) == l {
        assert Added(prev, next, r);
      } else {
        var r :| r in prev && !Known(r, next) && LabelRemoved(prev, next, r) == Some(l);
        assert Dropped(prev, next, r);
      }
    }
  }

  ghost predicate SomeAdded(prev: seq<Rule>, next: seq<Rule>, k: Kind) {
    exists r :: Added(prev, next, r) && r.kind == k
  }

  ghost predicate SomeDropped(prev: seq<Rule>, next: seq<Rule>, k: Kind) {
    exists r :: Dropped(prev, next, r) && r.kind == k
  }

  ghost predicate Replaced(prev: seq<Rule>, next: seq<Rule>, r: Rule) {
    exists q :: Dropped(prev, next, q) && q.action == r.action
  }

  ghost predicate TakenOver(prev: seq<Rule>, next: seq<Rule>, r: Rule) {
    exists q :: Added(prev, next, q) && q.action == r.action
  }

  // What an added rule of a kind other than threshold and deadline is called.
  lemma AddedLabel(prev: seq<Rule>, next: seq<Rule>, r: Rule)
    requires Added(prev, next, r)
    ensures LabelAdded(prev, next, r) == ExceptionAdded <==> r.kind == ExceptionK
    ensures LabelAdded(prev, next, r) == PrerequisiteAdded <==> r.kind == PrerequisiteK
    ensures LabelAdded(prev, next, r) == ProhibitionAdded <==> r.kind == ProhibitionK
    ensures LabelAdded(prev, next, r) !in {ObligationRemoved, ExceptionRemoved, PrerequisiteRemoved}
    ensures LabelAdded(prev, next, r) == ObligationAdded <==>
      r.kind == ObligationK || (r.kind == ConditionalK && !Replaced(prev, next, r))
  {
    hide LastOf, FirstDropped;
    if q :| q in prev && !Known(q, next) && q.action == r.action { assert Dropped(prev, next, q); }
    if q :| Dropped(prev, next, q) && q.action == r.action { assert !Known(q, next); }
  }

  lemma RemovedLabel(prev: seq<Rule>, next: seq<Rule>, r: Rule)
    requires Dropped(prev, next, r)
    ensures LabelRemoved(prev, next, r) == Some(ExceptionRemoved) <==>
      r.kind == ExceptionK && !SomeAdded(prev, next, ExceptionK)
    ensures LabelRemoved(prev, next, r) == Some(PrerequisiteRemoved) <==>
      r.kind == PrerequisiteK && !SomeAdded(prev, next, PrerequisiteK)
    ensures LabelRemoved(prev, next, r) == Some(ObligationRemoved) <==>
      r.kind == ObligationK && !TakenOver(prev, next, r)
    ensures LabelRemoved(prev, next, r).Some? ==>
      LabelRemoved(prev, next, r).value in {ObligationRemoved, ExceptionRemoved, PrerequisiteRemoved}
  {
    forall q: Rule ensures Added(prev, next, q) <==> q in next && !Known(q, prev) {}
  }

  /** The labels for exceptions, prerequisites and prohibitions: added when a rule
      of the kind is new, removed when one is gone and none is new. */
  lemma KindLabels(prev: seq<Rule>, next: seq<Rule>)
    ensures ExceptionAdded in Changes(prev, next) <==> SomeAdded(prev, next, ExceptionK)
    ensures PrerequisiteAdded in Changes(prev, next) <==> SomeAdded(prev, next, PrerequisiteK)
    ensures ProhibitionAdded in Changes(prev, next) <==> SomeAdded(prev, next, ProhibitionK)
    ensures ExceptionRemoved in Changes(prev, next) <==>
      SomeDropped(prev, next, ExceptionK) && !SomeAdded(prev, next, ExceptionK)
    ensures PrerequisiteRemoved in Changes(prev, next) <==>
      SomeDropped(prev, next, PrerequisiteK) && !SomeAdded(prev, next, PrerequisiteK)
  {
    forall l { LabelFrom(prev, next, l); }
    forall r | Added(prev, next, r) { AddedLabel(prev, next, r); }
    forall r | Dropped(prev, next, r) { RemovedLabel(prev, next, r); }
    hide Changes, LabelAdded, LabelRemoved;
  }

  /** The labels for obligations: added when an unconditional one is new, or a
      conditional one on whose action no rule was dropped; removed when an
      unconditional one is gone and no new rule is on its action. */
  lemma ObligationLabels(prev: seq<Rule>, next: seq<Rule>)
    ensures ObligationAdded in Changes(prev, next) <==>
      exists r :: Added(prev, next, r) &&
        (r.kind == ObligationK || (r.kind == ConditionalK && !Replaced(prev, next, r)))
    ensures ObligationRemoved in Changes(prev, next) <==>
      exists r :: Dropped(prev, next, r) && r.kind == ObligationK && !TakenOver(prev, next, r)
  {
    forall l { LabelFrom(prev, next, l); }
    forall r | Added(prev, next, r) { AddedLabel(prev, next, r); }
    forall r | Dropped(prev, next, r) { RemovedLabel(prev, next, r); }
    hide Changes, LabelAdded, LabelRemoved;
  }

  // ---- The old rule an added one is compared with --------------------------------------------

  // The last old rule of the same kind and action.
  predicate Last(prev: seq<Rule>, r: Rule, i: int) {
    0 <= i < |prev| && prev[i].kind == r.kind && prev[i].action == r.action
    && forall j :: i < j < |prev| ==> !(prev[j].kind == r.kind && prev[j].action == r.action)
  }

  predicate Fits(next: seq<Rule>, r: Rule, onField: bool, o: Rule) {
    o !in next && o.kind == r.kind && (onField ==> FieldOf(o) == FieldOf(r))
  }

  // The first old rule of the same kind that was dropped, among those on the field.
  predicate First(prev: seq<Rule>, next: seq<Rule>, r: Rule, onField: bool, i: int) {
    0 <= i < |prev| && Fits(next, r, onField, prev[i]) && forall j :: 0 <= j < i ==> !Fits(next, r, onField, prev[j])
  }

  lemma {:induction false} LastIs(prev: seq<Rule>, r: Rule)
    ensures LastOf(prev, r.kind, r.action).None? ==> forall i :: !Last(prev, r, i)
    ensures forall i :: Last(prev, r, i) ==> LastOf(prev, r.kind, r.action) == Some(prev[i])
    ensures LastOf(prev, r.kind, r.action).Some? ==> exists i :: Last(prev, r, i)
    decreases |prev|
  {
    if prev != [] {
      var n := |prev| - 1;
      var front := prev[..n];
      LastIs(front, r);
      if prev[n].kind == r.kind && prev[n].action == r.action {
        assert Last(prev, r, n);
      } else {
        forall i: int ensures Last(front, r, i) <==> Last(prev, r, i) {
          if Last(prev, r, i) { assert forall j :: i < j < n ==> front[j] == prev[j]; }
        }
      }
    }
  }

  lemma {:induction false} FirstIs(prev: seq<Rule>, next: seq<Rule>, r: Rule, onField: bool)
    ensures var o := FirstDropped(prev, next, r.kind, onField, if onField then FieldOf(r) else None);
      && (forall i :: First(prev, next, r, onField, i) ==> o == Some(prev[i]))
      && (o.Some? ==> exists i :: First(prev, next, r, onField, i))
    decreases |prev|
  {
    if prev != [] {
      var rest := prev[1..];
      FirstIs(rest, next, r, onField);
      if Fits(next, r, onField, prev[0]) {
        assert First(prev, next, r, onField, 0);
      } else {
        forall i: int ensures First(prev, next, r, onField, i) <==> i > 0 && First(rest, next, r, onField, i - 1) {
          if First(prev, next, r, onField, i) {
            forall j | 0 <= j < i - 1 ensures !Fits(next, r, onField, rest[j]) { assert rest[j] == prev[j + 1]; }
          }
        }
        var o := FirstDropped(prev, next, r.kind, onField, if onField then FieldOf(r) else None);
        if o.Some? {
          var i :| First(rest, next, r, onField, i);
          assert First(prev, next, r, onField, i + 1);
        }
      }
    }
  }

  // A threshold rule is compared with the last old one of its action when that one
  // is on its field, and otherwise with the first one dropped on its field.
  ghost predicate Compared(prev: seq<Rule>, next: seq<Rule>, r: Rule, o: Rule) {
    if exists i :: Last(prev, r, i) && FieldOf(prev[i]) == FieldOf(r)
    then exists i :: Last(prev, r, i) && o == prev[i]
    else exists i :: First(prev, next, r, true, i) && o == prev[i]
  }

  lemma ComparedIs(prev: seq<Rule>, next: seq<Rule>, r: Rule)
    requires r.kind == ThresholdK
    ensures forall o :: Compared(prev, next, r, o) ==> LabelAdded(prev, next, r) == ThresholdCmp(o, r)
    ensures (forall o :: !Compared(prev, next, r, o)) ==> LabelAdded(prev, next, r) == ThresholdAdded
  {
    LastIs(prev, r);
    FirstIs(prev, next, r, true);
    hide LastOf, FirstDropped, Last, First;
    var o := LastOf(prev, r.kind, r.action);
    if o.Some? {
      var i :| Last(prev, r, i);
      if FieldOf(o.value) == FieldOf(r) {
        assert Compared(prev, next, r, o.value);
      }
    }
    var ro := FirstDropped(prev, next, ThresholdK, true, FieldOf(r));
    if !(o.Some? && FieldOf(o.value) == FieldOf(r)) && ro.Some? {
      var i :| First(prev, next, r, true, i);
      assert Compared(prev, next, r, ro.value);
    }
  }

  // The new bound is in the direction of the old one, and its number is lower, or higher.
  predicate Shifted(o: Rule, r: Rule, up: bool) {
    && ValueOf(o).Some? && ValueOf(r).Some?
    && ((IsLower(o) && IsLower(r)) || (IsUpper(o) && IsUpper(r)))
    && if up then ValueOf(o).value < ValueOf(r).value else ValueOf(r).value < ValueOf(o).value
  }

  // Lowering a lower bound or raising an upper one lets more in.
  predicate Loosens(o: Rule, r: Rule) { Shifted(o, r, IsUpper(o)) }

  predicate Tightens(o: Rule, r: Rule) { Shifted(o, r, IsLower(o)) }

  lemma CmpMeans(o: Rule, r: Rule)
    ensures ThresholdCmp(o, r) == ThresholdRelaxed <==> Loosens(o, r)
    ensures ThresholdCmp(o, r) == ThresholdTightened <==> Tightens(o, r)
    ensures ThresholdCmp(o, r) in {ThresholdRelaxed, ThresholdTightened, ConditionChanged}
  {
  }

  ghost predicate NewThreshold(prev: seq<Rule>, next: seq<Rule>, r: Rule) {
    Added(prev, next, r) && r.kind == ThresholdK
  }

  lemma OnlyThresholds(prev: seq<Rule>, next: seq<Rule>, r: Rule)
    ensures LabelAdded(prev, next, r) in {ThresholdRelaxed, ThresholdTightened, ThresholdAdded} ==> r.kind == ThresholdK
    ensures LabelRemoved(prev, next, r).Some? ==>
      LabelRemoved(prev, next, r).value in {ObligationRemoved, ExceptionRemoved, PrerequisiteRemoved}
  {
    hide LastOf, FirstDropped, ThresholdCmp;
  }

  lemma ThresholdFrom(prev: seq<Rule>, next: seq<Rule>, l: Label)
    requires l in {ThresholdRelaxed, ThresholdTightened, ThresholdAdded}
    ensures l in Changes(prev, next) <==> exists r :: NewThreshold(prev, next, r) && LabelAdded(prev, next, r) == l
  {
    LabelFrom(prev, next, l);
    forall r { OnlyThresholds(prev, next, r); }
    hide Changes, LabelAdded, LabelRemoved;
    if r :| Added(prev, next, r) && LabelAdded(prev, next, r) == l { assert NewThreshold(prev, next, r); }
  }

  lemma NewLabel(prev: seq<Rule>, next: seq<Rule>, r: Rule)
    requires NewThreshold(prev, next, r)
    ensures var l := LabelAdded(prev, next, r);
      && (l == ThresholdRelaxed <==> exists o :: Compared(prev, next, r, o) && Loosens(o, r))
      && (l == ThresholdTightened <==> exists o :: Compared(prev, next, r, o) && Tightens(o, r))
      && (l == ThresholdAdded <==> forall o :: !Compared(prev, next, r, o))
  {
    ComparedIs(prev, next, r);
    forall o { CmpMeans(o, r); }
    hide LabelAdded, Compared, ThresholdCmp, Loosens, Tightens;
    if o :| Compared(prev, next, r, o) {
      assert LabelAdded(prev, next, r) == ThresholdCmp(o, r);
    }
  }

  /** The labels for thresholds: a new one is relaxed or tightened against the old
      rule it is compared with, or added when there is none. */
  lemma ThresholdLabels(prev: seq<Rule>, next: seq<Rule>)
    ensures ThresholdRelaxed in Changes(prev, next) <==>
      exists r, o :: NewThreshold(prev, next, r) && Compared(prev, next, r, o) && Loosens(o, r)
    ensures ThresholdTightened in Changes(prev, next) <==>
      exists r, o :: NewThreshold(prev, next, r) && Compared(prev, next, r, o) && Tightens(o, r)
    ensures ThresholdAdded in Changes(prev, next) <==>
      exists r :: NewThreshold(prev, next, r) && forall o :: !Compared(prev, next, r, o)
  {
    ThresholdFrom(prev, next, ThresholdRelaxed);
    ThresholdFrom(prev, next, ThresholdTightened);
    ThresholdFrom(prev, next, ThresholdAdded);
    forall r | NewThreshold(prev, next, r) { NewLabel(prev, next, r); }
    hide *;
  }

  lemma ConditionFrom(prev: seq<Rule>, next: seq<Rule>, r: Rule)
    requires Added(prev, next, r)
    ensures LabelAdded(prev, next, r) == ConditionChanged <==>
      || (r.kind == ConditionalK && Replaced(prev, next, r))
      || (r.kind == ThresholdK && exists o :: Compared(prev, next, r, o) && !Loosens(o, r) && !Tightens(o, r))
  {
    AddedLabel(prev, next, r);
    if r.kind == ThresholdK {
      ComparedIs(prev, next, r);
      forall o { CmpMeans(o, r); }
      hide LabelAdded, Compared, ThresholdCmp, Loosens, Tightens;
      if o :| Compared(prev, next, r, o) {
        assert LabelAdded(prev, next, r) == ThresholdCmp(o, r);
      }
    } else {
      hide LastOf, FirstDropped, Compared;
    }
  }

  /** CONDITION_CHANGED: a new conditional obligation on an action some rule of
      which was dropped, or a new threshold neither looser nor tighter than the
      old one it is compared with. */
  lemma ConditionLabel(prev: seq<Rule>, next: seq<Rule>)
    ensures ConditionChanged in Changes(prev, next) <==>
      || (exists r :: Added(prev, next, r) && r.kind == ConditionalK && Replaced(prev, next, r))
      || (exists r, o :: NewThreshold(prev, next, r) && Compared(prev, next, r, o) && !Loosens(o, r) && !Tightens(o, r))
  {
    LabelFrom(prev, next, ConditionChanged);
    forall r { OnlyThresholds(prev, next, r); }
    forall r | Added(prev, next, r) { ConditionFrom(prev, next, r); }
    forall r ensures NewThreshold(prev, next, r) <==> Added(prev, next, r) && r.kind == ThresholdK {}
    hide *;
  }

  // ---- Deadlines --------------------------------------------------------------------------------

  // The first deadline dropped, whatever it is on.
  ghost predicate AgainstDeadline(prev: seq<Rule>, next: seq<Rule>, r: Rule, o: Rule) {
    Added(prev, next, r) && r.kind == DeadlineK && exists i :: First(prev, next, r, false, i) && o == prev[i]
  }

  predicate Later(o: Rule, r: Rule) { ValueOf(o).Some? && ValueOf(r).Some? && ValueOf(o).value < ValueOf(r).value }

  lemma DeadlineIs(prev: seq<Rule>, next: seq<Rule>, r: Rule)
    requires Added(prev, next, r) && r.kind == DeadlineK
    ensures forall o :: AgainstDeadline(prev, next, r, o) ==>
      && (LabelAdded(prev, next, r) == DeadlineAdded <==> ValueOf(o) == ValueOf(r))
      && (LabelAdded(prev, next, r) == DeadlineExtended <==> Later(o, r))
    ensures (forall o :: !AgainstDeadline(prev, next, r, o)) ==> LabelAdded(prev, next, r) == DeadlineAdded
  {
    FirstIs(prev, next, r, false);
    var ro := FirstDropped(prev, next, DeadlineK, false, None);
    hide FirstDropped, First;
    if ro.Some? {
      var i :| First(prev, next, r, false, i);
      assert AgainstDeadline(prev, next, r, ro.value);
    }
  }

  lemma OnlyDeadlines(prev: seq<Rule>, next: seq<Rule>, r: Rule)
    ensures LabelAdded(prev, next, r) in {DeadlineExtended, DeadlineTightened, DeadlineAdded} <==> r.kind == DeadlineK
  {
    hide LastOf, FirstDropped, ThresholdCmp;
    forall o { CmpMeans(o, r); }
  }

  lemma DeadlineFrom(prev: seq<Rule>, next: seq<Rule>, l: Label)
    requires l in {DeadlineExtended, DeadlineTightened, DeadlineAdded}
    ensures l in Changes(prev, next) <==>
      exists r :: Added(prev, next, r) && r.kind == DeadlineK && LabelAdded(prev, next, r) == l
  {
    LabelFrom(prev, next, l);
    forall r { OnlyThresholds(prev, next, r); }
    forall r { OnlyDeadlines(prev, next, r); }
    hide Changes, LabelAdded, LabelRemoved;
  }

  lemma NewDeadline(prev: seq<Rule>, next: seq<Rule>, r: Rule)
    requires Added(prev, next, r) && r.kind == DeadlineK
    ensures var l := LabelAdded(prev, next, r);
      && (l == DeadlineExtended <==> exists o :: AgainstDeadline(prev, next, r, o) && Later(o, r))
      && (l == DeadlineTightened <==>
            exists o :: AgainstDeadline(prev, next, r, o) && ValueOf(o) != ValueOf(r) && !Later(o, r))
      && (l == DeadlineAdded <==> forall o :: AgainstDeadline(prev, next, r, o) ==> ValueOf(o) == ValueOf(r))
  {
    DeadlineIs(prev, next, r);
    OnlyDeadlines(prev, next, r);
    hide LabelAdded, AgainstDeadline;
    if o :| AgainstDeadline(prev, next, r, o) {
      hide Later, ValueOf;
    }
  }

  /** The labels for deadlines: a new one is compared with the first deadline
      dropped, by value alone. */
  lemma DeadlineLabels(prev: seq<Rule>, next: seq<Rule>)
    ensures DeadlineExtended in Changes(prev, next) <==>
      exists r, o :: AgainstDeadline(prev, next, r, o) && Later(o, r)
    ensures DeadlineTightened in Changes(prev, next) <==>
      exists r, o :: AgainstDeadline(prev, next, r, o) && ValueOf(o) != ValueOf(r) && !Later(o, r)
    ensures DeadlineAdded in Changes(prev, next) <==>
      exists r :: Added(prev, next, r) && r.kind == DeadlineK
        && forall o :: AgainstDeadline(prev, next, r, o) ==> ValueOf(o) == ValueOf(r)
  {
    DeadlineFrom(prev, next, DeadlineExtended);
    DeadlineFrom(prev, next, DeadlineTightened);
    DeadlineFrom(prev, next, DeadlineAdded);
    forall r: Rule | Added(prev, next, r) && r.kind == DeadlineK { NewDeadline(prev, next, r); }
    forall r, o | AgainstDeadline(prev, next, r, o) ensures Added(prev, next, r) && r.kind == DeadlineK {}
    hide *;
  }
}
