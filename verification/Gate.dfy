/** The human-gate callback (services/governance/store.py, lines 353-481): any
    number of workers arm, claim, decide, hand back, resume and finalize one
    record. Each write is a compare-and-set on the record's version. */
module Gate {
  type WorkerId = nat
  type Decision = nat

  const CLAIM_STALE: nat := 60

  // The decision is durable; a failed signal only adds a note beside it.
  datatype Output = Output(decision: Decision, resumeError: bool)

  datatype Status = Waiting | Deciding(at: nat) | Decided(resumed: bool, output: Output)

  // `arming` counts the times the gate was armed; it is part of the model only.
  datatype Rec = Rec(status: Status, ver: nat, arming: nat)

  datatype Phase =
    | Idle
    | Arming(basis: nat)
    | Read(seen: Rec)
    | Claimed(arming: nat, ver: nat)
    | Failed(arming: nat, ver: nat)
    | Sending(arming: nat, ver: nat, output: Output)
    | Finalizing(arming: nat, ver: nat, output: Output, sent: bool)

  datatype Applied = Applied(arming: nat, w: WorkerId, decision: Decision)

  datatype State = State(rec: Rec, now: nat, workers: map<WorkerId, Phase>, applied: seq<Applied>, reclaims: seq<nat>)

  datatype Signal = NoToken | Signalled | SignalFailed

  datatype Event =
    | Tick(delta: nat)
    | ArmRead(w: WorkerId)
    | ArmWrite(w: WorkerId)
    | Get(w: WorkerId)
    | Claim(w: WorkerId)
    | Apply(w: WorkerId, ok: bool, decision: Decision)
    | GiveBack(w: WorkerId)
    | Send(w: WorkerId, signal: Signal)
    | Finalize(w: WorkerId)
    | Crash(w: WorkerId)

  // A freshly armed gate.
  const ARMED := State(Rec(Waiting, 1, 0), 0, map[], [], [])

  function PhaseOf(s: State, w: WorkerId): Phase { if w in s.workers then s.workers[w] else Idle }

  function Become(s: State, w: WorkerId, p: Phase): State { s.(workers := s.workers[w := p]) }

  function ClaimStep(s: State, w: WorkerId, seen: Rec): State {
    match seen.status
    case Decided(_, output) => Become(s, w, Sending(seen.arming, seen.ver, output))
    case _ =>
      if seen.status.Deciding? && s.now < seen.status.at + CLAIM_STALE then Become(s, w, Idle)
      else if s.rec.ver != seen.ver then Become(s, w, Idle)
      else Become(s, w, Claimed(s.rec.arming, s.rec.ver + 1))
           .(rec := Rec(Deciding(s.now), s.rec.ver + 1, s.rec.arming),
             reclaims := if seen.status.Deciding? then s.reclaims + [s.rec.arming] else s.reclaims)
  }

  // A compare-and-set that returns the worker to idle either way.
  function Swap(s: State, w: WorkerId, basis: nat, status: Status, arming: nat): State {
    if s.rec.ver == basis then Become(s, w, Idle).(rec := Rec(status, s.rec.ver + 1, arming))
    else Become(s, w, Idle)
  }

  function Step(s: State, e: Event): State {
    match e
    case Tick(delta) => s.(now := s.now + delta)
    case ArmRead(w) => Become(s, w, Arming(s.rec.ver))
    case ArmWrite(w) =>
      var p := PhaseOf(s, w);
      if p.Arming? then Swap(s, w, p.basis, Waiting, s.rec.arming + 1) else s
    case Get(w) => Become(s, w, Read(s.rec))
    case Claim(w) =>
      var p := PhaseOf(s, w);
      if p.Read? then ClaimStep(s, w, p.seen) else s
    case Apply(w, ok, d) =>
      var p := PhaseOf(s, w);
      if !p.Claimed? then s
      else if ok then
        Become(s, w, Sending(p.arming, p.ver, Output(d, false))).(applied := s.applied + [Applied(p.arming, w, d)])
      else Become(s, w, Failed(p.arming, p.ver))
    case GiveBack(w) =>
      var p := PhaseOf(s, w);
      if p.Failed? then Swap(s, w, p.ver, Waiting, s.rec.arming) else s
    case Send(w, signal) =>
      var p := PhaseOf(s, w);
      if !p.Sending? then s
      else Become(s, w, Finalizing(p.arming, p.ver,
                                   if signal.SignalFailed? then p.output.(resumeError := true) else p.output,
                                   signal.Signalled?))
    case Finalize(w) =>
      var p := PhaseOf(s, w);
      if p.Finalizing? then Swap(s, w, p.ver, Decided(p.sent, p.output), s.rec.arming) else s
    case Crash(w) => Become(s, w, Idle)
  }

  function Run(s: State, es: seq<Event>): State {
    if es == [] then s else Step(Run(s, es[..|es| - 1]), es[|es| - 1])
  }

  // ---- Counting ------------------------------------------------------------------

  function AppliedIn(log: seq<Applied>, a: nat): nat {
    if log == [] then 0 else AppliedIn(log[..|log| - 1], a) + if log[|log| - 1].arming == a then 1 else 0
  }

  function ReclaimsIn(log: seq<nat>, a: nat): nat {
    if log == [] then 0 else ReclaimsIn(log[..|log| - 1], a) + if log[|log| - 1] == a then 1 else 0
  }

  // A claim that has not been decided or handed back yet.
  predicate Live(p: Phase, a: nat) { (p.Claimed? || p.Failed?) && p.arming == a }

  function LiveIn(ws: map<WorkerId, Phase>, a: nat): set<WorkerId> { set w | w in ws && Live(ws[w], a) }

  lemma CardAfter(before: set<WorkerId>, after: set<WorkerId>, w: WorkerId)
    requires after - {w} == before - {w}
    ensures |after| == |before| - (if w in before then 1 else 0) + (if w in after then 1 else 0)
  {
    if w in before { assert before == (before - {w}) + {w}; } else { assert before == before - {w}; }
    if w in after { assert after == (after - {w}) + {w}; } else { assert after == after - {w}; }
  }

  lemma LiveChange(ws: map<WorkerId, Phase>, w: WorkerId, p: Phase, a: nat)
    ensures |LiveIn(ws[w := p], a)| ==
      |LiveIn(ws, a)| - (if w in ws && Live(ws[w], a) then 1 else 0) + (if Live(p, a) then 1 else 0)
  {
    var before, after := LiveIn(ws, a), LiveIn(ws[w := p], a);
    forall k ensures k in after - {w} <==> k in before - {w} {}
    CardAfter(before, after, w);
  }

  // ---- The invariant ---------------------------------------------------------------

  ghost predicate WasApplied(s: State, a: nat, d: Decision) {
    exists x :: x in s.applied && x.arming == a && x.decision == d
  }

  ghost predicate PhaseOk(s: State, p: Phase) {
    match p
    case Idle => true
    case Arming(v) => v <= s.rec.ver
    case Read(seen) =>
      && seen.ver <= s.rec.ver && seen.arming <= s.rec.arming
      && (seen.ver == s.rec.ver ==> seen == s.rec)
      && (seen.status.Decided? ==> WasApplied(s, seen.arming, seen.status.output.decision))
    case Claimed(a, v) =>
      v <= s.rec.ver && a <= s.rec.arming && (v == s.rec.ver ==> s.rec.status.Deciding? && s.rec.arming == a)
    case Failed(a, v) =>
      v <= s.rec.ver && a <= s.rec.arming && (v == s.rec.ver ==> s.rec.status.Deciding? && s.rec.arming == a)
    case Sending(a, v, o) => OutputOk(s, a, v, o)
    case Finalizing(a, v, o, _) => OutputOk(s, a, v, o)
  }

  ghost predicate OutputOk(s: State, a: nat, v: nat, o: Output) {
    && v <= s.rec.ver && a <= s.rec.arming && WasApplied(s, a, o.decision)
    && (v == s.rec.ver ==> s.rec.arming == a && !s.rec.status.Waiting?)
    && (v == s.rec.ver && s.rec.status.Decided? ==> s.rec.status.output.decision == o.decision)
  }

  ghost predicate Bounded(s: State, a: nat) {
    AppliedIn(s.applied, a) + |LiveIn(s.workers, a)| <= 1 + ReclaimsIn(s.reclaims, a)
  }

  ghost predicate Unspent(s: State, a: nat) {
    AppliedIn(s.applied, a) + |LiveIn(s.workers, a)| <= ReclaimsIn(s.reclaims, a)
  }

  // A gate still waiting, and one not armed yet, have no decision to their name.
  ghost predicate CountsAt(s: State, a: nat) {
    && Bounded(s, a)
    && (a > s.rec.arming || (a == s.rec.arming && s.rec.status.Waiting?) ==> Unspent(s, a))
  }

  ghost predicate Counts(s: State) { forall a: nat :: CountsAt(s, a) }

  ghost predicate Inv(s: State) {
    && (forall w :: w in s.workers ==> PhaseOk(s, s.workers[w]))
    && (s.rec.status.Decided? ==> WasApplied(s, s.rec.arming, s.rec.status.output.decision))
    && Counts(s)
  }

  // ---- Every step keeps it -----------------------------------------------------------

  // The record is untouched or has moved on to a new version.
  ghost predicate Later(s: State, t: State) {
    && (t.rec == s.rec || t.rec.ver > s.rec.ver)
    && t.rec.arming >= s.rec.arming
    && s.applied <= t.applied
  }

  lemma AppliedLater(s: State, t: State, a: nat, d: Decision)
    requires s.applied <= t.applied && WasApplied(s, a, d)
    ensures WasApplied(t, a, d)
  {
    var x :| x in s.applied && x.arming == a && x.decision == d;
    assert x in t.applied;
  }

  lemma PhaseLater(s: State, t: State, p: Phase)
    requires PhaseOk(s, p) && Later(s, t)
    ensures PhaseOk(t, p)
  {
    match p {
      case Read(seen) =>
        if seen.status.Decided? { AppliedLater(s, t, seen.arming, seen.status.output.decision); }
      case Sending(a, v, o) => AppliedLater(s, t, a, o.decision);
      case Finalizing(a, v, o, _) => AppliedLater(s, t, a, o.decision);
      case _ =>
    }
  }

  ghost predicate PhasesOk(s: State) { forall w :: w in s.workers ==> PhaseOk(s, s.workers[w]) }

  // Only worker w has changed phase.
  lemma OthersLater(s: State, t: State, w: WorkerId, p: Phase)
    requires PhasesOk(s) && Later(s, t) && t.workers == s.workers[w := p] && PhaseOk(t, p)
    ensures PhasesOk(t)
  {
    forall k | k in t.workers ensures PhaseOk(t, t.workers[k]) {
      if k != w {
        PhaseLater(s, t, s.workers[k]);
      }
    }
  }

  lemma AppliedSnoc(log: seq<Applied>, x: Applied, a: nat)
    ensures AppliedIn(log + [x], a) == AppliedIn(log, a) + if x.arming == a then 1 else 0
  {
    assert (log + [x])[..|log|] == log;
  }

  lemma ReclaimSnoc(log: seq<nat>, x: nat, a: nat)
    ensures ReclaimsIn(log + [x], a) == ReclaimsIn(log, a) + if x == a then 1 else 0
  {
    assert (log + [x])[..|log|] == log;
  }

  // The counts of one arming before and after worker w moves from phase p to q.
  lemma CountMove(s: State, t: State, w: WorkerId, q: Phase, a: nat)
    requires t.workers == s.workers[w := q]
    ensures |LiveIn(t.workers, a)| ==
      |LiveIn(s.workers, a)| - (if Live(PhaseOf(s, w), a) then 1 else 0) + (if Live(q, a) then 1 else 0)
  {
    LiveChange(s.workers, w, q, a);
  }

  // Steps that claim nothing and apply nothing.
  lemma QuietCounts(s: State, t: State, w: WorkerId, q: Phase)
    requires Inv(s) && t.workers == s.workers[w := q] && !q.Claimed? && !q.Failed?
    requires t.applied == s.applied && t.reclaims == s.reclaims && t.rec.arming >= s.rec.arming
    requires t.rec.status.Waiting? ==>
      t.rec == s.rec || t.rec.arming > s.rec.arming ||
        (t.rec.arming == s.rec.arming && Live(PhaseOf(s, w), s.rec.arming))
    ensures Counts(t)
  {
    forall a: nat ensures CountsAt(t, a) {
      CountMove(s, t, w, q, a);
      assert CountsAt(s, a);
    }
  }

  lemma QuietStep(s: State, e: Event)
    requires Inv(s) && (e.ArmRead? || e.ArmWrite? || e.Get? || e.GiveBack? || e.Send? || e.Finalize? || e.Crash?)
    ensures Inv(Step(s, e))
  {
    var t, p := Step(s, e), PhaseOf(s, e.w);
    assert PhaseOk(s, p);
    if t != s {
      var q := PhaseOf(t, e.w);
      OthersLater(s, t, e.w, q);
      QuietCounts(s, t, e.w, q);
      if t.rec.status.Decided? {
        var o := if t.rec == s.rec then s.rec.status.output else p.output;
        AppliedLater(s, t, t.rec.arming, o.decision);
      }
    }
  }

  lemma ClaimKeeps(s: State, w: WorkerId)
    requires Inv(s)
    ensures Inv(Step(s, Claim(w)))
  {
    var t, p := Step(s, Claim(w)), PhaseOf(s, w);
    assert PhaseOk(s, p);
    if t != s {
      var q := PhaseOf(t, w);
      OthersLater(s, t, w, q);
      if q.Claimed? {
        forall a: nat ensures CountsAt(t, a) {
          CountMove(s, t, w, q, a);
          if p.seen.status.Deciding? { ReclaimSnoc(s.reclaims, s.rec.arming, a); }
          assert CountsAt(s, a);
        }
      } else {
        QuietCounts(s, t, w, q);
      }
    }
  }

  lemma ApplyKeeps(s: State, w: WorkerId, ok: bool, d: Decision)
    requires Inv(s)
    ensures Inv(Step(s, Apply(w, ok, d)))
  {
    var t, p := Step(s, Apply(w, ok, d)), PhaseOf(s, w);
    assert PhaseOk(s, p);
    if t != s {
      var q := PhaseOf(t, w);
      if ok {
        assert Applied(p.arming, w, d) in t.applied;
      }
      OthersLater(s, t, w, q);
      if t.rec.status.Decided? {
        AppliedLater(s, t, t.rec.arming, t.rec.status.output.decision);
      }
      forall a: nat ensures CountsAt(t, a) {
        CountMove(s, t, w, q, a);
        if ok { AppliedSnoc(s.applied, Applied(p.arming, w, d), a); }
        assert CountsAt(s, a);
      }
    }
  }

  lemma TickKeeps(s: State, delta: nat)
    requires Inv(s)
    ensures Inv(Step(s, Tick(delta)))
  {
    var t := Step(s, Tick(delta));
    forall w | w in t.workers ensures PhaseOk(t, t.workers[w]) {
      PhaseLater(s, t, s.workers[w]);
    }
    if t.rec.status.Decided? {
      AppliedLater(s, t, t.rec.arming, t.rec.status.output.decision);
    }
    forall a: nat ensures CountsAt(t, a) { assert CountsAt(s, a); }
  }

  lemma StepKeeps(s: State, e: Event)
    requires Inv(s)
    ensures Inv(Step(s, e))
  {
    match e {
      case Tick(delta) => TickKeeps(s, delta);
      case Claim(w) => ClaimKeeps(s, w);
      case Apply(w, ok, d) => ApplyKeeps(s, w, ok, d);
      case _ => QuietStep(s, e);
    }
  }

  lemma {:induction false} RunKeeps(es: seq<Event>)
    ensures Inv(Run(ARMED, es))
    decreases |es|
  {
    if es == [] {
      assert forall a: nat :: LiveIn(map[], a) == {};
    } else {
      RunKeeps(es[..|es| - 1]);
      StepKeeps(Run(ARMED, es[..|es| - 1]), es[|es| - 1]);
    }
  }

  // ---- What holds of every run ---------------------------------------------------------

  /** Over every interleaving, with crashes, an arming sees at most one applied
      decision more than it has stale claims taken over; with none taken over,
      at most one decision is ever applied. */
  lemma AtMostOneDecision(es: seq<Event>, a: nat)
    ensures AppliedIn(Run(ARMED, es).applied, a) <= 1 + ReclaimsIn(Run(ARMED, es).reclaims, a)
  {
    RunKeeps(es);
    assert CountsAt(Run(ARMED, es), a);
  }

  lemma CountPositive(log: seq<Applied>, x: Applied)
    requires x in log
    ensures AppliedIn(log, x.arming) >= 1
  {
    if log[|log| - 1] != x {
      assert log == log[..|log| - 1] + [log[|log| - 1]];
      CountPositive(log[..|log| - 1], x);
    }
  }

  lemma CountTwo(log: seq<Applied>, x: Applied, y: Applied)
    requires x in log && y in log && x != y && x.arming == y.arming
    ensures AppliedIn(log, x.arming) >= 2
  {
    var n := |log| - 1;
    assert log == log[..n] + [log[n]];
    if log[n] == x {
      CountPositive(log[..n], y);
    } else if log[n] == y {
      CountPositive(log[..n], x);
    } else {
      CountTwo(log[..n], x, y);
    }
  }

  /** In an arming without stale claims, a decided record holds the one decision
      applied, and no worker is left that could apply another. */
  lemma DecidedIsFinal(es: seq<Event>, x: Applied)
    requires var s := Run(ARMED, es); s.rec.status.Decided? && ReclaimsIn(s.reclaims, s.rec.arming) == 0
    requires var s := Run(ARMED, es); x in s.applied && x.arming == s.rec.arming
    ensures var s := Run(ARMED, es); x.decision == s.rec.status.output.decision && LiveIn(s.workers, s.rec.arming) == {}
  {
    RunKeeps(es);
    var s := Run(ARMED, es);
    var y :| y in s.applied && y.arming == s.rec.arming && y.decision == s.rec.status.output.decision;
    if x != y {
      CountTwo(s.applied, x, y);
    }
    CountPositive(s.applied, y);
    assert CountsAt(s, s.rec.arming);
  }

  /** Once decided, the record keeps its decision until the gate is armed again,
      and a resume that reads it applies nothing and signals that same decision. */
  lemma DecisionSticks(es: seq<Event>, e: Event)
    requires Run(ARMED, es).rec.status.Decided?
    ensures var s, t := Run(ARMED, es), Step(Run(ARMED, es), e);
      && (t.rec.arming == s.rec.arming ==>
            t.rec.status.Decided? && t.rec.status.output.decision == s.rec.status.output.decision)
      && (e.Claim? && PhaseOf(s, e.w) == Read(s.rec) ==>
            t.applied == s.applied && t.rec == s.rec
              && PhaseOf(t, e.w) == Sending(s.rec.arming, s.rec.ver, s.rec.status.output))
  {
    RunKeeps(es);
    var s := Run(ARMED, es);
    if !e.Tick? {
      assert PhaseOk(s, PhaseOf(s, e.w));
    }
  }

  /** While a decision is in progress the record changes only by the claim's own
      holder, by taking over a claim gone stale, or by arming the gate again; a
      failed decision gives the gate back. */
  lemma OnlyHolderMoves(es: seq<Event>, e: Event)
    requires Run(ARMED, es).rec.status.Deciding?
    ensures var s, t := Run(ARMED, es), Step(Run(ARMED, es), e);
      t.rec != s.rec ==>
        || (e.GiveBack? && PhaseOf(s, e.w) == Failed(s.rec.arming, s.rec.ver)
          && t.rec.status == Waiting && t.rec.arming == s.rec.arming)
        || (e.Finalize? && PhaseOf(s, e.w).Finalizing? && PhaseOf(s, e.w).ver == s.rec.ver && t.rec.status.Decided?
            && WasApplied(s, s.rec.arming, t.rec.status.output.decision))
        || (e.Claim? && s.now >= s.rec.status.at + 60 && t.reclaims == s.reclaims + [s.rec.arming])
        || (e.ArmWrite? && t.rec.arming == s.rec.arming + 1)
  {
    RunKeeps(es);
    var s := Run(ARMED, es);
    if !e.Tick? {
      assert PhaseOk(s, PhaseOf(s, e.w));
    }
  }

  // A worker that owns the outcome of a claim: it may hand back or finalize.
  predicate Owns(p: Phase, v: nat) {
    (p.Claimed? && p.ver == v) || (p.Failed? && p.ver == v)
      || (p.Sending? && p.ver == v) || (p.Finalizing? && p.ver == v)
  }

  ghost predicate OneOwner(s: State) {
    s.rec.status.Deciding? ==>
      forall w, k | w in s.workers && k in s.workers ::
        Owns(s.workers[w], s.rec.ver) && Owns(s.workers[k], s.rec.ver) ==> w == k
  }

  lemma OneOwnerStep(s: State, e: Event)
    requires Inv(s) && OneOwner(s)
    ensures OneOwner(Step(s, e))
  {
    if !e.Tick? {
      assert PhaseOk(s, PhaseOf(s, e.w));
      forall w | w in s.workers ensures Owns(s.workers[w], s.rec.ver + 1) == false { assert PhaseOk(s, s.workers[w]); }
    }
  }

  /** A claim in progress has at most one holder. */
  lemma {:induction false} ClaimHasOneHolder(es: seq<Event>)
    ensures OneOwner(Run(ARMED, es))
    decreases |es|
  {
    if es != [] {
      ClaimHasOneHolder(es[..|es| - 1]);
      RunKeeps(es[..|es| - 1]);
      OneOwnerStep(Run(ARMED, es[..|es| - 1]), es[|es| - 1]);
    }
  }

  // A first decision, and then k more workers that each find the claim stale.
  function StaleRun(k: nat): seq<Event> {
    if k == 0 then [Get(1), Claim(1), Apply(1, true, 0)]
    else StaleRun(k - 1) + [Tick(CLAIM_STALE), Get(k + 1), Claim(k + 1), Apply(k + 1, true, k)]
  }

  lemma RunOne(s: State, es: seq<Event>, e: Event)
    ensures Run(s, es + [e]) == Step(Run(s, es), e)
  {
    assert (es + [e])[..|es|] == es;
  }

  lemma RunFour(s: State, es: seq<Event>, a: Event, b: Event, c: Event, d: Event)
    ensures Run(s, es + [a, b, c, d]) == Step(Step(Step(Step(Run(s, es), a), b), c), d)
  {
    hide Run, Step;
    RunOne(s, es, a);
    RunOne(s, es + [a], b);
    RunOne(s, es + [a] + [b], c);
    RunOne(s, es + [a] + [b] + [c], d);
    assert es + [a] + [b] + [c] + [d] == es + [a, b, c, d];
  }

  lemma TakeOver(s: State, w: WorkerId, d: Decision)
    requires s.rec.status.Deciding? && s.rec.status.at <= s.now
    ensures var t := Step(Step(Step(Step(s, Tick(CLAIM_STALE)), Get(w)), Claim(w)), Apply(w, true, d));
      && t.rec.status.Deciding? && t.rec.status.at <= t.now && t.rec.arming == s.rec.arming
      && t.applied == s.applied + [Applied(s.rec.arming, w, d)] && t.reclaims == s.reclaims + [s.rec.arming]
  {
    var s1 := Step(s, Tick(CLAIM_STALE));
    var s2 := Step(s1, Get(w));
    assert PhaseOf(s2, w) == Read(s.rec);
    var s3 := Step(s2, Claim(w));
    assert PhaseOf(s3, w) == Claimed(s.rec.arming, s.rec.ver + 1);
  }

  lemma FirstDecision()
    ensures var t := Run(ARMED, StaleRun(0));
      t.rec.status.Deciding? && t.rec.status.at <= t.now && t.rec.arming == 0
      && t.applied == [Applied(0, 1, 0)] && t.reclaims == []
  {
    RunOne(ARMED, [], Get(1));
    RunOne(ARMED, [Get(1)], Claim(1));
    RunOne(ARMED, [Get(1), Claim(1)], Apply(1, true, 0));
    assert [] + [Get(1)] == [Get(1)] && [Get(1)] + [Claim(1)] == [Get(1), Claim(1)];
    assert [Get(1), Claim(1)] + [Apply(1, true, 0)] == StaleRun(0);
    var s1 := Step(ARMED, Get(1));
    assert PhaseOf(s1, 1) == Read(ARMED.rec);
  }

  lemma {:induction false} StaleRunCounts(k: nat)
    ensures var t := Run(ARMED, StaleRun(k));
      && t.rec.status.Deciding? && t.rec.status.at <= t.now && t.rec.arming == 0
      && AppliedIn(t.applied, 0) == k + 1 && ReclaimsIn(t.reclaims, 0) == k
  {
    if k == 0 {
      FirstDecision();
      AppliedSnoc([], Applied(0, 1, 0), 0);
      assert [] + [Applied(0, 1, 0)] == [Applied(0, 1, 0)];
    } else {
      StaleRunCounts(k - 1);
      hide Run, Step;
      var s := Run(ARMED, StaleRun(k - 1));
      RunFour(ARMED, StaleRun(k - 1), Tick(CLAIM_STALE), Get(k + 1), Claim(k + 1), Apply(k + 1, true, k));
      TakeOver(s, k + 1, k);
      AppliedSnoc(s.applied, Applied(0, k + 1, k), 0);
      ReclaimSnoc(s.reclaims, 0, 0);
    }
  }

  /** The bound is exact: for every k there is a run in which k claims go stale
      and are taken over and k + 1 decisions are applied to one arming. */
  lemma BoundIsMet(k: nat)
    ensures exists es :: AppliedIn(Run(ARMED, es).applied, 0) == k + 1 && ReclaimsIn(Run(ARMED, es).reclaims, 0) == k
  {
    StaleRunCounts(k);
  }

  /** In particular one claim taken over after it went stale lets two different
      decisions be applied to one arming. */
  lemma StaleClaimAppliesTwice()
    ensures exists es, x, y :: var s := Run(ARMED, es);
      && x in s.applied && y in s.applied && x.arming == y.arming && x.decision != y.decision
      && ReclaimsIn(s.reclaims, x.arming) == 1
  {
    hide Run, Step;
    StaleRunCounts(1);
    FirstDecision();
    var s := Run(ARMED, StaleRun(0));
    RunFour(ARMED, StaleRun(0), Tick(CLAIM_STALE), Get(2), Claim(2), Apply(2, true, 1));
    assert StaleRun(1) == StaleRun(0) + [Tick(CLAIM_STALE), Get(2), Claim(2), Apply(2, true, 1)];
    TakeOver(s, 2, 1);
    var t := Run(ARMED, StaleRun(1));
    assert t.applied == [Applied(0, 1, 0)] + [Applied(0, 2, 1)];
    assert Applied(0, 1, 0) in t.applied && Applied(0, 2, 1) in t.applied;
  }
}
