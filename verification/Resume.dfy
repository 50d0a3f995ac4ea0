/** What a resume of a human gate brings about (services/governance/store.py,
    lines 424-481): a claim that is neither outlived nor overtaken by a new arming
    ends with the decision it applied on record, whatever other workers do. */
module Resume {
  import opened Gate

  // ---- A claim in good hands ---------------------------------------------------------------

  // Worker w is in phase p of the claim in progress.
  ghost predicate Holds(s: State, w: WorkerId, p: Phase) {
    Inv(s) && OneOwner(s) && s.rec.status.Deciding? && w in s.workers && s.workers[w] == p && Owns(p, s.rec.ver)
  }

  // Other workers read, claim, decide, hand back, finalize and crash as they like,
  // but the gate is not armed anew.
  predicate Aside(es: seq<Event>, w: WorkerId) {
    forall e :: e in es ==> e.Tick? || (e.w != w && !e.ArmWrite?)
  }

  lemma AsideStep(s: State, e: Event, w: WorkerId, p: Phase)
    requires Holds(s, w, p) && (e.Tick? || (e.w != w && !e.ArmWrite?))
    requires Step(s, e).now < s.rec.status.at + CLAIM_STALE
    ensures Step(s, e).rec == s.rec && Holds(Step(s, e), w, p)
  {
    StepKeeps(s, e);
    OneOwnerStep(s, e);
    if !e.Tick? {
      assert PhaseOk(s, PhaseOf(s, e.w));
    }
  }

  lemma NowGrows(s: State, e: Event)
    ensures s.now <= Step(s, e).now
  {
  }

  /** While the claim is fresh no other worker's step touches the record or the
      claim's holder. */
  lemma {:induction false} ClaimIsSafe(s: State, es: seq<Event>, w: WorkerId, p: Phase)
    requires Holds(s, w, p) && Aside(es, w) && Run(s, es).now < s.rec.status.at + CLAIM_STALE
    ensures Run(s, es).rec == s.rec && Holds(Run(s, es), w, p)
    decreases |es|
  {
    if es != [] {
      var n := |es| - 1;
      assert es == es[..n] + [es[n]] && es[n] in es;
      NowGrows(Run(s, es[..n]), es[n]);
      ClaimIsSafe(s, es[..n], w, p);
      AsideStep(Run(s, es[..n]), es[n], w, p);
    }
  }

  // ---- The holder's own steps ----------------------------------------------------------------

  // The gate waits, or its claim is a minute old and has gone stale.
  predicate Claimable(s: State) {
    s.rec.status.Waiting? || (s.rec.status.Deciding? && s.now >= s.rec.status.at + 60)
  }

  lemma ClaimTaken(es: seq<Event>, w: WorkerId)
    requires Claimable(Run(ARMED, es))
    ensures var s := Run(ARMED, es); var t := Step(Step(s, Get(w)), Claim(w));
      && t.rec == Rec(Deciding(s.now), s.rec.ver + 1, s.rec.arming)
      && Holds(t, w, Claimed(s.rec.arming, t.rec.ver)) && t.applied == s.applied && t.now == s.now
  {
    RunKeeps(es);
    ClaimHasOneHolder(es);
    var s := Run(ARMED, es);
    StepKeeps(s, Get(w));
    OneOwnerStep(s, Get(w));
    StepKeeps(Step(s, Get(w)), Claim(w));
    OneOwnerStep(Step(s, Get(w)), Claim(w));
  }

  lemma Applying(s: State, w: WorkerId, a: nat, ok: bool, d: Decision)
    requires Holds(s, w, Claimed(a, s.rec.ver))
    ensures var t := Step(s, Apply(w, ok, d));
      && t.rec == s.rec && t.now == s.now
      && t.applied == s.applied + (if ok then [Gate.Applied(a, w, d)] else [])
      && Holds(t, w, if ok then Sending(a, s.rec.ver, Output(d, false)) else Failed(a, s.rec.ver))
  {
    StepKeeps(s, Apply(w, ok, d));
    OneOwnerStep(s, Apply(w, ok, d));
  }

  lemma Signalling(s: State, w: WorkerId, a: nat, d: Decision, signal: Signal)
    requires Holds(s, w, Sending(a, s.rec.ver, Output(d, false)))
    ensures var t := Step(s, Send(w, signal));
      && t.rec == s.rec && t.now == s.now
      && Holds(t, w, Finalizing(a, s.rec.ver, Output(d, signal == SignalFailed), signal == Signalled))
  {
    StepKeeps(s, Send(w, signal));
    OneOwnerStep(s, Send(w, signal));
  }

  /** A worker that finalizes at the record's version leaves the record decided
      with the very output it holds, in the same arming. */
  lemma FinalizeRecords(s: State, w: WorkerId)
    requires PhaseOf(s, w).Finalizing? && PhaseOf(s, w).ver == s.rec.ver
    ensures var p, t := PhaseOf(s, w), Step(s, Finalize(w));
      && t.rec == Rec(Decided(p.sent, p.output), s.rec.ver + 1, s.rec.arming)
      && t.applied == s.applied && PhaseOf(t, w) == Idle
  {
  }

  /** A worker whose decision failed gives the gate back, waiting, in the same arming. */
  lemma FailureGivesBack(s: State, w: WorkerId)
    requires PhaseOf(s, w).Failed? && PhaseOf(s, w).ver == s.rec.ver
    ensures var t := Step(s, GiveBack(w));
      && t.rec == Rec(Waiting, s.rec.ver + 1, s.rec.arming) && t.applied == s.applied && PhaseOf(t, w) == Idle
  {
  }

  /** A gate armed again waits in a new arming. */
  lemma ArmedAnew(s: State, w: WorkerId)
    ensures var t := Step(Step(s, ArmRead(w)), ArmWrite(w));
      && t.rec == Rec(Waiting, s.rec.ver + 1, s.rec.arming + 1) && t.applied == s.applied
  {
  }

  /** A worker that crashed has lost its claim: nothing it had under way goes on. */
  lemma CrashEndsIt(s: State, e: Event)
    requires e.Claim? || e.Apply? || e.GiveBack? || e.Send? || e.Finalize? || e.ArmWrite?
    ensures var t := Step(s, Crash(e.w)); Step(t, e) == t && t.rec == s.rec && t.applied == s.applied
  {
  }

  // ---- A whole resume --------------------------------------------------------------------------

  // The steps of a resume that decides d, with what others do in between.
  function Resumed(s: State, w: WorkerId, d: Decision, signal: Signal,
      e1: seq<Event>, e2: seq<Event>, e3: seq<Event>): State {
    var claimed := Run(Step(Step(s, Get(w)), Claim(w)), e1);
    var decided := Run(Step(claimed, Apply(w, true, d)), e2);
    Run(Step(decided, Send(w, signal)), e3)
  }

  lemma {:induction false} LaterNow(s: State, es: seq<Event>)
    ensures s.now <= Run(s, es).now
    decreases |es|
  {
    if es != [] {
      LaterNow(s, es[..|es| - 1]);
      NowGrows(Run(s, es[..|es| - 1]), es[|es| - 1]);
    }
  }

  /** From any state a run can reach in which the gate waits, or its claim has gone
      stale: a worker that claims it, decides, signals and finalizes before its own
      claim goes stale leaves the record decided with that decision, and with
      whether the signal went out, however other workers interleave. */
  lemma ResumeRecords(es: seq<Event>, w: WorkerId, d: Decision, signal: Signal,
      e1: seq<Event>, e2: seq<Event>, e3: seq<Event>)
    requires Claimable(Run(ARMED, es))
    requires Aside(e1, w) && Aside(e2, w) && Aside(e3, w)
    requires Resumed(Run(ARMED, es), w, d, signal, e1, e2, e3).now < Run(ARMED, es).now + CLAIM_STALE
    ensures var s := Run(ARMED, es); var t := Step(Resumed(s, w, d, signal, e1, e2, e3), Finalize(w));
      && t.rec == Rec(Decided(signal == Signalled, Output(d, signal == SignalFailed)), s.rec.ver + 2, s.rec.arming)
      && WasApplied(t, s.rec.arming, d)
  {
    hide Step, Run, Inv, OneOwner;
    var s := Run(ARMED, es);
    ClaimTaken(es, w);
    var s1 := Step(Step(s, Get(w)), Claim(w));
    var t1 := Run(s1, e1);
    var s2 := Step(t1, Apply(w, true, d));
    var t2 := Run(s2, e2);
    var s3 := Step(t2, Send(w, signal));
    var t3 := Run(s3, e3);
    LaterNow(s1, e1);
    NowGrows(t1, Apply(w, true, d));
    LaterNow(s2, e2);
    NowGrows(t2, Send(w, signal));
    LaterNow(s3, e3);
    ClaimIsSafe(s1, e1, w, Claimed(s.rec.arming, s1.rec.ver));
    Applying(t1, w, s.rec.arming, true, d);
    ClaimIsSafe(s2, e2, w, Sending(s.rec.arming, s1.rec.ver, Output(d, false)));
    Signalling(t2, w, s.rec.arming, d, signal);
    var output := Output(d, signal == SignalFailed);
    ClaimIsSafe(s3, e3, w, Finalizing(s.rec.arming, s1.rec.ver, output, signal == Signalled));
    FinalizeRecords(t3, w);
    StillApplied(t3, w, s.rec.arming, d);
  }

  // Whoever holds an output holds a decision that was applied.
  lemma StillApplied(s: State, w: WorkerId, a: nat, d: Decision)
    requires Inv(s) && w in s.workers && s.workers[w].Finalizing?
    requires s.workers[w].arming == a && s.workers[w].output.decision == d
    ensures WasApplied(Step(s, Finalize(w)), a, d)
  {
    assert PhaseOk(s, s.workers[w]);
    AppliedLater(s, Step(s, Finalize(w)), a, d);
  }

  /** When the decision fails instead, the gate waits again in the same arming for
      the next attempt. */
  lemma FailedResumeWaits(es: seq<Event>, w: WorkerId, d: Decision, e1: seq<Event>, e2: seq<Event>)
    requires Claimable(Run(ARMED, es))
    requires Aside(e1, w) && Aside(e2, w)
    requires var t1 := Run(Step(Step(Run(ARMED, es), Get(w)), Claim(w)), e1);
      Run(Step(t1, Apply(w, false, d)), e2).now < Run(ARMED, es).now + CLAIM_STALE
    ensures var s := Run(ARMED, es);
      var t1 := Run(Step(Step(s, Get(w)), Claim(w)), e1);
      var t2 := Run(Step(t1, Apply(w, false, d)), e2);
      Step(t2, GiveBack(w)).rec == Rec(Waiting, s.rec.ver + 2, s.rec.arming)
  {
    hide Step, Run, Inv, OneOwner;
    var s := Run(ARMED, es);
    ClaimTaken(es, w);
    var s1 := Step(Step(s, Get(w)), Claim(w));
    var t1 := Run(s1, e1);
    var s2 := Step(t1, Apply(w, false, d));
    var t2 := Run(s2, e2);
    LaterNow(s1, e1);
    NowGrows(t1, Apply(w, false, d));
    LaterNow(s2, e2);
    ClaimIsSafe(s1, e1, w, Claimed(s.rec.arming, s1.rec.ver));
    Applying(t1, w, s.rec.arming, false, d);
    ClaimIsSafe(s2, e2, w, Failed(s.rec.arming, s1.rec.ver));
    FailureGivesBack(t2, w);
  }

  /** In particular: nobody else about, from a freshly armed gate. */
  lemma LoneResume(w: WorkerId, d: Decision, signal: Signal)
    ensures var s := Step(Step(Step(ARMED, Get(w)), Claim(w)), Apply(w, true, d));
      var t := Step(Step(s, Send(w, signal)), Finalize(w));
      && t.rec.status == Decided(signal == Signalled, Output(d, signal == SignalFailed))
      && t.applied == [Gate.Applied(0, w, d)]
  {
    var s1 := Step(ARMED, Get(w));
    assert PhaseOf(s1, w) == Read(ARMED.rec);
    var s2 := Step(s1, Claim(w));
    assert PhaseOf(s2, w) == Claimed(0, 2);
    var s3 := Step(s2, Apply(w, true, d));
    assert PhaseOf(s3, w) == Sending(0, 2, Output(d, false)) && s3.applied == [Gate.Applied(0, w, d)];
    var s4 := Step(s3, Send(w, signal));
  }

  /** A later resume of a decided gate signals the recorded decision again and
      records whether that went out; it applies nothing. */
  lemma DecidedIsReplayed(s: State, w: WorkerId, signal: Signal)
    requires s.rec.status.Decided?
    ensures var o := s.rec.status.output;
      var t := Step(Step(Step(Step(s, Get(w)), Claim(w)), Send(w, signal)), Finalize(w));
      && t.rec == Rec(Decided(signal == Signalled, if signal == SignalFailed then o.(resumeError := true) else o),
                      s.rec.ver + 1, s.rec.arming)
      && t.applied == s.applied
  {
    var s1 := Step(s, Get(w));
    assert PhaseOf(s1, w) == Read(s.rec);
    var s2 := Step(s1, Claim(w));
    assert PhaseOf(s2, w) == Sending(s.rec.arming, s.rec.ver, s.rec.status.output);
    var s3 := Step(s2, Send(w, signal));
  }
}
