/** Activations of one workflow that overlap (services/governance/store.py,
    lines 250-294): how they end, and a run that leaves two active versions. */
module Overlap {
  import opened Wrappers
  import opened Activation

  // ---- A run with two active versions ------------------------------------------------------

  lemma {:induction false} RunJoin(s: State, es: seq<Event>, more: seq<Event>)
    ensures Run(s, es + more) == Run(Run(s, es), more)
    decreases |more|
  {
    if more == [] {
      assert es + more == es;
    } else {
      var n := |more| - 1;
      assert (es + more)[..|es + more| - 1] == es + more[..n];
      RunJoin(s, es, more[..n]);
    }
  }

  // Two builds of one workflow, ready to be approved.
  function ReadyBuild(id: BuildId, after: Content): Build { Build(id, 7, 0, 0, Some(after), 0, 0, 0, true, [], 1.0) }

  function ReadyApproval(id: BuildId, after: Content, vid: VersionId): Approval {
    Approval(id, ApproveCandidate, ArtifactsOf(ReadyBuild(id, after)), Some(vid), ReadyBuild(id, after), 0)
  }

  const TWO_CANDIDATES: map<VersionId, Version> :=
    map[101 := Version(7, 11, Candidate), 102 := Version(7, 12, Candidate)]

  lemma BothApproved()
    ensures var s := Run(EMPTY_STORE,
      [Approve(ReadyBuild(1, 11), None, 0, 101), Approve(ReadyBuild(2, 12), None, 0, 102)]);
      s.versions == TWO_CANDIDATES && s.approvals == [ReadyApproval(1, 11, 101), ReadyApproval(2, 12, 102)]
      && s.workers == map[]
  {
    RunTwo(EMPTY_STORE, Approve(ReadyBuild(1, 11), None, 0, 101), Approve(ReadyBuild(2, 12), None, 0, 102));
  }

  lemma BothActivatable(s: State)
    requires s.versions == TWO_CANDIDATES && s.approvals == [ReadyApproval(1, 11, 101), ReadyApproval(2, 12, 102)]
    ensures Activatable(s, ReadyBuild(1, 11), None) == Some(101) && Activatable(s, ReadyBuild(2, 12), None) == Some(102)
  {
    var a, b := ReadyApproval(1, 11, 101), ReadyApproval(2, 12, 102);
    assert [a, b][..1] == [a] && [a][..0] == [];
    assert Approves([], 1) == [] && Approves([], 2) == [];
    assert Approves([a], 1) == [a] && Approves([a], 2) == [];
    assert Approves([a, b], 1) == [a] && Approves([a, b], 2) == [b];
  }

  lemma BothBegun(s: State)
    requires s.versions == TWO_CANDIDATES && s.workers == map[]
    requires s.approvals == [ReadyApproval(1, 11, 101), ReadyApproval(2, 12, 102)]
    ensures var t := Step(Step(s, Begin(1, ReadyBuild(1, 11), None)), Begin(2, ReadyBuild(2, 12), None));
      t.versions == TWO_CANDIDATES
      && PhaseOf(t, 1) == Flipping(101, Pending(TWO_CANDIDATES, 101))
      && PhaseOf(t, 2) == Flipping(102, Pending(TWO_CANDIDATES, 102))
  {
    hide Activatable, Pending;
    BothActivatable(s);
    BothActivatable(Step(s, Begin(1, ReadyBuild(1, 11), None)));
  }

  /** From the empty store: two approvals, two activations that begin before
      either writes, and a run on which both targets end up active. */
  lemma TwoActiveReachable()
    ensures exists es :: BothActive(Run(EMPTY_STORE, es), 101, 102)
  {
    hide Step, Run, Pending, PhaseOf;
    var approve := [Approve(ReadyBuild(1, 11), None, 0, 101), Approve(ReadyBuild(2, 12), None, 0, 102)];
    var begin := [Begin(1, ReadyBuild(1, 11), None), Begin(2, ReadyBuild(2, 12), None)];
    var s := Run(EMPTY_STORE, approve);
    BothApproved();
    BothBegun(s);
    RunTwo(s, begin[0], begin[1]);
    RunJoin(EMPTY_STORE, approve, begin);
    var t := Run(EMPTY_STORE, approve + begin);
    InterleavedActivations(t, 1, 2, 101, 102);
    var more :| BothActive(Run(t, more), 101, 102);
    RunJoin(EMPTY_STORE, approve + begin, more);
    assert BothActive(Run(EMPTY_STORE, approve + begin + more), 101, 102);
  }

  // ---- How overlapping activations end -----------------------------------------------------

  // Does a write of this worker to this record take effect?
  predicate Lands(s: State, w: WorkerId, v: VersionId) { PhaseOf(s, w).Flipping? && v in PhaseOf(s, w).pending }

  // The worker whose write to a record was the last to take effect.
  function LastWriter(s: State, es: seq<Event>, v: VersionId): Option<WorkerId> {
    if es == [] then None else
      var front, e := es[..|es| - 1], es[|es| - 1];
      if e.Write? && e.vid == v && Lands(Run(s, front), e.w, v) then Some(e.w) else LastWriter(s, front, v)
  }

  // Each record of the target's workflow is still to be written or already as wanted.
  ghost predicate MidWay(s: State, w: WorkerId, c: VersionId) {
    && PhaseOf(s, w).Flipping? && PhaseOf(s, w).target == c && c in s.versions
    && (forall v :: Lands(s, w, v) ==> v in s.versions && PhaseOf(s, w).pending[v].status == Wanted(v, c))
    && (forall v :: v in s.versions && s.versions[v].workflow == s.versions[c].workflow && !Lands(s, w, v) ==>
          s.versions[v].status == Wanted(v, c))
  }

  lemma BeginIsMidWay(s: State, w: WorkerId, b: Build, cid: Option<VersionId>)
    requires Activatable(s, b, cid).Some?
    ensures MidWay(Step(s, Begin(w, b, cid)), w, Activatable(s, b, cid).value)
  {
    var c := Activatable(s, b, cid).value;
    hide Activatable;
    var t := Step(s, Begin(w, b, cid));
    assert PhaseOf(t, w) == Flipping(c, Pending(s.versions, c));
  }

  // Approvals and saves go on, but no other activation begins and neither crashes.
  predicate OnlyTheseWrite(es: seq<Event>, w1: WorkerId, w2: WorkerId) {
    forall e :: e in es ==> e.Save? || e.Approve? || e.Decide? || (e.Write? && (e.w == w1 || e.w == w2))
  }

  function TargetOf(s: State, w: WorkerId): Option<VersionId> {
    if PhaseOf(s, w).Flipping? then Some(PhaseOf(s, w).target) else None
  }

  // What has been written so far, record by record.
  ghost predicate Tracked(s: State, t: State, es: seq<Event>, w: WorkerId, c: VersionId) {
    && TargetOf(t, w) == Some(c)
    && (forall v :: Lands(t, w, v) ==> Lands(s, w, v) && PhaseOf(t, w).pending[v] == PhaseOf(s, w).pending[v])
    && (forall v :: Lands(s, w, v) && !Lands(t, w, v) ==> LastWriter(s, es, v) != None)
  }

  ghost predicate StatusTracked(s: State, t: State, es: seq<Event>, v: VersionId,
      w1: WorkerId, w2: WorkerId, c1: VersionId, c2: VersionId) {
    v in s.versions && v in t.versions && t.versions[v].status ==
      match LastWriter(s, es, v)
      case None => s.versions[v].status
      case Some(w) => Wanted(v, if w == w1 then c1 else c2)
  }

  lemma WriterIs(s: State, front: seq<Event>, e: Event, v: VersionId)
    ensures LastWriter(s, front + [e], v) ==
      if e.Write? && e.vid == v && Lands(Run(s, front), e.w, v) then Some(e.w) else LastWriter(s, front, v)
    ensures Run(s, front + [e]) == Step(Run(s, front), e)
  {
    assert (front + [e])[..|front|] == front;
  }

  lemma TrackStep(s: State, t: State, front: seq<Event>, e: Event, w: WorkerId, c: VersionId)
    requires t == Run(s, front) && Tracked(s, t, front, w, c)
    requires e.Save? || e.Approve? || e.Decide? || e.Write?
    ensures Tracked(s, Step(t, e), front + [e], w, c)
  {
    forall v { WriterIs(s, front, e, v); }
    hide LastWriter, Run;
  }

  lemma StatusStep(s: State, t: State, front: seq<Event>, e: Event,
      v: VersionId, w1: WorkerId, w2: WorkerId, c1: VersionId, c2: VersionId)
    requires t == Run(s, front) && w1 != w2 && v in s.versions && StatusTracked(s, t, front, v, w1, w2, c1, c2)
    requires Tracked(s, t, front, w1, c1) && Tracked(s, t, front, w2, c2) && MidWay(s, w1, c1) && MidWay(s, w2, c2)
    requires e.Save? || e.Approve? || e.Decide? || (e.Write? && (e.w == w1 || e.w == w2))
    ensures StatusTracked(s, Step(t, e), front + [e], v, w1, w2, c1, c2)
  {
    WriterIs(s, front, e, v);
    hide LastWriter, Run;
  }

  lemma {:induction false} OverlapTracked(s: State, es: seq<Event>, w1: WorkerId, w2: WorkerId,
      c1: VersionId, c2: VersionId)
    requires w1 != w2 && MidWay(s, w1, c1) && MidWay(s, w2, c2) && OnlyTheseWrite(es, w1, w2)
    ensures Tracked(s, Run(s, es), es, w1, c1) && Tracked(s, Run(s, es), es, w2, c2)
    ensures forall v :: v in s.versions ==> StatusTracked(s, Run(s, es), es, v, w1, w2, c1, c2)
    decreases |es|
  {
    if es != [] {
      var front, e := es[..|es| - 1], es[|es| - 1];
      assert es == front + [e] && e in es;
      var t := Run(s, front);
      OverlapTracked(s, front, w1, w2, c1, c2);
      hide Step, Tracked, StatusTracked, MidWay;
      TrackStep(s, t, front, e, w1, c1);
      TrackStep(s, t, front, e, w2, c2);
      forall v | v in s.versions ensures StatusTracked(s, Step(t, e), es, v, w1, w2, c1, c2) {
        StatusStep(s, t, front, e, v, w1, w2, c1, c2);
      }
    }
  }

  ghost predicate Finished(s: State, w: WorkerId) { forall v :: !Lands(s, w, v) }

  /** Once two overlapping activations of one workflow have made all their writes,
      a target is active exactly when its own worker wrote it last and everything
      else is superseded; so exactly one version is active precisely when one
      worker wrote both targets last. */
  lemma OverlapOutcome(s: State, es: seq<Event>, w1: WorkerId, w2: WorkerId, c1: VersionId, c2: VersionId)
    requires w1 != w2 && c1 != c2 && MidWay(s, w1, c1) && MidWay(s, w2, c2) && OnlyTheseWrite(es, w1, w2)
    requires s.versions[c1].workflow == s.versions[c2].workflow && Lands(s, w1, c2) && Lands(s, w2, c1)
    requires Finished(Run(s, es), w1) && Finished(Run(s, es), w2)
    ensures var vs := Run(s, es).versions;
      && c1 in vs && c2 in vs
      && (vs[c1].status == Active <==> LastWriter(s, es, c1) == Some(w1))
      && (vs[c2].status == Active <==> LastWriter(s, es, c2) == Some(w2))
      && ((vs[c1].status == Active) != (vs[c2].status == Active) <==> LastWriter(s, es, c1) == LastWriter(s, es, c2))
      && (forall v :: v in s.versions && s.versions[v].workflow == s.versions[c1].workflow && v != c1 && v != c2 ==>
            v in vs && vs[v].status == Superseded)
  {
    OverlapTracked(s, es, w1, w2, c1, c2);
    WritersAre(s, es, w1, w2, c1);
    WritersAre(s, es, w1, w2, c2);
    hide Run, LastWriter;
    var t := Run(s, es);
    assert StatusTracked(s, t, es, c1, w1, w2, c1, c2) && StatusTracked(s, t, es, c2, w1, w2, c1, c2);
    forall v | v in s.versions && s.versions[v].workflow == s.versions[c1].workflow && v != c1 && v != c2
      ensures v in t.versions && t.versions[v].status == Superseded
    {
      assert StatusTracked(s, t, es, v, w1, w2, c1, c2);
    }
  }

  lemma {:induction false} WritersAre(s: State, es: seq<Event>, w1: WorkerId, w2: WorkerId, v: VersionId)
    requires OnlyTheseWrite(es, w1, w2)
    ensures LastWriter(s, es, v) == None || LastWriter(s, es, v) == Some(w1) || LastWriter(s, es, v) == Some(w2)
    decreases |es|
  {
    if es != [] {
      assert es == es[..|es| - 1] + [es[|es| - 1]];
      WritersAre(s, es[..|es| - 1], w1, w2, v);
    }
  }
}
