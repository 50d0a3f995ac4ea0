/** Approval and activation of candidate procedure versions
    (services/governance/store.py, lines 112-294; services/registry/store.py, lines 54-79).
    Each activation loads a snapshot and then writes one record at a time, so
    activations, approvals and saves interleave. */
module Activation {
  import opened Wrappers

  type WorkerId = nat
  type BuildId = nat
  type VersionId = nat
  type WorkflowId = nat

  // The nodes and edges of a graph; versions also carry an envelope that no hash covers.
  type Content = nat

  // SHA-256 of a value, as an injective function.
  datatype Hash = Hash(of: nat)

  datatype Status = Candidate | Active | Superseded | Inactive

  datatype Version = Version(workflow: WorkflowId, content: Content, status: Status)

  datatype Build = Build(
    id: BuildId, workflow: WorkflowId, rules: nat, before: nat, after: Option<Content>, ops: nat, certificate: nat,
    conflicts: nat, validated: bool, unchangedPasses: seq<bool>, coverage: real)

  datatype Artifacts = Artifacts(rules: Hash, before: Hash, after: Hash, ops: Hash, certificate: Hash)

  datatype Decision = ApproveCandidate | OtherDecision

  // `was` and `unresolved` keep what the decision was taken on; model only.
  datatype Approval = Approval(
    build: BuildId, decision: Decision, artifacts: Artifacts, candidate: Option<VersionId>,
    was: Build, unresolved: nat)

  // The writes an activation still has to make.
  datatype Phase = Idle | Flipping(target: VersionId, pending: map<VersionId, Version>)

  datatype State = State(
    versions: map<VersionId, Version>, approvals: seq<Approval>, workers: map<WorkerId, Phase>)

  const EMPTY_CONTENT: Content := 0

  function ArtifactsOf(b: Build): Artifacts {
    Artifacts(Hash(b.rules), Hash(b.before), Hash(if b.after.Some? then b.after.value else EMPTY_CONTENT),
              Hash(b.ops), Hash(b.certificate))
  }

  // No pending review, no conflict, validated, unchanged cases preserved, full provenance.
  predicate Approvable(b: Build, unresolved: nat) {
    unresolved == 0 && b.conflicts == 0
      && b.validated && (forall p :: p in b.unchangedPasses ==> p) && b.coverage >= 1.0
  }

  datatype Event =
    | Save(vid: VersionId, version: Version)
    | Approve(build: Build, seenOps: Option<Hash>, unresolved: nat, vid: VersionId)
    | Decide(build: Build, unresolved: nat)
    | Begin(w: WorkerId, build: Build, cid: Option<VersionId>)
    | Write(w: WorkerId, vid: VersionId)
    | Crash(w: WorkerId)

  // Create-only: an existing version is never overwritten.
  function Created(vs: map<VersionId, Version>, vid: VersionId, v: Version): map<VersionId, Version> {
    if vid in vs then vs else vs[vid := v]
  }

  // The approvals of a build that approve its candidate, in load order.
  function Approves(log: seq<Approval>, b: BuildId): (r: seq<Approval>)
    ensures forall a :: a in r <==> a in log && a.build == b && a.decision == ApproveCandidate
  {
    if log == [] then [] else
      var last := log[|log| - 1];
      assert log == log[..|log| - 1] + [last];
      Approves(log[..|log| - 1], b) + if last.build == b && last.decision == ApproveCandidate then [last] else []
  }

  // The records of the workflow whose status is not yet what the activation wants.
  function Pending(vs: map<VersionId, Version>, cid: VersionId): map<VersionId, Version>
    requires cid in vs
  {
    map v | v in vs && vs[v].workflow == vs[cid].workflow && vs[v].status != Wanted(v, cid) ::
      vs[v].(status := Wanted(v, cid))
  }

  function Wanted(v: VersionId, cid: VersionId): Status { if v == cid then Active else Superseded }

  function Activatable(s: State, b: Build, cid: Option<VersionId>): Option<VersionId> {
    var approves := Approves(s.approvals, b.id);
    if approves == [] then None
    else
      var last := approves[|approves| - 1];
      var chosen := if cid.Some? then cid else last.candidate;
      if last.artifacts != ArtifactsOf(b) || chosen.None? || chosen.value !in s.versions then None
      else
        var v := s.versions[chosen.value];
        if (v.status != Candidate && v.status != Active) || Hash(v.content) != last.artifacts.after then None
        else chosen
  }

  function PhaseOf(s: State, w: WorkerId): Phase { if w in s.workers then s.workers[w] else Idle }

  function Step(s: State, e: Event): State {
    match e
    case Save(vid, v) => s.(versions := Created(s.versions, vid, v))
    case Approve(b, seenOps, unresolved, vid) =>
      if (seenOps.Some? && seenOps.value != Hash(b.ops)) || !Approvable(b, unresolved) || b.after.None? then s
      else s.(versions := Created(s.versions, vid, Version(b.workflow, b.after.value, Candidate)),
              approvals := s.approvals +
                [Approval(b.id, ApproveCandidate, ArtifactsOf(b), Some(vid), b, unresolved)])
    case Decide(b, unresolved) =>
      s.(approvals := s.approvals + [Approval(b.id, OtherDecision, ArtifactsOf(b), None, b, unresolved)])
    case Begin(w, b, cid) =>
      var chosen := Activatable(s, b, cid);
      if chosen.None? then s
      else s.(workers := s.workers[w := Flipping(chosen.value, Pending(s.versions, chosen.value))])
    case Write(w, vid) =>
      var p := PhaseOf(s, w);
      if !p.Flipping? || vid !in p.pending then s
      else State(s.versions[vid := p.pending[vid]], s.approvals,
                 s.workers[w := Flipping(p.target, p.pending - {vid})])
    case Crash(w) => s.(workers := s.workers[w := Idle])
  }

  function Run(s: State, es: seq<Event>): State {
    if es == [] then s else Step(Run(s, es[..|es| - 1]), es[|es| - 1])
  }

  const EMPTY_STORE := State(map[], [], map[])

  // ---- Graphs never change -------------------------------------------------------------

  ghost predicate SameGraph(v: Version, w: Version) { v.workflow == w.workflow && v.content == w.content }

  // Nothing disappears and no stored graph changes.
  ghost predicate Preserves(a: map<VersionId, Version>, b: map<VersionId, Version>) {
    forall v :: v in a ==> v in b && SameGraph(a[v], b[v])
  }

  // What an approval on record was taken on, field by field.
  predicate Cleared(a: Approval) {
    && a.unresolved == 0 && a.was.conflicts == 0 && a.was.validated
    && false !in a.was.unchangedPasses && a.was.coverage >= 1.0
  }

  // Bound by hash: everything the activation compares.
  predicate Binds(a: Approval, b: Build) {
    && a.was.rules == b.rules && a.was.before == b.before && a.was.ops == b.ops && a.was.certificate == b.certificate
    && a.was.after == Some(if b.after.Some? then b.after.value else EMPTY_CONTENT)
  }

  // Some approval of a build that had passed every guardrail bound this very content.
  ghost predicate Approved(log: seq<Approval>, c: Content) {
    exists a :: a in log && a.decision == ApproveCandidate && Cleared(a) && a.was.after == Some(c)
  }

  predicate Kept(a: Approval) {
    a.decision == ApproveCandidate ==>
      Cleared(a) && a.was.id == a.build && a.artifacts == ArtifactsOf(a.was) && a.was.after.Some?
  }

  ghost predicate PendingOk(s: State, p: Phase) {
    p.Flipping? ==> forall v :: v in p.pending ==>
      && v in s.versions && SameGraph(s.versions[v], p.pending[v])
      && (p.pending[v].status == Active ==> Approved(s.approvals, p.pending[v].content))
  }

  ghost predicate Inv(s: State) {
    && (forall a :: a in s.approvals ==> Kept(a))
    && (forall w :: w in s.workers ==> PendingOk(s, s.workers[w]))
  }

  lemma ApprovedLater(a: seq<Approval>, b: seq<Approval>, c: Content)
    requires Approved(a, c) && a <= b
    ensures Approved(b, c)
  {
    var x :| x in a && x.decision == ApproveCandidate && Cleared(x) && x.was.after == Some(c);
    assert x in b;
  }

  lemma StepPreserves(s: State, e: Event)
    requires Inv(s)
    ensures Preserves(s.versions, Step(s, e).versions) && s.approvals <= Step(s, e).approvals
  {
    if e.Write? {
      assert PendingOk(s, PhaseOf(s, e.w));
    }
  }

  lemma PhaseLater(s: State, t: State, p: Phase)
    requires PendingOk(s, p) && Preserves(s.versions, t.versions) && s.approvals <= t.approvals
    ensures PendingOk(t, p)
  {
    if p.Flipping? {
      forall v | v in p.pending && p.pending[v].status == Active ensures Approved(t.approvals, p.pending[v].content) {
        ApprovedLater(s.approvals, t.approvals, p.pending[v].content);
      }
    }
  }

  lemma BeginOk(s: State, b: Build, cid: Option<VersionId>)
    requires Inv(s) && Activatable(s, b, cid).Some?
    ensures var c := Activatable(s, b, cid).value;
      c in s.versions && PendingOk(s, Flipping(c, Pending(s.versions, c)))
        && Approved(s.approvals, s.versions[c].content)
  {
    var approves := Approves(s.approvals, b.id);
    var last := approves[|approves| - 1];
    assert last in approves && Kept(last);
  }

  lemma StepKeeps(s: State, e: Event)
    requires Inv(s)
    ensures Inv(Step(s, e))
  {
    var t := Step(s, e);
    StepPreserves(s, e);
    if e.Begin? && Activatable(s, e.build, e.cid).Some? {
      BeginOk(s, e.build, e.cid);
    }
    if e.Write? {
      assert PendingOk(s, PhaseOf(s, e.w));
    }
    forall w | w in t.workers ensures PendingOk(t, t.workers[w]) {
      if w in s.workers {
        PhaseLater(s, t, s.workers[w]);
      }
    }
  }

  lemma {:induction false} RunKeeps(es: seq<Event>)
    ensures Inv(Run(EMPTY_STORE, es))
    decreases |es|
  {
    if es != [] {
      RunKeeps(es[..|es| - 1]);
      StepKeeps(Run(EMPTY_STORE, es[..|es| - 1]), es[|es| - 1]);
    }
  }

  predicate IsActive(s: State, v: VersionId) { v in s.versions && s.versions[v].status == Active }

  /** Over every interleaving, a version that a step makes active, other than by
      storing it so, holds the content some approval had bound, and that approval was
      of a build with no open rule review, no conflict, a passed validation, every
      unchanged case preserved and full provenance. */
  lemma ActivatedWasApproved(es: seq<Event>, e: Event, v: VersionId) returns (a: Approval)
    requires var s := Run(EMPTY_STORE, es); IsActive(Step(s, e), v) && !IsActive(s, v) && !e.Save?
    ensures var s := Run(EMPTY_STORE, es);
      && a in s.approvals && a.decision == ApproveCandidate && a.was.after == Some(Step(s, e).versions[v].content)
      && v in s.versions && SameGraph(s.versions[v], Step(s, e).versions[v])
    ensures a.unresolved == 0 && a.was.conflicts == 0 && a.was.validated
    ensures false !in a.was.unchangedPasses && a.was.coverage >= 1.0
  {
    RunKeeps(es);
    var s := Run(EMPTY_STORE, es);
    assert PendingOk(s, PhaseOf(s, e.w));
    var c := Step(s, e).versions[v].content;
    assert Approved(s.approvals, c);
    a :| a in s.approvals && a.decision == ApproveCandidate && Cleared(a) && a.was.after == Some(c);
  }

  /** An approval goes on record exactly when the operations opened for review, if
      any were, are these, every guardrail holds and there is a patched graph; the
      graph is then stored as a candidate unless its id is taken, and nothing else
      changes. */
  lemma ApproveExactly(s: State, b: Build, seen: Option<Hash>, unresolved: nat, vid: VersionId)
    ensures var t := Step(s, Approve(b, seen, unresolved, vid));
      && (t.approvals != s.approvals <==>
            && (seen.Some? ==> seen.value.of == b.ops) && b.after.Some?
            && unresolved == 0 && b.conflicts == 0 && b.validated
            && false !in b.unchangedPasses && b.coverage >= 1.0)
      && (t.approvals == s.approvals ==> t == s)
      && (t.approvals != s.approvals ==>
            && |t.approvals| == |s.approvals| + 1 && s.approvals <= t.approvals
            && vid in t.versions
            && (vid !in s.versions ==> t.versions[vid] == Version(b.workflow, b.after.value, Candidate))
            && (forall v :: v in s.versions ==> v in t.versions && t.versions[v] == s.versions[v])
            && (forall v :: v in t.versions ==> v in s.versions || v == vid)
            && t.workers == s.workers)
  {
  }

  /** In every run, an activation of a build can begin exactly when some approval
      of the build is on record, the last one was taken on the very rules, graphs,
      operations and certificate the build has now, and the version chosen is
      stored, may be activated and holds the approved graph. */
  lemma BeginsExactly(es: seq<Event>, b: Build, cid: Option<VersionId>, last: nat)
    requires var log := Run(EMPTY_STORE, es).approvals;
      && last < |log| && log[last].build == b.id && log[last].decision == ApproveCandidate
      && forall i :: last < i < |log| ==> !(log[i].build == b.id && log[i].decision == ApproveCandidate)
    ensures var s, a := Run(EMPTY_STORE, es), Run(EMPTY_STORE, es).approvals[last];
      var chosen := if cid.Some? then cid else a.candidate;
      && (Activatable(s, b, cid).Some? <==>
            && Binds(a, b)
            && chosen.Some? && chosen.value in s.versions && a.was.after == Some(s.versions[chosen.value].content)
            && (s.versions[chosen.value].status == Candidate || s.versions[chosen.value].status == Active))
      && (Activatable(s, b, cid).Some? ==> Activatable(s, b, cid) == chosen)
  {
    RunKeeps(es);
    var s := Run(EMPTY_STORE, es);
    LastApproves(s.approvals, b.id, last);
    assert Kept(s.approvals[last]);
  }

  /** With no approval of the build on record none can. */
  lemma NeverWithoutApproval(s: State, b: Build, cid: Option<VersionId>)
    requires forall a :: a in s.approvals ==> !(a.build == b.id && a.decision == ApproveCandidate)
    ensures Activatable(s, b, cid) == None
  {
  }

  lemma {:induction false} LastApproves(log: seq<Approval>, b: BuildId, last: nat)
    requires last < |log| && log[last].build == b && log[last].decision == ApproveCandidate
    requires forall i :: last < i < |log| ==> !(log[i].build == b && log[i].decision == ApproveCandidate)
    ensures var r := Approves(log, b); r != [] && r[|r| - 1] == log[last]
    decreases |log|
  {
    var n := |log| - 1;
    if last != n {
      LastApproves(log[..n], b, last);
    }
  }

  /** Any other decision is put on record and does nothing else. */
  lemma DecideOnlyRecords(s: State, b: Build, unresolved: nat)
    ensures var t := Step(s, Decide(b, unresolved));
      && t == s.(approvals := t.approvals) && |t.approvals| == |s.approvals| + 1 && s.approvals <= t.approvals
      && var a := t.approvals[|s.approvals|];
         a.build == b.id && a.decision != ApproveCandidate && a.candidate == None
  {
  }

  /** A worker that crashed writes nothing more. */
  lemma CrashEndsIt(s: State, w: WorkerId, v: VersionId)
    ensures var t := Step(s, Crash(w)); Step(t, Write(w, v)) == t && t.versions == s.versions
  {
  }

  /** A version is stored under a free id only. */
  lemma SaveOnce(s: State, vid: VersionId, v: Version)
    ensures var t := Step(s, Save(vid, v));
      && (vid in s.versions ==> t == s)
      && (vid !in s.versions ==> vid in t.versions && t.versions[vid] == v && t.versions - {vid} == s.versions
                                 && t.approvals == s.approvals && t.workers == s.workers)
  {
  }

  /** A stored version never disappears and its graph never changes, even while
      activations rewrite records from older snapshots. */
  lemma {:induction false} GraphsAreImmutable(es: seq<Event>, more: seq<Event>)
    ensures Preserves(Run(EMPTY_STORE, es).versions, Run(EMPTY_STORE, es + more).versions)
    decreases |more|
  {
    if more == [] {
      assert es + more == es;
    } else {
      var n := |more| - 1;
      assert (es + more)[..|es + more| - 1] == es + more[..n];
      GraphsAreImmutable(es, more[..n]);
      RunKeeps(es + more[..n]);
      StepPreserves(Run(EMPTY_STORE, es + more[..n]), more[n]);
    }
  }

  // ---- One activation on its own ---------------------------------------------------------

  // The remaining writes of worker w, in any order, with nothing in between.
  function Writes(w: WorkerId, order: seq<VersionId>): seq<Event> {
    if order == [] then [] else Writes(w, order[..|order| - 1]) + [Write(w, order[|order| - 1])]
  }

  // The records after those writes.
  function Landed(vs: map<VersionId, Version>, pending: map<VersionId, Version>,
      order: seq<VersionId>): map<VersionId, Version> {
    map v | v in vs.Keys + pending.Keys && ((v in order && v in pending) || v in vs) ::
      if v in order && v in pending then pending[v] else vs[v]
  }

  lemma LandedSnoc(vs: map<VersionId, Version>, pending: map<VersionId, Version>, order: seq<VersionId>, v: VersionId)
    requires v in pending
    ensures Landed(vs, pending, order + [v]) == Landed(vs, pending, order)[v := pending[v]]
  {
    assert forall k :: k in order + [v] <==> k in order || k == v;
  }

  lemma WriteOne(s: State, w: WorkerId, c: VersionId, pending: map<VersionId, Version>, v: VersionId)
    requires PhaseOf(s, w) == Flipping(c, pending) && v in pending
    ensures Step(s, Write(w, v)).versions == s.versions[v := pending[v]]
    ensures PhaseOf(Step(s, Write(w, v)), w) == Flipping(c, pending - {v})
  {
  }

  lemma RunWrites(s: State, w: WorkerId, order: seq<VersionId>)
    ensures Run(s, Writes(w, [])) == s
    ensures order != [] ==>
      var n := |order| - 1; Run(s, Writes(w, order)) == Step(Run(s, Writes(w, order[..n])), Write(w, order[n]))
  {
    if order != [] {
      assert Writes(w, order)[..|Writes(w, order)| - 1] == Writes(w, order[..|order| - 1]);
    }
  }

  // After those writes worker w has only the rest of its writes before it.
  ghost predicate AllLanded(s: State, t: State, w: WorkerId, c: VersionId,
      pending: map<VersionId, Version>, order: seq<VersionId>) {
    PhaseOf(t, w) == Flipping(c, pending - set v | v in order) && t.versions == Landed(s.versions, pending, order)
  }

  lemma LandedNone(s: State, w: WorkerId, c: VersionId, pending: map<VersionId, Version>)
    requires PhaseOf(s, w) == Flipping(c, pending)
    ensures AllLanded(s, s, w, c, pending, [])
  {
    var none: seq<VersionId> := [];
    assert pending - (set v | v in none) == pending;
    assert Landed(s.versions, pending, none) == s.versions;
  }

  lemma LandedOne(s: State, t: State, w: WorkerId, c: VersionId,
      pending: map<VersionId, Version>, front: seq<VersionId>, v: VersionId)
    requires AllLanded(s, t, w, c, pending, front) && v in pending && v !in front
    ensures AllLanded(s, Step(t, Write(w, v)), w, c, pending, front + [v])
  {
    WriteOne(t, w, c, pending - (set k | k in front), v);
    LandedSnoc(s.versions, pending, front, v);
    assert pending - (set k | k in front + [v]) == (pending - set k | k in front) - {v};
  }

  lemma {:induction false} WritesLand(s: State, w: WorkerId, c: VersionId,
      pending: map<VersionId, Version>, order: seq<VersionId>)
    requires PhaseOf(s, w) == Flipping(c, pending) && forall v :: v in order ==> v in pending
    requires forall i, j :: 0 <= i < j < |order| ==> order[i] != order[j]
    ensures AllLanded(s, Run(s, Writes(w, order)), w, c, pending, order)
    decreases |order|
  {
    hide Run, Step, Writes, AllLanded;
    RunWrites(s, w, order);
    if order == [] {
      LandedNone(s, w, c, pending);
    } else {
      var n := |order| - 1;
      assert order == order[..n] + [order[n]];
      WritesLand(s, w, c, pending, order[..n]);
      LandedOne(s, Run(s, Writes(w, order[..n])), w, c, pending, order[..n], order[n]);
    }
  }

  ghost predicate InSomeOrder(order: seq<VersionId>, pending: map<VersionId, Version>) {
    (forall v :: v in order <==> v in pending) && forall i, j :: 0 <= i < j < |order| ==> order[i] != order[j]
  }

  // Every record is as wanted once all have been written.
  lemma LandedAll(vs: map<VersionId, Version>, c: VersionId, order: seq<VersionId>)
    requires c in vs && InSomeOrder(order, Pending(vs, c))
    ensures var t := Landed(vs, Pending(vs, c), order);
      && t.Keys == vs.Keys
      && (forall v :: v in vs && vs[v].workflow == vs[c].workflow ==> t[v] == vs[v].(status := Wanted(v, c)))
      && (forall v :: v in vs && vs[v].workflow != vs[c].workflow ==> t[v] == vs[v])
  {
  }

  /** An activation that runs alone leaves exactly one active version in its
      workflow, its target, and touches no other workflow. */
  lemma SequentialActivation(s: State, w: WorkerId, b: Build, cid: Option<VersionId>, order: seq<VersionId>)
    requires Activatable(s, b, cid).Some?
    requires InSomeOrder(order, Pending(s.versions, Activatable(s, b, cid).value))
    ensures var c := Activatable(s, b, cid).value;
      var vs := Run(Step(s, Begin(w, b, cid)), Writes(w, order)).versions;
      && vs.Keys == s.versions.Keys
      && (forall v :: v in vs && s.versions[v].workflow == s.versions[c].workflow ==>
            SameGraph(vs[v], s.versions[v]) && (vs[v].status == Active <==> v == c)
              && (v != c ==> vs[v].status == Superseded))
      && (forall v :: v in vs && s.versions[v].workflow != s.versions[c].workflow ==> vs[v] == s.versions[v])
  {
    var t := Step(s, Begin(w, b, cid));
    var pending := Pending(s.versions, Activatable(s, b, cid).value);
    WritesLand(t, w, Activatable(s, b, cid).value, pending, order);
    LandedAll(s.versions, Activatable(s, b, cid).value, order);
    hide Run, Writes, Landed, Pending;
  }

  lemma RunTwo(s: State, e: Event, f: Event)
    ensures Run(s, [e, f]) == Step(Step(s, e), f)
  {
    assert [e, f][..1] == [e] && [e][..0] == [];
    assert Run(s, []) == s;
    assert Run(s, [e]) == Step(s, e);
  }

  lemma RunFour(s: State, e: Event, f: Event, g: Event, h: Event)
    ensures Run(s, [e, f, g, h]) == Step(Step(Step(Step(s, e), f), g), h)
  {
    hide Step;
    RunTwo(s, e, f);
    assert [e, f, g, h][..3] == [e, f, g] && [e, f, g][..2] == [e, f];
    assert Run(s, [e, f, g]) == Step(Run(s, [e, f]), g);
  }

  // A write of one worker leaves what another has still to do.
  lemma WriteApart(s: State, w: WorkerId, v: VersionId, other: WorkerId)
    requires other != w
    ensures PhaseOf(Step(s, Write(w, v)), other) == PhaseOf(s, other)
  {
  }

  ghost predicate BothActive(s: State, v1: VersionId, v2: VersionId) {
    && v1 in s.versions && v2 in s.versions && s.versions[v1].workflow == s.versions[v2].workflow
    && s.versions[v1].status == Active && s.versions[v2].status == Active
  }

  /** Two activations of one workflow that interleave can leave two active versions. */
  lemma InterleavedActivations(s: State, w1: WorkerId, w2: WorkerId, v1: VersionId, v2: VersionId)
    requires w1 != w2 && v1 != v2 && v1 in s.versions && v2 in s.versions
    requires s.versions[v1].workflow == s.versions[v2].workflow
    requires s.versions[v1].status == Candidate && s.versions[v2].status == Candidate
    requires PhaseOf(s, w1) == Flipping(v1, Pending(s.versions, v1))
    requires PhaseOf(s, w2) == Flipping(v2, Pending(s.versions, v2))
    ensures exists es :: BothActive(Run(s, es), v1, v2)
  {
    hide Run, Step, PhaseOf;
    var p1, p2 := Pending(s.versions, v1), Pending(s.versions, v2);
    var s1 := Step(s, Write(w1, v2));
    var s2 := Step(s1, Write(w2, v1));
    var s3 := Step(s2, Write(w1, v1));
    WriteOne(s, w1, v1, p1, v2);
    WriteApart(s, w1, v2, w2);
    WriteOne(s1, w2, v2, p2, v1);
    WriteApart(s1, w2, v1, w1);
    WriteOne(s2, w1, v1, p1 - {v2}, v1);
    WriteApart(s2, w1, v1, w2);
    WriteOne(s3, w2, v2, p2 - {v1}, v2);
    RunFour(s, Write(w1, v2), Write(w2, v1), Write(w1, v1), Write(w2, v2));
  }
}
