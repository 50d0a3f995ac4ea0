/** Optimistic writes to one record (services/storage.py, lines 262-307): the
    version check and the conditional write are separate steps of each worker. */
module Optimistic {
  import opened Wrappers

  type Payload = nat
  type WorkerId = nat

  datatype Row = Row(payload: Payload, ver: nat)

  // What a worker has in hand. A blind write passes no expected version.
  datatype Phase =
    | Idle
    | Holding(read: Option<Payload>, ver: nat)
    | Checked(read: Option<Payload>, ver: nat, newVer: nat, item: Payload, blind: bool)

  // A successful write, with what its writer had read and what it replaced.
  datatype Write = Write(read: Option<Payload>, replaced: Option<Payload>, item: Payload, ver: nat)

  datatype State = State(row: Option<Row>, workers: map<WorkerId, Phase>, log: seq<Write>)

  datatype Event =
    | Get(w: WorkerId)
    | Check(w: WorkerId, item: Payload, blind: bool)
    | Put(w: WorkerId)
    | Crash(w: WorkerId)

  const NOTHING_WRITTEN := State(None, map[], [])

  function VersionOf(r: Option<Row>): nat { if r.Some? then r.value.ver else 0 }

  function PayloadOf(r: Option<Row>): Option<Payload> { if r.Some? then Some(r.value.payload) else None }

  function PhaseOf(s: State, w: WorkerId): Phase { if w in s.workers then s.workers[w] else Idle }

  function Step(s: State, e: Event): State {
    var p := PhaseOf(s, e.w);
    match e
    case Get(w) => s.(workers := s.workers[w := Holding(PayloadOf(s.row), VersionOf(s.row))])
    case Check(w, item, blind) =>
      if !p.Holding? then s
      else if !blind && VersionOf(s.row) != p.ver then s.(workers := s.workers[w := Idle])
      else s.(workers := s.workers[w := Checked(p.read, p.ver, VersionOf(s.row) + 1, item, blind)])
    case Put(w) =>
      if !p.Checked? then s
      else if p.blind || VersionOf(s.row) == p.ver then
        State(Some(Row(p.item, p.newVer)), s.workers[w := Idle],
              s.log + [Write(p.read, PayloadOf(s.row), p.item, p.newVer)])
      else s.(workers := s.workers[w := Idle])
    case Crash(w) => s.(workers := s.workers[w := Idle])
  }

  function Run(s: State, es: seq<Event>): State {
    if es == [] then s else Step(Run(s, es[..|es| - 1]), es[|es| - 1])
  }

  // The payload that stood at a version.
  function At(log: seq<Write>, ver: nat): Option<Payload>
    requires ver <= |log|
  {
    if ver == 0 then None else Some(log[ver - 1].item)
  }

  // Versions count up from 1 and each write replaces exactly what its writer read.
  ghost predicate NothingLost(log: seq<Write>) {
    forall i :: 0 <= i < |log| ==>
      log[i].ver == i + 1 && log[i].read == log[i].replaced == At(log, i)
  }

  ghost predicate Consistent(s: State, p: Phase) {
    match p
    case Idle => true
    case Holding(read, ver) => ver <= |s.log| && read == At(s.log, ver)
    case Checked(read, ver, newVer, _, blind) => ver <= |s.log| && read == At(s.log, ver) && newVer == ver + 1 && !blind
  }

  ghost predicate Inv(s: State) {
    && NothingLost(s.log)
    && VersionOf(s.row) == |s.log| && PayloadOf(s.row) == At(s.log, |s.log|)
    && forall w :: w in s.workers ==> Consistent(s, s.workers[w])
  }

  predicate Versioned(e: Event) { e.Check? ==> !e.blind }

  lemma ConsistentLater(s: State, p: Phase, row: Option<Row>, ws: map<WorkerId, Phase>, x: Write)
    requires Consistent(s, p)
    ensures Consistent(State(row, ws, s.log + [x]), p)
  {
  }

  // A write that lands replaces exactly what its writer had read.
  lemma LandingKeeps(log: seq<Write>, x: Write)
    requires NothingLost(log) && x.ver == |log| + 1 && x.read == x.replaced == At(log, |log|)
    ensures NothingLost(log + [x]) && At(log + [x], |log| + 1) == Some(x.item)
  {
    var all := log + [x];
    forall i | 0 <= i < |all| ensures all[i].ver == i + 1 && all[i].read == all[i].replaced == At(all, i) {
      assert At(all, i) == At(log, i);
      if i < |log| { assert all[i] == log[i]; } else { assert all[i] == x; }
    }
  }

  lemma PutKeeps(s: State, w: WorkerId)
    requires Inv(s)
    ensures Inv(Step(s, Put(w)))
  {
    var p, t := PhaseOf(s, w), Step(s, Put(w));
    assert Consistent(s, p);
    if p.Checked? && VersionOf(s.row) == p.ver {
      var x := Write(p.read, PayloadOf(s.row), p.item, p.newVer);
      LandingKeeps(s.log, x);
      hide NothingLost, At;
      forall v | v in t.workers && v != w ensures Consistent(t, t.workers[v]) {
        ConsistentLater(s, s.workers[v], t.row, t.workers, x);
      }
    }
  }

  lemma StepKeeps(s: State, e: Event)
    requires Inv(s) && Versioned(e)
    ensures Inv(Step(s, e))
  {
    hide NothingLost, At;
    if e.Put? {
      PutKeeps(s, e.w);
    } else {
      assert Consistent(s, PhaseOf(s, e.w));
    }
  }

  /** Over every interleaving of workers that pass the version they read, with
      crashes anywhere, no update is lost. */
  lemma {:induction false} NoLostUpdate(es: seq<Event>)
    requires forall e :: e in es ==> Versioned(e)
    ensures NothingLost(Run(NOTHING_WRITTEN, es).log)
      && VersionOf(Run(NOTHING_WRITTEN, es).row) == |Run(NOTHING_WRITTEN, es).log|
    ensures Inv(Run(NOTHING_WRITTEN, es))
    decreases |es|
  {
    if es != [] {
      assert es == es[..|es| - 1] + [es[|es| - 1]];
      NoLostUpdate(es[..|es| - 1]);
      StepKeeps(Run(NOTHING_WRITTEN, es[..|es| - 1]), es[|es| - 1]);
    }
  }

  // ---- When a write lands ---------------------------------------------------------------------

  // Events of other workers, all of which pass the version they read.
  predicate Others(es: seq<Event>, w: WorkerId) { forall e :: e in es ==> Versioned(e) && e.w != w }

  // What another worker's step leaves alone, and how the version moves.
  lemma OtherStep(s: State, e: Event, w: WorkerId)
    requires Inv(s) && Versioned(e) && e.w != w
    ensures PhaseOf(Step(s, e), w) == PhaseOf(s, w) && VersionOf(s.row) <= VersionOf(Step(s, e).row)
    ensures VersionOf(s.row) == VersionOf(Step(s, e).row) ==> Step(s, e).row == s.row
  {
    hide NothingLost, At;
    assert Consistent(s, PhaseOf(s, e.w));
  }

  lemma {:induction false} OthersRun(s: State, es: seq<Event>, w: WorkerId)
    requires Inv(s) && Others(es, w)
    ensures Inv(Run(s, es)) && PhaseOf(Run(s, es), w) == PhaseOf(s, w)
    ensures VersionOf(s.row) <= VersionOf(Run(s, es).row)
    ensures VersionOf(s.row) == VersionOf(Run(s, es).row) ==> Run(s, es).row == s.row
    decreases |es|
  {
    hide Inv, Step, VersionOf, PhaseOf;
    if es != [] {
      var front, e := es[..|es| - 1], es[|es| - 1];
      assert es == front + [e] && e in es;
      OthersRun(s, front, w);
      StepKeeps(Run(s, front), e);
      OtherStep(Run(s, front), e, w);
    }
  }

  lemma Reading(s: State, w: WorkerId)
    ensures var t := Step(s, Get(w));
      t.row == s.row && t.log == s.log && PhaseOf(t, w) == Holding(PayloadOf(s.row), VersionOf(s.row))
  {
  }

  lemma Checking(s: State, w: WorkerId, item: Payload)
    requires PhaseOf(s, w).Holding?
    ensures var p, t := PhaseOf(s, w), Step(s, Check(w, item, false));
      && t.row == s.row && t.log == s.log
      && PhaseOf(t, w) == if VersionOf(s.row) == p.ver then Checked(p.read, p.ver, p.ver + 1, item, false) else Idle
  {
  }

  lemma Writing(s: State, w: WorkerId)
    requires PhaseOf(s, w).Idle? || (PhaseOf(s, w).Checked? && !PhaseOf(s, w).blind)
    ensures var p, t := PhaseOf(s, w), Step(s, Put(w));
      if p.Checked? && VersionOf(s.row) == p.ver then
        t.row == Some(Row(p.item, p.newVer)) && t.log == s.log + [Write(p.read, PayloadOf(s.row), p.item, p.newVer)]
      else t.row == s.row && t.log == s.log
  {
  }

  /** A worker that crashed writes nothing more. */
  lemma CrashEndsIt(s: State, w: WorkerId, item: Payload, blind: bool)
    ensures var t := Step(s, Crash(w));
      t.row == s.row && Step(t, Put(w)) == t && Step(t, Check(w, item, blind)) == t
  {
  }

  /** A worker that read the record, checks and writes it lands its write exactly
      when the version is still the one it read, however others interleave; the
      version then goes up by one. Otherwise the record stays as the others left it. */
  lemma WriteLandsExactly(es: seq<Event>, w: WorkerId, item: Payload, e1: seq<Event>, e2: seq<Event>)
    requires (forall e :: e in es ==> Versioned(e)) && Others(e1, w) && Others(e2, w)
    ensures var s := Run(NOTHING_WRITTEN, es);
      var t := Run(Step(Run(Step(s, Get(w)), e1), Check(w, item, false)), e2);
      var u := Step(t, Put(w));
      && (VersionOf(t.row) == VersionOf(s.row) ==>
            && u.row == Some(Row(item, VersionOf(s.row) + 1))
            && u.log == t.log + [Write(PayloadOf(s.row), PayloadOf(s.row), item, VersionOf(s.row) + 1)])
      && (VersionOf(t.row) != VersionOf(s.row) ==> u.row == t.row && u.log == t.log)
  {
    NoLostUpdate(es);
    hide NothingLost, At, Inv, Step, Run, Others, PhaseOf;
    var s := Run(NOTHING_WRITTEN, es);
    var s1 := Step(s, Get(w));
    Reading(s, w);
    StepKeeps(s, Get(w));
    OthersRun(s1, e1, w);
    var t1 := Run(s1, e1);
    Checking(t1, w, item);
    StepKeeps(t1, Check(w, item, false));
    var t2 := Step(t1, Check(w, item, false));
    OthersRun(t2, e2, w);
    Writing(Run(t2, e2), w);
  }

  /** A write without an expected version can silently overwrite another. */
  lemma BlindWriteLoses()
    ensures var es := [Get(1), Get(2), Check(1, 7, false), Put(1), Check(2, 8, true), Put(2)];
      !NothingLost(Run(NOTHING_WRITTEN, es).log)
  {
    var es := [Get(1), Get(2), Check(1, 7, false), Put(1), Check(2, 8, true), Put(2)];
    var s1 := Step(NOTHING_WRITTEN, es[0]);
    var s2 := Step(s1, es[1]);
    var s3 := Step(s2, es[2]);
    var s4 := Step(s3, es[3]);
    var s5 := Step(s4, es[4]);
    var s6 := Step(s5, es[5]);
    assert es[..0] == [] && es[..1][..0] == [] && es[..2][..1] == es[..1] && es[..3][..2] == es[..2];
    assert es[..4][..3] == es[..3] && es[..5][..4] == es[..4] && es[..6] == es;
    assert Run(NOTHING_WRITTEN, es[..1]) == s1;
    assert Run(NOTHING_WRITTEN, es[..2]) == s2;
    assert Run(NOTHING_WRITTEN, es[..3]) == s3;
    assert Run(NOTHING_WRITTEN, es[..4]) == s4;
    assert Run(NOTHING_WRITTEN, es[..5]) == s5;
    assert s4.log == [Write(None, None, 7, 1)];
    assert s6.log[1] == Write(None, Some(7), 8, 2);
  }
}
