/** Minting approval ids under contention (services/governance/store.py, lines 159-179). */
module Approvals {
  import opened Graphs

  type WorkerId = nat
  type Day = nat
  type Record = nat

  const ATTEMPTS: nat := 8

  // APR-<day>-<seq>
  datatype Id = Id(day: Day, seqNo: nat)

  type Table = map<Id, Record>

  datatype Phase =
    | Idle
    // `seen` is what the worker's load returned, kept for the proof only.
    | Trying(day: Day, first: nat, attempt: nat, record: Record, seen: Table)
    | Minted(id: Id, record: Record)
    | CouldNotMint(day: Day, seen: Table)

  // `issued` lists every id handed out, in order; model only.
  datatype State = State(rows: Table, workers: map<WorkerId, Phase>, issued: seq<Id>)

  datatype Event =
    | Load(w: WorkerId, day: Day, record: Record)
    | Try(w: WorkerId)
    | Crash(w: WorkerId)

  const NO_ROWS := State(map[], map[], [])

  function DayNumbers(t: Table, day: Day): set<nat> { set id | id in t && id.day == day :: id.seqNo }

  // The largest sequence number of the day, or 0.
  ghost function Highest(s: set<nat>): (m: nat)
    ensures forall n :: n in s ==> n <= m
    ensures m in s || m == 0
    decreases |s|
  {
    if s == {} then 0 else
      var n :| n in s;
      var m := Highest(s - {n});
      assert forall k :: k in s ==> k == n || k in s - {n};
      if n > m then n else m
  }

  function PhaseOf(s: State, w: WorkerId): Phase { if w in s.workers then s.workers[w] else Idle }

  ghost function Step(s: State, e: Event): State {
    match e
    case Load(w, day, record) =>
      s.(workers := s.workers[w := Trying(day, 1 + Highest(DayNumbers(s.rows, day)), 0, record, s.rows)])
    case Try(w) =>
      var p := PhaseOf(s, w);
      if !p.Trying? then s
      else
        var id := Id(p.day, p.first + p.attempt);
        if id !in s.rows then
          State(s.rows[id := p.record], s.workers[w := Minted(id, p.record)], s.issued + [id])
        else if p.attempt + 1 < ATTEMPTS then s.(workers := s.workers[w := p.(attempt := p.attempt + 1)])
        else s.(workers := s.workers[w := CouldNotMint(p.day, p.seen)])
    case Crash(w) => s.(workers := s.workers[w := Idle])
  }

  ghost function Run(s: State, es: seq<Event>): State {
    if es == [] then s else Step(Run(s, es[..|es| - 1]), es[|es| - 1])
  }

  // Rows of the day that were not there when the worker loaded the table.
  function NewThatDay(rows: Table, seen: Table, day: Day): set<Id> {
    set id | id in rows && id !in seen && id.day == day
  }

  ghost predicate PhaseOk(rows: Table, p: Phase) {
    match p
    case Idle => true
    case Trying(day, first, attempt, _, seen) =>
      && attempt < ATTEMPTS
      && (forall id :: id in seen && id.day == day ==> id.seqNo < first)
      && (forall id: Id :: id.day == day && first <= id.seqNo < first + attempt ==> id in NewThatDay(rows, seen, day))
    case Minted(id, record) => id in rows && rows[id] == record
    case CouldNotMint(day, seen) => |NewThatDay(rows, seen, day)| >= ATTEMPTS
  }

  ghost predicate Inv(s: State) { forall w :: w in s.workers ==> PhaseOk(s.rows, s.workers[w]) }

  ghost predicate Extends(a: Table, b: Table) { forall id :: id in a ==> id in b && b[id] == a[id] }

  lemma PhaseLater(a: Table, b: Table, p: Phase)
    requires PhaseOk(a, p) && Extends(a, b)
    ensures PhaseOk(b, p)
  {
    if p.CouldNotMint? {
      SubsetCard(NewThatDay(a, p.seen, p.day), NewThatDay(b, p.seen, p.day));
    }
  }

  function Window(day: Day, first: nat, n: nat): (r: set<Id>)
    ensures |r| == n && forall id :: id in r <==> id.day == day && first <= id.seqNo < first + n
  {
    if n == 0 then {} else Window(day, first, n - 1) + {Id(day, first + n - 1)}
  }

  lemma FailureMeansContention(rows: Table, p: Phase)
    requires p.Trying? && PhaseOk(rows, p) && p.attempt + 1 == ATTEMPTS && Id(p.day, p.first + p.attempt) in rows
    ensures |NewThatDay(rows, p.seen, p.day)| >= ATTEMPTS
  {
    var win := Window(p.day, p.first, ATTEMPTS);
    forall id | id in win ensures id in NewThatDay(rows, p.seen, p.day) {
      assert id.seqNo == p.first + p.attempt ==> id == Id(p.day, p.first + p.attempt);
    }
    SubsetCard(win, NewThatDay(rows, p.seen, p.day));
  }

  lemma StepKeeps(s: State, e: Event)
    requires Inv(s)
    ensures Inv(Step(s, e)) && Extends(s.rows, Step(s, e).rows)
  {
    var t, p := Step(s, e), PhaseOf(s, e.w);
    if t.workers != s.workers {
      if e.Try? && PhaseOf(t, e.w).CouldNotMint? {
        FailureMeansContention(s.rows, p);
      }
      forall w | w in t.workers ensures PhaseOk(t.rows, t.workers[w]) {
        if w != e.w {
          PhaseLater(s.rows, t.rows, s.workers[w]);
        } else if e.Load? {
          LoadOk(s.rows, e.day, e.record);
        }
      }
    }
  }

  lemma LoadOk(rows: Table, day: Day, record: Record)
    ensures PhaseOk(rows, Trying(day, 1 + Highest(DayNumbers(rows, day)), 0, record, rows))
  {
    forall id | id in rows && id.day == day ensures id.seqNo < 1 + Highest(DayNumbers(rows, day)) {
      assert id.seqNo in DayNumbers(rows, day);
    }
  }

  lemma {:induction false} RunKeeps(es: seq<Event>)
    ensures Inv(Run(NO_ROWS, es))
    decreases |es|
  {
    if es != [] {
      RunKeeps(es[..|es| - 1]);
      StepKeeps(Run(NO_ROWS, es[..|es| - 1]), es[|es| - 1]);
    }
  }

  /** No approval row is ever overwritten or lost, whatever the interleaving. */
  lemma {:induction false} ApprovalsAreDurable(es: seq<Event>, more: seq<Event>)
    ensures Extends(Run(NO_ROWS, es).rows, Run(NO_ROWS, es + more).rows)
    decreases |more|
  {
    if more == [] {
      assert es + more == es;
    } else {
      var n := |more| - 1;
      assert (es + more)[..|es + more| - 1] == es + more[..n];
      ApprovalsAreDurable(es, more[..n]);
      RunKeeps(es + more[..n]);
      StepKeeps(Run(NO_ROWS, es + more[..n]), more[n]);
    }
  }

  /** A worker told it minted an id finds exactly its own record under it, ever
      after; one told it could not mint was outrun by at least eight approvals
      of that day since it loaded the table. */
  lemma MintOutcome(es: seq<Event>, w: WorkerId)
    ensures var s := Run(NO_ROWS, es); var p := PhaseOf(s, w);
      && (p.Minted? ==> p.id in s.rows && s.rows[p.id] == p.record)
      && (p.CouldNotMint? ==> |NewThatDay(s.rows, p.seen, p.day)| >= 8)
  {
    RunKeeps(es);
    assert PhaseOk(Run(NO_ROWS, es).rows, PhaseOf(Run(NO_ROWS, es), w));
  }

  // ---- No id is handed out twice ----------------------------------------------------------

  ghost predicate MintedApart(s: State) {
    forall w, k :: w in s.workers && k in s.workers && w != k && s.workers[w].Minted? && s.workers[k].Minted? ==>
      s.workers[w].id != s.workers[k].id
  }

  // Every row was issued once.
  ghost predicate IssuedOnce(s: State) { NoDup(s.issued) && Elems(s.issued) == s.rows.Keys }

  lemma IssuedStep(s: State, e: Event)
    requires IssuedOnce(s)
    ensures IssuedOnce(Step(s, e))
  {
    var t := Step(s, e);
    if t.issued != s.issued {
      ElemsSnoc(s.issued, t.issued[|s.issued|]);
      assert t.issued[|s.issued|] !in Elems(s.issued);
    }
  }

  lemma ApartStep(s: State, e: Event)
    requires Inv(s) && MintedApart(s)
    ensures MintedApart(Step(s, e))
  {
    forall w | w in s.workers ensures PhaseOk(s.rows, s.workers[w]) {}
  }

  /** Over every interleaving no id is handed out twice: the ids issued are
      pairwise distinct and are exactly the ids of the stored rows, and two
      workers that minted never hold the same id. */
  lemma {:induction false} IdsAreUnique(es: seq<Event>)
    ensures NoDup(Run(NO_ROWS, es).issued) && Elems(Run(NO_ROWS, es).issued) == Run(NO_ROWS, es).rows.Keys
    ensures forall w, k :: w != k && PhaseOf(Run(NO_ROWS, es), w).Minted? && PhaseOf(Run(NO_ROWS, es), k).Minted? ==>
      PhaseOf(Run(NO_ROWS, es), w).id != PhaseOf(Run(NO_ROWS, es), k).id
    ensures MintedApart(Run(NO_ROWS, es))
    decreases |es|
  {
    if es != [] {
      IdsAreUnique(es[..|es| - 1]);
      RunKeeps(es[..|es| - 1]);
      IssuedStep(Run(NO_ROWS, es[..|es| - 1]), es[|es| - 1]);
      ApartStep(Run(NO_ROWS, es[..|es| - 1]), es[|es| - 1]);
    }
  }

  // ---- A minting worker gets an answer -----------------------------------------------------

  function TriesIn(es: seq<Event>, w: WorkerId): nat {
    if es == [] then 0 else TriesIn(es[..|es| - 1], w) + if es[|es| - 1] == Try(w) then 1 else 0
  }

  // The worker neither crashes nor starts over; the others do as they like.
  predicate Persists(es: seq<Event>, w: WorkerId) { forall e :: e in es && e.w == w ==> e.Try? }

  ghost predicate Underway(p: Phase, day: Day, record: Record, seen: Table, tries: nat) {
    match p
    case Idle => false
    case Trying(d, _, attempt, r, t) => d == day && r == record && t == seen && attempt == tries
    case Minted(id, r) => id.day == day && r == record && tries > 0
    case CouldNotMint(d, t) => d == day && t == seen && tries >= ATTEMPTS
  }

  lemma {:induction false} UnderwayRun(s: State, es: seq<Event>, w: WorkerId, day: Day, record: Record)
    requires Inv(s) && Persists(es, w)
    ensures var t := Run(Step(s, Load(w, day, record)), es);
      Inv(t) && Underway(PhaseOf(t, w), day, record, s.rows, TriesIn(es, w))
    decreases |es|
  {
    var s1 := Step(s, Load(w, day, record));
    StepKeeps(s, Load(w, day, record));
    if es != [] {
      var front, e := es[..|es| - 1], es[|es| - 1];
      assert es == front + [e] && e in es;
      UnderwayRun(s, front, w, day, record);
      StepKeeps(Run(s1, front), e);
    }
  }

  /** Eight tries after loading the table, whatever other workers do meanwhile, a
      worker either holds an id of that day with its own record stored under it, or
      has been outrun by at least eight other approvals of that day. */
  lemma EightTriesDecide(es: seq<Event>, w: WorkerId, day: Day, record: Record, more: seq<Event>)
    requires Persists(more, w) && TriesIn(more, w) >= 8
    ensures var s := Run(NO_ROWS, es);
      var t := Run(Step(s, Load(w, day, record)), more);
      || (PhaseOf(t, w).Minted? && PhaseOf(t, w).id.day == day
          && PhaseOf(t, w).id in t.rows && t.rows[PhaseOf(t, w).id] == record)
      || (PhaseOf(t, w).CouldNotMint? && |NewThatDay(t.rows, s.rows, day)| >= 8)
  {
    RunKeeps(es);
    UnderwayRun(Run(NO_ROWS, es), more, w, day, record);
  }

  /** A worker that crashed mints nothing more. */
  lemma CrashEndsIt(s: State, w: WorkerId)
    ensures var t := Step(s, Crash(w)); t.rows == s.rows && Step(t, Try(w)) == t
  {
  }

  /** Alone, a worker mints at once: the id is the day's next number. */
  lemma LoneMint(s: State, w: WorkerId, day: Day, record: Record)
    ensures var t := Step(Step(s, Load(w, day, record)), Try(w));
      && PhaseOf(t, w).Minted? && t.issued == s.issued + [PhaseOf(t, w).id]
      && var id := PhaseOf(t, w).id;
         && id !in s.rows && t.rows == s.rows[id := record] && id.day == day
         && (forall k: Id :: k in s.rows && k.day == day ==> k.seqNo < id.seqNo)
         && id.seqNo >= 1 && (id.seqNo == 1 || Id(day, id.seqNo - 1) in s.rows)
  {
    var m := Highest(DayNumbers(s.rows, day));
    forall k: Id | k in s.rows && k.day == day ensures k.seqNo <= m { assert k.seqNo in DayNumbers(s.rows, day); }
    if m != 0 {
      assert m in DayNumbers(s.rows, day);
      assert Id(day, m) in s.rows;
    }
  }
}
