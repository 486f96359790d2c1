/**
 The audited protocol: any number of clients announce, queue, commit in groups and report
 their puts, and announce and report their gets, in any interleaving. Every put is one
 single-operation batch. The clock and the ids are counted without bound; what the auditor
 records of them are their low 32 bits.
 */
module AuditRuns {
  import opened Auditor
  import opened GroupCommit

  datatype Phase = Timed | Named | Enrolled | Queued | Committed | Ended | Posted

  /** One call of put or get, with the true values of the counters it drew. */
  datatype Call = Call(write: bool, start: nat, id: nat, number: nat, end: nat, phase: Phase) {
    predicate HasId() { !phase.Timed? }
    predicate Announced() { phase.Enrolled? || phase.Queued? || phase.Committed? || phase.Ended? }
    predicate HasNumber() { write && (phase.Committed? || phase.Ended? || phase.Posted?) }
    predicate HasEnd() { phase.Ended? || phase.Posted? }
  }

  /** What the auditor knows of a finished put. */
  function OpOf(p: Call): Op {
    Op(Low32(p.id), Low32(p.start), Low32(p.end), Low32(p.number))
  }

  function Announcement(p: Call): Op {
    Op(Low32(p.id), Low32(p.start), 0, 0)
  }

  datatype Sys = Sys(
    ticks: nat, ids: nat,      // calls of getTime and allocId; g_timer and g_id are their low 32 bits
    calls: map<nat, Call>, queue: seq<nat>,
    first: nat, last: nat,     // versions_->LastSequence(), at the start and now
    holder: map<nat, nat>,     // which put was told which number
    ledger: Ledger
  )

  ghost predicate Init(s: Sys) {
    s == Sys(0, 0, map[], [], s.first, s.first, map[], Ledger(map[], map[], Op(0, 0, 0, 0), [], false, false))
  }

  datatype Step =
    | Start(c: nat, write: bool) | Name(c: nat) | Enroll(c: nat) | Queue(c: nat) | Commit(n: nat) | End(c: nat) | Post(c: nat)

  ghost predicate In(s: Sys, c: nat, phase: Phase) {
    c in s.calls && s.calls[c].phase == phase
  }

  /** The first n queued puts commit as one group and are told the group's numbers. */
  ghost predicate GroupCommitted(s: Sys, n: nat, s': Sys) {
    && 1 <= n <= |s.queue|
    && var told := Reported(s.last, n, n);
       && s' == s.(queue := s.queue[n..], last := s.last + n, calls := s'.calls, holder := s'.holder)
       && s'.calls.Keys == s.calls.Keys
       && (forall c | c in s.calls && c !in s.queue[..n] :: s'.calls[c] == s.calls[c])
       && (forall i | 0 <= i < n && s.queue[i] in s.calls ::
             s'.calls[s.queue[i]] == s.calls[s.queue[i]].(phase := Committed, number := told[i]))
       && (forall x :: x in s'.holder <==> x in s.holder || s.last < x <= s.last + n)
       && (forall x | x in s.holder :: s'.holder[x] == s.holder[x])
       && (forall i | 0 <= i < n && told[i] in s'.holder :: s'.holder[told[i]] == s.queue[i])
  }

  ghost predicate StepOk(s: Sys, step: Step, s': Sys) {
    match step
    // enclave_preput and enclave_preget: the clock, the id and the pending list are locked one after the other
    case Start(c, write) =>
      && c !in s.calls
      && s' == s.(ticks := s.ticks + 1, calls := s.calls[c := Call(write, s.ticks + 1, 0, 0, 0, Timed)])
    case Name(c) =>
      && In(s, c, Timed)
      && s' == s.(ids := s.ids + 1, calls := s.calls[c := s.calls[c].(id := s.ids + 1, phase := Named)])
    case Enroll(c) =>
      && In(s, c, Named) && !s.ledger.locked
      && var id := Low32(s.calls[c].id);
         var pending := if id in s.ledger.pending then s.ledger.pending else s.ledger.pending[id := Announcement(s.calls[c])];
         s' == s.(ledger := s.ledger.(pending := pending), calls := s.calls[c := s.calls[c].(phase := Enrolled)])
    // SUWrite
    case Queue(c) =>
      && In(s, c, Enrolled) && s.calls[c].write
      && s' == s.(queue := s.queue + [c], calls := s.calls[c := s.calls[c].(phase := Queued)])
    case Commit(n) => GroupCommitted(s, n, s')
    // enclave_postput and enclave_postget: the clock, then the locked part
    case End(c) =>
      && In(s, c, if c in s.calls && s.calls[c].write then Committed else Enrolled)
      && s' == s.(ticks := s.ticks + 1, calls := s.calls[c := s.calls[c].(end := s.ticks + 1, phase := Ended)])
    case Post(c) =>
      && In(s, c, Ended) && !s.ledger.locked
      && var p := s.calls[c];
         && Low32(p.id) in s.ledger.pending
         && s' == s.(calls := s.calls[c := p.(phase := Posted)],
                     ledger := if p.write then Report(s.ledger, Low32(p.id), p.number, Low32(p.end))
                               else s.ledger.(pending := s.ledger.pending - {Low32(p.id)}))
  }

  // --------------------------------------------------------------- invariant

  ghost predicate ClocksOk(s: Sys) {
    && (forall c | c in s.calls :: 0 < s.calls[c].start <= s.ticks && (s.calls[c].HasEnd() ==> s.calls[c].end <= s.ticks))
    && (forall c | c in s.calls && s.calls[c].HasId() :: 0 < s.calls[c].id <= s.ids)
  }

  ghost predicate IdsOk(calls: map<nat, Call>) {
    forall c, d | c in calls && d in calls && c != d && calls[c].HasId() && calls[d].HasId() :: calls[c].id != calls[d].id
  }

  /** No two announced calls share the low 32 bits of their ids, by which the auditor knows them. */
  ghost predicate Apart(calls: map<nat, Call>) {
    forall c, d | c in calls && d in calls && c != d && calls[c].Announced() && calls[d].Announced() ::
      Low32(calls[c].id) != Low32(calls[d].id)
  }

  /** An announced call already goes by the low 32 bits of the id of `c`. */
  ghost predicate Shared(s: Sys, c: nat) {
    exists d :: c in s.calls && d in s.calls && s.calls[d].Announced() && Low32(s.calls[d].id) == Low32(s.calls[c].id)
  }

  /** The announcement is not entered, because the place is taken. */
  ghost predicate Lost(s: Sys, step: Step) {
    step.Enroll? && Shared(s, step.c)
  }

  ghost predicate QueueOk(s: Sys) {
    && (forall i | 0 <= i < |s.queue| :: In(s, s.queue[i], Queued) && s.calls[s.queue[i]].write)
    && (forall i, j | 0 <= i < j < |s.queue| :: s.queue[i] != s.queue[j])
  }

  /** Put `c` was told number `n`. */
  ghost predicate Told(s: Sys, n: int, c: int) {
    c in s.calls && s.calls[c].HasNumber() && s.calls[c].number == n
  }

  /** Exactly the numbers first+1..last have been told, each to one put. */
  ghost predicate NumbersOk(s: Sys) {
    && s.first <= s.last
    && (forall n :: n in s.holder <==> s.first < n <= s.last)
    && (forall n | n in s.holder :: Told(s, n, s.holder[n]))
    && (forall n, c | Told(s, n, c) :: n in s.holder && s.holder[n] == c)
  }

  ghost predicate PendingOk(s: Sys) {
    && (forall c | c in s.calls && s.calls[c].Announced() ::
          Low32(s.calls[c].id) in s.ledger.pending && s.ledger.pending[Low32(s.calls[c].id)] == Announcement(s.calls[c]))
    && (forall x | x in s.ledger.pending :: AnnouncedAs(s, x))
  }

  ghost predicate AnnouncedAs(s: Sys, x: nat) {
    exists c :: c in s.calls && s.calls[c].Announced() && Low32(s.calls[c].id) == x
  }

  ghost predicate IsPosted(s: Sys, n: int) {
    n in s.holder && s.holder[n] in s.calls && s.calls[s.holder[n]].phase.Posted?
  }

  ghost predicate LatestIs(a: Ledger, h: nat) {
    && h < W && |a.log| == h && a.latest.ts == h
    && a.latest == (if h == 0 then Op(0, 0, 0, 0) else a.log[h - 1])
  }

  /** The history holds 1..h, each once and in order. */
  ghost predicate LogIs(s: Sys, h: nat) {
    |s.ledger.log| == h && forall n | 1 <= n <= h :: IsPosted(s, n) && s.ledger.log[n - 1] == OpOf(s.calls[s.holder[n]])
  }

  /** Exactly what was posted above h waits, and h + 1 is not among it. */
  ghost predicate CompletedIs(s: Sys, h: nat) {
    && (forall n :: n in s.ledger.completed <==> IsPosted(s, n) && n > h)
    && (forall n | n in s.ledger.completed :: IsPosted(s, n) && s.ledger.completed[n] == OpOf(s.calls[s.holder[n]]))
    && (h + 1 < W ==> !IsPosted(s, h + 1))
  }

  ghost predicate HistoryIs(s: Sys, h: nat) {
    LatestIs(s.ledger, h) && LogIs(s, h) && CompletedIs(s, h)
  }

  /** A put told an earlier number started before any put with a later number ended. */
  ghost predicate TimingOk(s: Sys) {
    forall m, n, c, d | Told(s, m, c) && Told(s, n, d) && m <= n && s.calls[d].HasEnd() :: s.calls[c].start < s.calls[d].end
  }

  ghost predicate Inv(s: Sys) {
    && ClocksOk(s) && IdsOk(s.calls) && Apart(s.calls) && QueueOk(s) && NumbersOk(s) && PendingOk(s) && TimingOk(s)
    && (!s.ledger.locked ==> HistoryIs(s, |s.ledger.log|))
  }

  // -------------------------------------------------- steps of a single put

  /** Only put `c` changes, it is told no number, and it is not yet posted. */
  ghost predicate OneMoves(s: Sys, c: nat, s': Sys) {
    && c in s'.calls && s'.calls == s.calls[c := s'.calls[c]]
    && s'.holder == s.holder && s'.first == s.first && s'.last == s.last
    && (if c in s.calls then s'.calls[c].HasNumber() == s.calls[c].HasNumber() && s'.calls[c].number == s.calls[c].number
        else !s'.calls[c].HasNumber())
    && !s'.calls[c].phase.Posted? && (c in s.calls ==> !s.calls[c].phase.Posted?)
  }

  lemma ToldKept(s: Sys, c: nat, s': Sys)
    requires OneMoves(s, c, s')
    ensures forall n, d :: Told(s', n, d) <==> Told(s, n, d)
  {
  }

  lemma NumbersKept(s: Sys, c: nat, s': Sys)
    requires NumbersOk(s) && OneMoves(s, c, s')
    ensures NumbersOk(s')
  {
    ToldKept(s, c, s');
  }

  lemma HistoryKept(s: Sys, c: nat, s': Sys)
    requires HistoryIs(s, |s.ledger.log|) && OneMoves(s, c, s')
    requires s'.ledger == s.ledger.(pending := s'.ledger.pending)
    ensures HistoryIs(s', |s'.ledger.log|)
  {
    forall n ensures IsPosted(s', n) <==> IsPosted(s, n) {}
  }

  lemma TimingKept(s: Sys, c: nat, s': Sys)
    requires TimingOk(s) && OneMoves(s, c, s')
    requires c in s.calls ==> s'.calls[c].start == s.calls[c].start
    requires c in s.calls && s'.calls[c].HasEnd() ==> forall d | d in s.calls :: s.calls[d].start < s'.calls[c].end
    ensures TimingOk(s')
  {
    ToldKept(s, c, s');
  }

  lemma QueueKept(s: Sys, c: nat, s': Sys)
    requires QueueOk(s) && c in s'.calls && s'.calls == s.calls[c := s'.calls[c]] && s'.queue == s.queue
    requires c in s.calls ==> !s.calls[c].phase.Queued?
    ensures QueueOk(s')
  {
  }

  lemma PendingKept(s: Sys, c: nat, s': Sys)
    requires PendingOk(s) && c in s'.calls && s'.calls == s.calls[c := s'.calls[c]] && s'.ledger.pending == s.ledger.pending
    requires if c in s.calls && s.calls[c].Announced()
             then s'.calls[c].Announced() && s'.calls[c].id == s.calls[c].id && s'.calls[c].start == s.calls[c].start
             else !s'.calls[c].Announced()
    ensures PendingOk(s')
  {
    forall id | id in s'.ledger.pending ensures AnnouncedAs(s', id) {
      var d :| d in s.calls && s.calls[d].Announced() && Low32(s.calls[d].id) == id;
      assert d in s'.calls && s'.calls[d].Announced();
    }
  }

  lemma ClocksKept(s: Sys, step: Step, s': Sys)
    requires ClocksOk(s) && StepOk(s, step, s') && !step.Commit?
    ensures ClocksOk(s')
  {
    hide Low32, Report;
  }

  lemma IdsKept(calls: map<nat, Call>, c: nat, p: Call)
    requires IdsOk(calls)
    requires p.HasId() ==>
               || (c in calls && calls[c].HasId() && p.id == calls[c].id)
               || (forall d | d in calls && calls[d].HasId() :: calls[d].id != p.id)
    ensures IdsOk(calls[c := p])
  {
  }

  /** Announced calls stay apart when no other call is announced than before. */
  lemma ApartKept(calls: map<nat, Call>, c: nat, p: Call)
    requires Apart(calls) && (p.Announced() ==> c in calls && calls[c].Announced() && calls[c].id == p.id)
    ensures Apart(calls[c := p])
  {
    hide Low32;
  }

  lemma EnrollPending(s: Sys, c: nat, s': Sys)
    requires Apart(s.calls) && PendingOk(s) && !Shared(s, c) && StepOk(s, Enroll(c), s')
    ensures PendingOk(s') && Apart(s'.calls) && s'.ledger.pending != s.ledger.pending
  {
    hide Low32;
    assert Low32(s.calls[c].id) in s.ledger.pending ==> AnnouncedAs(s, Low32(s.calls[c].id));
    assert Low32(s.calls[c].id) in s'.ledger.pending;
    EnrolledAll(s, c, s');
    EnrolledOnly(s, c, s');
  }

  lemma EnrolledOnly(s: Sys, c: nat, s': Sys)
    requires PendingOk(s) && In(s, c, Named) && s'.calls == s.calls[c := s.calls[c].(phase := Enrolled)]
    requires s'.ledger.pending == s.ledger.pending[Low32(s.calls[c].id) := Announcement(s.calls[c])]
    ensures forall id | id in s'.ledger.pending :: AnnouncedAs(s', id)
  {
    forall id | id in s'.ledger.pending ensures AnnouncedAs(s', id) {
      if id == Low32(s.calls[c].id) {
        assert s'.calls[c].Announced();
      } else {
        var d :| d in s.calls && s.calls[d].Announced() && Low32(s.calls[d].id) == id;
        assert d in s'.calls && s'.calls[d].Announced();
      }
    }
  }

  lemma EnrolledAll(s: Sys, c: nat, s': Sys)
    requires PendingOk(s) && c in s.calls && !s.calls[c].Announced() && Low32(s.calls[c].id) !in s.ledger.pending
    requires s'.calls == s.calls[c := s.calls[c].(phase := Enrolled)]
    requires s'.ledger.pending == s.ledger.pending[Low32(s.calls[c].id) := Announcement(s.calls[c])]
    ensures forall d | d in s'.calls && s'.calls[d].Announced() ::
              Low32(s'.calls[d].id) in s'.ledger.pending && s'.ledger.pending[Low32(s'.calls[d].id)] == Announcement(s'.calls[d])
  {
    hide Low32;
    forall d | d in s'.calls && s'.calls[d].Announced() && d != c
      ensures Low32(s'.calls[d].id) in s'.ledger.pending && s'.ledger.pending[Low32(s'.calls[d].id)] == Announcement(s'.calls[d])
    {
      assert s.calls[d].Announced();
    }
  }

  lemma SingleMoves(s: Sys, step: Step, s': Sys)
    requires StepOk(s, step, s') && !step.Commit? && !step.Post?
    ensures OneMoves(s, step.c, s') && s'.ledger == s.ledger.(pending := s'.ledger.pending)
  {
    hide Low32;
  }

  lemma SingleIds(s: Sys, step: Step, s': Sys)
    requires ClocksOk(s) && IdsOk(s.calls) && StepOk(s, step, s') && !step.Commit? && !step.Post?
    ensures IdsOk(s'.calls)
  {
    hide Low32;
    IdsKept(s.calls, step.c, s'.calls[step.c]);
  }

  lemma SinglePending(s: Sys, step: Step, s': Sys)
    requires PendingOk(s) && Apart(s.calls) && !Lost(s, step) && StepOk(s, step, s') && !step.Commit? && !step.Post?
    ensures PendingOk(s') && Apart(s'.calls)
  {
    hide Low32, Shared;
    if step.Enroll? {
      EnrollPending(s, step.c, s');
    } else {
      PendingKept(s, step.c, s');
      ApartKept(s.calls, step.c, s'.calls[step.c]);
    }
  }

  lemma SingleTiming(s: Sys, step: Step, s': Sys)
    requires ClocksOk(s) && TimingOk(s) && StepOk(s, step, s') && !step.Commit? && !step.Post? && OneMoves(s, step.c, s')
    ensures TimingOk(s')
  {
    hide Low32;
    TimingKept(s, step.c, s');
  }

  lemma SingleQueue(s: Sys, step: Step, s': Sys)
    requires QueueOk(s) && StepOk(s, step, s') && !step.Commit? && !step.Post?
    ensures QueueOk(s')
  {
    hide Low32;
    if step.Queue? { QueueGrows(s, step.c, s'); } else { QueueKept(s, step.c, s'); }
  }

  lemma SingleInv(s: Sys, step: Step, s': Sys)
    requires Inv(s) && !Lost(s, step) && StepOk(s, step, s') && !step.Commit? && !step.Post?
    ensures Inv(s')
  {
    hide Low32, Lost, StepOk, OneMoves, ClocksOk, IdsOk, Apart, QueueOk, NumbersOk, PendingOk, TimingOk, HistoryIs;
    SingleMoves(s, step, s');
    ClocksKept(s, step, s');
    SingleIds(s, step, s');
    NumbersKept(s, step.c, s');
    if !s.ledger.locked { HistoryKept(s, step.c, s'); }
    SingleTiming(s, step, s');
    SinglePending(s, step, s');
    SingleQueue(s, step, s');
  }

  /**
   An announcement is lost exactly when an announced call has the same low 32 bits, and
   exactly then the auditor can no longer tell its calls apart.
   */
  lemma EnrollIff(s: Sys, c: nat, s': Sys)
    requires Inv(s) && StepOk(s, Enroll(c), s')
    ensures s'.ledger.pending == s.ledger.pending <==> Shared(s, c)
    ensures Inv(s') <==> !Shared(s, c)
  {
    hide Low32;
    if Shared(s, c) {
      var d :| d in s.calls && s.calls[d].Announced() && Low32(s.calls[d].id) == Low32(s.calls[c].id);
      assert s'.calls[c].Announced() && s'.calls[d].Announced() && c != d;
      assert !Apart(s'.calls);
    } else {
      EnrollPending(s, c, s');
      SingleInv(s, Enroll(c), s');
    }
  }

  /** Of two calls with the same low 32 bits, the first to report takes the entry and the second finds none. */
  lemma SecondFindsNothing(s: Sys, c: nat, d: nat, s': Sys)
    requires In(s, c, Ended) && In(s, d, Ended) && c != d && Low32(s.calls[c].id) == Low32(s.calls[d].id)
    requires StepOk(s, Post(c), s')
    ensures In(s', d, Ended) && forall t :: !StepOk(s', Post(d), t)
  {
    ReportRemoves(s, c, s');
  }

  lemma QueueGrows(s: Sys, c: nat, s': Sys)
    requires QueueOk(s) && StepOk(s, Queue(c), s')
    ensures QueueOk(s')
  {
  }

  // ------------------------------------------------------------ group commit

  /** Every put keeps its start and id; those in the group go from Queued to Committed. */
  lemma GroupPuts(s: Sys, n: nat, s': Sys)
    requires QueueOk(s) && GroupCommitted(s, n, s')
    ensures forall c | c in s.calls :: c in s'.calls && s'.calls[c].start == s.calls[c].start && s'.calls[c].id == s.calls[c].id
    ensures forall c | c in s.calls && s'.calls[c] != s.calls[c] :: s.calls[c].phase.Queued? && s'.calls[c].phase.Committed?
    ensures forall c | c in s.calls && s'.calls[c] != s.calls[c] :: s.last < s'.calls[c].number <= s.last + n
  {
    forall c | c in s.calls && c in s.queue[..n]
      ensures s'.calls[c].start == s.calls[c].start && s'.calls[c].id == s.calls[c].id
      ensures s.calls[c].phase.Queued? && s'.calls[c].phase.Committed? && s.last < s'.calls[c].number <= s.last + n
    {
      var i :| 0 <= i < n && s.queue[i] == c;
      assert In(s, s.queue[i], Queued);
    }
  }

  lemma GroupTold(s: Sys, n: nat, s': Sys)
    requires QueueOk(s) && NumbersOk(s) && GroupCommitted(s, n, s')
    ensures NumbersOk(s')
    ensures forall x, c | Told(s', x, c) && x <= s.last :: Told(s, x, c) && s'.calls[c] == s.calls[c]
  {
    GroupPuts(s, n, s');
    ReportsConserve(s.last, n, n);
    var told := Reported(s.last, n, n);
    forall x | x in s'.holder ensures Told(s', x, s'.holder[x]) {
      if x in s.holder {
        assert Told(s, x, s.holder[x]);
      } else {
        assert x in told;
        var i :| 0 <= i < n && told[i] == x;
        assert In(s, s.queue[i], Queued);
      }
    }
    forall x, c | Told(s', x, c) ensures x in s'.holder && s'.holder[x] == c && (x <= s.last ==> Told(s, x, c) && s'.calls[c] == s.calls[c]) {
      if c in s.queue[..n] {
        var i :| 0 <= i < n && s.queue[i] == c;
        assert x == told[i] && told[i] in told;
      } else {
        assert Told(s, x, c);
      }
    }
  }

  lemma GroupPosted(s: Sys, n: nat, s': Sys)
    requires QueueOk(s) && NumbersOk(s) && GroupCommitted(s, n, s') && NumbersOk(s')
    ensures forall x :: IsPosted(s', x) <==> IsPosted(s, x)
    ensures forall x | IsPosted(s, x) && IsPosted(s', x) :: s'.calls[s'.holder[x]] == s.calls[s.holder[x]]
  {
    GroupPuts(s, n, s');
    forall x | x in s.holder ensures s'.calls[s'.holder[x]] == s.calls[s.holder[x]] {
      assert Told(s, x, s.holder[x]);
    }
    forall x | x in s'.holder && x !in s.holder ensures !IsPosted(s', x) {
      assert Told(s', x, s'.holder[x]);
      assert !Told(s, x, s'.holder[x]);
    }
  }

  lemma GroupHistory(s: Sys, n: nat, s': Sys)
    requires QueueOk(s) && NumbersOk(s) && HistoryIs(s, |s.ledger.log|) && GroupCommitted(s, n, s') && NumbersOk(s')
    ensures HistoryIs(s', |s'.ledger.log|)
  {
    GroupPosted(s, n, s');
    SamePosted(s, s', |s.ledger.log|);
  }

  lemma SamePosted(s: Sys, s': Sys, h: nat)
    requires HistoryIs(s, h) && s'.ledger == s.ledger.(pending := s'.ledger.pending) && forall x :: IsPosted(s', x) <==> IsPosted(s, x)
    requires forall x | IsPosted(s, x) && IsPosted(s', x) :: s'.calls[s'.holder[x]] == s.calls[s.holder[x]]
    ensures HistoryIs(s', h)
  {
    forall x | 1 <= x <= h ensures IsPosted(s', x) && s'.ledger.log[x - 1] == OpOf(s'.calls[s'.holder[x]]) {
      assert IsPosted(s, x);
    }
  }

  lemma GroupTiming(s: Sys, n: nat, s': Sys)
    requires QueueOk(s) && NumbersOk(s) && TimingOk(s) && GroupCommitted(s, n, s')
    ensures TimingOk(s')
  {
    GroupPuts(s, n, s');
    GroupTold(s, n, s');
    forall m, x, c, d | Told(s', m, c) && Told(s', x, d) && m <= x && s'.calls[d].HasEnd()
      ensures s'.calls[c].start < s'.calls[d].end
    {
      assert s'.calls[d] == s.calls[d] && Told(s, x, d);
      assert x <= s.last;
    }
  }

  lemma GroupQueue(s: Sys, n: nat, s': Sys)
    requires QueueOk(s) && GroupCommitted(s, n, s')
    ensures QueueOk(s')
  {
    forall i | 0 <= i < |s'.queue| ensures In(s', s'.queue[i], Queued) {
      assert s'.queue[i] == s.queue[n + i];
      assert In(s, s.queue[n + i], Queued);
      assert s.queue[n + i] !in s.queue[..n];
    }
  }

  lemma GroupPending(s: Sys, n: nat, s': Sys)
    requires QueueOk(s) && PendingOk(s) && GroupCommitted(s, n, s')
    ensures PendingOk(s')
  {
    GroupPuts(s, n, s');
    forall id | id in s'.ledger.pending ensures AnnouncedAs(s', id) {
      var d :| d in s.calls && s.calls[d].Announced() && Low32(s.calls[d].id) == id;
      assert d in s'.calls && s'.calls[d].Announced();
    }
  }

  lemma GroupClocks(s: Sys, n: nat, s': Sys)
    requires QueueOk(s) && ClocksOk(s) && IdsOk(s.calls) && Apart(s.calls) && GroupCommitted(s, n, s')
    ensures ClocksOk(s') && IdsOk(s'.calls) && Apart(s'.calls)
  {
    hide Low32, GroupCommitted, QueueOk;
    GroupPuts(s, n, s');
    assert s'.calls.Keys == s.calls.Keys && s'.ticks == s.ticks && s'.ids == s.ids by { GroupSame(s, n, s'); }
  }

  lemma GroupSame(s: Sys, n: nat, s': Sys)
    requires GroupCommitted(s, n, s')
    ensures s'.calls.Keys == s.calls.Keys && s'.ticks == s.ticks && s'.ids == s.ids
  {
  }

  lemma CommitInv(s: Sys, n: nat, s': Sys)
    requires Inv(s) && StepOk(s, Commit(n), s')
    ensures Inv(s')
  {
    GroupTold(s, n, s');
    if !s.ledger.locked { GroupHistory(s, n, s'); }
    GroupTiming(s, n, s');
    GroupQueue(s, n, s');
    GroupPending(s, n, s');
    GroupClocks(s, n, s');
  }

  // ----------------------------------------------------------------- reports

  ghost function WithReport(s: Sys, c: nat): map<nat, Op>
    requires c in s.calls
  {
    s.ledger.completed[s.calls[c].number := OpOf(s.calls[c])]
  }

  /** The reported op as the auditor assembles it, and the buffer it lands in. */
  lemma ReportLands(s: Sys, c: nat)
    requires Inv(s) && In(s, c, Ended) && s.calls[c].write && !s.ledger.locked
    ensures Low32(s.calls[c].id) in s.ledger.pending && s.calls[c].number !in s.ledger.completed
    ensures s.ledger.pending[Low32(s.calls[c].id)].(end := Low32(s.calls[c].end), ts := Low32(s.calls[c].number)) == OpOf(s.calls[c])
    ensures 0 !in WithReport(s, c)
  {
    var p := s.calls[c];
    assert p.Announced() && Told(s, p.number, c);
  }

  /** Numbers of waiting ops with their puts, once `c` counts as posted. */
  ghost predicate Waiting(s: Sys, c: nat, comp: map<nat, Op>, h: nat) {
    && (forall n :: n in comp <==> n > h && (IsPosted(s, n) || (n in s.holder && s.holder[n] == c)))
    && (forall n | n in comp :: n in s.holder && s.holder[n] in s.calls && comp[n] == OpOf(s.calls[s.holder[n]])
          && s.calls[s.holder[n]].HasEnd() && Told(s, n, s.holder[n]))
  }

  lemma ReportWaits(s: Sys, c: nat)
    requires Inv(s) && In(s, c, Ended) && s.calls[c].write && !s.ledger.locked
    ensures Waiting(s, c, WithReport(s, c), |s.ledger.log|)
  {
    var p := s.calls[c];
    assert Told(s, p.number, c);
    var h := |s.ledger.log|;
    assert !IsPosted(s, p.number);
    assert p.number > 0;
    forall n | n in s.ledger.completed ensures Told(s, n, s.holder[n]) { assert IsPosted(s, n); }
  }

  lemma PostedGrows(s: Sys, c: nat, s': Sys)
    requires NumbersOk(s) && In(s, c, Ended)
    requires s'.calls == s.calls[c := s.calls[c].(phase := Posted)] && s'.holder == s.holder
    ensures forall n :: IsPosted(s', n) <==> IsPosted(s, n) || (n in s.holder && s.holder[n] == c)
    ensures forall n | n in s.holder :: s.holder[n] in s.calls && s.holder[n] in s'.calls && OpOf(s'.calls[s.holder[n]]) == OpOf(s.calls[s.holder[n]])
  {
    forall n | n in s.holder ensures s.holder[n] in s.calls { assert Told(s, n, s.holder[n]); }
  }

  /** `s'` is `s` with `c` posted and `acl` merged; h and h' are the lengths of the history before and after. */
  ghost predicate Merged(s: Sys, c: nat, comp: map<nat, Op>, s': Sys, acl: seq<Op>, h: nat, h': nat) {
    && In(s, c, Ended) && s'.calls == s.calls[c := s.calls[c].(phase := Posted)] && s'.holder == s.holder
    && Waiting(s, c, comp, h) && Takes(comp, h + 1, acl, s'.ledger.completed)
    && s'.ledger.log == s.ledger.log + acl && h == |s.ledger.log| && h' == |s'.ledger.log|
    && s'.ledger.latest == if acl != [] then acl[|acl| - 1] else s.ledger.latest
  }

  lemma ReportLog(s: Sys, c: nat, comp: map<nat, Op>, s': Sys, acl: seq<Op>, h: nat, h': nat)
    requires NumbersOk(s) && LogIs(s, h) && Merged(s, c, comp, s', acl, h, h')
    ensures LogIs(s', h')
  {
    PostedGrows(s, c, s');
    forall n | 1 <= n <= h' ensures IsPosted(s', n) && s'.ledger.log[n - 1] == OpOf(s'.calls[s'.holder[n]]) {
      if n <= h {
        assert IsPosted(s, n);
      } else {
        assert n in comp && acl[n - (h + 1)] == comp[n];
      }
    }
  }

  lemma ReportCompleted(s: Sys, c: nat, comp: map<nat, Op>, s': Sys, acl: seq<Op>, h: nat, h': nat)
    requires NumbersOk(s) && Merged(s, c, comp, s', acl, h, h')
    ensures CompletedIs(s', h')
  {
    PostedGrows(s, c, s');
  }

  lemma ReportLatest(s: Sys, c: nat, comp: map<nat, Op>, s': Sys, acl: seq<Op>, h: nat, h': nat)
    requires LatestIs(s.ledger, h) && Merged(s, c, comp, s', acl, h, h')
    ensures LatestIs(s'.ledger, h')
  {
    hide Waiting, Takes, Low32;
    if acl != [] { TakenNumber(s, c, comp, acl, s'.ledger.completed, h, h'); }
  }

  lemma TakenNumber(s: Sys, c: nat, comp: map<nat, Op>, acl: seq<Op>, rest: map<nat, Op>, h: nat, n: nat)
    requires Waiting(s, c, comp, h) && Takes(comp, h + 1, acl, rest) && h < n <= h + |acl|
    ensures n < W && acl[n - h - 1].ts == n
  {
    assert n in comp && acl[n - (h + 1)] == comp[n];
    assert Told(s, n, s.holder[n]);
  }

  /** At the last 32-bit number the history looks for 0, finds nothing, and nothing moves. */
  lemma TakesFromNext(comp: map<nat, Op>, h: Word, acl: seq<Op>, rest: map<nat, Op>)
    requires Takes(comp, Inc(h), acl, rest)
    ensures Takes(comp, h + 1, acl, rest)
  {
  }

  ghost predicate Assembled(s: Sys, c: nat) {
    && c in s.calls && Low32(s.calls[c].id) in s.ledger.pending && s.calls[c].number !in s.ledger.completed
    && s.ledger.pending[Low32(s.calls[c].id)].(end := Low32(s.calls[c].end), ts := Low32(s.calls[c].number)) == OpOf(s.calls[c])
  }

  lemma PostComputes(s: Sys, c: nat, s': Sys, acl: seq<Op>, rest: map<nat, Op>)
    requires StepOk(s, Post(c), s') && s.calls[c].write && Assembled(s, c)
    requires (acl, rest) == Drain(WithReport(s, c), Inc(s.ledger.latest.ts))
    ensures s'.ledger.locked <==> Refused(s.ledger.latest, acl)
    ensures s'.ledger.alarmed <==> s.ledger.alarmed || !NoneInverted(acl)
    ensures !s'.ledger.locked ==> s'.ledger.log == s.ledger.log + acl && s'.ledger.completed == rest
    ensures !s'.ledger.locked ==> s'.ledger.latest == if acl != [] then acl[|acl| - 1] else s.ledger.latest
  {
    hide Drain, Low32, NoneInverted, Refused;
  }

  lemma PostDrain(s: Sys, c: nat, comp: map<nat, Op>, h: nat, acl: seq<Op>, rest: map<nat, Op>)
    requires HistoryIs(s, h) && 0 !in comp
    requires (acl, rest) == Drain(comp, Inc(s.ledger.latest.ts))
    ensures Takes(comp, h + 1, acl, rest)
  {
    DrainTakes(comp, Inc(s.ledger.latest.ts));
    TakesFromNext(comp, h, acl, rest);
  }

  lemma MergedHistory(s: Sys, c: nat, comp: map<nat, Op>, s': Sys, acl: seq<Op>, h: nat, h': nat)
    requires NumbersOk(s) && HistoryIs(s, h) && Merged(s, c, comp, s', acl, h, h')
    ensures HistoryIs(s', h')
  {
    ReportLog(s, c, comp, s', acl, h, h');
    ReportCompleted(s, c, comp, s', acl, h, h');
    ReportLatest(s, c, comp, s', acl, h, h');
  }

  /** After a report that is not refused the history has grown by what was drained, and the rest waits. */
  lemma PostHistory(s: Sys, c: nat, s': Sys, comp: map<nat, Op>, h: nat, acl: seq<Op>, rest: map<nat, Op>)
    requires NumbersOk(s) && HistoryIs(s, h) && StepOk(s, Post(c), s') && h == |s.ledger.log| && s.calls[c].write
    requires comp == WithReport(s, c) && Waiting(s, c, comp, h) && 0 !in comp && Assembled(s, c)
    requires (acl, rest) == Drain(comp, Inc(s.ledger.latest.ts))
    ensures s'.ledger.locked || HistoryIs(s', |s'.ledger.log|)
  {
    PostDrain(s, c, comp, h, acl, rest);
    PostComputes(s, c, s', acl, rest);
    if !s'.ledger.locked { MergedHistory(s, c, comp, s', acl, h, |s'.ledger.log|); }
  }

  lemma PostInv(s: Sys, c: nat, s': Sys)
    requires Inv(s) && StepOk(s, Post(c), s')
    ensures Inv(s')
  {
    hide Low32;
    if s.calls[c].write {
      ReportLands(s, c);
      ReportWaits(s, c);
      var d := Drain(WithReport(s, c), Inc(s.ledger.latest.ts));
      PostHistory(s, c, s', WithReport(s, c), |s.ledger.log|, d.0, d.1);
    } else {
      GetHistory(s, c, s');
    }
    IdsKept(s.calls, c, s'.calls[c]);
    ApartKept(s.calls, c, s'.calls[c]);
    QueueKept(s, c, s');
    PostNumbers(s, c, s');
    PostPending(s, c, s');
  }

  /** A finished get leaves the history alone. */
  lemma GetHistory(s: Sys, c: nat, s': Sys)
    requires NumbersOk(s) && HistoryIs(s, |s.ledger.log|) && StepOk(s, Post(c), s') && !s.calls[c].write
    ensures HistoryIs(s', |s'.ledger.log|)
  {
    hide Low32;
    forall n | n in s.holder ensures s.holder[n] != c { assert Told(s, n, s.holder[n]); }
    SamePosted(s, s', |s.ledger.log|);
  }

  lemma PostNumbers(s: Sys, c: nat, s': Sys)
    requires NumbersOk(s) && StepOk(s, Post(c), s')
    ensures NumbersOk(s')
    ensures TimingOk(s) && ClocksOk(s) ==> TimingOk(s') && ClocksOk(s')
  {
    hide Low32, Report;
    assert forall n, d :: Told(s', n, d) <==> Told(s, n, d);
  }

  lemma PostPending(s: Sys, c: nat, s': Sys)
    requires PendingOk(s) && Apart(s.calls) && StepOk(s, Post(c), s')
    ensures PendingOk(s')
  {
    hide Report, Low32;
    var x := Low32(s.calls[c].id);
    assert s'.ledger.pending == s.ledger.pending - {x} by { ReportRemoves(s, c, s'); }
    forall d | d in s'.calls && s'.calls[d].Announced()
      ensures Low32(s'.calls[d].id) in s'.ledger.pending && s'.ledger.pending[Low32(s'.calls[d].id)] == Announcement(s'.calls[d])
    {
      assert s.calls[d].Announced() && s.calls[c].Announced();
    }
    forall id | id in s'.ledger.pending ensures AnnouncedAs(s', id) {
      assert AnnouncedAs(s, id);
      var d :| d in s.calls && s.calls[d].Announced() && Low32(s.calls[d].id) == id;
      assert d in s'.calls && s'.calls[d].Announced();
    }
  }

  lemma ReportRemoves(s: Sys, c: nat, s': Sys)
    requires StepOk(s, Post(c), s')
    ensures s'.ledger.pending == s.ledger.pending - {Low32(s.calls[c].id)}
  {
    hide Drain, Low32, NoneInverted, Refused;
  }

  // -------------------------------------------------------------- whole runs

  ghost predicate IsExecution(states: seq<Sys>, steps: seq<Step>) {
    && |states| == |steps| + 1 && Init(states[0])
    && forall i | 0 <= i < |steps| :: StepOk(states[i], steps[i], states[i + 1])
  }

  lemma InitInv(s: Sys)
    requires Init(s)
    ensures Inv(s)
  {
  }

  lemma StepInv(s: Sys, step: Step, s': Sys)
    requires Inv(s) && StepOk(s, step, s')
    ensures Inv(s') <==> !Lost(s, step)
  {
    hide Inv;
    match step {
      case Commit(k) => CommitInv(s, k, s');
      case Post(c) => PostInv(s, c, s');
      case Enroll(c) => EnrollIff(s, c, s');
      case _ => SingleInv(s, step, s');
    }
  }

  /** Every interleaving, however long, keeps the invariant exactly as long as no announcement is lost. */
  lemma {:induction false} ExecutionInv(states: seq<Sys>, steps: seq<Step>, n: nat)
    requires IsExecution(states, steps) && n < |states|
    ensures (forall i | 0 <= i <= n :: Inv(states[i])) <==> (forall i | 0 <= i < n :: !Lost(states[i], steps[i]))
  {
    hide StepOk, Inv, Lost;
    if n == 0 {
      InitInv(states[0]);
    } else {
      ExecutionInv(states, steps, n - 1);
      assert (forall i | 0 <= i <= n :: Inv(states[i])) <==> (forall i | 0 <= i <= n - 1 :: Inv(states[i])) && Inv(states[n]);
      if Inv(states[n - 1]) { StepInv(states[n - 1], steps[n - 1], states[n]); }
    }
  }

  /** No call stays open while 2^32 ids are handed out. */
  ghost predicate IdsClose(s: Sys) {
    forall c | c in s.calls && s.calls[c].HasId() && !s.calls[c].phase.Posted? :: s.ids < s.calls[c].id + W
  }

  lemma Low32Apart(a: nat, b: nat)
    requires a < b + W && b < a + W && a != b
    ensures Low32(a) != Low32(b)
  {
  }

  /** The low 32 bits tell open calls apart. */
  lemma CloseApart(s: Sys, step: Step, s': Sys)
    requires IdsOk(s.calls) && ClocksOk(s) && IdsClose(s) && StepOk(s, step, s')
    ensures !Lost(s, step)
  {
    hide Low32;
    if Lost(s, step) {
      var c := step.c;
      var d :| d in s.calls && s.calls[d].Announced() && Low32(s.calls[d].id) == Low32(s.calls[c].id);
      var a, b := s.calls[c].id, s.calls[d].id;
      assert s.ids < a + W && s.ids < b + W && a <= s.ids && b <= s.ids && a != b;
      Low32Apart(a, b);
    }
  }

  /** A run in which no call stays open that long loses no announcement. */
  lemma {:induction false} CloseRun(states: seq<Sys>, steps: seq<Step>, n: nat)
    requires IsExecution(states, steps) && n < |states| && forall i | 0 <= i < n :: IdsClose(states[i])
    ensures forall i | 0 <= i < n :: !Lost(states[i], steps[i])
    ensures Inv(states[n])
  {
    hide StepOk, Lost, IdsClose, IdsOk, ClocksOk, Apart, QueueOk, NumbersOk, PendingOk, TimingOk, HistoryIs;
    if n > 0 {
      CloseRun(states, steps, n - 1);
      CloseApart(states[n - 1], steps[n - 1], states[n]);
    }
    ExecutionInv(states, steps, n);
  }

  // ------------------------------------------------- what no id can disturb

  /** The part of the invariant that speaks of numbers alone. */
  ghost predicate Counted(s: Sys) {
    QueueOk(s) && NumbersOk(s) && 0 !in s.ledger.completed
  }

  lemma {:induction false} DrainLeaves(comp: map<nat, Op>, cur: Word)
    ensures Drain(comp, cur).1.Keys <= comp.Keys
    decreases |comp|
  {
    if cur in comp {
      assert (comp - {cur}).Keys == comp.Keys - {cur};
      DrainLeaves(comp - {cur}, Inc(cur));
    }
  }

  /** What a report leaves waiting is what waited before and itself. */
  lemma ReportWaiting(a: Ledger, id: Word, number: nat, end: Word)
    requires id in a.pending
    ensures Report(a, id, number, end).completed.Keys <= a.completed.Keys + {number}
  {
    hide Low32, Drain, Refused, NoneInverted;
    var op := a.pending[id].(end := end, ts := Low32(number));
    var comp := if number in a.completed then a.completed else a.completed[number := op];
    DrainLeaves(comp, Inc(a.latest.ts));
  }

  lemma PostCounted(s: Sys, c: nat, s': Sys)
    requires Counted(s) && StepOk(s, Post(c), s')
    ensures Counted(s')
  {
    hide Low32, Report;
    QueueKept(s, c, s');
    PostNumbers(s, c, s');
    var p := s.calls[c];
    if p.write {
      assert Told(s, p.number, c);
      ReportWaiting(s.ledger, Low32(p.id), p.number, Low32(p.end));
    }
  }

  lemma StepCounted(s: Sys, step: Step, s': Sys)
    requires Counted(s) && StepOk(s, step, s')
    ensures Counted(s')
  {
    hide Low32, Report;
    if step.Commit? {
      GroupTold(s, step.n, s');
      GroupQueue(s, step.n, s');
    } else if step.Post? {
      PostCounted(s, step.c, s');
    } else {
      SingleMoves(s, step, s');
      NumbersKept(s, step.c, s');
      SingleQueue(s, step, s');
    }
  }

  lemma {:induction false} ExecutionCounted(states: seq<Sys>, steps: seq<Step>, n: nat)
    requires IsExecution(states, steps) && n < |states|
    ensures Counted(states[n])
  {
    hide StepOk;
    if n > 0 {
      hide Counted;
      ExecutionCounted(states, steps, n - 1);
      StepCounted(states[n - 1], steps[n - 1], states[n]);
    }
  }

  /** Over any run the numbers told are exactly first+1..last, each to one put. */
  lemma NumbersConserved(states: seq<Sys>, steps: seq<Step>, n: nat, x: nat)
    requires IsExecution(states, steps) && n < |states|
    ensures states[n].first < x <= states[n].last <==> exists c :: Told(states[n], x, c)
    ensures forall c, d | Told(states[n], x, c) && Told(states[n], x, d) :: c == d
  {
    hide StepOk;
    ExecutionCounted(states, steps, n);
    var s := states[n];
    if x in s.holder { assert Told(s, x, s.holder[x]); }
  }

  // ---------------------------------------------------- what the auditor decides

  /** The 32-bit clock passes through zero somewhere after tick a and not after tick b. */
  predicate Wraps(a: nat, b: nat) {
    a / W != b / W
  }

  /** Of two ticks less than 2^32 apart, the cut values are out of order exactly when the clock wrapped between them. */
  lemma CutOrder(a: nat, b: nat)
    requires a < b < a + W
    ensures Low32(b) <= Low32(a) <==> Wraps(a, b)
    ensures Low32(b) < Low32(a) <==> Wraps(a, b)
  {
  }

  ghost function StartOf(s: Sys, n: int): nat {
    if n in s.holder && s.holder[n] in s.calls then s.calls[s.holder[n]].start else 0
  }

  ghost function EndOf(s: Sys, n: int): nat {
    if n in s.holder && s.holder[n] in s.calls then s.calls[s.holder[n]].end else 0
  }

  /** How many operations the report of `c` lets through. */
  ghost function Drained(s: Sys, c: nat): nat
    requires c in s.calls
  {
    |Drain(WithReport(s, c), Inc(s.ledger.latest.ts)).0|
  }

  /** The recorded end of an operation is not behind the recorded start of an earlier one of the same batch. */
  ghost predicate CutInBatch(s: Sys, h: nat, k: nat) {
    exists m, n :: h < m < n <= h + k && Low32(EndOf(s, n)) <= Low32(StartOf(s, m))
  }

  /** The recorded end of the next operation is before the recorded start of the latest merged one. */
  ghost predicate CutBefore(s: Sys, h: nat, k: nat) {
    h > 0 && k > 0 && Low32(EndOf(s, h + 1)) < Low32(StartOf(s, h))
  }

  lemma DrainedOp(s: Sys, c: nat, comp: map<nat, Op>, h: nat, acl: seq<Op>, rest: map<nat, Op>, n: nat)
    requires Waiting(s, c, comp, h) && Takes(comp, h + 1, acl, rest) && h < n <= h + |acl|
    ensures acl[n - h - 1].start == Low32(StartOf(s, n)) && acl[n - h - 1].end == Low32(EndOf(s, n))
    ensures n in s.holder && Told(s, n, s.holder[n]) && s.calls[s.holder[n]].HasEnd()
  {
    hide Low32;
    assert n in comp && acl[n - (h + 1)] == comp[n];
  }

  lemma PairInverted(s: Sys, c: nat, comp: map<nat, Op>, h: nat, acl: seq<Op>, rest: map<nat, Op>, m: nat, n: nat)
    requires Waiting(s, c, comp, h) && Takes(comp, h + 1, acl, rest) && h < m < n <= h + |acl|
    ensures Inverted(acl, m - h - 1, n - h - 1) <==> Low32(EndOf(s, n)) <= Low32(StartOf(s, m))
  {
    DrainedOp(s, c, comp, h, acl, rest, m);
    DrainedOp(s, c, comp, h, acl, rest, n);
  }

  lemma BatchAlarm(s: Sys, c: nat, comp: map<nat, Op>, h: nat, acl: seq<Op>, rest: map<nat, Op>)
    requires Waiting(s, c, comp, h) && Takes(comp, h + 1, acl, rest)
    ensures !NoneInverted(acl) <==> CutInBatch(s, h, |acl|)
  {
    hide Inverted, Takes, Waiting, Low32, StartOf, EndOf;
    if !NoneInverted(acl) {
      var i, j :| 0 <= i < j < |acl| && Inverted(acl, i, j);
      PairInverted(s, c, comp, h, acl, rest, h + 1 + i, h + 1 + j);
    }
    if CutInBatch(s, h, |acl|) {
      var m, n :| h < m < n <= h + |acl| && Low32(EndOf(s, n)) <= Low32(StartOf(s, m));
      PairInverted(s, c, comp, h, acl, rest, m, n);
    }
  }

  lemma BatchRefused(s: Sys, c: nat, comp: map<nat, Op>, h: nat, acl: seq<Op>, rest: map<nat, Op>)
    requires Waiting(s, c, comp, h) && Takes(comp, h + 1, acl, rest) && LogIs(s, h) && LatestIs(s.ledger, h)
    ensures Refused(s.ledger.latest, acl) <==> CutBefore(s, h, |acl|)
  {
    if acl != [] && h > 0 {
      DrainedOp(s, c, comp, h, acl, rest, h + 1);
      assert IsPosted(s, h);
    }
  }

  /**
   What a report does, exactly: an alarm is raised if and only if two operations of the
   batch it completes are out of order in the low 32 bits of their times, and the merge is
   refused, which leaves the auditor locked, if and only if the first of the batch and the
   latest merged operation are. In true time every operation was in order.
   */
  lemma ReportIff(s: Sys, c: nat, s': Sys)
    requires Inv(s) && StepOk(s, Post(c), s') && s.calls[c].write
    ensures s'.ledger.alarmed <==> s.ledger.alarmed || CutInBatch(s, |s.ledger.log|, Drained(s, c))
    ensures s'.ledger.locked <==> CutBefore(s, |s.ledger.log|, Drained(s, c))
  {
    ReportLands(s, c);
    ReportWaits(s, c);
    var comp, h := WithReport(s, c), |s.ledger.log|;
    var d := Drain(comp, Inc(s.ledger.latest.ts));
    hide Low32, Drain, Takes, Waiting, NumbersOk, TimingOk, Refused, NoneInverted, CutInBatch, CutBefore, LogIs, CompletedIs, Report;
    PostDrain(s, c, comp, h, d.0, d.1);
    PostComputes(s, c, s', d.0, d.1);
    BatchAlarm(s, c, comp, h, d.0, d.1);
    BatchRefused(s, c, comp, h, d.0, d.1);
  }

  // ------------------------------------------------------------ what a wrap does

  /** The operations concerned are less than 2^32 ticks apart. */
  ghost predicate Near(s: Sys, h: nat, k: nat) {
    forall m, n | h <= m <= n <= h + k && 0 < m && h < n :: EndOf(s, n) < StartOf(s, m) + W
  }

  /** Between the start of an operation and the end of a later one of the same batch the clock wrapped. */
  ghost predicate WrapInBatch(s: Sys, h: nat, k: nat) {
    exists m, n :: h < m < n <= h + k && Wraps(StartOf(s, m), EndOf(s, n))
  }

  /** Between the start of the latest merged operation and the end of the next one the clock wrapped. */
  ghost predicate WrapBefore(s: Sys, h: nat, k: nat) {
    h > 0 && k > 0 && Wraps(StartOf(s, h), EndOf(s, h + 1))
  }

  /** In true time an operation starts before any later one of the history and the batch ends. */
  ghost predicate TrueOrder(s: Sys, h: nat, k: nat) {
    forall m, n | h <= m <= n <= h + k && 0 < m && h < n :: StartOf(s, m) < EndOf(s, n)
  }

  /** Where operations are less than 2^32 ticks apart, the low 32 bits are out of order exactly across a wrap. */
  lemma WrapIff(s: Sys, h: nat, k: nat)
    requires TrueOrder(s, h, k) && Near(s, h, k)
    ensures CutInBatch(s, h, k) <==> WrapInBatch(s, h, k)
    ensures CutBefore(s, h, k) <==> WrapBefore(s, h, k)
  {
    hide Low32, Wraps, StartOf, EndOf;
    forall m, n | h <= m <= n <= h + k && 0 < m && h < n
      ensures Low32(EndOf(s, n)) <= Low32(StartOf(s, m)) <==> Wraps(StartOf(s, m), EndOf(s, n))
      ensures Low32(EndOf(s, n)) < Low32(StartOf(s, m)) <==> Wraps(StartOf(s, m), EndOf(s, n))
    {
      CutOrder(StartOf(s, m), EndOf(s, n));
    }
  }

  lemma InTrueOrder(s: Sys, c: nat, comp: map<nat, Op>, h: nat, acl: seq<Op>, rest: map<nat, Op>)
    requires NumbersOk(s) && TimingOk(s) && LogIs(s, h) && Waiting(s, c, comp, h) && Takes(comp, h + 1, acl, rest)
    ensures TrueOrder(s, h, |acl|)
  {
    hide Takes, Waiting;
    forall m, n | h <= m <= n <= h + |acl| && 0 < m && h < n ensures StartOf(s, m) < EndOf(s, n) {
      DrainedOp(s, c, comp, h, acl, rest, n);
      if m == h { assert IsPosted(s, m); } else { DrainedOp(s, c, comp, h, acl, rest, m); }
      assert Told(s, m, s.holder[m]);
    }
  }

  /** The operations a report concerns are in order in true time. */
  lemma ReportOrder(s: Sys, c: nat)
    requires Inv(s) && In(s, c, Ended) && s.calls[c].write && !s.ledger.locked
    ensures TrueOrder(s, |s.ledger.log|, Drained(s, c))
  {
    hide Low32, Drain, Takes, Waiting, TrueOrder, PendingOk, QueueOk, IdsOk, ClocksOk, Apart;
    ReportLands(s, c);
    ReportWaits(s, c);
    var comp, h := WithReport(s, c), |s.ledger.log|;
    var d := Drain(comp, Inc(s.ledger.latest.ts));
    PostDrain(s, c, comp, h, d.0, d.1);
    InTrueOrder(s, c, comp, h, d.0, d.1);
  }

  // ------------------------------------------------------------- before any wrap

  /**
   No alarm was ever raised and no merge refused; the history's timestamp is the largest h
   below 2^32 with 1..h all posted; its k-th entry is the put told number k; and exactly
   the posted numbers above h wait.
   */
  ghost predicate Accepted(s: Sys) {
    var h := s.ledger.latest.ts;
    && !s.ledger.alarmed && !s.ledger.locked
    && (forall n | 1 <= n <= h :: IsPosted(s, n)) && (h + 1 < W ==> !IsPosted(s, h + 1))
    && |s.ledger.log| == h
    && (forall n | 1 <= n <= h :: IsPosted(s, n) && s.ledger.log[n - 1] == OpOf(s.calls[s.holder[n]]))
    && (forall n :: n in s.ledger.completed <==> IsPosted(s, n) && n > h)
  }

  lemma InvAccepted(s: Sys)
    requires HistoryIs(s, |s.ledger.log|) && !s.ledger.alarmed && !s.ledger.locked
    ensures Accepted(s)
  {
  }

  lemma EarlyTimes(s: Sys, n: int)
    requires ClocksOk(s) && s.ticks < W && NumbersOk(s)
    ensures StartOf(s, n) < W && (n in s.holder && s.calls[s.holder[n]].HasEnd() ==> EndOf(s, n) < W)
  {
    if n in s.holder { assert Told(s, n, s.holder[n]); }
  }

  lemma NoWraps(s: Sys, h: nat, k: nat)
    requires forall n | h <= n <= h + k :: StartOf(s, n) < W && (h < n ==> EndOf(s, n) < W)
    ensures Near(s, h, k) && !WrapInBatch(s, h, k) && !WrapBefore(s, h, k)
  {
    hide StartOf, EndOf;
  }

  lemma EarlyEnds(s: Sys, c: nat, comp: map<nat, Op>, h: nat, acl: seq<Op>, rest: map<nat, Op>)
    requires ClocksOk(s) && s.ticks < W && NumbersOk(s) && Waiting(s, c, comp, h) && Takes(comp, h + 1, acl, rest)
    ensures forall n | h <= n <= h + |acl| :: StartOf(s, n) < W && (h < n ==> EndOf(s, n) < W)
  {
    hide ClocksOk, NumbersOk, Waiting, Takes, StartOf, EndOf;
    forall n | h <= n <= h + |acl| ensures StartOf(s, n) < W && (h < n ==> EndOf(s, n) < W) {
      EarlyTimes(s, n);
      if h < n { DrainedOp(s, c, comp, h, acl, rest, n); }
    }
  }

  lemma EarlyReport(s: Sys, c: nat, s': Sys)
    requires Inv(s) && s.ticks < W && StepOk(s, Post(c), s') && s.calls[c].write
    ensures s'.ledger.alarmed == s.ledger.alarmed && !s'.ledger.locked
  {
    hide Low32, Report, Waiting, Takes, HistoryIs, NumbersOk, ClocksOk, TimingOk, PendingOk, QueueOk, IdsOk, Apart;
    hide CutInBatch, CutBefore, WrapInBatch, WrapBefore, Near, TrueOrder;
    ReportLands(s, c);
    ReportWaits(s, c);
    var comp, h := WithReport(s, c), |s.ledger.log|;
    var d := Drain(comp, Inc(s.ledger.latest.ts));
    PostDrain(s, c, comp, h, d.0, d.1);
    EarlyEnds(s, c, comp, h, d.0, d.1);
    NoWraps(s, h, |d.0|);
    ReportOrder(s, c);
    WrapIff(s, h, |d.0|);
    ReportIff(s, c, s');
  }

  /** In every interleaving, as long as neither counter has wrapped, the auditor accepts. */
  lemma AuditorAccepts(states: seq<Sys>, steps: seq<Step>, n: nat)
    requires IsExecution(states, steps) && n < |states| && states[n].ticks < W && states[n].ids < W
    ensures Accepted(states[n])
  {
    hide StepOk;
    EarlyCalm(states, steps, n);
    InvAccepted(states[n]);
  }

  lemma {:induction false} EarlyCalm(states: seq<Sys>, steps: seq<Step>, n: nat)
    requires IsExecution(states, steps) && n < |states| && states[n].ticks < W && states[n].ids < W
    ensures Inv(states[n]) && !states[n].ledger.alarmed && !states[n].ledger.locked
  {
    hide StepOk;
    if n == 0 {
      InitInv(states[0]);
    } else {
      hide Inv;
      CountersGrow(states[n - 1], steps[n - 1], states[n]);
      EarlyCalm(states, steps, n - 1);
      EarlyStep(states[n - 1], steps[n - 1], states[n]);
    }
  }

  lemma CountersGrow(s: Sys, step: Step, s': Sys)
    requires StepOk(s, step, s')
    ensures s.ticks <= s'.ticks && s.ids <= s'.ids
  {
    hide Low32, Report;
  }

  lemma EarlyStep(s: Sys, step: Step, s': Sys)
    requires Inv(s) && StepOk(s, step, s') && s.ticks < W && s.ids < W && !s.ledger.alarmed && !s.ledger.locked
    ensures Inv(s') && !s'.ledger.alarmed && !s'.ledger.locked
  {
    hide Low32, Report, NumbersOk, TimingOk, HistoryIs, PendingOk, QueueOk, IdsOk, Apart, Lost;
    CloseApart(s, step, s');
    StepInv(s, step, s');
    if step.Post? && s.calls[step.c].write { EarlyReport(s, step.c, s'); }
  }

  // --------------------------------------------------------------- after the wraps

  /** A step by which the auditor raises an alarm although every operation was in order. */
  ghost predicate FalseAlarm(s: Sys, step: Step) {
    step.Post? && In(s, step.c, Ended) && s.calls[step.c].write && CutInBatch(s, |s.ledger.log|, Drained(s, step.c))
  }

  /**
   Over any run that loses no announcement the auditor has raised an alarm if and only if
   the low 32 bits of two times of one batch were out of order.
   */
  lemma {:induction false} AlarmedIff(states: seq<Sys>, steps: seq<Step>, n: nat)
    requires IsExecution(states, steps) && n < |states| && forall i | 0 <= i < n :: !Lost(states[i], steps[i])
    ensures states[n].ledger.alarmed <==> exists i :: 0 <= i < n && FalseAlarm(states[i], steps[i])
  {
    hide StepOk, Inv, FalseAlarm, Lost;
    if n > 0 {
      AlarmedIff(states, steps, n - 1);
      ExecutionInv(states, steps, n - 1);
      AlarmStep(states[n - 1], steps[n - 1], states[n]);
    }
  }

  lemma AlarmStep(s: Sys, step: Step, s': Sys)
    requires Inv(s) && StepOk(s, step, s')
    ensures s'.ledger.alarmed <==> s.ledger.alarmed || FalseAlarm(s, step)
  {
    hide Low32, Report, CutInBatch, Drained, Inv;
    if step.Post? && s.calls[step.c].write { ReportIff(s, step.c, s'); }
  }

  /** Where the operations of a batch are less than 2^32 ticks apart, a false alarm is exactly a wrap inside the batch. */
  lemma FalseAlarmIff(s: Sys, c: nat)
    requires Inv(s) && In(s, c, Ended) && s.calls[c].write && !s.ledger.locked && Near(s, |s.ledger.log|, Drained(s, c))
    ensures FalseAlarm(s, Post(c)) <==> WrapInBatch(s, |s.ledger.log|, Drained(s, c))
  {
    hide Low32, CutInBatch, WrapInBatch, TrueOrder, Near, Drained, Inv;
    ReportOrder(s, c);
    WrapIff(s, |s.ledger.log|, Drained(s, c));
  }

  /** Once the history has reached the last 32-bit number, a report is never merged: the number it waits for is 0. */
  lemma NothingAfterLast(s: Sys, step: Step, s': Sys)
    requires Counted(s) && !s.ledger.locked && s.ledger.latest.ts == W - 1 && StepOk(s, step, s')
    ensures s'.ledger.log == s.ledger.log && s'.ledger.latest == s.ledger.latest && !s'.ledger.locked
  {
    hide Low32;
    if step.Post? && s.calls[step.c].write {
      var p := s.calls[step.c];
      assert Told(s, p.number, step.c);
      assert s.ledger.log + [] == s.ledger.log;
    }
  }

  /** From the moment the history has reached 2^32 - 1 it stands still for the rest of any run. */
  lemma {:induction false} HistoryStops(states: seq<Sys>, steps: seq<Step>, i: nat, n: nat)
    requires IsExecution(states, steps) && i <= n < |states|
    requires !states[i].ledger.locked && states[i].ledger.latest.ts == W - 1
    ensures states[n].ledger.log == states[i].ledger.log && states[n].ledger.latest == states[i].ledger.latest
    ensures !states[n].ledger.locked
    decreases n
  {
    hide StepOk, Counted;
    if i < n {
      HistoryStops(states, steps, i, n - 1);
      ExecutionCounted(states, steps, n - 1);
      NothingAfterLast(states[n - 1], steps[n - 1], states[n]);
    }
  }
}
