/**
 The auditor's class takes the protocol's steps: what each of its locked sections does to
 its 32-bit counters and lists is what the step does to the counts they are the low bits of.
 */
module AuditSteps {
  import opened Auditor
  import opened AuditRuns

  /** The object shows the low 32 bits of the counts, and the protocol's ledger. */
  ghost predicate Shows(a: Audit, s: Sys)
    reads a
  {
    a.timer == Low32(s.ticks) && a.lastId == Low32(s.ids) && a.View() == s.ledger
  }

  /** g_timer++ and g_id++ on the low 32 bits. */
  lemma IncLow32(n: nat)
    ensures Inc(Low32(n)) == Low32(n + 1)
  {
  }

  lemma FreshShows(a: Audit, s: Sys)
    requires Init(s) && a.timer == a.lastId == a.alarms == 0 && !a.locked
    requires a.pending == map[] && a.completed == map[] && a.log == [] && a.latest == Op(0, 0, 0, 0)
    ensures Shows(a, s)
  {
  }

  /** getTime at the start of a call. */
  method StartCall(a: Audit, ghost s: Sys, ghost c: nat, ghost write: bool) returns (t: Word, ghost s': Sys)
    requires Shows(a, s) && c !in s.calls
    modifies a`timer
    ensures StepOk(s, Start(c, write), s') && Shows(a, s') && t == Low32(s'.calls[c].start)
  {
    t := a.GetTime();
    IncLow32(s.ticks);
    s' := s.(ticks := s.ticks + 1, calls := s.calls[c := Call(write, s.ticks + 1, 0, 0, 0, Timed)]);
  }

  /** allocId. */
  method NameCall(a: Audit, ghost s: Sys, ghost c: nat) returns (id: Word, ghost s': Sys)
    requires Shows(a, s) && In(s, c, Timed)
    modifies a`lastId
    ensures StepOk(s, Name(c), s') && Shows(a, s') && id == Low32(s'.calls[c].id)
  {
    id := a.AllocId();
    IncLow32(s.ids);
    s' := s.(ids := s.ids + 1, calls := s.calls[c := s.calls[c].(id := s.ids + 1, phase := Named)]);
  }

  /** The insertion into the pending list. */
  method EnrollCall(a: Audit, ghost s: Sys, ghost c: nat, id: Word, start: Word) returns (ghost s': Sys)
    requires Shows(a, s) && In(s, c, Named) && !a.locked && id == Low32(s.calls[c].id) && start == Low32(s.calls[c].start)
    modifies a`pending
    ensures StepOk(s, Enroll(c), s') && Shows(a, s')
  {
    a.Enroll(id, start);
    s' := s.(ledger := s.ledger.(pending := a.pending), calls := s.calls[c := s.calls[c].(phase := Enrolled)]);
  }

  /** getTime at the end of a call. */
  method EndCall(a: Audit, ghost s: Sys, ghost c: nat) returns (t: Word, ghost s': Sys)
    requires Shows(a, s) && In(s, c, if c in s.calls && s.calls[c].write then Committed else Enrolled)
    modifies a`timer
    ensures StepOk(s, End(c), s') && Shows(a, s') && t == Low32(s'.calls[c].end)
  {
    t := a.GetTime();
    IncLow32(s.ticks);
    s' := s.(ticks := s.ticks + 1, calls := s.calls[c := s.calls[c].(end := s.ticks + 1, phase := Ended)]);
  }

  /** The report of a put. The entry is there: whether it always is, EnrollIff says. */
  method PostPut(a: Audit, ghost s: Sys, ghost c: nat, id: Word, number: nat, end: Word) returns (ghost s': Sys)
    requires Shows(a, s) && In(s, c, Ended) && s.calls[c].write && !a.locked && id in a.pending
    requires id == Low32(s.calls[c].id) && number == s.calls[c].number && end == Low32(s.calls[c].end)
    modifies a`pending, a`completed, a`latest, a`log, a`alarms, a`locked
    ensures StepOk(s, Post(c), s') && Shows(a, s')
  {
    hide Low32, Report;
    a.Postput(id, number, end);
    s' := s.(calls := s.calls[c := s.calls[c].(phase := Posted)], ledger := Report(s.ledger, id, number, end));
  }

  /** The report of a get. */
  method PostGet(a: Audit, ghost s: Sys, ghost c: nat, id: Word) returns (ghost s': Sys)
    requires Shows(a, s) && In(s, c, Ended) && !s.calls[c].write && !a.locked && id in a.pending && id == Low32(s.calls[c].id)
    modifies a`pending
    ensures StepOk(s, Post(c), s') && Shows(a, s')
  {
    a.Postget(id);
    s' := s.(calls := s.calls[c := s.calls[c].(phase := Posted)], ledger := s.ledger.(pending := s.ledger.pending - {id}));
  }
}
