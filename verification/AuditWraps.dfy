/**
 Runs of the audited protocol that reach the ends of its 32-bit counters: one in which the
 auditor raises an alarm although every put was in order, one in which it locks itself, one
 in which its history reaches the last number and stops, and one in which an announcement is
 lost and its report finds nothing.
 */
module AuditWraps {
  import opened Auditor
  import opened GroupCommit
  import opened AuditRuns

  ghost predicate Reachable(t: Sys) {
    exists states, steps :: IsExecution(states, steps) && states[|steps|] == t
  }

  lemma ReachInit(s: Sys)
    requires Init(s)
    ensures Reachable(s)
  {
    assert IsExecution([s], []);
  }

  lemma ReachStep(s: Sys, step: Step, t: Sys)
    requires Reachable(s) && StepOk(s, step, t)
    ensures Reachable(t)
  {
    hide StepOk, Init;
    var states, steps :| IsExecution(states, steps) && states[|steps|] == s;
    var all, allSteps := states + [t], steps + [step];
    forall i | 0 <= i < |allSteps| ensures StepOk(all[i], allSteps[i], all[i + 1]) {
      if i < |steps| { assert StepOk(states[i], steps[i], states[i + 1]); }
    }
    assert IsExecution(all, allSteps);
  }

  // -------------------------------------------------------------- one put at a time

  /** Put `c` after everything but its report: it drew two ticks, an id and a number. */
  function PutCall(s: Sys): Call {
    Call(true, s.ticks + 1, s.ids + 1, s.last + 1, s.ticks + 2, Ended)
  }

  function PutDone(s: Sys, c: nat): Sys {
    s.(ticks := s.ticks + 2, ids := s.ids + 1, calls := s.calls[c := PutCall(s)], last := s.last + 1,
       holder := s.holder[s.last + 1 := c],
       ledger := s.ledger.(pending := s.ledger.pending[Low32(s.ids + 1) := Announcement(PutCall(s))]))
  }

  ghost predicate CanPut(s: Sys, c: nat) {
    && Reachable(s) && s.queue == [] && !s.ledger.locked && c !in s.calls
    && Low32(s.ids + 1) !in s.ledger.pending && forall x | x in s.holder :: x <= s.last
  }

  lemma PutAnnounced(s: Sys, c: nat) returns (t: Sys)
    requires CanPut(s, c)
    ensures Reachable(t)
    ensures t == s.(ticks := s.ticks + 1, ids := s.ids + 1, calls := s.calls[c := Call(true, s.ticks + 1, s.ids + 1, 0, 0, Enrolled)],
                    ledger := s.ledger.(pending := s.ledger.pending[Low32(s.ids + 1) := Announcement(PutCall(s))]))
  {
    hide Reachable, Low32;
    var p := Call(true, s.ticks + 1, 0, 0, 0, Timed);
    var s1 := s.(ticks := s.ticks + 1, calls := s.calls[c := p]);
    ReachStep(s, Start(c, true), s1);
    var s2 := s1.(ids := s.ids + 1, calls := s.calls[c := p.(id := s.ids + 1, phase := Named)]);
    assert s1.calls[c := p.(id := s.ids + 1, phase := Named)] == s2.calls;
    ReachStep(s1, Name(c), s2);
    t := s2.(ledger := s.ledger.(pending := s.ledger.pending[Low32(s.ids + 1) := Announcement(PutCall(s))]),
             calls := s.calls[c := p.(id := s.ids + 1, phase := Enrolled)]);
    assert s2.calls[c := p.(id := s.ids + 1, phase := Enrolled)] == t.calls;
    ReachStep(s2, Enroll(c), t);
  }

  lemma PutCommitted(s: Sys, c: nat, p: Call) returns (t: Sys)
    requires Reachable(s) && s.queue == [] && c in s.calls && s.calls[c] == p && p.write && p.phase == Enrolled
    requires forall x | x in s.holder :: x <= s.last
    ensures Reachable(t)
    ensures t == s.(calls := s.calls[c := p.(number := s.last + 1, phase := Committed)], last := s.last + 1, holder := s.holder[s.last + 1 := c])
  {
    hide Reachable;
    var s1 := s.(queue := [c], calls := s.calls[c := p.(phase := Queued)]);
    ReachStep(s, Queue(c), s1);
    t := s.(calls := s.calls[c := p.(number := s.last + 1, phase := Committed)], last := s.last + 1, holder := s.holder[s.last + 1 := c]);
    GroupOfOne(s1, c, t);
    ReachStep(s1, Commit(1), t);
  }

  lemma GroupOfOne(s: Sys, c: nat, t: Sys)
    requires s.queue == [c] && c in s.calls && forall x | x in s.holder :: x <= s.last
    requires t == s.(queue := [], calls := s.calls[c := s.calls[c].(number := s.last + 1, phase := Committed)],
                     last := s.last + 1, holder := s.holder[s.last + 1 := c])
    ensures GroupCommitted(s, 1, t)
  {
    assert s.queue[1..] == [] && s.queue[..1] == [c];
    assert Reported(s.last, 1, 1) == [s.last + 1];
  }

  lemma PutRun(s: Sys, c: nat)
    requires CanPut(s, c)
    ensures Reachable(PutDone(s, c))
  {
    hide Reachable, Low32;
    var s1 := PutAnnounced(s, c);
    var s2 := PutCommitted(s1, c, s1.calls[c]);
    var t := s2.(ticks := s.ticks + 2, calls := s2.calls[c := PutCall(s)]);
    ReachStep(s2, End(c), t);
    assert t.calls == s.calls[c := PutCall(s)];
    assert t == PutDone(s, c);
  }

  // ---------------------------------------------------------------- the reports

  lemma DrainNone(comp: map<nat, Op>, cur: Word)
    requires cur !in comp
    ensures Drain(comp, cur) == ([], comp)
  {
  }

  lemma DrainOne(comp: map<nat, Op>, x: Word, a: Op)
    requires comp == map[x := a]
    ensures Drain(comp, x) == ([a], map[])
  {
    assert comp - {x} == map[];
    DrainNone(comp - {x}, Inc(x));
    assert [a] + [] == [a];
  }

  lemma DrainTwo(comp: map<nat, Op>, x: Word, a: Op, b: Op)
    requires x + 1 < W && comp == map[x := a, x + 1 := b]
    ensures Drain(comp, x) == ([a, b], map[])
  {
    assert comp - {x} == map[x + 1 := b];
    DrainOne(comp - {x}, x + 1, b);
    assert [a] + [b] == [a, b];
  }

  /** Everything reported so far is merged: 1..n; `b` bounds the names of the calls made. */
  ghost predicate Steady(s: Sys, n: nat, b: nat, start: Word) {
    && Reachable(s) && s.queue == [] && s.last == n < W && s.ids < W
    && s.ledger.pending == map[] && s.ledger.completed == map[] && !s.ledger.locked
    && s.ledger.latest.ts == n && s.ledger.latest.start == start
    && (forall c | c in s.calls :: c < b) && (forall x | x in s.holder :: x <= n)
  }

  /** The report of a put whose number comes next and behind which nothing waits. */
  lemma PostNext(s: Sys, c: nat, n: nat) returns (t: Sys)
    requires Reachable(s) && In(s, c, Ended) && s.calls[c].write && !s.ledger.locked && s.calls[c].number == n + 1 < W
    requires s.ledger.latest.ts == n && s.ledger.completed == map[]
    requires s.ledger.pending == map[Low32(s.calls[c].id) := Announcement(s.calls[c])]
    ensures StepOk(s, Post(c), t) && Reachable(t) && t.ledger.alarmed == s.ledger.alarmed
    ensures t == s.(calls := s.calls[c := s.calls[c].(phase := Posted)], ledger := t.ledger)
    ensures t.ledger.locked <==> Low32(s.calls[c].end) < s.ledger.latest.start
    ensures !t.ledger.locked ==> t.ledger.pending == map[] && t.ledger.completed == map[] && t.ledger.latest == OpOf(s.calls[c])
  {
    hide Reachable;
    var p := s.calls[c];
    t := s.(calls := s.calls[c := p.(phase := Posted)], ledger := Report(s.ledger, Low32(p.id), p.number, Low32(p.end)));
    ReachStep(s, Post(c), t);
    DrainOne(s.ledger.completed[n + 1 := OpOf(p)], n + 1, OpOf(p));
    assert s.ledger.pending - {Low32(p.id)} == map[];
  }

  /** One more put, from start to report. */
  lemma OnePut(s: Sys, n: nat, b: nat, start: Word) returns (t: Sys)
    requires Steady(s, n, b, start) && n + 1 < W && s.ids + 1 < W && Low32(s.ticks + 2) >= start
    ensures Steady(t, n + 1, b + 1, Low32(s.ticks + 1)) && t.ticks == s.ticks + 2 && t.ids == s.ids + 1
    ensures t.ledger.alarmed == s.ledger.alarmed
  {
    hide Reachable, Low32;
    PutRun(s, b);
    var s1 := PutDone(s, b);
    assert s1.ledger.pending == map[Low32(s.ids + 1) := Announcement(PutCall(s))];
    t := PostNext(s1, b, n);
    assert t.ledger.latest.ts == n + 1 by { SmallLow32(n + 1); }
  }

  lemma SmallLow32(n: nat)
    requires n < W
    ensures Low32(n) == n
  {
  }

  /** n puts, one after the other. */
  lemma {:induction false} PutsFromStart(n: nat) returns (s: Sys)
    requires 2 * n < W
    ensures Steady(s, n, n, if n == 0 then 0 else 2 * n - 1) && s.ticks == 2 * n && s.ids == n && !s.ledger.alarmed
  {
    if n == 0 {
      s := Sys(0, 0, map[], [], 0, 0, map[], Ledger(map[], map[], Op(0, 0, 0, 0), [], false, false));
      ReachInit(s);
    } else {
      hide Steady;
      var s1 := PutsFromStart(n - 1);
      SmallLow32(2 * n);
      SmallLow32(2 * n - 1);
      s := OnePut(s1, n - 1, n - 1, if n == 1 then 0 else 2 * n - 3);
    }
  }

  /** m more puts within the second round of the clock. */
  lemma {:induction false} PutsAfterWrap(s: Sys, n: nat, b: nat, start: Word, m: nat) returns (t: Sys, last: Word)
    requires Steady(s, n, b, start) && W <= s.ticks && s.ticks + 2 * m < 2 * W && start <= s.ticks - W
    requires n + m < W && s.ids + m < W
    ensures Steady(t, n + m, b + m, last)
    decreases m
  {
    if m == 0 {
      t, last := s, start;
    } else {
      hide Steady;
      SecondRound(s.ticks + 2);
      SecondRound(s.ticks + 1);
      var s1 := OnePut(s, n, b, start);
      t, last := PutsAfterWrap(s1, n + 1, b + 1, Low32(s.ticks + 1), m - 1);
    }
  }

  lemma SecondRound(n: nat)
    requires W <= n < 2 * W
    ensures Low32(n) == n - W
  {
  }

  // ------------------------------------------------------------- across the wrap

  /** The report of a put that does not come next waits. */
  lemma PostWaits(s: Sys, c: nat, n: nat, x: Word, a: Op) returns (t: Sys)
    requires Reachable(s) && In(s, c, Ended) && s.calls[c].write && !s.ledger.locked && s.calls[c].number == n + 2 < W
    requires s.ledger.latest.ts == n && s.ledger.completed == map[] && x != Low32(s.calls[c].id)
    requires s.ledger.pending == map[x := a, Low32(s.calls[c].id) := Announcement(s.calls[c])]
    ensures Reachable(t)
    ensures t == s.(calls := s.calls[c := s.calls[c].(phase := Posted)],
                    ledger := s.ledger.(pending := map[x := a], completed := map[n + 2 := OpOf(s.calls[c])]))
  {
    hide Reachable;
    var p := s.calls[c];
    var l := Report(s.ledger, Low32(p.id), p.number, Low32(p.end));
    t := s.(calls := s.calls[c := p.(phase := Posted)], ledger := l);
    ReachStep(s, Post(c), t);
    var comp := s.ledger.completed[n + 2 := OpOf(p)];
    assert comp == map[n + 2 := OpOf(p)];
    DrainNone(comp, n + 1);
    assert s.ledger.pending - {Low32(p.id)} == map[x := a];
    assert s.ledger.log + [] == s.ledger.log;
  }

  /** The report of the put that was waited for lets two through. */
  lemma PostBoth(s: Sys, c: nat, n: nat, second: Op) returns (t: Sys)
    requires Reachable(s) && In(s, c, Ended) && s.calls[c].write && !s.ledger.locked && s.calls[c].number == n + 1 < W - 1
    requires s.ledger.latest.ts == n && s.ledger.completed == map[n + 2 := second]
    requires s.ledger.pending == map[Low32(s.calls[c].id) := Announcement(s.calls[c])]
    requires Low32(s.calls[c].end) >= s.ledger.latest.start && second.end <= Low32(s.calls[c].start)
    ensures StepOk(s, Post(c), t) && Reachable(t)
    ensures t == s.(calls := s.calls[c := s.calls[c].(phase := Posted)], ledger := t.ledger)
    ensures t.ledger.alarmed && !t.ledger.locked && t.ledger.pending == map[] && t.ledger.completed == map[] && t.ledger.latest == second
  {
    hide Reachable;
    var p := s.calls[c];
    t := s.(calls := s.calls[c := p.(phase := Posted)], ledger := Report(s.ledger, Low32(p.id), p.number, Low32(p.end)));
    ReachStep(s, Post(c), t);
    assert s.ledger.completed[n + 1 := OpOf(p)] == map[n + 1 := OpOf(p), n + 2 := second];
    DrainTwo(s.ledger.completed[n + 1 := OpOf(p)], n + 1, OpOf(p), second);
    assert s.ledger.pending - {Low32(p.id)} == map[];
    assert Inverted([OpOf(p), second], 0, 1);
  }

  /** A put written and timed but not reported, and a get that has started. */
  lemma PutAndGet(s: Sys, n: nat, b: nat) returns (t: Sys)
    requires Steady(s, n, b, W - 5) && s.ticks == W - 4 && s.ids + 2 < W && n + 2 < W
    ensures Reachable(t) && t.queue == [] && t.last == n + 1 && t.ticks == W - 1 && t.ids == s.ids + 1
    ensures (forall c | c in t.calls :: c < b + 2) && (forall x | x in t.holder :: x <= n + 1)
    ensures In(t, b, Ended) && t.calls[b] == Call(true, W - 3, s.ids + 1, n + 1, W - 2, Ended)
    ensures n + 1 in t.holder && t.holder[n + 1] == b
    ensures t.ledger == s.ledger.(pending := map[Low32(s.ids + 1) := Announcement(t.calls[b])])
  {
    hide Reachable, Low32;
    PutRun(s, b);
    var s1 := PutDone(s, b);
    t := s1.(ticks := W - 1, calls := s1.calls[b + 1 := Call(false, W - 1, 0, 0, 0, Timed)]);
    ReachStep(s1, Start(b + 1, false), t);
    assert s1.ledger.pending == map[Low32(s.ids + 1) := Announcement(t.calls[b])];
  }

  /**
   Four ticks before the wrap: a put is written and timed but reported late; a get starts;
   another put runs in the new round of the clock and is reported first.
   */
  lemma LateReport(s: Sys, n: nat, b: nat) returns (t: Sys)
    requires Steady(s, n, b, W - 5) && s.ticks == W - 4 && s.ids + 2 < W && n + 2 < W
    ensures Reachable(t) && t.queue == [] && t.last == n + 2 && t.ticks == W + 1 && t.ids == s.ids + 2
    ensures (forall c | c in t.calls :: c < b + 3) && (forall x | x in t.holder :: x <= n + 2)
    ensures In(t, b, Ended) && t.calls[b] == Call(true, W - 3, s.ids + 1, n + 1, W - 2, Ended)
    ensures In(t, b + 2, Posted) && t.calls[b + 2] == Call(true, W, s.ids + 2, n + 2, W + 1, Posted)
    ensures n + 1 in t.holder && t.holder[n + 1] == b && n + 2 in t.holder && t.holder[n + 2] == b + 2
    ensures t.ledger == s.ledger.(pending := map[Low32(s.ids + 1) := Announcement(t.calls[b])], completed := map[n + 2 := OpOf(t.calls[b + 2])])
  {
    hide Reachable, Low32, Announcement;
    var s2 := PutAndGet(s, n, b);
    var first := s2.calls[b];
    assert Low32(s.ids + 1) != Low32(s.ids + 2) by { Low32Apart(s.ids + 1, s.ids + 2); }
    PutRun(s2, b + 2);
    var s3 := PutDone(s2, b + 2);
    assert s3.ledger.pending == map[Low32(s.ids + 1) := Announcement(first), Low32(s.ids + 2) := Announcement(s3.calls[b + 2])];
    t := PostWaits(s3, b + 2, n, Low32(s.ids + 1), Announcement(first));
  }

  lemma CrossTheWrap(s: Sys, n: nat, b: nat) returns (before: Sys, t: Sys)
    requires Steady(s, n, b, W - 5) && s.ticks == W - 4 && s.ids + 2 < W && n + 2 < W
    ensures Steady(t, n + 2, b + 3, 0) && t.ticks == W + 1 && t.ids == s.ids + 2
    ensures Reachable(before) && StepOk(before, Post(b), t) && before.ledger.alarmed == s.ledger.alarmed && t.ledger.alarmed
    ensures StartOf(before, n + 1) == W - 3 && EndOf(before, n + 2) == W + 1
  {
    hide Reachable, Low32, StepOk;
    before := LateReport(s, n, b);
    SmallLow32(W - 3);
    SmallLow32(W - 2);
    SecondRound(W);
    SecondRound(W + 1);
    SmallLow32(n + 2);
    t := PostBoth(before, b, n, OpOf(before.calls[b + 2]));
  }

  // ------------------------------------------------------------------ main results

  /** The auditor raises its first alarm over two puts of which the earlier started before the later ended. */
  lemma FalseAlarmReached() returns (before: Sys, c: nat, t: Sys, n: nat)
    ensures Reachable(before) && StepOk(before, Post(c), t) && !before.ledger.alarmed && t.ledger.alarmed
    ensures StartOf(before, n) < EndOf(before, n + 1) < StartOf(before, n) + W && Wraps(StartOf(before, n), EndOf(before, n + 1))
  {
    hide Steady, Reachable, StepOk;
    n, c := 0x7FFF_FFFE, 0x7FFF_FFFE;
    var s := PutsFromStart(n);
    before, t := CrossTheWrap(s, n, c);
    n := n + 1;
  }

  /** The history does reach the last 32-bit number. */
  lemma LastNumberReached() returns (t: Sys)
    ensures Reachable(t) && !t.ledger.locked && t.ledger.latest.ts == W - 1 && t.ids < W
  {
    var n := 0x7FFF_FFFE;
    var s := PutsFromStart(n);
    var before, s1 := CrossTheWrap(s, n, n);
    var last;
    t, last := PutsAfterWrap(s1, n + 2, n + 3, 0, 0x7FFF_FFFF);
  }

  /** Puts made one after the other: the one that ends as the clock wraps is refused, and the auditor stays locked. */
  lemma LockReached() returns (t: Sys)
    ensures Reachable(t) && t.ledger.locked && !t.ledger.alarmed && t.ticks == W
  {
    hide Low32, Reachable;
    var n := 0x7FFF_FFFF;
    var s := PutsFromStart(n);
    PutRun(s, n);
    var s1 := PutDone(s, n);
    assert s1.ledger.pending == map[Low32(s.ids + 1) := Announcement(PutCall(s))];
    SecondRound(W);
    t := PostNext(s1, n, n);
  }

  // ------------------------------------------------------------- a lost announcement

  /** One get, from start to report. */
  lemma OneGet(s: Sys, c: nat) returns (t: Sys)
    requires Reachable(s) && !s.ledger.locked && c !in s.calls && Low32(s.ids + 1) !in s.ledger.pending
    ensures Reachable(t)
    ensures t == s.(ticks := s.ticks + 2, ids := s.ids + 1, calls := s.calls[c := Call(false, s.ticks + 1, s.ids + 1, 0, s.ticks + 2, Posted)])
  {
    hide Reachable, Low32;
    var p := Call(false, s.ticks + 1, 0, 0, 0, Timed);
    var s1 := s.(ticks := s.ticks + 1, calls := s.calls[c := p]);
    ReachStep(s, Start(c, false), s1);
    var s2 := s1.(ids := s.ids + 1, calls := s1.calls[c := p.(id := s.ids + 1, phase := Named)]);
    ReachStep(s1, Name(c), s2);
    var x := Low32(s.ids + 1);
    var s3 := s2.(ledger := s.ledger.(pending := s.ledger.pending[x := Announcement(s2.calls[c])]),
                  calls := s2.calls[c := p.(id := s.ids + 1, phase := Enrolled)]);
    ReachStep(s2, Enroll(c), s3);
    var s4 := s3.(ticks := s.ticks + 2, calls := s3.calls[c := p.(id := s.ids + 1, end := s.ticks + 2, phase := Ended)]);
    ReachStep(s3, End(c), s4);
    t := s4.(calls := s4.calls[c := p.(id := s.ids + 1, end := s.ticks + 2, phase := Posted)], ledger := s.ledger);
    assert s4.ledger.pending - {x} == s.ledger.pending;
    ReachStep(s4, Post(c), t);
    assert t.calls == s.calls[c := Call(false, s.ticks + 1, s.ids + 1, 0, s.ticks + 2, Posted)];
  }

  /** n gets, one after the other, while the call named 0 stays open; their low 32 bits are never 1. */
  lemma {:induction false} Gets(s: Sys, n: nat) returns (t: Sys)
    requires Reachable(s) && !s.ledger.locked && s.ids == 1 && n < W && s.calls.Keys == {0} && s.ledger.pending.Keys == {1}
    ensures Reachable(t) && t == s.(ticks := s.ticks + 2 * n, ids := 1 + n, calls := t.calls)
    ensures 0 in t.calls && t.calls[0] == s.calls[0] && forall c | c in t.calls :: c <= n
  {
    if n == 0 {
      t := s;
    } else {
      hide Reachable;
      var s1 := Gets(s, n - 1);
      t := OneGet(s1, n);
    }
  }

  /** The call named 0 is a put with id 1, written as number 1 and not reported; the id of the put named `d` is 2^32 higher. */
  ghost predicate Collision(s: Sys, d: nat) {
    && d != 0 && 0 in s.calls && d in s.calls && s.queue == [] && !s.ledger.locked && s.holder == map[1 := 0] && s.last == 1
    && s.calls[0].write && s.calls[0].phase == Committed && s.calls[0].id == 1 && s.calls[0].number == 1
    && s.calls[d].write && s.calls[d].id == W + 1
    && s.ledger.pending == map[1 := Announcement(s.calls[0])]
    && s.ledger.completed == map[] && s.ledger.latest == Op(0, 0, 0, 0)
  }

  /**
   A put is written but not reported while 2^32 ids are handed out, to gets that find what
   it wrote: the announcement of the put that gets the same low 32 bits is lost.
   */
  lemma AnnouncementLost() returns (before: Sys, d: nat, t: Sys)
    ensures Reachable(before) && StepOk(before, Enroll(d), t) && Reachable(t)
    ensures t.ledger.pending == before.ledger.pending && Lost(before, Enroll(d))
    ensures Collision(t, d) && t.calls[d].phase == Enrolled
  {
    hide Reachable;
    var s := Sys(0, 0, map[], [], 0, 0, map[], Ledger(map[], map[], Op(0, 0, 0, 0), [], false, false));
    ReachInit(s);
    var s0 := PutAnnounced(s, 0);
    var s1 := PutCommitted(s0, 0, s0.calls[0]);
    var s2 := Gets(s1, W - 1);
    d := W;
    var p := Call(true, s2.ticks + 1, 0, 0, 0, Timed);
    var s3 := s2.(ticks := s2.ticks + 1, calls := s2.calls[d := p]);
    ReachStep(s2, Start(d, true), s3);
    before := s3.(ids := W + 1, calls := s3.calls[d := p.(id := W + 1, phase := Named)]);
    ReachStep(s3, Name(d), before);
    assert before.calls[0].Announced() && Low32(before.calls[0].id) == Low32(before.calls[d].id) == 1;
    t := before.(calls := before.calls[d := p.(id := W + 1, phase := Enrolled)]);
    ReachStep(before, Enroll(d), t);
  }

  /** Written and timed, but not yet reported. */
  lemma PutEnded(s: Sys, c: nat) returns (t: Sys)
    requires Reachable(s) && s.queue == [] && In(s, c, Enrolled) && s.calls[c].write && forall x | x in s.holder :: x <= s.last
    ensures Reachable(t)
    ensures t == s.(ticks := s.ticks + 1, last := s.last + 1, holder := s.holder[s.last + 1 := c],
                    calls := s.calls[c := s.calls[c].(number := s.last + 1, end := s.ticks + 1, phase := Ended)])
  {
    hide Reachable;
    var s1 := PutCommitted(s, c, s.calls[c]);
    t := s1.(ticks := s.ticks + 1, calls := s1.calls[c := s1.calls[c].(end := s.ticks + 1, phase := Ended)]);
    ReachStep(s1, End(c), t);
    assert t.calls == s.calls[c := s.calls[c].(number := s.last + 1, end := s.ticks + 1, phase := Ended)];
  }

  /** Both puts are written; the first report takes the announcement, and the second finds nothing and cannot be made. */
  lemma ReportLost() returns (before: Sys, t: Sys, d: nat)
    ensures Reachable(before) && In(before, 0, Ended) && In(before, d, Ended) && before.calls[d].write && d != 0
    ensures StepOk(before, Post(0), t) && Reachable(t)
    ensures In(t, d, Ended) && Low32(t.calls[d].id) !in t.ledger.pending && forall u :: !StepOk(t, Post(d), u)
  {
    hide Reachable;
    var b, s;
    b, d, s := AnnouncementLost();
    var s1 := s.(ticks := s.ticks + 1, calls := s.calls[0 := s.calls[0].(end := s.ticks + 1, phase := Ended)]);
    ReachStep(s, End(0), s1);
    before := PutEnded(s1, d);
    assert Low32(1) == Low32(W + 1) == 1;
    t := PostNext(before, 0, 0);
    SecondFindsNothing(before, 0, d, t);
    ReportRemoves(before, 0, t);
  }
}
