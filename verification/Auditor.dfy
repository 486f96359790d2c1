/**
 The enclave's write auditor: every put is announced before it is written and reported
 with its number afterwards; reports are put back into number order and merged into one
 history. Times, ids and timestamps are 32-bit and wrap.
 */
module Auditor {
  import opened Coding

  const W: nat := TWO_32

  type Word = n: nat | n < W

  /** unsigned int ++ */
  function Inc(n: Word): Word {
    if n + 1 == W then 0 else n + 1
  }

  /** Assigning an unsigned long to an unsigned int. */
  function Low32(n: nat): Word {
    n % W
  }

  datatype Op = Op(id: Word, start: Word, end: Word, ts: Word)

  /** The ops numbered cur, cur+1, ... as far as they are there, and what is left. */
  function Drain(comp: map<nat, Op>, cur: Word): (r: (seq<Op>, map<nat, Op>))
    decreases |comp|
  {
    if cur !in comp then ([], comp) else
    assert |comp - {cur}| < |comp| by { assert (comp - {cur}).Keys == comp.Keys - {cur}; }
    var (acl, rest) := Drain(comp - {cur}, Inc(cur));
    ([comp[cur]] + acl, rest)
  }

  /** The pair (i, j) whose order contradicts real time. */
  predicate Inverted(acl: seq<Op>, i: nat, j: nat)
    requires i < |acl| && j < |acl|
  {
    acl[j].end <= acl[i].start
  }

  /** The inverted pairs, in the order of the two loops up to (i, j). */
  ghost function Inversions(acl: seq<Op>, i: nat, j: nat): set<(nat, nat)> {
    set a: nat, b: nat | 0 <= a < |acl| && a < b < |acl| && Inverted(acl, a, b) && (a < i || (a == i && b < j)) :: (a, b)
  }

  predicate NoneInverted(acl: seq<Op>) {
    forall i, j | 0 <= i < j < |acl| :: !Inverted(acl, i, j)
  }

  predicate Refused(latest: Op, acl: seq<Op>) {
    acl != [] && acl[0].end < latest.start
  }

  class Audit {
    var timer: Word
    var lastId: Word
    var pending: map<nat, Op>
    var completed: map<nat, Op>
    var latest: Op
    var log: seq<Op>     // the arguments of every HistoryW::update call so far
    var alarms: nat      // messages printed by check
    var locked: bool     // g_mutex left locked by a refused merge

    constructor ()
      ensures timer == lastId == alarms == 0 && pending == completed == map[] && log == [] && !locked
      ensures latest == Op(0, 0, 0, 0)
    {
      timer, lastId, alarms, locked := 0, 0, 0, false;
      pending, completed, log := map[], map[], [];
      latest := Op(0, 0, 0, 0);
    }

    method GetTime() returns (t: Word)
      modifies this`timer
      ensures timer == Inc(old(timer)) && t == timer
    {
      timer := Inc(timer);
      t := timer;
    }

    method AllocId() returns (id: Word)
      modifies this`lastId
      ensures lastId == Inc(old(lastId)) && id == lastId
    {
      lastId := Inc(lastId);
      id := lastId;
    }

    /** The locked part of enclave_preput; map insert keeps an entry that is already there. */
    method Enroll(id: Word, start: Word)
      requires !locked
      modifies this`pending
      ensures pending == if id in old(pending) then old(pending) else old(pending)[id := Op(id, start, 0, 0)]
    {
      if id !in pending {
        pending := pending[id := Op(id, start, 0, 0)];
      }
    }

    method Truncate() returns (acl: seq<Op>)
      modifies this`completed
      ensures (acl, completed) == Drain(old(completed), Inc(latest.ts))
    {
      acl := [];
      var cur := Inc(latest.ts);
      assert [] + Drain(completed, cur).0 == Drain(completed, cur).0;
      while cur in completed
        invariant Drain(old(completed), Inc(latest.ts)) == (acl + Drain(completed, cur).0, Drain(completed, cur).1)
        decreases |completed|
      {
        ghost var before := completed;
        acl := acl + [completed[cur]];
        completed := completed - {cur};
        assert completed.Keys == before.Keys - {cur};
        assert acl + Drain(completed, Inc(cur)).0 == acl[..|acl| - 1] + Drain(before, cur).0;
        cur := Inc(cur);
      }
      assert acl + [] == acl;
    }

    method Check(acl: seq<Op>)
      modifies this`alarms
      ensures alarms == old(alarms) + |Inversions(acl, |acl|, 0)|
      ensures alarms == old(alarms) <==> NoneInverted(acl)
    {
      CountInverted(acl);
      if |acl| == 1 { return; }
      for i := 0 to |acl|
        invariant alarms == old(alarms) + |Inversions(acl, i, 0)|
      {
        assert Inversions(acl, i, i + 1) == Inversions(acl, i, 0);
        for j := i + 1 to |acl|
          invariant alarms == old(alarms) + |Inversions(acl, i, j)|
        {
          if acl[j].end <= acl[i].start {
            assert Inversions(acl, i, j + 1) == Inversions(acl, i, j) + {(i, j)};
            alarms := alarms + 1;
          } else {
            assert Inversions(acl, i, j + 1) == Inversions(acl, i, j);
          }
        }
        assert Inversions(acl, i, |acl|) == Inversions(acl, i + 1, 0);
      }
    }

    method TryMerge(acl: seq<Op>) returns (ok: bool)
      modifies this`latest, this`log
      ensures ok <==> !Refused(old(latest), acl)
      ensures if ok && acl != [] then latest == acl[|acl| - 1] else latest == old(latest)
      ensures log == if ok then old(log) + acl else old(log)
    {
      if |acl| == 0 { assert log + acl == log; return true; }
      if acl[0].end < latest.start { return false; }
      for i := 0 to |acl|
        invariant log == old(log) + acl[..i]
        invariant i > 0 ==> latest == acl[i - 1]
      {
        latest := acl[i];
        log := log + [acl[i]];
        assert acl[..i + 1] == acl[..i] + [acl[i]];
      }
      assert acl[..|acl|] == acl;
      return true;
    }

    /** The abstract state the protocol below speaks about. */
    ghost function View(): Ledger
      reads this
    {
      Ledger(pending, completed, latest, log, alarms > 0, locked)
    }

    /** The locked part of enclave_postput. A put is only reported after it was announced. */
    method Postput(id: Word, number: nat, end: Word)
      requires !locked && id in pending
      modifies this`pending, this`completed, this`latest, this`log, this`alarms, this`locked
      ensures View() == Report(old(View()), id, number, end)
    {
      var op := pending[id].(end := end, ts := Low32(number));
      pending := pending - {id};
      if number !in completed {
        completed := completed[number := op];
      }
      var acl := Truncate();
      Check(acl);
      var ok := TryMerge(acl);
      if !ok { locked := true; }
    }

    /** The locked part of enclave_postget, for a get whose check returns. */
    method Postget(id: Word)
      requires !locked && id in pending
      modifies this`pending
      ensures pending == old(pending) - {id}
    {
      pending := pending - {id};
    }
  }

  lemma CountInverted(acl: seq<Op>)
    ensures |Inversions(acl, |acl|, 0)| == 0 <==> NoneInverted(acl)
    ensures Inversions(acl, 0, 0) == {} && (|acl| == 1 ==> NoneInverted(acl))
  {
    var all := Inversions(acl, |acl|, 0);
    if |all| == 0 {
      assert all == {};
      forall i, j | 0 <= i < j < |acl| ensures !Inverted(acl, i, j) {
        assert (i, j) !in all;
      }
    } else {
      var p :| p in all;
    }
  }

  datatype Ledger = Ledger(pending: map<nat, Op>, completed: map<nat, Op>, latest: Op, log: seq<Op>, alarmed: bool, locked: bool)

  /** What one report does to the auditor. */
  function Report(a: Ledger, id: Word, number: nat, end: Word): Ledger
    requires id in a.pending
  {
    var op := a.pending[id].(end := end, ts := Low32(number));
    var comp := if number in a.completed then a.completed else a.completed[number := op];
    var (acl, rest) := Drain(comp, Inc(a.latest.ts));
    var refused := Refused(a.latest, acl);
    Ledger(a.pending - {id}, rest,
           if !refused && acl != [] then acl[|acl| - 1] else a.latest,
           if refused then a.log else a.log + acl,
           a.alarmed || !NoneInverted(acl), refused)
  }

  /** `acl` are the ops numbered cur up to the first number missing or the last 32-bit number; `rest` is the rest. */
  ghost predicate Takes(comp: map<nat, Op>, cur: nat, acl: seq<Op>, rest: map<nat, Op>) {
    && (acl != [] ==> 0 < cur && cur + |acl| <= W)
    && (forall n | cur <= n < cur + |acl| :: n in comp && acl[n - cur] == comp[n])
    && (forall n :: n in rest <==> n in comp && !(cur <= n < cur + |acl|))
    && (forall n | n in rest :: rest[n] == comp[n])
    && (cur + |acl| !in comp || cur + |acl| == W)
  }

  lemma TakesOneMore(comp: map<nat, Op>, cur: nat, acl: seq<Op>, rest: map<nat, Op>)
    requires 0 < cur && cur in comp && cur + 1 <= W
    requires Takes(comp - {cur}, cur + 1, acl, rest) || (cur + 1 == W && acl == [] && rest == comp - {cur})
    ensures Takes(comp, cur, [comp[cur]] + acl, rest)
  {
    var all := [comp[cur]] + acl;
    forall n | cur <= n < cur + |all| ensures n in comp && all[n - cur] == comp[n] {
      if n > cur { assert n in comp - {cur} && acl[n - (cur + 1)] == (comp - {cur})[n]; }
    }
  }

  lemma {:induction false} DrainTakes(comp: map<nat, Op>, cur: Word)
    requires 0 !in comp
    ensures Takes(comp, cur, Drain(comp, cur).0, Drain(comp, cur).1)
    decreases |comp|
  {
    if cur in comp {
      var less := comp - {cur};
      assert less.Keys == comp.Keys - {cur};
      DrainTakes(less, Inc(cur));
      TakesOneMore(comp, cur, Drain(less, Inc(cur)).0, Drain(less, Inc(cur)).1);
    }
  }
}
