/**
 Groups of writes become visible as a whole: nobody ever reads at a number inside one.
 */
module EngineGroups {
  import opened Entries
  import opened GroupCommit
  import opened Engine
  import opened EngineRuns

  lemma ConcatPush(groups: seq<seq<Update>>, ops: seq<Update>)
    ensures Concat(groups + [ops]) == Concat(groups) + ops
  {
    assert (groups + [ops])[..|groups|] == groups;
  }

  lemma EndsStay(groups: seq<seq<Update>>, ops: seq<Update>, q: nat)
    requires IsGroupEnd(groups, q)
    ensures IsGroupEnd(groups + [ops], q)
  {
    var i :| EndsAt(groups, i, q);
    assert (groups + [ops])[..i] == groups[..i];
    assert EndsAt(groups + [ops], i, q);
  }

  lemma {:induction false} PrefixIsShorter(groups: seq<seq<Update>>, i: nat)
    requires i <= |groups|
    ensures Concat(groups[..i]) <= Concat(groups)
  {
    if i < |groups| {
      var init := groups[..|groups| - 1];
      assert init[..i] == groups[..i];
      PrefixIsShorter(init, i);
    } else {
      assert groups[..i] == groups;
    }
  }

  lemma OpenKeeps(s: State, step: Step, s': State)
    requires GroupsOk(s) && step.Open? && StepOk(s, step, s')
    ensures GroupsOk(s')
  {
    var ops := OpsOf(step.writers[..step.count]);
    ConcatPush(s.groups, ops);
    assert Concat(s'.groups)[..|s.writes|] == Concat(s.groups)[..|s.writes|];
    forall q: nat | IsGroupEnd(s.groups, q) ensures IsGroupEnd(s'.groups, q) { EndsStay(s.groups, ops, q); }
  }

  lemma InsertKeeps(s: State, step: Step, s': State)
    requires GroupsOk(s) && step.Insert? && StepOk(s, step, s')
    ensures GroupsOk(s')
  {
    var all, n := Concat(s.groups), |s.writes|;
    assert s.rest[0] == all[n] && s'.rest == all[n + 1..];
    assert s'.writes == Numbered(0, all[..n + 1]);
  }

  lemma PublishKeeps(s: State, step: Step, s': State)
    requires GroupsOk(s) && step.Publish? && StepOk(s, step, s')
    ensures GroupsOk(s')
  {
    assert s.groups[..|s.groups|] == s.groups;
    assert EndsAt(s.groups, |s.groups|, s'.lastSequence);
  }

  /** Every step keeps the history a concatenation of groups and every reader at the end of one. */
  lemma GroupsKept(s: State, step: Step, s': State)
    requires GroupsOk(s) && StepOk(s, step, s')
    ensures GroupsOk(s')
  {
    hide StepOk, EndsAt, Concat, IsGroupEnd;
    match step {
      case Open(_, _) => OpenKeeps(s, step, s');
      case Insert => InsertKeeps(s, step, s');
      case Publish => PublishKeeps(s, step, s');
      case _ => OthersKeep(s, step, s');
    }
  }

  lemma OthersKeep(s: State, step: Step, s': State)
    requires StepOk(s, step, s') && !step.Open? && !step.Insert? && !step.Publish?
    ensures s'.groups == s.groups && s'.rest == s.rest && s'.writes == s.writes && s'.lastSequence == s.lastSequence
    ensures forall n | n in s'.snapshots :: n in s.snapshots || n == s.lastSequence
  {
    hide OutputsWritten;
    if step.ReleaseSnapshot? { assert forall n | n in s'.snapshots :: n in s.snapshots; }
  }

  lemma {:induction false} ExecutionGroups(states: seq<State>, steps: seq<Step>, n: nat)
    requires IsExecution(states, steps) && n < |states|
    ensures GroupsOk(states[n])
  {
    if n == 0 {
      assert EndsAt(states[0].groups, 0, 0);
    } else {
      ExecutionGroups(states, steps, n - 1);
      GroupsKept(states[n - 1], steps[n - 1], states[n]);
    }
  }

  /** In any run at all, what precedes a readable number is a whole number of groups. */
  lemma WholeGroups(s: State, q: nat) returns (i: nat)
    requires GroupsOk(s) && Readable(s, q)
    ensures i <= |s.groups| && q == |Concat(s.groups[..i])| <= |s.writes|
    ensures s.writes[..q] == Numbered(0, Concat(s.groups[..i]))
  {
    i :| EndsAt(s.groups, i, q);
    PrefixIsShorter(s.groups, i);
    assert Concat(s.groups)[..q] == Concat(s.groups[..i]);
  }

  /** Every key is read, at one and the same number, as the same whole number of groups left it. */
  lemma ReadsWholeGroups(states: seq<State>, steps: seq<Step>, n: nat, q: nat) returns (i: nat)
    requires IsExecution(states, steps) && n < |states| && Readable(states[n], q)
    requires forall m | 0 <= m < n :: Guarded(states[m], steps[m])
    ensures i <= |states[n].groups| && q == |Concat(states[n].groups[..i])| < K_MAX_SEQUENCE
    ensures forall k :: AnswerOf(Search(states[n], k, q)) == MapGet(Replay(Numbered(0, Concat(states[n].groups[..i]))), k)
  {
    ExecutionGroups(states, steps, n);
    i := WholeGroups(states[n], q);
    forall k ensures AnswerOf(Search(states[n], k, q)) == MapGet(Replay(Numbered(0, Concat(states[n].groups[..i]))), k) {
      GuardedRunReads(states, steps, n, k, q);
    }
  }

  /** Without snapshots no guard is needed. */
  lemma SnapshotFreeWholeGroups(states: seq<State>, steps: seq<Step>, n: nat) returns (i: nat)
    requires IsExecution(states, steps) && n < |states| && forall m | 0 <= m < n :: !steps[m].TakeSnapshot?
    ensures i <= |states[n].groups| && states[n].lastSequence == |Concat(states[n].groups[..i])| < K_MAX_SEQUENCE
    ensures forall k :: AnswerOf(Search(states[n], k, states[n].lastSequence)) == MapGet(Replay(Numbered(0, Concat(states[n].groups[..i]))), k)
  {
    hide StepOk, Search, Replay, KeysApart;
    ExecutionGroups(states, steps, n);
    i := WholeGroups(states[n], states[n].lastSequence);
    forall k ensures AnswerOf(Search(states[n], k, states[n].lastSequence)) == MapGet(Replay(Numbered(0, Concat(states[n].groups[..i]))), k) {
      SnapshotFreeRunReads(states, steps, n, k);
    }
  }

  // ------------------------------------------------------- the leader's commit

  ghost predicate IsRun(s: State, states: seq<State>, steps: seq<Step>, t: State) {
    && |states| == |steps| + 1 && states[0] == s && states[|steps|] == t
    && forall i | 0 <= i < |steps| :: StepOk(states[i], steps[i], states[i + 1])
  }

  lemma StepFirst(s: State, step: Step, s1: State, states: seq<State>, steps: seq<Step>, t: State)
    requires StepOk(s, step, s1) && IsRun(s1, states, steps, t)
    ensures IsRun(s, [s] + states, [step] + steps, t)
  {
    hide StepOk;
    forall i | 1 <= i < |[step] + steps| ensures StepOk(([s] + states)[i], ([step] + steps)[i], ([s] + states)[i + 1]) {
      assert StepOk(states[i - 1], steps[i - 1], states[i]);
    }
  }

  lemma StepLast(s: State, states: seq<State>, steps: seq<Step>, t: State, step: Step, t1: State)
    requires IsRun(s, states, steps, t) && StepOk(t, step, t1)
    ensures IsRun(s, states + [t1], steps + [step], t1)
  {
    hide StepOk;
    forall i | 0 <= i < |steps| ensures StepOk((states + [t1])[i], (steps + [step])[i], (states + [t1])[i + 1]) {
      assert StepOk(states[i], steps[i], states[i + 1]);
    }
  }

  /** Only steps of a group commit. */
  ghost predicate OnlyWrites(steps: seq<Step>) {
    forall i | 0 <= i < |steps| :: steps[i].Open? || steps[i].Insert? || steps[i].Publish?
  }

  /** Until a group is published the last sequence and the snapshots are what they were. */
  ghost predicate Unpublished(s: State, states: seq<State>, n: nat) {
    forall i | 0 <= i < n && i < |states| :: states[i].lastSequence == s.lastSequence && states[i].snapshots == s.snapshots
  }

  function AddAll(mem: seq<Entry>, es: seq<Entry>): seq<Entry>
    decreases |es|
  {
    if es == [] then mem else AddAll(AddToRun(mem, es[0]), es[1..])
  }

  lemma InsertStep(s: State, s1: State)
    requires s.rest != [] && |s.writes| + 1 < K_MAX_SEQUENCE
    requires s1 == s.(mem := AddToRun(s.mem, NextEntry(s)), writes := s.writes + [NextEntry(s)], rest := s.rest[1..])
    ensures StepOk(s, Insert, s1)
  {
    hide AddToRun;
  }

  /** What is left of a group goes in, entry by entry. */
  lemma {:induction false} InsertsRun(s: State) returns (states: seq<State>, steps: seq<Step>, t: State)
    requires |s.writes| + |s.rest| < K_MAX_SEQUENCE
    ensures IsRun(s, states, steps, t) && Unpublished(s, states, |states|) && OnlyWrites(steps)
    ensures var es := Numbered(|s.writes|, s.rest);
            t == s.(mem := AddAll(s.mem, es), writes := s.writes + es, rest := [])
    decreases |s.rest|
  {
    hide AddToRun, StepOk;
    if s.rest == [] {
      states, steps, t := [s], [], s;
      assert s.writes + Numbered(|s.writes|, []) == s.writes;
    } else {
      var e := NextEntry(s);
      var s1 := s.(mem := AddToRun(s.mem, e), writes := s.writes + [e], rest := s.rest[1..]);
      states, steps, t := InsertsRun(s1);
      var es := Numbered(|s.writes|, s.rest);
      assert es[0] == e && es[1..] == Numbered(|s1.writes|, s1.rest);
      assert s.writes + es == s1.writes + es[1..];
      InsertStep(s, s1);
      StepFirst(s, Insert, s1, states, steps, t);
      states, steps := [s] + states, [Insert] + steps;
    }
  }

  /** A group commit as engine steps: the group is opened, inserted and published, and nobody sees it before. */
  lemma GroupRun(s: State, ws: seq<Writer>, n: nat) returns (states: seq<State>, steps: seq<Step>, t: State)
    requires Idle(s) && ws != [] && ws[0].batch.Some? && IsGroup(ws, n)
    requires |s.writes| + |OpsOf(ws[..n])| < K_MAX_SEQUENCE
    ensures IsRun(s, states, steps, t) && Unpublished(s, states, |steps|) && OnlyWrites(steps)
    ensures var ops := OpsOf(ws[..n]);
            var es := Numbered(|s.writes|, ops);
            && t == s.(mem := AddAll(s.mem, es), writes := s.writes + es, groups := s.groups + [ops],
                       lastSequence := |s.writes| + |ops|)
            && Idle(t)
  {
    var ops := OpsOf(ws[..n]);
    var s1 := s.(groups := s.groups + [ops], rest := ops);
    var s2;
    states, steps, s2 := InsertsRun(s1);
    t := s2.(lastSequence := |s2.writes|);
    StepFirst(s, Open(ws, n), s1, states, steps, s2);
    states, steps := [s] + states, [Open(ws, n)] + steps;
    StepLast(s, states, steps, s2, Publish, t);
    states, steps := states + [t], steps + [Publish];
  }

  /** What SUWrite's leader does to the queue is what the engine steps do to the state. */
  method LeaderCommits(queue: WriteQueue, s: State)
    returns (ghost n: nat, ghost states: seq<State>, ghost steps: seq<Step>, ghost t: State)
    requires queue.writers != [] && queue.writers[0].batch.Some? && Idle(s)
    requires queue.lastSequence == s.lastSequence && queue.inserted == s.writes
    requires |s.writes| + |OpsOf(queue.writers)| < K_MAX_SEQUENCE
    modifies queue
    ensures n <= |old(queue.writers)| && queue.writers == old(queue.writers)[n..]
    ensures t.groups == s.groups + [OpsOf(old(queue.writers)[..n])]
    ensures IsRun(s, states, steps, t) && Unpublished(s, states, |steps|) && Idle(t)
    ensures t.writes == queue.inserted && t.lastSequence == queue.lastSequence
  {
    ghost var ws := queue.writers;
    n := queue.Commit(true, true);
    OpsPrefix(ws, n);
    states, steps, t := GroupRun(s, ws, n);
  }
}
