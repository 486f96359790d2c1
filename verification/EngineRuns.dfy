/**
 Whole runs of the engine: every read is answered as the history demands.
 */
module EngineRuns {
  import opened Entries
  import opened Versions
  import opened Picking
  import opened VersionOrder
  import opened Swaps
  import opened Compactions
  import opened Engine
  import opened EngineSafety
  import opened EngineJobs

  ghost predicate IsExecution(states: seq<State>, steps: seq<Step>) {
    && |states| == |steps| + 1 && Init(states[0])
    && forall i | 0 <= i < |steps| :: StepOk(states[i], steps[i], states[i + 1])
  }

  lemma {:induction false} ExecutionInv(states: seq<State>, steps: seq<Step>, n: nat)
    requires IsExecution(states, steps) && n < |states|
    requires forall i | 0 <= i < n :: Guarded(states[i], steps[i])
    ensures Inv(states[n])
  {
    if n == 0 {
      InitInv(states[0]);
    } else {
      ExecutionInv(states, steps, n - 1);
      StepInv(states[n - 1], steps[n - 1], states[n]);
    }
  }

  // ------------------------------------------------------------------- reads

  lemma SearchIsNewest(s: State, k: Key, q: nat)
    requires MemoryOk(s) && VersionOk(s.levels)
    ensures Search(s, k, q) == Newest(Stored(s), k, q)
  {
    var mem, imm, disk := Content(s.mem), Content(ImmEntries(s)), Disk(s.levels);
    ProbeRight(s.mem, k, q);
    ProbeRight(ImmEntries(s), k, q);
    SearchFromRight(s.levels, 0, k, q);
    RightUnion(imm, disk, k, q, Probe(ImmEntries(s), k, q), SearchFrom(s.levels, 0, k, q));
    assert Newer(mem, imm + disk);
    RightUnion(mem, imm + disk, k, q, Probe(s.mem, k, q),
               OrElse(Probe(ImmEntries(s), k, q), SearchFrom(s.levels, 0, k, q)));
    assert mem + (imm + disk) == Stored(s);
    HistoryUnambiguous(s.writes);
    RightIsNewest(Stored(s), k, q, Search(s, k, q));
  }

  /** The newest entry at or below q among all writes is the last write of the key among the first q. */
  lemma {:induction false} ReplayIsNewest(writes: seq<Entry>, k: Key, q: nat)
    requires HistoryOk(writes) && q <= |writes|
    ensures AnswerOf(Newest(Content(writes), k, q)) == MapGet(Replay(writes[..q]), k)
  {
    HistoryUnambiguous(writes);
    if q == 0 {
      NewestIsNone(Content(writes), k, q);
    } else {
      var e := writes[q - 1];
      assert writes[..q][..q - 1] == writes[..q - 1];
      if e.key == k {
        NewestIs(Content(writes), k, q, e);
      } else {
        ReplayIsNewest(writes, k, q - 1);
        OneLess(writes, k, q);
      }
    }
  }

  lemma OneLess(writes: seq<Entry>, k: Key, q: nat)
    requires HistoryOk(writes) && 0 < q <= |writes| && writes[q - 1].key != k
    ensures Newest(Content(writes), k, q) == Newest(Content(writes), k, q - 1)
  {
    HistoryUnambiguous(writes);
    forall x | x in Content(writes) && x.key == k && x.sn <= q ensures x.sn <= q - 1 {
      var i :| 0 <= i < |writes| && writes[i] == x;
    }
    var r := Newest(Content(writes), k, q - 1);
    if r.Some? { NewestIs(Content(writes), k, q, r.value); } else { NewestIsNone(Content(writes), k, q); }
  }

  /** A sequence number a reader may be using: the published one, or a live snapshot's. */
  predicate Readable(s: State, q: nat) {
    q == s.lastSequence || q in s.snapshots
  }

  /**
   A read of any key at the current sequence number or at any live snapshot returns
   exactly what the first q writes leave behind: nothing lost to a compaction, nothing
   resurrected.
   */
  lemma ReadIsReplay(s: State, k: Key, q: nat)
    requires Sound(s) && Readable(s, q)
    ensures q <= |s.writes|
    ensures AnswerOf(Search(s, k, q)) == MapGet(Replay(s.writes[..q]), k)
  {
    SearchIsNewest(s, k, q);
    assert SameAnswer(Stored(s), Content(s.writes), k, q);
    ReplayIsNewest(s.writes, k, q);
  }

  /** DBImpl::SUGet. */
  method SUGet(s: State, k: Key, snapshot: Option<nat>) returns (r: Answer)
    requires Sound(s) && (snapshot.Some? ==> snapshot.value in s.snapshots)
    ensures r == MapGet(Replay(s.writes[..if snapshot.Some? then snapshot.value else s.lastSequence]), k)
  {
    var q := if snapshot.Some? then snapshot.value else s.lastSequence;
    ReadIsReplay(s, k, q);
    var e := Probe(s.mem, k, q);
    if e.None? {
      e := Probe(ImmEntries(s), k, q);
      if e.None? {
        VersionLevelsOk(s.levels);
        e := SearchVersion(s.levels, k, q);
      }
    }
    r := AnswerOf(e);
  }

  /** An entry added later is invisible to a reader that has fixed its number. */
  lemma LaterInsertsInvisible(es: seq<Entry>, e: Entry, k: Key, q: nat)
    requires Run(es) && q < e.sn && forall x | x in es :: x.sn < e.sn
    ensures Probe(AddToRun(es, e), k, q) == Probe(es, k, q)
  {
    AddToRunOk(es, e);
    ProbeRight(es, k, q);
    ProbeRight(AddToRun(es, e), k, q);
    var p := Probe(es, k, q);
    assert Unambiguous(Content(es)) by { RunUnambiguous(es); }
    assert Unambiguous(Content(AddToRun(es, e))) by { RunUnambiguous(AddToRun(es, e)); }
    Invisible(Content(es), e, k, q);
    RightIsNewest(Content(es), k, q, p);
    RightIsNewest(Content(AddToRun(es, e)), k, q, Probe(AddToRun(es, e), k, q));
  }

  /** The memtable a reader took hold of in state i, as it is in state m, and whether it is still the current one. */
  function Pinned(states: seq<State>, steps: seq<Step>, i: nat, m: nat): (seq<Entry>, bool)
    requires i <= m < |states| && m <= |steps|
  {
    if i == m then (states[i].mem, true) else
    var (mem, current) := Pinned(states, steps, i, m - 1);
    if current && !steps[m - 1].Switch? then (states[m].mem, true) else (mem, false)
  }

  ghost predicate MemBounded(s: State) {
    && Run(s.mem) && Run(ImmEntries(s)) && |s.writes| < K_MAX_SEQUENCE
    && forall x | x in s.mem :: x.sn <= |s.writes|
  }

  lemma {:induction false} ExecutionMem(states: seq<State>, steps: seq<Step>, n: nat)
    requires IsExecution(states, steps) && n < |states|
    ensures MemBounded(states[n])
  {
    hide StepOk;
    if n > 0 {
      hide MemBounded;
      ExecutionMem(states, steps, n - 1);
      assert StepOk(states[n - 1], steps[n - 1], states[n]);
      StepMem(states[n - 1], steps[n - 1], states[n]);
    }
  }

  lemma StepMem(s: State, step: Step, s': State)
    requires MemBounded(s) && StepOk(s, step, s')
    ensures MemBounded(s')
  {
    hide Due, PickedFrom, OutputsWritten, Swapped, FlushLevel, FilesOk, IsTrivialMove;
    if step.Insert? {
      AddToRunOk(s.mem, NextEntry(s));
      forall x | x in s'.mem ensures x.sn <= |s'.writes| { assert x in Content(s'.mem); }
    }
  }

  lemma MemGrows(s: State, step: Step, s': State, k: Key, q: nat)
    requires MemBounded(s) && StepOk(s, step, s') && q <= |s.writes|
    ensures |s.writes| <= |s'.writes|
    ensures !step.Switch? ==> Probe(s'.mem, k, q) == Probe(s.mem, k, q)
  {
    if step.Insert? { LaterInsertsInvisible(s.mem, NextEntry(s), k, q); }
  }

  lemma MemGrowsAt(states: seq<State>, steps: seq<Step>, n: nat, k: Key, q: nat)
    requires IsExecution(states, steps) && n < |steps| && MemBounded(states[n])
    ensures |states[n].writes| <= |states[n + 1].writes|
    ensures q <= |states[n].writes| && !steps[n].Switch? ==> Probe(states[n + 1].mem, k, q) == Probe(states[n].mem, k, q)
  {
    hide StepOk, Probe;
    MemGrows(states[n], steps[n], states[n + 1], k, if q <= |states[n].writes| then q else 0);
  }

  lemma {:induction false} PinnedSame(states: seq<State>, steps: seq<Step>, i: nat, m: nat, k: Key, q: nat)
    requires IsExecution(states, steps) && i <= m < |states| && q <= |states[i].writes|
    ensures |states[i].writes| <= |states[m].writes|
    ensures Probe(Pinned(states, steps, i, m).0, k, q) == Probe(states[i].mem, k, q)
    ensures Pinned(states, steps, i, m).1 ==> Pinned(states, steps, i, m).0 == states[m].mem
    decreases m
  {
    hide StepOk, Probe, MemBounded;
    if i < m {
      ExecutionMem(states, steps, m - 1);
      MemGrowsAt(states, steps, m - 1, k, q);
      PinnedSame(states, steps, i, m - 1, k, q);
    }
  }

  /**
   A reader fixes its number, memtables and version under the mutex and reads without it.
   However many steps others take meanwhile, it finds what it would have found at once.
   */
  lemma PinnedRead(states: seq<State>, steps: seq<Step>, i: nat, m: nat, k: Key, q: nat)
    requires IsExecution(states, steps) && i <= m < |states| && q <= |states[i].writes|
    ensures OrElse(Probe(Pinned(states, steps, i, m).0, k, q),
                   OrElse(Probe(ImmEntries(states[i]), k, q), SearchFrom(states[i].levels, 0, k, q)))
         == Search(states[i], k, q)
  {
    PinnedSame(states, steps, i, m, k, q);
  }

  lemma RunUnambiguous(es: seq<Entry>)
    requires Run(es)
    ensures Unambiguous(Content(es))
  {
    forall i, j | 0 <= i < j < |es| ensures es[i].key != es[j].key || es[i].sn != es[j].sn {
      assert Before(es[i], es[j]);
    }
  }

  /** Runs whose compactions close their boundaries: every read at every point is right. */
  lemma GuardedRunReads(states: seq<State>, steps: seq<Step>, n: nat, k: Key, q: nat)
    requires IsExecution(states, steps) && n < |states| && Readable(states[n], q)
    requires forall i | 0 <= i < n :: Guarded(states[i], steps[i])
    ensures q <= |states[n].writes|
    ensures AnswerOf(Search(states[n], k, q)) == MapGet(Replay(states[n].writes[..q]), k)
  {
    ExecutionInv(states, steps, n);
    ReadIsReplay(states[n], k, q);
  }

  // ------------------------------------------------- runs without snapshots

  /** Files of one level share no user key. */
  ghost predicate KeysApart(levels: seq<seq<File>>) {
    forall l, f, g | 1 <= l && Placed(levels, l, f) && Placed(levels, l, g) && f != g ::
      f.largest.key < g.smallest.key || g.largest.key < f.smallest.key
  }

  ghost predicate JobSettled(s: State) {
    s.job.Some? ==> forall e | e in Held(s.job.value.in0) + Held(s.job.value.in1) :: e.sn <= s.job.value.smallest
  }

  ghost predicate Solo(s: State) {
    s.snapshots == [] && KeysApart(s.levels) && JobSettled(s)
  }

  lemma SoloIsClosed(levels: seq<seq<File>>, level: nat, in0: seq<File>, in1: seq<File>)
    requires Shaped(levels) && KeysApart(levels)
    ensures BoundaryClosed(levels, level, in0, in1)
  {
    forall l, i {:trigger levels[l][i]} | 1 <= l < |levels| && 0 <= i && i + 1 < |levels[l]|
        && IsInput(level, in0, in1, l, levels[l][i]) && !IsInput(level, in0, in1, l, levels[l][i + 1])
      ensures levels[l][i].largest.key != levels[l][i + 1].smallest.key
    {
      var f, g := levels[l][i], levels[l][i + 1];
      assert Placed(levels, l, f) && Placed(levels, l, g);
      WithinRange(g, g.largest);
      WithinRange(f, f.largest);
      assert SmallestLess(f, g);
    }
  }

  ghost predicate OutsApart(levels: seq<seq<File>>, level: int, in0: seq<File>, in1: seq<File>, outs: seq<File>) {
    && (forall o, p | o in outs && p in outs && o != p :: o.largest.key < p.smallest.key || p.largest.key < o.smallest.key)
    && (forall o, l, g | o in outs && Stays(levels, level, in0, in1, l, g) && l == level + 1 ::
          o.largest.key < g.smallest.key || g.largest.key < o.smallest.key)
  }

  lemma SwapKeysApart(levels: seq<seq<File>>, level: int, in0: seq<File>, in1: seq<File>, outs: seq<File>, levels': seq<seq<File>>)
    requires KeysApart(levels) && Swapped(levels, level, in0, in1, outs, levels')
    requires level + 1 >= 1 ==> OutsApart(levels, level, in0, in1, outs)
    ensures KeysApart(levels')
  {
    forall l, f, g | 1 <= l && Placed(levels', l, f) && Placed(levels', l, g) && f != g
      ensures f.largest.key < g.smallest.key || g.largest.key < f.smallest.key
    {
      if Stays(levels, level, in0, in1, l, f) {
        assert Stays(levels, level, in0, in1, l, g) || g in outs;
      } else {
        assert f in outs;
        assert Stays(levels, level, in0, in1, l, g) || g in outs;
      }
    }
  }

  lemma BesideStrictly(levels: seq<seq<File>>, level: nat, in0: seq<File>, in1: seq<File>, g: File, e: Entry)
    requires Shaped(levels) && KeysApart(levels) && FilesOk(in0) && FilesOk(in1)
    requires InputsPlaced(levels, level, in0, in1) && OutputLevelClear(levels, level, in0, in1)
    requires Stays(levels, level, in0, in1, level + 1, g) && e in Held(in0) + Held(in1)
    ensures e.key != g.smallest.key && e.key != g.largest.key
  {
    assert Placed(levels, level + 1, g);
    WithinRange(g, g.largest);
    if e in Held(in0) {
      InRange(in0, e);
    } else {
      var y :| y in in1 && e in y.entries;
      WithinRange(y, e);
      assert IsInput(level, in0, in1, level + 1, y);
      assert Placed(levels, level + 1, y);
    }
  }

  lemma InstallOutsApart(levels: seq<seq<File>>, j: Job, input: seq<Entry>, outs: seq<File>)
    requires Shaped(levels) && LevelsApart(levels) && KeysApart(levels)
    requires InputsPlaced(levels, j.level, j.in0, j.in1) && OutputLevelClear(levels, j.level, j.in0, j.in1)
    requires Run(input) && Content(input) == Held(j.in0) + Held(j.in1)
    requires forall e | e in Held(j.in0) + Held(j.in1) :: e.sn <= j.smallest
    requires FilesOk(outs) && Flatten(Runs(outs)) == Survivors(input, j.smallest, j.base, j.level)
    ensures OutsApart(levels, j.level, j.in0, j.in1, outs)
  {
    hide Flatten, Survivors, Run, Runs;
    JobFilesOk(levels, j.level, j.in0, j.in1);
    OutputsFromInputs(input, outs, j);
    SettledOuts(input, outs, j);
    OutsBeside(levels, j.level, j.in0, j.in1, outs);
  }

  lemma OutsBeside(levels: seq<seq<File>>, level: nat, in0: seq<File>, in1: seq<File>, outs: seq<File>)
    requires Shaped(levels) && LevelsApart(levels) && KeysApart(levels) && FilesOk(in0) && FilesOk(in1) && FilesOk(outs)
    requires InputsPlaced(levels, level, in0, in1) && OutputLevelClear(levels, level, in0, in1)
    requires Held(outs) <= Held(in0) + Held(in1)
    ensures forall o, l, g | o in outs && Stays(levels, level, in0, in1, l, g) && l == level + 1 ::
              o.largest.key < g.smallest.key || g.largest.key < o.smallest.key
  {
    forall o, l, g | o in outs && Stays(levels, level, in0, in1, l, g) && l == level + 1
      ensures o.largest.key < g.smallest.key || g.largest.key < o.smallest.key
    {
      OutBeside(levels, level, in0, in1, outs, o, g);
    }
  }

  lemma OutBeside(levels: seq<seq<File>>, level: nat, in0: seq<File>, in1: seq<File>, outs: seq<File>, o: File, g: File)
    requires Shaped(levels) && LevelsApart(levels) && KeysApart(levels) && FilesOk(in0) && FilesOk(in1) && FilesOk(outs)
    requires InputsPlaced(levels, level, in0, in1) && OutputLevelClear(levels, level, in0, in1)
    requires Held(outs) <= Held(in0) + Held(in1) && o in outs && Stays(levels, level, in0, in1, level + 1, g)
    ensures o.largest.key < g.smallest.key || g.largest.key < o.smallest.key
  {
    assert o.smallest in o.entries && o.largest in o.entries;
    assert o.smallest in Held(outs) && o.largest in Held(outs);
    BesideInputs(levels, level, in0, in1, g);
    BesideStrictly(levels, level, in0, in1, g, o.smallest);
    BesideStrictly(levels, level, in0, in1, g, o.largest);
  }

  lemma SettledOuts(input: seq<Entry>, outs: seq<File>, j: Job)
    requires Run(input) && FilesOk(outs) && Held(outs) == Content(Survivors(input, j.smallest, j.base, j.level))
    requires Content(input) == Held(j.in0) + Held(j.in1) && forall e | e in Held(j.in0) + Held(j.in1) :: e.sn <= j.smallest
    requires forall i, k | 0 <= i < k < |outs| :: Before(outs[i].largest, outs[k].smallest)
    ensures forall o, p | o in outs && p in outs && o != p :: o.largest.key < p.smallest.key || p.largest.key < o.smallest.key
  {
    forall e | e in input ensures e.sn <= j.smallest { assert e in Content(input); }
    forall o, p | o in outs && p in outs && o != p
      ensures o.largest.key < p.smallest.key || p.largest.key < o.smallest.key
    {
      assert o.largest in o.entries && p.smallest in p.entries && o.smallest in o.entries && p.largest in p.entries;
      assert o.largest in Held(outs) && p.smallest in Held(outs) && p.largest in Held(outs) && o.smallest in Held(outs);
      var i :| 0 <= i < |outs| && outs[i] == o;
      var k :| 0 <= k < |outs| && outs[k] == p;
      if i < k {
        if o.largest.key == p.smallest.key { OnePerKey(input, j.smallest, j.base, j.level, o.largest, p.smallest); }
      } else {
        if p.largest.key == o.smallest.key { OnePerKey(input, j.smallest, j.base, j.level, p.largest, o.smallest); }
      }
    }
  }

  lemma SoloFlush(s: State, step: Step, s': State)
    requires VersionOk(s.levels) && MemoryOk(s) && Solo(s) && step.Flush? && StepOk(s, step, s')
    ensures Solo(s')
  {
    var f := FlushedFile(s, step.size);
    assert FileOk(f);
    if step.level > 0 { FlushMeetsNothing(s.levels, step.level, f); }
    SwapKeysApart(s.levels, step.level - 1, [], [], [f], s'.levels);
  }

  lemma SoloMove(s: State, step: Step, s': State)
    requires VersionOk(s.levels) && Solo(s) && step.Move? && StepOk(s, step, s')
    ensures Solo(s')
  {
    hide Due, IsTrivialMove, InputsFrom, StartSetOf;
    var f := step.file;
    PickedClear(s.levels, step.level, [f], []);
    assert f in [f];
    assert RangeLo([f]) == f.smallest.key && RangeHi([f]) == f.largest.key;
    SwapKeysApart(s.levels, step.level, [f], [], [f], s'.levels);
  }

  lemma SoloBegin(s: State, step: Step, s': State)
    requires VersionOk(s.levels) && MemoryOk(s) && Solo(s) && step.Begin? && StepOk(s, step, s')
    ensures Solo(s')
  {
    hide Due, IsTrivialMove, InputsFrom, StartSetOf;
    PickedPlaced(s.levels, step.level, step.in0, step.in1);
    forall e | e in Held(step.in0) + Held(step.in1) ensures e.sn <= s.lastSequence {
      InputOnDisk(s.levels, step.level, step.in0, step.in1, e);
    }
  }

  lemma SoloStep(s: State, step: Step, s': State)
    requires Inv(s) && Solo(s) && StepOk(s, step, s') && !step.TakeSnapshot?
    ensures Guarded(s, step) && Solo(s')
  {
    hide Due, IsTrivialMove, InputsFrom, StartSetOf, Swapped, FlushLevel, BoundaryClosed, Faithful, ReadersOk, NumbersOk, KeysApart;
    match step {
      case Begin(_, _, level, in0, in1) =>
        SoloIsClosed(s.levels, level, in0, in1);
        SoloBegin(s, step, s');
      case Move(_, level, f) =>
        SoloIsClosed(s.levels, level, [f], []);
        SoloMove(s, step, s');
      case Flush(_, _) =>
        SoloFlush(s, step, s');
      case Install(_, _) =>
        var j := s.job.value;
        InstallOutsApart(s.levels, j, step.input, step.outs);
        SwapKeysApart(s.levels, j.level, j.in0, j.in1, step.outs, s'.levels);
      case _ =>
    }
  }

  lemma {:induction false} SoloExecution(states: seq<State>, steps: seq<Step>, n: nat)
    requires IsExecution(states, steps) && n < |states|
    requires forall i | 0 <= i < n :: !steps[i].TakeSnapshot?
    ensures Inv(states[n]) && Solo(states[n])
  {
    if n == 0 {
      InitInv(states[0]);
    } else {
      SoloExecution(states, steps, n - 1);
      SoloStep(states[n - 1], steps[n - 1], states[n]);
      StepInv(states[n - 1], steps[n - 1], states[n]);
    }
  }

  /**
   Runs that take no snapshots need no premise at all: at every point the levels stay in
   order, no user key is in two files of one level, and every read is right.
   */
  lemma SnapshotFreeRunReads(states: seq<State>, steps: seq<Step>, n: nat, k: Key)
    requires IsExecution(states, steps) && n < |states|
    requires forall i | 0 <= i < n :: !steps[i].TakeSnapshot?
    ensures VersionOk(states[n].levels) && KeysApart(states[n].levels) && states[n].lastSequence <= |states[n].writes|
    ensures AnswerOf(Search(states[n], k, states[n].lastSequence))
         == MapGet(Replay(states[n].writes[..states[n].lastSequence]), k)
  {
    SoloExecution(states, steps, n);
    ReadIsReplay(states[n], k, states[n].lastSequence);
  }
}
