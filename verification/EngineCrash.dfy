/**
 What a crash leaves: the version the manifest leads to holds everything but the two
 memtables, those hold whole groups of writes in order, and so replaying any surviving
 part of their logs over the version reads as a whole number of groups.
 */
module EngineCrash {
  import opened Entries
  import opened Versions
  import opened VersionOrder
  import opened Swaps
  import opened Picking
  import opened Compactions
  import opened GroupCommit
  import opened Engine
  import opened EngineSafety
  import opened EngineJobs
  import opened EngineRuns
  import opened EngineGroups

  // ------------------------------------------------------ what the memtables hold

  /** How many writes are not in the memtable. */
  function Mid(s: State): int { |s.writes| - |s.mem| }

  /** How many writes are in neither memtable. */
  function Base(s: State): int { Mid(s) - |ImmEntries(s)| }

  /** The memtables hold the last writes, the immutable one whole groups. */
  ghost predicate TailOk(s: State) {
    && 0 <= Base(s) <= Mid(s)
    && Content(s.mem) == Content(s.writes[Mid(s)..])
    && Content(ImmEntries(s)) == Content(s.writes[Base(s)..Mid(s)])
    && IsGroupEnd(s.groups, Base(s)) && IsGroupEnd(s.groups, Mid(s))
  }

  /** The log of the immutable memtable is needed until that is flushed. */
  ghost predicate LogsOk(s: State) {
    if s.imm.None? then s.logNumber == s.logFile else s.logNumber < s.logFile
  }

  /** What is on disk answers as the writes that are in neither memtable. */
  ghost predicate DiskFaithful(s: State) {
    0 <= Base(s) <= |s.writes| && forall k :: SameAnswer(Disk(s.levels), Content(s.writes[..Base(s)]), k, K_MAX_SEQUENCE)
  }

  ghost predicate CrashInv(s: State) {
    Inv(s) && GroupsOk(s) && TailOk(s) && LogsOk(s) && s.logFile < s.nextFile && DiskFaithful(s)
  }

  // ------------------------------------------------------------------------ tails

  lemma {:induction false} AddedOne(es: seq<Entry>, e: Entry)
    ensures |AddToRun(es, e)| == |es| + 1
  {
  }

  lemma InsertIs(s: State, s': State)
    requires StepOk(s, Insert, s')
    ensures s.rest != [] && |s.writes| + 1 < K_MAX_SEQUENCE
    ensures s' == s.(mem := AddToRun(s.mem, NextEntry(s)), writes := s.writes + [NextEntry(s)], rest := s'.rest)
  {
    hide AddToRun;
  }

  lemma InsertTail(s: State, s': State)
    requires TailOk(s) && MemoryOk(s) && StepOk(s, Insert, s')
    ensures TailOk(s') && Base(s') == Base(s) && s'.writes[..Base(s)] == s.writes[..Base(s)]
  {
    hide AddToRun, Disk, IsGroupEnd, StepOk, Run, AllAbove, Content;
    InsertIs(s, s');
    var e := NextEntry(s);
    InsertRun(s, e);
    AddedOne(s.mem, e);
    OneMore(s.writes, e, Base(s), Mid(s));
  }

  lemma InsertRun(s: State, e: Entry)
    requires MemoryOk(s) && e.sn == |s.writes| + 1
    ensures Content(AddToRun(s.mem, e)) == Content(s.mem) + {e}
  {
    hide AddToRun, Disk, AllAbove;
    forall x | x in s.mem ensures x.sn < e.sn {
      assert x in Content(s.mem) && x in Content(s.writes);
      var i :| 0 <= i < |s.writes| && s.writes[i] == x;
    }
    AddToRunOk(s.mem, e);
  }

  lemma OneMore(writes: seq<Entry>, e: Entry, b: nat, m: nat)
    requires b <= m <= |writes|
    ensures (writes + [e])[..b] == writes[..b] && (writes + [e])[b..m] == writes[b..m]
    ensures Content((writes + [e])[m..]) == Content(writes[m..]) + {e}
  {
    assert (writes + [e])[m..] == writes[m..] + [e];
  }

  lemma SwitchTail(s: State, s': State)
    requires TailOk(s) && GroupsOk(s) && StepOk(s, Switch, s')
    ensures TailOk(s') && Base(s') == Base(s)
  {
    hide EndsAt, Concat;
    assert s'.writes[Mid(s')..] == [] && s'.writes[Base(s')..Mid(s')] == s.writes[Mid(s)..];
    assert IsGroupEnd(s.groups, |s.writes|) by { AllEnd(s); }
  }

  lemma AllEnd(s: State)
    requires GroupsOk(s) && Idle(s)
    ensures IsGroupEnd(s.groups, |s.writes|)
  {
    assert s.groups[..|s.groups|] == s.groups;
    assert EndsAt(s.groups, |s.groups|, |s.writes|);
  }

  lemma FlushTail(s: State, step: Step, s': State)
    requires TailOk(s) && StepOk(s, step, s') && (step.Flush? || step.FlushEmpty?)
    ensures TailOk(s') && Base(s') == Mid(s) && s'.writes == s.writes
  {
    hide Swapped, IsGroupEnd;
    assert s'.writes[Base(s')..Mid(s')] == [];
  }

  lemma OpenTail(s: State, step: Step, s': State)
    requires TailOk(s) && StepOk(s, step, s') && step.Open?
    ensures TailOk(s') && Base(s') == Base(s) && s'.writes == s.writes && s'.levels == s.levels
  {
    hide IsGroupEnd;
    var ops := OpsOf(step.writers[..step.count]);
    EndsStay(s.groups, ops, Base(s));
    EndsStay(s.groups, ops, Mid(s));
  }

  /** Every other step leaves the memtables, the history and the groups alone. */
  lemma OtherTail(s: State, step: Step, s': State)
    requires TailOk(s) && StepOk(s, step, s') && !step.Open? && !step.Insert? && !step.Switch? && !step.Flush? && !step.FlushEmpty?
    ensures TailOk(s') && Base(s') == Base(s) && s'.writes == s.writes
  {
    hide StepOk, IsGroupEnd;
    OtherFrame(s, step, s');
  }

  lemma OtherFrame(s: State, step: Step, s': State)
    requires StepOk(s, step, s') && !step.Open? && !step.Insert? && !step.Switch? && !step.Flush? && !step.FlushEmpty?
    ensures s'.mem == s.mem && s'.imm == s.imm && s'.writes == s.writes && s'.groups == s.groups
  {
    hide OutputsWritten, Swapped, Due, PickedFrom, IsTrivialMove;
  }

  lemma StepLogs(s: State, step: Step, s': State)
    requires LogsOk(s) && s.logFile < s.nextFile && StepOk(s, step, s')
    ensures LogsOk(s') && s'.logFile < s'.nextFile
  {
    hide OutputsWritten, Swapped, AddToRun;
  }

  // ------------------------------------------------------------------------- disk

  /** Adding the same newer entries on both sides keeps the answers. */
  lemma SameAfterMore(A: set<Entry>, B: set<Entry>, I: set<Entry>, k: Key, q: nat)
    requires Unambiguous(A + I) && Unambiguous(B + I) && SameAnswer(A, B, k, q)
    requires forall x, y | x in I && y in A + B :: x.sn > y.sn
    ensures SameAnswer(A + I, B + I, k, q)
  {
    NewerWins(A, I, k, q);
    NewerWins(B, I, k, q);
  }

  lemma NewerWins(A: set<Entry>, I: set<Entry>, k: Key, q: nat)
    requires Unambiguous(A + I) && forall x, y | x in I && y in A :: x.sn > y.sn
    ensures Newest(A + I, k, q) == OrElse(Newest(I, k, q), Newest(A, k, q))
  {
    var r, a := Newest(I, k, q), Newest(A, k, q);
    if r.Some? {
      NewestIs(A + I, k, q, r.value);
    } else if a.Some? {
      NewestIs(A + I, k, q, a.value);
    } else {
      NewestIsNone(A + I, k, q);
    }
  }

  lemma InMemory(s: State, i: nat)
    requires TailOk(s) && Base(s) <= i < |s.writes|
    ensures s.writes[i] in Content(s.mem) + Content(ImmEntries(s))
  {
    if i >= Mid(s) {
      assert s.writes[Mid(s)..][i - Mid(s)] == s.writes[i];
    } else {
      assert s.writes[Base(s)..Mid(s)][i - Base(s)] == s.writes[i];
    }
  }

  /** Nothing on disk is still in a memtable. */
  lemma DiskIsOld(s: State)
    requires MemoryOk(s) && TailOk(s)
    ensures Disk(s.levels) <= Content(s.writes[..Base(s)])
  {
    hide Disk, Run, IsGroupEnd;
    forall e | e in Disk(s.levels) ensures e in Content(s.writes[..Base(s)]) {
      assert e in Content(s.writes);
      var i :| 0 <= i < |s.writes| && s.writes[i] == e;
      if i >= Base(s) { InMemory(s, i); }
      assert s.writes[..Base(s)][i] == e;
    }
  }

  lemma Split(writes: seq<Entry>, a: nat, b: nat)
    requires HistoryOk(writes) && a <= b <= |writes|
    ensures Content(writes[..b]) == Content(writes[..a]) + Content(writes[a..b])
    ensures Unambiguous(Content(writes[..b])) && forall x, y | x in Content(writes[a..b]) && y in Content(writes[..a]) :: x.sn > y.sn
  {
    HistoryUnambiguous(writes);
    assert writes[..b] == writes[..a] + writes[a..b];
    forall x | x in Content(writes[..b]) ensures x in Content(writes) {}
  }

  lemma FlushDisk(s: State, step: Step, s': State)
    requires MemoryOk(s) && TailOk(s) && DiskFaithful(s) && step.Flush? && StepOk(s, step, s') && Base(s') == Mid(s)
    ensures DiskFaithful(s')
  {
    hide Disk, Run, SameAnswer, IsGroupEnd, Swapped, FlushLevel;
    var b, m := Base(s), Mid(s);
    Split(s.writes, b, m);
    DiskIsOld(s);
    FlushMemory(s, step, s');
    assert Disk(s'.levels) == Disk(s.levels) + Content(ImmEntries(s)) by { FlushedDisk(s, step, s'); }
    forall k ensures SameAnswer(Disk(s'.levels), Content(s'.writes[..Base(s')]), k, K_MAX_SEQUENCE) {
      SameAfterMore(Disk(s.levels), Content(s.writes[..b]), Content(ImmEntries(s)), k, K_MAX_SEQUENCE);
    }
  }

  lemma FlushedDisk(s: State, step: Step, s': State)
    requires step.Flush? && StepOk(s, step, s')
    ensures Disk(s'.levels) == Disk(s.levels) + Content(ImmEntries(s)) && s'.writes == s.writes
  {
    hide FlushLevel;
    var f := FlushedFile(s, step.size);
    SwapDisk(s.levels, step.level - 1, [], [], [f], s'.levels);
    assert Held([f]) == Content(ImmEntries(s)) && Held([]) == {};
  }

  /** The state without its memtables. */
  function OnDisk(s: State): State { s.(mem := [], imm := None) }

  lemma OnDiskOk(s: State)
    requires MemoryOk(s)
    ensures MemoryOk(OnDisk(s)) && Stored(OnDisk(s)) == Disk(s.levels)
  {
    hide Disk;
    assert Run([]);
  }

  lemma InstallOnDisk(s: State, step: Step, s': State)
    requires step.Install? && StepOk(s, step, s')
    ensures StepOk(OnDisk(s), step, OnDisk(s')) && s'.writes == s.writes
  {
    hide Run, Content, Held, FilesOk, Outputs, DistinctNumbers, Swapped;
  }

  lemma InstallDiskFaithful(s: State, step: Step, s': State)
    requires Inv(s) && DiskFaithful(s) && step.Install? && StepOk(s, step, s') && Base(s') == Base(s)
    ensures DiskFaithful(s')
  {
    hide StepOk, MemoryOk, VersionOk, JobOk, Disk, SameAnswer, NothingOlderStays, Stored;
    InstallIs(s, step, s');
    InstallOnDisk(s, step, s');
    OnDiskOk(s);
    assert MemoryOk(s') by { InstallInv(s, step, s'); }
    OnDiskOk(s');
    forall k ensures SameAnswer(Disk(s'.levels), Content(s'.writes[..Base(s')]), k, K_MAX_SEQUENCE) {
      JobBelow(s);
      InstallAnswers(OnDisk(s), step, OnDisk(s'), k, K_MAX_SEQUENCE);
      SameTwice(Disk(s'.levels), Disk(s.levels), Content(s.writes[..Base(s)]), k, K_MAX_SEQUENCE);
    }
  }

  lemma JobBelow(s: State)
    requires MemoryOk(s) && JobInv(s)
    ensures s.job.Some? ==> s.job.value.smallest <= K_MAX_SEQUENCE
  {
  }

  lemma SameTwice(A: set<Entry>, B: set<Entry>, C: set<Entry>, k: Key, q: nat)
    requires SameAnswer(A, B, k, q) && SameAnswer(B, C, k, q)
    ensures SameAnswer(A, C, k, q)
  {
  }

  lemma MoveDisk(s: State, step: Step, s': State)
    requires step.Move? && StepOk(s, step, s')
    ensures Disk(s'.levels) == Disk(s.levels) && s'.writes == s.writes
  {
    hide StepOk, Disk, RestOf;
    MoveIs(s, step, s');
    PickedPlaced(s.levels, step.level, [step.file], []);
    SwapDisk(s.levels, step.level, [step.file], [], [step.file], s'.levels);
    assert Held([]) == {};
  }

  lemma SameLevels(s: State, step: Step, s': State)
    requires StepOk(s, step, s') && !step.Flush? && !step.Install? && !step.Move?
    ensures s'.levels == s.levels
  {
    hide AddToRun;
  }

  // ------------------------------------------------------------------------- runs

  lemma StepTail(s: State, step: Step, s': State)
    requires MemoryOk(s) && GroupsOk(s) && TailOk(s) && StepOk(s, step, s')
    ensures TailOk(s') && 0 <= Base(s) <= Base(s') && s'.writes[..Base(s)] == s.writes[..Base(s)]
    ensures !step.Flush? && !step.FlushEmpty? ==> Base(s') == Base(s)
    ensures step.Flush? || step.FlushEmpty? ==> Base(s') == Mid(s) && s'.writes == s.writes
  {
    hide StepOk, MemoryOk, GroupsOk;
    if step.Open? {
      OpenTail(s, step, s');
    } else if step.Insert? {
      InsertTail(s, s');
    } else if step.Switch? {
      SwitchTail(s, s');
      SwitchWrites(s, s');
    } else if step.Flush? || step.FlushEmpty? {
      FlushTail(s, step, s');
    } else {
      OtherTail(s, step, s');
    }
  }

  lemma SwitchWrites(s: State, s': State)
    requires StepOk(s, Switch, s')
    ensures s'.writes == s.writes
  {
  }

  lemma EmptyFlushed(s: State, s': State)
    requires StepOk(s, FlushEmpty, s')
    ensures Base(s) == Mid(s)
  {
  }

  lemma StepDisk(s: State, step: Step, s': State)
    requires Inv(s) && GroupsOk(s) && TailOk(s) && DiskFaithful(s) && StepOk(s, step, s')
    ensures DiskFaithful(s')
  {
    StepTail(s, step, s');
    hide StepOk, GroupsOk, TailOk, MemoryOk, Disk;
    if step.Flush? {
      FlushDisk(s, step, s');
    } else if step.Install? {
      InstallDiskFaithful(s, step, s');
    } else if step.Move? {
      MoveDisk(s, step, s');
    } else {
      if step.FlushEmpty? { EmptyFlushed(s, s'); }
      SameLevels(s, step, s');
    }
  }

  lemma InitCrash(s: State)
    requires Init(s)
    ensures CrashInv(s)
  {
    InitInv(s);
    assert EndsAt(s.groups, 0, 0);
    assert forall l, f :: !Placed(s.levels, l, f);
    assert Disk(s.levels) == {};
    assert Content(s.writes[..0]) == {};
  }

  /** Every guarded run leaves its memtables' logs and its version ready for a crash. */
  lemma {:induction false} ExecutionCrash(states: seq<State>, steps: seq<Step>, n: nat)
    requires IsExecution(states, steps) && n < |states| && forall i | 0 <= i < n :: Guarded(states[i], steps[i])
    ensures CrashInv(states[n])
  {
    hide StepOk, Inv, GroupsOk, TailOk, LogsOk, DiskFaithful, Guarded, MemoryOk;
    if n == 0 {
      InitCrash(states[0]);
    } else {
      ExecutionCrash(states, steps, n - 1);
      var s, step, s' := states[n - 1], steps[n - 1], states[n];
      assert MemoryOk(s) by { InvMemory(s); }
      StepInv(s, step, s');
      GroupsKept(s, step, s');
      StepTail(s, step, s');
      StepLogs(s, step, s');
      StepDisk(s, step, s');
    }
  }

  lemma InvMemory(s: State)
    requires Inv(s)
    ensures MemoryOk(s)
  {
    hide MemoryOk;
  }

  /** Without snapshots no guard is needed. */
  lemma {:induction false} SnapshotFreeGuarded(states: seq<State>, steps: seq<Step>, n: nat)
    requires IsExecution(states, steps) && n < |states| && forall i | 0 <= i < n :: !steps[i].TakeSnapshot?
    ensures forall i | 0 <= i < n :: Guarded(states[i], steps[i])
  {
    hide StepOk, Guarded, Inv, Solo;
    if n > 0 {
      SnapshotFreeGuarded(states, steps, n - 1);
      SoloExecution(states, steps, n - 1);
      SoloStep(states[n - 1], steps[n - 1], states[n]);
    }
  }

  // -------------------------------------------------------- tables made from the logs

  function Join<T>(chunks: seq<seq<T>>): seq<T> {
    if chunks == [] then [] else Join(chunks[..|chunks| - 1]) + chunks[|chunks| - 1]
  }

  /** The table a recovered memtable becomes. */
  function TableFor(chunk: seq<Entry>, number: nat, z: Sizes): File
    requires AddAll([], chunk) != []
  {
    var es := AddAll([], chunk);
    File(number, z.finished(es), es[0], es[|es| - 1], es)
  }

  /** Recovery writes each memtable it fills, unless it is empty, to level 0. */
  ghost predicate Loads(vs: seq<seq<seq<File>>>, chunks: seq<seq<Entry>>, numbers: seq<nat>, z: Sizes) {
    && |vs| == |chunks| + 1 == |numbers| + 1
    && forall j | 0 <= j < |chunks| :: LoadsOne(vs[j], chunks[j], numbers[j], z, vs[j + 1])
  }

  ghost predicate LoadsOne(v: seq<seq<File>>, chunk: seq<Entry>, number: nat, z: Sizes, w: seq<seq<File>>) {
    if AddAll([], chunk) == [] then w == v else Swapped(v, -1, [], [], [TableFor(chunk, number, z)], w)
  }

  /** The numbers ascend, and the first is behind every file of the version. */
  ghost predicate FreshNumbers(v: seq<seq<File>>, numbers: seq<nat>) {
    && (forall l, f, j | Placed(v, l, f) && 0 <= j < |numbers| :: f.number < numbers[j])
    && (forall i, j | 0 <= i < j < |numbers| :: numbers[i] < numbers[j])
  }

  lemma {:induction false} AddAllRun(mem: seq<Entry>, es: seq<Entry>)
    requires Run(mem) && (forall x, y | x in mem && y in es :: x.sn < y.sn) && forall i, j | 0 <= i < j < |es| :: es[i].sn < es[j].sn
    ensures Run(AddAll(mem, es)) && Content(AddAll(mem, es)) == Content(mem) + Content(es)
    decreases |es|
  {
    if es != [] {
      var e := es[0];
      assert e in es;
      AddToRunOk(mem, e);
      var more := AddToRun(mem, e);
      forall x, y | x in more && y in es[1..] ensures x.sn < y.sn {
        assert x in Content(more);
        var j :| 0 <= j < |es[1..]| && es[1..][j] == y;
        assert y == es[j + 1] && y in es;
      }
      AddAllRun(more, es[1..]);
      assert es == [e] + es[1..];
    }
  }

  lemma LoadOne(v: seq<seq<File>>, writes: seq<Entry>, chunk: seq<Entry>, number: nat, z: Sizes, w: seq<seq<File>>)
    requires VersionOk(v) && HistoryOk(writes + chunk) && Disk(v) <= Content(writes) && LoadsOne(v, chunk, number, z, w)
    requires forall l, f | Placed(v, l, f) :: f.number < number
    ensures VersionOk(w) && Disk(w) == Disk(v) + Content(chunk) && forall l, f | Placed(w, l, f) :: f.number <= number
  {
    hide Disk, VersionOk, Run, AddAll;
    var es := AddAll([], chunk);
    assert Run([]) by { NoneRun(); }
    forall i, j | 0 <= i < j < |chunk| ensures chunk[i].sn < chunk[j].sn {
      assert (writes + chunk)[|writes| + i] == chunk[i] && (writes + chunk)[|writes| + j] == chunk[j];
    }
    AddAllRun([], chunk);
    assert Content(es) == Content(chunk);
    if es == [] {
      assert Content(chunk) == {};
    } else {
      var f := TableFor(chunk, number, z);
      LoadNewer(v, writes, chunk, f);
      FlushFits(v, 0, f, w);
      SwapDisk(v, -1, [], [], [f], w);
      assert Held([]) == {} && Held([f]) == Content(es);
      FlushedOnly(v, f, 0, w);
    }
  }

  lemma NoneRun()
    ensures Run([])
  {
  }

  lemma LoadNewer(v: seq<seq<File>>, writes: seq<Entry>, chunk: seq<Entry>, f: File)
    requires HistoryOk(writes + chunk) && Disk(v) <= Content(writes) && Content(f.entries) == Content(chunk)
    ensures forall l, g | Placed(v, l, g) :: NewerFile(f, g)
  {
    hide Disk;
    forall l, g | Placed(v, l, g) ensures NewerFile(f, g) {
      forall a, b | a in f.entries && b in g.entries ensures a.sn > b.sn {
        assert b in Disk(v) by { InDisk(v, b); }
        assert a in Content(chunk) && b in Content(writes);
        var i :| 0 <= i < |chunk| && chunk[i] == a;
        var j :| 0 <= j < |writes| && writes[j] == b;
        assert (writes + chunk)[|writes| + i] == a && (writes + chunk)[j] == b;
      }
    }
  }

  lemma {:induction false} LoadAll(vs: seq<seq<seq<File>>>, chunks: seq<seq<Entry>>, numbers: seq<nat>, z: Sizes, writes: seq<Entry>, n: nat)
    requires Loads(vs, chunks, numbers, z) && n <= |chunks| && FreshNumbers(vs[0], numbers)
    requires VersionOk(vs[0]) && HistoryOk(writes + Join(chunks[..n])) && Disk(vs[0]) <= Content(writes)
    ensures VersionOk(vs[n]) && Disk(vs[n]) == Disk(vs[0]) + Content(Join(chunks[..n]))
    ensures forall l, f, j | Placed(vs[n], l, f) && n <= j < |numbers| :: f.number < numbers[j]
  {
    hide VersionOk, Disk, LoadsOne;
    if n == 0 {
      assert chunks[..0] == [] && Content([]) == {};
    } else {
      var less, c := Join(chunks[..n - 1]), chunks[n - 1];
      assert chunks[..n][..n - 1] == chunks[..n - 1] && Join(chunks[..n]) == less + c;
      assert writes + (less + c) == (writes + less) + c;
      HistoryPrefix(writes + less, c);
      LoadAll(vs, chunks, numbers, z, writes, n - 1);
      assert LoadsOne(vs[n - 1], c, numbers[n - 1], z, vs[n]);
      LoadOne(vs[n - 1], writes + less, c, numbers[n - 1], z, vs[n]);
      assert Content(less + c) == Content(less) + Content(c);
    }
  }

  lemma HistoryPrefix(a: seq<Entry>, b: seq<Entry>)
    requires HistoryOk(a + b)
    ensures HistoryOk(a)
  {
    forall i | 0 <= i < |a| ensures a[i].sn == i + 1 { assert (a + b)[i] == a[i]; }
  }

  // ------------------------------------------------------------- reading after a crash

  /** What `i` groups of writes leave in the history. */
  function GroupWrites(groups: seq<seq<Update>>, i: nat): seq<Entry>
    requires i <= |groups| && |Concat(groups[..i])| < K_MAX_SEQUENCE
  {
    Numbered(0, Concat(groups[..i]))
  }

  /** The writes that had left the memtables are the first of those of any later number of groups. */
  lemma BasePrefix(s: State, i: nat)
    requires GroupsOk(s) && TailOk(s) && i <= |s.groups| && |Concat(s.groups[..i])| < K_MAX_SEQUENCE && Base(s) <= |Concat(s.groups[..i])|
    ensures GroupWrites(s.groups, i)[..Base(s)] == s.writes[..Base(s)] && HistoryOk(GroupWrites(s.groups, i))
  {
    PrefixIsShorter(s.groups, i);
    var w, all := GroupWrites(s.groups, i), Concat(s.groups);
    forall j | 0 <= j < Base(s) ensures w[j] == s.writes[j] {
      assert Concat(s.groups[..i])[j] == all[j] == all[..|s.writes|][j];
    }
  }

  /**
   After a crash: the tables recovery makes of the logged writes that survive are read, over
   the version, as the whole number of groups that survived.
   */
  lemma CrashReads(s: State, i: nat, chunks: seq<seq<Entry>>, numbers: seq<nat>, vs: seq<seq<seq<File>>>, k: Key, q: nat)
    requires CrashInv(s) && i <= |s.groups| && |Concat(s.groups[..i])| < K_MAX_SEQUENCE && Base(s) <= |Concat(s.groups[..i])| <= q
    requires Join(chunks) == GroupWrites(s.groups, i)[Base(s)..]
    requires Loads(vs, chunks, numbers, s.sizes) && vs[0] == s.levels && FreshNumbers(s.levels, numbers)
    ensures VersionOk(vs[|chunks|])
    ensures AnswerOf(SearchFrom(vs[|chunks|], 0, k, q)) == MapGet(Replay(GroupWrites(s.groups, i)), k)
  {
    hide Disk, VersionOk, LoadsOne, SearchFrom, Replay, GroupsOk, IsGroupEnd, Concat, LogsOk;
    var w, b := GroupWrites(s.groups, i), Base(s);
    BasePrefix(s, i);
    DiskIsOld(s);
    assert w == w[..b] + Join(chunks) && chunks[..|chunks|] == chunks;
    LoadAll(vs, chunks, numbers, s.sizes, w[..b], |chunks|);
    var v := vs[|chunks|];
    Split(w, b, |w|);
    assert w[..|w|] == w && w[b..|w|] == w[b..];
    SameAfterMore(Disk(s.levels), Content(w[..b]), Content(w[b..]), k, K_MAX_SEQUENCE);
    LoadedRead(v, w, k, q);
  }

  lemma LoadedRead(v: seq<seq<File>>, w: seq<Entry>, k: Key, q: nat)
    requires VersionOk(v) && HistoryOk(w) && Disk(v) <= Content(w) && |w| <= q && SameAnswer(Disk(v), Content(w), k, K_MAX_SEQUENCE)
    ensures AnswerOf(SearchFrom(v, 0, k, q)) == MapGet(Replay(w), k)
  {
    hide Disk, VersionOk, Replay, SearchFrom, Right;
    HistoryUnambiguous(w);
    assert Unambiguous(Disk(v));
    assert SearchFrom(v, 0, k, q) == Newest(Disk(v), k, q) by { VersionRead(v, k, q); }
    AllBelow(Disk(v), w, k, q);
    AllBelow(Content(w), w, k, |w|);
    ReplayIsNewest(w, k, |w|);
    assert w[..|w|] == w;
  }

  lemma VersionRead(v: seq<seq<File>>, k: Key, q: nat)
    requires VersionOk(v) && Unambiguous(Disk(v))
    ensures SearchFrom(v, 0, k, q) == Newest(Disk(v), k, q)
  {
    SearchFromRight(v, 0, k, q);
    RightIsNewest(Disk(v), k, q, SearchFrom(v, 0, k, q));
  }

  /** Beyond the last number every reader sees the same. */
  lemma AllBelow(A: set<Entry>, w: seq<Entry>, k: Key, q: nat)
    requires HistoryOk(w) && A <= Content(w) && |w| <= q && Unambiguous(A)
    ensures Newest(A, k, q) == Newest(A, k, K_MAX_SEQUENCE)
  {
    forall x | x in A ensures x.sn <= |w| {
      var i :| 0 <= i < |w| && w[i] == x;
    }
    var r := Newest(A, k, q);
    if r.Some? { NewestIs(A, k, K_MAX_SEQUENCE, r.value); } else { NewestIsNone(A, k, K_MAX_SEQUENCE); }
  }
}
