/**
 The storage engine as a state machine. A state is what the mutex protects: the two
 memtables, the current version, the sequence and file counters, the live snapshots, the
 compaction pointers and the compaction in progress. `writes` is everything ever written, in sequence order.
 Steps are taken by writers, readers and the one background thread, in any interleaving.
 */
module Engine {
  import opened Entries
  import opened Versions
  import opened Picking
  import opened VersionOrder
  import opened Swaps
  import opened Compactions
  import opened GroupCommit

  /** A compaction between the moment its inputs are picked and the moment it is installed. */
  datatype Job = Job(level: nat, in0: seq<File>, in1: seq<File>, base: seq<seq<File>>, smallest: nat, reserved: set<nat>)

  /** What the table builder reports of its file after adding these entries, and once it is finished. */
  datatype Sizes = Sizes(growing: seq<Entry> -> nat, finished: seq<Entry> -> nat)

  datatype State = State(
    mem: seq<Entry>, imm: Option<seq<Entry>>, levels: seq<seq<File>>,
    writes: seq<Entry>, lastSequence: nat, nextFile: nat,
    snapshots: seq<nat>, job: Option<Job>,
    floor: nat,                // the highest smallest_snapshot of any compaction installed so far
    groups: seq<seq<Update>>,  // every group committed so far, the open one last
    rest: seq<Update>,         // what of the open group is still to be inserted
    pointers: map<nat, Entry>, // compact_pointer_, where one is set
    sizes: Sizes,              // never changes
    logFile: nat,              // logfile_number_, the log the memtable is written to
    logNumber: nat             // the version set's: logs from this one on are still needed
  )

  function ImmEntries(s: State): seq<Entry> {
    if s.imm.Some? then s.imm.value else []
  }

  /** A new database, opened: manifests 1 and 2 and log 3 have been created. */
  ghost predicate Init(s: State) {
    s == State([], None, seq(NUM_LEVELS, _ => []), [], 0, 4, [], None, 0, [], [], map[], s.sizes, 3, 3)
  }

  datatype Step =
    | Open(writers: seq<Writer>, count: nat)
    | Insert
    | Publish
    | Switch
    | FlushEmpty
    | Flush(size: nat, level: nat)
    | Begin(cause: Trigger, start: File, level: nat, in0: seq<File>, in1: seq<File>)
    | Reserve
    | Install(input: seq<Entry>, outs: seq<File>)
    | Move(cause: Trigger, level: nat, file: File)
    | TakeSnapshot
    | ReleaseSnapshot(index: nat)

  /** Put one entry into a memtable. */
  function AddToRun(es: seq<Entry>, e: Entry): seq<Entry> {
    var i := SeekRun(es, e.key, e.sn);
    es[..i] + [e] + es[i..]
  }

  function FlushedFile(s: State, size: nat): File
    requires s.imm.Some? && s.imm.value != []
  {
    var es := s.imm.value;
    File(s.nextFile, size, es[0], es[|es| - 1], es)
  }

  function OldestReader(s: State): nat {
    if s.snapshots == [] then s.lastSequence else s.snapshots[0]
  }

  function Runs(outs: seq<File>): seq<seq<Entry>> {
    if outs == [] then [] else Runs(outs[..|outs| - 1]) + [outs[|outs| - 1].entries]
  }

  /** The files the compaction of `input` writes, each as large as the builder says. */
  ghost predicate OutputsWritten(s: State, j: Job, input: seq<Entry>, outs: seq<File>)
    requires |j.base| == NUM_LEVELS && j.in0 != []
  {
    && Runs(outs) == Outputs(input, j.smallest, j.base, j.level, Grandparents(j.base, j.level, j.in0 + j.in1), s.sizes.growing)
    && forall o | o in outs :: o.size == s.sizes.finished(o.entries)
  }

  /** No group is open. */
  predicate Idle(s: State) {
    s.rest == [] && s.lastSequence == |s.writes|
  }

  function NextEntry(s: State): Entry
    requires s.rest != [] && |s.writes| + 1 < K_MAX_SEQUENCE
  {
    Entry(s.rest[0].key, |s.writes| + 1, s.rest[0].kind, s.rest[0].value)
  }

  ghost predicate StepOk(s: State, step: Step, s': State) {
    match step
    // the leader of the queue builds its group
    case Open(writers, n) =>
      && writers != [] && writers[0].batch.Some? && IsGroup(writers, n) && Idle(s)
      && var ops := OpsOf(writers[..n]);
         s' == s.(groups := s.groups + [ops], rest := ops)
    // InsertInto: the leader adds the group's entries one by one, without the mutex
    case Insert =>
      && s.rest != [] && |s.writes| + 1 < K_MAX_SEQUENCE
      && var e := NextEntry(s);
         s' == s.(mem := AddToRun(s.mem, e), writes := s.writes + [e], rest := s.rest[1..])
    // SetLastSequence, once the whole group is in
    case Publish => s.rest == [] && s' == s.(lastSequence := |s.writes|)
    // MakeRoomForWrite: only between groups
    case Switch =>
      && s.imm.None? && Idle(s)
      && s' == s.(mem := [], imm := Some(s.mem), nextFile := s.nextFile + 1, logFile := s.nextFile)
    // CompactMemTable
    case FlushEmpty =>
      && s.imm == Some([]) && s' == s.(imm := None, nextFile := s.nextFile + 1, logNumber := s.logFile)
    case Flush(size, level) =>
      && s.imm.Some? && s.imm.value != [] && size == s.sizes.finished(s.imm.value)
      && var f := FlushedFile(s, size);
         && FlushLevel(s.levels, level, f.smallest.key, f.largest.key)
         && Swapped(s.levels, level - 1, [], [], [f], s'.levels)
         && s' == s.(imm := None, levels := s'.levels, nextFile := s.nextFile + 1, logNumber := s.logFile)
    // PickCompaction and the start of DoCompactionWork; a memtable that waits goes first
    case Begin(cause, start, level, in0, in1) =>
      && s.job.None? && s.imm.None?
      && Due(s.levels, s.pointers, cause, level, start) && PickedFrom(s.levels, level, start, in0, in1)
      && !IsTrivialMove(s.levels, level, in0, in1)
      && s' == s.(job := Some(Job(level, in0, in1, s.levels, OldestReader(s), {})), pointers := s.pointers[level := LastKey(in0)])
    // OpenCompactionOutputFile
    case Reserve =>
      && s.job.Some?
      && s' == s.(job := Some(s.job.value.(reserved := s.job.value.reserved + {s.nextFile})), nextFile := s.nextFile + 1)
    // the rest of DoCompactionWork and InstallCompactionResults
    case Install(input, outs) =>
      && s.job.Some?
      && var j := s.job.value;
         && Run(input) && Content(input) == Held(j.in0) + Held(j.in1)
         && FilesOk(outs) && |j.base| == NUM_LEVELS && j.in0 != [] && OutputsWritten(s, j, input, outs)
         && DistinctNumbers(outs) && (forall o | o in outs :: o.number in j.reserved)
         && Swapped(s.levels, j.level, j.in0, j.in1, outs, s'.levels)
         && s' == s.(levels := s'.levels, job := None, floor := if j.smallest > s.floor then j.smallest else s.floor)
    // a trivial move
    case Move(cause, level, file) =>
      && s.job.None? && s.imm.None?
      && Due(s.levels, s.pointers, cause, level, file) && PickedFrom(s.levels, level, file, [file], [])
      && IsTrivialMove(s.levels, level, [file], [])
      && Swapped(s.levels, level, [file], [], [file], s'.levels)
      && s' == s.(levels := s'.levels, pointers := s.pointers[level := file.largest])
    case TakeSnapshot => s' == s.(snapshots := s.snapshots + [s.lastSequence])
    case ReleaseSnapshot(i) =>
      && i < |s.snapshots| && s' == s.(snapshots := s.snapshots[..i] + s.snapshots[i + 1..])
  }

  // -------------------------------------------------------- what single steps change

  lemma BeginIs(s: State, step: Step, s': State)
    requires step.Begin? && StepOk(s, step, s')
    ensures Picked(s.levels, step.level, step.in0, step.in1)
    ensures s' == s.(job := Some(Job(step.level, step.in0, step.in1, s.levels, OldestReader(s), {})), pointers := s'.pointers)
  {
    hide Due, IsTrivialMove, InputsFrom, StartSetOf, Picked;
  }

  lemma MoveIs(s: State, step: Step, s': State)
    requires step.Move? && StepOk(s, step, s')
    ensures Picked(s.levels, step.level, [step.file], []) && Swapped(s.levels, step.level, [step.file], [], [step.file], s'.levels)
    ensures s.job.None? && s' == s.(levels := s'.levels, pointers := s'.pointers)
  {
    hide Due, IsTrivialMove, InputsFrom, StartSetOf, Picked, Swapped;
  }

  lemma InstallIs(s: State, step: Step, s': State)
    requires step.Install? && StepOk(s, step, s')
    ensures s.job.Some?
    ensures var j := s.job.value;
            && Run(step.input) && Content(step.input) == Held(j.in0) + Held(j.in1)
            && FilesOk(step.outs) && Flatten(Runs(step.outs)) == Survivors(step.input, j.smallest, j.base, j.level)
            && DistinctNumbers(step.outs) && (forall o | o in step.outs :: o.number in j.reserved)
            && Swapped(s.levels, j.level, j.in0, j.in1, step.outs, s'.levels)
            && s' == s.(levels := s'.levels, job := None, floor := if j.smallest > s.floor then j.smallest else s.floor)
  {
    hide Run, Content, Held, FilesOk, Flatten, Survivors, DistinctNumbers, Swapped, Outputs, Runs;
  }

  /**
   No input file is cut off from the next file of its level in the middle of a user key:
   the condition a picker can check, and this one does not, before it hands out the inputs.
   */
  ghost predicate BoundaryClosed(levels: seq<seq<File>>, level: nat, in0: seq<File>, in1: seq<File>) {
    forall l, i {:trigger levels[l][i]} | 1 <= l < |levels| && 0 <= i && i + 1 < |levels[l]|
        && IsInput(level, in0, in1, l, levels[l][i]) && !IsInput(level, in0, in1, l, levels[l][i + 1]) ::
      levels[l][i].largest.key != levels[l][i + 1].smallest.key
  }

  ghost predicate Guarded(s: State, step: Step) {
    match step
    case Begin(_, _, level, in0, in1) => BoundaryClosed(s.levels, level, in0, in1)
    case Move(_, level, f) => BoundaryClosed(s.levels, level, [f], [])
    case _ => true
  }

  // ------------------------------------------------------------------ reads

  ghost function Stored(s: State): set<Entry> {
    Content(s.mem) + Content(ImmEntries(s)) + Disk(s.levels)
  }

  /** DBImpl::SUGet: memtable, then immutable memtable, then the version level by level. */
  function Search(s: State, k: Key, q: nat): Option<Entry> {
    OrElse(Probe(s.mem, k, q), OrElse(Probe(ImmEntries(s), k, q), SearchFrom(s.levels, 0, k, q)))
  }

  /** The database a reader at sequence number n must see: the writes 1..n applied to a map. */
  function Replay(writes: seq<Entry>): map<Key, Answer> {
    if writes == [] then map[] else
    var m, e := Replay(writes[..|writes| - 1]), writes[|writes| - 1];
    m[e.key := AnswerOf(Some(e))]
  }

  function MapGet(m: map<Key, Answer>, k: Key): Answer {
    if k in m then m[k] else NotFound
  }

  // -------------------------------------------------------------- invariants

  ghost predicate HistoryOk(writes: seq<Entry>) {
    |writes| < K_MAX_SEQUENCE && forall i | 0 <= i < |writes| :: writes[i].sn == i + 1
  }

  ghost predicate AllAbove(A: set<Entry>, B: set<Entry>) {
    forall a, b | a in A && b in B :: a.sn > b.sn
  }

  ghost predicate MemoryOk(s: State) {
    && HistoryOk(s.writes) && s.lastSequence <= |s.writes|
    && Stored(s) <= Content(s.writes)
    && Run(s.mem) && Run(ImmEntries(s))
    && AllAbove(Content(s.mem), Content(ImmEntries(s)))
    && AllAbove(Content(s.mem), Disk(s.levels))
    && AllAbove(Content(ImmEntries(s)), Disk(s.levels))
    && (forall e | e in Content(ImmEntries(s)) + Disk(s.levels) :: e.sn <= s.lastSequence)
  }

  ghost predicate ReadersOk(s: State) {
    && s.floor <= s.lastSequence
    && (forall n | n in s.snapshots :: s.floor <= n <= s.lastSequence)
    && (forall i, j | 0 <= i < j < |s.snapshots| :: s.snapshots[i] <= s.snapshots[j])
  }

  ghost predicate NumbersOk(s: State) {
    && (forall l, f | Placed(s.levels, l, f) :: f.number < s.nextFile)
    && (s.job.Some? ==>
          && (forall n | n in s.job.value.reserved :: n < s.nextFile)
          && (forall l, f | Placed(s.levels, l, f) :: f.number !in s.job.value.reserved))
  }

  ghost predicate Outside(f: File, lo: Key, hi: Key) {
    f.largest.key < lo || hi < f.smallest.key
  }

  ghost predicate InputsPlaced(levels: seq<seq<File>>, level: nat, in0: seq<File>, in1: seq<File>) {
    forall l, f | IsInput(level, in0, in1, l, f) :: Placed(levels, l, f)
  }

  /** At the output level exactly the inputs meet the range of `in0`. */
  ghost predicate OutputLevelClear(levels: seq<seq<File>>, level: nat, in0: seq<File>, in1: seq<File>) {
    && in0 != []
    && (forall f | f in in1 :: Touches(f, RangeLo(in0), RangeHi(in0)))
    && (forall l, g | Stays(levels, level, in0, in1, l, g) && l == level + 1 :: !Touches(g, RangeLo(in0), RangeHi(in0)))
  }

  ghost predicate NoGap(in0: seq<File>, in1: seq<File>) {
    in0 != [] && Spans(in0 + in1, RangeLo(in0 + in1), RangeHi(in0 + in1))
  }

  /** A deeper file that appeared since the inputs were picked lies outside their range. */
  ghost predicate DeeperKnown(levels: seq<seq<File>>, level: nat, in0: seq<File>, in1: seq<File>, base: seq<seq<File>>) {
    && in0 != []
    && forall l, g | level + 2 <= l && Placed(levels, l, g) ::
         Placed(base, l, g) || Outside(g, RangeLo(in0 + in1), RangeHi(in0 + in1))
  }

  /** What a running compaction can rely on, however many memtables are flushed meanwhile. */
  ghost predicate JobOk(levels: seq<seq<File>>, level: nat, in0: seq<File>, in1: seq<File>, base: seq<seq<File>>) {
    && level + 1 < NUM_LEVELS && LevelsOk(base)
    && InputsPlaced(levels, level, in0, in1) && OutputLevelClear(levels, level, in0, in1) && NoGap(in0, in1)
    && DeeperKnown(levels, level, in0, in1, base)
  }

  /** A file that stays at an input's level is newer than the input wherever they share a user key. */
  ghost predicate NothingOlderStays(levels: seq<seq<File>>, level: int, in0: seq<File>, in1: seq<File>) {
    forall l, f, g | IsInput(level, in0, in1, l, f) && Stays(levels, level, in0, in1, l, g) :: NewerFile(g, f)
  }

  function Concat(groups: seq<seq<Update>>): seq<Update> {
    if groups == [] then [] else Concat(groups[..|groups| - 1]) + groups[|groups| - 1]
  }

  /** `q` is where one of the groups ends. */
  ghost predicate IsGroupEnd(groups: seq<seq<Update>>, q: nat) {
    exists i :: EndsAt(groups, i, q)
  }

  ghost predicate EndsAt(groups: seq<seq<Update>>, i: int, q: nat) {
    0 <= i <= |groups| && q == |Concat(groups[..i])|
  }

  /** The history is the groups in order, numbered from 1, and nobody reads at a number inside one. */
  ghost predicate GroupsOk(s: State) {
    var all := Concat(s.groups);
    && |s.writes| < K_MAX_SEQUENCE && |s.writes| + |s.rest| == |all| && s.rest == all[|s.writes|..]
    && s.writes == Numbered(0, all[..|s.writes|])
    && s.lastSequence <= |s.writes| && IsGroupEnd(s.groups, s.lastSequence)
    && (forall n | n in s.snapshots :: n <= |s.writes| && IsGroupEnd(s.groups, n))
  }

  /** Every read from `floor` on is answered as if nothing had ever been dropped. */
  ghost predicate Faithful(s: State) {
    forall k, q: nat | q >= s.floor :: SameAnswer(Stored(s), Content(s.writes), k, q)
  }

  ghost predicate SameAnswer(A: set<Entry>, B: set<Entry>, k: Key, q: nat) {
    AnswerOf(Newest(A, k, q)) == AnswerOf(Newest(B, k, q))
  }

  ghost predicate JobInv(s: State) {
    s.job.Some? ==> var j := s.job.value;
      && JobOk(s.levels, j.level, j.in0, j.in1, j.base)
      && j.smallest <= s.lastSequence
      && forall n | n in s.snapshots :: j.smallest <= n
  }

  /** The running compaction leaves nothing older behind at its levels. */
  ghost predicate JobClosed(s: State) {
    s.job.Some? ==> NothingOlderStays(s.levels, s.job.value.level, s.job.value.in0, s.job.value.in1)
  }

  /** Everything but the last: what holds while a compaction runs, whatever inputs it was given. */
  ghost predicate Sound(s: State) {
    && MemoryOk(s) && VersionOk(s.levels) && NumbersOk(s) && ReadersOk(s) && Faithful(s) && JobInv(s)
  }

  ghost predicate Inv(s: State) {
    Sound(s) && JobClosed(s)
  }
}
