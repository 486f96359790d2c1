/**
 Pieces to build runs of the engine with: memtables written and flushed to the level the
 code picks, compactions that are due and take exactly the inputs the picker finds, and
 outputs cut where the size rule cuts them. No step of these runs is started by seeks.
 */
module Reaching {
  import opened Entries
  import opened Versions
  import opened Picking
  import opened VersionOrder
  import opened Swaps
  import opened Compactions
  import opened GroupCommit
  import opened Engine
  import opened EngineRuns
  import opened EngineGroups

  // ------------------------------------------------------------ reachable states

  /** No compaction of the run was started by seeks. */
  ghost predicate BySizeOnly(steps: seq<Step>) {
    forall i | 0 <= i < |steps| :: steps[i].Begin? || steps[i].Move? ==> steps[i].cause == BySize
  }

  ghost predicate Reachable(t: State) {
    exists states, steps :: IsExecution(states, steps) && BySizeOnly(steps) && states[|steps|] == t
  }

  lemma ReachInit(s: State)
    requires Init(s)
    ensures Reachable(s)
  {
    assert IsExecution([s], []) && BySizeOnly([]);
  }

  lemma ReachRun(s: State, states: seq<State>, steps: seq<Step>, t: State)
    requires Reachable(s) && IsRun(s, states, steps, t) && BySizeOnly(steps)
    ensures Reachable(t)
  {
    hide StepOk, Init;
    var before, done :| IsExecution(before, done) && BySizeOnly(done) && before[|done|] == s;
    var all, allSteps := before + states[1..], done + steps;
    forall i | 0 <= i < |allSteps| ensures StepOk(all[i], allSteps[i], all[i + 1]) {
      if i < |done| {
        assert StepOk(before[i], done[i], before[i + 1]);
      } else {
        var m := i - |done|;
        assert StepOk(states[m], steps[m], states[m + 1]);
        assert all[i] == states[m];
      }
    }
    assert IsExecution(all, allSteps) && BySizeOnly(allSteps);
  }

  lemma ReachStep(s: State, step: Step, t: State)
    requires Reachable(s) && StepOk(s, step, t) && (step.Begin? || step.Move? ==> step.cause == BySize)
    ensures Reachable(t)
  {
    hide StepOk;
    ReachRun(s, [s, t], [step], t);
  }

  // --------------------------------------------------------- writing and flushing

  lemma {:induction false} AddAllAppends(mem: seq<Entry>, es: seq<Entry>)
    requires Run(mem + es)
    ensures AddAll(mem, es) == mem + es
    decreases |es|
  {
    if es != [] {
      var e := es[0];
      forall x | x in mem ensures BeforeTarget(x, e.key, e.sn) {
        var i :| 0 <= i < |mem| && mem[i] == x;
        assert Before((mem + es)[i], (mem + es)[|mem|]);
      }
      assert SeekRun(mem, e.key, e.sn) == |mem|;
      assert AddToRun(mem, e) == mem + [e];
      assert mem + [e] + es[1..] == mem + es;
      AddAllAppends(mem + [e], es[1..]);
    }
  }

  ghost predicate Ascending(ops: seq<Update>) {
    forall i, j | 0 <= i < j < |ops| :: ops[i].key < ops[j].key
  }

  /** No group open, both memtables empty, no compaction running. */
  predicate Quiet(s: State) {
    Idle(s) && s.mem == [] && s.imm == None && s.job == None
  }

  function TableOf(number: nat, es: seq<Entry>, z: Sizes): File
    requires es != []
  {
    File(number, z.finished(es), es[0], es[|es| - 1], es)
  }

  /** What a group of writes, a switch of memtables and a flush leave behind. */
  function Flushed(s: State, ops: seq<Update>, levels': seq<seq<File>>): State
    requires |s.writes| + |ops| < K_MAX_SEQUENCE
  {
    s.(writes := s.writes + Numbered(|s.writes|, ops), lastSequence := |s.writes| + |ops|,
       nextFile := s.nextFile + 2, levels := levels', groups := s.groups + [ops], logFile := s.nextFile, logNumber := s.nextFile)
  }

  function FlushOf(s: State, ops: seq<Update>): File
    requires |s.writes| + |ops| < K_MAX_SEQUENCE && ops != []
  {
    TableOf(s.nextFile + 1, Numbered(|s.writes|, ops), s.sizes)
  }

  /** One writer's batch, keys ascending, into an empty memtable. */
  lemma WriteGroup(s: State, ops: seq<Update>)
    requires Reachable(s) && Quiet(s) && Ascending(ops) && |s.writes| + |ops| < K_MAX_SEQUENCE
    ensures var es := Numbered(|s.writes|, ops);
            Reachable(s.(mem := es, writes := s.writes + es, lastSequence := |s.writes| + |ops|, groups := s.groups + [ops]))
  {
    hide Reachable, AddAll, IsRun, Unpublished, IsGroup, OpsOf, Run;
    var ws := OneWriter(ops);
    var es := Numbered(|s.writes|, ops);
    var states, steps, s1 := GroupRun(s, ws, 1);
    ReachRun(s, states, steps, s1);
    assert [] + es == es;
    assert Run(es) by { NumberedRun(|s.writes|, ops); }
    AddAllAppends([], es);
  }

  lemma NumberedRun(base: nat, ops: seq<Update>)
    requires Ascending(ops) && base + |ops| <= K_MAX_SEQUENCE
    ensures Run(Numbered(base, ops))
  {
  }

  lemma OneWriter(ops: seq<Update>) returns (ws: seq<Writer>)
    ensures ws != [] && ws[0].batch.Some? && IsGroup(ws, 1) && OpsOf(ws[..1]) == ops
  {
    ws := [Writer(0, Some(ops), 0, false)];
    assert ws[..1] == ws && OpsOf(ws) == ops;
  }

  /** The memtable is switched out and flushed. */
  lemma SwitchAndFlush(s: State, level: nat, levels': seq<seq<File>>)
    requires Reachable(s) && Idle(s) && s.mem != [] && s.imm == None
    requires var f := TableOf(s.nextFile + 1, s.mem, s.sizes);
             FlushLevel(s.levels, level, f.smallest.key, f.largest.key) && Swapped(s.levels, level - 1, [], [], [f], levels')
    ensures Reachable(s.(mem := [], imm := None, levels := levels', nextFile := s.nextFile + 2, logFile := s.nextFile, logNumber := s.nextFile))
  {
    hide Reachable, Swapped, FlushLevel;
    var s1 := s.(mem := [], imm := Some(s.mem), nextFile := s.nextFile + 1, logFile := s.nextFile);
    ReachStep(s, Switch, s1);
    var s2 := s1.(imm := None, levels := levels', nextFile := s.nextFile + 2, logNumber := s.nextFile);
    ReachStep(s1, Flush(s.sizes.finished(s.mem), level), s2);
  }

  lemma WriteAndFlush(s: State, ops: seq<Update>, level: nat, levels': seq<seq<File>>)
    requires Reachable(s) && Quiet(s) && ops != [] && Ascending(ops) && |s.writes| + |ops| < K_MAX_SEQUENCE
    requires var f := FlushOf(s, ops);
             FlushLevel(s.levels, level, f.smallest.key, f.largest.key) && Swapped(s.levels, level - 1, [], [], [f], levels')
    ensures Reachable(Flushed(s, ops, levels')) && Quiet(Flushed(s, ops, levels'))
  {
    hide Reachable, Swapped, FlushLevel;
    var es := Numbered(|s.writes|, ops);
    WriteGroup(s, ops);
    SwitchAndFlush(s.(mem := es, writes := s.writes + es, lastSequence := |s.writes| + |ops|, groups := s.groups + [ops]), level, levels');
  }

  // ------------------------------------------------------------- changing levels

  ghost predicate AllSorted(levels: seq<seq<File>>) {
    |levels| == NUM_LEVELS && forall l | 0 <= l < NUM_LEVELS :: SortedBySmallest(levels[l])
  }

  /** A new file joins a level. */
  lemma PlaceFile(levels: seq<seq<File>>, level: nat, f: File, fs: seq<File>)
    requires AllSorted(levels) && level < NUM_LEVELS && SortedBySmallest(fs)
    requires forall g :: g in fs <==> g in levels[level] || g == f
    ensures Swapped(levels, level - 1, [], [], [f], levels[level := fs])
    ensures AllSorted(levels[level := fs])
  {
    var levels' := levels[level := fs];
    forall l, g ensures Placed(levels', l, g) <==> Stays(levels, level - 1, [], [], l, g) || (l == level && g in [f]) {
      if l == level { assert g in levels'[l] <==> g in fs; }
    }
  }

  /** Files leave two adjacent levels and others join the lower one. */
  lemma ReplaceFiles(levels: seq<seq<File>>, level: nat, in0: seq<File>, in1: seq<File>, outs: seq<File>, upper: seq<File>, lower: seq<File>)
    requires AllSorted(levels) && level + 1 < NUM_LEVELS && SortedBySmallest(upper) && SortedBySmallest(lower)
    requires forall g :: g in upper <==> g in levels[level] && g !in in0
    requires forall g :: g in lower <==> (g in levels[level + 1] && g !in in1) || g in outs
    ensures Swapped(levels, level, in0, in1, outs, levels[level := upper][level + 1 := lower])
    ensures AllSorted(levels[level := upper][level + 1 := lower])
  {
    var levels' := levels[level := upper][level + 1 := lower];
    forall l, g ensures Placed(levels', l, g) <==> Stays(levels, level, in0, in1, l, g) || (l == level + 1 && g in outs) {
      if l == level {
        assert g in levels'[l] <==> g in upper;
      } else if l == level + 1 {
        assert g in levels'[l] <==> g in lower;
      }
    }
  }

  /** A memtable that meets something in its way is flushed to level 0. */
  lemma FlushToZero(s: State, ops: seq<Update>, fs: seq<File>)
    requires Reachable(s) && Quiet(s) && ops != [] && Ascending(ops) && |s.writes| + |ops| < K_MAX_SEQUENCE && AllSorted(s.levels)
    requires var f := FlushOf(s, ops);
             && FlushLevel(s.levels, 0, f.smallest.key, f.largest.key) && SortedBySmallest(fs)
             && forall g :: g in fs <==> g in s.levels[0] || g == f
    ensures var t := Flushed(s, ops, s.levels[0 := fs]); Reachable(t) && Quiet(t) && AllSorted(t.levels)
  {
    hide Reachable, Swapped, FlushLevel, SortedBySmallest;
    PlaceFile(s.levels, 0, FlushOf(s, ops), fs);
    WriteAndFlush(s, ops, 0, s.levels[0 := fs]);
  }

  /** A memtable whose range meets more than the limit two levels down stays at level 0. */
  lemma AboveBottomLevel(levels: seq<seq<File>>, f: File, lo: Key, hi: Key)
    requires |levels| == NUM_LEVELS && levels[2] == [f] && f.size > MAX_GRANDPARENT_OVERLAP && Touches(f, lo, hi)
    ensures FlushLevel(levels, 0, lo, hi)
  {
    var fs := [f];
    assert fs[0] == f && fs[1..] == [];
    assert Selected(fs, Some(lo), Some(hi)) == [f] by { assert Overlaps(f, Some(lo), Some(hi)); }
    assert TotalFileSize([f]) == f.size;
    assert StopsAt(levels, 0, lo, hi);
  }

  /** A memtable whose range meets a file of level 0 stays there. */
  lemma AboveZeroLevel(levels: seq<seq<File>>, f: File, lo: Key, hi: Key)
    requires |levels| == NUM_LEVELS && f in levels[0] && Touches(f, lo, hi)
    ensures FlushLevel(levels, 0, lo, hi)
  {
    assert Overlaps(f, Some(lo), Some(hi));
    assert OverlapInLevel(levels, 0, lo, hi);
  }

  /** A memtable whose range meets a file of level 1 stays at level 0. */
  lemma AboveOneLevel(levels: seq<seq<File>>, f: File, lo: Key, hi: Key)
    requires |levels| == NUM_LEVELS && f in levels[1] && Touches(f, lo, hi)
    ensures FlushLevel(levels, 0, lo, hi)
  {
    assert Overlaps(f, Some(lo), Some(hi));
    assert OverlapInLevel(levels, 1, lo, hi);
    assert StopsAt(levels, 0, lo, hi);
  }

  // ------------------------------------------------------------ picked compactions

  /** One input file that covers the whole range is a good choice of inputs. */
  lemma CoveredPick(levels: seq<seq<File>>, level: nat, in0: seq<File>, in1: seq<File>, c: File)
    requires level + 1 < |levels| == NUM_LEVELS && in0 != [] && (forall f | f in in0 :: f in levels[level])
    requires forall f :: f in in1 <==> f in levels[level + 1] && Touches(f, RangeLo(in0), RangeHi(in0))
    requires level == 0 ==> forall f | f in levels[0] :: f in in0
    requires c in in0 + in1 && forall f | f in in0 + in1 :: c.smallest.key <= f.smallest.key && f.largest.key <= c.largest.key
    ensures Picked(levels, level, in0, in1)
  {
    hide RangeLo, RangeHi, Touches;
    assert in0 + in1 != [];
    OneSpans(in0 + in1, c);
  }

  lemma OneSpans(all: seq<File>, c: File)
    requires c in all && forall f | f in all :: c.smallest.key <= f.smallest.key && f.largest.key <= c.largest.key
    ensures Spans(all, RangeLo(all), RangeHi(all))
  {
    forall x | RangeLo(all) <= x <= RangeHi(all) ensures InOne(all, x) {
      assert Covers(c, x);
    }
  }

  lemma {:induction false} SelectedAll(fs: seq<File>, lo: Key, hi: Key)
    requires forall f | f in fs :: Overlaps(f, Some(lo), Some(hi))
    ensures Selected(fs, Some(lo), Some(hi)) == fs
  {
    if fs != [] {
      assert fs[0] in fs && forall f | f in fs[1..] :: f in fs;
      SelectedAll(fs[1..], lo, hi);
      assert fs == [fs[0]] + fs[1..];
    }
  }

  /** Files of level 0 all inside the range of one of them are taken together. */
  lemma TakenTogether(fs: seq<File>, lo: Key, hi: Key, c: File)
    requires c in fs && lo <= hi && Touches(c, lo, hi) && c.smallest.key <= lo
    requires forall f | f in fs :: c.smallest.key <= f.smallest.key <= f.largest.key
    requires forall f | f in fs :: f.largest.key <= c.largest.key
    ensures Overlapping(0, fs, lo, hi, fs)
  {
    var l, h := c.smallest.key, if c.largest.key > hi then c.largest.key else hi;
    SelectedAll(fs, l, h);
    forall x | l <= x < lo ensures InSome(fs, Some(l), Some(h), x) { assert Covers(c, x); }
    forall x | hi < x <= h ensures InSome(fs, Some(l), Some(h), x) { assert Covers(c, x); }
    assert WidenedGapFree(fs, Some(lo), Some(hi), Some(l), Some(h));
  }

  lemma OneSelected(fs: seq<File>, f: File, lo: Key, hi: Key)
    requires f in fs && Overlaps(f, Some(lo), Some(hi)) && |fs| <= 2 && (forall i, j | 0 <= i < j < |fs| :: fs[i] != fs[j])
    requires forall g | g in fs && g != f :: !Overlaps(g, Some(lo), Some(hi))
    ensures Selected(fs, Some(lo), Some(hi)) == [f]
  {
    if |fs| == 1 {
      assert fs[1..] == [];
    } else {
      assert fs[1..] == [fs[1]] && fs[1..][1..] == [];
      assert fs[0] in fs && fs[1] in fs;
    }
  }

  lemma {:induction false} NoneSelected(fs: seq<File>, lo: Key, hi: Key)
    requires forall f | f in fs :: !Overlaps(f, Some(lo), Some(hi))
    ensures Selected(fs, Some(lo), Some(hi)) == []
  {
    if fs != [] {
      assert fs[0] in fs && forall f | f in fs[1..] :: f in fs;
      NoneSelected(fs[1..], lo, hi);
    }
  }

  /** Four files at level 0 are one compaction's worth, if no level below is over its budget. */
  lemma ZeroIsDue(levels: seq<seq<File>>, pointers: map<nat, Entry>, f: File)
    requires |levels| == NUM_LEVELS && |levels[0]| == 4 && StartsFrom(levels[0], PointerAt(pointers, 0), f) && f in levels[0]
    requires TotalFileSize(levels[1]) <= 10 * MB && TotalFileSize(levels[2]) <= 100 * MB
    requires forall l | 3 <= l < NUM_LEVELS :: levels[l] == []
    ensures Due(levels, pointers, BySize, 0, f)
  {
    Budgets();
    assert Score(levels, 0) == 1.0;
    LowScore(levels, 1, 10 * MB);
    LowScore(levels, 2, 100 * MB);
    forall l | 3 <= l < NUM_LEVELS - 1 ensures Score(levels, l) <= 1.0 { LowScore(levels, l, 0); }
  }

  lemma LowScore(levels: seq<seq<File>>, l: nat, bytes: nat)
    requires 0 < l < |levels| && TotalFileSize(levels[l]) <= bytes && bytes <= MaxBytes(l)
    ensures Score(levels, l) <= 1.0
  {
    Ratio(TotalFileSize(levels[l]) as real, MaxBytes(l) as real);
  }

  /** Level 1 is over its budget, and nothing else is. */
  lemma OneIsDue(levels: seq<seq<File>>, pointers: map<nat, Entry>, f: File)
    requires |levels| == NUM_LEVELS && levels[0] == [] && StartsFrom(levels[1], PointerAt(pointers, 1), f) && f in levels[1]
    requires TotalFileSize(levels[1]) >= 10 * MB && TotalFileSize(levels[2]) <= 100 * MB
    requires forall l | 3 <= l < NUM_LEVELS :: levels[l] == []
    ensures Due(levels, pointers, BySize, 1, f)
  {
    Budgets();
    assert Score(levels, 0) == 0.0;
    HighScore(levels, 1, 10 * MB);
    LowScore(levels, 2, 100 * MB);
    forall l | 3 <= l < NUM_LEVELS - 1 ensures Score(levels, l) <= 1.0 { LowScore(levels, l, 0); }
  }

  lemma HighScore(levels: seq<seq<File>>, l: nat, bytes: nat)
    requires 0 < l < |levels| && TotalFileSize(levels[l]) >= bytes && bytes >= MaxBytes(l)
    ensures Score(levels, l) >= 1.0
  {
    Ratio(TotalFileSize(levels[l]) as real, MaxBytes(l) as real);
  }

  lemma BeginStep(s: State, start: File, level: nat, in0: seq<File>, in1: seq<File>) returns (t: State)
    requires Quiet(s) && Due(s.levels, s.pointers, BySize, level, start) && PickedFrom(s.levels, level, start, in0, in1)
    requires !IsTrivialMove(s.levels, level, in0, in1)
    ensures in0 != [] && StepOk(s, Begin(BySize, start, level, in0, in1), t)
    ensures t == s.(job := Some(Job(level, in0, in1, s.levels, OldestReader(s), {})), pointers := s.pointers[level := LastKey(in0)])
  {
    hide Due, IsTrivialMove, LastKey, InputsFrom, StartSetOf, Spans, Touches, RangeLo, RangeHi;
    t := s.(job := Some(Job(level, in0, in1, s.levels, OldestReader(s), {})), pointers := s.pointers[level := LastKey(in0)]);
  }

  /** A compaction begins and opens its first output file. */
  lemma BeginOne(s: State, start: File, level: nat, in0: seq<File>, in1: seq<File>) returns (t: State)
    requires Reachable(s) && Quiet(s) && Due(s.levels, s.pointers, BySize, level, start) && PickedFrom(s.levels, level, start, in0, in1)
    requires !IsTrivialMove(s.levels, level, in0, in1)
    ensures Reachable(t)
    ensures in0 != [] && t == s.(job := Some(Job(level, in0, in1, s.levels, OldestReader(s), {s.nextFile})), nextFile := s.nextFile + 1,
                                 pointers := s.pointers[level := LastKey(in0)])
  {
    hide Reachable, Due, IsTrivialMove, LastKey, PickedFrom, StepOk;
    var s1 := BeginStep(s, start, level, in0, in1);
    ReachStep(s, Begin(BySize, start, level, in0, in1), s1);
    t := ReserveStep(s1);
    assert {} + {s.nextFile} == {s.nextFile};
  }

  lemma ReserveStep(s: State) returns (t: State)
    requires Reachable(s) && s.job.Some?
    ensures Reachable(t)
    ensures t == s.(job := Some(s.job.value.(reserved := s.job.value.reserved + {s.nextFile})), nextFile := s.nextFile + 1)
  {
    hide Reachable;
    t := s.(job := Some(s.job.value.(reserved := s.job.value.reserved + {s.nextFile})), nextFile := s.nextFile + 1);
    ReachStep(s, Reserve, t);
  }

  /** ... and its second. */
  lemma BeginTwo(s: State, start: File, level: nat, in0: seq<File>, in1: seq<File>) returns (t: State)
    requires Reachable(s) && Quiet(s) && Due(s.levels, s.pointers, BySize, level, start) && PickedFrom(s.levels, level, start, in0, in1)
    requires !IsTrivialMove(s.levels, level, in0, in1)
    ensures Reachable(t)
    ensures in0 != [] && t == s.(job := Some(Job(level, in0, in1, s.levels, OldestReader(s), {s.nextFile, s.nextFile + 1})),
                                 nextFile := s.nextFile + 2, pointers := s.pointers[level := LastKey(in0)])
  {
    hide Reachable, Due, IsTrivialMove, LastKey, PickedFrom;
    var s1 := BeginOne(s, start, level, in0, in1);
    t := ReserveStep(s1);
    assert {s.nextFile} + {s.nextFile + 1} == {s.nextFile, s.nextFile + 1};
  }

  /** The outputs take the place of the inputs. */
  lemma InstallFiles(s: State, input: seq<Entry>, outs: seq<File>, upper: seq<File>, lower: seq<File>) returns (t: State)
    requires Reachable(s) && s.job.Some? && Run(input) && AllSorted(s.levels)
    requires FilesOk(outs) && DistinctNumbers(outs) && forall o | o in outs :: o.number in s.job.value.reserved
    requires var j := s.job.value;
             && j.level + 1 < NUM_LEVELS == |j.base| && j.in0 != [] && Content(input) == Held(j.in0) + Held(j.in1)
             && OutputsWritten(s, j, input, outs)
             && SortedBySmallest(upper) && SortedBySmallest(lower)
             && (forall g :: g in upper <==> g in s.levels[j.level] && g !in j.in0)
             && (forall g :: g in lower <==> (g in s.levels[j.level + 1] && g !in j.in1) || g in outs)
    ensures StepOk(s, Install(input, outs), t) && Reachable(t) && AllSorted(t.levels)
    ensures t == s.(levels := s.levels[s.job.value.level := upper][s.job.value.level + 1 := lower], job := None,
                    floor := if s.job.value.smallest > s.floor then s.job.value.smallest else s.floor)
  {
    hide Reachable, StepOk, Swapped, OutputsWritten, FilesOk, Content, Held, Run, DistinctNumbers, SortedBySmallest;
    var j := s.job.value;
    ReplaceFiles(s.levels, j.level, j.in0, j.in1, outs, upper, lower);
    t := s.(levels := s.levels[j.level := upper][j.level + 1 := lower], job := None,
            floor := if j.smallest > s.floor then j.smallest else s.floor);
    InstallStep(s, input, outs, t);
    ReachStep(s, Install(input, outs), t);
  }

  lemma InstallStep(s: State, input: seq<Entry>, outs: seq<File>, t: State)
    requires s.job.Some? && Run(input) && FilesOk(outs) && DistinctNumbers(outs) && forall o | o in outs :: o.number in s.job.value.reserved
    requires var j := s.job.value;
             && |j.base| == NUM_LEVELS && j.in0 != [] && Content(input) == Held(j.in0) + Held(j.in1) && OutputsWritten(s, j, input, outs)
             && Swapped(s.levels, j.level, j.in0, j.in1, outs, t.levels)
             && t == s.(levels := t.levels, job := None, floor := if j.smallest > s.floor then j.smallest else s.floor)
    ensures StepOk(s, Install(input, outs), t)
  {
    hide Swapped, OutputsWritten, FilesOk, Content, Held, Run, DistinctNumbers;
  }

  // ------------------------------------------------------------- what is written

  ghost predicate NonePassed(gs: seq<File>, input: seq<Entry>) {
    forall g, e | g in gs && e in input :: !Before(g.largest, e)
  }

  ghost predicate AllSurvive(input: seq<Entry>, smallest: nat, base: seq<seq<File>>, level: nat) {
    forall i | 0 <= i < |input| :: Survives(input, i, smallest, base, level)
  }

  /** No grandparent is passed, so the grandparent rule never cuts. */
  lemma {:induction false} NoCuts(gs: seq<File>, input: seq<Entry>, n: nat)
    requires n <= |input| && NonePassed(gs, input)
    ensures PassedAfter(gs, input, n).index == 0 && PassedAfter(gs, input, n).bytes == 0
    ensures n < |input| ==> !RuleCuts(gs, input, n)
  {
    if n > 0 {
      NoCuts(gs, input, n - 1);
      assert input[n - 1] in input && (gs != [] ==> gs[0] in gs);
      assert PassUpTo(gs, 0, input[n - 1]) == 0;
    }
    if n < |input| {
      assert input[n] in input && (gs != [] ==> gs[0] in gs);
      assert PassUpTo(gs, 0, input[n]) == 0;
    }
  }

  /** While the first output is below the target size everything goes into it. */
  lemma {:induction false} WorkFirst(input: seq<Entry>, a: seq<Entry>, n: nat, smallest: nat, base: seq<seq<File>>, level: nat, gs: seq<File>,
                                     size: seq<Entry> -> nat)
    requires n < |a| && a <= input && AllSurvive(input, smallest, base, level) && NonePassed(gs, input)
    requires forall m | 0 < m < |a| :: size(a[..m]) < TARGET_FILE_SIZE
    ensures Work(input, n, smallest, base, level, gs, size) == Output([], a[..n])
  {
    hide Survives, RuleCuts, Kept, NonePassed, Compactions.Written;
    if n > 0 {
      WorkFirst(input, a, n - 1, smallest, base, level, gs, size);
      NoCuts(gs, input, n - 1);
      assert a[..n - 1] + [input[n - 1]] == a[..n];
    }
  }

  /** Once the first output has reached it, everything goes into the second. */
  lemma {:induction false} WorkSecond(input: seq<Entry>, a: seq<Entry>, b: seq<Entry>, n: nat, smallest: nat, base: seq<seq<File>>, level: nat,
                                      gs: seq<File>, size: seq<Entry> -> nat)
    requires n < |b| && a != [] && input == a + b && AllSurvive(input, smallest, base, level) && NonePassed(gs, input)
    requires (forall m | 0 < m < |a| :: size(a[..m]) < TARGET_FILE_SIZE) && size(a) >= TARGET_FILE_SIZE
    requires forall m | 0 < m < |b| :: size(b[..m]) < TARGET_FILE_SIZE
    ensures Work(input, |a| + n, smallest, base, level, gs, size) == Output([a], b[..n])
    decreases n
  {
    hide Survives, RuleCuts, Kept, NonePassed, Compactions.Written;
    NoCuts(gs, input, |a| + n - 1);
    if n == 0 {
      WorkFirst(input, a, |a| - 1, smallest, base, level, gs, size);
      assert a[..|a| - 1] + [input[|a| - 1]] == a;
    } else {
      WorkSecond(input, a, b, n - 1, smallest, base, level, gs, size);
      assert b[..n - 1] + [input[|a| + n - 1]] == b[..n];
    }
  }

  lemma OutputsTwo(a: seq<Entry>, b: seq<Entry>, smallest: nat, base: seq<seq<File>>, level: nat, gs: seq<File>, size: seq<Entry> -> nat)
    requires a != [] && b != [] && AllSurvive(a + b, smallest, base, level) && NonePassed(gs, a + b)
    requires (forall m | 0 < m < |a| :: size(a[..m]) < TARGET_FILE_SIZE) && size(a) >= TARGET_FILE_SIZE
    requires forall m | 0 < m < |b| :: size(b[..m]) < TARGET_FILE_SIZE
    ensures Outputs(a + b, smallest, base, level, gs, size) == [a, b]
  {
    hide Survives, RuleCuts, Kept, NonePassed, Survivors, Compactions.Written;
    var input := a + b;
    WorkSecond(input, a, b, |b| - 1, smallest, base, level, gs, size);
    NoCuts(gs, input, |input| - 1);
    assert b[..|b| - 1] + [input[|input| - 1]] == b;
    assert |a| + (|b| - 1) == |input| - 1;
  }

  /** Only the first entry survives, and it does not fill a file. */
  lemma {:induction false} WorkOne(input: seq<Entry>, n: nat, smallest: nat, base: seq<seq<File>>, level: nat, gs: seq<File>, size: seq<Entry> -> nat)
    requires 0 < n <= |input| && NonePassed(gs, input) && Survives(input, 0, smallest, base, level)
    requires forall i | 0 < i < |input| :: !Survives(input, i, smallest, base, level)
    requires size([input[0]]) < TARGET_FILE_SIZE
    ensures Work(input, n, smallest, base, level, gs, size) == Output([], [input[0]])
  {
    hide Survives, RuleCuts, Kept, NonePassed, Compactions.Written;
    NoCuts(gs, input, n - 1);
    if n > 1 {
      WorkOne(input, n - 1, smallest, base, level, gs, size);
    } else {
      assert Work(input, n - 1, smallest, base, level, gs, size) == Output([], []);
      assert [] + [input[0]] == [input[0]];
    }
  }

  lemma OutputsOne(input: seq<Entry>, smallest: nat, base: seq<seq<File>>, level: nat, gs: seq<File>, size: seq<Entry> -> nat)
    requires input != [] && NonePassed(gs, input) && Survives(input, 0, smallest, base, level)
    requires forall i | 0 < i < |input| :: !Survives(input, i, smallest, base, level)
    requires size([input[0]]) < TARGET_FILE_SIZE
    ensures Outputs(input, smallest, base, level, gs, size) == [[input[0]]]
  {
    hide Survives, Kept, NonePassed, Survivors, Compactions.Written, Work;
    WorkOne(input, |input|, smallest, base, level, gs, size);
  }

  lemma RunsTwo(x: File, y: File)
    ensures Runs([x, y]) == [x.entries, y.entries]
  {
    var outs := [x, y];
    assert outs[..1] == [x] && [x][..0] == [];
    assert Runs([x]) == [x.entries];
    assert Runs(outs) == Runs(outs[..1]) + [outs[1].entries];
  }

  lemma RunsOne(x: File)
    ensures Runs([x]) == [x.entries]
  {
    assert [x][..0] == [];
  }

  lemma RunParts(a: seq<Entry>, b: seq<Entry>)
    requires Run(a + b)
    ensures Run(a) && Run(b)
  {
    forall i, j | 0 <= i < j < |a| ensures Before(a[i], a[j]) { assert Before((a + b)[i], (a + b)[j]); }
    forall i, j | 0 <= i < j < |b| ensures Before(b[i], b[j]) { assert Before((a + b)[|a| + i], (a + b)[|a| + j]); }
  }
}
