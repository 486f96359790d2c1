/**
 Every step of the engine keeps its invariant.
 */
module EngineSafety {
  import opened Entries
  import opened Versions
  import opened Picking
  import opened VersionOrder
  import opened Swaps
  import opened Engine

  lemma HistoryUnambiguous(writes: seq<Entry>)
    requires HistoryOk(writes)
    ensures Unambiguous(Content(writes))
  {
  }

  // ------------------------------------------------------------ memory steps

  lemma AddToRunOk(es: seq<Entry>, e: Entry)
    requires Run(es) && forall x | x in es :: x.sn < e.sn
    ensures Run(AddToRun(es, e)) && Content(AddToRun(es, e)) == Content(es) + {e}
  {
    hide SeekRun;
    var i := SeekRun(es, e.key, e.sn);
    var r := AddToRun(es, e);
    forall j | i <= j < |es| ensures Before(e, es[j]) {
      assert es[i] in es;
      if i < j { assert Before(es[i], es[j]); }
    }
    forall a, b | 0 <= a < b < |r| ensures Before(r[a], r[b]) {
      if a != i && b != i {
        var a', b' := if a < i then a else a - 1, if b < i then b else b - 1;
        assert r[a] == es[a'] && r[b] == es[b'] && Before(es[a'], es[b']);
      }
    }
    forall x ensures x in r <==> x in Content(es) + {e} {
      if x in es {
        var j :| 0 <= j < |es| && es[j] == x;
        assert r[if j < i then j else j + 1] == x;
      }
      if x == e { assert r[i] == e; }
    }
  }

  lemma SameAfterWrite(A: set<Entry>, B: set<Entry>, e: Entry, k: Key, q: nat)
    requires A <= B && Unambiguous(B) && forall x | x in B :: x.sn < e.sn
    requires SameAnswer(A, B, k, q)
    ensures SameAnswer(A + {e}, B + {e}, k, q)
  {
    if e.key == k && e.sn <= q {
      NewestIs(A + {e}, k, q, e);
      NewestIs(B + {e}, k, q, e);
    } else {
      Invisible(A, e, k, q);
      Invisible(B, e, k, q);
    }
  }

  lemma Invisible(A: set<Entry>, e: Entry, k: Key, q: nat)
    requires Unambiguous(A) && !(e.key == k && e.sn <= q)
    ensures Newest(A + {e}, k, q) == Newest(A, k, q)
  {
    var r := Newest(A, k, q);
    if r.Some? {
      assert IsNewest(A + {e}, k, q, r.value);
      var r' := Newest(A + {e}, k, q);
      assert r'.Some? && r'.value in A;
    } else {
      assert NoneVisible(A + {e}, k, q);
    }
  }

  lemma InsertMemory(s: State, e: Entry, s': State)
    requires MemoryOk(s) && e.sn == |s.writes| + 1 < K_MAX_SEQUENCE
    requires s' == s.(mem := AddToRun(s.mem, e), writes := s.writes + [e], rest := s'.rest)
    ensures MemoryOk(s') && Stored(s') == Stored(s) + {e} && Content(s'.writes) == Content(s.writes) + {e}
    ensures forall x | x in Content(s.writes) :: x.sn < e.sn
  {
    hide Run, Disk, AddToRun;
    forall x | x in s.writes ensures x.sn < e.sn { var i :| 0 <= i < |s.writes| && s.writes[i] == x; }
    forall x | x in s.mem ensures x.sn < e.sn { assert x in Stored(s); }
    AddToRunOk(s.mem, e);
    forall b | b in Content(ImmEntries(s)) + Disk(s.levels) ensures e.sn > b.sn { assert b in Stored(s); }
  }

  lemma InsertSound(s: State, step: Step, s': State)
    requires Sound(s) && step.Insert? && StepOk(s, step, s')
    ensures Sound(s')
  {
    var e := NextEntry(s);
    InsertMemory(s, e, s');
    HistoryUnambiguous(s.writes);
    forall k, q: nat | q >= s'.floor ensures SameAnswer(Stored(s'), Content(s'.writes), k, q) {
      SameAfterWrite(Stored(s), Content(s.writes), e, k, q);
    }
  }

  lemma SwitchSound(s: State, step: Step, s': State)
    requires Sound(s) && step.Switch? && StepOk(s, step, s')
    ensures Sound(s')
  {
    assert Stored(s') == Stored(s);
    forall e | e in Content(s.mem) ensures e.sn <= s.lastSequence {
      assert e in Content(s.writes);
      var i :| 0 <= i < |s.writes| && s.writes[i] == e;
    }
  }

  lemma SameStore(s: State, s': State)
    requires Faithful(s) && Stored(s') == Stored(s) && s'.writes == s.writes && s'.floor >= s.floor
    ensures Faithful(s')
  {
  }

  lemma QuietSound(s: State, step: Step, s': State)
    requires Sound(s) && StepOk(s, step, s')
    requires step.Open? || step.Publish? || step.FlushEmpty? || step.Reserve?
    ensures Sound(s')
  {
    hide StepOk, VersionOk, Faithful, JobInv, NumbersOk, Run, AllAbove, HistoryOk, Disk;
    QuietIs(s, step, s');
    assert Stored(s') == Stored(s);
    SameStore(s, s');
    assert JobInv(s') by { QuietJob(s, step, s'); }
    assert NumbersOk(s') by { QuietNumbers(s, step, s'); }
  }

  lemma QuietIs(s: State, step: Step, s': State)
    requires s.lastSequence <= |s.writes| && StepOk(s, step, s')
    requires step.Open? || step.Publish? || step.FlushEmpty? || step.Reserve?
    ensures s'.mem == s.mem && ImmEntries(s') == ImmEntries(s) && s'.levels == s.levels && s'.writes == s.writes
    ensures s'.snapshots == s.snapshots && s'.floor == s.floor && s.lastSequence <= s'.lastSequence <= |s.writes|
  {
  }

  lemma QuietJob(s: State, step: Step, s': State)
    requires JobInv(s) && s.lastSequence <= |s.writes| && StepOk(s, step, s')
    requires step.Open? || step.Publish? || step.FlushEmpty? || step.Reserve?
    ensures JobInv(s')
  {
  }

  lemma QuietNumbers(s: State, step: Step, s': State)
    requires NumbersOk(s) && StepOk(s, step, s')
    requires step.Open? || step.Publish? || step.FlushEmpty? || step.Reserve?
    ensures NumbersOk(s')
  {
  }

  lemma SnapshotIs(s: State, step: Step, s': State)
    requires StepOk(s, step, s') && (step.TakeSnapshot? || step.ReleaseSnapshot?)
    ensures s' == s.(snapshots := s'.snapshots)
    ensures step.TakeSnapshot? ==> s'.snapshots == s.snapshots + [s.lastSequence]
    ensures step.ReleaseSnapshot? ==>
              step.index < |s.snapshots| && s'.snapshots == s.snapshots[..step.index] + s.snapshots[step.index + 1..]
  {
  }

  lemma SnapshotReaders(s: State, step: Step, s': State)
    requires ReadersOk(s) && StepOk(s, step, s')
    requires step.TakeSnapshot? || step.ReleaseSnapshot?
    ensures ReadersOk(s') && forall n | n in s'.snapshots :: n in s.snapshots || n == s.lastSequence
  {
    hide StepOk;
    SnapshotIs(s, step, s');
    if step.ReleaseSnapshot? {
      RemoveKeepsOrder(s.snapshots, step.index);
    } else {
      forall i | 0 <= i < |s.snapshots| ensures s.snapshots[i] <= s.lastSequence { assert s.snapshots[i] in s.snapshots; }
    }
  }

  lemma SnapshotSound(s: State, step: Step, s': State)
    requires Sound(s) && StepOk(s, step, s')
    requires step.TakeSnapshot? || step.ReleaseSnapshot?
    ensures Sound(s')
  {
    hide StepOk, VersionOk, Run, AllAbove, HistoryOk, JobOk, Faithful, Disk;
    SnapshotIs(s, step, s');
    SnapshotReaders(s, step, s');
    assert Stored(s') == Stored(s);
    SameStore(s, s');
  }

  lemma RemoveKeepsOrder(ns: seq<nat>, i: nat)
    requires i < |ns| && forall a, b | 0 <= a < b < |ns| :: ns[a] <= ns[b]
    ensures var r := ns[..i] + ns[i + 1..];
            && (forall n | n in r :: n in ns)
            && forall a, b | 0 <= a < b < |r| :: r[a] <= r[b]
  {
    var r := ns[..i] + ns[i + 1..];
    assert forall a | 0 <= a < |r| :: r[a] == ns[if a < i then a else a + 1];
  }

  // ------------------------------------------------------------------- flush

  /** A new file placed at `level` fits there by age and by range. */
  lemma FlushFits(levels: seq<seq<File>>, level: nat, f: File, levels': seq<seq<File>>)
    requires VersionOk(levels) && FileOk(f) && Swapped(levels, level - 1, [], [], [f], levels')
    requires forall l, g | Placed(levels, l, g) :: NewerFile(f, g) && g.number < f.number
    requires level > 0 ==> forall l, g | Placed(levels, l, g) && l <= level :: NewerFile(g, f) && Apart(f, g)
    ensures VersionOk(levels')
  {
    SwapOk(levels, level - 1, [], [], [f], levels');
  }

  lemma FlushIsNewest(s: State, f: File)
    requires MemoryOk(s) && Content(f.entries) == Content(ImmEntries(s))
    ensures forall l, g | Placed(s.levels, l, g) :: NewerFile(f, g)
  {
    forall l, g | Placed(s.levels, l, g) ensures NewerFile(f, g) {
      forall a, b | a in f.entries && b in g.entries ensures a.sn > b.sn {
        InDisk(s.levels, b);
        assert a in Content(ImmEntries(s));
      }
    }
  }

  /** A file pushed below level 0 shares no user key with any file down to its level. */
  lemma FlushMeetsNothing(levels: seq<seq<File>>, level: nat, f: File)
    requires Shaped(levels) && FileOk(f) && level < NUM_LEVELS
    requires forall l | 0 <= l <= level :: !OverlapInLevel(levels, l, f.smallest.key, f.largest.key)
    ensures forall l, g | Placed(levels, l, g) && l <= level :: NewerFile(g, f) && Apart(f, g) && !Touches(g, f.smallest.key, f.largest.key)
  {
    WithinRange(f, f.largest);
    forall l, g | Placed(levels, l, g) && l <= level
      ensures NewerFile(g, f) && Apart(f, g) && !Touches(g, f.smallest.key, f.largest.key)
    {
      assert !OverlapInLevel(levels, l, f.smallest.key, f.largest.key);
      assert !Overlaps(g, Some(f.smallest.key), Some(f.largest.key));
      WithinRange(g, g.largest);
      forall a, b | a in g.entries && b in f.entries ensures a.key != b.key {
        WithinRange(g, a);
        WithinRange(f, b);
      }
    }
  }

  /** A range that meets no input file lies entirely to one side of all of them: the inputs leave no gap. */
  lemma OutsideSpan(all: seq<File>, lo: Key, hi: Key, f: File)
    requires Spans(all, lo, hi) && f.smallest.key <= f.largest.key && lo <= hi
    ensures Outside(f, lo, hi) || exists g :: g in all && Touches(g, f.smallest.key, f.largest.key)
  {
    if !Outside(f, lo, hi) {
      var x := if f.smallest.key < lo then lo else f.smallest.key;
      assert InOne(all, x);
      var g :| g in all && Covers(g, x);
      assert Touches(g, f.smallest.key, f.largest.key);
    }
  }

  lemma RangeWithin(in0: seq<File>, in1: seq<File>)
    requires in0 != [] && FilesOk(in0)
    ensures RangeLo(in0 + in1) <= RangeLo(in0) <= RangeHi(in0) <= RangeHi(in0 + in1)
  {
    var lo, hi := RangeLo(in0), RangeHi(in0);
    var a :| a in in0 && a.smallest.key == lo;
    var b :| b in in0 && b.largest.key == hi;
    assert a in in0 + in1 && b in in0 + in1;
    WithinRange(a, a.largest);
  }

  /** Where the flushed file ends up relative to a running compaction. */
  lemma FlushOutside(levels: seq<seq<File>>, f: File, at: nat, level: nat, in0: seq<File>, in1: seq<File>)
    requires Shaped(levels) && FileOk(f) && level + 1 <= at
    requires forall l, g | Placed(levels, l, g) && l <= at :: !Touches(g, f.smallest.key, f.largest.key)
    requires InputsPlaced(levels, level, in0, in1) && NoGap(in0, in1)
    ensures Outside(f, RangeLo(in0 + in1), RangeHi(in0 + in1))
    ensures !Touches(f, RangeLo(in0), RangeHi(in0))
  {
    forall g | g in in0 + in1 ensures !Touches(g, f.smallest.key, f.largest.key) && FileOk(g) {
      var l := if g in in0 then level else level + 1;
      assert IsInput(level, in0, in1, l, g) && Placed(levels, l, g);
    }
    WithinRange(f, f.largest);
    RangeWithin(in0, in1) by { forall g | g in in0 ensures FileOk(g) { assert g in in0 + in1; } }
    OutsideSpan(in0 + in1, RangeLo(in0 + in1), RangeHi(in0 + in1), f);
  }

  lemma FlushNothingOlder(levels: seq<seq<File>>, f: File, at: nat, levels': seq<seq<File>>, level: nat, in0: seq<File>, in1: seq<File>)
    requires Swapped(levels, at - 1, [], [], [f], levels')
    requires forall l, g | Placed(levels, l, g) :: NewerFile(f, g)
    requires forall l, g | IsInput(level, in0, in1, l, g) :: Placed(levels, l, g)
    requires NothingOlderStays(levels, level, in0, in1)
    ensures NothingOlderStays(levels', level, in0, in1)
  {
    forall l, x, g | IsInput(level, in0, in1, l, x) && Stays(levels', level, in0, in1, l, g) ensures NewerFile(g, x) {
      assert Placed(levels, l, x);
      assert g == f || Stays(levels, level, in0, in1, l, g);
    }
  }

  lemma FlushedOnly(levels: seq<seq<File>>, f: File, at: nat, levels': seq<seq<File>>)
    requires Swapped(levels, at - 1, [], [], [f], levels')
    ensures forall l, g :: Placed(levels', l, g) <==> Placed(levels, l, g) || (g == f && l == at)
  {
    forall l, g ensures Placed(levels', l, g) <==> Placed(levels, l, g) || (g == f && l == at) {
      assert Placed(levels, l, g) <==> Stays(levels, at - 1, [], [], l, g);
    }
  }

  /** A memtable flushed in the middle of a compaction does not disturb it. */
  lemma FlushDuringJob(levels: seq<seq<File>>, f: File, at: nat, levels': seq<seq<File>>,
                       level: nat, in0: seq<File>, in1: seq<File>, base: seq<seq<File>>)
    requires Shaped(levels) && FileOk(f) && Swapped(levels, at - 1, [], [], [f], levels')
    requires forall l, g | Placed(levels, l, g) :: NewerFile(f, g)
    requires at > 0 ==> forall l, g | Placed(levels, l, g) && l <= at :: !Touches(g, f.smallest.key, f.largest.key)
    requires JobOk(levels, level, in0, in1, base)
    ensures JobOk(levels', level, in0, in1, base)
  {
    FlushedOnly(levels, f, at, levels');
    if at >= level + 1 { FlushOutside(levels, f, at, level, in0, in1); }
    FlushRanges(levels, f, at, levels', level, in0, in1, base);
  }

  lemma FlushRanges(levels: seq<seq<File>>, f: File, at: nat, levels': seq<seq<File>>,
                    level: nat, in0: seq<File>, in1: seq<File>, base: seq<seq<File>>)
    requires forall l, g :: Placed(levels', l, g) <==> Placed(levels, l, g) || (g == f && l == at)
    requires OutputLevelClear(levels, level, in0, in1) && DeeperKnown(levels, level, in0, in1, base)
    requires at >= level + 1 ==>
               Outside(f, RangeLo(in0 + in1), RangeHi(in0 + in1)) && !Touches(f, RangeLo(in0), RangeHi(in0))
    ensures OutputLevelClear(levels', level, in0, in1) && DeeperKnown(levels', level, in0, in1, base)
  {
    forall l, g | Stays(levels', level, in0, in1, l, g) && l == level + 1 ensures !Touches(g, RangeLo(in0), RangeHi(in0)) {
      if g != f || at != l { assert Stays(levels, level, in0, in1, l, g); }
    }
  }

  lemma FlushMemory(s: State, step: Step, s': State)
    requires MemoryOk(s) && step.Flush? && StepOk(s, step, s')
    ensures MemoryOk(s') && Stored(s') == Stored(s)
  {
    var f := FlushedFile(s, step.size);
    SwapDisk(s.levels, step.level - 1, [], [], [f], s'.levels);
    assert Held([f]) == Content(ImmEntries(s)) && Held([]) == {};
    assert Disk(s'.levels) == Disk(s.levels) + Content(ImmEntries(s));
  }

  lemma FlushNumbers(s: State, step: Step, s': State)
    requires NumbersOk(s) && step.Flush? && StepOk(s, step, s')
    ensures NumbersOk(s')
  {
    FlushedOnly(s.levels, FlushedFile(s, step.size), step.level, s'.levels);
  }

  lemma FlushLevels(s: State, step: Step, s': State)
    requires MemoryOk(s) && VersionOk(s.levels) && NumbersOk(s) && JobInv(s) && step.Flush? && StepOk(s, step, s')
    ensures VersionOk(s'.levels) && JobInv(s')
  {
    hide JobOk, AgeOrdered, LevelsApart, NewerFile, Apart, Touches, Swapped;
    var f := FlushedFile(s, step.size);
    assert FileOk(f) && forall l, g | Placed(s.levels, l, g) :: g.number < f.number;
    FlushIsNewest(s, f);
    if step.level > 0 { FlushMeetsNothing(s.levels, step.level, f); }
    assert VersionOk(s'.levels) by { FlushFits(s.levels, step.level, f, s'.levels); }
    if s.job.Some? {
      var j := s.job.value;
      FlushDuringJob(s.levels, f, step.level, s'.levels, j.level, j.in0, j.in1, j.base);
    }
  }

  lemma FlushSound(s: State, step: Step, s': State)
    requires Sound(s) && step.Flush? && StepOk(s, step, s')
    ensures Sound(s')
  {
    assert VersionOk(s'.levels) && JobInv(s') by { FlushLevels(s, step, s'); }
    assert MemoryOk(s') && Stored(s') == Stored(s) by { FlushMemory(s, step, s'); }
    assert NumbersOk(s') by { FlushNumbers(s, step, s'); }
    SameStore(s, s');
  }

  /** A flushed file is newer than the inputs of a running compaction. */
  lemma FlushClosed(s: State, step: Step, s': State)
    requires Inv(s) && step.Flush? && StepOk(s, step, s')
    ensures JobClosed(s')
  {
    hide MemoryOk, VersionOk, NumbersOk, ReadersOk, Faithful, Swapped, NothingOlderStays, FlushLevel, NewerFile, LevelsOk, OutputLevelClear,
         NoGap, DeeperKnown;
    var f := FlushedFile(s, step.size);
    FlushIsNewest(s, f);
    if s.job.Some? {
      var j := s.job.value;
      FlushNothingOlder(s.levels, f, step.level, s'.levels, j.level, j.in0, j.in1);
    }
  }

  /** Whatever inputs the running compaction has, every step that installs nothing keeps the rest of the invariant. */
  lemma WaitingSound(s: State, step: Step, s': State)
    requires Sound(s) && StepOk(s, step, s') && !step.Begin? && !step.Install? && !step.Move?
    ensures Sound(s')
  {
    hide Sound, Swapped, AddToRun;
    match step {
      case Open(_, _) => QuietSound(s, step, s');
      case Insert => InsertSound(s, step, s');
      case Switch => SwitchSound(s, step, s');
      case Publish => QuietSound(s, step, s');
      case FlushEmpty => QuietSound(s, step, s');
      case Reserve => QuietSound(s, step, s');
      case Flush(_, _) => FlushSound(s, step, s');
      case TakeSnapshot => SnapshotSound(s, step, s');
      case ReleaseSnapshot(_) => SnapshotSound(s, step, s');
    }
  }
}
