/**
 Compactions and trivial moves keep the engine's invariant.
 */
module EngineJobs {
  import opened Entries
  import opened Versions
  import opened Picking
  import opened VersionOrder
  import opened Swaps
  import opened Compactions
  import opened Engine
  import opened EngineSafety

  // ------------------------------------------------------------------- begin

  /** Somewhere between an input and a later non-input there is a step from one to the other. */
  lemma {:induction false} LastInput(fs: seq<File>, ins: seq<File>, i: nat, j: nat) returns (p: nat)
    requires i < j < |fs| && fs[i] in ins && fs[j] !in ins
    ensures i <= p < j && fs[p] in ins && fs[p + 1] !in ins
    decreases j - i
  {
    if fs[i + 1] !in ins { p := i; } else { p := LastInput(fs, ins, i + 1, j); }
  }

  lemma BoundariesSqueezed(fs: seq<File>, i: nat, p: nat, j: nat)
    requires FilesOk(fs) && SortedLevel(fs) && i <= p < j < |fs|
    ensures fs[i].largest.key <= fs[p].largest.key <= fs[p + 1].smallest.key <= fs[j].smallest.key
  {
    assert fs[p + 1] in fs && FileOk(fs[p + 1]);
    assert fs[p] in fs && FileOk(fs[p]);
    if i < p { LargestOrder(fs, i, p); }
    assert Before(fs[p].largest, fs[p + 1].smallest);
    if p + 1 < j {
      assert Before(fs[p + 1].largest, fs[j].smallest);
      WithinRange(fs[p + 1], fs[p + 1].largest);
    }
  }

  /** In a sorted level whose boundaries are closed, a file left behind is never older than an input. */
  lemma ClosedLevelNewer(fs: seq<File>, ins: seq<File>, f: File, g: File)
    requires FilesOk(fs) && SortedLevel(fs) && f in fs && g in fs && f in ins && g !in ins
    requires forall i | 0 <= i && i + 1 < |fs| && fs[i] in ins && fs[i + 1] !in ins ::
               fs[i].largest.key != fs[i + 1].smallest.key
    ensures NewerFile(g, f)
  {
    var i :| 0 <= i < |fs| && fs[i] == f;
    var j :| 0 <= j < |fs| && fs[j] == g;
    forall a, b | a in g.entries && b in f.entries && a.key == b.key ensures a.sn > b.sn {
      WithinRange(g, a);
      WithinRange(f, b);
      if j < i {
        assert Before(fs[j].largest, fs[i].smallest);
      } else {
        var p := LastInput(fs, ins, i, j);
        BoundariesSqueezed(fs, i, p, j);
      }
    }
  }

  lemma LevelZeroDisjoint(levels: seq<seq<File>>, in0: seq<File>, f: File, g: File)
    requires Shaped(levels) && in0 != [] && f in in0 && Placed(levels, 0, f) && Placed(levels, 0, g) && g !in in0
    requires forall h | h in levels[0] && Touches(h, RangeLo(in0), RangeHi(in0)) :: h in in0
    ensures NewerFile(g, f)
  {
    forall a, b | a in g.entries && b in f.entries ensures a.key != b.key {
      WithinRange(g, a);
      WithinRange(f, b);
    }
  }

  lemma ClosedAt(levels: seq<seq<File>>, level: nat, in0: seq<File>, in1: seq<File>, l: nat, ins: seq<File>)
    requires BoundaryClosed(levels, level, in0, in1) && 1 <= l < |levels|
    requires (l == level && ins == in0) || (l == level + 1 && ins == in1)
    ensures forall i | 0 <= i && i + 1 < |levels[l]| && levels[l][i] in ins && levels[l][i + 1] !in ins ::
              levels[l][i].largest.key != levels[l][i + 1].smallest.key
  {
    forall f ensures IsInput(level, in0, in1, l, f) <==> f in ins {}
  }

  lemma ClosedNothingOlder(levels: seq<seq<File>>, level: nat, in0: seq<File>, in1: seq<File>)
    requires VersionOk(levels) && Picked(levels, level, in0, in1) && BoundaryClosed(levels, level, in0, in1)
    ensures NothingOlderStays(levels, level, in0, in1)
  {
    VersionLevelsOk(levels);
    forall l, f, g | IsInput(level, in0, in1, l, f) && Stays(levels, level, in0, in1, l, g) ensures NewerFile(g, f) {
      OneNotOlder(levels, level, in0, in1, l, f, g);
    }
  }

  lemma OneNotOlder(levels: seq<seq<File>>, level: nat, in0: seq<File>, in1: seq<File>, l: nat, f: File, g: File)
    requires Shaped(levels) && LevelsOk(levels) && Picked(levels, level, in0, in1) && BoundaryClosed(levels, level, in0, in1)
    requires IsInput(level, in0, in1, l, f) && Stays(levels, level, in0, in1, l, g)
    ensures NewerFile(g, f)
  {
    var ins := if l == level then in0 else in1;
    assert f in levels[l] && g in levels[l] && f in ins && g !in ins;
    if l == 0 {
      assert Placed(levels, 0, f) && Placed(levels, 0, g);
      LevelZeroDisjoint(levels, in0, f, g);
    } else {
      ClosedAt(levels, level, in0, in1, l, ins);
      ClosedLevelNewer(levels[l], ins, f, g);
    }
  }

  lemma PickedPlaced(levels: seq<seq<File>>, level: nat, in0: seq<File>, in1: seq<File>)
    requires Picked(levels, level, in0, in1)
    ensures InputsPlaced(levels, level, in0, in1)
  {
  }

  lemma PickedClear(levels: seq<seq<File>>, level: nat, in0: seq<File>, in1: seq<File>)
    requires Picked(levels, level, in0, in1)
    ensures OutputLevelClear(levels, level, in0, in1)
  {
    forall l, g | Stays(levels, level, in0, in1, l, g) && l == level + 1 ensures !Touches(g, RangeLo(in0), RangeHi(in0)) {
      assert g in levels[level + 1] && g !in in1;
    }
  }

  lemma PickedJobOk(levels: seq<seq<File>>, level: nat, in0: seq<File>, in1: seq<File>)
    requires LevelsOk(levels) && Picked(levels, level, in0, in1)
    ensures JobOk(levels, level, in0, in1, levels)
  {
    PickedPlaced(levels, level, in0, in1);
    PickedClear(levels, level, in0, in1);
    assert DeeperKnown(levels, level, in0, in1, levels);
  }

  lemma OldestIsOldest(s: State)
    requires ReadersOk(s)
    ensures s.floor <= OldestReader(s) <= s.lastSequence && forall n | n in s.snapshots :: OldestReader(s) <= n
  {
    if s.snapshots != [] { assert s.snapshots[0] in s.snapshots; }
  }

  lemma BeginSound(s: State, step: Step, s': State)
    requires Sound(s) && step.Begin? && StepOk(s, step, s')
    ensures Sound(s')
  {
    hide StepOk, Run, AllAbove, HistoryOk, Faithful, Shaped, AgeOrdered, LevelsApart, Picked, JobOk;
    BeginIs(s, step, s');
    assert Stored(s') == Stored(s);
    assert JobInv(s') by {
      VersionLevelsOk(s.levels);
      PickedJobOk(s.levels, step.level, step.in0, step.in1);
      OldestIsOldest(s);
    }
    SameStore(s, s');
  }

  lemma BeginInv(s: State, step: Step, s': State)
    requires Inv(s) && step.Begin? && StepOk(s, step, s') && Guarded(s, step)
    ensures Inv(s')
  {
    BeginSound(s, step, s');
    ClosedNothingOlder(s.levels, step.level, step.in0, step.in1);
  }

  // ----------------------------------------------------------------- install

  /** A file at the output level that stays lies to one side of all the inputs. */
  lemma BesideInputs(levels: seq<seq<File>>, level: nat, in0: seq<File>, in1: seq<File>, g: File)
    requires Shaped(levels) && LevelsApart(levels) && FilesOk(in0) && FilesOk(in1)
    requires InputsPlaced(levels, level, in0, in1) && OutputLevelClear(levels, level, in0, in1)
    requires Stays(levels, level, in0, in1, level + 1, g)
    ensures (forall e | e in Held(in0) + Held(in1) :: Before(g.largest, e))
         || (forall e | e in Held(in0) + Held(in1) :: Before(e, g.smallest))
  {
    assert Placed(levels, level + 1, g) && FileOk(g);
    WithinRange(g, g.largest);
    var a :| a in in0 && a.smallest.key == RangeLo(in0);
    assert FileOk(a);
    WithinRange(a, a.largest);
    assert g.largest.key < RangeLo(in0) || RangeHi(in0) < g.smallest.key;
    if g.largest.key < RangeLo(in0) {
      forall e | e in Held(in0) + Held(in1) ensures Before(g.largest, e) {
        if e in Held(in0) { InRange(in0, e); } else { BesideLow(levels, level, in0, in1, g, e); }
      }
    } else {
      forall e | e in Held(in0) + Held(in1) ensures Before(e, g.smallest) {
        if e in Held(in0) { InRange(in0, e); } else { BesideHigh(levels, level, in0, in1, g, e); }
      }
    }
  }

  lemma InRange(fs: seq<File>, e: Entry)
    requires fs != [] && FilesOk(fs) && e in Held(fs)
    ensures RangeLo(fs) <= e.key <= RangeHi(fs)
  {
    var f :| f in fs && e in f.entries;
    WithinRange(f, e);
  }

  lemma BesideLow(levels: seq<seq<File>>, level: nat, in0: seq<File>, in1: seq<File>, g: File, e: Entry)
    requires LevelsApart(levels) && FilesOk(in1) && FileOk(g)
    requires InputsPlaced(levels, level, in0, in1) && OutputLevelClear(levels, level, in0, in1)
    requires Stays(levels, level, in0, in1, level + 1, g) && g.largest.key < RangeLo(in0) && e in Held(in1)
    ensures Before(g.largest, e)
  {
    var f :| f in in1 && e in f.entries;
    WithinRange(f, e);
    WithinRange(g, g.largest);
    assert IsInput(level, in0, in1, level + 1, f);
    assert Placed(levels, level + 1, f) && Apart(f, g);
  }

  lemma BesideHigh(levels: seq<seq<File>>, level: nat, in0: seq<File>, in1: seq<File>, g: File, e: Entry)
    requires LevelsApart(levels) && FilesOk(in1) && FileOk(g)
    requires InputsPlaced(levels, level, in0, in1) && OutputLevelClear(levels, level, in0, in1)
    requires Stays(levels, level, in0, in1, level + 1, g) && RangeHi(in0) < g.smallest.key && e in Held(in1)
    ensures Before(e, g.smallest)
  {
    var f :| f in in1 && e in f.entries;
    WithinRange(f, e);
    WithinRange(g, g.largest);
    assert IsInput(level, in0, in1, level + 1, f);
    assert Placed(levels, level + 1, f) && Apart(f, g);
  }

  /** Output files cut from one sorted run are pairwise apart and hold exactly that run. */
  lemma {:induction false} CutRun(outs: seq<File>)
    requires Run(Flatten(Runs(outs))) && FilesOk(outs)
    ensures Content(Flatten(Runs(outs))) == Held(outs)
    ensures forall i, j | 0 <= i < j < |outs| :: Before(outs[i].largest, outs[j].smallest)
  {
    if outs != [] {
      var init, last := outs[..|outs| - 1], outs[|outs| - 1];
      assert Runs(outs)[..|outs| - 1] == Runs(init) by { RunsLength(outs); RunsLength(init); }
      assert Runs(outs)[|Runs(outs)| - 1] == last.entries;
      var a := Flatten(Runs(init));
      assert Flatten(Runs(outs)) == a + last.entries by { RunsLength(outs); }
      RunPrefix(a, last.entries);
      CutRun(init);
      assert Held(outs) == Held(init) + Content(last.entries) by { HeldLast(outs); }
      assert last in outs && FileOk(last);
      forall i | 0 <= i < |init| ensures Before(outs[i].largest, last.smallest) {
        assert init[i] in init && FileOk(init[i]);
        assert init[i].largest in init[i].entries;
        assert init[i].largest in Held(init);
        assert init[i].largest in Content(a);
        assert last.smallest in last.entries;
      }
    }
  }

  lemma RunsLength(outs: seq<File>)
    ensures |Runs(outs)| == |outs|
  {
  }

  lemma HeldLast(fs: seq<File>)
    requires fs != []
    ensures Held(fs) == Held(fs[..|fs| - 1]) + Content(fs[|fs| - 1].entries)
  {
    assert fs == fs[..|fs| - 1] + [fs[|fs| - 1]];
  }

  lemma RunPrefix(a: seq<Entry>, b: seq<Entry>)
    requires Run(a + b)
    ensures Run(a) && forall x, y | x in a && y in b :: Before(x, y)
  {
    forall i, j | 0 <= i < j < |a| ensures Before(a[i], a[j]) {
      assert Before((a + b)[i], (a + b)[j]);
    }
    forall x, y | x in a && y in b ensures Before(x, y) {
      var i :| 0 <= i < |a| && a[i] == x;
      var j :| 0 <= j < |b| && b[j] == y;
      assert Before((a + b)[i], (a + b)[|a| + j]);
    }
  }

  /** The new files hold only what the inputs held. */
  lemma OutputsFromInputs(input: seq<Entry>, outs: seq<File>, j: Job)
    requires Run(input) && FilesOk(outs)
    requires Flatten(Runs(outs)) == Survivors(input, j.smallest, j.base, j.level)
    ensures Held(outs) == Content(Survivors(input, j.smallest, j.base, j.level))
    ensures Held(outs) <= Content(input)
    ensures forall i, k | 0 <= i < k < |outs| :: Before(outs[i].largest, outs[k].smallest)
  {
    KeptIsRun(input, |input|, j.smallest, j.base, j.level);
    KeptMembers(input, |input|, j.smallest, j.base, j.level);
    CutRun(outs);
  }

  /** What stays above the outputs is newer, what stays below is older. */
  lemma OutputsFitByAge(levels: seq<seq<File>>, level: nat, in0: seq<File>, in1: seq<File>, outs: seq<File>)
    requires AgeOrdered(levels) && NothingOlderStays(levels, level, in0, in1) && InputsPlaced(levels, level, in0, in1)
    requires Held(outs) <= Held(in0) + Held(in1)
    ensures FitsByAge(levels, level, in0, in1, outs)
  {
    forall l, f, o | Stays(levels, level, in0, in1, l, f) && o in outs && l < level + 1 ensures NewerFile(f, o) {
      forall a, b | a in f.entries && b in o.entries && a.key == b.key ensures a.sn > b.sn {
        var x, m := SourceOf(level, in0, in1, outs, o, b);
        assert Placed(levels, m, x) && IsInput(level, in0, in1, m, x);
        assert NewerFile(f, x);
      }
    }
    forall l, f, o | Stays(levels, level, in0, in1, l, f) && o in outs && l > level + 1 ensures NewerFile(o, f) {
      forall a, b | a in o.entries && b in f.entries && a.key == b.key ensures a.sn > b.sn {
        var x, m := SourceOf(level, in0, in1, outs, o, a);
        assert Placed(levels, m, x);
        assert NewerFile(x, f);
      }
    }
  }

  lemma SourceOf(level: nat, in0: seq<File>, in1: seq<File>, outs: seq<File>, o: File, e: Entry) returns (x: File, m: nat)
    requires Held(outs) <= Held(in0) + Held(in1) && o in outs && e in o.entries
    ensures e in x.entries && level <= m <= level + 1 && IsInput(level, in0, in1, m, x)
  {
    assert e in Held(outs);
    if e in Held(in0) {
      x :| x in in0 && e in x.entries;
      m := level;
    } else {
      x :| x in in1 && e in x.entries;
      m := level + 1;
    }
  }

  lemma OutputsApart(levels: seq<seq<File>>, level: nat, in0: seq<File>, in1: seq<File>, outs: seq<File>)
    requires Shaped(levels) && LevelsApart(levels) && FilesOk(in0) && FilesOk(in1) && FilesOk(outs)
    requires InputsPlaced(levels, level, in0, in1) && OutputLevelClear(levels, level, in0, in1)
    requires Held(outs) <= Held(in0) + Held(in1)
    requires forall i, j | 0 <= i < j < |outs| :: Before(outs[i].largest, outs[j].smallest)
    ensures FitsApart(levels, level, in0, in1, outs)
  {
    forall o, p | o in outs && p in outs && o != p ensures Apart(o, p) {
      var i :| 0 <= i < |outs| && outs[i] == o;
      var j :| 0 <= j < |outs| && outs[j] == p;
    }
    forall o, l, g | o in outs && Stays(levels, level, in0, in1, l, g) && l == level + 1 ensures Apart(o, g) {
      BesideInputs(levels, level, in0, in1, g);
      assert o.smallest in o.entries && o.largest in o.entries;
      assert o.smallest in Held(outs) && o.largest in Held(outs);
    }
  }

  lemma OutputsFresh(s: State, outs: seq<File>)
    requires NumbersOk(s) && s.job.Some? && FilesOk(outs) && DistinctNumbers(outs)
    requires forall o | o in outs :: o.number in s.job.value.reserved
    ensures var j := s.job.value; FreshFiles(s.levels, j.level, j.in0, j.in1, outs)
  {
    forall o, p | o in outs && p in outs && o.number == p.number ensures o == p {
      var i :| 0 <= i < |outs| && outs[i] == o;
      var k :| 0 <= k < |outs| && outs[k] == p;
    }
    var j := s.job.value;
    forall o, l, f | o in outs && Stays(s.levels, j.level, j.in0, j.in1, l, f) ensures f.number != o.number {
      assert Placed(s.levels, l, f);
    }
  }

  lemma JobFilesOk(levels: seq<seq<File>>, level: nat, in0: seq<File>, in1: seq<File>)
    requires Shaped(levels) && InputsPlaced(levels, level, in0, in1)
    ensures FilesOk(in0) && FilesOk(in1)
  {
    forall f | f in in0 ensures FileOk(f) { assert IsInput(level, in0, in1, level, f); }
    forall f | f in in1 ensures FileOk(f) { assert IsInput(level, in0, in1, level + 1, f); }
  }

  lemma InstallVersion(s: State, step: Step, s': State)
    requires VersionOk(s.levels) && NumbersOk(s) && JobInv(s) && JobClosed(s) && step.Install? && StepOk(s, step, s')
    ensures VersionOk(s'.levels)
    ensures Held(step.outs) <= Held(s.job.value.in0) + Held(s.job.value.in1)
  {
    var j := s.job.value;
    JobFilesOk(s.levels, j.level, j.in0, j.in1);
    assert Content(step.input) == Held(j.in0) + Held(j.in1);
    OutputsFromInputs(step.input, step.outs, j);
    assert FreshFiles(s.levels, j.level, j.in0, j.in1, step.outs) by { OutputsFresh(s, step.outs); }
    OutputsSwap(s.levels, j.level, j.in0, j.in1, j.base, step.outs, s'.levels);
  }

  lemma OutputsSwap(levels: seq<seq<File>>, level: nat, in0: seq<File>, in1: seq<File>, base: seq<seq<File>>,
                    outs: seq<File>, levels': seq<seq<File>>)
    requires VersionOk(levels) && JobOk(levels, level, in0, in1, base) && FilesOk(in0) && FilesOk(in1)
    requires NothingOlderStays(levels, level, in0, in1)
    requires FreshFiles(levels, level, in0, in1, outs) && Held(outs) <= Held(in0) + Held(in1)
    requires forall i, j | 0 <= i < j < |outs| :: Before(outs[i].largest, outs[j].smallest)
    requires Swapped(levels, level, in0, in1, outs, levels')
    ensures VersionOk(levels')
  {
    assert FitsByAge(levels, level, in0, in1, outs) by { OutputsFitByAge(levels, level, in0, in1, outs); }
    assert FitsApart(levels, level, in0, in1, outs) by { OutputsApart(levels, level, in0, in1, outs); }
    SwapOk(levels, level, in0, in1, outs, levels');
  }

  /** Replacing `In` by `Out` changes no answer, if a newest entry is only ever lost as a marker nothing hides behind. */
  lemma DropPreserves(up: set<Entry>, In: set<Entry>, Out: set<Entry>, k: Key, q: nat)
    requires Unambiguous(up + In) && Out <= In
    requires forall e | IsNewest(In, k, q, e) ::
               || IsNewest(Out, k, q, e)
               || (e.kind == Deletion && NoneVisible(Out, k, q) && forall x | x in up && x.key == k :: x.sn > e.sn)
    ensures SameAnswer(up + Out, up + In, k, q)
  {
    var r := Newest(up + In, k, q);
    if r.None? {
      NewestIsNone(up + Out, k, q);
    } else if r.value in up || IsNewest(Out, k, q, r.value) {
      NewestIs(up + Out, k, q, r.value);
    } else {
      assert IsNewest(In, k, q, r.value);
      NewestIsNone(up + Out, k, q);
    }
  }

  /** Behind an obsolete marker nothing of its user key stays on disk. */
  lemma NothingBehind(levels: seq<seq<File>>, level: nat, in0: seq<File>, in1: seq<File>, base: seq<seq<File>>, e: Entry, x: Entry)
    requires Shaped(levels) && AgeOrdered(levels) && JobOk(levels, level, in0, in1, base) && FilesOk(in0) && FilesOk(in1)
    requires NothingOlderStays(levels, level, in0, in1)
    requires e in Held(in0) + Held(in1) && !CoveredBelow(base, level, e.key)
    requires x in RestOf(levels, level, in0, in1) && x.key == e.key
    ensures x.sn > e.sn
  {
    var l, f :| 0 <= l < |levels| && f in levels[l] && !IsInput(level, in0, in1, l, f) && x in f.entries;
    assert Placed(levels, l, f) && FileOk(f);
    WithinRange(f, x);
    if l >= level + 2 {
      RestIsCovered(level, in0, in1, base, l, f, e);
    } else {
      StaysAbove(levels, level, in0, in1, l, f, e, x);
    }
  }

  lemma StaysAbove(levels: seq<seq<File>>, level: nat, in0: seq<File>, in1: seq<File>, l: nat, f: File, e: Entry, x: Entry)
    requires AgeOrdered(levels) && InputsPlaced(levels, level, in0, in1) && NothingOlderStays(levels, level, in0, in1)
    requires OutputLevelClear(levels, level, in0, in1) && FilesOk(in0)
    requires l <= level + 1 && Stays(levels, level, in0, in1, l, f) && x in f.entries && Covers(f, x.key)
    requires e in Held(in0) + Held(in1) && x.key == e.key
    ensures x.sn > e.sn
  {
    var m := if e in Held(in0) then level else level + 1;
    var y :| y in (if m == level then in0 else in1) && e in y.entries;
    assert l <= m by { if m == level && l == level + 1 { NotAtOutputLevel(levels, level, in0, in1, f, e); } }
    assert NewerFile(f, y) by { StaysNewer(levels, level, in0, in1, l, f, m, y); }
  }

  lemma NotAtOutputLevel(levels: seq<seq<File>>, level: nat, in0: seq<File>, in1: seq<File>, f: File, e: Entry)
    requires OutputLevelClear(levels, level, in0, in1) && FilesOk(in0)
    requires Stays(levels, level, in0, in1, level + 1, f) && e in Held(in0)
    ensures !Covers(f, e.key)
  {
    InRange(in0, e);
  }

  lemma StaysNewer(levels: seq<seq<File>>, level: nat, in0: seq<File>, in1: seq<File>, l: nat, f: File, m: nat, y: File)
    requires AgeOrdered(levels) && InputsPlaced(levels, level, in0, in1) && NothingOlderStays(levels, level, in0, in1)
    requires Stays(levels, level, in0, in1, l, f) && IsInput(level, in0, in1, m, y) && l <= m
    ensures NewerFile(f, y)
  {
    assert Placed(levels, m, y);
  }

  lemma RestIsCovered(level: nat, in0: seq<File>, in1: seq<File>, base: seq<seq<File>>, l: nat, f: File, e: Entry)
    requires level + 2 <= l && in0 != [] && FilesOk(in0) && FilesOk(in1) && Covers(f, e.key)
    requires Placed(base, l, f) || Outside(f, RangeLo(in0 + in1), RangeHi(in0 + in1))
    requires e in Held(in0) + Held(in1)
    ensures CoveredBelow(base, level, e.key)
  {
    assert e in Held(in0 + in1);
    InRange(in0 + in1, e);
    assert f in base[l] && Covers(f, e.key);
  }

  /** Dropping from the inputs is harmless wherever what stays of a key is newer than its markers. */
  lemma CompactionAnswers(up: set<Entry>, input: seq<Entry>, out: set<Entry>, smallest: nat, base: seq<seq<File>>, level: nat,
                          k: Key, q: nat)
    requires Run(input) && Unambiguous(up + Content(input)) && q >= smallest
    requires out == Content(Survivors(input, smallest, base, level)) && out <= Content(input)
    requires forall e, x | e in input && !CoveredBelow(base, level, e.key) && x in up && x.key == e.key :: x.sn > e.sn
    ensures SameAnswer(up + out, up + Content(input), k, q)
  {
    forall e | IsNewest(Content(input), k, q, e)
      ensures || IsNewest(out, k, q, e)
              || (e.kind == Deletion && NoneVisible(out, k, q) && forall x | x in up && x.key == k :: x.sn > e.sn)
    {
      SurvivorsMeaning(input, smallest, base, level, k, q, e);
    }
    DropPreserves(up, Content(input), out, k, q);
  }

  lemma InstallStored(s: State, step: Step, s': State)
    requires JobInv(s) && step.Install? && StepOk(s, step, s')
    ensures var j := s.job.value;
            var up := Content(s.mem) + Content(ImmEntries(s)) + RestOf(s.levels, j.level, j.in0, j.in1);
            Stored(s) == up + Content(step.input) && Stored(s') == up + Held(step.outs)
  {
    hide Swapped, Run, FilesOk, Flatten, Survivors, DistinctNumbers, OutputLevelClear, NoGap, DeeperKnown, LevelsOk, RestOf, Disk, Held;
    var j := s.job.value;
    SwapDisk(s.levels, j.level, j.in0, j.in1, step.outs, s'.levels);
  }

  lemma InstallAnswers(s: State, step: Step, s': State, k: Key, q: nat)
    requires MemoryOk(s) && VersionOk(s.levels) && JobInv(s) && JobClosed(s) && step.Install? && StepOk(s, step, s')
    requires q >= s.job.value.smallest
    ensures SameAnswer(Stored(s'), Stored(s), k, q)
  {
    var j := s.job.value;
    assert FilesOk(j.in0) && FilesOk(j.in1) by { JobFilesOk(s.levels, j.level, j.in0, j.in1); }
    OutputsFromInputs(step.input, step.outs, j);
    InstallStored(s, step, s');
    var up := Content(s.mem) + Content(ImmEntries(s)) + RestOf(s.levels, j.level, j.in0, j.in1);
    assert Unambiguous(up + Content(step.input)) by { HistoryUnambiguous(s.writes); }
    MarkersAreOldest(s, step.input, up);
    CompactionAnswers(up, step.input, Held(step.outs), j.smallest, j.base, j.level, k, q);
  }

  lemma MarkersAreOldest(s: State, input: seq<Entry>, up: set<Entry>)
    requires MemoryOk(s) && VersionOk(s.levels) && JobInv(s) && JobClosed(s) && s.job.Some?
    requires var j := s.job.value;
             && FilesOk(j.in0) && FilesOk(j.in1) && Content(input) == Held(j.in0) + Held(j.in1)
             && up == Content(s.mem) + Content(ImmEntries(s)) + RestOf(s.levels, j.level, j.in0, j.in1)
    ensures var j := s.job.value;
            forall e, x | e in input && !CoveredBelow(j.base, j.level, e.key) && x in up && x.key == e.key :: x.sn > e.sn
  {
    var j := s.job.value;
    forall e, x | e in input && !CoveredBelow(j.base, j.level, e.key) && x in up && x.key == e.key ensures x.sn > e.sn {
      assert e in Content(input);
      MarkerIsOldest(s, e, x);
    }
  }

  lemma MarkerIsOldest(s: State, e: Entry, x: Entry)
    requires MemoryOk(s) && VersionOk(s.levels) && JobInv(s) && JobClosed(s) && s.job.Some?
    requires var j := s.job.value;
             && FilesOk(j.in0) && FilesOk(j.in1)
             && e in Held(j.in0) + Held(j.in1) && !CoveredBelow(j.base, j.level, e.key)
             && x in Content(s.mem) + Content(ImmEntries(s)) + RestOf(s.levels, j.level, j.in0, j.in1) && x.key == e.key
    ensures x.sn > e.sn
  {
    var j := s.job.value;
    if x in RestOf(s.levels, j.level, j.in0, j.in1) {
      NothingBehind(s.levels, j.level, j.in0, j.in1, j.base, e, x);
    } else {
      InputOnDisk(s.levels, j.level, j.in0, j.in1, e);
    }
  }

  lemma InputOnDisk(levels: seq<seq<File>>, level: nat, in0: seq<File>, in1: seq<File>, e: Entry)
    requires InputsPlaced(levels, level, in0, in1) && e in Held(in0) + Held(in1)
    ensures e in Disk(levels)
  {
    InDisk(levels, e);
    if e in Held(in0) {
      var f :| f in in0 && e in f.entries;
      assert IsInput(level, in0, in1, level, f);
    } else {
      var f :| f in in1 && e in f.entries;
      assert IsInput(level, in0, in1, level + 1, f);
    }
  }

  lemma InstallDisk(levels: seq<seq<File>>, level: nat, in0: seq<File>, in1: seq<File>, outs: seq<File>, levels': seq<seq<File>>)
    requires InputsPlaced(levels, level, in0, in1) && Swapped(levels, level, in0, in1, outs, levels')
    requires Held(outs) <= Held(in0) + Held(in1)
    ensures Disk(levels') <= Disk(levels)
  {
    SwapDisk(levels, level, in0, in1, outs, levels');
  }

  lemma InstallMemory(s: State, step: Step, s': State)
    requires MemoryOk(s) && JobInv(s) && step.Install? && StepOk(s, step, s')
    requires Held(step.outs) <= Held(s.job.value.in0) + Held(s.job.value.in1)
    ensures MemoryOk(s')
  {
    var j := s.job.value;
    assert Disk(s'.levels) <= Disk(s.levels) by {
      InstallDisk(s.levels, j.level, j.in0, j.in1, step.outs, s'.levels);
    }
    ShrunkMemory(s, s');
  }

  lemma ShrunkMemory(s: State, s': State)
    requires MemoryOk(s) && Disk(s'.levels) <= Disk(s.levels)
    requires s'.mem == s.mem && s'.imm == s.imm && s'.writes == s.writes && s'.lastSequence == s.lastSequence
    ensures MemoryOk(s')
  {
  }

  lemma InstallNumbers(s: State, step: Step, s': State)
    requires NumbersOk(s) && step.Install? && StepOk(s, step, s')
    ensures NumbersOk(s')
  {
    var j := s.job.value;
    forall l, f | Placed(s'.levels, l, f) ensures f.number < s'.nextFile {
      assert Stays(s.levels, j.level, j.in0, j.in1, l, f) ==> Placed(s.levels, l, f);
    }
  }

  lemma InstallReaders(s: State, step: Step, s': State)
    requires ReadersOk(s) && JobInv(s) && step.Install? && StepOk(s, step, s')
    ensures ReadersOk(s')
  {
  }

  lemma InstallInv(s: State, step: Step, s': State)
    requires Inv(s) && step.Install? && StepOk(s, step, s')
    ensures Inv(s')
  {
    InstallVersion(s, step, s');
    InstallMemory(s, step, s');
    InstallNumbers(s, step, s');
    InstallReaders(s, step, s');
    forall k, q: nat | q >= s'.floor ensures SameAnswer(Stored(s'), Content(s'.writes), k, q) {
      InstallAnswers(s, step, s', k, q);
      assert SameAnswer(Stored(s), Content(s.writes), k, q);
    }
  }

  // -------------------------------------------------------------------- move

  lemma MoveFresh(levels: seq<seq<File>>, level: nat, f: File)
    requires Shaped(levels) && Placed(levels, level, f)
    ensures FreshFiles(levels, level, [f], [], [f])
  {
    forall l, g | Stays(levels, level, [f], [], l, g) ensures g.number != f.number {
      assert Placed(levels, l, g);
    }
  }

  lemma MoveVersion(levels: seq<seq<File>>, level: nat, f: File, levels': seq<seq<File>>)
    requires VersionOk(levels) && JobOk(levels, level, [f], [], levels) && NothingOlderStays(levels, level, [f], [])
    requires Swapped(levels, level, [f], [], [f], levels')
    ensures VersionOk(levels') && Disk(levels') == Disk(levels)
  {
    assert IsInput(level, [f], [], level, f);
    MoveFresh(levels, level, f);
    assert Held([]) == {};
    OutputsSwap(levels, level, [f], [], levels, [f], levels');
    SwapDisk(levels, level, [f], [], [f], levels');
  }

  lemma MoveNumbers(s: State, step: Step, s': State)
    requires NumbersOk(s) && step.Move? && StepOk(s, step, s')
    ensures NumbersOk(s')
  {
    forall l, g | Placed(s'.levels, l, g) ensures exists m :: Placed(s.levels, m, g) {
      if Stays(s.levels, step.level, [step.file], [], l, g) {
        assert Placed(s.levels, l, g);
      } else {
        assert step.file in [step.file];
        assert Placed(s.levels, step.level, g);
      }
    }
  }

  lemma MoveInv(s: State, step: Step, s': State)
    requires Inv(s) && step.Move? && StepOk(s, step, s') && Guarded(s, step)
    ensures Inv(s')
  {
    assert VersionOk(s'.levels) && Disk(s'.levels) == Disk(s.levels) by {
      ClosedNothingOlder(s.levels, step.level, [step.file], []);
      VersionLevelsOk(s.levels);
      PickedJobOk(s.levels, step.level, [step.file], []);
      MoveVersion(s.levels, step.level, step.file, s'.levels);
    }
    MoveNumbers(s, step, s');
    ShrunkMemory(s, s');
    assert Stored(s') == Stored(s);
    SameStore(s, s');
  }

  // ---------------------------------------------------------------- any step

  lemma StepInv(s: State, step: Step, s': State)
    requires Inv(s) && StepOk(s, step, s') && Guarded(s, step)
    ensures Inv(s')
  {
    hide MemoryOk, VersionOk, NumbersOk, ReadersOk, Faithful, JobInv, NothingOlderStays, Swapped, Picked;
    match step {
      case Begin(_, _, _, _, _) => BeginInv(s, step, s');
      case Install(_, _) => InstallInv(s, step, s');
      case Move(_, _, _) => MoveInv(s, step, s');
      case Flush(_, _) =>
        FlushSound(s, step, s');
        FlushClosed(s, step, s');
      case _ => WaitingSound(s, step, s');
    }
  }

  lemma InitInv(s: State)
    requires Init(s)
    ensures Inv(s)
  {
    forall e ensures e !in Disk(s.levels) { InDisk(s.levels, e); }
    assert Stored(s) == {} == Content(s.writes);
  }
}
