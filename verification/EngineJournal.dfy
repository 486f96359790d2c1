/**
 Every run of the engine writes a manifest recovery can follow: a flush, a move and a
 compaction are each one edit, with the log number and the compaction pointer they bring,
 and no edit adds to a level a number the level ever held.
 */
module EngineJournal {
  import opened Entries
  import opened Versions
  import opened VersionOrder
  import opened Swaps
  import opened Picking
  import opened Coding
  import opened Engine
  import opened EngineSafety
  import opened EngineJobs
  import opened EngineRuns
  import B = Builders
  import E = VersionEdits
  import R = Recovery
  import S = VersionSets
  import Logs

  // ------------------------------------------------------------------- the edit of a step

  function Pairs(s: seq<(nat, nat)>, l: nat, fs: seq<File>): seq<(nat, nat)>
    decreases |fs|
  {
    if fs == [] then s else Pairs(E.Insert((l, fs[0].number), s), l, fs[1..])
  }

  lemma {:induction false} InsertAscending(p: (nat, nat), s: seq<(nat, nat)>)
    requires E.Ascending(s)
    ensures E.Ascending(E.Insert(p, s))
  {
    if s != [] && !E.PairLess(p, s[0]) && p != s[0] {
      assert E.Ascending(s[1..]) by {
        forall i, j | 0 <= i < j < |s[1..]| ensures E.PairLess(s[1..][i], s[1..][j]) { assert E.PairLess(s[i + 1], s[j + 1]); }
      }
      InsertAscending(p, s[1..]);
      R.InsertMembers(p, s[1..]);
      var r := E.Insert(p, s[1..]);
      forall j | 0 <= j < |r| ensures E.PairLess(s[0], r[j]) {
        assert r[j] in r;
        if r[j] in s[1..] {
          var m :| 0 <= m < |s[1..]| && s[1..][m] == r[j];
          assert E.PairLess(s[0], s[m + 1]);
        }
      }
    } else if s != [] && E.PairLess(p, s[0]) {
      forall j | 0 <= j < |s| ensures E.PairLess(p, s[j]) {
        if j > 0 { assert E.PairLess(s[0], s[j]); }
      }
    }
  }

  lemma {:induction false} PairsMean(s: seq<(nat, nat)>, l: nat, fs: seq<File>)
    requires E.Ascending(s)
    ensures E.Ascending(Pairs(s, l, fs))
    ensures forall q :: q in Pairs(s, l, fs) <==> q in s || (q.0 == l && q.1 in B.Numbers(fs))
    decreases |fs|
  {
    if fs != [] {
      InsertAscending((l, fs[0].number), s);
      R.InsertMembers((l, fs[0].number), s);
      PairsMean(E.Insert((l, fs[0].number), s), l, fs[1..]);
      assert forall f :: f in fs <==> f == fs[0] || f in fs[1..];
    }
  }

  /** The edit of a swap of files, with the pointers it sets and its counters. */
  function EditOf(level: int, in0: seq<File>, in1: seq<File>, outs: seq<File>, ps: seq<(nat, Bytes)>, log: nat, next: nat, last: nat): E.Edit<File>
    requires level + 1 >= 0 && (level < 0 ==> in0 == [])
  {
    var first := if level < 0 then [] else Pairs([], level, in0);
    E.Edit(None, Some(log), Some(0), Some(next), Some(last), ps, Pairs(first, level + 1, in1), S.Tagged(level + 1, outs))
  }

  lemma EditDeletes(level: int, in0: seq<File>, in1: seq<File>, e: E.Edit<File>)
    requires level + 1 >= 0 && (level < 0 ==> in0 == [])
    requires e.deleted == Pairs(if level < 0 then [] else Pairs([], level, in0), level + 1, in1)
    ensures E.Ascending(e.deleted)
    ensures forall q :: q in e.deleted <==> (q.0 == level && q.1 in B.Numbers(in0)) || (q.0 == level + 1 && q.1 in B.Numbers(in1))
  {
    hide Pairs;
    if level >= 0 {
      PairsMean([], level, in0);
      PairsMean(Pairs([], level, in0), level + 1, in1);
    } else {
      PairsMean([], level + 1, in1);
      assert B.Numbers(in0) == {};
    }
  }

  lemma DeletedNumbers(e: E.Edit<File>, level: int, in0: seq<File>, in1: seq<File>, l: nat)
    requires forall q :: q in e.deleted <==> (q.0 == level && q.1 in B.Numbers(in0)) || (q.0 == level + 1 && q.1 in B.Numbers(in1))
    ensures B.DeletedAt(e.deleted, l) == if l == level then B.Numbers(in0) else if l == level + 1 then B.Numbers(in1) else {}
  {
    var want := if l == level then B.Numbers(in0) else if l == level + 1 then B.Numbers(in1) else {};
    forall n: nat ensures n in B.DeletedAt(e.deleted, l) <==> n in want {
      assert (l, n) in e.deleted <==> n in want;
    }
  }

  lemma EditOfMeans(level: int, in0: seq<File>, in1: seq<File>, outs: seq<File>, e: E.Edit<File>)
    requires level + 1 >= 0 && (level < 0 ==> in0 == [])
    requires e.logNumber.Some? && e.nextFileNumber.Some? && e.lastSequence.Some?
    requires e == EditOf(level, in0, in1, outs, e.compactPointers, e.logNumber.value, e.nextFileNumber.value, e.lastSequence.value)
    ensures B.JobEdit(e, level, in0, in1, outs) && E.Ascending(e.deleted)
    ensures forall q | q in e.deleted :: (q.0 == level && q.1 in B.Numbers(in0)) || (q.0 == level + 1 && q.1 in B.Numbers(in1))
    ensures forall q | q in e.added :: q.0 == level + 1 && q.1 in outs
  {
    hide Pairs, B.Numbers, B.DeletedAt, B.AddedAt;
    EditDeletes(level, in0, in1, e);
    forall l: nat
      ensures B.DeletedAt(e.deleted, l) == if l == level then B.Numbers(in0) else if l == level + 1 then B.Numbers(in1) else {}
      ensures B.AddedAt(e.added, l) == if l == level + 1 then outs else []
    {
      DeletedNumbers(e, level, in0, in1, l);
      S.AddedAtTagged(level + 1, outs, l);
    }
    forall q | q in e.added ensures q.0 == level + 1 && q.1 in outs {
      var i :| 0 <= i < |outs| && e.added[i] == q;
    }
  }

  // ------------------------------------------------------------------------- numbers

  /** What every run keeps about file numbers, known[l] being the numbers level l ever held. */
  ghost predicate Numbered(s: State, known: seq<set<nat>>) {
    && |known| == NUM_LEVELS && Shaped(s.levels) && NumbersOk(s) && JobPlaced(s)
    && (forall l, n | 0 <= l < NUM_LEVELS && n in known[l] :: n < s.nextFile)
    && (forall l, f | Placed(s.levels, l, f) :: f.number in known[l])
    && (forall l, m, f | Placed(s.levels, l, f) && l < m < NUM_LEVELS :: f.number !in known[m])
    && (s.job.Some? ==> forall l, n | 0 <= l < NUM_LEVELS && n in known[l] :: n !in s.job.value.reserved)
  }

  ghost predicate JobPlaced(s: State) {
    s.job.Some? ==> s.job.value.level + 1 < NUM_LEVELS && InputsPlaced(s.levels, s.job.value.level, s.job.value.in0, s.job.value.in1)
  }

  /** A swap of files as one of the steps makes it: new numbers at the output level, or a file that moves down. */
  ghost predicate SwapNumbers(s: State, known: seq<set<nat>>, level: int, in0: seq<File>, in1: seq<File>, outs: seq<File>, s': State) {
    && Swapped(s.levels, level, in0, in1, outs, s'.levels) && FreshFiles(s.levels, level, in0, in1, outs)
    && 0 <= level + 1 < NUM_LEVELS == |known| && DistinctNumbers(outs)
    && (forall o | o in outs :: o.number < s'.nextFile)
    && (forall o, m | o in outs && level + 1 <= m < NUM_LEVELS :: o.number !in known[m])
    && s.nextFile <= s'.nextFile
  }

  lemma SwapKeepsNumbers(s: State, known: seq<set<nat>>, level: int, in0: seq<File>, in1: seq<File>, outs: seq<File>, s': State, known': seq<set<nat>>)
    requires Numbered(s, known) && SwapNumbers(s, known, level, in0, in1, outs, s')
    requires known' == known[level + 1 := known[level + 1] + B.Numbers(outs)]
    ensures Shaped(s'.levels)
    ensures forall l, n | 0 <= l < NUM_LEVELS && n in known'[l] :: n < s'.nextFile
    ensures forall l, f | Placed(s'.levels, l, f) :: f.number in known'[l]
    ensures forall l, m, f | Placed(s'.levels, l, f) && l < m < NUM_LEVELS :: f.number !in known'[m]
  {
    SwapShaped(s.levels, level, in0, in1, outs, s'.levels);
    forall l, f | Placed(s'.levels, l, f) ensures f.number in known'[l] {
      if Stays(s.levels, level, in0, in1, l, f) { assert Placed(s.levels, l, f); } else { B.NumbersOf(outs, f); }
    }
    forall l, m, f | Placed(s'.levels, l, f) && l < m < NUM_LEVELS ensures f.number !in known'[m] {
      if Stays(s.levels, level, in0, in1, l, f) {
        assert Placed(s.levels, l, f) && f.number !in known[m];
        assert m == level + 1 ==> f.number !in B.Numbers(outs);
      }
    }
  }

  // ---------------------------------------------------------------------------- steps

  lemma FlushNumbered(s: State, step: Step, s': State, known: seq<set<nat>>)
    requires Numbered(s, known) && Run(ImmEntries(s)) && step.Flush? && StepOk(s, step, s')
    ensures var f := FlushedFile(s, step.size);
            && SwapNumbers(s, known, step.level - 1, [], [], [f], s')
            && Numbered(s', known[step.level := known[step.level] + B.Numbers([f])])
  {
    hide NumbersUnique;
    var f := FlushedFile(s, step.size);
    var known' := known[step.level := known[step.level] + B.Numbers([f])];
    var at := step.level - 1;
    assert FileOk(f) && FreshFiles(s.levels, at, [], [], [f]) by {
      forall l, g | Stays(s.levels, at, [], [], l, g) ensures g.number != f.number { assert Placed(s.levels, l, g); }
    }
    SwapKeepsNumbers(s, known, at, [], [], [f], s', known');
    assert NumbersOk(s') by { FlushNumbers(s, step, s'); }
    FlushedOnly(s.levels, f, step.level, s'.levels);
  }

  lemma InstallNumbered(s: State, step: Step, s': State, known: seq<set<nat>>)
    requires Numbered(s, known) && step.Install? && StepOk(s, step, s')
    ensures var j := s.job.value;
            && SwapNumbers(s, known, j.level, j.in0, j.in1, step.outs, s')
            && Numbered(s', known[j.level + 1 := known[j.level + 1] + B.Numbers(step.outs)])
  {
    hide NumbersUnique, Run, Content, Held, StepOk;
    InstallIs(s, step, s');
    var j := s.job.value;
    OutputsFresh(s, step.outs);
    SwapKeepsNumbers(s, known, j.level, j.in0, j.in1, step.outs, s', known[j.level + 1 := known[j.level + 1] + B.Numbers(step.outs)]);
    InstallNumbers(s, step, s');
  }

  lemma MoveNumbered(s: State, step: Step, s': State, known: seq<set<nat>>)
    requires Numbered(s, known) && step.Move? && StepOk(s, step, s')
    ensures SwapNumbers(s, known, step.level, [step.file], [], [step.file], s')
    ensures Numbered(s', known[step.level + 1 := known[step.level + 1] + B.Numbers([step.file])])
  {
    hide Shaped, Picked, StepOk;
    MoveIs(s, step, s');
    var level, f := step.level, step.file;
    PickedPlaced(s.levels, level, [f], []);
    PickedLevel(s.levels, level, [f], []);
    assert f in [f] && Placed(s.levels, level, f);
    MoveFresh(s.levels, level, f);
    SwapKeepsNumbers(s, known, level, [f], [], [f], s', known[level + 1 := known[level + 1] + B.Numbers([f])]);
    MoveNumbers(s, step, s');
  }

  lemma SameNumbered(s: State, s': State, known: seq<set<nat>>)
    requires Numbered(s, known) && s'.levels == s.levels && s.nextFile <= s'.nextFile && s'.job == s.job
    ensures Numbered(s', known)
  {
    hide Shaped;
  }

  lemma JobNumbered(s: State, step: Step, s': State, known: seq<set<nat>>)
    requires Numbered(s, known) && StepOk(s, step, s') && (step.Begin? || step.Reserve?)
    ensures Numbered(s', known)
  {
    hide Shaped, Picked, StepOk;
    if step.Begin? {
      BeginIs(s, step, s');
      PickedPlaced(s.levels, step.level, step.in0, step.in1);
      PickedLevel(s.levels, step.level, step.in0, step.in1);
    } else {
      ReserveIs(s, step, s');
    }
  }

  lemma ReserveIs(s: State, step: Step, s': State)
    requires step.Reserve? && StepOk(s, step, s')
    ensures s.job.Some?
    ensures s' == s.(job := Some(s.job.value.(reserved := s.job.value.reserved + {s.nextFile})), nextFile := s.nextFile + 1)
  {
  }

  lemma PickedLevel(levels: seq<seq<File>>, level: nat, in0: seq<File>, in1: seq<File>)
    requires Picked(levels, level, in0, in1)
    ensures level + 1 < NUM_LEVELS && in0 != []
  {
  }

  lemma OtherNumbered(s: State, step: Step, s': State, known: seq<set<nat>>)
    requires Numbered(s, known) && StepOk(s, step, s') && !step.Flush? && !step.Install? && !step.Move?
    ensures Numbered(s', known) && s'.levels == s.levels && s.nextFile <= s'.nextFile
  {
    hide Numbered, PickedFrom, Due, AddToRun, IsTrivialMove;
    if step.Begin? || step.Reserve? { JobNumbered(s, step, s', known); } else { SameNumbered(s, s', known); }
  }

  // -------------------------------------------------------------------------- journal

  /** Two versions made by the same swap are the same. */
  lemma SwapsAgree(levels: seq<seq<File>>, level: int, in0: seq<File>, in1: seq<File>, outs: seq<File>, a: seq<seq<File>>, b: seq<seq<File>>)
    requires Swapped(levels, level, in0, in1, outs, a) && Swapped(levels, level, in0, in1, outs, b)
    ensures a == b
  {
    hide SortedBySmallest;
    forall l | 0 <= l < |a| ensures a[l] == b[l] {
      forall f ensures f in a[l] <==> f in b[l] {
        assert Placed(a, l, f) <==> f in a[l];
        assert Placed(b, l, f) <==> f in b[l];
      }
      B.SortedUnique(a[l], b[l]);
    }
  }

  /** What the manifest stores of a file when internal keys are written as `key` writes them. */
  function Described(key: Entry -> Bytes): File -> E.Meta {
    (f: File) => E.Meta(f.number, f.size, key(f.smallest), key(f.largest))
  }

  function Encoded(m: map<nat, Entry>, key: Entry -> Bytes): map<nat, Bytes> {
    map l | l in m :: key(m[l])
  }

  /** The counters and the files of the state fit the manifest's fields. */
  ghost predicate Codable(s: State, enc: File -> E.Meta, open: E.Meta -> File) {
    && s.nextFile < TWO_64 && s.lastSequence < TWO_64
    && forall l, f | Placed(s.levels, l, f) :: S.Storable(f, enc, open)
  }

  /** The manifest `es` leads to the state's version and the pointers `led`, and `known` is what its edits added. */
  ghost predicate Kept(s: State, known: seq<set<nat>>, led: map<nat, Bytes>, es: seq<E.Edit<File>>,
                       enc: File -> E.Meta, open: E.Meta -> File, name: Bytes) {
    && Numbered(s, known) && |es| >= 2 && S.Leads(es, s.levels, led, enc, open, name) && S.Sound(s.levels, s.nextFile, enc, open)
    && es[|es| - 1].logNumber == Some(s.logNumber) && s.logNumber <= s.logFile < s.nextFile
    && forall l: nat | l < NUM_LEVELS :: S.KnownAt(l, es) == known[l]
  }

  /** The pointers the manifest leads to are those of the state, up to the one of the running compaction. */
  ghost predicate PointersLed(s: State, logged: map<nat, Entry>) {
    s.pointers == if s.job.Some? && s.job.value.in0 != [] then logged[s.job.value.level := LastKey(s.job.value.in0)] else logged
  }

  lemma EditWritable(level: int, in0: seq<File>, in1: seq<File>, outs: seq<File>, e: E.Edit<File>, next: nat,
                     enc: File -> E.Meta, open: E.Meta -> File, name: Bytes)
    requires 0 <= level + 1 < NUM_LEVELS && (level < 0 ==> in0 == [])
    requires e.logNumber.Some? && e.nextFileNumber == Some(next) && e.lastSequence.Some?
    requires e.logNumber.value < TWO_64 && next < TWO_64 && e.lastSequence.value < TWO_64
    requires e == EditOf(level, in0, in1, outs, e.compactPointers, e.logNumber.value, next, e.lastSequence.value)
    requires forall x | x in e.compactPointers :: E.FieldOk(E.CompactPointer(x.0, x.1))
    requires forall f | f in in0 + in1 :: f.number < next
    requires forall o | o in outs :: S.Storable(o, enc, open)
    ensures R.Writable(e, enc, open, name)
  {
    EditOfMeans(level, in0, in1, outs, e);
    forall q | q in e.deleted ensures q.0 < NUM_LEVELS && q.1 < next {
      if q.0 == level && q.1 in B.Numbers(in0) {
        var f :| f in in0 && f.number == q.1;
        assert f in in0 + in1;
      } else {
        var f :| f in in1 && f.number == q.1;
        assert f in in0 + in1;
      }
    }
    var m := R.Stored(e, enc);
    forall p | p in m.added ensures E.FieldOk(E.NewFile(p.0, p.1)) {
      var i :| 0 <= i < |e.added| && p == m.added[i];
      assert e.added[i] in e.added;
      S.StorableAt(e.added[i].0, e.added[i].1, enc, open);
    }
    forall p | p in e.added ensures open(enc(p.1)) == p.1 { S.StorableAt(p.0, p.1, enc, open); }
    assert forall x | x in E.Scalars(m) :: E.FieldOk(x) by { ScalarsOk(m); }
  }

  lemma ScalarsOk(m: E.Edit<E.Meta>)
    requires m.comparator.None? && m.logNumber.Some? && m.prevLogNumber == Some(0) && m.nextFileNumber.Some? && m.lastSequence.Some?
    requires m.logNumber.value < TWO_64 && m.nextFileNumber.value < TWO_64 && m.lastSequence.value < TWO_64
    ensures forall x | x in E.Scalars(m) :: E.FieldOk(x)
  {
  }

  /** One more edit in the manifest for one more swap of files. */
  lemma SwapKept(s: State, known: seq<set<nat>>, led: map<nat, Bytes>, es: seq<E.Edit<File>>, level: int, in0: seq<File>, in1: seq<File>,
                 outs: seq<File>, ps: seq<(nat, Bytes)>, s': State, known': seq<set<nat>>, enc: File -> E.Meta, open: E.Meta -> File, name: Bytes)
    returns (more: seq<E.Edit<File>>)
    requires Kept(s, known, led, es, enc, open, name) && Codable(s', enc, open) && s'.logNumber <= s'.logFile < s'.nextFile
    requires forall x | x in ps :: E.FieldOk(E.CompactPointer(x.0, x.1))
    requires SwapNumbers(s, known, level, in0, in1, outs, s') && B.InputsIn(s.levels, level, in0, in1) && (level < 0 ==> in0 == [])
    requires known' == known[level + 1 := known[level + 1] + B.Numbers(outs)] && Numbered(s', known')
    ensures Kept(s', known', R.SetPointers(led, ps), more, enc, open, name)
  {
    hide Shaped, Swapped, FreshFiles, S.Leads, S.Sound, NumbersOk, JobPlaced, S.KnownAt, B.Install, S.Storable, Numbered, R.SetPointers;
    var next, last := s'.nextFile, s'.lastSequence;
    var e := EditOf(level, in0, in1, outs, ps, s'.logNumber, next, last);
    InputsBelow(s, known, level, in0, in1);
    OutsStorable(s.levels, level, in0, in1, outs, s', enc, open);
    EditWritable(level, in0, in1, outs, e, next, enc, open, name);
    EditOfMeans(level, in0, in1, outs, e);
    AddsNew(known, level, in0, in1, outs, e, es);
    SoundLater(s.levels, s.nextFile, next, enc, open);
    S.EditLeads(es, s.levels, led, e, next, enc, open, name);
    more := es + [e];
    EditInstalls(s, known, level, in0, in1, outs, e, s');
    KnownMore(known, known', level, in0, in1, outs, e, es);
  }

  lemma SoundLater(v: seq<seq<File>>, next: nat, later: nat, enc: File -> E.Meta, open: E.Meta -> File)
    requires S.Sound(v, next, enc, open) && next <= later
    ensures S.Sound(v, later, enc, open)
  {
  }

  lemma InputsBelow(s: State, known: seq<set<nat>>, level: int, in0: seq<File>, in1: seq<File>)
    requires Numbered(s, known) && B.InputsIn(s.levels, level, in0, in1)
    ensures forall f | f in in0 + in1 :: f.number < s.nextFile
  {
    forall f | f in in0 + in1 ensures f.number < s.nextFile {
      var l := if f in in0 then level else level + 1;
      assert Placed(s.levels, l, f);
    }
  }

  lemma OutsStorable(levels: seq<seq<File>>, level: int, in0: seq<File>, in1: seq<File>, outs: seq<File>, s': State,
                     enc: File -> E.Meta, open: E.Meta -> File)
    requires Swapped(levels, level, in0, in1, outs, s'.levels) && Codable(s', enc, open)
    ensures forall o | o in outs :: S.Storable(o, enc, open)
  {
    forall o | o in outs ensures S.Storable(o, enc, open) { assert Placed(s'.levels, level + 1, o); }
  }

  lemma AddsNew(known: seq<set<nat>>, level: int, in0: seq<File>, in1: seq<File>, outs: seq<File>, e: E.Edit<File>, es: seq<E.Edit<File>>)
    requires |known| == NUM_LEVELS && 0 <= level + 1 < NUM_LEVELS && B.JobEdit(e, level, in0, in1, outs) && DistinctNumbers(outs)
    requires forall o, m | o in outs && level + 1 <= m < NUM_LEVELS :: o.number !in known[m]
    requires forall l: nat | l < NUM_LEVELS :: S.KnownAt(l, es) == known[l]
    ensures forall l: nat | l < NUM_LEVELS :: B.NewNumbers(S.KnownAt(l, es), B.AddedAt(e.added, l))
  {
    hide S.KnownAt, B.DeletedAt, B.AddedAt;
  }

  lemma KnownMore(known: seq<set<nat>>, known': seq<set<nat>>, level: int, in0: seq<File>, in1: seq<File>, outs: seq<File>,
                  e: E.Edit<File>, es: seq<E.Edit<File>>)
    requires |known| == NUM_LEVELS && 0 <= level + 1 < NUM_LEVELS && B.JobEdit(e, level, in0, in1, outs)
    requires known' == known[level + 1 := known[level + 1] + B.Numbers(outs)]
    requires forall l: nat | l < NUM_LEVELS :: S.KnownAt(l, es) == known[l]
    ensures forall l: nat | l < NUM_LEVELS :: S.KnownAt(l, es + [e]) == known'[l]
  {
    hide B.DeletedAt, B.AddedAt, S.KnownAt;
    forall l: nat | l < NUM_LEVELS ensures S.KnownAt(l, es + [e]) == known'[l] {
      KnownLast(l, es, e);
      assert B.Numbers([]) == {};
    }
  }

  lemma {:induction false} KnownLast(l: nat, es: seq<E.Edit<File>>, e: E.Edit<File>)
    ensures S.KnownAt(l, es + [e]) == S.KnownAt(l, es) + B.Numbers(B.AddedAt(e.added, l))
    decreases |es|
  {
    if es == [] {
      assert (es + [e])[1..] == [];
    } else {
      assert (es + [e])[1..] == es[1..] + [e];
      KnownLast(l, es[1..], e);
    }
  }

  lemma EditInstalls(s: State, known: seq<set<nat>>, level: int, in0: seq<File>, in1: seq<File>, outs: seq<File>, e: E.Edit<File>, s': State)
    requires Numbered(s, known) && SwapNumbers(s, known, level, in0, in1, outs, s') && B.JobEdit(e, level, in0, in1, outs)
    requires B.InputsIn(s.levels, level, in0, in1)
    ensures B.Install(s.levels, e) == s'.levels
  {
    hide Swapped, B.Install, B.JobEdit, FreshFiles;
    assert B.NewNumbers(B.Numbers(s.levels[level + 1]), outs) by {
      forall f | f in s.levels[level + 1] ensures f.number in known[level + 1] { assert Placed(s.levels, level + 1, f); }
    }
    B.InstallIsSwap(s.levels, level, in0, in1, outs, e);
    SwapsAgree(s.levels, level, in0, in1, outs, B.Install(s.levels, e), s'.levels);
  }

  /** The pointer of a compaction is the largest key of one of its inputs, and can be stored as that is. */
  lemma PointerStored(levels: seq<seq<File>>, level: nat, in0: seq<File>, key: Entry -> Bytes, open: E.Meta -> File)
    requires level < NUM_LEVELS && in0 != [] && forall f | f in in0 :: Placed(levels, level, f)
    requires forall l, f | Placed(levels, l, f) :: S.Storable(f, Described(key), open)
    ensures E.FieldOk(E.CompactPointer(level, key(LastKey(in0))))
  {
    LastKeyIsLast(in0);
    var f :| f in in0 && f.largest == LastKey(in0);
    assert Placed(levels, level, f);
  }

  lemma SetOne(logged: map<nat, Entry>, level: nat, e: Entry, key: Entry -> Bytes)
    ensures R.SetPointers(Encoded(logged, key), [(level, key(e))]) == Encoded(logged[level := e], key)
    ensures R.SetPointers(Encoded(logged, key), []) == Encoded(logged, key)
  {
    assert [(level, key(e))][1..] == [];
    assert Encoded(logged, key)[level := key(e)] == Encoded(logged[level := e], key);
  }

  lemma FlushKept(s: State, step: Step, s': State, known: seq<set<nat>>, logged: map<nat, Entry>, es: seq<E.Edit<File>>,
                  key: Entry -> Bytes, open: E.Meta -> File, name: Bytes) returns (known': seq<set<nat>>, more: seq<E.Edit<File>>)
    requires Kept(s, known, Encoded(logged, key), es, Described(key), open, name) && PointersLed(s, logged)
    requires Run(ImmEntries(s)) && StepOk(s, step, s') && step.Flush? && Codable(s', Described(key), open)
    ensures Kept(s', known', Encoded(logged, key), more, Described(key), open, name) && PointersLed(s', logged)
  {
    hide Shaped, Swapped, FreshFiles, S.Leads, S.Sound, NumbersOk, S.KnownAt, Codable, SwapNumbers, Encoded, LastKey, OverlapInLevel, StopsAt;
    FlushNumbered(s, step, s', known);
    var f := FlushedFile(s, step.size);
    known' := known[step.level := known[step.level] + B.Numbers([f])];
    more := SwapKept(s, known, Encoded(logged, key), es, step.level - 1, [], [], [f], [], s', known', Described(key), open, name);
    SetOne(logged, 0, f.largest, key);
  }

  lemma FlushEmptyKept(s: State, step: Step, s': State, known: seq<set<nat>>, logged: map<nat, Entry>, es: seq<E.Edit<File>>,
                       key: Entry -> Bytes, open: E.Meta -> File, name: Bytes) returns (more: seq<E.Edit<File>>)
    requires Kept(s, known, Encoded(logged, key), es, Described(key), open, name) && PointersLed(s, logged)
    requires StepOk(s, step, s') && step.FlushEmpty? && Codable(s', Described(key), open)
    ensures Kept(s', known, Encoded(logged, key), more, Described(key), open, name) && PointersLed(s', logged)
  {
    hide FreshFiles, S.Leads, S.Sound, S.KnownAt, Codable, Encoded, LastKey, Shaped, NumbersOk, JobPlaced;
    SameNumbered(s, s', known);
    SameKnown(known);
    assert SwapNumbers(s, known, -1, [], [], [], s') by { NothingSwapped(s.levels); }
    more := SwapKept(s, known, Encoded(logged, key), es, -1, [], [], [], [], s', known, Described(key), open, name);
    SetOne(logged, 0, Entry(0.0, 0, Value, []), key);
  }

  lemma SameKnown(known: seq<set<nat>>)
    requires known != []
    ensures known[0 := known[0] + B.Numbers([])] == known
  {
    assert B.Numbers([]) == {} && known[0] + {} == known[0];
  }

  lemma NothingSwapped(levels: seq<seq<File>>)
    requires Shaped(levels)
    ensures Swapped(levels, -1, [], [], [], levels) && FreshFiles(levels, -1, [], [], [])
  {
  }

  lemma InstallKept(s: State, step: Step, s': State, known: seq<set<nat>>, logged: map<nat, Entry>, es: seq<E.Edit<File>>,
                    key: Entry -> Bytes, open: E.Meta -> File, name: Bytes)
    returns (known': seq<set<nat>>, logged': map<nat, Entry>, more: seq<E.Edit<File>>)
    requires Kept(s, known, Encoded(logged, key), es, Described(key), open, name) && PointersLed(s, logged)
    requires StepOk(s, step, s') && step.Install? && Codable(s, Described(key), open) && Codable(s', Described(key), open)
    ensures Kept(s', known', Encoded(logged', key), more, Described(key), open, name) && PointersLed(s', logged')
  {
    hide Shaped, Swapped, FreshFiles, S.Leads, S.Sound, NumbersOk, S.KnownAt, SwapNumbers, Encoded, LastKey, StepOk, R.SetPointers,
         Run, Content, Held, FilesOk, DistinctNumbers, S.Storable;
    InstallIs(s, step, s');
    InstallSome(s, step, s');
    var j := s.job.value;
    InstallNumbered(s, step, s', known);
    known' := known[j.level + 1 := known[j.level + 1] + B.Numbers(step.outs)];
    logged' := logged[j.level := LastKey(j.in0)];
    InputsInside(s.levels, j.level, j.in0, j.in1);
    forall f | f in j.in0 ensures Placed(s.levels, j.level, f) { assert IsInput(j.level, j.in0, j.in1, j.level, f); }
    PointerStored(s.levels, j.level, j.in0, key, open);
    var ps := [(j.level, key(LastKey(j.in0)))];
    more := SwapKept(s, known, Encoded(logged, key), es, j.level, j.in0, j.in1, step.outs, ps, s', known', Described(key), open, name);
    SetOne(logged, j.level, LastKey(j.in0), key);
  }

  lemma InstallSome(s: State, step: Step, s': State)
    requires step.Install? && StepOk(s, step, s')
    ensures s.job.Some? && s.job.value.in0 != []
  {
    hide OutputsWritten;
  }

  lemma MoveKept(s: State, step: Step, s': State, known: seq<set<nat>>, logged: map<nat, Entry>, es: seq<E.Edit<File>>,
                 key: Entry -> Bytes, open: E.Meta -> File, name: Bytes)
    returns (known': seq<set<nat>>, logged': map<nat, Entry>, more: seq<E.Edit<File>>)
    requires Kept(s, known, Encoded(logged, key), es, Described(key), open, name) && PointersLed(s, logged)
    requires StepOk(s, step, s') && step.Move? && Codable(s, Described(key), open) && Codable(s', Described(key), open)
    ensures Kept(s', known', Encoded(logged', key), more, Described(key), open, name) && PointersLed(s', logged')
  {
    hide Shaped, Swapped, FreshFiles, S.Leads, S.Sound, NumbersOk, S.KnownAt, SwapNumbers, Encoded, StepOk, R.SetPointers, Picked, S.Storable;
    MoveIs(s, step, s');
    MovePointer(s, step, s');
    var level, f := step.level, step.file;
    MoveNumbered(s, step, s', known);
    PickedLevel(s.levels, level, [f], []);
    known' := known[level + 1 := known[level + 1] + B.Numbers([f])];
    logged' := logged[level := f.largest];
    PickedPlaced(s.levels, level, [f], []);
    InputsInside(s.levels, level, [f], []);
    assert f in [f] && IsInput(level, [f], [], level, f) && LastKey([f]) == f.largest;
    PointerStored(s.levels, level, [f], key, open);
    more := SwapKept(s, known, Encoded(logged, key), es, level, [f], [], [f], [(level, key(f.largest))], s', known', Described(key), open, name);
    SetOne(logged, level, f.largest, key);
  }

  lemma MovePointer(s: State, step: Step, s': State)
    requires step.Move? && StepOk(s, step, s')
    ensures s'.pointers == s.pointers[step.level := step.file.largest]
  {
    hide Due, PickedFrom, IsTrivialMove, Swapped;
  }

  lemma OtherKept(s: State, step: Step, s': State, known: seq<set<nat>>, logged: map<nat, Entry>, es: seq<E.Edit<File>>,
                  key: Entry -> Bytes, open: E.Meta -> File, name: Bytes)
    requires Kept(s, known, Encoded(logged, key), es, Described(key), open, name) && PointersLed(s, logged)
    requires StepOk(s, step, s') && !step.Flush? && !step.FlushEmpty? && !step.Install? && !step.Move?
    ensures Kept(s', known, Encoded(logged, key), es, Described(key), open, name) && PointersLed(s', logged)
  {
    hide Shaped, S.Leads, S.Sound, NumbersOk, S.KnownAt, Encoded, LastKey, StepOk, Numbered;
    OtherNumbered(s, step, s', known);
    SoundLater(s.levels, s.nextFile, s'.nextFile, Described(key), open);
    OtherPointers(s, step, s', logged);
  }

  lemma OtherPointers(s: State, step: Step, s': State, logged: map<nat, Entry>)
    requires PointersLed(s, logged) && s.logNumber <= s.logFile < s.nextFile
    requires StepOk(s, step, s') && !step.Flush? && !step.FlushEmpty? && !step.Install? && !step.Move?
    ensures PointersLed(s', logged) && s'.logNumber == s.logNumber && s'.logNumber <= s'.logFile < s'.nextFile
  {
    hide Due, IsTrivialMove, LastKey, AddToRun, InputsFrom, StartSetOf, Spans, Touches;
  }

  lemma StepKept(s: State, step: Step, s': State, known: seq<set<nat>>, logged: map<nat, Entry>, es: seq<E.Edit<File>>,
                 key: Entry -> Bytes, open: E.Meta -> File, name: Bytes)
    returns (known': seq<set<nat>>, logged': map<nat, Entry>, more: seq<E.Edit<File>>)
    requires Kept(s, known, Encoded(logged, key), es, Described(key), open, name) && PointersLed(s, logged)
    requires Run(ImmEntries(s)) && StepOk(s, step, s') && Codable(s, Described(key), open) && Codable(s', Described(key), open)
    ensures Kept(s', known', Encoded(logged', key), more, Described(key), open, name) && PointersLed(s', logged')
  {
    hide Kept, PointersLed, StepOk, Codable;
    known', logged', more := known, logged, es;
    if step.Flush? {
      known', more := FlushKept(s, step, s', known, logged, es, key, open, name);
    } else if step.FlushEmpty? {
      more := FlushEmptyKept(s, step, s', known, logged, es, key, open, name);
    } else if step.Install? {
      known', logged', more := InstallKept(s, step, s', known, logged, es, key, open, name);
    } else if step.Move? {
      known', logged', more := MoveKept(s, step, s', known, logged, es, key, open, name);
    } else {
      OtherKept(s, step, s', known, logged, es, key, open, name);
    }
  }

  lemma InputsInside(levels: seq<seq<File>>, level: nat, in0: seq<File>, in1: seq<File>)
    requires InputsPlaced(levels, level, in0, in1)
    ensures B.InputsIn(levels, level, in0, in1)
  {
    forall f | f in in0 ensures Placed(levels, level, f) { assert IsInput(level, in0, in1, level, f); }
    forall f | f in in1 ensures Placed(levels, level + 1, f) { assert IsInput(level, in0, in1, level + 1, f); }
  }

  /** Whatever the run, guarded or not, the edits of its steps are a journal that leads to its version and its pointers. */
  lemma {:induction false} ExecutionJournal(states: seq<State>, steps: seq<Step>, n: nat, key: Entry -> Bytes, open: E.Meta -> File, name: Bytes)
    returns (known: seq<set<nat>>, logged: map<nat, Entry>, es: seq<E.Edit<File>>)
    requires IsExecution(states, steps) && n < |states| && |name| < TWO_32
    requires forall i | 0 <= i <= n :: Codable(states[i], Described(key), open)
    ensures Kept(states[n], known, Encoded(logged, key), es, Described(key), open, name) && PointersLed(states[n], logged)
  {
    hide StepOk, Kept, Codable, Run, PointersLed;
    if n == 0 {
      known, es := InitKept(states[0], key, open, name);
      logged := map[];
    } else {
      var known0, logged0, es0 := ExecutionJournal(states, steps, n - 1, key, open, name);
      ExecutionMem(states, steps, n - 1);
      known, logged, es := StepKept(states[n - 1], steps[n - 1], states[n], known0, logged0, es0, key, open, name);
    }
  }

  /** The manifest of a new database: an empty snapshot and the edit that names the first log. */
  lemma InitKept(s: State, key: Entry -> Bytes, open: E.Meta -> File, name: Bytes) returns (known: seq<set<nat>>, es: seq<E.Edit<File>>)
    requires Init(s) && |name| < TWO_32
    ensures Kept(s, known, Encoded(map[], key), es, Described(key), open, name) && PointersLed(s, map[])
  {
    hide S.Leads, S.Snapshot, S.KnownAt, S.Sound, Numbered;
    var enc := Described(key);
    known := seq(NUM_LEVELS, _ => {});
    var first, e := S.Snapshot(s.levels, map[], name), EditOf(-1, [], [], [], [], 3, 4, 0);
    es := [first, e];
    assert Encoded(map[], key) == map[];
    InitNumbered(s, known);
    EmptySound(s.levels, s.nextFile, enc, open);
    S.SnapshotLeads(s.levels, map[], s.nextFile, enc, open, name);
    assert B.Numbers([]) == {};
    EditWritable(-1, [], [], [], e, 4, enc, open, name);
    EditOfMeans(-1, [], [], [], e);
    AddsNew(known, -1, [], [], [], e, [first]);
    S.EditLeads([first], s.levels, map[], e, 4, enc, open, name);
    NoneInstalled(s, known, e);
    assert R.SetPointers(map[], []) == map[];
    assert [first] + [e] == es;
    SameKnown(known);
    KnownMore(known, known, -1, [], [], [], e, [first]);
  }

  lemma NoneInstalled(s: State, known: seq<set<nat>>, e: E.Edit<File>)
    requires Init(s) && Numbered(s, known) && B.JobEdit(e, -1, [], [], [])
    ensures B.Install(s.levels, e) == s.levels
  {
    hide B.JobEdit, B.Install;
    assert SwapNumbers(s, known, -1, [], [], [], s) by { NothingSwapped(s.levels); }
    EditInstalls(s, known, -1, [], [], [], e, s);
  }

  lemma InitNumbered(s: State, known: seq<set<nat>>)
    requires Init(s) && known == seq(NUM_LEVELS, _ => {})
    ensures Numbered(s, known)
  {
    assert forall l, f :: !Placed(s.levels, l, f);
  }

  lemma EmptySound(v: seq<seq<File>>, next: nat, enc: File -> E.Meta, open: E.Meta -> File)
    requires |v| == NUM_LEVELS && forall l | 0 <= l < NUM_LEVELS :: v[l] == []
    ensures S.Sound(v, next, enc, open)
  {
    assert forall l, f :: !Placed(v, l, f);
  }

  /**
   Recovery from the manifest, at any moment of any run, rebuilds the version of that
   moment, the compaction pointers but for a compaction still running, and the number of
   the first log still needed, with a next file number beyond every file.
   */
  lemma RunRecovers(states: seq<State>, steps: seq<Step>, n: nat, key: Entry -> Bytes, open: E.Meta -> File, name: Bytes)
    returns (es: seq<E.Edit<File>>, logged: map<nat, Entry>)
    requires IsExecution(states, steps) && n < |states| && |name| < TWO_32
    requires forall i | 0 <= i <= n :: Codable(states[i], Described(key), open)
    ensures |es| >= 2 && PointersLed(states[n], logged) && es[|es| - 1].logNumber == Some(states[n].logNumber)
    ensures R.Rebuilt(R.Recover(Logs.Log(0, R.Records(es, Described(key))), open, name), states[n].levels, Encoded(logged, key), es[|es| - 1])
  {
    hide IsExecution, Codable, S.Leads, R.Rebuilt, R.Recover, PointersLed;
    var known;
    known, logged, es := ExecutionJournal(states, steps, n, key, open, name);
    S.RecoversCurrent(es, states[n].levels, Encoded(logged, key), Described(key), open, name);
  }
}
