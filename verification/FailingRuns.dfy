/**
 Three runs of the engine, from an empty database, after which a client reads something
 else than what was written: a trivial move and a merge that leave the older half of a
 user key behind, and a merge that drops a deletion marker beside a file that still holds
 its key.

 All three begin alike. A large value is flushed to level 2. Four memtables of smaller keys
 follow it to level 0, with a snapshot taken after the first. They are merged to level 1,
 where the output is full in the middle of the key K: its newer versions are in one file,
 the older one is in the next.
 */
module FailingRuns {
  import opened Entries
  import opened Versions
  import opened Picking
  import opened VersionOrder
  import opened Swaps
  import opened Compactions
  import opened GroupCommit
  import opened Engine
  import opened EngineRuns
  import opened Reaching

  // --------------------------------------------------------------- keys and sizes

  const J: Key := 2.0 / 257.0
  const K: Key := 3.0 / 257.0
  const Z: Key := 4.0 / 257.0

  /** The three keys are one byte long. */
  lemma KeysAreBytes()
    ensures J == Rank([1]) && K == Rank([2]) && Z == Rank([3])
  {
    assert Rank([1]) == (1.0 + 1.0 + Rank([])) / 257.0;
    assert Rank([2]) == (2.0 + 1.0 + Rank([])) / 257.0;
    assert Rank([3]) == (3.0 + 1.0 + Rank([])) / 257.0;
  }

  const BLOCK_SIZE: nat := 4096

  function Payload(es: seq<Entry>): nat {
    if es == [] then 0 else Payload(es[..|es| - 1]) + |es[|es| - 1].value|
  }

  predicate OurKeys(es: seq<Entry>) {
    forall e | e in es :: e.key == J || e.key == K || e.key == Z
  }

  /**
   How large a table of short keys can be. It holds every value, and besides them less
   than as much again and a block for every entry. What a full block brings has been
   written once the block is full.
   */
  ghost predicate TableSizes(z: Sizes) {
    && (forall es: seq<Entry> | OurKeys(es) :: Payload(es) <= z.finished(es) <= 2 * Payload(es) + BLOCK_SIZE * (|es| + 1))
    && (forall es: seq<Entry> | OurKeys(es) :: z.growing(es) <= z.finished(es))
    && (forall es: seq<Entry> | OurKeys(es) && es != [] && |es[|es| - 1].value| >= BLOCK_SIZE :: Payload(es) <= z.growing(es))
  }

  /** A value that does not fill a block. */
  predicate Short(v: Bytes) { |v| <= 1000 }

  // -------------------------------------------------------------------- what is written

  /** The values written, the kind of the newest version of K, and whether the bottom key is Z or K. */
  datatype Case = Case(sizes: Sizes, tail: bool, bottom: Bytes, older: Bytes, big: Bytes, kind: Kind, newer: Bytes)

  ghost predicate CaseOk(c: Case) {
    && TableSizes(c.sizes) && 20 * MB < |c.bottom| <= 45 * MB && TARGET_FILE_SIZE <= |c.big| <= 12 * MB
    && Short(c.older) && Short(c.newer) && (c.kind.Deletion? ==> c.newer == [])
  }

  /** There are such cases, for every kind and for values of any such length. */
  lemma SomeCase(tail: bool, bottom: nat, big: nat, older: Bytes, kind: Kind, newer: Bytes) returns (c: Case)
    requires 20 * MB < bottom <= 45 * MB && TARGET_FILE_SIZE <= big <= 12 * MB && Short(older) && Short(newer) && (kind.Deletion? ==> newer == [])
    ensures CaseOk(c) && c.tail == tail && |c.bottom| == bottom && |c.big| == big && c.older == older && c.kind == kind && c.newer == newer
  {
    c := Case(Sizes(es => Payload(es), es => Payload(es)), tail, seq(bottom, _ => 0), older, seq(big, _ => 0), kind, newer);
  }

  function Put(k: Key, v: Bytes): Update { Update(k, Value, v) }

  function BottomKey(c: Case): Key { if c.tail then Z else K }

  /** How many entries the first memtable of level 0 has. */
  function Olds(c: Case): nat { if c.tail then 3 else 2 }

  function OldOps(c: Case): seq<Update> {
    [Put(J, []), Put(K, c.older)] + if c.tail then [Put(Z, [])] else []
  }

  function BottomEntry(c: Case): Entry { Entry(BottomKey(c), 1, Value, c.bottom) }

  function Tail(c: Case): seq<Entry> {
    if c.tail then [Entry(Z, 4, Value, [])] else []
  }

  /** The older half of K, with what follows it. */
  function Lower(c: Case): seq<Entry> { [Entry(K, 3, Value, c.older)] + Tail(c) }

  function OldEntries(c: Case): seq<Entry> { [Entry(J, 2, Value, [])] + Lower(c) }

  function BigEntry(c: Case): Entry { Entry(K, Olds(c) + 2, Value, c.big) }

  function NewestEntry(c: Case): Entry { Entry(K, Olds(c) + 3, c.kind, c.newer) }

  function LastEntry(c: Case): Entry { Entry(J, Olds(c) + 4, Value, []) }

  /** The newer half of K, with what precedes it. */
  function Upper(c: Case): seq<Entry> {
    [LastEntry(c), Entry(J, 2, Value, []), NewestEntry(c), BigEntry(c)]
  }

  function Writes(c: Case): seq<Entry> {
    [BottomEntry(c)] + OldEntries(c) + [BigEntry(c), NewestEntry(c), LastEntry(c)]
  }

  function Bottom(c: Case): File { TableOf(5, [BottomEntry(c)], c.sizes) }

  function First(c: Case): File { TableOf(7, OldEntries(c), c.sizes) }

  function Second(c: Case): File { TableOf(9, [BigEntry(c)], c.sizes) }

  function Third(c: Case): File { TableOf(11, [NewestEntry(c)], c.sizes) }

  function Fourth(c: Case): File { TableOf(13, [LastEntry(c)], c.sizes) }

  function Zero(c: Case): seq<File> { [Fourth(c), First(c), Third(c), Second(c)] }

  function Empty(): seq<seq<File>> { seq(NUM_LEVELS, _ => []) }

  function AtBottom(c: Case): seq<seq<File>> { Empty()[2 := [Bottom(c)]] }

  lemma BottomSize(c: Case)
    requires CaseOk(c)
    ensures MAX_GRANDPARENT_OVERLAP < Bottom(c).size <= 100 * MB && Bottom(c).size >= |c.bottom|
  {
    var es := [BottomEntry(c)];
    assert OurKeys(es);
    assert es[..0] == [] && Payload(es) == |c.bottom|;
  }

  lemma UpperSizes(c: Case)
    requires CaseOk(c)
    ensures forall m | 0 < m < 4 :: c.sizes.growing(Upper(c)[..m]) < TARGET_FILE_SIZE
    ensures c.sizes.growing(Upper(c)) >= TARGET_FILE_SIZE
    ensures |c.big| <= c.sizes.finished(Upper(c)) <= 2 * |c.big| + 30000
  {
    hide Olds;
    var u := Upper(c);
    assert u[..1] == [u[0]] && u[..2] == [u[0], u[1]] && u[..3] == [u[0], u[1], u[2]];
    assert Payload(u[..1]) == 0 by { assert u[..1][..0] == []; }
    assert Payload(u[..2]) == 0 by { assert u[..2][..1] == u[..1]; }
    assert Payload(u[..3]) == |c.newer| by { assert u[..3][..2] == u[..2]; }
    assert Payload(u) == |c.newer| + |c.big|;
    forall m | 0 < m <= 4 ensures OurKeys(u[..m]) {}
    assert u[..4] == u;
  }

  lemma LowerSizes(c: Case)
    requires CaseOk(c)
    ensures forall m | 0 < m < |Lower(c)| :: c.sizes.growing(Lower(c)[..m]) < TARGET_FILE_SIZE
    ensures c.sizes.finished(Lower(c)) <= 30000
  {
    var b := Lower(c);
    assert b[..1] == [b[0]];
    assert Payload(b[..1]) == |c.older| by { assert b[..1][..0] == []; }
    assert OurKeys(b[..1]) && OurKeys(b);
    if c.tail { assert Payload(b) == |c.older|; } else { assert b == b[..1]; }
  }

  // --------------------------------------------------------------- up to four files

  /** Nothing runs; the state's version, history, snapshots and counters. */
  ghost predicate Stage(s: State, c: Case, levels: seq<seq<File>>, writes: seq<Entry>, next: nat, snapshots: seq<nat>) {
    && Reachable(s) && Quiet(s) && s.sizes == c.sizes && s.levels == levels && AllSorted(levels)
    && s.writes == writes && s.nextFile == next && s.snapshots == snapshots
  }

  lemma BottomReached(c: Case) returns (s: State)
    requires CaseOk(c)
    ensures Stage(s, c, AtBottom(c), [BottomEntry(c)], 6, []) && s.floor == 0 && s.pointers == map[]
  {
    hide Reachable, Swapped, TableSizes;
    var s0 := State([], None, Empty(), [], 0, 4, [], None, 0, [], [], map[], c.sizes, 3, 3);
    ReachInit(s0);
    var ops := [Put(BottomKey(c), c.bottom)];
    assert Numbered(0, ops) == [BottomEntry(c)];
    assert FlushOf(s0, ops) == Bottom(c);
    assert FlushLevel(Empty(), 2, BottomKey(c), BottomKey(c));
    PlaceFile(Empty(), 2, Bottom(c), [Bottom(c)]);
    WriteAndFlush(s0, ops, 2, AtBottom(c));
    s := Flushed(s0, ops, AtBottom(c));
    assert s.writes == [BottomEntry(c)];
  }

  lemma FirstReached(c: Case) returns (s: State)
    requires CaseOk(c)
    ensures Stage(s, c, AtBottom(c)[0 := [First(c)]], [BottomEntry(c)] + OldEntries(c), 8, [Olds(c) + 1])
    ensures s.floor == 0 && s.pointers == map[]
  {
    hide Reachable, Swapped, TableSizes, FlushLevel;
    var s1 := BottomReached(c);
    BottomSize(c);
    var ops := OldOps(c);
    assert Numbered(1, ops) == OldEntries(c);
    assert FlushOf(s1, ops) == First(c);
    AboveBottomLevel(AtBottom(c), Bottom(c), First(c).smallest.key, First(c).largest.key);
    FlushToZero(s1, ops, [First(c)]);
    var s2 := Flushed(s1, ops, s1.levels[0 := [First(c)]]);
    s := s2.(snapshots := [s2.lastSequence]);
    assert s2.snapshots + [s2.lastSequence] == s.snapshots;
    ReachStep(s2, TakeSnapshot, s);
  }

  lemma SecondReached(c: Case) returns (s: State)
    requires CaseOk(c)
    ensures Stage(s, c, AtBottom(c)[0 := [First(c), Second(c)]], [BottomEntry(c)] + OldEntries(c) + [BigEntry(c)], 10, [Olds(c) + 1])
    ensures s.floor == 0 && s.pointers == map[]
  {
    hide Reachable, Swapped, TableSizes, FlushLevel;
    var s1 := FirstReached(c);
    var ops := [Put(K, c.big)];
    assert Numbered(|s1.writes|, ops) == [BigEntry(c)];
    assert FlushOf(s1, ops) == Second(c);
    var fs := [First(c), Second(c)];
    assert First(c) in s1.levels[0];
    AboveZeroLevel(s1.levels, First(c), K, K);
    FlushToZero(s1, ops, fs);
    s := Flushed(s1, ops, s1.levels[0 := fs]);
    assert s.levels == AtBottom(c)[0 := fs];
  }

  lemma ThirdReached(c: Case) returns (s: State)
    requires CaseOk(c)
    ensures Stage(s, c, AtBottom(c)[0 := [First(c), Third(c), Second(c)]],
                  [BottomEntry(c)] + OldEntries(c) + [BigEntry(c), NewestEntry(c)], 12, [Olds(c) + 1])
    ensures s.floor == 0 && s.pointers == map[]
  {
    hide Reachable, Swapped, TableSizes, FlushLevel;
    var s1 := SecondReached(c);
    var ops := [Update(K, c.kind, c.newer)];
    assert Numbered(|s1.writes|, ops) == [NewestEntry(c)];
    assert FlushOf(s1, ops) == Third(c);
    var fs := [First(c), Third(c), Second(c)];
    assert First(c) in s1.levels[0];
    AboveZeroLevel(s1.levels, First(c), K, K);
    FlushToZero(s1, ops, fs);
    s := Flushed(s1, ops, s1.levels[0 := fs]);
    assert s.levels == AtBottom(c)[0 := fs];
    assert [BottomEntry(c)] + OldEntries(c) + [BigEntry(c)] + [NewestEntry(c)]
        == [BottomEntry(c)] + OldEntries(c) + [BigEntry(c), NewestEntry(c)];
  }

  lemma FourthReached(c: Case) returns (s: State)
    requires CaseOk(c)
    ensures Stage(s, c, AtBottom(c)[0 := Zero(c)], Writes(c), 14, [Olds(c) + 1]) && s.floor == 0 && s.pointers == map[]
  {
    hide Reachable, Swapped, TableSizes, FlushLevel;
    var s1 := ThirdReached(c);
    var ops := [Put(J, [])];
    assert Numbered(|s1.writes|, ops) == [LastEntry(c)];
    assert FlushOf(s1, ops) == Fourth(c);
    assert First(c) in s1.levels[0];
    AboveZeroLevel(s1.levels, First(c), J, J);
    FlushToZero(s1, ops, Zero(c));
    s := Flushed(s1, ops, s1.levels[0 := Zero(c)]);
    assert s.levels == AtBottom(c)[0 := Zero(c)];
    assert [BottomEntry(c)] + OldEntries(c) + [BigEntry(c), NewestEntry(c)] + [LastEntry(c)] == Writes(c);
  }

  // ------------------------------------------------- a level that holds K in two files

  lemma ZeroRanges(c: Case)
    ensures forall f | f in Zero(c) :: J <= f.smallest.key <= f.largest.key <= First(c).largest.key
    ensures First(c).smallest.key == J && First(c) in Zero(c) && Fourth(c) in Zero(c)
  {
  }

  lemma ZeroPicked(c: Case, levels: seq<seq<File>>)
    requires CaseOk(c) && levels == AtBottom(c)[0 := Zero(c)]
    ensures Due(levels, map[], BySize, 0, Fourth(c)) && PickedFrom(levels, 0, Fourth(c), Zero(c), []) && !IsTrivialMove(levels, 0, Zero(c), [])
  {
    hide TableSizes, Due, Picked, First, Second, Third, Fourth, Zero, Bottom;
    ZeroRanges(c);
    BottomSize(c);
    assert Zero(c) != [] && levels[1] == [] && levels[0] == Zero(c) && |Zero(c)| == 4 && Zero(c)[0] == Fourth(c) by { FourFiles(c); }
    TotalOne(Bottom(c));
    ZeroIsDue(levels, map[], Fourth(c));
    CoveredPick(levels, 0, Zero(c), [], First(c));
    TakenTogether(Zero(c), J, J, First(c));
    assert Fourth(c).smallest.key == J && Fourth(c).largest.key == J by { FourFiles(c); }
    assert StartSetOf(levels, 0, Fourth(c), Zero(c));
    assert Parents(levels, 0, Zero(c)) == [];
    assert InputsFrom(levels, 0, Zero(c), Zero(c), []);
  }

  lemma FourFiles(c: Case)
    ensures |Zero(c)| == 4 && Zero(c)[0] == Fourth(c) && Fourth(c).smallest.key == J && Fourth(c).largest.key == J
  {
  }

  lemma TotalOne(f: File)
    ensures TotalFileSize([f]) == f.size && TotalFileSize([]) == 0
  {
    assert [f][1..] == [];
  }

  lemma TotalTwo(f: File, g: File)
    ensures TotalFileSize([f, g]) == f.size + g.size
  {
    assert [f, g][1..] == [g];
    TotalOne(g);
  }

  /** With the snapshot behind the first memtable alive, nothing is dropped. */
  lemma SplitSurvives(c: Case, base: seq<seq<File>>, level: nat)
    ensures AllSurvive(Upper(c) + Lower(c), Olds(c) + 1, base, level)
  {
    var input, q := Upper(c) + Lower(c), Olds(c) + 1;
    assert |input| == 5 || |input| == 6;
    forall i | 0 <= i < |input| ensures Survives(input, i, q, base, level) {}
  }

  lemma SplitSorted(c: Case)
    ensures Run(Upper(c) + Lower(c)) && Run(Upper(c)) && Run(Lower(c))
  {
    RunParts(Upper(c), Lower(c));
  }

  lemma InHeld(fs: seq<File>, f: File, e: Entry)
    requires f in fs && e in f.entries
    ensures e in Held(fs)
  {
  }

  lemma SplitContent(c: Case)
    ensures Content(Upper(c) + Lower(c)) == Held(Zero(c)) + Held([])
  {
    var fs := Zero(c);
    assert fs[0] in fs && fs[1] in fs && fs[2] in fs && fs[3] in fs;
    forall e | e in Upper(c) + Lower(c) ensures e in Held(fs) {
      if e == LastEntry(c) {
        InHeld(fs, Fourth(c), e);
      } else if e == NewestEntry(c) {
        InHeld(fs, Third(c), e);
      } else if e == BigEntry(c) {
        InHeld(fs, Second(c), e);
      } else {
        assert e == OldEntries(c)[0] || e in Lower(c);
        InHeld(fs, First(c), e);
      }
    }
    forall e | e in Held(fs) ensures e in Upper(c) + Lower(c) {
      var f :| f in fs && e in f.entries;
      assert f == Fourth(c) ==> e == Upper(c)[0];
      assert f == Third(c) ==> e == Upper(c)[2];
      assert f == Second(c) ==> e == Upper(c)[3];
      assert f == First(c) ==> e == Upper(c)[1] || e in Lower(c);
    }
  }

  function UpperFile(c: Case): File { TableOf(14, Upper(c), c.sizes) }

  function LowerFile(c: Case): File { TableOf(15, Lower(c), c.sizes) }

  function Split(c: Case): seq<seq<File>> { AtBottom(c)[1 := [UpperFile(c), LowerFile(c)]] }

  lemma SplitFiles(c: Case)
    ensures FilesOk([UpperFile(c), LowerFile(c)]) && DistinctNumbers([UpperFile(c), LowerFile(c)])
    ensures SortedBySmallest([UpperFile(c), LowerFile(c)])
  {
    SplitSorted(c);
  }

  lemma BottomNotPassed(c: Case, gs: seq<File>)
    requires forall g | g in gs :: g == Bottom(c)
    ensures NonePassed(gs, Upper(c) + Lower(c))
  {
  }

  lemma SplitOutputs(c: Case, base: seq<seq<File>>, gs: seq<File>)
    requires CaseOk(c) && forall g | g in gs :: g == Bottom(c)
    ensures Outputs(Upper(c) + Lower(c), Olds(c) + 1, base, 0, gs, c.sizes.growing) == [Upper(c), Lower(c)]
  {
    hide Survives, Outputs, NonePassed, TableSizes;
    SplitSurvives(c, base, 0);
    BottomNotPassed(c, gs);
    UpperSizes(c);
    LowerSizes(c);
    OutputsTwo(Upper(c), Lower(c), Olds(c) + 1, base, 0, gs, c.sizes.growing);
  }

  lemma SplitWritten(s: State, c: Case, j: Job)
    requires CaseOk(c) && s.sizes == c.sizes && j.base == AtBottom(c)[0 := Zero(c)] && j.in0 == Zero(c) && j.in1 == []
    requires j.level == 0 && j.smallest == Olds(c) + 1
    ensures OutputsWritten(s, j, Upper(c) + Lower(c), [UpperFile(c), LowerFile(c)])
  {
    hide Outputs, Runs, Zero, Upper, Lower, Bottom, TableSizes;
    assert Zero(c) != [] by { FourFiles(c); }
    var gs := Grandparents(j.base, 0, Zero(c) + []);
    assert forall g | g in gs :: g == Bottom(c);
    SplitOutputs(c, j.base, gs);
    RunsTwo(UpperFile(c), LowerFile(c));
  }

  /** The merge of the four files cuts K in two. */
  lemma SplitReached(c: Case) returns (s: State)
    requires CaseOk(c)
    ensures Stage(s, c, Split(c), Writes(c), 16, [Olds(c) + 1]) && s.floor == Olds(c) + 1
    ensures s.pointers.Keys == {0} && s.pointers[0].key == First(c).largest.key
  {
    hide Reachable, Due, PickedFrom, IsTrivialMove, LastKey, OutputsWritten, Run, FilesOk, DistinctNumbers, SortedBySmallest, TableSizes;
    hide Zero, Upper, Lower, Bottom, First, Writes, Held, Content, UpperFile, LowerFile;
    var s1 := FourthReached(c);
    ZeroPicked(c, s1.levels);
    var s2 := BeginTwo(s1, Fourth(c), 0, Zero(c), []);
    assert LastKey(Zero(c)).key == First(c).largest.key by { ZeroRanges(c); LastKeyRange(Zero(c)); }
    s := SplitInstalled(s2, c);
  }

  lemma SplitInstalled(s: State, c: Case) returns (t: State)
    requires CaseOk(c) && Reachable(s) && s.job.Some? && s.sizes == c.sizes && AllSorted(s.levels) && s.floor == 0
    requires s.job.value == Job(0, Zero(c), [], AtBottom(c)[0 := Zero(c)], Olds(c) + 1, {14, 15}) && s.levels == AtBottom(c)[0 := Zero(c)]
    ensures Reachable(t) && AllSorted(t.levels) && t == s.(levels := Split(c), job := None, floor := Olds(c) + 1)
  {
    hide Reachable, OutputsWritten, Run, FilesOk, DistinctNumbers, SortedBySmallest, TableSizes;
    hide Zero, Upper, Lower, Bottom, Held, Content;
    assert Zero(c) != [] by { FourFiles(c); }
    var outs := [UpperFile(c), LowerFile(c)];
    SplitFiles(c);
    SplitSorted(c);
    SplitContent(c);
    SplitWritten(s, c, s.job.value);
    assert SortedBySmallest([]) by { NoneSorted(); }
    assert s.levels[0] == Zero(c) && s.levels[1] == [];
    t := InstallFiles(s, Upper(c) + Lower(c), outs, [], outs);
    assert t.levels == Split(c);
  }

  lemma NoneSorted()
    ensures SortedBySmallest([])
  {
  }

  // ------------------------------------------------------------------ wrong reads

  lemma {:induction false} ReplayLast(writes: seq<Entry>, i: nat, k: Key)
    requires i < |writes| && writes[i].key == k && forall j | i < j < |writes| :: writes[j].key != k
    ensures MapGet(Replay(writes), k) == AnswerOf(Some(writes[i]))
  {
    if i < |writes| - 1 { ReplayLast(writes[..|writes| - 1], i, k); }
  }

  /** What was written last to K. */
  function Expected(c: Case): Answer {
    if c.kind.Value? then Found(Olds(c) + 3, c.newer) else NotFound
  }

  /** A client reading K now is given the value of an older version. */
  ghost predicate OldVersionRead(t: State, c: Case) {
    && t.lastSequence == |t.writes|
    && MapGet(Replay(t.writes[..t.lastSequence]), K) == Expected(c)
    && AnswerOf(Search(t, K, t.lastSequence)) == Found(3, c.older)
  }

  /** A key is searched at level 1 first when level 0 is empty. */
  lemma FoundAtOne(s: State, k: Key, q: nat, e: Entry)
    requires Quiet(s) && |s.levels| == NUM_LEVELS && s.levels[0] == [] && SearchLevel(s.levels[1], k, q) == Some(e)
    ensures Search(s, k, q) == Some(e)
  {
    hide SearchLevel;
    assert SearchLevel0([], k, q) == None;
    assert SearchFrom(s.levels, 1, k, q) == Some(e);
  }

  lemma LowerFound(c: Case, q: nat)
    requires q >= 3
    ensures SearchLevel([LowerFile(c)], K, q) == Some(Entry(K, 3, Value, c.older))
  {
    var fs, e := [LowerFile(c)], Entry(K, 3, Value, c.older);
    assert fs[0].entries[0] == e && !BeforeTarget(e, K, q);
  }

  lemma OldHalfRead(t: State, c: Case)
    requires Quiet(t) && |t.levels| == NUM_LEVELS && t.levels[0] == [] && t.levels[1] == [LowerFile(c)] && t.writes == Writes(c)
    ensures OldVersionRead(t, c)
  {
    hide Search, SearchLevel, LowerFile;
    var q := |t.writes|;
    LowerFound(c, q);
    FoundAtOne(t, K, q, Entry(K, 3, Value, c.older));
    assert t.writes[..q] == t.writes;
    ReplayLast(t.writes, |t.writes| - 2, K);
  }

  // ------------------------------------------------------------------- a trivial move

  lemma UpperDue(c: Case, pointers: map<nat, Entry>)
    requires CaseOk(c) && |c.big| >= 10 * MB && pointers.Keys == {0}
    ensures Due(Split(c), pointers, BySize, 1, UpperFile(c))
  {
    hide TableSizes, Due, Upper, Lower;
    BottomSize(c);
    UpperSizes(c);
    TotalTwo(UpperFile(c), LowerFile(c));
    TotalOne(Bottom(c));
    OneIsDue(Split(c), pointers, UpperFile(c));
  }

  lemma UpperRange(c: Case)
    ensures UpperFile(c).smallest.key == J && UpperFile(c).largest.key == K && LowerFile(c).smallest.key == K
    ensures RangeLo([UpperFile(c)]) == J && RangeHi([UpperFile(c)]) == K && UpperFile(c) != LowerFile(c)
  {
  }

  lemma UpperMoves(c: Case)
    requires c.tail
    ensures PickedFrom(Split(c), 1, UpperFile(c), [UpperFile(c)], []) && IsTrivialMove(Split(c), 1, [UpperFile(c)], [])
  {
    hide Picked, Upper, Lower, UpperFile, LowerFile, RangeLo, RangeHi;
    var levels, x := Split(c), UpperFile(c);
    UpperRange(c);
    assert levels[1] == [x, LowerFile(c)] && levels[2] == [Bottom(c)] && levels[3] == [];
    assert Bottom(c).smallest.key == Z;
    assert x in [x] && x in levels[1] && [x] + [] == [x];
    CoveredPick(levels, 1, [x], [], x);
    NoneSelected([Bottom(c)], J, K);
    assert Parents(levels, 1, [x]) == [];
    assert StartSetOf(levels, 1, x, [x]) && InputsFrom(levels, 1, [x], [x], []);
    NoneSelected([], J, K);
    TotalOne(x);
  }

  lemma MoveStep(s: State, c: Case) returns (t: State)
    requires CaseOk(c) && c.tail && |c.big| >= 10 * MB && Stage(s, c, Split(c), Writes(c), 16, [Olds(c) + 1]) && s.pointers.Keys == {0}
    ensures StepOk(s, Move(BySize, 1, UpperFile(c)), t)
    ensures t == s.(levels := Split(c)[1 := [LowerFile(c)]][2 := [UpperFile(c), Bottom(c)]], pointers := t.pointers)
  {
    hide Reachable, Due, PickedFrom, IsTrivialMove, Swapped, TableSizes, Upper, Lower;
    var x, y, f := UpperFile(c), LowerFile(c), Bottom(c);
    UpperDue(c, s.pointers);
    UpperMoves(c);
    UpperRange(c);
    assert SortedBySmallest([y]) && SortedBySmallest([x, f]);
    ReplaceFiles(s.levels, 1, [x], [], [x], [y], [x, f]);
    t := s.(levels := Split(c)[1 := [y]][2 := [x, f]], pointers := s.pointers[1 := x.largest]);
  }

  /**
   Level 1 is over its budget, and the file with the newer half of K meets nothing at level
   2: it is moved there, and the older half is read from level 1.
   */
  lemma MoveGoesBack(c: Case) returns (s: State, step: Step, t: State)
    requires CaseOk(c) && c.tail && |c.big| >= 10 * MB
    ensures Reachable(s) && step.Move? && StepOk(s, step, t) && Reachable(t) && OldVersionRead(t, c)
  {
    hide Reachable, StepOk, AllSorted, OldVersionRead, TableSizes, Writes, Bottom, LowerFile, UpperFile;
    s := SplitReached(c);
    t := MoveStep(s, c);
    step := Move(BySize, 1, UpperFile(c));
    ReachStep(s, step, t);
    OldHalfRead(t, c);
  }

  // -------------------------------------------------- a merge that leaves a half behind

  lemma UpperMerges(c: Case)
    requires CaseOk(c) && !c.tail && |c.big| >= 10 * MB && |c.bottom| >= 40 * MB
    ensures PickedFrom(Split(c), 1, UpperFile(c), [UpperFile(c)], [Bottom(c)])
    ensures !IsTrivialMove(Split(c), 1, [UpperFile(c)], [Bottom(c)])
  {
    hide Picked, Upper, Lower, UpperFile, LowerFile, RangeLo, RangeHi, TableSizes;
    var levels, x, y, f := Split(c), UpperFile(c), LowerFile(c), Bottom(c);
    UpperRange(c);
    assert LowerFile(c).largest.key == K by { LowerAlone(c); }
    assert levels[1] == [x, y] && levels[2] == [f];
    assert f.smallest.key == K && f.largest.key == K;
    assert x in [x] && x in levels[1] && f in [f];
    CoveredPick(levels, 1, [x], [f], x);
    OneSelected([f], f, J, K);
    assert Parents(levels, 1, [x]) == [f];
    assert x in [x] + [f] && f in [x] + [f];
    assert RangeLo([x] + [f]) == J && RangeHi([x] + [f]) == K;
    SelectedAll([x, y], J, K);
    assert Overlapping(1, levels[1], J, K, [x, y]);
    assert !Expands(levels, 1, [x], [x, y]) by { TooLarge(c); }
    InputsAre(levels, 1, [x], [x, y], [x], [f]);
    assert StartSetOf(levels, 1, x, [x]);
  }

  lemma LowerAlone(c: Case)
    requires !c.tail
    ensures Lower(c) == [Entry(K, 3, Value, c.older)] && LowerFile(c).largest.key == K
  {
  }

  lemma TooLarge(c: Case)
    requires CaseOk(c) && |c.big| >= 10 * MB && |c.bottom| >= 40 * MB
    ensures TotalFileSize([Bottom(c)]) + TotalFileSize([UpperFile(c), LowerFile(c)]) >= EXPANDED_COMPACTION_LIMIT
  {
    hide TableSizes;
    BottomSize(c);
    UpperSizes(c);
    TotalOne(Bottom(c));
    TotalTwo(UpperFile(c), LowerFile(c));
  }

  function DeepInput(c: Case): seq<Entry> { Upper(c) + [BottomEntry(c)] }

  function DeepOuts(c: Case): seq<File> { [TableOf(16, Upper(c), c.sizes), TableOf(17, [BottomEntry(c)], c.sizes)] }

  lemma DeepSurvives(c: Case, base: seq<seq<File>>)
    requires !c.tail
    ensures AllSurvive(DeepInput(c), Olds(c) + 1, base, 1)
  {
    var input, q := DeepInput(c), Olds(c) + 1;
    assert |input| == 5;
    forall i | 0 <= i < |input| ensures Survives(input, i, q, base, 1) {}
  }

  lemma DeepSorted(c: Case)
    requires !c.tail
    ensures Run(DeepInput(c)) && FilesOk(DeepOuts(c)) && DistinctNumbers(DeepOuts(c)) && SortedBySmallest(DeepOuts(c))
    ensures Content(DeepInput(c)) == Held([UpperFile(c)]) + Held([Bottom(c)])
  {
    assert Run(DeepInput(c));
    RunParts(Upper(c), [BottomEntry(c)]);
    HeldOne(UpperFile(c));
    HeldOne(Bottom(c));
  }

  lemma HeldOne(f: File)
    ensures Held([f]) == Content(f.entries)
  {
    assert f in [f];
  }

  lemma DeepWritten(s: State, c: Case, j: Job)
    requires CaseOk(c) && !c.tail && s.sizes == c.sizes && j.base == Split(c) && j.in0 == [UpperFile(c)] && j.in1 == [Bottom(c)]
    requires j.level == 1 && j.smallest == Olds(c) + 1
    ensures OutputsWritten(s, j, DeepInput(c), DeepOuts(c))
  {
    hide Outputs, Runs, Upper, TableSizes, NonePassed;
    var gs := Grandparents(j.base, 1, j.in0 + j.in1);
    assert gs == [] by { assert j.base[3] == []; }
    assert NonePassed(gs, DeepInput(c)) by { NothingToPass(DeepInput(c)); }
    DeepSurvives(c, j.base);
    UpperSizes(c);
    UpperSome(c);
    OutputsTwo(Upper(c), [BottomEntry(c)], Olds(c) + 1, j.base, 1, gs, c.sizes.growing);
    RunsTwo(DeepOuts(c)[0], DeepOuts(c)[1]);
  }

  lemma UpperSome(c: Case)
    ensures |Upper(c)| == 4
  {
  }

  lemma NothingToPass(input: seq<Entry>)
    ensures NonePassed([], input)
  {
  }

  lemma DeepInstalled(s: State, c: Case) returns (t: State)
    requires CaseOk(c) && !c.tail && Reachable(s) && s.job.Some? && s.sizes == c.sizes && AllSorted(s.levels) && s.levels == Split(c)
    requires s.job.value == Job(1, [UpperFile(c)], [Bottom(c)], Split(c), Olds(c) + 1, {16, 17})
    ensures StepOk(s, Install(DeepInput(c), DeepOuts(c)), t) && Reachable(t)
    ensures t == s.(levels := Split(c)[1 := [LowerFile(c)]][2 := DeepOuts(c)], job := None, floor := t.floor)
  {
    hide Reachable, StepOk, OutputsWritten, Run, FilesOk, DistinctNumbers, SortedBySmallest, TableSizes, Upper, Lower, Held, Content;
    DeepSorted(c);
    DeepWritten(s, c, s.job.value);
    UpperRange(c);
    assert SortedBySmallest([LowerFile(c)]) by { OneSorted(LowerFile(c)); }
    assert s.levels[1] == [UpperFile(c), LowerFile(c)] && s.levels[2] == [Bottom(c)];
    t := InstallFiles(s, DeepInput(c), DeepOuts(c), [LowerFile(c)], DeepOuts(c));
  }

  lemma OneSorted(f: File)
    ensures SortedBySmallest([f])
  {
  }

  /**
   Level 1 is over its budget, and the file with the newer half of K is merged with a file
   of level 2 too large for the older half to come along: that is read from level 1.
   */
  lemma MergeGoesBack(c: Case) returns (s: State, step: Step, t: State)
    requires CaseOk(c) && !c.tail && |c.big| >= 10 * MB && |c.bottom| >= 40 * MB
    ensures Reachable(s) && step.Install? && StepOk(s, step, t) && Reachable(t) && OldVersionRead(t, c)
  {
    hide Reachable, StepOk, OldVersionRead, TableSizes, Writes, Bottom, LowerFile, UpperFile, Due, PickedFrom, IsTrivialMove, LastKey;
    var s0 := SplitReached(c);
    UpperDue(c, s0.pointers);
    UpperMerges(c);
    s := BeginTwo(s0, UpperFile(c), 1, [UpperFile(c)], [Bottom(c)]);
    step := Install(DeepInput(c), DeepOuts(c));
    t := DeepInstalled(s, c);
    OldHalfRead(t, c);
  }

  // ----------------------------------------------------- a merge that brings K back

  /** J is written again and again. */
  function JEntry(i: nat): Entry
    requires i < 4
  {
    Entry(J, 8 + i, Value, [])
  }

  function JFile(c: Case, i: nat): File
    requires i < 4
  {
    TableOf(17 + 2 * i, [JEntry(i)], c.sizes)
  }

  /** The newest first. */
  function JFiles(c: Case, n: nat): seq<File>
    requires n <= 4
  {
    seq(n, i requires 0 <= i < n => JFile(c, n - 1 - i))
  }

  function JEntries(n: nat): seq<Entry>
    requires n <= 4
  {
    seq(n, i requires 0 <= i < n => JEntry(i))
  }

  lemma JHead(c: Case, n: nat)
    requires 0 < n <= 4
    ensures JFiles(c, n) == [JFile(c, n - 1)] + JFiles(c, n - 1)
    ensures JFile(c, n - 1).smallest.key == J && JFile(c, n - 1).largest.key == J && JFile(c, n - 1) in JFiles(c, n)
  {
    assert JFiles(c, n)[0] == JFile(c, n - 1);
  }

  lemma JFilesSorted(c: Case, n: nat)
    requires n <= 4
    ensures SortedBySmallest(JFiles(c, n))
  {
    var fs := JFiles(c, n);
    forall i, j | 0 <= i < j < |fs| ensures SmallestLess(fs[i], fs[j]) {
      assert fs[i] == JFile(c, n - 1 - i) && fs[j] == JFile(c, n - 1 - j);
    }
  }

  lemma {:induction false} JsReached(c: Case, n: nat) returns (s: State)
    requires CaseOk(c) && c.tail && n <= 4
    ensures Stage(s, c, Split(c)[0 := JFiles(c, n)], Writes(c) + JEntries(n), 16 + 2 * n, [])
    ensures s.pointers.Keys == {0} && s.pointers[0].key == Z
    decreases n
  {
    hide Reachable, TableSizes, FlushLevel, SortedBySmallest, Upper, Lower, Bottom, StepOk, JFiles;
    if n == 0 {
      var s0 := SplitReached(c);
      s := Released(s0, c);
    } else {
      var s1 := JsReached(c, n - 1);
      var ops := [Put(J, [])];
      assert |s1.writes| == 6 + n by { WritesLength(c); }
      assert Numbered(|s1.writes|, ops) == [JEntry(n - 1)];
      assert FlushOf(s1, ops) == JFile(c, n - 1);
      if n == 1 {
        UpperRange(c);
        assert UpperFile(c) in s1.levels[1];
        AboveOneLevel(s1.levels, UpperFile(c), J, J);
      } else {
        JHead(c, n - 1);
        AboveZeroLevel(s1.levels, JFile(c, n - 2), J, J);
      }
      JHead(c, n);
      JFilesSorted(c, n);
      FlushToZero(s1, ops, JFiles(c, n));
      s := Flushed(s1, ops, s1.levels[0 := JFiles(c, n)]);
      assert s.levels == Split(c)[0 := JFiles(c, n)];
      assert JEntries(n - 1) + [JEntry(n - 1)] == JEntries(n);
    }
  }

  lemma WritesLength(c: Case)
    ensures |Writes(c)| == Olds(c) + 4
  {
  }

  /** The snapshot is released. */
  lemma Released(s: State, c: Case) returns (t: State)
    requires c.tail && Stage(s, c, Split(c), Writes(c), 16, [Olds(c) + 1]) && s.pointers.Keys == {0} && s.pointers[0].key == First(c).largest.key
    ensures Stage(t, c, Split(c)[0 := JFiles(c, 0)], Writes(c) + JEntries(0), 16, [])
    ensures t.pointers.Keys == {0} && t.pointers[0].key == Z
  {
    hide Reachable, Upper, Lower, Bottom, SortedBySmallest;
    t := s.(snapshots := []);
    assert s.snapshots[..0] + s.snapshots[1..] == [];
    ReachStep(s, ReleaseSnapshot(0), t);
    assert JFiles(c, 0) == [] && Split(c)[0 := []] == Split(c) && Writes(c) + JEntries(0) == Writes(c);
    assert First(c).largest.key == Z by { FirstRange(c); }
  }

  lemma FirstRange(c: Case)
    requires c.tail
    ensures First(c).largest.key == Z
  {
  }

  function JLevels(c: Case): seq<seq<File>> { Split(c)[0 := JFiles(c, 4)] }

  lemma JsDue(c: Case, pointers: map<nat, Entry>)
    requires CaseOk(c) && |c.big| <= 4 * MB && pointers.Keys == {0} && pointers[0].key == Z
    ensures Due(JLevels(c), pointers, BySize, 0, JFile(c, 3))
  {
    hide TableSizes, Due, Upper, Lower;
    BottomSize(c);
    UpperSizes(c);
    LowerSizes(c);
    TotalTwo(UpperFile(c), LowerFile(c));
    TotalOne(Bottom(c));
    var fs := JFiles(c, 4);
    assert fs[0] == JFile(c, 3) && fs[0] in fs && JLevels(c)[0] == fs;
    ZeroIsDue(JLevels(c), pointers, JFile(c, 3));
  }

  lemma JsRange(c: Case)
    ensures RangeLo(JFiles(c, 4)) == J && RangeHi(JFiles(c, 4)) == J
    ensures forall f | f in JFiles(c, 4) :: f.smallest.key == J && f.largest.key == J
    ensures JFile(c, 3) in JFiles(c, 4) && |JFiles(c, 4)| == 4
  {
    var fs := JFiles(c, 4);
    assert fs[0] == JFile(c, 3) && fs[0] in fs;
    forall f | f in fs ensures f.smallest.key == J && f.largest.key == J {
      var i :| 0 <= i < 4 && fs[i] == f;
    }
  }

  lemma JsGood(c: Case)
    requires c.tail
    ensures Picked(JLevels(c), 0, JFiles(c, 4), [UpperFile(c)])
  {
    hide Picked, Upper, Lower, UpperFile, LowerFile, RangeLo, RangeHi, JFiles, JFile;
    var levels, fs, x, y := JLevels(c), JFiles(c, 4), UpperFile(c), LowerFile(c);
    UpperRange(c);
    JsRange(c);
    assert levels[0] == fs && levels[1] == [x, y] && x in [x] && x in levels[1] && x in fs + [x];
    CoveredPick(levels, 0, fs, [x], x);
  }

  lemma JsParents(c: Case)
    ensures JFiles(c, 4) != [] && Parents(JLevels(c), 0, JFiles(c, 4)) == [UpperFile(c)]
  {
    hide Upper, Lower, UpperFile, LowerFile, RangeLo, RangeHi, JFiles, JFile;
    UpperRange(c);
    JsRange(c);
    LowerOrdered(c);
    assert JLevels(c)[1] == [UpperFile(c), LowerFile(c)];
    OneSelected([UpperFile(c), LowerFile(c)], UpperFile(c), J, J);
  }

  lemma JsPicked(c: Case)
    requires c.tail
    ensures PickedFrom(JLevels(c), 0, JFile(c, 3), JFiles(c, 4), [UpperFile(c)])
    ensures !IsTrivialMove(JLevels(c), 0, JFiles(c, 4), [UpperFile(c)])
  {
    hide Picked, Upper, Lower, UpperFile, LowerFile, RangeLo, RangeHi, JFiles, JFile, Overlapping, Parents, Selected;
    var levels, fs, x := JLevels(c), JFiles(c, 4), UpperFile(c);
    JsGood(c);
    JsParents(c);
    UpperRange(c);
    JsRange(c);
    assert levels[0] == fs;
    JsRangeAll(fs, x, fs + [x]);
    TakenTogether(fs, J, J, JFile(c, 3));
    TakenTogether(fs, J, K, JFile(c, 3));
    InputsAre(levels, 0, fs, fs, fs, [x]);
    assert StartSetOf(levels, 0, JFile(c, 3), fs);
  }

  lemma LowerOrdered(c: Case)
    ensures LowerFile(c).smallest.key <= LowerFile(c).largest.key
  {
  }

  lemma JsRangeAll(fs: seq<File>, x: File, all: seq<File>)
    requires all == fs + [x] && fs != [] && x.smallest.key == J && x.largest.key == K
    requires forall f | f in fs :: f.smallest.key == J && f.largest.key == J
    ensures RangeLo(all) == J && RangeHi(all) == K
  {
    hide RangeLo, RangeHi;
    assert x in all;
  }

  /** The newest J, the three before it, and the file with the newer half of K. */
  function BackInput(c: Case): seq<Entry> {
    [JEntry(3), JEntry(2), JEntry(1), JEntry(0)] + Upper(c)
  }

  function BackOut(c: Case): File { TableOf(24, [JEntry(3)], c.sizes) }

  lemma KNotBelow(c: Case, base: seq<seq<File>>)
    requires c.tail && base == JLevels(c)
    ensures !CoveredBelow(base, 0, K)
  {
    hide Upper, Lower, UpperFile, LowerFile, JFiles;
    assert base[2] == [Bottom(c)] && forall l | 3 <= l < NUM_LEVELS :: base[l] == [];
    assert Bottom(c).smallest.key == Z;
  }

  lemma OnlyFirstSurvives(c: Case, base: seq<seq<File>>)
    requires c.tail && c.kind.Deletion? && base == JLevels(c)
    ensures Survives(BackInput(c), 0, 11, base, 0) && forall i | 0 < i < |BackInput(c)| :: !Survives(BackInput(c), i, 11, base, 0)
  {
    hide JLevels, CoveredBelow;
    KNotBelow(c, base);
    var input := BackInput(c);
    assert |input| == 8;
    forall i | 0 < i < |input| ensures !Survives(input, i, 11, base, 0) {
      if i <= 5 {
        assert input[i].key == input[0].key && input[0].sn <= 11;
        assert Hidden(input, i, 11);
      } else if i == 6 {
        assert input[6] == NewestEntry(c);
        assert ObsoleteMarker(input[6], 11, base, 0);
      } else {
        assert input[7].key == input[6].key && input[6].sn <= 11;
        assert Hidden(input, 7, 11);
      }
    }
    assert !Hidden(input, 0, 11);
  }

  lemma BackSorted(c: Case)
    requires c.tail
    ensures Run(BackInput(c)) && FilesOk([BackOut(c)]) && DistinctNumbers([BackOut(c)]) && SortedBySmallest([BackOut(c), LowerFile(c)])
  {
  }

  lemma HeldCons(f: File, fs: seq<File>)
    ensures Held([f] + fs) == Content(f.entries) + Held(fs)
  {
    assert f in [f] + fs && forall g | g in fs :: g in [f] + fs;
  }

  lemma {:induction false} JsHeld(c: Case, n: nat)
    requires n <= 4
    ensures Held(JFiles(c, n)) == Content(JEntries(n))
  {
    if n > 0 {
      hide JFiles;
      JHead(c, n);
      HeldCons(JFile(c, n - 1), JFiles(c, n - 1));
      JsHeld(c, n - 1);
      assert JEntries(n) == JEntries(n - 1) + [JEntry(n - 1)];
    }
  }

  lemma BackContent(c: Case)
    ensures Content(BackInput(c)) == Held(JFiles(c, 4)) + Held([UpperFile(c)])
  {
    hide Upper, JFiles;
    HeldOne(UpperFile(c));
    JsHeld(c, 4);
    var js, up := JEntries(4), [JEntry(3), JEntry(2), JEntry(1), JEntry(0)];
    assert js == [JEntry(0), JEntry(1), JEntry(2), JEntry(3)];
    assert forall e :: e in js <==> e in up;
    assert BackInput(c) == up + Upper(c);
  }

  lemma BackWritten(s: State, c: Case, j: Job)
    requires CaseOk(c) && c.tail && c.kind.Deletion? && s.sizes == c.sizes
    requires j.base == JLevels(c) && j.in0 == JFiles(c, 4) && j.in1 == [UpperFile(c)] && j.level == 0 && j.smallest == 11
    ensures OutputsWritten(s, j, BackInput(c), [BackOut(c)])
  {
    hide Outputs, Runs, Upper, NonePassed, JFiles, RangeLo, RangeHi, Survives, TableSizes;
    JsRange(c);
    UpperRange(c);
    JsRangeAll(JFiles(c, 4), UpperFile(c), j.in0 + j.in1);
    var gs := Grandparents(j.base, 0, j.in0 + j.in1);
    assert gs == [] by { NoneSelected([Bottom(c)], J, K); }
    assert NonePassed(gs, BackInput(c)) by { NothingToPass(BackInput(c)); }
    OnlyFirstSurvives(c, j.base);
    JIsSmall(c);
    OutputsOne(BackInput(c), 11, j.base, 0, gs, c.sizes.growing);
    RunsOne(BackOut(c));
  }

  lemma JIsSmall(c: Case)
    requires CaseOk(c)
    ensures c.sizes.growing([JEntry(3)]) < TARGET_FILE_SIZE
  {
    var es := [JEntry(3)];
    assert OurKeys(es) && es[..0] == [] && Payload(es) == 0;
  }

  lemma BackInstalled(s: State, c: Case) returns (t: State)
    requires CaseOk(c) && c.tail && c.kind.Deletion? && Reachable(s) && s.job.Some? && s.sizes == c.sizes && AllSorted(s.levels)
    requires s.levels == JLevels(c) && s.job.value == Job(0, JFiles(c, 4), [UpperFile(c)], JLevels(c), 11, {24})
    ensures StepOk(s, Install(BackInput(c), [BackOut(c)]), t) && Reachable(t)
    ensures t == s.(levels := JLevels(c)[0 := []][1 := [BackOut(c), LowerFile(c)]], job := None, floor := t.floor)
  {
    hide Reachable, StepOk, OutputsWritten, Run, FilesOk, DistinctNumbers, SortedBySmallest, TableSizes, Upper, Lower, Held, Content, JFiles;
    JsRange(c);
    BackSorted(c);
    BackContent(c);
    BackWritten(s, c, s.job.value);
    UpperRange(c);
    assert SortedBySmallest([]) by { NoneSorted(); }
    assert s.levels[0] == JFiles(c, 4) && s.levels[1] == [UpperFile(c), LowerFile(c)];
    t := InstallFiles(s, BackInput(c), [BackOut(c)], [], [BackOut(c), LowerFile(c)]);
  }

  lemma BackRead(t: State, c: Case)
    requires c.tail && c.kind.Deletion? && Quiet(t) && |t.levels| == NUM_LEVELS && t.levels[0] == []
    requires t.levels[1] == [BackOut(c), LowerFile(c)] && t.writes == Writes(c) + JEntries(4)
    ensures OldVersionRead(t, c)
  {
    hide Search, LowerFile;
    var fs, q := t.levels[1], |t.writes|;
    WritesLength(c);
    assert fs[1..] == [LowerFile(c)] && q == 11;
    LowerFound(c, q);
    assert SearchLevel(fs, K, q) == Some(Entry(K, 3, Value, c.older)) by { SecondFile(fs[0], LowerFile(c), q); }
    FoundAtOne(t, K, q, Entry(K, 3, Value, c.older));
    assert t.writes[..q] == t.writes;
    ReplayLast(t.writes, 5, K);
  }

  lemma SecondFile(o: File, y: File, q: nat)
    requires o.largest.key < K
    ensures SearchLevel([o, y], K, q) == SearchLevel([y], K, q)
  {
    assert [o, y][1..] == [y];
  }

  lemma FourJs()
    ensures |JEntries(4)| == 4
  {
  }

  /**
   The snapshot is gone, and four more memtables of level 0 reach only the file with the
   deletion of K: the marker is dropped, since no deeper level has K, and the version it
   deleted, in the next file of the same level, is back.
   */
  lemma MergeResurrects(c: Case) returns (s: State, step: Step, t: State)
    requires CaseOk(c) && c.tail && c.kind.Deletion? && |c.big| <= 4 * MB
    ensures Reachable(s) && step.Install? && StepOk(s, step, t) && Reachable(t) && OldVersionRead(t, c)
  {
    hide Reachable, StepOk, OldVersionRead, TableSizes, Writes, Bottom, LowerFile, UpperFile, Due, PickedFrom, IsTrivialMove, LastKey, JFiles, JEntries;
    var s0 := JsReached(c, 4);
    JsDue(c, s0.pointers);
    JsPicked(c);
    s := BeginOne(s0, JFile(c, 3), 0, JFiles(c, 4), [UpperFile(c)]);
    step := Install(BackInput(c), [BackOut(c)]);
    assert s0.lastSequence == 11 by { WritesLength(c); FourJs(); }
    t := BackInstalled(s, c);
    BackRead(t, c);
  }
}
