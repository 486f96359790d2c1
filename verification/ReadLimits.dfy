/**
 When a compaction or a trivial move changes what clients read. The picker may cut a user
 key in two: with snapshots alive, two entries of one key can sit in neighbouring files of
 a level. Moving the newer one down alone uncovers the older one; and dropping a deletion
 marker uncovers what a file left behind at the output level still holds of its key.
 */
module ReadLimits {
  import opened Entries
  import opened Versions
  import opened Picking
  import opened VersionOrder
  import opened Swaps
  import opened Compactions
  import opened Engine
  import opened EngineSafety
  import opened EngineJobs
  import opened EngineRuns

  /** The entries of the files that stay at level `l`. */
  ghost function StayingAt(levels: seq<seq<File>>, level: int, in0: seq<File>, in1: seq<File>, l: int): set<Entry> {
    if l < 0 || l >= |levels| then {} else
    set f, e | f in levels[l] && !IsInput(level, in0, in1, l, f) && e in f.entries :: e
  }

  // --------------------------------------------------- searching after a swap

  ghost predicate Searchable(levels: seq<seq<File>>) {
    Shaped(levels) && LevelsApart(levels) && ZeroAged(levels)
  }

  /** The search passes over levels that hold nothing visible. */
  lemma {:induction false} SearchReaches(levels: seq<seq<File>>, l: nat, from: nat, k: Key, q: nat)
    requires Searchable(levels) && from <= l <= NUM_LEVELS
    requires forall m | from <= m < l :: NoneVisible(Held(levels[m]), k, q)
    ensures SearchFrom(levels, from, k, q) == SearchFrom(levels, l, k, q)
    decreases l - from
  {
    if from < l {
      LevelRight(levels, from, k, q);
      SearchReaches(levels, l, from + 1, k, q);
    }
  }

  /** The first level that holds anything visible decides. */
  lemma FirstLevelDecides(levels: seq<seq<File>>, l: nat, k: Key, q: nat, e: Entry)
    requires Searchable(levels) && l < NUM_LEVELS
    requires forall m | 0 <= m < l :: NoneVisible(Held(levels[m]), k, q)
    requires Unambiguous(Held(levels[l])) && IsNewest(Held(levels[l]), k, q, e)
    ensures SearchFrom(levels, 0, k, q) == Some(e)
  {
    SearchReaches(levels, l, 0, k, q);
    LevelRight(levels, l, k, q);
    RightIsNewest(Held(levels[l]), k, q, if l == 0 then SearchLevel0(levels[0], k, q) else SearchLevel(levels[l], k, q));
    NewestIs(Held(levels[l]), k, q, e);
  }

  lemma NoLevelDecides(levels: seq<seq<File>>, k: Key, q: nat)
    requires Searchable(levels) && forall m | 0 <= m < NUM_LEVELS :: NoneVisible(Held(levels[m]), k, q)
    ensures SearchFrom(levels, 0, k, q) == None
  {
    SearchReaches(levels, NUM_LEVELS, 0, k, q);
  }

  lemma SwapHeld(levels: seq<seq<File>>, level: int, in0: seq<File>, in1: seq<File>, outs: seq<File>,
                 levels': seq<seq<File>>, l: nat)
    requires Swapped(levels, level, in0, in1, outs, levels') && l < |levels|
    ensures Held(levels'[l]) == StayingAt(levels, level, in0, in1, l) + (if l == level + 1 then Held(outs) else {})
  {
    var now, was := Held(levels'[l]), StayingAt(levels, level, in0, in1, l);
    forall e ensures e in now <==> e in was || (l == level + 1 && e in Held(outs)) {
      if e in now {
        var f :| f in levels'[l] && e in f.entries;
        assert Placed(levels', l, f);
        assert Stays(levels, level, in0, in1, l, f) || (l == level + 1 && f in outs);
      }
      if e in was {
        var f :| f in levels[l] && !IsInput(level, in0, in1, l, f) && e in f.entries;
        assert Stays(levels, level, in0, in1, l, f);
        assert Placed(levels', l, f);
      }
      if l == level + 1 && e in Held(outs) {
        var f :| f in outs && e in f.entries;
        assert Placed(levels', l, f);
      }
    }
  }

  lemma StayingOnDisk(levels: seq<seq<File>>, level: int, in0: seq<File>, in1: seq<File>, l: nat)
    requires l < |levels|
    ensures StayingAt(levels, level, in0, in1, l) <= Held(levels[l]) <= Disk(levels)
    ensures l != level && l != level + 1 ==> StayingAt(levels, level, in0, in1, l) == Held(levels[l])
  {
    forall e | e in Held(levels[l]) ensures e in Disk(levels) {
      var f :| f in levels[l] && e in f.entries;
      assert Placed(levels, l, f);
      InDisk(levels, e);
    }
  }

  /** Above the file that holds the newest visible entry nothing is visible. */
  lemma NothingAbove(levels: seq<seq<File>>, m: nat, y: File, k: Key, q: nat, e: Entry)
    requires AgeOrdered(levels) && Placed(levels, m, y) && e in y.entries && IsNewest(Disk(levels), k, q, e)
    ensures forall l | 0 <= l < m :: NoneVisible(Held(levels[l]), k, q)
  {
    forall l, x | 0 <= l < m && x in Held(levels[l]) ensures !(x.key == k && x.sn <= q) {
      var f :| f in levels[l] && x in f.entries;
      assert Placed(levels, l, f) && NewerFile(f, y);
      InDisk(levels, x);
    }
  }

  /** What the levels show after a swap, in terms of what they held before. */
  ghost predicate HeldAfter(levels: seq<seq<File>>, level: nat, in0: seq<File>, in1: seq<File>, out: set<Entry>, levels': seq<seq<File>>) {
    && |levels| == |levels'| == NUM_LEVELS && level + 1 < NUM_LEVELS && out <= Held(in0) + Held(in1)
    && (forall l | 0 <= l < NUM_LEVELS ::
          Held(levels'[l]) == StayingAt(levels, level, in0, in1, l) + (if l == level + 1 then out else {}))
    && (forall l | 0 <= l < NUM_LEVELS :: StayingAt(levels, level, in0, in1, l) <= Held(levels[l]) <= Disk(levels))
    && (forall l | 0 <= l < NUM_LEVELS && l != level && l != level + 1 :: StayingAt(levels, level, in0, in1, l) == Held(levels[l]))
    && Held(in0) <= Held(levels[level]) && Held(in1) <= Held(levels[level + 1])
  }

  lemma SwapHeldAfter(levels: seq<seq<File>>, level: nat, in0: seq<File>, in1: seq<File>, outs: seq<File>, levels': seq<seq<File>>)
    requires |levels| == NUM_LEVELS && InputsPlaced(levels, level, in0, in1) && Swapped(levels, level, in0, in1, outs, levels')
    requires Held(outs) <= Held(in0) + Held(in1)
    ensures HeldAfter(levels, level, in0, in1, Held(outs), levels')
  {
    hide Swapped;
    assert level + 1 < NUM_LEVELS && |levels'| == NUM_LEVELS by { SwapSize(levels, level, in0, in1, outs, levels'); }
    forall l | 0 <= l < NUM_LEVELS
      ensures Held(levels'[l]) == StayingAt(levels, level, in0, in1, l) + (if l == level + 1 then Held(outs) else {})
    {
      SwapHeld(levels, level, in0, in1, outs, levels', l);
    }
    forall l | 0 <= l < NUM_LEVELS ensures StayingAt(levels, level, in0, in1, l) <= Held(levels[l]) <= Disk(levels)
      ensures l != level && l != level + 1 ==> StayingAt(levels, level, in0, in1, l) == Held(levels[l])
    {
      StayingOnDisk(levels, level, in0, in1, l);
    }
    forall f | f in in0 ensures f in levels[level] { assert IsInput(level, in0, in1, level, f); }
    forall f | f in in1 ensures f in levels[level + 1] { assert IsInput(level, in0, in1, level + 1, f); }
  }

  lemma SwapSize(levels: seq<seq<File>>, level: int, in0: seq<File>, in1: seq<File>, outs: seq<File>, levels': seq<seq<File>>)
    requires Swapped(levels, level, in0, in1, outs, levels')
    ensures |levels'| == |levels| && 0 <= level + 1 < |levels|
  {
  }

  /** The newest visible entry is in a file that stays: it is still found. */
  lemma StayingIsFound(levels: seq<seq<File>>, level: nat, in0: seq<File>, in1: seq<File>, out: set<Entry>, levels': seq<seq<File>>,
                       m: nat, k: Key, q: nat, e: Entry)
    requires HeldAfter(levels, level, in0, in1, out, levels') && Searchable(levels') && Unambiguous(Disk(levels))
    requires m < NUM_LEVELS && e in StayingAt(levels, level, in0, in1, m) && IsNewest(Disk(levels), k, q, e)
    requires forall l | 0 <= l < m :: NoneVisible(Held(levels[l]), k, q)
    ensures SearchFrom(levels', 0, k, q) == Some(e)
  {
    hide StayingAt, Disk, Searchable, Held;
    forall l | 0 <= l < m ensures NoneVisible(Held(levels'[l]), k, q) {
      assert Held(levels'[l]) <= Held(levels[l]) + (if l == level + 1 then Held(levels[level]) + Held(levels[level + 1]) else {});
    }
    assert Held(levels'[m]) <= Disk(levels);
    FirstLevelDecides(levels', m, k, q, e);
  }

  /** The newest visible entry is in an input: its level, then the output level, then the deeper ones decide. */
  lemma InputIsFound(levels: seq<seq<File>>, level: nat, in0: seq<File>, in1: seq<File>, out: set<Entry>, levels': seq<seq<File>>,
                     k: Key, q: nat, e: Entry)
    requires HeldAfter(levels, level, in0, in1, out, levels') && Searchable(levels') && Unambiguous(Disk(levels))
    requires IsNewest(Disk(levels), k, q, e)
    requires forall l | 0 <= l < level :: NoneVisible(Held(levels[l]), k, q)
    requires e !in out ==> NoneVisible(out, k, q) && forall l | level + 2 <= l < NUM_LEVELS :: NoneVisible(Held(levels[l]), k, q)
    ensures SearchFrom(levels', 0, k, q)
         == OrElse(Newest(StayingAt(levels, level, in0, in1, level), k, q),
                   if e in out then Some(e) else Newest(StayingAt(levels, level, in0, in1, level + 1), k, q))
  {
    hide StayingAt, Disk, Searchable, Held;
    var above, beside := StayingAt(levels, level, in0, in1, level), StayingAt(levels, level, in0, in1, level + 1);
    assert Held(levels'[level]) == above && Held(levels'[level + 1]) == beside + out;
    assert above <= Disk(levels) && beside + out <= Disk(levels);
    var x := Newest(above, k, q);
    if x.Some? {
      FirstLevelDecides(levels', level, k, q, x.value);
    } else if e in out {
      FirstLevelDecides(levels', level + 1, k, q, e);
    } else {
      var y := Newest(beside, k, q);
      if y.Some? {
        FirstLevelDecides(levels', level + 1, k, q, y.value);
      } else {
        NoLevelDecides(levels', k, q);
      }
    }
  }

  /** The search after a swap, whatever the swap cut in two. */
  lemma SwapSearch(levels: seq<seq<File>>, level: nat, in0: seq<File>, in1: seq<File>, outs: seq<File>, levels': seq<seq<File>>,
                   k: Key, q: nat, e: Entry)
    requires |levels| == NUM_LEVELS && AgeOrdered(levels) && Unambiguous(Disk(levels)) && InputsPlaced(levels, level, in0, in1)
    requires Swapped(levels, level, in0, in1, outs, levels') && Searchable(levels')
    requires Held(outs) <= Held(in0) + Held(in1) && IsNewest(Disk(levels), k, q, e)
    requires e in Held(in0) + Held(in1) && e !in Held(outs) ==>
               NoneVisible(Held(outs), k, q) && forall l | level + 2 <= l < NUM_LEVELS :: NoneVisible(Held(levels[l]), k, q)
    requires level + 1 < NUM_LEVELS
    ensures SearchFrom(levels', 0, k, q)
         == if e !in Held(in0) + Held(in1) then Some(e)
            else OrElse(Newest(StayingAt(levels, level, in0, in1, level), k, q),
                        if e in Held(outs) then Some(e) else Newest(StayingAt(levels, level, in0, in1, level + 1), k, q))
  {
    SwapHeldAfter(levels, level, in0, in1, outs, levels');
    if e !in Held(in0) + Held(in1) {
      InDisk(levels, e);
      var m, y :| Placed(levels, m, y) && e in y.entries;
      NothingAbove(levels, m, y, k, q, e);
      assert e in StayingAt(levels, level, in0, in1, m);
      StayingIsFound(levels, level, in0, in1, Held(outs), levels', m, k, q, e);
    } else {
      var y, m := InputOf(levels, level, in0, in1, e);
      NothingAbove(levels, m, y, k, q, e);
      InputIsFound(levels, level, in0, in1, Held(outs), levels', k, q, e);
    }
  }

  lemma InputOf(levels: seq<seq<File>>, level: nat, in0: seq<File>, in1: seq<File>, e: Entry) returns (y: File, m: nat)
    requires InputsPlaced(levels, level, in0, in1) && e in Held(in0) + Held(in1)
    ensures e in y.entries && Placed(levels, m, y) && level <= m
  {
    if e in Held(in0) {
      y :| y in in0 && e in y.entries;
      m := level;
    } else {
      y :| y in in1 && e in y.entries;
      m := level + 1;
    }
    assert IsInput(level, in0, in1, m, y);
  }

  // --------------------------------------------------------- what can go wrong

  /** A file that stays at the inputs' level now hides `e` behind an older entry of its key. */
  ghost predicate Overtaken(levels: seq<seq<File>>, level: nat, in0: seq<File>, in1: seq<File>, k: Key, q: nat, e: Entry) {
    exists x :: IsNewest(StayingAt(levels, level, in0, in1, level), k, q, x) && !(e.kind.Deletion? && x.kind.Deletion?)
  }

  /** A file that stays at the output level still holds a value of a key whose marker was dropped. */
  ghost predicate Uncovered(levels: seq<seq<File>>, level: nat, in0: seq<File>, in1: seq<File>, k: Key, q: nat) {
    && NoneVisible(StayingAt(levels, level, in0, in1, level), k, q)
    && exists x :: IsNewest(StayingAt(levels, level, in0, in1, level + 1), k, q, x) && x.kind.Value?
  }

  /** The entry a client must see at (k, q) is in the moved file, and the move would hide it. */
  ghost predicate MoveExposes(s: State, level: nat, f: File, k: Key, q: nat) {
    exists e :: e in f.entries && IsNewest(Stored(s), k, q, e) && Overtaken(s.levels, level, [f], [], k, q, e)
  }

  /** The merge hides `e` from a reader at (k, q), or drops it although its key goes on beside the outputs. */
  ghost predicate Loses(levels: seq<seq<File>>, j: Job, k: Key, q: nat, e: Entry) {
    && e in Held(j.in0) + Held(j.in1)
    && (|| Overtaken(levels, j.level, j.in0, j.in1, k, q, e)
        || (ObsoleteMarker(e, j.smallest, j.base, j.level) && Uncovered(levels, j.level, j.in0, j.in1, k, q)))
  }

  /**
   The entry a client must see at (k, q) is in an input, and installing the outputs would
   hide it, or it is a marker that is dropped although a staying file holds its key.
   */
  ghost predicate InstallExposes(s: State, k: Key, q: nat) {
    s.job.Some? && exists e :: IsNewest(Stored(s), k, q, e) && Loses(s.levels, s.job.value, k, q, e)
  }

  lemma AnswersDiffer(S: set<Entry>, k: Key, q: nat, e: Entry, x: Entry)
    requires Unambiguous(S) && e in S && x in S && e.key == x.key && e != x
    ensures AnswerOf(Some(e)) == AnswerOf(Some(x)) <==> e.kind.Deletion? && x.kind.Deletion?
  {
  }

  /** One read, before and after a swap, when its entry is in an input. */
  lemma OutcomeIff(levels: seq<seq<File>>, level: nat, in0: seq<File>, in1: seq<File>, k: Key, q: nat, e: Entry, kept: bool)
    requires level + 1 < |levels| == NUM_LEVELS && Unambiguous(Disk(levels)) && IsNewest(Disk(levels), k, q, e)
    requires e !in StayingAt(levels, level, in0, in1, level) && (!kept ==> e.kind.Deletion?)
    ensures var r := OrElse(Newest(StayingAt(levels, level, in0, in1, level), k, q),
                            if kept then Some(e) else Newest(StayingAt(levels, level, in0, in1, level + 1), k, q));
            AnswerOf(r) == AnswerOf(Some(e)) <==>
              !Overtaken(levels, level, in0, in1, k, q, e) && (kept || !Uncovered(levels, level, in0, in1, k, q))
  {
    StayingOnDisk(levels, level, in0, in1, level);
    StayingOnDisk(levels, level, in0, in1, level + 1);
    var above, beside := StayingAt(levels, level, in0, in1, level), StayingAt(levels, level, in0, in1, level + 1);
    hide StayingAt, Disk;
    var x := Newest(above, k, q);
    if x.Some? {
      AnswersDiffer(Disk(levels), k, q, e, x.value);
      forall y | IsNewest(above, k, q, y) ensures y == x.value { NewestIs(above, k, q, y); }
    } else if !kept {
      var z := Newest(beside, k, q);
      forall y | IsNewest(beside, k, q, y) ensures z == Some(y) { NewestIs(beside, k, q, y); }
    }
  }

  /** An input's entry is in no file that stays at the inputs' level. */
  lemma InputNotStaying(levels: seq<seq<File>>, level: nat, in0: seq<File>, in1: seq<File>, e: Entry)
    requires Shaped(levels) && AgeOrdered(levels) && LevelsApart(levels) && level + 1 < NUM_LEVELS
    requires InputsPlaced(levels, level, in0, in1) && e in Held(in0) + Held(in1)
    ensures e !in StayingAt(levels, level, in0, in1, level)
  {
    if e in StayingAt(levels, level, in0, in1, level) {
      var g :| g in levels[level] && !IsInput(level, in0, in1, level, g) && e in g.entries;
      assert Placed(levels, level, g);
      var m := if e in Held(in0) then level else level + 1;
      var y :| y in (if m == level then in0 else in1) && e in y.entries;
      assert IsInput(level, in0, in1, m, y) && Placed(levels, m, y);
      OnePlace(levels, level, g, m, y, e);
    }
  }

  lemma OnePlace(levels: seq<seq<File>>, l: nat, g: File, m: nat, y: File, e: Entry)
    requires Shaped(levels) && AgeOrdered(levels) && LevelsApart(levels) && l <= m
    requires Placed(levels, l, g) && Placed(levels, m, y) && e in g.entries && e in y.entries
    ensures l == m && g == y
  {
    WithinRange(g, e);
    WithinRange(y, e);
    assert l < m ==> NewerFile(g, y);
    assert l == m && g != y ==> g.number != y.number;
    assert l == m == 0 && g != y ==> NewerFile(g, y) || NewerFile(y, g);
    assert l == m > 0 && g != y ==> Apart(g, y);
  }

  // ------------------------------------------------------------ state to state

  /** With nothing visible in memory the disk decides. */
  lemma DiskDecides(s: State, k: Key, q: nat)
    requires MemoryOk(s) && VersionOk(s.levels)
    requires Probe(s.mem, k, q) == None && Probe(ImmEntries(s), k, q) == None
    ensures forall e :: IsNewest(Stored(s), k, q, e) <==> IsNewest(Disk(s.levels), k, q, e)
    ensures NoneVisible(Stored(s), k, q) <==> NoneVisible(Disk(s.levels), k, q)
  {
    hide Run, VersionOk, AllAbove, HistoryOk;
    ProbeRight(s.mem, k, q);
    ProbeRight(ImmEntries(s), k, q);
  }

  /** With something visible in memory, memory decides: the newest entry is not on disk. */
  lemma MemoryDecides(s: State, k: Key, q: nat, e: Entry)
    requires MemoryOk(s) && IsNewest(Stored(s), k, q, e)
    requires Probe(s.mem, k, q).Some? || Probe(ImmEntries(s), k, q).Some?
    ensures e !in Disk(s.levels)
  {
    ProbeRight(s.mem, k, q);
    ProbeRight(ImmEntries(s), k, q);
  }

  lemma DiskUnambiguous(s: State)
    requires MemoryOk(s)
    ensures Unambiguous(Stored(s)) && Unambiguous(Disk(s.levels))
  {
    HistoryUnambiguous(s.writes);
  }

  /** A search whose entry is not on disk, or that finds none at all, is not touched by a swap of files. */
  lemma UntouchedRead(s: State, s': State, k: Key, q: nat)
    requires MemoryOk(s) && VersionOk(s.levels) && Searchable(s'.levels) && s'.mem == s.mem && s'.imm == s.imm
    requires Disk(s'.levels) <= Disk(s.levels) && Probe(s.mem, k, q) == None && Probe(ImmEntries(s), k, q) == None
    requires Search(s, k, q) == None
    ensures Search(s', k, q) == None
  {
    SearchIsNewest(s, k, q);
    DiskDecides(s, k, q);
    forall l | 0 <= l < NUM_LEVELS ensures NoneVisible(Held(s'.levels[l]), k, q) {
      StayingOnDisk(s'.levels, 0, [], [], l);
    }
    NoLevelDecides(s'.levels, k, q);
  }

  /** The levels after a merge can be searched, even if they are no longer ordered by age. */
  lemma InstallSearchable(s: State, step: Step, s': State)
    requires Sound(s) && step.Install? && StepOk(s, step, s')
    ensures Searchable(s'.levels) && Held(step.outs) == Content(Survivors(step.input, s.job.value.smallest, s.job.value.base, s.job.value.level))
    ensures Held(step.outs) <= Held(s.job.value.in0) + Held(s.job.value.in1) && Disk(s'.levels) <= Disk(s.levels)
  {
    var j := s.job.value;
    JobFilesOk(s.levels, j.level, j.in0, j.in1);
    OutputsFromInputs(step.input, step.outs, j);
    OutputsFresh(s, step.outs);
    SwapSearchable(s.levels, j.level, j.in0, j.in1, step.outs, s'.levels);
  }

  lemma SwapSearchable(levels: seq<seq<File>>, level: nat, in0: seq<File>, in1: seq<File>, outs: seq<File>, levels': seq<seq<File>>)
    requires VersionOk(levels) && FilesOk(in0) && FilesOk(in1) && FreshFiles(levels, level, in0, in1, outs)
    requires InputsPlaced(levels, level, in0, in1) && OutputLevelClear(levels, level, in0, in1)
    requires Held(outs) <= Held(in0) + Held(in1) && Swapped(levels, level, in0, in1, outs, levels')
    requires forall i, j | 0 <= i < j < |outs| :: Before(outs[i].largest, outs[j].smallest)
    ensures Searchable(levels') && Disk(levels') <= Disk(levels)
  {
    SwapShaped(levels, level, in0, in1, outs, levels');
    OutputsApart(levels, level, in0, in1, outs);
    SwapApart(levels, level, in0, in1, outs, levels');
    InstallDisk(levels, level, in0, in1, outs, levels');
    forall a, b | Placed(levels', 0, a) && Placed(levels', 0, b) && a.number > b.number ensures NewerFile(a, b) {
      assert Stays(levels, level, in0, in1, 0, a) && Stays(levels, level, in0, in1, 0, b);
    }
  }

  /** A marker is dropped only when nothing of its key lies two levels or more below its own. */
  lemma NothingDeeper(levels: seq<seq<File>>, level: nat, in0: seq<File>, in1: seq<File>, base: seq<seq<File>>, k: Key, q: nat, e: Entry)
    requires Shaped(levels) && JobOk(levels, level, in0, in1, base) && FilesOk(in0) && FilesOk(in1)
    requires e in Held(in0) + Held(in1) && e.key == k && !CoveredBelow(base, level, k)
    ensures forall l | level + 2 <= l < NUM_LEVELS :: NoneVisible(Held(levels[l]), k, q)
  {
    forall l, x | level + 2 <= l < NUM_LEVELS && x in Held(levels[l]) ensures x.key != k {
      var f :| f in levels[l] && x in f.entries;
      assert Placed(levels, l, f) && FileOk(f);
      WithinRange(f, x);
      if x.key == k { RestIsCovered(level, in0, in1, base, l, f, e); }
    }
  }

  lemma MergeOutcome(levels: seq<seq<File>>, j: Job, input: seq<Entry>, out: set<Entry>, k: Key, q: nat, e: Entry)
    requires VersionOk(levels) && Unambiguous(Disk(levels)) && JobOk(levels, j.level, j.in0, j.in1, j.base)
    requires FilesOk(j.in0) && FilesOk(j.in1) && Run(input) && Content(input) == Held(j.in0) + Held(j.in1)
    requires out == Content(Survivors(input, j.smallest, j.base, j.level)) && q >= j.smallest
    requires IsNewest(Disk(levels), k, q, e) && e in Held(j.in0) + Held(j.in1)
    ensures e !in out ==> NoneVisible(out, k, q) && forall l | j.level + 2 <= l < NUM_LEVELS :: NoneVisible(Held(levels[l]), k, q)
    ensures var r := OrElse(Newest(StayingAt(levels, j.level, j.in0, j.in1, j.level), k, q),
                            if e in out then Some(e) else Newest(StayingAt(levels, j.level, j.in0, j.in1, j.level + 1), k, q));
            AnswerOf(r) == AnswerOf(Some(e)) <==> !Loses(levels, j, k, q, e)
  {
    hide Shaped, AgeOrdered, LevelsApart, FilesOk, Run, Survivors, Overtaken, Uncovered, Disk, StayingAt, Held,
         InputsPlaced, OutputLevelClear, NoGap, DeeperKnown, LevelsOk, Unambiguous, CoveredBelow;
    assert IsNewest(Content(input), k, q, e) by { InputsOnDisk(levels, j.level, j.in0, j.in1, k, q, e); }
    SurvivorsMeaning(input, j.smallest, j.base, j.level, k, q, e);
    if e !in out { NothingDeeper(levels, j.level, j.in0, j.in1, j.base, k, q, e); }
    VersionSize(levels);
    InputNotStaying(levels, j.level, j.in0, j.in1, e);
    OutcomeIff(levels, j.level, j.in0, j.in1, k, q, e, e in out);
  }

  lemma InstallDiskRead(s: State, step: Step, s': State, k: Key, q: nat, e: Entry)
    requires Sound(s) && step.Install? && StepOk(s, step, s') && q >= s.job.value.smallest
    requires IsNewest(Disk(s.levels), k, q, e)
    ensures AnswerOf(SearchFrom(s'.levels, 0, k, q)) == AnswerOf(Some(e)) <==> !Loses(s.levels, s.job.value, k, q, e)
  {
    hide MemoryOk, NumbersOk, ReadersOk, Faithful, Searchable, Swapped, FilesOk, Run, Survivors, Overtaken, Uncovered, Disk, StayingAt,
         Held, Shaped, AgeOrdered, LevelsApart, InputsPlaced, OutputLevelClear, NoGap, DeeperKnown, LevelsOk, Unambiguous,
         ObsoleteMarker, Flatten, SearchFrom, DistinctNumbers, StepOk;
    InstallIs(s, step, s');
    var j := s.job.value;
    InstallSearchable(s, step, s');
    DiskUnambiguous(s);
    assert FilesOk(j.in0) && FilesOk(j.in1) by { JobFilesOk(s.levels, j.level, j.in0, j.in1); }
    if e in Held(j.in0) + Held(j.in1) {
      MergeOutcome(s.levels, j, step.input, Held(step.outs), k, q, e);
    }
    assert |s.levels| == NUM_LEVELS by { VersionSize(s.levels); }
    SwapSearch(s.levels, j.level, j.in0, j.in1, step.outs, s'.levels, k, q, e);
  }

  lemma VersionSize(levels: seq<seq<File>>)
    requires Shaped(levels)
    ensures |levels| == NUM_LEVELS
  {
  }

  lemma InputsOnDisk(levels: seq<seq<File>>, level: nat, in0: seq<File>, in1: seq<File>, k: Key, q: nat, e: Entry)
    requires InputsPlaced(levels, level, in0, in1) && e in Held(in0) + Held(in1) && IsNewest(Disk(levels), k, q, e)
    ensures IsNewest(Held(in0) + Held(in1), k, q, e)
  {
    forall x | x in Held(in0) + Held(in1) ensures x in Disk(levels) { InputOnDisk(levels, level, in0, in1, x); }
  }

  /**
   Exactly when a merge changes a read: for every key and every number a live reader can
   use, the answer stays the same if and only if the merge does not expose the read.
   */
  lemma InstallReadIff(s: State, step: Step, s': State, k: Key, q: nat)
    requires Sound(s) && step.Install? && StepOk(s, step, s') && q >= s.job.value.smallest
    ensures AnswerOf(Search(s', k, q)) == AnswerOf(Search(s, k, q)) <==> !InstallExposes(s, k, q)
  {
    hide MemoryOk, VersionOk, NumbersOk, ReadersOk, Faithful, JobInv, Swapped, Loses, Disk, Searchable, Stored, SearchFrom,
         Run, Survivors, FilesOk, Flatten, DistinctNumbers, Held, Probe;
    SearchIsNewest(s, k, q);
    DiskUnambiguous(s);
    if Probe(s.mem, k, q).Some? || Probe(ImmEntries(s), k, q).Some? {
      forall e | IsNewest(Stored(s), k, q, e) ensures !Loses(s.levels, s.job.value, k, q, e) {
        MemoryDecides(s, k, q, e);
        OffDisk(s, k, q, e);
      }
    } else {
      DiskDecides(s, k, q);
      var r := Newest(Stored(s), k, q);
      if r.Some? {
        InstallDiskRead(s, step, s', k, q, r.value);
        forall e | IsNewest(Stored(s), k, q, e) ensures e == r.value { NewestIs(Stored(s), k, q, e); }
      } else {
        InstallSearchable(s, step, s');
        UntouchedRead(s, s', k, q);
      }
    }
  }

  lemma OffDisk(s: State, k: Key, q: nat, e: Entry)
    requires JobInv(s) && s.job.Some? && e !in Disk(s.levels)
    ensures !Loses(s.levels, s.job.value, k, q, e)
  {
    var j := s.job.value;
    if e in Held(j.in0) + Held(j.in1) { InputOnDisk(s.levels, j.level, j.in0, j.in1, e); }
  }

  lemma MoveSearchable(levels: seq<seq<File>>, level: nat, f: File, levels': seq<seq<File>>)
    requires VersionOk(levels) && Picked(levels, level, [f], []) && Swapped(levels, level, [f], [], [f], levels')
    ensures InputsPlaced(levels, level, [f], []) && Searchable(levels') && Disk(levels') <= Disk(levels)
    ensures Held([f]) == Content(f.entries) && Held([]) == {}
  {
    assert f in [f] && Placed(levels, level, f);
    MoveFresh(levels, level, f);
    PickedPlaced(levels, level, [f], []);
    PickedClear(levels, level, [f], []);
    SwapSearchable(levels, level, [f], [], [f], levels');
  }

  /** Exactly when a trivial move changes a read. */
  lemma MoveReadIff(s: State, step: Step, s': State, k: Key, q: nat)
    requires Sound(s) && step.Move? && StepOk(s, step, s')
    ensures AnswerOf(Search(s', k, q)) == AnswerOf(Search(s, k, q)) <==> !MoveExposes(s, step.level, step.file, k, q)
  {
    var level, f := step.level, step.file;
    SearchIsNewest(s, k, q);
    DiskUnambiguous(s);
    MoveSearchable(s.levels, level, f, s'.levels);
    if Probe(s.mem, k, q).Some? || Probe(ImmEntries(s), k, q).Some? {
      forall e | IsNewest(Stored(s), k, q, e) ensures e !in f.entries {
        MemoryDecides(s, k, q, e);
        InputsInHeld(s.levels, level, f, e);
      }
    } else {
      DiskDecides(s, k, q);
      var r := Newest(Stored(s), k, q);
      if r.Some? {
        MoveDiskRead(s, step, s', k, q, r.value);
        forall e | IsNewest(Stored(s), k, q, e) ensures e == r.value { NewestIs(Stored(s), k, q, e); }
      } else {
        UntouchedRead(s, s', k, q);
      }
    }
  }

  lemma InputsInHeld(levels: seq<seq<File>>, level: nat, f: File, e: Entry)
    requires InputsPlaced(levels, level, [f], [])
    ensures e in f.entries ==> e in Disk(levels)
  {
    if e in f.entries {
      assert f in [f] && e in Held([f]);
      InputOnDisk(levels, level, [f], [], e);
    }
  }

  lemma MoveDiskRead(s: State, step: Step, s': State, k: Key, q: nat, e: Entry)
    requires Sound(s) && step.Move? && StepOk(s, step, s') && IsNewest(Disk(s.levels), k, q, e)
    ensures AnswerOf(SearchFrom(s'.levels, 0, k, q)) == AnswerOf(Some(e)) <==>
              (e in step.file.entries ==> !Overtaken(s.levels, step.level, [step.file], [], k, q, e))
  {
    var level, f := step.level, step.file;
    DiskUnambiguous(s);
    MoveSearchable(s.levels, level, f, s'.levels);
    if e in Held([f]) + Held([]) {
      InputNotStaying(s.levels, level, [f], [], e);
      OutcomeIff(s.levels, level, [f], [], k, q, e, true);
    }
    SwapSearch(s.levels, level, [f], [], [f], s'.levels, k, q, e);
  }

  // ------------------------------------------------------------- whole stores

  /** Every read a client can make is answered as the history demands. */
  ghost predicate ReadsRight(s: State) {
    forall k, q: nat | Readable(s, q) && q <= |s.writes| :: AnswerOf(Search(s, k, q)) == MapGet(Replay(s.writes[..q]), k)
  }

  lemma SoundReads(s: State)
    requires Sound(s)
    ensures ReadsRight(s) && forall q: nat | Readable(s, q) :: q <= |s.writes|
  {
    forall k, q: nat | Readable(s, q) && q <= |s.writes|
      ensures AnswerOf(Search(s, k, q)) == MapGet(Replay(s.writes[..q]), k)
    {
      ReadIsReplay(s, k, q);
    }
  }

  /** A merge leaves every client's reads right if and only if it exposes none of them. */
  lemma InstallRightIff(s: State, step: Step, s': State)
    requires Sound(s) && step.Install? && StepOk(s, step, s')
    ensures ReadsRight(s') <==> forall k, q: nat | Readable(s, q) :: !InstallExposes(s, k, q)
  {
    SoundReads(s);
    forall k, q: nat | Readable(s, q)
      ensures AnswerOf(Search(s', k, q)) == AnswerOf(Search(s, k, q)) <==> !InstallExposes(s, k, q)
    {
      InstallReadIff(s, step, s', k, q);
    }
    assert forall q: nat :: Readable(s', q) <==> Readable(s, q);
  }

  /** A trivial move leaves every client's reads right if and only if it exposes none of them. */
  lemma MoveRightIff(s: State, step: Step, s': State)
    requires Sound(s) && step.Move? && StepOk(s, step, s')
    ensures ReadsRight(s') <==> forall k, q: nat | Readable(s, q) :: !MoveExposes(s, step.level, step.file, k, q)
  {
    SoundReads(s);
    forall k, q: nat | Readable(s, q)
      ensures AnswerOf(Search(s', k, q)) == AnswerOf(Search(s, k, q)) <==> !MoveExposes(s, step.level, step.file, k, q)
    {
      MoveReadIff(s, step, s', k, q);
    }
    assert forall q: nat :: Readable(s', q) <==> Readable(s, q);
  }

  /**
   Any inputs the picker hands out, any steps of others while the merge runs, then its
   installation: all reads come out right if and only if none is exposed at that moment.
   */
  lemma BeginInstallIff(states: seq<State>, steps: seq<Step>, i: nat, n: nat)
    requires IsExecution(states, steps) && i < n < |steps| && steps[i].Begin? && steps[n].Install?
    requires forall m | 0 <= m < i :: Guarded(states[m], steps[m])
    requires forall m | i < m < n :: !steps[m].Begin? && !steps[m].Install? && !steps[m].Move?
    ensures Sound(states[n]) && ReadsRight(states[n])
    ensures ReadsRight(states[n + 1]) <==> forall k, q: nat | Readable(states[n], q) :: !InstallExposes(states[n], k, q)
  {
    ExecutionInv(states, steps, i);
    BeginSound(states[i], steps[i], states[i + 1]);
    SoundWhileRunning(states, steps, i + 1, n);
    SoundReads(states[n]);
    InstallRightIff(states[n], steps[n], states[n + 1]);
  }

  lemma {:induction false} SoundWhileRunning(states: seq<State>, steps: seq<Step>, i: nat, n: nat)
    requires IsExecution(states, steps) && i <= n < |states| && Sound(states[i])
    requires forall m | i <= m < n :: !steps[m].Begin? && !steps[m].Install? && !steps[m].Move?
    ensures Sound(states[n])
    decreases n - i
  {
    if i < n {
      SoundWhileRunning(states, steps, i, n - 1);
      WaitingSound(states[n - 1], steps[n - 1], states[n]);
    }
  }
}
