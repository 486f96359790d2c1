/**
 The merge compaction loop and its drop rules.
 */
module Compactions {
  import opened Entries
  import opened Versions
  import opened Picking

  /** Some file at level+2 or deeper covers `k`. */
  ghost predicate CoveredBelow(base: seq<seq<File>>, level: nat, k: Key) {
    exists l, f :: level + 2 <= l < |base| && f in base[l] && Covers(f, k)
  }

  /** An earlier (newer) entry of the same user key is already visible to every live reader. */
  predicate Hidden(input: seq<Entry>, i: nat, smallest: nat)
    requires i < |input|
  {
    exists j :: 0 <= j < i && input[j].key == input[i].key && input[j].sn <= smallest
  }

  ghost predicate ObsoleteMarker(e: Entry, smallest: nat, base: seq<seq<File>>, level: nat) {
    e.kind == Deletion && e.sn <= smallest && !CoveredBelow(base, level, e.key)
  }

  ghost predicate Survives(input: seq<Entry>, i: nat, smallest: nat, base: seq<seq<File>>, level: nat)
    requires i < |input|
  {
    !Hidden(input, i, smallest) && !ObsoleteMarker(input[i], smallest, base, level)
  }

  /** The entries among the first `n` that the compaction keeps, in order. */
  ghost function Kept(input: seq<Entry>, n: nat, smallest: nat, base: seq<seq<File>>, level: nat): seq<Entry>
    requires n <= |input|
  {
    if n == 0 then [] else
    Kept(input, n - 1, smallest, base, level)
    + (if Survives(input, n - 1, smallest, base, level) then [input[n - 1]] else [])
  }

  ghost function Survivors(input: seq<Entry>, smallest: nat, base: seq<seq<File>>, level: nat): seq<Entry> {
    Kept(input, |input|, smallest, base, level)
  }

  lemma {:induction false} KeptMembers(input: seq<Entry>, n: nat, smallest: nat, base: seq<seq<File>>, level: nat)
    requires n <= |input|
    ensures forall e :: e in Kept(input, n, smallest, base, level)
                        <==> exists i :: 0 <= i < n && input[i] == e && Survives(input, i, smallest, base, level)
  {
    if n > 0 { KeptMembers(input, n - 1, smallest, base, level); }
  }

  lemma {:induction false} KeptIsRun(input: seq<Entry>, n: nat, smallest: nat, base: seq<seq<File>>, level: nat)
    requires n <= |input| && Run(input)
    ensures Run(Kept(input, n, smallest, base, level))
  {
    if n > 0 {
      KeptIsRun(input, n - 1, smallest, base, level);
      KeptMembers(input, n - 1, smallest, base, level);
      var r := Kept(input, n - 1, smallest, base, level);
      forall i | 0 <= i < |r| ensures Before(r[i], input[n - 1]) {
        assert r[i] in r;
      }
    }
  }

  /**
   The drop rules keep every reader's answer. At any snapshot the oldest live reader can
   still ask for, the newest visible entry survives; or it was a deletion marker with
   nothing below it, and then nothing older of that key survives either.
   */
  lemma SurvivorsMeaning(input: seq<Entry>, smallest: nat, base: seq<seq<File>>, level: nat, k: Key, s: nat, e: Entry)
    requires Run(input) && smallest <= s
    requires IsNewest(Content(input), k, s, e)
    ensures var kept := Content(Survivors(input, smallest, base, level));
            if ObsoleteMarker(e, smallest, base, level) then NoneVisible(kept, k, s) else IsNewest(kept, k, s, e)
  {
    var out := Survivors(input, smallest, base, level);
    KeptMembers(input, |input|, smallest, base, level);
    var i :| 0 <= i < |input| && input[i] == e;
    forall j | 0 <= j < i && input[j].key == k ensures input[j].sn > smallest {
      assert Before(input[j], input[i]);
      assert input[j] in Content(input);
    }
    if ObsoleteMarker(e, smallest, base, level) {
      forall x | x in out && x.key == k ensures x.sn > s {
        var j :| 0 <= j < |input| && input[j] == x && Survives(input, j, smallest, base, level);
        LaterIsHidden(input, i, smallest);
        assert j < i && Before(input[j], input[i]);
        assert x in Content(input);
      }
    } else {
      assert Survives(input, i, smallest, base, level);
      assert forall x | x in out :: x in Content(input);
    }
  }

  lemma LaterIsHidden(input: seq<Entry>, i: nat, smallest: nat)
    requires i < |input| && input[i].sn <= smallest
    ensures forall j | i < j < |input| && input[j].key == input[i].key :: Hidden(input, j, smallest)
  {
  }

  /** When every entry is at or below `smallest`, at most one entry per user key survives. */
  lemma OnePerKey(input: seq<Entry>, smallest: nat, base: seq<seq<File>>, level: nat, x: Entry, y: Entry)
    requires Run(input) && forall e | e in input :: e.sn <= smallest
    requires x in Survivors(input, smallest, base, level) && y in Survivors(input, smallest, base, level)
    requires x.key == y.key
    ensures x == y
  {
    KeptMembers(input, |input|, smallest, base, level);
    var i :| 0 <= i < |input| && input[i] == x && Survives(input, i, smallest, base, level);
    var j :| 0 <= j < |input| && input[j] == y && Survives(input, j, smallest, base, level);
    assert input[i] in input && input[j] in input;
    LaterIsHidden(input, i, smallest);
    LaterIsHidden(input, j, smallest);
  }

  /** With no snapshot in the way and nothing deeper, exactly the newest entry of each key survives, if it is a value. */
  lemma FullyCompacted(input: seq<Entry>, smallest: nat, base: seq<seq<File>>, level: nat, e: Entry)
    requires Run(input) && forall x | x in input :: x.sn <= smallest && !CoveredBelow(base, level, x.key)
    ensures e in Survivors(input, smallest, base, level) <==>
            e in input && e.kind == Value && forall x | x in input && x.key == e.key :: x.sn <= e.sn
  {
    hide CoveredBelow;
    KeptMembers(input, |input|, smallest, base, level);
    forall i | 0 <= i < |input| && input[i] == e
      ensures Survives(input, i, smallest, base, level) <==> e.kind == Value && forall x | x in input && x.key == e.key :: x.sn <= e.sn
    {
      assert e in input;
      if x: Entry :| x in input && x.key == e.key && x.sn > e.sn {
        var j :| 0 <= j < |input| && input[j] == x;
        assert j > i ==> Before(input[i], input[j]);
      } else {
        assert forall j | 0 <= j < i :: input[j] in input && Before(input[j], input[i]);
      }
    }
  }

  function Flatten(parts: seq<seq<Entry>>): seq<Entry> {
    if parts == [] then [] else Flatten(parts[..|parts| - 1]) + parts[|parts| - 1]
  }

  /** The finished output files and the one under construction (empty: none is open). */
  datatype Output = Output(files: seq<seq<Entry>>, builder: seq<Entry>)

  function Written(o: Output): seq<Entry> {
    Flatten(o.files) + o.builder
  }

  predicate NoEmptyFile(o: Output) {
    forall f | f in o.files :: f != []
  }

  /** No file went on after it had reached the target size, and the open one has not reached it. */
  ghost predicate CutInTime(o: Output, fileSize: seq<Entry> -> nat) {
    && (forall f, m | f in o.files && 0 < m < |f| :: fileSize(f[..m]) < TARGET_FILE_SIZE)
    && (forall m | 0 < m <= |o.builder| :: fileSize(o.builder[..m]) < TARGET_FILE_SIZE)
  }

  lemma FinishInTime(o: Output, fileSize: seq<Entry> -> nat)
    requires NoEmptyFile(o) && CutInTime(o, fileSize)
    ensures CutInTime(Finish(o), fileSize)
  {
  }

  lemma AddInTime(o: Output, e: Entry, fileSize: seq<Entry> -> nat)
    requires NoEmptyFile(o) && CutInTime(o, fileSize)
    ensures CutInTime(Add(o, e, fileSize), fileSize)
  {
    var more := o.builder + [e];
    forall m | 0 < m <= |o.builder| ensures more[..m] == o.builder[..m] {}
    assert more[..|more|] == more;
  }

  /** FinishCompactionOutputFile, when a file is open. */
  function Finish(o: Output): (r: Output)
    requires NoEmptyFile(o)
    ensures NoEmptyFile(r) && r.builder == [] && Written(r) == Written(o)
  {
    assert (o.files + [o.builder])[..|o.files|] == o.files;
    if o.builder == [] then o else Output(o.files + [o.builder], [])
  }

  /** Add an entry, opening a file if needed and closing it once it is big enough. */
  function Add(o: Output, e: Entry, fileSize: seq<Entry> -> nat): (r: Output)
    requires NoEmptyFile(o)
    ensures NoEmptyFile(r) && Written(r) == Written(o) + [e]
  {
    var o' := Output(o.files, o.builder + [e]);
    assert Written(o') == Written(o) + [e];
    if fileSize(o'.builder) >= TARGET_FILE_SIZE then Finish(o') else o'
  }

  /** The bytes of files a..b-1. */
  function SizeBetween(fs: seq<File>, a: nat, b: nat): nat
    requires a <= b <= |fs|
  {
    if a == b then 0 else SizeBetween(fs, a, b - 1) + fs[b - 1].size
  }

  // ------------------------------------------------------------ where outputs are cut

  /** What ShouldStopBefore remembers: the grandparents passed, whether it was asked before, and the bytes since the last cut. */
  datatype Passed = Passed(index: nat, seen: bool, bytes: nat)

  /** The first grandparent from `i` on that does not end before `e`. */
  function PassUpTo(gs: seq<File>, i: nat, e: Entry): (r: nat)
    requires i <= |gs|
    ensures i <= r <= |gs| && (r < |gs| ==> !Before(gs[r].largest, e))
    ensures forall j | i <= j < r :: Before(gs[j].largest, e)
    decreases |gs| - i
  {
    if i < |gs| && Before(gs[i].largest, e) then PassUpTo(gs, i + 1, e) else i
  }

  /** The grandparent bytes passed by the open output when `e` comes. */
  function PassedBytes(gs: seq<File>, p: Passed, e: Entry): nat
    requires p.index <= |gs|
  {
    p.bytes + if p.seen then SizeBetween(gs, p.index, PassUpTo(gs, p.index, e)) else 0
  }

  predicate StopsBefore(gs: seq<File>, p: Passed, e: Entry)
    requires p.index <= |gs|
  {
    PassedBytes(gs, p, e) > MAX_GRANDPARENT_OVERLAP
  }

  function PassOn(gs: seq<File>, p: Passed, e: Entry): (r: Passed)
    requires p.index <= |gs|
    ensures r.index <= |gs|
  {
    Passed(PassUpTo(gs, p.index, e), true, if StopsBefore(gs, p, e) then 0 else PassedBytes(gs, p, e))
  }

  ghost function PassedAfter(gs: seq<File>, input: seq<Entry>, n: nat): (r: Passed)
    requires n <= |input|
    ensures r.index <= |gs|
  {
    if n == 0 then Passed(0, false, 0) else PassOn(gs, PassedAfter(gs, input, n - 1), input[n - 1])
  }

  /** The grandparent rule asks for a new output in front of entry `n`. */
  ghost predicate RuleCuts(gs: seq<File>, input: seq<Entry>, n: nat)
    requires n < |input|
  {
    StopsBefore(gs, PassedAfter(gs, input, n), input[n])
  }

  /** The outputs after the first `n` entries. `fileSize` is what the table builder has written so far. */
  ghost function Work(input: seq<Entry>, n: nat, smallest: nat, base: seq<seq<File>>, level: nat, gs: seq<File>,
                      fileSize: seq<Entry> -> nat): (o: Output)
    requires n <= |input|
    ensures NoEmptyFile(o) && Written(o) == Kept(input, n, smallest, base, level)
    decreases n, 0
  {
    if n == 0 then Output([], []) else
    var o := Work(input, n - 1, smallest, base, level, gs, fileSize);
    var cut := if RuleCuts(gs, input, n - 1) then Finish(o) else o;
    if Survives(input, n - 1, smallest, base, level) then Add(cut, input[n - 1], fileSize) else cut
  }

  ghost function Outputs(input: seq<Entry>, smallest: nat, base: seq<seq<File>>, level: nat, gs: seq<File>,
                         fileSize: seq<Entry> -> nat): (r: seq<seq<Entry>>)
    ensures Flatten(r) == Survivors(input, smallest, base, level)
    ensures forall o | o in r :: o != []
  {
    var o := Finish(Work(input, |input|, smallest, base, level, gs, fileSize));
    assert Flatten(o.files) + [] == Flatten(o.files);
    o.files
  }

  /** `f` was the open output when the grandparent rule asked for a new one. */
  ghost predicate StoppedAt(input: seq<Entry>, smallest: nat, base: seq<seq<File>>, level: nat, gs: seq<File>,
                            fileSize: seq<Entry> -> nat, n: nat, f: seq<Entry>)
  {
    n < |input| && RuleCuts(gs, input, n) && Work(input, n, smallest, base, level, gs, fileSize).builder == f
  }

  /** A finished output was either big enough or stopped by the grandparent rule. */
  ghost predicate EndsRightly(input: seq<Entry>, smallest: nat, base: seq<seq<File>>, level: nat, gs: seq<File>,
                              fileSize: seq<Entry> -> nat, f: seq<Entry>)
  {
    fileSize(f) >= TARGET_FILE_SIZE || exists n :: StoppedAt(input, smallest, base, level, gs, fileSize, n, f)
  }

  ghost predicate AllEndRightly(input: seq<Entry>, smallest: nat, base: seq<seq<File>>, level: nat, gs: seq<File>,
                                fileSize: seq<Entry> -> nat, files: seq<seq<Entry>>)
  {
    forall f | f in files :: EndsRightly(input, smallest, base, level, gs, fileSize, f)
  }

  lemma OneMoreEnds(input: seq<Entry>, smallest: nat, base: seq<seq<File>>, level: nat, gs: seq<File>,
                    fileSize: seq<Entry> -> nat, files: seq<seq<Entry>>, f: seq<Entry>)
    requires AllEndRightly(input, smallest, base, level, gs, fileSize, files)
    requires EndsRightly(input, smallest, base, level, gs, fileSize, f)
    ensures AllEndRightly(input, smallest, base, level, gs, fileSize, files + [f])
  {
    hide EndsRightly;
  }

  lemma {:induction false} WorkEnds(input: seq<Entry>, n: nat, smallest: nat, base: seq<seq<File>>, level: nat, gs: seq<File>,
                                    fileSize: seq<Entry> -> nat)
    requires n <= |input|
    ensures var o := Work(input, n, smallest, base, level, gs, fileSize);
            CutInTime(o, fileSize) && AllEndRightly(input, smallest, base, level, gs, fileSize, o.files)
  {
    hide EndsRightly, RuleCuts, Survives, NoEmptyFile, Kept, Written;
    if n > 0 {
      hide CutInTime, AllEndRightly;
      WorkEnds(input, n - 1, smallest, base, level, gs, fileSize);
      var o := Work(input, n - 1, smallest, base, level, gs, fileSize);
      FinishInTime(o, fileSize);
      var cut := if RuleCuts(gs, input, n - 1) then Finish(o) else o;
      if RuleCuts(gs, input, n - 1) {
        StoppedEnds(input, n - 1, smallest, base, level, gs, fileSize, o.builder);
        OneMoreEnds(input, smallest, base, level, gs, fileSize, o.files, o.builder);
      }
      AddInTime(cut, input[n - 1], fileSize);
      var more := cut.builder + [input[n - 1]];
      if fileSize(more) >= TARGET_FILE_SIZE {
        BigEnds(input, smallest, base, level, gs, fileSize, more);
        OneMoreEnds(input, smallest, base, level, gs, fileSize, cut.files, more);
      }
    }
  }

  lemma StoppedEnds(input: seq<Entry>, n: nat, smallest: nat, base: seq<seq<File>>, level: nat, gs: seq<File>,
                    fileSize: seq<Entry> -> nat, f: seq<Entry>)
    requires StoppedAt(input, smallest, base, level, gs, fileSize, n, f)
    ensures EndsRightly(input, smallest, base, level, gs, fileSize, f)
  {
  }

  lemma BigEnds(input: seq<Entry>, smallest: nat, base: seq<seq<File>>, level: nat, gs: seq<File>,
                fileSize: seq<Entry> -> nat, f: seq<Entry>)
    ensures fileSize(f) >= TARGET_FILE_SIZE ==> EndsRightly(input, smallest, base, level, gs, fileSize, f)
  {
  }

  /**
   Where a compaction cuts: no output goes on once it has reached the target size, and
   every output but the last has reached it or was stopped by the grandparent rule.
   */
  lemma OutputsCut(input: seq<Entry>, smallest: nat, base: seq<seq<File>>, level: nat, gs: seq<File>, fileSize: seq<Entry> -> nat)
    ensures var outs := Outputs(input, smallest, base, level, gs, fileSize);
            && (forall o, m | o in outs && 0 < m < |o| :: fileSize(o[..m]) < TARGET_FILE_SIZE)
            && (forall i | 0 <= i < |outs| - 1 :: EndsRightly(input, smallest, base, level, gs, fileSize, outs[i]))
  {
    hide EndsRightly, Work, Kept, Written;
    WorkEnds(input, |input|, smallest, base, level, gs, fileSize);
    FinishInTime(Work(input, |input|, smallest, base, level, gs, fileSize), fileSize);
  }

  /** The Compaction object: its fixed inputs and the cursors its queries advance. */
  class Compaction {
    const level: nat
    const base: seq<seq<File>>
    const grandparents: seq<File>
    var levelPtrs: seq<nat>
    var grandparentIndex: nat
    var seenKey: bool
    var overlappedBytes: nat

    ghost predicate Valid()
      reads this
    {
      && LevelsOk(base) && level + 1 < NUM_LEVELS && |levelPtrs| == NUM_LEVELS
      && (forall l | level + 2 <= l < NUM_LEVELS :: levelPtrs[l] <= |base[l]|)
      && grandparentIndex <= |grandparents|
    }

    ghost function View(): Passed
      reads this
    {
      Passed(grandparentIndex, seenKey, overlappedBytes)
    }

    /** Every file a cursor has passed ends before `k`. */
    ghost predicate PassedOnlyBelow(k: Key)
      reads this`levelPtrs
    {
      forall l, j | level + 2 <= l < |base| && l < |levelPtrs| && 0 <= j < levelPtrs[l] && j < |base[l]| ::
        base[l][j].largest.key < k
    }

    constructor (level: nat, base: seq<seq<File>>, grandparents: seq<File>)
      requires LevelsOk(base) && level + 1 < NUM_LEVELS
      ensures Valid() && this.level == level && this.base == base && this.grandparents == grandparents
      ensures forall k :: PassedOnlyBelow(k)
      ensures View() == Passed(0, false, 0)
    {
      this.level, this.base, this.grandparents := level, base, grandparents;
      levelPtrs := seq(NUM_LEVELS, _ => 0);
      grandparentIndex, seenKey, overlappedBytes := 0, false, 0;
    }

    /** IsBaseLevelForKey: asked with ascending keys, the one-way cursors decide coverage exactly. */
    method IsBaseLevelForKey(k: Key) returns (r: bool)
      requires Valid() && PassedOnlyBelow(k)
      modifies this`levelPtrs
      ensures Valid() && PassedOnlyBelow(k)
      ensures r <==> !CoveredBelow(base, level, k)
    {
      var l := level + 2;
      while l < NUM_LEVELS
        invariant level + 2 <= l
        invariant Valid() && PassedOnlyBelow(k)
        invariant forall m, f | level + 2 <= m < l && m < NUM_LEVELS && f in base[m] :: !Covers(f, k)
      {
        while levelPtrs[l] < |base[l]|
          invariant Valid() && PassedOnlyBelow(k)
          decreases |base[l]| - levelPtrs[l]
        {
          var f := base[l][levelPtrs[l]];
          if k <= f.largest.key {
            if f.smallest.key <= k {
              assert f in base[l] && Covers(f, k);
              return false;
            }
            break;
          }
          levelPtrs := levelPtrs[l := levelPtrs[l] + 1];
        }
        NotCovered(base[l], levelPtrs[l], k);
        l := l + 1;
      }
      r := true;
    }

    /** ShouldStopBefore: a running total of grandparent bytes passed by the current output. */
    method ShouldStopBefore(e: Entry) returns (stop: bool)
      requires Valid()
      modifies this`grandparentIndex, this`seenKey, this`overlappedBytes
      ensures Valid() && View() == PassOn(grandparents, old(View()), e)
      ensures stop <==> StopsBefore(grandparents, old(View()), e)
    {
      while grandparentIndex < |grandparents| && Before(grandparents[grandparentIndex].largest, e)
        invariant Valid() && seenKey == old(seenKey) && old(grandparentIndex) <= grandparentIndex
        invariant PassUpTo(grandparents, old(grandparentIndex), e) == PassUpTo(grandparents, grandparentIndex, e)
        invariant overlappedBytes == old(overlappedBytes)
          + if seenKey then SizeBetween(grandparents, old(grandparentIndex), grandparentIndex) else 0
        decreases |grandparents| - grandparentIndex
      {
        if seenKey {
          overlappedBytes := overlappedBytes + grandparents[grandparentIndex].size;
        }
        grandparentIndex := grandparentIndex + 1;
      }
      seenKey := true;
      stop := overlappedBytes > MAX_GRANDPARENT_OVERLAP;
      if stop { overlappedBytes := 0; }
    }

    /** One turn of the loop: whether to cut the output before the entry, and whether to drop it. */
    method Examine(input: seq<Entry>, i: nat, smallest: nat, current: Option<Key>, last: nat)
      returns (stop: bool, drop: bool)
      requires Valid() && Run(input) && i < |input| && PassedOnlyBelow(input[i].key) && smallest < K_MAX_SEQUENCE
      requires Remembers(input, i, current, last)
      modifies this
      ensures Valid() && (i + 1 < |input| ==> PassedOnlyBelow(input[i + 1].key))
      ensures drop <==> !Survives(input, i, smallest, base, level)
      ensures View() == PassOn(grandparents, old(View()), input[i])
      ensures stop <==> StopsBefore(grandparents, old(View()), input[i])
    {
      var e := input[i];
      stop := ShouldStopBefore(e);
      var lastSequence := if current != Some(e.key) then K_MAX_SEQUENCE else last;
      HiddenIffPrevious(input, i, smallest);
      drop := false;
      if lastSequence <= smallest {
        drop := true;
      } else if e.kind == Deletion && e.sn <= smallest {
        drop := IsBaseLevelForKey(e.key);
      }
      if i + 1 < |input| { StillBelow(input, i); }
    }

    lemma StillBelow(input: seq<Entry>, i: nat)
      requires Valid() && Run(input) && i + 1 < |input| && PassedOnlyBelow(input[i].key)
      ensures PassedOnlyBelow(input[i + 1].key)
    {
      assert Before(input[i], input[i + 1]);
    }

    /** Progress of the loop after `i` entries. */
    ghost predicate Progress(input: seq<Entry>, i: nat, smallest: nat, out: Output, fileSize: seq<Entry> -> nat)
      reads this
    {
      && Valid() && i <= |input| && View() == PassedAfter(grandparents, input, i)
      && (i < |input| ==> PassedOnlyBelow(input[i].key))
      && out == Work(input, i, smallest, base, level, grandparents, fileSize)
    }

    method Turn(input: seq<Entry>, i: nat, smallest: nat, current: Option<Key>, last: nat, out: Output,
                fileSize: seq<Entry> -> nat) returns (out': Output)
      requires Run(input) && i < |input| && smallest < K_MAX_SEQUENCE
      requires Progress(input, i, smallest, out, fileSize) && Remembers(input, i, current, last)
      modifies this
      ensures Progress(input, i + 1, smallest, out', fileSize)
    {
      hide Survives, StopsBefore, PassOn, LevelsOk, Run;
      var stop, drop := Examine(input, i, smallest, current, last);
      out' := if stop then Finish(out) else out;
      if !drop { out' := Add(out', input[i], fileSize); }
    }

    /**
     DoCompactionWork over the merged input: drops what the rules allow and cuts the rest
     into output files. `fileSize` is the table builder's size estimate.
     */
    method DoCompactionWork(input: seq<Entry>, smallest: nat, fileSize: seq<Entry> -> nat)
      returns (outputs: seq<seq<Entry>>)
      requires Valid() && Run(input) && smallest < K_MAX_SEQUENCE && View() == Passed(0, false, 0)
      requires input != [] ==> PassedOnlyBelow(input[0].key)
      modifies this
      ensures outputs == Outputs(input, smallest, base, level, grandparents, fileSize)
      ensures Flatten(outputs) == Survivors(input, smallest, base, level)
      ensures forall o | o in outputs :: o != []
      ensures forall o, m | o in outputs && 0 < m < |o| :: fileSize(o[..m]) < TARGET_FILE_SIZE
      ensures forall m | 0 <= m < |outputs| - 1 :: EndsRightly(input, smallest, base, level, grandparents, fileSize, outputs[m])
    {
      hide EndsRightly;
      var out := Output([], []);
      var current: Option<Key> := None;
      var lastSequence: nat := K_MAX_SEQUENCE;
      for i := 0 to |input|
        invariant Progress(input, i, smallest, out, fileSize)
        invariant Remembers(input, i, current, lastSequence)
      {
        out := Turn(input, i, smallest, current, lastSequence, out, fileSize);
        current, lastSequence := Some(input[i].key), input[i].sn;
      }
      outputs := Finish(out).files;
      OutputsCut(input, smallest, base, level, grandparents, fileSize);
    }
  }

  /** current_user_key and last_sequence_for_key describe the previous entry. */
  predicate Remembers(input: seq<Entry>, i: nat, current: Option<Key>, last: nat)
    requires i <= |input|
  {
    if i == 0 then current == None else current == Some(input[i - 1].key) && last == input[i - 1].sn
  }

  /** In a sorted level a cursor's file settles coverage for all the files after it. */
  lemma NotCovered(fs: seq<File>, p: nat, k: Key)
    requires FilesOk(fs) && SortedLevel(fs) && p <= |fs|
    requires forall j | 0 <= j < p :: fs[j].largest.key < k
    requires p < |fs| ==> k < fs[p].smallest.key
    ensures forall f | f in fs :: !Covers(f, k)
  {
    forall f | f in fs ensures !Covers(f, k) {
      var j :| 0 <= j < |fs| && fs[j] == f;
      if j > p {
        assert Before(fs[p].largest, fs[j].smallest);
        assert fs[p] in fs;
        WithinRange(fs[p], fs[p].largest);
      }
    }
  }

  lemma HiddenIffPrevious(input: seq<Entry>, i: nat, smallest: nat)
    requires Run(input) && i < |input|
    ensures Hidden(input, i, smallest) <==>
            i > 0 && input[i - 1].key == input[i].key && input[i - 1].sn <= smallest
  {
    if Hidden(input, i, smallest) {
      var j :| 0 <= j < i && input[j].key == input[i].key && input[j].sn <= smallest;
      if j < i - 1 {
        assert Before(input[j], input[i - 1]) && Before(input[i - 1], input[i]);
      }
    }
  }
}
