/**
 Which files a flush or a compaction touches: range overlap tests, the level a flushed
 memtable goes to, and the input files of an automatically picked compaction.
 */
module Picking {
  import opened Entries
  import opened Versions

  const MAX_MEM_COMPACT_LEVEL: nat := 2
  const L0_COMPACTION_TRIGGER: nat := 4
  const TARGET_FILE_SIZE: nat := 2 * 1048576
  const MAX_GRANDPARENT_OVERLAP: nat := 10 * TARGET_FILE_SIZE
  const EXPANDED_COMPACTION_LIMIT: nat := 25 * TARGET_FILE_SIZE

  /** The file's user-key range meets [begin, end]; an absent bound is infinite. */
  predicate Overlaps(f: File, begin: Option<Key>, end: Option<Key>) {
    && !(begin.Some? && f.largest.key < begin.value)
    && !(end.Some? && f.smallest.key > end.value)
  }

  predicate Touches(f: File, lo: Key, hi: Key) {
    f.smallest.key <= hi && lo <= f.largest.key
  }

  function TotalFileSize(fs: seq<File>): nat {
    if fs == [] then 0 else fs[0].size + TotalFileSize(fs[1..])
  }

  /** The files that overlap the range, in list order. */
  function Selected(fs: seq<File>, begin: Option<Key>, end: Option<Key>): (r: seq<File>)
    ensures forall f :: f in r <==> f in fs && Overlaps(f, begin, end)
  {
    if fs == [] then []
    else if Overlaps(fs[0], begin, end) then [fs[0]] + Selected(fs[1..], begin, end)
    else Selected(fs[1..], begin, end)
  }

  lemma {:induction false} SelectedAppend(fs: seq<File>, f: File, begin: Option<Key>, end: Option<Key>)
    ensures Selected(fs + [f], begin, end)
         == Selected(fs, begin, end) + (if Overlaps(f, begin, end) then [f] else [])
  {
    if fs != [] {
      SelectedAppend(fs[1..], f, begin, end);
      assert (fs + [f])[1..] == fs[1..] + [f];
    }
  }

  predicate Wider(b: Option<Key>, e: Option<Key>, b': Option<Key>, e': Option<Key>) {
    && (b'.Some? ==> b.Some? && b'.value <= b.value)
    && (e'.Some? ==> e.Some? && e.value <= e'.value)
  }

  lemma {:induction false} SelectedSameCount(fs: seq<File>, b: Option<Key>, e: Option<Key>, b': Option<Key>, e': Option<Key>)
    requires Wider(b, e, b', e')
    ensures |Selected(fs, b, e)| <= |Selected(fs, b', e')|
    ensures |Selected(fs, b, e)| == |Selected(fs, b', e')| ==> Selected(fs, b, e) == Selected(fs, b', e')
  {
    if fs != [] { SelectedSameCount(fs[1..], b, e, b', e'); }
  }

  // ------------------------------------------------------------ overlap test

  ghost predicate SomeOverlap(fs: seq<File>, small: Option<Key>, large: Option<Key>) {
    exists f :: f in fs && Overlaps(f, small, large)
  }

  /** Linear scan at level 0, one binary search at the sorted levels. */
  method SomeFileOverlapsRange(disjointSorted: bool, fs: seq<File>, small: Option<Key>, large: Option<Key>)
    returns (r: bool)
    requires FilesOk(fs) && (disjointSorted ==> SortedLevel(fs))
    ensures r <==> SomeOverlap(fs, small, large)
  {
    if !disjointSorted {
      for i := 0 to |fs|
        invariant forall j | 0 <= j < i :: !Overlaps(fs[j], small, large)
      {
        if Overlaps(fs[i], small, large) { return true; }
      }
      return false;
    }
    var index := 0;
    if small.Some? {
      index := FindFile(fs, small.value, K_MAX_SEQUENCE);
    }
    if index >= |fs| {
      return false;
    }
    r := !(large.Some? && large.value < fs[index].smallest.key);
    assert fs[index] in fs;
    if !r {
      forall f | f in fs ensures !Overlaps(f, small, large) {
        var j :| 0 <= j < |fs| && fs[j] == f;
        if j > index {
          assert Before(fs[index].largest, fs[j].smallest);
          WithinRange(fs[index], fs[index].largest);
        }
      }
    }
  }

  // ------------------------------------------------- files meeting a range

  function CountBelow(fs: seq<File>, x: Option<Key>): nat {
    if fs == [] || x.None? then 0
    else (if fs[0].smallest.key < x.value then 1 else 0) + CountBelow(fs[1..], x)
  }

  function CountAbove(fs: seq<File>, x: Option<Key>): nat {
    if fs == [] || x.None? then 0
    else (if fs[0].largest.key > x.value then 1 else 0) + CountAbove(fs[1..], x)
  }

  lemma {:induction false} FewerBelow(fs: seq<File>, f: File, x: Key)
    requires f.smallest.key < x
    ensures CountBelow(fs, Some(f.smallest.key)) <= CountBelow(fs, Some(x))
    ensures f in fs ==> CountBelow(fs, Some(f.smallest.key)) < CountBelow(fs, Some(x))
  {
    if fs != [] { FewerBelow(fs[1..], f, x); }
  }

  lemma {:induction false} FewerAbove(fs: seq<File>, f: File, x: Key)
    requires f.largest.key > x
    ensures CountAbove(fs, Some(f.largest.key)) <= CountAbove(fs, Some(x))
    ensures f in fs ==> CountAbove(fs, Some(f.largest.key)) < CountAbove(fs, Some(x))
  {
    if fs != [] { FewerAbove(fs[1..], f, x); }
  }

  /** Every key from `to` up to `from`, and from `from'` up to `to'`, lies in a selected file. */
  ghost predicate WidenedGapFree(fs: seq<File>, begin: Option<Key>, end: Option<Key>, lo: Option<Key>, hi: Option<Key>) {
    && lo.Some? == begin.Some? && hi.Some? == end.Some? && Wider(begin, end, lo, hi)
    && (begin.Some? ==> forall x | lo.value <= x < begin.value :: InSome(fs, lo, hi, x))
    && (end.Some? ==> forall x | end.value < x <= hi.value :: InSome(fs, lo, hi, x))
  }

  ghost predicate InSome(fs: seq<File>, lo: Option<Key>, hi: Option<Key>, x: Key) {
    exists f :: f in fs && Overlaps(f, lo, hi) && Covers(f, x)
  }

  /** No selected file reaches outside the range. */
  ghost predicate ClosedUnder(inputs: seq<File>, lo: Option<Key>, hi: Option<Key>) {
    forall f | f in inputs ::
      (lo.Some? ==> lo.value <= f.smallest.key) && (hi.Some? ==> f.largest.key <= hi.value)
  }

  lemma WidenDown(fs: seq<File>, begin: Option<Key>, end: Option<Key>, lo: Option<Key>, hi: Option<Key>, f: File)
    requires WidenedGapFree(fs, begin, end, lo, hi) && f in fs && FileOk(f) && Overlaps(f, lo, hi)
    requires lo.Some? && f.smallest.key < lo.value
    ensures WidenedGapFree(fs, begin, end, Some(f.smallest.key), hi)
  {
    forall x | f.smallest.key <= x < begin.value ensures InSome(fs, Some(f.smallest.key), hi, x) {
      if x < lo.value { assert Covers(f, x); } else { assert InSome(fs, lo, hi, x); }
    }
    if end.Some? {
      forall x | end.value < x <= hi.value ensures InSome(fs, Some(f.smallest.key), hi, x) {
        assert InSome(fs, lo, hi, x);
      }
    }
  }

  lemma WidenUp(fs: seq<File>, begin: Option<Key>, end: Option<Key>, lo: Option<Key>, hi: Option<Key>, f: File)
    requires WidenedGapFree(fs, begin, end, lo, hi) && f in fs && FileOk(f) && Overlaps(f, lo, hi)
    requires hi.Some? && f.largest.key > hi.value
    ensures WidenedGapFree(fs, begin, end, lo, Some(f.largest.key))
  {
    if begin.Some? {
      forall x | lo.value <= x < begin.value ensures InSome(fs, lo, Some(f.largest.key), x) {
        assert InSome(fs, lo, hi, x);
      }
    }
    forall x | end.value < x <= f.largest.key ensures InSome(fs, lo, Some(f.largest.key), x) {
      if x > hi.value { assert Covers(f, x); } else { assert InSome(fs, lo, hi, x); }
    }
  }

  /**
   GetOverlappingInputs. At level 0 a selected file that sticks out of the range widens it
   and restarts the scan; every restart moves a bound to another file's bound, so the
   scan ends, with a set closed under overlap and no gap in what was added.
   */
  method GetOverlappingInputs(level0: bool, fs: seq<File>, begin: Option<Key>, end: Option<Key>)
    returns (inputs: seq<File>, ghost lo: Option<Key>, ghost hi: Option<Key>)
    requires FilesOk(fs)
    ensures inputs == Selected(fs, lo, hi)
    ensures WidenedGapFree(fs, begin, end, lo, hi)
    ensures !level0 ==> lo == begin && hi == end
    ensures level0 ==> ClosedUnder(inputs, lo, hi)
  {
    hide WidenedGapFree, CountBelow, CountAbove, Selected, ClosedUnder;
    Unwidened(fs, begin, end);
    NothingSelected();
    inputs := [];
    var userBegin, userEnd := begin, end;
    var i := 0;
    while i < |fs|
      invariant 0 <= i <= |fs|
      invariant inputs == Selected(fs[..i], userBegin, userEnd)
      invariant WidenedGapFree(fs, begin, end, userBegin, userEnd)
      invariant !level0 ==> userBegin == begin && userEnd == end
      invariant level0 ==> ClosedUnder(inputs, userBegin, userEnd)
      decreases CountBelow(fs, userBegin) + CountAbove(fs, userEnd), |fs| - i
    {
      var f := fs[i];
      assert f in fs;
      assert fs[..i + 1] == fs[..i] + [f];
      SelectedAppend(fs[..i], f, userBegin, userEnd);
      ClosedMore(inputs, f, userBegin, userEnd);
      i := i + 1;
      if userBegin.Some? && f.largest.key < userBegin.value {
      } else if userEnd.Some? && f.smallest.key > userEnd.value {
      } else {
        inputs := inputs + [f];
        if level0 {
          if userBegin.Some? && f.smallest.key < userBegin.value {
            WidenDown(fs, begin, end, userBegin, userEnd, f);
            FewerBelow(fs, f, userBegin.value);
            userBegin := Some(f.smallest.key);
            inputs := [];
            i := 0;
          } else if userEnd.Some? && f.largest.key > userEnd.value {
            WidenUp(fs, begin, end, userBegin, userEnd, f);
            FewerAbove(fs, f, userEnd.value);
            userEnd := Some(f.largest.key);
            inputs := [];
            i := 0;
          }
        }
      }
    }
    assert fs[..|fs|] == fs;
    lo, hi := userBegin, userEnd;
  }

  lemma NothingSelected()
    ensures forall lo, hi :: Selected([], lo, hi) == [] && ClosedUnder([], lo, hi)
  {
  }

  lemma ClosedMore(inputs: seq<File>, f: File, lo: Option<Key>, hi: Option<Key>)
    ensures ClosedUnder(inputs, lo, hi) && (lo.Some? ==> lo.value <= f.smallest.key) && (hi.Some? ==> f.largest.key <= hi.value)
            ==> ClosedUnder(inputs + [f], lo, hi)
  {
  }

  lemma Unwidened(fs: seq<File>, begin: Option<Key>, end: Option<Key>)
    ensures WidenedGapFree(fs, begin, end, begin, end)
  {
  }

  // ------------------------------------------------------- level of a flush

  ghost predicate OverlapInLevel(levels: seq<seq<File>>, level: nat, lo: Key, hi: Key)
    requires level < |levels|
  {
    SomeOverlap(levels[level], Some(lo), Some(hi))
  }

  ghost predicate LevelsOk(levels: seq<seq<File>>) {
    && |levels| == NUM_LEVELS
    && (forall l | 0 <= l < NUM_LEVELS :: FilesOk(levels[l]))
    && (forall l | 1 <= l < NUM_LEVELS :: SortedLevel(levels[l]))
  }

  /** A memtable pushed down to `level` goes no deeper. */
  ghost predicate StopsAt(levels: seq<seq<File>>, level: nat, lo: Key, hi: Key)
    requires |levels| == NUM_LEVELS && level < MAX_MEM_COMPACT_LEVEL
  {
    || OverlapInLevel(levels, level + 1, lo, hi)
    || TotalFileSize(Selected(levels[level + 2], Some(lo), Some(hi))) > MAX_GRANDPARENT_OVERLAP
  }

  /** The level a memtable with keys lo..hi goes to: as deep as nothing of its range lies in the way. */
  ghost predicate FlushLevel(levels: seq<seq<File>>, level: nat, lo: Key, hi: Key) {
    && |levels| == NUM_LEVELS && level <= MAX_MEM_COMPACT_LEVEL
    && (level > 0 ==> forall l | 0 <= l <= level :: !OverlapInLevel(levels, l, lo, hi))
    && (forall l | 0 <= l < level :: !StopsAt(levels, l, lo, hi))
    && (!OverlapInLevel(levels, 0, lo, hi) && level < MAX_MEM_COMPACT_LEVEL ==> StopsAt(levels, level, lo, hi))
  }

  method PickLevelForMemTableOutput(levels: seq<seq<File>>, lo: Key, hi: Key) returns (level: nat)
    requires LevelsOk(levels)
    ensures FlushLevel(levels, level, lo, hi)
  {
    level := 0;
    var overlap := SomeFileOverlapsRange(false, levels[0], Some(lo), Some(hi));
    if !overlap {
      while level < MAX_MEM_COMPACT_LEVEL
        invariant level <= MAX_MEM_COMPACT_LEVEL
        invariant forall l | 0 <= l <= level :: !OverlapInLevel(levels, l, lo, hi)
        invariant forall l | 0 <= l < level :: !StopsAt(levels, l, lo, hi)
      {
        overlap := SomeFileOverlapsRange(true, levels[level + 1], Some(lo), Some(hi));
        if overlap { break; }
        var overlaps, _, _ := GetOverlappingInputs(false, levels[level + 2], Some(lo), Some(hi));
        if TotalFileSize(overlaps) > MAX_GRANDPARENT_OVERLAP { break; }
        level := level + 1;
      }
    }
  }

  // ---------------------------------------------------- inputs of a compaction

  function RangeLo(fs: seq<File>): (k: Key)
    requires fs != []
    ensures forall f | f in fs :: k <= f.smallest.key
    ensures exists f :: f in fs && f.smallest.key == k
  {
    if |fs| == 1 then assert fs[0] in fs; fs[0].smallest.key else
    var r := RangeLo(fs[1..]);
    assert fs == [fs[0]] + fs[1..];
    if fs[0].smallest.key < r then fs[0].smallest.key else r
  }

  function RangeHi(fs: seq<File>): (k: Key)
    requires fs != []
    ensures forall f | f in fs :: f.largest.key <= k
    ensures exists f :: f in fs && f.largest.key == k
  {
    if |fs| == 1 then assert fs[0] in fs; fs[0].largest.key else
    var r := RangeHi(fs[1..]);
    assert fs == [fs[0]] + fs[1..];
    if fs[0].largest.key > r then fs[0].largest.key else r
  }

  /** The files lie within [lo, hi] and leave no gap in it. */
  ghost predicate Spans(fs: seq<File>, lo: Key, hi: Key) {
    && (forall f | f in fs :: lo <= f.smallest.key && f.largest.key <= hi)
    && (forall x | lo <= x <= hi :: InOne(fs, x))
  }

  ghost predicate InOne(fs: seq<File>, x: Key) {
    exists f :: f in fs && Covers(f, x)
  }

  /** What the picker promises about the inputs it hands to a compaction. */
  ghost predicate Picked(levels: seq<seq<File>>, level: nat, in0: seq<File>, in1: seq<File>) {
    && level + 1 < NUM_LEVELS == |levels| && in0 != []
    && (forall f | f in in0 :: f in levels[level])
    && (forall f | f in in1 :: f in levels[level + 1] && Touches(f, RangeLo(in0), RangeHi(in0)))
    && (forall g | g in levels[level + 1] && Touches(g, RangeLo(in0), RangeHi(in0)) :: g in in1)
    && (level == 0 ==> forall g | g in levels[0] && Touches(g, RangeLo(in0), RangeHi(in0)) :: g in in0)
    && Spans(in0 + in1, RangeLo(in0 + in1), RangeHi(in0 + in1))
  }

  lemma SpansIsRange(fs: seq<File>, lo: Key, hi: Key)
    requires fs != [] && FilesOk(fs) && Spans(fs, lo, hi)
    ensures RangeLo(fs) == lo && RangeHi(fs) == hi
  {
    var f := fs[0];
    assert f in fs && FileOk(f);
    WithinRange(f, f.largest);
    assert lo <= hi;
    assert InOne(fs, lo) && InOne(fs, hi);
  }

  /** Adding files that touch a gap-free range keeps it gap-free. */
  lemma SpansGrow(A: seq<File>, lo: Key, hi: Key, B: seq<File>)
    requires A != [] && FilesOk(A) && FilesOk(B) && Spans(A, lo, hi)
    requires forall g | g in B :: Touches(g, lo, hi)
    ensures Spans(A + B, RangeLo(A + B), RangeHi(A + B))
  {
    SpansIsRange(A, lo, hi);
    var all := A + B;
    var l, h := RangeLo(all), RangeHi(all);
    forall x | l <= x <= h ensures InOne(all, x) {
      if x < lo {
        var g :| g in all && g.smallest.key == l;
        assert Covers(g, x);
      } else if hi < x {
        var g :| g in all && g.largest.key == h;
        assert Covers(g, x);
      } else {
        assert InOne(A, x);
        var f :| f in A && Covers(f, x);
        assert f in all;
      }
    }
  }

  lemma SpansSameFiles(A: seq<File>, B: seq<File>, lo: Key, hi: Key)
    requires Spans(A, lo, hi) && forall f :: f in A <==> f in B
    ensures Spans(B, lo, hi)
  {
    forall x | lo <= x <= hi ensures InOne(B, x) {
      assert InOne(A, x);
      var f :| f in A && Covers(f, x);
      assert f in B;
    }
  }

  /** The last internal key of the files. */
  function LastKey(fs: seq<File>): Entry
    requires fs != []
  {
    if |fs| == 1 then fs[0].largest else
    var e := LastKey(fs[..|fs| - 1]);
    if Before(e, fs[|fs| - 1].largest) then fs[|fs| - 1].largest else e
  }

  lemma {:induction false} LastKeyIsLast(fs: seq<File>)
    requires fs != []
    ensures forall f | f in fs :: !Before(LastKey(fs), f.largest)
    ensures exists f :: f in fs && f.largest == LastKey(fs)
  {
    if |fs| > 1 {
      LastKeyIsLast(fs[..|fs| - 1]);
      assert fs == fs[..|fs| - 1] + [fs[|fs| - 1]];
    } else {
      assert fs[0] in fs;
    }
  }

  lemma LastKeyRange(fs: seq<File>)
    requires fs != []
    ensures LastKey(fs).key == RangeHi(fs)
  {
    hide LastKey, RangeHi;
    LastKeyIsLast(fs);
  }

  /** GetRange: the hull of the user-key ranges, and the last internal key. */
  method GetRange(fs: seq<File>) returns (smallest: Entry, largest: Entry)
    requires fs != []
    ensures smallest.key == RangeLo(fs) && largest.key == RangeHi(fs) && largest == LastKey(fs)
  {
    hide RangeLo, RangeHi;
    smallest, largest := fs[0].smallest, fs[0].largest;
    assert fs[0] in fs && fs[..1] == [fs[0]];
    for i := 1 to |fs|
      invariant forall j | 0 <= j < i :: smallest.key <= fs[j].smallest.key
      invariant exists f :: f in fs && f.smallest.key == smallest.key
      invariant largest == LastKey(fs[..i])
    {
      assert fs[i] in fs && fs[..i + 1][..i] == fs[..i];
      if Before(fs[i].smallest, smallest) { smallest := fs[i].smallest; }
      if Before(largest, fs[i].largest) { largest := fs[i].largest; }
    }
    assert fs[..|fs|] == fs;
    LastKeyRange(fs);
  }

  /** A level-0 start set, closed under overlap and gap-free; or files of a sorted level. */
  ghost predicate GoodStart(levels: seq<seq<File>>, level: nat, in0: seq<File>) {
    && level + 1 < NUM_LEVELS == |levels| && in0 != []
    && (forall f | f in in0 :: f in levels[level])
    && (level == 0 ==> forall g | g in levels[0] && Touches(g, RangeLo(in0), RangeHi(in0)) :: g in in0)
    && Spans(in0, RangeLo(in0), RangeHi(in0))
  }

  /** The next level's files that meet `in0`. */
  function Parents(levels: seq<seq<File>>, level: nat, in0: seq<File>): seq<File>
    requires level + 1 < |levels| && in0 != []
  {
    Selected(levels[level + 1], Some(RangeLo(in0)), Some(RangeHi(in0)))
  }

  function Grandparents(levels: seq<seq<File>>, level: nat, all: seq<File>): seq<File>
    requires |levels| == NUM_LEVELS && all != []
  {
    if level + 2 < NUM_LEVELS then Selected(levels[level + 2], Some(RangeLo(all)), Some(RangeHi(all))) else []
  }

  /** What GetOverlappingInputs selects: at level 0 the range is first widened until no file sticks out of it. */
  ghost predicate Overlapping(level: nat, fs: seq<File>, lo: Key, hi: Key, inputs: seq<File>) {
    if level == 0 then
      exists l, h :: WidenedGapFree(fs, Some(lo), Some(hi), Some(l), Some(h)) && inputs == Selected(fs, Some(l), Some(h))
                     && ClosedUnder(inputs, Some(l), Some(h))
    else inputs == Selected(fs, Some(lo), Some(hi))
  }

  /** More files of `level` can be had: no more of the next level are needed, and the whole stays below the limit. */
  ghost predicate Expands(levels: seq<seq<File>>, level: nat, start: seq<File>, wide: seq<File>)
    requires level + 1 < |levels| && start != []
  {
    && |wide| > |start| && TotalFileSize(Parents(levels, level, start)) + TotalFileSize(wide) < EXPANDED_COMPACTION_LIMIT
    && |Parents(levels, level, wide)| == |Parents(levels, level, start)|
  }

  /** The inputs SetupOtherInputs makes of its start files. */
  ghost predicate InputsFrom(levels: seq<seq<File>>, level: nat, start: seq<File>, in0: seq<File>, in1: seq<File>)
    requires level + 1 < |levels| && start != []
  {
    var parents := Parents(levels, level, start);
    if parents == [] then in0 == start && in1 == []
    else exists wide :: Overlapping(level, levels[level], RangeLo(start + parents), RangeHi(start + parents), wide)
           && if Expands(levels, level, start, wide) then in0 == wide && in1 == Parents(levels, level, wide)
              else in0 == start && in1 == parents
  }

  /** SetupOtherInputs: pull in the next level's files, then try to grow for free. */
  method SetupOtherInputs(levels: seq<seq<File>>, level: nat, start: seq<File>)
    returns (in0: seq<File>, in1: seq<File>, grandparents: seq<File>, pointer: Entry)
    requires LevelsOk(levels) && GoodStart(levels, level, start)
    ensures Picked(levels, level, in0, in1) && InputsFrom(levels, level, start, in0, in1)
    ensures forall f | f in start :: f in in0
    ensures grandparents == Grandparents(levels, level, in0 + in1) && pointer == LastKey(in0)
  {
    in0 := start;
    var smallest, largest := GetRange(in0);
    ghost var gLo, gHi;
    in1, gLo, gHi := GetOverlappingInputs(false, levels[level + 1], Some(smallest.key), Some(largest.key));
    FirstPicked(levels, level, in0);
    if in1 != [] {
      in0, in1 := TryExpand(levels, level, in0, in1);
    }
    grandparents := [];
    if level + 2 < NUM_LEVELS {
      var allStart, allLimit := GetRange(in0 + in1);
      grandparents, gLo, gHi := GetOverlappingInputs(false, levels[level + 2], Some(allStart.key), Some(allLimit.key));
    }
    smallest, pointer := GetRange(in0);
  }

  lemma FirstPicked(levels: seq<seq<File>>, level: nat, in0: seq<File>)
    requires LevelsOk(levels) && GoodStart(levels, level, in0)
    ensures Picked(levels, level, in0, Parents(levels, level, in0))
  {
    var in1 := Parents(levels, level, in0);
    assert FilesOk(in0) && FilesOk(in1);
    SpansGrow(in0, RangeLo(in0), RangeHi(in0), in1);
  }

  /** More files of `level`, as long as that needs no further file of the next level. */
  method TryExpand(levels: seq<seq<File>>, level: nat, start0: seq<File>, start1: seq<File>)
    returns (in0: seq<File>, in1: seq<File>)
    requires LevelsOk(levels) && Picked(levels, level, start0, start1)
    requires start1 == Parents(levels, level, start0) && start1 != []
    ensures Picked(levels, level, in0, in1) && InputsFrom(levels, level, start0, in0, in1)
    ensures forall f | f in start0 :: f in in0
  {
    PickedShape(levels, level, start0, start1);
    hide Picked, InputsFrom, Overlapping, TotalFileSize, LastKey, RangeLo, RangeHi, WidenedGapFree, ClosedUnder, LevelsOk, Selected;
    in0, in1 := start0, start1;
    var allStart, allLimit := GetRange(in0 + in1);
    var expanded0, eLo, eHi := GetOverlappingInputs(level == 0, levels[level], Some(allStart.key), Some(allLimit.key));
    WideIs(level, levels[level], allStart.key, allLimit.key, expanded0, eLo.value, eHi.value);
    if |expanded0| > |in0| && TotalFileSize(in1) + TotalFileSize(expanded0) < EXPANDED_COMPACTION_LIMIT {
      var newStart, newLimit := GetRange(expanded0);
      var expanded1, _, _ := GetOverlappingInputs(false, levels[level + 1], Some(newStart.key), Some(newLimit.key));
      assert expanded1 == Parents(levels, level, expanded0);
      if |expanded1| == |in1| {
        ExpansionIs(levels, level, in0 + in1, expanded0, eLo.value, eHi.value);
        ExpandedIsPicked(levels, level, in0, in1, expanded0, eLo.value, eHi.value);
        in0, in1 := expanded0, expanded1;
      }
    }
    InputsAre(levels, level, start0, expanded0, in0, in1);
  }

  lemma PickedShape(levels: seq<seq<File>>, level: nat, in0: seq<File>, in1: seq<File>)
    requires LevelsOk(levels) && Picked(levels, level, in0, in1)
    ensures level + 1 < NUM_LEVELS == |levels| && in0 != [] && FilesOk(levels[level]) && FilesOk(levels[level + 1])
  {
  }

  lemma WideIs(level: nat, fs: seq<File>, lo: Key, hi: Key, wide: seq<File>, l: Key, h: Key)
    requires WidenedGapFree(fs, Some(lo), Some(hi), Some(l), Some(h)) && wide == Selected(fs, Some(l), Some(h))
    requires if level == 0 then ClosedUnder(wide, Some(l), Some(h)) else l == lo && h == hi
    ensures Overlapping(level, fs, lo, hi, wide)
  {
  }

  lemma ExpansionIs(levels: seq<seq<File>>, level: nat, all: seq<File>, wide: seq<File>, l: Key, h: Key)
    requires level < |levels| && all != [] && wide != [] && wide == Selected(levels[level], Some(l), Some(h))
    requires WidenedGapFree(levels[level], Some(RangeLo(all)), Some(RangeHi(all)), Some(l), Some(h))
    requires if level == 0 then ClosedUnder(wide, Some(l), Some(h)) else l == RangeLo(all) && h == RangeHi(all)
    ensures Expansion(levels, level, all, wide, l, h)
  {
  }

  lemma InputsAre(levels: seq<seq<File>>, level: nat, start: seq<File>, wide: seq<File>, in0: seq<File>, in1: seq<File>)
    requires level + 1 < |levels| && start != [] && Parents(levels, level, start) != []
    requires var all := start + Parents(levels, level, start); Overlapping(level, levels[level], RangeLo(all), RangeHi(all), wide)
    requires if Expands(levels, level, start, wide) then in0 == wide && in1 == Parents(levels, level, wide)
             else in0 == start && in1 == Parents(levels, level, start)
    ensures InputsFrom(levels, level, start, in0, in1)
  {
    hide Overlapping, Expands;
  }

  /** The shape of `expanded0` in SetupOtherInputs. */
  ghost predicate Expansion(levels: seq<seq<File>>, level: nat, all: seq<File>, e0: seq<File>, eLo: Key, eHi: Key) {
    && level < |levels| && all != [] && e0 != []
    && e0 == Selected(levels[level], Some(eLo), Some(eHi))
    && WidenedGapFree(levels[level], Some(RangeLo(all)), Some(RangeHi(all)), Some(eLo), Some(eHi))
    && (level != 0 ==> eLo == RangeLo(all) && eHi == RangeHi(all))
    && (level == 0 ==> ClosedUnder(e0, Some(eLo), Some(eHi)))
  }

  lemma ExpandedIsPicked(levels: seq<seq<File>>, level: nat, in0: seq<File>, in1: seq<File>, e0: seq<File>, eLo: Key, eHi: Key)
    requires LevelsOk(levels) && Picked(levels, level, in0, in1)
    requires in1 == Parents(levels, level, in0) && Expansion(levels, level, in0 + in1, e0, eLo, eHi)
    requires |Parents(levels, level, e0)| == |in1|
    ensures Picked(levels, level, e0, Parents(levels, level, e0))
    ensures forall f | f in in0 :: f in e0
  {
    assert FilesOk(in0) && FilesOk(in1);
    ExpansionKeeps(levels, level, in0, in1, e0, eLo, eHi);
    SameParents(levels, level, in0, e0);
    ExpandedSpans(levels, level, in0, in1, e0, eLo, eHi);
    ExpansionClosed(levels, level, in0 + in1, e0, eLo, eHi);
    PickedWithParents(levels, level, e0);
  }

  lemma PickedWithParents(levels: seq<seq<File>>, level: nat, e0: seq<File>)
    requires level + 1 < NUM_LEVELS == |levels| && e0 != [] && forall f | f in e0 :: f in levels[level]
    requires level == 0 ==> forall g | g in levels[0] && Touches(g, RangeLo(e0), RangeHi(e0)) :: g in e0
    requires var all := e0 + Parents(levels, level, e0); Spans(all, RangeLo(all), RangeHi(all))
    ensures Picked(levels, level, e0, Parents(levels, level, e0))
  {
    hide Spans, Touches, RangeLo, RangeHi, Parents;
    ParentsTouch(levels, level, e0);
  }

  lemma ParentsTouch(levels: seq<seq<File>>, level: nat, e0: seq<File>)
    requires level + 1 < |levels| && e0 != []
    ensures forall f :: f in Parents(levels, level, e0) <==> f in levels[level + 1] && Touches(f, RangeLo(e0), RangeHi(e0))
  {
    hide RangeLo, RangeHi;
  }

  lemma ExpansionClosed(levels: seq<seq<File>>, level: nat, all: seq<File>, e0: seq<File>, eLo: Key, eHi: Key)
    requires Expansion(levels, level, all, e0, eLo, eHi)
    ensures level == 0 ==> forall g | g in levels[0] && Touches(g, RangeLo(e0), RangeHi(e0)) :: g in e0
  {
    if level == 0 {
      assert eLo <= RangeLo(e0) && RangeHi(e0) <= eHi;
    }
  }

  lemma ExpansionKeeps(levels: seq<seq<File>>, level: nat, in0: seq<File>, in1: seq<File>, e0: seq<File>, eLo: Key, eHi: Key)
    requires LevelsOk(levels) && level < NUM_LEVELS && forall f | f in in0 :: f in levels[level]
    requires Expansion(levels, level, in0 + in1, e0, eLo, eHi)
    ensures forall f | f in in0 :: f in e0
  {
    forall f | f in in0 ensures f in e0 {
      assert f in in0 + in1 && f in levels[level];
      assert FileOk(f);
      WithinRange(f, f.largest);
    }
  }

  lemma SameParents(levels: seq<seq<File>>, level: nat, in0: seq<File>, e0: seq<File>)
    requires level + 1 < |levels| && in0 != [] && e0 != [] && forall f | f in in0 :: f in e0
    requires |Parents(levels, level, e0)| == |Parents(levels, level, in0)|
    ensures Parents(levels, level, e0) == Parents(levels, level, in0)
  {
    var a :| a in in0 && a.smallest.key == RangeLo(in0);
    var b :| b in in0 && b.largest.key == RangeHi(in0);
    assert a in e0 && b in e0;
    SelectedSameCount(levels[level + 1], Some(RangeLo(in0)), Some(RangeHi(in0)), Some(RangeLo(e0)), Some(RangeHi(e0)));
  }

  lemma ExpandedSpans(levels: seq<seq<File>>, level: nat, in0: seq<File>, in1: seq<File>, e0: seq<File>, eLo: Key, eHi: Key)
    requires LevelsOk(levels) && level + 1 < NUM_LEVELS && FilesOk(in0) && FilesOk(in1)
    requires Expansion(levels, level, in0 + in1, e0, eLo, eHi)
    requires Spans(in0 + in1, RangeLo(in0 + in1), RangeHi(in0 + in1))
    requires forall f | f in in0 :: f in e0
    ensures Spans(e0 + in1, RangeLo(e0 + in1), RangeHi(e0 + in1))
  {
    var all := in0 + in1;
    var lo, hi := RangeLo(all), RangeHi(all);
    if level == 0 {
      forall x | eLo <= x <= eHi ensures InOne(e0 + in1, x) {
        if x < lo || hi < x {
          assert InSome(levels[level], Some(eLo), Some(eHi), x);
          var f :| f in levels[level] && Overlaps(f, Some(eLo), Some(eHi)) && Covers(f, x);
          assert f in e0 + in1;
        } else {
          assert InOne(all, x);
          var f :| f in all && Covers(f, x);
          assert f in e0 + in1;
        }
      }
      assert Spans(e0 + in1, eLo, eHi) by {
        forall f | f in e0 + in1 ensures eLo <= f.smallest.key && f.largest.key <= eHi {
          if f in in1 { assert f in all; }
        }
      }
      SpansIsRange(e0 + in1, eLo, eHi);
    } else {
      SpansGrow(all, lo, hi, e0);
      assert forall f :: f in all + e0 <==> f in e0 + in1;
      SpansSameFiles(all + e0, e0 + in1, RangeLo(all + e0), RangeHi(all + e0));
      SpansIsRange(e0 + in1, RangeLo(all + e0), RangeHi(all + e0));
    }
  }

  // ------------------------------------------------------ when, and from which file

  const MB: nat := 1048576

  function TenTo(n: nat): (r: nat)
    ensures r >= 1
  {
    if n == 0 then 1 else 10 * TenTo(n - 1)
  }

  /** Ten megabytes at level 1, ten times more at each level below. */
  function MaxBytes(level: nat): (r: nat)
    ensures r > 0
  {
    MB * TenTo(if level <= 1 then 1 else level)
  }

  method MaxBytesForLevel(level: nat) returns (result: real)
    ensures result == MaxBytes(level) as real
  {
    result := 10485760.0;
    var l := level;
    assert TenTo(1) == 10 * TenTo(0);
    while l > 1
      invariant l <= level && (l > 1 ==> level > 1)
      invariant (if l > 1 then TenTo(l - 1) as real * result else result) == MaxBytes(level) as real
    {
      result := result * 10.0;
      l := l - 1;
    }
  }

  /** Level 0 is measured in files, the others in bytes. */
  function Score(levels: seq<seq<File>>, level: nat): (r: real)
    requires level < |levels|
    ensures r >= 0.0
  {
    if level == 0 then |levels[0]| as real / L0_COMPACTION_TRIGGER as real
    else TotalFileSize(levels[level]) as real / MaxBytes(level) as real
  }

  lemma Ratio(a: real, b: real)
    requires b > 0.0
    ensures a / b <= 1.0 <==> a <= b
    ensures a / b >= 1.0 <==> a >= b
  {
    var r := a / b;
    assert r * b == a;
  }

  /** The budgets of the levels that are measured in bytes. */
  lemma Budgets()
    ensures MaxBytes(1) == 10 * MB && MaxBytes(2) == 100 * MB && MaxBytes(3) == 1000 * MB
    ensures MaxBytes(4) == 10000 * MB && MaxBytes(5) == 100000 * MB
  {
    assert TenTo(1) == 10 * TenTo(0);
    assert TenTo(2) == 10 * TenTo(1) && TenTo(3) == 10 * TenTo(2);
    assert TenTo(4) == 10 * TenTo(3) && TenTo(5) == 10 * TenTo(4);
  }

  /** No level is over its budget. */
  predicate WithinBudgets(levels: seq<seq<File>>) {
    && |levels| == NUM_LEVELS == 7 && |levels[0]| < 4
    && TotalFileSize(levels[1]) < 10 * MB && TotalFileSize(levels[2]) < 100 * MB && TotalFileSize(levels[3]) < 1000 * MB
    && TotalFileSize(levels[4]) < 10000 * MB && TotalFileSize(levels[5]) < 100000 * MB
  }

  lemma ScoresLow(levels: seq<seq<File>>)
    requires |levels| == NUM_LEVELS
    ensures WithinBudgets(levels) <==> forall l | 0 <= l < NUM_LEVELS - 1 :: Score(levels, l) < 1.0
  {
    hide TotalFileSize, MaxBytes;
    Budgets();
    Ratio(|levels[0]| as real, 4.0);
    assert (Score(levels, 0) < 1.0) == (|levels[0]| < 4);
    forall l | 1 <= l < NUM_LEVELS - 1 ensures Score(levels, l) < 1.0 <==> TotalFileSize(levels[l]) < MaxBytes(l) {
      Ratio(TotalFileSize(levels[l]) as real, MaxBytes(l) as real);
    }
    if forall l | 0 <= l < NUM_LEVELS - 1 :: Score(levels, l) < 1.0 {
      assert Score(levels, 1) < 1.0 && Score(levels, 2) < 1.0 && Score(levels, 3) < 1.0 && Score(levels, 4) < 1.0 && Score(levels, 5) < 1.0;
    }
  }

  /** The first of the levels with the highest score; the last level has none. */
  ghost predicate IsBest(levels: seq<seq<File>>, best: nat) {
    && |levels| == NUM_LEVELS && best + 1 < NUM_LEVELS
    && (forall l | 0 <= l < best :: Score(levels, l) < Score(levels, best))
    && (forall l | best < l < NUM_LEVELS - 1 :: Score(levels, l) <= Score(levels, best))
  }

  method Finalize(levels: seq<seq<File>>) returns (best: nat, score: real)
    requires |levels| == NUM_LEVELS
    ensures IsBest(levels, best) && score == Score(levels, best)
  {
    best, score := 0, -1.0;
    for level := 0 to NUM_LEVELS - 1
      invariant best <= level && best + 1 < NUM_LEVELS
      invariant if level == 0 then score == -1.0 else best < level && score == Score(levels, best)
      invariant forall l | 0 <= l < level :: Score(levels, l) <= score && (l < best ==> Score(levels, l) < score)
    {
      var next;
      if level == 0 {
        next := |levels[0]| as real / L0_COMPACTION_TRIGGER as real;
      } else {
        var limit := MaxBytesForLevel(level);
        next := TotalFileSize(levels[level]) as real / limit;
      }
      if next > score { best, score := level, next; }
    }
  }

  /** Why a compaction was started: a level over its budget, or one file read too often. */
  datatype Trigger = BySize | BySeek(level: nat, file: File)

  /** The file a compaction by size starts from: the first one past the level's pointer, wrapping around. */
  ghost predicate StartsFrom(fs: seq<File>, pointer: Option<Entry>, f: File) {
    match pointer
    case None => fs != [] && f == fs[0]
    case Some(p) =>
      if forall g | g in fs :: !Before(p, g.largest) then fs != [] && f == fs[0]
      else exists i :: 0 <= i < |fs| && f == fs[i] && Before(p, f.largest)
                       && forall j | 0 <= j < i :: !Before(p, fs[j].largest)
  }

  function PointerAt(pointers: map<nat, Entry>, level: nat): Option<Entry> {
    if level in pointers then Some(pointers[level]) else None
  }

  /** A compaction at `level` is due and starts from `f`; size comes before seeks. */
  ghost predicate Due(levels: seq<seq<File>>, pointers: map<nat, Entry>, cause: Trigger, level: nat, f: File) {
    && level + 1 < NUM_LEVELS == |levels| && f in levels[level]
    && match cause
       case BySize => IsBest(levels, level) && Score(levels, level) >= 1.0 && StartsFrom(levels[level], PointerAt(pointers, level), f)
       case BySeek(l, g) => l == level && g == f && forall m | 0 <= m < NUM_LEVELS - 1 :: Score(levels, m) < 1.0
  }

  ghost predicate StartSetOf(levels: seq<seq<File>>, level: nat, f: File, start: seq<File>)
    requires level < |levels|
  {
    start != [] && if level == 0 then Overlapping(0, levels[0], f.smallest.key, f.largest.key, start) else start == [f]
  }

  /** Exactly the inputs the picker comes to from the file `f`, with what it promises about them. */
  ghost predicate PickedFrom(levels: seq<seq<File>>, level: nat, f: File, in0: seq<File>, in1: seq<File>) {
    Picked(levels, level, in0, in1) && exists start :: StartSetOf(levels, level, f, start) && InputsFrom(levels, level, start, in0, in1)
  }

  /** One file, nothing of the next level, and not too much of the level after that: it is moved, not merged. */
  predicate IsTrivialMove(levels: seq<seq<File>>, level: nat, in0: seq<File>, in1: seq<File>)
    requires |levels| == NUM_LEVELS
  {
    |in0| == 1 && in1 == [] && TotalFileSize(Grandparents(levels, level, in0 + in1)) <= MAX_GRANDPARENT_OVERLAP
  }

  datatype Pick = Pick(cause: Trigger, level: nat, start: File, in0: seq<File>, in1: seq<File>, grandparents: seq<File>, pointer: Entry)

  /** PickCompaction. `charged` is the file whose seeks are used up, and its level. */
  method PickCompaction(levels: seq<seq<File>>, pointers: map<nat, Entry>, charged: Option<(nat, File)>) returns (pick: Option<Pick>)
    requires LevelsOk(levels) && (charged.Some? ==> charged.value.0 + 1 < NUM_LEVELS && charged.value.1 in levels[charged.value.0])
    ensures pick.None? <==> charged.None? && WithinBudgets(levels)
    ensures pick.Some? ==> var p := pick.value;
              && Due(levels, pointers, p.cause, p.level, p.start) && PickedFrom(levels, p.level, p.start, p.in0, p.in1)
              && p.start in p.in0 && p.grandparents == Grandparents(levels, p.level, p.in0 + p.in1) && p.pointer == LastKey(p.in0)
  {
    hide Picked, InputsFrom, StartSetOf, StartsFrom, Grandparents, LastKey, GoodStart, TotalFileSize;
    ScoresLow(levels);
    var level, score := Finalize(levels);
    var f: File;
    var cause := BySize;
    if score >= 1.0 {
      HighScoreHasFiles(levels, level);
      f := PickStart(levels[level], PointerAt(pointers, level));
    } else if charged.Some? {
      level, f := charged.value.0, charged.value.1;
      cause := BySeek(level, f);
    } else {
      return None;
    }
    var start := StartSet(levels, level, f);
    var in0, in1, grandparents, pointer := SetupOtherInputs(levels, level, start);
    pick := Some(Pick(cause, level, f, in0, in1, grandparents, pointer));
  }

  lemma HighScoreHasFiles(levels: seq<seq<File>>, level: nat)
    requires level < |levels| && Score(levels, level) >= 1.0
    ensures levels[level] != []
  {
  }

  /** At level 0 the picked file brings along every file its range reaches. */
  method StartSet(levels: seq<seq<File>>, level: nat, f: File) returns (start: seq<File>)
    requires LevelsOk(levels) && level + 1 < NUM_LEVELS && f in levels[level]
    ensures f in start && GoodStart(levels, level, start) && StartSetOf(levels, level, f, start)
  {
    assert FileOk(f);
    start := [f];
    if level == 0 {
      ghost var lo, hi;
      start, lo, hi := GetOverlappingInputs(true, levels[0], Some(f.smallest.key), Some(f.largest.key));
      ClosureSpans(levels[0], f, start, lo.value, hi.value);
    } else {
      SingleSpans(f);
    }
  }

  lemma SingleSpans(f: File)
    requires FileOk(f)
    ensures Spans([f], RangeLo([f]), RangeHi([f]))
  {
    WithinRange(f, f.largest);
    assert f in [f];
  }

  method PickStart(fs: seq<File>, pointer: Option<Entry>) returns (f: File)
    requires fs != []
    ensures StartsFrom(fs, pointer, f) && f in fs
  {
    var i := 0;
    while i < |fs| && !(pointer.None? || Before(pointer.value, fs[i].largest))
      invariant i <= |fs|
      invariant forall j | 0 <= j < i :: pointer.Some? && !Before(pointer.value, fs[j].largest)
    {
      i := i + 1;
    }
    f := if i < |fs| then fs[i] else fs[0];
    assert i < |fs| ==> fs[i] in fs;
  }

  lemma ClosureSpans(fs: seq<File>, f: File, start: seq<File>, lo: Key, hi: Key)
    requires FilesOk(fs) && f in fs && start == Selected(fs, Some(lo), Some(hi))
    requires WidenedGapFree(fs, Some(f.smallest.key), Some(f.largest.key), Some(lo), Some(hi))
    requires ClosedUnder(start, Some(lo), Some(hi))
    ensures f in start && Spans(start, RangeLo(start), RangeHi(start))
    ensures RangeLo(start) == lo && RangeHi(start) == hi
  {
    WithinRange(f, f.largest);
    assert f in start;
    forall x | lo <= x <= hi ensures InOne(start, x) {
      if x < f.smallest.key || f.largest.key < x {
        assert InSome(fs, Some(lo), Some(hi), x);
        var g :| g in fs && Overlaps(g, Some(lo), Some(hi)) && Covers(g, x);
        assert g in start;
      } else {
        assert Covers(f, x);
      }
    }
    SpansIsRange(start, lo, hi);
  }
}
