/**
 What makes a version readable level by level, and the read path over a whole version.
 */
module VersionOrder {
  import opened Entries
  import opened Versions
  import opened Picking

  ghost predicate Placed(levels: seq<seq<File>>, l: int, f: File) {
    0 <= l < |levels| && f in levels[l]
  }

  /** Every entry of `f` is newer than any entry of `g` for the same user key. */
  ghost predicate NewerFile(f: File, g: File) {
    forall a, b | a in f.entries && b in g.entries && a.key == b.key :: a.sn > b.sn
  }

  /** Disjoint as ranges of internal keys. */
  predicate Apart(f: File, g: File) {
    Before(f.largest, g.smallest) || Before(g.largest, f.smallest)
  }

  /** The order files are kept in: by smallest internal key, then by number. */
  predicate SmallestLess(f: File, g: File) {
    || Before(f.smallest, g.smallest)
    || (f.smallest.key == g.smallest.key && f.smallest.sn == g.smallest.sn && f.number < g.number)
  }

  predicate SortedBySmallest(fs: seq<File>) {
    forall i, j {:trigger SmallestLess(fs[i], fs[j])} | 0 <= i < j < |fs| :: SmallestLess(fs[i], fs[j])
  }

  /** File numbers are unique over all levels. */
  ghost predicate NumbersUnique(levels: seq<seq<File>>) {
    forall l, m, f, g | Placed(levels, l, f) && Placed(levels, m, g) && f.number == g.number :: l == m && f == g
  }

  /** Within level 0 larger numbers are newer. */
  ghost predicate ZeroAged(levels: seq<seq<File>>) {
    forall f, g | Placed(levels, 0, f) && Placed(levels, 0, g) && f.number > g.number :: NewerFile(f, g)
  }

  /** Shallower levels are newer. */
  ghost predicate AgeOrdered(levels: seq<seq<File>>) {
    && (forall l, m, f, g | Placed(levels, l, f) && Placed(levels, m, g) && l < m :: NewerFile(f, g))
    && ZeroAged(levels)
  }

  ghost predicate LevelsApart(levels: seq<seq<File>>) {
    forall l, f, g | 1 <= l && Placed(levels, l, f) && Placed(levels, l, g) && f != g :: Apart(f, g)
  }

  ghost predicate Shaped(levels: seq<seq<File>>) {
    && |levels| == NUM_LEVELS
    && (forall l, f | Placed(levels, l, f) :: FileOk(f))
    && (forall l | 0 <= l < NUM_LEVELS :: SortedBySmallest(levels[l]))
    && NumbersUnique(levels)
  }

  ghost predicate VersionOk(levels: seq<seq<File>>) {
    Shaped(levels) && AgeOrdered(levels) && LevelsApart(levels)
  }

  lemma SortedAndApart(fs: seq<File>)
    requires FilesOk(fs) && SortedBySmallest(fs)
    requires forall f, g | f in fs && g in fs && f != g :: Apart(f, g)
    ensures SortedLevel(fs)
  {
    forall i, j | 0 <= i < j < |fs| ensures Before(fs[i].largest, fs[j].smallest) {
      assert SmallestLess(fs[i], fs[j]);
      assert fs[i] in fs && fs[j] in fs;
      WithinRange(fs[i], fs[i].largest);
      WithinRange(fs[j], fs[j].largest);
    }
  }

  lemma VersionLevelsOk(levels: seq<seq<File>>)
    requires Shaped(levels) && LevelsApart(levels)
    ensures LevelsOk(levels)
  {
    forall l | 0 <= l < NUM_LEVELS ensures FilesOk(levels[l]) {
      assert forall f | f in levels[l] :: Placed(levels, l, f);
    }
    forall l | 1 <= l < NUM_LEVELS ensures SortedLevel(levels[l]) {
      assert forall f | f in levels[l] :: Placed(levels, l, f);
      SortedAndApart(levels[l]);
    }
  }

  lemma LevelNumbersDistinct(levels: seq<seq<File>>, l: nat)
    requires Shaped(levels) && l < NUM_LEVELS
    ensures DistinctNumbers(levels[l])
  {
    forall i, j | 0 <= i < j < |levels[l]| ensures levels[l][i].number != levels[l][j].number {
      assert SmallestLess(levels[l][i], levels[l][j]);
      assert Placed(levels, l, levels[l][i]) && Placed(levels, l, levels[l][j]);
    }
  }

  // ------------------------------------------------------------- the read path

  /** The entries stored at level `l` and deeper. */
  ghost function DiskFrom(levels: seq<seq<File>>, l: nat): set<Entry>
    decreases |levels| - l
  {
    if l >= |levels| then {} else Held(levels[l]) + DiskFrom(levels, l + 1)
  }

  ghost function Disk(levels: seq<seq<File>>): set<Entry> {
    DiskFrom(levels, 0)
  }

  lemma {:induction false} InDiskFrom(levels: seq<seq<File>>, l: nat, e: Entry)
    ensures e in DiskFrom(levels, l) <==> exists m, f :: l <= m && Placed(levels, m, f) && e in f.entries
    decreases |levels| - l
  {
    if l < |levels| {
      InDiskFrom(levels, l + 1, e);
      if e in Held(levels[l]) {
        var f :| f in levels[l] && e in f.entries;
        assert Placed(levels, l, f);
      }
    }
  }

  function SearchFrom(levels: seq<seq<File>>, l: nat, k: Key, s: nat): Option<Entry>
    decreases |levels| - l
  {
    if l >= |levels| then None
    else OrElse(if l == 0 then SearchLevel0(levels[0], k, s) else SearchLevel(levels[l], k, s),
                SearchFrom(levels, l + 1, k, s))
  }

  lemma LevelAboveRest(levels: seq<seq<File>>, l: nat)
    requires AgeOrdered(levels) && l < |levels|
    ensures Newer(Held(levels[l]), DiskFrom(levels, l + 1))
  {
    forall a, b | a in Held(levels[l]) && b in DiskFrom(levels, l + 1) && a.key == b.key ensures a.sn > b.sn {
      var f :| f in levels[l] && a in f.entries;
      InDiskFrom(levels, l + 1, b);
      var m, g :| l + 1 <= m && Placed(levels, m, g) && b in g.entries;
      assert Placed(levels, l, f) && NewerFile(f, g);
    }
  }

  lemma LevelRight(levels: seq<seq<File>>, l: nat, k: Key, s: nat)
    requires Shaped(levels) && LevelsApart(levels) && ZeroAged(levels) && l < NUM_LEVELS
    ensures Right(Held(levels[l]), k, s, if l == 0 then SearchLevel0(levels[0], k, s) else SearchLevel(levels[l], k, s))
  {
    VersionLevelsOk(levels);
    if l == 0 {
      LevelNumbersDistinct(levels, 0);
      forall f, g | f in levels[0] && g in levels[0] && f.number > g.number
        ensures Newer(Content(f.entries), Content(g.entries))
      {
        assert Placed(levels, 0, f) && Placed(levels, 0, g) && NewerFile(f, g);
      }
      SearchLevel0Right(levels[0], k, s);
    } else {
      SearchLevelRight(levels[l], k, s);
    }
  }

  /** Searching level by level finds the newest visible entry of the whole version. */
  lemma {:induction false} SearchFromRight(levels: seq<seq<File>>, l: nat, k: Key, s: nat)
    requires VersionOk(levels)
    ensures Right(DiskFrom(levels, l), k, s, SearchFrom(levels, l, k, s))
    decreases |levels| - l
  {
    if l < |levels| {
      SearchFromRight(levels, l + 1, k, s);
      LevelRight(levels, l, k, s);
      LevelAboveRest(levels, l);
      RightUnion(Held(levels[l]), DiskFrom(levels, l + 1), k, s,
                 if l == 0 then SearchLevel0(levels[0], k, s) else SearchLevel(levels[l], k, s),
                 SearchFrom(levels, l + 1, k, s));
    }
  }

  /** Version::SUGet. */
  method SearchVersion(levels: seq<seq<File>>, k: Key, s: nat) returns (r: Option<Entry>)
    requires LevelsOk(levels)
    ensures r == SearchFrom(levels, 0, k, s)
  {
    for level := 0 to NUM_LEVELS
      invariant SearchFrom(levels, 0, k, s) == SearchFrom(levels, level, k, s)
    {
      if level == 0 {
        var tmp := [];
        for i := 0 to |levels[0]|
          invariant tmp == Covering(levels[0][..i], k)
        {
          assert levels[0][..i + 1] == levels[0][..i] + [levels[0][i]];
          CoveringAppend(levels[0][..i], levels[0][i], k);
          if levels[0][i].smallest.key <= k && k <= levels[0][i].largest.key {
            tmp := tmp + [levels[0][i]];
          }
        }
        assert levels[0][..|levels[0]|] == levels[0];
        r := SearchFiles(SortNewestFirst(tmp), k, s);
        if r.Some? { return; }
      } else {
        var index := FindFile(levels[level], k, s);
        if index < |levels[level]| && !(k < levels[level][index].smallest.key) {
          r := Probe(levels[level][index].entries, k, s);
          if r.Some? { return; }
        }
      }
    }
    r := None;
  }

  lemma {:induction false} CoveringAppend(fs: seq<File>, f: File, k: Key)
    ensures Covering(fs + [f], k) == Covering(fs, k) + (if Covers(f, k) then [f] else [])
  {
    if fs != [] {
      CoveringAppend(fs[1..], f, k);
      assert (fs + [f])[1..] == fs[1..] + [f];
    }
  }

  method SearchFiles(fs: seq<File>, k: Key, s: nat) returns (r: Option<Entry>)
    ensures r == SearchInOrder(fs, k, s)
  {
    for i := 0 to |fs|
      invariant SearchInOrder(fs, k, s) == SearchInOrder(fs[i..], k, s)
    {
      r := Probe(fs[i].entries, k, s);
      if r.Some? { return; }
    }
    r := None;
  }
}
