/**
 Installing a new version: some files of two adjacent levels leave, new ones join the
 lower of the two. A flush, a trivial move and a merge compaction are all of this form.
 */
module Swaps {
  import opened Entries
  import opened Versions
  import opened VersionOrder

  /** `f` at level `l` is one of the files taken from `level` (in0) or `level`+1 (in1). */
  ghost predicate IsInput(level: int, in0: seq<File>, in1: seq<File>, l: int, f: File) {
    (l == level && f in in0) || (l == level + 1 && f in in1)
  }

  ghost predicate Stays(levels: seq<seq<File>>, level: int, in0: seq<File>, in1: seq<File>, l: int, f: File) {
    Placed(levels, l, f) && !IsInput(level, in0, in1, l, f)
  }

  /** `levels'` is `levels` without the inputs and with `outs` at `level`+1. */
  ghost predicate Swapped(levels: seq<seq<File>>, level: int, in0: seq<File>, in1: seq<File>, outs: seq<File>,
                          levels': seq<seq<File>>) {
    && |levels'| == |levels| && 0 <= level + 1 < |levels|
    && (forall l | 0 <= l < |levels'| :: SortedBySmallest(levels'[l]))
    && (forall l, f :: Placed(levels', l, f) <==> Stays(levels, level, in0, in1, l, f) || (l == level + 1 && f in outs))
  }

  /** The new files are well formed and their numbers clash with no file that stays. */
  ghost predicate FreshFiles(levels: seq<seq<File>>, level: int, in0: seq<File>, in1: seq<File>, outs: seq<File>) {
    && FilesOk(outs)
    && (forall o, p | o in outs && p in outs && o.number == p.number :: o == p)
    && (forall o, l, f | o in outs && Stays(levels, level, in0, in1, l, f) :: f.number != o.number)
  }

  lemma SwapShaped(levels: seq<seq<File>>, level: int, in0: seq<File>, in1: seq<File>, outs: seq<File>, levels': seq<seq<File>>)
    requires Shaped(levels) && Swapped(levels, level, in0, in1, outs, levels')
    requires FreshFiles(levels, level, in0, in1, outs)
    ensures Shaped(levels')
  {
  }

  /** Where the new files go, everything above stays newer than them and everything below older. */
  ghost predicate FitsByAge(levels: seq<seq<File>>, level: int, in0: seq<File>, in1: seq<File>, outs: seq<File>) {
    && (forall l, f, o | Stays(levels, level, in0, in1, l, f) && o in outs && l < level + 1 :: NewerFile(f, o))
    && (forall l, f, o | Stays(levels, level, in0, in1, l, f) && o in outs && l > level + 1 :: NewerFile(o, f))
    && (level + 1 == 0 ==> |outs| == 1 && forall f | Stays(levels, level, in0, in1, 0, f) ::
          outs[0].number > f.number && NewerFile(outs[0], f))
  }

  lemma SwapAgeOrdered(levels: seq<seq<File>>, level: int, in0: seq<File>, in1: seq<File>, outs: seq<File>, levels': seq<seq<File>>)
    requires AgeOrdered(levels) && Swapped(levels, level, in0, in1, outs, levels')
    requires FitsByAge(levels, level, in0, in1, outs)
    ensures AgeOrdered(levels')
  {
    forall f, g | Placed(levels', 0, f) && Placed(levels', 0, g) && f.number > g.number ensures NewerFile(f, g) {
      if level + 1 == 0 && f in outs {
        assert f == outs[0];
        assert Stays(levels, level, in0, in1, 0, g);
      }
    }
  }

  ghost predicate FitsApart(levels: seq<seq<File>>, level: int, in0: seq<File>, in1: seq<File>, outs: seq<File>) {
    level + 1 >= 1 ==>
      && (forall o, p | o in outs && p in outs && o != p :: Apart(o, p))
      && (forall o, l, f | o in outs && Stays(levels, level, in0, in1, l, f) && l == level + 1 :: Apart(o, f))
  }

  lemma SwapApart(levels: seq<seq<File>>, level: int, in0: seq<File>, in1: seq<File>, outs: seq<File>, levels': seq<seq<File>>)
    requires LevelsApart(levels) && Swapped(levels, level, in0, in1, outs, levels')
    requires FitsApart(levels, level, in0, in1, outs)
    ensures LevelsApart(levels')
  {
    forall l, f, g | 1 <= l && Placed(levels', l, f) && Placed(levels', l, g) && f != g ensures Apart(f, g) {
      if Stays(levels, level, in0, in1, l, f) {
        if !Stays(levels, level, in0, in1, l, g) { assert Apart(g, f); }
      } else if Stays(levels, level, in0, in1, l, g) {
        assert Apart(f, g);
      }
    }
  }

  lemma SwapOk(levels: seq<seq<File>>, level: int, in0: seq<File>, in1: seq<File>, outs: seq<File>, levels': seq<seq<File>>)
    requires VersionOk(levels) && Swapped(levels, level, in0, in1, outs, levels')
    requires FreshFiles(levels, level, in0, in1, outs)
    requires FitsByAge(levels, level, in0, in1, outs) && FitsApart(levels, level, in0, in1, outs)
    ensures VersionOk(levels')
  {
    assert Shaped(levels') by { SwapShaped(levels, level, in0, in1, outs, levels'); }
    assert AgeOrdered(levels') by { SwapAgeOrdered(levels, level, in0, in1, outs, levels'); }
    assert LevelsApart(levels') by { SwapApart(levels, level, in0, in1, outs, levels'); }
  }

  /** What stays on disk. */
  ghost function RestOf(levels: seq<seq<File>>, level: int, in0: seq<File>, in1: seq<File>): set<Entry> {
    set l, f, e | 0 <= l < |levels| && f in levels[l] && !IsInput(level, in0, in1, l, f) && e in f.entries :: e
  }

  lemma InDisk(levels: seq<seq<File>>, e: Entry)
    ensures e in Disk(levels) <==> exists l, f :: Placed(levels, l, f) && e in f.entries
  {
    InDiskFrom(levels, 0, e);
  }

  lemma SwapDisk(levels: seq<seq<File>>, level: int, in0: seq<File>, in1: seq<File>, outs: seq<File>, levels': seq<seq<File>>)
    requires Swapped(levels, level, in0, in1, outs, levels')
    requires forall l, f | IsInput(level, in0, in1, l, f) :: Placed(levels, l, f)
    ensures Disk(levels) == RestOf(levels, level, in0, in1) + Held(in0) + Held(in1)
    ensures Disk(levels') == RestOf(levels, level, in0, in1) + Held(outs)
  {
    var rest := RestOf(levels, level, in0, in1);
    forall e ensures e in Disk(levels) <==> e in rest + Held(in0) + Held(in1) {
      InDisk(levels, e);
      if e in Disk(levels) {
        var l, f :| Placed(levels, l, f) && e in f.entries;
        assert IsInput(level, in0, in1, l, f) || e in rest;
      }
      if e in Held(in0) {
        var f :| f in in0 && e in f.entries;
        assert IsInput(level, in0, in1, level, f);
      }
      if e in Held(in1) {
        var f :| f in in1 && e in f.entries;
        assert IsInput(level, in0, in1, level + 1, f);
      }
      if e in rest {
        var l, f :| 0 <= l < |levels| && f in levels[l] && !IsInput(level, in0, in1, l, f) && e in f.entries;
        assert Placed(levels, l, f);
      }
    }
    forall e ensures e in Disk(levels') <==> e in rest + Held(outs) {
      InDisk(levels', e);
      if e in Disk(levels') {
        var l, f :| Placed(levels', l, f) && e in f.entries;
        assert Stays(levels, level, in0, in1, l, f) ==> e in rest;
      }
      if e in rest {
        var l, f :| 0 <= l < |levels| && f in levels[l] && !IsInput(level, in0, in1, l, f) && e in f.entries;
        assert Stays(levels, level, in0, in1, l, f);
        assert Placed(levels', l, f);
      }
      if e in Held(outs) {
        var f :| f in outs && e in f.entries;
        assert Placed(levels', level + 1, f);
      }
    }
  }
}
