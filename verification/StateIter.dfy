/**
 The iterator of a database: the user-facing iterator over the merging iterator over the
 memtables, the files of level 0 and the deeper levels of one state. It shows exactly the
 map that replaying the writes up to its number gives.
 */
module StateIters {
  import opened Entries
  import opened Versions
  import opened VersionOrder
  import opened Picking
  import opened Engine
  import opened EngineSafety
  import opened EngineRuns
  import M = Merger
  import opened MergedRuns
  import opened DbIters

  // -------------------------------------------------------------------- the children

  /** What the concatenating iterator of a level walks. */
  function LevelRun(fs: seq<File>): seq<Entry> {
    if fs == [] then [] else LevelRun(fs[..|fs| - 1]) + fs[|fs| - 1].entries
  }

  function LevelChildren(levels: seq<seq<File>>, l: nat): seq<seq<Entry>>
    decreases |levels| - l
  {
    if l >= |levels| then []
    else (if levels[l] == [] then [] else [LevelRun(levels[l])]) + LevelChildren(levels, l + 1)
  }

  function ZeroChildren(fs: seq<File>): (r: seq<seq<Entry>>)
    ensures |r| == |fs| && forall i | 0 <= i < |fs| :: r[i] == fs[i].entries
  {
    seq(|fs|, i requires 0 <= i < |fs| => fs[i].entries)
  }

  function MemChildren(s: State): seq<seq<Entry>> {
    [s.mem] + if s.imm.Some? then [s.imm.value] else []
  }

  function DiskChildren(levels: seq<seq<File>>): seq<seq<Entry>>
    requires levels != []
  {
    ZeroChildren(levels[0]) + LevelChildren(levels, 1)
  }

  /** The list NewInternalIterator and AddIterators build. */
  function Children(s: State): seq<seq<Entry>>
    requires s.levels != []
  {
    MemChildren(s) + DiskChildren(s.levels)
  }

  /** The children are fit to be merged, and together hold S. */
  ghost predicate Hold(children: seq<seq<Entry>>, S: set<Entry>) {
    M.ChildrenOk(children) && forall y :: M.InUnion(children, y) <==> y in S
  }

  lemma HoldBoth(a: seq<seq<Entry>>, A: set<Entry>, b: seq<seq<Entry>>, B: set<Entry>)
    requires Hold(a, A) && Hold(b, B) && forall x, y | x in A && y in B :: x.key != y.key || x.sn != y.sn
    ensures Hold(a + b, A + B)
  {
    hide Run;
    var c := a + b;
    forall i: nat, j: nat, x ensures M.Has(c, i, j, x) <==> if i < |a| then M.Has(a, i, j, x) else M.Has(b, i - |a|, j, x) {}
    forall i: nat, j: nat, x | M.Has(a, i, j, x) ensures x in A && M.Has(c, i, j, x) { assert M.InUnion(a, x); }
    forall i: nat, j: nat, x | M.Has(b, i, j, x) ensures x in B && M.Has(c, |a| + i, j, x) { assert M.InUnion(b, x); }
    forall i: nat, j: nat, x, i': nat, j': nat, x' | M.Has(c, i, j, x) && M.Has(c, i', j', x') && i != i'
      ensures x.key != x'.key || x.sn != x'.sn
    {
      Separate(a, A, b, B, i, j, x, i', j', x');
    }
    forall i | 0 <= i < |c| ensures Run(c[i]) { assert c[i] == if i < |a| then a[i] else b[i - |a|]; }
    forall y ensures M.InUnion(c, y) <==> y in A + B {
      UnionBoth(a, b, y);
    }
  }

  lemma UnionBoth(a: seq<seq<Entry>>, b: seq<seq<Entry>>, y: Entry)
    ensures M.InUnion(a + b, y) <==> M.InUnion(a, y) || M.InUnion(b, y)
  {
    if M.InUnion(a + b, y) {
      var i: nat, j: nat :| M.Has(a + b, i, j, y);
      assert if i < |a| then M.Has(a, i, j, y) else M.Has(b, i - |a|, j, y);
    }
    if M.InUnion(a, y) {
      var i: nat, j: nat :| M.Has(a, i, j, y);
      assert M.Has(a + b, i, j, y);
    }
    if M.InUnion(b, y) {
      var i: nat, j: nat :| M.Has(b, i, j, y);
      assert M.Has(a + b, |a| + i, j, y);
    }
  }

  lemma Separate(a: seq<seq<Entry>>, A: set<Entry>, b: seq<seq<Entry>>, B: set<Entry>, i: nat, j: nat, x: Entry, i': nat, j': nat, x': Entry)
    requires Hold(a, A) && Hold(b, B) && forall x, y | x in A && y in B :: x.key != y.key || x.sn != y.sn
    requires M.Has(a + b, i, j, x) && M.Has(a + b, i', j', x') && i != i'
    ensures x.key != x'.key || x.sn != x'.sn
  {
    var n := |a|;
    if i < n {
      assert M.Has(a, i, j, x) && M.InUnion(a, x);
      if i' < n { assert M.Has(a, i', j', x'); } else { assert M.Has(b, i' - n, j', x') && M.InUnion(b, x'); }
    } else {
      assert M.Has(b, i - n, j, x) && M.InUnion(b, x);
      if i' < n { assert M.Has(a, i', j', x') && M.InUnion(a, x'); } else { assert M.Has(b, i' - n, j', x'); }
    }
  }

  lemma HoldOne(run: seq<Entry>)
    requires Run(run)
    ensures Hold([run], Content(run))
  {
    hide Run;
    forall y ensures M.InUnion([run], y) <==> y in run {
      if y in run {
        var j :| 0 <= j < |run| && run[j] == y;
        assert M.Has([run], 0, j, y);
      }
    }
  }

  lemma HoldNone()
    ensures Hold([], {})
  {
  }

  // -------------------------------------------------------------------- the levels

  lemma {:induction false} LevelRunOk(fs: seq<File>)
    requires FilesOk(fs) && SortedLevel(fs)
    ensures Run(LevelRun(fs)) && Content(LevelRun(fs)) == Held(fs)
  {
    if fs != [] {
      var init, f := fs[..|fs| - 1], fs[|fs| - 1];
      assert fs == init + [f] && f in fs && forall g | g in init :: g in fs;
      assert SortedLevel(init) by {
        forall i, j | 0 <= i < j < |init| ensures Before(init[i].largest, init[j].smallest) { assert Before(fs[i].largest, fs[j].smallest); }
      }
      LevelRunOk(init);
      var a := LevelRun(init);
      forall x, y | x in a && y in f.entries ensures Before(x, y) {
        assert x in Content(a);
        var g :| g in init && x in g.entries;
        var i :| 0 <= i < |init| && init[i] == g;
        assert Before(fs[i].largest, fs[|fs| - 1].smallest);
        WithinRange(g, x);
        WithinRange(f, y);
      }
      RunJoined(a, f.entries);
      assert Held(fs) == Held(init) + Content(f.entries);
      assert Content(a + f.entries) == Content(a) + Content(f.entries);
    }
  }

  lemma RunJoined(a: seq<Entry>, b: seq<Entry>)
    requires Run(a) && Run(b) && forall x, y | x in a && y in b :: Before(x, y)
    ensures Run(a + b)
  {
    var r := a + b;
    forall i, j | 0 <= i < j < |r| ensures Before(r[i], r[j]) {
      if j < |a| {
        assert Before(a[i], a[j]);
      } else if i >= |a| {
        assert Before(b[i - |a|], b[j - |a|]);
      } else {
        assert a[i] in a && b[j - |a|] in b;
      }
    }
  }

  lemma {:induction false} LevelsHold(levels: seq<seq<File>>, l: nat)
    requires VersionOk(levels) && 1 <= l
    ensures Hold(LevelChildren(levels, l), DiskFrom(levels, l))
    decreases |levels| - l
  {
    hide Hold, VersionOk, Run;
    if l >= |levels| {
      HoldNone();
    } else {
      LevelsHold(levels, l + 1);
      assert FilesOk(levels[l]) && SortedLevel(levels[l]) by { VersionParts(levels); VersionLevelsOk(levels); }
      LevelRunOk(levels[l]);
      if levels[l] == [] {
        assert Held([]) == {};
        assert [] + LevelChildren(levels, l + 1) == LevelChildren(levels, l + 1);
        assert {} + DiskFrom(levels, l + 1) == DiskFrom(levels, l + 1);
      } else {
        HoldOne(LevelRun(levels[l]));
        assert Newer(Held(levels[l]), DiskFrom(levels, l + 1)) by { VersionParts(levels); LevelAboveRest(levels, l); }
        HoldBoth([LevelRun(levels[l])], Held(levels[l]), LevelChildren(levels, l + 1), DiskFrom(levels, l + 1));
      }
    }
  }

  lemma VersionParts(levels: seq<seq<File>>)
    requires VersionOk(levels)
    ensures Shaped(levels) && AgeOrdered(levels) && LevelsApart(levels) && |levels| == NUM_LEVELS
  {
  }

  lemma {:induction false} ZeroHold(levels: seq<seq<File>>, fs: seq<File>)
    requires VersionOk(levels) && fs <= levels[0]
    ensures Hold(ZeroChildren(fs), Held(fs))
    decreases |fs|
  {
    hide Hold, VersionOk, Run;
    if fs == [] {
      HoldNone();
      assert Held([]) == {} && ZeroChildren([]) == [];
    } else {
      var init, f := fs[..|fs| - 1], fs[|fs| - 1];
      assert fs == init + [f];
      ZeroHold(levels, init);
      VersionParts(levels);
      assert Placed(levels, 0, f) && FileOk(f);
      HoldOne(f.entries);
      ZeroApart(levels, init, f);
      HoldBoth(ZeroChildren(init), Held(init), [f.entries], Content(f.entries));
      assert ZeroChildren(fs) == ZeroChildren(init) + [f.entries];
      assert Held(fs) == Held(init) + Content(f.entries);
    }
  }

  /** Two files of level 0 share no internal key. */
  lemma ZeroApart(levels: seq<seq<File>>, init: seq<File>, f: File)
    requires VersionOk(levels) && init + [f] <= levels[0]
    ensures forall x, y | x in Held(init) && y in f.entries :: x.key != y.key || x.sn != y.sn
  {
    forall x, y | x in Held(init) && y in f.entries ensures x.key != y.key || x.sn != y.sn {
      var g :| g in init && x in g.entries;
      var i :| 0 <= i < |init| && init[i] == g;
      assert levels[0][i] == g && levels[0][|init|] == f;
      assert SmallestLess(levels[0][i], levels[0][|init|]);
      assert Placed(levels, 0, g) && Placed(levels, 0, f);
      assert g.number != f.number;
      assert NewerFile(f, g) || NewerFile(g, f);
    }
  }

  lemma DiskHold(levels: seq<seq<File>>)
    requires VersionOk(levels)
    ensures |levels| == NUM_LEVELS && Hold(DiskChildren(levels), Disk(levels))
  {
    hide Hold, VersionOk;
    VersionParts(levels);
    ZeroHold(levels, levels[0]);
    LevelsHold(levels, 1);
    LevelAboveRest(levels, 0);
    HoldBoth(ZeroChildren(levels[0]), Held(levels[0]), LevelChildren(levels, 1), DiskFrom(levels, 1));
  }

  /** The children of a state share no internal key and hold what it stores. */
  lemma ChildrenHold(s: State)
    requires MemoryOk(s) && VersionOk(s.levels)
    ensures |s.levels| == NUM_LEVELS && Hold(Children(s), Stored(s))
  {
    hide Hold, VersionOk, Run, Disk;
    DiskHold(s.levels);
    HoldOne(s.mem);
    var mem, imm, disk := Content(s.mem), Content(ImmEntries(s)), Disk(s.levels);
    if s.imm.Some? {
      HoldOne(s.imm.value);
      HoldBoth([s.mem], mem, [s.imm.value], imm);
    } else {
      assert imm == {} && mem + imm == mem && [s.mem] + [] == [s.mem];
    }
    HoldBoth(MemChildren(s), mem + imm, DiskChildren(s.levels), disk);
  }

  // ------------------------------------------------------------------ the merged run

  lemma InsertSorted(es: seq<Entry>, e: Entry)
    requires Run(es) && forall x | x in es :: x.key != e.key || x.sn != e.sn
    ensures Run(AddToRun(es, e)) && Content(AddToRun(es, e)) == Content(es) + {e}
  {
    hide SeekRun;
    var i := SeekRun(es, e.key, e.sn);
    assert AddToRun(es, e) == es[..i] + ([e] + es[i..]);
    RunSlices(es, i);
    forall x | x in es[..i] ensures Before(x, e) {}
    forall y | y in es[i..] ensures Before(e, y) {
      var j :| 0 <= j < |es[i..]| && es[i..][j] == y;
      assert es[i] in es;
      if j > 0 { assert Before(es[i], es[i + j]); }
    }
    assert Run([e]);
    RunJoined([e], es[i..]);
    forall x, y | x in es[..i] && y in [e] + es[i..] ensures Before(x, y) {
      if y != e { M.BeforeOrder(x, e, y); }
    }
    RunJoined(es[..i], [e] + es[i..]);
    assert es == es[..i] + es[i..];
  }

  lemma RunSlices(es: seq<Entry>, i: nat)
    requires Run(es) && i <= |es|
    ensures Run(es[..i]) && Run(es[i..])
  {
    forall a, b | 0 <= a < b < |es| - i ensures Before(es[i..][a], es[i..][b]) { assert Before(es[i + a], es[i + b]); }
    forall a, b | 0 <= a < b < i ensures Before(es[..i][a], es[..i][b]) { assert Before(es[a], es[b]); }
  }

  lemma {:induction false} SortedRun(S: set<Entry>) returns (es: seq<Entry>)
    requires forall x, y | x in S && y in S && x != y :: x.key != y.key || x.sn != y.sn
    ensures Run(es) && Content(es) == S
  {
    if S == {} {
      es := [];
    } else {
      var x :| x in S;
      var less := SortedRun(S - {x});
      assert forall y | y in less :: y in Content(less);
      InsertSorted(less, x);
      es := AddToRun(less, x);
    }
  }

  // ------------------------------------------------------------------- the iterator

  /** The iterator shows a key exactly when the map has it, with the map's value. */
  ghost predicate ShowsMap(es: seq<Entry>, q: nat, m: map<Key, Answer>) {
    forall k ::
      match MapGet(m, k)
      case Found(n, v) => ShowsAt(es, q, k, n, v)
      case NotFound => forall i | 0 <= i < |es| && es[i].key == k :: !Shown(es, q, i)
  }

  ghost predicate ShowsAt(es: seq<Entry>, q: nat, k: Key, n: nat, v: Bytes) {
    exists i :: 0 <= i < |es| && Shown(es, q, i) && es[i].key == k && es[i].value == v && es[i].sn == n
  }

  lemma StateShows(s: State, q: nat, es: seq<Entry>)
    requires Sound(s) && Readable(s, q) && Run(es) && Content(es) == Stored(s)
    ensures q <= |s.writes| && ShowsMap(es, q, Replay(s.writes[..q]))
  {
    hide Run, Shown, Stored, Replay, Search, Content;
    forall k ensures q <= |s.writes| && match MapGet(Replay(s.writes[..q]), k)
                     case Found(n, v) => ShowsAt(es, q, k, n, v)
                     case NotFound => forall i | 0 <= i < |es| && es[i].key == k :: !Shown(es, q, i)
    {
      ReadIsReplay(s, k, q);
      SearchIsNewest(s, k, q);
      ShownIsAnswer(es, q, k);
    }
    ReadIsReplay(s, 0.0, q);
  }

  /** NewIterator at a number that can be read: what it will show is the replayed map. */
  method NewIterator(s: State, q: SeqNo) returns (it: DBIter)
    requires Sound(s) && Readable(s, q)
    ensures it.Valid() && it.q == q && fresh(it) && fresh(it.iter) && fresh(it.iter.it) && it.iter.it.children == Children(s)
    ensures q <= |s.writes| && ShowsMap(it.es, q, Replay(s.writes[..q]))
  {
    hide Run, Stored, Content, Replay, ShowsMap, Hold;
    ChildrenHold(s);
    ghost var es := MergedOf(s);
    StateShows(s, q, es);
    var iter := new InternalIterator(Children(s), es);
    it := new DBIter(iter, q);
  }

  lemma MergedOf(s: State) returns (es: seq<Entry>)
    requires Sound(s) && |s.levels| == NUM_LEVELS && Hold(Children(s), Stored(s))
    ensures M.ChildrenOk(Children(s)) && IsMerge(Children(s), es) && Run(es) && Content(es) == Stored(s)
  {
    hide Run, Stored;
    HistoryUnambiguous(s.writes);
    es := SortedRun(Stored(s));
    forall y ensures y in es <==> M.InUnion(Children(s), y) { assert y in es <==> y in Content(es); }
  }
}
