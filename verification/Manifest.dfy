/**
 The builder that turns a version and a run of edits into the next version, and what a
 run of edits means: folding them all into one builder and saving once gives the version
 that installing them one at a time gives.
 */
module Builders {
  import opened Versions
  import opened VersionOrder
  import opened Swaps
  import opened VersionEdits

  /** One level of the builder: numbers deleted, and files added, ordered by smallest key. */
  datatype LevelState = LevelState(deleted: set<nat>, added: seq<File>)

  const UNTOUCHED := LevelState({}, [])

  function Numbers(fs: seq<File>): set<nat> {
    set f | f in fs :: f.number
  }

  // -------------------------------------------------------------- the ordered set of added files

  lemma SmallestTransitive(f: File, g: File, h: File)
    requires SmallestLess(f, g) && SmallestLess(g, h)
    ensures SmallestLess(f, h)
  {
  }

  lemma SortedCons(f: File, fs: seq<File>)
    requires SortedBySmallest(fs) && (fs != [] ==> SmallestLess(f, fs[0]))
    ensures SortedBySmallest([f] + fs)
  {
    var r := [f] + fs;
    forall i, j | 0 <= i < j < |r| ensures SmallestLess(r[i], r[j]) {
      if i == 0 {
        if j > 1 {
          assert SmallestLess(fs[0], fs[j - 1]);
          SmallestTransitive(f, fs[0], fs[j - 1]);
        }
      } else {
        assert SmallestLess(fs[i - 1], fs[j - 1]);
      }
    }
  }

  lemma SortedTail(fs: seq<File>)
    requires SortedBySmallest(fs) && fs != []
    ensures SortedBySmallest(fs[1..]) && forall f | f in fs[1..] :: SmallestLess(fs[0], f)
  {
    forall i, j | 0 <= i < j < |fs[1..]| ensures SmallestLess(fs[1..][i], fs[1..][j]) {
      assert SmallestLess(fs[i + 1], fs[j + 1]);
    }
    forall f | f in fs[1..] ensures SmallestLess(fs[0], f) {
      var i :| 0 <= i < |fs[1..]| && fs[1..][i] == f;
      assert SmallestLess(fs[0], fs[i + 1]);
    }
  }

  function InsertFile(f: File, fs: seq<File>): seq<File> {
    if fs == [] then [f]
    else if SmallestLess(f, fs[0]) then [f] + fs
    else if SmallestLess(fs[0], f) then [fs[0]] + InsertFile(f, fs[1..])
    else fs
  }

  lemma {:induction false} InsertFileMeans(f: File, fs: seq<File>)
    requires SortedBySmallest(fs) && f.number !in Numbers(fs)
    ensures SortedBySmallest(InsertFile(f, fs))
    ensures forall g :: g in InsertFile(f, fs) <==> g == f || g in fs
  {
    if fs == [] {
    } else if SmallestLess(f, fs[0]) {
      SortedCons(f, fs);
    } else {
      assert fs[0] in fs && fs[0].number != f.number;
      SortedTail(fs);
      assert Numbers(fs[1..]) <= Numbers(fs);
      InsertFileMeans(f, fs[1..]);
      var r := InsertFile(f, fs[1..]);
      assert r[0] in r;
      SortedCons(fs[0], r);
      assert forall g :: g in fs <==> g == fs[0] || g in fs[1..];
    }
  }

  function AddAll(st: LevelState, fs: seq<File>): LevelState
    decreases |fs|
  {
    if fs == [] then st
    else AddAll(LevelState(st.deleted - {fs[0].number}, InsertFile(fs[0], st.added)), fs[1..])
  }

  /** No number in `known`, and none twice. */
  predicate NewNumbers(known: set<nat>, fs: seq<File>) {
    && (forall f | f in fs :: f.number !in known)
    && (forall i, j | 0 <= i < j < |fs| :: fs[i].number != fs[j].number)
  }

  lemma {:induction false} AddAllMeans(st: LevelState, fs: seq<File>)
    requires SortedBySmallest(st.added) && NewNumbers(Numbers(st.added), fs)
    ensures AddAll(st, fs).deleted == st.deleted - Numbers(fs)
    ensures SortedBySmallest(AddAll(st, fs).added)
    ensures forall g :: g in AddAll(st, fs).added <==> g in st.added || g in fs
    decreases |fs|
  {
    if fs != [] {
      var f := fs[0];
      assert f in fs;
      InsertFileMeans(f, st.added);
      var st1 := LevelState(st.deleted - {f.number}, InsertFile(f, st.added));
      assert Numbers(st1.added) == Numbers(st.added) + {f.number} by {
        assert f in st1.added;
        forall n | n in Numbers(st.added) ensures n in Numbers(st1.added) {
          var g :| g in st.added && g.number == n;
          assert g in st1.added;
        }
      }
      assert forall g :: g in fs <==> g == f || g in fs[1..];
      forall g | g in fs[1..] ensures g.number != f.number {
        var i :| 0 <= i < |fs[1..]| && fs[1..][i] == g;
        assert fs[0].number != fs[i + 1].number;
      }
      AddAllMeans(st1, fs[1..]);
      assert Numbers(fs) == {f.number} + Numbers(fs[1..]);
    }
  }

  // -------------------------------------------------------------- saving a level

  function MaybeAdd(deleted: set<nat>, f: File): seq<File> {
    if f.number in deleted then [] else [f]
  }

  /** The two ordered lists merged, without the deleted files. */
  function Save(base: seq<File>, st: LevelState): seq<File>
    decreases |base| + |st.added|
  {
    if base == [] && st.added == [] then []
    else if base == [] || (st.added != [] && SmallestLess(st.added[0], base[0])) then
      MaybeAdd(st.deleted, st.added[0]) + Save(base, st.(added := st.added[1..]))
    else
      MaybeAdd(st.deleted, base[0]) + Save(base[1..], st)
  }

  ghost predicate InSave(base: seq<File>, st: LevelState, f: File) {
    (f in base || f in st.added) && f.number !in st.deleted
  }

  ghost predicate Clear(base: seq<File>, st: LevelState) {
    SortedBySmallest(base) && SortedBySmallest(st.added) && Numbers(base) !! Numbers(st.added)
  }

  lemma {:induction false} SaveMembers(base: seq<File>, st: LevelState, f: File)
    ensures f in Save(base, st) <==> InSave(base, st, f)
    decreases |base| + |st.added|
  {
    if base == [] && st.added == [] {
    } else if base == [] || (st.added != [] && SmallestLess(st.added[0], base[0])) {
      SaveMembers(base, st.(added := st.added[1..]), f);
      assert f in st.added <==> f == st.added[0] || f in st.added[1..];
    } else {
      SaveMembers(base[1..], st, f);
      assert f in base <==> f == base[0] || f in base[1..];
    }
  }

  lemma {:induction false} SaveSorted(base: seq<File>, st: LevelState)
    requires Clear(base, st)
    ensures SortedBySmallest(Save(base, st))
    decreases |base| + |st.added|
  {
    if base == [] && st.added == [] {
    } else if base == [] || (st.added != [] && SmallestLess(st.added[0], base[0])) {
      var f, st1 := st.added[0], st.(added := st.added[1..]);
      SortedTail(st.added);
      assert Numbers(st1.added) <= Numbers(st.added);
      SaveSorted(base, st1);
      var r := Save(base, st1);
      if r != [] {
        SaveMembers(base, st1, r[0]);
        if r[0] in base { AllAfter(f, base, r[0]); }
        SortedCons(f, r);
      }
    } else {
      var f := base[0];
      SortedTail(base);
      assert Numbers(base[1..]) <= Numbers(base);
      SaveSorted(base[1..], st);
      var r := Save(base[1..], st);
      if r != [] {
        SaveMembers(base[1..], st, r[0]);
        if r[0] in st.added {
          assert st.added[0].number in Numbers(st.added) && f.number in Numbers(base);
          AllAfter(f, st.added, r[0]);
        }
        SortedCons(f, r);
      }
    }
  }

  lemma AllAfter(f: File, fs: seq<File>, g: File)
    requires SortedBySmallest(fs) && g in fs && SmallestLess(f, fs[0])
    ensures SmallestLess(f, g)
  {
    SortedTail(fs);
    if g != fs[0] {
      assert g in fs[1..];
      SmallestTransitive(f, fs[0], g);
    }
  }

  lemma HasMember(fs: seq<File>)
    ensures fs != [] ==> exists f :: f in fs
  {
    if fs != [] { assert fs[0] in fs; }
  }

  lemma FirstIsLeast(fs: seq<File>, f: File)
    requires SortedBySmallest(fs) && f in fs
    ensures f == fs[0] || SmallestLess(fs[0], f)
  {
    SortedTail(fs);
    assert f == fs[0] || f in fs[1..];
  }

  /** A level is determined by which files it holds. */
  lemma {:induction false} SortedUnique(a: seq<File>, b: seq<File>)
    requires SortedBySmallest(a) && SortedBySmallest(b)
    requires forall f :: f in a <==> f in b
    ensures a == b
  {
    if a == [] {
      HasMember(b);
    } else {
      assert a[0] in b;
      assert b[0] in a;
      SortedTail(a);
      SortedTail(b);
      FirstIsLeast(a, b[0]);
      FirstIsLeast(b, a[0]);
      forall f ensures f in a[1..] <==> f in b[1..] {
        assert f in a <==> f == a[0] || f in a[1..];
        assert f in b <==> f == b[0] || f in b[1..];
      }
      SortedUnique(a[1..], b[1..]);
      assert a == [a[0]] + a[1..] && b == [b[0]] + b[1..];
    }
  }

  // -------------------------------------------------------------- edits

  function DeletedAt(ps: seq<(nat, nat)>, l: nat): set<nat> {
    set p | p in ps && p.0 == l :: p.1
  }

  function AddedAt(ps: seq<(nat, File)>, l: nat): seq<File> {
    if ps == [] then [] else (if ps[0].0 == l then [ps[0].1] else []) + AddedAt(ps[1..], l)
  }

  /** Apply, at one level: deletions first, then additions. */
  function ApplyAt(st: LevelState, l: nat, e: Edit<File>): LevelState {
    AddAll(st.(deleted := st.deleted + DeletedAt(e.deleted, l)), AddedAt(e.added, l))
  }

  function FoldAt(st: LevelState, l: nat, es: seq<Edit<File>>): LevelState
    decreases |es|
  {
    if es == [] then st else FoldAt(ApplyAt(st, l, es[0]), l, es[1..])
  }

  /** One level after installing the edits one at a time. */
  function InstallAt(v: seq<File>, l: nat, es: seq<Edit<File>>): seq<File>
    decreases |es|
  {
    if es == [] then v else InstallAt(Save(v, ApplyAt(UNTOUCHED, l, es[0])), l, es[1..])
  }

  /** No number is added to level `l` twice, or while `known` there. */
  predicate AddedOnce(known: set<nat>, l: nat, es: seq<Edit<File>>)
    decreases |es|
  {
    es == [] || (NewNumbers(known, AddedAt(es[0].added, l))
                 && AddedOnce(known + Numbers(AddedAt(es[0].added, l)), l, es[1..]))
  }

  lemma NumbersOf(fs: seq<File>, f: File)
    requires f in fs
    ensures f.number in Numbers(fs)
  {
  }

  lemma NewShrink(known: set<nat>, less: set<nat>, fs: seq<File>)
    requires NewNumbers(known, fs) && less <= known
    ensures NewNumbers(less, fs)
  {
  }

  /** What an edit does to a builder's level. */
  lemma ApplyMeans(st: LevelState, l: nat, e: Edit<File>, known: set<nat>)
    requires SortedBySmallest(st.added) && Numbers(st.added) <= known && NewNumbers(known, AddedAt(e.added, l))
    ensures
      var r, fs := ApplyAt(st, l, e), AddedAt(e.added, l);
      && r.deleted == st.deleted + DeletedAt(e.deleted, l) - Numbers(fs)
      && SortedBySmallest(r.added) && Numbers(r.added) == Numbers(st.added) + Numbers(fs)
      && forall g :: g in r.added <==> g in st.added || g in fs
  {
    var fs := AddedAt(e.added, l);
    var st1 := st.(deleted := st.deleted + DeletedAt(e.deleted, l));
    NewShrink(known, Numbers(st.added), fs);
    AddAllMeans(st1, fs);
    var r := AddAll(st1, fs);
    forall n ensures n in Numbers(r.added) <==> n in Numbers(st.added) + Numbers(fs) {
      if n in Numbers(r.added) {
        var g :| g in r.added && g.number == n;
      }
      if n in Numbers(st.added) + Numbers(fs) {
        var g :| (g in st.added || g in fs) && g.number == n;
        assert g in r.added;
      }
    }
  }

  /** Folding one more edit in, or saving and installing it alone: the same files. */
  lemma StepMembers(base: seq<File>, st: LevelState, l: nat, e: Edit<File>, known: set<nat>, f: File)
    requires Clear(base, st) && Numbers(base) + Numbers(st.added) <= known
    requires NewNumbers(known, AddedAt(e.added, l))
    ensures InSave(Save(base, st), ApplyAt(UNTOUCHED, l, e), f) <==> InSave(base, ApplyAt(st, l, e), f)
  {
    var fs := AddedAt(e.added, l);
    ApplyMeans(st, l, e, known);
    ApplyMeans(UNTOUCHED, l, e, known);
    SaveMembers(base, st, f);
    if f in base { NumbersOf(base, f); }
    if f in st.added { NumbersOf(st.added, f); }
    if f in fs { NumbersOf(fs, f); }
  }

  lemma SavedNumbers(base: seq<File>, st: LevelState)
    ensures Numbers(Save(base, st)) <= Numbers(base) + Numbers(st.added)
  {
    forall n | n in Numbers(Save(base, st)) ensures n in Numbers(base) + Numbers(st.added) {
      var g :| g in Save(base, st) && g.number == n;
      SaveMembers(base, st, g);
    }
  }

  lemma StepSame(base: seq<File>, st: LevelState, l: nat, e: Edit<File>, known: set<nat>)
    requires Clear(base, st) && Numbers(base) + Numbers(st.added) <= known
    requires NewNumbers(known, AddedAt(e.added, l))
    ensures Clear(base, ApplyAt(st, l, e))
    ensures Save(Save(base, st), ApplyAt(UNTOUCHED, l, e)) == Save(base, ApplyAt(st, l, e))
  {
    hide Save, ApplyAt, NewNumbers, SortedBySmallest, InSave;
    var v, one, all := Save(base, st), ApplyAt(UNTOUCHED, l, e), ApplyAt(st, l, e);
    Apart3(base, st, l, e, known);
    SaveSorted(base, st);
    SavedNumbers(base, st);
    SaveSorted(v, one);
    SaveSorted(base, all);
    forall f ensures f in Save(v, one) <==> f in Save(base, all) {
      StepMembers(base, st, l, e, known, f);
      SaveMembers(v, one, f);
      SaveMembers(base, all, f);
    }
    SortedUnique(Save(v, one), Save(base, all));
  }

  lemma Apart3(base: seq<File>, st: LevelState, l: nat, e: Edit<File>, known: set<nat>)
    requires Clear(base, st) && Numbers(base) + Numbers(st.added) <= known
    requires NewNumbers(known, AddedAt(e.added, l))
    ensures Clear(base, ApplyAt(st, l, e))
    ensures SortedBySmallest(ApplyAt(UNTOUCHED, l, e).added)
    ensures Numbers(ApplyAt(UNTOUCHED, l, e).added) !! Numbers(base) + Numbers(st.added)
  {
    ApplyMeans(st, l, e, known);
    ApplyMeans(UNTOUCHED, l, e, known);
    assert Numbers([]) == {};
  }

  /** Replaying edits into one builder equals installing them one after another. */
  lemma {:induction false} FoldIsInstall(base: seq<File>, st: LevelState, l: nat, es: seq<Edit<File>>, known: set<nat>)
    requires Clear(base, st) && Numbers(base) + Numbers(st.added) <= known && AddedOnce(known, l, es)
    ensures Save(base, FoldAt(st, l, es)) == InstallAt(Save(base, st), l, es)
    decreases |es|
  {
    hide Save, ApplyAt, NewNumbers, SortedBySmallest, InSave;
    if es != [] {
      StepSame(base, st, l, es[0], known);
      Grown(base, st, l, es[0], known);
      FoldIsInstall(base, ApplyAt(st, l, es[0]), l, es[1..], known + Numbers(AddedAt(es[0].added, l)));
    }
  }

  lemma Grown(base: seq<File>, st: LevelState, l: nat, e: Edit<File>, known: set<nat>)
    requires Clear(base, st) && Numbers(base) + Numbers(st.added) <= known
    requires NewNumbers(known, AddedAt(e.added, l))
    ensures Numbers(base) + Numbers(ApplyAt(st, l, e).added) <= known + Numbers(AddedAt(e.added, l))
  {
    ApplyMeans(st, l, e, known);
  }

  // -------------------------------------------------------------- whole versions

  predicate LevelsInRange<F(==)>(e: Edit<F>) {
    (forall p | p in e.deleted :: p.0 < NUM_LEVELS) && (forall p | p in e.added :: p.0 < NUM_LEVELS)
  }

  /** upper_bound: the first file at or after `b` that sorts behind `f`. */
  function UpperBound(fs: seq<File>, b: nat, f: File): (r: nat)
    requires b <= |fs|
    ensures b <= r <= |fs|
    ensures forall i | b <= i < r :: !SmallestLess(f, fs[i])
    ensures r < |fs| ==> SmallestLess(f, fs[r])
    decreases |fs| - b
  {
    if b == |fs| || SmallestLess(f, fs[b]) then b else UpperBound(fs, b + 1, f)
  }

  class Builder {
    const base: seq<seq<File>>
    var levels: seq<LevelState>

    ghost predicate Valid()
      reads this
    {
      |base| == |levels| == NUM_LEVELS
    }

    constructor (base: seq<seq<File>>)
      requires |base| == NUM_LEVELS
      ensures Valid() && this.base == base && forall l | 0 <= l < NUM_LEVELS :: levels[l] == UNTOUCHED
    {
      this.base := base;
      levels := seq(NUM_LEVELS, _ => UNTOUCHED);
    }

    method Apply(e: Edit<File>)
      requires Valid() && LevelsInRange(e)
      modifies this
      ensures Valid() && forall l | 0 <= l < NUM_LEVELS :: levels[l] == ApplyAt(old(levels[l]), l, e)
    {
      hide AddAll, AddedAt, DeletedAt;
      DeleteFiles(e.deleted);
      AddFiles(e.added);
    }

    method DeleteFiles(ps: seq<(nat, nat)>)
      requires Valid() && forall p | p in ps :: p.0 < NUM_LEVELS
      modifies this
      ensures Valid() && forall l | 0 <= l < NUM_LEVELS ::
        levels[l] == old(levels[l]).(deleted := old(levels[l]).deleted + DeletedAt(ps, l))
    {
      hide DeletedAt;
      DeletedNone();
      for i := 0 to |ps|
        invariant Valid()
        invariant forall l | 0 <= l < NUM_LEVELS ::
          levels[l] == old(levels[l]).(deleted := old(levels[l]).deleted + DeletedAt(ps[..i], l))
      {
        var (level, number) := ps[i];
        assert ps[i] in ps;
        DeletedMore(ps, i);
        levels := levels[level := levels[level].(deleted := levels[level].deleted + {number})];
      }
      assert ps[..|ps|] == ps;
    }

    method AddFiles(ps: seq<(nat, File)>)
      requires Valid() && forall p | p in ps :: p.0 < NUM_LEVELS
      modifies this
      ensures Valid() && forall l | 0 <= l < NUM_LEVELS :: levels[l] == AddAll(old(levels[l]), AddedAt(ps, l))
    {
      hide AddAll, AddedAt, InsertFile;
      assert ps[0..] == ps;
      for i := 0 to |ps|
        invariant Valid()
        invariant forall l | 0 <= l < NUM_LEVELS ::
          AddAll(levels[l], AddedAt(ps[i..], l)) == AddAll(old(levels[l]), AddedAt(ps, l))
      {
        var (level, f) := ps[i];
        assert ps[i] in ps;
        var st := levels[level];
        AddedMore(ps, i);
        AddMore(st, f, AddedAt(ps[i + 1..], level));
        levels := levels[level := LevelState(st.deleted - {f.number}, InsertFile(f, st.added))];
      }
      AddNone(ps);
    }

    method SaveTo() returns (v: seq<seq<File>>)
      requires Valid()
      ensures |v| == NUM_LEVELS && forall l | 0 <= l < NUM_LEVELS :: v[l] == Save(base[l], levels[l])
    {
      v := [];
      for level := 0 to NUM_LEVELS
        invariant |v| == level && forall l | 0 <= l < level :: v[l] == Save(base[l], levels[l])
      {
        var files := SaveLevel(base[level], levels[level]);
        v := v + [files];
      }
    }
  }

  lemma DeletedMore(ps: seq<(nat, nat)>, i: nat)
    requires i < |ps|
    ensures forall l: nat :: DeletedAt(ps[..i + 1], l) == DeletedAt(ps[..i], l) + if ps[i].0 == l then {ps[i].1} else {}
  {
    assert ps[..i + 1] == ps[..i] + [ps[i]];
  }

  lemma DeletedNone()
    ensures forall l: nat :: DeletedAt([], l) == {}
  {
  }

  lemma AddedMore(ps: seq<(nat, File)>, i: nat)
    requires i < |ps|
    ensures forall l: nat ::
      AddedAt(ps[i..], l) == if ps[i].0 == l then [ps[i].1] + AddedAt(ps[i + 1..], l) else AddedAt(ps[i + 1..], l)
  {
    assert ps[i..][1..] == ps[i + 1..];
    forall l: nat ensures AddedAt(ps[i..], l)
      == if ps[i].0 == l then [ps[i].1] + AddedAt(ps[i + 1..], l) else AddedAt(ps[i + 1..], l)
    {
      var none: seq<File> := [];
      assert none + AddedAt(ps[i + 1..], l) == AddedAt(ps[i + 1..], l);
    }
  }

  lemma AddNone(ps: seq<(nat, File)>)
    ensures forall l: nat, st :: AddAll(st, AddedAt(ps[|ps|..], l)) == st
  {
  }

  lemma AddMore(st: LevelState, f: File, fs: seq<File>)
    ensures AddAll(st, [f] + fs) == AddAll(LevelState(st.deleted - {f.number}, InsertFile(f, st.added)), fs)
  {
    assert ([f] + fs)[1..] == fs;
  }

  lemma SaveStep(base: seq<File>, b: nat, st: LevelState, a: nat)
    requires b <= |base| && a <= |st.added|
    ensures
      var rest := Save(base[b..], st.(added := st.added[a..]));
      if b == |base| && a == |st.added| then rest == []
      else if b == |base| || (a < |st.added| && SmallestLess(st.added[a], base[b])) then
        rest == MaybeAdd(st.deleted, st.added[a]) + Save(base[b..], st.(added := st.added[a + 1..]))
      else rest == MaybeAdd(st.deleted, base[b]) + Save(base[b + 1..], st.(added := st.added[a..]))
  {
    if b < |base| { assert base[b..][1..] == base[b + 1..]; }
    if a < |st.added| { assert st.added[a..][1..] == st.added[a + 1..]; }
  }

  /** SaveTo's body for one level. */
  method SaveLevel(base: seq<File>, st: LevelState) returns (files: seq<File>)
    ensures files == Save(base, st)
  {
    hide Save;
    files := [];
    var b := 0;
    assert base[0..] == base && st.added[0..] == st.added;
    for a := 0 to |st.added|
      invariant 0 <= b <= |base|
      invariant files + Save(base[b..], st.(added := st.added[a..])) == Save(base, st)
    {
      var bpos := UpperBound(base, b, st.added[a]);
      while b != bpos
        invariant 0 <= b <= bpos
        invariant files + Save(base[b..], st.(added := st.added[a..])) == Save(base, st)
        decreases bpos - b
      {
        SaveStep(base, b, st, a);
        files := files + MaybeAdd(st.deleted, base[b]);
        b := b + 1;
      }
      SaveStep(base, b, st, a);
      files := files + MaybeAdd(st.deleted, st.added[a]);
    }
    while b != |base|
      invariant 0 <= b <= |base|
      invariant files + Save(base[b..], st.(added := st.added[|st.added|..])) == Save(base, st)
      decreases |base| - b
    {
      SaveStep(base, b, st, |st.added|);
      files := files + MaybeAdd(st.deleted, base[b]);
      b := b + 1;
    }
    SaveStep(base, b, st, |st.added|);
  }

  /** LogAndApply's use of the builder: the version after one edit. */
  function Install(v: seq<seq<File>>, e: Edit<File>): (r: seq<seq<File>>)
    requires |v| == NUM_LEVELS
    ensures |r| == NUM_LEVELS && forall l | 0 <= l < NUM_LEVELS :: r[l] == Save(v[l], ApplyAt(UNTOUCHED, l, e))
  {
    seq(NUM_LEVELS, l requires 0 <= l < NUM_LEVELS => Save(v[l], ApplyAt(UNTOUCHED, l, e)))
  }

  function InstallAll(v: seq<seq<File>>, es: seq<Edit<File>>): (r: seq<seq<File>>)
    requires |v| == NUM_LEVELS
    ensures |r| == NUM_LEVELS
    decreases |es|
  {
    if es == [] then v else InstallAll(Install(v, es[0]), es[1..])
  }

  lemma {:induction false} InstallAllAt(v: seq<seq<File>>, es: seq<Edit<File>>, l: nat)
    requires |v| == NUM_LEVELS && l < NUM_LEVELS
    ensures InstallAll(v, es)[l] == InstallAt(v[l], l, es)
    decreases |es|
  {
    if es != [] {
      InstallAllAt(Install(v, es[0]), es[1..], l);
    }
  }

  // -------------------------------------------------------------- flushes, moves and compactions

  /** The edit of a job: the inputs leave, the outputs join level+1 (a flush has level+1 as its level). */
  ghost predicate JobEdit(e: Edit<File>, level: int, in0: seq<File>, in1: seq<File>, outs: seq<File>) {
    && (forall l: nat ::
          DeletedAt(e.deleted, l) == if l == level then Numbers(in0) else if l == level + 1 then Numbers(in1) else {})
    && (forall l: nat :: AddedAt(e.added, l) == if l == level + 1 then outs else [])
  }

  ghost predicate InputsIn(levels: seq<seq<File>>, level: int, in0: seq<File>, in1: seq<File>) {
    && (forall f | f in in0 :: Placed(levels, level, f))
    && (forall f | f in in1 :: Placed(levels, level + 1, f))
  }

  lemma NothingSorted()
    ensures SortedBySmallest([])
  {
  }

  lemma JobFiles(levels: seq<seq<File>>, level: int, in0: seq<File>, in1: seq<File>, outs: seq<File>, e: Edit<File>, l: nat, f: File)
    requires Shaped(levels) && 0 <= level + 1 < NUM_LEVELS && l < NUM_LEVELS
    requires InputsIn(levels, level, in0, in1) && JobEdit(e, level, in0, in1, outs)
    requires NewNumbers(Numbers(levels[level + 1]), outs)
    ensures f in Install(levels, e)[l] <==> Stays(levels, level, in0, in1, l, f) || (l == level + 1 && f in outs)
  {
    hide Save, ApplyAt, AddedAt, DeletedAt, SortedBySmallest;
    assert SortedBySmallest(UNTOUCHED.added) by { NothingSorted(); }
    var fs, known := AddedAt(e.added, l), if l == level + 1 then Numbers(levels[level + 1]) else {};
    var st := ApplyAt(UNTOUCHED, l, e);
    ApplyMeans(UNTOUCHED, l, e, known);
    SaveMembers(levels[l], st, f);
    if f in fs { NumbersOf(fs, f); }
    if f in levels[l] {
      NumbersOf(levels[l], f);
      assert Placed(levels, l, f);
      InputNumber(levels, level, in0, l, f);
      InputNumber(levels, level + 1, in1, l, f);
      assert f.number !in Numbers(fs);
      assert f.number in st.deleted <==> f.number in DeletedAt(e.deleted, l);
      assert IsInput(level, in0, in1, l, f) <==> f.number in st.deleted;
    }
  }

  lemma InputNumber(levels: seq<seq<File>>, at: int, ins: seq<File>, l: nat, f: File)
    requires Shaped(levels) && Placed(levels, l, f) && forall g | g in ins :: Placed(levels, at, g)
    ensures l == at ==> (f.number in Numbers(ins) <==> f in ins)
  {
    if f.number in Numbers(ins) {
      var g :| g in ins && g.number == f.number;
    }
  }

  lemma JobSorted(levels: seq<seq<File>>, level: int, in0: seq<File>, in1: seq<File>, outs: seq<File>, e: Edit<File>, l: nat)
    requires Shaped(levels) && 0 <= level + 1 < NUM_LEVELS && l < NUM_LEVELS
    requires JobEdit(e, level, in0, in1, outs) && NewNumbers(Numbers(levels[level + 1]), outs)
    ensures SortedBySmallest(Install(levels, e)[l])
  {
    hide Save, ApplyAt, NumbersUnique;
    var known := if l == level + 1 then Numbers(levels[level + 1]) else {};
    ApplyMeans(UNTOUCHED, l, e, known);
    var st := ApplyAt(UNTOUCHED, l, e);
    assert Numbers(st.added) == Numbers(UNTOUCHED.added) + Numbers(AddedAt(e.added, l)) == Numbers(AddedAt(e.added, l));
    SaveSorted(levels[l], st);
  }

  /** What the builder saves for a job is the swap of files the engine's steps are stated with. */
  lemma InstallIsSwap(levels: seq<seq<File>>, level: int, in0: seq<File>, in1: seq<File>, outs: seq<File>, e: Edit<File>)
    requires Shaped(levels) && 0 <= level + 1 < NUM_LEVELS
    requires InputsIn(levels, level, in0, in1) && JobEdit(e, level, in0, in1, outs)
    requires NewNumbers(Numbers(levels[level + 1]), outs)
    ensures Swapped(levels, level, in0, in1, outs, Install(levels, e))
  {
    hide InputsIn, Save, ApplyAt, JobEdit, NumbersUnique;
    var v := Install(levels, e);
    forall l: nat | l < NUM_LEVELS ensures SortedBySmallest(v[l]) {
      JobSorted(levels, level, in0, in1, outs, e, l);
    }
    forall l, f ensures Placed(v, l, f) <==> Stays(levels, level, in0, in1, l, f) || (l == level + 1 && f in outs) {
      if 0 <= l < NUM_LEVELS {
        JobFiles(levels, level, in0, in1, outs, e, l, f);
      }
    }
  }
}
