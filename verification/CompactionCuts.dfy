/**
 Where a compaction cuts its outputs, said of the entries and the grandparents alone: a
 new output is asked for when the grandparents that end since the last such cut exceed
 the limit, and no output holds entries from both sides of such a cut.
 */
module CompactionCuts {
  import opened Entries
  import opened Versions
  import opened Picking
  import opened Compactions

  // ------------------------------------------------------------ the grandparent rule

  /** The bytes of the files that end at or behind `lo` and before `hi`. */
  function EndingBetween(gs: seq<File>, lo: Entry, hi: Entry): nat {
    if gs == [] then 0 else
    var g := gs[|gs| - 1];
    EndingBetween(gs[..|gs| - 1], lo, hi) + if !Before(g.largest, lo) && Before(g.largest, hi) then g.size else 0
  }

  ghost predicate EndsAscend(gs: seq<File>) {
    forall i, j | 0 <= i < j < |gs| :: Before(gs[i].largest, gs[j].largest)
  }

  /** The files of one sorted level, or a selection of them in order, end one behind the other. */
  lemma GrandparentsAscend(levels: seq<seq<File>>, level: nat, all: seq<File>)
    requires LevelsOk(levels) && all != []
    ensures EndsAscend(Grandparents(levels, level, all))
  {
    if level + 2 < NUM_LEVELS {
      assert SortedLevel(levels[level + 2]) && FilesOk(levels[level + 2]);
      LevelAscends(levels[level + 2]);
      SelectedAscends(levels[level + 2], Some(RangeLo(all)), Some(RangeHi(all)));
    }
  }

  lemma LevelAscends(fs: seq<File>)
    requires FilesOk(fs) && SortedLevel(fs)
    ensures EndsAscend(fs)
  {
    forall i, j | 0 <= i < j < |fs| ensures Before(fs[i].largest, fs[j].largest) {
      assert Before(fs[i].largest, fs[j].smallest);
      assert fs[j] in fs && FileOk(fs[j]);
      WithinRange(fs[j], fs[j].largest);
    }
  }

  lemma {:induction false} SelectedAscends(fs: seq<File>, begin: Option<Key>, end: Option<Key>)
    requires EndsAscend(fs)
    ensures EndsAscend(Selected(fs, begin, end))
  {
    if fs != [] {
      SelectedAscends(fs[1..], begin, end);
      var rest := Selected(fs[1..], begin, end);
      forall j | 0 <= j < |rest| ensures Before(fs[0].largest, rest[j].largest) {
        assert rest[j] in fs[1..];
        var i :| 0 <= i < |fs[1..]| && fs[1..][i] == rest[j];
        assert Before(fs[0].largest, fs[i + 1].largest);
      }
    }
  }

  /** The first `r` files, and no others, end before `e`. */
  ghost predicate PassedAre(gs: seq<File>, r: nat, e: Entry) {
    r <= |gs| && (forall j | 0 <= j < r :: Before(gs[j].largest, e)) && (forall j | r <= j < |gs| :: !Before(gs[j].largest, e))
  }

  lemma {:induction false} IndexIs(gs: seq<File>, input: seq<Entry>, k: nat)
    requires EndsAscend(gs) && Run(input) && k < |input|
    ensures PassedAre(gs, PassedAfter(gs, input, k + 1).index, input[k]) && PassedAfter(gs, input, k + 1).seen
  {
    if k > 0 {
      IndexIs(gs, input, k - 1);
      assert Before(input[k - 1], input[k]);
    }
    var p := PassedAfter(gs, input, k);
    var r := PassUpTo(gs, p.index, input[k]);
    forall j | r <= j < |gs| ensures !Before(gs[j].largest, input[k]) {
      if j > r { assert Before(gs[r].largest, gs[j].largest); }
    }
  }

  lemma {:induction false} SizeIs(gs: seq<File>, n: nat, a: nat, b: nat, lo: Entry, hi: Entry)
    requires a <= b <= |gs| && n <= |gs| && PassedAre(gs, a, lo) && PassedAre(gs, b, hi)
    ensures EndingBetween(gs[..n], lo, hi) == if n <= a then 0 else if n <= b then SizeBetween(gs, a, n) else SizeBetween(gs, a, b)
    decreases n
  {
    if n > 0 {
      SizeIs(gs, n - 1, a, b, lo, hi);
      assert gs[..n][..n - 1] == gs[..n - 1];
    }
  }

  lemma {:induction false} SizesJoin(gs: seq<File>, a: nat, b: nat, c: nat)
    requires a <= b <= c <= |gs|
    ensures SizeBetween(gs, a, b) + SizeBetween(gs, b, c) == SizeBetween(gs, a, c)
    decreases c
  {
    if b < c { SizesJoin(gs, a, b, c - 1); }
  }

  /** Entry m is the first, or the rule asked for a new output in front of it; since then it has not asked again. */
  ghost predicate LastCut(gs: seq<File>, input: seq<Entry>, m: nat, n: nat) {
    m < n <= |input| && (m == 0 || RuleCuts(gs, input, m)) && forall j | m < j < n :: !RuleCuts(gs, input, j)
  }

  /** One entry's effect on what is remembered. */
  lemma OneOn(gs: seq<File>, input: seq<Entry>, n: nat)
    requires 0 < n < |input| && PassedAfter(gs, input, n).seen
    ensures
      var p, q := PassedAfter(gs, input, n), PassedAfter(gs, input, n + 1);
      && p.index <= q.index
      && (RuleCuts(gs, input, n) <==> p.bytes + SizeBetween(gs, p.index, q.index) > MAX_GRANDPARENT_OVERLAP)
      && q.bytes == if RuleCuts(gs, input, n) then 0 else p.bytes + SizeBetween(gs, p.index, q.index)
  {
  }

  lemma NeverFirst(gs: seq<File>, input: seq<Entry>)
    requires input != []
    ensures !RuleCuts(gs, input, 0) && PassedAfter(gs, input, 1).bytes == 0
  {
    assert PassedAfter(gs, input, 0) == Passed(0, false, 0);
  }

  lemma {:induction false} BytesAre(gs: seq<File>, input: seq<Entry>, m: nat, n: nat)
    requires EndsAscend(gs) && Run(input) && LastCut(gs, input, m, n)
    ensures var a, p := PassedAfter(gs, input, m + 1).index, PassedAfter(gs, input, n);
            a <= p.index && p.bytes == SizeBetween(gs, a, p.index)
    decreases n
  {
    hide PassedAfter, RuleCuts, Run, EndsAscend, PassedAre;
    NeverFirst(gs, input);
    if n == m + 1 {
      if m > 0 {
        IndexIs(gs, input, m - 1);
        OneOn(gs, input, m);
      }
    } else {
      BytesAre(gs, input, m, n - 1);
      IndexIs(gs, input, n - 2);
      OneOn(gs, input, n - 1);
      SizesJoin(gs, PassedAfter(gs, input, m + 1).index, PassedAfter(gs, input, n - 1).index, PassedAfter(gs, input, n).index);
    }
  }

  /**
   The grandparent rule: with the last such cut in front of entry m (or m the first entry), there is one
   in front of entry n exactly when the grandparents ending from entry m up to entry n exceed the limit.
   */
  lemma RuleCutsIff(gs: seq<File>, input: seq<Entry>, m: nat, n: nat)
    requires EndsAscend(gs) && Run(input) && n < |input| && LastCut(gs, input, m, n)
    ensures RuleCuts(gs, input, n) <==> EndingBetween(gs, input[m], input[n]) > 20 * MB
    ensures !RuleCuts(gs, input, 0)
  {
    hide PassedAfter, RuleCuts, Run, EndsAscend, PassedAre;
    NeverFirst(gs, input);
    BytesAre(gs, input, m, n);
    IndexIs(gs, input, m);
    IndexIs(gs, input, n - 1);
    IndexIs(gs, input, n);
    OneOn(gs, input, n);
    var a, p, c := PassedAfter(gs, input, m + 1).index, PassedAfter(gs, input, n), PassedAfter(gs, input, n + 1).index;
    SizesJoin(gs, a, p.index, c);
    SizeIs(gs, |gs|, a, c, input[m], input[n]);
    assert gs[..|gs|] == gs;
  }

  // ------------------------------------------------------------ the outputs

  /** `f` lies wholly before `e`, or wholly not. */
  ghost predicate OneSide(f: seq<Entry>, e: Entry) {
    (forall x | x in f :: Before(x, e)) || (forall x | x in f :: !Before(x, e))
  }

  /** No output, open or finished, holds entries from both sides of a cut among the first n entries. */
  ghost predicate NoneSplit(gs: seq<File>, input: seq<Entry>, n: nat, o: Output) {
    && (forall f, m | f in o.files && 0 <= m < n <= |input| && RuleCuts(gs, input, m) :: OneSide(f, input[m]))
    && (forall m | 0 <= m < n <= |input| && RuleCuts(gs, input, m) :: NoneBefore(o.builder, input[m]))
  }

  ghost predicate NoneBefore(f: seq<Entry>, e: Entry) {
    forall x | x in f :: !Before(x, e)
  }

  lemma {:induction false} FlattenHas(parts: seq<seq<Entry>>, f: seq<Entry>, e: Entry)
    requires f in parts && e in f
    ensures e in Flatten(parts)
    decreases |parts|
  {
    if f != parts[|parts| - 1] {
      assert f in parts[..|parts| - 1];
      FlattenHas(parts[..|parts| - 1], f, e);
    }
  }

  lemma WrittenBefore(input: seq<Entry>, n: nat, smallest: nat, base: seq<seq<File>>, level: nat, o: Output, f: seq<Entry>)
    requires n < |input| && Run(input) && Written(o) == Kept(input, n, smallest, base, level)
    requires f in o.files || f == o.builder
    ensures OneSide(f, input[n]) && forall x | x in f :: Before(x, input[n])
  {
    hide Survives, Kept, Flatten;
    KeptMembers(input, n, smallest, base, level);
    forall x | x in f ensures Before(x, input[n]) {
      if f in o.files { FlattenHas(o.files, f, x); }
      assert x in Written(o);
      var i :| 0 <= i < n && input[i] == x;
      assert Before(input[i], input[n]);
    }
  }

  lemma FinishNoneSplit(gs: seq<File>, input: seq<Entry>, n: nat, o: Output)
    requires NoEmptyFile(o) && NoneSplit(gs, input, n, o)
    ensures NoneSplit(gs, input, n, Finish(o))
  {
    hide RuleCuts;
  }

  lemma NothingSplit(gs: seq<File>, input: seq<Entry>)
    ensures NoneSplit(gs, input, 0, Output([], []))
  {
  }

  lemma {:induction false} WorkNoneSplit(input: seq<Entry>, n: nat, smallest: nat, base: seq<seq<File>>, level: nat, gs: seq<File>,
                                         fileSize: seq<Entry> -> nat)
    requires n <= |input| && Run(input)
    ensures NoneSplit(gs, input, n, Work(input, n, smallest, base, level, gs, fileSize))
  {
    hide RuleCuts, Survives, NoneSplit, Kept, Written, Run, Finish, Add, NoEmptyFile;
    if n == 0 {
      NothingSplit(gs, input);
    } else {
      WorkNoneSplit(input, n - 1, smallest, base, level, gs, fileSize);
      var o := Work(input, n - 1, smallest, base, level, gs, fileSize);
      var cut := if RuleCuts(gs, input, n - 1) then Finish(o) else o;
      FinishNoneSplit(gs, input, n - 1, o);
      CutNoneSplit(input, n - 1, smallest, base, level, gs, cut);
      AddNoneSplit(input, n - 1, gs, cut, fileSize);
    }
  }

  /** The cut in front of entry n splits nothing written before it. */
  lemma CutNoneSplit(input: seq<Entry>, n: nat, smallest: nat, base: seq<seq<File>>, level: nat, gs: seq<File>, cut: Output)
    requires n < |input| && Run(input) && NoneSplit(gs, input, n, cut) && Written(cut) == Kept(input, n, smallest, base, level)
    requires RuleCuts(gs, input, n) ==> cut.builder == []
    ensures NoneSplit(gs, input, n + 1, cut)
  {
    hide RuleCuts, Kept, Written, Run, OneSide;
    forall f | f in cut.files ensures OneSide(f, input[n]) {
      WrittenBefore(input, n, smallest, base, level, cut, f);
    }
  }

  lemma AddNoneSplit(input: seq<Entry>, n: nat, gs: seq<File>, cut: Output, fileSize: seq<Entry> -> nat)
    requires n < |input| && Run(input) && NoEmptyFile(cut) && NoneSplit(gs, input, n + 1, cut)
    ensures NoneSplit(gs, input, n + 1, Add(cut, input[n], fileSize))
  {
    hide RuleCuts;
    var more := Output(cut.files, cut.builder + [input[n]]);
    forall m | 0 <= m < n + 1 && RuleCuts(gs, input, m) ensures NoneBefore(more.builder, input[m]) {
      assert NoneBefore(cut.builder, input[m]);
      if m < n { assert Before(input[m], input[n]); }
    }
    assert NoneSplit(gs, input, n + 1, more);
    FinishNoneSplit(gs, input, n + 1, more);
  }

  /** Whenever the grandparent rule asks for a new output, what follows goes to a new one. */
  lemma OutputsNotSplit(input: seq<Entry>, smallest: nat, base: seq<seq<File>>, level: nat, gs: seq<File>, fileSize: seq<Entry> -> nat,
                        o: seq<Entry>, n: nat)
    requires Run(input) && o in Outputs(input, smallest, base, level, gs, fileSize) && n < |input| && RuleCuts(gs, input, n)
    ensures OneSide(o, input[n])
  {
    hide RuleCuts, Work, OneSide;
    var w := Work(input, |input|, smallest, base, level, gs, fileSize);
    WorkNoneSplit(input, |input|, smallest, base, level, gs, fileSize);
    FinishNoneSplit(gs, input, |input|, w);
  }
}
