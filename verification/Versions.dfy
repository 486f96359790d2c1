/**
 Table files, versions (one list of files per level) and the read path through them.
 A table file is its sorted run of entries, with the size the table builder reported.
 */
module Versions {
  import opened Entries

  const NUM_LEVELS: nat := 7

  datatype File = File(number: nat, size: nat, smallest: Entry, largest: Entry, entries: seq<Entry>)

  predicate FileOk(f: File) {
    && |f.entries| > 0 && Run(f.entries)
    && f.smallest == f.entries[0] && f.largest == f.entries[|f.entries| - 1]
  }

  predicate Covers(f: File, k: Key) {
    f.smallest.key <= k <= f.largest.key
  }

  lemma WithinRange(f: File, e: Entry)
    requires FileOk(f) && e in f.entries
    ensures Covers(f, e.key)
    ensures !Before(e, f.smallest) && !Before(f.largest, e)
  {
    var i :| 0 <= i < |f.entries| && f.entries[i] == e;
    assert i > 0 ==> Before(f.entries[0], f.entries[i]);
    assert i < |f.entries| - 1 ==> Before(f.entries[i], f.entries[|f.entries| - 1]);
  }

  ghost predicate FilesOk(fs: seq<File>) {
    forall f | f in fs :: FileOk(f)
  }

  /** Levels above 0: files in key order, no two overlapping as ranges of internal keys. */
  ghost predicate SortedLevel(fs: seq<File>) {
    forall i, j {:trigger Before(fs[i].largest, fs[j].smallest)} | 0 <= i < j < |fs| :: Before(fs[i].largest, fs[j].smallest)
  }

  ghost function Held(fs: seq<File>): set<Entry> {
    set f, e | f in fs && e in f.entries :: e
  }

  ghost function Content(es: seq<Entry>): set<Entry> {
    set e | e in es
  }

  /** Every entry of `A` is newer than any entry of `B` for the same user key. */
  ghost predicate Newer(A: set<Entry>, B: set<Entry>) {
    forall a, b | a in A && b in B && a.key == b.key :: a.sn > b.sn
  }

  /** `r` is the right answer for (k, s) among the entries `S`. */
  ghost predicate Right(S: set<Entry>, k: Key, s: nat, r: Option<Entry>) {
    match r
    case Some(e) => IsNewest(S, k, s, e)
    case None => NoneVisible(S, k, s)
  }

  lemma RightIsNewest(S: set<Entry>, k: Key, s: nat, r: Option<Entry>)
    requires Unambiguous(S) && Right(S, k, s, r)
    ensures r == Newest(S, k, s)
  {
  }

  /** Looking in the newer part first, and in the older part only on a miss, is right. */
  lemma RightUnion(A: set<Entry>, B: set<Entry>, k: Key, s: nat, a: Option<Entry>, b: Option<Entry>)
    requires Newer(A, B)
    requires Right(A, k, s, a)
    requires a.None? ==> Right(B, k, s, b)
    ensures Right(A + B, k, s, OrElse(a, b))
  {
    if a.Some? {
      forall x | x in A + B && x.key == k && x.sn <= s
        ensures x.sn <= a.value.sn
      {
        if x in B { assert a.value.sn > x.sn; }
      }
    }
  }

  // ---------------------------------------------------------------- one run

  /** Index of the first entry at or after the target (k, s). */
  function SeekRun(es: seq<Entry>, k: Key, s: nat): (i: nat)
    ensures i <= |es|
    ensures forall j | 0 <= j < i :: BeforeTarget(es[j], k, s)
    ensures i < |es| ==> !BeforeTarget(es[i], k, s)
  {
    if es == [] || !BeforeTarget(es[0], k, s) then 0 else
    var i := SeekRun(es[1..], k, s);
    assert forall j | 1 <= j < |es| :: es[j] == es[1..][j - 1];
    1 + i
  }

  /** A table or memtable read: the first entry at or after (k, s), if it is for `k`. */
  function Probe(es: seq<Entry>, k: Key, s: nat): Option<Entry> {
    var i := SeekRun(es, k, s);
    if i < |es| && es[i].key == k then Some(es[i]) else None
  }

  lemma ProbeRight(es: seq<Entry>, k: Key, s: nat)
    requires Run(es)
    ensures Right(Content(es), k, s, Probe(es, k, s))
  {
    var i := SeekRun(es, k, s);
    forall x | x in es && x.key == k && x.sn <= s
      ensures i < |es| && es[i].key == k && x.sn <= es[i].sn
    {
      var j :| 0 <= j < |es| && es[j] == x;
      assert j >= i;
      if i < j { assert Before(es[i], es[j]); }
    }
  }

  // ---------------------------------------------------------------- one level

  /** Index of the first file whose largest key is at or after (k, s). */
  function FirstFile(fs: seq<File>, k: Key, s: nat): (i: nat)
    ensures i <= |fs|
    ensures forall j | 0 <= j < i :: BeforeTarget(fs[j].largest, k, s)
    ensures i < |fs| ==> !BeforeTarget(fs[i].largest, k, s)
  {
    if fs == [] || !BeforeTarget(fs[0].largest, k, s) then 0 else
    var i := FirstFile(fs[1..], k, s);
    assert forall j | 1 <= j < |fs| :: fs[j] == fs[1..][j - 1];
    1 + i
  }

  /** FindFile: binary search over the largest keys. */
  method FindFile(fs: seq<File>, k: Key, s: nat) returns (r: nat)
    requires FilesOk(fs) && SortedLevel(fs)
    ensures r == FirstFile(fs, k, s)
  {
    var left, right := 0, |fs|;
    while left < right
      invariant 0 <= left <= right <= |fs|
      invariant forall j | 0 <= j < left :: BeforeTarget(fs[j].largest, k, s)
      invariant forall j | right <= j < |fs| :: !BeforeTarget(fs[j].largest, k, s)
    {
      var mid := (left + right) / 2;
      if BeforeTarget(fs[mid].largest, k, s) {
        forall j | 0 <= j < mid ensures BeforeTarget(fs[j].largest, k, s) { LargestOrder(fs, j, mid); }
        left := mid + 1;
      } else {
        forall j | mid < j < |fs| ensures !BeforeTarget(fs[j].largest, k, s) { LargestOrder(fs, mid, j); }
        right := mid;
      }
    }
    r := right;
    FirstFileIs(fs, k, s, r);
  }

  lemma FirstFileIs(fs: seq<File>, k: Key, s: nat, r: nat)
    requires r <= |fs| && forall j | 0 <= j < r :: BeforeTarget(fs[j].largest, k, s)
    requires r < |fs| ==> !BeforeTarget(fs[r].largest, k, s)
    ensures r == FirstFile(fs, k, s)
  {
  }

  lemma LargestOrder(fs: seq<File>, i: nat, j: nat)
    requires FilesOk(fs) && SortedLevel(fs) && i < j < |fs|
    ensures Before(fs[i].largest, fs[j].largest)
  {
    assert fs[j] in fs && FileOk(fs[j]);
    WithinRange(fs[j], fs[j].largest);
    assert Before(fs[i].largest, fs[j].smallest);
  }

  function SearchLevel(fs: seq<File>, k: Key, s: nat): Option<Entry> {
    var i := FirstFile(fs, k, s);
    if i < |fs| && !(k < fs[i].smallest.key) then Probe(fs[i].entries, k, s) else None
  }

  lemma SearchLevelRight(fs: seq<File>, k: Key, s: nat)
    requires FilesOk(fs) && SortedLevel(fs)
    ensures Right(Held(fs), k, s, SearchLevel(fs, k, s))
  {
    var i := FirstFile(fs, k, s);
    forall f, x | f in fs && x in f.entries && x.key == k && x.sn <= s
      ensures i < |fs| && Covers(fs[i], k) && Probe(fs[i].entries, k, s).Some?
      ensures x.sn <= Probe(fs[i].entries, k, s).value.sn
    {
      var j :| 0 <= j < |fs| && fs[j] == f;
      WithinRange(f, x);
      assert j >= i;
      assert FileOk(fs[i]) by { assert fs[i] in fs; }
      ProbeRight(fs[i].entries, k, s);
      if i < j {
        assert Before(fs[i].largest, fs[j].smallest);
        assert fs[i].largest.key == k && fs[i].largest.sn <= s;
        assert fs[i].largest in fs[i].entries;
        WithinRange(fs[i], fs[i].largest);
      }
    }
    if i < |fs| && !(k < fs[i].smallest.key) {
      assert FileOk(fs[i]) by { assert fs[i] in fs; }
      ProbeRight(fs[i].entries, k, s);
    }
  }

  // ---------------------------------------------------------------- level 0

  /** The level-0 files whose range covers `k`, in list order. */
  function Covering(fs: seq<File>, k: Key): (r: seq<File>)
    ensures forall f :: f in r <==> f in fs && Covers(f, k)
  {
    if fs == [] then [] else
    if Covers(fs[0], k) then [fs[0]] + Covering(fs[1..], k) else Covering(fs[1..], k)
  }

  function InsertNewestFirst(f: File, fs: seq<File>): (r: seq<File>)
    ensures forall g :: g in r <==> g == f || g in fs
  {
    if fs == [] || f.number > fs[0].number then [f] + fs
    else [fs[0]] + InsertNewestFirst(f, fs[1..])
  }

  /** std::sort with NewestFirst. */
  function SortNewestFirst(fs: seq<File>): (r: seq<File>)
    ensures forall g :: g in r <==> g in fs
  {
    if fs == [] then [] else InsertNewestFirst(fs[0], SortNewestFirst(fs[1..]))
  }

  predicate NewestFirst(fs: seq<File>) {
    forall i, j | 0 <= i < j < |fs| :: fs[i].number > fs[j].number
  }

  predicate DistinctNumbers(fs: seq<File>) {
    forall i, j | 0 <= i < j < |fs| :: fs[i].number != fs[j].number
  }

  lemma {:induction false} InsertKeepsOrder(f: File, fs: seq<File>)
    requires NewestFirst(fs) && forall g | g in fs :: g.number != f.number
    ensures NewestFirst(InsertNewestFirst(f, fs))
  {
    if fs != [] && f.number <= fs[0].number {
      InsertKeepsOrder(f, fs[1..]);
      var r := InsertNewestFirst(f, fs[1..]);
      assert fs[0] in fs;
      forall j | 0 <= j < |r| ensures fs[0].number > r[j].number { assert r[j] in r; }
    }
  }

  lemma {:induction false} SortIsSorted(fs: seq<File>)
    requires DistinctNumbers(fs)
    ensures NewestFirst(SortNewestFirst(fs))
  {
    if fs != [] {
      SortIsSorted(fs[1..]);
      forall g | g in SortNewestFirst(fs[1..]) ensures g.number != fs[0].number {
        var j :| 0 <= j < |fs[1..]| && fs[1..][j] == g;
        assert fs[j + 1] == g;
      }
      InsertKeepsOrder(fs[0], SortNewestFirst(fs[1..]));
    }
  }

  lemma {:induction false} CoveringDistinct(fs: seq<File>, k: Key)
    requires DistinctNumbers(fs)
    ensures DistinctNumbers(Covering(fs, k))
  {
    if fs != [] {
      CoveringDistinct(fs[1..], k);
      var r := Covering(fs[1..], k);
      forall i | 0 <= i < |r| ensures r[i].number != fs[0].number {
        assert r[i] in fs[1..];
        var j :| 0 <= j < |fs[1..]| && fs[1..][j] == r[i];
        assert fs[j + 1] == r[i];
      }
    }
  }

  function SearchInOrder(fs: seq<File>, k: Key, s: nat): Option<Entry> {
    if fs == [] then None else OrElse(Probe(fs[0].entries, k, s), SearchInOrder(fs[1..], k, s))
  }

  function SearchLevel0(fs: seq<File>, k: Key, s: nat): Option<Entry> {
    SearchInOrder(SortNewestFirst(Covering(fs, k)), k, s)
  }

  /** Within level 0 the file with the larger number is the newer one. */
  ghost predicate NumbersFollowAge(fs: seq<File>) {
    forall f, g | f in fs && g in fs && f.number > g.number :: Newer(Content(f.entries), Content(g.entries))
  }

  lemma {:induction false} SearchInOrderRight(fs: seq<File>, k: Key, s: nat)
    requires FilesOk(fs) && NewestFirst(fs) && NumbersFollowAge(fs)
    ensures Right(Held(fs), k, s, SearchInOrder(fs, k, s))
  {
    if fs != [] {
      var f, rest := fs[0], fs[1..];
      assert forall g | g in rest :: g in fs;
      SearchInOrderRight(rest, k, s);
      ProbeRight(f.entries, k, s);
      NewestHead(fs);
      RightUnion(Content(f.entries), Held(rest), k, s, Probe(f.entries, k, s), SearchInOrder(rest, k, s));
      assert Held(fs) == Content(f.entries) + Held(rest) by { HeldHead(fs); }
    }
  }

  lemma HeldHead(fs: seq<File>)
    requires fs != []
    ensures Held(fs) == Content(fs[0].entries) + Held(fs[1..])
  {
    assert fs == [fs[0]] + fs[1..];
  }

  lemma NewestHead(fs: seq<File>)
    requires fs != [] && NewestFirst(fs) && NumbersFollowAge(fs)
    ensures Newer(Content(fs[0].entries), Held(fs[1..]))
  {
    forall a, b | a in Content(fs[0].entries) && b in Held(fs[1..]) && a.key == b.key ensures a.sn > b.sn {
      var g :| g in fs[1..] && b in g.entries;
      var j :| 0 <= j < |fs[1..]| && fs[1..][j] == g;
      assert fs[j + 1] == g && fs[0].number > g.number;
      assert b in Content(g.entries);
      assert Newer(Content(fs[0].entries), Content(g.entries));
    }
  }

  lemma SearchLevel0Right(fs: seq<File>, k: Key, s: nat)
    requires FilesOk(fs) && NumbersFollowAge(fs) && DistinctNumbers(fs)
    ensures Right(Held(fs), k, s, SearchLevel0(fs, k, s))
  {
    var c := Covering(fs, k);
    var t := SortNewestFirst(c);
    CoveringDistinct(fs, k);
    SortIsSorted(c);
    SearchInOrderRight(t, k, s);
    forall f, x | f in fs && x in f.entries && x.key == k ensures x in Held(t) {
      WithinRange(f, x);
      assert f in t;
    }
  }
}
