/**
 The version set: LogAndApply installs an edit and appends it to the manifest, starting
 the manifest with a snapshot on the first call. Every run keeps the manifest a journal
 from which recovery rebuilds the current version.
 */
module VersionSets {
  import opened Entries
  import opened Versions
  import opened VersionEdits
  import opened Builders
  import opened Coding
  import opened VersionOrder
  import opened Recovery
  import Logs

  /** Numbers that the edits add to level `l`. */
  function KnownAt(l: nat, es: seq<Edit<File>>): set<nat> {
    if es == [] then {} else Numbers(AddedAt(es[0].added, l)) + KnownAt(l, es[1..])
  }

  lemma {:induction false} AddedOnceLast(known: set<nat>, l: nat, es: seq<Edit<File>>, e: Edit<File>)
    requires AddedOnce(known, l, es) && NewNumbers(known + KnownAt(l, es), AddedAt(e.added, l))
    ensures AddedOnce(known, l, es + [e]) && KnownAt(l, es + [e]) == KnownAt(l, es) + Numbers(AddedAt(e.added, l))
    decreases |es|
  {
    hide NewNumbers;
    if es == [] {
      assert (es + [e])[0] == e && (es + [e])[1..] == [] && known + {} == known;
    } else {
      var here := Numbers(AddedAt(es[0].added, l));
      assert (es + [e])[1..] == es[1..] + [e];
      assert known + KnownAt(l, es) == known + here + KnownAt(l, es[1..]);
      AddedOnceLast(known + here, l, es[1..], e);
    }
  }

  // -------------------------------------------------------------- snapshots

  /** The files of levels `l` and up, in order, each with its level. */
  function FilesFrom(v: seq<seq<File>>, l: nat): seq<(nat, File)>
    requires l <= |v|
    decreases |v| - l
  {
    if l == |v| then [] else Tagged(l, v[l]) + FilesFrom(v, l + 1)
  }

  function Tagged(l: nat, fs: seq<File>): (r: seq<(nat, File)>)
    ensures |r| == |fs| && forall i | 0 <= i < |fs| :: r[i] == (l, fs[i])
  {
    seq(|fs|, i requires 0 <= i < |fs| => (l, fs[i]))
  }

  /** The pointers of levels `l` and up that are set. */
  function PointersFrom(p: map<nat, Bytes>, l: nat): seq<(nat, Bytes)>
    requires l <= NUM_LEVELS
    decreases NUM_LEVELS - l
  {
    if l == NUM_LEVELS then [] else (if l in p then [(l, p[l])] else []) + PointersFrom(p, l + 1)
  }

  predicate PointersOk(p: map<nat, Bytes>) {
    forall l | l in p :: l < NUM_LEVELS && |p[l]| < TWO_32
  }

  lemma {:induction false} PointersStored(p: map<nat, Bytes>, l: nat)
    requires l <= NUM_LEVELS && PointersOk(p)
    ensures forall x | x in PointersFrom(p, l) :: FieldOk(CompactPointer(x.0, x.1))
    decreases NUM_LEVELS - l
  {
    if l < NUM_LEVELS { PointersStored(p, l + 1); }
  }

  function PointersBelow(p: map<nat, Bytes>, l: nat): map<nat, Bytes> {
    map x | x in p && x < l :: p[x]
  }

  lemma BelowNext(p: map<nat, Bytes>, l: nat)
    ensures PointersBelow(p, l + 1) == if l in p then PointersBelow(p, l)[l := p[l]] else PointersBelow(p, l)
  {
  }

  lemma BelowAll(p: map<nat, Bytes>)
    requires PointersOk(p)
    ensures PointersBelow(p, NUM_LEVELS) == p && PointersBelow(p, 0) == map[]
  {
  }

  /** Setting the stored pointers gives the pointers back. */
  lemma {:induction false} PointersRestored(p: map<nat, Bytes>, l: nat)
    requires l <= NUM_LEVELS && PointersOk(p)
    ensures SetPointers(PointersBelow(p, l), PointersFrom(p, l)) == p
    decreases NUM_LEVELS - l
  {
    hide PointersBelow, PointersOk;
    if l == NUM_LEVELS {
      BelowAll(p);
    } else {
      BelowNext(p, l);
      PointersRestored(p, l + 1);
      var ps, rest := PointersFrom(p, l), PointersFrom(p, l + 1);
      if l in p {
        assert ps == [(l, p[l])] + rest && ps[1..] == rest;
      } else {
        assert ps == rest;
      }
    }
  }

  function Snapshot(v: seq<seq<File>>, p: map<nat, Bytes>, name: Bytes): Edit<File> {
    Edit(Some(name), None, None, None, None, PointersFrom(p, 0), [], FilesFrom(v, 0))
  }

  lemma {:induction false} AddedAtAppend(a: seq<(nat, File)>, b: seq<(nat, File)>, l: nat)
    ensures AddedAt(a + b, l) == AddedAt(a, l) + AddedAt(b, l)
    decreases |a|
  {
    if a == [] {
      assert a + b == b;
    } else {
      assert (a + b)[1..] == a[1..] + b;
      AddedAtAppend(a[1..], b, l);
      var head, x, y := if a[0].0 == l then [a[0].1] else [], AddedAt(a[1..], l), AddedAt(b, l);
      assert head + (x + y) == head + x + y;
    }
  }

  lemma {:induction false} AddedAtTagged(m: nat, fs: seq<File>, l: nat)
    ensures AddedAt(Tagged(m, fs), l) == if l == m then fs else []
    decreases |fs|
  {
    if fs != [] {
      assert Tagged(m, fs)[1..] == Tagged(m, fs[1..]);
      AddedAtTagged(m, fs[1..], l);
    }
  }

  lemma {:induction false} AddedAtFiles(v: seq<seq<File>>, m: nat, l: nat)
    requires m <= |v| && l < |v|
    ensures AddedAt(FilesFrom(v, m), l) == if m <= l then v[l] else []
    decreases |v| - m
  {
    if m < |v| {
      AddedAtAppend(Tagged(m, v[m]), FilesFrom(v, m + 1), l);
      AddedAtTagged(m, v[m], l);
      AddedAtFiles(v, m + 1, l);
    }
  }

  lemma {:induction false} FilesPlaced(v: seq<seq<File>>, m: nat, p: (nat, File))
    requires m <= |v| && p in FilesFrom(v, m)
    ensures Placed(v, p.0, p.1)
    decreases |v| - m
  {
    if m < |v| {
      if p in Tagged(m, v[m]) {
        var i :| 0 <= i < |v[m]| && Tagged(m, v[m])[i] == p;
      } else {
        FilesPlaced(v, m + 1, p);
      }
    }
  }

  /** Within a level, ordered and no number twice. */
  ghost predicate Orderly(fs: seq<File>) {
    SortedBySmallest(fs) && forall f, g | f in fs && g in fs && f.number == g.number :: f == g
  }

  lemma LevelNew(fs: seq<File>)
    requires Orderly(fs)
    ensures NewNumbers({}, fs)
  {
    forall i, j | 0 <= i < j < |fs| ensures fs[i].number != fs[j].number {
      assert SmallestLess(fs[i], fs[j]);
      assert fs[i] in fs && fs[j] in fs;
    }
  }

  /** Installing the snapshot into the empty version gives the version back. */
  lemma SnapshotRestores(v: seq<seq<File>>, p: map<nat, Bytes>, name: Bytes, l: nat)
    requires |v| == NUM_LEVELS && l < NUM_LEVELS && Orderly(v[l])
    ensures Install(EmptyVersion(), Snapshot(v, p, name))[l] == v[l]
    ensures AddedAt(Snapshot(v, p, name).added, l) == v[l] && NewNumbers({}, v[l])
  {
    hide Save, ApplyAt, PointersFrom;
    var e := Snapshot(v, p, name);
    AddedAtFiles(v, 0, l);
    LevelNew(v[l]);
    ApplyMeans(UNTOUCHED, l, e, {});
    var st := ApplyAt(UNTOUCHED, l, e);
    var r := Save([], st);
    SaveSorted([], st);
    forall f ensures f in r <==> f in v[l] {
      SaveMembers([], st, f);
    }
    SortedUnique(r, v[l]);
  }

  // -------------------------------------------------------------- one edit

  lemma InstallLevel(v: seq<File>, l: nat, e: Edit<File>, known: set<nat>)
    requires Orderly(v) && Numbers(v) <= known && NewNumbers(known, AddedAt(e.added, l))
    ensures
      var r := Save(v, ApplyAt(UNTOUCHED, l, e));
      && Orderly(r) && Numbers(r) <= Numbers(v) + Numbers(AddedAt(e.added, l))
      && forall f | f in r :: f in v || f in AddedAt(e.added, l)
  {
    hide Save, ApplyAt, SortedBySmallest;
    var st, fs := ApplyAt(UNTOUCHED, l, e), AddedAt(e.added, l);
    NothingSorted();
    ApplyMeans(UNTOUCHED, l, e, known);
    assert Numbers(st.added) == Numbers(fs);
    SaveSorted(v, st);
    SavedNumbers(v, st);
    var r := Save(v, st);
    forall f | f in r ensures f in v || f in fs {
      SaveMembers(v, st, f);
    }
    forall f, g | f in r && g in r && f.number == g.number ensures f == g {
      SaveMembers(v, st, f);
      SaveMembers(v, st, g);
      if f in v { NumbersOf(v, f); }
      if g in v { NumbersOf(v, g); }
      if f in fs && g in fs { SameNumber(fs, f, g); }
    }
  }

  lemma SameNumber(fs: seq<File>, f: File, g: File)
    requires f in fs && g in fs && f.number == g.number && NewNumbers({}, fs)
    ensures f == g
  {
    var i :| 0 <= i < |fs| && fs[i] == f;
    var j :| 0 <= j < |fs| && fs[j] == g;
  }

  // -------------------------------------------------------------- the version set

  predicate Storable(f: File, enc: File -> Meta, open: Meta -> File) {
    FieldOk(NewFile(0, enc(f))) && open(enc(f)) == f
  }

  /** Every level is orderly, and its files are storable and numbered below `next`. */
  ghost predicate Sound(v: seq<seq<File>>, next: nat, enc: File -> Meta, open: Meta -> File) {
    && |v| == NUM_LEVELS && (forall l | 0 <= l < NUM_LEVELS :: Orderly(v[l]))
    && (forall l, f | Placed(v, l, f) :: Storable(f, enc, open) && f.number < next)
  }

  /** The manifest's edits lead to `v` and the pointers `p`, and recovery can follow any wholly written part of them. */
  ghost predicate Leads(es: seq<Edit<File>>, v: seq<seq<File>>, p: map<nat, Bytes>, enc: File -> Meta, open: Meta -> File, name: Bytes) {
    && Journal(es, enc, open, name) && CountersKept(es) && |v| == NUM_LEVELS
    && v == InstallAll(EmptyVersion(), es) && p == PointersAfter(map[], es)
    && forall l: nat | l < NUM_LEVELS :: Numbers(v[l]) <= KnownAt(l, es)
  }

  lemma SnapshotLeads(v: seq<seq<File>>, p: map<nat, Bytes>, next: nat, enc: File -> Meta, open: Meta -> File, name: Bytes)
    requires Sound(v, next, enc, open) && PointersOk(p) && |name| < TWO_32
    ensures Leads([Snapshot(v, p, name)], v, p, enc, open, name)
    ensures forall l: nat | l < NUM_LEVELS :: KnownAt(l, [Snapshot(v, p, name)]) == Numbers(v[l])
  {
    hide Save, ApplyAt, NewNumbers, Orderly, Writable, Snapshot;
    var e := Snapshot(v, p, name);
    SnapshotWritable(v, p, next, enc, open, name);
    assert [e][1..] == [];
    forall l: nat | l < NUM_LEVELS
      ensures AddedOnce({}, l, [e]) && KnownAt(l, [e]) == Numbers(v[l]) && Install(EmptyVersion(), e)[l] == v[l]
    {
      SnapshotRestores(v, p, name, l);
    }
    assert Install(EmptyVersion(), e) == v;
    assert InstallAll(EmptyVersion(), [e]) == InstallAll(v, []) == v;
    assert PointersAfter(map[], [e]) == p by { SnapshotPointers(v, p, name); }
    assert Journal([e], enc, open, name);
    assert CountersKept([e]);
  }

  lemma SnapshotPointers(v: seq<seq<File>>, p: map<nat, Bytes>, name: Bytes)
    requires PointersOk(p)
    ensures PointersAfter(map[], [Snapshot(v, p, name)]) == p
  {
    BelowAll(p);
    PointersRestored(p, 0);
    assert [Snapshot(v, p, name)][1..] == [];
  }

  lemma SnapshotWritable(v: seq<seq<File>>, p: map<nat, Bytes>, next: nat, enc: File -> Meta, open: Meta -> File, name: Bytes)
    requires Sound(v, next, enc, open) && PointersOk(p) && |name| < TWO_32
    ensures Writable(Snapshot(v, p, name), enc, open, name)
  {
    hide Orderly, Storable, FieldOk, PointersFrom, PointersOk;
    var e := Snapshot(v, p, name);
    NameOk(name);
    PointersStored(p, 0);
    forall x | x in e.added ensures x.0 < NUM_LEVELS && Storable(x.1, enc, open) {
      FilesPlaced(v, 0, x);
    }
    var m := Stored(e, enc);
    forall x | x in m.added ensures FieldOk(NewFile(x.0, x.1)) {
      var i :| 0 <= i < |e.added| && x == m.added[i];
      assert e.added[i] in e.added;
      StorableAt(e.added[i].0, e.added[i].1, enc, open);
    }
    forall x | x in e.added ensures open(enc(x.1)) == x.1 {
      StorableAt(x.0, x.1, enc, open);
    }
  }

  lemma NameOk(name: Bytes)
    requires |name| < TWO_32
    ensures FieldOk(Comparator(name))
  {
  }

  lemma StorableAt(l: nat, f: File, enc: File -> Meta, open: Meta -> File)
    requires l < NUM_LEVELS && Storable(f, enc, open)
    ensures FieldOk(NewFile(l, enc(f))) && open(enc(f)) == f
  {
  }

  /** Writing one more edit keeps the manifest leading to the current version. */
  lemma EditLeads(es: seq<Edit<File>>, v: seq<seq<File>>, p: map<nat, Bytes>, e: Edit<File>, next: nat, enc: File -> Meta,
                  open: Meta -> File, name: Bytes)
    requires es != [] && Leads(es, v, p, enc, open, name) && Sound(v, next, enc, open)
    requires Writable(e, enc, open, name) && Counters(e, next)
    requires forall p | p in e.added :: Storable(p.1, enc, open) && p.1.number < next
    requires forall l: nat | l < NUM_LEVELS :: NewNumbers(KnownAt(l, es), AddedAt(e.added, l))
    ensures Leads(es + [e], Install(v, e), SetPointers(p, e.compactPointers), enc, open, name) && Sound(Install(v, e), next, enc, open)
  {
    hide Save, ApplyAt, NewNumbers, Orderly, Writable, Storable, InstallAll, AddedOnce, KnownAt, Install, Counted, PointersAfter;
    PointersLast(map[], es, e);
    var w, more := Install(v, e), es + [e];
    InstalledSound(v, e, next, enc, open, es);
    InstallLast(EmptyVersion(), es, e);
    forall l: nat | l < NUM_LEVELS ensures AddedOnce({}, l, more) && Numbers(w[l]) <= KnownAt(l, more) {
      assert {} + KnownAt(l, es) == KnownAt(l, es);
      AddedOnceLast({}, l, es, e);
    }
    forall i | 1 <= i < |more| ensures Counted(InstallAll(EmptyVersion(), more[..i + 1]), more[i]) {
      if i < |es| {
        assert more[..i + 1] == es[..i + 1];
      } else {
        assert more[..i + 1] == more;
        NowCounted(w, e, next, enc, open);
      }
    }
  }

  ghost predicate Counters(e: Edit<File>, next: nat) {
    e.logNumber.Some? && e.prevLogNumber.Some? && e.lastSequence.Some? && e.nextFileNumber == Some(next)
  }

  lemma NowCounted(w: seq<seq<File>>, e: Edit<File>, next: nat, enc: File -> Meta, open: Meta -> File)
    requires Sound(w, next, enc, open) && Counters(e, next)
    ensures Counted(w, e)
  {
  }

  lemma InstalledSound(v: seq<seq<File>>, e: Edit<File>, next: nat, enc: File -> Meta, open: Meta -> File, es: seq<Edit<File>>)
    requires Sound(v, next, enc, open)
    requires forall l: nat | l < NUM_LEVELS :: Numbers(v[l]) <= KnownAt(l, es)
    requires forall p | p in e.added :: Storable(p.1, enc, open) && p.1.number < next
    requires forall l: nat | l < NUM_LEVELS :: NewNumbers(KnownAt(l, es), AddedAt(e.added, l))
    ensures Sound(Install(v, e), next, enc, open)
    ensures forall l: nat | l < NUM_LEVELS :: Numbers(Install(v, e)[l]) <= KnownAt(l, es) + Numbers(AddedAt(e.added, l))
  {
    hide Save, ApplyAt, NewNumbers, Orderly, KnownAt, Storable;
    var w := Install(v, e);
    forall l: nat | l < NUM_LEVELS
      ensures Orderly(w[l]) && Numbers(w[l]) <= KnownAt(l, es) + Numbers(AddedAt(e.added, l))
      ensures forall f | f in w[l] :: Storable(f, enc, open) && f.number < next
    {
      InstallLevel(v[l], l, e, KnownAt(l, es));
      forall f | f in w[l] ensures Storable(f, enc, open) && f.number < next {
        if f in v[l] {
          assert Placed(v, l, f);
        } else {
          AddedFrom(e.added, l, f);
        }
      }
    }
  }

  lemma {:induction false} AddedFrom(ps: seq<(nat, File)>, l: nat, f: File)
    requires f in AddedAt(ps, l)
    ensures (l, f) in ps
  {
    if ps != [] {
      if !(ps[0].0 == l && ps[0].1 == f) {
        AddedFrom(ps[1..], l, f);
      }
    }
  }

  class VersionSet {
    const name: Bytes
    const enc: File -> Meta
    ghost const open: Meta -> File
    var current: seq<seq<File>>
    var nextFileNumber: nat
    var lastSequence: nat
    var logNumber: nat
    var prevLogNumber: nat
    var pointers: map<nat, Bytes>    // compact_pointer_, where one is set
    var manifest: Option<seq<Bytes>> // the descriptor log's records, once it is open
    ghost var history: seq<Edit<File>>
    ghost var logged: map<nat, Bytes> // the pointers the manifest leads to

    ghost predicate Valid()
      reads this
    {
      && |name| < TWO_32 && Sound(current, nextFileNumber, enc, open) && PointersOk(pointers)
      && (manifest.Some? ==>
            |history| >= 2 && manifest.value == Records(history, enc) && Leads(history, current, logged, enc, open, name))
    }

    /** A version set as it is after opening: a version, and no manifest of its own yet. */
    constructor (name: Bytes, enc: File -> Meta, ghost open: Meta -> File, version: seq<seq<File>>,
                 nextFileNumber: nat, lastSequence: nat, logNumber: nat, prevLogNumber: nat, pointers: map<nat, Bytes>)
      requires |name| < TWO_32 && Sound(version, nextFileNumber, enc, open) && PointersOk(pointers)
      ensures Valid() && manifest.None? && current == version && this.pointers == pointers
      ensures this.name == name && this.enc == enc && this.open == open && this.nextFileNumber == nextFileNumber
    {
      this.name, this.enc, this.open := name, enc, open;
      current, manifest, history := version, None, [];
      this.nextFileNumber, this.lastSequence := nextFileNumber, lastSequence;
      this.logNumber, this.prevLogNumber, this.pointers := logNumber, prevLogNumber, pointers;
      logged := map[];
    }

    /** What PickCompaction does to the pointer of its level: it moves at once, and is logged with the compaction's edit. */
    method SetPointer(level: nat, key: Bytes)
      requires Valid() && level < NUM_LEVELS && |key| < TWO_32
      modifies this`pointers
      ensures Valid() && pointers == old(pointers)[level := key]
    {
      pointers := pointers[level := key];
    }

    /** What LogAndApply writes: the edit with its counters filled in. */
    function Completed(edit: Edit<File>): Edit<File>
      reads this
    {
      edit.(logNumber := if edit.logNumber.Some? then edit.logNumber else Some(logNumber),
            prevLogNumber := if edit.prevLogNumber.Some? then edit.prevLogNumber else Some(prevLogNumber),
            nextFileNumber := Some(nextFileNumber),
            lastSequence := Some(lastSequence))
    }

    /** The edits the manifest holds or is about to start with. */
    ghost function Begun(): seq<Edit<File>>
      reads this
    {
      if manifest.Some? then history else [Snapshot(current, pointers, name)]
    }

    method NewVersion(edit: Edit<File>, e: Edit<File>) returns (v: seq<seq<File>>)
      requires Valid() && Writable(e, enc, open, name) && e.added == edit.added && e.deleted == edit.deleted
      ensures v == Install(current, edit) == Install(current, e)
    {
      hide Save, ApplyAt, Leads, Sound, Writable, PointersOk;
      Lengths(current, nextFileNumber, enc, open);
      WritableLevels(e, enc, open, name);
      var builder := new Builder(current);
      builder.Apply(e);
      v := builder.SaveTo();
      SameInstall(current, edit, e, v);
    }

    /** The manifest with the edit leads to the version and the pointers with the edit. */
    lemma Appended(edit: Edit<File>)
      requires Valid() && Writable(Completed(edit), enc, open, name)
      requires forall p | p in edit.added :: Storable(p.1, enc, open) && p.1.number < nextFileNumber
      requires forall l: nat | l < NUM_LEVELS :: NewNumbers(KnownAt(l, Begun()), AddedAt(edit.added, l))
      ensures var e, led := Completed(edit), if manifest.Some? then logged else pointers;
              && Leads(Begun() + [e], Install(current, e), SetPointers(led, e.compactPointers), enc, open, name)
              && Sound(Install(current, e), nextFileNumber, enc, open) && PointersOk(SetPointers(pointers, e.compactPointers))
    {
      hide Save, ApplyAt, Leads, Sound, Snapshot, Record, NewNumbers, Writable, SetPointers, PointersOk, KnownAt, AddedAt, Storable, Records, Install;
      var e, led := Completed(edit), if manifest.Some? then logged else pointers;
      if manifest.None? {
        SnapshotLeads(current, pointers, nextFileNumber, enc, open, name);
      }
      EditLeads(Begun(), current, led, e, nextFileNumber, enc, open, name);
      WritablePointers(pointers, e, enc, open, name);
    }

    method LogAndApply(edit: Edit<File>)
      requires Valid()
      requires edit.logNumber.Some? ==> logNumber <= edit.logNumber.value < nextFileNumber
      requires Writable(Completed(edit), enc, open, name)
      requires forall p | p in edit.added :: Storable(p.1, enc, open) && p.1.number < nextFileNumber
      requires forall l: nat | l < NUM_LEVELS :: NewNumbers(KnownAt(l, Begun()), AddedAt(edit.added, l))
      modifies this
      ensures Valid() && manifest.Some? && history == old(Begun()) + [old(Completed(edit))]
      ensures pointers == SetPointers(old(pointers), edit.compactPointers)
      ensures logged == SetPointers(if old(manifest).Some? then old(logged) else old(pointers), edit.compactPointers)
      ensures current == Install(old(current), edit)
      ensures nextFileNumber == old(nextFileNumber) && lastSequence == old(lastSequence)
      ensures Some(logNumber) == old(Completed(edit)).logNumber
      ensures Some(prevLogNumber) == old(Completed(edit)).prevLogNumber
    {
      hide Save, ApplyAt, Leads, Sound, Snapshot, Record, NewNumbers, Writable, SetPointers, PointersOk, KnownAt, AddedAt, Storable, Records, Install;
      var e := Completed(edit);
      ghost var begun := Begun();
      ghost var led := if manifest.Some? then logged else pointers;
      Appended(edit);
      var v := NewVersion(edit, e);
      var records := if manifest.Some? then manifest.value else [Record(Snapshot(current, pointers, name), enc)];
      RecordsGrow(begun, e, enc);
      manifest := Some(records + [Record(e, enc)]);
      history := begun + [e];
      current := v;
      logNumber := e.logNumber.value;
      prevLogNumber := e.prevLogNumber.value;
      logged := SetPointers(led, e.compactPointers);
      pointers := ApplyPointers(pointers, e.compactPointers);
    }
  }

  lemma RecordsGrow(es: seq<Edit<File>>, e: Edit<File>, enc: File -> Meta)
    ensures Records(es, enc) + [Record(e, enc)] == Records(es + [e], enc)
    ensures |es| == 1 ==> Records(es, enc) == [Record(es[0], enc)]
  {
    hide Record;
  }

  lemma {:induction false} SetPointersOk(m: map<nat, Bytes>, ps: seq<(nat, Bytes)>)
    requires PointersOk(m) && forall x | x in ps :: FieldOk(CompactPointer(x.0, x.1))
    ensures PointersOk(SetPointers(m, ps))
    decreases |ps|
  {
    if ps != [] {
      assert ps[0] in ps;
      SetPointersOk(m[ps[0].0 := ps[0].1], ps[1..]);
    }
  }

  lemma WritablePointers(m: map<nat, Bytes>, e: Edit<File>, enc: File -> Meta, open: Meta -> File, name: Bytes)
    requires PointersOk(m) && Writable(e, enc, open, name)
    ensures PointersOk(SetPointers(m, e.compactPointers))
  {
    SetPointersOk(m, e.compactPointers);
  }

  /** Recovery from the whole manifest finds the current version, the logged pointers and the counters of the last edit. */
  lemma RecoversCurrent(es: seq<Edit<File>>, v: seq<seq<File>>, p: map<nat, Bytes>, enc: File -> Meta, open: Meta -> File, name: Bytes)
    requires |es| >= 2 && Leads(es, v, p, enc, open, name)
    ensures Rebuilt(Recover(Logs.Log(0, Records(es, enc)), open, name), v, p, es[|es| - 1])
  {
    hide Journal, CountersKept, Recover, Rebuilt, Logs.Log, InstallAll, Logs.Whole, KnownAt, Numbers, Records, Record, PointersAfter;
    WholeManifest(es, enc, open, name);
  }

  /** A manifest cut off before its first edit is whole recovers nothing: the snapshot alone has no counters. */
  lemma CutBeforeFirstEdit(v: seq<seq<File>>, p: map<nat, Bytes>, es: seq<Edit<File>>, k: nat, enc: File -> Meta, open: Meta -> File, name: Bytes)
    requires Journal([Snapshot(v, p, name)] + es, enc, open, name) && CountersKept([Snapshot(v, p, name)] + es)
    requires var records := Records([Snapshot(v, p, name)] + es, enc); k <= |Logs.Log(0, records)| && Logs.Whole(0, records, k) < 2
    ensures Recover(Logs.Log(0, Records([Snapshot(v, p, name)] + es, enc))[..k], open, name) == None
  {
    hide Journal, CountersKept, Recover, Rebuilt, Logs.Log, InstallAll, Logs.Whole, Records, Record;
    var all := [Snapshot(v, p, name)] + es;
    CrashedManifest(all, k, enc, open, name);
  }

  lemma WholeManifest(es: seq<Edit<File>>, enc: File -> Meta, open: Meta -> File, name: Bytes)
    requires |es| >= 2 && Journal(es, enc, open, name) && CountersKept(es)
    ensures Rebuilt(Recover(Logs.Log(0, Records(es, enc)), open, name), InstallAll(EmptyVersion(), es), PointersAfter(map[], es), es[|es| - 1])
  {
    hide Journal, CountersKept, Recover, Rebuilt, Logs.Log, InstallAll, Logs.Whole, Records, Record, EmptyVersion, PointersAfter;
    var records := Records(es, enc);
    var file, n := Logs.Log(0, records), |es|;
    assert |records| == n;
    CrashedManifest(es, |file|, enc, open, name);
    Logs.WholeAll(0, records);
    assert file[..|file|] == file && es[..n] == es;
  }

  lemma Lengths(v: seq<seq<File>>, next: nat, enc: File -> Meta, open: Meta -> File)
    requires Sound(v, next, enc, open)
    ensures |v| == NUM_LEVELS
  {
  }

  lemma WritableLevels(e: Edit<File>, enc: File -> Meta, open: Meta -> File, name: Bytes)
    requires Writable(e, enc, open, name)
    ensures LevelsInRange(e)
  {
  }

  /** The counters do not matter to the version. */
  lemma SameInstall(v: seq<seq<File>>, e: Edit<File>, e': Edit<File>, w: seq<seq<File>>)
    requires |v| == |w| == NUM_LEVELS && e.added == e'.added && e.deleted == e'.deleted
    requires forall l | 0 <= l < NUM_LEVELS :: w[l] == Save(v[l], ApplyAt(UNTOUCHED, l, e'))
    ensures w == Install(v, e) == Install(v, e')
  {
    hide Save, AddAll;
  }
}
