/**
 The manifest: a log whose first record is a snapshot of a version and whose further
 records are the edits installed since. Recovery replays it.

 What the manifest stores of a file does not include its contents; `enc` is what is
 stored of a file and `open` the file a stored description stands for.
 */
module Recovery {
  import opened Entries
  import opened Coding
  import opened Versions
  import opened VersionEdits
  import opened Builders
  import opened VersionOrder
  import Logs

  function EmptyVersion(): (v: seq<seq<File>>)
    ensures |v| == NUM_LEVELS && forall l | 0 <= l < NUM_LEVELS :: v[l] == []
  {
    seq(NUM_LEVELS, _ => [])
  }

  function Stored(e: Edit<File>, enc: File -> Meta): Edit<Meta> {
    Edit(e.comparator, e.logNumber, e.prevLogNumber, e.nextFileNumber, e.lastSequence, e.compactPointers, e.deleted,
         seq(|e.added|, i requires 0 <= i < |e.added| => (e.added[i].0, enc(e.added[i].1))))
  }

  function Opened(e: Edit<Meta>, open: Meta -> File): Edit<File> {
    Edit(e.comparator, e.logNumber, e.prevLogNumber, e.nextFileNumber, e.lastSequence, e.compactPointers, e.deleted,
         seq(|e.added|, i requires 0 <= i < |e.added| => (e.added[i].0, open(e.added[i].1))))
  }

  function Record(e: Edit<File>, enc: File -> Meta): Bytes {
    Encode(Fields(Stored(e, enc)))
  }

  function Records(es: seq<Edit<File>>, enc: File -> Meta): (r: seq<Bytes>)
    ensures |r| == |es| && forall i | 0 <= i < |es| :: r[i] == Record(es[i], enc)
  {
    seq(|es|, i requires 0 <= i < |es| => Record(es[i], enc))
  }

  /** The edit can be written and read back: sizes fit, names agree, stored files can be reopened. */
  predicate Writable(e: Edit<File>, enc: File -> Meta, open: Meta -> File, name: Bytes) {
    && EditOk(Stored(e, enc)) && LevelsInRange(e)
    && (e.comparator.None? || e.comparator.value == name)
    && forall p | p in e.added :: open(enc(p.1)) == p.1
  }

  lemma OpenedStored(e: Edit<File>, enc: File -> Meta, open: Meta -> File, name: Bytes)
    requires Writable(e, enc, open, name)
    ensures Opened(Stored(e, enc), open) == e
  {
    var r := Opened(Stored(e, enc), open);
    forall i | 0 <= i < |e.added| ensures r.added[i] == e.added[i] {
      assert e.added[i] in e.added;
    }
    assert r.added == e.added;
  }

  // -------------------------------------------------------------- replay

  datatype Replayed = Replayed(
    levels: seq<LevelState>,
    logNumber: Option<nat>,
    prevLogNumber: Option<nat>,
    nextFile: Option<nat>,
    lastSequence: Option<nat>,
    pointers: map<nat, Bytes>)

  function Start(): Replayed {
    Replayed(seq(NUM_LEVELS, _ => UNTOUCHED), None, None, None, None, map[])
  }

  /** Each level's pointer is the last one set. */
  function SetPointers(m: map<nat, Bytes>, ps: seq<(nat, Bytes)>): map<nat, Bytes>
    decreases |ps|
  {
    if ps == [] then m else SetPointers(m[ps[0].0 := ps[0].1], ps[1..])
  }

  function PointersAfter(m: map<nat, Bytes>, es: seq<Edit<File>>): map<nat, Bytes>
    decreases |es|
  {
    if es == [] then m else PointersAfter(SetPointers(m, es[0].compactPointers), es[1..])
  }

  method ApplyPointers(m: map<nat, Bytes>, ps: seq<(nat, Bytes)>) returns (r: map<nat, Bytes>)
    ensures r == SetPointers(m, ps)
  {
    r := m;
    assert ps[0..] == ps;
    for i := 0 to |ps|
      invariant SetPointers(r, ps[i..]) == SetPointers(m, ps)
    {
      assert ps[i..][1..] == ps[i + 1..];
      r := r[ps[i].0 := ps[i].1];
    }
  }

  lemma {:induction false} PointersLast(m: map<nat, Bytes>, es: seq<Edit<File>>, e: Edit<File>)
    ensures PointersAfter(m, es + [e]) == SetPointers(PointersAfter(m, es), e.compactPointers)
    decreases |es|
  {
    if es == [] {
      assert (es + [e])[1..] == [];
    } else {
      assert (es + [e])[1..] == es[1..] + [e];
      PointersLast(SetPointers(m, es[0].compactPointers), es[1..], e);
    }
  }

  function Take(s: Replayed, e: Edit<File>): (r: Replayed)
    requires |s.levels| == NUM_LEVELS
    ensures |r.levels| == NUM_LEVELS && forall l | 0 <= l < NUM_LEVELS :: r.levels[l] == ApplyAt(s.levels[l], l, e)
  {
    Replayed(seq(NUM_LEVELS, l requires 0 <= l < NUM_LEVELS => ApplyAt(s.levels[l], l, e)),
          OrElse(e.logNumber, s.logNumber), OrElse(e.prevLogNumber, s.prevLogNumber),
          OrElse(e.nextFileNumber, s.nextFile), OrElse(e.lastSequence, s.lastSequence),
          SetPointers(s.pointers, e.compactPointers))
  }

  function TakeAll(s: Replayed, es: seq<Edit<File>>): (r: Replayed)
    requires |s.levels| == NUM_LEVELS
    ensures |r.levels| == NUM_LEVELS
    decreases |es|
  {
    if es == [] then s else TakeAll(Take(s, es[0]), es[1..])
  }

  /** One manifest record: None for one that does not decode or names another comparator. */
  function Understand(record: Bytes, open: Meta -> File, name: Bytes): (r: Option<Edit<File>>)
    ensures r.Some? ==> LevelsInRange(r.value)
  {
    match Decode(record, Fresh())
    case None => None
    case Some(m) =>
      if m.comparator.Some? && m.comparator.value != name then None
      else DecodedLevels(record, Fresh()); OpenedLevels(m, open); Some(Opened(m, open))
  }

  lemma OpenedLevels(m: Edit<Meta>, open: Meta -> File)
    requires LevelsInRange(m)
    ensures LevelsInRange(Opened(m, open))
  {
    var e := Opened(m, open);
    forall p | p in e.added ensures p.0 < NUM_LEVELS {
      var i :| 0 <= i < |e.added| && e.added[i] == p;
      assert m.added[i] in m.added;
    }
  }

  lemma {:induction false} InsertMembers(p: (nat, nat), s: seq<(nat, nat)>)
    ensures forall q :: q in Insert(p, s) <==> q == p || q in s
  {
    if s != [] {
      InsertMembers(p, s[1..]);
      assert forall q :: q in s <==> q == s[0] || q in s[1..];
    }
  }

  predicate LevelOk(x: Field) {
    (x.CompactPointer? || x.DeletedFile? || x.NewFile?) ==> x.level < NUM_LEVELS
  }

  lemma BodyLevel(tag: nat, s: Bytes)
    ensures GetBody(tag, s).Some? ==> LevelOk(GetBody(tag, s).value.0)
  {
    hide GetPrefixed, GetVarint64, GetLevel, GetMeta;
  }

  lemma PutLevel(e: Edit<Meta>, x: Field)
    requires LevelsInRange(e) && LevelOk(x)
    ensures LevelsInRange(Put(e, x))
  {
    if x.DeletedFile? { InsertMembers((x.level, x.n), e.deleted); }
  }

  /** Whatever decodes, its levels are levels of the version. */
  lemma {:induction false} DecodedLevels(s: Bytes, e: Edit<Meta>)
    requires LevelsInRange(e)
    ensures Decode(s, e).Some? ==> LevelsInRange(Decode(s, e).value)
    decreases |s|
  {
    hide GetBody, Put, GetVarint32, LevelsInRange;
    match GetVarint32(s)
    case None =>
    case Some(t) =>
      match GetBody(t.0, s[t.1..])
      case None =>
      case Some(b) =>
        BodyLevel(t.0, s[t.1..]);
        PutLevel(e, b.0);
        DecodedLevels(s[t.1 + b.1..], Put(e, b.0));
  }

  function Replay(s: Replayed, records: seq<Bytes>, open: Meta -> File, name: Bytes): (r: Option<Replayed>)
    requires |s.levels| == NUM_LEVELS
    ensures r.Some? ==> |r.value.levels| == NUM_LEVELS
    decreases |records|
  {
    if records == [] then Some(s)
    else
      match Understand(records[0], open, name)
      case None => None
      case Some(e) => Replay(Take(s, e), records[1..], open, name)
  }

  datatype Recovered = Recovered(
    version: seq<seq<File>>, nextFileNumber: nat, lastSequence: nat, logNumber: nat, prevLogNumber: nat, pointers: map<nat, Bytes>)

  function Finish(s: Replayed): Option<Recovered>
    requires |s.levels| == NUM_LEVELS
  {
    if s.nextFile.None? || s.logNumber.None? || s.lastSequence.None? then None
    else Some(Recovered(
      seq(NUM_LEVELS, l requires 0 <= l < NUM_LEVELS => Save([], s.levels[l])),
      s.nextFile.value + 1, s.lastSequence.value, s.logNumber.value,
      if s.prevLogNumber.Some? then s.prevLogNumber.value else 0, s.pointers))
  }

  /** Recovery from the manifest's bytes; a reported drop is an error. */
  function Recover(file: Bytes, open: Meta -> File, name: Bytes): Option<Recovered> {
    var (records, dropped) := Logs.ReadAll(file, Logs.Cursor(0, 0, false), true, []);
    if dropped != [] then None
    else
      match Replay(Start(), records, open, name)
      case None => None
      case Some(s) => Finish(s)
  }

  // -------------------------------------------------------------- when recovery fails

  datatype Counter = OfLog | OfFiles | OfSequence

  predicate Known(s: Replayed, c: Counter) {
    match c
    case OfLog => s.logNumber.Some?
    case OfFiles => s.nextFile.Some?
    case OfSequence => s.lastSequence.Some?
  }

  /** The record decodes to an edit with that counter. */
  predicate Says(record: Bytes, c: Counter) {
    Decode(record, Fresh()).Some? &&
    var m := Decode(record, Fresh()).value;
    match c
    case OfLog => m.logNumber.Some?
    case OfFiles => m.nextFileNumber.Some?
    case OfSequence => m.lastSequence.Some?
  }

  /** The record decodes and names no other comparator. */
  predicate Acceptable(record: Bytes, name: Bytes) {
    Decode(record, Fresh()).Some? &&
    var m := Decode(record, Fresh()).value;
    m.comparator.None? || m.comparator.value == name
  }

  ghost predicate SomeSays(records: seq<Bytes>, c: Counter) {
    exists r :: r in records && Says(r, c)
  }

  lemma OneRecord(s: Replayed, record: Bytes, open: Meta -> File, name: Bytes, c: Counter)
    requires |s.levels| == NUM_LEVELS
    ensures Understand(record, open, name).Some? <==> Acceptable(record, name)
    ensures Acceptable(record, name) ==>
      (Known(Take(s, Understand(record, open, name).value), c) <==> Says(record, c) || Known(s, c))
  {
    hide Decode, SetPointers, ApplyAt;
  }

  lemma {:induction false} ReplayIff(s: Replayed, records: seq<Bytes>, open: Meta -> File, name: Bytes, c: Counter)
    requires |s.levels| == NUM_LEVELS
    ensures Replay(s, records, open, name).Some? <==> forall r | r in records :: Acceptable(r, name)
    ensures Replay(s, records, open, name).Some? ==>
      (Known(Replay(s, records, open, name).value, c) <==> Known(s, c) || SomeSays(records, c))
    decreases |records|
  {
    hide Understand, Acceptable, Says, Known, Take;
    if records != [] {
      var r := records[0];
      assert forall x :: x in records <==> x == r || x in records[1..];
      OneRecord(s, r, open, name, c);
      if Acceptable(r, name) {
        var e := Understand(r, open, name).value;
        TakeLength(s, e);
        ReplayIff(Take(s, e), records[1..], open, name, c);
      }
    }
  }

  /**
   Recovery succeeds on a file if and only if the log reader reports nothing dropped, every record decodes
   and names no other comparator, and each of the three counters it cannot do without is in some record.
   */
  lemma RecoverIff(file: Bytes, open: Meta -> File, name: Bytes)
    ensures
      var (records, dropped) := Logs.ReadAll(file, Logs.Cursor(0, 0, false), true, []);
      Recover(file, open, name).Some? <==>
        && dropped == [] && (forall r | r in records :: Acceptable(r, name))
        && SomeSays(records, OfLog) && SomeSays(records, OfFiles) && SomeSays(records, OfSequence)
  {
    hide Logs.ReadAll, Replay, Acceptable, SomeSays;
    var (records, _) := Logs.ReadAll(file, Logs.Cursor(0, 0, false), true, []);
    ReplayIff(Start(), records, open, name, OfLog);
    ReplayIff(Start(), records, open, name, OfFiles);
    ReplayIff(Start(), records, open, name, OfSequence);
  }

  // -------------------------------------------------------------- replaying what was installed

  ghost predicate Journal(es: seq<Edit<File>>, enc: File -> Meta, open: Meta -> File, name: Bytes) {
    && (forall e | e in es :: Writable(e, enc, open, name))
    && (forall l: nat | l < NUM_LEVELS :: AddedOnce({}, l, es))
  }

  lemma UnderstandRecord(e: Edit<File>, enc: File -> Meta, open: Meta -> File, name: Bytes)
    requires Writable(e, enc, open, name)
    ensures Understand(Record(e, enc), open, name) == Some(e)
  {
    hide Decode, Encode, Fields, EditOk;
    EditRoundTrip(Stored(e, enc));
    OpenedStored(e, enc, open, name);
  }

  lemma {:induction false} ReplayRecords(s: Replayed, es: seq<Edit<File>>, enc: File -> Meta, open: Meta -> File, name: Bytes)
    requires |s.levels| == NUM_LEVELS && forall e | e in es :: Writable(e, enc, open, name)
    ensures Replay(s, Records(es, enc), open, name) == Some(TakeAll(s, es))
    decreases |es|
  {
    hide Understand, Take, Record;
    if es != [] {
      assert es[0] in es;
      UnderstandRecord(es[0], enc, open, name);
      assert Records(es, enc)[1..] == Records(es[1..], enc);
      TakeLength(s, es[0]);
      ReplayRecords(Take(s, es[0]), es[1..], enc, open, name);
    }
  }

  lemma TakeLength(s: Replayed, e: Edit<File>)
    requires |s.levels| == NUM_LEVELS
    ensures |Take(s, e).levels| == NUM_LEVELS
  {
  }

  lemma {:induction false} TakeAllLevels(s: Replayed, es: seq<Edit<File>>, l: nat)
    requires |s.levels| == NUM_LEVELS && l < NUM_LEVELS
    ensures TakeAll(s, es).levels[l] == FoldAt(s.levels[l], l, es)
    decreases |es|
  {
    if es != [] {
      TakeAllLevels(Take(s, es[0]), es[1..], l);
    }
  }

  lemma {:induction false} TakeAllPointers(s: Replayed, es: seq<Edit<File>>)
    requires |s.levels| == NUM_LEVELS
    ensures TakeAll(s, es).pointers == PointersAfter(s.pointers, es)
    decreases |es|
  {
    if es != [] { TakeAllPointers(Take(s, es[0]), es[1..]); }
  }

  lemma NothingSaved()
    ensures Save([], UNTOUCHED) == [] && Clear([], UNTOUCHED) && Numbers([]) == {}
  {
  }

  /** The version replay rebuilds is the one installing the edits one at a time led to. */
  lemma ReplayedVersion(es: seq<Edit<File>>, l: nat)
    requires l < NUM_LEVELS && AddedOnce({}, l, es)
    ensures Save([], TakeAll(Start(), es).levels[l]) == InstallAll(EmptyVersion(), es)[l]
  {
    TakeAllLevels(Start(), es, l);
    NothingSaved();
    FoldIsInstall([], UNTOUCHED, l, es, {});
    InstallAllAt(EmptyVersion(), es, l);
  }

  // -------------------------------------------------------------- after a crash

  lemma {:induction false} TakeLast(s: Replayed, es: seq<Edit<File>>, e: Edit<File>)
    requires |s.levels| == NUM_LEVELS
    ensures TakeAll(s, es + [e]) == Take(TakeAll(s, es), e)
    decreases |es|
  {
    hide Take;
    TakeLength(TakeAll(s, es), e);
    if es == [] {
      assert (es + [e])[1..] == [];
    } else {
      assert (es + [e])[1..] == es[1..] + [e];
      TakeLength(s, es[0]);
      TakeLast(Take(s, es[0]), es[1..], e);
    }
  }

  lemma {:induction false} InstallLast(v: seq<seq<File>>, es: seq<Edit<File>>, e: Edit<File>)
    requires |v| == NUM_LEVELS
    ensures InstallAll(v, es + [e]) == Install(InstallAll(v, es), e)
    decreases |es|
  {
    hide Install;
    InstallLength(InstallAll(v, es), e);
    if es == [] {
      assert (es + [e])[1..] == [];
    } else {
      assert (es + [e])[1..] == es[1..] + [e];
      InstallLength(v, es[0]);
      InstallLast(Install(v, es[0]), es[1..], e);
    }
  }

  lemma InstallLength(v: seq<seq<File>>, e: Edit<File>)
    requires |v| == NUM_LEVELS
    ensures |Install(v, e)| == NUM_LEVELS
  {
  }

  lemma {:induction false} AddedOncePrefix(known: set<nat>, l: nat, es: seq<Edit<File>>, m: nat)
    requires m <= |es| && AddedOnce(known, l, es)
    ensures AddedOnce(known, l, es[..m])
    decreases |es|
  {
    if m > 0 {
      AddedOncePrefix(known + Numbers(AddedAt(es[0].added, l)), l, es[1..], m - 1);
      assert es[..m][1..] == es[1..][..m - 1];
    }
  }

  /** What LogAndApply fills in: the counters, with every file number so far below the next one. */
  ghost predicate Counted(v: seq<seq<File>>, e: Edit<File>) {
    && e.logNumber.Some? && e.prevLogNumber.Some? && e.nextFileNumber.Some? && e.lastSequence.Some?
    && forall l, f | Placed(v, l, f) :: f.number < e.nextFileNumber.value
  }

  /** Past the snapshot every edit carries its counters. */
  ghost predicate CountersKept(es: seq<Edit<File>>) {
    forall i | 1 <= i < |es| :: Counted(InstallAll(EmptyVersion(), es[..i + 1]), es[i])
  }

  lemma ReplayedCounters(es: seq<Edit<File>>, e: Edit<File>)
    requires e.logNumber.Some? && e.prevLogNumber.Some? && e.nextFileNumber.Some? && e.lastSequence.Some?
    ensures
      var s := TakeAll(Start(), es + [e]);
      && s.nextFile == e.nextFileNumber && s.logNumber == e.logNumber
      && s.lastSequence == e.lastSequence && s.prevLogNumber == e.prevLogNumber
  {
    TakeLast(Start(), es, e);
  }

  /** Recovery found version `v`, pointers `p` and the counters of `e`, with the next file number beyond every file. */
  ghost predicate Rebuilt(r: Option<Recovered>, v: seq<seq<File>>, p: map<nat, Bytes>, e: Edit<File>) {
    && e.logNumber.Some? && e.prevLogNumber.Some? && e.nextFileNumber.Some? && e.lastSequence.Some?
    && r == Some(Recovered(v, e.nextFileNumber.value + 1, e.lastSequence.value, e.logNumber.value, e.prevLogNumber.value, p))
    && forall l, f | Placed(v, l, f) :: f.number < r.value.nextFileNumber
  }

  lemma RecoverPrefix(es: seq<Edit<File>>, m: nat, enc: File -> Meta, open: Meta -> File, name: Bytes)
    requires Journal(es, enc, open, name) && CountersKept(es) && 2 <= m <= |es|
    ensures
      var s := TakeAll(Start(), es[..m]);
      && Replay(Start(), Records(es, enc)[..m], open, name) == Some(s)
      && Rebuilt(Finish(s), InstallAll(EmptyVersion(), es[..m]), PointersAfter(map[], es[..m]), es[m - 1])
  {
    hide Save, TakeAll, InstallAll, Writable, Replay, Record, AddedOnce, Take, PointersAfter;
    var some, e := es[..m], es[m - 1];
    forall x | x in some ensures Writable(x, enc, open, name) {
      assert x in es;
    }
    assert Records(es, enc)[..m] == Records(some, enc);
    ReplayRecords(Start(), some, enc, open, name);
    assert some == es[..m - 1] + [e] && es[..(m - 1) + 1] == some;
    assert Counted(InstallAll(EmptyVersion(), es[..(m - 1) + 1]), es[m - 1]);
    ReplayedCounters(es[..m - 1], e);
    TakeAllPointers(Start(), some);
    var v, w := Finish(TakeAll(Start(), some)).value.version, InstallAll(EmptyVersion(), some);
    forall l: nat | l < NUM_LEVELS ensures v[l] == w[l] {
      AddedOncePrefix({}, l, es, m);
      ReplayedVersion(some, l);
    }
    assert v == w;
  }

  lemma RecoverReads(file: Bytes, records: seq<Bytes>, open: Meta -> File, name: Bytes, s: Replayed)
    requires |s.levels| == NUM_LEVELS && Logs.ReadAll(file, Logs.Cursor(0, 0, false), true, []) == (records, [])
    requires Replay(Start(), records, open, name) == Some(s)
    ensures Recover(file, open, name) == Finish(s)
  {
    hide Logs.ReadAll, Replay, Finish;
  }

  ghost predicate HasCounters(e: Edit<File>) {
    e.nextFileNumber.Some? && e.logNumber.Some? && e.lastSequence.Some?
  }

  /** With no record, or one that lacks a counter, there is nothing to recover. */
  lemma RecoverFew(es: seq<Edit<File>>, m: nat, enc: File -> Meta, open: Meta -> File, name: Bytes)
    requires Journal(es, enc, open, name) && m <= |es| && m <= 1
    ensures
      var s := TakeAll(Start(), es[..m]);
      && Replay(Start(), Records(es, enc)[..m], open, name) == Some(s)
      && (Finish(s).Some? <==> m == 1 && HasCounters(es[0]))
  {
    hide Save, Writable, Replay, Record, AddedOnce;
    var some := es[..m];
    forall x | x in some ensures Writable(x, enc, open, name) {
      assert x in es;
    }
    assert Records(es, enc)[..m] == Records(some, enc);
    ReplayRecords(Start(), some, enc, open, name);
    if m == 1 { assert some == [es[0]] && some[1..] == []; }
  }

  /**
   Whatever prefix of the manifest survives: from two wholly written edits on, recovery
   rebuilds the version the last of them installed and the compaction pointers they set,
   with a next file number beyond every number in it; with fewer it succeeds only if the single edit carries the counters.
   */
  lemma CrashedManifest(es: seq<Edit<File>>, k: nat, enc: File -> Meta, open: Meta -> File, name: Bytes)
    requires Journal(es, enc, open, name) && CountersKept(es)
    requires k <= |Logs.Log(0, Records(es, enc))|
    ensures
      var m, r := Logs.Whole(0, Records(es, enc), k), Recover(Logs.Log(0, Records(es, enc))[..k], open, name);
      if m >= 2 then Rebuilt(r, InstallAll(EmptyVersion(), es[..m]), PointersAfter(map[], es[..m]), es[m - 1])
      else r.Some? <==> m == 1 && HasCounters(es[0])
  {
    hide Replay, Logs.ReadAll, Finish, Logs.Log, TakeAll, InstallAll, Logs.Whole, Journal, CountersKept, Recover, Rebuilt, Records, PointersAfter;
    var records := Records(es, enc);
    Logs.CrashPrefix(records, k, true);
    var m := Logs.Whole(0, records, k);
    if m >= 2 {
      RecoverPrefix(es, m, enc, open, name);
    } else {
      RecoverFew(es, m, enc, open, name);
    }
    RecoverReads(Logs.Log(0, records)[..k], records[..m], open, name, TakeAll(Start(), es[..m]));
  }

  /** VersionSet::Recover, past the lookup of the manifest's name. */
  method RecoverFrom(file: Bytes, open: Meta -> File, name: Bytes) returns (r: Option<Recovered>)
    ensures r == Recover(file, open, name)
  {
    hide Save, Understand, Logs.ReadAll, ApplyAt, SetPointers;
    var records, dropped := Logs.ReadWhole(file, true);
    var builder := new Builder(EmptyVersion());
    ghost var s := Start();
    var logNumber, prevLogNumber, nextFile, lastSequence: Option<nat> := None, None, None, None;
    var pointers: map<nat, Bytes> := map[];
    assert records[0..] == records;
    for i := 0 to |records|
      invariant builder.Valid() && builder.base == EmptyVersion()
      invariant s == Replayed(builder.levels, logNumber, prevLogNumber, nextFile, lastSequence, pointers)
      invariant Replay(s, records[i..], open, name) == Replay(Start(), records, open, name)
    {
      var edit := Understand(records[i], open, name);
      assert records[i..][0] == records[i] && records[i..][1..] == records[i + 1..];
      if edit.None? {
        return None;
      }
      var e := edit.value;
      builder.Apply(e);
      pointers := ApplyPointers(pointers, e.compactPointers);
      logNumber := if e.logNumber.Some? then e.logNumber else logNumber;
      prevLogNumber := if e.prevLogNumber.Some? then e.prevLogNumber else prevLogNumber;
      nextFile := if e.nextFileNumber.Some? then e.nextFileNumber else nextFile;
      lastSequence := if e.lastSequence.Some? then e.lastSequence else lastSequence;
      assert builder.levels == Take(s, e).levels;
      s := Take(s, e);
    }
    if dropped != [] || nextFile.None? || logNumber.None? || lastSequence.None? {
      return None;
    }
    var version := builder.SaveTo();
    r := Some(Recovered(version, nextFile.value + 1, lastSequence.value, logNumber.value,
                        if prevLogNumber.Some? then prevLogNumber.value else 0, pointers));
    assert version == Finish(s).value.version;
  }
}
