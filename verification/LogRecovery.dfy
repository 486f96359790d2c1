/**
 From the bytes of the logs to reads: recovery reads whatever part of a log survived a
 crash, inserts its batches into memtables and writes those as tables. Over the version of
 the manifest they are read as a whole number of groups.
 */
module LogRecovery {
  import opened Entries
  import opened Coding
  import opened Versions
  import opened VersionOrder
  import opened GroupCommit
  import opened Engine
  import opened EngineRuns
  import opened EngineGroups
  import opened EngineCrash
  import W = WriteBatches
  import Logs

  // -------------------------------------------------------------- one log, over any bytes

  predicate RecordOk(rep: Bytes) {
    |rep| >= W.HEADER && W.Iterated(rep).1
  }

  /** What one record inserts: all operations in front of an error. */
  function RecordOps(rep: Bytes): seq<(nat, W.Op)> {
    if |rep| < W.HEADER then [] else W.Numbered(DecodeFixed64(rep[..8]), W.Iterated(rep).0)
  }

  function AllOps(records: seq<Bytes>): seq<(nat, W.Op)> {
    if records == [] then [] else AllOps(records[..|records| - 1]) + RecordOps(records[|records| - 1])
  }

  /** What the reader makes of a log file. */
  function Read(file: Bytes): (seq<Bytes>, seq<nat>) {
    Logs.ReadAll(file, Logs.Cursor(0, 0, false), true, [])
  }

  method InsertRecord(mem: seq<(nat, W.Op)>, rep: Bytes) returns (more: seq<(nat, W.Op)>, good: bool)
    ensures more == mem + RecordOps(rep) && (good <==> RecordOk(rep))
  {
    hide W.Iterated, DecodeFixed64;
    if |rep| < W.HEADER { return mem, false; }
    var inserted, ok := W.Iterate(rep, DecodeFixed64(rep[..8]));
    more, good := mem + inserted, ok;
  }

  /** A memtable that is written out before the next record is read. */
  ghost predicate Fills(full: seq<(nat, W.Op)> -> bool, mem: seq<(nat, W.Op)>) {
    mem != [] && full(mem)
  }

  /** The table holds what records a up to b insert; no fewer of them filled a memtable. */
  ghost predicate TableOf(records: seq<Bytes>, a: nat, b: nat, full: seq<(nat, W.Op)> -> bool, table: seq<(nat, W.Op)>) {
    && a < b <= |records| && table == AllOps(records[a..b])
    && forall m | a < m < b :: !Fills(full, AllOps(records[a..m]))
  }

  /** The records up to `end` are cut into tables, each of them full. */
  ghost predicate CutWhenFull(records: seq<Bytes>, cuts: seq<nat>, full: seq<(nat, W.Op)> -> bool, tables: seq<seq<(nat, W.Op)>>) {
    && |cuts| == |tables| + 1 && cuts[0] == 0 && cuts[|tables|] <= |records|
    && forall i | 0 <= i < |tables| :: TableOf(records, cuts[i], cuts[i + 1], full, tables[i]) && Fills(full, tables[i])
  }

  /** The last number a record uses, in 64 bits. */
  function LastOf(rep: Bytes): nat {
    if |rep| < W.HEADER then 0 else (DecodeFixed64(rep[..8]) + DecodeFixed32(rep[8..12]) - 1) % TWO_64
  }

  ghost predicate IsMax(records: seq<Bytes>, m: nat) {
    && (forall r | r in records :: LastOf(r) <= m)
    && (m == 0 || exists r :: r in records && LastOf(r) == m)
  }

  /**
   RecoverLogFile: each memtable, as the list of what was inserted into it, becomes a table
   when it is `full` after a record, and at the end. Damage is an error only with paranoid checks.
   */
  method RecoverLogFile(file: Bytes, paranoid: bool, full: seq<(nat, W.Op)> -> bool)
    returns (tables: seq<seq<(nat, W.Op)>>, maxSequence: nat, ok: bool, ghost cuts: seq<nat>)
    ensures ok <==> !paranoid || (Read(file).1 == [] && forall r | r in Read(file).0 :: RecordOk(r))
    ensures ok ==> Join(tables) == AllOps(Read(file).0) && (forall t | t in tables :: t != []) && IsMax(Read(file).0, maxSequence)
    ensures ok ==>
      var n, records := |tables|, Read(file).0;
      CutWhenFull(records, cuts, full, tables)
      || (n > 0 && |cuts| == n && CutWhenFull(records, cuts, full, tables[..n - 1])
          && TableOf(records, cuts[n - 1], |records|, full, tables[n - 1]))
  {
    hide Logs.ReadAll, RecordOps, RecordOk, AllOps, Join, CutWhenFull, TableOf, LastOf, Fills;
    var records, dropped := Logs.ReadWhole(file, true);
    tables, maxSequence, ok, cuts := [], 0, true, [0];
    if paranoid && dropped != [] { return tables, maxSequence, false, cuts; }
    var mem: seq<(nat, W.Op)> := [];
    NoOps();
    NoCuts(records, full);
    for i := 0 to |records|
      invariant Join(tables) + mem == AllOps(records[..i])
      invariant forall t | t in tables :: t != []
      invariant paranoid ==> forall r | r in records[..i] :: RecordOk(r)
      invariant IsMax(records[..i], maxSequence)
      invariant CutWhenFull(records, cuts, full, tables) && Open(records, cuts, i, full, mem)
    {
      assert records[i] in records && records[..i + 1] == records[..i] + [records[i]];
      AllOpsLast(records[..i], records[i]);
      assert Join(tables) + (mem + RecordOps(records[i])) == (Join(tables) + mem) + RecordOps(records[i]);
      OpenMore(records, cuts, i, full, mem);
      var good;
      mem, good := InsertRecord(mem, records[i]);
      if !good && paranoid { return tables, maxSequence, false, cuts; }
      if LastOf(records[i]) > maxSequence { maxSequence := LastOf(records[i]); }
      if mem != [] && full(mem) {
        JoinLast(tables, mem);
        Filled(records, cuts, i + 1, full, tables, mem);
        tables, mem, cuts := tables + [mem], [], cuts + [i + 1];
      } else {
        NotFilled(records, cuts, i + 1, full, mem);
      }
    }
    assert records[..|records|] == records;
    if mem != [] {
      JoinLast(tables, mem);
      Remaining(records, cuts, full, tables, mem);
      tables := tables + [mem];
    }
  }

  /** The memtable holds what the records since the last cut insert, and was not full after any of them. */
  ghost predicate Open(records: seq<Bytes>, cuts: seq<nat>, i: nat, full: seq<(nat, W.Op)> -> bool, mem: seq<(nat, W.Op)>) {
    cuts != [] &&
    var a := cuts[|cuts| - 1];
    && a <= i <= |records| && mem == AllOps(records[a..i])
    && forall m | a < m <= i :: !Fills(full, AllOps(records[a..m]))
  }

  lemma NoCuts(records: seq<Bytes>, full: seq<(nat, W.Op)> -> bool)
    ensures CutWhenFull(records, [0], full, []) && Open(records, [0], 0, full, [])
  {
  }

  /** With the next record inserted, the memtable may be full, but was not before. */
  lemma OpenMore(records: seq<Bytes>, cuts: seq<nat>, i: nat, full: seq<(nat, W.Op)> -> bool, mem: seq<(nat, W.Op)>)
    requires i < |records| && Open(records, cuts, i, full, mem)
    ensures cuts[|cuts| - 1] <= i && TableOf(records, cuts[|cuts| - 1], i + 1, full, mem + RecordOps(records[i]))
  {
    hide AllOps, Fills, RecordOps;
    var a := cuts[|cuts| - 1];
    assert records[a..i + 1] == records[a..i] + [records[i]];
    AllOpsLast(records[a..i], records[i]);
  }

  lemma Filled(records: seq<Bytes>, cuts: seq<nat>, i: nat, full: seq<(nat, W.Op)> -> bool, tables: seq<seq<(nat, W.Op)>>, mem: seq<(nat, W.Op)>)
    requires CutWhenFull(records, cuts, full, tables) && TableOf(records, cuts[|cuts| - 1], i, full, mem) && mem != [] && full(mem)
    ensures CutWhenFull(records, cuts + [i], full, tables + [mem]) && Open(records, cuts + [i], i, full, [])
  {
    hide TableOf;
    NoOps();
    assert Fills(full, mem);
    Within(records, cuts[|cuts| - 1], i, full, mem);
    assert records[i..i] == [];
  }

  lemma Within(records: seq<Bytes>, a: nat, b: nat, full: seq<(nat, W.Op)> -> bool, table: seq<(nat, W.Op)>)
    requires TableOf(records, a, b, full, table)
    ensures a < b <= |records|
  {
  }

  lemma NotFilled(records: seq<Bytes>, cuts: seq<nat>, i: nat, full: seq<(nat, W.Op)> -> bool, mem: seq<(nat, W.Op)>)
    requires cuts != [] && TableOf(records, cuts[|cuts| - 1], i, full, mem) && !(mem != [] && full(mem))
    ensures Open(records, cuts, i, full, mem)
  {
    hide AllOps, Fills;
    assert !Fills(full, mem) by { NeverFills(full, mem); }
  }

  lemma NeverFills(full: seq<(nat, W.Op)> -> bool, mem: seq<(nat, W.Op)>)
    ensures Fills(full, mem) <==> mem != [] && full(mem)
  {
  }

  lemma Remaining(records: seq<Bytes>, cuts: seq<nat>, full: seq<(nat, W.Op)> -> bool, tables: seq<seq<(nat, W.Op)>>, mem: seq<(nat, W.Op)>)
    requires CutWhenFull(records, cuts, full, tables) && Open(records, cuts, |records|, full, mem) && mem != []
    ensures
      var n, more := |tables| + 1, tables + [mem];
      |cuts| == n && CutWhenFull(records, cuts, full, more[..n - 1]) && TableOf(records, cuts[n - 1], |records|, full, more[n - 1])
  {
    hide CutWhenFull;
    assert (tables + [mem])[..|tables|] == tables;
    CutLength(records, cuts, full, tables);
    NoOps();
    assert records[|records|..] == [];
  }

  lemma CutLength(records: seq<Bytes>, cuts: seq<nat>, full: seq<(nat, W.Op)> -> bool, tables: seq<seq<(nat, W.Op)>>)
    requires CutWhenFull(records, cuts, full, tables)
    ensures |cuts| == |tables| + 1 && cuts[|tables|] <= |records|
  {
  }

  lemma NoOps()
    ensures AllOps([]) == [] && Join<(nat, W.Op)>([]) == []
  {
  }

  lemma JoinLast<T>(a: seq<seq<T>>, b: seq<T>)
    ensures Join(a + [b]) == Join(a) + b
  {
    assert (a + [b])[..|a|] == a;
  }

  // ------------------------------------------------------------ what the writers logged

  function UpdateOf(op: W.Op): Update {
    match op
    case PutOp(k, v) => Update(Rank(k), Value, v)
    case DeleteOp(k) => Update(Rank(k), Deletion, [])
  }

  function Updates(ops: seq<W.Op>): (r: seq<Update>)
    ensures |r| == |ops| && forall i | 0 <= i < |ops| :: r[i] == UpdateOf(ops[i])
  {
    seq(|ops|, i requires 0 <= i < |ops| => UpdateOf(ops[i]))
  }

  /** The log records of groups, the first of which is numbered from `start` + 1. */
  function RecordsFrom(start: nat, gs: seq<seq<W.Op>>): (r: seq<Bytes>)
    ensures |r| == |gs|
  {
    if gs == [] then [] else
    var init, g := gs[..|gs| - 1], gs[|gs| - 1];
    RecordsFrom(start, init) + [W.Rep(start + |Join(init)| + 1, |g|, g)]
  }

  /** Keys, values and counts fit their fields, and so do the numbers. */
  ghost predicate Loggable(start: nat, gs: seq<seq<W.Op>>) {
    && start + |Join(gs)| < K_MAX_SEQUENCE
    && forall g | g in gs :: |g| < TWO_32 && forall op | op in g :: W.OpOk(op)
  }

  lemma LoggableInit(start: nat, gs: seq<seq<W.Op>>)
    requires Loggable(start, gs) && gs != []
    ensures var init, g := gs[..|gs| - 1], gs[|gs| - 1];
            && Loggable(start, init) && start + |Join(init)| + |g| < K_MAX_SEQUENCE && |g| < TWO_32 && (forall op | op in g :: W.OpOk(op))
            && RecordsFrom(start, gs) == RecordsFrom(start, init) + [W.Rep(start + |Join(init)| + 1, |g|, g)]
            && Join(gs) == Join(init) + g
  {
    hide W.Rep, W.OpOk;
    assert gs[|gs| - 1] in gs && forall x | x in gs[..|gs| - 1] :: x in gs;
  }

  lemma {:induction false} LoggablePrefix(start: nat, gs: seq<seq<W.Op>>, m: nat)
    requires m <= |gs| && Loggable(start, gs)
    ensures Loggable(start, gs[..m]) && RecordsFrom(start, gs)[..m] == RecordsFrom(start, gs[..m])
    decreases |gs|
  {
    hide Loggable, RecordsFrom, W.Rep, Join;
    if m == |gs| {
      assert gs[..m] == gs && RecordsFrom(start, gs)[..m] == RecordsFrom(start, gs);
    } else {
      var init := gs[..|gs| - 1];
      assert init[..m] == gs[..m];
      LoggableInit(start, gs);
      LoggablePrefix(start, init, m);
      assert RecordsFrom(start, gs)[..m] == RecordsFrom(start, init)[..m];
    }
  }

  /** Reading the records back gives every operation its number. */
  lemma {:induction false} LoggedOps(start: nat, gs: seq<seq<W.Op>>)
    requires Loggable(start, gs)
    ensures AllOps(RecordsFrom(start, gs)) == W.Numbered(start + 1, Join(gs))
    ensures forall r | r in RecordsFrom(start, gs) :: RecordOk(r)
  {
    hide W.Rep, W.OpOk, RecordOps, RecordOk, AllOps, Loggable;
    NoOps();
    if gs != [] {
      hide RecordsFrom, Join;
      var init, g := gs[..|gs| - 1], gs[|gs| - 1];
      LoggableInit(start, gs);
      LoggedOps(start, init);
      var n := start + |Join(init)| + 1;
      RecordRound(n, g);
      AllOpsLast(RecordsFrom(start, init), W.Rep(n, |g|, g));
      NumberedBoth(start + 1, Join(init), g);
    }
  }

  lemma RecordRound(n: nat, g: seq<W.Op>)
    requires n < TWO_64 && |g| < TWO_32 && forall op | op in g :: W.OpOk(op)
    ensures RecordOps(W.Rep(n, |g|, g)) == W.Numbered(n, g) && RecordOk(W.Rep(n, |g|, g))
  {
    hide W.Rep, W.Iterated, DecodeFixed64, W.OpOk;
    W.BatchRoundTrip(n, g);
  }

  lemma AllOpsLast(records: seq<Bytes>, rep: Bytes)
    ensures AllOps(records + [rep]) == AllOps(records) + RecordOps(rep)
  {
    hide RecordOps;
    assert (records + [rep])[..|records|] == records;
  }

  /** A log that survived whole, and any part of the one behind it: what recovery reads of them. */
  lemma LogsSurvive(start: nat, gs: seq<seq<W.Op>>, k: nat) returns (m: nat)
    requires Loggable(start, gs) && k <= |Logs.Log(0, RecordsFrom(start, gs))|
    ensures m <= |gs| && Read(Logs.Log(0, RecordsFrom(start, gs))[..k]) == (RecordsFrom(start, gs[..m]), [])
    ensures m == Logs.Whole(0, RecordsFrom(start, gs), k)
    ensures AllOps(RecordsFrom(start, gs[..m])) == W.Numbered(start + 1, Join(gs[..m]))
    ensures forall r | r in RecordsFrom(start, gs[..m]) :: RecordOk(r)
    ensures k == |Logs.Log(0, RecordsFrom(start, gs))| ==> m == |gs|
  {
    hide Logs.ReadAll, Logs.Log, Logs.Whole, RecordOk, W.Rep, RecordsFrom;
    var recs := RecordsFrom(start, gs);
    Logs.CrashPrefix(recs, k, true);
    m := Logs.Whole(0, recs, k);
    LoggablePrefix(start, gs, m);
    LoggedOps(start, gs[..m]);
    if k == |Logs.Log(0, recs)| { Logs.WholeAll(0, recs); }
  }

  /** The last number recovery finds in a log is the last one of the groups it recovers. */
  lemma {:induction false} LoggedLast(start: nat, gs: seq<seq<W.Op>>)
    requires Loggable(start, gs)
    ensures forall r | r in RecordsFrom(start, gs) :: LastOf(r) <= start + |Join(gs)|
    ensures gs != [] ==> LastOf(RecordsFrom(start, gs)[|gs| - 1]) == start + |Join(gs)|
  {
    hide W.Rep, W.OpOk, LastOf;
    if gs != [] {
      hide RecordsFrom, Join, Loggable;
      var init, g := gs[..|gs| - 1], gs[|gs| - 1];
      LoggableInit(start, gs);
      LoggedLast(start, init);
      LastOfRep(start + |Join(init)| + 1, g);
    }
  }

  lemma LastOfRep(n: nat, g: seq<W.Op>)
    requires 0 < n && n + |g| <= K_MAX_SEQUENCE && |g| < TWO_32
    ensures LastOf(W.Rep(n, |g|, g)) == n + |g| - 1
  {
    hide Fixed, DecodeFixed32, DecodeFixed64, W.OpsBytes;
    var rep := W.Rep(n, |g|, g);
    assert rep[..8] == Fixed(n, 8) && rep[8..12] == Fixed(|g|, 4);
    Fixed64Round(n);
    Fixed32Round(|g|);
  }

  // ---------------------------------------------------------------------- entries

  /** The tag of an entry has room for 56 bits of its number. */
  function EntryOf(p: (nat, W.Op)): Entry {
    var u := UpdateOf(p.1);
    Entry(u.key, p.0 % (K_MAX_SEQUENCE + 1), u.kind, u.value)
  }

  function EntriesOf(ps: seq<(nat, W.Op)>): (r: seq<Entry>)
    ensures |r| == |ps| && forall i | 0 <= i < |ps| :: r[i] == EntryOf(ps[i])
  {
    seq(|ps|, i requires 0 <= i < |ps| => EntryOf(ps[i]))
  }

  function Chunks(tables: seq<seq<(nat, W.Op)>>): (r: seq<seq<Entry>>)
    ensures |r| == |tables| && forall i | 0 <= i < |tables| :: r[i] == EntriesOf(tables[i])
  {
    seq(|tables|, i requires 0 <= i < |tables| => EntriesOf(tables[i]))
  }

  lemma {:induction false} JoinChunks(tables: seq<seq<(nat, W.Op)>>)
    ensures Join(Chunks(tables)) == EntriesOf(Join(tables))
  {
    if tables != [] {
      var init := tables[..|tables| - 1];
      JoinChunks(init);
      var cs := Chunks(tables);
      assert cs[..|cs| - 1] == Chunks(init);
    }
  }

  lemma {:induction false} JoinBoth<T>(a: seq<seq<T>>, b: seq<seq<T>>)
    ensures Join(a + b) == Join(a) + Join(b)
    decreases |b|
  {
    if b == [] {
      assert a + b == a;
    } else {
      var init, last := b[..|b| - 1], b[|b| - 1];
      assert (a + b)[..|a + b| - 1] == a + init && (a + b)[|a + b| - 1] == last;
      JoinBoth(a, init);
      assert Join(a + b) == Join(a + init) + last;
      assert (Join(a) + Join(init)) + last == Join(a) + (Join(init) + last);
    }
  }

  lemma NumberedEntries(start: nat, ops: seq<W.Op>)
    requires start + |ops| < K_MAX_SEQUENCE
    ensures EntriesOf(W.Numbered(start + 1, ops)) == Numbered(start, Updates(ops))
  {
  }

  /** Groups from `g0` on are the byte-level groups `gs`. */
  ghost predicate LoggedAs(groups: seq<seq<Update>>, g0: nat, gs: seq<seq<W.Op>>) {
    g0 + |gs| <= |groups| && forall j | 0 <= j < |gs| :: groups[g0 + j] == Updates(gs[j])
  }

  lemma UpdatesBoth(a: seq<W.Op>, b: seq<W.Op>)
    ensures Updates(a + b) == Updates(a) + Updates(b)
  {
  }

  lemma LoggedInit(groups: seq<seq<Update>>, g0: nat, gs: seq<seq<W.Op>>)
    requires LoggedAs(groups, g0, gs) && gs != []
    ensures LoggedAs(groups, g0, gs[..|gs| - 1])
    ensures Concat(groups[..g0 + |gs|]) == Concat(groups[..g0 + |gs| - 1]) + Updates(gs[|gs| - 1])
  {
    hide Updates;
    var n := g0 + |gs|;
    assert groups[..n][..n - 1] == groups[..n - 1] && groups[..n][n - 1] == groups[g0 + (|gs| - 1)];
  }

  lemma NothingLogged()
    ensures Updates(Join<W.Op>([])) == []
  {
  }

  lemma Reassociated<T>(a: seq<T>, b: seq<T>, c: seq<T>)
    ensures (a + b) + c == a + (b + c)
  {
  }

  lemma {:induction false} ConcatLogged(groups: seq<seq<Update>>, g0: nat, gs: seq<seq<W.Op>>)
    requires LoggedAs(groups, g0, gs)
    ensures Concat(groups[..g0 + |gs|]) == Concat(groups[..g0]) + Updates(Join(gs))
    decreases |gs|
  {
    hide Concat, Join, Updates;
    if gs == [] {
      NothingLogged();
    } else {
      hide LoggedAs;
      var init, g := gs[..|gs| - 1], gs[|gs| - 1];
      assert gs == init + [g];
      LoggedInit(groups, g0, gs);
      ConcatLogged(groups, g0, init);
      JoinLast(init, g);
      UpdatesBoth(Join(init), g);
      Reassociated(Concat(groups[..g0]), Updates(Join(init)), Updates(g));
    }
  }

  lemma LoggedWrites(groups: seq<seq<Update>>, g0: nat, gs: seq<seq<W.Op>>)
    requires LoggedAs(groups, g0, gs) && |Concat(groups[..g0])| + |Join(gs)| < K_MAX_SEQUENCE
    ensures |Concat(groups[..g0 + |gs|])| == |Concat(groups[..g0])| + |Join(gs)|
    ensures GroupWrites(groups, g0 + |gs|)[|Concat(groups[..g0])|..] == EntriesOf(W.Numbered(|Concat(groups[..g0])| + 1, Join(gs)))
  {
    hide Concat;
    ConcatLogged(groups, g0, gs);
    NumberedEntries(|Concat(groups[..g0])|, Join(gs));
  }

  // ------------------------------------------------------------------ after a crash

  /**
   The process dies. Of the two logs still needed, that of the immutable memtable (empty if
   there is none) is whole, and any number of bytes of the other is there. Recovery makes
   tables of them, and reads then answer as the groups whose records survived, all of them
   and nothing else.
   */
  lemma CrashRecovers(s: State, g0: nat, older: seq<seq<W.Op>>, newer: seq<seq<W.Op>>, k: nat,
                      first: seq<seq<(nat, W.Op)>>, second: seq<seq<(nat, W.Op)>>, numbers: seq<nat>, vs: seq<seq<seq<File>>>)
    returns (m: nat)
    requires CrashInv(s) && EndsAt(s.groups, g0, Base(s)) && EndsAt(s.groups, g0 + |older|, Mid(s))
    requires |s.groups| == g0 + |older + newer| && LoggedAs(s.groups, g0, older + newer) && Loggable(Base(s), older + newer)
    requires k <= |Logs.Log(0, RecordsFrom(Mid(s), newer))|
    requires Join(first) == AllOps(Read(Logs.Log(0, RecordsFrom(Base(s), older))).0)
    requires Join(second) == AllOps(Read(Logs.Log(0, RecordsFrom(Mid(s), newer))[..k]).0)
    requires Loads(vs, Chunks(first + second), numbers, s.sizes) && vs[0] == s.levels && FreshNumbers(s.levels, numbers)
    ensures m == Logs.Whole(0, RecordsFrom(Mid(s), newer), k) && g0 + |older| + m <= |s.groups|
    ensures |Concat(s.groups[..g0 + |older| + m])| < K_MAX_SEQUENCE
    ensures forall key, q: nat | q >= |Concat(s.groups[..g0 + |older| + m])| ::
              AnswerOf(SearchFrom(vs[|first + second|], 0, key, q)) == MapGet(Replay(GroupWrites(s.groups, g0 + |older| + m)), key)
  {
    hide Logs.Log, Logs.Whole, RecordsFrom, AllOps, Read, Concat, LoadsOne, SearchFrom, Replay, CrashInv, GroupWrites, Loggable, LoggedAs, Join;
    var base: nat, mid: nat := |Concat(s.groups[..g0])|, |Concat(s.groups[..g0 + |older|])|;
    assert base == Base(s) && mid == Mid(s);
    LoggedParts(s.groups, g0, older, newer, 0);
    LogsLoggable(s.groups, g0, older, newer, base, mid);
    m := TablesHold(base, mid, older, newer, k, first, second);
    var gs := older + newer[..m];
    LoggedParts(s.groups, g0, older, newer, m);
    JoinChunks(first + second);
    LoggableParts(base, older, newer, m);
    LoggedWrites(s.groups, g0, gs);
    forall key, q: nat | q >= |Concat(s.groups[..g0 + |older| + m])|
      ensures AnswerOf(SearchFrom(vs[|first + second|], 0, key, q)) == MapGet(Replay(GroupWrites(s.groups, g0 + |older| + m)), key)
    {
      CrashReads(s, g0 + |gs|, Chunks(first + second), numbers, vs, key, q);
    }
  }

  lemma LoggedParts(groups: seq<seq<Update>>, g0: nat, a: seq<seq<W.Op>>, b: seq<seq<W.Op>>, m: nat)
    requires LoggedAs(groups, g0, a + b) && m <= |b|
    ensures LoggedAs(groups, g0, a + b[..m]) && LoggedAs(groups, g0, a)
  {
    forall j | 0 <= j < |a| + m ensures groups[g0 + j] == Updates((a + b[..m])[j]) {
      assert (a + b[..m])[j] == (a + b)[j];
    }
    forall j | 0 <= j < |a| ensures groups[g0 + j] == Updates(a[j]) {
      assert a[j] == (a + b)[j];
    }
  }

  lemma LoggableParts(base: nat, a: seq<seq<W.Op>>, b: seq<seq<W.Op>>, m: nat)
    requires Loggable(base, a + b) && m <= |b|
    ensures base + |Join(a + b[..m])| < K_MAX_SEQUENCE
  {
    hide RecordsFrom, Loggable;
    assert a + b[..m] == (a + b)[..|a| + m];
    LoggablePrefix(base, a + b, |a| + m);
    LoggableFits(base, a + b[..m]);
  }

  lemma LoggableFits(base: nat, gs: seq<seq<W.Op>>)
    requires Loggable(base, gs)
    ensures base + |Join(gs)| < K_MAX_SEQUENCE
  {
  }

  lemma LogsLoggable(groups: seq<seq<Update>>, g0: nat, older: seq<seq<W.Op>>, newer: seq<seq<W.Op>>, base: nat, mid: nat)
    requires LoggedAs(groups, g0, older) && Loggable(base, older + newer)
    requires base == |Concat(groups[..g0])| && mid == |Concat(groups[..g0 + |older|])|
    ensures mid == base + |Join(older)| && Loggable(base, older) && Loggable(mid, newer)
  {
    hide Concat, W.OpOk, LoggedAs, Join;
    JoinBoth(older, newer);
    ConcatLogged(groups, g0, older);
    assert (forall g | g in older :: g in older + newer) && (forall g | g in newer :: g in older + newer);
  }

  /** The tables made from both logs hold, in order, the operations of the records that survived. */
  lemma TablesHold(base: nat, mid: nat, older: seq<seq<W.Op>>, newer: seq<seq<W.Op>>, k: nat,
                   first: seq<seq<(nat, W.Op)>>, second: seq<seq<(nat, W.Op)>>) returns (m: nat)
    requires Loggable(base, older) && Loggable(mid, newer) && mid == base + |Join(older)|
    requires k <= |Logs.Log(0, RecordsFrom(mid, newer))|
    requires Join(first) == AllOps(Read(Logs.Log(0, RecordsFrom(base, older))).0)
    requires Join(second) == AllOps(Read(Logs.Log(0, RecordsFrom(mid, newer))[..k]).0)
    ensures m <= |newer| && m == Logs.Whole(0, RecordsFrom(mid, newer), k)
    ensures Join(first + second) == W.Numbered(base + 1, Join(older + newer[..m]))
  {
    hide Logs.Log, Logs.Whole, RecordsFrom, AllOps, Read, Loggable, Join;
    var file := Logs.Log(0, RecordsFrom(base, older));
    var all := LogsSurvive(base, older, |file|);
    assert file[..|file|] == file && older[..all] == older;
    m := LogsSurvive(mid, newer, k);
    JoinBoth(older, newer[..m]);
    JoinBoth(first, second);
    NumberedBoth(base + 1, Join(older), Join(newer[..m]));
  }

  lemma NumberedBoth(start: nat, a: seq<W.Op>, b: seq<W.Op>)
    ensures W.Numbered(start, a) + W.Numbered(start + |a|, b) == W.Numbered(start, a + b)
  {
  }
}
