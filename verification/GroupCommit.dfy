/**
 Group commit: the writer at the head of the queue commits its own batch together with
 those queued behind it, and reports a sequence number to each of them.
 */
module GroupCommit {
  import opened Entries

  datatype Update = Update(key: Key, kind: Kind, value: Bytes)

  /** A queued write. `bytes` is the encoded size of its batch; a NULL batch only forces a flush. */
  datatype Writer = Writer(id: nat, batch: Option<seq<Update>>, bytes: nat, sync: bool)

  const SMALL_BATCH: nat := 0x2_0000 // 128 << 10
  const MAX_GROUP: nat := 0x10_0000  // 1 << 20

  function OpsOf(ws: seq<Writer>): seq<Update> {
    if ws == [] then [] else
    var w := ws[|ws| - 1];
    OpsOf(ws[..|ws| - 1]) + (if w.batch.Some? then w.batch.value else [])
  }

  function BytesOf(ws: seq<Writer>): nat {
    if ws == [] then 0 else
    var w := ws[|ws| - 1];
    BytesOf(ws[..|ws| - 1]) + (if w.batch.Some? then w.bytes else 0)
  }

  function MaxSize(first: Writer): nat {
    if first.bytes <= SMALL_BATCH then first.bytes + SMALL_BATCH else MAX_GROUP
  }

  /** The i-th writer may ride along with those before it. */
  predicate Joins(ws: seq<Writer>, i: nat)
    requires 0 < i < |ws|
  {
    && !(ws[i].sync && !ws[0].sync)
    && (ws[i].batch.Some? ==> BytesOf(ws[..i + 1]) <= MaxSize(ws[0]))
  }

  /** `n` writers form the group: each one may ride along, and the next one may not. */
  ghost predicate IsGroup(ws: seq<Writer>, n: nat) {
    && 1 <= n <= |ws|
    && (forall i | 1 <= i < n :: Joins(ws, i))
    && (n < |ws| ==> !Joins(ws, n))
  }

  method BuildBatchGroup(ws: seq<Writer>) returns (n: nat, updates: seq<Update>)
    requires ws != [] && ws[0].batch.Some?
    ensures IsGroup(ws, n) && updates == OpsOf(ws[..n])
    ensures !ws[0].sync ==> forall i | 0 <= i < n :: !ws[i].sync
    ensures
      var limit := if ws[0].bytes <= 131072 then ws[0].bytes + 131072 else 1048576;
      && (BytesOf(ws[..n]) == ws[0].bytes || BytesOf(ws[..n]) <= limit)
      && (n == |ws| || (ws[n].sync && !ws[0].sync) || (ws[n].batch.Some? && BytesOf(ws[..n]) + ws[n].bytes > limit))
  {
    var first := ws[0];
    assert ws[..1] == [first];
    updates := first.batch.value;
    var size := first.bytes;
    var maxSize := if size <= SMALL_BATCH then size + SMALL_BATCH else MAX_GROUP;
    n := 1;
    while n < |ws|
      invariant 1 <= n <= |ws|
      invariant forall i | 1 <= i < n :: Joins(ws, i)
      invariant updates == OpsOf(ws[..n]) && size == BytesOf(ws[..n])
      invariant (!first.sync ==> forall i | 0 <= i < n :: !ws[i].sync) && (size == first.bytes || size <= maxSize)
    {
      var w := ws[n];
      assert ws[..n + 1][..n] == ws[..n];
      if w.sync && !first.sync { break; }
      if w.batch.Some? {
        if size + w.bytes > maxSize { break; }
        size := size + w.bytes;
        updates := updates + w.batch.value;
      }
      n := n + 1;
    }
  }

  /** What SUWrite returns through `seq`: the leader the group's last number, the i-th follower the old number plus i. */
  function Reported(base: nat, count: nat, n: nat): (r: seq<nat>)
    requires n >= 1
    ensures |r| == n && r[0] == base + count && forall i | 1 <= i < n :: r[i] == base + i
  {
    seq(n, i => if i == 0 then base + count else base + i)
  }

  ghost predicate ExactlyOnce(r: seq<nat>, lo: nat, hi: nat) {
    && (forall i, j | 0 <= i < j < |r| :: r[i] != r[j])
    && (forall x :: x in r <==> lo < x <= hi)
  }

  /**
   The numbers reported for a group are exactly the numbers it consumed, each once, if and
   only if it holds as many updates as writers: single-operation batches qualify, a group
   with a NULL or a longer batch does not in general.
   */
  lemma ReportsConserve(base: nat, count: nat, n: nat)
    requires n >= 1
    ensures ExactlyOnce(Reported(base, count, n), base, base + count) <==> count == n
  {
    var r := Reported(base, count, n);
    if count == n {
      forall x | base < x <= base + n ensures x in r {
        if x < base + n { assert r[x - base] == x; } else { assert r[0] == x; }
      }
    } else if count > n {
      assert base < base + n <= base + count;
      assert base + n !in r;
    } else if count == 0 {
      assert r[0] in r && r[0] == base;
    } else {
      assert r[0] == r[count];
    }
  }

  lemma {:induction false} SingleOps(ws: seq<Writer>)
    requires forall w | w in ws :: w.batch.Some? && |w.batch.value| == 1
    ensures |OpsOf(ws)| == |ws|
    ensures forall i | 0 <= i < |ws| :: OpsOf(ws)[i] == ws[i].batch.value[0]
  {
    if ws != [] {
      var init := ws[..|ws| - 1];
      SingleOps(init);
      assert ws[|ws| - 1] in ws;
      forall i | 0 <= i < |ws| ensures OpsOf(ws)[i] == ws[i].batch.value[0] {
        if i < |init| { assert init[i] == ws[i]; }
      }
    }
  }

  function Numbered(base: nat, ops: seq<Update>): (r: seq<Entry>)
    requires base + |ops| <= K_MAX_SEQUENCE
    ensures |r| == |ops|
    ensures forall k | 0 <= k < |ops| :: r[k] == Entry(ops[k].key, base + 1 + k, ops[k].kind, ops[k].value)
  {
    seq(|ops|, k requires 0 <= k < |ops| => Entry(ops[k].key, base + 1 + k, ops[k].kind, ops[k].value))
  }

  class WriteQueue {
    var writers: seq<Writer>
    var lastSequence: nat
    var inserted: seq<Entry>           // what went into the memtable, in order
    var reports: seq<(nat, nat)>       // (writer id, number) as SUWrite returned them

    constructor (last: nat)
      ensures writers == [] && lastSequence == last && inserted == [] && reports == []
    {
      writers, lastSequence, inserted, reports := [], last, [], [];
    }

    method Enqueue(w: Writer)
      modifies this`writers
      ensures writers == old(writers) + [w]
    {
      writers := writers + [w];
    }

    /**
     What the head of the queue does in SUWrite. `room` is MakeRoomForWrite's outcome and
     `logged` that of the log write: the number advances even when the log write failed.
     */
    method Commit(room: bool, logged: bool) returns (ghost n: nat)
      requires writers != [] && lastSequence + |OpsOf(writers)| <= K_MAX_SEQUENCE
      modifies this
      ensures 1 <= n <= |old(writers)| && writers == old(writers)[n..]
      ensures !room || old(writers)[0].batch.None? ==>
                n == 1 && lastSequence == old(lastSequence) && inserted == old(inserted) && reports == old(reports)
      ensures room && old(writers)[0].batch.Some? ==>
                var ops := OpsOf(old(writers)[..n]);
                && IsGroup(old(writers), n)
                && lastSequence == old(lastSequence) + |ops| <= K_MAX_SEQUENCE
                && inserted == old(inserted) + (if logged then Numbered(old(lastSequence), ops) else [])
                && |reports| == |old(reports)| + n && old(reports) <= reports
                && forall i | 0 <= i < n :: reports[|old(reports)| + i]
                     == (old(writers)[i].id, Reported(old(lastSequence), |ops|, n)[i])
    {
      var all := writers;
      if !room || all[0].batch.None? {
        n := 1;
        writers := all[1..];
        return;
      }
      var m, updates := BuildBatchGroup(all);
      n := m;
      assert |updates| <= |OpsOf(all)| by { OpsPrefix(all, m); }
      var last := lastSequence;
      if logged {
        inserted := inserted + Numbered(last, updates);
      }
      var numbers := Reported(last, |updates|, m);
      lastSequence := last + |updates|;
      var i := 0;
      while i < m
        invariant 0 <= i <= m && writers == all[i..]
        invariant |reports| == |old(reports)| + i && old(reports) <= reports
        invariant forall j | 0 <= j < i :: reports[|old(reports)| + j] == (all[j].id, numbers[j])
        invariant inserted == old(inserted) + (if logged then Numbered(last, updates) else [])
        invariant lastSequence == last + |updates|
      {
        reports := reports + [(writers[0].id, numbers[i])];
        writers := writers[1..];
        i := i + 1;
      }
    }
  }

  lemma {:induction false} OpsPrefix(ws: seq<Writer>, n: nat)
    requires n <= |ws|
    ensures |OpsOf(ws[..n])| <= |OpsOf(ws)|
  {
    if n < |ws| {
      assert ws[..|ws| - 1][..n] == ws[..n];
      OpsPrefix(ws[..|ws| - 1], n);
    } else {
      assert ws[..n] == ws;
    }
  }
}
