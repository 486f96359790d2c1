/**
 Reading a block: the iterator finds exactly the entries that were added, in order, in
 both directions, and seeks by binary search over the restart points.
 */
module BlockIters {
  import opened Entries
  import opened Coding
  import opened Blocks

  // -------------------------------------------------------------- what a built block holds

  /** The bytes of the first i entries, `shares[k]` bytes of the k-th key being left out. */
  function Data(es: seq<Pair>, shares: seq<nat>, i: nat): Bytes
    requires i <= |es| == |shares| && forall k | 0 <= k < |es| :: shares[k] <= |es[k].key|
    decreases i, es
  {
    if i == 0 then [] else Data(es, shares, i - 1) + Piece(es[i - 1], shares[i - 1])
  }

  /** Every entry can be put together from the one before it. */
  predicate SharesOk(es: seq<Pair>, shares: seq<nat>) {
    && |shares| == |es| && (forall k | 0 <= k < |es| :: shares[k] <= |es[k].key|)
    && (|es| > 0 ==> shares[0] == 0)
    && (forall k | 1 <= k < |es| :: shares[k] <= |es[k - 1].key| && es[k - 1].key[..shares[k]] == es[k].key[..shares[k]])
  }

  /** The restart points are entries stored whole. */
  predicate HeadsOk(es: seq<Pair>, shares: seq<nat>, heads: seq<nat>) {
    && |shares| == |es| && |heads| >= 1 && heads[0] == 0
    && (forall j | 0 <= j < |heads| && heads[j] < |es| :: shares[heads[j]] == 0)
    && (forall j | 1 <= j < |heads| :: heads[j] < |es|)
    && (forall i, j | 0 <= i < j < |heads| :: heads[i] < heads[j])
  }

  ghost predicate Encodes(b: Built, es: seq<Pair>, shares: seq<nat>, heads: seq<nat>) {
    && SharesOk(es, shares) && HeadsOk(es, shares, heads)
    && b.buffer == Data(es, shares, |es|)
    && b.lastKey == (if es == [] then [] else es[|es| - 1].key)
    && |b.restarts| == |heads| && (forall j | 0 <= j < |heads| :: heads[j] <= |es| && b.restarts[j] == |Data(es, shares, heads[j])|)
    && (es == [] ==> b.counter == 0)
  }

  lemma {:induction false} DataPrefix(es: seq<Pair>, shares: seq<nat>, e: Pair, s: nat, i: nat)
    requires SharesOk(es, shares) && s <= |e.key| && i <= |es|
    ensures Data(es + [e], shares + [s], i) == Data(es, shares, i)
    decreases i
  {
    if i > 0 {
      DataPrefix(es, shares, e, s, i - 1);
    }
  }

  lemma SharesAppend(es: seq<Pair>, shares: seq<nat>, e: Pair, s: nat)
    requires SharesOk(es, shares) && s <= |e.key|
    requires if es == [] then s == 0 else s <= |es[|es| - 1].key| && es[|es| - 1].key[..s] == e.key[..s]
    ensures SharesOk(es + [e], shares + [s])
  {
    var es', shares' := es + [e], shares + [s];
    forall k | 1 <= k < |es'|
      ensures shares'[k] <= |es'[k - 1].key| && es'[k - 1].key[..shares'[k]] == es'[k].key[..shares'[k]]
    {
      if k < |es| {
        assert es'[k] == es[k] && es'[k - 1] == es[k - 1];
      }
    }
  }

  lemma HeadsAppend(es: seq<Pair>, shares: seq<nat>, heads: seq<nat>, e: Pair, s: nat, restart: bool)
    requires HeadsOk(es, shares, heads) && (restart ==> s == 0 && es != []) && (es == [] ==> s == 0)
    ensures HeadsOk(es + [e], shares + [s], if restart then heads + [|es|] else heads)
  {
  }

  /** Adding an entry keeps the block readable, with a restart whenever the interval is full. */
  lemma AddKeeps(b: Built, interval: nat, e: Pair, es: seq<Pair>, shares: seq<nat>, heads: seq<nat>)
    returns (shares': seq<nat>, heads': seq<nat>)
    requires interval >= 1 && Encodes(b, es, shares, heads)
    ensures Encodes(AddTo(b, interval, e), es + [e], shares', heads')
    ensures
      var restart := b.counter >= interval;
      && shares' == shares + [if restart then 0 else Shared(b.lastKey, e.key)]
      && heads' == if restart then heads + [|es|] else heads
  {
    hide Varint, Piece, Shared, SharesOk, HeadsOk;
    var restart := b.counter >= interval;
    var s := if restart then 0 else Shared(b.lastKey, e.key);
    shares' := shares + [s];
    heads' := if restart then heads + [|es|] else heads;
    SharesAppend(es, shares, e, s);
    HeadsAppend(es, shares, heads, e, s, restart);
    OffsetsAppend(b, interval, e, es, shares, heads, s, restart);
  }

  lemma OffsetsAppend(b: Built, interval: nat, e: Pair, es: seq<Pair>, shares: seq<nat>, heads: seq<nat>, s: nat, restart: bool)
    requires Encodes(b, es, shares, heads) && restart == (b.counter >= interval)
    requires s == (if restart then 0 else Shared(b.lastKey, e.key))
    requires SharesOk(es + [e], shares + [s])
    ensures
      var b', heads' := AddTo(b, interval, e), if restart then heads + [|es|] else heads;
      && b'.buffer == Data(es + [e], shares + [s], |es| + 1) && |b'.restarts| == |heads'|
      && forall j | 0 <= j < |heads'| ::
          heads'[j] <= |es| && b'.restarts[j] == |Data(es + [e], shares + [s], heads'[j])|
  {
    hide Varint, Piece, Shared, HeadsOk;
    DataPrefix(es, shares, e, s, |es|);
    forall j | 0 <= j < |heads| ensures |Data(es + [e], shares + [s], heads[j])| == b.restarts[j] {
      DataPrefix(es, shares, e, s, heads[j]);
    }
  }

  lemma EmptyEncodes()
    ensures Encodes(EMPTY, [], [], [0])
  {
  }

  /** The longest prefix two keys have in common is s long. */
  predicate Longest(a: Bytes, b: Bytes, s: nat) {
    s <= |a| && s <= |b| && a[..s] == b[..s] && (s < |a| && s < |b| ==> a[s] != b[s])
  }

  /** Every interval-th of n entries is a restart point. */
  ghost predicate Spaced(interval: nat, n: nat, heads: seq<nat>) {
    && |heads| >= 1 && heads[0] == 0
    && (forall j | 1 <= j < |heads| :: heads[j] == heads[j - 1] + interval)
    && heads[|heads| - 1] <= n <= heads[|heads| - 1] + interval && (|heads| > 1 ==> heads[|heads| - 1] < n)
  }

  /** The entry at k is stored whole, or without all that it has in common with the entry before it. */
  predicate ShareIs(es: seq<Pair>, k: nat, whole: bool, share: nat) {
    k < |es| && if whole then share == 0 else k > 0 && Longest(es[k - 1].key, es[k].key, share)
  }

  ghost predicate Regular(interval: nat, es: seq<Pair>, shares: seq<nat>, heads: seq<nat>) {
    Spaced(interval, |es|, heads) && |shares| == |es| && forall k | 0 <= k < |es| :: ShareIs(es, k, k in heads, shares[k])
  }

  /** What any number of Adds builds: readable, restarting at regular intervals and fully compressed between. */
  lemma {:induction false} BuiltIs(interval: nat, es: seq<Pair>) returns (shares: seq<nat>, heads: seq<nat>)
    requires interval >= 1
    ensures Encodes(BuiltOf(interval, es), es, shares, heads) && Regular(interval, es, shares, heads)
    ensures BuiltOf(interval, es).counter == |es| - heads[|heads| - 1]
    decreases |es|
  {
    hide Encodes, Regular, AddTo;
    if es == [] {
      EmptyEncodes();
      NoneRegular(interval);
      return [], [0];
    }
    var n := |es| - 1;
    var was := es[..n];
    assert es == was + [es[n]];
    var shares0, heads0 := BuiltIs(interval, was);
    var b := BuiltOf(interval, was);
    shares, heads := AddKeeps(b, interval, es[n], was, shares0, heads0);
    LastKeyIs(b, was, shares0, heads0);
    OneMoreRegular(interval, was, es[n], shares0, heads0, b);
  }

  lemma NoneRegular(interval: nat)
    ensures Regular(interval, [], [], [0])
  {
  }

  lemma LastKeyIs(b: Built, es: seq<Pair>, shares: seq<nat>, heads: seq<nat>)
    requires Encodes(b, es, shares, heads)
    ensures b.lastKey == (if es == [] then [] else es[|es| - 1].key) && forall h | h in heads :: h < |es| || h == 0
  {
  }

  lemma OneMoreRegular(interval: nat, es: seq<Pair>, e: Pair, shares: seq<nat>, heads: seq<nat>, b: Built)
    requires interval >= 1 && Regular(interval, es, shares, heads) && forall h | h in heads :: h < |es| || h == 0
    requires b.counter == |es| - heads[|heads| - 1] && b.lastKey == (if es == [] then [] else es[|es| - 1].key)
    ensures
      var restart := b.counter >= interval;
      var shares' := shares + [if restart then 0 else Shared(b.lastKey, e.key)];
      var heads' := if restart then heads + [|es|] else heads;
      && Regular(interval, es + [e], shares', heads')
      && AddTo(b, interval, e).counter == |es| + 1 - heads'[|heads'| - 1]
  {
    hide Piece, Longest, Shared;
    var restart := b.counter >= interval;
    var shares' := shares + [if restart then 0 else Shared(b.lastKey, e.key)];
    var heads' := if restart then heads + [|es|] else heads;
    var es' := es + [e];
    forall k | 0 <= k < |es'| ensures ShareIs(es', k, k in heads', shares'[k]) {
      if k < |es| {
        assert k in heads' <==> k in heads;
        assert ShareIs(es, k, k in heads, shares[k]);
      } else if restart {
        assert heads'[|heads|] == |es|;
      } else if es == [] {
        assert heads[0] in heads;
      } else {
        assert Longest(b.lastKey, e.key, shares'[k]) by { SharedLongest(b.lastKey, e.key); }
      }
    }
  }

  lemma SharedLongest(a: Bytes, b: Bytes)
    ensures Longest(a, b, Shared(a, b))
  {
    hide Shared;
  }

  // -------------------------------------------------------------- decoding one entry

  /** Lengths of the shared part, the rest of the key and the value, and of the three varints themselves. */
  datatype Header = Header(shared: nat, nonShared: nat, valueLength: nat, size: nat)

  /** DecodeEntry on the bytes up to the limit. */
  function DecodeEntry(s: Bytes): (r: Option<Header>)
    ensures r.Some? ==> r.value.size <= |s|
    ensures r.Some? && r.value.nonShared + r.value.valueLength < TWO_32 ==>
      r.value.size + r.value.nonShared + r.value.valueLength <= |s|
  {
    if |s| < 3 then None
    else
      var h := if s[0] < 128 && s[1] < 128 && s[2] < 128 then Some(Header(s[0], s[1], s[2], 3)) else DecodeSlow(s);
      if h.Some? && |s| - h.value.size >= (h.value.nonShared + h.value.valueLength) % TWO_32 then h else None
  }

  function DecodeSlow(s: Bytes): (r: Option<Header>)
    ensures r.Some? ==> r.value.size <= |s|
  {
    match GetVarint32(s)
    case None => None
    case Some(a) =>
      var s1 := s[a.1..];
      match GetVarint32(s1)
      case None => None
      case Some(b) =>
        var s2 := s1[b.1..];
        match GetVarint32(s2)
        case None => None
        case Some(c) => Some(Header(a.0, b.0, c.0, a.1 + b.1 + c.1))
  }

  function HeaderOf(e: Pair, shared: nat): Header
    requires shared <= |e.key|
  {
    Header(shared, |e.key| - shared, |e.value|, |Varint(shared)| + |Varint(|e.key| - shared)| + |Varint(|e.value|)|)
  }

  lemma SlowPiece(e: Pair, shared: nat, rest: Bytes)
    requires shared <= |e.key| && |e.key| < TWO_32 && |e.value| < TWO_32
    ensures DecodeSlow(Piece(e, shared) + rest) == Some(HeaderOf(e, shared))
  {
    hide Varint, GetVarint32;
    var a, b, c := Varint(shared), Varint(|e.key| - shared), Varint(|e.value|);
    var s3 := e.key[shared..] + e.value + rest;
    var s2 := c + s3;
    var s1 := b + s2;
    var s := Piece(e, shared) + rest;
    assert s == a + s1;
    Varint32Round(shared, s1);
    Skip(a, s1);
    Varint32Round(|e.key| - shared, s2);
    Skip(b, s2);
    Varint32Round(|e.value|, s3);
  }

  /** The one-byte path agrees with the general one. */
  lemma FastPath(s: Bytes)
    requires |s| >= 3 && s[0] < 128 && s[1] < 128 && s[2] < 128
    ensures DecodeSlow(s) == Some(Header(s[0], s[1], s[2], 3))
  {
    assert GetVarint(s, 5) == Some((s[0], 1));
    var s1 := s[1..];
    assert GetVarint(s1, 5) == Some((s[1], 1));
    var s2 := s1[1..];
    assert s2[0] == s[2];
    assert GetVarint(s2, 5) == Some((s[2], 1));
  }

  lemma PieceLength(e: Pair, shared: nat)
    requires shared <= |e.key|
    ensures |Piece(e, shared)| == HeaderOf(e, shared).size + |e.key| - shared + |e.value|
    ensures HeaderOf(e, shared).size >= 3
  {
    hide Varint;
  }

  lemma DecodePiece(e: Pair, shared: nat, rest: Bytes)
    requires shared <= |e.key| < TWO_32 && |Piece(e, shared)| < TWO_32
    ensures DecodeEntry(Piece(e, shared) + rest) == Some(HeaderOf(e, shared))
  {
    hide Varint, DecodeSlow, Piece;
    PieceLength(e, shared);
    var s := Piece(e, shared) + rest;
    SlowPiece(e, shared, rest);
    if s[0] < 128 && s[1] < 128 && s[2] < 128 {
      FastPath(s);
    }
  }

  // -------------------------------------------------------------- offsets

  function Off(es: seq<Pair>, shares: seq<nat>, i: nat): nat
    requires i <= |es| && SharesOk(es, shares)
  {
    |Data(es, shares, i)|
  }

  lemma OffNext(es: seq<Pair>, shares: seq<nat>, i: nat)
    requires i < |es| && SharesOk(es, shares)
    ensures Off(es, shares, i) + 3 <= Off(es, shares, i + 1) == Off(es, shares, i) + |Piece(es[i], shares[i])|
  {
    hide Piece;
    PieceLength(es[i], shares[i]);
  }

  lemma {:induction false} OffLess(es: seq<Pair>, shares: seq<nat>, i: nat, j: nat)
    requires i < j <= |es| && SharesOk(es, shares)
    ensures Off(es, shares, i) < Off(es, shares, j)
    decreases j
  {
    hide Off;
    OffNext(es, shares, j - 1);
    if i < j - 1 {
      OffLess(es, shares, i, j - 1);
    }
  }

  lemma {:induction false} DataSplit(es: seq<Pair>, shares: seq<nat>, i: nat, n: nat)
    requires i <= n <= |es| && SharesOk(es, shares)
    ensures Data(es, shares, i) <= Data(es, shares, n)
    decreases n
  {
    hide Piece;
    if i < n {
      DataSplit(es, shares, i, n - 1);
    }
  }

  /** The entry's bytes sit at its offset. */
  lemma PieceAt(es: seq<Pair>, shares: seq<nat>, i: nat)
    requires i < |es| && SharesOk(es, shares)
    ensures
      var all, a, b := Data(es, shares, |es|), Off(es, shares, i), Off(es, shares, i + 1);
      a <= b <= |all| && all[a..b] == Piece(es[i], shares[i])
  {
    hide Piece;
    var all, a, b := Data(es, shares, |es|), Off(es, shares, i), Off(es, shares, i + 1);
    DataSplit(es, shares, i + 1, |es|);
    assert all[..b] == Data(es, shares, i + 1) == Data(es, shares, i) + Piece(es[i], shares[i]);
    assert all[a..b] == all[..b][a..];
  }

  // -------------------------------------------------------------- the finished block

  /** What the iterator relies on: `data` up to `limit` is the entries, and behind it the restart offsets. */
  ghost predicate Readable(data: Bytes, limit: nat, es: seq<Pair>, shares: seq<nat>, heads: seq<nat>) {
    && SharesOk(es, shares) && HeadsOk(es, shares, heads)
    && limit + 4 * |heads| <= |data| && data[..limit] == Data(es, shares, |es|) && limit < TWO_32
    && (forall k | 0 <= k < |es| :: |es[k].key| < TWO_32)
    && (forall j | 0 <= j < |heads| :: heads[j] <= |es| && Point(data, limit, j) == Off(es, shares, heads[j]))
  }

  function Point(data: Bytes, limit: nat, j: nat): nat
    requires limit + 4 * (j + 1) <= |data|
  {
    DecodeFixed32(data[limit + 4 * j..limit + 4 * j + 4])
  }

  /** Block::Block on a finished block finds the number of restarts and where they start. */
  lemma FinishedReadable(b: Built, es: seq<Pair>, shares: seq<nat>, heads: seq<nat>)
    requires Encodes(b, es, shares, heads) && |Finished(b)| < TWO_32 && forall k | 0 <= k < |es| :: |es[k].key| < TWO_32
    ensures
      var data := Finished(b);
      var num := DecodeFixed32(data[|data| - 4..]);
      && num == |heads| && (1 + num) * 4 <= |data| && |data| - (1 + num) * 4 == |b.buffer|
      && Readable(data, |b.buffer|, es, shares, heads)
  {
    hide Fixed, DecodeFixed32, Data, Trailer;
    var data, limit, n := Finished(b), |b.buffer|, |heads|;
    TrailerAppend(b.restarts, 0);
    assert data[|data| - 4..] == Fixed(n, 4);
    Fixed32Round(n);
    assert data[..limit] == b.buffer;
    forall j | 0 <= j < n ensures Point(data, limit, j) == Off(es, shares, heads[j]) {
      TrailerWord(b.restarts, j);
      assert data[limit + 4 * j..limit + 4 * j + 4] == Trailer(b.restarts)[4 * j..4 * j + 4];
      OffBound(es, shares, heads[j]);
      Fixed32Round(b.restarts[j]);
    }
  }

  lemma OffBound(es: seq<Pair>, shares: seq<nat>, i: nat)
    requires i <= |es| && SharesOk(es, shares)
    ensures Off(es, shares, i) <= Off(es, shares, |es|)
  {
    DataSplit(es, shares, i, |es|);
  }

  // -------------------------------------------------------------- the iterator

  ghost predicate Transitive(less: (Bytes, Bytes) -> bool) {
    forall a, b, c | less(a, b) && less(b, c) :: less(a, c)
  }

  predicate Ascending(es: seq<Pair>, less: (Bytes, Bytes) -> bool) {
    forall i, j | 0 <= i < j < |es| :: less(es[i].key, es[j].key)
  }

  /** The first entry that is not before the target, or the end. */
  function LowerBound(es: seq<Pair>, less: (Bytes, Bytes) -> bool, target: Bytes): (r: nat)
    ensures r <= |es| && (forall i | 0 <= i < r :: less(es[i].key, target))
    ensures r < |es| ==> !less(es[r].key, target)
  {
    if es == [] || !less(es[0].key, target) then 0 else 1 + LowerBound(es[1..], less, target)
  }

  lemma LowerBoundIs(es: seq<Pair>, less: (Bytes, Bytes) -> bool, target: Bytes, i: nat)
    requires i <= |es| && (forall k | 0 <= k < i :: less(es[k].key, target))
    requires i < |es| ==> !less(es[i].key, target)
    ensures i == LowerBound(es, less, target)
  {
  }

  lemma {:induction false} BelowAll(es: seq<Pair>, less: (Bytes, Bytes) -> bool, target: Bytes, i: nat, j: nat)
    requires Transitive(less) && Ascending(es, less) && i <= j < |es| && less(es[j].key, target)
    ensures less(es[i].key, target)
  {
    if i < j {
      assert less(es[i].key, es[j].key);
    }
  }

  datatype Decoded = Done | Damaged | Got(key: Bytes, start: nat, length: nat)

  /** The entry at `cur`, given the key before it; an entry too long for 32 bits counts as damaged. */
  function Step(data: Bytes, limit: nat, cur: nat, key: Bytes): (r: Decoded)
    requires limit <= |data|
    ensures r.Done? <==> cur >= limit
  {
    if cur >= limit then Done
    else
      match DecodeEntry(data[cur..limit])
      case None => Damaged
      case Some(h) =>
        if |key| < h.shared || h.nonShared + h.valueLength >= TWO_32 then Damaged
        else
          var p := cur + h.size;
          Got(key[..h.shared] + data[p..p + h.nonShared], p + h.nonShared, h.valueLength)
  }

  /** The whole key stored at a restart point, unless the bytes there are not such an entry. */
  function RestartKey(data: Bytes, limit: nat, j: nat): Option<Bytes>
    requires limit + 4 * (j + 1) <= |data|
  {
    var p := Point(data, limit, j);
    if p > limit then None
    else
      match DecodeEntry(data[p..limit])
      case None => None
      case Some(h) =>
        if h.shared != 0 || h.size + h.nonShared > limit - p then None
        else Some(data[p + h.size..p + h.size + h.nonShared])
  }

  /** The last restart point between `left` and `right` whose key is before the target, else `left`. */
  function Bisect(data: Bytes, limit: nat, left: nat, right: nat, less: (Bytes, Bytes) -> bool, target: Bytes): (r: Option<nat>)
    requires limit + 4 * (right + 1) <= |data| && left <= right
    ensures r.Some? ==> left <= r.value <= right
    decreases right - left
  {
    if left == right then Some(left)
    else
      var mid := (left + right + 1) / 2;
      match RestartKey(data, limit, mid)
      case None => None
      case Some(k) =>
        if less(k, target) then Bisect(data, limit, mid, right, less, target) else Bisect(data, limit, left, mid - 1, less, target)
  }

  lemma DecodedFits(s: Bytes)
    ensures
      var h := DecodeEntry(s);
      h.Some? && h.value.nonShared + h.value.valueLength < TWO_32 ==>
        h.value.size + h.value.nonShared + h.value.valueLength <= |s|
  {
    hide DecodeEntry;
  }

  class Iter {
    const data: Bytes
    const restarts: nat
    const numRestarts: nat
    const less: (Bytes, Bytes) -> bool
    ghost const es: seq<Pair>
    ghost const shares: seq<nat>
    ghost const heads: seq<nat>
    var current: nat
    var restartIndex: nat
    var key: Bytes
    var valueStart: nat
    var valueLength: nat
    var corrupt: bool
    ghost var pos: nat

    ghost predicate Block() {
      Readable(data, restarts, es, shares, heads) && numRestarts == |heads|
    }

    ghost function At(i: nat): nat
      requires Block() && i <= |es|
    {
      Off(es, shares, i)
    }

    /** The restart point is the last one before the entry at offset `cur`, or the entry itself. */
    ghost predicate Within(cur: nat)
      requires Block()
      reads this
    {
      && restartIndex < numRestarts && At(heads[restartIndex]) <= cur
      && (restartIndex + 1 < numRestarts ==> cur <= At(heads[restartIndex + 1]))
    }

    /** The cursor is on entry `pos`, or past the end. */
    ghost predicate Valid()
      reads this
    {
      && Block() && !corrupt && pos <= |es|
      && if pos == |es| then current == restarts
         else
           && current == At(pos) < restarts && key == es[pos].key && Within(current)
           && valueStart + valueLength == At(pos + 1) && valueStart + valueLength <= |data|
           && data[valueStart..valueStart + valueLength] == es[pos].value
    }

    /** ParseNextKey will decode entry i: it starts where the value ends, and `key` holds what it shares. */
    ghost predicate Before(i: nat)
      reads this
    {
      && Block() && !corrupt && i <= |es| && valueStart + valueLength == At(i)
      && (i < |es| ==> shares[i] == 0 || (i > 0 && key == es[i - 1].key))
      && restartIndex < numRestarts && At(heads[restartIndex]) <= At(i)
    }

    constructor (data: Bytes, less: (Bytes, Bytes) -> bool, limit: nat, num: nat,
                 ghost es: seq<Pair>, ghost shares: seq<nat>, ghost heads: seq<nat>)
      requires Readable(data, limit, es, shares, heads) && num == |heads|
      ensures Valid() && pos == |es| && this.data == data && this.less == less && this.restarts == limit && numRestarts == num
      ensures this.es == es && this.shares == shares && this.heads == heads
    {
      this.data, this.less, this.restarts, this.numRestarts := data, less, limit, num;
      this.es, this.shares, this.heads := es, shares, heads;
      current, restartIndex, key, valueStart, valueLength, corrupt, pos := limit, num, [], 0, 0, false, |es|;
    }

    method SeekToRestartPoint(j: nat)
      requires Block() && j < numRestarts
      modifies this
      ensures !corrupt ==> Before(heads[j])
      ensures corrupt == old(corrupt) && restartIndex == j
    {
      key := [];
      restartIndex := j;
      valueStart := Point(data, restarts, j);
      valueLength := 0;
    }

    /** ParseNextKey, whatever the bytes are: Step says what is decoded. */
    method ParseNextKey() returns (more: bool)
      requires restarts + 4 * numRestarts <= |data|
      modifies this`current, this`restartIndex, this`key, this`valueStart, this`valueLength, this`corrupt
      ensures
        match Step(data, restarts, old(valueStart + valueLength), old(key))
        case Done => !more && current == restarts && restartIndex == numRestarts && corrupt == old(corrupt)
        case Damaged => !more && current == restarts && restartIndex == numRestarts && corrupt && key == []
        case Got(k, start, length) =>
          && more && current == old(valueStart + valueLength) && corrupt == old(corrupt)
          && key == k && valueStart == start && valueLength == length
          && old(restartIndex) <= restartIndex
          && (restartIndex == old(restartIndex) || (restartIndex < numRestarts && Point(data, restarts, restartIndex) < current))
          && (restartIndex + 1 < numRestarts ==> current <= Point(data, restarts, restartIndex + 1))
    {
      hide DecodeEntry, Point;
      current := valueStart + valueLength;
      if current >= restarts {
        current := restarts;
        restartIndex := numRestarts;
        return false;
      }
      var h := DecodeEntry(data[current..restarts]);
      if h.None? || |key| < h.value.shared || h.value.nonShared + h.value.valueLength >= TWO_32 {
        CorruptionError();
        return false;
      }
      var p := current + h.value.size;
      DecodedFits(data[current..restarts]);
      key := key[..h.value.shared] + data[p..p + h.value.nonShared];
      valueStart, valueLength := p + h.value.nonShared, h.value.valueLength;
      AdvanceRestart();
      more := true;
    }

    method AdvanceRestart()
      requires restarts + 4 * numRestarts <= |data|
      modifies this`restartIndex
      ensures old(restartIndex) <= restartIndex
      ensures restartIndex == old(restartIndex) || (restartIndex < numRestarts && Point(data, restarts, restartIndex) < current)
      ensures restartIndex + 1 < numRestarts ==> current <= Point(data, restarts, restartIndex + 1)
    {
      while restartIndex + 1 < numRestarts && Point(data, restarts, restartIndex + 1) < current
        invariant old(restartIndex) <= restartIndex
        invariant restartIndex == old(restartIndex) || (restartIndex < numRestarts && Point(data, restarts, restartIndex) < current)
      {
        restartIndex := restartIndex + 1;
      }
    }

    /** ParseNextKey in front of entry i. */
    method ParseEntry(ghost i: nat) returns (more: bool)
      requires Before(i)
      modifies this
      ensures Valid() && pos == i && more == (i < |es|)
      ensures more ==> valueStart + valueLength == At(i + 1) && Before(i + 1)
    {
      hide Data, Off, Piece, DecodeEntry, Point, SharesOk, HeadsOk, Step;
      pos := i;
      Extent(data, restarts, es, shares, heads, i);
      StepIs(data, restarts, es, shares, heads, i, key);
      if i < |es| { NextWhole(es, shares, i); }
      more := ParseNextKey();
    }

    method CorruptionError()
      modifies this`current, this`restartIndex, this`key, this`valueStart, this`valueLength, this`corrupt
      ensures corrupt && current == restarts && restartIndex == numRestarts && key == [] && valueLength == 0
    {
      current, restartIndex, corrupt := restarts, numRestarts, true;
      key, valueStart, valueLength := [], 0, 0;
    }

    method Next()
      requires Valid() && pos < |es|
      modifies this
      ensures Valid() && pos == old(pos) + 1
    {
      NextWhole(es, shares, pos);
      OffNext(es, shares, pos);
      var more := ParseEntry(pos + 1);
    }

    method SeekToFirst()
      requires Valid()
      modifies this
      ensures Valid() && pos == 0
    {
      SeekToRestartPoint(0);
      var more := ParseEntry(0);
    }

    method SeekToLast()
      requires Valid()
      modifies this
      ensures Valid() && pos == if |es| == 0 then 0 else |es| - 1
    {
      hide Data, Piece, Point, SharesOk;
      ghost var i := heads[numRestarts - 1];
      SeekToRestartPoint(numRestarts - 1);
      var more := ParseEntry(i);
      Extent(data, restarts, es, shares, heads, |es|);
      while more && valueStart + valueLength < restarts
        invariant Valid() && pos == i && more == (i < |es|)
        invariant more ==> Before(i + 1) && valueStart + valueLength == At(i + 1)
        invariant !more ==> |es| == 0
        decreases |es| - i
      {
        i := i + 1;
        more := ParseEntry(i);
      }
      if more && i + 1 < |es| {
        OffLess(es, shares, i + 1, |es|);
      }
    }

    method Prev()
      requires Valid() && pos < |es|
      modifies this
      ensures Valid() && pos == if old(pos) == 0 then |es| else old(pos) - 1
    {
      hide Data, Piece, Point, SharesOk;
      var original := current;
      ghost var n := pos;
      while Point(data, restarts, restartIndex) >= original
        invariant Valid() && pos == n && current == original && restartIndex < numRestarts
        invariant restartIndex + 1 < numRestarts ==> original <= At(heads[restartIndex + 1])
        decreases restartIndex
      {
        if restartIndex == 0 {
          current := restarts;
          restartIndex := numRestarts;
          AtStart(es, shares, heads, n);
          pos := |es|;
          return;
        }
        restartIndex := restartIndex - 1;
        HeadsBelow(es, shares, heads, restartIndex, n);
      }
      OffOrder(es, shares, heads[restartIndex], n);
      ScanTo(original, n);
    }

    /** From the restart point, parse until an entry ends where `original` starts. */
    method ScanTo(original: nat, ghost n: nat)
      requires Block() && !corrupt && restartIndex < numRestarts && n < |es|
      requires heads[restartIndex] < n && original == At(n)
      modifies this
      ensures Valid() && pos == n - 1
    {
      hide Data, Piece, Point, SharesOk, HeadsOk, Off;
      ghost var i := heads[restartIndex];
      SeekToRestartPoint(restartIndex);
      var more := ParseEntry(i);
      OffOrder(es, shares, i + 1, n);
      while more && valueStart + valueLength < original
        invariant Valid() && pos == i && i < n && more
        invariant Before(i + 1) && valueStart + valueLength == At(i + 1)
        invariant At(i + 1) < original <==> i + 1 < n
        decreases n - i
      {
        i := i + 1;
        more := ParseEntry(i);
        OffOrder(es, shares, i + 1, n);
      }
    }

    /** The binary search over the restart points. */
    method FindRestart(target: Bytes) returns (r: Option<nat>)
      requires restarts + 4 * numRestarts <= |data| && numRestarts > 0
      ensures r == Bisect(data, restarts, 0, numRestarts - 1, less, target)
    {
      hide RestartKey;
      var left, right := 0, numRestarts - 1;
      while left < right
        invariant 0 <= left <= right < numRestarts
        invariant Bisect(data, restarts, left, right, less, target) == Bisect(data, restarts, 0, numRestarts - 1, less, target)
      {
        var mid := (left + right + 1) / 2;
        var k := RestartKey(data, restarts, mid);
        if k.None? {
          return None;
        }
        if less(k.value, target) {
          left := mid;
        } else {
          right := mid - 1;
        }
      }
      r := Some(left);
    }

    /** Seek: the first entry at or behind the target. On a block that was built the search never finds it corrupt. */
    method Seek(target: Bytes)
      requires Valid() && Transitive(less) && Ascending(es, less)
      modifies this
      ensures Valid() && pos == LowerBound(es, less, target)
    {
      hide Data, Piece, Point, SharesOk, HeadsOk, Off, Bisect, Transitive, Ascending;
      Structure(data, restarts, es, shares, heads);
      var r := FindRestart(target);
      if r.None? {
        CorruptionError();
        BisectFinds(data, restarts, es, shares, heads, less, target);
        assert false;
      }
      BisectFinds(data, restarts, es, shares, heads, less, target);
      ghost var i := heads[r.value];
      SeekToRestartPoint(r.value);
      var more := ParseEntry(i);
      while more && less(key, target)
        invariant Valid() && pos == i && more == (i < |es|)
        invariant more ==> Before(i + 1)
        invariant forall k | 0 <= k < i :: less(es[k].key, target)
        decreases |es| - i
      {
        i := i + 1;
        more := ParseEntry(i);
      }
      LowerBoundIs(es, less, target, i);
    }
  }

  lemma Structure(data: Bytes, limit: nat, es: seq<Pair>, shares: seq<nat>, heads: seq<nat>)
    requires Readable(data, limit, es, shares, heads)
    ensures |heads| > 0
  {
  }

  // -------------------------------------------------------------- facts the iterator steps on

  lemma OffOrder(es: seq<Pair>, shares: seq<nat>, i: nat, j: nat)
    requires i <= |es| && j <= |es| && SharesOk(es, shares)
    ensures Off(es, shares, i) < Off(es, shares, j) <==> i < j
    ensures Off(es, shares, i) == Off(es, shares, j) <==> i == j
  {
    hide Off;
    if i < j { OffLess(es, shares, i, j); } else if j < i { OffLess(es, shares, j, i); }
  }

  lemma Extent(data: Bytes, limit: nat, es: seq<Pair>, shares: seq<nat>, heads: seq<nat>, i: nat)
    requires Readable(data, limit, es, shares, heads) && i <= |es|
    ensures Off(es, shares, |es|) == limit && (Off(es, shares, i) < limit <==> i < |es|) && Off(es, shares, i) <= limit
  {
    OffOrder(es, shares, i, |es|);
  }

  lemma Cut(s: Bytes, limit: nat, a: nat, b: nat, c: nat)
    requires a <= b <= c <= limit <= |s|
    ensures s[..limit][a..b] == s[a..b] && s[a..limit] == s[a..b] + s[b..limit] && s[a..c] == s[a..b] + s[b..c]
  {
    assert s[..limit][a..b] == s[a..b];
  }

  lemma PieceParts(e: Pair, s: nat)
    requires s <= |e.key|
    ensures
      var h, piece := HeaderOf(e, s), Piece(e, s);
      && h.size + h.nonShared + h.valueLength == |piece|
      && piece[h.size..h.size + h.nonShared] == e.key[s..] && piece[h.size + h.nonShared..] == e.value
  {
    hide Varint;
    var a, b, c := Varint(s), Varint(|e.key| - s), Varint(|e.value|);
    var abc := a + b + c;
    assert Piece(e, s) == abc + e.key[s..] + e.value;
  }

  lemma EntryAt(data: Bytes, limit: nat, es: seq<Pair>, shares: seq<nat>, heads: seq<nat>, i: nat)
    requires Readable(data, limit, es, shares, heads) && i < |es|
    ensures
      var cur, next := Off(es, shares, i), Off(es, shares, i + 1);
      cur <= next <= limit && data[cur..next] == Piece(es[i], shares[i])
      && DecodeEntry(data[cur..limit]) == Some(HeaderOf(es[i], shares[i]))
  {
    hide Varint, DecodeEntry, Data, Piece, HeadsOk, Point;
    var cur, next, e, s := Off(es, shares, i), Off(es, shares, i + 1), es[i], shares[i];
    PieceAt(es, shares, i);
    OffNext(es, shares, i);
    OffBound(es, shares, i + 1);
    Cut(data, limit, cur, next, next);
    DecodePiece(e, s, data[next..limit]);
  }

  /** In front of entry i the step decodes exactly that entry. */
  lemma StepIs(data: Bytes, limit: nat, es: seq<Pair>, shares: seq<nat>, heads: seq<nat>, i: nat, key: Bytes)
    requires Readable(data, limit, es, shares, heads) && i <= |es|
    requires i < |es| ==> shares[i] == 0 || (i > 0 && key == es[i - 1].key)
    ensures
      var r := Step(data, limit, Off(es, shares, i), key);
      if i == |es| then r == Done
      else
        && r.Got? && r.key == es[i].key && r.start + r.length == Off(es, shares, i + 1) <= limit
        && data[r.start..r.start + r.length] == es[i].value
  {
    hide Varint, DecodeEntry, Data, Piece, HeadsOk, Point, Off, Step;
    Extent(data, limit, es, shares, heads, i);
    StepDone(data, limit, key);
    if i < |es| {
      EntryAt(data, limit, es, shares, heads, i);
      PutTogether(es, shares, i, key);
      StepGot(data, limit, Off(es, shares, i), Off(es, shares, i + 1), key, es[i], shares[i]);
    }
  }

  lemma StepDone(data: Bytes, limit: nat, key: Bytes)
    requires limit <= |data|
    ensures Step(data, limit, limit, key) == Done
  {
  }

  lemma StepGot(data: Bytes, limit: nat, cur: nat, next: nat, key: Bytes, e: Pair, s: nat)
    requires cur < limit <= |data| && cur <= next <= limit < TWO_32 && s <= |e.key| && data[cur..next] == Piece(e, s)
    requires DecodeEntry(data[cur..limit]) == Some(HeaderOf(e, s))
    requires s <= |key| && key[..s] + e.key[s..] == e.key
    ensures
      var r := Step(data, limit, cur, key);
      && r.Got? && r.key == e.key && r.start + r.length == next
      && data[r.start..r.start + r.length] == e.value
  {
    hide DecodeEntry, Piece, Varint;
    var h := HeaderOf(e, s);
    PieceParts(e, s);
    Inner(data, cur, next, h.size, h.size + h.nonShared);
    Inner(data, cur, next, h.size + h.nonShared, next - cur);
  }

  lemma Inner(s: Bytes, a: nat, b: nat, i: nat, j: nat)
    requires a <= b <= |s| && i <= j <= b - a
    ensures s[a..b][i..j] == s[a + i..a + j]
  {
    var t := s[a..b];
    assert forall k | 0 <= k < j - i :: t[i..j][k] == t[i + k] == s[a + i..a + j][k];
    assert t[i..j] == s[a + i..a + j];
  }

  lemma PutTogether(es: seq<Pair>, shares: seq<nat>, i: nat, key: Bytes)
    requires i < |es| && SharesOk(es, shares) && (shares[i] == 0 || (i > 0 && key == es[i - 1].key))
    ensures shares[i] <= |key| && key[..shares[i]] + es[i].key[shares[i]..] == es[i].key
  {
    assert es[i].key[..shares[i]] + es[i].key[shares[i]..] == es[i].key;
  }

  lemma NextWhole(es: seq<Pair>, shares: seq<nat>, i: nat)
    requires i < |es| && SharesOk(es, shares)
    ensures Off(es, shares, i) < Off(es, shares, i + 1)
    ensures HeaderOf(es[i], shares[i]).shared == shares[i] <= |es[i].key|
  {
    OffNext(es, shares, i);
  }

  lemma AtStart(es: seq<Pair>, shares: seq<nat>, heads: seq<nat>, n: nat)
    requires SharesOk(es, shares) && HeadsOk(es, shares, heads) && n < |es| && Off(es, shares, heads[0]) >= Off(es, shares, n)
    ensures n == 0
  {
    OffOrder(es, shares, 0, n);
  }

  lemma HeadsBelow(es: seq<Pair>, shares: seq<nat>, heads: seq<nat>, j: nat, n: nat)
    requires SharesOk(es, shares) && HeadsOk(es, shares, heads) && j + 1 < |heads| && n < |es|
    requires Off(es, shares, heads[j + 1]) >= Off(es, shares, n)
    ensures Off(es, shares, heads[j]) <= Off(es, shares, heads[j + 1])
  {
    OffOrder(es, shares, heads[j], heads[j + 1]);
  }

  lemma RestartKeyIs(data: Bytes, limit: nat, es: seq<Pair>, shares: seq<nat>, heads: seq<nat>, j: nat)
    requires Readable(data, limit, es, shares, heads) && 1 <= j < |heads|
    ensures heads[j] < |es| && RestartKey(data, limit, j) == Some(es[heads[j]].key)
  {
    hide DecodeEntry, Piece, Data, Varint, Off, Point;
    var i := heads[j];
    assert i < |es| && shares[i] == 0;
    EntryAt(data, limit, es, shares, heads, i);
    PieceParts(es[i], 0);
    var cur, next, h := Off(es, shares, i), Off(es, shares, i + 1), HeaderOf(es[i], 0);
    PieceSpan(es, shares, i);
    Inner(data, cur, next, h.size, h.size + h.nonShared);
    assert es[i].key[0..] == es[i].key;
  }

  lemma PieceSpan(es: seq<Pair>, shares: seq<nat>, i: nat)
    requires i < |es| && SharesOk(es, shares)
    ensures Off(es, shares, i + 1) == Off(es, shares, i) + |Piece(es[i], shares[i])|
  {
    OffNext(es, shares, i);
  }

  /** On a built block the search succeeds: every entry before the restart point found is before the target, and the
      next restart point is not. */
  lemma BisectFinds(data: Bytes, limit: nat, es: seq<Pair>, shares: seq<nat>, heads: seq<nat>,
                    less: (Bytes, Bytes) -> bool, target: Bytes)
    requires Readable(data, limit, es, shares, heads) && Transitive(less) && Ascending(es, less)
    ensures
      var r := Bisect(data, limit, 0, |heads| - 1, less, target);
      && r.Some? && (forall k | 0 <= k < heads[r.value] :: less(es[k].key, target))
      && (r.value + 1 < |heads| ==> NotBefore(es, heads[r.value + 1], less, target))
  {
    hide Readable, Bisect, Transitive, Ascending, NotBefore;
    ReadableSize(data, limit, es, shares, heads);
    BisectWithin(data, limit, es, shares, heads, less, target, 0, |heads| - 1);
  }

  lemma ReadableSize(data: Bytes, limit: nat, es: seq<Pair>, shares: seq<nat>, heads: seq<nat>)
    requires Readable(data, limit, es, shares, heads)
    ensures limit + 4 * |heads| <= |data| && |heads| > 0 && heads[0] == 0
    ensures forall j | 0 <= j < |heads| :: heads[j] <= |es|
  {
  }

  predicate NotBefore(es: seq<Pair>, k: nat, less: (Bytes, Bytes) -> bool, target: Bytes) {
    k < |es| && !less(es[k].key, target)
  }

  lemma {:induction false} BisectWithin(data: Bytes, limit: nat, es: seq<Pair>, shares: seq<nat>, heads: seq<nat>,
                                        less: (Bytes, Bytes) -> bool, target: Bytes, left: nat, right: nat)
    requires Readable(data, limit, es, shares, heads) && Transitive(less) && Ascending(es, less)
    requires left <= right < |heads| && heads[left] <= |es| && limit + 4 * |heads| <= |data|
    requires forall k | 0 <= k < heads[left] :: less(es[k].key, target)
    requires right + 1 < |heads| ==> NotBefore(es, heads[right + 1], less, target)
    ensures
      var r := Bisect(data, limit, left, right, less, target);
      && r.Some? && heads[r.value] <= |es| && (forall k | 0 <= k < heads[r.value] :: less(es[k].key, target))
      && (r.value + 1 < |heads| ==> NotBefore(es, heads[r.value + 1], less, target))
    decreases right - left
  {
    hide Readable, RestartKey, Transitive, Ascending;
    if left < right {
      var mid := (left + right + 1) / 2;
      RestartKeyIs(data, limit, es, shares, heads, mid);
      var m := heads[mid];
      if less(es[m].key, target) {
        forall k | 0 <= k < m ensures less(es[k].key, target) {
          BelowAll(es, less, target, k, m);
        }
        BisectWithin(data, limit, es, shares, heads, less, target, mid, right);
      } else {
        BisectWithin(data, limit, es, shares, heads, less, target, left, mid - 1);
      }
    }
  }
}
