/**
 How a table is cut into blocks: the entries so far as finished blocks and the current
 one, and an index key for every finished block but perhaps the last. The index keys
 separate the blocks whatever the shortening of keys does to them.
 */
module TableOrder {
  import opened Entries
  import opened Blocks
  import opened BlockIters
  import opened TwoLevel
  import opened Comparators

  ghost predicate Ordered(blocks: seq<seq<Pair>>, cur: seq<Pair>) {
    && Ascending(Flat(blocks) + cur, InternalLess)
    && (forall e | e in Flat(blocks) + cur :: IsInternal(e.key))
    && (forall b | 0 <= b < |blocks| :: blocks[b] != [])
  }

  /** Behind block i: the entries of later blocks and of the current one. */
  ghost predicate Later(blocks: seq<seq<Pair>>, cur: seq<Pair>, i: int, e: Pair) {
    e in cur || exists j | i < j < |blocks| :: 0 <= j && e in blocks[j]
  }

  /** An index key: not before its block, before everything behind, and either the block's last key or a key
      whose user key lies before all user keys behind. */
  ghost predicate SepOk(blocks: seq<seq<Pair>>, cur: seq<Pair>, i: int, sep: Bytes)
    requires 0 <= i < |blocks|
  {
    && IsInternal(sep)
    && (forall e | e in blocks[i] :: !InternalLess(sep, e.key))
    && (forall e | Later(blocks, cur, i, e) :: InternalLess(sep, e.key))
    && (|| (blocks[i] != [] && sep == blocks[i][|blocks[i]| - 1].key)
        || forall e | Later(blocks, cur, i, e) :: IsInternal(e.key) && BytesLess(UserKey(sep), UserKey(e.key)))
  }

  /** The first key behind block i. */
  function NextKey(blocks: seq<seq<Pair>>, cur: seq<Pair>, i: nat): Option<Bytes> {
    var after := if i + 1 < |blocks| then blocks[i + 1] else cur;
    if after == [] then None else Some(after[0].key)
  }

  /** An index key is the short form of its block's last key: short of the next key, or of nothing if there is none. */
  ghost predicate SepIs(blocks: seq<seq<Pair>>, cur: seq<Pair>, i: nat, sep: Bytes) {
    i < |blocks| && blocks[i] != [] &&
    var last := blocks[i][|blocks[i]| - 1].key;
    IsInternal(last) &&
    match NextKey(blocks, cur, i)
    case Some(k) => IsInternal(k) && sep == Shortened(last, Separator(UserKey(last), UserKey(k)))
    case None => sep == Shortened(last, Successor(UserKey(last)))
  }

  ghost predicate SepsOk(blocks: seq<seq<Pair>>, cur: seq<Pair>, seps: seq<Bytes>) {
    |seps| <= |blocks| && forall i | 0 <= i < |seps| :: SepOk(blocks, cur, i, seps[i]) && SepIs(blocks, cur, i, seps[i])
  }

  // -------------------------------------------------------------- flat lists

  lemma {:induction false} UptoMore(blocks: seq<seq<Pair>>, x: seq<Pair>, i: nat)
    requires i <= |blocks|
    ensures Upto(blocks + [x], i) == Upto(blocks, i)
    decreases i
  {
    if i > 0 {
      UptoMore(blocks, x, i - 1);
    }
  }

  lemma FlatMore(blocks: seq<seq<Pair>>, x: seq<Pair>)
    ensures Flat(blocks + [x]) == Flat(blocks) + x
  {
    UptoMore(blocks, x, |blocks|);
  }

  // -------------------------------------------------------------- adding an entry

  lemma AscendingMore(es: seq<Pair>, e: Pair)
    requires Ascending(es, InternalLess) && (es != [] ==> InternalLess(es[|es| - 1].key, e.key))
    ensures Ascending(es + [e], InternalLess)
  {
    hide InternalLess;
    var r := es + [e];
    forall i, j | 0 <= i < j < |r| ensures InternalLess(r[i].key, r[j].key) {
      if j == |es| && i < |es| - 1 {
        InternalTransitive(es[i].key, es[|es| - 1].key, e.key);
      }
    }
  }

  /** The last entry so far. */
  function Last(blocks: seq<seq<Pair>>, cur: seq<Pair>): Option<Pair> {
    var all := Flat(blocks) + cur;
    if all == [] then None else Some(all[|all| - 1])
  }

  lemma OrderedMore(blocks: seq<seq<Pair>>, cur: seq<Pair>, e: Pair)
    requires Ordered(blocks, cur) && IsInternal(e.key)
    requires Last(blocks, cur).Some? ==> InternalLess(Last(blocks, cur).value.key, e.key)
    ensures Ordered(blocks, cur + [e])
  {
    hide InternalLess, Upto;
    var all := Flat(blocks) + cur;
    AscendingMore(all, e);
    assert Flat(blocks) + (cur + [e]) == all + [e];
  }

  lemma LastIsLater(blocks: seq<seq<Pair>>, cur: seq<Pair>, i: int)
    requires Ordered(blocks, cur) && 0 <= i < |blocks| && (i < |blocks| - 1 || cur != [])
    ensures Last(blocks, cur).Some? && Later(blocks, cur, i, Last(blocks, cur).value)
  {
    var all := Flat(blocks) + cur;
    if cur == [] {
      var b := blocks[|blocks| - 1];
      assert Flat(blocks) == Upto(blocks, |blocks| - 1) + b;
      assert all[|all| - 1] == b[|b| - 1];
      assert b[|b| - 1] in blocks[|blocks| - 1];
    } else {
      assert all[|all| - 1] == cur[|cur| - 1];
    }
  }

  /** A larger entry behind everything leaves an index key with something behind it in order. */
  lemma SepMore(blocks: seq<seq<Pair>>, cur: seq<Pair>, i: int, sep: Bytes, e: Pair)
    requires Ordered(blocks, cur) && 0 <= i < |blocks| && (i < |blocks| - 1 || cur != []) && IsInternal(e.key)
    requires SepOk(blocks, cur, i, sep) && Last(blocks, cur).Some? && InternalLess(Last(blocks, cur).value.key, e.key)
    ensures SepOk(blocks, cur + [e], i, sep)
  {
    hide InternalLess, Last, Ordered;
    LastIsLater(blocks, cur, i);
    var last := Last(blocks, cur).value;
    InternalTransitive(sep, last.key, e.key);
    forall x | Later(blocks, cur + [e], i, x) ensures x == e || Later(blocks, cur, i, x) {
      if x in cur + [e] && x !in cur { assert x == e; }
    }
    if !(blocks[i] != [] && sep == blocks[i][|blocks[i]| - 1].key) {
      UserBelow(last.key, e.key);
      assert BytesLess(UserKey(sep), UserKey(last.key));
      UserChain(UserKey(sep), UserKey(last.key), UserKey(e.key));
    }
  }

  lemma UserBelow(a: Bytes, b: Bytes)
    requires IsInternal(a) && IsInternal(b) && InternalLess(a, b)
    ensures !BytesLess(UserKey(b), UserKey(a))
  {
    NeverBoth(UserKey(a), UserKey(b));
    NeverBoth(UserKey(b), UserKey(a));
  }

  lemma UserChain(a: Bytes, b: Bytes, c: Bytes)
    requires BytesLess(a, b) && !BytesLess(c, b)
    ensures BytesLess(a, c)
  {
    RankOrder(a, b);
    RankOrder(c, b);
    RankOrder(a, c);
    RankOrder(b, c);
  }

  lemma SepsMore(blocks: seq<seq<Pair>>, cur: seq<Pair>, seps: seq<Bytes>, e: Pair)
    requires Ordered(blocks, cur) && SepsOk(blocks, cur, seps) && IsInternal(e.key)
    requires (cur == [] ==> |seps| < |blocks| || blocks == [])
    requires Last(blocks, cur).Some? ==> InternalLess(Last(blocks, cur).value.key, e.key)
    ensures SepsOk(blocks, cur + [e], seps)
  {
    hide SepOk, Ordered, InternalLess, Last, Shortened;
    forall i | 0 <= i < |seps| ensures SepOk(blocks, cur + [e], i, seps[i]) && SepIs(blocks, cur + [e], i, seps[i]) {
      LastIsLater(blocks, cur, i);
      SepMore(blocks, cur, i, seps[i], e);
      assert SepIs(blocks, cur, i, seps[i]) && NextKey(blocks, cur + [e], i) == NextKey(blocks, cur, i);
    }
  }

  // -------------------------------------------------------------- a new index key

  lemma {:induction false} NotBehindLast(es: seq<Pair>, k: nat)
    requires Ascending(es, InternalLess) && k < |es|
    ensures !InternalLess(es[|es| - 1].key, es[k].key)
  {
    hide InternalLess;
    InternalTotal(es[k].key, es[|es| - 1].key);
    if k < |es| - 1 {
      assert InternalLess(es[k].key, es[|es| - 1].key);
      if InternalLess(es[|es| - 1].key, es[k].key) {
        InternalTransitive(es[k].key, es[|es| - 1].key, es[k].key);
      }
    }
  }

  /** Not before the last key of a block: not before any of its keys. */
  lemma NotBeforeBlock(blocks: seq<seq<Pair>>, sep: Bytes, e: Pair)
    requires Ordered(blocks, []) && blocks != [] && e in blocks[|blocks| - 1]
    requires !InternalLess(sep, blocks[|blocks| - 1][|blocks[|blocks| - 1]| - 1].key)
    ensures !InternalLess(sep, e.key)
  {
    hide InternalLess;
    var b := blocks[|blocks| - 1];
    var last := b[|b| - 1].key;
    var i :| 0 <= i < |b| && b[i] == e;
    BlockAscending(blocks, |blocks| - 1);
    NotBehindLast(b, i);
    InternalTotal(sep, last);
    InternalTotal(e.key, last);
    if InternalLess(sep, e.key) && InternalLess(e.key, last) {
      InternalTransitive(sep, e.key, last);
    }
  }

  lemma BlockAscending(blocks: seq<seq<Pair>>, b: nat)
    requires Ordered(blocks, []) && b < |blocks|
    ensures Ascending(blocks[b], InternalLess)
  {
    hide InternalLess;
    var all := Flat(blocks) + [];
    forall i, j | 0 <= i < j < |blocks[b]| ensures InternalLess(blocks[b][i].key, blocks[b][j].key) {
      InFlat(blocks, b, i);
      InFlat(blocks, b, j);
      assert all[|Upto(blocks, b)| + i] == blocks[b][i] && all[|Upto(blocks, b)| + j] == blocks[b][j];
    }
  }

  /** The key put in the index for the last finished block when the next key is known. */
  lemma SepNew(blocks: seq<seq<Pair>>, e: Pair, sep: Bytes)
    requires Ordered(blocks, []) && blocks != [] && IsInternal(e.key)
    requires
      var b := blocks[|blocks| - 1];
      var last := b[|b| - 1].key;
      && IsInternal(last) && InternalLess(last, e.key)
      && sep == Shortened(last, Separator(UserKey(last), UserKey(e.key)))
    ensures SepOk(blocks, [e], |blocks| - 1, sep) && SepIs(blocks, [e], |blocks| - 1, sep)
  {
    hide InternalLess, Shortened;
    var b := blocks[|blocks| - 1];
    InternalBetween(b[|b| - 1].key, e.key);
    forall x | x in b ensures !InternalLess(sep, x.key) {
      NotBeforeBlock(blocks, sep, x);
    }
  }

  /** And when there is no next key. */
  lemma SepEnd(blocks: seq<seq<Pair>>, sep: Bytes)
    requires Ordered(blocks, []) && blocks != []
    requires
      var b := blocks[|blocks| - 1];
      IsInternal(b[|b| - 1].key) && sep == Shortened(b[|b| - 1].key, Successor(UserKey(b[|b| - 1].key)))
    ensures SepOk(blocks, [], |blocks| - 1, sep) && SepIs(blocks, [], |blocks| - 1, sep)
  {
    hide InternalLess, Shortened;
    var b := blocks[|blocks| - 1];
    InternalBehind(b[|b| - 1].key);
    forall x | x in b ensures !InternalLess(sep, x.key) {
      NotBeforeBlock(blocks, sep, x);
    }
  }

  // -------------------------------------------------------------- finishing a block

  lemma Flushed(blocks: seq<seq<Pair>>, cur: seq<Pair>, seps: seq<Bytes>)
    requires Ordered(blocks, cur) && SepsOk(blocks, cur, seps) && cur != []
    ensures Ordered(blocks + [cur], []) && SepsOk(blocks + [cur], [], seps)
  {
    hide InternalLess, SepIs;
    FlatMore(blocks, cur);
    var more := blocks + [cur];
    assert Flat(more) + [] == Flat(blocks) + cur;
    forall i | 0 <= i < |seps| ensures SepOk(more, [], i, seps[i]) && SepIs(more, [], i, seps[i]) {
      assert SepOk(blocks, cur, i, seps[i]);
      IsAfterFlush(blocks, cur, i, seps[i]);
      forall e | Later(more, [], i, e) ensures Later(blocks, cur, i, e) {
        var j :| i < j < |more| && 0 <= j && e in more[j];
        if j < |blocks| { assert e in blocks[j]; }
      }
    }
  }

  lemma IsAfterFlush(blocks: seq<seq<Pair>>, cur: seq<Pair>, i: nat, sep: Bytes)
    requires SepIs(blocks, cur, i, sep)
    ensures SepIs(blocks + [cur], [], i, sep)
  {
    hide Shortened, Separator, Successor;
    assert NextKey(blocks + [cur], [], i) == NextKey(blocks, cur, i);
  }

  /** With an index key for every block, the index separates the blocks. */
  lemma AllSeparated(blocks: seq<seq<Pair>>, seps: seq<Bytes>)
    requires Ordered(blocks, []) && SepsOk(blocks, [], seps) && |seps| == |blocks|
    ensures Separated(blocks, seps, InternalLess)
  {
    hide InternalLess, Ordered;
    forall i, p | 0 <= i < |blocks| && 0 <= p < |blocks[i]| ensures !InternalLess(seps[i], blocks[i][p].key) {
      assert SepOk(blocks, [], i, seps[i]);
      assert blocks[i][p] in blocks[i];
    }
    forall i, j, p | 0 <= i < j < |blocks| && 0 <= p < |blocks[j]| ensures InternalLess(seps[i], blocks[j][p].key) {
      assert SepOk(blocks, [], i, seps[i]);
      assert blocks[j][p] in blocks[j];
      assert Later(blocks, [], i, blocks[j][p]);
    }
    forall i, j | 0 <= i < j < |seps| ensures InternalLess(seps[i], seps[j]) {
      SepsAscend(blocks, seps, i, j);
    }
  }

  lemma SepsAscend(blocks: seq<seq<Pair>>, seps: seq<Bytes>, i: int, j: int)
    requires Ordered(blocks, []) && SepsOk(blocks, [], seps) && |seps| == |blocks| && 0 <= i < j < |seps|
    ensures InternalLess(seps[i], seps[j])
  {
    hide InternalLess;
    var e := blocks[j][0];
    assert e in blocks[j];
    assert SepOk(blocks, [], i, seps[i]) && SepOk(blocks, [], j, seps[j]);
    assert Later(blocks, [], i, e);
    InternalTotal(e.key, seps[j]);
    if InternalLess(e.key, seps[j]) {
      InternalTransitive(seps[i], e.key, seps[j]);
    }
  }

  // -------------------------------------------------------------- point lookups

  lemma InternalIsTotal()
    ensures Total(InternalLess)
  {
    hide InternalLess;
    forall a, b, c | InternalLess(a, b) && InternalLess(b, c) ensures InternalLess(a, c) {
      InternalTransitive(a, b, c);
    }
    forall a, b ensures !InternalLess(a, a) && (a == b || InternalLess(a, b) || InternalLess(b, a)) {
      InternalTotal(a, b);
    }
  }

  /** Looking only into the block the index names finds the flat list's first entry at or behind the target, or
      else that entry, if there is one, belongs to another user key. */
  lemma GetExact(blocks: seq<seq<Pair>>, seps: seq<Bytes>, k: Bytes)
    requires Ordered(blocks, []) && SepsOk(blocks, [], seps) && |seps| == |blocks| && IsInternal(k)
    ensures
      var i := LowerBound(Keyed(seps), InternalLess, k);
      var flat := Flat(blocks);
      var at := LowerBound(flat, InternalLess, k);
      i <= |blocks| &&
      if i < |blocks| && LowerBound(blocks[i], InternalLess, k) < |blocks[i]| then
        at < |flat| && flat[at] == blocks[i][LowerBound(blocks[i], InternalLess, k)]
      else at == |flat| || (IsInternal(flat[at].key) && UserKey(flat[at].key) != UserKey(k))
  {
    hide InternalLess, Total, Separated, SepsOk, Upto, LowerBound;
    InternalIsTotal();
    AllSeparated(blocks, seps);
    FlatBound(blocks, seps, InternalLess, k);
    var i := LowerBound(Keyed(seps), InternalLess, k);
    if i < |blocks| {
      var p := LowerBound(blocks[i], InternalLess, k);
      InFlat(blocks, i, p);
      if p == |blocks[i]| && |Upto(blocks, i + 1)| < |Flat(blocks)| {
        Missed(blocks, seps, k, i);
      }
    }
  }

  lemma Missed(blocks: seq<seq<Pair>>, seps: seq<Bytes>, k: Bytes, i: nat)
    requires Ordered(blocks, []) && SepsOk(blocks, [], seps) && |seps| == |blocks| && IsInternal(k) && i < |blocks|
    requires !InternalLess(seps[i], k) && forall e | e in blocks[i] :: InternalLess(e.key, k)
    requires |Upto(blocks, i + 1)| < |Flat(blocks)|
    ensures
      var e := Flat(blocks)[|Upto(blocks, i + 1)|];
      IsInternal(e.key) && UserKey(e.key) != UserKey(k)
  {
    hide InternalLess, BytesLess, Upto;
    var at := |Upto(blocks, i + 1)|;
    var j, q := Locate(blocks, i + 1, at);
    InFlat(blocks, j, q);
    var e, b, sep := blocks[j][q], blocks[i], seps[i];
    assert e in blocks[j] && Later(blocks, [], i, e) && SepOk(blocks, [], i, sep);
    assert b[|b| - 1] in b;
    NotSame(sep, k, e.key);
  }

  lemma NotSame(sep: Bytes, k: Bytes, e: Bytes)
    requires IsInternal(sep) && IsInternal(k) && IsInternal(e) && !InternalLess(sep, k)
    ensures BytesLess(UserKey(sep), UserKey(e)) ==> UserKey(e) != UserKey(k)
  {
  }
}
