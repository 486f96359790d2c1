/**
 Reading a table: a point lookup through the index, the filter and one block.
 */
module TableReads {
  import opened Entries
  import opened Coding
  import opened Blocks
  import opened BlockIters
  import opened TwoLevel
  import opened Comparators
  import opened TableOrder
  import opened TableFormat
  import opened Tables
  import opened FilterPolicies
  import FB = FilterBlocks

  /** No key is longer than the bytes it can be put together from. */
  lemma {:induction false} KeyLength(es: seq<Pair>, shares: seq<nat>, i: nat)
    requires SharesOk(es, shares) && i < |es|
    ensures |es[i].key| <= Off(es, shares, i + 1)
    decreases i
  {
    hide Data, Piece;
    PieceLength(es[i], shares[i]);
    OffNext(es, shares, i);
    if i > 0 {
      KeyLength(es, shares, i - 1);
    }
  }

  lemma BuiltReadable(b: Built, es: seq<Pair>, shares: seq<nat>, heads: seq<nat>)
    requires Encodes(b, es, shares, heads) && |Finished(b)| < TWO_32
    ensures
      var data := Finished(b);
      |data| >= 4 &&
      var num := DecodeFixed32(data[|data| - 4..]);
      && num == |heads| && (1 + num) * 4 <= |data| && |data| - (1 + num) * 4 == |b.buffer|
      && Readable(data, |b.buffer|, es, shares, heads)
  {
    hide Data, Readable, DecodeFixed32, Off, Fixed;
    forall k | 0 <= k < |es| ensures |es[k].key| < TWO_32 {
      KeyLength(es, shares, k);
      OffBound(es, shares, k + 1);
      BufferIs(b, es, shares, heads);
    }
    FinishedReadable(b, es, shares, heads);
  }

  lemma BufferIs(b: Built, es: seq<Pair>, shares: seq<nat>, heads: seq<nat>)
    requires Encodes(b, es, shares, heads)
    ensures Off(es, shares, |es|) == |b.buffer| <= |Finished(b)|
  {
  }

  /** Block::NewIterator on the contents of a block that was built. */
  method OpenBlock(data: Bytes, less: (Bytes, Bytes) -> bool, ghost b: Built, ghost es: seq<Pair>, ghost shares: seq<nat>,
                   ghost heads: seq<nat>) returns (iter: Iter)
    requires Encodes(b, es, shares, heads) && data == Finished(b) && |data| < TWO_32
    ensures fresh(iter) && iter.Valid() && iter.es == es && iter.less == less
  {
    hide Encodes, Readable, DecodeFixed32, Finished;
    BuiltReadable(b, es, shares, heads);
    var num := DecodeFixed32(data[|data| - 4..]);
    iter := new Iter(data, less, |data| - (1 + num) * 4, num, es, shares, heads);
  }

  /** Seek a block that was built and in order. */
  method SeekBlock(iter: Iter, k: Bytes)
    requires iter.Valid() && iter.less == InternalLess && Ascending(iter.es, InternalLess)
    modifies iter
    ensures iter.Valid() && iter.pos == LowerBound(iter.es, InternalLess, k)
  {
    hide Readable, Bisect, Transitive, Ascending, InternalLess;
    InternalIsTotal();
    iter.Seek(k);
  }

  method CurrentEntry(iter: Iter) returns (r: Option<Pair>)
    requires iter.Valid()
    ensures r == if iter.pos < |iter.es| then Some(iter.es[iter.pos]) else None
  {
    hide Readable;
    if iter.current < iter.restarts {
      r := Some(Pair(iter.key, iter.data[iter.valueStart..iter.valueStart + iter.valueLength]));
    } else {
      r := None;
    }
  }

  lemma FilterAnswers(create: seq<Bytes> -> Bytes, may: (Bytes, Bytes) -> bool, l: Layout, i: nat, p: nat, k: Bytes)
    requires PolicyOk(create, may) && AllInLists(l.parts, l.lists) && |FB.Contents(create, l.lists)| < TWO_32
    requires i < |l.parts| && p < |l.parts[i].es| && IsInternal(l.parts[i].es[p].key) && IsInternal(k)
    requires UserKey(l.parts[i].es[p].key) == UserKey(k)
    ensures FB.MayMatch(FB.Contents(create, l.lists), may, l.parts[i].handle.offset, k)
  {
    hide FB.Contents, FB.MayMatch;
    var e, off := l.parts[i].es[p], l.parts[i].handle.offset;
    assert e in l.parts[i].es;
    FB.MatchIs(create, may, l.lists, off, k);
    assert e.key in l.lists[off / FB.BASE];
  }

  lemma IndexKeys(parts: seq<Part>, seps: seq<Bytes>, k: Bytes)
    requires |seps| <= |parts|
    ensures LowerBound(IndexOf(parts, seps), InternalLess, k) == LowerBound(Keyed(seps), InternalLess, k)
  {
    hide HandleBytes;
    LowerBoundIs(IndexOf(parts, seps), InternalLess, k, LowerBound(Keyed(seps), InternalLess, k));
  }

  lemma IndexAscends(parts: seq<Part>, seps: seq<Bytes>)
    requires |seps| == |parts| && Ordered(BlocksOf(parts), []) && SepsOk(BlocksOf(parts), [], seps)
    ensures Ascending(IndexOf(parts, seps), InternalLess)
  {
    hide HandleBytes, InternalLess, Ordered, SepsOk;
    AllSeparated(BlocksOf(parts), seps);
  }

  /** What a lookup of `k` in the table must answer: the first entry at or behind k, which may only be missed when it
      belongs to another user key. */
  ghost predicate Answers(parts: seq<Part>, k: Bytes, r: Option<Pair>)
    requires IsInternal(k)
  {
    var flat := Flat(BlocksOf(parts));
    var at := LowerBound(flat, InternalLess, k);
    if r.Some? then at < |flat| && flat[at] == r.value
    else at == |flat| || (IsInternal(flat[at].key) && UserKey(flat[at].key) != UserKey(k))
  }

  /** Block offsets are 64-bit, the offsets within a block 32-bit. */
  ghost predicate Addressable(file: Bytes, l: Layout, filtering: bool, create: seq<Bytes> -> Bytes) {
    && |file| < TWO_64 && |Finished(l.index)| < TWO_32 && |Finished(l.meta.built)| < TWO_32 && (forall p | p in l.parts :: |Finished(p.built)| < TWO_32)
    && (filtering ==> |FB.Contents(create, l.lists)| < TWO_32)
  }

  class Table {
    const file: Bytes
    const verify: bool
    const filtering: bool // a filter was found
    const indexHandle: Handle
    const filterHandle: Handle
    const may: (Bytes, Bytes) -> bool
    ghost const create: seq<Bytes> -> Bytes
    ghost const built: bool // with a filter
    ghost const l: Layout

    ghost predicate Valid() {
      && WellBuilt(file, l, built, create) && Addressable(file, l, built, create) && indexHandle == l.indexHandle
      && (filtering ==> built && filterHandle == l.filterHandle && PolicyOk(create, may))
    }

    constructor (file: Bytes, verify: bool, filtering: bool, indexHandle: Handle, filterHandle: Handle,
                 may: (Bytes, Bytes) -> bool, ghost create: seq<Bytes> -> Bytes, ghost built: bool, ghost l: Layout)
      requires WellBuilt(file, l, built, create) && Addressable(file, l, built, create) && indexHandle == l.indexHandle
      requires filtering ==> built && filterHandle == l.filterHandle && PolicyOk(create, may)
      ensures Valid() && this.l == l && this.filtering == filtering
    {
      this.file, this.verify, this.filtering, this.indexHandle, this.filterHandle := file, verify, filtering, indexHandle, filterHandle;
      this.may, this.create, this.built, this.l := may, create, built, l;
    }

    /** The block the index names for `k`: its number and its handle. */
    method FindBlock(k: Bytes) returns (h: Option<Handle>, ghost i: nat)
      requires Valid() && IsInternal(k)
      ensures i == LowerBound(Keyed(l.seps), InternalLess, k) <= |l.parts|
      ensures h == if i < |l.parts| then Some(l.parts[i].handle) else None
    {
      hide InternalLess, Ordered, SepsOk, Encodes, HoldsRaw, PartsStored, HandleBytes, GetHandle, AllInLists, PolicyOk;
      ReadRaw(file, indexHandle, Finished(l.index), verify);
      var contents := ReadBlock(file, indexHandle, verify);
      var iiter := OpenBlock(contents.value, InternalLess, l.index, IndexOf(l.parts, l.seps), l.indexShares, l.indexHeads);
      IndexAscends(l.parts, l.seps);
      SeekBlock(iiter, k);
      IndexKeys(l.parts, l.seps, k);
      i := iiter.pos;
      var entry := CurrentEntry(iiter);
      if entry.None? {
        h := None;
      } else {
        HandleIs(file, l.parts, i);
        h := GetHandle(entry.value.value);
      }
    }

    /** BlockReader and the seek in the block. */
    method SeekInBlock(h: Handle, k: Bytes, ghost i: nat) returns (r: Option<Pair>)
      requires Valid() && i < |l.parts| && h == l.parts[i].handle
      ensures
        var es := l.parts[i].es;
        var p := LowerBound(es, InternalLess, k);
        r == if p < |es| then Some(es[p]) else None
    {
      hide InternalLess, Ordered, SepsOk, Encodes, HoldsRaw, AllInLists, PolicyOk;
      ghost var part := l.parts[i];
      assert PartStored(file, part);
      ReadRaw(file, h, Finished(part.built), verify);
      assert part in l.parts;
      var contents := ReadBlock(file, h, verify);
      var iter := OpenBlock(contents.value, InternalLess, part.built, part.es, part.shares, part.heads);
      BlockAscending(BlocksOf(l.parts), i);
      SeekBlock(iter, k);
      r := CurrentEntry(iter);
    }

    /** InternalGet: what is handed to the saver, if anything. */
    method InternalGet(k: Bytes) returns (r: Option<Pair>)
      requires Valid() && IsInternal(k)
      ensures Answers(l.parts, k, r)
    {
      hide InternalLess, Ordered, SepsOk, Encodes, HoldsRaw, PartsStored, AllInLists, PolicyOk, FB.MayMatch, FB.Contents, Flat, LowerBound;
      GetExact(BlocksOf(l.parts), l.seps, k);
      var h, i := FindBlock(k);
      if h.None? {
        return None;
      }
      if filtering {
        ReadRaw(file, filterHandle, FB.Contents(create, l.lists), verify);
        var contents := ReadBlock(file, filterHandle, verify);
        if !FB.MayMatch(contents.value, may, h.value.offset, k) {
          NotStored(l, create, may, i, k);
          return None;
        }
      }
      r := SeekInBlock(h.value, k, i);
    }
  }

  lemma NotStored(l: Layout, create: seq<Bytes> -> Bytes, may: (Bytes, Bytes) -> bool, i: nat, k: Bytes)
    requires PolicyOk(create, may) && AllInLists(l.parts, l.lists) && |FB.Contents(create, l.lists)| < TWO_32
    requires Ordered(BlocksOf(l.parts), []) && i < |l.parts| && IsInternal(k)
    requires !FB.MayMatch(FB.Contents(create, l.lists), may, l.parts[i].handle.offset, k)
    ensures forall p | 0 <= p < |l.parts[i].es| ::
      IsInternal(l.parts[i].es[p].key) && UserKey(l.parts[i].es[p].key) != UserKey(k)
  {
    hide FB.Contents, FB.MayMatch, InternalLess, AllInLists, PolicyOk;
    forall p | 0 <= p < |l.parts[i].es|
      ensures IsInternal(l.parts[i].es[p].key) && UserKey(l.parts[i].es[p].key) != UserKey(k)
    {
      var blocks := BlocksOf(l.parts);
      InFlat(blocks, i, p);
      assert l.parts[i].es[p] in Flat(blocks) + [];
      if UserKey(l.parts[i].es[p].key) == UserKey(k) {
        FilterAnswers(create, may, l, i, p, k);
      }
    }
  }

  lemma HandleIs(file: Bytes, parts: seq<Part>, i: nat)
    requires PartsStored(file, parts) && i < |parts| && |file| < TWO_64
    ensures GetHandle(HandleBytes(parts[i].handle)) == Some(parts[i].handle)
  {
    hide GetHandle, HandleBytes;
    assert PartStored(file, parts[i]);
    HandleRound(parts[i].handle, []);
    assert HandleBytes(parts[i].handle) + [] == HandleBytes(parts[i].handle);
  }

  // -------------------------------------------------------------- opening a table

  /** The first thing Table::Open does, on any bytes. */
  function ReadFooter(file: Bytes): Option<(Handle, Handle)> {
    if |file| < FOOTER then None else DecodeFooter(file[|file| - FOOTER..])
  }

  lemma FooterRead(file: Bytes, l: Layout, filtering: bool, create: seq<Bytes> -> Bytes)
    requires WellBuilt(file, l, filtering, create) && |file| < TWO_64
    ensures ReadFooter(file) == Some((l.metaHandle, l.indexHandle))
    ensures filtering ==> GetHandle(HandleBytes(l.filterHandle)) == Some(l.filterHandle)
  {
    hide Encodes, Ordered, SepsOk, PartsStored, AllInLists, HandleBytes, GetHandle, FooterBytes, DecodeFooter, FB.Contents, HoldsRaw, Finished,
         MetaEntries;
    RawFits(file, l.metaHandle, Finished(l.meta.built));
    RawFits(file, l.indexHandle, Finished(l.index));
    if filtering { RawFits(file, l.filterHandle, FB.Contents(create, l.lists)); }
    FooterRound(l.metaHandle, l.indexHandle);
    if filtering {
      HandleRound(l.filterHandle, []);
      assert HandleBytes(l.filterHandle) + [] == HandleBytes(l.filterHandle);
    }
  }

  lemma RawFits(file: Bytes, h: Handle, contents: Bytes)
    requires HoldsRaw(file, h, contents) && |file| < TWO_64
    ensures HandleOk(h)
  {
  }

  lemma BytesTransitive()
    ensures Transitive(BytesLess)
  {
    forall a, b, c | BytesLess(a, b) && BytesLess(b, c) ensures BytesLess(a, c) { LessLess(a, b, c); }
  }

  /** ReadMeta: the filter's handle, if the table was built with a filter of this name. */
  method ReadMeta(file: Bytes, verify: bool, metaHandle: Handle, name: Bytes, ghost l: Layout, ghost filtering: bool,
                  ghost create: seq<Bytes> -> Bytes) returns (h: Option<Handle>)
    requires WellBuilt(file, l, filtering, create) && Addressable(file, l, filtering, create) && metaHandle == l.metaHandle
    ensures h == if filtering && name == l.name then Some(l.filterHandle) else None
  {
    hide Encodes, Ordered, SepsOk, PartsStored, AllInLists, HandleBytes, GetHandle, FooterBytes, FilterStored, HoldsRaw, Finished, BytesLess,
         LowerBound, Transitive;
    ReadRaw(file, metaHandle, Finished(l.meta.built), verify);
    var contents := ReadBlock(file, metaHandle, verify);
    ghost var es := MetaEntries(filtering, l.name, l.filterHandle);
    var iter := OpenBlock(contents.value, BytesLess, l.meta.built, es, l.meta.shares, l.meta.heads);
    BytesTransitive();
    iter.Seek(FilterKey(name));
    MetaFound(es, filtering, l.name, l.filterHandle, name);
    var entry := CurrentEntry(iter);
    FooterRead(file, l, filtering, create);
    h := if entry.Some? && entry.value.key == FilterKey(name) then GetHandle(entry.value.value) else None;
  }

  lemma MetaFound(es: seq<Pair>, filtering: bool, built: Bytes, h: Handle, name: Bytes)
    requires es == MetaEntries(filtering, built, h)
    ensures Ascending(es, BytesLess)
    ensures var p := LowerBound(es, BytesLess, FilterKey(name));
            p <= |es| && (p < |es| && es[p].key == FilterKey(name) <==> filtering && built == name)
  {
    hide HandleBytes;
    var key := FilterKey(name);
    NeverBoth(key, key);
    if filtering {
      if built == name {
        LowerBoundIs(es, BytesLess, key, 0);
      } else {
        assert FilterKey(built)[7..] == built && key[7..] == name;
      }
    }
  }

  /** Table::Open on a file that was built; `name` is the reader's filter policy, if it has one. */
  method OpenTable(file: Bytes, verify: bool, name: Option<Bytes>, may: (Bytes, Bytes) -> bool,
                   ghost l: Layout, ghost built: bool, ghost create: seq<Bytes> -> Bytes) returns (t: Table)
    requires WellBuilt(file, l, built, create) && Addressable(file, l, built, create)
    requires name == Some(l.name) ==> PolicyOk(create, may)
    ensures fresh(t) && t.Valid() && t.l == l && t.filtering == (built && name == Some(l.name))
  {
    hide WellBuilt, PolicyOk, DecodeFooter;
    FooterRead(file, l, built, create);
    var footer := ReadFooter(file).value;
    var h: Option<Handle> := None;
    if name.Some? {
      h := ReadMeta(file, verify, footer.0, name.value, l, built, create);
    }
    t := new Table(file, verify, h.Some?, footer.1, if h.Some? then h.value else Handle(0, 0), may, create, built, l);
  }

  /** A table built and opened with the Bloom filter of its user keys: nothing is assumed of the policy. */
  method OpenBloomTable(file: Bytes, verify: bool, name: Bytes, hash: Bytes -> Word32, bitsPerKey: nat, k: Byte,
                        ghost l: Layout, ghost built: bool) returns (t: Table)
    requires WellBuilt(file, l, built, InternalCreate(BloomCreate(hash, bitsPerKey, k)))
    requires Addressable(file, l, built, InternalCreate(BloomCreate(hash, bitsPerKey, k)))
    ensures fresh(t) && t.Valid() && t.l == l && t.filtering == (built && name == l.name)
  {
    hide WellBuilt, Addressable, PolicyOk;
    BloomPolicyOk(hash, bitsPerKey, k);
    t := OpenTable(file, verify, Some(name), InternalMay(BloomMay(hash)), l, built, InternalCreate(BloomCreate(hash, bitsPerKey, k)));
  }
}
