/**
 Tables: entries in blocks of bounded size, each block followed by its type and checksum,
 an index block of separator keys and block handles, and an optional filter block.
 */
module Tables {
  import opened Entries
  import opened Blocks
  import opened BlockIters
  import opened TwoLevel
  import opened Comparators
  import opened TableOrder
  import opened TableFormat
  import FB = FilterBlocks

  // -------------------------------------------------------------- finished blocks

  datatype Part = Part(es: seq<Pair>, shares: seq<nat>, heads: seq<nat>, built: Built, handle: Handle)

  ghost predicate PartStored(file: Bytes, part: Part) {
    Encodes(part.built, part.es, part.shares, part.heads) && HoldsRaw(file, part.handle, Finished(part.built))
  }

  /** Every block is where its handle says, one behind the other. */
  ghost predicate PartsStored(file: Bytes, parts: seq<Part>) {
    && (forall i | 0 <= i < |parts| :: PartStored(file, parts[i]))
    && (forall i, j | 0 <= i < j < |parts| :: parts[i].handle.offset < parts[j].handle.offset)
  }

  lemma PartsMore(file: Bytes, more: Bytes, parts: seq<Part>, part: Part)
    requires PartsStored(file, parts) && PartStored(file + more, part) && part.handle.offset == |file|
    ensures PartsStored(file + more, parts + [part])
  {
    hide HoldsRaw, Encodes;
    PartsKept(file, more, parts);
    forall i | 0 <= i < |parts| ensures parts[i].handle.offset < |file| {
      assert PartStored(file, parts[i]);
      RawInside(file, parts[i].handle, Finished(parts[i].built));
    }
  }

  lemma RawInside(file: Bytes, h: Handle, contents: Bytes)
    requires HoldsRaw(file, h, contents)
    ensures h.offset < |file|
  {
  }

  lemma PartsKept(file: Bytes, more: Bytes, parts: seq<Part>)
    requires PartsStored(file, parts)
    ensures PartsStored(file + more, parts)
  {
    hide HoldsRaw, Encodes;
    forall i | 0 <= i < |parts| ensures PartStored(file + more, parts[i]) {
      RawKept(file, more, parts[i].handle, Finished(parts[i].built));
    }
  }

  function BlocksOf(parts: seq<Part>): (r: seq<seq<Pair>>)
    ensures |r| == |parts| && forall i | 0 <= i < |parts| :: r[i] == parts[i].es
  {
    seq(|parts|, i requires 0 <= i < |parts| => parts[i].es)
  }

  function IndexOf(parts: seq<Part>, seps: seq<Bytes>): (r: seq<Pair>)
    requires |seps| <= |parts|
    ensures |r| == |seps| && forall i | 0 <= i < |seps| :: r[i] == Pair(seps[i], HandleBytes(parts[i].handle))
  {
    seq(|seps|, i requires 0 <= i < |seps| => Pair(seps[i], HandleBytes(parts[i].handle)))
  }

  // -------------------------------------------------------------- where blocks are cut

  /** The size of the finished block of these entries. */
  ghost function BlockBytes(interval: nat, es: seq<Pair>): nat {
    |Finished(BuiltOf(interval, es))|
  }

  /** No block went on after it had reached the size. */
  ghost predicate InTime(interval: nat, blockSize: nat, es: seq<Pair>) {
    forall n | 0 < n < |es| :: BlockBytes(interval, es[..n]) < blockSize
  }

  /** Blocks hold what their entries build, none went on after it had reached the size, and all had reached it but
      those in `early`. */
  ghost predicate CutBySize(interval: nat, blockSize: nat, parts: seq<Part>, early: set<int>) {
    forall i | 0 <= i < |parts| ::
      && parts[i].built == BuiltOf(interval, parts[i].es) && InTime(interval, blockSize, parts[i].es)
      && (i !in early ==> BlockBytes(interval, parts[i].es) >= blockSize)
  }

  lemma CutMore(interval: nat, blockSize: nat, parts: seq<Part>, early: set<int>, part: Part, early': set<int>)
    requires CutBySize(interval, blockSize, parts, early) && early <= early'
    requires part.built == BuiltOf(interval, part.es) && InTime(interval, blockSize, part.es)
    requires |parts| in early' || BlockBytes(interval, part.es) >= blockSize
    ensures CutBySize(interval, blockSize, parts + [part], early')
  {
    hide InTime, BlockBytes, BuiltOf;
  }

  lemma CutIs(interval: nat, blockSize: nat, parts: seq<Part>, early: set<int>, i: nat)
    requires CutBySize(interval, blockSize, parts, early) && i < |parts| && BlockBytes(interval, parts[i].es) >= blockSize
    ensures CutBySize(interval, blockSize, parts, early - {i})
  {
    hide InTime, BlockBytes, BuiltOf;
  }

  lemma InTimeMore(interval: nat, blockSize: nat, es: seq<Pair>, e: Pair)
    requires InTime(interval, blockSize, es) && (es != [] ==> BlockBytes(interval, es) < blockSize)
    ensures InTime(interval, blockSize, es + [e])
  {
    hide BlockBytes;
    forall n | 0 < n < |es| + 1 ensures BlockBytes(interval, (es + [e])[..n]) < blockSize {
      assert (es + [e])[..n] == es[..n];
      assert n == |es| ==> es[..n] == es;
    }
  }

  // -------------------------------------------------------------- filter keys

  ghost predicate KeyFiled(lists: seq<seq<Bytes>>, pending: seq<Bytes>, slot: nat, key: Bytes) {
    if slot < |lists| then key in lists[slot] else slot == |lists| && key in pending
  }

  /** Every stored key is, or will be, in the filter for the offset of its block. */
  ghost predicate AllFiled(parts: seq<Part>, cur: seq<Pair>, offset: nat, lists: seq<seq<Bytes>>, pending: seq<Bytes>) {
    && |lists| == offset / FB.BASE && (forall e | e in cur :: e.key in pending)
    && (forall i, e | 0 <= i < |parts| && e in parts[i].es ::
          KeyFiled(lists, pending, parts[i].handle.offset / FB.BASE, e.key))
  }

  lemma FiledNext(parts: seq<Part>, cur: seq<Pair>, offset: nat, lists: seq<seq<Bytes>>, pending: seq<Bytes>, part: Part,
                  offset': nat, lists': seq<seq<Bytes>>, pending': seq<Bytes>)
    requires AllFiled(parts, cur, offset, lists, pending) && part.es == cur && part.handle.offset == offset
    requires |lists'| == offset' / FB.BASE >= |lists|
    requires |lists'| == |lists| ==> lists' == lists && pending' == pending
    requires |lists'| > |lists| ==> pending' == [] && lists'[..|lists|] == lists && lists'[|lists|] == pending
    ensures AllFiled(parts + [part], [], offset', lists', pending')
  {
    var more := parts + [part];
    forall i, e | 0 <= i < |more| && e in more[i].es
      ensures KeyFiled(lists', pending', more[i].handle.offset / FB.BASE, e.key)
    {
      var slot := more[i].handle.offset / FB.BASE;
      assert KeyFiled(lists, pending, slot, e.key) by {
        if i < |parts| { assert more[i] == parts[i]; }
      }
      if |lists'| > |lists| && slot < |lists| { assert lists'[slot] == lists'[..|lists|][slot]; }
    }
  }

  // -------------------------------------------------------------- the builder

  class TableBuilder {
    const blockSize: nat
    const filtering: bool
    const name: Bytes // the filter policy's
    const dataBlock: BlockBuilder
    const indexBlock: BlockBuilder
    const filter: FB.FilterBlockBuilder
    var file: Bytes // written so far; its length is the offset
    var lastKey: Bytes
    var pendingIndexEntry: bool
    var pendingHandle: Handle
    ghost var parts: seq<Part>    // blocks finished and written
    ghost var seps: seq<Bytes>    // index keys added
    ghost var cur: seq<Pair>      // entries of the block being built
    ghost var curShares: seq<nat>
    ghost var curHeads: seq<nat>
    ghost var indexShares: seq<nat>
    ghost var indexHeads: seq<nat>
    ghost var early: set<int>     // blocks that a call of Flush ended

    ghost predicate DataOk()
      reads this, dataBlock
    {
      dataBlock.interval >= 1 && Encodes(dataBlock.View(), cur, curShares, curHeads)
    }

    ghost predicate SizesOk()
      reads this, dataBlock
    {
      && dataBlock.View() == BuiltOf(dataBlock.interval, cur) && InTime(dataBlock.interval, blockSize, cur)
      && CutBySize(dataBlock.interval, blockSize, parts, early) && forall i | i in early :: i < |parts|
    }

    ghost predicate IndexOk()
      reads this, indexBlock
    {
      indexBlock.interval >= 1 && |seps| <= |parts| && Encodes(indexBlock.View(), IndexOf(parts, seps), indexShares, indexHeads)
    }

    ghost predicate FilterOk()
      reads this, filter
    {
      filtering ==> filter.Valid() && AllFiled(parts, cur, |file|, filter.lists, filter.pending)
    }

    ghost predicate Cut()
      reads this
    {
      && Ordered(BlocksOf(parts), cur) && SepsOk(BlocksOf(parts), cur, seps)
      && (Last(BlocksOf(parts), cur).Some? ==> lastKey == Last(BlocksOf(parts), cur).value.key)
      && if pendingIndexEntry then
           cur == [] && parts != [] && |seps| == |parts| - 1 && pendingHandle == parts[|parts| - 1].handle
         else |seps| == |parts| && (cur == [] ==> parts == [])
    }

    /** Everything but that the open block is still below the block size. */
    ghost predicate Consistent()
      reads this, dataBlock, indexBlock, filter
    {
      dataBlock != indexBlock && DataOk() && SizesOk() && IndexOk() && FilterOk() && Cut() && PartsStored(file, parts)
    }

    ghost predicate Valid()
      reads this, dataBlock, indexBlock, filter
    {
      Consistent() && (cur != [] ==> BlockBytes(dataBlock.interval, cur) < blockSize)
    }

    /** Everything added so far, in order. */
    ghost function Added(): seq<Pair>
      reads this
    {
      Flat(BlocksOf(parts)) + cur
    }

    constructor (blockSize: nat, interval: nat, filtering: bool, name: Bytes, create: seq<Bytes> -> Bytes)
      requires interval >= 1
      ensures Valid() && Added() == [] && early == {} && fresh(dataBlock) && fresh(indexBlock) && fresh(filter)
      ensures this.blockSize == blockSize && dataBlock.interval == interval
      ensures this.filtering == filtering && this.name == name && filter.create == create
    {
      hide Encodes, Ordered, SepsOk, AllFiled, PartsStored, CutBySize, InTime, BuiltOf, BlocksOf, IndexOf, Flat, Last, BlockBytes,
           FB.FilterBlockBuilder.Valid;
      this.blockSize, this.filtering, this.name := blockSize, filtering, name;
      dataBlock := new BlockBuilder(interval);
      indexBlock := new BlockBuilder(1);
      filter := new FB.FilterBlockBuilder(create);
      file, lastKey, pendingIndexEntry, pendingHandle := [], [], false, Handle(0, 0);
      parts, seps, cur, early := [], [], [], {};
      curShares, curHeads, indexShares, indexHeads := [], [0], [], [0];
      new;
      EmptyEncodes();
      NothingBuilt(interval, blockSize);
      NothingAdded(interval, blockSize);
    }

    /** The index entry of the last finished block, now that the key behind it is known. */
    method AddIndexEntry(key: Bytes, ghost e: Pair)
      requires pendingIndexEntry && IndexOk() && Cut() && IsInternal(key) && e.key == key
      requires Last(BlocksOf(parts), cur).Some? ==> InternalLess(Last(BlocksOf(parts), cur).value.key, key)
      modifies this`lastKey, this`seps, this`indexShares, this`indexHeads, this`pendingIndexEntry, indexBlock
      ensures !pendingIndexEntry && |seps| == |parts| && IndexOk()
      ensures SepsOk(BlocksOf(parts), [e], seps)
    {
      hide Encodes, SepOk, Ordered, InternalLess, Shortened, AllFiled, PartsStored, SepsOk, AddTo, IndexOf, Flat, FB.FilterBlockBuilder.Valid, HandleBytes,
           CutBySize, InTime, BuiltOf, BlockBytes;
      LastBlock(BlocksOf(parts));
      ghost var blocks := BlocksOf(parts);
      lastKey := InternalSeparator(lastKey, key);
      SepNew(blocks, e, lastKey);
      SepsMoreButLast(blocks, seps, e);
      var encoding := HandleBytes(pendingHandle);
      indexBlock.Add(lastKey, encoding);
      ghost var index := IndexOf(parts, seps);
      ghost var shares, heads := AddKeeps(old(indexBlock.View()), indexBlock.interval, Pair(lastKey, encoding), index, indexShares, indexHeads);
      IndexAppend(parts, seps, lastKey);
      SepsAppend(blocks, [e], seps, lastKey);
      seps := seps + [lastKey];
      indexShares, indexHeads := shares, heads;
      pendingIndexEntry := false;
    }

    /** The table is cut as it will be with `e` in the current block. */
    ghost predicate ReadyFor(e: Pair)
      reads this, dataBlock, indexBlock, filter
    {
      && dataBlock != indexBlock && DataOk() && SizesOk() && IndexOk() && FilterOk() && PartsStored(file, parts)
      && (cur != [] ==> BlockBytes(dataBlock.interval, cur) < blockSize)
      && !pendingIndexEntry && |seps| == |parts|
      && Ordered(BlocksOf(parts), cur + [e]) && SepsOk(BlocksOf(parts), cur + [e], seps)
    }

    method Add(key: Bytes, value: Bytes)
      requires Valid() && IsInternal(key)
      requires Last(BlocksOf(parts), cur).Some? ==> InternalLess(Last(BlocksOf(parts), cur).value.key, key)
      modifies this, dataBlock, indexBlock, filter
      ensures Valid() && Added() == old(Added()) + [Pair(key, value)] && early == old(early)
    {
      hide Encodes, SepOk, Ordered, InternalLess, PartsStored, FB.FilterBlockBuilder.Valid, Last, SepsOk, Flat, AllFiled,
           CutBySize, InTime, BuiltOf, Finished;
      ghost var e, blocks := Pair(key, value), BlocksOf(parts);
      OrderedMore(blocks, cur, e);
      if pendingIndexEntry {
        AddIndexEntry(key, e);
        assert cur + [e] == [e];
      } else {
        SepsMore(blocks, cur, seps, e);
      }
      AddEntry(key, value);
      var estimate := |dataBlock.buffer| + |dataBlock.restarts| * 4 + 4;
      FinishedSize(dataBlock.View());
      if estimate >= blockSize {
        FlushFull();
      }
    }

    /** A flush of a block that has reached the block size. */
    method FlushFull()
      requires Consistent() && cur != [] && BlockBytes(dataBlock.interval, cur) >= blockSize
      modifies this, dataBlock, filter
      ensures Valid() && Added() == old(Added()) && early == old(early)
    {
      hide Encodes, SepOk, Ordered, InternalLess, PartsStored, FB.FilterBlockBuilder.Valid, Last, SepsOk, Flat, AllFiled,
           CutBySize, InTime, BuiltOf, BlockBytes, BlocksOf, IndexOf;
      ghost var n := |parts|;
      Flush();
      CutIs(dataBlock.interval, blockSize, parts, early, n);
      early := early - {n};
    }

    method AddEntry(key: Bytes, value: Bytes)
      requires ReadyFor(Pair(key, value))
      modifies this, dataBlock, filter
      ensures Consistent() && Added() == old(Added()) + [Pair(key, value)]
      ensures cur == old(cur) + [Pair(key, value)] && unchanged(this`early) && unchanged(this`parts)
    {
      hide Encodes, SepOk, Ordered, InternalLess, PartsStored, FB.FilterBlockBuilder.Valid, Last, SepsOk, Flat, AddTo, AllFiled,
           CutBySize, InTime, BuiltOf, BlockBytes;
      ghost var e := Pair(key, value);
      if filtering {
        AddFilterKey(key, e);
      }
      lastKey := key;
      ghost var shares, heads := AddKeeps(dataBlock.View(), dataBlock.interval, e, cur, curShares, curHeads);
      BuiltMore(dataBlock.interval, cur, e);
      InTimeMore(dataBlock.interval, blockSize, cur, e);
      dataBlock.Add(key, value);
      LastIs(BlocksOf(parts), cur, e);
      cur, curShares, curHeads := cur + [e], shares, heads;
    }

    /** The filter hears of the key before the block does. */
    method AddFilterKey(key: Bytes, ghost e: Pair)
      requires filtering && FilterOk() && e.key == key
      modifies filter
      ensures filter.Valid() && AllFiled(parts, cur + [e], |file|, filter.lists, filter.pending)
    {
      hide FB.FilterBlockBuilder.Valid;
      filter.AddKey(key);
    }

    method Flush()
      requires Consistent()
      modifies this, dataBlock, filter
      ensures Valid() && Added() == old(Added())
      ensures cur == [] && (parts != [] ==> pendingIndexEntry)
      ensures if old(cur) == [] then parts == old(parts) && early == old(early)
              else Grown(old(parts), parts, old(cur)) && early == old(early) + {|old(parts)|}
    {
      hide SepOk, Ordered, InternalLess, FB.FilterBlockBuilder.Valid, Last, RawBlock, Finished, CutBySize, InTime, BuiltOf, BlockBytes;
      Emptiness(dataBlock.View(), cur, curShares, curHeads);
      if |dataBlock.buffer| == 0 {
        return;
      }
      Written();
    }

    /** Flush of a block that is not empty. */
    method Written()
      requires Consistent() && cur != []
      modifies this, dataBlock, filter
      ensures Valid() && Added() == old(Added())
      ensures cur == [] && parts != [] && pendingIndexEntry
      ensures Grown(old(parts), parts, old(cur)) && early == old(early) + {|old(parts)|}
    {
      hide SepOk, Ordered, InternalLess, FB.FilterBlockBuilder.Valid, Last, PartsStored, Encodes, AllFiled, SepsOk, Flat, BlocksOf, IndexOf,
           CutBySize, InTime, BuiltOf, BlockBytes;
      ghost var offset := |file|;
      ghost var part := WriteBlock();
      if filtering {
        StartFilter(part, offset);
      }
      CloseBlock(part);
    }

    /** The written block counts as finished, and its index entry is due. */
    method CloseBlock(ghost part: Part)
      requires dataBlock != indexBlock && dataBlock.interval >= 1 && dataBlock.View() == EMPTY && IndexOk() && Cut() && cur != []
      requires CutBySize(dataBlock.interval, blockSize, parts, early) && InTime(dataBlock.interval, blockSize, cur)
      requires forall i | i in early :: i < |parts|
      requires part.built == BuiltOf(dataBlock.interval, cur)
      requires filtering ==> filter.Valid() && AllFiled(parts + [part], [], |file|, filter.lists, filter.pending)
      requires PartsStored(file, parts + [part]) && part.es == cur && !pendingIndexEntry && pendingHandle == part.handle
      modifies this`pendingIndexEntry, this`parts, this`cur, this`curShares, this`curHeads, this`early
      ensures Valid() && Added() == old(Added())
      ensures cur == [] && parts != [] && pendingIndexEntry
      ensures Grown(old(parts), parts, old(cur)) && early == old(early) + {|old(parts)|}
    {
      hide SepOk, Ordered, InternalLess, FB.FilterBlockBuilder.Valid, Last, PartsStored, Encodes, AllFiled, SepsOk, Flat, BlocksOf, IndexOf,
           CutBySize, InTime, BuiltOf, BlockBytes;
      ghost var blocks := BlocksOf(parts);
      Flushed(blocks, cur, seps);
      LastFlushed(blocks, cur);
      PartAdded(parts, part, seps);
      CutMore(dataBlock.interval, blockSize, parts, early, part, early + {|parts|});
      NothingBuilt(dataBlock.interval, blockSize);
      early := early + {|parts|};
      parts := parts + [part];
      EmptyEncodes();
      cur, curShares, curHeads := [], [], [0];
      pendingIndexEntry := true;
    }

    /** Keys to come belong to the filter of the offset the file has now. */
    method StartFilter(ghost part: Part, ghost offset: nat)
      requires filter.Valid() && AllFiled(parts, cur, offset, filter.lists, filter.pending) && offset <= |file|
      requires part.es == cur && part.handle.offset == offset
      modifies filter
      ensures filter.Valid() && AllFiled(parts + [part], [], |file|, filter.lists, filter.pending)
    {
      hide FB.FilterBlockBuilder.Valid, AllFiled;
      ghost var lists, pending := filter.lists, filter.pending;
      Slots(parts, cur, offset, |file|, lists, pending);
      filter.StartBlock(|file|);
      FiledNext(parts, cur, offset, lists, pending, part, |file|, filter.lists, filter.pending);
    }

    /** The data block goes to the file and starts anew. */
    method WriteBlock() returns (ghost part: Part)
      requires DataOk() && PartsStored(file, parts)
      modifies this`file, this`pendingHandle, dataBlock
      ensures dataBlock.View() == EMPTY && |file| >= |old(file)| && pendingHandle == part.handle
      ensures part.es == cur && part.handle.offset == |old(file)| && PartsStored(file, parts + [part])
      ensures part.built == old(dataBlock.View())
    {
      hide Encodes, RawBlock, Finished, HoldsRaw;
      ghost var built := dataBlock.View();
      var contents := dataBlock.Finish();
      RawAppended(file, contents);
      pendingHandle := Handle(|file|, |contents|);
      part := Part(cur, curShares, curHeads, built, pendingHandle);
      PartsMore(file, RawBlock(contents), parts, part);
      file := file + RawBlock(contents);
      dataBlock.Reset();
    }

    /** Finish: the layout describes the file written, down to the footer. */
    method Finish() returns (ghost l: Layout)
      requires Valid()
      modifies this, dataBlock, indexBlock, filter
      ensures WellBuilt(file, l, filtering, filter.create) && Flat(BlocksOf(l.parts)) == old(Added()) && l.name == name
      ensures CutBySize(dataBlock.interval, blockSize, l.parts, old(early) + {|l.parts| - 1})
    {
      hide CutBySize, Encodes, SepOk, Ordered, InternalLess, PartsStored, FB.FilterBlockBuilder.Valid, Last, SepsOk, Flat, AllFiled, HoldsRaw,
           MetaStored, FilterStored, FooterBytes, InTime, BuiltOf, BlockBytes;
      Flush();
      LastMayBeSmall(dataBlock.interval, blockSize, parts, early, old(early), old(parts), old(cur));
      FlatAlone(BlocksOf(parts));
      l := FinishRest();
    }

    /** Finish once every entry is in a block of the file: filter, metaindex, index and footer. */
    method FinishRest() returns (ghost l: Layout)
      requires dataBlock.interval >= 1 && IndexOk() && FilterOk() && Cut() && PartsStored(file, parts) && cur == []
      modifies this`file, this`lastKey, this`seps, this`indexShares, this`indexHeads, this`pendingIndexEntry, indexBlock, filter
      ensures WellBuilt(file, l, filtering, filter.create) && l.parts == parts && l.name == name
    {
      hide Encodes, SepOk, Ordered, InternalLess, PartsStored, FB.FilterBlockBuilder.Valid, Last, SepsOk, Flat, AllFiled, HoldsRaw,
           MetaStored, FilterStored, FooterBytes;
      var filterHandle := Handle(0, 0);
      if filtering {
        filterHandle := WriteFilter();
      }
      FilterWritten(file, filtering, filterHandle, filter.create, filter.lists, parts);
      var metaHandle;
      ghost var meta;
      metaHandle, meta := WriteMeta(filterHandle);
      if pendingIndexEntry {
        LastIndexEntry();
      }
      ghost var built := indexBlock.View();
      var contents := indexBlock.Finish();
      var indexHandle := Handle(|file|, |contents|);
      RawAppended(file, contents);
      var footer := FooterBytes(metaHandle, indexHandle);
      l := Layout(parts, seps, built, indexShares, indexHeads, indexHandle, filter.lists, filterHandle, name, meta, metaHandle);
      Completed(file, RawBlock(contents), footer, l, filtering, filter.create);
      file := file + RawBlock(contents) + footer;
    }

    /** The metaindex block: where the filter is, under the policy's name. */
    method WriteMeta(filterHandle: Handle) returns (metaHandle: Handle, ghost meta: Meta)
      requires dataBlock.interval >= 1 && PartsStored(file, parts) && FilterStored(file, filtering, filterHandle, filter.create, filter.lists, parts)
      modifies this`file
      ensures PartsStored(file, parts) && FilterStored(file, filtering, filterHandle, filter.create, filter.lists, parts)
      ensures MetaStored(file, metaHandle, meta, MetaEntries(filtering, name, filterHandle))
    {
      hide Encodes, PartsStored, HoldsRaw, RawBlock, Finished, AddTo, FilterStored;
      var block := new BlockBuilder(dataBlock.interval);
      EmptyEncodes();
      ghost var shares, heads := [], [0];
      if filtering {
        block.Add(FilterKey(name), HandleBytes(filterHandle));
        shares, heads := AddKeeps(EMPTY, block.interval, Pair(FilterKey(name), HandleBytes(filterHandle)), [], shares, heads);
        assert [] + MetaEntries(filtering, name, filterHandle) == MetaEntries(filtering, name, filterHandle);
      }
      meta := Meta(block.View(), shares, heads);
      var contents := block.Finish();
      metaHandle := Handle(|file|, |contents|);
      PartsKept(file, RawBlock(contents), parts);
      FilterKept(file, RawBlock(contents), filtering, filterHandle, filter.create, filter.lists, parts);
      RawAppended(file, contents);
      file := file + RawBlock(contents);
    }

    method WriteFilter() returns (filterHandle: Handle)
      requires filtering && FilterOk() && PartsStored(file, parts) && cur == []
      modifies this`file, filter
      ensures PartsStored(file, parts) && HoldsRaw(file, filterHandle, FB.Contents(filter.create, filter.lists))
      ensures AllInLists(parts, filter.lists)
    {
      hide PartsStored, HoldsRaw, FB.Contents, RawBlock;
      ghost var lists, pending := filter.lists, filter.pending;
      var contents := filter.Finish();
      FiledAll(parts, |file|, lists, pending, filter.lists);
      filterHandle := Handle(|file|, |contents|);
      PartsKept(file, RawBlock(contents), parts);
      RawAppended(file, contents);
      file := file + RawBlock(contents);
    }

    /** The last block's index entry, with no key behind it. */
    method LastIndexEntry()
      requires pendingIndexEntry && IndexOk() && Cut()
      modifies this`lastKey, this`seps, this`indexShares, this`indexHeads, this`pendingIndexEntry, indexBlock
      ensures !pendingIndexEntry && |seps| == |parts| && IndexOk() && SepsOk(BlocksOf(parts), [], seps)
    {
      hide Encodes, SepOk, Ordered, InternalLess, Shortened, AllFiled, PartsStored, SepsOk, AddTo;
      ghost var blocks := BlocksOf(parts);
      LastBlock(blocks);
      lastKey := InternalSuccessor(lastKey);
      SepEnd(blocks, lastKey);
      var encoding := HandleBytes(pendingHandle);
      indexBlock.Add(lastKey, encoding);
      ghost var index := IndexOf(parts, seps);
      ghost var shares, heads := AddKeeps(old(indexBlock.View()), indexBlock.interval, Pair(lastKey, encoding), index, indexShares, indexHeads);
      IndexAppend(parts, seps, lastKey);
      SepsAppend(blocks, [], seps, lastKey);
      seps := seps + [lastKey];
      indexShares, indexHeads := shares, heads;
      pendingIndexEntry := false;
    }
  }

  ghost predicate Grown(before: seq<Part>, after: seq<Part>, es: seq<Pair>) {
    |after| == |before| + 1 && after[..|before|] == before && after[|before|].es == es
  }

  lemma NothingAdded(interval: nat, blockSize: nat)
    ensures BlocksOf([]) == [] && IndexOf([], []) == [] && Flat([]) == [] && Last([], []) == None
    ensures Ordered([], []) && SepsOk([], [], []) && PartsStored([], []) && CutBySize(interval, blockSize, [], {})
    ensures AllFiled([], [], 0, [], [])
  {
  }

  lemma NothingBuilt(interval: nat, blockSize: nat)
    ensures BuiltOf(interval, []) == EMPTY && InTime(interval, blockSize, [])
  {
  }

  lemma LastMayBeSmall(interval: nat, blockSize: nat, parts: seq<Part>, early: set<int>, early0: set<int>, parts0: seq<Part>, cur: seq<Pair>)
    requires CutBySize(interval, blockSize, parts, early)
    requires if cur == [] then parts == parts0 && early == early0 else Grown(parts0, parts, cur) && early == early0 + {|parts0|}
    ensures CutBySize(interval, blockSize, parts, early0 + {|parts| - 1})
  {
    hide InTime, BlockBytes, BuiltOf;
  }

  // -------------------------------------------------------------- the finished table

  /** Where everything is in a finished table. */
  datatype Layout = Layout(parts: seq<Part>, seps: seq<Bytes>, index: Built, indexShares: seq<nat>, indexHeads: seq<nat>,
                           indexHandle: Handle, lists: seq<seq<Bytes>>, filterHandle: Handle, name: Bytes, meta: Meta, metaHandle: Handle)

  /** The metaindex block as it was built. */
  datatype Meta = Meta(built: Built, shares: seq<nat>, heads: seq<nat>)

  /** "filter." and the policy's name. */
  function FilterKey(name: Bytes): Bytes {
    [102, 105, 108, 116, 101, 114, 46] + name
  }

  function MetaEntries(filtering: bool, name: Bytes, filterHandle: Handle): seq<Pair> {
    if filtering then [Pair(FilterKey(name), HandleBytes(filterHandle))] else []
  }

  ghost predicate MetaStored(file: Bytes, h: Handle, meta: Meta, es: seq<Pair>) {
    Encodes(meta.built, es, meta.shares, meta.heads) && HoldsRaw(file, h, Finished(meta.built))
  }

  ghost predicate FilterStored(file: Bytes, filtering: bool, h: Handle, create: seq<Bytes> -> Bytes, lists: seq<seq<Bytes>>, parts: seq<Part>) {
    filtering ==> HoldsRaw(file, h, FB.Contents(create, lists)) && AllInLists(parts, lists)
  }

  lemma FilterWritten(file: Bytes, filtering: bool, h: Handle, create: seq<Bytes> -> Bytes, lists: seq<seq<Bytes>>, parts: seq<Part>)
    requires filtering ==> HoldsRaw(file, h, FB.Contents(create, lists)) && AllInLists(parts, lists)
    ensures FilterStored(file, filtering, h, create, lists, parts)
  {
  }

  lemma FilterKept(file: Bytes, more: Bytes, filtering: bool, h: Handle, create: seq<Bytes> -> Bytes, lists: seq<seq<Bytes>>, parts: seq<Part>)
    requires FilterStored(file, filtering, h, create, lists, parts)
    ensures FilterStored(file + more, filtering, h, create, lists, parts)
  {
    hide HoldsRaw, AllInLists, FB.Contents;
    if filtering { RawKept(file, more, h, FB.Contents(create, lists)); }
  }

  /** With index block and footer behind it, everything written before is still where it was. */
  lemma Completed(file: Bytes, index: Bytes, footer: Bytes, l: Layout, filtering: bool, create: seq<Bytes> -> Bytes)
    requires PartsStored(file, l.parts) && FilterStored(file, filtering, l.filterHandle, create, l.lists, l.parts)
    requires MetaStored(file, l.metaHandle, l.meta, MetaEntries(filtering, l.name, l.filterHandle))
    requires HoldsRaw(file + index, l.indexHandle, Finished(l.index)) && footer == FooterBytes(l.metaHandle, l.indexHandle)
    requires |l.seps| == |l.parts| && Ordered(BlocksOf(l.parts), []) && SepsOk(BlocksOf(l.parts), [], l.seps)
    requires Encodes(l.index, IndexOf(l.parts, l.seps), l.indexShares, l.indexHeads)
    ensures WellBuilt(file + index + footer, l, filtering, create)
  {
    hide Encodes, Ordered, SepsOk, PartsStored, HoldsRaw, FilterStored, FooterBytes, MetaEntries, Finished;
    var all := file + index + footer;
    assert all == file + (index + footer);
    PartsKept(file, index + footer, l.parts);
    FilterKept(file, index + footer, filtering, l.filterHandle, create, l.lists, l.parts);
    RawKept(file, index + footer, l.metaHandle, Finished(l.meta.built));
    RawKept(file + index, footer, l.indexHandle, Finished(l.index));
    assert all[|all| - FOOTER..] == footer;
  }

  /** Every stored key is in the filter for the offset of its block. */
  ghost predicate AllInLists(parts: seq<Part>, lists: seq<seq<Bytes>>) {
    forall i, e | 0 <= i < |parts| && e in parts[i].es ::
      var slot := parts[i].handle.offset / FB.BASE;
      slot < |lists| && e.key in lists[slot]
  }

  ghost predicate WellBuilt(file: Bytes, l: Layout, filtering: bool, create: seq<Bytes> -> Bytes) {
    && PartsStored(file, l.parts) && |l.seps| == |l.parts|
    && Ordered(BlocksOf(l.parts), []) && SepsOk(BlocksOf(l.parts), [], l.seps)
    && Encodes(l.index, IndexOf(l.parts, l.seps), l.indexShares, l.indexHeads)
    && HoldsRaw(file, l.indexHandle, Finished(l.index))
    && FilterStored(file, filtering, l.filterHandle, create, l.lists, l.parts)
    && MetaStored(file, l.metaHandle, l.meta, MetaEntries(filtering, l.name, l.filterHandle))
    && |file| >= FOOTER && file[|file| - FOOTER..] == FooterBytes(l.metaHandle, l.indexHandle)
  }

  lemma FiledAll(parts: seq<Part>, offset: nat, lists: seq<seq<Bytes>>, pending: seq<Bytes>, lists': seq<seq<Bytes>>)
    requires AllFiled(parts, [], offset, lists, pending)
    requires lists' == lists + (if pending == [] then [] else [pending])
    ensures AllInLists(parts, lists')
  {
    forall i, e | 0 <= i < |parts| && e in parts[i].es
      ensures parts[i].handle.offset / FB.BASE < |lists'| && e.key in lists'[parts[i].handle.offset / FB.BASE]
    {
      assert KeyFiled(lists, pending, parts[i].handle.offset / FB.BASE, e.key);
    }
  }

  lemma PartAdded(parts: seq<Part>, part: Part, seps: seq<Bytes>)
    requires |seps| <= |parts|
    ensures BlocksOf(parts + [part]) == BlocksOf(parts) + [part.es] && IndexOf(parts + [part], seps) == IndexOf(parts, seps)
  {
    hide HandleBytes;
  }

  lemma FlatAlone(blocks: seq<seq<Pair>>)
    ensures Flat(blocks) + [] == Flat(blocks)
  {
  }

  lemma Slots(parts: seq<Part>, cur: seq<Pair>, offset: nat, offset': nat, lists: seq<seq<Bytes>>, pending: seq<Bytes>)
    requires AllFiled(parts, cur, offset, lists, pending) && offset <= offset'
    ensures |lists| <= offset' / FB.BASE
  {
  }

  lemma IndexAppend(parts: seq<Part>, seps: seq<Bytes>, sep: Bytes)
    requires |seps| < |parts|
    ensures IndexOf(parts, seps + [sep]) == IndexOf(parts, seps) + [Pair(sep, HandleBytes(parts[|seps|].handle))]
  {
    hide HandleBytes;
  }

  lemma SepsAppend(blocks: seq<seq<Pair>>, cur: seq<Pair>, seps: seq<Bytes>, sep: Bytes)
    requires SepsOk(blocks, cur, seps) && |seps| < |blocks| && SepOk(blocks, cur, |seps|, sep) && SepIs(blocks, cur, |seps|, sep)
    ensures SepsOk(blocks, cur, seps + [sep])
  {
    hide SepOk, SepIs;
  }

  lemma LastBlock(blocks: seq<seq<Pair>>)
    requires Ordered(blocks, []) && blocks != []
    ensures
      var b := blocks[|blocks| - 1];
      b != [] && IsInternal(b[|b| - 1].key) && Last(blocks, []) == Some(b[|b| - 1])
  {
    var b, all := blocks[|blocks| - 1], Flat(blocks) + [];
    assert Flat(blocks) == Upto(blocks, |blocks| - 1) + b;
    assert all[|all| - 1] == b[|b| - 1];
    assert all[|all| - 1] in all;
  }

  /** A key behind the last block is behind everything that has an index key already. */
  lemma SepsMoreButLast(blocks: seq<seq<Pair>>, seps: seq<Bytes>, e: Pair)
    requires Ordered(blocks, []) && SepsOk(blocks, [], seps) && |seps| < |blocks| && IsInternal(e.key)
    requires Last(blocks, []).Some? ==> InternalLess(Last(blocks, []).value.key, e.key)
    ensures SepsOk(blocks, [e], seps)
  {
    SepsMore(blocks, [], seps, e);
    assert [] + [e] == [e];
  }

  lemma LastIs(blocks: seq<seq<Pair>>, cur: seq<Pair>, e: Pair)
    ensures Last(blocks, cur + [e]) == Some(e) && Flat(blocks) + (cur + [e]) == Flat(blocks) + cur + [e]
  {
  }

  lemma LastFlushed(blocks: seq<seq<Pair>>, cur: seq<Pair>)
    ensures Last(blocks + [cur], []) == Last(blocks, cur) && Flat(blocks + [cur]) + [] == Flat(blocks) + cur
  {
    FlatMore(blocks, cur);
    assert Flat(blocks + [cur]) + [] == Flat(blocks) + cur;
  }

  lemma Emptiness(b: Built, es: seq<Pair>, shares: seq<nat>, heads: seq<nat>)
    requires Encodes(b, es, shares, heads)
    ensures |b.buffer| == 0 <==> es == []
  {
    if es != [] {
      OffLess(es, shares, 0, |es|);
    }
  }
}
