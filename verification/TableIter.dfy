/**
 The iterator over a table's bytes: the two-level iterator with a block iterator over the
 index block and one over the data block the index points at.
 */
module TableIters {
  import opened Entries
  import opened Coding
  import opened Blocks
  import opened BlockIters
  import opened TwoLevel
  import opened Comparators
  import opened TableOrder
  import opened TableFormat
  import opened Tables
  import opened FilterPolicies
  import opened TableReads

  /** Different blocks have different handles, also as bytes. */
  lemma HandlesDiffer(file: Bytes, parts: seq<Part>, i: nat, j: nat)
    requires PartsStored(file, parts) && |file| < TWO_64 && i < |parts| && j < |parts|
    requires HandleBytes(parts[i].handle) == HandleBytes(parts[j].handle)
    ensures i == j
  {
    hide HandleBytes, GetHandle;
    HandleIs(file, parts, i);
    HandleIs(file, parts, j);
  }

  /** BlockReader: the block an index entry stands for. */
  method OpenPart(table: Table, encoding: Bytes, ghost i: nat) returns (iter: Iter)
    requires table.Valid() && i < |table.l.parts| && encoding == HandleBytes(table.l.parts[i].handle)
    ensures fresh(iter) && iter.Valid() && iter.es == table.l.parts[i].es && iter.less == InternalLess
  {
    hide InternalLess, Ordered, SepsOk, Encodes, HoldsRaw, AllInLists, PolicyOk, HandleBytes, GetHandle;
    ghost var part := table.l.parts[i];
    assert PartStored(table.file, part) && part in table.l.parts;
    HandleIs(table.file, table.l.parts, i);
    var h := GetHandle(encoding);
    ReadRaw(table.file, h.value, Finished(part.built), table.verify);
    var contents := ReadBlock(table.file, h.value, table.verify);
    iter := OpenBlock(contents.value, InternalLess, part.built, part.es, part.shares, part.heads);
  }

  method OpenIndex(table: Table) returns (iter: Iter)
    requires table.Valid()
    ensures fresh(iter) && iter.Valid() && iter.es == IndexOf(table.l.parts, table.l.seps) && iter.less == InternalLess
  {
    hide InternalLess, Ordered, SepsOk, Encodes, HoldsRaw, AllInLists, PolicyOk, PartsStored;
    ReadRaw(table.file, table.indexHandle, Finished(table.l.index), table.verify);
    var contents := ReadBlock(table.file, table.indexHandle, table.verify);
    iter := OpenBlock(contents.value, InternalLess, table.l.index, IndexOf(table.l.parts, table.l.seps), table.l.indexShares, table.l.indexHeads);
  }

  lemma TableParts(table: Table)
    requires table.Valid()
    ensures |table.l.seps| == |table.l.parts| && PartsStored(table.file, table.l.parts) && |table.file| < TWO_64
    ensures Ascending(IndexOf(table.l.parts, table.l.seps), InternalLess)
    ensures forall i | 0 <= i < |table.l.parts| :: Ascending(table.l.parts[i].es, InternalLess)
  {
    hide InternalLess, Ordered, SepsOk, Ascending;
    IndexAscends(table.l.parts, table.l.seps);
    forall i | 0 <= i < |table.l.parts| ensures Ascending(table.l.parts[i].es, InternalLess) {
      BlockAscending(BlocksOf(table.l.parts), i);
    }
  }

  ghost predicate Holds(es: seq<Pair>, i: nat, e: Pair) {
    i < |es| && es[i] == e
  }

  /** Iterator::Valid of a block iterator. */
  lemma OnEntryIff(iter: Iter)
    requires iter.Valid()
    ensures iter.pos <= |iter.es| && (iter.current < iter.restarts <==> iter.pos < |iter.es|)
  {
  }

  class TableIterator {
    const table: Table
    const index: Iter
    var data: Iter?
    var dataHandle: Bytes
    ghost var block: nat // the block `data` is on

    ghost function Blocks(): seq<seq<Pair>> {
      BlocksOf(table.l.parts)
    }

    /** The data iterator is on some block. */
    ghost predicate Loose()
      reads this, index, data
    {
      && table.Valid() && index.Valid() && index.less == InternalLess && |table.l.seps| == |table.l.parts|
      && index.es == IndexOf(table.l.parts, table.l.seps)
      && (data != null ==>
            && data != index && data.Valid() && data.less == InternalLess && block < |table.l.parts|
            && dataHandle == HandleBytes(table.l.parts[block].handle) && data.es == table.l.parts[block].es)
    }

    /** ... the one the index iterator is on. */
    ghost predicate Valid()
      reads this, index, data
    {
      Loose() && (data != null ==> block == index.pos)
    }

    ghost predicate OnEntry()
      reads this, index, data
    {
      Valid() && data != null && data.pos < |data.es|
    }

    /** The place in the flat list of the table's entries; its length when the iterator is not valid. */
    ghost function Place(): nat
      requires Valid()
      reads this, index, data
    {
      if OnEntry() then |Upto(Blocks(), index.pos)| + data.pos else |Flat(Blocks())|
    }

    constructor (table: Table)
      requires table.Valid()
      ensures Valid() && Place() == |Flat(BlocksOf(table.l.parts))| && this.table == table && fresh(index) && data == null
    {
      hide InternalLess, HandleBytes, Table.Valid, Iter.Valid, IndexOf, Flat;
      this.table := table;
      var iter := OpenIndex(table);
      index := iter;
      data, dataHandle, block := null, [], 0;
      TableParts(table);
      new;
    }

    /** The block of the given handle is opened, unless it is open already. */
    method Attach(encoding: Bytes)
      requires Loose() && index.pos < |table.l.parts| && encoding == HandleBytes(table.l.parts[index.pos].handle)
      modifies this`data, this`dataHandle, this`block
      ensures Valid() && data != null && (data == old(data) || fresh(data))
    {
      hide InternalLess, HandleBytes, Table.Valid, Iter.Valid, IndexOf;
      if data != null && encoding == dataHandle {
        TableParts(table);
        HandlesDiffer(table.file, table.l.parts, block, index.pos);
      } else {
        Replace(encoding);
      }
    }

    method Replace(encoding: Bytes)
      requires Loose() && index.pos < |table.l.parts| && encoding == HandleBytes(table.l.parts[index.pos].handle)
      modifies this`data, this`dataHandle, this`block
      ensures Valid() && data != null && fresh(data)
    {
      hide InternalLess, HandleBytes, Table.Valid, Iter.Valid, IndexOf;
      data := OpenPart(table, encoding, index.pos);
      dataHandle := encoding;
      block := index.pos;
    }

    method InitDataBlock()
      requires Loose()
      modifies this`data, this`dataHandle, this`block
      ensures Valid() && (data != null <==> index.pos < |table.l.parts|)
      ensures data == null || data == old(data) || fresh(data)
    {
      hide InternalLess, HandleBytes, Table.Valid, Iter.Valid;
      var entry := CurrentEntry(index);
      if entry.None? {
        data := null;
      } else {
        Attach(entry.value.value);
      }
    }

    /** The data iterator is in a block, or there is no block left. */
    ghost predicate Placed()
      reads this, index, data
    {
      Valid() && (data != null <==> index.pos < |table.l.parts|)
    }

    /** Where a placed iterator stands: a data iterator past the end of its block stands before the next block. */
    ghost function Spot(): nat
      requires Placed()
      reads this, index, data
    {
      if data != null then |Upto(Blocks(), index.pos)| + data.pos else |Flat(Blocks())|
    }

    /** On to the first entry of the next block. */
    method StepForward()
      requires Placed() && data != null && data.pos == |data.es|
      modifies this, index, data
      ensures Placed() && index.pos == old(index.pos) + 1 && (data == null || data == old(data) || fresh(data))
      ensures Spot() == old(Spot())
    {
      hide InternalLess, HandleBytes, Table.Valid, Iter.Valid, IndexOf, Flat, Upto;
      FlatStep(table.l.parts, index.pos);
      index.Next();
      InitDataBlock();
      if data != null {
        data.SeekToFirst();
      }
    }

    method SkipEmptyDataBlocksForward()
      requires Placed()
      modifies this, index, data
      ensures Placed() && (data == null || data == old(data) || fresh(data))
      ensures Place() == old(Spot()) && (OnEntry() <==> data != null)
    {
      hide InternalLess, HandleBytes, Table.Valid, Iter.Valid, IndexOf, Flat, Upto;
      ghost var at := Spot();
      if data != null { OnEntryIff(data); }
      while data != null && data.current >= data.restarts
        invariant Placed() && Spot() == at && (data == null || data == old(data) || fresh(data))
        invariant data != null ==> data.pos <= |data.es| && (data.current < data.restarts <==> data.pos < |data.es|)
        decreases |table.l.parts| - index.pos
      {
        StepForward();
        if data != null { OnEntryIff(data); }
      }
    }

    method Seek(target: Bytes)
      requires Valid()
      modifies this, index, data
      ensures Placed() && (data == null || data == old(data) || fresh(data))
      ensures Place() == LowerBound(Flat(Blocks()), InternalLess, target)
    {
      hide InternalLess, HandleBytes, Table.Valid, Iter.Valid, IndexOf, Flat, Upto, LowerBound, Ascending, Transitive;
      SeekParts(table, target);
      SeekBlock(index, target);
      InitDataBlock();
      if data != null {
        SeekBlock(data, target);
      }
      SkipEmptyDataBlocksForward();
    }

    method SeekToFirst()
      requires Valid()
      modifies this, index, data
      ensures Placed() && (data == null || data == old(data) || fresh(data))
      ensures Place() == 0
    {
      hide InternalLess, HandleBytes, Table.Valid, Iter.Valid, IndexOf;
      index.SeekToFirst();
      InitDataBlock();
      if data != null {
        data.SeekToFirst();
      }
      SkipEmptyDataBlocksForward();
    }

    method Next()
      requires Valid() && OnEntry()
      modifies this, index, data
      ensures Placed() && (data == null || data == old(data) || fresh(data))
      ensures Place() == old(Place()) + 1
    {
      hide InternalLess, HandleBytes, Table.Valid, Iter.Valid, IndexOf, Flat, Upto;
      data.Next();
      SkipEmptyDataBlocksForward();
    }

    /** Back to the last entry of the previous block, if there is one. */
    method StepBackward()
      requires Placed() && data != null && data.pos == |data.es|
      modifies this, index, data
      ensures Placed() && (data == null || data == old(data) || fresh(data))
      ensures old(index.pos) == 0 ==> data == null
      ensures old(index.pos) > 0 ==>
        && data != null && index.pos == old(index.pos) - 1 && data.pos == if |data.es| == 0 then 0 else |data.es| - 1
    {
      hide InternalLess, HandleBytes, Table.Valid, Iter.Valid, IndexOf, Flat, Upto;
      index.Prev();
      InitDataBlock();
      if data != null {
        data.SeekToLast();
      }
    }

    /** Where backing up from here ends: in place, or right before the block. */
    ghost function Back(): nat
      requires Placed()
      reads this, index, data
    {
      if OnEntry() then Place()
      else if data == null || |Upto(Blocks(), index.pos)| == 0 then |Flat(Blocks())| else |Upto(Blocks(), index.pos)| - 1
    }

    method SkipEmptyDataBlocksBackward()
      requires Placed()
      modifies this, index, data
      ensures Placed() && (data == null || data == old(data) || fresh(data))
      ensures Place() == old(Back())
    {
      hide InternalLess, HandleBytes, Table.Valid, Iter.Valid, IndexOf, Flat, Upto;
      ghost var at := Back();
      if data != null { OnEntryIff(data); }
      while data != null && data.current >= data.restarts
        invariant Placed() && Back() == at && (data == null || data == old(data) || fresh(data))
        invariant data != null ==> data.pos <= |data.es| && (data.current < data.restarts <==> data.pos < |data.es|)
        decreases if data == null then 0 else index.pos + 1
      {
        if index.pos > 0 { FlatStep(table.l.parts, index.pos - 1); } else { FlatStart(table.l.parts); }
        StepBackward();
        if data != null { OnEntryIff(data); }
      }
    }

    method SeekToLast()
      requires Valid()
      modifies this, index, data
      ensures Placed() && (data == null || data == old(data) || fresh(data))
      ensures var n := |Flat(Blocks())|; Place() == if n == 0 then 0 else n - 1
    {
      hide InternalLess, HandleBytes, Table.Valid, Iter.Valid, IndexOf, Upto;
      FlatStart(table.l.parts);
      index.SeekToLast();
      InitDataBlock();
      if data != null {
        data.SeekToLast();
        FlatStep(table.l.parts, index.pos);
      }
      SkipEmptyDataBlocksBackward();
    }

    method Prev()
      requires Valid() && OnEntry()
      modifies this, index, data
      ensures Placed() && (data == null || data == old(data) || fresh(data))
      ensures Place() == if old(Place()) == 0 then |Flat(Blocks())| else old(Place()) - 1
    {
      hide InternalLess, HandleBytes, Table.Valid, Iter.Valid, IndexOf, Flat, Upto;
      data.Prev();
      SkipEmptyDataBlocksBackward();
    }

    /** key() and value() */
    method Current() returns (e: Pair)
      requires Valid() && OnEntry()
      ensures Holds(Flat(Blocks()), Place(), e)
    {
      hide InternalLess, HandleBytes, Table.Valid, Iter.Valid, IndexOf, Flat, Upto;
      var entry := CurrentEntry(data);
      e := entry.value;
      InFlat(Blocks(), index.pos, data.pos);
    }
  }

  lemma FlatStart(parts: seq<Part>)
    ensures |Upto(BlocksOf(parts), 0)| == 0
  {
  }

  lemma FlatStep(parts: seq<Part>, i: nat)
    requires i < |parts|
    ensures |Upto(BlocksOf(parts), i)| + |parts[i].es| == |Upto(BlocksOf(parts), i + 1)|
    ensures i + 1 == |parts| ==> |Upto(BlocksOf(parts), i + 1)| == |Flat(BlocksOf(parts))|
  {
    InFlat(BlocksOf(parts), i, 0);
  }

  /** The index names the block a seek lands in, or right in front of. */
  lemma SeekParts(table: Table, target: Bytes)
    requires table.Valid()
    ensures |table.l.seps| == |table.l.parts| && Ascending(IndexOf(table.l.parts, table.l.seps), InternalLess)
    ensures forall i | 0 <= i < |table.l.parts| :: Ascending(table.l.parts[i].es, InternalLess)
    ensures
      var blocks := BlocksOf(table.l.parts);
      var i := LowerBound(IndexOf(table.l.parts, table.l.seps), InternalLess, target);
      && i <= |blocks|
      && LowerBound(Flat(blocks), InternalLess, target)
         == if i == |blocks| then |Flat(blocks)| else |Upto(blocks, i)| + LowerBound(blocks[i], InternalLess, target)
  {
    hide InternalLess, Ordered, SepsOk, Ascending, LowerBound, Flat, Upto, Separated, Total;
    TableParts(table);
    InternalIsTotal();
    AllSeparated(BlocksOf(table.l.parts), table.l.seps);
    FlatBound(BlocksOf(table.l.parts), table.l.seps, InternalLess, target);
    IndexKeys(table.l.parts, table.l.seps, target);
  }
}
