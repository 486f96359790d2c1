/**
 Prefix-compressed blocks: each key without the part it shares with the key before it,
 except at restart points, whose offsets are stored behind the entries. Two builders, one
 appending to a string and one writing through a flat buffer, produce the same bytes.
 */
module Blocks {
  import opened Entries
  import opened Coding

  datatype Pair = Pair(key: Bytes, value: Bytes)

  /** How much two keys have in common. */
  function Shared(a: Bytes, b: Bytes): (r: nat)
    ensures r <= |a| && r <= |b| && a[..r] == b[..r] && (r < |a| && r < |b| ==> a[r] != b[r])
  {
    if a != [] && b != [] && a[0] == b[0] then
      var r := Shared(a[1..], b[1..]);
      assert a[..1 + r] == [a[0]] + a[1..][..r] && b[..1 + r] == [b[0]] + b[1..][..r];
      1 + r
    else 0
  }

  /** One entry's bytes when `shared` bytes of its key are left out. */
  function Piece(e: Pair, shared: nat): Bytes
    requires shared <= |e.key|
  {
    Varint(shared) + (Varint(|e.key| - shared) + (Varint(|e.value|) + (e.key[shared..] + e.value)))
  }

  // -------------------------------------------------------------- building

  /** What a builder has built: entries' bytes, restart offsets, entries since the last restart, last key. */
  datatype Built = Built(buffer: Bytes, restarts: seq<nat>, counter: nat, lastKey: Bytes)

  const EMPTY := Built([], [0], 0, [])

  function AddTo(b: Built, interval: nat, e: Pair): Built {
    if b.counter < interval then
      var shared := Shared(b.lastKey, e.key);
      Built(b.buffer + Piece(e, shared), b.restarts, b.counter + 1, e.key)
    else
      Built(b.buffer + Piece(e, 0), b.restarts + [|b.buffer|], 1, e.key)
  }

  /** What a builder holds after these entries. */
  function BuiltOf(interval: nat, es: seq<Pair>): Built
    decreases |es|, interval
  {
    if es == [] then EMPTY else AddTo(BuiltOf(interval, es[..|es| - 1]), interval, es[|es| - 1])
  }

  lemma BuiltMore(interval: nat, es: seq<Pair>, e: Pair)
    ensures BuiltOf(interval, es + [e]) == AddTo(BuiltOf(interval, es), interval, e)
  {
    assert (es + [e])[..|es|] == es;
  }

  function Trailer(restarts: seq<nat>): Bytes {
    if restarts == [] then [] else Fixed(restarts[0], 4) + Trailer(restarts[1..])
  }

  /** The finished block. */
  function Finished(b: Built): Bytes {
    b.buffer + Trailer(b.restarts) + Fixed(|b.restarts|, 4)
  }

  lemma {:induction false} TrailerAppend(a: seq<nat>, x: nat)
    ensures Trailer(a + [x]) == Trailer(a) + Fixed(x, 4) && |Trailer(a)| == 4 * |a|
  {
    if a == [] {
      assert (a + [x])[1..] == [];
    } else {
      assert (a + [x])[1..] == a[1..] + [x];
      TrailerAppend(a[1..], x);
    }
  }

  lemma {:induction false} TrailerWord(xs: seq<nat>, j: nat)
    requires j < |xs|
    ensures |Trailer(xs)| == 4 * |xs| && Trailer(xs)[4 * j..4 * j + 4] == Fixed(xs[j], 4)
  {
    hide Fixed;
    TrailerAppend(xs, 0);
    if j > 0 {
      TrailerWord(xs[1..], j - 1);
      assert Trailer(xs)[4 * j..4 * j + 4] == Trailer(xs[1..])[4 * (j - 1)..4 * (j - 1) + 4];
    }
  }

  lemma FinishedSize(b: Built)
    ensures |Finished(b)| == |b.buffer| + 4 * |b.restarts| + 4
  {
    TrailerAppend(b.restarts, 0);
  }

  method CommonLength(a: Bytes, b: Bytes) returns (shared: nat)
    ensures shared == Shared(a, b)
  {
    shared := 0;
    var limit := if |a| < |b| then |a| else |b|;
    assert a[0..] == a && b[0..] == b;
    while shared < limit && a[shared] == b[shared]
      invariant 0 <= shared <= limit && shared + Shared(a[shared..], b[shared..]) == Shared(a, b)
    {
      assert a[shared..][1..] == a[shared + 1..] && b[shared..][1..] == b[shared + 1..];
      shared := shared + 1;
    }
  }

  class BlockBuilder {
    const interval: nat
    var buffer: Bytes
    var restarts: seq<nat>
    var counter: nat
    var lastKey: Bytes

    function View(): Built
      reads this
    {
      Built(buffer, restarts, counter, lastKey)
    }

    constructor (interval: nat)
      requires interval >= 1
      ensures View() == EMPTY && this.interval == interval
    {
      this.interval := interval;
      buffer, restarts, counter, lastKey := [], [0], 0, [];
    }

    method Reset()
      modifies this
      ensures View() == EMPTY
    {
      buffer, restarts, counter, lastKey := [], [0], 0, [];
    }

    method Add(key: Bytes, value: Bytes)
      modifies this
      ensures View() == AddTo(old(View()), interval, Pair(key, value))
    {
      hide Varint, Shared;
      var shared := 0;
      if counter < interval {
        shared := CommonLength(lastKey, key);
      } else {
        restarts := restarts + [|buffer|];
        counter := 0;
      }
      var nonShared := |key| - shared;
      buffer := buffer + Varint(shared);
      buffer := buffer + Varint(nonShared);
      buffer := buffer + Varint(|value|);
      buffer := buffer + key[shared..];
      buffer := buffer + value;
      Joined(old(buffer), Varint(shared), Varint(nonShared), Varint(|value|), key[shared..], value);
      lastKey := lastKey[..shared] + key[shared..];
      assert lastKey == key by {
        assert key[..shared] + key[shared..] == key;
        assert lastKey[..shared] == key[..shared];
      }
      counter := counter + 1;
    }

    method Finish() returns (block: Bytes)
      modifies this`buffer
      ensures block == buffer == Finished(old(View()))
    {
      for i := 0 to |restarts|
        invariant buffer == old(buffer) + Trailer(restarts[..i])
      {
        assert restarts[..i + 1] == restarts[..i] + [restarts[i]];
        TrailerAppend(restarts[..i], restarts[i]);
        assert old(buffer) + (Trailer(restarts[..i]) + Fixed(restarts[i], 4)) == buffer + Fixed(restarts[i], 4);
        buffer := buffer + Fixed(restarts[i], 4);
      }
      assert restarts[..|restarts|] == restarts;
      buffer := buffer + Fixed(|restarts|, 4);
      block := buffer;
    }
  }

  lemma Joined(a: Bytes, b: Bytes, c: Bytes, d: Bytes, e: Bytes, f: Bytes)
    ensures a + b + c + d + e + f == a + (b + (c + (d + (e + f))))
  {
  }

  // -------------------------------------------------------------- the flat builder

  /** memcpy */
  method Copy(dst: array<Byte>, at: nat, data: Bytes)
    requires at + |data| <= dst.Length
    modifies dst
    ensures dst[..at + |data|] == old(dst[..at]) + data
    ensures dst[at + |data|..] == old(dst[at + |data|..])
  {
    for i := 0 to |data|
      invariant dst[..at] == old(dst[..at]) && dst[at..at + i] == data[..i]
      invariant dst[at + |data|..] == old(dst[at + |data|..])
    {
      dst[at + i] := data[i];
      assert dst[at..at + i + 1] == dst[at..at + i] + [data[i]];
      assert data[..i + 1] == data[..i] + [data[i]];
    }
    assert data[..|data|] == data;
    assert dst[..at + |data|] == dst[..at] + dst[at..at + |data|];
  }

  class FlatBlockBuilder {
    const interval: nat
    const blockType: int
    const b: array<Byte>
    const restartsIndex: array<nat>
    var bufferPointer: nat
    var restartsPointer: nat
    var restarts: seq<nat>
    var counter: nat
    var lastKey: Bytes

    ghost predicate Valid()
      reads this
    {
      bufferPointer <= b.Length && restartsPointer <= restartsIndex.Length
    }

    /** What has been built so far, wherever the restarts are kept. */
    ghost function View(): Built
      requires Valid()
      reads this, b, restartsIndex
    {
      Built(b[..bufferPointer], if blockType == 1 then restartsIndex[..restartsPointer] else restarts, counter, lastKey)
    }

    constructor (interval: nat, blockType: int, buf: array<Byte>, mem: array<nat>)
      requires interval >= 1 && mem.Length >= 1
      modifies mem
      ensures Valid() && View() == EMPTY
      ensures this.interval == interval && this.blockType == blockType && b == buf && restartsIndex == mem
    {
      this.interval, this.blockType, b, restartsIndex := interval, blockType, buf, mem;
      bufferPointer, restarts, counter, lastKey := 0, [0], 0, [];
      restartsPointer := if blockType == 1 then 1 else 0;
      new;
      if blockType == 1 {
        restartsIndex[0] := 0;
      }
    }

    method Reset()
      requires Valid() && restartsIndex.Length >= 1
      modifies this, restartsIndex
      ensures Valid() && View() == EMPTY
    {
      bufferPointer := 0;
      restarts := [0];
      if blockType == 1 {
        restartsIndex[0] := 0;
        restartsPointer := 1;
      }
      counter := 0;
      lastKey := [];
    }

    /** The buffer must have room for the entry, and the restart array for one more offset. */
    method Add(key: Bytes, value: Bytes)
      requires Valid() && restartsPointer < restartsIndex.Length
      requires |AddTo(View(), interval, Pair(key, value)).buffer| <= b.Length
      modifies this, b, restartsIndex
      ensures Valid() && View() == AddTo(old(View()), interval, Pair(key, value))
    {
      hide Varint, Shared;
      ghost var was := View();
      var shared := 0;
      if counter < interval {
        shared := CommonLength(lastKey, key);
      } else {
        if blockType == 1 {
          restartsIndex[restartsPointer] := bufferPointer;
          restartsPointer := restartsPointer + 1;
          assert restartsIndex[..restartsPointer] == was.restarts + [bufferPointer];
        } else {
          restarts := restarts + [bufferPointer];
        }
        counter := 0;
      }
      WriteEntry(shared, key, value);
      lastKey := lastKey[..shared] + key[shared..];
      assert lastKey == key by {
        assert key[..shared] + key[shared..] == key;
        assert lastKey[..shared] == key[..shared];
      }
      counter := counter + 1;
    }

    method WriteEntry(shared: nat, key: Bytes, value: Bytes)
      requires Valid() && shared <= |key| && bufferPointer + |Piece(Pair(key, value), shared)| <= b.Length
      modifies this`bufferPointer, b
      ensures Valid() && b[..bufferPointer] == old(b[..bufferPointer]) + Piece(Pair(key, value), shared)
    {
      hide Varint;
      var nonShared := |key| - shared;
      Write(Varint(shared));
      Write(Varint(nonShared));
      Write(Varint(|value|));
      Write(key[shared..]);
      Write(value);
      Joined(old(b[..bufferPointer]), Varint(shared), Varint(nonShared), Varint(|value|), key[shared..], value);
    }

    method Write(data: Bytes)
      requires Valid() && bufferPointer + |data| <= b.Length
      modifies this`bufferPointer, b
      ensures Valid() && bufferPointer == old(bufferPointer) + |data|
      ensures b[..bufferPointer] == old(b[..bufferPointer]) + data
    {
      Copy(b, bufferPointer, data);
      bufferPointer := bufferPointer + |data|;
    }

    method Finish()
      requires Valid() && |Finished(View())| <= b.Length
      modifies this`bufferPointer, b
      ensures Valid() && b[..bufferPointer] == Finished(old(View()))
    {
      var n := if blockType == 1 then restartsPointer else |restarts|;
      ghost var all, buffer := View().restarts, b[..bufferPointer];
      assert b != restartsIndex as object;
      TrailerAppend(all, 0);
      for i := 0 to n
        invariant Valid() && bufferPointer == |buffer| + 4 * i
        invariant View().restarts == all && b[..bufferPointer] == buffer + Trailer(all[..i])
      {
        assert all[..i + 1] == all[..i] + [all[i]];
        TrailerAppend(all[..i], all[i]);
        var restart := if blockType == 1 then restartsIndex[i] else restarts[i];
        assert restart == all[i];
        Write(Fixed(restart, 4));
        assert buffer + (Trailer(all[..i]) + Fixed(restart, 4)) == buffer + Trailer(all[..i]) + Fixed(restart, 4);
      }
      assert all[..n] == all;
      Write(Fixed(n, 4));
    }
  }
}
