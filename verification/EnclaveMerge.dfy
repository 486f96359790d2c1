/**
 The enclave's merge: every input is read through a buffer of 1024 fixed-size slots and
 the result is handed out through another one. It does what a plain k-way merge does.
 */
module EnclaveMerge {
  import opened Entries

  const BUFFER: nat := 1024
  const KEY: nat := 32
  const VALUE: nat := 100
  const COMPARED: nat := 24

  datatype KV = KV(key: Bytes, value: Bytes)

  /** What the buffers are laid out for: internal keys of 16-byte user keys, short values. */
  predicate Fits(e: KV) {
    |e.key| == COMPARED && |e.value| <= VALUE
  }

  // -------------------------------------------------------------- the plain merge

  /** The channel among the first i whose next key is least, the lowest-numbered of equals. */
  function Least(rests: seq<seq<KV>>, i: nat): (r: int)
    requires i <= |rests|
    ensures -1 <= r < i && (r >= 0 ==> rests[r] != [])
    decreases i, rests
  {
    if i == 0 then -1
    else
      var b := Least(rests, i - 1);
      if rests[i - 1] != [] && (b == -1 || BytesLess(rests[i - 1][0].key, rests[b][0].key)) then i - 1 else b
  }

  function Total(rests: seq<seq<KV>>): nat {
    if rests == [] then 0 else |rests[0]| + Total(rests[1..])
  }

  lemma {:induction false} TotalDrop(rests: seq<seq<KV>>, c: nat)
    requires c < |rests| && rests[c] != []
    ensures Total(rests[c := rests[c][1..]]) == Total(rests) - 1
  {
    var r := rests[c := rests[c][1..]];
    if c == 0 {
      assert r[1..] == rests[1..];
    } else {
      assert r[1..] == rests[1..][c - 1 := rests[1..][c - 1][1..]];
      TotalDrop(rests[1..], c - 1);
    }
  }

  function Merged(rests: seq<seq<KV>>): seq<KV>
    decreases Total(rests), 0
  {
    var b := Least(rests, |rests|);
    if b == -1 then []
    else
      TotalDrop(rests, b);
      [rests[b][0]] + Merged(rests[b := rests[b][1..]])
  }

  function Bag(rests: seq<seq<KV>>): multiset<KV> {
    if rests == [] then multiset{} else multiset(rests[0]) + Bag(rests[1..])
  }

  lemma {:induction false} BagDrop(rests: seq<seq<KV>>, c: nat)
    requires c < |rests| && rests[c] != []
    ensures Bag(rests) == Bag(rests[c := rests[c][1..]]) + multiset{rests[c][0]}
  {
    var r := rests[c := rests[c][1..]];
    if c == 0 {
      assert r[1..] == rests[1..] && rests[0] == [rests[0][0]] + rests[0][1..];
    } else {
      assert r[1..] == rests[1..][c - 1 := rests[1..][c - 1][1..]];
      BagDrop(rests[1..], c - 1);
    }
  }

  lemma {:induction false} NothingLeft(rests: seq<seq<KV>>, i: nat)
    requires i <= |rests| && Least(rests, i) == -1
    ensures forall c | 0 <= c < i :: rests[c] == []
  {
    if i > 0 {
      NothingLeft(rests, i - 1);
    }
  }

  lemma {:induction false} BagEmpty(rests: seq<seq<KV>>)
    requires forall c | 0 <= c < |rests| :: rests[c] == []
    ensures Bag(rests) == multiset{} && Total(rests) == 0
  {
    if rests != [] {
      BagEmpty(rests[1..]);
    }
  }

  /** Every entry of every input, exactly once. */
  lemma {:induction false} MergedBag(rests: seq<seq<KV>>)
    ensures multiset(Merged(rests)) == Bag(rests)
    decreases Total(rests)
  {
    var b := Least(rests, |rests|);
    if b == -1 {
      NothingLeft(rests, |rests|);
      BagEmpty(rests);
    } else {
      TotalDrop(rests, b);
      BagDrop(rests, b);
      MergedBag(rests[b := rests[b][1..]]);
    }
  }

  predicate Sorted(es: seq<KV>) {
    forall i, j {:trigger BytesLess(es[j].key, es[i].key)} | 0 <= i < j < |es| :: !BytesLess(es[j].key, es[i].key)
  }

  lemma LessTransitive(a: Bytes, b: Bytes, c: Bytes)
    ensures BytesLess(a, b) && !BytesLess(c, b) ==> BytesLess(a, c)
    ensures !BytesLess(b, a) && !BytesLess(c, b) ==> !BytesLess(c, a)
  {
    RankOrder(a, b);
    RankOrder(b, a);
    RankOrder(c, b);
    RankOrder(a, c);
    RankOrder(c, a);
  }

  /** The chosen head precedes every other head. */
  lemma {:induction false} LeastFirst(rests: seq<seq<KV>>, i: nat, c: nat)
    requires c < i <= |rests| && rests[c] != []
    ensures Least(rests, i) != -1 && !BytesLess(rests[c][0].key, rests[Least(rests, i)][0].key)
    decreases i
  {
    var b := Least(rests, i - 1);
    if c < i - 1 {
      LeastFirst(rests, i - 1, c);
      if Least(rests, i) == i - 1 {
        LessTransitive(rests[i - 1][0].key, rests[b][0].key, rests[c][0].key);
        Irreflexive(rests[i - 1][0].key, rests[c][0].key);
      }
    } else {
      Irreflexive(rests[c][0].key, rests[c][0].key);
    }
  }

  lemma Irreflexive(a: Bytes, b: Bytes)
    ensures !BytesLess(a, a) && !(BytesLess(a, b) && BytesLess(b, a))
  {
    RankOrder(a, a);
    RankOrder(a, b);
    RankOrder(b, a);
  }

  /** The channel chosen: strictly before all lower-numbered ones, not behind any higher-numbered one. */
  lemma {:induction false} LeastIs(rests: seq<seq<KV>>, i: nat)
    requires i <= |rests|
    ensures
      var b := Least(rests, i);
      if b == -1 then forall c | 0 <= c < i :: rests[c] == []
      else
        && (forall c | 0 <= c < b && rests[c] != [] :: BytesLess(rests[b][0].key, rests[c][0].key))
        && (forall c | b < c < i && rests[c] != [] :: !BytesLess(rests[c][0].key, rests[b][0].key))
    decreases i
  {
    hide BytesLess;
    if i > 0 {
      LeastIs(rests, i - 1);
      var b, a := Least(rests, i), Least(rests, i - 1);
      if a != -1 && b == i - 1 {
        forall c | 0 <= c < b && rests[c] != [] ensures BytesLess(rests[b][0].key, rests[c][0].key) {
          if c < a { LessLess(rests[b][0].key, rests[a][0].key, rests[c][0].key); }
          LessTransitive(rests[b][0].key, rests[a][0].key, rests[c][0].key);
        }
      }
    }
  }

  lemma LessLess(a: Bytes, b: Bytes, c: Bytes)
    requires BytesLess(a, b) && BytesLess(b, c)
    ensures BytesLess(a, c)
  {
    RankOrder(a, b);
    RankOrder(b, c);
    RankOrder(a, c);
  }

  lemma SortedTail(es: seq<KV>)
    requires Sorted(es) && es != []
    ensures Sorted(es[1..])
  {
    forall i, j | 0 <= i < j < |es| - 1 ensures !BytesLess(es[1..][j].key, es[1..][i].key) {
      assert !BytesLess(es[j + 1].key, es[i + 1].key);
    }
  }

  lemma {:induction false} MemberOf(rests: seq<seq<KV>>, e: KV) returns (c: nat)
    requires e in Bag(rests)
    ensures c < |rests| && e in rests[c]
  {
    if e in rests[0] {
      c := 0;
    } else {
      var d := MemberOf(rests[1..], e);
      c := d + 1;
    }
  }

  lemma HeadFirst(rests: seq<seq<KV>>, e: KV)
    requires (forall c | 0 <= c < |rests| :: Sorted(rests[c])) && e in Bag(rests)
    ensures Least(rests, |rests|) != -1 && !BytesLess(e.key, rests[Least(rests, |rests|)][0].key)
  {
    var c := MemberOf(rests, e);
    LeastFirst(rests, |rests|, c);
    var head, first := rests[Least(rests, |rests|)][0].key, rests[c][0].key;
    var j :| 0 <= j < |rests[c]| && rests[c][j] == e;
    if j > 0 {
      assert !BytesLess(rests[c][j].key, rests[c][0].key);
    }
    LessTransitive(head, first, e.key);
  }

  /** In order, when every input is. */
  lemma {:induction false} MergedSorted(rests: seq<seq<KV>>)
    requires forall c | 0 <= c < |rests| :: Sorted(rests[c])
    ensures Sorted(Merged(rests))
    decreases Total(rests)
  {
    hide Bag, BytesLess, Total, Least;
    var b := Least(rests, |rests|);
    if b != -1 {
      var next := rests[b := rests[b][1..]];
      TotalDrop(rests, b);
      SortedTail(rests[b]);
      MergedSorted(next);
      MergedBag(next);
      BagDrop(rests, b);
      var m, t := Merged(rests), Merged(next);
      forall i, j | 0 <= i < j < |m| ensures !BytesLess(m[j].key, m[i].key) {
        assert m[j] == t[j - 1];
        if i == 0 {
          assert t[j - 1] in multiset(t);
          HeadFirst(rests, m[j]);
        } else {
          assert m[i] == t[i - 1];
        }
      }
    }
  }

  // -------------------------------------------------------------- the buffered merge

  /** A slot of a buffer: raw bytes, of which only the first few are the key or value. */
  datatype Slot = Slot(key: Bytes, keySize: nat, value: Bytes, valueSize: nat)

  predicate SlotOk(x: Slot) {
    |x.key| == KEY && |x.value| == VALUE
  }

  /** What a slot stands for. */
  function View(x: Slot): KV
    requires SlotOk(x)
  {
    if x.keySize <= KEY && x.valueSize <= VALUE then KV(x.key[..x.keySize], x.value[..x.valueSize])
    else KV([], [])
  }

  /** Bytes copied over the front of a field; the rest of it stays. */
  function Overlay(field: Bytes, data: Bytes): (r: Bytes)
    ensures |r| == |field|
    ensures |data| <= |field| ==> r[..|data|] == data
  {
    if |data| <= |field| then data + field[|data|..] else data[..|field|]
  }

  function Fill(x: Slot, e: KV): (r: Slot)
    requires SlotOk(x)
    ensures SlotOk(r) && (Fits(e) ==> View(r) == e)
  {
    Slot(Overlay(x.key, e.key), |e.key|, Overlay(x.value, e.value), |e.value|)
  }

  function Views(xs: seq<Slot>): (r: seq<KV>)
    requires forall i | 0 <= i < |xs| :: SlotOk(xs[i])
    ensures |r| == |xs| && forall i | 0 <= i < |xs| :: r[i] == View(xs[i])
  {
    seq(|xs|, i requires 0 <= i < |xs| => View(xs[i]))
  }

  /** A channel: what its iterator has yet to deliver, its buffer and its cursor. */
  datatype Channel = Channel(input: seq<KV>, slots: seq<Slot>, index: int, count: nat)

  ghost predicate ChannelOk(c: Channel) {
    && |c.slots| == BUFFER && (forall i | 0 <= i < BUFFER :: SlotOk(c.slots[i]))
    && -1 <= c.index <= BUFFER && c.count <= BUFFER
    && (c.index >= 0 ==> c.index <= c.count && (c.count < BUFFER ==> c.input == []))
    && (forall e | e in c.input :: Fits(e))
    && (forall i | 0 <= i < c.count && c.index >= 0 :: Fits(View(c.slots[i])))
  }

  /** The entries the channel has yet to contribute. */
  ghost function Rest(c: Channel): seq<KV>
    requires ChannelOk(c)
  {
    if c.index == -1 then c.input else Views(c.slots[c.index..c.count]) + c.input
  }

  /** do_reload_1c */
  method Reload(c: Channel) returns (d: Channel)
    requires ChannelOk(c)
    ensures |d.slots| == BUFFER && (forall i | 0 <= i < BUFFER :: SlotOk(d.slots[i]))
    ensures d.count == (if |c.input| < BUFFER then |c.input| else BUFFER) && d.input == c.input[d.count..]
    ensures forall i | 0 <= i < d.count :: View(d.slots[i]) == c.input[i]
  {
    var slots, n := c.slots, 0;
    while n < |c.input| && n < BUFFER
      invariant 0 <= n <= |c.input| && n <= BUFFER && |slots| == BUFFER
      invariant forall i | 0 <= i < BUFFER :: SlotOk(slots[i])
      invariant forall i | 0 <= i < n :: View(slots[i]) == c.input[i]
    {
      assert c.input[n] in c.input;
      slots := slots[n := Fill(slots[n], c.input[n])];
      n := n + 1;
    }
    d := Channel(c.input[n..], slots, c.index, n);
  }

  /** onec_readKV: false once the channel has nothing more; its cursor is then at -1. */
  method ReadKV(c: Channel) returns (more: bool, d: Channel)
    requires ChannelOk(c)
    ensures ChannelOk(d)
    ensures c.index == -1 || c.index == c.count ==>
      Rest(d) == Rest(c) && more == (Rest(c) != []) && d.index == if more then 0 else -1
    ensures 0 <= c.index < c.count ==> more && Rest(d) == Rest(c)[1..] && d.index == c.index + 1 && d.count == c.count
    ensures d.index == 0 && c.index != 0 ==> 0 < d.count
  {
    if c.index == BUFFER || c.index == -1 {
      d := Reload(c);
      d := d.(index := -1);
      LoadedRest(c, d);
      if d.count == 0 {
        return false, d;
      }
    } else {
      d := c;
      if c.index == c.count {
        d := c.(index := -1);
        return false, d;
      }
      Advance(c);
    }
    d := d.(index := d.index + 1);
    more := true;
  }

  lemma Advance(c: Channel)
    requires ChannelOk(c) && 0 <= c.index < c.count
    ensures ChannelOk(c.(index := c.index + 1)) && Rest(c.(index := c.index + 1)) == Rest(c)[1..]
    ensures Rest(c)[0] == View(c.slots[c.index])
  {
    assert c.slots[c.index..c.count][1..] == c.slots[c.index + 1..c.count];
    assert Views(c.slots[c.index..c.count])[1..] == Views(c.slots[c.index + 1..c.count]);
  }

  lemma LoadedRest(c: Channel, d: Channel)
    requires ChannelOk(c) && (c.index == BUFFER || c.index == -1) && d.index == -1
    requires |d.slots| == BUFFER && (forall i | 0 <= i < BUFFER :: SlotOk(d.slots[i]))
    requires d.count == (if |c.input| < BUFFER then |c.input| else BUFFER) && d.input == c.input[d.count..]
    requires forall i | 0 <= i < d.count :: View(d.slots[i]) == c.input[i]
    ensures Rest(c) == c.input && ChannelOk(d) && ChannelOk(d.(index := 0))
    ensures Rest(d.(index := 0)) == c.input && (d.count == 0 ==> Rest(d) == [] == c.input)
  {
    assert forall i | 0 <= i < d.count :: c.input[i] in c.input;
    assert Views(d.slots[0..d.count]) == c.input[..d.count];
  }

  ghost predicate ChannelsOk(cs: seq<Channel>) {
    forall i | 0 <= i < |cs| :: ChannelOk(cs[i])
  }

  ghost function Rests(cs: seq<Channel>): (r: seq<seq<KV>>)
    requires ChannelsOk(cs)
    ensures |r| == |cs| && forall i | 0 <= i < |cs| :: r[i] == Rest(cs[i])
  {
    seq(|cs|, i requires 0 <= i < |cs| => Rest(cs[i]))
  }

  /** The cursor is on an entry, or parked at -1 with nothing left. */
  ghost predicate Ready(c: Channel)
    requires ChannelOk(c)
  {
    if Rest(c) == [] then c.index == -1 else 0 <= c.index < c.count
  }

  lemma ReadyView(c: Channel)
    requires ChannelOk(c) && Ready(c) && Rest(c) != []
    ensures Rest(c)[0] == View(c.slots[c.index]) && |Rest(c)[0].key| == COMPARED
    ensures c.slots[c.index].key[..COMPARED] == Rest(c)[0].key
  {
    Advance(c);
    assert Fits(View(c.slots[c.index]));
  }

  class Cookie {
    var channels: seq<Channel>
    var out: seq<Slot>
    var outIndex: nat
    var flushed: seq<KV> // what the flushes handed on, in order

    ghost predicate Valid()
      reads this
    {
      && ChannelsOk(channels) && |out| == BUFFER && outIndex <= BUFFER
      && (forall i | 0 <= i < BUFFER :: SlotOk(out[i]))
    }

    /** Everything handed on plus what waits in the output buffer. */
    ghost function Output(): seq<KV>
      requires Valid()
      reads this
    {
      flushed + Views(out[..outIndex])
    }

    /** do_flush_1c and the reset after it */
    method Flush()
      requires Valid()
      modifies this`flushed, this`outIndex
      ensures Valid() && outIndex == 0 && flushed == Output() == old(Output())
    {
      ghost var all := Views(out[..outIndex]);
      ghost var before := flushed;
      for i := 0 to outIndex
        invariant Valid() && outIndex == old(outIndex)
        invariant flushed == before + all[..i]
      {
        assert all[..i + 1] == all[..i] + [View(out[i])];
        flushed := flushed + [View(out[i])];
      }
      assert all[..outIndex] == all;
      outIndex := 0;
      assert Views(out[..0]) == [];
      assert flushed + [] == flushed;
    }

    /** onec_writeKV */
    method WriteKV(c: nat)
      requires Valid() && c < |channels| && 0 <= channels[c].index < channels[c].count
      modifies this`flushed, this`outIndex, this`out
      ensures Valid() && Output() == old(Output()) + [View(channels[c].slots[channels[c].index])]
      ensures if old(outIndex) == BUFFER then outIndex == 1 && flushed == old(Output())
              else outIndex == old(outIndex) + 1 && flushed == old(flushed)
    {
      ghost var before := Output();
      if outIndex == BUFFER {
        Flush();
      }
      var x := channels[c].slots[channels[c].index];
      ghost var was := out[..outIndex];
      out := out[outIndex := x];
      outIndex := outIndex + 1;
      assert out[..outIndex] == was + [x];
      assert Views(out[..outIndex]) == Views(was) + [View(x)];
      assert flushed + (Views(was) + [View(x)]) == flushed + Views(was) + [View(x)];
    }

    /** onec_findSmallest */
    method FindSmallest() returns (smallest: int)
      requires Valid()
      modifies this`channels
      ensures Valid() && |channels| == old(|channels|) && Rests(channels) == old(Rests(channels))
      ensures smallest == Least(Rests(channels), |channels|)
      ensures forall c | 0 <= c < |channels| :: Ready(channels[c])
    {
      hide Rest, ChannelOk, BytesLess;
      smallest := -1;
      ghost var rests := Rests(channels);
      for i := 0 to |channels|
        invariant Valid() && |channels| == |rests| && Rests(channels) == rests
        invariant smallest == Least(rests, i)
        invariant forall c | 0 <= c < i :: Ready(channels[c])
      {
        var ok := Refresh(i);
        if !ok {
          continue;
        }
        if smallest == -1 {
          smallest := i;
          continue;
        }
        var less := Compare(i, smallest);
        if less {
          smallest := i;
        }
      }
    }

    /** findSmallest's read of a channel whose cursor is not on an entry. */
    method Refresh(i: nat) returns (ok: bool)
      requires Valid() && i < |channels|
      modifies this`channels
      ensures Valid() && |channels| == old(|channels|) && Rests(channels) == old(Rests(channels))
      ensures Ready(channels[i]) && ok == (Rest(channels[i]) != [])
      ensures forall c | 0 <= c < |channels| && c != i :: channels[c] == old(channels)[c]
    {
      ghost var rests := Rests(channels);
      ok := true;
      if channels[i].index == -1 || channels[i].index == channels[i].count {
        var d;
        ok, d := ReadKV(channels[i]);
        channels := channels[i := d];
      } else {
        Advance(channels[i]);
      }
      assert Rests(channels) == rests;
    }

    /** onec_compare: memcmp over the first 24 bytes. */
    method Compare(i: nat, s: nat) returns (less: bool)
      requires Valid() && i < |channels| && s < |channels|
      requires Ready(channels[i]) && Ready(channels[s]) && Rest(channels[i]) != [] && Rest(channels[s]) != []
      ensures less == BytesLess(Rest(channels[i])[0].key, Rest(channels[s])[0].key)
    {
      ReadyView(channels[i]);
      ReadyView(channels[s]);
      var a, b := channels[i].slots[channels[i].index], channels[s].slots[channels[s].index];
      less := BytesLess(a.key[..COMPARED], b.key[..COMPARED]);
    }

    /** onec_EnclCompact: the merge of everything the channels have, handed on whole; the output buffer is
        empty again and every cursor parked at -1. */
    method EnclCompact()
      requires Valid() && outIndex == 0 && forall c | 0 <= c < |channels| :: channels[c].index == -1
      modifies this
      ensures Valid() && outIndex == 0 && |channels| == old(|channels|)
      ensures flushed == old(flushed) + Merged(old(Rests(channels)))
      ensures forall c | 0 <= c < |channels| :: channels[c].index == -1 && Rest(channels[c]) == []
    {
      hide Rest, ChannelOk, Least;
      ghost var rests := Rests(channels);
      ghost var whole := flushed + Merged(rests);
      assert Views(out[..0]) == [] && Output() == flushed + [] == flushed;
      LoadAll();
      var count := |channels|;
      while count > 0
        invariant Valid() && count == |channels| == |rests|
        invariant Output() + Merged(Rests(channels)) == whole
        decreases Total(Rests(channels))
      {
        var next := FindSmallest();
        if next == -1 {
          NothingLeft(Rests(channels), |channels|);
          break;
        }
        var more := WriteNext(next, whole);
        if !more {
          count := count - 1;
        }
      }
      Drained(Rests(channels));
      Flush();
      assert flushed == flushed + [];
    }

    method LoadAll()
      requires Valid() && forall c | 0 <= c < |channels| :: channels[c].index == -1
      modifies this`channels
      ensures Valid() && |channels| == old(|channels|) && Rests(channels) == old(Rests(channels))
    {
      hide Rest, ChannelOk;
      ghost var rests := Rests(channels);
      for i := 0 to |channels|
        invariant Valid() && |channels| == |rests| && Rests(channels) == rests
        invariant forall c | i <= c < |channels| :: channels[c].index == -1
      {
        var more, d := ReadKV(channels[i]);
        channels := channels[i := d];
        assert Rests(channels) == rests;
      }
    }

    /** The loop's body: the channel written from always reads on, its cursor past the buffer's end at worst. */
    method WriteNext(next: nat, ghost whole: seq<KV>) returns (more: bool)
      requires Valid() && next < |channels| && next == Least(Rests(channels), |channels|)
      requires forall c | 0 <= c < |channels| :: Ready(channels[c])
      requires Output() + Merged(Rests(channels)) == whole
      modifies this
      ensures Valid() && |channels| == old(|channels|)
      ensures Output() + Merged(Rests(channels)) == whole
      ensures more && Total(Rests(channels)) < old(Total(Rests(channels)))
    {
      hide Rest, ChannelOk, Least, Total;
      ghost var rests, before := Rests(channels), Output();
      ReadyView(channels[next]);
      TotalDrop(rests, next);
      ghost var tail := Merged(rests[next := rests[next][1..]]);
      assert before + ([rests[next][0]] + tail) == before + [rests[next][0]] + tail;
      WriteKV(next);
      var d;
      more, d := ReadKV(channels[next]);
      channels := channels[next := d];
      assert Rests(channels) == rests[next := rests[next][1..]];
    }
  }

  lemma Drained(rests: seq<seq<KV>>)
    requires forall c | 0 <= c < |rests| :: rests[c] == []
    ensures Merged(rests) == []
  {
  }
}
