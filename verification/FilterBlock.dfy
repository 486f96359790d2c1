/**
 The filter block: one filter for every 2 KiB of file offsets, made from the keys of the
 blocks that start there. A key added after StartBlock(off) always matches at off.
 */
module FilterBlocks {
  import opened Entries
  import opened Coding
  import opened Blocks

  const BASE_LG := 11
  const BASE := 2048

  /** A filter policy hides no key its filter was made from. */
  ghost predicate Sound(create: seq<Bytes> -> Bytes, may: (Bytes, Bytes) -> bool) {
    forall keys, key | key in keys :: may(key, create(keys))
  }

  /** No keys, no filter. */
  function FilterOf(create: seq<Bytes> -> Bytes, keys: seq<Bytes>): Bytes {
    if keys == [] then [] else create(keys)
  }

  /** The first n filters, one behind the other. */
  function Filters(create: seq<Bytes> -> Bytes, lists: seq<seq<Bytes>>, n: nat): Bytes
    requires n <= |lists|
    decreases n, lists
  {
    if n == 0 then [] else Filters(create, lists, n - 1) + FilterOf(create, lists[n - 1])
  }

  function Offsets(create: seq<Bytes> -> Bytes, lists: seq<seq<Bytes>>): (r: seq<nat>)
    ensures |r| == |lists| && forall i | 0 <= i < |r| :: r[i] == |Filters(create, lists, i)|
  {
    seq(|lists|, i requires 0 <= i < |lists| => |Filters(create, lists, i)|)
  }

  /** The finished filter block. */
  function Contents(create: seq<Bytes> -> Bytes, lists: seq<seq<Bytes>>): Bytes {
    var all := Filters(create, lists, |lists|);
    all + (Trailer(Offsets(create, lists)) + (Fixed(|all|, 4) + [BASE_LG]))
  }

  lemma {:induction false} FiltersMore(create: seq<Bytes> -> Bytes, lists: seq<seq<Bytes>>, x: seq<Bytes>, n: nat)
    requires n <= |lists|
    ensures Filters(create, lists + [x], n) == Filters(create, lists, n)
    decreases n
  {
    if n > 0 {
      FiltersMore(create, lists, x, n - 1);
    }
  }

  // -------------------------------------------------------------- builder

  /** The keys, flattened, and where each starts. */
  function Flat(keys: seq<Bytes>, n: nat): Bytes
    requires n <= |keys|
    decreases n, keys
  {
    if n == 0 then [] else Flat(keys, n - 1) + keys[n - 1]
  }

  lemma {:induction false} FlatMore(keys: seq<Bytes>, x: Bytes, n: nat)
    requires n <= |keys|
    ensures Flat(keys + [x], n) == Flat(keys, n)
    decreases n
  {
    if n > 0 {
      FlatMore(keys, x, n - 1);
    }
  }

  lemma {:induction false} FlatPrefix(keys: seq<Bytes>, i: nat, n: nat)
    requires i <= n <= |keys|
    ensures Flat(keys, i) <= Flat(keys, n)
    decreases n
  {
    if i < n {
      FlatPrefix(keys, i, n - 1);
    }
  }

  lemma KeyAt(keys: seq<Bytes>, i: nat)
    requires i < |keys|
    ensures
      var all, a, b := Flat(keys, |keys|), |Flat(keys, i)|, |Flat(keys, i + 1)|;
      a <= b <= |all| && all[a..b] == keys[i]
  {
    var all, a, b := Flat(keys, |keys|), |Flat(keys, i)|, |Flat(keys, i + 1)|;
    FlatPrefix(keys, i + 1, |keys|);
    assert all[..b] == Flat(keys, i + 1) == Flat(keys, i) + keys[i];
    assert all[a..b] == all[..b][a..];
  }

  class FilterBlockBuilder {
    const create: seq<Bytes> -> Bytes
    var keys: Bytes
    var start: seq<nat>
    var result: Bytes
    var filterOffsets: seq<nat>
    ghost var lists: seq<seq<Bytes>> // the keys of each filter made so far
    ghost var pending: seq<Bytes>    // those of the next one

    ghost predicate Valid()
      reads this
    {
      && keys == Flat(pending, |pending|) && |start| == |pending|
      && (forall i | 0 <= i < |start| :: start[i] == |Flat(pending, i)|)
      && result == Filters(create, lists, |lists|) && filterOffsets == Offsets(create, lists)
    }

    constructor (create: seq<Bytes> -> Bytes)
      ensures Valid() && this.create == create && lists == [] && pending == []
    {
      this.create := create;
      keys, start, result, filterOffsets, lists, pending := [], [], [], [], [], [];
    }

    method AddKey(key: Bytes)
      requires Valid()
      modifies this
      ensures Valid() && pending == old(pending) + [key] && lists == old(lists)
    {
      forall i | 0 <= i <= |start| ensures Flat(pending + [key], i) == Flat(pending, i) {
        FlatMore(pending, key, i);
      }
      start := start + [|keys|];
      keys := keys + key;
      pending := pending + [key];
    }

    method GenerateFilter()
      requires Valid()
      modifies this
      ensures Valid() && lists == old(lists) + [old(pending)] && pending == []
    {
      hide Filters;
      ghost var more := lists + [pending];
      FiltersNext(create, lists, pending);
      var numKeys := |start|;
      filterOffsets := filterOffsets + [|result|];
      assert filterOffsets == Offsets(create, more);
      if numKeys > 0 {
        var tmp := Unflatten();
        result := result + create(tmp);
        keys, start := [], [];
      }
      lists, pending := more, [];
    }

    /** The slices of the flattened keys. */
    method Unflatten() returns (tmp: seq<Bytes>)
      requires keys == Flat(pending, |pending|) && |start| == |pending|
      requires forall i | 0 <= i < |start| :: start[i] == |Flat(pending, i)|
      ensures tmp == pending
    {
      var starts := start + [|keys|];
      tmp := [];
      for i := 0 to |start|
        invariant tmp == pending[..i]
      {
        KeyAt(pending, i);
        tmp := tmp + [keys[starts[i]..starts[i + 1]]];
      }
    }

    /** Keys added from here on belong to the filter of this offset. */
    method StartBlock(blockOffset: nat)
      requires Valid() && |lists| <= blockOffset / BASE
      modifies this
      ensures Valid() && |lists| == blockOffset / 2048
      ensures |lists| == |old(lists)| ==> lists == old(lists) && pending == old(pending)
      ensures |lists| > |old(lists)| ==>
        && pending == [] && lists[..|old(lists)|] == old(lists) && lists[|old(lists)|] == old(pending)
        && forall j | |old(lists)| < j < |lists| :: lists[j] == []
    {
      var index := blockOffset / BASE;
      while index > |filterOffsets|
        invariant Valid() && |old(lists)| <= |lists| <= index
        invariant |lists| == |old(lists)| ==> lists == old(lists) && pending == old(pending)
        invariant |lists| > |old(lists)| ==>
          && pending == [] && lists[..|old(lists)|] == old(lists) && lists[|old(lists)|] == old(pending)
          && forall j | |old(lists)| < j < |lists| :: lists[j] == []
        decreases index - |filterOffsets|
      {
        GenerateFilter();
      }
    }

    method Finish() returns (block: Bytes)
      requires Valid()
      modifies this
      ensures lists == old(lists) + (if old(pending) == [] then [] else [old(pending)])
      ensures block == Contents(create, lists) && block[|block| - 1] == 11
    {
      hide Filters, Trailer, Fixed, Flat, Offsets;
      NoTrailer();
      if start != [] {
        GenerateFilter();
      }
      var arrayOffset := |result|;
      ghost var all := result;
      for i := 0 to |filterOffsets|
        invariant lists == old(lists) + (if old(pending) == [] then [] else [old(pending)])
        invariant filterOffsets == Offsets(create, lists) && all == Filters(create, lists, |lists|) && |all| == arrayOffset
        invariant result == all + Trailer(filterOffsets[..i])
      {
        assert filterOffsets[..i + 1] == filterOffsets[..i] + [filterOffsets[i]];
        TrailerAppend(filterOffsets[..i], filterOffsets[i]);
        result := result + Fixed(filterOffsets[i], 4);
      }
      assert filterOffsets[..|filterOffsets|] == filterOffsets;
      result := result + Fixed(arrayOffset, 4);
      result := result + [BASE_LG];
      block := result;
      assert block == all + (Trailer(filterOffsets) + (Fixed(arrayOffset, 4) + [BASE_LG]));
    }
  }

  lemma FiltersNext(create: seq<Bytes> -> Bytes, lists: seq<seq<Bytes>>, x: seq<Bytes>)
    ensures Filters(create, lists + [x], |lists| + 1) == Filters(create, lists, |lists|) + FilterOf(create, x)
    ensures Offsets(create, lists + [x]) == Offsets(create, lists) + [|Filters(create, lists, |lists|)|]
    ensures Filters(create, lists, |lists|) + [] == Filters(create, lists, |lists|)
  {
    forall i | 0 <= i <= |lists| ensures Filters(create, lists + [x], i) == Filters(create, lists, i) {
      FiltersMore(create, lists, x, i);
    }
  }

  lemma NoTrailer()
    ensures Trailer([]) == []
  {
  }

  // -------------------------------------------------------------- reader

  /** off >> k */
  function Shr(off: nat, k: nat): nat
    decreases k, off
  {
    if k == 0 then off else Shr(off / 2, k - 1)
  }

  function Word(s: Bytes, at: nat): Word32
    requires at + 4 <= |s|
  {
    DecodeFixed32(s[at..at + 4])
  }

  /** FilterBlockReader::KeyMayMatch; whatever is wrong with the block counts as a match. */
  function MayMatch(contents: Bytes, may: (Bytes, Bytes) -> bool, blockOffset: nat, key: Bytes): bool {
    var n := |contents|;
    if n < 5 then true
    else
      var table := Word(contents, n - 5);
      if table > n - 5 then true
      else
        var num, index := (n - 5 - table) / 4, Shr(blockOffset, contents[n - 1]);
        if index < num then
          var start, limit := Word(contents, table + index * 4), Word(contents, table + index * 4 + 4);
          if start <= limit && limit <= table then may(key, contents[start..limit])
          else start != limit
        else true
  }

  lemma ShrBase(off: nat)
    ensures Shr(off, BASE_LG) == off / BASE
  {
    var a := off / 16;
    assert Shr(off, 11) == Shr(off / 2, 10) == Shr(off / 2 / 2, 9);
    assert Shr(off / 2 / 2, 9) == Shr(off / 2 / 2 / 2, 8) == Shr(off / 2 / 2 / 2 / 2, 7);
    assert off / 2 / 2 / 2 / 2 == a;
    var b := a / 16;
    assert Shr(a, 7) == Shr(a / 2, 6) == Shr(a / 2 / 2, 5);
    assert Shr(a / 2 / 2, 5) == Shr(a / 2 / 2 / 2, 4) == Shr(a / 2 / 2 / 2 / 2, 3);
    assert a / 2 / 2 / 2 / 2 == b;
    assert Shr(b, 3) == Shr(b / 2, 2) == Shr(b / 2 / 2, 1) == Shr(b / 2 / 2 / 2, 0) == b / 8;
  }

  lemma {:induction false} FiltersPrefix(create: seq<Bytes> -> Bytes, lists: seq<seq<Bytes>>, i: nat, n: nat)
    requires i <= n <= |lists|
    ensures Filters(create, lists, i) <= Filters(create, lists, n)
    decreases n
  {
    if i < n {
      FiltersPrefix(create, lists, i, n - 1);
    }
  }

  lemma FilterAt(create: seq<Bytes> -> Bytes, lists: seq<seq<Bytes>>, i: nat)
    requires i < |lists|
    ensures
      var all, a, b := Filters(create, lists, |lists|), |Filters(create, lists, i)|, |Filters(create, lists, i + 1)|;
      a <= b <= |all| && all[a..b] == FilterOf(create, lists[i])
  {
    var all, a, b := Filters(create, lists, |lists|), |Filters(create, lists, i)|, |Filters(create, lists, i + 1)|;
    FiltersPrefix(create, lists, i + 1, |lists|);
    assert all[..b] == Filters(create, lists, i + 1) == Filters(create, lists, i) + FilterOf(create, lists[i]);
    assert all[a..b] == all[..b][a..];
  }

  /** Word i of the offset table, the table's own offset standing behind its last. */
  lemma OffsetWord(create: seq<Bytes> -> Bytes, lists: seq<seq<Bytes>>, i: nat)
    requires i <= |lists| && |Contents(create, lists)| < TWO_32
    ensures
      var s, table := Contents(create, lists), |Filters(create, lists, |lists|)|;
      && |s| == table + 4 * |lists| + 5 && s[|s| - 1] == BASE_LG
      && Word(s, table + 4 * i) == |Filters(create, lists, i)|
  {
    hide Filters, Fixed, DecodeFixed32, Trailer;
    var all, t := Filters(create, lists, |lists|), Trailer(Offsets(create, lists));
    var s, table, w := Contents(create, lists), |all|, Fixed(|all|, 4);
    TrailerAppend(Offsets(create, lists), 0);
    if i == |lists| {
      assert s[table + 4 * i..table + 4 * i + 4] == w;
      Fixed32Round(|all|);
    } else {
      TrailerWord(Offsets(create, lists), i);
      assert s[table + 4 * i..table + 4 * i + 4] == t[4 * i..4 * i + 4];
      FilterAt(create, lists, i);
      Fixed32Round(|Filters(create, lists, i)|);
    }
  }

  /** A block starting at `off` is answered by the filter made for that offset: exactly its policy's answer. */
  lemma MatchIs(create: seq<Bytes> -> Bytes, may: (Bytes, Bytes) -> bool, lists: seq<seq<Bytes>>, off: nat, key: Bytes)
    requires |Contents(create, lists)| < TWO_32
    ensures MayMatch(Contents(create, lists), may, off, key)
         == (off / BASE < |lists| ==> may(key, FilterOf(create, lists[off / BASE])))
  {
    hide Filters, Fixed, DecodeFixed32, Trailer, Word, Contents;
    var s, table, i := Contents(create, lists), |Filters(create, lists, |lists|)|, off / BASE;
    ShrBase(off);
    OffsetWord(create, lists, |lists|);
    if i < |lists| {
      OffsetWord(create, lists, i);
      OffsetWord(create, lists, i + 1);
      FilterAt(create, lists, i);
      FilterFront(create, lists);
      var a, b := |Filters(create, lists, i)|, |Filters(create, lists, i + 1)|;
      assert s[a..b] == s[..table][a..b];
    }
  }

  lemma FilterFront(create: seq<Bytes> -> Bytes, lists: seq<seq<Bytes>>)
    ensures
      var all := Filters(create, lists, |lists|);
      |all| <= |Contents(create, lists)| && Contents(create, lists)[..|all|] == all
  {
  }

  /** A filter never hides a stored key. */
  lemma NeverHides(create: seq<Bytes> -> Bytes, may: (Bytes, Bytes) -> bool, lists: seq<seq<Bytes>>, off: nat, key: Bytes)
    requires Sound(create, may) && |Contents(create, lists)| < TWO_32
    requires off / BASE < |lists| && key in lists[off / BASE]
    ensures MayMatch(Contents(create, lists), may, off, key)
  {
    MatchIs(create, may, lists, off, key);
  }
}
