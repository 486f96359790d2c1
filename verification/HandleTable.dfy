/**
 The cache's own hash table: buckets of handles, doubled in number when there are more
 handles than buckets. A chain of next_hash pointers is the sequence of its handles.
 */
module HandleTables {
  import opened Entries

  /** The part of a handle the table looks at. */
  datatype Node = Node(id: nat, hash: nat, key: Bytes)

  predicate Matches(n: Node, key: Bytes, hash: nat) {
    n.hash == hash && n.key == key
  }

  // ------------------------------------------------------------- picking a bucket

  /** a & b */
  function And(a: nat, b: nat): nat
    decreases b, a
  {
    if b == 0 then 0 else (if a % 2 == 1 && b % 2 == 1 then 1 else 0) + 2 * And(a / 2, b / 2)
  }

  predicate PowerOfTwo(n: nat) {
    n == 1 || (n > 1 && n % 2 == 0 && PowerOfTwo(n / 2))
  }

  lemma {:induction false} PowersApart(a: nat, b: nat)
    requires PowerOfTwo(a) && PowerOfTwo(b) && a < b
    ensures 2 * a <= b && b % 2 == 0
    decreases a
  {
    if a > 1 { PowersApart(a / 2, b / 2); }
  }

  lemma MulOrder(a: int, b: int, d: int)
    requires a < b && 0 <= d
    ensures (a + 1) * d <= b * d
  {
  }

  lemma Remainder(x: nat, d: nat, q: nat, r: nat)
    requires x == q * d + r && r < d
    ensures x % d == r
  {
    var e := x / d;
    assert x == e * d + x % d;
    if e < q { MulOrder(e, q, d); }
    if q < e { MulOrder(q, e, d); }
  }

  lemma ModDouble(h: nat, p: nat)
    requires p > 0
    ensures h % (2 * p) == h % 2 + 2 * (h / 2 % p)
  {
    var q, r := h / 2 / p, h / 2 % p;
    assert h / 2 == q * p + r;
    assert q * (2 * p) == 2 * (q * p);
    Remainder(h, 2 * p, q, h % 2 + 2 * r);
  }

  /** With a power of two of buckets, masking the hash is taking its remainder. */
  lemma {:induction false} MaskIsMod(hash: nat, length: nat)
    requires PowerOfTwo(length)
    ensures And(hash, length - 1) == hash % length
    decreases length
  {
    if length > 1 {
      var half := length / 2;
      MaskIsMod(hash / 2, half);
      assert (length - 1) / 2 == half - 1 && (length - 1) % 2 == 1;
      ModDouble(hash, half);
    }
  }

  // ----------------------------------------------------------------- the buckets

  function Count(list: seq<seq<Node>>): nat {
    if list == [] then 0 else |list[0]| + Count(list[1..])
  }

  lemma {:induction false} CountUpdate(list: seq<seq<Node>>, b: nat, chain: seq<Node>)
    requires b < |list|
    ensures Count(list[b := chain]) == Count(list) - |list[b]| + |chain|
  {
    var l := list[b := chain];
    if b == 0 {
      assert l[1..] == list[1..];
    } else {
      assert l[1..] == list[1..][b - 1 := chain];
      CountUpdate(list[1..], b - 1, chain);
    }
  }

  lemma {:induction false} CountEmpty(list: seq<seq<Node>>)
    requires forall b | 0 <= b < |list| :: list[b] == []
    ensures Count(list) == 0
  {
    if list != [] {
      CountEmpty(list[1..]);
    }
  }

  /** Every handle is in the bucket of its hash, and no key twice in a bucket. */
  ghost predicate Bucketed(list: seq<seq<Node>>) {
    && |list| > 0
    && (forall b, i | 0 <= b < |list| && 0 <= i < |list[b]| :: list[b][i].hash % |list| == b)
    && (forall b | 0 <= b < |list| :: NoTwins(list[b]))
  }

  ghost predicate NoTwins(chain: seq<Node>) {
    forall i, j | 0 <= i < j < |chain| :: !Matches(chain[i], chain[j].key, chain[j].hash)
  }

  ghost predicate Held(list: seq<seq<Node>>, n: Node) {
    exists b | 0 <= b < |list| :: n in list[b]
  }

  /** A handle can only be in the bucket of its hash. */
  lemma HeldWhere(list: seq<seq<Node>>, n: Node)
    requires Bucketed(list)
    ensures Held(list, n) <==> n in list[n.hash % |list|]
  {
    if Held(list, n) {
      var b :| 0 <= b < |list| && n in list[b];
      var i :| 0 <= i < |list[b]| && list[b][i] == n;
    }
  }

  /** At most one handle for a key. */
  lemma HeldOnce(list: seq<seq<Node>>, m: Node, n: Node)
    requires Bucketed(list) && Held(list, m) && Held(list, n) && Matches(m, n.key, n.hash)
    ensures m == n
  {
    HeldWhere(list, m);
    HeldWhere(list, n);
    var b := m.hash % |list|;
    var i :| 0 <= i < |list[b]| && list[b][i] == m;
    var j :| 0 <= j < |list[b]| && list[b][j] == n;
    assert NoTwins(list[b]);
  }

  lemma NoneMatches(list: seq<seq<Node>>, m: Node, l: seq<seq<Node>>)
    requires Bucketed(list) && Held(list, m) && forall n :: Held(l, n) <==> Held(list, n) && n != m
    ensures forall n | Held(l, n) :: !Matches(n, m.key, m.hash)
  {
    hide Held, Bucketed;
    forall n | Held(list, n) && Matches(n, m.key, m.hash) ensures n == m { HeldOnce(list, n, m); }
  }

  class HandleTable {
    var length: nat
    var elems: nat
    var list: seq<seq<Node>>

    ghost predicate Linked()
      reads this
    {
      |list| == length && PowerOfTwo(length) && Bucketed(list) && elems == Count(list)
    }

    /** There are never fewer buckets than handles. */
    ghost predicate Valid()
      reads this
    {
      Linked() && 4 <= length && elems <= length
    }

    constructor ()
      ensures Valid() && forall n :: !Held(list, n)
    {
      length, elems, list := 4, 0, seq(4, _ => []);
      new;
      assert PowerOfTwo(2);
      CountEmpty(list);
    }

    /** FindPointer: the matching handle's place in its chain, or the chain's end. */
    method FindPointer(key: Bytes, hash: nat) returns (b: nat, i: nat)
      requires Valid()
      ensures b == hash % length && i <= |list[b]|
      ensures i < |list[b]| ==> Matches(list[b][i], key, hash)
      ensures forall j | 0 <= j < i :: !Matches(list[b][j], key, hash)
    {
      hide And, PowerOfTwo;
      MaskIsMod(hash, length);
      b, i := And(hash, length - 1), 0;
      while i < |list[b]| && (list[b][i].hash != hash || list[b][i].key != key)
        invariant 0 <= i <= |list[b]|
        invariant forall j | 0 <= j < i :: !Matches(list[b][j], key, hash)
      {
        i := i + 1;
      }
    }

    method Lookup(key: Bytes, hash: nat) returns (r: Option<Node>)
      requires Valid()
      ensures r.Some? ==> Held(list, r.value) && Matches(r.value, key, hash)
      ensures r.None? ==> forall n | Held(list, n) :: !Matches(n, key, hash)
    {
      var b, i := FindPointer(key, hash);
      if i < |list[b]| {
        r := Some(list[b][i]);
      } else {
        r := None;
        forall n | Held(list, n) ensures !Matches(n, key, hash) {
          HeldWhere(list, n);
        }
      }
    }

    /** Put `h` in the place of the handle for the same key, or at the end of its chain. */
    method Insert(h: Node) returns (out: Option<Node>)
      requires Valid()
      modifies this
      ensures Valid()
      ensures out.Some? ==> old(Held(list, out.value)) && Matches(out.value, h.key, h.hash)
      ensures out.None? ==> forall n | old(Held(list, n)) :: !Matches(n, h.key, h.hash)
      ensures forall n :: Held(list, n) <==> n == h || (old(Held(list, n)) && out != Some(n))
      ensures elems == old(elems) + (if out.None? then 1 else 0)
      ensures length == if elems <= old(length) then old(length) else 2 * old(length)
    {
      hide Held, Count;
      var b, i := FindPointer(h.key, h.hash);
      var chain := list[b];
      CountUpdate(list, b, if i < |chain| then chain[i := h] else chain + [h]);
      if i < |chain| {
        out := Some(chain[i]);
        list := list[b := chain[i := h]];
        Replaced(old(list), b, i, h, list);
      } else {
        out := None;
        list := list[b := chain + [h]];
        Appended(old(list), b, h, list);
        elems := elems + 1;
        ghost var mid := list;
        if elems > length {
          Resize();
          PowersApart(old(length), length);
        }
        assert forall n :: Held(list, n) <==> Held(mid, n);
        assert forall n :: Held(mid, n) <==> n == h || Held(old(list), n);
      }
    }

    method Remove(key: Bytes, hash: nat) returns (r: Option<Node>)
      requires Valid()
      modifies this
      ensures Valid()
      ensures r.Some? ==> old(Held(list, r.value)) && Matches(r.value, key, hash)
      ensures r.None? ==> forall n | old(Held(list, n)) :: !Matches(n, key, hash)
      ensures forall n :: Held(list, n) <==> old(Held(list, n)) && r != Some(n)
      ensures forall n | Held(list, n) :: !Matches(n, key, hash)
      ensures elems == old(elems) - (if r.Some? then 1 else 0) && length == old(length)
    {
      hide And, PowerOfTwo, Count;
      var b, i := FindPointer(key, hash);
      var chain := list[b];
      if i < |chain| {
        r := Some(chain[i]);
        CountUpdate(list, b, chain[..i] + chain[i + 1..]);
        CountPart(list, b);
        list := list[b := chain[..i] + chain[i + 1..]];
        elems := elems - 1;
        Unlinked(old(list), b, i, list);
        NoneMatches(old(list), r.value, list);
      } else {
        r := None;
        forall n | Held(list, n) ensures !Matches(n, key, hash) {
          HeldWhere(list, n);
        }
      }
    }

    /** Rehash into as few buckets as will do, a power of two from 4 on; what the table holds stays the same. */
    method Resize()
      requires Linked()
      modifies this
      ensures Valid() && (forall n :: Held(list, n) <==> old(Held(list, n)))
      ensures elems == old(elems) && (length == 4 || length < 2 * elems)
    {
      var newLength := 4;
      assert PowerOfTwo(2);
      while newLength < elems
        invariant newLength >= 4 && PowerOfTwo(newLength) && (newLength == 4 || newLength < 2 * elems)
      {
        newLength := newLength * 2;
      }
      var newList: seq<seq<Node>> := seq(newLength, _ => []);
      CountEmpty(newList);
      for b := 0 to length
        invariant Linked() && list == old(list) && length == old(length) && elems == old(elems)
        invariant Bucketed(newList) && |newList| == newLength
        invariant forall n :: Held(newList, n) <==> exists c | 0 <= c < b :: n in list[c]
        invariant Count(newList) + Count(list[b..]) == elems
      {
        assert list[b..][0] == list[b] && list[b..][1..] == list[b + 1..];
        newList := MoveChain(newList, list, b);
      }
      assert list[length..] == [];
      list := newList;
      length := newLength;
    }

    /** Push the handles of one old bucket on the front of their new ones. */
    method MoveChain(into: seq<seq<Node>>, from: seq<seq<Node>>, b: nat) returns (list: seq<seq<Node>>)
      requires Bucketed(into) && Bucketed(from) && b < |from| && PowerOfTwo(|into|)
      requires forall n :: Held(into, n) <==> exists c | 0 <= c < b :: n in from[c]
      ensures Bucketed(list) && |list| == |into| && Count(list) == Count(into) + |from[b]|
      ensures forall n :: Held(list, n) <==> exists c | 0 <= c < b + 1 :: n in from[c]
    {
      list := into;
      var chain := from[b];
      for i := 0 to |chain|
        invariant Bucketed(list) && |list| == |into| && Count(list) == Count(into) + i
        invariant forall n :: Held(list, n) <==> Held(into, n) || n in chain[..i]
      {
        var h := chain[i];
        MaskIsMod(h.hash, |list|);
        var c := And(h.hash, |list| - 1);
        forall n | Held(list, n) ensures !Matches(n, h.key, h.hash) {
          NotMovedYet(into, from, b, i, n);
        }
        CountUpdate(list, c, [h] + list[c]);
        Pushed(list, c, h);
        list := list[c := [h] + list[c]];
        assert chain[..i + 1] == chain[..i] + [h];
      }
      assert chain[..|chain|] == chain;
    }
  }

  lemma NotMovedYet(into: seq<seq<Node>>, from: seq<seq<Node>>, b: nat, i: nat, n: Node)
    requires Bucketed(from) && b < |from| && i < |from[b]|
    requires forall m :: Held(into, m) <==> exists c | 0 <= c < b :: m in from[c]
    requires Held(into, n) || n in from[b][..i]
    ensures !Matches(n, from[b][i].key, from[b][i].hash)
  {
    if Held(into, n) {
      var c :| 0 <= c < b && n in from[c];
      var j :| 0 <= j < |from[c]| && from[c][j] == n;
    } else {
      var j :| 0 <= j < i && from[b][..i][j] == n;
      assert NoTwins(from[b]);
    }
  }

  lemma Pushed(list: seq<seq<Node>>, c: nat, h: Node)
    requires Bucketed(list) && c == h.hash % |list|
    requires forall n | Held(list, n) :: !Matches(n, h.key, h.hash)
    ensures Bucketed(list[c := [h] + list[c]])
    ensures forall n :: Held(list[c := [h] + list[c]], n) <==> n == h || Held(list, n)
  {
    var l := list[c := [h] + list[c]];
    forall j | 0 <= j < |list[c]| ensures !Matches(h, list[c][j].key, list[c][j].hash) {
      assert Held(list, list[c][j]);
    }
    assert NoTwins(list[c]);
    assert NoTwins(l[c]);
    forall b | 0 <= b < |l| ensures NoTwins(l[b]) {
      if b != c { assert NoTwins(list[b]); }
    }
    forall n ensures Held(l, n) <==> n == h || Held(list, n) {
      if n == h { assert n in l[c]; }
      if Held(list, n) {
        var b :| 0 <= b < |list| && n in list[b];
        assert n in l[b];
      }
      if Held(l, n) {
        var b :| 0 <= b < |l| && n in l[b];
        assert n == h || n in list[b];
      }
    }
  }

  lemma Appended(list: seq<seq<Node>>, c: nat, h: Node, l: seq<seq<Node>>)
    requires Bucketed(list) && c == h.hash % |list| && l == list[c := list[c] + [h]]
    requires forall j | 0 <= j < |list[c]| :: !Matches(list[c][j], h.key, h.hash)
    ensures Bucketed(l)
    ensures forall n :: Held(l, n) <==> n == h || Held(list, n)
    ensures forall n | Held(list, n) :: !Matches(n, h.key, h.hash)
  {
    forall n | Held(list, n) ensures !Matches(n, h.key, h.hash) {
      HeldWhere(list, n);
    }
    assert NoTwins(list[c]);
    assert NoTwins(l[c]);
    forall b | 0 <= b < |l| ensures NoTwins(l[b]) {
      if b != c { assert NoTwins(list[b]); }
    }
    forall n ensures Held(l, n) <==> n == h || Held(list, n) {
      if n == h { assert n in l[c]; }
      if Held(list, n) {
        var b :| 0 <= b < |list| && n in list[b];
        assert n in l[b];
      }
      if Held(l, n) {
        var b :| 0 <= b < |l| && n in l[b];
        assert n == h || n in list[b];
      }
    }
  }

  lemma Replaced(list: seq<seq<Node>>, c: nat, i: nat, h: Node, l: seq<seq<Node>>)
    requires Bucketed(list) && c == h.hash % |list| && i < |list[c]| && Matches(list[c][i], h.key, h.hash)
    requires l == list[c := list[c][i := h]]
    ensures Held(list, list[c][i]) && Bucketed(l)
    ensures forall n :: Held(l, n) <==> n == h || (Held(list, n) && n != list[c][i])
  {
    var chain, was := list[c][i := h], list[c][i];
    assert NoTwins(list[c]);
    assert NoTwins(l[c]);
    forall b | 0 <= b < |l| ensures NoTwins(l[b]) {
      if b != c { assert NoTwins(list[b]); }
    }
    assert was in list[c];
    forall n ensures Held(l, n) <==> n == h || (Held(list, n) && n != was) {
      HeldWhere(list, n);
      HeldWhere(l, n);
      if n == h { assert chain[i] == h; }
      if n in list[c] && n != was {
        var j :| 0 <= j < |list[c]| && list[c][j] == n;
        assert chain[j] == n;
      }
      if n in chain && n != h {
        var j :| 0 <= j < |chain| && chain[j] == n;
        assert j != i && list[c][j] == n;
        assert !(list[c][i] == list[c][j]) by { OneTwin(list[c], i, j); }
      }
    }
  }

  lemma OneTwin(chain: seq<Node>, i: nat, j: nat)
    requires NoTwins(chain) && i < |chain| && j < |chain| && i != j
    ensures chain[i] != chain[j]
  {
    if i < j {
      assert !Matches(chain[i], chain[j].key, chain[j].hash);
    } else {
      assert !Matches(chain[j], chain[i].key, chain[i].hash);
    }
  }

  lemma Unlinked(list: seq<seq<Node>>, c: nat, i: nat, l: seq<seq<Node>>)
    requires Bucketed(list) && c < |list| && i < |list[c]| && l == list[c := list[c][..i] + list[c][i + 1..]]
    ensures Held(list, list[c][i]) && Bucketed(l)
    ensures forall n :: Held(l, n) <==> Held(list, n) && n != list[c][i]
  {
    var chain, was := list[c][..i] + list[c][i + 1..], list[c][i];
    assert NoTwins(list[c]);
    assert NoTwins(l[c]);
    forall b | 0 <= b < |l| ensures NoTwins(l[b]) {
      if b != c { assert NoTwins(list[b]); }
    }
    assert was in list[c];
    forall n ensures Held(l, n) <==> Held(list, n) && n != was {
      HeldWhere(list, n);
      HeldWhere(l, n);
      if n in list[c] && n != was {
        var j :| 0 <= j < |list[c]| && list[c][j] == n;
        assert chain[if j < i then j else j - 1] == n;
      }
      if n in chain {
        var j :| 0 <= j < |chain| && chain[j] == n;
        var k := if j < i then j else j + 1;
        assert list[c][k] == n;
        OneTwin(list[c], i, k);
      }
    }
  }

  lemma {:induction false} CountPart(list: seq<seq<Node>>, b: nat)
    requires b < |list|
    ensures |list[b]| <= Count(list)
  {
    if b > 0 {
      CountPart(list[1..], b - 1);
    }
  }
}
