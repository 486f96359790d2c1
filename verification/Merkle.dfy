/**
 The Merkle accumulator: a binary counter whose slot i, when occupied, holds the root of
 a perfect tree over 2^i consecutive leaves. Any hash function.
 */
module Merkle {
  import opened Entries

  const SLOTS: nat := 100

  function Join(hash: Bytes -> Bytes, a: Bytes, b: Bytes): Bytes {
    hash(a + b)
  }

  /** The next row of the tree: neighbours joined, an odd one out left behind. */
  function Pairs(hash: Bytes -> Bytes, row: seq<Bytes>): (r: seq<Bytes>)
    ensures |r| == |row| / 2
    ensures forall k | 0 <= k < |r| :: r[k] == Join(hash, row[2 * k], row[2 * k + 1])
  {
    seq(|row| / 2, k requires 0 <= k < |row| / 2 => Join(hash, row[2 * k], row[2 * k + 1]))
  }

  /** Slots i and up hold what is left over from `row` and the rows above it. */
  ghost predicate Holds(hash: Bytes -> Bytes, slots: seq<Option<Bytes>>, i: nat, row: seq<Bytes>)
    requires |slots| == SLOTS && i <= SLOTS
    decreases SLOTS - i, row
  {
    if i == SLOTS then row == []
    else
      && slots[i] == (if |row| % 2 == 1 then Some(row[|row| - 1]) else None)
      && Holds(hash, slots, i + 1, Pairs(hash, row))
  }

  /** The carry chain of an insertion from slot i on. */
  function Carry(hash: Bytes -> Bytes, slots: seq<Option<Bytes>>, i: nat, carry: Bytes): (r: seq<Option<Bytes>>)
    requires |slots| == SLOTS && i <= SLOTS
    ensures |r| == SLOTS && r[..i] == slots[..i]
    decreases SLOTS - i, carry
  {
    if i == SLOTS then slots
    else if slots[i].None? then slots[i := Some(carry)]
    else
      var r := Carry(hash, slots[i := None], i + 1, Join(hash, slots[i].value, carry));
      assert r[..i] == r[..i + 1][..i] == slots[..i];
      r
  }

  lemma PairsOdd(hash: Bytes -> Bytes, row: seq<Bytes>, x: Bytes)
    ensures |row| % 2 == 0 ==> Pairs(hash, row + [x]) == Pairs(hash, row)
    ensures |row| % 2 == 1 ==> Pairs(hash, row + [x]) == Pairs(hash, row) + [Join(hash, row[|row| - 1], x)]
  {
    var a, b := Pairs(hash, row + [x]), Pairs(hash, row);
    if |row| % 2 == 0 {
      assert a == b;
    } else {
      assert |a| == |b| + 1 && 2 * |b| == |row| - 1;
      assert a == b + [Join(hash, row[|row| - 1], x)];
    }
  }

  lemma PairsLength(hash: Bytes -> Bytes, row: seq<Bytes>)
    ensures |Pairs(hash, row)| == |row| / 2
  {
  }

  /** Slots below i play no part. */
  lemma {:induction false} HoldsFrame(hash: Bytes -> Bytes, a: seq<Option<Bytes>>, b: seq<Option<Bytes>>, i: nat, row: seq<Bytes>)
    requires |a| == |b| == SLOTS && i <= SLOTS && a[i..] == b[i..] && Holds(hash, a, i, row)
    ensures Holds(hash, b, i, row)
    decreases SLOTS - i
  {
    if i < SLOTS {
      assert a[i] == a[i..][0] == b[i];
      assert a[i + 1..] == a[i..][1..] == b[i..][1..] == b[i + 1..];
      HoldsFrame(hash, a, b, i + 1, Pairs(hash, row));
    }
  }

  /** Inserting appends a leaf to the row. */
  lemma {:induction false} CarryHolds(hash: Bytes -> Bytes, slots: seq<Option<Bytes>>, i: nat, row: seq<Bytes>, x: Bytes)
    requires |slots| == SLOTS && i <= SLOTS && Holds(hash, slots, i, row)
    requires |row| + 1 < Power(SLOTS - i)
    ensures Holds(hash, Carry(hash, slots, i, x), i, row + [x])
    decreases SLOTS - i
  {
    hide Pairs, Join;
    var r := Carry(hash, slots, i, x);
    PairsOdd(hash, row, x);
    PairsLength(hash, row);
    assert i < SLOTS;
    if |row| % 2 == 0 {
      HoldsFrame(hash, slots, r, i + 1, Pairs(hash, row));
    } else {
      var up := slots[i := None];
      HoldsFrame(hash, slots, up, i + 1, Pairs(hash, row));
      var carry := Join(hash, row[|row| - 1], x);
      CarryHolds(hash, up, i + 1, Pairs(hash, row), carry);
      assert r[..i + 1] == up[..i + 1] && r[i] == r[..i + 1][i] == up[i] == None;
    }
  }

  class Accumulator {
    const hash: Bytes -> Bytes
    const tree: array<Option<Bytes>>
    ghost var leaves: seq<Bytes>

    ghost predicate Valid()
      reads this, tree
    {
      tree.Length == SLOTS && Holds(hash, tree[..], 0, leaves)
    }

    constructor (hash: Bytes -> Bytes)
      ensures Valid() && fresh(tree) && this.hash == hash && leaves == []
    {
      this.hash := hash;
      tree := new Option<Bytes>[SLOTS](_ => None);
      leaves := [];
      new;
      EmptyHolds(hash, tree[..], 0);
    }

    /** insert: the hash of the message becomes the next leaf. */
    method Insert(message: Bytes)
      requires Valid() && |leaves| + 1 < Power(SLOTS)
      modifies tree, this`leaves
      ensures Valid() && leaves == old(leaves) + [hash(message)]
    {
      hide Holds, Power;
      var carry := hash(message);
      ghost var whole := Carry(hash, tree[..], 0, carry);
      CarryHolds(hash, tree[..], 0, leaves, carry);
      var i := 0;
      while i < SLOTS
        invariant 0 <= i <= SLOTS && leaves == old(leaves)
        invariant Carry(hash, tree[..], i, carry) == whole
      {
        if tree[i] == None {
          assert tree[..][i := Some(carry)] == whole;
          tree[i] := Some(carry);
          break;
        } else {
          ghost var before := tree[..];
          carry := hash(tree[i].value + carry);
          tree[i] := None;
          assert tree[..] == before[i := None];
        }
        i := i + 1;
      }
      assert tree[..] == whole;
      leaves := leaves + [hash(message)];
    }
  }

  lemma {:induction false} EmptyHolds(hash: Bytes -> Bytes, slots: seq<Option<Bytes>>, i: nat)
    requires |slots| == SLOTS && i <= SLOTS && forall j | 0 <= j < SLOTS :: slots[j] == None
    ensures Holds(hash, slots, i, [])
    decreases SLOTS - i
  {
    if i < SLOTS {
      assert Pairs(hash, []) == [];
      EmptyHolds(hash, slots, i + 1);
    }
  }

  // -------------------------------------------------------------- what the slots mean

  function Row(hash: Bytes -> Bytes, leaves: seq<Bytes>, i: nat): seq<Bytes>
    decreases i, leaves
  {
    if i == 0 then leaves else Pairs(hash, Row(hash, leaves, i - 1))
  }

  /** The root of the perfect tree over 2^i leaves. */
  function Root(hash: Bytes -> Bytes, i: nat, leaves: seq<Bytes>): Bytes
    requires |leaves| == Power(i)
  {
    if i == 0 then leaves[0]
    else
      var half := Power(i - 1);
      hash(Root(hash, i - 1, leaves[..half]) + Root(hash, i - 1, leaves[half..]))
  }

  lemma {:induction false} HoldsRow(hash: Bytes -> Bytes, slots: seq<Option<Bytes>>, leaves: seq<Bytes>, i: nat)
    requires |slots| == SLOTS && i <= SLOTS && Holds(hash, slots, 0, leaves)
    ensures Holds(hash, slots, i, Row(hash, leaves, i))
    decreases i
  {
    hide Holds, Pairs;
    if i > 0 {
      HoldsRow(hash, slots, leaves, i - 1);
      HoldsAt(hash, slots, i - 1, Row(hash, leaves, i - 1));
    }
  }

  /** n >> i and k << i. */
  function Shr(n: nat, i: nat): nat
    decreases i, n
  {
    if i == 0 then n else Shr(n, i - 1) / 2
  }

  function Shl(k: nat, i: nat): nat
    decreases i, k
  {
    if i == 0 then k else Shl(2 * k, i - 1)
  }

  lemma {:induction false} ShlNext(k: nat, i: nat)
    ensures Shl(k + 1, i) == Shl(k, i) + Power(i)
    decreases i
  {
    if i > 0 {
      ShlNext(2 * k, i - 1);
      ShlNext(2 * k + 1, i - 1);
    }
  }

  lemma {:induction false} ShlFits(n: nat, k: nat, i: nat)
    requires k <= Shr(n, i)
    ensures Shl(k, i) <= n
    decreases i
  {
    if i > 0 {
      ShlFits(n, 2 * k, i - 1);
    }
  }

  /** Row i has one node for every full run of 2^i leaves. */
  lemma {:induction false} RowLength(hash: Bytes -> Bytes, leaves: seq<Bytes>, i: nat)
    ensures |Row(hash, leaves, i)| == Shr(|leaves|, i)
    decreases i
  {
    if i > 0 {
      RowLength(hash, leaves, i - 1);
    }
  }

  lemma RunFits(n: nat, k: nat, i: nat)
    requires k < Shr(n, i)
    ensures Shl(k, i) + Power(i) == Shl(k + 1, i) <= n
  {
    ShlNext(k, i);
    ShlFits(n, k + 1, i);
  }

  /** Node k of row i is the root over the k-th run of 2^i leaves. */
  lemma {:induction false} RowIsRoots(hash: Bytes -> Bytes, leaves: seq<Bytes>, i: nat, k: nat)
    requires k < Shr(|leaves|, i)
    ensures k < |Row(hash, leaves, i)| && Shl(k, i) + Power(i) == Shl(k + 1, i) <= |leaves|
    ensures Row(hash, leaves, i)[k] == Root(hash, i, leaves[Shl(k, i)..Shl(k + 1, i)])
    decreases i
  {
    hide Root, Row, Shl, Shr, Power, Join, Pairs;
    RowLength(hash, leaves, i);
    RunFits(|leaves|, k, i);
    if i == 0 {
      RowZero(hash, leaves, k);
    } else {
      ShlStep(|leaves|, k, i);
      var a, b, c := Shl(2 * k, i - 1), Shl(2 * k + 1, i - 1), Shl(2 * k + 2, i - 1);
      RowIsRoots(hash, leaves, i - 1, 2 * k);
      RowIsRoots(hash, leaves, i - 1, 2 * k + 1);
      RowStep(hash, leaves, i, k);
      assert leaves[a..c] == leaves[a..b] + leaves[b..c];
      RootStep(hash, i, leaves[a..b], leaves[b..c]);
    }
  }

  lemma RowZero(hash: Bytes -> Bytes, leaves: seq<Bytes>, k: nat)
    requires k < Shr(|leaves|, 0)
    ensures Power(0) == 1 && Shl(k, 0) == k && Shl(k + 1, 0) == k + 1 && Shr(|leaves|, 0) == |leaves|
    ensures Row(hash, leaves, 0) == leaves && leaves[k] == Root(hash, 0, leaves[k..k + 1])
  {
  }

  lemma RowStep(hash: Bytes -> Bytes, leaves: seq<Bytes>, i: nat, k: nat)
    requires i > 0 && k < |Row(hash, leaves, i)|
    ensures
      var row := Row(hash, leaves, i - 1);
      2 * k + 1 < |row| && Row(hash, leaves, i)[k] == Join(hash, row[2 * k], row[2 * k + 1])
  {
  }

  lemma RootStep(hash: Bytes -> Bytes, i: nat, a: seq<Bytes>, b: seq<Bytes>)
    requires i > 0 && |a| == |b| == Power(i - 1)
    ensures |a + b| == Power(i) && Root(hash, i, a + b) == Join(hash, Root(hash, i - 1, a), Root(hash, i - 1, b))
  {
    assert (a + b)[..|a|] == a && (a + b)[|a|..] == b;
  }

  lemma ShlStep(n: nat, k: nat, i: nat)
    requires i > 0
    ensures Shl(k, i) == Shl(2 * k, i - 1) && Shl(k + 1, i) == Shl(2 * k + 2, i - 1)
    ensures k < Shr(n, i) ==> 2 * k + 1 < Shr(n, i - 1)
  {
  }

  /** The number of leaves with its low i bits cleared: the leaves that slots i and up stand for. */
  function Covered(n: nat, i: nat): nat {
    Shl(Shr(n, i), i)
  }

  /** Slot i is occupied exactly when bit i of the number of leaves is 1, and then holds the root over the
      2^i leaves that follow those of the slots above it. */
  lemma SlotMeans(hash: Bytes -> Bytes, slots: seq<Option<Bytes>>, leaves: seq<Bytes>, i: nat)
    requires |slots| == SLOTS && i < SLOTS && Holds(hash, slots, 0, leaves)
    ensures slots[i].Some? <==> Shr(|leaves|, i) % 2 == 1
    ensures Covered(|leaves|, i + 1) <= Covered(|leaves|, i) <= |leaves|
    ensures Covered(|leaves|, i) == Covered(|leaves|, i + 1) + if slots[i].Some? then Power(i) else 0
    ensures slots[i].Some? ==>
      slots[i].value == Root(hash, i, leaves[Covered(|leaves|, i + 1)..Covered(|leaves|, i)])
  {
    hide Root, Row, Shr, Shl, Power, Holds;
    var q := Shr(|leaves|, i);
    HoldsRow(hash, slots, leaves, i);
    HoldsAt(hash, slots, i, Row(hash, leaves, i));
    RowLength(hash, leaves, i);
    ShlFits(|leaves|, q, i);
    CoveredStep(|leaves|, i);
    if q % 2 == 1 {
      RowIsRoots(hash, leaves, i, q - 1);
    }
  }

  lemma HoldsAt(hash: Bytes -> Bytes, slots: seq<Option<Bytes>>, i: nat, row: seq<Bytes>)
    requires |slots| == SLOTS && i < SLOTS && Holds(hash, slots, i, row)
    ensures slots[i] == (if |row| % 2 == 1 then Some(row[|row| - 1]) else None)
    ensures Holds(hash, slots, i + 1, Pairs(hash, row))
  {
  }

  lemma CoveredStep(n: nat, i: nat)
    ensures var q := Shr(n, i); Covered(n, i + 1) == Shl(q - q % 2, i)
  {
  }

  /** So the runs, from the highest slot down, are all the leaves in order. */
  lemma RunsTile(hash: Bytes -> Bytes, slots: seq<Option<Bytes>>, leaves: seq<Bytes>)
    requires |slots| == SLOTS && Holds(hash, slots, 0, leaves)
    ensures Concat(hash, slots, leaves, 0) == leaves
  {
    TilesFrom(hash, slots, leaves, 0);
    assert leaves[..|leaves|] == leaves;
  }

  /** The runs of slots i and up, highest first. */
  ghost function Concat(hash: Bytes -> Bytes, slots: seq<Option<Bytes>>, leaves: seq<Bytes>, i: nat): seq<Bytes>
    requires |slots| == SLOTS && i <= SLOTS && Holds(hash, slots, 0, leaves)
    decreases SLOTS - i, leaves
  {
    if i == SLOTS then []
    else
      SlotMeans(hash, slots, leaves, i);
      Concat(hash, slots, leaves, i + 1)
      + if slots[i].Some? then leaves[Covered(|leaves|, i + 1)..Covered(|leaves|, i)] else []
  }

  lemma {:induction false} TilesFrom(hash: Bytes -> Bytes, slots: seq<Option<Bytes>>, leaves: seq<Bytes>, i: nat)
    requires |slots| == SLOTS && i <= SLOTS && Holds(hash, slots, 0, leaves)
    ensures Covered(|leaves|, i) <= |leaves| && Concat(hash, slots, leaves, i) == leaves[..Covered(|leaves|, i)]
    decreases SLOTS - i
  {
    hide Holds;
    if i == SLOTS {
      NothingAbove(hash, slots, leaves);
    } else {
      SlotMeans(hash, slots, leaves, i);
      TilesFrom(hash, slots, leaves, i + 1);
    }
  }

  lemma NothingAbove(hash: Bytes -> Bytes, slots: seq<Option<Bytes>>, leaves: seq<Bytes>)
    requires |slots| == SLOTS && Holds(hash, slots, 0, leaves)
    ensures Covered(|leaves|, SLOTS) == 0
  {
    HoldsRow(hash, slots, leaves, SLOTS);
    RowLength(hash, leaves, SLOTS);
    ShlZero(SLOTS);
  }

  lemma {:induction false} ShlZero(i: nat)
    ensures Shl(0, i) == 0
    decreases i
  {
    if i > 0 {
      ShlZero(i - 1);
    }
  }
}
