/**
 Two levels read as one: an index of separator keys over blocks of entries, and where a
 target is found in the flat list of all of them.
 */
module TwoLevel {
  import opened Entries
  import opened Blocks
  import opened BlockIters

  type Less = (Bytes, Bytes) -> bool

  /** The entries of the first i blocks, in order. */
  function Upto(blocks: seq<seq<Pair>>, i: nat): seq<Pair>
    requires i <= |blocks|
    decreases i, blocks
  {
    if i == 0 then [] else Upto(blocks, i - 1) + blocks[i - 1]
  }

  function Flat(blocks: seq<seq<Pair>>): seq<Pair> {
    Upto(blocks, |blocks|)
  }

  lemma {:induction false} UptoPrefix(blocks: seq<seq<Pair>>, i: nat, n: nat)
    requires i <= n <= |blocks|
    ensures Upto(blocks, i) <= Upto(blocks, n)
    decreases n
  {
    if i < n {
      UptoPrefix(blocks, i, n - 1);
    }
  }

  /** Entry p of block b is at place |Upto(b)| + p of the flat list. */
  lemma InFlat(blocks: seq<seq<Pair>>, b: nat, p: nat)
    requires b < |blocks| && p <= |blocks[b]|
    ensures |Upto(blocks, b)| + p <= |Flat(blocks)| && |Upto(blocks, b + 1)| == |Upto(blocks, b)| + |blocks[b]|
    ensures p < |blocks[b]| ==> |Upto(blocks, b)| + p < |Flat(blocks)| && Flat(blocks)[|Upto(blocks, b)| + p] == blocks[b][p]
  {
    UptoPrefix(blocks, b + 1, |blocks|);
    var part := Upto(blocks, b) + blocks[b];
    assert Flat(blocks)[..|part|] == part;
    assert p < |blocks[b]| ==> part[|Upto(blocks, b)| + p] == blocks[b][p];
  }

  /** seps[i] is not before any key of block i and before every key of the blocks behind it. */
  ghost predicate Separated(blocks: seq<seq<Pair>>, seps: seq<Bytes>, less: Less) {
    && |seps| == |blocks|
    && (forall i, p | 0 <= i < |blocks| && 0 <= p < |blocks[i]| :: !less(seps[i], blocks[i][p].key))
    && (forall i, j, p | 0 <= i < j < |blocks| && 0 <= p < |blocks[j]| :: less(seps[i], blocks[j][p].key))
    && (forall i, j | 0 <= i < j < |seps| :: less(seps[i], seps[j]))
  }

  /** A strict total order. */
  ghost predicate Total(less: Less) {
    && Transitive(less) && (forall a :: !less(a, a)) && (forall a, b | a != b :: less(a, b) || less(b, a))
  }

  function Keyed(seps: seq<Bytes>): (r: seq<Pair>)
    ensures |r| == |seps| && forall i | 0 <= i < |seps| :: r[i] == Pair(seps[i], [])
  {
    seq(|seps|, i requires 0 <= i < |seps| => Pair(seps[i], []))
  }

  /** Blocks before the one the index finds hold only entries before the target. */
  lemma {:induction false} AllBefore(blocks: seq<seq<Pair>>, seps: seq<Bytes>, less: Less, target: Bytes, i: nat, n: nat)
    requires Separated(blocks, seps, less) && Total(less) && n <= i <= |blocks|
    requires forall k | 0 <= k < i :: less(seps[k], target)
    ensures forall k | 0 <= k < |Upto(blocks, n)| :: less(Upto(blocks, n)[k].key, target)
    decreases n
  {
    if n > 0 {
      AllBefore(blocks, seps, less, target, i, n - 1);
      var b := n - 1;
      forall p | 0 <= p < |blocks[b]| ensures less(blocks[b][p].key, target) {
        assert less(seps[b], target) && !less(seps[b], blocks[b][p].key);
      }
    }
  }

  /** The flat list's place for the target is in the block the index finds, or right behind it. */
  lemma FlatBound(blocks: seq<seq<Pair>>, seps: seq<Bytes>, less: Less, target: Bytes)
    requires Separated(blocks, seps, less) && Total(less)
    ensures
      var i := LowerBound(Keyed(seps), less, target);
      var flat := LowerBound(Flat(blocks), less, target);
      i <= |blocks| &&
      if i == |blocks| then flat == |Flat(blocks)|
      else flat == |Upto(blocks, i)| + LowerBound(blocks[i], less, target)
  {
    var i := LowerBound(Keyed(seps), less, target);
    assert forall k | 0 <= k < i :: Keyed(seps)[k].key == seps[k];
    AllBefore(blocks, seps, less, target, i, i);
    if i == |blocks| {
      LowerBoundIs(Flat(blocks), less, target, |Flat(blocks)|);
    } else {
      assert Keyed(seps)[i].key == seps[i];
      var p := LowerBound(blocks[i], less, target);
      FlatFrom(blocks, seps, less, target, i, p);
    }
  }

  lemma FlatFrom(blocks: seq<seq<Pair>>, seps: seq<Bytes>, less: Less, target: Bytes, i: nat, p: nat)
    requires Separated(blocks, seps, less) && Total(less) && i < |blocks| && !less(seps[i], target)
    requires forall k | 0 <= k < |Upto(blocks, i)| :: less(Upto(blocks, i)[k].key, target)
    requires p == LowerBound(blocks[i], less, target)
    ensures LowerBound(Flat(blocks), less, target) == |Upto(blocks, i)| + p
  {
    hide Separated, Total, Upto, LowerBound;
    var flat, at := Flat(blocks), |Upto(blocks, i)| + p;
    UptoPrefix(blocks, i, |blocks|);
    InFlat(blocks, i, p);
    forall k | 0 <= k < at ensures less(flat[k].key, target) {
      if k < |Upto(blocks, i)| {
        assert flat[k] == Upto(blocks, i)[k];
      } else {
        InFlat(blocks, i, k - |Upto(blocks, i)|);
      }
    }
    if at < |flat| {
      Behind(blocks, seps, less, target, i, p);
    }
    LowerBoundIs(flat, less, target, at);
  }

  lemma Behind(blocks: seq<seq<Pair>>, seps: seq<Bytes>, less: Less, target: Bytes, i: nat, p: nat)
    requires Separated(blocks, seps, less) && Total(less) && i < |blocks| && !less(seps[i], target)
    requires p == LowerBound(blocks[i], less, target) && |Upto(blocks, i)| + p < |Flat(blocks)|
    ensures !less(Flat(blocks)[|Upto(blocks, i)| + p].key, target)
  {
    hide Total, Upto, LowerBound;
    InFlat(blocks, i, p);
    if p == |blocks[i]| {
      var j, q := Locate(blocks, i + 1, |Upto(blocks, i + 1)|);
      InFlat(blocks, j, q);
      NotBefore(less, seps[i], blocks[j][q].key, target);
    }
  }

  lemma NotBefore(less: Less, sep: Bytes, key: Bytes, target: Bytes)
    requires Total(less) && less(sep, key) && !less(sep, target)
    ensures !less(key, target)
  {
  }

  /** The block and place of a flat position at or behind block i. */
  lemma {:induction false} Locate(blocks: seq<seq<Pair>>, i: nat, at: nat) returns (j: nat, q: nat)
    requires i <= |blocks| && |Upto(blocks, i)| <= at < |Flat(blocks)|
    ensures i <= j < |blocks| && q < |blocks[j]| && at == |Upto(blocks, j)| + q
    decreases |blocks| - i
  {
    assert i < |blocks|;
    if at < |Upto(blocks, i + 1)| {
      j, q := i, at - |Upto(blocks, i)|;
    } else {
      j, q := Locate(blocks, i + 1, at);
    }
  }
}
