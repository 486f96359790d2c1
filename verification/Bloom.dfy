/**
 The Bloom filter: k probes a key, found by double hashing. A key it was built from
 always matches. Any hash function.
 */
module Bloom {
  import opened Entries
  import opened Coding
  import C = Crc32c

  // -------------------------------------------------------------- bits of a byte

  /** x & (1 << j) is not zero. */
  predicate HasBit(x: nat, j: nat)
    decreases j, x
  {
    if j == 0 then x % 2 == 1 else HasBit(x / 2, j - 1)
  }

  /** x | (1 << j) */
  function SetBit(x: nat, j: nat): nat
    decreases j, x
  {
    if j == 0 then (if x % 2 == 1 then x else x + 1) else x % 2 + 2 * SetBit(x / 2, j - 1)
  }

  lemma {:induction false} SetBitBits(x: nat, j: nat, i: nat)
    ensures HasBit(SetBit(x, j), i) <==> i == j || HasBit(x, i)
    decreases j
  {
    if j > 0 {
      assert SetBit(x, j) % 2 == x % 2 && SetBit(x, j) / 2 == SetBit(x / 2, j - 1);
      if i > 0 {
        SetBitBits(x / 2, j - 1, i - 1);
      }
    }
  }

  lemma {:induction false} SetBitRoom(x: nat, j: nat, n: nat)
    requires j < n && x < Power(n)
    ensures SetBit(x, j) < Power(n)
    decreases j
  {
    var half, p := x / 2, Power(n - 1);
    assert Power(n) == 2 * p && half < p;
    if j > 0 {
      SetBitRoom(half, j - 1, n - 1);
      HalfRoom(x % 2, SetBit(half, j - 1), p);
    } else {
      HalfRoom(1, half, p);
    }
  }

  lemma HalfRoom(bit: nat, half: nat, p: nat)
    requires bit <= 1 && half < p
    ensures bit + 2 * half < 2 * p
  {
  }

  lemma Power8()
    ensures Power(8) == 256
  {
    assert Power(4) == 16;
    assert Power(8) == 16 * Power(4);
  }

  function SetByte(x: Byte, j: nat): Byte
    requires j < 8
  {
    Power8();
    SetBitRoom(x, j, 8);
    SetBit(x, j)
  }

  // -------------------------------------------------------------- bits of the filter

  predicate Has(bytes: Bytes, bit: nat)
    requires bit / 8 < |bytes|
  {
    HasBit(bytes[bit / 8], bit % 8)
  }

  function With(bytes: Bytes, bit: nat): (r: Bytes)
    requires bit / 8 < |bytes|
    ensures |r| == |bytes|
  {
    bytes[bit / 8 := SetByte(bytes[bit / 8], bit % 8)]
  }

  lemma WithHas(bytes: Bytes, bit: nat, other: nat)
    requires bit / 8 < |bytes| && other / 8 < |bytes|
    ensures Has(With(bytes, bit), other) <==> other == bit || Has(bytes, other)
  {
    if other / 8 == bit / 8 {
      SetBitBits(bytes[bit / 8], bit % 8, other % 8);
    }
  }

  // -------------------------------------------------------------- probes

  function Rotate(h: Word32): Word32 {
    (h / 0x2_0000 + h % 0x2_0000 * 0x8000) % TWO_32
  }

  /** The j-th probe of a key with hash h: h plus j times h rotated, in 32 bits. */
  function Probe(h: Word32, delta: Word32, j: nat): Word32
    decreases j, h
  {
    if j == 0 then h else Probe((h + delta) % TWO_32, delta, j - 1)
  }

  lemma ProbeNext(h: Word32, delta: Word32, j: nat)
    ensures Probe(h, delta, j + 1) == (Probe(h, delta, j) + delta) % TWO_32
    decreases j
  {
    if j > 0 {
      ProbeNext((h + delta) % TWO_32, delta, j - 1);
    }
  }

  /** Double hashing: the j-th probe. */
  lemma {:induction false} ProbeIs(h: Word32, delta: Word32, j: nat)
    ensures Probe(h, delta, j) == (h + j * delta) % TWO_32
    decreases j
  {
    if j > 0 {
      ProbeIs(h, delta, j - 1);
      ProbeNext(h, delta, j - 1);
      var x := h + (j - 1) * delta;
      assert h + j * delta == x + delta;
      Wrapped(x, delta);
    }
  }

  lemma Wrapped(x: nat, d: nat)
    ensures (x % TWO_32 + d) % TWO_32 == (x + d) % TWO_32
  {
  }

  /** The step between probes is the hash rotated right by 17 bits. */
  lemma RotateIs(w: C.Reg)
    ensures C.Number(w) < TWO_32 && Rotate(C.Number(w)) == C.Number(w[17..] + w[..17])
  {
    hide C.Number;
    C.NumberBound(w);
    C.NumberBound(w[17..] + w[..17]);
    C.Power32();
    C.Powers();
    C.Rotated(w, 17);
  }

  /** The least number of bytes with room for that many bits a key, and for at least 64. */
  function BitsFor(n: nat, bitsPerKey: nat): (bytes: nat)
    ensures bytes >= 8
    ensures
      var bits := if n * bitsPerKey < 64 then 64 else n * bitsPerKey;
      8 * (bytes - 1) < bits <= 8 * bytes
  {
    var bits := n * bitsPerKey;
    ((if bits < 64 then 64 else bits) + 7) / 8
  }

  /** All of a key's probes are set. */
  predicate AllSet(bytes: Bytes, h: Word32, k: nat) {
    |bytes| > 0 && forall j | 0 <= j < k :: Has(bytes, Probe(h, Rotate(h), j) % (|bytes| * 8))
  }

  ghost predicate Probed(h: Word32, k: nat, bits: nat, bit: nat)
    requires bits > 0
  {
    exists j | 0 <= j < k :: Probe(h, Rotate(h), j) % bits == bit
  }

  /** Nothing but probes of the keys is set. */
  ghost predicate OnlyProbes(bytes: Bytes, hash: Bytes -> Word32, keys: seq<Bytes>, k: nat) {
    forall bit: nat | bit / 8 < |bytes| && Has(bytes, bit) ::
      exists m | 0 <= m < |keys| :: Probed(hash(keys[m]), k, |bytes| * 8, bit)
  }

  lemma NothingSet(bytes: Bytes, bit: nat)
    requires bit / 8 < |bytes| && bytes[bit / 8] == 0
    ensures !Has(bytes, bit)
  {
    ZeroBits(bit % 8);
  }

  lemma {:induction false} ZeroBits(j: nat)
    ensures !HasBit(0, j)
    decreases j
  {
    if j > 0 {
      ZeroBits(j - 1);
    }
  }

  lemma BitInRange(h: nat, n: nat)
    requires n > 0
    ensures h % (n * 8) / 8 < n
  {
  }

  /** Setting one more bit clears none. */
  lemma StaysSet(bytes: Bytes, bit: nat, h: Word32, k: nat)
    requires bit / 8 < |bytes| && AllSet(bytes, h, k)
    ensures AllSet(With(bytes, bit), h, k)
  {
    forall j | 0 <= j < k ensures Has(With(bytes, bit), Probe(h, Rotate(h), j) % (|bytes| * 8)) {
      BitInRange(Probe(h, Rotate(h), j), |bytes|);
      WithHas(bytes, bit, Probe(h, Rotate(h), j) % (|bytes| * 8));
    }
  }

  // -------------------------------------------------------------- filter and match as functions

  /** The bits with the first n probes of a key set. */
  function WithProbes(bytes: Bytes, h: Word32, n: nat): (r: Bytes)
    requires |bytes| > 0
    ensures |r| == |bytes|
    decreases n, bytes
  {
    if n == 0 then bytes else
    BitInRange(Probe(h, Rotate(h), n - 1), |bytes|);
    With(WithProbes(bytes, h, n - 1), Probe(h, Rotate(h), n - 1) % (|bytes| * 8))
  }

  /** The bits with every probe of the first n keys set. */
  function WithKeys(bytes: Bytes, hash: Bytes -> Word32, k: nat, keys: seq<Bytes>, n: nat): (r: Bytes)
    requires |bytes| > 0 && n <= |keys|
    ensures |r| == |bytes|
    decreases n, keys
  {
    if n == 0 then bytes else WithProbes(WithKeys(bytes, hash, k, keys, n - 1), hash(keys[n - 1]), k)
  }

  /** The filter of some keys: its bits, then k. */
  function FilterFor(hash: Bytes -> Word32, bitsPerKey: nat, k: Byte, keys: seq<Bytes>): Bytes {
    WithKeys(seq(BitsFor(|keys|, bitsPerKey), _ => 0), hash, k, keys, |keys|) + [k]
  }

  /** Does the filter admit the key? One too short to have bits admits nothing, one with an unknown k everything. */
  predicate Matches(hash: Bytes -> Word32, key: Bytes, filter: Bytes) {
    |filter| >= 2 && (filter[|filter| - 1] > 30 || AllSet(filter[..|filter| - 1], hash(key), filter[|filter| - 1]))
  }

  lemma {:induction false} ProbesSet(bytes: Bytes, h: Word32, n: nat)
    requires |bytes| > 0
    ensures AllSet(WithProbes(bytes, h, n), h, n)
    decreases n
  {
    hide Has, With;
    if n > 0 {
      var a, bit := WithProbes(bytes, h, n - 1), Probe(h, Rotate(h), n - 1) % (|bytes| * 8);
      BitInRange(Probe(h, Rotate(h), n - 1), |bytes|);
      ProbesSet(bytes, h, n - 1);
      StaysSet(a, bit, h, n - 1);
      WithLength(a, bit);
      WithHas(a, bit, bit);
    }
  }

  lemma {:induction false} OthersStaySet(bytes: Bytes, h: Word32, n: nat, other: Word32, k: nat)
    requires |bytes| > 0 && AllSet(bytes, other, k)
    ensures AllSet(WithProbes(bytes, h, n), other, k)
    decreases n
  {
    hide Has, With, AllSet;
    if n > 0 {
      BitInRange(Probe(h, Rotate(h), n - 1), |bytes|);
      OthersStaySet(bytes, h, n - 1, other, k);
      StaysSet(WithProbes(bytes, h, n - 1), Probe(h, Rotate(h), n - 1) % (|bytes| * 8), other, k);
    }
  }

  lemma {:induction false} KeysSet(bytes: Bytes, hash: Bytes -> Word32, k: nat, keys: seq<Bytes>, n: nat, i: nat)
    requires |bytes| > 0 && i < n <= |keys|
    ensures AllSet(WithKeys(bytes, hash, k, keys, n), hash(keys[i]), k)
    decreases n
  {
    hide AllSet, WithProbes;
    var before := WithKeys(bytes, hash, k, keys, n - 1);
    if i == n - 1 {
      ProbesSet(before, hash(keys[i]), k);
    } else {
      KeysSet(bytes, hash, k, keys, n - 1, i);
      OthersStaySet(before, hash(keys[n - 1]), k, hash(keys[i]), k);
    }
  }

  lemma {:induction false} OnlyProbesSet(bytes: Bytes, h: Word32, n: nat, k: nat, bit: nat)
    requires |bytes| > 0 && n <= k && bit / 8 < |bytes| && Has(WithProbes(bytes, h, n), bit)
    ensures Has(bytes, bit) || Probed(h, k, |bytes| * 8, bit)
    decreases n
  {
    hide Has, With;
    if n > 0 {
      var last := Probe(h, Rotate(h), n - 1) % (|bytes| * 8);
      BitInRange(Probe(h, Rotate(h), n - 1), |bytes|);
      WithHas(WithProbes(bytes, h, n - 1), last, bit);
      if Has(WithProbes(bytes, h, n - 1), bit) { OnlyProbesSet(bytes, h, n - 1, k, bit); }
    }
  }

  lemma {:induction false} OnlyKeysSet(bytes: Bytes, hash: Bytes -> Word32, k: nat, keys: seq<Bytes>, n: nat, bit: nat) returns (i: nat)
    requires |bytes| > 0 && n <= |keys| && bit / 8 < |bytes| && !Has(bytes, bit) && Has(WithKeys(bytes, hash, k, keys, n), bit)
    ensures i < n && Probed(hash(keys[i]), k, |bytes| * 8, bit)
    decreases n
  {
    hide Has, WithProbes, Probed;
    var before := WithKeys(bytes, hash, k, keys, n - 1);
    OnlyProbesSet(before, hash(keys[n - 1]), k, k, bit);
    if Has(before, bit) { i := OnlyKeysSet(bytes, hash, k, keys, n - 1, bit); } else { i := n - 1; }
  }

  /** The filter's bits are the probes of its keys, all of them and nothing else. */
  lemma FilterBits(hash: Bytes -> Word32, bitsPerKey: nat, k: Byte, keys: seq<Bytes>)
    ensures var filter := FilterFor(hash, bitsPerKey, k, keys);
            && |filter| == BitsFor(|keys|, bitsPerKey) + 1 && filter[|filter| - 1] == k
            && (forall i | 0 <= i < |keys| :: AllSet(filter[..|filter| - 1], hash(keys[i]), k))
            && OnlyProbes(filter[..|filter| - 1], hash, keys, k)
  {
    hide Has, With, AllSet, WithKeys, Probed;
    var zeros: Bytes := seq(BitsFor(|keys|, bitsPerKey), _ => 0);
    var filter, bits := FilterFor(hash, bitsPerKey, k, keys), WithKeys(zeros, hash, k, keys, |keys|);
    assert filter[..|filter| - 1] == bits;
    forall i | 0 <= i < |keys| ensures AllSet(bits, hash(keys[i]), k) { KeysSet(zeros, hash, k, keys, |keys|, i); }
    forall bit: nat | bit / 8 < |bits| && Has(bits, bit)
      ensures exists m | 0 <= m < |keys| :: Probed(hash(keys[m]), k, |bits| * 8, bit)
    {
      NothingSet(zeros, bit);
      var i := OnlyKeysSet(zeros, hash, k, keys, |keys|, bit);
    }
  }

  class BloomFilterPolicy {
    const bitsPerKey: nat
    const k: nat
    const hash: Bytes -> Word32

    /** k is 0.69 times the bits per key, rounded down and cut off to between 1 and 30. */
    constructor (bitsPerKey: nat, hash: Bytes -> Word32)
      ensures this.bitsPerKey == bitsPerKey && this.hash == hash && 1 <= k <= 30
      ensures k == 1 || k as real <= bitsPerKey as real * 0.69
      ensures k == 30 || bitsPerKey as real * 0.69 < (k + 1) as real
    {
      var probes := (bitsPerKey as real * 0.69).Floor;
      if probes < 1 { probes := 1; }
      if probes > 30 { probes := 30; }
      this.bitsPerKey, this.k, this.hash := bitsPerKey, probes, hash;
    }

    /** The filter appended to dst. */
    method CreateFilter(keys: seq<Bytes>) returns (filter: Bytes)
      requires 1 <= k <= 30
      ensures filter == FilterFor(hash, bitsPerKey, k, keys)
      ensures |filter| == BitsFor(|keys|, bitsPerKey) + 1 && filter[|filter| - 1] == k
      ensures forall i | 0 <= i < |keys| :: AllSet(filter[..|filter| - 1], hash(keys[i]), k)
      ensures OnlyProbes(filter[..|filter| - 1], hash, keys, k)
    {
      hide Has, With, WithProbes, AllSet, OnlyProbes;
      var bytes := BitsFor(|keys|, bitsPerKey);
      var a: Bytes := seq(bytes, _ => 0);
      ghost var zeros := a;
      for i := 0 to |keys|
        invariant a == WithKeys(zeros, hash, k, keys, i)
      {
        a := SetProbes(a, hash(keys[i]));
      }
      filter := a + [k];
      FilterBits(hash, bitsPerKey, k, keys);
    }

    /** The inner loop: one key's probes. */
    method SetProbes(a0: Bytes, h0: Word32) returns (a: Bytes)
      requires |a0| > 0
      ensures a == WithProbes(a0, h0, k)
    {
      hide With;
      a := a0;
      var h, bits, delta := h0, |a0| * 8, Rotate(h0);
      for j := 0 to k
        invariant a == WithProbes(a0, h0, j) && h == Probe(h0, delta, j)
      {
        BitInRange(h, |a|);
        a := With(a, h % bits);
        ProbeNext(h0, delta, j);
        h := (h + delta) % TWO_32;
      }
    }

    /** False only if some probe is clear; a filter too short to have any bits matches nothing. */
    method KeyMayMatch(key: Bytes, filter: Bytes) returns (r: bool)
      ensures r == Matches(hash, key, filter)
    {
      hide Has;
      var n := |filter|;
      if n < 2 {
        return false;
      }
      var a, bits := filter[..n - 1], (n - 1) * 8;
      var probes := filter[n - 1];
      if probes > 30 {
        return true;
      }
      var h0 := hash(key);
      var h, delta := h0, Rotate(h0);
      for j := 0 to probes
        invariant h == Probe(h0, delta, j) && AllSet(a, h0, j)
      {
        var bitpos := h % bits;
        BitInRange(h, |a|);
        if !Has(a, bitpos) {
          return false;
        }
        ProbeNext(h0, delta, j);
        h := (h + delta) % TWO_32;
      }
      r := true;
    }
  }

  lemma WithLength(bytes: Bytes, bit: nat)
    requires bit / 8 < |bytes|
    ensures |With(bytes, bit)| == |bytes|
  {
  }

  /** A stored key is never hidden. */
  lemma CreatedMatches(hash: Bytes -> Word32, bitsPerKey: nat, k: Byte, keys: seq<Bytes>, key: Bytes)
    requires key in keys
    ensures Matches(hash, key, FilterFor(hash, bitsPerKey, k, keys))
  {
    hide AllSet, FilterFor;
    FilterBits(hash, bitsPerKey, k, keys);
    var i :| 0 <= i < |keys| && keys[i] == key;
  }
}
