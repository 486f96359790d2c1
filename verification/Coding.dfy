/**
 Little-endian fixed-width integers, variable-length integers (seven bits a byte, least
 significant first, the high bit set on all but the last) and length-prefixed slices.
 */
module Coding {
  import opened Entries

  const TWO_32 := 0x1_0000_0000
  const TWO_64 := 0x1_0000_0000_0000_0000

  type Word32 = n: nat | n < TWO_32
  type Word64 = n: nat | n < TWO_64

  /** The n low bytes of v, least significant first. */
  function Fixed(v: nat, n: nat): (r: Bytes)
    ensures |r| == n
    decreases n, v
  {
    if n == 0 then [] else [v % 256] + Fixed(v / 256, n - 1)
  }

  function FixedValue(s: Bytes): nat {
    if s == [] then 0 else s[0] + 256 * FixedValue(s[1..])
  }

  function Power256(n: nat): nat
    decreases n, 0
  {
    if n == 0 then 1 else 256 * Power256(n - 1)
  }

  lemma {:induction false} FixedRound(v: nat, n: nat)
    requires v < Power256(n)
    ensures FixedValue(Fixed(v, n)) == v
    decreases n
  {
    if n > 0 {
      FixedRound(v / 256, n - 1);
      assert Fixed(v, n)[1..] == Fixed(v / 256, n - 1);
    }
  }

  /** Byte i of the fixed form is the i-th digit to the base 256. */
  lemma {:induction false} FixedDigit(v: nat, n: nat, i: nat)
    requires i < n
    ensures Power256(i) > 0 && Fixed(v, n)[i] == v / Power256(i) % 256
    decreases i
  {
    if i > 0 {
      FixedDigit(v / 256, n - 1, i - 1);
      DivideTwice(v, 256, Power256(i - 1));
    }
  }

  lemma DivideTwice(v: nat, a: nat, b: nat)
    requires a > 0 && b > 0
    ensures a * b > 0 && v / a / b == v / (a * b)
  {
    var q, r := v / a, v % a;
    var p, t := q / b, q % b;
    Division(v, a);
    Division(q, b);
    Product(p, b, t, a);
    Room(t, r, a, b);
    QuotientIs(v, a * b, p, t * a + r);
  }

  lemma Division(v: nat, d: nat)
    requires d > 0
    ensures v == (v / d) * d + v % d && 0 <= v % d < d
  {
  }

  lemma Product(p: nat, b: nat, t: nat, a: nat)
    ensures (p * b + t) * a == p * (a * b) + t * a
  {
  }

  lemma Room(t: nat, r: nat, a: nat, b: nat)
    requires r < a && t < b
    ensures 0 <= t * a && t * a + r < a * b
  {
    assert (b - t - 1) * a >= 0;
    assert a * b == t * a + a + (b - t - 1) * a;
  }

  lemma QuotientIs(v: nat, d: nat, q: nat, r: nat)
    requires v == q * d + r && r < d
    ensures v / d == q && v % d == r
  {
    Division(v, d);
    var e := v / d - q;
    assert e * d == (v / d) * d - q * d;
    AllOrNone(e, d, r - v % d);
  }

  lemma AllOrNone(e: int, d: int, x: int)
    requires e * d == x && -d < x < d
    ensures e == 0
  {
    assert e >= 1 ==> (e - 1) * d >= 0;
    assert e <= -1 ==> (-e - 1) * d >= 0;
  }

  lemma PowerWords()
    ensures Power256(2) == 0x1_0000 && Power256(4) == TWO_32 && Power256(8) == TWO_64
  {
    assert Power256(2) == 256 * Power256(1);
    assert Power256(4) == 256 * Power256(3) && Power256(3) == 256 * Power256(2);
    assert Power256(6) == 256 * Power256(5) && Power256(5) == 256 * Power256(4);
    assert Power256(8) == 256 * Power256(7) && Power256(7) == 256 * Power256(6);
  }

  lemma {:induction false} FixedBound(s: Bytes)
    ensures FixedValue(s) < Power256(|s|)
  {
    if s != [] {
      FixedBound(s[1..]);
    }
  }

  /** Every byte string is the fixed form of its value. */
  lemma {:induction false} FixedBack(s: Bytes)
    ensures Fixed(FixedValue(s), |s|) == s
  {
    if s != [] {
      var v := FixedValue(s[1..]);
      FixedBack(s[1..]);
      assert (s[0] + 256 * v) % 256 == s[0] && (s[0] + 256 * v) / 256 == v;
      assert s == [s[0]] + s[1..];
    }
  }

  function DecodeFixed32(s: Bytes): Word32
    requires |s| == 4
  {
    FixedBound(s);
    PowerWords();
    FixedValue(s)
  }

  function DecodeFixed64(s: Bytes): Word64
    requires |s| == 8
  {
    FixedBound(s);
    PowerWords();
    FixedValue(s)
  }

  /** EncodeFixed32 then DecodeFixed32. */
  lemma Fixed32Round(v: Word32)
    ensures DecodeFixed32(Fixed(v, 4)) == v
  {
    PowerWords();
    FixedRound(v, 4);
  }

  lemma Fixed64Round(v: Word64)
    ensures DecodeFixed64(Fixed(v, 8)) == v
  {
    PowerWords();
    FixedRound(v, 8);
  }

  // -------------------------------------------------------------- varints

  function Varint(v: nat): (r: Bytes)
    ensures |r| >= 1
  {
    if v < 128 then [v] else [v % 128 + 128] + Varint(v / 128)
  }

  /** The value and length of the varint at the front of s, if it ends within n bytes. */
  function GetVarint(s: Bytes, n: nat): (r: Option<(nat, nat)>)
    ensures r.Some? ==> 1 <= r.value.1 <= |s| && r.value.1 <= n
    decreases |s|, n
  {
    if n == 0 || s == [] then None
    else if s[0] < 128 then Some((s[0], 1))
    else
      match GetVarint(s[1..], n - 1)
      case None => None
      case Some(p) => Some((s[0] - 128 + 128 * p.0, p.1 + 1))
  }

  /** A varint is read up to the first byte below 128, if that comes soon enough, and is worth its digits to the base 128. */
  lemma {:induction false} GetVarintIs(s: Bytes, n: nat)
    ensures GetVarint(s, n).None? <==> forall i | 0 <= i < |s| && i < n :: s[i] >= 128
    ensures
      match GetVarint(s, n)
      case None => true
      case Some(p) =>
        && s[p.1 - 1] < 128 && (forall i | 0 <= i < p.1 - 1 :: s[i] >= 128)
        && p.0 == Digits(s[..p.1])
    decreases n
  {
    if n > 0 && s != [] && s[0] >= 128 {
      var t := s[1..];
      GetVarintIs(t, n - 1);
      match GetVarint(t, n - 1)
      case None =>
        forall i | 0 <= i < |s| && i < n ensures s[i] >= 128 {
          if i > 0 { assert t[i - 1] == s[i]; }
        }
      case Some(p) =>
        assert s[p.1] == t[p.1 - 1];
        assert s[..p.1 + 1][1..] == t[..p.1];
        forall i | 0 <= i < p.1 ensures s[i] >= 128 {
          if i > 0 { assert t[i - 1] == s[i]; }
        }
    } else if n > 0 && s != [] {
      assert s[..1][1..] == [] && Digits([]) == 0;
    }
  }

  /** The seven low bits of each byte, the first least significant. */
  function Digits(s: Bytes): nat {
    if s == [] then 0 else s[0] % 128 + 128 * Digits(s[1..])
  }

  function Power128(n: nat): nat
    decreases n, 0
  {
    if n == 0 then 1 else 128 * Power128(n - 1)
  }

  /** Byte i of a varint is the i-th digit to the base 128, with the high bit on all but the last. */
  lemma {:induction false} VarintDigit(v: nat, i: nat)
    requires i < |Varint(v)|
    ensures Power128(i) > 0 && Varint(v)[i] == v / Power128(i) % 128 + if i + 1 < |Varint(v)| then 128 else 0
    decreases i
  {
    if i > 0 {
      VarintDigit(v / 128, i - 1);
      DivideTwice(v, 128, Power128(i - 1));
    }
  }

  lemma PowerBounds()
    ensures TWO_32 <= Power128(5) && TWO_64 <= Power128(10)
  {
    assert Power128(2) == 128 * Power128(1) && Power128(1) == 128;
    assert Power128(4) == 128 * Power128(3) && Power128(3) == 128 * Power128(2);
    assert Power128(6) == 128 * Power128(5) && Power128(5) == 128 * Power128(4);
    assert Power128(8) == 128 * Power128(7) && Power128(7) == 128 * Power128(6);
    assert Power128(10) == 128 * Power128(9) && Power128(9) == 128 * Power128(8);
  }

  /** Decoding reads back what was encoded, whatever follows it. */
  lemma {:induction false} VarintRound(v: nat, n: nat, rest: Bytes)
    requires 1 <= n && v < Power128(n)
    ensures |Varint(v)| <= n
    ensures GetVarint(Varint(v) + rest, n) == Some((v, |Varint(v)|))
    decreases n
  {
    var s := Varint(v) + rest;
    if v >= 128 {
      VarintRound(v / 128, n - 1, rest);
      assert s[1..] == Varint(v / 128) + rest;
    }
  }

  /** No encoding is a proper prefix of another input: a cut varint does not decode. */
  lemma {:induction false} VarintCut(v: nat, n: nat, k: nat)
    requires k < |Varint(v)|
    ensures GetVarint(Varint(v)[..k], n) == None
    decreases k
  {
    var s := Varint(v)[..k];
    if k > 0 && n > 0 {
      assert s[1..] == Varint(v / 128)[..k - 1];
      VarintCut(v / 128, n - 1, k - 1);
    }
  }

  /** GetVarint32: at most five bytes, truncated to 32 bits. */
  function GetVarint32(s: Bytes): (r: Option<(Word32, nat)>)
    ensures r.Some? ==> 1 <= r.value.1 <= |s|
  {
    match GetVarint(s, 5)
    case None => None
    case Some(p) => Some((p.0 % TWO_32, p.1))
  }

  function GetVarint64(s: Bytes): (r: Option<(Word64, nat)>)
    ensures r.Some? ==> 1 <= r.value.1 <= |s|
  {
    match GetVarint(s, 10)
    case None => None
    case Some(p) => Some((p.0 % TWO_64, p.1))
  }

  lemma Varint32Round(v: Word32, rest: Bytes)
    ensures GetVarint32(Varint(v) + rest) == Some((v, |Varint(v)|))
  {
    PowerBounds();
    VarintRound(v, 5, rest);
  }

  lemma Varint64Round(v: Word64, rest: Bytes)
    ensures GetVarint64(Varint(v) + rest) == Some((v, |Varint(v)|)) && |Varint(v)| <= 10
  {
    PowerBounds();
    VarintRound(v, 10, rest);
  }

  /** EncodeVarint64 */
  method EncodeVarint64(v: Word64) returns (r: Bytes)
    ensures r == Varint(v)
  {
    r := [];
    var x: nat := v;
    while x >= 128
      invariant r + Varint(x) == Varint(v)
    {
      r := r + [x % 128 + 128];
      x := x / 128;
    }
    r := r + [x];
  }

  /** EncodeVarint32: the same bytes, unrolled. */
  method EncodeVarint32(v: Word32) returns (r: Bytes)
    ensures r == Varint(v)
  {
    var a, b, c, d: nat := v / 128, v / 0x4000, v / 0x20_0000, v / 0x1000_0000;
    assert b == a / 128 && c == b / 128 && d == c / 128;
    if v < 128 {
      r := [v];
    } else if v < 0x4000 {
      r := [v % 128 + 128, a];
      assert Varint(a) == [a];
    } else if v < 0x20_0000 {
      r := [v % 128 + 128, a % 128 + 128, b];
      assert Varint(a) == [a % 128 + 128] + Varint(b) && Varint(b) == [b];
    } else if v < 0x1000_0000 {
      r := [v % 128 + 128, a % 128 + 128, b % 128 + 128, c];
      assert Varint(a) == [a % 128 + 128] + Varint(b) && Varint(b) == [b % 128 + 128] + Varint(c) && Varint(c) == [c];
    } else {
      r := [v % 128 + 128, a % 128 + 128, b % 128 + 128, c % 128 + 128, d];
      assert Varint(a) == [a % 128 + 128] + Varint(b) && Varint(b) == [b % 128 + 128] + Varint(c);
      assert Varint(c) == [c % 128 + 128] + Varint(d) && Varint(d) == [d];
    }
  }

  /** What is still to be read, added on to what the first bytes came to. */
  function Onto(sum: nat, unit: nat, used: nat, rest: Option<(nat, nat)>): Option<(nat, nat)> {
    match rest
    case None => None
    case Some(p) => Some((sum + unit * p.0, used + p.1))
  }

  lemma OntoNext(sum: nat, unit: nat, s: Bytes, i: nat, n: nat)
    requires i < |s| && n > 0
    ensures
      var whole, byte := Onto(sum, unit, i, GetVarint(s[i..], n)), s[i] as int;
      if byte >= 128 then whole == Onto(sum + unit * (byte - 128), unit * 128, i + 1, GetVarint(s[i + 1..], n - 1))
      else whole == Some((sum + unit * byte, i + 1))
  {
    assert s[i..][1..] == s[i + 1..];
    var byte, rest := s[i] as int, GetVarint(s[i + 1..], n - 1);
    if byte >= 128 && rest.Some? {
      var v := rest.value.0;
      assert unit * (byte - 128 + 128 * v) == unit * (byte - 128) + unit * 128 * v;
    }
  }

  lemma OntoNothing(sum: nat, unit: nat, s: Bytes, i: nat, n: nat)
    requires i <= |s| && (i == |s| || n == 0)
    ensures Onto(sum, unit, i, GetVarint(s[i..], n)) == None
  {
  }

  lemma OntoStart(s: Bytes)
    ensures Onto(0, 1, 0, GetVarint(s[0..], 5)) == GetVarint(s, 5)
  {
    assert s[0..] == s;
  }

  lemma ModSum(x: nat, y: nat)
    ensures (x % TWO_32 + y) % TWO_32 == (x + y) % TWO_32
  {
  }

  /** GetVarint32Ptr: up to five bytes, seven bits of each put in place in 32-bit arithmetic. */
  method DecodeVarint32(s: Bytes) returns (r: Option<(Word32, nat)>)
    ensures r == GetVarint32(s)
  {
    hide Onto, GetVarint;
    var i: nat, unit: nat, result: nat := 0, 1, 0;
    ghost var sum: nat := 0;
    OntoStart(s);
    while i < 5 && i < |s|
      invariant 0 <= i <= 5 && i <= |s| && result == sum % TWO_32
      invariant Onto(sum, unit, i, GetVarint(s[i..], 5 - i)) == GetVarint(s, 5)
    {
      var byte: nat := s[i];
      OntoNext(sum, unit, s, i, 5 - i);
      i := i + 1;
      var x: nat := unit * if byte >= 128 then byte - 128 else byte;
      ModSum(sum, x);
      if byte >= 128 {
        result := (result + x) % TWO_32;
        sum := sum + x;
      } else {
        return Some(((result + x) % TWO_32, i));
      }
      unit := unit * 128;
    }
    OntoNothing(sum, unit, s, i, 5 - i);
    r := None;
  }

  // -------------------------------------------------------------- slices

  function Prefixed(s: Bytes): Bytes {
    Varint(|s|) + s
  }

  /** The slice at the front of s and how many bytes it took. */
  function GetPrefixed(s: Bytes): (r: Option<(Bytes, nat)>)
    ensures r.Some? ==> |r.value.0| < r.value.1 <= |s|
  {
    match GetVarint32(s)
    case None => None
    case Some(p) => if |s| - p.1 >= p.0 then Some((s[p.1..p.1 + p.0], p.1 + p.0)) else None
  }

  lemma PrefixedRound(s: Bytes, rest: Bytes)
    requires |s| < TWO_32
    ensures GetPrefixed(Prefixed(s) + rest) == Some((s, |Prefixed(s)|))
  {
    var all, v := Prefixed(s) + rest, Varint(|s|);
    assert all == v + (s + rest);
    Varint32Round(|s|, s + rest);
    assert all[|v|..|v| + |s|] == s;
  }

  lemma Skip(a: Bytes, b: Bytes)
    ensures (a + b)[|a|..] == b
  {
  }
}
