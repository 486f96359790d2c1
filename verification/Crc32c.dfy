/**
 CRC32C (section 12.1 of RFC 3720), computed four bytes at a time, and the masking of
 stored checksums. A 32-bit register is its bits, least significant first.
 */
module Crc32c {
  import opened Entries
  import opened Coding

  type Reg = w: seq<bool> | |w| == 32 witness Zeros(32)
  type Octet = b: seq<bool> | |b| == 8 witness Zeros(8)

  function Zeros(n: nat): (r: seq<bool>)
    ensures |r| == n
  {
    seq(n, _ => false)
  }

  function Xor(a: Reg, b: Reg): (r: Reg)
    ensures forall i | 0 <= i < 32 :: r[i] == (a[i] != b[i])
  {
    seq(32, i requires 0 <= i < 32 => a[i] != b[i])
  }

  function Shr(x: Reg, k: nat): (r: Reg)
    ensures forall i | 0 <= i < 32 :: r[i] == (i + k < 32 && x[i + k])
  {
    seq(32, i requires 0 <= i < 32 => i + k < 32 && x[i + k])
  }

  /** x & 0xff, and x with those bits clear. */
  function Low(x: Reg): (r: Reg)
    ensures forall i | 0 <= i < 32 :: r[i] == (i < 8 && x[i])
  {
    seq(32, i requires 0 <= i < 32 => i < 8 && x[i])
  }

  function High(x: Reg): (r: Reg)
    ensures forall i | 0 <= i < 32 :: r[i] == (i >= 8 && x[i])
  {
    seq(32, i requires 0 <= i < 32 => i >= 8 && x[i])
  }

  function Widen(b: Octet): (r: Reg)
    ensures forall i | 0 <= i < 32 :: r[i] == (i < 8 && b[i])
  {
    seq(32, i requires 0 <= i < 32 => i < 8 && b[i])
  }

  function Octets(b: Byte): Octet {
    [b % 2 == 1, b / 2 % 2 == 1, b / 4 % 2 == 1, b / 8 % 2 == 1,
     b / 16 % 2 == 1, b / 32 % 2 == 1, b / 64 % 2 == 1, b / 128 == 1]
  }

  /** 0x82f63b78 */
  const POLY: Reg := LeLoad32(0x78, 0x3b, 0xf6, 0x82)

  /** 0xffffffff */
  const ONES: Reg :=
    [true, true, true, true, true, true, true, true, true, true, true, true, true, true, true, true,
     true, true, true, true, true, true, true, true, true, true, true, true, true, true, true, true]

  /** One bit of the division. */
  function Bit(x: Reg): Reg {
    if x[0] then Xor(Shr(x, 1), POLY) else Shr(x, 1)
  }

  function Bits(x: Reg, n: nat): Reg
    decreases n, x
  {
    if n == 0 then x else Bits(Bit(x), n - 1)
  }

  /** The tables, by their recurrence: each one feeds the previous one another zero byte. */
  function Table0(i: Reg): Reg { Bits(i, 8) }
  function Table1(i: Reg): Reg { Bits(Table0(i), 8) }
  function Table2(i: Reg): Reg { Bits(Table1(i), 8) }
  function Table3(i: Reg): Reg { Bits(Table2(i), 8) }

  /** STEP1 */
  function Step1(l: Reg, b: Byte): Reg {
    Xor(Table0(Xor(Low(l), Widen(Octets(b)))), Shr(l, 8))
  }

  function LeLoad32(b0: Byte, b1: Byte, b2: Byte, b3: Byte): Reg {
    Octets(b0) + Octets(b1) + Octets(b2) + Octets(b3)
  }

  /** STEP4 */
  function Step4(l: Reg, b0: Byte, b1: Byte, b2: Byte, b3: Byte): Reg {
    var c := Xor(l, LeLoad32(b0, b1, b2, b3));
    FourTables(c)
  }

  function FourTables(c: Reg): Reg {
    Xor(Xor(Xor(Table3(Low(c)), Table2(Low(Shr(c, 8)))), Table1(Low(Shr(c, 16)))), Table0(Shr(c, 24)))
  }

  /** The register after a byte string, one byte at a time. */
  function Fold(l: Reg, buf: Bytes): Reg
    decreases |buf|
  {
    if buf == [] then l else Fold(Step1(l, buf[0]), buf[1..])
  }

  function Crc(init: Reg, buf: Bytes): Reg {
    Xor(Fold(Xor(init, ONES), buf), ONES)
  }

  // -------------------------------------------------------------- linearity

  lemma Same(a: Reg, b: Reg)
    requires forall i | 0 <= i < 32 :: a[i] == b[i]
    ensures a == b
  {
  }

  lemma XorLaws(x: Reg, y: Reg, z: Reg)
    ensures Xor(Xor(x, y), z) == Xor(x, Xor(y, z)) && Xor(x, y) == Xor(y, x)
  {
    Same(Xor(Xor(x, y), z), Xor(x, Xor(y, z)));
    Same(Xor(x, y), Xor(y, x));
  }

  lemma XorTwice(x: Reg, y: Reg)
    ensures Xor(Xor(x, y), y) == x
  {
    Same(Xor(Xor(x, y), y), x);
  }

  lemma BitLinear(x: Reg, y: Reg)
    ensures Bit(Xor(x, y)) == Xor(Bit(x), Bit(y))
  {
    Same(Bit(Xor(x, y)), Xor(Bit(x), Bit(y)));
  }

  lemma {:induction false} BitsLinear(x: Reg, y: Reg, n: nat)
    ensures Bits(Xor(x, y), n) == Xor(Bits(x, n), Bits(y, n))
    decreases n
  {
    hide Bit;
    if n > 0 {
      var u, v := Bit(x), Bit(y);
      BitLinear(x, y);
      BitsLinear(u, v, n - 1);
    }
  }

  /** Clear low bits just shift out. */
  lemma {:induction false} BitsShift(x: Reg, n: nat)
    requires n <= 32 && forall i | 0 <= i < n :: !x[i]
    ensures Bits(x, n) == Shr(x, n)
    decreases n
  {
    if n == 0 {
      Same(Shr(x, 0), x);
    } else {
      assert Bit(x) == Shr(x, 1);
      BitsShift(Shr(x, 1), n - 1);
      Same(Shr(Shr(x, 1), n - 1), Shr(x, n));
    }
  }

  /** Eight bits of division: the low byte through the table, the rest shifted. */
  lemma SplitLow(c: Reg)
    ensures Bits(c, 8) == Xor(Table0(Low(c)), Shr(c, 8))
  {
    Same(Xor(Low(c), High(c)), c);
    BitsLinear(Low(c), High(c), 8);
    BitsShift(High(c), 8);
    Same(Shr(High(c), 8), Shr(c, 8));
  }

  /** One table step is eight bits of division of the register with the byte mixed in. */
  lemma Step1IsBits(l: Reg, b: Byte)
    ensures Step1(l, b) == Bits(Xor(l, Widen(Octets(b))), 8)
  {
    var c := Xor(l, Widen(Octets(b)));
    SplitLow(c);
    Same(Low(c), Xor(Low(l), Widen(Octets(b))));
    Same(Shr(c, 8), Shr(l, 8));
  }

  lemma FourBytes(c: Reg)
    ensures Bits(Bits(Bits(Bits(c, 8), 8), 8), 8) == FourTables(c)
  {
    var c0, c1, c2, c3 := Low(c), Low(Shr(c, 8)), Low(Shr(c, 16)), Shr(c, 24);
    Same(Shr(Shr(c, 8), 8), Shr(c, 16));
    Same(Shr(Shr(c, 16), 8), c3);
    SplitLow(c);
    BitsLinear(Table0(c0), Shr(c, 8), 8);
    SplitLow(Shr(c, 8));
    XorLaws(Table1(c0), Table0(c1), Shr(c, 16));
    var a := Xor(Table1(c0), Table0(c1));
    BitsLinear(a, Shr(c, 16), 8);
    BitsLinear(Table1(c0), Table0(c1), 8);
    SplitLow(Shr(c, 16));
    XorLaws(Xor(Table2(c0), Table1(c1)), Table0(c2), c3);
    var b := Xor(Xor(Table2(c0), Table1(c1)), Table0(c2));
    BitsLinear(b, c3, 8);
    BitsLinear(Xor(Table2(c0), Table1(c1)), Table0(c2), 8);
    BitsLinear(Table2(c0), Table1(c1), 8);
  }

  /** Mixing in a word whose low byte is b, then dividing eight bits, consumes b and shifts the rest. */
  lemma FeedOne(l: Reg, b: Byte, rest: Reg)
    requires forall i | 24 <= i < 32 :: !rest[i]
    ensures Bits(Xor(l, Octets(b) + rest[..24]), 8) == Xor(Step1(l, b), rest)
  {
    var w: Reg := Octets(b) + rest[..24];
    var r := Xor(l, Widen(Octets(b)));
    Same(Xor(l, w), Xor(r, High(w)));
    BitsLinear(r, High(w), 8);
    BitsShift(High(w), 8);
    Same(Shr(High(w), 8), rest);
    Step1IsBits(l, b);
  }

  lemma Pieces(a: Octet, b: Octet, c: Octet, d: Octet, e: Octet)
    ensures a + b + c + d == a + (b + c + d + e)[..24]
    ensures forall i | 24 <= i < 32 :: (b + c + d + e)[i] == e[i - 24]
  {
  }

  lemma FeedPiece(l: Reg, b: Byte, p: Octet, q: Octet, r: Octet, clear: Octet)
    requires forall i | 0 <= i < 8 :: !clear[i]
    ensures Bits(Xor(l, Octets(b) + p + q + r), 8) == Xor(Step1(l, b), p + q + r + clear)
  {
    var o := Octets(b);
    Pieces(o, p, q, r, clear);
    FeedOne(l, b, p + q + r + clear);
  }

  lemma XorClear(x: Reg, e: Octet)
    requires forall i | 0 <= i < 8 :: !e[i]
    ensures Xor(x, e + e + e + e) == x
  {
    Same(Xor(x, e + e + e + e), x);
  }

  lemma ClearOctet() returns (e: Octet)
    ensures forall i | 0 <= i < 8 :: !e[i]
  {
    e := [false, false, false, false, false, false, false, false];
  }

  lemma FeedFour(l: Reg, b0: Byte, b1: Byte, b2: Byte, b3: Byte, e: Octet)
    requires forall i | 0 <= i < 8 :: !e[i]
    ensures Bits(Bits(Bits(Bits(Xor(l, LeLoad32(b0, b1, b2, b3)), 8), 8), 8), 8)
         == Step1(Step1(Step1(Step1(l, b0), b1), b2), b3)
  {
    FeedPiece(l, b0, Octets(b1), Octets(b2), Octets(b3), e);
    FeedPiece(Step1(l, b0), b1, Octets(b2), Octets(b3), e, e);
    FeedPiece(Step1(Step1(l, b0), b1), b2, Octets(b3), e, e, e);
    var l3 := Step1(Step1(Step1(l, b0), b1), b2);
    FeedPiece(l3, b3, e, e, e, e);
    XorClear(Step1(l3, b3), e);
  }

  /** The four-byte step is four one-byte steps. */
  lemma Step4IsFour(l: Reg, b0: Byte, b1: Byte, b2: Byte, b3: Byte)
    ensures Step4(l, b0, b1, b2, b3) == Step1(Step1(Step1(Step1(l, b0), b1), b2), b3)
  {
    FourBytes(Xor(l, LeLoad32(b0, b1, b2, b3)));
    var e := ClearOctet();
    FeedFour(l, b0, b1, b2, b3, e);
  }

  // -------------------------------------------------------------- whole buffers

  lemma {:induction false} FoldAppend(l: Reg, a: Bytes, b: Bytes)
    ensures Fold(l, a + b) == Fold(Fold(l, a), b)
    decreases |a|
  {
    if a == [] {
      assert a + b == b;
    } else {
      assert (a + b)[0] == a[0] && (a + b)[1..] == a[1..] + b;
      FoldAppend(Step1(l, a[0]), a[1..], b);
    }
  }

  lemma FoldOne(l: Reg, buf: Bytes, p: nat)
    requires p < |buf|
    ensures Fold(l, buf[p..]) == Fold(Step1(l, buf[p]), buf[p + 1..])
  {
    assert buf[p..][1..] == buf[p + 1..];
  }

  lemma FoldFour(l: Reg, buf: Bytes, p: nat)
    requires p + 4 <= |buf|
    ensures Fold(l, buf[p..]) == Fold(Step4(l, buf[p], buf[p + 1], buf[p + 2], buf[p + 3]), buf[p + 4..])
  {
    Step4IsFour(l, buf[p], buf[p + 1], buf[p + 2], buf[p + 3]);
    FoldOne(l, buf, p);
    FoldOne(Step1(l, buf[p]), buf, p + 1);
    FoldOne(Step1(Step1(l, buf[p]), buf[p + 1]), buf, p + 2);
    FoldOne(Step1(Step1(Step1(l, buf[p]), buf[p + 1]), buf[p + 2]), buf, p + 3);
  }

  /** Extend: bytes up to the first aligned address, then sixteen, four and one at a time. */
  method Extend(crc: Reg, buf: Bytes, address: nat) returns (r: Reg)
    ensures r == Crc(crc, buf)
  {
    hide Step1;
    var l := Xor(crc, ONES);
    var p, e := 0, |buf|;
    var x := (address + 3) / 4 * 4 - address;
    assert buf[0..] == buf;
    if x <= e {
      l := Ones(l, buf, p, x);
      p := x;
    }
    while e - p >= 16
      invariant 0 <= p <= e
      invariant Fold(l, buf[p..]) == Fold(Xor(crc, ONES), buf)
    {
      l := Sixteen(l, buf, p);
      p := p + 16;
    }
    while e - p >= 4
      invariant 0 <= p <= e
      invariant Fold(l, buf[p..]) == Fold(Xor(crc, ONES), buf)
    {
      l := Four(l, buf, p);
      p := p + 4;
    }
    l := Ones(l, buf, p, e);
    r := Xor(l, ONES);
  }

  /** One STEP1 at p. */
  method One(l: Reg, buf: Bytes, p: nat) returns (r: Reg)
    requires p < |buf|
    ensures Fold(r, buf[p + 1..]) == Fold(l, buf[p..])
  {
    FoldOne(l, buf, p);
    r := Step1(l, buf[p]);
  }

  /** STEP1 from p up to q. */
  method Ones(l: Reg, buf: Bytes, p: nat, q: nat) returns (r: Reg)
    requires p <= q <= |buf|
    ensures Fold(r, buf[q..]) == Fold(l, buf[p..])
  {
    hide Step1;
    r := l;
    var k := p;
    while k != q
      invariant p <= k <= q
      invariant Fold(r, buf[k..]) == Fold(l, buf[p..])
      decreases q - k
    {
      r := One(r, buf, k);
      k := k + 1;
    }
  }

  /** Four STEP4s at p. */
  method Sixteen(l: Reg, buf: Bytes, p: nat) returns (r: Reg)
    requires p + 16 <= |buf|
    ensures Fold(r, buf[p + 16..]) == Fold(l, buf[p..])
  {
    r := Four(l, buf, p);
    r := Four(r, buf, p + 4);
    r := Four(r, buf, p + 8);
    r := Four(r, buf, p + 12);
  }

  /** One STEP4 at p. */
  method Four(l: Reg, buf: Bytes, p: nat) returns (r: Reg)
    requires p + 4 <= |buf|
    ensures Fold(r, buf[p + 4..]) == Fold(l, buf[p..])
  {
    FoldFour(l, buf, p);
    r := Step4(l, buf[p], buf[p + 1], buf[p + 2], buf[p + 3]);
  }

  /** A stream's checksum can be kept piece by piece. */
  lemma ExtendComposes(init: Reg, a: Bytes, b: Bytes)
    ensures Crc(Crc(init, a), b) == Crc(init, a + b)
  {
    var l := Fold(Xor(init, ONES), a);
    XorTwice(l, ONES);
    FoldAppend(Xor(init, ONES), a, b);
  }

  // -------------------------------------------------------------- stored form

  const MASK_DELTA := 0xa282ead8

  function Number(bits: seq<bool>): nat {
    if bits == [] then 0 else (if bits[0] then 1 else 0) + 2 * Number(bits[1..])
  }

  lemma {:induction false} NumberBound(bits: seq<bool>)
    ensures Number(bits) < Power(|bits|)
  {
    if bits != [] {
      NumberBound(bits[1..]);
    }
  }

  lemma Power32()
    ensures Power(32) == TWO_32
  {
    assert Power(4) == 16;
    assert Power(8) == 16 * Power(4);
    assert Power(12) == 16 * Power(8);
    assert Power(16) == 16 * Power(12);
    assert Power(20) == 16 * Power(16);
    assert Power(24) == 16 * Power(20);
    assert Power(28) == 16 * Power(24);
    assert Power(32) == 16 * Power(28);
  }

  /** The checksum of a buffer as the 32-bit number it is stored as. */
  function Value(buf: Bytes): (r: Word32) {
    var w := Crc(Zeros(32), buf);
    NumberBound(w); Power32();
    Number(w)
  }

  // -------------------------------------------------------------- known words

  lemma {:induction false} NumberJoin(a: seq<bool>, b: seq<bool>)
    ensures Number(a + b) == Number(a) + Power(|a|) * Number(b)
    decreases |a|
  {
    if a == [] {
      assert a + b == b;
    } else {
      assert (a + b)[1..] == a[1..] + b;
      NumberJoin(a[1..], b);
      Twice(Power(|a| - 1), Number(b));
    }
  }

  lemma Twice(p: nat, n: nat)
    ensures 2 * (p * n) == 2 * p * n
  {
  }

  lemma EightBits(o: Octet)
    ensures Number(o) == Bit1(o[0]) + 2 * Bit1(o[1]) + 4 * Bit1(o[2]) + 8 * Bit1(o[3])
                       + 16 * Bit1(o[4]) + 32 * Bit1(o[5]) + 64 * Bit1(o[6]) + 128 * Bit1(o[7])
  {
    hide Number;
    FourBits(o[..4]);
    FourBits(o[4..]);
    assert o == o[..4] + o[4..];
    NumberJoin(o[..4], o[4..]);
    assert Power(4) == 16;
  }

  lemma FourBits(s: seq<bool>)
    requires |s| == 4
    ensures Number(s) == Bit1(s[0]) + 2 * Bit1(s[1]) + 4 * Bit1(s[2]) + 8 * Bit1(s[3])
  {
    assert s[1..][1..] == s[2..] && s[2..][1..] == s[3..] && s[3..][1..] == [];
    assert Number(s[3..]) == Bit1(s[3]);
    assert Number(s[2..]) == Bit1(s[2]) + 2 * Number(s[3..]);
    assert Number(s[1..]) == Bit1(s[1]) + 2 * Number(s[2..]);
  }

  lemma OctetNumber(b: Byte)
    ensures Number(Octets(b)) == b
  {
    hide Number;
    EightBits(Octets(b));
    Halves(b);
  }

  lemma Halves(b: nat)
    requires b < 256
    ensures b == Bit1(b % 2 == 1) + 2 * Bit1(b / 2 % 2 == 1) + 4 * Bit1(b / 4 % 2 == 1) + 8 * Bit1(b / 8 % 2 == 1)
               + 16 * Bit1(b / 16 % 2 == 1) + 32 * Bit1(b / 32 % 2 == 1) + 64 * Bit1(b / 64 % 2 == 1) + 128 * Bit1(b / 128 == 1)
  {
    hide Bit1;
    FourHalves(b);
    FourHalves(b / 16);
    Sixteenths(b);
    Top(b / 128);
  }

  lemma FourHalves(b: nat)
    ensures b == Bit1(b % 2 == 1) + 2 * Bit1(b / 2 % 2 == 1) + 4 * Bit1(b / 4 % 2 == 1) + 8 * Bit1(b / 8 % 2 == 1) + 16 * (b / 16)
  {
    hide Bit1;
    TwoHalves(b);
    TwoHalves(b / 4);
    Quarters(b);
  }

  lemma TwoHalves(b: nat)
    ensures b == Bit1(b % 2 == 1) + 2 * Bit1(b / 2 % 2 == 1) + 4 * (b / 4)
  {
  }

  lemma Quarters(b: nat)
    ensures b / 4 / 2 == b / 8 && b / 4 / 4 == b / 16
  {
  }

  lemma Sixteenths(b: nat)
    requires b < 256
    ensures b / 16 / 2 == b / 32 && b / 16 / 4 == b / 64 && b / 16 / 8 == b / 128 <= 1 && b / 16 / 16 == 0
  {
  }

  lemma Top(t: nat)
    requires t <= 1
    ensures (t % 2 == 1) == (t == 1)
  {
  }

  function Bit1(b: bool): nat {
    if b then 1 else 0
  }

  /** A register loaded from four bytes is the number they are the little-endian form of. */
  lemma LoadNumber(b0: Byte, b1: Byte, b2: Byte, b3: Byte)
    ensures Number(LeLoad32(b0, b1, b2, b3)) == b0 + 0x100 * b1 + 0x1_0000 * b2 + 0x100_0000 * b3
  {
    hide Octets, Number;
    Bytewise(b0, b1, b2, b3);
    Power8();
    NumberJoin(Octets(b0), Octets(b1) + (Octets(b2) + Octets(b3)));
    NumberJoin(Octets(b1), Octets(b2) + Octets(b3));
    NumberJoin(Octets(b2), Octets(b3));
    OctetNumber(b0);
    OctetNumber(b1);
    OctetNumber(b2);
    OctetNumber(b3);
  }

  lemma Bytewise(b0: Byte, b1: Byte, b2: Byte, b3: Byte)
    ensures LeLoad32(b0, b1, b2, b3) == Octets(b0) + (Octets(b1) + (Octets(b2) + Octets(b3)))
  {
    hide Octets;
  }

  lemma Power8()
    ensures Power(8) == 256
  {
    assert Power(4) == 16;
    assert Power(8) == 16 * Power(4);
  }

  /** A bit of the division when the low bit is clear. */
  lemma HalfIfEven(x: Reg)
    requires Number(x) % 2 == 0
    ensures Number(Bit(x)) == Number(x) / 2
  {
    assert !x[0];
    Same(Bit(x), x[1..] + [false]);
    NumberJoin(x[1..], [false]);
    assert Number([false]) == 2 * Number([]);
  }

  /** The register with bit i alone. */
  function Unit(i: nat): Reg {
    seq(32, j => j == i)
  }

  /** Until it reaches bit 0, a single bit only moves. */
  lemma {:induction false} UnitMoves(i: nat, n: nat)
    requires i < n && i < 32
    ensures Bits(Unit(i), n) == Bits(POLY, n - i - 1)
    decreases i
  {
    hide Unit, Bit;
    UnitStep(i);
    if i > 0 { UnitMoves(i - 1, n - 1); }
  }

  lemma UnitStep(i: nat)
    requires i < 32
    ensures Bit(Unit(i)) == if i > 0 then Unit(i - 1) else POLY
  {
    if i > 0 {
      Same(Bit(Unit(i)), Unit(i - 1));
    } else {
      FromNothing(Shr(Unit(0), 1), POLY);
    }
  }

  lemma FromNothing(x: Reg, p: Reg)
    requires forall i | 0 <= i < 32 :: !x[i]
    ensures Xor(x, p) == p
  {
    Same(Xor(x, p), p);
  }

  /**
   Words of the first table, as the program lists them: at 128, 64, 32 and 16. (The tables are linear in
   their index, so that the word at 128 and the division step determine all of them.)
   */
  lemma TableWords()
    ensures Number(Table0(Widen(Octets(128)))) == 0x82f63b78 && Number(Table0(Widen(Octets(64)))) == 0x417b1dbc
    ensures Number(Table0(Widen(Octets(32)))) == 0x20bd8ede && Number(Table0(Widen(Octets(16)))) == 0x105ec76f
  {
    hide Number, Bit;
    Units();
    UnitMoves(7, 8);
    UnitMoves(6, 8);
    UnitMoves(5, 8);
    UnitMoves(4, 8);
    LoadNumber(0x78, 0x3b, 0xf6, 0x82);
    HalfIfEven(POLY);
    HalfIfEven(Bit(POLY));
    HalfIfEven(Bit(Bit(POLY)));
    Unfolded(POLY);
  }

  lemma Unfolded(x: Reg)
    ensures Bits(x, 0) == x && Bits(x, 1) == Bit(x) && Bits(x, 2) == Bit(Bit(x)) && Bits(x, 3) == Bit(Bit(Bit(x)))
  {
    hide Bit;
    assert Bits(x, 1) == Bits(Bit(x), 0);
    assert Bits(x, 2) == Bits(Bit(x), 1) && Bits(Bit(x), 1) == Bits(Bit(Bit(x)), 0);
    assert Bits(x, 3) == Bits(Bit(x), 2) && Bits(Bit(x), 2) == Bits(Bit(Bit(x)), 1) && Bits(Bit(Bit(x)), 1) == Bits(Bit(Bit(Bit(x))), 0);
  }

  lemma Units()
    ensures Widen(Octets(128)) == Unit(7) && Widen(Octets(64)) == Unit(6) && Widen(Octets(32)) == Unit(5) && Widen(Octets(16)) == Unit(4)
  {
    Same(Widen(Octets(16)), Unit(4));
    Same(Widen(Octets(32)), Unit(5));
    Same(Widen(Octets(64)), Unit(6));
    Same(Widen(Octets(128)), Unit(7));
  }

  /** The checksum of the one byte 0xff: the register starts as all ones, and is inverted at the end. */
  lemma KnownValue()
    ensures Value([0xff]) == 0xff00_0000
  {
    hide Number, Step1, LeLoad32, Shr, Fold, ONES;
    Started();
    FoldLast(ONES);
    AllOnesFed();
    TopByte();
    LoadNumber(0, 0, 0, 0xff);
  }

  lemma Started()
    ensures Xor(Zeros(32), ONES) == ONES
  {
    FromNothing(Zeros(32), ONES);
  }

  lemma AllSet()
    ensures forall i | 0 <= i < 32 :: ONES[i]
  {
  }

  lemma AllOnesFed()
    ensures Step1(ONES, 0xff) == Shr(ONES, 8)
  {
    hide Bits, ONES;
    AllSet();
    OctetBits();
    Same(Xor(Low(ONES), Widen(Octets(0xff))), Zeros(32));
    StaysZero(8);
    FromNothing(Zeros(32), Shr(ONES, 8));
  }

  lemma OctetBits()
    ensures forall i | 0 <= i < 8 :: Octets(0xff)[i] && !Octets(0)[i]
  {
  }

  lemma TopByte()
    ensures Xor(Shr(ONES, 8), ONES) == LeLoad32(0, 0, 0, 0xff)
  {
    hide Octets, ONES;
    AllSet();
    OctetBits();
    Same(Xor(Shr(ONES, 8), ONES), LeLoad32(0, 0, 0, 0xff));
  }

  lemma {:induction false} StaysZero(n: nat)
    ensures Bits(Zeros(32), n) == Zeros(32)
    decreases n
  {
    if n > 0 {
      Same(Bit(Zeros(32)), Zeros(32));
      StaysZero(n - 1);
    }
  }

  lemma FoldLast(l: Reg)
    ensures Fold(l, [0xff]) == Step1(l, 0xff)
  {
    hide Step1;
    assert [0xff][1..] == [];
  }

  lemma TablesLinear(x: Reg, y: Reg)
    ensures Table0(Xor(x, y)) == Xor(Table0(x), Table0(y)) && Table1(Xor(x, y)) == Xor(Table1(x), Table1(y))
    ensures Table2(Xor(x, y)) == Xor(Table2(x), Table2(y)) && Table3(Xor(x, y)) == Xor(Table3(x), Table3(y))
  {
    hide Bits, Xor;
    BitsLinear(x, y, 8);
    BitsLinear(Table0(x), Table0(y), 8);
    BitsLinear(Table1(x), Table1(y), 8);
    BitsLinear(Table2(x), Table2(y), 8);
  }

  // -------------------------------------------------------------- masking

  /** Rotate right by 15 bits and add a constant. */
  function Mask(crc: Word32): Word32 {
    (crc / 0x8000 + crc % 0x8000 * 0x2_0000 + MASK_DELTA) % TWO_32
  }

  function Unmask(masked: Word32): Word32 {
    var rot := (masked - MASK_DELTA) % TWO_32;
    rot / 0x2_0000 + rot % 0x2_0000 * 0x8000
  }

  lemma Rotation(a: nat, b: nat)
    requires a < 0x2_0000 && b < 0x8000
    ensures (a + b * 0x2_0000) / 0x2_0000 == b && (a + b * 0x2_0000) % 0x2_0000 == a
    ensures a + b * 0x2_0000 < TWO_32
  {
  }

  lemma Unshifted(x: nat, d: nat)
    requires x < TWO_32 && d < TWO_32
    ensures ((x + d) % TWO_32 - d) % TWO_32 == x
  {
    if x + d < TWO_32 {
      assert (x + d) % TWO_32 == x + d;
    } else {
      assert (x + d) % TWO_32 == x + d - TWO_32;
    }
  }

  /** The two parts of a register at bit k, as numbers. */
  lemma Parts(w: Reg, k: nat)
    requires k <= 32
    ensures Number(w) / Power(k) == Number(w[k..]) && Number(w) % Power(k) == Number(w[..k])
  {
    hide Number, Power;
    assert w == w[..k] + w[k..];
    NumberJoin(w[..k], w[k..]);
    NumberBound(w[..k]);
    QuotientIs(Number(w), Power(k), Number(w[k..]), Number(w[..k]));
  }

  /** Rotated right by k bits: bit i is the former bit i + k, around the end. */
  lemma Rotated(w: Reg, k: nat)
    requires k <= 32
    ensures Number(w) / Power(k) + Number(w) % Power(k) * Power(32 - k) == Number(w[k..] + w[..k])
  {
    hide Number, Power;
    Parts(w, k);
    NumberJoin(w[k..], w[..k]);
    assert |w[k..]| == 32 - k;
  }

  lemma Powers()
    ensures Power(15) == 0x8000 && Power(17) == 0x2_0000
  {
    assert Power(4) == 16;
    assert Power(8) == 16 * Power(4);
    assert Power(12) == 16 * Power(8);
    assert Power(15) == 8 * Power(12);
    assert Power(17) == 4 * Power(15);
  }

  /** The stored form: rotated right by 15 bits, plus a constant. */
  lemma MaskRotates(w: Reg)
    ensures Number(w) < TWO_32 && Mask(Number(w)) == (Number(w[15..] + w[..15]) + 0xa282ead8) % TWO_32
  {
    hide Number;
    NumberBound(w);
    Power32();
    Powers();
    Rotated(w, 15);
  }

  /** Masking loses nothing. */
  lemma UnmaskMask(crc: Word32)
    ensures Unmask(Mask(crc)) == crc
  {
    var a, b := crc / 0x8000, crc % 0x8000;
    Rotation(a, b);
    Unshifted(a + b * 0x2_0000, MASK_DELTA);
  }

  lemma Reshifted(x: nat, d: nat)
    requires x < TWO_32 && d < TWO_32
    ensures ((x - d) % TWO_32 + d) % TWO_32 == x
  {
    if x < d {
      assert (x - d) % TWO_32 == x - d + TWO_32;
    } else {
      assert (x - d) % TWO_32 == x - d;
    }
  }

  lemma RotationBack(a: nat, b: nat)
    requires a < 0x8000 && b < 0x2_0000
    ensures (a + b * 0x8000) / 0x8000 == b && (a + b * 0x8000) % 0x8000 == a
    ensures a + b * 0x8000 < TWO_32
  {
  }

  /** Every word is a mask. */
  lemma MaskUnmask(masked: Word32)
    ensures Mask(Unmask(masked)) == masked
  {
    var rot := (masked - MASK_DELTA) % TWO_32;
    var a, b := rot / 0x2_0000, rot % 0x2_0000;
    RotationBack(a, b);
    Reshifted(masked, MASK_DELTA);
  }
}
