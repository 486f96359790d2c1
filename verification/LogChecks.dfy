/**
 The log reader on any bytes at all: what it takes from a damaged file. With checksums on,
 a fragment it returns is a record the file holds with a matching checksum, a mismatch costs
 the rest of the block, and no record is put together across anything it did not take.
 */
module LogChecks {
  import opened Entries
  import opened Coding
  import opened Logs
  import C = Crc32c

  // -------------------------------------------------------------- the writer's layout

  /**
   A record from block offset `off` on: the block's last bytes are zeros if a header does not fit, then comes one
   fragment with as much of the payload as the block takes, and the rest of the payload from the next block on.
   */
  lemma EmitIs(off: nat, data: Bytes, begin: bool) returns (n: nat)
    requires off <= 32768
    ensures
      var pad := if off + 7 > 32768 then 32768 - off else 0;
      var start := (off + pad) % 32768;
      n <= |data| && start + 7 + n <= 32768 && (n < |data| ==> start + 7 + n == 32768) &&
      var kind: Byte := if begin then (if n == |data| then 1 else 2) else if n == |data| then 4 else 3;
      Emit(off, data, begin) ==
        seq(pad, _ => 0) + Physical(kind, data[..n]) + if n == |data| then [] else Emit(32768, data[n..], false)
  {
    hide Physical;
    n := Fit(off, data);
    var head := Zeros(Pad(off)) + Physical(KindOf(begin, n == |data|), data[..n]);
    assert head + [] == head;
  }

  // -------------------------------------------------------------- one physical record

  /** The bytes are a header with this type and the payload's length, and the payload. */
  predicate Frames(r: Bytes, kind: Byte, data: Bytes) {
    && |r| == HEADER + |data| && r[4] as int + 256 * r[5] as int == |data| && r[6] == kind && r[HEADER..] == data
  }

  /** The checksum in the header is that of type and payload. */
  predicate Sealed(r: Bytes, kind: Byte, data: Bytes)
    requires |r| >= HEADER
  {
    C.Unmask(DecodeFixed32(r[..4])) == C.Value([kind] + data)
  }

  /** Framed and sealed is what the writer emits, and only that. */
  lemma PhysicalIff(r: Bytes, kind: Byte, data: Bytes)
    requires |data| < 0x1_0000
    ensures r == Physical(kind, data) <==> Frames(r, kind, data) && Sealed(r, kind, data)
  {
    hide C.Unmask, C.Mask, C.Value, Fixed, DecodeFixed32;
    var crc := C.Value([kind] + data);
    C.UnmaskMask(crc);
    Fixed32Round(C.Mask(crc));
    var p := Physical(kind, data);
    assert p[..4] == Fixed(C.Mask(crc), 4) && p[HEADER..] == data;
    if Frames(r, kind, data) && Sealed(r, kind, data) {
      C.MaskUnmask(DecodeFixed32(r[..4]));
      Fixed32Back(r[..4]);
      assert r == r[..4] + [r[4], r[5]] + [r[6]] + r[HEADER..];
    }
  }

  lemma Fixed32Back(s: Bytes)
    requires |s| == 4
    ensures Fixed(DecodeFixed32(s), 4) == s
  {
    FixedBack(s);
  }

  /** Whatever the file, a fragment returned with checksums on is there, whole and with its checksum. */
  lemma {:induction false} FragmentChecked(file: Bytes, c: Cursor, checksum: bool)
    requires InFile(file, c) && ReadPhysical(file, c, checksum).0.Fragment?
    ensures
      var (p, d) := ReadPhysical(file, c, checksum);
      && c.q + HEADER + |p.data| <= d.q <= |file|
      && Frames(file[d.q - |p.data| - HEADER..d.q], p.kind, p.data) && (p.kind != ZERO || p.data != [])
      && (checksum ==> Sealed(file[d.q - |p.data| - HEADER..d.q], p.kind, p.data))
      && (checksum ==> |p.data| < 0x1_0000 && file[d.q - |p.data| - HEADER..d.q] == Physical(p.kind, p.data))
    decreases !c.eof, |file| - c.end
  {
    hide C.Unmask, C.Value, DecodeFixed32, Physical;
    if c.end - c.q < HEADER {
      FragmentChecked(file, Refill(file, c), checksum);
    } else {
      var buffer := file[c.q..c.end];
      var (p, n) := ParseBuffer(buffer, c.eof, checksum);
      assert buffer[..n] == file[c.q..c.q + n];
      assert buffer[..n][..4] == buffer[..4] && buffer[..n][HEADER..] == buffer[HEADER..n];
      PhysicalIff(buffer[..n], p.kind, p.data);
    }
  }

  /** The record at the front of a buffer that holds it wholly. */
  ghost predicate AtFront(file: Bytes, c: Cursor, kind: Byte, data: Bytes) {
    InFile(file, c) && HEADER + |data| <= c.end - c.q && Frames(file[c.q..c.q + HEADER + |data|], kind, data)
  }

  /** Such a record is returned, unless it is the zero record or fails its checksum; then the rest of the
      buffer goes with it, and is reported in the second case. */
  lemma FrontRead(file: Bytes, c: Cursor, checksum: bool, kind: Byte, data: Bytes)
    requires AtFront(file, c, kind, data)
    ensures
      ReadPhysical(file, c, checksum) ==
      if kind == ZERO && data == [] then (Bad([]), c.(q := c.end))
      else if checksum && !Sealed(file[c.q..c.q + HEADER + |data|], kind, data) then (Bad([c.end - c.q]), c.(q := c.end))
      else (Fragment(kind, data), c.(q := c.q + HEADER + |data|))
  {
    hide C.Unmask, C.Value, DecodeFixed32;
    var buffer, r := file[c.q..c.end], file[c.q..c.q + HEADER + |data|];
    assert buffer[..HEADER + |data|] == r;
    assert buffer[..4] == r[..4] && buffer[4] == r[4] && buffer[5] == r[5] && buffer[6] == r[6];
    assert buffer[HEADER..HEADER + |data|] == r[HEADER..];
  }

  /** A record longer than what is left of the buffer: the end of the file, or damage that costs the buffer. */
  lemma CutShort(file: Bytes, c: Cursor, checksum: bool)
    requires InFile(file, c) && HEADER <= c.end - c.q < HEADER + file[c.q + 4] as int + 256 * file[c.q + 5] as int
    ensures ReadPhysical(file, c, checksum) == (if c.eof then Eof else Bad([c.end - c.q]), c.(q := c.end))
  {
  }

  // -------------------------------------------------------------- records from fragments

  /** The next n physical records, and where that leaves the reader. */
  function Pieces(file: Bytes, c: Cursor, checksum: bool, n: nat): (r: (seq<Piece>, Cursor))
    requires InFile(file, c)
    ensures |r.0| == n && InFile(file, r.1)
    decreases n
  {
    if n == 0 then ([], c) else
    var (p, d) := ReadPhysical(file, c, checksum);
    var (rest, e) := Pieces(file, d, checksum, n - 1);
    ([p] + rest, e)
  }

  predicate Is(p: Piece, kind: Byte) {
    p.Fragment? && p.kind == kind
  }

  function Payloads(ps: seq<Piece>): Bytes {
    if ps == [] then [] else Payloads(ps[..|ps| - 1]) + if ps[|ps| - 1].Fragment? then ps[|ps| - 1].data else []
  }

  /** The beginning of a record: a first fragment and middle ones. */
  predicate Begun(ps: seq<Piece>, scratch: Bytes) {
    ps != [] && Is(ps[0], FIRST) && (forall i | 1 <= i < |ps| :: Is(ps[i], MIDDLE)) && scratch == Payloads(ps)
  }

  /** A whole record: one full fragment; or a first one, middle ones and a last one, with nothing in between. */
  predicate Complete(ps: seq<Piece>, data: Bytes) {
    ps != [] &&
    var n := |ps| - 1;
    data == Payloads(ps) && if n == 0 then Is(ps[0], FULL) else Begun(ps[..n], Payloads(ps[..n])) && Is(ps[n], LAST)
  }

  lemma PayloadsMore(ps: seq<Piece>, p: Piece)
    ensures Payloads(ps + [p]) == Payloads(ps) + if p.Fragment? then p.data else []
  {
    assert (ps + [p])[..|ps|] == ps;
  }

  /** What is pending after a piece is the beginning of a record that ends with that piece, or nothing. */
  lemma PendingIs(a: Pending, open: seq<Piece>, p: Piece) returns (open': seq<Piece>)
    requires a.inside ==> Begun(open, a.scratch)
    ensures open' == open + [p] || open' == [p]
    ensures var t := Absorb(a, p);
            && (t.Continue? && t.next.inside ==> Begun(open', t.next.scratch))
            && (t.Deliver? ==> Complete(open', t.data))
  {
    hide Payloads;
    PayloadsMore(open, p);
    PayloadsMore([], p);
    NoPayloads();
    assert (open + [p])[..|open|] == open;
    assert [] + [p] == [p];
    open' := if a.inside && (Is(p, MIDDLE) || Is(p, LAST)) then open + [p] else [p];
  }

  lemma NoPayloads()
    ensures Payloads([]) == []
  {
  }

  /** `open` and n more pieces end with a complete record. */
  ghost predicate EndsComplete(open: seq<Piece>, more: seq<Piece>, m: nat, data: Bytes) {
    m <= |open| + |more| && Complete((open + more)[m..], data)
  }

  lemma OnePiece(file: Bytes, c: Cursor, checksum: bool)
    requires InFile(file, c)
    ensures var (p, d) := ReadPhysical(file, c, checksum); Pieces(file, c, checksum, 1) == ([p], d)
  {
    var (p, d) := ReadPhysical(file, c, checksum);
    assert Pieces(file, d, checksum, 0) == ([], d);
    assert [p] + [] == [p];
  }

  lemma PiecesOn(file: Bytes, c: Cursor, checksum: bool, n: nat)
    requires InFile(file, c)
    ensures
      var (p, d) := ReadPhysical(file, c, checksum);
      var (ps, e) := Pieces(file, d, checksum, n);
      Pieces(file, c, checksum, n + 1) == ([p] + ps, e)
  {
    hide ReadPhysical;
  }

  lemma EndsOn(open: seq<Piece>, open': seq<Piece>, p: Piece, ps: seq<Piece>, m: nat, data: Bytes) returns (m': nat)
    requires (open' == open + [p] || open' == [p]) && EndsComplete(open', ps, m, data)
    ensures EndsComplete(open, [p] + ps, m', data)
  {
    hide Complete;
    m' := if open' == open + [p] then m else m + |open|;
    assert (open' + ps)[m..] == (open + ([p] + ps))[m'..];
  }

  lemma EndsNow(open: seq<Piece>, open': seq<Piece>, p: Piece, data: Bytes) returns (m: nat)
    requires (open' == open + [p] || open' == [p]) && Complete(open', data)
    ensures EndsComplete(open, [p], m, data)
  {
    hide Complete;
    m := if open' == open + [p] then 0 else |open|;
    assert (open + [p])[m..] == open';
  }

  lemma {:induction false} DeliveredFrom(file: Bytes, c: Cursor, checksum: bool, a: Pending, open: seq<Piece>) returns (n: nat, m: nat)
    requires InFile(file, c) && (a.inside ==> Begun(open, a.scratch)) && ReadFrom(file, c, checksum, a).Record?
    ensures
      var r, (ps, d) := ReadFrom(file, c, checksum, a), Pieces(file, c, checksum, n);
      n >= 1 && d == r.at && EndsComplete(open, ps, m, r.data)
    decreases |file| - c.q
  {
    hide ReadPhysical, Absorb, Complete, Begun, EndsComplete, Pieces;
    var (p, d) := ReadPhysical(file, c, checksum);
    var open' := PendingIs(a, open, p);
    var t := Absorb(a, p);
    if t.Deliver? {
      n := 1;
      m := EndsNow(open, open', p, t.data);
      OnePiece(file, c, checksum);
    } else {
      n, m := DeliveredFrom(file, d, checksum, t.next, open');
      PiecesOn(file, c, checksum, n);
      m := EndsOn(open, open', p, Pieces(file, d, checksum, n).0, m, ReadFrom(file, d, checksum, t.next).data);
      n := n + 1;
    }
  }

  /**
   Every record the reader delivers, of any file, is the payload of one full fragment or of a first, middle
   and last ones that it took one directly after the other: nothing is delivered across a bad or missing piece.
   */
  lemma DeliveredWhole(file: Bytes, c: Cursor, checksum: bool, dropped: seq<nat>) returns (n: nat, m: nat)
    requires InFile(file, c) && ReadFrom(file, c, checksum, Pending(false, [], dropped)).Record?
    ensures
      var r, (ps, d) := ReadFrom(file, c, checksum, Pending(false, [], dropped)), Pieces(file, c, checksum, n);
      m < n && d == r.at && Complete(ps[m..], r.data)
  {
    hide ReadFrom, Complete, Begun, Pieces;
    n, m := DeliveredFrom(file, c, checksum, Pending(false, [], dropped), []);
    var (ps, _) := Pieces(file, c, checksum, n);
    assert [] + ps == ps;
    CompleteSome(ps[m..], ReadFrom(file, c, checksum, Pending(false, [], dropped)).data);
  }

  lemma CompleteSome(ps: seq<Piece>, data: Bytes)
    requires Complete(ps, data)
    ensures ps != []
  {
  }

  // -------------------------------------------------------------- nothing lost unreported

  function Total(xs: seq<nat>): nat {
    if xs == [] then 0 else Total(xs[..|xs| - 1]) + xs[|xs| - 1]
  }

  lemma {:induction false} TotalJoin(a: seq<nat>, b: seq<nat>)
    ensures Total(a + b) == Total(a) + Total(b)
    decreases |b|
  {
    if b == [] {
      assert a + b == a;
    } else {
      TotalJoin(a, b[..|b| - 1]);
      assert (a + b)[..|a + b| - 1] == a + b[..|b| - 1];
    }
  }

  /** What a piece brings: a fragment its payload, a bad piece what it reports. */
  function Weight(p: Piece): nat {
    match p
    case Fragment(_, data) => |data|
    case Bad(sizes) => Total(sizes)
    case Eof => 0
  }

  function Weights(ps: seq<Piece>): nat {
    if ps == [] then 0 else Weight(ps[0]) + Weights(ps[1..])
  }

  /** A fragment on disk whose type is one of the reader's own answers is taken for that answer. */
  predicate Plain(p: Piece) {
    !Is(p, EOF) && !Is(p, BAD_RECORD)
  }

  function InHand(a: Pending): nat {
    Total(a.dropped) + |a.scratch|
  }

  lemma TurnConserves(a: Pending, p: Piece)
    requires (!a.inside ==> a.scratch == []) && Plain(p)
    ensures match Absorb(a, p)
            case Deliver(data, dropped) => InHand(a) + Weight(p) == |data| + Total(dropped)
            case Stop(dropped) => p.Eof? && dropped == a.dropped
            case Continue(next) => InHand(a) + Weight(p) == InHand(next) && (!next.inside ==> next.scratch == [])
  {
    var x: nat := if p.Fragment? then |p.data| else 0;
    TotalJoin(a.dropped, [|a.scratch|]);
    TotalJoin(a.dropped, [x]);
    TotalJoin(a.dropped, [x + |a.scratch|]);
    if p.Bad? {
      TotalJoin(a.dropped, p.dropped);
      TotalJoin(a.dropped + p.dropped, [|a.scratch|]);
    }
    assert Total([|a.scratch|]) == |a.scratch| && Total([x]) == x && Total([x + |a.scratch|]) == x + |a.scratch|;
  }

  predicate EndsWith(x: seq<Piece>, y: seq<Piece>) {
    |y| <= |x| && x[|x| - |y|..] == y
  }

  lemma EndsWithMore(open: seq<Piece>, open': seq<Piece>, p: Piece, ps: seq<Piece>, y: seq<Piece>)
    requires (open' == open + [p] || open' == [p]) && EndsWith(open' + ps, y)
    ensures EndsWith(open + ([p] + ps), y)
  {
    var x, x' := open + ([p] + ps), open' + ps;
    assert x[|x| - |x'|..] == x';
    assert x[|x| - |y|..] == x[|x| - |x'|..][|x'| - |y|..];
  }

  /**
   Whatever the file: the payload bytes of the pieces taken, and the bytes bad pieces cost, are those of the
   record delivered and those reported dropped. At the end of the file only the beginning of a record cut short
   there, `left`, goes unreported.
   */
  lemma {:induction false} ReadingConserves(file: Bytes, c: Cursor, checksum: bool, a: Pending, open: seq<Piece>)
    returns (n: nat, left: seq<Piece>)
    requires InFile(file, c) && (if a.inside then Begun(open, a.scratch) else a.scratch == [])
    ensures
      var r, (ps, d) := ReadFrom(file, c, checksum, a), Pieces(file, c, checksum, n);
      && n >= 1 && d == r.at
      && (r.End? ==> (left == [] || Begun(left, Payloads(left))) && EndsWith(open + ps, left + [ps[n - 1]]))
      && ((forall p | p in ps :: Plain(p)) ==>
          InHand(a) + Weights(ps) == Total(r.dropped) + if r.Record? then |r.data| else |Payloads(left)|)
    decreases |file| - c.q
  {
    hide ReadPhysical, Absorb, Total, Pieces, Weights, Weight, InHand, Plain, Begun, Payloads, EndsWith, Complete;
    var (p, d) := ReadPhysical(file, c, checksum);
    n, left := 0, if a.inside then open else [];
    if Plain(p) { TurnConserves(a, p); }
    OnePiece(file, c, checksum);
    match Absorb(a, p) {
      case Continue(next) =>
        AbsorbKeeps(a, p);
        var open' := PendingIs(a, open, p);
        n, left := ReadingConserves(file, d, checksum, next, open');
        PiecesOn(file, c, checksum, n);
        var ps := Pieces(file, d, checksum, n).0;
        WeightsOn(p, ps);
        if ReadFrom(file, c, checksum, a).End? { EndsWithMore(open, open', p, ps, left + [ps[n - 1]]); }
      case _ =>
        WeightsOn(p, []);
        assert [p] + [] == [p];
        StopKeeps(a, p);
        LeftOver(a, open, p, left);
    }
    n := n + 1;
  }

  lemma LeftOver(a: Pending, open: seq<Piece>, p: Piece, left: seq<Piece>)
    requires (if a.inside then Begun(open, a.scratch) else a.scratch == []) && left == if a.inside then open else []
    ensures (left == [] || Begun(left, Payloads(left))) && |Payloads(left)| == |a.scratch| && EndsWith(open + [p], left + [p])
  {
    NoPayloads();
    assert (open + [p])[|open|..] == [p] == [] + [p];
  }

  lemma WeightsOn(p: Piece, ps: seq<Piece>)
    ensures Weights([p] + ps) == Weight(p) + Weights(ps) && Weights([]) == 0
    ensures (forall q | q in [p] + ps :: Plain(q)) ==> Plain(p) && forall q | q in ps :: Plain(q)
  {
    assert ([p] + ps)[1..] == ps && p in [p] + ps && forall q | q in ps :: q in [p] + ps;
  }

  lemma StopKeeps(a: Pending, p: Piece)
    ensures p.Eof? ==> InHand(a) + Weight(p) == Total(a.dropped) + |a.scratch|
  {
  }

  lemma AbsorbKeeps(a: Pending, p: Piece)
    requires !a.inside ==> a.scratch == []
    ensures var t := Absorb(a, p); t.Continue? && !t.next.inside ==> t.next.scratch == []
  {
  }
}
