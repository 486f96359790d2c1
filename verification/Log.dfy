/**
 The write-ahead log: records cut into fragments that never cross a 32 KiB block, each
 under a checksummed header, and the reader that puts them together again. The file is
 the byte string written so far; a crash leaves a prefix of it.
 */
module Logs {
  import opened Entries
  import opened Coding
  import C = Crc32c

  const BLOCK := 32768
  const HEADER := 7

  const ZERO := 0
  const FULL := 1
  const FIRST := 2
  const MIDDLE := 3
  const LAST := 4

  // ReadPhysicalRecord's own answers share the space of record types.
  const EOF := 5
  const BAD_RECORD := 6

  function Zeros(n: nat): (r: Bytes)
    ensures |r| == n
  {
    seq(n, _ => 0)
  }

  function Checksum(kind: Byte, data: Bytes): Word32 {
    C.Value([kind] + data)
  }

  /** Header (masked checksum, length, type) and payload. */
  function Physical(kind: Byte, data: Bytes): (r: Bytes)
    requires |data| < 0x1_0000
    ensures |r| == HEADER + |data|
  {
    Fixed(C.Mask(Checksum(kind, data)), 4) + [|data| % 256, |data| / 256] + [kind] + data
  }

  // -------------------------------------------------------------- layout

  /** Where the next fragment starts when the block offset is `off`. */
  function Pad(off: nat): nat
    requires off <= BLOCK
  {
    if BLOCK - off < HEADER then BLOCK - off else 0
  }

  function Start(off: nat): (r: nat)
    requires off <= BLOCK
    ensures r + HEADER <= BLOCK
  {
    if BLOCK - off < HEADER then 0 else off
  }

  /** How much of the payload fits behind it. */
  function Fit(off: nat, data: Bytes): (r: nat)
    requires off <= BLOCK
    ensures r <= |data| && Start(off) + HEADER + r <= BLOCK
    ensures r < |data| ==> Start(off) + HEADER + r == BLOCK
  {
    var avail := BLOCK - Start(off) - HEADER;
    if |data| < avail then |data| else avail
  }

  function KindOf(begin: bool, end: bool): Byte {
    if begin && end then FULL else if begin then FIRST else if end then LAST else MIDDLE
  }

  /** The bytes one record takes from block offset `off` on. */
  function Emit(off: nat, data: Bytes, begin: bool): Bytes
    requires off <= BLOCK
    decreases |data|, BLOCK - off
  {
    var n := Fit(off, data);
    var head := Zeros(Pad(off)) + Physical(KindOf(begin, n == |data|), data[..n]);
    if n == |data| then head else head + Emit(BLOCK, data[n..], false)
  }

  function EmitEnd(off: nat, data: Bytes): (r: nat)
    requires off <= BLOCK
    ensures r <= BLOCK
    decreases |data|, BLOCK - off
  {
    var n := Fit(off, data);
    if n == |data| then Start(off) + HEADER + n else EmitEnd(BLOCK, data[n..])
  }

  function Log(off: nat, records: seq<Bytes>): Bytes
    requires off <= BLOCK
    decreases |records|
  {
    if records == [] then [] else Emit(off, records[0], true) + Log(EmitEnd(off, records[0]), records[1..])
  }

  function LogEnd(off: nat, records: seq<Bytes>): (r: nat)
    requires off <= BLOCK
    ensures r <= BLOCK
    decreases |records|
  {
    if records == [] then off else LogEnd(EmitEnd(off, records[0]), records[1..])
  }

  lemma {:induction false} LogAppend(off: nat, records: seq<Bytes>, record: Bytes)
    requires off <= BLOCK
    ensures Log(off, records + [record]) == Log(off, records) + Emit(LogEnd(off, records), record, true)
    ensures LogEnd(off, records + [record]) == EmitEnd(LogEnd(off, records), record)
    decreases |records|
  {
    hide Emit, EmitEnd;
    var all := records + [record];
    if records == [] {
      assert all[1..] == [];
    } else {
      assert all[1..] == records[1..] + [record];
      LogAppend(EmitEnd(off, records[0]), records[1..], record);
    }
  }

  // -------------------------------------------------------------- writer

  class Writer {
    var dest: Bytes
    var blockOffset: nat
    ghost var records: seq<Bytes>

    /** The file is the log of the records added so far. */
    ghost predicate Valid()
      reads this
    {
      blockOffset == LogEnd(0, records) && dest == Log(0, records)
    }

    constructor ()
      ensures Valid() && records == []
    {
      dest, blockOffset, records := [], 0, [];
    }

    method AddRecord(record: Bytes)
      requires Valid()
      modifies this
      ensures Valid() && records == old(records) + [record]
    {
      hide Emit, EmitEnd, Physical, Log, LogEnd;
      LogAppend(0, records, record);
      var ptr, begin := 0, true;
      var more := true;
      ghost var whole := old(dest) + Emit(blockOffset, record, true);
      assert record[0..] == record;
      while more
        invariant blockOffset <= BLOCK && 0 <= ptr <= |record| && records == old(records)
        invariant more ==> dest + Emit(blockOffset, record[ptr..], begin) == whole
        invariant more ==> EmitEnd(blockOffset, record[ptr..]) == EmitEnd(old(blockOffset), record)
        invariant !more ==> dest == whole && blockOffset == EmitEnd(old(blockOffset), record)
        decreases more, |record| - ptr, BLOCK - blockOffset
      {
        ghost var d, off := dest, blockOffset;
        var leftover := BLOCK - blockOffset;
        if leftover < HEADER {
          if leftover > 0 {
            dest := dest + Zeros(leftover);
          }
          blockOffset := 0;
        }
        assert dest == d + Zeros(Pad(off)) && blockOffset == Start(off);
        var avail := BLOCK - blockOffset - HEADER;
        var left := |record| - ptr;
        var n := if left < avail then left else avail;
        var end := left == n;
        var kind := if begin && end then FULL else if begin then FIRST else if end then LAST else MIDDLE;
        EmitPhysicalRecord(kind, record[ptr..ptr + n]);
        EmitStep(d, off, record, ptr, n, begin);
        ptr := ptr + n;
        begin := false;
        more := |record| - ptr > 0;
      }
      records := records + [record];
    }

    method EmitPhysicalRecord(kind: Byte, data: Bytes)
      requires kind <= LAST && blockOffset + HEADER + |data| <= BLOCK
      modifies this`dest, this`blockOffset
      ensures dest == old(dest) + Physical(kind, data)
      ensures blockOffset == old(blockOffset) + HEADER + |data|
    {
      hide Checksum, C.Crc, C.Mask, C.Number;
      var typeCrc := C.Extend(C.Zeros(32), [kind], 0);
      var crc := C.Extend(typeCrc, data, 0);
      ChecksumInTwo(kind, data);
      var buf := Fixed(C.Mask(C.Number(crc)), 4) + [|data| % 256, |data| / 256] + [kind];
      dest := dest + buf;
      dest := dest + data;
      blockOffset := blockOffset + HEADER + |data|;
    }
  }

  /** The writer keeps the checksum of each type byte and extends it over the payload. */
  lemma ChecksumInTwo(kind: Byte, data: Bytes)
    ensures C.Number(C.Crc(C.Crc(C.Zeros(32), [kind]), data)) == Checksum(kind, data)
  {
    hide C.Crc, C.Number;
    C.ExtendComposes(C.Zeros(32), [kind], data);
  }

  lemma EmitStep(d: Bytes, off: nat, record: Bytes, ptr: nat, n: nat, begin: bool)
    requires off <= BLOCK && ptr <= |record| && n == Fit(off, record[ptr..])
    ensures ptr + n <= |record|
    ensures
      var head := d + Zeros(Pad(off)) + Physical(KindOf(begin, ptr + n == |record|), record[ptr..ptr + n]);
      if ptr + n == |record| then
        d + Emit(off, record[ptr..], begin) == head
      else
        d + Emit(off, record[ptr..], begin) == head + Emit(BLOCK, record[ptr + n..], false)
    ensures ptr + n == |record| ==> EmitEnd(off, record[ptr..]) == Start(off) + HEADER + n
    ensures ptr + n < |record| ==> EmitEnd(off, record[ptr..]) == EmitEnd(BLOCK, record[ptr + n..])
  {
    hide Physical;
    var data := record[ptr..];
    assert data[..n] == record[ptr..ptr + n] && data[n..] == record[ptr + n..];
  }

  // -------------------------------------------------------------- reader

  /** The read buffer is file[q..end]; `eof` once a read came back short. */
  datatype Cursor = Cursor(q: nat, end: nat, eof: bool)

  /** kEof and kBadRecord extend the record types; a bad record may report dropped bytes. */
  datatype Piece = Fragment(kind: Byte, data: Bytes) | Bad(dropped: seq<nat>) | Eof

  predicate InFile(file: Bytes, c: Cursor) {
    c.q <= c.end <= |file|
  }

  function Refill(file: Bytes, c: Cursor): (r: Cursor)
    requires InFile(file, c)
    ensures InFile(file, r)
  {
    var n := if |file| - c.end < BLOCK then |file| - c.end else BLOCK;
    Cursor(c.end, c.end + n, n < BLOCK)
  }

  /** The next physical record of any file, well formed or not. */
  function ReadPhysical(file: Bytes, c: Cursor, checksum: bool): (r: (Piece, Cursor))
    requires InFile(file, c)
    ensures InFile(file, r.1)
    ensures !r.0.Eof? ==> c.q < r.1.q
    decreases !c.eof, |file| - c.end
  {
    if c.end - c.q < HEADER then
      if c.eof then (Eof, c.(q := c.end)) else ReadPhysical(file, Refill(file, c), checksum)
    else Parse(file, c, checksum)
  }

  function Parse(file: Bytes, c: Cursor, checksum: bool): (r: (Piece, Cursor))
    requires InFile(file, c) && HEADER <= c.end - c.q
    ensures InFile(file, r.1) && c.q < r.1.q
  {
    var (p, n) := ParseBuffer(file[c.q..c.end], c.eof, checksum);
    (p, c.(q := c.q + n))
  }

  /** The physical record at the front of the buffer, and how much of the buffer it uses up. */
  function ParseBuffer(buffer: Bytes, eof: bool, checksum: bool): (r: (Piece, nat))
    requires HEADER <= |buffer|
    ensures 0 < r.1 <= |buffer|
  {
    var length: nat := buffer[4] as int + 256 * buffer[5] as int;
    var kind := buffer[6];
    if HEADER + length > |buffer| then
      (if eof then Eof else Bad([|buffer|]), |buffer|)
    else if kind == ZERO && length == 0 then
      (Bad([]), |buffer|)
    else
      var data := buffer[HEADER..HEADER + length];
      if checksum && Checksum(kind, data) != C.Unmask(DecodeFixed32(buffer[..4])) then
        (Bad([|buffer|]), |buffer|)
      else
        (Fragment(kind, data), HEADER + length)
  }

  datatype Outcome =
    | Record(data: Bytes, at: Cursor, dropped: seq<nat>)
    | End(at: Cursor, dropped: seq<nat>)

  /** Inside a fragmented record or not, the fragments so far, and the drops reported so far. */
  datatype Pending = Pending(inside: bool, scratch: Bytes, dropped: seq<nat>)

  datatype Turn = Deliver(data: Bytes, dropped: seq<nat>) | Stop(dropped: seq<nat>) | Continue(next: Pending)

  function Note(a: Pending, report: bool, size: nat): seq<nat> {
    if report then a.dropped + [size] else a.dropped
  }

  function Discard(a: Pending): Pending {
    if a.inside then Pending(false, [], a.dropped + [|a.scratch|]) else a
  }

  /** What one physical record does to the logical record being put together. */
  function Absorb(a: Pending, p: Piece): (t: Turn)
    ensures p.Eof? ==> !t.Continue?
  {
    match p
    case Eof => Stop(a.dropped)
    case Bad(sizes) => Continue(Discard(a.(dropped := a.dropped + sizes)))
    case Fragment(kind, data) =>
      var partial := a.inside && a.scratch != [];
      if kind == FULL then Deliver(data, Note(a, partial, |a.scratch|))
      else if kind == FIRST then Continue(Pending(true, data, Note(a, partial, |a.scratch|)))
      else if kind == MIDDLE then
        if a.inside then Continue(a.(scratch := a.scratch + data)) else Continue(a.(dropped := a.dropped + [|data|]))
      else if kind == LAST then
        if a.inside then Deliver(a.scratch + data, a.dropped) else Continue(a.(dropped := a.dropped + [|data|]))
      else if kind == EOF then Stop(a.dropped)
      else if kind == BAD_RECORD then Continue(Discard(a))
      else Continue(Pending(false, [], a.dropped + [|data| + if a.inside then |a.scratch| else 0]))
  }

  function ReadFrom(file: Bytes, c: Cursor, checksum: bool, a: Pending): (r: Outcome)
    requires InFile(file, c)
    ensures InFile(file, r.at) && (r.Record? ==> c.q < r.at.q)
    decreases |file| - c.q
  {
    var (p, d) := ReadPhysical(file, c, checksum);
    match Absorb(a, p)
    case Deliver(data, dropped) => Record(data, d, dropped)
    case Stop(dropped) => End(d, dropped)
    case Continue(next) => ReadFrom(file, d, checksum, next)
  }

  /** Everything a reader returns before it first reports the end, and what it reported dropped. */
  function ReadAll(file: Bytes, c: Cursor, checksum: bool, dropped: seq<nat>): (seq<Bytes>, seq<nat>)
    requires InFile(file, c)
    decreases |file| - c.q
  {
    match ReadFrom(file, c, checksum, Pending(false, [], dropped))
    case End(_, noted) => ([], noted)
    case Record(data, d, noted) =>
      var (rest, all) := ReadAll(file, d, checksum, noted);
      ([data] + rest, all)
  }

  class Reader {
    const file: Bytes
    const checksum: bool
    var buffer: Bytes
    var eof: bool
    var endOfBuffer: nat
    var dropped: seq<nat>

    ghost predicate Valid()
      reads this
    {
      |buffer| <= endOfBuffer <= |file| && buffer == file[endOfBuffer - |buffer|..endOfBuffer]
    }

    ghost function At(): Cursor
      requires Valid()
      reads this
    {
      Cursor(endOfBuffer - |buffer|, endOfBuffer, eof)
    }

    constructor (file: Bytes, checksum: bool)
      ensures Valid() && this.file == file && this.checksum == checksum
      ensures At() == Cursor(0, 0, false) && dropped == []
    {
      this.file, this.checksum := file, checksum;
      buffer, eof, endOfBuffer, dropped := [], false, 0, [];
    }

    method FillBuffer()
      requires Valid()
      modifies this
      ensures Valid() && At() == Refill(file, old(At())) && dropped == old(dropped)
    {
      var n := if |file| - endOfBuffer < BLOCK then |file| - endOfBuffer else BLOCK;
      buffer := file[endOfBuffer..endOfBuffer + n];
      endOfBuffer := endOfBuffer + n;
      eof := |buffer| < BLOCK;
    }

    method ReadPhysicalRecord() returns (p: Piece)
      requires Valid()
      modifies this
      ensures Valid() && (p, At()) == ReadPhysical(file, old(At()), checksum)
      ensures dropped == if p.Bad? then old(dropped) + p.dropped else old(dropped)
    {
      hide Parse;
      while |buffer| < HEADER
        invariant Valid() && dropped == old(dropped)
        invariant ReadPhysical(file, At(), checksum) == ReadPhysical(file, old(At()), checksum)
        decreases !eof, |file| - endOfBuffer
      {
        if !eof {
          FillBuffer();
        } else {
          buffer := [];
          return Eof;
        }
      }
      p := TakeRecord();
    }

    method TakeRecord() returns (p: Piece)
      requires Valid() && HEADER <= |buffer|
      modifies this
      ensures Valid() && (p, At()) == Parse(file, old(At()), checksum)
      ensures dropped == if p.Bad? then old(dropped) + p.dropped else old(dropped)
    {
      hide Checksum, C.Unmask, DecodeFixed32;
      var length: nat := buffer[4] as int + 256 * buffer[5] as int;
      var kind := buffer[6];
      var size := |buffer|;
      if HEADER + length > size {
        buffer := [];
        if !eof {
          dropped := dropped + [size];
          return Bad([size]);
        }
        return Eof;
      }
      if kind == ZERO && length == 0 {
        buffer := [];
        return Bad([]);
      }
      var data := buffer[HEADER..HEADER + length];
      if checksum {
        var expected := C.Unmask(DecodeFixed32(buffer[..4]));
        if Checksum(kind, data) != expected {
          buffer := [];
          dropped := dropped + [size];
          return Bad([size]);
        }
      }
      buffer := buffer[HEADER + length..];
      p := Fragment(kind, data);
    }

    method ReadRecord() returns (record: Option<Bytes>)
      requires Valid()
      modifies this
      ensures Valid()
      ensures
        var o := ReadFrom(file, old(At()), checksum, Pending(false, [], old(dropped)));
        At() == o.at && dropped == o.dropped && record == if o.Record? then Some(o.data) else None
    {
      hide ReadPhysical, Absorb;
      var scratch: Bytes, inside := [], false;
      while true
        invariant Valid()
        invariant ReadFrom(file, At(), checksum, Pending(inside, scratch, dropped))
               == ReadFrom(file, old(At()), checksum, Pending(false, [], old(dropped)))
        decreases |file| - (endOfBuffer - |buffer|)
      {
        ghost var a := Pending(inside, scratch, dropped);
        var p := ReadPhysicalRecord();
        var turn;
        turn, inside, scratch := TakePiece(inside, scratch, p, a);
        match turn {
          case Deliver(data, _) => return Some(data);
          case Stop(_) => return None;
          case Continue(_) =>
        }
      }
    }

    /** The switch on the record type. */
    method TakePiece(inside: bool, scratch: Bytes, p: Piece, ghost a: Pending)
        returns (turn: Turn, inside': bool, scratch': Bytes)
      requires a.inside == inside && a.scratch == scratch
      requires dropped == if p.Bad? then a.dropped + p.dropped else a.dropped
      modifies this`dropped
      ensures turn == Absorb(a, p)
      ensures dropped == if turn.Continue? then turn.next.dropped else turn.dropped
      ensures turn.Continue? ==> inside' == turn.next.inside && scratch' == turn.next.scratch
    {
      inside', scratch' := inside, scratch;
      match p {
        case Eof =>
          return Stop(dropped), inside, scratch;
        case Bad(_) =>
          if inside {
            dropped := dropped + [|scratch|];
            inside', scratch' := false, [];
          }
        case Fragment(kind, data) =>
          if kind == FULL {
            if inside && scratch != [] {
              dropped := dropped + [|scratch|];
            }
            return Deliver(data, dropped), inside, scratch;
          } else if kind == FIRST {
            if inside && scratch != [] {
              dropped := dropped + [|scratch|];
            }
            scratch', inside' := data, true;
          } else if kind == MIDDLE {
            if !inside {
              dropped := dropped + [|data|];
            } else {
              scratch' := scratch + data;
            }
          } else if kind == LAST {
            if !inside {
              dropped := dropped + [|data|];
            } else {
              return Deliver(scratch + data, dropped), inside, scratch;
            }
          } else if kind == EOF {
            return Stop(dropped), inside, scratch;
          } else if kind == BAD_RECORD {
            if inside {
              dropped := dropped + [|scratch|];
              inside', scratch' := false, [];
            }
          } else {
            dropped := dropped + [|data| + if inside then |scratch| else 0];
            inside', scratch' := false, [];
          }
      }
      turn := Continue(Pending(inside', scratch', dropped));
    }
  }

  /** The recovery loop: every record up to the first reported end. */
  method ReadWhole(file: Bytes, checksum: bool) returns (records: seq<Bytes>, dropped: seq<nat>)
    ensures (records, dropped) == ReadAll(file, Cursor(0, 0, false), checksum, [])
  {
    hide ReadFrom;
    var reader := new Reader(file, checksum);
    records := [];
    ghost var whole := ReadAll(file, reader.At(), checksum, []).0;
    assert records + whole == whole;
    while true
      invariant reader.Valid() && reader.file == file && reader.checksum == checksum
      invariant
        var (rest, all) := ReadAll(file, reader.At(), checksum, reader.dropped);
        (records + rest, all) == ReadAll(file, Cursor(0, 0, false), checksum, [])
      decreases |file| - reader.At().q
    {
      var record := reader.ReadRecord();
      if record.None? {
        assert records + [] == records;
        return records, reader.dropped;
      }
      ghost var rest := ReadAll(file, reader.At(), checksum, reader.dropped).0;
      assert records + ([record.value] + rest) == records + [record.value] + rest;
      records := records + [record.value];
    }
  }

  // -------------------------------------------------------------- reading what was written

  /** The buffer holds the rest of the block that starts at `base`, or nothing of it yet. */
  predicate Buffered(file: Bytes, c: Cursor, base: nat) {
    && InFile(file, c)
    && base <= c.q && c.end <= base + BLOCK
    && (if c.eof then c.end == |file| else c.end == base + BLOCK || c.end == c.q == base)
  }

  /** A physical record at the front of the buffer is taken; one cut off by the end of the file ends it. */
  lemma ParsePhysical(buffer: Bytes, eof: bool, checksum: bool, kind: Byte, data: Bytes)
    requires HEADER <= |buffer| && kind != ZERO && |data| < 0x1_0000
    requires
      var p := Physical(kind, data);
      if |p| <= |buffer| then p <= buffer else buffer <= p
    ensures HEADER + |data| <= |buffer| ==>
      ParseBuffer(buffer, eof, checksum) == (Fragment(kind, data), HEADER + |data|)
    ensures HEADER + |data| > |buffer| && eof ==> ParseBuffer(buffer, eof, checksum) == (Eof, |buffer|)
  {
    hide Checksum, C.Mask, C.Unmask, Fixed, DecodeFixed32;
    var p := Physical(kind, data);
    var f := Fixed(C.Mask(Checksum(kind, data)), 4);
    assert buffer[..HEADER] == p[..HEADER];
    assert buffer[..4] == buffer[..HEADER][..4] == f;
    assert buffer[4] == p[4] == |data| % 256 && buffer[5] == p[5] == |data| / 256 && buffer[6] == p[6] == kind;
    C.UnmaskMask(Checksum(kind, data));
    Fixed32Round(C.Mask(Checksum(kind, data)));
    if |p| <= |buffer| {
      assert buffer[HEADER..HEADER + |data|] == p[HEADER..] == data;
    }
  }

  /** The fragment's own bytes, past the padding, are what the buffer holds. */
  lemma AtFragment(file: Bytes, q: nat, end: nat, pad: nat, body: Bytes, tail: Bytes)
    requires q + pad <= end <= |file| && file[q..] <= Zeros(pad) + body + tail
    ensures if |body| <= end - q - pad then body <= file[q + pad..end] else file[q + pad..end] <= body
  {
    var all := Zeros(pad) + body + tail;
    var m := if |body| <= end - q - pad then |body| else end - q - pad;
    assert file[q + pad..q + pad + m] == file[q..][pad..pad + m] == all[pad..pad + m] == body[..m];
    if |body| <= end - q - pad {
      assert file[q + pad..end][..m] == file[q + pad..q + pad + m];
    }
  }

  /** The cursor once the block holding the next fragment is in the buffer. */
  lemma Load(file: Bytes, c: Cursor, checksum: bool, base: nat, off: nat) returns (e: Cursor, b: nat)
    requires off <= BLOCK && Buffered(file, c, base) && c.q == base + off
    ensures |file| - c.q < Pad(off) + HEADER ==> ReadPhysical(file, c, checksum).0.Eof?
    ensures |file| - c.q >= Pad(off) + HEADER ==>
      && Buffered(file, e, b) && e.q == c.q + Pad(off) == b + Start(off)
      && HEADER <= e.end - e.q && ReadPhysical(file, c, checksum) == ReadPhysical(file, e, checksum)
  {
    hide Parse;
    e, b := c, base;
    if c.end - c.q < HEADER && !c.eof {
      e := Refill(file, c);
      b := c.end;
    }
  }

  lemma ReadFragment(file: Bytes, c: Cursor, checksum: bool, base: nat, off: nat, data: Bytes, begin: bool, tail: Bytes)
      returns (d: Cursor, b: nat)
    requires off <= BLOCK && Buffered(file, c, base) && c.q == base + off
    requires file[c.q..] <= Emit(off, data, begin) + tail
    ensures
      var n := Fit(off, data);
      var f := Pad(off) + HEADER + n;
      if |file| - c.q < f then ReadPhysical(file, c, checksum).0.Eof?
      else
        && ReadPhysical(file, c, checksum) == (Fragment(KindOf(begin, n == |data|), data[..n]), d)
        && Buffered(file, d, b) && d.q == c.q + f == b + Start(off) + HEADER + n
  {
    hide ParseBuffer, Physical;
    var n := Fit(off, data);
    var kind := KindOf(begin, n == |data|);
    var body := Physical(kind, data[..n]);
    var rest := if n == |data| then tail else Emit(BLOCK, data[n..], false) + tail;
    var e;
    e, b := Load(file, c, checksum, base, off);
    d := e;
    if |file| - c.q >= Pad(off) + HEADER {
      assert Emit(off, data, begin) + tail == Zeros(Pad(off)) + body + rest;
      AtFragment(file, c.q, e.end, Pad(off), body, rest);
      ParsePhysical(file[e.q..e.end], e.eof, checksum, kind, data[..n]);
      assert ReadPhysical(file, e, checksum) == Parse(file, e, checksum);
      d := e.(q := e.q + HEADER + n);
    }
  }

  lemma Beyond(file: Bytes, q: nat, first: Bytes, rest: Bytes)
    requires q + |first| <= |file| && file[q..] <= first + rest
    ensures file[q + |first|..] <= rest
  {
    assert file[q + |first|..] == file[q..][|first|..];
    assert (first + rest)[|first|..] == rest;
  }

  /** A record the file holds wholly is returned; one it cuts short ends the reading, unreported. */
  lemma {:induction false} ReadRecord(file: Bytes, c: Cursor, checksum: bool, base: nat, off: nat, data: Bytes,
      begin: bool, tail: Bytes, scratch: Bytes) returns (d: Cursor, b: nat)
    requires off <= BLOCK && Buffered(file, c, base) && c.q == base + off
    requires file[c.q..] <= Emit(off, data, begin) + tail
    requires begin ==> scratch == []
    ensures
      var f, a := |Emit(off, data, begin)|, Pending(!begin, scratch, []);
      if |file| - c.q < f then
        ReadFrom(file, c, checksum, a).End? && ReadFrom(file, c, checksum, a).dropped == []
      else
        && ReadFrom(file, c, checksum, a) == Record(scratch + data, d, [])
        && Buffered(file, d, b) && d.q == c.q + f == b + EmitEnd(off, data)
    decreases |data|, BLOCK - off
  {
    hide Physical, ReadPhysical;
    var n := Fit(off, data);
    d, b := ReadFragment(file, c, checksum, base, off, data, begin, tail);
    var head := Zeros(Pad(off)) + Physical(KindOf(begin, n == |data|), data[..n]);
    if n == |data| {
      assert data[..n] == data;
    } else if |file| - c.q >= |head| {
      var more := Emit(BLOCK, data[n..], false);
      assert head + more + tail == head + (more + tail);
      Beyond(file, c.q, head, more + tail);
      assert scratch + data[..n] + data[n..] == scratch + data;
      assert begin ==> scratch + data[..n] == data[..n];
      d, b := ReadRecord(file, d, checksum, b, BLOCK, data[n..], false, tail, scratch + data[..n]);
    }
  }

  /** How many of the records fit wholly into the first k bytes. */
  function Whole(off: nat, records: seq<Bytes>, k: nat): (m: nat)
    requires off <= BLOCK
    ensures m <= |records|
    decreases |records|
  {
    if records == [] || |Emit(off, records[0], true)| > k then 0
    else 1 + Whole(EmitEnd(off, records[0]), records[1..], k - |Emit(off, records[0], true)|)
  }

  /** That is: the longest prefix of the records whose log is no longer than k. */
  lemma {:induction false} WholeIs(off: nat, records: seq<Bytes>, k: nat)
    requires off <= BLOCK
    ensures
      var m := Whole(off, records, k);
      |Log(off, records[..m])| <= k && (m < |records| ==> |Log(off, records[..m + 1])| > k)
    decreases |records|
  {
    hide Emit, EmitEnd;
    if records != [] {
      var first, m := Emit(off, records[0], true), Whole(off, records, k);
      assert records[..1] == [records[0]];
      if |first| <= k {
        WholeIs(EmitEnd(off, records[0]), records[1..], k - |first|);
        assert records[..m][1..] == records[1..][..m - 1];
        assert m < |records| ==> records[..m + 1][1..] == records[1..][..m];
      }
    }
  }

  /** The whole log holds all its records. */
  lemma {:induction false} WholeAll(off: nat, records: seq<Bytes>)
    requires off <= BLOCK
    ensures Whole(off, records, |Log(off, records)|) == |records|
    decreases |records|
  {
    hide Emit, EmitEnd;
    if records != [] {
      WholeAll(EmitEnd(off, records[0]), records[1..]);
    }
  }

  lemma Consed(records: seq<Bytes>, m: nat)
    requires 1 <= m <= |records|
    ensures [records[0]] + records[1..][..m - 1] == records[..m]
    ensures var empty: Bytes := []; empty + records[0] == records[0]
  {
  }

  lemma ReadNothing(file: Bytes, c: Cursor, checksum: bool)
    requires InFile(file, c) && c.q == |file|
    ensures
      var r := ReadFrom(file, c, checksum, Pending(false, [], []));
      r.End? && r.dropped == []
  {
    assert ReadPhysical(file, c, checksum).0.Eof?;
  }

  lemma {:induction false} ReadLog(file: Bytes, c: Cursor, checksum: bool, base: nat, off: nat, records: seq<Bytes>)
    requires off <= BLOCK && Buffered(file, c, base) && c.q == base + off
    requires file[c.q..] <= Log(off, records)
    ensures ReadAll(file, c, checksum, []) == (records[..Whole(off, records, |file| - c.q)], [])
    decreases |records|
  {
    hide Emit, EmitEnd, ReadFrom, ReadPhysical;
    if records == [] {
      ReadNothing(file, c, checksum);
    } else {
      var first, rest := Emit(off, records[0], true), Log(EmitEnd(off, records[0]), records[1..]);
      var d, b := ReadRecord(file, c, checksum, base, off, records[0], true, rest, []);
      if |first| <= |file| - c.q {
        Beyond(file, c.q, first, rest);
        ReadLog(file, d, checksum, b, EmitEnd(off, records[0]), records[1..]);
        Consed(records, Whole(off, records, |file| - c.q));
      }
    }
  }

  /** Whatever prefix of the log survives a crash, reading it returns exactly the records that lie
      wholly inside it, in order, and reports nothing dropped. */
  lemma CrashPrefix(records: seq<Bytes>, k: nat, checksum: bool)
    requires k <= |Log(0, records)|
    ensures
      var file, m := Log(0, records)[..k], Whole(0, records, k);
      && ReadAll(file, Cursor(0, 0, false), checksum, []) == (records[..m], [])
      && |Log(0, records[..m])| <= k && (m < |records| ==> |Log(0, records[..m + 1])| > k)
  {
    hide ReadAll, Emit, EmitEnd;
    var file := Log(0, records)[..k];
    assert file[0..] == file;
    ReadLog(file, Cursor(0, 0, false), checksum, 0, 0, records);
    WholeIs(0, records, k);
  }
}
