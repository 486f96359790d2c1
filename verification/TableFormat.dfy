/**
 How a table file is laid out: block handles, the footer, and blocks with their trailer.
 */
module TableFormat {
  import opened Entries
  import opened Coding
  import C = Crc32c

  // -------------------------------------------------------------- handles

  datatype Handle = Handle(offset: nat, size: nat)

  function HandleBytes(h: Handle): Bytes {
    Varint(h.offset) + Varint(h.size)
  }

  /** The handle at the front of some bytes, and how many it takes up. */
  function TakeHandle(s: Bytes): (r: Option<(Handle, nat)>)
    ensures r.Some? ==> r.value.1 <= |s|
  {
    match GetVarint64(s)
    case None => None
    case Some(a) =>
      match GetVarint64(s[a.1..])
      case None => None
      case Some(b) => Some((Handle(a.0, b.0), a.1 + b.1))
  }

  function GetHandle(s: Bytes): Option<Handle> {
    match TakeHandle(s)
    case None => None
    case Some(p) => Some(p.0)
  }

  predicate HandleOk(h: Handle) {
    h.offset < TWO_64 && h.size < TWO_64
  }

  /** Whatever follows the handle is ignored. */
  lemma HandleRound(h: Handle, rest: Bytes)
    requires HandleOk(h)
    ensures TakeHandle(HandleBytes(h) + rest) == Some((h, |HandleBytes(h)|)) && GetHandle(HandleBytes(h) + rest) == Some(h)
    ensures |HandleBytes(h)| <= 20
  {
    hide Varint, GetVarint64;
    var a, b := Varint(h.offset), Varint(h.size);
    assert HandleBytes(h) + rest == a + (b + rest);
    Varint64Round(h.offset, b + rest);
    assert (a + (b + rest))[|a|..] == b + rest;
    Varint64Round(h.size, rest);
  }

  // -------------------------------------------------------------- the footer

  const HANDLES: nat := 40 // room for two handles of at most 20 bytes
  const FOOTER: nat := 48
  const MAGIC := 0xdb4775248b80fb57

  /** std::string::resize */
  function Resized(s: Bytes, n: nat): (r: Bytes)
    ensures |r| == n
  {
    if |s| <= n then s + seq(n - |s|, _ => 0) else s[..n]
  }

  /** Footer::EncodeTo */
  function FooterBytes(meta: Handle, index: Handle): (r: Bytes)
    ensures |r| == FOOTER
  {
    Resized(HandleBytes(meta) + HandleBytes(index), HANDLES) + Fixed(MAGIC % TWO_32, 4) + Fixed(MAGIC / TWO_32, 4)
  }

  /** Footer::DecodeFrom: the handles of the metaindex and the index block. */
  function DecodeFooter(s: Bytes): Option<(Handle, Handle)>
    requires |s| == FOOTER
  {
    if DecodeFixed32(s[HANDLES + 4..]) * TWO_32 + DecodeFixed32(s[HANDLES..HANDLES + 4]) != MAGIC then None
    else
      match TakeHandle(s)
      case None => None
      case Some(a) =>
        match TakeHandle(s[a.1..])
        case None => None
        case Some(b) => Some((a.0, b.0))
  }

  /** Opening a table finds the handles its builder wrote. */
  lemma FooterRound(meta: Handle, index: Handle)
    requires HandleOk(meta) && HandleOk(index)
    ensures DecodeFooter(FooterBytes(meta, index)) == Some((meta, index))
  {
    hide Fixed, DecodeFixed32, HandleBytes, TakeHandle;
    var a, b := HandleBytes(meta), HandleBytes(index);
    var s, lo, hi := FooterBytes(meta, index), Fixed(MAGIC % TWO_32, 4), Fixed(MAGIC / TWO_32, 4);
    HandleRound(meta, []);
    HandleRound(index, []);
    var pad: Bytes := seq(HANDLES - |a + b|, _ => 0);
    assert s == a + (b + (pad + lo + hi));
    HandleRound(meta, b + (pad + lo + hi));
    assert s[|a|..] == b + (pad + lo + hi);
    HandleRound(index, pad + lo + hi);
    assert s[HANDLES..HANDLES + 4] == lo && s[HANDLES + 4..] == hi;
    Fixed32Round(MAGIC % TWO_32);
    Fixed32Round(MAGIC / TWO_32);
  }

  // -------------------------------------------------------------- raw blocks

  const TRAILER: nat := 5
  const NO_COMPRESSION := 0

  /** A block as the file holds it: contents, type, masked checksum of both. */
  function RawBlock(contents: Bytes): (r: Bytes)
    ensures |r| == |contents| + TRAILER
  {
    contents + [NO_COMPRESSION] + Fixed(C.Mask(C.Value(contents + [NO_COMPRESSION])), 4)
  }

  /** ReadBlock; None is any of its errors. Compressed blocks count as corrupt, there being no decompressor. */
  function ReadBlock(file: Bytes, h: Handle, verify: bool): Option<Bytes> {
    if h.offset + h.size + TRAILER > |file| then None
    else
      var data := file[h.offset..h.offset + h.size + TRAILER];
      var n := h.size;
      if verify && C.Value(data[..n + 1]) != C.Unmask(DecodeFixed32(data[n + 1..])) then None
      else if data[n] != NO_COMPRESSION then None
      else Some(data[..n])
  }

  ghost predicate HoldsRaw(file: Bytes, h: Handle, contents: Bytes) {
    && h.size == |contents| && h.offset + h.size + TRAILER <= |file|
    && file[h.offset..h.offset + h.size + TRAILER] == RawBlock(contents)
  }

  lemma ReadRaw(file: Bytes, h: Handle, contents: Bytes, verify: bool)
    requires HoldsRaw(file, h, contents)
    ensures ReadBlock(file, h, verify) == Some(contents)
  {
    hide C.Value, C.Mask, C.Unmask, Fixed, DecodeFixed32;
    var data, n := RawBlock(contents), |contents|;
    var crc := C.Value(contents + [NO_COMPRESSION]);
    assert data[..n + 1] == contents + [NO_COMPRESSION] && data[n + 1..] == Fixed(C.Mask(crc), 4) && data[..n] == contents;
    Fixed32Round(C.Mask(crc));
    C.UnmaskMask(crc);
  }

  /** On any file: with checksums on, a block is read if and only if it is there as the builder writes one; without,
      if and only if it lies in the file and is marked as uncompressed. */
  lemma ReadBlockIff(file: Bytes, h: Handle, contents: Bytes)
    ensures ReadBlock(file, h, true) == Some(contents) <==> HoldsRaw(file, h, contents)
    ensures ReadBlock(file, h, false) == Some(contents) <==>
      h.offset + h.size + TRAILER <= |file| && file[h.offset..h.offset + h.size] == contents && file[h.offset + h.size] == 0
  {
    hide C.Value, C.Mask, C.Unmask, Fixed, DecodeFixed32;
    if HoldsRaw(file, h, contents) { ReadRaw(file, h, contents, true); }
    if h.offset + h.size + TRAILER <= |file| {
      var data, n := file[h.offset..h.offset + h.size + TRAILER], h.size;
      assert data[..n] == file[h.offset..h.offset + n] && data[n] == file[h.offset + n];
      if ReadBlock(file, h, true) == Some(contents) {
        assert data[..n + 1] == contents + [NO_COMPRESSION];
        C.MaskUnmask(DecodeFixed32(data[n + 1..]));
        FixedBack(data[n + 1..]);
        assert DecodeFixed32(data[n + 1..]) == FixedValue(data[n + 1..]) by { Decoded32(data[n + 1..]); }
        assert data == data[..n + 1] + data[n + 1..];
      }
    }
  }

  lemma Decoded32(s: Bytes)
    requires |s| == 4
    ensures DecodeFixed32(s) == FixedValue(s)
  {
  }

  /** The eight bytes every table ends with; without them there is no footer. */
  lemma MagicBytes(meta: Handle, index: Handle, s: Bytes)
    requires |s| == FOOTER
    ensures FooterBytes(meta, index)[HANDLES..] == [0x57, 0xfb, 0x80, 0x8b, 0x24, 0x75, 0x47, 0xdb]
    ensures DecodeFooter(s).Some? ==> s[HANDLES..] == [0x57, 0xfb, 0x80, 0x8b, 0x24, 0x75, 0x47, 0xdb]
  {
    hide HandleBytes, TakeHandle;
    MagicHalves();
    if DecodeFooter(s).Some? {
      var lo, hi := s[HANDLES..HANDLES + 4], s[HANDLES + 4..];
      assert DecodeFixed32(lo) == MAGIC % TWO_32 && DecodeFixed32(hi) == MAGIC / TWO_32;
      FixedBack(lo);
      FixedBack(hi);
      assert s[HANDLES..] == lo + hi;
    }
  }

  lemma MagicHalves()
    ensures Fixed(MAGIC % TWO_32, 4) == [0x57, 0xfb, 0x80, 0x8b] && Fixed(MAGIC / TWO_32, 4) == [0x24, 0x75, 0x47, 0xdb]
  {
    var a, b := MAGIC % TWO_32, MAGIC / TWO_32;
    FourBytes(a);
    FourBytes(b);
  }

  lemma FourBytes(v: nat)
    ensures Fixed(v, 4) == [v % 256, v / 256 % 256, v / 256 / 256 % 256, v / 256 / 256 / 256 % 256]
  {
    var v1, v2, v3 := v / 256, v / 256 / 256, v / 256 / 256 / 256;
    assert Fixed(v3, 1) == [v3 % 256] + Fixed(v3 / 256, 0);
    assert Fixed(v2, 2) == [v2 % 256] + Fixed(v3, 1);
    assert Fixed(v1, 3) == [v1 % 256] + Fixed(v2, 2);
  }

  lemma RawKept(file: Bytes, more: Bytes, h: Handle, contents: Bytes)
    requires HoldsRaw(file, h, contents)
    ensures HoldsRaw(file + more, h, contents)
  {
    hide RawBlock;
    var a, b := h.offset, h.offset + h.size + TRAILER;
    assert (file + more)[a..b] == file[a..b];
  }

  lemma RawAppended(file: Bytes, contents: Bytes)
    ensures HoldsRaw(file + RawBlock(contents), Handle(|file|, |contents|), contents)
  {
    hide RawBlock;
    var r := RawBlock(contents);
    assert (file + r)[|file|..|file| + |contents| + TRAILER] == r;
  }
}
