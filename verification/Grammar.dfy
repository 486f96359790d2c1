/**
 What write batches, version edits and the entries of a block look like as byte strings,
 whoever wrote them: the decoders accept exactly the strings of these shapes.
 */
module Grammars {
  import opened Entries
  import opened Coding
  import W = WriteBatches
  import E = VersionEdits
  import B = BlockIters

  // -------------------------------------------------------------- numbers and slices

  /** A varint of at most n bytes: the high bit is set on all of them but the last. */
  predicate IsVarint(p: Bytes, n: nat) {
    1 <= |p| <= n && p[|p| - 1] < 128 && forall i | 0 <= i < |p| - 1 :: p[i] >= 128
  }

  predicate Spells32(p: Bytes, v: nat) {
    IsVarint(p, 5) && v == Digits(p) % TWO_32
  }

  predicate Spells64(p: Bytes, v: nat) {
    IsVarint(p, 10) && v == Digits(p) % TWO_64
  }

  /** A length and that many bytes. */
  ghost predicate SpellsSlice(p: Bytes, s: Bytes) {
    exists m :: 0 <= m <= |p| && Spells32(p[..m], |s|) && p[m..] == s
  }

  lemma GetVarintIff(s: Bytes, n: nat, v: nat, k: nat)
    ensures GetVarint(s, n) == Some((v, k)) <==> k <= |s| && IsVarint(s[..k], n) && v == Digits(s[..k])
  {
    GetVarintIs(s, n);
    match GetVarint(s, n)
    case None =>
      if 1 <= k <= |s| && k <= n { assert s[..k][k - 1] == s[k - 1] >= 128; }
    case Some(p) =>
      assert s[..p.1][p.1 - 1] == s[p.1 - 1];
      assert 0 < k <= |s| ==> s[..k][k - 1] == s[k - 1];
      assert p.1 < k <= |s| ==> s[..k][p.1 - 1] == s[p.1 - 1];
  }

  lemma Get32Iff(s: Bytes, v: nat, k: nat)
    ensures GetVarint32(s) == Some((v, k)) <==> k <= |s| && Spells32(s[..k], v)
  {
    hide GetVarint, Digits;
    if k <= |s| { GetVarintIff(s, 5, Digits(s[..k]), k); }
    if GetVarint(s, 5).Some? { GetVarintIff(s, 5, GetVarint(s, 5).value.0, GetVarint(s, 5).value.1); }
  }

  lemma Get64Iff(s: Bytes, v: nat, k: nat)
    ensures GetVarint64(s) == Some((v, k)) <==> k <= |s| && Spells64(s[..k], v)
  {
    hide GetVarint, Digits;
    if k <= |s| { GetVarintIff(s, 10, Digits(s[..k]), k); }
    if GetVarint(s, 10).Some? { GetVarintIff(s, 10, GetVarint(s, 10).value.0, GetVarint(s, 10).value.1); }
  }

  lemma Front(s: Bytes, m: nat, k: nat)
    requires m <= k <= |s|
    ensures s[..k][..m] == s[..m] && s[..k][m..] == s[m..k] == s[m..][..k - m]
  {
  }

  lemma GetSliceIff(s: Bytes, x: Bytes, k: nat)
    ensures GetPrefixed(s) == Some((x, k)) <==> k <= |s| && SpellsSlice(s[..k], x)
  {
    hide GetVarint32, Spells32;
    if GetPrefixed(s) == Some((x, k)) {
      var p := GetVarint32(s).value;
      Get32Iff(s, p.0, p.1);
      Front(s, p.1, k);
      assert Spells32(s[..k][..p.1], |x|);
    }
    if k <= |s| && SpellsSlice(s[..k], x) {
      var m :| 0 <= m <= k && Spells32(s[..k][..m], |x|) && s[..k][m..] == x;
      Front(s, m, k);
      Get32Iff(s, |x|, m);
    }
  }

  function Concat(ps: seq<Bytes>): Bytes {
    if ps == [] then [] else ps[0] + Concat(ps[1..])
  }

  // -------------------------------------------------------------- write batches

  /** A put: 1, key, value. A deletion: 0, key. */
  ghost predicate SpellsOp(p: Bytes, op: W.Op) {
    p != [] &&
    match op
    case PutOp(key, value) => p[0] == 1 && exists m :: 1 <= m <= |p| && SpellsSlice(p[1..m], key) && SpellsSlice(p[m..], value)
    case DeleteOp(key) => p[0] == 0 && SpellsSlice(p[1..], key)
  }

  lemma GetOpIff(s: Bytes, op: W.Op, k: nat)
    requires s != []
    ensures W.GetOp(s) == Some((op, k)) <==> k <= |s| && SpellsOp(s[..k], op)
  {
    hide GetPrefixed, SpellsSlice;
    var rest := s[1..];
    if W.GetOp(s) == Some((op, k)) {
      var a := GetPrefixed(rest).value;
      GetSliceIff(rest, a.0, a.1);
      assert s[..k][1..1 + a.1] == rest[..a.1];
      if op.PutOp? {
        var b := GetPrefixed(rest[a.1..]).value;
        GetSliceIff(rest[a.1..], b.0, b.1);
        assert s[..k][1 + a.1..] == rest[a.1..][..b.1];
      } else {
        assert s[..k][1..] == rest[..a.1];
      }
    }
    if k <= |s| && SpellsOp(s[..k], op) {
      match op
      case PutOp(key, value) =>
        var m :| 1 <= m <= k && SpellsSlice(s[..k][1..m], key) && SpellsSlice(s[..k][m..], value);
        assert s[..k][1..m] == rest[..m - 1] && s[..k][m..] == rest[m - 1..][..k - m];
        GetSliceIff(rest, key, m - 1);
        GetSliceIff(rest[m - 1..], value, k - m);
      case DeleteOp(key) =>
        assert s[..k][1..] == rest[..k - 1];
        GetSliceIff(rest, key, k - 1);
    }
  }

  ghost predicate SpellOps(ps: seq<Bytes>, ops: seq<W.Op>) {
    |ps| == |ops| && forall i | 0 <= i < |ops| :: SpellsOp(ps[i], ops[i])
  }

  lemma {:induction false} ScanSpelled(ps: seq<Bytes>, ops: seq<W.Op>)
    requires SpellOps(ps, ops)
    ensures W.Scan(Concat(ps)) == (ops, true)
  {
    hide W.GetOp, SpellsOp;
    if ps != [] {
      var s := Concat(ps);
      assert s[..|ps[0]|] == ps[0] && s[|ps[0]|..] == Concat(ps[1..]) && SpellsOp(ps[0], ops[0]);
      NotEmpty(ps[0], ops[0]);
      GetOpIff(s, ops[0], |ps[0]|);
      ScanSpelled(ps[1..], ops[1..]);
      assert [ops[0]] + ops[1..] == ops;
    }
  }

  lemma NotEmpty(p: Bytes, op: W.Op)
    requires SpellsOp(p, op)
    ensures p != []
  {
  }

  lemma {:induction false} SpelledBy(s: Bytes) returns (ps: seq<Bytes>)
    requires W.Scan(s).1
    ensures s == Concat(ps) && SpellOps(ps, W.Scan(s).0)
    decreases |s|
  {
    hide W.GetOp, SpellsOp;
    ps := [];
    if s != [] {
      var p := W.GetOp(s).value;
      GetOpIff(s, p.0, p.1);
      var rest := SpelledBy(s[p.1..]);
      ps := [s[..p.1]] + rest;
      assert ps[1..] == rest && s == s[..p.1] + s[p.1..];
    }
  }

  /** The string is a header and as many operations as it says. */
  ghost predicate BatchOf(rep: Bytes, ops: seq<W.Op>) {
    |rep| >= 12 && |ops| == DecodeFixed32(rep[8..12]) && exists ps :: SpellOps(ps, ops) && rep[12..] == Concat(ps)
  }

  /** A string iterates without an error if and only if it is a batch, and then as that batch's operations. */
  lemma IteratedIff(rep: Bytes, ops: seq<W.Op>)
    ensures W.Iterated(rep) == (ops, true) <==> BatchOf(rep, ops)
  {
    hide W.Scan, DecodeFixed32, SpellOps, Concat;
    if W.Iterated(rep) == (ops, true) {
      var ps := SpelledBy(rep[12..]);
    }
    if BatchOf(rep, ops) {
      var ps :| SpellOps(ps, ops) && rep[12..] == Concat(ps);
      ScanSpelled(ps, ops);
    }
  }

  // -------------------------------------------------------------- version edits

  /** One of the seven levels. */
  predicate SpellsLevel(p: Bytes, level: nat) {
    Spells32(p, level) && level < 7
  }

  /** Number and size of a file, then its smallest and its largest key. */
  ghost predicate SpellsFile(p: Bytes, f: E.Meta) {
    exists a, b, c :: 0 <= a <= b <= c <= |p| && Spells64(p[..a], f.number) && Spells64(p[a..b], f.size)
                      && SpellsSlice(p[b..c], f.smallest) && SpellsSlice(p[c..], f.largest)
  }

  /** The fields by their tags. */
  ghost predicate SpellsBody(p: Bytes, tag: nat, x: E.Field) {
    match x
    case Comparator(name) => tag == 1 && SpellsSlice(p, name)
    case LogNumber(n) => tag == 2 && Spells64(p, n)
    case NextFileNumber(n) => tag == 3 && Spells64(p, n)
    case LastSequence(n) => tag == 4 && Spells64(p, n)
    case CompactPointer(level, key) =>
      tag == 5 && exists m :: 0 <= m <= |p| && SpellsLevel(p[..m], level) && SpellsSlice(p[m..], key)
    case DeletedFile(level, n) =>
      tag == 6 && exists m :: 0 <= m <= |p| && SpellsLevel(p[..m], level) && Spells64(p[m..], n)
    case NewFile(level, f) =>
      tag == 7 && exists m :: 0 <= m <= |p| && SpellsLevel(p[..m], level) && SpellsFile(p[m..], f)
    case PrevLogNumber(n) => tag == 9 && Spells64(p, n)
  }

  ghost predicate SpellsField(p: Bytes, x: E.Field) {
    exists m, tag :: 0 <= m <= |p| && Spells32(p[..m], tag) && SpellsBody(p[m..], tag, x)
  }

  lemma GetLevelIff(s: Bytes, level: nat, k: nat)
    ensures E.GetLevel(s) == Some((level, k)) <==> k <= |s| && SpellsLevel(s[..k], level)
  {
    hide GetVarint32, Spells32;
    Get32Iff(s, level, k);
  }

  lemma GetFileIff(s: Bytes, f: E.Meta, k: nat)
    ensures E.GetMeta(s) == Some((f, k)) <==> k <= |s| && SpellsFile(s[..k], f)
  {
    hide E.GetMeta, SpellsFile;
    if E.GetMeta(s) == Some((f, k)) { FileSpelled(s, f, k); }
    if k <= |s| && SpellsFile(s[..k], f) { FileRead(s, f, k); }
  }

  lemma FileRead(s: Bytes, f: E.Meta, k: nat)
    requires k <= |s| && SpellsFile(s[..k], f)
    ensures E.GetMeta(s) == Some((f, k))
  {
    hide GetPrefixed, GetVarint64, SpellsSlice, Spells64;
    var p := s[..k];
    var a, b, c :| 0 <= a <= b <= c <= |p| && Spells64(p[..a], f.number) && Spells64(p[a..b], f.size)
                   && SpellsSlice(p[b..c], f.smallest) && SpellsSlice(p[c..], f.largest);
    var s1 := s[a..];
    var s2 := s1[b - a..];
    var s3 := s2[c - b..];
    assert p[..a] == s[..a] && p[a..b] == s1[..b - a] && p[b..c] == s2[..c - b] && p[c..] == s3[..k - c];
    Get64Iff(s, f.number, a);
    Get64Iff(s1, f.size, b - a);
    GetSliceIff(s2, f.smallest, c - b);
    GetSliceIff(s3, f.largest, k - c);
  }

  lemma FileSpelled(s: Bytes, f: E.Meta, k: nat)
    requires E.GetMeta(s) == Some((f, k))
    ensures k <= |s| && SpellsFile(s[..k], f)
  {
    hide GetPrefixed, GetVarint64, SpellsSlice, Spells64;
    var a := GetVarint64(s).value;
    var s1 := s[a.1..];
    var b := GetVarint64(s1).value;
    var s2 := s1[b.1..];
    var c := GetPrefixed(s2).value;
    var s3 := s2[c.1..];
    var d := GetPrefixed(s3).value;
    Get64Iff(s, a.0, a.1);
    Get64Iff(s1, b.0, b.1);
    GetSliceIff(s2, c.0, c.1);
    GetSliceIff(s3, d.0, d.1);
    var p, i, j, l := s[..k], a.1, a.1 + b.1, a.1 + b.1 + c.1;
    assert p[..i] == s[..a.1] && p[i..j] == s1[..b.1] && p[j..l] == s2[..c.1] && p[l..] == s3[..d.1];
  }

  lemma BodySpelled(s: Bytes, tag: nat, x: E.Field, k: nat)
    requires E.GetBody(tag, s) == Some((x, k))
    ensures k <= |s| && SpellsBody(s[..k], tag, x)
  {
    hide GetPrefixed, GetVarint64, E.GetLevel, E.GetMeta, SpellsSlice, Spells64, SpellsLevel, SpellsFile;
    match x
    case Comparator(name) => GetSliceIff(s, name, k);
    case LogNumber(n) => Get64Iff(s, n, k);
    case PrevLogNumber(n) => Get64Iff(s, n, k);
    case NextFileNumber(n) => Get64Iff(s, n, k);
    case LastSequence(n) => Get64Iff(s, n, k);
    case CompactPointer(level, key) =>
      var m := E.GetLevel(s).value.1;
      GetLevelIff(s, level, m);
      GetSliceIff(s[m..], key, k - m);
      Front(s, m, k);
    case DeletedFile(level, n) =>
      var m := E.GetLevel(s).value.1;
      GetLevelIff(s, level, m);
      Get64Iff(s[m..], n, k - m);
      Front(s, m, k);
    case NewFile(level, f) =>
      var m := E.GetLevel(s).value.1;
      GetLevelIff(s, level, m);
      GetFileIff(s[m..], f, k - m);
      Front(s, m, k);
  }

  lemma BodyRead(s: Bytes, tag: nat, x: E.Field, k: nat)
    requires k <= |s| && SpellsBody(s[..k], tag, x)
    ensures E.GetBody(tag, s) == Some((x, k))
  {
    hide GetPrefixed, GetVarint64, E.GetLevel, E.GetMeta, SpellsSlice, Spells64, SpellsLevel, SpellsFile;
    match x
    case Comparator(name) => GetSliceIff(s, name, k);
    case LogNumber(n) => Get64Iff(s, n, k);
    case PrevLogNumber(n) => Get64Iff(s, n, k);
    case NextFileNumber(n) => Get64Iff(s, n, k);
    case LastSequence(n) => Get64Iff(s, n, k);
    case CompactPointer(level, key) =>
      var m :| 0 <= m <= k && SpellsLevel(s[..k][..m], level) && SpellsSlice(s[..k][m..], key);
      Front(s, m, k);
      GetLevelIff(s, level, m);
      GetSliceIff(s[m..], key, k - m);
    case DeletedFile(level, n) =>
      var m :| 0 <= m <= k && SpellsLevel(s[..k][..m], level) && Spells64(s[..k][m..], n);
      Front(s, m, k);
      GetLevelIff(s, level, m);
      Get64Iff(s[m..], n, k - m);
    case NewFile(level, f) =>
      var m :| 0 <= m <= k && SpellsLevel(s[..k][..m], level) && SpellsFile(s[..k][m..], f);
      Front(s, m, k);
      GetLevelIff(s, level, m);
      GetFileIff(s[m..], f, k - m);
  }

  ghost predicate SpellFields(ps: seq<Bytes>, xs: seq<E.Field>) {
    |ps| == |xs| && forall i | 0 <= i < |xs| :: SpellsField(ps[i], xs[i])
  }

  /** One turn of the decoder's loop. */
  lemma FieldRead(p: Bytes, x: E.Field, rest: Bytes, e: E.Edit<E.Meta>)
    requires SpellsField(p, x)
    ensures p != [] && E.Decode(p + rest, e) == E.Decode(rest, E.Put(e, x))
  {
    hide GetVarint32, E.GetBody, E.Put, Spells32, SpellsBody;
    var s := p + rest;
    var m, tag :| 0 <= m <= |p| && Spells32(p[..m], tag) && SpellsBody(p[m..], tag, x);
    assert s[..m] == p[..m] && s[m..][..|p| - m] == p[m..] && s[|p|..] == rest;
    Get32Iff(s, tag, m);
    BodyRead(s[m..], tag, x, |p| - m);
  }

  lemma {:induction false} DecodeSpelled(ps: seq<Bytes>, xs: seq<E.Field>, e: E.Edit<E.Meta>)
    requires SpellFields(ps, xs)
    ensures E.Decode(Concat(ps), e) == Some(E.PutAll(e, xs))
    decreases |ps|
  {
    hide SpellsField, E.Put;
    if ps == [] {
      hide E.GetBody;
      E.NothingDecodes();
    } else {
      hide E.Decode;
      assert SpellsField(ps[0], xs[0]);
      FieldRead(ps[0], xs[0], Concat(ps[1..]), e);
      DecodeSpelled(ps[1..], xs[1..], E.Put(e, xs[0]));
    }
  }

  lemma {:induction false} DecodedFrom(s: Bytes, e: E.Edit<E.Meta>) returns (ps: seq<Bytes>, xs: seq<E.Field>)
    requires E.Decode(s, e).Some?
    ensures SpellFields(ps, xs) && s == Concat(ps) && E.Decode(s, e) == Some(E.PutAll(e, xs))
    decreases |s|
  {
    hide GetVarint32, E.GetBody, E.Put, Spells32, SpellsBody;
    ps, xs := [], [];
    if GetVarint32(s).Some? {
      var t := GetVarint32(s).value;
      var b := E.GetBody(t.0, s[t.1..]).value;
      var k := t.1 + b.1;
      Get32Iff(s, t.0, t.1);
      BodySpelled(s[t.1..], t.0, b.0, b.1);
      Front(s, t.1, k);
      assert Spells32(s[..k][..t.1], t.0) && SpellsBody(s[..k][t.1..], t.0, b.0);
      var ps', xs' := DecodedFrom(s[k..], E.Put(e, b.0));
      ps, xs := [s[..k]] + ps', [b.0] + xs';
      assert ps[1..] == ps' && xs[1..] == xs' && s == s[..k] + s[k..];
    }
  }

  /** A string decodes if and only if it is a run of fields, and then to the edit they make one after the other. */
  lemma DecodeIff(s: Bytes, e: E.Edit<E.Meta>, r: E.Edit<E.Meta>)
    ensures E.Decode(s, e) == Some(r) <==> exists ps, xs :: SpellFields(ps, xs) && s == Concat(ps) && r == E.PutAll(e, xs)
  {
    hide E.Decode, E.PutAll, SpellFields, Concat;
    if E.Decode(s, e) == Some(r) {
      var ps, xs := DecodedFrom(s, e);
    }
    if exists ps, xs :: SpellFields(ps, xs) && s == Concat(ps) && r == E.PutAll(e, xs) {
      var ps, xs :| SpellFields(ps, xs) && s == Concat(ps) && r == E.PutAll(e, xs);
      DecodeSpelled(ps, xs, e);
    }
  }

  // -------------------------------------------------------------- entries of a block

  /** Three lengths, in places a, b and c of them: of what the key shares with the one before it, of the rest of the key
      and of the value; then that rest and the value. */
  predicate SpellsEntry(p: Bytes, before: Bytes, key: Bytes, value: Bytes, shared: nat, a: nat, b: nat, c: nat) {
    && a <= b <= c <= |p| && shared <= |before| && shared <= |key| && before[..shared] == key[..shared]
    && Spells32(p[..a], shared) && Spells32(p[a..b], |key| - shared) && Spells32(p[b..c], |value|)
    && p[c..] == key[shared..] + value && |p| - c < TWO_32
  }

  lemma SlowIff(s: Bytes, h: B.Header, a: nat, b: nat)
    requires a <= b <= h.size <= |s|
    requires Spells32(s[..a], h.shared) && Spells32(s[a..b], h.nonShared) && Spells32(s[b..h.size], h.valueLength)
    ensures B.DecodeSlow(s) == Some(h) && 3 <= h.size
  {
    hide GetVarint32, Digits;
    var s1, s2 := s[a..], s[a..][b - a..];
    assert s1[..b - a] == s[a..b] && s2[..h.size - b] == s[b..h.size];
    Get32Iff(s, h.shared, a);
    Get32Iff(s1, h.nonShared, b - a);
    Get32Iff(s2, h.valueLength, h.size - b);
  }

  lemma SlowSpelled(s: Bytes) returns (a: nat, b: nat)
    requires B.DecodeSlow(s).Some?
    ensures
      var h := B.DecodeSlow(s).value;
      && a <= b <= h.size <= |s| && 3 <= h.size
      && Spells32(s[..a], h.shared) && Spells32(s[a..b], h.nonShared) && Spells32(s[b..h.size], h.valueLength)
  {
    hide GetVarint32, Spells32;
    var x := GetVarint32(s).value;
    var s1 := s[x.1..];
    var y := GetVarint32(s1).value;
    var s2 := s1[y.1..];
    var z := GetVarint32(s2).value;
    a, b := x.1, x.1 + y.1;
    Get32Iff(s, x.0, x.1);
    Get32Iff(s1, y.0, y.1);
    Get32Iff(s2, z.0, z.1);
    assert s[a..b] == s1[..y.1] && s[b..b + z.1] == s2[..z.1];
  }

  lemma FastOrSlow(s: Bytes)
    ensures
      var h := B.DecodeSlow(s);
      B.DecodeEntry(s) == if |s| >= 3 && h.Some? && |s| - h.value.size >= (h.value.nonShared + h.value.valueLength) % TWO_32 then h else None
  {
    hide B.DecodeSlow;
    if |s| >= 3 && s[0] < 128 && s[1] < 128 && s[2] < 128 { B.FastPath(s); }
  }

  lemma Middle(s: Bytes, n: nat, a: nat, b: nat, c: nat)
    requires a <= b <= c <= n <= |s|
    ensures s[..n][..a] == s[..a] && s[..n][a..b] == s[a..b] && s[..n][b..c] == s[b..c]
  {
  }

  /** ParseNextKey takes an entry from any bytes exactly if they begin with one of this shape. */
  lemma EntryTaken(data: Bytes, limit: nat, cur: nat, before: Bytes) returns (shared: nat, a: nat, b: nat, c: nat)
    requires limit <= |data| && B.Step(data, limit, cur, before).Got?
    ensures
      var g := B.Step(data, limit, cur, before);
      var end := g.start + g.length;
      cur < end <= limit && SpellsEntry(data[cur..end], before, g.key, data[g.start..end], shared, a, b, c)
  {
    hide B.DecodeSlow, B.DecodeEntry, Spells32;
    var s, g := data[cur..limit], B.Step(data, limit, cur, before);
    var h := B.DecodeEntry(s).value;
    FastOrSlow(s);
    B.DecodedFits(s);
    a, b := SlowSpelled(s);
    shared, c := h.shared, h.size;
    var end := g.start + g.length;
    var p := data[cur..end];
    assert h.size <= end - cur <= |s| && p == s[..end - cur];
    Middle(s, end - cur, a, b, h.size);
    var key := g.key;
    assert key[h.shared..] == data[cur + h.size..cur + h.size + h.nonShared] && key[..h.shared] == before[..h.shared];
    assert p[h.size..] == key[h.shared..] + data[g.start..end];
    assert end <= limit && SpellsEntry(p, before, key, data[g.start..end], shared, a, b, c);
  }

  lemma EntryGiven(data: Bytes, limit: nat, cur: nat, end: nat, before: Bytes, key: Bytes, value: Bytes, shared: nat, a: nat, b: nat, c: nat)
    requires cur <= end <= limit <= |data| && SpellsEntry(data[cur..end], before, key, value, shared, a, b, c)
    ensures B.Step(data, limit, cur, before) == B.Got(key, end - |value|, |value|) && data[end - |value|..end] == value
  {
    hide B.DecodeSlow, B.DecodeEntry, Spells32;
    var s, p := data[cur..limit], data[cur..end];
    assert p == s[..end - cur];
    Middle(s, end - cur, a, b, c);
    var h := B.Header(shared, |key| - shared, |value|, c);
    SlowIff(s, h, a, b);
    FastOrSlow(s);
    var rest := key[shared..] + value;
    assert data[cur + c..end] == p[c..] == rest && |rest| == h.nonShared + h.valueLength;
    assert data[cur + c..cur + c + h.nonShared] == rest[..h.nonShared] == key[shared..];
    assert key == before[..shared] + key[shared..];
    assert data[end - |value|..end] == rest[h.nonShared..] == value;
  }
}
