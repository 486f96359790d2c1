/**
 A version edit and its encoding: a run of tagged fields, in any order and number as far
 as the decoder is concerned. `F` is what a new file is described by.
 */
module VersionEdits {
  import opened Entries
  import opened Coding
  import opened Versions

  datatype Edit<F> = Edit(
    comparator: Option<Bytes>,
    logNumber: Option<nat>,
    prevLogNumber: Option<nat>,
    nextFileNumber: Option<nat>,
    lastSequence: Option<nat>,
    compactPointers: seq<(nat, Bytes)>,
    deleted: seq<(nat, nat)>, // the set's elements, ascending
    added: seq<(nat, F)>)

  /** What the manifest stores of a file: its bounds are encoded internal keys. */
  datatype Meta = Meta(number: nat, size: nat, smallest: Bytes, largest: Bytes)

  function Fresh<F>(): Edit<F> {
    Edit(None, None, None, None, None, [], [], [])
  }

  // -------------------------------------------------------------- the set of deleted files

  predicate PairLess(a: (nat, nat), b: (nat, nat)) {
    a.0 < b.0 || (a.0 == b.0 && a.1 < b.1)
  }

  predicate Ascending(s: seq<(nat, nat)>) {
    forall i, j {:trigger PairLess(s[i], s[j])} | 0 <= i < j < |s| :: PairLess(s[i], s[j])
  }

  function Insert(p: (nat, nat), s: seq<(nat, nat)>): seq<(nat, nat)> {
    if s == [] then [p]
    else if PairLess(p, s[0]) then [p] + s
    else if p == s[0] then s
    else [s[0]] + Insert(p, s[1..])
  }

  lemma {:induction false} InsertLast(p: (nat, nat), s: seq<(nat, nat)>)
    requires forall i | 0 <= i < |s| :: PairLess(s[i], p)
    ensures Insert(p, s) == s + [p]
  {
    if s != [] {
      InsertLast(p, s[1..]);
      assert PairLess(s[0], p);
      assert [s[0]] + (s[1..] + [p]) == s + [p];
    }
  }

  // -------------------------------------------------------------- fields

  datatype Field =
    | Comparator(name: Bytes)
    | LogNumber(n: nat)
    | PrevLogNumber(n: nat)
    | NextFileNumber(n: nat)
    | LastSequence(n: nat)
    | CompactPointer(level: nat, key: Bytes)
    | DeletedFile(level: nat, n: nat)
    | NewFile(level: nat, file: Meta)

  predicate FieldOk(x: Field) {
    match x
    case Comparator(name) => |name| < TWO_32
    case CompactPointer(level, key) => level < NUM_LEVELS && |key| < TWO_32
    case DeletedFile(level, n) => level < NUM_LEVELS && n < TWO_64
    case NewFile(level, f) =>
      && level < NUM_LEVELS && f.number < TWO_64 && f.size < TWO_64
      && |f.smallest| < TWO_32 && |f.largest| < TWO_32
    case _ => x.n < TWO_64
  }

  function Tag(x: Field): (t: nat)
    ensures t < 128
  {
    match x
    case Comparator(_) => 1
    case LogNumber(_) => 2
    case NextFileNumber(_) => 3
    case LastSequence(_) => 4
    case CompactPointer(_, _) => 5
    case DeletedFile(_, _) => 6
    case NewFile(_, _) => 7
    case PrevLogNumber(_) => 9
  }

  function Body(x: Field): Bytes {
    match x
    case Comparator(name) => Prefixed(name)
    case CompactPointer(level, key) => Varint(level) + Prefixed(key)
    case DeletedFile(level, n) => Varint(level) + Varint(n)
    case NewFile(level, f) =>
      Varint(level) + (Varint(f.number) + (Varint(f.size) + (Prefixed(f.smallest) + Prefixed(f.largest))))
    case _ => Varint(x.n)
  }

  function Encode(xs: seq<Field>): Bytes {
    if xs == [] then [] else Varint(Tag(xs[0])) + Body(xs[0]) + Encode(xs[1..])
  }

  function Put(e: Edit<Meta>, x: Field): Edit<Meta> {
    match x
    case Comparator(name) => e.(comparator := Some(name))
    case LogNumber(n) => e.(logNumber := Some(n))
    case PrevLogNumber(n) => e.(prevLogNumber := Some(n))
    case NextFileNumber(n) => e.(nextFileNumber := Some(n))
    case LastSequence(n) => e.(lastSequence := Some(n))
    case CompactPointer(level, key) => e.(compactPointers := e.compactPointers + [(level, key)])
    case DeletedFile(level, n) => e.(deleted := Insert((level, n), e.deleted))
    case NewFile(level, f) => e.(added := e.added + [(level, f)])
  }

  function PutAll(e: Edit<Meta>, xs: seq<Field>): Edit<Meta>
    decreases |xs|
  {
    if xs == [] then e else PutAll(Put(e, xs[0]), xs[1..])
  }

  // -------------------------------------------------------------- decoding

  function GetLevel(s: Bytes): (r: Option<(nat, nat)>)
    ensures r.Some? ==> r.value.0 < NUM_LEVELS && r.value.1 <= |s|
  {
    match GetVarint32(s)
    case Some(p) => if p.0 < NUM_LEVELS then Some((p.0, p.1)) else None
    case None => None
  }

  /** The field behind tag `tag` and the bytes it takes; None is one of the error messages. */
  function GetBody(tag: nat, s: Bytes): (r: Option<(Field, nat)>)
    ensures r.Some? ==> r.value.1 <= |s|
  {
    match tag
    case 1 => (match GetPrefixed(s) case Some(p) => Some((Comparator(p.0), p.1)) case None => None)
    case 2 => (match GetVarint64(s) case Some(p) => Some((LogNumber(p.0), p.1)) case None => None)
    case 3 => (match GetVarint64(s) case Some(p) => Some((NextFileNumber(p.0), p.1)) case None => None)
    case 4 => (match GetVarint64(s) case Some(p) => Some((LastSequence(p.0), p.1)) case None => None)
    case 9 => (match GetVarint64(s) case Some(p) => Some((PrevLogNumber(p.0), p.1)) case None => None)
    case 5 => (match GetLevel(s)
               case None => None
               case Some(l) =>
                 match GetPrefixed(s[l.1..])
                 case Some(k) => Some((CompactPointer(l.0, k.0), l.1 + k.1))
                 case None => None)
    case 6 => (match GetLevel(s)
               case None => None
               case Some(l) =>
                 match GetVarint64(s[l.1..])
                 case Some(n) => Some((DeletedFile(l.0, n.0), l.1 + n.1))
                 case None => None)
    case 7 => (match GetLevel(s)
               case None => None
               case Some(l) =>
                 match GetMeta(s[l.1..])
                 case Some(m) => Some((NewFile(l.0, m.0), l.1 + m.1))
                 case None => None)
    case _ => None
  }

  function GetMeta(s: Bytes): (r: Option<(Meta, nat)>)
    ensures r.Some? ==> r.value.1 <= |s|
  {
    match GetVarint64(s)
    case None => None
    case Some(n) =>
      var s1 := s[n.1..];
      match GetVarint64(s1)
      case None => None
      case Some(z) =>
        var s2 := s1[z.1..];
        match GetPrefixed(s2)
        case None => None
        case Some(a) =>
          match GetPrefixed(s2[a.1..])
          case None => None
          case Some(b) => Some((Meta(n.0, z.0, a.0, b.0), n.1 + z.1 + a.1 + b.1))
  }

  /** DecodeFrom's loop from input `s` on, with `e` filled in so far. */
  function Decode(s: Bytes, e: Edit<Meta>): Option<Edit<Meta>>
    decreases |s|
  {
    match GetVarint32(s)
    case None => if s == [] then Some(e) else None
    case Some(t) =>
      match GetBody(t.0, s[t.1..])
      case None => None
      case Some(b) => Decode(s[t.1 + b.1..], Put(e, b.0))
  }

  method DecodeFrom(src: Bytes) returns (r: Option<Edit<Meta>>)
    ensures r == Decode(src, Fresh())
  {
    hide Put;
    var e: Edit<Meta> := Fresh();
    var input := src;
    while true
      invariant Decode(input, e) == Decode(src, Fresh())
      decreases |input|
    {
      var tag := GetVarint32(input);
      if tag.None? {
        return if input == [] then Some(e) else None;
      }
      var body := GetBody(tag.value.0, input[tag.value.1..]);
      if body.None? {
        return None;
      }
      e := Put(e, body.value.0);
      input := input[tag.value.1 + body.value.1..];
    }
  }

  // -------------------------------------------------------------- round trip

  lemma LevelRound(level: nat, rest: Bytes)
    requires level < NUM_LEVELS
    ensures GetLevel(Varint(level) + rest) == Some((level, |Varint(level)|))
  {
    Varint32Round(level, rest);
  }

  lemma MetaRound(f: Meta, rest: Bytes)
    requires FieldOk(NewFile(0, f))
    ensures
      var m := Varint(f.number) + (Varint(f.size) + (Prefixed(f.smallest) + Prefixed(f.largest)));
      GetMeta(m + rest) == Some((f, |m|))
  {
    hide GetPrefixed, GetVarint64, Varint, Prefixed;
    var n, z, a, b := Varint(f.number), Varint(f.size), Prefixed(f.smallest), Prefixed(f.largest);
    var s3 := b + rest;
    var s2 := a + s3;
    var s1 := z + s2;
    var s := n + (z + (a + b)) + rest;
    assert s == n + s1;
    Varint64Round(f.number, s1);
    Skip(n, s1);
    Varint64Round(f.size, s2);
    Skip(z, s2);
    PrefixedRound(f.smallest, s3);
    Skip(a, s3);
    PrefixedRound(f.largest, rest);
  }

  lemma BodyRound(x: Field, rest: Bytes)
    requires FieldOk(x)
    ensures GetBody(Tag(x), Body(x) + rest) == Some((x, |Body(x)|))
  {
    hide GetPrefixed, GetVarint64, GetVarint32, GetLevel, GetMeta, Varint, Prefixed;
    match x
    case Comparator(name) => PrefixedRound(name, rest);
    case CompactPointer(level, key) =>
      assert Body(x) + rest == Varint(level) + (Prefixed(key) + rest);
      LevelRound(level, Prefixed(key) + rest);
      Skip(Varint(level), Prefixed(key) + rest);
      PrefixedRound(key, rest);
    case DeletedFile(level, n) =>
      assert Body(x) + rest == Varint(level) + (Varint(n) + rest);
      LevelRound(level, Varint(n) + rest);
      Skip(Varint(level), Varint(n) + rest);
      Varint64Round(n, rest);
    case NewFile(level, f) =>
      var m := Varint(f.number) + (Varint(f.size) + (Prefixed(f.smallest) + Prefixed(f.largest)));
      assert Body(x) + rest == Varint(level) + (m + rest);
      LevelRound(level, m + rest);
      Skip(Varint(level), m + rest);
      MetaRound(f, rest);
    case _ => Varint64Round(x.n, rest);
  }

  /** Decoding any run of encoded fields puts them one after another. */
  lemma {:induction false} DecodeEncode(xs: seq<Field>, e: Edit<Meta>)
    requires forall x | x in xs :: FieldOk(x)
    ensures Decode(Encode(xs), e) == Some(PutAll(e, xs))
    decreases |xs|
  {
    hide GetBody, Body, Put, GetVarint32, Varint;
    var s := Encode(xs);
    if xs != [] {
      var t, b, rest := Varint(Tag(xs[0])), Body(xs[0]), Encode(xs[1..]);
      assert s == t + (b + rest);
      Varint32Round(Tag(xs[0]), b + rest);
      Skip(t, b + rest);
      assert xs[0] in xs;
      BodyRound(xs[0], rest);
      Skip(b, rest);
      assert s[|t| + |b|..] == s[|t|..][|b|..];
      DecodeEncode(xs[1..], Put(e, xs[0]));
    } else {
      NothingDecodes();
    }
  }

  lemma NothingDecodes()
    ensures GetVarint32([]) == None
  {
  }

  // -------------------------------------------------------------- whole edits

  predicate EditOk(e: Edit<Meta>) {
    && (forall x | x in Scalars(e) :: FieldOk(x))
    && (forall p | p in e.compactPointers :: FieldOk(CompactPointer(p.0, p.1)))
    && (forall p | p in e.deleted :: FieldOk(DeletedFile(p.0, p.1)))
    && (forall p | p in e.added :: FieldOk(NewFile(p.0, p.1)))
    && Ascending(e.deleted)
  }

  function ComparatorOf(e: Edit<Meta>): seq<Field> {
    match e.comparator case Some(n) => [Comparator(n)] case None => []
  }

  function LogsOf(e: Edit<Meta>): seq<Field> {
    (match e.logNumber case Some(n) => [LogNumber(n)] case None => [])
    + (match e.prevLogNumber case Some(n) => [PrevLogNumber(n)] case None => [])
  }

  function CountersOf(e: Edit<Meta>): seq<Field> {
    (match e.nextFileNumber case Some(n) => [NextFileNumber(n)] case None => [])
    + (match e.lastSequence case Some(n) => [LastSequence(n)] case None => [])
  }

  function Scalars(e: Edit<Meta>): seq<Field> {
    ComparatorOf(e) + LogsOf(e) + CountersOf(e)
  }

  function Pointers(ps: seq<(nat, Bytes)>): (r: seq<Field>)
    ensures |r| == |ps| && forall i | 0 <= i < |ps| :: r[i] == CompactPointer(ps[i].0, ps[i].1)
  {
    seq(|ps|, i requires 0 <= i < |ps| => CompactPointer(ps[i].0, ps[i].1))
  }

  function Deletions(ps: seq<(nat, nat)>): (r: seq<Field>)
    ensures |r| == |ps| && forall i | 0 <= i < |ps| :: r[i] == DeletedFile(ps[i].0, ps[i].1)
  {
    seq(|ps|, i requires 0 <= i < |ps| => DeletedFile(ps[i].0, ps[i].1))
  }

  function Additions(ps: seq<(nat, Meta)>): (r: seq<Field>)
    ensures |r| == |ps| && forall i | 0 <= i < |ps| :: r[i] == NewFile(ps[i].0, ps[i].1)
  {
    seq(|ps|, i requires 0 <= i < |ps| => NewFile(ps[i].0, ps[i].1))
  }

  /** The fields in the order EncodeTo writes them. */
  function Fields(e: Edit<Meta>): seq<Field> {
    Scalars(e) + (Pointers(e.compactPointers) + (Deletions(e.deleted) + Additions(e.added)))
  }

  function Place(x: Field): nat {
    match x
    case Comparator(_) => 0
    case LogNumber(_) => 1
    case PrevLogNumber(_) => 2
    case NextFileNumber(_) => 3
    case LastSequence(_) => 4
    case CompactPointer(_, _) => 5
    case DeletedFile(_, _) => 6
    case NewFile(_, _) => 7
  }

  /** The scalars come first, in this order, then pointers, deletions and additions. */
  lemma FieldsInOrder(e: Edit<Meta>)
    ensures forall i, j | 0 <= i < j < |Fields(e)| :: Place(Fields(e)[i]) <= Place(Fields(e)[j])
  {
    hide Scalars, Pointers, Deletions, Additions;
    var a, b, c, d := Scalars(e), Pointers(e.compactPointers), Deletions(e.deleted), Additions(e.added);
    ScalarsInOrder(e);
    KindsAre(e);
    Joined(c, d, 6, 7);
    Joined(b, c + d, 5, 6);
    Joined(a, b + (c + d), 4, 5);
  }

  ghost predicate InOrder(xs: seq<Field>) {
    forall i, j | 0 <= i < j < |xs| :: Place(xs[i]) <= Place(xs[j])
  }

  lemma Joined(xs: seq<Field>, ys: seq<Field>, p: nat, q: nat)
    requires InOrder(xs) && InOrder(ys) && p <= q
    requires (forall x | x in xs :: Place(x) <= p) && (forall y | y in ys :: Place(y) >= q)
    ensures InOrder(xs + ys) && forall z | z in xs + ys :: z in xs || z in ys
  {
    hide Place;
  }

  lemma ScalarsInOrder(e: Edit<Meta>)
    ensures InOrder(Scalars(e)) && forall x | x in Scalars(e) :: Place(x) <= 4
  {
    var a, b, c := ComparatorOf(e), LogsOf(e), CountersOf(e);
    assert InOrder(a) && InOrder(b) && InOrder(c);
    Joined(a, b, 0, 1);
    Joined(a + b, c, 2, 3);
  }

  lemma KindsAre(e: Edit<Meta>)
    ensures forall x | x in Pointers(e.compactPointers) :: Place(x) == 5
    ensures forall x | x in Deletions(e.deleted) :: Place(x) == 6
    ensures forall x | x in Additions(e.added) :: Place(x) == 7
  {
  }

  lemma {:induction false} PutAppend(e: Edit<Meta>, xs: seq<Field>, ys: seq<Field>)
    ensures PutAll(e, xs + ys) == PutAll(PutAll(e, xs), ys)
    decreases |xs|
  {
    hide Put;
    if xs == [] {
      assert xs + ys == ys;
    } else {
      assert (xs + ys)[1..] == xs[1..] + ys;
      PutAppend(Put(e, xs[0]), xs[1..], ys);
    }
  }

  lemma {:induction false} EncodeAppend(xs: seq<Field>, ys: seq<Field>)
    ensures Encode(xs + ys) == Encode(xs) + Encode(ys)
    decreases |xs|
  {
    hide Body, Tag;
    if xs == [] {
      assert xs + ys == ys;
    } else {
      assert (xs + ys)[1..] == xs[1..] + ys;
      EncodeAppend(xs[1..], ys);
      assert Encode(xs + ys) == Varint(Tag(xs[0])) + Body(xs[0]) + (Encode(xs[1..]) + Encode(ys));
    }
  }

  lemma {:induction false} PutPointers(e: Edit<Meta>, ps: seq<(nat, Bytes)>)
    ensures PutAll(e, Pointers(ps)) == e.(compactPointers := e.compactPointers + ps)
    decreases |ps|
  {
    if ps == [] {
      assert e.compactPointers + ps == e.compactPointers;
    } else {
      assert Pointers(ps)[1..] == Pointers(ps[1..]);
      PutPointers(Put(e, Pointers(ps)[0]), ps[1..]);
      assert e.compactPointers + [ps[0]] + ps[1..] == e.compactPointers + ps;
    }
  }

  lemma {:induction false} PutDeletions(e: Edit<Meta>, ps: seq<(nat, nat)>)
    requires Ascending(e.deleted + ps)
    ensures PutAll(e, Deletions(ps)) == e.(deleted := e.deleted + ps)
    decreases |ps|
  {
    var all := e.deleted + ps;
    if ps == [] {
      assert all == e.deleted;
    } else {
      assert Deletions(ps)[1..] == Deletions(ps[1..]);
      forall i | 0 <= i < |e.deleted| ensures PairLess(e.deleted[i], ps[0]) {
        assert PairLess(all[i], all[|e.deleted|]);
      }
      InsertLast(ps[0], e.deleted);
      assert e.deleted + [ps[0]] + ps[1..] == all;
      PutDeletions(Put(e, Deletions(ps)[0]), ps[1..]);
    }
  }

  lemma {:induction false} PutAdditions(e: Edit<Meta>, ps: seq<(nat, Meta)>)
    ensures PutAll(e, Additions(ps)) == e.(added := e.added + ps)
    decreases |ps|
  {
    if ps == [] {
      assert e.added + ps == e.added;
    } else {
      assert Additions(ps)[1..] == Additions(ps[1..]);
      PutAdditions(Put(e, Additions(ps)[0]), ps[1..]);
      assert e.added + [ps[0]] + ps[1..] == e.added + ps;
    }
  }

  lemma PutOne(e: Edit<Meta>, x: Field)
    ensures PutAll(e, [x]) == Put(e, x) && PutAll(e, []) == e
  {
    assert [x][1..] == [];
  }

  lemma PutTwo(e: Edit<Meta>, x: Field, y: Field)
    ensures PutAll(e, [x]) == Put(e, x) && PutAll(e, []) == e
    ensures PutAll(e, [x] + [y]) == Put(Put(e, x), y)
  {
    hide Put;
    PutAppend(e, [x], [y]);
    PutOne(e, x);
    PutOne(Put(e, x), y);
  }

  lemma PutScalars(e: Edit<Meta>)
    ensures PutAll(Fresh(), Scalars(e)) == e.(compactPointers := [], deleted := [], added := [])
  {
    hide PutAll;
    var e0: Edit<Meta> := Fresh();
    var e1 := e0.(comparator := e.comparator);
    PutAppend(e0, ComparatorOf(e) + LogsOf(e), CountersOf(e));
    PutAppend(e0, ComparatorOf(e), LogsOf(e));
    PutOne(e0, Comparator(if e.comparator.Some? then e.comparator.value else []));
    PutLogs(e1, e);
    PutCounters(e1.(logNumber := e.logNumber, prevLogNumber := e.prevLogNumber), e);
  }

  function Default(o: Option<nat>): nat {
    if o.Some? then o.value else 0
  }

  lemma PutLogs(e0: Edit<Meta>, e: Edit<Meta>)
    requires e0.logNumber == e0.prevLogNumber == None
    ensures PutAll(e0, LogsOf(e)) == e0.(logNumber := e.logNumber, prevLogNumber := e.prevLogNumber)
  {
    hide PutAll;
    var x, y := LogNumber(Default(e.logNumber)), PrevLogNumber(Default(e.prevLogNumber));
    PutTwo(e0, x, y);
    PutOne(e0, y);
    var nothing: seq<Field> := [];
    assert [x] + nothing == [x] && nothing + [y] == [y] && nothing + nothing == nothing;
  }

  lemma PutCounters(e0: Edit<Meta>, e: Edit<Meta>)
    requires e0.nextFileNumber == e0.lastSequence == None
    ensures PutAll(e0, CountersOf(e)) == e0.(nextFileNumber := e.nextFileNumber, lastSequence := e.lastSequence)
  {
    hide PutAll;
    var x, y := NextFileNumber(Default(e.nextFileNumber)), LastSequence(Default(e.lastSequence));
    PutTwo(e0, x, y);
    PutOne(e0, y);
    var nothing: seq<Field> := [];
    assert [x] + nothing == [x] && nothing + [y] == [y] && nothing + nothing == nothing;
  }

  lemma PutFields(e: Edit<Meta>)
    requires Ascending(e.deleted)
    ensures PutAll(Fresh(), Fields(e)) == e
  {
    hide PutAll, Put, Scalars, Pointers, Deletions, Additions, Ascending;
    var ps, ds, fs := Pointers(e.compactPointers), Deletions(e.deleted), Additions(e.added);
    var none: seq<(nat, nat)>, noPointers: seq<(nat, Bytes)>, noFiles: seq<(nat, Meta)> := [], [], [];
    PutAppend(Fresh(), Scalars(e), ps + (ds + fs));
    PutScalars(e);
    var e1 := e.(compactPointers := [], deleted := [], added := []);
    PutAppend(e1, ps, ds + fs);
    PutPointers(e1, e.compactPointers);
    assert noPointers + e.compactPointers == e.compactPointers;
    var e2 := e.(deleted := [], added := []);
    PutAppend(e2, ds, fs);
    assert none + e.deleted == e.deleted;
    PutDeletions(e2, e.deleted);
    assert noFiles + e.added == e.added;
    PutAdditions(e.(added := []), e.added);
  }

  /** Encoding an edit and decoding it into a fresh one is the identity. */
  lemma EditRoundTrip(e: Edit<Meta>)
    requires EditOk(e)
    ensures Decode(Encode(Fields(e)), Fresh()) == Some(e)
  {
    hide Encode, Decode, PutAll, Scalars;
    forall x | x in Fields(e) ensures FieldOk(x) {
      FieldsOk(e, x);
    }
    DecodeEncode(Fields(e), Fresh());
    PutFields(e);
  }

  lemma FieldsOk(e: Edit<Meta>, x: Field)
    requires EditOk(e) && x in Fields(e)
    ensures FieldOk(x)
  {
    hide FieldOk, Scalars;
    if x in Pointers(e.compactPointers) {
      var i :| 0 <= i < |e.compactPointers| && x == Pointers(e.compactPointers)[i];
      assert e.compactPointers[i] in e.compactPointers;
    } else if x in Deletions(e.deleted) {
      var i :| 0 <= i < |e.deleted| && x == Deletions(e.deleted)[i];
      assert e.deleted[i] in e.deleted;
    } else if x in Additions(e.added) {
      var i :| 0 <= i < |e.added| && x == Additions(e.added)[i];
      assert e.added[i] in e.added;
    }
  }

  lemma EncodeSnoc(xs: seq<Field>, x: Field)
    ensures Encode(xs + [x]) == Encode(xs) + Varint(Tag(x)) + Body(x)
  {
    hide Body, Tag;
    EncodeAppend(xs, [x]);
    assert [x][1..] == [];
    assert Encode(xs) + (Varint(Tag(x)) + Body(x) + []) == Encode(xs) + Varint(Tag(x)) + Body(x);
  }

  method EncodeTo(e: Edit<Meta>) returns (dst: Bytes)
    ensures dst == Encode(Fields(e))
  {
    hide Encode, Scalars, Varint, Prefixed;
    ghost var xs;
    dst := EncodeScalars(e);
    xs := Scalars(e);
    for i := 0 to |e.compactPointers|
      invariant dst == Encode(xs)
      invariant xs == Scalars(e) + Pointers(e.compactPointers)[..i]
    {
      var p := e.compactPointers[i];
      EncodeSnoc(xs, CompactPointer(p.0, p.1));
      xs := xs + [CompactPointer(p.0, p.1)];
      dst := dst + Varint(5) + (Varint(p.0) + Prefixed(p.1));
    }
    ghost var ps := Pointers(e.compactPointers);
    for i := 0 to |e.deleted|
      invariant dst == Encode(xs)
      invariant xs == Scalars(e) + ps + Deletions(e.deleted)[..i]
    {
      var p := e.deleted[i];
      EncodeSnoc(xs, DeletedFile(p.0, p.1));
      xs := xs + [DeletedFile(p.0, p.1)];
      dst := dst + Varint(6) + (Varint(p.0) + Varint(p.1));
    }
    ghost var ds := Deletions(e.deleted);
    for i := 0 to |e.added|
      invariant dst == Encode(xs)
      invariant xs == Scalars(e) + ps + ds + Additions(e.added)[..i]
    {
      var (level, f) := e.added[i];
      EncodeSnoc(xs, NewFile(level, f));
      xs := xs + [NewFile(level, f)];
      dst := dst + Varint(7)
        + (Varint(level) + (Varint(f.number) + (Varint(f.size) + (Prefixed(f.smallest) + Prefixed(f.largest)))));
    }
    assert xs == Fields(e);
  }

  method EncodeScalars(e: Edit<Meta>) returns (dst: Bytes)
    ensures dst == Encode(Scalars(e))
  {
    hide Encode, Varint, Prefixed;
    NothingEncodes();
    dst := [];
    ghost var xs: seq<Field> := [];
    if e.comparator.Some? {
      EncodeSnoc(xs, Comparator(e.comparator.value));
      xs := xs + [Comparator(e.comparator.value)];
      dst := dst + Varint(1) + Prefixed(e.comparator.value);
    }
    if e.logNumber.Some? {
      EncodeSnoc(xs, LogNumber(e.logNumber.value));
      xs := xs + [LogNumber(e.logNumber.value)];
      dst := dst + Varint(2) + Varint(e.logNumber.value);
    }
    ghost var logs := xs[|ComparatorOf(e)|..];
    assert xs == ComparatorOf(e) + logs;
    if e.prevLogNumber.Some? {
      EncodeSnoc(xs, PrevLogNumber(e.prevLogNumber.value));
      xs := xs + [PrevLogNumber(e.prevLogNumber.value)];
      dst := dst + Varint(9) + Varint(e.prevLogNumber.value);
    }
    assert xs == ComparatorOf(e) + LogsOf(e);
    if e.nextFileNumber.Some? {
      EncodeSnoc(xs, NextFileNumber(e.nextFileNumber.value));
      xs := xs + [NextFileNumber(e.nextFileNumber.value)];
      dst := dst + Varint(3) + Varint(e.nextFileNumber.value);
    }
    if e.lastSequence.Some? {
      EncodeSnoc(xs, LastSequence(e.lastSequence.value));
      xs := xs + [LastSequence(e.lastSequence.value)];
      dst := dst + Varint(4) + Varint(e.lastSequence.value);
    }
    assert xs == Scalars(e);
  }

  lemma NothingEncodes()
    ensures Encode([]) == []
  {
  }
}
