/**
 The enclave's merge compares raw bytes, and the tag at the end of an internal key is
 stored low byte first. When its output is in the order of internal keys, exactly.
 */
module EnclaveOrder {
  import opened Entries
  import opened Coding
  import opened Comparators
  import opened EnclaveMerge
  import opened Versions
  import opened Compactions

  ghost predicate InOrder(es: seq<KV>) {
    forall i, j {:trigger InternalLess(es[i].key, es[j].key)} | 0 <= i < j < |es| :: InternalLess(es[i].key, es[j].key)
  }

  predicate At(rests: seq<seq<KV>>, c: nat, i: nat) {
    c < |rests| && i < |rests[c]|
  }

  function KeyOf(rests: seq<seq<KV>>, c: nat, i: nat): Bytes {
    if At(rests, c, i) then rests[c][i].key else []
  }

  /** Every input is in internal order, and no internal key is in two of them. */
  ghost predicate InputsOk(rests: seq<seq<KV>>) {
    && (forall c | 0 <= c < |rests| :: InOrder(rests[c]))
    && (forall c: nat, i: nat, d: nat, j: nat | c != d && At(rests, c, i) && At(rests, d, j) :: KeyOf(rests, c, i) != KeyOf(rests, d, j))
  }

  /** Entry j is the first of input d that comes behind entry i of another input c. */
  ghost predicate NextIn(rests: seq<seq<KV>>, c: nat, i: nat, d: nat, j: nat) {
    && c != d && At(rests, c, i) && At(rests, d, j) && InternalLess(KeyOf(rests, c, i), KeyOf(rests, d, j))
    && (j > 0 ==> !InternalLess(KeyOf(rests, c, i), KeyOf(rests, d, j - 1)))
  }

  /** Each entry's bytes sort before those of the next entry in any other input. */
  ghost predicate Agreeing(rests: seq<seq<KV>>) {
    forall c: nat, i: nat, d: nat, j: nat | NextIn(rests, c, i, d, j) :: BytesLess(KeyOf(rests, c, i), KeyOf(rests, d, j))
  }

  /** The head of input b comes before everything else. */
  ghost predicate HeadIsFirst(rests: seq<seq<KV>>, b: nat) {
    At(rests, b, 0) && forall c: nat, i: nat | At(rests, c, i) && !(c == b && i == 0) :: InternalLess(KeyOf(rests, b, 0), KeyOf(rests, c, i))
  }

  // ------------------------------------------------------ the head is not the first

  lemma HeadBeforeAll(es: seq<KV>, i: nat)
    requires InOrder(es) && i < |es|
    ensures i == 0 || InternalLess(es[0].key, es[i].key)
  {
  }

  /** An entry that should have come out first shows a disagreement. */
  lemma OvertakenHead(rests: seq<seq<KV>>, b: nat, c: nat, i: nat)
    requires InputsOk(rests) && b == Least(rests, |rests|) && At(rests, b, 0) && At(rests, c, i) && !(c == b && i == 0)
    requires !InternalLess(KeyOf(rests, b, 0), KeyOf(rests, c, i))
    ensures c != b && NextIn(rests, c, 0, b, 0) && !BytesLess(KeyOf(rests, c, 0), KeyOf(rests, b, 0))
  {
    hide InternalLess, BytesLess;
    HeadBeforeAll(rests[c], i);
    HeadBeforeAll(rests[b], 0);
    assert c != b;
    InternalTotal(KeyOf(rests, b, 0), KeyOf(rests, c, i));
    if i > 0 { InternalTransitive(KeyOf(rests, c, 0), KeyOf(rests, c, i), KeyOf(rests, b, 0)); }
    LeastFirst(rests, |rests|, c);
  }

  /** ... and it comes out too late. */
  lemma TooLate(rests: seq<seq<KV>>, b: nat, c: nat, i: nat)
    requires b == Least(rests, |rests|) && At(rests, b, 0) && At(rests, c, i) && KeyOf(rests, b, 0) != KeyOf(rests, c, i)
    requires !InternalLess(KeyOf(rests, b, 0), KeyOf(rests, c, i))
    ensures !InOrder(Merged(rests))
  {
    hide InternalLess, Least, BytesLess, Total, Bag;
    var m := Merged(rests);
    TotalDrop(rests, b);
    assert m[0] == rests[b][0];
    MergedBag(rests);
    InBag(rests, c, i);
    assert rests[c][i] in multiset(m);
    var j :| 0 <= j < |m| && m[j] == rests[c][i];
    assert j != 0;
    assert !InternalLess(m[0].key, m[j].key);
  }

  lemma {:induction false} InBag(rests: seq<seq<KV>>, c: nat, i: nat)
    requires At(rests, c, i)
    ensures rests[c][i] in Bag(rests)
    decreases c
  {
    if c > 0 {
      assert rests[1..][c - 1] == rests[c];
      InBag(rests[1..], c - 1, i);
    }
  }

  // ---------------------------------------------------------- the head is the first

  function Up(b: nat, c: nat, i: nat): nat {
    if c == b then i + 1 else i
  }

  /** What is left after the head is taken. */
  lemma Shifted(rests: seq<seq<KV>>, b: nat, next: seq<seq<KV>>)
    requires At(rests, b, 0) && next == rests[b := rests[b][1..]]
    ensures forall c: nat, i: nat :: At(next, c, i) <==> At(rests, c, Up(b, c, i))
    ensures forall c: nat, i: nat :: KeyOf(next, c, i) == KeyOf(rests, c, Up(b, c, i))
  {
  }

  lemma InputsShift(rests: seq<seq<KV>>, b: nat, next: seq<seq<KV>>)
    requires InputsOk(rests) && At(rests, b, 0) && next == rests[b := rests[b][1..]]
    ensures InputsOk(next)
  {
    hide InternalLess;
    Shifted(rests, b, next);
    forall i, j | 0 <= i < j < |next[b]| ensures InternalLess(next[b][i].key, next[b][j].key) {
      assert InternalLess(rests[b][i + 1].key, rests[b][j + 1].key);
    }
  }

  lemma NextShift(rests: seq<seq<KV>>, b: nat, next: seq<seq<KV>>, c: nat, i: nat, d: nat, j: nat)
    requires HeadIsFirst(rests, b) && next == rests[b := rests[b][1..]]
    ensures NextIn(next, c, i, d, j) <==> NextIn(rests, c, Up(b, c, i), d, Up(b, d, j))
  {
    hide InternalLess;
    Shifted(rests, b, next);
    if At(next, c, i) && d == b && j == 0 {
      NeverBothWays(KeyOf(rests, b, 0), KeyOf(rests, c, Up(b, c, i)));
      assert !(c == b && Up(b, c, i) == 0);
    }
  }

  lemma NeverBothWays(a: Bytes, b: Bytes)
    ensures !(InternalLess(a, b) && InternalLess(b, a))
  {
    hide InternalLess;
    if InternalLess(a, b) && InternalLess(b, a) {
      InternalTransitive(a, b, a);
      InternalTotal(a, a);
    }
  }

  /** With the head first, the whole agrees when the rest does and the head's bytes are first. */
  lemma AgreeShift(rests: seq<seq<KV>>, b: nat, next: seq<seq<KV>>)
    requires HeadIsFirst(rests, b) && next == rests[b := rests[b][1..]]
    requires forall d: nat | d != b && At(rests, d, 0) :: BytesLess(KeyOf(rests, b, 0), KeyOf(rests, d, 0))
    ensures Agreeing(rests) <==> Agreeing(next)
  {
    hide InternalLess, BytesLess, NextIn, KeyOf, At;
    Shifted(rests, b, next);
    if Agreeing(rests) {
      forall c: nat, i: nat, d: nat, j: nat | NextIn(next, c, i, d, j) ensures BytesLess(KeyOf(next, c, i), KeyOf(next, d, j)) {
        NextShift(rests, b, next, c, i, d, j);
      }
    }
    if Agreeing(next) {
      forall c: nat, i: nat, d: nat, j: nat | NextIn(rests, c, i, d, j) ensures BytesLess(KeyOf(rests, c, i), KeyOf(rests, d, j)) {
        OnePair(rests, b, next, c, i, d, j);
      }
    }
  }

  lemma OnePair(rests: seq<seq<KV>>, b: nat, next: seq<seq<KV>>, c: nat, i: nat, d: nat, j: nat)
    requires HeadIsFirst(rests, b) && next == rests[b := rests[b][1..]] && Agreeing(next) && NextIn(rests, c, i, d, j)
    requires forall d: nat | d != b && At(rests, d, 0) :: BytesLess(KeyOf(rests, b, 0), KeyOf(rests, d, 0))
    ensures BytesLess(KeyOf(rests, c, i), KeyOf(rests, d, j))
  {
    hide InternalLess, BytesLess;
    assert !(d == b && j == 0) by { NeverBothWays(KeyOf(rests, b, 0), KeyOf(rests, c, i)); }
    if c == b && i == 0 {
      assert j == 0;
    } else {
      var i', j' := if c == b then i - 1 else i, if d == b then j - 1 else j;
      NextShift(rests, b, next, c, i', d, j');
      Shifted(rests, b, next);
      assert NextIn(next, c, i', d, j');
    }
  }

  lemma HeadBytesFirst(rests: seq<seq<KV>>, b: nat, d: nat)
    requires InputsOk(rests) && b == Least(rests, |rests|) && At(rests, b, 0) && At(rests, d, 0) && d != b
    ensures BytesLess(KeyOf(rests, b, 0), KeyOf(rests, d, 0))
  {
    LeastFirst(rests, |rests|, d);
    RankOrder(KeyOf(rests, b, 0), KeyOf(rests, d, 0));
    RankOrder(KeyOf(rests, d, 0), KeyOf(rests, b, 0));
  }

  lemma MergedHead(rests: seq<seq<KV>>, b: nat, next: seq<seq<KV>>)
    requires b == Least(rests, |rests|) && HeadIsFirst(rests, b) && next == rests[b := rests[b][1..]]
    ensures InOrder(Merged(rests)) <==> InOrder(Merged(next))
  {
    hide InternalLess, Least, BytesLess, Total, Bag;
    var m, t := Merged(rests), Merged(next);
    TotalDrop(rests, b);
    assert m == [rests[b][0]] + t;
    forall j | 0 <= j < |t| ensures InternalLess(m[0].key, t[j].key) {
      assert t[j] in multiset(t);
      MergedBag(next);
      var c := MemberOf(next, t[j]);
      var i :| 0 <= i < |next[c]| && next[c][i] == t[j];
      Shifted(rests, b, next);
      assert At(next, c, i) && KeyOf(next, c, i) == t[j].key;
    }
    if InOrder(t) {
      forall i, j | 0 <= i < j < |m| ensures InternalLess(m[i].key, m[j].key) {
        if i > 0 { assert InternalLess(t[i - 1].key, t[j - 1].key); }
      }
    }
    if InOrder(m) {
      forall i, j | 0 <= i < j < |t| ensures InternalLess(t[i].key, t[j].key) {
        assert InternalLess(m[i + 1].key, m[j + 1].key);
      }
    }
  }

  /** Out of inputs in internal order comes a merge in internal order if and only if the inputs' bytes agree. */
  lemma {:induction false} MergeOrderIff(rests: seq<seq<KV>>)
    requires InputsOk(rests)
    ensures InOrder(Merged(rests)) <==> Agreeing(rests)
    decreases Total(rests)
  {
    hide InternalLess, BytesLess, NextIn, InputsOk, InOrder, Bag, Total;
    var b := Least(rests, |rests|);
    if b == -1 {
      NothingLeft(rests, |rests|);
      EmptyAgrees(rests);
    } else if HeadIsFirst(rests, b) {
      var next := rests[b := rests[b][1..]];
      TotalDrop(rests, b);
      InputsShift(rests, b, next);
      MergeOrderIff(next);
      MergedHead(rests, b, next);
      forall d: nat | d != b && At(rests, d, 0) ensures BytesLess(KeyOf(rests, b, 0), KeyOf(rests, d, 0)) {
        HeadBytesFirst(rests, b, d);
      }
      AgreeShift(rests, b, next);
    } else {
      var c: nat, i: nat :| At(rests, c, i) && !(c == b && i == 0) && !InternalLess(KeyOf(rests, b, 0), KeyOf(rests, c, i));
      OvertakenHead(rests, b, c, i);
      DifferentKeys(rests, b, c, i);
      TooLate(rests, b, c, i);
    }
  }

  lemma DifferentKeys(rests: seq<seq<KV>>, b: nat, c: nat, i: nat)
    requires InputsOk(rests) && c != b && At(rests, b, 0) && At(rests, c, i)
    ensures KeyOf(rests, b, 0) != KeyOf(rests, c, i)
  {
  }

  lemma EmptyAgrees(rests: seq<seq<KV>>)
    requires forall c | 0 <= c < |rests| :: rests[c] == []
    ensures Agreeing(rests) && InOrder([])
  {
  }

  // ------------------------------------------------------------------ one version a key

  lemma {:induction false} PrefixDecides(u: Bytes, s: Bytes, v: Bytes, t: Bytes)
    requires |u| == |v| && BytesLess(u, v)
    ensures BytesLess(u + s, v + t)
    decreases |u|
  {
    if u[0] == v[0] {
      assert (u + s)[1..] == u[1..] + s && (v + t)[1..] == v[1..] + t;
      PrefixDecides(u[1..], s, v[1..], t);
    }
  }

  /** User keys of one length, and no user key in two inputs: the bytes agree, and the merge is in order. */
  lemma OneVersionEach(rests: seq<seq<KV>>, length: nat)
    requires InputsOk(rests) && forall c: nat, i: nat | At(rests, c, i) :: |KeyOf(rests, c, i)| == length + TAG
    requires forall c: nat, i: nat, d: nat, j: nat | c != d && At(rests, c, i) && At(rests, d, j) ::
               UserKey(KeyOf(rests, c, i)) != UserKey(KeyOf(rests, d, j))
    ensures InOrder(Merged(rests))
  {
    hide InputsOk, BytesLess, InternalLess, UserKey, KeyOf;
    forall c: nat, i: nat, d: nat, j: nat | NextIn(rests, c, i, d, j) ensures BytesLess(KeyOf(rests, c, i), KeyOf(rests, d, j)) {
      UserKeyDecides(KeyOf(rests, c, i), KeyOf(rests, d, j), length);
    }
    MergeOrderIff(rests);
  }

  lemma UserKeyDecides(a: Bytes, b: Bytes, length: nat)
    requires |a| == |b| == length + TAG && InternalLess(a, b) && UserKey(a) != UserKey(b)
    ensures BytesLess(a, b)
  {
    assert a == UserKey(a) + a[length..] && b == UserKey(b) + b[length..];
    PrefixDecides(UserKey(a), a[length..], UserKey(b), b[length..]);
  }

  // ------------------------------------------------------------------ two versions of a key

  lemma {:induction false} SamePrefix(u: Bytes, s: Bytes, t: Bytes)
    ensures BytesLess(u + s, u + t) <==> BytesLess(s, t)
    decreases |u|
  {
    if u == [] {
      assert u + s == s && u + t == t;
    } else {
      assert (u + s)[1..] == u[1..] + s && (u + t)[1..] == u[1..] + t;
      SamePrefix(u[1..], s, t);
    }
  }

  lemma TagBytes()
    ensures var one, two := Fixed(Pack(1, 1), 8), Fixed(Pack(2, 1), 8); BytesLess(one, two) && !BytesLess(two, one)
  {
    var one, two := Fixed(Pack(1, 1), 8), Fixed(Pack(2, 1), 8);
    assert one[0] == two[0] == 1 && one[1..][0] == 1 && two[1..][0] == 2;
  }

  /** The newer of two versions comes first among internal keys, the older one among byte strings. */
  lemma VersionsDisagree(user: Bytes)
    ensures var one, two := Internal(user, 1, 1), Internal(user, 2, 1);
            InternalLess(two, one) && BytesLess(one, two) && !BytesLess(two, one)
  {
    var one, two := Internal(user, 1, 1), Internal(user, 2, 1);
    TagBytes();
    SamePrefix(user, Fixed(Pack(1, 1), 8), Fixed(Pack(2, 1), 8));
    SamePrefix(user, Fixed(Pack(2, 1), 8), Fixed(Pack(1, 1), 8));
    Fixed64Round(Pack(1, 1));
    Fixed64Round(Pack(2, 1));
    assert one[|one| - TAG..] == Fixed(Pack(1, 1), 8) && two[|two| - TAG..] == Fixed(Pack(2, 1), 8);
  }

  /** Two inputs, each in order, with two versions of one user key: the merge hands the older one on first. */
  lemma OlderComesFirst(user: Bytes, v: Bytes, w: Bytes)
    ensures var rests := [[KV(Internal(user, 2, 1), v)], [KV(Internal(user, 1, 1), w)]];
            InputsOk(rests) && !Agreeing(rests) && !InOrder(Merged(rests))
  {
    hide InternalLess, BytesLess, Internal;
    var rests := [[KV(Internal(user, 2, 1), v)], [KV(Internal(user, 1, 1), w)]];
    VersionsDisagree(user);
    InternalTotal(Internal(user, 1, 1), Internal(user, 1, 1));
    assert NextIn(rests, 0, 0, 1, 0);
    MergeOrderIff(rests);
  }

  /** Fed in that order, the drop rule keeps the older version and loses the newer one. */
  lemma NewerIsDropped(k: Key, v: Bytes, w: Bytes, base: seq<seq<File>>, level: nat)
    ensures Survivors([Entry(k, 1, Value, w), Entry(k, 2, Value, v)], 2, base, level) == [Entry(k, 1, Value, w)]
    ensures Survivors([Entry(k, 2, Value, v), Entry(k, 1, Value, w)], 2, base, level) == [Entry(k, 2, Value, v)]
  {
    FirstOnly(Entry(k, 1, Value, w), Entry(k, 2, Value, v), base, level);
    FirstOnly(Entry(k, 2, Value, v), Entry(k, 1, Value, w), base, level);
  }

  lemma FirstOnly(a: Entry, b: Entry, base: seq<seq<File>>, level: nat)
    requires a.key == b.key && a.sn <= 2 && a.kind.Value?
    ensures Survivors([a, b], 2, base, level) == [a]
  {
    var input := [a, b];
    assert Survives(input, 0, 2, base, level);
    assert input[0].key == input[1].key && input[0].sn <= 2;
    assert Hidden(input, 1, 2);
    assert Kept(input, 1, 2, base, level) == [a];
    assert Kept(input, 2, 2, base, level) == [a];
  }
}
