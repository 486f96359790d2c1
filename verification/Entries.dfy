/**
 Byte strings, the bytewise user comparator, and the entries the store is made of.

 The engine and the iterators only ever compare user keys, so there a user key is its
 rank in the comparator's order. `RankOrder` shows that the bytewise comparator's order
 on all byte strings is exactly the order of their ranks.
 */
module Entries {
  type Byte = x: int | 0 <= x < 256
  type Bytes = seq<Byte>

  datatype Option<+T> = None | Some(value: T)

  function OrElse<T>(a: Option<T>, b: Option<T>): Option<T> {
    if a.Some? then a else b
  }

  /** The way an iterator last moved. */
  datatype Direction = Forward | Reverse

  function Power(n: nat): (p: nat)
    ensures p > 0
    decreases n, 0
  {
    if n == 0 then 1 else 2 * Power(n - 1)
  }

  /** memcmp order with "shorter is smaller" on ties: Slice::compare(a, b) < 0. */
  predicate BytesLess(a: Bytes, b: Bytes) {
    if a == [] then b != []
    else b != [] && (a[0] < b[0] || (a[0] == b[0] && BytesLess(a[1..], b[1..])))
  }

  /** A number in [0, 1): base-257 digits, every byte shifted up by one. */
  function Rank(s: Bytes): (r: real)
    ensures 0.0 <= r < 1.0
    ensures r == 0.0 <==> s == []
  {
    if s == [] then 0.0 else (s[0] as real + 1.0 + Rank(s[1..])) / 257.0
  }

  lemma {:induction false} RankOrder(a: Bytes, b: Bytes)
    ensures BytesLess(a, b) <==> Rank(a) < Rank(b)
    ensures a == b <==> Rank(a) == Rank(b)
  {
    if a != [] && b != [] {
      RankOrder(a[1..], b[1..]);
      assert a == [a[0]] + a[1..] && b == [b[0]] + b[1..];
      if a[0] < b[0] {
        assert a[0] as real + 1.0 <= b[0] as real;
      } else if b[0] < a[0] {
        assert b[0] as real + 1.0 <= a[0] as real;
      }
    }
  }

  type Key = real

  const K_MAX_SEQUENCE: nat := 0xff_ffff_ffff_ffff

  /** Sequence numbers are 56 bits wide. */
  type SeqNo = n: nat | n <= K_MAX_SEQUENCE

  datatype Kind = Deletion | Value

  datatype Entry = Entry(key: Key, sn: SeqNo, kind: Kind, value: Bytes)

  /** The internal key order: user key ascending, then sequence number descending. */
  predicate Before(a: Entry, b: Entry) {
    a.key < b.key || (a.key == b.key && a.sn > b.sn)
  }

  /** `e` sorts before the seek target (k, s, kValueTypeForSeek). */
  predicate BeforeTarget(e: Entry, k: Key, s: nat) {
    e.key < k || (e.key == k && e.sn > s)
  }

  predicate Run(es: seq<Entry>) {
    forall i, j {:trigger Before(es[i], es[j])} | 0 <= i < j < |es| :: Before(es[i], es[j])
  }

  /** `e` is what a read of `k` at snapshot `s` must see among the entries `S`. */
  ghost predicate IsNewest(S: set<Entry>, k: Key, s: nat, e: Entry) {
    && e in S && e.key == k && e.sn <= s
    && forall x | x in S && x.key == k && x.sn <= s :: x.sn <= e.sn
  }

  ghost predicate NoneVisible(S: set<Entry>, k: Key, s: nat) {
    forall x | x in S :: !(x.key == k && x.sn <= s)
  }

  /** No two different entries of one user key share a sequence number. */
  ghost predicate Unambiguous(S: set<Entry>) {
    forall x, y | x in S && y in S && x.key == y.key && x.sn == y.sn :: x == y
  }

  /** The newest entry of `k` at or below `s`, if there is one. */
  ghost function Newest(S: set<Entry>, k: Key, s: nat): (r: Option<Entry>)
    ensures r.Some? ==> IsNewest(S, k, s, r.value)
    ensures r.None? ==> NoneVisible(S, k, s)
  {
    NewestExists(S, k, s);
    if exists e :: IsNewest(S, k, s, e) then
      var e :| IsNewest(S, k, s, e);
      Some(e)
    else None
  }

  lemma {:induction false} NewestExists(S: set<Entry>, k: Key, s: nat)
    ensures NoneVisible(S, k, s) || exists e :: IsNewest(S, k, s, e)
  {
    if S != {} {
      var x :| x in S;
      NewestExists(S - {x}, k, s);
      if exists e :: IsNewest(S - {x}, k, s, e) {
        var e :| IsNewest(S - {x}, k, s, e);
        var b := if x.key == k && x.sn <= s && x.sn > e.sn then x else e;
        assert IsNewest(S, k, s, b);
      } else if x.key == k && x.sn <= s {
        assert IsNewest(S, k, s, x);
      }
    }
  }

  lemma NewestIs(S: set<Entry>, k: Key, s: nat, e: Entry)
    requires Unambiguous(S) && IsNewest(S, k, s, e)
    ensures Newest(S, k, s) == Some(e)
  {
  }

  lemma NewestIsNone(S: set<Entry>, k: Key, s: nat)
    requires NoneVisible(S, k, s)
    ensures Newest(S, k, s) == None
  {
  }

  /** What a read reports: the value and its sequence number, or "not found". */
  datatype Answer = Found(sn: nat, value: Bytes) | NotFound

  function AnswerOf(e: Option<Entry>): Answer {
    match e
    case Some(Entry(_, n, Value, v)) => Found(n, v)
    case _ => NotFound
  }
}
