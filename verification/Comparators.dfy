/**
 The bytewise comparator and the internal-key comparator over it, with the functions that
 shorten an index key: the separator stays between its two keys, the successor behind its one.
 */
module Comparators {
  import opened Entries
  import opened Coding
  import opened Blocks

  // -------------------------------------------------------------- bytewise

  lemma {:induction false} PrefixLess(p: Bytes, a: Bytes, b: Bytes)
    ensures BytesLess(p + a, p + b) <==> BytesLess(a, b)
  {
    if p == [] {
      assert p + a == a && p + b == b;
    } else {
      assert (p + a)[1..] == p[1..] + a && (p + b)[1..] == p[1..] + b;
      PrefixLess(p[1..], a, b);
    }
  }

  lemma NeverBoth(a: Bytes, b: Bytes)
    ensures !(BytesLess(a, b) && BytesLess(b, a)) && !BytesLess(a, a)
    ensures a == b || BytesLess(a, b) || BytesLess(b, a)
  {
    RankOrder(a, b);
    RankOrder(b, a);
    RankOrder(a, a);
  }

  lemma LessLess(a: Bytes, b: Bytes, c: Bytes)
    requires BytesLess(a, b) && BytesLess(b, c)
    ensures BytesLess(a, c)
  {
    RankOrder(a, b);
    RankOrder(b, c);
    RankOrder(a, c);
  }

  /** `start`, or its common prefix with `limit` and a byte one larger, where that stays below `limit`. */
  function Separator(start: Bytes, limit: Bytes): Bytes {
    var d := Shared(start, limit);
    if d < |start| && d < |limit| && start[d] < 0xff && start[d] + 1 < limit[d] then start[..d] + [start[d] + 1] else start
  }

  method FindShortestSeparator(start: Bytes, limit: Bytes) returns (r: Bytes)
    ensures r == Separator(start, limit)
  {
    var min := if |start| < |limit| then |start| else |limit|;
    var d := 0;
    assert start[0..] == start && limit[0..] == limit;
    while d < min && start[d] == limit[d]
      invariant 0 <= d <= min && d + Shared(start[d..], limit[d..]) == Shared(start, limit)
    {
      assert start[d..][1..] == start[d + 1..] && limit[d..][1..] == limit[d + 1..];
      d := d + 1;
    }
    r := start;
    if d < min {
      var byte := start[d];
      if byte < 0xff && byte + 1 < limit[d] {
        r := start[..d] + [byte + 1];
      }
    }
  }

  /** Unless it is left alone, the separator is after `start`, before `limit`, and as short as any key there. */
  lemma SeparatorBetween(start: Bytes, limit: Bytes)
    ensures
      var r := Separator(start, limit);
      r == start || (BytesLess(start, r) && BytesLess(r, limit) && |r| <= |start|)
  {
    var d, r := Shared(start, limit), Separator(start, limit);
    var p := start[..d];
    if r != start {
      assert start == p + start[d..] && limit == p + limit[d..] && r == p + [start[d] + 1];
      PrefixLess(p, start[d..], [start[d] + 1]);
      PrefixLess(p, [start[d] + 1], limit[d..]);
    }
  }

  lemma {:induction false} SeparatorShortest(start: Bytes, limit: Bytes, x: Bytes)
    requires Separator(start, limit) != start && !BytesLess(x, start) && BytesLess(x, limit)
    ensures |Separator(start, limit)| <= |x|
    decreases |start|
  {
    if Shared(start, limit) == 0 {
      assert |Separator(start, limit)| == 1;
      assert x == [] ==> BytesLess(x, start);
    } else {
      assert x != [] && x[0] == start[0];
      assert Separator(start, limit) == [start[0]] + Separator(start[1..], limit[1..]);
      SeparatorShortest(start[1..], limit[1..], x[1..]);
    }
  }

  /** The first byte that can be raised is, and the rest dropped; a run of 0xff stays. */
  function Successor(key: Bytes): Bytes {
    if key == [] then [] else if key[0] != 0xff then [key[0] + 1] else [key[0]] + Successor(key[1..])
  }

  method FindShortSuccessor(key: Bytes) returns (r: Bytes)
    ensures r == Successor(key)
  {
    assert key[0..] == key;
    for i := 0 to |key|
      invariant Successor(key) == key[..i] + Successor(key[i..])
    {
      var byte := key[i];
      assert key[i..][1..] == key[i + 1..];
      if byte != 0xff {
        r := key[..i] + [byte + 1];
        return;
      }
      assert key[..i] + [byte] == key[..i + 1];
    }
    r := key;
  }

  lemma {:induction false} SuccessorBehind(key: Bytes)
    ensures Successor(key) == key || (BytesLess(key, Successor(key)) && |Successor(key)| <= |key|)
    ensures Successor(key) == key <==> forall b | b in key :: b == 0xff
  {
    if key != [] && key[0] == 0xff {
      SuccessorBehind(key[1..]);
      assert key == [key[0]] + key[1..];
      assert Successor(key) == [key[0]] + Successor(key[1..]) && Successor(key)[1..] == Successor(key[1..]);
      assert forall b :: b in key <==> b == key[0] || b in key[1..];
    } else if key != [] {
      assert key[0] in key;
    }
  }

  /** No key that is not before `key` is shorter than its successor. */
  lemma {:induction false} SuccessorShortest(key: Bytes, x: Bytes)
    requires !BytesLess(x, key)
    ensures |Successor(key)| <= |x|
    decreases |key|
  {
    if key != [] && key[0] == 0xff {
      assert x != [] && x[0] == 0xff;
      SuccessorShortest(key[1..], x[1..]);
    }
  }

  // -------------------------------------------------------------- internal keys

  const TAG: nat := 8

  predicate IsInternal(k: Bytes) {
    |k| >= TAG
  }

  function UserKey(k: Bytes): Bytes
    requires IsInternal(k)
  {
    k[..|k| - TAG]
  }

  function Tag(k: Bytes): Word64
    requires IsInternal(k)
  {
    DecodeFixed64(k[|k| - TAG..])
  }

  function Pack(sequence: nat, kind: nat): nat {
    sequence * 256 + kind
  }

  /** The internal key of a user key at a sequence number. */
  function Internal(user: Bytes, sequence: nat, kind: nat): (k: Bytes)
    ensures IsInternal(k) && UserKey(k) == user
  {
    user + Fixed(Pack(sequence, kind), 8)
  }

  /** Increasing user key, then decreasing sequence number and type. (Strings too short to be internal keys,
      which the program never compares, go first.) */
  predicate InternalLess(a: Bytes, b: Bytes) {
    if IsInternal(a) && IsInternal(b) then
      BytesLess(UserKey(a), UserKey(b)) || (UserKey(a) == UserKey(b) && Tag(a) > Tag(b))
    else if IsInternal(a) || IsInternal(b) then !IsInternal(a)
    else BytesLess(a, b)
  }

  lemma {:induction false} FixedInjective(s: Bytes, t: Bytes)
    requires |s| == |t| && FixedValue(s) == FixedValue(t)
    ensures s == t
  {
    if s != [] {
      FixedInjective(s[1..], t[1..]);
      assert s == [s[0]] + s[1..] && t == [t[0]] + t[1..];
    }
  }

  lemma InternalTransitive(a: Bytes, b: Bytes, c: Bytes)
    requires InternalLess(a, b) && InternalLess(b, c)
    ensures InternalLess(a, c)
  {
    if IsInternal(a) {
      RankOrder(UserKey(a), UserKey(b));
      RankOrder(UserKey(b), UserKey(c));
      RankOrder(UserKey(a), UserKey(c));
    } else if !IsInternal(b) && !IsInternal(c) {
      LessLess(a, b, c);
    }
  }

  lemma InternalTotal(a: Bytes, b: Bytes)
    ensures !InternalLess(a, a) && (a == b || InternalLess(a, b) || InternalLess(b, a))
  {
    NeverBoth(a, b);
    if IsInternal(a) {
      NeverBoth(UserKey(a), UserKey(a));
      if IsInternal(b) {
        NeverBoth(UserKey(a), UserKey(b));
        if UserKey(a) == UserKey(b) && Tag(a) == Tag(b) {
          FixedInjective(a[|a| - TAG..], b[|b| - TAG..]);
          assert a == UserKey(a) + a[|a| - TAG..] && b == UserKey(b) + b[|b| - TAG..];
        }
      }
    }
  }

  const SEEK_TAG := Pack(K_MAX_SEQUENCE, 1)

  /** A shortened user key gets the tag that sorts first; the key is taken only if it became shorter but larger. */
  function Shortened(key: Bytes, user: Bytes): Bytes
    requires IsInternal(key)
  {
    if |user| < |UserKey(key)| && BytesLess(UserKey(key), user) then user + Fixed(SEEK_TAG, 8) else key
  }

  /** Shortened or left as it is: shortened exactly when the short user key is shorter and behind; it then has the tag
      that sorts first, the eight bytes of the largest number and the value type. */
  lemma ShortenedIs(key: Bytes, user: Bytes)
    requires IsInternal(key)
    ensures var r := Shortened(key, user);
            if |user| < |UserKey(key)| && BytesLess(UserKey(key), user) then
              |r| == |user| + 8 && UserKey(r) == user && r[|user|..] == [0x01, 0xff, 0xff, 0xff, 0xff, 0xff, 0xff, 0xff]
            else r == key
  {
    hide BytesLess, Fixed;
    SeekTagBytes();
    assert (user + Fixed(SEEK_TAG, 8))[..|user|] == user && (user + Fixed(SEEK_TAG, 8))[|user|..] == Fixed(SEEK_TAG, 8);
  }

  lemma SeekTagBytes()
    ensures Fixed(SEEK_TAG, 8) == [0x01, 0xff, 0xff, 0xff, 0xff, 0xff, 0xff, 0xff]
  {
    var ones := K_MAX_SEQUENCE;
    assert SEEK_TAG % 256 == 1 && SEEK_TAG / 256 == ones;
    AllOnes(ones, 7);
  }

  lemma AllOnes(v: nat, n: nat)
    requires v + 1 == Power256(n)
    ensures Fixed(v, n) == seq(n, _ => 0xff)
  {
    if n > 0 {
      assert v % 256 == 255 && v / 256 + 1 == Power256(n - 1);
      AllOnes(v / 256, n - 1);
    }
  }

  method InternalSeparator(start: Bytes, limit: Bytes) returns (r: Bytes)
    requires IsInternal(start) && IsInternal(limit)
    ensures r == Shortened(start, Separator(UserKey(start), UserKey(limit)))
  {
    var userStart, userLimit := UserKey(start), UserKey(limit);
    var tmp := FindShortestSeparator(userStart, userLimit);
    r := start;
    if |tmp| < |userStart| && BytesLess(userStart, tmp) {
      r := tmp + Fixed(SEEK_TAG, 8);
    }
  }

  method InternalSuccessor(key: Bytes) returns (r: Bytes)
    requires IsInternal(key)
    ensures r == Shortened(key, Successor(UserKey(key)))
  {
    var user := UserKey(key);
    var tmp := FindShortSuccessor(user);
    r := key;
    if |tmp| < |user| && BytesLess(user, tmp) {
      r := tmp + Fixed(SEEK_TAG, 8);
    }
  }

  /** Between two internal keys: not before `start`, before `limit`, and a shortened one is strictly between
      their user keys. */
  lemma InternalBetween(start: Bytes, limit: Bytes)
    requires IsInternal(start) && IsInternal(limit) && InternalLess(start, limit)
    ensures
      var r := Shortened(start, Separator(UserKey(start), UserKey(limit)));
      && IsInternal(r) && !InternalLess(r, start) && InternalLess(r, limit)
      && (r == start || (BytesLess(UserKey(start), UserKey(r)) && BytesLess(UserKey(r), UserKey(limit))))
  {
    var u, v := UserKey(start), UserKey(limit);
    var t := Separator(u, v);
    SeparatorBetween(u, v);
    NeverBoth(u, t);
    NeverBoth(t, u);
    if Shortened(start, t) != start {
      assert UserKey(t + Fixed(SEEK_TAG, 8)) == t;
    }
  }

  lemma InternalBehind(key: Bytes)
    requires IsInternal(key)
    ensures
      var r := Shortened(key, Successor(UserKey(key)));
      IsInternal(r) && !InternalLess(r, key) && (r == key || BytesLess(UserKey(key), UserKey(r)))
  {
    var u := UserKey(key);
    var t := Successor(u);
    SuccessorBehind(u);
    NeverBoth(u, t);
    NeverBoth(t, u);
    if Shortened(key, t) != key {
      assert UserKey(t + Fixed(SEEK_TAG, 8)) == t;
    }
  }

  lemma PackOrder(s: nat, k: nat, s': nat, k': nat)
    requires k < 256 && k' < 256
    ensures Pack(s, k) > Pack(s', k') <==> s > s' || (s == s' && k > k')
  {
  }

  function Rank1(kind: Kind): nat {
    if kind == Deletion then 0 else 1
  }

  /** On stored entries the internal-key order is the order the engine is stated with. */
  lemma InternalIsBefore(u: Bytes, s: nat, k: Kind, v: Bytes, u': Bytes, s': nat, k': Kind, v': Bytes)
    requires s <= K_MAX_SEQUENCE && s' <= K_MAX_SEQUENCE && (u != u' || s != s')
    ensures InternalLess(Internal(u, s, Rank1(k)), Internal(u', s', Rank1(k')))
        <==> Before(Entry(Rank(u), s, k, v), Entry(Rank(u'), s', k', v'))
  {
    var a, b := Internal(u, s, Rank1(k)), Internal(u', s', Rank1(k'));
    assert a[|a| - TAG..] == Fixed(Pack(s, Rank1(k)), 8) && b[|b| - TAG..] == Fixed(Pack(s', Rank1(k')), 8);
    Fixed64Round(Pack(s, Rank1(k)));
    Fixed64Round(Pack(s', Rank1(k')));
    PackOrder(s, Rank1(k), s', Rank1(k'));
    RankOrder(u, u');
    RankOrder(u', u);
  }
}
