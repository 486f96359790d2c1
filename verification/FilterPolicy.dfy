/**
 The filter policy a table is built and read with: the user's policy, here the Bloom
 filter, applied to user keys instead of internal keys.
 */
module FilterPolicies {
  import opened Entries
  import opened Coding
  import opened Comparators
  import Bloom
  import FB = FilterBlocks

  /** ExtractUserKey, for which a caller owes at least the eight bytes of the tag. */
  function Strip(key: Bytes): Bytes {
    if IsInternal(key) then UserKey(key) else key
  }

  function StripAll(keys: seq<Bytes>): (r: seq<Bytes>)
    ensures |r| == |keys| && forall i | 0 <= i < |keys| :: r[i] == Strip(keys[i])
  {
    seq(|keys|, i requires 0 <= i < |keys| => Strip(keys[i]))
  }

  /** InternalFilterPolicy::CreateFilter and KeyMayMatch, for any user policy. */
  function InternalCreate(create: seq<Bytes> -> Bytes): seq<Bytes> -> Bytes {
    keys => create(StripAll(keys))
  }

  function InternalMay(may: (Bytes, Bytes) -> bool): (Bytes, Bytes) -> bool {
    (key, filter) => may(Strip(key), filter)
  }

  /** A key with the user key of a stored one is never hidden, whatever its sequence number. */
  ghost predicate PolicyOk(create: seq<Bytes> -> Bytes, may: (Bytes, Bytes) -> bool) {
    forall keys, e, k | e in keys && IsInternal(e) && IsInternal(k) && UserKey(e) == UserKey(k) :: may(k, create(keys))
  }

  /** Any user policy that hides none of its own keys is right for user keys once wrapped. */
  lemma WrappedOk(create: seq<Bytes> -> Bytes, may: (Bytes, Bytes) -> bool)
    requires FB.Sound(create, may)
    ensures PolicyOk(InternalCreate(create), InternalMay(may))
  {
    forall keys, e, k | e in keys && IsInternal(e) && IsInternal(k) && UserKey(e) == UserKey(k)
      ensures InternalMay(may)(k, InternalCreate(create)(keys))
    {
      var i :| 0 <= i < |keys| && keys[i] == e;
      assert StripAll(keys)[i] == UserKey(k);
      var stripped := StripAll(keys);
      assert UserKey(k) in stripped;
      assert may(UserKey(k), create(stripped));
      var filter := InternalCreate(create)(keys);
      assert filter == create(stripped) && Strip(k) == UserKey(k);
      assert InternalMay(may)(k, filter) == may(Strip(k), filter);
    }
  }

  function BloomCreate(hash: Bytes -> Word32, bitsPerKey: nat, k: Byte): seq<Bytes> -> Bytes {
    keys => Bloom.FilterFor(hash, bitsPerKey, k, keys)
  }

  function BloomMay(hash: Bytes -> Word32): (Bytes, Bytes) -> bool {
    (key, filter) => Bloom.Matches(hash, key, filter)
  }

  /** The Bloom filter hides none of its keys. */
  lemma BloomSound(hash: Bytes -> Word32, bitsPerKey: nat, k: Byte)
    ensures FB.Sound(BloomCreate(hash, bitsPerKey, k), BloomMay(hash))
  {
    forall keys, key | key in keys ensures BloomMay(hash)(key, BloomCreate(hash, bitsPerKey, k)(keys)) {
      Bloom.CreatedMatches(hash, bitsPerKey, k, keys, key);
    }
  }

  /** The policy the database uses is right for the table reader. */
  lemma BloomPolicyOk(hash: Bytes -> Word32, bitsPerKey: nat, k: Byte)
    ensures PolicyOk(InternalCreate(BloomCreate(hash, bitsPerKey, k)), InternalMay(BloomMay(hash)))
  {
    BloomSound(hash, bitsPerKey, k);
    WrappedOk(BloomCreate(hash, bitsPerKey, k), BloomMay(hash));
  }
}
