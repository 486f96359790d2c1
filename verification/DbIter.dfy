/**
 The user-facing iterator: it walks the internal iterator, one sorted run of entries, in
 both directions and shows, per user key, the newest entry at or below its sequence number.
 */
module DbIters {
  import opened Entries
  import opened Versions
  import opened Merger
  import opened MergedRuns

  predicate Visible(e: Entry, q: nat) {
    e.sn <= q
  }

  /** A newer visible entry of the same user key stands before position `p`. */
  ghost predicate SeenBefore(es: seq<Entry>, q: nat, j: nat, p: nat)
    requires j < |es| && p <= |es|
  {
    exists i :: 0 <= i < p && es[i].key == es[j].key && Visible(es[i], q)
  }

  /** What a user may see: the newest visible entry of its key, and a value. */
  ghost predicate Shown(es: seq<Entry>, q: nat, j: nat)
    requires j < |es|
  {
    Visible(es[j], q) && es[j].kind == Value && !SeenBefore(es, q, j, j)
  }

  /** The first position at or after `from` that is shown, or |es|. */
  ghost function FirstShown(es: seq<Entry>, q: nat, from: nat): (r: nat)
    requires from <= |es|
    ensures from <= r <= |es| && (r < |es| ==> Shown(es, q, r))
    ensures forall j | from <= j < r :: !Shown(es, q, j)
    decreases |es| - from
  {
    if from == |es| || Shown(es, q, from) then from else FirstShown(es, q, from + 1)
  }

  /** The last position before `to` that is shown, or |es|. */
  ghost function LastShown(es: seq<Entry>, q: nat, to: nat): (r: nat)
    requires to <= |es|
    ensures r == |es| || (r < to && Shown(es, q, r))
    ensures forall j | (if r == |es| then 0 else r + 1) <= j < to :: !Shown(es, q, j)
  {
    if to == 0 then |es| else if Shown(es, q, to - 1) then to - 1 else LastShown(es, q, to - 1)
  }

  lemma LastShownIs(es: seq<Entry>, q: nat, to: nat, r: nat)
    requires r < to <= |es| && Shown(es, q, r) && forall j | r < j < to :: !Shown(es, q, j)
    ensures LastShown(es, q, to) == r
  {
  }

  lemma {:induction false} NoneShown(es: seq<Entry>, q: nat, to: nat)
    requires to <= |es| && forall j | 0 <= j < to :: !Shown(es, q, j)
    ensures LastShown(es, q, to) == |es|
  {
    var r := LastShown(es, q, to);
  }

  lemma FirstShownIs(es: seq<Entry>, q: nat, from: nat, r: nat)
    requires from <= r <= |es| && (r < |es| ==> Shown(es, q, r)) && forall j | from <= j < r :: !Shown(es, q, j)
    ensures FirstShown(es, q, from) == r
  {
  }

  lemma KeysAscend(es: seq<Entry>, i: nat, j: nat)
    requires Run(es) && i <= j < |es|
    ensures es[i].key <= es[j].key && (i < j && es[i].key == es[j].key ==> es[i].sn > es[j].sn)
  {
    assert i < j ==> Before(es[i], es[j]);
  }

  class DBIter {
    const iter: InternalIterator
    const q: SeqNo         // sequence_
    ghost const es: seq<Entry>  // what the internal iterator walks
    var direction: Direction
    var valid: bool
    var savedKey: Option<Key>
    var savedValue: Bytes
    ghost var cur: nat     // the entry shown, when valid

    ghost predicate Valid()
      reads this, iter, iter.it
    {
      && iter.Valid() && Run(es) && es == iter.es
      && (if valid then cur < |es| && Shown(es, q, cur) else cur == |es|)
      && (valid && direction.Forward? ==> iter.pos == cur)
      && (valid && direction.Reverse? ==>
            && savedKey == Some(es[cur].key) && savedValue == es[cur].value
            && JustBefore(es, q, iter.pos, cur))
    }

    constructor (iter: InternalIterator, q: SeqNo)
      requires iter.Valid()
      ensures Valid() && this.iter == iter && this.es == iter.es && this.q == q && !valid
    {
      this.iter, this.q, this.es := iter, q, iter.es;
      direction, valid, savedKey, savedValue := Forward, false, None, [];
      cur := |iter.es|;
    }

    method CurrentKey() returns (k: Key)
      requires Valid() && valid
      ensures k == es[cur].key
    {
      k := if direction.Forward? then iter.Current().key else savedKey.value;
    }

    method CurrentValue() returns (v: Bytes)
      requires Valid() && valid
      ensures v == es[cur].value
    {
      v := if direction.Forward? then iter.Current().value else savedValue;
    }

    method FindNextUserEntry(skipping0: bool, skip0: Option<Key>)
      requires iter.Valid() && es == iter.es && Run(es) && iter.pos < |es| && direction.Forward?
      requires skipping0 ==> skip0.Some?
      requires forall j | iter.pos <= j < |es| && SeenBefore(es, q, j, iter.pos) :: skipping0 && es[j].key <= skip0.value
      requires skipping0 ==> forall j | iter.pos <= j < |es| && Visible(es[j], q) :: skip0.value <= es[j].key
      modifies this`valid, this`savedKey, this`cur, iter, iter.it
      ensures iter.Valid() && old(iter.pos) <= iter.pos <= |es| && valid == (iter.pos < |es|) && cur == iter.pos
      ensures iter.pos < |es| ==> Shown(es, q, iter.pos) && !(skipping0 && es[iter.pos].key <= skip0.value)
      ensures forall j | old(iter.pos) <= j < iter.pos && Shown(es, q, j) :: skipping0 && es[j].key <= skip0.value
    {
      hide IsMerge, ChildrenOk, AtOrAfter, LastBefore, InBounds, Run;
      var skipping, skip := skipping0, skip0;
      ghost var start := iter.pos;
      while true
        invariant iter.Valid() && start <= iter.pos < |es|
        invariant skipping ==> skip.Some?
        invariant Hides(es, q, iter.pos, skipping, skip, skipping0, skip0)
        invariant forall j | start <= j < iter.pos && Shown(es, q, j) :: skipping0 && es[j].key <= skip0.value
        decreases |es| - iter.pos
      {
        var e := iter.Current();
        ghost var p, hid, h := iter.pos, skipping, skip;
        if Visible(e, q) {
          match e.kind {
            case Deletion =>
              skip := Some(e.key);
              skipping := true;
            case Value =>
              if skipping && e.key <= skip.value {
              } else {
                valid := true;
                savedKey := None;
                cur := iter.pos;
                return;
              }
          }
        }
        HidesStep(es, q, p, hid, h, skipping, skip, skipping0, skip0);
        iter.Next();
        if !iter.IsValid() { break; }
      }
      savedKey := None;
      valid := false;
      cur := |es|;
    }

    /** The loop of FindPrevUserEntry: back to before the key whose newest visible entry is remembered. */
    method ScanBack(ghost to: nat) returns (kind: Kind, ghost c: nat)
      requires iter.Valid() && es == iter.es && Run(es) && iter.pos < |es| && to == iter.pos + 1
      modifies this`savedKey, this`savedValue, iter, iter.it
      ensures iter.Valid() && Candidate(es, q, if iter.pos < |es| then iter.pos + 1 else 0, to, kind == Value, c)
      ensures kind == Value ==> c < |es| && savedKey == Some(es[c].key) && savedValue == es[c].value
      ensures iter.pos < |es| ==> kind == Value && es[iter.pos].key < es[c].key
    {
      hide IsMerge, ChildrenOk, AtOrAfter, LastBefore, InBounds, Run, Shown;
      kind, c := Deletion, |es|;
      while true
        invariant iter.Valid() && iter.pos < |es| && iter.pos < to
        invariant Candidate(es, q, iter.pos + 1, to, kind == Value, c)
        invariant kind == Value ==> savedKey == Some(es[c].key) && savedValue == es[c].value
        decreases iter.pos
      {
        var e := iter.Current();
        if Visible(e, q) {
          if kind != Deletion && e.key < savedKey.value { break; }
          CandidateVisible(es, q, iter.pos, to, kind == Value, c);
          kind := e.kind;
          if kind == Deletion {
            savedKey, savedValue := None, [];
            c := |es|;
          } else {
            savedKey, savedValue := Some(e.key), e.value;
            c := iter.pos;
          }
        } else {
          CandidateHidden(es, q, iter.pos, to, kind == Value, c);
        }
        iter.Prev();
        if !iter.IsValid() { break; }
      }
    }

    method FindPrevUserEntry()
      requires iter.Valid() && es == iter.es && Run(es) && direction.Reverse?
      modifies this`valid, this`savedKey, this`savedValue, this`direction, this`cur, iter, iter.it
      ensures Valid()
      ensures cur == LastShown(es, q, if old(iter.pos) < |es| then old(iter.pos) + 1 else 0)
    {
      hide IsMerge, ChildrenOk, AtOrAfter, LastBefore, InBounds, Run, Shown, LastShown;
      var kind := Deletion;
      ghost var to := if iter.pos < |es| then iter.pos + 1 else 0;
      ghost var c: nat := |es|;
      if iter.IsValid() { kind, c := ScanBack(to); }
      CandidateFinal(es, q, if iter.pos < |es| then iter.pos + 1 else 0, to, kind == Value, c);
      if kind == Deletion {
        valid := false;
        savedKey := None;
        savedValue := [];
        direction := Forward;
        cur := |es|;
      } else {
        valid := true;
        cur := c;
      }
    }

    method Next()
      requires Valid() && valid
      modifies this, iter, iter.it
      ensures Valid() && cur == FirstShown(es, q, old(cur) + 1) && valid == (cur < |es|)
    {
      hide Run, Shown, FirstShown;
      ghost var c := cur;
      if direction.Reverse? {
        direction := Forward;
        // the entries of this key follow, so the internal iterator is valid again
        if !iter.IsValid() { iter.SeekToFirst(); } else { iter.Next(); }
        PastReverse(es, q, iter.pos, c);
      } else {
        savedKey := Some(iter.Current().key);
        PastForward(es, q, c);
      }
      FindNextUserEntry(true, savedKey);
      NextIs(es, q, c, iter.pos);
    }

    method Prev()
      requires Valid() && valid
      modifies this, iter, iter.it
      ensures Valid() && cur == LastShown(es, q, old(cur)) && valid == (cur < |es|)
    {
      hide Run, Shown, LastShown;
      ghost var c := cur;
      if direction.Forward? {
        savedKey := Some(iter.Current().key);
        while true
          invariant iter.Valid() && iter.pos <= c && direction.Forward?
          invariant savedKey == Some(es[c].key)
          invariant forall j | iter.pos <= j < c :: es[j].key == es[c].key
          decreases iter.pos
        {
          iter.Prev();
          if !iter.IsValid() {
            valid := false;
            savedKey := None;
            savedValue := [];
            cur := |es|;
            SameKeyNotShown(es, q, 0, c);
            return;
          }
          KeysAscend(es, iter.pos, c);
          if iter.Current().key < savedKey.value { break; }
        }
        direction := Reverse;
        SameKeyNotShown(es, q, iter.pos + 1, c);
      } else {
        InvisibleNotShown(es, q, if iter.pos < |es| then iter.pos + 1 else 0, c);
      }
      FindPrevUserEntry();
    }

    method Seek(target: Key)
      requires Valid()
      modifies this, iter, iter.it
      ensures Valid() && valid == (cur < |es|)
      ensures cur == FirstShown(es, q, FirstAtLeast(es, target))
    {
      hide Run, Shown, FirstShown, SeekRun;
      direction := Forward;
      savedValue := [];
      savedKey := None;
      iter.Seek(target, q);
      SeekUnseen(es, q, target);
      if iter.IsValid() {
        FindNextUserEntry(false, savedKey);
        FirstShownIs(es, q, FirstAtLeast(es, target), iter.pos);
      } else {
        valid := false;
        cur := |es|;
        FirstShownIs(es, q, FirstAtLeast(es, target), |es|);
      }
    }

    method SeekToFirst()
      requires Valid()
      modifies this, iter, iter.it
      ensures Valid() && cur == FirstShown(es, q, 0) && valid == (cur < |es|)
    {
      hide Run, Shown;
      direction := Forward;
      savedValue := [];
      iter.SeekToFirst();
      if iter.IsValid() {
        FindNextUserEntry(false, savedKey);
        FirstShownIs(es, q, 0, iter.pos);
      } else {
        valid := false;
        cur := |es|;
      }
    }

    method SeekToLast()
      requires Valid()
      modifies this, iter, iter.it
      ensures Valid() && cur == LastShown(es, q, |es|) && valid == (cur < |es|)
    {
      hide Run, Shown, LastShown;
      direction := Reverse;
      savedValue := [];
      iter.SeekToLast();
      FindPrevUserEntry();
    }
  }

  /** The first position whose user key is at least `target`. */
  function FirstAtLeast(es: seq<Entry>, target: Key): (i: nat)
    ensures i <= |es| && (forall j | 0 <= j < i :: es[j].key < target) && (i < |es| ==> es[i].key >= target)
  {
    if es == [] || es[0].key >= target then 0 else
    var i := FirstAtLeast(es[1..], target);
    assert forall j | 1 <= j < |es| :: es[j] == es[1..][j - 1];
    1 + i
  }

  /** `pos` stands before all entries of cur's key that could be seen; |es| stands before everything. */
  ghost predicate JustBefore(es: seq<Entry>, q: nat, pos: nat, cur: nat)
    requires cur < |es|
  {
    && (pos < |es| ==> pos < cur && es[pos].key < es[cur].key)
    && forall j | (if pos < |es| then pos + 1 else 0) <= j < cur :: !Visible(es[j], q)
  }

  /** From position p on, the loop's (skipping, skip) hides exactly what was seen before or was to be skipped. */
  ghost predicate Hides(es: seq<Entry>, q: nat, p: nat, skipping: bool, skip: Option<Key>, skipping0: bool, skip0: Option<Key>) {
    && p <= |es| && (skipping ==> skip.Some?) && (skipping0 ==> skip0.Some?)
    && (skipping ==> forall j | p <= j < |es| && Visible(es[j], q) :: skip.value <= es[j].key)
    && forall j | p <= j < |es| ::
         (SeenBefore(es, q, j, p) || (skipping0 && es[j].key <= skip0.value)) <==> (skipping && es[j].key <= skip.value)
  }

  lemma SeenNext(es: seq<Entry>, q: nat, j: nat, p: nat)
    requires p < j < |es|
    ensures SeenBefore(es, q, j, p + 1) <==> SeenBefore(es, q, j, p) || (es[p].key == es[j].key && Visible(es[p], q))
  {
  }

  /** Passing an entry that is invisible, a deletion, or hidden. */
  lemma HidesStep(es: seq<Entry>, q: nat, p: nat, hid: bool, h: Option<Key>, skipping: bool, skip: Option<Key>,
                  skipping0: bool, skip0: Option<Key>)
    requires Run(es) && p < |es| && Hides(es, q, p, hid, h, skipping0, skip0)
    requires if !Visible(es[p], q) then skipping == hid && skip == h
             else if es[p].kind == Deletion then skipping && skip == Some(es[p].key)
             else hid && es[p].key <= h.value && skipping == hid && skip == h
    ensures Hides(es, q, p + 1, skipping, skip, skipping0, skip0)
  {
    forall j | p + 1 <= j < |es|
      ensures (SeenBefore(es, q, j, p + 1) || (skipping0 && es[j].key <= skip0.value)) <==> (skipping && es[j].key <= skip.value)
      ensures skipping && Visible(es[j], q) ==> skip.value <= es[j].key
    {
      SeenNext(es, q, j, p);
      KeysAscend(es, p, j);
    }
  }

  /** Scanning back from `to`, positions [lo, to) are done; `c` is the entry that would be shown if nothing newer follows. */
  ghost predicate Candidate(es: seq<Entry>, q: nat, lo: nat, to: nat, has: bool, c: nat) {
    && lo <= to <= |es|
    && (if has then
          && lo <= c < to && Visible(es[c], q) && es[c].kind == Value
          && (forall j | lo <= j < c :: !Visible(es[j], q))
          && (forall j | c < j < to :: !Shown(es, q, j))
        else c == |es| && forall j | lo <= j < to :: !Shown(es, q, j))
  }

  lemma CandidateVisible(es: seq<Entry>, q: nat, p: nat, to: nat, has: bool, c: nat)
    requires Run(es) && Candidate(es, q, p + 1, to, has, c) && Visible(es[p], q) && (has ==> es[c].key <= es[p].key)
    ensures Candidate(es, q, p, to, es[p].kind == Value, if es[p].kind == Value then p else |es|)
  {
    if has {
      KeysAscend(es, p, c);
      assert SeenBefore(es, q, c, c);
    }
  }

  lemma CandidateHidden(es: seq<Entry>, q: nat, p: nat, to: nat, has: bool, c: nat)
    requires Candidate(es, q, p + 1, to, has, c) && !Visible(es[p], q)
    ensures Candidate(es, q, p, to, has, c)
  {
  }

  lemma CandidateFinal(es: seq<Entry>, q: nat, done: nat, to: nat, has: bool, c: nat)
    requires Run(es) && Candidate(es, q, done, to, has, c)
    requires done > 0 ==> has && es[done - 1].key < es[c].key
    ensures c == LastShown(es, q, to)
    ensures has ==> JustBefore(es, q, if done > 0 then done - 1 else |es|, c)
  {
    if has {
      forall i | 0 <= i < c && es[i].key == es[c].key ensures !Visible(es[i], q) {
        if i < done { KeysAscend(es, i, done - 1); }
      }
      LastShownIs(es, q, to, c);
    } else {
      NoneShown(es, q, to);
    }
  }

  /** Positions seeks may land on hide nothing of what follows, and skip only invisible entries. */
  lemma SeekUnseen(es: seq<Entry>, q: nat, target: Key)
    requires Run(es)
    ensures var p := SeekRun(es, target, q);
            && FirstAtLeast(es, target) <= p
            && (forall j | FirstAtLeast(es, target) <= j < p :: !Shown(es, q, j))
            && (forall j | p <= j < |es| :: !SeenBefore(es, q, j, p))
  {
    var p, f := SeekRun(es, target, q), FirstAtLeast(es, target);
    forall j | f <= j < p ensures !Visible(es[j], q) { KeysAscend(es, f, j); }
    forall j, i | p <= j < |es| && 0 <= i < p && es[i].key == es[j].key ensures !Visible(es[i], q) {
      KeysAscend(es, p, j);
    }
  }

  lemma PastForward(es: seq<Entry>, q: nat, c: nat)
    requires Run(es) && c < |es| && Shown(es, q, c)
    ensures forall j | c <= j < |es| :: es[c].key <= es[j].key
    ensures forall j | c <= j < |es| :: !SeenBefore(es, q, j, c)
  {
    forall j | c <= j < |es| ensures es[c].key <= es[j].key { KeysAscend(es, c, j); }
    forall j, i | c <= j < |es| && 0 <= i < c && es[i].key == es[j].key ensures !Visible(es[i], q) {
      KeysAscend(es, i, c);
      KeysAscend(es, c, j);
    }
  }

  lemma PastReverse(es: seq<Entry>, q: nat, p: nat, c: nat)
    requires Run(es) && p <= c < |es| && (forall j | p <= j < c :: !Visible(es[j], q)) && (p > 0 ==> es[p - 1].key < es[c].key)
    ensures forall j | p <= j < |es| && Visible(es[j], q) :: es[c].key <= es[j].key
    ensures forall j | p <= j < |es| && SeenBefore(es, q, j, p) :: es[j].key <= es[c].key
  {
    forall j | c <= j < |es| ensures es[c].key <= es[j].key { KeysAscend(es, c, j); }
    forall j | p <= j < |es| && SeenBefore(es, q, j, p) ensures es[j].key <= es[c].key {
      var i :| 0 <= i < p && es[i].key == es[j].key && Visible(es[i], q);
      KeysAscend(es, i, p - 1);
    }
  }

  /** Whatever of the current key comes before or after `c` is not shown. */
  lemma SameKeyNotShown(es: seq<Entry>, q: nat, lo: nat, c: nat)
    requires lo <= c < |es| && Shown(es, q, c) && forall j | lo <= j < c :: es[j].key == es[c].key
    ensures LastShown(es, q, lo) == LastShown(es, q, c)
    decreases c - lo
  {
    InvisibleNotShown(es, q, lo, c) by {
      forall j | lo <= j < c ensures !Visible(es[j], q) {}
    }
  }

  lemma {:induction false} InvisibleNotShown(es: seq<Entry>, q: nat, lo: nat, c: nat)
    requires lo <= c <= |es| && forall j | lo <= j < c :: !Visible(es[j], q)
    ensures LastShown(es, q, lo) == LastShown(es, q, c)
    decreases c - lo
  {
    if lo < c { InvisibleNotShown(es, q, lo, c - 1); }
  }

  lemma NextIs(es: seq<Entry>, q: nat, c: nat, r: nat)
    requires Run(es) && c < |es| && r <= |es| && Shown(es, q, c)
    requires r < |es| ==> Shown(es, q, r) && es[c].key < es[r].key
    requires forall j | c <= j < r && Shown(es, q, j) :: es[j].key <= es[c].key
    ensures FirstShown(es, q, c + 1) == r
  {
    if r < |es| && r <= c { KeysAscend(es, r, c); }
    forall j | c + 1 <= j < r ensures !Shown(es, q, j) {
      KeysAscend(es, c, j);
      if es[j].key == es[c].key { assert SeenBefore(es, q, j, j); }
    }
    FirstShownIs(es, q, c + 1, r);
  }

  // -------------------------------------------------- what the walk amounts to

  /** One position is shown per user key, positions ascend with keys, and the shown value is the read's answer. */
  lemma ShownIsAnswer(es: seq<Entry>, q: nat, k: Key)
    requires Run(es)
    ensures match AnswerOf(Newest(Content(es), k, q))
            case Found(n, v) => exists i :: 0 <= i < |es| && Shown(es, q, i) && es[i].key == k && es[i].value == v && es[i].sn == n
            case NotFound => forall i | 0 <= i < |es| && es[i].key == k :: !Shown(es, q, i)
  {
    var r := Newest(Content(es), k, q);
    forall i | 0 <= i < |es| && es[i].key == k && Shown(es, q, i) ensures r == Some(es[i]) {
      ShownIsNewest(es, q, i);
    }
    if r.Some? && r.value.kind == Value {
      var i :| 0 <= i < |es| && es[i] == r.value;
      forall j | 0 <= j < i && es[j].key == k ensures !Visible(es[j], q) {
        assert es[j] in Content(es);
        KeysAscend(es, j, i);
      }
      assert Shown(es, q, i);
    }
  }

  lemma ShownIsNewest(es: seq<Entry>, q: nat, i: nat)
    requires Run(es) && i < |es| && Shown(es, q, i)
    ensures Newest(Content(es), es[i].key, q) == Some(es[i])
  {
    forall x | x in Content(es) && x.key == es[i].key && x.sn <= q ensures x.sn <= es[i].sn {
      var j :| 0 <= j < |es| && es[j] == x;
      if i < j { KeysAscend(es, i, j); }
    }
    assert Unambiguous(Content(es)) by {
      forall a, b | 0 <= a < b < |es| ensures es[a].key != es[b].key || es[a].sn != es[b].sn { KeysAscend(es, a, b); }
    }
    NewestIs(Content(es), es[i].key, q, es[i]);
  }

  lemma ShownAscend(es: seq<Entry>, q: nat, i: nat, j: nat)
    requires Run(es) && i < j < |es| && Shown(es, q, i) && Shown(es, q, j)
    ensures es[i].key < es[j].key
  {
    KeysAscend(es, i, j);
  }

  /** Prev undoes Next and Next undoes Prev. */
  lemma PrevUndoesNext(es: seq<Entry>, q: nat, c: nat)
    requires c < |es| && Shown(es, q, c)
    ensures var n := FirstShown(es, q, c + 1); LastShown(es, q, n) == c
    ensures var p := LastShown(es, q, c); p < |es| ==> FirstShown(es, q, p + 1) == c
  {
    LastShownIs(es, q, FirstShown(es, q, c + 1), c);
    var p := LastShown(es, q, c);
    if p < |es| { FirstShownIs(es, q, p + 1, c); }
  }

  /** A step and a step back, in either order and whichever way the iterator was moving before, end where they began. */
  method ThereAndBack(it: DBIter, forward: bool) returns (moved: bool)
    requires it.Valid() && it.valid
    modifies it, it.iter, it.iter.it
    ensures it.Valid() && it.valid == moved && (moved ==> it.cur == old(it.cur))
    ensures moved <==> (if forward then FirstShown(it.es, it.q, old(it.cur) + 1) else LastShown(it.es, it.q, old(it.cur))) < |it.es|
  {
    hide FirstShown, LastShown;
    PrevUndoesNext(it.es, it.q, it.cur);
    if forward { it.Next(); } else { it.Prev(); }
    moved := it.valid;
    if moved {
      if forward { it.Prev(); } else { it.Next(); }
    }
  }
}
