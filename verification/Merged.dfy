/**
 The internal iterator of a database: a merging iterator over the memtables and files,
 seen as a position in the one sorted run that holds all their entries.
 */
module MergedRuns {
  import opened Entries
  import opened Versions
  import opened Merger

  /** `es` is the sorted run of all entries of the children. */
  ghost predicate IsMerge(children: seq<seq<Entry>>, es: seq<Entry>) {
    Run(es) && forall y :: y in es <==> InUnion(children, y)
  }

  ghost function EntryAt(es: seq<Entry>, p: nat): Option<Entry> {
    if p < |es| then Some(es[p]) else None
  }

  lemma Ordered(es: seq<Entry>, i: nat, j: nat)
    requires Run(es) && i < |es| && j < |es|
    ensures Before(es[i], es[j]) <==> i < j
  {
    if i < j { assert Before(es[i], es[j]); }
    if j < i { assert Before(es[j], es[i]); }
  }

  lemma NextIsIndex(children: seq<seq<Entry>>, es: seq<Entry>, p: nat, r: Option<Entry>)
    requires IsMerge(children, es) && p < |es| && IsNext(children, es[p], r)
    ensures r == EntryAt(es, p + 1)
  {
    hide InUnion, Run;
    if p + 1 < |es| {
      assert es[p + 1] in es;
      Ordered(es, p, p + 1);
    }
    if r.Some? {
      assert r.value in es;
      var j :| 0 <= j < |es| && es[j] == r.value;
      Ordered(es, p, j);
      Ordered(es, p + 1, j);
    }
  }

  lemma PrevIsIndex(children: seq<seq<Entry>>, es: seq<Entry>, p: nat, r: Option<Entry>)
    requires IsMerge(children, es) && p < |es| && IsPrev(children, es[p], r)
    ensures r == EntryAt(es, if p == 0 then |es| else p - 1)
  {
    hide InUnion, Run;
    if p > 0 {
      assert es[p - 1] in es;
      Ordered(es, p - 1, p);
    }
    if r.Some? {
      assert r.value in es;
      var j :| 0 <= j < |es| && es[j] == r.value;
      Ordered(es, j, p);
      Ordered(es, j, p - 1);
    }
  }

  lemma SeekIsIndex(children: seq<seq<Entry>>, es: seq<Entry>, target: Entry, r: Option<Entry>)
    requires IsMerge(children, es) && IsSeek(children, target, r)
    ensures r == EntryAt(es, SeekRun(es, target.key, target.sn))
  {
    hide InUnion, Run, SeekRun;
    var p := SeekRun(es, target.key, target.sn);
    if p < |es| { assert es[p] in es; }
    if r.Some? {
      assert r.value in es;
      var j :| 0 <= j < |es| && es[j] == r.value;
      Ordered(es, p, j);
    }
  }

  lemma FirstIsIndex(children: seq<seq<Entry>>, es: seq<Entry>, x: Entry)
    requires IsMerge(children, es) && InUnion(children, x) && forall y | InUnion(children, y) :: !Before(y, x)
    ensures EntryAt(es, 0) == Some(x)
  {
    hide InUnion, Run;
    var j :| 0 <= j < |es| && es[j] == x;
    assert es[0] in es;
    Ordered(es, 0, j);
  }

  lemma LastIsIndex(children: seq<seq<Entry>>, es: seq<Entry>, x: Entry)
    requires IsMerge(children, es) && InUnion(children, x) && forall y | InUnion(children, y) :: !Before(x, y)
    ensures es != [] && EntryAt(es, |es| - 1) == Some(x)
  {
    hide InUnion, Run;
    var j :| 0 <= j < |es| && es[j] == x;
    assert es[|es| - 1] in es;
    Ordered(es, j, |es| - 1);
  }

  lemma NoneIsEmpty(children: seq<seq<Entry>>, es: seq<Entry>)
    requires IsMerge(children, es) && forall y :: !InUnion(children, y)
    ensures es == []
  {
    hide InUnion, Run;
    if es != [] { HasFirst(es); }
  }

  lemma HasFirst(es: seq<Entry>)
    requires es != []
    ensures es[0] in es
  {
  }

  class InternalIterator {
    const it: MergingIterator
    ghost const es: seq<Entry>
    ghost var pos: nat     // |es| when the iterator is not valid

    ghost predicate Valid()
      reads this, it
    {
      it.Valid() && IsMerge(it.children, es) && pos <= |es| && it.Shown() == EntryAt(es, pos)
    }

    constructor (children: seq<seq<Entry>>, ghost es: seq<Entry>)
      requires ChildrenOk(children) && IsMerge(children, es)
      ensures Valid() && fresh(it) && this.es == es && pos == |es| && it.children == children
    {
      it := new MergingIterator(children);
      this.es, pos := es, |es|;
    }

    predicate IsValid()
      requires Valid()
      reads this, it
      ensures IsValid() <==> pos < |es|
    {
      it.current.Some?
    }

    function Current(): (e: Entry)
      requires Valid() && pos < |es|
      reads this, it
      ensures e == es[pos]
    {
      it.children[it.current.value][it.pos[it.current.value]]
    }

    method Next()
      requires Valid() && pos < |es|
      modifies this, it
      ensures Valid() && pos == old(pos) + 1
    {
      hide ChildrenOk, IsMerge, IsNext;
      it.Next();
      NextIsIndex(it.children, es, pos, it.Shown());
      pos := pos + 1;
    }

    method Prev()
      requires Valid() && pos < |es|
      modifies this, it
      ensures Valid() && pos == if old(pos) == 0 then |es| else old(pos) - 1
    {
      hide ChildrenOk, IsMerge, IsPrev;
      it.Prev();
      PrevIsIndex(it.children, es, pos, it.Shown());
      pos := if pos == 0 then |es| else pos - 1;
    }

    method Seek(k: Key, q: SeqNo)
      requires Valid()
      modifies this, it
      ensures Valid() && pos == SeekRun(es, k, q)
    {
      hide ChildrenOk, IsMerge, IsSeek;
      it.Seek(Entry(k, q, Value, []));
      SeekIsIndex(it.children, es, Entry(k, q, Value, []), it.Shown());
      pos := SeekRun(es, k, q);
    }

    method SeekToFirst()
      requires Valid()
      modifies this, it
      ensures Valid() && pos == 0
    {
      hide ChildrenOk, IsMerge;
      it.SeekToFirst();
      if it.Shown().Some? { FirstIsIndex(it.children, es, it.Shown().value); } else { NoneIsEmpty(it.children, es); }
      pos := 0;
    }

    method SeekToLast()
      requires Valid()
      modifies this, it
      ensures Valid() && pos == if es == [] then 0 else |es| - 1
    {
      hide ChildrenOk, IsMerge;
      it.SeekToLast();
      if it.Shown().Some? { LastIsIndex(it.children, es, it.Shown().value); } else { NoneIsEmpty(it.children, es); }
      pos := if es == [] then 0 else |es| - 1;
    }
  }
}
