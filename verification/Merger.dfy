/**
 The merging iterator: a cursor over several sorted runs at once, moving either way.
 */
module Merger {
  import opened Entries
  import opened Versions

  lemma BeforeOrder(a: Entry, b: Entry, c: Entry)
    ensures Before(a, b) && Before(b, c) ==> Before(a, c)
    ensures Before(a, b) && !Before(c, b) ==> Before(a, c)
    ensures !Before(b, a) && Before(b, c) ==> Before(a, c)
  {
  }

  /** A position in a run: an index, or the run's length when the child is not valid. */
  ghost predicate InBounds(children: seq<seq<Entry>>, pos: seq<nat>) {
    |pos| == |children| && forall i | 0 <= i < |pos| :: pos[i] <= |children[i]|
  }

  ghost predicate Has(children: seq<seq<Entry>>, i: nat, j: nat, x: Entry) {
    i < |children| && j < |children[i]| && children[i][j] == x
  }

  ghost predicate InUnion(children: seq<seq<Entry>>, x: Entry) {
    exists i: nat, j: nat :: Has(children, i, j, x)
  }

  /** Sorted children that share no internal key. */
  ghost predicate ChildrenOk(children: seq<seq<Entry>>) {
    && (forall i | 0 <= i < |children| :: Run(children[i]))
    && (forall i, j, x, i', j', x' | Has(children, i, j, x) && Has(children, i', j', x') && i != i' :: x.key != x'.key || x.sn != x'.sn)
  }

  /** Child i stands at its first entry that is not before `e`. */
  ghost predicate AtOrAfter(run: seq<Entry>, p: nat, e: Entry) {
    && p <= |run|
    && (forall j | 0 <= j < p :: Before(run[j], e))
    && (forall j | p <= j < |run| :: !Before(run[j], e))
  }

  /** Child i stands at its first entry after `e`. */
  ghost predicate After(run: seq<Entry>, p: nat, e: Entry) {
    && p <= |run|
    && (forall j | 0 <= j < p :: !Before(e, run[j]))
    && (forall j | p <= j < |run| :: Before(e, run[j]))
  }

  /** Child i stands at its last entry before `e`, or is invalid because it has none. */
  ghost predicate LastBefore(run: seq<Entry>, p: nat, e: Entry) {
    && p <= |run|
    && (p < |run| ==> forall j | 0 <= j <= p :: Before(run[j], e))
    && (forall j | (if p < |run| then p + 1 else 0) <= j < |run| :: !Before(run[j], e))
  }

  /** x is the first element of the union after `e`; None: there is none. */
  ghost predicate IsNext(children: seq<seq<Entry>>, e: Entry, r: Option<Entry>) {
    match r
    case Some(x) => InUnion(children, x) && Before(e, x) && forall y | InUnion(children, y) && Before(e, y) :: !Before(y, x)
    case None => forall y | InUnion(children, y) :: !Before(e, y)
  }

  ghost predicate IsPrev(children: seq<seq<Entry>>, e: Entry, r: Option<Entry>) {
    match r
    case Some(x) => InUnion(children, x) && Before(x, e) && forall y | InUnion(children, y) && Before(y, e) :: !Before(x, y)
    case None => forall y | InUnion(children, y) :: !Before(y, e)
  }

  /** x is the first element of the union at or after `e`. */
  ghost predicate IsSeek(children: seq<seq<Entry>>, e: Entry, r: Option<Entry>) {
    match r
    case Some(x) => InUnion(children, x) && !Before(x, e) && forall y | InUnion(children, y) && !Before(y, e) :: !Before(y, x)
    case None => forall y | InUnion(children, y) :: Before(y, e)
  }

  /** The child the search ends on: the smallest (or largest) of the valid ones. */
  ghost predicate Smallest(children: seq<seq<Entry>>, pos: seq<nat>, c: Option<nat>)
    requires InBounds(children, pos)
  {
    match c
    case None => forall i | 0 <= i < |pos| :: pos[i] == |children[i]|
    case Some(m) =>
      && m < |pos| && pos[m] < |children[m]|
      && forall i | 0 <= i < |pos| && pos[i] < |children[i]| :: !Before(children[i][pos[i]], children[m][pos[m]])
  }

  ghost predicate Largest(children: seq<seq<Entry>>, pos: seq<nat>, c: Option<nat>)
    requires InBounds(children, pos)
  {
    match c
    case None => forall i | 0 <= i < |pos| :: pos[i] == |children[i]|
    case Some(m) =>
      && m < |pos| && pos[m] < |children[m]|
      && forall i | 0 <= i < |pos| && pos[i] < |children[i]| :: !Before(children[m][pos[m]], children[i][pos[i]])
  }

  class MergingIterator {
    const children: seq<seq<Entry>>
    var pos: seq<nat>
    var current: Option<nat>
    var direction: Direction

    ghost predicate Valid()
      reads this
    {
      && ChildrenOk(children) && InBounds(children, pos)
      && (current.Some? ==> current.value < |pos| && pos[current.value] < |children[current.value]|)
      && (current.Some? && direction.Forward? ==>
            forall i | 0 <= i < |pos| :: AtOrAfter(children[i], pos[i], At()))
      && (current.Some? && direction.Reverse? ==>
            forall i | 0 <= i < |pos| && i != current.value :: LastBefore(children[i], pos[i], At()))
    }

    ghost function At(): Entry
      requires InBounds(children, pos)
      requires current.Some? && current.value < |pos| && pos[current.value] < |children[current.value]|
      reads this
    {
      children[current.value][pos[current.value]]
    }

    /** What the iterator shows. */
    ghost function Shown(): Option<Entry>
      requires Valid()
      reads this
    {
      if current.Some? then Some(At()) else None
    }

    constructor (children: seq<seq<Entry>>)
      requires ChildrenOk(children)
      ensures Valid() && this.children == children && Shown() == None
    {
      this.children := children;
      pos := seq(|children|, i requires 0 <= i < |children| => |children[i]|);
      current, direction := None, Forward;
    }

    method FindSmallest()
      requires InBounds(children, pos)
      modifies this`current
      ensures Smallest(children, pos, current)
    {
      var smallest: Option<nat> := None;
      for i := 0 to |pos|
        invariant match smallest
                  case None => forall j | 0 <= j < i :: pos[j] == |children[j]|
                  case Some(m) =>
                    && m < i && pos[m] < |children[m]|
                    && forall j | 0 <= j < i && pos[j] < |children[j]| :: !Before(children[j][pos[j]], children[m][pos[m]])
      {
        if pos[i] < |children[i]| {
          if smallest.None? {
            smallest := Some(i);
          } else if Before(children[i][pos[i]], children[smallest.value][pos[smallest.value]]) {
            smallest := Some(i);
          }
        }
      }
      current := smallest;
    }

    method FindLargest()
      requires InBounds(children, pos)
      modifies this`current
      ensures Largest(children, pos, current)
    {
      var largest: Option<nat> := None;
      for i := |pos| downto 0
        invariant match largest
                  case None => forall j | i <= j < |pos| :: pos[j] == |children[j]|
                  case Some(m) =>
                    && i <= m < |pos| && pos[m] < |children[m]|
                    && forall j | i <= j < |pos| && pos[j] < |children[j]| :: !Before(children[m][pos[m]], children[j][pos[j]])
      {
        if pos[i] < |children[i]| {
          if largest.None? {
            largest := Some(i);
          } else if Before(children[largest.value][pos[largest.value]], children[i][pos[i]]) {
            largest := Some(i);
          }
        }
      }
      current := largest;
    }

    method SeekToFirst()
      requires Valid()
      modifies this
      ensures Valid() && direction.Forward?
      ensures match Shown()
              case Some(x) => InUnion(children, x) && forall y | InUnion(children, y) :: !Before(y, x)
              case None => forall y :: !InUnion(children, y)
    {
      pos := seq(|children|, i => 0);
      FindSmallest();
      direction := Forward;
      SmallestFirst(children, pos, current);
    }

    method SeekToLast()
      requires Valid()
      modifies this
      ensures Valid()
      ensures match Shown()
              case Some(x) => InUnion(children, x) && forall y | InUnion(children, y) :: !Before(x, y)
              case None => forall y :: !InUnion(children, y)
    {
      pos := seq(|children|, i requires 0 <= i < |children| => if |children[i]| == 0 then 0 else |children[i]| - 1);
      FindLargest();
      direction := Reverse;
      LargestLast(children, pos, current);
    }

    method Seek(target: Entry)
      requires Valid()
      modifies this
      ensures Valid() && IsSeek(children, target, Shown())
    {
      pos := seq(|children|, i requires 0 <= i < |children| => SeekRun(children[i], target.key, target.sn));
      forall i | 0 <= i < |children| ensures AtOrAfter(children[i], pos[i], target) {
        SeekIsAtOrAfter(children[i], target);
      }
      FindSmallest();
      direction := Forward;
      SmallestAfterSeek(children, pos, current, target);
    }

    method Next()
      requires Valid() && current.Some?
      modifies this
      ensures Valid() && IsNext(children, old(At()), Shown())
      ensures direction.Forward?
      ensures old(direction).Forward? ==> pos == old(pos)[old(current).value := old(pos)[old(current).value] + 1]
    {
      ghost var e := At();
      var c := current.value;
      var key := children[c][pos[c]];
      if direction.Reverse? {
        var i := 0;
        while i < |children|
          invariant 0 <= i <= |children| && InBounds(children, pos) && pos[c] == old(pos)[c]
          invariant forall j | 0 <= j < i && j != c :: After(children[j], pos[j], e)
        {
          if i != c {
            var p := SeekRun(children[i], key.key, key.sn);
            if p < |children[i]| && !Before(children[i][p], key) && !Before(key, children[i][p]) {
              p := p + 1;
            }
            SeekIsAfter(children, i, p, c, pos[c]);
            pos := pos[i := p];
          }
          i := i + 1;
        }
        direction := Forward;
      } else {
        forall j | 0 <= j < |children| && j != c ensures After(children[j], pos[j], e) {
          OthersAreAfter(children, j, pos[j], c, pos[c]);
        }
      }
      StepAfter(children[c], pos[c]);
      pos := pos[c := pos[c] + 1];
      FindSmallest();
      SmallestAfterStep(children, pos, current, e);
    }

    method Prev()
      requires Valid() && current.Some?
      modifies this
      ensures Valid() && IsPrev(children, old(At()), Shown())
    {
      ghost var e := At();
      var c := current.value;
      var key := children[c][pos[c]];
      if direction.Forward? {
        var i := 0;
        while i < |children|
          invariant 0 <= i <= |children| && InBounds(children, pos) && pos[c] == old(pos)[c]
          invariant forall j | 0 <= j < i && j != c :: LastBefore(children[j], pos[j], e)
        {
          if i != c {
            var p := SeekRun(children[i], key.key, key.sn);
            SeekIsAtOrAfter(children[i], e);
            if p < |children[i]| {
              p := if p == 0 then |children[i]| else p - 1;
            } else {
              p := if |children[i]| == 0 then 0 else |children[i]| - 1;
            }
            pos := pos[i := p];
          }
          i := i + 1;
        }
        direction := Reverse;
      }
      StepBefore(children[c], pos[c]);
      pos := pos[c := if pos[c] == 0 then |children[c]| else pos[c] - 1];
      FindLargest();
      LargestBefore(children, pos, current, e);
    }
  }

  // ------------------------------------------------------------------ lemmas

  lemma SeekIsAtOrAfter(run: seq<Entry>, e: Entry)
    requires Run(run)
    ensures AtOrAfter(run, SeekRun(run, e.key, e.sn), e)
  {
    var p := SeekRun(run, e.key, e.sn);
    forall j | p <= j < |run| ensures !Before(run[j], e) {
      if p < j { assert Before(run[p], run[j]); }
    }
  }

  lemma StepAfter(run: seq<Entry>, p: nat)
    requires Run(run) && p < |run|
    ensures After(run, p + 1, run[p])
  {
    forall j | p < j < |run| ensures Before(run[p], run[j]) {}
    forall j | 0 <= j < p ensures !Before(run[p], run[j]) { assert Before(run[j], run[p]); }
  }

  lemma StepBefore(run: seq<Entry>, p: nat)
    requires Run(run) && p < |run|
    ensures LastBefore(run, if p == 0 then |run| else p - 1, run[p])
  {
    forall j | p < j < |run| ensures !Before(run[j], run[p]) { assert Before(run[p], run[j]); }
    forall j | 0 <= j < p ensures Before(run[j], run[p]) {}
  }

  /** In another child nothing compares equal to the current entry, so "at or after" is "after". */
  lemma OthersAreAfter(children: seq<seq<Entry>>, i: nat, p: nat, c: nat, pc: nat)
    requires ChildrenOk(children) && i < |children| && c < |children| && i != c && pc < |children[c]|
    requires AtOrAfter(children[i], p, children[c][pc])
    ensures After(children[i], p, children[c][pc])
  {
    forall j | 0 <= j < |children[i]| ensures children[i][j].key != children[c][pc].key || children[i][j].sn != children[c][pc].sn {
      assert Has(children, i, j, children[i][j]) && Has(children, c, pc, children[c][pc]);
    }
  }

  lemma SeekIsAfter(children: seq<seq<Entry>>, i: nat, p: nat, c: nat, pc: nat)
    requires ChildrenOk(children) && i < |children| && c < |children| && i != c && pc < |children[c]|
    requires var e := children[c][pc]; var r := SeekRun(children[i], e.key, e.sn);
             p == if r < |children[i]| && !Before(children[i][r], e) && !Before(e, children[i][r]) then r + 1 else r
    ensures p <= |children[i]| && After(children[i], p, children[c][pc])
  {
    var e := children[c][pc];
    SeekIsAtOrAfter(children[i], e);
    OthersAreAfter(children, i, SeekRun(children[i], e.key, e.sn), c, pc);
  }

  lemma RunTail(run: seq<Entry>, p: nat, j: nat, m: Entry)
    requires Run(run) && p <= j < |run| && !Before(run[p], m)
    ensures !Before(run[j], m)
  {
    if p < j { assert Before(run[p], run[j]); }
  }

  lemma RunHead(run: seq<Entry>, p: nat, j: nat, m: Entry)
    requires Run(run) && j <= p < |run| && !Before(m, run[p])
    ensures !Before(m, run[j])
  {
    if j < p { assert Before(run[j], run[p]); }
  }

  lemma SmallestFirst(children: seq<seq<Entry>>, pos: seq<nat>, c: Option<nat>)
    requires ChildrenOk(children) && InBounds(children, pos) && Smallest(children, pos, c)
    requires forall i | 0 <= i < |pos| :: pos[i] == 0
    ensures c.None? ==> forall y :: !InUnion(children, y)
    ensures c.Some? ==> var x := children[c.value][pos[c.value]];
              && InUnion(children, x) && (forall y | InUnion(children, y) :: !Before(y, x))
              && forall i | 0 <= i < |pos| :: AtOrAfter(children[i], pos[i], x)
  {
    if c.Some? {
      var x := children[c.value][pos[c.value]];
      assert Has(children, c.value, pos[c.value], x);
      forall i, j | 0 <= i < |children| && 0 <= j < |children[i]| ensures !Before(children[i][j], x) {
        RunTail(children[i], pos[i], j, x);
      }
    }
  }

  lemma SmallestAfterSeek(children: seq<seq<Entry>>, pos: seq<nat>, c: Option<nat>, e: Entry)
    requires ChildrenOk(children) && InBounds(children, pos) && Smallest(children, pos, c)
    requires forall i | 0 <= i < |pos| :: AtOrAfter(children[i], pos[i], e)
    ensures IsSeek(children, e, if c.Some? then Some(children[c.value][pos[c.value]]) else None)
    ensures c.Some? ==> forall i | 0 <= i < |pos| :: AtOrAfter(children[i], pos[i], children[c.value][pos[c.value]])
  {
    if c.Some? {
      var x := children[c.value][pos[c.value]];
      assert Has(children, c.value, pos[c.value], x);
      forall i, j | 0 <= i < |children| && 0 <= j < |children[i]|
        ensures if j < pos[i] then Before(children[i][j], x) && Before(children[i][j], e) else !Before(children[i][j], x)
      {
        if j >= pos[i] { RunTail(children[i], pos[i], j, x); } else { BeforeOrder(children[i][j], e, x); }
      }
    }
  }

  lemma SmallestAfterStep(children: seq<seq<Entry>>, pos: seq<nat>, c: Option<nat>, e: Entry)
    requires ChildrenOk(children) && InBounds(children, pos) && Smallest(children, pos, c)
    requires forall i | 0 <= i < |pos| :: After(children[i], pos[i], e)
    ensures IsNext(children, e, if c.Some? then Some(children[c.value][pos[c.value]]) else None)
    ensures c.Some? ==> forall i | 0 <= i < |pos| :: AtOrAfter(children[i], pos[i], children[c.value][pos[c.value]])
  {
    if c.Some? {
      var x := children[c.value][pos[c.value]];
      assert Has(children, c.value, pos[c.value], x);
      forall i, j | 0 <= i < |children| && 0 <= j < |children[i]|
        ensures if j < pos[i] then Before(children[i][j], x) && !Before(e, children[i][j]) else !Before(children[i][j], x)
      {
        if j >= pos[i] { RunTail(children[i], pos[i], j, x); } else { BeforeOrder(children[i][j], e, x); }
      }
    }
  }

  /** The largest of the children's last entries before `e`; the others stand at their last entry before it. */
  lemma LargestBefore(children: seq<seq<Entry>>, pos: seq<nat>, c: Option<nat>, e: Entry)
    requires ChildrenOk(children) && InBounds(children, pos) && Largest(children, pos, c)
    requires forall i | 0 <= i < |pos| :: LastBefore(children[i], pos[i], e)
    ensures IsPrev(children, e, if c.Some? then Some(children[c.value][pos[c.value]]) else None)
    ensures c.Some? ==> forall i | 0 <= i < |pos| && i != c.value :: LastBefore(children[i], pos[i], children[c.value][pos[c.value]])
  {
    if c.Some? {
      var x := children[c.value][pos[c.value]];
      assert Has(children, c.value, pos[c.value], x);
      forall i, j | 0 <= i < |children| && 0 <= j < |children[i]|
        ensures if pos[i] < |children[i]| && j <= pos[i] then !Before(x, children[i][j]) && Before(children[i][j], e)
                else Before(x, children[i][j]) && !Before(children[i][j], e)
      {
        if pos[i] < |children[i]| && j <= pos[i] { RunHead(children[i], pos[i], j, x); } else { BeforeOrder(x, e, children[i][j]); }
      }
      forall i | 0 <= i < |pos| && i != c.value ensures LastBefore(children[i], pos[i], x) {
        StrictlyBefore(children, i, pos[i], c.value, pos[c.value]);
      }
    }
  }

  lemma StrictlyBefore(children: seq<seq<Entry>>, i: nat, p: nat, c: nat, pc: nat)
    requires ChildrenOk(children) && i < |children| && c < |children| && i != c && pc < |children[c]| && p <= |children[i]|
    requires forall j | 0 <= j < |children[i]| ::
               if p < |children[i]| && j <= p then !Before(children[c][pc], children[i][j]) else Before(children[c][pc], children[i][j])
    ensures LastBefore(children[i], p, children[c][pc])
  {
    forall j | 0 <= j < |children[i]| ensures children[i][j].key != children[c][pc].key || children[i][j].sn != children[c][pc].sn {
      assert Has(children, i, j, children[i][j]) && Has(children, c, pc, children[c][pc]);
    }
  }

  lemma LargestLast(children: seq<seq<Entry>>, pos: seq<nat>, c: Option<nat>)
    requires ChildrenOk(children) && InBounds(children, pos) && Largest(children, pos, c)
    requires forall i | 0 <= i < |pos| :: pos[i] == if |children[i]| == 0 then 0 else |children[i]| - 1
    ensures c.None? ==> forall y :: !InUnion(children, y)
    ensures c.Some? ==> var x := children[c.value][pos[c.value]];
              && InUnion(children, x) && (forall y | InUnion(children, y) :: !Before(x, y))
              && forall i | 0 <= i < |pos| && i != c.value :: LastBefore(children[i], pos[i], x)
  {
    if c.Some? {
      var x := children[c.value][pos[c.value]];
      assert Has(children, c.value, pos[c.value], x);
      forall i, j | 0 <= i < |children| && 0 <= j < |children[i]| ensures !Before(x, children[i][j]) {
        RunHead(children[i], pos[i], j, x);
      }
      forall i | 0 <= i < |pos| && i != c.value ensures LastBefore(children[i], pos[i], x) {
        StrictlyBefore(children, i, pos[i], c.value, pos[c.value]);
      }
    }
  }

  lemma RunDistinct(run: seq<Entry>)
    requires Run(run)
    ensures forall i, j | 0 <= i < j < |run| :: run[i].key != run[j].key || run[i].sn != run[j].sn
  {
    forall i, j | 0 <= i < j < |run| ensures run[i].key != run[j].key || run[i].sn != run[j].sn {
      assert Before(run[i], run[j]);
    }
  }

  lemma SamePlace(children: seq<seq<Entry>>, x: Entry, y: Entry)
    requires ChildrenOk(children) && InUnion(children, x) && InUnion(children, y) && x.key == y.key && x.sn == y.sn
    ensures x == y
  {
    var i: nat, j: nat :| Has(children, i, j, x);
    var i': nat, j': nat :| Has(children, i', j', y);
    RunDistinct(children[i]);
  }

  /** Prev undoes Next, whichever way the iterator was moving. */
  lemma PrevUndoesNext(children: seq<seq<Entry>>, e: Entry, x: Entry, r: Option<Entry>)
    requires ChildrenOk(children) && InUnion(children, e) && IsNext(children, e, Some(x)) && IsPrev(children, x, r)
    ensures r == Some(e)
  {
    BeforeOrder(e, r.value, x);
    SamePlace(children, e, r.value);
  }

  lemma NextUndoesPrev(children: seq<seq<Entry>>, e: Entry, x: Entry, r: Option<Entry>)
    requires ChildrenOk(children) && InUnion(children, e) && IsPrev(children, e, Some(x)) && IsNext(children, x, r)
    ensures r == Some(e)
  {
    BeforeOrder(x, r.value, e);
    SamePlace(children, e, r.value);
  }

  /** A step and a step back, in either order and whichever way the iterator was moving before, end where they began. */
  method ThereAndBack(it: MergingIterator, forward: bool) returns (moved: bool)
    requires it.Valid() && it.current.Some?
    modifies it
    ensures it.Valid() && it.current.Some? == moved && (moved ==> it.At() == old(it.At()))
  {
    hide IsNext, IsPrev, ChildrenOk;
    ghost var e := it.At();
    assert InUnion(it.children, e) by { assert Has(it.children, it.current.value, it.pos[it.current.value], e); }
    if forward { it.Next(); } else { it.Prev(); }
    moved := it.current.Some?;
    if moved {
      ghost var x := it.At();
      if forward {
        it.Prev();
        PrevUndoesNext(it.children, e, x, it.Shown());
      } else {
        it.Next();
        NextUndoesPrev(it.children, e, x, it.Shown());
      }
    }
  }

  // ------------------------------------------------------------ a whole walk

  function Remaining(children: seq<seq<Entry>>, pos: seq<nat>): nat
    requires |pos| == |children| && forall i | 0 <= i < |pos| :: pos[i] <= |children[i]|
  {
    if pos == [] then 0 else |children[0]| - pos[0] + Remaining(children[1..], pos[1..])
  }

  lemma {:induction false} RemainingShrinks(children: seq<seq<Entry>>, pos: seq<nat>, c: nat)
    requires InBounds(children, pos) && c < |pos| && pos[c] < |children[c]|
    ensures Remaining(children, pos[c := pos[c] + 1]) < Remaining(children, pos)
  {
    if c > 0 {
      assert pos[c := pos[c] + 1][1..] == pos[1..][c - 1 := pos[1..][c - 1] + 1];
      RemainingShrinks(children[1..], pos[1..], c - 1);
    } else {
      assert pos[0 := pos[0] + 1][1..] == pos[1..];
    }
  }

  /** The entries before `at` (or all of them) have been walked, in order. */
  ghost predicate Walked(children: seq<seq<Entry>>, out: seq<Entry>, at: Option<Entry>) {
    && Run(out)
    && forall y :: y in out <==> InUnion(children, y) && (at.Some? ==> Before(y, at.value))
  }

  /** Appending the current entry and stepping keeps the walk exact. */
  lemma WalkStep(children: seq<seq<Entry>>, out: seq<Entry>, e: Entry, next: Option<Entry>)
    requires ChildrenOk(children) && InUnion(children, e) && Walked(children, out, Some(e)) && IsNext(children, e, next)
    ensures Walked(children, out + [e], next)
  {
    var out' := out + [e];
    forall i, j | 0 <= i < j < |out'| ensures Before(out'[i], out'[j]) {
      if j == |out| { assert out[i] in out; } else { assert Before(out[i], out[j]); }
    }
    forall y ensures y in out' <==> InUnion(children, y) && (next.Some? ==> Before(y, next.value)) {
      if y in out && next.Some? { BeforeOrder(y, e, next.value); }
      if InUnion(children, y) && !Before(y, e) && !Before(e, y) { SamePlace(children, y, e); }
      if InUnion(children, y) && Before(e, y) && next.Some? { assert !Before(y, next.value); }
    }
  }

  /** The input of a compaction: the merged walk over its files is one sorted run holding exactly their entries. */
  method MergeAll(children: seq<seq<Entry>>) returns (out: seq<Entry>)
    requires ChildrenOk(children)
    ensures Run(out) && forall y :: y in out <==> InUnion(children, y)
  {
    var it := new MergingIterator(children);
    it.SeekToFirst();
    out := [];
    while it.current.Some?
      invariant it.Valid() && it.children == children && it.direction.Forward?
      invariant it.current.Some? ==> InUnion(children, it.At())
      invariant Walked(children, out, it.Shown())
      decreases Remaining(children, it.pos)
    {
      var c := it.current.value;
      var e := children[c][it.pos[c]];
      ghost var before := it.pos;
      RemainingShrinks(children, it.pos, c);
      it.Next();
      WalkStep(children, out, e, it.Shown());
      out := out + [e];
    }
  }
}
