/**
 One shard of the LRU cache: entries on a circular doubly linked list in order of use,
 found through the hash table, and freed when their last reference goes. Entries are
 numbered as they are allocated; 0 is the list's dummy head.
 */
module LruCaches {
  import opened Entries
  import opened HandleTables

  datatype Handle = Handle(key: Bytes, hash: nat, value: Bytes, charge: nat, refs: nat)

  // -------------------------------------------------------------- the list

  ghost predicate Distinct(s: seq<nat>) {
    (forall i | 0 <= i < |s| :: s[i] != 0) && (forall i, j | 0 <= i < j < |s| :: s[i] != s[j])
  }

  /** The i-th element of the ring: the dummy head on either side of the list. */
  function At(s: seq<nat>, i: int): nat {
    if 1 <= i <= |s| then s[i - 1] else 0
  }

  predicate Joined(next: map<nat, nat>, prev: map<nat, nat>, a: nat, b: nat) {
    a in next && next[a] == b && b in prev && prev[b] == a
  }

  ghost predicate Linked(next: map<nat, nat>, prev: map<nat, nat>, s: seq<nat>) {
    forall i | 0 <= i <= |s| :: Joined(next, prev, At(s, i), At(s, i + 1))
  }

  function Without(s: seq<nat>, x: nat): seq<nat> {
    if s == [] then [] else if s[0] == x then s[1..] else [s[0]] + Without(s[1..], x)
  }

  lemma {:induction false} WithoutAt(s: seq<nat>, k: nat)
    requires Distinct(s) && k < |s|
    ensures Without(s, s[k]) == s[..k] + s[k + 1..]
  {
    if k > 0 {
      var t := s[1..];
      assert Distinct(t) && t[k - 1] == s[k] != s[0];
      WithoutAt(t, k - 1);
      assert t[..k - 1] == s[1..k] && t[k..] == s[k + 1..];
      assert [s[0]] + (s[1..k] + s[k + 1..]) == s[..k] + s[k + 1..];
    }
  }

  lemma {:induction false} WithoutMembers(s: seq<nat>, x: nat)
    requires Distinct(s)
    ensures Distinct(Without(s, x)) && forall y :: y in Without(s, x) <==> y in s && y != x
  {
    if s != [] {
      assert forall y :: y in s <==> y == s[0] || y in s[1..];
      assert Distinct(s[1..]);
      if s[0] == x {
        assert x !in s[1..];
      } else {
        WithoutMembers(s[1..], x);
        var w := Without(s[1..], x);
        forall j | 0 <= j < |w| ensures w[j] != s[0] && w[j] != 0 {
          assert w[j] in w && w[j] in s[1..];
        }
      }
    }
  }

  lemma AtDistinct(s: seq<nat>, i: int, j: int)
    requires Distinct(s) && 0 <= i < j <= |s|
    ensures At(s, i) != At(s, j) && At(s, j) != 0
  {
  }

  lemma RemoveLinked(next: map<nat, nat>, prev: map<nat, nat>, s: seq<nat>, k: nat)
    requires Linked(next, prev, s) && Distinct(s) && k < |s|
    ensures s[k] in next && s[k] in prev
    ensures
      var p, q := prev[s[k]], next[s[k]];
      Linked(next[p := q], prev[q := p], s[..k] + s[k + 1..])
  {
    var t := s[..k] + s[k + 1..];
    assert Joined(next, prev, At(s, k), At(s, k + 1)) && Joined(next, prev, At(s, k + 1), At(s, k + 2));
    var p, q := At(s, k), At(s, k + 2);
    assert prev[s[k]] == p && next[s[k]] == q;
    forall i | 0 <= i <= |t| ensures Joined(next[p := q], prev[q := p], At(t, i), At(t, i + 1)) {
      if i < k {
        assert At(t, i) == At(s, i) && At(t, i + 1) == At(s, i + 1);
        assert Joined(next, prev, At(s, i), At(s, i + 1));
        AtDistinct(s, i, k);
        if k + 2 <= |s| { AtDistinct(s, i + 1, k + 2); } else { AtDistinct(s, 0, i + 1); }
      } else if i > k {
        assert At(t, i) == At(s, i + 1) && At(t, i + 1) == At(s, i + 2);
        assert Joined(next, prev, At(s, i + 1), At(s, i + 2));
        AtDistinct(s, k, i + 1);
        if i + 2 <= |s| { AtDistinct(s, k + 2, i + 2); } else { AtDistinct(s, 0, k + 2); }
      } else {
        assert At(t, i) == p && At(t, i + 1) == q;
      }
    }
  }

  lemma AppendLinked(next: map<nat, nat>, prev: map<nat, nat>, s: seq<nat>, e: nat)
    requires Linked(next, prev, s) && Distinct(s) && e != 0 && e !in s
    ensures 0 in prev && Distinct(s + [e])
    ensures
      var last := prev[0];
      Linked(next[e := 0][last := e], prev[e := last][0 := e], s + [e])
  {
    var n, t := |s|, s + [e];
    assert Joined(next, prev, At(s, n), At(s, n + 1));
    var last := prev[0];
    var next', prev' := next[e := 0][last := e], prev[e := last][0 := e];
    forall i | 0 <= i <= |t| ensures Joined(next', prev', At(t, i), At(t, i + 1)) {
      if i < n {
        assert At(t, i) == At(s, i) && At(t, i + 1) == At(s, i + 1);
        assert Joined(next, prev, At(s, i), At(s, i + 1));
        AtDistinct(s, i, n);
        AtDistinct(s, 0, i + 1);
        assert s[i] in s;
      } else if i == n {
        assert At(t, i) == last && At(t, i + 1) == e;
      } else {
        assert At(t, i) == e && At(t, i + 1) == 0;
        assert n > 0 ==> s[n - 1] in s;
      }
    }
  }

  // -------------------------------------------------------------- the accounts

  /** Total charge of the live entries numbered below n. */
  function Sum(es: map<nat, Handle>, n: nat): nat
    decreases n, es
  {
    if n == 0 then 0 else Sum(es, n - 1) + if n - 1 in es then es[n - 1].charge else 0
  }

  lemma {:induction false} SumChange(a: map<nat, Handle>, b: map<nat, Handle>, e: nat, n: nat)
    requires forall id | id != e :: id in a <==> id in b
    requires forall id | id != e && id in a :: a[id].charge == b[id].charge
    ensures Sum(b, n) + (if e < n && e in a then a[e].charge else 0)
         == Sum(a, n) + (if e < n && e in b then b[e].charge else 0)
    decreases n
  {
    if n > 0 {
      SumChange(a, b, e, n - 1);
    }
  }

  datatype Books = Books(
    entries: map<nat, Handle>, lru: seq<nat>, held: multiset<nat>, usage: nat, deleted: seq<nat>, limit: nat)

  /** Each live entry's count is its place on the list, its outstanding handles and the references the
      running operation has taken over (`extra`); usage is the live charge; each dead entry was deleted once. */
  ghost predicate Balanced(x: Books, extra: multiset<nat>) {
    && Distinct(x.lru) && (forall id | id in x.lru :: id in x.entries)
    && (forall id | id in x.entries :: 0 < id < x.limit && Counted(x, extra, id))
    && (forall id | id in x.held || id in extra :: id in x.entries)
    && x.usage == Sum(x.entries, x.limit)
    && (forall id: nat :: multiset(x.deleted)[id] == if 0 < id < x.limit && id !in x.entries then 1 else 0)
  }

  ghost predicate Counted(x: Books, extra: multiset<nat>, id: nat)
    requires id in x.entries
  {
    x.entries[id].refs == (if id in x.lru then 1 else 0) + x.held[id] + extra[id] && x.entries[id].refs > 0
  }

  function NodeOf(id: nat, h: Handle): Node {
    Node(id, h.hash, h.key)
  }

  /** The table holds the entries on the list and no others. */
  ghost predicate InSync(x: Books, list: seq<seq<Node>>) {
    forall n :: Held(list, n) <==> n.id in x.lru && n.id in x.entries && n == NodeOf(n.id, x.entries[n.id])
  }

  /** Unref: one reference fewer, and the entry freed when that was the last. */
  function Dropped(x: Books, e: nat): (r: Books)
    requires e in x.entries && x.entries[e].refs > 0
    requires x.entries[e].refs == 1 ==> x.entries[e].charge <= x.usage
  {
    var h := x.entries[e];
    if h.refs == 1 then
      x.(entries := x.entries - {e}, usage := x.usage - h.charge, deleted := x.deleted + [e])
    else x.(entries := x.entries[e := h.(refs := h.refs - 1)])
  }

  lemma {:induction false} SumHolds(es: map<nat, Handle>, e: nat, n: nat)
    requires e in es && e < n
    ensures es[e].charge <= Sum(es, n)
    decreases n
  {
    if e < n - 1 {
      SumHolds(es, e, n - 1);
    }
  }

  lemma DroppedBalanced(x: Books, extra: multiset<nat>, e: nat)
    requires Balanced(x, extra) && e in extra
    ensures e in x.entries && x.entries[e].refs > 0 && x.entries[e].charge <= x.usage
    ensures Balanced(Dropped(x, e), extra - multiset{e})
  {
    assert Counted(x, extra, e);
    SumHolds(x.entries, e, x.limit);
    var r, less := Dropped(x, e), extra - multiset{e};
    SumChange(x.entries, r.entries, e, x.limit);
    forall id | id in r.entries ensures 0 < id < r.limit && Counted(r, less, id) {
      assert Counted(x, extra, id);
    }
    if x.entries[e].refs == 1 {
      assert e !in x.lru && e !in x.held && e !in less;
      forall id: nat ensures multiset(r.deleted)[id] == if 0 < id < r.limit && id !in r.entries then 1 else 0 {
        assert multiset(r.deleted) == multiset(x.deleted) + multiset{e};
      }
    }
  }

  lemma DroppedInSync(x: Books, extra: multiset<nat>, e: nat, list: seq<seq<Node>>)
    requires Balanced(x, extra) && e in extra && InSync(x, list)
    ensures e in x.entries && x.entries[e].refs > 0 && x.entries[e].charge <= x.usage
    ensures InSync(Dropped(x, e), list)
  {
    hide Held, Sum;
    DroppedBalanced(x, extra, e);
    assert Counted(x, extra, e);
  }

  /** Off the list, an entry's place there becomes a reference to be dropped. */
  lemma Detached(x: Books, o: nat)
    requires Balanced(x, multiset{}) && o in x.lru
    ensures Balanced(x.(lru := Without(x.lru, o)), multiset{o})
  {
    hide Sum;
    WithoutMembers(x.lru, o);
    var y := x.(lru := Without(x.lru, o));
    forall id | id in y.entries ensures Counted(y, multiset{o}, id) {
      assert Counted(x, multiset{}, id);
    }
  }

  /** The table has let go of entry `o`, which is still on the list. */
  ghost predicate AllBut(x: Books, list: seq<seq<Node>>, o: nat) {
    forall n :: Held(list, n) <==> n.id in x.lru && n.id in x.entries && n == NodeOf(n.id, x.entries[n.id]) && n.id != o
  }

  lemma LetGo(x: Books, o: nat, list: seq<seq<Node>>, list': seq<seq<Node>>)
    requires o in x.entries && InSync(x, list)
    requires forall n :: Held(list', n) <==> Held(list, n) && n != NodeOf(o, x.entries[o])
    ensures AllBut(x, list', o)
  {
    hide Held;
  }

  lemma DetachedInSync(x: Books, o: nat, list: seq<seq<Node>>)
    requires Distinct(x.lru) && AllBut(x, list, o)
    ensures InSync(x.(lru := Without(x.lru, o)), list)
  {
    hide Held;
    WithoutMembers(x.lru, o);
  }

  /** A lookup: one handle more, and the entry newest. */
  function Touched(x: Books, e: nat): Books
    requires e in x.entries
  {
    x.(entries := x.entries[e := x.entries[e].(refs := x.entries[e].refs + 1)],
       lru := Without(x.lru, e) + [e],
       held := x.held + multiset{e})
  }

  lemma TouchedBalanced(x: Books, e: nat, list: seq<seq<Node>>)
    requires Balanced(x, multiset{}) && e in x.lru && InSync(x, list)
    ensures Balanced(Touched(x, e), multiset{}) && InSync(Touched(x, e), list)
  {
    hide Held;
    WithoutMembers(x.lru, e);
    var y := Touched(x, e);
    SumChange(x.entries, y.entries, e, x.limit);
    assert Counted(x, multiset{}, e);
    forall id | id in y.entries ensures Counted(y, multiset{}, id) {
      assert Counted(x, multiset{}, id);
    }
  }

  /** A new entry, newest on the list and with one handle out. */
  function Added(x: Books, h: Handle): Books {
    x.(entries := x.entries[x.limit := h], lru := x.lru + [x.limit], held := x.held + multiset{x.limit},
       usage := x.usage + h.charge, limit := x.limit + 1)
  }

  lemma AddedBalanced(x: Books, h: Handle)
    requires Balanced(x, multiset{}) && h.refs == 2 && x.limit > 0
    ensures Balanced(Added(x, h), multiset{})
  {
    var y := Added(x, h);
    SumChange(x.entries, y.entries, x.limit, x.limit);
    forall id | id in y.entries ensures 0 < id < y.limit && Counted(y, multiset{}, id) {
      if id in x.entries { assert Counted(x, multiset{}, id); }
    }
    forall id: nat ensures multiset(y.deleted)[id] == if 0 < id < y.limit && id !in y.entries then 1 else 0 {
    }
  }

  /** Inserting into the table what was just added, in the place of `out` if that had the same key. */
  lemma AddedInSync(x: Books, h: Handle, list: seq<seq<Node>>, list': seq<seq<Node>>, out: Option<Node>)
    requires Balanced(x, multiset{}) && InSync(x, list) && (out.Some? ==> Held(list, out.value))
    requires forall n :: Held(list', n) <==> n == NodeOf(x.limit, h) || (Held(list, n) && out != Some(n))
    ensures out.None? ==> InSync(Added(x, h), list')
    ensures out.Some? ==>
      && out.value.id in x.lru && out.value.id in x.entries && out.value == NodeOf(out.value.id, x.entries[out.value.id])
      && out.value.id != x.limit && AllBut(Added(x, h), list', out.value.id)
  {
    hide Held, Sum;
  }

  /** From x to y: every entry kept its key, value and charge; live are those on the list or with a handle out;
      and what is in use is what they are charged. */
  ghost predicate Follows(x: Books, y: Books) {
    && (forall id | id in x.entries && id in y.entries :: y.entries[id] == x.entries[id].(refs := y.entries[id].refs))
    && (forall id :: id in y.entries <==> id in y.lru || id in y.held)
    && y.usage == Sum(y.entries, y.limit)
  }

  /** Of the entries taken off the list, in this order, the ones nobody holds are freed. */
  ghost function Freed(off: seq<nat>, held: multiset<nat>): seq<nat> {
    if off == [] then [] else
    var o := off[|off| - 1];
    Freed(off[..|off| - 1], held) + if o in held then [] else [o]
  }

  lemma FreedMore(off: seq<nat>, o: nat, held: multiset<nat>)
    ensures Freed(off + [o], held) == Freed(off, held) + if o in held then [] else [o]
  {
    assert (off + [o])[..|off|] == off;
  }

  lemma OffNone(lru: seq<nat>, replaced: Option<nat>, e: nat)
    ensures Off(lru, replaced, e, 0) == if replaced.Some? then [replaced.value] else []
  {
  }

  lemma OffMore(lru: seq<nat>, replaced: Option<nat>, e: nat, k: nat, held: multiset<nat>)
    requires k < |OnBase(lru, replaced, e)|
    ensures var o := OnBase(lru, replaced, e)[k];
            Freed(Off(lru, replaced, e, k + 1), held) == Freed(Off(lru, replaced, e, k), held) + if o in held then [] else [o]
  {
    var base := OnBase(lru, replaced, e);
    assert Off(lru, replaced, e, k + 1) == Off(lru, replaced, e, k) + [base[k]];
    FreedMore(Off(lru, replaced, e, k), base[k], held);
  }

  lemma LiveOnes(x: Books)
    requires Balanced(x, multiset{})
    ensures (forall id :: id in x.entries <==> id in x.lru || id in x.held) && x.usage == Sum(x.entries, x.limit)
  {
    hide Sum;
    forall id | id in x.entries ensures id in x.lru || id in x.held { assert Counted(x, multiset{}, id); }
  }

  /** A detached entry goes when nobody else holds it. */
  lemma GoesIf(x: Books, o: nat)
    requires Balanced(x, multiset{o}) && o !in x.lru
    ensures o in x.entries && (x.entries[o].refs == 1 <==> o !in x.held)
  {
    hide Sum;
    assert Counted(x, multiset{o}, o);
  }

  // -------------------------------------------------------------- how much is in use

  /** What stays of the entries when `off` are taken off the list: a client's handle keeps an entry alive. */
  function Staying(es: map<nat, Handle>, off: seq<nat>, held: multiset<nat>): map<nat, Handle> {
    map id | id in es && (id in off ==> id in held) :: es[id]
  }

  /** The entries some client holds. */
  function HeldOnes(es: map<nat, Handle>, held: multiset<nat>): map<nat, Handle> {
    map id | id in es && id in held :: es[id]
  }

  lemma {:induction false} SumAtMost(a: map<nat, Handle>, b: map<nat, Handle>, n: nat)
    requires forall id | id in a :: id in b && a[id].charge == b[id].charge
    ensures Sum(a, n) <= Sum(b, n)
    decreases n
  {
    if n > 0 { SumAtMost(a, b, n - 1); }
  }

  /** The charge in use once `off` are off the list, if the list and the handles are now as they are in y. */
  lemma InUse(x: Books, y: Books, e: nat, h: Handle, off: seq<nat>)
    requires Balanced(x, multiset{}) && Balanced(y, multiset{}) && y.held == x.held + multiset{e}
    requires e == x.limit && y.limit == x.limit + 1 && e in y.entries && y.entries[e].charge == h.charge
    requires forall id | id in y.entries && id in x.entries :: y.entries[id].charge == x.entries[id].charge
    requires forall id :: id in y.lru <==> (id in x.lru || id == e) && id !in off
    ensures y.usage == Sum(Staying(x.entries[e := h], off, y.held), y.limit)
  {
    hide Sum;
    LiveOnes(x);
    LiveOnes(y);
    var stay := Staying(x.entries[e := h], off, y.held);
    forall id | id in stay ensures id in y.entries && stay[id].charge == y.entries[id].charge {}
    forall id | id in y.entries ensures id in stay {}
    SumAtMost(stay, y.entries, y.limit);
    SumAtMost(y.entries, stay, y.limit);
  }

  function OnBase(lru: seq<nat>, replaced: Option<nat>, e: nat): seq<nat> {
    (if replaced.Some? then Without(lru, replaced.value) else lru) + [e]
  }

  /** The entries gone from the list after the replaced one and the k oldest are. */
  function Off(lru: seq<nat>, replaced: Option<nat>, e: nat, k: nat): seq<nat>
    requires k <= |OnBase(lru, replaced, e)|
  {
    (if replaced.Some? then [replaced.value] else []) + OnBase(lru, replaced, e)[..k]
  }

  /** The charge in use when they are. */
  function ChargeLeft(x: Books, replaced: Option<nat>, h: Handle, k: nat): nat
    requires k <= |OnBase(x.lru, replaced, x.limit)|
  {
    Sum(Staying(x.entries[x.limit := h], Off(x.lru, replaced, x.limit, k), x.held + multiset{x.limit}), x.limit + 1)
  }

  lemma OffOrOn(lru: seq<nat>, replaced: Option<nat>, e: nat, k: nat)
    requires Distinct(lru) && e !in lru && e != 0 && (replaced.Some? ==> replaced.value in lru) && k <= |OnBase(lru, replaced, e)|
    ensures forall id :: id in OnBase(lru, replaced, e)[k..] <==> (id in lru || id == e) && id !in Off(lru, replaced, e, k)
  {
    var base := OnBase(lru, replaced, e);
    if replaced.Some? { WithoutMembers(lru, replaced.value); }
    assert Distinct(base);
    assert base == base[..k] + base[k..];
    forall id ensures id in base[k..] <==> id in base && id !in base[..k] {}
    forall id ensures id in base <==> (id in lru || id == e) && replaced != Some(id) {}
  }

  /** From x to y, the entry `h` was allocated and handed out; every other entry kept its key, value and charge. */
  ghost predicate Since(x: Books, y: Books, h: Handle) {
    && y.held == x.held + multiset{x.limit} && y.limit == x.limit + 1
    && x.limit in y.entries && y.entries[x.limit] == h.(refs := y.entries[x.limit].refs)
    && (forall id | id in y.entries && id in x.entries :: y.entries[id] == x.entries[id].(refs := y.entries[id].refs))
  }

  lemma SinceMore(x: Books, y: Books, z: Books, h: Handle)
    requires Since(x, y, h) && Balanced(z, multiset{}) && z.held == y.held && z.limit == y.limit
    requires forall id | id in z.entries :: id in y.entries && z.entries[id] == y.entries[id].(refs := z.entries[id].refs)
    ensures Since(x, z, h)
  {
    hide Sum;
    HandleKept(z, x.limit);
  }

  lemma ChargeIs(x: Books, y: Books, replaced: Option<nat>, h: Handle, k: nat)
    requires Balanced(x, multiset{}) && Balanced(y, multiset{}) && Since(x, y, h) && x.limit > 0
    requires replaced.Some? ==> replaced.value in x.lru
    requires k <= |OnBase(x.lru, replaced, x.limit)| && y.lru == OnBase(x.lru, replaced, x.limit)[k..]
    ensures y.usage == ChargeLeft(x, replaced, h, k)
  {
    hide Sum, OnBase, Off;
    NewNumber(x);
    OffOrOn(x.lru, replaced, x.limit, k);
    InUse(x, y, x.limit, h, Off(x.lru, replaced, x.limit, k));
  }

  /** With all but the new entry off the list, in use is what clients hold and the new entry. */
  lemma AllOff(x: Books, replaced: Option<nat>, h: Handle)
    requires Balanced(x, multiset{}) && x.limit > 0 && (replaced.Some? ==> replaced.value in x.lru)
    ensures var n := |OnBase(x.lru, replaced, x.limit)|;
            n > 0 && ChargeLeft(x, replaced, h, n - 1) == Sum(HeldOnes(x.entries, x.held), x.limit) + h.charge
  {
    var e, base := x.limit, OnBase(x.lru, replaced, x.limit);
    var n := |base|;
    NewNumber(x);
    LiveOnes(x);
    OffOrOn(x.lru, replaced, e, n - 1);
    var off, held := Off(x.lru, replaced, e, n - 1), x.held + multiset{e};
    assert base[n - 1..] == [e];
    var stay, mine := Staying(x.entries[e := h], off, held), HeldOnes(x.entries, x.held);
    forall id ensures id in stay <==> id in mine || id == e {
      if id in x.lru && id !in x.held { assert id !in base[n - 1..] && id in off; }
    }
    SumChange(mine, stay, e, e);
    assert Sum(stay, e + 1) == Sum(stay, e) + h.charge;
  }

  lemma HeldAtMost(x: Books)
    requires Balanced(x, multiset{})
    ensures Sum(HeldOnes(x.entries, x.held), x.limit) <= x.usage
  {
    SumAtMost(HeldOnes(x.entries, x.held), x.entries, x.limit);
  }

  // -------------------------------------------------------------- the cache

  class LRUCache {
    const capacity: nat
    const table: HandleTable
    var entries: map<nat, Handle>
    var next: map<nat, nat>
    var prev: map<nat, nat>
    var usage: nat
    var deleted: seq<nat> // deleter calls, in order
    var limit: nat        // next entry to be allocated
    ghost var lru: seq<nat>       // oldest first
    ghost var held: multiset<nat> // handles given out and not released

    ghost function View(): Books
      reads this
    {
      Books(entries, lru, held, usage, deleted, limit)
    }

    ghost predicate Valid()
      reads this, table
    {
      && table.Valid() && Linked(next, prev, lru) && limit > 0
      && Balanced(View(), multiset{}) && InSync(View(), table.list)
    }

    constructor (capacity: nat)
      ensures Valid() && fresh(table) && this.capacity == capacity && lru == [] && held == multiset{} && usage == 0
    {
      this.capacity := capacity;
      table := new HandleTable();
      entries, next, prev := map[], map[0 := 0], map[0 := 0];
      usage, deleted, limit, lru, held := 0, [], 1, [], multiset{};
      new;
      assert Sum(entries, 1) == 0;
    }

    method LRURemove(e: nat)
      requires Linked(next, prev, lru) && Distinct(lru) && e in lru
      modifies this`next, this`prev, this`lru
      ensures Linked(next, prev, lru) && lru == Without(old(lru), e)
    {
      ghost var k :| 0 <= k < |lru| && lru[k] == e;
      RemoveLinked(next, prev, lru, k);
      WithoutAt(lru, k);
      var p, q := prev[e], next[e];
      prev := prev[q := p];
      next := next[p := q];
      lru := Without(lru, e);
    }

    method LRUAppend(e: nat)
      requires Linked(next, prev, lru) && Distinct(lru) && e != 0 && e !in lru
      modifies this`next, this`prev, this`lru
      ensures Linked(next, prev, lru) && lru == old(lru) + [e]
    {
      AppendLinked(next, prev, lru, e);
      var last := prev[0];
      next := next[e := 0];
      prev := prev[e := last];
      next := next[last := e];
      prev := prev[0 := e];
      lru := lru + [e];
    }

    method Unref(e: nat, ghost extra: multiset<nat>)
      requires Balanced(View(), extra) && e in extra
      modifies this`entries, this`usage, this`deleted
      ensures Balanced(View(), extra - multiset{e})
      ensures old(e in entries && entries[e].refs > 0 && entries[e].charge <= usage)
      ensures View() == Dropped(old(View()), e)
    {
      hide Balanced;
      DroppedBalanced(View(), extra, e);
      var h := entries[e];
      if h.refs - 1 <= 0 {
        usage := usage - h.charge;
        deleted := deleted + [e];
        entries := entries - {e};
      } else {
        entries := entries[e := h.(refs := h.refs - 1)];
      }
    }

    /** Off the list and one reference fewer; the table has already let go of it. */
    method Discard(o: nat)
      requires Balanced(View(), multiset{}) && Linked(next, prev, lru) && o in lru && AllBut(View(), table.list, o)
      modifies this`next, this`prev, this`lru, this`entries, this`usage, this`deleted
      ensures Balanced(View(), multiset{}) && Linked(next, prev, lru) && InSync(View(), table.list)
      ensures lru == Without(old(lru), o)
      ensures forall id | id in entries :: id in old(entries) && entries[id] == old(entries[id]).(refs := entries[id].refs)
      ensures forall id | id != o && id in old(entries) :: id in entries
      ensures deleted == old(deleted) + if o in held then [] else [o]
    {
      hide Held, Sum;
      ghost var x := View();
      Detached(x, o);
      DetachedInSync(x, o, table.list);
      WithoutMembers(lru, o);
      LRURemove(o);
      GoesIf(View(), o);
      DroppedInSync(View(), multiset{o}, o, table.list);
      Unref(o, multiset{o});
    }

    /** The entry `e` becomes the newest for its key. From the list without the replaced entry, the k oldest are
        gone: as many as it takes until the charge in use fits the capacity or nothing is cached, and no more. */
    method Insert(key: Bytes, hash: nat, value: Bytes, charge: nat) returns (e: nat, ghost replaced: Option<nat>, ghost k: nat)
      requires Valid()
      modifies this, table
      ensures Valid() && held == old(held) + multiset{e} && (usage <= capacity || lru == [])
      ensures e == old(limit) && e in entries && limit == old(limit) + 1
      ensures entries[e] == Handle(key, hash, value, charge, entries[e].refs)
      ensures Follows(old(View()), View())
      ensures replaced.Some? ==>
        replaced.value in old(lru) && old(entries)[replaced.value].hash == hash && old(entries)[replaced.value].key == key
      ensures replaced.None? ==> forall id | id in old(lru) :: !(old(entries)[id].hash == hash && old(entries)[id].key == key)
      ensures
        var base := OnBase(old(lru), replaced, e);
        && k <= |base| && lru == base[k..] && deleted == old(deleted) + Freed(Off(old(lru), replaced, e, k), held)
      ensures forall j | 0 <= j < k :: ChargeLeft(old(View()), replaced, Handle(key, hash, value, charge, 2), j) > capacity
    {
      hide Balanced, InSync, Linked, HandleTables.Bucketed, Sum, Freed, ChargeLeft, OnBase, Off;
      ghost var x, h := View(), Handle(key, hash, value, charge, 2);
      e, replaced := Enter(key, hash, value, charge);
      OffNone(x.lru, replaced, e);
      k := MakeRoom(x, replaced, h);
      LiveOnes(View());
      if lru != [] {
        OnList(View(), lru[0], table.list);
      }
    }

    /** The eviction loop. */
    method MakeRoom(ghost x: Books, ghost replaced: Option<nat>, ghost h: Handle) returns (ghost k: nat)
      requires Valid() && Balanced(x, multiset{}) && x.limit > 0 && Since(x, View(), h) && 0 in next && next[0] == At(lru, 1)
      requires (replaced.Some? ==> replaced.value in x.lru) && lru == OnBase(x.lru, replaced, x.limit)
      requires deleted == x.deleted + Freed(Off(x.lru, replaced, x.limit, 0), held)
      modifies this, table
      ensures Valid() && Since(x, View(), h) && 0 in next && next[0] == At(lru, 1) && (usage <= capacity || next[0] == 0)
      ensures k <= |OnBase(x.lru, replaced, x.limit)| && lru == OnBase(x.lru, replaced, x.limit)[k..]
      ensures deleted == x.deleted + Freed(Off(x.lru, replaced, x.limit, k), held)
      ensures forall j | 0 <= j < k :: ChargeLeft(x, replaced, h, j) > capacity
    {
      hide Balanced, InSync, Linked, HandleTables.Bucketed, Sum, Freed, ChargeLeft, OnBase, Off;
      k := 0;
      ghost var base := lru;
      while usage > capacity && next[0] != 0
        invariant Valid() && k <= |base| && lru == base[k..] && Since(x, View(), h)
        invariant deleted == x.deleted + Freed(Off(x.lru, replaced, x.limit, k), held)
        invariant 0 in next && next[0] == At(lru, 1)
        invariant forall j | 0 <= j < k :: ChargeLeft(x, replaced, h, j) > capacity
        decreases |lru|
      {
        ChargeIs(x, View(), replaced, h, k);
        OffMore(x.lru, replaced, x.limit, k, held);
        ghost var y := View();
        Evict();
        SinceMore(x, y, View(), h);
        HeadLinked(next, prev, lru);
        k := k + 1;
      }
    }

    /** Everything Insert does before it looks at the capacity. */
    method Enter(key: Bytes, hash: nat, value: Bytes, charge: nat) returns (e: nat, ghost replaced: Option<nat>)
      requires Valid()
      modifies this, table
      ensures Valid() && held == old(held) + multiset{e} && 0 in next && next[0] == At(lru, 1)
      ensures e == old(limit) && e in entries && entries[e] == Handle(key, hash, value, charge, entries[e].refs)
      ensures limit == old(limit) + 1
      ensures forall id | id in entries && id in old(entries) :: entries[id] == old(entries)[id].(refs := entries[id].refs)
      ensures deleted == old(deleted) + Freed(if replaced.Some? then [replaced.value] else [], held)
      ensures replaced.Some? ==>
        replaced.value in old(lru) && old(entries)[replaced.value].hash == hash && old(entries)[replaced.value].key == key
      ensures replaced.None? ==> forall id | id in old(lru) :: !(old(entries)[id].hash == hash && old(entries)[id].key == key)
      ensures lru == OnBase(old(lru), replaced, e)
    {
      hide Balanced, Linked, HandleTables.Bucketed, Held, InSync, AllBut, Without;
      NewNumber(View());
      ghost var x, list := View(), table.list;
      var h := Handle(key, hash, value, charge, 2);
      e := Allocate(h);
      var out := table.Insert(Node(e, hash, key));
      AddedInSync(x, h, list, table.list, out);
      replaced := None;
      if out.Some? {
        replaced := Some(out.value.id);
        WithoutLast(x.lru, e, out.value.id);
        Discard(out.value.id);
        FreedMore([], out.value.id, held);
        assert [] + [out.value.id] == [out.value.id];
      } else {
        forall id | id in x.lru ensures id in x.entries && !(x.entries[id].hash == hash && x.entries[id].key == key) {
          OnList(x, id, list);
          assert Held(list, NodeOf(id, x.entries[id]));
        }
      }
      HeadLinked(next, prev, lru);
    }

    /** A new handle with two references, one of them the list's. */
    method Allocate(h: Handle) returns (e: nat)
      requires Balanced(View(), multiset{}) && Linked(next, prev, lru) && limit > 0 && h.refs == 2
      modifies this
      ensures e == old(limit) && View() == Added(old(View()), h)
      ensures Balanced(View(), multiset{}) && Linked(next, prev, lru)
    {
      hide Balanced, Linked;
      NewNumber(View());
      AddedBalanced(View(), h);
      e := limit;
      entries := entries[e := h];
      limit := limit + 1;
      LRUAppend(e);
      usage := usage + h.charge;
      held := held + multiset{e};
    }

    /** One turn of the eviction loop. */
    method Evict()
      requires Valid() && 0 in next && next[0] == At(lru, 1) && next[0] != 0
      modifies this, table
      ensures Valid() && held == old(held) && lru == old(lru)[1..] && limit == old(limit)
      ensures forall id | id in entries :: id in old(entries) && entries[id] == old(entries[id]).(refs := entries[id].refs)
      ensures deleted == old(deleted) + if old(lru)[0] in held then [] else [old(lru)[0]]
    {
      hide Balanced, Linked, HandleTables.Bucketed, Held, InSync, AllBut;
      var o := next[0];
      ghost var list := table.list;
      OnList(View(), o, list);
      var n := table.Remove(entries[o].key, entries[o].hash);
      HeldOnce(list, NodeOf(o, entries[o]), n.value);
      LetGo(View(), o, list, table.list);
      Discard(o);
    }

    method Lookup(key: Bytes, hash: nat) returns (r: Option<nat>)
      requires Valid()
      modifies this
      ensures Valid()
      ensures r.Some? ==>
        && r.value in old(lru) && old(entries)[r.value].hash == hash && old(entries)[r.value].key == key
        && lru == Without(old(lru), r.value) + [r.value] && held == old(held) + multiset{r.value}
        && Follows(old(View()), View()) && entries.Keys == old(entries).Keys
        && usage == old(usage) && deleted == old(deleted) && limit == old(limit)
      ensures r.None? ==>
        && old(View()) == View()
        && forall id | id in lru :: !(entries[id].hash == hash && entries[id].key == key)
    {
      hide Held, Linked, HandleTables.Bucketed, Balanced;
      NewNumber(View());
      var n := table.Lookup(key, hash);
      if n.None? {
        forall id | id in lru ensures id in entries && !(entries[id].hash == hash && entries[id].key == key) {
          OnList(View(), id, table.list);
        }
        return None;
      }
      var e := n.value.id;
      OnList(View(), e, table.list);
      TouchedBalanced(View(), e, table.list);
      WithoutMembers(lru, e);
      entries := entries[e := entries[e].(refs := entries[e].refs + 1)];
      LRURemove(e);
      LRUAppend(e);
      held := held + multiset{e};
      LiveOnes(View());
      r := Some(e);
    }

    method Release(e: nat)
      requires Valid() && e in held
      modifies this
      ensures Valid() && lru == old(lru) && held == old(held) - multiset{e} && limit == old(limit)
      ensures Follows(old(View()), View())
      ensures deleted == if e in lru || e in held then old(deleted) else old(deleted) + [e]
    {
      hide Balanced, InSync, Linked, HandleTables.Bucketed;
      ghost var x := View();
      held := held - multiset{e};
      Released(x, e, table.list);
      DroppedInSync(View(), multiset{e}, e, table.list);
      Unref(e, multiset{e});
      assert multiset{e} - multiset{e} == multiset{};
      LiveOnes(View());
    }

    method Erase(key: Bytes, hash: nat) returns (ghost e: Option<nat>)
      requires Valid()
      modifies this, table
      ensures Valid() && held == old(held) && limit == old(limit) && Follows(old(View()), View())
      ensures forall id | id in lru :: !(entries[id].hash == hash && entries[id].key == key)
      ensures e.None? ==> View() == old(View())
      ensures e.Some? ==>
        && e.value in old(lru) && old(entries)[e.value].hash == hash && old(entries)[e.value].key == key
        && lru == Without(old(lru), e.value) && deleted == old(deleted) + if e.value in held then [] else [e.value]
    {
      hide Held, Sum, Linked, HandleTables.Bucketed, Balanced, InSync, AllBut, Without;
      ghost var list := table.list;
      NewNumber(View());
      var n := table.Remove(key, hash);
      e := None;
      if n.Some? {
        e := Some(n.value.id);
        InTable(View(), list, n.value);
        LetGo(View(), n.value.id, list, table.list);
        Discard(n.value.id);
      } else {
        SameTable(View(), list, table.list);
      }
      LiveOnes(View());
      forall id | id in lru ensures !(entries[id].hash == hash && entries[id].key == key) {
        OnList(View(), id, table.list);
      }
    }
  }

  /** What was inserted is what a lookup finds, if and only if it fits beside what clients hold. */
  method InsertThenLookup(cache: LRUCache, key: Bytes, hash: nat, value: Bytes, charge: nat) returns (e: nat, r: Option<nat>)
    requires cache.Valid()
    modifies cache, cache.table
    ensures cache.Valid() && (r.None? <==> cache.lru == [])
    ensures r.Some? ==> r.value == e && e in cache.entries && cache.entries[e] == Handle(key, hash, value, charge, cache.entries[e].refs)
    ensures r == Some(e) <==> old(Sum(HeldOnes(cache.entries, cache.held), cache.limit)) + charge <= cache.capacity
    ensures old(cache.usage) + charge <= cache.capacity ==> r == Some(e)
  {
    hide Held, Linked, HandleTables.Bucketed, Balanced, InSync, Follows, Freed, Without, Sum, OnBase, Off, ChargeLeft;
    ghost var was, h := cache.View(), Handle(key, hash, value, charge, 2);
    ghost var replaced, k;
    e, replaced, k := cache.Insert(key, hash, value, charge);
    FollowsSince(was, cache.View(), h);
    KeptIff(was, cache.View(), replaced, h, k, cache.capacity);
    ghost var x, list := cache.View(), cache.table.list;
    if x.lru != [] { LastOnBase(was.lru, replaced, e); }
    r := cache.Lookup(key, hash);
    if r.Some? {
      OnList(x, r.value, list);
      TwinsAreOne(x, list, r.value, e);
      HandleKept(cache.View(), e);
      SameContents(x, cache.View(), e);
    }
  }

  lemma FollowsSince(x: Books, y: Books, h: Handle)
    requires Follows(x, y) && y.held == x.held + multiset{x.limit} && y.limit == x.limit + 1
    requires x.limit in y.entries && y.entries[x.limit] == h.(refs := y.entries[x.limit].refs)
    ensures Since(x, y, h)
  {
    hide Sum;
  }

  lemma LastOnBase(lru: seq<nat>, replaced: Option<nat>, e: nat)
    ensures var base := OnBase(lru, replaced, e); base != [] && base[|base| - 1] == e
  {
  }

  /** The new entry is evicted with all the others, or not at all. */
  lemma KeptIff(x: Books, y: Books, replaced: Option<nat>, h: Handle, k: nat, capacity: nat)
    requires Balanced(x, multiset{}) && Balanced(y, multiset{}) && Since(x, y, h) && x.limit > 0
    requires replaced.Some? ==> replaced.value in x.lru
    requires k <= |OnBase(x.lru, replaced, x.limit)| && y.lru == OnBase(x.lru, replaced, x.limit)[k..]
    requires (y.usage <= capacity || y.lru == []) && forall j | 0 <= j < k :: ChargeLeft(x, replaced, h, j) > capacity
    ensures y.lru != [] <==> Sum(HeldOnes(x.entries, x.held), x.limit) + h.charge <= capacity
    ensures Sum(HeldOnes(x.entries, x.held), x.limit) <= x.usage
  {
    hide Balanced, Off, OnBase, Sum;
    AllOff(x, replaced, h);
    HeldAtMost(x);
    if y.lru != [] {
      ChargeIs(x, y, replaced, h, k);
      ChargeFalls(x, replaced, h, k, |OnBase(x.lru, replaced, x.limit)| - 1);
    }
  }

  lemma ChargeFalls(x: Books, replaced: Option<nat>, h: Handle, j: nat, k: nat)
    requires j <= k <= |OnBase(x.lru, replaced, x.limit)|
    ensures ChargeLeft(x, replaced, h, k) <= ChargeLeft(x, replaced, h, j)
  {
    var e, held := x.limit, x.held + multiset{x.limit};
    var base := OnBase(x.lru, replaced, e);
    assert base[..j] == base[..k][..j];
    assert forall id | id in Off(x.lru, replaced, e, j) :: id in Off(x.lru, replaced, e, k);
    SumAtMost(Staying(x.entries[e := h], Off(x.lru, replaced, e, k), held), Staying(x.entries[e := h], Off(x.lru, replaced, e, j), held), e + 1);
  }

  lemma SameContents(x: Books, y: Books, e: nat)
    requires Follows(x, y) && e in x.entries && e in y.entries
    ensures y.entries[e] == x.entries[e].(refs := y.entries[e].refs)
  {
    hide Sum;
  }

  lemma TwinsAreOne(x: Books, list: seq<seq<Node>>, a: nat, b: nat)
    requires Balanced(x, multiset{}) && InSync(x, list) && HandleTables.Bucketed(list) && a in x.lru && b in x.lru
    requires a in x.entries && b in x.entries && x.entries[a].hash == x.entries[b].hash && x.entries[a].key == x.entries[b].key
    ensures a == b
  {
    OnList(x, a, list);
    OnList(x, b, list);
    HeldOnce(list, NodeOf(a, x.entries[a]), NodeOf(b, x.entries[b]));
  }

  lemma InTable(x: Books, list: seq<seq<Node>>, n: Node)
    requires InSync(x, list) && Held(list, n)
    ensures n.id in x.lru && n.id in x.entries && n == NodeOf(n.id, x.entries[n.id])
  {
  }

  lemma SameTable(x: Books, list: seq<seq<Node>>, list': seq<seq<Node>>)
    requires InSync(x, list) && forall n :: Held(list', n) <==> Held(list, n)
    ensures InSync(x, list')
  {
  }

  lemma NewNumber(x: Books)
    requires Balanced(x, multiset{})
    ensures x.limit !in x.lru && x.limit !in x.entries && Distinct(x.lru)
  {
  }

  lemma OnList(x: Books, id: nat, list: seq<seq<Node>>)
    requires Balanced(x, multiset{}) && InSync(x, list) && id in x.lru
    ensures id in x.entries && id != 0 && Held(list, NodeOf(id, x.entries[id]))
  {
  }

  lemma HandleKept(x: Books, id: nat)
    requires Balanced(x, multiset{}) && id in x.held
    ensures id in x.entries
  {
  }

  lemma {:induction false} WithoutLast(s: seq<nat>, e: nat, o: nat)
    requires o in s
    ensures Without(s + [e], o) == Without(s, o) + [e]
  {
    if s[0] != o {
      WithoutLast(s[1..], e, o);
      assert (s + [e])[1..] == s[1..] + [e];
    } else {
      assert (s + [e])[1..] == s[1..] + [e];
    }
  }

  lemma HeadLinked(next: map<nat, nat>, prev: map<nat, nat>, s: seq<nat>)
    requires Linked(next, prev, s)
    ensures 0 in next && next[0] == At(s, 1)
  {
    assert Joined(next, prev, At(s, 0), At(s, 1));
  }

  lemma Released(x: Books, e: nat, list: seq<seq<Node>>)
    requires Balanced(x, multiset{}) && e in x.held && InSync(x, list)
    ensures Balanced(x.(held := x.held - multiset{e}), multiset{e}) && InSync(x.(held := x.held - multiset{e}), list)
    ensures e in x.entries && x.entries[e].refs == (if e in x.lru then 1 else 0) + x.held[e]
  {
    hide Held, Sum;
    var y := x.(held := x.held - multiset{e});
    assert Counted(x, multiset{}, e);
    forall id | id in y.entries ensures Counted(y, multiset{e}, id) {
      assert Counted(x, multiset{}, id);
    }
  }
}
