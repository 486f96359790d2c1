/**
 The memtable's skip list. Nodes live in an arena and are never freed, so a node is its
 index there; index 0 is the head and doubles as the null pointer, since no link ever
 leads to the head. One writer inserts while any number of readers search.
 */
module SkipLists {
  import opened Entries
  import opened Versions
  import opened Engine

  const MAX_HEIGHT: nat := 12

  datatype Node = Node(key: Entry, next: seq<nat>)

  function KeyAt(nodes: seq<Node>, n: nat): Entry {
    if n < |nodes| then nodes[n].key else Entry(0.0, 0, Deletion, [])
  }

  predicate HasLevel(nodes: seq<Node>, n: nat, l: nat) {
    n < |nodes| && l < |nodes[n].next|
  }

  function NextAt(nodes: seq<Node>, n: nat, l: nat): nat {
    if HasLevel(nodes, n, l) then nodes[n].next[l] else 0
  }

  /** The node before and the node after the i-th gap of a level. */
  function Pred(list: seq<nat>, i: nat): nat {
    if 0 < i <= |list| then list[i - 1] else 0
  }

  function Succ(list: seq<nat>, i: nat): nat {
    if i < |list| then list[i] else 0
  }

  ghost predicate Linked(nodes: seq<Node>, l: nat, list: seq<nat>) {
    && (forall n | n in list :: 0 < n < |nodes|)
    && forall i | 0 <= i <= |list| :: HasLevel(nodes, Pred(list, i), l) && NextAt(nodes, Pred(list, i), l) == Succ(list, i)
  }

  ghost predicate SortedKeys(nodes: seq<Node>, list: seq<nat>) {
    forall i, j {:trigger Before(KeyAt(nodes, list[i]), KeyAt(nodes, list[j]))} | 0 <= i < j < |list| ::
      Before(KeyAt(nodes, list[i]), KeyAt(nodes, list[j]))
  }

  /** Every level is a sorted linked list, and each one is part of the levels below. */
  ghost predicate Ok(nodes: seq<Node>, maxHeight: nat, ls: seq<seq<nat>>) {
    && |ls| == MAX_HEIGHT && 1 <= maxHeight <= MAX_HEIGHT
    && (forall l | 0 <= l < MAX_HEIGHT :: Linked(nodes, l, ls[l]) && SortedKeys(nodes, ls[l]))
    && (forall k, l, n {:trigger n in ls[k], ls[l]} | 0 <= l <= k < MAX_HEIGHT && n in ls[k] :: n in ls[l])
    && (forall l | maxHeight <= l < MAX_HEIGHT :: ls[l] == [])
  }

  /** The first p nodes of the level come before `e`, the others do not. */
  ghost predicate Splits(nodes: seq<Node>, list: seq<nat>, e: Entry, p: nat) {
    && p <= |list|
    && (forall i | 0 <= i < p :: Before(KeyAt(nodes, list[i]), e))
    && (forall i | p <= i < |list| :: !Before(KeyAt(nodes, list[i]), e))
  }

  lemma SplitHere(nodes: seq<Node>, list: seq<nat>, e: Entry, p: nat)
    requires SortedKeys(nodes, list) && p <= |list|
    requires p > 0 ==> Before(KeyAt(nodes, list[p - 1]), e)
    requires p < |list| ==> !Before(KeyAt(nodes, list[p]), e)
    ensures Splits(nodes, list, e, p)
  {
    forall i | 0 <= i < p ensures Before(KeyAt(nodes, list[i]), e) {
      if i < p - 1 { assert Before(KeyAt(nodes, list[i]), KeyAt(nodes, list[p - 1])); }
    }
    forall i | p <= i < |list| ensures !Before(KeyAt(nodes, list[i]), e) {
      if p < i { assert Before(KeyAt(nodes, list[p]), KeyAt(nodes, list[i])); }
    }
  }

  /** The keys of a level, in order. */
  function KeysOf(nodes: seq<Node>, list: seq<nat>): (r: seq<Entry>)
    ensures |r| == |list| && forall i | 0 <= i < |list| :: r[i] == KeyAt(nodes, list[i])
  {
    seq(|list|, i requires 0 <= i < |list| => KeyAt(nodes, list[i]))
  }

  // ----------------------------------------------- the writer's memory writes

  function SetNext(nodes: seq<Node>, n: nat, l: nat, x: nat): seq<Node>
    requires HasLevel(nodes, n, l)
  {
    nodes[n := nodes[n].(next := nodes[n].next[l := x])]
  }

  lemma SetNextEffect(nodes: seq<Node>, n: nat, l: nat, x: nat)
    requires HasLevel(nodes, n, l)
    ensures var nodes' := SetNext(nodes, n, l, x);
            && |nodes'| == |nodes|
            && (forall i: nat :: KeyAt(nodes', i) == KeyAt(nodes, i))
            && (forall i: nat, k: nat :: HasLevel(nodes', i, k) == HasLevel(nodes, i, k))
            && (forall i: nat, k: nat :: NextAt(nodes', i, k) == if i == n && k == l then x else NextAt(nodes, i, k))
  {
  }

  /** A level looks the same in two memories that agree on its nodes. */
  lemma SameLevel(nodes: seq<Node>, nodes': seq<Node>, l: nat, list: seq<nat>)
    requires Linked(nodes, l, list) && SortedKeys(nodes, list) && |nodes'| >= |nodes|
    requires forall n | n == 0 || n in list ::
               KeyAt(nodes', n) == KeyAt(nodes, n) && HasLevel(nodes', n, l) == HasLevel(nodes, n, l) && NextAt(nodes', n, l) == NextAt(nodes, n, l)
    ensures Linked(nodes', l, list) && SortedKeys(nodes', list)
  {
    forall i | 0 <= i <= |list| ensures Pred(list, i) == 0 || Pred(list, i) in list {}
    forall i | 0 <= i < |list| ensures KeyAt(nodes', list[i]) == KeyAt(nodes, list[i]) { assert list[i] in list; }
  }

  function Spliced(list: seq<nat>, p: nat, x: nat): seq<nat>
    requires p <= |list|
  {
    list[..p] + [x] + list[p..]
  }

  lemma SplicedParts(list: seq<nat>, p: nat, x: nat)
    requires p <= |list|
    ensures |Spliced(list, p, x)| == |list| + 1
    ensures forall n :: n in Spliced(list, p, x) <==> n == x || n in list
  {
    var s := Spliced(list, p, x);
    forall i | 0 <= i < |s| ensures s[i] == if i < p then list[i] else if i == p then x else list[i - 1] {}
    forall n | n in list ensures n in s {
      var i :| 0 <= i < |list| && list[i] == n;
      assert s[if i < p then i else i + 1] == n;
    }
    assert s[p] == x;
  }

  lemma SplicedAt(list: seq<nat>, p: nat, x: nat, i: nat)
    requires p <= |list| && i <= |list| + 1
    ensures Pred(Spliced(list, p, x), i) == if i <= p then Pred(list, i) else if i == p + 1 then x else Pred(list, i - 1)
    ensures Succ(Spliced(list, p, x), i) == if i < p then Succ(list, i) else if i == p then x else Succ(list, i - 1)
  {
  }

  /** In a sorted level different gaps have different left neighbours. */
  lemma PredDistinct(nodes: seq<Node>, list: seq<nat>, i: nat, p: nat)
    requires SortedKeys(nodes, list) && (forall n | n in list :: 0 < n) && i <= |list| && p <= |list| && i != p
    ensures Pred(list, i) != Pred(list, p)
  {
    if i > 0 && p > 0 {
      var a, b := if i < p then i - 1 else p - 1, if i < p then p - 1 else i - 1;
      assert Before(KeyAt(nodes, list[a]), KeyAt(nodes, list[b]));
    } else {
      assert list[if i > 0 then i - 1 else p - 1] in list;
    }
  }

  /** The store prev->next[l] = x, when x->next[l] already holds what prev->next[l] held. */
  lemma PublishLinked(nodes: seq<Node>, l: nat, list: seq<nat>, x: nat, p: nat)
    requires Linked(nodes, l, list) && SortedKeys(nodes, list) && p <= |list|
    requires 0 < x && HasLevel(nodes, x, l) && x !in list && NextAt(nodes, x, l) == Succ(list, p)
    ensures HasLevel(nodes, Pred(list, p), l)
    ensures Linked(SetNext(nodes, Pred(list, p), l, x), l, Spliced(list, p, x))
  {
    var prev := Pred(list, p);
    assert p > 0 ==> list[p - 1] in list;
    SetNextEffect(nodes, prev, l, x);
    SplicedParts(list, p, x);
    var nodes', s := SetNext(nodes, prev, l, x), Spliced(list, p, x);
    forall i | 0 <= i <= |s| ensures HasLevel(nodes', Pred(s, i), l) && NextAt(nodes', Pred(s, i), l) == Succ(s, i) {
      SplicedAt(list, p, x, i);
      if i < p {
        PredDistinct(nodes, list, i, p);
      } else if i > p + 1 {
        PredDistinct(nodes, list, i - 1, p);
      }
    }
  }

  lemma SortedAfter(nodes: seq<Node>, list: seq<nat>, x: nat, p: nat)
    requires SortedKeys(nodes, list) && Splits(nodes, list, KeyAt(nodes, x), p)
    requires forall n | n in list :: KeyAt(nodes, n).key != KeyAt(nodes, x).key || KeyAt(nodes, n).sn != KeyAt(nodes, x).sn
    ensures SortedKeys(nodes, Spliced(list, p, x))
  {
    var s := Spliced(list, p, x);
    forall i, j | 0 <= i < j < |s| ensures Before(KeyAt(nodes, s[i]), KeyAt(nodes, s[j])) {
      var i', j' := if i < p then i else i - 1, if j < p then j else j - 1;
      if i == p {
        assert s[j] == list[j'] && list[j'] in list;
      } else if j == p {
        assert s[i] == list[i'];
      } else {
        assert s[i] == list[i'] && s[j] == list[j'];
        assert Before(KeyAt(nodes, list[i']), KeyAt(nodes, list[j']));
      }
    }
  }

  // ------------------------------------- every single store keeps the levels

  /** The list only grows: what a later memory holds of each level, and the keys of nodes already there. */
  ghost predicate Grown(nodes: seq<Node>, ls: seq<seq<nat>>, nodes': seq<Node>, ls': seq<seq<nat>>) {
    && |ls| == |ls'| == MAX_HEIGHT && |nodes| <= |nodes'|
    && (forall l, n | 0 <= l < MAX_HEIGHT && n in ls[l] :: n in ls'[l] && KeyAt(nodes', n) == KeyAt(nodes, n))
  }

  lemma RaiseOk(nodes: seq<Node>, maxHeight: nat, ls: seq<seq<nat>>, height: nat)
    requires Ok(nodes, maxHeight, ls) && maxHeight <= height <= MAX_HEIGHT
    ensures Ok(nodes, height, ls)
  {
  }

  function Allocated(nodes: seq<Node>, e: Entry, height: nat): seq<Node> {
    nodes + [Node(e, seq(height, _ => 0))]
  }

  lemma AllocateOk(nodes: seq<Node>, maxHeight: nat, ls: seq<seq<nat>>, e: Entry, height: nat)
    requires Ok(nodes, maxHeight, ls)
    ensures Ok(Allocated(nodes, e, height), maxHeight, ls) && Grown(nodes, ls, Allocated(nodes, e, height), ls)
    ensures forall l | 0 <= l < MAX_HEIGHT :: |nodes| !in ls[l]
    ensures KeyAt(Allocated(nodes, e, height), |nodes|) == e
    ensures forall n: nat | n < |nodes| :: KeyAt(Allocated(nodes, e, height), n) == KeyAt(nodes, n)
  {
    forall l | 0 <= l < MAX_HEIGHT ensures Linked(Allocated(nodes, e, height), l, ls[l]) && SortedKeys(Allocated(nodes, e, height), ls[l]) {
      assert HasLevel(nodes, Pred(ls[l], 0), l);
      SameLevel(nodes, Allocated(nodes, e, height), l, ls[l]);
    }
  }

  /** x->next[l] = v, while x is not yet in level l. */
  lemma PrepareOk(nodes: seq<Node>, maxHeight: nat, ls: seq<seq<nat>>, x: nat, l: nat, v: nat)
    requires Ok(nodes, maxHeight, ls) && 0 < x && HasLevel(nodes, x, l) && l < MAX_HEIGHT && x !in ls[l]
    ensures Ok(SetNext(nodes, x, l, v), maxHeight, ls) && Grown(nodes, ls, SetNext(nodes, x, l, v), ls)
  {
    SetNextEffect(nodes, x, l, v);
    forall k | 0 <= k < MAX_HEIGHT ensures Linked(SetNext(nodes, x, l, v), k, ls[k]) && SortedKeys(SetNext(nodes, x, l, v), ls[k]) {
      SameLevel(nodes, SetNext(nodes, x, l, v), k, ls[k]);
    }
  }

  lemma PublishOk(nodes: seq<Node>, maxHeight: nat, ls: seq<seq<nat>>, x: nat, l: nat, p: nat)
    requires Ok(nodes, maxHeight, ls) && l < maxHeight && p <= |ls[l]| && 0 < x && HasLevel(nodes, x, l)
    requires NextAt(nodes, x, l) == Succ(ls[l], p) && Splits(nodes, ls[l], KeyAt(nodes, x), p)
    requires forall k | 0 <= k < MAX_HEIGHT :: x in ls[k] <==> k < l
    requires forall n | n in ls[0] && n != x :: KeyAt(nodes, n).key != KeyAt(nodes, x).key || KeyAt(nodes, n).sn != KeyAt(nodes, x).sn
    ensures HasLevel(nodes, Pred(ls[l], p), l)
    ensures Ok(SetNext(nodes, Pred(ls[l], p), l, x), maxHeight, ls[l := Spliced(ls[l], p, x)])
    ensures Grown(nodes, ls, SetNext(nodes, Pred(ls[l], p), l, x), ls[l := Spliced(ls[l], p, x)])
  {
    var list := ls[l];
    PublishLinked(nodes, l, list, x, p);
    var prev := Pred(list, p);
    var nodes', ls' := SetNext(nodes, prev, l, x), ls[l := Spliced(list, p, x)];
    SetNextEffect(nodes, prev, l, x);
    SplicedParts(list, p, x);
    forall n | n in list ensures n in ls[0] && n != x {}
    SortedAfter(nodes, list, x, p);
    SortedSame(nodes, nodes', Spliced(list, p, x));
    forall k | 0 <= k < MAX_HEIGHT && k != l ensures Linked(nodes', k, ls'[k]) && SortedKeys(nodes', ls'[k]) {
      SameLevel(nodes, nodes', k, ls[k]);
    }
  }

  lemma SortedSame(nodes: seq<Node>, nodes': seq<Node>, list: seq<nat>)
    requires SortedKeys(nodes, list) && forall i: nat :: KeyAt(nodes', i) == KeyAt(nodes, i)
    ensures SortedKeys(nodes', list)
  {
    forall i, j | 0 <= i < j < |list| ensures Before(KeyAt(nodes', list[i]), KeyAt(nodes', list[j])) {
      assert Before(KeyAt(nodes, list[i]), KeyAt(nodes, list[j]));
    }
  }

  /** The shared memory at one moment, with the nodes of every level. */
  datatype Moment = Moment(nodes: seq<Node>, maxHeight: nat, ls: seq<seq<nat>>)

  ghost predicate MomentOk(m: Moment) {
    Ok(m.nodes, m.maxHeight, m.ls)
  }

  /** Node x is not in level l yet, so its pointer there may be set. */
  ghost predicate CanPrepare(m: Moment, x: nat, l: nat) {
    0 < x && l < MAX_HEIGHT == |m.ls| && HasLevel(m.nodes, x, l) && x !in m.ls[l]
  }

  /** Node x, ready in the p-th gap of level l and already in the levels below, may be linked in. */
  ghost predicate CanPublish(m: Moment, x: nat, l: nat, p: nat) {
    && l < m.maxHeight <= MAX_HEIGHT == |m.ls| && p <= |m.ls[l]| && 0 < x && HasLevel(m.nodes, x, l)
    && NextAt(m.nodes, x, l) == Succ(m.ls[l], p) && Splits(m.nodes, m.ls[l], KeyAt(m.nodes, x), p)
    && (forall k | 0 <= k < MAX_HEIGHT :: x in m.ls[k] <==> k < l)
    && (forall n | n in m.ls[0] && n != x :: KeyAt(m.nodes, n).key != KeyAt(m.nodes, x).key || KeyAt(m.nodes, n).sn != KeyAt(m.nodes, x).sn)
    && HasLevel(m.nodes, Pred(m.ls[l], p), l)
  }

  /** The stores the writer makes, one at a time. */
  datatype Store = Raise(height: nat) | Allocate(e: Entry, height: nat) | Prepare(x: nat, l: nat, v: nat) | Link(x: nat, l: nat, p: nat)

  ghost predicate Wrote(m: Moment, st: Store, m': Moment) {
    match st
    case Raise(height) => m.maxHeight <= height <= MAX_HEIGHT && m' == m.(maxHeight := height)
    case Allocate(e, height) => m' == m.(nodes := Allocated(m.nodes, e, height))
    case Prepare(x, l, v) => CanPrepare(m, x, l) && m' == m.(nodes := SetNext(m.nodes, x, l, v))
    case Link(x, l, p) =>
      && CanPublish(m, x, l, p)
      && m' == m.(nodes := SetNext(m.nodes, Pred(m.ls[l], p), l, x), ls := m.ls[l := Spliced(m.ls[l], p, x)])
  }

  /** Each single store leaves a well-formed list, which has only grown. */
  lemma StoreKeeps(m: Moment, st: Store, m': Moment)
    requires MomentOk(m) && Wrote(m, st, m')
    ensures MomentOk(m') && Grown(m.nodes, m.ls, m'.nodes, m'.ls)
  {
    hide Ok, Grown, Splits, HasLevel, SetNext;
    match st {
      case Raise(height) => RaiseOk(m.nodes, m.maxHeight, m.ls, height); SameGrown(m.nodes, m.maxHeight, m.ls);
      case Allocate(e, height) => AllocateOk(m.nodes, m.maxHeight, m.ls, e, height);
      case Prepare(x, l, v) => PrepareOk(m.nodes, m.maxHeight, m.ls, x, l, v);
      case Link(x, l, p) => PublishOk(m.nodes, m.maxHeight, m.ls, x, l, p);
    }
  }

  lemma SameGrown(nodes: seq<Node>, maxHeight: nat, ls: seq<seq<nat>>)
    requires Ok(nodes, maxHeight, ls)
    ensures Grown(nodes, ls, nodes, ls)
  {
  }

  /** The memory as one writer changes it, store by store. */
  ghost predicate Writing(ms: seq<Moment>, stores: seq<Store>) {
    |ms| == |stores| + 1 && MomentOk(ms[0]) && forall t | 0 <= t < |stores| :: Wrote(ms[t], stores[t], ms[t + 1])
  }

  lemma WritingMore(ms: seq<Moment>, stores: seq<Store>, st: Store, m: Moment)
    requires Writing(ms, stores) && Wrote(ms[|stores|], st, m)
    ensures Writing(ms + [m], stores + [st])
  {
    hide Wrote, MomentOk;
    forall t | 0 <= t < |stores + [st]| ensures Wrote((ms + [m])[t], (stores + [st])[t], (ms + [m])[t + 1]) {
      if t < |stores| { assert Wrote(ms[t], stores[t], ms[t + 1]); }
    }
  }

  lemma GrownTwice(a: Moment, b: Moment, c: Moment)
    requires Grown(a.nodes, a.ls, b.nodes, b.ls) && Grown(b.nodes, b.ls, c.nodes, c.ls)
    ensures Grown(a.nodes, a.ls, c.nodes, c.ls)
  {
  }

  /** However many stores lie between two moments, both are well formed and the later one has grown from the earlier. */
  lemma {:induction false} WritingGrows(ms: seq<Moment>, stores: seq<Store>, i: nat, j: nat)
    requires Writing(ms, stores) && i <= j < |ms|
    ensures MomentOk(ms[i]) && MomentOk(ms[j]) && Grown(ms[i].nodes, ms[i].ls, ms[j].nodes, ms[j].ls)
    decreases j
  {
    hide Wrote, Grown, MomentOk;
    if i < j {
      WritingGrows(ms, stores, i, j - 1);
      StoreKeeps(ms[j - 1], stores[j - 1], ms[j]);
      GrownTwice(ms[i], ms[j - 1], ms[j]);
    } else if j > 0 {
      WritingGrows(ms, stores, j - 1, j - 1);
      StoreKeeps(ms[j - 1], stores[j - 1], ms[j]);
      MomentGrown(ms[j]);
    } else {
      MomentGrown(ms[0]);
    }
  }

  lemma MomentGrown(m: Moment)
    requires MomentOk(m)
    ensures Grown(m.nodes, m.ls, m.nodes, m.ls)
  {
  }

  // -------------------------------------------------------------- concurrent readers

  /** A search in progress: at node x of some level, looking for the first key not before `target`. */
  datatype Reader = Reader(x: nat, level: nat, target: Entry) | Landed(node: nat)

  ghost predicate ReaderOk(nodes: seq<Node>, ls: seq<seq<nat>>, r: Reader)
    requires |ls| == MAX_HEIGHT
  {
    r.Reader? ==> r.level < MAX_HEIGHT && (r.x == 0 || (r.x in ls[r.level] && Before(KeyAt(nodes, r.x), r.target)))
  }

  /** One turn of FindGreaterOrEqual's loop: one load, one comparison. */
  function Advance(nodes: seq<Node>, r: Reader): Reader
    requires r.Reader?
  {
    var next := NextAt(nodes, r.x, r.level);
    if next != 0 && Before(KeyAt(nodes, next), r.target) then r.(x := next)
    else if r.level == 0 then Landed(next)
    else r.(level := r.level - 1)
  }

  /** The answer is the first node of level 0 whose key is not before the target. */
  ghost predicate RightAnswer(nodes: seq<Node>, list: seq<nat>, target: Entry, node: nat) {
    exists p: nat :: p <= |list| && node == Succ(list, p) && Splits(nodes, list, target, p)
  }

  lemma Position(nodes: seq<Node>, list: seq<nat>, x: nat) returns (p: nat)
    requires x == 0 || x in list
    ensures p <= |list| && Pred(list, p) == x && (x == 0 ==> p == 0)
  {
    if x == 0 { p := 0; } else {
      var i :| 0 <= i < |list| && list[i] == x;
      p := i + 1;
    }
  }

  /** A node of one level is found in the level below. */
  lemma GoDown(nodes: seq<Node>, maxHeight: nat, ls: seq<seq<nat>>, level: nat, p: nat) returns (p': nat)
    requires Ok(nodes, maxHeight, ls) && 0 < level < MAX_HEIGHT && p <= |ls[level]|
    ensures p' <= |ls[level - 1]| && Pred(ls[level - 1], p') == Pred(ls[level], p) && (p' > 0 ==> p > 0)
  {
    var x := Pred(ls[level], p);
    if p > 0 { assert x in ls[level]; assert x in ls[level - 1]; }
    p' := Position(nodes, ls[level - 1], x);
  }

  lemma AdvanceOk(nodes: seq<Node>, maxHeight: nat, ls: seq<seq<nat>>, r: Reader)
    requires Ok(nodes, maxHeight, ls) && r.Reader? && ReaderOk(nodes, ls, r)
    ensures var r' := Advance(nodes, r);
            && ReaderOk(nodes, ls, r')
            && (r'.Landed? ==> RightAnswer(nodes, ls[0], r.target, r'.node))
  {
    var list := ls[r.level];
    var p := Position(nodes, list, r.x);
    assert HasLevel(nodes, Pred(list, p), r.level) && NextAt(nodes, Pred(list, p), r.level) == Succ(list, p);
    if p < |list| { assert list[p] in list; }
    if Advance(nodes, r).Landed? { SplitHere(nodes, list, r.target, p); }
  }

  /** A search that runs while the writer works: between any two of its loads the memory may have changed. */
  ghost predicate Search(ms: seq<Moment>, rs: seq<Reader>) {
    && |rs| == |ms| + 1 && |ms| > 0
    && (forall t | 0 <= t < |ms| :: Ok(ms[t].nodes, ms[t].maxHeight, ms[t].ls))
    && (forall t | 0 <= t < |ms| - 1 :: Grown(ms[t].nodes, ms[t].ls, ms[t + 1].nodes, ms[t + 1].ls))
    && rs[0].Reader? && rs[0].x == 0 && rs[0].level < MAX_HEIGHT
    && (forall t | 0 <= t < |ms| :: rs[t].Reader? && rs[t + 1] == Advance(ms[t].nodes, rs[t]))
  }

  lemma {:induction false} SearchOk(ms: seq<Moment>, rs: seq<Reader>, t: nat)
    requires Search(ms, rs) && t < |ms|
    ensures ReaderOk(ms[t].nodes, ms[t].ls, rs[t]) && rs[t].target == rs[0].target
  {
    if t > 0 {
      SearchOk(ms, rs, t - 1);
      AdvanceOk(ms[t - 1].nodes, ms[t - 1].maxHeight, ms[t - 1].ls, rs[t - 1]);
      assert Grown(ms[t - 1].nodes, ms[t - 1].ls, ms[t].nodes, ms[t].ls);
      assert rs[t] == Advance(ms[t - 1].nodes, rs[t - 1]);
    }
  }

  /** Whatever the writer does meanwhile, a search that ends is right for the list as it is at its last load. */
  lemma ConcurrentSearchRight(ms: seq<Moment>, rs: seq<Reader>)
    requires Search(ms, rs) && rs[|ms|].Landed?
    ensures var m := ms[|ms| - 1]; RightAnswer(m.nodes, m.ls[0], rs[0].target, rs[|ms|].node)
  {
    var t := |ms| - 1;
    SearchOk(ms, rs, t);
    assert rs[t + 1] == Advance(ms[t].nodes, rs[t]);
    AdvanceOk(ms[t].nodes, ms[t].maxHeight, ms[t].ls, rs[t]);
  }

  /** The moments at which a reader makes its loads, in the order it makes them. */
  ghost predicate Loads(ms: seq<Moment>, at: seq<nat>) {
    && at != [] && (forall t | 0 <= t < |at| :: at[t] < |ms|)
    && (forall t, u | 0 <= t <= u < |at| :: at[t] <= at[u])
  }

  function Seen(ms: seq<Moment>, at: seq<nat>): (r: seq<Moment>)
    requires forall t | 0 <= t < |at| :: at[t] < |ms|
    ensures |r| == |at| && forall t | 0 <= t < |at| :: r[t] == ms[at[t]]
  {
    seq(|at|, t requires 0 <= t < |at| => ms[at[t]])
  }

  /**
   A search interleaved in any way with the stores of one writer: a search that ends is
   right for the list as it is at its last load.
   */
  lemma InterleavedSearchRight(ms: seq<Moment>, stores: seq<Store>, at: seq<nat>, rs: seq<Reader>)
    requires Writing(ms, stores) && Loads(ms, at) && |rs| == |at| + 1
    requires rs[0].Reader? && rs[0].x == 0 && rs[0].level < MAX_HEIGHT && rs[|at|].Landed?
    requires forall t | 0 <= t < |at| :: rs[t].Reader? && rs[t + 1] == Advance(ms[at[t]].nodes, rs[t])
    ensures var m := ms[at[|at| - 1]]; MomentOk(m) && RightAnswer(m.nodes, m.ls[0], rs[0].target, rs[|at|].node)
  {
    hide Advance, Grown, RightAnswer, Writing, Ok;
    var seen := Seen(ms, at);
    forall t | 0 <= t < |seen| ensures Ok(seen[t].nodes, seen[t].maxHeight, seen[t].ls) {
      WritingGrows(ms, stores, at[t], at[t]);
    }
    forall t | 0 <= t < |seen| - 1 ensures Grown(seen[t].nodes, seen[t].ls, seen[t + 1].nodes, seen[t + 1].ls) {
      WritingGrows(ms, stores, at[t], at[t + 1]);
    }
    assert Search(seen, rs);
    ConcurrentSearchRight(seen, rs);
  }

  // ------------------------------------------------------------------ the list

  class SkipList {
    var nodes: seq<Node>
    var maxHeight: nat
    ghost var ls: seq<seq<nat>>   // the nodes of every level

    ghost predicate Valid()
      reads this
    {
      Ok(nodes, maxHeight, ls)
    }

    /** The keys in the list, in order. */
    ghost function Contents(): seq<Entry>
      requires Valid()
      reads this
    {
      KeysOf(nodes, ls[0])
    }

    constructor ()
      ensures Valid() && Contents() == []
    {
      nodes := [Node(Entry(0.0, 0, Deletion, []), seq(MAX_HEIGHT, _ => 0))];
      maxHeight := 1;
      ls := seq(MAX_HEIGHT, _ => []);
    }

    method FindGreaterOrEqual(e: Entry) returns (node: nat, prev: seq<nat>, ghost ps: seq<nat>)
      requires Valid()
      ensures |prev| == |ps| == MAX_HEIGHT
      ensures forall l | 0 <= l < MAX_HEIGHT :: Splits(nodes, ls[l], e, ps[l])
      ensures forall l | 0 <= l < maxHeight :: prev[l] == Pred(ls[l], ps[l])
      ensures node == Succ(ls[0], ps[0])
    {
      prev := seq(MAX_HEIGHT, _ => 0);
      ps := seq(MAX_HEIGHT, _ => 0);
      var x := 0;
      var level := maxHeight - 1;
      ghost var p: nat := 0;
      while true
        invariant 0 <= level < maxHeight && |prev| == |ps| == MAX_HEIGHT
        invariant p <= |ls[level]| && x == Pred(ls[level], p)
        invariant p > 0 ==> Before(KeyAt(nodes, x), e)
        invariant forall l | level < l < maxHeight :: Splits(nodes, ls[l], e, ps[l]) && prev[l] == Pred(ls[l], ps[l])
        invariant forall l | maxHeight <= l < MAX_HEIGHT :: ps[l] == 0
        decreases level, |ls[level]| - p
      {
        assert HasLevel(nodes, Pred(ls[level], p), level) && NextAt(nodes, x, level) == Succ(ls[level], p);
        var next := nodes[x].next[level];
        if p < |ls[level]| { assert ls[level][p] in ls[level]; }
        if next != 0 && Before(nodes[next].key, e) {
          x := next;
          p := p + 1;
        } else {
          SplitHere(nodes, ls[level], e, p);
          prev := prev[level := x];
          ps := ps[level := p];
          if level == 0 {
            node := next;
            return;
          }
          p := GoDown(nodes, maxHeight, ls, level, p);
          level := level - 1;
        }
      }
    }

    ghost function Now(): Moment
      reads this
    {
      Moment(nodes, maxHeight, ls)
    }

    /**
     Insert. `height` is what RandomHeight returned. The shared memory changes by single
     stores, each of which leaves it a well-formed skip list, so a search may start or go on
     after each of them.
     */
    method Insert(e: Entry, height: nat) returns (ghost ms: seq<Moment>, ghost stores: seq<Store>)
      requires Valid() && 1 <= height <= MAX_HEIGHT
      requires forall k | k in Contents() :: k.key != e.key || k.sn != e.sn
      modifies this
      ensures Valid() && Contents() == AddToRun(old(Contents()), e)
      ensures Writing(ms, stores) && |ms| == |stores| + 1 && ms[0] == old(Now()) && ms[|stores|] == Now()
    {
      hide Writing;
      var node, prev, ps := FindGreaterOrEqual(e);
      ghost var ls0, nodes0 := ls, nodes;
      ms, stores := [Now()], [];
      assert Writing(ms, stores) by { WritingStarts(Now()); }
      if height > maxHeight {
        for i := maxHeight to height
          invariant |prev| == MAX_HEIGHT
          invariant forall l | 0 <= l < i :: prev[l] == Pred(ls[l], ps[l])
        {
          prev := prev[i := 0];
        }
        RaiseOk(nodes, maxHeight, ls, height);
        WritingMore(ms, stores, Raise(height), Now().(maxHeight := height));
        maxHeight := height;
        ms, stores := ms + [Now()], stores + [Raise(height)];
      }
      var x := |nodes|;
      AllocateOk(nodes, maxHeight, ls, e, height);
      NewKeyDistinct(nodes, ls[0], e);
      WritingMore(ms, stores, Allocate(e, height), Now().(nodes := Allocated(nodes, e, height)));
      nodes := Allocated(nodes, e, height);
      ms, stores := ms + [Now()], stores + [Allocate(e, height)];
      FirstNode(nodes0, nodes, maxHeight, ls, x, e, height);
      ghost var ms1, stores1;
      ms1, stores1 := LinkAll(x, e, height, prev, nodes0, ps, ms, stores);
      ms, stores := ms1, stores1;
      SplicedKeys(nodes0, nodes, ls0[0], e, ps[0], x);
    }

    /** The last loop of Insert: the new node is linked in level by level, from the lowest. */
    method LinkAll(x: nat, e: Entry, height: nat, prev: seq<nat>, ghost nodes0: seq<Node>, ghost ps: seq<nat>,
                   ghost ms0: seq<Moment>, ghost stores0: seq<Store>) returns (ghost ms: seq<Moment>, ghost stores: seq<Store>)
      requires Valid() && 1 <= height <= maxHeight <= MAX_HEIGHT && |prev| == |ps| == MAX_HEIGHT && NewNode(nodes0, nodes, ls, x, e, height, 0)
      requires forall l | 0 <= l < MAX_HEIGHT :: Splits(nodes0, ls[l], e, ps[l]) && forall n | n in ls[l] :: n < |nodes0|
      requires forall l | 0 <= l < height :: prev[l] == Pred(ls[l], ps[l])
      requires Writing(ms0, stores0) && |ms0| == |stores0| + 1 && ms0[|stores0|] == Now()
      requires |ls| == MAX_HEIGHT && forall l | 0 <= l < MAX_HEIGHT :: ps[l] <= |ls[l]|
      modifies this
      ensures Valid() && NewNode(nodes0, nodes, ls, x, e, height, height) && |ls| == MAX_HEIGHT
      ensures forall l | 0 <= l < MAX_HEIGHT :: ls[l] == if l < height then Spliced(old(ls)[l], ps[l], x) else old(ls)[l]
      ensures Writing(ms, stores) && |ms| == |stores| + 1 && ms[0] == ms0[0] && ms[|stores|] == Now()
    {
      hide Writing, Ok, Wrote, NewNode, Splits, SetNext, Spliced;
      ghost var ls0 := ls;
      ms, stores := ms0, stores0;
      for i := 0 to height
        invariant Valid() && maxHeight == old(maxHeight) && |ls| == MAX_HEIGHT
        invariant NewNode(nodes0, nodes, ls, x, e, height, i)
        invariant forall l | 0 <= l < MAX_HEIGHT :: ls[l] == if l < i then Spliced(ls0[l], ps[l], x) else ls0[l]
        invariant Writing(ms, stores) && |ms| == |stores| + 1 && ms[0] == ms0[0] && ms[|stores|] == Now()
      {
        LinkLevel(nodes0, nodes, maxHeight, ls, x, e, height, i, ps[i]);
        ghost var m1 := Now().(nodes := SetNext(nodes, x, i, NextAt(nodes, prev[i], i)));
        WritingMore(ms, stores, Prepare(x, i, NextAt(nodes, prev[i], i)), m1);
        nodes := SetNext(nodes, x, i, nodes[prev[i]].next[i]);
        ms, stores := ms + [m1], stores + [Prepare(x, i, NextAt(nodes, prev[i], i))];
        assert Valid();
        ghost var m2 := Now().(nodes := SetNext(nodes, prev[i], i, x), ls := ls[i := Spliced(ls[i], ps[i], x)]);
        WritingMore(ms, stores, Link(x, i, ps[i]), m2);
        nodes := SetNext(nodes, prev[i], i, x);
        ls := ls[i := Spliced(ls[i], ps[i], x)];
        ms, stores := ms + [m2], stores + [Link(x, i, ps[i])];
      }
    }

    method FindLessThan(e: Entry) returns (x: nat)
      requires Valid()
      ensures exists p: nat :: p <= |ls[0]| && Splits(nodes, ls[0], e, p) && x == Pred(ls[0], p)
    {
      x := 0;
      var level := maxHeight - 1;
      ghost var p: nat := 0;
      while true
        invariant 0 <= level < maxHeight
        invariant p <= |ls[level]| && x == Pred(ls[level], p)
        invariant p > 0 ==> Before(KeyAt(nodes, x), e)
        decreases level, |ls[level]| - p
      {
        assert HasLevel(nodes, Pred(ls[level], p), level) && NextAt(nodes, x, level) == Succ(ls[level], p);
        var next := nodes[x].next[level];
        if p < |ls[level]| { assert ls[level][p] in ls[level]; }
        if next == 0 || !Before(nodes[next].key, e) {
          SplitHere(nodes, ls[level], e, p);
          if level == 0 { return; }
          p := GoDown(nodes, maxHeight, ls, level, p);
          level := level - 1;
        } else {
          x := next;
          p := p + 1;
        }
      }
    }

    method FindLast() returns (x: nat)
      requires Valid()
      ensures x == Pred(ls[0], |ls[0]|)
    {
      x := 0;
      var level := maxHeight - 1;
      ghost var p: nat := 0;
      while true
        invariant 0 <= level < maxHeight
        invariant p <= |ls[level]| && x == Pred(ls[level], p)
        decreases level, |ls[level]| - p
      {
        assert HasLevel(nodes, Pred(ls[level], p), level) && NextAt(nodes, x, level) == Succ(ls[level], p);
        var next := nodes[x].next[level];
        if p < |ls[level]| { assert ls[level][p] in ls[level]; }
        if next == 0 {
          if level == 0 { return; }
          p := GoDown(nodes, maxHeight, ls, level, p);
          level := level - 1;
        } else {
          x := next;
          p := p + 1;
        }
      }
    }

    /** MemTable::SUGet: the first entry at or after (k, q), if it is for user key k. */
    method Get(k: Key, q: SeqNo) returns (r: Option<Entry>)
      requires Valid()
      ensures r == Probe(Contents(), k, q)
    {
      var target := Entry(k, q, Value, []);
      var node, prev, ps := FindGreaterOrEqual(target);
      SeekIsSplit(nodes, ls[0], target, ps[0]);
      if ps[0] < |ls[0]| { assert ls[0][ps[0]] in ls[0]; }
      r := if node != 0 && nodes[node].key.key == k then Some(nodes[node].key) else None;
    }

    method Contains(e: Entry) returns (found: bool)
      requires Valid()
      ensures found <==> exists k :: k in Contents() && k.key == e.key && k.sn == e.sn
    {
      var node, prev, ps := FindGreaterOrEqual(e);
      var p := ps[0];
      if p < |ls[0]| { assert ls[0][p] in ls[0]; }
      found := node != 0 && !Before(nodes[node].key, e) && !Before(e, nodes[node].key);
      OnlyAtSplit(nodes, ls[0], e, p);
      if found { assert Contents()[p] in Contents(); }
    }
  }

  /** A key equal to `e` can only stand right after the split. */
  lemma OnlyAtSplit(nodes: seq<Node>, list: seq<nat>, e: Entry, p: nat)
    requires SortedKeys(nodes, list) && Splits(nodes, list, e, p)
    ensures forall i | 0 <= i < |list| && KeyAt(nodes, list[i]).key == e.key && KeyAt(nodes, list[i]).sn == e.sn :: i == p
  {
    forall i | p < i < |list| ensures KeyAt(nodes, list[i]).key != e.key || KeyAt(nodes, list[i]).sn != e.sn {
      assert Before(KeyAt(nodes, list[p]), KeyAt(nodes, list[i]));
    }
  }

  lemma NewKeyDistinct(nodes: seq<Node>, list: seq<nat>, e: Entry)
    requires forall k | k in KeysOf(nodes, list) :: k.key != e.key || k.sn != e.sn
    ensures forall n | n in list :: KeyAt(nodes, n).key != e.key || KeyAt(nodes, n).sn != e.sn
  {
    forall n | n in list ensures KeyAt(nodes, n).key != e.key || KeyAt(nodes, n).sn != e.sn {
      var i :| 0 <= i < |list| && list[i] == n;
      assert KeysOf(nodes, list)[i] in KeysOf(nodes, list);
    }
  }

  /** Node x holds `e`, is linked into the levels below i, and is the only one with its key. */
  ghost predicate NewNode(nodes0: seq<Node>, nodes: seq<Node>, ls: seq<seq<nat>>, x: nat, e: Entry, height: nat, i: nat) {
    && 0 < x == |nodes0| && KeyAt(nodes, x) == e && |ls| == MAX_HEIGHT
    && (forall n: nat | n < |nodes0| :: KeyAt(nodes, n) == KeyAt(nodes0, n))
    && (forall l: nat :: HasLevel(nodes, x, l) <==> l < height)
    && (forall k | 0 <= k < MAX_HEIGHT :: x in ls[k] <==> k < i)
    && (forall n | n in ls[0] && n != x :: KeyAt(nodes, n).key != e.key || KeyAt(nodes, n).sn != e.sn)
  }

  lemma WritingStarts(m: Moment)
    requires MomentOk(m)
    ensures Writing([m], [])
  {
  }

  lemma FirstNode(nodes0: seq<Node>, nodes: seq<Node>, maxHeight: nat, ls: seq<seq<nat>>, x: nat, e: Entry, height: nat)
    requires Ok(nodes0, maxHeight, ls) && nodes == Allocated(nodes0, e, height) && x == |nodes0|
    requires forall n | n in ls[0] :: KeyAt(nodes0, n).key != e.key || KeyAt(nodes0, n).sn != e.sn
    ensures NewNode(nodes0, nodes, ls, x, e, height, 0) && forall l | 0 <= l < MAX_HEIGHT :: forall n | n in ls[l] :: n < |nodes0|
  {
    AllocateOk(nodes0, maxHeight, ls, e, height);
    assert HasLevel(nodes0, Pred(ls[0], 0), 0);
  }

  /** The two stores for one level, each of which leaves a well-formed list. */
  lemma LinkLevel(nodes0: seq<Node>, nodes: seq<Node>, maxHeight: nat, ls: seq<seq<nat>>, x: nat, e: Entry, height: nat, i: nat, p: nat)
    requires Ok(nodes, maxHeight, ls) && NewNode(nodes0, nodes, ls, x, e, height, i) && i < height <= maxHeight
    requires Splits(nodes0, ls[i], e, p) && forall n | n in ls[i] :: n < |nodes0|
    ensures HasLevel(nodes, x, i) && HasLevel(nodes, Pred(ls[i], p), i)
    ensures var prev := Pred(ls[i], p);
            var nodes1 := SetNext(nodes, x, i, NextAt(nodes, prev, i));
            && HasLevel(nodes1, prev, i) && Ok(nodes1, maxHeight, ls) && NextAt(nodes1, prev, i) == NextAt(nodes, prev, i)
            && Ok(SetNext(nodes1, prev, i, x), maxHeight, ls[i := Spliced(ls[i], p, x)])
            && NewNode(nodes0, SetNext(nodes1, prev, i, x), ls[i := Spliced(ls[i], p, x)], x, e, height, i + 1)
            && Wrote(Moment(nodes, maxHeight, ls), Prepare(x, i, NextAt(nodes, prev, i)), Moment(nodes1, maxHeight, ls))
            && Wrote(Moment(nodes1, maxHeight, ls), Link(x, i, p),
                      Moment(SetNext(nodes1, prev, i, x), maxHeight, ls[i := Spliced(ls[i], p, x)]))
  {
    var list, prev := ls[i], Pred(ls[i], p);
    assert HasLevel(nodes, Pred(list, p), i) && NextAt(nodes, Pred(list, p), i) == Succ(list, p);
    PrepareOk(nodes, maxHeight, ls, x, i, NextAt(nodes, prev, i));
    SetNextEffect(nodes, x, i, NextAt(nodes, prev, i));
    var nodes1 := SetNext(nodes, x, i, NextAt(nodes, prev, i));
    LinkReady(nodes0, nodes1, list, e, p);
    PublishOk(nodes1, maxHeight, ls, x, i, p);
    SetNextEffect(nodes1, prev, i, x);
    SplicedParts(list, p, x);
    assert p > 0 ==> list[p - 1] in list;
    assert forall n | n in list :: n in ls[0];
  }

  /** Keys do not change, so a split found before the insertion is still one. */
  lemma LinkReady(nodes: seq<Node>, nodes': seq<Node>, list: seq<nat>, e: Entry, p: nat)
    requires Splits(nodes, list, e, p) && (forall n | n in list :: n < |nodes|)
    requires forall n: nat | n < |nodes| :: KeyAt(nodes', n) == KeyAt(nodes, n)
    ensures Splits(nodes', list, e, p)
  {
    forall i | 0 <= i < |list| ensures KeyAt(nodes', list[i]) == KeyAt(nodes, list[i]) { assert list[i] in list; }
  }

  lemma SplicedKeys(nodes: seq<Node>, nodes': seq<Node>, list: seq<nat>, e: Entry, p: nat, x: nat)
    requires Splits(nodes, list, e, p) && (forall n | n in list :: n < |nodes|)
    requires forall n: nat | n < |nodes| :: KeyAt(nodes', n) == KeyAt(nodes, n)
    requires KeyAt(nodes', x) == e
    ensures KeysOf(nodes', Spliced(list, p, x)) == AddToRun(KeysOf(nodes, list), e)
  {
    var ks := KeysOf(nodes, list);
    var i := SeekRun(ks, e.key, e.sn);
    SeekIsSplit(nodes, list, e, p);
    var s := Spliced(list, p, x);
    var r := KeysOf(nodes', s);
    var want := AddToRun(ks, e);
    assert |r| == |want|;
    forall j | 0 <= j < |r| ensures r[j] == want[j] {
      assert s[j] == if j < p then list[j] else if j == p then x else list[j - 1];
      if j != p { assert s[j] in list; }
    }
  }

  /** The split is where a binary or linear seek over the keys would land. */
  lemma SeekIsSplit(nodes: seq<Node>, list: seq<nat>, e: Entry, p: nat)
    requires Splits(nodes, list, e, p)
    ensures SeekRun(KeysOf(nodes, list), e.key, e.sn) == p
  {
    var ks := KeysOf(nodes, list);
    forall j | 0 <= j < |ks| ensures BeforeTarget(ks[j], e.key, e.sn) <==> j < p {
      assert ks[j] == KeyAt(nodes, list[j]);
    }
    SeekRunIs(ks, e.key, e.sn, p);
  }

  lemma SeekRunIs(ks: seq<Entry>, k: Key, s: nat, p: nat)
    requires p <= |ks| && forall j | 0 <= j < |ks| :: BeforeTarget(ks[j], k, s) <==> j < p
    ensures SeekRun(ks, k, s) == p
  {
    assert p < |ks| ==> !BeforeTarget(ks[p], k, s);
  }
}
