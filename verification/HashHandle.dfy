/**
 * The macros of uthash/uthash.h on handles in the heap: a doubly linked list of all of them in the
 * order of insertion, and a doubly linked chain behind each bucket.
 */
module HashHandle {
  import opened Base
  import opened HashTable
  import ListSort
  import MergeSort

  /** `UT_hash_handle` in the structure of an item: an element of a list with the links of a chain. */
  type Handle<K, V> = ListSort.Elt<Item<K, V>>

  type Link<K, V> = ListSort.Elt?<Item<K, V>>

  /** `UT_hash_bucket`. */
  datatype Head<K, V> = Head(hhHead: Link<K, V>, count: nat, expandMult: nat)

  // ----- links -----

  function At<K, V>(s: seq<Handle<K, V>>, i: int): Link<K, V> {
    if 0 <= i < |s| then s[i] else null
  }

  ghost predicate NextLinks<K, V>(s: seq<Handle<K, V>>)
    reads s`next
  {
    forall i | 0 <= i < |s| :: s[i].next == At(s, i + 1)
  }

  ghost predicate PrevLinks<K, V>(s: seq<Handle<K, V>>)
    reads s`prev
  {
    forall i | 0 <= i < |s| :: s[i].prev == At(s, i - 1)
  }

  ghost predicate HhNextLinks<K, V>(s: seq<Handle<K, V>>)
    reads s`hhNext
  {
    forall i | 0 <= i < |s| :: s[i].hhNext == At(s, i + 1)
  }

  ghost predicate HhPrevLinks<K, V>(s: seq<Handle<K, V>>)
    reads s`hhPrev
  {
    forall i | 0 <= i < |s| :: s[i].hhPrev == At(s, i - 1)
  }

  /** The list of all handles, linked both ways. */
  ghost predicate InOrder<K, V>(s: seq<Handle<K, V>>, head: Link<K, V>, tail: Link<K, V>)
    reads s`next, s`prev
  {
    NoRepeats(s) && head == At(s, 0) && tail == At(s, |s| - 1) && NextLinks(s) && PrevLinks(s)
  }

  /** A chain, linked both ways. */
  ghost predicate Chained<K, V>(s: seq<Handle<K, V>>, hhHead: Link<K, V>)
    reads s`hhNext, s`hhPrev
  {
    NoRepeats(s) && hhHead == At(s, 0) && HhNextLinks(s) && HhPrevLinks(s)
  }

  /** A chain of which only the way forward counts. */
  ghost predicate Following<K, V>(s: seq<Handle<K, V>>, thh: Link<K, V>)
    reads s`hhNext
  {
    NoRepeats(s) && thh == At(s, 0) && HhNextLinks(s)
  }

  /** Every handle is in the chain of its bucket, so that no two chains share one. */
  ghost predicate Placed<K, V>(chains: seq<seq<Handle<K, V>>>, all: seq<Handle<K, V>>) {
    forall k, i | 0 <= k < |chains| && 0 <= i < |chains[k]| ::
      chains[k][i] in all && ToBkt(chains[k][i].data.hashv, |chains|) == k
  }

  ghost predicate Heads<K, V>(buckets: seq<Head<K, V>>, chains: seq<seq<Handle<K, V>>>, all: seq<Handle<K, V>>)
    reads all`hhNext, all`hhPrev
  {
    && |buckets| == |chains| && Placed(chains, all)
    && (forall k | 0 <= k < |chains| :: Chained(chains[k], buckets[k].hhHead))
  }

  // ----- what the links stand for -----

  ghost function Items<K, V>(s: seq<Handle<K, V>>): (r: seq<Item<K, V>>)
    ensures |r| == |s| && forall i | 0 <= i < |s| :: r[i] == s[i].data
  {
    if s == [] then [] else [s[0].data] + Items(s[1..])
  }

  ghost function View<K, V>(buckets: seq<Head<K, V>>, chains: seq<seq<Handle<K, V>>>): (r: seq<Bucket<K, V>>)
    ensures |buckets| == |chains| ==>
              && |r| == |buckets|
              && forall k | 0 <= k < |r| :: r[k] == Bucket(Items(chains[k]), buckets[k].count, buckets[k].expandMult)
  {
    if buckets == [] || chains == [] then []
    else
      var b := buckets[0];
      [Bucket(Items(chains[0]), b.count, b.expandMult)] + View(buckets[1..], chains[1..])
  }

  // ----- the moves of single handles -----

  /** The links that put a handle at the front of a chain. */
  method PushFront<K, V>(x: Handle<K, V>, hhHead: Link<K, V>, ghost chain: seq<Handle<K, V>>)
    requires Chained(chain, hhHead) && x !in chain
    modifies x`hhNext, x`hhPrev, (if hhHead == null then {} else {hhHead})`hhPrev
    ensures Chained([x] + chain, x)
  {
    x.hhPrev := null;
    x.hhNext := hhHead;
    if hhHead != null {
      hhHead.hhPrev := x;
    }
    InFront(x, chain);
    ghost var s := [x] + chain;
    assert forall i | 0 < i < |s| :: s[i] == chain[i - 1];
  }

  /** `s` without its element at `p`. */
  function Cut<T>(s: seq<T>, p: nat): seq<T>
    requires p < |s|
  {
    s[..p] + s[p + 1..]
  }

  lemma CutIs<T>(s: seq<T>, p: nat)
    requires p < |s|
    ensures |Cut(s, p)| == |s| - 1
    ensures forall i | 0 <= i < |s| - 1 :: Cut(s, p)[i] == s[if i < p then i else i + 1]
    ensures NoRepeats(s) ==> NoRepeats(Cut(s, p))
  {
  }

  lemma OnlyHere<T>(s: seq<T>, p: int)
    requires NoRepeats(s)
    ensures 0 <= p < |s| ==> forall i | 0 <= i < |s| && i != p :: s[i] != s[p]
  {
  }

  lemma CutAt<K, V>(s: seq<Handle<K, V>>, p: nat, i: int)
    requires p < |s|
    ensures At(Cut(s, p), i) == At(s, if i < p then i else i + 1)
  {
  }

  /** Going forward along the chain, or backward, leads past `s[p]`. */
  ghost predicate ForwardPast<K, V>(s: seq<Handle<K, V>>, p: nat)
    reads s`hhNext
  {
    forall i | 0 <= i < |s| && i != p :: s[i].hhNext == At(s, if i == p - 1 then p + 1 else i + 1)
  }

  ghost predicate BackwardPast<K, V>(s: seq<Handle<K, V>>, p: nat)
    reads s`hhPrev
  {
    forall i | 0 <= i < |s| && i != p :: s[i].hhPrev == At(s, if i == p + 1 then p - 1 else i - 1)
  }

  lemma PastIsChained<K, V>(s: seq<Handle<K, V>>, p: nat)
    requires p < |s| && NoRepeats(s) && ForwardPast(s, p) && BackwardPast(s, p)
    ensures Chained(Cut(s, p), At(s, if p == 0 then 1 else 0))
  {
    hide NoRepeats, Cut, At;
    CutIs(s, p);
    CutAt(s, p, 0);
    forall i | 0 <= i < |s| - 1
      ensures var h := Cut(s, p)[i]; h.hhPrev == At(Cut(s, p), i - 1) && h.hhNext == At(Cut(s, p), i + 1)
    {
      CutAt(s, p, i - 1);
      CutAt(s, p, i + 1);
    }
  }

  method SkipForward<K, V>(del: Handle<K, V>, ghost chain: seq<Handle<K, V>>, ghost p: nat)
    requires NoRepeats(chain) && HhNextLinks(chain) && HhPrevLinks(chain) && p < |chain| && chain[p] == del
    modifies (if p == 0 then {} else {chain[p - 1]})`hhNext
    ensures ForwardPast(chain, p)
  {
    hide NoRepeats;
    OnlyHere(chain, p - 1);
    if del.hhPrev != null {
      del.hhPrev.hhNext := del.hhNext;
    }
  }

  method SkipBackward<K, V>(del: Handle<K, V>, ghost chain: seq<Handle<K, V>>, ghost p: nat)
    requires NoRepeats(chain) && HhPrevLinks(chain) && p < |chain| && chain[p] == del && del.hhNext == At(chain, p + 1)
    modifies (if p == |chain| - 1 then {} else {chain[p + 1]})`hhPrev
    ensures BackwardPast(chain, p)
  {
    hide NoRepeats;
    OnlyHere(chain, p + 1);
    if del.hhNext != null {
      del.hhNext.hhPrev := del.hhPrev;
    }
  }

  /** `HASH_DEL_IN_BKT` on the links; the new head is returned. */
  method Unchain<K, V>(del: Handle<K, V>, hhHead: Link<K, V>, ghost chain: seq<Handle<K, V>>, ghost p: nat)
    returns (hhHead': Link<K, V>)
    requires Chained(chain, hhHead) && p < |chain| && chain[p] == del
    modifies (if p == 0 then {} else {chain[p - 1]})`hhNext
    modifies (if p == |chain| - 1 then {} else {chain[p + 1]})`hhPrev
    ensures Chained(Cut(chain, p), hhHead')
  {
    hide NoRepeats, Cut, ForwardPast, BackwardPast, HhPrevLinks;
    OnlyHere(chain, p);
    OnlyHere(chain, p - 1);
    hhHead' := hhHead;
    if hhHead' == del {
      hhHead' := del.hhNext;
    }
    SkipForward(del, chain, p);
    SkipBackward(del, chain, p);
    PastIsChained(chain, p);
  }

  /** `HASH_ADD` on the list. */
  method Append<K, V>(add: Handle<K, V>, head: Link<K, V>, tail: Link<K, V>, ghost list: seq<Handle<K, V>>)
    returns (head': Handle<K, V>, tail': Handle<K, V>)
    requires InOrder(list, head, tail) && add !in list
    modifies add`next, add`prev, (if tail == null then {} else {tail})`next
    ensures InOrder(list + [add], head', tail')
  {
    hide NoRepeats;
    OnlyHere(list, |list| - 1);
    AtEnd(add, list);
    add.next := null;
    if head == null {
      head', tail' := add, add;
      add.prev := null;
    } else {
      head' := head;
      tail.next := add;
      add.prev := tail;
      tail' := add;
    }
  }

  lemma AtEnd<T>(x: T, s: seq<T>)
    requires NoRepeats(s) && x !in s
    ensures NoRepeats(s + [x])
  {
  }

  /** The same along the list. */
  ghost predicate NextPast<K, V>(s: seq<Handle<K, V>>, p: nat)
    reads s`next
  {
    forall i | 0 <= i < |s| && i != p :: s[i].next == At(s, if i == p - 1 then p + 1 else i + 1)
  }

  ghost predicate PrevPast<K, V>(s: seq<Handle<K, V>>, p: nat)
    reads s`prev
  {
    forall i | 0 <= i < |s| && i != p :: s[i].prev == At(s, if i == p + 1 then p - 1 else i - 1)
  }

  lemma PastIsInOrder<K, V>(s: seq<Handle<K, V>>, p: nat)
    requires p < |s| && NoRepeats(s) && NextPast(s, p) && PrevPast(s, p)
    ensures InOrder(Cut(s, p), At(s, if p == 0 then 1 else 0), At(s, if p == |s| - 1 then |s| - 2 else |s| - 1))
  {
    hide NoRepeats, Cut, At;
    CutIs(s, p);
    CutAt(s, p, 0);
    CutAt(s, p, |s| - 2);
    forall i | 0 <= i < |s| - 1
      ensures var h := Cut(s, p)[i]; h.prev == At(Cut(s, p), i - 1) && h.next == At(Cut(s, p), i + 1)
    {
      CutAt(s, p, i - 1);
      CutAt(s, p, i + 1);
    }
  }

  /** Both cases of `delptr->hh.prev`; the new head is returned. */
  method SkipNext<K, V>(del: Handle<K, V>, head: Handle<K, V>, ghost list: seq<Handle<K, V>>, ghost p: nat)
    returns (head': Link<K, V>)
    requires NoRepeats(list) && NextLinks(list) && PrevLinks(list) && p < |list| && list[p] == del && head == list[0]
    modifies (if p == 0 then {} else {list[p - 1]})`next
    ensures NextPast(list, p) && head' == At(list, if p == 0 then 1 else 0)
  {
    hide NoRepeats;
    OnlyHere(list, p - 1);
    head' := head;
    if del.prev != null {
      del.prev.next := del.next;
    } else {
      head' := del.next;
    }
  }

  method SkipPrev<K, V>(del: Handle<K, V>, ghost list: seq<Handle<K, V>>, ghost p: nat)
    requires NoRepeats(list) && PrevLinks(list) && p < |list| && list[p] == del && del.next == At(list, p + 1)
    modifies (if p == |list| - 1 then {} else {list[p + 1]})`prev
    ensures PrevPast(list, p)
  {
    hide NoRepeats;
    OnlyHere(list, p + 1);
    if del.next != null {
      del.next.prev := del.prev;
    }
  }

  /** `HASH_DELETE` on the list. */
  method Unlink<K, V>(del: Handle<K, V>, head: Handle<K, V>, tail: Handle<K, V>,
                      ghost list: seq<Handle<K, V>>, ghost p: nat)
    returns (head': Link<K, V>, tail': Link<K, V>)
    requires InOrder(list, head, tail) && p < |list| && list[p] == del
    modifies (if p == 0 then {} else {list[p - 1]})`next
    modifies (if p == |list| - 1 then {} else {list[p + 1]})`prev
    ensures InOrder(Cut(list, p), head', tail')
  {
    hide NoRepeats, Cut, NextPast, PrevPast;
    OnlyHere(list, p);
    OnlyHere(list, p - 1);
    tail' := tail;
    if del == tail {
      tail' := del.prev;
    }
    head' := SkipNext(del, head, list, p);
    SkipPrev(del, list, p);
    PastIsInOrder(list, p);
  }

  // ----- expansion -----

  function NoHeads<K, V>(n: nat): (r: seq<Head<K, V>>)
    ensures |r| == n
  {
    seq(n, _ => Head(null, 0, 0))
  }

  ghost function NoChains<K, V>(n: nat): (r: seq<seq<Handle<K, V>>>)
    ensures |r| == n && forall k | 0 <= k < n :: r[k] == []
  {
    seq(n, _ => [])
  }

  lemma NoneAreHeads<K, V>(n: nat, all: seq<Handle<K, V>>)
    ensures Heads(NoHeads<K, V>(n), NoChains<K, V>(n), all)
    ensures View(NoHeads<K, V>(n), NoChains<K, V>(n)) == NoBuckets<K, V>(n)
  {
  }

  lemma ElsewhereNot<K, V>(chains: seq<seq<Handle<K, V>>>, hhHead: Link<K, V>, all: seq<Handle<K, V>>,
                           j: nat, k: nat)
    requires Placed(chains, all) && j < |chains| && k < |chains| && j != k && Chained(chains[k], hhHead)
    ensures hhHead !in chains[j]
  {
    hide ToBkt;
  }

  lemma FrontIsPlaced<K, V>(chains: seq<seq<Handle<K, V>>>, all: seq<Handle<K, V>>, x: Handle<K, V>, k: nat)
    requires Placed(chains, all) && x in all && k < |chains| && ToBkt(x.data.hashv, |chains|) == k
    ensures Placed(chains[k := [x] + chains[k]], all)
  {
    hide And;
    var c := chains[k := [x] + chains[k]];
    forall j, i | 0 <= j < |c| && 0 <= i < |c[j]| ensures c[j][i] in all && ToBkt(c[j][i].data.hashv, |c|) == j {
      assert c[j][i] == if j != k then chains[j][i] else if i == 0 then x else chains[j][i - 1];
    }
  }

  lemma {:induction false} ViewFront<K, V>(buckets: seq<Head<K, V>>, chains: seq<seq<Handle<K, V>>>, k: nat,
                                           x: Handle<K, V>, b: Head<K, V>)
    requires |buckets| == |chains| && k < |chains|
    ensures View(buckets[k := b], chains[k := [x] + chains[k]]) ==
            View(buckets, chains)[k := Bucket([x.data] + Items(chains[k]), b.count, b.expandMult)]
  {
    hide View;
    assert Items([x] + chains[k]) == [x.data] + Items(chains[k]);
  }

  /** `x` goes to the front of its chain, whose head gets the counters of `b`. */
  method ToFront<K, V>(x: Handle<K, V>, buckets: seq<Head<K, V>>, b: Head<K, V>,
                       ghost chains: seq<seq<Handle<K, V>>>, ghost all: seq<Handle<K, V>>)
    returns (buckets': seq<Head<K, V>>)
    requires buckets != [] && Heads(buckets, chains, all) && x in all
    requires forall k | 0 <= k < |chains| :: x !in chains[k]
    requires b.hhHead == buckets[ToBkt(x.data.hashv, |buckets|)].hhHead
    modifies x`hhNext, x`hhPrev, (if b.hhHead == null then {} else {b.hhHead})`hhPrev
    ensures |buckets'| == |buckets|
    ensures var k := ToBkt(x.data.hashv, |buckets|); Heads(buckets', chains[k := [x] + chains[k]], all)
    ensures var k := ToBkt(x.data.hashv, |buckets|);
            View(buckets', chains[k := [x] + chains[k]]) ==
            View(buckets, chains)[k := Bucket([x.data] + Items(chains[k]), b.count, b.expandMult)]
  {
    hide NoRepeats, And, Chained, Placed, ToBkt, View, Items;
    var k := ToBkt(x.data.hashv, |buckets|);
    forall j | 0 <= j < |chains| && j != k ensures buckets[k].hhHead !in chains[j] {
      ElsewhereNot(chains, buckets[k].hhHead, all, j, k);
    }
    FrontIsPlaced(chains, all, x, k);
    PushFront(x, b.hhHead, chains[k]);
    buckets' := buckets[k := b.(hhHead := x)];
    ghost var chains' := chains[k := [x] + chains[k]];
    ViewFront(buckets, chains, k, x, b.(hhHead := x));
  }

  /** One turn of the inner loop. */
  method MoveHandle<K, V>(x: Handle<K, V>, newBuckets: seq<Head<K, V>>, nonideal: nat, ideal: nat,
                          ghost newChains: seq<seq<Handle<K, V>>>, ghost all: seq<Handle<K, V>>)
    returns (newBuckets': seq<Head<K, V>>, nonideal': nat, ghost newChains': seq<seq<Handle<K, V>>>)
    requires newBuckets != [] && ideal > 0 && Heads(newBuckets, newChains, all) && x in all
    requires forall k | 0 <= k < |newChains| :: x !in newChains[k]
    modifies x`hhNext, x`hhPrev
    modifies (var h := newBuckets[ToBkt(x.data.hashv, |newBuckets|)].hhHead; if h == null then {} else {h})`hhPrev
    ensures Heads(newBuckets', newChains', all) && |newBuckets'| == |newBuckets|
    ensures var k := ToBkt(x.data.hashv, |newBuckets|); newChains' == newChains[k := [x] + newChains[k]]
    ensures Moved(View(newBuckets', newChains'), nonideal') ==
            MoveItem(Moved(View(newBuckets, newChains), nonideal), x.data, ideal)
  {
    hide NoRepeats, And, Chained, Placed, ToBkt, Items;
    var k := ToBkt(x.data.hashv, |newBuckets|);
    var newbkt := newBuckets[k];
    newbkt := newbkt.(count := newbkt.count + 1);
    nonideal' := nonideal;
    if newbkt.count > ideal {
      nonideal' := nonideal + 1;
      newbkt := newbkt.(expandMult := newbkt.count / ideal);
    }
    newBuckets' := ToFront(x, newBuckets, newbkt, newChains, all);
    newChains' := newChains[k := [x] + newChains[k]];
  }

  /** No handle of the new chains is still to be moved. */
  ghost predicate Apart<K, V>(chains: seq<seq<Handle<K, V>>>, rest: seq<Handle<K, V>>) {
    forall k, l | 0 <= k < |chains| && 0 <= l < |chains[k]| :: chains[k][l] !in rest
  }

  /** All of the new chains comes from the first `i` of `n` old ones. */
  ghost predicate Below<K, V>(chains: seq<seq<Handle<K, V>>>, n: nat, i: nat)
    requires n > 0
  {
    forall k, l | 0 <= k < |chains| && 0 <= l < |chains[k]| :: ToBkt(chains[k][l].data.hashv, n) < i
  }

  ghost predicate AllFrom<K, V>(chain: seq<Handle<K, V>>, n: nat, i: nat, all: seq<Handle<K, V>>)
    requires n > 0
  {
    forall l | 0 <= l < |chain| :: chain[l] in all && ToBkt(chain[l].data.hashv, n) == i
  }

  lemma BelowIsApart<K, V>(chains: seq<seq<Handle<K, V>>>, chain: seq<Handle<K, V>>, n: nat, i: nat,
                           all: seq<Handle<K, V>>)
    requires n > 0 && Below(chains, n, i) && AllFrom(chain, n, i, all)
    ensures Apart(chains, chain) && Below(chains, n, i + 1)
  {
    hide ToBkt;
  }

  lemma FrontMoves<K, V>(chains: seq<seq<Handle<K, V>>>, rest: seq<Handle<K, V>>, k: nat, n: nat, i: nat,
                         all: seq<Handle<K, V>>)
    requires n > 0 && k < |chains| && rest != [] && NoRepeats(rest) && Apart(chains, rest)
    requires Below(chains, n, i + 1) && AllFrom(rest, n, i, all)
    ensures var c := chains[k := [rest[0]] + chains[k]]; Apart(c, rest[1..]) && Below(c, n, i + 1)
    ensures rest[0] in all && AllFrom(rest[1..], n, i, all) && forall j | 0 <= j < |chains| :: rest[0] !in chains[j]
  {
    hide ToBkt;
    var c := chains[k := [rest[0]] + chains[k]];
    forall j, l | 0 <= j < |c| && 0 <= l < |c[j]|
      ensures c[j][l] !in rest[1..] && ToBkt(c[j][l].data.hashv, n) < i + 1
    {
      assert c[j][l] == if j != k then chains[j][l] else if l == 0 then rest[0] else chains[j][l - 1];
    }
  }

  lemma FollowingRest<K, V>(s: seq<Handle<K, V>>, thh: Handle<K, V>)
    requires Following(s, thh)
    ensures NoRepeats(s) && s != [] && thh == s[0] && Following(s[1..], s[0].hhNext) && thh !in s[1..]
  {
    assert forall i | 0 <= i < |s| - 1 :: s[1..][i] == s[i + 1];
  }

  /** The chains are linked, and each lies apart from the others. */
  lemma HeadsGive<K, V>(buckets: seq<Head<K, V>>, chains: seq<seq<Handle<K, V>>>, all: seq<Handle<K, V>>, k: nat)
    requires Heads(buckets, chains, all) && k < |chains|
    ensures Following(chains[k], buckets[k].hhHead) && AllFrom(chains[k], |chains|, k, all)
    ensures buckets[k].hhHead == null || buckets[k].hhHead in all
  {
    hide NoRepeats, ToBkt;
  }

  /** The inner loop. */
  method MoveChain<K, V>(hhHead: Link<K, V>, newBuckets: seq<Head<K, V>>, nonideal: nat, ideal: nat,
                         ghost chain: seq<Handle<K, V>>, ghost newChains: seq<seq<Handle<K, V>>>,
                         ghost n: nat, ghost i: nat, ghost all: seq<Handle<K, V>>)
    returns (newBuckets': seq<Head<K, V>>, nonideal': nat, ghost newChains': seq<seq<Handle<K, V>>>)
    requires newBuckets != [] && ideal > 0 && n > 0
    requires Heads(newBuckets, newChains, all) && Below(newChains, n, i)
    requires Following(chain, hhHead) && AllFrom(chain, n, i, all)
    modifies chain`hhNext, all`hhPrev
    ensures |newBuckets'| == |newBuckets| && Heads(newBuckets', newChains', all) && Below(newChains', n, i + 1)
    ensures Moved(View(newBuckets', newChains'), nonideal') ==
            MoveItems(Moved(View(newBuckets, newChains), nonideal), Items(chain), ideal)
  {
    hide MoveItems, And, NoRepeats, MoveItem, Chained, Following, ToBkt, Apart, Below, AllFrom, Items, View, Placed;
    BelowIsApart(newChains, chain, n, i, all);
    newBuckets', nonideal', newChains' := newBuckets, nonideal, newChains;
    var thh := hhHead;
    ghost var rest := chain;
    while thh != null
      invariant |newBuckets'| == |newBuckets| && Heads(newBuckets', newChains', all) && Following(rest, thh)
      invariant forall l | 0 <= l < |rest| :: rest[l] in chain
      invariant Apart(newChains', rest) && Below(newChains', n, i + 1) && AllFrom(rest, n, i, all)
      invariant MoveItems(Moved(View(newBuckets', newChains'), nonideal'), Items(rest), ideal) ==
                MoveItems(Moved(View(newBuckets, newChains), nonideal), Items(chain), ideal)
      decreases |rest|
    {
      var nxt := thh.hhNext;
      FollowingRest(rest, thh);
      MoveNext(Moved(View(newBuckets', newChains'), nonideal'), rest, ideal);
      FrontMoves(newChains', rest, ToBkt(thh.data.hashv, |newBuckets|), n, i, all);
      HeadsGive(newBuckets', newChains', all, ToBkt(thh.data.hashv, |newBuckets|));
      newBuckets', nonideal', newChains' := MoveHandle(thh, newBuckets', nonideal', ideal, newChains', all);
      rest := rest[1..];
      thh := nxt;
    }
    NothingLeft(rest, Moved(View(newBuckets', newChains'), nonideal'), ideal);
  }

  lemma MoveNext<K, V>(m: Moved<K, V>, rest: seq<Handle<K, V>>, ideal: nat)
    requires m.buckets != [] && ideal > 0 && rest != []
    ensures MoveItems(m, Items(rest), ideal) == MoveItems(MoveItem(m, rest[0].data, ideal), Items(rest[1..]), ideal)
  {
    assert Items(rest)[1..] == Items(rest[1..]);
  }

  lemma NothingLeft<K, V>(rest: seq<Handle<K, V>>, m: Moved<K, V>, ideal: nat)
    requires m.buckets != [] && ideal > 0 && Following(rest, null)
    ensures MoveItems(m, Items(rest), ideal) == m
  {
  }

  lemma {:induction false} MoveBoth<K, V>(m: Moved<K, V>, a: seq<Item<K, V>>, b: seq<Item<K, V>>, ideal: nat)
    requires m.buckets != [] && ideal > 0
    ensures MoveItems(m, a + b, ideal) == MoveItems(MoveItems(m, a, ideal), b, ideal)
    decreases |a|
  {
    if a == [] {
      assert a + b == b;
    } else {
      assert (a + b)[1..] == a[1..] + b;
      MoveBoth(MoveItem(m, a[0], ideal), a[1..], b, ideal);
    }
  }

  lemma MoveFlat<K, V>(m: Moved<K, V>, buckets: seq<Bucket<K, V>>, i: nat, ideal: nat)
    requires m.buckets != [] && ideal > 0 && i < |buckets|
    ensures MoveItems(m, Flat(buckets[i..]), ideal) ==
            MoveItems(MoveItems(m, buckets[i].chain, ideal), Flat(buckets[i + 1..]), ideal)
  {
    assert buckets[i..][1..] == buckets[i + 1..];
    MoveBoth(m, buckets[i].chain, Flat(buckets[i + 1..]), ideal);
  }

  lemma AllMoved<K, V>(m: Moved<K, V>, buckets: seq<Bucket<K, V>>, ideal: nat)
    requires m.buckets != [] && ideal > 0
    ensures MoveItems(m, Flat(buckets[|buckets|..]), ideal) == m
    ensures buckets[0..] == buckets
  {
  }

  lemma InAll<K, V>(chain: seq<Handle<K, V>>, n: nat, i: nat, all: seq<Handle<K, V>>)
    requires n > 0 && AllFrom(chain, n, i, all)
    ensures forall l | 0 <= l < |chain| :: chain[l] in all
  {
  }

  lemma ChainsDiffer<K, V>(a: seq<Handle<K, V>>, b: seq<Handle<K, V>>, n: nat, i: nat, j: nat, all: seq<Handle<K, V>>)
    requires n > 0 && i != j && AllFrom(a, n, i, all) && AllFrom(b, n, j, all)
    ensures forall l | 0 <= l < |a| :: a[l] !in b
  {
    hide ToBkt;
  }

  /** Both loops of `HASH_EXPAND_BUCKETS`. */
  method MoveAll<K, V>(buckets: seq<Head<K, V>>, ideal: nat,
                       ghost chains: seq<seq<Handle<K, V>>>, ghost all: seq<Handle<K, V>>)
    returns (newBuckets: seq<Head<K, V>>, nonideal: nat, ghost newChains: seq<seq<Handle<K, V>>>)
    requires buckets != [] && ideal > 0 && Heads(buckets, chains, all)
    modifies all`hhNext, all`hhPrev
    ensures |newBuckets| == 2 * |buckets| && Heads(newBuckets, newChains, all)
    ensures Moved(View(newBuckets, newChains), nonideal) ==
            MoveItems(Moved(NoBuckets(2 * |buckets|), 0), Flat(View(buckets, chains)), ideal)
  {
    hide MoveItems, Flat, And, NoRepeats, Chained, Following, ToBkt, Below, AllFrom, Items, View, Placed;
    ghost var was := View(buckets, chains);
    var n := |buckets|;
    newBuckets, newChains, nonideal := NoHeads(2 * n), NoChains(2 * n), 0;
    NoneAreHeads(2 * n, all);
    NoneBelow<K, V>(2 * n, n);
    AllMoved(Moved(NoBuckets<K, V>(2 * n), 0), was, ideal);
    forall k | 0 <= k < n ensures Following(chains[k], buckets[k].hhHead) && AllFrom(chains[k], n, k, all) {
      HeadsGive(buckets, chains, all, k);
    }
    for i := 0 to n
      invariant |newBuckets| == 2 * n && Heads(newBuckets, newChains, all) && Below(newChains, n, i)
      invariant forall k | i <= k < n :: Following(chains[k], buckets[k].hhHead)
      invariant MoveItems(Moved(View(newBuckets, newChains), nonideal), Flat(was[i..]), ideal) ==
                MoveItems(Moved(NoBuckets(2 * n), 0), Flat(was), ideal)
    {
      MoveFlat(Moved(View(newBuckets, newChains), nonideal), was, i, ideal);
      InAll(chains[i], n, i, all);
      forall k | i < k < n ensures forall l | 0 <= l < |chains[i]| :: chains[i][l] !in chains[k] {
        ChainsDiffer(chains[i], chains[k], n, i, k, all);
      }
      newBuckets, nonideal, newChains :=
        MoveChain(buckets[i].hhHead, newBuckets, nonideal, ideal, chains[i], newChains, n, i, all);
    }
    AllMoved(Moved(View(newBuckets, newChains), nonideal), was, ideal);
  }

  lemma NoneBelow<K, V>(m: nat, n: nat)
    requires n > 0
    ensures Below(NoChains<K, V>(m), n, 0)
  {
  }

  /** `HASH_FIND_IN_BKT`. */
  method FindInBkt<K(==), V(==)>(hhHead: Link<K, V>, key: K, ghost chain: seq<Handle<K, V>>)
    returns (out: Link<K, V>)
    requires Chained(chain, hhHead)
    ensures out == null ==> FindIn(Items(chain), key) == None
    ensures out != null ==> out in chain && out.data.key == key && FindIn(Items(chain), key) == Some(out.data)
  {
    hide NoRepeats, Items;
    out := hhHead;
    ghost var i, items := 0, Items(chain);
    assert items[0..] == items;
    while out != null && out.data.key != key
      invariant 0 <= i <= |chain| && out == At(chain, i) && FindIn(items, key) == FindIn(items[i..], key)
      decreases |chain| - i
    {
      out := out.hhNext;
      assert items[i..][1..] == items[i + 1..];
      i := i + 1;
    }
  }

  // ----- the checks of `HASH_FSCK` -----

  /** Along a chain every `hh_prev` is the handle before. */
  method FsckChain<K, V>(hhHead: Link<K, V>, ghost chain: seq<Handle<K, V>>) returns (ok: bool, count: nat)
    requires Chained(chain, hhHead)
    ensures ok && count == |chain|
  {
    ok, count := true, 0;
    var thh, prev: Link<K, V> := hhHead, null;
    while thh != null
      invariant ok && count <= |chain| && thh == At(chain, count) && prev == At(chain, count - 1)
      decreases |chain| - count
    {
      ok := ok && prev == thh.hhPrev;
      count := count + 1;
      prev := thh;
      thh := thh.hhNext;
    }
  }

  /** Along the list every `prev` is the handle before. */
  method FsckList<K, V>(head: Link<K, V>, ghost tail: Link<K, V>, ghost list: seq<Handle<K, V>>)
    returns (ok: bool, count: nat)
    requires InOrder(list, head, tail)
    ensures ok && count == |list|
  {
    ok, count := true, 0;
    var thh, prev: Link<K, V> := head, null;
    while thh != null
      invariant ok && count <= |list| && thh == At(list, count) && prev == At(list, count - 1)
      decreases |list| - count
    {
      ok := ok && prev == thh.prev;
      count := count + 1;
      prev := thh;
      thh := thh.next;
    }
  }

  // ----- the list as the sorts see it -----

  lemma ToShape<K, V>(s: seq<Handle<K, V>>, head: Link<K, V>, tail: Link<K, V>)
    requires InOrder(s, head, tail)
    ensures ListSort.Shape(ListSort.Hashed, s) && head == ListSort.First(s)
  {
  }

  lemma FromShape<K, V>(s: seq<Handle<K, V>>, head: Link<K, V>, tail: Link<K, V>)
    requires ListSort.Shape(ListSort.Hashed, s) && head == ListSort.First(s) && tail == ListSort.Last(s)
    ensures InOrder(s, head, tail)
  {
  }

  /** The chains consist of handles of the list in any order. */
  lemma SamePlaces<K, V>(buckets: seq<Head<K, V>>, chains: seq<seq<Handle<K, V>>>,
                         s: seq<Handle<K, V>>, t: seq<Handle<K, V>>)
    requires Heads(buckets, chains, s) && multiset(t) == multiset(s)
    ensures Heads(buckets, chains, t)
  {
    hide ToBkt, NoRepeats, HhNextLinks, HhPrevLinks;
    forall k, i | 0 <= k < |chains| && 0 <= i < |chains[k]| ensures chains[k][i] in t {
      assert chains[k][i] in multiset(s);
    }
  }

  lemma CutLeaves<T>(s: seq<T>, p: nat)
    requires p < |s|
    ensures multiset(s) == multiset(Cut(s, p)) + multiset{s[p]}
  {
    assert s == s[..p] + [s[p]] + s[p + 1..];
  }

  lemma Cancels<T>(a: multiset<T>, b: multiset<T>, x: T)
    requires a + multiset{x} == b + multiset{x}
    ensures a == b
  {
    forall y: T | y in a || y in b ensures a[y] == b[y] {
      assert (a + multiset{x})[y] == (b + multiset{x})[y];
    }
  }

  lemma ItemsOfCut<K, V>(s: seq<Handle<K, V>>, p: nat)
    requires p < |s|
    ensures Items(Cut(s, p)) == Cut(Items(s), p)
  {
    hide Items, Cut;
    CutIs(s, p);
    CutIs(Items(s), p);
    forall i | 0 <= i < |s| - 1 ensures Items(Cut(s, p))[i] == Cut(Items(s), p)[i] {
    }
  }

  lemma {:induction false} ItemsPermute<K, V>(s: seq<Handle<K, V>>, t: seq<Handle<K, V>>)
    requires multiset(t) == multiset(s)
    ensures multiset(Items(t)) == multiset(Items(s))
    decreases |s|
  {
    hide Cut;
    if s == [] {
      assert |t| == |multiset(t)| == 0;
    } else {
      assert s[0] in multiset(t);
      var p :| 0 <= p < |t| && t[p] == s[0];
      CutIs(s, 0);
      CutLeaves(s, 0);
      CutLeaves(t, p);
      Cancels(multiset(Cut(t, p)), multiset(Cut(s, 0)), s[0]);
      ItemsPermute(Cut(s, 0), Cut(t, p));
      ItemsOfCut(s, 0);
      ItemsOfCut(t, p);
      CutLeaves(Items(s), 0);
      CutLeaves(Items(t), p);
    }
  }

  lemma InList<K, V>(list: seq<Handle<K, V>>, h: Handle<K, V>) returns (p: nat)
    requires h in list
    ensures p < |list| && list[p] == h && h.data in Items(list)
  {
    p :| 0 <= p < |list| && list[p] == h;
    assert Items(list)[p] == h.data;
  }

  /** What the invariant of the table says of an item in it. */
  lemma TableHas<K, V>(t: Table<K, V>, hash: K -> nat, x: Item<K, V>)
    requires Inv(t, hash) && x in t.items
    ensures NoRepeats(t.items) && t.numItems == |t.items| > 0 && t.numBuckets == |t.buckets| > 0
    ensures var b := t.buckets[ToBkt(x.hashv, t.numBuckets)];
            x in b.chain && NoRepeats(b.chain) && b.count == |b.chain| > 0
  {
    hide ToBkt, NoRepeats, Total, Pow2, KeysDiffer;
    DifferentKeys(t.items);
  }

  /** The handle of an item in the chain is the one in the list. */
  lemma PlaceInChain<K, V>(chains: seq<seq<Handle<K, V>>>, list: seq<Handle<K, V>>, k: nat, h: Handle<K, V>)
    returns (q: nat)
    requires Placed(chains, list) && NoRepeats(Items(list)) && h in list
    requires k < |chains| && h.data in Items(chains[k])
    ensures q < |chains[k]| && chains[k][q] == h
  {
    hide ToBkt, NoRepeats, Items;
    q :| 0 <= q < |chains[k]| && Items(chains[k])[q] == h.data;
    var p := InList(list, h);
    var l := InList(list, chains[k][q]);
    SameItem(list, l, p);
  }

  // ----- the table -----

  class Hash<K(==), V(==)> {
    const hash: K -> nat
    var head: Link<K, V>
    var tail: Link<K, V>
    var buckets: seq<Head<K, V>>
    var numBuckets: nat
    var log2NumBuckets: nat
    var numItems: nat
    var ineffExpands: nat
    var noexpand: bool
    ghost var list: seq<Handle<K, V>>
    ghost var chains: seq<seq<Handle<K, V>>>

    ghost function State(): Table<K, V>
      reads this
    {
      Table(Items(list), View(buckets, chains), numBuckets, log2NumBuckets, numItems, ineffExpands, noexpand)
    }

    /** The list and the chains are linked both ways, and every chain consists of handles of the list. */
    ghost predicate Linked()
      reads this, list
    {
      InOrder(list, head, tail) && Heads(buckets, chains, list)
    }

    ghost predicate Valid()
      reads this, list
    {
      Linked() && Inv(State(), hash)
    }

    constructor (hash: K -> nat)
      ensures Valid() && list == [] && this.hash == hash
    {
      this.hash := hash;
      head, tail, buckets := null, null, [];
      numBuckets, log2NumBuckets, numItems, ineffExpands, noexpand := 0, 0, 0, 0, false;
      list, chains := [], [];
    }

    /** `HASH_EXPAND_BUCKETS`: two loops move the handles, chain by chain, into twice as many buckets. */
    method ExpandBuckets()
      requires Linked() && numBuckets == |buckets| == Pow2(log2NumBuckets) && numItems > 0
      modifies this, list`hhNext, list`hhPrev
      ensures Linked() && list == old(list) && State() == Expand(old(State()))
    {
      hide MoveItems, Flat, And, Pow2, Ideal, InOrder, Heads, Items, View, NoBuckets, ToBkt, NoRepeats, Placed;
      PowNext(log2NumBuckets);
      IdealIsCeiling(numItems, log2NumBuckets + 1);
      HeadsSize(buckets, chains, list);
      var idealChainMaxlen := Ideal(numItems, 2 * numBuckets);
      var newBuckets, nonidealItems;
      ghost var newChains;
      newBuckets, nonidealItems, newChains := MoveAll(buckets, idealChainMaxlen, chains, list);
      HeadsSize(newBuckets, newChains, list);
      numBuckets := numBuckets * 2;
      log2NumBuckets := log2NumBuckets + 1;
      buckets, chains := newBuckets, newChains;
      ineffExpands := if nonidealItems > numItems / 2 then ineffExpands + 1 else 0;
      if ineffExpands > 1 {
        noexpand := true;
      }
    }

    /** `HASH_MAKE_TABLE`. */
    method MakeTable()
      requires Linked() && list == []
      modifies this
      ensures Linked() && list == [] && State() == HashTable.MakeTable()
    {
      hide Heads, InOrder, NoBuckets, View;
      NoneAreHeads(HASH_INITIAL_NUM_BUCKETS, list);
      buckets, chains := NoHeads(HASH_INITIAL_NUM_BUCKETS), NoChains(HASH_INITIAL_NUM_BUCKETS);
      numBuckets, log2NumBuckets := HASH_INITIAL_NUM_BUCKETS, HASH_INITIAL_NUM_BUCKETS_LOG2;
      numItems, ineffExpands, noexpand := 0, 0, false;
    }

    /** The end of the list. */
    method AppendItem(add: Handle<K, V>)
      requires Linked() && add !in list
      modifies this`head, this`tail, this`numItems, this`list, add`next, add`prev, list`next
      ensures list == old(list) + [add] && numItems == old(numItems) + 1
      ensures Linked() && Items(list) == old(Items(list)) + [add.data]
      ensures forall k | 0 <= k < |chains| :: add !in chains[k]
    {
      hide InOrder, Heads, Items;
      ListOf(list, head, tail);
      OneMore(buckets, chains, list, add);
      head, tail := Append(add, head, tail, list);
      list := list + [add];
      numItems := numItems + 1;
    }

    /** `HASH_ADD_TO_BKT` up to its test. */
    method AddToBkt(add: Handle<K, V>) returns (bkt: nat)
      requires |buckets| == numBuckets > 0 && Linked() && add in list
      requires forall k | 0 <= k < |chains| :: add !in chains[k]
      modifies this`buckets, this`chains, list`hhNext, list`hhPrev
      ensures |buckets| == numBuckets == |chains| && bkt == ToBkt(add.data.hashv, numBuckets)
      ensures Linked()
      ensures var b := old(State()).buckets[bkt];
              State().buckets == old(State()).buckets[bkt := Bucket([add.data] + b.chain, b.count + 1, b.expandMult)]
    {
      hide And, InOrder, Heads, Items, View, NoRepeats, ToBkt;
      HeadsSize(buckets, chains, list);
      bkt := ToBkt(add.data.hashv, numBuckets);
      HeadsGive(buckets, chains, list, bkt);
      var b := buckets[bkt];
      b := b.(count := b.count + 1);
      buckets := ToFront(add, buckets, b, chains, list);
      chains := chains[bkt := [add] + chains[bkt]];
    }

    /** `HASH_ADD` of a handle whose key is not there yet. */
    method AddItem(add: Handle<K, V>)
      requires Valid() && add !in list && Proper(State().items, hash, OpAdd(add.data))
      modifies this, add, list
      ensures Valid() && list == old(list) + [add]
      ensures State() == Step(old(State()), hash, OpAdd(add.data))
    {
      hide Sound, Pow2, And, Expand, InOrder, Heads, Items, View, NoBuckets, NoRepeats, KeysDiffer, Linked, Inv, ToBkt;
      AddKeeps(State(), hash, add.data);
      MadeSize<K, V>();
      HeadAndTail();
      if head == null {
        MakeTable();
      }
      HeadAndTail();
      AppendItem(add);
      var bkt := AddToBkt(add);
      if buckets[bkt].count >= (buckets[bkt].expandMult + 1) * HASH_BKT_CAPACITY_THRESH && !noexpand {
        ExpandBuckets();
      }
    }

    /** `HASH_DEL_IN_BKT`. */
    method DelInBkt(del: Handle<K, V>, ghost q: nat) returns (bkt: nat)
      requires |buckets| == numBuckets > 0 && Heads(buckets, chains, list)
      requires var k := ToBkt(del.data.hashv, numBuckets);
               buckets[k].count > 0 && |chains| == numBuckets && q < |chains[k]| && chains[k][q] == del
      modifies this`buckets, this`chains, list`hhNext, list`hhPrev
      ensures |buckets| == numBuckets == |chains| && bkt == ToBkt(del.data.hashv, numBuckets)
      ensures Heads(buckets, chains, list) && chains == old(chains)[bkt := Cut(old(chains)[bkt], q)]
      ensures forall i | 0 <= i < numBuckets ::
                buckets[i].count == old(buckets)[i].count - (if i == bkt then 1 else 0) &&
                buckets[i].expandMult == old(buckets)[i].expandMult
    {
      hide And, InOrder, Items, NoRepeats, ToBkt, Placed, Chained, Cut, At;
      bkt := ToBkt(del.data.hashv, numBuckets);
      NeighboursElsewhere(chains, list, bkt, q);
      CutIsPlaced(chains, list, bkt, q);
      var head := buckets[bkt];
      var hhHead := Unchain(del, head.hhHead, chains[bkt], q);
      buckets := buckets[bkt := Head(hhHead, head.count - 1, head.expandMult)];
      chains := chains[bkt := Cut(chains[bkt], q)];
    }

    /** `HASH_DELETE` of one handle of several. */
    method Detach(del: Handle<K, V>, ghost p: nat, ghost q: nat)
      requires |buckets| == numBuckets == |chains| > 0 && numItems > 0 && p < |list| && list[p] == del
      requires Linked() && Placed(chains, list)
      requires var k := ToBkt(del.data.hashv, numBuckets);
               buckets[k].count > 0 && q < |chains[k]| && chains[k][q] == del && NoRepeats(chains[k])
      modifies this`head, this`tail, this`buckets, this`chains, this`numItems, this`list, list
      ensures |buckets| == numBuckets == |chains| && numItems == old(numItems) - 1 && list == Cut(old(list), p)
      ensures Linked()
      ensures var k := ToBkt(del.data.hashv, numBuckets);
              View(buckets, chains) ==
              old(View(buckets, chains))
              [k := Bucket(Items(Cut(old(chains)[k], q)), old(buckets)[k].count - 1, old(buckets)[k].expandMult)]
    {
      hide And, InOrder, Heads, Items, View, NoRepeats, ToBkt, Cut, Placed;
      Alone(list, head, tail, p);
      head, tail := Unlink(del, head, tail, list, p);
      assert InOrder(Cut(list, p), head, tail);
      numItems := numItems - 1;
      var bkt := DelInBkt(del, q);
      assert InOrder(Cut(list, p), head, tail);
      OneLess(buckets, old(chains), bkt, list, p, q);
      ViewCut(old(buckets), buckets, old(chains), bkt, q);
      list := Cut(list, p);
    }

    /** `HASH_DELETE` of a handle of the table. */
    method DeleteItem(del: Handle<K, V>)
      requires Valid() && del in list
      modifies this, list
      ensures Valid() && list == Without(old(list), del)
      ensures State() == Step(old(State()), hash, OpDelete(del.data))
    {
      hide And, Pow2, Sound, Hashed, Inv, KeysDiffer, InOrder, Heads, Items, View, NoRepeats, ToBkt, Cut, Without,
           Placed;
      ghost var p, q := WhereIs(del);
      StepKeeps(State(), hash, OpDelete(del.data));
      if del.prev == null && del.next == null {
        head, tail, buckets := null, null, [];
        numBuckets, log2NumBuckets, numItems, ineffExpands, noexpand := 0, 0, 0, 0, false;
        list, chains := [], [];
        NothingIsLinked<K, V>();
      } else {
        Detach(del, p, q);
      }
    }

    /** The places of a handle in the list and in its chain, and what goes when it is cut out there. */
    lemma WhereIs(del: Handle<K, V>) returns (p: nat, q: nat)
      requires Valid() && del in list
      ensures p < |list| && list[p] == del && Without(list, del) == Cut(list, p)
      ensures Items(Cut(list, p)) == Without(Items(list), del.data) && |Items(list)| == |list|
      ensures |buckets| == |chains| == numBuckets > 0 && numItems > 0 && Placed(chains, list)
      ensures (del.prev == null && del.next == null) <==> |list| == 1
      ensures var k := ToBkt(del.data.hashv, numBuckets);
              && buckets[k].count > 0 && q < |chains[k]| && chains[k][q] == del && NoRepeats(chains[k])
              && Items(Cut(chains[k], q)) == Without(Items(chains[k]), del.data)
    {
      hide And, Pow2, NoRepeats, ToBkt, Cut, Without, Items, View, Inv, InOrder, Placed, Chained;
      HeadAndTail();
      p := InList(list, del);
      TableHas(State(), hash, del.data);
      Alone(list, head, tail, p);
      var k := ToBkt(del.data.hashv, numBuckets);
      q := PlaceInChain(chains, list, k, del);
      CutItems(list, p);
      CutItems(chains[k], q);
      HeadsGive(buckets, chains, list, k);
      ItemsDiffer(chains[k]);
    }

    /** `HASH_FIND`: the handle with that key, if there is one. */
    method FindItem(key: K) returns (out: Link<K, V>)
      requires Valid()
      ensures out == null ==> forall x | x in State().items :: x.key != key
      ensures out != null ==> out in list && out.data.key == key && out.data in State().items
    {
      hide And, Pow2, NoRepeats, ToBkt, KeysDiffer, Total, View, Chained, Items, FindIn, InOrder;
      HeadAndTail();
      if head == null {
        return null;
      }
      FindNone(State(), hash, key);
      var bkt := ToBkt(hash(key), numBuckets);
      out := FindInBkt(buckets[bkt].hhHead, key, chains[bkt]);
      if out != null {
        FindIff(State(), hash, key, out.data);
      }
    }

    /** The loops of `HASH_SRT`. */
    method RelinkList(cmp: MergeSort.Cmp<Item<K, V>>)
      requires InOrder(list, head, tail)
      modifies this`head, this`tail, this`list, list`next, list`prev
      ensures InOrder(list, head, tail)
      ensures list == MergeSort.Passes(ListSort.ByData(cmp), old(list), 1)
      ensures MergeSort.Orders(ListSort.ByData(cmp), MergeSort.Elements(old(list))) ==>
                MergeSort.StableSortOf(ListSort.ByData(cmp), list, old(list))
    {
      hide MergeSort.Passes, MergeSort.Orders, MergeSort.StableSortOf, MergeSort.Elements, ListSort.Shape;
      ToShape(list, head, tail);
      ghost var sorted;
      head, tail, sorted := ListSort.Sort(cmp, ListSort.Hashed, head, list);
      FromShape(sorted, head, tail);
      list := sorted;
    }

    /** `HASH_SRT`: relinks the list in the order of the stable sort and leaves the chains alone. */
    method SortItems(cmp: MergeSort.Cmp<Item<K, V>>)
      requires Valid()
      modifies this`head, this`tail, this`list, list`next, list`prev
      ensures Valid() && State() == old(State()).(items := Items(list))
      ensures list == MergeSort.Passes(ListSort.ByData(cmp), old(list), 1)
      ensures MergeSort.Orders(ListSort.ByData(cmp), MergeSort.Elements(old(list))) ==>
                MergeSort.StableSortOf(ListSort.ByData(cmp), list, old(list))
    {
      hide Inv, InOrder, Heads, Items, View, MergeSort.Passes, MergeSort.Orders, MergeSort.StableSortOf,
           MergeSort.Elements;
      MergeSort.PassesPermute(ListSort.ByData(cmp), list, 1);
      RelinkList(cmp);
      SamePlaces(buckets, chains, old(list), list);
      ItemsPermute(old(list), list);
      ReorderKeeps(old(State()), hash, Items(list));
    }

    /** `HASH_FSCK`, which finds nothing wrong. */
    method Fsck() returns (ok: bool)
      requires Valid()
      ensures ok
    {
      hide And, Pow2, NoRepeats, ToBkt, KeysDiffer, Items, View, Placed, Chained, InOrder;
      HeadAndTail();
      if head == null {
        return true;
      }
      var count: nat := 0;
      ghost var view := View(buckets, chains);
      ok := true;
      for i := 0 to numBuckets
        invariant ok && count == Total(view[..i])
      {
        var good, bktCount := FsckChain(buckets[i].hhHead, chains[i]);
        assert view[i].count == |view[i].chain| == bktCount;
        assert view[..i + 1][..i] == view[..i];
        count := count + bktCount;
        ok := ok && good && buckets[i].count == bktCount;
      }
      assert view[..numBuckets] == view;
      var good, all := FsckList(head, tail, list);
      ok := ok && count == numItems && good && all == numItems;
    }

    lemma HeadAndTail()
      requires Linked()
      ensures |buckets| == |chains| && (head == null <==> list == []) && (head == null <==> State().items == [])
    {
      ListOf(list, head, tail);
    }
  }

  lemma MadeSize<K, V>()
    ensures HashTable.MakeTable<K, V>().numBuckets == Pow2(HASH_INITIAL_NUM_BUCKETS_LOG2)
  {
    assert Pow2(5) == 32;
  }

  lemma {:induction false} WithoutIsCut<T>(s: seq<T>, p: nat)
    requires p < |s| && NoRepeats(s)
    ensures Without(s, s[p]) == Cut(s, p)
  {
    if p > 0 {
      assert forall i | 0 <= i < |s| - 1 :: s[1..][i] == s[i + 1];
      WithoutIsCut(s[1..], p - 1);
      assert Cut(s, p) == [s[0]] + Cut(s[1..], p - 1);
    }
  }

  lemma CutItems<K, V>(s: seq<Handle<K, V>>, p: nat)
    requires p < |s| && NoRepeats(Items(s))
    ensures Items(Cut(s, p)) == Without(Items(s), s[p].data) && Without(s, s[p]) == Cut(s, p)
  {
    hide Cut, Without, Items;
    WithoutIsCut(Items(s), p);
    ItemsDiffer(s);
    WithoutIsCut(s, p);
    CutIs(s, p);
    CutIs(Items(s), p);
    assert Items(Cut(s, p)) == Cut(Items(s), p);
  }

  lemma SameItem<K, V>(s: seq<Handle<K, V>>, i: nat, j: nat)
    requires NoRepeats(Items(s)) && i < |s| && j < |s| && s[i].data == s[j].data
    ensures i == j
  {
    hide Items;
    assert Items(s)[i] == Items(s)[j];
  }

  lemma ItemsDiffer<K, V>(s: seq<Handle<K, V>>)
    requires NoRepeats(Items(s))
    ensures NoRepeats(s)
  {
    hide Items;
    forall i, j | 0 <= i < j < |s| ensures s[i] != s[j] {
      assert Items(s)[i] != Items(s)[j];
    }
  }

  lemma Alone<K, V>(list: seq<Handle<K, V>>, head: Link<K, V>, tail: Link<K, V>, p: nat)
    requires InOrder(list, head, tail) && p < |list|
    ensures head != null && tail != null
    ensures list[p].prev == null && list[p].next == null <==> |list| == 1
    ensures forall i | 0 <= i < |list| :: list[i] in list
  {
  }

  lemma NothingIsLinked<K, V>()
    ensures InOrder<K, V>([], null, null) && Heads<K, V>([], [], []) && View<K, V>([], []) == [] &&
            Items<K, V>([]) == []
    ensures forall x: Handle<K, V> :: Without([x], x) == []
  {
  }

  /** Cut out of its chain and of the list, a handle leaves the other chains as they are. */
  lemma OneLess<K, V>(buckets: seq<Head<K, V>>, was: seq<seq<Handle<K, V>>>, k: nat, all: seq<Handle<K, V>>,
                      p: nat, q: nat)
    requires p < |all| && k < |was| && q < |was[k]| && was[k][q] == all[p] && NoRepeats(was[k])
    requires Placed(was, all) && Heads(buckets, was[k := Cut(was[k], q)], all)
    ensures Heads(buckets, was[k := Cut(was[k], q)], Cut(all, p))
  {
    hide Cut, HhNextLinks, HhPrevLinks, ToBkt;
    CutIs(was[k], q);
    var chains := was[k := Cut(was[k], q)];
    forall j, i | 0 <= j < |chains| && 0 <= i < |chains[j]| ensures chains[j][i] in Cut(all, p) {
      assert chains[j][i] in all && chains[j][i] != all[p];
      InCut(all, p, chains[j][i]);
    }
  }

  lemma InCut<T>(s: seq<T>, p: nat, x: T)
    requires p < |s| && x in s && x != s[p]
    ensures x in Cut(s, p)
  {
    var i :| 0 <= i < |s| && s[i] == x;
    CutIs(s, p);
    assert Cut(s, p)[if i < p then i else i - 1] == x;
  }

  lemma {:induction false} ViewCut<K, V>(was: seq<Head<K, V>>, buckets: seq<Head<K, V>>,
                                         chains: seq<seq<Handle<K, V>>>, k: nat, q: nat)
    requires |was| == |buckets| == |chains| && k < |was| && q < |chains[k]| && was[k].count > 0
    requires forall i | 0 <= i < |was| ::
               buckets[i].count == was[i].count - (if i == k then 1 else 0) &&
               buckets[i].expandMult == was[i].expandMult
    ensures View(buckets, chains[k := Cut(chains[k], q)]) ==
            View(was, chains)[k := Bucket(Items(Cut(chains[k], q)), was[k].count - 1, was[k].expandMult)]
  {
    hide Cut, Items, View;
    var cut := chains[k := Cut(chains[k], q)];
    var b := Bucket(Items(cut[k]), was[k].count - 1, was[k].expandMult);
    forall i | 0 <= i < |was| ensures View(buckets, cut)[i] == View(was, chains)[k := b][i] {
      assert View(was, chains)[i].count == was[i].count;
    }
  }

  lemma NeighboursElsewhere<K, V>(chains: seq<seq<Handle<K, V>>>, all: seq<Handle<K, V>>, k: nat, q: nat)
    requires Placed(chains, all) && k < |chains| && q < |chains[k]|
    ensures q > 0 ==>
              chains[k][q - 1] in all && forall j | 0 <= j < |chains| && j != k :: chains[k][q - 1] !in chains[j]
    ensures q + 1 < |chains[k]| ==>
              chains[k][q + 1] in all && forall j | 0 <= j < |chains| && j != k :: chains[k][q + 1] !in chains[j]
  {
    hide ToBkt;
  }

  lemma CutIsPlaced<K, V>(chains: seq<seq<Handle<K, V>>>, all: seq<Handle<K, V>>, k: nat, q: nat)
    requires Placed(chains, all) && k < |chains| && q < |chains[k]|
    ensures Placed(chains[k := Cut(chains[k], q)], all)
  {
    hide ToBkt, Cut;
    CutIs(chains[k], q);
  }

  /** An empty list is one without a head. */
  lemma ListOf<K, V>(list: seq<Handle<K, V>>, head: Link<K, V>, tail: Link<K, V>)
    requires InOrder(list, head, tail)
    ensures head == null <==> list == []
    ensures head == null <==> Items(list) == []
    ensures tail == null || tail in list
  {
  }

  lemma OneMore<K, V>(buckets: seq<Head<K, V>>, chains: seq<seq<Handle<K, V>>>, all: seq<Handle<K, V>>,
                      add: Handle<K, V>)
    requires Heads(buckets, chains, all) && add !in all
    ensures Heads(buckets, chains, all + [add]) && Items(all + [add]) == Items(all) + [add.data]
    ensures forall k | 0 <= k < |chains| :: add !in chains[k]
  {
    hide ToBkt, NoRepeats, HhNextLinks, HhPrevLinks;
  }

  lemma HeadsSize<K, V>(buckets: seq<Head<K, V>>, chains: seq<seq<Handle<K, V>>>, all: seq<Handle<K, V>>)
    requires Heads(buckets, chains, all)
    ensures |buckets| == |chains|
  {
  }
}
