/**
 * The in-place list sorts of uthash/utlist.h and uthash/uthash.h on linked elements in the heap.
 * `DL_SORT`, `CDL_SORT` and `HASH_SRT` run the same loops and differ in how a pass ends.
 */
module ListSort {
  import opened Base
  import opened MergeSort

  /** An element of a list; the last two links are those of a hash handle, which the sorts leave alone. */
  class Elt<T> {
    const data: T
    var next: Elt?<T>
    var prev: Elt?<T>
    var hhNext: Elt?<T>
    var hhPrev: Elt?<T>

    constructor (data: T)
      ensures this.data == data
    {
      this.data := data;
      next, prev, hhNext, hhPrev := null, null, null, null;
    }
  }

  /** Elements are compared by their data. */
  function ByData<T>(cmp: Cmp<T>): Cmp<Elt<T>> {
    (a: Elt<T>, b: Elt<T>) => cmp(a.data, b.data)
  }

  predicate Distinct<T(==)>(s: seq<T>) {
    forall i, j | 0 <= i < j < |s| :: s[i] != s[j]
  }

  /** Each element points to its successor; nothing is said about the last one. */
  ghost predicate Forward<T>(s: seq<Elt<T>>)
    reads s
  {
    forall i | 0 <= i < |s| - 1 :: s[i].next == s[i + 1]
  }

  ghost predicate Backward<T>(s: seq<Elt<T>>)
    reads s
  {
    forall i | 0 <= i < |s| - 1 :: s[i + 1].prev == s[i]
  }

  function First<T>(s: seq<Elt<T>>): Elt?<T> {
    if s == [] then null else s[0]
  }

  function Last<T>(s: seq<Elt<T>>): Elt?<T> {
    if s == [] then null else s[|s| - 1]
  }

  datatype Kind = Doubly | Circular | Hashed

  /** The shape of a list of each kind: the two outer links of `s`. */
  ghost predicate Shape<T>(kind: Kind, s: seq<Elt<T>>)
    reads s
  {
    && Distinct(s) && Forward(s) && Backward(s)
    && (s != [] ==>
          match kind
          case Doubly => s[0].prev == Last(s) && s[|s| - 1].next == null
          case Circular => s[0].prev == Last(s) && s[|s| - 1].next == s[0]
          case Hashed => s[0].prev == null && s[|s| - 1].next == null)
  }

  /**
   * Inside a pass: `done` is linked up to `tail`, `p` heads the rest of the left run and `q` the
   * rest of the list, whose last element points to `stop`.
   */
  ghost predicate Mid<T>(done: seq<Elt<T>>, left: seq<Elt<T>>, right: seq<Elt<T>>, stop: Elt?<T>,
                         list: Elt?<T>, tail: Elt?<T>, p: Elt?<T>, q: Elt?<T>)
    reads done, left, right
  {
    && Distinct(done + left + right)
    && Forward(done) && Backward(done) && list == First(done) && tail == Last(done)
    && (done != [] ==> done[0].prev == null)
    && Forward(left) && (left != [] ==> p == left[0])
    && Forward(right) && q == First(right)
    && (right != [] ==> right[|right| - 1].next == stop)
    && (stop != null ==> stop !in right && stop !in left[Min(1, |left|)..])
  }

  /** The successor in the list that ends before `stop`. */
  method Advance<T>(e: Elt<T>, stop: Elt?<T>) returns (n: Elt?<T>)
    ensures n == if e.next == stop then null else e.next
  {
    n := e.next;
    if n == stop {
      n := null;
    }
  }

  lemma Apart<T>(a: seq<T>, b: seq<T>)
    requires Distinct(a + b)
    ensures Distinct(a) && Distinct(b)
    ensures forall i, j | 0 <= i < |a| && 0 <= j < |b| :: a[i] != b[j]
  {
    forall i, j | 0 <= i < |a| && 0 <= j < |b| ensures a[i] != b[j] {
      assert (a + b)[i] == a[i] && (a + b)[|a| + j] == b[j];
    }
    forall i, j | 0 <= i < j < |a| ensures a[i] != a[j] {
      assert (a + b)[i] == a[i] && (a + b)[j] == a[j];
    }
    forall i, j | 0 <= i < j < |b| ensures b[i] != b[j] {
      assert (a + b)[|a| + i] == b[i] && (a + b)[|a| + j] == b[j];
    }
  }

  lemma {:induction false} OnceEach<T>(s: seq<T>)
    ensures Distinct(s) <==> forall x | x in s :: multiset(s)[x] == 1
  {
    if s != [] {
      var k := |s| - 1;
      var front := s[..k];
      assert s == front + [s[k]];
      OnceEach(front);
      if Distinct(s) {
        assert s[k] !in front;
      } else if Distinct(front) {
        var i :| 0 <= i < k && s[i] == s[k];
        assert front[i] == s[k] && multiset(front)[s[k]] >= 1;
        assert multiset(s)[s[k]] >= 2;
      } else {
        var x :| x in front && multiset(front)[x] != 1;
        assert x in s && multiset(s)[x] >= multiset(front)[x] > 1;
      }
    }
  }

  lemma PermutationDistinct<T>(s: seq<T>, t: seq<T>)
    requires Distinct(s) && multiset(s) == multiset(t)
    ensures Distinct(t)
  {
    OnceEach(s);
    OnceEach(t);
    forall x | x in t ensures multiset(t)[x] == 1 {
      assert x in multiset(t);
    }
  }

  lemma Apart3<T>(a: seq<T>, b: seq<T>, c: seq<T>)
    requires Distinct(a + b + c)
    ensures Distinct(a) && Distinct(b) && Distinct(c)
    ensures forall i, j | 0 <= i < |a| && 0 <= j < |b| :: a[i] != b[j]
    ensures forall i, j | 0 <= i < |a| && 0 <= j < |c| :: a[i] != c[j]
    ensures forall i, j | 0 <= i < |b| && 0 <= j < |c| :: b[i] != c[j]
  {
    Apart(a + b, c);
    Apart(a, b);
    forall i, j | 0 <= i < |a| && 0 <= j < |c| ensures a[i] != c[j] {
      assert (a + b)[i] == a[i];
    }
    forall i, j | 0 <= i < |b| && 0 <= j < |c| ensures b[i] != c[j] {
      assert (a + b)[|a| + i] == b[i];
    }
  }

  /** Appends `e` to the finished part of the list. */
  method Link<T>(e: Elt<T>, list: Elt?<T>, tail: Elt?<T>, ghost done: seq<Elt<T>>) returns (list': Elt?<T>)
    requires Distinct(done + [e])
    requires Forward(done) && Backward(done) && list == First(done) && tail == Last(done)
    requires done != [] ==> done[0].prev == null
    modifies e`prev, (if done == [] then {} else {done[|done| - 1]})`next
    ensures Forward(done + [e]) && Backward(done + [e]) && list' == First(done + [e])
    ensures (done + [e])[0].prev == null
  {
    Apart(done, [e]);
    assert [e][0] == e;
    if tail != null {
      tail.next := e;
      list' := list;
    } else {
      list' := e;
    }
    e.prev := tail;
  }

  /** The element that comes next is the head of the left run. */
  method TakeLeft<T>(list: Elt?<T>, tail: Elt?<T>, p: Elt<T>, ghost q: Elt?<T>, stop: Elt?<T>,
                     ghost done: seq<Elt<T>>, ghost left: seq<Elt<T>>, ghost right: seq<Elt<T>>)
    returns (list': Elt?<T>, p': Elt?<T>)
    requires Mid(done, left, right, stop, list, tail, p, q) && left != []
    modifies done`next, done`prev, p`next, p`prev
    ensures Mid(done + [p], left[1..], right, stop, list', p, p', q)
  {
    p' := Advance(p, stop);
    Apart3(done, left, right);
    list' := Link(p, list, tail, done);
    assert done + left + right == (done + [p]) + left[1..] + right;
  }

  lemma TakenDistinct<T>(done: seq<T>, left: seq<T>, right: seq<T>)
    requires right != [] && Distinct(done + left + right)
    ensures Distinct(done + [right[0]] + left + right[1..])
  {
    assert right == [right[0]] + right[1..];
    PermutationDistinct(done + left + right, done + [right[0]] + left + right[1..]);
  }

  /** The element that comes next is the head of the right run. */
  method TakeRight<T>(list: Elt?<T>, tail: Elt?<T>, ghost p: Elt?<T>, q: Elt<T>, stop: Elt?<T>,
                      ghost done: seq<Elt<T>>, ghost left: seq<Elt<T>>, ghost right: seq<Elt<T>>)
    returns (list': Elt?<T>, q': Elt?<T>)
    requires Mid(done, left, right, stop, list, tail, p, q)
    modifies done`next, done`prev, q`next, q`prev
    ensures Mid(done + [q], left, right[1..], stop, list', q, p, q')
  {
    q' := Advance(q, stop);
    Apart3(done, left, right);
    list' := Link(q, list, tail, done);
    TakenDistinct(done, left, right);
  }


  /** What a merge still has to do: in the end `done` is `target` and the elements `after` are left. */
  ghost predicate Owes<T>(cmp: Cmp<T>, done: seq<T>, left: seq<T>, right: seq<T>, qsize: nat,
                          target: seq<T>, after: seq<T>) {
    && done + Merge(cmp, left, right[..Min(qsize, |right|)]) == target
    && right[Min(qsize, |right|)..] == after
  }

  lemma OwesAll<T>(cmp: Cmp<T>, done: seq<T>, left: seq<T>, right: seq<T>, qsize: nat)
    ensures var m := Min(qsize, |right|);
            Owes(cmp, done, left, right, qsize, done + Merge(cmp, left, right[..m]), right[m..])
  {
  }

  lemma OwesLeft<T>(cmp: Cmp<T>, done: seq<T>, left: seq<T>, right: seq<T>, qsize: nat,
                    target: seq<T>, after: seq<T>)
    requires Owes(cmp, done, left, right, qsize, target, after) && left != []
    requires qsize == 0 || right == [] || cmp(left[0], right[0]) <= 0
    ensures Owes(cmp, done + [left[0]], left[1..], right, qsize, target, after)
  {
    var r := right[..Min(qsize, |right|)];
    assert Merge(cmp, left, r) == [left[0]] + Merge(cmp, left[1..], r) by {
      if r == [] {
        assert left == [left[0]] + left[1..];
      }
    }
  }

  lemma OwesRight<T>(cmp: Cmp<T>, done: seq<T>, left: seq<T>, right: seq<T>, qsize: nat,
                     target: seq<T>, after: seq<T>)
    requires Owes(cmp, done, left, right, qsize, target, after) && qsize > 0 && right != []
    requires left == [] || cmp(left[0], right[0]) > 0
    ensures Owes(cmp, done + [right[0]], left, right[1..], qsize - 1, target, after)
  {
    var r := right[..Min(qsize, |right|)];
    assert r[1..] == right[1..][..Min(qsize - 1, |right| - 1)];
    assert right[Min(qsize, |right|)..] == right[1..][Min(qsize - 1, |right| - 1)..];
    assert Merge(cmp, left, r) == [right[0]] + Merge(cmp, left, r[1..]) by {
      if left == [] {
        assert r == [r[0]] + r[1..];
      }
    }
  }

  lemma OwesNothing<T>(cmp: Cmp<T>, done: seq<T>, right: seq<T>, qsize: nat, target: seq<T>, after: seq<T>)
    requires Owes(cmp, done, [], right, qsize, target, after) && (qsize == 0 || right == [])
    ensures done == target && right == after
  {
  }

  lemma MidHeads<T>(done: seq<Elt<T>>, left: seq<Elt<T>>, right: seq<Elt<T>>, stop: Elt?<T>,
                    list: Elt?<T>, tail: Elt?<T>, p: Elt?<T>, q: Elt?<T>)
    requires Mid(done, left, right, stop, list, tail, p, q)
    ensures (left != [] ==> p == left[0]) && q == First(right)
  {
  }

  lemma MidPast<T>(done: seq<Elt<T>>, right: seq<Elt<T>>, stop: Elt?<T>,
                   list: Elt?<T>, tail: Elt?<T>, p: Elt?<T>, q: Elt?<T>)
    requires Mid(done, [], right, stop, list, tail, p, q)
    ensures Mid(done, [], right, stop, list, tail, null, q)
  {
  }

  ghost predicate Within<T>(s: seq<Elt<T>>, all: set<Elt<T>>) {
    forall e | e in s :: e in all
  }

  /** Merges the left run, of `psize` elements, with up to `insize` elements after it. */
  method MergeRuns<T>(cmp: Cmp<T>, insize: nat, stop: Elt?<T>,
                      list0: Elt?<T>, tail0: Elt?<T>, p0: Elt?<T>, psize0: nat, q0: Elt?<T>,
                      ghost done0: seq<Elt<T>>, ghost left0: seq<Elt<T>>, ghost right0: seq<Elt<T>>,
                      ghost all: set<Elt<T>>)
    returns (list: Elt?<T>, tail: Elt?<T>, q: Elt?<T>, ghost done: seq<Elt<T>>)
    requires Mid(done0, left0, right0, stop, list0, tail0, p0, q0) && |left0| == psize0
    requires Within(done0, all) && Within(left0, all) && Within(right0, all)
    modifies all`next, all`prev
    ensures var m := Min(insize, |right0|);
            && done == done0 + Merge(ByData(cmp), left0, right0[..m])
            && Mid(done, [], right0[m..], stop, list, tail, null, q)
    ensures Within(done, all)
  {
    hide Mid, Owes, Distinct, Forward, Backward;
    var p, psize, qsize := p0, psize0, insize;
    list, tail, q, done := list0, tail0, q0, done0;
    ghost var left, right := left0, right0;
    ghost var m := Min(insize, |right0|);
    ghost var target := done0 + Merge(ByData(cmp), left0, right0[..m]);
    OwesAll(ByData(cmp), done, left, right, insize);
    MidHeads(done, left, right, stop, list, tail, p, q);
    while psize > 0 || (qsize > 0 && q != null)
      invariant Mid(done, left, right, stop, list, tail, p, q) && |left| == psize
      invariant (left != [] ==> p == left[0]) && q == First(right)
      invariant Within(done, all) && Within(left, all) && Within(right, all)
      invariant Owes(ByData(cmp), done, left, right, qsize, target, right0[m..])
      decreases psize + |right|
    {
      var fromLeft: bool;
      if psize == 0 {
        fromLeft := false;
      } else if qsize == 0 || q == null {
        fromLeft := true;
      } else {
        fromLeft := cmp(p.data, q.data) <= 0;
      }
      if fromLeft {
        OwesLeft(ByData(cmp), done, left, right, qsize, target, right0[m..]);
        var e := p;
        list, p := TakeLeft(list, tail, e, q, stop, done, left, right);
        tail, done, left := e, done + [e], left[1..];
        psize := psize - 1;
      } else {
        OwesRight(ByData(cmp), done, left, right, qsize, target, right0[m..]);
        var e := q;
        list, q := TakeRight(list, tail, p, e, stop, done, left, right);
        tail, done, right := e, done + [e], right[1..];
        qsize := qsize - 1;
      }
      MidHeads(done, left, right, stop, list, tail, p, q);
    }
    MidPast(done, right, stop, list, tail, p, q);
    OwesNothing(ByData(cmp), done, right, qsize, target, right0[m..]);
  }

  /** Steps over at most `insize` elements from `p`. */
  method StepOver<T>(p: Elt<T>, insize: nat, stop: Elt?<T>, ghost rest: seq<Elt<T>>)
    returns (psize: nat, q: Elt?<T>)
    requires insize > 0 && p == First(rest) && Forward(rest)
    requires rest[|rest| - 1].next == stop && (stop != null ==> stop !in rest[1..])
    ensures psize == Min(insize, |rest|) && q == First(rest[psize..])
  {
    q, psize := p, 0;
    for i := 0 to insize
      invariant psize == i < |rest| && q == rest[i]
    {
      psize := psize + 1;
      assert psize < |rest| ==> rest[psize] == rest[1..][i];
      q := Advance(q, stop);
      if q == null {
        break;
      }
    }
  }

  /** Between two merges of a pass: `done` is linked up to `tail`, `p` heads the rest of the list. */
  ghost predicate Between<T>(done: seq<Elt<T>>, rest: seq<Elt<T>>, stop: Elt?<T>,
                             list: Elt?<T>, tail: Elt?<T>, p: Elt?<T>)
    reads done, rest
  {
    && Distinct(done + rest)
    && Forward(done) && Backward(done) && list == First(done) && tail == Last(done)
    && (done != [] ==> done[0].prev == null)
    && Forward(rest) && p == First(rest)
    && (rest != [] ==> rest[|rest| - 1].next == stop && (stop != null ==> stop !in rest[1..]))
  }

  lemma BetweenHead<T>(done: seq<Elt<T>>, rest: seq<Elt<T>>, stop: Elt?<T>,
                       list: Elt?<T>, tail: Elt?<T>, p: Elt?<T>)
    requires Between(done, rest, stop, list, tail, p)
    ensures p == First(rest) && Forward(rest)
    ensures rest != [] ==> rest[|rest| - 1].next == stop && (stop != null ==> stop !in rest[1..])
  {
  }

  lemma MidSplit<T>(done: seq<Elt<T>>, rest: seq<Elt<T>>, stop: Elt?<T>, list: Elt?<T>, tail: Elt?<T>,
                    p: Elt?<T>, k: nat, q: Elt?<T>)
    requires Between(done, rest, stop, list, tail, p) && 0 < k <= |rest| && q == First(rest[k..])
    ensures Mid(done, rest[..k], rest[k..], stop, list, tail, p, q)
  {
    assert done + rest[..k] + rest[k..] == done + rest;
    if stop != null {
      assert forall i | 1 <= i < |rest| :: rest[i] == rest[1..][i - 1];
    }
  }

  lemma MidMerged<T>(done: seq<Elt<T>>, rest: seq<Elt<T>>, stop: Elt?<T>, list: Elt?<T>, tail: Elt?<T>,
                     q: Elt?<T>)
    requires Mid(done, [], rest, stop, list, tail, null, q)
    ensures Between(done, rest, stop, list, tail, q)
  {
    assert done + [] + rest == done + rest;
  }

  /** The merge of the next two runs of a pass. */
  method MergeNext<T>(cmp: Cmp<T>, insize: nat, stop: Elt?<T>,
                      list0: Elt?<T>, tail0: Elt?<T>, p: Elt<T>,
                      ghost done0: seq<Elt<T>>, ghost rest0: seq<Elt<T>>, ghost all: set<Elt<T>>)
    returns (list: Elt?<T>, tail: Elt?<T>, q: Elt?<T>, ghost done: seq<Elt<T>>)
    requires insize > 0 && Between(done0, rest0, stop, list0, tail0, p)
    requires Within(done0, all) && Within(rest0, all)
    modifies all`next, all`prev
    ensures var n := Min(2 * insize, |rest0|);
            && done == done0 + Merge(ByData(cmp), rest0[..Min(insize, |rest0|)], rest0[Min(insize, |rest0|)..n])
            && Between(done, rest0[n..], stop, list, tail, q)
    ensures Within(done, all)
  {
    hide Mid, Merge, Between, Distinct, Forward, Backward;
    BetweenHead(done0, rest0, stop, list0, tail0, p);
    var psize, q0 := StepOver(p, insize, stop, rest0);
    MidSplit(done0, rest0, stop, list0, tail0, p, psize, q0);
    list, tail, q, done :=
      MergeRuns(cmp, insize, stop, list0, tail0, p, psize, q0, done0, rest0[..psize], rest0[psize..], all);
    ghost var n := Min(2 * insize, |rest0|);
    assert rest0[psize..][..n - psize] == rest0[psize..n] && rest0[psize..][n - psize..] == rest0[n..];
    MidMerged(done, rest0[n..], stop, list, tail, q);
  }

  /** What a pass still has to do. */
  ghost predicate PassOwes<T>(cmp: Cmp<T>, done: seq<T>, rest: seq<T>, k: nat, target: seq<T>)
    requires k > 0
  {
    done + Pass(cmp, rest, k) == target
  }

  lemma PassOwesAll<T>(cmp: Cmp<T>, s: seq<T>, k: nat)
    requires k > 0
    ensures PassOwes(cmp, [], s, k, Pass(cmp, s, k))
  {
  }

  lemma PassOwesStep<T>(cmp: Cmp<T>, done: seq<T>, rest: seq<T>, k: nat, target: seq<T>)
    requires k > 0 && rest != [] && PassOwes(cmp, done, rest, k, target)
    ensures var m, n := Min(k, |rest|), Min(2 * k, |rest|);
            PassOwes(cmp, done + Merge(cmp, rest[..m], rest[m..n]), rest[n..], k, target)
  {
    hide Merge;
  }

  lemma PassOwesNothing<T>(cmp: Cmp<T>, done: seq<T>, k: nat, target: seq<T>)
    requires k > 0 && PassOwes(cmp, done, [], k, target)
    ensures done == target
  {
  }

  /** One pass over the list `s` that ends before `stop`. */
  method MergePass<T>(cmp: Cmp<T>, insize: nat, stop: Elt?<T>, oldlist: Elt<T>,
                      ghost s: seq<Elt<T>>, ghost all: set<Elt<T>>)
    returns (list: Elt?<T>, tail: Elt?<T>, nmerges: nat, ghost done: seq<Elt<T>>)
    requires insize > 0 && Between([], s, stop, null, null, oldlist) && Within(s, all)
    modifies all`next, all`prev
    ensures done == Pass(ByData(cmp), s, insize) && Within(done, all)
    ensures Between(done, [], stop, list, tail, null)
    ensures nmerges <= 1 <==> |s| <= 2 * insize
  {
    hide Between, Merge, Pass, PassOwes;
    PassOwesAll(ByData(cmp), s, insize);
    BetweenHead([], s, stop, null, null, oldlist);
    list, tail, nmerges, done := null, null, 0, [];
    var p: Elt?<T> := oldlist;
    ghost var rest := s;
    while p != null
      invariant Between(done, rest, stop, list, tail, p) && p == First(rest)
      invariant Within(done, all) && Within(rest, all)
      invariant PassOwes(ByData(cmp), done, rest, insize, Pass(ByData(cmp), s, insize))
      invariant nmerges == 0 ==> |rest| == |s|
      invariant nmerges == 1 ==> |rest| == |s| - Min(2 * insize, |s|)
      invariant nmerges > 1 ==> |s| > 2 * insize
      decreases |rest|
    {
      nmerges := nmerges + 1;
      PassOwesStep(ByData(cmp), done, rest, insize, Pass(ByData(cmp), s, insize));
      list, tail, p, done := MergeNext(cmp, insize, stop, list, tail, p, done, rest, all);
      rest := rest[Min(2 * insize, |rest|)..];
      BetweenHead(done, rest, stop, list, tail, p);
    }
    PassOwesNothing(ByData(cmp), done, insize, Pass(ByData(cmp), s, insize));
  }

  /** Sets the outer links of a list of the given kind. */
  method Close<T>(kind: Kind, list: Elt<T>, tail: Elt<T>, ghost done: seq<Elt<T>>)
    requires Distinct(done) && Forward(done) && Backward(done) && list == First(done) && tail == Last(done)
    requires done[0].prev == null
    modifies list`prev, tail`next
    ensures Shape(kind, done)
  {
    match kind {
      case Doubly =>
        list.prev := tail;
        tail.next := null;
      case Circular =>
        list.prev := tail;
        tail.next := list;
      case Hashed =>
        tail.next := null;
    }
  }

  /** A pass together with the links that each kind of list sets at its end. */
  method ShapedPass<T>(cmp: Cmp<T>, kind: Kind, insize: nat, oldlist: Elt<T>,
                       ghost s: seq<Elt<T>>, ghost all: set<Elt<T>>)
    returns (list: Elt?<T>, tail: Elt?<T>, nmerges: nat, ghost done: seq<Elt<T>>)
    requires insize > 0 && Shape(kind, s) && oldlist == First(s) && Within(s, all)
    modifies all`next, all`prev
    ensures done == Pass(ByData(cmp), s, insize) && Within(done, all)
    ensures Shape(kind, done) && list == First(done) && tail == Last(done)
    ensures nmerges <= 1 <==> |s| <= 2 * insize
  {
    hide Pass;
    var stop := if kind.Circular? then oldlist else null;
    assert [] + s == s;
    list, tail, nmerges, done := MergePass(cmp, insize, stop, oldlist, s, all);
    assert done + [] == done;
    Close(kind, list, tail, done);
  }

  /**
   * The sorts: the elements end up in the order of `Passes`, which is a stable sort, with the
   * links of a list of their kind. Returned are the new head and the last element.
   */
  method Sort<T>(cmp: Cmp<T>, kind: Kind, head: Elt?<T>, ghost s: seq<Elt<T>>)
    returns (list: Elt?<T>, tail: Elt?<T>, ghost sorted: seq<Elt<T>>)
    requires Shape(kind, s) && head == First(s)
    modifies s`next, s`prev
    ensures sorted == Passes(ByData(cmp), s, 1)
    ensures Orders(ByData(cmp), Elements(s)) ==> StableSortOf(ByData(cmp), sorted, s)
    ensures Shape(kind, sorted) && list == First(sorted) && tail == Last(sorted)
  {
    list, tail, sorted := head, null, s;
    if list == null {
      assert Passes(ByData(cmp), s, 1) == [];
      if Orders(ByData(cmp), Elements(s)) {
        SortIsStable(ByData(cmp), s);
      }
      return;
    }
    ghost var all := Elements(s);
    var insize, looping := 1, true;
    hide Passes, Orders, StableSortOf;
    while looping
      invariant insize > 0 && Shape(kind, sorted) && list == First(sorted) && Within(sorted, all)
      invariant |sorted| == |s| > 0
      invariant looping ==> Passes(ByData(cmp), sorted, insize) == Passes(ByData(cmp), s, 1)
      invariant !looping ==> sorted == Passes(ByData(cmp), s, 1) && tail == Last(sorted)
      decreases looping, |s| - insize
    {
      PassesStep(ByData(cmp), sorted, insize);
      var nmerges;
      list, tail, nmerges, sorted := ShapedPass(cmp, kind, insize, list, sorted, all);
      if nmerges <= 1 {
        looping := false;
      }
      insize := insize * 2;
    }
    if Orders(ByData(cmp), Elements(s)) {
      SortIsStable(ByData(cmp), s);
    }
  }

  lemma PassesStep<T>(cmp: Cmp<T>, s: seq<T>, k: nat)
    requires k > 0
    ensures Passes(cmp, s, k) == if |s| <= 2 * k then Pass(cmp, s, k) else Passes(cmp, Pass(cmp, s, k), 2 * k)
  {
  }
}
