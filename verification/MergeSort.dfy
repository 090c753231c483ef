/**
 * Bottom-up merge sort on sequences: what one pass of the list sorts in uthash/utlist.h and
 * uthash/uthash.h makes of the order of the elements, and why the last pass leaves a stable sort.
 */
module MergeSort {
  import opened Base

  /** Comparison functions as for `qsort`: negative, zero or positive. */
  type Cmp<!T> = (T, T) -> int

  /** `cmp` orders the values of `u`: it is total and transitive on them. */
  ghost predicate Orders<T>(cmp: Cmp<T>, u: set<T>) {
    && (forall a, b | a in u && b in u :: cmp(a, b) <= 0 || cmp(b, a) <= 0)
    && (forall a, b, c | a in u && b in u && c in u ::
          cmp(a, b) <= 0 && cmp(b, c) <= 0 ==> cmp(a, c) <= 0)
  }

  lemma Either<T>(cmp: Cmp<T>, u: set<T>, a: T, b: T)
    requires Orders(cmp, u) && a in u && b in u
    ensures cmp(a, b) <= 0 || cmp(b, a) <= 0
  {
  }

  lemma Through<T>(cmp: Cmp<T>, u: set<T>, a: T, b: T, c: T)
    requires Orders(cmp, u) && a in u && b in u && c in u && cmp(a, b) <= 0 && cmp(b, c) <= 0
    ensures cmp(a, c) <= 0
  {
  }

  ghost function Elements<T>(s: seq<T>): set<T> {
    set x | x in s
  }

  predicate Sorted<T>(cmp: Cmp<T>, s: seq<T>) {
    forall i, j | 0 <= i < j < |s| :: cmp(s[i], s[j]) <= 0
  }

  /** The elements that compare equal to `x`, in the order in which they stand. */
  function Alike<T>(cmp: Cmp<T>, s: seq<T>, x: T): seq<T> {
    if s == [] then []
    else (if cmp(s[0], x) <= 0 && cmp(x, s[0]) <= 0 then [s[0]] else []) + Alike(cmp, s[1..], x)
  }

  /** `r` is `s` sorted without exchanging elements that compare equal. */
  ghost predicate StableSortOf<T>(cmp: Cmp<T>, r: seq<T>, s: seq<T>) {
    && Sorted(cmp, r)
    && multiset(r) == multiset(s)
    && forall x | x in s :: Alike(cmp, r, x) == Alike(cmp, s, x)
  }

  function Merge<T>(cmp: Cmp<T>, p: seq<T>, q: seq<T>): (r: seq<T>)
    ensures |r| == |p| + |q|
    decreases |p| + |q|
  {
    if p == [] then q
    else if q == [] then p
    else if cmp(p[0], q[0]) <= 0 then [p[0]] + Merge(cmp, p[1..], q)
    else [q[0]] + Merge(cmp, p, q[1..])
  }

  /** One pass: merges of neighbouring runs of length `k`. */
  function Pass<T>(cmp: Cmp<T>, s: seq<T>, k: nat): (r: seq<T>)
    requires k > 0
    ensures |r| == |s|
    decreases |s|
  {
    if s == [] then []
    else
      var m, n := Min(k, |s|), Min(2 * k, |s|);
      Merge(cmp, s[..m], s[m..n]) + Pass(cmp, s[n..], k)
  }

  /** Passes with doubled run length until one merge covers the whole list. */
  function Passes<T>(cmp: Cmp<T>, s: seq<T>, k: nat): (r: seq<T>)
    requires k > 0
    decreases |s| - k
  {
    var t := Pass(cmp, s, k);
    if |s| <= 2 * k then t else Passes(cmp, t, 2 * k)
  }

  // ----- one merge -----

  lemma {:induction false} MergeKeepsElements<T>(cmp: Cmp<T>, p: seq<T>, q: seq<T>)
    ensures multiset(Merge(cmp, p, q)) == multiset(p) + multiset(q)
    decreases |p| + |q|
  {
    if p != [] && q != [] {
      assert p == [p[0]] + p[1..] && q == [q[0]] + q[1..];
      if cmp(p[0], q[0]) <= 0 {
        MergeKeepsElements(cmp, p[1..], q);
      } else {
        MergeKeepsElements(cmp, p, q[1..]);
      }
    }
  }

  lemma InMerge<T>(cmp: Cmp<T>, p: seq<T>, q: seq<T>, i: nat)
    requires i < |p| + |q|
    ensures Merge(cmp, p, q)[i] in p || Merge(cmp, p, q)[i] in q
  {
    MergeKeepsElements(cmp, p, q);
    assert Merge(cmp, p, q)[i] in multiset(Merge(cmp, p, q));
  }

  lemma {:induction false} MergeSorts<T>(cmp: Cmp<T>, u: set<T>, p: seq<T>, q: seq<T>)
    requires Orders(cmp, u) && Elements(p) <= u && Elements(q) <= u
    requires Sorted(cmp, p) && Sorted(cmp, q)
    ensures Sorted(cmp, Merge(cmp, p, q))
    decreases |p| + |q|
  {
    hide Orders;
    if p != [] && q != [] {
      Either(cmp, u, p[0], q[0]);
      var (x, p', q') := if cmp(p[0], q[0]) <= 0 then (p[0], p[1..], q) else (q[0], p, q[1..]);
      MergeSorts(cmp, u, p', q');
      forall i | 0 <= i < |p'| + |q'| ensures cmp(x, Merge(cmp, p', q')[i]) <= 0 {
        InMerge(cmp, p', q', i);
        BeforeBoth(cmp, u, p, q, x, Merge(cmp, p', q')[i]);
      }
    }
  }

  /** The smaller of two first elements is not above any other element of the two sorted runs. */
  lemma BeforeBoth<T>(cmp: Cmp<T>, u: set<T>, p: seq<T>, q: seq<T>, x: T, y: T)
    requires Orders(cmp, u) && Elements(p) <= u && Elements(q) <= u
    requires Sorted(cmp, p) && Sorted(cmp, q) && p != [] && q != []
    requires x == if cmp(p[0], q[0]) <= 0 then p[0] else q[0]
    requires if cmp(p[0], q[0]) <= 0 then y in p[1..] || y in q else y in p || y in q[1..]
    ensures cmp(x, y) <= 0
  {
    hide Orders;
    var other := if y in p && (cmp(p[0], q[0]) > 0 || y in p[1..]) then p else q;
    var i :| 0 <= i < |other| && other[i] == y;
    Either(cmp, u, p[0], q[0]);
    Either(cmp, u, y, y);
    if i > 0 && other[0] != x {
      Through(cmp, u, x, other[0], y);
    }
  }

  lemma {:induction false} AlikeConcat<T>(cmp: Cmp<T>, s: seq<T>, t: seq<T>, x: T)
    ensures Alike(cmp, s + t, x) == Alike(cmp, s, x) + Alike(cmp, t, x)
  {
    hide Alike;
    AlikeHead(cmp, s, x);
    AlikeHead(cmp, s + t, x);
    if s == [] {
      assert s + t == t;
    } else {
      AlikeConcat(cmp, s[1..], t, x);
      assert (s + t)[1..] == s[1..] + t;
    }
  }

  lemma AlikeHead<T>(cmp: Cmp<T>, s: seq<T>, x: T)
    ensures s == [] ==> Alike(cmp, s, x) == []
    ensures s != [] ==>
              Alike(cmp, s, x) ==
              (if cmp(s[0], x) <= 0 && cmp(x, s[0]) <= 0 then [s[0]] else []) + Alike(cmp, s[1..], x)
  {
  }

  lemma {:induction false} NoneAlike<T>(cmp: Cmp<T>, s: seq<T>, x: T)
    requires forall i | 0 <= i < |s| :: cmp(s[i], x) > 0
    ensures Alike(cmp, s, x) == []
  {
    if s != [] {
      NoneAlike(cmp, s[1..], x);
    }
  }

  lemma AlikeCons<T>(cmp: Cmp<T>, a: T, s: seq<T>, x: T)
    ensures Alike(cmp, [a] + s, x) == Alike(cmp, [a], x) + Alike(cmp, s, x)
  {
    AlikeConcat(cmp, [a], s, x);
  }

  /** Nothing in a sorted run that begins above `y` compares equal to something equal to `y`. */
  lemma AllAbove<T>(cmp: Cmp<T>, u: set<T>, p: seq<T>, y: T, x: T)
    requires Orders(cmp, u) && Elements(p) <= u && x in u && y in u
    requires Sorted(cmp, p) && p != []
    requires cmp(p[0], y) > 0 && cmp(x, y) <= 0
    ensures Alike(cmp, p, x) == []
  {
    hide Orders;
    forall i | 0 <= i < |p| ensures cmp(p[i], x) > 0 {
      if cmp(p[i], x) <= 0 {
        Either(cmp, u, p[0], p[0]);
        Through(cmp, u, p[0], p[i], x);
        Through(cmp, u, p[0], x, y);
      }
    }
    NoneAlike(cmp, p, x);
  }

  /** Of two elements that compare equal, those of the left run come first. */
  lemma {:induction false} MergeIsStable<T>(cmp: Cmp<T>, u: set<T>, p: seq<T>, q: seq<T>, x: T)
    requires Orders(cmp, u) && Elements(p) <= u && Elements(q) <= u && x in u
    requires Sorted(cmp, p) && Sorted(cmp, q)
    ensures Alike(cmp, Merge(cmp, p, q), x) == Alike(cmp, p, x) + Alike(cmp, q, x)
    decreases |p| + |q|
  {
    hide Orders, Alike;
    if p == [] || q == [] {
      AlikeConcat(cmp, p, q, x);
      assert p + q == Merge(cmp, p, q);
    } else if cmp(p[0], q[0]) <= 0 {
      MergeIsStable(cmp, u, p[1..], q, x);
      TakeLeft(cmp, p[0], p[1..], q, Merge(cmp, p[1..], q), x);
      assert p == [p[0]] + p[1..];
    } else {
      MergeIsStable(cmp, u, p, q[1..], x);
      if cmp(x, q[0]) <= 0 {
        AllAbove(cmp, u, p, q[0], x);
      } else {
        NotAlike(cmp, q[0], x);
      }
      TakeRight(cmp, p, q[0], q[1..], Merge(cmp, p, q[1..]), x);
      assert q == [q[0]] + q[1..];
    }
  }

  lemma TakeLeft<T>(cmp: Cmp<T>, a: T, p: seq<T>, q: seq<T>, merged: seq<T>, x: T)
    requires Alike(cmp, merged, x) == Alike(cmp, p, x) + Alike(cmp, q, x)
    ensures Alike(cmp, [a] + merged, x) == Alike(cmp, [a] + p, x) + Alike(cmp, q, x)
  {
    hide Alike;
    AlikeCons(cmp, a, merged, x);
    AlikeCons(cmp, a, p, x);
  }

  lemma TakeRight<T>(cmp: Cmp<T>, p: seq<T>, b: T, q: seq<T>, merged: seq<T>, x: T)
    requires Alike(cmp, merged, x) == Alike(cmp, p, x) + Alike(cmp, q, x)
    requires Alike(cmp, p, x) == [] || Alike(cmp, [b], x) == []
    ensures Alike(cmp, [b] + merged, x) == Alike(cmp, p, x) + Alike(cmp, [b] + q, x)
  {
    hide Alike;
    AlikeCons(cmp, b, merged, x);
    AlikeCons(cmp, b, q, x);
  }

  lemma NotAlike<T>(cmp: Cmp<T>, a: T, x: T)
    requires cmp(x, a) > 0
    ensures Alike(cmp, [a], x) == []
  {
  }

  // ----- passes -----

  /** `s` consists of sorted runs of length `k`, the last one possibly shorter. */
  predicate Runs<T>(cmp: Cmp<T>, s: seq<T>, k: nat)
    requires k > 0
    decreases |s|
  {
    s == [] || (Sorted(cmp, s[..Min(k, |s|)]) && Runs(cmp, s[Min(k, |s|)..], k))
  }

  lemma SliceOfRest<T>(s: seq<T>, m: nat, n: nat)
    requires m <= n <= |s|
    ensures s[m..][..n - m] == s[m..n] && s[m..][n - m..] == s[n..]
  {
  }

  /** A pass over runs of length `k` leaves runs of length `2k`, with the same elements in a stable order. */
  lemma {:induction false} PassDoublesRuns<T>(cmp: Cmp<T>, u: set<T>, s: seq<T>, k: nat)
    requires k > 0 && Orders(cmp, u) && Elements(s) <= u && Runs(cmp, s, k)
    ensures Runs(cmp, Pass(cmp, s, k), 2 * k)
    ensures multiset(Pass(cmp, s, k)) == multiset(s)
    ensures forall x | x in u :: Alike(cmp, Pass(cmp, s, k), x) == Alike(cmp, s, x)
    decreases |s|
  {
    if s != [] {
      var m, n := Min(k, |s|), Min(2 * k, |s|);
      var p, q, rest := s[..m], s[m..n], s[n..];
      assert s == p + q + rest;
      assert Sorted(cmp, q) && Runs(cmp, rest, k) by {
        if n > m {
          SliceOfRest(s, m, n);
          assert Min(k, |s| - m) == n - m;
        }
      }
      var merged, others := Merge(cmp, p, q), Pass(cmp, rest, k);
      PassDoublesRuns(cmp, u, rest, k);
      MergeSorts(cmp, u, p, q);
      MergeKeepsElements(cmp, p, q);
      assert (merged + others)[..n] == merged && (merged + others)[n..] == others;
      assert n == Min(2 * k, |merged + others|);
      forall x | x in u ensures Alike(cmp, merged + others, x) == Alike(cmp, s, x) {
        MergeIsStable(cmp, u, p, q, x);
        AlikeConcat(cmp, merged, others, x);
        AlikeConcat(cmp, p, q, x);
        AlikeConcat(cmp, p + q, rest, x);
      }
    }
  }

  lemma SameElements<T>(s: seq<T>, t: seq<T>)
    requires multiset(s) == multiset(t)
    ensures Elements(s) == Elements(t)
  {
    forall x ensures x in s <==> x in t {
      assert x in s <==> x in multiset(s);
      assert x in t <==> x in multiset(t);
    }
  }

  lemma {:induction false} PassesSort<T>(cmp: Cmp<T>, s: seq<T>, k: nat)
    requires k > 0 && Orders(cmp, Elements(s)) && Runs(cmp, s, k)
    ensures StableSortOf(cmp, Passes(cmp, s, k), s)
    decreases |s| - k
  {
    PassDoublesRuns(cmp, Elements(s), s, k);
    var t := Pass(cmp, s, k);
    SameElements(t, s);
    if |s| <= 2 * k {
      assert t == [] || t[..Min(2 * k, |t|)] == t;
    } else {
      PassesSort(cmp, t, 2 * k);
    }
  }

  lemma {:induction false} SingletonRuns<T>(cmp: Cmp<T>, s: seq<T>)
    ensures Runs(cmp, s, 1)
  {
    if s != [] {
      SingletonRuns(cmp, s[1..]);
    }
  }

  lemma {:induction false} PassPermutes<T>(cmp: Cmp<T>, s: seq<T>, k: nat)
    requires k > 0
    ensures multiset(Pass(cmp, s, k)) == multiset(s)
    decreases |s|
  {
    if s != [] {
      var m, n := Min(k, |s|), Min(2 * k, |s|);
      assert s == s[..m] + s[m..n] + s[n..];
      MergeKeepsElements(cmp, s[..m], s[m..n]);
      PassPermutes(cmp, s[n..], k);
    }
  }

  /** Whatever `cmp` is, the passes only move elements. */
  lemma {:induction false} PassesPermute<T>(cmp: Cmp<T>, s: seq<T>, k: nat)
    requires k > 0
    ensures multiset(Passes(cmp, s, k)) == multiset(s)
    decreases |s| - k
  {
    PassPermutes(cmp, s, k);
    if |s| > 2 * k {
      PassesPermute(cmp, Pass(cmp, s, k), 2 * k);
    }
  }

  /** Bottom-up merge sort from runs of one element is a stable sort. */
  lemma SortIsStable<T>(cmp: Cmp<T>, s: seq<T>)
    requires Orders(cmp, Elements(s))
    ensures StableSortOf(cmp, Passes(cmp, s, 1), s)
  {
    SingletonRuns(cmp, s);
    PassesSort(cmp, s, 1);
  }

  /** There is only one stable sort, so `StableSortOf` leaves no freedom. */
  lemma {:induction false} StableSortIsUnique<T>(cmp: Cmp<T>, r: seq<T>, r': seq<T>, s: seq<T>)
    requires Orders(cmp, Elements(s)) && StableSortOf(cmp, r, s) && StableSortOf(cmp, r', s)
    ensures r == r'
  {
    assert |r| == |multiset(r)| && |r'| == |multiset(r')|;
    SameElements(r, s);
    SameElements(r', s);
    AlikeDetermines(cmp, Elements(s), r, r');
  }

  lemma {:induction false} AlikeDetermines<T>(cmp: Cmp<T>, u: set<T>, r: seq<T>, r': seq<T>)
    requires Orders(cmp, u) && Elements(r) <= u && Elements(r') <= u
    requires Sorted(cmp, r) && Sorted(cmp, r') && |r| == |r'|
    requires forall x | x in u :: Alike(cmp, r, x) == Alike(cmp, r', x)
    ensures r == r'
  {
    hide Orders, Alike;
    if r != [] {
      FirstNotAbove(cmp, u, r, r');
      FirstNotAbove(cmp, u, r', r);
      Either(cmp, u, r[0], r[0]);
      AlikeFirst(cmp, r, r[0]);
      AlikeFirst(cmp, r', r[0]);
      forall z | z in u ensures Alike(cmp, r[1..], z) == Alike(cmp, r'[1..], z) {
        AlikeCons(cmp, r[0], r[1..], z);
        AlikeCons(cmp, r[0], r'[1..], z);
        assert r == [r[0]] + r[1..] && r' == [r[0]] + r'[1..];
        var first, rest, rest' := Alike(cmp, [r[0]], z), Alike(cmp, r[1..], z), Alike(cmp, r'[1..], z);
        assert rest == (first + rest)[|first|..] && rest' == (first + rest')[|first|..];
      }
      AlikeDetermines(cmp, u, r[1..], r'[1..]);
    }
  }

  lemma AlikeFirst<T>(cmp: Cmp<T>, s: seq<T>, x: T)
    requires s != [] && cmp(s[0], x) <= 0 && cmp(x, s[0]) <= 0
    ensures Alike(cmp, s, x) != [] && Alike(cmp, s, x)[0] == s[0]
  {
  }

  lemma FirstNotAbove<T>(cmp: Cmp<T>, u: set<T>, r: seq<T>, r': seq<T>)
    requires Orders(cmp, u) && Elements(r) <= u && Elements(r') <= u && Sorted(cmp, r')
    requires r != [] && r' != [] && Alike(cmp, r, r[0]) == Alike(cmp, r', r[0])
    ensures cmp(r'[0], r[0]) <= 0
  {
    hide Orders, Alike;
    Either(cmp, u, r[0], r[0]);
    AlikeFirst(cmp, r, r[0]);
    AlikeWitness(cmp, r', r[0]);
    var i :| 0 <= i < |r'| && cmp(r'[i], r[0]) <= 0 && cmp(r[0], r'[i]) <= 0;
    if i > 0 {
      Through(cmp, u, r'[0], r'[i], r[0]);
    }
  }

  lemma {:induction false} AlikeWitness<T>(cmp: Cmp<T>, s: seq<T>, x: T)
    requires Alike(cmp, s, x) != []
    ensures exists i | 0 <= i < |s| :: cmp(s[i], x) <= 0 && cmp(x, s[i]) <= 0
  {
    if !(cmp(s[0], x) <= 0 && cmp(x, s[0]) <= 0) {
      AlikeWitness(cmp, s[1..], x);
      var i :| 0 <= i < |s| - 1 && cmp(s[1..][i], x) <= 0 && cmp(x, s[1..][i]) <= 0;
      assert s[i + 1] == s[1..][i];
    }
  }
}
