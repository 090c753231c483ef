/**
 * How full the hash table of uthash/uthash.h gets: when it doubles, when it gives up doubling, and
 * the bound on chains and items that the doublings keep.
 */
module HashLoad {
  import opened Base
  import opened HashTable

  // ----- one addition -----

  /** What an addition does before any doubling: the item stands first in its chain. */
  predicate Pushed<K(==), V(==)>(t: Table<K, V>, x: Item<K, V>, r: Table<K, V>) {
    && r.numBuckets == t.numBuckets == |t.buckets| == |r.buckets| > 0
    && r.ineffExpands == t.ineffExpands && r.noexpand == t.noexpand
    && forall k | 0 <= k < |t.buckets| ::
         if k == ToBkt(x.hashv, |t.buckets|)
         then r.buckets[k] == Bucket([x] + t.buckets[k].chain, t.buckets[k].count + 1, t.buckets[k].expandMult)
         else r.buckets[k] == t.buckets[k]
  }

  /**
   * The table doubles exactly if the chain reaches its threshold and doubling is not given up. A
   * doubling is ineffective if more than half of the items stand behind the ideal length of their
   * chains; the second one in a row is the last, and one that is effective starts the count again.
   */
  lemma AddDoublesIff<K, V>(t: Table<K, V>, hash: K -> nat, x: Item<K, V>)
    requires Inv(t, hash) && t.items != [] && x.hashv == hash(x.key) && forall y | y in t.items :: y.key != x.key
    ensures Sound(t)
    ensures var r, b := Add(t, x), t.buckets[ToBkt(x.hashv, t.numBuckets)];
            if b.count + 1 < 10 * (b.expandMult + 1) || t.noexpand then Pushed(t, x, r)
            else
              && r.numBuckets == 2 * t.numBuckets
              && var ideal := Ideal(r.numItems, r.numBuckets);
                 && r.ineffExpands == (if SumOver(r.buckets, ideal) > r.numItems / 2 then t.ineffExpands + 1 else 0)
                 && (r.noexpand <==> r.ineffExpands > 1)
  {
    hide Expand, Ideal, SumOver, Sound, Redistributed;
    InvIsSound(t, hash, x);
    PushKeeps(t, x);
    SizeOf(t);
    ExpandedIs(Push(t, x));
  }

  lemma InvIsSound<K, V>(t: Table<K, V>, hash: K -> nat, x: Item<K, V>)
    requires Inv(t, hash) && t.items != [] && forall y | y in t.items :: y.key != x.key
    ensures Sound(t) && x !in t.items && t.numItems == |t.items|
  {
  }

  // ----- the load -----

  function Mults<K, V>(buckets: seq<Bucket<K, V>>): nat {
    if buckets == [] then 0 else Mults(buckets[..|buckets| - 1]) + buckets[|buckets| - 1].expandMult
  }

  /** A chain is no longer than its threshold, and shorter where the threshold was raised. */
  predicate Short<K, V>(b: Bucket<K, V>) {
    if b.expandMult == 0 then b.count <= 10 else b.count < 10 * (b.expandMult + 1)
  }

  ghost predicate Loaded<K, V>(buckets: seq<Bucket<K, V>>) {
    (forall k | 0 <= k < |buckets| :: Short(buckets[k])) && Mults(buckets) <= |buckets|
  }

  lemma {:induction false} TotalBound<K, V>(buckets: seq<Bucket<K, V>>)
    requires forall k | 0 <= k < |buckets| :: Short(buckets[k])
    ensures Total(buckets) <= 10 * |buckets| + 10 * Mults(buckets)
    ensures Mults(buckets) > 0 ==> Total(buckets) < 10 * |buckets| + 10 * Mults(buckets)
  {
    if buckets != [] {
      var k := |buckets| - 1;
      TotalBound(buckets[..k]);
      assert Short(buckets[k]);
    }
  }

  /** So there are at most twenty items for each bucket, even with one more. */
  lemma LoadBound<K, V>(buckets: seq<Bucket<K, V>>)
    requires Loaded(buckets) && buckets != []
    ensures Total(buckets) < 20 * |buckets|
  {
    TotalBound(buckets);
  }

  lemma {:induction false} MultsUpdate<K, V>(buckets: seq<Bucket<K, V>>, k: nat, b: Bucket<K, V>)
    requires k < |buckets| && b.expandMult == buckets[k].expandMult
    ensures Mults(buckets[k := b]) == Mults(buckets)
  {
    var l := |buckets| - 1;
    if k < l {
      assert buckets[k := b][..l] == buckets[..l][k := b];
      MultsUpdate(buckets[..l], k, b);
    } else {
      assert buckets[k := b][..l] == buckets[..l];
    }
  }

  /** The thresholds raised by a doubling add up to no more than the items allow. */
  lemma {:induction false} MultsBound<K, V>(buckets: seq<Bucket<K, V>>, ideal: nat)
    requires ideal > 0
    requires forall k | 0 <= k < |buckets| :: ideal * buckets[k].expandMult <= buckets[k].count
    ensures ideal * Mults(buckets) <= Total(buckets)
  {
    if buckets != [] {
      var k := |buckets| - 1;
      MultsBound(buckets[..k], ideal);
      Distributes(ideal, Mults(buckets[..k]), buckets[k].expandMult);
    } else {
      assert ideal * 0 == 0;
    }
  }

  lemma Distributes(a: nat, b: nat, c: nat)
    ensures a * (b + c) == a * b + a * c
  {
  }

  lemma Product(count: nat, ideal: nat)
    requires ideal > 0
    ensures ideal * (count / ideal) <= count < ideal * (count / ideal + 1)
    ensures ideal <= 10 ==> count < 10 * (count / ideal + 1)
    ensures count > ideal ==> count / ideal > 0
  {
    var q := count / ideal;
    assert count == ideal * q + count % ideal;
    assert ideal * (q + 1) == ideal * q + ideal;
    if ideal <= 10 {
      MoreOf(ideal, 10, q + 1);
    }
    if count > ideal && q == 0 {
      assert false;
    }
  }

  lemma MoreOf(a: nat, b: nat, c: nat)
    requires a <= b
    ensures a * c <= b * c
  {
  }

  lemma AtMost(a: nat, b: nat, c: nat)
    requires c > 0 && c * a <= b * c
    ensures a <= b
  {
    if a > b {
      MoreOf(b + 1, a, c);
    }
  }

  /** A doubling with at most twenty items for each old bucket leaves chains short. */
  lemma ExpandLoads<K, V>(t: Table<K, V>)
    requires Sound(t) && t.numItems > 0 && t.numItems <= 20 * t.numBuckets
    ensures Loaded(Expand(t).buckets)
  {
    hide Expand, Ideal, Pow2, Total, NoRepeats, OnlyReversed, Mults;
    ExpandedIs(t);
    ExpandKeeps(t);
    var r, ideal := Expand(t), Ideal(t.numItems, 2 * t.numBuckets);
    var n := 2 * t.numBuckets;
    IdealFits(t, ideal);
    forall k | 0 <= k < |r.buckets|
      ensures Short(r.buckets[k]) && ideal * r.buckets[k].expandMult <= r.buckets[k].count
    {
      assert Redistributed(t.buckets, r.buckets[k], k, ideal);
      Product(r.buckets[k].count, ideal);
    }
    MultsBound(r.buckets, ideal);
    AtMost(Mults(r.buckets), n, ideal);
  }

  lemma IdealFits<K, V>(t: Table<K, V>, ideal: nat)
    requires t.numBuckets == Pow2(t.log2NumBuckets) && 0 < t.numItems <= 20 * t.numBuckets
    requires ideal == Ideal(t.numItems, 2 * t.numBuckets)
    ensures 0 < ideal <= 10 && t.numItems <= 2 * t.numBuckets * ideal
  {
    hide Ideal;
    IdealIsCeiling(t.numItems, t.log2NumBuckets + 1);
    var n := 2 * t.numBuckets;
    if ideal > 10 {
      MoreOf(10, ideal - 1, n);
    }
  }

  /** There is no table, or doubling is given up, or all chains are short. */
  ghost predicate Bounded<K, V>(t: Table<K, V>) {
    t.items == [] || t.noexpand || Loaded(t.buckets)
  }

  lemma PushLoads<K, V>(t: Table<K, V>, x: Item<K, V>)
    requires Sound(t) && Loaded(t.buckets) && t.buckets != []
    ensures var p, k := Push(t, x), ToBkt(x.hashv, t.numBuckets);
            && p.numItems <= 20 * p.numBuckets
            && (!MustExpand(p, k) && !t.noexpand ==> Loaded(p.buckets))
  {
    var k := ToBkt(x.hashv, t.numBuckets);
    LoadBound(t.buckets);
    MultsUpdate(t.buckets, k, Push(t, x).buckets[k]);
  }

  lemma NewIsLoaded<K, V>(n: nat)
    ensures Loaded(NoBuckets<K, V>(n))
  {
    if n > 0 {
      NewIsLoaded<K, V>(n - 1);
      assert NoBuckets<K, V>(n)[..n - 1] == NoBuckets<K, V>(n - 1);
    }
  }

  lemma AddBounds<K, V>(t: Table<K, V>, hash: K -> nat, x: Item<K, V>)
    requires Inv(t, hash) && Bounded(t) && x.hashv == hash(x.key) && forall y | y in t.items :: y.key != x.key
    ensures t.items == [] || t.numBuckets == |t.buckets| == Pow2(t.log2NumBuckets)
    ensures Bounded(Add(t, x))
  {
    hide Expand, KeysDiffer, Loaded, NoRepeats, Total;
    MadeIsSound<K, V>();
    NewIsLoaded<K, V>(HASH_INITIAL_NUM_BUCKETS);
    var t0 := if t.items == [] then MakeTable() else t;
    SizeOf(t0);
    PushKeeps(t0, x);
    if !t0.noexpand {
      PushLoads(t0, x);
      var p := Push(t0, x);
      if MustExpand(p, ToBkt(x.hashv, t0.numBuckets)) {
        ExpandLoads(p);
      }
    }
  }

  lemma SizeOf<K, V>(t: Table<K, V>)
    requires Sound(t)
    ensures t.numBuckets == |t.buckets| == Pow2(t.log2NumBuckets) > 0
  {
  }

  lemma DeleteBounds<K, V>(t: Table<K, V>, hash: K -> nat, x: Item<K, V>)
    requires Inv(t, hash) && Bounded(t) && x in t.items
    ensures t.numBuckets == |t.buckets| > 0 && t.numItems > 0 && t.buckets[ToBkt(x.hashv, t.numBuckets)].count > 0
    ensures Bounded(Delete(t, x))
  {
    DeleteKeeps(t, hash, x);
    hide Inv, Without;
    if |t.items| > 1 {
      var k := ToBkt(x.hashv, t.numBuckets);
      MultsUpdate(t.buckets, k, Delete(t, x).buckets[k]);
    }
  }

  lemma {:induction false} RunBounds<K, V>(hash: K -> nat, ops: seq<Op<K, V>>)
    requires AllProper(hash, ops)
    ensures Bounded(After(hash, ops))
  {
    hide Inv, Bounded, Proper;
    if ops == [] {
      NoItems<K, V>();
    } else {
      var k := |ops| - 1;
      assert forall i | 0 <= i < k :: ops[..k][..i] == ops[..i];
      RunBounds(hash, ops[..k]);
      var t := After(hash, ops[..k]);
      assert Proper(t.items, hash, ops[k]);
      StepBounds(t, hash, ops[k]);
    }
  }

  lemma NoItems<K, V>()
    ensures Bounded(NoTable<K, V>())
  {
  }

  lemma StepBounds<K, V>(t: Table<K, V>, hash: K -> nat, op: Op<K, V>)
    requires Inv(t, hash) && Bounded(t) && Proper(t.items, hash, op)
    ensures Bounded(Step(t, hash, op))
  {
    hide Inv, Bounded, Add, Delete;
    match op
    case OpAdd(x) => AddBounds(t, hash, x);
    case OpDelete(x) => DeleteBounds(t, hash, x);
  }

  /**
   * After any run of additions and deletions, unless doubling was given up: there are fewer than
   * twenty items for each bucket, and no chain is longer than its threshold, which is ten times one
   * more than `expand_mult`; and the thresholds were raised once for each bucket at most.
   */
  lemma RunKeepsLoad<K, V>(hash: K -> nat, ops: seq<Op<K, V>>)
    requires AllProper(hash, ops)
    ensures var t := After(hash, ops);
            t.items != [] && !t.noexpand ==>
              && |t.items| < 20 * t.numBuckets && t.numBuckets == |t.buckets| && Mults(t.buckets) <= t.numBuckets
              && forall k | 0 <= k < |t.buckets| :: |t.buckets[k].chain| <= 10 * (t.buckets[k].expandMult + 1)
  {
    RunBounds(hash, ops);
    var t := After(hash, ops);
    if t.items != [] && !t.noexpand {
      LoadBound(t.buckets);
      assert forall k | 0 <= k < |t.buckets| :: Short(t.buckets[k]);
    }
  }
}
