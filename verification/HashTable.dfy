/**
 * The chained hash table of uthash/uthash.h: chains of items behind buckets whose number doubles,
 * and a list of all items in the order of insertion. The hash function is any function of the key.
 */
module HashTable {
  import opened Base
  import ListSort

  const HASH_INITIAL_NUM_BUCKETS := 32
  const HASH_INITIAL_NUM_BUCKETS_LOG2 := 5
  const HASH_BKT_CAPACITY_THRESH := 10

  datatype Item<K, V> = Item(key: K, hashv: nat, val: V)

  datatype Bucket<K, V> = Bucket(chain: seq<Item<K, V>>, count: nat, expandMult: nat)

  // ----- bucket numbers -----

  function Pow2(k: nat): (r: nat)
    ensures r > 0
  {
    if k == 0 then 1 else 2 * Pow2(k - 1)
  }

  /** Bitwise conjunction. */
  function And(a: nat, b: nat): (r: nat)
    ensures r <= b
  {
    if a == 0 || b == 0 then 0 else 2 * And(a / 2, b / 2) + (if a % 2 == 1 && b % 2 == 1 then 1 else 0)
  }

  /** `HASH_TO_BKT`. */
  function ToBkt(hashv: nat, numBkts: nat): (bkt: nat)
    requires numBkts > 0
    ensures bkt < numBkts
  {
    And(hashv, numBkts - 1)
  }

  lemma AndOfMask(a: nat, n: nat, m: nat)
    requires n > 0 && m == 2 * n
    ensures And(a, m - 1) == 2 * And(a / 2, n - 1) + a % 2
  {
    assert (m - 1) / 2 == n - 1 && (m - 1) % 2 == 1;
  }

  lemma {:induction false} MaskIsRemainder(a: nat, k: nat)
    ensures And(a, Pow2(k) - 1) == a % Pow2(k)
  {
    if k > 0 {
      MaskIsRemainder(a / 2, k - 1);
      AndOfMask(a, Pow2(k - 1), Pow2(k));
      hide And;
      HalfRemainder(a, Pow2(k - 1), Pow2(k));
    }
  }

  lemma HalfRemainder(a: nat, n: nat, m: nat)
    requires n > 0 && m == 2 * n
    ensures a % m == 2 * (a / 2 % n) + a % 2
  {
    var q, r := DividesBy(a / 2, n);
    Associates(n, q, m);
    assert 2 * (n * q) == n * (2 * q);
    Remainder(a, m, q, 2 * r + a % 2);
  }

  lemma Remainder(a: nat, n: nat, q: nat, r: nat)
    requires a == n * q + r && r < n
    ensures a % n == r
  {
    var d := a / n - q;
    assert n * d == r - a % n by {
      assert a == n * (a / n) + a % n;
      assert n * (a / n) - n * q == n * d;
    }
    Multiple(n, d);
  }

  lemma Multiple(n: nat, d: int)
    ensures d >= 1 ==> n * d >= n
    ensures d <= -1 ==> n * d + n <= 0
  {
  }

  lemma RemainderOfHalf(a: nat, n: nat, q: nat, r: nat)
    requires r < 2 * n && a == n * (2 * q) + r
    ensures a % n == r % n == if r < n then r else r - n
  {
    if r < n {
      Remainder(a, n, 2 * q, r);
      Remainder(r, n, 0, r);
    } else {
      assert n * (2 * q) + n == n * (2 * q + 1);
      Remainder(a, n, 2 * q + 1, r - n);
      Remainder(r, n, 1, r - n);
    }
  }

  lemma Associates(n: nat, q: nat, m: nat)
    requires m == 2 * n
    ensures m * q == n * (2 * q)
  {
    assert 2 * n * q == 2 * (n * q) == n * (2 * q);
  }

  lemma DividesBy(a: nat, m: nat) returns (q: nat, r: nat)
    requires m > 0
    ensures a == m * q + r && r == a % m && r < m
  {
    q, r := a / m, a % m;
  }

  lemma Divides(a: nat, n: nat)
    requires n > 0
    ensures a == n * (a / n) + a % n && a % n < n
  {
  }

  lemma SplitsInTwo(a: nat, n: nat, m: nat) returns (q: nat, r: nat)
    requires n > 0 && m == 2 * n
    ensures a == n * (2 * q) + r && r == a % m && r < m
  {
    q, r := DividesBy(a, m);
    Associates(n, q, m);
  }

  /** With twice as many buckets the items of bucket `j` go to bucket `j` or `j + n`. */
  lemma DoubledBkt(hashv: nat, k: nat)
    ensures var n := Pow2(k);
            && (ToBkt(hashv, 2 * n) == ToBkt(hashv, n) || ToBkt(hashv, 2 * n) == ToBkt(hashv, n) + n)
            && ToBkt(hashv, 2 * n) % n == ToBkt(hashv, n)
  {
    hide And;
    MaskIsRemainder(hashv, k);
    MaskIsRemainder(hashv, k + 1);
    var q, r := SplitsInTwo(hashv, Pow2(k), Pow2(k + 1));
    RemainderOfHalf(hashv, Pow2(k), q, r);
  }

  // ----- expansion -----

  /** The new buckets while the items are moved. */
  datatype Moved<K, V> = Moved(buckets: seq<Bucket<K, V>>, nonideal: nat)

  /** The next item goes to the head of its chain. */
  function MoveItem<K, V>(m: Moved<K, V>, x: Item<K, V>, ideal: nat): (r: Moved<K, V>)
    requires m.buckets != [] && ideal > 0
    ensures |r.buckets| == |m.buckets|
  {
    var k := ToBkt(x.hashv, |m.buckets|);
    var b := m.buckets[k];
    if b.count + 1 > ideal then
      Moved(m.buckets[k := Bucket([x] + b.chain, b.count + 1, (b.count + 1) / ideal)], m.nonideal + 1)
    else
      Moved(m.buckets[k := Bucket([x] + b.chain, b.count + 1, b.expandMult)], m.nonideal)
  }

  function MoveItems<K, V>(m: Moved<K, V>, items: seq<Item<K, V>>, ideal: nat): (r: Moved<K, V>)
    requires m.buckets != [] && ideal > 0
    ensures |r.buckets| == |m.buckets|
    decreases |items|
  {
    if items == [] then m else MoveItems(MoveItem(m, items[0], ideal), items[1..], ideal)
  }

  /** All items, chain by chain. */
  function Flat<K, V>(buckets: seq<Bucket<K, V>>): seq<Item<K, V>> {
    if buckets == [] then [] else buckets[0].chain + Flat(buckets[1..])
  }

  function NoBuckets<K, V>(n: nat): (r: seq<Bucket<K, V>>)
    ensures |r| == n
  {
    seq(n, _ => Bucket([], 0, 0))
  }

  /** The longest chain there would be if all chains were equally long. */
  function Ideal(numItems: nat, numBuckets: nat): nat
    requires numBuckets > 0
  {
    numItems / numBuckets + (if And(numItems, numBuckets - 1) != 0 then 1 else 0)
  }

  /** It is the number of items over the number of buckets, rounded up. */
  lemma IdealIsCeiling(numItems: nat, k: nat)
    ensures var b, ideal := Pow2(k), Ideal(numItems, Pow2(k));
            && b * ideal >= numItems && (numItems > 0 ==> ideal > 0 && numItems > b * (ideal - 1))
  {
    hide Pow2, And;
    MaskIsRemainder(numItems, k);
    Ceiling(numItems, Pow2(k));
  }

  lemma Ceiling(a: nat, b: nat)
    requires b > 0
    ensures var c := a / b + (if a % b != 0 then 1 else 0);
            && b * c >= a && (a > 0 ==> c > 0 && a > b * (c - 1))
  {
    Divides(a, b);
    assert b * (a / b + 1) == b * (a / b) + b;
    assert b * (a / b - 1) == b * (a / b) - b;
  }

  /** The items of `items` that belong to bucket `k`, last one first. */
  function OnlyReversed<K, V>(items: seq<Item<K, V>>, k: nat, n: nat): (r: seq<Item<K, V>>)
    requires n > 0
    ensures forall x | x in r :: x in items && ToBkt(x.hashv, n) == k
  {
    if items == [] then []
    else OnlyReversed(items[1..], k, n) + (if ToBkt(items[0].hashv, n) == k then [items[0]] else [])
  }

  function Over(count: nat, ideal: nat): nat {
    if count > ideal then count - ideal else 0
  }

  function SumOver<K, V>(buckets: seq<Bucket<K, V>>, ideal: nat): nat {
    if buckets == [] then 0
    else SumOver(buckets[..|buckets| - 1], ideal) + Over(buckets[|buckets| - 1].count, ideal)
  }

  function Total<K, V>(buckets: seq<Bucket<K, V>>): nat {
    if buckets == [] then 0 else Total(buckets[..|buckets| - 1]) + buckets[|buckets| - 1].count
  }

  lemma {:induction false} SumsUpdate<K, V>(buckets: seq<Bucket<K, V>>, k: nat, b: Bucket<K, V>, ideal: nat)
    requires k < |buckets|
    ensures SumOver(buckets[k := b], ideal) ==
            SumOver(buckets, ideal) - Over(buckets[k].count, ideal) + Over(b.count, ideal)
    ensures Total(buckets[k := b]) == Total(buckets) - buckets[k].count + b.count
    ensures Total(buckets) >= buckets[k].count && SumOver(buckets, ideal) >= Over(buckets[k].count, ideal)
  {
    var l := |buckets| - 1;
    if k < l {
      assert buckets[k := b][..l] == buckets[..l][k := b];
      SumsUpdate(buckets[..l], k, b, ideal);
    } else {
      assert buckets[k := b][..l] == buckets[..l];
    }
  }

  lemma {:induction false} SumsOfNone<K, V>(buckets: seq<Bucket<K, V>>, ideal: nat)
    requires forall k | 0 <= k < |buckets| :: buckets[k].count == 0
    ensures SumOver(buckets, ideal) == 0 && Total(buckets) == 0
  {
    if buckets != [] {
      SumsOfNone(buckets[..|buckets| - 1], ideal);
    }
  }

  /** The bookkeeping of the new buckets. */
  ghost predicate Kept<K, V>(m: Moved<K, V>, ideal: nat) {
    && m.buckets != [] && ideal > 0
    && (forall k | 0 <= k < |m.buckets| ::
          var b := m.buckets[k];
          b.count == |b.chain| && b.expandMult == if b.count > ideal then b.count / ideal else 0)
    && m.nonideal == SumOver(m.buckets, ideal)
  }

  lemma MoveItemKeeps<K, V>(m: Moved<K, V>, x: Item<K, V>, ideal: nat)
    requires Kept(m, ideal)
    ensures Kept(MoveItem(m, x, ideal), ideal) && Total(MoveItem(m, x, ideal).buckets) == Total(m.buckets) + 1
  {
    var k := ToBkt(x.hashv, |m.buckets|);
    SumsUpdate(m.buckets, k, MoveItem(m, x, ideal).buckets[k], ideal);
  }

  lemma {:induction false} MovedChain<K, V>(m: Moved<K, V>, items: seq<Item<K, V>>, ideal: nat, k: nat)
    requires ideal > 0 && k < |m.buckets|
    ensures MoveItems(m, items, ideal).buckets[k].chain == OnlyReversed(items, k, |m.buckets|) + m.buckets[k].chain
    decreases |items|
  {
    if items != [] {
      var x, rest := items[0], OnlyReversed(items[1..], k, |m.buckets|);
      var m' := MoveItem(m, x, ideal);
      MovedChain(m', items[1..], ideal, k);
      if ToBkt(x.hashv, |m.buckets|) == k {
        assert rest + ([x] + m.buckets[k].chain) == (rest + [x]) + m.buckets[k].chain;
      } else {
        assert OnlyReversed(items, k, |m.buckets|) == rest;
      }
    }
  }

  lemma {:induction false} MovedKept<K, V>(m: Moved<K, V>, items: seq<Item<K, V>>, ideal: nat)
    requires Kept(m, ideal)
    ensures var r := MoveItems(m, items, ideal);
            Kept(r, ideal) && Total(r.buckets) == Total(m.buckets) + |items|
    decreases |items|
  {
    if items != [] {
      MoveItemKeeps(m, items[0], ideal);
      hide MoveItem, Kept, Total;
      MovedKept(MoveItem(m, items[0], ideal), items[1..], ideal);
    }
  }

  /**
   * What the moves do to each bucket: its items arrive in front, in reverse. The counters agree
   * with the chains, and `nonideal` with the items beyond the ideal length.
   */
  lemma MovedIs<K, V>(m: Moved<K, V>, items: seq<Item<K, V>>, ideal: nat)
    requires Kept(m, ideal)
    ensures var r := MoveItems(m, items, ideal);
            && Kept(r, ideal) && Total(r.buckets) == Total(m.buckets) + |items|
            && forall k | 0 <= k < |r.buckets| ::
                 r.buckets[k].chain == OnlyReversed(items, k, |m.buckets|) + m.buckets[k].chain
  {
    MovedKept(m, items, ideal);
    forall k | 0 <= k < |m.buckets|
      ensures MoveItems(m, items, ideal).buckets[k].chain == OnlyReversed(items, k, |m.buckets|) + m.buckets[k].chain
    {
      MovedChain(m, items, ideal, k);
    }
  }

  lemma {:induction false} OnlyAppend<K, V>(a: seq<Item<K, V>>, b: seq<Item<K, V>>, k: nat, n: nat)
    requires n > 0
    ensures OnlyReversed(a + b, k, n) == OnlyReversed(b, k, n) + OnlyReversed(a, k, n)
  {
    if a == [] {
      assert a + b == b && OnlyReversed(b, k, n) + [] == OnlyReversed(b, k, n);
    } else {
      assert (a + b)[1..] == a[1..] + b;
      OnlyAppend(a[1..], b, k, n);
    }
  }

  lemma {:induction false} OnlyNone<K, V>(items: seq<Item<K, V>>, k: nat, n: nat)
    requires n > 0 && forall x | x in items :: ToBkt(x.hashv, n) != k
    ensures OnlyReversed(items, k, n) == []
  {
    if items != [] {
      assert items[0] in items && forall x | x in items[1..] :: x in items;
      OnlyNone(items[1..], k, n);
    }
  }

  lemma NotFromHere<K, V>(chain: seq<Item<K, V>>, first: nat, lg: nat, k: nat)
    requires (forall x | x in chain :: ToBkt(x.hashv, Pow2(lg)) == first) && k % Pow2(lg) != first
    ensures OnlyReversed(chain, k, 2 * Pow2(lg)) == []
  {
    hide And, Pow2, OnlyReversed, ToBkt;
    forall x | x in chain ensures ToBkt(x.hashv, 2 * Pow2(lg)) != k {
      DoubledBkt(x.hashv, lg);
    }
    OnlyNone(chain, k, 2 * Pow2(lg));
  }

  /** Bucket `k` of the doubled table gets its items from bucket `k mod n` alone. */
  lemma {:induction false} OnlyFrom<K, V>(buckets: seq<Bucket<K, V>>, first: nat, lg: nat, k: nat)
    requires forall j, x | 0 <= j < |buckets| && x in buckets[j].chain :: ToBkt(x.hashv, Pow2(lg)) == first + j
    requires k < 2 * Pow2(lg)
    ensures OnlyReversed(Flat(buckets), k, 2 * Pow2(lg)) ==
            if first <= k % Pow2(lg) < first + |buckets| then
              OnlyReversed(buckets[k % Pow2(lg) - first].chain, k, 2 * Pow2(lg))
            else []
    decreases |buckets|
  {
    hide And, Pow2, OnlyReversed, ToBkt;
    if buckets == [] {
      OnlyNone<K, V>([], k, 2 * Pow2(lg));
    } else {
      var chain, rest := buckets[0].chain, Flat(buckets[1..]);
      OnlyFrom(buckets[1..], first + 1, lg, k);
      OnlyAppend(chain, rest, k, 2 * Pow2(lg));
      if k % Pow2(lg) != first {
        NotFromHere(chain, first, lg, k);
      }
    }
  }

  // ----- the table -----

  /** `UT_hash_table`, the items in order included; without items there is no table. */
  datatype Table<K, V> = Table(
    items: seq<Item<K, V>>,
    buckets: seq<Bucket<K, V>>,
    numBuckets: nat,
    log2NumBuckets: nat,
    numItems: nat,
    ineffExpands: nat,
    noexpand: bool)

  function NoTable<K, V>(): Table<K, V> {
    Table([], [], 0, 0, 0, 0, false)
  }

  /** `HASH_MAKE_TABLE`. */
  function MakeTable<K, V>(): Table<K, V> {
    Table([], NoBuckets(HASH_INITIAL_NUM_BUCKETS), HASH_INITIAL_NUM_BUCKETS, HASH_INITIAL_NUM_BUCKETS_LOG2, 0, 0, false)
  }

  predicate NoRepeats<T(==)>(s: seq<T>) {
    forall i, j | 0 <= i < j < |s| :: s[i] != s[j]
  }

  predicate KeysDiffer<K(==), V>(items: seq<Item<K, V>>) {
    forall i, j | 0 <= i < j < |items| :: items[i].key != items[j].key
  }

  /**
   * The counts that `HASH_FSCK` compares and what it takes for granted: the number of buckets is
   * the power of two it should be, and the chains hold the items of the list, each once and in its
   * bucket. The links that it follows are those of `HashHandle`.
   */
  ghost predicate Sound<K, V>(t: Table<K, V>) {
    && t.numBuckets == |t.buckets| == Pow2(t.log2NumBuckets) && t.numItems == |t.items| == Total(t.buckets)
    && (forall k | 0 <= k < |t.buckets| :: t.buckets[k].count == |t.buckets[k].chain| && NoRepeats(t.buckets[k].chain))
    && (forall k, x | 0 <= k < |t.buckets| && x in t.buckets[k].chain ::
        x in t.items && ToBkt(x.hashv, |t.buckets|) == k)
    && (forall x | x in t.items :: x in t.buckets[ToBkt(x.hashv, |t.buckets|)].chain)
  }

  /** The keys are unique and hashed. */
  ghost predicate Hashed<K, V>(t: Table<K, V>, hash: K -> nat) {
    KeysDiffer(t.items) && forall x | x in t.items :: x.hashv == hash(x.key)
  }

  ghost predicate Inv<K, V>(t: Table<K, V>, hash: K -> nat) {
    Hashed(t, hash) && (t.items == [] || Sound(t))
  }

  /** `HASH_EXPAND_BUCKETS`. */
  function Expand<K, V>(t: Table<K, V>): Table<K, V>
    requires t.numBuckets == Pow2(t.log2NumBuckets) && t.numItems > 0
  {
    var ideal := Ideal(t.numItems, 2 * t.numBuckets);
    IdealIsCeiling(t.numItems, t.log2NumBuckets + 1);
    var m := MoveItems(Moved(NoBuckets(2 * t.numBuckets), 0), Flat(t.buckets), ideal);
    var ineff := if m.nonideal > t.numItems / 2 then t.ineffExpands + 1 else 0;
    t.(buckets := m.buckets, numBuckets := 2 * t.numBuckets, log2NumBuckets := t.log2NumBuckets + 1,
       ineffExpands := ineff, noexpand := t.noexpand || ineff > 1)
  }

  /** `HASH_ADD_TO_BKT` up to its test. */
  function Push<K, V>(t: Table<K, V>, x: Item<K, V>): Table<K, V>
    requires t.numBuckets == |t.buckets| > 0
  {
    var k := ToBkt(x.hashv, t.numBuckets);
    var b := t.buckets[k];
    t.(items := t.items + [x], numItems := t.numItems + 1,
       buckets := t.buckets[k := b.(chain := [x] + b.chain, count := b.count + 1)])
  }

  predicate MustExpand<K, V>(t: Table<K, V>, k: nat)
    requires k < |t.buckets|
  {
    t.buckets[k].count >= (t.buckets[k].expandMult + 1) * HASH_BKT_CAPACITY_THRESH && !t.noexpand
  }

  /** `HASH_ADD` of a new key. */
  function Add<K, V>(t: Table<K, V>, x: Item<K, V>): Table<K, V>
    requires t.items == [] || t.numBuckets == |t.buckets| == Pow2(t.log2NumBuckets)
  {
    assert Pow2(5) == 32;
    var t0 := if t.items == [] then MakeTable() else t;
    var t1 := Push(t0, x);
    if MustExpand(t1, ToBkt(x.hashv, t0.numBuckets)) then Expand(t1) else t1
  }

  function Without<T(==)>(s: seq<T>, x: T): (r: seq<T>)
  {
    if s == [] then [] else if s[0] == x then s[1..] else [s[0]] + Without(s[1..], x)
  }

  /** `HASH_DELETE`; with the last item the table goes. */
  function Delete<K(==), V(==)>(t: Table<K, V>, x: Item<K, V>): Table<K, V>
    requires t.numBuckets == |t.buckets| > 0
    requires t.buckets[ToBkt(x.hashv, t.numBuckets)].count > 0 && t.numItems > 0
  {
    if |t.items| == 1 then NoTable()
    else
      var k := ToBkt(x.hashv, t.numBuckets);
      var b := t.buckets[k];
      t.(items := Without(t.items, x), numItems := t.numItems - 1,
         buckets := t.buckets[k := b.(chain := Without(b.chain, x), count := b.count - 1)])
  }

  /** `HASH_FIND_IN_BKT`: the first item of the chain with that key. */
  function FindIn<K(==), V>(chain: seq<Item<K, V>>, key: K): Option<Item<K, V>> {
    if chain == [] then None else if chain[0].key == key then Some(chain[0]) else FindIn(chain[1..], key)
  }

  function Find<K(==), V>(t: Table<K, V>, hash: K -> nat, key: K): Option<Item<K, V>>
    requires t.items == [] || t.numBuckets == |t.buckets| > 0
  {
    if t.items == [] then None else FindIn(t.buckets[ToBkt(hash(key), t.numBuckets)].chain, key)
  }

  // ----- every operation keeps the invariant -----

  lemma {:induction false} OnlyKeeps<K, V>(items: seq<Item<K, V>>, k: nat, n: nat)
    requires n > 0 && NoRepeats(items)
    ensures NoRepeats(OnlyReversed(items, k, n))
    ensures forall x | x in items && ToBkt(x.hashv, n) == k :: x in OnlyReversed(items, k, n)
  {
    if items != [] {
      var x, rest := items[0], OnlyReversed(items[1..], k, n);
      OnlyKeeps(items[1..], k, n);
      assert forall i | 0 <= i < |items[1..]| :: items[1..][i] == items[i + 1];
      assert x !in items[1..];
      assert forall y | y in items :: y == x || y in items[1..];
      if ToBkt(x.hashv, n) == k {
        assert OnlyReversed(items, k, n) == rest + [x];
        assert x !in rest;
      }
    }
  }

  /** Bucket `k` of a table with `2 * n` buckets, made from `old`. */
  predicate Redistributed<K(==), V(==)>(was: seq<Bucket<K, V>>, b: Bucket<K, V>, k: nat, ideal: nat)
    requires was != [] && ideal > 0
  {
    && b.chain == OnlyReversed(was[k % |was|].chain, k, 2 * |was|)
    && b.count == |b.chain| && b.expandMult == if b.count > ideal then b.count / ideal else 0
  }

  /** The doubled table, bucket by bucket, and its bookkeeping. */
  lemma ExpandedIs<K, V>(t: Table<K, V>)
    requires Sound(t) && t.numItems > 0
    ensures var r, ideal := Expand(t), Ideal(t.numItems, 2 * t.numBuckets);
            && ideal > 0
            && |r.buckets| == r.numBuckets == 2 * t.numBuckets == Pow2(r.log2NumBuckets)
            && Total(r.buckets) == Total(t.buckets) && r.items == t.items && r.numItems == t.numItems
            && (forall k | 0 <= k < |r.buckets| :: Redistributed(t.buckets, r.buckets[k], k, ideal))
            && r.ineffExpands == (if SumOver(r.buckets, ideal) > t.numItems / 2 then t.ineffExpands + 1 else 0)
            && (r.noexpand <==> t.noexpand || r.ineffExpands > 1)
  {
    hide Pow2, And, OnlyReversed, Flat, Total, SumOver, MoveItems, NoRepeats;
    IdealIsCeiling(t.numItems, t.log2NumBuckets + 1);
    PowNext(t.log2NumBuckets);
    var n, ideal := t.numBuckets, Ideal(t.numItems, 2 * t.numBuckets);
    var empty := Moved(NoBuckets<K, V>(2 * n), 0);
    SumsOfNone(empty.buckets, ideal);
    MovedIs(empty, Flat(t.buckets), ideal);
    FlatLength(t.buckets);
    var r := Expand(t);
    forall k | 0 <= k < |r.buckets| ensures Redistributed(t.buckets, r.buckets[k], k, ideal) {
      OnlyFrom(t.buckets, 0, t.log2NumBuckets, k);
      assert OnlyReversed(Flat(t.buckets), k, 2 * n) + [] == OnlyReversed(Flat(t.buckets), k, 2 * n);
      InRange(k, n);
    }
  }

  lemma PowNext(k: nat)
    ensures Pow2(k + 1) == 2 * Pow2(k)
  {
  }

  lemma InRange(k: nat, n: nat)
    requires n > 0
    ensures 0 <= k % n < n
  {
  }

  lemma {:induction false} FlatLength<K, V>(buckets: seq<Bucket<K, V>>)
    requires forall k | 0 <= k < |buckets| :: buckets[k].count == |buckets[k].chain|
    ensures |Flat(buckets)| == Total(buckets)
  {
    if buckets != [] {
      var l := |buckets| - 1;
      FlatLength(buckets[..l]);
      FlatAppend(buckets[..l], buckets[l]);
      assert buckets == buckets[..l] + [buckets[l]];
    }
  }

  lemma {:induction false} FlatAppend<K, V>(buckets: seq<Bucket<K, V>>, b: Bucket<K, V>)
    ensures Flat(buckets + [b]) == Flat(buckets) + b.chain
  {
    if buckets == [] {
      assert buckets + [b] == [b];
    } else {
      assert (buckets + [b])[1..] == buckets[1..] + [b];
      FlatAppend(buckets[1..], b);
    }
  }

  /** Expansion loses nothing, duplicates nothing and puts every item where it is looked for. */
  lemma ExpandKeeps<K, V>(t: Table<K, V>)
    requires Sound(t) && t.numItems > 0
    ensures Sound(Expand(t)) && Expand(t).items == t.items
  {
    ExpandedIs(t);
    hide Expand, OnlyReversed, Ideal, Total;
    var r, n := Expand(t), t.numBuckets;
    forall k | 0 <= k < 2 * n ensures NoRepeats(r.buckets[k].chain) {
      assert Redistributed(t.buckets, r.buckets[k], k, Ideal(t.numItems, 2 * n));
      OnlyKeeps(t.buckets[k % n].chain, k, 2 * n);
    }
    forall x | x in t.items ensures x in r.buckets[ToBkt(x.hashv, 2 * n)].chain {
      DoubledBkt(x.hashv, t.log2NumBuckets);
      assert Redistributed(t.buckets, r.buckets[ToBkt(x.hashv, 2 * n)], ToBkt(x.hashv, 2 * n),
                           Ideal(t.numItems, 2 * n));
      OnlyKeeps(t.buckets[ToBkt(x.hashv, n)].chain, ToBkt(x.hashv, 2 * n), 2 * n);
    }
  }

  lemma PushKeeps<K, V>(t: Table<K, V>, x: Item<K, V>)
    requires Sound(t) && x !in t.items
    ensures Sound(Push(t, x))
  {
    var k := ToBkt(x.hashv, t.numBuckets);
    SumsUpdate(t.buckets, k, Push(t, x).buckets[k], 1);
    assert x !in t.buckets[k].chain;
  }

  lemma MadeIsSound<K, V>()
    ensures Sound(MakeTable<K, V>())
  {
    SumsOfNone(NoBuckets<K, V>(HASH_INITIAL_NUM_BUCKETS), 1);
    assert Pow2(5) == 32;
  }

  /** `HASH_ADD` of a new key appends to the list and keeps the invariant, expansion or not. */
  lemma AddKeeps<K, V>(t: Table<K, V>, hash: K -> nat, x: Item<K, V>)
    requires Inv(t, hash) && x.hashv == hash(x.key) && forall y | y in t.items :: y.key != x.key
    ensures t.items == [] || t.numBuckets == |t.buckets| == Pow2(t.log2NumBuckets)
    ensures Inv(Add(t, x), hash) && Add(t, x).items == t.items + [x]
  {
    MadeIsSound<K, V>();
    hide Sound, Expand;
    SoundSize(t);
    var t0 := if t.items == [] then MakeTable() else t;
    PushKeeps(t0, x);
    ExpandKeeps(Push(t0, x));
  }

  lemma SoundSize<K, V>(t: Table<K, V>)
    requires t.items == [] || Sound(t)
    ensures t.items == [] || t.numBuckets == |t.buckets| == Pow2(t.log2NumBuckets)
  {
  }

  lemma InFront<T>(x: T, s: seq<T>)
    ensures NoRepeats([x] + s) <==> NoRepeats(s) && x !in s
  {
    var r := [x] + s;
    assert forall i | 0 < i < |r| :: r[i] == s[i - 1];
    assert forall i | 0 <= i < |s| :: s[i] == r[i + 1];
    if x in s {
      var i :| 0 <= i < |s| && s[i] == x;
      assert r[0] == r[i + 1];
    }
  }

  lemma {:induction false} InWithout<T>(s: seq<T>, x: T, y: T)
    requires NoRepeats(s)
    ensures y in Without(s, x) <==> y in s && y != x
  {
    if s != [] {
      assert s == [s[0]] + s[1..];
      InFront(s[0], s[1..]);
      InWithout(s[1..], x, y);
    }
  }

  lemma {:induction false} WithoutIs<T>(s: seq<T>, x: T)
    requires NoRepeats(s)
    ensures NoRepeats(Without(s, x)) && |Without(s, x)| == |s| - (if x in s then 1 else 0)
  {
    if s != [] {
      assert s == [s[0]] + s[1..];
      InFront(s[0], s[1..]);
      WithoutIs(s[1..], x);
      if s[0] != x {
        InWithout(s[1..], x, s[0]);
        InFront(s[0], Without(s[1..], x));
      }
    }
  }

  lemma KeysInFront<K, V>(x: Item<K, V>, items: seq<Item<K, V>>)
    requires KeysDiffer(items)
    ensures KeysDiffer([x] + items) <==> forall y | y in items :: y.key != x.key
  {
    var r := [x] + items;
    assert forall i | 0 < i < |r| :: r[i] == items[i - 1];
    if y :| y in items && y.key == x.key {
      var i :| 0 <= i < |items| && items[i] == y;
      assert r[0].key == r[i + 1].key;
    }
  }

  lemma {:induction false} WithoutKeepsKeys<K, V>(items: seq<Item<K, V>>, x: Item<K, V>)
    requires KeysDiffer(items)
    ensures KeysDiffer(Without(items, x))
    ensures forall y | y in Without(items, x) :: y in items
  {
    if items != [] {
      assert forall i | 0 <= i < |items[1..]| :: items[1..][i] == items[i + 1];
      WithoutKeepsKeys(items[1..], x);
      assert [items[0]] + items[1..] == items;
      KeysInFront(items[0], items[1..]);
      KeysInFront(items[0], Without(items[1..], x));
    }
  }

  lemma DifferentKeys<K, V>(items: seq<Item<K, V>>)
    requires KeysDiffer(items)
    ensures NoRepeats(items)
  {
  }

  /** `HASH_DELETE` takes the item out of the list and its chain, and with the last one the table. */
  lemma DeleteKeeps<K, V>(t: Table<K, V>, hash: K -> nat, x: Item<K, V>)
    requires Inv(t, hash) && x in t.items
    ensures t.numBuckets == |t.buckets| > 0 && t.numItems > 0 && t.buckets[ToBkt(x.hashv, t.numBuckets)].count > 0
    ensures Inv(Delete(t, x), hash) && Delete(t, x).items == Without(t.items, x)
  {
    assert x in t.buckets[ToBkt(x.hashv, t.numBuckets)].chain;
    DifferentKeys(t.items);
    WithoutIs(t.items, x);
    WithoutKeepsKeys(t.items, x);
    if |t.items| > 1 {
      DeleteSound(t, x);
    }
  }

  lemma DeleteSound<K, V>(t: Table<K, V>, x: Item<K, V>)
    requires Sound(t) && x in t.items && NoRepeats(t.items) && |t.items| > 1
    requires t.buckets[ToBkt(x.hashv, t.numBuckets)].count > 0
    ensures Sound(Delete(t, x))
  {
    hide Without, NoRepeats, Total, And, Pow2;
    var k, r := ToBkt(x.hashv, t.numBuckets), Delete(t, x);
    var b := t.buckets[k];
    WithoutIs(t.items, x);
    WithoutIs(b.chain, x);
    SumsUpdate(t.buckets, k, r.buckets[k], 1);
    assert x in b.chain;
    forall j, y | 0 <= j < |r.buckets| && y in r.buckets[j].chain
      ensures y in r.items && ToBkt(y.hashv, |r.buckets|) == j
    {
      InWithout(t.items, x, y);
      InWithout(b.chain, x, y);
      assert y in t.buckets[j].chain;
    }
    forall y | y in r.items ensures y in r.buckets[ToBkt(y.hashv, |r.buckets|)].chain {
      InWithout(t.items, x, y);
      InWithout(b.chain, x, y);
      assert y in t.items;
    }
  }

  lemma {:induction false} FindInIs<K, V>(chain: seq<Item<K, V>>, key: K)
    ensures match FindIn(chain, key)
            case Some(x) => x in chain && x.key == key
            case None => forall y | y in chain :: y.key != key
  {
    if chain != [] {
      FindInIs(chain[1..], key);
    }
  }

  /** `HASH_FIND` finds what a search of the whole list would find. */
  lemma FindIff<K, V>(t: Table<K, V>, hash: K -> nat, key: K, x: Item<K, V>)
    requires Inv(t, hash)
    ensures t.items == [] || t.numBuckets == |t.buckets| > 0
    ensures Find(t, hash, key) == Some(x) <==> x in t.items && x.key == key
  {
    if t.items != [] {
      FindInIs(t.buckets[ToBkt(hash(key), t.numBuckets)].chain, key);
    }
  }

  lemma FindNone<K, V>(t: Table<K, V>, hash: K -> nat, key: K)
    requires Inv(t, hash) && t.items != []
    ensures t.numBuckets == |t.buckets| > 0
    ensures Find(t, hash, key) == None <==> forall y | y in t.items :: y.key != key
  {
    FindInIs(t.buckets[ToBkt(hash(key), t.numBuckets)].chain, key);
  }

  /** `HASH_SRT` reorders the list and leaves the chains alone: the table stays sound in any order. */
  lemma ReorderKeeps<K, V>(t: Table<K, V>, hash: K -> nat, items: seq<Item<K, V>>)
    requires Inv(t, hash) && multiset(items) == multiset(t.items)
    ensures Inv(t.(items := items), hash)
  {
    assert |items| == |multiset(items)| == |multiset(t.items)| == |t.items|;
    forall x ensures x in items <==> x in t.items {
      assert x in multiset(items) <==> x in multiset(t.items);
    }
    DifferentKeys(t.items);
    ListSort.PermutationDistinct(t.items, items);
    forall i, j | 0 <= i < j < |items| ensures items[i].key != items[j].key {
      assert items[i] in t.items && items[j] in t.items && items[i] != items[j];
      OneKey(t.items, items[i], items[j]);
    }
  }

  lemma OneKey<K, V>(items: seq<Item<K, V>>, x: Item<K, V>, y: Item<K, V>)
    requires KeysDiffer(items) && x in items && y in items && x != y
    ensures x.key != y.key
  {
    var i :| 0 <= i < |items| && items[i] == x;
    var j :| 0 <= j < |items| && items[j] == y;
  }

  // ----- runs -----

  datatype Op<K, V> = OpAdd(x: Item<K, V>) | OpDelete(x: Item<K, V>)

  /** What the macros demand: a key is added once, and only an item of the table is deleted. */
  predicate Proper<K(==), V(==)>(items: seq<Item<K, V>>, hash: K -> nat, op: Op<K, V>) {
    match op
    case OpAdd(x) => x.hashv == hash(x.key) && forall y | y in items :: y.key != x.key
    case OpDelete(x) => x in items
  }

  /** The same calls on a plain list. */
  function OnList<K(==), V(==)>(items: seq<Item<K, V>>, op: Op<K, V>): seq<Item<K, V>> {
    match op
    case OpAdd(x) => items + [x]
    case OpDelete(x) => Without(items, x)
  }

  function ListAfter<K(==), V(==)>(ops: seq<Op<K, V>>): seq<Item<K, V>> {
    if ops == [] then [] else OnList(ListAfter(ops[..|ops| - 1]), ops[|ops| - 1])
  }

  predicate AllProper<K(==), V(==)>(hash: K -> nat, ops: seq<Op<K, V>>) {
    forall i | 0 <= i < |ops| :: Proper(ListAfter(ops[..i]), hash, ops[i])
  }

  function Step<K(==), V(==)>(t: Table<K, V>, hash: K -> nat, op: Op<K, V>): Table<K, V>
    requires Inv(t, hash) && Proper(t.items, hash, op)
  {
    match op
    case OpAdd(x) =>
      AddKeeps(t, hash, x);
      Add(t, x)
    case OpDelete(x) =>
      DeleteKeeps(t, hash, x);
      Delete(t, x)
  }

  lemma StepKeeps<K, V>(t: Table<K, V>, hash: K -> nat, op: Op<K, V>)
    requires Inv(t, hash) && Proper(t.items, hash, op)
    ensures Inv(Step(t, hash, op), hash) && Step(t, hash, op).items == OnList(t.items, op)
  {
    match op
    case OpAdd(x) => AddKeeps(t, hash, x);
    case OpDelete(x) => DeleteKeeps(t, hash, x);
  }

  /** The table after some calls. */
  function After<K(==), V(==)>(hash: K -> nat, ops: seq<Op<K, V>>): (t: Table<K, V>)
    requires AllProper(hash, ops)
    ensures Inv(t, hash) && t.items == ListAfter(ops)
  {
    if ops == [] then NoTable()
    else
      var k := |ops| - 1;
      assert forall i | 0 <= i < k :: ops[..k][..i] == ops[..i];
      StepKeeps(After(hash, ops[..k]), hash, ops[k]);
      Step(After(hash, ops[..k]), hash, ops[k])
  }

  /**
   * After any run of calls the table is sound, its list has the items in the order in which they
   * were added, and a search finds exactly what it would find in that list.
   */
  lemma RunFindIff<K, V>(hash: K -> nat, ops: seq<Op<K, V>>, key: K, x: Item<K, V>)
    requires AllProper(hash, ops)
    ensures var t := After(hash, ops);
            && Inv(t, hash) && t.items == ListAfter(ops)
            && (t.items == [] || t.numBuckets == |t.buckets| > 0)
            && (Find(t, hash, key) == Some(x) <==> x in ListAfter(ops) && x.key == key)
  {
    FindIff(After(hash, ops), hash, key, x);
  }
}
