/**
 * `HASH_ADD` of a handle that is in the table already, as the block cache does when it reuses a
 * frame: its key has changed and it is still in the list and in the chain of its old key. Handles
 * are numbers and the links are values, so that the links may form any shape. Counters are left
 * out: they decide only whether the buckets are doubled. `SearchAfter` is about additions that do
 * not double them; of those that do, it is said whether they return.
 */
module HashAgain {
  import opened Base
  import opened HashTable

  datatype Node = Node(
    key: nat,
    hashv: nat,
    next: Option<nat>,
    prev: Option<nat>,
    hhNext: Option<nat>,
    hhPrev: Option<nat>)

  datatype Links = Links(nodes: seq<Node>, head: Option<nat>, tail: Option<nat>, hhHeads: seq<Option<nat>>)

  // ----- chains -----

  /** From `p` on, `hh_next` leads along `s` and then to `e`. */
  predicate Leads(nodes: seq<Node>, p: Option<nat>, s: seq<nat>, e: Option<nat>)
    decreases |s|
  {
    if s == [] then p == e
    else p == Some(s[0]) && s[0] < |nodes| && Leads(nodes, nodes[s[0]].hhNext, s[1..], e)
  }

  lemma {:induction false} LeadsOn(nodes: seq<Node>, p: Option<nat>, a: seq<nat>, b: seq<nat>, e: Option<nat>)
    ensures Leads(nodes, p, a + b, e) <==>
              exists m :: Leads(nodes, p, a, m) && Leads(nodes, m, b, e)
    decreases |a|
  {
    if a == [] {
      assert a + b == b;
      assert Leads(nodes, p, a, p);
    } else {
      assert (a + b)[1..] == a[1..] + b;
      if a[0] < |nodes| {
        LeadsOn(nodes, nodes[a[0]].hhNext, a[1..], b, e);
      }
    }
  }

  lemma {:induction false} LeadsInRange(nodes: seq<Node>, p: Option<nat>, s: seq<nat>, e: Option<nat>)
    requires Leads(nodes, p, s, e)
    ensures forall x | x in s :: x < |nodes|
    decreases |s|
  {
    if s != [] {
      LeadsInRange(nodes, nodes[s[0]].hhNext, s[1..], e);
      assert s == [s[0]] + s[1..];
    }
  }

  /** Only the `hh_next` of the handles on the way matter. */
  lemma {:induction false} LeadsSame(nodes: seq<Node>, nodes': seq<Node>, p: Option<nat>, s: seq<nat>, e: Option<nat>)
    requires Leads(nodes, p, s, e) && |nodes'| == |nodes|
    requires forall x | x in s && x < |nodes| :: nodes'[x].hhNext == nodes[x].hhNext
    ensures Leads(nodes', p, s, e)
    decreases |s|
  {
    if s != [] {
      assert s == [s[0]] + s[1..];
      LeadsSame(nodes, nodes', nodes[s[0]].hhNext, s[1..], e);
    }
  }

  /** The handle after `i` steps from `p`. */
  function Nth(nodes: seq<Node>, p: Option<nat>, i: nat): Option<nat>
    decreases i
  {
    if i == 0 || p == None || p.value >= |nodes| then p else Nth(nodes, nodes[p.value].hhNext, i - 1)
  }

  lemma {:induction false} NthOf(nodes: seq<Node>, p: Option<nat>, s: seq<nat>, e: Option<nat>, i: nat)
    requires Leads(nodes, p, s, e)
    ensures Nth(nodes, p, i) == if i < |s| then Some(s[i]) else Nth(nodes, e, i - |s|)
    decreases i
  {
    if s != [] && i > 0 {
      NthOf(nodes, nodes[s[0]].hhNext, s[1..], e, i - 1);
    }
  }

  // ----- searches -----

  /** Handle `x` has another key. */
  predicate Other(nodes: seq<Node>, x: nat, key: nat) {
    x < |nodes| && nodes[x].key != key
  }

  ghost predicate Passes(nodes: seq<Node>, p: Option<nat>, key: nat, i: nat) {
    forall j: nat | j < i :: Nth(nodes, p, j).Some? && Other(nodes, Nth(nodes, p, j).value, key)
  }

  /** `HASH_FIND_IN_BKT` from `p` ends at `g`, at null, or never. */
  ghost predicate FindsFrom(nodes: seq<Node>, p: Option<nat>, key: nat, g: nat) {
    exists i: nat :: Passes(nodes, p, key, i) && Nth(nodes, p, i) == Some(g) && g < |nodes| && nodes[g].key == key
  }

  ghost predicate MissesFrom(nodes: seq<Node>, p: Option<nat>, key: nat) {
    exists i: nat :: Passes(nodes, p, key, i) && Nth(nodes, p, i) == None
  }

  ghost predicate EndlessFrom(nodes: seq<Node>, p: Option<nat>, key: nat) {
    forall i: nat :: Passes(nodes, p, key, i)
  }

  lemma PassesPath(nodes: seq<Node>, p: Option<nat>, s: seq<nat>, e: Option<nat>, key: nat, i: nat)
    requires Leads(nodes, p, s, e) && i <= |s| && forall j | 0 <= j < i :: Other(nodes, s[j], key)
    ensures Passes(nodes, p, key, i)
  {
    forall j: nat | j < i ensures Nth(nodes, p, j).Some? && Other(nodes, Nth(nodes, p, j).value, key) {
      NthOf(nodes, p, s, e, j);
    }
  }

  lemma FindsOnPath(nodes: seq<Node>, p: Option<nat>, s: seq<nat>, e: Option<nat>, key: nat, i: nat)
    requires Leads(nodes, p, s, e) && i < |s| && forall j | 0 <= j < i :: Other(nodes, s[j], key)
    requires s[i] < |nodes| && nodes[s[i]].key == key
    ensures FindsFrom(nodes, p, key, s[i])
  {
    PassesPath(nodes, p, s, e, key, i);
    NthOf(nodes, p, s, e, i);
  }

  lemma MissesOnPath(nodes: seq<Node>, p: Option<nat>, s: seq<nat>, key: nat)
    requires Leads(nodes, p, s, None) && forall j | 0 <= j < |s| :: Other(nodes, s[j], key)
    ensures MissesFrom(nodes, p, key)
  {
    PassesPath(nodes, p, s, None, key, |s|);
    NthOf(nodes, p, s, None, |s|);
  }

  /** A path that leads back to its start is followed for ever. */
  lemma {:induction false} Round(nodes: seq<Node>, p: Option<nat>, s: seq<nat>, key: nat, i: nat)
    requires s != [] && Leads(nodes, p, s, p) && forall j | 0 <= j < |s| :: Other(nodes, s[j], key)
    ensures Nth(nodes, p, i).Some? && Other(nodes, Nth(nodes, p, i).value, key)
  {
    NthOf(nodes, p, s, p, i);
    if i >= |s| {
      Round(nodes, p, s, key, i - |s|);
    }
  }

  // ----- the table before and after -----

  /** The chains of a sound table: every handle of the list once, in the chain of its key. */
  ghost predicate Sound(t: Links, hash: nat -> nat, list: seq<nat>, chains: seq<seq<nat>>) {
    && |chains| == |t.hhHeads| > 0
    && (forall x | x in list :: x < |t.nodes| && t.nodes[x].hashv == hash(t.nodes[x].key))
    && (forall x, y | x in list && y in list && t.nodes[x].key == t.nodes[y].key :: x == y)
    && (forall b | 0 <= b < |chains| :: NoRepeats(chains[b]) && Leads(t.nodes, t.hhHeads[b], chains[b], None))
    && (forall b, x | 0 <= b < |chains| && x in chains[b] ::
          x in list && ToBkt(t.nodes[x].hashv, |chains|) == b)
    && (forall x | x in list :: x in chains[ToBkt(t.nodes[x].hashv, |chains|)])
  }

  /** The list, from its head to its tail. */
  ghost predicate Listed(t: Links, list: seq<nat>) {
    && NoRepeats(list) && list != [] && t.head == Some(list[0]) && t.tail == Some(list[|list| - 1])
    && forall i | 0 <= i < |list| ::
         && list[i] < |t.nodes|
         && t.nodes[list[i]].prev == (if i == 0 then None else Some(list[i - 1]))
         && t.nodes[list[i]].next == (if i == |list| - 1 then None else Some(list[i + 1]))
  }

  /** The key of `f` is overwritten and `HASH_ADD` puts it to the end of the list once more. */
  function ToTail(t: Links, f: nat, key: nat, hashv: nat): Links
    requires f < |t.nodes| && t.tail.Some? && t.tail.value < |t.nodes|
  {
    var l := t.tail.value;
    var nodes := t.nodes[f := t.nodes[f].(key := key, hashv := hashv, next := None)];
    var linked := nodes[l := nodes[l].(next := Some(f))];
    t.(nodes := linked[f := linked[f].(prev := Some(l))], tail := Some(f))
  }

  /** `HASH_ADD_TO_BKT` up to its test. */
  function ToBucket(t: Links, f: nat): Links
    requires f < |t.nodes| && t.hhHeads != []
  {
    var b := ToBkt(t.nodes[f].hashv, |t.hhHeads|);
    t.(nodes := PutInFront(t.nodes, f, t.hhHeads[b]), hhHeads := t.hhHeads[b := Some(f)])
  }

  /** `f` gets in front of the handle `h`. */
  function PutInFront(nodes: seq<Node>, f: nat, h: Option<nat>): (r: seq<Node>)
    requires f < |nodes|
    ensures |r| == |nodes| && r[f].hhNext == h
    ensures forall x | 0 <= x < |nodes| :: r[x].key == nodes[x].key && r[x].hashv == nodes[x].hashv
    ensures forall x | 0 <= x < |nodes| :: r[x].next == nodes[x].next && r[x].prev == nodes[x].prev
    ensures forall x | 0 <= x < |nodes| && x != f :: r[x].hhNext == nodes[x].hhNext
  {
    var front := nodes[f := nodes[f].(hhNext := h, hhPrev := None)];
    match h
    case None => front
    case Some(y) => if y < |front| then front[y := front[y].(hhPrev := Some(f))] else front
  }

  function AddAgain(t: Links, f: nat, key: nat, hashv: nat): Links
    requires f < |t.nodes| && t.tail.Some? && t.tail.value < |t.nodes| && t.hhHeads != []
  {
    ToBucket(ToTail(t, f, key, hashv), f)
  }

  /** What the addition does to the fields that searches follow. */
  lemma AgainIs(t: Links, f: nat, key: nat, hashv: nat)
    requires f < |t.nodes| && t.tail.Some? && t.tail.value < |t.nodes| && t.hhHeads != []
    ensures var u, b := AddAgain(t, f, key, hashv), ToBkt(hashv, |t.hhHeads|);
            && |u.nodes| == |t.nodes| && u.nodes[f].key == key && u.nodes[f].hashv == hashv
            && u.nodes[f].hhNext == t.hhHeads[b] && u.hhHeads == t.hhHeads[b := Some(f)]
            && forall x | 0 <= x < |t.nodes| && x != f ::
                 && u.nodes[x].key == t.nodes[x].key && u.nodes[x].hashv == t.nodes[x].hashv
                 && u.nodes[x].hhNext == t.nodes[x].hhNext
  {
    hide ToBkt, PutInFront;
  }

  /** The list as it is then: cut off behind its head, with a tail that leads nowhere. */
  lemma ListIsCut(t: Links, list: seq<nat>, key: nat, hashv: nat)
    requires Listed(t, list) && |list| > 1 && t.hhHeads != []
    ensures var f, last, u := list[0], list[|list| - 1], AddAgain(t, list[0], key, hashv);
            && u.head == u.tail == Some(f) && u.nodes[f].next == None
            && u.nodes[f].prev == Some(last) && u.nodes[last].next == Some(f)
  {
    hide ToBkt, PutInFront;
  }

  /** The place of `f` in its old chain. */
  predicate Stands(chain: seq<nat>, x: seq<nat>, f: nat, y: seq<nat>) {
    chain == x + [f] + y
  }

  lemma SoundFacts(t: Links, hash: nat -> nat, list: seq<nat>, chains: seq<seq<nat>>, f: nat, b: nat)
    requires Sound(t, hash, list, chains) && f in list && b < |chains|
    ensures f < |t.nodes| && |chains| == |t.hhHeads| > 0
    ensures NoRepeats(chains[b]) && Leads(t.nodes, t.hhHeads[b], chains[b], None)
    ensures forall x | x in chains[b] :: x < |t.nodes| && x in list
    ensures f in chains[b] <==> b == ToBkt(t.nodes[f].hashv, |chains|)
  {
    hide NoRepeats, ToBkt;
    LeadsInRange(t.nodes, t.hhHeads[b], chains[b], None);
  }

  /**
   * Where the chains lead after the addition, from bucket `b`: the handles in front of `f` in its
   * old chain lead to it as before, and it leads to what its new chain was.
   */
  lemma ChainsAfter(t: Links, hash: nat -> nat, list: seq<nat>, chains: seq<seq<nat>>,
                    f: nat, key: nat, x: seq<nat>, y: seq<nat>, b: nat)
    requires Sound(t, hash, list, chains) && f in list && t.tail.Some? && t.tail.value < |t.nodes| && b < |chains|
    requires f < |t.nodes| && |chains| == |t.hhHeads| > 0
    requires Stands(chains[ToBkt(t.nodes[f].hashv, |chains|)], x, f, y)
    ensures var a, c := ToBkt(t.nodes[f].hashv, |chains|), ToBkt(hash(key), |chains|);
            var u := AddAgain(t, f, key, hash(key));
            && (b != a && b != c ==> Leads(u.nodes, u.hhHeads[b], chains[b], None))
            && (b == c != a ==> Leads(u.nodes, u.hhHeads[b], [f] + chains[b], None))
            && (b == a != c ==> Leads(u.nodes, u.hhHeads[b], x + [f] + chains[c], None))
            && (b == a == c ==> Leads(u.nodes, u.hhHeads[b], [f] + x, Some(f)))
  {
    hide ToBkt, AddAgain, Sound, Leads, NoRepeats;
    var a, c := ToBkt(t.nodes[f].hashv, |chains|), ToBkt(hash(key), |chains|);
    var u := AddAgain(t, f, key, hash(key));
    AgainIs(t, f, key, hash(key));
    SoundFacts(t, hash, list, chains, f, a);
    SoundFacts(t, hash, list, chains, f, b);
    SoundFacts(t, hash, list, chains, f, c);
    FirstPart(t.nodes, t.hhHeads[a], x, f, y);
    FrontDiffers(x, f, y);
    LeadsSame(t.nodes, u.nodes, t.hhHeads[a], x, Some(f));
    if c == a {
      LeadsFront(u.nodes, f, x, Some(f));
    } else {
      LeadsSame(t.nodes, u.nodes, t.hhHeads[c], chains[c], None);
      LeadsFront(u.nodes, f, chains[c], None);
      LeadsJoin(u.nodes, t.hhHeads[a], x, Some(f), [f] + chains[c], None);
      assert x + ([f] + chains[c]) == x + [f] + chains[c];
    }
    if b != a && b != c {
      LeadsSame(t.nodes, u.nodes, t.hhHeads[b], chains[b], None);
    }
  }

  lemma LeadsJoin(nodes: seq<Node>, p: Option<nat>, a: seq<nat>, m: Option<nat>, b: seq<nat>, e: Option<nat>)
    requires Leads(nodes, p, a, m) && Leads(nodes, m, b, e)
    ensures Leads(nodes, p, a + b, e)
  {
    hide Leads;
    LeadsOn(nodes, p, a, b, e);
  }

  lemma FrontDiffers(x: seq<nat>, f: nat, y: seq<nat>)
    requires NoRepeats(x + [f] + y)
    ensures forall z | z in x :: z != f && z in x + [f] + y
  {
    var s := x + [f] + y;
    assert s[|x|] == f && forall i | 0 <= i < |x| :: s[i] == x[i];
  }

  lemma FirstPart(nodes: seq<Node>, p: Option<nat>, x: seq<nat>, f: nat, y: seq<nat>)
    requires Leads(nodes, p, x + [f] + y, None)
    ensures Leads(nodes, p, x, Some(f))
  {
    assert x + [f] + y == x + ([f] + y);
    LeadsOn(nodes, p, x, [f] + y, None);
  }

  lemma LeadsFront(nodes: seq<Node>, f: nat, s: seq<nat>, e: Option<nat>)
    requires f < |nodes| && Leads(nodes, nodes[f].hhNext, s, e)
    ensures Leads(nodes, Some(f), [f] + s, e)
  {
    assert ([f] + s)[1..] == s;
  }

  lemma {:induction false} FirstOf(s: seq<nat>, g: nat) returns (i: nat)
    requires g in s
    ensures i < |s| && s[i] == g && forall j | 0 <= j < i :: s[j] != g
  {
    if s[0] == g {
      i := 0;
    } else {
      assert s == [s[0]] + s[1..];
      var k := FirstOf(s[1..], g);
      i := k + 1;
    }
  }

  lemma FindsIn(nodes: seq<Node>, p: Option<nat>, s: seq<nat>, e: Option<nat>, key: nat, g: nat)
    requires Leads(nodes, p, s, e) && g in s && g < |nodes| && nodes[g].key == key
    requires forall z | z in s :: z < |nodes| && (nodes[z].key == key ==> z == g)
    ensures FindsFrom(nodes, p, key, g)
  {
    var i := FirstOf(s, g);
    FindsOnPath(nodes, p, s, e, key, i);
  }

  /** `k` is the key of another handle, which does not stand behind `f`. */
  ghost predicate Reached(t: Links, list: seq<nat>, f: nat, y: seq<nat>, k: nat) {
    exists g :: g in list && g < |t.nodes| && g != f && g !in y && t.nodes[g].key == k
  }

  /** Where a search for `k` goes after the addition: along this path and then to this end. */
  ghost function PathOf(chains: seq<seq<nat>>, f: nat, x: seq<nat>, a: nat, c: nat, b: nat): (seq<nat>, Option<nat>)
    requires a < |chains| && b < |chains| && c < |chains|
  {
    if b == a == c then ([f] + x, Some(f))
    else if b == a then (x + [f] + chains[c], None)
    else if b == c then ([f] + chains[c], None)
    else (chains[b], None)
  }

  /** The handles on that path: those of the bucket that do not stand behind `f`, and some that have other keys. */
  lemma PathHas(t: Links, hash: nat -> nat, list: seq<nat>, chains: seq<seq<nat>>,
                f: nat, key: nat, x: seq<nat>, y: seq<nat>, k: nat)
    requires Sound(t, hash, list, chains) && f in list
    requires f < |t.nodes| && |chains| == |t.hhHeads| > 0
    requires Stands(chains[ToBkt(t.nodes[f].hashv, |chains|)], x, f, y)
    ensures var a, c, b := ToBkt(t.nodes[f].hashv, |chains|), ToBkt(hash(key), |chains|), ToBkt(hash(k), |chains|);
            var s := PathOf(chains, f, x, a, c, b).0;
            && (forall z | z in s :: z < |t.nodes| && z in list)
            && (forall z | z in s && z != f && t.nodes[z].key == k :: z !in y)
            && (forall z | z in list && z < |t.nodes| && z != f && z !in y && t.nodes[z].key == k :: z in s)
  {
    hide ToBkt, Leads, NoRepeats;
    var a, c, b := ToBkt(t.nodes[f].hashv, |chains|), ToBkt(hash(key), |chains|), ToBkt(hash(k), |chains|);
    SoundFacts(t, hash, list, chains, f, a);
    SoundFacts(t, hash, list, chains, f, b);
    SoundFacts(t, hash, list, chains, f, c);
    BehindIsApart(x, f, y);
    assert forall z | z in y :: z in chains[a] && ToBkt(t.nodes[z].hashv, |chains|) == a;
    assert forall z | z in x :: z in chains[a] && ToBkt(t.nodes[z].hashv, |chains|) == a;
  }

  lemma BehindIsApart(x: seq<nat>, f: nat, y: seq<nat>)
    requires NoRepeats(x + [f] + y)
    ensures forall z | z in x :: z !in y
  {
    var s := x + [f] + y;
    assert forall i | 0 <= i < |x| :: s[i] == x[i];
    assert forall i | 0 <= i < |y| :: s[|x| + 1 + i] == y[i];
  }

  /**
   * How searches end after the addition, if it does not double the buckets. The new key is found. Any
   * other one is found as before unless its handle stands behind `f` in the old chain. What is not
   * found is missed, but for one case: if the old and the new key share a bucket, a search for a key
   * of that bucket never ends.
   */
  lemma SearchAfter(t: Links, hash: nat -> nat, list: seq<nat>, chains: seq<seq<nat>>,
                    f: nat, key: nat, x: seq<nat>, y: seq<nat>, k: nat)
    requires Sound(t, hash, list, chains) && f in list && t.tail.Some? && t.tail.value < |t.nodes|
    requires f < |t.nodes| && |chains| == |t.hhHeads| > 0
    requires Stands(chains[ToBkt(t.nodes[f].hashv, |chains|)], x, f, y)
    requires forall z | z in list && z < |t.nodes| :: t.nodes[z].key != key
    ensures var a, c, b := ToBkt(t.nodes[f].hashv, |chains|), ToBkt(hash(key), |chains|), ToBkt(hash(k), |chains|);
            var u := AddAgain(t, f, key, hash(key));
            && |u.hhHeads| == |chains|
            && (k == key ==> FindsFrom(u.nodes, u.hhHeads[b], k, f))
            && (k != key ==> forall g | g in list && g < |t.nodes| && g != f && g !in y && t.nodes[g].key == k ::
                  FindsFrom(u.nodes, u.hhHeads[b], k, g))
            && (k != key && !Reached(t, list, f, y, k) ==>
                  if b == a == c then EndlessFrom(u.nodes, u.hhHeads[b], k) else MissesFrom(u.nodes, u.hhHeads[b], k))
  {
    hide ToBkt, Leads, NoRepeats, Sound, AddAgain, FindsFrom, MissesFrom, Stands;
    var a, c, b := ToBkt(t.nodes[f].hashv, |chains|), ToBkt(hash(key), |chains|), ToBkt(hash(k), |chains|);
    var u := AddAgain(t, f, key, hash(key));
    AgainIs(t, f, key, hash(key));
    ChainsAfter(t, hash, list, chains, f, key, x, y, b);
    PathHas(t, hash, list, chains, f, key, x, y, k);
    var (s, e) := PathOf(chains, f, x, a, c, b);
    var p := u.hhHeads[b];
    assert Leads(u.nodes, p, s, e);
    SameKeys(t, hash, list, chains, f);
    if k == key {
      FindsIn(u.nodes, p, s, e, k, f);
    } else {
      forall g | g in list && g < |t.nodes| && g != f && g !in y && t.nodes[g].key == k
        ensures FindsFrom(u.nodes, p, k, g)
      {
        FindsIn(u.nodes, p, s, e, k, g);
      }
      if !Reached(t, list, f, y, k) {
        forall j | 0 <= j < |s| ensures Other(u.nodes, s[j], k) {
          assert s[j] in s;
        }
        if b == a == c {
          forall i: nat ensures Passes(u.nodes, p, k, i) {
            forall j: nat | j < i ensures Nth(u.nodes, p, j).Some? && Other(u.nodes, Nth(u.nodes, p, j).value, k) {
              Round(u.nodes, p, s, k, j);
            }
          }
        } else {
          MissesOnPath(u.nodes, p, s, k);
        }
      }
    }
  }

  lemma SameKeys(t: Links, hash: nat -> nat, list: seq<nat>, chains: seq<seq<nat>>, f: nat)
    requires Sound(t, hash, list, chains) && f in list
    ensures forall z, w | z in list && w in list ::
              z < |t.nodes| && w < |t.nodes| && (t.nodes[z].key == t.nodes[w].key ==> z == w)
  {
  }

  // ----- the buckets doubled right afterwards -----

  /** `HASH_EXPAND_BUCKETS` on the way: the handles and the heads of the new chains. */
  datatype Moving = Moving(nodes: seq<Node>, heads: seq<Option<nat>>)

  /** One turn of the inner loop. */
  function Move(m: Moving, x: nat): (r: Moving)
    requires x < |m.nodes| && m.heads != []
    ensures |r.nodes| == |m.nodes| && |r.heads| == |m.heads|
  {
    var k := ToBkt(m.nodes[x].hashv, |m.heads|);
    Moving(PutInFront(m.nodes, x, m.heads[k]), m.heads[k := Some(x)])
  }

  /** The inner loop from `thh`, cut short after `turns` turns. */
  function Walk(m: Moving, thh: Option<nat>, turns: nat): (r: Option<Moving>)
    requires m.heads != []
    ensures r.Some? ==> |r.value.nodes| == |m.nodes| && |r.value.heads| == |m.heads|
    decreases turns
  {
    if thh == None then Some(m)
    else if turns == 0 || thh.value >= |m.nodes| then None
    else Walk(Move(m, thh.value), m.nodes[thh.value].hhNext, turns - 1)
  }

  /** The inner loop ends, with `r`. */
  ghost predicate Ends(m: Moving, thh: Option<nat>, r: Moving)
    requires m.heads != []
  {
    exists turns: nat :: Walk(m, thh, turns) == Some(r)
  }

  function MoveMany(m: Moving, s: seq<nat>): (r: Moving)
    requires m.heads != [] && forall x | x in s :: x < |m.nodes|
    ensures |r.nodes| == |m.nodes| && |r.heads| == |m.heads|
    decreases |s|
  {
    if s == [] then m
    else
      assert s[0] in s && forall x | x in s[1..] :: x in s;
      MoveMany(Move(m, s[0]), s[1..])
  }

  /** What the moves leave alone: other handles, their hash values, and the heads of other new chains. */
  lemma {:induction false} MoveManyIs(m: Moving, s: seq<nat>)
    requires m.heads != [] && forall x | x in s :: x < |m.nodes|
    ensures var r := MoveMany(m, s);
            && (forall x | 0 <= x < |m.nodes| :: r.nodes[x].hashv == m.nodes[x].hashv)
            && (forall x | 0 <= x < |m.nodes| && x !in s :: r.nodes[x].hhNext == m.nodes[x].hhNext)
            && (forall k | 0 <= k < |m.heads| && r.heads[k] != m.heads[k] ::
                  exists x :: x in s && ToBkt(m.nodes[x].hashv, |m.heads|) == k)
    decreases |s|
  {
    hide ToBkt;
    if s != [] {
      assert s[0] in s && forall x | x in s[1..] :: x in s;
      assert s == [s[0]] + s[1..];
      MoveManyIs(Move(m, s[0]), s[1..]);
      var r, k0 := MoveMany(m, s), ToBkt(m.nodes[s[0]].hashv, |m.heads|);
      forall k | 0 <= k < |m.heads| && r.heads[k] != m.heads[k]
        ensures exists x :: x in s && ToBkt(m.nodes[x].hashv, |m.heads|) == k
      {
        if k != k0 {
          var x :| x in s[1..] && ToBkt(Move(m, s[0]).nodes[x].hashv, |m.heads|) == k;
          assert x in s;
        }
      }
    }
  }

  /** A path without repetitions is moved handle by handle. */
  lemma {:induction false} WalkPath(m: Moving, thh: Option<nat>, s: seq<nat>, e: Option<nat>, turns: nat)
    requires m.heads != [] && Leads(m.nodes, thh, s, e) && NoRepeats(s)
    ensures forall x | x in s :: x < |m.nodes|
    ensures Walk(m, thh, |s| + turns) == Walk(MoveMany(m, s), e, turns)
    decreases |s|
  {
    LeadsInRange(m.nodes, thh, s, e);
    if s != [] {
      assert s == [s[0]] + s[1..];
      InFront(s[0], s[1..]);
      LeadsSame(m.nodes, Move(m, s[0]).nodes, m.nodes[s[0]].hhNext, s[1..], e);
      WalkPath(Move(m, s[0]), m.nodes[s[0]].hhNext, s[1..], e, turns);
    }
  }

  lemma PathEnds(m: Moving, thh: Option<nat>, s: seq<nat>, e: Option<nat>, r: Moving)
    requires m.heads != [] && Leads(m.nodes, thh, s, e) && NoRepeats(s)
    requires forall x | x in s :: x < |m.nodes|
    requires Ends(MoveMany(m, s), e, r)
    ensures Ends(m, thh, r)
  {
    var turns: nat :| Walk(MoveMany(m, s), e, turns) == Some(r);
    WalkPath(m, thh, s, e, turns);
  }

  lemma NoPathEnds(m: Moving)
    requires m.heads != []
    ensures Ends(m, None, m)
  {
    assert Walk(m, None, 0) == Some(m);
  }

  /** The table after the addition: `f` stood in chain `a` behind `x` and is now in front of chain `c`. */
  datatype Again = Again(
    nodes: seq<Node>, heads: seq<Option<nat>>, chains: seq<seq<nat>>, lg: nat,
    f: nat, x: seq<nat>, y: seq<nat>, a: nat, c: nat)

  ghost predicate Fits(w: Again) {
    && |w.chains| == |w.heads| == Pow2(w.lg) && w.a < |w.chains| && w.c < |w.chains| && w.f < |w.nodes|
    && Stands(w.chains[w.a], w.x, w.f, w.y) && ToBkt(w.nodes[w.f].hashv, |w.chains|) == w.c
    && (forall b | 0 <= b < |w.chains| :: NoRepeats(w.chains[b]))
    && (forall b, z {:trigger z in w.chains[b]} | 0 <= b < |w.chains| && z in w.chains[b] ::
          z < |w.nodes| && b == if z == w.f then w.a else ToBkt(w.nodes[z].hashv, |w.chains|))
  }

  /** The path that is left in old bucket `j`, before or after `f` was moved for the first time. */
  ghost function PathNow(w: Again, j: nat, moved: bool): (seq<nat>, Option<nat>)
    requires Fits(w) && j < |w.chains|
  {
    if !moved then PathOf(w.chains, w.f, w.x, w.a, w.c, j)
    else if j == w.a then (w.x + [w.f], None)
    else if j == w.c then ([w.f], None)
    else (w.chains[j], None)
  }

  ghost function NewBkt(w: Again): nat
    requires Fits(w)
  {
    ToBkt(w.nodes[w.f].hashv, 2 * |w.chains|)
  }

  /** The loop of the old buckets before turn `i`. */
  ghost predicate Before(w: Again, m: Moving, i: nat) {
    && Fits(w) && |m.nodes| == |w.nodes| && |m.heads| == 2 * |w.chains| && i <= |w.chains|
    && (forall z | 0 <= z < |m.nodes| :: m.nodes[z].hashv == w.nodes[z].hashv)
    && (forall j: nat | i <= j < |w.chains| ::
          Leads(m.nodes, w.heads[j], PathNow(w, j, w.a < i || w.c < i).0, PathNow(w, j, w.a < i || w.c < i).1))
    && (i <= w.a && i <= w.c ==> m.heads[NewBkt(w)] == None)
  }

  lemma FitsFacts(w: Again)
    requires Fits(w)
    ensures w.f in w.chains[w.a] && w.f !in w.x && NoRepeats(w.x) && NoRepeats([w.f] + w.x) && NoRepeats(w.x + [w.f])
    ensures forall z | z in w.x :: z in w.chains[w.a] && z != w.f
    ensures w.a != w.c ==> w.f !in w.chains[w.c] && NoRepeats([w.f] + w.chains[w.c])
    ensures w.a != w.c ==> NoRepeats(w.x + [w.f] + w.chains[w.c])
    ensures forall i, j | 0 <= i < |w.chains| && 0 <= j < |w.chains| && i != j ::
              forall z | z in w.chains[i] :: z !in w.chains[j]
  {
    hide ToBkt, Pow2;
    var chain, s := w.chains[w.a], w.x + [w.f];
    FrontDiffers(w.x, w.f, w.y);
    assert forall i | 0 <= i < |s| :: chain[i] == s[i];
    InFront(w.f, w.x);
    assert forall i | 0 <= i < |w.x| :: w.x[i] == s[i];
    if w.a != w.c {
      InFront(w.f, w.chains[w.c]);
      Joined(s, w.chains[w.c]);
    }
  }

  lemma Joined(s: seq<nat>, r: seq<nat>)
    requires NoRepeats(s) && NoRepeats(r) && forall z | z in s :: z !in r
    ensures NoRepeats(s + r)
  {
    forall i, j | 0 <= i < j < |s + r| ensures (s + r)[i] != (s + r)[j] {
      if i < |s| <= j {
        assert s[i] in s && r[j - |s|] in r;
      }
    }
  }

  /** Handles of old bucket `j` go to new chains of the same remainder. */
  lemma OtherNewBkt(w: Again, z: nat, j: nat)
    requires Fits(w) && j < |w.chains| && z in w.chains[j] && z != w.f && j != w.c
    ensures ToBkt(w.nodes[z].hashv, 2 * |w.chains|) != NewBkt(w)
  {
    hide ToBkt, Pow2, NoRepeats;
    DoubledBkt(w.nodes[z].hashv, w.lg);
    DoubledBkt(w.nodes[w.f].hashv, w.lg);
  }

  /** Handles that are not moved lead on as before. */
  lemma PathStays(m: Moving, s: seq<nat>, thh: Option<nat>, p: seq<nat>, e: Option<nat>)
    requires m.heads != [] && Leads(m.nodes, thh, p, e)
    requires (forall z | z in s :: z < |m.nodes|) && forall z | z in p :: z !in s
    ensures Leads(MoveMany(m, s).nodes, thh, p, e)
  {
    hide Leads;
    MoveManyIs(m, s);
    LeadsSame(m.nodes, MoveMany(m, s).nodes, thh, p, e);
  }

  /** An old bucket that has nothing to do with `f`. */
  lemma PlainBucket(w: Again, m: Moving, i: nat) returns (r: Moving)
    requires Before(w, m, i) && i < |w.chains| && i != w.a && i != w.c
    ensures Ends(m, w.heads[i], r) && Before(w, r, i + 1)
  {
    hide ToBkt, Leads, NoRepeats, Ends, MoveMany, Pow2;
    FitsFacts(w);
    var s := w.chains[i];
    r := MoveMany(m, s);
    MoveManyIs(m, s);
    NoPathEnds(r);
    PathEnds(m, w.heads[i], s, None, r);
    var moved := w.a < i || w.c < i;
    forall j: nat | i < j < |w.chains|
      ensures Leads(r.nodes, w.heads[j], PathNow(w, j, moved).0, PathNow(w, j, moved).1)
    {
      PathStays(m, s, w.heads[j], PathNow(w, j, moved).0, PathNow(w, j, moved).1);
    }
    if !moved {
      forall z | z in s ensures ToBkt(m.nodes[z].hashv, |m.heads|) != NewBkt(w) {
        OtherNewBkt(w, z, i);
      }
    }
  }

  /** Once `f` is moved into an empty chain its `hh_next` is null, and stays so. */
  lemma {:induction false} MovedFirst(m: Moving, pre: seq<nat>, f: nat, post: seq<nat>, k: nat)
    requires m.heads != [] && (forall z | z in pre + [f] + post :: z < |m.nodes|) && f < |m.nodes|
    requires f !in pre && f !in post && k == ToBkt(m.nodes[f].hashv, |m.heads|) && m.heads[k] == None
    requires forall z | z in pre && z < |m.nodes| :: ToBkt(m.nodes[z].hashv, |m.heads|) != k
    ensures MoveMany(m, pre + [f] + post).nodes[f].hhNext == None
    decreases |pre|
  {
    hide ToBkt;
    var s := pre + [f] + post;
    assert (forall z | z in pre :: z in s) && forall z | z in post :: z in s;
    if pre == [] {
      assert s == [f] + post && s[1..] == post;
      MoveManyIs(Move(m, f), post);
    } else {
      assert s[1..] == pre[1..] + [f] + post && s[0] == pre[0];
      assert pre[0] in pre && forall z | z in pre[1..] :: z in pre;
      assert forall z | z in s[1..] :: z in s;
      MovedFirst(Move(m, pre[0]), pre[1..], f, post, k);
    }
  }

  /** The first of the two buckets that lead to `f`. */
  lemma FirstVisit(w: Again, m: Moving, i: nat) returns (r: Moving)
    requires Before(w, m, i) && i < |w.chains| && w.a != w.c && i <= w.a && i <= w.c && (i == w.a || i == w.c)
    ensures Ends(m, w.heads[i], r) && Before(w, r, i + 1)
  {
    hide ToBkt, Leads, NoRepeats, Ends, Stands, MoveMany, Pow2;
    FitsFacts(w);
    var pre := if i == w.a then w.x else [];
    var s := pre + [w.f] + w.chains[w.c];
    assert s == PathNow(w, i, false).0;
    r := MoveMany(m, s);
    MoveManyIs(m, s);
    NoPathEnds(r);
    PathEnds(m, w.heads[i], s, None, r);
    forall z | z in pre ensures ToBkt(m.nodes[z].hashv, |m.heads|) != NewBkt(w) {
      OtherNewBkt(w, z, w.a);
    }
    MovedFirst(m, pre, w.f, w.chains[w.c], NewBkt(w));
    forall j: nat | i < j < |w.chains|
      ensures Leads(r.nodes, w.heads[j], PathNow(w, j, true).0, PathNow(w, j, true).1)
    {
      if j == w.c {
        HeadIsF(w, m, i, j);
        ToNull(r.nodes, w.f);
      } else if j == w.a {
        UpToF(w, m, j);
        PathStays(m, s, w.heads[j], w.x, Some(w.f));
        ToNull(r.nodes, w.f);
        LeadsJoin(r.nodes, w.heads[j], w.x, Some(w.f), [w.f], None);
      } else {
        PathStays(m, s, w.heads[j], w.chains[j], None);
      }
    }
  }

  lemma ToNull(nodes: seq<Node>, f: nat)
    requires f < |nodes| && nodes[f].hhNext == None
    ensures Leads(nodes, Some(f), [f], None)
  {
    assert Leads(nodes, None, [f][1..], None);
  }

  lemma HeadIsF(w: Again, m: Moving, i: nat, j: nat)
    requires Before(w, m, i) && i <= w.a && i <= w.c && w.a != w.c && j == w.c
    ensures w.heads[j] == Some(w.f)
  {
    hide ToBkt, NoRepeats;
  }

  lemma UpToF(w: Again, m: Moving, j: nat)
    requires Fits(w) && w.a != w.c && j == w.a && Leads(m.nodes, w.heads[j], w.x + [w.f] + w.chains[w.c], None)
    ensures Leads(m.nodes, w.heads[j], w.x, Some(w.f))
  {
    hide ToBkt, NoRepeats;
    FirstPart(m.nodes, w.heads[j], w.x, w.f, w.chains[w.c]);
  }

  /** The second one, whose path ends at `f` by now. */
  lemma SecondVisit(w: Again, m: Moving, i: nat) returns (r: Moving)
    requires Before(w, m, i) && i < |w.chains| && (w.a < i == w.c || w.c < i == w.a)
    ensures Ends(m, w.heads[i], r) && Before(w, r, i + 1)
  {
    hide ToBkt, Leads, NoRepeats, Ends, Stands, MoveMany, Pow2;
    FitsFacts(w);
    var s := PathNow(w, i, true).0;
    assert NoRepeats([w.f]) by {
      OneAlone(w.f);
    }
    r := MoveMany(m, s);
    MoveManyIs(m, s);
    NoPathEnds(r);
    PathEnds(m, w.heads[i], s, None, r);
    forall j: nat | i < j < |w.chains|
      ensures Leads(r.nodes, w.heads[j], PathNow(w, j, true).0, PathNow(w, j, true).1)
    {
      PathStays(m, s, w.heads[j], w.chains[j], None);
    }
  }

  lemma OneAlone(f: nat)
    ensures NoRepeats([f])
  {
  }

  /** The bucket that the old and the new key share: its path comes back to `f` once. */
  lemma SharedBucket(w: Again, m: Moving, i: nat) returns (r: Moving)
    requires Before(w, m, i) && i < |w.chains| && i == w.a == w.c
    ensures Ends(m, w.heads[i], r) && Before(w, r, i + 1)
  {
    hide ToBkt, Leads, NoRepeats, Ends, Stands, MoveMany, Pow2;
    FitsFacts(w);
    var s := [w.f] + w.x;
    var once := MoveMany(m, s);
    MoveManyIs(m, s);
    assert s == [] + [w.f] + w.x;
    MovedFirst(m, [], w.f, w.x, NewBkt(w));
    ToNull(once.nodes, w.f);
    OneAlone(w.f);
    r := MoveMany(once, [w.f]);
    MoveManyIs(once, [w.f]);
    NoPathEnds(r);
    PathEnds(once, Some(w.f), [w.f], None, r);
    PathEnds(m, w.heads[i], s, Some(w.f), r);
    forall j: nat | i < j < |w.chains|
      ensures Leads(r.nodes, w.heads[j], PathNow(w, j, true).0, PathNow(w, j, true).1)
    {
      PathStays(m, s, w.heads[j], w.chains[j], None);
      PathStays(once, [w.f], w.heads[j], w.chains[j], None);
    }
  }

  /** The loop over the old buckets ends from turn `i` on. */
  ghost predicate EndsFrom(m: Moving, heads: seq<Option<nat>>, i: nat, r: Moving)
    requires m.heads != [] && i <= |heads|
    decreases |heads| - i
  {
    if i == |heads| then m == r
    else exists m1: Moving :: m1.heads != [] && Ends(m, heads[i], m1) && EndsFrom(m1, heads, i + 1, r)
  }

  lemma {:induction false} RestEnds(w: Again, m: Moving, i: nat) returns (r: Moving)
    requires Before(w, m, i)
    ensures |w.heads| == |w.chains| && m.heads != [] && EndsFrom(m, w.heads, i, r)
    decreases |w.chains| - i
  {
    hide Ends, Leads, ToBkt, NoRepeats;
    if i == |w.chains| {
      r := m;
    } else {
      var m1;
      if i != w.a && i != w.c {
        m1 := PlainBucket(w, m, i);
      } else if w.a == w.c {
        m1 := SharedBucket(w, m, i);
      } else if i <= w.a && i <= w.c {
        m1 := FirstVisit(w, m, i);
      } else {
        m1 := SecondVisit(w, m, i);
      }
      r := RestEnds(w, m1, i + 1);
    }
  }

  function NewHeads(n: nat): seq<Option<nat>> {
    seq(n, _ => None)
  }

  /**
   * If the addition makes the buckets double, both loops end although the frame stands in two
   * chains, or in one that leads back to it: `HASH_ADD` returns.
   */
  lemma AdditionReturns(t: Links, hash: nat -> nat, list: seq<nat>, chains: seq<seq<nat>>, lg: nat,
                        f: nat, key: nat, x: seq<nat>, y: seq<nat>)
    requires Sound(t, hash, list, chains) && f in list && t.tail.Some? && t.tail.value < |t.nodes|
    requires f < |t.nodes| && |chains| == |t.hhHeads| == Pow2(lg)
    requires Stands(chains[ToBkt(t.nodes[f].hashv, |chains|)], x, f, y)
    ensures var u := AddAgain(t, f, key, hash(key));
            exists r: Moving :: EndsFrom(Moving(u.nodes, NewHeads(2 * |chains|)), u.hhHeads, 0, r)
  {
    hide ToBkt, Leads, NoRepeats, EndsFrom, AddAgain, Stands;
    var a, c := ToBkt(t.nodes[f].hashv, |chains|), ToBkt(hash(key), |chains|);
    var u := AddAgain(t, f, key, hash(key));
    AgainIs(t, f, key, hash(key));
    var w := Again(u.nodes, u.hhHeads, chains, lg, f, x, y, a, c);
    forall j: nat | j < |chains|
      ensures Leads(u.nodes, u.hhHeads[j], PathOf(chains, f, x, a, c, j).0, PathOf(chains, f, x, a, c, j).1)
    {
      ChainsAfter(t, hash, list, chains, f, key, x, y, j);
    }
    forall b, z {:trigger z in w.chains[b]} | 0 <= b < |w.chains| && z in w.chains[b]
      ensures z < |w.nodes| && b == if z == w.f then w.a else ToBkt(w.nodes[z].hashv, |w.chains|)
    {
      SoundFacts(t, hash, list, chains, f, b);
    }
    var r := RestEnds(w, Moving(u.nodes, NewHeads(2 * |chains|)), 0);
  }

  // ----- a second frame -----

  /**
   * The new chain `k` while its first handle `f` is its last one: `kept` are the handles moved into
   * it, and each of them but `f` leads to another.
   */
  ghost predicate Growing(m: Moving, kept: set<nat>, f: nat, k: nat) {
    && k < |m.heads| && f in kept && m.heads[k].Some? && m.heads[k].value in kept
    && (forall z | z in kept :: z < |m.nodes| && ToBkt(m.nodes[z].hashv, |m.heads|) == k)
    && (forall z | z in kept && z != f :: m.nodes[z].hhNext.Some? && m.nodes[z].hhNext.value in kept)
  }

  /** No handle of the new chain leads out of it. */
  ghost predicate Closed(m: Moving, kept: set<nat>, k: nat) {
    && k < |m.heads| && m.heads[k].Some? && m.heads[k].value in kept
    && (forall z | z in kept :: z < |m.nodes| && ToBkt(m.nodes[z].hashv, |m.heads|) == k)
    && (forall z | z in kept :: m.nodes[z].hhNext.Some? && m.nodes[z].hhNext.value in kept)
  }

  lemma ClosedStep(m: Moving, kept: set<nat>, k: nat, x: nat)
    requires Closed(m, kept, k) && x in kept
    ensures m.heads != [] && x < |m.nodes| && m.nodes[x].hhNext.Some? && m.nodes[x].hhNext.value in kept
    ensures Closed(Move(m, x), kept, k)
  {
    hide ToBkt, PutInFront;
  }

  /** In a closed chain the inner loop goes on for ever. */
  lemma {:induction false} ClosedNeverEnds(m: Moving, kept: set<nat>, k: nat, thh: nat, turns: nat)
    requires Closed(m, kept, k) && thh in kept
    ensures m.heads != [] && Walk(m, Some(thh), turns) == None
    decreases turns
  {
    hide Closed, Move;
    ClosedStep(m, kept, k, thh);
    if turns > 0 {
      ClosedNeverEnds(Move(m, thh), kept, k, m.nodes[thh].hhNext.value, turns - 1);
    }
  }

  /** Moves into other chains leave it closed. */
  lemma ClosedStays(m: Moving, kept: set<nat>, k: nat, s: seq<nat>)
    requires Closed(m, kept, k) && (forall x | x in s :: x < |m.nodes| && x !in kept)
    requires forall x | x in s && x < |m.nodes| :: ToBkt(m.nodes[x].hashv, |m.heads|) != k
    ensures Closed(MoveMany(m, s), kept, k)
  {
    hide ToBkt;
    MoveManyIs(m, s);
  }

  function Kept(m: Moving, kept: set<nat>, k: nat, x: nat): set<nat>
    requires x < |m.nodes| && m.heads != []
  {
    if ToBkt(m.nodes[x].hashv, |m.heads|) == k then kept + {x} else kept
  }

  lemma GrowStep(m: Moving, kept: set<nat>, f: nat, k: nat, x: nat)
    requires Growing(m, kept, f, k) && x !in kept && x < |m.nodes|
    ensures m.heads != [] && Growing(Move(m, x), Kept(m, kept, k, x), f, k)
  {
    hide ToBkt, PutInFront;
  }

  /** Handles that are not in the chain yet come in front, if they belong there. */
  lemma {:induction false} GrowsOn(m: Moving, kept: set<nat>, f: nat, k: nat, s: seq<nat>) returns (more: set<nat>)
    requires Growing(m, kept, f, k) && NoRepeats(s) && (forall x | x in s :: x < |m.nodes| && x !in kept)
    ensures Growing(MoveMany(m, s), more, f, k) && kept <= more
    ensures forall x | x in more :: x in kept || x in s
    ensures forall x | x in s && x < |m.nodes| && ToBkt(m.nodes[x].hashv, |m.heads|) == k :: x in more
    decreases |s|
  {
    hide ToBkt, PutInFront, NoRepeats;
    if s == [] {
      more := kept;
    } else {
      assert s == [s[0]] + s[1..] && s[0] in s;
      InFront(s[0], s[1..]);
      GrowStep(m, kept, f, k, s[0]);
      more := GrowsOn(Move(m, s[0]), Kept(m, kept, k, s[0]), f, k, s[1..]);
    }
  }

  /** Moving `f` once more leads its end back into the chain. */
  lemma Closes(m: Moving, kept: set<nat>, f: nat, k: nat)
    requires Growing(m, kept, f, k)
    ensures Closed(Move(m, f), kept, k)
  {
    hide ToBkt;
  }

  lemma {:induction false} MoveBoth(m: Moving, a: seq<nat>, b: seq<nat>)
    requires m.heads != [] && (forall z | z in a + b :: z < |m.nodes|)
    ensures (forall z | z in a :: z < |m.nodes|) && forall z | z in b :: z < |m.nodes|
    ensures MoveMany(m, a + b) == MoveMany(MoveMany(m, a), b)
    decreases |a|
  {
    hide Move;
    assert (forall z | z in a :: z in a + b) && forall z | z in b :: z in a + b;
    if a == [] {
      assert a + b == b;
    } else {
      assert (a + b)[1..] == a[1..] + b && a[0] in a + b && forall z | z in a[1..] + b :: z in a + b;
      MoveBoth(Move(m, a[0]), a[1..], b);
    }
  }

  lemma MoveOne(m: Moving, x: nat)
    requires m.heads != [] && x < |m.nodes|
    ensures MoveMany(m, [x]) == Move(m, x)
  {
    hide Move;
    assert [x][0] == x && [x][1..] == [];
  }

  /**
   * The table after two additions: `f` stood in chain `a` behind `x` and `g` in chain `d` behind
   * `x'`, and both now head chain `c`, `g` before `f`. After a doubling they share a chain again.
   */
  datatype Twice = Twice(
    nodes: seq<Node>, heads: seq<Option<nat>>, chains: seq<seq<nat>>, lg: nat,
    f: nat, x: seq<nat>, y: seq<nat>, a: nat, g: nat, x': seq<nat>, y': seq<nat>, d: nat, c: nat)

  ghost predicate FitsTwice(v: Twice) {
    && |v.chains| == |v.heads| == Pow2(v.lg) && v.a < v.d < v.c < |v.chains|
    && v.f < |v.nodes| && v.g < |v.nodes| && v.f != v.g && v.heads[v.c] == Some(v.g)
    && Stands(v.chains[v.a], v.x, v.f, v.y) && Stands(v.chains[v.d], v.x', v.g, v.y')
    && ToBkt(v.nodes[v.f].hashv, |v.chains|) == v.c
    && ToBkt(v.nodes[v.g].hashv, 2 * |v.chains|) == ToBkt(v.nodes[v.f].hashv, 2 * |v.chains|)
    && (forall b | 0 <= b < |v.chains| :: NoRepeats(v.chains[b]))
    && (forall b, z {:trigger z in v.chains[b]} | 0 <= b < |v.chains| && z in v.chains[b] ::
          && z < |v.nodes|
          && b == if z == v.f then v.a else if z == v.g then v.d else ToBkt(v.nodes[z].hashv, |v.chains|))
  }

  ghost function TwiceBkt(v: Twice): nat
    requires FitsTwice(v)
  {
    ToBkt(v.nodes[v.f].hashv, 2 * |v.chains|)
  }

  /** The path that is left in old bucket `j` before turn `i`. */
  ghost function PathTwice(v: Twice, j: nat, i: nat): seq<nat>
    requires FitsTwice(v) && j < |v.chains|
  {
    if j == v.a then v.x + [v.f] + v.chains[v.c]
    else if j == v.d then v.x' + [v.g, v.f] + (if i <= v.a then v.chains[v.c] else [])
    else if j == v.c then [v.g, v.f] + (if i <= v.a then v.chains[v.c] else [])
    else v.chains[j]
  }

  /** The loop of the old buckets before turn `i`; `kept` is in the new chain of `f` and `g`. */
  ghost predicate BeforeTwice(v: Twice, m: Moving, i: nat, kept: set<nat>) {
    && FitsTwice(v) && |m.nodes| == |v.nodes| && |m.heads| == 2 * |v.chains| && i <= v.c
    && (forall z | 0 <= z < |m.nodes| :: m.nodes[z].hashv == v.nodes[z].hashv)
    && (forall j: nat | i <= j < |v.chains| && (j == v.c ==> i <= v.d) ::
          Leads(m.nodes, v.heads[j], PathTwice(v, j, i), None))
    && (i <= v.a ==> m.heads[TwiceBkt(v)] == None)
    && (v.a < i ==> forall z | z in kept :: z in v.chains[v.c] || z == v.f || (z == v.g && v.d < i))
    && (v.a < i <= v.d ==> Growing(m, kept, v.f, TwiceBkt(v)))
    && (v.d < i ==> Closed(m, kept, TwiceBkt(v)) && v.g in kept)
  }

  lemma TwiceFacts(v: Twice)
    requires FitsTwice(v)
    ensures v.f !in v.chains[v.c] && v.g !in v.chains[v.c] && NoRepeats(v.x) && NoRepeats(v.x')
    ensures NoRepeats(v.x + [v.f] + v.chains[v.c]) && NoRepeats(v.x' + [v.g, v.f])
    ensures forall z | z in v.x :: z in v.chains[v.a] && z != v.f && z != v.g
    ensures forall z | z in v.x' :: z in v.chains[v.d] && z != v.f && z != v.g
    ensures forall i, j | 0 <= i < |v.chains| && 0 <= j < |v.chains| && i != j ::
              forall z | z in v.chains[i] :: z !in v.chains[j]
  {
    hide ToBkt, Pow2;
    PartsDiffer(v.x, v.f, v.y);
    PartsDiffer(v.x', v.g, v.y');
    assert v.f in v.chains[v.a] && v.g in v.chains[v.d];
    Joined(v.x + [v.f], v.chains[v.c]);
    OneAlone(v.f);
    Joined(v.x' + [v.g], [v.f]);
    assert v.x' + [v.g, v.f] == v.x' + [v.g] + [v.f];
  }

  lemma PartsDiffer(x: seq<nat>, f: nat, y: seq<nat>)
    requires NoRepeats(x + [f] + y)
    ensures NoRepeats(x) && NoRepeats(x + [f])
    ensures forall z | z in x :: z != f && z in x + [f] + y
  {
    FrontDiffers(x, f, y);
    var s, r := x + [f] + y, x + [f];
    assert forall i | 0 <= i < |r| :: s[i] == r[i];
    assert forall i | 0 <= i < |x| :: s[i] == x[i];
  }

  /** Handles of the other old buckets do not go to that new chain. */
  lemma ElsewhereTwice(v: Twice, z: nat, j: nat)
    requires FitsTwice(v) && j < |v.chains| && z in v.chains[j] && z != v.f && z != v.g && j != v.c
    ensures z < |v.nodes| && ToBkt(v.nodes[z].hashv, 2 * |v.chains|) != TwiceBkt(v)
  {
    hide ToBkt, Pow2, NoRepeats;
    DoubledBkt(v.nodes[z].hashv, v.lg);
    DoubledBkt(v.nodes[v.f].hashv, v.lg);
  }

  /** An old bucket that has nothing to do with the two. */
  lemma PlainTwice(v: Twice, m: Moving, i: nat, kept: set<nat>) returns (r: Moving, kept': set<nat>)
    requires BeforeTwice(v, m, i, kept) && i < v.c && i != v.a && i != v.d
    ensures m.heads != [] && Ends(m, v.heads[i], r) && BeforeTwice(v, r, i + 1, kept')
  {
    hide ToBkt, Leads, NoRepeats, Ends, Stands, Growing, Closed, MoveMany, Pow2;
    TwiceFacts(v);
    var s, k := v.chains[i], TwiceBkt(v);
    r, kept' := MoveMany(m, s), kept;
    MoveManyIs(m, s);
    NoPathEnds(r);
    PathEnds(m, v.heads[i], s, None, r);
    forall z | z in s ensures ToBkt(m.nodes[z].hashv, |m.heads|) != k {
      ElsewhereTwice(v, z, i);
    }
    forall j: nat | i < j < |v.chains| && (j == v.c ==> i < v.d)
      ensures Leads(r.nodes, v.heads[j], PathTwice(v, j, i + 1), None)
    {
      PathStays(m, s, v.heads[j], PathTwice(v, j, i), None);
    }
    if v.d < i {
      ClosedStays(m, kept, k, s);
    } else if v.a < i {
      GrowingStays(m, kept, v.f, k, s);
    }
  }

  lemma GrowingStays(m: Moving, kept: set<nat>, f: nat, k: nat, s: seq<nat>)
    requires Growing(m, kept, f, k) && (forall x | x in s :: x < |m.nodes| && x !in kept)
    requires forall x | x in s && x < |m.nodes| :: ToBkt(m.nodes[x].hashv, |m.heads|) != k
    ensures Growing(MoveMany(m, s), kept, f, k)
  {
    hide ToBkt;
    MoveManyIs(m, s);
  }

  /** The first of the three: `f` becomes the last handle of the new chain. */
  lemma VisitF(v: Twice, m: Moving, kept: set<nat>) returns (r: Moving, kept': set<nat>)
    requires BeforeTwice(v, m, v.a, kept)
    ensures m.heads != [] && Ends(m, v.heads[v.a], r) && BeforeTwice(v, r, v.a + 1, kept')
  {
    hide ToBkt, Leads, NoRepeats, Ends, Stands, Growing, Closed, MoveMany, Pow2;
    TwiceFacts(v);
    var rest, k := v.chains[v.c], TwiceBkt(v);
    var s := v.x + [v.f] + rest;
    r := MoveMany(m, s);
    MoveManyIs(m, s);
    NoPathEnds(r);
    PathEnds(m, v.heads[v.a], s, None, r);
    forall z | z in v.x ensures ToBkt(m.nodes[z].hashv, |m.heads|) != k {
      ElsewhereTwice(v, z, v.a);
    }
    kept' := ChainGrows(m, v.x, v.f, rest, k);
    MovedFirst(m, v.x, v.f, rest, k);
    forall j: nat | v.a < j < |v.chains|
      ensures Leads(r.nodes, v.heads[j], PathTwice(v, j, v.a + 1), None)
    {
      LeadsAfterF(v, m, r, kept, s, j);
    }
  }

  /** A path through `f` ends there once `f` leads nowhere. */
  lemma EndsAtF(m: Moving, s: seq<nat>, thh: Option<nat>, pre: seq<nat>, f: nat, rest: seq<nat>)
    requires m.heads != [] && (forall z | z in s :: z < |m.nodes|) && Leads(m.nodes, thh, pre + [f] + rest, None)
    requires (forall z | z in pre :: z !in s) && f < |m.nodes| && MoveMany(m, s).nodes[f].hhNext == None
    ensures Leads(MoveMany(m, s).nodes, thh, pre + [f], None)
  {
    hide Leads, MoveMany;
    FirstPart(m.nodes, thh, pre, f, rest);
    PathStays(m, s, thh, pre, Some(f));
    ToNull(MoveMany(m, s).nodes, f);
    LeadsJoin(MoveMany(m, s).nodes, thh, pre, Some(f), [f], None);
  }

  lemma LeadsAfterF(v: Twice, m: Moving, r: Moving, kept: set<nat>, s: seq<nat>, j: nat)
    requires BeforeTwice(v, m, v.a, kept) && v.a < j < |v.chains| && s == v.x + [v.f] + v.chains[v.c]
    requires (forall z | z in s :: z < |m.nodes|) && m.heads != [] && r == MoveMany(m, s)
    requires v.f < |r.nodes| && r.nodes[v.f].hhNext == None
    ensures Leads(r.nodes, v.heads[j], PathTwice(v, j, v.a + 1), None)
  {
    hide ToBkt, Leads, NoRepeats, Stands, Growing, Closed, MoveMany, Pow2;
    TwiceFacts(v);
    var rest := v.chains[v.c];
    if j == v.d {
      assert v.x' + [v.g, v.f] + rest == v.x' + [v.g] + [v.f] + rest && v.x' + [v.g, v.f] == v.x' + [v.g] + [v.f];
      EndsAtF(m, s, v.heads[j], v.x' + [v.g], v.f, rest);
      assert PathTwice(v, j, v.a + 1) == v.x' + [v.g] + [v.f];
    } else if j == v.c {
      assert [v.g, v.f] + rest == [v.g] + [v.f] + rest && [v.g, v.f] == [v.g] + [v.f];
      EndsAtF(m, s, v.heads[j], [v.g], v.f, rest);
      assert PathTwice(v, j, v.a + 1) == [v.g] + [v.f];
    } else {
      PathStays(m, s, v.heads[j], v.chains[j], None);
    }
  }

  lemma ChainGrows(m: Moving, x: seq<nat>, f: nat, rest: seq<nat>, k: nat) returns (kept: set<nat>)
    requires m.heads != [] && (forall z | z in x + [f] + rest :: z < |m.nodes|) && NoRepeats(rest)
    requires f < |m.nodes| && f !in rest && k == ToBkt(m.nodes[f].hashv, |m.heads|) && m.heads[k] == None
    requires forall z | z in x && z < |m.nodes| :: ToBkt(m.nodes[z].hashv, |m.heads|) != k
    ensures Growing(MoveMany(m, x + [f] + rest), kept, f, k) && forall z | z in kept :: z == f || z in rest
  {
    hide ToBkt, NoRepeats;
    MoveBoth(m, x + [f], rest);
    MoveBoth(m, x, [f]);
    MoveManyIs(m, x);
    var first := MoveMany(m, x);
    MoveOne(first, f);
    assert Growing(Move(first, f), {f}, f, k);
    kept := GrowsOn(Move(first, f), {f}, f, k, rest);
  }

  /** The second of the three: `g` comes in front, and then `f` again. */
  lemma VisitG(v: Twice, m: Moving, kept: set<nat>) returns (r: Moving, kept': set<nat>)
    requires BeforeTwice(v, m, v.d, kept)
    ensures m.heads != [] && Ends(m, v.heads[v.d], r) && BeforeTwice(v, r, v.d + 1, kept')
  {
    hide ToBkt, Leads, NoRepeats, Ends, Stands, Growing, Closed, MoveMany, Pow2;
    TwiceFacts(v);
    var s, k := v.x' + [v.g, v.f], TwiceBkt(v);
    assert s == PathTwice(v, v.d, v.d);
    r := MoveMany(m, s);
    MoveManyIs(m, s);
    NoPathEnds(r);
    PathEnds(m, v.heads[v.d], s, None, r);
    forall z | z in v.x' ensures ToBkt(m.nodes[z].hashv, |m.heads|) != k {
      ElsewhereTwice(v, z, v.d);
    }
    kept' := kept + {v.g};
    ChainCloses(m, kept, v.x', v.f, v.g, k);
    forall j: nat | v.d < j < |v.chains| && j != v.c
      ensures Leads(r.nodes, v.heads[j], PathTwice(v, j, v.d + 1), None)
    {
      PathStays(m, s, v.heads[j], v.chains[j], None);
    }
  }

  lemma ChainCloses(m: Moving, kept: set<nat>, x: seq<nat>, f: nat, g: nat, k: nat)
    requires Growing(m, kept, f, k) && (forall z | z in x :: z < |m.nodes| && z !in kept)
    requires f < |m.nodes| && g < |m.nodes| && g !in kept && k == ToBkt(m.nodes[g].hashv, |m.heads|)
    requires forall z | z in x && z < |m.nodes| :: ToBkt(m.nodes[z].hashv, |m.heads|) != k
    ensures m.heads != [] && (forall z | z in x + [g, f] :: z < |m.nodes|)
    ensures Closed(MoveMany(m, x + [g, f]), kept + {g}, k)
  {
    hide ToBkt, Growing, Closed;
    GrowingStays(m, kept, f, k, x);
    MoveManyIs(m, x);
    MoveBoth(m, x, [g, f]);
    var first := MoveMany(m, x);
    GrowStep(first, kept, f, k, g);
    Closes(Move(first, g), kept + {g}, f, k);
    MoveTwo(first, g, f);
  }

  lemma MoveTwo(m: Moving, g: nat, f: nat)
    requires m.heads != [] && g < |m.nodes| && f < |m.nodes|
    ensures MoveMany(m, [g, f]) == Move(Move(m, g), f)
  {
    hide Move, MoveMany;
    assert [g, f] == [g] + [f];
    MoveBoth(m, [g], [f]);
    MoveOne(m, g);
    MoveOne(Move(m, g), f);
  }

  lemma TwiceSizes(v: Twice, m: Moving, i: nat, kept: set<nat>)
    requires BeforeTwice(v, m, i, kept)
    ensures i <= v.c < |v.heads| && v.a < v.d < v.c && m.heads != []
  {
    hide ToBkt, Leads, NoRepeats;
  }

  lemma {:induction false} UpToThird(v: Twice, m: Moving, i: nat, kept: set<nat>) returns (r: Moving, kept': set<nat>)
    requires BeforeTwice(v, m, i, kept)
    ensures v.c <= |v.heads| && m.heads != []
    ensures EndsFrom(m, v.heads[..v.c], i, r) && BeforeTwice(v, r, v.c, kept')
    decreases v.c - i
  {
    hide Ends, BeforeTwice;
    TwiceSizes(v, m, i, kept);
    if i == v.c {
      r, kept' := m, kept;
    } else {
      var m1, kept1;
      if i == v.a {
        m1, kept1 := VisitF(v, m, kept);
      } else if i == v.d {
        m1, kept1 := VisitG(v, m, kept);
      } else {
        m1, kept1 := PlainTwice(v, m, i, kept);
      }
      r, kept' := UpToThird(v, m1, i + 1, kept1);
    }
  }

  /** The inner loop never ends. */
  ghost predicate NeverEnds(m: Moving, thh: Option<nat>)
    requires m.heads != []
  {
    forall turns: nat :: Walk(m, thh, turns) == None
  }

  /** The links after the two additions. */
  lemma TwiceFits(t: Links, hash: nat -> nat, list: seq<nat>, chains: seq<seq<nat>>, lg: nat, v: Twice,
                  key: nat, key': nat)
    requires Sound(t, hash, list, chains) && v.f in list && v.g in list && t.tail.Some? && t.tail.value < |t.nodes|
    requires v.f < |t.nodes| && v.g < |t.nodes| && |chains| == |t.hhHeads| == Pow2(lg)
    requires v.a == ToBkt(t.nodes[v.f].hashv, |chains|) && v.d == ToBkt(t.nodes[v.g].hashv, |chains|)
    requires v.c == ToBkt(hash(key), |chains|) == ToBkt(hash(key'), |chains|) && v.a < v.d < v.c
    requires ToBkt(hash(key), 2 * |chains|) == ToBkt(hash(key'), 2 * |chains|)
    requires Stands(chains[v.a], v.x, v.f, v.y) && Stands(chains[v.d], v.x', v.g, v.y')
    requires v.chains == chains && v.lg == lg
    requires var u := AddAgain(t, v.f, key, hash(key));
             u.tail.Some? && u.tail.value < |u.nodes| && v.g < |u.nodes| && u.hhHeads != [] &&
             v.nodes == AddAgain(u, v.g, key', hash(key')).nodes &&
             v.heads == AddAgain(u, v.g, key', hash(key')).hhHeads
    ensures BeforeTwice(v, Moving(v.nodes, NewHeads(2 * |chains|)), 0, {})
  {
    hide ToBkt, Leads, NoRepeats, AddAgain, Stands, Sound, Growing, Closed, Pow2;
    var u := AddAgain(t, v.f, key, hash(key));
    AgainIs(t, v.f, key, hash(key));
    AgainIs(u, v.g, key', hash(key'));
    forall b | 0 <= b < |chains| ensures NoRepeats(chains[b]) {
      SoundFacts(t, hash, list, chains, v.f, b);
    }
    forall b, z {:trigger z in v.chains[b]} | 0 <= b < |v.chains| && z in v.chains[b]
      ensures z < |v.nodes|
      ensures b == if z == v.f then v.a else if z == v.g then v.d else ToBkt(v.nodes[z].hashv, |v.chains|)
    {
      SoundFacts(t, hash, list, chains, v.f, b);
      SoundFacts(t, hash, list, chains, z, b);
    }
    assert FitsTwice(v);
    TwiceFacts(v);
    forall j: nat | j < |chains| ensures Leads(v.nodes, v.heads[j], PathTwice(v, j, 0), None) {
      ChainsAfter(t, hash, list, chains, v.f, key, v.x, v.y, j);
      ChainsAfter(t, hash, list, chains, v.f, key, v.x, v.y, v.c);
      LeadsTwice(v, u.nodes, u.hhHeads, j);
    }
  }

  lemma LeadsTwice(v: Twice, nodes: seq<Node>, heads: seq<Option<nat>>, j: nat)
    requires FitsTwice(v) && |nodes| == |v.nodes| && |heads| == |v.heads| && j < |v.chains|
    requires v.heads == heads[v.c := Some(v.g)] && v.nodes[v.g].hhNext == heads[v.c]
    requires forall z | 0 <= z < |nodes| && z != v.g :: v.nodes[z].hhNext == nodes[z].hhNext
    requires Leads(nodes, heads[v.c], [v.f] + v.chains[v.c], None) && heads[v.c] == Some(v.f)
    requires Leads(nodes, heads[j], if j == v.a then v.x + [v.f] + v.chains[v.c]
                                    else if j == v.c then [v.f] + v.chains[v.c] else v.chains[j], None)
    ensures Leads(v.nodes, v.heads[j], PathTwice(v, j, 0), None)
  {
    hide ToBkt, Leads, NoRepeats, Pow2;
    TwiceFacts(v);
    var rest := [v.f] + v.chains[v.c];
    LeadsSame(nodes, v.nodes, heads[v.c], rest, None);
    LeadsFront(v.nodes, v.g, rest, None);
    if j == v.c {
      assert PathTwice(v, j, 0) == [v.g] + rest;
    } else if j == v.d {
      FirstPart(nodes, heads[j], v.x', v.g, v.y');
      LeadsSame(nodes, v.nodes, heads[j], v.x', Some(v.g));
      LeadsJoin(v.nodes, heads[j], v.x', Some(v.g), [v.g] + rest, None);
      assert PathTwice(v, j, 0) == v.x' + ([v.g] + rest);
    } else {
      LeadsSame(nodes, v.nodes, heads[j], PathTwice(v, j, 0), None);
    }
  }

  /**
   * A second frame that is hashed again need not come back: `f` and then `g`, from different old
   * chains, are added to a third one under keys that stay together in a doubled table. The search
   * before the second addition is a miss. If that addition doubles the buckets, the walks before
   * the third chain end and that of the third chain never does.
   */
  lemma SecondHangs(t: Links, hash: nat -> nat, list: seq<nat>, chains: seq<seq<nat>>, lg: nat,
                    f: nat, key: nat, x: seq<nat>, y: seq<nat>, g: nat, key': nat, x': seq<nat>, y': seq<nat>)
    requires Sound(t, hash, list, chains) && f in list && g in list && t.tail.Some? && t.tail.value < |t.nodes|
    requires f < |t.nodes| && g < |t.nodes| && |chains| == |t.hhHeads| == Pow2(lg)
    requires var a, d := ToBkt(t.nodes[f].hashv, |chains|), ToBkt(t.nodes[g].hashv, |chains|);
             a < d < ToBkt(hash(key), |chains|) && Stands(chains[a], x, f, y) && Stands(chains[d], x', g, y')
    requires ToBkt(hash(key), 2 * |chains|) == ToBkt(hash(key'), 2 * |chains|) && key != key'
    requires forall z | z in list && z < |t.nodes| :: t.nodes[z].key != key && t.nodes[z].key != key'
    ensures var c, u := ToBkt(hash(key), |chains|), AddAgain(t, f, key, hash(key));
            && c == ToBkt(hash(key'), |chains|) && |u.hhHeads| == |chains| && MissesFrom(u.nodes, u.hhHeads[c], key')
            && u.tail.Some? && u.tail.value < |u.nodes| && g < |u.nodes|
            && var w := AddAgain(u, g, key', hash(key'));
            && |w.hhHeads| == |chains|
            && exists m: Moving :: m.heads != [] && NeverEnds(m, w.hhHeads[c]) &&
                 EndsFrom(Moving(w.nodes, NewHeads(2 * |chains|)), w.hhHeads[..c], 0, m)
  {
    hide ToBkt, Leads, NoRepeats, Sound, Stands, MissesFrom, Pow2, EndsFrom, Closed, Growing, NeverEnds;
    var a, d, c := ToBkt(t.nodes[f].hashv, |chains|), ToBkt(t.nodes[g].hashv, |chains|), ToBkt(hash(key), |chains|);
    var u := AddAgain(t, f, key, hash(key));
    DoubledBkt(hash(key), lg);
    DoubledBkt(hash(key'), lg);
    AgainIs(t, f, key, hash(key));
    SearchAfter(t, hash, list, chains, f, key, x, y, key');
    assert u.tail == Some(f);
    var w := AddAgain(u, g, key', hash(key'));
    AgainIs(u, g, key', hash(key'));
    var v := Twice(w.nodes, w.hhHeads, chains, lg, f, x, y, a, g, x', y', d, c);
    hide AddAgain, BeforeTwice;
    TwiceFits(t, hash, list, chains, lg, v, key, key');
    var m, kept := UpToThird(v, Moving(w.nodes, NewHeads(2 * |chains|)), 0, {});
    ThirdNeverEnds(v, m, kept);
  }

  lemma ThirdNeverEnds(v: Twice, m: Moving, kept: set<nat>)
    requires BeforeTwice(v, m, v.c, kept)
    ensures m.heads != [] && v.c < |v.heads| && NeverEnds(m, v.heads[v.c])
  {
    hide ToBkt, Leads, NoRepeats, Closed, Stands, Pow2;
    forall turns: nat ensures Walk(m, v.heads[v.c], turns) == None {
      ClosedNeverEnds(m, kept, TwiceBkt(v), v.g, turns);
    }
  }

  // ----- an input -----

  /** Ten frames in three of the 32 buckets that a table has at first. */
  function TenHash(key: nat): nat {
    if key < 2 then key else 2
  }

  function TenNode(i: nat): Node {
    Node(i, TenHash(i), if i < 9 then Some(i + 1) else None, if i > 0 then Some(i - 1) else None,
         if 2 < i then Some(i - 1) else None, if 2 <= i < 9 then Some(i + 1) else None)
  }

  /** The handles `i` down to 2. */
  function TenDown(i: nat): (r: seq<nat>)
    ensures |r| == if i < 2 then 0 else i - 1
    ensures forall j | 0 <= j < |r| :: r[j] == i - j
  {
    if i < 2 then [] else [i] + TenDown(i - 1)
  }

  function TenChain(b: nat): seq<nat> {
    if b < 2 then [b] else if b == 2 then TenDown(9) else []
  }

  function TenChains(): seq<seq<nat>> {
    seq(HASH_INITIAL_NUM_BUCKETS, b requires 0 <= b => TenChain(b))
  }

  function TenFrames(): Links {
    Links(seq(10, i requires 0 <= i => TenNode(i)), Some(0), Some(9),
          seq(HASH_INITIAL_NUM_BUCKETS, b => if b < 2 then Some(b) else if b == 2 then Some(9) else None))
  }

  function TenList(): seq<nat> {
    seq(10, i requires 0 <= i => i)
  }

  lemma TenBkt(key: nat, n: nat)
    requires n == 32 || n == 64
    ensures ToBkt(TenHash(key), n) == TenHash(key)
  {
    assert Pow2(5) == 32 && Pow2(6) == 64;
    MaskIsRemainder(TenHash(key), if n == 32 then 5 else 6);
    hide And;
  }

  lemma InTenChain(b: nat, x: nat)
    requires b < 32
    ensures x in TenChain(b) <==> x < 10 && TenHash(x) == b
  {
    if b == 2 && 2 <= x < 10 {
      assert TenDown(9)[9 - x] == x;
    }
  }

  lemma {:induction false} TenLeadsDown(i: nat)
    requires 1 <= i < 10
    ensures Leads(TenFrames().nodes, if i < 2 then None else Some(i), TenDown(i), None)
  {
    if i >= 2 {
      TenLeadsDown(i - 1);
      assert TenDown(i)[1..] == TenDown(i - 1);
    }
  }

  lemma TenLeads(b: nat)
    requires b < 32
    ensures NoRepeats(TenChain(b)) && Leads(TenFrames().nodes, TenFrames().hhHeads[b], TenChain(b), None)
  {
    if b == 2 {
      TenLeadsDown(9);
    } else if b < 2 {
      assert [b][1..] == [];
    }
  }

  lemma TenIsSound()
    ensures Sound(TenFrames(), TenHash, TenList(), TenChains())
  {
    hide ToBkt, NoRepeats, Leads, TenChain;
    var t, chains := TenFrames(), TenChains();
    forall b | 0 <= b < 32 ensures NoRepeats(chains[b]) && Leads(t.nodes, t.hhHeads[b], chains[b], None) {
      TenLeads(b);
    }
    forall b, x | 0 <= b < 32 && x in chains[b] ensures x in TenList() && ToBkt(t.nodes[x].hashv, 32) == b {
      InTenChain(b, x);
      assert TenList()[x] == x;
      TenBkt(x, 32);
    }
    forall x | x in TenList() ensures x in chains[ToBkt(t.nodes[x].hashv, 32)] {
      TenBkt(x, 32);
      InTenChain(TenHash(x), x);
    }
  }

  lemma TenIsListed()
    ensures Listed(TenFrames(), TenList())
  {
  }

  lemma TenFacts()
    ensures var t := TenFrames();
            && |t.nodes| == 10 && |t.hhHeads| == |TenChains()| == 32 && t.tail == Some(9)
            && TenChains()[0] == [0] && TenChains()[1] == [1] && |TenChain(2)| == 8
            && (forall x | 0 <= x < 10 :: t.nodes[x].hashv == TenHash(x) && t.nodes[x].key == x)
            && 0 in TenList() && 1 in TenList()
  {
    assert TenList()[0] == 0 && TenList()[1] == 1;
  }

  /**
   * With ten frames in use, eight of them in bucket 2, the blocks 10 and 11 are read, which also
   * belong there. The second addition brings the count of that bucket to the threshold, and the
   * doubling that follows never ends.
   */
  lemma TenFramesHang()
    ensures Listed(TenFrames(), TenList()) && Sound(TenFrames(), TenHash, TenList(), TenChains())
    ensures |TenFrames().nodes| == 10 && |TenFrames().hhHeads| == 32 && TenFrames().tail == Some(9)
    ensures |TenChain(2)| + 2 == HASH_BKT_CAPACITY_THRESH
    ensures var u := AddAgain(TenFrames(), 0, 10, TenHash(10));
            && |u.hhHeads| == 32 && MissesFrom(u.nodes, u.hhHeads[2], 11) && |u.nodes| == 10 && u.tail == Some(0)
            && var w := AddAgain(u, 1, 11, TenHash(11));
            && |w.hhHeads| == 32
            && exists m: Moving :: m.heads != [] && NeverEnds(m, w.hhHeads[2]) &&
                 EndsFrom(Moving(w.nodes, NewHeads(64)), w.hhHeads[..2], 0, m)
  {
    hide ToBkt, Sound, Listed, AddAgain, MissesFrom, EndsFrom, NeverEnds, TenFrames, TenChains, TenChain, TenList;
    TenIsSound();
    TenIsListed();
    TenFacts();
    assert Pow2(5) == 32;
    TenBkt(0, 32);
    TenBkt(1, 32);
    TenBkt(10, 32);
    TenBkt(10, 64);
    TenBkt(11, 64);
    AgainIs(TenFrames(), 0, 10, TenHash(10));
    TailIs(TenFrames(), 0, 10, TenHash(10));
    assert [] + [0] + [] == [0] && [] + [1] + [] == [1];
    SecondHangs(TenFrames(), TenHash, TenList(), TenChains(), 5, 0, 10, [], [], 1, 11, [], []);
  }

  lemma TailIs(t: Links, f: nat, key: nat, hashv: nat)
    requires f < |t.nodes| && t.tail.Some? && t.tail.value < |t.nodes| && t.hhHeads != []
    ensures AddAgain(t, f, key, hashv).tail == Some(f)
  {
  }
}
