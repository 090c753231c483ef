/** The bitmaps of sofs/fs.c: one bit per block or inode, eight to a byte, and the first-fit search. */
module Bitmap {
  import opened Base

  /** `0x1 << k`. */
  function Mask(k: nat): byte
    requires k < 8
  {
    match k
    case 0 => 0x01
    case 1 => 0x02
    case 2 => 0x04
    case 3 => 0x08
    case 4 => 0x10
    case 5 => 0x20
    case 6 => 0x40
    case _ => 0x80
  }

  predicate BitOn(b: byte, k: nat)
    requires k < 8
  {
    b & Mask(k) != 0
  }

  function OrBit(b: byte, k: nat): byte
    requires k < 8
  {
    b | Mask(k)
  }

  function AndNotBit(b: byte, k: nat): byte
    requires k < 8
  {
    b & !Mask(k)
  }

  predicate IsSet(bmap: seq<byte>, num: nat)
    requires num < 8 * |bmap|
  {
    BitOn(bmap[num / 8], num % 8)
  }

  function SetBit(bmap: seq<byte>, num: nat): (r: seq<byte>)
    requires num < 8 * |bmap|
    ensures |r| == |bmap|
  {
    bmap[num / 8 := OrBit(bmap[num / 8], num % 8)]
  }

  function ClearBit(bmap: seq<byte>, num: nat): (r: seq<byte>)
    requires num < 8 * |bmap|
    ensures |r| == |bmap|
  {
    bmap[num / 8 := AndNotBit(bmap[num / 8], num % 8)]
  }

  lemma MaskBits(b: byte, j: nat, k: nat)
    requires j < 8 && k < 8
    ensures BitOn(OrBit(b, j), k) <==> j == k || BitOn(b, k)
    ensures BitOn(AndNotBit(b, j), k) <==> j != k && BitOn(b, k)
  {
    DisjointMasks(b, Mask(j), Mask(k));
  }

  lemma DisjointMasks(b: byte, m: byte, n: byte)
    requires m == n || m & n == 0
    requires m != 0 && n != 0
    ensures m == n ==> (b | m) & n != 0 && (b & !m) & n == 0
    ensures m != n ==> ((b | m) & n == b & n) && (b & !m) & n == b & n
  {
    if m != n {
      assert (b | m) & n == (b & n) | (m & n);
      assert (b & !m) & n == b & (n & !m);
      assert n & !m == n;
    }
  }

  /** Two bits of one byte after a change of that byte. */
  lemma BitOfSet(bmap: seq<byte>, num: nat, m: nat)
    requires num < 8 * |bmap| && m < 8 * |bmap|
    ensures IsSet(SetBit(bmap, num), m) <==> m == num || IsSet(bmap, m)
    ensures IsSet(ClearBit(bmap, num), m) <==> m != num && IsSet(bmap, m)
  {
    hide BitOn, OrBit, AndNotBit;
    var i, j, k, l := num / 8, m / 8, num % 8, m % 8;
    assert num == 8 * i + k && m == 8 * j + l;
    if i == j {
      MaskBits(bmap[i], k, l);
    }
  }

  /** Setting a bit sets that bit only. */
  lemma SetBitSets(bmap: seq<byte>, num: nat)
    requires num < 8 * |bmap|
    ensures forall m | 0 <= m < 8 * |bmap| :: IsSet(SetBit(bmap, num), m) <==> m == num || IsSet(bmap, m)
  {
    forall m | 0 <= m < 8 * |bmap|
      ensures IsSet(SetBit(bmap, num), m) <==> m == num || IsSet(bmap, m)
    {
      BitOfSet(bmap, num, m);
    }
  }

  /** Setting a bit again changes nothing. */
  lemma SetAgain(bmap: seq<byte>, num: nat)
    requires num < 8 * |bmap| && IsSet(bmap, num)
    ensures SetBit(bmap, num) == bmap
  {
    OrAgain(bmap[num / 8], num % 8);
  }

  lemma OrAgain(b: byte, k: nat)
    requires k < 8 && BitOn(b, k)
    ensures OrBit(b, k) == b
  {
  }

  /** Clearing a bit clears that bit only. */
  lemma ClearBitClears(bmap: seq<byte>, num: nat)
    requires num < 8 * |bmap|
    ensures forall m | 0 <= m < 8 * |bmap| :: IsSet(ClearBit(bmap, num), m) <==> m != num && IsSet(bmap, m)
  {
    forall m | 0 <= m < 8 * |bmap|
      ensures IsSet(ClearBit(bmap, num), m) <==> m != num && IsSet(bmap, m)
    {
      BitOfSet(bmap, num, m);
    }
  }

  /** The first clear bit from `i` on, below `size`. */
  function FirstFree(bmap: seq<byte>, i: nat, size: nat): (r: Option<nat>)
    requires size <= 8 * |bmap|
    ensures r.Some? ==> i <= r.value < size && !IsSet(bmap, r.value)
    ensures r.Some? ==> forall j | i <= j < r.value :: IsSet(bmap, j)
    ensures r.None? ==> forall j | i <= j < size :: IsSet(bmap, j)
    decreases size - i
  {
    if i >= size then None
    else if !IsSet(bmap, i) then Some(i)
    else FirstFree(bmap, i + 1, size)
  }

  /** `fsi_bmap_find_free`. */
  method FindFree(bmap: seq<byte>, size: nat) returns (free: Option<nat>)
    requires size <= 8 * |bmap|
    ensures free == FirstFree(bmap, 0, size)
  {
    for i := 0 to size
      invariant FirstFree(bmap, 0, size) == FirstFree(bmap, i, size)
    {
      if !IsSet(bmap, i) {
        return Some(i);
      }
    }
    free := None;
  }

  /** How many of the first `n` bits are set. */
  function CountSet(bmap: seq<byte>, n: nat): nat
    requires n <= 8 * |bmap|
  {
    if n == 0 then 0 else CountSet(bmap, n - 1) + (if IsSet(bmap, n - 1) then 1 else 0)
  }

  lemma {:induction false} CountChanges(bmap: seq<byte>, bmap': seq<byte>, b: nat, n: nat)
    requires n <= 8 * |bmap| && n <= 8 * |bmap'|
    requires forall m | 0 <= m < n && m != b :: IsSet(bmap, m) == IsSet(bmap', m)
    requires b < n ==> !IsSet(bmap, b) && IsSet(bmap', b)
    ensures CountSet(bmap', n) == CountSet(bmap, n) + (if b < n then 1 else 0)
  {
    if n > 0 {
      CountChanges(bmap, bmap', b, n - 1);
    }
  }

  lemma {:induction false} CountAll(bmap: seq<byte>, n: nat)
    requires n <= 8 * |bmap|
    ensures CountSet(bmap, n) <= n
    ensures CountSet(bmap, n) == n <==> forall m | 0 <= m < n :: IsSet(bmap, m)
  {
    if n > 0 {
      CountAll(bmap, n - 1);
    }
  }
}
