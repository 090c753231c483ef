/** How sofs/fs.c lays out inodes and directory entries in blocks. */
module Codec {
  import opened Base
  import opened Bitmap

  const BLOCK_SIZE := 512
  const INODE_NUM_BLKS := 10
  const ITAB_NUM_BLKS := 8
  const ITAB_SIZE := 64
  const INODE_WORDS := 16
  const DENTRY_SIZE := 16
  const DIR_PAGE_ENTRIES := 32
  const FS_MAX_FNAME_SZ := 14

  /** Types of inode; an inode that was never used has type 0. */
  const FS_DIR := 1
  const FS_FILE := 2

  const WORD_LIMIT := 0x1_0000_0000

  datatype Inode = Inode(itype: nat, size: nat, blocks: seq<nat>, reserved: seq<nat>)

  /** `fsi_inode_init`. */
  function InodeInit(itype: nat): Inode {
    Inode(itype, 0, seq(INODE_NUM_BLKS, _ => 0), seq(4, _ => 0))
  }

  predicate InodeFits(i: Inode) {
    && i.itype < WORD_LIMIT && i.size < WORD_LIMIT
    && |i.blocks| == INODE_NUM_BLKS && |i.reserved| == 4
    && (forall k | 0 <= k < INODE_NUM_BLKS :: i.blocks[k] < WORD_LIMIT)
    && (forall k | 0 <= k < 4 :: i.reserved[k] < WORD_LIMIT)
  }

  /** The byte with the given bits, lowest first. */
  function Pack(b0: bool, b1: bool, b2: bool, b3: bool, b4: bool, b5: bool, b6: bool, b7: bool): byte {
    (if b0 then 0x01 else 0) | (if b1 then 0x02 else 0) | (if b2 then 0x04 else 0) | (if b3 then 0x08 else 0) |
    (if b4 then 0x10 else 0) | (if b5 then 0x20 else 0) | (if b6 then 0x40 else 0) | (if b7 then 0x80 else 0)
  }

  lemma PackedBits(b0: bool, b1: bool, b2: bool, b3: bool, b4: bool, b5: bool, b6: bool, b7: bool)
    ensures var b := Pack(b0, b1, b2, b3, b4, b5, b6, b7);
            && BitOn(b, 0) == b0 && BitOn(b, 1) == b1 && BitOn(b, 2) == b2 && BitOn(b, 3) == b3
            && BitOn(b, 4) == b4 && BitOn(b, 5) == b5 && BitOn(b, 6) == b6 && BitOn(b, 7) == b7
  {
  }

  /** The byte with value `x`. */
  function ByteOf(x: nat): byte
    requires x < 256
  {
    var x1 := x / 2;
    var x2 := x1 / 2;
    var x3 := x2 / 2;
    var x4 := x3 / 2;
    var x5 := x4 / 2;
    var x6 := x5 / 2;
    Pack(x % 2 == 1, x1 % 2 == 1, x2 % 2 == 1, x3 % 2 == 1, x4 % 2 == 1, x5 % 2 == 1, x6 % 2 == 1, x6 / 2 == 1)
  }

  function BitValue(b: byte, k: nat): (v: nat)
    requires k < 8
    ensures v <= 1
  {
    if BitOn(b, k) then 1 else 0
  }

  /** The value of a byte. */
  function ValueOf(b: byte): (x: nat)
    ensures x < 256
  {
    BitValue(b, 0) + 2 * BitValue(b, 1) + 4 * BitValue(b, 2) + 8 * BitValue(b, 3) +
    16 * BitValue(b, 4) + 32 * BitValue(b, 5) + 64 * BitValue(b, 6) + 128 * BitValue(b, 7)
  }

  lemma Halve(x: nat)
    ensures x == 2 * (x / 2) + (if x % 2 == 1 then 1 else 0)
  {
  }

  lemma ByteRoundTrip(x: nat)
    requires x < 256
    ensures ValueOf(ByteOf(x)) == x
  {
    hide Pack, BitOn;
    var x1 := x / 2;
    var x2 := x1 / 2;
    var x3 := x2 / 2;
    var x4 := x3 / 2;
    var x5 := x4 / 2;
    var x6 := x5 / 2;
    PackedBits(x % 2 == 1, x1 % 2 == 1, x2 % 2 == 1, x3 % 2 == 1, x4 % 2 == 1, x5 % 2 == 1, x6 % 2 == 1, x6 / 2 == 1);
    Halve(x);
    Halve(x1);
    Halve(x2);
    Halve(x3);
    Halve(x4);
    Halve(x5);
    Halve(x6);
    SumOfBits(x, x1, x2, x3, x4, x5, x6, ByteOf(x));
  }

  lemma SumOfBits(x: nat, x1: nat, x2: nat, x3: nat, x4: nat, x5: nat, x6: nat, b: byte)
    requires x == 2 * x1 + BitValue(b, 0) && x1 == 2 * x2 + BitValue(b, 1) && x2 == 2 * x3 + BitValue(b, 2)
    requires x3 == 2 * x4 + BitValue(b, 3) && x4 == 2 * x5 + BitValue(b, 4) && x5 == 2 * x6 + BitValue(b, 5)
    requires x6 == 2 * BitValue(b, 7) + BitValue(b, 6)
    ensures ValueOf(b) == x
  {
    hide BitValue;
  }

  /** The four bytes of an unsigned word, lowest first. */
  function WordBytes(w: nat): (b: seq<byte>)
    requires w < WORD_LIMIT
    ensures |b| == 4
  {
    var w1 := w / 256;
    var w2 := w1 / 256;
    [ByteOf(w % 256), ByteOf(w1 % 256), ByteOf(w2 % 256), ByteOf(w2 / 256)]
  }

  function WordAt(b: seq<byte>): nat
    requires |b| >= 4
  {
    ValueOf(b[0]) + 256 * ValueOf(b[1]) + 0x1_0000 * ValueOf(b[2]) + 0x100_0000 * ValueOf(b[3])
  }

  lemma WordRoundTrip(w: nat)
    requires w < WORD_LIMIT
    ensures WordAt(WordBytes(w)) == w
  {
    hide ByteOf, ValueOf;
    var w1 := w / 256;
    var w2 := w1 / 256;
    ByteRoundTrip(w % 256);
    ByteRoundTrip(w1 % 256);
    ByteRoundTrip(w2 % 256);
    ByteRoundTrip(w2 / 256);
  }

  // ----- words and inodes -----

  function EncodeWords(ws: seq<nat>): (b: seq<byte>)
    requires forall k | 0 <= k < |ws| :: ws[k] < WORD_LIMIT
    ensures |b| == 4 * |ws|
  {
    if ws == [] then [] else WordBytes(ws[0]) + EncodeWords(ws[1..])
  }

  function DecodeWords(b: seq<byte>): (ws: seq<nat>)
    ensures |ws| == |b| / 4
  {
    if |b| < 4 then [] else [WordAt(b)] + DecodeWords(b[4..])
  }

  lemma {:induction false} WordsRoundTrip(ws: seq<nat>)
    requires forall k | 0 <= k < |ws| :: ws[k] < WORD_LIMIT
    ensures DecodeWords(EncodeWords(ws)) == ws
  {
    hide WordAt, WordBytes;
    if ws != [] {
      WordRoundTrip(ws[0]);
      WordPrefix(WordBytes(ws[0]), EncodeWords(ws[1..]));
      assert EncodeWords(ws)[4..] == EncodeWords(ws[1..]);
      WordsRoundTrip(ws[1..]);
    }
  }

  lemma WordPrefix(b: seq<byte>, rest: seq<byte>)
    requires |b| == 4
    ensures WordAt(b + rest) == WordAt(b)
  {
  }

  /** The 16 words of an inode, in the order of its fields. */
  function InodeWords(i: Inode): (ws: seq<nat>)
    requires InodeFits(i)
    ensures |ws| == INODE_WORDS && forall k | 0 <= k < |ws| :: ws[k] < WORD_LIMIT
  {
    [i.itype, i.size] + i.blocks + i.reserved
  }

  function InodeOfWords(ws: seq<nat>): Inode
    requires |ws| >= INODE_WORDS
  {
    Inode(ws[0], ws[1], ws[2..12], ws[12..16])
  }

  function TableWords(itab: seq<Inode>): (ws: seq<nat>)
    requires forall k | 0 <= k < |itab| :: InodeFits(itab[k])
    ensures |ws| == INODE_WORDS * |itab| && forall k | 0 <= k < |ws| :: ws[k] < WORD_LIMIT
  {
    if itab == [] then [] else InodeWords(itab[0]) + TableWords(itab[1..])
  }

  function TableOfWords(ws: seq<nat>): (itab: seq<Inode>)
    ensures |itab| == |ws| / INODE_WORDS
  {
    if |ws| < INODE_WORDS then [] else [InodeOfWords(ws)] + TableOfWords(ws[INODE_WORDS..])
  }

  lemma {:induction false} TableRoundTrip(itab: seq<Inode>)
    requires forall k | 0 <= k < |itab| :: InodeFits(itab[k])
    ensures TableOfWords(TableWords(itab)) == itab
  {
    if itab != [] {
      var ws := TableWords(itab);
      assert ws[INODE_WORDS..] == TableWords(itab[1..]);
      TableRoundTrip(itab[1..]);
      var i := itab[0];
      assert ws[0] == i.itype && ws[1] == i.size && ws[2..12] == i.blocks && ws[12..16] == i.reserved;
    }
  }

  /** The inode table as the bytes that lie in memory. */
  function TableBytes(itab: seq<Inode>): (b: seq<byte>)
    requires forall k | 0 <= k < |itab| :: InodeFits(itab[k])
    ensures |b| == 4 * INODE_WORDS * |itab|
  {
    EncodeWords(TableWords(itab))
  }

  function TableOfBytes(b: seq<byte>): seq<Inode> {
    TableOfWords(DecodeWords(b))
  }

  /** Reading the bytes of an inode table gives the same table. */
  lemma TableBytesRoundTrip(itab: seq<Inode>)
    requires forall k | 0 <= k < |itab| :: InodeFits(itab[k])
    ensures TableOfBytes(TableBytes(itab)) == itab
  {
    WordsRoundTrip(TableWords(itab));
    TableRoundTrip(itab);
  }

  // ----- directory entries -----

  datatype Dentry = Dentry(name: seq<byte>, id: nat)

  /** A C string: the bytes before the terminating zero. */
  predicate CString(s: seq<byte>) {
    forall k | 0 <= k < |s| :: s[k] != 0
  }

  /** The string that begins a buffer. */
  function CStringAt(b: seq<byte>): (s: seq<byte>)
    ensures |s| <= |b|
  {
    if b == [] || b[0] == 0 then [] else [b[0]] + CStringAt(b[1..])
  }

  lemma {:induction false} CStringStored(s: seq<byte>, rest: seq<byte>)
    requires CString(s)
    ensures CStringAt(s + [0] + rest) == s
  {
    if s == [] {
      assert s + [0] + rest == [0] + rest;
    } else {
      assert s + [0] + rest == [s[0]] + (s[1..] + [0] + rest);
      CStringStored(s[1..], rest);
    }
  }

  function DentryAt(page: Block, e: nat): Dentry
    requires |page| == BLOCK_SIZE && e < DIR_PAGE_ENTRIES
  {
    var b := page[DENTRY_SIZE * e..DENTRY_SIZE * e + DENTRY_SIZE];
    Dentry(CStringAt(b[..FS_MAX_FNAME_SZ]), ValueOf(b[14]) + 256 * ValueOf(b[15]))
  }

  /** `strcpy` of the name, which leaves the bytes after its end alone, and the inode number. */
  function PutDentry(page: Block, e: nat, name: seq<byte>, id: nat): (r: Block)
    requires |page| == BLOCK_SIZE && e < DIR_PAGE_ENTRIES
    requires |name| < FS_MAX_FNAME_SZ && id < ITAB_SIZE
    ensures |r| == BLOCK_SIZE
  {
    var at := DENTRY_SIZE * e;
    page[..at] + name + [0] + page[at + |name| + 1..at + FS_MAX_FNAME_SZ] +
    [ByteOf(id), ByteOf(0)] + page[at + DENTRY_SIZE..]
  }

  /** The new entry reads back, and the other entries of the page stay as they were. */
  lemma PutDentryPuts(page: Block, e: nat, name: seq<byte>, id: nat, f: nat)
    requires |page| == BLOCK_SIZE && e < DIR_PAGE_ENTRIES && f < DIR_PAGE_ENTRIES
    requires |name| < FS_MAX_FNAME_SZ && id < ITAB_SIZE && CString(name)
    ensures DentryAt(PutDentry(page, e, name, id), f) == if f == e then Dentry(name, id) else DentryAt(page, f)
  {
    var r, at, from := PutDentry(page, e, name, id), DENTRY_SIZE * e, DENTRY_SIZE * f;
    hide ValueOf, ByteOf;
    if f == e {
      var pad := page[at + |name| + 1..at + FS_MAX_FNAME_SZ];
      assert r[from..from + DENTRY_SIZE] == name + [0] + pad + [ByteOf(id), ByteOf(0)];
      assert r[from..from + DENTRY_SIZE][..FS_MAX_FNAME_SZ] == name + [0] + pad;
      CStringStored(name, pad);
      ByteRoundTrip(id);
      ByteRoundTrip(0);
    } else {
      assert r[from..from + DENTRY_SIZE] == page[from..from + DENTRY_SIZE];
    }
  }
}
