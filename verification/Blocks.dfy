/** The storage layer: equally sized blocks kept in one flat byte buffer (logrw/block.c). */
module Blocks {
  import opened Base

  /** `block_read` on the list of blocks; `None` is the -1 return for a number out of range. */
  function BlockRead(blocks: seq<Block>, no: int): Option<Block> {
    if 0 <= no < |blocks| then Some(blocks[no]) else None
  }

  /** `block_write` on the list of blocks; `None` is the -1 return. */
  function BlockWrite(blocks: seq<Block>, no: int, block: Block): Option<seq<Block>> {
    if 0 <= no < |blocks| then Some(blocks[no := block]) else None
  }

  /** The bytes of block `no` lie inside a buffer of `num * size` bytes. */
  lemma BlockInRange(no: nat, num: nat, size: nat)
    requires no < num
    ensures 0 <= no * size <= (no + 1) * size <= num * size
    ensures (no + 1) * size == no * size + size
  {
  }

  class BlockStore {
    const blockSize: nat
    const numBlocks: nat
    const blocks: array<byte>

    ghost predicate Valid()
      reads this
    {
      blockSize > 0 && numBlocks > 0 && blocks.Length == numBlocks * blockSize
    }

    ghost function BlockAt(i: nat): (b: Block)
      reads this, blocks
      requires Valid() && i < numBlocks
      ensures |b| == blockSize
    {
      BlockInRange(i, numBlocks, blockSize);
      blocks[i * blockSize..(i + 1) * blockSize]
    }

    /** The buffer cut into blocks. */
    ghost function View(): (v: seq<Block>)
      reads this, blocks
      requires Valid()
      ensures |v| == numBlocks
      ensures forall i | 0 <= i < numBlocks :: v[i] == BlockAt(i)
    {
      seq(numBlocks, i requires 0 <= i < numBlocks && Valid() reads this, blocks => BlockAt(i))
    }

    lemma ViewedBlock(i: nat)
      requires Valid() && i < numBlocks
      ensures |View()[i]| == blockSize
    {
    }

    /** `block_new`: the definition takes the number of blocks first. */
    constructor (num: nat, size: nat)
      requires num > 0 && size > 0
      ensures Valid() && fresh(blocks)
      ensures numBlocks == num && blockSize == size
      ensures View() == seq(num, _ => Zeros(size))
    {
      numBlocks := num;
      blockSize := size;
      blocks := new byte[num * size](_ => 0);
      new;
      forall i | 0 <= i < num ensures View()[i] == Zeros(size) {
        BlockInRange(i, num, size);
        assert BlockAt(i) == Zeros(size);
      }
    }

    method Read(no: int) returns (block: Option<Block>)
      requires Valid()
      ensures block == BlockRead(View(), no)
    {
      if no < 0 || no >= numBlocks {
        return None;
      }
      BlockInRange(no, numBlocks, blockSize);
      block := Some(blocks[no * blockSize..(no + 1) * blockSize]);
    }

    method Write(no: int, block: Block) returns (ok: bool)
      requires Valid() && |block| == blockSize
      modifies blocks
      ensures ok == BlockWrite(old(View()), no, block).Some?
      ensures View() == if ok then old(View())[no := block] else old(View())
    {
      if no < 0 || no >= numBlocks {
        return false;
      }
      BlockInRange(no, numBlocks, blockSize);
      ghost var was := blocks[..];
      forall k | 0 <= k < blockSize {
        blocks[no * blockSize + k] := block[k];
      }
      forall i | 0 <= i < numBlocks ensures View()[i] == old(View())[no := block][i] {
        BlockInRange(i, numBlocks, blockSize);
        if i < no {
          BlockInRange(i, no, blockSize);
        } else if i > no {
          BlockInRange(no, i, blockSize);
        }
        assert BlockAt(i) == if i == no then block else was[i * blockSize..(i + 1) * blockSize];
      }
      ok := true;
    }
  }
}
