/** The log store as logrw/logrw.c runs it: an index array and two flat block buffers in the heap. */
module LogRw {
  import opened Base
  import opened Blocks
  import opened LogStore

  class LogRw {
    const registo: array<nat>
    const arr1: BlockStore
    const arr2: BlockStore
    var livre: nat
    var arrayActivo: nat

    ghost predicate Valid()
      reads this, arr1, arr2
    {
      && arr1.Valid() && arr2.Valid()
      && arr1 != arr2 && arr1.blocks != arr2.blocks
      && registo as object != arr1.blocks && registo as object != arr2.blocks
      && arr1.numBlocks == arr2.numBlocks
      && arr1.blockSize == arr2.blockSize
    }

    ghost function State(): Log
      reads this, registo, arr1, arr2, arr1.blocks, arr2.blocks
      requires Valid()
    {
      Log(arr1.numBlocks, registo[..], livre, arrayActivo, arr1.View(), arr2.View())
    }

    /** `logrw_init`, with the arguments of `block_new` in the order that block.h declares. */
    constructor (numReg: nat, arrayDim: nat, blocoDim: nat)
      requires numReg < arrayDim && blocoDim > 0
      ensures Valid() && fresh(registo) && fresh(arr1) && fresh(arr2)
      ensures State() == Open(numReg, arrayDim, blocoDim)
    {
      registo := new nat[numReg](_ => 0);
      livre := 0;
      arrayActivo := 0;
      arr1 := new BlockStore(arrayDim, blocoDim);
      arr2 := new BlockStore(arrayDim, blocoDim);
    }

    /** `logrw_init` as coded: `block_new` takes the size asked for as the number of blocks, and the reverse. */
    constructor AsCoded(numReg: nat, arrayDim: nat, blocoDim: nat)
      requires numReg < arrayDim && blocoDim > 0
      ensures Valid() && fresh(registo) && fresh(arr1) && fresh(arr2)
      ensures Some(State()) == InitAsCoded(numReg, arrayDim, blocoDim)
      ensures arr1.numBlocks == arr2.numBlocks == blocoDim && arr1.blockSize == arr2.blockSize == arrayDim
    {
      registo := new nat[numReg](_ => 0);
      livre := 0;
      arrayActivo := 0;
      arr1 := new BlockStore(blocoDim, arrayDim);
      arr2 := new BlockStore(blocoDim, arrayDim);
      new;
      assert State() == Open(numReg, blocoDim, arrayDim);
    }

    method Read(registerNo: nat) returns (block: Option<Block>)
      requires Valid() && registerNo < registo.Length
      ensures block == LogStore.Read(State(), registerNo)
    {
      var indice := registo[registerNo];
      if arr1.numBlocks <= indice {
        block := arr2.Read(indice - arr2.numBlocks);
      } else {
        block := arr1.Read(indice);
      }
    }

    /** One turn of the copy loop of a flip, for register `i`. */
    method CopyRegister(src: BlockStore, srcBase: nat, dst: BlockStore, dstBase: nat, i: nat)
      requires src.Valid() && dst.Valid() && src != dst && src.blocks != dst.blocks
      requires registo as object != src.blocks && registo as object != dst.blocks
      requires src.blockSize == dst.blockSize && i < registo.Length
      modifies registo, dst.blocks, this`livre
      ensures CopyFrom(src.View(), srcBase, dst.View(), dstBase, registo[..], livre, i + 1)
           == old(CopyFrom(src.View(), srcBase, dst.View(), dstBase, registo[..], livre, i))
    {
      hide CopyFrom, BlockStore.View;
      CopyFromStep(src.View(), srcBase, dst.View(), dstBase, registo[..], livre, i);
      var aux := src.Read(registo[i] - srcBase);
      if aux.Some? {
        assert |aux.value| == dst.blockSize by {
          src.ViewedBlock(registo[i] - srcBase);
        }
        var ok := dst.Write(livre - dstBase, aux.value);
        if ok {
          registo[i] := livre;
          assert registo[..] == old(registo[..])[i := livre];
          livre := livre + 1;
        }
      }
    }

    /** The copy loop of a flip; `src` and `dst` hold the slots from `srcBase` and `dstBase` on. */
    method CopyRegisters(src: BlockStore, srcBase: nat, dst: BlockStore, dstBase: nat)
      requires src.Valid() && dst.Valid() && src != dst && src.blocks != dst.blocks
      requires registo as object != src.blocks && registo as object != dst.blocks
      requires src.blockSize == dst.blockSize
      modifies registo, dst.blocks, this`livre
      ensures var c := old(CopyFrom(src.View(), srcBase, dst.View(), dstBase, registo[..], livre, 0));
              dst.View() == c.dst && registo[..] == c.registo && livre == c.livre
    {
      hide CopyFrom, BlockStore.View;
      ghost var c := CopyFrom(src.View(), srcBase, dst.View(), dstBase, registo[..], livre, 0);
      for i := 0 to registo.Length
        invariant c == CopyFrom(src.View(), srcBase, dst.View(), dstBase, registo[..], livre, i)
      {
        CopyRegister(src, srcBase, dst, dstBase, i);
      }
      CopyFromEnd(src.View(), srcBase, dst.View(), dstBase, registo[..], livre);
    }

    /** Flips the arrays if the active one is full; tells which array takes the next block. */
    method MakeRoom() returns (second: bool)
      requires Valid()
      modifies this, registo, arr1.blocks, arr2.blocks
      ensures State() == if Flips(old(State())) then Flip(old(State())) else old(State())
      ensures second == if Flips(old(State())) then old(livre) == arr1.numBlocks else livre > arr1.numBlocks
    {
      hide CopyFrom;
      if livre == arr1.numBlocks {
        arrayActivo := 1;
        CopyRegisters(arr1, 0, arr2, arr1.numBlocks);
        second := true;
      } else if livre == 2 * arr1.numBlocks {
        arrayActivo := 0;
        livre := 0;
        CopyRegisters(arr2, arr1.numBlocks, arr1, 0);
        second := false;
      } else {
        second := livre > arr1.numBlocks;
      }
    }

    method Write(registerNo: nat, block: Block) returns (rc: int)
      requires Valid() && registerNo < registo.Length && |block| == arr1.blockSize
      modifies this, registo, arr1.blocks, arr2.blocks
      ensures Valid()
      ensures var w := LogStore.Write(old(State()), registerNo, block);
              State() == w.log && rc == w.rc
    {
      hide Flip;
      var second := MakeRoom();
      label roomy:
      var ok;
      if second {
        ok := arr2.Write(livre - arr1.numBlocks, block);
      } else {
        ok := arr1.Write(livre, block);
      }
      if !ok {
        return -1;
      }
      registo[registerNo] := livre;
      assert registo[..] == old@roomy(registo[..])[registerNo := livre];
      livre := livre + 1;
      rc := 0;
    }
  }
}
