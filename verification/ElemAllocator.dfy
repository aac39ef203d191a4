/** The allocator as it runs: raw arrays changed in place, proved against the functions of BlockAllocator. */
module ElemAllocator {
  import opened BlockAllocator
  import opened AllocatorProofs
  import opened AllocatorRuns

  class MemBlock {
    const block: array<int>
    var firstFreeUnitIndex: int
    var allocatedElementsAmount: int
    var endIndex: int

    ghost function Value(): Block
      reads this, block
    {
      Block(block[..], firstFreeUnitIndex, allocatedElementsAmount, endIndex)
    }

    constructor (e: nat)
      ensures fresh(block) && block.Length == BlockSize(e)
      ensures firstFreeUnitIndex == NONE && allocatedElementsAmount == 0
    {
      block := new int[BlockSize(e)];
      firstFreeUnitIndex, allocatedElementsAmount := NONE, 0;
    }

    method Allocate(e: nat, vectorIndex: nat) returns (offset: nat)
      requires CanAllocate(e, Value())
      modifies this, block
      ensures Value() == BlockAllocate(e, old(Value()), vectorIndex) && offset == NextUnit(old(Value()))
    {
      if firstFreeUnitIndex == NONE {
        if allocatedElementsAmount == 0 {
          endIndex := 0;
        }
        offset := endIndex;
        endIndex := endIndex + e + 1;
        block[offset + e] := vectorIndex;
        allocatedElementsAmount := allocatedElementsAmount + 1;
      } else {
        offset := firstFreeUnitIndex;
        firstFreeUnitIndex := block[offset];
        allocatedElementsAmount := allocatedElementsAmount + 1;
      }
    }

    method Deallocate(offset: nat)
      requires offset < block.Length
      modifies this, block
      ensures Value() == BlockDeallocate(old(Value()), offset)
    {
      block[offset] := firstFreeUnitIndex;
      firstFreeUnitIndex := offset;
      allocatedElementsAmount := allocatedElementsAmount - 1;
      if allocatedElementsAmount == 0 {
        firstFreeUnitIndex := NONE;
      }
    }
  }

  /** The block on top of the stack, if there is one, can give a unit. */
  ghost predicate TopHasRoom(e: nat, s: State) {
    s.withFree != [] ==>
      var top := s.withFree[|s.withFree| - 1];
      top < |s.blocks| && CanAllocate(e, s.blocks[top])
  }

  lemma GrownHasRoom(c: Config, s: State, raw: seq<int>, junk: int)
    requires TopHasRoom(c.elemWords, s) && |raw| == BlockSize(c.elemWords)
    ensures var g := Grown(s, raw, junk);
            && g.withFree != [] && TopHasRoom(c.elemWords, g)
            && BlockAllocator.Allocate(c, s, raw, junk) ==
               if s.withFree == [] && c.maxElem != 0 && |g.blocks| * BLOCK_ELEMENTS > c.maxElem then LimitExceeded
               else AllocateIn(c.elemWords, g, g.withFree[|g.withFree| - 1])
  {
  }

  class ElemAllocator {
    const config: Config
    var blocks: seq<MemBlock>
    var blocksWithFree: seq<nat>
    ghost var value: State          // the same as a value
    ghost var shadows: seq<Shadow>  // the live and free units of each block
    ghost var heap: Heap            // what the clients hold

    ghost predicate Matches()
      reads this`blocks, this`blocksWithFree, this`value, blocks, set b | b in blocks :: b.block
    {
      && (forall i, j | 0 <= i < j < |blocks| :: blocks[i] != blocks[j] && blocks[i].block != blocks[j].block)
      && |value.blocks| == |blocks|
      && (forall i | 0 <= i < |blocks| :: blocks[i].Value() == value.blocks[i])
      && value.withFree == blocksWithFree
    }

    ghost predicate Valid()
      reads this, blocks, set b | b in blocks :: b.block
    {
      && config.elemWords > 0
      && Matches()
      && Inv(config, value, shadows)
      && Holds(config.elemWords, value.blocks, shadows, heap)
    }

    constructor (config: Config)
      requires config.elemWords > 0
      ensures Valid() && this.config == config && heap == map[] && value == State([], [])
    {
      this.config := config;
      blocks, blocksWithFree, value, shadows, heap := [], [], State([], []), [], map[];
    }

    /** The footprint only grows by new objects. */
    twostate predicate OnlyNew()
      reads this
    {
      forall b | b in blocks :: b in old(blocks) || (fresh(b) && fresh(b.block))
    }

    /** A new block at the back when no block has room. */
    method Grow() returns (ghost raw: seq<int>, ghost junk: int)
      requires Matches()
      modifies this`blocks, this`blocksWithFree, this`value
      ensures Matches() && OnlyNew()
      ensures |raw| == BlockSize(config.elemWords) && value == Grown(old(value), raw, junk)
    {
      raw, junk := seq(BlockSize(config.elemWords), i => 0), 0;
      if blocksWithFree == [] {
        var b := new MemBlock(config.elemWords);
        raw, junk := b.block[..], b.endIndex;
        blocksWithFree := [|blocks|];
        blocks := blocks + [b];
        value := Grown(value, raw, junk);
      }
    }

    /** A new block if need be; ok is false when the limit on elements stops the program. */
    method GrowWithin() returns (ok: bool, ghost raw: seq<int>, ghost junk: int)
      requires Matches() && TopHasRoom(config.elemWords, value)
      modifies this`blocks, this`blocksWithFree, this`value
      ensures Matches() && OnlyNew() && |raw| == BlockSize(config.elemWords)
      ensures value.withFree != [] && TopHasRoom(config.elemWords, value)
      ensures BlockAllocator.Allocate(config, old(value), raw, junk) ==
              if ok then AllocateIn(config.elemWords, value, value.withFree[|value.withFree| - 1]) else LimitExceeded
    {
      var full := blocksWithFree == [];
      raw, junk := Grow();
      GrownHasRoom(config, old(value), raw, junk);
      ok := !(full && config.maxElem != 0 && |blocks| * BLOCK_ELEMENTS > config.maxElem);
    }

    /** A unit of the block on top of the stack. */
    method Take() returns (p: Ptr)
      requires Matches() && blocksWithFree != [] && blocksWithFree[|blocksWithFree| - 1] < |blocks|
      requires CanAllocate(config.elemWords, value.blocks[blocksWithFree[|blocksWithFree| - 1]])
      modifies this`blocksWithFree, this`value, blocks, set b | b in blocks :: b.block
      ensures Matches()
      ensures AllocateIn(config.elemWords, old(value), old(blocksWithFree[|blocksWithFree| - 1])) == Done(value, p)
    {
      var index := blocksWithFree[|blocksWithFree| - 1];
      var block := blocks[index];
      var offset := block.Allocate(config.elemWords, index);
      if block.allocatedElementsAmount == BLOCK_ELEMENTS {
        blocksWithFree := blocksWithFree[..|blocksWithFree| - 1];
      }
      p := At(index, offset);
      value := State(value.blocks[index := block.Value()], blocksWithFree);
    }

    /** The two steps together. */
    method GrowAndTake() returns (ok: bool, p: Ptr, ghost raw: seq<int>, ghost junk: int)
      requires Matches()
      requires TopHasRoom(config.elemWords, value)
      modifies this`blocks, this`blocksWithFree, this`value, blocks, set b | b in blocks :: b.block
      ensures |raw| == BlockSize(config.elemWords) && Matches() && OnlyNew()
      ensures var r := BlockAllocator.Allocate(config, old(value), raw, junk);
              if ok then r == Done(value, p) else r == LimitExceeded
    {
      p := Null;
      ok, raw, junk := GrowWithin();
      if ok {
        p := Take();
      }
    }

    method Allocate() returns (ok: bool, p: Ptr, ghost raw: seq<int>, ghost junk: int)
      requires Valid()
      modifies this, blocks, set b | b in blocks :: b.block
      ensures var r := BlockAllocator.Allocate(config, old(value), raw, junk);
              if ok then r == Done(value, p) else r == LimitExceeded
      ensures ok ==> Valid() && p !in old(heap)
      ensures ok ==> heap == old(heap)[p := Contents(config.elemWords, value.blocks, p)]
      ensures OnlyNew()
    {
      ghost var before := value;
      if blocksWithFree != [] {
        AllocateInInv(config, value, shadows, blocksWithFree[|blocksWithFree| - 1]);
      }
      ok, p, raw, junk := GrowAndTake();
      if ok {
        shadows := AllocateKeeps(config, before, shadows, heap, raw, junk);
        heap := heap[p := Contents(config.elemWords, value.blocks, p)];
      }
    }

    /** The block is found by the trailer of the unit. */
    method Put(p: Ptr)
      requires Matches() && p.At? && p.block < |blocks|
      requires BlockAllocator.Deallocate(config, value, p).Done?
      modifies this`blocksWithFree, this`value, blocks, set b | b in blocks :: b.block
      ensures Matches() && BlockAllocator.Deallocate(config, old(value), p) == Done(value, Null)
    {
      var blockIndex := blocks[p.block].block[p.offset + config.elemWords];
      var block := blocks[blockIndex];
      if block.allocatedElementsAmount == BLOCK_ELEMENTS {
        blocksWithFree := blocksWithFree + [blockIndex as nat];
      }
      block.Deallocate(p.offset);
      value := State(value.blocks[blockIndex := block.Value()], blocksWithFree);
    }

    method Deallocate(p: Ptr)
      requires Valid() && (p.Null? || p in heap)
      modifies this, blocks, set b | b in blocks :: b.block
      ensures Valid() && blocks == old(blocks)
      ensures BlockAllocator.Deallocate(config, old(value), p) == Done(value, Null)
      ensures heap == old(heap) - {p}
    {
      if p == Null {
        NullNotHeld(config.elemWords, value.blocks, shadows, heap);
        assert heap - {p} == heap;
        return;
      }
      ghost var after := FreeKeeps(config, value, shadows, heap, p);
      Put(p);
      shadows := after;
      heap := heap - {p};
    }
  }
}
