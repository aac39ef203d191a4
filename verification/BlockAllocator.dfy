/**
 * The fixed-size block allocator. A block is one raw array cut into 512 units; a unit is the element's words and one
 * trailer word that names the block. Free units are linked through their own first word.
 */
module BlockAllocator {

  const BLOCK_ELEMENTS: nat := 512
  const NONE: int := -1  // the all-ones index that ends a free list

  /** elemWords is the size of an element in machine words; maxElem is the limit on elements, 0 for none. */
  datatype Config = Config(elemWords: nat, maxElem: nat)

  datatype Block = Block(words: seq<int>, firstFree: int, amount: int, end: int)
  datatype State = State(blocks: seq<Block>, withFree: seq<nat>)

  /** An address: a word of the array of one block. */
  datatype Ptr = Null | At(block: nat, offset: nat)

  /** Fault stands for any access outside the array that the code believes it works on. */
  datatype Result = Done(state: State, ptr: Ptr) | LimitExceeded | Fault

  /** Where unit u starts. */
  function Offset(e: nat, u: nat): nat {
    if u == 0 then 0 else Offset(e, u - 1) + e + 1
  }

  function BlockSize(e: nat): nat {
    BLOCK_ELEMENTS * (e + 1)
  }

  predicate IsFull(b: Block) {
    b.amount == BLOCK_ELEMENTS
  }

  // ---- One block

  /** Where the next unit comes from: the free list, or else the end of the used part, which an empty block resets. */
  function NextUnit(b: Block): int {
    if b.firstFree != NONE then b.firstFree else if b.amount == 0 then 0 else b.end
  }

  predicate CanAllocate(e: nat, b: Block) {
    0 <= NextUnit(b) && NextUnit(b) + (if b.firstFree == NONE then e else 0) < |b.words|
  }

  function BlockAllocate(e: nat, b: Block, index: nat): Block
    requires CanAllocate(e, b)
  {
    var at := NextUnit(b);
    if b.firstFree == NONE then
      Block(b.words[at + e := index], NONE, b.amount + 1, at + e + 1)
    else
      b.(firstFree := b.words[at], amount := b.amount + 1)
  }

  function BlockDeallocate(b: Block, offset: nat): Block
    requires offset < |b.words|
  {
    b.(words := b.words[offset := b.firstFree],
       firstFree := if b.amount == 1 then NONE else offset,
       amount := b.amount - 1)
  }

  // ---- All blocks

  /** raw and junk are the contents of memory that a new block finds: nothing initialises them. */
  function Allocate(c: Config, s: State, raw: seq<int>, junk: int): Result {
    var grown := if s.withFree == [] then
                   State(s.blocks + [Block(raw, NONE, 0, junk)], [|s.blocks|])
                 else s;
    if s.withFree == [] && c.maxElem != 0 && |grown.blocks| * BLOCK_ELEMENTS > c.maxElem then
      LimitExceeded
    else
      AllocateIn(c.elemWords, grown, grown.withFree[|grown.withFree| - 1])
  }

  function AllocateIn(e: nat, s: State, index: nat): Result
    requires s.withFree != []
  {
    if index >= |s.blocks| || !CanAllocate(e, s.blocks[index]) then
      Fault
    else
      var b := BlockAllocate(e, s.blocks[index], index);
      var at := NextUnit(s.blocks[index]);
      var withFree := if IsFull(b) then s.withFree[..|s.withFree| - 1] else s.withFree;
      Done(State(s.blocks[index := b], withFree), At(index, at))
  }

  /** The block is found by the trailer alone; the address must turn out to lie in it. */
  function Deallocate(c: Config, s: State, p: Ptr): Result {
    if p.Null? then
      Done(s, Null)
    else if p.block >= |s.blocks| || p.offset + c.elemWords >= |s.blocks[p.block].words| then
      Fault
    else
      var index := s.blocks[p.block].words[p.offset + c.elemWords];
      if index != p.block then
        Fault
      else
        var b := s.blocks[index];
        var withFree := if IsFull(b) then s.withFree + [index as nat] else s.withFree;
        Done(State(s.blocks[index := BlockDeallocate(b, p.offset)], withFree), Null)
  }

  /** A client stores a value in word k of the element at p. */
  function Store(c: Config, s: State, p: Ptr, k: nat, value: int): Result {
    if p.Null? || p.block >= |s.blocks| || p.offset + k >= |s.blocks[p.block].words| then
      Fault
    else
      var b := s.blocks[p.block];
      Done(State(s.blocks[p.block := b.(words := b.words[p.offset + k := value])], s.withFree), Null)
  }
}
