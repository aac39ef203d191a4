/**
 * Every run of the allocator behaves as a heap of separate cells: no live unit is handed out again, freeing finds its
 * block by the trailer, and what a client stores stays there until the client frees it.
 */
module AllocatorProofs {
  import opened BlockAllocator

  /** The units of one block in use by clients, and the free units in the order of the list. */
  datatype Shadow = Shadow(live: set<nat>, free: seq<nat>)

  function Used(sh: Shadow): nat {
    |sh.live| + |sh.free|
  }

  // ---- Units do not overlap

  lemma {:induction false} OffsetIs(e: nat, u: nat)
    ensures Offset(e, u) == u * (e + 1)
  {
    if u > 0 {
      OffsetIs(e, u - 1);
      assert u * (e + 1) == (u - 1) * (e + 1) + (e + 1);
    }
  }

  lemma {:induction false} OffsetGrows(e: nat, u: nat, v: nat)
    requires u < v
    ensures Offset(e, u) + e < Offset(e, v)
  {
    if u + 1 < v {
      OffsetGrows(e, u, v - 1);
    }
  }

  lemma OffsetFits(e: nat, u: nat)
    requires u < BLOCK_ELEMENTS
    ensures Offset(e, u) + e < BlockSize(e)
  {
    OffsetGrows(e, u, BLOCK_ELEMENTS);
    OffsetIs(e, BLOCK_ELEMENTS);
  }

  lemma OffsetApart(e: nat, u: nat, v: nat, j: nat, k: nat)
    requires u != v && j <= e && k <= e
    ensures Offset(e, u) + j != Offset(e, v) + k
  {
    if u < v {
      OffsetGrows(e, u, v);
    } else {
      OffsetGrows(e, v, u);
    }
  }

  // ---- The invariant of one block

  /** The list threaded through the array visits exactly these units and ends. */
  ghost predicate Linked(e: nat, words: seq<int>, first: int, free: seq<nat>)
    decreases |free|
  {
    if free == [] then first == NONE
    else first == Offset(e, free[0]) && first < |words| && Linked(e, words, words[first], free[1..])
  }

  /** Live and free units are apart, each free unit is listed once, and all of them are in the used prefix. */
  ghost predicate Partition(sh: Shadow) {
    && (forall i, j | 0 <= i < j < |sh.free| :: sh.free[i] != sh.free[j])
    && (forall i | 0 <= i < |sh.free| :: sh.free[i] !in sh.live && sh.free[i] < Used(sh))
    && (forall u | u in sh.live :: u < Used(sh))
  }

  function Below(n: nat): (r: set<nat>)
    ensures |r| == n && forall u: nat :: u in r <==> u < n
  {
    if n == 0 then {} else Below(n - 1) + {n - 1}
  }

  function Elements(free: seq<nat>): (r: set<nat>)
    ensures forall u :: u in r <==> u in free
    ensures (forall i, j | 0 <= i < j < |free| :: free[i] != free[j]) ==> |r| == |free|
  {
    if free == [] then {} else
    assert free == free[..|free| - 1] + [free[|free| - 1]];
    Elements(free[..|free| - 1]) + {free[|free| - 1]}
  }

  /** Every unit below the end of the used part is live or free, and not both. */
  lemma UsedIsLiveOrFree(sh: Shadow, u: nat)
    requires Partition(sh)
    ensures u < Used(sh) <==> u in sh.live || u in sh.free
    ensures !(u in sh.live && u in sh.free)
  {
    var free, all := Elements(sh.free), Below(Used(sh));
    assert sh.live * free == {};
    assert |sh.live + free| == |sh.live| + |free|;
    assert sh.live + free <= all;
    SubsetSize(sh.live + free, all);
    assert u in sh.live + free <==> u in all;
  }

  lemma SubsetSize(a: set<nat>, b: set<nat>)
    requires a <= b && |a| == |b|
    ensures a == b
  {
    assert b == a + (b - a);
    assert |b - a| == 0;
  }

  /** Word k of unit u. */
  function Word(e: nat, words: seq<int>, u: nat, k: nat): int
    requires u < BLOCK_ELEMENTS && k <= e && |words| == BlockSize(e)
  {
    OffsetFits(e, u);
    words[Offset(e, u) + k]
  }

  ghost predicate Trailers(e: nat, words: seq<int>, used: nat, index: nat)
    requires used <= BLOCK_ELEMENTS && |words| == BlockSize(e)
  {
    forall u: nat | u < used :: Word(e, words, u, e) == index
  }

  ghost predicate BlockInv(e: nat, index: nat, b: Block, sh: Shadow) {
    && |b.words| == BlockSize(e)
    && Used(sh) <= BLOCK_ELEMENTS
    && b.amount == |sh.live|
    && Partition(sh)
    && Linked(e, b.words, b.firstFree, sh.free)
    && Trailers(e, b.words, Used(sh), index)
    && (b.amount == 0 ==> sh.free == [])
    && (b.amount != 0 ==> b.end == Offset(e, Used(sh)))
  }

  lemma {:induction false} LinkedFrame(e: nat, before: seq<int>, words: seq<int>, first: int, free: seq<nat>)
    requires Linked(e, before, first, free) && |words| == |before|
    requires forall i | 0 <= i < |free| && Offset(e, free[i]) < |words| ::
               words[Offset(e, free[i])] == before[Offset(e, free[i])]
    ensures Linked(e, words, first, free)
    decreases |free|
  {
    if free != [] {
      LinkedFrame(e, before, words, before[first], free[1..]);
    }
  }

  /** The array after one store to word k of unit u: every other word of every unit is as before. */
  lemma StoreFrame(e: nat, words: seq<int>, u: nat, k: nat, value: int)
    requires u < BLOCK_ELEMENTS && k <= e && |words| == BlockSize(e)
    ensures Offset(e, u) + k < |words|
    ensures var w := words[Offset(e, u) + k := value];
            forall v: nat, j: nat | v < BLOCK_ELEMENTS && j <= e ::
              Word(e, w, v, j) == if v == u && j == k then value else Word(e, words, v, j)
  {
    OffsetFits(e, u);
    var w := words[Offset(e, u) + k := value];
    forall v: nat, j: nat | v < BLOCK_ELEMENTS && j <= e
      ensures Word(e, w, v, j) == if v == u && j == k then value else Word(e, words, v, j)
    {
      OffsetFits(e, v);
      if v != u {
        OffsetApart(e, u, v, k, j);
      }
    }
  }

  lemma StoreKeepsList(e: nat, words: seq<int>, u: nat, k: nat, value: int, first: int, free: seq<nat>)
    requires u < BLOCK_ELEMENTS && k <= e && |words| == BlockSize(e)
    requires Linked(e, words, first, free)
    requires u !in free || k > 0
    ensures Offset(e, u) + k < |words| && Linked(e, words[Offset(e, u) + k := value], first, free)
  {
    OffsetFits(e, u);
    var w := words[Offset(e, u) + k := value];
    forall i | 0 <= i < |free| && Offset(e, free[i]) < |words|
      ensures w[Offset(e, free[i])] == words[Offset(e, free[i])]
    {
      if free[i] != u {
        OffsetApart(e, u, free[i], k, 0);
      }
    }
    LinkedFrame(e, words, w, first, free);
  }

  // ---- Allocating in a block

  function NextIndex(sh: Shadow): nat {
    if sh.free == [] then Used(sh) else sh.free[0]
  }

  function AfterAllocate(sh: Shadow): Shadow {
    Shadow(sh.live + {NextIndex(sh)}, if sh.free == [] then [] else sh.free[1..])
  }

  lemma AllocatePartition(sh: Shadow)
    requires Partition(sh)
    ensures NextIndex(sh) !in sh.live && Partition(AfterAllocate(sh))
    ensures |AfterAllocate(sh).live| == |sh.live| + 1
    ensures Used(AfterAllocate(sh)) == if sh.free == [] then Used(sh) + 1 else Used(sh)
  {
  }

  ghost predicate SamePayload(e: nat, b: Block, b': Block) {
    |b.words| == |b'.words| == BlockSize(e)
    && forall u: nat, k: nat | u < BLOCK_ELEMENTS && k < e :: Word(e, b'.words, u, k) == Word(e, b.words, u, k)
  }

  /** A new trailer extends the used prefix by one unit. */
  lemma TrailersBump(e: nat, words: seq<int>, used: nat, index: nat)
    requires used < BLOCK_ELEMENTS && |words| == BlockSize(e) && Trailers(e, words, used, index)
    ensures Offset(e, used) + e + 1 == Offset(e, used + 1) && Offset(e, used) + e < |words|
    ensures var w := words[Offset(e, used) + e := index];
            && Trailers(e, w, used + 1, index)
            && forall u: nat, k: nat | u < BLOCK_ELEMENTS && k < e :: Word(e, w, u, k) == Word(e, words, u, k)
  {
    OffsetFits(e, used);
    StoreFrame(e, words, used, e, index);
  }

  lemma BumpKeeps(e: nat, index: nat, b: Block, sh: Shadow)
    requires BlockInv(e, index, b, sh) && !IsFull(b) && sh.free == []
    ensures Used(sh) < BLOCK_ELEMENTS && NextUnit(b) == Offset(e, Used(sh)) && CanAllocate(e, b)
    ensures BlockInv(e, index, BlockAllocate(e, b, index), AfterAllocate(sh))
    ensures SamePayload(e, b, BlockAllocate(e, b, index))
  {
    var x := Used(sh);
    AllocatePartition(sh);
    TrailersBump(e, b.words, x, index);
    assert b.amount == 0 ==> x == 0;
  }

  lemma PopKeeps(e: nat, index: nat, b: Block, sh: Shadow)
    requires BlockInv(e, index, b, sh) && sh.free != []
    ensures sh.free[0] < BLOCK_ELEMENTS && NextUnit(b) == Offset(e, sh.free[0]) && CanAllocate(e, b)
    ensures BlockInv(e, index, BlockAllocate(e, b, index), AfterAllocate(sh))
    ensures BlockAllocate(e, b, index).words == b.words
  {
    AllocatePartition(sh);
    assert sh.free[0] in sh.free;
    OffsetFits(e, sh.free[0]);
  }

  /** The block hands out a unit no client has, and all words of all units but a new trailer stay as they are. */
  lemma BlockAllocateKeeps(e: nat, index: nat, b: Block, sh: Shadow)
    requires BlockInv(e, index, b, sh) && !IsFull(b)
    ensures NextIndex(sh) < BLOCK_ELEMENTS && NextIndex(sh) !in sh.live
    ensures NextUnit(b) == Offset(e, NextIndex(sh)) && CanAllocate(e, b)
    ensures BlockInv(e, index, BlockAllocate(e, b, index), AfterAllocate(sh))
    ensures SamePayload(e, b, BlockAllocate(e, b, index))
  {
    AllocatePartition(sh);
    if sh.free == [] {
      BumpKeeps(e, index, b, sh);
    } else {
      PopKeeps(e, index, b, sh);
    }
  }

  // ---- Freeing in a block

  function AfterFree(sh: Shadow, u: nat): Shadow {
    if |sh.live| == 1 then Shadow({}, []) else Shadow(sh.live - {u}, [u] + sh.free)
  }

  lemma FreePartition(sh: Shadow, u: nat)
    requires Partition(sh) && u in sh.live
    ensures Partition(AfterFree(sh, u)) && |AfterFree(sh, u).live| == |sh.live| - 1
    ensures |sh.live| > 1 ==> Used(AfterFree(sh, u)) == Used(sh)
    ensures forall v :: v in AfterFree(sh, u).live <==> v in sh.live && v != u
  {
    if |sh.live| == 1 {
      assert |sh.live - {u}| == 0;
      assert sh.live - {u} == {};
    }
  }

  /** The list with a new head, and what the store of the link leaves as it was. */
  lemma PushKeepsList(e: nat, words: seq<int>, u: nat, first: int, free: seq<nat>)
    requires u < BLOCK_ELEMENTS && |words| == BlockSize(e) && u !in free && Linked(e, words, first, free)
    ensures Offset(e, u) < |words| && Linked(e, words[Offset(e, u) := first], Offset(e, u), [u] + free)
  {
    StoreKeepsList(e, words, u, 0, first, first, free);
    assert ([u] + free)[1..] == free;
  }

  /** Storing in word 0 leaves all trailers. */
  lemma PushKeepsTrailers(e: nat, words: seq<int>, u: nat, value: int, used: nat, index: nat)
    requires u < BLOCK_ELEMENTS && |words| == BlockSize(e) && e > 0 && used <= BLOCK_ELEMENTS
             && Trailers(e, words, used, index)
    ensures Offset(e, u) < |words| && Trailers(e, words[Offset(e, u) := value], used, index)
  {
    StoreFrame(e, words, u, 0, value);
    var w := words[Offset(e, u) := value];
    forall v: nat | v < used
      ensures Word(e, w, v, e) == index
    {
      assert Word(e, words, v, e) == index;
    }
  }

  lemma FreeBlockInv(e: nat, index: nat, b: Block, sh: Shadow, u: nat)
    requires BlockInv(e, index, b, sh) && u in sh.live && e > 0
    ensures u < BLOCK_ELEMENTS && Offset(e, u) < |b.words|
    ensures BlockInv(e, index, BlockDeallocate(b, Offset(e, u)), AfterFree(sh, u))
  {
    OffsetFits(e, u);
    FreePartition(sh, u);
    PushKeepsTrailers(e, b.words, u, b.firstFree, Used(sh), index);
    if |sh.live| != 1 {
      PushKeepsList(e, b.words, u, b.firstFree, sh.free);
    }
  }

  lemma FreeLeavesOthers(e: nat, b: Block, u: nat)
    requires u < BLOCK_ELEMENTS && |b.words| == BlockSize(e) && e > 0
    ensures Offset(e, u) < |b.words|
    ensures forall v: nat, k: nat | v < BLOCK_ELEMENTS && k < e && v != u ::
              Word(e, BlockDeallocate(b, Offset(e, u)).words, v, k) == Word(e, b.words, v, k)
  {
    OffsetFits(e, u);
    StoreFrame(e, b.words, u, 0, b.firstFree);
  }

  /** A freed unit heads the list; only its first word is touched, and the last unit freed empties the block. */
  lemma BlockDeallocateKeeps(e: nat, index: nat, b: Block, sh: Shadow, u: nat)
    requires BlockInv(e, index, b, sh) && u in sh.live && e > 0
    ensures u < BLOCK_ELEMENTS && Offset(e, u) + e < |b.words| && Word(e, b.words, u, e) == index
    ensures BlockInv(e, index, BlockDeallocate(b, Offset(e, u)), AfterFree(sh, u))
    ensures forall v: nat, k: nat | v < BLOCK_ELEMENTS && k < e && v != u ::
              Word(e, BlockDeallocate(b, Offset(e, u)).words, v, k) == Word(e, b.words, v, k)
  {
    OffsetFits(e, u);
    FreeBlockInv(e, index, b, sh, u);
    FreeLeavesOthers(e, b, u);
  }

  /** A client's store into a live unit leaves the bookkeeping intact. */
  lemma BlockStoreKeeps(e: nat, index: nat, b: Block, sh: Shadow, u: nat, k: nat, value: int)
    requires BlockInv(e, index, b, sh) && u in sh.live && k < e
    ensures u < BLOCK_ELEMENTS && Offset(e, u) + k < |b.words|
    ensures BlockInv(e, index, b.(words := b.words[Offset(e, u) + k := value]), sh)
  {
    assert u !in sh.free;
    StoreFrame(e, b.words, u, k, value);
    StoreKeepsList(e, b.words, u, k, value, b.firstFree, sh.free);
  }

  // ---- The invariant of the allocator

  ghost predicate StackInv(blocks: seq<Block>, withFree: seq<nat>) {
    && (forall i, j | 0 <= i < j < |withFree| :: withFree[i] != withFree[j])
    && (forall i | 0 <= i < |withFree| :: withFree[i] < |blocks|)
    && (forall i | 0 <= i < |blocks| :: i in withFree <==> !IsFull(blocks[i]))
  }

  ghost predicate Inv(c: Config, s: State, acc: seq<Shadow>) {
    && |acc| == |s.blocks|
    && (forall i {:trigger BlockInv(c.elemWords, i, s.blocks[i], acc[i])} | 0 <= i < |acc| ::
          BlockInv(c.elemWords, i, s.blocks[i], acc[i]))
    && StackInv(s.blocks, s.withFree)
  }

  /** The elements in use, as a client sees them: what each pointer it holds points to. */
  type Heap = map<Ptr, seq<int>>

  function Payload(e: nat, words: seq<int>, u: nat): (p: seq<int>)
    requires u < BLOCK_ELEMENTS && |words| == BlockSize(e)
    ensures |p| == e && forall k: nat | k < e :: p[k] == Word(e, words, u, k)
  {
    OffsetFits(e, u);
    words[Offset(e, u)..Offset(e, u) + e]
  }

  /** What the memory at p holds for a client. */
  function Contents(e: nat, blocks: seq<Block>, p: Ptr): seq<int> {
    if p.At? && p.block < |blocks| && p.offset + e <= |blocks[p.block].words| then
      blocks[p.block].words[p.offset..p.offset + e]
    else []
  }

  /** Each of these units of the block is in the heap with the contents that the array has for it. */
  ghost predicate BlockHolds(e: nat, i: nat, b: Block, live: set<nat>, heap: Heap) {
    forall u | u in live ::
      && u < BLOCK_ELEMENTS && |b.words| == BlockSize(e)
      && At(i, Offset(e, u)) in heap && heap[At(i, Offset(e, u))] == Payload(e, b.words, u)
  }

  /** p is the address of a live unit. */
  ghost predicate Named(e: nat, acc: seq<Shadow>, p: Ptr) {
    p.At? && p.block < |acc| && exists u :: u in acc[p.block].live && p.offset == Offset(e, u)
  }

  /** The heap has exactly the live units, and each holds what its client last stored. */
  ghost predicate Holds(e: nat, blocks: seq<Block>, acc: seq<Shadow>, heap: Heap) {
    && |blocks| == |acc|
    && (forall i {:trigger BlockHolds(e, i, blocks[i], acc[i].live, heap)} | 0 <= i < |acc| ::
          BlockHolds(e, i, blocks[i], acc[i].live, heap))
    && (forall p {:trigger Named(e, acc, p)} | p in heap :: Named(e, acc, p))
  }
}
