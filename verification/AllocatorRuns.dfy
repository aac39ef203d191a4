/** Runs of the allocator with clients that free what they hold and store only inside their elements. */
module AllocatorRuns {
  import opened BlockAllocator
  import opened AllocatorProofs

  // ---- Steps of the allocator against the heap its clients see

  lemma SameOffset(e: nat, u: nat, v: nat)
    requires Offset(e, u) == Offset(e, v)
    ensures u == v
  {
    if u != v {
      OffsetApart(e, u, v, 0, 0);
    }
  }

  /** A pointer in the heap names one live unit, and the heap has that unit's contents. */
  lemma Lookup(e: nat, blocks: seq<Block>, acc: seq<Shadow>, heap: Heap, p: Ptr) returns (u: nat)
    requires Holds(e, blocks, acc, heap) && p in heap
    ensures p.At? && p.block < |acc| && u in acc[p.block].live && p.offset == Offset(e, u)
    ensures u < BLOCK_ELEMENTS && |blocks[p.block].words| == BlockSize(e)
    ensures heap[p] == Payload(e, blocks[p.block].words, u)
  {
    assert Named(e, acc, p);
    u :| u in acc[p.block].live && p.offset == Offset(e, u);
    assert BlockHolds(e, p.block, blocks[p.block], acc[p.block].live, heap);
    assert p == At(p.block, Offset(e, u));
  }

  lemma NullNotHeld(e: nat, blocks: seq<Block>, acc: seq<Shadow>, heap: Heap)
    requires Holds(e, blocks, acc, heap)
    ensures Null !in heap
  {
    assert Null in heap ==> Named(e, acc, Null);
  }

  /** Outside block i the two heaps are the same. */
  ghost predicate AgreeOutside(i: nat, heap: Heap, heap': Heap) {
    forall p: Ptr :: !(p.At? && p.block == i) ==>
      (p in heap' <==> p in heap) && (p in heap ==> heap'[p] == heap[p])
  }

  /** A step inside one block is a step of the whole. */
  lemma HoldsReplace(e: nat, blocks: seq<Block>, acc: seq<Shadow>, heap: Heap, i: nat, b: Block, sh: Shadow,
                     heap': Heap)
    requires Holds(e, blocks, acc, heap) && i < |acc| && AgreeOutside(i, heap, heap')
    requires BlockHolds(e, i, b, sh.live, heap')
    requires forall p | p in heap' && p.At? && p.block == i :: Named(e, acc[i := sh], p)
    ensures Holds(e, blocks[i := b], acc[i := sh], heap')
  {
    var acc' := acc[i := sh];
    forall j | 0 <= j < |acc| && j != i
      ensures BlockHolds(e, j, blocks[j], acc[j].live, heap')
    {
      assert BlockHolds(e, j, blocks[j], acc[j].live, heap);
    }
    forall p | p in heap'
      ensures Named(e, acc', p)
    {
      if !(p.At? && p.block == i) {
        assert Named(e, acc, p);
      }
    }
  }

  function Grown(s: State, raw: seq<int>, junk: int): State {
    if s.withFree == [] then State(s.blocks + [Block(raw, NONE, 0, junk)], [|s.blocks|]) else s
  }

  function GrownShadows(s: State, acc: seq<Shadow>): seq<Shadow> {
    if s.withFree == [] then acc + [Shadow({}, [])] else acc
  }

  lemma NewBlockInv(e: nat, index: nat, raw: seq<int>, junk: int)
    requires |raw| == BlockSize(e)
    ensures BlockInv(e, index, Block(raw, NONE, 0, junk), Shadow({}, []))
  {
  }

  lemma HoldsGrown(e: nat, s: State, acc: seq<Shadow>, heap: Heap, raw: seq<int>, junk: int)
    requires Holds(e, s.blocks, acc, heap)
    ensures Holds(e, Grown(s, raw, junk).blocks, GrownShadows(s, acc), heap)
  {
    var acc' := GrownShadows(s, acc);
    forall p | p in heap
      ensures Named(e, acc', p)
    {
      assert Named(e, acc, p);
      assert acc'[p.block] == acc[p.block];
    }
  }

  /** Adding an empty block changes nothing for the clients. */
  lemma GrowKeeps(c: Config, s: State, acc: seq<Shadow>, raw: seq<int>, junk: int)
    requires Inv(c, s, acc) && |raw| == BlockSize(c.elemWords)
    ensures Grown(s, raw, junk).withFree != []
    ensures Inv(c, Grown(s, raw, junk), GrownShadows(s, acc))
  {
    NewBlockInv(c.elemWords, |s.blocks|, raw, junk);
  }

  lemma StackAfterAllocate(s: State, b: Block)
    requires StackInv(s.blocks, s.withFree) && s.withFree != []
    requires b.amount == s.blocks[s.withFree[|s.withFree| - 1]].amount + 1
    ensures var index := s.withFree[|s.withFree| - 1];
            StackInv(s.blocks[index := b], if IsFull(b) then s.withFree[..|s.withFree| - 1] else s.withFree)
  {
    var n := |s.withFree| - 1;
    var index, rest := s.withFree[n], s.withFree[..n];
    assert index in s.withFree;
    assert s.withFree == rest + [index];
    assert index !in rest;
  }

  /** The new element is in the heap beside all the others. */
  lemma HoldsAfterAllocate(e: nat, blocks: seq<Block>, acc: seq<Shadow>, heap: Heap, i: nat, b: Block, x: nat,
                           sh: Shadow)
    requires Holds(e, blocks, acc, heap) && i < |acc| && SamePayload(e, blocks[i], b)
    requires x < BLOCK_ELEMENTS && x !in acc[i].live && sh.live == acc[i].live + {x}
    ensures At(i, Offset(e, x)) !in heap
    ensures Holds(e, blocks[i := b], acc[i := sh], heap[At(i, Offset(e, x)) := Payload(e, b.words, x)])
  {
    var q := At(i, Offset(e, x));
    if q in heap {
      var u := Lookup(e, blocks, acc, heap, q);
      SameOffset(e, u, x);
      assert false;
    }
    var heap' := heap[q := Payload(e, b.words, x)];
    assert BlockHolds(e, i, blocks[i], acc[i].live, heap);
    forall u | u in acc[i].live
      ensures u < BLOCK_ELEMENTS && At(i, Offset(e, u)) in heap' && heap'[At(i, Offset(e, u))] == Payload(e, b.words, u)
    {
      assert At(i, Offset(e, u)) != q;
      assert Payload(e, b.words, u) == Payload(e, blocks[i].words, u);
    }
    forall p | p in heap' && p.At? && p.block == i
      ensures Named(e, acc[i := sh], p)
    {
      if p == q {
        assert x in sh.live;
      } else {
        var u := Lookup(e, blocks, acc, heap, p);
        assert u in sh.live;
      }
    }
    HoldsReplace(e, blocks, acc, heap, i, b, sh, heap');
  }

  /** One element of block i is changed or gone: the other elements are as they were. */
  lemma HoldsAfterUpdate(e: nat, blocks: seq<Block>, acc: seq<Shadow>, heap: Heap, i: nat, b: Block, u: nat, sh: Shadow,
                         heap': Heap)
    requires Holds(e, blocks, acc, heap) && i < |acc| && u in acc[i].live && u < BLOCK_ELEMENTS
    requires |blocks[i].words| == |b.words| == BlockSize(e)
    requires forall v: nat, k: nat | v < BLOCK_ELEMENTS && k < e && v != u ::
               Word(e, b.words, v, k) == Word(e, blocks[i].words, v, k)
    requires forall v :: v != u ==> (v in sh.live <==> v in acc[i].live)
    requires var q := At(i, Offset(e, u));
             if u in sh.live then heap' == heap[q := Payload(e, b.words, u)] else heap' == heap - {q}
    ensures Holds(e, blocks[i := b], acc[i := sh], heap')
  {
    var q := At(i, Offset(e, u));
    assert BlockHolds(e, i, blocks[i], acc[i].live, heap);
    forall v | v in sh.live && v != u
      ensures v < BLOCK_ELEMENTS && At(i, Offset(e, v)) in heap' && heap'[At(i, Offset(e, v))] == Payload(e, b.words, v)
    {
      if At(i, Offset(e, v)) == q {
        SameOffset(e, u, v);
        assert false;
      }
      assert Payload(e, b.words, v) == Payload(e, blocks[i].words, v);
    }
    forall p | p in heap' && p.At? && p.block == i
      ensures Named(e, acc[i := sh], p)
    {
      if p == q {
        assert u in sh.live;
      } else {
        var v := Lookup(e, blocks, acc, heap, p);
        assert v in sh.live;
      }
    }
    HoldsReplace(e, blocks, acc, heap, i, b, sh, heap');
  }

  lemma InvReplace(c: Config, s: State, acc: seq<Shadow>, i: nat, b: Block, sh: Shadow, withFree: seq<nat>)
    requires Inv(c, s, acc) && i < |acc|
    requires BlockInv(c.elemWords, i, b, sh) && StackInv(s.blocks[i := b], withFree)
    ensures Inv(c, State(s.blocks[i := b], withFree), acc[i := sh])
  {
  }

  /** A unit from a block that has room. */
  lemma AllocateInIs(e: nat, s: State, index: nat)
    requires s.withFree != [] && index < |s.blocks| && CanAllocate(e, s.blocks[index])
    ensures var b := BlockAllocate(e, s.blocks[index], index);
            AllocateIn(e, s, index) ==
              Done(State(s.blocks[index := b], if IsFull(b) then s.withFree[..|s.withFree| - 1] else s.withFree),
                   At(index, NextUnit(s.blocks[index])))
  {
  }

  lemma AllocateInHolds(e: nat, blocks: seq<Block>, acc: seq<Shadow>, heap: Heap, i: nat)
    requires Holds(e, blocks, acc, heap) && i < |acc| && BlockInv(e, i, blocks[i], acc[i]) && !IsFull(blocks[i])
    ensures CanAllocate(e, blocks[i])
    ensures var b, p := BlockAllocate(e, blocks[i], i), At(i, NextUnit(blocks[i]));
            && p !in heap && p == At(i, Offset(e, NextIndex(acc[i])))
            && Holds(e, blocks[i := b], acc[i := AfterAllocate(acc[i])], heap[p := Contents(e, blocks[i := b], p)])
  {
    BlockAllocateKeeps(e, i, blocks[i], acc[i]);
    var b, x := BlockAllocate(e, blocks[i], i), NextIndex(acc[i]);
    OffsetFits(e, x);
    HoldsAfterAllocate(e, blocks, acc, heap, i, b, x, AfterAllocate(acc[i]));
  }

  lemma AllocateInInv(c: Config, s: State, acc: seq<Shadow>, index: nat)
    requires Inv(c, s, acc) && s.withFree != [] && index == s.withFree[|s.withFree| - 1]
    ensures index < |acc| && !IsFull(s.blocks[index]) && CanAllocate(c.elemWords, s.blocks[index])
    ensures Inv(c, AllocateIn(c.elemWords, s, index).state, acc[index := AfterAllocate(acc[index])])
  {
    assert index in s.withFree;
    var e, b, sh := c.elemWords, s.blocks[index], acc[index];
    assert BlockInv(e, index, b, sh);
    BlockAllocateKeeps(e, index, b, sh);
    StackAfterAllocate(s, BlockAllocate(e, b, index));
    InvReplace(c, s, acc, index, BlockAllocate(e, b, index), AfterAllocate(sh), AllocateIn(e, s, index).state.withFree);
  }

  /** The new element: its pointer is held by nobody, and every other element keeps its contents. */
  lemma AllocateInKeeps(c: Config, s: State, acc: seq<Shadow>, heap: Heap)
    requires Inv(c, s, acc) && Holds(c.elemWords, s.blocks, acc, heap) && s.withFree != []
    ensures var index := s.withFree[|s.withFree| - 1];
            var r := AllocateIn(c.elemWords, s, index);
            var acc' := acc[index := AfterAllocate(acc[index])];
            && r.Done? && r.ptr == At(index, Offset(c.elemWords, NextIndex(acc[index]))) && r.ptr !in heap
            && Inv(c, r.state, acc')
            && Holds(c.elemWords, r.state.blocks, acc', heap[r.ptr := Contents(c.elemWords, r.state.blocks, r.ptr)])
  {
    var e, index := c.elemWords, s.withFree[|s.withFree| - 1];
    AllocateInInv(c, s, acc, index);
    AllocateInIs(e, s, index);
    assert BlockInv(e, index, s.blocks[index], acc[index]);
    AllocateInHolds(e, s.blocks, acc, heap, index);
  }

  lemma StackAfterFree(s: State, index: nat, b: Block)
    requires StackInv(s.blocks, s.withFree) && index < |s.blocks|
    requires b.amount == s.blocks[index].amount - 1 && s.blocks[index].amount <= BLOCK_ELEMENTS
    ensures StackInv(s.blocks[index := b], if IsFull(s.blocks[index]) then s.withFree + [index] else s.withFree)
  {
  }

  /** The trailer of a live unit leads back to its block. */
  lemma FreeFinds(c: Config, s: State, i: nat, sh: Shadow, u: nat)
    requires c.elemWords > 0 && i < |s.blocks| && BlockInv(c.elemWords, i, s.blocks[i], sh) && u in sh.live
    ensures var p, b := At(i, Offset(c.elemWords, u)), s.blocks[i];
            && p.offset < |b.words|
            && Deallocate(c, s, p) == Done(State(s.blocks[i := BlockDeallocate(b, p.offset)],
                                                 if IsFull(b) then s.withFree + [i] else s.withFree), Null)
  {
    var e, b := c.elemWords, s.blocks[i];
    BlockDeallocateKeeps(e, i, b, sh, u);
    assert b.words[Offset(e, u) + e] == Word(e, b.words, u, e);
  }

  lemma HoldsAfterFree(e: nat, blocks: seq<Block>, acc: seq<Shadow>, heap: Heap, i: nat, u: nat)
    requires Holds(e, blocks, acc, heap) && i < |acc| && u in acc[i].live && e > 0
    requires BlockInv(e, i, blocks[i], acc[i])
    ensures Offset(e, u) < |blocks[i].words|
    ensures Holds(e, blocks[i := BlockDeallocate(blocks[i], Offset(e, u))], acc[i := AfterFree(acc[i], u)],
                  heap - {At(i, Offset(e, u))})
  {
    BlockDeallocateKeeps(e, i, blocks[i], acc[i], u);
    FreePartition(acc[i], u);
    HoldsAfterUpdate(e, blocks, acc, heap, i, BlockDeallocate(blocks[i], Offset(e, u)), u, AfterFree(acc[i], u),
                     heap - {At(i, Offset(e, u))});
  }

  /** Freeing finds the element's own block by its trailer, and takes away this element and nothing else. */
  lemma FreeKeeps(c: Config, s: State, acc: seq<Shadow>, heap: Heap, p: Ptr) returns (acc': seq<Shadow>)
    requires c.elemWords > 0 && Inv(c, s, acc) && Holds(c.elemWords, s.blocks, acc, heap) && p in heap
    ensures p.At? && p.block < |s.blocks| && Deallocate(c, s, p).Done?
    ensures Inv(c, Deallocate(c, s, p).state, acc')
    ensures Holds(c.elemWords, Deallocate(c, s, p).state.blocks, acc', heap - {p})
  {
    var u := Lookup(c.elemWords, s.blocks, acc, heap, p);
    var i, sh := p.block, acc[p.block];
    acc' := acc[i := AfterFree(sh, u)];
    FreeFinds(c, s, i, sh, u);
    assert p == At(i, Offset(c.elemWords, u));
    FreeInv(c, s, acc, i, u);
    HoldsAfterFree(c.elemWords, s.blocks, acc, heap, i, u);
  }

  lemma FreeInv(c: Config, s: State, acc: seq<Shadow>, i: nat, u: nat)
    requires c.elemWords > 0 && Inv(c, s, acc) && i < |acc| && u in acc[i].live
    ensures Offset(c.elemWords, u) < |s.blocks[i].words|
    ensures var b := s.blocks[i];
            Inv(c, State(s.blocks[i := BlockDeallocate(b, Offset(c.elemWords, u))],
                         if IsFull(b) then s.withFree + [i] else s.withFree),
                acc[i := AfterFree(acc[i], u)])
  {
    var b := s.blocks[i];
    BlockDeallocateKeeps(c.elemWords, i, b, acc[i], u);
    var b' := BlockDeallocate(b, Offset(c.elemWords, u));
    StackAfterFree(s, i, b');
    InvReplace(c, s, acc, i, b', AfterFree(acc[i], u), if IsFull(b) then s.withFree + [i] else s.withFree);
  }

  lemma HoldsAfterStore(e: nat, blocks: seq<Block>, acc: seq<Shadow>, heap: Heap, p: Ptr, u: nat, k: nat, value: int)
    requires Holds(e, blocks, acc, heap) && p in heap && k < e
    requires p.At? && p.block < |acc| && u in acc[p.block].live && p.offset == Offset(e, u)
    requires u < BLOCK_ELEMENTS && |blocks[p.block].words| == BlockSize(e)
    requires heap[p] == Payload(e, blocks[p.block].words, u)
    ensures p.offset + k < BlockSize(e)
    ensures var b := blocks[p.block];
            Holds(e, blocks[p.block := b.(words := b.words[p.offset + k := value])], acc,
                  heap[p := heap[p][k := value]])
  {
    var b := blocks[p.block];
    StoreFrame(e, b.words, u, k, value);
    var b' := b.(words := b.words[p.offset + k := value]);
    assert heap[p][k := value] == Payload(e, b'.words, u);
    HoldsAfterUpdate(e, blocks, acc, heap, p.block, b', u, acc[p.block], heap[p := heap[p][k := value]]);
    assert acc[p.block := acc[p.block]] == acc;
  }

  /** A client's store changes one word of its own element. */
  lemma StoreKeeps(c: Config, s: State, acc: seq<Shadow>, heap: Heap, p: Ptr, k: nat, value: int)
    requires Inv(c, s, acc) && Holds(c.elemWords, s.blocks, acc, heap) && p in heap && k < c.elemWords
    ensures |heap[p]| == c.elemWords && Store(c, s, p, k, value).Done?
    ensures Inv(c, Store(c, s, p, k, value).state, acc)
    ensures Holds(c.elemWords, Store(c, s, p, k, value).state.blocks, acc, heap[p := heap[p][k := value]])
  {
    var e := c.elemWords;
    var u := Lookup(e, s.blocks, acc, heap, p);
    var b, sh := s.blocks[p.block], acc[p.block];
    BlockStoreKeeps(e, p.block, b, sh, u, k, value);
    HoldsAfterStore(e, s.blocks, acc, heap, p, u, k, value);
    InvReplace(c, s, acc, p.block, b.(words := b.words[p.offset + k := value]), sh, s.withFree);
    assert acc[p.block := sh] == acc;
  }

  // ---- Whole runs

  ghost predicate AllFull(s: State) {
    forall i | 0 <= i < |s.blocks| :: IsFull(s.blocks[i])
  }

  /**
   * An allocation never strays, hands out a pointer nobody holds and leaves all other elements alone. It is refused
   * exactly when every unit of every block is taken and one more block would exceed the limit.
   */
  lemma AllocateKeeps(c: Config, s: State, acc: seq<Shadow>, heap: Heap, raw: seq<int>, junk: int)
    returns (acc': seq<Shadow>)
    requires Inv(c, s, acc) && Holds(c.elemWords, s.blocks, acc, heap) && |raw| == BlockSize(c.elemWords)
    ensures var r := Allocate(c, s, raw, junk);
            && !r.Fault?
            && (r.LimitExceeded? <==> c.maxElem != 0 && AllFull(s) && (|s.blocks| + 1) * BLOCK_ELEMENTS > c.maxElem)
            && (r.Done? ==> r.ptr !in heap && Inv(c, r.state, acc')
                            && Holds(c.elemWords, r.state.blocks, acc',
                                     heap[r.ptr := Contents(c.elemWords, r.state.blocks, r.ptr)]))
  {
    var g, accG := Grown(s, raw, junk), GrownShadows(s, acc);
    GrowKeeps(c, s, acc, raw, junk);
    HoldsGrown(c.elemWords, s, acc, heap, raw, junk);
    AllocateInKeeps(c, g, accG, heap);
    var index := g.withFree[|g.withFree| - 1];
    acc' := accG[index := AfterAllocate(accG[index])];
    FullExactlyWhen(s);
  }

  lemma FullExactlyWhen(s: State)
    requires StackInv(s.blocks, s.withFree)
    ensures s.withFree == [] <==> AllFull(s)
  {
    if s.withFree != [] {
      assert s.withFree[0] in s.withFree;
    }
  }

  datatype Op = New(raw: seq<int>, junk: int) | Free(p: Ptr) | Write(p: Ptr, k: nat, value: int)
  datatype Outcome = Running(state: State, heap: Heap) | Exceeded | Misused | Broken

  /** What clients may do: free null or a pointer they hold, and store inside an element they hold. */
  predicate Allowed(c: Config, heap: Heap, op: Op) {
    match op
    case New(raw, _) => |raw| == BlockSize(c.elemWords)
    case Free(p) => p.Null? || p in heap
    case Write(p, k, _) => p in heap && k < c.elemWords
  }

  /** The allocator's step beside the same step on a heap of separate cells. */
  function Step(c: Config, s: State, heap: Heap, op: Op): Outcome {
    if !Allowed(c, heap, op) then Misused else
    match op
    case New(raw, junk) =>
      (match Allocate(c, s, raw, junk)
       case Done(s', p) => Running(s', heap[p := Contents(c.elemWords, s'.blocks, p)])
       case LimitExceeded => Exceeded
       case Fault => Broken)
    case Free(p) =>
      var r := Deallocate(c, s, p);
      if r.Done? then Running(r.state, heap - {p}) else Broken
    case Write(p, k, value) =>
      var r := Store(c, s, p, k, value);
      if r.Done? && k < |heap[p]| then Running(r.state, heap[p := heap[p][k := value]]) else Broken
  }

  function Run(c: Config, s: State, heap: Heap, ops: seq<Op>): Outcome
    decreases |ops|
  {
    if ops == [] then Running(s, heap)
    else
      var o := Step(c, s, heap, ops[0]);
      if o.Running? then Run(c, o.state, o.heap, ops[1..]) else o
  }

  /** The blocks are in order, within the limit, and the memory is the clients' heap. */
  ghost predicate Good(c: Config, s: State, heap: Heap) {
    && (c.maxElem != 0 ==> |s.blocks| * BLOCK_ELEMENTS <= c.maxElem)
    && exists acc: seq<Shadow> :: Inv(c, s, acc) && Holds(c.elemWords, s.blocks, acc, heap)
  }

  /** Elements allocated and not yet freed. */
  function Balance(ops: seq<Op>): int {
    if ops == [] then 0
    else (if ops[0].New? then 1 else if ops[0].Free? && ops[0].p.At? then -1 else 0) + Balance(ops[1..])
  }

  /** A new pointer is one that nobody holds. */
  lemma NewIsFresh(c: Config, s: State, heap: Heap, raw: seq<int>, junk: int)
    requires Good(c, s, heap) && |raw| == BlockSize(c.elemWords)
    ensures var r := Allocate(c, s, raw, junk); r.Done? ==> r.ptr !in heap
  {
    var acc :| Inv(c, s, acc) && Holds(c.elemWords, s.blocks, acc, heap);
    var acc' := AllocateKeeps(c, s, acc, heap, raw, junk);
  }

  lemma NewGood(c: Config, s: State, heap: Heap, op: Op)
    requires Good(c, s, heap) && op.New? && Allowed(c, heap, op)
    ensures var o := Step(c, s, heap, op);
            !o.Broken? && !o.Misused? && (o.Running? ==> Good(c, o.state, o.heap) && |o.heap| == |heap| + 1)
  {
    var acc :| Inv(c, s, acc) && Holds(c.elemWords, s.blocks, acc, heap);
    var acc' := AllocateKeeps(c, s, acc, heap, op.raw, op.junk);
    var r := Allocate(c, s, op.raw, op.junk);
    if r.Done? {
      var o := Step(c, s, heap, op);
      assert o.heap.Keys == heap.Keys + {r.ptr};
    }
  }

  lemma FreeGood(c: Config, s: State, heap: Heap, op: Op)
    requires c.elemWords > 0 && Good(c, s, heap) && op.Free? && Allowed(c, heap, op)
    ensures var o := Step(c, s, heap, op);
            o.Running? && Good(c, o.state, o.heap) && |o.heap| == |heap| - if op.p.At? then 1 else 0
  {
    var acc :| Inv(c, s, acc) && Holds(c.elemWords, s.blocks, acc, heap);
    if op.p in heap {
      var acc' := FreeKeeps(c, s, acc, heap, op.p);
      assert op.p.At? by {
        NullNotHeld(c.elemWords, s.blocks, acc, heap);
      }
      assert (heap - {op.p}).Keys == heap.Keys - {op.p};
    } else {
      assert heap - {op.p} == heap;
    }
  }

  lemma WriteGood(c: Config, s: State, heap: Heap, op: Op)
    requires Good(c, s, heap) && op.Write? && Allowed(c, heap, op)
    ensures var o := Step(c, s, heap, op); o.Running? && Good(c, o.state, o.heap) && |o.heap| == |heap|
  {
    var acc :| Inv(c, s, acc) && Holds(c.elemWords, s.blocks, acc, heap);
    StoreKeeps(c, s, acc, heap, op.p, op.k, op.value);
    assert Step(c, s, heap, op).heap.Keys == heap.Keys;
  }

  lemma {:induction false} RunGood(c: Config, s: State, heap: Heap, ops: seq<Op>)
    requires c.elemWords > 0 && Good(c, s, heap)
    ensures var o := Run(c, s, heap, ops);
            !o.Broken? && (o.Running? ==> Good(c, o.state, o.heap) && |o.heap| == |heap| + Balance(ops))
    decreases |ops|
  {
    if ops != [] && Allowed(c, heap, ops[0]) {
      match ops[0] {
        case New(_, _) => NewGood(c, s, heap, ops[0]);
        case Free(_) => FreeGood(c, s, heap, ops[0]);
        case Write(_, _, _) => WriteGood(c, s, heap, ops[0]);
      }
      var o := Step(c, s, heap, ops[0]);
      if o.Running? {
        RunGood(c, o.state, o.heap, ops[1..]);
      }
    }
  }

  /**
   * Over every run the raw memory is the heap of separate cells that the clients believe in: no step strays outside
   * a block, each pointer in use reads back what was last stored through it, there are as many of them as were
   * allocated and not freed, and the next one is different from all of them.
   */
  lemma EveryRunIsAHeap(c: Config, ops: seq<Op>)
    requires c.elemWords > 0
    ensures var o := Run(c, State([], []), map[], ops);
            && !o.Broken?
            && (o.Running? ==>
                  && Good(c, o.state, o.heap)
                  && (forall p | p in o.heap :: Contents(c.elemWords, o.state.blocks, p) == o.heap[p])
                  && |o.heap| == Balance(ops)
                  && forall raw, junk | |raw| == BlockSize(c.elemWords) ::
                       var r := Allocate(c, o.state, raw, junk); r.Done? ==> r.ptr !in o.heap)
  {
    assert Inv(c, State([], []), []) && Holds(c.elemWords, [], [], map[]);
    RunGood(c, State([], []), map[], ops);
    var o := Run(c, State([], []), map[], ops);
    if o.Running? {
      ReadsBack(c, o.state, o.heap);
      forall raw, junk | |raw| == BlockSize(c.elemWords)
        ensures var r := Allocate(c, o.state, raw, junk); r.Done? ==> r.ptr !in o.heap
      {
        NewIsFresh(c, o.state, o.heap, raw, junk);
      }
    }
  }

  lemma HoldsReadsBack(e: nat, s: State, acc: seq<Shadow>, heap: Heap)
    requires Holds(e, s.blocks, acc, heap)
    ensures forall p | p in heap :: Contents(e, s.blocks, p) == heap[p]
  {
    forall p | p in heap
      ensures Contents(e, s.blocks, p) == heap[p]
    {
      var u := Lookup(e, s.blocks, acc, heap, p);
      OffsetFits(e, u);
    }
  }

  lemma ReadsBack(c: Config, s: State, heap: Heap)
    requires Good(c, s, heap)
    ensures forall p | p in heap :: Contents(c.elemWords, s.blocks, p) == heap[p]
  {
    var acc :| Inv(c, s, acc) && Holds(c.elemWords, s.blocks, acc, heap);
    HoldsReadsBack(c.elemWords, s, acc, heap);
  }
}
