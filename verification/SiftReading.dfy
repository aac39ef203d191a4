/** When the reader can take an instruction record, whoever wrote it, and what it then has. */
module SiftReading {
  import opened Prelude
  import opened Bytes
  import opened SiftFormat
  import opened SiftTrace
  import opened SiftRoundTrip

  /** The page of this byte was received; addresses are of 64 bits. */
  predicate PageThere(icache: map<nat, Page>, a: nat) {
    var address := a % 0x1_0000_0000_0000_0000;
    address - address % 4096 in icache
  }

  ghost predicate PagesThere(icache: map<nat, Page>, addr: nat, size: nat) {
    forall a: nat | addr <= a < addr + size :: PageThere(icache, a)
  }

  lemma PagesSplit(icache: map<nat, Page>, addr: nat, size: nat, n: nat, next: nat)
    requires n <= size && (next == addr + n || addr + n == next + TWO_64)
    ensures PagesThere(icache, addr, size) <==> PagesThere(icache, addr, n) && PagesThere(icache, next, size - n)
  {
    var shift := addr + n - next;
    forall a: nat | next <= a < next + (size - n)
      ensures PageThere(icache, a + shift) == PageThere(icache, a)
    {
    }
    if PagesThere(icache, addr, n) && PagesThere(icache, next, size - n) {
      forall a: nat | addr <= a < addr + size
        ensures PageThere(icache, a)
      {
        if a >= addr + n {
          assert PageThere(icache, a - shift);
        }
      }
    }
    if PagesThere(icache, addr, size) {
      forall a: nat | next <= a < next + (size - n)
        ensures PageThere(icache, a)
      {
        assert PageThere(icache, a + shift);
      }
    }
  }

  lemma OnePage(icache: map<nat, Page>, addr: nat, n: nat)
    requires addr < TWO_64 && 0 < n <= ICACHE_SIZE - addr % ICACHE_SIZE
    ensures PagesThere(icache, addr, n) <==> PageBase(addr) in icache
  {
    SamePage(addr, n);
    assert PageThere(icache, addr) <==> PageBase(addr) in icache;
    forall a: nat | addr <= a < addr + n
      ensures PageThere(icache, a) <==> PageBase(addr) in icache
    {
    }
  }

  lemma {:induction false} GatherExactlyWhen(icache: map<nat, Page>, addr: nat, size: nat)
    requires addr < TWO_64
    ensures Gather(icache, addr, size).Some? <==> PagesThere(icache, addr, size)
    decreases size
  {
    if size > 0 {
      var n := InPage(addr, size);
      OnePage(icache, addr, n);
      var next := Wrap(PageBase(addr) + ICACHE_SIZE);
      if n < size {
        GatherExactlyWhen(icache, next, size - n);
        PagesSplit(icache, addr, size, n, next);
      }
    }
  }

  /** The previous instruction is known to be followed by the one at this address. */
  predicate Follows(r: RState, addr: nat) {
    r.last.Some? && r.last.value in r.next && r.next[r.last.value] == addr
  }

  /**
   * The reader takes an instruction record if and only if the instruction is in its cache, with the same size unless it
   * is the known successor of the previous one, or all its pages were received; otherwise it asserts.
   */
  lemma TakesExactlyWhen(r: RState, i: Instruction)
    requires i.addr < TWO_64
    ensures ReceiveInstruction(r, i).Some? <==>
            if Follows(r, i.addr) then i.addr in r.scache
            else if i.addr in r.scache then r.scache[i.addr].size == i.size
            else PagesThere(r.icache, i.addr, i.size)
  {
    GatherExactlyWhen(r.icache, i.addr, i.size);
  }

  /**
   * Then one more event is delivered, for the instruction as it is in the cache; the next instruction is expected where
   * it ends, in 64 bits; and it becomes the successor of the previous one if that has none yet.
   */
  lemma TakenLeaves(r: RState, i: Instruction)
    requires ReceiveInstruction(r, i).Some?
    ensures var r' := ReceiveInstruction(r, i).value;
            && i.addr in r'.scache && r.scache.Keys <= r'.scache.Keys <= r.scache.Keys + {i.addr}
            && (forall a | a in r.scache :: r'.scache[a] == r.scache[a])
            && r'.log == r.log + [Executed(i.(size := r'.scache[i.addr].size), r'.scache[i.addr].data)]
            && r'.lastAddress == (i.addr + i.size) % 0x1_0000_0000_0000_0000
            && r'.last == Some(i.addr) && r'.icache == r.icache && r'.vcache == r.vcache
            && r.next.Keys <= r'.next.Keys && (forall a | a in r.next :: r'.next[a] == r.next[a])
            && (r.last.Some? ==> r.last.value in r'.next)
            && (r.last.Some? && r.last.value !in r.next ==> r'.next[r.last.value] == i.addr)
  {
  }

  // ---- Sizes and counts that the reader asserts

  /** How many bytes may follow the fields of a record of this type. */
  predicate SizeAsserted(code: Byte, n: nat) {
    match code
    case 0 => n == 4096
    case 1 => n > 0
    case 2 => n > 0
    case 19 => n <= 8
    case 4 => n == 0
    case 8 => n == 0
    case 12 => n == 0
    case 14 => n == 0
    case 15 => n == 0
    case 17 => n == 0
    case 21 => n == 0
    case 23 => n == 0
    case 24 => n == 0
    case 255 => n == 0
    case _ => true
  }

  lemma ReadWithoutSizes(s: seq<Byte>, code: Byte, ints: seq<nat>, blob: seq<Byte>, rest: seq<Byte>)
    requires |s| >= 6 && s[0] == 0 && s[1] == code && code != 18
    requires ParseBody(Layout(code), FromLE(s[2..6]), s[6..]) == Some((ints, blob, rest))
    ensures Parse(s) == if BlobAllowed(code, |blob|) then Some((Other(code, ints, blob), rest)) else None
  {
  }

  /** A record written in full is read back if and only if its size is one the reader expects; otherwise it asserts. */
  lemma ReadExactlyWhen(code: Byte, ints: seq<nat>, blob: seq<Byte>, rest: seq<Byte>)
    requires code != 18 && Fits(Layout(code), ints) && Sum(Layout(code)) + |blob| < TWO_32
    ensures Parse(Serialize(Other(code, ints, blob)) + rest) ==
            if SizeAsserted(code, |blob|) then Some((Other(code, ints, blob), rest)) else None
  {
    OtherBytesRoundTrip(code, Layout(code), ints, blob, rest);
    ReadWithoutSizes(Serialize(Other(code, ints, blob)) + rest, code, ints, blob, rest);
  }

  /** An instruction record that announces three data addresses is not read, nor one that is cut short. */
  lemma AddressesAsserted(input: seq<Byte>)
    requires input != [] && input[0] != 0
    ensures var n := if input[0] % 16 != 0 then input[0] / 16 % 4 else if |input| > 1 then input[1] % 4 else 3;
            var head := if input[0] % 16 != 0 then 1 else 10;
            Parse(input).Some? <==> n <= 2 && head + 8 * n <= |input|
  {
    if input[0] % 16 != 0 {
      EightsThere(input[0] / 16 % 4, input[1..]);
    } else if |input| >= 10 {
      EightsThere(input[1] % 4, input[10..]);
    }
  }

  lemma {:induction false} EightsThere(n: nat, input: seq<Byte>)
    ensures DecodeInts(Eights(n), input).Some? <==> 8 * n <= |input|
  {
    if n > 0 {
      assert Eights(n)[1..] == Eights(n - 1);
      if |input| >= 8 {
        EightsThere(n - 1, input[8..]);
      }
    }
  }
}
