/** A trace read back is the trace that was written: addresses, flags, callbacks, code bytes and page mappings. */
module SiftRoundTrip {
  import opened Prelude
  import opened Bytes
  import opened SiftFormat
  import opened SiftTrace

  /** The reader handling a run of records none of which is End. */
  function ReceiveAll(junk: nat -> Byte, r: RState, records: seq<Record>): Option<RState>
    decreases |records|
  {
    if records == [] then Some(r)
    else
      var r' :- Receive(junk, r, records[0]);
      ReceiveAll(junk, r', records[1..])
  }

  ghost predicate Body(records: seq<Record>) {
    forall i | 0 <= i < |records| :: WellFormed(records[i]) && !(records[i].Other? && records[i].code == REC_END)
  }

  lemma {:induction false} ReceiveConcat(junk: nat -> Byte, r: RState, a: seq<Record>, b: seq<Record>)
    ensures ReceiveAll(junk, r, a + b) ==
            (var r' := ReceiveAll(junk, r, a); if r'.Some? then ReceiveAll(junk, r'.value, b) else None)
    decreases |a|
  {
    if a == [] {
      assert a + b == b;
    } else {
      assert (a + b)[1..] == a[1..] + b;
      var r' := Receive(junk, r, a[0]);
      if r'.Some? {
        ReceiveConcat(junk, r'.value, a[1..], b);
      }
    }
  }

  lemma ReadStep(junk: nat -> Byte, r: RState, rec: Record, rest: seq<Byte>)
    requires WellFormed(rec) && !(rec.Other? && rec.code == REC_END) && Receive(junk, r, rec).Some?
    ensures ReadTrace(junk, r, Serialize(rec) + rest) == ReadTrace(junk, Receive(junk, r, rec).value, rest)
  {
    RecordRoundTrip(rec, rest);
  }

  /** Bytes of well-formed records drive the reader exactly as the records themselves do. */
  lemma {:induction false} ReadBody(junk: nat -> Byte, r: RState, records: seq<Record>, rest: seq<Byte>)
    requires Body(records) && ReceiveAll(junk, r, records).Some?
    ensures ReadTrace(junk, r, SerializeAll(records) + rest) ==
            ReadTrace(junk, ReceiveAll(junk, r, records).value, rest)
    decreases |records|
  {
    if records == [] {
      assert SerializeAll(records) + rest == rest;
    } else {
      var rec, tail := records[0], SerializeAll(records[1..]);
      assert SerializeAll(records) + rest == Serialize(rec) + (tail + rest);
      ReadStep(junk, r, rec, tail + rest);
      ReadBody(junk, Receive(junk, r, rec).value, records[1..], rest);
    }
  }

  lemma ReadStops(junk: nat -> Byte, r: RState, rec: Record, input: seq<Byte>, rest: seq<Byte>)
    requires Parse(input) == Some((rec, rest)) && rec.Other? && rec.code == REC_END
    ensures ReadTrace(junk, r, input) == Some(r)
  {
  }

  lemma ReadEnd(junk: nat -> Byte, r: RState)
    ensures ReadTrace(junk, r, SerializeAll([END_RECORD])) == Some(r)
  {
    RecordRoundTrip(END_RECORD, []);
    assert SerializeAll([END_RECORD]) == Serialize(END_RECORD) + [];
    ReadStops(junk, r, END_RECORD, Serialize(END_RECORD) + [], []);
  }

  // ---- Code bytes

  /** The reader holds the right byte of the code image at address a. */
  ghost predicate Covered(image: nat -> Byte, icache: map<nat, Page>, a: nat) {
    PageBase(a) in icache && icache[PageBase(a)][a % ICACHE_SIZE] == image(a)
  }

  ghost predicate CoveredRange(image: nat -> Byte, icache: map<nat, Page>, addr: nat, n: nat) {
    forall a: nat | addr <= a < addr + n :: Covered(image, icache, a)
  }

  /** Nothing that was covered is lost. */
  ghost predicate Grows(image: nat -> Byte, old_: map<nat, Page>, new_: map<nat, Page>) {
    forall a: nat | Covered(image, old_, a) :: Covered(image, new_, a)
  }

  lemma PageArithmetic(base: nat, a: nat)
    requires base % ICACHE_SIZE == 0 && base <= a < base + ICACHE_SIZE
    ensures PageBase(a) == base && a % ICACHE_SIZE == a - base
  {
    assert a == ICACHE_SIZE * (base / ICACHE_SIZE) + (a - base);
  }

  lemma SamePage(addr: nat, n: nat)
    requires n <= ICACHE_SIZE - addr % ICACHE_SIZE
    ensures forall a: nat | addr <= a < addr + n ::
              PageBase(a) == PageBase(addr) && a % ICACHE_SIZE == addr % ICACHE_SIZE + (a - addr)
  {
    forall a: nat | addr <= a < addr + n
      ensures PageBase(a) == PageBase(addr) && a % ICACHE_SIZE == addr % ICACHE_SIZE + (a - addr)
    {
      PageArithmetic(PageBase(addr), a);
    }
  }

  lemma CoveredSlice(image: nat -> Byte, icache: map<nat, Page>, addr: nat, n: nat)
    requires 0 < n <= ICACHE_SIZE - addr % ICACHE_SIZE && CoveredRange(image, icache, addr, n)
    ensures var base, offset := PageBase(addr), addr % ICACHE_SIZE;
            base in icache && icache[base][offset..offset + n] == Code(image, addr, n)
  {
    var base, offset := PageBase(addr), addr % ICACHE_SIZE;
    SamePage(addr, n);
    assert Covered(image, icache, addr);
    var slice := icache[base][offset..offset + n];
    forall i | 0 <= i < n
      ensures slice[i] == Code(image, addr, n)[i]
    {
      assert Covered(image, icache, addr + i);
    }
  }

  lemma CodeSplit(image: nat -> Byte, addr: nat, size: nat, n: nat)
    requires n <= size
    ensures Code(image, addr, size)[..n] == Code(image, addr, n)
    ensures Code(image, addr, size)[n..] == Code(image, addr + n, size - n)
    ensures Code(image, addr, size) == Code(image, addr, n) + Code(image, addr + n, size - n)
  {
  }

  /** Gathering covered bytes gives the image, across page boundaries. */
  lemma {:induction false} GatherCovered(image: nat -> Byte, icache: map<nat, Page>, addr: nat, size: nat)
    requires addr + size <= CODE_TOP && CoveredRange(image, icache, addr, size)
    ensures Gather(icache, addr, size) == Some(Code(image, addr, size))
    decreases size
  {
    if size > 0 {
      var n := InPage(addr, size);
      CoveredSlice(image, icache, addr, n);
      CodeSplit(image, addr, size, n);
      if n < size {
        GatherCovered(image, icache, addr + n, size - n);
      } else {
        assert Code(image, addr, n) + [] == Code(image, addr, size);
      }
    }
  }

  ghost predicate ImageBytes(image: nat -> Byte, address: nat, bytes: seq<Byte>) {
    forall i | 0 <= i < |bytes| :: bytes[i] == image(address + i)
  }

  lemma StoreInPageCovers(junk: nat -> Byte, image: nat -> Byte, icache: map<nat, Page>, address: nat, chunk: seq<Byte>)
    requires |chunk| <= ICACHE_SIZE - address % ICACHE_SIZE && ImageBytes(image, address, chunk)
    ensures var m := StoreInPage(junk, icache, address, chunk);
            Grows(image, icache, m) && CoveredRange(image, m, address, |chunk|)
  {
    var base, offset, n := PageBase(address), address % ICACHE_SIZE, |chunk|;
    var m := StoreInPage(junk, icache, address, chunk);
    SamePage(address, n);
    forall a: nat | Covered(image, icache, a)
      ensures Covered(image, m, a)
    {
      if PageBase(a) == base && offset <= a % ICACHE_SIZE < offset + n {
        assert m[base][a % ICACHE_SIZE] == chunk[a - address];
      }
    }
    forall a: nat | address <= a < address + n
      ensures Covered(image, m, a)
    {
      assert m[base][offset + (a - address)] == chunk[a - address];
    }
  }

  lemma CoveredJoin(image: nat -> Byte, icache: map<nat, Page>, m1: map<nat, Page>, m2: map<nat, Page>, addr: nat,
                    n: nat, size: nat)
    requires n <= size && Grows(image, icache, m1) && Grows(image, m1, m2)
    requires CoveredRange(image, m1, addr, n) && CoveredRange(image, m2, addr + n, size - n)
    ensures Grows(image, icache, m2) && CoveredRange(image, m2, addr, size)
  {
    forall a: nat | addr <= a < addr + size
      ensures Covered(image, m2, a)
    {
      if a < addr + n {
        assert Covered(image, m1, a);
      }
    }
  }

  lemma NextPage(address: nat, size: nat)
    requires InPage(address, size) < size && address + size <= CODE_TOP
    ensures Wrap(PageBase(address) + ICACHE_SIZE) == address + InPage(address, size)
  {
  }

  lemma StoreCodeStep(junk: nat -> Byte, icache: map<nat, Page>, address: nat, bytes: seq<Byte>)
    requires bytes != [] && address + |bytes| <= CODE_TOP
    ensures var n := InPage(address, |bytes|);
            StoreCode(junk, icache, address, bytes) ==
              StoreCode(junk, StoreInPage(junk, icache, address, bytes[..n]), address + n, bytes[n..])
  {
    var n := InPage(address, |bytes|);
    if n < |bytes| {
      NextPage(address, |bytes|);
    }
  }

  lemma ImageSlices(image: nat -> Byte, address: nat, bytes: seq<Byte>, n: nat)
    requires ImageBytes(image, address, bytes) && n <= |bytes|
    ensures ImageBytes(image, address, bytes[..n]) && ImageBytes(image, address + n, bytes[n..])
  {
    var rest := bytes[n..];
    forall k | 0 <= k < |rest|
      ensures rest[k] == image(address + n + k)
    {
      assert rest[k] == bytes[n + k];
    }
  }

  /** Storing image bytes covers their addresses, whatever a freshly allocated page held before. */
  lemma {:induction false} StoreCovers(junk: nat -> Byte, image: nat -> Byte, icache: map<nat, Page>, address: nat,
                                       bytes: seq<Byte>)
    requires address + |bytes| <= CODE_TOP && ImageBytes(image, address, bytes)
    ensures var m := StoreCode(junk, icache, address, bytes);
            Grows(image, icache, m) && CoveredRange(image, m, address, |bytes|)
    decreases |bytes|
  {
    if bytes != [] {
      var n := InPage(address, |bytes|);
      var here, rest := bytes[..n], bytes[n..];
      ImageSlices(image, address, bytes, n);
      StoreInPageCovers(junk, image, icache, address, here);
      var m1 := StoreInPage(junk, icache, address, here);
      StoreCovers(junk, image, m1, address + n, rest);
      var m2 := StoreCode(junk, m1, address + n, rest);
      CoveredJoin(image, icache, m1, m2, address, n, |bytes|);
      assert StoreCode(junk, icache, address, bytes) == m2 by {
        StoreCodeStep(junk, icache, address, bytes);
      }
    }
  }

  // ---- The relation between the two sides

  /** Every address the writer counts as sent is covered on the reader's side. */
  ghost predicate CodeSent(cfg: Config, sizeOf: nat -> nat, sent: set<nat>, icache: map<nat, Page>) {
    forall b | b in sent ::
      if cfg.perInsn then CoveredRange(cfg.image, icache, b, sizeOf(b))
      else b % ICACHE_SIZE == 0 && CoveredRange(cfg.image, icache, b, ICACHE_SIZE)
  }

  ghost predicate MapsSent(cfg: Config, sent: set<nat>, vcache: map<nat, nat>) {
    vcache.Keys == sent && forall vp | vp in sent :: vcache[vp] == Lookup(cfg, vp) != 0
  }

  /** Every cached decode is right, and every successor pointer leads to a cached decode. */
  ghost predicate StaticsRight(cfg: Config, sizeOf: nat -> nat, r: RState) {
    && (forall a | a in r.scache :: r.scache[a] == Static(sizeOf(a), Code(cfg.image, a, sizeOf(a))))
    && (forall a | a in r.next :: r.next[a] in r.scache)
    && (r.last.Some? ==> r.last.value in r.scache)
  }

  ghost predicate Synced(cfg: Config, sizeOf: nat -> nat, w: WState, r: RState) {
    && w.lastAddress == r.lastAddress
    && CodeSent(cfg, sizeOf, w.icache, r.icache)
    && MapsSent(cfg, w.va2pa, r.vcache)
    && StaticsRight(cfg, sizeOf, r)
  }

  ghost predicate ValidConfig(cfg: Config) { forall vp :: cfg.pagemap(vp) < TWO_64 }

  ghost predicate ValidString(s: seq<Byte>) { 0 !in s && |s| + 1 < 0x1_0000 }

  /** What the writer's callers owe it, with one instruction size per address and no code in the last page of memory. */
  ghost predicate ValidCall(sizeOf: nat -> nat, call: Call) {
    match call
    case Execute(i) =>
      0 < i.size < 16 && i.size == sizeOf(i.addr) && i.addr + i.size <= CODE_TOP && AddressesFit(i.addresses)
    case CacheOnly(icount, kind, eip, address) => icount < 256 && kind < 256 && U64(eip) && U64(address)
    case Output(fd, data) => fd < 256 && 0 < |data| && |data| + 1 < TWO_32
    case RoutineChange(event, eip, esp, callEip) => event < 256 && U64(eip) && U64(esp) && U64(callEip)
    case RoutineAnnounce(eip, name, imgname, offset, line, column, filename) =>
      U64(eip) && ValidString(name) && ValidString(imgname) && ValidString(filename) && U64(offset) && line < TWO_32
        && column < TWO_32
    case Request(code, ints, blob) =>
      IsRequest(code) && Fits(Layout(code), ints) && BlobAllowed(code, |blob|) && Sum(Layout(code)) + |blob| < TWO_32
  }

  /** The address the next instruction is expected at. */
  function LastAfter(last: nat, call: Call): nat {
    if call.Execute? then Wrap(call.insn.addr + call.insn.size) else last
  }

  /** The flag is not sent with an instruction that is not predicated and is where it is expected. */
  function AsDelivered(last: nat, i: Instruction): Instruction {
    i.(executed := i.executed || (i.addr == last && !i.isPredicate))
  }

  predicate KeepsFlag(last: nat, call: Call) {
    call.Execute? ==> call.insn.isPredicate || call.insn.executed || call.insn.addr != last
  }

  /** What the writer was told. */
  function EventOf(cfg: Config, call: Call): Event {
    match call
    case Execute(i) => Executed(i, Code(cfg.image, i.addr, i.size))
    case _ => Callback(call)
  }

  /** What the reader delivers for it. */
  function EventFor(cfg: Config, last: nat, call: Call): Event {
    match call
    case Execute(i) => Executed(AsDelivered(last, i), Code(cfg.image, i.addr, i.size))
    case _ => Callback(call)
  }

  lemma {:induction false} MapsReceived(cfg: Config, junk: nat -> Byte, sent: set<nat>, vas: seq<nat>, r: RState)
    returns (v: map<nat, nat>)
    requires ValidConfig(cfg) && MapsSent(cfg, sent, r.vcache) && forall va | va in vas :: U64(va)
    ensures var (records, sent') := Va2paRecords(cfg, sent, vas);
            && Body(records) && sent <= sent' && Announced(cfg, sent', vas)
            && ReceiveAll(junk, r, records) == Some(r.(vcache := v)) && MapsSent(cfg, sent', v)
    decreases |vas|
  {
    if vas == [] || !cfg.sendVa2pa {
      v := r.vcache;
    } else {
      var vp := vas[0] / PAGE_SIZE;
      assert vas[0] in vas;
      if vp in sent || Lookup(cfg, vp) == 0 {
        v := MapsReceived(cfg, junk, sent, vas[1..], r);
      } else {
        var rec := Other(REC_LOGICAL2PHYSICAL, [vp, Lookup(cfg, vp)], []);
        var r1 := r.(vcache := r.vcache[vp := Lookup(cfg, vp)]);
        MapRecordReceived(cfg, junk, r, vp);
        v := MapsReceived(cfg, junk, sent + {vp}, vas[1..], r1);
        var tail := Va2paRecords(cfg, sent + {vp}, vas[1..]).0;
        assert ([rec] + tail)[1..] == tail;
      }
    }
  }

  lemma MapRecordReceived(cfg: Config, junk: nat -> Byte, r: RState, vp: nat)
    requires ValidConfig(cfg) && vp < TWO_64
    ensures var rec := Other(REC_LOGICAL2PHYSICAL, [vp, Lookup(cfg, vp)], []);
            WellFormed(rec) && Receive(junk, r, rec) == Some(r.(vcache := r.vcache[vp := Lookup(cfg, vp)]))
  {
    Widths();
    assert Sum([8, 8]) == 16;
  }

  lemma PageRecordReceived(cfg: Config, junk: nat -> Byte, r: RState, base: nat)
    requires base % ICACHE_SIZE == 0 && base < TWO_64
    ensures var rec := Other(REC_ICACHE, [base], Code(cfg.image, base, ICACHE_SIZE));
            var m := r.icache[base := Code(cfg.image, base, ICACHE_SIZE)];
            && WellFormed(rec) && Receive(junk, r, rec) == Some(r.(icache := m))
            && Grows(cfg.image, r.icache, m) && CoveredRange(cfg.image, m, base, ICACHE_SIZE)
  {
    Widths();
    assert Sum([8]) == 8;
    var m := r.icache[base := Code(cfg.image, base, ICACHE_SIZE)];
    forall a: nat | Covered(cfg.image, r.icache, a)
      ensures Covered(cfg.image, m, a)
    {
      if PageBase(a) == base {
        assert Code(cfg.image, base, ICACHE_SIZE)[a % ICACHE_SIZE] == cfg.image(a);
      }
    }
    SamePage(base, ICACHE_SIZE);
  }

  lemma CodeSentGrows(cfg: Config, sizeOf: nat -> nat, sent: set<nat>, m: map<nat, Page>, m': map<nat, Page>)
    requires CodeSent(cfg, sizeOf, sent, m) && Grows(cfg.image, m, m')
    ensures CodeSent(cfg, sizeOf, sent, m')
  {
    forall b | b in sent
      ensures if cfg.perInsn then CoveredRange(cfg.image, m', b, sizeOf(b))
                else CoveredRange(cfg.image, m', b, ICACHE_SIZE)
    {
    }
  }

  ghost predicate IcacheReached(cfg: Config, junk: nat -> Byte, r: RState, records: seq<Record>, sizeOf: nat -> nat,
                                sent: set<nat>, m: map<nat, Page>) {
    ReceiveAll(junk, r, records) == Some(r.(icache := m)) && CodeSent(cfg, sizeOf, sent, m)
  }

  /** The writer counts all pages of the range as sent afterwards. */
  lemma {:induction false} PagesSent(cfg: Config, sent: set<nat>, base: nat, last: nat)
    requires base % ICACHE_SIZE == 0
    ensures var sent' := PageRecords(cfg, sent, base, last).1;
            sent <= sent' && forall b: nat | base <= b <= last && b % ICACHE_SIZE == 0 :: b in sent'
    decreases last - base
  {
    if base <= last {
      PagesSent(cfg, sent + {base}, base + ICACHE_SIZE, last);
      assert base in sent ==> sent + {base} == sent;
      forall b: nat | base <= b <= last && b % ICACHE_SIZE == 0
        ensures b == base || base + ICACHE_SIZE <= b
      {
      }
    }
  }

  lemma {:induction false} PagesReceived(cfg: Config, junk: nat -> Byte, sizeOf: nat -> nat, sent: set<nat>, base: nat,
                                         last: nat, r: RState)
    returns (m: map<nat, Page>)
    requires !cfg.perInsn && base % ICACHE_SIZE == 0 && last < TWO_64 && CodeSent(cfg, sizeOf, sent, r.icache)
    ensures var (records, sent') := PageRecords(cfg, sent, base, last);
            Body(records) && IcacheReached(cfg, junk, r, records, sizeOf, sent', m)
    decreases last - base
  {
    if base > last {
      m := r.icache;
    } else if base in sent {
      m := PagesReceived(cfg, junk, sizeOf, sent, base + ICACHE_SIZE, last, r);
    } else {
      var rec := Other(REC_ICACHE, [base], Code(cfg.image, base, ICACHE_SIZE));
      PageRecordReceived(cfg, junk, r, base);
      var r1 := r.(icache := r.icache[base := Code(cfg.image, base, ICACHE_SIZE)]);
      CodeSentGrows(cfg, sizeOf, sent, r.icache, r1.icache);
      m := PagesReceived(cfg, junk, sizeOf, sent + {base}, base + ICACHE_SIZE, last, r1);
      var (tail, _) := PageRecords(cfg, sent + {base}, base + ICACHE_SIZE, last);
      assert ([rec] + tail)[1..] == tail;
    }
  }

  lemma TwoPages(sent: set<nat>, addr: nat, size: nat, a: nat)
    requires 0 < size < 16 && addr <= a < addr + size
    requires forall b: nat | PageBase(addr) <= b <= PageBase(addr + size - 1) && b % ICACHE_SIZE == 0 :: b in sent
    ensures PageBase(a) in sent && PageBase(a) <= a < PageBase(a) + ICACHE_SIZE
  {
    assert PageBase(a) == PageBase(addr) || PageBase(a) == PageBase(addr + size - 1);
  }

  lemma InstructionCodeReceived(cfg: Config, junk: nat -> Byte, sizeOf: nat -> nat, sent: set<nat>, addr: nat,
                                r: RState)
    requires cfg.perInsn && CodeSent(cfg, sizeOf, sent, r.icache) && 0 < sizeOf(addr) < 16
             && addr + sizeOf(addr) <= CODE_TOP
    ensures var bytes := Code(cfg.image, addr, sizeOf(addr));
            var rec := Other(REC_ICACHE_VARIABLE, [addr], bytes);
            var m := StoreCode(junk, r.icache, addr, bytes);
            && WellFormed(rec) && Receive(junk, r, rec) == Some(r.(icache := m))
            && CodeSent(cfg, sizeOf, sent + {addr}, m)
  {
    var bytes := Code(cfg.image, addr, sizeOf(addr));
    var m := StoreCode(junk, r.icache, addr, bytes);
    StoreCovers(junk, cfg.image, r.icache, addr, bytes);
    CodeSentGrows(cfg, sizeOf, sent, r.icache, m);
    Widths();
    assert Sum([8]) == 8;
  }

  /** Once a call's code records are received, the reader holds every byte of its instruction. */
  lemma CodeReceived(cfg: Config, junk: nat -> Byte, sizeOf: nat -> nat, sent: set<nat>, addr: nat, size: nat,
                     r: RState)
    returns (m: map<nat, Page>)
    requires CodeSent(cfg, sizeOf, sent, r.icache) && 0 < size < 16 && size == sizeOf(addr) && addr + size <= CODE_TOP
    ensures var (records, sent') := CodeRecords(cfg, sent, addr, size);
            && Body(records)
            && IcacheReached(cfg, junk, r, records, sizeOf, sent', m)
            && CoveredRange(cfg.image, m, addr, size)
  {
    if !cfg.perInsn {
      m := PagesReceived(cfg, junk, sizeOf, sent, PageBase(addr), PageBase(addr + size - 1), r);
      PagesSent(cfg, sent, PageBase(addr), PageBase(addr + size - 1));
      forall a: nat | addr <= a < addr + size
        ensures Covered(cfg.image, m, a)
      {
        TwoPages(CodeRecords(cfg, sent, addr, size).1, addr, size, a);
      }
    } else if addr in sent {
      m := r.icache;
    } else {
      m := StoreCode(junk, r.icache, addr, Code(cfg.image, addr, size));
      InstructionCodeReceived(cfg, junk, sizeOf, sent, addr, r);
      assert CodeRecords(cfg, sent, addr, size).0[1..] == [];
      assert addr in sent + {addr};
    }
  }

  /** The static instruction found for an address is the cached object for it and has the image's bytes. */
  lemma StaticReceived(cfg: Config, sizeOf: nat -> nat, r: RState, addr: nat, size: nat)
    requires StaticsRight(cfg, sizeOf, r) && size == sizeOf(addr) && addr + size <= CODE_TOP
    requires CoveredRange(cfg.image, r.icache, addr, size)
    ensures var s := StaticAt(r, addr, size);
            && s.Some? && s.value.1 == Static(size, Code(cfg.image, addr, size))
            && s.value.0.scache[addr] == s.value.1
            && StaticsRight(cfg, sizeOf, s.value.0)
  {
    GatherCovered(cfg.image, r.icache, addr, size);
  }

  lemma RecordDescribes(junk: nat -> Byte, sizeOf: nat -> nat, r: RState, i: Instruction)
    requires ValidCall(sizeOf, Execute(i))
    ensures var rec := InstructionRecord(r.lastAddress, i);
            WellFormed(rec) && Receive(junk, r, rec) == ReceiveInstruction(r, AsDelivered(r.lastAddress, i))
  {
  }

  lemma InstructionReceived(cfg: Config, junk: nat -> Byte, sizeOf: nat -> nat, r: RState, i: Instruction)
    requires ValidCall(sizeOf, Execute(i)) && StaticsRight(cfg, sizeOf, r)
             && CoveredRange(cfg.image, r.icache, i.addr, i.size)
    ensures ReceiveInstruction(r, i).Some?
    ensures var r' := ReceiveInstruction(r, i).value;
            && r'.lastAddress == Wrap(i.addr + i.size) && r'.icache == r.icache && r'.vcache == r.vcache
            && StaticsRight(cfg, sizeOf, r')
            && r'.log == r.log + [EventOf(cfg, Execute(i))]
  {
    StaticReceived(cfg, sizeOf, r, i.addr, i.size);
  }

  lemma {:induction false} CStringOf(s: seq<Byte>)
    requires 0 !in s
    ensures CString(s + [0]) == s
  {
    if s != [] {
      assert s[0] in s;
      assert (s + [0])[1..] == s[1..] + [0];
      CStringOf(s[1..]);
      assert [s[0]] + s[1..] == s;
    }
  }

  lemma CallbackReceived(junk: nat -> Byte, sizeOf: nat -> nat, r: RState, call: Call)
    requires !call.Execute? && ValidCall(sizeOf, call)
    ensures var rec := CallRecord(r.lastAddress, call);
            && WellFormed(rec) && !(rec.Other? && rec.code == REC_END)
            && Receive(junk, r, rec) == Some(r.(log := r.log + [Callback(call)]))
  {
    Widths();
    FixedSizes();
    if call.RoutineAnnounce? {
      CStringOf(call.name);
      CStringOf(call.imgname);
      CStringOf(call.filename);
    }
  }

  /** What receiving the record of a call does: one event, and the reader's address moves with the writer's. */
  ghost predicate Receives(cfg: Config, junk: nat -> Byte, sizeOf: nat -> nat, r: RState, call: Call, r': RState) {
    var rec := CallRecord(r.lastAddress, call);
    && WellFormed(rec) && !(rec.Other? && rec.code == REC_END) && Receive(junk, r, rec) == Some(r')
    && r'.lastAddress == LastAfter(r.lastAddress, call) && r'.icache == r.icache && r'.vcache == r.vcache
    && StaticsRight(cfg, sizeOf, r')
    && r'.log == r.log + [EventFor(cfg, r.lastAddress, call)]
  }

  lemma EventDelivered(cfg: Config, last: nat, i: Instruction)
    ensures EventFor(cfg, last, Execute(i)) == EventOf(cfg, Execute(AsDelivered(last, i)))
  {
  }

  lemma ExecuteReceived(cfg: Config, junk: nat -> Byte, sizeOf: nat -> nat, r: RState, i: Instruction)
    returns (r': RState)
    requires ValidCall(sizeOf, Execute(i)) && StaticsRight(cfg, sizeOf, r)
             && CoveredRange(cfg.image, r.icache, i.addr, i.size)
    ensures Receives(cfg, junk, sizeOf, r, Execute(i), r')
  {
    var d := AsDelivered(r.lastAddress, i);
    EventDelivered(cfg, r.lastAddress, i);
    RecordDescribes(junk, sizeOf, r, i);
    InstructionReceived(cfg, junk, sizeOf, r, d);
    r' := ReceiveInstruction(r, d).value;
  }

  lemma OtherReceived(cfg: Config, junk: nat -> Byte, sizeOf: nat -> nat, r: RState, call: Call) returns (r': RState)
    requires ValidCall(sizeOf, call) && !call.Execute? && StaticsRight(cfg, sizeOf, r)
    ensures Receives(cfg, junk, sizeOf, r, call, r')
  {
    CallbackReceived(junk, sizeOf, r, call);
    r' := r.(log := r.log + [Callback(call)]);
  }

  lemma CallRecordReceived(cfg: Config, junk: nat -> Byte, sizeOf: nat -> nat, w: WState, r: RState, call: Call)
    returns (r': RState)
    requires ValidCall(sizeOf, call) && w.lastAddress == r.lastAddress && StaticsRight(cfg, sizeOf, r)
    requires call.Execute? ==> CoveredRange(cfg.image, r.icache, call.insn.addr, call.insn.size)
    ensures var rec := CallRecord(w.lastAddress, call);
            && Body([rec]) && ReceiveAll(junk, r, [rec]) == Some(r')
            && r'.lastAddress == WriterStep(cfg, w, call).0.lastAddress
            && r'.icache == r.icache && r'.vcache == r.vcache
            && StaticsRight(cfg, sizeOf, r')
            && r'.log == r.log + [EventFor(cfg, w.lastAddress, call)]
  {
    if call.Execute? {
      r' := ExecuteReceived(cfg, junk, sizeOf, r, call.insn);
    } else {
      r' := OtherReceived(cfg, junk, sizeOf, r, call);
    }
    ReceiveOne(junk, r, CallRecord(w.lastAddress, call));
  }

  lemma ReceiveOne(junk: nat -> Byte, r: RState, rec: Record)
    ensures ReceiveAll(junk, r, [rec]) == Receive(junk, r, rec)
  {
    var r' := Receive(junk, r, rec);
    if r'.Some? {
      assert ReceiveAll(junk, r'.value, [rec][1..]) == Some(r'.value);
    }
  }

  lemma ReceiveThree(junk: nat -> Byte, r: RState, a: seq<Record>, r1: RState, b: seq<Record>, r2: RState,
                     c: seq<Record>, r3: RState)
    requires Body(a) && Body(b) && Body(c)
    requires ReceiveAll(junk, r, a) == Some(r1) && ReceiveAll(junk, r1, b) == Some(r2)
             && ReceiveAll(junk, r2, c) == Some(r3)
    ensures Body((a + b) + c) && ReceiveAll(junk, r, (a + b) + c) == Some(r3)
  {
    ReceiveConcat(junk, r, a, b);
    ReceiveConcat(junk, r, a + b, c);
  }

  lemma CodeOfReceived(cfg: Config, junk: nat -> Byte, sizeOf: nat -> nat, w: WState, r: RState, call: Call)
    returns (m: map<nat, Page>)
    requires CodeSent(cfg, sizeOf, w.icache, r.icache) && ValidCall(sizeOf, call)
    ensures var (records, sent') := CodeOf(cfg, w, call);
            && Body(records) && ReceiveAll(junk, r, records) == Some(r.(icache := m)) && CodeSent(cfg, sizeOf, sent', m)
            && (call.Execute? ==> CoveredRange(cfg.image, m, call.insn.addr, call.insn.size))
  {
    if call.Execute? {
      m := CodeReceived(cfg, junk, sizeOf, w.icache, call.insn.addr, call.insn.size, r);
    } else {
      m := r.icache;
    }
  }

  lemma TouchedFit(sizeOf: nat -> nat, call: Call)
    requires ValidCall(sizeOf, call)
    ensures forall va | va in Touched(call) :: U64(va)
  {
    Widths();
    if call.Request? {
      if |call.blob| >= 8 { FromLEBound(call.blob[0..8]); }
      if |call.blob| >= 16 { FromLEBound(call.blob[8..16]); }
    }
  }

  /** Every mapped page among the given addresses has been announced. */
  ghost predicate Announced(cfg: Config, sent: set<nat>, vas: seq<nat>) {
    cfg.sendVa2pa ==> forall va | va in vas :: Lookup(cfg, va / PAGE_SIZE) != 0 ==> va / PAGE_SIZE in sent
  }

  /** One writer call received: exactly its event, and both sides still in step. */
  lemma CallReceived(cfg: Config, junk: nat -> Byte, sizeOf: nat -> nat, w: WState, r: RState, call: Call)
    returns (r': RState)
    requires ValidConfig(cfg) && Synced(cfg, sizeOf, w, r) && ValidCall(sizeOf, call)
    ensures var (w', records) := WriterStep(cfg, w, call);
            && Body(records) && ReceiveAll(junk, r, records) == Some(r')
            && Synced(cfg, sizeOf, w', r')
            && r'.log == r.log + [EventFor(cfg, w.lastAddress, call)]
            && w.va2pa <= w'.va2pa && Announced(cfg, w'.va2pa, Touched(call))
  {
    var code, maps := CodeOf(cfg, w, call).0, Va2paRecords(cfg, w.va2pa, Touched(call)).0;
    var m := CodeOfReceived(cfg, junk, sizeOf, w, r, call);
    var r1 := r.(icache := m);
    TouchedFit(sizeOf, call);
    var v := MapsReceived(cfg, junk, w.va2pa, Touched(call), r1);
    var r2 := r1.(vcache := v);
    r' := CallRecordReceived(cfg, junk, sizeOf, w, r2, call);
    ReceiveThree(junk, r, code, r1, maps, r2, [CallRecord(w.lastAddress, call)], r');
  }

  /** What the reader delivers for a run of calls. */
  function Events(cfg: Config, last: nat, calls: seq<Call>): seq<Event>
    decreases |calls|
  {
    if calls == [] then [] else [EventFor(cfg, last, calls[0])] + Events(cfg, LastAfter(last, calls[0]), calls[1..])
  }

  /** What the writer was told by a run of calls. */
  function Told(cfg: Config, calls: seq<Call>): seq<Event> {
    if calls == [] then [] else [EventOf(cfg, calls[0])] + Told(cfg, calls[1..])
  }

  predicate KeepsFlags(last: nat, calls: seq<Call>)
    decreases |calls|
  {
    calls != [] ==> KeepsFlag(last, calls[0]) && KeepsFlags(LastAfter(last, calls[0]), calls[1..])
  }

  /**
   * The one flag the format can lose. What is delivered is what was told, if and only if no instruction that is
   * neither predicated nor executed comes where the next one is expected: such a one is delivered as executed.
   */
  lemma {:induction false} ToldExactlyWhen(cfg: Config, last: nat, calls: seq<Call>)
    ensures |Events(cfg, last, calls)| == |Told(cfg, calls)| == |calls|
    ensures Events(cfg, last, calls) == Told(cfg, calls) <==> KeepsFlags(last, calls)
    decreases |calls|
  {
    if calls != [] {
      var last' := LastAfter(last, calls[0]);
      ToldExactlyWhen(cfg, last', calls[1..]);
      var e, t, es, ts := EventFor(cfg, last, calls[0]), EventOf(cfg, calls[0]), Events(cfg, last', calls[1..]),
                          Told(cfg, calls[1..]);
      assert ([e] + es)[1..] == es && ([t] + ts)[1..] == ts;
      assert e == t <==> KeepsFlag(last, calls[0]);
    }
  }

  /** The last pages of the address space, which stand for themselves. */
  predicate VsyscallPage(page: nat) { 0xffffffffff600 <= page < 0xfffffffffffff }

  /**
   * The reader translates an address by the page map: to its place in the physical page, to zero if the page is not
   * mapped, and to itself in the vsyscall pages or if the trace has no physical addresses.
   */
  ghost predicate TranslatedAt(cfg: Config, r: RState, va: nat) {
    var page, pa := va / 4096, Va2pa(cfg.sendVa2pa, r, va);
    if !cfg.sendVa2pa || VsyscallPage(page) then pa == va
    else if cfg.pagemap(page) == 0 then pa == 0
    else pa == cfg.pagemap(page) * 4096 % TWO_64 + va % 4096
  }

  /** The addresses a call names: code, data, and the pointers handed to the futex and write system calls. */
  ghost predicate Names(call: Call, va: nat) {
    match call
    case Execute(i) => va == i.addr || va in i.addresses
    case CacheOnly(_, _, eip, address) => va == eip || va == address
    case Request(code, ints, blob) =>
      && code == REC_SYSCALL_REQUEST && |ints| == 1
      && (|| (ints[0] == 202 && |blob| >= 8 && va == FromLE(blob[0..8]))
          || (ints[0] == 1 && |blob| >= 16 && va == FromLE(blob[8..16])))
    case _ => false
  }

  /** After the calls, the reader translates every address they name. */
  ghost predicate Translated(cfg: Config, r: RState, calls: seq<Call>) {
    forall c, va {:trigger Names(c, va)} | c in calls && Names(c, va) :: TranslatedAt(cfg, r, va)
  }

  lemma TranslatedOne(cfg: Config, r: RState, sent: set<nat>, touched: seq<nat>, va: nat)
    requires MapsSent(cfg, sent, r.vcache) && Announced(cfg, sent, touched) && va in touched
    ensures TranslatedAt(cfg, r, va)
  {
    if cfg.sendVa2pa {
      var page := va / PAGE_SIZE;
      assert page in r.vcache <==> Lookup(cfg, page) != 0;
    }
  }

  lemma NamesTouched(call: Call, va: nat)
    requires Names(call, va)
    ensures va in Touched(call)
  {
  }

  lemma TranslatedBySent(cfg: Config, r: RState, sent: set<nat>, calls: seq<Call>)
    requires MapsSent(cfg, sent, r.vcache) && forall c | c in calls :: Announced(cfg, sent, Touched(c))
    ensures Translated(cfg, r, calls)
  {
    forall c, va | c in calls && Names(c, va)
      ensures TranslatedAt(cfg, r, va)
    {
      NamesTouched(c, va);
      TranslatedOne(cfg, r, sent, Touched(c), va);
    }
  }

  lemma ReadThrough(junk: nat -> Byte, r: RState, records: seq<Record>, r1: RState, rest: seq<Record>)
    requires Body(records) && ReceiveAll(junk, r, records) == Some(r1)
    ensures ReadTrace(junk, r, SerializeAll(records + rest)) == ReadTrace(junk, r1, SerializeAll(rest))
  {
    SerializeConcat(records, rest);
    ReadBody(junk, r, records, SerializeAll(rest));
  }

  /** All mappings of the calls have been announced, and the events are those of the calls. */
  ghost predicate Delivered(cfg: Config, log: seq<Event>, last: nat, calls: seq<Call>, sent: set<nat>, r': RState) {
    && r'.log == log + Events(cfg, last, calls)
    && MapsSent(cfg, sent, r'.vcache)
    && forall c | c in calls :: Announced(cfg, sent, Touched(c))
  }

  lemma DeliveredCons(cfg: Config, log: seq<Event>, last: nat, calls: seq<Call>, sent1: set<nat>, sent: set<nat>,
                      r': RState)
    requires calls != [] && sent1 <= sent && Announced(cfg, sent1, Touched(calls[0]))
    requires Delivered(cfg, log + [EventFor(cfg, last, calls[0])], LastAfter(last, calls[0]), calls[1..], sent, r')
    ensures Delivered(cfg, log, last, calls, sent, r')
  {
    var e, more := EventFor(cfg, last, calls[0]), Events(cfg, LastAfter(last, calls[0]), calls[1..]);
    assert log + ([e] + more) == (log + [e]) + more;
    assert forall c | c in calls :: c == calls[0] || c in calls[1..];
  }

  lemma TraceRecordsCons(cfg: Config, w: WState, calls: seq<Call>)
    requires calls != []
    ensures var (w1, records) := WriterStep(cfg, w, calls[0]);
            TraceRecords(cfg, w, calls) == records + TraceRecords(cfg, w1, calls[1..])
  {
  }

  lemma {:induction false} TraceReceived(cfg: Config, junk: nat -> Byte, sizeOf: nat -> nat, w: WState, r: RState,
                                         calls: seq<Call>)
    returns (r': RState, sent: set<nat>)
    requires ValidConfig(cfg) && Synced(cfg, sizeOf, w, r) && forall c | c in calls :: ValidCall(sizeOf, c)
    ensures ReadTrace(junk, r, SerializeAll(TraceRecords(cfg, w, calls))) == Some(r')
    ensures w.va2pa <= sent && Delivered(cfg, r.log, w.lastAddress, calls, sent, r')
    decreases |calls|
  {
    if calls == [] {
      ReadEnd(junk, r);
      r', sent := r, w.va2pa;
      assert r.log + Events(cfg, w.lastAddress, calls) == r.log;
    } else {
      assert calls[0] in calls;
      var (w1, records) := WriterStep(cfg, w, calls[0]);
      var r1 := CallReceived(cfg, junk, sizeOf, w, r, calls[0]);
      r', sent := TraceReceived(cfg, junk, sizeOf, w1, r1, calls[1..]);
      TraceRecordsCons(cfg, w, calls);
      ReadThrough(junk, r, records, r1, TraceRecords(cfg, w1, calls[1..]));
      DeliveredCons(cfg, r.log, w.lastAddress, calls, w1.va2pa, sent, r');
    }
  }

  /**
   * Whole-trace round trip, from any point at which the two sides are in step. For every run of valid writer calls
   * closed by End, and whatever the reader's freshly allocated pages held, the reader raises no assertion and
   * delivers the calls in their order: every instruction with its address, flags, data addresses and code bytes,
   * every callback with its arguments, and every touched page with its physical mapping. All of it is as the writer
   * was told, if and only if no instruction loses its executed flag.
   */
  lemma TraceRoundTrip(cfg: Config, junk: nat -> Byte, sizeOf: nat -> nat, w: WState, r: RState, calls: seq<Call>)
    requires ValidConfig(cfg) && forall c | c in calls :: ValidCall(sizeOf, c)
    requires Synced(cfg, sizeOf, w, r)
    ensures var result := ReadTrace(junk, r, SerializeAll(TraceRecords(cfg, w, calls)));
            && result.Some? && result.value.log == r.log + Events(cfg, w.lastAddress, calls)
            && (result.value.log == r.log + Told(cfg, calls) <==> KeepsFlags(w.lastAddress, calls))
            && Translated(cfg, result.value, calls)
  {
    var r', sent := TraceReceived(cfg, junk, sizeOf, w, r, calls);
    TranslatedBySent(cfg, r', sent, calls);
    ToldExactlyWhen(cfg, w.lastAddress, calls);
    SameTail(r.log, Events(cfg, w.lastAddress, calls), Told(cfg, calls));
  }

  lemma SameTail(log: seq<Event>, a: seq<Event>, b: seq<Event>)
    ensures log + a == log + b <==> a == b
  {
    assert (log + a)[|log|..] == a && (log + b)[|log|..] == b;
  }

  /** A new writer and a new reader are in step. */
  lemma StartInStep(cfg: Config, sizeOf: nat -> nat)
    ensures Synced(cfg, sizeOf, WRITER_START, READER_START)
  {
  }
}
