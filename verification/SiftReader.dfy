/** The SIFT reader as an object: it consumes its input stream and caches code pages and decoded instructions. */
module SiftReader {
  import opened Prelude
  import opened Bytes
  import opened SiftFormat
  import opened SiftTrace

  class StaticInstruction {
    const addr: nat
    const size: nat
    const data: seq<Byte>
    var next: StaticInstruction?

    constructor (addr: nat, size: nat, data: seq<Byte>)
      ensures this.addr == addr && this.size == size && this.data == data && next == null
    {
      this.addr, this.size, this.data, this.next := addr, size, data, null;
    }
  }

  datatype Outcome = NewInstruction | EndOfTrace | PastEnd | Assertion

  class Reader {
    const junk: nat -> Byte
    var input: seq<Byte>
    var lastAddress: nat
    var icache: map<nat, Page>
    var scache: map<nat, StaticInstruction>
    var lastSinst: StaticInstruction?
    var vcache: map<nat, nat>
    var seenEnd: bool
    var log: seq<Event>

    constructor (junk: nat -> Byte, input: seq<Byte>)
      ensures Valid() && State() == READER_START && this.input == input && this.junk == junk && !seenEnd
              && scache == map[]
    {
      this.junk, this.input := junk, input;
      lastAddress, icache, scache, lastSinst, vcache, seenEnd, log := 0, map[], map[], null, map[], false, [];
    }

    /** The instruction object is the one cached for its address. */
    ghost predicate Cached(s: StaticInstruction)
      reads this
    {
      s.addr in scache && scache[s.addr] == s
    }

    ghost predicate Valid()
      reads this, scache.Values
    {
      && (forall a | a in scache :: scache[a].addr == a)
      && (forall a | a in scache :: scache[a].next != null ==> Cached(scache[a].next))
      && (lastSinst != null ==> Cached(lastSinst))
    }

    ghost function Statics(): map<nat, Static>
      reads `scache
    {
      map a | a in scache :: Static(scache[a].size, scache[a].data)
    }

    ghost function Successors(): map<nat, nat>
      reads `scache, scache.Values
    {
      map a | a in scache && scache[a].next != null :: scache[a].next.addr
    }

    ghost function State(): RState
      reads this, scache.Values
    {
      RState(lastAddress, icache, Statics(), Successors(),
             if lastSinst == null then None else Some(lastSinst.addr), vcache, log)
    }

    /** Code bytes copied page by page; None when a page was never received. */
    method Decode(addr: nat, size: nat) returns (data: Option<seq<Byte>>)
      ensures data == Gather(icache, addr, size)
    {
      var done: seq<Byte> := [];
      var at: nat, left: nat := addr, size;
      ghost var all := Gather(icache, addr, size);
      assert all.Some? ==> done + all.value == all.value;
      while left > 0
        invariant Gather(icache, addr, size) ==
                  match Gather(icache, at, left) case None => None case Some(tail) => Some(done + tail)
      {
        var base: nat := PageBase(at);
        var offset, n := at % ICACHE_SIZE, InPage(at, left);
        if base !in icache {
          return None;
        }
        var chunk := icache[base][offset..offset + n];
        ghost var tail := Gather(icache, Wrap(base + ICACHE_SIZE), left - n);
        assert tail.Some? ==> done + (chunk + tail.value) == (done + chunk) + tail.value;
        done := done + chunk;
        left := left - n;
        at := Wrap(base + ICACHE_SIZE);
      }
      assert done + [] == done;
      return Some(done);
    }

    /** Bytes within one page, copied into it; the page is allocated if need be. */
    method StoreChunk(address: nat, chunk: seq<Byte>)
      requires |chunk| <= ICACHE_SIZE - address % ICACHE_SIZE
      modifies `icache
      ensures icache == StoreInPage(junk, old(icache), address, chunk)
    {
      var base: nat := PageBase(address);
      var offset := address % ICACHE_SIZE;
      if base !in icache {
        icache := icache[base := FreshPage(junk, base)];
      }
      var page := icache[base];
      icache := icache[base := page[..offset] + chunk + page[offset + |chunk|..]];
    }

    /** A per-instruction code record, spread over the pages it touches. */
    method Store(address: nat, bytes: seq<Byte>)
      modifies `icache
      ensures icache == StoreCode(junk, old(icache), address, bytes)
    {
      var at: nat, left := address, bytes;
      while left != []
        invariant StoreCode(junk, icache, at, left) == StoreCode(junk, old(icache), address, bytes)
        decreases |left|
      {
        var n := InPage(at, |left|);
        StoreChunk(at, left[..n]);
        left := left[n..];
        at := Wrap(PageBase(at) + ICACHE_SIZE);
      }
    }

    /** A new instruction object for an address the cache does not hold. */
    method AddStatic(addr: nat, size: nat, data: seq<Byte>) returns (sinst: StaticInstruction)
      requires Valid() && addr !in scache
      modifies `scache
      ensures Valid() && fresh(sinst) && scache == old(scache)[addr := sinst] && sinst.addr == addr
      ensures State() == old(State()).(scache := old(State()).scache[addr := Static(size, data)])
    {
      sinst := new StaticInstruction(addr, size, data);
      scache := scache[addr := sinst];
      assert Statics() == old(Statics())[addr := Static(size, data)];
      assert Successors() == old(Successors());
    }

    /** The cached instruction object for an address, decoded first if need be; null where the reader asserts. */
    method FindStatic(addr: nat, size: nat) returns (sinst: StaticInstruction?)
      requires Valid()
      modifies `scache
      ensures Valid()
      ensures sinst == null ==> scache == old(scache) && SiftTrace.FindStatic(old(State()), addr, size) == None
      ensures sinst != null ==> Cached(sinst) && sinst.addr == addr
      ensures sinst != null ==> SiftTrace.FindStatic(old(State()), addr, size) == Some(State().scache)
      ensures State() == old(State()).(scache := State().scache)
      ensures scache == old(scache) || (fresh(sinst) && scache == old(scache)[addr := sinst])
    {
      if lastSinst != null && lastSinst.next != null && lastSinst.next.addr == addr {
        sinst := lastSinst.next;
      } else if addr in scache {
        sinst := scache[addr];
        if sinst.size != size {
          sinst := null;
        }
      } else {
        var data := Decode(addr, size);
        if data == None {
          return null;
        }
        sinst := AddStatic(addr, size, data.value);
      }
    }

    /** The previous instruction learns its successor, once. */
    method Link(sinst: StaticInstruction)
      requires Valid() && Cached(sinst)
      modifies `lastSinst, scache.Values
      ensures Valid()
      ensures var r := old(State());
              State() == r.(next := if r.last.Some? && r.last.value !in r.next then r.next[r.last.value := sinst.addr]
                              else r.next,
                            last := Some(sinst.addr))
    {
      if lastSinst != null && lastSinst.next == null {
        lastSinst.next := sinst;
        assert Successors() == old(Successors())[lastSinst.addr := sinst.addr];
      }
      lastSinst := sinst;
    }

    /**
     * The static instruction at an address, or null where the reader asserts. Whichever of the three ways finds it,
     * it is the object the cache holds for that address.
     */
    method GetStaticInstruction(addr: nat, size: nat) returns (sinst: StaticInstruction?)
      requires Valid()
      modifies `scache, `lastSinst, scache.Values
      ensures Valid()
      ensures sinst == null ==> StaticAt(old(State()), addr, size) == None && State() == old(State())
      ensures sinst != null ==> Cached(sinst) && sinst.addr == addr
      ensures sinst != null ==> StaticAt(old(State()), addr, size) == Some((State(), Static(sinst.size, sinst.data)))
      ensures fresh(scache.Values - old(scache.Values))
    {
      sinst := FindStatic(addr, size);
      if sinst != null {
        Link(sinst);
      }
    }

    /** The instruction goes to the client, and the next one is expected right behind it. */
    method Deliver(i: Instruction, size: nat, data: seq<Byte>)
      requires Valid()
      modifies `lastAddress, `log
      ensures Valid()
      ensures State() == old(State()).(lastAddress := Wrap(i.addr + i.size),
                                       log := old(log) + [Executed(i.(size := size), data)])
    {
      lastAddress := Wrap(i.addr + i.size);
      log := log + [Executed(i.(size := size), data)];
    }

    /** A dynamic instruction: its static part is looked up and it is handed to the client. */
    method DeliverInstruction(i: Instruction) returns (ok: bool)
      requires Valid()
      modifies this, scache.Values
      ensures Valid() && fresh(scache.Values - old(scache.Values))
      ensures ok <==> ReceiveInstruction(old(State()), i).Some?
      ensures ok ==> ReceiveInstruction(old(State()), i) == Some(State())
      ensures input == old(input) && seenEnd == old(seenEnd)
    {
      var sinst := GetStaticInstruction(i.addr, i.size);
      if sinst == null {
        return false;
      }
      Deliver(i, sinst.size, sinst.data);
      return true;
    }

    /** Every record other than an instruction or End: it fills a cache, raises a callback, or is skipped. */
    method Handle(rec: Record)
      requires Valid() && !rec.Simple? && !rec.Extended?
      modifies `icache, `vcache, `log
      ensures Valid()
      ensures Receive(junk, old(State()), rec) == Some(State())
    {
      match rec
      case Announce(eip, name, imgname, offset, line, column, filename) =>
        log := log + [Callback(RoutineAnnounce(eip, CString(name), CString(imgname), offset, line, column,
                                               CString(filename)))];
      case Other(code, ints, blob) =>
        if code == REC_ICACHE && |ints| == 1 && |blob| == ICACHE_SIZE {
          icache := icache[ints[0] := blob];
        } else if code == REC_ICACHE_VARIABLE && |ints| == 1 {
          Store(ints[0], blob);
        } else if code == REC_LOGICAL2PHYSICAL && |ints| == 2 {
          vcache := vcache[ints[0] := ints[1]];
        } else if code == REC_CACHE_ONLY && |ints| == 4 {
          log := log + [Callback(CacheOnly(ints[0], ints[1], ints[2], ints[3]))];
        } else if code == REC_OUTPUT && |ints| == 1 {
          log := log + [Callback(Output(ints[0], blob))];
        } else if code == REC_ROUTINE_CHANGE && |ints| == 4 {
          log := log + [Callback(RoutineChange(ints[0], ints[1], ints[2], ints[3]))];
        } else if IsRequest(code) {
          log := log + [Callback(Request(code, ints, blob))];
        }
    }

    /** What one call of Read reports, and the reader afterwards. */
    ghost predicate Reports(result: ReadResult, outcome: Outcome)
      reads this, scache.Values
    {
      match result
      case Delivered(r, rest) => outcome == NewInstruction && State() == r && input == rest && !seenEnd
      case Finished(r, rest) => outcome == EndOfTrace && State() == r && input == rest && seenEnd
      case Asserts => outcome == Assertion
    }

    /** What is done with a record; None when Read goes on to the next one. */
    method Dispatch(rec: Record) returns (outcome: Option<Outcome>)
      requires Valid()
      modifies this, scache.Values
      ensures Valid() && fresh(scache.Values - old(scache.Values)) && input == old(input)
      ensures var ends := rec.Other? && rec.code == REC_END;
              && seenEnd == (old(seenEnd) || ends)
              && (ends ==> outcome == Some(EndOfTrace) && State() == old(State()))
              && (!ends && (rec.Simple? || rec.Extended?) ==>
                    match Receive(junk, old(State()), rec)
                    case None => outcome == Some(Assertion)
                    case Some(r) => outcome == Some(NewInstruction) && State() == r)
              && (!ends && !rec.Simple? && !rec.Extended? ==>
                    outcome == None && Receive(junk, old(State()), rec) == Some(State()))
    {
      if rec.Simple? || rec.Extended? {
        var ok := DeliverInstruction(InstructionOf(lastAddress, rec));
        return Some(if ok then NewInstruction else Assertion);
      } else if rec.Other? && rec.code == REC_END {
        seenEnd := true;
        return Some(EndOfTrace);
      }
      Handle(rec);
      return None;
    }

    /** One record; None when Read goes on to the next one. */
    method ReadRecord() returns (outcome: Option<Outcome>)
      requires Valid() && !seenEnd
      modifies this, scache.Values
      ensures Valid() && fresh(scache.Values - old(scache.Values))
      ensures outcome.Some? ==>
                outcome.value != PastEnd && Reports(ReadNext(junk, old(State()), old(input)), outcome.value)
      ensures outcome == None ==>
                !seenEnd && |input| < |old(input)|
                  && ReadNext(junk, State(), input) == ReadNext(junk, old(State()), old(input))
    {
      var parsed := Parse(input);
      if parsed == None {
        return Some(Assertion);
      }
      var (rec, rest) := parsed.value;
      input := rest;
      assert State() == old(State());
      outcome := Dispatch(rec);
    }

    /** One call of Read, which after the end of the trace reports success without an instruction. */
    method Read() returns (outcome: Outcome)
      requires Valid()
      modifies this, scache.Values
      ensures Valid() && fresh(scache.Values - old(scache.Values))
      ensures outcome == PastEnd <==> old(seenEnd)
      ensures old(seenEnd) ==> State() == old(State()) && input == old(input) && seenEnd
      ensures !old(seenEnd) ==> Reports(ReadNext(junk, old(State()), old(input)), outcome)
    {
      if seenEnd {
        return PastEnd;
      }
      ghost var all := ReadNext(junk, State(), input);
      while true
        invariant Valid() && fresh(scache.Values - old(scache.Values)) && !seenEnd
        invariant ReadNext(junk, State(), input) == all
        decreases |input|
      {
        var result := ReadRecord();
        if result.Some? {
          return result.value;
        }
      }
    }
  }
}
