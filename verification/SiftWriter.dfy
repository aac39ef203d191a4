/** The SIFT writer as an object that appends to its output stream. */
module SiftWriter {
  import opened Bytes
  import opened SiftFormat
  import opened SiftTrace

  lemma SerializeOne(r: Record)
    ensures SerializeAll([r]) == Serialize(r)
  {
    assert SerializeAll([r]) == Serialize(r) + SerializeAll([r][1..]);
  }

  lemma SerializeJoin(before: seq<Byte>, a: seq<Record>, b: seq<Record>)
    ensures before + SerializeAll(a + b) == (before + SerializeAll(a)) + SerializeAll(b)
  {
    SerializeConcat(a, b);
  }

  lemma SerializeThree(before: seq<Byte>, a: seq<Record>, b: seq<Record>, r: Record)
    ensures before + SerializeAll((a + b) + [r]) == ((before + SerializeAll(a)) + SerializeAll(b)) + Serialize(r)
  {
    SerializeJoin(before, a + b, [r]);
    SerializeJoin(before, a, b);
    SerializeOne(r);
  }

  lemma Va2paHead(cfg: Config, sent: set<nat>, vas: seq<nat>)
    requires vas != []
    ensures var (head, sent1) := Va2paRecords(cfg, sent, [vas[0]]);
            var (tail, sent2) := Va2paRecords(cfg, sent1, vas[1..]);
            Va2paRecords(cfg, sent, vas) == (head + tail, sent2)
  {
    var vp, one := vas[0] / PAGE_SIZE, [vas[0]];
    assert one[1..] == [] && one[0] == vas[0];
    if !cfg.sendVa2pa || vp in sent || Lookup(cfg, vp) == 0 {
      assert Va2paRecords(cfg, sent, one) == ([], sent);
      var tail := Va2paRecords(cfg, sent, vas[1..]).0;
      assert [] + tail == tail;
    } else {
      var rec := Other(REC_LOGICAL2PHYSICAL, [vp, Lookup(cfg, vp)], []);
      assert Va2paRecords(cfg, sent + {vp}, one[1..]) == ([], sent + {vp});
      assert Va2paRecords(cfg, sent, one) == ([rec] + [], sent + {vp});
      assert [rec] + [] == [rec];
    }
  }

  /** The record for one page, if it is still missing. */
  function PageHead(cfg: Config, sent: set<nat>, base: nat): seq<Record> {
    if base in sent then [] else [Other(REC_ICACHE, [base], Code(cfg.image, base, ICACHE_SIZE))]
  }

  ghost function PageBytes(cfg: Config, sent: set<nat>, base: nat, last: nat): seq<Byte> {
    SerializeAll(PageRecords(cfg, sent, base, last).0)
  }

  lemma PageBytesHead(cfg: Config, output: seq<Byte>, sent: set<nat>, base: nat, last: nat)
    requires base <= last
    ensures output + PageBytes(cfg, sent, base, last) ==
            (output + SerializeAll(PageHead(cfg, sent, base))) + PageBytes(cfg, sent + {base}, base + ICACHE_SIZE, last)
    ensures PageRecords(cfg, sent, base, last).1 == PageRecords(cfg, sent + {base}, base + ICACHE_SIZE, last).1
  {
    PageRecordsHead(cfg, sent, base, last);
    SerializeJoin(output, PageHead(cfg, sent, base), PageRecords(cfg, sent + {base}, base + ICACHE_SIZE, last).0);
  }

  lemma PageRecordsHead(cfg: Config, sent: set<nat>, base: nat, last: nat)
    requires base <= last
    ensures var (tail, sent') := PageRecords(cfg, sent + {base}, base + ICACHE_SIZE, last);
            PageRecords(cfg, sent, base, last) == (PageHead(cfg, sent, base) + tail, sent')
  {
    if base in sent {
      assert sent + {base} == sent;
      var (tail, _) := PageRecords(cfg, sent, base + ICACHE_SIZE, last);
      assert [] + tail == tail;
    }
  }

  /** A writer call took the stream and the state where the specification says. */
  ghost predicate Emitted(cfg: Config, w: WState, output: seq<Byte>, call: Call, w': WState, output': seq<Byte>) {
    var step := WriterStep(cfg, w, call);
    w' == step.0 && output' == output + SerializeAll(step.1)
  }

  lemma EmittedParts(cfg: Config, w: WState, output: seq<Byte>, call: Call, code: seq<Record>, maps: seq<Record>,
                     w': WState, output': seq<Byte>)
    requires CodeOf(cfg, w, call) == (code, w'.icache) && Va2paRecords(cfg, w.va2pa, Touched(call)) == (maps, w'.va2pa)
    requires w'.lastAddress == if call.Execute? then Wrap(call.insn.addr + call.insn.size) else w.lastAddress
    requires output' == ((output + SerializeAll(code)) + SerializeAll(maps))
             + Serialize(CallRecord(w.lastAddress, call))
    ensures Emitted(cfg, w, output, call, w', output')
  {
    SerializeThree(output, code, maps, CallRecord(w.lastAddress, call));
  }

  /** The parts of an instruction, one after the other. */
  lemma EmittedInstruction(cfg: Config, w: WState, i: Instruction, code: seq<Record>, maps: seq<Record>, w': WState,
                           outputs: seq<seq<Byte>>)
    requires CodeOf(cfg, w, Execute(i)) == (code, w'.icache)
             && Va2paRecords(cfg, w.va2pa, Touched(Execute(i))) == (maps, w'.va2pa)
    requires w'.lastAddress == Wrap(i.addr + i.size) && |outputs| == 4
    requires outputs[1] == outputs[0] + SerializeAll(code) && outputs[2] == outputs[1] + SerializeAll(maps)
    requires outputs[3] == outputs[2] + Serialize(InstructionRecord(w.lastAddress, i))
    ensures Emitted(cfg, w, outputs[0], Execute(i), w', outputs[3])
  {
    EmittedParts(cfg, w, outputs[0], Execute(i), code, maps, w', outputs[3]);
  }

  lemma Appended(output: seq<Byte>, header: seq<Byte>, ints: seq<Byte>, blob: seq<Byte>)
    ensures ((output + header) + ints) + blob == output + (header + (ints + blob))
  {
  }

  lemma EmittedAlone(cfg: Config, w: WState, output: seq<Byte>, call: Call, output': seq<Byte>)
    requires !call.Execute? && Touched(call) == [] && output' == output + Serialize(CallRecord(w.lastAddress, call))
    ensures Emitted(cfg, w, output, call, w, output')
  {
    var rec := CallRecord(w.lastAddress, call);
    SerializeOne(rec);
    assert ([] + []) + [rec] == [rec];
  }

  /** Integer fields appended one at a time. */
  method AppendInts(output: seq<Byte>, widths: seq<nat>, values: seq<nat>) returns (out: seq<Byte>)
    requires |widths| == |values|
    ensures out == output + EncodeInts(widths, values)
  {
    out := output;
    var i := 0;
    while i < |widths|
      invariant 0 <= i <= |widths|
      invariant out + EncodeInts(widths[i..], values[i..]) == output + EncodeInts(widths, values)
    {
      assert widths[i..][1..] == widths[i + 1..] && values[i..][1..] == values[i + 1..];
      out := out + ToLE(values[i], widths[i]);
      i := i + 1;
    }
  }

  class Writer {
    const cfg: Config
    var output: seq<Byte>
    var lastAddress: nat
    var icache: set<nat>
    var va2pa: set<nat>
    var ninstrs: nat
    var ninstrsmall: nat
    var ninstrext: nat
    var nbranch: nat
    var npredicate: nat

    constructor (cfg: Config)
      ensures this.cfg == cfg && State() == WRITER_START && output == [] && Tallied()
    {
      this.cfg := cfg;
      output, lastAddress, icache, va2pa := [], 0, {}, {};
      ninstrs, ninstrsmall, ninstrext, nbranch, npredicate := 0, 0, 0, 0, 0;
    }

    ghost function State(): WState
      reads this
    {
      WState(lastAddress, icache, va2pa)
    }

    /** Every instruction was sent in one of the two formats, a predicated one in the extended format. */
    ghost predicate Tallied()
      reads this
    {
      ninstrs == ninstrsmall + ninstrext && nbranch <= ninstrs && npredicate <= ninstrext
    }

    method WriteOther(code: Byte, size: nat, ints: seq<nat>, blob: seq<Byte>)
      requires |ints| == |Layout(code)| && size == Sum(Layout(code)) + |blob|
      modifies `output
      ensures output == old(output) + Serialize(Other(code, ints, blob))
    {
      ghost var before := output;
      output := output + OtherHeader(code, size);
      output := AppendInts(output, Layout(code), ints);
      output := output + blob;
      Appended(before, OtherHeader(code, size), EncodeInts(Layout(code), ints), blob);
    }

    /** The mapping of one page, unless it was sent before or the page is not in physical memory. */
    method SendVa2pa(va: nat)
      modifies `output, `va2pa
      ensures var (records, sent) := Va2paRecords(cfg, old(va2pa), [va]);
              va2pa == sent && output == old(output) + SerializeAll(records)
      ensures var page := va / 4096;
              var physical := if 0xffffffffff600 <= page < 0xfffffffffffff then page else cfg.pagemap(page);
              if cfg.sendVa2pa && page !in old(va2pa) && physical != 0 then
                && va2pa == old(va2pa) + {page}
                && output == old(output) + Serialize(Other(REC_LOGICAL2PHYSICAL, [page, physical], []))
              else va2pa == old(va2pa) && output == old(output)
    {
      ghost var records: seq<Record> := [];
      if cfg.sendVa2pa {
        var vp := va / PAGE_SIZE;
        if vp !in va2pa {
          var pp := Lookup(cfg, vp);
          if pp != 0 {
            FixedSizes();
            WriteOther(REC_LOGICAL2PHYSICAL, 16, [vp, pp], []);
            va2pa := va2pa + {vp};
            records := [Other(REC_LOGICAL2PHYSICAL, [vp, pp], [])];
            SerializeOne(records[0]);
          }
        }
      }
      assert Va2paRecords(cfg, old(va2pa), [va]).0 == records;
    }

    method SendVa2pas(vas: seq<nat>)
      modifies `output, `va2pa
      ensures var (records, sent) := Va2paRecords(cfg, old(va2pa), vas);
              va2pa == sent && output == old(output) + SerializeAll(records)
    {
      ghost var (records, sent) := Va2paRecords(cfg, va2pa, vas);
      var i := 0;
      while i < |vas|
        invariant 0 <= i <= |vas|
        invariant var (rest, final) := Va2paRecords(cfg, va2pa, vas[i..]);
                  output + SerializeAll(rest) == old(output) + SerializeAll(records) && sent == final
      {
        ghost var (head, sent1) := Va2paRecords(cfg, va2pa, [vas[i]]);
        assert vas[i..][1..] == vas[i + 1..];
        Va2paHead(cfg, va2pa, vas[i..]);
        SerializeJoin(output, head, Va2paRecords(cfg, sent1, vas[i + 1..]).0);
        SendVa2pa(vas[i]);
        i := i + 1;
      }
      assert output + SerializeAll([]) == output;
    }

    method SendPage(base: nat)
      modifies `output, `icache
      ensures icache == old(icache) + {base}
      ensures output == old(output) + SerializeAll(PageHead(cfg, old(icache), base))
    {
      if base !in icache {
        var buffer := Code(cfg.image, base, ICACHE_SIZE);
        FixedSizes();
        SerializeOne(Other(REC_ICACHE, [base], buffer));
        WriteOther(REC_ICACHE, 8 + ICACHE_SIZE, [base], buffer);
        icache := icache + {base};
      }
    }

    /** Code pages of an instruction that the reader does not have yet. */
    method SendPages(addr: nat, size: nat)
      requires 0 < size && addr + size <= CODE_TOP
      modifies `output, `icache
      ensures var (records, sent) := PageRecords(cfg, old(icache), PageBase(addr), PageBase(addr + size - 1));
              icache == sent && output == old(output) + SerializeAll(records)
    {
      var base, last := PageBase(addr), PageBase(addr + size - 1);
      ghost var (records, sent) := PageRecords(cfg, icache, base, last);
      while base <= last
        invariant output + PageBytes(cfg, icache, base, last) == old(output) + SerializeAll(records)
        invariant PageRecords(cfg, icache, base, last).1 == sent
        decreases last + ICACHE_SIZE - base
      {
        PageBytesHead(cfg, output, icache, base, last);
        SendPage(base);
        base := base + ICACHE_SIZE;
      }
      assert output + SerializeAll([]) == output;
    }

    /** In per-instruction mode: the bytes of an instruction the reader has not seen. */
    method SendInstructionCode(addr: nat, size: nat)
      requires cfg.perInsn && 0 < size
      modifies `output, `icache
      ensures var (records, sent) := CodeRecords(cfg, old(icache), addr, size);
              icache == sent && output == old(output) + SerializeAll(records)
    {
      if addr !in icache {
        var buffer := Code(cfg.image, addr, size);
        FixedSizes();
        SerializeOne(Other(REC_ICACHE_VARIABLE, [addr], buffer));
        WriteOther(REC_ICACHE_VARIABLE, 8 + size, [addr], buffer);
        icache := icache + {addr};
      }
    }

    method WriteSimple(i: Instruction)
      modifies `output
      ensures output == old(output) + Serialize(Simple(i.size, i.isBranch, i.taken, i.addresses))
    {
      var num := |i.addresses|;
      var first := [SimpleByte(i.size, num, i.isBranch, i.taken)];
      output := output + first;
      output := AppendInts(output, Eights(num), i.addresses);
      assert output == old(output) + (first + EncodeInts(Eights(num), i.addresses));
    }

    method WriteExtended(i: Instruction)
      modifies `output
      ensures output == old(output)
              + Serialize(Extended(i.size, i.isBranch, i.taken, i.isPredicate, i.executed, i.addr, i.addresses))
    {
      var num := |i.addresses|;
      var first := [16 * (i.size % 16), FlagsByte(num, i.isBranch, i.taken, i.isPredicate, i.executed)];
      output := output + first;
      output := output + ToLE(i.addr, 8);
      output := AppendInts(output, Eights(num), i.addresses);
      assert output == old(output) + (first + (ToLE(i.addr, 8) + EncodeInts(Eights(num), i.addresses)));
    }

    /** The instruction's own record: simple when it follows the previous one and is not predicated. */
    method WriteInstruction(i: Instruction)
      requires Tallied()
      modifies `output, `lastAddress, `ninstrs, `ninstrsmall, `ninstrext, `nbranch, `npredicate
      ensures output == old(output) + Serialize(InstructionRecord(old(lastAddress), i))
      ensures lastAddress == Wrap(i.addr + i.size)
      ensures Tallied() && ninstrs == old(ninstrs) + 1
    {
      if i.addr == lastAddress && !i.isPredicate {
        WriteSimple(i);
        ninstrsmall := ninstrsmall + 1;
      } else {
        WriteExtended(i);
        lastAddress := i.addr;
        ninstrext := ninstrext + 1;
      }
      lastAddress := Wrap(lastAddress + i.size);
      ninstrs := ninstrs + 1;
      if i.isBranch { nbranch := nbranch + 1; }
      if i.isPredicate { npredicate := npredicate + 1; }
    }

    /** The code bytes the reader still lacks, by instruction or by page. */
    method SendCode(i: Instruction) returns (ghost records: seq<Record>)
      requires 0 < i.size < 16 && i.addr + i.size <= CODE_TOP
      modifies `output, `icache
      ensures CodeOf(cfg, old(State()), Execute(i)) == (records, icache)
              && output == old(output) + SerializeAll(records)
    {
      records := CodeOf(cfg, State(), Execute(i)).0;
      if cfg.perInsn {
        SendInstructionCode(i.addr, i.size);
      } else {
        SendPages(i.addr, i.size);
      }
    }

    /** The mappings of the pages an instruction touches that the reader still lacks. */
    method SendTouched(i: Instruction) returns (ghost records: seq<Record>)
      modifies `output, `va2pa
      ensures Va2paRecords(cfg, old(va2pa), Touched(Execute(i))) == (records, va2pa)
              && output == old(output) + SerializeAll(records)
    {
      records := Va2paRecords(cfg, va2pa, [i.addr] + i.addresses).0;
      SendVa2pas([i.addr] + i.addresses);
    }

    method Instruction(i: Instruction)
      requires 0 < i.size < 16 && |i.addresses| <= MAX_DYNAMIC_ADDRESSES && i.addr + i.size <= CODE_TOP && Tallied()
      modifies this
      ensures Emitted(cfg, old(State()), old(output), Execute(i), State(), output)
      ensures Tallied() && ninstrs == old(ninstrs) + 1
    {
      ghost var w, output0 := State(), output;
      ghost var code := SendCode(i);
      ghost var output1 := output;
      ghost var maps := SendTouched(i);
      ghost var output2 := output;
      WriteInstruction(i);
      EmittedInstruction(cfg, w, i, code, maps, State(), [output0, output1, output2, output]);
    }

    method CacheOnly(icount: Byte, kind: Byte, eip: nat, address: nat)
      modifies `output, `va2pa
      ensures Emitted(cfg, old(State()), old(output), SiftTrace.CacheOnly(icount, kind, eip, address), State(), output)
    {
      ghost var maps := Va2paRecords(cfg, va2pa, [eip, address]).0;
      SendVa2pas([eip, address]);
      FixedSizes();
      WriteOther(REC_CACHE_ONLY, 18, [icount, kind, eip, address], []);
      assert old(output) + SerializeAll([]) == old(output);
      EmittedParts(cfg, old(State()), old(output), SiftTrace.CacheOnly(icount, kind, eip, address), [], maps, State(),
                   output);
    }

    method Output(fd: Byte, data: seq<Byte>)
      modifies `output
      ensures Emitted(cfg, old(State()), old(output), SiftTrace.Output(fd, data), State(), output)
    {
      FixedSizes();
      WriteOther(REC_OUTPUT, 1 + |data|, [fd], data);
      EmittedAlone(cfg, State(), old(output), SiftTrace.Output(fd, data), output);
    }

    method RoutineChange(event: Byte, eip: nat, esp: nat, callEip: nat)
      modifies `output
      ensures Emitted(cfg, old(State()), old(output), SiftTrace.RoutineChange(event, eip, esp, callEip), State(),
                      output)
    {
      FixedSizes();
      WriteOther(REC_ROUTINE_CHANGE, 25, [event, eip, esp, callEip], []);
      EmittedAlone(cfg, State(), old(output), SiftTrace.RoutineChange(event, eip, esp, callEip), output);
    }

    method RoutineAnnounce(eip: nat, name: seq<Byte>, imgname: seq<Byte>, offset: nat, line: nat, column: nat,
                           filename: seq<Byte>)
      modifies `output
      ensures Emitted(cfg, old(State()), old(output),
                      SiftTrace.RoutineAnnounce(eip, name, imgname, offset, line, column, filename), State(), output)
    {
      var n, i, f := name + [0], imgname + [0], filename + [0];
      ghost var rec := Announce(eip, n, i, offset, line, column, f);
      var numbers := AppendInts([], [8, 4, 4], [offset, line, column]);
      var body := ToLE(eip, 8) + (Counted(n) + (Counted(i) + (numbers + Counted(f))));
      AnnounceLength(rec);
      output := output + (OtherHeader(REC_ROUTINE_ANNOUNCE, 8 + (2 + |n|) + (2 + |i|) + (8 + 4 + 4) + (2 + |f|))
                          + body);
      assert body == AnnounceBody(rec);
      EmittedAlone(cfg, State(), old(output),
                   SiftTrace.RoutineAnnounce(eip, name, imgname, offset, line, column, filename), output);
    }

    /** The request half of a call that waits for a reply, with the mappings of its pointer arguments first. */
    method SendRequest(code: Byte, ints: seq<nat>, blob: seq<Byte>)
      requires |ints| == |Layout(code)|
      modifies `output, `va2pa
      ensures Emitted(cfg, old(State()), old(output), Request(code, ints, blob), State(), output)
    {
      var pointers := SyscallPointers(code, ints, blob);
      ghost var maps := Va2paRecords(cfg, va2pa, pointers).0;
      SendVa2pas(pointers);
      WriteOther(code, Sum(Layout(code)) + |blob|, ints, blob);
      assert old(output) + SerializeAll([]) == old(output);
      EmittedParts(cfg, old(State()), old(output), Request(code, ints, blob), [], maps, State(), output);
    }

    method End()
      modifies `output
      ensures output == old(output) + SerializeAll([END_RECORD])
    {
      FixedSizes();
      SerializeOne(END_RECORD);
      WriteOther(REC_END, 0, [], []);
    }
  }
}
