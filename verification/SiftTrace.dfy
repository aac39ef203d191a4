/** What the SIFT writer emits for each call and what the reader makes of each record, as functions on their states. */
module SiftTrace {
  import opened Prelude
  import opened Bytes
  import opened SiftFormat

  const PAGE_SIZE: nat := 4096
  /** Code stops short of the last page of memory: there the writer's page loop would wrap around. */
  const CODE_TOP: nat := TWO_64 - ICACHE_SIZE
  const SYS_WRITE: nat := 1
  const SYS_FUTEX: nat := 202

  datatype Instruction = Instruction(addr: nat, size: nat, addresses: seq<nat>, isBranch: bool, taken: bool,
                                     isPredicate: bool, executed: bool)

  datatype Call =
    | Execute(insn: Instruction)
    | CacheOnly(icount: nat, kind: nat, eip: nat, address: nat)
    | Output(fd: nat, data: seq<Byte>)
    | RoutineChange(event: nat, eip: nat, esp: nat, callEip: nat)
    | RoutineAnnounce(eip: nat, name: seq<Byte>, imgname: seq<Byte>, offset: nat, line: nat, column: nat,
                      filename: seq<Byte>)
    | Request(code: Byte, ints: seq<nat>, blob: seq<Byte>)

  /** What the reader's client sees: a dynamic instruction with its decoded bytes, or a callback. */
  datatype Event =
    | Executed(insn: Instruction, code: seq<Byte>)
    | Callback(call: Call)

  /** Options of a trace and the two memories outside it: the traced code image and the page map. */
  datatype Config = Config(perInsn: bool, sendVa2pa: bool, image: nat -> Byte, pagemap: nat -> nat)

  datatype WState = WState(lastAddress: nat, icache: set<nat>, va2pa: set<nat>)

  type Page = p: seq<Byte> | |p| == ICACHE_SIZE witness seq(ICACHE_SIZE, _ => 0)

  datatype Static = Static(size: nat, data: seq<Byte>)

  datatype RState = RState(
    lastAddress: nat,
    icache: map<nat, Page>,
    scache: map<nat, Static>,
    next: map<nat, nat>,
    last: Option<nat>,
    vcache: map<nat, nat>,
    log: seq<Event>)

  const WRITER_START := WState(0, {}, {})
  const READER_START := RState(0, map[], map[], map[], None, map[], [])

  function PageBase(a: nat): nat { a - a % ICACHE_SIZE }

  function Wrap(a: nat): nat { a % TWO_64 }

  function Code(image: nat -> Byte, addr: nat, n: nat): (b: seq<Byte>)
    ensures |b| == n
  {
    seq(n, (i: nat) => image(addr + i))
  }

  // ---- Writer

  /** Physical page sent for a virtual page; zero means the page is not mapped. */
  function Lookup(cfg: Config, vp: nat): nat {
    if 0xffffffffff600 <= vp < 0xfffffffffffff then vp else cfg.pagemap(vp)
  }

  function Va2paRecords(cfg: Config, sent: set<nat>, vas: seq<nat>): (seq<Record>, set<nat>)
    decreases |vas|
  {
    if vas == [] || !cfg.sendVa2pa then ([], sent)
    else
      var vp := vas[0] / PAGE_SIZE;
      if vp in sent || Lookup(cfg, vp) == 0 then Va2paRecords(cfg, sent, vas[1..])
      else
        var (records, sent') := Va2paRecords(cfg, sent + {vp}, vas[1..]);
        ([Other(REC_LOGICAL2PHYSICAL, [vp, Lookup(cfg, vp)], [])] + records, sent')
  }

  /** Whole code pages from `base` up to `last` that were not sent before. */
  function PageRecords(cfg: Config, sent: set<nat>, base: nat, last: nat): (seq<Record>, set<nat>)
    decreases last - base
  {
    if base > last then ([], sent)
    else if base in sent then PageRecords(cfg, sent, base + ICACHE_SIZE, last)
    else
      var (records, sent') := PageRecords(cfg, sent + {base}, base + ICACHE_SIZE, last);
      ([Other(REC_ICACHE, [base], Code(cfg.image, base, ICACHE_SIZE))] + records, sent')
  }

  function CodeRecords(cfg: Config, sent: set<nat>, addr: nat, size: nat): (seq<Record>, set<nat>)
    requires size > 0
  {
    if cfg.perInsn then
      if addr in sent then ([], sent)
      else ([Other(REC_ICACHE_VARIABLE, [addr], Code(cfg.image, addr, size))], sent + {addr})
    else PageRecords(cfg, sent, PageBase(addr), PageBase(addr + size - 1))
  }

  function InstructionRecord(lastAddress: nat, i: Instruction): Record {
    if i.addr == lastAddress && !i.isPredicate then Simple(i.size, i.isBranch, i.taken, i.addresses)
    else Extended(i.size, i.isBranch, i.taken, i.isPredicate, i.executed, i.addr, i.addresses)
  }

  /** Pointer arguments whose page mapping a system call announces first. */
  function SyscallPointers(code: Byte, ints: seq<nat>, blob: seq<Byte>): seq<nat> {
    if code != REC_SYSCALL_REQUEST || |ints| != 1 then []
    else if ints[0] == SYS_FUTEX && |blob| >= 8 then [FromLE(blob[0..8])]
    else if ints[0] == SYS_WRITE && |blob| >= 16 then [FromLE(blob[8..16])]
    else []
  }

  /** Addresses whose page mapping a call announces first. */
  function Touched(call: Call): seq<nat> {
    match call
    case Execute(i) => [i.addr] + i.addresses
    case CacheOnly(_, _, eip, address) => [eip, address]
    case Request(code, ints, blob) => SyscallPointers(code, ints, blob)
    case _ => []
  }

  /** The record that carries the call itself. */
  function CallRecord(lastAddress: nat, call: Call): Record {
    match call
    case Execute(i) => InstructionRecord(lastAddress, i)
    case CacheOnly(icount, kind, eip, address) => Other(REC_CACHE_ONLY, [icount, kind, eip, address], [])
    case Output(fd, data) => Other(REC_OUTPUT, [fd], data)
    case RoutineChange(event, eip, esp, callEip) => Other(REC_ROUTINE_CHANGE, [event, eip, esp, callEip], [])
    case RoutineAnnounce(eip, name, imgname, offset, line, column, filename) =>
      Announce(eip, name + [0], imgname + [0], offset, line, column, filename + [0])
    case Request(code, ints, blob) => Other(code, ints, blob)
  }

  function CodeOf(cfg: Config, w: WState, call: Call): (seq<Record>, set<nat>) {
    if call.Execute? && call.insn.size > 0 then CodeRecords(cfg, w.icache, call.insn.addr, call.insn.size)
      else ([], w.icache)
  }

  /** One writer call: missing code bytes, missing page mappings, then the call's own record. */
  function WriterStep(cfg: Config, w: WState, call: Call): (WState, seq<Record>) {
    var (code, icache) := CodeOf(cfg, w, call);
    var (maps, va2pa) := Va2paRecords(cfg, w.va2pa, Touched(call));
    var last := if call.Execute? then Wrap(call.insn.addr + call.insn.size) else w.lastAddress;
    (WState(last, icache, va2pa), (code + maps) + [CallRecord(w.lastAddress, call)])
  }

  const END_RECORD := Other(REC_END, [], [])

  /** All records of a run of calls, closed by the End record. */
  function TraceRecords(cfg: Config, w: WState, calls: seq<Call>): seq<Record>
    decreases |calls|
  {
    if calls == [] then [END_RECORD]
    else
      var (w', records) := WriterStep(cfg, w, calls[0]);
      records + TraceRecords(cfg, w', calls[1..])
  }

  // ---- Reader

  /** A C string as its reader sees it: the bytes before the first NUL. */
  function CString(b: seq<Byte>): seq<Byte> {
    if b == [] || b[0] == 0 then [] else [b[0]] + CString(b[1..])
  }

  /** A page that was only allocated: its bytes are whatever the allocator left there. */
  function FreshPage(junk: nat -> Byte, base: nat): Page
  {
    seq(ICACHE_SIZE, (i: nat) => junk(base + i))
  }

  /** Bytes that fall within one page, copied into it. */
  function StoreInPage(junk: nat -> Byte, icache: map<nat, Page>, address: nat, chunk: seq<Byte>): map<nat, Page>
    requires |chunk| <= ICACHE_SIZE - address % ICACHE_SIZE
  {
    var base, offset := PageBase(address), address % ICACHE_SIZE;
    var page := if base in icache then icache[base] else FreshPage(junk, base);
    icache[base := page[..offset] + chunk + page[offset + |chunk|..]]
  }

  /** How many of n bytes starting at an address fall within its page. */
  function InPage(address: nat, n: nat): (k: nat)
    ensures k <= n && k <= ICACHE_SIZE - address % ICACHE_SIZE && (n > 0 ==> k > 0)
  {
    if n <= ICACHE_SIZE - address % ICACHE_SIZE then n else ICACHE_SIZE - address % ICACHE_SIZE
  }

  /** Bytes of a per-instruction code record, spread over the pages they fall in. */
  function StoreCode(junk: nat -> Byte, icache: map<nat, Page>, address: nat, bytes: seq<Byte>): map<nat, Page>
    decreases |bytes|
  {
    if bytes == [] then icache
    else
      var n := InPage(address, |bytes|);
      StoreCode(junk, StoreInPage(junk, icache, address, bytes[..n]), Wrap(PageBase(address) + ICACHE_SIZE), bytes[n..])
  }

  /** The bytes of an instruction gathered from the code pages; None when a page was never received. */
  function Gather(icache: map<nat, Page>, addr: nat, size: nat): (r: Option<seq<Byte>>)
    ensures r.Some? ==> |r.value| == size
    decreases size
  {
    if size == 0 then Some([])
    else
      var base, offset, n := PageBase(addr), addr % ICACHE_SIZE, InPage(addr, size);
      if base !in icache then None
      else
        var tail :- Gather(icache, Wrap(base + ICACHE_SIZE), size - n);
        Some(icache[base][offset..offset + n] + tail)
  }

  /** The instruction cache after looking up an address: the successor shortcut, the cache, or a fresh decode. */
  function FindStatic(r: RState, addr: nat, size: nat): Option<map<nat, Static>> {
    if r.last.Some? && r.last.value in r.next && r.next[r.last.value] == addr then Some(r.scache)
    else if addr in r.scache then (if r.scache[addr].size == size then Some(r.scache) else None)
    else
      var data :- Gather(r.icache, addr, size);
      Some(r.scache[addr := Static(size, data)])
  }

  /**
   * The static instruction at an address, which also becomes the successor of the previous one if that has none yet.
   */
  function StaticAt(r: RState, addr: nat, size: nat): Option<(RState, Static)> {
    var scache :- FindStatic(r, addr, size);
    var next := if r.last.Some? && r.last.value !in r.next then r.next[r.last.value := addr] else r.next;
    if addr !in scache then None
    else Some((r.(scache := scache, next := next, last := Some(addr)), scache[addr]))
  }

  /** A dynamic instruction record: its address, its static part, and the reader's new state. */
  function ReceiveInstruction(r: RState, i: Instruction): Option<RState>
  {
    var (r', sinst) :- StaticAt(r, i.addr, i.size);
    Some(r'.(lastAddress := Wrap(i.addr + i.size), log := r.log + [Executed(i.(size := sinst.size), sinst.data)]))
  }

  /** The dynamic instruction an instruction record stands for. */
  function InstructionOf(lastAddress: nat, rec: Record): Instruction
    requires rec.Simple? || rec.Extended?
  {
    match rec
    case Simple(size, isBranch, taken, addresses) =>
      Instruction(lastAddress, size, addresses, isBranch, taken, false, true)
    case Extended(size, isBranch, taken, isPredicate, executed, addr, addresses) =>
      Instruction(addr, size, addresses, isBranch, taken, isPredicate, executed)
  }

  function CallbackFor(rec: Record): Option<Call> {
    match rec
    case Announce(eip, name, imgname, offset, line, column, filename) =>
      Some(RoutineAnnounce(eip, CString(name), CString(imgname), offset, line, column, CString(filename)))
    case Other(code, ints, blob) =>
      if code == REC_CACHE_ONLY && |ints| == 4 then Some(CacheOnly(ints[0], ints[1], ints[2], ints[3]))
      else if code == REC_OUTPUT && |ints| == 1 then Some(Output(ints[0], blob))
      else if code == REC_ROUTINE_CHANGE && |ints| == 4 then Some(RoutineChange(ints[0], ints[1], ints[2], ints[3]))
      else if IsRequest(code) then Some(Request(code, ints, blob))
      else None
    case _ => None
  }

  predicate IsRequest(code: Byte) {
    code in {REC_SYSCALL_REQUEST, REC_INSTRUCTION_COUNT, REC_NEW_THREAD, REC_JOIN, REC_SYNC, REC_FORK, REC_MAGIC,
             REC_EMU}
  }

  /** The reader's handling of one record other than End; None where it asserts. */
  function Receive(junk: nat -> Byte, r: RState, rec: Record): (res: Option<RState>)
  {
    match rec
    case Simple(_, _, _, _) => ReceiveInstruction(r, InstructionOf(r.lastAddress, rec))
    case Extended(_, _, _, _, _, _, _) => ReceiveInstruction(r, InstructionOf(r.lastAddress, rec))
    case Announce(_, _, _, _, _, _, _) => Some(r.(log := r.log + [Callback(CallbackFor(rec).value)]))
    case Other(code, ints, blob) =>
      if code == REC_ICACHE && |ints| == 1 && |blob| == ICACHE_SIZE then Some(r.(icache := r.icache[ints[0] := blob]))
      else if code == REC_ICACHE_VARIABLE && |ints| == 1 then
        Some(r.(icache := StoreCode(junk, r.icache, ints[0], blob)))
      else if code == REC_LOGICAL2PHYSICAL && |ints| == 2 then Some(r.(vcache := r.vcache[ints[0] := ints[1]]))
      else if CallbackFor(rec).Some? then Some(r.(log := r.log + [Callback(CallbackFor(rec).value)]))
      else Some(r)
  }

  /** Repeated reads up to the End record; None where the reader asserts or the stream runs dry. */
  function ReadTrace(junk: nat -> Byte, r: RState, input: seq<Byte>): Option<RState>
    decreases |input|
  {
    var (rec, rest) :- Parse(input);
    if rec.Other? && rec.code == REC_END then Some(r)
    else
      var r' :- Receive(junk, r, rec);
      ReadTrace(junk, r', rest)
  }

  /**
   * One call of Read: records are consumed until an instruction is delivered, the trace ends, or the reader asserts.
   */
  datatype ReadResult = Delivered(r: RState, rest: seq<Byte>) | Finished(r: RState, rest: seq<Byte>) | Asserts

  function ReadNext(junk: nat -> Byte, r: RState, input: seq<Byte>): (res: ReadResult)
    ensures res.Delivered? ==> |res.rest| < |input|
    decreases |input|
  {
    match Parse(input)
    case None => Asserts
    case Some((rec, rest)) =>
      if rec.Other? && rec.code == REC_END then Finished(r, rest)
      else
        match Receive(junk, r, rec)
        case None => Asserts
        case Some(r') => if rec.Simple? || rec.Extended? then Delivered(r', rest) else ReadNext(junk, r', rest)
  }

  /** Calling Read until it reports the end is reading the whole trace. */
  lemma {:induction false} RepeatedReads(junk: nat -> Byte, r: RState, input: seq<Byte>)
    ensures ReadTrace(junk, r, input) ==
            match ReadNext(junk, r, input)
            case Delivered(r', rest) => ReadTrace(junk, r', rest)
            case Finished(r', _) => Some(r')
            case Asserts => None
    decreases |input|
  {
    match Parse(input)
    case None =>
    case Some((rec, rest)) =>
      if !(rec.Other? && rec.code == REC_END) {
        match Receive(junk, r, rec)
        case None =>
        case Some(r') => if !rec.Simple? && !rec.Extended? { RepeatedReads(junk, r', rest); }
      }
  }

  /** Reader::va2pa: the physical address of a virtual one, zero when its page was never announced. */
  function Va2pa(hasPa: bool, r: RState, va: nat): nat {
    if !hasPa then va
    else if va / PAGE_SIZE !in r.vcache then 0
    else Wrap(r.vcache[va / PAGE_SIZE] * PAGE_SIZE) + va % PAGE_SIZE
  }
}
