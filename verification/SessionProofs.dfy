/** What every step of a session keeps: where writer and reader are, and that everything is as in the reference. */
module SessionProofs {
  import opened Prelude
  import opened Bytes
  import opened SiftFormat
  import opened SiftTrace
  import opened SiftRoundTrip
  import opened SiftSession
  import P = SiftProtocol

  // ---- Records and the events they carry

  ghost predicate NoRequests(records: seq<Record>) {
    forall i | 0 <= i < |records| :: !IsRequestRecord(records[i])
  }

  /** The records of a call, or what is left of them: a request comes last, and nothing else is one. */
  ghost predicate EndsWith(records: seq<Record>, call: Call) {
    if call.Request? then
      && |records| > 0 && records[|records| - 1] == Other(call.code, call.ints, call.blob)
      && NoRequests(records[..|records| - 1])
    else NoRequests(records)
  }

  lemma {:induction false} PagesNoRequests(cfg: Config, sent: set<nat>, base: nat, last: nat)
    ensures NoRequests(PageRecords(cfg, sent, base, last).0)
    decreases last - base
  {
    if base <= last {
      PagesNoRequests(cfg, if base in sent then sent else sent + {base}, base + ICACHE_SIZE, last);
    }
  }

  lemma {:induction false} MapsNoRequests(cfg: Config, sent: set<nat>, vas: seq<nat>)
    ensures NoRequests(Va2paRecords(cfg, sent, vas).0)
    decreases |vas|
  {
    if vas != [] && cfg.sendVa2pa {
      var vp := vas[0] / PAGE_SIZE;
      MapsNoRequests(cfg, if vp in sent || Lookup(cfg, vp) == 0 then sent else sent + {vp}, vas[1..]);
    }
  }

  lemma CodeNoRequests(cfg: Config, w: WState, call: Call)
    ensures NoRequests(CodeOf(cfg, w, call).0)
  {
    if call.Execute? && call.insn.size > 0 && !cfg.perInsn {
      PagesNoRequests(cfg, w.icache, PageBase(call.insn.addr), PageBase(call.insn.addr + call.insn.size - 1));
    }
  }

  lemma CallEndsWith(cfg: Config, w: WState, call: Call)
    ensures var records := WriterStep(cfg, w, call).1; records != [] && EndsWith(records, call)
  {
    CodeNoRequests(cfg, w, call);
    MapsNoRequests(cfg, w.va2pa, Touched(call));
    var before := CodeOf(cfg, w, call).0 + Va2paRecords(cfg, w.va2pa, Touched(call)).0;
    SnocEndsWith(before, w.lastAddress, call);
  }

  lemma SnocEndsWith(before: seq<Record>, last: nat, call: Call)
    requires NoRequests(before)
    ensures EndsWith(before + [CallRecord(last, call)], call)
  {
    assert (before + [CallRecord(last, call)])[..|before|] == before;
  }

  lemma EndsWithConcat(a: seq<Record>, b: seq<Record>, call: Call)
    requires NoRequests(a) && EndsWith(b, call)
    ensures EndsWith(a + b, call)
  {
    if call.Request? {
      assert (a + b)[..|a + b| - 1] == a + b[..|b| - 1];
    }
  }

  lemma EndsWithTail(records: seq<Record>, call: Call)
    requires EndsWith(records, call) && records != [] && !IsRequestRecord(records[0])
    requires call.Request? ==> IsRequest(call.code)
    ensures EndsWith(records[1..], call)
  {
    if call.Request? {
      var n := |records| - 1;
      assert n > 0 && records[1..][..n - 1] == records[..n][1..];
    }
  }

  // ---- What is in the channel, and where it leads

  /**
   * The records in flight are what the reader finds next. With them and those still to be sent for this call, it will
   * be in step with the writer and have delivered these events.
   */
  ghost predicate Leads(u: Setup, sizeOf: nat -> nat, r: RState, records: seq<Record>, w: WState, log: seq<Event>) {
    && Body(records) && ReceiveAll(u.junk, r, records).Some?
    && (var r' := ReceiveAll(u.junk, r, records).value; Synced(u.cfg, sizeOf, w, r') && r'.log == log)
  }

  /** The next call begins. */
  lemma LeadsOn(u: Setup, sizeOf: nat -> nat, r: RState, records: seq<Record>, w: WState, log: seq<Event>, call: Call)
    requires Leads(u, sizeOf, r, records, w, log) && ValidConfig(u.cfg) && ValidCall(sizeOf, call)
    ensures var (w', more) := WriterStep(u.cfg, w, call);
            Leads(u, sizeOf, r, records + more, w', log + [EventFor(u.cfg, w.lastAddress, call)])
  {
    var r1 := ReceiveAll(u.junk, r, records).value;
    var r2 := CallReceived(u.cfg, u.junk, sizeOf, w, r1, call);
    ReceiveConcat(u.junk, r, records, WriterStep(u.cfg, w, call).1);
  }

  /** The reader takes the first record. */
  lemma LeadsFromNext(u: Setup, sizeOf: nat -> nat, r: RState, records: seq<Record>, w: WState, log: seq<Event>)
    requires Leads(u, sizeOf, r, records, w, log) && records != []
    ensures var r' := Receive(u.junk, r, records[0]); r'.Some? && Leads(u, sizeOf, r'.value, records[1..], w, log)
  {
    assert Body(records[1..]);
  }

  /** The first record in the channel is read as it was written. */
  lemma FirstRead(records: seq<Record>, rest: seq<Byte>)
    requires Body(records) && records != []
    ensures var ch := SerializeAll(records) + rest;
            ch != [] && Parse(ch) == Some((records[0], SerializeAll(records[1..]) + rest))
  {
    var tail := SerializeAll(records[1..]) + rest;
    assert SerializeAll(records) + rest == Serialize(records[0]) + tail;
    RecordRoundTrip(records[0], tail);
  }

  /** One more of the records is written. */
  lemma SerializeNext(records: seq<Record>, n: nat)
    requires n < |records|
    ensures SerializeAll(records[..n + 1]) == SerializeAll(records[..n]) + Serialize(records[n])
  {
    assert records[..n + 1] == records[..n] + [records[n]];
    SerializeConcat(records[..n], [records[n]]);
    assert SerializeAll([records[n]]) == Serialize(records[n]) + [];
  }

  // ---- Where the session stands

  /**
   * What the standing of a session is stated with: the references, the bytes of records, where records lead a reader,
   * whether records end with the request of a call, and whether a reader and an exchange are right for call k.
   */
  datatype View = View(
    refs: References,
    wire: seq<Record> -> seq<Byte>,
    leads: (RState, seq<Record>, WState, seq<Event>) -> bool,
    plain: seq<Record> -> bool,
    ends: (seq<Record>, nat) -> bool,
    right: (nat, RState, P.System) -> bool)

  /** The exchange for the request of call k stands as the protocol says, and the reader is in step with the writer. */
  ghost predicate Right(u: Setup, sizeOf: nat -> nat, refs: References, k: nat, r: RState, e: P.System) {
    && k < |u.steps| && u.steps[k].call.Request?
    && (var ref, call := refs(k + 1), u.steps[k].call;
        && P.Finite(u.handlers(ref.log)) && Synced(u.cfg, sizeOf, ref.w, r) && r.log == ref.log
        && P.InStep(AsMessage(call), u.handlers(ref.log), u.steps[k].compute(refs(k).mem), e))
  }

  ghost function ViewOf(u: Setup, sizeOf: nat -> nat, refs: References): View {
    View(refs, records => SerializeAll(records), (r, records, w, log) => Leads(u, sizeOf, r, records, w, log),
         records => NoRequests(records), (records, k: nat) => k < |u.steps| && EndsWith(records, u.steps[k].call),
         (k: nat, r, e) => Right(u, sizeOf, refs, k, r, e))
  }

  /**
   * The reader works through the trace: `records` are those it has not read, and the first n of them are in the
   * channel.
   */
  ghost predicate Streaming(v: View, s: System, records: seq<Record>, n: nat, ref: Reference) {
    && s.mode.Reading? && n <= |records| && s.toReader == v.wire(records[..n]) && s.toWriter == []
    && s.writer.w == ref.w && v.leads(s.r, records, ref.w, ref.log)
  }

  /** The reader serves the request of call k, or has replied to it. */
  ghost predicate Exchanging(u: Setup, v: View, s: System, k: nat)
    requires k < |u.steps|
  {
    && u.steps[k].call.Request? && s.writer.w == v.refs(k + 1).w && v.right(k, s.r, Exchange(s))
    && match s.mode
       case Serving(request, at) => request == AsMessage(u.steps[k].call) && !at.Replied? && !at.Reading?
       case mode => mode.Reading?
  }

  ghost predicate AtBetween(v: View, s: System, records: seq<Record>, k: nat) {
    s.writer.mem == v.refs(k).mem && v.plain(records) && Streaming(v, s, records, |records|, v.refs(k))
  }

  /** Call k is under way, all of its records but the last `out` ones are written. */
  ghost predicate AtSending(u: Setup, v: View, s: System, records: seq<Record>, out: nat, k: nat)
    requires k < |u.steps|
  {
    && s.writer.mem == u.steps[k].compute(v.refs(k).mem) && v.ends(records, k)
    && out <= |records| && Streaming(v, s, records, |records| - out, v.refs(k + 1))
  }

  ghost predicate AtClosed(u: Setup, v: View, s: System, records: seq<Record>) {
    var ref := v.refs(|u.steps|);
    && s.writer.mem == ref.mem && s.toWriter == []
    && (|| (s.mode.Ended? && records == [] && s.toReader == [] && s.r.log == ref.log)
        || (&& s.mode.Reading? && s.toReader == v.wire(records) + v.wire([END_RECORD]) && v.plain(records)
            && v.leads(s.r, records, ref.w, ref.log)))
  }

  /**
   * Everything is as in the reference after as many calls as are done, or under way; `records` are still to be read.
   */
  ghost predicate At(u: Setup, v: View, s: System, records: seq<Record>) {
    var k := s.writer.done;
    && k <= |u.steps| && s.writer.replies == v.refs(k).replies
    && match s.writer.phase
       case Between => AtBetween(v, s, records, k)
       case Sending(out) =>
         && k < |u.steps| && out != [] && |out| <= |records| && out == records[|records| - |out|..]
         && AtSending(u, v, s, records, |out|, k)
       case Waiting =>
         && k < |u.steps| && u.steps[k].call.Request?
         && ((records == [] && Exchanging(u, v, s, k)) || AtSending(u, v, s, records, 0, k))
       case Closed => k == |u.steps| && AtClosed(u, v, s, records)
       case WriterAsserts => false
  }

  ghost predicate Look(x: int) { true }

  /** The view is the one of this session; its parts are looked into only where a proof asks for it. */
  ghost predicate IsView(v: View, u: Setup, sizeOf: nat -> nat, refs: References) {
    v.refs == refs && forall x: int {:trigger Look(x)} :: Look(x) ==> v == ViewOf(u, sizeOf, refs)
  }

  // ---- What the view is known to obey

  lemma RightIs(u: Setup, sizeOf: nat -> nat, refs: References, v: View, k: nat, r: RState, e: P.System)
    requires IsView(v, u, sizeOf, refs)
    ensures v.right(k, r, e) <==> Right(u, sizeOf, refs, k, r, e)
  {
    assert Look(0);
  }

  lemma WireNext(u: Setup, sizeOf: nat -> nat, refs: References, v: View, records: seq<Record>, n: nat)
    requires IsView(v, u, sizeOf, refs) && n < |records|
    ensures v.wire(records[..n + 1]) == v.wire(records[..n]) + Serialize(records[n])
  {
    assert Look(0);
    SerializeNext(records, n);
  }

  lemma LeadsBegin(u: Setup, sizeOf: nat -> nat, refs: References, v: View, r: RState, records: seq<Record>, k: nat)
    requires Good(u, sizeOf) && Chain(u, refs) && IsView(v, u, sizeOf, refs) && k < |u.steps|
    requires v.leads(r, records, refs(k).w, refs(k).log) && v.plain(records)
    ensures var more := WriterStep(u.cfg, refs(k).w, u.steps[k].call).1;
            && v.leads(r, records + more, refs(k + 1).w, refs(k + 1).log) && v.ends(records + more, k)
            && more != [] && refs(k + 1).w == WriterStep(u.cfg, refs(k).w, u.steps[k].call).0
  {
    assert Look(0);
    var call, ref := u.steps[k].call, refs(k);
    assert Follows(u, refs, k) && ValidCall(sizeOf, call);
    LeadsOn(u, sizeOf, r, records, ref.w, ref.log, call);
    CallEndsWith(u.cfg, ref.w, call);
    EndsWithConcat(records, WriterStep(u.cfg, ref.w, call).1, call);
  }

  lemma EndsPlain(u: Setup, sizeOf: nat -> nat, refs: References, v: View, records: seq<Record>, k: nat)
    requires Chain(u, refs) && IsView(v, u, sizeOf, refs) && k < |u.steps| && !u.steps[k].call.Request?
    ensures v.ends(records, k) ==> v.plain(records)
    ensures refs(k + 1).replies == refs(k).replies && refs(k + 1).mem == u.steps[k].compute(refs(k).mem)
  {
    assert Look(0);
    assert Follows(u, refs, k);
  }

  /** A request of the program with its handler meets what the protocol demands. */
  lemma RequestAdmissible(u: Setup, sizeOf: nat -> nat, refs: References, k: nat)
    requires Good(u, sizeOf) && Chain(u, refs) && k < |u.steps| && u.steps[k].call.Request?
    ensures var ref, call := refs(k + 1), u.steps[k].call;
            P.Admissible(AsMessage(call), u.handlers(ref.log)) && IsRequest(call.code)
  {
    var call := u.steps[k].call;
    assert Follows(u, refs, k);
    assert ValidCall(sizeOf, call);
    assert FitHandler(u, refs(k).log + [Callback(call)], call);
  }

  /** The reference after a request: its reply and the memory its handler left. */
  lemma RefOfRequest(u: Setup, sizeOf: nat -> nat, refs: References, k: nat)
    requires Good(u, sizeOf) && Chain(u, refs) && k < |u.steps| && u.steps[k].call.Request?
    ensures var ref0, ref := refs(k), refs(k + 1);
            && P.Finite(u.handlers(ref.log))
            && (var (value, mem) := P.Direct(u.handlers(ref.log), [], u.steps[k].compute(ref0.mem));
                ref.replies == ref0.replies + [value] && ref.mem == mem)
  {
    assert Follows(u, refs, k);
    RequestAdmissible(u, sizeOf, refs, k);
  }

  // ---- Steps of the writer, for any view

  lemma BeginKeeps(u: Setup, v: View, s: System, records: seq<Record>, more: seq<Record>, s': System)
    requires At(u, v, s, records) && s.writer.phase.Between? && s.writer.done < |u.steps|
    requires var w, k := s.writer, s.writer.done;
             && v.leads(s.r, records + more, v.refs(k + 1).w, v.refs(k + 1).log) && v.ends(records + more, k)
             && more != []
             && s' == s.(writer := w.(w := v.refs(k + 1).w, phase := Sending(more), mem := u.steps[k].compute(w.mem)))
    ensures At(u, v, s', records + more)
  {
    assert (records + more)[..|records|] == records == records[..|records|];
    assert (records + more)[|records|..] == more;
  }

  lemma StreamGrows(v: View, s: System, records: seq<Record>, n: nat, ref: Reference, s': System, bytes: seq<Byte>)
    requires Streaming(v, s, records, n, ref) && n < |records|
             && v.wire(records[..n + 1]) == v.wire(records[..n]) + bytes
    requires s' == s.(toReader := s.toReader + bytes, writer := s'.writer) && s'.writer.w == s.writer.w
    ensures Streaming(v, s', records, n + 1, ref)
  {
  }

  lemma TailOf(records: seq<Record>, out: seq<Record>)
    requires out != [] && |out| <= |records| && out == records[|records| - |out|..]
    ensures out[0] == records[|records| - |out|] && out[1..] == records[|records| - (|out| - 1)..]
  {
  }

  /** A record of call k that is not its last. */
  lemma SendMore(u: Setup, v: View, s: System, records: seq<Record>, s': System, bytes: seq<Byte>)
    requires At(u, v, s, records) && s.writer.phase.Sending? && |s.writer.phase.out| > 1
    requires var n := |records| - |s.writer.phase.out|; v.wire(records[..n + 1]) == v.wire(records[..n]) + bytes
    requires s' == s.(toReader := s.toReader + bytes, writer := s.writer.(phase := Sending(s.writer.phase.out[1..])))
    ensures At(u, v, s', records)
  {
    var out := s.writer.phase.out;
    TailOf(records, out);
    StreamGrows(v, s, records, |records| - |out|, v.refs(s.writer.done + 1), s', bytes);
  }

  /** The last record of call k, after which all of it is in the channel. */
  lemma SendLast(u: Setup, v: View, s: System, records: seq<Record>, s': System, bytes: seq<Byte>)
    requires At(u, v, s, records) && s.writer.phase.Sending? && |s.writer.phase.out| == 1
    requires v.wire(records[..|records|]) == v.wire(records[..|records| - 1]) + bytes
    requires s' == s.(toReader := s.toReader + bytes, writer := s'.writer)
    requires s'.writer.w == s.writer.w && s'.writer.mem == s.writer.mem
    ensures AtSending(u, v, s', records, 0, s.writer.done)
  {
    StreamGrows(v, s, records, |records| - 1, v.refs(s.writer.done + 1), s', bytes);
  }

  /** A call that is no request is done. */
  lemma CallDone(u: Setup, v: View, s: System, records: seq<Record>, k: nat)
    requires k < |u.steps| && AtSending(u, v, s, records, 0, k) && v.plain(records)
    requires v.refs(k + 1).replies == v.refs(k).replies && v.refs(k + 1).mem == u.steps[k].compute(v.refs(k).mem)
    requires s.writer.phase.Between? && s.writer.done == k + 1 && s.writer.replies == v.refs(k).replies
    ensures At(u, v, s, records)
  {
  }

  // ---- The writer in an exchange

  /** What the writer does with the reply to its request. */
  lemma ReplyTaken(u: Setup, s: System, request: P.Message, value: seq<Byte>)
    requires s.writer.phase.Waiting? && s.writer.done < |u.steps| && u.steps[s.writer.done].call.Request?
    requires request == AsMessage(u.steps[s.writer.done].call) && P.IsRequestCode(request.code)
    requires |value| == P.ResponseSize(request.code)
             && s.toWriter == P.Wire(P.Message(P.ResponseCode(request.code), [], value))
    ensures WriterCanMove(u, s)
    ensures var w := s.writer;
            TakeMessage(u, s) == s.(toWriter := [],
                                    writer := w.(phase := Between, done := w.done + 1, replies := w.replies + [value]))
  {
    P.WriterReturns(request, Exchange(s), value);
  }

  /** An exchange that is over, seen from its reply. */
  lemma ReplyRight(u: Setup, sizeOf: nat -> nat, refs: References, r: RState, e: P.System, k: nat)
    returns (value: seq<Byte>)
    requires Good(u, sizeOf) && Chain(u, refs) && Right(u, sizeOf, refs, k, r, e) && e.w.Waiting? && e.r.Replied?
    ensures var request := AsMessage(u.steps[k].call);
            && P.IsRequestCode(request.code) && |value| == P.ResponseSize(request.code)
            && e.toReader == [] && e.toWriter == P.Wire(P.Message(P.ResponseCode(request.code), [], value))
            && refs(k + 1).replies == refs(k).replies + [value] && refs(k + 1).mem == e.mem
  {
    var request, ref, mem := AsMessage(u.steps[k].call), refs(k + 1), u.steps[k].compute(refs(k).mem);
    RequestAdmissible(u, sizeOf, refs, k);
    RefOfRequest(u, sizeOf, refs, k);
    P.DirectGood(request, u.handlers(ref.log), [], mem);
    value := P.Direct(u.handlers(ref.log), [], mem).0;
  }

  lemma NothingLeft(u: Setup, sizeOf: nat -> nat, refs: References, v: View, k: nat, r: RState, e: P.System)
    requires IsView(v, u, sizeOf, refs) && v.right(k, r, e)
    ensures v.leads(r, [], refs(k + 1).w, refs(k + 1).log) && v.plain([]) && v.wire([]) == []
  {
    assert Look(0);
  }

  lemma ReplyKeeps(u: Setup, v: View, s: System, k: nat, value: seq<Byte>, s': System)
    requires At(u, v, s, []) && s.writer.phase.Waiting? && s.writer.done == k < |u.steps| && Exchanging(u, v, s, k)
    requires s.mode.Reading? && s.toReader == []
    requires v.leads(s.r, [], v.refs(k + 1).w, v.refs(k + 1).log) && v.plain([]) && v.wire([]) == []
    requires v.refs(k + 1).replies == v.refs(k).replies + [value] && v.refs(k + 1).mem == s.writer.mem
    requires s' == s.(toWriter := [],
                      writer := s.writer.(phase := Between, done := k + 1, replies := s.writer.replies + [value]))
    ensures At(u, v, s', [])
  {
    var none: seq<Record> := [];
    assert none[..0] == none;
  }

  lemma TakeReply(u: Setup, sizeOf: nat -> nat, refs: References, v: View, s: System, k: nat)
    requires Good(u, sizeOf) && Chain(u, refs) && IsView(v, u, sizeOf, refs)
    requires At(u, v, s, []) && s.writer.phase.Waiting? && s.writer.done == k < |u.steps| && Exchanging(u, v, s, k)
    requires s.mode.Reading?
    ensures WriterCanMove(u, s) && At(u, v, TakeMessage(u, s), [])
  {
    RightIs(u, sizeOf, refs, v, k, s.r, Exchange(s));
    var value := ReplyRight(u, sizeOf, refs, s.r, Exchange(s), k);
    NothingLeft(u, sizeOf, refs, v, k, s.r, Exchange(s));
    ReplyTaken(u, s, AsMessage(u.steps[k].call), value);
    ReplyKeeps(u, v, s, k, value, TakeMessage(u, s));
  }

  /** What the writer does with a memory access. */
  lemma AccessTaken(u: Setup, s: System, request: P.Message, a: P.Action)
    requires s.writer.phase.Waiting? && s.writer.done < |u.steps| && u.steps[s.writer.done].call.Request?
    requires request == AsMessage(u.steps[s.writer.done].call) && P.IsRequestCode(request.code)
    requires !a.Reply? && P.GoodAction(request.code, a) && s.toReader == [] && s.toWriter == P.Wire(P.AccessRequest(a))
    ensures WriterCanMove(u, s)
    ensures var s', p := TakeMessage(u, s), P.WriterMove(request, Exchange(s));
            && Exchange(s') == p
            && s' == s.(toReader := s'.toReader, toWriter := [], writer := s.writer.(mem := s'.writer.mem))
  {
    P.WriterServes(request, Exchange(s), a);
  }

  /** An access in flight is served, and the exchange stays right. */
  lemma AccessRight(u: Setup, sizeOf: nat -> nat, refs: References, s: System, k: nat)
    requires Good(u, sizeOf) && Chain(u, refs) && s.writer.phase.Waiting? && s.writer.done == k < |u.steps|
    requires Right(u, sizeOf, refs, k, s.r, Exchange(s)) && s.mode.Serving? && !s.mode.at.Replied?
             && !s.mode.at.Reading?
    requires WriterCanMove(u, s)
    ensures var s' := TakeMessage(u, s);
            && Right(u, sizeOf, refs, k, s'.r, Exchange(s'))
            && Exchange(s') == P.WriterMove(AsMessage(u.steps[k].call), Exchange(s))
            && s' == s.(toReader := s'.toReader, toWriter := [], writer := s.writer.(mem := s'.writer.mem))
  {
    var request, ref, mem := AsMessage(u.steps[k].call), refs(k + 1), u.steps[k].compute(refs(k).mem);
    RequestAdmissible(u, sizeOf, refs, k);
    var h, e := u.handlers(ref.log), Exchange(s);
    P.WriterKeepsStep(request, h, mem, e);
    assert e.r.Accessing?;
    AccessTaken(u, s, request, e.r.access);
  }

  lemma ExchangeKeeps(u: Setup, v: View, s: System, k: nat, s': System)
    requires At(u, v, s, []) && s.writer.phase.Waiting? && s.writer.done == k < |u.steps| && Exchanging(u, v, s, k)
    requires v.right(k, s'.r, Exchange(s')) && s'.writer == s.writer.(mem := s'.writer.mem)
    requires match s'.mode
             case Serving(request, at) => request == AsMessage(u.steps[k].call) && !at.Replied? && !at.Reading?
             case mode => mode.Reading?
    ensures At(u, v, s', [])
  {
    assert Exchanging(u, v, s', k);
  }

  lemma TakeAccess(u: Setup, sizeOf: nat -> nat, refs: References, v: View, s: System, k: nat)
    requires Good(u, sizeOf) && Chain(u, refs) && IsView(v, u, sizeOf, refs)
    requires At(u, v, s, []) && s.writer.phase.Waiting? && s.writer.done == k < |u.steps| && Exchanging(u, v, s, k)
    requires s.mode.Serving? && WriterCanMove(u, s)
    ensures At(u, v, TakeMessage(u, s), [])
  {
    RightIs(u, sizeOf, refs, v, k, s.r, Exchange(s));
    AccessRight(u, sizeOf, refs, s, k);
    RightIs(u, sizeOf, refs, v, k, s.r, Exchange(TakeMessage(u, s)));
    ExchangeKeeps(u, v, s, k, TakeMessage(u, s));
  }

  // ---- Steps of the reader

  /** A record of the trace that is no request is read. */
  lemma ReadPlain(u: Setup, s: System, rec: Record, rest: seq<Byte>)
    requires s.mode.Reading? && Parse(s.toReader) == Some((rec, rest)) && !IsEnd(rec) && !IsRequestRecord(rec)
    requires Receive(u.junk, s.r, rec).Some?
    ensures ReadRecord(u, s) == s.(r := Receive(u.junk, s.r, rec).value, toReader := rest)
  {
  }

  lemma ReadStreams(u: Setup, sizeOf: nat -> nat, refs: References, v: View, s: System, records: seq<Record>, n: nat,
                    ref: Reference)
    requires IsView(v, u, sizeOf, refs) && Streaming(v, s, records, n, ref) && n > 0 && !IsRequestRecord(records[0])
    ensures s.toReader != []
    ensures var s' := ReadRecord(u, s);
            && s' == s.(r := s'.r, toReader := v.wire(records[1..][..n - 1]))
            && v.leads(s'.r, records[1..], ref.w, ref.log)
  {
    assert Look(0);
    assert Body(records[..n]);
    FirstRead(records[..n], []);
    assert SerializeAll(records[..n]) + [] == s.toReader && records[..n][0] == records[0];
    assert records[..n][1..] == records[1..][..n - 1];
    var rest := SerializeAll(records[1..][..n - 1]);
    assert rest + [] == rest;
    LeadsFromNext(u, sizeOf, s.r, records, ref.w, ref.log);
    ReadPlain(u, s, records[0], rest);
  }

  lemma ReadBetween(u: Setup, v: View, s: System, records: seq<Record>, s': System)
    requires At(u, v, s, records) && s.writer.phase.Between? && records != [] && v.plain(records[1..])
    requires var ref := v.refs(s.writer.done);
             && s' == s.(r := s'.r, toReader := v.wire(records[1..][..|records| - 1]))
             && v.leads(s'.r, records[1..], ref.w, ref.log)
    ensures At(u, v, s', records[1..])
  {
  }

  lemma ReadSending(u: Setup, v: View, s: System, records: seq<Record>, out: nat, k: nat, s': System)
    requires k < |u.steps| && AtSending(u, v, s, records, out, k) && out < |records| && v.ends(records[1..], k)
    requires var ref := v.refs(k + 1);
             && s' == s.(r := s'.r, toReader := v.wire(records[1..][..|records| - out - 1]))
             && v.leads(s'.r, records[1..], ref.w, ref.log)
    ensures AtSending(u, v, s', records[1..], out, k)
  {
  }

  lemma FirstIsPlain(records: seq<Record>, call: Call)
    requires EndsWith(records, call) && records != [] && (call.Request? ==> IsRequest(call.code) && |records| > 1)
    ensures !IsRequestRecord(records[0]) && EndsWith(records[1..], call)
  {
    if call.Request? {
      assert records[..|records| - 1][0] == records[0];
    }
    EndsWithTail(records, call);
  }

  lemma TailIsPlain(u: Setup, sizeOf: nat -> nat, refs: References, v: View, records: seq<Record>)
    requires IsView(v, u, sizeOf, refs) && v.plain(records) && records != []
    ensures !IsRequestRecord(records[0]) && v.plain(records[1..])
  {
    assert Look(0);
  }

  lemma TailEnds(u: Setup, sizeOf: nat -> nat, refs: References, v: View, records: seq<Record>, k: nat)
    requires Good(u, sizeOf) && IsView(v, u, sizeOf, refs) && k < |u.steps| && v.ends(records, k) && records != []
    requires u.steps[k].call.Request? ==> |records| > 1
    ensures !IsRequestRecord(records[0]) && v.ends(records[1..], k)
  {
    assert Look(0);
    assert ValidCall(sizeOf, u.steps[k].call);
    FirstIsPlain(records, u.steps[k].call);
  }

  /** The end record is read. */
  lemma EndRead(u: Setup, s: System)
    requires s.mode.Reading? && s.toReader == SerializeAll([END_RECORD])
    ensures s.toReader != [] && ReadRecord(u, s) == s.(mode := Ended, toReader := [])
  {
    RecordRoundTrip(END_RECORD, []);
    assert SerializeAll([END_RECORD]) == Serialize(END_RECORD) + [];
  }

  /** A record before the end record is read. */
  lemma BeforeEndRead(u: Setup, sizeOf: nat -> nat, refs: References, v: View, s: System, records: seq<Record>,
                      ref: Reference)
    requires IsView(v, u, sizeOf, refs) && s.mode.Reading? && records != [] && v.plain(records)
    requires s.toReader == v.wire(records) + v.wire([END_RECORD]) && v.leads(s.r, records, ref.w, ref.log)
    ensures s.toReader != []
    ensures var s' := ReadRecord(u, s);
            && s' == s.(r := s'.r, toReader := v.wire(records[1..]) + v.wire([END_RECORD])) && v.plain(records[1..])
            && v.leads(s'.r, records[1..], ref.w, ref.log)
  {
    assert Look(0);
    FirstRead(records, SerializeAll([END_RECORD]));
    LeadsFromNext(u, sizeOf, s.r, records, ref.w, ref.log);
    ReadPlain(u, s, records[0], SerializeAll(records[1..]) + SerializeAll([END_RECORD]));
  }

  lemma ReadClosed(u: Setup, v: View, s: System, records: seq<Record>, s': System)
    requires At(u, v, s, records) && s.writer.phase.Closed? && s.mode.Reading? && records != [] && v.plain(records[1..])
    requires s' == s.(r := s'.r, toReader := v.wire(records[1..]) + v.wire([END_RECORD]))
    requires var ref := v.refs(|u.steps|); v.leads(s'.r, records[1..], ref.w, ref.log)
    ensures At(u, v, s', records[1..])
  {
  }

  lemma WireNone(u: Setup, sizeOf: nat -> nat, refs: References, v: View, r: RState, w: WState, log: seq<Event>)
    requires IsView(v, u, sizeOf, refs)
    ensures v.wire([]) == [] && v.wire([END_RECORD]) == SerializeAll([END_RECORD])
    ensures v.leads(r, [], w, log) ==> r.log == log
  {
    assert Look(0);
  }

  lemma ReachEnd(u: Setup, v: View, s: System, s': System)
    requires At(u, v, s, []) && s.writer.phase.Closed? && s.mode.Reading? && s.r.log == v.refs(|u.steps|).log
    requires s' == s.(mode := Ended, toReader := [])
    ensures At(u, v, s', [])
  {
  }

  lemma RequestRead(u: Setup, s: System, call: Call)
    requires s.mode.Reading? && call.Request? && IsRequest(call.code)
    requires var rec := Other(call.code, call.ints, call.blob);
             Parse(s.toReader) == Some((rec, [])) && Receive(u.junk, s.r, rec).Some?
    ensures var r := Receive(u.junk, s.r, Other(call.code, call.ints, call.blob)).value;
            ReadRecord(u, s) == s.(r := r, toReader := [], mode := Serving(AsMessage(call), P.Handling([])))
  {
  }

  lemma LeadsNowhere(u: Setup, sizeOf: nat -> nat, r: RState, w: WState, log: seq<Event>)
    requires Leads(u, sizeOf, r, [], w, log)
    ensures Synced(u.cfg, sizeOf, w, r) && r.log == log
  {
  }

  lemma RequestLeads(u: Setup, sizeOf: nat -> nat, s: System, call: Call, w: WState, log: seq<Event>)
    requires call.Request? && IsRequest(call.code) && s.mode.Reading?
    requires var records := [Other(call.code, call.ints, call.blob)];
             s.toReader == SerializeAll(records) && Leads(u, sizeOf, s.r, records, w, log)
    ensures var s' := ReadRecord(u, s);
            && s' == s.(r := s'.r, toReader := [], mode := Serving(AsMessage(call), P.Handling([])))
            && Synced(u.cfg, sizeOf, w, s'.r) && s'.r.log == log
  {
    var records := [Other(call.code, call.ints, call.blob)];
    assert records[1..] == [];
    FirstRead(records, []);
    assert SerializeAll(records) + [] == s.toReader && SerializeAll([]) + [] == [];
    LeadsFromNext(u, sizeOf, s.r, records, w, log);
    RequestRead(u, s, call);
    LeadsNowhere(u, sizeOf, ReadRecord(u, s).r, w, log);
  }

  lemma ExchangeBegins(u: Setup, sizeOf: nat -> nat, refs: References, s: System, k: nat)
    requires Good(u, sizeOf) && Chain(u, refs) && k < |u.steps| && u.steps[k].call.Request?
    requires s.mode == Serving(AsMessage(u.steps[k].call), P.Handling([])) && s.toReader == [] && s.toWriter == []
    requires s.writer.mem == u.steps[k].compute(refs(k).mem)
    requires Synced(u.cfg, sizeOf, refs(k + 1).w, s.r) && s.r.log == refs(k + 1).log
    ensures Right(u, sizeOf, refs, k, s.r, Exchange(s))
  {
    RequestAdmissible(u, sizeOf, refs, k);
  }

  /** The request is read: the exchange begins. */
  lemma ReadRequest(u: Setup, sizeOf: nat -> nat, refs: References, v: View, s: System, records: seq<Record>, k: nat)
    requires Good(u, sizeOf) && Chain(u, refs) && IsView(v, u, sizeOf, refs) && k < |u.steps|
             && u.steps[k].call.Request?
    requires AtSending(u, v, s, records, 0, k) && |records| == 1
    ensures Exchanging(u, v, ReadRecord(u, s), k) && ReadRecord(u, s).writer == s.writer
  {
    assert Look(0);
    var call, ref := u.steps[k].call, refs(k + 1);
    assert records == [Other(call.code, call.ints, call.blob)] && records[..1] == records;
    RequestAdmissible(u, sizeOf, refs, k);
    RequestLeads(u, sizeOf, s, call, ref.w, ref.log);
    ExchangeBegins(u, sizeOf, refs, ReadRecord(u, s), k);
  }

  /** What a step of a serving reader leaves alone. */
  lemma ServingFrame(request: P.Message, h: P.Handler, e: P.System)
    requires P.Enabled(e, P.ReaderTurn) && !e.r.Reading?
    ensures var p := P.ReaderMove(request, h, e); p.w == e.w && p.mem == e.mem && !p.r.Reading?
  {
  }

  lemma ServeIs(u: Setup, s: System, p: P.System)
    requires s.mode.Serving? && ReaderCanMove(s) && !s.mode.at.Reading? && !s.mode.at.Replied?
    requires p == P.ReaderMove(s.mode.request, u.handlers(s.r.log), Exchange(s)) && !p.r.ReaderAsserts?
    ensures var s' := ServeRequest(u, s);
            && Exchange(s') == p && s' == s.(mode := s'.mode, toReader := p.toReader, toWriter := p.toWriter)
            && match s'.mode
               case Serving(request, at) => request == s.mode.request && !at.Replied? && !at.Reading?
               case mode => mode.Reading?
  {
    ServingFrame(s.mode.request, u.handlers(s.r.log), Exchange(s));
  }

  lemma ServeRight(u: Setup, sizeOf: nat -> nat, refs: References, s: System, k: nat) returns (p: P.System)
    requires Good(u, sizeOf) && Chain(u, refs) && Right(u, sizeOf, refs, k, s.r, Exchange(s)) && ReaderCanMove(s)
    requires s.mode.Serving? && !s.mode.at.Reading? && !s.mode.at.Replied?
             && s.mode.request == AsMessage(u.steps[k].call)
    ensures p == P.ReaderMove(s.mode.request, u.handlers(s.r.log), Exchange(s)) && !p.r.ReaderAsserts?
    ensures Right(u, sizeOf, refs, k, s.r, p)
  {
    var request, ref, mem := AsMessage(u.steps[k].call), refs(k + 1), u.steps[k].compute(refs(k).mem);
    RequestAdmissible(u, sizeOf, refs, k);
    var h, e := u.handlers(ref.log), Exchange(s);
    P.ReaderKeepsStep(request, h, mem, e);
    p := P.ReaderMove(request, h, e);
    P.InStepIsSound(request, h, mem, p);
  }

  lemma ServeKeeps(u: Setup, sizeOf: nat -> nat, refs: References, v: View, s: System, k: nat)
    requires Good(u, sizeOf) && Chain(u, refs) && IsView(v, u, sizeOf, refs)
    requires At(u, v, s, []) && s.writer.phase.Waiting? && s.writer.done == k < |u.steps| && Exchanging(u, v, s, k)
    requires s.mode.Serving? && ReaderCanMove(s)
    ensures At(u, v, ServeRequest(u, s), [])
  {
    RightIs(u, sizeOf, refs, v, k, s.r, Exchange(s));
    var p := ServeRight(u, sizeOf, refs, s, k);
    RightIs(u, sizeOf, refs, v, k, s.r, p);
    ServeIs(u, s, p);
    ExchangeKeeps(u, v, s, k, ServeRequest(u, s));
  }

  // ---- Every step

  /** The records still to be read after a step of the writer, and after one of the reader. */
  function WrittenTo(u: Setup, s: System, records: seq<Record>): seq<Record> {
    if s.writer.phase.Between? && s.writer.done < |u.steps| then
      records + WriterStep(u.cfg, s.writer.w, u.steps[s.writer.done].call).1
    else records
  }

  function ReadFrom(s: System, records: seq<Record>): seq<Record> {
    if s.mode.Reading? && records != [] then records[1..] else records
  }

  lemma BeginStep(u: Setup, sizeOf: nat -> nat, refs: References, v: View, s: System, records: seq<Record>)
    requires Good(u, sizeOf) && Chain(u, refs) && IsView(v, u, sizeOf, refs) && At(u, v, s, records)
    requires s.writer.phase.Between? && s.writer.done < |u.steps|
    ensures At(u, v, BeginCall(u, s), records + WriterStep(u.cfg, s.writer.w, u.steps[s.writer.done].call).1)
  {
    LeadsBegin(u, sizeOf, refs, v, s.r, records, s.writer.done);
    BeginKeeps(u, v, s, records, WriterStep(u.cfg, s.writer.w, u.steps[s.writer.done].call).1, BeginCall(u, s));
  }

  lemma CloseStep(u: Setup, v: View, s: System, records: seq<Record>)
    requires At(u, v, s, records) && s.writer.phase.Between? && s.writer.done == |u.steps|
    requires v.wire([END_RECORD]) == Serialize(END_RECORD)
    ensures At(u, v, BeginCall(u, s), records)
  {
    assert records[..|records|] == records;
  }

  lemma SentMore(u: Setup, s: System, out: seq<Record>)
    requires s.writer.phase == Sending(out) && |out| > 1 && s.writer.done < |u.steps|
    ensures SendRecord(u, s) ==
            s.(toReader := s.toReader + Serialize(out[0]), writer := s.writer.(phase := Sending(out[1..])))
  {
  }

  lemma SendMoreWire(u: Setup, sizeOf: nat -> nat, refs: References, v: View, records: seq<Record>, out: seq<Record>)
    requires IsView(v, u, sizeOf, refs) && out != [] && |out| <= |records| && out == records[|records| - |out|..]
    ensures var n := |records| - |out|; v.wire(records[..n + 1]) == v.wire(records[..n]) + Serialize(out[0])
  {
    TailOf(records, out);
    WireNext(u, sizeOf, refs, v, records, |records| - |out|);
  }

  /** What is known of the records while a call is sent. */
  lemma SendingOut(u: Setup, v: View, s: System, records: seq<Record>)
    requires At(u, v, s, records) && s.writer.phase.Sending?
    ensures var out := s.writer.phase.out;
            s.writer.done < |u.steps| && out != [] && |out| <= |records| && out == records[|records| - |out|..]
  {
  }

  lemma SendMoreStep(u: Setup, sizeOf: nat -> nat, refs: References, v: View, s: System, records: seq<Record>,
                     out: seq<Record>, s': System)
    requires IsView(v, u, sizeOf, refs) && At(u, v, s, records) && s.writer.phase == Sending(out) && |out| > 1
    requires s' == s.(toReader := s.toReader + Serialize(out[0]), writer := s.writer.(phase := Sending(out[1..])))
    ensures At(u, v, s', records)
  {
    SendingOut(u, v, s, records);
    SendMoreWire(u, sizeOf, refs, v, records, out);
    SendMore(u, v, s, records, s', Serialize(out[0]));
  }

  lemma SendLastStep(u: Setup, sizeOf: nat -> nat, refs: References, v: View, s: System, records: seq<Record>)
    requires IsView(v, u, sizeOf, refs) && At(u, v, s, records) && s.writer.phase.Sending? && |s.writer.phase.out| == 1
    ensures AtSending(u, v, SendRecord(u, s), records, 0, s.writer.done)
  {
    TailOf(records, s.writer.phase.out);
    WireNext(u, sizeOf, refs, v, records, |records| - 1);
    SendLast(u, v, s, records, SendRecord(u, s), Serialize(records[|records| - 1]));
  }

  lemma SendStep(u: Setup, sizeOf: nat -> nat, refs: References, v: View, s: System, records: seq<Record>)
    requires Chain(u, refs) && IsView(v, u, sizeOf, refs) && At(u, v, s, records) && s.writer.phase.Sending?
    ensures At(u, v, SendRecord(u, s), records)
  {
    var k := s.writer.done;
    if |s.writer.phase.out| > 1 {
      SendingOut(u, v, s, records);
      SentMore(u, s, s.writer.phase.out);
      SendMoreStep(u, sizeOf, refs, v, s, records, s.writer.phase.out, SendRecord(u, s));
    } else {
      SendLastStep(u, sizeOf, refs, v, s, records);
      if !u.steps[k].call.Request? {
        EndsPlain(u, sizeOf, refs, v, records, k);
        CallDone(u, v, SendRecord(u, s), records, k);
      }
    }
  }

  /** A waiting writer finds a message only in an exchange. */
  lemma MessageMeansExchange(u: Setup, v: View, s: System, records: seq<Record>)
    requires At(u, v, s, records) && s.writer.phase.Waiting? && s.toWriter != []
    ensures records == [] && Exchanging(u, v, s, s.writer.done)
  {
  }

  /** The writer's step keeps the session in step. */
  lemma WriterKeeps(u: Setup, sizeOf: nat -> nat, refs: References, v: View, s: System, records: seq<Record>)
    requires Good(u, sizeOf) && Chain(u, refs) && IsView(v, u, sizeOf, refs) && At(u, v, s, records)
             && WriterCanMove(u, s)
    ensures At(u, v, WriterMove(u, s), WrittenTo(u, s, records))
  {
    match s.writer.phase
    case Between =>
      if s.writer.done < |u.steps| {
        BeginStep(u, sizeOf, refs, v, s, records);
      } else {
        WireNone(u, sizeOf, refs, v, s.r, s.writer.w, s.r.log);
        assert SerializeAll([END_RECORD]) == Serialize(END_RECORD) + [];
        CloseStep(u, v, s, records);
      }
    case Sending(_) => SendStep(u, sizeOf, refs, v, s, records);
    case Waiting =>
      MessageMeansExchange(u, v, s, records);
      if s.mode.Serving? {
        TakeAccess(u, sizeOf, refs, v, s, s.writer.done);
      } else {
        TakeReply(u, sizeOf, refs, v, s, s.writer.done);
      }
  }

  lemma ReadInCall(u: Setup, sizeOf: nat -> nat, refs: References, v: View, s: System, records: seq<Record>, out: nat,
                   k: nat)
    requires Good(u, sizeOf) && Chain(u, refs) && IsView(v, u, sizeOf, refs) && k < |u.steps|
    requires AtSending(u, v, s, records, out, k) && out < |records| && (u.steps[k].call.Request? ==> |records| > 1)
    ensures AtSending(u, v, ReadRecord(u, s), records[1..], out, k) && ReadRecord(u, s).writer == s.writer
  {
    TailEnds(u, sizeOf, refs, v, records, k);
    ReadStreams(u, sizeOf, refs, v, s, records, |records| - out, refs(k + 1));
    ReadSending(u, v, s, records, out, k, ReadRecord(u, s));
  }

  lemma ReadBetweenStep(u: Setup, sizeOf: nat -> nat, refs: References, v: View, s: System, records: seq<Record>)
    requires IsView(v, u, sizeOf, refs) && At(u, v, s, records) && s.writer.phase.Between? && records != []
    ensures At(u, v, ReadRecord(u, s), records[1..])
  {
    TailIsPlain(u, sizeOf, refs, v, records);
    ReadStreams(u, sizeOf, refs, v, s, records, |records|, refs(s.writer.done));
    ReadBetween(u, v, s, records, ReadRecord(u, s));
  }

  lemma StillSending(u: Setup, v: View, s: System, records: seq<Record>, s': System)
    requires At(u, v, s, records) && s.writer.phase.Sending? && |s.writer.phase.out| < |records|
             && s'.writer == s.writer
    requires AtSending(u, v, s', records[1..], |s.writer.phase.out|, s.writer.done)
    ensures At(u, v, s', records[1..])
  {
    var out := s.writer.phase.out;
    assert records[1..][|records[1..]| - |out|..] == records[|records| - |out|..];
  }

  lemma StillWaiting(u: Setup, v: View, s: System, records: seq<Record>, s': System, records': seq<Record>)
    requires At(u, v, s, records) && s.writer.phase.Waiting? && s'.writer == s.writer
    requires var k := s.writer.done;
             AtSending(u, v, s', records', 0, k) || (records' == [] && Exchanging(u, v, s', k))
    ensures At(u, v, s', records')
  {
  }

  lemma ReadClosedStep(u: Setup, sizeOf: nat -> nat, refs: References, v: View, s: System, records: seq<Record>)
    requires IsView(v, u, sizeOf, refs) && At(u, v, s, records) && s.writer.phase.Closed? && s.mode.Reading?
    ensures At(u, v, ReadRecord(u, s), if records == [] then [] else records[1..])
  {
    var ref := refs(|u.steps|);
    WireNone(u, sizeOf, refs, v, s.r, ref.w, ref.log);
    if records == [] {
      assert [] + v.wire([END_RECORD]) == v.wire([END_RECORD]);
      EndRead(u, s);
      ReachEnd(u, v, s, ReadRecord(u, s));
    } else {
      BeforeEndRead(u, sizeOf, refs, v, s, records, ref);
      ReadClosed(u, v, s, records, ReadRecord(u, s));
    }
  }

  lemma IdleWhenReplied(u: Setup, sizeOf: nat -> nat, refs: References, v: View, s: System, k: nat)
    requires IsView(v, u, sizeOf, refs) && k < |u.steps| && Exchanging(u, v, s, k) && s.mode.Reading?
    ensures s.toReader == []
  {
    RightIs(u, sizeOf, refs, v, k, s.r, Exchange(s));
  }

  /** A reader that finds bytes has a record to read, unless it is the end record. */
  lemma BytesMeanRecords(u: Setup, sizeOf: nat -> nat, refs: References, v: View, s: System, records: seq<Record>)
    requires IsView(v, u, sizeOf, refs) && At(u, v, s, records) && s.mode.Reading? && s.toReader != []
    ensures match s.writer.phase
            case Between => records != []
            case Sending(out) => |out| < |records|
            case Waiting => records != [] && AtSending(u, v, s, records, 0, s.writer.done)
            case _ => true
  {
    WireNone(u, sizeOf, refs, v, s.r, s.writer.w, s.r.log);
    assert records[..0] == [];
    if s.writer.phase.Waiting? && records == [] && Exchanging(u, v, s, s.writer.done) {
      IdleWhenReplied(u, sizeOf, refs, v, s, s.writer.done);
    }
  }

  lemma ReadMove(u: Setup, sizeOf: nat -> nat, refs: References, v: View, s: System, records: seq<Record>)
    requires Good(u, sizeOf) && Chain(u, refs) && IsView(v, u, sizeOf, refs) && At(u, v, s, records)
    requires s.mode.Reading? && s.toReader != []
    ensures At(u, v, ReadRecord(u, s), ReadFrom(s, records))
  {
    BytesMeanRecords(u, sizeOf, refs, v, s, records);
    var k := s.writer.done;
    match s.writer.phase
    case Between => ReadBetweenStep(u, sizeOf, refs, v, s, records);
    case Sending(out) =>
      ReadInCall(u, sizeOf, refs, v, s, records, |out|, k);
      StillSending(u, v, s, records, ReadRecord(u, s));
    case Waiting =>
      if |records| == 1 {
        ReadRequest(u, sizeOf, refs, v, s, records, k);
        assert records[1..] == [];
      } else {
        ReadInCall(u, sizeOf, refs, v, s, records, 0, k);
      }
      StillWaiting(u, v, s, records, ReadRecord(u, s), records[1..]);
    case Closed => ReadClosedStep(u, sizeOf, refs, v, s, records);
  }

  /** A reader that serves a request is in an exchange. */
  lemma ServingMeansExchange(u: Setup, v: View, s: System, records: seq<Record>)
    requires At(u, v, s, records) && s.mode.Serving?
    ensures s.writer.phase.Waiting? && records == [] && s.writer.done < |u.steps| && Exchanging(u, v, s, s.writer.done)
  {
  }

  /** The reader's step keeps the session in step. */
  lemma ReaderKeeps(u: Setup, sizeOf: nat -> nat, refs: References, v: View, s: System, records: seq<Record>)
    requires Good(u, sizeOf) && Chain(u, refs) && IsView(v, u, sizeOf, refs) && At(u, v, s, records) && ReaderCanMove(s)
    ensures At(u, v, ReaderMove(u, s), ReadFrom(s, records))
  {
    if s.mode.Reading? {
      ReadMove(u, sizeOf, refs, v, s, records);
    } else {
      ServingMeansExchange(u, v, s, records);
      ServeKeeps(u, sizeOf, refs, v, s, s.writer.done);
    }
  }
}
