/**
 * The two-channel exchange behind a request: the writer sends it and serves memory accesses from its reply loop; the
 * reader runs a handler that may access the writer's memory before it replies. Each side is a process that blocks
 * until a complete message is at the head of its channel.
 */
module SiftProtocol {
  import opened Prelude
  import opened Bytes
  import opened SiftFormat

  const MEM_READ: nat := 1
  const MEM_WRITE: nat := 2

  type Memory = map<nat, Byte>

  function Peek(mem: Memory, addr: nat, n: nat): (b: seq<Byte>)
    ensures |b| == n
  {
    seq(n, (i: nat) => if addr + i in mem then mem[addr + i] else 0)
  }

  function Poke(mem: Memory, addr: nat, data: seq<Byte>): Memory
    decreases |data|
  {
    if data == [] then mem else Poke(mem[addr := data[0]], addr + 1, data[1..])
  }

  datatype Action =
    | Reply(value: seq<Byte>)
    | ReadMemory(lock: nat, addr: nat, size: nat)
    | WriteMemory(lock: nat, addr: nat, data: seq<Byte>)

  /** A handler chooses its next action from the answers it got so far; after `bound` answers it replies. */
  datatype Handler = Handler(next: seq<seq<Byte>> -> Action, bound: nat)

  ghost predicate Finite(h: Handler) {
    forall answers :: |answers| >= h.bound ==> h.next(answers).Reply?
  }

  /** Reference meaning: the handler run directly on the writer's memory. */
  ghost function Direct(h: Handler, answers: seq<seq<Byte>>, mem: Memory): (seq<Byte>, Memory)
    requires Finite(h)
    decreases h.bound - |answers|
  {
    match h.next(answers)
    case Reply(value) => (value, mem)
    case ReadMemory(_, addr, size) => Direct(h, answers + [Peek(mem, addr, size)], mem)
    case WriteMemory(_, addr, data) => Direct(h, answers + [[]], Poke(mem, addr, data))
  }

  function ResponseCode(request: Byte): Byte {
    if request == REC_SYSCALL_REQUEST then REC_SYSCALL_RESPONSE
    else if request == REC_NEW_THREAD then REC_NEW_THREAD_RESPONSE
    else if request == REC_JOIN then REC_JOIN_RESPONSE
    else if request == REC_MAGIC then REC_MAGIC_RESPONSE
    else if request == REC_EMU then REC_EMU_RESPONSE
    else if request == REC_FORK then REC_FORK_RESPONSE
    else REC_SYNC_RESPONSE // for Sync and InstructionCount
  }

  function ResponseSize(request: Byte): nat {
    if request in {REC_SYSCALL_REQUEST, REC_MAGIC} then 8
    else if request == REC_EMU then 1 + EMU_REPLY_SIZE
    else 4
  }

  /** An emulation reply may be shorter, from a reader with fewer reply fields. */
  predicate ResponseFits(request: Byte, n: nat) {
    n == ResponseSize(request) || (request == REC_EMU && 1 <= n <= ResponseSize(request))
  }

  /** Requests whose reply loop also serves memory accesses. */
  predicate Nests(request: Byte) {
    request in {REC_SYSCALL_REQUEST, REC_SYNC, REC_MAGIC, REC_EMU}
  }

  predicate IsRequestCode(code: Byte) {
    Nests(code) || code in {REC_INSTRUCTION_COUNT, REC_NEW_THREAD, REC_JOIN, REC_FORK}
  }

  /** A reply has the type that follows that of its request, except that an instruction count is answered as a sync. */
  lemma ReplyFollowsRequest(request: Byte)
    requires IsRequestCode(request)
    ensures ResponseCode(request) == (if request == 23 then 13 else request + 1)
    ensures ResponseSize(request) == (if request in {2, 15} then 8 else if request == 19 then 25 else 4)
    ensures Nests(request) <==> request in {2, 12, 15, 19}
    ensures forall n: nat :: ResponseFits(request, n) <==>
                             n == ResponseSize(request) || (request == 19 && 1 <= n <= 25)
  {
  }

  // ---- Messages

  datatype Message = Message(code: Byte, ints: seq<nat>, blob: seq<Byte>)

  function Wire(m: Message): seq<Byte> { SerializeOther(m.code, Layout(m.code), m.ints, m.blob) }

  /** A blocking read of one record can complete: its header and as many bytes as the header announces are there. */
  predicate Arrived(ch: seq<Byte>) { |ch| >= 6 && |ch| >= 6 + FromLE(ch[2..6]) }

  function Receive(ch: seq<Byte>): Option<(Message, seq<Byte>)> {
    if |ch| < 6 then None
    else
      var (ints, blob, rest) :- ParseBody(Layout(ch[1]), FromLE(ch[2..6]), ch[6..]);
      Some((Message(ch[1], ints, blob), rest))
  }

  function AccessRequest(a: Action): Message
    requires !a.Reply?
  {
    match a
    case ReadMemory(lock, addr, size) => Message(REC_MEMORY_REQUEST, [addr, size, lock, MEM_READ], [])
    case WriteMemory(lock, addr, data) => Message(REC_MEMORY_REQUEST, [addr, |data|, lock, MEM_WRITE], data)
  }

  function AccessResponse(a: Action, mem: Memory): Message
    requires !a.Reply?
  {
    match a
    case ReadMemory(_, addr, size) => Message(REC_MEMORY_RESPONSE, [addr, MEM_READ], Peek(mem, addr, size))
    case WriteMemory(_, addr, _) => Message(REC_MEMORY_RESPONSE, [addr, MEM_WRITE], [])
  }

  // ---- The two processes

  datatype WriterState = Start | Waiting | Returned(value: seq<Byte>) | WriterAsserts

  datatype ReaderState =
    | Reading
    | Handling(answers: seq<seq<Byte>>)
    | Accessing(answers: seq<seq<Byte>>, access: Action)
    | Replied
    | ReaderAsserts

  datatype System = System(w: WriterState, r: ReaderState, toReader: seq<Byte>, toWriter: seq<Byte>, mem: Memory)

  predicate WriterCanStep(s: System) { s.w.Start? || (s.w.Waiting? && Arrived(s.toWriter)) }

  predicate ReaderCanStep(s: System) {
    s.r.Handling? || ((s.r.Reading? || s.r.Accessing?) && Arrived(s.toReader))
  }

  /** handleMemoryRequest: the access is carried out on the writer's memory and answered. */
  function ServeAccess(s: System, m: Message, rest: seq<Byte>): System {
    if |m.ints| != 4 then s.(w := WriterAsserts)
    else
      var addr, size, op := m.ints[0], m.ints[1], m.ints[3];
      if op == MEM_READ && |m.blob| == 0 && size > 0 then
        s.(toWriter := rest,
           toReader := s.toReader + Wire(Message(REC_MEMORY_RESPONSE, [addr, op], Peek(s.mem, addr, size))))
      else if op == MEM_WRITE && |m.blob| > 0 && |m.blob| == size then
        s.(toWriter := rest, toReader := s.toReader + Wire(Message(REC_MEMORY_RESPONSE, [addr, op], [])),
           mem := Poke(s.mem, addr, m.blob))
      else s.(w := WriterAsserts)
  }

  /** One step of the writer: send the request, or take one message in the reply loop. */
  function WriterMove(request: Message, s: System): System
    requires WriterCanStep(s)
  {
    if s.w.Start? then s.(w := Waiting, toReader := s.toReader + Wire(request))
    else
      match Receive(s.toWriter)
      case None => s.(w := WriterAsserts)
      case Some((m, rest)) =>
        if s.toWriter[0] != 0 then s.(w := WriterAsserts)
        else if m.code == ResponseCode(request.code) then
          if ResponseFits(request.code, |m.blob|) then s.(w := Returned(m.blob), toWriter := rest)
          else s.(w := WriterAsserts)
        else if m.code == REC_MEMORY_REQUEST && Nests(request.code) then ServeAccess(s, m, rest)
        else s.(w := WriterAsserts)
  }

  /** AccessMemory, second half: the answer to an access. */
  function TakeAnswer(s: System, answers: seq<seq<Byte>>, a: Action): System
    requires !a.Reply?
  {
    match Receive(s.toReader)
    case None => s.(r := ReaderAsserts)
    case Some((m, rest)) =>
      if m.code == REC_MEMORY_RESPONSE && |m.ints| == 2 && m.ints[0] == a.addr
         && |m.blob| == (if a.ReadMemory? then a.size else 0)
      then s.(r := Handling(answers + [m.blob]), toReader := rest)
      else s.(r := ReaderAsserts)
  }

  /** One step of the reader: take the request, run the handler up to its next action, or take an answer. */
  function ReaderMove(request: Message, h: Handler, s: System): System
    requires ReaderCanStep(s) && (s.r.Accessing? ==> !s.r.access.Reply?)
  {
    match s.r
    case Reading =>
      if Parse(s.toReader).Some? then
        var (rec, rest) := Parse(s.toReader).value;
        if rec == Other(request.code, request.ints, request.blob) then s.(r := Handling([]), toReader := rest)
        else s.(r := ReaderAsserts)
      else s.(r := ReaderAsserts)
    case Handling(answers) =>
      (match h.next(answers)
       case Reply(value) =>
         s.(r := Replied, toWriter := s.toWriter + Wire(Message(ResponseCode(request.code), [], value)))
       case a => s.(r := Accessing(answers, a), toWriter := s.toWriter + Wire(AccessRequest(a))))
    case Accessing(answers, a) => TakeAnswer(s, answers, a)
    case _ => s
  }

  // ---- Safety, progress and result

  /** What the reply loop and the access routine demand of a handler's action. */
  ghost predicate GoodAction(request: Byte, a: Action) {
    match a
    case Reply(value) => |value| == ResponseSize(request)
    case ReadMemory(lock, addr, size) =>
      Nests(request) && 0 < size && size + 12 < TWO_32 && addr < TWO_64 && lock < TWO_32
    case WriteMemory(lock, addr, data) =>
      Nests(request) && 0 < |data| && |data| + 20 < TWO_32 && addr < TWO_64 && lock < TWO_32
  }

  ghost predicate Admissible(request: Message, h: Handler) {
    && IsRequestCode(request.code) && WellFormed(Other(request.code, request.ints, request.blob))
    && Finite(h) && forall answers :: GoodAction(request.code, h.next(answers))
  }

  ghost predicate Sendable(m: Message) {
    Fits(Layout(m.code), m.ints) && Sum(Layout(m.code)) + |m.blob| < TWO_32
  }

  lemma WireLength(code: Byte, widths: seq<nat>, ints: seq<nat>, blob: seq<Byte>)
    requires Fits(widths, ints)
    ensures |SerializeOther(code, widths, ints, blob)| == 6 + Sum(widths) + |blob|
  {
    EncodeLength(widths, ints);
  }

  /** A message is received as it was sent. */
  lemma WireReceived(m: Message)
    requires Sendable(m)
    ensures var ch := Wire(m); Arrived(ch) && ch[0] == 0 && Receive(ch) == Some((m, []))
  {
    OtherBytesRoundTrip(m.code, Layout(m.code), m.ints, m.blob, []);
    WireLength(m.code, Layout(m.code), m.ints, m.blob);
    var ch := Wire(m);
    assert ch + [] == ch;
    var parsed := ParseBody(Layout(m.code), FromLE(ch[2..6]), ch[6..]);
    assert FromLE(ch[2..6]) == Sum(Layout(m.code)) + |m.blob|;
  }

  lemma AccessSendable(request: Byte, a: Action, mem: Memory)
    requires GoodAction(request, a) && !a.Reply?
    ensures Sendable(AccessRequest(a)) && Sendable(AccessResponse(a, mem))
  {
    Widths();
    assert Sum([8, 4, 4, 4]) == 20 && Sum([8, 4]) == 12;
  }

  lemma ReplySendable(request: Byte, value: seq<Byte>)
    requires IsRequestCode(request) && |value| == ResponseSize(request)
    ensures Sendable(Message(ResponseCode(request), [], value)) && ResponseCode(request) != REC_MEMORY_REQUEST
  {
  }

  const IDLE: seq<Byte> := []

  function Init(mem: Memory): System { System(Start, Reading, IDLE, IDLE, mem) }

  /** Where the exchange stands: who holds the turn, what is in flight, and what is still to be computed. */
  ghost predicate InStep(request: Message, h: Handler, mem0: Memory, s: System)
    requires Finite(h)
  {
    var goal := Direct(h, [], mem0);
    match (s.w, s.r)
    case (Start, Reading) => s == Init(mem0)
    case (Waiting, Reading) => s.toReader == Wire(request) && s.toWriter == IDLE && s.mem == mem0
    case (Waiting, Handling(answers)) =>
      s.toReader == IDLE && s.toWriter == IDLE && |answers| <= h.bound && Direct(h, answers, s.mem) == goal
    case (Waiting, Accessing(answers, a)) =>
      && |answers| < h.bound && a == h.next(answers) && !a.Reply?
      && (|| (s.toReader == IDLE && s.toWriter == Wire(AccessRequest(a)) && Direct(h, answers, s.mem) == goal)
          || (s.toReader == Wire(AccessResponse(a, s.mem)) && s.toWriter == IDLE
              && Direct(h, answers + [AccessResponse(a, s.mem).blob], s.mem) == goal))
    case (Waiting, Replied) =>
      s.toReader == IDLE && s.toWriter == Wire(Message(ResponseCode(request.code), [], goal.0)) && s.mem == goal.1
    case (Returned(value), Replied) => s.toReader == IDLE && s.toWriter == IDLE && value == goal.0 && s.mem == goal.1
    case _ => false
  }

  /** Neither side is in a failed state. */
  predicate NoAssertion(s: System) { !s.w.WriterAsserts? && !s.r.ReaderAsserts? }

  lemma RequestTaken(request: Message, h: Handler)
    requires Admissible(request, h)
    ensures Arrived(Wire(request))
            && Parse(Wire(request)) == Some((Other(request.code, request.ints, request.blob), []))
  {
    var rec := Other(request.code, request.ints, request.blob);
    RecordRoundTrip(rec, []);
    assert Serialize(rec) + [] == Wire(request);
    WireReceived(request);
  }

  function AfterAccess(a: Action, mem: Memory): Memory {
    if a.WriteMemory? then Poke(mem, a.addr, a.data) else mem
  }

  /** What the reply loop does with a memory request at the head of its channel. */
  lemma WriterMeetsAccess(request: Message, s: System, m: Message)
    requires IsRequestCode(request.code) && s.w.Waiting? && m.code == REC_MEMORY_REQUEST
    requires Arrived(s.toWriter) && s.toWriter[0] == 0 && Receive(s.toWriter) == Some((m, []))
    ensures WriterMove(request, s) == if Nests(request.code) then ServeAccess(s, m, []) else s.(w := WriterAsserts)
  {
  }

  function AccessSize(a: Action): nat
    requires !a.Reply?
  {
    if a.ReadMemory? then a.size else |a.data|
  }

  lemma ServedExactlyWhen(s: System, a: Action)
    requires s.w.Waiting? && !a.Reply?
    ensures ServeAccess(s, AccessRequest(a), []).w.WriterAsserts? <==> AccessSize(a) == 0
    ensures ServeAccess(s, AccessRequest(a), []).r == s.r
  {
  }

  /** A good access carried out. */
  lemma ServeGood(s: System, a: Action)
    requires s.w.Waiting? && !a.Reply? && AccessSize(a) > 0 && s.toReader == IDLE
    ensures ServeAccess(s, AccessRequest(a), IDLE) ==
            s.(toWriter := IDLE, toReader := Wire(AccessResponse(a, s.mem)), mem := AfterAccess(a, s.mem))
  {
    assert IDLE + Wire(AccessResponse(a, s.mem)) == Wire(AccessResponse(a, s.mem));
  }

  lemma WriterServes(request: Message, s: System, a: Action)
    requires IsRequestCode(request.code) && GoodAction(request.code, a) && !a.Reply?
    requires s.w.Waiting? && s.toReader == IDLE && s.toWriter == Wire(AccessRequest(a))
    ensures WriterCanStep(s)
    ensures WriterMove(request, s) ==
            s.(toWriter := IDLE, toReader := Wire(AccessResponse(a, s.mem)), mem := AfterAccess(a, s.mem))
    ensures AccessResponse(a, AfterAccess(a, s.mem)) == AccessResponse(a, s.mem)
  {
    AccessSendable(request.code, a, s.mem);
    WireReceived(AccessRequest(a));
    WriterMeetsAccess(request, s, AccessRequest(a));
    ServeGood(s, a);
  }

  lemma WriterReturns(request: Message, s: System, value: seq<Byte>)
    requires IsRequestCode(request.code) && |value| == ResponseSize(request.code)
    requires s.w.Waiting? && s.toWriter == Wire(Message(ResponseCode(request.code), [], value))
    ensures WriterCanStep(s) && WriterMove(request, s) == s.(w := Returned(value), toWriter := IDLE)
  {
    ReplySendable(request.code, value);
    WireReceived(Message(ResponseCode(request.code), [], value));
  }

  lemma ReaderTakesAnswer(request: Message, h: Handler, s: System)
    requires s.r.Accessing? && !s.r.access.Reply? && GoodAction(request.code, s.r.access)
    requires s.toReader == Wire(AccessResponse(s.r.access, s.mem))
    ensures ReaderCanStep(s)
    ensures ReaderMove(request, h, s) ==
            s.(r := Handling(s.r.answers + [AccessResponse(s.r.access, s.mem).blob]), toReader := IDLE)
  {
    AccessSendable(request.code, s.r.access, s.mem);
    WireReceived(AccessResponse(s.r.access, s.mem));
  }

  /** A step of the writer keeps the exchange in step. */
  lemma WriterKeepsStep(request: Message, h: Handler, mem0: Memory, s: System)
    requires Admissible(request, h) && InStep(request, h, mem0, s) && WriterCanStep(s)
    ensures InStep(request, h, mem0, WriterMove(request, s))
  {
    match (s.w, s.r)
    case (Start, Reading) => assert IDLE + Wire(request) == Wire(request);
    case (Waiting, Accessing(answers, a)) => WriterServes(request, s, a);
    case (Waiting, Replied) =>
      DirectGood(request, h, [], mem0);
      WriterReturns(request, s, Direct(h, [], mem0).0);
  }

  /** The reply of a good handler has the size its request expects. */
  lemma {:induction false} DirectGood(request: Message, h: Handler, answers: seq<seq<Byte>>, mem: Memory)
    requires Admissible(request, h)
    ensures |Direct(h, answers, mem).0| == ResponseSize(request.code)
    decreases h.bound - |answers|
  {
    assert GoodAction(request.code, h.next(answers));
    match h.next(answers)
    case Reply(_) =>
    case ReadMemory(_, addr, size) => DirectGood(request, h, answers + [Peek(mem, addr, size)], mem);
    case WriteMemory(_, addr, data) => DirectGood(request, h, answers + [[]], Poke(mem, addr, data));
  }

  /** A step of the reader keeps the exchange in step. */
  lemma ReaderKeepsStep(request: Message, h: Handler, mem0: Memory, s: System)
    requires Admissible(request, h) && InStep(request, h, mem0, s) && ReaderCanStep(s)
    ensures InStep(request, h, mem0, ReaderMove(request, h, s))
  {
    match (s.w, s.r)
    case (Waiting, Reading) => RequestTaken(request, h);
    case (Waiting, Handling(answers)) =>
      var a := h.next(answers);
      if a.Reply? {
        assert IDLE + Wire(Message(ResponseCode(request.code), [], a.value)) ==
               Wire(Message(ResponseCode(request.code), [], a.value));
      } else {
        assert IDLE + Wire(AccessRequest(a)) == Wire(AccessRequest(a));
      }
    case (Waiting, Accessing(answers, a)) => ReaderTakesAnswer(request, h, s);
  }

  // ---- Runs

  datatype Turn = WriterTurn | ReaderTurn

  predicate Enabled(s: System, t: Turn) {
    if t.WriterTurn? then WriterCanStep(s) else ReaderCanStep(s) && (s.r.Accessing? ==> !s.r.access.Reply?)
  }

  function Move(request: Message, h: Handler, s: System, t: Turn): System
    requires Enabled(s, t)
  {
    if t.WriterTurn? then WriterMove(request, s) else ReaderMove(request, h, s)
  }

  /** Any interleaving of enabled steps of the two processes. */
  ghost predicate IsRun(request: Message, h: Handler, states: seq<System>, turns: seq<Turn>) {
    && |states| == |turns| + 1
    && forall i | 0 <= i < |turns| ::
         Enabled(states[i], turns[i]) && states[i + 1] == Move(request, h, states[i], turns[i])
  }

  /** In every reachable state short of the end exactly one side can move: no deadlock, and no race either. */
  lemma ExactlyOneMoves(request: Message, h: Handler, mem0: Memory, s: System)
    requires Admissible(request, h) && InStep(request, h, mem0, s)
    ensures if s.w.Returned? then !WriterCanStep(s) && !Enabled(s, ReaderTurn)
            else WriterCanStep(s) <==> !Enabled(s, ReaderTurn)
  {
    match (s.w, s.r)
    case (Start, Reading) =>
    case (Waiting, Reading) => RequestTaken(request, h);
    case (Waiting, Handling(_)) =>
    case (Waiting, Accessing(answers, a)) =>
      AccessSendable(request.code, a, s.mem);
      WireReceived(AccessRequest(a));
      WireReceived(AccessResponse(a, s.mem));
    case (Waiting, Replied) =>
      DirectGood(request, h, [], mem0);
      WriterReturns(request, s, Direct(h, [], mem0).0);
    case (Returned(_), Replied) =>
  }

  /** Steps left at most. */
  function Rank(h: Handler, s: System): int {
    match (s.w, s.r)
    case (Start, _) => 3 * h.bound + 4
    case (Waiting, Reading) => 3 * h.bound + 3
    case (Waiting, Handling(answers)) => 3 * (h.bound - |answers|) + 2
    case (Waiting, Accessing(answers, _)) => 3 * (h.bound - |answers|) + if |s.toReader| == 0 then 1 else 0
    case (Waiting, Replied) => 1
    case _ => 0
  }

  lemma WriterDescends(request: Message, h: Handler, mem0: Memory, s: System)
    requires Admissible(request, h) && InStep(request, h, mem0, s) && WriterCanStep(s)
    ensures Rank(h, WriterMove(request, s)) < Rank(h, s)
  {
    match (s.w, s.r)
    case (Start, Reading) =>
    case (Waiting, Accessing(_, a)) =>
      WriterServes(request, s, a);
      AccessSendable(request.code, a, s.mem);
      WireReceived(AccessResponse(a, s.mem));
    case (Waiting, Replied) =>
      DirectGood(request, h, [], mem0);
      WriterReturns(request, s, Direct(h, [], mem0).0);
  }

  lemma ReaderDescends(request: Message, h: Handler, mem0: Memory, s: System)
    requires Admissible(request, h) && InStep(request, h, mem0, s) && ReaderCanStep(s)
    ensures Rank(h, ReaderMove(request, h, s)) < Rank(h, s)
  {
    match (s.w, s.r)
    case (Waiting, Reading) => RequestTaken(request, h);
    case (Waiting, Handling(_)) =>
    case (Waiting, Accessing(_, _)) => ReaderTakesAnswer(request, h, s);
  }

  /** One step of either side keeps the exchange in step and brings its end nearer. */
  lemma StepKeepsStep(request: Message, h: Handler, mem0: Memory, s: System, turn: Turn)
    requires Admissible(request, h) && InStep(request, h, mem0, s) && Enabled(s, turn)
    ensures var s' := Move(request, h, s, turn); InStep(request, h, mem0, s') && Rank(h, s') < Rank(h, s)
  {
    if turn.WriterTurn? {
      WriterKeepsStep(request, h, mem0, s);
      WriterDescends(request, h, mem0, s);
    } else {
      ReaderKeepsStep(request, h, mem0, s);
      ReaderDescends(request, h, mem0, s);
    }
  }

  lemma {:induction false} RunStateInStep(request: Message, h: Handler, mem0: Memory, states: seq<System>,
                                          turns: seq<Turn>, i: nat)
    requires Admissible(request, h) && IsRun(request, h, states, turns) && states[0] == Init(mem0) && i <= |turns|
    ensures InStep(request, h, mem0, states[i]) && i + Rank(h, states[i]) <= 3 * h.bound + 4
  {
    if i > 0 {
      var k := i - 1;
      RunStateInStep(request, h, mem0, states, turns, k);
      assert Enabled(states[k], turns[k]) && states[k + 1] == Move(request, h, states[k], turns[k]);
      StepKeepsStep(request, h, mem0, states[k], turns[k]);
    }
  }

  lemma InStepIsSound(request: Message, h: Handler, mem0: Memory, s: System)
    requires Finite(h) && InStep(request, h, mem0, s)
    ensures NoAssertion(s)
  {
  }

  /** Every run stays in step, raises no assertion, and is at most 3 * bound + 4 steps long. */
  lemma RunInStep(request: Message, h: Handler, mem0: Memory, states: seq<System>, turns: seq<Turn>)
    requires Admissible(request, h) && IsRun(request, h, states, turns) && states[0] == Init(mem0)
    ensures forall i | 0 <= i < |states| :: InStep(request, h, mem0, states[i]) && NoAssertion(states[i])
    ensures |turns| + Rank(h, states[|turns|]) <= 3 * h.bound + 4
  {
    forall i | 0 <= i < |states|
      ensures InStep(request, h, mem0, states[i]) && NoAssertion(states[i])
    {
      RunStateInStep(request, h, mem0, states, turns, i);
      InStepIsSound(request, h, mem0, states[i]);
    }
    RunStateInStep(request, h, mem0, states, turns, |turns|);
  }

  /**
   * The nested exchange computes what the handler would have computed on the writer's own memory: a run that cannot
   * go on has returned the handler's reply to the writer and left memory as the handler left it.
   */
  lemma ExchangeRefinesDirect(request: Message, h: Handler, mem0: Memory, states: seq<System>, turns: seq<Turn>)
    requires Admissible(request, h) && IsRun(request, h, states, turns) && states[0] == Init(mem0)
    requires !Enabled(states[|turns|], WriterTurn) && !Enabled(states[|turns|], ReaderTurn)
    ensures var final := states[|turns|];
            && final.w == Returned(Direct(h, [], mem0).0) && final.mem == Direct(h, [], mem0).1
            && final.toReader == [] && final.toWriter == []
  {
    RunInStep(request, h, mem0, states, turns);
    ExactlyOneMoves(request, h, mem0, states[|turns|]);
  }

  lemma LargeAccessSendable(a: Action)
    requires !a.Reply? && a.addr < TWO_64 && a.lock < TWO_32 && AccessSize(a) + 20 < TWO_32
    ensures Sendable(AccessRequest(a))
  {
    Widths();
    assert Sum([8, 4, 4, 4]) == 20;
  }

  /**
   * Which accesses the writer serves: exactly the non-empty ones, and only inside a request whose loop expects them.
   */
  lemma AccessServedExactlyWhen(request: Message, h: Handler, s: System)
    requires IsRequestCode(request.code) && s.w.Waiting? && s.r.Handling? && s.toReader == IDLE && s.toWriter == IDLE
    requires var a := h.next(s.r.answers);
             !a.Reply? && a.addr < TWO_64 && a.lock < TWO_32 && AccessSize(a) + 20 < TWO_32
    ensures var asked := ReaderMove(request, h, s);
            && WriterCanStep(asked)
            && (NoAssertion(WriterMove(request, asked)) <==> Nests(request.code) && AccessSize(h.next(s.r.answers)) > 0)
  {
    var a := h.next(s.r.answers);
    LargeAccessSendable(a);
    WireReceived(AccessRequest(a));
    var asked := s.(r := Accessing(s.r.answers, a), toWriter := Wire(AccessRequest(a)));
    assert ReaderMove(request, h, s) == asked by {
      assert IDLE + Wire(AccessRequest(a)) == Wire(AccessRequest(a));
    }
    WriterMeetsAccess(request, asked, AccessRequest(a));
    ServedExactlyWhen(asked, a);
  }

  /** What was written is read back, and nothing else changed. */
  lemma {:induction false} PokePeek(mem: Memory, addr: nat, data: seq<Byte>, k: nat)
    ensures var mem' := Poke(mem, addr, data);
            if addr <= k < addr + |data| then k in mem' && mem'[k] == data[k - addr]
            else (k in mem' <==> k in mem) && (k in mem ==> mem'[k] == mem[k])
    decreases |data|
  {
    if data != [] {
      PokePeek(mem[addr := data[0]], addr + 1, data[1..], k);
    }
  }
}
