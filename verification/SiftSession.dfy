/**
 * A whole trace with its requests, as two processes over one pair of channels: the writer runs ahead of the reader with
 * the records of its calls, and waits for the reply to each request; the reader works through the records that are
 * still in the channel, and serves the request when it comes to it.
 */
module SiftSession {
  import opened Prelude
  import opened Bytes
  import opened SiftFormat
  import opened SiftTrace
  import opened SiftRoundTrip
  import P = SiftProtocol

  /** One call of the traced program, after what the program has done to its memory since the call before. */
  datatype Step = Step(call: Call, compute: P.Memory -> P.Memory)

  /**
   * The trace options, what new code pages hold, the handler that serves a request after these events, and the program.
   */
  datatype Setup = Setup(cfg: Config, junk: nat -> Byte, handlers: seq<Event> -> P.Handler, steps: seq<Step>,
                         mem: P.Memory)

  /** Where the writer is: between two calls, in the middle of a call, waiting for a reply, or at the end. */
  datatype Phase = Between | Sending(out: seq<Record>) | Waiting | Closed | WriterAsserts

  datatype Writer = Writer(w: WState, done: nat, phase: Phase, replies: seq<seq<Byte>>, mem: P.Memory)

  datatype Mode = Reading | Serving(request: P.Message, at: P.ReaderState) | Ended | ReaderAsserts

  datatype System = System(writer: Writer, r: RState, mode: Mode, toReader: seq<Byte>, toWriter: seq<Byte>)

  function Init(u: Setup): System {
    System(Writer(WRITER_START, 0, Between, [], u.mem), READER_START, Reading, [], [])
  }

  function AsMessage(call: Call): P.Message
    requires call.Request?
  {
    P.Message(call.code, call.ints, call.blob)
  }

  predicate IsRequestRecord(rec: Record) { rec.Other? && IsRequest(rec.code) }

  predicate IsEnd(rec: Record) { rec.Other? && rec.code == REC_END }

  /** The exchange that a waiting writer is in, in terms of the protocol for one request. */
  function Exchange(s: System): P.System {
    P.System(P.Waiting, if s.mode.Serving? then s.mode.at else P.Replied, s.toReader, s.toWriter, s.writer.mem)
  }

  // ---- The two processes

  predicate WriterCanMove(u: Setup, s: System) {
    match s.writer.phase
    case Between => true
    case Sending(out) => out != [] && s.writer.done < |u.steps|
    case Waiting => s.writer.done < |u.steps| && u.steps[s.writer.done].call.Request? && P.Arrived(s.toWriter)
    case _ => false
  }

  /** The next call begins, or the trace is closed. */
  function BeginCall(u: Setup, s: System): System {
    var w := s.writer;
    if w.done < |u.steps| then
      var (w', records) := WriterStep(u.cfg, w.w, u.steps[w.done].call);
      s.(writer := w.(w := w', phase := Sending(records), mem := u.steps[w.done].compute(w.mem)))
    else s.(writer := w.(phase := Closed), toReader := s.toReader + Serialize(END_RECORD))
  }

  /** One record of the call is written; after the last one the writer waits if the call is a request. */
  function SendRecord(u: Setup, s: System): System
    requires s.writer.phase.Sending? && s.writer.phase.out != [] && s.writer.done < |u.steps|
  {
    var w, out := s.writer, s.writer.phase.out;
    var s' := s.(toReader := s.toReader + Serialize(out[0]));
    if |out| > 1 then s'.(writer := w.(phase := Sending(out[1..])))
    else if u.steps[w.done].call.Request? then s'.(writer := w.(phase := Waiting))
    else s'.(writer := w.(phase := Between, done := w.done + 1))
  }

  /** One message is taken in the reply loop. */
  function TakeMessage(u: Setup, s: System): System
    requires s.writer.phase.Waiting? && WriterCanMove(u, s)
  {
    var w := s.writer;
    var p := P.WriterMove(AsMessage(u.steps[w.done].call), Exchange(s));
    var s' := s.(toReader := p.toReader, toWriter := p.toWriter);
    match p.w
    case Waiting => s'.(writer := w.(mem := p.mem))
    case Returned(value) =>
      s'.(writer := w.(phase := Between, done := w.done + 1, replies := w.replies + [value], mem := p.mem))
    case _ => s'.(writer := w.(phase := WriterAsserts))
  }

  function WriterMove(u: Setup, s: System): System
    requires WriterCanMove(u, s)
  {
    match s.writer.phase
    case Between => BeginCall(u, s)
    case Sending(_) => SendRecord(u, s)
    case Waiting => TakeMessage(u, s)
  }

  predicate ReaderCanMove(s: System) {
    match s.mode
    case Reading => s.toReader != []
    case Serving(_, at) => P.Enabled(Exchange(s), P.ReaderTurn)
    case _ => false
  }

  /** One record is read; a request is served before the next one is. */
  function ReadRecord(u: Setup, s: System): System {
    match Parse(s.toReader)
    case None => s.(mode := ReaderAsserts)
    case Some((rec, rest)) =>
      if IsEnd(rec) then s.(mode := Ended, toReader := rest)
      else
        match Receive(u.junk, s.r, rec)
        case None => s.(mode := ReaderAsserts)
        case Some(r') =>
          var mode := if IsRequestRecord(rec) then Serving(P.Message(rec.code, rec.ints, rec.blob), P.Handling([]))
                      else Reading;
          s.(r := r', toReader := rest, mode := mode)
  }

  /** The handler goes on, or an answer to its access is taken. */
  function ServeRequest(u: Setup, s: System): System
    requires s.mode.Serving? && ReaderCanMove(s)
  {
    var p := P.ReaderMove(s.mode.request, u.handlers(s.r.log), Exchange(s));
    var mode := match p.r
      case Replied => Reading
      case ReaderAsserts => ReaderAsserts
      case at => Serving(s.mode.request, at);
    s.(mode := mode, toReader := p.toReader, toWriter := p.toWriter)
  }

  function ReaderMove(u: Setup, s: System): System
    requires ReaderCanMove(s)
  {
    if s.mode.Reading? then ReadRecord(u, s) else ServeRequest(u, s)
  }

  datatype Turn = WriterTurn | ReaderTurn

  predicate Enabled(u: Setup, s: System, t: Turn) {
    if t.WriterTurn? then WriterCanMove(u, s) else ReaderCanMove(s)
  }

  function Move(u: Setup, s: System, t: Turn): System
    requires Enabled(u, s, t)
  {
    if t.WriterTurn? then WriterMove(u, s) else ReaderMove(u, s)
  }

  ghost predicate Moves(u: Setup, s: System, t: Turn, s': System) {
    Enabled(u, s, t) && s' == Move(u, s, t)
  }

  /** Any interleaving of the two processes. */
  ghost predicate IsRun(u: Setup, states: seq<System>, turns: seq<Turn>) {
    && |states| == |turns| + 1 && states[0] == Init(u)
    && forall i {:trigger Moves(u, states[i], turns[i], states[i + 1])} | 0 <= i < |turns| ::
         Moves(u, states[i], turns[i], states[i + 1])
  }

  // ---- The reference: calls one after the other, handlers run directly on the program's memory

  datatype Reference = Reference(w: WState, log: seq<Event>, replies: seq<seq<Byte>>, mem: P.Memory)

  ghost function After(u: Setup, ref: Reference, step: Step): Reference {
    var call := step.call;
    var w, mem := WriterStep(u.cfg, ref.w, call).0, step.compute(ref.mem);
    var log := ref.log + [EventFor(u.cfg, ref.w.lastAddress, call)];
    if call.Request? && P.Finite(u.handlers(log)) then
      var (value, mem') := P.Direct(u.handlers(log), [], mem);
      Reference(w, log, ref.replies + [value], mem')
    else Reference(w, log, ref.replies, mem)
  }

  ghost function RefAfter(u: Setup, k: nat): Reference
    requires k <= |u.steps|
  {
    if k == 0 then Reference(WRITER_START, [], [], u.mem) else After(u, RefAfter(u, k - 1), u.steps[k - 1])
  }

  /** The references after each number of calls. */
  type References = nat -> Reference

  ghost predicate Follows(u: Setup, refs: References, k: nat)
    requires k < |u.steps|
  {
    refs(k + 1) == After(u, refs(k), u.steps[k])
  }

  ghost predicate Chain(u: Setup, refs: References) {
    && refs(0) == Reference(WRITER_START, [], [], u.mem)
    && forall k: nat {:trigger Follows(u, refs, k)} | k < |u.steps| :: Follows(u, refs, k)
  }

  /** A handler is fit for the request it is called for. */
  ghost predicate FitHandler(u: Setup, log: seq<Event>, call: Call) {
    call.Request? ==>
      P.Finite(u.handlers(log)) && forall answers :: P.GoodAction(call.code, u.handlers(log).next(answers))
  }

  ghost predicate Good(u: Setup, sizeOf: nat -> nat) {
    && ValidConfig(u.cfg)
    && (forall i | 0 <= i < |u.steps| :: ValidCall(sizeOf, u.steps[i].call))
    && (forall log: seq<Event>, i | 0 <= i < |u.steps| ::
          FitHandler(u, log + [Callback(u.steps[i].call)], u.steps[i].call))
  }
}
