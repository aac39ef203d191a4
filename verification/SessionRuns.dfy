/** Whole sessions: they are safe, they end, and they compute what their calls say. */
module SessionRuns {
  import opened Prelude
  import opened Bytes
  import opened SiftFormat
  import opened SiftTrace
  import opened SiftRoundTrip
  import opened SiftSession
  import opened SessionProofs
  import P = SiftProtocol

  // ---- How many steps are left

  /** Steps of the exchange for call k, if it is a request. */
  function Extra(u: Setup, refs: References, k: nat): int
    requires k < |u.steps|
  {
    if u.steps[k].call.Request? then 3 * u.handlers(refs(k + 1).log).bound + 2 else 0
  }

  /** Steps for the calls from k on and the end. */
  function Rest(u: Setup, refs: References, k: nat): int
    decreases |u.steps| - k
  {
    if k >= |u.steps| then 2
    else 1 + 2 * |WriterStep(u.cfg, refs(k).w, u.steps[k].call).1| + Extra(u, refs, k) + Rest(u, refs, k + 1)
  }

  /**
   * What the steps left are counted with: those for the calls from k on, for the exchange of call k, and left in it.
   */
  datatype Meter = Meter(rest: nat -> int, extra: nat -> int, rank: (nat, P.System) -> int)

  function MeterOf(u: Setup, refs: References): Meter {
    Meter((k: nat) => Rest(u, refs, k), (k: nat) => if k < |u.steps| then Extra(u, refs, k) else 0,
          (k: nat, e) => P.Rank(u.handlers(refs(k + 1).log), e))
  }

  ghost predicate IsMeter(m: Meter, u: Setup, refs: References) {
    forall x: int {:trigger Look(x)} :: Look(x) ==> m == MeterOf(u, refs)
  }

  function Left(m: Meter, s: System, records: seq<Record>): int {
    var k := s.writer.done;
    match s.writer.phase
    case Between => m.rest(k) + |records|
    case Sending(out) => m.rest(k + 1) + |out| + |records| + m.extra(k)
    case Waiting =>
      m.rest(k + 1) + if s.mode.Serving? || s.toWriter != [] then m.rank(k, Exchange(s)) else |records| + m.extra(k)
    case Closed => if s.mode.Ended? then 0 else |records| + 1
    case WriterAsserts => 0
  }

  lemma {:induction false} RestPositive(u: Setup, refs: References, k: nat)
    ensures Rest(u, refs, k) >= 2
    decreases |u.steps| - k
  {
    if k < |u.steps| {
      RestPositive(u, refs, k + 1);
    }
  }

  lemma MeterRest(u: Setup, refs: References, m: Meter, k: nat)
    requires IsMeter(m, u, refs)
    ensures m.rest(k) >= 2
    ensures k < |u.steps| ==>
              m.rest(k) == 1 + 2 * |WriterStep(u.cfg, refs(k).w, u.steps[k].call).1| + m.extra(k) + m.rest(k + 1)
  {
    assert Look(0);
    RestPositive(u, refs, k);
  }

  lemma BeginDescends(u: Setup, v: View, m: Meter, s: System, records: seq<Record>)
    requires At(u, v, s, records) && s.writer.phase.Between? && IsMeter(m, u, v.refs)
    ensures Left(m, BeginCall(u, s), WrittenTo(u, s, records)) < Left(m, s, records)
  {
    MeterRest(u, v.refs, m, s.writer.done);
  }

  /** What sending a record makes of the writer. */
  lemma SentIs(u: Setup, s: System)
    requires s.writer.phase.Sending? && s.writer.phase.out != [] && s.writer.done < |u.steps|
    ensures var s', w, out := SendRecord(u, s), s.writer, s.writer.phase.out;
            && s'.mode == s.mode && s'.toWriter == s.toWriter
            && s'.writer == if |out| > 1 then w.(phase := Sending(out[1..]))
                            else if u.steps[w.done].call.Request? then w.(phase := Waiting)
                            else w.(phase := Between, done := w.done + 1)
  {
  }

  lemma SentDescends(m: Meter, s: System, records: seq<Record>, s': System)
    requires s.writer.phase.Sending? && s.writer.phase.out != [] && s.mode.Reading? && s.toWriter == []
    requires s'.mode == s.mode && s'.toWriter == s.toWriter && m.extra(s.writer.done) >= 0
    requires var w, out := s.writer, s.writer.phase.out;
             || (|out| > 1 && s'.writer == w.(phase := Sending(out[1..])))
             || s'.writer == w.(phase := Waiting)
             || s'.writer == w.(phase := Between, done := w.done + 1)
    ensures Left(m, s', records) < Left(m, s, records)
  {
  }

  lemma SendDescends(u: Setup, refs: References, m: Meter, s: System, records: seq<Record>)
    requires IsMeter(m, u, refs) && s.writer.phase.Sending? && s.writer.phase.out != [] && s.writer.done < |u.steps|
    requires s.mode.Reading? && s.toWriter == []
    ensures Left(m, SendRecord(u, s), records) < Left(m, s, records)
  {
    ExtraNatural(u, refs, m, s.writer.done);
    SentIs(u, s);
    SentDescends(m, s, records, SendRecord(u, s));
  }

  lemma ExtraNatural(u: Setup, refs: References, m: Meter, k: nat)
    requires IsMeter(m, u, refs)
    ensures m.extra(k) >= 0
  {
    assert Look(0);
  }

  lemma ExchangeDescends(m: Meter, s: System, s': System)
    requires s.writer.phase.Waiting? && s'.writer.phase.Waiting? && s'.writer.done == s.writer.done
    requires (s.mode.Serving? || s.toWriter != []) && (s'.mode.Serving? || s'.toWriter != [])
    requires m.rank(s.writer.done, Exchange(s')) < m.rank(s.writer.done, Exchange(s))
    ensures Left(m, s', []) < Left(m, s, [])
  {
  }

  lemma RankIs(u: Setup, refs: References, m: Meter, k: nat, e: P.System)
    requires IsMeter(m, u, refs)
    ensures m.rank(k, e) == P.Rank(u.handlers(refs(k + 1).log), e)
  {
    assert Look(0);
  }

  lemma AccessRanks(u: Setup, sizeOf: nat -> nat, refs: References, m: Meter, r: RState, e: P.System, k: nat)
    requires Good(u, sizeOf) && Chain(u, refs) && IsMeter(m, u, refs) && Right(u, sizeOf, refs, k, r, e)
             && P.WriterCanStep(e)
    ensures m.rank(k, P.WriterMove(AsMessage(u.steps[k].call), e)) < m.rank(k, e)
  {
    RequestAdmissible(u, sizeOf, refs, k);
    RankIs(u, refs, m, k, e);
    RankIs(u, refs, m, k, P.WriterMove(AsMessage(u.steps[k].call), e));
    P.WriterDescends(AsMessage(u.steps[k].call), u.handlers(refs(k + 1).log), u.steps[k].compute(refs(k).mem), e);
  }

  lemma AccessDescends(u: Setup, sizeOf: nat -> nat, refs: References, m: Meter, s: System, k: nat)
    requires Good(u, sizeOf) && Chain(u, refs) && IsMeter(m, u, refs)
    requires s.writer.phase.Waiting? && s.writer.done == k < |u.steps| && WriterCanMove(u, s)
    requires Right(u, sizeOf, refs, k, s.r, Exchange(s)) && s.mode.Serving? && !s.mode.at.Replied?
             && !s.mode.at.Reading?
    ensures Left(m, TakeMessage(u, s), []) < Left(m, s, [])
  {
    AccessRight(u, sizeOf, refs, s, k);
    AccessRanks(u, sizeOf, refs, m, s.r, Exchange(s), k);
    ExchangeDescends(m, s, TakeMessage(u, s));
  }

  lemma ReplyNotEmpty(u: Setup, sizeOf: nat -> nat, refs: References, r: RState, e: P.System, k: nat)
    requires Good(u, sizeOf) && Chain(u, refs) && Right(u, sizeOf, refs, k, r, e) && e.w.Waiting?
    ensures e.r.Replied? ==> e.toWriter != []
  {
    if e.r.Replied? {
      var value := ReplyRight(u, sizeOf, refs, r, e, k);
      P.ReplySendable(u.steps[k].call.code, value);
      P.WireReceived(P.Message(P.ResponseCode(u.steps[k].call.code), [], value));
    }
  }

  lemma RepliedDescends(m: Meter, s: System, s': System)
    requires s.writer.phase.Waiting? && s.mode.Reading? && s.toWriter != [] && m.rank(s.writer.done, Exchange(s)) == 1
    requires s'.writer.phase.Between? && s'.writer.done == s.writer.done + 1
    ensures Left(m, s', []) < Left(m, s, [])
  {
  }

  lemma ReplyDescends(u: Setup, sizeOf: nat -> nat, refs: References, m: Meter, s: System, k: nat)
    requires Good(u, sizeOf) && Chain(u, refs) && IsMeter(m, u, refs)
    requires s.writer.phase.Waiting? && s.writer.done == k < |u.steps|
    requires Right(u, sizeOf, refs, k, s.r, Exchange(s)) && s.mode.Reading?
    ensures WriterCanMove(u, s) && Left(m, TakeMessage(u, s), []) < Left(m, s, [])
  {
    var value := ReplyRight(u, sizeOf, refs, s.r, Exchange(s), k);
    ReplyTaken(u, s, AsMessage(u.steps[k].call), value);
    ReplyNotEmpty(u, sizeOf, refs, s.r, Exchange(s), k);
    RankIs(u, refs, m, k, Exchange(s));
    RepliedDescends(m, s, TakeMessage(u, s));
  }

  lemma ServeRanks(u: Setup, sizeOf: nat -> nat, refs: References, m: Meter, r: RState, e: P.System, k: nat)
    requires Good(u, sizeOf) && Chain(u, refs) && IsMeter(m, u, refs) && Right(u, sizeOf, refs, k, r, e)
    requires P.Enabled(e, P.ReaderTurn)
    ensures m.rank(k, P.ReaderMove(AsMessage(u.steps[k].call), u.handlers(refs(k + 1).log), e)) < m.rank(k, e)
  {
    var request, h := AsMessage(u.steps[k].call), u.handlers(refs(k + 1).log);
    RequestAdmissible(u, sizeOf, refs, k);
    RankIs(u, refs, m, k, e);
    RankIs(u, refs, m, k, P.ReaderMove(request, h, e));
    P.ReaderDescends(request, h, u.steps[k].compute(refs(k).mem), e);
  }

  lemma ServeDescends(u: Setup, sizeOf: nat -> nat, refs: References, m: Meter, s: System, k: nat)
    requires Good(u, sizeOf) && Chain(u, refs) && IsMeter(m, u, refs)
    requires s.writer.phase.Waiting? && s.writer.done == k < |u.steps| && ReaderCanMove(s)
    requires Right(u, sizeOf, refs, k, s.r, Exchange(s))
    requires s.mode.Serving? && !s.mode.at.Reading? && !s.mode.at.Replied?
             && s.mode.request == AsMessage(u.steps[k].call)
    ensures Left(m, ServeRequest(u, s), []) < Left(m, s, [])
  {
    var p := ServeRight(u, sizeOf, refs, s, k);
    ServeIs(u, s, p);
    ServingFrame(s.mode.request, u.handlers(s.r.log), Exchange(s));
    ReplyNotEmpty(u, sizeOf, refs, s.r, p, k);
    ServeRanks(u, sizeOf, refs, m, s.r, Exchange(s), k);
    ExchangeDescends(m, s, ServeRequest(u, s));
  }

  /** What reading a record leaves alone. */
  lemma ReadFrame(u: Setup, s: System)
    ensures var s' := ReadRecord(u, s);
            s'.writer == s.writer && s'.toWriter == s.toWriter && (s'.mode.Serving? ==> s'.mode.at == P.Handling([]))
  {
  }

  lemma FirstRank(u: Setup, refs: References, m: Meter, k: nat, e: P.System)
    requires IsMeter(m, u, refs) && k < |u.steps| && u.steps[k].call.Request? && e.w.Waiting? && e.r == P.Handling([])
    ensures m.rank(k, e) == m.extra(k)
  {
    assert Look(0);
  }

  lemma ReadLessInCall(m: Meter, s: System, s': System, records: seq<Record>)
    requires (s.writer.phase.Between? || s.writer.phase.Sending?) && s'.writer == s.writer && records != []
    ensures Left(m, s', records[1..]) < Left(m, s, records)
  {
  }

  lemma ReadLessWaiting(m: Meter, s: System, s': System, records: seq<Record>)
    requires s.writer.phase.Waiting? && s'.writer == s.writer && s.mode.Reading? && s.toWriter == s'.toWriter == []
             && records != []
    requires s'.mode.Serving? ==> m.rank(s.writer.done, Exchange(s')) == m.extra(s.writer.done)
    ensures Left(m, s', records[1..]) < Left(m, s, records)
  {
  }

  lemma ReadLessClosed(m: Meter, s: System, s': System, records: seq<Record>)
    requires s.writer.phase.Closed? && s'.writer == s.writer && s.mode.Reading? && (records == [] ==> s'.mode.Ended?)
    ensures Left(m, s', ReadFrom(s, records)) < Left(m, s, records)
  {
  }

  lemma LastIsEnd(u: Setup, sizeOf: nat -> nat, refs: References, v: View, s: System)
    requires IsView(v, u, sizeOf, refs) && At(u, v, s, []) && s.writer.phase.Closed? && s.mode.Reading?
    ensures s.toReader != [] && ReadRecord(u, s).mode.Ended?
  {
    WireNone(u, sizeOf, refs, v, s.r, s.writer.w, s.r.log);
    assert [] + v.wire([END_RECORD]) == v.wire([END_RECORD]);
    EndRead(u, s);
  }

  lemma ReadDescends(u: Setup, sizeOf: nat -> nat, refs: References, v: View, m: Meter, s: System, records: seq<Record>)
    requires IsView(v, u, sizeOf, refs) && IsMeter(m, u, refs) && At(u, v, s, records) && s.mode.Reading?
             && s.toReader != []
    ensures Left(m, ReadRecord(u, s), ReadFrom(s, records)) < Left(m, s, records)
  {
    BytesMeanRecords(u, sizeOf, refs, v, s, records);
    ReadFrame(u, s);
    var s' := ReadRecord(u, s);
    match s.writer.phase
    case Between => ReadLessInCall(m, s, s', records);
    case Sending(_) => ReadLessInCall(m, s, s', records);
    case Waiting =>
      if s'.mode.Serving? {
        FirstRank(u, refs, m, s.writer.done, Exchange(s'));
      }
      ReadLessWaiting(m, s, s', records);
    case Closed =>
      if records == [] {
        LastIsEnd(u, sizeOf, refs, v, s);
      }
      ReadLessClosed(m, s, s', records);
  }

  lemma WriterDescends(u: Setup, sizeOf: nat -> nat, refs: References, v: View, m: Meter, s: System,
                       records: seq<Record>)
    requires Good(u, sizeOf) && Chain(u, refs) && IsView(v, u, sizeOf, refs) && IsMeter(m, u, refs)
    requires At(u, v, s, records) && WriterCanMove(u, s)
    ensures Left(m, WriterMove(u, s), WrittenTo(u, s, records)) < Left(m, s, records)
  {
    match s.writer.phase
    case Between => BeginDescends(u, v, m, s, records);
    case Sending(_) => SendDescends(u, refs, m, s, records);
    case Waiting =>
      MessageMeansExchange(u, v, s, records);
      RightIs(u, sizeOf, refs, v, s.writer.done, s.r, Exchange(s));
      if s.mode.Serving? {
        AccessDescends(u, sizeOf, refs, m, s, s.writer.done);
      } else {
        ReplyDescends(u, sizeOf, refs, m, s, s.writer.done);
      }
  }

  lemma ReaderDescends(u: Setup, sizeOf: nat -> nat, refs: References, v: View, m: Meter, s: System,
                       records: seq<Record>)
    requires Good(u, sizeOf) && Chain(u, refs) && IsView(v, u, sizeOf, refs) && IsMeter(m, u, refs)
    requires At(u, v, s, records) && ReaderCanMove(s)
    ensures Left(m, ReaderMove(u, s), ReadFrom(s, records)) < Left(m, s, records)
  {
    if s.mode.Reading? {
      ReadDescends(u, sizeOf, refs, v, m, s, records);
    } else {
      ServingMeansExchange(u, v, s, records);
      RightIs(u, sizeOf, refs, v, s.writer.done, s.r, Exchange(s));
      ServeDescends(u, sizeOf, refs, m, s, s.writer.done);
    }
  }

  // ---- Progress

  predicate Done(s: System) { s.writer.phase.Closed? && s.mode.Ended? }

  lemma RecordsMeanBytes(u: Setup, sizeOf: nat -> nat, refs: References, v: View, r: RState, records: seq<Record>,
                         w: WState, log: seq<Event>)
    requires IsView(v, u, sizeOf, refs) && v.leads(r, records, w, log) && records != []
    ensures v.wire(records) != []
  {
    assert Look(0);
    FirstRead(records, []);
    assert SerializeAll(records) + [] == SerializeAll(records);
  }

  lemma RequestMeansRecords(u: Setup, sizeOf: nat -> nat, refs: References, v: View, records: seq<Record>, k: nat)
    requires IsView(v, u, sizeOf, refs) && k < |u.steps| && u.steps[k].call.Request? && v.ends(records, k)
    ensures records != []
  {
    assert Look(0);
  }

  lemma StreamGoesOn(u: Setup, sizeOf: nat -> nat, refs: References, v: View, s: System, records: seq<Record>, k: nat)
    requires IsView(v, u, sizeOf, refs) && k < |u.steps| && u.steps[k].call.Request?
             && AtSending(u, v, s, records, 0, k)
    ensures ReaderCanMove(s)
  {
    RequestMeansRecords(u, sizeOf, refs, v, records, k);
    RecordsMeanBytes(u, sizeOf, refs, v, s.r, records, refs(k + 1).w, refs(k + 1).log);
    assert records[..|records|] == records;
  }

  lemma ExchangeGoesOn(u: Setup, sizeOf: nat -> nat, refs: References, s: System, k: nat)
    requires Good(u, sizeOf) && Chain(u, refs) && s.writer.phase.Waiting? && s.writer.done == k < |u.steps|
    requires Right(u, sizeOf, refs, k, s.r, Exchange(s)) && s.mode.Serving?
    ensures WriterCanMove(u, s) || ReaderCanMove(s)
  {
    RequestAdmissible(u, sizeOf, refs, k);
    P.ExactlyOneMoves(AsMessage(u.steps[k].call), u.handlers(refs(k + 1).log), u.steps[k].compute(refs(k).mem),
                      Exchange(s));
  }

  lemma ReplyGoesOn(u: Setup, sizeOf: nat -> nat, refs: References, s: System, k: nat)
    requires Good(u, sizeOf) && Chain(u, refs) && s.writer.phase.Waiting? && s.writer.done == k < |u.steps|
    requires Right(u, sizeOf, refs, k, s.r, Exchange(s)) && s.mode.Reading?
    ensures WriterCanMove(u, s)
  {
    var value := ReplyRight(u, sizeOf, refs, s.r, Exchange(s), k);
    ReplyTaken(u, s, AsMessage(u.steps[k].call), value);
  }

  lemma WaitGoesOn(u: Setup, sizeOf: nat -> nat, refs: References, v: View, s: System, records: seq<Record>)
    requires Good(u, sizeOf) && Chain(u, refs) && IsView(v, u, sizeOf, refs) && At(u, v, s, records)
             && s.writer.phase.Waiting?
    ensures WriterCanMove(u, s) || ReaderCanMove(s)
  {
    var k := s.writer.done;
    if AtSending(u, v, s, records, 0, k) {
      StreamGoesOn(u, sizeOf, refs, v, s, records, k);
    } else {
      RightIs(u, sizeOf, refs, v, k, s.r, Exchange(s));
      if s.mode.Serving? {
        ExchangeGoesOn(u, sizeOf, refs, s, k);
      } else {
        ReplyGoesOn(u, sizeOf, refs, s, k);
      }
    }
  }

  /** No deadlock: as long as the session is not over, the writer or the reader can go on. */
  lemma SomeoneMoves(u: Setup, sizeOf: nat -> nat, refs: References, v: View, s: System, records: seq<Record>)
    requires Good(u, sizeOf) && Chain(u, refs) && IsView(v, u, sizeOf, refs) && At(u, v, s, records)
    ensures Done(s) || WriterCanMove(u, s) || ReaderCanMove(s)
  {
    match s.writer.phase
    case Between =>
    case Sending(_) =>
    case Waiting => WaitGoesOn(u, sizeOf, refs, v, s, records);
    case Closed =>
      if s.mode.Reading? {
        WireNone(u, sizeOf, refs, v, s.r, s.writer.w, s.r.log);
        assert SerializeAll([END_RECORD]) == Serialize(END_RECORD) + [];
      }
  }

  // ---- Whole runs

  ghost function RefsOf(u: Setup): References {
    (k: nat) => if k <= |u.steps| then RefAfter(u, k) else RefAfter(u, 0)
  }

  lemma RefsChain(u: Setup)
    ensures Chain(u, RefsOf(u))
  {
    forall k: nat | k < |u.steps|
      ensures Follows(u, RefsOf(u), k)
    {
      assert RefAfter(u, k + 1) == After(u, RefAfter(u, k), u.steps[k]);
    }
  }

  lemma InitStreams(u: Setup, sizeOf: nat -> nat)
    ensures Leads(u, sizeOf, READER_START, [], WRITER_START, [])
  {
    StartInStep(u.cfg, sizeOf);
  }

  lemma InitAt(u: Setup, sizeOf: nat -> nat, refs: References, v: View)
    requires Chain(u, refs) && IsView(v, u, sizeOf, refs)
    ensures At(u, v, Init(u), [])
  {
    InitStreams(u, sizeOf);
    assert Look(0);
    var none: seq<Record> := [];
    assert none[..0] == none;
  }

  lemma {:induction false} RunAt(u: Setup, sizeOf: nat -> nat, refs: References, v: View, m: Meter, states: seq<System>,
                                 turns: seq<Turn>, i: nat)
    returns (records: seq<Record>)
    requires Good(u, sizeOf) && Chain(u, refs) && IsView(v, u, sizeOf, refs) && IsMeter(m, u, refs)
    requires IsRun(u, states, turns) && i <= |turns|
    ensures At(u, v, states[i], records) && i + Left(m, states[i], records) <= m.rest(0)
  {
    if i == 0 {
      InitAt(u, sizeOf, refs, v);
      records := [];
    } else {
      var j := i - 1;
      var s := states[j];
      var before := RunAt(u, sizeOf, refs, v, m, states, turns, j);
      assert Moves(u, states[j], turns[j], states[j + 1]);
      if turns[j].WriterTurn? {
        WriterKeeps(u, sizeOf, refs, v, s, before);
        WriterDescends(u, sizeOf, refs, v, m, s, before);
        records := WrittenTo(u, s, before);
      } else {
        ReaderKeeps(u, sizeOf, refs, v, s, before);
        ReaderDescends(u, sizeOf, refs, v, m, s, before);
        records := ReadFrom(s, before);
      }
    }
  }

  lemma LogGrowsOnce(junk: nat -> Byte, r: RState, rec: Record)
    ensures var r' := Receive(junk, r, rec); r'.Some? ==> r.log <= r'.value.log
  {
  }

  lemma {:induction false} LogGrows(junk: nat -> Byte, r: RState, records: seq<Record>)
    ensures var r' := ReceiveAll(junk, r, records); r'.Some? ==> r.log <= r'.value.log
    decreases |records|
  {
    if records != [] {
      LogGrowsOnce(junk, r, records[0]);
      if Receive(junk, r, records[0]).Some? {
        LogGrows(junk, Receive(junk, r, records[0]).value, records[1..]);
      }
    }
  }

  lemma LeadsForward(u: Setup, sizeOf: nat -> nat, refs: References, v: View, r: RState, records: seq<Record>,
                     w: WState, log: seq<Event>)
    requires IsView(v, u, sizeOf, refs) && v.leads(r, records, w, log)
    ensures r.log <= log
  {
    assert Look(0);
    LogGrows(u.junk, r, records);
  }

  lemma {:induction false} RefLogGrows(u: Setup, refs: References, j: nat, k: nat)
    requires Chain(u, refs) && j <= k <= |u.steps|
    ensures refs(j).log <= refs(k).log
    decreases k
  {
    if j < k {
      RefLogGrows(u, refs, j, k - 1);
      assert Follows(u, refs, k - 1);
    }
  }

  lemma StreamInOrder(u: Setup, sizeOf: nat -> nat, refs: References, v: View, r: RState, records: seq<Record>, k: nat)
    requires Chain(u, refs) && IsView(v, u, sizeOf, refs) && k <= |u.steps|
             && v.leads(r, records, refs(k).w, refs(k).log)
    ensures r.log <= refs(|u.steps|).log
  {
    LeadsForward(u, sizeOf, refs, v, r, records, refs(k).w, refs(k).log);
    RefLogGrows(u, refs, k, |u.steps|);
  }

  lemma ExchangeInOrder(u: Setup, sizeOf: nat -> nat, refs: References, v: View, r: RState, e: P.System, k: nat)
    requires Chain(u, refs) && IsView(v, u, sizeOf, refs) && k < |u.steps| && v.right(k, r, e)
    ensures r.log <= refs(|u.steps|).log
  {
    RightIs(u, sizeOf, refs, v, k, r, e);
    RefLogGrows(u, refs, k + 1, |u.steps|);
  }

  /** What the reader has delivered is what the reference delivers first. */
  lemma DeliveredInOrder(u: Setup, sizeOf: nat -> nat, refs: References, v: View, s: System, records: seq<Record>)
    requires Chain(u, refs) && IsView(v, u, sizeOf, refs) && At(u, v, s, records)
    ensures s.r.log <= refs(|u.steps|).log
  {
    var k := s.writer.done;
    match s.writer.phase
    case Between => StreamInOrder(u, sizeOf, refs, v, s.r, records, k);
    case Sending(_) => StreamInOrder(u, sizeOf, refs, v, s.r, records, k + 1);
    case Waiting =>
      if AtSending(u, v, s, records, 0, k) {
        StreamInOrder(u, sizeOf, refs, v, s.r, records, k + 1);
      } else {
        ExchangeInOrder(u, sizeOf, refs, v, s.r, Exchange(s), k);
      }
    case Closed =>
      if s.mode.Reading? {
        StreamInOrder(u, sizeOf, refs, v, s.r, records, k);
      }
  }

  function Calls(steps: seq<Step>): seq<Call> { seq(|steps|, i requires 0 <= i < |steps| => steps[i].call) }

  predicate NoAssertion(s: System) { !s.writer.phase.WriterAsserts? && !s.mode.ReaderAsserts? }

  /** The longest a session can take. */
  ghost function Longest(u: Setup): int { Rest(u, RefsOf(u), 0) }

  lemma RankNatural(u: Setup, sizeOf: nat -> nat, refs: References, m: Meter, k: nat, r: RState, e: P.System)
    requires IsMeter(m, u, refs) && Right(u, sizeOf, refs, k, r, e) && e.w.Waiting?
    ensures m.rank(k, e) >= 0
  {
    RankIs(u, refs, m, k, e);
  }

  lemma RestNatural(u: Setup, refs: References, m: Meter, k: nat)
    requires IsMeter(m, u, refs)
    ensures m.rest(k) >= 0
  {
    assert Look(0);
    RestPositive(u, refs, k);
  }

  lemma LeftAtLeast(m: Meter, s: System, records: seq<Record>)
    requires var k := s.writer.done;
             && m.rest(k) >= 0 && m.rest(k + 1) >= 0 && m.extra(k) >= 0
             && (s.writer.phase.Waiting? && (s.mode.Serving? || s.toWriter != []) ==> m.rank(k, Exchange(s)) >= 0)
    ensures Left(m, s, records) >= 0
  {
  }

  lemma LeftNatural(u: Setup, sizeOf: nat -> nat, refs: References, v: View, m: Meter, s: System, records: seq<Record>)
    requires IsView(v, u, sizeOf, refs) && IsMeter(m, u, refs) && At(u, v, s, records)
    ensures Left(m, s, records) >= 0
  {
    var k := s.writer.done;
    RestNatural(u, refs, m, k);
    RestNatural(u, refs, m, k + 1);
    ExtraNatural(u, refs, m, k);
    if s.writer.phase.Waiting? && (s.mode.Serving? || s.toWriter != []) {
      RightIs(u, sizeOf, refs, v, k, s.r, Exchange(s));
      RankNatural(u, sizeOf, refs, m, k, s.r, Exchange(s));
    }
    LeftAtLeast(m, s, records);
  }

  lemma AtIsSound(u: Setup, v: View, s: System, records: seq<Record>)
    requires At(u, v, s, records)
    ensures NoAssertion(s)
  {
  }

  /**
   * A session is safe: in every state of every run, however far the writer is ahead of the reader, neither side raises
   * an assertion, the reader has delivered a first part of the events in their order, every request returned from had
   * the reply of its handler run directly on the program's memory, and that memory is as the handlers left it.
   */
  lemma SessionIsSafe(u: Setup, sizeOf: nat -> nat, states: seq<System>, turns: seq<Turn>, i: nat)
    requires Good(u, sizeOf) && IsRun(u, states, turns) && i <= |turns|
    ensures var s := states[i];
            && NoAssertion(s) && s.r.log <= RefAfter(u, |u.steps|).log
            && s.writer.done <= |u.steps| && s.writer.replies == RefAfter(u, s.writer.done).replies
            && (s.writer.phase.Between? ==> s.writer.mem == RefAfter(u, s.writer.done).mem)
  {
    var refs := RefsOf(u);
    var v, m := ViewOf(u, sizeOf, refs), MeterOf(u, refs);
    RefsChain(u);
    var records := RunAt(u, sizeOf, refs, v, m, states, turns, i);
    DeliveredInOrder(u, sizeOf, refs, v, states[i], records);
    AtIsSound(u, v, states[i], records);
  }

  /** Every run is bounded, whatever the interleaving. */
  lemma SessionEnds(u: Setup, sizeOf: nat -> nat, states: seq<System>, turns: seq<Turn>)
    requires Good(u, sizeOf) && IsRun(u, states, turns)
    ensures |turns| <= Longest(u)
  {
    var refs := RefsOf(u);
    var v, m := ViewOf(u, sizeOf, refs), MeterOf(u, refs);
    RefsChain(u);
    var records := RunAt(u, sizeOf, refs, v, m, states, turns, |turns|);
    LeftNatural(u, sizeOf, refs, v, m, states[|turns|], records);
  }

  lemma DoneIs(u: Setup, v: View, s: System, records: seq<Record>)
    requires At(u, v, s, records) && Done(s)
    ensures var ref := v.refs(|u.steps|);
            s.r.log == ref.log && s.writer.replies == ref.replies && s.writer.mem == ref.mem && s.toReader == []
              && s.toWriter == []
  {
  }

  lemma AfterLog(u: Setup, ref: Reference, step: Step)
    ensures var next := After(u, ref, step);
            && next.log == ref.log + [EventFor(u.cfg, ref.w.lastAddress, step.call)]
            && next.w.lastAddress == LastAfter(ref.w.lastAddress, step.call)
  {
  }

  lemma LogSnoc(u: Setup, ref: Reference, step: Step, calls: seq<Call>)
    requires ref.log == Events(u.cfg, 0, calls) && ref.w.lastAddress == LastOf(0, calls)
    ensures var next, more := After(u, ref, step), calls + [step.call];
            next.log == Events(u.cfg, 0, more) && next.w.lastAddress == LastOf(0, more)
  {
    EventsSnoc(u.cfg, 0, calls, step.call);
    AfterLog(u, ref, step);
  }

  lemma CallsSnoc(steps: seq<Step>, k: nat)
    requires 0 < k <= |steps|
    ensures Calls(steps)[..k] == Calls(steps)[..k - 1] + [steps[k - 1].call]
  {
  }

  lemma {:induction false} RefLogIs(u: Setup, k: nat)
    requires k <= |u.steps|
    ensures var ref, calls := RefAfter(u, k), Calls(u.steps)[..k];
            ref.log == Events(u.cfg, 0, calls) && ref.w.lastAddress == LastOf(0, calls)
  {
    if k > 0 {
      RefLogIs(u, k - 1);
      CallsSnoc(u.steps, k);
      LogSnoc(u, RefAfter(u, k - 1), u.steps[k - 1], Calls(u.steps)[..k - 1]);
    }
  }

  /** The address the next instruction is expected at after these calls. */
  function LastOf(last: nat, calls: seq<Call>): nat
    decreases |calls|
  {
    if calls == [] then last else LastOf(LastAfter(last, calls[0]), calls[1..])
  }

  lemma {:induction false} EventsSnoc(cfg: Config, last: nat, calls: seq<Call>, call: Call)
    ensures Events(cfg, last, calls + [call]) == Events(cfg, last, calls) + [EventFor(cfg, LastOf(last, calls), call)]
    ensures LastOf(last, calls + [call]) == LastAfter(LastOf(last, calls), call)
    decreases |calls|
  {
    if calls == [] {
      assert [] + [call] == [call] && [call][1..] == [];
    } else {
      assert (calls + [call])[1..] == calls[1..] + [call];
      EventsSnoc(cfg, LastAfter(last, calls[0]), calls[1..], call);
    }
  }

  /**
   * A session computes what its calls say: a run that cannot go on has come to its end. The reader has delivered
   * exactly the events of the calls in their order, the writer has for every request the reply its handler computes
   * when run directly on the program's memory, that memory is as the program and the handlers leave it one after the
   * other, and nothing is left in the channels.
   */
  lemma SessionRefinesDirect(u: Setup, sizeOf: nat -> nat, states: seq<System>, turns: seq<Turn>)
    requires Good(u, sizeOf) && IsRun(u, states, turns)
    requires !Enabled(u, states[|turns|], WriterTurn) && !Enabled(u, states[|turns|], ReaderTurn)
    ensures var s, ref := states[|turns|], RefAfter(u, |u.steps|);
            && Done(s) && s.r.log == Events(u.cfg, 0, Calls(u.steps)) == ref.log
            && s.writer.replies == ref.replies && s.writer.mem == ref.mem && s.toReader == [] && s.toWriter == []
  {
    var refs := RefsOf(u);
    var v, m := ViewOf(u, sizeOf, refs), MeterOf(u, refs);
    RefsChain(u);
    var records := RunAt(u, sizeOf, refs, v, m, states, turns, |turns|);
    SomeoneMoves(u, sizeOf, refs, v, states[|turns|], records);
    DoneIs(u, v, states[|turns|], records);
    RefLogIs(u, |u.steps|);
    assert Calls(u.steps)[..|u.steps|] == Calls(u.steps);
  }
}
