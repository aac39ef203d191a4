/** The bytes of each record, field by field, and the order in which a call's records are written. */
module SiftWire {
  import opened Prelude
  import opened Bytes
  import opened SiftFormat
  import opened SiftTrace

  /** Little-endian: the first j bytes of a number are that number in j bytes. */
  lemma {:induction false} LowBytesFirst(n: nat, k: nat, j: nat)
    requires j <= k
    ensures ToLE(n, k)[..j] == ToLE(n, j)
  {
    if j > 0 {
      LowBytesFirst(n / 256, k - 1, j - 1);
      assert ToLE(n, k)[..j] == [n % 256] + ToLE(n / 256, k - 1)[..j - 1];
    }
  }

  /** Field i comes right after those before it. */
  lemma {:induction false} FieldsInOrder(widths: seq<nat>, values: seq<nat>, i: nat)
    requires i < |widths| == |values|
    ensures var at, b := Sum(widths[..i]), EncodeInts(widths, values);
            at + widths[i] <= |b| && b[at..at + widths[i]] == ToLE(values[i], widths[i])
  {
    var first, rest := ToLE(values[0], widths[0]), EncodeInts(widths[1..], values[1..]);
    if i > 0 {
      FieldsInOrder(widths[1..], values[1..], i - 1);
      var at := Sum(widths[1..][..i - 1]);
      assert widths[..i][1..] == widths[1..][..i - 1];
      assert (first + rest)[widths[0] + at..widths[0] + at + widths[i]] == rest[at..at + widths[i]];
    } else {
      assert widths[..0] == [];
    }
  }

  /** A zero, the type, the size of the rest in four bytes, fields of these widths, then other data. */
  function LaidOutAs(code: Byte, widths: seq<nat>, size: nat, ints: seq<nat>, data: seq<Byte>): seq<Byte> {
    ([0, code] + ToLE(size + |data|, 4)) + (EncodeInts(widths, ints) + data)
  }

  ghost predicate LaidOut(code: Byte, widths: seq<nat>, size: nat) {
    forall ints, data :: Serialize(Other(code, ints, data)) == LaidOutAs(code, widths, size, ints, data)
  }

  lemma LayoutIs(code: Byte, widths: seq<nat>, size: nat)
    requires Layout(code) == widths && Sum(widths) == size
    ensures LaidOut(code, widths, size)
  {
    forall ints, data
      ensures Serialize(Other(code, ints, data)) == LaidOutAs(code, widths, size, ints, data)
    {
      assert OtherHeader(code, size + |data|) == [0, code] + ToLE(size + |data|, 4);
    }
  }

  lemma Sums(a: nat, b: nat, c: nat, d: nat)
    ensures Sum([]) == 0 && Sum([a]) == a && Sum([a, b]) == a + b && Sum([a, b, c]) == a + b + c
    ensures Sum([a, b, c, d]) == a + b + c + d
  {
    assert Sum([d]) == d;
    assert Sum([c, d]) == c + d;
    assert Sum([b, c, d]) == b + c + d;
    assert Sum([c]) == c;
    assert Sum([b, c]) == b + c;
    assert Sum([b]) == b;
  }

  /** Code pages and code, page mappings, output, cache-only records, routine changes, and the end. */
  lemma TraceRecordsLaidOut()
    ensures LaidOut(0, [8], 8) && LaidOut(11, [8], 8) && LaidOut(14, [8, 8], 16) && LaidOut(1, [1], 1)
    ensures LaidOut(24, [1, 1, 8, 8], 18) && LaidOut(17, [1, 8, 8, 8], 25) && LaidOut(0xff, [], 0)
  {
    Sums(8, 8, 8, 8);
    Sums(1, 1, 8, 8);
    Sums(1, 8, 8, 8);
    LayoutIs(0, [8], 8);
    LayoutIs(11, [8], 8);
    LayoutIs(14, [8, 8], 16);
    LayoutIs(1, [1], 1);
    LayoutIs(24, [1, 1, 8, 8], 18);
    LayoutIs(17, [1, 8, 8, 8], 25);
    LayoutIs(0xff, [], 0);
  }

  /** Requests. */
  lemma RequestsLaidOut()
    ensures LaidOut(2, [2], 2) && LaidOut(19, [2], 2) && LaidOut(8, [4], 4) && LaidOut(23, [4], 4)
    ensures LaidOut(15, [8, 8, 8], 24)
  {
    Sums(2, 4, 4, 4);
    Sums(4, 4, 4, 4);
    Sums(8, 8, 8, 8);
    LayoutIs(2, [2], 2);
    LayoutIs(19, [2], 2);
    LayoutIs(8, [4], 4);
    LayoutIs(23, [4], 4);
    LayoutIs(15, [8, 8, 8], 24);
  }

  /** Memory accesses and their responses. */
  lemma AccessesLaidOut()
    ensures LaidOut(6, [8, 4, 4, 4], 20) && LaidOut(7, [8, 4], 12)
  {
    Sums(8, 4, 4, 4);
    LayoutIs(6, [8, 4, 4, 4], 20);
    LayoutIs(7, [8, 4], 12);
  }

  /** The requests without fields, and all replies to requests. */
  lemma RepliesLaidOut(code: Byte)
    requires code in {4, 12, 21} || code in {3, 5, 9, 13, 16, 20, 22}
    ensures LaidOut(code, [], 0)
  {
    LayoutIs(code, [], 0);
  }

  lemma AnnounceLaidOut(r: Record)
    requires r.Announce?
    ensures Serialize(r) ==
            ([0, 18] + ToLE(30 + |r.name| + |r.imgname| + |r.filename|, 4))
            + (ToLE(r.eip, 8) + ((ToLE(|r.name|, 2) + r.name) + ((ToLE(|r.imgname|, 2) + r.imgname)
               + (EncodeInts([8, 4, 4], [r.offset, r.line, r.column]) + (ToLE(|r.filename|, 2) + r.filename)))))
  {
    AnnounceLength(r);
    assert AnnounceBody(r) ==
           ToLE(r.eip, 8) + ((ToLE(|r.name|, 2) + r.name) + ((ToLE(|r.imgname|, 2) + r.imgname)
             + (EncodeInts([8, 4, 4], [r.offset, r.line, r.column]) + (ToLE(|r.filename|, 2) + r.filename))));
  }

  // ---- What is sent, and how often

  predicate IsCode(rec: Record) { rec.Other? && (rec.code == 0 || rec.code == 11) && |rec.ints| == 1 }

  predicate IsMapping(rec: Record) { rec.Other? && rec.code == 14 && |rec.ints| == 2 }

  function CodeIn(rec: Record): seq<nat> { if IsCode(rec) then [rec.ints[0]] else [] }

  function PageIn(rec: Record): seq<nat> { if IsMapping(rec) then [rec.ints[0]] else [] }

  /** The addresses of the code that these records carry. */
  function CodeSent(records: seq<Record>): seq<nat> {
    if records == [] then [] else CodeIn(records[0]) + CodeSent(records[1..])
  }

  /** The virtual pages whose mapping these records carry. */
  function PagesSent(records: seq<Record>): seq<nat> {
    if records == [] then [] else PageIn(records[0]) + PagesSent(records[1..])
  }

  lemma Reassociate(x: seq<nat>, y: seq<nat>, z: seq<nat>)
    ensures x + (y + z) == (x + y) + z
  {
  }

  lemma SentCons(rec: Record, rest: seq<Record>)
    ensures CodeSent([rec] + rest) == CodeIn(rec) + CodeSent(rest)
    ensures PagesSent([rec] + rest) == PageIn(rec) + PagesSent(rest)
  {
    assert ([rec] + rest)[1..] == rest;
  }

  lemma {:induction false} CodeSentConcat(a: seq<Record>, b: seq<Record>)
    ensures CodeSent(a + b) == CodeSent(a) + CodeSent(b)
  {
    if a == [] {
      assert a + b == b;
    } else {
      CodeSentConcat(a[1..], b);
      assert a + b == [a[0]] + (a[1..] + b);
      SentCons(a[0], a[1..] + b);
      Reassociate(CodeIn(a[0]), CodeSent(a[1..]), CodeSent(b));
    }
  }

  lemma {:induction false} PagesSentConcat(a: seq<Record>, b: seq<Record>)
    ensures PagesSent(a + b) == PagesSent(a) + PagesSent(b)
  {
    if a == [] {
      assert a + b == b;
    } else {
      PagesSentConcat(a[1..], b);
      assert a + b == [a[0]] + (a[1..] + b);
      SentCons(a[0], a[1..] + b);
      Reassociate(PageIn(a[0]), PagesSent(a[1..]), PagesSent(b));
    }
  }

  lemma SentConcat(a: seq<Record>, b: seq<Record>)
    ensures CodeSent(a + b) == CodeSent(a) + CodeSent(b) && PagesSent(a + b) == PagesSent(a) + PagesSent(b)
  {
    CodeSentConcat(a, b);
    PagesSentConcat(a, b);
  }

  /** New keys, each once, which are then on record with the old ones. */
  ghost predicate Once(keys: seq<nat>, sent: set<nat>, after: set<nat>) {
    && (forall i, j | 0 <= i < j < |keys| :: keys[i] != keys[j]) && (forall i | 0 <= i < |keys| :: keys[i] !in sent)
    && sent <= after && (forall i | 0 <= i < |keys| :: keys[i] in after)
    && forall k | k in after :: k in sent || k in keys
  }

  lemma OnceThen(a: seq<nat>, b: seq<nat>, sent: set<nat>, middle: set<nat>, after: set<nat>)
    requires Once(a, sent, middle) && Once(b, middle, after)
    ensures Once(a + b, sent, after)
  {
    var keys := a + b;
    forall i | 0 <= i < |b|
      ensures b[i] !in sent && b[i] !in a
    {
    }
    forall k | k in after
      ensures k in sent || k in keys
    {
      assert k in middle || k in b;
    }
  }

  lemma {:induction false} MappingsOnce(cfg: Config, sent: set<nat>, vas: seq<nat>)
    ensures var (records, after) := Va2paRecords(cfg, sent, vas);
            Once(PagesSent(records), sent, after) && CodeSent(records) == []
            && forall i | 0 <= i < |records| :: IsMapping(records[i])
    decreases |vas|
  {
    if vas != [] && cfg.sendVa2pa {
      var vp := vas[0] / PAGE_SIZE;
      if vp in sent || Lookup(cfg, vp) == 0 {
        MappingsOnce(cfg, sent, vas[1..]);
      } else {
        MappingsOnce(cfg, sent + {vp}, vas[1..]);
        var (records, after) := Va2paRecords(cfg, sent + {vp}, vas[1..]);
        var first := Other(REC_LOGICAL2PHYSICAL, [vp, Lookup(cfg, vp)], []);
        assert ([first] + records)[1..] == records;
        OnceThen([vp], PagesSent(records), sent, sent + {vp}, after);
      }
    }
  }

  lemma {:induction false} CodePagesOnce(cfg: Config, sent: set<nat>, base: nat, last: nat)
    ensures var (records, after) := PageRecords(cfg, sent, base, last);
            Once(CodeSent(records), sent, after) && PagesSent(records) == []
            && forall i | 0 <= i < |records| :: IsCode(records[i])
    decreases last - base
  {
    if base <= last {
      if base in sent {
        CodePagesOnce(cfg, sent, base + ICACHE_SIZE, last);
      } else {
        CodePagesOnce(cfg, sent + {base}, base + ICACHE_SIZE, last);
        var (records, after) := PageRecords(cfg, sent + {base}, base + ICACHE_SIZE, last);
        var first := Other(REC_ICACHE, [base], Code(cfg.image, base, ICACHE_SIZE));
        assert ([first] + records)[1..] == records;
        OnceThen([base], CodeSent(records), sent, sent + {base}, after);
      }
    }
  }

  lemma OneCodeRecord(rec: Record)
    requires IsCode(rec)
    ensures CodeSent([rec]) == [rec.ints[0]] && PagesSent([rec]) == []
  {
    assert [rec][1..] == [];
  }

  lemma CodeOfInsnOnce(cfg: Config, sent: set<nat>, addr: nat, size: nat)
    requires cfg.perInsn && size > 0
    ensures var (records, after) := CodeRecords(cfg, sent, addr, size);
            Once(CodeSent(records), sent, after) && PagesSent(records) == []
            && forall i | 0 <= i < |records| :: IsCode(records[i])
  {
    var rec := Other(REC_ICACHE_VARIABLE, [addr], Code(cfg.image, addr, size));
    OneCodeRecord(rec);
    var none: seq<Record> := [];
    assert CodeSent(none) == [] && PagesSent(none) == [];
  }

  lemma CodeOnce(cfg: Config, w: WState, call: Call)
    ensures var (records, after) := CodeOf(cfg, w, call);
            Once(CodeSent(records), w.icache, after) && PagesSent(records) == []
            && forall i | 0 <= i < |records| :: IsCode(records[i])
  {
    if call.Execute? && call.insn.size > 0 {
      if cfg.perInsn {
        CodeOfInsnOnce(cfg, w.icache, call.insn.addr, call.insn.size);
      } else {
        CodePagesOnce(cfg, w.icache, PageBase(call.insn.addr), PageBase(call.insn.addr + call.insn.size - 1));
      }
    }
  }

  /** A call's own record carries neither code nor a mapping. */
  predicate Plain(call: Call) { call.Request? ==> IsRequest(call.code) }

  lemma OwnRecordPlain(lastAddress: nat, call: Call)
    requires Plain(call)
    ensures CodeSent([CallRecord(lastAddress, call)]) == [] && PagesSent([CallRecord(lastAddress, call)]) == []
  {
    var own := CallRecord(lastAddress, call);
    assert !IsCode(own) && !IsMapping(own);
    assert [own][1..] == [];
  }

  lemma SentOf(code: seq<Record>, maps: seq<Record>, own: Record)
    requires PagesSent(code) == [] && CodeSent(maps) == [] && CodeSent([own]) == [] && PagesSent([own]) == []
    ensures CodeSent(code + maps + [own]) == CodeSent(code) && PagesSent(code + maps + [own]) == PagesSent(maps)
  {
    SentConcat(code, maps);
    SentConcat(code + maps, [own]);
  }

  /**
   * The records of a call: first the code that was not sent before, then the mappings that were not, then its own
   * record.
   */
  lemma CallRecordsInOrder(cfg: Config, w: WState, call: Call) returns (code: seq<Record>, maps: seq<Record>)
    requires Plain(call)
    ensures WriterStep(cfg, w, call).1 == code + maps + [CallRecord(w.lastAddress, call)]
    ensures (forall i | 0 <= i < |code| :: IsCode(code[i])) && forall i | 0 <= i < |maps| :: IsMapping(maps[i])
    ensures var (w', records) := WriterStep(cfg, w, call);
            Once(CodeSent(records), w.icache, w'.icache) && Once(PagesSent(records), w.va2pa, w'.va2pa)
  {
    code, maps := CodeOf(cfg, w, call).0, Va2paRecords(cfg, w.va2pa, Touched(call)).0;
    CodeOnce(cfg, w, call);
    MappingsOnce(cfg, w.va2pa, Touched(call));
    OwnRecordPlain(w.lastAddress, call);
    SentOf(code, maps, CallRecord(w.lastAddress, call));
  }

  /** Throughout a trace no code and no mapping is sent twice, or that was sent before. */
  lemma {:induction false} NothingSentTwice(cfg: Config, w: WState, calls: seq<Call>) returns (w': WState)
    requires forall i | 0 <= i < |calls| :: Plain(calls[i])
    ensures var records := TraceRecords(cfg, w, calls);
            Once(CodeSent(records), w.icache, w'.icache) && Once(PagesSent(records), w.va2pa, w'.va2pa)
    decreases |calls|
  {
    if calls == [] {
      w' := w;
      assert [END_RECORD][1..] == [];
    } else {
      var (w1, records) := WriterStep(cfg, w, calls[0]);
      var _, _ := CallRecordsInOrder(cfg, w, calls[0]);
      w' := NothingSentTwice(cfg, w1, calls[1..]);
      var rest := TraceRecords(cfg, w1, calls[1..]);
      SentConcat(records, rest);
      OnceThen(CodeSent(records), CodeSent(rest), w.icache, w1.icache, w'.icache);
      OnceThen(PagesSent(records), PagesSent(rest), w.va2pa, w1.va2pa, w'.va2pa);
    }
  }
}
