/** The SIFT record format: layouts, the first-byte rule, and the parser the reader applies to its input stream. */
module SiftFormat {
  import opened Prelude
  import opened Bytes

  const ICACHE_SIZE: nat := 0x1000
  const MAX_DYNAMIC_ADDRESSES: nat := 2
  const EMU_REQUEST_SIZE: nat := 8
  const EMU_REPLY_SIZE: nat := 24
  const TWO_32: nat := 0x1_0000_0000

  const REC_ICACHE: Byte := 0
  const REC_OUTPUT: Byte := 1
  const REC_SYSCALL_REQUEST: Byte := 2
  const REC_SYSCALL_RESPONSE: Byte := 3
  const REC_NEW_THREAD: Byte := 4
  const REC_NEW_THREAD_RESPONSE: Byte := 5
  const REC_MEMORY_REQUEST: Byte := 6
  const REC_MEMORY_RESPONSE: Byte := 7
  const REC_JOIN: Byte := 8
  const REC_JOIN_RESPONSE: Byte := 9
  const REC_ICACHE_VARIABLE: Byte := 11
  const REC_SYNC: Byte := 12
  const REC_SYNC_RESPONSE: Byte := 13
  const REC_LOGICAL2PHYSICAL: Byte := 14
  const REC_MAGIC: Byte := 15
  const REC_MAGIC_RESPONSE: Byte := 16
  const REC_ROUTINE_CHANGE: Byte := 17
  const REC_ROUTINE_ANNOUNCE: Byte := 18
  const REC_EMU: Byte := 19
  const REC_EMU_RESPONSE: Byte := 20
  const REC_FORK: Byte := 21
  const REC_FORK_RESPONSE: Byte := 22
  const REC_INSTRUCTION_COUNT: Byte := 23
  const REC_CACHE_ONLY: Byte := 24
  const REC_END: Byte := 0xff

  /** A record of the trace stream. `Other` holds the integer fields of its layout and the bytes after them. */
  datatype Record =
    | Simple(size: nat, isBranch: bool, taken: bool, addresses: seq<nat>)
    | Extended(size: nat, isBranch: bool, taken: bool, isPredicate: bool, executed: bool, addr: nat,
               addresses: seq<nat>)
    | Other(code: Byte, ints: seq<nat>, blob: seq<Byte>)
    | Announce(eip: nat, name: seq<Byte>, imgname: seq<Byte>, offset: nat, line: nat, column: nat, filename: seq<Byte>)

  datatype Kind = SimpleKind | ExtendedKind | OtherKind

  function Bit(b: bool): nat { if b then 1 else 0 }

  function Guard(b: bool): Option<()> { if b then Some(()) else None }

  /** The reader's choice between the three layouts from the first byte. */
  function Classify(first: Byte): Kind {
    if first == 0 then OtherKind
    else if first % 16 != 0 then SimpleKind
    else ExtendedKind
  }

  /** Bit fields keep the low bits of what is assigned to them. */
  function SimpleByte(size: nat, num: nat, isBranch: bool, taken: bool): Byte {
    size % 16 + 16 * (num % 4) + 64 * Bit(isBranch) + 128 * Bit(taken)
  }

  function FlagsByte(num: nat, isBranch: bool, taken: bool, isPredicate: bool, executed: bool): Byte {
    num % 4 + 4 * Bit(isBranch) + 8 * Bit(taken) + 16 * Bit(isPredicate) + 32 * Bit(executed)
  }

  function Eights(n: nat): (w: seq<nat>)
    ensures |w| == n
  {
    seq(n, i => 8)
  }

  /** Widths of the integer fields that open a record of the given type, in the order they are written and read. */
  function Layout(code: Byte): seq<nat> {
    if code in {REC_ICACHE, REC_ICACHE_VARIABLE} then [8]
    else if code == REC_LOGICAL2PHYSICAL then [8, 8]
    else if code == REC_CACHE_ONLY then [1, 1, 8, 8]
    else if code == REC_OUTPUT then [1]
    else if code == REC_ROUTINE_CHANGE then [1, 8, 8, 8]
    else if code in {REC_SYSCALL_REQUEST, REC_EMU} then [2]
    else if code in {REC_INSTRUCTION_COUNT, REC_JOIN} then [4]
    else if code == REC_MAGIC then [8, 8, 8]
    else if code == REC_MEMORY_REQUEST then [8, 4, 4, 4]
    else if code == REC_MEMORY_RESPONSE then [8, 4]
    else []
  }

  /** The reader's size assertions: how many bytes may follow the integer fields. */
  predicate BlobAllowed(code: Byte, n: nat) {
    if code == REC_ICACHE then n == ICACHE_SIZE
    else if code == REC_EMU then n <= EMU_REQUEST_SIZE
    else if code in {REC_OUTPUT, REC_SYSCALL_REQUEST} then n > 0
    else if code in {REC_END, REC_LOGICAL2PHYSICAL, REC_CACHE_ONLY, REC_ROUTINE_CHANGE, REC_INSTRUCTION_COUNT,
                     REC_NEW_THREAD,
                     REC_JOIN, REC_SYNC, REC_FORK, REC_MAGIC} then n == 0
    else true
  }

  function Sum(widths: seq<nat>): nat {
    if widths == [] then 0 else widths[0] + Sum(widths[1..])
  }

  /** A byte buffer preceded by its 16-bit length. */
  function Counted(s: seq<Byte>): seq<Byte> { ToLE(|s|, 2) + s }

  function OtherHeader(code: Byte, size: nat): seq<Byte> { [0, code] + ToLE(size, 4) }

  function AnnounceBody(r: Record): seq<Byte>
    requires r.Announce?
  {
    ToLE(r.eip, 8) + (Counted(r.name) + (Counted(r.imgname)
    + (EncodeInts([8, 4, 4], [r.offset, r.line, r.column]) + Counted(r.filename))))
  }

  function SerializeOther(code: Byte, widths: seq<nat>, ints: seq<nat>, blob: seq<Byte>): seq<Byte>
  {
    OtherHeader(code, Sum(widths) + |blob|) + (EncodeInts(widths, ints) + blob)
  }

  /** The bytes the writer puts on the wire for a record. */
  function Serialize(r: Record): (b: seq<Byte>)
  {
    match r
    case Simple(size, isBranch, taken, addresses) =>
      [SimpleByte(size, |addresses|, isBranch, taken)] + EncodeInts(Eights(|addresses|), addresses)
    case Extended(size, isBranch, taken, isPredicate, executed, addr, addresses) =>
      [16 * (size % 16), FlagsByte(|addresses|, isBranch, taken, isPredicate, executed)]
      + (ToLE(addr, 8) + EncodeInts(Eights(|addresses|), addresses))
    case Other(code, ints, blob) =>
      SerializeOther(code, Layout(code), ints, blob)
    case Announce(_, _, _, _, _, _, _) =>
      OtherHeader(REC_ROUTINE_ANNOUNCE, |AnnounceBody(r)|) + AnnounceBody(r)
  }

  /** Records written one after the other. */
  function SerializeAll(records: seq<Record>): seq<Byte>
  {
    if records == [] then [] else Serialize(records[0]) + SerializeAll(records[1..])
  }

  function ParseSimple(input: seq<Byte>): Option<(Record, seq<Byte>)>
    requires |input| > 0
  {
    var first := input[0];
    var num := first / 16 % 4;
    var _ :- Guard(num <= MAX_DYNAMIC_ADDRESSES);
    var (addresses, rest) :- DecodeInts(Eights(num), input[1..]);
    Some((Simple(first % 16, first / 64 % 2 == 1, first / 128 == 1, addresses), rest))
  }

  function ParseExtended(input: seq<Byte>): Option<(Record, seq<Byte>)>
    requires |input| > 0
  {
    var _ :- Guard(|input| >= 10);
    var f := input[1];
    var num := f % 4;
    var _ :- Guard(num <= MAX_DYNAMIC_ADDRESSES);
    var (addresses, rest) :- DecodeInts(Eights(num), input[10..]);
    Some((Extended(input[0] / 16, f / 4 % 2 == 1, f / 8 % 2 == 1, f / 16 % 2 == 1, f / 32 % 2 == 1,
                   FromLE(input[2..10]), addresses), rest))
  }

  /** Integer fields, then the rest of a body of the given size. */
  function ParseBody(widths: seq<nat>, size: nat, input: seq<Byte>): (r: Option<(seq<nat>, seq<Byte>, seq<Byte>)>)
    ensures r.Some? ==>
              Sum(widths) <= size && |r.value.1| == size - Sum(widths) && |r.value.0| == |widths|
              && |r.value.2| <= |input|
  {
    var _ :- Guard(Sum(widths) <= size);
    var (ints, afterInts) :- DecodeInts(widths, input);
    var (blob, rest) :- Take(afterInts, size - Sum(widths));
    Some((ints, blob, rest))
  }

  function TakeCounted(input: seq<Byte>): (r: Option<(seq<Byte>, seq<Byte>)>)
    ensures r.Some? ==> |r.value.1| <= |input|
  {
    var (n, afterLen) :- Take(input, 2);
    Take(afterLen, FromLE(n))
  }

  /** Driven by the embedded lengths only: the size in the record header is not consulted. */
  function ParseAnnounce(input: seq<Byte>): (r: Option<(Record, seq<Byte>)>)
    ensures r.Some? ==> |r.value.1| <= |input|
  {
    var (eip, i0) :- Take(input, 8);
    var (name, i1) :- TakeCounted(i0);
    var (imgname, i2) :- TakeCounted(i1);
    var (v, i3) :- DecodeInts([8, 4, 4], i2);
    var (filename, rest) :- TakeCounted(i3);
    Some((Announce(FromLE(eip), name, imgname, v[0], v[1], v[2], filename), rest))
  }

  function ParseOther(input: seq<Byte>): (r: Option<(Record, seq<Byte>)>)
    ensures r.Some? ==> |r.value.1| < |input|
  {
    var _ :- Guard(|input| >= 6);
    var code, size := input[1], FromLE(input[2..6]);
    if code == REC_ROUTINE_ANNOUNCE then ParseAnnounce(input[6..])
    else
      var (ints, blob, rest) :- ParseBody(Layout(code), size, input[6..]);
      var _ :- Guard(BlobAllowed(code, |blob|));
      Some((Other(code, ints, blob), rest))
  }

  /** One record from the head of the stream, or None where the reader would assert or run out of input. */
  function Parse(input: seq<Byte>): (r: Option<(Record, seq<Byte>)>)
    ensures r.Some? ==> |r.value.1| < |input|
  {
    if |input| == 0 then None
    else
      match Classify(input[0])
      case OtherKind => ParseOther(input)
      case SimpleKind => ParseSimple(input)
      case ExtendedKind => ParseExtended(input)
  }

  // ---- Well-formed records and the round trip

  ghost predicate U64(n: nat) { n < TWO_64 }

  ghost predicate AddressesFit(addresses: seq<nat>) {
    |addresses| <= MAX_DYNAMIC_ADDRESSES && forall i | 0 <= i < |addresses| :: U64(addresses[i])
  }

  /** Field values the format can carry. */
  ghost predicate WellFormed(r: Record) {
    match r
    case Simple(size, _, _, addresses) => 0 < size < 16 && AddressesFit(addresses)
    case Extended(size, _, _, _, _, addr, addresses) => 0 < size < 16 && U64(addr) && AddressesFit(addresses)
    case Other(code, ints, blob) =>
      code != REC_ROUTINE_ANNOUNCE && Fits(Layout(code), ints) && BlobAllowed(code, |blob|)
      && Sum(Layout(code)) + |blob| < TWO_32
    case Announce(eip, name, imgname, offset, line, column, filename) =>
      U64(eip) && |name| < 0x1_0000 && |imgname| < 0x1_0000 && |filename| < 0x1_0000
      && U64(offset) && line < TWO_32 && column < TWO_32
  }

  /**
   * The first byte selects the right layout exactly for the sizes the format allows, 1 to 15, and carries all its
   * fields.
   */
  lemma FirstByteRule(size: nat, num: nat, isBranch: bool, taken: bool)
    requires size < 16 && num < 4
    ensures Classify(SimpleByte(size, num, isBranch, taken)) == SimpleKind <==> 0 < size
    ensures Classify(16 * size) == ExtendedKind <==> 0 < size
    ensures var b := SimpleByte(size, num, isBranch, taken);
            b % 16 == size && b / 16 % 4 == num && b / 64 % 2 == Bit(isBranch) && b / 128 == Bit(taken)
  {
    var b := SimpleByte(size, num, isBranch, taken);
    assert b == size + 16 * (num + 4 * Bit(isBranch) + 8 * Bit(taken));
    assert b / 16 == num + 4 * (Bit(isBranch) + 2 * Bit(taken));
    assert b / 64 == Bit(isBranch) + 2 * Bit(taken);
  }

  lemma FlagsRule(num: nat, isBranch: bool, taken: bool, isPredicate: bool, executed: bool)
    requires num < 4
    ensures var f := FlagsByte(num, isBranch, taken, isPredicate, executed);
            f % 4 == num && f / 4 % 2 == Bit(isBranch) && f / 8 % 2 == Bit(taken)
            && f / 16 % 2 == Bit(isPredicate) && f / 32 % 2 == Bit(executed)
  {
    var f := FlagsByte(num, isBranch, taken, isPredicate, executed);
    assert f / 4 == Bit(isBranch) + 2 * Bit(taken) + 4 * Bit(isPredicate) + 8 * Bit(executed);
    assert f / 8 == Bit(taken) + 2 * Bit(isPredicate) + 4 * Bit(executed);
    assert f / 16 == Bit(isPredicate) + 2 * Bit(executed);
    assert f / 32 == Bit(executed);
  }

  lemma AddressesRoundTrip(addresses: seq<nat>, rest: seq<Byte>)
    requires AddressesFit(addresses)
    ensures DecodeInts(Eights(|addresses|), EncodeInts(Eights(|addresses|), addresses) + rest) ==
            Some((addresses, rest))
  {
    Widths();
    IntsRoundTrip(Eights(|addresses|), addresses, rest);
  }

  lemma ParseSimpleBytes(s: seq<Byte>, addresses: seq<nat>, rest: seq<Byte>)
    requires |s| > 0 && s[0] / 16 % 4 == |addresses| && AddressesFit(addresses)
    requires s[1..] == EncodeInts(Eights(|addresses|), addresses) + rest
    ensures ParseSimple(s) == Some((Simple(s[0] % 16, s[0] / 64 % 2 == 1, s[0] / 128 == 1, addresses), rest))
  {
    AddressesRoundTrip(addresses, rest);
  }

  lemma SimpleBytes(r: Record, rest: seq<Byte>)
    requires r.Simple?
    ensures var s := Serialize(r) + rest;
            |s| > 0 && s[0] == SimpleByte(r.size, |r.addresses|, r.isBranch, r.taken)
            && s[1..] == EncodeInts(Eights(|r.addresses|), r.addresses) + rest
  {
  }

  lemma SimpleRoundTrip(r: Record, rest: seq<Byte>)
    requires r.Simple? && WellFormed(r)
    ensures Parse(Serialize(r) + rest) == Some((r, rest))
  {
    var s := Serialize(r) + rest;
    SimpleBytes(r, rest);
    FirstByteRule(r.size, |r.addresses|, r.isBranch, r.taken);
    ParseSimpleBytes(s, r.addresses, rest);
  }

  lemma ParseExtendedBytes(s: seq<Byte>, addr: nat, addresses: seq<nat>, rest: seq<Byte>)
    requires |s| >= 10 && s[1] % 4 == |addresses| && AddressesFit(addresses) && U64(addr)
    requires s[2..10] == ToLE(addr, 8) && s[10..] == EncodeInts(Eights(|addresses|), addresses) + rest
    ensures var f := s[1];
            ParseExtended(s) == Some((Extended(s[0] / 16, f / 4 % 2 == 1, f / 8 % 2 == 1, f / 16 % 2 == 1,
                                               f / 32 % 2 == 1,
                                               addr, addresses), rest))
  {
    AddressesRoundTrip(addresses, rest);
    Widths();
    LittleEndianRoundTrip(addr, 8);
  }

  lemma ExtendedBytes(r: Record, rest: seq<Byte>)
    requires r.Extended? && r.size < 16
    ensures var s := Serialize(r) + rest;
            |s| >= 10 && s[0] == 16 * r.size
              && s[1] == FlagsByte(|r.addresses|, r.isBranch, r.taken, r.isPredicate, r.executed)
            && s[2..10] == ToLE(r.addr, 8) && s[10..] == EncodeInts(Eights(|r.addresses|), r.addresses) + rest
  {
  }

  lemma ExtendedRoundTrip(r: Record, rest: seq<Byte>)
    requires r.Extended? && WellFormed(r)
    ensures Parse(Serialize(r) + rest) == Some((r, rest))
  {
    var s := Serialize(r) + rest;
    ExtendedBytes(r, rest);
    FlagsRule(|r.addresses|, r.isBranch, r.taken, r.isPredicate, r.executed);
    ParseExtendedBytes(s, r.addr, r.addresses, rest);
    assert Classify(s[0]) == ExtendedKind;
  }

  lemma {:induction false} EncodeLength(widths: seq<nat>, values: seq<nat>)
    requires |widths| == |values|
    ensures |EncodeInts(widths, values)| == Sum(widths)
    decreases |widths|
  {
    if widths != [] {
      EncodeLength(widths[1..], values[1..]);
    }
  }

  lemma BodyRoundTrip(widths: seq<nat>, ints: seq<nat>, blob: seq<Byte>, rest: seq<Byte>)
    requires Fits(widths, ints)
    ensures ParseBody(widths, Sum(widths) + |blob|, (EncodeInts(widths, ints) + blob) + rest) ==
            Some((ints, blob, rest))
  {
    assert (EncodeInts(widths, ints) + blob) + rest == EncodeInts(widths, ints) + (blob + rest);
    IntsRoundTrip(widths, ints, blob + rest);
    TakePrefix(blob, rest);
  }

  lemma HeaderRoundTrip(code: Byte, size: nat, body: seq<Byte>)
    requires size < TWO_32
    ensures var s := OtherHeader(code, size) + body;
            |s| >= 6 && s[0] == 0 && s[1] == code && FromLE(s[2..6]) == size && s[6..] == body
  {
    Widths();
    LittleEndianRoundTrip(size, 4);
    var s := OtherHeader(code, size) + body;
    assert s[2..6] == ToLE(size, 4) && s[6..] == body;
  }

  lemma ParseOtherParts(s: seq<Byte>, code: Byte, ints: seq<nat>, blob: seq<Byte>, rest: seq<Byte>)
    requires |s| >= 6 && s[0] == 0 && s[1] == code && code != REC_ROUTINE_ANNOUNCE
    requires ParseBody(Layout(code), FromLE(s[2..6]), s[6..]) == Some((ints, blob, rest))
    requires BlobAllowed(code, |blob|)
    ensures Parse(s) == Some((Other(code, ints, blob), rest))
  {
  }

  lemma OtherBytesRoundTrip(code: Byte, widths: seq<nat>, ints: seq<nat>, blob: seq<Byte>, rest: seq<Byte>)
    requires Fits(widths, ints) && Sum(widths) + |blob| < TWO_32
    ensures var s := SerializeOther(code, widths, ints, blob) + rest;
            |s| >= 6 && s[0] == 0 && s[1] == code
              && ParseBody(widths, FromLE(s[2..6]), s[6..]) == Some((ints, blob, rest))
  {
    var body := EncodeInts(widths, ints) + blob;
    var size := Sum(widths) + |blob|;
    BodyRoundTrip(widths, ints, blob, rest);
    HeaderRoundTrip(code, size, body + rest);
    assert SerializeOther(code, widths, ints, blob) + rest == OtherHeader(code, size) + (body + rest);
  }

  lemma OtherRoundTrip(r: Record, rest: seq<Byte>)
    requires r.Other? && WellFormed(r)
    ensures Parse(Serialize(r) + rest) == Some((r, rest))
  {
    OtherBytesRoundTrip(r.code, Layout(r.code), r.ints, r.blob, rest);
    ParseOtherParts(Serialize(r) + rest, r.code, r.ints, r.blob, rest);
  }

  lemma CountedRoundTrip(s: seq<Byte>, rest: seq<Byte>)
    requires |s| < 0x1_0000
    ensures TakeCounted(Counted(s) + rest) == Some((s, rest))
  {
    Widths();
    assert Counted(s) + rest == ToLE(|s|, 2) + (s + rest);
    LittleEndianRoundTrip(|s|, 2);
    TakePrefix(ToLE(|s|, 2), s + rest);
    TakePrefix(s, rest);
  }

  lemma AnnounceBodyRoundTrip(r: Record, rest: seq<Byte>)
    requires r.Announce? && WellFormed(r)
    ensures ParseAnnounce(AnnounceBody(r) + rest) == Some((r, rest))
  {
    var numbers := EncodeInts([8, 4, 4], [r.offset, r.line, r.column]);
    var i3 := Counted(r.filename) + rest;
    var i2 := numbers + i3;
    var i1 := Counted(r.imgname) + i2;
    var i0 := Counted(r.name) + i1;
    assert AnnounceBody(r) + rest == ToLE(r.eip, 8) + i0;
    TakePrefix(ToLE(r.eip, 8), i0);
    CountedRoundTrip(r.name, i1);
    CountedRoundTrip(r.imgname, i2);
    CountedRoundTrip(r.filename, rest);
    assert FromLE(ToLE(r.eip, 8)) == r.eip && DecodeInts([8, 4, 4], i2) == Some(([r.offset, r.line, r.column], i3)) by {
      Widths();
      LittleEndianRoundTrip(r.eip, 8);
      IntsRoundTrip([8, 4, 4], [r.offset, r.line, r.column], i3);
    }
  }

  /** The size field the writer computes for a routine announcement is the length of what it then writes. */
  lemma AnnounceLength(r: Record)
    requires r.Announce?
    ensures |AnnounceBody(r)| == 8 + (2 + |r.name|) + (2 + |r.imgname|) + 16 + (2 + |r.filename|)
  {
    EncodeLength([8, 4, 4], [r.offset, r.line, r.column]);
  }

  lemma AnnounceBytes(body: seq<Byte>, r: Record, rest: seq<Byte>)
    requires |body| < TWO_32 && ParseAnnounce(body + rest) == Some((r, rest))
    ensures Parse((OtherHeader(REC_ROUTINE_ANNOUNCE, |body|) + body) + rest) == Some((r, rest))
  {
    HeaderRoundTrip(REC_ROUTINE_ANNOUNCE, |body|, body + rest);
    var header := OtherHeader(REC_ROUTINE_ANNOUNCE, |body|);
    assert (header + body) + rest == header + (body + rest);
  }

  lemma AnnounceRoundTrip(r: Record, rest: seq<Byte>)
    requires r.Announce? && WellFormed(r)
    ensures Parse(Serialize(r) + rest) == Some((r, rest))
  {
    AnnounceLength(r);
    AnnounceBodyRoundTrip(r, rest);
    AnnounceBytes(AnnounceBody(r), r, rest);
  }

  /** Every well-formed record is read back unchanged, whatever follows it in the stream. */
  lemma RecordRoundTrip(r: Record, rest: seq<Byte>)
    requires WellFormed(r)
    ensures Parse(Serialize(r) + rest) == Some((r, rest))
  {
    match r
    case Simple(_, _, _, _) => SimpleRoundTrip(r, rest);
    case Extended(_, _, _, _, _, _, _) => ExtendedRoundTrip(r, rest);
    case Other(_, _, _) => OtherRoundTrip(r, rest);
    case Announce(_, _, _, _, _, _, _) => AnnounceRoundTrip(r, rest);
  }

  lemma {:induction false} SerializeConcat(a: seq<Record>, b: seq<Record>)
    ensures SerializeAll(a + b) == SerializeAll(a) + SerializeAll(b)
    decreases |a|
  {
    if a == [] {
      assert a + b == b;
    } else {
      assert (a + b)[1..] == a[1..] + b;
      SerializeConcat(a[1..], b);
    }
  }

  /** Size fields of the fixed parts of the records. */
  lemma FixedSizes()
    ensures Sum(Layout(REC_LOGICAL2PHYSICAL)) == 16 && Sum(Layout(REC_ICACHE)) == 8
            && Sum(Layout(REC_ICACHE_VARIABLE)) == 8
    ensures Sum(Layout(REC_CACHE_ONLY)) == 18 && Sum(Layout(REC_OUTPUT)) == 1 && Sum(Layout(REC_ROUTINE_CHANGE)) == 25
    ensures Sum(Layout(REC_END)) == 0
  {
    assert Sum([8]) == 8 && Sum([8, 8]) == 16 && Sum([1, 1, 8, 8]) == 18 && Sum([1, 8, 8, 8]) == 25 && Sum([1]) == 1;
  }
}
