/** The assertions on both sides of an exchange: for any message that arrives, exactly when they fire. */
module SiftAssertions {
  import opened Prelude
  import opened Bytes
  import opened SiftFormat
  import opened SiftProtocol

  /** A memory request is one for a read without data, of at least a byte, or a write of exactly its data. */
  predicate ProperAccess(ints: seq<nat>, n: nat) {
    |ints| == 4 && ((ints[3] == 1 && n == 0 && ints[1] > 0) || (ints[3] == 2 && n > 0 && n == ints[1]))
  }

  /**
   * The waiting writer goes on if and only if the message begins with a zero byte and is the reply, of a size that
   * fits, or a proper memory request while the request is one that serves them; any other message makes it assert.
   */
  lemma WriterGoesOnExactlyWhen(request: Message, s: System, m: Message, rest: seq<Byte>)
    requires IsRequestCode(request.code) && s.w.Waiting? && Arrived(s.toWriter)
    requires Receive(s.toWriter) == Some((m, rest))
    ensures !WriterMove(request, s).w.WriterAsserts? <==>
            && s.toWriter[0] == 0
            && (|| (m.code == ResponseCode(request.code) && ResponseFits(request.code, |m.blob|))
                || (m.code == 6 && request.code in {2, 12, 15, 19} && ProperAccess(m.ints, |m.blob|)))
  {
  }

  /** A proper memory request is answered under its own address and type, in full. */
  lemma AccessAnswered(request: Message, s: System, m: Message, rest: seq<Byte>)
    requires Nests(request.code) && s.w.Waiting? && Arrived(s.toWriter) && s.toWriter[0] == 0
    requires Receive(s.toWriter) == Some((m, rest)) && m.code == 6 && ProperAccess(m.ints, |m.blob|)
    ensures var r, addr, size, write := WriterMove(request, s), m.ints[0], m.ints[1], m.ints[3] == 2;
            && r.w == s.w && r.r == s.r && r.toWriter == rest
            && r.toReader == s.toReader + Wire(Message(7, [addr, m.ints[3]],
                                                       if write then [] else Peek(s.mem, addr, size)))
            && r.mem == if write then Poke(s.mem, addr, m.blob) else s.mem
  {
  }

  /**
   * The reader takes the answer to an access if and only if it is a memory response for the address asked for, with as
   * many bytes as were to be read, or none after a write; any other message makes it assert.
   */
  lemma ReaderGoesOnExactlyWhen(request: Message, h: Handler, s: System, m: Message, rest: seq<Byte>)
    requires s.r.Accessing? && !s.r.access.Reply? && Arrived(s.toReader) && Receive(s.toReader) == Some((m, rest))
    ensures var a, r := s.r.access, ReaderMove(request, h, s);
            && (!r.r.ReaderAsserts? <==> m.code == 7 && |m.ints| == 2 && m.ints[0] == a.addr
                                         && |m.blob| == (if a.ReadMemory? then a.size else 0))
            && (!r.r.ReaderAsserts? ==> r == s.(r := Handling(s.r.answers + [m.blob]), toReader := rest))
  {
  }

  /** What the reader asks for, field by field: address, size, lock, and 1 for a read or 2 for a write. */
  lemma AccessAsked(a: Action)
    requires !a.Reply?
    ensures var m := AccessRequest(a);
            && m.code == 6 && |m.ints| == 4 && m.ints[0] == a.addr && m.ints[2] == a.lock
            && (a.ReadMemory? ==> m.ints[1] == a.size && m.ints[3] == 1 && m.blob == [])
            && (a.WriteMemory? ==> m.ints[1] == |a.data| && m.ints[3] == 2 && m.blob == a.data)
  {
  }
}
