/**
 * What write_data_by_chunk_stream and gen_data put on the wire, and the round trip: the
 * reader of RtmpReader recovers the messages from one sender, or from any interleaving of
 * whole chunks of messages on different chunk streams.
 */
module RtmpWriter {
  import opened Bytes
  import opened RtmpReader
  import opened RtmpSegmentation

  function BasicHeader(fmt: nat, csid: nat): seq<byte>
    requires fmt < 4
  {
    if csid < 64 then [fmt * 64 + csid]
    else if csid - 64 < 256 then [fmt * 64, csid % 0x100]
    else [fmt * 64 + 1] + Put2(csid)
  }

  function MessageHeader(fmt: nat, m: Message): seq<byte> {
    if fmt == 0 then Put3(m.ts) + Put3(|m.payload|) + [m.typeId] + Put4(m.msgStreamId)
    else if fmt == 1 then Put3(m.ts) + Put3(|m.payload|) + [m.typeId]
    else if fmt == 2 then Put3(m.ts)
    else []
  }

  /** gen_data: one chunk. */
  function GenData(fmt: nat, m: Message, data: seq<byte>): seq<byte>
    requires fmt < 4
  {
    BasicHeader(fmt, m.csid) + (MessageHeader(fmt, m) + data)
  }

  function Piece(m: Message, chunkSize: nat, off: nat): seq<byte>
    requires off < |m.payload|
  {
    if off + chunkSize < |m.payload| then m.payload[off..off + chunkSize] else m.payload[off..]
  }

  /** The chunk that starts at payload offset off. */
  function ChunkAt(m: Message, chunkSize: nat, off: nat): (r: seq<byte>)
    requires off < |m.payload|
    ensures r != []
  {
    GenData(if off == 0 then 0 else 3, m, Piece(m, chunkSize, off))
  }

  /** All chunks of the message from payload offset off on. */
  function ChunksFrom(m: Message, chunkSize: nat, off: nat): seq<seq<byte>>
    requires chunkSize > 0
    decreases |m.payload| - off
  {
    if off >= |m.payload| then []
    else [ChunkAt(m, chunkSize, off)] + ChunksFrom(m, chunkSize, off + chunkSize)
  }

  function Chunks(m: Message, chunkSize: nat): seq<seq<byte>>
    requires chunkSize > 0
  {
    ChunksFrom(m, chunkSize, 0)
  }

  /** The writer's loop bound: index is a chunk exactly when its offset is inside. */
  lemma ChunkCount(total: nat, chunkSize: nat, count: nat)
    requires chunkSize > 0
    requires count == total / chunkSize + if total % chunkSize > 0 then 1 else 0
    ensures count * chunkSize >= total && (count > 0 ==> (count - 1) * chunkSize < total)
  {
    var q := total / chunkSize;
    assert total == q * chunkSize + total % chunkSize;
    assert (q + 1) * chunkSize == q * chunkSize + chunkSize;
    assert (q - 1) * chunkSize == q * chunkSize - chunkSize;
  }

  /** The writer's length arithmetic names the piece at that offset. */
  lemma ChunkOffset(total: nat, chunkSize: nat, count: nat, index: nat)
    requires chunkSize > 0 && index < count
    requires count == total / chunkSize + if total % chunkSize > 0 then 1 else 0
    ensures index * chunkSize < total && (index == 0 <==> index * chunkSize == 0)
    ensures var len := if index == count - 1 && total % chunkSize > 0 then total % chunkSize else chunkSize;
            len == (if index * chunkSize + chunkSize < total then chunkSize else total - index * chunkSize)
  {
    var q := total / chunkSize;
    assert total == q * chunkSize + total % chunkSize;
    if index < q {
      assert (index + 1) * chunkSize == index * chunkSize + chunkSize;
      Times(index + 1, q, chunkSize);
    }
    Times(0, index, chunkSize);
    if index > 0 {
      Times(1, index, chunkSize);
    }
  }

  lemma Times(a: nat, b: nat, c: nat)
    requires a <= b
    ensures a * c <= b * c
  {
  }

  lemma NextOffset(index: nat, chunkSize: nat)
    ensures (index + 1) * chunkSize == index * chunkSize + chunkSize
  {
  }

  lemma ChunkStep(m: Message, chunkSize: nat, off: nat, len: nat)
    requires chunkSize > 0 && off < |m.payload|
    requires len == if off + chunkSize < |m.payload| then chunkSize else |m.payload| - off
    ensures ChunkAt(m, chunkSize, off) == GenData(if off == 0 then 0 else 3, m, m.payload[off..off + len])
    ensures ChunksFrom(m, chunkSize, off) == [ChunkAt(m, chunkSize, off)] + ChunksFrom(m, chunkSize, off + chunkSize)
  {
  }

  function ChunksOf(ms: seq<Message>, chunkSize: nat): seq<seq<byte>>
    requires chunkSize > 0
  {
    if ms == [] then [] else Chunks(ms[0], chunkSize) + ChunksOf(ms[1..], chunkSize)
  }

  /** What the writer can express: a one-byte csid, 24-bit lengths, no timestamp escape. */
  predicate Sendable(m: Message) {
    && 2 <= m.csid < 64
    && 0 < |m.payload| < 0x100_0000
    && m.msgStreamId < U32
    && m.ts % 0x100_0000 != EXT_TS_MARK
  }

  /** The message as it arrives: the writer keeps 24 bits of the timestamp. */
  function Wire(m: Message): Message {
    m.(ts := m.ts % 0x100_0000)
  }

  /** The reader takes a written basic header for what it is exactly when one byte holds the csid. */
  lemma BasicHeaderReads(s: Session, fmt: nat, csid: nat, rest: seq<byte>)
    requires fmt < 4 && csid < 0x1_0000 && s.buf == BasicHeader(fmt, csid) + rest
    ensures ReadFmtCsid(s) == Ok(s.(fmt := fmt, csid := csid, buf := rest)) <==> 2 <= csid < 64
  {
    var first, r := s.buf[0], ReadFmtCsid(s);
    if csid < 64 {
      assert first / 64 == fmt && first % 64 == csid;
      assert s.buf[1..] == rest;
    } else if csid - 64 < 256 {
      assert first % 64 == 0;
      assert HeaderCsid(s.buf) == 64 + csid % 0x100;
      assert r.s.csid != csid;
    } else {
      assert first % 64 == 1;
      assert s.buf[1] == csid / 0x100 % 0x100 && s.buf[2] == csid % 0x100;
      assert r.s.csid != csid;
    }
  }

  // ----- one chunk through the reader -----

  /** Between messages. */
  predicate Idle(cs: Stream, chunkSize: nat) {
    cs.phase == Header && cs.data == [] && !cs.extTs && !cs.ready && cs.chunkSize == chunkSize
  }

  /** The first off bytes of m have arrived. */
  predicate Holding(cs: Stream, m: Message, chunkSize: nat, off: nat) {
    && 0 < off < |m.payload|
    && cs.phase == Header && !cs.extTs && !cs.ready && cs.chunkSize == chunkSize
    && cs.ts == m.ts % 0x100_0000 && cs.msgLen == |m.payload| && cs.typeId == m.typeId
    && cs.msgStreamId == m.msgStreamId && cs.csid == m.csid
    && cs.data == m.payload[..off] && cs.remain == |m.payload| - off
  }

  /** All of m has arrived and not been delivered. */
  predicate Complete(cs: Stream, m: Message, chunkSize: nat) {
    && cs.phase == Header && !cs.extTs && cs.ready && cs.chunkSize == chunkSize
    && ToMessage(cs) == Wire(m)
  }

  predicate Received(cs: Stream, m: Message, chunkSize: nat, off: nat) {
    if off < |m.payload| then Holding(cs, m, chunkSize, off) else Complete(cs, m, chunkSize)
  }

  lemma Header0Fields(m: Message, more: seq<byte>)
    requires |m.payload| < 0x100_0000 && m.msgStreamId < U32
    ensures var buf := MessageHeader(0, m) + more;
            && |buf| == 11 + |more| && Get3(buf) == m.ts % 0x100_0000
            && Get3(buf[3..]) == |m.payload| && buf[6] == m.typeId
            && Get4(buf[7..]) == m.msgStreamId && buf[11..] == more
  {
    hide Put3;
    hide Put4;
    hide Get3;
    hide Get4;
    var a, b, d := Put3(m.ts), Put3(|m.payload|), Put4(m.msgStreamId);
    var buf := MessageHeader(0, m) + more;
    assert buf == a + (b + ([m.typeId] + d + more));
    assert buf[3..] == b + ([m.typeId] + d + more);
    assert buf[7..] == d + more;
    Get3Prefix(a, b + ([m.typeId] + d + more));
    Get3Prefix(b, [m.typeId] + d + more);
    Get4Prefix(d, more);
  }

  /** The first chunk of a message: format 0. */
  lemma ReadFirst(cs: Stream, m: Message, chunkSize: nat, more: seq<byte>)
    requires Sendable(m) && chunkSize > 0 && Idle(cs, chunkSize)
    ensures var r := ReadBody(cs, 0, m.csid, MessageHeader(0, m) + Piece(m, chunkSize, 0) + more);
            r.Done? && r.rest == more && Received(r.cs, m, chunkSize, chunkSize)
  {
    var piece := Piece(m, chunkSize, 0);
    var buf := MessageHeader(0, m) + (piece + more);
    assert buf == MessageHeader(0, m) + piece + more;
    Header0Fields(m, piece + more);
    var h := ReadHeader(cs, 0, m.csid, buf);
    assert h.rest == piece + more;
    assert (piece + more)[..|piece|] == piece && (piece + more)[|piece|..] == more;
    assert [] + piece == piece;
  }

  /** A continuation chunk: format 3. */
  lemma ReadNext(cs: Stream, m: Message, chunkSize: nat, off: nat, more: seq<byte>)
    requires Sendable(m) && chunkSize > 0 && Holding(cs, m, chunkSize, off)
    ensures var r := ReadBody(cs, 3, m.csid, Piece(m, chunkSize, off) + more);
            r.Done? && r.rest == more && Received(r.cs, m, chunkSize, off + chunkSize)
  {
    hide Piece;
    hide Sendable;
    hide ReadHeader;
    hide ReadPayload;
    hide Received;
    var piece, next := Piece(m, chunkSize, off), cs.(fmt := 3, phase := Payload);
    ContinueHeader(cs, m.csid, piece + more);
    PieceIs(m, chunkSize, off);
    TakesPiece(next, piece, more);
    hide Holding;
    PieceReceived(cs, m, chunkSize, off);
  }

  lemma PieceIs(m: Message, chunkSize: nat, off: nat)
    requires off < |m.payload|
    ensures var piece := Piece(m, chunkSize, off);
            && |piece| == (if off + chunkSize < |m.payload| then chunkSize else |m.payload| - off)
            && m.payload[..off] + piece == m.payload[..off + |piece|]
  {
  }

  lemma TakesPiece(cs: Stream, piece: seq<byte>, more: seq<byte>)
    requires cs.phase == Payload && RequireLen(cs) == |piece|
    ensures ReadPayload(cs, piece + more) == Done(cs.(data := cs.data + piece, remain := cs.remain - |piece|,
                                                      ready := cs.ready || cs.remain == |piece|, phase := Header), more)
  {
    assert (piece + more)[..|piece|] == piece && (piece + more)[|piece|..] == more;
  }

  lemma PieceReceived(cs: Stream, m: Message, chunkSize: nat, off: nat)
    requires chunkSize > 0 && Holding(cs, m, chunkSize, off)
    ensures var piece := Piece(m, chunkSize, off);
            |piece| <= cs.remain &&
            Received(cs.(fmt := 3, data := cs.data + piece, remain := cs.remain - |piece|,
                         ready := cs.remain == |piece|),
                     m, chunkSize, off + chunkSize)
  {
    hide Piece;
    PieceIs(m, chunkSize, off);
    assert m.payload[..|m.payload|] == m.payload;
  }

  lemma ContinueHeader(cs: Stream, csid: nat, buf: seq<byte>)
    requires cs.phase == Header && !cs.extTs && cs.remain > 0
    ensures ReadHeader(cs, 3, csid, buf) == Done(cs.(fmt := 3, csid := csid, phase := Payload), buf)
  {
    hide Get3;
    hide Get4;
  }

  // ----- one chunk through the session -----

  /** The reader can take a new message on csid and will cut it by chunkSize. */
  predicate CanBegin(s: Session, csid: nat, chunkSize: nat) {
    if Key(csid) in s.streams then Idle(s.streams[Key(csid)], chunkSize) else s.chunkSize == chunkSize
  }

  predicate CanTake(s: Session, m: Message, chunkSize: nat, off: nat) {
    if off == 0 then CanBegin(s, m.csid, chunkSize)
    else Key(m.csid) in s.streams && Holding(s.streams[Key(m.csid)], m, chunkSize, off)
  }

  /** A one-byte basic header opens the chunk body that follows it. */
  lemma OpenHeader(s: Session, fmt: nat, csid: nat, rest: seq<byte>)
    requires Boundary(s) && fmt < 4 && 2 <= csid < 64
    ensures HeaderLen(BasicHeader(fmt, csid)[0]) == 1
    ensures ReadChunkStream(Append(s, BasicHeader(fmt, csid) + rest))
         == ReadOpen(s.(fmt := fmt, csid := csid, buf := rest, fmtReady := true))
  {
    hide ReadOpen;
    var b := fmt * 64 + csid;
    var t := Append(s, BasicHeader(fmt, csid) + rest);
    assert t.buf == [b] + rest;
    assert b / 64 == fmt && b % 64 == csid;
    assert ReadFmtCsid(t) == Ok(s.(fmt := fmt, csid := csid, buf := rest));
  }

  /** One chunk of m advances m on its own csid and touches no other chunk stream. */
  lemma ReadChunk(s: Session, m: Message, chunkSize: nat, off: nat, more: seq<byte>) returns (t: Session)
    requires Boundary(s) && Sendable(m) && chunkSize > 0 && off < |m.payload|
    requires CanTake(s, m, chunkSize, off)
    ensures Boundary(t) && t.csid == m.csid && Key(m.csid) in t.streams
    ensures t.chunkSize == s.chunkSize && t.log == s.log
    ensures t.streams == s.streams[Key(m.csid) := t.streams[Key(m.csid)]]
    ensures Received(t.streams[Key(m.csid)], m, chunkSize, off + chunkSize)
    ensures ReadChunkStream(Append(s, ChunkAt(m, chunkSize, off) + more)) == Ok(Append(t, more))
    ensures HeaderLen(ChunkAt(m, chunkSize, off)[0]) == 1
  {
    hide ReadBody;
    hide Received;
    var fmt := if off == 0 then 0 else 3;
    var piece := Piece(m, chunkSize, off);
    var body := MessageHeader(fmt, m) + piece;
    var cs := StreamOf(s.(fmt := fmt, csid := m.csid));
    if off == 0 {
      ReadFirst(cs, m, chunkSize, more);
    } else {
      assert body == piece;
      ReadNext(cs, m, chunkSize, off, more);
    }
    var r := ReadBody(cs, fmt, m.csid, body + more);
    assert ChunkAt(m, chunkSize, off) + more == BasicHeader(fmt, m.csid) + (body + more);
    OpenHeader(s, fmt, m.csid, body + more);
    t := s.(fmt := fmt, csid := m.csid, streams := s.streams[Key(m.csid) := r.cs]);
    assert t.buf + more == more;
  }

  /** The handlers take this message after this log and leave the chunk size alone. */
  predicate Accepted(h: Handler, log: seq<Message>, m: Message, chunkSize: nat) {
    Judge(h, log + [Wire(m)], chunkSize) == Accept(chunkSize)
  }

  lemma TakeChunk(h: Handler, s: Session, m: Message, chunkSize: nat, off: nat, more: seq<byte>)
    returns (t: Session)
    requires Boundary(s) && Sendable(m) && chunkSize > 0 && off < |m.payload|
    requires CanTake(s, m, chunkSize, off)
    requires off + chunkSize >= |m.payload| ==> Accepted(h, s.log, m, s.chunkSize)
    ensures Boundary(t) && t.chunkSize == s.chunkSize && Key(m.csid) in t.streams
    ensures t.streams == s.streams[Key(m.csid) := t.streams[Key(m.csid)]]
    ensures SameFuture(h, Append(s, ChunkAt(m, chunkSize, off) + more), Append(t, more))
    ensures if off + chunkSize < |m.payload|
            then t.log == s.log && CanTake(t, m, chunkSize, off + chunkSize)
            else t.log == s.log + [Wire(m)] && CanBegin(t, m.csid, chunkSize)
  {
    hide ReadChunkStream;
    hide Judge;
    hide ChunkAt;
    var u := ReadChunk(s, m, chunkSize, off, more);
    t := Deliver(h, u);
    DeliverExtends(h, u, more);
    ReceiveDelivers(h, Append(s, ChunkAt(m, chunkSize, off) + more), Append(u, more));
  }

  /** From s the loop reaches u over one-byte basic headers. */
  predicate SameFuture(h: Handler, s: Session, u: Session) {
    Receive(h, s) == Receive(h, u) && (OneByteHeaders(h, u) ==> OneByteHeaders(h, s))
  }

  lemma ReceiveDelivers(h: Handler, s: Session, u: Session)
    requires !s.closed && !s.fmtReady && s.buf != [] && HeaderLen(s.buf[0]) == 1
    requires ReadChunkStream(s) == Ok(u)
    ensures SameFuture(h, s, Deliver(h, u))
  {
    hide ReadChunkStream;
    hide Deliver;
  }

  // ----- one sender -----

  lemma {:induction false} TakeMessage(
    h: Handler, s: Session, m: Message, chunkSize: nat, off: nat, more: seq<byte>)
    returns (t: Session)
    requires Boundary(s) && Sendable(m) && chunkSize > 0 && off < |m.payload|
    requires CanTake(s, m, chunkSize, off)
    requires Accepted(h, s.log, m, s.chunkSize)
    ensures Boundary(t) && t.chunkSize == s.chunkSize && Key(m.csid) in t.streams
    ensures t.streams == s.streams[Key(m.csid) := t.streams[Key(m.csid)]]
    ensures t.log == s.log + [Wire(m)] && CanBegin(t, m.csid, chunkSize)
    ensures SameFuture(h, Append(s, Concat(ChunksFrom(m, chunkSize, off)) + more), Append(t, more))
    decreases |m.payload| - off
  {
    hide ChunkAt;
    hide Receive;
    hide OneByteHeaders;
    var first, later := ChunkAt(m, chunkSize, off), ChunksFrom(m, chunkSize, off + chunkSize);
    assert Concat([first] + later) == first + Concat(later);
    assert first + Concat(later) + more == first + (Concat(later) + more);
    t := TakeChunk(h, s, m, chunkSize, off, Concat(later) + more);
    if off + chunkSize < |m.payload| {
      t := TakeMessage(h, t, m, chunkSize, off + chunkSize, more);
    } else {
      assert Concat(later) + more == more;
    }
  }

  function WireAll(ms: seq<Message>): seq<Message> {
    seq(|ms|, i requires 0 <= i < |ms| => Wire(ms[i]))
  }

  /** Every message is sendable, finds its chunk stream free, and is accepted in turn. */
  predicate AllTaken(h: Handler, s: Session, ms: seq<Message>, chunkSize: nat) {
    && (forall m <- ms :: Sendable(m) && CanBegin(s, m.csid, chunkSize))
    && forall i | 0 <= i < |ms| :: Accepted(h, s.log + WireAll(ms[..i]), ms[i], s.chunkSize)
  }

  lemma {:induction false} TakeAll(h: Handler, s: Session, ms: seq<Message>, chunkSize: nat)
    returns (t: Session)
    requires Boundary(s) && chunkSize > 0 && AllTaken(h, s, ms, chunkSize)
    ensures t.log == s.log + WireAll(ms) && Boundary(t)
    ensures SameFuture(h, Append(s, Concat(ChunksOf(ms, chunkSize))), t) && Receive(h, t) == t
    ensures OneByteHeaders(h, t)
    decreases |ms|
  {
    hide Chunks;
    hide AllTaken;
    hide Receive;
    hide OneByteHeaders;
    if ms == [] {
      t := s;
      NothingToReceive(h, s);
      assert s.buf + [] == s.buf;
    } else {
      var m, later := ms[0], ms[1..];
      ConcatSplit(Chunks(m, chunkSize), ChunksOf(later, chunkSize));
      HeadTaken(h, s, ms, chunkSize);
      assert [Wire(m)] + WireAll(later) == WireAll(ms);
      hide WireAll;
      hide ChunksOf;
      hide Boundary;
      var rest := Concat(ChunksOf(later, chunkSize));
      var u := TakeFirst(h, s, m, chunkSize, rest);
      TailTaken(h, s, u, ms, chunkSize);
      t := TakeAll(h, u, later, chunkSize);
    }
  }

  lemma HeadTaken(h: Handler, s: Session, ms: seq<Message>, chunkSize: nat)
    requires ms != [] && AllTaken(h, s, ms, chunkSize)
    ensures Sendable(ms[0]) && CanBegin(s, ms[0].csid, chunkSize) && Accepted(h, s.log, ms[0], s.chunkSize)
  {
    assert Accepted(h, s.log + WireAll(ms[..0]), ms[0], s.chunkSize);
    assert s.log + WireAll(ms[..0]) == s.log;
  }

  lemma TailTaken(h: Handler, s: Session, u: Session, ms: seq<Message>, chunkSize: nat)
    requires ms != [] && AllTaken(h, s, ms, chunkSize)
    requires u.chunkSize == s.chunkSize && u.log == s.log + [Wire(ms[0])]
    requires forall c :: CanBegin(s, c, chunkSize) ==> CanBegin(u, c, chunkSize)
    ensures AllTaken(h, u, ms[1..], chunkSize)
  {
    hide Judge;
    hide Sendable;
    hide CanBegin;
    var later := ms[1..];
    forall i | 0 <= i < |later|
      ensures Accepted(h, u.log + WireAll(later[..i]), later[i], u.chunkSize)
    {
      assert Accepted(h, s.log + WireAll(ms[..i + 1]), ms[i + 1], s.chunkSize);
      assert u.log + WireAll(later[..i]) == s.log + WireAll(ms[..i + 1]);
    }
  }

  lemma TakeFirst(h: Handler, s: Session, m: Message, chunkSize: nat, more: seq<byte>)
    returns (t: Session)
    requires Boundary(s) && Sendable(m) && chunkSize > 0 && CanBegin(s, m.csid, chunkSize)
    requires Accepted(h, s.log, m, s.chunkSize)
    ensures Boundary(t) && t.chunkSize == s.chunkSize && t.log == s.log + [Wire(m)]
    ensures forall c :: CanBegin(s, c, chunkSize) ==> CanBegin(t, c, chunkSize)
    ensures SameFuture(h, Append(s, Concat(Chunks(m, chunkSize)) + more), Append(t, more))
  {
    hide Idle;
    t := TakeMessage(h, s, m, chunkSize, 0, more);
  }

  lemma {:induction false} ConcatSplit(p: seq<seq<byte>>, q: seq<seq<byte>>)
    ensures Concat(p + q) == Concat(p) + Concat(q)
  {
    if p == [] {
      assert p + q == q;
    } else {
      assert (p + q)[1..] == p[1..] + q;
      ConcatSplit(p[1..], q);
      assert p[0] + (Concat(p[1..]) + Concat(q)) == Concat(p) + Concat(q);
    }
  }

  /**
   * However the bytes of these messages are cut into pieces, the reader delivers the
   * messages as sent, in order, up to the upper byte of the timestamp.
   */
  lemma RoundTrip(h: Handler, s: Session, ms: seq<Message>, chunkSize: nat, pieces: seq<seq<byte>>)
    requires Boundary(s) && chunkSize > 0 && AllTaken(h, s, ms, chunkSize)
    requires NonEmpty(pieces) && Concat(pieces) == Concat(ChunksOf(ms, chunkSize))
    ensures FeedAll(h, s, pieces).log == s.log + WireAll(ms)
    ensures Boundary(FeedAll(h, s, pieces))
  {
    hide AllTaken;
    hide OneByteHeaders;
    hide Receive;
    hide ChunksOf;
    var t := TakeAll(h, s, ms, chunkSize);
    SomethingCarried(pieces);
    if pieces == [] {
      NothingToReceive(h, s);
      assert Append(s, []) == s;
    } else {
      PiecesAsOne(h, s, pieces);
    }
  }

  /** The messages come back unchanged if and only if their timestamps fit the 24-bit field. */
  lemma RoundTripExact(h: Handler, s: Session, ms: seq<Message>, chunkSize: nat, pieces: seq<seq<byte>>)
    requires Boundary(s) && chunkSize > 0 && AllTaken(h, s, ms, chunkSize)
    requires NonEmpty(pieces) && Concat(pieces) == Concat(ChunksOf(ms, chunkSize))
    ensures FeedAll(h, s, pieces).log == s.log + ms <==> forall m <- ms :: m.ts < EXT_TS_MARK
  {
    hide FeedAll;
    hide Judge;
    RoundTrip(h, s, ms, chunkSize, pieces);
    SameTail(s.log, WireAll(ms), ms);
    WireIsIdentity(ms);
  }

  lemma SameTail<T>(a: seq<T>, b: seq<T>, c: seq<T>)
    ensures a + b == a + c <==> b == c
  {
    assert (a + b)[|a|..] == b && (a + c)[|a|..] == c;
  }

  lemma WireIsIdentity(ms: seq<Message>)
    requires forall m <- ms :: Sendable(m)
    ensures WireAll(ms) == ms <==> forall m <- ms :: m.ts < EXT_TS_MARK
  {
    if forall m <- ms :: m.ts < EXT_TS_MARK {
      assert forall i | 0 <= i < |ms| :: Wire(ms[i]) == ms[i];
    } else {
      var i :| 0 <= i < |ms| && ms[i].ts >= EXT_TS_MARK;
      assert Sendable(ms[i]);
      assert WireAll(ms)[i] != ms[i];
    }
  }

  // ----- the timestamp escape -----

  /** A message the reader would take an extended timestamp for, sent in one chunk. */
  predicate Escaped(m: Message, chunkSize: nat) {
    Sendable(m.(ts := 0)) && m.ts % 0x100_0000 == EXT_TS_MARK && |m.payload| <= chunkSize
  }

  /**
   * With the low 24 timestamp bits all set the reader takes the first four payload bytes for
   * an extended timestamp, which the writer never sends: a one-chunk message is not delivered
   * by its own bytes.
   */
  lemma MarkerStalls(h: Handler, s: Session, m: Message, chunkSize: nat)
    requires Boundary(s) && CanBegin(s, m.csid, chunkSize) && Escaped(m, chunkSize)
    ensures Feed(h, s, Concat(Chunks(m, chunkSize))).log == s.log
  {
    hide BasicHeader;
    var cs := StreamOf(s.(fmt := 0, csid := m.csid));
    var body := MessageHeader(0, m) + m.payload;
    OneChunk(m, chunkSize);
    MarkerBodyWaits(cs, m, chunkSize);
    OpenHeader(s, 0, m.csid, body);
    assert ReadChunkStream(Append(s, BasicHeader(0, m.csid) + body)).Wait?;
  }

  lemma OneChunk(m: Message, chunkSize: nat)
    requires 0 < |m.payload| <= chunkSize
    ensures Concat(Chunks(m, chunkSize)) == BasicHeader(0, m.csid) + (MessageHeader(0, m) + m.payload)
  {
    hide BasicHeader;
    hide MessageHeader;
    var body := MessageHeader(0, m) + m.payload;
    assert ChunkAt(m, chunkSize, 0) == BasicHeader(0, m.csid) + body;
    assert ChunksFrom(m, chunkSize, 0 + chunkSize) == [];
    assert Chunks(m, chunkSize) == [ChunkAt(m, chunkSize, 0)];
    assert Concat([]) == [] && Concat([ChunkAt(m, chunkSize, 0)]) == ChunkAt(m, chunkSize, 0) + Concat([]);
  }

  lemma MarkerBodyWaits(cs: Stream, m: Message, chunkSize: nat)
    requires Idle(cs, chunkSize) && Escaped(m, chunkSize)
    ensures ReadBody(cs, 0, m.csid, MessageHeader(0, m) + m.payload).More?
  {
    Header0Fields(m, m.payload);
  }

  /** What the reader makes of such a message and the next four bytes: all of it four bytes off. */
  function Garbled(m: Message, next: seq<byte>): Message
    requires |next| == 4
  {
    var all := m.payload + next;
    m.(ts := Get4(all[..4]), payload := all[4..])
  }

  lemma MarkerBody(cs: Stream, m: Message, chunkSize: nat, next: seq<byte>)
    requires Idle(cs, chunkSize) && Escaped(m, chunkSize) && |next| == 4
    ensures var r := ReadBody(cs, 0, m.csid, MessageHeader(0, m) + (m.payload + next));
            r.Done? && r.rest == [] && r.cs.ready && ToMessage(r.cs) == Garbled(m, next)
  {
    hide Get3;
    hide Get4;
    var all := m.payload + next;
    var buf := MessageHeader(0, m) + all;
    Header0Fields(m, all);
    assert buf[15..] == buf[11..][4..] == all[4..];
    Get4Prefix(all[..4], all[4..]);
    assert all[..4] + all[4..] == all;
    assert ReadHeader(cs, 0, m.csid, buf).rest == all[4..];
    assert [] + all[4..] == all[4..] && all[4..][..|m.payload|] == all[4..] && all[4..][|m.payload|..] == [];
  }

  lemma EscapedBounds(s: Session, m: Message, chunkSize: nat)
    requires CanBegin(s, m.csid, chunkSize) && Escaped(m, chunkSize)
    ensures 2 <= m.csid < 64 && 0 < |m.payload| <= chunkSize
    ensures Idle(StreamOf(s.(fmt := 0, csid := m.csid)), chunkSize)
  {
  }

  /** A body that is read to the end, behind the one-byte header of its chunk. */
  lemma OpenedBody(s: Session, csid: nat, body: seq<byte>) returns (u: Session)
    requires Boundary(s) && 2 <= csid < 64
    requires var r := ReadBody(StreamOf(s.(fmt := 0, csid := csid)), 0, csid, body); r.Done? && r.rest == []
    ensures ReadChunkStream(Append(s, BasicHeader(0, csid) + body)) == Ok(u)
    ensures Boundary(u) && u.log == s.log && u.csid == csid && Key(csid) in u.streams
    ensures u.streams[Key(csid)] == ReadBody(StreamOf(s.(fmt := 0, csid := csid)), 0, csid, body).cs
  {
    hide BasicHeader;
    hide ReadBody;
    OpenHeader(s, 0, csid, body);
    hide ReadChunkStream;
    var r := ReadBody(StreamOf(s.(fmt := 0, csid := csid)), 0, csid, body);
    u := s.(fmt := 0, csid := csid, buf := [], streams := s.streams[Key(csid) := r.cs]);
  }

  lemma GarbledChunk(s: Session, m: Message, chunkSize: nat, next: seq<byte>) returns (u: Session)
    requires Boundary(s) && CanBegin(s, m.csid, chunkSize) && Escaped(m, chunkSize) && |next| == 4
    ensures chunkSize > 0
    ensures ReadChunkStream(Append(s, Concat(Chunks(m, chunkSize)) + next)) == Ok(u)
    ensures Boundary(u) && u.log == s.log && Key(u.csid) in u.streams
    ensures u.streams[Key(u.csid)].ready && ToMessage(u.streams[Key(u.csid)]) == Garbled(m, next)
  {
    hide BasicHeader;
    hide MessageHeader;
    hide Garbled;
    hide ToMessage;
    hide ReadChunkStream;
    hide ReadBody;
    hide StreamOf;
    hide Boundary;
    hide Idle;
    hide CanBegin;
    hide Escaped;
    EscapedBounds(s, m, chunkSize);
    OneChunk(m, chunkSize);
    hide Chunks;
    var cs := StreamOf(s.(fmt := 0, csid := m.csid));
    var body := MessageHeader(0, m) + (m.payload + next);
    MarkerBody(cs, m, chunkSize, next);
    u := OpenedBody(s, m.csid, body);
    assert Concat(Chunks(m, chunkSize)) + next == BasicHeader(0, m.csid) + body;
  }

  /**
   * Whatever four bytes come next complete it: a message is delivered whose timestamp is the
   * first four bytes of the payload and whose payload lacks them and ends in the bytes behind.
   */
  lemma MarkerGarbles(h: Handler, s: Session, m: Message, chunkSize: nat, next: seq<byte>)
    requires Boundary(s) && CanBegin(s, m.csid, chunkSize) && Escaped(m, chunkSize) && |next| == 4
    ensures Feed(h, s, Concat(Chunks(m, chunkSize)) + next).log == s.log + [Garbled(m, next)]
  {
    hide Chunks;
    hide Garbled;
    hide ToMessage;
    hide Judge;
    hide ReadChunkStream;
    hide Receive;
    hide Escaped;
    var u := GarbledChunk(s, m, chunkSize, next);
    var d := Deliver(h, u);
    assert d.log == s.log + [Garbled(m, next)];
    ReceiveUnfolds(h, Append(s, Concat(Chunks(m, chunkSize)) + next));
    if !d.closed {
      NothingToReceive(h, d);
    }
  }
}
