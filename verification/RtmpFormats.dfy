/**
 * Senders that compress their headers (section 5.3.1.2 of the Adobe RTMP specification): what
 * the reader makes of each header format, given in bytes, and the round trip of every sender
 * that picks a format its message can be expressed in, with absolute 32-bit timestamps, extended
 * timestamps and chunk-size changes.
 */
module RtmpFormats {
  import opened Bytes
  import opened RtmpReader
  import opened RtmpSegmentation
  import opened RtmpWriter

  // ----- one header -----

  /** A 24-bit timestamp field; all ones announce four bytes more. */
  predicate Extends(field: seq<byte>, ext: seq<byte>) {
    |field| == 3 && |ext| == if Get3(field) == 0xff_ffff then 4 else 0
  }

  /** The number they stand for. */
  function Stated(field: seq<byte>, ext: seq<byte>): (r: nat)
    requires Extends(field, ext)
    ensures r < 0x1_0000_0000
  {
    if Get3(field) == 0xff_ffff then Get4(ext) else Get3(field)
  }

  lemma FieldReads(field: seq<byte>, middle: seq<byte>, ext: seq<byte>, rest: seq<byte>, n: nat)
    requires Extends(field, ext) && n == 3 + |middle|
    ensures var buf := field + middle + ext + rest;
            && |buf| >= n && !Short(buf, n) && Get3(buf) == Get3(field)
            && Timestamp(buf, n) == Stated(field, ext) && AfterTimestamp(buf, n) == rest
            && buf[3..] == middle + ext + rest
  {
    hide Get3;
    hide Get4;
    var buf := field + middle + ext + rest;
    assert buf == field + (middle + ext + rest);
    Get3Prefix(field, middle + ext + rest);
    assert buf[n..] == ext + rest;
    if |ext| == 4 {
      Get4Prefix(ext, rest);
      assert buf[n + 4..] == rest;
    } else {
      assert ext == [];
    }
  }

  /** Format 0: everything is in the header. */
  lemma Format0Header(
    cs: Stream, csid: nat, field: seq<byte>, len: seq<byte>, t: byte, id: seq<byte>, ext: seq<byte>, rest: seq<byte>)
    requires cs.phase == Header && Extends(field, ext) && |len| == 3 && |id| == 4
    ensures ReadHeader(cs, 0, csid, field + (len + [t] + id) + ext + rest)
         == Done(cs.(ts := Stated(field, ext), delta := 0, msgLen := Get3(len), typeId := t, msgStreamId := Get4(id),
                     remain := Get3(len), extTs := cs.extTs || Get3(field) == 0xff_ffff, fmt := 0, csid := csid,
                     phase := Payload), rest)
  {
    hide Get3;
    hide Get4;
    hide Timestamp;
    hide AfterTimestamp;
    hide Short;
    hide Stated;
    var buf := field + (len + [t] + id) + ext + rest;
    FieldReads(field, len + [t] + id, ext, rest, 11);
    assert buf[3..] == len + ([t] + id + ext + rest);
    Get3Prefix(len, [t] + id + ext + rest);
    assert buf[6] == buf[3..][3] == t;
    assert buf[7..] == buf[3..][4..] == id + (ext + rest);
    Get4Prefix(id, ext + rest);
  }

  /** Format 1: the timestamp is the last one plus a difference; the message stream stays. */
  lemma Format1Header(
    cs: Stream, csid: nat, field: seq<byte>, len: seq<byte>, t: byte, ext: seq<byte>, rest: seq<byte>)
    requires cs.phase == Header && Extends(field, ext) && |len| == 3
    ensures ReadHeader(cs, 1, csid, field + (len + [t]) + ext + rest)
         == Done(cs.(ts := (cs.ts + Stated(field, ext)) % 0x1_0000_0000, delta := Stated(field, ext),
                     msgLen := Get3(len), typeId := t, remain := Get3(len),
                     extTs := cs.extTs || Get3(field) == 0xff_ffff, fmt := 1, csid := csid, phase := Payload), rest)
  {
    hide Get3;
    hide Timestamp;
    hide AfterTimestamp;
    hide Short;
    hide Stated;
    var buf := field + (len + [t]) + ext + rest;
    FieldReads(field, len + [t], ext, rest, 7);
    assert buf[3..] == len + ([t] + ext + rest);
    Get3Prefix(len, [t] + ext + rest);
    assert buf[6] == buf[3..][3] == t;
  }

  /** Format 2: length and type stay as well. */
  lemma Format2Header(cs: Stream, csid: nat, field: seq<byte>, ext: seq<byte>, rest: seq<byte>)
    requires cs.phase == Header && Extends(field, ext)
    ensures ReadHeader(cs, 2, csid, field + ext + rest)
         == Done(cs.(ts := (cs.ts + Stated(field, ext)) % 0x1_0000_0000, delta := Stated(field, ext),
                     remain := cs.msgLen, extTs := cs.extTs || Get3(field) == 0xff_ffff, fmt := 2, csid := csid,
                     phase := Payload), rest)
  {
    hide Get3;
    hide Timestamp;
    hide AfterTimestamp;
    hide Short;
    hide Stated;
    FieldReads(field, [], ext, rest, 3);
    assert field + [] + ext + rest == field + ext + rest;
  }

  /** What a format 3 header adds to the timestamp when it starts a message and brings no bytes. */
  function Repeated(fmt: nat, delta: nat): nat {
    if fmt == 1 || fmt == 2 then delta else 0
  }

  /**
   * Format 3 with nothing remaining: the last header again. The delta is added again only right
   * behind a chunk of format 1 or 2.
   */
  lemma Format3Header(cs: Stream, csid: nat, rest: seq<byte>)
    requires cs.phase == Header && cs.remain == 0 && cs.ts < 0x1_0000_0000 && (!cs.extTs || cs.fmt >= 3)
    ensures ReadHeader(cs, 3, csid, rest)
         == Done(cs.(data := [], remain := cs.msgLen, ready := false, fmt := 3, csid := csid, phase := Payload,
                     ts := (cs.ts + Repeated(cs.fmt, cs.delta)) % 0x1_0000_0000), rest)
  {
    SmallTime(cs.ts);
    RepeatsQuietly(cs, rest);
    hide RepeatTimestamp;
  }

  /**
   * Once an extended timestamp has been seen, format 0 is repeated with a new absolute timestamp
   * and formats 1 and 2 with a new delta, in the next four bytes.
   */
  lemma Format3Brings(cs: Stream, csid: nat, word: seq<byte>, rest: seq<byte>)
    requires cs.phase == Header && cs.remain == 0 && cs.extTs && cs.fmt < 3 && |word| == 4
    ensures ReadHeader(cs, 3, csid, word + rest)
         == Done(cs.(data := [], remain := cs.msgLen, ready := false, fmt := 3, csid := csid, phase := Payload,
                     ts := if cs.fmt == 0 then Get4(word) else (cs.ts + Get4(word)) % 0x1_0000_0000), rest)
  {
    RepeatsWith(cs, word, rest);
    hide Get4;
    hide RepeatTimestamp;
  }

  lemma SmallTime(ts: nat)
    requires ts < 0x1_0000_0000
    ensures (ts + 0) % 0x1_0000_0000 == ts
  {
  }

  lemma RepeatsQuietly(cs: Stream, rest: seq<byte>)
    requires !cs.extTs || cs.fmt >= 3
    ensures RepeatTimestamp(cs, rest)
         == if cs.fmt == 1 || cs.fmt == 2 then Done(cs.(ts := (cs.ts + cs.delta) % 0x1_0000_0000), rest)
            else Done(cs, rest)
  {
    hide Get4;
  }

  lemma RepeatsWith(cs: Stream, word: seq<byte>, rest: seq<byte>)
    requires |word| == 4 && cs.extTs && cs.fmt < 3
    ensures RepeatTimestamp(cs, word + rest)
         == Done(cs.(ts := if cs.fmt == 0 then Get4(word) else (cs.ts + Get4(word)) % 0x1_0000_0000), rest)
  {
    Get4Prefix(word, rest);
    hide Get4;
    assert (word + rest)[4..] == rest;
  }

  /**
   * Format 3 within a message. Once an extended timestamp has been seen, four bytes that are the
   * message's timestamp are dropped; any other four are left for the payload.
   */
  lemma Format3Continues(cs: Stream, csid: nat, word: seq<byte>, rest: seq<byte>)
    requires cs.phase == Header && cs.remain > 0 && |word| == 4
    ensures var next := cs.(fmt := 3, csid := csid, phase := Payload);
            if cs.extTs
            then ReadHeader(cs, 3, csid, word + rest) == Done(next, if Get4(word) == cs.ts then rest else word + rest)
            else ReadHeader(cs, 3, csid, rest) == Done(next, rest)
  {
    Get4Prefix(word, rest);
    hide Get4;
    assert (word + rest)[4..] == rest;
  }

  /**
   * The headers gen_data writes: format 0 gives the timestamp, but formats 1 and 2 give it where
   * the reader takes a difference.
   */
  lemma WriterHeaderReads(cs: Stream, fmt: nat, m: Message, rest: seq<byte>) returns (next: Stream)
    requires cs.phase == Header && fmt < 3 && m.ts < 0xff_ffff
    requires |m.payload| < 0x100_0000 && m.msgStreamId < 0x1_0000_0000
    ensures ReadHeader(cs, fmt, m.csid, MessageHeader(fmt, m) + rest) == Done(next, rest)
    ensures next.ts == if fmt == 0 then m.ts else (cs.ts + m.ts) % 0x1_0000_0000
    ensures next.msgLen == (if fmt < 2 then |m.payload| else cs.msgLen) == next.remain
    ensures next.typeId == if fmt < 2 then m.typeId else cs.typeId
    ensures next.msgStreamId == if fmt == 0 then m.msgStreamId else cs.msgStreamId
  {
    hide ReadHeader;
    hide Put3;
    hide Put4;
    hide Get3;
    hide Get4;
    hide Extends;
    hide Stated;
    hide MessageHeader;
    var field, len, id := Put3(m.ts), Put3(|m.payload|), Put4(m.msgStreamId);
    PlainField(m.ts);
    Unextended(fmt, m);
    if fmt == 0 {
      NoExtension(field, len + [m.typeId] + id, rest);
      Format0Header(cs, m.csid, field, len, m.typeId, id, [], rest);
    } else if fmt == 1 {
      NoExtension(field, len + [m.typeId], rest);
      Format1Header(cs, m.csid, field, len, m.typeId, [], rest);
    } else {
      NoExtension(field, [], rest);
      Format2Header(cs, m.csid, field, [], rest);
    }
    next := ReadHeader(cs, fmt, m.csid, MessageHeader(fmt, m) + rest).cs;
  }

  lemma NoExtension(field: seq<byte>, middle: seq<byte>, rest: seq<byte>)
    ensures field + middle + [] + rest == field + middle + rest
    ensures field + [] + rest == field + rest
  {
  }

  lemma Unextended(fmt: nat, m: Message)
    ensures fmt == 0 ==> MessageHeader(fmt, m) == Put3(m.ts) + (Put3(|m.payload|) + [m.typeId] + Put4(m.msgStreamId))
    ensures fmt == 1 ==> MessageHeader(fmt, m) == Put3(m.ts) + (Put3(|m.payload|) + [m.typeId])
    ensures fmt == 2 ==> MessageHeader(fmt, m) == Put3(m.ts)
  {
    hide Put3;
    hide Put4;
  }

  lemma PlainField(x: nat)
    requires x < 0xff_ffff
    ensures Extends(Put3(x), []) && Stated(Put3(x), []) == x
  {
    hide Put3;
    hide Get3;
    hide Get4;
  }

  // ----- a sender -----

  /** How a number is stated. */
  function Field(x: nat): (r: seq<byte>)
    ensures |r| == 3
  {
    Put3(if x >= 0xff_ffff then 0xff_ffff else x)
  }

  function Extension(x: nat): (r: seq<byte>)
    ensures |r| == if x >= 0xff_ffff then 4 else 0
  {
    if x >= 0xff_ffff then Put4(x) else []
  }

  lemma FieldStates(x: nat)
    requires x < 0x1_0000_0000
    ensures Extends(Field(x), Extension(x)) && Stated(Field(x), Extension(x)) == x
    ensures Get3(Field(x)) == 0xff_ffff <==> x >= 0xff_ffff
  {
    hide Get3;
    hide Get4;
    hide Put3;
    hide Put4;
  }

  /** What a sender remembers of a chunk stream: its last message, last chunk format and chunk size. */
  datatype Last = Last(
    ts: nat, len: nat, typeId: byte, msgStreamId: nat, fmt: nat, delta: nat, ext: bool, size: nat)

  /** The chunk size for new chunk streams, and the chunk streams in use. */
  datatype Sender = Sender(size: nat, lasts: map<nat, Last>)

  function LastOn(w: Sender, csid: nat): Last {
    if csid in w.lasts then w.lasts[csid] else Last(0, 0, 0, 0, 0, 0, false, w.size)
  }

  predicate Fits(m: Message) {
    2 <= m.csid < 64 && |m.payload| < 0x100_0000 && m.ts < 0x1_0000_0000 && m.msgStreamId < 0x1_0000_0000
  }

  /** The time since the last message, modulo 2^32. */
  function Since(l: Last, m: Message): (d: nat)
    ensures d < 0x1_0000_0000
  {
    (m.ts as int - l.ts as int) % 0x1_0000_0000
  }

  /** Format 3 brings a timestamp of its own, where the last header had an extended one. */
  predicate BringsTime(l: Last) {
    l.ext && l.fmt < 3
  }

  /** The header of this format says what the message needs. */
  predicate Expressible(l: Last, fmt: nat, m: Message) {
    && fmt < 4
    && (fmt >= 1 ==> m.msgStreamId == l.msgStreamId)
    && (fmt >= 2 ==> |m.payload| == l.len && m.typeId == l.typeId)
    && (fmt == 3 && !BringsTime(l) ==> m.ts == (l.ts + Repeated(l.fmt, l.delta)) % 0x1_0000_0000)
  }

  function FirstHeader(l: Last, fmt: nat, m: Message): seq<byte> {
    var d := Since(l, m);
    if fmt == 0 then Field(m.ts) + (Put3(|m.payload|) + [m.typeId] + Put4(m.msgStreamId)) + Extension(m.ts)
    else if fmt == 1 then Field(d) + (Put3(|m.payload|) + [m.typeId]) + Extension(d)
    else if fmt == 2 then Field(d) + Extension(d)
    else if !BringsTime(l) then []
    else if l.fmt == 0 then Put4(m.ts)
    else Put4(d)
  }

  /** What the sender remembers behind the first header of m. */
  function Begun(l: Last, fmt: nat, m: Message): Last {
    var d := Since(l, m);
    l.(ts := m.ts, len := |m.payload|, typeId := m.typeId, msgStreamId := m.msgStreamId, fmt := fmt,
       delta := if fmt == 0 then 0 else if fmt == 3 then l.delta else d,
       ext := l.ext || (fmt == 0 && m.ts >= 0xff_ffff) || ((fmt == 1 || fmt == 2) && d >= 0xff_ffff))
  }

  /** Once there has been an extended timestamp, every later chunk of a message repeats its timestamp. */
  function NextHeader(l: Last, m: Message): seq<byte> {
    if l.ext then Put4(m.ts) else []
  }

  function End(m: Message, size: nat, off: nat): (e: nat)
    requires off <= |m.payload|
    ensures off <= e <= |m.payload|
  {
    if off + size < |m.payload| then off + size else |m.payload|
  }

  function Part(m: Message, size: nat, off: nat): seq<byte>
    requires off <= |m.payload|
  {
    m.payload[off..End(m, size, off)]
  }

  /** The chunks of m from offset off on, behind its first one. */
  function LaterChunks(l: Last, m: Message, off: nat): seq<byte>
    requires l.size > 0 && off <= |m.payload|
    decreases |m.payload| - off
  {
    if off == |m.payload| then []
    else
      BasicHeader(3, m.csid) + (NextHeader(l, m) + Part(m, l.size, off)) + LaterChunks(l, m, End(m, l.size, off))
  }

  function MessageBytes(l: Last, fmt: nat, m: Message): seq<byte>
    requires l.size > 0 && fmt < 4
  {
    BasicHeader(fmt, m.csid) + (FirstHeader(l, fmt, m) + Part(m, l.size, 0))
    + LaterChunks(Begun(l, fmt, m), m, End(m, l.size, 0))
  }

  /** And behind all its chunks. */
  function Sent(l: Last, fmt: nat, m: Message): Last {
    if |m.payload| > l.size then Begun(l, fmt, m).(fmt := 3) else Begun(l, fmt, m)
  }

  /** A Set Chunk Size message holds for the chunk streams that are opened behind it. */
  function SizeAfter(size: nat, m: Message): nat {
    if m.typeId == 1 && |m.payload| >= 4 then Get4(m.payload) else size
  }

  /** After Set Chunk Size, a chunk stream seen for the first time is cut by its four-byte number. */
  lemma SetChunkSizeTakesEffect(h: Handler, s: Session, n: nat, fmt: nat, csid: nat)
    requires !s.closed && n < 0x1_0000_0000
    requires Key(s.csid) in s.streams && s.streams[Key(s.csid)].ready
    requires s.streams[Key(s.csid)].typeId == 1 && s.streams[Key(s.csid)].data == Put4(n)
    requires Key(csid) !in s.streams
    ensures var t := Deliver(h, s);
            && t.chunkSize == n && RequireLen(StreamOf(t.(fmt := fmt, csid := csid)).(remain := n + 1)) == n
            && forall k <- s.streams :: k in t.streams && t.streams[k].chunkSize == s.streams[k].chunkSize
  {
    hide Put4;
    hide Get4;
  }

  /** The other protocol messages change nothing here; a window size that is cut short is refused. */
  lemma OtherControlMessages(h: Handler, log: seq<Message>, m: Message, size: nat)
    ensures m.typeId == 1 && |m.payload| < 4 ==> Judge(h, log + [m], size) == Refuse
    ensures m.typeId in {2, 3, 4, 6} ==> Judge(h, log + [m], size) == Accept(size)
    ensures m.typeId == 5 ==> Judge(h, log + [m], size) == if |m.payload| < 4 then Refuse else Accept(size)
    ensures m.typeId == 17 ==> Judge(h, log + [m], size) == Refuse
    ensures m.typeId == 20 ==> Judge(h, log + [m], size) == h(log + [m])
    ensures m.typeId in {8, 9, 15, 18} ==>
      Judge(h, log + [m], size) == if h(log + [m]).Refuse? then Refuse else Accept(size)
  {
    hide Get4;
  }

  datatype Out = Out(fmt: nat, m: Message)

  function Advance(w: Sender, o: Out): Sender {
    Sender(SizeAfter(w.size, o.m), w.lasts[o.m.csid := Sent(LastOn(w, o.m.csid), o.fmt, o.m)])
  }

  /** The handlers take the message; Set Chunk Size is taken without asking them. */
  predicate Welcome(h: Handler, log: seq<Message>, m: Message, size: nat) {
    if m.typeId == 1 then |m.payload| >= 4 else Judge(h, log + [m], size) == Accept(size)
  }

  predicate CanSend(h: Handler, log: seq<Message>, w: Sender, o: Out) {
    && Fits(o.m) && (o.m.csid !in w.lasts ==> o.fmt == 0)
    && Expressible(LastOn(w, o.m.csid), o.fmt, o.m) && LastOn(w, o.m.csid).size > 0
    && Welcome(h, log, o.m, w.size)
  }

  predicate CanSendAll(h: Handler, log: seq<Message>, w: Sender, outs: seq<Out>)
    decreases |outs|
  {
    outs == []
    || (CanSend(h, log, w, outs[0]) && CanSendAll(h, log + [outs[0].m], Advance(w, outs[0]), outs[1..]))
  }

  function BytesOf(h: Handler, log: seq<Message>, w: Sender, outs: seq<Out>): seq<byte>
    requires CanSendAll(h, log, w, outs)
    decreases |outs|
  {
    if outs == [] then []
    else
      MessageBytes(LastOn(w, outs[0].m.csid), outs[0].fmt, outs[0].m)
      + BytesOf(h, log + [outs[0].m], Advance(w, outs[0]), outs[1..])
  }

  // ----- one message through the chunk stream -----

  /** Between messages the reader knows what the sender remembers. */
  predicate Between(cs: Stream, l: Last) {
    && cs.phase == Header && cs.data == [] && !cs.ready && cs.remain == 0 && cs.chunkSize == l.size
    && cs.ts == l.ts && cs.msgLen == l.len && cs.typeId == l.typeId && cs.msgStreamId == l.msgStreamId
    && cs.fmt == l.fmt && cs.delta == l.delta && cs.extTs == l.ext && l.ts < 0x1_0000_0000
  }

  /** Within a message it has also got the first off bytes. */
  predicate Within(cs: Stream, l: Last, m: Message, off: nat) {
    && off <= |m.payload|
    && cs.phase == Header && cs.data == m.payload[..off] && cs.remain == |m.payload| - off
    && cs.ready == (off == |m.payload|) && cs.chunkSize == l.size
    && cs.ts == l.ts == m.ts && cs.msgLen == l.len == |m.payload| && cs.typeId == l.typeId == m.typeId
    && cs.msgStreamId == l.msgStreamId == m.msgStreamId && cs.csid == m.csid
    && cs.fmt == l.fmt && cs.delta == l.delta && cs.extTs == l.ext
  }

  lemma SinceAdds(l: Last, m: Message)
    requires l.ts < 0x1_0000_0000 && m.ts < 0x1_0000_0000
    ensures (l.ts + Since(l, m)) % 0x1_0000_0000 == m.ts
  {
  }

  /** The stream behind the first header. */
  function Opened(cs: Stream, l: Last, m: Message): Stream {
    cs.(ts := m.ts, delta := l.delta, msgLen := |m.payload|, typeId := m.typeId, msgStreamId := m.msgStreamId,
        remain := |m.payload|, extTs := l.ext, fmt := l.fmt, csid := m.csid, phase := Payload)
  }

  lemma FirstHeaderReads(cs: Stream, l: Last, fmt: nat, m: Message, rest: seq<byte>)
    requires Between(cs, l) && Fits(m) && Expressible(l, fmt, m)
    ensures ReadHeader(cs, fmt, m.csid, FirstHeader(l, fmt, m) + rest) == Done(Opened(cs, Begun(l, fmt, m), m), rest)
  {
    hide ReadHeader;
    hide FirstHeader;
    hide Begun;
    hide Opened;
    hide Fits;
    hide Between;
    if fmt == 0 {
      First0(cs, l, m, rest);
    } else if fmt == 3 {
      First3(cs, l, m, rest);
    } else {
      First12(cs, l, fmt, m, rest);
    }
  }

  lemma Opened0(cs: Stream, l: Last, m: Message)
    requires Between(cs, l)
    ensures Opened(cs, Begun(l, 0, m), m)
         == cs.(ts := m.ts, delta := 0, msgLen := |m.payload|, typeId := m.typeId, msgStreamId := m.msgStreamId,
                remain := |m.payload|, extTs := cs.extTs || m.ts >= 0xff_ffff, fmt := 0, csid := m.csid,
                phase := Payload)
  {
  }

  lemma First0(cs: Stream, l: Last, m: Message, rest: seq<byte>)
    requires Between(cs, l) && Fits(m)
    ensures ReadHeader(cs, 0, m.csid, FirstHeader(l, 0, m) + rest) == Done(Opened(cs, Begun(l, 0, m), m), rest)
  {
    hide ReadHeader;
    hide Get3;
    hide Get4;
    hide Put3;
    hide Put4;
    hide Field;
    hide Extension;
    hide Extends;
    hide Stated;
    hide Opened;
    hide Begun;
    Opened0(cs, l, m);
    FieldStates(m.ts);
    var field, ext, len, id := Field(m.ts), Extension(m.ts), Put3(|m.payload|), Put4(m.msgStreamId);
    Format0Header(cs, m.csid, field, len, m.typeId, id, ext, rest);
  }

  lemma First12(cs: Stream, l: Last, fmt: nat, m: Message, rest: seq<byte>)
    requires Between(cs, l) && Fits(m) && Expressible(l, fmt, m) && 1 <= fmt <= 2
    ensures ReadHeader(cs, fmt, m.csid, FirstHeader(l, fmt, m) + rest) == Done(Opened(cs, Begun(l, fmt, m), m), rest)
  {
    hide ReadHeader;
    hide Since;
    hide Get3;
    hide Put3;
    hide Field;
    hide Extension;
    hide Extends;
    hide Stated;
    var d, len := Since(l, m), Put3(|m.payload|);
    SinceAdds(l, m);
    FieldStates(d);
    if fmt == 1 {
      Format1Header(cs, m.csid, Field(d), len, m.typeId, Extension(d), rest);
    } else {
      Format2Header(cs, m.csid, Field(d), Extension(d), rest);
    }
  }

  lemma Opened3(cs: Stream, l: Last, m: Message)
    requires Between(cs, l) && Expressible(l, 3, m)
    ensures Opened(cs, Begun(l, 3, m), m)
         == cs.(data := [], remain := cs.msgLen, ready := false, fmt := 3, csid := m.csid, phase := Payload, ts := m.ts)
  {
    hide Repeated;
    hide Since;
  }

  lemma First3(cs: Stream, l: Last, m: Message, rest: seq<byte>)
    requires Between(cs, l) && Fits(m) && Expressible(l, 3, m)
    ensures ReadHeader(cs, 3, m.csid, FirstHeader(l, 3, m) + rest) == Done(Opened(cs, Begun(l, 3, m), m), rest)
  {
    hide ReadHeader;
    hide Repeated;
    hide Since;
    hide Put4;
    hide Opened;
    hide Begun;
    Opened3(cs, l, m);
    if BringsTime(l) {
      hide FirstHeader;
      First3Brings(cs, l, m, rest);
    } else {
      assert [] + rest == rest;
      Format3Header(cs, m.csid, rest);
    }
  }

  lemma First3Brings(cs: Stream, l: Last, m: Message, rest: seq<byte>)
    requires Between(cs, l) && Fits(m) && BringsTime(l)
    ensures ReadHeader(cs, 3, m.csid, FirstHeader(l, 3, m) + rest)
         == Done(cs.(data := [], remain := cs.msgLen, ready := false, fmt := 3, csid := m.csid, phase := Payload,
                     ts := m.ts), rest)
  {
    hide ReadHeader;
    hide Since;
    hide Get4;
    hide Put4;
    var d := Since(l, m);
    SinceAdds(l, m);
    Format3Brings(cs, m.csid, if l.fmt == 0 then Put4(m.ts) else Put4(d), rest);
  }

  lemma FirstChunkReads(cs: Stream, l: Last, fmt: nat, m: Message, more: seq<byte>) returns (next: Stream)
    requires Between(cs, l) && Fits(m) && Expressible(l, fmt, m)
    ensures ReadBody(cs, fmt, m.csid, FirstHeader(l, fmt, m) + Part(m, l.size, 0) + more) == Done(next, more)
    ensures Within(next, Begun(l, fmt, m), m, End(m, l.size, 0))
  {
    hide ReadHeader;
    hide ReadPayload;
    hide Expressible;
    hide FirstHeader;
    hide Since;
    var part, begun := Part(m, l.size, 0), Begun(l, fmt, m);
    assert FirstHeader(l, fmt, m) + part + more == FirstHeader(l, fmt, m) + (part + more);
    FirstHeaderReads(cs, l, fmt, m, part + more);
    var open := Opened(cs, begun, m);
    TakesPiece(open, part, more);
    assert [] + part == part;
    next := open.(data := open.data + part, remain := open.remain - |part|,
                  ready := open.ready || open.remain == |part|, phase := Header);
  }

  lemma NextHeaderReads(cs: Stream, l: Last, m: Message, rest: seq<byte>)
    requires cs.phase == Header && cs.remain > 0 && cs.ts == m.ts < 0x1_0000_0000 && cs.extTs == l.ext
    requires cs.csid == m.csid
    ensures ReadHeader(cs, 3, m.csid, NextHeader(l, m) + rest) == Done(cs.(fmt := 3, phase := Payload), rest)
  {
    hide ReadHeader;
    hide Put4;
    hide Get4;
    assert [] + rest == rest;
    Format3Continues(cs, m.csid, Put4(m.ts), rest);
  }

  lemma NextChunkReads(cs: Stream, l: Last, m: Message, off: nat, more: seq<byte>) returns (next: Stream)
    requires Within(cs, l, m, off) && Fits(m) && off < |m.payload|
    ensures ReadBody(cs, 3, m.csid, NextHeader(l, m) + Part(m, l.size, off) + more) == Done(next, more)
    ensures Within(next, l.(fmt := 3), m, End(m, l.size, off))
  {
    hide ReadHeader;
    hide ReadPayload;
    hide NextHeader;
    var part := Part(m, l.size, off);
    ThreeParts(NextHeader(l, m), part, more);
    NextHeaderReads(cs, l, m, part + more);
    var open := cs.(fmt := 3, phase := Payload);
    TakesPiece(open, part, more);
    OnePartMore(m, l.size, off);
    next := open.(data := open.data + part, remain := open.remain - |part|,
                  ready := open.ready || open.remain == |part|, phase := Header);
  }

  lemma OnePartMore(m: Message, size: nat, off: nat)
    requires off <= |m.payload|
    ensures m.payload[..off] + Part(m, size, off) == m.payload[..End(m, size, off)]
  {
  }

  // ----- and through the session -----

  /** Reader and sender agree on every chunk stream. */
  ghost predicate InSync(s: Session, w: Sender) {
    && Boundary(s) && s.chunkSize == w.size
    && forall c: nat :: 2 <= c < 64 ==>
         (Key(c) in s.streams <==> c in w.lasts) && (c in w.lasts ==> Between(s.streams[Key(c)], w.lasts[c]))
  }

  /** A chunk whose body is read to its end. */
  lemma ChunkTaken(
    h: Handler, s: Session, fmt: nat, csid: nat, body: seq<byte>, next: Stream, more: seq<byte>)
    returns (u: Session)
    requires Boundary(s) && fmt < 4 && 2 <= csid < 64
    requires ReadBody(StreamOf(s.(fmt := fmt, csid := csid)), fmt, csid, body + more) == Done(next, more)
    ensures u == s.(fmt := fmt, csid := csid, streams := s.streams[Key(csid) := next])
    ensures SameFuture(h, Append(s, BasicHeader(fmt, csid) + body + more), Append(Deliver(h, u), more))
  {
    hide BasicHeader;
    hide ReadBody;
    hide StreamOf;
    hide ReadChunkStream;
    hide SameFuture;
    u := s.(fmt := fmt, csid := csid, streams := s.streams[Key(csid) := next]);
    ChunkRead(s, fmt, csid, body + more, next, more);
    ThreeParts(BasicHeader(fmt, csid), body, more);
    DeliverExtends(h, u, more);
    hide Deliver;
    ReceiveDelivers(h, Append(s, BasicHeader(fmt, csid) + (body + more)), Append(u, more));
  }

  lemma ThreeParts(a: seq<byte>, b: seq<byte>, c: seq<byte>)
    ensures a + b + c == a + (b + c)
  {
  }

  lemma ChunkRead(s: Session, fmt: nat, csid: nat, rest: seq<byte>, next: Stream, more: seq<byte>)
    requires Boundary(s) && fmt < 4 && 2 <= csid < 64
    requires ReadBody(StreamOf(s.(fmt := fmt, csid := csid)), fmt, csid, rest) == Done(next, more)
    ensures var u := s.(fmt := fmt, csid := csid, streams := s.streams[Key(csid) := next]);
            var t := Append(s, BasicHeader(fmt, csid) + rest);
            ReadChunkStream(t) == Ok(Append(u, more)) && t.buf != [] && HeaderLen(t.buf[0]) == 1
  {
    BasicNonempty(fmt, csid);
    hide BasicHeader;
    hide ReadBody;
    OpenHeader(s, fmt, csid, rest);
    hide ReadChunkStream;
    assert [] + more == more;
    var t := Append(s, BasicHeader(fmt, csid) + rest);
    assert t.buf[0] == BasicHeader(fmt, csid)[0];
  }

  lemma BasicNonempty(fmt: nat, csid: nat)
    requires fmt < 4
    ensures BasicHeader(fmt, csid) != []
  {
  }

  /** The message's bytes lie in this chunk stream, and its handler takes it. */
  predicate Arriving(h: Handler, s: Session, l: Last, m: Message, off: nat) {
    && Boundary(s) && Fits(m) && l.size > 0 && off <= |m.payload| && Welcome(h, s.log, m, s.chunkSize)
    && Key(m.csid) in s.streams && Within(s.streams[Key(m.csid)], l, m, off) && off < |m.payload|
  }

  /** Where the session is once m has been delivered. */
  ghost predicate Arrived(s: Session, t: Session, l: Last, m: Message) {
    && Boundary(t) && t.chunkSize == SizeAfter(s.chunkSize, m) && t.log == s.log + [m]
    && Key(m.csid) in t.streams && Between(t.streams[Key(m.csid)], l)
    && t.streams == s.streams[Key(m.csid) := t.streams[Key(m.csid)]]
  }

  lemma Welcomed(h: Handler, log: seq<Message>, m: Message, size: nat)
    requires Welcome(h, log, m, size)
    ensures Judge(h, log + [m], size) == Accept(SizeAfter(size, m))
  {
  }

  /** The last chunk delivers the message. */
  lemma LastChunkDelivers(h: Handler, s: Session, u: Session, l: Last, m: Message)
    requires Boundary(s) && Fits(m) && Welcome(h, s.log, m, s.chunkSize)
    requires u == s.(fmt := u.fmt, csid := m.csid, streams := u.streams)
    requires Key(m.csid) in u.streams && u.streams == s.streams[Key(m.csid) := u.streams[Key(m.csid)]]
    requires Within(u.streams[Key(m.csid)], l, m, |m.payload|)
    ensures Arrived(s, Deliver(h, u), l, m)
  {
    hide Judge;
    Welcomed(h, s.log, m, s.chunkSize);
    hide Welcome;
    var cs := u.streams[Key(m.csid)];
    assert m.payload[..|m.payload|] == m.payload;
    assert ToMessage(cs) == m;
  }

  lemma {:induction false} LaterChunksTaken(h: Handler, s: Session, l: Last, m: Message, off: nat, more: seq<byte>)
    returns (t: Session)
    requires Arriving(h, s, l, m, off)
    ensures Arrived(s, t, l.(fmt := 3), m)
    ensures SameFuture(h, Append(s, LaterChunks(l, m, off) + more), Append(t, more))
    decreases |m.payload| - off
  {
    hide ReadBody;
    hide BasicHeader;
    hide NextHeader;
    hide Receive;
    hide OneByteHeaders;
    hide Welcome;
    hide Within;
    hide Between;
    var end := End(m, l.size, off);
    var body, later := NextHeader(l, m) + Part(m, l.size, off), LaterChunks(l, m, end);
    var cs := StreamOf(s.(fmt := 3, csid := m.csid));
    var next := NextChunkReads(cs, l, m, off, later + more);
    var u := ChunkTaken(h, s, 3, m.csid, body, next, later + more);
    assert LaterChunks(l, m, off) + more == BasicHeader(3, m.csid) + body + (later + more);
    if end == |m.payload| {
      LastChunkDelivers(h, s, u, l.(fmt := 3), m);
      t := Deliver(h, u);
      assert later + more == more;
    } else {
      NotYet(h, u, l.(fmt := 3), m, end);
      t := LaterChunksTaken(h, u, l.(fmt := 3), m, end, more);
      SameLater(l, m, end);
    }
  }

  lemma NotYet(h: Handler, u: Session, l: Last, m: Message, off: nat)
    requires Key(u.csid) in u.streams && Within(u.streams[Key(u.csid)], l, m, off) && off < |m.payload|
    ensures Deliver(h, u) == u
  {
  }

  /** The format of the last chunk does not matter to the later ones. */
  lemma {:induction false} SameLater(l: Last, m: Message, off: nat)
    requires l.size > 0 && off <= |m.payload|
    ensures LaterChunks(l.(fmt := 3), m, off) == LaterChunks(l, m, off)
    decreases |m.payload| - off
  {
    if off == |m.payload| {
      assert LaterChunks(l, m, off) == [];
    } else {
      SameLater(l, m, End(m, l.size, off));
    }
  }

  lemma MessageTaken(h: Handler, s: Session, w: Sender, o: Out, more: seq<byte>) returns (t: Session)
    requires InSync(s, w) && CanSend(h, s.log, w, o)
    ensures InSync(t, Advance(w, o)) && t.log == s.log + [o.m]
    ensures SameFuture(h, Append(s, MessageBytes(LastOn(w, o.m.csid), o.fmt, o.m) + more), Append(t, more))
  {
    hide Between;
    hide Expressible;
    hide Welcome;
    hide LastOn;
    hide Sent;
    hide MessageBytes;
    hide SameFuture;
    hide StreamOf;
    StreamIsSynced(s, w, o);
    var l := LastOn(w, o.m.csid);
    FormatFits(l, o.fmt, o.m);
    t := OnStreamTaken(h, s, l, o.fmt, o.m, more);
    StaysInSync(s, t, w, o);
  }

  lemma FormatFits(l: Last, fmt: nat, m: Message)
    requires Expressible(l, fmt, m)
    ensures fmt < 4
  {
  }

  lemma OnStreamTaken(h: Handler, s: Session, l: Last, fmt: nat, m: Message, more: seq<byte>) returns (t: Session)
    requires Boundary(s) && Fits(m) && fmt < 4 && l.size > 0 && Expressible(l, fmt, m)
    requires Welcome(h, s.log, m, s.chunkSize) && Between(StreamOf(s.(fmt := fmt, csid := m.csid)), l)
    ensures Arrived(s, t, Sent(l, fmt, m), m)
    ensures SameFuture(h, Append(s, MessageBytes(l, fmt, m) + more), Append(t, more))
  {
    hide ReadBody;
    hide StreamOf;
    hide BasicHeader;
    hide FirstHeader;
    hide Receive;
    hide OneByteHeaders;
    hide Expressible;
    hide Welcome;
    hide Within;
    hide Between;
    hide Begun;
    hide LaterChunks;
    var end, begun := End(m, l.size, 0), Begun(l, fmt, m);
    BegunKeepsSize(l, fmt, m);
    var body, later := FirstHeader(l, fmt, m) + Part(m, l.size, 0), LaterChunks(begun, m, end);
    var next := FirstChunkReads(StreamOf(s.(fmt := fmt, csid := m.csid)), l, fmt, m, later + more);
    var u := ChunkTaken(h, s, fmt, m.csid, body, next, later + more);
    assert MessageBytes(l, fmt, m) + more == BasicHeader(fmt, m.csid) + body + (later + more);
    SentIs(l, fmt, m);
    hide Sent;
    if end == |m.payload| {
      LastChunkDelivers(h, s, u, begun, m);
      t := Deliver(h, u);
      NothingLater(begun, m);
      assert later + more == more;
    } else {
      NotYet(h, u, begun, m, end);
      t := LaterChunksTaken(h, u, begun, m, end, more);
      ArrivedFrom(s, u, t, Sent(l, fmt, m), m);
    }
  }

  lemma BegunKeepsSize(l: Last, fmt: nat, m: Message)
    ensures Begun(l, fmt, m).size == l.size
  {
  }

  lemma NothingLater(l: Last, m: Message)
    requires l.size > 0
    ensures LaterChunks(l, m, |m.payload|) == []
  {
  }

  lemma ArrivedFrom(s: Session, u: Session, t: Session, l: Last, m: Message)
    requires Arrived(u, t, l, m)
    requires Key(m.csid) in u.streams && u == s.(fmt := u.fmt, csid := u.csid, streams := u.streams)
    requires u.streams == s.streams[Key(m.csid) := u.streams[Key(m.csid)]]
    ensures Arrived(s, t, l, m)
  {
    hide Between;
  }

  lemma SentIs(l: Last, fmt: nat, m: Message)
    requires l.size > 0
    ensures Sent(l, fmt, m) == if End(m, l.size, 0) == |m.payload| then Begun(l, fmt, m) else Begun(l, fmt, m).(fmt := 3)
  {
    hide Begun;
  }

  lemma StreamIsSynced(s: Session, w: Sender, o: Out)
    requires InSync(s, w) && Fits(o.m) && (o.m.csid !in w.lasts ==> o.fmt == 0)
    ensures Between(StreamOf(s.(fmt := o.fmt, csid := o.m.csid)), LastOn(w, o.m.csid))
  {
  }

  lemma StaysInSync(s: Session, t: Session, w: Sender, o: Out)
    requires InSync(s, w) && Fits(o.m) && Arrived(s, t, Sent(LastOn(w, o.m.csid), o.fmt, o.m), o.m)
    ensures InSync(t, Advance(w, o))
  {
    hide Between;
    hide Sent;
    forall c: nat | 2 <= c < 64
      ensures Key(c) in t.streams <==> c in Advance(w, o).lasts
      ensures c in Advance(w, o).lasts ==> Between(t.streams[Key(c)], Advance(w, o).lasts[c])
    {
      assert Key(c) == c;
    }
  }

  lemma {:induction false} AllSentTaken(h: Handler, s: Session, w: Sender, outs: seq<Out>) returns (t: Session)
    requires InSync(s, w) && CanSendAll(h, s.log, w, outs)
    ensures t.log == s.log + Messages(outs) && Boundary(t)
    ensures SameFuture(h, Append(s, BytesOf(h, s.log, w, outs)), t) && Receive(h, t) == t && OneByteHeaders(h, t)
    decreases |outs|
  {
    hide CanSend;
    hide MessageBytes;
    hide Receive;
    hide OneByteHeaders;
    hide Advance;
    hide LastOn;
    if outs == [] {
      t := s;
      NothingToReceive(h, s);
      assert s.buf + [] == s.buf && s.log + [] == s.log;
    } else {
      var o := outs[0];
      CanSendFacts(h, s.log, w, o);
      var first := MessageBytes(LastOn(w, o.m.csid), o.fmt, o.m);
      var rest := BytesOf(h, s.log + [o.m], Advance(w, o), outs[1..]);
      assert BytesOf(h, s.log, w, outs) == first + rest;
      hide BytesOf;
      hide CanSendAll;
      OneMoreMessage(s.log, outs);
      hide Messages;
      hide InSync;
      hide Boundary;
      var u := MessageTaken(h, s, w, o, rest);
      hide SameFuture;
      t := AllSentTaken(h, u, Advance(w, o), outs[1..]);
      SameFutures(h, Append(s, first + rest), Append(u, rest), t);
    }
  }

  lemma OneMoreMessage(log: seq<Message>, outs: seq<Out>)
    requires outs != []
    ensures log + [outs[0].m] + Messages(outs[1..]) == log + Messages(outs)
  {
  }

  lemma SameFutures(h: Handler, s: Session, u: Session, t: Session)
    requires SameFuture(h, s, u) && SameFuture(h, u, t)
    ensures SameFuture(h, s, t)
  {
    hide Receive;
    hide OneByteHeaders;
  }

  lemma CanSendFacts(h: Handler, log: seq<Message>, w: Sender, o: Out)
    requires CanSend(h, log, w, o)
    ensures LastOn(w, o.m.csid).size > 0 && o.fmt < 4
  {
  }

  function Messages(outs: seq<Out>): seq<Message> {
    if outs == [] then [] else [outs[0].m] + Messages(outs[1..])
  }

  /**
   * Whatever formats the sender picks for its messages among those that can express them, and
   * however the bytes are cut, the reader delivers the messages unchanged and in order.
   */
  lemma CompressedRoundTrip(h: Handler, s: Session, w: Sender, outs: seq<Out>, pieces: seq<seq<byte>>)
    requires InSync(s, w) && CanSendAll(h, s.log, w, outs)
    requires NonEmpty(pieces) && Concat(pieces) == BytesOf(h, s.log, w, outs)
    ensures FeedAll(h, s, pieces).log == s.log + Messages(outs) && Boundary(FeedAll(h, s, pieces))
  {
    hide CanSendAll;
    hide OneByteHeaders;
    hide Receive;
    hide BytesOf;
    var t := AllSentTaken(h, s, w, outs);
    SomethingCarried(pieces);
    if pieces == [] {
      NothingToReceive(h, s);
      assert Append(s, []) == s;
    } else {
      PiecesAsOne(h, s, pieces);
    }
  }

  /** A fresh session is in step with a sender that has sent nothing. */
  lemma FreshInSync()
    ensures InSync(NewSession, Sender(128, map[]))
  {
  }
}
