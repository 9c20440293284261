/**
 * What the chunk reader computes: the per-csid reassembly of net/rtmp/chunk_stream.cpp,
 * the session half in net/rtmp/rtmp_session_base.cpp, and the receive loop of
 * net/rtmp/rtmp_server_session.cpp, as functions on values. RtmpSession.dfy holds the
 * imperative code that is proved against them.
 */
module RtmpReader {
  import opened Bytes

  const FORMAT0_HEADER_LEN := 11
  const FORMAT1_HEADER_LEN := 7
  const FORMAT2_HEADER_LEN := 3
  const EXT_TS_LEN := 4
  const EXT_TS_MARK := 0xff_ffff
  const U32 := 0x1_0000_0000

  const SET_CHUNK_SIZE: byte := 1
  const WINDOW_ACK_SIZE: byte := 5
  const SET_PEER_BANDWIDTH: byte := 6
  const AUDIO: byte := 8
  const VIDEO: byte := 9
  const META_DATA3: byte := 15
  const AMF3: byte := 17
  const META_DATA0: byte := 18
  const AMF0: byte := 20

  datatype Phase = Header | Payload

  /** One chunk stream (csid) as the reader holds it between chunks. */
  datatype Stream = Stream(
    delta: nat,
    ts: nat,
    msgLen: nat,
    typeId: byte,
    msgStreamId: nat,
    remain: nat,
    chunkSize: nat,
    data: seq<byte>,
    extTs: bool,
    fmt: nat,
    csid: nat,
    phase: Phase,
    ready: bool)

  function NewStream(fmt: nat, csid: nat, chunkSize: nat): Stream {
    Stream(0, 0, 0, 0, 0, 0, chunkSize, [], false, fmt, csid, Header, false)
  }

  /** RTMP_NEED_READ_MORE or RTMP_OK, with the bytes left. */
  datatype Read = More(cs: Stream, rest: seq<byte>) | Done(cs: Stream, rest: seq<byte>)

  /** What is left is a tail of what was there. */
  ghost predicate Tail(r: Read, buf: seq<byte>) {
    |r.rest| <= |buf| && r.rest == buf[|buf| - |r.rest|..]
  }

  /** The timestamp field of formats 0 to 2, whose header is n bytes long. */
  function Timestamp(buf: seq<byte>, n: nat): nat
    requires 3 <= n <= |buf| && |buf| >= (if Get3(buf) == EXT_TS_MARK then n + EXT_TS_LEN else n)
  {
    if Get3(buf) == EXT_TS_MARK then Get4(buf[n..]) else Get3(buf)
  }

  function AfterTimestamp(buf: seq<byte>, n: nat): seq<byte>
    requires 3 <= n <= |buf| && |buf| >= (if Get3(buf) == EXT_TS_MARK then n + EXT_TS_LEN else n)
  {
    if Get3(buf) == EXT_TS_MARK then buf[n + EXT_TS_LEN..] else buf[n..]
  }

  /** The shared front of formats 0 to 2: the fields written before a retry. */
  function Tag(cs: Stream, fmt: nat, csid: nat, buf: seq<byte>): Stream
    requires |buf| >= 3
  {
    cs.(fmt := fmt, csid := csid, extTs := cs.extTs || Get3(buf) == EXT_TS_MARK)
  }

  predicate Short(buf: seq<byte>, n: nat)
    requires 3 <= n <= |buf|
  {
    Get3(buf) == EXT_TS_MARK && |buf| < n + EXT_TS_LEN
  }

  function ReadFormat0(cs: Stream, fmt: nat, csid: nat, buf: seq<byte>): (r: Read)
    ensures Tail(r, buf)
  {
    var n := FORMAT0_HEADER_LEN;
    if |buf| < n then More(cs, buf)
    else if Short(buf, n) then More(Tag(cs, fmt, csid, buf), buf)
    else
      var len := Get3(buf[3..]);
      Done(Tag(cs, fmt, csid, buf).(
           ts := Timestamp(buf, n), delta := 0, msgLen := len, typeId := buf[6],
           msgStreamId := Get4(buf[7..]), remain := len),
           AfterTimestamp(buf, n))
  }

  function ReadFormat1(cs: Stream, fmt: nat, csid: nat, buf: seq<byte>): (r: Read)
    ensures Tail(r, buf)
  {
    var n := FORMAT1_HEADER_LEN;
    if |buf| < n then More(cs, buf)
    else if Short(buf, n) then More(Tag(cs, fmt, csid, buf), buf)
    else
      var len := Get3(buf[3..]);
      var delta := Timestamp(buf, n);
      Done(Tag(cs, fmt, csid, buf).(
           delta := delta, ts := (cs.ts + delta) % U32, msgLen := len, typeId := buf[6],
           remain := len),
           AfterTimestamp(buf, n))
  }

  function ReadFormat2(cs: Stream, fmt: nat, csid: nat, buf: seq<byte>): (r: Read)
    ensures Tail(r, buf)
  {
    var n := FORMAT2_HEADER_LEN;
    if |buf| < n then More(cs, buf)
    else if Short(buf, n) then More(Tag(cs, fmt, csid, buf), buf)
    else
      var delta := Timestamp(buf, n);
      Done(Tag(cs, fmt, csid, buf).(
           delta := delta, ts := (cs.ts + delta) % U32, remain := cs.msgLen),
           AfterTimestamp(buf, n))
  }

  /** The timestamp of a format 3 chunk that repeats the previous message's header. */
  function RepeatTimestamp(cs: Stream, buf: seq<byte>): (r: Read)
    ensures Tail(r, buf)
  {
    if cs.fmt == 0 && cs.extTs then
      if |buf| < EXT_TS_LEN then More(cs, buf) else Done(cs.(ts := Get4(buf)), buf[EXT_TS_LEN..])
    else if cs.fmt == 1 || cs.fmt == 2 then
      if !cs.extTs then Done(cs.(ts := (cs.ts + cs.delta) % U32), buf)
      else if |buf| < EXT_TS_LEN then More(cs, buf)
      else Done(cs.(ts := (cs.ts + Get4(buf)) % U32), buf[EXT_TS_LEN..])
    else Done(cs, buf)
  }

  /** A continuation chunk may repeat the extended timestamp; it is dropped if equal. */
  function SkipTimestamp(cs: Stream, buf: seq<byte>): (r: Read)
    ensures Tail(r, buf)
  {
    if !cs.extTs then Done(cs, buf)
    else if |buf| < EXT_TS_LEN then More(cs, buf)
    else Done(cs, if Get4(buf) == cs.ts then buf[EXT_TS_LEN..] else buf)
  }

  /** Format 3 repeats the previous header when nothing remains, else continues its message. */
  function ReadFormat3(cs: Stream, fmt: nat, csid: nat, buf: seq<byte>): (r: Read)
    ensures Tail(r, buf)
  {
    if cs.remain == 0 then
      var r := RepeatTimestamp(cs, buf);
      if r.More? then r
      else r.(cs := r.cs.(data := [], remain := cs.msgLen, ready := false, fmt := fmt, csid := csid))
    else
      var r := SkipTimestamp(cs, buf);
      if r.More? then r else r.(cs := r.cs.(fmt := fmt, csid := csid))
  }

  function ReadFormat(cs: Stream, fmt: nat, csid: nat, buf: seq<byte>): (r: Read)
    ensures Tail(r, buf)
  {
    if fmt == 0 then ReadFormat0(cs, fmt, csid, buf)
    else if fmt == 1 then ReadFormat1(cs, fmt, csid, buf)
    else if fmt == 2 then ReadFormat2(cs, fmt, csid, buf)
    else ReadFormat3(cs, fmt, csid, buf)
  }

  function ReadHeader(cs: Stream, fmt: nat, csid: nat, buf: seq<byte>): (r: Read)
    ensures Tail(r, buf)
  {
    if cs.phase != Header then Done(cs, buf)
    else
      var r := ReadFormat(cs, fmt, csid, buf);
      if r.More? then r else r.(cs := r.cs.(phase := Payload))
  }

  function RequireLen(cs: Stream): nat {
    if cs.remain > cs.chunkSize then cs.chunkSize else cs.remain
  }

  function ReadPayload(cs: Stream, buf: seq<byte>): (r: Read)
    ensures Tail(r, buf)
  {
    var n := RequireLen(cs);
    if cs.phase != Payload then Done(cs, buf)
    else if |buf| < n then More(cs, buf)
    else
      Done(cs.(data := cs.data + buf[..n], remain := cs.remain - n,
           ready := cs.ready || cs.remain == n, phase := Header),
           buf[n..])
  }

  /** The header, then the payload piece, of one chunk. */
  function ReadBody(cs: Stream, fmt: nat, csid: nat, buf: seq<byte>): (r: Read)
    ensures Tail(r, buf)
  {
    var r := ReadHeader(cs, fmt, csid, buf);
    if r.More? then r else ReadPayload(r.cs, r.rest)
  }

  datatype Message = Message(csid: nat, typeId: byte, ts: nat, msgStreamId: nat, payload: seq<byte>)

  /** The answer of a command or media handler; a command may set the session's chunk size. */
  datatype Verdict = Refuse | Accept(chunkSize: nat)

  /** The handlers are foreign code: their answer is any function of what was delivered. */
  type Handler = seq<Message> -> Verdict

  /** rtmp_session_base plus the log of messages handed to the handlers. */
  datatype Session = Session(
    buf: seq<byte>,
    fmtReady: bool,
    fmt: nat,
    csid: nat,
    streams: map<byte, Stream>,
    chunkSize: nat,
    log: seq<Message>,
    closed: bool)

  const NewSession := Session([], false, 0, 0, map[], 128, [], false)

  /** cs_map_ is keyed by a uint8_t. */
  function Key(csid: nat): byte {
    csid % 0x100
  }

  /** RTMP_NEED_READ_MORE or RTMP_OK of a session-level call. */
  datatype Step = Wait(s: Session) | Ok(s: Session)

  /** Length of the basic header that starts with b: csid 0 and 1 announce longer forms. */
  function HeaderLen(b: byte): (n: nat)
    ensures 1 <= n <= 3
  {
    if b % 64 == 0 then 2 else if b % 64 == 1 then 3 else 1
  }

  function HeaderCsid(buf: seq<byte>): nat
    requires buf != [] && |buf| >= HeaderLen(buf[0])
  {
    if HeaderLen(buf[0]) == 1 then buf[0] % 64
    else if HeaderLen(buf[0]) == 2 then 64 + buf[1] as int
    else 64 + buf[1] as int + buf[2] as int
  }

  /** A basic header that is only partly there still loses its first byte. */
  function ReadFmtCsid(s: Session): (r: Step)
    ensures r.Ok? ==> |r.s.buf| < |s.buf|
    ensures r.s == s.(fmt := r.s.fmt, csid := r.s.csid, buf := r.s.buf)
  {
    if s.buf == [] then Wait(s)
    else
      var n := HeaderLen(s.buf[0]);
      if |s.buf| < n then Wait(s.(fmt := s.buf[0] / 64, csid := s.buf[0] % 64, buf := s.buf[1..]))
      else Ok(s.(fmt := s.buf[0] / 64, csid := HeaderCsid(s.buf), buf := s.buf[n..]))
  }

  function StreamOf(s: Session): Stream {
    if Key(s.csid) in s.streams then s.streams[Key(s.csid)] else NewStream(s.fmt, s.csid, s.chunkSize)
  }

  /** The chunk body, once the basic header is known. */
  function ReadOpen(s: Session): (r: Step)
    ensures r.Ok? ==> |r.s.buf| <= |s.buf| && !r.s.fmtReady && Key(r.s.csid) in r.s.streams
  {
    var r := ReadBody(StreamOf(s), s.fmt, s.csid, s.buf);
    var t := s.(streams := s.streams[Key(s.csid) := r.cs], buf := r.rest);
    if r.More? then Wait(t) else Ok(t.(fmtReady := false))
  }

  function ReadChunkStream(s: Session): (r: Step)
    ensures r.Ok? ==> !r.s.fmtReady && Key(r.s.csid) in r.s.streams
    ensures r.Ok? ==> Measure(r.s) < Measure(s)
  {
    if s.fmtReady then ReadOpen(s)
    else
      var r := ReadFmtCsid(s);
      if r.Wait? then r else ReadOpen(r.s.(fmtReady := true))
  }

  function Measure(s: Session): nat {
    2 * |s.buf| + if s.fmtReady then 1 else 0
  }

  function ToMessage(cs: Stream): Message {
    Message(cs.csid, cs.typeId, cs.ts, cs.msgStreamId, cs.data)
  }

  /** What the receive loop does with the last message of the log. */
  function Judge(h: Handler, log: seq<Message>, chunkSize: nat): Verdict
    requires log != []
  {
    var m := log[|log| - 1];
    if SET_CHUNK_SIZE <= m.typeId <= SET_PEER_BANDWIDTH then
      if m.typeId == SET_CHUNK_SIZE then
        if |m.payload| < 4 then Refuse else Accept(Get4(m.payload))
      else if m.typeId == WINDOW_ACK_SIZE && |m.payload| < 4 then Refuse
      else Accept(chunkSize)
    else if m.typeId == AMF0 then h(log)
    else if m.typeId == AMF3 then Refuse
    else if m.typeId == VIDEO || m.typeId == AUDIO || m.typeId == META_DATA0 || m.typeId == META_DATA3 then
      if h(log).Refuse? then Refuse else Accept(chunkSize)
    else Accept(chunkSize)
  }

  function ResetStream(cs: Stream): Stream {
    cs.(phase := Header, ready := false, data := [])
  }

  /** After a chunk: deliver and reset a complete message, or go on. */
  function Deliver(h: Handler, s: Session): (t: Session)
    requires Key(s.csid) in s.streams
    ensures Measure(t) <= Measure(s)
  {
    var cs := s.streams[Key(s.csid)];
    if !cs.ready then s
    else
      var log := s.log + [ToMessage(cs)];
      match Judge(h, log, s.chunkSize)
      case Refuse => s.(log := log, closed := true, buf := [])
      case Accept(c) => s.(log := log, chunkSize := c, streams := s.streams[Key(s.csid) := ResetStream(cs)])
  }

  /** receive_chunk_stream: read chunks until more bytes are needed or a handler refuses. */
  function Receive(h: Handler, s: Session): Session
    decreases Measure(s)
  {
    if s.closed then s
    else
      var r := ReadChunkStream(s);
      if r.Wait? then r.s else Receive(h, Deliver(h, r.s))
  }

  function Append(s: Session, bytes: seq<byte>): Session {
    if s.closed then s else s.(buf := s.buf + bytes)
  }

  function Close(s: Session): Session {
    if s.closed then s else s.(closed := true, buf := [])
  }

  /** on_read: one piece arrives from the socket; an empty one closes the session. */
  function Feed(h: Handler, s: Session, piece: seq<byte>): Session {
    if piece == [] then Close(s) else Receive(h, Append(s, piece))
  }

  function FeedAll(h: Handler, s: Session, pieces: seq<seq<byte>>): Session
    decreases |pieces|
  {
    if pieces == [] then s else FeedAll(h, Feed(h, s, pieces[0]), pieces[1..])
  }
}
