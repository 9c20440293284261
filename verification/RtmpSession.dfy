/**
 * The chunk reader and writer as the source has them: objects whose methods update their
 * fields and consume the receive buffer, each proved against RtmpReader and RtmpWriter.
 */
module RtmpSession {
  import opened Bytes
  import opened DataBuffer
  import R = RtmpReader
  import W = RtmpWriter
  import G = RtmpSegmentation

  const RTMP_OK := 0
  const RTMP_NEED_READ_MORE := 1

  /** A return code, the stream it leaves and the bytes it leaves, against the model. */
  ghost predicate Agrees(r: R.Read, ret: int, cs: R.Stream, rest: seq<byte>) {
    && ret == (if r.More? then RTMP_NEED_READ_MORE else RTMP_OK)
    && cs == r.cs && rest == r.rest
  }

  /** A stream with one more piece of its payload. */
  function Taken(cs: R.Stream, piece: seq<byte>): R.Stream
    requires |piece| <= cs.remain
  {
    cs.(data := cs.data + piece, remain := cs.remain - |piece|, ready := cs.ready || cs.remain == |piece|,
        phase := R.Header)
  }

  lemma Overwrite(m: map<byte, R.Stream>, k: byte, a: R.Stream, b: R.Stream)
    ensures m[k := a][k := b] == m[k := b]
  {
  }

  class ChunkStream {
    var timestampDelta: nat
    var timestamp32: nat
    var msgLen: nat
    var typeId: byte
    var msgStreamId: nat
    var remain: nat
    var chunkSize: nat
    var chunkAll: seq<byte>
    var chunkData: seq<byte>
    var extTsFlag: bool
    var fmt: nat
    var csid: nat
    var phase: R.Phase
    var chunkReady: bool

    constructor (fmt: nat, csid: nat, chunkSize: nat)
      ensures View() == R.NewStream(fmt, csid, chunkSize) && chunkAll == []
    {
      timestampDelta, timestamp32, msgLen, typeId, msgStreamId, remain := 0, 0, 0, 0, 0, 0;
      this.chunkSize := chunkSize;
      chunkAll, chunkData, extTsFlag := [], [], false;
      this.fmt, this.csid := fmt, csid;
      phase, chunkReady := R.Header, false;
    }

    function View(): R.Stream
      reads this
    {
      R.Stream(timestampDelta, timestamp32, msgLen, typeId, msgStreamId, remain, chunkSize,
               chunkData, extTsFlag, fmt, csid, phase, chunkReady)
    }

    /** consume_data with a count that is there. */
    method Drop(recv: Buffer, n: nat)
      requires recv.Valid() && n <= |recv.Contents()|
      modifies recv`start, recv`dataLen
      ensures recv.Valid() && recv.Contents() == old(recv.Contents())[n..]
    {
      var _ := recv.Consume(n);
    }

    /** The timestamp field after which n header bytes have been consumed. */
    method TakeTimestamp(recv: Buffer, p: seq<byte>, n: nat) returns (ts: nat)
      requires recv.Valid() && p == recv.Contents() && 3 <= n <= |p| && !R.Short(p, n)
      modifies recv`start, recv`dataLen
      ensures recv.Valid()
      ensures ts == R.Timestamp(p, n) && recv.Contents() == R.AfterTimestamp(p, n)
    {
      ts := Get3(p);
      Drop(recv, n);
      if ts >= R.EXT_TS_MARK {
        ts := Get4(p[n..]);
        Drop(recv, R.EXT_TS_LEN);
        assert p[n..][R.EXT_TS_LEN..] == p[n + R.EXT_TS_LEN..];
      }
    }

    /** The start of formats 0 to 2: what is set even if the header has to wait. */
    method TakeTag(recv: Buffer, n: nat, inputFmt: nat, inputCsid: nat) returns (ret: int)
      requires recv.Valid() && 3 <= n
      modifies `fmt, `csid, `extTsFlag
      ensures ret == if |recv.Contents()| < n || R.Short(recv.Contents(), n) then RTMP_NEED_READ_MORE else RTMP_OK
      ensures View() == if |recv.Contents()| < n then old(View())
                        else R.Tag(old(View()), inputFmt, inputCsid, recv.Contents())
    {
      hide Get3;
      if !recv.Require(n) {
        return RTMP_NEED_READ_MORE;
      }
      fmt, csid := inputFmt, inputCsid;
      var p := recv.Data();
      if Get3(p) >= R.EXT_TS_MARK {
        extTsFlag := true;
        if !recv.Require(n + R.EXT_TS_LEN) {
          return RTMP_NEED_READ_MORE;
        }
      }
      return RTMP_OK;
    }

    /** A new message begins: its header fields, and all of it still to come. */
    method SetFields(ts: nat, delta: nat, len: nat, typeId: byte, msgStreamId: nat)
      modifies this
      ensures View() == old(View()).(ts := ts, delta := delta, msgLen := len, typeId := typeId,
                        msgStreamId := msgStreamId, remain := len)
    {
      timestamp32, timestampDelta := ts, delta;
      msgLen, this.typeId, this.msgStreamId := len, typeId, msgStreamId;
      remain := len;
    }

    method ReadFormat0(recv: Buffer, inputFmt: nat, inputCsid: nat) returns (ret: int)
      requires recv.Valid()
      modifies this, recv`start, recv`dataLen
      ensures recv.Valid()
      ensures Agrees(R.ReadFormat0(old(View()), inputFmt, inputCsid, old(recv.Contents())), ret, View(), recv.Contents())
    {
      hide Get3;
      hide Get4;
      var p := recv.Data();
      ret := TakeTag(recv, R.FORMAT0_HEADER_LEN, inputFmt, inputCsid);
      if ret != RTMP_OK {
        return ret;
      }
      var ts := TakeTimestamp(recv, p, R.FORMAT0_HEADER_LEN);
      SetFields(ts, 0, Get3(p[3..]), p[6], Get4(p[7..]));
    }

    method ReadFormat1(recv: Buffer, inputFmt: nat, inputCsid: nat) returns (ret: int)
      requires recv.Valid()
      modifies this, recv`start, recv`dataLen
      ensures recv.Valid()
      ensures Agrees(R.ReadFormat1(old(View()), inputFmt, inputCsid, old(recv.Contents())), ret, View(), recv.Contents())
    {
      hide Get3;
      hide Get4;
      var p := recv.Data();
      ret := TakeTag(recv, R.FORMAT1_HEADER_LEN, inputFmt, inputCsid);
      if ret != RTMP_OK {
        return ret;
      }
      var ts := TakeTimestamp(recv, p, R.FORMAT1_HEADER_LEN);
      SetFields((timestamp32 + ts) % R.U32, ts, Get3(p[3..]), p[6], msgStreamId);
    }

    method ReadFormat2(recv: Buffer, inputFmt: nat, inputCsid: nat) returns (ret: int)
      requires recv.Valid()
      modifies this, recv`start, recv`dataLen
      ensures recv.Valid()
      ensures Agrees(R.ReadFormat2(old(View()), inputFmt, inputCsid, old(recv.Contents())), ret, View(), recv.Contents())
    {
      hide Get3;
      hide Get4;
      var p := recv.Data();
      ret := TakeTag(recv, R.FORMAT2_HEADER_LEN, inputFmt, inputCsid);
      if ret != RTMP_OK {
        return ret;
      }
      var ts := TakeTimestamp(recv, p, R.FORMAT2_HEADER_LEN);
      SetFields((timestamp32 + ts) % R.U32, ts, msgLen, typeId, msgStreamId);
    }

    /** The four bytes that follow a format 3 header once an extended timestamp was seen. */
    method PeekTimestamp(recv: Buffer) returns (ret: int, ts: nat)
      requires recv.Valid()
      ensures ret == if |recv.Contents()| < R.EXT_TS_LEN then RTMP_NEED_READ_MORE else RTMP_OK
      ensures ret == RTMP_OK ==> ts == Get4(recv.Contents())
    {
      hide Get4;
      if !recv.Require(R.EXT_TS_LEN) {
        return RTMP_NEED_READ_MORE, 0;
      }
      var p := recv.Data();
      return RTMP_OK, Get4(p);
    }

    /** Requires, reads and consumes the four bytes of an extended timestamp. */
    method TakeExtended(recv: Buffer) returns (ret: int, ts: nat)
      requires recv.Valid()
      modifies recv`start, recv`dataLen
      ensures recv.Valid()
      ensures ret == if |old(recv.Contents())| < R.EXT_TS_LEN then RTMP_NEED_READ_MORE else RTMP_OK
      ensures ret != RTMP_OK ==> recv.Contents() == old(recv.Contents())
      ensures ret == RTMP_OK ==>
                ts == Get4(old(recv.Contents())) && recv.Contents() == old(recv.Contents())[R.EXT_TS_LEN..]
    {
      hide Get4;
      ret, ts := PeekTimestamp(recv);
      if ret == RTMP_OK {
        Drop(recv, R.EXT_TS_LEN);
      }
    }

    method RepeatTimestamp(recv: Buffer) returns (ret: int)
      requires recv.Valid()
      modifies `timestamp32, recv`start, recv`dataLen
      ensures recv.Valid()
      ensures Agrees(R.RepeatTimestamp(old(View()), old(recv.Contents())), ret, View(), recv.Contents())
    {
      hide Get4;
      if fmt > 2 || (fmt == 0 && !extTsFlag) {
        return RTMP_OK;
      }
      var ts := timestampDelta;
      if extTsFlag {
        ret, ts := TakeExtended(recv);
        if ret != RTMP_OK {
          return ret;
        }
      }
      var next := if fmt == 0 then ts else (timestamp32 + ts) % R.U32;
      assert R.RepeatTimestamp(old(View()), old(recv.Contents())) == R.Done(old(View()).(ts := next), recv.Contents());
      hide R.RepeatTimestamp;
      SetTimestamp(next);
      return RTMP_OK;
    }

    method SetTimestamp(ts: nat)
      modifies `timestamp32
      ensures View() == old(View()).(ts := ts)
    {
      timestamp32 := ts;
    }

    method SkipTimestamp(recv: Buffer) returns (ret: int)
      requires recv.Valid()
      modifies recv`start, recv`dataLen
      ensures recv.Valid()
      ensures Agrees(R.SkipTimestamp(View(), old(recv.Contents())), ret, View(), recv.Contents())
    {
      hide Get4;
      if extTsFlag {
        var ts;
        ret, ts := PeekTimestamp(recv);
        if ret != RTMP_OK {
          return ret;
        }
        if ts == timestamp32 {
          Drop(recv, R.EXT_TS_LEN);
        }
      }
      return RTMP_OK;
    }

    method ReadFormat3(recv: Buffer, inputFmt: nat, inputCsid: nat) returns (ret: int)
      requires recv.Valid()
      modifies this, recv`start, recv`dataLen
      ensures recv.Valid()
      ensures Agrees(R.ReadFormat3(old(View()), inputFmt, inputCsid, old(recv.Contents())), ret, View(), recv.Contents())
    {
      hide R.RepeatTimestamp;
      hide R.SkipTimestamp;
      var again := remain == 0;
      if again {
        ret := RepeatTimestamp(recv);
      } else {
        ret := SkipTimestamp(recv);
      }
      if ret == RTMP_OK {
        Continue(again, inputFmt, inputCsid);
      }
    }

    method Continue(again: bool, inputFmt: nat, inputCsid: nat)
      modifies this
      ensures View() == (if again then old(View()).(data := [], remain := old(msgLen), ready := false)
                         else old(View())).(fmt := inputFmt, csid := inputCsid)
    {
      if again {
        chunkAll, chunkData, remain, chunkReady := [], [], msgLen, false;
      }
      fmt, csid := inputFmt, inputCsid;
    }

    method ReadMessageHeader(recv: Buffer, inputFmt: nat, inputCsid: nat) returns (ret: int)
      requires recv.Valid() && inputFmt < 4
      modifies this, recv`start, recv`dataLen
      ensures recv.Valid()
      ensures Agrees(R.ReadHeader(old(View()), inputFmt, inputCsid, old(recv.Contents())), ret, View(), recv.Contents())
    {
      if phase != R.Header {
        return RTMP_OK;
      }
      if inputFmt == 0 {
        ret := ReadFormat0(recv, inputFmt, inputCsid);
      } else if inputFmt == 1 {
        ret := ReadFormat1(recv, inputFmt, inputCsid);
      } else if inputFmt == 2 {
        ret := ReadFormat2(recv, inputFmt, inputCsid);
      } else {
        ret := ReadFormat3(recv, inputFmt, inputCsid);
      }
      if ret != RTMP_OK {
        return ret;
      }
      phase := R.Payload;
    }

    method ReadMessagePayload(recv: Buffer) returns (ret: int)
      requires recv.Valid()
      modifies this, recv`start, recv`dataLen
      ensures recv.Valid()
      ensures Agrees(R.ReadPayload(old(View()), old(recv.Contents())), ret, View(), recv.Contents())
    {
      if phase != R.Payload {
        return RTMP_OK;
      }
      var requireLen := if remain > chunkSize then chunkSize else remain;
      if !recv.Require(requireLen) {
        return RTMP_NEED_READ_MORE;
      }
      TakePayload(recv, requireLen);
      return RTMP_OK;
    }

    method TakePayload(recv: Buffer, n: nat)
      requires recv.Valid() && n <= |recv.Contents()| && n <= remain
      modifies this, recv`start, recv`dataLen
      ensures recv.Valid() && recv.Contents() == old(recv.Contents())[n..]
      ensures View() == Taken(old(View()), old(recv.Contents())[..n])
    {
      hide Taken;
      var p := recv.Data();
      TakePiece(p[..n]);
      ghost var taken := View();
      assert recv.Contents() == p;
      Drop(recv, n);
      assert View() == taken;
    }

    method TakePiece(piece: seq<byte>)
      requires |piece| <= remain
      modifies this
      ensures View() == Taken(old(View()), piece)
    {
      chunkData := chunkData + piece;
      remain := remain - |piece|;
      if remain <= 0 {
        chunkReady := true;
      }
      phase := R.Header;
    }

    /** The header, then the payload piece, of one chunk. */
    method ReadBody(recv: Buffer, inputFmt: nat, inputCsid: nat) returns (ret: int)
      requires recv.Valid() && inputFmt < 4
      modifies this, recv`start, recv`dataLen
      ensures recv.Valid()
      ensures Agrees(R.ReadBody(old(View()), inputFmt, inputCsid, old(recv.Contents())), ret, View(), recv.Contents())
    {
      hide R.ReadHeader;
      hide R.ReadPayload;
      ret := ReadMessageHeader(recv, inputFmt, inputCsid);
      if ret == RTMP_OK {
        ret := ReadMessagePayload(recv);
      }
    }

    /** The fields a writer sets before gen_data. */
    predicate Describes(m: R.Message)
      reads this
    {
      && fmt < 4 && csid == m.csid && timestamp32 == m.ts && msgLen == |m.payload|
      && typeId == m.typeId && msgStreamId == m.msgStreamId
    }

    method BasicHeader() returns (s: seq<byte>)
      requires fmt < 4
      ensures s == W.BasicHeader(fmt, csid)
    {
      hide Put2;
      if csid < 64 {
        s := [fmt * 64 + csid];
      } else if csid - 64 < 256 {
        s := [fmt * 64, csid % 0x100];
      } else {
        s := [fmt * 64 + 1] + Put2(csid);
      }
    }

    method MessageHeader(ghost m: R.Message) returns (s: seq<byte>)
      requires Describes(m)
      ensures s == W.MessageHeader(fmt, m)
    {
      hide Put3;
      hide Put4;
      if fmt == 0 {
        s := Put3(timestamp32) + Put3(msgLen) + [typeId] + Put4(msgStreamId);
      } else if fmt == 1 {
        s := Put3(timestamp32) + Put3(msgLen) + [typeId];
      } else if fmt == 2 {
        s := Put3(timestamp32);
      } else {
        s := [];
      }
    }

    /** gen_data: appends one chunk to the outgoing bytes. */
    method GenData(data: seq<byte>, ghost m: R.Message)
      requires Describes(m)
      modifies `chunkAll
      ensures chunkAll == old(chunkAll) + W.GenData(fmt, m, data)
    {
      hide W.BasicHeader;
      hide W.MessageHeader;
      var basic := BasicHeader();
      var header := MessageHeader(m);
      chunkAll := chunkAll + (basic + (header + data));
    }

    method Reset()
      modifies this
      ensures View() == R.ResetStream(old(View())) && chunkAll == []
    {
      phase, chunkReady := R.Header, false;
      chunkAll, chunkData := [], [];
    }
  }

  class Session {
    const recv: Buffer
    const handler: R.Handler
    var fmtReady: bool
    var fmt: nat
    var csid: nat
    var csMap: map<byte, ChunkStream>
    var chunkSize: nat
    var log: seq<R.Message>
    var closed: bool
    var sent: seq<seq<byte>>

    ghost predicate Valid()
      reads this, recv
    {
      && recv.Valid() && fmt < 4
      && forall j, k :: j in csMap && k in csMap && j != k ==> csMap[j] != csMap[k]
    }

    ghost function Streams(): map<byte, R.Stream>
      reads `csMap, csMap.Values
    {
      map k | k in csMap :: csMap[k].View()
    }

    ghost function View(): R.Session
      requires recv.Valid()
      reads this, recv, recv.mem, csMap.Values
    {
      R.Session(recv.Contents(), fmtReady, fmt, csid, Streams(), chunkSize, log, closed)
    }

    constructor (handler: R.Handler)
      ensures Valid() && View() == R.NewSession && fresh(recv) && fresh(recv.mem)
      ensures this.handler == handler && csMap == map[]
    {
      recv := new Buffer(EXTRA_LEN);
      this.handler := handler;
      fmtReady, fmt, csid, csMap, chunkSize := false, 0, 0, map[], 128;
      log, closed, sent := [], false, [];
    }

    /** Takes effect for chunk streams created from now on. */
    method SetChunkSize(size: nat)
      requires Valid()
      modifies `chunkSize
      ensures Valid() && View() == old(View()).(chunkSize := size)
    {
      chunkSize := size;
    }

    method Drop(n: nat)
      requires recv.Valid() && n <= |recv.Contents()|
      modifies recv`start, recv`dataLen
      ensures recv.Valid() && recv.Contents() == old(recv.Contents())[n..]
    {
      var _ := recv.Consume(n);
    }

    method ReadFmtCsid() returns (ret: int)
      requires Valid()
      modifies `fmt, `csid, recv`start, recv`dataLen
      ensures Valid()
      ensures var r := R.ReadFmtCsid(old(View()));
              && ret == (if r.Wait? then RTMP_NEED_READ_MORE else RTMP_OK)
              && fmt == r.s.fmt && csid == r.s.csid && recv.Contents() == r.s.buf
    {
      if !recv.Require(1) {
        return RTMP_NEED_READ_MORE;
      }
      var p := recv.Data();
      SetTag(p[0] / 64, p[0] % 64);
      Drop(1);
      if csid == 0 {
        if !recv.Require(1) {
          return RTMP_NEED_READ_MORE;
        }
        Drop(1);
        SetTag(fmt, 64 + p[1] as int);
      } else if csid == 1 {
        if !recv.Require(2) {
          return RTMP_NEED_READ_MORE;
        }
        Drop(2);
        SetTag(fmt, 64 + p[1] as int + p[2] as int);
      }
      return RTMP_OK;
    }

    method SetTag(fmt: nat, csid: nat)
      modifies `fmt, `csid
      ensures this.fmt == fmt && this.csid == csid
    {
      this.fmt, this.csid := fmt, csid;
    }

    /** cs_map_ lookup; a chunk stream seen for the first time captures the chunk size. */
    method FindStream() returns (cs: ChunkStream)
      requires Valid()
      modifies `csMap
      ensures Valid() && csMap == old(csMap)[R.Key(csid) := cs]
      ensures (R.Key(csid) in old(csMap) && csMap == old(csMap)) || (R.Key(csid) !in old(csMap) && fresh(cs))
      ensures cs.View() == R.StreamOf(old(View()))
      ensures View() == old(View()).(streams := old(Streams())[R.Key(csid) := cs.View()])
    {
      if R.Key(csid) in csMap {
        cs := csMap[R.Key(csid)];
        assert csMap == csMap[R.Key(csid) := cs];
      } else {
        cs := new ChunkStream(fmt, csid, chunkSize);
        csMap := csMap[R.Key(csid) := cs];
      }
    }

    /** One stream of the map changes, the others keep their values. */
    method ReadOn(cs: ChunkStream) returns (ret: int)
      requires Valid() && R.Key(csid) in csMap && cs == csMap[R.Key(csid)]
      modifies cs, recv`start, recv`dataLen
      ensures Valid()
      ensures var r := R.ReadBody(old(cs.View()), fmt, csid, old(recv.Contents()));
              && ret == (if r.More? then RTMP_NEED_READ_MORE else RTMP_OK)
              && View() == old(View()).(streams := old(Streams())[R.Key(csid) := r.cs], buf := r.rest)
    {
      hide R.ReadBody;
      ret := cs.ReadBody(recv, fmt, csid);
    }

    method ReadStream() returns (ret: int, cs: ChunkStream)
      requires Valid()
      modifies `csMap, recv`start, recv`dataLen, csMap.Values
      ensures Valid() && csMap == old(csMap)[R.Key(csid) := cs]
      ensures csMap == old(csMap) || fresh(cs)
      ensures var s := old(View());
              var r := R.ReadBody(R.StreamOf(s), s.fmt, s.csid, s.buf);
              && ret == (if r.More? then RTMP_NEED_READ_MORE else RTMP_OK)
              && View() == s.(streams := s.streams[R.Key(s.csid) := r.cs], buf := r.rest)
    {
      hide R.ReadBody;
      hide R.StreamOf;
      ghost var s := View();
      cs := FindStream();
      ret := ReadOn(cs);
      ghost var r := R.ReadBody(R.StreamOf(s), s.fmt, s.csid, s.buf);
      Overwrite(s.streams, R.Key(s.csid), R.StreamOf(s), r.cs);
    }

    method ReadOpen() returns (ret: int, cs: ChunkStream)
      requires Valid()
      modifies `csMap, `fmtReady, recv`start, recv`dataLen, csMap.Values
      ensures Valid() && csMap == old(csMap)[R.Key(csid) := cs]
      ensures csMap == old(csMap) || fresh(cs)
      ensures var r := R.ReadOpen(old(View()));
              ret == (if r.Wait? then RTMP_NEED_READ_MORE else RTMP_OK) && View() == r.s
    {
      hide R.ReadBody;
      hide R.StreamOf;
      ret, cs := ReadStream();
      if ret == RTMP_OK {
        NextHeader();
      }
    }

    method NextHeader()
      requires Valid()
      modifies `fmtReady
      ensures Valid() && View() == old(View()).(fmtReady := false)
    {
      fmtReady := false;
    }

    /** Every chunk stream was there before the call or is new. */
    twostate predicate Grown()
      reads this
    {
      forall k <- csMap :: csMap[k] in old(csMap.Values) || fresh(csMap[k])
    }

    method ReadChunkStream() returns (ret: int, cs: ChunkStream?)
      requires Valid() && !closed
      modifies this, recv`start, recv`dataLen, csMap.Values
      ensures Valid() && Grown() && !closed && sent == old(sent)
      ensures var r := R.ReadChunkStream(old(View()));
              ret == (if r.Wait? then RTMP_NEED_READ_MORE else RTMP_OK) && View() == r.s
      ensures ret == RTMP_OK ==> R.Key(csid) in csMap && cs == csMap[R.Key(csid)] && !fmtReady
    {
      hide R.ReadOpen;
      hide R.ReadFmtCsid;
      if !fmtReady {
        ghost var streams := Streams();
        ret := ReadFmtCsid();
        assert Streams() == streams;
        if ret != RTMP_OK {
          return ret, null;
        }
        fmtReady := true;
        assert Streams() == streams;
      }
      ret, cs := ReadOpen();
    }

    /** Hands a complete message to its handler: what is refused closes the session. */
    method Deliver(cs: ChunkStream) returns (ret: int)
      requires Valid() && !closed && R.Key(csid) in csMap && cs == csMap[R.Key(csid)]
      modifies this, cs, recv`start, recv`end, recv`dataLen
      ensures Valid() && csMap == old(csMap) && sent == old(sent)
      ensures View() == R.Deliver(handler, old(View())) && fmtReady == old(fmtReady)
      ensures ret < RTMP_OK <==> closed
    {
      hide R.Judge;
      if !cs.chunkReady {
        return RTMP_OK;
      }
      Record(cs);
      var verdict := R.Judge(handler, log, chunkSize);
      if verdict.Refuse? {
        Close();
        return -1;
      }
      SetChunkSize(verdict.chunkSize);
      Recycle(cs);
      return RTMP_OK;
    }

    method Record(cs: ChunkStream)
      requires Valid()
      modifies `log
      ensures Valid() && View() == old(View()).(log := old(log) + [R.ToMessage(cs.View())])
    {
      log := log + [R.ToMessage(cs.View())];
    }

    method Close()
      requires Valid()
      modifies `closed, recv`start, recv`end, recv`dataLen
      ensures Valid() && View() == old(View()).(closed := true, buf := [])
    {
      closed := true;
      recv.Reset();
    }

    method Recycle(cs: ChunkStream)
      requires Valid() && R.Key(csid) in csMap && cs == csMap[R.Key(csid)]
      modifies cs
      ensures Valid()
      ensures View() == old(View()).(streams := old(Streams())[R.Key(csid) := R.ResetStream(old(cs.View()))])
    {
      cs.Reset();
    }

    /** One turn of the receive loop; done when it leaves the loop. */
    method Turn() returns (ret: int, done: bool)
      requires Valid() && !closed
      modifies this, recv`start, recv`end, recv`dataLen, csMap.Values
      ensures Valid() && Grown() && sent == old(sent)
      ensures done ==> View() == R.Receive(handler, old(View())) && (ret < RTMP_OK <==> closed)
      ensures !done ==> R.Receive(handler, View()) == R.Receive(handler, old(View())) && !closed
      ensures !done ==> R.Measure(View()) < R.Measure(old(View()))
    {
      hide R.Deliver;
      hide R.ReadChunkStream;
      hide R.Receive;
      G.ReceiveUnfolds(handler, View());
      var cs;
      ret, cs := ReadChunkStream();
      if ret == RTMP_NEED_READ_MORE {
        return ret, true;
      }
      ret := Deliver(cs);
      if ret < RTMP_OK {
        return ret, true;
      }
      if !recv.Require(1) {
        G.NothingToReceive(handler, View());
        return RTMP_NEED_READ_MORE, true;
      }
      return ret, false;
    }

    method ReceiveChunkStream() returns (ret: int)
      requires Valid() && !closed
      modifies this, recv`start, recv`end, recv`dataLen, csMap.Values
      ensures Valid() && Grown() && sent == old(sent)
      ensures View() == R.Receive(handler, old(View()))
      ensures ret < RTMP_OK <==> closed
    {
      hide R.Receive;
      while true
        invariant Valid() && Grown() && !closed && sent == old(sent)
        invariant R.Receive(handler, View()) == R.Receive(handler, old(View()))
        decreases R.Measure(View())
      {
        var done;
        ret, done := Turn();
        if done {
          return ret;
        }
      }
    }

    /** on_read: a piece arrives and everything it completes is delivered; an empty one closes. */
    method OnRead(piece: seq<byte>) returns (ret: int)
      requires Valid() && !closed
      modifies this, recv, recv.mem, csMap.Values
      ensures Valid() && Grown() && sent == old(sent) && (recv.mem == old(recv.mem) || fresh(recv.mem))
      ensures View() == R.Feed(handler, old(View()), piece)
      ensures ret < RTMP_OK <==> closed
    {
      hide R.Receive;
      if piece == [] {
        Close();
        return -1;
      }
      Arrive(piece);
      ret := ReceiveChunkStream();
    }

    method Arrive(piece: seq<byte>)
      requires Valid()
      modifies recv, recv.mem
      ensures Valid() && View() == old(View()).(buf := old(View()).buf + piece)
      ensures recv.mem == old(recv.mem) || fresh(recv.mem)
    {
      ghost var streams := Streams();
      recv.Append(piece);
      assert Streams() == streams;
    }

    method SendChunk(m: R.Message, size: nat, off: nat, len: nat)
      requires size > 0 && off < |m.payload|
      requires len == if off + size < |m.payload| then size else |m.payload| - off
      modifies `sent
      ensures sent == old(sent) + [W.ChunkAt(m, size, off)]
    {
      hide W.GenData;
      hide W.ChunksFrom;
      var c := new ChunkStream(if off == 0 then 0 else 3, m.csid, size);
      c.timestamp32, c.msgLen, c.typeId, c.msgStreamId := m.ts, |m.payload|, m.typeId, m.msgStreamId;
      c.GenData(m.payload[off..off + len], m);
      assert c.fmt == if off == 0 then 0 else 3;
      assert c.chunkAll == [] + W.GenData(c.fmt, m, m.payload[off..off + len]);
      W.ChunkStep(m, size, off, len);
      assert c.chunkAll == W.ChunkAt(m, size, off);
      sent := sent + [c.chunkAll];
    }

    /** write_data_by_chunk_stream: the chunks of one message, sent one by one. */
    method WriteData(m: R.Message, size: nat)
      requires size > 0
      modifies `sent
      ensures sent == old(sent) + W.Chunks(m, size)
    {
      hide W.ChunkAt;
      var total := |m.payload|;
      var count := total / size;
      if total % size > 0 {
        count := count + 1;
      }
      W.ChunkCount(total, size, count);
      var off := 0;
      for index := 0 to count
        invariant off == index * size
        invariant sent + W.ChunksFrom(m, size, off) == old(sent) + W.Chunks(m, size)
      {
        W.ChunkOffset(total, size, count, index);
        var len := if index == count - 1 && total % size > 0 then total % size else size;
        W.ChunkStep(m, size, off, len);
        SendChunk(m, size, off, len);
        W.NextOffset(index, size);
        off := off + size;
      }
    }
  }
}
