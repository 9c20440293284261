/**
 * However TCP cuts the byte stream, the chunk reader ends in the same state with the same
 * messages delivered, unless a cut falls inside a multi-byte basic header: exactly then the
 * bytes already consumed are lost.
 */
module RtmpSegmentation {
  import opened Bytes
  import opened RtmpReader

  function Then(r: Read, more: seq<byte>): Read {
    r.(rest := r.rest + more)
  }

  // ----- one chunk -----

  lemma TimestampExtends(buf: seq<byte>, n: nat, more: seq<byte>)
    requires 3 <= n <= |buf| && !Short(buf, n)
    ensures Get3(buf + more) == Get3(buf)
    ensures Timestamp(buf + more, n) == Timestamp(buf, n)
    ensures AfterTimestamp(buf + more, n) == AfterTimestamp(buf, n) + more
  {
    assert (buf + more)[n..] == buf[n..] + more;
  }

  lemma Format0Extends(cs: Stream, fmt: nat, csid: nat, buf: seq<byte>, more: seq<byte>)
    requires ReadFormat0(cs, fmt, csid, buf).Done?
    ensures ReadFormat0(cs, fmt, csid, buf + more) == Then(ReadFormat0(cs, fmt, csid, buf), more)
  {
    TimestampExtends(buf, FORMAT0_HEADER_LEN, more);
    assert Get3((buf + more)[3..]) == Get3(buf[3..]);
    assert Get4((buf + more)[7..]) == Get4(buf[7..]);
  }

  lemma Format1Extends(cs: Stream, fmt: nat, csid: nat, buf: seq<byte>, more: seq<byte>)
    requires ReadFormat1(cs, fmt, csid, buf).Done?
    ensures ReadFormat1(cs, fmt, csid, buf + more) == Then(ReadFormat1(cs, fmt, csid, buf), more)
  {
    TimestampExtends(buf, FORMAT1_HEADER_LEN, more);
    assert Get3((buf + more)[3..]) == Get3(buf[3..]);
  }

  lemma Format2Extends(cs: Stream, fmt: nat, csid: nat, buf: seq<byte>, more: seq<byte>)
    requires ReadFormat2(cs, fmt, csid, buf).Done?
    ensures ReadFormat2(cs, fmt, csid, buf + more) == Then(ReadFormat2(cs, fmt, csid, buf), more)
  {
    TimestampExtends(buf, FORMAT2_HEADER_LEN, more);
  }

  lemma RepeatExtends(cs: Stream, buf: seq<byte>, more: seq<byte>)
    requires RepeatTimestamp(cs, buf).Done?
    ensures RepeatTimestamp(cs, buf + more) == Then(RepeatTimestamp(cs, buf), more)
  {
    if |buf| >= EXT_TS_LEN {
      Get4Prefix(buf, more);
      assert (buf + more)[EXT_TS_LEN..] == buf[EXT_TS_LEN..] + more;
    }
  }

  lemma SkipExtends(cs: Stream, buf: seq<byte>, more: seq<byte>)
    requires SkipTimestamp(cs, buf).Done?
    ensures SkipTimestamp(cs, buf + more) == Then(SkipTimestamp(cs, buf), more)
  {
    if |buf| >= EXT_TS_LEN {
      Get4Prefix(buf, more);
      assert (buf + more)[EXT_TS_LEN..] == buf[EXT_TS_LEN..] + more;
    }
  }

  lemma Format3Extends(cs: Stream, fmt: nat, csid: nat, buf: seq<byte>, more: seq<byte>)
    requires ReadFormat3(cs, fmt, csid, buf).Done?
    ensures ReadFormat3(cs, fmt, csid, buf + more) == Then(ReadFormat3(cs, fmt, csid, buf), more)
  {
    hide RepeatTimestamp;
    hide SkipTimestamp;
    if cs.remain == 0 {
      RepeatExtends(cs, buf, more);
    } else {
      SkipExtends(cs, buf, more);
    }
  }

  lemma HeaderExtends(cs: Stream, fmt: nat, csid: nat, buf: seq<byte>, more: seq<byte>)
    requires ReadHeader(cs, fmt, csid, buf).Done?
    ensures ReadHeader(cs, fmt, csid, buf + more) == Then(ReadHeader(cs, fmt, csid, buf), more)
  {
    if cs.phase == Header {
      if fmt == 0 {
        Format0Extends(cs, fmt, csid, buf, more);
      } else if fmt == 1 {
        Format1Extends(cs, fmt, csid, buf, more);
      } else if fmt == 2 {
        Format2Extends(cs, fmt, csid, buf, more);
      } else {
        Format3Extends(cs, fmt, csid, buf, more);
      }
    }
  }

  lemma PayloadExtends(cs: Stream, buf: seq<byte>, more: seq<byte>)
    requires ReadPayload(cs, buf).Done?
    ensures ReadPayload(cs, buf + more) == Then(ReadPayload(cs, buf), more)
  {
    if cs.phase == Payload {
      var n := RequireLen(cs);
      assert (buf + more)[..n] == buf[..n];
      assert (buf + more)[n..] == buf[n..] + more;
    }
  }

  /** A chunk read to its end is read the same when more bytes follow it. */
  lemma BodyExtends(cs: Stream, fmt: nat, csid: nat, buf: seq<byte>, more: seq<byte>)
    requires ReadBody(cs, fmt, csid, buf).Done?
    ensures ReadBody(cs, fmt, csid, buf + more) == Then(ReadBody(cs, fmt, csid, buf), more)
  {
    HeaderExtends(cs, fmt, csid, buf, more);
    var r := ReadHeader(cs, fmt, csid, buf);
    PayloadExtends(r.cs, r.rest, more);
  }

  lemma TagRetry(cs: Stream, fmt: nat, csid: nat, buf: seq<byte>, more: seq<byte>)
    requires |buf| >= 3
    ensures Get3(buf + more) == Get3(buf)
    ensures Tag(Tag(cs, fmt, csid, buf), fmt, csid, buf + more) == Tag(cs, fmt, csid, buf + more)
  {
  }

  lemma Format0Retry(cs: Stream, fmt: nat, csid: nat, buf: seq<byte>, more: seq<byte>)
    requires ReadFormat0(cs, fmt, csid, buf).More?
    ensures var r := ReadFormat0(cs, fmt, csid, buf); r.rest == buf && r.cs.phase == cs.phase
    ensures ReadFormat0(ReadFormat0(cs, fmt, csid, buf).cs, fmt, csid, buf + more)
         == ReadFormat0(cs, fmt, csid, buf + more)
  {
    if |buf| >= FORMAT0_HEADER_LEN {
      TagRetry(cs, fmt, csid, buf, more);
    }
  }

  lemma Format1Retry(cs: Stream, fmt: nat, csid: nat, buf: seq<byte>, more: seq<byte>)
    requires ReadFormat1(cs, fmt, csid, buf).More?
    ensures var r := ReadFormat1(cs, fmt, csid, buf); r.rest == buf && r.cs.phase == cs.phase
    ensures ReadFormat1(ReadFormat1(cs, fmt, csid, buf).cs, fmt, csid, buf + more)
         == ReadFormat1(cs, fmt, csid, buf + more)
  {
    if |buf| >= FORMAT1_HEADER_LEN {
      TagRetry(cs, fmt, csid, buf, more);
    }
  }

  lemma Format2Retry(cs: Stream, fmt: nat, csid: nat, buf: seq<byte>, more: seq<byte>)
    requires ReadFormat2(cs, fmt, csid, buf).More?
    ensures var r := ReadFormat2(cs, fmt, csid, buf); r.rest == buf && r.cs.phase == cs.phase
    ensures ReadFormat2(ReadFormat2(cs, fmt, csid, buf).cs, fmt, csid, buf + more)
         == ReadFormat2(cs, fmt, csid, buf + more)
  {
    if |buf| >= FORMAT2_HEADER_LEN {
      TagRetry(cs, fmt, csid, buf, more);
    }
  }

  lemma Format3Retry(cs: Stream, fmt: nat, csid: nat, buf: seq<byte>)
    requires ReadFormat3(cs, fmt, csid, buf).More?
    ensures ReadFormat3(cs, fmt, csid, buf) == More(cs, buf)
  {
    hide Get4;
  }

  lemma HeaderRetry(cs: Stream, fmt: nat, csid: nat, buf: seq<byte>, more: seq<byte>)
    requires ReadHeader(cs, fmt, csid, buf).More?
    ensures ReadHeader(cs, fmt, csid, buf).rest == buf
    ensures ReadHeader(ReadHeader(cs, fmt, csid, buf).cs, fmt, csid, buf + more)
         == ReadHeader(cs, fmt, csid, buf + more)
  {
    hide ReadFormat;
    FormatRetry(cs, fmt, csid, buf, more);
  }

  lemma FormatRetry(cs: Stream, fmt: nat, csid: nat, buf: seq<byte>, more: seq<byte>)
    requires ReadFormat(cs, fmt, csid, buf).More?
    ensures var r := ReadFormat(cs, fmt, csid, buf); r.rest == buf && r.cs.phase == cs.phase
    ensures ReadFormat(ReadFormat(cs, fmt, csid, buf).cs, fmt, csid, buf + more)
         == ReadFormat(cs, fmt, csid, buf + more)
  {
    hide ReadFormat0;
    hide ReadFormat1;
    hide ReadFormat2;
    hide ReadFormat3;
    if fmt == 0 {
      Format0Retry(cs, fmt, csid, buf, more);
    } else if fmt == 1 {
      Format1Retry(cs, fmt, csid, buf, more);
    } else if fmt == 2 {
      Format2Retry(cs, fmt, csid, buf, more);
    } else {
      Format3Retry(cs, fmt, csid, buf);
    }
  }

  /** Waiting in the middle of a chunk and trying again is the same as trying once later. */
  lemma BodyRetry(cs: Stream, fmt: nat, csid: nat, buf: seq<byte>, more: seq<byte>)
    requires ReadBody(cs, fmt, csid, buf).More?
    ensures var r := ReadBody(cs, fmt, csid, buf);
            ReadBody(r.cs, fmt, csid, r.rest + more) == ReadBody(cs, fmt, csid, buf + more)
  {
    var r := ReadHeader(cs, fmt, csid, buf);
    if r.More? {
      HeaderRetry(cs, fmt, csid, buf, more);
    } else {
      HeaderExtends(cs, fmt, csid, buf, more);
    }
  }

  // ----- one call of read_chunk_stream -----

  lemma OpenExtends(s: Session, more: seq<byte>)
    ensures ReadOpen(s).Ok? ==>
              ReadOpen(s.(buf := s.buf + more)) == Ok(ReadOpen(s).s.(buf := ReadOpen(s).s.buf + more))
    ensures ReadOpen(s).Wait? ==>
              var w := ReadOpen(s).s;
              ReadOpen(w.(buf := w.buf + more)) == ReadOpen(s.(buf := s.buf + more))
  {
    hide ReadBody;
    var cs := StreamOf(s);
    if ReadOpen(s).Ok? {
      BodyExtends(cs, s.fmt, s.csid, s.buf, more);
    } else {
      BodyRetry(cs, s.fmt, s.csid, s.buf, more);
      var w := ReadOpen(s).s;
      var a, b := ReadOpen(w.(buf := w.buf + more)).s, ReadOpen(s.(buf := s.buf + more)).s;
      assert a.streams == b.streams;
    }
  }

  /** The buffer holds the first byte of a multi-byte basic header, but not all of it. */
  predicate InsideHeader(s: Session) {
    !s.closed && !s.fmtReady && s.buf != [] && |s.buf| < HeaderLen(s.buf[0])
  }

  lemma FmtCsidExtends(s: Session, more: seq<byte>)
    requires !s.closed && ReadFmtCsid(s).Ok?
    ensures ReadFmtCsid(Append(s, more)) == Ok(Append(ReadFmtCsid(s).s, more))
  {
    hide HeaderLen;
    assert (s.buf + more)[0] == s.buf[0];
    var n := HeaderLen(s.buf[0]);
    assert (s.buf + more)[n..] == s.buf[n..] + more;
  }

  /** One call: a finished chunk is finished the same way, a waiting one can be retried. */
  lemma ReadExtends(s: Session, more: seq<byte>)
    requires !s.closed
    ensures ReadChunkStream(s).Ok? ==>
              var t := ReadChunkStream(s).s;
              !t.closed && ReadChunkStream(Append(s, more)) == Ok(Append(t, more))
    ensures ReadChunkStream(s).Wait? && !InsideHeader(s) ==>
              var w := ReadChunkStream(s).s;
              !w.closed && ReadChunkStream(Append(w, more)) == ReadChunkStream(Append(s, more))
  {
    hide HeaderLen;
    hide HeaderCsid;
    hide ReadBody;
    if s.fmtReady {
      OpenExtends(s, more);
    } else if s.buf != [] {
      var r := ReadFmtCsid(s);
      if r.Ok? {
        FmtCsidExtends(s, more);
        OpenExtends(r.s.(fmtReady := true), more);
      }
    }
  }

  // ----- the receive loop -----

  lemma DeliverExtends(h: Handler, s: Session, more: seq<byte>)
    requires !s.closed && Key(s.csid) in s.streams
    ensures Deliver(h, Append(s, more)) == Append(Deliver(h, s), more)
  {
  }

  /** Where receive_chunk_stream stops to wait, following the loop. */
  function Stop(h: Handler, s: Session): Session
    decreases Measure(s)
  {
    if s.closed then s
    else
      var r := ReadChunkStream(s);
      if r.Wait? then s else Stop(h, Deliver(h, r.s))
  }

  /** The loop ran out of bytes inside a multi-byte basic header. */
  predicate CutsHeader(h: Handler, s: Session) {
    InsideHeader(Stop(h, s))
  }

  /** Receiving what is there and then the rest, or all at once. */
  lemma {:induction false} ResumeReceive(h: Handler, s: Session, more: seq<byte>)
    requires !CutsHeader(h, s)
    ensures Receive(h, Append(Receive(h, s), more)) == Receive(h, Append(s, more))
    decreases Measure(s)
  {
    hide Deliver;
    hide ReadOpen;
    var r := ReadChunkStream(s);
    if s.closed {
      assert Receive(h, s) == s;
    } else if r.Wait? {
      ReadExtends(s, more);
    } else {
      OneStep(h, s, more);
      ResumeReceive(h, Deliver(h, r.s), more);
    }
  }

  /** With no byte left, the loop keeps the current format and csid and consumes nothing. */
  lemma ReceiveEmpty(h: Handler, s: Session)
    requires s.buf == [] && !s.closed
    ensures var t := Receive(h, s); t.fmt == s.fmt && t.csid == s.csid && t.buf == []
  {
    hide ReadBody;
    var r := ReadChunkStream(s);
    if r.Ok? {
      var t := Deliver(h, r.s);
      assert t.buf == [] && !t.fmtReady && t.csid == s.csid;
      assert Receive(h, t) == t;
    }
  }

  /** A single byte announces no csid from 64 on. */
  lemma {:induction false} ReceiveLastByte(h: Handler, s: Session)
    requires |s.buf| <= 1 && s.csid < 64
    ensures Receive(h, s).csid < 64
    decreases Measure(s)
  {
    hide ReadOpen;
    hide Deliver;
    var r := ReadChunkStream(s);
    StepOnLastByte(s);
    if s.closed || r.Wait? {
      assert Receive(h, s) == if s.closed then s else r.s;
    } else {
      DeliverKeepsCsid(h, r.s);
      ReceiveLastByte(h, Deliver(h, r.s));
    }
  }

  lemma StepOnLastByte(s: Session)
    requires |s.buf| <= 1 && s.csid < 64
    ensures ReadChunkStream(s).s.csid < 64 && |ReadChunkStream(s).s.buf| <= 1
  {
    hide ReadBody;
  }

  lemma DeliverKeepsCsid(h: Handler, s: Session)
    requires Key(s.csid) in s.streams
    ensures Deliver(h, s).csid == s.csid && |Deliver(h, s).buf| <= |s.buf|
  {
  }

  lemma LostFirstByte(h: Handler, s: Session)
    requires InsideHeader(s) && |s.buf| == 1
    ensures Receive(h, Append(Receive(h, s), [2])) != Receive(h, Append(s, [2]))
  {
    hide ReadOpen;
    hide Deliver;
    var low := s.buf[0] % 64;
    var lost := s.(fmt := s.buf[0] / 64, csid := low, buf := []);
    assert Receive(h, s) == lost;
    var split := lost.(fmt := 0, csid := 2, fmtReady := true);
    assert Append(lost, [2]).buf == [2];
    assert ReadFmtCsid(Append(lost, [2])) == Ok(split.(fmtReady := false));
    SameLoop(h, Append(lost, [2]), split);
    ReceiveEmpty(h, split);
    var both := s.buf + [2];
    assert both[1..] == [2] && [2][1..] == [];
    if low == 0 {
      var whole := s.(fmt := s.buf[0] / 64, csid := 66, buf := [], fmtReady := true);
      assert ReadFmtCsid(Append(s, [2])) == Ok(whole.(fmtReady := false));
      SameLoop(h, Append(s, [2]), whole);
      ReceiveEmpty(h, whole);
    } else {
      assert Receive(h, Append(s, [2])).buf == [2];
    }
  }

  /** The loop goes on from a complete basic header as from the state after it. */
  lemma SameLoop(h: Handler, s: Session, t: Session)
    requires !s.closed && !s.fmtReady && ReadFmtCsid(s) == Ok(t.(fmtReady := false)) && t.fmtReady && !t.closed
    ensures Receive(h, s) == Receive(h, t)
  {
    hide ReadOpen;
    hide Deliver;
    assert ReadChunkStream(s) == ReadChunkStream(t);
  }

  /** The state behind a three-byte header whose first byte is in the buffer with b. */
  function Opened(s: Session, b: byte, c: byte, rest: seq<byte>): Session
    requires s.buf != []
  {
    s.(fmt := s.buf[0] / 64, csid := 64 + b as int + c as int, buf := rest, fmtReady := true)
  }

  lemma UncutHeader(h: Handler, s: Session, c: byte, rest: seq<byte>)
    requires InsideHeader(s) && |s.buf| == 2
    ensures Receive(h, Append(s, [c] + rest)) == Receive(h, Opened(s, s.buf[1], c, rest))
  {
    hide ReadOpen;
    hide Deliver;
    var all := s.buf + ([c] + rest);
    assert all[3..] == rest && all[2] == c;
    SameLoop(h, Append(s, [c] + rest), Opened(s, s.buf[1], c, rest));
  }

  /** What the cut leaves of two bytes of a three-byte header: the second one. */
  lemma SecondByteLeft(h: Handler, s: Session)
    requires InsideHeader(s) && |s.buf| == 2
    ensures Receive(h, s) == s.(fmt := s.buf[0] / 64, csid := 1, buf := [s.buf[1]])
  {
    hide ReadOpen;
    hide Deliver;
    assert s.buf[1..] == [s.buf[1]];
  }

  /**
   * Two bytes of a three-byte header, cut before the third: a zero byte shows the loss, unless
   * the second byte announces the same header again, with the format and csid of the first.
   */
  lemma LostSecondByte(h: Handler, s: Session)
    requires InsideHeader(s) && |s.buf| == 2 && s.buf != [1, 0]
    ensures Receive(h, Append(Receive(h, s), [0])) != Receive(h, Append(s, [0]))
  {
    hide ReadOpen;
    hide Deliver;
    var b := s.buf[1];
    SecondByteLeft(h, s);
    assert [0] + [] == [0];
    UncutHeader(h, s, 0, []);
    ReceiveEmpty(h, Opened(s, b, 0, []));
    var lost := s.(fmt := s.buf[0] / 64, csid := 1, buf := [b, 0]);
    assert Append(Receive(h, s), [0]) == lost;
    assert s.buf[0] % 64 == 1 && (b == 0 ==> s.buf[0] != 1);
    hide Receive;
    ReadFromSecondByte(h, lost, b);
  }

  /** From the second byte and a zero: a one-byte header, a two-byte header, or too little. */
  lemma ReadFromSecondByte(h: Handler, s: Session, b: byte)
    requires !s.closed && !s.fmtReady && s.buf == [b, 0]
    ensures var t := Receive(h, s);
            if HeaderLen(b) == 2 then t.csid == 64 && t.fmt == b / 64
            else if HeaderLen(b) == 1 then t.csid < 64
            else t.buf == [0]
  {
    hide ReadOpen;
    hide Deliver;
    assert [b, 0][1..] == [0] && [b, 0][2..] == [];
    if HeaderLen(b) == 1 {
      var t := s.(fmt := b / 64, csid := b % 64, buf := [0], fmtReady := true);
      SameLoop(h, s, t);
      ReceiveLastByte(h, t);
    } else if HeaderLen(b) == 2 {
      var t := s.(fmt := b / 64, csid := 64, buf := [], fmtReady := true);
      SameLoop(h, s, t);
      ReceiveEmpty(h, t);
    }
  }

  /** After 01 00 the byte left over is itself a two-byte header with the same meaning. */
  lemma HarmlessCut(h: Handler, s: Session, more: seq<byte>)
    requires InsideHeader(s) && s.buf == [1, 0] && more != []
    ensures Receive(h, Append(Receive(h, s), more)) == Receive(h, Append(s, more))
  {
    hide ReadOpen;
    hide Deliver;
    SecondByteLeft(h, s);
    var c, rest := more[0], more[1..];
    assert more == [c] + rest;
    UncutHeader(h, s, c, rest);
    var left := s.(fmt := 0, csid := 1, buf := [0]);
    assert s.buf[0] == 1 && s.buf[1] == 0;
    assert Receive(h, s) == left;
    hide Receive;
    TwoByteHeader(Append(left, more), c, rest);
    SameLoop(h, Append(left, more), Opened(s, 0, c, rest));
  }

  lemma TwoByteHeader(s: Session, c: byte, rest: seq<byte>)
    requires s.buf == [0] + ([c] + rest)
    ensures ReadFmtCsid(s) == Ok(s.(fmt := 0, csid := 64 + c as int, buf := rest))
  {
    assert s.buf[2..] == rest && s.buf[1] == c && s.buf[0] == 0;
  }

  /** The cut loses nothing: it is outside every multi-byte header, or behind the bytes 01 00. */
  predicate Harmless(h: Handler, s: Session) {
    !CutsHeader(h, s) || Stop(h, s).buf == [1, 0]
  }

  /** Any other cut inside a header shows: some continuation ends in a different state. */
  lemma {:induction false} CutShows(h: Handler, s: Session)
    requires !Harmless(h, s)
    ensures exists more :: more != [] && Receive(h, Append(Receive(h, s), more)) != Receive(h, Append(s, more))
    decreases Measure(s)
  {
    hide Deliver;
    hide ReadOpen;
    var r := ReadChunkStream(s);
    if r.Ok? {
      var d := Deliver(h, r.s);
      assert Stop(h, s) == Stop(h, d);
      CutShows(h, d);
      var more :| more != [] && Receive(h, Append(Receive(h, d), more)) != Receive(h, Append(d, more));
      OneStep(h, s, more);
    } else if |s.buf| == 1 {
      LostFirstByte(h, s);
      assert [2] != [];
    } else {
      LostSecondByte(h, s);
      assert [0] != [];
    }
  }

  /** Receiving in two parts equals receiving at once also behind 01 00, once a byte follows. */
  lemma {:induction false} HarmlessResumes(h: Handler, s: Session, more: seq<byte>)
    requires Harmless(h, s) && more != []
    ensures Receive(h, Append(Receive(h, s), more)) == Receive(h, Append(s, more))
    decreases Measure(s)
  {
    hide Deliver;
    hide ReadOpen;
    if !CutsHeader(h, s) {
      ResumeReceive(h, s, more);
    } else {
      var r := ReadChunkStream(s);
      if r.Ok? {
        assert Stop(h, s) == Stop(h, Deliver(h, r.s));
        OneStep(h, s, more);
        HarmlessResumes(h, Deliver(h, r.s), more);
      } else {
        HarmlessCut(h, s, more);
      }
    }
  }

  lemma ReceiveUnfolds(h: Handler, s: Session)
    requires !s.closed
    ensures var r := ReadChunkStream(s);
            Receive(h, s) == if r.Wait? then r.s else Receive(h, Deliver(h, r.s))
    ensures forall t: Session {:trigger Receive(h, t)} :: t.closed ==> Receive(h, t) == t
  {
    hide ReadChunkStream;
    hide Deliver;
  }

  lemma OneStep(h: Handler, s: Session, more: seq<byte>)
    requires !s.closed && ReadChunkStream(s).Ok?
    ensures var d := Deliver(h, ReadChunkStream(s).s);
            Receive(h, s) == Receive(h, d) && Receive(h, Append(s, more)) == Receive(h, Append(d, more))
  {
    hide ReadChunkStream;
    hide Deliver;
    ReadExtends(s, more);
    var r := ReadChunkStream(s).s;
    DeliverExtends(h, r, more);
  }

  /**
   * Cutting the stream after a is invisible, whatever follows, if and only if the reader is not
   * inside a multi-byte basic header at that point, or has just the bytes 01 00 of one.
   */
  lemma CutIsSafe(h: Handler, s: Session, a: seq<byte>)
    requires a != []
    ensures (forall more | more != [] :: Feed(h, Feed(h, s, a), more) == Feed(h, s, a + more))
            <==> Harmless(h, Append(s, a))
  {
    hide Receive;
    hide Stop;
    hide Harmless;
    var t := Append(s, a);
    if Harmless(h, t) {
      forall more | more != [] ensures Feed(h, Feed(h, s, a), more) == Feed(h, s, a + more) {
        AppendTwice(s, a, more);
        HarmlessResumes(h, t, more);
      }
    } else {
      CutShows(h, t);
      var more :| more != [] && Receive(h, Append(Receive(h, t), more)) != Receive(h, Append(t, more));
      AppendTwice(s, a, more);
      assert Feed(h, Feed(h, s, a), more) != Feed(h, s, a + more);
    }
  }

  lemma AppendTwice(s: Session, a: seq<byte>, b: seq<byte>)
    ensures Append(Append(s, a), b) == Append(s, a + b)
  {
    assert s.buf + (a + b) == (s.buf + a) + b;
  }

  // ----- whole streams -----

  /** The receive loop has used up every byte and no chunk is open. */
  predicate Boundary(s: Session) {
    !s.closed && !s.fmtReady && s.buf == []
  }

  /** on_read is never given an empty piece, except to report that the connection is gone. */
  predicate NonEmpty(pieces: seq<seq<byte>>) {
    forall p <- pieces :: p != []
  }

  lemma SomethingCarried(pieces: seq<seq<byte>>)
    requires NonEmpty(pieces)
    ensures Concat(pieces) == [] <==> pieces == []
  {
    if pieces != [] {
      assert pieces[0] in pieces;
    }
  }

  /** Every basic header the loop meets is the one-byte form, csid 2 to 63. */
  predicate OneByteHeaders(h: Handler, s: Session)
    decreases Measure(s)
  {
    s.closed ||
    (&& (!s.fmtReady && s.buf != [] ==> HeaderLen(s.buf[0]) == 1)
     && var r := ReadChunkStream(s);
        r.Ok? ==> OneByteHeaders(h, Deliver(h, r.s)))
  }

  lemma NothingToReceive(h: Handler, s: Session)
    requires Boundary(s)
    ensures Receive(h, s) == s && OneByteHeaders(h, s)
  {
    hide ReadOpen;
  }

  lemma {:induction false} OneByteNeverCut(h: Handler, s: Session)
    requires OneByteHeaders(h, s)
    ensures !CutsHeader(h, s)
    decreases Measure(s)
  {
    hide Deliver;
    hide ReadOpen;
    if s.closed || ReadChunkStream(s).Wait? {
      assert Stop(h, s) == s;
    } else {
      OneByteNeverCut(h, Deliver(h, ReadChunkStream(s).s));
    }
  }

  lemma {:induction false} OneByteSplits(h: Handler, s: Session, more: seq<byte>)
    requires OneByteHeaders(h, Append(s, more))
    ensures OneByteHeaders(h, s)
    ensures OneByteHeaders(h, Append(Receive(h, s), more))
    decreases Measure(s)
  {
    hide Deliver;
    hide ReadOpen;
    hide HeaderLen;
    var r := ReadChunkStream(s);
    if s.closed {
      assert Receive(h, s) == s;
    } else if r.Wait? {
      ReadExtends(s, more);
      WaitKeepsOpen(s);
    } else {
      ReadExtends(s, more);
      DeliverExtends(h, r.s, more);
      OneByteSplits(h, Deliver(h, r.s), more);
    }
  }

  /** The reader waits either inside a chunk or with nothing buffered. */
  lemma WaitKeepsOpen(s: Session)
    requires !s.closed && ReadChunkStream(s).Wait? && !InsideHeader(s)
    ensures ReadChunkStream(s).s.fmtReady || (ReadChunkStream(s).s == s && s.buf == [])
  {
    hide ReadBody;
    hide HeaderLen;
  }

  lemma FirstPiece(pieces: seq<seq<byte>>)
    requires NonEmpty(pieces) && pieces != []
    ensures pieces[0] != []
  {
    assert pieces[0] in pieces;
  }

  lemma FewerPieces(pieces: seq<seq<byte>>)
    requires NonEmpty(pieces) && pieces != []
    ensures NonEmpty(pieces[1..])
  {
    assert forall p <- pieces[1..] :: p in pieces;
  }

  /** One-byte headers: feeding piece by piece equals feeding the concatenation at once. */
  lemma {:induction false} PiecesAsOne(h: Handler, s: Session, pieces: seq<seq<byte>>)
    requires pieces != [] && NonEmpty(pieces)
    requires OneByteHeaders(h, Append(s, Concat(pieces)))
    ensures FeedAll(h, s, pieces) == Feed(h, s, Concat(pieces))
    decreases |pieces|
  {
    hide Receive;
    hide OneByteHeaders;
    hide NonEmpty;
    SomethingCarried(pieces);
    var a, rest := pieces[0], Concat(pieces[1..]);
    FirstPiece(pieces);
    var t := Append(s, a);
    AppendTwice(s, a, rest);
    OneByteSplits(h, t, rest);
    OneByteNeverCut(h, t);
    if |pieces| == 1 {
      assert a + rest == a;
    } else {
      FewerPieces(pieces);
      SomethingCarried(pieces[1..]);
      PiecesAsOne(h, Feed(h, s, a), pieces[1..]);
      ResumeReceive(h, t, rest);
    }
  }

  /** Reader state and delivered messages depend only on the concatenation of the pieces. */
  lemma SegmentationIndependent(h: Handler, s: Session, p: seq<seq<byte>>, q: seq<seq<byte>>)
    requires NonEmpty(p) && NonEmpty(q) && Concat(p) == Concat(q)
    requires OneByteHeaders(h, Append(s, Concat(p)))
    ensures FeedAll(h, s, p) == FeedAll(h, s, q)
  {
    SomethingCarried(p);
    SomethingCarried(q);
    if p != [] {
      PiecesAsOne(h, s, p);
      PiecesAsOne(h, s, q);
    }
  }

  /** The bad cut is reachable: a fresh session given only the first byte of a two-byte header. */
  lemma TwoByteHeaderCut(h: Handler)
    ensures exists more :: more != [] && Feed(h, Feed(h, NewSession, [0]), more) != Feed(h, NewSession, [0] + more)
  {
    hide Receive;
    var s := Append(NewSession, [0]);
    assert s.buf == [0] && ReadChunkStream(s).Wait?;
    assert Stop(h, s) == s;
    CutIsSafe(h, NewSession, [0]);
  }

  /** So is the harmless one: a fresh session given the first two bytes 01 00 of a three-byte header. */
  lemma ThreeByteHeaderCut(h: Handler, more: seq<byte>)
    requires more != []
    ensures CutsHeader(h, Append(NewSession, [1, 0]))
    ensures Feed(h, Feed(h, NewSession, [1, 0]), more) == Feed(h, NewSession, [1, 0] + more)
  {
    hide Receive;
    hide ReadOpen;
    hide Deliver;
    var s := Append(NewSession, [1, 0]);
    assert s.buf == [1, 0];
    assert ReadFmtCsid(s).Wait?;
    assert Stop(h, s) == s;
    hide ReadFmtCsid;
    AppendTwice(NewSession, [1, 0], more);
    HarmlessCut(h, s, more);
  }
}
