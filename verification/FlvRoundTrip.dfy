/** The demuxer under any segmentation, and what it recovers from the two writers. */
module FlvRoundTrip {
  import opened Bytes
  import opened Flv

  // ----- segmentation -----

  function Then(r: Part, more: seq<byte>): Part {
    r.(d := Add(r.d, more))
  }

  lemma FileHeaderExtends(d: Demux, more: seq<byte>)
    ensures var r := FileHeaderPart(d);
            if r.NeedMore? then r.d == d else FileHeaderPart(Add(d, more)) == Then(r, more)
    ensures FileHeaderPart(d).Fail? ==>
              FileHeaderPart(Add(FileHeaderPart(d).d, more)) == FileHeaderPart(Add(d, more))
  {
    var b := d.buf;
    if !d.headerReady && |b| >= HEADER_LEN + TAG_PRE_SIZE {
      assert (b + more)[..3] == b[..3] && (b + more)[5..9] == b[5..9];
      assert (b + more)[HEADER_LEN + TAG_PRE_SIZE..] == b[HEADER_LEN + TAG_PRE_SIZE..] + more;
    }
  }

  lemma TagHeaderExtends(d: Demux, more: seq<byte>)
    ensures var r := TagHeaderPart(d);
            if r.NeedMore? then r.d == d else r.Go? && TagHeaderPart(Add(d, more)) == Then(r, more)
  {
    hide Get3;
    var b := d.buf;
    if !d.tagReady && |b| >= TAG_HEADER_LEN {
      assert (b + more)[TAG_HEADER_LEN..] == b[TAG_HEADER_LEN..] + more;
      assert (b + more)[1..] == b[1..] + more && (b + more)[4..] == b[4..] + more;
      Get3Prefix(b[1..], more);
      Get3Prefix(b[4..], more);
    }
  }

  lemma TagBodyExtends(d: Demux, more: seq<byte>)
    ensures var r := TagBodyPart(d);
            if r.NeedMore? then r.d == d else TagBodyPart(Add(d, more)) == Then(r, more)
    ensures TagBodyPart(d).Fail? ==> TagBodyPart(d).d == d
  {
    hide ParseAudio;
    hide ParseVideo;
    var n := d.tagSize + TAG_PRE_SIZE;
    if |d.buf| >= n {
      assert (d.buf + more)[..d.tagSize] == d.buf[..d.tagSize];
      assert (d.buf + more)[n..] == d.buf[n..] + more;
    }
  }

  /** A complete step is the same with more bytes behind it; a stopped one can be retried. */
  lemma HandleExtends(d: Demux, more: seq<byte>)
    ensures var r := Handle(d);
            if r.Go? then Handle(Add(d, more)) == Then(r, more)
            else Handle(Add(r.d, more)) == Handle(Add(d, more))
  {
    hide FileHeaderPart;
    hide TagHeaderPart;
    hide TagBodyPart;
    var a := FileHeaderPart(d);
    FileHeaderExtends(d, more);
    if a.Go? {
      var b := TagHeaderPart(a.d);
      TagHeaderExtends(a.d, more);
      HeaderDone(d, a.d);
      FileHeaderExtends(a.d, more);
      if b.Go? {
        TagBodyExtends(b.d, more);
        HeaderDone(a.d, b.d);
        FileHeaderExtends(b.d, more);
        TagHeaderExtends(b.d, more);
      }
    }
  }

  /** The file header and the tag header are read once. */
  lemma HeaderDone(d: Demux, e: Demux)
    ensures FileHeaderPart(d) == Go(e) ==> FileHeaderPart(e) == Go(e)
    ensures TagHeaderPart(d) == Go(e) ==> TagHeaderPart(e) == Go(e)
    ensures d.headerReady && TagHeaderPart(d) == Go(e) ==> FileHeaderPart(e) == Go(e)
    ensures FileHeaderPart(d) == Go(e) ==> e.headerReady
  {
  }

  lemma {:induction false} LoopResumes(d: Demux, more: seq<byte>)
    ensures Loop(Add(Loop(d).d, more)) == Loop(Add(d, more))
    decreases |d.buf|
  {
    hide Handle;
    HandleExtends(d, more);
    var r := Handle(d);
    if !r.Go? {
      assert Loop(d) == r;
    } else {
      LoopResumes(r.d, more);
    }
  }

  /** Reader state and packets depend only on the concatenation of the pieces. */
  lemma {:induction false} PiecesAsOne(d: Demux, pieces: seq<seq<byte>>)
    requires pieces != []
    ensures InputAll(d, pieces) == Input(d, Concat(pieces))
    decreases |pieces|
  {
    hide Loop;
    var a, rest := pieces[0], Concat(pieces[1..]);
    assert d.buf + (a + rest) == (d.buf + a) + rest;
    if |pieces| == 1 {
      assert a + rest == a;
    } else {
      PiecesAsOne(Input(d, a), pieces[1..]);
      LoopResumes(Add(d, a), rest);
    }
  }

  // ----- the bytes -----

  /** Frame type or sound format, and codec, of the first byte of the media data. */
  function MediaByte(p: Packet): byte
    requires Supported(p)
  {
    var key := p.isKey || p.isSeqHdr;
    match p.codec
    case H264 => if key then 0x17 else 0x27
    case H265 => if key then 0x1c else 0x2c
    case VP8 => if key then 0x1e else 0x2e
    case VP9 => if key then 0x1f else 0x2f
    case AAC => 0xaf
    case Opus => 0x9f
    case OtherCodec => 0
  }

  /** The two bytes in front of every medium, and the composition time of video. */
  lemma MediaLayout(p: Packet)
    requires Supported(p)
    ensures var m := MediaHeader(p);
            && |m| == (if p.av == Audio then 2 else 5)
            && m[0] == MediaByte(p) && m[1] == (if p.isSeqHdr then 0 else 1)
            && (p.av == Video && p.dts <= p.pts < p.dts + 0x100_0000 ==> m[2..] == Put3(p.pts - p.dts))
            && (p.av == Video && p.pts < p.dts ==> m[2..] == [0, 0, 0])
  {
    if p.av == Video {
      SmallDelta(p);
      assert MediaHeader(p)[2..] == Put3(TsDelta(p));
      assert Put3(0) == [0, 0, 0];
    }
  }

  lemma SmallDelta(p: Packet)
    ensures p.dts <= p.pts < p.dts + 0x100_0000 ==> TsDelta(p) == p.pts - p.dts
    ensures p.pts < p.dts ==> TsDelta(p) == 0
  {
  }

  /** A tag byte by byte: its header, the media header, the data and the size of all of that. */
  lemma TagLayout(p: Packet, ext: byte)
    requires Supported(p)
    ensures var t, n := Tag(p, ext), |MediaHeader(p)| + |p.data|;
            && |t| == 11 + n + 4 && t[0] == (if p.av == Audio then 8 else 9)
            && t[1..4] == Put3(n) && t[4..7] == Put3(p.dts % 0x100_0000) && t[7..11] == [ext, 0, 0, 1]
            && t[11] == MediaByte(p) && t[12] == (if p.isSeqHdr then 0 else 1)
            && t[11..11 + n] == MediaHeader(p) + p.data
            && t[11 + n..] == Put4(11 + n)
  {
    hide Put3;
    hide Put4;
    MediaLayout(p);
    hide MediaHeader;
    hide MediaByte;
    var body := MediaHeader(p) + p.data;
    var t := Tag(p, ext);
    var head, rest := [t[0]] + Put3(|body|) + Put3(p.dts % U24) + [ext, 0, 0, 1], Put4(TAG_HEADER_LEN + |body|);
    assert t == head + body + rest;
    assert |head| == 11;
    assert t[11..11 + |body|] == body && t[11 + |body|..] == rest;
    assert t[11] == body[0] && t[12] == body[1];
  }

  lemma FileHeaderLayout(hasVideo: bool, hasAudio: bool)
    ensures var r := FileHeader(hasVideo, hasAudio);
            && |r| == 13 && r[..4] == ['F' as int, 'L' as int, 'V' as int, 1] && r[5..] == [0, 0, 0, 9, 0, 0, 0, 0]
            && r[4] == (if hasVideo && hasAudio then 5 else if hasAudio then 4 else if hasVideo then 1 else 0)
  {
  }

  /** What the demuxer takes any video tag for, whoever wrote it; frame types other than key are all alike. */
  lemma VideoMeans(ts: nat, body: seq<byte>)
    ensures ParseVideo(ts, body).Bad? <==>
            |body| < 5 || body[0] % 16 !in {7, 12, 14, 15} || (body[0] / 16 == 1 && body[1] > 1)
    ensures ParseVideo(ts, body).Good? ==>
      var p := ParseVideo(ts, body).p;
      && p.av == Video && p.dts == ts && p.data == body[5..]
      && p.codec == (if body[0] % 16 == 7 then H264 else if body[0] % 16 == 12 then H265
                     else if body[0] % 16 == 14 then VP8 else VP9)
      && (p.isKey <==> body[0] / 16 == 1 && body[1] == 1) && (p.isSeqHdr <==> body[0] / 16 == 1 && body[1] == 0)
      && p.pts == (ts + 65536 * (body[2] as int) + 256 * (body[3] as int) + body[4]) % 0x1_0000_0000
  {
    if |body| >= 5 {
      assert Get3(body[2..]) == 65536 * (body[2] as int) + 256 * (body[3] as int) + body[4];
    }
  }

  lemma AudioMeans(ts: nat, body: seq<byte>)
    ensures ParseAudio(ts, body).Bad? <==> |body| < 2 || body[0] / 16 !in {10, 9}
    ensures ParseAudio(ts, body).Good? ==>
      ParseAudio(ts, body).p
        == Packet(Audio, if body[0] / 16 == 10 then AAC else Opus, false, body[1] == 0, ts, ts, body[2..])
  {
  }

  // ----- one tag -----

  /** What comes back for p when the upper timestamp byte sent was ext. */
  function Back(p: Packet, ext: byte): Packet {
    var dts := p.dts % U24 + ext as int * U24;
    p.(dts := dts,
       pts := if p.av == Audio then dts else (dts + TsDelta(p) % U24) % U32,
       isKey := p.av == Video && p.isKey && !p.isSeqHdr)
  }

  predicate Fits(p: Packet) {
    Supported(p) && |MediaHeader(p)| + |p.data| < U24
  }

  lemma ParsesBack(p: Packet, ext: byte)
    requires Fits(p)
    ensures var ts := p.dts % U24 + ext as int * U24;
            var body := MediaHeader(p) + p.data;
            (if p.av == Audio then ParseAudio(ts, body) else ParseVideo(ts, body)) == Good(Back(p, ext))
  {
    hide Put3;
    hide Get3;
    var body := MediaHeader(p) + p.data;
    assert body[|MediaHeader(p)|..] == p.data;
    if p.av == Video {
      assert body[2..] == Put3(TsDelta(p)) + p.data;
      Get3Prefix(Put3(TsDelta(p)), p.data);
    }
  }

  /** Eleven header bytes in front of a tail. */
  lemma HeaderFields(t: byte, size: seq<byte>, ts: seq<byte>, ext: byte, tail: seq<byte>)
    requires |size| == 3 && |ts| == 3
    ensures var buf := [t] + (size + (ts + ([ext, 0, 0, 1] + tail)));
            && |buf| == TAG_HEADER_LEN + |tail| && buf[0] == t && buf[7] == ext
            && Get3(buf[1..]) == Get3(size) && Get3(buf[4..]) == Get3(ts) && buf[TAG_HEADER_LEN..] == tail
  {
    hide Get3;
    var a := ts + ([ext, 0, 0, 1] + tail);
    var buf := [t] + (size + a);
    assert buf[1..] == size + a;
    assert buf[4..] == a;
    Get3Prefix(size, a);
    Get3Prefix(ts, [ext, 0, 0, 1] + tail);
  }

  lemma TagHeaderFields(p: Packet, ext: byte, more: seq<byte>)
    requires Fits(p)
    ensures var body := MediaHeader(p) + p.data; var buf := Tag(p, ext) + more;
            && |buf| >= TAG_HEADER_LEN
            && buf[0] == (if p.av == Audio then TAG_AUDIO else TAG_VIDEO)
            && Get3(buf[1..]) == |body| && Get3(buf[4..]) == p.dts % U24 && buf[7] == ext
            && buf[TAG_HEADER_LEN..] == body + Put4(TAG_HEADER_LEN + |body|) + more
  {
    hide Put3;
    hide Get3;
    hide Put4;
    hide MediaHeader;
    var body := MediaHeader(p) + p.data;
    var size, ts, pre := Put3(|body|), Put3(p.dts % U24), Put4(TAG_HEADER_LEN + |body|);
    var t := if p.av == Audio then TAG_AUDIO else TAG_VIDEO;
    assert Tag(p, ext) == [t] + size + ts + [ext, 0, 0, 1] + body + pre;
    hide Tag;
    FromTheRight([t], size, ts, [ext, 0, 0, 1], body, pre, more);
    HeaderFields(t, size, ts, ext, body + pre + more);
  }

  lemma FromTheRight(
    a: seq<byte>, b: seq<byte>, c: seq<byte>, d: seq<byte>, e: seq<byte>, f: seq<byte>, more: seq<byte>)
    ensures a + b + c + d + e + f + more == a + (b + (c + (d + (e + f + more))))
  {
  }

  /** Between tags, after the file header. */
  predicate Ready(d: Demux) {
    d.headerReady && !d.tagReady && d.buf == []
  }

  lemma HandleTag(d: Demux, p: Packet, ext: byte, more: seq<byte>)
    requires Ready(d) && Fits(p)
    ensures exists e :: Ready(e) && e.out == d.out + [Back(p, ext)]
                        && Handle(Add(d, Tag(p, ext) + more)) == Go(Add(e, more))
  {
    hide ParseAudio;
    hide ParseVideo;
    hide Back;
    hide Get3;
    hide Tag;
    hide MediaHeader;
    var body := MediaHeader(p) + p.data;
    var start := Add(d, Tag(p, ext) + more);
    assert start.buf == Tag(p, ext) + more;
    TagHeaderFields(p, ext, more);
    ParsesBack(p, ext);
    var t := TagHeaderPart(start).d;
    var pre := Put4(TAG_HEADER_LEN + |body|);
    assert t.buf == body + pre + more;
    assert t.buf[..|body|] == body && t.buf[|body| + TAG_PRE_SIZE..] == more;
    var e := t.(buf := [], tagReady := false, out := d.out + [Back(p, ext)]);
    assert Add(e, more).buf == more;
    assert TagBodyPart(t) == Go(Add(e, more));
  }

  // ----- whole streams -----

  /** The tags of the supported packets, each with the upper timestamp byte ext gives it. */
  function Tags(ps: seq<Packet>, ext: Packet -> byte): seq<byte>
    requires forall p <- ps :: Fits(p)
    decreases |ps|
  {
    if ps == [] then []
    else
      assert Fits(ps[0]);
      Tag(ps[0], ext(ps[0])) + Tags(ps[1..], ext)
  }

  function BackAll(ps: seq<Packet>, ext: Packet -> byte): seq<Packet> {
    seq(|ps|, i requires 0 <= i < |ps| => Back(ps[i], ext(ps[i])))
  }

  /** A tag of any other type, script data for one, is read over. */
  lemma OtherTagSkipped(d: Demux, t: byte, time: seq<byte>, body: seq<byte>, size: seq<byte>, more: seq<byte>)
    returns (e: Demux)
    requires Ready(d) && t != 8 && t != 9 && |time| == 7 && |body| < 0x100_0000 && |size| == 4
    ensures Ready(e) && e.out == d.out
    ensures Handle(Add(d, [t] + Put3(|body|) + time + body + size + more)) == Go(Add(e, more))
  {
    var n := Put3(|body|);
    hide Put3;
    hide Handle;
    var rest := body + size + more;
    assert [t] + n + time + body + size + more == [t] + n + time + rest;
    e := SkippedIn(d, t, n, time, rest, body, size, more);
  }

  lemma SkippedIn(
    d: Demux, t: byte, n: seq<byte>, time: seq<byte>, rest: seq<byte>, body: seq<byte>, size: seq<byte>, more: seq<byte>)
    returns (e: Demux)
    requires Ready(d) && t != 8 && t != 9 && |n| == 3 && Get3(n) == |body| && |time| == 7 && |size| == 4
    requires rest == body + size + more
    ensures Ready(e) && e.out == d.out && Handle(Add(d, [t] + n + time + rest)) == Go(Add(e, more))
  {
    hide Get3;
    var full := Add(d, [t] + n + time + rest);
    assert [] + ([t] + n + time + rest) == [t] + n + time + rest;
    AnyHeader(full, t, n, time, rest);
    var h := TagHeaderPart(full).d;
    hide TagHeaderPart;
    OtherBody(h, body, size, more);
    hide TagBodyPart;
    e := h.(buf := [], tagReady := false);
    assert [] + more == more;
  }

  lemma OtherBody(h: Demux, body: seq<byte>, size: seq<byte>, more: seq<byte>)
    requires h.tagType != 8 && h.tagType != 9 && h.tagSize == |body| && |size| == 4 && h.buf == body + size + more
    ensures TagBodyPart(h) == Go(h.(buf := more, tagReady := false))
  {
    assert h.buf == (body + size) + more;
    assert h.buf[|body| + 4..] == more;
    hide ParseAudio;
    hide ParseVideo;
  }

  lemma AnyHeader(d: Demux, t: byte, n: seq<byte>, time: seq<byte>, rest: seq<byte>)
    requires !d.tagReady && |n| == 3 && |time| == 7 && d.buf == [t] + n + time + rest
    ensures var r := TagHeaderPart(d);
            && r.Go? && r.d == d.(tagReady := true, tagType := t, tagSize := Get3(n), tagTs := r.d.tagTs, buf := rest)
  {
    hide Get3;
    assert d.buf == [t] + (n + (time + rest));
    assert d.buf[1..] == n + (time + rest);
    Get3Prefix(n, time + rest);
    assert d.buf[11..] == rest;
  }

  lemma {:induction false} LoopTags(d: Demux, ps: seq<Packet>, ext: Packet -> byte)
    requires Ready(d) && forall p <- ps :: Fits(p)
    ensures Loop(Add(d, Tags(ps, ext))).d.out == d.out + BackAll(ps, ext)
    decreases |ps|
  {
    hide Handle;
    hide Tag;
    hide Back;
    hide MediaHeader;
    if ps == [] {
      assert Add(d, []) == d;
      IdleLoop(d);
    } else {
      assert Fits(ps[0]);
      var p, rest := ps[0], Tags(ps[1..], ext);
      HandleTag(d, p, ext(p), rest);
      var e :| Ready(e) && e.out == d.out + [Back(p, ext(p))]
               && Handle(Add(d, Tag(p, ext(p)) + rest)) == Go(Add(e, rest));
      LoopTags(e, ps[1..], ext);
      assert [Back(p, ext(p))] + BackAll(ps[1..], ext) == BackAll(ps, ext);
    }
  }

  lemma IdleLoop(d: Demux)
    requires Ready(d)
    ensures Loop(d) == NeedMore(d)
  {
  }

  lemma StartsReady(hasVideo: bool, hasAudio: bool, more: seq<byte>)
    ensures exists d :: Ready(d) && d.out == []
                        && Loop(Add(NewDemux, FileHeader(hasVideo, hasAudio) + more)) == Loop(Add(d, more))
  {
    hide Loop;
    hide FileHeader;
    hide FileHeaderPart;
    var d := NewDemux.(headerReady := true, hasVideo := hasVideo, hasAudio := hasAudio);
    ReadsFileHeader(hasVideo, hasAudio, more);
    SameLoop(Add(NewDemux, FileHeader(hasVideo, hasAudio) + more), Add(d, more));
  }

  lemma ReadsFileHeader(hasVideo: bool, hasAudio: bool, more: seq<byte>)
    ensures var d := NewDemux.(headerReady := true, hasVideo := hasVideo, hasAudio := hasAudio);
            FileHeaderPart(Add(NewDemux, FileHeader(hasVideo, hasAudio) + more)) == Go(Add(d, more))
  {
    hide FileHeader;
    var head := FileHeader(hasVideo, hasAudio);
    HeadSlices(hasVideo, hasAudio);
    Slices(head, more);
    assert [] + (head + more) == head + more && [] + more == more;
  }

  lemma HeadSlices(hasVideo: bool, hasAudio: bool)
    ensures var head := FileHeader(hasVideo, hasAudio);
            && head[..3] == [0x46, 0x4c, 0x56] && head[5..9] == [0, 0, 0, 9]
            && (head[4] % 2 == 1 <==> hasVideo) && (head[4] as int / 4 % 2 == 1 <==> hasAudio)
  {
  }

  lemma Slices(head: seq<byte>, more: seq<byte>)
    requires |head| == HEADER_LEN + TAG_PRE_SIZE
    ensures (head + more)[..3] == head[..3] && (head + more)[5..9] == head[5..9] && (head + more)[4] == head[4]
    ensures (head + more)[HEADER_LEN + TAG_PRE_SIZE..] == more
  {
  }

  lemma SameLoop(s: Demux, d: Demux)
    requires FileHeaderPart(s) == Go(d) && d.headerReady
    ensures Loop(s) == Loop(d)
  {
    hide TagHeaderPart;
    hide TagBodyPart;
    assert FileHeaderPart(d) == Go(d);
    assert Handle(s) == Handle(d);
  }

  /** A file header and tags, cut into any pieces: every packet comes back, in order. */
  lemma Demuxes(hasVideo: bool, hasAudio: bool, ps: seq<Packet>, ext: Packet -> byte, pieces: seq<seq<byte>>)
    requires forall p <- ps :: Fits(p)
    requires Concat(pieces) == FileHeader(hasVideo, hasAudio) + Tags(ps, ext)
    ensures InputAll(NewDemux, pieces).out == BackAll(ps, ext)
  {
    hide Loop;
    hide BackAll;
    hide Tags;
    StartsReady(hasVideo, hasAudio, Tags(ps, ext));
    var d :| Ready(d) && d.out == []
             && Loop(Add(NewDemux, FileHeader(hasVideo, hasAudio) + Tags(ps, ext))) == Loop(Add(d, Tags(ps, ext)));
    LoopTags(d, ps, ext);
    PiecesAsOne(NewDemux, pieces);
  }

  /** The packets a tag can express, when its upper timestamp byte is ext. */
  predicate Intact(p: Packet, ext: byte) {
    && p.dts == p.dts % U24 + ext as int * U24
    && (if p.av == Audio then p.pts == p.dts && !p.isKey
        else p.dts <= p.pts < p.dts + U24 && p.pts < U32 && !(p.isKey && p.isSeqHdr))
  }

  lemma BackIsIdentity(p: Packet, ext: byte)
    requires Supported(p)
    ensures Back(p, ext) == p <==> Intact(p, ext)
  {
    var dts := p.dts % U24 + ext as int * U24;
    if p.dts == dts && p.av != Audio {
      DeltaReads(p.dts, p.pts);
    }
  }

  /** A composition time reads back exactly below 2^24, and while the sum fits 32 bits. */
  lemma DeltaReads(dts: int, pts: int)
    requires 0 <= dts < U32
    ensures var delta := if pts > dts then (pts - dts) % U32 else 0;
            (dts + delta % U24) % U32 == pts <==> dts <= pts < dts + U24 && pts < U32
  {
    if dts < pts {
      var d, low := pts - dts, (pts - dts) % U32 % U24;
      if d < U24 {
        assert low == d;
      } else {
        assert low < U24 <= d;
        assert (dts + low) % U32 <= dts + low < pts;
      }
    }
  }

  // ----- flv_muxer -----

  datatype Mux = Mux(headerReady: bool, sent: seq<byte>)

  /** input_packet: the file header goes out in front of the first packet, if that is supported. */
  function MuxPacket(m: Mux, hasVideo: bool, hasAudio: bool, p: Packet): Mux {
    if !Supported(p) then m.(headerReady := true)
    else Mux(true, m.sent + (if m.headerReady then [] else FileHeader(hasVideo, hasAudio)) + Tag(p, ZeroByte(p)))
  }

  function MuxAll(m: Mux, hasVideo: bool, hasAudio: bool, ps: seq<Packet>): Mux
    decreases |ps|
  {
    if ps == [] then m else MuxAll(MuxPacket(m, hasVideo, hasAudio, ps[0]), hasVideo, hasAudio, ps[1..])
  }

  const NewMux := Mux(false, [])

  function SupportedOnly(ps: seq<Packet>): seq<Packet>
    decreases |ps|
  {
    if ps == [] then []
    else if Supported(ps[0]) then [ps[0]] + SupportedOnly(ps[1..])
    else SupportedOnly(ps[1..])
  }

  predicate AllFit(ps: seq<Packet>) {
    forall p <- ps :: Supported(p) ==> Fits(p)
  }

  lemma {:induction false} SupportedFit(ps: seq<Packet>)
    requires AllFit(ps)
    ensures forall p <- SupportedOnly(ps) :: Fits(p)
    decreases |ps|
  {
    if ps == [] {
    } else {
      assert ps[0] in ps;
      SupportedFit(ps[1..]);
    }
  }

  /** Once the header flag is set the muxer sends the tags of the supported packets. */
  lemma {:induction false} MuxTail(m: Mux, hasVideo: bool, hasAudio: bool, ps: seq<Packet>)
    requires AllFit(ps) && m.headerReady
    ensures forall p <- SupportedOnly(ps) :: Fits(p)
    ensures MuxAll(m, hasVideo, hasAudio, ps).sent == m.sent + Tags(SupportedOnly(ps), ZeroByte)
    decreases |ps|
  {
    hide Tag;
    hide MediaHeader;
    SupportedFit(ps);
    if ps == [] {
      assert m.sent + [] == m.sent;
    } else {
      var next := MuxPacket(m, hasVideo, hasAudio, ps[0]);
      assert next.headerReady && next.sent == if Supported(ps[0]) then m.sent + Tag(ps[0], 0) else m.sent;
      hide MuxPacket;
      MuxTail(next, hasVideo, hasAudio, ps[1..]);
      if Supported(ps[0]) {
        SupportedFirst(ps, m.sent);
      }
    }
  }

  lemma SupportedFirst(ps: seq<Packet>, sent: seq<byte>)
    requires AllFit(ps) && ps != [] && Supported(ps[0])
    ensures forall p <- SupportedOnly(ps) :: Fits(p)
    ensures forall p <- SupportedOnly(ps[1..]) :: Fits(p)
    ensures sent + Tags(SupportedOnly(ps), ZeroByte)
         == sent + Tag(ps[0], 0) + Tags(SupportedOnly(ps[1..]), ZeroByte)
  {
    hide Tag;
    hide MediaHeader;
    SupportedFit(ps);
    SupportedFit(ps[1..]);
    var later := SupportedOnly(ps[1..]);
    assert SupportedOnly(ps) == [ps[0]] + later && Fits(ps[0]);
    hide SupportedOnly;
    hide Fits;
    TagsCons(ps[0], later, ZeroByte);
    hide Tags;
    ThreeParts(sent, Tag(ps[0], 0), Tags(later, ZeroByte));
  }

  lemma ThreeParts(a: seq<byte>, b: seq<byte>, c: seq<byte>)
    ensures a + b + c == a + (b + c)
  {
  }

  /** The thirteen bytes the demuxer demands in front of the first tag. */
  predicate HasFileHeader(s: seq<byte>) {
    |s| >= HEADER_LEN + TAG_PRE_SIZE && s[..3] == [0x46, 0x4c, 0x56] && s[5..9] == [0, 0, 0, 9]
  }

  lemma NoHeaderNoLoop(d: Demux)
    requires !d.headerReady && !HasFileHeader(d.buf)
    ensures Loop(d).d.out == d.out
  {
  }

  /** A stream that does not start with a file header yields no packet, however it is cut. */
  lemma NoHeaderNoPackets(pieces: seq<seq<byte>>)
    requires !HasFileHeader(Concat(pieces))
    ensures InputAll(NewDemux, pieces).out == []
  {
    hide Loop;
    hide HasFileHeader;
    if pieces != [] {
      PiecesAsOne(NewDemux, pieces);
      assert [] + Concat(pieces) == Concat(pieces);
      NoHeaderNoLoop(Add(NewDemux, Concat(pieces)));
    }
  }

  lemma TagIsNoFileHeader(p: Packet, ext: byte, more: seq<byte>)
    requires Fits(p)
    ensures !HasFileHeader(Tag(p, ext) + more)
  {
    hide Put3;
    hide Put4;
    var s := Tag(p, ext) + more;
    assert s[0] == Tag(p, ext)[0];
    assert |s| >= 3 ==> s[..3][0] == s[0];
  }

  lemma MuxFromStart(hasVideo: bool, hasAudio: bool, ps: seq<Packet>)
    requires AllFit(ps) && ps != [] && Supported(ps[0])
    ensures forall p <- SupportedOnly(ps) :: Fits(p)
    ensures MuxAll(NewMux, hasVideo, hasAudio, ps).sent
         == FileHeader(hasVideo, hasAudio) + Tags(SupportedOnly(ps), ZeroByte)
  {
    hide Tag;
    hide FileHeader;
    hide MediaHeader;
    hide MuxAll;
    SupportedFit(ps);
    FirstPacket(hasVideo, hasAudio, ps);
    MuxTail(Mux(true, FileHeader(hasVideo, hasAudio) + Tag(ps[0], 0)), hasVideo, hasAudio, ps[1..]);
    SupportedFirst(ps, FileHeader(hasVideo, hasAudio));
  }

  lemma TagsCons(p: Packet, ps: seq<Packet>, ext: Packet -> byte)
    requires Fits(p) && forall q <- ps :: Fits(q)
    ensures Tags([p] + ps, ext) == Tag(p, ext(p)) + Tags(ps, ext)
  {
    hide Tag;
    hide MediaHeader;
    assert ([p] + ps)[1..] == ps;
  }

  lemma FirstPacket(hasVideo: bool, hasAudio: bool, ps: seq<Packet>)
    requires ps != [] && Supported(ps[0])
    ensures MuxAll(NewMux, hasVideo, hasAudio, ps)
         == MuxAll(Mux(true, FileHeader(hasVideo, hasAudio) + Tag(ps[0], 0)), hasVideo, hasAudio, ps[1..])
  {
    hide Tag;
    hide FileHeader;
    assert MuxPacket(NewMux, hasVideo, hasAudio, ps[0]).sent == FileHeader(hasVideo, hasAudio) + Tag(ps[0], 0);
  }

  lemma MuxLostHeader(hasVideo: bool, hasAudio: bool, ps: seq<Packet>)
    requires AllFit(ps) && (ps == [] || !Supported(ps[0]))
    ensures forall p <- SupportedOnly(ps) :: Fits(p)
    ensures MuxAll(NewMux, hasVideo, hasAudio, ps).sent == Tags(SupportedOnly(ps), ZeroByte)
  {
    SupportedFit(ps);
    if ps != [] {
      MuxTail(NewMux.(headerReady := true), hasVideo, hasAudio, ps[1..]);
    }
  }

  lemma AllIntact(ps: seq<Packet>, ext: Packet -> byte)
    requires forall p <- ps :: Fits(p)
    ensures BackAll(ps, ext) == ps <==> forall p <- ps :: Intact(p, ext(p))
  {
    hide Back;
    hide Intact;
    forall i | 0 <= i < |ps| ensures BackAll(ps, ext)[i] == ps[i] <==> Intact(ps[i], ext(ps[i])) {
      assert Fits(ps[i]);
      BackIsIdentity(ps[i], ext(ps[i]));
    }
    if forall p <- ps :: Intact(p, ext(p)) {
      assert BackAll(ps, ext) == ps;
    } else {
      var i :| 0 <= i < |ps| && !Intact(ps[i], ext(ps[i]));
      assert BackAll(ps, ext)[i] != ps[i];
    }
  }

  lemma {:induction false} NothingSent(d: Demux, pieces: seq<seq<byte>>)
    requires Concat(pieces) == [] && d.out == [] && d.buf == [] && !d.headerReady
    ensures InputAll(d, pieces).out == []
    decreases |pieces|
  {
    if pieces == [] {
    } else {
      assert Add(d, pieces[0]) == d;
      assert Input(d, pieces[0]) == d;
      NothingSent(d, pieces[1..]);
    }
  }

  /**
   * Muxing and demuxing, under any segmentation, gives back exactly the supported packets if
   * and only if each can be expressed with a zero upper timestamp byte, and the packet the
   * file header is attached to, the first one, was not dropped as unsupported.
   */
  lemma MuxRoundTrip(hasVideo: bool, hasAudio: bool, ps: seq<Packet>, pieces: seq<seq<byte>>)
    requires AllFit(ps) && Concat(pieces) == MuxAll(NewMux, hasVideo, hasAudio, ps).sent
    ensures InputAll(NewDemux, pieces).out == SupportedOnly(ps)
            <==> (SupportedOnly(ps) == [] || Supported(ps[0])) && forall p <- SupportedOnly(ps) :: Intact(p, 0)
  {
    hide Tag;
    hide Loop;
    hide Intact;
    hide FileHeader;
    hide MuxAll;
    hide BackAll;
    var sup := SupportedOnly(ps);
    SupportedFit(ps);
    if ps != [] && Supported(ps[0]) {
      MuxFromStart(hasVideo, hasAudio, ps);
      Demuxes(hasVideo, hasAudio, sup, ZeroByte, pieces);
      AllIntact(sup, ZeroByte);
    } else {
      MuxLostHeader(hasVideo, hasAudio, ps);
      if sup == [] {
        NothingSent(NewDemux, pieces);
      } else {
        TagIsNoFileHeader(sup[0], 0, Tags(sup[1..], ZeroByte));
        NoHeaderNoPackets(pieces);
      }
    }
  }

  // ----- httpflv_writer -----

  datatype Http = Http(headerReady: bool, sent: seq<byte>)

  const NewHttp := Http(false, [])

  /** The bytes write_packet sends around a packet's buffer, whatever its codec. */
  function HttpTag(p: Packet, buffer: seq<byte>): seq<byte> {
    [if p.av == Video then TAG_VIDEO else TAG_AUDIO] + Put3(|buffer|) + Put3(p.dts % U24)
    + [UpperByte(p), 0, 0, 1] + buffer + Put4(TAG_HEADER_LEN + |buffer|)
  }

  /** write_packet on a response that is up: without a medium not even the file header goes out. */
  function HttpPacket(w: Http, hasVideo: bool, hasAudio: bool, p: Packet, buffer: seq<byte>): Http {
    if !w.headerReady && !hasVideo && !hasAudio then w
    else
      Http(true, w.sent + (if w.headerReady then [] else FileHeader(hasVideo, hasAudio))
                 + (if p.av == Other then [] else HttpTag(p, buffer)))
  }

  /** A run of the writer on packets that carry their media header. */
  function HttpAll(w: Http, hasVideo: bool, hasAudio: bool, ps: seq<Packet>): Http
    requires forall p <- ps :: Fits(p)
    decreases |ps|
  {
    if ps == [] then w
    else
      assert Fits(ps[0]);
      var next := HttpPacket(w, hasVideo, hasAudio, ps[0], MediaHeader(ps[0]) + ps[0].data);
      HttpAll(next, hasVideo, hasAudio, ps[1..])
  }

  lemma HttpStep(w: Http, hasVideo: bool, hasAudio: bool, p: Packet)
    requires Supported(p) && (w.headerReady || hasVideo || hasAudio)
    ensures HttpPacket(w, hasVideo, hasAudio, p, MediaHeader(p) + p.data)
         == Http(true, w.sent + ((if w.headerReady then [] else FileHeader(hasVideo, hasAudio)) + Tag(p, UpperByte(p))))
  {
    hide MediaHeader;
    hide FileHeader;
    hide Put3;
    hide Put4;
    hide UpperByte;
    var head, tag := if w.headerReady then [] else FileHeader(hasVideo, hasAudio), Tag(p, UpperByte(p));
    assert HttpTag(p, MediaHeader(p) + p.data) == tag;
    hide HttpTag;
    hide Tag;
    assert w.sent + head + tag == w.sent + (head + tag);
  }

  lemma {:induction false} HttpTail(w: Http, hasVideo: bool, hasAudio: bool, ps: seq<Packet>)
    requires w.headerReady && forall p <- ps :: Fits(p)
    ensures HttpAll(w, hasVideo, hasAudio, ps).sent == w.sent + Tags(ps, UpperByte)
    decreases |ps|
  {
    hide Tag;
    hide HttpPacket;
    hide MediaHeader;
    if ps == [] {
      assert Tags(ps, UpperByte) == [];
    } else {
      assert Fits(ps[0]);
      HttpStep(w, hasVideo, hasAudio, ps[0]);
      var tag, later := Tag(ps[0], UpperByte(ps[0])), Tags(ps[1..], UpperByte);
      assert [] + tag == tag;
      HttpTail(Http(true, w.sent + tag), hasVideo, hasAudio, ps[1..]);
      assert w.sent + tag + later == w.sent + (tag + later);
    }
  }

  /** In closed form: the file header and the tags, or nothing when both media are off. */
  lemma HttpBytes(hasVideo: bool, hasAudio: bool, ps: seq<Packet>)
    requires forall p <- ps :: Fits(p)
    ensures HttpAll(NewHttp, hasVideo, hasAudio, ps).sent
         == if ps == [] || (!hasVideo && !hasAudio) then [] else FileHeader(hasVideo, hasAudio) + Tags(ps, UpperByte)
  {
    if ps == [] {
      assert HttpAll(NewHttp, hasVideo, hasAudio, ps) == NewHttp;
    } else if !hasVideo && !hasAudio {
      NoMedium(ps);
    } else {
      HttpFromStart(hasVideo, hasAudio, ps);
    }
  }

  lemma HttpFromStart(hasVideo: bool, hasAudio: bool, ps: seq<Packet>)
    requires ps != [] && (hasVideo || hasAudio) && forall p <- ps :: Fits(p)
    ensures HttpAll(NewHttp, hasVideo, hasAudio, ps).sent == FileHeader(hasVideo, hasAudio) + Tags(ps, UpperByte)
  {
    hide Tag;
    hide HttpPacket;
    hide MediaHeader;
    hide FileHeader;
    assert Fits(ps[0]);
    HttpStep(NewHttp, hasVideo, hasAudio, ps[0]);
    var head, tag, later := FileHeader(hasVideo, hasAudio), Tag(ps[0], UpperByte(ps[0])), Tags(ps[1..], UpperByte);
    assert [] + (head + tag) == head + tag;
    HttpTail(Http(true, head + tag), hasVideo, hasAudio, ps[1..]);
    assert head + tag + later == head + (tag + later);
  }

  lemma {:induction false} NoMedium(ps: seq<Packet>)
    requires forall p <- ps :: Fits(p)
    ensures HttpAll(NewHttp, false, false, ps) == NewHttp
    decreases |ps|
  {
    hide MediaHeader;
    if ps == [] {
      assert HttpAll(NewHttp, false, false, []) == NewHttp;
    } else {
      assert Fits(ps[0]);
      NoMedium(ps[1..]);
    }
  }

  /**
   * The demuxer inverts the HTTP writer if and only if every packet's times fit 32 bits and some
   * medium is on.
   */
  lemma HttpRoundTrip(hasVideo: bool, hasAudio: bool, ps: seq<Packet>, pieces: seq<seq<byte>>)
    requires forall p <- ps :: Fits(p)
    requires Concat(pieces) == HttpAll(NewHttp, hasVideo, hasAudio, ps).sent
    ensures InputAll(NewDemux, pieces).out == ps
            <==> (ps == [] || hasVideo || hasAudio) && forall p <- ps :: Intact(p, UpperByte(p))
  {
    hide Tags;
    hide Loop;
    hide Intact;
    hide FileHeader;
    hide BackAll;
    HttpBytes(hasVideo, hasAudio, ps);
    hide HttpAll;
    if ps == [] || (!hasVideo && !hasAudio) {
      NothingSent(NewDemux, pieces);
    } else {
      Demuxes(hasVideo, hasAudio, ps, UpperByte, pieces);
      AllIntact(ps, UpperByte);
    }
  }

  /** Intact for the HTTP writer, in terms of the packet alone. */
  lemma HttpIntact(p: Packet)
    ensures Intact(p, UpperByte(p))
            <==> && 0 <= p.dts < U32
                 && (if p.av == Audio then p.pts == p.dts && !p.isKey
                     else p.dts <= p.pts < p.dts + U24 && p.pts < U32 && !(p.isKey && p.isSeqHdr))
  {
  }

  /**
   * Given the same packets, muxer and HTTP writer send the same bytes exactly when there are
   * none, or some medium is on and no packet needs the upper timestamp byte.
   */
  lemma WritersAgree(hasVideo: bool, hasAudio: bool, ps: seq<Packet>)
    requires forall p <- ps :: Fits(p)
    ensures HttpAll(NewHttp, hasVideo, hasAudio, ps).sent == MuxAll(NewMux, hasVideo, hasAudio, ps).sent
            <==> ps == [] || ((hasVideo || hasAudio) && forall p <- ps :: UpperByte(p) == 0)
  {
    hide Tags;
    hide FileHeader;
    hide UpperByte;
    HttpBytes(hasVideo, hasAudio, ps);
    hide HttpAll;
    if ps == [] {
      assert MuxAll(NewMux, hasVideo, hasAudio, []) == NewMux;
    } else {
      assert Fits(ps[0]);
      MuxFromStart(hasVideo, hasAudio, ps);
      hide MuxAll;
      AllSupported(ps);
      SameTags(ps);
      var head, a, b := FileHeader(hasVideo, hasAudio), Tags(ps, ZeroByte), Tags(ps, UpperByte);
      assert (head + a)[|head|..] == a && (head + b)[|head|..] == b;
    }
  }

  lemma {:induction false} AllSupported(ps: seq<Packet>)
    requires forall p <- ps :: Supported(p)
    ensures SupportedOnly(ps) == ps
    decreases |ps|
  {
    if ps == [] {
      assert SupportedOnly([]) == [];
    } else {
      AllSupported(ps[1..]);
    }
  }

  lemma {:induction false} SameTags(ps: seq<Packet>)
    requires forall p <- ps :: Fits(p)
    ensures Tags(ps, ZeroByte) == Tags(ps, UpperByte) <==> forall p <- ps :: UpperByte(p) == 0
    decreases |ps|
  {
    hide Tag;
    if ps == [] {
    } else {
      assert Fits(ps[0]);
      var p, a, b := ps[0], Tags(ps[1..], ZeroByte), Tags(ps[1..], UpperByte);
      SameTags(ps[1..]);
      TagsDiffer(p, UpperByte(p));
      var n := |Tag(p, 0)|;
      assert (Tag(p, 0) + a)[..n] == Tag(p, 0) && (Tag(p, 0) + a)[n..] == a;
      assert (Tag(p, UpperByte(p)) + b)[..n] == Tag(p, UpperByte(p)) && (Tag(p, UpperByte(p)) + b)[n..] == b;
    }
  }

  lemma TagsDiffer(p: Packet, ext: byte)
    requires Fits(p)
    ensures |Tag(p, 0)| == |Tag(p, ext)| && (Tag(p, 0) == Tag(p, ext) <==> ext == 0)
  {
    hide Put3;
    hide Put4;
    hide MediaHeader;
    assert Tag(p, ext)[7] == ext && Tag(p, 0)[7] == 0;
  }
}
