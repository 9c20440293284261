/** flv_demuxer, flv_muxer and httpflv_writer as objects, proved against Flv and FlvRoundTrip. */
module FlvObjects {
  import opened Bytes
  import opened DataBuffer
  import F = Flv
  import T = FlvRoundTrip

  const FLV_RET_NEED_MORE := 1

  /** The return code of a step of handle_packet. */
  function Code(r: F.Part): int {
    match r
    case NeedMore(_) => FLV_RET_NEED_MORE
    case Fail(_) => -1
    case Go(_) => 0
  }

  class FlvDemuxer {
    const buffer: Buffer
    var headerReady: bool
    var tagReady: bool
    var tagType: byte
    var tagSize: nat
    var tagTs: nat
    var hasVideo: bool
    var hasAudio: bool
    var out: seq<F.Packet>

    constructor ()
      ensures buffer.Valid() && View() == F.NewDemux && fresh(buffer) && fresh(buffer.mem)
    {
      buffer := new Buffer(EXTRA_LEN);
      headerReady, tagReady, tagType, tagSize, tagTs := false, false, 0, 0, 0;
      hasVideo, hasAudio, out := false, false, [];
    }

    ghost function View(): F.Demux
      requires buffer.Valid()
      reads this, buffer, buffer.mem
    {
      F.Demux(buffer.Contents(), headerReady, tagReady, tagType, tagSize, tagTs, hasVideo, hasAudio, out)
    }

    method Drop(n: nat)
      requires buffer.Valid() && n <= |buffer.Contents()|
      modifies buffer`start, buffer`dataLen
      ensures buffer.Valid() && buffer.Contents() == old(buffer.Contents())[n..]
      ensures View() == old(View()).(buf := old(buffer.Contents())[n..])
    {
      var _ := buffer.Consume(n);
    }

    method SetFlags(flags: byte)
      requires buffer.Valid()
      modifies `hasVideo, `hasAudio
      ensures View() == old(View()).(hasVideo := old(hasVideo) || flags % 2 == 1,
                        hasAudio := old(hasAudio) || flags as int / 4 % 2 == 1)
    {
      if flags % 2 == 1 {
        hasVideo := true;
      }
      if flags / 4 % 2 == 1 {
        hasAudio := true;
      }
    }

    method ReadFileHeader() returns (ret: int)
      requires buffer.Valid()
      modifies this, buffer`start, buffer`dataLen
      ensures buffer.Valid()
      ensures var r := F.FileHeaderPart(old(View())); ret == Code(r) && View() == r.d
    {
      if headerReady {
        return 0;
      }
      if !buffer.Require(F.HEADER_LEN + F.TAG_PRE_SIZE) {
        return FLV_RET_NEED_MORE;
      }
      var p := buffer.Data();
      if p[..3] != [0x46, 0x4c, 0x56] {
        return -1;
      }
      SetFlags(p[4]);
      if p[5..9] != [0, 0, 0, 9] {
        return -1;
      }
      Drop(F.HEADER_LEN + F.TAG_PRE_SIZE);
      headerReady := true;
      return 0;
    }

    method SetTag(t: byte, size: nat, ts: nat)
      requires buffer.Valid()
      modifies `tagType, `tagSize, `tagTs, `tagReady
      ensures View() == old(View()).(tagReady := true, tagType := t, tagSize := size, tagTs := ts)
    {
      tagType, tagSize, tagTs, tagReady := t, size, ts, true;
    }

    method ReadTagHeader() returns (ret: int)
      requires buffer.Valid()
      modifies this, buffer`start, buffer`dataLen
      ensures buffer.Valid()
      ensures var r := F.TagHeaderPart(old(View())); ret == Code(r) && View() == r.d
    {
      hide Get3;
      if tagReady {
        return 0;
      }
      if !buffer.Require(F.TAG_HEADER_LEN) {
        return FLV_RET_NEED_MORE;
      }
      var p := buffer.Data();
      SetTag(p[0], Get3(p[1..]), Get3(p[4..]) + p[7] as int * F.U24);
      Drop(F.TAG_HEADER_LEN);
      return 0;
    }

    /** Hands a packet on and steps over its tag. */
    method Deliver(n: nat, ps: seq<F.Packet>)
      requires buffer.Valid() && n <= |buffer.Contents()|
      modifies `out, `tagReady, buffer`start, buffer`dataLen
      ensures buffer.Valid()
      ensures View() == old(View()).(out := old(out) + ps, buf := old(buffer.Contents())[n..], tagReady := false)
    {
      out := out + ps;
      Drop(n);
      tagReady := false;
    }

    /** The codec and packet-type bytes of an audio tag. */
    method ReadAudio(p: seq<byte>) returns (parsed: F.Parsed)
      ensures parsed == F.ParseAudio(tagTs, p)
    {
      if |p| < 2 {
        return F.Bad;
      }
      var codec := F.OtherCodec;
      if p[0] / 0x10 == 0x0a {
        codec := F.AAC;
      } else if p[0] / 0x10 == 0x09 {
        codec := F.Opus;
      } else {
        return F.Bad;
      }
      var isSeqHdr := p[1] == 0;
      return F.Good(F.Packet(F.Audio, codec, false, isSeqHdr, tagTs, tagTs, p[2..]));
    }

    /** The codec, key and packet-type bits of a video tag and its composition time. */
    method ReadVideo(p: seq<byte>) returns (parsed: F.Parsed)
      ensures parsed == F.ParseVideo(tagTs, p)
    {
      hide Get3;
      if |p| < 5 {
        return F.Bad;
      }
      var codec, isKey, isSeqHdr := F.OtherCodec, false, false;
      if p[0] % 0x10 == 0x07 {
        codec := F.H264;
      } else if p[0] % 0x10 == 0x0c {
        codec := F.H265;
      } else if p[0] % 0x10 == 0x0e {
        codec := F.VP8;
      } else if p[0] % 0x10 == 0x0f {
        codec := F.VP9;
      } else {
        return F.Bad;
      }
      if p[0] / 0x10 == 1 {
        if p[1] == 0 {
          isSeqHdr := true;
        } else if p[1] == 1 {
          isKey := true;
        } else {
          return F.Bad;
        }
      }
      var tsDelta := Get3(p[2..]);
      return F.Good(F.Packet(F.Video, codec, isKey, isSeqHdr, tagTs, (tagTs + tsDelta) % F.U32, p[5..]));
    }

    method ReadTagBody() returns (ret: int)
      requires buffer.Valid()
      modifies this, buffer`start, buffer`dataLen
      ensures buffer.Valid()
      ensures var r := F.TagBodyPart(old(View())); ret == Code(r) && View() == r.d
    {
      hide F.ParseAudio;
      hide F.ParseVideo;
      if !buffer.Require(tagSize + F.TAG_PRE_SIZE) {
        return FLV_RET_NEED_MORE;
      }
      var p := buffer.Data();
      var body := p[..tagSize];
      if tagType != F.TAG_AUDIO && tagType != F.TAG_VIDEO {
        Deliver(tagSize + F.TAG_PRE_SIZE, []);
        return 0;
      }
      var parsed;
      if tagType == F.TAG_AUDIO {
        parsed := ReadAudio(body);
      } else {
        parsed := ReadVideo(body);
      }
      if parsed.Bad? {
        return -1;
      }
      Deliver(tagSize + F.TAG_PRE_SIZE, [parsed.p]);
      return 0;
    }

    method HandlePacket() returns (ret: int)
      requires buffer.Valid()
      modifies this, buffer`start, buffer`dataLen
      ensures buffer.Valid()
      ensures var r := F.Handle(old(View())); ret == Code(r) && View() == r.d
    {
      hide F.FileHeaderPart;
      hide F.TagHeaderPart;
      hide F.TagBodyPart;
      ret := ReadFileHeader();
      if ret == 0 {
        ret := ReadTagHeader();
        if ret == 0 {
          ret := ReadTagBody();
        }
      }
    }

    /** input_packet: the loop ends because each turn consumes input. */
    method InputPacket(piece: seq<byte>) returns (ret: int)
      requires buffer.Valid()
      modifies this, buffer, buffer.mem
      ensures buffer.Valid() && (buffer.mem == old(buffer.mem) || fresh(buffer.mem))
      ensures View() == F.Input(old(View()), piece) && ret != 0
    {
      hide F.Handle;
      buffer.Append(piece);
      ghost var start := View();
      ret := 0;
      while ret == 0
        invariant buffer.Valid() && (buffer.mem == old(buffer.mem) || fresh(buffer.mem))
        invariant ret == 0 ==> F.Loop(View()) == F.Loop(start)
        invariant ret != 0 ==> View() == F.Loop(start).d
        decreases ret == 0, |buffer.Contents()|
      {
        ret := HandlePacket();
      }
    }
  }

  lemma TagShape(p: F.Packet, ext: byte, head: seq<byte>, pre: seq<byte>)
    requires F.Supported(p)
    requires var n := |F.MediaHeader(p)| + |p.data|;
             && head == [if p.av == F.Audio then F.TAG_AUDIO else F.TAG_VIDEO] + Put3(n)
                        + Put3(p.dts % F.U24) + [ext, 0, 0, 1] + F.MediaHeader(p)
             && pre == Put4(F.TAG_HEADER_LEN + n)
    ensures head + p.data + pre == F.Tag(p, ext)
  {
    hide F.MediaHeader;
    hide Put3;
    hide Put4;
  }

  /** The first media byte of a video packet, flag bits and codec bits; none for another codec. */
  method VideoByte(p: F.Packet) returns (ok: bool, b: byte)
    requires p.av == F.Video
    ensures ok <==> F.Supported(p)
    ensures ok ==> b == F.FlagBits(p) + F.CodecBits(p.codec)
  {
    b := 0;
    if p.isSeqHdr || p.isKey {
      b := 0x10;
    } else {
      b := 0x20;
    }
    ok := true;
    if p.codec == F.H264 {
      b := b + 0x07;
    } else if p.codec == F.H265 {
      b := b + 0x0c;
    } else if p.codec == F.VP8 {
      b := b + 0x0e;
    } else if p.codec == F.VP9 {
      b := b + 0x0f;
    } else {
      ok := false;
    }
  }

  method AudioByte(p: F.Packet) returns (ok: bool, b: byte)
    requires p.av == F.Audio
    ensures ok <==> F.Supported(p)
    ensures ok ==> b == F.FlagBits(p) + F.CodecBits(p.codec)
  {
    ok, b := true, 0x0f;
    if p.codec == F.AAC {
      b := b + 0xa0;
    } else if p.codec == F.Opus {
      b := b + 0x90;
    } else {
      ok := false;
    }
  }

  /** The media header, field by field; nothing for a codec without a tag. */
  method BuildMediaHeader(p: F.Packet) returns (ok: bool, head: seq<byte>)
    requires p.av != F.Other
    ensures ok <==> F.Supported(p)
    ensures ok ==> head == F.MediaHeader(p)
  {
    hide F.FlagBits;
    hide F.CodecBits;
    hide Put3;
    var b;
    if p.av == F.Video {
      ok, b := VideoByte(p);
    } else {
      ok, b := AudioByte(p);
    }
    head := [];
    if ok {
      head := [b, if p.isSeqHdr then 0 else 1];
      if p.av == F.Video {
        var tsDelta := if p.pts > p.dts then (p.pts - p.dts) % F.U32 else 0;
        head := head + Put3(tsDelta);
      }
    }
  }

  class FlvMuxer {
    const hasVideo: bool
    const hasAudio: bool
    var headerReady: bool
    var sent: seq<byte>

    constructor (hasVideo: bool, hasAudio: bool)
      ensures this.hasVideo == hasVideo && this.hasAudio == hasAudio && View() == T.NewMux
    {
      this.hasVideo, this.hasAudio := hasVideo, hasAudio;
      headerReady, sent := false, [];
    }

    function View(): T.Mux
      reads this
    {
      T.Mux(headerReady, sent)
    }

    /** Writes bytes into the header array. */
    method Store(h: array<byte>, at: nat, bytes: seq<byte>)
      requires at + |bytes| <= h.Length
      modifies h
      ensures h[..at + |bytes|] == old(h[..at]) + bytes
    {
      forall i | 0 <= i < |bytes| {
        h[at + i] := bytes[i];
      }
    }

    /** Fills the header array: eleven tag bytes, then the media header. */
    method FillHeader(h: array<byte>, p: F.Packet, mediaSize: nat) returns (ok: bool)
      requires h.Length == 16 && p.av != F.Other
      modifies h
      ensures ok <==> F.Supported(p)
      ensures ok ==>
        h[..11 + |F.MediaHeader(p)|]
           == [if p.av == F.Audio then F.TAG_AUDIO else F.TAG_VIDEO] + Put3(mediaSize)
              + Put3(p.dts % F.U24) + [0, 0, 0, 1] + F.MediaHeader(p)
    {
      hide F.MediaHeader;
      hide F.Supported;
      hide Put3;
      Store(h, 0, [if p.av == F.Video then F.TAG_VIDEO else F.TAG_AUDIO]);
      Store(h, 1, Put3(mediaSize));
      Store(h, 4, Put3(p.dts % F.U24));
      Store(h, 7, [p.dts % F.U24 / F.U24 % 0x100, 0, 0, 1]);
      var head;
      ok, head := BuildMediaHeader(p);
      if ok {
        Store(h, 11, head);
      }
    }

    /** The tag of an audio or video packet, if its codec has one. */
    method MakeTag(p: F.Packet) returns (ok: bool, tag: seq<byte>)
      requires p.av != F.Other
      ensures ok <==> F.Supported(p)
      ensures ok ==> tag == F.Tag(p, 0)
    {
      hide F.MediaHeader;
      hide F.Supported;
      hide F.Tag;
      hide Put3;
      hide Put4;
      var headerSize := if p.av == F.Video then 5 else 2;
      var h := new byte[16];
      tag := [];
      ok := FillHeader(h, p, headerSize + |p.data|);
      if ok {
        assert p.av == F.Audio || p.av == F.Video;
        var pre := Put4(11 + headerSize + |p.data|);
        tag := h[..11 + headerSize] + p.data + pre;
        TagShape(p, 0, h[..11 + headerSize], pre);
      }
    }

    method InputPacket(p: F.Packet) returns (ret: int)
      modifies this
      ensures View() == T.MuxPacket(old(View()), hasVideo, hasAudio, p)
      ensures ret < 0 <==> p.av != F.Other && !F.Supported(p)
    {
      hide F.Tag;
      hide F.FileHeader;
      var output := [];
      if !headerReady {
        headerReady := true;
        output := F.FileHeader(hasVideo, hasAudio);
      }
      if p.av == F.Other {
        return 0;
      }
      var ok, tag := MakeTag(p);
      if !ok {
        return -1;
      }
      sent := sent + output + tag;
      return 0;
    }
  }

  /** The HTTP response: while it is up every write goes out. */
  class Response {
    var up: bool
    var sent: seq<byte>

    method Write(data: seq<byte>) returns (ret: int)
      modifies `sent
      ensures ret == (if up then 0 else -1) && sent == if up then old(sent) + data else old(sent)
    {
      if up {
        sent := sent + data;
        return 0;
      }
      return -1;
    }
  }

  class HttpFlvWriter {
    const resp: Response
    const hasVideo: bool
    const hasAudio: bool
    var headerReady: bool

    constructor (resp: Response, hasVideo: bool, hasAudio: bool)
      ensures this.resp == resp && this.hasVideo == hasVideo && this.hasAudio == hasAudio && !headerReady
    {
      this.resp, this.hasVideo, this.hasAudio := resp, hasVideo, hasAudio;
      headerReady := false;
    }

    method SendFlvHeader() returns (ret: int)
      modifies `headerReady, resp`sent
      ensures ret == if old(headerReady) || hasVideo || hasAudio then 0 else -1
      ensures headerReady == (ret == 0)
      ensures resp.sent == if !old(headerReady) && ret == 0 && resp.up
                           then old(resp.sent) + F.FileHeader(hasVideo, hasAudio) else old(resp.sent)
    {
      hide F.FileHeader;
      if headerReady {
        return 0;
      }
      if !hasAudio && !hasVideo {
        return -1;
      }
      var _ := resp.Write(F.FileHeader(hasVideo, hasAudio));
      headerReady := true;
      return 0;
    }

    /**
     * write_packet for a packet whose buffer holds its media header and data: the file header,
     * once, and one complete tag go out, whatever the codec; other packets are skipped, and a
     * response that is down fails the write of a tag.
     */
    method WritePacket(p: F.Packet, buffer: seq<byte>) returns (ret: int)
      modifies `headerReady, resp`sent
      ensures var w := T.HttpPacket(old(T.Http(headerReady, resp.sent)), hasVideo, hasAudio, p, buffer);
              headerReady == w.headerReady && resp.sent == if resp.up then w.sent else old(resp.sent)
      ensures ret == if headerReady && p.av != F.Other && !resp.up then -1 else 0
    {
      hide F.FileHeader;
      hide T.HttpTag;
      ret := SendFlvHeader();
      if ret != 0 {
        return 0;
      }
      if p.av == F.Other {
        return 0;
      }
      ret := WriteTag(p, buffer);
    }

    /** The tag header, the buffer and the tag size, each in a write of its own. */
    method WriteTag(p: F.Packet, buffer: seq<byte>) returns (ret: int)
      requires p.av != F.Other
      modifies resp`sent
      ensures ret == if resp.up then 0 else -1
      ensures resp.sent == if resp.up then old(resp.sent) + T.HttpTag(p, buffer) else old(resp.sent)
    {
      hide F.UpperByte;
      hide Put3;
      hide Put4;
      var t := if p.av == F.Video then F.TAG_VIDEO else F.TAG_AUDIO;
      var head := [t] + Put3(|buffer|) + Put3(p.dts % F.U24) + [F.UpperByte(p), 0, 0, 1];
      var pre := Put4(F.TAG_HEADER_LEN + |buffer|);
      assert T.HttpTag(p, buffer) == head + buffer + pre;
      hide T.HttpTag;
      ret := WriteParts(head, buffer, pre);
    }

    method WriteParts(head: seq<byte>, buffer: seq<byte>, pre: seq<byte>) returns (ret: int)
      modifies resp`sent
      ensures ret == if resp.up then 0 else -1
      ensures resp.sent == if resp.up then old(resp.sent) + (head + buffer + pre) else old(resp.sent)
    {
      ThreeInOne(resp.sent, head, buffer, pre);
      ret := resp.Write(head);
      if ret < 0 {
        return;
      }
      ret := resp.Write(buffer);
      if ret < 0 {
        return;
      }
      ret := resp.Write(pre);
    }
  }

  lemma ThreeInOne(a: seq<byte>, b: seq<byte>, c: seq<byte>, d: seq<byte>)
    ensures a + b + c + d == a + (b + c + d)
  {
  }

  /** add_flv_media_header: writes the media header into the buffer's headroom. */
  method AddFlvMediaHeader(buf: Buffer, p: F.Packet) returns (ret: int)
    requires buf.Valid() && buf.start >= 5
    modifies buf`start, buf`dataLen, buf.mem
    ensures buf.Valid() && ret == (if p.av == F.Other || F.Supported(p) then 0 else -1)
    ensures F.Supported(p) ==> buf.Contents() == F.MediaHeader(p) + old(buf.Contents())
    ensures p.av == F.Other ==> buf.Contents() == old(buf.Contents())
  {
    hide F.MediaHeader;
    if p.av == F.Audio {
      var _ := buf.Consume(-2);
      var ok, head := BuildMediaHeader(p);
      if !ok {
        return -1;
      }
      buf.Overwrite(head);
    } else if p.av == F.Video {
      var _ := buf.Consume(-5);
      buf.Overwrite([0]);
      var ok, head := BuildMediaHeader(p);
      if !ok {
        return -1;
      }
      buf.Overwrite(head);
    }
    return 0;
  }
}
