/**
 * The FLV tag format (Annex E of the Adobe FLV specification) as this program writes it twice,
 * in format/flv/flv_mux.cpp and net/httpflv/httpflv_writer.cpp, and reads it once, in
 * format/flv/flv_demux.cpp. FlvObjects.dfy holds the imperative code.
 */
module Flv {
  import opened Bytes

  datatype AvType = Video | Audio | Other
  datatype Codec = H264 | H265 | VP8 | VP9 | AAC | Opus | OtherCodec

  datatype Packet = Packet(av: AvType, codec: Codec, isKey: bool, isSeqHdr: bool, dts: int, pts: int, data: seq<byte>)

  const TAG_AUDIO: byte := 8
  const TAG_VIDEO: byte := 9
  const HEADER_LEN := 9
  const TAG_PRE_SIZE := 4
  const TAG_HEADER_LEN := 11
  const U24 := 0x100_0000
  const U32 := 0x1_0000_0000

  predicate IsVideoCodec(c: Codec) {
    c == H264 || c == H265 || c == VP8 || c == VP9
  }

  predicate IsAudioCodec(c: Codec) {
    c == AAC || c == Opus
  }

  predicate Supported(p: Packet) {
    (p.av == Video && IsVideoCodec(p.codec)) || (p.av == Audio && IsAudioCodec(p.codec))
  }

  // ----- writing -----

  function FileHeader(hasVideo: bool, hasAudio: bool): (r: seq<byte>)
    ensures |r| == HEADER_LEN + TAG_PRE_SIZE
  {
    var flag := (if hasVideo then 1 else 0) + if hasAudio then 4 else 0;
    [0x46, 0x4c, 0x56, 0x01, flag, 0, 0, 0, 9, 0, 0, 0, 0]
  }

  function CodecBits(c: Codec): byte {
    match c
    case H264 => 0x07
    case H265 => 0x0c
    case VP8 => 0x0e
    case VP9 => 0x0f
    case AAC => 0xa0
    case Opus => 0x90
    case OtherCodec => 0
  }

  /** Key frames and sequence headers share the key flag; the second byte tells them apart. */
  function FlagBits(p: Packet): byte {
    if p.av == Audio then 0x0f else if p.isKey || p.isSeqHdr then 0x10 else 0x20
  }

  function TsDelta(p: Packet): nat {
    if p.pts > p.dts then (p.pts - p.dts) % U32 else 0
  }

  /** The bytes in front of the media data: two for audio, five for video. */
  function MediaHeader(p: Packet): (r: seq<byte>)
    requires Supported(p)
    ensures |r| == if p.av == Audio then 2 else 5
  {
    [FlagBits(p) + CodecBits(p.codec), if p.isSeqHdr then 0 else 1] + if p.av == Video then Put3(TsDelta(p)) else []
  }

  /** A tag whose upper timestamp byte is ext. */
  function Tag(p: Packet, ext: byte): (r: seq<byte>)
    requires Supported(p)
    ensures r != []
  {
    var body := MediaHeader(p) + p.data;
    [if p.av == Audio then TAG_AUDIO else TAG_VIDEO] + Put3(|body|) + Put3(p.dts % U24) + [ext, 0, 0, 1]
    + body + Put4(TAG_HEADER_LEN + |body|)
  }

  /** flv_muxer never sets the upper timestamp byte. */
  function ZeroByte(p: Packet): byte {
    0
  }

  /** httpflv_writer sends all 32 timestamp bits. */
  function UpperByte(p: Packet): byte {
    p.dts / U24 % 0x100
  }

  // ----- reading -----

  datatype Demux = Demux(
    buf: seq<byte>,
    headerReady: bool,
    tagReady: bool,
    tagType: byte,
    tagSize: nat,
    tagTs: nat,
    hasVideo: bool,
    hasAudio: bool,
    out: seq<Packet>)

  const NewDemux := Demux([], false, false, 0, 0, 0, false, false, [])

  /** Return codes of handle_packet: FLV_RET_NEED_MORE, a negative value, and zero. */
  datatype Part = NeedMore(d: Demux) | Fail(d: Demux) | Go(d: Demux)

  /** The file header, once. */
  function FileHeaderPart(d: Demux): Part {
    if d.headerReady then Go(d)
    else if |d.buf| < HEADER_LEN + TAG_PRE_SIZE then NeedMore(d)
    else if d.buf[..3] != [0x46, 0x4c, 0x56] then Fail(d)
    else
      var flags := d.buf[4];
      var e := d.(hasVideo := d.hasVideo || flags % 2 == 1, hasAudio := d.hasAudio || flags / 4 % 2 == 1);
      if d.buf[5..9] != [0, 0, 0, 9] then Fail(e)
      else Go(e.(headerReady := true, buf := d.buf[HEADER_LEN + TAG_PRE_SIZE..]))
  }

  /** The tag header, kept across calls until the tag's data is complete. */
  function TagHeaderPart(d: Demux): Part {
    if d.tagReady then Go(d)
    else if |d.buf| < TAG_HEADER_LEN then NeedMore(d)
    else
      Go(d.(tagReady := true, tagType := d.buf[0], tagSize := Get3(d.buf[1..]),
         tagTs := Get3(d.buf[4..]) + d.buf[7] as int * U24, buf := d.buf[TAG_HEADER_LEN..]))
  }

  function VideoCodec(b: byte): Codec {
    if b % 16 == 0x07 then H264
    else if b % 16 == 0x0c then H265
    else if b % 16 == 0x0e then VP8
    else if b % 16 == 0x0f then VP9
    else OtherCodec
  }

  function AudioCodec(b: byte): Codec {
    if b / 16 == 0x0a then AAC else if b / 16 == 0x09 then Opus else OtherCodec
  }

  datatype Parsed = Bad | Good(p: Packet)

  /** The packet in the data of an audio tag; a tag shorter than its own header is malformed. */
  function ParseAudio(ts: nat, body: seq<byte>): Parsed {
    if |body| < 2 || AudioCodec(body[0]) == OtherCodec then Bad
    else Good(Packet(Audio, AudioCodec(body[0]), false, body[1] == 0, ts, ts, body[2..]))
  }

  function ParseVideo(ts: nat, body: seq<byte>): Parsed {
    if |body| < 5 || VideoCodec(body[0]) == OtherCodec then Bad
    else
      var keyFlag := body[0] / 16 == 1;
      if keyFlag && body[1] > 1 then Bad
      else
        Good(Packet(Video, VideoCodec(body[0]), keyFlag && body[1] == 1, keyFlag && body[1] == 0,
             ts, (ts + Get3(body[2..])) % U32, body[5..]))
  }

  /** The tag's data and the previous-tag size behind it; unknown tag types are skipped. */
  function TagBodyPart(d: Demux): Part {
    var n := d.tagSize + TAG_PRE_SIZE;
    if |d.buf| < n then NeedMore(d)
    else
      var body := d.buf[..d.tagSize];
      var next := d.(buf := d.buf[n..], tagReady := false);
      if d.tagType == TAG_AUDIO then
        match ParseAudio(d.tagTs, body)
        case Bad => Fail(d)
        case Good(p) => Go(next.(out := d.out + [p]))
      else if d.tagType == TAG_VIDEO then
        match ParseVideo(d.tagTs, body)
        case Bad => Fail(d)
        case Good(p) => Go(next.(out := d.out + [p]))
      else Go(next)
  }

  /** handle_packet. */
  function Handle(d: Demux): (r: Part)
    ensures r.Go? ==> |r.d.buf| < |d.buf|
  {
    var a := FileHeaderPart(d);
    if !a.Go? then a
    else
      var b := TagHeaderPart(a.d);
      if !b.Go? then b else TagBodyPart(b.d)
  }

  /** input_packet's loop: until more bytes are needed or the data is not FLV. */
  function Loop(d: Demux): Part
    decreases |d.buf|
  {
    var r := Handle(d);
    if r.Go? then Loop(r.d) else r
  }

  function Add(d: Demux, bytes: seq<byte>): Demux {
    d.(buf := d.buf + bytes)
  }

  function Input(d: Demux, piece: seq<byte>): Demux {
    Loop(Add(d, piece)).d
  }

  function InputAll(d: Demux, pieces: seq<seq<byte>>): Demux
    decreases |pieces|
  {
    if pieces == [] then d else InputAll(Input(d, pieces[0]), pieces[1..])
  }
}
