# A verified model of the media server's codecs and state machines

The server speaks RTMP, HTTP-FLV and WebRTC. This project models the hand-written parts of it
whose correctness is not obvious from any one function: wire codecs that must invert each
other however the network cuts the bytes, buffers and loss-recovery state that must keep an
invariant over every run, and the fan-out of one published stream to many players. Dafny
verifies all of it with `dafny verify dfyconfig.toml`.

Each core file appears twice. A functional module gives the meaning of the code as functions
on values (`RtmpReader`, `Flv`, `Stun`, `Fanout`, `RtpSeq`, ...), and the theorems are about
those functions. Classes and methods that update fields, buffers and arrays in place and loop
where the source does are proved to compute exactly those functions, so the theorems hold of
the imperative code as well. They share the functions that only compute a value with the
functional modules: the big-endian helpers, the bits of a type field, and the verdict of the
RTMP handlers.

| area | files |
|---|---|
| bytes and buffers | `Bytes`, `DataBuffer` |
| RTMP chunking | `RtmpReader`, `RtmpSegmentation`, `RtmpWriter`, `RtmpInterleave`, `RtmpFormats`, `RtmpSession` |
| AMF0 commands | `Amf0`, `AmfCodec` |
| FLV and HTTP-FLV | `Flv`, `FlvRoundTrip`, `FlvObjects` |
| fan-out | `Fanout`, `FanoutRuns`, `FanoutObjects` |
| CRC-32 | `CrcBits`, `CrcTable`, `Crc32` |
| STUN | `StunFingerprint`, `Stun`, `StunRoundTrip`, `StunAccepts`, `StunObjects` |
| RTP loss recovery | `SeqNumbers`, `RtpSeq`, `NackGenerator`, `NackPacket`, `SendBuffer`, `RtpPacket`, `RtpExtensions`, `NtpTime` |

## Main results

* **RTMP.** With one-byte basic headers, reader state and delivered messages depend only on the
  concatenation of the TCP pieces. For arbitrary streams a cut is invisible if and only if it
  falls outside every multi-byte basic header or right behind the bytes 01 00 of one; any other
  cut inside such a header shows. Messages written on csid 2 to 63, whose 24-bit timestamp field
  is not all ones, come back in order under any segmentation, unchanged if and only if their
  timestamps are below 0xffffff (a written basic header reads back if and only if its csid is 2
  to 63); any interleaving of whole chunks gives every chunk stream its own messages. Where the timestamp field is all ones, a one-chunk message is not delivered by
  its own bytes, and the four bytes behind them complete a garbled one.
  A sender that compresses its headers through formats 1, 2 and 3, with extended timestamps and
  chunk-size changes, is read with absolute 32-bit timestamps under any segmentation.
* **FLV.** Muxing and demuxing under any segmentation is the identity if and only if every
  packet can be expressed in a tag; the HTTP writer carries 32 timestamp bits, and given the same
  packets it sends the muxer's bytes if and only if some medium is on and no packet needs the
  upper eight bits.
* **STUN.** The length computed before writing is the length written, `parse` accepts every
  serialized message and recovers every field (error codes modulo 25600), and `check_auth`
  decides by the HMAC over the patched message and leaves the bytes as they were. `parse` accepts
  exactly the messages that attributes of the right sizes tile in the right order, with the
  right fingerprint if there is one. The
  table-driven CRC-32 of the fingerprint equals the bit-at-a-time definition.
* **Fan-out.** In every run each initialised, registered player has the last metadata, video and
  audio header sent before it was initialised and then a gap-free, duplicate-free suffix of what
  was published, from the GOP that was current at that moment. A player whose writes succeed and
  that does not leave stays registered and misses nothing. A player that leaves and joins again
  is gap-free if and only if nothing was sent on its key in between.
* **RTP.** `cycles_ + max_seq_` is the highest unwrapped number; the NACK map holds exactly
  the numbers still missing, each requested at every timer that finds it due, at most 21 times
  and at least `rtt_` apart; the
  retransmission buffer owns its clones, stays within its limit and holds exactly the latest
  packets if and only if no packet arrives while `first_seq_` is 0 (a number after which it can
  stay frozen); NACK blocks come back exactly when the reported list increases; accepted RTP
  packets are tiled exactly, every element of an extension is found at its place, and RTX packets
  parse again if and only if payload is left.
* **Time.** Milliseconds to NTP and back is the identity, and the round-trip time is the
  clamped difference within one 65536-second epoch; less than an epoch later in the next epoch
  it is always 1. Between two instances of this program it is off unless the sender report left
  at a whole fifth of a second, by an amount that is stated.

What is on the wire is also stated in literal bytes, apart from both reader and writer: RTMP
headers (`RtmpFormats`), AMF0 types (`Amf0.ScalarLayout`), FLV tags (`FlvRoundTrip.TagLayout`),
STUN headers and attributes (`StunAccepts`), RTP packets (`RtpExtensions`), NACK messages and the
check value of the CRC.

Where the code and its comments or the standards disagree, the model follows the code:

* the format 3 header repeats the last timestamp difference only right behind a chunk of format 1
  or 2, and the extended-timestamp flag of a chunk stream is never taken back
  (`RtmpFormats.Format3Header`, `RtmpFormats.Format3Continues`); gen_data writes an absolute
  timestamp where formats 1 and 2 have a difference (`RtmpFormats.WriterHeaderReads`);
* the reader drops the first byte of a multi-byte basic header that is only partly there
  (`RtmpSegmentation.TwoByteHeaderCut`; `RtmpSegmentation.ThreeByteHeaderCut` has the one case
  where that does no harm);
* the compacting path of the buffer copies between overlapping blocks with memcpy, which leaves
  the result undefined (`DataBuffer.CompactOverlaps` says exactly when, and
  `DataBuffer.TramplesEventually` that buffers of every size get there);
* the NACK bit for the number right behind the base is the most significant one, the reverse
  of section 6.2.1 of RFC 4585, and the constructor leaves a wrong length field until the first
  block is inserted (`NackPacket.LengthCountsWords`);
* `first_seq_` uses 0 for "not set" although 0 is a sequence number (`SendBuffer.SaveAtZero`,
  `SendBuffer.StuckAtZero`);
* a receiver keeps the low half of the NTP fraction of a sender report instead of the high
  half (`NtpTime.KeptAtFifths`, `NtpTime.RttOfKept`);
* the AMF0 object decoder leaves the end marker in the data, and an unknown type byte is never
  consumed, so the command loop does not end on it (`Amf0.EndlessExactly`);
* a gap across the sequence wrap is not listed, unless it starts right behind the last number
  (`NackGenerator.GapIsListed`).

## Model

| member | source | states |
|---|---|---|
| Bytes.Put2 | utils/byte_stream.cpp:111-117 | Reading two bytes back gives the number modulo 2^16 |
| Bytes.Put3 | utils/byte_stream.cpp:102-109 | Reading three bytes back gives the number modulo 2^24 |
| Bytes.Put4 | utils/byte_stream.cpp:82-90 | Reading four bytes back gives the number modulo 2^32 |
| Bytes.Put8 | utils/byte_stream.cpp:68-80 | Reading eight bytes back gives the number modulo 2^64 |
| Bytes.BigEndian | utils/byte_stream.cpp:18-66 | The most significant byte comes first |
| Stun.Pad4 | utils/byte_stream.cpp:128-133 | The least multiple of four that is not below the length |
| DataBuffer.Buffer.constructor | utils/data_buffer.cpp:4-11 | An empty byte queue of the given size behind 200 bytes of headroom, from 200 bytes upwards |
| DataBuffer.Buffer.Append | utils/data_buffer.cpp:20-61 | The visible bytes grow by the input on the in-place, compacting and growing paths, which are chosen and leave size and start as the shape model says; all copies stay inside the block |
| DataBuffer.Buffer.Compact | utils/data_buffer.cpp:39-54 | Moving the contents back to the front and appending keeps every visible byte, where memcpy is defined |
| DataBuffer.CompactOverlaps | utils/data_buffer.cpp:39-46 | The direct copy gets overlapping blocks exactly when the contents start less than their length away from where they go |
| DataBuffer.TramplesSoon | utils/data_buffer.cpp:39-46 | Size 400, append 50, consume 10, append 10: the contents are copied onto themselves, shifted |
| DataBuffer.TramplesEventually | utils/data_buffer.cpp:20-61 | From every initial size some calls lead to such a copy |
| DataBuffer.Buffer.Grow | utils/data_buffer.cpp:26-38 | Reallocating and appending keeps every visible byte |
| DataBuffer.Buffer.Consume | utils/data_buffer.cpp:63-78 | A positive count drops that many bytes, a negative one uncovers headroom bytes, and a count that leaves the block changes nothing |
| DataBuffer.Buffer.Reset | utils/data_buffer.cpp:80-84 | The queue is empty again with full headroom |
| DataBuffer.Buffer.Require | utils/data_buffer.cpp:94-98 | True exactly when that many bytes are visible |
| RtmpReader.ReadFmtCsid | net/rtmp/rtmp_session_base.cpp:28-63 | A step that succeeds consumes bytes, and a basic header touches only the format, the csid and the buffer |
| RtmpReader.ReadChunkStream | net/rtmp/rtmp_session_base.cpp:180-212 | A chunk that is read completely decreases the measure on which the receive loop terminates |
| RtmpReader.Deliver | net/rtmp/rtmp_server_session.cpp:94-181 | Delivering and resetting never increases that measure |
| RtmpSegmentation.BodyExtends | net/rtmp/chunk_stream.cpp:308-357 | A chunk read to its end is read the same when more bytes follow |
| RtmpSegmentation.BodyRetry | net/rtmp/chunk_stream.cpp:122-357 | Every exit that asks for more bytes in a chunk header or payload, all four formats and extended timestamps included, can be retried: waiting and resuming equals reading once later |
| RtmpSegmentation.ResumeReceive | net/rtmp/rtmp_server_session.cpp:94-181 | Outside a multi-byte basic header, receiving a part and then the rest equals receiving all at once |
| RtmpSegmentation.CutShows | net/rtmp/rtmp_session_base.cpp:28-63 | Inside a multi-byte basic header, except behind the bytes 01 00, some nonempty continuation ends in a different state |
| RtmpSegmentation.HarmlessCut | net/rtmp/rtmp_session_base.cpp:40-57 | Behind 01 00 the byte left over is a two-byte header with the format and csid of the three-byte one |
| RtmpSegmentation.CutIsSafe | net/rtmp/rtmp_server_session.cpp:72-181 | A cut is invisible for every nonempty continuation if and only if the reader is not inside a multi-byte basic header there or holds just 01 00 of one |
| RtmpSegmentation.PiecesAsOne | net/rtmp/rtmp_server_session.cpp:72-181 | With one-byte basic headers, feeding nonempty pieces one by one equals feeding their concatenation |
| RtmpSegmentation.SegmentationIndependent | net/rtmp/rtmp_server_session.cpp:72-181 | With one-byte basic headers, state and delivered messages depend only on the concatenation of the nonempty pieces |
| RtmpSegmentation.TwoByteHeaderCut | net/rtmp/rtmp_session_base.cpp:34-57 | A fresh session given only the first byte of a two-byte header ends in a different state for some nonempty continuation |
| RtmpSegmentation.ThreeByteHeaderCut | net/rtmp/rtmp_session_base.cpp:34-57 | A fresh session given 01 00 is inside a three-byte header, and every nonempty continuation ends as if the stream had not been cut |
| RtmpWriter.ChunkCount | net/rtmp/chunk_stream.cpp:441-460 | The writer computes the least number of chunks that covers the message |
| RtmpWriter.ChunkOffset | net/rtmp/chunk_stream.cpp:453-466 | The writer's length arithmetic names the piece at each offset, the last one included |
| RtmpWriter.ReadChunk | net/rtmp/chunk_stream.cpp:248-357 | One written chunk advances its message on its own csid and touches no other chunk stream |
| RtmpWriter.BasicHeaderReads | net/rtmp/chunk_stream.cpp:381-399 | For every format and 16-bit csid the reader recovers format and csid from a written basic header if and only if the csid is 2 to 63 |
| RtmpWriter.RoundTrip | net/rtmp/chunk_stream.cpp:441-484 | For csid 2 to 63 and timestamp fields that are not all ones: however the written bytes are cut, the messages are delivered in order, with the low 24 bits of their timestamps |
| RtmpWriter.RoundTripExact | net/rtmp/chunk_stream.cpp:441-484 | Such messages come back unchanged if and only if every timestamp is below 0xffffff |
| RtmpWriter.MarkerStalls | net/rtmp/chunk_stream.cpp:122-167 | With the low 24 timestamp bits all set, a one-chunk message is not delivered by its own bytes |
| RtmpWriter.MarkerGarbles | net/rtmp/chunk_stream.cpp:122-167 | Any four bytes behind it complete a message with the first four payload bytes as timestamp and the payload shifted by four bytes |
| RtmpInterleave.TakeInterleaved | net/rtmp/rtmp_session_base.cpp:180-212 | From any boundary state, interleaved chunks are taken to a boundary state in which every queue is delivered |
| RtmpInterleave.InterleavedRoundTrip | net/rtmp/rtmp_session_base.cpp:180-212 | For every interleaving of whole chunks under any segmentation, each csid yields its own messages, complete and in order, and nothing else |
| RtmpFormats.Format0Header | net/rtmp/chunk_stream.cpp:122-167 | From the bytes of a format 0 header, extended timestamp included, the stream has that timestamp, length, type and message stream |
| RtmpFormats.Format1Header | net/rtmp/chunk_stream.cpp:169-210 | From a stream at timestamp T, the bytes of a format 1 header with difference d give (T + d) mod 2^32 with that length and type; the message stream stays |
| RtmpFormats.Format2Header | net/rtmp/chunk_stream.cpp:212-246 | A format 2 header gives (T + d) mod 2^32; length, type and message stream stay |
| RtmpFormats.Format3Header | net/rtmp/chunk_stream.cpp:248-287 | A format 3 header that starts a message repeats the last one, adding the last difference only right behind format 1 or 2 |
| RtmpFormats.Format3Brings | net/rtmp/chunk_stream.cpp:252-281 | After an extended timestamp it brings a timestamp (behind format 0) or a difference (behind formats 1 and 2) of its own |
| RtmpFormats.Format3Continues | net/rtmp/chunk_stream.cpp:288-304 | Within a message, once there was an extended timestamp, four bytes are dropped if and only if they are the timestamp of the message |
| RtmpFormats.WriterHeaderReads | net/rtmp/chunk_stream.cpp:401-428 | The headers gen_data writes in formats 0, 1 and 2 are read with their length, type and stream, but its timestamp is added as a difference in formats 1 and 2 |
| RtmpFormats.SetChunkSizeTakesEffect | net/rtmp/rtmp_control_handler.cpp:672-680 | After a Set Chunk Size message the four-byte number holds for chunk streams seen for the first time, and not for those in use |
| RtmpFormats.OtherControlMessages | net/rtmp/rtmp_server_session.cpp:115-178 | What becomes of every other message type, by number |
| RtmpFormats.CompressedRoundTrip | net/rtmp/chunk_stream.cpp:122-357 | Every sender that picks, message by message and on any chunk streams 2 to 63, a format that can express the message is read back unchanged, with absolute 32-bit timestamps, under any segmentation and across Set Chunk Size |
| RtmpFormats.FreshInSync | net/rtmp/rtmp_session_base.hpp:55-65 | A fresh session is in step with a sender that has sent nothing and cuts by 128 bytes |
| RtmpSession.ChunkStream.ReadFormat0 | net/rtmp/chunk_stream.cpp:122-167 | The in-place format 0 reader computes the functional one, return code, fields and buffer included |
| RtmpSession.ChunkStream.ReadFormat1 | net/rtmp/chunk_stream.cpp:169-210 | The in-place format 1 reader computes the functional one |
| RtmpSession.ChunkStream.ReadFormat2 | net/rtmp/chunk_stream.cpp:212-246 | The in-place format 2 reader computes the functional one |
| RtmpSession.ChunkStream.ReadFormat3 | net/rtmp/chunk_stream.cpp:248-306 | The in-place format 3 reader, repeated extended timestamps included, computes the functional one |
| RtmpSession.ChunkStream.ReadMessageHeader | net/rtmp/chunk_stream.cpp:308-334 | Dispatch on the format and the phase change compute the functional header reader |
| RtmpSession.ChunkStream.ReadMessagePayload | net/rtmp/chunk_stream.cpp:336-357 | The payload step takes at most a chunk and marks the message complete when nothing remains |
| RtmpSession.ChunkStream.GenData | net/rtmp/chunk_stream.cpp:381-432 | The header for the stream's format and csid and then the data are appended to the outgoing bytes |
| RtmpSession.ChunkStream.Reset | net/rtmp/chunk_stream.cpp:434-439 | Phase, ready flag and payload return to their initial values, the header fields stay |
| RtmpSession.Session.SetChunkSize | net/rtmp/rtmp_session_base.cpp:65-67 | The new size is used for chunk streams created later and leaves existing ones alone |
| RtmpSession.Session.ReadFmtCsid | net/rtmp/rtmp_session_base.cpp:28-63 | The in-place basic header reader computes the functional one |
| RtmpSession.Session.ReadChunkStream | net/rtmp/rtmp_session_base.cpp:180-212 | Finding or creating the chunk stream and reading on it compute the functional step |
| RtmpSession.Session.ReceiveChunkStream | net/rtmp/rtmp_server_session.cpp:94-181 | The loop computes the functional receive loop and fails exactly when the session closes |
| RtmpSession.Session.OnRead | net/rtmp/rtmp_server_session.cpp:72-88 | One piece from the network computes the functional feed step; an empty one closes the session |
| RtmpSession.Session.WriteData | net/rtmp/chunk_stream.cpp:441-484 | The index loop sends exactly the chunks of the message |
| Amf0.Decode | net/rtmp/amf/amf0.hpp:310-446 | A value that decodes consumes bytes, and an error never gives bytes back |
| Amf0.ScalarReads | net/rtmp/amf/amf0.hpp:310-446 | A written scalar decodes to itself in front of any bytes; the length alone decides between string and long string |
| Amf0.ObjectReads | net/rtmp/amf/amf0.hpp:448-476 | A flat object decodes to its properties in any key order, with the end marker left in the data |
| Amf0.EndMarkerReads | net/rtmp/amf/amf0.hpp:438-442 | The end marker decodes as an item of unknown type |
| Amf0.ArrayReads | net/rtmp/amf/amf0.hpp:478-492 | A strict array of scalars decodes to its elements in order |
| Amf0.MixedArrayReads | net/rtmp/amf/amf0.hpp:384-397 | An ECMA array decodes as an object, its count skipped |
| Amf0.DateReads | net/rtmp/amf/amf0.hpp:404-417 | A date decodes to its 64 bits, the time zone skipped |
| Amf0.CommandRoundTrip | net/rtmp/rtmp_control_handler.cpp:111-116 | The command loop recovers every list of scalars and flat objects in order, with exactly one unknown item behind each object |
| Amf0.OnlyUnknownTypesStall | net/rtmp/rtmp_control_handler.cpp:111-116 | Decoding makes no progress exactly on a type byte beyond the known ones, and the command loop then never ends |
| Amf0.EndlessExactly | net/rtmp/rtmp_control_handler.cpp:111-116 | The command loop never ends if and only if an item it comes to, each before it decoded, starts with such a byte |
| Amf0.ScalarLayout | net/rtmp/amf/amf0.hpp:145-226 | The bytes of every scalar: type, length and value |
| Amf0.ObjectLayout | net/rtmp/amf/amf0.hpp:228-304 | The bytes of an object: 03, each key with a two-byte length in front of its value, 00 00 09 |
| Amf0.ScalarCutShort | net/rtmp/amf/amf0.hpp:310-446 | No proper prefix of a written scalar is decoded |
| Amf0.OtherTypes | net/rtmp/amf/amf0.hpp:310-446 | What becomes of the types nobody here writes, by type byte |
| Amf0.AnyNonzeroIsTrue | net/rtmp/amf/amf0.hpp:333-344 | Every nonzero byte is true |
| Amf0.FirstKeyStays | net/rtmp/amf/amf0.hpp:448-476 | Of equal keys of an object the first one stays |
| Amf0.UnknownEndsObject | net/rtmp/amf/amf0.hpp:448-476 | A property of unknown type ends the object with an error, and the properties so far |
| Amf0.UnknownEndsArray | net/rtmp/amf/amf0.hpp:478-492 | An element of unknown type ends the array without an error |
| AmfCodec.DecodeItem | net/rtmp/amf/amf0.hpp:310-320 | The recursive decoder computes the functional one |
| AmfCodec.DecodeValue | net/rtmp/amf/amf0.hpp:321-446 | The switch over the types computes the functional decoder |
| AmfCodec.DecodeAmfObject | net/rtmp/amf/amf0.hpp:448-476 | The property loop computes the functional decoder, the first of equal keys staying |
| AmfCodec.DecodeAmfArray | net/rtmp/amf/amf0.hpp:478-492 | The element loop computes the functional decoder |
| AmfCodec.DecodeCommand | net/rtmp/rtmp_control_handler.cpp:106-116 | The command loop computes the functional one |
| AmfCodec.EncodeNumber | net/rtmp/amf/amf0.hpp:145-159 | The nine bytes of a number are stored field by field and appended |
| AmfCodec.EncodeBool | net/rtmp/amf/amf0.hpp:170-178 | The two bytes of a flag are stored and appended |
| AmfCodec.EncodeString | net/rtmp/amf/amf0.hpp:180-219 | Type byte unless skipped, 2- or 4-byte length by size, and text are stored through the moving pointer and appended: a text value or a key |
| AmfCodec.AppendValue | net/rtmp/amf/amf0.hpp:238-297 | The switch writes each scalar so that the appended bytes decode back to it, nothing for arrays and dates, and fails on nested objects |
| AmfCodec.AppendObject | net/rtmp/amf/amf0.hpp:228-304 | The buffer grows by the object in key order; a refused property returns an error and leaves what was written so far |
| Amf0.ScalarsGoThrough | net/rtmp/amf/amf0.hpp:228-304 | An object of scalars is written whole |
| Amf0.RefusedIsNested | net/rtmp/amf/amf0.hpp:228-304 | Encoding an object fails exactly when a property is an object or of unknown type |
| Flv.Handle | format/flv/flv_demux.cpp:14-137 | Every step that asks to be called again has consumed bytes, so the demux loop terminates |
| FlvRoundTrip.LoopResumes | format/flv/flv_demux.cpp:140-150 | Demuxing a part and then the rest equals demuxing all at once |
| FlvRoundTrip.PiecesAsOne | format/flv/flv_demux.cpp:140-150 | State and packets depend only on the concatenation of the pieces |
| FlvRoundTrip.Demuxes | format/flv/flv_demux.cpp:14-150 | A file header and any list of tags, cut anywhere, yields one packet a tag, in order |
| FlvRoundTrip.ReadsFileHeader | format/flv/flv_demux.cpp:18-40 | The written file header is consumed and its audio and video flags are recovered |
| FlvRoundTrip.FileHeaderLayout | format/flv/flv_mux.cpp:136-152 | The thirteen bytes of the file header |
| FlvRoundTrip.MediaLayout | format/flv/flv_mux.cpp:64-111 | The first media byte by codec and frame type (17 and 27 for H.264, 1c and 2c for H.265, ..., af and 9f for AAC and Opus), then 0 exactly for sequence headers, then pts - dts for video |
| FlvRoundTrip.TagLayout | format/flv/flv_mux.cpp:42-134 | A tag byte by byte: type, sizes, timestamp, stream id, media header, data and previous tag size |
| FlvRoundTrip.VideoMeans | format/flv/flv_demux.cpp:89-118 | What any video tag is taken for, and exactly which are refused |
| FlvRoundTrip.AudioMeans | format/flv/flv_demux.cpp:70-88 | What any audio tag is taken for, and exactly which are refused |
| FlvRoundTrip.OtherTagSkipped | format/flv/flv_demux.cpp:118-137 | A tag of any other type is read over |
| FlvRoundTrip.NoHeaderNoPackets | format/flv/flv_demux.cpp:18-40 | A stream without the signature and header length in its first 13 bytes yields no packets, however it is cut |
| FlvRoundTrip.BackIsIdentity | format/flv/flv_demux.cpp:42-137 | A packet comes back unchanged from its tag exactly when its times and flags can be expressed there |
| FlvRoundTrip.MuxLostHeader | format/flv/flv_mux.cpp:15-40 | When the first packet is unsupported the file header is never sent and the other tags follow without it |
| FlvRoundTrip.MuxRoundTrip | format/flv/flv_mux.cpp:15-152 | Demuxing the muxer's output gives the supported packets back if and only if each is expressible with a zero upper timestamp byte and the header was not lost with an unsupported first packet |
| FlvRoundTrip.HttpRoundTrip | net/httpflv/httpflv_writer.cpp:20-101 | The demuxer inverts the HTTP writer if and only if every packet is expressible with the upper timestamp byte sent and some medium is on (or nothing was sent) |
| FlvRoundTrip.HttpIntact | net/httpflv/httpflv_writer.cpp:66-90 | That condition in terms of the packet alone: dts and pts within 32 bits, pts - dts within 24 |
| FlvRoundTrip.WritersAgree | net/httpflv/httpflv_writer.cpp:46-101 | Given the same packets, muxer and HTTP writer send the same byte stream, file header included, if and only if there are none, or some medium is on and no packet needs the upper timestamp byte |
| FlvObjects.FlvDemuxer.HandlePacket | format/flv/flv_demux.cpp:14-137 | The in-place step computes the functional one, flags, fields, buffer and callbacks included |
| FlvObjects.FlvDemuxer.ReadAudio | format/flv/flv_demux.cpp:70-88 | The codec and packet-type branches compute the functional audio parser |
| FlvObjects.FlvDemuxer.ReadVideo | format/flv/flv_demux.cpp:89-118 | The codec and key-flag branches and the composition time compute the functional video parser |
| FlvObjects.FlvDemuxer.InputPacket | format/flv/flv_demux.cpp:140-150 | The do-while loop computes the functional demuxer |
| FlvObjects.FlvMuxer.InputPacket | format/flv/flv_mux.cpp:15-134 | The muxer sends the file header once and one tag a supported packet |
| FlvObjects.BuildMediaHeader | format/flv/flv_mux.cpp:64-111 | The flag and codec branches build the media header, or refuse exactly the unsupported codecs |
| FlvRoundTrip.HttpBytes | net/httpflv/httpflv_writer.cpp:20-101 | A run of the HTTP writer sends the file header once and then one tag a packet with 32 timestamp bits, or nothing when both media are off |
| FlvObjects.HttpFlvWriter.SendFlvHeader | net/httpflv/httpflv_writer.cpp:20-44 | The file header is written once |
| FlvObjects.HttpFlvWriter.WritePacket | net/httpflv/httpflv_writer.cpp:46-101 | The file header once and one tag around the packet's buffer go out, whatever the codec; other types are skipped, and without a medium or a response nothing goes out |
| FlvObjects.AddFlvMediaHeader | format/flv/flv_mux.cpp:154-208 | The media header is written into the headroom in front of the data |
| Fanout.GopStart | utils/av/gop_cache.cpp:12-43 | The last key frame, or the first packet |
| Fanout.Replay | utils/av/gop_cache.cpp:45-73 | A held header is replayed exactly when it has bytes |
| FanoutRuns.CacheHoldsGop | utils/av/gop_cache.cpp:12-43 | The cached frames are exactly those from the last GOP boundary on |
| FanoutRuns.CacheHoldsHeaders | utils/av/gop_cache.cpp:12-43 | The headers held are the last metadata, video header and audio header inserted, or missing if there was none |
| FanoutRuns.FramesOfOne | utils/av/gop_cache.cpp:12-43 | A packet is a frame exactly if it is video or audio and no sequence header |
| FanoutRuns.InvHolds | utils/av/media_stream_manager.cpp:9-119 | Every run keeps: each entry's cache goes back to where the entry was created, and each player's log to where it was initialised |
| FanoutRuns.EveryPlayerIsGapFree | utils/av/media_stream_manager.cpp:86-119 | Each registered, initialised player has the headers cached at its initialisation, then a gap-free and duplicate-free suffix from the GOP current at that packet, counted from the creation of the entry |
| FanoutRuns.InitAtIsASend | utils/av/media_stream_manager.cpp:97-103 | A player is initialised by a packet sent on its own key, and that is the packet the theorem counts to |
| FanoutRuns.EntryHasAReason | utils/av/media_stream_manager.cpp:29-84 | In every run an entry exists only while it has a publisher or a player |
| FanoutRuns.PublishedIsOnAir | utils/av/media_stream_manager.cpp:53-119 | In every run an entry has its publisher flag exactly if a publish or a packet came after the last end of its key |
| FanoutRuns.JoinRegisters | utils/av/media_stream_manager.cpp:9-27 | A join registers the player unless its id is taken, and takes nobody else away |
| FanoutRuns.ReliableStays | utils/av/media_stream_manager.cpp:86-119 | In every run a player whose writes succeed stays registered until it leaves, and the first packet on its key initialises it |
| FanoutRuns.ReliableMissesNothing | utils/av/media_stream_manager.cpp:9-119 | Such a player, joined under a free id, has the headers, the running GOP and everything sent since |
| FanoutRuns.RejoinIsGapFree | utils/av/media_stream_manager.cpp:9-51 | A player that leaves and joins again in a run receives nothing meanwhile and no backlog: its log is gap-free if and only if no packet was sent on its key while it was away |
| FanoutRuns.RejoinMisses | utils/av/media_stream_manager.cpp:97-112 | Join, a, leave, b, join, c: the player has a and c of the frames a, b, c |
| FanoutObjects.GopCache.InsertPacket | utils/av/gop_cache.cpp:12-43 | The in-place cache computes the functional one |
| FanoutObjects.GopCache.WriterGop | utils/av/gop_cache.cpp:45-83 | The loop of writes serves the headers and then the cached frames, stopping at the first failure |
| FanoutObjects.Manager.AddPlayer | utils/av/media_stream_manager.cpp:9-27 | The in-place maps follow the functional join |
| FanoutObjects.Manager.RemovePlayer | utils/av/media_stream_manager.cpp:29-51 | The in-place maps follow the functional leave, dropping an entry without a reason |
| FanoutObjects.Manager.AddPublisher | utils/av/media_stream_manager.cpp:53-69 | The in-place maps follow the functional publish start |
| FanoutObjects.Manager.RemovePublisher | utils/av/media_stream_manager.cpp:71-84 | The in-place maps follow the functional publish end |
| FanoutObjects.Manager.WriterMediaPacket | utils/av/media_stream_manager.cpp:86-119 | The fan-out loops cache the packet, serve every player and remove those that failed, as the functional step does |
| CrcBits.OctetSplits | utils/byte_crypto.cpp:74-83 | Eight bit steps split into a table part of the low byte and a shift by one byte |
| Crc32.StepIsFeed | utils/byte_crypto.cpp:78-80 | One turn of the table-driven loop is one byte of the bitwise CRC |
| Crc32.GetCrc32 | utils/byte_crypto.cpp:74-83 | For every byte sequence the loop computes the bit-at-a-time reflected CRC-32 with polynomial 0xEDB88320 |
| Crc32.CheckValue | utils/byte_crypto.cpp:74-83 | The digits 1 to 9 have the CRC cbf43926 |
| StunFingerprint.GetFingerprint | net/stun/stun_packet.cpp:419-421 | The fingerprint is the bitwise CRC-32 of the bytes, XORed with 0x5354554e |
| StunFingerprint.FingerprintOfNothing | net/stun/stun_packet.cpp:419-421 | No bytes have the fingerprint 5354554e |
| Stun.ParseAttrs | net/stun/stun_packet.cpp:88-195 | Every recorded position lies inside the message |
| StunRoundTrip.ParsesList | net/stun/stun_packet.cpp:88-195 | The byte loop reads back exactly a written attribute list |
| StunRoundTrip.AttributesTaken | net/stun/stun_packet.cpp:309-394 | The attributes written in front of the integrity one restore every field, and their length is the one precomputed |
| StunRoundTrip.AddressSurvives | net/stun/stun_packet.cpp:353-378 | The XORed address of a success response reads back, as section 15.2 of RFC 5389 has it, as the port and address that were set |
| StunRoundTrip.AddressIsSent | net/stun/stun_packet.cpp:353-378 | A success response carries its address in an attribute 0020 that reads back as the address |
| StunRoundTrip.ErrorSurvives | net/stun/stun_packet.cpp:386-393 | An error code reads back modulo 25600, so unchanged exactly below 25600 |
| StunRoundTrip.TypeFieldReads | net/stun/stun_packet.cpp:74-78 | Method and class survive their interleaving in the type field |
| StunRoundTrip.TotalLenIsAligned | net/stun/stun_packet.cpp:68-70 | Every serialized message has the length divisible by four that the parser demands |
| StunRoundTrip.ParseSerialize | net/stun/stun_packet.cpp:241-438 | For every message that fits 1500 bytes the precomputed length is the length written, and parse accepts it and recovers class, method, transaction id and every attribute |
| StunRoundTrip.FingerprintCovers | net/stun/stun_packet.cpp:419-431 | The fingerprint covers exactly the message in front of it |
| StunRoundTrip.PatchedPrefix | net/stun/stun_packet.cpp:464-471 | With the length field patched, the bytes in front of the integrity value are those it was computed over |
| StunRoundTrip.CoveredIsPrefix | net/stun/stun_packet.cpp:396-417 | The HMAC is taken over the bytes in front of the integrity attribute, with a length field as if the message ended with that attribute |
| StunRoundTrip.AuthDecides | net/stun/stun_packet.cpp:440-482 | check_auth on a written message decides by class, user name and equality of the HMAC under both passwords |
| StunRoundTrip.AcceptsSharedPassword | net/stun/stun_packet.cpp:440-482 | A request or indication for "L:R" with the shared password is accepted by L |
| StunAccepts.TakesOrdered | net/stun/stun_packet.cpp:88-195 | The attribute loop takes exactly the lists of attributes of the right sizes with only a fingerprint behind an integrity attribute and nothing behind a fingerprint, and keeps the last of each type |
| StunAccepts.ParseDecides | net/stun/stun_packet.cpp:44-220 | A message that attributes tile is accepted if and only if they have their order and sizes and a fingerprint carries the CRC of the bytes in front of it; class, method, id and fields are those of the bytes |
| StunAccepts.AcceptsExactly | net/stun/stun_packet.cpp:44-220 | parse accepts exactly the byte sequences with a right header and length that some such attributes tile |
| StunAccepts.FingerprintIsChecked | net/stun/stun_packet.cpp:201-218 | With another value in its fingerprint an accepted message is refused |
| StunAccepts.UserNameDecides | net/stun/stun_packet.cpp:440-482 | A user name "M:R" is for L exactly if M is L, for M and L without colons |
| StunAccepts.OthersAreRefused | net/stun/stun_packet.cpp:440-482 | A request or indication for somebody else is refused, whatever the password |
| StunObjects.ParseMessage | net/stun/stun_packet.cpp:44-220 | The pointer-moving parser computes the functional one |
| StunObjects.WalkAttributes | net/stun/stun_packet.cpp:88-199 | The attribute loop computes the functional one |
| StunObjects.TakeAttribute | net/stun/stun_packet.cpp:99-194 | The order checks and the switch over the types compute the functional step |
| StunObjects.CheckAuthentication | net/stun/stun_packet.cpp:440-482 | The patched length field is put back: the bytes are unchanged, and the answer is the functional one |
| StunObjects.MessageBuffer.SerializeInto | net/stun/stun_packet.cpp:241-438 | The two-pass serializer writes exactly the functional message, and its final length check never fails |
| StunObjects.MessageBuffer.WriteIntegrity | net/stun/stun_packet.cpp:396-417 | The length field is patched for the HMAC and recovered behind the integrity attribute |
| SeqNumbers.LowerIsTotal | net/rtprtcp/rtprtcp_pub.hpp:146-163 | Of two different numbers exactly one is lower; within 32767 of each other it is the smaller one |
| SeqNumbers.LowerIsBehind | net/rtprtcp/rtprtcp_pub.hpp:146-163 | Lower is behind by less than half the ring; of opposite numbers the larger one is lower |
| RtpSeq.WindowStep | net/webrtc/rtp_recv_stream.cpp:45-79 | A packet strictly within -100 and +3000 of the highest number moves the state to the new highest number |
| RtpSeq.ExtendedIsHighest | net/webrtc/rtp_recv_stream.cpp:37-79 | In every run inside that window cycles_ + max_seq_ is the highest unwrapped number modulo 2^32, and nothing is discarded |
| RtpSeq.BadIsSuccessor | net/webrtc/rtp_recv_stream.cpp:61-75 | bad_seq_ is the successor of the last refused packet outside the window, or no sequence number |
| RtpSeq.ResyncNeedsPredecessor | net/webrtc/rtp_recv_stream.cpp:61-75 | A packet outside the window moves the stream if and only if the previous one outside it was refused and is its predecessor; else it is discarded |
| RtpSeq.RecvStream.InitSeq | net/webrtc/rtp_recv_stream.cpp:37-42 | The fields take the functional initial state |
| RtpSeq.RecvStream.UpdateSeq | net/webrtc/rtp_recv_stream.cpp:45-79 | The in-place update computes the functional one |
| NackGenerator.TrimKeepsHighest | net/webrtc/nack_generator.cpp:97-104 | Trimming keeps the highest keys unchanged, at most 5000 |
| NackGenerator.GapIsListed | net/webrtc/nack_generator.cpp:46-63 | A higher number lists exactly the numbers skipped if and only if the gap does not cross the wrap, starts right behind 65535, or was listed already; else nothing is listed |
| NackGenerator.HoldsTheGaps | net/webrtc/nack_generator.cpp:20-105 | In every run within a stretch of 32768 the map holds exactly the numbers between first and highest that never arrived, minus those given up and those trimmed |
| NackGenerator.RequestsAreBounded | net/webrtc/nack_generator.cpp:66-105 | Every number is requested at most 21 times, at least rtt apart, and given up only after exactly 21 requests |
| NackGenerator.LostNumbersAreChased | net/webrtc/nack_generator.cpp:66-105 | A number still missing is listed, was requested 21 times, or was trimmed |
| NackGenerator.TimerRequestsWhatIsDue | net/webrtc/nack_generator.cpp:66-105 | Every timer requests exactly the numbers missing, not given up or trimmed, that were requested at most 20 times and not within rtt |
| NackGenerator.Generator.UpdateNackList | net/webrtc/nack_generator.cpp:20-64 | The in-place update and its insertion loop compute the functional one |
| NackGenerator.Generator.AskAgain | net/webrtc/nack_generator.cpp:71-95 | The erase-while-iterating loop retires and renews the entries and collects the due numbers in increasing order |
| NackGenerator.Generator.OnTimer | net/webrtc/nack_generator.cpp:66-105 | One timer computes the functional one, and the list given to the callback is sorted and holds exactly the due numbers |
| NackPacket.BitmapMeans | net/rtprtcp/rtcpfb_nack.hpp:87-94 | A bit is set exactly for the reported numbers 1 to 16 behind the base |
| NackPacket.SetBitAdds | net/rtprtcp/rtcpfb_nack.hpp:89-94 | The bit at position d of a word weighs 2 to the power of the positions behind it |
| NackPacket.LostMeans | net/rtprtcp/rtcpfb_nack.hpp:105-122 | A block reads as its base and the number i + 1 behind it for each bit i set, around the wrap |
| NackPacket.BlockRoundTrip | net/rtprtcp/rtcpfb_nack.hpp:87-122 | A report comes back from its block if and only if it is strictly increasing |
| NackPacket.OnlyNarrowLists | net/rtprtcp/rtcpfb_nack.hpp:69-85 | insert_seq_list avoids undefined shifts exactly on lists within -15 and 16 of their first number, and packs them into one block |
| NackPacket.MessageRoundTrip | net/rtprtcp/rtcpfb_nack.hpp:87-122 | Increasing reports packed block by block and read back give their concatenation |
| NackPacket.ReadsBack | net/rtprtcp/rtcpfb_nack.hpp:105-122 | The same from a receive buffer, whatever lies behind the message |
| NackPacket.LengthCountsWords | net/rtprtcp/rtcpfb_nack.hpp:46-48 | The length field is the number of words minus one exactly when there is a block |
| NackPacket.HeaderLayout | net/rtprtcp/rtcpfb_nack.hpp:36-50 | The header bytes 81 and cd, the sender and the media source |
| NackPacket.NackMessage.constructor | net/rtprtcp/rtcpfb_nack.hpp:36-50 | The header bytes of an empty message, its wrong length field included |
| NackPacket.NackMessage.InsertBlock | net/rtprtcp/rtcpfb_nack.hpp:87-103 | The byte array grows by one block and the header's length follows |
| NackPacket.NackMessage.BuildBitmap | net/rtprtcp/rtcpfb_nack.hpp:89-94 | The loop sets exactly the bits of the functional bitmap |
| NackPacket.NackMessage.InsertSeqList | net/rtprtcp/rtcpfb_nack.hpp:69-85 | A narrow list becomes one block, an empty one none |
| NackPacket.NackMessage.Parse | net/rtprtcp/rtcpfb_nack.hpp:58-66 | A message longer than its header is copied and its block positions found; a shorter one is refused |
| NackPacket.NackMessage.GetLostSeqs | net/rtprtcp/rtcpfb_nack.hpp:105-122 | The loops over blocks and bits compute the functional reading |
| SendBuffer.SaveKeepsValid | net/webrtc/rtp_send_stream.cpp:21-52 | Any save, duplicates, wraps and number 0 included, keeps the buffer within its limit, first_seq_ a key, and live clones and entries one to one |
| SendBuffer.Run | net/webrtc/rtp_send_stream.cpp:21-52 | Every run of saves keeps that invariant |
| SendBuffer.SaveReplaces | net/webrtc/rtp_send_stream.cpp:21-52 | A save leaves the new packet, also in place of one with its number, and the other entries as they were |
| SendBuffer.NextOldest | net/webrtc/rtp_send_stream.cpp:43-51 | The map's next key, around its end, is the next oldest number |
| SendBuffer.SaveKeepsLatest | net/webrtc/rtp_send_stream.cpp:21-52 | A save keeps the buffer to the latest packets if and only if first_seq_ is not 0 |
| SendBuffer.HoldsTheLatest | net/webrtc/rtp_send_stream.cpp:21-52 | For growing numbers, wrapping included, the buffer is always exactly the latest packets if and only if no packet arrives while the oldest has number 0 |
| SendBuffer.IncreasingRun | net/webrtc/rtp_send_stream.cpp:21-52 | For increasing nonzero numbers the buffer is exactly the last packets, as many as fit |
| SendBuffer.SaveAtZero | net/webrtc/rtp_send_stream.cpp:38-51 | With first_seq_ at 0 the newest packet takes its place, and is dropped at once when the buffer is full |
| SendBuffer.StuckAtZero | net/webrtc/rtp_send_stream.cpp:38-51 | A full buffer with first_seq_ at 0 drops every later packet with a higher number |
| SendBuffer.RetransmissionBuffer.SaveBuffer | net/webrtc/rtp_send_stream.cpp:21-52 | The eviction loop computes the functional save, deleting only live clones |
| SendBuffer.RetransmissionBuffer.ClearBuffer | net/webrtc/rtp_send_stream.cpp:60-67 | Every clone is deleted |
| RtpPacket.OneByteIsDisjoint | net/rtprtcp/rtp_packet.cpp:175-221 | One-byte elements recorded lie disjointly inside the extension, where their headers say |
| RtpPacket.TwoBytesIsDisjoint | net/rtprtcp/rtp_packet.cpp:223-269 | Two-byte elements recorded lie disjointly inside the extension, where their headers say |
| RtpPacket.ParseFindsTheTiling | net/rtprtcp/rtp_packet.cpp:9-56 | parse accepts exactly the packets that header, CSRCs, extension, nonempty payload and padding tile, and finds that tiling |
| RtpPacket.ElementsAreDisjoint | net/rtprtcp/rtp_packet.cpp:160-269 | In every accepted packet the elements lie disjointly inside the extension, and only one of the two maps is filled |
| RtpExtensions.OneByteDecides | net/rtprtcp/rtp_packet.cpp:175-221 | Whatever one-byte elements, padding and end mark are written, exactly they are recorded at their offsets; the parser throws exactly when an element is cut off |
| RtpExtensions.OneByteCovers | net/rtprtcp/rtp_packet.cpp:175-221 | Every byte sequence is such a list |
| RtpExtensions.TwoByteDecides | net/rtprtcp/rtp_packet.cpp:223-269 | The same for the two-byte form |
| RtpExtensions.TwoByteCovers | net/rtprtcp/rtp_packet.cpp:223-269 | Every byte sequence is a list of the two-byte form |
| RtpExtensions.PlacedMeans | net/rtprtcp/rtp_packet.cpp:209-209 | An identifier is recorded exactly if an element has it |
| RtpExtensions.LastIsPlaced | net/rtprtcp/rtp_packet.cpp:209-209 | It is recorded at its last element |
| RtpExtensions.FixedReads | net/rtprtcp/rtprtcp_pub.hpp:96-116 | The fixed header bit by bit |
| RtpExtensions.WrittenParses | net/rtprtcp/rtp_packet.cpp:9-76 | Every packet written with CSRCs, an extension of any profile, payload and padding parses to where these lie, with the elements of its extension, or throws exactly for the extension |
| RtpPacket.DemuxedFields | net/rtprtcp/rtp_packet.cpp:286-305 | After rtx_demux the header has the original number, the given ssrc and type, and its old marker and timestamp |
| RtpPacket.DemuxedReparses | net/rtprtcp/rtp_packet.cpp:286-305 | After rtx_demux the packet parses again if and only if payload is left, to the payload minus two bytes, the same elements and no padding |
| RtpPacket.RtpPacketObject.FindLayout | net/rtprtcp/rtp_packet.cpp:9-51 | The pointer-advancing checks compute the functional layout |
| RtpPacket.RtpPacketObject.ParseBuffer | net/rtprtcp/rtp_packet.cpp:9-76 | A packet object is made exactly for accepted packets and describes its buffer |
| RtpPacket.RtpPacketObject.ParseOneByteExt | net/rtprtcp/rtp_packet.cpp:175-221 | The loop fills the map of the functional parser |
| RtpPacket.RtpPacketObject.ParseTwoBytesExt | net/rtprtcp/rtp_packet.cpp:223-269 | The loop fills the map of the functional parser |
| RtpPacket.RtpPacketObject.Demux | net/rtprtcp/rtp_packet.cpp:286-305 | Rewriting the header and moving the payload in place leave exactly the functional packet, or nothing changes when the payload is too short |
| NtpTime.FracRounds | utils/timeex.hpp:54-59 | A fraction up to 16 bits and one unit short still rounds to its millisecond |
| NtpTime.RoundTrip | utils/timeex.hpp:46-59 | For all milliseconds below 1000*2^32, to NTP and back is the identity, even without the low 16 fraction bits |
| NtpTime.NtpIsFixedPoint | utils/timeex.hpp:46-52 | A time stamp is the time in units of 2^-32 seconds, rounded down |
| NtpTime.MiddleIsMiddle | net/webrtc/rtp_send_stream.cpp:129-136 | Its middle 32 bits are units of 2^-16 seconds modulo 2^16 seconds |
| NtpTime.KeptIsMiddle | net/webrtc/rtp_recv_stream.cpp:117-117 | The receiver echoes the middle 32 bits exactly when both halves of the fraction agree |
| NtpTime.KeptAtFifths | net/webrtc/rtp_recv_stream.cpp:117-117 | What the receiver echoes for a report is the middle 32 bits, and stands for its time, if and only if the report left at a whole fifth of a second |
| NtpTime.KeptIsNotMiddle | net/webrtc/rtp_recv_stream.cpp:117-117 | One millisecond into a second it is not |
| NtpTime.RttOfKept | net/webrtc/rtp_send_stream.cpp:118-152 | With such an echo rtt_ is the clamped difference within the epochs plus the report's milliseconds minus those the low half of its fraction stands for, or the default for an echo of 0 |
| NtpTime.CutTime | net/webrtc/rtp_send_stream.cpp:133-143 | A time stamp cut to its middle bits stands for the milliseconds within its 65536-second epoch |
| NtpTime.DlsrFits | net/webrtc/rtp_send_stream.cpp:138-138 | The 32-bit product is exact if and only if dlsr is at most 4294967 |
| NtpTime.RttIsDifference | net/webrtc/rtp_send_stream.cpp:118-152 | For an echoed nonzero time stamp in the same epoch and an exact product, rtt_ is now - sr - floor(dlsr*1000/65536), clamped |
| NtpTime.RttAcrossEpochs | net/webrtc/rtp_send_stream.cpp:145-149 | rtt_ is 1 whenever the clock is less far in its epoch than the sender report was, as in the next epoch less than an epoch later |
| NtpTime.SmoothStaysBetween | net/webrtc/rtp_send_stream.cpp:153-157 | The average stays between its old value and the new sample |
| NtpTime.SmoothIsASixteenth | net/webrtc/rtp_send_stream.cpp:153-157 | The average moves by a sixteenth of the difference, less than one sixteenth short of it |
| NtpTime.SmoothConverges | net/webrtc/rtp_send_stream.cpp:153-157 | After n equal samples the distance is at least (15/16)^n of the first one, and beyond 15 at most that |
| NtpTime.SendStream.HandleRtcpRr | net/webrtc/rtp_send_stream.cpp:118-157 | The fields take the functional round-trip time and average |

## Left out

- Sockets, timers, TCP and UDP queues, websocket and HTTP sessions: their input is any list of byte pieces, their output a log.
- OpenSSL, DTLS, SRTP, the RTMP handshake digest: foreign calls; HMAC-SHA1 is an arbitrary function with a 20-byte result.
- SDP and everything built on a JSON library, room_service and user_info: they are not part of this model.
- RTMP message handlers: what they answer is an arbitrary function of the messages delivered so far (refuse, or accept with a chunk size); phase transitions are not modelled.
- RTMP csid 64 and above on the write side: reader and writer do not invert each other there (`RtmpWriter.BasicHeaderReads`), so the round trips exclude them.
- RTMP chunk-size changes between the two ends in mid-stream: the round trips keep one size.
- RTMP session close: closing empties the receive buffer and does nothing else; fields never read (require_len_, msg_count_) are omitted.
- DataBuffer.Buffer.Compact: the copy is a snapshot; where memcpy gets overlapping blocks the source's result is undefined (`DataBuffer.CompactOverlaps`).
- RtmpWriter.RoundTrip: csid 64 and above and timestamp fields of all ones are outside it, because reader and writer do not invert each other there.
- RtmpWriter.RoundTripExact: the same csids and timestamp fields are outside it.
- RtmpWriter.MarkerStalls: a message of more than one chunk is outside it; the reader is out of step from its second chunk header on, and what it makes of the rest depends on the payload.
- RtmpWriter.MarkerGarbles: a message of more than one chunk is outside it in the same way.
- FlvObjects.AddFlvMediaHeader: needs five bytes of headroom; with fewer the source writes through a null pointer.
- StunObjects.MessageBuffer.SerializeInto: starts from the zeroed buffer of the constructor; in a buffer used before, padding keeps old bytes.
- NackPacket.NackMessage.InsertBlock: numbers outside -15 to 16 of the base shift by an undefined amount.
- NackPacket.NackMessage.InsertSeqList: lists wider than 16 make the same undefined shift.
- NackPacket.NackMessage.Parse: input longer than 1500 bytes would be copied past the array.
- Memory copies are snapshots, and buffer lengths are unbounded: int overflow beyond 2^31 bytes is not modelled.
- FLV tags smaller than their media header: the source reads past the tag; the model treats them as a failure.
- FLV callbacks that fail, and the response going away during a write: callbacks return 0, a closed response is a flag.
- FanoutRuns.InvHolds: the runs excluded on the next line are outside it.
- FanoutRuns.EveryPlayerIsGapFree: runs in which a player joins that was initialised before and is not registered now are excluded; both callers register a newly built writer (net/rtmp/rtmp_server_session.cpp:144-145, net/httpflv/httpflv_server.cpp:32), and `FanoutRuns.RejoinIsGapFree` says exactly when such a player is gap-free.
- FanoutRuns.InitAtIsASend: the same runs are outside it.
- AMF0 temporary buffers: the encoder allocates one byte too few when it writes a string's type; the model appends the bytes.
- AMF0 failed assertions and reads past the data end decoding: both are one outcome in the model.
- STUN methods of 128 and above: `is_stun` refuses some of their first bytes; only the binding method exists.
- STUN IPv6 addresses: the serializer writes no attribute for them.
- STUN authentication without a MESSAGE-INTEGRITY attribute: the source follows a null pointer; the model has an outcome of its own for it.
- STUN messages over 1500 bytes: the serializer would write past its array before it notices.
- NACK lists wider than 16: the shift is undefined; `NackPacket.OnlyNarrowLists` says exactly when that happens.
- NackGenerator.HoldsTheGaps: runs that leave one stretch of 32768 numbers are outside it; gaps across the wrap are not listed by the source, and `NackGenerator.GapIsListed` says exactly which.
- NackGenerator.RequestsAreBounded: the same runs are outside it.
- NackGenerator.LostNumbersAreChased: the same runs are outside it.
- NACK retransmission requests to the send buffer (handle_fb_rtp_nack), packet counts and report fields: they would only add easy members.
- get_expected_packets, get_packet_lost and the jitter estimate: the expected count uses bad_seq_ where base_seq_ is meant, and jitter is floating point.
- RTP clone: a copy that is parsed again, covered by `RtpPacket.ParseFindsTheTiling`.
- Floating-point rounding in the NTP conversions: they are exact arithmetic here.
- Logging, dump functions, statistics and configuration: omitted.
