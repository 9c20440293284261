/**
 * RTP packets as net/rtprtcp/rtp_packet.cpp parses them, with header extensions
 * (sections 4.2 and 4.3 of RFC 5285) and retransmissions (section 4 of RFC 4588).
 */
module RtpPacket {
  import opened Bytes
  import opened SeqNumbers

  const HEADER_SIZE := 12
  const MAX_SIZE := 1500

  /** Throw stands for every exception parse ends in. */
  datatype Result<T> = Throw | Ok(value: T)

  // ----- header fields -----

  function CsrcCount(d: seq<byte>): nat
    requires d != []
  {
    d[0] % 0x10
  }

  predicate HasExtension(d: seq<byte>)
    requires d != []
  {
    d[0] / 0x10 % 2 == 1
  }

  predicate HasPadding(d: seq<byte>)
    requires d != []
  {
    d[0] / 0x20 % 2 == 1
  }

  function PayloadType(d: seq<byte>): nat
    requires |d| >= 2
  {
    d[1] % 0x80
  }

  predicate Marker(d: seq<byte>)
    requires |d| >= 2
  {
    d[1] >= 0x80
  }

  function Sequence(d: seq<byte>): Seq16
    requires |d| >= HEADER_SIZE
  {
    Get2(d[2..4])
  }

  function Timestamp(d: seq<byte>): seq<byte>
    requires |d| >= HEADER_SIZE
  {
    d[4..8]
  }

  function Ssrc(d: seq<byte>): nat
    requires |d| >= HEADER_SIZE
  {
    Get4(d[8..12])
  }

  // ----- header extensions -----

  /** An element's offset in the extension and its size, its own header included. */
  datatype Element = Element(at: nat, size: nat)
  type Elements = map<nat, Element>

  function SkipZeros(e: seq<byte>, p: nat): (r: nat)
    ensures p <= r && (p <= |e| ==> r <= |e|)
    decreases |e| - p
  {
    if p < |e| && e[p] == 0 then SkipZeros(e, p + 1) else p
  }

  /** parse_onebyte_ext from offset p on. */
  function OneByte(e: seq<byte>, p: nat, m: Elements): Result<Elements>
    decreases |e| - p
  {
    if p >= |e| then Ok(m)
    else
      var id, len := e[p] / 0x10, e[p] % 0x10 + 1;
      if id == 0x0f then Ok(m)
      else if id == 0 then OneByte(e, SkipZeros(e, p + 1), m)
      else if p + 1 + len > |e| then Throw
      else OneByte(e, SkipZeros(e, p + 1 + len), m[id := Element(p, 1 + len)])
  }

  /** parse_twobytes_ext from offset p on. */
  function TwoBytes(e: seq<byte>, p: nat, m: Elements): Result<Elements>
    decreases |e| - p
  {
    if p + 1 >= |e| then Ok(m)
    else
      var id: nat, len: nat := e[p], e[p + 1];
      if id == 0 then TwoBytes(e, SkipZeros(e, p + 1), m)
      else if p + 2 + len > |e| then Throw
      else TwoBytes(e, SkipZeros(e, p + 2 + len), m[id := Element(p, 2 + len)])
  }

  /** The elements lie one beside the other in the first n bytes. */
  predicate Disjoint(m: Elements, n: nat) {
    && (forall id <- m.Keys :: m[id].size > 0 && m[id].at + m[id].size <= n)
    && (forall i, j :: i in m && j in m && i != j ==>
          m[i].at + m[i].size <= m[j].at || m[j].at + m[j].size <= m[i].at)
  }

  /** Every element is where its header in the extension says. */
  predicate OneByteHeaders(e: seq<byte>, m: Elements) {
    forall id <- m.Keys ::
      && 1 <= id <= 14 && m[id].at < |e|
      && e[m[id].at] / 0x10 == id && m[id].size == 2 + e[m[id].at] % 0x10
  }

  predicate TwoByteHeaders(e: seq<byte>, m: Elements) {
    forall id <- m.Keys ::
      && 1 <= id && m[id].at + 1 < |e|
      && e[m[id].at] == id && m[id].size == 2 + e[m[id].at + 1] as int
  }

  lemma AddElement(m: Elements, id: nat, at: nat, size: nat)
    requires Disjoint(m, at) && size > 0
    ensures Disjoint(m[id := Element(at, size)], at + size)
  {
  }

  lemma WiderDisjoint(m: Elements, n: nat, n': nat)
    requires Disjoint(m, n) && n <= n'
    ensures Disjoint(m, n')
  {
  }

  lemma OneByteAdded(e: seq<byte>, p: nat, m: Elements)
    requires OneByteHeaders(e, m) && p < |e| && 1 <= e[p] / 0x10 <= 14
    ensures OneByteHeaders(e, m[e[p] / 0x10 := Element(p, 2 + e[p] % 0x10)])
  {
  }

  lemma {:induction false} OneByteIsDisjoint(e: seq<byte>, p: nat, m: Elements)
    requires p <= |e| && Disjoint(m, p) && OneByteHeaders(e, m)
    ensures var r := OneByte(e, p, m);
            r.Ok? ==> Disjoint(r.value, |e|) && OneByteHeaders(e, r.value)
    decreases |e| - p
  {
    hide Disjoint;
    hide OneByteHeaders;
    WiderDisjoint(m, p, |e|);
    if p == |e| || e[p] / 0x10 == 0x0f {
      assert OneByte(e, p, m) == Ok(m);
    } else {
      var id, len := e[p] / 0x10, e[p] % 0x10 + 1;
      if id == 0 {
        WiderDisjoint(m, p, SkipZeros(e, p + 1));
        OneByteIsDisjoint(e, SkipZeros(e, p + 1), m);
      } else if p + 1 + len <= |e| {
        AddElement(m, id, p, 1 + len);
        OneByteAdded(e, p, m);
        WiderDisjoint(m[id := Element(p, 1 + len)], p + 1 + len, SkipZeros(e, p + 1 + len));
        OneByteIsDisjoint(e, SkipZeros(e, p + 1 + len), m[id := Element(p, 1 + len)]);
      }
    }
  }

  lemma TwoBytesAdded(e: seq<byte>, p: nat, m: Elements)
    requires TwoByteHeaders(e, m) && p + 1 < |e| && e[p] != 0
    ensures TwoByteHeaders(e, m[e[p] as nat := Element(p, 2 + e[p + 1] as int)])
  {
  }

  lemma {:induction false} TwoBytesIsDisjoint(e: seq<byte>, p: nat, m: Elements)
    requires p <= |e| && Disjoint(m, p) && TwoByteHeaders(e, m)
    ensures var r := TwoBytes(e, p, m);
            r.Ok? ==> Disjoint(r.value, |e|) && TwoByteHeaders(e, r.value)
    decreases |e| - p
  {
    hide Disjoint;
    hide TwoByteHeaders;
    WiderDisjoint(m, p, |e|);
    if p + 1 >= |e| {
      assert TwoBytes(e, p, m) == Ok(m);
    } else {
      var id: nat, len: nat := e[p], e[p + 1];
      if id == 0 {
        WiderDisjoint(m, p, SkipZeros(e, p + 1));
        TwoBytesIsDisjoint(e, SkipZeros(e, p + 1), m);
      } else if p + 2 + len <= |e| {
        AddElement(m, id, p, 2 + len);
        TwoBytesAdded(e, p, m);
        WiderDisjoint(m[id := Element(p, 2 + len)], p + 2 + len, SkipZeros(e, p + 2 + len));
        TwoBytesIsDisjoint(e, SkipZeros(e, p + 2 + len), m[id := Element(p, 2 + len)]);
      }
    }
  }

  // ----- whole packets -----

  datatype Packet = Packet(
    extAt: nat,
    extLen: nat,
    payloadAt: nat,
    payloadLen: nat,
    padLen: nat,
    oneByte: Elements,
    twoBytes: Elements)

  /** The extension behind its four-byte header, by the profile that header names. */
  function ParseExtension(profile: nat, e: seq<byte>): Result<(Elements, Elements)> {
    if profile == 0xBEDE then
      var r := OneByte(e, 0, map[]);
      if r.Ok? then Ok((r.value, map[])) else Throw
    else if profile / 0x10 == 0x100 then
      var r := TwoBytes(e, 0, map[]);
      if r.Ok? then Ok((map[], r.value)) else Throw
    else Throw
  }

  /** A packet shorter than its header is rejected whatever its first byte says. */
  function Layout(d: seq<byte>): Result<Packet> {
    if |d| > MAX_SIZE || |d| < HEADER_SIZE then Throw
    else
      var extAt := HEADER_SIZE + 4 * CsrcCount(d);
      if HasExtension(d) && |d| < extAt + 4 then Throw
      else
        var extLen := if HasExtension(d) then Get2(d[extAt + 2..extAt + 4]) * 4 else 0;
        var payloadAt := if HasExtension(d) then extAt + 4 + extLen else extAt;
        if |d| <= payloadAt then Throw
        else
          var padLen := if HasPadding(d) then d[|d| - 1] else 0;
          if padLen > 0 && |d| - payloadAt <= padLen then Throw
          else Ok(Packet(extAt, extLen, payloadAt, |d| - payloadAt - padLen, padLen, map[], map[]))
  }

  function Parse(d: seq<byte>): Result<Packet> {
    var layout := Layout(d);
    if layout.Throw? || !HasExtension(d) then layout
    else
      var p := layout.value;
      var elements := ParseExtension(Get2(d[p.extAt..p.extAt + 2]), d[p.extAt + 4..p.payloadAt]);
      if elements.Throw? then Throw
      else Ok(p.(oneByte := elements.value.0, twoBytes := elements.value.1))
  }

  /** Header, CSRCs, extension, payload and padding follow one another and fill the packet. */
  predicate Tiles(d: seq<byte>, p: Packet) {
    && HEADER_SIZE <= |d| <= MAX_SIZE
    && p.extAt == HEADER_SIZE + 4 * CsrcCount(d)
    && p.payloadAt == p.extAt + (if HasExtension(d) then 4 + p.extLen else 0)
    && p.payloadLen > 0 && p.payloadAt + p.payloadLen + p.padLen == |d|
    && p.padLen == (if HasPadding(d) then d[|d| - 1] else 0)
    && (if HasExtension(d) then p.extLen == 4 * Get2(d[p.extAt + 2..p.extAt + 4]) else p.extLen == 0)
  }

  predicate ElementsFound(d: seq<byte>, p: Packet)
    requires Tiles(d, p)
  {
    if HasExtension(d) then
      ParseExtension(Get2(d[p.extAt..p.extAt + 2]), d[p.extAt + 4..p.payloadAt]) == Ok((p.oneByte, p.twoBytes))
    else p.oneByte == map[] && p.twoBytes == map[]
  }

  /** parse accepts exactly the packets that can be tiled, and finds that tiling. */
  lemma ParseFindsTheTiling(d: seq<byte>, p: Packet)
    ensures Parse(d) == Ok(p) <==> Tiles(d, p) && ElementsFound(d, p)
  {
    hide ParseExtension;
    hide Get2;
  }

  /** The elements recorded lie disjointly inside the extension, where their headers say. */
  lemma ElementsAreDisjoint(d: seq<byte>, p: Packet)
    requires Parse(d) == Ok(p)
    ensures Tiles(d, p)
    ensures p.oneByte == map[] || p.twoBytes == map[]
    ensures Disjoint(p.oneByte, p.extLen) && Disjoint(p.twoBytes, p.extLen)
    ensures HasExtension(d) ==>
      var e := d[p.extAt + 4..p.payloadAt];
      OneByteHeaders(e, p.oneByte) && TwoByteHeaders(e, p.twoBytes)
  {
    hide OneByte;
    hide TwoBytes;
    hide Get2;
    ParseFindsTheTiling(d, p);
    hide Parse;
    if HasExtension(d) {
      var e := d[p.extAt + 4..p.payloadAt];
      OneByteIsDisjoint(e, 0, map[]);
      TwoBytesIsDisjoint(e, 0, map[]);
    }
  }

  // ----- retransmissions -----

  function ClearPadding(b: byte): byte {
    if b / 0x20 % 2 == 1 then b - 0x20 else b
  }

  /** The payload lies behind the fixed header and inside the packet. */
  predicate PayloadInside(d: seq<byte>, p: Packet) {
    HEADER_SIZE <= p.payloadAt && p.payloadAt + p.payloadLen <= |d|
  }

  /** The packet rtx_demux leaves: the original number moves from the payload into the header. */
  function RtxDemux(d: seq<byte>, p: Packet, ssrc: nat, payloadType: nat): Result<seq<byte>>
    requires PayloadInside(d, p)
  {
    if p.payloadLen < 2 then Throw
    else
      Ok([ClearPadding(d[0]), d[1] / 0x80 * 0x80 + payloadType % 0x80]
         + d[p.payloadAt..p.payloadAt + 2] + d[4..8] + Put4(ssrc)
         + d[HEADER_SIZE..p.payloadAt] + d[p.payloadAt + 2..p.payloadAt + p.payloadLen])
  }

  /** The buffer after the header fields are set. */
  function Renamed(s: seq<byte>, payloadType: nat, number: seq<byte>, ssrc: seq<byte>): (r: seq<byte>)
    requires |s| >= HEADER_SIZE && |number| == 2 && |ssrc| == 4
    ensures |r| == |s|
  {
    [s[0], s[1] / 0x80 * 0x80 + payloadType % 0x80] + number + s[4..8] + ssrc + s[HEADER_SIZE..]
  }

  /** The buffer after len - 2 bytes have moved down by two. */
  function Shifted(s: seq<byte>, at: nat, len: nat): (r: seq<byte>)
    requires len >= 2 && at + len <= |s|
    ensures |r| == |s|
  {
    s[..at] + s[at + 2..at + len] + s[at + len - 2..]
  }

  lemma ClearedBits(b: byte)
    ensures ClearPadding(b) / 0x20 % 2 == 0
    ensures ClearPadding(b) % 0x10 == b % 0x10 && ClearPadding(b) / 0x10 % 2 == b / 0x10 % 2
  {
    var high, low := b / 0x20, b % 0x20;
    if high % 2 == 1 {
      Quotients(b - 0x20, high - 1, low);
      Quotients(b, high, low);
    }
  }

  lemma Quotients(b: nat, high: nat, low: nat)
    requires b == 0x20 * high + low && low < 0x20
    ensures b / 0x20 == high && b % 0x10 == low % 0x10
    ensures b / 0x10 % 2 == low / 0x10
  {
    assert b / 0x10 == 2 * high + low / 0x10;
  }

  lemma DemuxedHeader(d: seq<byte>, p: Packet, ssrc: nat, payloadType: nat)
    requires Tiles(d, p) && p.payloadLen >= 2
    ensures RtxDemux(d, p, ssrc, payloadType).Ok?
    ensures var r := RtxDemux(d, p, ssrc, payloadType).value;
            && |r| == p.payloadAt + p.payloadLen - 2
            && CsrcCount(r) == CsrcCount(d) && HasExtension(r) == HasExtension(d) && !HasPadding(r)
            && r[HEADER_SIZE..p.payloadAt] == d[HEADER_SIZE..p.payloadAt]
            && r[p.payloadAt..] == d[p.payloadAt + 2..p.payloadAt + p.payloadLen]
  {
    hide Put4;
    hide ClearPadding;
    ClearedBits(d[0]);
    var r := RtxDemux(d, p, ssrc, payloadType).value;
    var head := [ClearPadding(d[0]), d[1] / 0x80 * 0x80 + payloadType % 0x80]
      + d[p.payloadAt..p.payloadAt + 2] + d[4..8] + Put4(ssrc);
    var middle, rest := d[HEADER_SIZE..p.payloadAt], d[p.payloadAt + 2..p.payloadAt + p.payloadLen];
    assert r == head + (middle + rest);
    assert r[HEADER_SIZE..] == middle + rest;
    assert r[HEADER_SIZE..p.payloadAt] == r[HEADER_SIZE..][..|middle|] == middle;
    assert r[p.payloadAt..] == r[HEADER_SIZE..][|middle|..] == rest;
  }

  lemma DemuxedFields(d: seq<byte>, p: Packet, ssrc: nat, payloadType: nat)
    requires Tiles(d, p) && p.payloadLen >= 2
    ensures RtxDemux(d, p, ssrc, payloadType).Ok?
    ensures var r := RtxDemux(d, p, ssrc, payloadType).value;
            && |r| >= HEADER_SIZE
            && Sequence(r) == Get2(d[p.payloadAt..p.payloadAt + 2])
            && Ssrc(r) == ssrc % 0x1_0000_0000 && PayloadType(r) == payloadType % 0x80
            && Marker(r) == Marker(d) && Timestamp(r) == Timestamp(d)
  {
    hide Put4;
    hide Get4;
    hide Get2;
    var r := RtxDemux(d, p, ssrc, payloadType).value;
    assert r[8..12] == Put4(ssrc);
    assert r[2..4] == d[p.payloadAt..p.payloadAt + 2];
    assert r[4..8] == d[4..8];
  }

  lemma SameSlice(r: seq<byte>, d: seq<byte>, lo: nat, hi: nat, a: nat, b: nat)
    requires lo <= a <= b <= hi <= |r| && hi <= |d| && r[lo..hi] == d[lo..hi]
    ensures r[a..b] == d[a..b]
  {
    forall i | a <= i < b
      ensures r[i] == d[i]
    {
      assert r[lo..hi][i - lo] == d[lo..hi][i - lo];
    }
  }

  /**
   * After rtx_demux the packet parses again exactly when payload is left, to the payload
   * without its first two bytes, the same extension elements and no padding.
   */
  lemma DemuxedReparses(d: seq<byte>, p: Packet, ssrc: nat, payloadType: nat)
    requires Parse(d) == Ok(p) && p.payloadLen >= 2
    ensures Tiles(d, p) && RtxDemux(d, p, ssrc, payloadType).Ok?
    ensures var r := RtxDemux(d, p, ssrc, payloadType).value;
            Parse(r) == if p.payloadLen > 2 then Ok(p.(payloadLen := p.payloadLen - 2, padLen := 0)) else Throw
  {
    hide ParseExtension;
    hide Get2;
    hide Parse;
    hide CsrcCount;
    hide HasExtension;
    hide HasPadding;
    hide RtxDemux;
    ParseFindsTheTiling(d, p);
    DemuxedHeader(d, p, ssrc, payloadType);
    var r := RtxDemux(d, p, ssrc, payloadType).value;
    var q := p.(payloadLen := p.payloadLen - 2, padLen := 0);
    if HasExtension(d) {
      SameSlice(r, d, HEADER_SIZE, p.payloadAt, p.extAt, p.extAt + 2);
      SameSlice(r, d, HEADER_SIZE, p.payloadAt, p.extAt + 2, p.extAt + 4);
      SameSlice(r, d, HEADER_SIZE, p.payloadAt, p.extAt + 4, p.payloadAt);
    }
    if p.payloadLen > 2 {
      ParseFindsTheTiling(r, q);
    } else {
      var t := Parse(r);
      if t.Ok? {
        ParseFindsTheTiling(r, t.value);
      }
    }
  }

  // ----- the object -----

  class RtpPacketObject {
    const data: array<byte>
    var dataLen: nat
    var payloadAt: nat
    var payloadLen: nat
    var padLen: nat
    var extAt: nat
    var extLen: nat
    var oneByteExtMap: Elements
    var twoBytesExtMap: Elements

    function Current(): Packet
      reads this
    {
      Packet(extAt, extLen, payloadAt, payloadLen, padLen, oneByteExtMap, twoBytesExtMap)
    }

    /** The object describes the packet its buffer holds. */
    ghost predicate Valid()
      reads this, data
    {
      dataLen <= data.Length && Parse(data[..dataLen]) == Ok(Current())
    }

    constructor (buffer: array<byte>, layout: Packet, len: nat)
      ensures data == buffer && dataLen == len
      ensures Current() == layout.(oneByte := map[], twoBytes := map[])
    {
      data, dataLen := buffer, len;
      extAt, extLen := layout.extAt, layout.extLen;
      payloadAt, payloadLen, padLen := layout.payloadAt, layout.payloadLen, layout.padLen;
      oneByteExtMap, twoBytesExtMap := map[], map[];
    }

    static method FindLayout(buffer: array<byte>, len: nat) returns (r: Result<Packet>)
      requires len <= buffer.Length
      ensures r == Layout(buffer[..len])
    {
      hide Get2;
      ghost var d := buffer[..len];
      if len > MAX_SIZE || len < HEADER_SIZE {
        return Throw;
      }
      var first := buffer[0];
      assert first == d[0];
      var p := HEADER_SIZE;
      if first % 0x10 > 0 {
        p := p + 4 * (first % 0x10);
      }
      var extAt, extLen := p, 0;
      if first / 0x10 % 2 == 1 {
        if len < p + 4 {
          return Throw;
        }
        extLen := Get2(buffer[p + 2..p + 4]) * 4;
        assert buffer[p + 2..p + 4] == d[p + 2..p + 4];
        if len < p + 4 + extLen {
          return Throw;
        }
        p := p + 4 + extLen;
      }
      if len <= p {
        return Throw;
      }
      var payloadLen, padLen: nat := len - p, 0;
      if first / 0x20 % 2 == 1 {
        padLen := buffer[len - 1];
        if padLen > 0 {
          if payloadLen <= padLen {
            return Throw;
          }
          payloadLen := payloadLen - padLen;
        }
      }
      r := Ok(Packet(extAt, extLen, p, payloadLen, padLen, map[], map[]));
    }

    static method ParseBuffer(buffer: array<byte>, len: nat) returns (pkt: RtpPacketObject?)
      requires len <= buffer.Length
      ensures pkt == null <==> Parse(buffer[..len]).Throw?
      ensures pkt != null ==> fresh(pkt) && pkt.data == buffer && pkt.dataLen == len && pkt.Valid()
    {
      hide ParseExtension;
      hide Get2;
      ghost var d := buffer[..len];
      var layout := FindLayout(buffer, len);
      LayoutFits(d);
      hide Layout;
      if layout.Throw? {
        return null;
      }
      pkt := new RtpPacketObject(buffer, layout.value, len);
      var p := layout.value;
      if buffer[0] / 0x10 % 2 == 1 {
        assert buffer[p.extAt..p.extAt + 2] == d[p.extAt..p.extAt + 2];
        assert buffer[p.extAt + 4..p.payloadAt] == d[p.extAt + 4..p.payloadAt];
        var ok := pkt.ParseExt(Get2(buffer[p.extAt..p.extAt + 2]), buffer[p.extAt + 4..p.payloadAt]);
        if !ok {
          pkt := null;
        }
      }
    }

    method ParseExt(profile: nat, e: seq<byte>) returns (ok: bool)
      requires oneByteExtMap == map[] && twoBytesExtMap == map[]
      modifies this`oneByteExtMap, this`twoBytesExtMap
      ensures ok <==> ParseExtension(profile, e).Ok?
      ensures ok ==> ParseExtension(profile, e) == Ok((oneByteExtMap, twoBytesExtMap))
    {
      if profile == 0xBEDE {
        ok := ParseOneByteExt(e);
      } else if profile / 0x10 == 0x100 {
        ok := ParseTwoBytesExt(e);
      } else {
        ok := false;
      }
    }

    method ParseOneByteExt(e: seq<byte>) returns (ok: bool)
      modifies this`oneByteExtMap
      ensures ok <==> OneByte(e, 0, map[]).Ok?
      ensures ok ==> OneByte(e, 0, map[]).value == oneByteExtMap
    {
      oneByteExtMap := map[];
      var p := 0;
      while p < |e|
        invariant 0 <= p <= |e|
        invariant OneByte(e, 0, map[]) == OneByte(e, p, oneByteExtMap)
        decreases |e| - p
      {
        var id, len := e[p] / 0x10, e[p] % 0x10 + 1;
        if id == 0x0f {
          return true;
        }
        ghost var next := if id == 0 then p + 1 else p + 1 + len;
        if id != 0 {
          if p + 1 + len > |e| {
            return false;
          }
          oneByteExtMap := oneByteExtMap[id := Element(p, 1 + len)];
          p := p + 1 + len;
        } else {
          p := p + 1;
        }
        while p < |e| && e[p] == 0
          invariant next <= p <= |e| && SkipZeros(e, p) == SkipZeros(e, next)
        {
          p := p + 1;
        }
      }
      ok := true;
    }

    method ParseTwoBytesExt(e: seq<byte>) returns (ok: bool)
      modifies this`twoBytesExtMap
      ensures ok <==> TwoBytes(e, 0, map[]).Ok?
      ensures ok ==> TwoBytes(e, 0, map[]).value == twoBytesExtMap
    {
      twoBytesExtMap := map[];
      var p := 0;
      while p + 1 < |e|
        invariant 0 <= p <= |e|
        invariant TwoBytes(e, 0, map[]) == TwoBytes(e, p, twoBytesExtMap)
        decreases |e| - p
      {
        var id: nat, len: nat := e[p], e[p + 1];
        ghost var next := if id == 0 then p + 1 else p + 2 + len;
        if id != 0 {
          if p + 2 + len > |e| {
            return false;
          }
          twoBytesExtMap := twoBytesExtMap[id := Element(p, 2 + len)];
          p := p + 2 + len;
        } else {
          p := p + 1;
        }
        while p < |e| && e[p] == 0
          invariant next <= p <= |e| && SkipZeros(e, p) == SkipZeros(e, next)
        {
          p := p + 1;
        }
      }
      ok := true;
    }

    /** The payload moves down over its first two bytes in the buffer; the header is rewritten in place. */
    method Demux(ssrc: nat, payloadType: nat) returns (ok: bool)
      requires Valid()
      modifies this, data
      ensures Tiles(old(data[..dataLen]), old(Current()))
      ensures ok <==> old(payloadLen) >= 2
      ensures !ok ==> data[..] == old(data[..]) && Current() == old(Current()) && dataLen == old(dataLen)
      ensures ok ==>
        && dataLen <= data.Length
        && RtxDemux(old(data[..dataLen]), old(Current()), ssrc, payloadType) == Ok(data[..dataLen])
        && Current() == old(Current()).(payloadLen := old(payloadLen) - 2, padLen := 0)
    {
      ParseFindsTheTiling(data[..dataLen], Current());
      TileFacts(data[..dataLen], Current());
      hide Parse;
      hide Tiles;
      hide RtxDemux;
      if payloadLen < 2 {
        return false;
      }
      Strip(ssrc, payloadType);
      return true;
    }

    method Strip(ssrc: nat, payloadType: nat)
      requires dataLen <= data.Length && PayloadInside(data[..dataLen], Current()) && payloadLen >= 2
      requires payloadAt + payloadLen + padLen == dataLen && (data[0] / 0x20 % 2 != 1 ==> padLen == 0)
      modifies this, data
      ensures dataLen == old(payloadAt + payloadLen) - 2 <= data.Length
      ensures RtxDemux(old(data[..dataLen]), old(Current()), ssrc, payloadType) == Ok(data[..dataLen])
      ensures Current() == old(Current()).(payloadLen := old(payloadLen) - 2, padLen := 0)
    {
      hide Renamed;
      hide Shifted;
      hide RtxDemux;
      hide ClearPadding;
      hide Put4;
      ghost var all, d, n := data[..], data[..dataLen], payloadAt + payloadLen - 2;
      DemuxedBytes(all, d, Current(), ssrc, payloadType);
      assert data[payloadAt..payloadAt + 2] == d[payloadAt..payloadAt + 2];
      RewriteAndMove(ssrc, payloadType);
      ghost var moved := data[..];
      payloadLen := payloadLen - 2;
      dataLen := dataLen - 2;
      DropPadding();
      assert data[..n] == [ClearPadding(moved[0])] + moved[1..n];
    }

    method RewriteAndMove(ssrc: nat, payloadType: nat)
      requires HEADER_SIZE <= payloadAt && payloadLen >= 2 && payloadAt + payloadLen <= data.Length
      modifies data
      ensures data[..] == Shifted(Renamed(old(data[..]), payloadType, old(data[payloadAt..payloadAt + 2]), Put4(ssrc)),
                                  payloadAt, payloadLen)
    {
      hide Put4;
      RewriteHeader(payloadType, data[payloadAt..payloadAt + 2], Put4(ssrc));
      MovePayload();
    }

    /** The padding bit and, when it is set, the padding go. */
    method DropPadding()
      requires data.Length > 0 && padLen <= dataLen
      modifies `dataLen, `padLen, data
      ensures data[..] == [ClearPadding(old(data[0]))] + old(data[1..])
      ensures dataLen == old(dataLen) - (if old(data[0]) / 0x20 % 2 == 1 then old(padLen) else 0)
      ensures padLen == if old(data[0]) / 0x20 % 2 == 1 then 0 else old(padLen)
    {
      if data[0] / 0x20 % 2 == 1 {
        data[0] := data[0] - 0x20;
        dataLen := dataLen - padLen;
        padLen := 0;
      }
    }

    method RewriteHeader(payloadType: nat, number: seq<byte>, ssrc: seq<byte>)
      requires data.Length >= HEADER_SIZE && |number| == 2 && |ssrc| == 4
      modifies data
      ensures data[..] == Renamed(old(data[..]), payloadType, number, ssrc)
    {
      data[1] := data[1] / 0x80 * 0x80 + payloadType % 0x80;
      data[2], data[3] := number[0], number[1];
      data[8], data[9], data[10], data[11] := ssrc[0], ssrc[1], ssrc[2], ssrc[3];
    }

    /** memmove by two bytes towards the front. */
    method MovePayload()
      requires payloadLen >= 2 && payloadAt + payloadLen <= data.Length
      modifies data
      ensures data[..] == Shifted(old(data[..]), payloadAt, payloadLen)
    {
      for i := 0 to payloadLen - 2
        invariant forall k :: 0 <= k < data.Length ==>
          data[k] == if payloadAt <= k < payloadAt + i then old(data[k + 2]) else old(data[k])
      {
        data[payloadAt + i] := data[payloadAt + i + 2];
      }
      ShiftedWhole(old(data[..]), data[..], payloadAt, payloadLen);
    }
  }

  lemma ShiftedWhole(s: seq<byte>, t: seq<byte>, at: nat, len: nat)
    requires |s| == |t| && len >= 2 && at + len <= |s|
    requires forall k :: at <= k < at + len - 2 ==> t[k] == s[k + 2]
    requires forall k :: 0 <= k < |s| && !(at <= k < at + len - 2) ==> t[k] == s[k]
    ensures t == Shifted(s, at, len)
  {
    var front, moved, behind := s[..at], s[at + 2..at + len], s[at + len - 2..];
    var r := front + moved + behind;
    forall k | 0 <= k < |s|
      ensures t[k] == r[k]
    {
      if k < at {
        assert r[k] == front[k] == s[k];
      } else if k < at + len - 2 {
        assert r[k] == moved[k - at] == s[k + 2];
      } else {
        assert r[k] == behind[k - (at + len - 2)] == s[k];
      }
    }
    assert t == r;
  }

  /** Two bytes taken out of the middle. */
  lemma MovedDown(a: seq<byte>, gone: seq<byte>, rest: seq<byte>, behind: seq<byte>)
    requires |gone| == 2
    ensures Shifted(a + gone + rest + behind, |a|, |rest| + 2)[..|a| + |rest|] == a + rest
  {
    var s, n := a + gone + rest + behind, |a| + |rest|;
    assert s[..|a|] == a;
    assert s[|a| + 2..n + 2] == rest;
  }

  lemma SplitPacket(all: seq<byte>, d: seq<byte>, p: Packet)
    requires d <= all && PayloadInside(d, p) && p.payloadLen >= 2
    ensures all[HEADER_SIZE..]
         == d[HEADER_SIZE..p.payloadAt] + d[p.payloadAt..p.payloadAt + 2]
          + d[p.payloadAt + 2..p.payloadAt + p.payloadLen] + all[p.payloadAt + p.payloadLen..]
    ensures all[0] == d[0] && all[1] == d[1] && all[4..8] == d[4..8]
  {
  }

  /** Rewriting the header and moving the payload down leave what rtx_demux should, up to the padding bit. */
  lemma DemuxedBytes(all: seq<byte>, d: seq<byte>, p: Packet, ssrc: nat, payloadType: nat)
    requires d <= all && PayloadInside(d, p) && p.payloadLen >= 2
    ensures var renamed := Renamed(all, payloadType, d[p.payloadAt..p.payloadAt + 2], Put4(ssrc));
            var moved := Shifted(renamed, p.payloadAt, p.payloadLen);
            && moved[0] == d[0]
            && RtxDemux(d, p, ssrc, payloadType)
                == Ok([ClearPadding(moved[0])] + moved[1..p.payloadAt + p.payloadLen - 2])
  {
    hide Put4;
    hide ClearPadding;
    hide Shifted;
    var n := p.payloadAt + p.payloadLen - 2;
    var b1, gone := d[1] / 0x80 * 0x80 + payloadType % 0x80, d[p.payloadAt..p.payloadAt + 2];
    var middle, rest := d[HEADER_SIZE..p.payloadAt], d[p.payloadAt + 2..p.payloadAt + p.payloadLen];
    var head := [d[0], b1] + gone + d[4..8] + Put4(ssrc);
    var behind := all[p.payloadAt + p.payloadLen..];
    SplitPacket(all, d, p);
    var renamed := Renamed(all, payloadType, gone, Put4(ssrc));
    assert renamed == (head + middle) + gone + rest + behind;
    MovedDown(head + middle, gone, rest, behind);
    var moved := Shifted(renamed, p.payloadAt, p.payloadLen);
    assert moved[..n] == head + middle + rest;
    assert moved[0] == moved[..n][0] == d[0];
    DemuxedIs(d[0], b1, gone, d[4..8], Put4(ssrc), middle, rest, moved, n);
  }

  lemma TileFacts(d: seq<byte>, p: Packet)
    requires Tiles(d, p)
    ensures PayloadInside(d, p) && p.payloadAt + p.payloadLen + p.padLen == |d|
    ensures d[0] / 0x20 % 2 != 1 ==> p.padLen == 0
  {
    hide Get2;
  }

  lemma DemuxedIs(
    b0: byte, b1: byte, number: seq<byte>, time: seq<byte>, ssrc: seq<byte>, middle: seq<byte>, rest: seq<byte>,
    moved: seq<byte>, n: nat)
    requires 0 < n <= |moved| && moved[..n] == [b0, b1] + number + time + ssrc + middle + rest
    ensures [ClearPadding(moved[0])] + moved[1..n]
         == [ClearPadding(b0), b1] + number + time + ssrc + middle + rest
  {
    hide ClearPadding;
    assert moved[1..n] == moved[..n][1..];
    assert moved[0] == moved[..n][0];
    assert moved[..n] == [b0] + ([b1] + number + time + ssrc + middle + rest);
  }

  lemma LayoutFits(d: seq<byte>)
    ensures Layout(d).Ok? ==> HEADER_SIZE <= |d|
    ensures Layout(d).Ok? && HasExtension(d) ==>
      var p := Layout(d).value;
      p.extAt + 4 <= p.payloadAt <= |d|
    ensures Layout(d).Ok? ==> Layout(d).value.oneByte == map[] && Layout(d).value.twoBytes == map[]
  {
    hide Get2;
  }
}
