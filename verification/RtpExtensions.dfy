/**
 * What a sender writes into an RTP packet, bit by bit (section 5.1 of RFC 3550, sections 4.2 and
 * 4.3 of RFC 5285), and that the parser finds exactly that: every element of every extension, at
 * its place.
 */
module RtpExtensions {
  import opened Bytes
  import opened RtpPacket

  // ----- the one-byte form -----

  /** A padding byte, or an element with its data. */
  datatype Item = Pad(b: byte) | El(id: nat, data: seq<byte>)

  /** Local identifiers 1 to 14 with 1 to 16 bytes of data; bytes below 0x10 carry no identifier. */
  predicate OneByteItem(i: Item) {
    match i
    case Pad(b) => b < 0x10
    case El(id, data) => 1 <= id <= 14 && 1 <= |data| <= 16
  }

  function OneByteWritten(i: Item): (r: seq<byte>)
    requires OneByteItem(i)
    ensures |r| == Size(i, 1)
  {
    match i
    case Pad(b) => [b]
    case El(id, data) => [16 * id + (|data| - 1)] + data
  }

  /** Bytes an item takes when elements have headers of this size. */
  function Size(i: Item, header: nat): nat {
    if i.Pad? then 1 else header + |i.data|
  }

  function OneByteBytes(items: seq<Item>): seq<byte>
    requires forall i <- items :: OneByteItem(i)
    decreases |items|
  {
    if items == [] then [] else OneByteWritten(items[0]) + OneByteBytes(items[1..])
  }

  /** Where the items put their elements, later ones in place of earlier ones with the same identifier. */
  function Placed(items: seq<Item>, header: nat, p: nat, m: Elements): Elements
    decreases |items|
  {
    if items == [] then m
    else
      var i := items[0];
      Placed(items[1..], header, p + Size(i, header),
             if i.Pad? then m else m[i.id := Element(p, header + |i.data|)])
  }

  /** Zeros are skipped one by one or all at once. */
  lemma {:induction false} SkipsZeros(e: seq<byte>, p: nat, m: Elements)
    requires p <= |e|
    ensures OneByte(e, SkipZeros(e, p), m) == OneByte(e, p, m)
    decreases |e| - p
  {
    if p == |e| || e[p] != 0 {
      assert SkipZeros(e, p) == p;
    } else {
      SkipsZeros(e, p + 1, m);
    }
  }

  lemma CutAt(e: seq<byte>, p: nat, a: seq<byte>, b: seq<byte>)
    requires p <= |e| && e[p..] == a + b
    ensures p + |a| <= |e| && e[p..p + |a|] == a && e[p + |a|..] == b
  {
    assert e[p..p + |a|] == e[p..][..|a|] && e[p + |a|..] == e[p..][|a|..];
  }

  /** One item is read, and nothing else. */
  lemma OneByteStep(e: seq<byte>, p: nat, m: Elements, i: Item)
    requires OneByteItem(i) && p + Size(i, 1) <= |e| && e[p..p + Size(i, 1)] == OneByteWritten(i)
    ensures OneByte(e, p, m)
         == OneByte(e, p + Size(i, 1), if i.Pad? then m else m[i.id := Element(p, 1 + |i.data|)])
  {
    assert e[p] == e[p..p + Size(i, 1)][0];
    if i.Pad? {
      SkipsZeros(e, p + 1, m);
    } else {
      var next := m[i.id := Element(p, 1 + |i.data|)];
      assert e[p] / 16 == i.id && e[p] % 16 == |i.data| - 1;
      SkipsZeros(e, p + 1 + |i.data|, next);
    }
  }

  lemma {:induction false} OneByteReads(e: seq<byte>, p: nat, m: Elements, items: seq<Item>, tail: seq<byte>)
    requires p <= |e| && (forall i <- items :: OneByteItem(i)) && e[p..] == OneByteBytes(items) + tail
    ensures OneByte(e, p, m) == OneByte(e, |e| - |tail|, Placed(items, 1, p, m))
    decreases |items|
  {
    hide OneByte;
    hide OneByteWritten;
    if items == [] {
      assert Placed(items, 1, p, m) == m && OneByteBytes(items) == [];
    } else {
      var i, rest := items[0], OneByteBytes(items[1..]);
      assert OneByteItem(i);
      var next := p + Size(i, 1);
      assert e[p..] == OneByteWritten(i) + (rest + tail);
      CutAt(e, p, OneByteWritten(i), rest + tail);
      OneByteStep(e, p, m, i);
      OneByteReads(e, next, if i.Pad? then m else m[i.id := Element(p, 1 + |i.data|)], items[1..], tail);
    }
  }

  /** What may lie behind the last whole item: nothing, the end mark, or an element that is cut off. */
  predicate Ended(tail: seq<byte>) {
    tail == [] || tail[0] / 16 == 15
  }

  predicate CutOff(tail: seq<byte>) {
    tail != [] && 1 <= tail[0] / 16 <= 14 && |tail| < 2 + tail[0] % 16
  }

  /** Written elements are found where they are; the parser throws exactly on one that is cut off. */
  lemma OneByteDecides(items: seq<Item>, tail: seq<byte>)
    requires (forall i <- items :: OneByteItem(i)) && (Ended(tail) || CutOff(tail))
    ensures OneByte(OneByteBytes(items) + tail, 0, map[])
         == if Ended(tail) then Ok(Placed(items, 1, 0, map[])) else Throw
  {
    var e := OneByteBytes(items) + tail;
    OneByteReads(e, 0, map[], items, tail);
    assert tail != [] ==> e[|e| - |tail|] == tail[0];
  }

  /** All extensions are of this shape. */
  lemma {:induction false} OneByteCovers(e: seq<byte>) returns (items: seq<Item>, tail: seq<byte>)
    ensures (forall i <- items :: OneByteItem(i)) && e == OneByteBytes(items) + tail
    ensures Ended(tail) || CutOff(tail)
    decreases |e|
  {
    hide Ended;
    hide CutOff;
    hide OneByteWritten;
    hide OneByteItem;
    if Ended(e) || CutOff(e) {
      items, tail := [], e;
      assert OneByteBytes([]) == [];
    } else {
      var i := OneByteFirst(e);
      var n := Size(i, 1);
      var more;
      more, tail := OneByteCovers(e[n..]);
      items := [i] + more;
      assert items[1..] == more;
      var first, rest := e[..n], OneByteBytes(more);
      assert e == first + (rest + tail) == (first + rest) + tail;
    }
  }

  lemma OneByteFirst(e: seq<byte>) returns (i: Item)
    requires !Ended(e) && !CutOff(e)
    ensures OneByteItem(i) && Size(i, 1) <= |e| && OneByteWritten(i) == e[..Size(i, 1)]
  {
    if e[0] < 16 {
      i := Pad(e[0]);
      assert e[..1] == [e[0]];
    } else {
      var n: nat := 2 + e[0] % 16;
      i := El(e[0] / 16, e[1..n]);
      assert e[..n] == [e[0]] + e[1..n];
    }
  }

  /** An identifier is found exactly if it was written, and then at its last element. */
  lemma {:induction false} PlacedMeans(items: seq<Item>, header: nat, p: nat, m: Elements, id: nat)
    ensures id in Placed(items, header, p, m) <==> id in m || exists i <- items :: i.El? && i.id == id
    ensures (forall i <- items :: i.El? ==> i.id != id) && id in m ==> Placed(items, header, p, m)[id] == m[id]
    decreases |items|
  {
    if items == [] {
      assert Placed(items, header, p, m) == m;
    } else {
      var i := items[0];
      assert items == [i] + items[1..];
      PlacedMeans(items[1..], header, p + Size(i, header),
                  if i.Pad? then m else m[i.id := Element(p, header + |i.data|)], id);
    }
  }

  function SizeAll(items: seq<Item>, header: nat): nat
    decreases |items|
  {
    if items == [] then 0 else Size(items[0], header) + SizeAll(items[1..], header)
  }

  lemma {:induction false} LastIsPlaced(
    before: seq<Item>, i: Item, behind: seq<Item>, header: nat, p: nat, m: Elements)
    requires i.El? && forall j <- behind :: j.El? ==> j.id != i.id
    ensures i.id in Placed(before + [i] + behind, header, p, m)
    ensures Placed(before + [i] + behind, header, p, m)[i.id]
         == Element(p + SizeAll(before, header), header + |i.data|)
    decreases |before|
  {
    var items := before + [i] + behind;
    if before == [] {
      assert items == [i] + behind && items[1..] == behind;
      var next := m[i.id := Element(p, header + |i.data|)];
      PlacedMeans(behind, header, p + Size(i, header), next, i.id);
    } else {
      var j := before[0];
      assert items[1..] == before[1..] + [i] + behind;
      LastIsPlaced(before[1..], i, behind, header, p + Size(j, header),
                   if j.Pad? then m else m[j.id := Element(p, header + |j.data|)]);
    }
  }

  // ----- the two-byte form -----

  /** Identifiers 1 to 255 with up to 255 bytes of data; padding is zero. */
  predicate TwoByteItem(i: Item) {
    match i
    case Pad(b) => b == 0
    case El(id, data) => 1 <= id <= 255 && |data| <= 255
  }

  function TwoByteWritten(i: Item): (r: seq<byte>)
    requires TwoByteItem(i)
    ensures |r| == Size(i, 2)
  {
    match i
    case Pad(b) => [b]
    case El(id, data) => [id, |data|] + data
  }

  function TwoByteBytes(items: seq<Item>): seq<byte>
    requires forall i <- items :: TwoByteItem(i)
    decreases |items|
  {
    if items == [] then [] else TwoByteWritten(items[0]) + TwoByteBytes(items[1..])
  }

  lemma {:induction false} SkipsZerosToo(e: seq<byte>, p: nat, m: Elements)
    requires p <= |e|
    ensures TwoBytes(e, SkipZeros(e, p), m) == TwoBytes(e, p, m)
    decreases |e| - p
  {
    if p == |e| || e[p] != 0 {
      assert SkipZeros(e, p) == p;
    } else {
      SkipsZerosToo(e, p + 1, m);
    }
  }

  lemma TwoByteStep(e: seq<byte>, p: nat, m: Elements, i: Item)
    requires TwoByteItem(i) && p + Size(i, 2) <= |e| && e[p..p + Size(i, 2)] == TwoByteWritten(i)
    ensures TwoBytes(e, p, m)
         == TwoBytes(e, p + Size(i, 2), if i.Pad? then m else m[i.id := Element(p, 2 + |i.data|)])
  {
    assert e[p] == e[p..p + Size(i, 2)][0];
    if i.Pad? {
      SkipsZerosToo(e, p + 1, m);
    } else {
      assert e[p + 1] == e[p..p + Size(i, 2)][1];
      SkipsZerosToo(e, p + 2 + |i.data|, m[i.id := Element(p, 2 + |i.data|)]);
    }
  }

  lemma {:induction false} TwoByteReads(e: seq<byte>, p: nat, m: Elements, items: seq<Item>, tail: seq<byte>)
    requires p <= |e| && (forall i <- items :: TwoByteItem(i)) && e[p..] == TwoByteBytes(items) + tail
    ensures TwoBytes(e, p, m) == TwoBytes(e, |e| - |tail|, Placed(items, 2, p, m))
    decreases |items|
  {
    hide TwoBytes;
    hide TwoByteWritten;
    if items == [] {
      assert Placed(items, 2, p, m) == m && TwoByteBytes(items) == [];
    } else {
      var i, rest := items[0], TwoByteBytes(items[1..]);
      assert TwoByteItem(i);
      var next := p + Size(i, 2);
      assert e[p..] == TwoByteWritten(i) + (rest + tail);
      CutAt(e, p, TwoByteWritten(i), rest + tail);
      TwoByteStep(e, p, m, i);
      TwoByteReads(e, next, if i.Pad? then m else m[i.id := Element(p, 2 + |i.data|)], items[1..], tail);
    }
  }

  /** One byte left over is no element. */
  predicate EndedToo(tail: seq<byte>) {
    tail == [] || (|tail| == 1 && tail[0] != 0)
  }

  predicate CutOffToo(tail: seq<byte>) {
    |tail| >= 2 && tail[0] != 0 && |tail| < 2 + tail[1] as int
  }

  lemma TwoByteDecides(items: seq<Item>, tail: seq<byte>)
    requires (forall i <- items :: TwoByteItem(i)) && (EndedToo(tail) || CutOffToo(tail))
    ensures TwoBytes(TwoByteBytes(items) + tail, 0, map[])
         == if EndedToo(tail) then Ok(Placed(items, 2, 0, map[])) else Throw
  {
    var e := TwoByteBytes(items) + tail;
    TwoByteReads(e, 0, map[], items, tail);
    assert |tail| >= 2 ==> e[|e| - |tail|] == tail[0] && e[|e| - |tail| + 1] == tail[1];
  }

  lemma {:induction false} TwoByteCovers(e: seq<byte>) returns (items: seq<Item>, tail: seq<byte>)
    ensures (forall i <- items :: TwoByteItem(i)) && e == TwoByteBytes(items) + tail
    ensures EndedToo(tail) || CutOffToo(tail)
    decreases |e|
  {
    hide EndedToo;
    hide CutOffToo;
    hide TwoByteWritten;
    hide TwoByteItem;
    if EndedToo(e) || CutOffToo(e) {
      items, tail := [], e;
      assert TwoByteBytes([]) == [];
    } else {
      var i := TwoByteFirst(e);
      var n := Size(i, 2);
      var more;
      more, tail := TwoByteCovers(e[n..]);
      items := [i] + more;
      assert items[1..] == more;
      var first, rest := e[..n], TwoByteBytes(more);
      assert e == first + (rest + tail) == (first + rest) + tail;
    }
  }

  lemma TwoByteFirst(e: seq<byte>) returns (i: Item)
    requires !EndedToo(e) && !CutOffToo(e)
    ensures TwoByteItem(i) && Size(i, 2) <= |e| && TwoByteWritten(i) == e[..Size(i, 2)]
  {
    if e[0] == 0 {
      i := Pad(0);
      assert e[..1] == [e[0]];
    } else {
      var n: nat := 2 + e[1] as int;
      i := El(e[0], e[2..n]);
      assert e[..n] == [e[0], e[1]] + e[2..n];
    }
  }

  // ----- whole packets -----

  /** The profile of an extension and its bytes. */
  datatype Extension = NoExtension | Extension(profile: nat, bytes: seq<byte>)

  datatype Written = Written(
    csrcs: seq<seq<byte>>,
    extension: Extension,
    marker: bool,
    payloadType: nat,
    number: nat,
    timestamp: seq<byte>,
    ssrc: nat,
    payload: seq<byte>,
    padding: seq<byte>)

  /** Padding ends in its own length. */
  predicate Sendable(w: Written) {
    && |w.csrcs| < 16 && (forall c <- w.csrcs :: |c| == 4)
    && (w.extension.Extension? ==> w.extension.profile < 0x1_0000 && |w.extension.bytes| % 4 == 0)
    && w.payloadType < 128 && w.number < 0x1_0000 && |w.timestamp| == 4 && w.ssrc < 0x1_0000_0000
    && w.payload != [] && |w.padding| < 256
    && (w.padding != [] ==> w.padding[|w.padding| - 1] as int == |w.padding|)
    && |PacketBytes(w)| <= 1500
  }

  /** Version 2, then the padding, extension and CSRC bits. */
  function FirstByte(w: Written): int {
    0x80 + (if w.padding != [] then 0x20 else 0) + (if w.extension.Extension? then 0x10 else 0) + |w.csrcs|
  }

  function Fixed(w: Written): seq<byte> {
    [FirstByte(w) % 256, (if w.marker then 128 else 0) + w.payloadType % 128]
    + Put2(w.number) + w.timestamp + Put4(w.ssrc)
  }

  function ExtensionBytes(x: Extension): seq<byte> {
    if x.NoExtension? then [] else Put2(x.profile) + Put2(|x.bytes| / 4) + x.bytes
  }

  function PacketBytes(w: Written): seq<byte> {
    Fixed(w) + Concat(w.csrcs) + ExtensionBytes(w.extension) + w.payload + w.padding
  }

  lemma {:induction false} ConcatLength(csrcs: seq<seq<byte>>)
    requires forall c <- csrcs :: |c| == 4
    ensures |Concat(csrcs)| == 4 * |csrcs|
    decreases |csrcs|
  {
    if csrcs == [] {
      assert Concat(csrcs) == [];
    } else {
      assert csrcs[0] in csrcs;
      ConcatLength(csrcs[1..]);
    }
  }

  /** The fixed header, field by field. */
  lemma FixedReads(w: Written, rest: seq<byte>)
    requires |w.csrcs| < 16 && w.payloadType < 128 && w.number < 0x1_0000 && |w.timestamp| == 4
    requires w.ssrc < 0x1_0000_0000
    ensures var d := Fixed(w) + rest;
            && |Fixed(w)| == 12 && CsrcCount(d) == |w.csrcs|
            && (HasExtension(d) <==> w.extension.Extension?) && (HasPadding(d) <==> w.padding != [])
            && PayloadType(d) == w.payloadType && (Marker(d) <==> w.marker)
            && Sequence(d) == w.number && Timestamp(d) == w.timestamp && Ssrc(d) == w.ssrc
  {
    hide Put2;
    hide Put4;
    hide Get2;
    hide Get4;
    var d := Fixed(w) + rest;
    assert d[0] == FirstByte(w);
    assert d[2..4] == Put2(w.number) && d[4..8] == w.timestamp && d[8..12] == Put4(w.ssrc);
  }

  /** Where everything lies. */
  function Expected(w: Written, one: Elements, two: Elements): Packet {
    var extAt := 12 + 4 * |w.csrcs|;
    Packet(extAt, if w.extension.Extension? then |w.extension.bytes| else 0,
           extAt + |ExtensionBytes(w.extension)|, |w.payload|, |w.padding|, one, two)
  }

  lemma Lies(a: seq<byte>, b: seq<byte>, c: seq<byte>, d: seq<byte>, e: seq<byte>)
    ensures var all := a + b + c + d + e;
            && all[|a| + |b|..|a| + |b| + |c|] == c && all == a + (b + c + d + e)
            && (e != [] ==> all[|all| - 1] == e[|e| - 1])
  {
    var all := a + b + c + d + e;
    assert all == (a + b) + (c + (d + e));
    assert all[|a + b|..][..|c|] == c;
  }

  /** The header bits of a written packet say what is there. */
  lemma BitsRead(w: Written)
    requires Sendable(w)
    ensures var d := PacketBytes(w);
            && d != [] && CsrcCount(d) == |w.csrcs|
            && (HasExtension(d) <==> w.extension.Extension?) && (HasPadding(d) <==> w.padding != [])
  {
    hide Fixed;
    hide Concat;
    hide ExtensionBytes;
    var rest := Concat(w.csrcs) + ExtensionBytes(w.extension) + w.payload + w.padding;
    Lies(Fixed(w), Concat(w.csrcs), ExtensionBytes(w.extension), w.payload, w.padding);
    FixedReads(w, rest);
    hide CsrcCount;
    hide HasExtension;
    hide HasPadding;
  }

  lemma PacketSize(w: Written)
    requires Sendable(w)
    ensures |PacketBytes(w)| == 12 + 4 * |w.csrcs| + |ExtensionBytes(w.extension)| + |w.payload| + |w.padding|
    ensures |Fixed(w)| == 12 && |Concat(w.csrcs)| == 4 * |w.csrcs|
    ensures |ExtensionBytes(w.extension)| == if w.extension.Extension? then 4 + |w.extension.bytes| else 0
  {
    hide Concat;
    ConcatLength(w.csrcs);
  }

  lemma TilesAs(d: seq<byte>, w: Written)
    requires 12 <= |d| <= 1500 && w.payload != []
    requires CsrcCount(d) == |w.csrcs| && (HasExtension(d) <==> w.extension.Extension?)
    requires HasPadding(d) <==> w.padding != []
    requires w.padding != [] ==> d[|d| - 1] as int == |w.padding|
    requires |d| == 12 + 4 * |w.csrcs| + |ExtensionBytes(w.extension)| + |w.payload| + |w.padding|
    requires w.extension.Extension? ==>
      var at := 12 + 4 * |w.csrcs|;
      |ExtensionBytes(w.extension)| == 4 + |w.extension.bytes| && 4 * Get2(d[at + 2..at + 4]) == |w.extension.bytes|
    requires w.extension.NoExtension? ==> |ExtensionBytes(w.extension)| == 0
    ensures Tiles(d, Expected(w, map[], map[]))
  {
    hide Get2;
    hide CsrcCount;
    hide HasExtension;
    hide HasPadding;
    hide ExtensionBytes;
  }

  /** The parser lays the packet out as it was written. */
  lemma LaidOut(w: Written)
    requires Sendable(w)
    ensures Tiles(PacketBytes(w), Expected(w, map[], map[]))
    ensures w.extension.Extension? ==>
      var d, p := PacketBytes(w), Expected(w, map[], map[]);
      Get2(d[p.extAt..p.extAt + 2]) == w.extension.profile && d[p.extAt + 4..p.payloadAt] == w.extension.bytes
  {
    var d, at := PacketBytes(w), 12 + 4 * |w.csrcs|;
    PacketSize(w);
    BitsRead(w);
    Lies(Fixed(w), Concat(w.csrcs), ExtensionBytes(w.extension), w.payload, w.padding);
    hide Get2;
    hide Fixed;
    hide Concat;
    hide CsrcCount;
    hide HasExtension;
    hide HasPadding;
    hide PacketBytes;
    hide Tiles;
    if w.extension.Extension? {
      ExtensionReads(d, at, w.extension);
    }
    hide ExtensionBytes;
    TilesAs(d, w);
  }

  lemma Within(d: seq<byte>, at: nat, part: seq<byte>, i: nat, j: nat)
    requires at + |part| <= |d| && d[at..at + |part|] == part && i <= j <= |part|
    ensures d[at + i..at + j] == part[i..j]
  {
    forall k | i <= k < j
      ensures d[at + k] == part[k]
    {
      assert d[at..at + |part|][k] == d[at + k];
    }
  }

  lemma ExtensionReads(d: seq<byte>, at: nat, x: Extension)
    requires x.Extension? && x.profile < 0x1_0000 && |x.bytes| % 4 == 0 && |x.bytes| <= 1500
    requires at + |ExtensionBytes(x)| <= |d| && d[at..at + |ExtensionBytes(x)|] == ExtensionBytes(x)
    ensures |ExtensionBytes(x)| == 4 + |x.bytes|
    ensures Get2(d[at..at + 2]) == x.profile && 4 * Get2(d[at + 2..at + 4]) == |x.bytes|
    ensures d[at + 4..at + 4 + |x.bytes|] == x.bytes
  {
    hide Get2;
    var profile, words, ext := Put2(x.profile), Put2(|x.bytes| / 4), ExtensionBytes(x);
    hide Put2;
    assert ext == profile + words + x.bytes;
    assert ext[0..2] == profile && ext[2..4] == words && ext[4..] == x.bytes;
    Within(d, at, ext, 0, 2);
    Within(d, at, ext, 2, 4);
    Within(d, at, ext, 4, |ext|);
  }

  /** A packet with a one-byte extension, an extension of the two-byte form, another one, or none. */
  lemma WrittenParses(w: Written)
    requires Sendable(w)
    ensures var d, x := PacketBytes(w), w.extension;
            Parse(d)
              == if x.NoExtension? then Ok(Expected(w, map[], map[]))
                 else if x.profile == 0xbede then
                   var r := OneByte(x.bytes, 0, map[]);
                   if r.Ok? then Ok(Expected(w, r.value, map[])) else Throw
                 else if 0x1000 <= x.profile <= 0x100f then
                   var r := TwoBytes(x.bytes, 0, map[]);
                   if r.Ok? then Ok(Expected(w, map[], r.value)) else Throw
                 else Throw
  {
    hide OneByte;
    hide TwoBytes;
    hide Sendable;
    hide PacketBytes;
    hide Parse;
    hide Expected;
    WrittenParsesAs(w);
    if w.extension.Extension? {
      ByProfile(w.extension.profile, w.extension.bytes);
    }
    hide ParseExtension;
  }

  lemma WrittenParsesAs(w: Written)
    requires Sendable(w)
    ensures Parse(PacketBytes(w))
         == if w.extension.NoExtension? then Ok(Expected(w, map[], map[]))
            else
              var r := ParseExtension(w.extension.profile, w.extension.bytes);
              if r.Throw? then Throw else Ok(Expected(w, r.value.0, r.value.1))
  {
    LaidOut(w);
    BitsRead(w);
    hide Sendable;
    hide PacketBytes;
    if w.extension.Extension? {
      WithExtension(PacketBytes(w), w);
    } else {
      hide HasExtension;
      hide Tiles;
      ParsesAs(PacketBytes(w), Expected(w, map[], map[]));
    }
    hide Parse;
    hide ParseExtension;
    hide Expected;
  }

  lemma WithExtension(d: seq<byte>, w: Written)
    requires Tiles(d, Expected(w, map[], map[])) && w.extension.Extension? && HasExtension(d)
    requires var p := Expected(w, map[], map[]);
             p.extAt + 4 <= p.payloadAt <= |d|
             && Get2(d[p.extAt..p.extAt + 2]) == w.extension.profile && d[p.extAt + 4..p.payloadAt] == w.extension.bytes
    ensures var r := ParseExtension(w.extension.profile, w.extension.bytes);
            Parse(d) == if r.Throw? then Throw else Ok(Expected(w, r.value.0, r.value.1))
  {
    hide HasExtension;
    hide Tiles;
    hide Parse;
    hide ParseExtension;
    hide ExtensionBytes;
    ParsesAs(d, Expected(w, map[], map[]));
    hide Get2;
    WithElements(w, ParseExtension(w.extension.profile, w.extension.bytes));
    hide Expected;
  }

  lemma WithElements(w: Written, r: Result<(Elements, Elements)>)
    ensures r.Ok? ==>
      Expected(w, map[], map[]).(oneByte := r.value.0, twoBytes := r.value.1) == Expected(w, r.value.0, r.value.1)
  {
    hide ExtensionBytes;
  }

  lemma ParsesAs(d: seq<byte>, p: Packet)
    requires Tiles(d, p) && p.oneByte == map[] && p.twoBytes == map[]
    ensures HasExtension(d) ==> p.extAt + 4 <= p.payloadAt <= |d|
    ensures Parse(d)
         == if !HasExtension(d) then Ok(p)
            else
              var r := ParseExtension(Get2(d[p.extAt..p.extAt + 2]), d[p.extAt + 4..p.payloadAt]);
              if r.Throw? then Throw else Ok(p.(oneByte := r.value.0, twoBytes := r.value.1))
  {
    hide Get2;
    LayoutOf(d, p);
    hide Layout;
    hide ParseExtension;
    hide CsrcCount;
    hide HasPadding;
  }

  lemma ByProfile(profile: nat, e: seq<byte>)
    ensures ParseExtension(profile, e)
         == if profile == 0xbede then
              var r := OneByte(e, 0, map[]); if r.Ok? then Ok((r.value, map[])) else Throw
            else if 0x1000 <= profile <= 0x100f then
              var r := TwoBytes(e, 0, map[]); if r.Ok? then Ok((map[], r.value)) else Throw
            else Throw
  {
    hide OneByte;
    hide TwoBytes;
  }

  lemma LayoutOf(d: seq<byte>, p: Packet)
    requires Tiles(d, p) && p.oneByte == map[] && p.twoBytes == map[]
    ensures Layout(d) == Ok(p)
  {
    hide Get2;
  }
}
