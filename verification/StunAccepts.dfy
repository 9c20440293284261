/**
 * Which byte sequences stun_packet::parse accepts, and what it finds in them: exactly the messages
 * that attributes tile in the right order, with the right sizes and the right fingerprint.
 */
module StunAccepts {
  import opened Bytes
  import opened StunFingerprint
  import opened Stun
  import R = StunRoundTrip

  /** An attribute as it lies in a message, with whatever bytes pad it. */
  datatype Raw = Raw(kind: nat, value: seq<byte>, pad: seq<byte>)

  /** The value is padded to a multiple of four bytes. */
  predicate Padded(a: Raw) {
    && a.kind < 0x1_0000 && |a.value| < 0x1_0000
    && |a.pad| < 4 && (|a.value| + |a.pad|) % 4 == 0
  }

  function RawBytes(a: Raw): (r: seq<byte>)
    ensures |r| == 4 + |a.value| + |a.pad|
  {
    Put2(a.kind) + Put2(|a.value|) + a.value + a.pad
  }

  function AllBytes(attrs: seq<Raw>): seq<byte>
    decreases |attrs|
  {
    if attrs == [] then [] else RawBytes(attrs[0]) + AllBytes(attrs[1..])
  }

  /** They fill the bytes behind the header; one without a value is not seen at the very end. */
  predicate Tiles(attrs: seq<Raw>, bytes: seq<byte>) {
    && (forall a <- attrs :: Padded(a)) && bytes == AllBytes(attrs)
    && (attrs != [] ==> |attrs[|attrs| - 1].value| > 0)
  }

  /** PRIORITY, ICE-CONTROLLED and -CONTROLLING, USE-CANDIDATE, MESSAGE-INTEGRITY, FINGERPRINT, ERROR-CODE. */
  predicate Sized(a: Raw) {
    && (a.kind == 0x0024 || a.kind == 0x8028 || a.kind == 0x0009 ==> |a.value| == 4)
    && (a.kind == 0x8029 || a.kind == 0x802a ==> |a.value| == 8)
    && (a.kind == 0x0025 ==> |a.value| == 0)
    && (a.kind == 0x0008 ==> |a.value| == 20)
  }

  /** Nothing follows a fingerprint, and only a fingerprint follows an integrity attribute. */
  predicate Follows(a: Raw, b: Raw) {
    a.kind != 0x8028 && (a.kind == 0x0008 ==> b.kind == 0x8028)
  }

  predicate Ordered(attrs: seq<Raw>) {
    forall i, j :: 0 <= i < j < |attrs| ==> Follows(attrs[i], attrs[j])
  }

  predicate AllSized(attrs: seq<Raw>) {
    forall a <- attrs :: Sized(a)
  }

  /** The fixed header of section 6 of RFC 5389, with the length of what follows. */
  predicate HasHeader(d: seq<byte>) {
    && 20 <= |d| <= 1500 && |d| % 4 == 0 && d[0] < 3
    && 256 * (d[2] as int) + d[3] == |d| - 20
    && d[4..8] == [0x21, 0x12, 0xa4, 0x42]
  }

  /** A fingerprint carries the CRC-32 of all bytes in front of it. */
  predicate Fingerprinted(d: seq<byte>, attrs: seq<Raw>) {
    attrs != [] && attrs[|attrs| - 1].kind == 0x8028 && |attrs[|attrs| - 1].value| == 4 && |d| >= 8 ==>
      Get4(attrs[|attrs| - 1].value) == Fingerprint(d[..|d| - 8])
  }

  // ----- the attribute loop -----

  function TakeAll(f: Found, attrs: seq<Raw>, pos: nat): Result<Found>
    decreases |attrs|
  {
    if attrs == [] then Ok(f)
    else
      var r := Take(f, attrs[0].kind, attrs[0].value, pos);
      if r.Err? then Err else TakeAll(r.value, attrs[1..], pos + |RawBytes(attrs[0])|)
  }

  lemma RawFields(a: Raw, rest: seq<byte>)
    requires Padded(a)
    ensures var buf := RawBytes(a) + rest;
            && Get2(buf) == a.kind && Get2(buf[2..]) == |a.value| && buf[4..4 + |a.value|] == a.value
            && Pad4(|a.value|) == |a.value| + |a.pad| && buf[4 + Pad4(|a.value|)..] == rest
  {
    hide Put2;
    var kind, len := Put2(a.kind), Put2(|a.value|);
    var buf := RawBytes(a) + rest;
    R.TwoAndTwo(kind, len, a.value, a.pad, rest);
    PadIs(|a.value|, |a.pad|);
    hide Pad4;
    hide RawBytes;
    R.BehindFour(buf, a.value, a.pad, rest);
  }

  lemma PadIs(n: nat, pad: nat)
    requires pad < 4 && (n + pad) % 4 == 0
    ensures Pad4(n) == n + pad
  {
  }

  lemma NotTheEnd(attrs: seq<Raw>)
    requires attrs != [] && |attrs[|attrs| - 1].value| > 0
    ensures |AllBytes(attrs)| > 4
  {
    if |attrs| > 1 {
      assert |AllBytes(attrs[1..])| >= |RawBytes(attrs[1])| >= 4;
      assert |AllBytes(attrs)| == |RawBytes(attrs[0])| + |AllBytes(attrs[1..])|;
    }
  }

  /** The byte loop follows the tiling. */
  lemma {:induction false} FollowsTiling(d: seq<byte>, pos: nat, f: Found, attrs: seq<Raw>)
    requires HEADER_SIZE <= pos <= |d| && Tiles(attrs, d[pos..]) && Inside(f, |d|)
    ensures ParseAttrs(d, pos, f) == TakeAll(f, attrs, pos)
    decreases |attrs|
  {
    hide Take;
    hide RawBytes;
    hide Get2;
    hide Inside;
    if attrs == [] {
      assert ParseAttrs(d, pos, f) == Ok(f);
    } else {
      var a, rest := attrs[0], AllBytes(attrs[1..]);
      assert Padded(a);
      RawFields(a, rest);
      var next := pos + 4 + Pad4(|a.value|);
      assert d[pos + 2..] == d[pos..][2..];
      assert Get2(d[pos..]) == a.kind && Get2(d[pos + 2..]) == |a.value|;
      assert d[pos + 4..pos + 4 + |a.value|] == d[pos..][4..4 + |a.value|];
      assert d[next..] == d[pos..][4 + Pad4(|a.value|)..] == rest;
      NotTheEnd(attrs);
      var r := Take(f, a.kind, a.value, pos);
      if r.Ok? {
        R.TakeInside(f, a.kind, a.value, pos, |d|);
        FollowsTiling(d, next, r.value, attrs[1..]);
      }
    }
  }

  lemma PutBack(s: seq<byte>)
    requires |s| >= 2
    ensures Put2(Get2(s)) == s[..2]
  {
    var high, low := s[0] as int, s[1] as int;
    assert Get2(s) == 0x100 * high + low;
  }

  /** The first attribute of some bytes. */
  lemma FirstRaw(buf: seq<byte>, a: Raw, n: nat)
    requires 4 <= |buf| && a.kind == Get2(buf) && |a.value| == Get2(buf[2..])
    requires n == 4 + Pad4(|a.value|) <= |buf|
    requires a.value == buf[4..4 + |a.value|] && a.pad == buf[4 + |a.value|..n]
    ensures Padded(a) && RawBytes(a) == buf[..n]
  {
    PutBack(buf);
    PutBack(buf[2..]);
    hide Put2;
    hide Get2;
    assert buf[2..][..2] == buf[2..4];
    assert buf[..n] == buf[..2] + buf[2..4] + buf[4..4 + |a.value|] + buf[4 + |a.value|..n];
  }

  lemma PadFits(pos: nat, len: nat, n: nat)
    requires pos % 4 == 0 && n % 4 == 0 && pos + 4 + len <= n
    ensures pos + 4 + Pad4(len) <= n && (pos + 4 + Pad4(len)) % 4 == 0
    ensures pos + 4 < n && pos + 4 + Pad4(len) == n ==> len > 0
  {
  }

  /** What the loop reads to the end is tiled. */
  lemma {:induction false} TilingOf(d: seq<byte>, pos: nat, f: Found) returns (attrs: seq<Raw>)
    requires HEADER_SIZE <= pos <= |d| && pos % 4 == 0 && |d| % 4 == 0 && Inside(f, |d|)
    requires ParseAttrs(d, pos, f).Ok?
    ensures Tiles(attrs, d[pos..])
    decreases |d| - pos
  {
    hide Take;
    hide Inside;
    hide Get2;
    hide RawBytes;
    hide Padded;
    hide Pad4;
    if pos == |d| {
      attrs := [];
    } else {
      var kind, len := Get2(d[pos..]), Get2(d[pos + 2..]);
      PadFits(pos, len, |d|);
      var next := pos + 4 + Pad4(len);
      var a := Raw(kind, d[pos + 4..pos + 4 + len], d[pos + 4 + len..next]);
      var r := Take(f, kind, a.value, pos);
      R.TakeInside(f, kind, a.value, pos, |d|);
      var buf := d[pos..];
      assert buf[2..] == d[pos + 2..] && buf[4..4 + len] == a.value && buf[4 + len..next - pos] == a.pad;
      FirstRaw(buf, a, next - pos);
      var more := TilingOf(d, next, r.value);
      attrs := [a] + more;
      TilesMore(buf, a, more);
      assert buf[..next - pos] + d[next..] == buf;
    }
  }

  lemma TilesMore(buf: seq<byte>, a: Raw, more: seq<Raw>)
    requires Padded(a) && |RawBytes(a)| <= |buf| && RawBytes(a) == buf[..|RawBytes(a)|]
    requires Tiles(more, buf[|RawBytes(a)|..]) && (more == [] ==> |a.value| > 0)
    ensures Tiles([a] + more, buf)
  {
    hide RawBytes;
    hide Padded;
    var attrs := [a] + more;
    assert attrs[1..] == more;
    assert buf == buf[..|RawBytes(a)|] + buf[|RawBytes(a)|..];
  }

  // ----- what it gathers -----

  datatype Option = None | Some(a: Raw)

  /** The last attribute of a type. */
  function Last(attrs: seq<Raw>, kind: nat): (r: Option)
    ensures r.None? ==> forall a <- attrs :: a.kind != kind
    ensures r.Some? ==>
      exists k :: 0 <= k < |attrs| && attrs[k] == r.a && r.a.kind == kind && forall i | k < i < |attrs| :: attrs[i].kind != kind
  {
    if attrs == [] then None
    else
      var front, a := attrs[..|attrs| - 1], attrs[|attrs| - 1];
      assert attrs == front + [a];
      if a.kind == kind then Some(a) else Last(front, kind)
  }

  /** Where it starts, counted from the first attribute. */
  function At(attrs: seq<Raw>, kind: nat): nat {
    if attrs == [] then 0
    else
      var front, a := attrs[..|attrs| - 1], attrs[|attrs| - 1];
      if a.kind == kind then |AllBytes(front)| else At(front, kind)
  }

  function Number4(o: Option): nat {
    if o.Some? && |o.a.value| == 4 then Get4(o.a.value) else 0
  }

  function Number8(o: Option): nat {
    if o.Some? && |o.a.value| == 8 then Get8(o.a.value) else 0
  }

  /** Every field comes from the last attribute of its type. */
  predicate Knows(f: Found, attrs: seq<Raw>) {
    && f.userName == (var o := Last(attrs, 0x0006); if o.Some? then o.a.value else [])
    && f.priority == Number4(Last(attrs, 0x0024))
    && f.controlling == Number8(Last(attrs, 0x802a)) && f.controlled == Number8(Last(attrs, 0x8029))
    && f.useCandidate == Last(attrs, 0x0025).Some?
    && f.errorCode == (var o := Last(attrs, 0x0009);
                       if o.Some? && |o.a.value| == 4 then 100 * (o.a.value[2] as int) + o.a.value[3] else 0)
    && f.hasIntegrity == Last(attrs, 0x0008).Some?
    && (f.hasIntegrity ==> f.integrityAt == 20 + At(attrs, 0x0008) + 4)
    && f.hasFingerprint == Last(attrs, 0x8028).Some?
    && (f.hasFingerprint ==> f.fingerprint == Number4(Last(attrs, 0x8028)) && f.fingerprintAt == 20 + At(attrs, 0x8028))
  }

  lemma {:induction false} AllBytesSnoc(attrs: seq<Raw>, a: Raw)
    ensures AllBytes(attrs + [a]) == AllBytes(attrs) + RawBytes(a)
    decreases |attrs|
  {
    hide RawBytes;
    if attrs == [] {
      assert [] + [a] == [a] && [a][1..] == [];
    } else {
      assert (attrs + [a])[1..] == attrs[1..] + [a];
      AllBytesSnoc(attrs[1..], a);
      var first, rest, last := RawBytes(attrs[0]), AllBytes(attrs[1..]), RawBytes(a);
      assert first + (rest + last) == first + rest + last;
    }
  }

  lemma {:induction false} TakeAllSnoc(f: Found, attrs: seq<Raw>, a: Raw, pos: nat)
    ensures TakeAll(f, attrs + [a], pos)
         == var r := TakeAll(f, attrs, pos); if r.Err? then Err else Take(r.value, a.kind, a.value, pos + |AllBytes(attrs)|)
    decreases |attrs|
  {
    hide Take;
    hide RawBytes;
    if attrs == [] {
      assert [] + [a] == [a] && [a][1..] == [];
      var r := Take(f, a.kind, a.value, pos);
      assert r.Ok? ==> TakeAll(r.value, [], pos + |RawBytes(a)|) == r;
    } else {
      assert (attrs + [a])[1..] == attrs[1..] + [a];
      var r := Take(f, attrs[0].kind, attrs[0].value, pos);
      if r.Ok? {
        TakeAllSnoc(r.value, attrs[1..], a, pos + |RawBytes(attrs[0])|);
      }
    }
  }

  lemma OrderedSnoc(attrs: seq<Raw>, a: Raw)
    ensures Ordered(attrs + [a]) <==> Ordered(attrs) && forall b <- attrs :: Follows(b, a)
  {
    var all := attrs + [a];
    if Ordered(all) {
      forall b <- attrs
        ensures Follows(b, a)
      {
        var i :| 0 <= i < |attrs| && attrs[i] == b;
        assert Follows(all[i], all[|attrs|]);
      }
      forall i, j | 0 <= i < j < |attrs|
        ensures Follows(attrs[i], attrs[j])
      {
        assert Follows(all[i], all[j]);
      }
    }
  }

  lemma LastSnoc(attrs: seq<Raw>, a: Raw, kind: nat)
    ensures Last(attrs + [a], kind) == if a.kind == kind then Some(a) else Last(attrs, kind)
    ensures At(attrs + [a], kind) == if a.kind == kind then |AllBytes(attrs)| else At(attrs, kind)
  {
    hide AllBytes;
    var all := attrs + [a];
    assert all[..|all| - 1] == attrs && all[|all| - 1] == a;
  }

  lemma MayFollow(attrs: seq<Raw>, a: Raw)
    ensures (forall b <- attrs :: Follows(b, a))
            <==> Last(attrs, 0x8028).None? && (Last(attrs, 0x0008).Some? ==> a.kind == 0x8028)
  {
    var last, integrity := Last(attrs, 0x8028), Last(attrs, 0x0008);
    if forall b <- attrs :: Follows(b, a) {
      assert last.Some? ==> last.a in attrs && !Follows(last.a, a);
      assert integrity.Some? ==> integrity.a in attrs && Follows(integrity.a, a);
    }
  }

  lemma TakesSized(f: Found, a: Raw, pos: nat)
    ensures Take(f, a.kind, a.value, pos).Ok?
            <==> Sized(a) && !f.hasFingerprint && (f.hasIntegrity ==> a.kind == 0x8028)
  {
    hide Get4;
    hide Get8;
  }

  /** One more attribute is taken exactly when it may follow what was taken, and has its size. */
  lemma TakesOne(f: Found, attrs: seq<Raw>, a: Raw)
    requires Knows(f, attrs)
    ensures var r := Take(f, a.kind, a.value, 20 + |AllBytes(attrs)|);
            && (r.Ok? <==> Sized(a) && forall b <- attrs :: Follows(b, a))
            && (r.Ok? ==> Knows(r.value, attrs + [a]))
  {
    hide AllBytes;
    hide Last;
    hide At;
    hide Sized;
    hide Follows;
    MayFollow(attrs, a);
    TakesSized(f, a, 20 + |AllBytes(attrs)|);
    KnowsMore(f, attrs, a);
  }

  lemma KnowsMore(f: Found, attrs: seq<Raw>, a: Raw)
    requires Knows(f, attrs)
    ensures var r := Take(f, a.kind, a.value, 20 + |AllBytes(attrs)|); r.Ok? ==> Knows(r.value, attrs + [a])
  {
    hide AllBytes;
    hide Last;
    hide At;
    hide Get4;
    hide Get8;
    LastSnoc(attrs, a, 0x0006);
    LastSnoc(attrs, a, 0x0024);
    LastSnoc(attrs, a, 0x802a);
    LastSnoc(attrs, a, 0x8029);
    LastSnoc(attrs, a, 0x0025);
    LastSnoc(attrs, a, 0x0009);
    LastSnoc(attrs, a, 0x0008);
    LastSnoc(attrs, a, 0x8028);
  }

  /** The loop takes exactly the lists that are in order, and gathers the last of each type. */
  lemma {:induction false} TakesOrdered(attrs: seq<Raw>)
    ensures var r := TakeAll(NothingFound, attrs, 20);
            && (r.Ok? <==> AllSized(attrs) && Ordered(attrs))
            && (r.Ok? ==> Knows(r.value, attrs))
    decreases |attrs|
  {
    hide Take;
    hide Knows;
    hide Sized;
    hide Follows;
    if attrs == [] {
      assert TakeAll(NothingFound, [], 20) == Ok(NothingFound);
      assert Knows(NothingFound, []) by { KnowsNothing(); }
    } else {
      var front, a := attrs[..|attrs| - 1], attrs[|attrs| - 1];
      assert attrs == front + [a];
      TakesOrdered(front);
      TakeAllSnoc(NothingFound, front, a, 20);
      OrderedSnoc(front, a);
      var r := TakeAll(NothingFound, front, 20);
      if r.Ok? {
        TakesOne(r.value, front, a);
      }
      hide Ordered;
    }
  }

  lemma KnowsNothing()
    ensures Knows(NothingFound, [])
  {
  }

  // ----- the whole message -----

  lemma HeaderMeans(d: seq<byte>)
    ensures HasHeader(d) <==>
            IsStun(d) && Get2(d[2..]) == |d| - HEADER_SIZE && Get2(d[2..]) % 4 == 0 && |d| <= MAX_SIZE
  {
    if |d| >= 20 {
      assert Get2(d[2..]) == 0x100 * (d[2] as int) + d[3];
    }
  }

  lemma FingerprintLast(attrs: seq<Raw>, n: nat)
    requires attrs != [] && AllSized(attrs) && Ordered(attrs) && (forall a <- attrs :: Padded(a))
    requires n == 20 + |AllBytes(attrs)|
    ensures Last(attrs, 0x8028).Some? <==> attrs[|attrs| - 1].kind == 0x8028
    ensures attrs[|attrs| - 1].kind == 0x8028 ==>
      Last(attrs, 0x8028) == Some(attrs[|attrs| - 1]) && 20 + At(attrs, 0x8028) == n - 8
  {
    var k := |attrs| - 1;
    var front, a := attrs[..k], attrs[k];
    assert attrs == front + [a] && a in attrs && Sized(a) && Padded(a);
    AllBytesSnoc(front, a);
    LastSnoc(front, a, 0x8028);
    OrderedSnoc(front, a);
    MayFollow(front, a);
    hide AllBytes;
    hide Ordered;
    hide At;
    hide Last;
    hide AllSized;
    if a.kind == 0x8028 {
      PrintSize(a);
    }
    hide RawBytes;
    hide Padded;
    hide Sized;
    hide Follows;
  }

  lemma PrintSize(a: Raw)
    requires Padded(a) && Sized(a) && a.kind == 0x8028
    ensures |RawBytes(a)| == 8
  {
  }

  /** A tiled message is accepted exactly when its attributes are in order and its fingerprint is right. */
  lemma ParseDecides(d: seq<byte>, attrs: seq<Raw>)
    requires HasHeader(d) && Tiles(attrs, d[20..])
    ensures Parse(d).Ok? <==> AllSized(attrs) && Ordered(attrs) && Fingerprinted(d, attrs)
    ensures Parse(d).Ok? ==>
      var m := Parse(d).value;
      && m.cls == d[0] % 2 * 2 + d[1] / 16 % 2
      && m.meth == d[1] as int % 16 + d[1] as int / 32 * 16 + d[0] as int / 2 % 32 * 128
      && m.tid == d[8..20] && Knows(m.found, attrs)
  {
    hide Knows;
    hide AllSized;
    hide Ordered;
    hide ParseAttrs;
    hide TakeAll;
    hide Fingerprint;
    hide IsStun;
    hide Class;
    hide Method;
    HeaderMeans(d);
    FollowsTiling(d, 20, NothingFound, attrs);
    TakesOrdered(attrs);
    FieldMeans(d);
    if AllSized(attrs) && Ordered(attrs) {
      PrintChecked(d, attrs, ParseAttrs(d, 20, NothingFound).value);
    }
  }

  lemma FieldMeans(d: seq<byte>)
    requires |d| >= 2
    ensures Class(Get2(d)) == d[0] % 2 * 2 + d[1] / 16 % 2
    ensures Method(Get2(d)) == d[1] as int % 16 + d[1] as int / 32 * 16 + d[0] as int / 2 % 32 * 128
  {
    var high, low := d[0] as int, d[1] as int;
    assert Get2(d) == 0x100 * high + low;
    Shifted(high, low, Get2(d));
    hide Get2;
    Eights(high, low / 32);
    Twos(8 * high, low / 16);
  }

  lemma Shifted(high: nat, low: nat, field: nat)
    requires low < 0x100 && field == 0x100 * high + low
    ensures field / 0x100 == high && field % 0x10 == low % 0x10
    ensures field / 0x10 == 0x10 * high + low / 0x10
    ensures field / 0x20 == 8 * high + low / 0x20
    ensures field / 0x200 == high / 2
  {
    By16(field, 0x10 * high + low / 0x10, low % 0x10);
    By32(field, 8 * high + low / 0x20, low % 0x20);
    By512(field, high / 2, high % 2 * 0x100 + low);
  }

  lemma By16(n: nat, q: nat, r: nat)
    requires n == 0x10 * q + r && r < 0x10
    ensures n / 0x10 == q && n % 0x10 == r
  {
  }

  lemma By32(n: nat, q: nat, r: nat)
    requires n == 0x20 * q + r && r < 0x20
    ensures n / 0x20 == q
  {
  }

  lemma By512(n: nat, q: nat, r: nat)
    requires n == 0x200 * q + r && r < 0x200
    ensures n / 0x200 == q
  {
  }

  lemma Eights(q: nat, r: nat)
    requires r < 8
    ensures (8 * q + r) % 8 == r
  {
  }

  lemma Twos(q: nat, r: nat)
    ensures (2 * q + r) % 2 == r % 2
  {
  }

  lemma PrintChecked(d: seq<byte>, attrs: seq<Raw>, f: Found)
    requires 20 <= |d| && Tiles(attrs, d[20..]) && AllSized(attrs) && Ordered(attrs) && Knows(f, attrs)
    requires Inside(f, |d|)
    ensures f.hasFingerprint && f.fingerprint != Fingerprint(d[..f.fingerprintAt]) <==> !Fingerprinted(d, attrs)
  {
    hide Fingerprint;
    hide AllBytes;
    hide Ordered;
    hide Get4;
    if attrs != [] {
      var a := attrs[|attrs| - 1];
      assert a in attrs && Sized(a);
      FingerprintLast(attrs, |d|);
      hide Last;
      hide At;
    }
  }

  /**
   * parse accepts exactly the messages with a header of their length that attributes of the
   * right sizes tile in the right order, with the right fingerprint if there is one.
   */
  lemma AcceptsExactly(d: seq<byte>)
    ensures Parse(d).Ok? <==>
            HasHeader(d)
            && exists attrs :: Tiles(attrs, d[20..]) && AllSized(attrs) && Ordered(attrs) && Fingerprinted(d, attrs)
  {
    hide Tiles;
    hide AllSized;
    hide Ordered;
    hide Fingerprinted;
    hide Knows;
    hide Parse;
    if Parse(d).Ok? {
      var attrs := AcceptedTiling(d);
      ParseDecides(d, attrs);
    }
    if HasHeader(d)
       && exists attrs :: Tiles(attrs, d[20..]) && AllSized(attrs) && Ordered(attrs) && Fingerprinted(d, attrs) {
      var attrs :| Tiles(attrs, d[20..]) && AllSized(attrs) && Ordered(attrs) && Fingerprinted(d, attrs);
      ParseDecides(d, attrs);
    }
  }

  lemma AcceptedTiling(d: seq<byte>) returns (attrs: seq<Raw>)
    requires Parse(d).Ok?
    ensures HasHeader(d) && Tiles(attrs, d[20..])
  {
    hide HasHeader;
    hide IsStun;
    hide ParseAttrs;
    hide Tiles;
    hide Fingerprint;
    hide Get2;
    HeaderMeans(d);
    Aligned(|d|);
    attrs := TilingOf(d, 20, NothingFound);
  }

  lemma Aligned(n: nat)
    requires n >= 20 && (n - 20) % 4 == 0
    ensures n % 4 == 0
  {
  }

  /** Any other value in the fingerprint of an accepted message is refused. */
  lemma FingerprintIsChecked(d: seq<byte>, v: nat)
    requires Parse(d).Ok? && Parse(d).value.found.hasFingerprint && v < 0x1_0000_0000
    ensures |d| >= 28
    ensures Parse(d[..|d| - 4] + Put4(v)).Ok? <==> v == Fingerprint(d[..|d| - 8])
  {
    hide Tiles;
    hide AllSized;
    hide Ordered;
    hide Fingerprinted;
    hide Parse;
    hide Put4;
    hide Fingerprint;
    hide Knows;
    hide Last;
    hide RawBytes;
    hide AllBytes;
    var attrs := PrintFound(d);
    PrintedTail(d, attrs);
    var other, bytes := attrs[..|attrs| - 1] + [Raw(0x8028, Put4(v), [])], d[..|d| - 4] + Put4(v);
    SameButPrint(d, attrs, v);
    hide HasHeader;
    ParseDecides(bytes, other);
    assert bytes[..|bytes| - 8] == d[..|d| - 8];
    PrintedMeans(bytes, other);
  }

  lemma PrintFound(d: seq<byte>) returns (attrs: seq<Raw>)
    requires Parse(d).Ok? && Parse(d).value.found.hasFingerprint
    ensures HasHeader(d) && Tiles(attrs, d[20..]) && AllSized(attrs) && Ordered(attrs) && Last(attrs, 0x8028).Some?
  {
    hide Parse;
    hide HasHeader;
    hide Tiles;
    attrs := AcceptedTiling(d);
    ParseDecides(d, attrs);
  }

  lemma PrintedMeans(d: seq<byte>, attrs: seq<Raw>)
    requires attrs != [] && attrs[|attrs| - 1].kind == 0x8028 && |attrs[|attrs| - 1].value| == 4 && |d| >= 8
    ensures Fingerprinted(d, attrs) <==> Get4(attrs[|attrs| - 1].value) == Fingerprint(d[..|d| - 8])
  {
    hide Fingerprint;
  }

  /** An accepted message with a fingerprint ends in it. */
  lemma PrintedTail(d: seq<byte>, attrs: seq<Raw>)
    requires HasHeader(d) && Tiles(attrs, d[20..]) && AllSized(attrs) && Ordered(attrs)
    requires Last(attrs, 0x8028).Some?
    ensures attrs != [] && |d| >= 28
    ensures var a := attrs[|attrs| - 1]; a.kind == 0x8028 && |a.value| == 4 && a.pad == []
    ensures d[20..] == AllBytes(attrs[..|attrs| - 1]) + RawBytes(attrs[|attrs| - 1])
  {
    var k := |attrs| - 1;
    assert attrs != [] by { hide Tiles; }
    var a := attrs[k];
    assert a in attrs && Padded(a) && Sized(a);
    FingerprintLast(attrs, |d|);
    assert attrs == attrs[..k] + [a];
    AllBytesSnoc(attrs[..k], a);
  }

  lemma SameButPrint(d: seq<byte>, attrs: seq<Raw>, v: nat)
    requires HasHeader(d) && Tiles(attrs, d[20..]) && AllSized(attrs) && Ordered(attrs)
    requires Last(attrs, 0x8028).Some? && v < 0x1_0000_0000
    ensures attrs != [] && |d| >= 28
    ensures var other, bytes := attrs[..|attrs| - 1] + [Raw(0x8028, Put4(v), [])], d[..|d| - 4] + Put4(v);
            HasHeader(bytes) && Tiles(other, bytes[20..]) && AllSized(other) && Ordered(other)
  {
    PrintedTail(d, attrs);
    var front, a, value := attrs[..|attrs| - 1], attrs[|attrs| - 1], Put4(v);
    hide Put4;
    hide Ordered;
    hide AllSized;
    assert attrs == front + [a];
    var b := Raw(0x8028, value, []);
    SameHeader(d, value);
    hide HasHeader;
    SameOrder(front, a, b);
    SameTiles(d, front, a, b);
  }

  lemma SameHeader(d: seq<byte>, value: seq<byte>)
    requires HasHeader(d) && |d| >= 28 && |value| == 4
    ensures HasHeader(d[..|d| - 4] + value)
  {
    assert (d[..|d| - 4] + value)[4..8] == d[4..8];
  }

  lemma SameOrder(front: seq<Raw>, a: Raw, b: Raw)
    requires AllSized(front + [a]) && Ordered(front + [a]) && a.kind == b.kind == 0x8028 && |b.value| == 4
    ensures AllSized(front + [b]) && Ordered(front + [b])
  {
    OrderedSnoc(front, a);
    OrderedSnoc(front, b);
    hide Ordered;
    assert forall c <- front :: Follows(c, a) ==> Follows(c, b);
    assert forall c <- front :: c in front + [a];
  }

  lemma SameTiles(d: seq<byte>, front: seq<Raw>, a: Raw, b: Raw)
    requires |d| >= 28 && Tiles(front + [a], d[20..]) && Padded(b)
    requires a.kind == b.kind && |a.value| == |b.value| == 4 && a.pad == b.pad == []
    ensures Tiles(front + [b], (d[..|d| - 4] + b.value)[20..])
  {
    AllBytesSnoc(front, a);
    AllBytesSnoc(front, b);
    hide RawBytes;
    hide Padded;
    SameFront(d, AllBytes(front), a, b);
    hide AllBytes;
    assert forall c <- front :: c in front + [a];
  }

  lemma SameFront(d: seq<byte>, front: seq<byte>, a: Raw, b: Raw)
    requires |d| >= 28 && d[20..] == front + RawBytes(a)
    requires a.kind == b.kind && |a.value| == |b.value| == 4 && a.pad == b.pad == []
    ensures (d[..|d| - 4] + b.value)[20..] == front + RawBytes(b)
  {
    hide Put2;
    var head := Put2(a.kind) + Put2(4);
    assert RawBytes(a) == head + a.value && RawBytes(b) == head + b.value;
    hide RawBytes;
    assert d[20..] == (front + head) + a.value;
    assert d[20..|d| - 4] == d[20..][..|front + head|] == front + head;
    assert (d[..|d| - 4] + b.value)[20..] == d[20..|d| - 4] + b.value;
    assert front + (head + b.value) == (front + head) + b.value;
  }

  // ----- who is let in -----

  /** Of user names "M:R" without further colons, exactly those with M == L are for L. */
  lemma UserNameDecides(first: seq<byte>, rest: seq<byte>, local: seq<byte>)
    requires 0x3a !in first && 0x3a !in local
    ensures UserMatches(first + [0x3a] + rest, local) <==> first == local
  {
    var name := first + [0x3a] + rest;
    assert name[|first|] == 0x3a;
    if |local| < |first| {
      assert name[|local|] == first[|local|];
    } else if |local| > |first| {
      assert local[|first|] in local;
      assert |name| > |local| ==> name[..|local|][|first|] == 0x3a;
    } else {
      assert name[..|first|] == first;
    }
  }

  /** A request for somebody else is refused, whatever the password. */
  lemma OthersAreRefused(
    p: Packet, h: Hmac, first: seq<byte>, rest: seq<byte>, local: seq<byte>, password: seq<byte>)
    requires WellFormed(p) && IsHmac(h) && p.cls < SUCCESS && p.userName == first + [0x3a] + rest
    requires 0x3a !in first && 0x3a !in local && first != local
    ensures Parse(Serialize(p, h)).Ok?
    ensures CheckAuth(Serialize(p, h), Parse(Serialize(p, h)).value, local, password, h) == Unauthorized
  {
    hide WellFormed;
    hide Serialize;
    hide Parse;
    hide CheckAuth;
    hide UserMatches;
    hide R.Covered;
    R.AuthDecides(p, h, local, password);
    UserNameDecides(first, rest, local);
  }
}
