/** What parse and check_auth make of a message that serialize wrote. */
module StunRoundTrip {
  import opened Bytes
  import opened StunFingerprint
  import opened Stun

  // ----- attribute lists -----

  function TakeAll(f: Found, attrs: seq<Attr>, pos: nat): Result<Found>
    decreases |attrs|
  {
    if attrs == [] then Ok(f)
    else
      var r := Take(f, attrs[0].kind, attrs[0].value, pos);
      if r.Err? then Err else TakeAll(r.value, attrs[1..], pos + |AttrBytes(attrs[0])|)
  }

  lemma {:induction false} FlattenConcat(a: seq<Attr>, b: seq<Attr>)
    ensures Flatten(a + b) == Flatten(a) + Flatten(b)
    decreases |a|
  {
    if a == [] {
      assert a + b == b;
    } else {
      assert (a + b)[1..] == a[1..] + b;
      FlattenConcat(a[1..], b);
      assert AttrBytes(a[0]) + (Flatten(a[1..]) + Flatten(b)) == Flatten(a) + Flatten(b);
    }
  }

  lemma {:induction false} TakeAllConcat(f: Found, a: seq<Attr>, b: seq<Attr>, pos: nat)
    ensures TakeAll(f, a + b, pos)
         == var r := TakeAll(f, a, pos); if r.Err? then Err else TakeAll(r.value, b, pos + |Flatten(a)|)
    decreases |a|
  {
    hide Take;
    hide AttrBytes;
    if a == [] {
      assert a + b == b;
    } else {
      assert (a + b)[1..] == a[1..] + b;
      var r := Take(f, a[0].kind, a[0].value, pos);
      if r.Ok? {
        TakeAllConcat(r.value, a[1..], b, pos + |AttrBytes(a[0])|);
      }
    }
  }

  predicate Encodable(a: Attr) {
    a.kind < 0x1_0000 && |a.value| < 0x1_0000
  }

  /** The four header bytes and the value of the first attribute. */
  lemma AttrFields(a: Attr, rest: seq<byte>)
    requires Encodable(a)
    ensures var buf := AttrBytes(a) + rest;
            && Get2(buf) == a.kind && Get2(buf[2..]) == |a.value| && buf[4..4 + |a.value|] == a.value
            && buf[4 + Pad4(|a.value|)..] == rest
  {
    hide Put2;
    var kind, len := Put2(a.kind), Put2(|a.value|);
    var pad := Zeros(Pad4(|a.value|) - |a.value|);
    var buf := AttrBytes(a) + rest;
    TwoAndTwo(kind, len, a.value, pad, rest);
    hide AttrBytes;
    hide Get2;
    BehindFour(buf, a.value, pad, rest);
  }

  lemma TwoAndTwo(a: seq<byte>, b: seq<byte>, value: seq<byte>, pad: seq<byte>, rest: seq<byte>)
    requires |a| == 2 == |b|
    ensures var buf := a + b + value + pad + rest;
            && Get2(buf) == Get2(a) && Get2(buf[2..]) == Get2(b) && buf[4..] == value + (pad + rest)
  {
    var buf := a + b + value + pad + rest;
    assert buf == (a + b) + (value + (pad + rest));
    assert buf[0] == a[0] && buf[1] == a[1] && buf[2] == b[0] && buf[3] == b[1];
    assert buf[2..][0] == b[0] && buf[2..][1] == b[1];
  }

  lemma BehindFour(buf: seq<byte>, value: seq<byte>, pad: seq<byte>, rest: seq<byte>)
    requires |buf| >= 4 && buf[4..] == value + (pad + rest)
    ensures buf[4..4 + |value|] == value && buf[4 + (|value| + |pad|)..] == rest
  {
    assert buf[4..4 + |value|] == buf[4..][..|value|];
    assert buf[4 + (|value| + |pad|)..] == buf[4..][|value| + |pad|..];
  }

  /** The byte loop reads back the attribute list, up to a last value that is not empty. */
  lemma {:induction false} ParsesList(data: seq<byte>, pos: nat, f: Found, attrs: seq<Attr>)
    requires HEADER_SIZE <= pos <= |data| && data[pos..] == Flatten(attrs) && Inside(f, |data|)
    requires forall a <- attrs :: Encodable(a)
    requires attrs == [] || attrs[|attrs| - 1].value != []
    ensures ParseAttrs(data, pos, f) == TakeAll(f, attrs, pos)
    decreases |attrs|
  {
    hide Take;
    hide AttrBytes;
    hide Get2;
    hide Inside;
    if attrs == [] {
    } else {
      var a, rest := attrs[0], Flatten(attrs[1..]);
      assert Encodable(a);
      AttrFields(a, rest);
      var next := pos + 4 + Pad4(|a.value|);
      assert data[pos + 2..] == data[pos..][2..];
      assert Get2(data[pos..]) == a.kind && Get2(data[pos + 2..]) == |a.value|;
      assert data[pos + 4..pos + 4 + |a.value|] == data[pos..][4..4 + |a.value|];
      assert data[next..] == data[pos..][4 + Pad4(|a.value|)..] == rest;
      NotTheEnd(attrs);
      var r := Take(f, a.kind, a.value, pos);
      if r.Ok? {
        TakeInside(f, a.kind, a.value, pos, |data|);
        ParsesList(data, next, r.value, attrs[1..]);
      }
    }
  }

  lemma TakeInside(f: Found, kind: nat, value: seq<byte>, pos: nat, n: nat)
    requires Inside(f, n) && HEADER_SIZE <= pos && pos + 4 + |value| <= n
    ensures Take(f, kind, value, pos).Ok? ==> Inside(Take(f, kind, value, pos).value, n)
  {
  }

  lemma NotTheEnd(attrs: seq<Attr>)
    requires attrs != [] && attrs[|attrs| - 1].value != []
    ensures |Flatten(attrs)| > 4
  {
    if |attrs| > 1 {
      assert |Flatten(attrs[1..])| >= |AttrBytes(attrs[1])| >= 4;
      assert |Flatten(attrs)| == |AttrBytes(attrs[0])| + |Flatten(attrs[1..])|;
    }
  }

  // ----- the attributes of a message -----

  lemma OneMore(f: Found, a: seq<Attr>, c: bool, kind: nat, value: seq<byte>, pos: nat)
    requires TakeAll(f, a, pos).Ok?
    ensures TakeAll(f, a + When(c, kind, value), pos)
         == if c then Take(TakeAll(f, a, pos).value, kind, value, pos + |Flatten(a)|) else TakeAll(f, a, pos)
    ensures |Flatten(a + When(c, kind, value))| == |Flatten(a)| + Room(c, 4 + Pad4(|value|))
  {
    hide Take;
    hide AttrBytes;
    TakeAllConcat(f, a, When(c, kind, value), pos);
    FlattenConcat(a, When(c, kind, value));
  }

  /** What the error code of a message reads back as: its class number is cut to a byte. */
  function ErrorRead(code: nat): nat {
    var v := ErrorValue(code);
    v[2] as int * 100 + v[3]
  }

  lemma Remainder(x: int, d: nat, n: int)
    requires x == d + 256 * n && d < 256
    ensures x % 256 == d
  {
  }

  lemma ErrorNumber(code: nat, c: nat, d: nat, k: nat)
    requires code == 100 * c + d && d < 100 && c == 256 * k + c % 256
    ensures (code % 256 - c % 256 * 100) % 256 == d
  {
    var m, low, x := code / 256, c % 256, code % 256;
    assert code == 256 * m + x;
    Remainder(x - low * 100, d, 100 * k - m);
  }

  lemma ErrorSurvives(code: nat)
    requires code < 0x1_0000
    ensures ErrorRead(code) == code % 25600
  {
    hide Put2;
    var c, d := code / 100, code % 100;
    var k := c / 256;
    ErrorNumber(code, c, d, k);
    assert code == 25600 * k + (c % 256 * 100 + d);
  }

  /** The fields of a message up to its integrity and fingerprint attributes. */
  function FieldsOf(p: Packet): Found {
    NothingFound.(
      userName := p.userName, priority := p.priority, controlling := p.controlling, controlled := p.controlled,
      useCandidate := p.useCandidate, errorCode := if HasError(p) then p.errorCode % 25600 else 0)
  }

  lemma NothingTaken()
    ensures TakeAll(NothingFound, [], HEADER_SIZE) == Ok(NothingFound) && |Flatten([])| == 0
  {
  }

  lemma Step(a: seq<Attr>, g: Found, n: nat, c: bool, kind: nat, value: seq<byte>, g': Found)
    requires TakeAll(NothingFound, a, HEADER_SIZE) == Ok(g) && |Flatten(a)| == n
    requires if c then Take(g, kind, value, HEADER_SIZE + n) == Ok(g') else g' == g
    ensures TakeAll(NothingFound, a + When(c, kind, value), HEADER_SIZE) == Ok(g')
    ensures |Flatten(a + When(c, kind, value))| == n + Room(c, 4 + Pad4(|value|))
  {
    hide Take;
    hide AttrBytes;
    OneMore(NothingFound, a, c, kind, value, HEADER_SIZE);
  }

  lemma WellFormedFields(p: Packet)
    requires WellFormed(p)
    ensures p.address.Inet? ==> |p.address.port| == 2 && |p.address.addr| == 4
    ensures p.priority < 0x1_0000_0000 && p.errorCode < 0x1_0000
    ensures p.controlling < 0x1_0000_0000_0000_0000 && p.controlled < 0x1_0000_0000_0000_0000
    ensures |p.tid| == 12 && p.meth < 0x80 && p.cls < 4
    ensures TotalLen(p) <= MAX_SIZE
  {
    hide TotalLen;
  }

  /** The first four attributes and what they leave behind. */
  function Front(p: Packet): seq<Attr> {
    When(p.userName != [], USERNAME, p.userName)
    + When(p.priority != 0, PRIORITY, Put4(p.priority))
    + When(p.controlling != 0, ICE_CONTROLLING, Put8(p.controlling))
    + When(p.controlled != 0, ICE_CONTROLLED, Put8(p.controlled))
  }

  function FrontFields(p: Packet): Found {
    NothingFound.(
      userName := p.userName, priority := p.priority, controlling := p.controlling, controlled := p.controlled)
  }

  function FrontRoom(p: Packet): nat {
    Room(p.userName != [], 4 + Pad4(|p.userName|)) + Room(p.priority != 0, 8)
    + Room(p.controlling != 0, 12) + Room(p.controlled != 0, 12)
  }

  lemma FrontTaken(p: Packet)
    requires WellFormed(p)
    ensures TakeAll(NothingFound, Front(p), HEADER_SIZE) == Ok(FrontFields(p))
    ensures |Flatten(Front(p))| == FrontRoom(p)
  {
    hide Room;
    hide WellFormed;
    hide TakeAll;
    hide Flatten;
    hide When;
    hide Take;
    hide Put4;
    hide Put8;
    WellFormedFields(p);
    NothingTaken();
    var g1 := NothingFound.(userName := p.userName);
    var g2 := g1.(priority := p.priority);
    var g3 := g2.(controlling := p.controlling);
    var s1 := When(p.userName != [], USERNAME, p.userName);
    var s2 := s1 + When(p.priority != 0, PRIORITY, Put4(p.priority));
    var s3 := s2 + When(p.controlling != 0, ICE_CONTROLLING, Put8(p.controlling));
    assert [] + s1 == s1;
    TakesOther(p.userName, [], NothingFound, HEADER_SIZE);
    Step([], NothingFound, 0, p.userName != [], USERNAME, p.userName, g1);
    TakesPriority(p.priority, g1, HEADER_SIZE + |Flatten(s1)|);
    Step(s1, g1, |Flatten(s1)|, p.priority != 0, PRIORITY, Put4(p.priority), g2);
    TakesRole(p.controlling, g2, HEADER_SIZE + |Flatten(s2)|);
    Step(s2, g2, |Flatten(s2)|, p.controlling != 0, ICE_CONTROLLING, Put8(p.controlling), g3);
    TakesRole(p.controlled, g3, HEADER_SIZE + |Flatten(s3)|);
    Step(s3, g3, |Flatten(s3)|, p.controlled != 0, ICE_CONTROLLED, Put8(p.controlled), FrontFields(p));
  }

  function AddressOf(p: Packet): (r: seq<byte>)
    requires p.address.Inet? ==> |p.address.port| == 2 && |p.address.addr| == 4
    ensures HasAddress(p) ==> |r| == 8
  {
    if HasAddress(p) then AddressValue(p.address) else []
  }

  lemma AttributesTaken(p: Packet)
    requires WellFormed(p)
    ensures TakeAll(NothingFound, Attributes(p), HEADER_SIZE) == Ok(FieldsOf(p))
    ensures |Flatten(Attributes(p))| == TotalLen(p) - HEADER_SIZE - 8 - Room(HasIntegrity(p), 24)
  {
    hide Room;
    hide WellFormed;
    hide TakeAll;
    hide Flatten;
    hide When;
    hide Take;
    hide Front;
    hide FrontRoom;
    hide TotalLen;
    hide Attributes;
    hide HasAddress;
    hide HasError;
    hide HasIntegrity;
    hide ErrorValue;
    hide AddressValue;
    WellFormedFields(p);
    FrontTaken(p);
    var g4 := FrontFields(p);
    var g5 := g4.(useCandidate := p.useCandidate);
    var address := AddressOf(p);
    var s4 := Front(p);
    var s5 := s4 + When(p.useCandidate, USE_CANDIDATE, []);
    var s6 := s5 + When(HasAddress(p), XOR_MAPPED_ADDRESS, address);
    AttributesAre(p);
    TakesOther([], [], g4, HEADER_SIZE + |Flatten(s4)|);
    Step(s4, g4, |Flatten(s4)|, p.useCandidate, USE_CANDIDATE, [], g5);
    TakesOther([], address, g5, HEADER_SIZE + |Flatten(s5)|);
    Step(s5, g5, |Flatten(s5)|, HasAddress(p), XOR_MAPPED_ADDRESS, address, g5);
    TakesError(p.errorCode, g5, HEADER_SIZE + |Flatten(s6)|);
    Step(s6, g5, |Flatten(s6)|, HasError(p), ERROR_CODE, ErrorValue(p.errorCode), FieldsOf(p));
    AddressRoom(p);
    AddUp(p);
  }

  lemma AddressRoom(p: Packet)
    requires p.address.Inet? ==> |p.address.port| == 2 && |p.address.addr| == 4
    ensures Room(HasAddress(p), 4 + Pad4(|AddressOf(p)|)) == Room(HasAddress(p), 12)
  {
    hide AddressOf;
    hide HasAddress;
  }

  lemma AddUp(p: Packet)
    ensures FrontRoom(p) + Room(p.useCandidate, 4) + Room(HasAddress(p), 12) + Room(HasError(p), 8)
         == TotalLen(p) - HEADER_SIZE - 8 - Room(HasIntegrity(p), 24)
  {
    hide Room;
    hide Pad4;
  }

  lemma AttributesAre(p: Packet)
    requires WellFormed(p)
    ensures Attributes(p)
         == Front(p)
          + When(p.useCandidate, USE_CANDIDATE, [])
          + When(HasAddress(p), XOR_MAPPED_ADDRESS, AddressOf(p))
          + When(HasError(p), ERROR_CODE, ErrorValue(p.errorCode))
  {
    hide AddressValue;
    hide ErrorValue;
    hide Put4;
    hide Put8;
  }

  lemma TakesPriority(v: nat, g: Found, pos: nat)
    requires v < 0x1_0000_0000 && !g.hasIntegrity && !g.hasFingerprint
    ensures Take(g, PRIORITY, Put4(v), pos) == Ok(g.(priority := v))
  {
    hide Put4;
    hide Get4;
  }

  lemma TakesRole(v: nat, g: Found, pos: nat)
    requires v < 0x1_0000_0000_0000_0000 && !g.hasIntegrity && !g.hasFingerprint
    ensures Take(g, ICE_CONTROLLING, Put8(v), pos) == Ok(g.(controlling := v))
    ensures Take(g, ICE_CONTROLLED, Put8(v), pos) == Ok(g.(controlled := v))
  {
    hide Put8;
    hide Get8;
  }

  lemma TakesOther(userName: seq<byte>, address: seq<byte>, g: Found, pos: nat)
    requires !g.hasIntegrity && !g.hasFingerprint
    ensures Take(g, USERNAME, userName, pos) == Ok(g.(userName := userName))
    ensures Take(g, USE_CANDIDATE, [], pos) == Ok(g.(useCandidate := true))
    ensures Take(g, XOR_MAPPED_ADDRESS, address, pos) == Ok(g)
  {
  }

  lemma TakesError(code: nat, g: Found, pos: nat)
    requires code < 0x1_0000 && !g.hasIntegrity && !g.hasFingerprint
    ensures Take(g, ERROR_CODE, ErrorValue(code), pos) == Ok(g.(errorCode := code % 25600))
    ensures |ErrorValue(code)| == 4
  {
    ErrorSurvives(code);
  }

  /** Everything a message reads back as. */
  function SignedFields(p: Packet): Found {
    var f := FieldsOf(p);
    if HasIntegrity(p) then f.(hasIntegrity := true, integrityAt := TotalLen(p) - 28) else f
  }

  function Expected(p: Packet, h: Hmac): Found
    requires WellFormed(p)
  {
    SignedFields(p).(
      hasFingerprint := true, fingerprint := Fingerprint(Unprinted(p, h)), fingerprintAt := TotalLen(p) - 8)
  }

  lemma SignedTaken(p: Packet, h: Hmac)
    requires WellFormed(p) && IsHmac(h)
    ensures TakeAll(NothingFound, Signed(p, h), HEADER_SIZE) == Ok(SignedFields(p))
    ensures |Flatten(Signed(p, h))| == TotalLen(p) - HEADER_SIZE - 8
  {
    hide WellFormed;
    hide TakeAll;
    hide Flatten;
    hide Attributes;
    hide TotalLen;
    hide FieldsOf;
    hide IntegrityValue;
    hide HasIntegrity;
    AttributesTaken(p);
    WellFormedFields(p);
    var value := IntegrityValue(p, h);
    IntegrityLength(p, h);
    assert Signed(p, h) == Attributes(p) + When(HasIntegrity(p), MESSAGE_INTEGRITY, value);
    var g := FieldsOf(p);
    NotYetSigned(p);
    Step(Attributes(p), g, |Flatten(Attributes(p))|, HasIntegrity(p), MESSAGE_INTEGRITY, value, SignedFields(p));
  }

  lemma IntegrityLength(p: Packet, h: Hmac)
    requires WellFormed(p) && IsHmac(h)
    ensures |IntegrityValue(p, h)| == 20
  {
    hide WellFormed;
    hide Attributes;
    hide Flatten;
    hide Head;
  }

  lemma NotYetSigned(p: Packet)
    ensures !FieldsOf(p).hasIntegrity && !FieldsOf(p).hasFingerprint
    ensures !SignedFields(p).hasFingerprint
  {
    hide TotalLen;
  }

  lemma AllTaken(p: Packet, h: Hmac)
    requires WellFormed(p) && IsHmac(h)
    ensures TakeAll(NothingFound, AllAttributes(p, h), HEADER_SIZE) == Ok(Expected(p, h))
    ensures |Serialize(p, h)| == TotalLen(p)
  {
    hide WellFormed;
    hide TakeAll;
    hide Flatten;
    hide Signed;
    hide TotalLen;
    hide Unprinted;
    hide Fingerprint;
    hide Put4;
    hide Get4;
    hide Head;
    hide SignedFields;
    SignedTaken(p, h);
    NotYetSigned(p);
    var value := Put4(Fingerprint(Unprinted(p, h)));
    var s := Signed(p, h);
    assert AllAttributes(p, h) == s + When(true, FINGERPRINT, value);
    Step(s, SignedFields(p), |Flatten(s)|, true, FINGERPRINT, value, Expected(p, h));
  }

  // ----- the whole message -----

  lemma BitsOf(hi: nat, lo: nat, c: nat, d: nat, field: nat)
    requires hi < 8 && lo < 0x10 && c < 2 && d < 2
    requires field == hi * 0x20 + lo + c * 0x100 + d * 0x10
    ensures field % 0x10 == lo
    ensures field / 0x10 == hi * 2 + c * 0x10 + d
    ensures field / 0x20 == hi + c * 8
    ensures field / 0x100 == c && field / 0x200 == 0 && field < 0x200
  {
  }

  lemma FieldReads(hi: nat, lo: nat, c: nat, d: nat, field: nat)
    requires hi < 8 && lo < 0x10 && c < 2 && d < 2
    requires field == hi * 0x20 + lo + c * 0x100 + d * 0x10
    ensures Method(field) == hi * 0x10 + lo && Class(field) == c * 2 + d
  {
    BitsOf(hi, lo, c, d, field);
    OwnBits(hi, c, d);
  }

  lemma TypeFieldReads(meth: nat, cls: nat)
    requires meth < 0x80 && cls < 4
    ensures TypeField(meth, cls) < 0x200
    ensures Method(TypeField(meth, cls)) == meth && Class(TypeField(meth, cls)) == cls
  {
    hide TypeField;
    hide Method;
    hide Class;
    InterleavedBits(meth, cls);
    FieldReads(meth / 0x10, meth % 0x10, cls / 2, cls % 2, TypeField(meth, cls));
  }

  lemma OwnBits(hi: nat, c: nat, d: nat)
    requires hi < 8 && d < 2
    ensures (hi + c * 8) % 8 == hi && (hi * 2 + c * 0x10 + d) % 2 == d
  {
    Odd(hi * 2 + c * 0x10 + d, hi + c * 8, d);
  }

  lemma Odd(n: nat, q: nat, d: nat)
    requires n == 2 * q + d && d < 2
    ensures n % 2 == d
  {
  }

  lemma InterleavedBits(meth: nat, cls: nat)
    requires meth < 0x80 && cls < 4
    ensures TypeField(meth, cls) == meth / 0x10 * 0x20 + meth % 0x10 + cls / 2 * 0x100 + cls % 2 * 0x10
  {
    assert meth / 0x80 == 0 && meth / 0x10 % 8 == meth / 0x10 && cls / 2 % 2 == cls / 2;
  }

  /** The fixed fields of a header, whatever follows it. */
  lemma HeadFields(p: Packet, len: nat, rest: seq<byte>)
    requires |p.tid| == 12 && p.meth < 0x80 && p.cls < 4 && len < 0x1_0000
    ensures var data := Head(p, len) + rest;
            && IsStun(data) && Get2(data) == TypeField(p.meth, p.cls) && Get2(data[2..]) == len
            && data[8..20] == p.tid && data[20..] == rest
  {
    hide TypeField;
    hide Method;
    hide Class;
    hide Put2;
    TypeFieldReads(p.meth, p.cls);
    var t, l := Put2(TypeField(p.meth, p.cls)), Put2(len);
    assert Get2(t) == TypeField(p.meth, p.cls) && Get2(l) == len;
    var data := Head(p, len) + rest;
    assert data[0] == t[0] && data[1] == t[1] && data[2] == l[0] && data[3] == l[1];
    assert data[4..8] == COOKIE;
  }

  lemma SumAligned(a: nat, b: nat)
    requires a % 4 == 0 && b % 4 == 0
    ensures (a + b) % 4 == 0
  {
  }

  lemma {:induction false} FlattenAligned(attrs: seq<Attr>)
    ensures |Flatten(attrs)| % 4 == 0
    decreases |attrs|
  {
    hide AttrBytes;
    if attrs == [] {
    } else {
      FlattenAligned(attrs[1..]);
      SumAligned(4, Pad4(|attrs[0].value|));
      SumAligned(|AttrBytes(attrs[0])|, |Flatten(attrs[1..])|);
    }
  }

  lemma TotalLenIsAligned(p: Packet, h: Hmac)
    requires WellFormed(p) && IsHmac(h)
    ensures TotalLen(p) % 4 == 0 && (TotalLen(p) - HEADER_SIZE) % 4 == 0 && 28 <= TotalLen(p)
  {
    hide WellFormed;
    hide Flatten;
    hide AllAttributes;
    hide Room;
    hide Head;
    WellFormedFields(p);
    AllTaken(p, h);
    FlattenAligned(AllAttributes(p, h));
    SumAligned(HEADER_SIZE, |Flatten(AllAttributes(p, h))|);
  }

  predicate AllFit(attrs: seq<Attr>) {
    forall a <- attrs :: Encodable(a)
  }

  lemma FitsConcat(a: seq<Attr>, b: seq<Attr>)
    requires AllFit(a) && AllFit(b)
    ensures AllFit(a + b)
  {
  }

  lemma WhenFits(a: seq<Attr>, c: bool, kind: nat, value: seq<byte>)
    requires AllFit(a) && (c ==> Encodable(Attr(kind, value)))
    ensures AllFit(a + When(c, kind, value))
  {
    FitsConcat(a, When(c, kind, value));
  }

  lemma FrontFits(p: Packet)
    requires WellFormed(p)
    ensures AllFit(Front(p))
  {
    hide WellFormed;
    hide When;
    hide AllFit;
    hide Put4;
    hide Put8;
    UserNameFits(p);
    var s1 := When(p.userName != [], USERNAME, p.userName);
    var s2 := s1 + When(p.priority != 0, PRIORITY, Put4(p.priority));
    NothingFits();
    WhenFits([], p.userName != [], USERNAME, p.userName);
    assert [] + s1 == s1;
    WhenFits(s1, p.priority != 0, PRIORITY, Put4(p.priority));
    WhenFits(s2, p.controlling != 0, ICE_CONTROLLING, Put8(p.controlling));
    WhenFits(s2 + When(p.controlling != 0, ICE_CONTROLLING, Put8(p.controlling)),
             p.controlled != 0, ICE_CONTROLLED, Put8(p.controlled));
  }

  lemma NothingFits()
    ensures AllFit([])
  {
  }

  lemma AllEncodable(p: Packet, h: Hmac)
    requires WellFormed(p) && IsHmac(h)
    ensures AllFit(AllAttributes(p, h))
    ensures AllAttributes(p, h)[|AllAttributes(p, h)| - 1].value != []
  {
    hide WellFormed;
    hide When;
    hide AllFit;
    hide Front;
    hide Attributes;
    hide IntegrityValue;
    hide Unprinted;
    hide Fingerprint;
    hide Put4;
    hide ErrorValue;
    hide HasIntegrity;
    WellFormedFields(p);
    FrontFits(p);
    AttributesAre(p);
    var s5 := Front(p) + When(p.useCandidate, USE_CANDIDATE, []);
    var s6 := s5 + When(HasAddress(p), XOR_MAPPED_ADDRESS, AddressOf(p));
    WhenFits(Front(p), p.useCandidate, USE_CANDIDATE, []);
    WhenFits(s5, HasAddress(p), XOR_MAPPED_ADDRESS, AddressOf(p));
    TakesError(p.errorCode, NothingFound, 0);
    WhenFits(s6, HasError(p), ERROR_CODE, ErrorValue(p.errorCode));
    IntegrityLength(p, h);
    SignedIs(p, h);
    WhenFits(Attributes(p), HasIntegrity(p), MESSAGE_INTEGRITY, IntegrityValue(p, h));
    var value := Put4(Fingerprint(Unprinted(p, h)));
    AllIs(p, h);
    WhenFits(Signed(p, h), true, FINGERPRINT, value);
  }

  lemma SignedIs(p: Packet, h: Hmac)
    requires WellFormed(p)
    ensures p.address.Inet? ==> |p.address.port| == 2 && |p.address.addr| == 4
    ensures Signed(p, h) == Attributes(p) + When(HasIntegrity(p), MESSAGE_INTEGRITY, IntegrityValue(p, h))
  {
    hide Attributes;
    hide IntegrityValue;
    hide TotalLen;
  }

  lemma AllIs(p: Packet, h: Hmac)
    requires WellFormed(p)
    ensures AllAttributes(p, h) == Signed(p, h) + When(true, FINGERPRINT, Put4(Fingerprint(Unprinted(p, h))))
    ensures AllAttributes(p, h)[|AllAttributes(p, h)| - 1].value != []
  {
    hide WellFormed;
    hide Signed;
    hide Put4;
    hide Unprinted;
    hide Fingerprint;
  }

  lemma UserNameFits(p: Packet)
    requires WellFormed(p)
    ensures |p.userName| < 0x1_0000
  {
  }

  /** Every message serialize writes is accepted by parse, which recovers every field. */
  lemma ParseSerialize(p: Packet, h: Hmac)
    requires WellFormed(p) && IsHmac(h)
    ensures |Serialize(p, h)| == TotalLen(p)
    ensures Parse(Serialize(p, h)) == Ok(Parsed(p.cls, p.meth, p.tid, Expected(p, h)))
  {
    hide WellFormed;
    hide TakeAll;
    hide Take;
    hide Flatten;
    hide Signed;
    hide TotalLen;
    hide Fingerprint;
    hide Head;
    hide SignedFields;
    hide TypeField;
    hide IsStun;
    hide ParseAttrs;
    hide AllAttributes;
    hide Unprinted;
    hide Get2;
    hide Method;
    hide Class;
    WellFormedFields(p);
    TotalLenIsAligned(p, h);
    var data, all, len := Serialize(p, h), AllAttributes(p, h), TotalLen(p) - HEADER_SIZE;
    HeadFields(p, len, Flatten(all));
    TypeFieldReads(p.meth, p.cls);
    AllTaken(p, h);
    AllEncodable(p, h);
    ParsesList(data, HEADER_SIZE, NothingFound, all);
    FingerprintCovers(p, h);
  }

  lemma FingerprintCovers(p: Packet, h: Hmac)
    requires WellFormed(p) && IsHmac(h)
    ensures |Serialize(p, h)| == TotalLen(p) >= 28
    ensures Serialize(p, h)[..TotalLen(p) - 8] == Unprinted(p, h)
  {
    hide WellFormed;
    hide Flatten;
    hide Signed;
    hide TotalLen;
    hide Fingerprint;
    hide Put4;
    hide Head;
    WellFormedFields(p);
    TotalLenIsAligned(p, h);
    AllTaken(p, h);
    SignedTaken(p, h);
    FlattenConcat(Signed(p, h), [Attr(FINGERPRINT, Put4(Fingerprint(Unprinted(p, h))))]);
  }

  // ----- authenticating what was written -----

  /** The message the HMAC is taken over. */
  function Covered(p: Packet): seq<byte>
    requires WellFormed(p)
  {
    Head(p, TotalLen(p) - HEADER_SIZE - 8) + Flatten(Attributes(p))
  }

  lemma SetLengthOfHead(p: Packet, len: nat, len': nat, rest: seq<byte>)
    requires |p.tid| == 12
    ensures SetLength(Head(p, len) + rest, len') == Head(p, len') + rest
  {
    hide Put2;
    hide TypeField;
    var t, l, tail := Put2(TypeField(p.meth, p.cls)), Put2(len), COOKIE + p.tid + rest;
    assert Head(p, len) + rest == t + (l + tail);
    assert (t + (l + tail))[4..] == tail;
    assert (t + (l + tail))[..2] == t;
  }

  lemma SignedLayout(p: Packet, h: Hmac) returns (rest: seq<byte>)
    requires WellFormed(p) && IsHmac(h) && HasIntegrity(p)
    ensures Flatten(AllAttributes(p, h))
         == Flatten(Attributes(p)) + Put2(MESSAGE_INTEGRITY) + Put2(20) + IntegrityValue(p, h) + rest
  {
    hide WellFormed;
    hide Attributes;
    hide Unprinted;
    hide IntegrityValue;
    hide Put2;
    hide Put4;
    hide Fingerprint;
    WellFormedFields(p);
    IntegrityLength(p, h);
    SignedIs(p, h);
    AllIs(p, h);
    var a := [Attr(MESSAGE_INTEGRITY, IntegrityValue(p, h))];
    var b := [Attr(FINGERPRINT, Put4(Fingerprint(Unprinted(p, h))))];
    FlattenConcat(Attributes(p) + a, b);
    FlattenConcat(Attributes(p), a);
    assert Flatten(a) == AttrBytes(a[0]);
    assert Flatten(a) == Put2(MESSAGE_INTEGRITY) + Put2(20) + IntegrityValue(p, h);
    rest := Flatten(b);
  }

  /** After patching, the bytes in front of the HMAC are those it was taken over. */
  lemma PatchedPrefix(p: Packet, h: Hmac)
    requires WellFormed(p) && IsHmac(h) && HasIntegrity(p)
    ensures |Serialize(p, h)| == TotalLen(p) >= 52
    ensures var data, at := Serialize(p, h), TotalLen(p) - 28;
            && SetLength(data, TotalLen(p) - HEADER_SIZE - 8)[..at - 4] == Covered(p)
            && data[at..at + 20] == IntegrityValue(p, h)
  {
    hide WellFormed;
    hide Attributes;
    hide AllAttributes;
    hide TotalLen;
    hide HasIntegrity;
    hide Flatten;
    hide IntegrityValue;
    hide SetLength;
    hide Put2;
    hide Head;
    WellFormedFields(p);
    TotalLenIsAligned(p, h);
    AllTaken(p, h);
    AttributesTaken(p);
    IntegrityLength(p, h);
    var rest := SignedLayout(p, h);
    var n, front, value := TotalLen(p), Flatten(Attributes(p)), IntegrityValue(p, h);
    var all := Flatten(AllAttributes(p, h));
    var before, after := Head(p, n - HEADER_SIZE), Head(p, n - HEADER_SIZE - 8);
    SetLengthOfHead(p, n - HEADER_SIZE, n - HEADER_SIZE - 8, all);
    Slices(before, front, Put2(MESSAGE_INTEGRITY), Put2(20), value, rest);
    Slices(after, front, Put2(MESSAGE_INTEGRITY), Put2(20), value, rest);
  }

  lemma Slices(a: seq<byte>, b: seq<byte>, kind: seq<byte>, len: seq<byte>, d: seq<byte>, e: seq<byte>)
    requires |kind| == 2 && |len| == 2
    ensures var s, n := a + (b + kind + len + d + e), |a| + |b|;
            && n + 4 + |d| <= |s| && s[..n] == a + b && s[n + 4..n + 4 + |d|] == d
  {
    var s := a + (b + kind + len + d + e);
    assert s == (a + b) + (kind + len + (d + e));
    assert s[|a| + |b| + 4..] == d + e;
  }

  /**
   * The HMAC is taken over the message in front of the integrity attribute, with the length field
   * as if the message ended with it (section 15.4 of RFC 5389).
   */
  lemma CoveredIsPrefix(p: Packet, h: Hmac)
    requires WellFormed(p) && IsHmac(h) && HasIntegrity(p)
    ensures var c, d := Covered(p), Serialize(p, h);
            && 20 <= |c| == |d| - 32 && c[..2] == d[..2] && c[4..] == d[4..|c|]
            && Get2(c[2..]) == |c| + 24 - 20
            && d[|c|..|c| + 4] == [0x00, 0x08, 0x00, 20] && d[|c| + 4..|c| + 24] == h(p.password, c)
  {
    hide WellFormed;
    hide TotalLen;
    hide Serialize;
    hide HasIntegrity;
    hide Covered;
    hide IntegrityValue;
    hide SetLength;
    WellFormedFields(p);
    PatchedPrefix(p, h);
    IntegrityIs(p, h);
    IntegrityHeader(p, h);
    PatchedFront(Serialize(p, h), Covered(p), TotalLen(p) - 32);
  }

  lemma PatchedFront(d: seq<byte>, c: seq<byte>, k: nat)
    requires 20 <= k <= |d| && k < 0xff00 && c == SetLength(d, k + 4)[..k]
    ensures |c| == k && c[..2] == d[..2] && c[4..] == d[4..k] && Get2(c[2..]) == k + 24 - 20
  {
    var length := Put2(k + 4);
    assert Get2(length) == k + 4;
    hide Put2;
    assert c[2] == length[0] && c[3] == length[1];
  }

  lemma IntegrityHeader(p: Packet, h: Hmac)
    requires WellFormed(p) && IsHmac(h) && HasIntegrity(p)
    ensures |Serialize(p, h)| == TotalLen(p) >= 52
    ensures Serialize(p, h)[TotalLen(p) - 32..TotalLen(p) - 28] == [0x00, 0x08, 0x00, 20]
  {
    hide WellFormed;
    hide Attributes;
    hide AllAttributes;
    hide Flatten;
    hide IntegrityValue;
    hide Head;
    WellFormedFields(p);
    PatchedPrefix(p, h);
    AttributesTaken(p);
    hide TotalLen;
    var rest := SignedLayout(p, h);
    assert Put2(MESSAGE_INTEGRITY) == [0x00, 0x08] && Put2(20) == [0x00, 20];
    hide Put2;
    var head, front, value := Head(p, TotalLen(p) - HEADER_SIZE), Flatten(Attributes(p)), IntegrityValue(p, h);
    FourBehind(head, front, [0x00, 0x08], [0x00, 20], value, rest);
  }

  lemma FourBehind(head: seq<byte>, front: seq<byte>, a: seq<byte>, b: seq<byte>, value: seq<byte>, rest: seq<byte>)
    requires |a| == 2 == |b|
    ensures var d, k := head + (front + a + b + value + rest), |head| + |front|;
            d[k..k + 4] == a + b
  {
    var d := head + (front + a + b + value + rest);
    assert d == (head + front) + ((a + b) + (value + rest));
  }

  /** What check_auth answers for every written message, on the buffer that was parsed. */
  lemma AuthDecides(p: Packet, h: Hmac, local: seq<byte>, password: seq<byte>)
    requires WellFormed(p) && IsHmac(h)
    ensures Parse(Serialize(p, h)) == Ok(Parsed(p.cls, p.meth, p.tid, Expected(p, h)))
    ensures CheckAuth(Serialize(p, h), Parse(Serialize(p, h)).value, local, password, h)
         == if p.cls >= SUCCESS || p.userName == [] then BadRequest
            else if !UserMatches(p.userName, local) then Unauthorized
            else if p.password == [] then NoIntegrity
            else if h(password, Covered(p)) == h(p.password, Covered(p)) then Accepted
            else Unauthorized
  {
    hide WellFormed;
    hide Serialize;
    hide Covered;
    hide Parse;
    hide SetLength;
    hide Unprinted;
    hide Fingerprint;
    hide UserMatches;
    hide TotalLen;
    ParseSerialize(p, h);
    IntegrityIs(p, h);
    if HasIntegrity(p) {
      PatchedPrefix(p, h);
    }
  }

  lemma IntegrityIs(p: Packet, h: Hmac)
    requires WellFormed(p)
    ensures IntegrityValue(p, h) == h(p.password, Covered(p))
  {
    hide TotalLen;
    hide Head;
    hide Flatten;
    hide Attributes;
  }

  /** A request for "L:R" with the shared password passes the check of L. */
  lemma AcceptsSharedPassword(p: Packet, h: Hmac, local: seq<byte>, remote: seq<byte>)
    requires WellFormed(p) && IsHmac(h)
    requires p.cls < SUCCESS && p.userName == local + [':' as int] + remote && p.password != []
    ensures Parse(Serialize(p, h)).Ok?
    ensures CheckAuth(Serialize(p, h), Parse(Serialize(p, h)).value, local, p.password, h) == Accepted
  {
    hide WellFormed;
    hide Serialize;
    hide Parse;
    hide CheckAuth;
    hide Covered;
    AuthDecides(p, h, local, p.password);
  }

  // ----- the reflexive address -----

  function Unmasked(b: byte, cookie: bv8): bv8 {
    (b as bv8) ^ cookie
  }

  /** How section 15.2 of RFC 5389 has a client read an XOR-MAPPED-ADDRESS. */
  function ReadAddress(value: seq<byte>): Address
    requires |value| == 8
  {
    Inet([Unmasked(value[2], COOKIE_BITS[0]), Unmasked(value[3], COOKIE_BITS[1])],
         [Unmasked(value[4], COOKIE_BITS[0]), Unmasked(value[5], COOKIE_BITS[1]),
          Unmasked(value[6], COOKIE_BITS[2]), Unmasked(value[7], COOKIE_BITS[3])])
  }

  lemma SameCookie()
    ensures |COOKIE_BITS| == |COOKIE| && forall i :: 0 <= i < |COOKIE| ==> COOKIE_BITS[i] as int == COOKIE[i]
  {
  }

  lemma XorBits(b: bv8, c: bv8)
    ensures (b ^ c) ^ c == b
  {
  }

  lemma BitsToByte(x: bv8)
    ensures (x as int) as bv8 == x
  {
  }

  lemma Unmasks(b: bv8, cookie: bv8)
    ensures Unmasked(Masked(b, cookie), cookie) == b
  {
    BitsToByte(b ^ cookie);
    XorBits(b, cookie);
  }

  /** The address in a success response reads back as the one that was set. */
  lemma AddressSurvives(a: Address)
    requires a.Inet? && |a.port| == 2 && |a.addr| == 4
    ensures ReadAddress(AddressValue(a)) == a
  {
    hide Masked;
    hide Unmasked;
    Unmasks(a.port[0], COOKIE_BITS[0]);
    Unmasks(a.port[1], COOKIE_BITS[1]);
    Unmasks(a.addr[0], COOKIE_BITS[0]);
    Unmasks(a.addr[1], COOKIE_BITS[1]);
    Unmasks(a.addr[2], COOKIE_BITS[2]);
    Unmasks(a.addr[3], COOKIE_BITS[3]);
  }

  /** It travels in the attribute 0x0020, as an IPv4 address. */
  lemma AddressIsSent(p: Packet)
    requires WellFormed(p) && p.address.Inet? && p.meth == 1 && p.cls == 2
    ensures exists a <- Attributes(p) ::
              a.kind == 0x0020 && |a.value| == 8 && a.value[..2] == [0, 1] && ReadAddress(a.value) == p.address
  {
    hide TotalLen;
    hide Unmasked;
    hide Masked;
    var a := Attr(0x0020, AddressValue(p.address));
    AddressSurvives(p.address);
    AttributesAre(p);
    hide Attributes;
    assert AddressOf(p) == AddressValue(p.address);
    hide AddressOf;
    hide Front;
    hide ReadAddress;
    assert a in When(HasAddress(p), XOR_MAPPED_ADDRESS, AddressValue(p.address));
  }
}
