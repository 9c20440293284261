/** The code of net/stun/stun_packet.cpp that fills, walks and patches byte arrays. */
module StunObjects {
  import opened Bytes
  import opened StunFingerprint
  import opened Stun
  import opened StunRoundTrip

  method ParseMessage(data: array<byte>) returns (r: Result<Parsed>)
    ensures r == Parse(data[..])
  {
    hide ParseAttrs;
    hide Fingerprint;
    hide Get2;
    hide Method;
    hide Class;
    ghost var bytes := data[..];
    if data.Length < HEADER_SIZE || data[0] >= 3 || data[4..8] != COOKIE {
      return Err;
    }
    var field, len := Get2(data[0..2]), Get2(data[2..4]);
    Get2Slices(bytes, 0);
    Get2Slices(bytes, 2);
    assert bytes[0..] == bytes;
    if len != data.Length - HEADER_SIZE || len % 4 != 0 || data.Length > MAX_SIZE {
      return Err;
    }
    var found := WalkAttributes(data);
    if found.Err? {
      return Err;
    }
    var f := found.value;
    if f.hasFingerprint {
      var expected := GetFingerprint(data[..f.fingerprintAt]);
      if f.fingerprint != expected {
        return Err;
      }
    }
    r := Ok(Parsed(Class(field), Method(field), data[8..20], f));
  }

  method WalkAttributes(data: array<byte>) returns (r: Result<Found>)
    requires data.Length >= HEADER_SIZE
    ensures r == ParseAttrs(data[..], HEADER_SIZE, NothingFound)
    ensures r.Ok? ==> Inside(r.value, data.Length)
  {
    hide Take;
    hide Get2;
    hide ParseAttrs;
    ghost var bytes := data[..];
    var f, p := NothingFound, HEADER_SIZE;
    while p + 4 < data.Length
      invariant HEADER_SIZE <= p && Inside(f, data.Length)
      invariant ParseAttrs(bytes, HEADER_SIZE, NothingFound) == ParseAttrs(bytes, p, f)
      decreases data.Length - p
    {
      var kind, attrLen := Get2(data[p..p + 2]), Get2(data[p + 2..p + 4]);
      Get2Slices(bytes, p);
      Get2Slices(bytes, p + 2);
      Unfold(bytes, p, f);
      if p + 4 + attrLen > data.Length {
        return Err;
      }
      var step := TakeAttribute(f, kind, data[p + 4..p + 4 + attrLen], p);
      if step.Err? {
        return Err;
      }
      f := step.value;
      p := p + 4 + Pad4(attrLen);
    }
    r := if p == data.Length then Ok(f) else Err;
    Unfold(bytes, p, f);
  }

  /** The order checks and the switch over the attribute type. */
  method TakeAttribute(f: Found, kind: nat, value: seq<byte>, pos: nat) returns (r: Result<Found>)
    ensures r == Take(f, kind, value, pos)
  {
    hide Get4;
    hide Get8;
    if f.hasFingerprint {
      return Err;
    }
    if f.hasIntegrity && kind != FINGERPRINT {
      return Err;
    }
    var len := |value|;
    if kind == USERNAME {
      return Ok(f.(userName := value));
    } else if kind == PRIORITY {
      if len != 4 {
        return Err;
      }
      return Ok(f.(priority := Get4(value)));
    } else if kind == ICE_CONTROLLING {
      if len != 8 {
        return Err;
      }
      return Ok(f.(controlling := Get8(value)));
    } else if kind == ICE_CONTROLLED {
      if len != 8 {
        return Err;
      }
      return Ok(f.(controlled := Get8(value)));
    } else if kind == USE_CANDIDATE {
      if len != 0 {
        return Err;
      }
      return Ok(f.(useCandidate := true));
    } else if kind == MESSAGE_INTEGRITY {
      if len != 20 {
        return Err;
      }
      return Ok(f.(hasIntegrity := true, integrityAt := pos + 4));
    } else if kind == FINGERPRINT {
      if len != 4 {
        return Err;
      }
      return Ok(f.(hasFingerprint := true, fingerprint := Get4(value), fingerprintAt := pos));
    } else if kind == ERROR_CODE {
      if len != 4 {
        return Err;
      }
      var errorClass: nat, errorNumber: nat := value[2], value[3];
      return Ok(f.(errorCode := errorClass * 100 + errorNumber));
    }
    return Ok(f);
  }

  lemma Unfold(bytes: seq<byte>, p: nat, f: Found)
    requires HEADER_SIZE <= p && Inside(f, |bytes|)
    ensures p + 4 >= |bytes| ==> ParseAttrs(bytes, p, f) == if p == |bytes| then Ok(f) else Err
    ensures p + 4 < |bytes| ==>
      var len := Get2(bytes[p + 2..]);
      && (p + 4 + len > |bytes| ==> ParseAttrs(bytes, p, f).Err?)
      && (p + 4 + len <= |bytes| ==>
          var step := Take(f, Get2(bytes[p..]), bytes[p + 4..p + 4 + len], p);
          && (step.Err? ==> ParseAttrs(bytes, p, f).Err?)
          && (step.Ok? ==>
              && Inside(step.value, |bytes|)
              && ParseAttrs(bytes, p, f) == ParseAttrs(bytes, p + 4 + Pad4(len), step.value)))
  {
    hide Take;
    hide Get2;
    if p + 4 < |bytes| && p + 4 + Get2(bytes[p + 2..]) <= |bytes| {
      var len := Get2(bytes[p + 2..]);
      TakeInside(f, Get2(bytes[p..]), bytes[p + 4..p + 4 + len], p, |bytes|);
    }
  }

  lemma Get2Slices(s: seq<byte>, at: nat)
    requires at + 2 <= |s|
    ensures Get2(s[at..at + 2]) == Get2(s[at..])
  {
  }

  /** The length field is patched for the HMAC and put back. */
  method CheckAuthentication(origin: array<byte>, m: Parsed, local: seq<byte>, password: seq<byte>, h: Hmac)
    returns (auth: Auth)
    requires Parse(origin[..]) == Ok(m)
    modifies origin
    ensures origin[..] == old(origin[..])
    ensures auth == CheckAuth(old(origin[..]), m, local, password, h)
  {
    hide Parse;
    hide SetLength;
    hide Get2;
    hide UserMatches;
    ghost var bytes := origin[..];
    ParsedLength(bytes);
    if m.cls >= SUCCESS || m.found.userName == [] {
      return BadRequest;
    }
    if !UserMatches(m.found.userName, local) {
      return Unauthorized;
    }
    if !m.found.hasIntegrity {
      return NoIntegrity;
    }
    var at := m.found.integrityAt;
    if m.found.hasFingerprint {
      BehindLength(bytes, origin.Length - HEADER_SIZE - 8, at);
      WriteLength(origin, origin.Length - HEADER_SIZE - 8);
    }
    ghost var patched := origin[..];
    assert origin[..at - 4] == patched[..at - 4] && origin[at..at + 20] == patched[at..at + 20];
    var calculated := h(password, origin[..at - 4]);
    auth := if calculated == origin[at..at + 20] then Accepted else Unauthorized;
    WriteLength(origin, origin.Length - HEADER_SIZE);
    SetBack(bytes, origin.Length - HEADER_SIZE - 8);
  }

  lemma ParsedLength(bytes: seq<byte>)
    requires Parse(bytes).Ok?
    ensures HEADER_SIZE <= |bytes| <= MAX_SIZE && Inside(Parse(bytes).value.found, |bytes|)
    ensures Get2(bytes[2..]) == |bytes| - HEADER_SIZE
  {
    hide ParseAttrs;
    hide Get2;
    hide Fingerprint;
  }

  lemma BehindLength(bytes: seq<byte>, len: nat, at: nat)
    requires 4 <= at && at + 20 <= |bytes|
    ensures SetLength(bytes, len)[at..at + 20] == bytes[at..at + 20]
  {
  }

  lemma SetBack(bytes: seq<byte>, len: nat)
    requires |bytes| >= 4
    ensures SetLength(SetLength(bytes, len), Get2(bytes[2..])) == SetLength(bytes, Get2(bytes[2..])) == bytes
  {
  }

  method WriteLength(data: array<byte>, len: nat)
    requires data.Length >= 4
    modifies data
    ensures data[..] == SetLength(old(data[..]), len)
  {
    var two := Put2(len);
    data[2], data[3] := two[0], two[1];
  }

  /** The buffer a packet is written into. */
  class MessageBuffer {
    const data: array<byte>
    var dataLen: nat

    constructor ()
      ensures fresh(data) && data.Length == MAX_SIZE && Blank(0) && dataLen == 0
    {
      data := new byte[MAX_SIZE](_ => 0);
      dataLen := 0;
    }

    /** Nothing has been written from this offset on. */
    ghost predicate Blank(from: nat)
      reads data
    {
      forall i :: from <= i < data.Length ==> data[i] == 0
    }

    method Write(at: nat, bytes: seq<byte>)
      requires at + |bytes| <= data.Length && Blank(at)
      modifies data
      ensures data[..at + |bytes|] == old(data[..at]) + bytes && Blank(at + |bytes|)
    {
      forall i | 0 <= i < |bytes| {
        data[at + i] := bytes[i];
      }
    }

    /** An attribute leaves the padding behind its value as the buffer had it. */
    method WriteAttr(at: nat, kind: nat, value: seq<byte>) returns (next: nat)
      requires at + 4 + Pad4(|value|) <= data.Length && Blank(at)
      modifies data
      ensures next == at + 4 + Pad4(|value|) && Blank(next)
      ensures data[..next] == old(data[..at]) + AttrBytes(Attr(kind, value))
    {
      hide Put2;
      ghost var before := data[..at];
      Write(at, Put2(kind));
      Write(at + 2, Put2(|value|));
      Write(at + 4, value);
      next := at + 4 + Pad4(|value|);
      ghost var end := at + 4 + |value|;
      ghost var padding := data[end..next];
      assert padding == Zeros(next - end);
      assert data[..next] == data[..end] + padding;
      InOne(before, Put2(kind), Put2(|value|), value, padding);
    }

    /** One conditional attribute behind those already written. */
    method WriteWhen(ghost head: seq<byte>, ghost attrs: seq<Attr>, at: nat, c: bool, kind: nat, value: seq<byte>)
      returns (next: nat)
      requires at + Room(c, 4 + Pad4(|value|)) <= data.Length && Blank(at)
      requires data[..at] == head + Flatten(attrs)
      modifies data
      ensures next == at + Room(c, 4 + Pad4(|value|)) && Blank(next)
      ensures data[..next] == head + Flatten(attrs + When(c, kind, value))
    {
      if c {
        next := WriteNext(head, attrs, at, kind, value);
      } else {
        next := at;
        assert attrs + [] == attrs;
      }
    }

    method WriteNext(ghost head: seq<byte>, ghost attrs: seq<Attr>, at: nat, kind: nat, value: seq<byte>)
      returns (next: nat)
      requires at + 4 + Pad4(|value|) <= data.Length && Blank(at) && data[..at] == head + Flatten(attrs)
      modifies data
      ensures next == at + 4 + Pad4(|value|) && Blank(next)
      ensures data[..next] == head + Flatten(attrs + [Attr(kind, value)])
    {
      hide AttrBytes;
      FlattenConcat(attrs, [Attr(kind, value)]);
      FlattenOne(Attr(kind, value));
      hide Flatten;
      next := WriteAttr(at, kind, value);
      ghost var before, attr := Flatten(attrs), AttrBytes(Attr(kind, value));
      assert head + before + attr == head + (before + attr);
    }

    /** Only the length field of what has been written changes. */
    method PatchLength(len: nat, ghost at: nat)
      requires 4 <= at <= data.Length && Blank(at)
      modifies data
      ensures Blank(at) && data[..at] == SetLength(old(data[..at]), len)
    {
      var two := Put2(len);
      data[2], data[3] := two[0], two[1];
    }

    method WriteFields(p: Packet) returns (at: nat)
      requires WellFormed(p) && data.Length == MAX_SIZE && Blank(0)
      modifies data
      ensures at == TotalLen(p) - 8 - Room(HasIntegrity(p), 24) && Blank(at)
      ensures data[..at] == Head(p, TotalLen(p) - HEADER_SIZE) + Flatten(Attributes(p))
    {
      hide WellFormed;
      hide Flatten;
      hide TotalLen;
      hide Room;
      hide Head;
      hide Front;
      hide FrontRoom;
      hide Attributes;
      WellFormedFields(p);
      AddUp(p);
      var head := Head(p, TotalLen(p) - HEADER_SIZE);
      Write(0, head);
      at := WriteFront(p, head);
      at := WriteBack(p, head, at);
    }

    method WriteBack(p: Packet, ghost head: seq<byte>, start: nat) returns (at: nat)
      requires WellFormed(p) && data.Length == MAX_SIZE && Blank(start) && start == HEADER_SIZE + FrontRoom(p)
      requires data[..start] == head + Flatten(Front(p))
      modifies data
      ensures at == TotalLen(p) - 8 - Room(HasIntegrity(p), 24) && Blank(at)
      ensures data[..at] == head + Flatten(Attributes(p))
    {
      hide WellFormed;
      hide Flatten;
      hide Room;
      hide ErrorValue;
      hide When;
      hide Attributes;
      hide Front;
      hide FrontRoom;
      hide TotalLen;
      hide HasAddress;
      hide HasError;
      hide HasIntegrity;
      WellFormedFields(p);
      AttributesAre(p);
      AddUp(p);
      AddressRoom(p);
      at := WriteWhen(head, Front(p), start, p.useCandidate, USE_CANDIDATE, []);
      ghost var s5 := Front(p) + When(p.useCandidate, USE_CANDIDATE, []);
      at := WriteWhen(head, s5, at, HasAddress(p), XOR_MAPPED_ADDRESS, AddressOf(p));
      ghost var s6 := s5 + When(HasAddress(p), XOR_MAPPED_ADDRESS, AddressOf(p));
      TakesError(p.errorCode, NothingFound, 0);
      at := WriteWhen(head, s6, at, HasError(p), ERROR_CODE, ErrorValue(p.errorCode));
    }

    method WriteFront(p: Packet, ghost head: seq<byte>) returns (at: nat)
      requires WellFormed(p) && data.Length == MAX_SIZE && Blank(HEADER_SIZE) && |head| == HEADER_SIZE
      requires data[..HEADER_SIZE] == head
      modifies data
      ensures at == HEADER_SIZE + FrontRoom(p) && Blank(at)
      ensures data[..at] == head + Flatten(Front(p))
    {
      hide WellFormed;
      hide Flatten;
      hide Room;
      hide Put4;
      hide Put8;
      hide When;
      WellFormedFields(p);
      NothingTaken();
      FrontFitsBuffer(p);
      at := HEADER_SIZE;
      assert head + Flatten([]) == head;
      at := WriteWhen(head, [], at, p.userName != [], USERNAME, p.userName);
      ghost var s1 := When(p.userName != [], USERNAME, p.userName);
      assert [] + s1 == s1;
      at := WriteWhen(head, s1, at, p.priority != 0, PRIORITY, Put4(p.priority));
      ghost var s2 := s1 + When(p.priority != 0, PRIORITY, Put4(p.priority));
      at := WriteWhen(head, s2, at, p.controlling != 0, ICE_CONTROLLING, Put8(p.controlling));
      ghost var s3 := s2 + When(p.controlling != 0, ICE_CONTROLLING, Put8(p.controlling));
      at := WriteWhen(head, s3, at, p.controlled != 0, ICE_CONTROLLED, Put8(p.controlled));
    }

    /** The check at the end of serialize never fails: intact says so. */
    method SerializeInto(p: Packet, h: Hmac) returns (intact: bool)
      requires WellFormed(p) && IsHmac(h) && data.Length == MAX_SIZE && Blank(0)
      modifies this, data
      ensures intact && dataLen == TotalLen(p) <= data.Length
      ensures data[..dataLen] == Stun.Serialize(p, h)
    {
      hide WellFormed;
      hide Flatten;
      hide When;
      hide Head;
      hide TotalLen;
      hide Attributes;
      hide HasIntegrity;
      hide Fingerprint;
      hide Put4;
      hide IntegrityValue;
      WellFormedFields(p);
      TotalLenIsAligned(p, h);
      AttributesTaken(p);
      SignedTaken(p, h);
      SignedIs(p, h);
      AllIs(p, h);
      AllTaken(p, h);
      dataLen := TotalLen(p);
      var at := WriteFields(p);
      ghost var head := Head(p, TotalLen(p) - HEADER_SIZE);
      at := WriteIntegrity(p, h, at);
      var fingerprint := GetFingerprint(data[..at]);
      at := WriteWhen(head, Signed(p, h), at, true, FINGERPRINT, Put4(fingerprint));
      intact := at == dataLen;
    }

    method WriteIntegrity(p: Packet, h: Hmac, start: nat) returns (at: nat)
      requires WellFormed(p) && IsHmac(h) && data.Length == MAX_SIZE && Blank(start)
      requires start == TotalLen(p) - 8 - Room(HasIntegrity(p), 24)
      requires data[..start] == Head(p, TotalLen(p) - HEADER_SIZE) + Flatten(Attributes(p))
      modifies data
      ensures at == TotalLen(p) - 8 && Blank(at)
      ensures data[..at] == Head(p, TotalLen(p) - HEADER_SIZE) + Flatten(Signed(p, h))
    {
      hide WellFormed;
      hide Flatten;
      hide When;
      hide Head;
      hide Attributes;
      hide HasIntegrity;
      hide IntegrityValue;
      hide SetLength;
      hide TotalLen;
      WellFormedFields(p);
      IntegrityIs(p, h);
      IntegrityLength(p, h);
      SignedIs(p, h);
      TotalLenIsAligned(p, h);
      AttributesTaken(p);
      var whole := TotalLen(p) - HEADER_SIZE;
      at := start;
      if HasIntegrity(p) {
        SetLengthOfHead(p, whole, whole - 8, Flatten(Attributes(p)));
        PatchLength(whole - 8, at);
        var value := h(p.password, data[..at]);
        at := WriteWhen(Head(p, whole - 8), Attributes(p), at, true, MESSAGE_INTEGRITY, value);
        SetLengthOfHead(p, whole - 8, whole, Flatten(Signed(p, h)));
        PatchLength(whole, at);
      } else {
        NoIntegrityAttribute(p, h);
      }
    }
  }

  lemma InOne(before: seq<byte>, a: seq<byte>, b: seq<byte>, c: seq<byte>, d: seq<byte>)
    ensures before + a + b + c + d == before + (a + b + c + d)
  {
  }

  lemma FlattenOne(a: Attr)
    ensures Flatten([a]) == AttrBytes(a)
  {
  }

  lemma FrontFitsBuffer(p: Packet)
    requires WellFormed(p)
    ensures HEADER_SIZE + FrontRoom(p) <= MAX_SIZE
  {
    hide Room;
  }

  lemma NoIntegrityAttribute(p: Packet, h: Hmac)
    requires WellFormed(p) && !HasIntegrity(p)
    ensures p.address.Inet? ==> |p.address.port| == 2 && |p.address.addr| == 4
    ensures Signed(p, h) == Attributes(p)
  {
    hide Attributes;
    hide TotalLen;
  }
}
