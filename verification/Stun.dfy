/**
 * STUN messages (section 6 of RFC 5389) as net/stun/stun_packet.cpp writes, reads and
 * authenticates them. StunObjects.dfy holds the code that works on byte arrays.
 */
module Stun {
  import opened Bytes
  import opened StunFingerprint

  const HEADER_SIZE := 20
  const MAX_SIZE := 1500
  const COOKIE: seq<byte> := [0x21, 0x12, 0xA4, 0x42]
  const COOKIE_BITS: seq<bv8> := [0x21, 0x12, 0xA4, 0x42]

  const REQUEST := 0
  const INDICATION := 1
  const SUCCESS := 2
  const ERROR := 3
  const BINDING := 1

  const USERNAME := 0x0006
  const MESSAGE_INTEGRITY := 0x0008
  const ERROR_CODE := 0x0009
  const XOR_MAPPED_ADDRESS := 0x0020
  const PRIORITY := 0x0024
  const USE_CANDIDATE := 0x0025
  const FINGERPRINT := 0x8028
  const ICE_CONTROLLED := 0x8029
  const ICE_CONTROLLING := 0x802A

  /** HMAC-SHA1 is foreign code: any function with a 20-byte result. */
  type Hmac = (seq<byte>, seq<byte>) -> seq<byte>

  ghost predicate IsHmac(h: Hmac) {
    forall key, data :: |h(key, data)| == 20
  }

  /** An IPv4 address and port as they lie in a sockaddr_in. */
  datatype Address = NoAddress | Inet(port: seq<bv8>, addr: seq<bv8>)

  datatype Packet = Packet(
    cls: nat,
    meth: nat,
    tid: seq<byte>,
    userName: seq<byte>,
    password: seq<byte>,
    priority: nat,
    controlling: nat,
    controlled: nat,
    useCandidate: bool,
    errorCode: nat,
    address: Address)

  /** The integer widths of the fields; the buffer must hold the message. */
  predicate WellFormed(p: Packet) {
    && p.cls < 4 && p.meth < 0x80 && |p.tid| == 12
    && p.priority < 0x1_0000_0000
    && p.controlling < 0x1_0000_0000_0000_0000 && p.controlled < 0x1_0000_0000_0000_0000
    && p.errorCode < 0x1_0000
    && (p.address.Inet? ==> |p.address.port| == 2 && |p.address.addr| == 4)
    && TotalLen(p) <= MAX_SIZE
  }

  // ----- writing -----

  datatype Attr = Attr(kind: nat, value: seq<byte>)

  /** pad_to_4bytes. */
  function Pad4(n: nat): (r: nat)
    ensures n <= r < n + 4 && r % 4 == 0
  {
    if n % 4 != 0 then n - n % 4 + 4 else n
  }

  function Zeros(n: nat): (r: seq<byte>)
    ensures |r| == n
  {
    seq(n, _ => 0)
  }

  function AttrBytes(a: Attr): (r: seq<byte>)
    ensures |r| == 4 + Pad4(|a.value|)
  {
    Put2(a.kind) + Put2(|a.value|) + a.value + Zeros(Pad4(|a.value|) - |a.value|)
  }

  function Flatten(attrs: seq<Attr>): seq<byte>
    decreases |attrs|
  {
    if attrs == [] then [] else AttrBytes(attrs[0]) + Flatten(attrs[1..])
  }

  function When(c: bool, kind: nat, value: seq<byte>): seq<Attr> {
    if c then [Attr(kind, value)] else []
  }

  /** An octet of the address XORed with an octet of the cookie. */
  function Masked(b: bv8, cookie: bv8): byte {
    (b ^ cookie) as int
  }

  function AddressValue(a: Address): (r: seq<byte>)
    requires a.Inet? && |a.port| == 2 && |a.addr| == 4
    ensures |r| == 8
  {
    [0, 1, Masked(a.port[0], COOKIE_BITS[0]), Masked(a.port[1], COOKIE_BITS[1]),
     Masked(a.addr[0], COOKIE_BITS[0]), Masked(a.addr[1], COOKIE_BITS[1]),
     Masked(a.addr[2], COOKIE_BITS[2]), Masked(a.addr[3], COOKIE_BITS[3])]
  }

  /** Class and number of an error code, both cut to a byte. */
  function ErrorValue(code: nat): seq<byte> {
    Put2(0) + [code / 100 % 0x100, (code % 0x100 - code / 100 % 0x100 * 100) % 0x100]
  }

  predicate HasAddress(p: Packet) {
    p.address.Inet? && p.meth == BINDING && p.cls == SUCCESS
  }

  predicate HasError(p: Packet) {
    p.errorCode != 0 && p.cls == ERROR
  }

  predicate HasIntegrity(p: Packet) {
    p.cls != ERROR && p.password != []
  }

  /** The attributes in front of MESSAGE-INTEGRITY, in the order they are written. */
  function Attributes(p: Packet): seq<Attr>
    requires p.address.Inet? ==> |p.address.port| == 2 && |p.address.addr| == 4
  {
    When(p.userName != [], USERNAME, p.userName)
    + When(p.priority != 0, PRIORITY, Put4(p.priority))
    + When(p.controlling != 0, ICE_CONTROLLING, Put8(p.controlling))
    + When(p.controlled != 0, ICE_CONTROLLED, Put8(p.controlled))
    + When(p.useCandidate, USE_CANDIDATE, [])
    + (if HasAddress(p) then [Attr(XOR_MAPPED_ADDRESS, AddressValue(p.address))] else [])
    + When(HasError(p), ERROR_CODE, ErrorValue(p.errorCode))
  }

  function Room(c: bool, n: nat): nat {
    if c then n else 0
  }

  /** The length serialize computes before it writes anything. */
  function TotalLen(p: Packet): nat {
    HEADER_SIZE
    + Room(p.userName != [], 4 + Pad4(|p.userName|))
    + Room(p.priority != 0, 8)
    + Room(p.controlling != 0, 12)
    + Room(p.controlled != 0, 12)
    + Room(p.useCandidate, 4)
    + Room(HasAddress(p), 12)
    + Room(HasError(p), 8)
    + Room(HasIntegrity(p), 24)
    + 8
  }

  /** The method and class bits, interleaved as figure 3 of RFC 5389 has them. */
  function TypeField(meth: nat, cls: nat): nat {
    meth / 0x80 % 0x20 * 0x200 + meth / 0x10 % 8 * 0x20 + meth % 0x10 + cls / 2 % 2 * 0x100 + cls % 2 * 0x10
  }

  function Head(p: Packet, len: nat): (r: seq<byte>)
    requires |p.tid| == 12
    ensures |r| == HEADER_SIZE
  {
    Put2(TypeField(p.meth, p.cls)) + Put2(len) + COOKIE + p.tid
  }

  /** The HMAC input carries the length without the fingerprint. */
  function IntegrityValue(p: Packet, h: Hmac): seq<byte>
    requires WellFormed(p)
  {
    h(p.password, Head(p, TotalLen(p) - HEADER_SIZE - 8) + Flatten(Attributes(p)))
  }

  function Signed(p: Packet, h: Hmac): seq<Attr>
    requires WellFormed(p)
  {
    Attributes(p) + if HasIntegrity(p) then [Attr(MESSAGE_INTEGRITY, IntegrityValue(p, h))] else []
  }

  /** Everything in front of the fingerprint attribute. */
  function Unprinted(p: Packet, h: Hmac): seq<byte>
    requires WellFormed(p)
  {
    Head(p, TotalLen(p) - HEADER_SIZE) + Flatten(Signed(p, h))
  }

  function AllAttributes(p: Packet, h: Hmac): seq<Attr>
    requires WellFormed(p)
  {
    Signed(p, h) + [Attr(FINGERPRINT, Put4(Fingerprint(Unprinted(p, h))))]
  }

  function Serialize(p: Packet, h: Hmac): seq<byte>
    requires WellFormed(p)
  {
    Head(p, TotalLen(p) - HEADER_SIZE) + Flatten(AllAttributes(p, h))
  }

  // ----- reading -----

  /** What the attribute loop has gathered; positions are offsets into the message. */
  datatype Found = Found(
    userName: seq<byte>,
    priority: nat,
    controlling: nat,
    controlled: nat,
    useCandidate: bool,
    errorCode: nat,
    hasIntegrity: bool,
    integrityAt: nat,
    hasFingerprint: bool,
    fingerprint: nat,
    fingerprintAt: nat)

  const NothingFound := Found([], 0, 0, 0, false, 0, false, 0, false, 0, 0)

  datatype Result<T> = Err | Ok(value: T)

  /** One attribute whose value starts four bytes after pos. */
  function Take(f: Found, kind: nat, value: seq<byte>, pos: nat): Result<Found> {
    if f.hasFingerprint then Err
    else if f.hasIntegrity && kind != FINGERPRINT then Err
    else if kind == USERNAME then Ok(f.(userName := value))
    else if kind == PRIORITY then
      if |value| != 4 then Err else Ok(f.(priority := Get4(value)))
    else if kind == ICE_CONTROLLING then
      if |value| != 8 then Err else Ok(f.(controlling := Get8(value)))
    else if kind == ICE_CONTROLLED then
      if |value| != 8 then Err else Ok(f.(controlled := Get8(value)))
    else if kind == USE_CANDIDATE then
      if |value| != 0 then Err else Ok(f.(useCandidate := true))
    else if kind == MESSAGE_INTEGRITY then
      if |value| != 20 then Err else Ok(f.(hasIntegrity := true, integrityAt := pos + 4))
    else if kind == FINGERPRINT then
      if |value| != 4 then Err
      else Ok(f.(hasFingerprint := true, fingerprint := Get4(value), fingerprintAt := pos))
    else if kind == ERROR_CODE then
      if |value| != 4 then Err else Ok(f.(errorCode := value[2] as int * 100 + value[3]))
    else Ok(f)
  }

  /** The recorded positions lie inside a message of n bytes. */
  predicate Inside(f: Found, n: nat) {
    && (f.hasFingerprint ==> f.fingerprintAt + 8 <= n)
    && (f.hasIntegrity ==> HEADER_SIZE + 4 <= f.integrityAt && f.integrityAt + 20 <= n)
  }

  /** The attribute loop over the bytes. */
  function ParseAttrs(data: seq<byte>, pos: nat, f: Found): (r: Result<Found>)
    requires HEADER_SIZE <= pos && Inside(f, |data|)
    ensures r.Ok? ==> Inside(r.value, |data|)
    decreases if pos <= |data| then |data| - pos else 0
  {
    if pos + 4 >= |data| then if pos == |data| then Ok(f) else Err
    else
      var len := Get2(data[pos + 2..]);
      if pos + 4 + len > |data| then Err
      else
        var r := Take(f, Get2(data[pos..]), data[pos + 4..pos + 4 + len], pos);
        if r.Err? then Err else ParseAttrs(data, pos + 4 + Pad4(len), r.value)
  }

  datatype Parsed = Parsed(cls: nat, meth: nat, tid: seq<byte>, found: Found)

  predicate IsStun(data: seq<byte>) {
    |data| >= HEADER_SIZE && data[0] < 3 && data[4..8] == COOKIE
  }

  function Method(field: nat): nat {
    field % 0x10 + field / 0x20 % 8 * 0x10 + field / 0x200 % 0x20 * 0x80
  }

  function Class(field: nat): nat {
    field / 0x100 % 2 * 2 + field / 0x10 % 2
  }

  function Parse(data: seq<byte>): (r: Result<Parsed>)
    ensures r.Ok? ==> |data| >= HEADER_SIZE && Inside(r.value.found, |data|)
  {
    if !IsStun(data) then Err
    else
      var field, len := Get2(data), Get2(data[2..]);
      if len != |data| - HEADER_SIZE || len % 4 != 0 || |data| > MAX_SIZE then Err
      else
        var r := ParseAttrs(data, HEADER_SIZE, NothingFound);
        if r.Err? then Err
        else
          var f := r.value;
          if f.hasFingerprint && f.fingerprint != Fingerprint(data[..f.fingerprintAt]) then Err
          else Ok(Parsed(Class(field), Method(field), data[8..20], f))
  }

  // ----- authenticating -----

  /** NoIntegrity: the code follows a null pointer when a message has no MESSAGE-INTEGRITY. */
  datatype Auth = Accepted | Unauthorized | BadRequest | NoIntegrity

  predicate UserMatches(userName: seq<byte>, local: seq<byte>) {
    |userName| > |local| && userName[|local|] == ':' as int && userName[..|local|] == local
  }

  function SetLength(data: seq<byte>, len: nat): (r: seq<byte>)
    requires |data| >= 4
    ensures |r| == |data|
  {
    data[..2] + Put2(len) + data[4..]
  }

  function CheckAuth(data: seq<byte>, m: Parsed, local: seq<byte>, password: seq<byte>, h: Hmac): Auth
    requires |data| >= HEADER_SIZE && Inside(m.found, |data|)
  {
    if m.cls >= SUCCESS || m.found.userName == [] then BadRequest
    else if !UserMatches(m.found.userName, local) then Unauthorized
    else if !m.found.hasIntegrity then NoIntegrity
    else
      var patched := if m.found.hasFingerprint then SetLength(data, |data| - HEADER_SIZE - 8) else data;
      var at := m.found.integrityAt;
      if h(password, patched[..at - 4]) == data[at..at + 20] then Accepted else Unauthorized
  }
}
