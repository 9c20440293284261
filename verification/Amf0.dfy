/** AMF0 values as net/rtmp/amf/amf0.hpp writes and reads them, and the loop that reads a command. */
module Amf0 {
  import opened Bytes

  const NUMBER := 0x00
  const BOOL := 0x01
  const STRING := 0x02
  const OBJECT := 0x03
  const NULL := 0x05
  const UNDEFINED := 0x06
  const REFERENCE := 0x07
  const MIXED_ARRAY := 0x08
  const OBJECT_END := 0x09
  const ARRAY := 0x0a
  const DATE := 0x0b
  const LONG_STRING := 0x0c
  const UNSUPPORTED := 0x0d

  /** An AMF_ITERM; a double is its 64 bits. */
  datatype Value =
    | Unknown
    | Number(bits: nat)
    | Bool(flag: bool)
    | Str(text: seq<byte>)
    | LongStr(text: seq<byte>)
    | Object(props: map<seq<byte>, Value>)
    | Null
    | Undefined
    | Array(items: seq<Value>)
    | Date(bits: nat)

  // ----- writing -----

  function EncodeKey(key: seq<byte>): seq<byte> {
    (if |key| > 0xffff then Put4(|key|) else Put2(|key|)) + key
  }

  function EncodeText(text: seq<byte>): seq<byte> {
    if |text| > 0xffff then [LONG_STRING] + Put4(|text|) + text else [STRING] + Put2(|text|) + text
  }

  predicate IsScalar(v: Value) {
    v.Number? || v.Bool? || v.Str? || v.LongStr? || v.Null? || v.Undefined?
  }

  function EncodeScalar(v: Value): (r: seq<byte>)
    requires IsScalar(v)
    ensures r != []
  {
    if v.Number? then [NUMBER] + Put8(v.bits)
    else if v.Bool? then [BOOL, if v.flag then 1 else 0]
    else if v.Null? then [NULL]
    else if v.Undefined? then [UNDEFINED]
    else EncodeText(v.text)
  }

  /** The properties in the order the hash map yields its keys. */
  function EncodeProps(keys: seq<seq<byte>>, props: map<seq<byte>, Value>): seq<byte>
    requires forall k <- keys :: k in props && IsScalar(props[k])
  {
    if keys == [] then []
    else
      assert keys[0] in keys;
      EncodeKey(keys[0]) + EncodeScalar(props[keys[0]]) + EncodeProps(keys[1..], props)
  }

  function EncodeObject(keys: seq<seq<byte>>, props: map<seq<byte>, Value>): seq<byte>
    requires forall k <- keys :: k in props && IsScalar(props[k])
  {
    [OBJECT] + EncodeProps(keys, props) + EncodeKey([]) + [OBJECT_END]
  }

  /** What an encoder call leaves in the buffer, and whether it went through. */
  datatype Attempt = Attempt(ok: bool, bytes: seq<byte>)

  /** Any value as a property: arrays and dates are skipped, nested objects are refused. */
  function TryValue(v: Value): Attempt {
    if IsScalar(v) then Attempt(true, EncodeScalar(v)) else Attempt(v.Array? || v.Date?, [])
  }

  function TryProps(keys: seq<seq<byte>>, props: map<seq<byte>, Value>): Attempt
    requires forall k <- keys :: k in props
  {
    if keys == [] then Attempt(true, [])
    else
      assert keys[0] in keys;
      var first := EncodeKey(keys[0]) + TryValue(props[keys[0]]).bytes;
      if !TryValue(props[keys[0]]).ok then Attempt(false, first)
      else
        var rest := TryProps(keys[1..], props);
        Attempt(rest.ok, first + rest.bytes)
  }

  /** A refused property ends the object where it stands. */
  function TryObject(keys: seq<seq<byte>>, props: map<seq<byte>, Value>): Attempt
    requires forall k <- keys :: k in props
  {
    var r := TryProps(keys, props);
    Attempt(r.ok, [OBJECT] + r.bytes + if r.ok then EncodeKey([]) + [OBJECT_END] else [])
  }

  lemma {:induction false} TryPropsOfScalars(keys: seq<seq<byte>>, props: map<seq<byte>, Value>)
    requires forall k <- keys :: k in props && IsScalar(props[k])
    ensures TryProps(keys, props) == Attempt(true, EncodeProps(keys, props))
    decreases |keys|
  {
    hide EncodeKey;
    hide EncodeScalar;
    if keys == [] {
    } else {
      assert keys[0] in keys;
      TryPropsOfScalars(keys[1..], props);
    }
  }

  /** An object of scalars goes through whole. */
  lemma ScalarsGoThrough(keys: seq<seq<byte>>, props: map<seq<byte>, Value>)
    requires forall k <- keys :: k in props && IsScalar(props[k])
    ensures TryObject(keys, props) == Attempt(true, EncodeObject(keys, props))
  {
    TryPropsOfScalars(keys, props);
    hide TryProps;
    hide EncodeProps;
    hide EncodeKey;
    var body := EncodeProps(keys, props);
    assert [OBJECT] + body + (EncodeKey([]) + [OBJECT_END]) == [OBJECT] + body + EncodeKey([]) + [OBJECT_END];
  }

  /** The call fails exactly on a nested object or an item of unknown type. */
  lemma {:induction false} RefusedIsNested(keys: seq<seq<byte>>, props: map<seq<byte>, Value>)
    requires forall k <- keys :: k in props
    ensures TryObject(keys, props).ok <==> forall k <- keys :: !props[k].Object? && !props[k].Unknown?
    decreases |keys|
  {
    hide EncodeKey;
    hide EncodeScalar;
    if keys == [] {
    } else {
      assert keys == [keys[0]] + keys[1..];
      RefusedIsNested(keys[1..], props);
    }
  }

  // ----- reading -----

  /**
   * Bad: decode returned an error, leaving this much of the item and of the data.
   * Broken: it read past the data or ran into an assertion.
   */
  datatype Outcome<T> = Ok(value: T, rest: seq<byte>) | Bad(value: T, rest: seq<byte>) | Broken

  predicate Shorter<T>(o: Outcome<T>, d: seq<byte>) {
    match o
    case Ok(_, rest) => |rest| < |d|
    case Bad(_, rest) => |rest| <= |d|
    case Broken => true
  }

  predicate NotLonger<T>(o: Outcome<T>, d: seq<byte>) {
    o.Broken? || |o.rest| <= |d|
  }

  function Wrap<T>(o: Outcome<T>, f: T -> Value): Outcome<Value> {
    match o
    case Ok(v, rest) => Ok(f(v), rest)
    case Bad(v, rest) => Bad(f(v), rest)
    case Broken => Broken
  }

  function AsObject(props: map<seq<byte>, Value>): Value {
    Object(props)
  }

  function DecodeText(d: seq<byte>, len: nat, long: bool): Outcome<Value> {
    if |d| < len then Broken else Ok(if long then LongStr(d[..len]) else Str(d[..len]), d[len..])
  }

  function Decode(d: seq<byte>): (r: Outcome<Value>)
    ensures Shorter(r, d)
    decreases |d|, 0
  {
    if d == [] then Broken
    else if d[0] > UNSUPPORTED then Bad(Unknown, d)
    else DecodeBody(d[0], d[1..])
  }

  /** The value behind its type byte. */
  function DecodeBody(t: byte, r: seq<byte>): (o: Outcome<Value>)
    ensures NotLonger(o, r)
    decreases |r|, 2
  {
    if t == NUMBER then if |r| < 8 then Broken else Ok(Number(Get8(r[..8])), r[8..])
    else if t == BOOL then if r == [] then Broken else Ok(Bool(r[0] != 0), r[1..])
    else if t == STRING then if |r| < 2 then Broken else DecodeText(r[2..], Get2(r[..2]), false)
    else if t == OBJECT then Wrap(DecodeObject(r, map[]), AsObject)
    else if t == NULL then Ok(Null, r)
    else if t == UNDEFINED then Ok(Undefined, r)
    else if t == REFERENCE then Broken
    else if t == MIXED_ARRAY then if |r| < 4 then Broken else Wrap(DecodeObject(r[4..], map[]), AsObject)
    else if t == ARRAY then if |r| < 4 then Broken else DecodeArray(r[4..], Get4(r[..4]), [])
    else if t == DATE then
      if |r| < 8 then Broken else Ok(Date(Get8(r[..8])), if |r| < 10 then [] else r[10..])
    else if t == LONG_STRING then if |r| < 4 then Broken else DecodeText(r[4..], Get4(r[..4]), true)
    else if t == UNSUPPORTED then Ok(LongStr([]), r)
    else Bad(Unknown, r)
  }

  /** The first of equal keys stays; the end marker is looked at but left in the data. */
  function DecodeObject(d: seq<byte>, props: map<seq<byte>, Value>): (r: Outcome<map<seq<byte>, Value>>)
    ensures NotLonger(r, d)
    decreases |d|, 1
  {
    if d == [] then Ok(props, d)
    else if |d| < 2 then Broken
    else
      var len := Get2(d[..2]);
      var r := d[2..];
      if len == 0 then
        if r == [] || r[0] != OBJECT_END then Broken else Ok(props, r)
      else if |r| <= len then Broken
      else if r[len] > UNSUPPORTED then Bad(props, r[len..])
      else
        match Decode(r[len..])
        case Ok(v, rest) => DecodeObject(rest, if r[..len] in props then props else props[r[..len] := v])
        case Bad(_, rest) => Bad(props, rest)
        case Broken => Broken
  }

  /** The error code of an element is dropped: the array ends there. */
  function DecodeArray(d: seq<byte>, count: nat, items: seq<Value>): (r: Outcome<Value>)
    ensures NotLonger(r, d)
    decreases |d|, 1
  {
    if count == 0 then Ok(Array(items), d)
    else
      match Decode(d)
      case Ok(v, rest) => DecodeArray(rest, count - 1, items + [v])
      case Bad(_, rest) => Ok(Array(items), rest)
      case Broken => Broken
  }

  /** Endless: an unknown type byte is never consumed, so the loop does not end. */
  datatype Command = Items(items: seq<Value>) | Undecodable | Endless

  /** The loop of handle_client_command_message, which ignores error codes. */
  function DecodeAll(d: seq<byte>): Command
    decreases |d|
  {
    if d == [] then Items([])
    else
      var o := Decode(d);
      if o.Broken? then Undecodable
      else if |o.rest| == |d| then Endless
      else
        var more := DecodeAll(o.rest);
        if more.Items? then Items([o.value] + more.items) else more
  }

  // ----- what comes back -----

  predicate WellFormed(v: Value) {
    && IsScalar(v)
    && (v.Number? ==> v.bits < 0x1_0000_0000_0000_0000)
    && (v.Str? || v.LongStr? ==> |v.text| < 0x1_0000_0000)
  }

  /** The length alone decides which string type is written. */
  function Typed(v: Value): Value
    requires IsScalar(v)
  {
    if v.Str? || v.LongStr? then if |v.text| > 0xffff then LongStr(v.text) else Str(v.text)
    else v
  }

  lemma DecodeSplits(t: byte, r: seq<byte>)
    requires t <= UNSUPPORTED
    ensures Decode([t] + r) == DecodeBody(t, r)
  {
    hide DecodeBody;
    assert ([t] + r)[1..] == r;
  }

  lemma DecodeString(r: seq<byte>)
    ensures Decode([STRING] + r) == if |r| < 2 then Broken else DecodeText(r[2..], Get2(r[..2]), false)
  {
    hide Get2;
    hide DecodeText;
    hide DecodeObject;
    hide DecodeArray;
    hide Decode;
    DecodeSplits(STRING, r);
  }

  lemma DecodeLongString(r: seq<byte>)
    ensures Decode([LONG_STRING] + r) == if |r| < 4 then Broken else DecodeText(r[4..], Get4(r[..4]), true)
  {
    hide Get4;
    hide DecodeText;
    hide DecodeObject;
    hide DecodeArray;
    hide Decode;
    DecodeSplits(LONG_STRING, r);
  }

  lemma Behind(head: seq<byte>, text: seq<byte>, tail: seq<byte>)
    ensures (head + text + tail)[..|head|] == head
    ensures (head + text + tail)[|head|..] == text + tail
    ensures (text + tail)[..|text|] == text && (text + tail)[|text|..] == tail
  {
    assert head + text + tail == head + (text + tail);
  }

  lemma ShortTextReads(head: seq<byte>, text: seq<byte>, tail: seq<byte>)
    requires |head| == 2 && Get2(head) == |text|
    ensures Decode([STRING] + head + text + tail) == Ok(Str(text), tail)
  {
    hide Get2;
    Behind(head, text, tail);
    DecodeString(head + text + tail);
    hide Decode;
    assert [STRING] + head + text + tail == [STRING] + (head + text + tail);
  }

  lemma LongTextReads(head: seq<byte>, text: seq<byte>, tail: seq<byte>)
    requires |head| == 4 && Get4(head) == |text|
    ensures Decode([LONG_STRING] + head + text + tail) == Ok(LongStr(text), tail)
  {
    hide Get4;
    Behind(head, text, tail);
    DecodeLongString(head + text + tail);
    hide Decode;
    assert [LONG_STRING] + head + text + tail == [LONG_STRING] + (head + text + tail);
  }

  lemma TextReads(text: seq<byte>, tail: seq<byte>)
    requires |text| < 0x1_0000_0000
    ensures Decode(EncodeText(text) + tail) == Ok(Typed(Str(text)), tail)
  {
    hide Put2;
    hide Put4;
    hide Get2;
    hide Get4;
    hide Decode;
    if |text| > 0xffff {
      LongTextReads(Put4(|text|), text, tail);
    } else {
      ShortTextReads(Put2(|text|), text, tail);
    }
  }

  lemma NumberReads(bits: nat, tail: seq<byte>)
    requires bits < 0x1_0000_0000_0000_0000
    ensures Decode([NUMBER] + Put8(bits) + tail) == Ok(Number(bits), tail)
  {
    hide Put8;
    hide Get8;
    hide Decode;
    var body := Put8(bits);
    assert [NUMBER] + body + tail == [NUMBER] + (body + tail);
    assert (body + tail)[..8] == body && (body + tail)[8..] == tail;
    DecodeSplits(NUMBER, body + tail);
  }

  lemma ScalarReads(v: Value, tail: seq<byte>)
    requires WellFormed(v)
    ensures Decode(EncodeScalar(v) + tail) == Ok(Typed(v), tail)
  {
    hide Decode;
    hide Put8;
    hide EncodeText;
    if v.Number? {
      NumberReads(v.bits, tail);
    } else if v.Str? || v.LongStr? {
      TextReads(v.text, tail);
    } else if v.Bool? {
      var flag: byte := if v.flag then 1 else 0;
      assert EncodeScalar(v) + tail == [BOOL] + ([flag] + tail);
      DecodeSplits(BOOL, [flag] + tail);
      assert ([flag] + tail)[1..] == tail;
    } else {
      DecodeSplits(EncodeScalar(v)[0], tail);
    }
  }

  predicate AllDistinct(keys: seq<seq<byte>>) {
    forall i, j :: 0 <= i < j < |keys| ==> keys[i] != keys[j]
  }

  /** An item of a command: a scalar, or a flat object whose keys come in some order. */
  datatype Item = Scalar(value: Value) | Flat(keys: seq<seq<byte>>, props: map<seq<byte>, Value>)

  predicate GoodProps(keys: seq<seq<byte>>, props: map<seq<byte>, Value>) {
    && AllDistinct(keys)
    && forall k <- keys :: k in props && WellFormed(props[k]) && 1 <= |k| <= 0xffff
  }

  predicate GoodItem(i: Item) {
    match i
    case Scalar(v) => WellFormed(v)
    case Flat(keys, props) => GoodProps(keys, props) && forall k <- props.Keys :: k in keys
  }

  function EncodeItem(i: Item): (r: seq<byte>)
    requires GoodItem(i)
    ensures r != []
  {
    match i
    case Scalar(v) => EncodeScalar(v)
    case Flat(keys, props) => EncodeObject(keys, props)
  }

  /** An object is followed by an item of unknown type: the end marker read as a value. */
  function ReadBack(i: Item): seq<Value>
    requires GoodItem(i)
  {
    match i
    case Scalar(v) => [Typed(v)]
    case Flat(_, props) => [Object(map k | k in props :: Typed(props[k])), Unknown]
  }

  function EncodeAll(items: seq<Item>): seq<byte>
    requires forall i <- items :: GoodItem(i)
  {
    if items == [] then [] else EncodeItem(items[0]) + EncodeAll(items[1..])
  }

  function ReadBackAll(items: seq<Item>): seq<Value>
    requires forall i <- items :: GoodItem(i)
  {
    if items == [] then [] else ReadBack(items[0]) + ReadBackAll(items[1..])
  }

  /** The properties added one by one in the order of the keys. */
  function AddAll(acc: map<seq<byte>, Value>, keys: seq<seq<byte>>, props: map<seq<byte>, Value>): map<seq<byte>, Value>
    requires forall k <- keys :: k in props && IsScalar(props[k])
    decreases |keys|
  {
    if keys == [] then acc
    else
      assert keys[0] in keys;
      AddAll(acc[keys[0] := Typed(props[keys[0]])], keys[1..], props)
  }

  lemma {:induction false} AddAllIsMap(acc: map<seq<byte>, Value>, keys: seq<seq<byte>>, props: map<seq<byte>, Value>)
    requires forall k <- keys :: k in props && IsScalar(props[k])
    ensures var r := AddAll(acc, keys, props);
            && r.Keys == acc.Keys + (set k | k in keys)
            && forall k <- r.Keys :: r[k] == if k in keys then Typed(props[k]) else acc[k]
    decreases |keys|
  {
    if keys == [] {
    } else {
      assert keys[0] in keys;
      assert keys == [keys[0]] + keys[1..];
      AddAllIsMap(acc[keys[0] := Typed(props[keys[0]])], keys[1..], props);
    }
  }

  /** One property in front of the rest of an object. */
  lemma PropReads(key: seq<byte>, v: Value, rest: seq<byte>, acc: map<seq<byte>, Value>)
    requires 1 <= |key| <= 0xffff && WellFormed(v) && key !in acc
    ensures DecodeObject(EncodeKey(key) + EncodeScalar(v) + rest, acc) == DecodeObject(rest, acc[key := Typed(v)])
  {
    hide Put2;
    hide Get2;
    hide Decode;
    hide EncodeScalar;
    var head, value := Put2(|key|), EncodeScalar(v) + rest;
    var d := EncodeKey(key) + EncodeScalar(v) + rest;
    assert d == head + key + value;
    Behind(head, key, value);
    TypeByteIsKnown(v);
    ScalarReads(v, rest);
  }

  lemma TypeByteIsKnown(v: Value)
    requires WellFormed(v)
    ensures EncodeScalar(v)[0] <= UNSUPPORTED
  {
    hide Put2;
    hide Put4;
    hide Put8;
  }

  lemma EndReads(tail: seq<byte>, acc: map<seq<byte>, Value>)
    ensures DecodeObject(EncodeKey([]) + [OBJECT_END] + tail, acc) == Ok(acc, [OBJECT_END] + tail)
  {
    hide Put2;
    hide Get2;
    var d, head := EncodeKey([]) + [OBJECT_END] + tail, Put2(0);
    assert d == head + ([OBJECT_END] + tail);
    assert d[..2] == head && d[2..] == [OBJECT_END] + tail;
  }

  lemma {:induction false} PropsRead(
    keys: seq<seq<byte>>, props: map<seq<byte>, Value>, tail: seq<byte>, acc: map<seq<byte>, Value>)
    requires GoodProps(keys, props) && forall k <- keys :: k !in acc
    ensures DecodeObject(EncodeProps(keys, props) + EncodeKey([]) + [OBJECT_END] + tail, acc)
         == Ok(AddAll(acc, keys, props), [OBJECT_END] + tail)
    decreases |keys|
  {
    hide EncodeKey;
    hide EncodeScalar;
    hide DecodeObject;
    var end := EncodeKey([]) + [OBJECT_END] + tail;
    if keys == [] {
      EndReads(tail, acc);
      assert EncodeProps(keys, props) + EncodeKey([]) + [OBJECT_END] + tail == end;
    } else {
      var key, more := keys[0], keys[1..];
      assert key in keys;
      var v, rest := props[key], EncodeProps(more, props) + EncodeKey([]) + [OBJECT_END] + tail;
      Regroup(EncodeKey(key) + EncodeScalar(v), EncodeProps(more, props), EncodeKey([]), [OBJECT_END], tail);
      PropReads(key, v, rest, acc);
      PropsRead(more, props, tail, acc[key := Typed(v)]);
    }
  }

  /** A flat object reads back as its properties, with the end marker still to come. */
  lemma ObjectReads(keys: seq<seq<byte>>, props: map<seq<byte>, Value>, tail: seq<byte>)
    requires GoodItem(Flat(keys, props))
    ensures Decode(EncodeObject(keys, props) + tail)
         == Ok(Object(map k | k in props :: Typed(props[k])), [0x09] + tail)
  {
    hide EncodeKey;
    hide DecodeObject;
    hide EncodeProps;
    hide Decode;
    AllAdded(keys, props);
    hide AddAll;
    hide GoodProps;
    var body := EncodeProps(keys, props) + EncodeKey([]) + [OBJECT_END] + tail;
    Regroup([OBJECT], EncodeProps(keys, props), EncodeKey([]), [OBJECT_END], tail);
    ObjectUnfolds(body);
    PropsRead(keys, props, tail, map[]);
  }

  lemma AllAdded(keys: seq<seq<byte>>, props: map<seq<byte>, Value>)
    requires GoodItem(Flat(keys, props))
    ensures GoodProps(keys, props)
    ensures forall k <- keys :: k in props && IsScalar(props[k])
    ensures AddAll(map[], keys, props) == map k | k in props :: Typed(props[k])
  {
    AddAllIsMap(map[], keys, props);
    hide AddAll;
    assert AddAll(map[], keys, props) == map k | k in props :: Typed(props[k]);
  }

  lemma Regroup(a: seq<byte>, b: seq<byte>, c: seq<byte>, d: seq<byte>, e: seq<byte>)
    ensures a + b + c + d + e == a + (b + c + d + e)
  {
  }

  lemma ObjectUnfolds(body: seq<byte>)
    ensures Decode([OBJECT] + body) == Wrap(DecodeObject(body, map[]), AsObject)
  {
    hide DecodeObject;
    hide Decode;
    DecodeSplits(OBJECT, body);
  }

  lemma EndMarkerReads(tail: seq<byte>)
    ensures Decode([0x09] + tail) == Bad(Unknown, tail)
  {
    hide Decode;
    DecodeSplits(OBJECT_END, tail);
  }

  /**
   * A list of scalars and flat objects is read back item by item in order, strings over 65535
   * bytes as long strings, with one unknown item behind every object.
   */
  lemma {:induction false} CommandRoundTrip(items: seq<Item>)
    requires forall i <- items :: GoodItem(i)
    ensures DecodeAll(EncodeAll(items)) == Items(ReadBackAll(items))
    decreases |items|
  {
    hide Decode;
    hide EncodeScalar;
    hide EncodeObject;
    hide GoodItem;
    if items == [] {
    } else {
      var i, tail := items[0], EncodeAll(items[1..]);
      assert i in items;
      CommandRoundTrip(items[1..]);
      FirstItem(i, tail);
    }
  }

  lemma FirstItem(i: Item, tail: seq<byte>)
    requires GoodItem(i) && DecodeAll(tail).Items?
    ensures DecodeAll(EncodeItem(i) + tail) == Items(ReadBack(i) + DecodeAll(tail).items)
  {
    hide Decode;
    hide EncodeScalar;
    hide EncodeObject;
    match i
    case Scalar(v) =>
      ScalarReads(v, tail);
      assert |EncodeItem(i) + tail| > |tail|;
    case Flat(keys, props) =>
      ObjectReads(keys, props, tail);
      EndMarkerReads(tail);
      assert |EncodeObject(keys, props)| >= 2;
  }

  /** Only a type byte beyond the known ones keeps the command loop from advancing. */
  lemma OnlyUnknownTypesStall(d: seq<byte>)
    requires d != [] && !Decode(d).Broken?
    ensures |Decode(d).rest| == |d| <==> d[0] > UNSUPPORTED
    ensures d[0] > UNSUPPORTED ==> DecodeAll(d) == Endless
  {
    hide DecodeBody;
  }

  /** What the loop has in front of it after n items. */
  predicate LeftAfter(d: seq<byte>, n: nat, rest: seq<byte>)
    decreases n
  {
    if n == 0 then rest == d
    else d != [] && !Decode(d).Broken? && LeftAfter(Decode(d).rest, n - 1, rest)
  }

  /** The command loop never ends exactly when some item it comes to starts with an unknown type byte. */
  lemma {:induction false} EndlessExactly(d: seq<byte>)
    ensures DecodeAll(d) == Endless <==>
            exists n: nat, rest :: LeftAfter(d, n, rest) && rest != [] && rest[0] > UNSUPPORTED
    decreases |d|
  {
    hide Decode;
    if DecodeAll(d) == Endless {
      OnlyUnknownTypesStall(d);
      if d[0] > UNSUPPORTED {
        assert LeftAfter(d, 0, d);
      } else {
        EndlessExactly(Decode(d).rest);
        var n: nat, rest :| LeftAfter(Decode(d).rest, n, rest) && rest != [] && rest[0] > UNSUPPORTED;
        assert LeftAfter(d, n + 1, rest);
      }
    }
    if n: nat, rest :| LeftAfter(d, n, rest) && rest != [] && rest[0] > UNSUPPORTED {
      StallsThere(d, n, rest);
    }
  }

  lemma {:induction false} StallsThere(d: seq<byte>, n: nat, rest: seq<byte>)
    requires LeftAfter(d, n, rest) && rest != [] && rest[0] > UNSUPPORTED
    ensures DecodeAll(d) == Endless
    decreases n
  {
    if n == 0 {
      DoesNotBreak(d);
      OnlyUnknownTypesStall(d);
    } else {
      hide Decode;
      StallsThere(Decode(d).rest, n - 1, rest);
    }
  }

  lemma DoesNotBreak(d: seq<byte>)
    requires d != [] && d[0] > UNSUPPORTED
    ensures !Decode(d).Broken?
  {
  }

  // ----- the bytes -----

  /** A scalar byte by byte: its type, and its value behind it. */
  lemma ScalarLayout(v: Value)
    requires IsScalar(v)
    ensures EncodeScalar(v)
         == match v
            case Number(bits) => [0x00] + Put8(bits)
            case Bool(flag) => if flag then [0x01, 0x01] else [0x01, 0x00]
            case Str(text) =>
              if |text| < 65536 then [0x02] + Put2(|text|) + text else [0x0c] + Put4(|text|) + text
            case LongStr(text) =>
              if |text| < 65536 then [0x02] + Put2(|text|) + text else [0x0c] + Put4(|text|) + text
            case Null => [0x05]
            case Undefined => [0x06]
            case _ => []
  {
  }

  /** An object: each key with its two-byte length in front of its value, then 00 00 09. */
  lemma ObjectLayout(keys: seq<seq<byte>>, props: map<seq<byte>, Value>)
    requires GoodProps(keys, props)
    ensures EncodeObject(keys, props) == [0x03] + EncodeProps(keys, props) + [0x00, 0x00, 0x09]
    ensures keys != [] ==>
      EncodeProps(keys, props) == Put2(|keys[0]|) + keys[0] + EncodeScalar(props[keys[0]]) + EncodeProps(keys[1..], props)
  {
    assert EncodeKey([]) == [0, 0] by { assert Put2(0) == [0, 0]; }
    hide Put2;
    hide Put4;
    hide EncodeScalar;
    assert keys != [] ==> keys[0] in keys;
  }

  /** A scalar that is cut short is not decoded. */
  lemma ScalarCutShort(v: Value, n: nat)
    requires WellFormed(v) && n < |EncodeScalar(v)|
    ensures Decode(EncodeScalar(v)[..n]).Broken?
  {
    hide Put8;
    hide DecodeObject;
    hide DecodeArray;
    var cut := EncodeScalar(v)[..n];
    if n > 0 {
      ScalarLayout(v);
      if v.Str? || v.LongStr? {
        TextCutShort(v.text, n);
      }
    }
  }

  lemma TextCutShort(text: seq<byte>, n: nat)
    requires |text| < 0x1_0000_0000 && 0 < n < |EncodeText(text)|
    ensures Decode(EncodeText(text)[..n]).Broken?
  {
    hide Put2;
    hide Put4;
    hide Get2;
    hide Get4;
    hide Decode;
    if |text| > 0xffff {
      CutBehind([LONG_STRING], Put4(|text|), text, n);
      DecodeLongString(EncodeText(text)[1..n]);
    } else {
      CutBehind([STRING], Put2(|text|), text, n);
      DecodeString(EncodeText(text)[1..n]);
    }
  }

  lemma CutBehind(t: seq<byte>, head: seq<byte>, text: seq<byte>, n: nat)
    requires |t| == 1 && 0 < n < |t + head + text|
    ensures var all := t + head + text;
            && all[..n] == t + all[1..n] && |all[1..n]| == n - 1
            && (n - 1 >= |head| ==> all[1..n][..|head|] == head && |all[1..n][|head|..]| < |text|)
  {
    var all := t + head + text;
    assert all == t + (head + text);
    assert all[..n] == t + all[1..n];
    assert n - 1 >= |head| ==> all[1..n][..|head|] == (head + text)[..|head|];
  }

  /** Types nobody here writes: movie clips and end marks are unknown, references break off. */
  lemma OtherTypes(t: byte, r: seq<byte>)
    ensures t == 0x04 || t == 0x09 ==> Decode([t] + r) == Bad(Unknown, r)
    ensures t == 0x07 ==> Decode([t] + r).Broken?
    ensures t == 0x0d ==> Decode([t] + r) == Ok(LongStr([]), r)
    ensures t > 0x0d ==> Decode([t] + r) == Bad(Unknown, [t] + r)
  {
    hide DecodeObject;
    hide DecodeArray;
    if t <= 0x0d {
      DecodeSplits(t, r);
    }
  }

  lemma AnyNonzeroIsTrue(b: byte, tail: seq<byte>)
    ensures Decode([0x01, b] + tail) == Ok(Bool(b != 0), tail)
  {
    hide Decode;
    assert [0x01, b] + tail == [0x01] + ([b] + tail);
    DecodeSplits(0x01, [b] + tail);
    assert ([b] + tail)[1..] == tail;
  }

  /** Of equal keys the first one stays. */
  lemma FirstKeyStays(key: seq<byte>, v: Value, rest: seq<byte>, acc: map<seq<byte>, Value>)
    requires 1 <= |key| <= 0xffff && WellFormed(v) && key in acc
    ensures DecodeObject(EncodeKey(key) + EncodeScalar(v) + rest, acc) == DecodeObject(rest, acc)
  {
    hide Put2;
    hide Get2;
    hide Decode;
    hide EncodeScalar;
    var head, value := Put2(|key|), EncodeScalar(v) + rest;
    assert EncodeKey(key) + EncodeScalar(v) + rest == head + key + value;
    Behind(head, key, value);
    TypeByteIsKnown(v);
    ScalarReads(v, rest);
  }

  /** An unknown type ends an object with an error, and an array without one. */
  lemma UnknownEndsObject(key: seq<byte>, t: byte, rest: seq<byte>, acc: map<seq<byte>, Value>)
    requires 1 <= |key| <= 0xffff && t > 0x0d
    ensures DecodeObject(EncodeKey(key) + ([t] + rest), acc) == Bad(acc, [t] + rest)
  {
    hide Put2;
    hide Get2;
    hide Decode;
    var head := Put2(|key|);
    assert EncodeKey(key) + ([t] + rest) == head + key + ([t] + rest);
    Behind(head, key, [t] + rest);
  }

  lemma {:induction false} UnknownEndsArray(items: seq<Value>, count: nat, t: byte, rest: seq<byte>, before: seq<Value>)
    requires |items| < count && t > 0x0d && forall v <- items :: IsScalar(v) && WellFormed(v)
    ensures DecodeArray(EncodeScalars(items) + ([t] + rest), count, before)
         == Ok(Array(before + TypedAll(items)), [t] + rest)
    decreases |items|
  {
    hide EncodeScalar;
    if items == [] {
      OtherTypes(t, rest);
      assert EncodeScalars(items) + ([t] + rest) == [t] + rest && before + TypedAll(items) == before;
    } else {
      var v, later := items[0], EncodeScalars(items[1..]) + ([t] + rest);
      assert v in items;
      assert EncodeScalars(items) + ([t] + rest) == EncodeScalar(v) + later;
      ScalarReads(v, later);
      hide Decode;
      UnknownEndsArray(items[1..], count - 1, t, rest, before + [Typed(v)]);
      assert before + [Typed(v)] + TypedAll(items[1..]) == before + TypedAll(items);
    }
  }

  // ----- values only other peers write -----

  function EncodeScalars(items: seq<Value>): seq<byte>
    requires forall v <- items :: IsScalar(v)
  {
    if items == [] then [] else EncodeScalar(items[0]) + EncodeScalars(items[1..])
  }

  function TypedAll(items: seq<Value>): seq<Value>
    requires forall v <- items :: IsScalar(v)
  {
    if items == [] then [] else [Typed(items[0])] + TypedAll(items[1..])
  }

  lemma {:induction false} ElementsRead(items: seq<Value>, tail: seq<byte>, before: seq<Value>)
    requires forall v <- items :: IsScalar(v) && WellFormed(v)
    ensures DecodeArray(EncodeScalars(items) + tail, |items|, before) == Ok(Array(before + TypedAll(items)), tail)
    decreases |items|
  {
    hide Decode;
    hide EncodeScalar;
    if items == [] {
      assert EncodeScalars(items) + tail == tail && before + TypedAll(items) == before;
    } else {
      var v, rest := items[0], EncodeScalars(items[1..]) + tail;
      assert v in items;
      assert EncodeScalars(items) + tail == EncodeScalar(v) + rest;
      ScalarReads(v, rest);
      ElementsRead(items[1..], tail, before + [Typed(v)]);
      assert before + [Typed(v)] + TypedAll(items[1..]) == before + TypedAll(items);
    }
  }

  /** A strict array of scalars decodes to its elements in order. */
  lemma ArrayReads(items: seq<Value>, tail: seq<byte>)
    requires |items| < 0x1_0000_0000 && forall v <- items :: IsScalar(v) && WellFormed(v)
    ensures Decode([0x0a] + Put4(|items|) + EncodeScalars(items) + tail) == Ok(Array(TypedAll(items)), tail)
  {
    hide Put4;
    hide Get4;
    hide Decode;
    hide DecodeArray;
    hide DecodeObject;
    var count, body := Put4(|items|), EncodeScalars(items) + tail;
    assert [ARRAY] + count + EncodeScalars(items) + tail == [ARRAY] + (count + body);
    assert (count + body)[..4] == count && (count + body)[4..] == body;
    DecodeSplits(ARRAY, count + body);
    ElementsRead(items, tail, []);
    assert [] + TypedAll(items) == TypedAll(items);
  }

  /** An ECMA array decodes as an object; its count is skipped. */
  lemma MixedArrayReads(count: nat, keys: seq<seq<byte>>, props: map<seq<byte>, Value>, tail: seq<byte>)
    requires GoodItem(Flat(keys, props))
    ensures GoodProps(keys, props)
    ensures Decode([0x08] + Put4(count) + EncodeProps(keys, props) + EncodeKey([]) + [0x09] + tail)
         == Ok(Object(map k | k in props :: Typed(props[k])), [0x09] + tail)
  {
    hide Put4;
    hide EncodeKey;
    hide EncodeProps;
    hide Decode;
    hide DecodeObject;
    AllAdded(keys, props);
    hide AddAll;
    hide GoodProps;
    var body := EncodeProps(keys, props) + EncodeKey([]) + [OBJECT_END] + tail;
    MixedArrayUnfolds(Put4(count), body);
    RegroupMixed([MIXED_ARRAY], Put4(count), EncodeProps(keys, props), EncodeKey([]), [OBJECT_END], tail);
    PropsRead(keys, props, tail, map[]);
  }

  lemma RegroupMixed(t: seq<byte>, a: seq<byte>, b: seq<byte>, c: seq<byte>, d: seq<byte>, e: seq<byte>)
    ensures t + a + b + c + d + e == t + (a + (b + c + d + e))
  {
  }

  lemma MixedArrayUnfolds(size: seq<byte>, body: seq<byte>)
    requires |size| == 4
    ensures Decode([MIXED_ARRAY] + (size + body)) == Wrap(DecodeObject(body, map[]), AsObject)
  {
    hide DecodeObject;
    hide DecodeArray;
    hide Decode;
    assert (size + body)[4..] == body;
    DecodeSplits(MIXED_ARRAY, size + body);
  }

  /** A date is its 64 bits; the time zone behind it is skipped. */
  lemma DateReads(bits: nat, zone: seq<byte>, tail: seq<byte>)
    requires bits < 0x1_0000_0000_0000_0000 && |zone| == 2
    ensures Decode([0x0b] + Put8(bits) + zone + tail) == Ok(Date(bits), tail)
  {
    hide Put8;
    hide Get8;
    hide Decode;
    hide DecodeArray;
    hide DecodeObject;
    var body := Put8(bits);
    assert [DATE] + body + zone + tail == [DATE] + (body + zone + tail);
    assert (body + zone + tail)[..8] == body;
    assert (body + zone + tail)[10..] == tail;
    DecodeSplits(DATE, body + zone + tail);
  }
}
