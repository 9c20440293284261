/** The static methods of AMF_Encoder and AMF_Decoder, and the loop that reads a command. */
module AmfCodec {
  import opened Bytes
  import opened Amf0
  import DataBuffer

  // ----- AMF_Decoder -----

  method DecodeItem(data: seq<byte>) returns (o: Outcome<Value>)
    ensures o == Decode(data)
    decreases |data|, 0
  {
    hide DecodeBody;
    if data == [] {
      return Broken;
    }
    if data[0] > UNSUPPORTED {
      return Bad(Unknown, data);
    }
    o := DecodeValue(data[0], data[1..]);
  }

  method DecodeValue(t: byte, r: seq<byte>) returns (o: Outcome<Value>)
    ensures o == DecodeBody(t, r)
    decreases |r|, 2
  {
    hide DecodeObject;
    hide DecodeArray;
    hide Get2;
    hide Get4;
    hide Get8;
    if t == NUMBER {
      o := if |r| < 8 then Broken else Ok(Number(Get8(r[..8])), r[8..]);
    } else if t == BOOL {
      o := if r == [] then Broken else Ok(Bool(r[0] != 0), r[1..]);
    } else if t == STRING {
      o := if |r| < 2 then Broken else DecodeText(r[2..], Get2(r[..2]), false);
    } else if t == OBJECT {
      var props := DecodeAmfObject(r);
      o := Wrap(props, AsObject);
    } else if t == NULL {
      o := Ok(Null, r);
    } else if t == UNDEFINED {
      o := Ok(Undefined, r);
    } else if t == REFERENCE {
      o := Broken;
    } else if t == MIXED_ARRAY {
      if |r| < 4 {
        return Broken;
      }
      var props := DecodeAmfObject(r[4..]);
      o := Wrap(props, AsObject);
    } else if t == ARRAY {
      if |r| < 4 {
        return Broken;
      }
      o := DecodeAmfArray(r[4..], Get4(r[..4]));
    } else if t == DATE {
      o := if |r| < 8 then Broken else Ok(Date(Get8(r[..8])), if |r| < 10 then [] else r[10..]);
    } else if t == LONG_STRING {
      o := if |r| < 4 then Broken else DecodeText(r[4..], Get4(r[..4]), true);
    } else if t == UNSUPPORTED {
      o := Ok(LongStr([]), r);
    } else {
      o := Bad(Unknown, r);
    }
  }

  method DecodeAmfObject(data: seq<byte>) returns (o: Outcome<map<seq<byte>, Value>>)
    ensures o == DecodeObject(data, map[])
    decreases |data|, 1
  {
    hide Decode;
    hide Get2;
    var d, props := data, map[];
    while d != []
      invariant |d| <= |data| && DecodeObject(data, map[]) == DecodeObject(d, props)
      decreases |d|
    {
      if |d| < 2 {
        return Broken;
      }
      var len, r := Get2(d[..2]), d[2..];
      if len == 0 {
        return if r == [] || r[0] != OBJECT_END then Broken else Ok(props, r);
      }
      if |r| <= len {
        return Broken;
      }
      var key := r[..len];
      if r[len] > UNSUPPORTED {
        return Bad(props, r[len..]);
      }
      var item := DecodeItem(r[len..]);
      match item {
        case Ok(v, rest) =>
          if key !in props {
            props := props[key := v];
          }
          d := rest;
        case Bad(_, rest) =>
          return Bad(props, rest);
        case Broken =>
          return Broken;
      }
    }
    o := Ok(props, d);
  }

  method DecodeAmfArray(data: seq<byte>, count: nat) returns (o: Outcome<Value>)
    ensures o == DecodeArray(data, count, [])
    decreases |data|, 1
  {
    hide Decode;
    var d, items := data, [];
    for index := 0 to count
      invariant |d| <= |data| && (index > 0 ==> |d| < |data|)
      invariant DecodeArray(data, count, []) == DecodeArray(d, count - index, items)
    {
      var item := DecodeItem(d);
      match item {
        case Ok(v, rest) =>
          items := items + [v];
          d := rest;
        case Bad(_, rest) =>
          return Ok(Array(items), rest);
        case Broken =>
          return Broken;
      }
    }
    o := Ok(Array(items), d);
  }

  /** The command loop; it gives up where the source would go round forever. */
  method DecodeCommand(data: seq<byte>) returns (c: Command)
    ensures c == DecodeAll(data)
  {
    hide Decode;
    var d, items := data, [];
    while d != []
      invariant DecodeAll(data) == Prepend(items, DecodeAll(d))
      decreases |d|
    {
      var item := DecodeItem(d);
      if item.Broken? {
        return Undecodable;
      }
      if |item.rest| == |d| {
        return Endless;
      }
      PrependOne(items, item.value, DecodeAll(item.rest));
      items := items + [item.value];
      d := item.rest;
    }
    c := Items(items);
  }

  function Prepend(items: seq<Value>, c: Command): Command {
    if c.Items? then Items(items + c.items) else c
  }

  lemma PrependOne(items: seq<Value>, v: Value, more: Command)
    ensures Prepend(items, if more.Items? then Items([v] + more.items) else more) == Prepend(items + [v], more)
  {
    if more.Items? {
      assert items + ([v] + more.items) == items + [v] + more.items;
    }
  }

  // ----- AMF_Encoder -----

  /** Storing bytes through the moving pointer. */
  method Store(data: array<byte>, p: nat, bytes: seq<byte>)
    requires p + |bytes| <= data.Length
    modifies data
    ensures data[..p + |bytes|] == old(data[..p]) + bytes
  {
    forall i | 0 <= i < |bytes| {
      data[p + i] := bytes[i];
    }
  }

  method EncodeNumber(bits: nat, buffer: DataBuffer.Buffer)
    requires buffer.Valid()
    modifies buffer, buffer.mem
    ensures buffer.Valid() && (buffer.mem == old(buffer.mem) || fresh(buffer.mem))
    ensures buffer.Contents() == old(buffer.Contents()) + EncodeScalar(Number(bits))
  {
    hide Put8;
    var data := new byte[1 + 8];
    data[0] := NUMBER;
    assert data[..1] == [NUMBER];
    Store(data, 1, Put8(bits));
    assert data[..] == data[..9];
    buffer.Append(data[..]);
  }

  method EncodeBool(flag: bool, buffer: DataBuffer.Buffer)
    requires buffer.Valid()
    modifies buffer, buffer.mem
    ensures buffer.Valid() && (buffer.mem == old(buffer.mem) || fresh(buffer.mem))
    ensures buffer.Contents() == old(buffer.Contents()) + EncodeScalar(Bool(flag))
  {
    var data := new byte[1 + 1];
    data[0] := BOOL;
    data[1] := if flag then 1 else 0;
    assert data[..] == EncodeScalar(Bool(flag));
    buffer.Append(data[..]);
  }

  method EncodeOnlyType(t: byte, buffer: DataBuffer.Buffer)
    requires buffer.Valid()
    modifies buffer, buffer.mem
    ensures buffer.Valid() && (buffer.mem == old(buffer.mem) || fresh(buffer.mem))
    ensures buffer.Contents() == old(buffer.Contents()) + [t]
  {
    var data := new byte[1];
    data[0] := t;
    assert data[..] == [t];
    buffer.Append(data[..]);
  }

  /** With skipMarker the type byte is left out: the form of a property's key. */
  method EncodeString(str: seq<byte>, skipMarker: bool, buffer: DataBuffer.Buffer)
    requires buffer.Valid()
    modifies buffer, buffer.mem
    ensures buffer.Valid() && (buffer.mem == old(buffer.mem) || fresh(buffer.mem))
    ensures buffer.Contents() == old(buffer.Contents()) + if skipMarker then EncodeKey(str) else EncodeText(str)
  {
    hide Put2;
    hide Put4;
    if |str| > 0xffff {
      EncodeSized(LONG_STRING, Put4(|str|), str, skipMarker, buffer);
    } else {
      EncodeSized(STRING, Put2(|str|), str, skipMarker, buffer);
    }
  }

  method EncodeSized(t: byte, size: seq<byte>, str: seq<byte>, skipMarker: bool, buffer: DataBuffer.Buffer)
    requires buffer.Valid()
    modifies buffer, buffer.mem
    ensures buffer.Valid() && (buffer.mem == old(buffer.mem) || fresh(buffer.mem))
    ensures buffer.Contents() == old(buffer.Contents()) + if skipMarker then size + str else [t] + size + str
  {
    var amfLen := |size| + |str|;
    if skipMarker {
      var data := new byte[amfLen];
      FillString(data, 0, size, str);
      assert data[..] == size + str;
      buffer.Append(data[..]);
    } else {
      var data := new byte[amfLen + 1];
      data[0] := t;
      assert data[..1] == [t];
      FillString(data, 1, size, str);
      buffer.Append(data[..]);
    }
  }

  method FillString(data: array<byte>, p: nat, size: seq<byte>, str: seq<byte>)
    requires data.Length == p + |size| + |str|
    modifies data
    ensures data[..] == old(data[..p]) + size + str
  {
    Store(data, p, size);
    Store(data, p + |size|, str);
    assert data[..] == data[..p + |size| + |str|];
  }

  /** The switch over a property's type: what has no case of its own writes nothing or fails. */
  method AppendValue(v: Value, buffer: DataBuffer.Buffer) returns (ret: int)
    requires buffer.Valid()
    modifies buffer, buffer.mem
    ensures buffer.Valid() && (buffer.mem == old(buffer.mem) || fresh(buffer.mem))
    ensures ret >= 0 <==> TryValue(v).ok
    ensures buffer.Contents() == old(buffer.Contents()) + TryValue(v).bytes
    ensures WellFormed(v) ==> Decode(buffer.Contents()[|old(buffer.Contents())|..]) == Ok(Typed(v), [])
  {
    hide EncodeText;
    hide Decode;
    ghost var before := buffer.Contents();
    ret := 0;
    match v {
      case Number(bits) => EncodeNumber(bits, buffer);
      case Bool(flag) => EncodeBool(flag, buffer);
      case Str(text) => EncodeString(text, false, buffer);
      case LongStr(text) => EncodeString(text, false, buffer);
      case Null => EncodeOnlyType(NULL, buffer);
      case Undefined => EncodeOnlyType(UNDEFINED, buffer);
      case Array(_) =>
      case Date(_) =>
      case Object(_) => ret := -1;
      case Unknown => ret := -1;
    }
    hide EncodeScalar;
    if WellFormed(v) {
      ScalarReads(v, []);
      assert EncodeScalar(v) + [] == EncodeScalar(v);
      assert buffer.Contents()[|before|..] == EncodeScalar(v);
    }
  }

  /** The object encoder; an error leaves in the buffer what was written so far. */
  method AppendObject(keys: seq<seq<byte>>, props: map<seq<byte>, Value>, buffer: DataBuffer.Buffer)
    returns (ret: int)
    requires (forall k <- keys :: k in props) && buffer.Valid()
    modifies buffer, buffer.mem
    ensures buffer.Valid() && (buffer.mem == old(buffer.mem) || fresh(buffer.mem))
    ensures ret >= 0 <==> TryObject(keys, props).ok
    ensures buffer.Contents() == old(buffer.Contents()) + TryObject(keys, props).bytes
  {
    hide EncodeKey;
    hide TryProps;
    ghost var before := buffer.Contents();
    buffer.Append([OBJECT]);
    ret := AppendProps(keys, props, buffer);
    Regrouped(before, [OBJECT], TryProps(keys, props).bytes, EncodeKey([]), [OBJECT_END]);
    if ret < 0 {
      return;
    }
    EncodeString([], true, buffer);
    buffer.Append([OBJECT_END]);
  }

  lemma Regrouped(a: seq<byte>, b: seq<byte>, c: seq<byte>, d: seq<byte>, e: seq<byte>)
    ensures a + b + c == a + (b + c + [])
    ensures a + b + c + d + e == a + (b + c + (d + e))
  {
  }

  method AppendProps(keys: seq<seq<byte>>, props: map<seq<byte>, Value>, buffer: DataBuffer.Buffer)
    returns (ret: int)
    requires (forall k <- keys :: k in props) && buffer.Valid()
    modifies buffer, buffer.mem
    ensures buffer.Valid() && (buffer.mem == old(buffer.mem) || fresh(buffer.mem))
    ensures ret >= 0 <==> TryProps(keys, props).ok
    ensures buffer.Contents() == old(buffer.Contents()) + TryProps(keys, props).bytes
  {
    hide EncodeKey;
    hide TryValue;
    hide Decode;
    ghost var before := buffer.Contents();
    assert keys[0..] == keys;
    for i := 0 to |keys|
      invariant buffer.Valid() && (buffer.mem == old(buffer.mem) || fresh(buffer.mem))
      invariant buffer.Contents() + TryProps(keys[i..], props).bytes == before + TryProps(keys, props).bytes
      invariant TryProps(keys[i..], props).ok == TryProps(keys, props).ok
    {
      ghost var now := buffer.Contents();
      assert keys[i..][0] == keys[i] && keys[i..][1..] == keys[i + 1..];
      EncodeString(keys[i], true, buffer);
      ret := AppendValue(props[keys[i]], buffer);
      if ret < 0 {
        assert now + (EncodeKey(keys[i]) + TryValue(props[keys[i]]).bytes) == buffer.Contents();
        return;
      }
      NextProp(now, EncodeKey(keys[i]), TryValue(props[keys[i]]).bytes, TryProps(keys[i + 1..], props).bytes);
    }
    assert keys[|keys|..] == [];
    ret := 0;
  }

  lemma NextProp(now: seq<byte>, key: seq<byte>, value: seq<byte>, rest: seq<byte>)
    ensures now + (key + value + rest) == now + key + value + rest
  {
  }
}
