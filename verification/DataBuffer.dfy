/** The growable receive/send buffer of utils/data_buffer.cpp. */
module DataBuffer {
  import opened Bytes

  const EXTRA_LEN := 10 * 1024
  const PRE_RESERVE_HEADER_SIZE := 200

  /** What consume_data returns: a null pointer, or the new read position. */
  datatype Position = Null | At(start: nat)

  /** A block of n bytes at from and the one it is compacted into share a byte. */
  predicate Overlaps(from: nat, n: nat) {
    exists i: nat :: from <= i < from + n && InFront(i, n)
  }

  predicate InFront(i: nat, n: nat) {
    PRE_RESERVE_HEADER_SIZE <= i < PRE_RESERVE_HEADER_SIZE + n
  }

  /**
   * Compacting copies through a temporary block only when there are at least as many bytes as lie
   * in front of them. Otherwise memcpy gets overlapping blocks, which it does not define, exactly
   * when the contents start less than their length away from where they go.
   */
  lemma CompactOverlaps(from: nat, n: nat)
    requires n < from
    ensures Overlaps(from, n) <==> 0 < n && PRE_RESERVE_HEADER_SIZE - n < from < PRE_RESERVE_HEADER_SIZE + n
  {
    if 0 < n && PRE_RESERVE_HEADER_SIZE - n < from < PRE_RESERVE_HEADER_SIZE + n {
      var i := if from < PRE_RESERVE_HEADER_SIZE then PRE_RESERVE_HEADER_SIZE else from;
      assert from <= i < from + n && InFront(i, n);
    }
  }

  // ----- which appends compact, and where that overlaps -----

  /** The block size, and where in the block the contents lie. */
  datatype Shape = Shape(size: nat, start: nat, len: nat)

  datatype Op = Append(more: nat) | Consume(n: int) | Reset

  function New(size: nat): Shape {
    Shape(size, PRE_RESERVE_HEADER_SIZE, 0)
  }

  predicate Compacts(s: Shape, n: nat) {
    && s.start + s.len + n > s.size - PRE_RESERVE_HEADER_SIZE
    && n > 0 && s.len + n < s.size - PRE_RESERVE_HEADER_SIZE
  }

  function Next(s: Shape, op: Op): Shape {
    match op
    case Append(n) =>
      if n == 0 then s
      else if Compacts(s, n) then s.(start := PRE_RESERVE_HEADER_SIZE, len := s.len + n)
      else if s.start + s.len + n > s.size - PRE_RESERVE_HEADER_SIZE then
        Shape(s.len + n + EXTRA_LEN, PRE_RESERVE_HEADER_SIZE, s.len + n)
      else s.(len := s.len + n)
    case Consume(n) =>
      if n > s.len || s.start + n < 0 then s else s.(start := s.start + n, len := s.len - n)
    case Reset => New(s.size)
  }

  function ShapeAfter(s: Shape, ops: seq<Op>): Shape
    decreases |ops|
  {
    if ops == [] then s else ShapeAfter(Next(s, ops[0]), ops[1..])
  }

  /** This append has memcpy move the contents onto themselves. */
  predicate Tramples(s: Shape, n: nat) {
    Compacts(s, n) && s.len < s.start && s.start != PRE_RESERVE_HEADER_SIZE && Overlaps(s.start, s.len)
  }

  /** A buffer of 400 bytes gets there in three calls. */
  lemma TramplesSoon()
    ensures Tramples(ShapeAfter(New(400), [Append(50), Consume(10)]), 10)
  {
    var s := Next(Next(New(400), Append(50)), Consume(10));
    AfterTwo(New(400), Append(50), Consume(10), []);
    assert [Append(50), Consume(10)] + [] == [Append(50), Consume(10)];
    CompactOverlaps(s.start, s.len);
  }

  /** Buffers of every size do. */
  lemma TramplesEventually(size: nat) returns (ops: seq<Op>, n: nat)
    requires size >= PRE_RESERVE_HEADER_SIZE
    ensures Tramples(ShapeAfter(New(size), ops), n)
  {
    ops, n := [Append(size), Reset, Append(3), Consume(1)], size + EXTRA_LEN - 400;
    var s1 := Next(New(size), Append(size));
    var s2 := Next(s1, Reset);
    var s3 := Next(s2, Append(3));
    var s4 := Next(s3, Consume(1));
    AfterTwo(New(size), Append(size), Reset, [Append(3), Consume(1)]);
    AfterTwo(s2, Append(3), Consume(1), []);
    assert [Append(size), Reset] + [Append(3), Consume(1)] == ops;
    assert [Append(3), Consume(1)] + [] == [Append(3), Consume(1)];
    CompactOverlaps(s4.start, s4.len);
  }

  lemma AfterTwo(s: Shape, a: Op, b: Op, ops: seq<Op>)
    ensures ShapeAfter(s, [a, b] + ops) == ShapeAfter(Next(Next(s, a), b), ops)
  {
    assert ([a, b] + ops)[1..] == [b] + ops && ([b] + ops)[1..] == ops;
  }

  class Buffer {
    var mem: array<byte>
    var bufferSize: nat
    var start: int
    var end: int
    var dataLen: int

    ghost predicate Valid()
      reads this
    {
      && PRE_RESERVE_HEADER_SIZE <= bufferSize <= mem.Length
      && 0 <= start <= end <= mem.Length
      && end == start + dataLen
    }

    /** The visible bytes: a byte queue. */
    ghost function Contents(): (s: seq<byte>)
      requires Valid()
      reads this, mem
    {
      mem[start..end]
    }

    /** The bytes in front of the visible ones, which consume_data(-n) uncovers. */
    ghost function Headroom(): (s: seq<byte>)
      requires Valid()
      reads this, mem
    {
      mem[..start]
    }

    ghost function View(): Shape
      requires Valid()
      reads this
    {
      Shape(bufferSize, start, dataLen)
    }

    constructor (dataSize: nat)
      requires PRE_RESERVE_HEADER_SIZE <= dataSize
      ensures Valid() && fresh(mem)
      ensures Contents() == [] && View() == New(dataSize)
    {
      mem := new byte[dataSize + PRE_RESERVE_HEADER_SIZE](_ => 0);
      bufferSize := dataSize;
      start, end, dataLen := PRE_RESERVE_HEADER_SIZE, PRE_RESERVE_HEADER_SIZE, 0;
    }

    /**
     * append_data: in place when the tail has room, else into a new block, else after
     * moving the contents back to the reserved header size. Every copy is in bounds.
     */
    method Append(input: seq<byte>)
      requires Valid()
      modifies this, mem
      ensures Valid() && (mem == old(mem) || fresh(mem))
      ensures Contents() == old(Contents()) + input
      ensures View() == Next(old(View()), Op.Append(|input|))
    {
      var len := |input|;
      if len == 0 {
        return;
      }
      if end + len > bufferSize - PRE_RESERVE_HEADER_SIZE {
        if dataLen + len >= bufferSize - PRE_RESERVE_HEADER_SIZE {
          Grow(input);
        } else {
          Compact(input);
        }
        return;
      }
      Store(end, input);
      dataLen := dataLen + len;
      end := end + len;
    }

    /** memcpy into the block from outside it. */
    method Store(at: nat, input: seq<byte>)
      requires at + |input| <= mem.Length
      modifies mem
      ensures mem[..at] == old(mem[..at])
      ensures mem[at..at + |input|] == input
      ensures mem[at + |input|..] == old(mem[at + |input|..])
    {
      forall i | 0 <= i < |input| {
        mem[at + i] := input[i];
      }
    }

    method Grow(input: seq<byte>)
      requires Valid() && |input| > 0
      modifies this
      ensures Valid() && fresh(mem)
      ensures Contents() == old(Contents()) + input
      ensures View() == Shape(|old(Contents())| + |input| + EXTRA_LEN, PRE_RESERVE_HEADER_SIZE, |Contents()|)
    {
      var newLen := dataLen + |input| + EXTRA_LEN;
      var kept := mem[start..end];
      var newBuffer := new byte[newLen](_ => 0);
      mem, bufferSize := newBuffer, newLen;
      Store(PRE_RESERVE_HEADER_SIZE, kept);
      StoreBehind(dataLen, input);
      dataLen := dataLen + |input|;
      start := PRE_RESERVE_HEADER_SIZE;
      end := start + dataLen;
    }

    method Compact(input: seq<byte>)
      requires Valid() && |input| > 0
      requires Compacts(View(), |input|)
      modifies this, mem
      ensures Valid() && mem == old(mem)
      ensures Contents() == old(Contents()) + input
      ensures View() == Shape(old(bufferSize), PRE_RESERVE_HEADER_SIZE, |Contents()|)
    {
      MoveToFront();
      StoreBehind(dataLen, input);
      dataLen := dataLen + |input|;
      start := PRE_RESERVE_HEADER_SIZE;
      end := start + dataLen;
    }

    method MoveToFront()
      requires Valid() && PRE_RESERVE_HEADER_SIZE + dataLen <= mem.Length
      modifies mem
      ensures mem[PRE_RESERVE_HEADER_SIZE..PRE_RESERVE_HEADER_SIZE + dataLen] == old(Contents())
    {
      if dataLen >= start {
        var temp := mem[start..end];
        Store(PRE_RESERVE_HEADER_SIZE, temp);
      } else {
        Store(PRE_RESERVE_HEADER_SIZE, mem[start..end]);
      }
    }

    /** Input goes behind the n bytes that start at the reserved header size. */
    method StoreBehind(n: nat, input: seq<byte>)
      requires PRE_RESERVE_HEADER_SIZE + n + |input| <= mem.Length
      modifies mem
      ensures mem[PRE_RESERVE_HEADER_SIZE..PRE_RESERVE_HEADER_SIZE + n + |input|]
           == old(mem[PRE_RESERVE_HEADER_SIZE..PRE_RESERVE_HEADER_SIZE + n]) + input
    {
      var at := PRE_RESERVE_HEADER_SIZE + n;
      Store(at, input);
      assert mem[PRE_RESERVE_HEADER_SIZE..at] == mem[..at][PRE_RESERVE_HEADER_SIZE..];
    }

    /** consume_data: drops bytes, or with a negative count uncovers headroom bytes. */
    method Consume(n: int) returns (p: Position)
      requires Valid()
      modifies `start, `dataLen
      ensures Valid() && View() == Next(old(View()), Op.Consume(n))
      ensures p == if n > |old(Contents())| || old(start) + n < 0 then Null else At(old(start) + n)
      ensures p.Null? ==> Contents() == old(Contents()) && Headroom() == old(Headroom())
      ensures p.At? && n >= 0 ==> Contents() == old(Contents())[n..]
      ensures p.At? && n < 0 ==>
                && Contents() == old(Headroom())[|old(Headroom())| + n..] + old(Contents())
                && Headroom() == old(Headroom())[..|old(Headroom())| + n]
    {
      if n > dataLen {
        return Null;
      }
      if n < 0 {
        if start + n < 0 {
          return Null;
        }
      }
      start := start + n;
      dataLen := dataLen - n;
      return At(start);
    }

    method Reset()
      requires Valid()
      modifies `start, `end, `dataLen
      ensures Valid() && Contents() == [] && View() == Next(old(View()), Op.Reset)
    {
      start, end, dataLen := PRE_RESERVE_HEADER_SIZE, PRE_RESERVE_HEADER_SIZE, 0;
    }

    /** Writing through the pointer that data() or consume_data() returned. */
    method Overwrite(bytes: seq<byte>)
      requires Valid() && |bytes| <= |Contents()|
      modifies mem
      ensures Valid() && Contents() == bytes + old(Contents())[|bytes|..]
      ensures Headroom() == old(Headroom())
    {
      Store(start, bytes);
    }

    method Data() returns (s: seq<byte>)
      requires Valid()
      ensures s == Contents()
    {
      s := mem[start..end];
    }

    predicate Require(n: nat)
      requires Valid()
      reads this, mem
      ensures Require(n) <==> n <= |Contents()|
    {
      n <= dataLen
    }
  }
}
