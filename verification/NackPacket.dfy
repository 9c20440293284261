/** RTCP generic NACK messages (section 6.2.1 of RFC 4585) as net/rtprtcp/rtcpfb_nack.hpp packs them. */
module NackPacket {
  import opened Bytes
  import opened SeqNumbers

  const HEADER_SIZE := 12
  const BLOCK_SIZE := 4
  const MAX_SIZE := 1500

  // ----- 16-bit words as bits, the most significant first -----

  function ToBits(v: nat, n: nat): (r: seq<bool>)
    ensures |r| == n
  {
    if n == 0 then [] else ToBits(v / 2, n - 1) + [v % 2 == 1]
  }

  function FromBits(bits: seq<bool>): nat {
    if bits == [] then 0
    else 2 * FromBits(bits[..|bits| - 1]) + if bits[|bits| - 1] then 1 else 0
  }

  lemma {:induction false} BitsSurvive(bits: seq<bool>)
    ensures ToBits(FromBits(bits), |bits|) == bits
    decreases |bits|
  {
    if bits == [] {
    } else {
      BitsSurvive(bits[..|bits| - 1]);
    }
  }

  function Pow2(n: nat): (r: nat)
    ensures r > 0
  {
    if n == 0 then 1 else 2 * Pow2(n - 1)
  }

  lemma {:induction false} BitsFit(bits: seq<bool>)
    ensures FromBits(bits) < Pow2(|bits|)
    decreases |bits|
  {
    if bits == [] {
    } else {
      BitsFit(bits[..|bits| - 1]);
    }
  }

  lemma WordFits(bits: seq<bool>)
    requires |bits| == 16
    ensures FromBits(bits) < 0x1_0000
  {
    BitsFit(bits);
    assert Pow2(4) == 16;
    assert Pow2(8) == 16 * Pow2(4);
    assert Pow2(12) == 16 * Pow2(8);
    assert Pow2(16) == 16 * Pow2(12);
  }

  /** The bit at position d weighs 2 to the power of the positions behind it. */
  lemma {:induction false} SetBitAdds(bits: seq<bool>, d: nat)
    requires d < |bits| && !bits[d]
    ensures FromBits(bits[d := true]) == FromBits(bits) + Pow2(|bits| - 1 - d)
    decreases |bits|
  {
    var k := |bits| - 1;
    var more := bits[d := true];
    if d == k {
      assert more[..k] == bits[..k];
    } else {
      assert more[..k] == bits[..k][d := true];
      SetBitAdds(bits[..k], d);
    }
  }

  lemma {:induction false} NoBits(bits: seq<bool>)
    requires forall i :: 0 <= i < |bits| ==> !bits[i]
    ensures FromBits(bits) == 0
    decreases |bits|
  {
    if bits == [] {
      assert FromBits(bits) == 0;
    } else {
      NoBits(bits[..|bits| - 1]);
    }
  }

  // ----- one block -----

  /** How far a number lies behind the first of its report, without wrapping. */
  function Past(x: Seq16, base: Seq16): int {
    x as int - base as int
  }

  /** The shift in insert_block is defined: by 0 to 31 places. */
  predicate Defined(report: seq<Seq16>) {
    report != [] && forall i :: 1 <= i < |report| ==> -15 <= Past(report[i], report[0]) <= 16
  }

  predicate Increasing(report: seq<Seq16>) {
    forall i, j :: 0 <= i < j < |report| ==> report[i] < report[j]
  }

  /** A number d behind the base sets the bit of weight 2^(16-d); shifts by 16 and more leave the word. */
  function Bitmap(report: seq<Seq16>): (bits: seq<bool>)
    requires report != []
    ensures |bits| == 16
  {
    if |report| == 1 then seq(16, _ => false)
    else
      var bits, d := Bitmap(report[..|report| - 1]), Past(report[|report| - 1], report[0]);
      if 1 <= d <= 16 then bits[d - 1 := true] else bits
  }

  function BlockBytes(report: seq<Seq16>): (r: seq<byte>)
    requires report != []
    ensures |r| == BLOCK_SIZE
  {
    Put2(report[0]) + Put2(FromBits(Bitmap(report)))
  }

  /** The numbers among the first n behind the base whose bits are set. */
  function Behind(base: Seq16, bits: seq<bool>, n: nat): seq<Seq16>
    requires n <= |bits|
  {
    if n == 0 then []
    else Behind(base, bits, n - 1) + if bits[n - 1] then [(base + n) % SEQ_MOD] else []
  }

  function Lost(base: Seq16, mask: nat): seq<Seq16> {
    [base] + Behind(base, ToBits(mask, 16), 16)
  }

  lemma {:induction false} BehindSame(base: Seq16, a: seq<bool>, b: seq<bool>, n: nat)
    requires n <= |a| && n <= |b| && a[..n] == b[..n]
    ensures Behind(base, a, n) == Behind(base, b, n)
    decreases n
  {
    if n == 0 {
      assert Behind(base, a, 0) == [] == Behind(base, b, 0);
    } else {
      assert a[..n - 1] == a[..n][..n - 1] && b[..n - 1] == b[..n][..n - 1];
      assert a[n - 1] == a[..n][n - 1] && b[n - 1] == b[..n][n - 1];
      BehindSame(base, a, b, n - 1);
    }
  }

  lemma {:induction false} BehindClear(base: Seq16, bits: seq<bool>, m: nat, n: nat)
    requires m <= n <= |bits| && forall i :: m <= i < n ==> !bits[i]
    ensures Behind(base, bits, n) == Behind(base, bits, m)
    decreases n
  {
    if m == n {
      assert Behind(base, bits, n) == Behind(base, bits, m);
    } else {
      BehindClear(base, bits, m, n - 1);
    }
  }

  /** Only the numbers reported set bits, and all of those that lie 1 to 16 behind the base do. */
  lemma {:induction false} BitmapMeans(report: seq<Seq16>, d: nat)
    requires report != [] && 1 <= d <= 16
    ensures Bitmap(report)[d - 1] <==> exists i :: 1 <= i < |report| && Past(report[i], report[0]) == d
    decreases |report|
  {
    if |report| == 1 {
      assert !Bitmap(report)[d - 1];
    } else {
      var front, k := report[..|report| - 1], |report| - 1;
      BitmapMeans(front, d);
      if i :| 1 <= i < |report| && Past(report[i], report[0]) == d {
        assert i == k || front[i] == report[i];
      }
      if i :| 1 <= i < |front| && Past(front[i], front[0]) == d {
        assert Past(report[i], report[0]) == d;
      }
      if Past(report[k], report[0]) == d {
        assert Bitmap(report)[d - 1];
      }
    }
  }

  lemma DefinedFront(report: seq<Seq16>)
    requires Defined(report) && |report| > 1
    ensures Defined(report[..|report| - 1]) && -15 <= Past(report[|report| - 1], report[0]) <= 16
  {
    var front := report[..|report| - 1];
    assert forall i :: 1 <= i < |front| ==> Past(front[i], front[0]) == Past(report[i], report[0]);
  }

  lemma {:induction false} BehindMeans(base: Seq16, bits: seq<bool>, n: nat, x: Seq16)
    requires n <= |bits|
    ensures x in Behind(base, bits, n) <==> exists i :: 0 <= i < n && bits[i] && x == (base + i + 1) % 65536
    decreases n
  {
    if n == 0 {
      assert Behind(base, bits, 0) == [];
    } else {
      BehindMeans(base, bits, n - 1, x);
      if i :| 0 <= i < n && bits[i] && x == (base + i + 1) % 65536 {
        assert i == n - 1 || i < n - 1;
      }
    }
  }

  /** A block read back: its base, and for each bit i the number i + 1 behind it, around the wrap. */
  lemma LostMeans(base: Seq16, bits: seq<bool>, x: Seq16)
    requires |bits| == 16
    ensures x in Lost(base, FromBits(bits))
            <==> x == base || exists i :: 0 <= i < 16 && bits[i] && x == (base + i + 1) % 65536
  {
    hide Behind;
    BitsSurvive(bits);
    BehindMeans(base, bits, 16, x);
  }

  /** Setting a bit behind all the others adds one number at the end. */
  lemma SetNext(base: Seq16, was: seq<bool>, d: nat, x: Seq16)
    requires |was| == 16 && 1 <= d <= 16 && x == base + d && forall i :: d - 1 <= i < 16 ==> !was[i]
    ensures Behind(base, was[d - 1 := true], 16) == Behind(base, was, 16) + [x]
  {
    var bits := was[d - 1 := true];
    BehindClear(base, was, d - 1, 16);
    BehindSame(base, was, bits, d - 1);
    BehindClear(base, bits, d, 16);
  }

  lemma ClearFrom(front: seq<Seq16>, d: nat)
    requires front != [] && d >= 1 && forall i :: 1 <= i < |front| ==> Past(front[i], front[0]) < d
    ensures forall i :: d - 1 <= i < 16 ==> !Bitmap(front)[i]
  {
    hide Bitmap;
    forall i | d - 1 <= i < 16
      ensures !Bitmap(front)[i]
    {
      BitmapMeans(front, i + 1);
    }
  }

  lemma {:induction false} IncreasingSurvives(report: seq<Seq16>)
    requires Defined(report) && Increasing(report)
    ensures Behind(report[0], Bitmap(report), 16) == report[1..]
    decreases |report|
  {
    hide Behind;
    DefinedNonempty(report);
    if |report| == 1 {
      NothingBehind(report[0]);
      assert report == [report[0]];
    } else {
      var k := |report| - 1;
      var front, d := report[..k], Past(report[k], report[0]);
      DefinedFront(report);
      hide Defined;
      IncreasingSurvives(front);
      ClearFrom(front, d);
      SetNext(report[0], Bitmap(front), d, report[k]);
      assert report[1..] == front[1..] + [report[k]];
    }
  }

  lemma NothingBehind(base: Seq16)
    ensures Behind(base, Bitmap([base]), 16) == []
  {
    BehindClear(base, Bitmap([base]), 0, 16);
  }

  /** What is read back lies behind the base in increasing order, as long as no set bit wraps. */
  lemma {:induction false} BehindIncreases(base: Seq16, bits: seq<bool>, n: nat)
    requires n <= |bits| && forall i :: 0 <= i < n && bits[i] ==> base + i + 1 < SEQ_MOD
    ensures Increasing(Behind(base, bits, n)) && forall k <- Behind(base, bits, n) :: base < k <= base + n
    decreases n
  {
    if n == 0 {
      assert Behind(base, bits, 0) == [];
    } else {
      BehindIncreases(base, bits, n - 1);
      hide Increasing;
      if bits[n - 1] {
        SnocIncreases(Behind(base, bits, n - 1), base + n);
      }
    }
  }

  lemma SnocIncreases(front: seq<Seq16>, last: Seq16)
    requires Increasing(front) && forall k <- front :: k < last
    ensures Increasing(front + [last])
  {
    assert forall i :: 0 <= i < |front| ==> front[i] in front;
  }

  lemma ConsIncreases(base: Seq16, rest: seq<Seq16>)
    requires Increasing(rest) && forall k <- rest :: base < k
    ensures Increasing([base] + rest)
  {
    assert forall i :: 0 <= i < |rest| ==> rest[i] in rest;
  }

  lemma SurvivorsIncrease(report: seq<Seq16>)
    requires report != [] && [report[0]] + Behind(report[0], Bitmap(report), 16) == report
    ensures Increasing(report)
  {
    hide Behind;
    hide Bitmap;
    var base, bits := report[0], Bitmap(report);
    forall i | 0 <= i < 16 && bits[i]
      ensures base + i + 1 < SEQ_MOD
    {
      BitmapMeans(report, i + 1);
    }
    BehindIncreases(base, bits, 16);
    ConsIncreases(base, Behind(base, bits, 16));
  }

  /** A reported list comes back unchanged exactly when it is strictly increasing. */
  lemma BlockRoundTrip(report: seq<Seq16>)
    requires Defined(report)
    ensures Lost(report[0], FromBits(Bitmap(report))) == report <==> Increasing(report)
  {
    hide Behind;
    hide Bitmap;
    hide Defined;
    hide ToBits;
    hide FromBits;
    hide Increasing;
    assert report != [] by { DefinedNonempty(report); }
    BitsSurvive(Bitmap(report));
    if Increasing(report) {
      IncreasingSurvives(report);
      assert report == [report[0]] + report[1..];
    }
    if Lost(report[0], FromBits(Bitmap(report))) == report {
      SurvivorsIncrease(report);
    }
  }

  lemma DefinedNonempty(report: seq<Seq16>)
    requires Defined(report)
    ensures report != []
  {
  }

  // ----- whole messages -----

  /** insert_seq_list: the reports it hands to insert_block, with those pending. */
  function Reports(list: seq<Seq16>, pending: seq<Seq16>): seq<seq<Seq16>>
    decreases |list|
  {
    if list == [] then if pending == [] then [] else [pending]
    else
      var now := pending + [list[0]];
      if Past(now[|now| - 1], now[0]) > 16 then [now] + Reports(list[1..], []) else Reports(list[1..], now)
  }

  /** The code packs a list without an undefined shift exactly when the list is narrow, and then into one block. */
  lemma OnlyNarrowLists(list: seq<Seq16>)
    requires list != []
    ensures (forall r <- Reports(list, []) :: Defined(r)) <==> Defined(list)
    ensures Defined(list) ==> Reports(list, []) == [list]
  {
    assert [list[0]] + list[1..] == list;
    assert Reports(list, []) == Reports(list[1..], [list[0]]) by { assert [] + [list[0]] == [list[0]]; }
    FirstReport(list[1..], [list[0]]);
  }

  lemma {:induction false} FirstReport(list: seq<Seq16>, pending: seq<Seq16>)
    requires Defined(pending)
    ensures (forall r <- Reports(list, pending) :: Defined(r)) <==> Defined(pending + list)
    ensures Defined(pending + list) ==> Reports(list, pending) == [pending + list]
    decreases |list|
  {
    if list == [] {
      assert pending + list == pending;
    } else {
      var now := pending + [list[0]];
      assert pending + list == now + list[1..];
      assert (pending + list)[|pending|] == list[0];
      if Past(now[|now| - 1], now[0]) > 16 {
        assert !Defined(now) && now in Reports(list, pending);
      } else if Past(now[|now| - 1], now[0]) < -15 {
        Undefined(list[1..], now);
      } else {
        FirstReport(list[1..], now);
      }
    }
  }

  lemma {:induction false} Undefined(list: seq<Seq16>, pending: seq<Seq16>)
    requires pending != [] && !Defined(pending)
    ensures exists r <- Reports(list, pending) :: !Defined(r)
    ensures !Defined(pending + list)
    decreases |list|
  {
    var k :| 1 <= k < |pending| && !(-15 <= Past(pending[k], pending[0]) <= 16);
    assert (pending + list)[k] == pending[k];
    if list == [] {
      assert pending in Reports(list, pending);
    } else {
      var now := pending + [list[0]];
      assert now[k] == pending[k];
      if Past(now[|now| - 1], now[0]) > 16 {
        assert now in Reports(list, pending);
      } else {
        Undefined(list[1..], now);
      }
    }
  }

  /** The length field: before the first block it is wrong, a byte-order slip of the constructor on little-endian hosts. */
  function LengthField(blocks: nat): (r: seq<byte>)
    ensures |r| == 2
  {
    if blocks == 0 then [0xFF, 0x02] else Put2(2 + blocks)
  }

  predicate AllDefined(reports: seq<seq<Seq16>>) {
    forall r <- reports :: Defined(r)
  }

  function Blocks(reports: seq<seq<Seq16>>): (r: seq<byte>)
    requires AllDefined(reports)
    ensures |r| == BLOCK_SIZE * |reports|
  {
    if reports == [] then []
    else
      assert reports[|reports| - 1] in reports;
      Blocks(reports[..|reports| - 1]) + BlockBytes(reports[|reports| - 1])
  }

  /** Version 2, format 1, type 205. */
  function Message(sender: nat, media: nat, reports: seq<seq<Seq16>>): (r: seq<byte>)
    requires AllDefined(reports)
    ensures |r| == HEADER_SIZE + BLOCK_SIZE * |reports|
  {
    [0x81, 205] + LengthField(|reports|) + Put4(sender) + Put4(media) + Blocks(reports)
  }

  function Concat(reports: seq<seq<Seq16>>): seq<Seq16> {
    if reports == [] then [] else Concat(reports[..|reports| - 1]) + reports[|reports| - 1]
  }

  /** What get_lost_seqs makes of the first n blocks. */
  function LostIn(data: seq<byte>, n: nat): seq<Seq16>
    requires HEADER_SIZE + BLOCK_SIZE * n <= |data|
  {
    if n == 0 then []
    else
      var at := HEADER_SIZE + BLOCK_SIZE * (n - 1);
      LostIn(data, n - 1) + Lost(Get2(data[at..at + 2]), Get2(data[at + 2..at + 4]))
  }

  lemma LastLost(data: seq<byte>, n: nat)
    requires n > 0 && HEADER_SIZE + BLOCK_SIZE * n <= |data|
    ensures var at := HEADER_SIZE + BLOCK_SIZE * (n - 1);
            LostIn(data, n) == LostIn(data, n - 1) + Lost(Get2(data[at..at + 2]), Get2(data[at + 2..at + 4]))
  {
    hide Lost;
    hide Get2;
  }

  lemma SamePart(a: seq<byte>, b: seq<byte>, from: nat, to: nat)
    requires from <= to <= |a| && to <= |b| && forall i :: from <= i < to ==> a[i] == b[i]
    ensures a[from..to] == b[from..to]
  {
  }

  lemma SamePoints(a: seq<byte>, b: seq<byte>, from: nat, to: nat)
    requires from <= to <= |a| && to <= |b| && a[from..to] == b[from..to]
    ensures forall i :: from <= i < to ==> a[i] == b[i]
  {
    forall i | from <= i < to
      ensures a[i] == b[i]
    {
      assert a[i] == a[from..to][i - from] && b[i] == b[from..to][i - from];
    }
  }

  /** The header may change, and the bytes behind the blocks. */
  lemma {:induction false} SameBlocks(a: seq<byte>, b: seq<byte>, n: nat)
    requires HEADER_SIZE + BLOCK_SIZE * n <= |a| && HEADER_SIZE + BLOCK_SIZE * n <= |b|
    requires forall i :: HEADER_SIZE <= i < HEADER_SIZE + BLOCK_SIZE * n ==> a[i] == b[i]
    ensures LostIn(a, n) == LostIn(b, n)
    decreases n
  {
    if n == 0 {
      assert LostIn(a, 0) == [] == LostIn(b, 0);
    } else {
      hide LostIn;
      hide Lost;
      hide Get2;
      var at := HEADER_SIZE + BLOCK_SIZE * (n - 1);
      SamePart(a, b, at, at + 2);
      SamePart(a, b, at + 2, at + 4);
      LastLost(a, n);
      LastLost(b, n);
      SameBlocks(a, b, n - 1);
    }
  }

  lemma TwoWords(a: nat, b: nat)
    requires a < 0x1_0000 && b < 0x1_0000
    ensures var block := Put2(a) + Put2(b); Get2(block[..2]) == a && Get2(block[2..4]) == b
  {
    hide Put2;
    hide Get2;
    var first, second := Put2(a), Put2(b);
    assert (first + second)[..2] == first && (first + second)[2..4] == second;
  }

  lemma BlockReads(report: seq<Seq16>)
    requires Defined(report)
    ensures report != []
    ensures var b := BlockBytes(report);
            && Get2(b[..2]) == report[0] && Get2(b[2..4]) == FromBits(Bitmap(report))
  {
    hide Bitmap;
    hide FromBits;
    hide Put2;
    hide Get2;
    WordFits(Bitmap(report));
    TwoWords(report[0], FromBits(Bitmap(report)));
  }

  lemma LastBlock(sender: nat, media: nat, reports: seq<seq<Seq16>>)
    requires AllDefined(reports) && reports != []
    ensures var k := |reports| - 1;
            var at, m := HEADER_SIZE + BLOCK_SIZE * k, Message(sender, media, reports);
            && AllDefined(reports[..k]) && Defined(reports[k]) && reports[k] != []
            && m[HEADER_SIZE..at] == Message(sender, media, reports[..k])[HEADER_SIZE..at]
            && m[at..at + 4] == BlockBytes(reports[k])
  {
    hide BlockBytes;
    hide Message;
    var k := |reports| - 1;
    assert reports[k] in reports;
    BlocksAt(sender, media, reports);
    BlocksAt(sender, media, reports[..k]);
    var m, front, last := Message(sender, media, reports), Blocks(reports[..k]), BlockBytes(reports[k]);
    assert m[HEADER_SIZE..] == front + last;
    assert m[HEADER_SIZE..HEADER_SIZE + BLOCK_SIZE * k] == m[HEADER_SIZE..][..BLOCK_SIZE * k] == front;
    assert m[HEADER_SIZE + BLOCK_SIZE * k..] == m[HEADER_SIZE..][BLOCK_SIZE * k..] == last;
  }

  /** Reports packed block by block and read back: the numbers come out in order, unchanged. */
  lemma {:induction false} MessageRoundTrip(sender: nat, media: nat, reports: seq<seq<Seq16>>)
    requires AllDefined(reports) && forall r <- reports :: Increasing(r)
    ensures LostIn(Message(sender, media, reports), |reports|) == Concat(reports)
    decreases |reports|
  {
    hide Defined;
    hide Increasing;
    hide BlockBytes;
    hide Lost;
    hide Message;
    hide Bitmap;
    hide FromBits;
    hide Get2;
    if reports == [] {
      assert Concat(reports) == [];
    } else {
      var k := |reports| - 1;
      LastBlock(sender, media, reports);
      MessageRoundTrip(sender, media, reports[..k]);
      var was, now := Message(sender, media, reports[..k]), Message(sender, media, reports);
      var at, b := HEADER_SIZE + BLOCK_SIZE * k, BlockBytes(reports[k]);
      SamePoints(now, was, HEADER_SIZE, at);
      SameBlocks(now, was, k);
      LastLost(now, k + 1);
      assert now[at..at + 2] == now[at..at + 4][..2];
      assert now[at + 2..at + 4] == now[at..at + 4][2..4];
      assert reports[k] in reports;
      BlockReads(reports[k]);
      BlockRoundTrip(reports[k]);
    }
  }

  /** The header, byte by byte. */
  lemma HeaderLayout(sender: nat, media: nat, reports: seq<seq<Seq16>>)
    requires AllDefined(reports)
    ensures var m := Message(sender, media, reports);
            && m[0] == 0x81 && m[1] == 205 && m[4..8] == Put4(sender) && m[8..12] == Put4(media)
            && |m| == 12 + 4 * |reports|
  {
    hide Blocks;
    hide Put4;
    hide LengthField;
    var m := Message(sender, media, reports);
    assert m[4..8] == Put4(sender) && m[8..12] == Put4(media);
  }

  /** The same for a receive buffer, whatever lies behind the message. */
  lemma ReadsBack(sender: nat, media: nat, reports: seq<seq<Seq16>>, buffer: seq<byte>)
    requires AllDefined(reports) && forall r <- reports :: Increasing(r)
    requires Message(sender, media, reports) <= buffer
    ensures LostIn(buffer, |reports|) == Concat(reports)
  {
    hide Message;
    hide Defined;
    var m := Message(sender, media, reports);
    MessageRoundTrip(sender, media, reports);
    SameBlocks(m, buffer, |reports|);
  }

  lemma BlocksAt(sender: nat, media: nat, reports: seq<seq<Seq16>>)
    requires AllDefined(reports)
    ensures Message(sender, media, reports)[HEADER_SIZE..] == Blocks(reports)
  {
    hide Blocks;
    hide Put4;
  }

  /** The length field counts the words behind the first exactly when there is a block. */
  lemma LengthCountsWords(sender: nat, media: nat, reports: seq<seq<Seq16>>)
    requires AllDefined(reports) && HEADER_SIZE + BLOCK_SIZE * |reports| <= MAX_SIZE
    ensures var m := Message(sender, media, reports);
            4 * (Get2(m[2..4]) + 1) == |m| <==> reports != []
  {
    hide Blocks;
    hide Put4;
    hide Put2;
    var m, field := Message(sender, media, reports), LengthField(|reports|);
    assert m[2..4] == field;
  }

  // ----- the object -----

  class NackMessage {
    const data: array<byte>
    var dataLen: nat
    var nackBlocks: seq<nat>

    /** The blocks lie one behind the other, up to the one that reaches the end. */
    ghost predicate Valid()
      reads this`dataLen, this`nackBlocks
    {
      && data.Length == MAX_SIZE && HEADER_SIZE <= dataLen <= MAX_SIZE
      && dataLen <= HEADER_SIZE + BLOCK_SIZE * |nackBlocks| < dataLen + BLOCK_SIZE
      && forall i :: 0 <= i < |nackBlocks| ==> nackBlocks[i] == HEADER_SIZE + BLOCK_SIZE * i
    }

    /** These reports are the message. */
    ghost predicate IsMessage(sender: nat, media: nat, reports: seq<seq<Seq16>>)
      reads this`dataLen, this`nackBlocks, data
    {
      && Valid() && AllDefined(reports)
      && |nackBlocks| == |reports| && data[..dataLen] == Message(sender, media, reports)
    }

    constructor (sender: nat, media: nat)
      ensures fresh(data) && IsMessage(sender, media, [])
    {
      data := new byte[MAX_SIZE];
      dataLen := HEADER_SIZE;
      nackBlocks := [];
      new;
      var head := [0x81, 205] + LengthField(0) + Put4(sender) + Put4(media);
      forall i | 0 <= i < HEADER_SIZE {
        data[i] := head[i];
      }
      assert data[..HEADER_SIZE] == head;
    }

    method InsertBlock(ghost sender: nat, ghost media: nat, ghost reports: seq<seq<Seq16>>, report: seq<Seq16>)
      requires IsMessage(sender, media, reports) && Defined(report) && dataLen + BLOCK_SIZE <= MAX_SIZE
      modifies this, data
      ensures IsMessage(sender, media, reports + [report])
      ensures dataLen == old(dataLen) + BLOCK_SIZE
    {
      DefinedNonempty(report);
      hide Defined;
      hide Message;
      ghost var before := data[..dataLen];
      var bitmap := BuildBitmap(report);
      hide Bitmap;
      hide FromBits;
      hide Stored;
      var block := Put2(report[0]) + Put2(FromBits(bitmap));
      assert block == BlockBytes(report) by { hide Put2; }
      hide BlockBytes;
      assert |before| == HEADER_SIZE + BLOCK_SIZE * |nackBlocks|;
      StoreBlock(block);
      StoredWhole(before, data[..dataLen], block);
      Appended(sender, media, reports, report);
    }

    method StoreBlock(block: seq<byte>)
      requires Valid() && |block| == BLOCK_SIZE && dataLen + BLOCK_SIZE <= MAX_SIZE
      requires dataLen == HEADER_SIZE + BLOCK_SIZE * |nackBlocks|
      modifies this, data
      ensures Valid() && dataLen == old(dataLen) + BLOCK_SIZE && |nackBlocks| == |old(nackBlocks)| + 1
      ensures StoredAt(old(data[..dataLen]), data[..dataLen], block)
    {
      hide Put2;
      nackBlocks := nackBlocks + [dataLen];
      Write(dataLen, block);
      dataLen := dataLen + BLOCK_SIZE;
      Write(2, Put2(dataLen / 4 - 1));
    }

    method Write(at: nat, bytes: seq<byte>)
      requires at + |bytes| <= data.Length
      modifies data
      ensures forall i :: 0 <= i < data.Length ==>
        data[i] == if at <= i < at + |bytes| then bytes[i - at] else old(data[i])
    {
      forall i | 0 <= i < |bytes| {
        data[at + i] := bytes[i];
      }
    }

    method BuildBitmap(report: seq<Seq16>) returns (bits: seq<bool>)
      requires report != []
      ensures bits == Bitmap(report)
    {
      bits := seq(16, _ => false);
      for r := 1 to |report|
        invariant bits == Bitmap(report[..r])
      {
        var d := Past(report[r], report[0]);
        assert report[..r + 1][..r] == report[..r];
        if 1 <= d <= 16 {
          bits := bits[d - 1 := true];
        }
      }
      assert report[..|report|] == report;
    }

    /** A narrow list becomes one block. */
    method InsertSeqList(ghost sender: nat, ghost media: nat, ghost reports: seq<seq<Seq16>>, list: seq<Seq16>)
      requires IsMessage(sender, media, reports) && (list != [] ==> Defined(list)) && dataLen + BLOCK_SIZE <= MAX_SIZE
      modifies this, data
      ensures IsMessage(sender, media, reports + Reports(list, []))
    {
      var pending: seq<Seq16> := [];
      if list != [] {
        OnlyNarrowLists(list);
      } else {
        assert reports + [] == reports;
      }
      for index := 0 to |list|
        invariant pending == list[..index]
        invariant IsMessage(sender, media, reports) && dataLen == old(dataLen)
      {
        pending := pending + [list[index]];
        if Past(pending[|pending| - 1], pending[0]) > 16 {
          assert false;
        }
      }
      assert list[..|list|] == list;
      if pending != [] {
        InsertBlock(sender, media, reports, pending);
      }
    }

    static method Parse(input: array<byte>, len: nat) returns (pkt: NackMessage?)
      requires len <= input.Length && len <= MAX_SIZE
      ensures pkt == null <==> len <= HEADER_SIZE
      ensures pkt != null ==>
        && fresh(pkt) && fresh(pkt.data) && pkt.Valid()
        && pkt.dataLen == len && pkt.data[..len] == input[..len]
    {
      if len <= HEADER_SIZE {
        return null;
      }
      pkt := new NackMessage(0, 0);
      pkt.UpdateData(input, len);
    }

    method UpdateData(input: array<byte>, len: nat)
      requires Valid() && HEADER_SIZE < len <= input.Length && len <= MAX_SIZE && input != data && nackBlocks == []
      modifies this, data
      ensures Valid() && dataLen == len && data[..len] == input[..len]
    {
      forall i | 0 <= i < len {
        data[i] := input[i];
      }
      dataLen := len;
      var block := HEADER_SIZE;
      while block < dataLen
        invariant block == HEADER_SIZE + BLOCK_SIZE * |nackBlocks| < len + BLOCK_SIZE
        invariant forall i :: 0 <= i < |nackBlocks| ==> nackBlocks[i] == HEADER_SIZE + BLOCK_SIZE * i
        invariant dataLen == len && data[..len] == input[..len]
      {
        nackBlocks := nackBlocks + [block];
        block := block + BLOCK_SIZE;
      }
    }

    method GetLostSeqs() returns (seqs: seq<Seq16>)
      requires Valid()
      ensures HEADER_SIZE + BLOCK_SIZE * |nackBlocks| <= data.Length
      ensures seqs == LostIn(data[..], |nackBlocks|)
    {
      seqs := [];
      ghost var bytes := data[..];
      for n := 0 to |nackBlocks|
        invariant seqs == LostIn(bytes, n)
      {
        var at := nackBlocks[n];
        var base, mask := Get2(data[at..at + 2]), Get2(data[at + 2..at + 4]);
        var more := ReadBlock(base, mask);
        seqs := seqs + more;
      }
    }

    method ReadBlock(base: Seq16, mask: nat) returns (seqs: seq<Seq16>)
      ensures seqs == Lost(base, mask)
    {
      seqs := [base];
      var bits := ToBits(mask, 16);
      for i := 0 to 16
        invariant seqs == [base] + Behind(base, bits, i)
      {
        if bits[i] {
          seqs := seqs + [(base + i + 1) % SEQ_MOD];
        }
      }
    }
  }

  /** A block behind the bytes of a message, with the length counted again. */
  function Stored(before: seq<byte>, block: seq<byte>): seq<byte>
    requires |before| >= 4
  {
    before[..2] + Put2((|before| + |block|) / 4 - 1) + before[4..] + block
  }

  /** The same, byte by byte. */
  predicate StoredAt(before: seq<byte>, after: seq<byte>, block: seq<byte>) {
    && |before| >= 4 && |block| == BLOCK_SIZE && |after| == |before| + BLOCK_SIZE
    && (forall i :: 0 <= i < |before| && !(2 <= i < 4) ==> after[i] == before[i])
    && (var length := Put2(|after| / 4 - 1); after[2] == length[0] && after[3] == length[1])
    && (forall i :: 0 <= i < BLOCK_SIZE ==> after[|before| + i] == block[i])
  }

  lemma StoredWhole(before: seq<byte>, after: seq<byte>, block: seq<byte>)
    requires StoredAt(before, after, block)
    ensures after == Stored(before, block)
  {
    var length, stored := Put2(|after| / 4 - 1), Stored(before, block);
    hide Put2;
    assert length == Put2((|before| + |block|) / 4 - 1);
    forall i | 0 <= i < |after|
      ensures after[i] == stored[i]
    {
      if 2 <= i < 4 {
        assert stored[i] == length[i - 2];
      } else if i >= |before| {
        assert stored[i] == block[i - |before|] && after[|before| + (i - |before|)] == block[i - |before|];
      }
    }
  }

  lemma MoreBlocks(reports: seq<seq<Seq16>>, report: seq<Seq16>)
    requires AllDefined(reports) && Defined(report) && report != []
    ensures AllDefined(reports + [report]) && Blocks(reports + [report]) == Blocks(reports) + BlockBytes(report)
  {
    hide Defined;
    hide BlockBytes;
    assert (reports + [report])[..|reports|] == reports;
  }

  lemma Appended(sender: nat, media: nat, reports: seq<seq<Seq16>>, report: seq<Seq16>)
    requires AllDefined(reports) && Defined(report)
    ensures report != [] && AllDefined(reports + [report])
    ensures Stored(Message(sender, media, reports), BlockBytes(report)) == Message(sender, media, reports + [report])
  {
    DefinedNonempty(report);
    hide Defined;
    hide BlockBytes;
    hide Put4;
    hide Put2;
    var more := reports + [report];
    MoreBlocks(reports, report);
    hide Blocks;
    var length := Put2((|Message(sender, media, reports)| + 4) / 4 - 1);
    OneBlockMore(|reports|);
    assert length == LengthField(|more|);
    hide LengthField;
    Spliced(
      [0x81, 205], LengthField(|reports|), length, Put4(sender), Put4(media), Blocks(reports), BlockBytes(report));
  }

  lemma OneBlockMore(n: nat)
    ensures (HEADER_SIZE + BLOCK_SIZE * n + 4) / 4 - 1 == 2 + (n + 1)
  {
  }

  lemma Spliced(
    head: seq<byte>, was: seq<byte>, now: seq<byte>, a: seq<byte>, b: seq<byte>, blocks: seq<byte>, block: seq<byte>)
    requires |head| == 2 == |was|
    ensures var before := head + was + a + b + blocks;
            before[..2] + now + before[4..] + block == head + now + a + b + (blocks + block)
  {
    var before := head + was + a + b + blocks;
    assert before[..2] == head;
    assert before[4..] == a + b + blocks;
  }
}
