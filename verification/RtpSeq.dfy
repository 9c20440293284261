/**
 * Extended sequence numbers (appendix A.1 of RFC 3550) as net/webrtc/rtp_recv_stream.cpp keeps
 * them: max_seq_ and cycles_ follow the highest number, bad_seq_ spots a restarted sender.
 */
module RtpSeq {
  import opened SeqNumbers

  const MAX_DROPOUT := 3000
  const MAX_MISORDER := 100
  const NO_BAD_SEQ := SEQ_MOD + 1

  /** cycles_ is 32 bits wide. */
  datatype State = State(base: Seq16, max: Seq16, bad: nat, cycles: nat, discarded: nat)

  function Init(sn: Seq16, discarded: nat): State {
    State(sn, sn, NO_BAD_SEQ, 0, discarded)
  }

  /** The distance from the highest number, as a 16-bit value. */
  function Delta(s: State, sn: Seq16): Seq16 {
    (sn - s.max) % SEQ_MOD
  }

  function Update(s: State, sn: Seq16): State {
    var udelta := Delta(s, sn);
    if udelta < MAX_DROPOUT then
      s.(max := sn, cycles := if sn < s.max then (s.cycles + SEQ_MOD) % 0x1_0000_0000 else s.cycles)
    else if udelta <= SEQ_MOD - MAX_MISORDER then
      if sn == s.bad then Init(sn, s.discarded)
      else s.(bad := (sn + 1) % SEQ_MOD, discarded := s.discarded + 1)
    else s
  }

  // ----- runs that stay in the window -----

  function Max(a: int, b: int): int {
    if a < b then b else a
  }

  /** The highest of the unwrapped numbers. */
  function Highest(nums: seq<int>): (r: int)
    requires nums != []
    ensures forall k <- nums :: k <= r
    ensures r in nums
  {
    assert nums == nums[..|nums| - 1] + [nums[|nums| - 1]];
    if |nums| == 1 then nums[0] else Max(Highest(nums[..|nums| - 1]), nums[|nums| - 1])
  }

  /** The stream after its packets, the first of which initialises it. */
  function Run(seqs: seq<Seq16>): State
    requires seqs != []
  {
    if |seqs| == 1 then Init(seqs[0], 0)
    else Update(Run(seqs[..|seqs| - 1]), seqs[|seqs| - 1])
  }

  function Lows(nums: seq<int>): (r: seq<Seq16>)
    ensures |r| == |nums|
  {
    seq(|nums|, i requires 0 <= i < |nums| => Low(nums[i]))
  }

  /** Every number lies strictly within -100 and +3000 of the highest before it. */
  predicate InWindow(nums: seq<int>) {
    && nums != [] && 0 <= nums[0] < SEQ_MOD
    && forall i :: 1 <= i < |nums| ==>
         -100 < nums[i] - Highest(nums[..i]) < 3000
  }

  /** The state that stands for the highest number m. */
  predicate Tracks(s: State, m: int) {
    m >= 0 && s.max == Low(m) && s.cycles == (m - Low(m)) % 0x1_0000_0000
  }

  lemma WindowStep(s: State, m: int, num: int)
    requires Tracks(s, m) && -MAX_MISORDER < num - m < MAX_DROPOUT
    ensures Tracks(Update(s, Low(num)), Max(m, num))
    ensures Update(s, Low(num)).discarded == s.discarded && Update(s, Low(num)).bad == s.bad
  {
    var d, sn := num - m, Low(num);
    hide Low;
    Congruent(m, num);
    if d < 0 {
      assert Delta(s, sn) == d + SEQ_MOD;
    } else {
      assert Delta(s, sn) == d;
      Wraps(m, d);
    }
  }

  lemma Congruent(m: int, num: int)
    ensures (Low(num) - Low(m)) % SEQ_MOD == (num - m) % SEQ_MOD
  {
    var q := num / SEQ_MOD - m / SEQ_MOD;
    assert Low(num) - Low(m) == num - m - SEQ_MOD * q;
  }

  /** A step of d wraps the low 16 bits exactly when they get smaller. */
  lemma Wraps(m: int, d: int)
    requires 0 <= m && 0 <= d < MAX_DROPOUT
    ensures Low(m + d) < Low(m) ==> m + d - Low(m + d) == m - Low(m) + SEQ_MOD
    ensures Low(m + d) >= Low(m) ==> m + d - Low(m + d) == m - Low(m)
  {
  }

  lemma OneMore(nums: seq<int>)
    requires |nums| > 1
    ensures var k := |nums| - 1;
            && Run(Lows(nums)) == Update(Run(Lows(nums[..k])), Low(nums[k]))
            && Highest(nums) == Max(Highest(nums[..k]), nums[k])
  {
    hide Update;
    hide Low;
    var k := |nums| - 1;
    assert Lows(nums)[..k] == Lows(nums[..k]);
  }

  lemma WindowPrefix(nums: seq<int>)
    requires InWindow(nums) && |nums| > 1
    ensures InWindow(nums[..|nums| - 1])
  {
    hide Highest;
    var front := nums[..|nums| - 1];
    assert forall i :: 0 <= i < |nums| ==> front[..i] == nums[..i];
  }

  /** A run in the window never discards, and its state stands for the highest number. */
  lemma {:induction false} WindowRun(nums: seq<int>)
    requires InWindow(nums)
    ensures Tracks(Run(Lows(nums)), Highest(nums)) && Run(Lows(nums)).discarded == 0
    decreases |nums|
  {
    hide Update;
    if |nums| == 1 {
      assert Run(Lows(nums)) == Init(Low(nums[0]), 0) && Highest(nums) == nums[0];
    } else {
      hide Tracks;
      hide Run;
      hide Highest;
      var k := |nums| - 1;
      WindowPrefix(nums);
      WindowRun(nums[..k]);
      OneMore(nums);
      WindowStep(Run(Lows(nums[..k])), Highest(nums[..k]), nums[k]);
    }
  }

  /** cycles_ plus max_seq_ is the highest unwrapped number received, while that fits 32 bits. */
  lemma ExtendedIsHighest(nums: seq<int>)
    requires InWindow(nums)
    ensures var s := Run(Lows(nums));
            && s.discarded == 0
            && s.cycles + s.max == Highest(nums) % 0x1_0000_0000
  {
    WindowRun(nums);
    Extended(Run(Lows(nums)), Highest(nums));
  }

  lemma Extended(s: State, m: int)
    requires Tracks(s, m)
    ensures s.cycles + s.max == m % 0x1_0000_0000
  {
    var high, n := m / SEQ_MOD, m / SEQ_MOD / SEQ_MOD;
    assert m == high * SEQ_MOD + s.max;
    assert high == n * SEQ_MOD + high % SEQ_MOD;
    assert m - s.max == 0x1_0000_0000 * n + high % SEQ_MOD * SEQ_MOD;
    assert s.cycles == high % SEQ_MOD * SEQ_MOD;
  }

  // ----- packets outside the window -----

  predicate Jumps(s: State, sn: Seq16) {
    3000 <= (sn as int - s.max as int) % 65536 <= 65536 - 100
  }

  datatype LastJump = None | Refused(sn: Seq16) | Resynced

  /** What became of the most recent packet outside the window. */
  function Previous(seqs: seq<Seq16>): LastJump
    requires seqs != []
  {
    if |seqs| == 1 then None
    else
      var front, sn := seqs[..|seqs| - 1], seqs[|seqs| - 1];
      if !Jumps(Run(front), sn) then Previous(front)
      else if Run(front).bad == sn then Resynced
      else Refused(sn)
  }

  lemma {:induction false} BadIsSuccessor(seqs: seq<Seq16>)
    requires seqs != []
    ensures Run(seqs).bad
         == match Previous(seqs)
            case Refused(q) => (q + 1) % SEQ_MOD
            case _ => 65537
    decreases |seqs|
  {
    if |seqs| == 1 {
      assert Previous(seqs) == None && Run(seqs).bad == NO_BAD_SEQ;
    } else {
      BadIsSuccessor(seqs[..|seqs| - 1]);
    }
  }

  /**
   * In every run, a packet outside the window moves the stream exactly when the previous packet
   * outside the window was refused and is its predecessor; otherwise it is discarded.
   */
  lemma ResyncNeedsPredecessor(seqs: seq<Seq16>, sn: Seq16)
    requires seqs != [] && Jumps(Run(seqs), sn)
    ensures var s, t := Run(seqs), Run(seqs + [sn]);
            var accepted := Previous(seqs).Refused? && sn == (Previous(seqs).sn + 1) % SEQ_MOD;
            && (accepted <==> (t.max, t.cycles) != (s.max, s.cycles))
            && (accepted ==> t.base == t.max == sn && t.cycles == 0 && t.discarded == s.discarded)
            && (!accepted ==> t.discarded == s.discarded + 1 && t.base == s.base)
  {
    BadIsSuccessor(seqs);
    assert (seqs + [sn])[..|seqs|] == seqs;
  }

  /** The fields of a receive stream and the methods that keep them. */
  class RecvStream {
    var baseSeq: Seq16
    var maxSeq: Seq16
    var badSeq: nat
    var cycles: nat
    var discardCount: nat
    var firstPkt: bool

    function Current(): State
      reads this
    {
      State(baseSeq, maxSeq, badSeq, cycles, discardCount)
    }

    constructor ()
      ensures firstPkt && discardCount == 0
    {
      baseSeq, maxSeq, badSeq, cycles, discardCount, firstPkt := 0, 0, NO_BAD_SEQ, 0, 0, true;
    }

    method InitSeq(sn: Seq16)
      modifies this
      ensures Current() == Init(sn, old(discardCount)) && firstPkt == old(firstPkt)
    {
      baseSeq := sn;
      maxSeq := sn;
      badSeq := NO_BAD_SEQ;
      cycles := 0;
    }

    method UpdateSeq(sn: Seq16)
      modifies this
      ensures Current() == Update(old(Current()), sn) && firstPkt == old(firstPkt)
    {
      var udelta := (sn - maxSeq) % SEQ_MOD;
      if udelta < MAX_DROPOUT {
        if sn < maxSeq {
          cycles := (cycles + SEQ_MOD) % 0x1_0000_0000;
        }
        maxSeq := sn;
      } else if udelta <= SEQ_MOD - MAX_MISORDER {
        if sn == badSeq {
          InitSeq(sn);
        } else {
          badSeq := (sn + 1) % SEQ_MOD;
          discardCount := discardCount + 1;
        }
      }
    }
  }
}
