/**
 * NTP time stamps (utils/timeex.hpp) and the round-trip time that
 * net/webrtc/rtp_send_stream.cpp takes from receiver reports (section 6.4.1 of RFC 3550).
 * Floating-point expressions are exact arithmetic here.
 */
module NtpTime {
  const UNIT := 0x1_0000_0000
  const HALF_WORD := 0x1_0000
  const RTT_DEFAULT := 30
  const RTT_LIMIT := 150

  /** The 65536 seconds after which the middle 32 bits of a time stamp repeat, in milliseconds. */
  const EPOCH := 65536 * 1000

  type Word = x: int | 0 <= x < 0x1_0000_0000
  datatype Ntp = Ntp(sec: Word, frac: Word)

  /** std::round of a number that is not negative. */
  function Round(x: real): (r: nat)
    requires x >= 0.0
  {
    (x + 0.5).Floor
  }

  function FracOf(ms: nat): (r: Word)
    requires ms < 1000
  {
    FracFits(ms);
    (ms as real / 1000.0 * 4294967296.0).Floor
  }

  lemma FracFits(ms: nat)
    requires ms < 1000
    ensures 0 <= (ms as real / 1000.0 * 4294967296.0).Floor < UNIT
  {
    assert 0.0 <= ms as real / 1000.0 * 4294967296.0 < 4294967296.0;
  }

  /** millisec_to_ntp. */
  function ToNtp(ms: nat): Ntp {
    Ntp(ms / 1000 % UNIT, FracOf(ms % 1000))
  }

  function FracMs(frac: Word): nat {
    Round(frac as real * 1000.0 / 4294967296.0)
  }

  /** ntp_to_millisec. */
  function ToMs(t: Ntp): nat {
    t.sec * 1000 + FracMs(t.frac)
  }

  /** The time stamp without its low 16 fraction bits. */
  function DropLow(t: Ntp): Ntp {
    t.(frac := t.frac - t.frac % HALF_WORD)
  }

  /** A fraction at most 16 bits and one unit short still rounds to its millisecond. */
  lemma FracRounds(ms: nat, frac: Word)
    requires ms < 1000
    requires ms * UNIT - 1000 - 1000 * HALF_WORD < frac * 1000 <= ms * UNIT
    ensures FracMs(frac) == ms
  {
    var x := frac as real * 1000.0 / 4294967296.0;
    assert frac as real * 1000.0 == (frac * 1000) as real;
    assert ms as real * 4294967296.0 == (ms * UNIT) as real;
    assert x * 4294967296.0 == frac as real * 1000.0;
    assert x <= ms as real;
    assert x > ms as real - 0.02;
  }

  lemma FracBounds(ms: nat)
    requires ms < 1000
    ensures ms * UNIT - 1000 < FracOf(ms) * 1000 <= ms * UNIT
  {
    var x := ms as real / 1000.0 * 4294967296.0;
    var f := x.Floor;
    assert f as real <= x < f as real + 1.0;
    assert x * 1000.0 == ms as real * 4294967296.0;
    assert (f * 1000) as real == f as real * 1000.0;
    assert (ms * UNIT) as real == ms as real * 4294967296.0;
  }

  lemma CutFracRounds(ms: nat)
    requires ms < 1000
    ensures FracMs(FracOf(ms) - FracOf(ms) % HALF_WORD) == ms
  {
    hide FracOf;
    hide FracMs;
    FracBounds(ms);
    FracRounds(ms, FracOf(ms) - FracOf(ms) % HALF_WORD);
  }

  /** Milliseconds to NTP and back is the identity, even without the low 16 fraction bits. */
  lemma RoundTrip(ms: nat)
    requires ms < 1000 * UNIT
    ensures ToMs(ToNtp(ms)) == ms && ToMs(DropLow(ToNtp(ms))) == ms
  {
    hide FracOf;
    hide FracMs;
    FracBounds(ms % 1000);
    FracRounds(ms % 1000, FracOf(ms % 1000));
    CutFracRounds(ms % 1000);
  }

  // ----- receiver reports -----

  /** The middle 32 bits of a time stamp, which a report is to echo. */
  function Middle(t: Ntp): Word {
    t.sec % HALF_WORD * HALF_WORD + t.frac / HALF_WORD
  }

  /** What rtp_recv_stream keeps of a sender report: the low half of the fraction. */
  function Kept(t: Ntp): Word {
    t.sec % HALF_WORD * HALF_WORD + t.frac % HALF_WORD
  }

  /** A time stamp is the time in units of 2^-32 seconds, rounded down. */
  lemma NtpIsFixedPoint(ms: nat)
    requires ms < 1000 * UNIT
    ensures ToNtp(ms).sec * 0x1_0000_0000 + ToNtp(ms).frac == ms * 0x1_0000_0000 / 1000
  {
    hide FracOf;
    var q, m := ms / 1000, ms % 1000;
    FracIs(m);
    assert ms * UNIT == 1000 * (q * UNIT) + m * UNIT;
    assert q % UNIT == q;
    Whole(q * UNIT, m * UNIT);
  }

  lemma Whole(q: nat, r: nat)
    ensures (1000 * q + r) / 1000 == q + r / 1000
  {
  }

  /** Its middle 32 bits are units of 2^-16 seconds, modulo 2^16 seconds. */
  lemma MiddleIsMiddle(t: Ntp)
    ensures Middle(t) == (t.sec * 0x1_0000_0000 + t.frac) / 0x1_0000 % 0x1_0000_0000
  {
    var high, low := t.sec / HALF_WORD, t.sec % HALF_WORD;
    assert t.sec * 0x1_0000_0000 + t.frac == 0x1_0000 * (t.sec * 0x1_0000 + t.frac / 0x1_0000) + t.frac % 0x1_0000;
    Halves(t.sec * 0x1_0000_0000 + t.frac, t.sec * 0x1_0000 + t.frac / 0x1_0000, t.frac % 0x1_0000);
    Words(t.sec * 0x1_0000 + t.frac / 0x1_0000, high, low * 0x1_0000 + t.frac / 0x1_0000);
  }

  lemma Halves(n: nat, q: nat, r: nat)
    requires n == 0x1_0000 * q + r && r < 0x1_0000
    ensures n / 0x1_0000 == q
  {
  }

  lemma Words(n: nat, q: nat, r: nat)
    requires n == 0x1_0000_0000 * q + r && r < 0x1_0000_0000
    ensures n % 0x1_0000_0000 == r
  {
  }

  /** The receiver echoes the middle bits exactly when both halves of the fraction agree. */
  lemma KeptIsMiddle(t: Ntp)
    ensures Kept(t) == Middle(t) <==> t.frac / HALF_WORD == t.frac % HALF_WORD
  {
  }

  function FromMiddle(lsr: Word): Ntp {
    Ntp(lsr / HALF_WORD, lsr % HALF_WORD * HALF_WORD)
  }

  /** dlsr * 1000 is computed in 32 bits. */
  function DlsrMs(dlsr: Word): nat {
    dlsr * 1000 % UNIT / HALF_WORD
  }

  function NowMs(now: nat): nat {
    var t := ToNtp(now);
    ToMs(Ntp(t.sec % HALF_WORD, t.frac - t.frac % HALF_WORD)) % UNIT
  }

  function Clamp(rtt: int): int {
    if rtt < 0 then 1 else if rtt > RTT_LIMIT then RTT_LIMIT else rtt
  }

  /** rtt_ after a report. */
  function Rtt(now: nat, lsr: Word, dlsr: Word): (r: int)
    ensures 0 <= r <= RTT_LIMIT
  {
    if lsr == 0 then RTT_DEFAULT else Clamp(NowMs(now) - ToMs(FromMiddle(lsr)) - DlsrMs(dlsr))
  }

  lemma MiddleOf(t: Ntp)
    ensures FromMiddle(Middle(t)) == Ntp(t.sec % HALF_WORD, t.frac - t.frac % HALF_WORD)
  {
    assert t.frac / HALF_WORD < HALF_WORD;
  }

  lemma SecondsInEpoch(ms: nat)
    requires ms < 1000 * UNIT
    ensures ms % EPOCH / 1000 == ms / 1000 % UNIT % HALF_WORD && ms % EPOCH % 1000 == ms % 1000
  {
    var n, r := ms / EPOCH, ms % EPOCH;
    assert ms == 1000 * (65536 * n) + r;
    assert ms / 1000 == 65536 * n + r / 1000;
    assert r / 1000 < 65536;
    assert ms / 1000 < UNIT;
  }

  /** A time stamp cut to its middle bits stands for the milliseconds since the epoch began. */
  lemma CutTime(ms: nat)
    requires ms < 1000 * UNIT
    ensures ToMs(FromMiddle(Middle(ToNtp(ms)))) == ms % EPOCH && NowMs(ms) == ms % EPOCH
  {
    hide FracOf;
    hide FracMs;
    hide FromMiddle;
    hide Middle;
    var t, r := ToNtp(ms), ms % EPOCH;
    assert t.frac == FracOf(ms % 1000) && t.sec == ms / 1000 % UNIT;
    hide ToNtp;
    MiddleOf(t);
    SecondsInEpoch(ms);
    CutFracRounds(ms % 1000);
    assert r == r / 1000 * 1000 + r % 1000;
  }

  /** The product in DlsrMs is exact up to 4294967 units and wraps beyond. */
  lemma DlsrFits(dlsr: Word)
    ensures DlsrMs(dlsr) == dlsr * 1000 / HALF_WORD <==> dlsr <= 4294967
  {
    if dlsr > 4294967 {
      assert dlsr * 1000 >= UNIT;
      assert dlsr * 1000 / HALF_WORD >= HALF_WORD;
      assert dlsr * 1000 % UNIT / HALF_WORD < HALF_WORD;
    }
  }

  /**
   * For an echoed, nonzero time stamp, rtt_ is the clamped difference of the times within their
   * epochs; so it is the true one when both lie in the same epoch and dlsr does not wrap.
   */
  lemma RttIsDifference(now: nat, sr: nat, dlsr: Word)
    requires now < 1000 * UNIT && sr < 1000 * UNIT && Middle(ToNtp(sr)) != 0
    ensures Rtt(now, Middle(ToNtp(sr)), dlsr) == Clamp(now % EPOCH - sr % EPOCH - DlsrMs(dlsr))
    ensures now / 65536000 == sr / 65536000 && dlsr <= 4294967 ==>
      var d := now - sr - dlsr * 1000 / 65536;
      Rtt(now, Middle(ToNtp(sr)), dlsr) == if d < 0 then 1 else if d > 150 then 150 else d
  {
    hide ToNtp;
    hide ToMs;
    hide Middle;
    hide FromMiddle;
    hide NowMs;
    hide DlsrMs;
    CutTime(now);
    CutTime(sr);
    DlsrFits(dlsr);
  }

  /**
   * A report yields the smallest value, whatever the true time, whenever the clock has got less far
   * in its epoch than it had when the sender report left: so it does less than an epoch later in
   * the next epoch.
   */
  lemma RttAcrossEpochs(now: nat, sr: nat, dlsr: Word)
    requires now < 1000 * UNIT && sr < 1000 * UNIT && Middle(ToNtp(sr)) != 0
    ensures now % EPOCH < sr % EPOCH ==> Rtt(now, Middle(ToNtp(sr)), dlsr) == 1
    ensures sr < now < sr + EPOCH && now / EPOCH != sr / EPOCH ==> Rtt(now, Middle(ToNtp(sr)), dlsr) == 1
  {
    hide ToNtp;
    hide Middle;
    hide Rtt;
    hide DlsrMs;
    RttIsDifference(now, sr, dlsr);
    if sr < now < sr + EPOCH && now / EPOCH != sr / EPOCH {
      NextEpoch(now, sr, now / EPOCH, sr / EPOCH);
    }
  }

  lemma NextEpoch(now: nat, sr: nat, k: nat, j: nat)
    requires k == now / EPOCH && j == sr / EPOCH && k != j && sr < now < sr + EPOCH
    ensures now % EPOCH - sr % EPOCH < 0
  {
    assert now == EPOCH * k + now % EPOCH;
    assert sr == EPOCH * j + sr % EPOCH;
  }

  // ----- what a receiver of this program echoes -----

  lemma FracMsIs(frac: Word)
    ensures FracMs(frac) == (frac * 1000 + UNIT / 2) / UNIT
  {
    var x := frac as real * 1000.0 / 4294967296.0 + 0.5;
    var m := x.Floor;
    assert frac as real * 1000.0 == (frac * 1000) as real;
    assert x * 4294967296.0 == (frac * 1000 + UNIT / 2) as real;
    assert m as real * 4294967296.0 == (m * UNIT) as real;
    assert m * UNIT <= frac * 1000 + UNIT / 2 < m * UNIT + UNIT;
  }

  lemma LowFracMs(low: Word)
    requires low < HALF_WORD
    ensures FracMs(low * HALF_WORD) == (low * 1000 + HALF_WORD / 2) / HALF_WORD
  {
    FracMsIs(low * HALF_WORD);
  }

  lemma FracIs(ms: nat)
    requires ms < 1000
    ensures FracOf(ms) == ms * UNIT / 1000
  {
    hide FracOf;
    FracBounds(ms);
  }

  /** The milliseconds that the low half of a fraction stands for when it is taken for the high one. */
  function LowMs(ms: nat): nat {
    (ms * UNIT / 1000 % HALF_WORD * 1000 + HALF_WORD / 2) / HALF_WORD
  }

  /** The two halves of a fraction stand for the same only at whole fifths of a second. */
  lemma LowIsHigh(ms: nat, hi: nat, lo: nat, r: nat)
    requires r < 1000 && ms * UNIT == 1000 * (hi * HALF_WORD + lo) + r
    requires (lo * 1000 + HALF_WORD / 2) / HALF_WORD == ms
    ensures ms % 200 == 0
  {
    var e := lo * 1000 - ms * HALF_WORD;
    assert -32768 <= e < 32768;
    assert e + r == HALF_WORD * (65535 * ms - 1000 * hi);
    assert 1000 * hi == 65535 * ms;
    assert ms == 200 * (43 * hi - 2818 * ms);
  }

  lemma HighIsLow(ms: nat, half: nat, r: nat)
    requires ms < 1000 && r < 1000 && ms * UNIT == 1000 * (half * HALF_WORD + half) + r
    ensures (half * 1000 + HALF_WORD / 2) / HALF_WORD == ms
  {
    var e := 1000 * half - HALF_WORD * ms;
    assert 65537 * e == 0 - r - HALF_WORD * ms;
    assert -1000 <= e <= 0;
    assert half * 1000 + HALF_WORD / 2 == HALF_WORD * ms + (e + HALF_WORD / 2);
  }

  lemma Thousands(n: nat, q: nat, r: nat)
    requires n == 1000 * q + r && r < 1000
    ensures n / 1000 == q
  {
  }

  lemma HalfWords(n: nat, q: nat, r: nat)
    requires n == HALF_WORD * q + r && r < HALF_WORD
    ensures n / HALF_WORD == q && n % HALF_WORD == r
  {
  }

  lemma FifthsAgree(ms: nat, k: nat)
    requires ms == 200 * k && k < 5
    ensures ms * UNIT / 1000 / HALF_WORD == ms * UNIT / 1000 % HALF_WORD && LowMs(ms) == ms
  {
    var half := 13107 * k;
    Thousands(ms * UNIT, half * HALF_WORD + half, 200 * k);
    HalfWords(half * HALF_WORD + half, half, half);
    HighIsLow(ms, half, 200 * k);
  }

  lemma Fifths(ms: nat)
    requires ms < 1000
    ensures LowMs(ms) == ms <==> ms % 200 == 0
    ensures ms * UNIT / 1000 / HALF_WORD == ms * UNIT / 1000 % HALF_WORD <==> ms % 200 == 0
  {
    var f, r := ms * UNIT / 1000, ms * UNIT % 1000;
    if ms % 200 == 0 {
      FifthsAgree(ms, ms / 200);
    }
    if LowMs(ms) == ms {
      LowIsHigh(ms, f / HALF_WORD, f % HALF_WORD, r);
    }
    if f / HALF_WORD == f % HALF_WORD {
      HighIsLow(ms, f % HALF_WORD, r);
    }
  }

  lemma KeptMs(t: Ntp)
    ensures ToMs(FromMiddle(Kept(t)))
         == t.sec % HALF_WORD * 1000 + (t.frac % HALF_WORD * 1000 + HALF_WORD / 2) / HALF_WORD
  {
    hide FracMs;
    var low := t.frac % HALF_WORD;
    LowFracMs(low);
    assert FromMiddle(Kept(t)) == Ntp(t.sec % HALF_WORD, low * HALF_WORD);
  }

  /** What the receiver echoes stands for the time of the report exactly at whole fifths of a second. */
  lemma KeptAtFifths(ms: nat)
    requires ms < 1000 * UNIT
    ensures ToMs(FromMiddle(Kept(ToNtp(ms)))) == ms % EPOCH - ms % 1000 + LowMs(ms % 1000)
    ensures LowMs(ms % 1000) == ms % 1000 <==> ms % 200 == 0
    ensures Kept(ToNtp(ms)) == Middle(ToNtp(ms)) <==> ms % 200 == 0
  {
    hide FracOf;
    hide FracMs;
    hide FromMiddle;
    hide Kept;
    hide Middle;
    hide ToMs;
    var t, m := ToNtp(ms), ms % 1000;
    FracIs(m);
    assert t.frac == m * UNIT / 1000 && t.sec == ms / 1000 % UNIT;
    hide ToNtp;
    KeptMs(t);
    KeptIsMiddle(t);
    assert LowMs(m) == (t.frac % HALF_WORD * 1000 + HALF_WORD / 2) / HALF_WORD;
    Fifths(m);
    hide LowMs;
    SecondsInEpoch(ms);
    FifthsOf(ms);
  }

  lemma FifthsOf(ms: nat)
    ensures ms % 1000 % 200 == ms % 200
  {
    var m := ms % 1000;
    SameRest(ms, 5 * (ms / 1000) + m / 200, m % 200);
  }

  lemma SameRest(n: nat, q: nat, r: nat)
    requires n == 200 * q + r && r < 200
    ensures n % 200 == r
  {
  }

  /** One millisecond into a second it does not. */
  lemma KeptIsNotMiddle()
    ensures Kept(ToNtp(1)) != Middle(ToNtp(1))
  {
    KeptAtFifths(1);
  }

  /**
   * Between two instances of this program the round-trip time is off by the difference of the
   * report's milliseconds and those its echo stands for, which is none at whole fifths of a second.
   */
  lemma RttOfKept(now: nat, sr: nat, dlsr: Word)
    requires now < 1000 * UNIT && sr < 1000 * UNIT
    ensures Rtt(now, Kept(ToNtp(sr)), dlsr)
         == if Kept(ToNtp(sr)) == 0 then 30
            else Clamp(now % EPOCH - sr % EPOCH - DlsrMs(dlsr) + (sr % 1000 - LowMs(sr % 1000)))
    ensures sr % 1000 - LowMs(sr % 1000) == 0 <==> sr % 200 == 0
  {
    hide ToNtp;
    hide ToMs;
    hide Kept;
    hide Middle;
    hide FromMiddle;
    hide NowMs;
    hide DlsrMs;
    hide LowMs;
    CutTime(now);
    KeptAtFifths(sr);
  }

  // ----- the object -----

  /** The average moves by a sixteenth of the difference, truncated towards zero. */
  function Smooth(avg: int, rtt: int): int {
    if avg == 0 then rtt
    else if rtt >= avg then avg + (rtt - avg) / 16
    else avg - (avg - rtt) / 16
  }

  /** It moves by a sixteenth of the difference, less the fraction: never past the sample. */
  lemma SmoothIsASixteenth(avg: int, rtt: int)
    requires avg != 0
    ensures avg <= rtt ==> 0 <= (rtt - avg) - 16 * (Smooth(avg, rtt) - avg) < 16
    ensures rtt <= avg ==> 0 <= (avg - rtt) - 16 * (avg - Smooth(avg, rtt)) < 16
  {
  }

  /** The average behind n equal samples. */
  function SmoothTimes(avg: int, rtt: int, n: nat): int {
    if n == 0 then avg else Smooth(SmoothTimes(avg, rtt, n - 1), rtt)
  }

  function Power(b: nat, n: nat): nat {
    if n == 0 then 1 else b * Power(b, n - 1)
  }

  /** How far the average is below the sample. */
  function Below(avg: int, rtt: int, n: nat): int {
    rtt - SmoothTimes(avg, rtt, n)
  }

  lemma {:induction false} StaysBelow(avg: int, rtt: int, n: nat)
    requires 0 < avg <= rtt
    ensures 0 < SmoothTimes(avg, rtt, n) <= rtt
  {
    if n == 0 {
      assert SmoothTimes(avg, rtt, 0) == avg;
    } else {
      StaysBelow(avg, rtt, n - 1);
    }
  }

  /**
   * Equal samples draw the average towards them by 15/16 of the distance each time, up to the
   * fractions cut off: (distance - 15) shrinks at least, and the distance at most, like (15/16)^n.
   */
  lemma {:induction false} SmoothConverges(avg: int, rtt: int, n: nat)
    requires 0 < avg <= rtt
    ensures Power(15, n) * (rtt - avg) <= Power(16, n) * Below(avg, rtt, n)
    ensures Power(16, n) * (Below(avg, rtt, n) - 15) <= Power(15, n) * (rtt - avg - 15)
  {
    if n == 0 {
      assert Power(15, 0) == 1 == Power(16, 0) && Below(avg, rtt, 0) == rtt - avg;
    } else {
      SmoothConverges(avg, rtt, n - 1);
      StaysBelow(avg, rtt, n - 1);
      var last := SmoothTimes(avg, rtt, n - 1);
      SmoothIsASixteenth(last, rtt);
      OneSample(Power(15, n - 1), Power(16, n - 1), rtt - avg, rtt - last, rtt - Smooth(last, rtt));
      Powers(n);
    }
  }

  lemma Powers(n: nat)
    requires n > 0
    ensures Power(15, n) == 15 * Power(15, n - 1) && Power(16, n) == 16 * Power(16, n - 1)
  {
  }

  lemma OneSample(p: nat, q: nat, start: int, d: int, next: int)
    requires p * start <= q * d && q * (d - 15) <= p * (start - 15)
    requires 0 <= 16 * next - 15 * d <= 15
    ensures 15 * p * start <= 16 * q * next && 16 * q * (next - 15) <= 15 * p * (start - 15)
  {
    var r := 16 * next - 15 * d;
    Scale(15, p, start);
    Scale(15, p, start - 15);
    Scale(16, q, next);
    Scale(16, q, next - 15);
    Spread(q, d, r);
    Spread(q, d - 15, r - 15);
    assert 16 * next == 15 * d + r && 16 * (next - 15) == 15 * (d - 15) + (r - 15);
    SameSign(q, r);
    SameSign(q, 15 - r);
    assert q * (r - 15) == -(q * (15 - r));
  }

  lemma Scale(k: nat, q: nat, x: int)
    ensures k * q * x == k * (q * x) == q * (k * x)
  {
  }

  lemma Spread(q: nat, d: int, r: int)
    ensures q * (15 * d + r) == 15 * (q * d) + q * r
  {
  }

  lemma SameSign(q: nat, r: int)
    requires r >= 0
    ensures q * r >= 0
  {
  }

  /** The average never leaves the span between its old value and the new sample. */
  lemma SmoothStaysBetween(avg: int, rtt: int)
    ensures avg != 0 && avg <= rtt ==> avg <= Smooth(avg, rtt) <= rtt
    ensures avg != 0 && rtt <= avg ==> rtt <= Smooth(avg, rtt) <= avg
    ensures 0 <= avg <= RTT_LIMIT && 0 <= rtt <= RTT_LIMIT ==> 0 <= Smooth(avg, rtt) <= RTT_LIMIT
  {
  }

  class SendStream {
    var rtt: int
    var avgRtt: int

    constructor ()
      ensures rtt == RTT_DEFAULT && avgRtt == 0
    {
      rtt, avgRtt := RTT_DEFAULT, 0;
    }

    /** now is the clock's value when the report is handled. */
    method HandleRtcpRr(now: nat, lsr: Word, dlsr: Word)
      requires 0 <= avgRtt <= RTT_LIMIT
      modifies this
      ensures rtt == Rtt(now, lsr, dlsr) && 0 <= avgRtt <= RTT_LIMIT
      ensures avgRtt == if lsr == 0 then old(avgRtt) else Smooth(old(avgRtt), rtt)
    {
      hide ToNtp;
      hide ToMs;
      if lsr == 0 {
        rtt := RTT_DEFAULT;
        return;
      }
      var lsrMs := ToMs(Ntp(lsr / HALF_WORD, lsr % HALF_WORD * HALF_WORD));
      var dlsrMs := dlsr * 1000 % UNIT / HALF_WORD;
      var nowNtp := ToNtp(now);
      var nowMs := ToMs(Ntp(nowNtp.sec % HALF_WORD, nowNtp.frac - nowNtp.frac % HALF_WORD)) % UNIT;
      rtt := nowMs - lsrMs - dlsrMs;
      if rtt < 0 {
        rtt := 1;
      }
      if rtt > RTT_LIMIT {
        rtt := RTT_LIMIT;
      }
      SmoothStaysBetween(avgRtt, rtt);
      if avgRtt == 0 {
        avgRtt := rtt;
      } else if rtt >= avgRtt {
        avgRtt := avgRtt + (rtt - avgRtt) / 16;
      } else {
        avgRtt := avgRtt - (avgRtt - rtt) / 16;
      }
    }
  }
}
