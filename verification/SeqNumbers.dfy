/** RTP sequence numbers and their order (net/rtprtcp/rtprtcp_pub.hpp). */
module SeqNumbers {
  type Seq16 = x: int | 0 <= x < 0x1_0000

  const SEQ_MOD := 0x1_0000

  /** The 16 bits of an unwrapped number that travel in the packet. */
  function Low(num: int): Seq16 {
    num % SEQ_MOD
  }
  const SEQUENCE_MAX := 65535

  predicate Lower(a: Seq16, b: Seq16) {
    || (a > b && a - b > SEQUENCE_MAX / 2)
    || (a < b && b - a <= SEQUENCE_MAX / 2)
  }

  predicate Higher(a: Seq16, b: Seq16) {
    a != b && !Lower(a, b)
  }

  /** Of two different numbers exactly one is lower; away from the wrap it is the smaller one. */
  lemma LowerIsTotal(a: Seq16, b: Seq16)
    ensures a != b ==> (Lower(a, b) <==> !Lower(b, a))
    ensures Higher(a, b) <==> Lower(b, a)
    ensures -(SEQUENCE_MAX / 2) <= a - b <= SEQUENCE_MAX / 2 ==> (Lower(a, b) <==> a < b)
  {
  }

  /** Lower is behind on the ring, by less than half of it; of two opposite numbers the larger one is lower. */
  lemma LowerIsBehind(a: Seq16, b: Seq16)
    ensures Lower(a, b) <==>
            var d := (b as int - a as int) % 65536; 0 < d < 32768 || (d == 32768 && a > b)
  {
  }

  /** The first key at or behind k in the order of a std::map; SEQ_MOD stands for end(). */
  function FirstFrom(keys: set<Seq16>, k: nat): (r: nat)
    requires k <= SEQ_MOD
    ensures k <= r <= SEQ_MOD
    ensures r < SEQ_MOD ==> r in keys
    ensures forall j <- keys :: j < k || r <= j
    decreases SEQ_MOD - k
  {
    if k == SEQ_MOD || k in keys then k else FirstFrom(keys, k + 1)
  }
}
