/** The retransmission buffer of net/webrtc/rtp_send_stream.cpp. */
module SendBuffer {
  import opened Bytes
  import opened SeqNumbers

  const VIDEO_MAX := 800
  const AUDIO_MAX := 100

  /** A packet cloned for the buffer; the id stands for its address. */
  datatype Clone = Clone(id: nat, data: seq<byte>)
  datatype Entry = Entry(lastSent: nat, sentCount: nat, packet: Clone)

  /** live: the clones that have been allocated and not deleted. */
  datatype State = State(packets: map<Seq16, Entry>, first: Seq16, live: set<nat>, nextId: nat)

  const Empty := State(map[], 0, {}, 0)

  function Ids(packets: map<Seq16, Entry>): set<nat> {
    set k | k in packets :: packets[k].packet.id
  }

  /** No entry shares its clone with another one. */
  predicate Distinct(packets: map<Seq16, Entry>) {
    forall j, k :: j in packets && k in packets && j != k ==> packets[j].packet.id != packets[k].packet.id
  }

  /** Every clone alive is the packet of exactly one entry. */
  predicate Owned(s: State) {
    && s.live == Ids(s.packets) && Distinct(s.packets)
    && forall k <- s.packets.Keys :: s.packets[k].packet.id < s.nextId
  }

  predicate Valid(s: State, limit: nat) {
    && |s.packets| <= limit && Owned(s)
    && (if s.packets == map[] then s.first == 0 else s.first in s.packets)
  }

  /** The entry behind first in the order of the map, or the front of the map. */
  function Successor(keys: set<Seq16>, first: Seq16): (r: Seq16)
    requires keys != {}
    ensures r in keys
  {
    var next := FirstFrom(keys, first + 1);
    if next < SEQ_MOD then next
    else
      assert forall k <- keys :: k <= first;
      FirstFrom(keys, 0)
  }

  /** The eviction loop. */
  function Evict(s: State, limit: nat): (r: State)
    requires limit > 0 && s.first in s.packets
    decreases |s.packets|
  {
    if |s.packets| <= limit then s
    else
      var rest := s.packets - {s.first};
      assert s.packets.Keys == rest.Keys + {s.first};
      Evict(s.(packets := rest,
               first := Successor(rest.Keys, s.first),
               live := s.live - {s.packets[s.first].packet.id}), limit)
  }

  /** The packet stored and the starting point chosen, before any eviction. */
  function Store(s: State, sn: Seq16, data: seq<byte>): State {
    var freed := if sn in s.packets then {s.packets[sn].packet.id} else {};
    State(
      s.packets[sn := Entry(0, 0, Clone(s.nextId, data))],
      if s.first == 0 then sn else s.first,
      s.live - freed + {s.nextId},
      s.nextId + 1)
  }

  function Save(s: State, sn: Seq16, data: seq<byte>, limit: nat): State
    requires limit > 0 && Valid(s, limit)
  {
    Evict(Store(s, sn, data), limit)
  }

  lemma StoreOwns(s: State, sn: Seq16, data: seq<byte>)
    requires Owned(s)
    ensures Owned(Store(s, sn, data))
  {
    var t := Store(s, sn, data);
    forall id: nat | id in t.live
      ensures id in Ids(t.packets)
    {
      if id == s.nextId {
        assert t.packets[sn].packet.id == id;
      } else {
        var k :| k in s.packets && s.packets[k].packet.id == id;
        assert t.packets[k].packet.id == id;
      }
    }
    assert t.live == Ids(t.packets);
  }

  lemma DropOwns(s: State, k: Seq16, next: Seq16)
    requires Owned(s) && k in s.packets
    ensures Owned(s.(packets := s.packets - {k}, first := next, live := s.live - {s.packets[k].packet.id}))
  {
    var rest := s.packets - {k};
    var live := s.live - {s.packets[k].packet.id};
    forall id: nat | id in live
      ensures id in Ids(rest)
    {
      var j :| j in s.packets && s.packets[j].packet.id == id;
      assert rest[j].packet.id == id;
    }
    assert live == Ids(rest);
  }

  lemma {:induction false} EvictValid(s: State, limit: nat)
    requires limit > 0 && s.first in s.packets && Owned(s)
    ensures Valid(Evict(s, limit), limit) && Evict(s, limit).packets != map[]
    decreases |s.packets|
  {
    hide Owned;
    if |s.packets| <= limit {
      assert Evict(s, limit) == s;
    } else {
      var rest := s.packets - {s.first};
      assert s.packets.Keys == rest.Keys + {s.first};
      assert |rest| == |s.packets| - 1;
      var next := Successor(rest.Keys, s.first);
      DropOwns(s, s.first, next);
      EvictValid(s.(packets := rest, first := next, live := s.live - {s.packets[s.first].packet.id}), limit);
    }
  }

  lemma {:induction false} EvictKeepsEntries(s: State, limit: nat)
    requires limit > 0 && s.first in s.packets && Owned(s)
    ensures forall k <- Evict(s, limit).packets :: k in s.packets && Evict(s, limit).packets[k] == s.packets[k]
    decreases |s.packets|
  {
    hide Owned;
    if |s.packets| <= limit {
      assert Evict(s, limit) == s;
    } else {
      var rest := s.packets - {s.first};
      assert s.packets.Keys == rest.Keys + {s.first};
      assert |rest| == |s.packets| - 1;
      var next := Successor(rest.Keys, s.first);
      DropOwns(s, s.first, next);
      EvictKeepsEntries(s.(packets := rest, first := next, live := s.live - {s.packets[s.first].packet.id}), limit);
    }
  }

  /** What is left behind a save: the new packet, also in place of one with its number, and old ones as they were. */
  lemma SaveReplaces(s: State, sn: Seq16, data: seq<byte>, limit: nat)
    requires limit > 0 && Valid(s, limit)
    ensures var t := Save(s, sn, data, limit);
            && (sn in t.packets ==> t.packets[sn] == Entry(0, 0, Clone(s.nextId, data)))
            && forall k <- t.packets :: k != sn ==> k in s.packets && t.packets[k] == s.packets[k]
  {
    hide Owned;
    StoreOwns(s, sn, data);
    EvictKeepsEntries(Store(s, sn, data), limit);
  }

  /** Whatever is saved, duplicates, wraps and number 0 included, the buffer stays within its limit and owns its clones. */
  lemma SaveKeepsValid(s: State, sn: Seq16, data: seq<byte>, limit: nat)
    requires limit > 0 && Valid(s, limit)
    ensures Valid(Save(s, sn, data, limit), limit) && Save(s, sn, data, limit).packets != map[]
  {
    hide Owned;
    StoreOwns(s, sn, data);
    EvictValid(Store(s, sn, data), limit);
  }

  // ----- runs -----

  /** A packet with its sequence number unwrapped. */
  datatype Sent = Sent(num: nat, data: seq<byte>)

  function Run(sent: seq<Sent>, limit: nat): (s: State)
    requires limit > 0
    ensures Valid(s, limit)
  {
    if sent == [] then Empty
    else
      var s, p := Run(sent[..|sent| - 1], limit), sent[|sent| - 1];
      SaveKeepsValid(s, Low(p.num), p.data, limit);
      Save(s, Low(p.num), p.data, limit)
  }

  /** The index of the oldest packet a buffer of that size should hold. */
  function Oldest(n: nat, limit: nat): nat {
    if n > limit then n - limit else 0
  }

  /** The buffer holds exactly the latest packets, and first is the oldest of them. */
  predicate Latest(s: State, sent: seq<Sent>, limit: nat)
    requires limit > 0
  {
    var n := |sent|;
    var from := Oldest(n, limit);
    && |s.packets| == n - from
    && (forall i :: from <= i < n ==>
          Low(sent[i].num) in s.packets && s.packets[Low(sent[i].num)].packet.data == sent[i].data)
    && (forall k <- s.packets.Keys :: exists i :: from <= i < n && Low(sent[i].num) == k)
    && s.first == if n == 0 then 0 else Low(sent[from].num)
  }

  /** Numbers grow, and no two that meet in the buffer are 2^16 or more apart. */
  predicate Growing(sent: seq<Sent>, limit: nat) {
    && (forall i, j :: 0 <= i < j < |sent| ==> sent[i].num < sent[j].num)
    && (forall i, j :: 0 <= i < j < |sent| && j - i <= limit ==> sent[j].num - sent[i].num < SEQ_MOD)
  }

  /** Numbers less than 2^16 apart keep their distance when cut to 16 bits. */
  lemma LowDistance(a: nat, b: nat)
    requires a < b < a + SEQ_MOD
    ensures Low(b) == if Low(a) + (b - a) < SEQ_MOD then Low(a) + (b - a) else Low(a) + (b - a) - SEQ_MOD
    ensures Low(a) != Low(b)
  {
  }

  /** These are the keys of the packets from index a on. */
  predicate KeysFrom(keys: set<Seq16>, sent: seq<Sent>, a: nat) {
    && (forall i :: a <= i < |sent| ==> Low(sent[i].num) in keys)
    && (forall k <- keys :: exists i :: a <= i < |sent| && Low(sent[i].num) == k)
  }

  /** Behind the oldest number, in the order of the map and around its end, comes the next oldest. */
  lemma NextOldest(keys: set<Seq16>, sent: seq<Sent>, a: nat, limit: nat)
    requires Growing(sent, limit) && a + 1 < |sent| && |sent| - 1 - a <= limit
    requires keys != {} && KeysFrom(keys, sent, a + 1)
    ensures Successor(keys, Low(sent[a].num)) == Low(sent[a + 1].num)
  {
    hide Low;
    var first, second := Low(sent[a].num), Low(sent[a + 1].num);
    LowDistance(sent[a].num, sent[a + 1].num);
    forall k | k in keys
      ensures first < second ==> k < first || second <= k
      ensures second < first ==> second <= k < first
    {
      var i :| a + 1 <= i < |sent| && Low(sent[i].num) == k;
      LowDistance(sent[a].num, sent[i].num);
      assert sent[a + 1].num <= sent[i].num;
    }
  }

  lemma NewKey(s: State, sent: seq<Sent>, p: Sent, limit: nat)
    requires limit > 0 && Latest(s, sent, limit) && Growing(sent + [p], limit)
    ensures Low(p.num) !in s.packets
  {
    hide Low;
    var all := sent + [p];
    forall i | Oldest(|sent|, limit) <= i < |sent|
      ensures Low(sent[i].num) != Low(p.num)
    {
      assert all[i] == sent[i] && all[|sent|] == p;
      LowDistance(all[i].num, all[|sent|].num);
    }
  }

  /** These packets are stored under their numbers from index a on. */
  predicate Holds(packets: map<Seq16, Entry>, sent: seq<Sent>, a: nat) {
    forall i :: a <= i < |sent| ==>
      Low(sent[i].num) in packets && packets[Low(sent[i].num)].packet.data == sent[i].data
  }

  /** The stored packets before eviction: one more than before, none replaced. */
  lemma StoredHolds(s: State, sent: seq<Sent>, p: Sent, limit: nat)
    requires limit > 0 && Latest(s, sent, limit) && Growing(sent + [p], limit)
    ensures var t, from := Store(s, Low(p.num), p.data), Oldest(|sent|, limit);
            |t.packets| == |sent| + 1 - from && Holds(t.packets, sent + [p], from)
  {
    hide Low;
    NewKey(s, sent, p, limit);
    var t, all := Store(s, Low(p.num), p.data), sent + [p];
    assert t.packets.Keys == s.packets.Keys + {Low(p.num)};
    forall i | Oldest(|sent|, limit) <= i < |all|
      ensures Low(all[i].num) in t.packets && t.packets[Low(all[i].num)].packet.data == all[i].data
    {
      if i < |sent| {
        assert all[i] == sent[i];
        assert Low(sent[i].num) in s.packets;
      }
    }
  }

  lemma StoredKeys(s: State, sent: seq<Sent>, p: Sent, limit: nat)
    requires limit > 0 && Latest(s, sent, limit) && Growing(sent + [p], limit)
    ensures KeysFrom(Store(s, Low(p.num), p.data).packets.Keys, sent + [p], Oldest(|sent|, limit))
  {
    hide Low;
    hide Holds;
    var t, from, all := Store(s, Low(p.num), p.data), Oldest(|sent|, limit), sent + [p];
    StoredHolds(s, sent, p, limit);
    assert forall i :: from <= i < |all| ==> Low(all[i].num) in t.packets.Keys by { HoldsKeys(t.packets, all, from); }
    forall k | k in t.packets.Keys
      ensures exists i :: from <= i < |all| && Low(all[i].num) == k
    {
      if k == Low(p.num) {
        assert Low(all[|sent|].num) == k;
      } else {
        assert k in s.packets.Keys;
        var i :| from <= i < |sent| && Low(sent[i].num) == k;
        assert Low(all[i].num) == k;
      }
    }
  }

  lemma HoldsKeys(packets: map<Seq16, Entry>, sent: seq<Sent>, a: nat)
    requires Holds(packets, sent, a)
    ensures forall i :: a <= i < |sent| ==> Low(sent[i].num) in packets.Keys
  {
  }

  lemma RestKeys(t: State, all: seq<Sent>, a: nat, limit: nat)
    requires Growing(all, limit) && a + 1 < |all| && |all| - 1 - a <= limit
    requires KeysFrom(t.packets.Keys, all, a) && Low(all[a].num) in t.packets
    ensures KeysFrom(t.packets.Keys - {Low(all[a].num)}, all, a + 1)
  {
    hide Low;
    forall i | a + 1 <= i < |all|
      ensures Low(all[i].num) != Low(all[a].num)
    {
      LowDistance(all[a].num, all[i].num);
    }
  }

  lemma IsLatest(s: State, sent: seq<Sent>, limit: nat)
    requires limit > 0 && sent != []
    requires var from := Oldest(|sent|, limit);
             && |s.packets| == |sent| - from && Holds(s.packets, sent, from) && KeysFrom(s.packets.Keys, sent, from)
             && s.first == Low(sent[from].num)
    ensures Latest(s, sent, limit)
  {
    hide Low;
  }

  lemma SaveWhileNotFull(s: State, sent: seq<Sent>, p: Sent, limit: nat)
    requires limit > |sent| && Valid(s, limit) && Latest(s, sent, limit) && Growing(sent + [p], limit)
    requires sent == [] || s.first != 0
    ensures Latest(Save(s, Low(p.num), p.data, limit), sent + [p], limit)
  {
    hide Low;
    hide Valid;
    hide KeysFrom;
    hide Holds;
    StoredHolds(s, sent, p, limit);
    StoredKeys(s, sent, p, limit);
    var t := Store(s, Low(p.num), p.data);
    assert (sent + [p])[0] == if sent == [] then p else sent[0];
    hide Latest;
    IsLatest(t, sent + [p], limit);
  }

  lemma HoldsLess(packets: map<Seq16, Entry>, all: seq<Sent>, a: nat, limit: nat)
    requires Growing(all, limit) && a + 1 < |all| && |all| - 1 - a <= limit && Holds(packets, all, a)
    ensures Holds(packets - {Low(all[a].num)}, all, a + 1)
  {
    hide Low;
    forall i | a + 1 <= i < |all|
      ensures Low(all[i].num) != Low(all[a].num)
    {
      LowDistance(all[a].num, all[i].num);
    }
  }

  lemma EvictOne(t: State, limit: nat)
    requires limit > 0 && |t.packets| == limit + 1 && t.first in t.packets
    ensures var rest := t.packets - {t.first};
            && |rest| == limit && rest.Keys != {} && rest.Keys == t.packets.Keys - {t.first}
            && Evict(t, limit).packets == rest && Evict(t, limit).first == Successor(rest.Keys, t.first)
  {
    var rest := t.packets - {t.first};
    assert t.packets.Keys == rest.Keys + {t.first};
    assert |rest| == limit;
    var next := Successor(rest.Keys, t.first);
    var u := t.(packets := rest, first := next, live := t.live - {t.packets[t.first].packet.id});
    assert Evict(t, limit) == Evict(u, limit) == u;
  }

  lemma SaveWhenFull(s: State, sent: seq<Sent>, p: Sent, limit: nat)
    requires 0 < limit <= |sent| && Valid(s, limit) && Latest(s, sent, limit) && Growing(sent + [p], limit)
    requires s.first != 0
    ensures Latest(Save(s, Low(p.num), p.data, limit), sent + [p], limit)
  {
    hide Low;
    hide Valid;
    hide KeysFrom;
    hide Holds;
    StoredHolds(s, sent, p, limit);
    StoredKeys(s, sent, p, limit);
    var t, from, all := Store(s, Low(p.num), p.data), |sent| - limit, sent + [p];
    assert all[from] == sent[from] && t.first == Low(all[from].num);
    HoldsKeys(t.packets, all, from);
    RestKeys(t, all, from, limit);
    HoldsLess(t.packets, all, from, limit);
    EvictOne(t, limit);
    var rest := t.packets - {t.first};
    hide Evict;
    NextOldest(rest.Keys, all, from, limit);
    hide Latest;
    IsLatest(Save(s, Low(p.num), p.data, limit), all, limit);
  }

  /** With first at 0 the newest packet takes its place, and is the one to go when the buffer is full. */
  lemma SaveAtZero(s: State, sent: seq<Sent>, p: Sent, limit: nat)
    requires limit > 0 && Valid(s, limit) && Latest(s, sent, limit) && Growing(sent + [p], limit)
    requires sent != [] && s.first == 0
    ensures |sent| < limit ==> Save(s, Low(p.num), p.data, limit).first == Low(p.num)
    ensures |sent| >= limit ==>
      && Save(s, Low(p.num), p.data, limit).packets == s.packets
      && Save(s, Low(p.num), p.data, limit).first == Successor(s.packets.Keys, Low(p.num))
    ensures !Latest(Save(s, Low(p.num), p.data, limit), sent + [p], limit)
  {
    hide Low;
    hide Valid;
    hide Holds;
    hide KeysFrom;
    var t, all := Store(s, Low(p.num), p.data), sent + [p];
    NewKey(s, sent, p, limit);
    StoredHolds(s, sent, p, limit);
    if |sent| < limit {
      assert all[0] == sent[0] && all[|sent|] == p;
      LowDistance(all[0].num, all[|sent|].num);
    } else {
      EvictOne(t, limit);
      assert t.packets - {Low(p.num)} == s.packets;
      assert all[|sent|] == p;
    }
  }

  /** Saving the next packet keeps the buffer to the latest packets exactly when first is not 0. */
  lemma SaveKeepsLatest(s: State, sent: seq<Sent>, p: Sent, limit: nat)
    requires limit > 0 && Valid(s, limit) && Latest(s, sent, limit) && Growing(sent + [p], limit)
    ensures Latest(Save(s, Low(p.num), p.data, limit), sent + [p], limit) <==> sent == [] || s.first != 0
  {
    hide Low;
    hide Latest;
    hide Save;
    if sent != [] && s.first == 0 {
      SaveAtZero(s, sent, p, limit);
    } else if |sent| < limit {
      SaveWhileNotFull(s, sent, p, limit);
    } else {
      SaveWhenFull(s, sent, p, limit);
    }
  }

  /** No packet arrived while first stood at 0. */
  predicate NeverAtZero(sent: seq<Sent>, limit: nat) {
    forall n :: 1 <= n < |sent| ==> Low(sent[Oldest(n, limit)].num) != 0
  }

  predicate AlwaysLatest(sent: seq<Sent>, limit: nat)
    requires limit > 0
  {
    forall n :: 0 <= n <= |sent| ==> Latest(Run(sent[..n], limit), sent[..n], limit)
  }

  lemma NextStep(sent: seq<Sent>, limit: nat)
    requires limit > 0 && sent != [] && Growing(sent, limit)
    requires var n := |sent| - 1; Latest(Run(sent[..n], limit), sent[..n], limit)
    ensures var n := |sent| - 1;
            Latest(Run(sent, limit), sent, limit) <==> n == 0 || Low(sent[Oldest(n, limit)].num) != 0
  {
    hide Save;
    hide Low;
    hide Run;
    hide Latest;
    hide Valid;
    hide Growing;
    RunStep(sent, limit);
    var n := |sent| - 1;
    var front, p := sent[..n], sent[n];
    assert front + [p] == sent;
    if n > 0 {
      FirstIsOldest(Run(front, limit), front, limit);
      OldestBefore(n, limit);
      assert front[Oldest(n, limit)] == sent[Oldest(n, limit)];
    }
    hide Oldest;
    SaveKeepsLatest(Run(front, limit), front, p, limit);
  }

  lemma OldestBefore(n: nat, limit: nat)
    requires limit > 0 && n > 0
    ensures Oldest(n, limit) < n
  {
  }

  lemma RunStep(sent: seq<Sent>, limit: nat)
    requires limit > 0 && sent != []
    ensures var n := |sent| - 1;
            Run(sent, limit) == Save(Run(sent[..n], limit), Low(sent[n].num), sent[n].data, limit)
  {
    hide Low;
    hide Save;
    hide Valid;
  }

  lemma FirstIsOldest(s: State, sent: seq<Sent>, limit: nat)
    requires limit > 0 && sent != [] && Latest(s, sent, limit)
    ensures s.first == Low(sent[Oldest(|sent|, limit)].num)
  {
    hide Low;
  }

  lemma PrefixGrows(sent: seq<Sent>, n: nat, limit: nat)
    requires Growing(sent, limit) && n <= |sent|
    ensures Growing(sent[..n], limit)
  {
  }

  lemma AlwaysSplits(sent: seq<Sent>, limit: nat)
    requires limit > 0 && sent != []
    ensures var front := sent[..|sent| - 1];
            AlwaysLatest(sent, limit) <==> AlwaysLatest(front, limit) && Latest(Run(sent, limit), sent, limit)
  {
    hide Latest;
    hide Run;
    var n := |sent| - 1;
    var front := sent[..n];
    assert forall m :: 0 <= m <= n ==> front[..m] == sent[..m];
    assert sent[..n + 1] == sent;
    if AlwaysLatest(sent, limit) {
      assert Latest(Run(sent[..n + 1], limit), sent[..n + 1], limit);
      forall m | 0 <= m <= n ensures Latest(Run(front[..m], limit), front[..m], limit) {
        assert Latest(Run(sent[..m], limit), sent[..m], limit);
      }
    }
    if AlwaysLatest(front, limit) && Latest(Run(sent, limit), sent, limit) {
      forall m | 0 <= m <= n + 1 ensures Latest(Run(sent[..m], limit), sent[..m], limit) {
        if m <= n {
          assert Latest(Run(front[..m], limit), front[..m], limit);
        }
      }
    }
  }

  lemma NeverSplits(sent: seq<Sent>, limit: nat)
    requires limit > 0 && sent != []
    ensures var n := |sent| - 1;
            NeverAtZero(sent, limit)
            <==> NeverAtZero(sent[..n], limit) && (n == 0 || Low(sent[Oldest(n, limit)].num) != 0)
  {
    hide Low;
    var n := |sent| - 1;
    OldestIsBefore(n, limit);
    assert forall m :: 1 <= m < n ==> sent[..n][Oldest(m, limit)] == sent[Oldest(m, limit)];
  }

  /**
   * For growing numbers, wrapping included, the buffer is at every moment exactly the latest
   * packets if and only if no packet arrives while the oldest one has number 0.
   */
  lemma {:induction false} HoldsTheLatest(sent: seq<Sent>, limit: nat)
    requires limit > 0 && Growing(sent, limit)
    ensures AlwaysLatest(sent, limit) <==> NeverAtZero(sent, limit)
    decreases |sent|
  {
    hide Low;
    hide Latest;
    hide Growing;
    hide Run;
    if sent == [] {
      NothingIsLatest(limit);
    } else {
      hide NeverAtZero;
      var n := |sent| - 1;
      PrefixGrows(sent, n, limit);
      HoldsTheLatest(sent[..n], limit);
      AlwaysSplits(sent, limit);
      NeverSplits(sent, limit);
      if AlwaysLatest(sent[..n], limit) {
        assert sent[..n][..n] == sent[..n];
        assert Latest(Run(sent[..n], limit), sent[..n], limit);
        NextStep(sent, limit);
      }
    }
  }

  lemma OldestIsBefore(n: nat, limit: nat)
    requires limit > 0
    ensures forall m :: 1 <= m <= n ==> Oldest(m, limit) < m
  {
  }

  lemma NothingIsLatest(limit: nat)
    requires limit > 0
    ensures Latest(Run([], limit), [], limit)
  {
  }

  /** Numbers from 1 to 65535 in increasing order: the buffer is the last packets, as many as fit. */
  lemma IncreasingRun(sent: seq<Sent>, limit: nat)
    requires limit > 0
    requires forall i, j :: 0 <= i < j < |sent| ==> sent[i].num < sent[j].num
    requires forall p <- sent :: 0 < p.num < SEQ_MOD
    ensures Latest(Run(sent, limit), sent, limit)
  {
    NonzeroNever(sent, limit);
    assert Growing(sent, limit);
    HoldsTheLatest(sent, limit);
    hide Latest;
    hide Run;
    hide NeverAtZero;
    assert sent[..|sent|] == sent;
  }

  lemma NonzeroNever(sent: seq<Sent>, limit: nat)
    requires limit > 0 && forall p <- sent :: 0 < p.num < SEQ_MOD
    ensures NeverAtZero(sent, limit)
  {
    OldestIsBefore(|sent|, limit);
    forall n | 1 <= n < |sent|
      ensures Low(sent[Oldest(n, limit)].num) != 0
    {
      assert sent[Oldest(n, limit)] in sent;
    }
  }

  function SaveAll(s: State, sent: seq<Sent>, limit: nat): (r: State)
    requires limit > 0 && Valid(s, limit)
    ensures Valid(r, limit)
    decreases |sent|
  {
    if sent == [] then s
    else
      SaveKeepsValid(s, Low(sent[0].num), sent[0].data, limit);
      SaveAll(Save(s, Low(sent[0].num), sent[0].data, limit), sent[1..], limit)
  }

  /** A full buffer whose first is 0 drops every later packet with a higher number. */
  lemma {:induction false} StuckAtZero(s: State, sent: seq<Sent>, limit: nat)
    requires limit > 0 && Valid(s, limit) && |s.packets| == limit && s.first == 0
    requires forall p <- sent, k <- s.packets.Keys :: k < Low(p.num)
    ensures SaveAll(s, sent, limit).packets == s.packets && SaveAll(s, sent, limit).first == 0
    decreases |sent|
  {
    hide Low;
    hide Owned;
    if sent == [] {
    } else {
      var p := sent[0];
      var t := Store(s, Low(p.num), p.data);
      assert p in sent;
      assert Low(p.num) !in s.packets;
      assert |t.packets| == limit + 1;
      EvictOne(t, limit);
      assert t.packets - {Low(p.num)} == s.packets;
      SaveKeepsValid(s, Low(p.num), p.data, limit);
      StuckAtZero(Save(s, Low(p.num), p.data, limit), sent[1..], limit);
    }
  }

  // ----- the object -----

  class RetransmissionBuffer {
    const limit: nat
    var packets: map<Seq16, Entry>
    var firstSeq: Seq16
    var nextId: nat
    ghost var live: set<nat>

    ghost function Current(): State
      reads this
    {
      State(packets, firstSeq, live, nextId)
    }

    constructor (video: bool)
      ensures Current() == Empty && limit == (if video then VIDEO_MAX else AUDIO_MAX) && Valid(Current(), limit)
    {
      limit := if video then VIDEO_MAX else AUDIO_MAX;
      packets, firstSeq, nextId, live := map[], 0, 0, {};
    }

    /** Allocation and deletion of clones; only a live clone may be deleted. */
    method NewClone(data: seq<byte>) returns (c: Clone)
      modifies this`nextId, this`live
      ensures c == Clone(old(nextId), data) && nextId == old(nextId) + 1 && live == old(live) + {c.id}
    {
      c := Clone(nextId, data);
      nextId := nextId + 1;
      live := live + {c.id};
    }

    ghost method Delete(c: Clone)
      requires c.id in live
      modifies this`live
      ensures live == old(live) - {c.id}
    {
      live := live - {c.id};
    }

    method SaveBuffer(sn: Seq16, data: seq<byte>)
      requires limit > 0 && Valid(Current(), limit)
      modifies this
      ensures Valid(Current(), limit)
      ensures Current() == Save(old(Current()), sn, data, limit)
    {
      ghost var s := Current();
      SaveKeepsValid(s, sn, data, limit);
      StoreOwns(s, sn, data);
      hide Owned;
      Put(sn, data);
      while |packets| > limit
        invariant firstSeq in packets && Owned(Current())
        invariant Evict(Current(), limit) == Save(s, sn, data, limit)
        decreases |packets|
      {
        EvictFirst();
      }
    }

    method Put(sn: Seq16, data: seq<byte>)
      requires Owned(Current())
      modifies this
      ensures Current() == Store(old(Current()), sn, data)
    {
      ghost var s := Current();
      var pkt := NewClone(data);
      if sn in packets {
        OwnedIsLive(s, sn);
        Delete(packets[sn].packet);
        packets := packets - {sn};
      }
      packets := packets[sn := Entry(0, 0, pkt)];
      if firstSeq == 0 {
        firstSeq := sn;
      }
      assert packets == s.packets[sn := Entry(0, 0, pkt)];
      assert live == Store(s, sn, data).live;
    }

    method EvictFirst()
      requires limit > 0 && |packets| > limit && firstSeq in packets && Owned(Current())
      modifies this
      ensures firstSeq in packets && Owned(Current()) && |packets| < old(|packets|)
      ensures Evict(Current(), limit) == Evict(old(Current()), limit)
    {
      hide Owned;
      ghost var s := Current();
      OwnedIsLive(s, firstSeq);
      Delete(packets[firstSeq].packet);
      var rest := packets - {firstSeq};
      assert packets.Keys == rest.Keys + {firstSeq};
      DropOwns(s, firstSeq, Successor(rest.Keys, firstSeq));
      hide Owned;
      packets := rest;
      var next := FirstFrom(packets.Keys, firstSeq + 1);
      if next == SEQ_MOD {
        next := FirstFrom(packets.Keys, 0);
      }
      firstSeq := next;
    }

    /** The destructor frees every clone. */
    method ClearBuffer()
      requires Owned(Current())
      modifies this
      ensures packets == map[] && live == {}
    {
      NothingOwned();
      hide Owned;
      while packets != map[]
        invariant Owned(Current())
        decreases |packets|
      {
        ghost var s := Current();
        assert packets.Keys != {};
        var k := FirstFrom(packets.Keys, 0);
        OwnedIsLive(s, k);
        Delete(packets[k].packet);
        DropOwns(s, k, firstSeq);
        assert packets.Keys == (packets - {k}).Keys + {k};
        packets := packets - {k};
      }
    }
  }

  lemma NothingOwned()
    ensures forall s: State :: Owned(s) && s.packets == map[] ==> s.live == {}
  {
  }

  lemma OwnedIsLive(s: State, k: Seq16)
    requires Owned(s) && k in s.packets
    ensures s.packets[k].packet.id in s.live && s.packets[k].packet.id != s.nextId
  {
  }
}
