/** Gap tracking and retransmission requests of net/webrtc/nack_generator.cpp. */
module NackGenerator {
  import opened SeqNumbers

  const LIST_MAX := 5000
  const RETRY_MAX := 20
  const DEFAULT_RTT := 20

  datatype Info = Info(sentMs: int, retry: nat)
  type NackMap = map<Seq16, Info>
  datatype State = State(started: bool, last: Seq16, nacks: NackMap)

  const Fresh := State(false, 0, map[])

  function Fill(m: NackMap, from: Seq16, to: Seq16): NackMap {
    map k: Seq16 | k in m.Keys || from <= k < to :: if k in m then m[k] else Info(0, 0)
  }

  /** A packet arrives. */
  function Update(s: State, sn: Seq16): State {
    if !s.started then s.(started := true, last := sn)
    else if sn == s.last then s
    else if Lower(sn, s.last) then s.(nacks := s.nacks - {sn})
    else if s.last + 1 == sn then s.(last := sn)
    else State(true, sn, Fill(s.nacks, (s.last + 1) % SEQ_MOD, sn))
  }

  /** How far b lies ahead of a on the ring. */
  function Ahead(a: Seq16, b: Seq16): Seq16 {
    (b as int - a as int + SEQ_MOD) % SEQ_MOD
  }

  /** The numbers between the last one and the one that arrives. */
  function Skipped(last: Seq16, sn: Seq16): set<Seq16> {
    set k: Seq16 | 0 < Ahead(last, k) < Ahead(last, sn)
  }

  /**
   * A higher number lists exactly the numbers skipped, unless the gap lies across the wrap and
   * does not start behind the last number before it: then nothing is listed.
   */
  lemma GapIsListed(s: State, sn: Seq16)
    requires s.started && Higher(sn, s.last)
    ensures var t := Update(s, sn);
            && (t.nacks.Keys == s.nacks.Keys + Skipped(s.last, sn)
                <==> s.last < sn || s.last == SEQUENCE_MAX || Skipped(s.last, sn) <= s.nacks.Keys)
            && (!(s.last < sn || s.last == SEQUENCE_MAX) ==> t.nacks == s.nacks && Skipped(s.last, sn) != {})
  {
    if s.last < sn || s.last == SEQUENCE_MAX {
      GapFills(s, sn);
    } else {
      GapAcrossWrap(s, sn);
    }
    hide Skipped;
    hide Update;
  }

  lemma GapFills(s: State, sn: Seq16)
    requires s.started && Higher(sn, s.last) && (s.last < sn || s.last == SEQUENCE_MAX)
    ensures Update(s, sn).nacks.Keys == s.nacks.Keys + Skipped(s.last, sn)
  {
    SkippedRange(s.last, sn);
    hide Skipped;
    assert s.last + 1 == sn || Update(s, sn).nacks == Fill(s.nacks, (s.last + 1) % SEQ_MOD, sn);
  }

  lemma GapAcrossWrap(s: State, sn: Seq16)
    requires s.started && Higher(sn, s.last) && !(s.last < sn || s.last == SEQUENCE_MAX)
    ensures Update(s, sn).nacks == s.nacks && SEQUENCE_MAX in Skipped(s.last, sn)
  {
    assert Fill(s.nacks, s.last + 1, sn) == s.nacks;
    hide Fill;
    assert Ahead(s.last, SEQUENCE_MAX) < Ahead(s.last, sn);
  }

  lemma SkippedRange(last: Seq16, sn: Seq16)
    requires last < sn || (last == SEQUENCE_MAX && sn != last)
    ensures forall k: Seq16 :: k in Skipped(last, sn) <==> (last + 1) % SEQ_MOD <= k < sn
  {
  }

  // ----- the timer -----

  function Spent(m: NackMap): set<Seq16> {
    set k | k in m && m[k].retry > RETRY_MAX
  }

  function Due(m: NackMap, now: int, rtt: int): set<Seq16> {
    set k | k in m && m[k].retry <= RETRY_MAX && now - m[k].sentMs >= rtt
  }

  function Asked(m: NackMap, now: int, rtt: int): NackMap {
    map k | k in m && m[k].retry <= RETRY_MAX ::
      if now - m[k].sentMs >= rtt then Info(now, m[k].retry + 1) else m[k]
  }

  /** The entry begin() points to. */
  function Front(m: NackMap): (k: Seq16)
    requires m != map[]
    ensures k in m && forall j <- m.Keys :: k <= j
  {
    assert m.Keys != {};
    FirstFrom(m.Keys, 0)
  }

  /** Entries are dropped from the front of the map until it fits. */
  function Trimmed(m: NackMap): NackMap
    decreases |m|
  {
    if |m| <= LIST_MAX then m else Trimmed(m - {Front(m)})
  }

  function Tick(m: NackMap, now: int, rtt: int): NackMap {
    Trimmed(Asked(m, now, rtt))
  }

  /** t is m without some of its lowest keys. */
  predicate TopOf(t: NackMap, m: NackMap) {
    && t.Keys <= m.Keys && (forall k <- t.Keys :: t[k] == m[k])
    && forall dropped <- m.Keys - t.Keys, kept <- t.Keys :: dropped < kept
  }

  lemma TopOfMore(t: NackMap, m: NackMap, low: Seq16)
    requires low in m && TopOf(t, m - {low}) && forall j <- m.Keys :: low <= j
    ensures TopOf(t, m)
  {
    var rest := m - {low};
    forall dropped, kept | dropped in m.Keys - t.Keys && kept in t.Keys
      ensures dropped < kept
    {
      assert kept in rest.Keys;
      assert dropped == low || dropped in rest.Keys - t.Keys;
    }
  }

  /** What trimming leaves is the highest keys, unchanged, as many as fit. */
  lemma {:induction false} TrimKeepsHighest(m: NackMap)
    ensures TopOf(Trimmed(m), m)
    ensures |Trimmed(m)| == if |m| <= 5000 then |m| else 5000
    decreases |m|
  {
    hide TopOf;
    if |m| <= LIST_MAX {
      TopOfSelf(m);
    } else {
      var low := Front(m);
      var rest := m - {low};
      assert m.Keys == rest.Keys + {low};
      assert |rest| == |m| - 1;
      TrimKeepsHighest(rest);
      TopOfMore(Trimmed(rest), m, low);
    }
  }

  lemma TopOfSelf(m: NackMap)
    ensures TopOf(m, m)
  {
  }

  // ----- runs -----

  datatype Event = Packet(sn: Seq16) | Timer(now: int)
  datatype Request = Request(ms: int, lost: set<Seq16>)

  datatype Trace = Trace(
    s: State,
    first: Seq16,
    received: set<Seq16>,
    spent: set<Seq16>,
    trimmed: set<Seq16>,
    log: seq<Request>)

  function Step(t: Trace, e: Event, rtt: int): Trace {
    match e
    case Packet(sn) =>
      t.(s := Update(t.s, sn),
         first := if t.s.started then t.first else sn,
         received := t.received + {sn})
    case Timer(now) =>
      var asked := Asked(t.s.nacks, now, rtt);
      t.(s := t.s.(nacks := Tick(t.s.nacks, now, rtt)),
         spent := t.spent + Spent(t.s.nacks),
         trimmed := t.trimmed + (asked.Keys - Trimmed(asked).Keys),
         log := t.log + [Request(now, Due(t.s.nacks, now, rtt))])
  }

  function Run(events: seq<Event>, rtt: int): Trace {
    if events == [] then Trace(Fresh, 0, {}, {}, {}, [])
    else Step(Run(events[..|events| - 1], rtt), events[|events| - 1], rtt)
  }

  /** All numbers lie in one stretch of 32768 that does not wrap. */
  predicate InStretch(events: seq<Event>, low: nat) {
    forall e <- events :: e.Packet? ==> low <= e.sn <= low + SEQUENCE_MAX / 2
  }

  /** The times at which k was requested. */
  function Times(log: seq<Request>, k: Seq16): seq<int> {
    if log == [] then []
    else
      var r := log[|log| - 1];
      Times(log[..|log| - 1], k) + if k in r.lost then [r.ms] else []
  }

  predicate Apart(times: seq<int>, rtt: int) {
    forall i, j :: 0 <= i < j < |times| ==> times[j] - times[i] >= rtt
  }

  function Missing(t: Trace): set<Seq16> {
    set k: Seq16 | t.first < k < t.s.last && k !in t.received
  }

  predicate Gaps(t: Trace, low: nat) {
    if !t.s.started then t.received == {} && t.s.nacks == map[] && t.spent == {} && t.trimmed == {}
    else
      && t.first in t.received && t.s.last in t.received
      && (forall k <- t.received :: low <= k <= t.s.last <= low + SEQUENCE_MAX / 2)
      && (forall k <- t.spent + t.trimmed :: t.first < k < t.s.last)
      && t.s.nacks.Keys == Missing(t) - t.spent - t.trimmed
  }

  lemma PacketKeepsGaps(t: Trace, sn: Seq16, rtt: int, low: nat)
    requires Gaps(t, low) && low <= sn <= low + SEQUENCE_MAX / 2
    ensures Gaps(Step(t, Packet(sn), rtt), low)
  {
    if t.s.started {
      LowerIsTotal(sn, t.s.last);
    }
  }

  /** A timer sorts the entries into those that stay, those spent and those trimmed. */
  lemma TimerKeys(m: NackMap, now: int, rtt: int)
    ensures var asked := Asked(m, now, rtt);
            Tick(m, now, rtt).Keys == m.Keys - Spent(m) - (asked.Keys - Trimmed(asked).Keys)
    ensures Spent(m) <= m.Keys && Asked(m, now, rtt).Keys <= m.Keys
  {
    hide Trimmed;
    var asked := Asked(m, now, rtt);
    TrimKeepsHighest(asked);
    assert asked.Keys == m.Keys - Spent(m);
  }

  lemma TimerKeepsGaps(t: Trace, now: int, rtt: int, low: nat)
    requires Gaps(t, low)
    ensures Gaps(Step(t, Timer(now), rtt), low)
  {
    hide Trimmed;
    hide Asked;
    hide Spent;
    hide Due;
    var m, t' := t.s.nacks, Step(t, Timer(now), rtt);
    TimerKeys(m, now, rtt);
    if t.s.started {
      var goneNow := Asked(m, now, rtt).Keys - Trimmed(Asked(m, now, rtt)).Keys;
      SetsAfterTimer(m.Keys, Missing(t), t.spent, t.trimmed, Spent(m), goneNow);
      assert t'.spent == t.spent + Spent(m) && t'.trimmed == t.trimmed + goneNow && t'.s.started;
      assert t'.s.nacks.Keys == m.Keys - Spent(m) - goneNow;
      assert Missing(t') == Missing(t);
      assert t'.s.nacks.Keys == Missing(t') - t'.spent - t'.trimmed;
      forall k | k in t'.spent + t'.trimmed
        ensures t.first < k < t.s.last
      {
        assert k in t.spent + t.trimmed || k in m.Keys;
        assert k in m.Keys ==> k in Missing(t);
      }
    } else {
      assert m.Keys == {};
      assert t'.s.nacks.Keys == {};
    }
  }

  lemma SetsAfterTimer(
    keys: set<Seq16>, missing: set<Seq16>, spent: set<Seq16>, trimmed: set<Seq16>, spentNow: set<Seq16>,
    trimmedNow: set<Seq16>)
    requires keys == missing - spent - trimmed
    ensures keys - spentNow - trimmedNow == missing - (spent + spentNow) - (trimmed + trimmedNow)
  {
  }

  /**
   * The map holds exactly the numbers between the first and the highest that never arrived,
   * except those given up after the last retry and those trimmed.
   */
  lemma {:induction false} HoldsTheGaps(events: seq<Event>, rtt: int, low: nat)
    requires InStretch(events, low)
    ensures Gaps(Run(events, rtt), low)
    decreases |events|
  {
    if events == [] {
    } else {
      var front, e := events[..|events| - 1], events[|events| - 1];
      HoldsTheGaps(front, rtt, low);
      match e
      case Packet(sn) => PacketKeepsGaps(Run(front, rtt), sn, rtt, low);
      case Timer(now) => TimerKeepsGaps(Run(front, rtt), now, rtt, low);
    }
  }

  // ----- how often and how fast -----

  /** The last request; a number never requested counts as requested at 0. */
  function LastTime(times: seq<int>): int {
    if times == [] then 0 else times[|times| - 1]
  }

  /** The entry of k agrees with the requests made for k so far. */
  predicate Agrees(t: Trace, k: Seq16, rtt: int) {
    var times := Times(t.log, k);
    && |times| <= 21 && Apart(times, rtt)
    && (k in t.s.nacks ==> t.s.nacks[k].retry == |times| && t.s.nacks[k].sentMs == LastTime(times))
    && (k in t.spent ==> |times| == 21)
    && (!t.s.started || k > t.s.last ==> times == [])
  }

  lemma PacketKeepsAgreement(t: Trace, sn: Seq16, k: Seq16, rtt: int, low: nat)
    requires Gaps(t, low) && low <= sn <= low + SEQUENCE_MAX / 2 && Agrees(t, k, rtt)
    ensures Agrees(Step(t, Packet(sn), rtt), k, rtt)
  {
    hide Times;
    hide Apart;
    hide Missing;
    LowerIsTotal(sn, t.s.last);
  }

  lemma ApartAfter(times: seq<int>, now: int, rtt: int)
    requires Apart(times, rtt) && rtt >= 0 && (times != [] ==> now - times[|times| - 1] >= rtt)
    ensures Apart(times + [now], rtt)
  {
    forall i | 0 <= i < |times| ensures now - times[i] >= rtt {
      assert i < |times| - 1 ==> times[|times| - 1] - times[i] >= rtt;
    }
  }

  lemma TimesAfter(log: seq<Request>, r: Request, k: Seq16)
    ensures Times(log + [r], k) == Times(log, k) + if k in r.lost then [r.ms] else []
  {
    assert (log + [r])[..|log|] == log;
  }

  /** What a timer does to the entry of k. */
  lemma TimerEntry(m: NackMap, now: int, rtt: int, k: Seq16)
    ensures k in Tick(m, now, rtt) ==>
      && k in m && m[k].retry <= RETRY_MAX
      && Tick(m, now, rtt)[k] == if k in Due(m, now, rtt) then Info(now, m[k].retry + 1) else m[k]
    ensures k in Due(m, now, rtt) ==> k in m && m[k].retry <= RETRY_MAX && now - m[k].sentMs >= rtt
    ensures k in Spent(m) ==> k in m && m[k].retry > RETRY_MAX
  {
    hide Trimmed;
    TrimKeepsHighest(Asked(m, now, rtt));
  }

  lemma TimerKeepsAgreement(t: Trace, now: int, k: Seq16, rtt: int, low: nat)
    requires Gaps(t, low) && rtt >= 0 && Agrees(t, k, rtt)
    ensures Agrees(Step(t, Timer(now), rtt), k, rtt)
  {
    hide Times;
    hide Apart;
    hide Tick;
    hide Due;
    hide Spent;
    hide Gaps;
    hide Asked;
    hide Trimmed;
    var m, times, t' := t.s.nacks, Times(t.log, k), Step(t, Timer(now), rtt);
    TimerEntry(m, now, rtt, k);
    TimesAfter(t.log, Request(now, Due(m, now, rtt)), k);
    if k in m {
      ListedFacts(t, k, low);
    }
    if k in Due(m, now, rtt) {
      ApartAfter(times, now, rtt);
      assert Times(t'.log, k) == times + [now];
      assert k !in t'.spent;
    } else {
      assert Times(t'.log, k) == times + [] == times;
    }
  }

  lemma ListedFacts(t: Trace, k: Seq16, low: nat)
    requires Gaps(t, low) && k in t.s.nacks
    ensures t.s.started && k <= t.s.last && k !in t.spent
  {
    assert k in Missing(t) - t.spent;
  }

  /**
   * Every number is requested at most 21 times, at least rtt apart, and given up only after
   * exactly 21 requests.
   */
  lemma {:induction false} RequestsAreBounded(events: seq<Event>, k: Seq16, rtt: int, low: nat)
    requires InStretch(events, low) && rtt >= 0
    ensures Agrees(Run(events, rtt), k, rtt)
    decreases |events|
  {
    hide Agrees;
    hide Gaps;
    if events == [] {
      NothingAgrees(k, rtt);
    } else {
      var front, e := events[..|events| - 1], events[|events| - 1];
      RequestsAreBounded(front, k, rtt, low);
      HoldsTheGaps(front, rtt, low);
      match e
      case Packet(sn) => PacketKeepsAgreement(Run(front, rtt), sn, k, rtt, low);
      case Timer(now) => TimerKeepsAgreement(Run(front, rtt), now, k, rtt, low);
    }
  }

  lemma NothingAgrees(k: Seq16, rtt: int)
    ensures Agrees(Run([], rtt), k, rtt)
  {
  }

  /** A lost number is still listed, was asked for 21 times, or was trimmed: nothing else ends it. */
  lemma LostNumbersAreChased(events: seq<Event>, k: Seq16, rtt: int, low: nat)
    requires InStretch(events, low) && rtt >= 0
    requires var t := Run(events, rtt); t.s.started && t.first < k < t.s.last && k !in t.received
    ensures var t := Run(events, rtt);
            k in t.s.nacks || |Times(t.log, k)| == 21 || k in t.trimmed
  {
    HoldsTheGaps(events, rtt, low);
    RequestsAreBounded(events, k, rtt, low);
    assert k in Missing(Run(events, rtt));
  }

  /**
   * Every timer requests exactly the numbers that never arrived, were not trimmed, were requested
   * at most 20 times, and not within the last rtt.
   */
  lemma TimerRequestsWhatIsDue(events: seq<Event>, now: int, k: Seq16, rtt: int, low: nat)
    requires InStretch(events, low) && rtt >= 0
    ensures var t := Run(events, rtt);
            var log := Run(events + [Timer(now)], rtt).log;
            && |log| == |t.log| + 1 && log[..|t.log|] == t.log && log[|t.log|].ms == now
            && (k in log[|t.log|].lost <==>
                  && t.s.started && t.first < k < t.s.last && k !in t.received && k !in t.trimmed && k !in t.spent
                  && |Times(t.log, k)| <= 20 && now - LastTime(Times(t.log, k)) >= rtt)
  {
    var t, all := Run(events, rtt), events + [Timer(now)];
    assert all[..|all| - 1] == events;
    assert Run(all, rtt).log == t.log + [Request(now, Due(t.s.nacks, now, rtt))];
    HoldsTheGaps(events, rtt, low);
    RequestsAreBounded(events, k, rtt, low);
    hide Run;
    hide Times;
    hide Apart;
    assert k in t.s.nacks <==> t.s.started && k in Missing(t) - t.spent - t.trimmed;
  }

  // ----- the object -----

  predicate Ascending(s: seq<Seq16>) {
    forall i, j :: 0 <= i < j < |s| ==> s[i] < s[j]
  }

  class Generator {
    var initFlag: bool
    var lastSeq: Seq16
    var nackMap: NackMap
    var rtt: int

    function Current(): State
      reads this
    {
      State(initFlag, lastSeq, nackMap)
    }

    constructor ()
      ensures Current() == Fresh && rtt == DEFAULT_RTT
    {
      initFlag, lastSeq, nackMap, rtt := false, 0, map[], DEFAULT_RTT;
    }

    method UpdateNackList(sn: Seq16)
      modifies this
      ensures Current() == Update(old(Current()), sn) && rtt == old(rtt)
    {
      if !initFlag {
        initFlag, lastSeq := true, sn;
        return;
      }
      if sn == lastSeq {
        return;
      }
      if Lower(sn, lastSeq) {
        nackMap := nackMap - {sn};
        return;
      }
      if lastSeq + 1 == sn {
        lastSeq := sn;
        return;
      }
      var start := (lastSeq + 1) % SEQ_MOD;
      lastSeq := sn;
      ghost var before := nackMap;
      var key: nat := start;
      while key < sn
        invariant start <= key && (key <= sn || key == start)
        invariant nackMap == if key < SEQ_MOD then Fill(before, start, key) else before
        invariant lastSeq == sn && initFlag && rtt == old(rtt)
      {
        if key !in nackMap {
          nackMap := nackMap[key := Info(0, 0)];
        }
        key := key + 1;
      }
      assert Fill(before, start, key) == Fill(before, start, sn);
    }

    /** One pass over the map, then the trimming; lost is what the callback is given. */
    method OnTimer(now: int) returns (lost: seq<Seq16>)
      modifies this
      ensures Current() == old(Current()).(nacks := Tick(old(nackMap), now, rtt)) && rtt == old(rtt)
      ensures Ascending(lost) && forall k: Seq16 :: k in lost <==> k in Due(old(nackMap), now, rtt)
    {
      lost := [];
      if nackMap == map[] {
        return;
      }
      lost := AskAgain(now);
      while |nackMap| > LIST_MAX
        invariant Trimmed(nackMap) == Tick(old(nackMap), now, rtt)
        invariant initFlag == old(initFlag) && lastSeq == old(lastSeq) && rtt == old(rtt)
        decreases |nackMap|
      {
        nackMap := nackMap - {Front(nackMap)};
      }
    }

    method AskAgain(now: int) returns (lost: seq<Seq16>)
      modifies this`nackMap
      ensures nackMap == Asked(old(nackMap), now, rtt)
      ensures Ascending(lost) && forall k: Seq16 :: k in lost <==> k in Due(old(nackMap), now, rtt)
    {
      hide Asked;
      hide Due;
      hide AskedBelow;
      ghost var before := nackMap;
      lost := [];
      var iter := FirstFrom(nackMap.Keys, 0);
      NothingAsked(before, now, rtt, iter);
      while iter < SEQ_MOD
        invariant 0 <= iter <= SEQ_MOD && nackMap == AskedBelow(before, now, rtt, iter)
        invariant iter < SEQ_MOD ==> iter in before
        invariant Ascending(lost) && forall k: Seq16 :: k in lost <==> k < iter && k in Due(before, now, rtt)
        decreases SEQ_MOD - iter
      {
        var key: Seq16 := iter;
        EntryAt(before, now, rtt, key);
        if nackMap[key].retry > RETRY_MAX {
          nackMap := nackMap - {key};
        } else if now - nackMap[key].sentMs >= rtt {
          nackMap := nackMap[key := Info(now, nackMap[key].retry + 1)];
          assert forall i :: 0 <= i < |lost| ==> lost[i] in lost;
          lost := lost + [key];
        }
        iter := FirstFrom(nackMap.Keys, key + 1);
        AskedStep(before, now, rtt, key, iter, nackMap);
      }
      AllAsked(before, now, rtt);
    }
  }

  /** The map when the pass has come to iter. */
  function AskedBelow(m: NackMap, now: int, rtt: int, iter: nat): NackMap {
    map k | k in m && (k < iter ==> m[k].retry <= RETRY_MAX) ::
      if k < iter && now - m[k].sentMs >= rtt then Info(now, m[k].retry + 1) else m[k]
  }

  lemma NothingAsked(m: NackMap, now: int, rtt: int, iter: nat)
    requires forall k <- m.Keys :: iter <= k
    ensures AskedBelow(m, now, rtt, iter) == m
    ensures forall k <- Due(m, now, rtt) :: iter <= k
  {
  }

  lemma AllAsked(m: NackMap, now: int, rtt: int)
    ensures AskedBelow(m, now, rtt, SEQ_MOD) == Asked(m, now, rtt)
  {
  }

  lemma EntryAt(m: NackMap, now: int, rtt: int, key: Seq16)
    requires key in m
    ensures key in AskedBelow(m, now, rtt, key) && AskedBelow(m, now, rtt, key)[key] == m[key]
    ensures key in Due(m, now, rtt) <==> m[key].retry <= RETRY_MAX && now - m[key].sentMs >= rtt
  {
  }

  /** Handling one entry and moving to the next one. */
  lemma AskedStep(m: NackMap, now: int, rtt: int, key: Seq16, next: nat, m': NackMap)
    requires key in m && key < next <= SEQ_MOD && (next < SEQ_MOD ==> next in m')
    requires m' == var was := AskedBelow(m, now, rtt, key);
      if m[key].retry > RETRY_MAX then was - {key}
      else if now - m[key].sentMs >= rtt then was[key := Info(now, m[key].retry + 1)]
      else was
    requires forall j <- m'.Keys :: j <= key || next <= j
    ensures AskedBelow(m, now, rtt, next) == m'
    ensures next < SEQ_MOD ==> next in m
    ensures forall k: Seq16 :: k in Due(m, now, rtt) && k < next ==> k <= key
  {
    forall k | k in m && key < k
      ensures k in m'
    {
      assert k in AskedBelow(m, now, rtt, key);
    }
  }
}
