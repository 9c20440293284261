/** What every run of the fan-out keeps: each initialised player sees a gap-free stream. */
module FanoutRuns {
  import opened Fanout

  // ----- the cache -----

  /** The cached frames are those from the last GOP boundary on. */
  lemma {:induction false} CacheHoldsGop(ps: seq<Packet>)
    ensures CacheOf(ps, MIN_GOP).frames == Frames(ps[GopStart(ps)..])
  {
    if ps == [] {
    } else {
      var before, p := ps[..|ps| - 1], ps[|ps| - 1];
      CacheHoldsGop(before);
      var b := GopStart(ps);
      assert ps[b..][..|ps[b..]| - 1] == before[b..] && ps[b..][|ps[b..]| - 1] == p;
      if IsKeyFrame(p) {
        assert ps[b..] == [p];
        assert Frames([p]) == Frames([]) + [p];
      }
    }
  }

  predicate IsVideoHeader(p: Packet) {
    p.avType == Video && p.isSeqHdr
  }

  predicate IsAudioHeader(p: Packet) {
    p.avType == Audio && p.isSeqHdr
  }

  predicate IsMetadata(p: Packet) {
    p.avType == Metadata
  }

  /** The last of the packets of a kind, if there was one. */
  function Latest(ps: seq<Packet>, kind: Packet -> bool): (r: Header)
    ensures r.Missing? ==> forall p <- ps :: !kind(p)
    ensures r.Held? ==>
      exists k :: 0 <= k < |ps| && ps[k] == r.pkt && kind(ps[k]) && forall i | k < i < |ps| :: !kind(ps[i])
  {
    if ps == [] then Missing
    else
      var front, p := ps[..|ps| - 1], ps[|ps| - 1];
      assert ps == front + [p];
      if kind(p) then Held(p) else Latest(front, kind)
  }

  /** The headers held are the last ones sent. */
  lemma {:induction false} CacheHoldsHeaders(ps: seq<Packet>)
    ensures var c := CacheOf(ps, MIN_GOP);
            && c.video == Latest(ps, IsVideoHeader)
            && c.audio == Latest(ps, IsAudioHeader)
            && c.metadata == Latest(ps, IsMetadata)
  {
    if ps == [] {
      assert CacheOf(ps, MIN_GOP) == EmptyCache;
    } else {
      CacheHoldsHeaders(ps[..|ps| - 1]);
    }
  }

  /** Frames are the video and audio packets that are no sequence headers; with FramesConcat this says which. */
  lemma FramesOfOne(p: Packet)
    ensures Frames([p]) == if (p.avType == Video || p.avType == Audio) && !p.isSeqHdr then [p] else []
  {
    assert Frames([]) == [];
  }

  lemma {:induction false} FramesConcat(a: seq<Packet>, b: seq<Packet>)
    ensures Frames(a + b) == Frames(a) + Frames(b)
  {
    if b == [] {
      assert a + b == a;
    } else {
      var n := |b| - 1;
      assert (a + b)[..|a + b| - 1] == a + b[..n];
      FramesConcat(a, b[..n]);
    }
  }

  // ----- writes -----

  lemma {:induction false} WriteAllTaken(w: Writer, s: Player, ps: seq<Packet>)
    ensures var r := WriteAll(w, s, ps);
            && r.player.inited == s.inited
            && (r.ok ==> r.player.got == s.got + ps)
    decreases |ps|
  {
    if ps == [] {
    } else {
      var r := Write(w, s, ps[0]);
      if r.ok {
        WriteAllTaken(w, r.player, ps[1..]);
        assert s.got + [ps[0]] + ps[1..] == s.got + ps;
      }
    }
  }

  // ----- the invariant -----

  /** Initialised at packet n of a stream entry that began at s, and gap-free since. */
  predicate Tracks(got: seq<Packet>, sent: seq<Packet>, s: nat, n: nat) {
    s < n <= |sent| && got == Backlog(CacheOf(sent[s..n], MIN_GOP)) + sent[n..]
  }

  predicate PlayerOk(p: Player, sent: seq<Packet>, s: nat, n: nat) {
    if p.inited then Tracks(p.got, sent, s, n) else p.got == []
  }

  /** How many packets had been sent on the key when its present entry was created. */
  function EntryStart(es: seq<Event>, key: string): nat {
    if es == [] then 0
    else
      var before := es[..|es| - 1];
      if key in Run(before).streams then EntryStart(before, key) else |Sent(before, key)|
  }

  /** How many packets had been sent on the player's key when it was initialised, the one that did it included. */
  function InitAt(es: seq<Event>, w: Writer): nat {
    if es == [] then 0
    else
      var before := es[..|es| - 1];
      if PlayerAt(Run(before), w).inited then InitAt(before, w) else |Sent(es, w.key)|
  }

  /** The entry of a key after a run: its cache and players go back to where it was created. */
  predicate EntryOk(es: seq<Event>, key: string, t: Stream, players: map<Writer, Player>, sent: seq<Packet>, s: nat) {
    && s <= |sent| && t.cache == CacheOf(sent[s..], MIN_GOP)
    && (t.published || t.writers != map[])
    && forall id <- t.writers ::
         && t.writers[id].id == id && t.writers[id].key == key && t.writers[id] in players
         && PlayerOk(players[t.writers[id]], sent, s, InitAt(es, t.writers[id]))
  }

  predicate KeyOk(h: Hub, key: string, es: seq<Event>)
    requires key in h.streams
  {
    EntryOk(es, key, h.streams[key], h.players, Sent(es, key), EntryStart(es, key))
  }

  ghost predicate Inv(h: Hub, es: seq<Event>) {
    && h == Run(es)
    && (forall w <- h.players :: !h.players[w].inited ==> h.players[w].got == [])
    && forall key <- h.streams :: KeyOk(h, key, es)
  }

  /** A player that joins is not initialised yet, or is the one registered already. */
  predicate FairStep(h: Hub, e: Event) {
    e.Join? ==> !PlayerAt(h, e.w).inited || (e.w.key in h.streams && e.w in h.streams[e.w.key].writers.Values)
  }

  predicate Fair(es: seq<Event>) {
    es == [] || (Fair(es[..|es| - 1]) && FairStep(Run(es[..|es| - 1]), es[|es| - 1]))
  }

  lemma SentStep(es: seq<Event>, e: Event, key: string)
    ensures Sent(es + [e], key) == if e.Send? && e.p.key == key then Sent(es, key) + [e.p] else Sent(es, key)
  {
    assert (es + [e])[..|es|] == es;
  }

  lemma RunStep(es: seq<Event>, e: Event)
    ensures Run(es + [e]) == Step(Run(es), e)
  {
    assert (es + [e])[..|es|] == es;
  }

  lemma StartStep(es: seq<Event>, e: Event, key: string)
    ensures EntryStart(es + [e], key)
         == if key in Run(es).streams then EntryStart(es, key) else |Sent(es, key)|
  {
    assert (es + [e])[..|es|] == es;
  }

  lemma InitStep(es: seq<Event>, e: Event, w: Writer)
    ensures InitAt(es + [e], w)
         == if PlayerAt(Run(es), w).inited then InitAt(es, w) else |Sent(es + [e], w.key)|
  {
    assert (es + [e])[..|es|] == es;
  }

  /** A player that is initialised keeps the moment of its initialisation; another has none to keep. */
  lemma StillOk(es: seq<Event>, e: Event, w: Writer, sent: seq<Packet>, s: nat)
    requires PlayerOk(PlayerAt(Run(es), w), sent, s, InitAt(es, w))
    ensures PlayerOk(PlayerAt(Run(es), w), sent, s, InitAt(es + [e], w))
  {
    hide Tracks;
    hide Sent;
    InitStep(es, e, w);
  }

  lemma EmptyOk(p: Player, sent: seq<Packet>, s: nat, n: nat)
    ensures !p.inited && p.got == [] ==> PlayerOk(p, sent, s, n)
  {
  }

  /** An entry just created, with at most one player, not initialised. */
  lemma NewEntryOk(h: Hub, key: string, es: seq<Event>, e: Event)
    requires key in h.streams && h.streams[key].cache == EmptyCache
    requires key !in Run(es).streams && !e.Send?
    requires h.streams[key].published || h.streams[key].writers != map[]
    requires forall id <- h.streams[key].writers ::
               var w := h.streams[key].writers[id];
               w.id == id && w.key == key && w in h.players && !h.players[w].inited && h.players[w].got == []
    ensures KeyOk(h, key, es + [e])
  {
    hide InitAt;
    SentStep(es, e, key);
    StartStep(es, e, key);
    var sent := Sent(es, key);
    assert sent[|sent|..] == [];
  }

  /** An entry that was there before, its cache and its players' logs unchanged. */
  lemma OldEntryOk(h: Hub, es: seq<Event>, e: Event, key: string, t: Stream, players: map<Writer, Player>)
    requires Inv(h, es) && key in h.streams && t.cache == h.streams[key].cache
    requires e.Send? ==> e.p.key != key
    requires t.published || t.writers != map[]
    requires forall id <- t.writers ::
               && t.writers[id].id == id && t.writers[id].key == key && t.writers[id] in players
               && players[t.writers[id]] == PlayerAt(h, t.writers[id])
               && ((id in h.streams[key].writers && t.writers[id] == h.streams[key].writers[id])
                   || !PlayerAt(h, t.writers[id]).inited)
    ensures EntryOk(es + [e], key, t, players, Sent(es + [e], key), EntryStart(es + [e], key))
  {
    hide PlayerOk;
    hide CacheOf;
    hide Sent;
    hide InitAt;
    hide Run;
    SentStep(es, e, key);
    StartStep(es, e, key);
    assert KeyOk(h, key, es);
    var sent, s := Sent(es, key), EntryStart(es, key);
    forall id <- t.writers
      ensures PlayerOk(players[t.writers[id]], sent, s, InitAt(es + [e], t.writers[id]))
    {
      var w := t.writers[id];
      if PlayerAt(h, w).inited {
        StillOk(es, e, w, sent, s);
      } else {
        EmptyOk(PlayerAt(h, w), sent, s, InitAt(es + [e], w));
      }
    }
  }

  lemma JoinKeeps(h: Hub, es: seq<Event>, w: Writer)
    requires Inv(h, es) && FairStep(h, Join(w))
    ensures Inv(AddPlayer(h, w), es + [Join(w)])
  {
    hide EntryOk;
    hide EntryStart;
    hide Run;
    RunStep(es, Join(w));
    var h' := AddPlayer(h, w);
    forall key <- h'.streams
      ensures KeyOk(h', key, es + [Join(w)])
    {
      if key in h.streams {
        KnownIds(h, es, key);
        OldEntryOk(h, es, Join(w), key, h'.streams[key], h'.players);
      } else {
        NewEntryOk(h', key, es, Join(w));
      }
    }
  }

  /** The players of an entry are registered under their own key and id. */
  lemma KnownIds(h: Hub, es: seq<Event>, key: string)
    requires Inv(h, es) && key in h.streams
    ensures h.streams[key].published || h.streams[key].writers != map[]
    ensures forall id <- h.streams[key].writers ::
              var w := h.streams[key].writers[id];
              w.id == id && w.key == key && w in h.players
  {
    hide PlayerOk;
    hide CacheOf;
    hide Run;
    hide Sent;
    assert KeyOk(h, key, es);
  }

  /** Taking players or the publisher away keeps the entry's claim. */
  lemma ShrinkKeeps(h: Hub, es: seq<Event>, e: Event, key: string, t: Stream)
    requires Inv(h, es) && !e.Send? && key in h.streams && Settle(h, key, t) == Step(h, e)
    requires t.cache == h.streams[key].cache
    requires forall id <- t.writers :: id in h.streams[key].writers && t.writers[id] == h.streams[key].writers[id]
    ensures Inv(Settle(h, key, t), es + [e])
  {
    hide EntryOk;
    hide Run;
    RunStep(es, e);
    var h' := Settle(h, key, t);
    forall k <- h'.streams
      ensures KeyOk(h', k, es + [e])
    {
      KnownIds(h, es, k);
      OldEntryOk(h, es, e, k, h'.streams[k], h'.players);
    }
  }

  lemma BeginKeeps(h: Hub, es: seq<Event>, key: string)
    requires Inv(h, es)
    ensures Inv(AddPublisher(h, key), es + [Begin(key)])
  {
    hide EntryOk;
    hide EntryStart;
    hide Run;
    RunStep(es, Begin(key));
    var h' := AddPublisher(h, key);
    forall k <- h'.streams
      ensures KeyOk(h', k, es + [Begin(key)])
    {
      if k in h.streams {
        KnownIds(h, es, k);
        OldEntryOk(h, es, Begin(key), k, h'.streams[k], h'.players);
      } else {
        NewEntryOk(h', k, es, Begin(key));
      }
    }
  }

  /** A served player that stays registered is initialised, now or before, and gap-free up to this packet. */
  lemma ServedOk(w: Writer, p: Player, sent: seq<Packet>, s: nat, n: nat, pkt: Packet)
    requires s <= |sent| && PlayerOk(p, sent, s, n)
    requires Serve(w, p, CacheOf((sent + [pkt])[s..], MIN_GOP), pkt).ok
    ensures PlayerOk(Serve(w, p, CacheOf((sent + [pkt])[s..], MIN_GOP), pkt).player, sent + [pkt], s,
                     if p.inited then n else |sent| + 1)
  {
    hide CacheOf;
    hide Backlog;
    var sent' := sent + [pkt];
    var c := CacheOf(sent'[s..], MIN_GOP);
    if p.inited {
      assert sent'[s..n] == sent[s..n] && sent'[n..] == sent[n..] + [pkt];
    } else {
      WriteAllTaken(w, p.(inited := true), Backlog(c));
      assert sent'[s..|sent'|] == sent'[s..] && sent'[|sent'|..] == [];
      assert Backlog(c) + [] == Backlog(c) && [] + Backlog(c) == Backlog(c);
    }
  }

  /** A player that takes the packet. */
  lemma ServedEntry(h: Hub, es: seq<Event>, pkt: Packet, sent: seq<Packet>, s: nat, w: Writer)
    requires h == Run(es) && sent == Sent(es, pkt.key) && s <= |sent|
    requires w.key == pkt.key && w in h.players && PlayerOk(h.players[w], sent, s, InitAt(es, w))
    requires Serve(w, h.players[w], CacheOf((sent + [pkt])[s..], MIN_GOP), pkt).ok
    ensures PlayerOk(Serve(w, h.players[w], CacheOf((sent + [pkt])[s..], MIN_GOP), pkt).player, sent + [pkt], s,
                     InitAt(es + [Send(pkt)], w))
  {
    hide Sent;
    hide Run;
    hide InitAt;
    hide Serve;
    hide CacheOf;
    hide PlayerOk;
    SentStep(es, Send(pkt), pkt.key);
    InitStep(es, Send(pkt), w);
    ServedOk(w, h.players[w], sent, s, InitAt(es, w), pkt);
  }

  /** What a packet does to the entry it is sent to. */
  lemma PublishedEntry(h: Hub, pkt: Packet)
    ensures pkt.key in Publish(h, pkt).streams
    ensures var t, t', players := StreamAt(h, pkt.key), Publish(h, pkt).streams[pkt.key], Publish(h, pkt).players;
            var c := Insert(t.cache, pkt, MIN_GOP);
            && t'.published && t'.cache == c
            && forall id <- t'.writers ::
                 && id in t.writers && t'.writers[id] == t.writers[id] && t'.writers[id] in players
                 && players[t'.writers[id]] == Serve(t.writers[id], PlayerAt(h, t.writers[id]), c, pkt).player
                 && Serve(t.writers[id], PlayerAt(h, t.writers[id]), c, pkt).ok
  {
    hide Serve;
    hide Insert;
    var t := StreamAt(h, pkt.key);
    assert forall id <- t.writers :: t.writers[id] in t.writers.Values;
  }

  /** The entry the packet was sent to. */
  lemma SendEntry(h: Hub, es: seq<Event>, pkt: Packet, sent: seq<Packet>, s: nat)
    requires h == Run(es) && sent == Sent(es, pkt.key)
    requires s <= |sent| && StreamAt(h, pkt.key).cache == CacheOf(sent[s..], MIN_GOP)
    requires forall id <- StreamAt(h, pkt.key).writers ::
               var w := StreamAt(h, pkt.key).writers[id];
               && w.id == id && w.key == pkt.key && w in h.players
               && PlayerOk(h.players[w], sent, s, InitAt(es, w))
    ensures EntryOk(es + [Send(pkt)], pkt.key, Publish(h, pkt).streams[pkt.key], Publish(h, pkt).players,
                    sent + [pkt], s)
  {
    hide Sent;
    hide Run;
    hide InitAt;
    hide Serve;
    var t := StreamAt(h, pkt.key);
    var sent' := sent + [pkt];
    assert sent'[s..][..|sent'[s..]| - 1] == sent[s..];
    assert CacheOf(sent'[s..], MIN_GOP) == Insert(t.cache, pkt, MIN_GOP);
    hide CacheOf;
    hide PlayerOk;
    SentStep(es, Send(pkt), pkt.key);
    PublishedEntry(h, pkt);
    var h' := Publish(h, pkt);
    hide Publish;
    hide Insert;
    var t' := h'.streams[pkt.key];
    forall id <- t'.writers
      ensures t'.writers[id].id == id && t'.writers[id].key == pkt.key && t'.writers[id] in h'.players
      ensures PlayerOk(h'.players[t'.writers[id]], sent', s, InitAt(es + [Send(pkt)], t'.writers[id]))
    {
      ServedEntry(h, es, pkt, sent, s, t.writers[id]);
    }
  }

  /** A packet on one key changes no player registered on another. */
  lemma OthersKept(h: Hub, es: seq<Event>, pkt: Packet, w: Writer)
    requires Inv(h, es) && w.key != pkt.key && w in h.players
    ensures w in Publish(h, pkt).players && Publish(h, pkt).players[w] == h.players[w]
  {
    hide Serve;
    hide EntryOk;
    hide Run;
    var t := StreamAt(h, pkt.key);
    if pkt.key in h.streams {
      KnownIds(h, es, pkt.key);
    }
    assert forall id <- t.writers :: t.writers[id].key == pkt.key;
    assert w !in t.writers.Values;
  }

  /** Players not initialised have got nothing; serving initialises. */
  lemma StillEmpty(h: Hub, es: seq<Event>, pkt: Packet)
    requires Inv(h, es)
    ensures forall w <- Publish(h, pkt).players ::
              !Publish(h, pkt).players[w].inited ==> Publish(h, pkt).players[w].got == []
  {
    hide KeyOk;
    hide Run;
    var c := Insert(StreamAt(h, pkt.key).cache, pkt, MIN_GOP);
    forall w <- Publish(h, pkt).players
      ensures !Publish(h, pkt).players[w].inited ==> Publish(h, pkt).players[w].got == []
    {
      WriteAllTaken(w, PlayerAt(h, w).(inited := true), Backlog(c));
    }
  }

  /** The packet's own entry, old or just created by it. */
  lemma SendToKey(h: Hub, es: seq<Event>, pkt: Packet)
    requires Inv(h, es)
    ensures KeyOk(Publish(h, pkt), pkt.key, es + [Send(pkt)])
  {
    hide Serve;
    hide PlayerOk;
    hide Run;
    hide InitAt;
    hide Publish;
    var sent := Sent(es, pkt.key);
    SentStep(es, Send(pkt), pkt.key);
    StartStep(es, Send(pkt), pkt.key);
    if pkt.key in h.streams {
      assert KeyOk(h, pkt.key, es);
    } else {
      assert sent[|sent|..] == [];
    }
    SendEntry(h, es, pkt, sent, if pkt.key in h.streams then EntryStart(es, pkt.key) else |sent|);
  }

  lemma SendKeeps(h: Hub, es: seq<Event>, pkt: Packet)
    requires Inv(h, es)
    ensures Inv(Publish(h, pkt), es + [Send(pkt)])
  {
    hide Serve;
    hide Run;
    hide EntryOk;
    hide Insert;
    RunStep(es, Send(pkt));
    var h' := Publish(h, pkt);
    forall k <- h'.streams
      ensures KeyOk(h', k, es + [Send(pkt)])
    {
      if k == pkt.key {
        SendToKey(h, es, pkt);
      } else {
        KnownIds(h, es, k);
        forall id <- h.streams[k].writers
          ensures h.streams[k].writers[id] in h'.players
          ensures h'.players[h.streams[k].writers[id]] == PlayerAt(h, h.streams[k].writers[id])
        {
          OthersKept(h, es, pkt, h.streams[k].writers[id]);
        }
        OldEntryOk(h, es, Send(pkt), k, h'.streams[k], h'.players);
      }
    }
    StillEmpty(h, es, pkt);
  }

  lemma LeaveKeeps(h: Hub, es: seq<Event>, w: Writer)
    requires Inv(h, es)
    ensures Inv(RemovePlayer(h, w), es + [Leave(w)])
  {
    hide EntryOk;
    hide Run;
    if w.key in h.streams {
      var t := h.streams[w.key];
      ShrinkKeeps(h, es, Leave(w), w.key, t.(writers := t.writers - {w.id}));
    } else {
      NothingChanges(h, es, Leave(w));
    }
  }

  lemma EndKeeps(h: Hub, es: seq<Event>, key: string)
    requires Inv(h, es)
    ensures Inv(RemovePublisher(h, key), es + [End(key)])
  {
    hide EntryOk;
    hide Run;
    if key in h.streams {
      ShrinkKeeps(h, es, End(key), key, h.streams[key].(published := false));
    } else {
      NothingChanges(h, es, End(key));
    }
  }

  lemma NothingChanges(h: Hub, es: seq<Event>, e: Event)
    requires Inv(h, es) && !e.Send? && Step(h, e) == h
    ensures Inv(h, es + [e])
  {
    hide EntryOk;
    hide Run;
    hide Step;
    RunStep(es, e);
    forall key <- h.streams
      ensures KeyOk(h, key, es + [e])
    {
      KnownIds(h, es, key);
      OldEntryOk(h, es, e, key, h.streams[key], h.players);
    }
  }

  lemma {:induction false} InvHolds(es: seq<Event>)
    requires Fair(es)
    ensures Inv(Run(es), es)
  {
    hide KeyOk;
    if es == [] {
    } else {
      var before, e := es[..|es| - 1], es[|es| - 1];
      InvHolds(before);
      assert before + [e] == es;
      var h := Run(before);
      hide Inv;
      match e
      case Join(w) => JoinKeeps(h, before, w);
      case Begin(key) => BeginKeeps(h, before, key);
      case Send(p) => SendKeeps(h, before, p);
      case Leave(w) => LeaveKeeps(h, before, w);
      case End(key) => EndKeeps(h, before, key);
    }
  }

  /**
   * A player of an entry created after s packets and initialised by the n-th packet got the last
   * metadata, video header and audio header sent from s up to then, each if it has bytes, the
   * frames of the GOP running then, and every packet sent since: all frames from position b of
   * what was sent on the key.
   */
  predicate GapFree(got: seq<Packet>, sent: seq<Packet>, s: nat, n: nat) {
    && s < n <= |sent|
    && var now := sent[s..n];
       var b := s + GopStart(now);
       && (b == s || (sent[b].avType == Video && !sent[b].isSeqHdr && sent[b].isKeyFrame))
       && (forall i | b < i < n :: !(sent[i].avType == Video && !sent[i].isSeqHdr && sent[i].isKeyFrame))
       && got == Replay(Latest(now, IsMetadata)) + Replay(Latest(now, IsVideoHeader))
               + Replay(Latest(now, IsAudioHeader)) + Frames(sent[b..n]) + sent[n..]
       && Frames(sent[b..]) == Frames(sent[b..n]) + Frames(sent[n..])
  }

  /**
   * In every run each registered, initialised player has a gap-free, duplicate-free stream from
   * the GOP that was current when it was initialised.
   */
  lemma EveryPlayerIsGapFree(es: seq<Event>, key: string, id: string)
    requires Fair(es) && key in Run(es).streams && id in Run(es).streams[key].writers
    ensures Run(es).streams[key].writers[id] in Run(es).players
    ensures var w := Run(es).streams[key].writers[id];
            Run(es).players[w].inited ==>
              GapFree(Run(es).players[w].got, Sent(es, key), EntryStart(es, key), InitAt(es, w))
  {
    hide Run;
    hide GapFree;
    InvHolds(es);
    assert KeyOk(Run(es), key, es);
    var w := Run(es).streams[key].writers[id];
    if Run(es).players[w].inited {
      TracksIsGapFree(Run(es).players[w].got, Sent(es, key), EntryStart(es, key), InitAt(es, w));
    }
  }

  /** A player is initialised by a packet on its own key: InitAt counts up to that packet. */
  lemma {:induction false} InitAtIsASend(es: seq<Event>, w: Writer)
    requires Fair(es) && PlayerAt(Run(es), w).inited
    ensures exists k: nat :: k < |es| && Initialises(es, k, w) && InitAt(es, w) == |Sent(es[..k + 1], w.key)|
    decreases |es|
  {
    if es == [] {
    } else {
      var k := |es| - 1;
      var before := es[..k];
      assert before + [es[k]] == es && Fair(before);
      InitStep(before, es[k], w);
      hide Run;
      hide InitAt;
      hide Sent;
      hide Fair;
      hide PlayerAt;
      if PlayerAt(Run(before), w).inited {
        InitAtIsASend(before, w);
        var j: nat :| j < k && Initialises(before, j, w) && InitAt(before, w) == |Sent(before[..j + 1], w.key)|;
        InitialisesInPrefix(es, k, j, w);
      } else {
        OnlyOwnPackets(before, es[k], w);
        assert es[..k + 1] == es && Initialises(es, k, w);
      }
    }
  }

  lemma InitialisesInPrefix(es: seq<Event>, k: nat, j: nat, w: Writer)
    requires j < k <= |es| && Initialises(es[..k], j, w)
    ensures Initialises(es, j, w) && es[..k][..j + 1] == es[..j + 1]
  {
    hide Run;
    assert es[..k][..j] == es[..j] && es[..k][..j + 1] == es[..j + 1] && es[..k][j] == es[j];
  }

  predicate Initialises(es: seq<Event>, k: nat, w: Writer)
    requires k < |es|
  {
    && es[k].Send? && es[k].p.key == w.key
    && !PlayerAt(Run(es[..k]), w).inited && PlayerAt(Run(es[..k + 1]), w).inited
  }

  lemma OnlyOwnPackets(es: seq<Event>, e: Event, w: Writer)
    requires Fair(es) && !PlayerAt(Run(es), w).inited && PlayerAt(Run(es + [e]), w).inited
    ensures e.Send? && e.p.key == w.key
  {
    hide Serve;
    hide EntryOk;
    var h := Run(es);
    RunStep(es, e);
    InvHolds(es);
    hide Run;
    if e.Send? && e.p.key in h.streams {
      KnownIds(h, es, e.p.key);
    }
  }

  lemma TracksIsGapFree(got: seq<Packet>, sent: seq<Packet>, s: nat, n: nat)
    requires Tracks(got, sent, s, n)
    ensures GapFree(got, sent, s, n)
  {
    hide Frames;
    hide Replay;
    hide Latest;
    GopMarks(sent, s, n);
    BacklogIs(sent[s..n]);
    hide Backlog;
    GopFrames(sent, s, n);
    hide GopStart;
    hide CacheOf;
  }

  lemma BacklogIs(ps: seq<Packet>)
    ensures Backlog(CacheOf(ps, MIN_GOP))
         == Replay(Latest(ps, IsMetadata)) + Replay(Latest(ps, IsVideoHeader)) + Replay(Latest(ps, IsAudioHeader))
          + Frames(ps[GopStart(ps)..])
  {
    CacheHoldsGop(ps);
    CacheHoldsHeaders(ps);
    hide CacheOf;
    hide Frames;
    hide Latest;
    hide GopStart;
    hide Replay;
  }

  lemma GopFrames(sent: seq<Packet>, s: nat, n: nat)
    requires s < n <= |sent|
    ensures var b := s + GopStart(sent[s..n]);
            && b <= n && sent[s..n][b - s..] == sent[b..n]
            && Frames(sent[b..]) == Frames(sent[b..n]) + Frames(sent[n..])
  {
    hide Frames;
    var b := s + GopStart(sent[s..n]);
    assert sent[s..n][b - s..] == sent[b..n];
    FramesConcat(sent[b..n], sent[n..]);
    assert sent[b..n] + sent[n..] == sent[b..];
  }

  /** The GOP starts at its last key frame. */
  lemma GopMarks(sent: seq<Packet>, s: nat, n: nat)
    requires s < n <= |sent|
    ensures var b := s + GopStart(sent[s..n]);
            && b <= n && (b == s || (b < n && sent[b].avType == Video && !sent[b].isSeqHdr && sent[b].isKeyFrame))
            && forall i | b < i < n :: !(sent[i].avType == Video && !sent[i].isSeqHdr && sent[i].isKeyFrame)
  {
    var gop := sent[s..n];
    var start := GopStart(gop);
    assert start < |gop| ==> gop[start] == sent[s + start];
    forall i | s + start < i < n
      ensures !IsKeyFrame(sent[i])
    {
      assert gop[i - s] == sent[i] && !IsKeyFrame(gop[i - s]);
    }
  }

  /** An entry exists only while it has a publisher or a player. */
  lemma {:induction false} EntryHasAReason(es: seq<Event>)
    ensures forall key <- Run(es).streams :: Run(es).streams[key].published || Run(es).streams[key].writers != map[]
    decreases |es|
  {
    if es == [] {
      assert Run(es) == NewHub;
    } else {
      var front, e := es[..|es| - 1], es[|es| - 1];
      assert Run(es) == Step(Run(front), e);
      EntryHasAReason(front);
      hide Run;
      forall key <- Run(es).streams
        ensures Run(es).streams[key].published || Run(es).streams[key].writers != map[]
      {
        ReasonStep(Run(front), e, key);
      }
    }
  }

  lemma ReasonStep(h: Hub, e: Event, key: string)
    requires key in Step(h, e).streams
    requires key in h.streams ==> h.streams[key].published || h.streams[key].writers != map[]
    ensures Step(h, e).streams[key].published || Step(h, e).streams[key].writers != map[]
  {
    if e.Join? && e.w.key == key {
      assert e.w.id in Step(h, e).streams[key].writers;
    }
  }

  /** Whether the key is published: since its last begin or packet it has not ended. */
  predicate OnAir(es: seq<Event>, key: string) {
    es != []
    && match es[|es| - 1]
       case Begin(k) => k == key || OnAir(es[..|es| - 1], key)
       case Send(p) => p.key == key || OnAir(es[..|es| - 1], key)
       case End(k) => k != key && OnAir(es[..|es| - 1], key)
       case _ => OnAir(es[..|es| - 1], key)
  }

  /** The publisher flag is up exactly while the key is published. */
  lemma {:induction false} PublishedIsOnAir(es: seq<Event>, key: string)
    ensures key in Run(es).streams && Run(es).streams[key].published <==> OnAir(es, key)
    decreases |es|
  {
    if es == [] {
      assert Run(es) == NewHub;
    } else {
      PublishedIsOnAir(es[..|es| - 1], key);
      hide Insert;
      hide Serve;
    }
  }

  // ----- players that stay -----

  predicate Registered(h: Hub, w: Writer) {
    && w.key in h.streams && w.id in h.streams[w.key].writers && h.streams[w.key].writers[w.id] == w
  }

  /** A player is registered by joining, unless its id is taken: then the other one stays. */
  lemma JoinRegisters(h: Hub, w: Writer)
    ensures w.id !in StreamAt(h, w.key).writers ==> Registered(Step(h, Join(w)), w)
    ensures forall v: Writer :: Registered(h, v) ==> Registered(Step(h, Join(w)), v)
  {
  }

  /** The network behind the player takes everything. */
  ghost predicate Reliable(w: Writer) {
    forall n: nat :: w.sink(n)
  }

  lemma {:induction false} ReliableWrites(w: Writer, s: Player, ps: seq<Packet>)
    requires Reliable(w)
    ensures WriteAll(w, s, ps).ok
    decreases |ps|
  {
    if ps == [] {
      assert WriteAll(w, s, ps).ok;
    } else {
      assert w.sink(s.tries);
      ReliableWrites(w, Write(w, s, ps[0]).player, ps[1..]);
    }
  }

  /** This event takes the player away. */
  predicate TakesAway(e: Event, w: Writer) {
    e.Leave? && e.w.key == w.key && e.w.id == w.id
  }

  lemma ReliableStep(h: Hub, e: Event, w: Writer)
    requires Reliable(w) && Registered(h, w) && !TakesAway(e, w)
    ensures Registered(Step(h, e), w)
    ensures PlayerAt(h, w).inited || (e.Send? && e.p.key == w.key) ==> PlayerAt(Step(h, e), w).inited
  {
    hide Publish;
    match e
    case Send(p) => ReliableSend(h, p, w);
    case Leave(v) => assert v.id != w.id ==> w.id in h.streams[w.key].writers - {v.id};
    case End(key) => assert w.id in h.streams[w.key].writers;
    case _ =>
  }

  lemma ReliableServed(w: Writer, s: Player, c: Cache, p: Packet)
    requires Reliable(w)
    ensures Serve(w, s, c, p).ok
  {
    hide Backlog;
    ReliableWrites(w, s.(inited := true), Backlog(c));
    assert w.sink(s.tries);
  }

  lemma ServedIsInited(w: Writer, s: Player, c: Cache, p: Packet)
    ensures Serve(w, s, c, p).player.inited
  {
    hide Backlog;
    WriteAllTaken(w, s.(inited := true), Backlog(c));
  }

  lemma ReliableSend(h: Hub, p: Packet, w: Writer)
    requires Reliable(w) && Registered(h, w)
    ensures Registered(Publish(h, p), w)
    ensures PlayerAt(h, w).inited || p.key == w.key ==> PlayerAt(Publish(h, p), w).inited
  {
    hide Serve;
    hide Insert;
    hide Reliable;
    var t := StreamAt(h, p.key);
    var c := Insert(t.cache, p, MIN_GOP);
    ServedIsInited(w, PlayerAt(h, w), c, p);
    if p.key == w.key {
      ReliableServed(w, PlayerAt(h, w), c, p);
      assert t.writers[w.id] == w && w in t.writers.Values;
    }
  }

  /** A reliable player stays registered until it leaves, and the first packet initialises it. */
  lemma {:induction false} ReliableStays(es: seq<Event>, w: Writer, later: seq<Event>)
    requires Reliable(w) && Registered(Run(es), w) && forall e <- later :: !TakesAway(e, w)
    ensures Registered(Run(es + later), w)
    ensures (exists e <- later :: e.Send? && e.p.key == w.key) ==> PlayerAt(Run(es + later), w).inited
    decreases |later|
  {
    if later == [] {
      assert es + later == es;
    } else {
      var k := |later| - 1;
      var front, e := later[..k], later[k];
      assert later == front + [e] && es + later == es + front + [e];
      ReliableStays(es, w, front);
      RunStep(es + front, e);
      ReliableStep(Run(es + front), e, w);
    }
  }

  /**
   * A reliable player that joins under a free id and does not leave has got, once a packet is
   * sent on its key, the headers, the running GOP and everything since.
   */
  lemma ReliableMissesNothing(es: seq<Event>, w: Writer, later: seq<Event>)
    requires Fair(es + [Join(w)] + later) && Reliable(w) && w.id !in StreamAt(Run(es), w.key).writers
    requires forall e <- later :: !TakesAway(e, w)
    requires exists e <- later :: e.Send? && e.p.key == w.key
    ensures var all := es + [Join(w)] + later;
            && Registered(Run(all), w) && PlayerAt(Run(all), w).inited
            && GapFree(PlayerAt(Run(all), w).got, Sent(all, w.key), EntryStart(all, w.key), InitAt(all, w))
  {
    hide GapFree;
    hide Run;
    RunStep(es, Join(w));
    JoinRegisters(Run(es), w);
    ReliableStays(es + [Join(w)], w, later);
    EveryPlayerIsGapFree(es + [Join(w)] + later, w.key, w.id);
  }

  // ----- leaving and coming back -----

  /** A player no entry holds. */
  ghost predicate Absent(h: Hub, w: Writer) {
    forall key <- h.streams :: w !in h.streams[key].writers.Values
  }

  lemma LeaveMakesAbsent(es: seq<Event>, w: Writer)
    requires Fair(es)
    ensures Absent(Run(es + [Leave(w)]), w)
    ensures PlayerAt(Run(es + [Leave(w)]), w) == PlayerAt(Run(es), w)
  {
    hide EntryOk;
    hide Inv;
    RunStep(es, Leave(w));
    InvHolds(es);
    var h := Run(es);
    hide Run;
    forall key <- h.streams
      ensures forall id <- h.streams[key].writers :: h.streams[key].writers[id] == w ==> id == w.id && key == w.key
    {
      KnownIds(h, es, key);
    }
  }

  lemma AwayStep(h: Hub, e: Event, w: Writer)
    requires Absent(h, w) && e != Join(w)
    ensures Absent(Step(h, e), w) && PlayerAt(Step(h, e), w) == PlayerAt(h, w)
  {
    hide Serve;
    match e
    case Join(v) => AwayJoin(h, v, w);
    case Send(p) => AwaySend(h, p, w);
    case _ =>
  }

  lemma AwayJoin(h: Hub, v: Writer, w: Writer)
    requires Absent(h, w) && v != w
    ensures Absent(AddPlayer(h, v), w) && PlayerAt(AddPlayer(h, v), w) == PlayerAt(h, w)
  {
    var t := StreamAt(h, v.key);
    assert w !in t.writers.Values;
  }

  lemma AwaySend(h: Hub, p: Packet, w: Writer)
    requires Absent(h, w)
    ensures Absent(Publish(h, p), w) && PlayerAt(Publish(h, p), w) == PlayerAt(h, w)
  {
    hide Serve;
    var t := StreamAt(h, p.key);
    assert w !in t.writers.Values;
  }

  /** Nothing reaches a player that is registered nowhere. */
  lemma {:induction false} NothingReachesAbsent(es: seq<Event>, away: seq<Event>, w: Writer)
    requires Absent(Run(es), w) && forall e <- away :: e != Join(w)
    ensures Absent(Run(es + away), w) && PlayerAt(Run(es + away), w) == PlayerAt(Run(es), w)
    decreases |away|
  {
    hide Run;
    hide Absent;
    hide PlayerAt;
    hide Step;
    if away == [] {
      assert es + away == es;
    } else {
      var k := |away| - 1;
      assert es + away == (es + away[..k]) + [away[k]];
      assert (forall e <- away[..k] :: e in away) && away[k] in away;
      NothingReachesAbsent(es, away[..k], w);
      RunStep(es + away[..k], away[k]);
      AwayStep(Run(es + away[..k]), away[k], w);
    }
  }

  lemma {:induction false} SentConcat(a: seq<Event>, b: seq<Event>, key: string)
    ensures Sent(a + b, key) == Sent(a, key) + Sent(b, key)
    decreases |b|
  {
    if b == [] {
      assert a + b == a;
    } else {
      var k := |b| - 1;
      assert a + b == (a + b[..k]) + [b[k]] && b[..k] + [b[k]] == b;
      SentConcat(a, b[..k], key);
      SentStep(a + b[..k], b[k], key);
      SentStep(b[..k], b[k], key);
    }
  }

  /** No packet was sent on the key. */
  predicate Silent(es: seq<Event>, key: string) {
    forall e <- es :: e.Send? ==> e.p.key != key
  }

  lemma {:induction false} SilentSendsNothing(es: seq<Event>, key: string)
    ensures Sent(es, key) == [] <==> Silent(es, key)
    decreases |es|
  {
    if es == [] {
    } else {
      var k := |es| - 1;
      SilentSendsNothing(es[..k], key);
      assert es == es[..k] + [es[k]];
    }
  }

  /**
   * A registered, initialised player leaves and joins again later. It keeps its init flag and is
   * sent no backlog, so what it has got is still gap-free if and only if no packet was sent on
   * its key while it was away.
   */
  lemma RejoinIsGapFree(es: seq<Event>, w: Writer, away: seq<Event>)
    requires Fair(es) && w.key in Run(es).streams && w.id in Run(es).streams[w.key].writers
    requires Run(es).streams[w.key].writers[w.id] == w && PlayerAt(Run(es), w).inited
    requires forall e <- away :: e != Join(w)
    ensures var all := es + [Leave(w)] + away + [Join(w)];
            && PlayerAt(Run(all), w) == PlayerAt(Run(es), w)
            && (GapFree(PlayerAt(Run(all), w).got, Sent(all, w.key), EntryStart(es, w.key), InitAt(es, w))
                <==> Silent(away, w.key))
  {
    hide GapFree;
    var left := es + [Leave(w)];
    LeaveMakesAbsent(es, w);
    NothingReachesAbsent(left, away, w);
    RunStep(left + away, Join(w));
    EveryPlayerIsGapFree(es, w.key, w.id);
    SentStep(es, Leave(w), w.key);
    SentConcat(left, away, w.key);
    SentStep(left + away, Join(w), w.key);
    SilentSendsNothing(away, w.key);
    MissedIsAGap(PlayerAt(Run(es), w).got, Sent(es, w.key), Sent(away, w.key), EntryStart(es, w.key), InitAt(es, w));
  }

  lemma MissedIsAGap(got: seq<Packet>, sent: seq<Packet>, missed: seq<Packet>, s: nat, n: nat)
    requires GapFree(got, sent, s, n)
    ensures GapFree(got, sent + missed, s, n) <==> missed == []
  {
    hide Latest;
    hide Frames;
    hide Replay;
    if missed == [] {
      assert sent + missed == sent;
    } else {
      assert (sent + missed)[s..n] == sent[s..n];
      assert (sent + missed)[n..] == sent[n..] + missed;
      var b := s + GopStart(sent[s..n]);
      assert (sent + missed)[b..n] == sent[b..n];
    }
  }

  /** One published entry, with or without the player, which has got these packets. */
  predicate Alone(h: Hub, w: Writer, registered: bool, got: seq<Packet>) {
    && h.streams.Keys == {w.key} && h.streams[w.key].published
    && h.streams[w.key].writers == (if registered then map[w.id := w] else map[])
    && w in h.players && h.players[w].inited && h.players[w].got == got
  }

  lemma FirstPacket(w: Writer, a: Packet)
    requires w.sink(0) && IsFrame(a) && a.key == w.key
    ensures Alone(Publish(AddPlayer(NewHub, w), a), w, true, [a])
  {
    hide Insert;
    hide Serve;
    FirstServed(w, a);
    var h := AddPlayer(NewHub, w);
    assert h == Hub(map[w.key := NewStream.(writers := map[w.id := w])], map[w := NewPlayer]);
    PublishedEntry(h, a);
  }

  lemma FirstServed(w: Writer, a: Packet)
    requires w.sink(0) && IsFrame(a)
    ensures var r := Serve(w, NewPlayer, Insert(EmptyCache, a, MIN_GOP), a);
            r.ok && r.player.inited && r.player.got == [a]
  {
    assert Backlog(Insert(EmptyCache, a, MIN_GOP)) == [a];
    hide Backlog;
    hide Insert;
    assert WriteAll(w, NewPlayer.(inited := true), [a]).player.got == [a];
  }

  lemma GoesAway(h: Hub, w: Writer, got: seq<Packet>)
    requires Alone(h, w, true, got)
    ensures Alone(RemovePlayer(h, w), w, false, got)
  {
  }

  lemma ComesBack(h: Hub, w: Writer, got: seq<Packet>)
    requires Alone(h, w, false, got)
    ensures Alone(AddPlayer(h, w), w, true, got)
  {
  }

  lemma NobodyListens(h: Hub, w: Writer, got: seq<Packet>, p: Packet)
    requires Alone(h, w, false, got) && p.key == w.key
    ensures Alone(Publish(h, p), w, false, got)
  {
    hide Insert;
    hide Serve;
  }

  lemma NextPacket(h: Hub, w: Writer, got: seq<Packet>, p: Packet)
    requires Alone(h, w, true, got) && p.key == w.key && w.sink(h.players[w].tries)
    ensures Alone(Publish(h, p), w, true, got + [p])
  {
    hide Insert;
    hide WriteAll;
    assert w in h.streams[w.key].writers.Values by {
      assert w.id in h.streams[w.key].writers;
    }
  }

  /** Such a run: of the frames a, b and c sent on its key the player takes a and c. */
  lemma RejoinMisses(w: Writer, a: Packet, b: Packet, c: Packet)
    requires forall n: nat :: w.sink(n)
    requires IsFrame(a) && a.key == w.key && b.key == w.key && c.key == w.key
    ensures var es := [Join(w), Send(a), Leave(w), Send(b), Join(w), Send(c)];
            && PlayerAt(Run(es), w).inited && PlayerAt(Run(es), w).got == [a, c]
            && Sent(es, w.key) == [a, b, c]
  {
    hide AddPlayer;
    hide RemovePlayer;
    hide Publish;
    var es := [Join(w), Send(a), Leave(w), Send(b), Join(w), Send(c)];
    FirstPacket(w, a);
    var h2 := Publish(AddPlayer(NewHub, w), a);
    GoesAway(h2, w, [a]);
    var h3 := RemovePlayer(h2, w);
    NobodyListens(h3, w, [a], b);
    var h4 := Publish(h3, b);
    ComesBack(h4, w, [a]);
    var h5 := AddPlayer(h4, w);
    NextPacket(h5, w, [a], c);
    hide Alone;
    RunOfSix(es[0], es[1], es[2], es[3], es[4], es[5]);
    SentOfSix(w, a, b, c);
    assert Run(es) == Publish(h5, c);
    assert PlayerAt(Publish(h5, c), w).inited && PlayerAt(Publish(h5, c), w).got == [a, c] by {
      assert [a] + [c] == [a, c];
      AloneGot(Publish(h5, c), w, [a, c]);
    }
  }

  lemma AloneGot(h: Hub, w: Writer, got: seq<Packet>)
    requires Alone(h, w, true, got)
    ensures PlayerAt(h, w).inited && PlayerAt(h, w).got == got
  {
  }

  lemma RunOfSix(a: Event, b: Event, c: Event, d: Event, e: Event, f: Event)
    ensures Run([a, b, c, d, e, f]) == Step(Step(Step(Step(Step(Step(NewHub, a), b), c), d), e), f)
  {
    hide Step;
    assert [] + [a] == [a] && [a] + [b] == [a, b] && [a, b] + [c] == [a, b, c];
    assert [a, b, c] + [d] == [a, b, c, d] && [a, b, c, d] + [e] == [a, b, c, d, e];
    assert [a, b, c, d, e] + [f] == [a, b, c, d, e, f];
    RunStep([], a);
    RunStep([a], b);
    RunStep([a, b], c);
    RunStep([a, b, c], d);
    RunStep([a, b, c, d], e);
    RunStep([a, b, c, d, e], f);
  }

  lemma SentOfSix(w: Writer, a: Packet, b: Packet, c: Packet)
    requires a.key == w.key && b.key == w.key && c.key == w.key
    ensures Sent([Join(w), Send(a), Leave(w), Send(b), Join(w), Send(c)], w.key) == [a, b, c]
  {
    assert [] + [Join(w)] == [Join(w)];
    SentStep([], Join(w), w.key);
    SentStep([Join(w)], Send(a), w.key);
    SentStep([Join(w)] + [Send(a)], Leave(w), w.key);
    SentStep([Join(w)] + [Send(a)] + [Leave(w)], Send(b), w.key);
    SentStep([Join(w)] + [Send(a)] + [Leave(w)] + [Send(b)], Join(w), w.key);
    SentStep([Join(w)] + [Send(a)] + [Leave(w)] + [Send(b)] + [Join(w)], Send(c), w.key);
    assert [Join(w)] + [Send(a)] + [Leave(w)] + [Send(b)] + [Join(w)] + [Send(c)]
        == [Join(w), Send(a), Leave(w), Send(b), Join(w), Send(c)];
  }
}
