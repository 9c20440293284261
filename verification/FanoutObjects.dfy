/** gop_cache, media_stream and media_stream_manager as objects, proved against Fanout. */
module FanoutObjects {
  import opened Fanout

  lemma {:induction false} WriteAllConcat(w: Writer, s: Player, a: seq<Packet>, b: seq<Packet>)
    ensures WriteAll(w, s, a + b)
         == var r := WriteAll(w, s, a); if r.ok then WriteAll(w, r.player, b) else r
    decreases |a|
  {
    if a == [] {
      assert a + b == b;
    } else {
      assert (a + b)[1..] == a[1..] + b;
      WriteAllConcat(w, Write(w, s, a[0]).player, a[1..], b);
    }
  }

  class GopCache {
    var packetList: seq<Packet>
    var videoHdr: Header
    var audioHdr: Header
    var metadataHdr: Header
    const minGop: nat
    var gopCount: nat

    constructor (minGop: nat)
      ensures View() == EmptyCache && this.minGop == minGop
    {
      packetList, videoHdr, audioHdr, metadataHdr := [], Missing, Missing, Missing;
      this.minGop, gopCount := minGop, 0;
    }

    function View(): Cache
      reads this
    {
      Cache(packetList, videoHdr, audioHdr, metadataHdr, gopCount)
    }

    method InsertPacket(p: Packet) returns (ret: int)
      requires minGop > 0
      modifies this
      ensures View() == Insert(old(View()), p, minGop)
      ensures ret == if p.avType == Unknown then -1 else |packetList|
    {
      if p.avType == Video {
        if p.isSeqHdr {
          videoHdr := Held(p);
          return |packetList|;
        }
        if p.isKeyFrame {
          gopCount := (gopCount + 1) % 0x1_0000_0000;
          if gopCount % minGop == 0 {
            packetList := [];
          }
        }
      } else if p.avType == Audio {
        if p.isSeqHdr {
          audioHdr := Held(p);
          return |packetList|;
        }
      } else if p.avType == Metadata {
        metadataHdr := Held(p);
        return |packetList|;
      } else {
        return -1;
      }
      packetList := packetList + [p];
      return |packetList|;
    }

    /** Sends one held header, unless it is empty. */
    method SendHeader(h: Header, w: Writer) returns (ret: int)
      modifies w
      ensures var r := WriteAll(w, old(w.State()), Replay(h));
              w.State() == r.player && (ret < 0 <==> !r.ok)
    {
      ret := 0;
      if h.Held? && h.pkt.body != [] {
        ret := w.WritePacket(h.pkt);
      }
    }

    method WriterGop(w: Writer) returns (ret: int)
      modifies w
      ensures var r := WriteAll(w, old(w.State()), Backlog(View()));
              w.State() == r.player && (ret < 0 <==> !r.ok)
    {
      hide WriteAll;
      hide Replay;
      ghost var s := w.State();
      var c := View();
      WriteAllConcat(w, s, Headers(c), c.frames);
      WriteAllConcat(w, s, Replay(c.metadata) + Replay(c.video), Replay(c.audio));
      WriteAllConcat(w, s, Replay(c.metadata), Replay(c.video));
      ret := SendHeader(metadataHdr, w);
      if ret < 0 {
        return;
      }
      ret := SendHeader(videoHdr, w);
      if ret < 0 {
        return;
      }
      ret := SendHeader(audioHdr, w);
      if ret < 0 {
        return;
      }
      ret := SendList(w, packetList);
    }

    method SendList(w: Writer, ps: seq<Packet>) returns (ret: int)
      modifies w
      ensures var r := WriteAll(w, old(w.State()), ps);
              w.State() == r.player && (ret < 0 <==> !r.ok)
    {
      ret := 0;
      for i := 0 to |ps|
        invariant ret >= 0
        invariant WriteAll(w, old(w.State()), ps) == WriteAll(w, w.State(), ps[i..])
      {
        assert ps[i..][1..] == ps[i + 1..];
        ret := w.WritePacket(ps[i]);
        if ret < 0 {
          return;
        }
      }
    }
  }

  /** The players of a stream after it sends p, and whether one stays registered. */
  function Served(t: Stream, players: map<Writer, Player>, p: Packet): map<Writer, Player>
    requires t.writers.Values <= players.Keys
  {
    map w | w in t.writers.Values :: Serve(w, players[w], t.cache, p).player
  }

  predicate Kept(t: Stream, players: map<Writer, Player>, p: Packet, w: Writer)
    requires w in players
  {
    Serve(w, players[w], t.cache, p).ok
  }

  function Ids(ws: seq<Writer>): set<string> {
    set w | w in ws :: w.id
  }

  class MediaStream {
    var published: bool
    const cache: GopCache
    var writers: map<string, Writer>

    constructor ()
      ensures View() == NewStream && cache.minGop == MIN_GOP && fresh(cache)
    {
      published, writers := false, map[];
      cache := new GopCache(MIN_GOP);
    }

    function View(): Stream
      reads this, cache
    {
      Stream(published, cache.View(), writers)
    }

    method SetWriters(writers: map<string, Writer>)
      modifies `writers
      ensures View() == old(View()).(writers := writers)
    {
      this.writers := writers;
    }

    /** Each player is known by its own id. */
    predicate Keyed()
      reads this
    {
      forall id <- writers :: writers[id].id == id
    }

    method Serve(w: Writer, p: Packet) returns (ret: int)
      modifies w
      ensures var r := Fanout.Serve(w, old(w.State()), cache.View(), p);
              w.State() == r.player && (ret < 0 <==> !r.ok)
    {
      hide WriteAll;
      if !w.inited {
        w.inited := true;
        ret := cache.WriterGop(w);
      } else {
        ret := w.WritePacket(p);
      }
    }

    /** Serves every player, in any order, and collects those whose write failed. */
    method ServeAll(p: Packet) returns (failed: seq<Writer>)
      requires Keyed()
      modifies writers.Values
      ensures forall id <- writers ::
                writers[id].State() == Fanout.Serve(writers[id], old(writers[id].State()), cache.View(), p).player
      ensures forall w <- failed :: w in writers.Values
      ensures forall id <- writers ::
                writers[id] in failed <==> !Fanout.Serve(writers[id], old(writers[id].State()), cache.View(), p).ok
    {
      hide Fanout.Serve;
      failed := [];
      var todo := writers.Keys;
      while todo != {}
        invariant todo <= writers.Keys
        invariant forall id <- todo :: writers[id].State() == old(writers[id].State())
        invariant forall id <- writers.Keys - todo ::
                    writers[id].State() == Fanout.Serve(writers[id], old(writers[id].State()), cache.View(), p).player
        invariant forall w <- failed :: w in writers.Values && w.id !in todo
        invariant forall id <- writers.Keys - todo ::
                    writers[id] in failed <==> !Fanout.Serve(writers[id], old(writers[id].State()), cache.View(), p).ok
      {
        var id :| id in todo;
        var w := writers[id];
        var ret := Serve(w, p);
        if ret < 0 {
          failed := failed + [w];
        }
        todo := todo - {id};
      }
    }
  }

  class Manager {
    var streams: map<string, MediaStream>
    ghost var known: set<Writer>

    ghost function Repr(): set<object>
      reads this
    {
      streams.Values + (set k | k in streams :: streams[k].cache as object) + known
    }

    ghost predicate Valid()
      reads this, streams.Values
    {
      && (forall j, k | j in streams && k in streams && j != k ::
            streams[j] != streams[k] && streams[j].cache != streams[k].cache)
      && forall k <- streams ::
           && streams[k].cache.minGop == MIN_GOP
           && forall id <- streams[k].writers ::
                var w := streams[k].writers[id]; w.id == id && w.key == k && w in known
    }

    ghost function Streams(): map<string, Stream>
      reads `streams, streams.Values, set k | k in streams :: streams[k].cache
    {
      map k | k in streams :: streams[k].View()
    }

    ghost function Players(): map<Writer, Player>
      reads `known, known
    {
      map w | w in known :: w.State()
    }

    ghost function View(): Hub
      reads this, Repr()
    {
      Hub(Streams(), Players())
    }

    constructor ()
      ensures Valid() && View() == NewHub
    {
      streams, known := map[], {};
    }

    /** The entry of a key, made if missing. */
    method Entry(key: string) returns (t: MediaStream)
      requires Valid()
      modifies `streams
      ensures Valid() && streams == old(streams)[key := t]
      ensures (key in old(streams) && streams == old(streams)) || (fresh(t) && fresh(t.cache))
      ensures Streams() == old(Streams())[key := t.View()] && t.View() == StreamIn(old(Streams()), key)
    {
      if key in streams {
        t := streams[key];
        assert streams == streams[key := t];
      } else {
        t := new MediaStream();
        streams := streams[key := t];
      }
    }

    method InsertWriter(key: string, t: MediaStream, w: Writer)
      requires Valid() && key in streams && t == streams[key] && w.key == key && w in known
      modifies t`writers
      ensures Valid() && Players() == old(Players())
      ensures Streams() == old(Streams())[key := old(t.View()).(writers := old(t.writers)[w.id := w])]
    {
      SetWriters(key, t, t.writers[w.id := w]);
    }

    method SetWriters(key: string, t: MediaStream, writers: map<string, Writer>)
      requires Valid() && key in streams && t == streams[key]
      requires forall id <- writers :: writers[id].id == id && writers[id].key == key && writers[id] in known
      modifies t`writers
      ensures Valid() && Players() == old(Players())
      ensures Streams() == old(Streams())[key := old(t.View()).(writers := writers)]
    {
      t.SetWriters(writers);
    }

    method EraseWriter(key: string, t: MediaStream, id: string)
      requires Valid() && key in streams && t == streams[key]
      modifies t`writers
      ensures Valid() && Players() == old(Players())
      ensures Streams() == old(Streams())[key := old(t.View()).(writers := old(t.writers) - {id})]
    {
      SetWriters(key, t, t.writers - {id});
    }

    method SetPublished(key: string, t: MediaStream, published: bool)
      requires Valid() && key in streams && t == streams[key]
      modifies t`published
      ensures Valid() && Players() == old(Players())
      ensures Streams() == old(Streams())[key := t.View()] && t.View() == old(t.View()).(published := published)
    {
      t.published := published;
    }

    ghost method Know(w: Writer)
      requires Valid() && (w in known || w.State() == NewPlayer)
      modifies `known
      ensures Valid() && Streams() == old(Streams()) && known == old(known) + {w}
      ensures Players() == old(Players())[w := PlayerAt(old(View()), w)]
    {
      known := known + {w};
    }

    lemma Rewrite(m: map<string, Stream>, k: string, a: Stream, b: Stream)
      ensures m[k := a][k := b] == m[k := b]
    {
    }

    lemma JoinAgrees(h: Hub, w: Writer)
      ensures var t := StreamAt(h, w.key);
              Fanout.AddPlayer(h, w) == Hub(h.streams[w.key := if w.id in t.writers then t
                                                               else t.(writers := t.writers[w.id := w])],
                                            h.players[w := PlayerAt(h, w)])
    {
    }

    method AddPlayer(w: Writer) returns (n: int)
      requires Valid() && (w in known || w.State() == NewPlayer)
      modifies this, streams.Values
      ensures Valid() && View() == Fanout.AddPlayer(old(View()), w)
    {
      hide PlayerAt;
      hide StreamIn;
      hide Fanout.AddPlayer;
      Know(w);
      JoinAgrees(old(View()), w);
      n := Register(w);
    }

    method Register(w: Writer) returns (n: int)
      requires Valid() && w in known
      modifies `streams, streams.Values
      ensures Valid() && Players() == old(Players())
      ensures var t := StreamIn(old(Streams()), w.key);
              Streams() == old(Streams())[w.key := if w.id in t.writers then t
                                                   else t.(writers := t.writers[w.id := w])]
    {
      hide StreamIn;
      var t := Entry(w.key);
      if w.id !in t.writers {
        Rewrite(old(Streams()), w.key, t.View(), t.View().(writers := t.writers[w.id := w]));
        InsertWriter(w.key, t, w);
      }
      n := |t.writers|;
    }

    method AddPublisher(key: string) returns (t: MediaStream)
      requires Valid()
      modifies this, streams.Values
      ensures Valid() && View() == Fanout.AddPublisher(old(View()), key)
      ensures key in streams && t == streams[key] && known == old(known)
      ensures t.View() == StreamAt(old(View()), key).(published := true) && Streams() == old(Streams())[key := t.View()]
      ensures streams == old(streams)[key := t] && (streams == old(streams) || (fresh(t) && fresh(t.cache)))
    {
      hide StreamIn;
      t := Entry(key);
      Rewrite(old(Streams()), key, t.View(), t.View().(published := true));
      SetPublished(key, t, true);
    }

    /** Erases the entry once neither players nor a publisher are left. */
    method Settle(key: string)
      requires Valid() && key in streams
      modifies `streams
      ensures Valid() && Players() == old(Players())
      ensures forall k <- streams :: k in old(streams) && streams[k] == old(streams[k])
      ensures Streams() == if !old(streams[key]).published && old(streams[key]).writers == map[]
                           then old(Streams()) - {key} else old(Streams())
    {
      var t := streams[key];
      if t.writers == map[] && !t.published {
        streams := streams - {key};
      }
    }

    method RemovePlayer(w: Writer)
      requires Valid()
      modifies this, streams.Values
      ensures Valid() && known == old(known) && Players() == old(Players())
      ensures forall k <- streams :: k in old(streams) && streams[k] == old(streams[k])
      ensures Streams() == Fanout.RemovePlayer(old(View()), w).streams
    {
      hide Fanout.RemovePlayer;
      ghost var h := View();
      RemoveAgrees(h, w);
      if w.key in streams {
        EraseWriter(w.key, streams[w.key], w.id);
        Settle(w.key);
      }
    }

    lemma RemoveAgrees(h: Hub, w: Writer)
      ensures Fanout.RemovePlayer(h, w) == h.(streams := Fanout.RemovePlayer(h, w).streams)
      ensures w.key !in h.streams ==> Fanout.RemovePlayer(h, w).streams == h.streams
      ensures w.key in h.streams ==>
                var t := h.streams[w.key].(writers := h.streams[w.key].writers - {w.id});
                Fanout.RemovePlayer(h, w).streams ==
                if !t.published && t.writers == map[] then h.streams[w.key := t] - {w.key} else h.streams[w.key := t]
    {
    }

    method RemovePublisher(key: string)
      requires Valid()
      modifies this, streams.Values
      ensures Valid() && known == old(known) && Players() == old(Players())
      ensures Streams() == Fanout.RemovePublisher(old(View()), key).streams
    {
      hide Fanout.RemovePublisher;
      ghost var h := View();
      EndAgrees(h, key);
      if key in streams {
        SetPublished(key, streams[key], false);
        Settle(key);
      }
    }

    lemma EndAgrees(h: Hub, key: string)
      ensures Fanout.RemovePublisher(h, key) == h.(streams := Fanout.RemovePublisher(h, key).streams)
      ensures key !in h.streams ==> Fanout.RemovePublisher(h, key).streams == h.streams
      ensures key in h.streams ==>
                var t := h.streams[key].(published := false);
                Fanout.RemovePublisher(h, key).streams ==
                if !t.published && t.writers == map[] then h.streams[key := t] - {key} else h.streams[key := t]
    {
    }

    method CachePacket(key: string, t: MediaStream, p: Packet)
      requires Valid() && key in streams && t == streams[key]
      modifies t.cache
      ensures Valid() && Players() == old(Players())
      ensures Streams() == old(Streams())[key := t.View()]
      ensures t.View() == old(t.View()).(cache := Insert(old(t.cache.View()), p, MIN_GOP))
    {
      var _ := t.cache.InsertPacket(p);
    }

    method ServePlayers(key: string, t: MediaStream, p: Packet) returns (failed: seq<Writer>)
      requires Valid() && key in streams && t == streams[key]
      modifies t.writers.Values
      ensures Valid() && Streams() == old(Streams())
      ensures Players() == old(Players()) + Served(t.View(), old(Players()), p)
      ensures forall w <- failed :: w in t.writers.Values
      ensures forall id <- t.writers :: t.writers[id] in failed <==> !Kept(t.View(), old(Players()), p, t.writers[id])
    {
      hide Fanout.Serve;
      failed := t.ServeAll(p);
    }

    /** Removing the failed players of a published entry one by one. */
    method RemoveFailed(key: string, failed: seq<Writer>, ghost t: Stream)
      requires Valid() && key in streams && t == streams[key].View() && t.published
      requires forall w <- failed :: w.key == key
      modifies this, streams.Values
      ensures Valid() && known == old(known) && Players() == old(Players())
      ensures Streams() == old(Streams())[key := t.(writers := t.writers - Ids(failed))]
    {
      hide Fanout.RemovePlayer;
      hide Ids;
      ghost var s := Streams();
      NoIds(t.writers);
      assert failed[..0] == [];
      for i := 0 to |failed|
        invariant Valid() && known == old(known) && Players() == old(Players())
        invariant forall k <- streams :: k in old(streams) && streams[k] == old(streams[k])
        invariant Streams() == s[key := t.(writers := t.writers - Ids(failed[..i]))]
      {
        RemoveOne(View(), s, failed, i, t);
        RemovePlayer(failed[i]);
      }
      assert failed[..|failed|] == failed;
    }

    lemma RemoveOne(h: Hub, s: map<string, Stream>, failed: seq<Writer>, i: nat, t: Stream)
      requires i < |failed| && t.published
      requires h.streams == s[failed[i].key := t.(writers := t.writers - Ids(failed[..i]))]
      ensures Fanout.RemovePlayer(h, failed[i]).streams
           == s[failed[i].key := t.(writers := t.writers - Ids(failed[..i + 1]))]
    {
      hide Ids;
      IdsStep(failed, i, t.writers);
      var key := failed[i].key;
      Rewrite(s, key, t.(writers := t.writers - Ids(failed[..i])), t.(writers := t.writers - Ids(failed[..i + 1])));
    }

    lemma NoIds(ws: map<string, Writer>)
      ensures ws - Ids([]) == ws
    {
    }

    lemma IdsStep(failed: seq<Writer>, i: nat, ws: map<string, Writer>)
      requires i < |failed|
      ensures ws - Ids(failed[..i]) - {failed[i].id} == ws - Ids(failed[..i + 1])
    {
    }

    /** The stream a packet is sent to, as its players are served. */
    ghost function Sending(h: Hub, p: Packet): Stream {
      StreamAt(h, p.key).(published := true, cache := Insert(StreamAt(h, p.key).cache, p, MIN_GOP))
    }

    lemma SendingIsPublished(h: Hub, p: Packet)
      ensures Sending(h, p).published
    {
    }

    method Cached(p: Packet) returns (t: MediaStream)
      requires Valid()
      modifies this, Repr()
      ensures Valid() && known == old(known) && Players() == old(Players())
      ensures p.key in streams && t == streams[p.key] && t.View() == Sending(old(View()), p)
      ensures streams == old(streams)[p.key := t] && (streams == old(streams) || fresh(t))
      ensures Streams() == old(Streams())[p.key := t.View()]
    {
      hide Insert;
      hide StreamIn;
      ghost var h := View();
      t := AddPublisher(p.key);
      ghost var before := t.View();
      CachePacket(p.key, t, p);
      Rewrite(h.streams, p.key, before, t.View());
    }

    /** writer_media_packet. */
    method WriterMediaPacket(p: Packet)
      requires Valid()
      modifies this, Repr()
      ensures Valid() && View() == Publish(old(View()), p)
    {
      hide Fanout.Serve;
      hide Publish;
      hide Sending;
      hide Served;
      hide Kept;
      hide Ids;
      ghost var h := View();
      var t := Cached(p);
      var failed := ServePlayers(p.key, t, p);
      PublishAgrees(h, p, t.View(), failed);
      SendingIsPublished(h, p);
      ghost var sent := t.View();
      Rewrite(h.streams, p.key, sent, sent.(writers := sent.writers - Ids(failed)));
      RemoveFailed(p.key, failed, sent);
    }

    lemma PublishAgrees(h: Hub, p: Packet, t: Stream, failed: seq<Writer>)
      requires t == Sending(h, p)
      requires t.writers.Values <= h.players.Keys
      requires forall id <- t.writers :: t.writers[id].id == id
      requires forall w <- failed :: w in t.writers.Values
      requires forall id <- t.writers :: t.writers[id] in failed <==> !Kept(t, h.players, p, t.writers[id])
      ensures Publish(h, p) == Hub(h.streams[p.key := t.(writers := t.writers - Ids(failed))],
                                   h.players + Served(t, h.players, p))
    {
      hide Fanout.Serve;
      hide Insert;
      var kept := t.writers - Ids(failed);
      forall id <- t.writers ensures id in kept <==> Kept(t, h.players, p, t.writers[id]) {
        if id in Ids(failed) {
          var w :| w in failed && w.id == id;
        }
      }
      assert Publish(h, p).streams[p.key].writers == kept;
      assert Publish(h, p).players == h.players + Served(t, h.players, p);
    }
  }
}
