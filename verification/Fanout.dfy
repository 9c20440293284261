/**
 * The publish/join/leave state machine of utils/av/media_stream_manager.cpp with the
 * late-join cache of utils/av/gop_cache.cpp, as functions on values, and what every run of
 * it keeps. FanoutObjects.dfy holds the imperative code.
 */
module Fanout {
  datatype MediaType = Unknown | Video | Audio | Metadata

  datatype Packet = Packet(key: string, avType: MediaType, isSeqHdr: bool, isKeyFrame: bool, body: seq<int>)

  datatype Header = Missing | Held(pkt: Packet)

  /** gop_cache: the frames since the last boundary and the three headers. */
  datatype Cache = Cache(frames: seq<Packet>, video: Header, audio: Header, metadata: Header, gopCount: nat)

  const EmptyCache := Cache([], Missing, Missing, Missing, 0)

  /** An audio or video packet that is not a sequence header. */
  predicate IsFrame(p: Packet) {
    (p.avType == Video || p.avType == Audio) && !p.isSeqHdr
  }

  predicate IsKeyFrame(p: Packet) {
    p.avType == Video && !p.isSeqHdr && p.isKeyFrame
  }

  /** insert_packet, for a cache that is cleared at every minGop-th key frame. */
  function Insert(c: Cache, p: Packet, minGop: nat): Cache
    requires minGop > 0
  {
    if p.avType == Video && p.isSeqHdr then c.(video := Held(p))
    else if p.avType == Audio && p.isSeqHdr then c.(audio := Held(p))
    else if p.avType == Metadata then c.(metadata := Held(p))
    else if p.avType == Unknown then c
    else if IsKeyFrame(p) then
      var n := (c.gopCount + 1) % 0x1_0000_0000;
      c.(gopCount := n, frames := (if n % minGop == 0 then [] else c.frames) + [p])
    else c.(frames := c.frames + [p])
  }

  function CacheOf(ps: seq<Packet>, minGop: nat): Cache
    requires minGop > 0
  {
    if ps == [] then EmptyCache else Insert(CacheOf(ps[..|ps| - 1], minGop), ps[|ps| - 1], minGop)
  }

  /** A header is replayed only when it has bytes. */
  function Replay(h: Header): (r: seq<Packet>)
    ensures h.Held? && |h.pkt.body| > 0 ==> r == [h.pkt]
    ensures h.Missing? || |h.pkt.body| == 0 ==> |r| == 0
  {
    if h.Held? && h.pkt.body != [] then [h.pkt] else []
  }

  function Headers(c: Cache): seq<Packet> {
    Replay(c.metadata) + Replay(c.video) + Replay(c.audio)
  }

  /** What writer_gop sends: the headers, then the frames. */
  function Backlog(c: Cache): seq<Packet> {
    Headers(c) + c.frames
  }

  // ----- players -----

  /** A player. Whether its n-th write succeeds is up to the network behind it. */
  class Writer {
    const key: string
    const id: string
    const sink: nat -> bool
    var inited: bool
    var got: seq<Packet>
    var tries: nat

    constructor (key: string, id: string, sink: nat -> bool)
      ensures this.key == key && this.id == id && this.sink == sink
      ensures State() == NewPlayer
    {
      this.key, this.id, this.sink := key, id, sink;
      inited, got, tries := false, [], 0;
    }

    function State(): Player
      reads this
    {
      Player(inited, got, tries)
    }

    method WritePacket(p: Packet) returns (ret: int)
      modifies `got, `tries
      ensures var r := Write(this, old(State()), p);
              State() == r.player && (ret < 0 <==> !r.ok)
    {
      ret := if sink(tries) then 0 else -1;
      tries := tries + 1;
      if ret == 0 {
        got := got + [p];
      }
    }
  }

  /** The packets a player has taken, and how many were offered. */
  datatype Player = Player(inited: bool, got: seq<Packet>, tries: nat)

  const NewPlayer := Player(false, [], 0)

  /** A write and whether it succeeded. */
  datatype Written = Written(player: Player, ok: bool)

  function Write(w: Writer, s: Player, p: Packet): Written {
    if w.sink(s.tries) then Written(s.(tries := s.tries + 1, got := s.got + [p]), true)
    else Written(s.(tries := s.tries + 1), false)
  }

  /** Writes in order, giving up at the first failure. */
  function WriteAll(w: Writer, s: Player, ps: seq<Packet>): Written
    decreases |ps|
  {
    if ps == [] then Written(s, true)
    else
      var r := Write(w, s, ps[0]);
      if r.ok then WriteAll(w, r.player, ps[1..]) else r
  }

  /** What one player gets for a published packet: the backlog first time, else the packet. */
  function Serve(w: Writer, s: Player, c: Cache, p: Packet): Written {
    if s.inited then Write(w, s, p) else WriteAll(w, s.(inited := true), Backlog(c))
  }

  // ----- the manager -----

  datatype Stream = Stream(published: bool, cache: Cache, writers: map<string, Writer>)

  const NewStream := Stream(false, EmptyCache, map[])

  /** media_streams_map_ and the players it may write to. */
  datatype Hub = Hub(streams: map<string, Stream>, players: map<Writer, Player>)

  function StreamIn(streams: map<string, Stream>, key: string): Stream {
    if key in streams then streams[key] else NewStream
  }

  function StreamAt(h: Hub, key: string): Stream {
    StreamIn(h.streams, key)
  }

  function PlayerAt(h: Hub, w: Writer): Player {
    if w in h.players then h.players[w] else NewPlayer
  }

  /** An id already present keeps its player. */
  function AddPlayer(h: Hub, w: Writer): Hub {
    var t := StreamAt(h, w.key);
    h.(streams := h.streams[w.key := if w.id in t.writers then t else t.(writers := t.writers[w.id := w])],
       players := h.players[w := PlayerAt(h, w)])
  }

  /** An entry without publisher and players is dropped. */
  function Settle(h: Hub, key: string, t: Stream): Hub {
    if !t.published && t.writers == map[] then h.(streams := h.streams - {key})
    else h.(streams := h.streams[key := t])
  }

  function RemovePlayer(h: Hub, w: Writer): Hub {
    if w.key !in h.streams then h
    else
      var t := h.streams[w.key];
      Settle(h, w.key, t.(writers := t.writers - {w.id}))
  }

  function AddPublisher(h: Hub, key: string): Hub {
    h.(streams := h.streams[key := StreamAt(h, key).(published := true)])
  }

  function RemovePublisher(h: Hub, key: string): Hub {
    if key !in h.streams then h
    else
      Settle(h, key, h.streams[key].(published := false))
  }

  /** The stream's cache serves late joiners of this program with one GOP. */
  const MIN_GOP := 1

  /** writer_media_packet: every registered player is served; a failed one is dropped. */
  function Publish(h: Hub, p: Packet): Hub {
    var t := StreamAt(h, p.key);
    var c := Insert(t.cache, p, MIN_GOP);
    var kept := map id | id in t.writers && Serve(t.writers[id], PlayerAt(h, t.writers[id]), c, p).ok :: t.writers[id];
    var served := map w | w in t.writers.Values :: Serve(w, PlayerAt(h, w), c, p).player;
    h.(streams := h.streams[p.key := Stream(true, c, kept)], players := h.players + served)
  }

  // ----- runs -----

  datatype Event =
    | Join(w: Writer)
    | Leave(w: Writer)
    | Begin(key: string)
    | End(key: string)
    | Send(p: Packet)

  function Step(h: Hub, e: Event): Hub {
    match e
    case Join(w) => AddPlayer(h, w)
    case Leave(w) => RemovePlayer(h, w)
    case Begin(key) => AddPublisher(h, key)
    case End(key) => RemovePublisher(h, key)
    case Send(p) => Publish(h, p)
  }

  const NewHub := Hub(map[], map[])

  function Run(es: seq<Event>): Hub {
    if es == [] then NewHub else Step(Run(es[..|es| - 1]), es[|es| - 1])
  }

  /** The packets sent on a key in a run. */
  function Sent(es: seq<Event>, key: string): seq<Packet> {
    if es == [] then []
    else
      var e := es[|es| - 1];
      var before := Sent(es[..|es| - 1], key);
      if e.Send? && e.p.key == key then before + [e.p] else before
  }

  function Frames(ps: seq<Packet>): seq<Packet> {
    if ps == [] then []
    else
      var before := Frames(ps[..|ps| - 1]);
      if IsFrame(ps[|ps| - 1]) then before + [ps[|ps| - 1]] else before
  }

  /** Where the current GOP starts: the last key frame, or the first packet. */
  function GopStart(ps: seq<Packet>): (b: nat)
    ensures b <= |ps|
    ensures b == 0 || (b < |ps| && IsKeyFrame(ps[b]))
    ensures forall i | b < i < |ps| :: !IsKeyFrame(ps[i])
  {
    if ps == [] then 0
    else if IsKeyFrame(ps[|ps| - 1]) then |ps| - 1
    else GopStart(ps[..|ps| - 1])
  }
}
