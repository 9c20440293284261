/**
 * Chunks of messages on different chunk streams may be interleaved: the reader recovers
 * the message sequence of each chunk stream as if the others were absent.
 */
module RtmpInterleave {
  import opened Bytes
  import opened RtmpReader
  import opened RtmpSegmentation
  import opened RtmpWriter

  /** A whole chunk as it is put on the wire, with the chunk stream it belongs to. */
  datatype Tagged = Tagged(csid: nat, bytes: seq<byte>)

  function WireOf(ks: seq<Tagged>): seq<byte> {
    if ks == [] then [] else ks[0].bytes + WireOf(ks[1..])
  }

  /** The chunks of one chunk stream, in order. */
  function OnStream(ks: seq<Tagged>, csid: nat): seq<seq<byte>> {
    if ks == [] then []
    else (if ks[0].csid == csid then [ks[0].bytes] else []) + OnStream(ks[1..], csid)
  }

  /** The messages of one chunk stream, in order. */
  function LogOn(log: seq<Message>, csid: nat): seq<Message> {
    if log == [] then []
    else LogOn(log[..|log| - 1], csid) + if log[|log| - 1].csid == csid then [log[|log| - 1]] else []
  }

  lemma LogOnAppend(log: seq<Message>, m: Message, csid: nat)
    ensures LogOn(log + [m], csid) == LogOn(log, csid) + if m.csid == csid then [m] else []
  {
    assert (log + [m])[..|log|] == log;
  }

  /** What a chunk stream still has to send: of the first message, off bytes are gone. */
  datatype Todo = Todo(ms: seq<Message>, off: nat)

  function ChunksLeft(todo: Todo, chunkSize: nat): seq<seq<byte>>
    requires chunkSize > 0
  {
    if todo.ms == [] then []
    else ChunksFrom(todo.ms[0], chunkSize, todo.off) + ChunksOf(todo.ms[1..], chunkSize)
  }

  /** Any handler history: the message is accepted and leaves the chunk size alone. */
  ghost predicate AlwaysAccepted(h: Handler, m: Message, chunkSize: nat) {
    forall log :: Accepted(h, log, m, chunkSize)
  }

  ghost predicate Ready(h: Handler, s: Session, csid: nat, todo: Todo, chunkSize: nat) {
    && 2 <= csid < 64
    && (forall m <- todo.ms :: m.csid == csid && Sendable(m) && AlwaysAccepted(h, m, s.chunkSize))
    && (if todo.ms == [] then todo.off == 0
        else todo.off < |todo.ms[0].payload| && CanTake(s, todo.ms[0], chunkSize, todo.off))
    && (todo.off == 0 ==> CanBegin(s, csid, chunkSize))
  }

  /** The chunk list ks is an interleaving of what each chunk stream still has to send. */
  ghost predicate Interleaving(h: Handler, s: Session, ks: seq<Tagged>, todo: map<nat, Todo>, chunkSize: nat)
    requires chunkSize > 0
  {
    && (forall k <- ks :: k.csid in todo)
    && (forall c <- todo :: Ready(h, s, c, todo[c], chunkSize)
                         && OnStream(ks, c) == ChunksLeft(todo[c], chunkSize))
  }

  function Advance(todo: Todo, chunkSize: nat): Todo
    requires todo.ms != []
  {
    if todo.off + chunkSize < |todo.ms[0].payload| then Todo(todo.ms, todo.off + chunkSize)
    else Todo(todo.ms[1..], 0)
  }

  lemma AdvanceLeft(todo: Todo, chunkSize: nat)
    requires chunkSize > 0 && todo.ms != [] && todo.off < |todo.ms[0].payload|
    requires todo.off + chunkSize >= |todo.ms[0].payload| && |todo.ms| > 1 ==> todo.ms[1].payload != []
    ensures ChunksLeft(todo, chunkSize)
         == [ChunkAt(todo.ms[0], chunkSize, todo.off)] + ChunksLeft(Advance(todo, chunkSize), chunkSize)
  {
    hide ChunkAt;
    var m := todo.ms[0];
    if todo.off + chunkSize >= |m.payload| {
      assert ChunksFrom(m, chunkSize, todo.off + chunkSize) == [];
      assert ChunksOf(todo.ms[1..], chunkSize) == ChunksLeft(Todo(todo.ms[1..], 0), chunkSize);
    }
  }

  /** The next chunk belongs to the stream it is tagged with, and is the one due there. */
  lemma NextChunk(h: Handler, s: Session, ks: seq<Tagged>, todo: map<nat, Todo>, chunkSize: nat)
    requires chunkSize > 0 && ks != [] && Interleaving(h, s, ks, todo, chunkSize)
    ensures ks[0].csid in todo
    ensures var t := todo[ks[0].csid];
            && t.ms != [] && ks[0].bytes == ChunkAt(t.ms[0], chunkSize, t.off)
            && OnStream(ks[1..], ks[0].csid) == ChunksLeft(Advance(t, chunkSize), chunkSize)
  {
    hide ChunkAt;
    hide AlwaysAccepted;
    hide CanTake;
    hide CanBegin;
    var c := ks[0].csid;
    assert ks[0] in ks;
    var t := todo[c];
    assert OnStream(ks, c) == [ks[0].bytes] + OnStream(ks[1..], c);
    assert t.ms != [];
    if |t.ms| > 1 {
      assert t.ms[1] in t.ms;
    }
    AdvanceLeft(t, chunkSize);
    assert OnStream(ks, c)[1..] == OnStream(ks[1..], c);
  }

  lemma ReadyCsid(h: Handler, s: Session, c: nat, d: Todo, chunkSize: nat)
    requires Ready(h, s, c, d, chunkSize)
    ensures 2 <= c < 64
  {
  }

  /** Taking the next chunk leaves an interleaving of the rest. */
  lemma Step(h: Handler, s: Session, ks: seq<Tagged>, todo: map<nat, Todo>, chunkSize: nat, t: Session)
    requires chunkSize > 0 && ks != [] && Interleaving(h, s, ks, todo, chunkSize)
    requires ks[0].csid in todo && todo[ks[0].csid].ms != []
    requires OnStream(ks[1..], ks[0].csid) == ChunksLeft(Advance(todo[ks[0].csid], chunkSize), chunkSize)
    requires t.chunkSize == s.chunkSize && Key(ks[0].csid) in t.streams
    requires t.streams == s.streams[Key(ks[0].csid) := t.streams[Key(ks[0].csid)]]
    requires var d, m := todo[ks[0].csid], todo[ks[0].csid].ms[0];
             if d.off + chunkSize < |m.payload| then CanTake(t, m, chunkSize, d.off + chunkSize)
             else CanBegin(t, m.csid, chunkSize)
    ensures Interleaving(h, t, ks[1..], todo[ks[0].csid := Advance(todo[ks[0].csid], chunkSize)], chunkSize)
  {
    hide Ready;
    hide ChunksLeft;
    hide Advance;
    hide CanTake;
    hide CanBegin;
    var c0 := ks[0].csid;
    assert ks[0] in ks;
    ReadyCsid(h, s, c0, todo[c0], chunkSize);
    var todo' := todo[c0 := Advance(todo[c0], chunkSize)];
    forall c <- todo'
      ensures Ready(h, t, c, todo'[c], chunkSize) && OnStream(ks[1..], c) == ChunksLeft(todo'[c], chunkSize)
    {
      assert Ready(h, s, c, todo[c], chunkSize);
      if c == c0 {
        StreamAdvances(h, s, c, todo[c], chunkSize, t);
      } else {
        StreamKeeps(h, s, c, todo[c], chunkSize, t, c0);
        assert OnStream(ks, c) == OnStream(ks[1..], c);
      }
    }
  }

  /** A chunk of another chunk stream changes nothing here. */
  lemma StreamKeeps(h: Handler, s: Session, c: nat, d: Todo, chunkSize: nat, t: Session, c0: nat)
    requires Ready(h, s, c, d, chunkSize) && 2 <= c0 < 64 && c0 != c
    requires t.chunkSize == s.chunkSize && Key(c0) in t.streams
    requires t.streams == s.streams[Key(c0) := t.streams[Key(c0)]]
    ensures Ready(h, t, c, d, chunkSize)
  {
    hide AlwaysAccepted;
    hide Sendable;
    hide Idle;
    hide Holding;
    if d.ms != [] {
      assert d.ms[0] in d.ms;
    }
  }

  lemma StreamAdvances(h: Handler, s: Session, c: nat, d: Todo, chunkSize: nat, t: Session)
    requires Ready(h, s, c, d, chunkSize) && d.ms != [] && t.chunkSize == s.chunkSize
    requires var m := d.ms[0];
             if d.off + chunkSize < |m.payload| then d.off + chunkSize > 0 && CanTake(t, m, chunkSize, d.off + chunkSize)
             else CanBegin(t, m.csid, chunkSize)
    ensures Ready(h, t, c, Advance(d, chunkSize), chunkSize)
  {
    hide AlwaysAccepted;
    hide CanBegin;
    hide Holding;
    assert d.ms[0] in d.ms;
    if |d.ms| > 1 {
      assert d.ms[1] in d.ms;
    }
    assert forall m <- d.ms[1..] :: m in d.ms;
  }

  /** The log of chunk stream c grows by the messages still to send on it. */
  predicate DeliveredOn(before: seq<Message>, after: seq<Message>, todo: map<nat, Todo>, c: nat) {
    LogOn(after, c) == LogOn(before, c) + if c in todo then WireAll(todo[c].ms) else []
  }

  ghost predicate Delivered(before: seq<Message>, after: seq<Message>, todo: map<nat, Todo>) {
    forall c: nat :: DeliveredOn(before, after, todo, c)
  }

  lemma DeliveredStep(before: seq<Message>, mid: seq<Message>, after: seq<Message>,
                      todo: map<nat, Todo>, c0: nat, chunkSize: nat, c: nat)
    requires c0 in todo && todo[c0].ms != [] && todo[c0].ms[0].csid == c0
    requires mid == if todo[c0].off + chunkSize < |todo[c0].ms[0].payload| then before
                    else before + [Wire(todo[c0].ms[0])]
    requires DeliveredOn(mid, after, todo[c0 := Advance(todo[c0], chunkSize)], c)
    ensures DeliveredOn(before, after, todo, c)
  {
    hide LogOn;
    var d, m := todo[c0], todo[c0].ms[0];
    LogOnAppend(before, Wire(m), c);
    if c == c0 && mid != before {
      assert WireAll(d.ms) == [Wire(m)] + WireAll(d.ms[1..]);
      assert LogOn(before, c) + [Wire(m)] + WireAll(d.ms[1..]) == LogOn(before, c) + WireAll(d.ms);
    }
  }

  lemma {:induction false} TakeInterleaved(
    h: Handler, s: Session, ks: seq<Tagged>, todo: map<nat, Todo>, chunkSize: nat) returns (t: Session)
    requires Boundary(s) && chunkSize > 0 && Interleaving(h, s, ks, todo, chunkSize)
    ensures Boundary(t) && Delivered(s.log, t.log, todo)
    ensures SameFuture(h, Append(s, WireOf(ks)), t) && Receive(h, t) == t && OneByteHeaders(h, t)
    decreases |ks|
  {
    hide Receive;
    hide OneByteHeaders;
    hide ChunkAt;
    hide Advance;
    hide Interleaving;
    hide DeliveredOn;
    hide Sendable;
    hide CanTake;
    hide CanBegin;
    if ks == [] {
      t := s;
      NothingToReceive(h, s);
      assert Append(s, []) == s;
      NothingLeft(h, s, todo, chunkSize);
    } else {
      var c := ks[0].csid;
      NextChunk(h, s, ks, todo, chunkSize);
      var d := todo[c];
      DueIsReady(h, s, ks, todo, chunkSize);
      var u := TakeChunk(h, s, d.ms[0], chunkSize, d.off, WireOf(ks[1..]));
      Step(h, s, ks, todo, chunkSize, u);
      t := TakeInterleaved(h, u, ks[1..], todo[c := Advance(d, chunkSize)], chunkSize);
      forall c': nat ensures DeliveredOn(s.log, t.log, todo, c') {
        DeliveredStep(s.log, u.log, t.log, todo, c, chunkSize, c');
      }
    }
  }

  lemma DueIsReady(h: Handler, s: Session, ks: seq<Tagged>, todo: map<nat, Todo>, chunkSize: nat)
    requires chunkSize > 0 && ks != [] && Interleaving(h, s, ks, todo, chunkSize)
    requires ks[0].csid in todo && todo[ks[0].csid].ms != []
    ensures var d := todo[ks[0].csid]; var m := d.ms[0];
            && m.csid == ks[0].csid && Sendable(m) && d.off < |m.payload| && CanTake(s, m, chunkSize, d.off)
            && Accepted(h, s.log, m, s.chunkSize)
  {
    hide CanTake;
    hide Accepted;
    assert ks[0] in ks;
    var d := todo[ks[0].csid];
    assert Ready(h, s, ks[0].csid, d, chunkSize);
    assert d.ms[0] in d.ms;
  }

  lemma NothingLeft(h: Handler, s: Session, todo: map<nat, Todo>, chunkSize: nat)
    requires chunkSize > 0 && Interleaving(h, s, [], todo, chunkSize)
    ensures Delivered(s.log, s.log, todo)
  {
    hide CanTake;
    hide AlwaysAccepted;
    forall c: nat ensures DeliveredOn(s.log, s.log, todo, c) {
      if c in todo {
        assert Ready(h, s, c, todo[c], chunkSize);
        assert OnStream([], c) == [] == ChunksLeft(todo[c], chunkSize);
        assert todo[c].ms == [];
      }
    }
  }

  function Unsent(queues: map<nat, seq<Message>>): map<nat, Todo> {
    map c | c in queues :: Todo(queues[c], 0)
  }

  /** The chunks of ks on stream c are exactly those of ms, in order, and ms can be taken. */
  ghost predicate Queued(h: Handler, s: Session, ks: seq<Tagged>, c: nat, ms: seq<Message>, chunkSize: nat)
    requires chunkSize > 0
  {
    && 2 <= c < 64 && CanBegin(s, c, chunkSize)
    && OnStream(ks, c) == ChunksOf(ms, chunkSize)
    && forall m <- ms :: m.csid == c && Sendable(m) && AlwaysAccepted(h, m, s.chunkSize)
  }

  /**
   * ks interleaves whole chunks of the queued messages, each queue kept in order. Cut into
   * any pieces, every chunk stream's messages come out complete, in order, and nothing else.
   */
  lemma InterleavedRoundTrip(
    h: Handler, s: Session, ks: seq<Tagged>, queues: map<nat, seq<Message>>, chunkSize: nat,
    pieces: seq<seq<byte>>)
    requires Boundary(s) && chunkSize > 0
    requires forall k <- ks :: k.csid in queues
    requires forall c <- queues :: Queued(h, s, ks, c, queues[c], chunkSize)
    requires NonEmpty(pieces) && Concat(pieces) == WireOf(ks)
    ensures Delivered(s.log, FeedAll(h, s, pieces).log, Unsent(queues))
  {
    hide Receive;
    hide OneByteHeaders;
    hide Delivered;
    hide Queued;
    hide Ready;
    hide OnStream;
    hide ChunksLeft;
    var todo := Unsent(queues);
    forall c <- todo
      ensures Ready(h, s, c, todo[c], chunkSize) && OnStream(ks, c) == ChunksLeft(todo[c], chunkSize)
    {
      QueueReady(h, s, ks, c, queues[c], chunkSize);
    }
    var t := TakeInterleaved(h, s, ks, todo, chunkSize);
    SomethingCarried(pieces);
    if pieces == [] {
      NothingToReceive(h, s);
      assert Append(s, []) == s;
    } else {
      PiecesAsOne(h, s, pieces);
    }
  }

  lemma QueueReady(h: Handler, s: Session, ks: seq<Tagged>, c: nat, ms: seq<Message>, chunkSize: nat)
    requires chunkSize > 0 && Queued(h, s, ks, c, ms, chunkSize)
    ensures Ready(h, s, c, Todo(ms, 0), chunkSize)
    ensures OnStream(ks, c) == ChunksLeft(Todo(ms, 0), chunkSize)
  {
    hide AlwaysAccepted;
    hide CanBegin;
    hide ChunkAt;
    if ms != [] {
      assert ms[0] in ms;
    }
  }
}
