/** The bytes the server's own sender puts on the wire for one message, when exactly they
    can be read back, and what a peer recovers from a whole session. */
module RtmpServerSender {
  import opened Bytes
  import opened RtmpChunkStream
  import opened RtmpChunkSender

  /** The basic header. Ids below 2 get none at all; the three-byte form is out of reach of
      an eight-bit id. */
  function BasicBytes(fmt: int, csid: byte): seq<byte>
    requires 0 <= fmt < 4
  {
    if 2 <= csid < 64 then [fmt * 64 + csid]
    else if csid >= 64 then [fmt * 64, csid - 64]
    else []
  }

  function HeaderOf(m: Message): Header {
    Header(m.timestamp, |m.payload|, m.typeId, m.streamId)
  }

  /** The extended timestamp, which the sender repeats on every chunk of the message. */
  function ExtendedBytes(m: Message): seq<byte> {
    if m.timestamp >= EXTENDED then ToBe(U32(m.timestamp), 4) else []
  }

  /** The chunk that carries the payload from `pos`: a full header on the first chunk, none after. */
  function OneChunk(m: Message, n: int, pos: nat): seq<byte>
    requires n > 0 && pos < |m.payload|
  {
    var fmt := if pos == 0 then 0 else 3;
    var header := if pos == 0 then HeaderBytes(Full(HeaderOf(m))) else [];
    BasicBytes(fmt, m.csid) + header + ExtendedBytes(m) + m.payload[pos..pos + Min(n, |m.payload| - pos)]
  }

  function ChunksFrom(m: Message, n: int, pos: nat): seq<byte>
    requires n > 0
    decreases |m.payload| - pos
  {
    if pos >= |m.payload| then []
    else OneChunk(m, n, pos) + ChunksFrom(m, n, pos + Min(n, |m.payload| - pos))
  }

  /** Everything the sender writes for one message, cut at chunk size `n`. */
  function ChunkBytes(m: Message, n: int): seq<byte>
    requires n > 0
  {
    ChunksFrom(m, n, 0)
  }

  // ------------------------------------------------------------------
  // When a chunk can be read back

  /** The chunk stream id survives exactly when the one-byte form is used: larger ids are
      all read as chunk stream 0, smaller ones have no basic header. */
  lemma BasicHeaderExact(fmt: int, csid: byte, body: seq<byte>)
    requires 0 <= fmt < 4
    ensures ReadBasic(BasicBytes(fmt, csid) + body) == Got(Basic(fmt, csid), body) <==> 2 <= csid < 64
    ensures csid >= 64 ==> ReadBasic(BasicBytes(fmt, csid) + body) == Got(Basic(fmt, 0), body)
  {
    var w := BasicBytes(fmt, csid) + body;
    if 2 <= csid < 64 {
      BasicReadBack(fmt, csid, body);
    } else if csid >= 64 {
      assert w[0] == fmt * 64 && w[2..] == body;
    } else {
      assert w == body;
    }
  }

  /** A timestamp the first chunk conveys: one below the extended range, or one whose low
      24 bits are all set, so that the receiver looks for the extended field. */
  predicate TimestampReadable(t: int32) {
    0 <= t < EXTENDED || (t >= EXTENDED && t % 0x100_0000 == EXTENDED)
  }

  /** The header fields of the first chunk, as the receiver reads them. */
  lemma FirstFieldsRead(m: Message, tail: seq<byte>)
    requires |m.payload| < MAX_MESSAGE
    ensures var w := HeaderBytes(Full(HeaderOf(m))) + tail;
            && |w| >= 11 && w[11..] == tail
            && FromBe(w[..3]) == U32(m.timestamp) % 0x100_0000
            && FromBe(w[3..6]) == |m.payload|
            && w[6] == m.typeId
            && I32(FromBe(w[7..11])) == m.streamId
  {
    var h := HeaderOf(m);
    var a, b, c := ToBe(U32(h.timestamp), 3), ToBe(h.length, 3), ToBe(U32(h.streamId), 4);
    LowBytes(U32(h.timestamp));
    assert FromBe(b) == h.length && I32(FromBe(c)) == h.streamId by {
      Pow256Values();
      BeRoundTrip(h.length, 3);
      BeRoundTrip(U32(h.streamId), 4);
      U32RoundTrip(h.streamId);
    }
    FullLayout(a, b, h.typeId, c, tail);
  }

  lemma LowBytes(u: nat)
    ensures FromBe(ToBe(u, 3)) == u % 0x100_0000
  {
    var q1, q2, q3 := u / 256, u / 256 / 256, u / 256 / 256 / 256;
    var t1, t2, t3 := ToBe(q2, 1), ToBe(q1, 2), ToBe(u, 3);
    assert t1 == ToBe(q3, 0) + [q2 % 256];
    assert t1[..0] == [] && FromBe(t1) == q2 % 256;
    assert t2[..1] == t1 && FromBe(t2) == 256 * (q2 % 256) + q1 % 256;
    assert t3[..2] == t2 && FromBe(t3) == 256 * FromBe(t2) + u % 256;
    assert u == 0x100_0000 * q3 + 0x1_0000 * (q2 % 256) + 0x100 * (q1 % 256) + u % 256;
  }

  /** The first chunk's header is read back, with exactly the payload left, if and only if
      the timestamp is readable. */
  lemma FirstHeaderExact(m: Message, prev: Option<Stream>, data: seq<byte>)
    requires |m.payload| < MAX_MESSAGE
    ensures var w := HeaderBytes(Full(HeaderOf(m))) + (ExtendedBytes(m) + data);
            ReadHeader(0, prev, w) == Got(Stream(HeaderOf(m), None), data) <==> TimestampReadable(m.timestamp)
  {
    hide ToBe, FromBe, HeaderBytes;
    var tail := ExtendedBytes(m) + data;
    var w := HeaderBytes(Full(HeaderOf(m))) + tail;
    FirstFieldsRead(m, tail);
    if m.timestamp >= EXTENDED {
      ExtendedRead(m, w, data);
    } else {
      assert tail == data;
    }
  }

  lemma ExtendedRead(m: Message, w: seq<byte>, data: seq<byte>)
    requires m.timestamp >= EXTENDED && |w| >= 11 && w[11..] == ExtendedBytes(m) + data
    ensures |w| >= 15 && I32(FromBe(w[11..15])) == m.timestamp && w[15..] == data
  {
    var e := ToBe(U32(m.timestamp), 4);
    assert w[11..15] == w[11..][..4] == e;
    assert w[15..] == w[11..][4..] == data;
    Pow256Values();
    BeRoundTrip(U32(m.timestamp), 4);
  }

  /** A continuation chunk is read back if and only if it carries no extended timestamp:
      the receiver never looks for one there. */
  lemma ContinuationExact(m: Message, s: Stream, data: seq<byte>)
    ensures ReadHeader(3, Some(s), ExtendedBytes(m) + data) == Got(s, data) <==> m.timestamp < EXTENDED
  {
    if m.timestamp < EXTENDED {
      assert ExtendedBytes(m) + data == data;
    } else {
      assert |ExtendedBytes(m) + data| == |data| + 4;
    }
  }

  /** The data of a continuation chunk: the receiver adds the right bytes to the message exactly
      when the chunk, read without its extended timestamp, begins with them. That is always so
      below the extended range; above it, only for data that repeats the timestamp. */
  lemma ContinuationDataIff(m: Message, n: int32, pos: nat, rest: seq<byte>)
    requires 0 < pos < |m.payload| < MAX_MESSAGE && n > 0
    ensures var end := pos + Min(n, |m.payload| - pos);
            var held := Stream(HeaderOf(m), Some(Assembly(|m.payload|, m.payload[..pos])));
            var w := ExtendedBytes(m) + m.payload[pos..end] + rest;
            var o := StreamStep(Basic(3, m.csid), n, Some(held), w);
            var data := if o.Partial? then o.stream.held.value.data else if o.Complete? then o.msg.payload else [];
            data == m.payload[..end] <==> w[..end - pos] == m.payload[pos..end]
  {
    hide ExtendedBytes;
    var end := pos + Min(n, |m.payload| - pos);
    var w := ExtendedBytes(m) + m.payload[pos..end] + rest;
    var got := m.payload[..pos] + w[..end - pos];
    assert m.payload[..end] == m.payload[..pos] + m.payload[pos..end];
    assert got[pos..] == w[..end - pos] && m.payload[..end][pos..] == m.payload[pos..end];
  }

  /** A message that fits one chunk is recovered by a fresh receiver if and only if its
      timestamp is readable. */
  lemma SingleChunkExact(m: Message, n: int32, accept: Message -> bool)
    requires 2 <= m.csid < 64 && 0 < |m.payload| <= n && |m.payload| < MAX_MESSAGE && !IsControl(m)
    ensures Run(Receiver(n, map[]), ChunkBytes(m, n), accept).delivered == [Delivery(m.csid, m)]
            <==> TimestampReadable(m.timestamp)
  {
    var r := Receiver(n, map[]);
    var w := ChunkBytes(m, n);
    SingleChunkStep(m, n, accept);
    var o := Step(r, w, accept);
    if TimestampReadable(m.timestamp) {
      if o.Continue? {
        RunContinues(r, w, accept, o.next, o.delivered, []);
      }
    } else if o.Continue? {
      RunContinues(r, w, accept, o.next, o.delivered, o.rest);
      assert Run(r, w, accept).delivered[0] == o.delivered[0];
    }
  }

  /** The one turn the receiver takes over a single-chunk message. */
  lemma SingleChunkStep(m: Message, n: int32, accept: Message -> bool)
    requires 2 <= m.csid < 64 && 0 < |m.payload| <= n && |m.payload| < MAX_MESSAGE && !IsControl(m)
    ensures var o := Step(Receiver(n, map[]), ChunkBytes(m, n), accept);
            if TimestampReadable(m.timestamp) then
              && (if accept(m) then o.Continue? && o.rest == [] else o.Stop? && o.code == -18)
              && o.delivered == [Delivery(m.csid, m)]
            else
              && !o.Fault? && (o.Continue? ==> |o.delivered| == 1)
              && |o.delivered| <= 1 && (o.delivered != [] ==> o.delivered[0].msg.timestamp != m.timestamp)
  {
    hide ToBe, FromBe, HeaderBytes, ReadBasic, ChunkBytes;
    var tail := ExtendedBytes(m) + m.payload;
    var body := HeaderBytes(Full(HeaderOf(m))) + tail;
    SingleChunkLayout(m, n);
    BasicReadBack(0, m.csid, body);
    FirstHeaderExact(m, None, m.payload);
    if TimestampReadable(m.timestamp) {
      assert m.payload[..|m.payload|] == m.payload && m.payload[|m.payload|..] == [];
      var so := StreamStep(Basic(0, m.csid), n, None, body);
      assert [] + m.payload == m.payload;
      assert so == Complete(Stream(HeaderOf(m), None), m, []);
    } else {
      FirstFieldsRead(m, tail);
    }
  }

  lemma SingleChunkLayout(m: Message, n: int)
    requires 2 <= m.csid < 64 && 0 < |m.payload| <= n
    ensures ChunkBytes(m, n)
            == [0 * 64 + m.csid] + (HeaderBytes(Full(HeaderOf(m))) + (ExtendedBytes(m) + m.payload))
  {
    assert m.payload[0..0 + Min(n, |m.payload|)] == m.payload;
    assert ChunksFrom(m, n, |m.payload|) == [];
    assert OneChunk(m, n, 0) + [] == OneChunk(m, n, 0);
  }

  // ------------------------------------------------------------------
  // The server's sender as an interleaving sender

  /** The messages the server can convey: a one-byte chunk stream id, a timestamp below the
      extended range, and a payload that is neither empty nor too long. */
  predicate Conveyable(m: Message) {
    && 2 <= m.csid < 64
    && 0 <= m.timestamp < EXTENDED
    && 0 < |m.payload| < MAX_MESSAGE
    && ControlOk(m.typeId, m.payload)
  }

  function Continuations(c: int, n: int, length: int, pos: nat): seq<Action>
    requires n > 0
    decreases length - pos
  {
    if pos >= length then [] else [More(c)] + Continuations(c, n, length, pos + Min(n, length - pos))
  }

  /** One full header and then continuations only. */
  function Actions(m: Message, n: int): seq<Action>
    requires n > 0
  {
    [Start(m.csid, Full(HeaderOf(m)), m.payload)]
    + Continuations(m.csid, n, |m.payload|, Min(n, |m.payload|))
  }

  /** The sender once the whole message is out. */
  function Settled(s: Sender, m: Message): Sender
    requires ControlOk(m.typeId, m.payload)
  {
    var done := s.(streams := s.streams[m.csid as int := Outgoing(HeaderOf(m), None)]);
    if m.typeId == TYPE_SET_CHUNK_SIZE then done.(chunkSize := I32(FromBe(m.payload[..4])))
    else if m.typeId == TYPE_ABORT then done.(streams := done.streams - {FromBe(m.payload[..4])})
    else done
  }

  function Seen(m: Message): seq<Delivery> {
    if IsControl(m) then [] else [Delivery(m.csid, m)]
  }

  lemma MoreIsChunk(s: Sender, m: Message, pos: nat)
    requires SenderOk(s) && Conveyable(m) && 0 < pos < |m.payload|
    requires m.csid in s.streams && s.streams[m.csid] == Outgoing(HeaderOf(m), Some(Pending(m.payload, pos)))
    ensures Emit(s, More(m.csid)) == OneChunk(m, s.chunkSize, pos)
  {
    var basic := [3 * 64 + m.csid];
    assert basic + [] + [] == basic;
  }

  lemma StartIsChunk(s: Sender, m: Message)
    requires SenderOk(s) && Conveyable(m)
    requires Enabled(s, Start(m.csid, Full(HeaderOf(m)), m.payload))
    ensures Emit(s, Start(m.csid, Full(HeaderOf(m)), m.payload)) == OneChunk(m, s.chunkSize, 0)
  {
    hide HeaderBytes;
    var h := HeaderBytes(Full(HeaderOf(m)));
    assert [0 * 64 + m.csid] + h + [] == [0 * 64 + m.csid] + h;
  }

  lemma {:induction false} ContinuationsRun(s: Sender, m: Message, pos: nat)
    requires SenderOk(s) && Conveyable(m) && 0 < pos < |m.payload|
    requires m.csid in s.streams && s.streams[m.csid] == Outgoing(HeaderOf(m), Some(Pending(m.payload, pos)))
    ensures var acts := Continuations(m.csid, s.chunkSize, |m.payload|, pos);
            && AllEnabled(s, acts)
            && Wire(s, acts) == ChunksFrom(m, s.chunkSize, pos)
            && AllSent(s, acts) == Seen(m)
            && Last(s, acts) == Settled(s, m)
    decreases |m.payload| - pos
  {
    hide FromBe, I32, Emit, OneChunk;
    var c := m.csid as int;
    var n := s.chunkSize;
    var acts := Continuations(c, n, |m.payload|, pos);
    var a := More(c);
    var end := pos + Min(n, |m.payload| - pos);
    assert acts[0] == a && acts[1..] == Continuations(c, n, |m.payload|, end);
    NextOk(s, a);
    MoreIsChunk(s, m, pos);
    if end < |m.payload| {
      PushedKeepsSettled(s, m, pos);
      ContinuationsRun(Next(s, a), m, end);
    } else {
      assert acts[1..] == [];
      assert Wire(s, acts) == Emit(s, a) + [];
    }
  }

  /** A chunk that leaves the message unfinished does not change where it will end. */
  lemma PushedKeepsSettled(s: Sender, m: Message, pos: nat)
    requires SenderOk(s) && Conveyable(m) && pos < |m.payload| && pos + Cut(s, m.payload, pos) < |m.payload|
    ensures Settled(Pushed(s, m.csid, HeaderOf(m), m.payload, pos), m) == Settled(s, m)
  {
    var c := m.csid as int;
    var n := Pushed(s, c, HeaderOf(m), m.payload, pos);
    assert n.streams[c := Outgoing(HeaderOf(m), None)] == s.streams[c := Outgoing(HeaderOf(m), None)];
  }

  /** The bytes the server writes for a message are a run of the interleaving sender. */
  lemma {:induction false} MessageRun(s: Sender, m: Message)
    requires SenderOk(s) && Conveyable(m)
    requires m.csid in s.streams ==> s.streams[m.csid].pending.None?
    ensures var acts := Actions(m, s.chunkSize);
            && AllEnabled(s, acts)
            && Wire(s, acts) == ChunkBytes(m, s.chunkSize)
            && AllSent(s, acts) == Seen(m)
            && Last(s, acts) == Settled(s, m)
  {
    hide FromBe, I32, Emit, OneChunk;
    var c := m.csid as int;
    var n := s.chunkSize;
    var a := Start(c, Full(HeaderOf(m)), m.payload);
    var end := Min(n, |m.payload|);
    var acts := Actions(m, n);
    assert acts[0] == a && acts[1..] == Continuations(c, n, |m.payload|, end);
    assert Enabled(s, a);
    NextOk(s, a);
    StartIsChunk(s, m);
    if end < |m.payload| {
      PushedKeepsSettled(s, m, 0);
      ContinuationsRun(Next(s, a), m, end);
    } else {
      assert acts[1..] == [];
      assert Wire(s, acts) == Emit(s, a) + [];
      assert ChunksFrom(m, n, end) == [];
    }
  }

  // ------------------------------------------------------------------
  // Whole sessions

  function ServerWire(ms: seq<Message>, n: int): seq<byte>
    requires n > 0
  {
    if ms == [] then [] else ChunkBytes(ms[0], n) + ServerWire(ms[1..], n)
  }

  lemma {:induction false} ServerWireSnoc(ms: seq<Message>, m: Message, n: int)
    requires n > 0
    ensures ServerWire(ms + [m], n) == ServerWire(ms, n) + ChunkBytes(m, n)
    decreases |ms|
  {
    if ms == [] {
      assert ([] + [m])[1..] == [];
      assert ServerWire([m], n) == ChunkBytes(m, n) + ServerWire([], n);
    } else {
      assert (ms + [m])[1..] == ms[1..] + [m];
      ServerWireSnoc(ms[1..], m, n);
    }
  }

  function Tagged(ms: seq<Message>): seq<Delivery> {
    if ms == [] then [] else [Delivery(ms[0].csid, ms[0])] + Tagged(ms[1..])
  }

  predicate Idle(s: Sender) {
    SenderOk(s) && forall c :: c in s.streams ==> s.streams[c].pending.None?
  }

  lemma SettledIdle(s: Sender, m: Message)
    requires Idle(s) && Conveyable(m)
    ensures Idle(Settled(s, m))
  {
  }

  /** One message through the receiver. */
  lemma {:induction false} MessageThrough(s: Sender, m: Message, rest: seq<byte>, accept: Message -> bool)
    returns (refusedIn: Receiver)
    requires Idle(s) && Conveyable(m)
    ensures Idle(Settled(s, m))
    ensures Run(Mirror(s), ChunkBytes(m, s.chunkSize) + rest, accept)
            == Through(Seen(m), accept, refusedIn, Run(Mirror(Settled(s, m)), rest, accept))
  {
    SettledIdle(s, m);
    MessageRun(s, m);
    RunThrough(s, Actions(m, s.chunkSize), rest, accept);
    refusedIn := Mirror(Halted(s, Actions(m, s.chunkSize), accept));
  }

  /** The connection delivered `all` up to what the peer's session refuses, and ended because the
      wire ran dry or because of the refusal. */
  predicate HandedUp(e: Ending, all: seq<Delivery>, accept: Message -> bool) {
    && e.delivered == Heard(all, accept) && !e.fault
    && e.code == if AllTaken(all, accept) then -1 else -18
  }

  lemma HandedUpThrough(ds: seq<Delivery>, all: seq<Delivery>, accept: Message -> bool, refusedIn: Receiver, e: Ending)
    requires AllTaken(ds, accept) ==> HandedUp(e, all, accept)
    ensures HandedUp(Through(ds, accept, refusedIn, e), ds + all, accept)
  {
    HeardAppend(ds, all, accept);
  }

  /** One message more in front. */
  lemma OneMoreHandedUp(s: Sender, m: Message, rest: seq<byte>, all: seq<Delivery>, accept: Message -> bool)
    requires Idle(s) && Conveyable(m) && Idle(Settled(s, m))
    requires HandedUp(Run(Mirror(Settled(s, m)), rest, accept), all, accept)
    ensures HandedUp(Run(Mirror(s), ChunkBytes(m, s.chunkSize) + rest, accept), Seen(m) + all, accept)
  {
    hide Run, Mirror, HandedUp, Through, ChunkBytes, Settled, Seen;
    var r := MessageThrough(s, m, rest, accept);
    HandedUpThrough(Seen(m), all, accept, r, Run(Mirror(Settled(s, m)), rest, accept));
  }

  /** Whatever the server sends, message after message, the peer recovers, as far as its session
      listens. */
  lemma {:induction false} SessionRoundTrip(s: Sender, ms: seq<Message>, accept: Message -> bool)
    requires Idle(s)
    requires forall i :: 0 <= i < |ms| ==> Conveyable(ms[i]) && !IsControl(ms[i])
    ensures HandedUp(Run(Mirror(s), ServerWire(ms, s.chunkSize), accept), Tagged(ms), accept)
    decreases |ms|
  {
    if ms != [] {
      hide Run, Mirror, HandedUp, ChunkBytes, Conveyable;
      SettledIdle(s, ms[0]);
      SessionRoundTrip(Settled(s, ms[0]), ms[1..], accept);
      OneMoreHandedUp(s, ms[0], ServerWire(ms[1..], s.chunkSize), Tagged(ms[1..]), accept);
    }
  }

  // ------------------------------------------------------------------
  // The chunk-size hand-over after a connect command

  function Control(typeId: byte, payload: seq<byte>): Message {
    Message(2, 0, typeId, 0, payload)
  }

  function WindowAckSize(size: nat): Message {
    Control(5, ToBe(size, 4))
  }

  function SetPeerBandwidth(size: nat, limit: byte): Message {
    Control(6, ToBe(size, 4) + [limit])
  }

  function SetChunkSize(size: nat): Message {
    Control(TYPE_SET_CHUNK_SIZE, ToBe(size, 4))
  }

  /** What the server writes after a connect command: three control messages and then
      anything, all cut at the size it has used from the start. */
  function ConnectReply(ackSize: nat, n: nat, ms: seq<Message>): seq<byte>
    requires n > 0
  {
    ServerWire([WindowAckSize(ackSize), SetPeerBandwidth(800000000, 2), SetChunkSize(n)] + ms, n)
  }

  /** A message no longer than two chunk sizes is cut the same way by both. */
  lemma ShortMessageSameCut(m: Message, n: int, k: int)
    requires 0 < |m.payload| <= n && |m.payload| <= k
    ensures ChunkBytes(m, n) == ChunkBytes(m, k)
  {
    assert ChunksFrom(m, n, |m.payload|) == [] == ChunksFrom(m, k, |m.payload|);
  }

  /** A peer that still reads chunks of 128 bytes recovers the reply of a server that has
      been writing larger ones all along: the control messages fit either size, and the
      third of them moves the peer to the server's size before anything longer arrives. */
  lemma {:induction false} ChunkSizeHandOver(ackSize: nat, n: int32, ms: seq<Message>, accept: Message -> bool)
    requires n >= 5
    requires forall i :: 0 <= i < |ms| ==> Conveyable(ms[i]) && !IsControl(ms[i])
    ensures HandedUp(Run(Initial(), ConnectReply(ackSize, n, ms), accept),
                     Tagged([WindowAckSize(ackSize), SetPeerBandwidth(800000000, 2)] + ms), accept)
  {
    HandOverStates(ackSize, n);
    hide Run, HandedUp, Mirror, Settled, Conveyable, Idle, WindowAckSize, SetPeerBandwidth, SetChunkSize, ToBe,
      ChunkBytes, ServerWire, Seen;
    var m1, m2, m3 := WindowAckSize(ackSize), SetPeerBandwidth(800000000, 2), SetChunkSize(n);
    var s0 := Sender(128, map[]);
    FreshMirror(s0);
    var w3 := ServerWire(ms, n);
    var w2 := ChunkBytes(m3, n) + w3;
    var w1 := ChunkBytes(m2, n) + w2;
    HandOverWire(m1, m2, m3, ms, n);
    ShortMessageSameCut(m1, n, 128);
    ShortMessageSameCut(m2, n, 128);
    ShortMessageSameCut(m3, n, 128);
    var s1 := Settled(s0, m1);
    var s2 := Settled(s1, m2);
    SettledIdle(s2, m3);
    SessionRoundTrip(Settled(s2, m3), ms, accept);
    OneMoreHandedUp(s2, m3, w3, Tagged(ms), accept);
    OneMoreHandedUp(s1, m2, w2, Seen(m3) + Tagged(ms), accept);
    OneMoreHandedUp(s0, m1, w1, Seen(m2) + (Seen(m3) + Tagged(ms)), accept);
    assert [] + Tagged(ms) == Tagged(ms);
    TaggedPair(m1, m2, ms);
  }

  /** The three control messages can be sent, are short, and leave the chunk size alone until the
      last of them sets it. */
  lemma HandOverStates(ackSize: nat, n: int32)
    requires n >= 5
    ensures var m1, m2, m3 := WindowAckSize(ackSize), SetPeerBandwidth(800000000, 2), SetChunkSize(n);
            var s0 := Sender(128, map[]);
            && Conveyable(m1) && Conveyable(m2) && Conveyable(m3)
            && 0 < |m1.payload| <= 5 && 0 < |m2.payload| <= 5 && 0 < |m3.payload| <= 5
            && Seen(m1) == [Delivery(m1.csid, m1)] && Seen(m2) == [Delivery(m2.csid, m2)] && Seen(m3) == []
            && Idle(s0) && Idle(Settled(s0, m1)) && Settled(s0, m1).chunkSize == 128
            && Idle(Settled(Settled(s0, m1), m2)) && Settled(Settled(s0, m1), m2).chunkSize == 128
            && Settled(Settled(Settled(s0, m1), m2), m3).chunkSize == n
  {
    hide ToBe, FromBe;
    SetChunkSizeReadBack(n);
  }

  lemma HandOverWire(m1: Message, m2: Message, m3: Message, ms: seq<Message>, n: int)
    requires n > 0
    ensures ServerWire([m1, m2, m3] + ms, n)
            == ChunkBytes(m1, n) + (ChunkBytes(m2, n) + (ChunkBytes(m3, n) + ServerWire(ms, n)))
  {
    assert ([m1, m2, m3] + ms)[1..] == [m2, m3] + ms;
    assert ([m2, m3] + ms)[1..] == [m3] + ms;
    assert ([m3] + ms)[1..] == ms;
    assert ServerWire([m3] + ms, n) == ChunkBytes(m3, n) + ServerWire(ms, n);
    assert ServerWire([m2, m3] + ms, n) == ChunkBytes(m2, n) + ServerWire([m3] + ms, n);
  }

  lemma TaggedPair(m1: Message, m2: Message, ms: seq<Message>)
    ensures Tagged([m1, m2] + ms) == [Delivery(m1.csid, m1)] + ([Delivery(m2.csid, m2)] + Tagged(ms))
  {
    assert ([m1, m2] + ms)[1..] == [m2] + ms;
    assert ([m2] + ms)[1..] == ms;
  }

  /** Set Chunk Size carries its argument through encode and decode. */
  lemma SetChunkSizeReadBack(n: int32)
    requires n > 0
    ensures |SetChunkSize(n).payload| == 4 && I32(ControlValue(SetChunkSize(n))) == n
  {
    Pow256Values();
    BeRoundTrip(n, 4);
    assert SetChunkSize(n).payload[..4] == ToBe(n, 4);
  }
}
