/** A sender of RTMP chunks that may interleave the messages of different chunk streams,
    compress headers, change the chunk size and abort messages; and the proof that the
    receiver of RtmpChunkStream recovers exactly what such a sender was given. */
module RtmpChunkSender {
  import opened Bytes
  import opened RtmpChunkStream

  /** The four message headers of section 5.3.1.2, by the fields they carry. */
  datatype WireHeader =
    | Full(header: Header)
    | Changed(delta: nat, length: nat, typeId: byte)
    | Shifted(delta: nat)
    | Repeated

  datatype Pending = Pending(payload: seq<byte>, pos: nat)

  datatype Outgoing = Outgoing(header: Header, pending: Option<Pending>)

  datatype Sender = Sender(chunkSize: int32, streams: map<int, Outgoing>)

  /** Start a message on a chunk stream, or continue the one in progress there. */
  datatype Action = Start(csid: int, wh: WireHeader, payload: seq<byte>) | More(csid: int)

  function Fmt(wh: WireHeader): int {
    match wh
    case Full(_) => 0
    case Changed(_, _, _) => 1
    case Shifted(_) => 2
    case Repeated => 3
  }

  /** A header may be sent when it fits its three-byte fields and has something to refer to. */
  predicate HeaderFits(prev: Option<Outgoing>, wh: WireHeader) {
    match wh
    case Full(h) => 0 <= h.timestamp < EXTENDED && h.length < MAX_MESSAGE
    case Changed(delta, length, _) =>
      prev.Some? && delta <= EXTENDED && prev.value.header.timestamp + delta < 0x8000_0000 && length < MAX_MESSAGE
    case Shifted(delta) => prev.Some? && delta <= EXTENDED && prev.value.header.timestamp + delta < 0x8000_0000
    case Repeated => prev.Some?
  }

  /** The full header a wire header stands for. A type-3 header that starts a message
      repeats the previous timestamp: the program adds no delta there. */
  function Expand(prev: Option<Outgoing>, wh: WireHeader): Header
    requires HeaderFits(prev, wh)
  {
    match wh
    case Full(h) => h
    case Changed(delta, length, typeId) =>
      var p := prev.value.header;
      Header(p.timestamp + delta, length, typeId, p.streamId)
    case Shifted(delta) =>
      var p := prev.value.header;
      p.(timestamp := p.timestamp + delta)
    case Repeated => prev.value.header
  }

  function HeaderBytes(wh: WireHeader): seq<byte> {
    match wh
    case Full(h) => ToBe(U32(h.timestamp), 3) + ToBe(h.length, 3) + [h.typeId] + ToBe(U32(h.streamId), 4)
    case Changed(delta, length, typeId) => ToBe(delta, 3) + ToBe(length, 3) + [typeId]
    case Shifted(delta) => ToBe(delta, 3)
    case Repeated => []
  }

  function Lookup(s: Sender, c: int): Option<Outgoing> {
    if c in s.streams then Some(s.streams[c]) else None
  }

  /** A chunk-control message carries its 32-bit argument, and a chunk size is positive. */
  predicate ControlOk(typeId: byte, payload: seq<byte>) {
    && (typeId == TYPE_SET_CHUNK_SIZE ==> |payload| >= 4 && I32(FromBe(payload[..4])) > 0)
    && (typeId == TYPE_ABORT ==> |payload| >= 4)
  }

  predicate Enabled(s: Sender, a: Action) {
    match a
    case Start(c, wh, payload) =>
      && 2 <= c < 64
      && (c in s.streams ==> s.streams[c].pending.None?)
      && HeaderFits(Lookup(s, c), wh)
      && 0 < |payload| == Expand(Lookup(s, c), wh).length < MAX_MESSAGE
      && ControlOk(Expand(Lookup(s, c), wh).typeId, payload)
    case More(c) => c in s.streams && s.streams[c].pending.Some?
  }

  predicate OutgoingOk(c: int, o: Outgoing) {
    && 2 <= c < 64
    && o.header.length < MAX_MESSAGE
    && (o.pending.Some? ==>
          var p := o.pending.value;
          && 0 < p.pos < |p.payload| == o.header.length
          && ControlOk(o.header.typeId, p.payload))
  }

  predicate SenderOk(s: Sender) {
    s.chunkSize > 0 && forall c :: c in s.streams ==> OutgoingOk(c, s.streams[c])
  }

  /** The part of `payload` the next chunk carries. */
  function Cut(s: Sender, payload: seq<byte>, pos: nat): nat
    requires s.chunkSize > 0 && pos <= |payload|
  {
    Min(s.chunkSize, |payload| - pos)
  }

  function MessageOf(c: byte, h: Header, payload: seq<byte>): Message {
    Message(c, h.timestamp, h.typeId, h.streamId, payload)
  }

  /** The sender after the chunk of stream `c` that carries `payload` from `pos`. */
  function Pushed(s: Sender, c: int, h: Header, payload: seq<byte>, pos: nat): Sender
    requires s.chunkSize > 0 && pos <= |payload| && ControlOk(h.typeId, payload)
  {
    var end := pos + Cut(s, payload, pos);
    if end < |payload| then s.(streams := s.streams[c := Outgoing(h, Some(Pending(payload, end)))])
    else
      var done := s.(streams := s.streams[c := Outgoing(h, None)]);
      if h.typeId == TYPE_SET_CHUNK_SIZE then done.(chunkSize := I32(FromBe(payload[..4])))
      else if h.typeId == TYPE_ABORT then done.(streams := done.streams - {FromBe(payload[..4])})
      else done
  }

  /** The message that chunk completes, if the session is to see it. */
  function Finished(s: Sender, c: byte, h: Header, payload: seq<byte>, pos: nat): seq<Delivery>
    requires s.chunkSize > 0 && pos <= |payload|
  {
    var m := MessageOf(c, h, payload);
    if pos + Cut(s, payload, pos) == |payload| && !IsControl(m) then [Delivery(c, m)] else []
  }

  function Emit(s: Sender, a: Action): seq<byte>
    requires SenderOk(s) && Enabled(s, a)
  {
    match a
    case Start(c, wh, payload) => [Fmt(wh) * 64 + c] + HeaderBytes(wh) + payload[..Cut(s, payload, 0)]
    case More(c) =>
      var p := s.streams[c].pending.value;
      [3 * 64 + c] + p.payload[p.pos..p.pos + Cut(s, p.payload, p.pos)]
  }

  function Next(s: Sender, a: Action): Sender
    requires SenderOk(s) && Enabled(s, a)
  {
    match a
    case Start(c, wh, payload) => Pushed(s, c, Expand(Lookup(s, c), wh), payload, 0)
    case More(c) => var o := s.streams[c]; Pushed(s, c, o.header, o.pending.value.payload, o.pending.value.pos)
  }

  function Sent(s: Sender, a: Action): seq<Delivery>
    requires SenderOk(s) && Enabled(s, a)
  {
    match a
    case Start(c, wh, payload) => Finished(s, c, Expand(Lookup(s, c), wh), payload, 0)
    case More(c) => var o := s.streams[c]; Finished(s, c, o.header, o.pending.value.payload, o.pending.value.pos)
  }

  lemma NextOk(s: Sender, a: Action)
    requires SenderOk(s) && Enabled(s, a)
    ensures SenderOk(Next(s, a))
  {
  }

  // ------------------------------------------------------------------
  // The receiver that mirrors a sender

  function MirrorStream(o: Outgoing): Stream
    requires o.pending.Some? ==> o.pending.value.pos <= |o.pending.value.payload|
  {
    if o.pending.None? then Stream(o.header, None)
    else
      var p := o.pending.value;
      Stream(o.header, Some(Assembly(|p.payload|, p.payload[..p.pos])))
  }

  function Mirror(s: Sender): Receiver
    requires SenderOk(s)
  {
    Receiver(s.chunkSize, map c | c in s.streams :: MirrorStream(s.streams[c]))
  }

  lemma BasicReadBack(fmt: int, c: int, body: seq<byte>)
    requires 0 <= fmt < 4 && 2 <= c < 64
    ensures ReadBasic([fmt * 64 + c] + body) == Got(Basic(fmt, c), body)
  {
    var w := [fmt * 64 + c] + body;
    assert w[1..] == body;
  }

  /** Every wire header is read back as the full header it stands for. */
  lemma HeaderReadBack(prev: Option<Outgoing>, wh: WireHeader, body: seq<byte>)
    requires HeaderFits(prev, wh)
    requires prev.Some? ==> prev.value.pending.None?
    ensures var was := if prev.Some? then Some(MirrorStream(prev.value)) else None;
            ReadHeader(Fmt(wh), was, HeaderBytes(wh) + body) == Got(Stream(Expand(prev, wh), None), body)
  {
    Pow256Values();
    hide ToBe, FromBe, Pow256;
    var w := HeaderBytes(wh) + body;
    match wh
    case Full(h) =>
      FullHeaderReadBack(if prev.Some? then Some(MirrorStream(prev.value)) else None, h, body);
    case Changed(delta, length, typeId) =>
      BeRoundTrip(delta, 3);
      BeRoundTrip(length, 3);
      assert w[..3] == ToBe(delta, 3) && w[3..6] == ToBe(length, 3);
      assert w[6] == typeId && w[7..] == body;
    case Shifted(delta) =>
      BeRoundTrip(delta, 3);
      assert w[..3] == ToBe(delta, 3) && w[3..] == body;
    case Repeated =>
      assert w == body;
  }

  /** Where the fields of a full header lie. */
  lemma FullLayout(a: seq<byte>, b: seq<byte>, t: byte, c: seq<byte>, body: seq<byte>)
    requires |a| == 3 && |b| == 3 && |c| == 4
    ensures var w := a + b + [t] + c + body;
            w[..3] == a && w[3..6] == b && w[6] == t && w[7..11] == c && w[11..] == body
  {
  }

  lemma FullHeaderReadBack(prev: Option<Stream>, h: Header, body: seq<byte>)
    requires 0 <= h.timestamp < EXTENDED && h.length < MAX_MESSAGE
    ensures ReadHeader(0, prev, HeaderBytes(Full(h)) + body) == Got(Stream(h, None), body)
  {
    var a, b, c := ToBe(U32(h.timestamp), 3), ToBe(h.length, 3), ToBe(U32(h.streamId), 4);
    assert FromBe(a) == h.timestamp && FromBe(b) == h.length && I32(FromBe(c)) == h.streamId by {
      Pow256Values();
      BeRoundTrip(U32(h.timestamp), 3);
      BeRoundTrip(h.length, 3);
      BeRoundTrip(U32(h.streamId), 4);
      U32RoundTrip(h.streamId);
    }
    FullLayout(a, b, h.typeId, c, body);
  }

  /** The payload of a chunk is appended to what the mirror already holds. */
  lemma PayloadReadBack(s: Sender, c: byte, h: Header, payload: seq<byte>, pos: nat, rest: seq<byte>)
    requires s.chunkSize > 0 && 2 <= c < 64
    requires pos < |payload| == h.length < MAX_MESSAGE
    ensures var held := if pos == 0 then None else Some(Assembly(|payload|, payload[..pos]));
            var end := pos + Cut(s, payload, pos);
            ReadPayload(c, s.chunkSize, Stream(h, held), payload[pos..end] + rest) ==
            if end == |payload| then Complete(Stream(h, None), MessageOf(c, h, payload), rest)
            else Partial(Stream(h, Some(Assembly(|payload|, payload[..end]))), rest)
  {
    var end := pos + Cut(s, payload, pos);
    var w := payload[pos..end] + rest;
    assert w[..end - pos] == payload[pos..end] && w[end - pos..] == rest;
    assert payload[..pos] + payload[pos..end] == payload[..end];
    if end == |payload| {
      assert payload[..end] == payload;
    }
  }

  lemma MirrorUpdate(s: Sender, c: int, o: Outgoing)
    requires SenderOk(s) && OutgoingOk(c, o)
    ensures Mirror(s.(streams := s.streams[c := o])).streams == Mirror(s).streams[c := MirrorStream(o)]
  {
  }

  lemma MirrorRemove(s: Sender, c: int)
    requires SenderOk(s)
    ensures Mirror(s.(streams := s.streams - {c})).streams == Mirror(s).streams - {c}
  {
  }

  /** The bookkeeping both sides do when a chunk of `payload` has been moved. */
  lemma PushedMirror(s: Sender, c: byte, h: Header, payload: seq<byte>, pos: nat, rest: seq<byte>,
                     accept: Message -> bool)
    requires SenderOk(s) && 2 <= c < 64
    requires pos < |payload| == h.length < MAX_MESSAGE && ControlOk(h.typeId, payload)
    ensures var end := pos + Cut(s, payload, pos);
            var r := Mirror(s);
            var done := r.(streams := r.streams[c := Stream(h, None)]);
            var part := Stream(h, Some(Assembly(|payload|, payload[..end])));
            var ds := Finished(s, c, h, payload, pos);
            (if end == |payload| then Finish(done, c, MessageOf(c, h, payload), rest, accept)
             else Continue(r.(streams := r.streams[c := part]), [], rest))
            == if AllTaken(ds, accept) then Continue(Mirror(Pushed(s, c, h, payload, pos)), ds, rest) else Stop(-18, ds)
  {
    var end := pos + Cut(s, payload, pos);
    TakenOne(Delivery(c, MessageOf(c, h, payload)), accept);
    if end == |payload| {
      var o := Outgoing(h, None);
      MirrorUpdate(s, c, o);
      var done := s.(streams := s.streams[c := o]);
      if h.typeId == TYPE_ABORT {
        MirrorRemove(done, FromBe(payload[..4]));
      } else if h.typeId == TYPE_SET_CHUNK_SIZE {
        var size := I32(FromBe(payload[..4]));
        assert Mirror(done.(chunkSize := size)).streams == Mirror(done).streams;
      }
    } else {
      MirrorUpdate(s, c, Outgoing(h, Some(Pending(payload, end))));
    }
  }

  lemma MoreBasic(s: Sender, c: int, rest: seq<byte>)
    requires SenderOk(s) && Enabled(s, More(c))
    ensures var p := s.streams[c].pending.value;
            ReadBasic(Emit(s, More(c)) + rest)
            == Got(Basic(3, c), p.payload[p.pos..p.pos + Cut(s, p.payload, p.pos)] + rest)
  {
    var p := s.streams[c].pending.value;
    var data := p.payload[p.pos..p.pos + Cut(s, p.payload, p.pos)];
    assert Emit(s, More(c)) + rest == [3 * 64 + c] + (data + rest);
    BasicReadBack(3, c, data + rest);
  }

  /** The turn of the receiver that answers an action: it mirrors the sender again, unless the
      session refuses the message that was finished. */
  function Turn(s: Sender, a: Action, rest: seq<byte>, accept: Message -> bool): RtmpChunkStream.Outcome
    requires SenderOk(s) && Enabled(s, a)
  {
    NextOk(s, a);
    if AllTaken(Sent(s, a), accept) then Continue(Mirror(Next(s, a)), Sent(s, a), rest) else Stop(-18, Sent(s, a))
  }

  lemma MoreSimulates(s: Sender, c: int, rest: seq<byte>, accept: Message -> bool)
    requires SenderOk(s) && Enabled(s, More(c))
    ensures Step(Mirror(s), Emit(s, More(c)) + rest, accept) == Turn(s, More(c), rest, accept)
  {
    var o := s.streams[c];
    var p := o.pending.value;
    MoreBasic(s, c, rest);
    PayloadReadBack(s, c, o.header, p.payload, p.pos, rest);
    PushedMirror(s, c, o.header, p.payload, p.pos, rest, accept);
    assert Find(Mirror(s).streams, c) == Some(MirrorStream(o));
  }

  lemma StartBasic(s: Sender, c: int, wh: WireHeader, payload: seq<byte>, rest: seq<byte>)
    requires SenderOk(s) && Enabled(s, Start(c, wh, payload))
    ensures ReadBasic(Emit(s, Start(c, wh, payload)) + rest)
            == Got(Basic(Fmt(wh), c), HeaderBytes(wh) + (payload[0..0 + Cut(s, payload, 0)] + rest))
  {
    var data := payload[..Cut(s, payload, 0)];
    assert data == payload[0..0 + Cut(s, payload, 0)];
    assert Emit(s, Start(c, wh, payload)) + rest == [Fmt(wh) * 64 + c] + (HeaderBytes(wh) + (data + rest));
    BasicReadBack(Fmt(wh), c, HeaderBytes(wh) + (data + rest));
  }

  lemma StartSimulates(s: Sender, c: int, wh: WireHeader, payload: seq<byte>, rest: seq<byte>, accept: Message -> bool)
    requires SenderOk(s) && Enabled(s, Start(c, wh, payload))
    ensures Step(Mirror(s), Emit(s, Start(c, wh, payload)) + rest, accept)
            == Turn(s, Start(c, wh, payload), rest, accept)
  {
    hide ReadHeader, ReadPayload, HeaderBytes, ReadBasic, Emit;
    var h := Expand(Lookup(s, c), wh);
    var data := payload[0..0 + Cut(s, payload, 0)];
    StartBasic(s, c, wh, payload, rest);
    HeaderReadBack(Lookup(s, c), wh, data + rest);
    PayloadReadBack(s, c, h, payload, 0, rest);
    PushedMirror(s, c, h, payload, 0, rest, accept);
    assert Find(Mirror(s).streams, c) == if c in s.streams then Some(MirrorStream(s.streams[c])) else None;
  }

  /** One action of the sender is one turn of the receiver: the receiver that mirrors the
      sender consumes exactly the emitted bytes, delivers exactly the finished message and
      mirrors the sender again; or it stops, if the session refuses that message. */
  lemma StepSimulates(s: Sender, a: Action, rest: seq<byte>, accept: Message -> bool)
    requires SenderOk(s) && Enabled(s, a)
    ensures Step(Mirror(s), Emit(s, a) + rest, accept)
            == if AllTaken(Sent(s, a), accept) then Continue(Mirror(Next(s, a)), Sent(s, a), rest)
               else Stop(-18, Sent(s, a))
  {
    match a
    case Start(c, wh, payload) => StartSimulates(s, c, wh, payload, rest, accept);
    case More(c) => MoreSimulates(s, c, rest, accept);
  }

  // ------------------------------------------------------------------
  // Whole runs

  predicate AllEnabled(s: Sender, acts: seq<Action>)
    requires SenderOk(s)
    decreases |acts|
  {
    acts == [] ||
    (Enabled(s, acts[0]) && (NextOk(s, acts[0]); AllEnabled(Next(s, acts[0]), acts[1..])))
  }

  function Wire(s: Sender, acts: seq<Action>): seq<byte>
    requires SenderOk(s) && AllEnabled(s, acts)
    decreases |acts|
  {
    if acts == [] then [] else NextOk(s, acts[0]); Emit(s, acts[0]) + Wire(Next(s, acts[0]), acts[1..])
  }

  function AllSent(s: Sender, acts: seq<Action>): seq<Delivery>
    requires SenderOk(s) && AllEnabled(s, acts)
    decreases |acts|
  {
    if acts == [] then [] else NextOk(s, acts[0]); Sent(s, acts[0]) + AllSent(Next(s, acts[0]), acts[1..])
  }

  function Last(s: Sender, acts: seq<Action>): (l: Sender)
    requires SenderOk(s) && AllEnabled(s, acts)
    ensures SenderOk(l)
    decreases |acts|
  {
    if acts == [] then s else NextOk(s, acts[0]); Last(Next(s, acts[0]), acts[1..])
  }

  /** The sender as it was when it finished the first message the session refuses; the last
      sender if there is none. */
  function Halted(s: Sender, acts: seq<Action>, accept: Message -> bool): (l: Sender)
    requires SenderOk(s) && AllEnabled(s, acts)
    ensures SenderOk(l)
    decreases |acts|
  {
    if acts == [] || !AllTaken(Sent(s, acts[0]), accept) then s
    else NextOk(s, acts[0]); Halted(Next(s, acts[0]), acts[1..], accept)
  }

  /** The receiver works through everything the sender emitted and carries on with `rest`, or
      stops at the first message the session refuses. */
  lemma {:induction false} RunThrough(s: Sender, acts: seq<Action>, rest: seq<byte>, accept: Message -> bool)
    requires SenderOk(s) && AllEnabled(s, acts)
    ensures Run(Mirror(s), Wire(s, acts) + rest, accept)
            == Through(AllSent(s, acts), accept, Mirror(Halted(s, acts, accept)),
                       Run(Mirror(Last(s, acts)), rest, accept))
    decreases |acts|
  {
    hide Mirror, Emit, Step, Next, Sent, Enabled;
    if acts == [] {
      assert Wire(s, acts) + rest == rest;
      var e := Run(Mirror(s), rest, accept);
      assert [] + e.delivered == e.delivered;
    } else {
      NextOk(s, acts[0]);
      var n := Next(s, acts[0]);
      var first := Sent(s, acts[0]);
      var w, d := Wire(n, acts[1..]), AllSent(n, acts[1..]);
      StepSimulates(s, acts[0], w + rest, accept);
      Assoc(Emit(s, acts[0]), w, rest);
      HeardAppend(first, d, accept);
      if AllTaken(first, accept) {
        RunContinues(Mirror(s), Emit(s, acts[0]) + (w + rest), accept, Mirror(n), first, w + rest);
        RunThrough(n, acts[1..], rest, accept);
        Assoc(first, d, Run(Mirror(Last(s, acts)), rest, accept).delivered);
      } else {
        OneSent(s, acts[0], accept);
      }
    }
  }

  /** An action finishes one message at most. */
  lemma OneSent(s: Sender, a: Action, accept: Message -> bool)
    requires SenderOk(s) && Enabled(s, a)
    ensures |Sent(s, a)| <= 1 && Heard(Sent(s, a), accept) == Sent(s, a)
  {
    assert |Sent(s, a)| <= 1;
    if Sent(s, a) != [] {
      assert Sent(s, a)[1..] == [];
    }
  }

  lemma Assoc<T>(a: seq<T>, b: seq<T>, c: seq<T>)
    ensures (a + b) + c == a + (b + c)
  {
  }

  /** The interleaved round trip. Whatever the sender does, in whatever interleaving of
      chunk streams, with whatever headers, chunk-size changes and aborts, the receiver
      delivers the finished messages in the order they were finished, ends because the
      wire ran dry, and is left mirroring the sender. If the session refuses a message, that is
      the last one delivered and the receiver ends with -18. */
  lemma {:induction false} InterleavedRoundTrip(s: Sender, acts: seq<Action>, accept: Message -> bool)
    requires SenderOk(s) && AllEnabled(s, acts)
    ensures var all := AllSent(s, acts);
            Run(Mirror(s), Wire(s, acts), accept)
            == Ending(Heard(all, accept), false, if AllTaken(all, accept) then -1 else -18,
                      Mirror(Halted(s, acts, accept)))
  {
    hide Mirror, Emit, Next, Sent, Enabled;
    RunThrough(s, acts, [], accept);
    assert Wire(s, acts) + [] == Wire(s, acts);
    var all := AllSent(s, acts);
    var l := Mirror(Last(s, acts));
    assert Run(l, [], accept) == Ending([], false, -1, l);
    HeardAppend(all, [], accept);
    assert all + [] == all;
    if AllTaken(all, accept) {
      NeverHalted(s, acts, accept);
    }
  }

  lemma {:induction false} NeverHalted(s: Sender, acts: seq<Action>, accept: Message -> bool)
    requires SenderOk(s) && AllEnabled(s, acts) && AllTaken(AllSent(s, acts), accept)
    ensures Halted(s, acts, accept) == Last(s, acts)
    decreases |acts|
  {
    hide Next, Sent, Enabled;
    if acts != [] {
      NextOk(s, acts[0]);
      TakenAppend(Sent(s, acts[0]), AllSent(Next(s, acts[0]), acts[1..]), accept);
      NeverHalted(Next(s, acts[0]), acts[1..], accept);
    }
  }

  // ------------------------------------------------------------------
  // Conservation on each chunk stream

  /** The action finishes an abort that names chunk stream `c`. */
  predicate Removes(s: Sender, a: Action, c: int)
    requires SenderOk(s) && Enabled(s, a)
  {
    var (h, p, pos) := Moving(s, a);
    h.typeId == TYPE_ABORT && pos + Cut(s, p, pos) == |p| && FromBe(p[..4]) == c
  }

  /** The header, payload and position an action works on. */
  function Moving(s: Sender, a: Action): (r: (Header, seq<byte>, nat))
    requires SenderOk(s) && Enabled(s, a)
    ensures r.2 < |r.1| && ControlOk(r.0.typeId, r.1)
  {
    match a
    case Start(c, wh, payload) => (Expand(Lookup(s, c), wh), payload, 0)
    case More(c) => var o := s.streams[c]; (o.header, o.pending.value.payload, o.pending.value.pos)
  }

  /** No abort of the run names chunk stream `c`. */
  predicate Spared(s: Sender, acts: seq<Action>, c: int)
    requires SenderOk(s) && AllEnabled(s, acts)
    decreases |acts|
  {
    acts == [] ||
    (!Removes(s, acts[0], c) && (NextOk(s, acts[0]); Spared(Next(s, acts[0]), acts[1..], c)))
  }

  function Visible(c: byte, h: Header, payload: seq<byte>): seq<Delivery> {
    var m := MessageOf(c, h, payload);
    if IsControl(m) then [] else [Delivery(c, m)]
  }

  /** The message in progress on `c`, if the session is to see it. */
  function InFlight(s: Sender, c: byte): seq<Delivery> {
    if c in s.streams && s.streams[c].pending.Some?
    then Visible(c, s.streams[c].header, s.streams[c].pending.value.payload) else []
  }

  /** The messages an action list starts on `c`, in order. */
  function Started(s: Sender, acts: seq<Action>, c: byte): seq<Delivery>
    requires SenderOk(s) && AllEnabled(s, acts)
    decreases |acts|
  {
    if acts == [] then []
    else
      NextOk(s, acts[0]);
      (if acts[0].Start? && acts[0].csid == c
       then Visible(c, Expand(Lookup(s, c), acts[0].wh), acts[0].payload) else [])
      + Started(Next(s, acts[0]), acts[1..], c)
  }

  lemma StepConserves(s: Sender, a: Action, c: byte)
    requires SenderOk(s) && Enabled(s, a) && !Removes(s, a, c)
    ensures On(Sent(s, a), c) + InFlight(Next(s, a), c)
            == InFlight(s, c) + (if a.Start? && a.csid == c
                                 then Visible(c, Expand(Lookup(s, c), a.wh), a.payload) else [])
  {
    hide FromBe, HeaderFits, I32;
  }

  /** On every chunk stream no abort names, the receiver gets exactly the messages started
      there, in order and once each, except the one still in flight. */
  lemma {:induction false} Conservation(s: Sender, acts: seq<Action>, c: byte)
    requires SenderOk(s) && AllEnabled(s, acts) && Spared(s, acts, c)
    ensures On(AllSent(s, acts), c) + InFlight(Last(s, acts), c) == InFlight(s, c) + Started(s, acts, c)
    decreases |acts|
  {
    if acts != [] {
      NextOk(s, acts[0]);
      var n := Next(s, acts[0]);
      StepConserves(s, acts[0], c);
      Conservation(n, acts[1..], c);
      OnAppend(Sent(s, acts[0]), AllSent(n, acts[1..]), c);
      var sent, later := On(Sent(s, acts[0]), c), On(AllSent(n, acts[1..]), c);
      var begun := if acts[0].Start? && acts[0].csid == c
                   then Visible(c, Expand(Lookup(s, c), acts[0].wh), acts[0].payload) else [];
      var last, more := InFlight(Last(n, acts[1..]), c), Started(n, acts[1..], c);
      Regroup(sent, later, last, InFlight(n, c), more, InFlight(s, c), begun);
    }
  }

  lemma Regroup<T>(sent: seq<T>, later: seq<T>, last: seq<T>, mid: seq<T>, more: seq<T>, first: seq<T>, begun: seq<T>)
    requires later + last == mid + more && sent + mid == first + begun
    ensures (sent + later) + last == first + (begun + more)
  {
    assert (sent + later) + last == sent + (later + last);
    assert sent + (mid + more) == (sent + mid) + more;
    assert first + (begun + more) == (first + begun) + more;
  }

  /** The same for what the receiver hands up: from any point where no message is in
      flight to another, a chunk stream delivers exactly what was started on it. */
  lemma {:induction false} DeliveredPerStream(s: Sender, acts: seq<Action>, c: byte, accept: Message -> bool)
    requires SenderOk(s) && AllEnabled(s, acts) && Spared(s, acts, c)
    requires InFlight(s, c) == [] && InFlight(Last(s, acts), c) == []
    requires AllTaken(AllSent(s, acts), accept)
    ensures On(Run(Mirror(s), Wire(s, acts), accept).delivered, c) == Started(s, acts, c)
  {
    hide Run, Heard, Mirror, Next, Sent, Enabled, InFlight;
    InterleavedRoundTrip(s, acts, accept);
    HeardAll(AllSent(s, acts), accept);
    var got, begun := On(AllSent(s, acts), c), Started(s, acts, c);
    assert got == begun by {
      Conservation(s, acts, c);
      assert got + [] == got && [] + begun == begun;
    }
  }

  lemma FreshMirror(s: Sender)
    requires s.chunkSize > 0 && s.streams == map[]
    ensures Mirror(s) == Receiver(s.chunkSize, map[])
  {
  }

  // ------------------------------------------------------------------
  // Header decompression preserves meaning

  /** The same action with the full header spelled out. */
  function PlainAction(s: Sender, a: Action): Action
    requires SenderOk(s) && Enabled(s, a)
  {
    match a
    case Start(c, wh, payload) => Start(c, Full(Expand(Lookup(s, c), wh)), payload)
    case More(_) => a
  }

  function Plain(s: Sender, acts: seq<Action>): seq<Action>
    requires SenderOk(s) && AllEnabled(s, acts)
    decreases |acts|
  {
    if acts == [] then []
    else NextOk(s, acts[0]); [PlainAction(s, acts[0])] + Plain(Next(s, acts[0]), acts[1..])
  }

  /** Every timestamp of the run fits a full header. */
  predicate TimestampsFit(s: Sender, acts: seq<Action>)
    requires SenderOk(s) && AllEnabled(s, acts)
    decreases |acts|
  {
    acts == [] ||
    (NextOk(s, acts[0]);
     && (acts[0].Start? ==> 0 <= Expand(Lookup(s, acts[0].csid), acts[0].wh).timestamp < EXTENDED)
     && TimestampsFit(Next(s, acts[0]), acts[1..]))
  }

  lemma {:induction false} PlainRun(s: Sender, acts: seq<Action>)
    requires SenderOk(s) && AllEnabled(s, acts) && TimestampsFit(s, acts)
    ensures AllEnabled(s, Plain(s, acts))
    ensures AllSent(s, Plain(s, acts)) == AllSent(s, acts)
    ensures Last(s, Plain(s, acts)) == Last(s, acts)
    ensures forall accept :: Halted(s, Plain(s, acts), accept) == Halted(s, acts, accept)
    decreases |acts|
  {
    if acts != [] {
      NextOk(s, acts[0]);
      var a := PlainAction(s, acts[0]);
      assert Plain(s, acts)[0] == a && Plain(s, acts)[1..] == Plain(Next(s, acts[0]), acts[1..]);
      assert Enabled(s, a) && Next(s, a) == Next(s, acts[0]) && Sent(s, a) == Sent(s, acts[0]);
      PlainRun(Next(s, acts[0]), acts[1..]);
    }
  }

  /** A stream with compressed headers and the stream with every header spelled out make
      the receiver deliver the same messages and end in the same state. */
  lemma {:induction false} DecompressionPreservesMeaning(s: Sender, acts: seq<Action>, accept: Message -> bool)
    requires SenderOk(s) && AllEnabled(s, acts) && TimestampsFit(s, acts)
    ensures AllEnabled(s, Plain(s, acts))
    ensures Run(Mirror(s), Wire(s, acts), accept) == Run(Mirror(s), Wire(s, Plain(s, acts)), accept)
  {
    PlainRun(s, acts);
    InterleavedRoundTrip(s, acts, accept);
    InterleavedRoundTrip(s, Plain(s, acts), accept);
  }

  /** The headers an action list puts on chunk stream `c`. */
  function HeadersOn(acts: seq<Action>, c: int): seq<WireHeader> {
    if acts == [] then []
    else (if acts[0].Start? && acts[0].csid == c then [acts[0].wh] else []) + HeadersOn(acts[1..], c)
  }

  /** The sum of the timestamp deltas a list of headers carries. */
  function DeltaSum(whs: seq<WireHeader>): nat {
    if whs == [] then 0
    else (if whs[0].Changed? || whs[0].Shifted? then whs[0].delta else 0) + DeltaSum(whs[1..])
  }

  /** The last length a list of headers carries explicitly, or the given one. */
  function LastLength(length: nat, whs: seq<WireHeader>): nat
    decreases |whs|
  {
    if whs == [] then length
    else
      LastLength(match whs[0]
                 case Full(h) => h.length
                 case Changed(_, n, _) => n
                 case _ => length, whs[1..])
  }

  /** The last message type a list of headers carries explicitly, or the given one. */
  function LastType(typeId: byte, whs: seq<WireHeader>): byte
    decreases |whs|
  {
    if whs == [] then typeId
    else
      LastType(match whs[0]
               case Full(h) => h.typeId
               case Changed(_, _, t) => t
               case _ => typeId, whs[1..])
  }

  /** After a full header, and then any compressed ones, the header in force has the full
      header's timestamp plus the sum of the deltas, its stream id, and the last length and
      type sent explicitly. */
  lemma {:induction false} HeaderInForce(s: Sender, acts: seq<Action>, c: int)
    requires SenderOk(s) && AllEnabled(s, acts) && Spared(s, acts, c)
    requires c in s.streams
    requires forall i :: 0 <= i < |HeadersOn(acts, c)| ==> !HeadersOn(acts, c)[i].Full?
    ensures var l := Last(s, acts);
            var whs := HeadersOn(acts, c);
            var base := s.streams[c].header;
            && c in l.streams
            && l.streams[c].header.timestamp == base.timestamp + DeltaSum(whs)
            && l.streams[c].header.streamId == base.streamId
            && l.streams[c].header.length == LastLength(base.length, whs)
            && l.streams[c].header.typeId == LastType(base.typeId, whs)
    decreases |acts|
  {
    if acts != [] {
      NextOk(s, acts[0]);
      var own := acts[0].Start? && acts[0].csid == c;
      var whs := HeadersOn(acts, c);
      if own {
        assert whs[0] == acts[0].wh && whs[1..] == HeadersOn(acts[1..], c);
      } else {
        assert whs == HeadersOn(acts[1..], c);
      }
      assert c in Next(s, acts[0]).streams;
      HeaderInForce(Next(s, acts[0]), acts[1..], c);
    }
  }

  // ------------------------------------------------------------------
  // What section 5.3.1.2.4 of the RTMP specification prescribes for type-3 headers

  /** The delta in force: a full header sets it to its timestamp, and a type-3 header repeats it. */
  function DeltaAfter(delta: int, wh: WireHeader): int {
    match wh
    case Full(h) => h.timestamp
    case Changed(d, _, _) => d
    case Shifted(d) => d
    case Repeated => delta
  }

  /** The timestamp of a message that starts with `wh`, as the specification has it. */
  function Prescribed(timestamp: int, delta: int, wh: WireHeader): int {
    match wh
    case Full(h) => h.timestamp
    case Changed(d, _, _) => timestamp + d
    case Shifted(d) => timestamp + d
    case Repeated => timestamp + delta
  }

  /** All along a run, the header in force on chunk stream `c` has the prescribed timestamp. */
  predicate PrescribedAlong(s: Sender, acts: seq<Action>, c: int, timestamp: int, delta: int)
    requires SenderOk(s) && AllEnabled(s, acts)
    decreases |acts|
  {
    && (c in s.streams ==> s.streams[c].header.timestamp == timestamp)
    && (acts == [] ||
        (NextOk(s, acts[0]);
         if acts[0].Start? && acts[0].csid == c then
           var wh := acts[0].wh;
           PrescribedAlong(Next(s, acts[0]), acts[1..], c, Prescribed(timestamp, delta, wh), DeltaAfter(delta, wh))
         else PrescribedAlong(Next(s, acts[0]), acts[1..], c, timestamp, delta)))
  }

  /** No message starts with a type-3 header while a delta other than 0 is in force. */
  predicate NoDeltaRepeated(delta: int, whs: seq<WireHeader>)
    decreases |whs|
  {
    whs == [] || ((whs[0].Repeated? ==> delta == 0) && NoDeltaRepeated(DeltaAfter(delta, whs[0]), whs[1..]))
  }

  /** The program gives the messages of a chunk stream the prescribed timestamps exactly when no
      type-3 header repeats a delta other than 0. */
  lemma {:induction false} PrescribedIff(s: Sender, acts: seq<Action>, c: int, delta: int)
    requires SenderOk(s) && AllEnabled(s, acts) && Spared(s, acts, c)
    requires c in s.streams
    ensures PrescribedAlong(s, acts, c, s.streams[c].header.timestamp, delta)
            <==> NoDeltaRepeated(delta, HeadersOn(acts, c))
    decreases |acts|
  {
    if acts != [] {
      NextOk(s, acts[0]);
      var n := Next(s, acts[0]);
      var whs := HeadersOn(acts, c);
      assert c in n.streams;
      if acts[0].Start? && acts[0].csid == c {
        var wh := acts[0].wh;
        assert whs[0] == wh && whs[1..] == HeadersOn(acts[1..], c);
        assert n.streams[c].header == Expand(Lookup(s, c), wh);
        PrescribedIff(n, acts[1..], c, DeltaAfter(delta, wh));
      } else {
        assert whs == HeadersOn(acts[1..], c);
        PrescribedIff(n, acts[1..], c, delta);
      }
    }
  }

  function OneByte(timestamp: int32): Delivery {
    Delivery(4, Message(4, timestamp, 8, 1, [7]))
  }

  /** A witness: messages at 0 and, by a type-2 header, at 40, and then a type-3 header. The
      receiver delivers the third message at 40, where 80 is prescribed. */
  lemma RepeatedDeltaIsLost(accept: Message -> bool)
    requires AllTaken([OneByte(0), OneByte(40), OneByte(40)], accept)
    ensures var s := Sender(128, map[]);
            var acts := [Start(4, Full(Header(0, 1, 8, 1)), [7]), Start(4, Shifted(40), [7]), Start(4, Repeated, [7])];
            && AllEnabled(s, acts)
            && Run(Initial(), Wire(s, acts), accept).delivered == [OneByte(0), OneByte(40), OneByte(40)]
            && Prescribed(Prescribed(0, 0, Shifted(40)), DeltaAfter(0, Shifted(40)), Repeated) == 80
  {
    hide Wire, Run, Mirror;
    var h := Header(0, 1, 8, 1);
    var a, b, c := Start(4, Full(h), [7]), Start(4, Shifted(40), [7]), Start(4, Repeated, [7]);
    var s := Sender(128, map[]);
    var s1 := Sender(128, map[4 := Outgoing(h, None)]);
    var s2 := Sender(128, map[4 := Outgoing(h.(timestamp := 40), None)]);
    assert Enabled(s, a) && Next(s, a) == s1 && Sent(s, a) == [OneByte(0)];
    assert Enabled(s1, b) && Next(s1, b) == s2 && Sent(s1, b) == [OneByte(40)];
    assert Enabled(s2, c) && Next(s2, c) == s2 && Sent(s2, c) == [OneByte(40)];
    LastAction(s2, c);
    assert [b, c][1..] == [c] && [a, b, c][1..] == [b, c];
    assert AllEnabled(s1, [b, c]) && AllSent(s1, [b, c]) == [OneByte(40)] + [OneByte(40)];
    assert AllEnabled(s, [a, b, c]) && AllSent(s, [a, b, c]) == [OneByte(0)] + [OneByte(40), OneByte(40)];
    FreshMirror(s);
    InterleavedRoundTrip(s, [a, b, c], accept);
    assert [OneByte(0)] + [OneByte(40), OneByte(40)] == [OneByte(0), OneByte(40), OneByte(40)];
    HeardAll([OneByte(0), OneByte(40), OneByte(40)], accept);
  }

  lemma LastAction(s: Sender, a: Action)
    requires SenderOk(s) && Enabled(s, a)
    ensures AllEnabled(s, [a]) && AllSent(s, [a]) == Sent(s, a)
  {
    NextOk(s, a);
    assert [a][1..] == [];
  }
}
