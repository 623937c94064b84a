/** The receiving half of the RTMP chunk stream (section 5.3 of the Adobe RTMP 1.0
    specification) as a function of the receiver's state and the bytes on the wire.
    The heap version in RtmpChunkProtocol is proved to compute exactly these functions. */
module RtmpChunkStream {
  import opened Bytes

  const MAX_MESSAGE: int := 2 * 1024 * 1024
  const EXTENDED: int := 0xff_ffff
  const TYPE_SET_CHUNK_SIZE: byte := 1
  const TYPE_ABORT: byte := 2

  datatype Message = Message(csid: byte, timestamp: int32, typeId: byte, streamId: int32, payload: seq<byte>)

  datatype Header = Header(timestamp: int32, length: nat, typeId: byte, streamId: int32)

  /** A message under construction: the size of its buffer and the bytes stored so far. */
  datatype Assembly = Assembly(capacity: nat, data: seq<byte>)

  datatype Stream = Stream(header: Header, held: Option<Assembly>)

  datatype Receiver = Receiver(inChunkSize: int32, streams: map<int, Stream>)

  /** A message handed to the session, with the chunk stream it came from. */
  datatype Delivery = Delivery(cid: int, msg: Message)

  /** What one chunk does to the whole connection. `Fault` is a write outside the
      message buffer, for which the C++ program has no defined behaviour. */
  datatype Outcome =
    | Continue(next: Receiver, delivered: seq<Delivery>, rest: seq<byte>)
    | Stop(code: int, delivered: seq<Delivery>)
    | Fault

  /** What one chunk does to its own chunk stream. */
  datatype StreamOutcome =
    | Partial(stream: Stream, rest: seq<byte>)
    | Complete(stream: Stream, msg: Message, rest: seq<byte>)
    | Refused(code: int)
    | Overrun

  datatype Read<+T> = Got(value: T, rest: seq<byte>) | Short(code: int)

  datatype Basic = Basic(fmt: int, cid: int)

  function Initial(): Receiver {
    Receiver(128, map[])
  }

  function Find(streams: map<int, Stream>, cid: int): Option<Stream> {
    if cid in streams then Some(streams[cid]) else None
  }

  /** The basic header. A first byte with a zero id is followed by one more byte, which
      the program reads but adds only when the read failed. */
  function ReadBasic(w: seq<byte>): (r: Read<Basic>)
    ensures r.Got? ==> |r.rest| < |w| && 0 <= r.value.fmt < 4
  {
    if |w| < 1 then Short(-1)
    else
      var first: int := w[0];
      var cid := first % 64;
      var fmt := first / 64;
      if cid == 0 then
        if |w| < 2 then Got(Basic(fmt, 64 + first), []) else Got(Basic(fmt, 0), w[2..])
      else if cid == 1 then
        if |w| < 3 then Short(-2)
        else
          var low: int, high: int := w[1], w[2];
          Got(Basic(fmt, 64 + low + high * 256), w[3..])
      else Got(Basic(fmt, cid), w[1..])
  }

  /** The message header of a chunk of the given format, applied to the previous chunk
      of the same chunk stream. A full header drops a message under construction. */
  function ReadHeader(fmt: int, prev: Option<Stream>, w: seq<byte>): (r: Read<Stream>)
    requires 0 <= fmt < 4
    ensures r.Got? ==> |r.rest| <= |w|
  {
    if fmt == 0 then
      if |w| < 3 then Short(-3)
      else if |w| < 6 then Short(-4)
      else if |w| < 7 then Short(-5)
      else if |w| < 11 then Short(-6)
      else
        var ts := FromBe(w[..3]);
        if ts == EXTENDED && |w| < 15 then Short(-7)
        else if ts == EXTENDED then
          Got(Stream(Header(I32(FromBe(w[11..15])), FromBe(w[3..6]), w[6], I32(FromBe(w[7..11]))), None), w[15..])
        else
          Got(Stream(Header(I32(ts), FromBe(w[3..6]), w[6], I32(FromBe(w[7..11]))), None), w[11..])
    else if fmt == 1 then
      if prev.None? then Short(-8)
      else if |w| < 3 then Short(-9)
      else if |w| < 6 then Short(-10)
      else if |w| < 7 then Short(-11)
      else
        var h := prev.value.header;
        var changed := Header(I32(h.timestamp + FromBe(w[..3])), FromBe(w[3..6]), w[6], h.streamId);
        Got(Stream(changed, prev.value.held), w[7..])
    else if fmt == 2 then
      if prev.None? then Short(-12)
      else if |w| < 3 then Short(-13)
      else
        var h := prev.value.header;
        Got(Stream(h.(timestamp := I32(h.timestamp + FromBe(w[..3]))), prev.value.held), w[3..])
    else
      if prev.None? then Short(-14) else Got(prev.value, w)
  }

  /** The payload of a chunk: at most `size` bytes appended to the message under construction. */
  function ReadPayload(cid: int, size: int32, s: Stream, w: seq<byte>): (r: StreamOutcome)
    ensures r.Partial? || r.Complete? ==> |r.rest| <= |w|
  {
    var h := s.header;
    if h.length >= MAX_MESSAGE then Refused(-14)
    else
      var a := if s.held.Some? then s.held.value else Assembly(h.length, []);
      var n := Min(size, h.length - |a.data|);
      if n < 0 || |a.data| + n > a.capacity then Overrun
      else if |w| < n then Refused(-15)
      else
        var data := a.data + w[..n];
        if |data| == h.length then
          Complete(Stream(h, None), Message(cid % 256, h.timestamp, h.typeId, h.streamId, data), w[n..])
        else
          Partial(Stream(h, Some(Assembly(a.capacity, data))), w[n..])
  }

  /** Everything a chunk does to its own chunk stream: a function of that stream, the
      current chunk size and the chunk's bytes alone. */
  function StreamStep(b: Basic, size: int32, prev: Option<Stream>, w: seq<byte>): (r: StreamOutcome)
    requires 0 <= b.fmt < 4
    ensures r.Partial? || r.Complete? ==> |r.rest| <= |w|
  {
    match ReadHeader(b.fmt, prev, w)
    case Short(code) => Refused(code)
    case Got(s, rest) => ReadPayload(b.cid, size, s, rest)
  }

  predicate IsControl(m: Message) {
    m.typeId == TYPE_SET_CHUNK_SIZE || m.typeId == TYPE_ABORT
  }

  function ControlValue(m: Message): (v: nat)
    requires |m.payload| >= 4
    ensures v < 0x1_0000_0000
  {
    FromBeBound(m.payload[..4]);
    Pow256Values();
    FromBe(m.payload[..4])
  }

  /** A completed message: chunk control is carried out here, everything else goes up. */
  function Finish(r: Receiver, cid: int, m: Message, rest: seq<byte>, accept: Message -> bool): (o: Outcome) {
    if m.typeId == TYPE_SET_CHUNK_SIZE then
      if |m.payload| < 4 then Stop(-16, [])
      else Continue(r.(inChunkSize := I32(ControlValue(m))), [], rest)
    else if m.typeId == TYPE_ABORT then
      if |m.payload| < 4 then Stop(-17, [])
      else Continue(r.(streams := r.streams - {ControlValue(m)}), [], rest)
    else if accept(m) then Continue(r, [Delivery(cid, m)], rest)
    else Stop(-18, [Delivery(cid, m)])
  }

  /** One turn of the receive loop. */
  function Step(r: Receiver, w: seq<byte>, accept: Message -> bool): (o: Outcome)
    ensures o.Continue? ==> |o.rest| < |w|
  {
    match ReadBasic(w)
    case Short(code) => Stop(code, [])
    case Got(b, body) =>
      match StreamStep(b, r.inChunkSize, Find(r.streams, b.cid), body)
      case Refused(code) => Stop(code, [])
      case Overrun => Fault
      case Partial(s, rest) => Continue(r.(streams := r.streams[b.cid := s]), [], rest)
      case Complete(s, m, rest) => Finish(r.(streams := r.streams[b.cid := s]), b.cid, m, rest, accept)
  }

  /** How a whole connection ends: what was delivered, the code the loop returned
      (or a fault) and the state it was left in. */
  datatype Ending = Ending(delivered: seq<Delivery>, fault: bool, code: int, last: Receiver)

  function Run(r: Receiver, w: seq<byte>, accept: Message -> bool): (e: Ending)
    decreases |w|
  {
    match Step(r, w, accept)
    case Stop(code, d) => Ending(d, false, code, r)
    case Fault => Ending([], true, 0, r)
    case Continue(next, d, rest) =>
      var e := Run(next, rest, accept);
      e.(delivered := d + e.delivered)
  }

  lemma RunContinues(r: Receiver, w: seq<byte>, accept: Message -> bool, next: Receiver, d: seq<Delivery>,
                     rest: seq<byte>)
    requires Step(r, w, accept) == Continue(next, d, rest)
    ensures var e := Run(next, rest, accept);
            Run(r, w, accept) == e.(delivered := d + e.delivered)
  {
  }

  /** The session accepts every message. */
  predicate AllTaken(ds: seq<Delivery>, accept: Message -> bool) {
    forall i :: 0 <= i < |ds| ==> accept(ds[i].msg)
  }

  /** What a session hears of messages handed up one by one: it hears nothing behind the first
      one it refuses. */
  function Heard(ds: seq<Delivery>, accept: Message -> bool): seq<Delivery> {
    if ds == [] then [] else if !accept(ds[0].msg) then [ds[0]] else [ds[0]] + Heard(ds[1..], accept)
  }

  lemma {:induction false} HeardAppend(a: seq<Delivery>, b: seq<Delivery>, accept: Message -> bool)
    ensures Heard(a + b, accept) == if AllTaken(a, accept) then a + Heard(b, accept) else Heard(a, accept)
    ensures AllTaken(a + b, accept) <==> AllTaken(a, accept) && AllTaken(b, accept)
  {
    if a == [] {
      assert a + b == b && [] + Heard(b, accept) == Heard(b, accept);
    } else {
      assert (a + b)[1..] == a[1..] + b && a == [a[0]] + a[1..];
      HeardAppend(a[1..], b, accept);
      if AllTaken(a, accept) {
        assert [a[0]] + (a[1..] + Heard(b, accept)) == a + Heard(b, accept);
      }
      TakenAppend(a, b, accept);
    }
  }

  lemma TakenAppend(a: seq<Delivery>, b: seq<Delivery>, accept: Message -> bool)
    ensures AllTaken(a + b, accept) <==> AllTaken(a, accept) && AllTaken(b, accept)
  {
    if AllTaken(a + b, accept) {
      assert forall i :: 0 <= i < |a| ==> (a + b)[i] == a[i];
      assert forall i :: 0 <= i < |b| ==> (a + b)[|a| + i] == b[i];
    }
  }

  lemma HeardAll(ds: seq<Delivery>, accept: Message -> bool)
    requires AllTaken(ds, accept)
    ensures Heard(ds, accept) == ds
  {
    HeardAppend(ds, [], accept);
    assert ds + [] == ds;
  }

  lemma TakenOne(d: Delivery, accept: Message -> bool)
    ensures AllTaken([d], accept) <==> accept(d.msg)
  {
    assert [d][0] == d;
  }

  /** How a connection ends that hands up `ds` and then goes on to `e`: as `e`, unless one of them
      is refused, which ends it with -18 in the state the refused message found. */
  function Through(ds: seq<Delivery>, accept: Message -> bool, refusedIn: Receiver, e: Ending): Ending {
    if AllTaken(ds, accept) then e.(delivered := ds + e.delivered)
    else Ending(Heard(ds, accept), false, -18, refusedIn)
  }

  // ------------------------------------------------------------------
  // The buffer invariant

  predicate StreamOk(s: Stream) {
    && s.header.length < MAX_MESSAGE
    && (s.held.Some? ==> |s.held.value.data| < s.header.length == s.held.value.capacity)
  }

  /** Every message under construction is shorter than announced, and its buffer has
      exactly the announced size. */
  predicate BuffersOk(r: Receiver) {
    forall c :: c in r.streams ==> StreamOk(r.streams[c])
  }

  /** The bytes to be stored next do not fit: the length `announced` is less than what is
      stored already, or reaches behind the end of the buffer. */
  predicate DoesNotFit(size: int32, announced: nat, a: Assembly) {
    announced < |a.data| || Min(|a.data| + size, announced) > a.capacity
  }

  /** The headers of the next chunk, if both are there and announce a length that is accepted. */
  function NextHeader(r: Receiver, w: seq<byte>): Option<Header> {
    match ReadBasic(w)
    case Short(_) => None
    case Got(b, body) =>
      match ReadHeader(b.fmt, Find(r.streams, b.cid), body)
      case Short(_) => None
      case Got(s, _) => if s.header.length < MAX_MESSAGE then Some(s.header) else None
  }

  /** What the next chunk goes on with: the message under construction on its chunk stream,
      which a full header drops. */
  function Continued(r: Receiver, w: seq<byte>): Option<Assembly> {
    match ReadBasic(w)
    case Short(_) => None
    case Got(b, _) =>
      var prev := Find(r.streams, b.cid);
      if b.fmt == 0 || prev.None? then None else prev.value.held
  }

  /** In every state whatever, a chunk writes outside its buffer exactly when its headers are
      read and the chunk size is negative or the message it continues does not fit. */
  lemma FaultAnywhereIff(r: Receiver, w: seq<byte>, accept: Message -> bool)
    ensures var h := NextHeader(r, w);
            var held := Continued(r, w);
            Step(r, w, accept).Fault?
            <==> h.Some? && (r.inChunkSize < 0 || (held.Some? && DoesNotFit(r.inChunkSize, h.value.length, held.value)))
  {
    hide FromBe, I32;
    var b := ReadBasic(w);
    if b.Got? {
      var h := ReadHeader(b.value.fmt, Find(r.streams, b.value.cid), b.rest);
    }
  }

  /** A type-1 header that arrives in the middle of a message announcing a length the
      buffer was not allocated for, when the bytes to be stored next do not fit. */
  predicate NextIsUnsafe(r: Receiver, w: seq<byte>) {
    var b := ReadBasic(w);
    var h := NextHeader(r, w);
    var held := Continued(r, w);
    b.Got? && b.value.fmt == 1 && h.Some? && held.Some? && DoesNotFit(r.inChunkSize, h.value.length, held.value)
  }

  /** As long as every buffer has the announced size, the next chunk writes outside its buffer
      exactly when it carries such a header, or its headers are read with a negative chunk
      size in force. */
  lemma FaultIff(r: Receiver, w: seq<byte>, accept: Message -> bool)
    requires BuffersOk(r)
    ensures Step(r, w, accept).Fault? <==> NextIsUnsafe(r, w) || (r.inChunkSize < 0 && NextHeader(r, w).Some?)
  {
    hide FromBe, I32, Step;
    FaultAnywhereIff(r, w, accept);
    var b := ReadBasic(w);
    if b.Got? {
      var prev := Find(r.streams, b.value.cid);
      if prev.Some? {
        assert StreamOk(prev.value);
      }
    }
  }

  /** The next chunk keeps the announced length of a message under construction. */
  predicate KeepsLength(prev: Option<Stream>, fmt: int, body: seq<byte>) {
    fmt == 1 && prev.Some? && prev.value.held.Some? && |body| >= 7 ==>
      FromBe(body[3..6]) == prev.value.held.value.capacity
  }

  predicate NextKeepsLength(r: Receiver, w: seq<byte>) {
    var b := ReadBasic(w);
    b.Got? ==> KeepsLength(Find(r.streams, b.value.cid), b.value.fmt, b.rest)
  }

  lemma StreamStepKeepsBuffers(b: Basic, size: int32, prev: Option<Stream>, w: seq<byte>)
    requires 0 <= b.fmt < 4 && size >= 0
    requires prev.Some? ==> StreamOk(prev.value)
    requires KeepsLength(prev, b.fmt, w)
    ensures var o := StreamStep(b, size, prev, w);
            && !o.Overrun?
            && (o.Partial? || o.Complete? ==> StreamOk(o.stream))
  {
    var h := ReadHeader(b.fmt, prev, w);
    if h.Got? {
      var s := h.value;
      assert s.held.Some? ==> prev.Some? && s.held == prev.value.held && s.header.length == prev.value.header.length;
    }
  }

  /** The invariant survives every chunk that keeps announced lengths, while the chunk size in
      force is not negative. */
  lemma StepKeepsBuffers(r: Receiver, w: seq<byte>, accept: Message -> bool)
    requires BuffersOk(r) && r.inChunkSize >= 0 && NextKeepsLength(r, w)
    ensures var o := Step(r, w, accept);
            !o.Fault? && (o.Continue? ==> BuffersOk(o.next))
  {
    var b := ReadBasic(w);
    if b.Got? {
      StreamStepKeepsBuffers(b.value, r.inChunkSize, Find(r.streams, b.value.cid), b.rest);
    }
  }

  /** Every chunk of the run keeps announced lengths and is read with a chunk size that is not
      negative. */
  predicate Disciplined(r: Receiver, w: seq<byte>, accept: Message -> bool)
    decreases |w|
  {
    && r.inChunkSize >= 0 && NextKeepsLength(r, w)
    && match Step(r, w, accept)
       case Continue(next, _, rest) => Disciplined(next, rest, accept)
       case _ => true
  }

  /** No run whose type-1 headers come at message boundaries, and whose chunk sizes are not
      negative, ever writes outside a buffer; the invariant holds at its end. */
  lemma {:induction false} RunKeepsBuffers(r: Receiver, w: seq<byte>, accept: Message -> bool)
    requires BuffersOk(r) && Disciplined(r, w, accept)
    ensures !Run(r, w, accept).fault && BuffersOk(Run(r, w, accept).last)
    decreases |w|
  {
    StepKeepsBuffers(r, w, accept);
    var o := Step(r, w, accept);
    if o.Continue? {
      RunKeepsBuffers(o.next, o.rest, accept);
    }
  }

  /** A full header, written out. */
  function FullHeader(cid: byte, length: byte, typeId: byte): seq<byte> {
    [cid, 0, 0, 0, 0, 0, length, typeId, 0, 0, 0, 0]
  }

  /** The first chunk of a message on a chunk stream that was idle. */
  lemma FullHeaderRead(r: Receiver, cid: byte, length: byte, typeId: byte, rest: seq<byte>)
    requires 2 <= cid < 64
    ensures var w := FullHeader(cid, length, typeId) + rest;
            && ReadBasic(w) == Got(Basic(0, cid), w[1..])
            && ReadHeader(0, Find(r.streams, cid), w[1..]) == Got(Stream(Header(0, length, typeId, 0), None), rest)
  {
    hide FromBe;
    var fields: seq<byte> := [0, 0, 0, 0, 0, length, typeId, 0, 0, 0, 0];
    var w := FullHeader(cid, length, typeId) + rest;
    assert w[1..] == fields + rest;
    assert fields[..3] == [0, 0, 0] && fields[3..6] == [0, 0, length] && fields[7..11] == [0, 0, 0, 0];
    FieldsOf(fields, rest);
    FromBeThree(0, 0, 0);
    FromBeThree(0, 0, length);
    FromBeFour(0, 0, 0, 0);
  }

  lemma FieldsOf(f: seq<byte>, rest: seq<byte>)
    requires |f| == 11
    ensures var w := f + rest;
            && w[..3] == f[..3] && w[3..6] == f[3..6] && w[6] == f[6] && w[7..11] == f[7..11] && w[11..] == rest
  {
  }

  /** The first chunk of a message, taken in. */
  lemma FullHeaderStep(r: Receiver, cid: byte, length: byte, typeId: byte, data: seq<byte>, rest: seq<byte>,
                       accept: Message -> bool)
    requires 2 <= cid < 64 && |data| == Min(r.inChunkSize, length)
    ensures var o := Step(r, FullHeader(cid, length, typeId) + (data + rest), accept);
            var h := Header(0, length, typeId, 0);
            if |data| < length then
              o == Continue(r.(streams := r.streams[cid := Stream(h, Some(Assembly(length, data)))]), [], rest)
            else
              var m := Message(cid, 0, typeId, 0, data);
              o == Finish(r.(streams := r.streams[cid := Stream(h, None)]), cid, m, rest, accept)
  {
    hide FullHeader, ReadBasic, ReadHeader, Finish;
    FullHeaderRead(r, cid, length, typeId, data + rest);
    assert (data + rest)[..|data|] == data && (data + rest)[|data|..] == rest && [] + data == data;
  }

  /** Two witnesses that the conditions are needed, both from the very start of a connection.
      The first: 200 bytes announced, 128 of them stored, then a type-1 header announcing 300. */
  lemma LengthChangeFaults(data: seq<byte>, accept: Message -> bool)
    requires |data| == 128
    ensures Run(Initial(), FullHeader(5, 200, 9) + (data + [64 + 5, 0, 0, 0, 0, 1, 44, 9]), accept).fault
  {
    hide Step, FullHeader;
    var change: seq<byte> := [64 + 5, 0, 0, 0, 0, 1, 44, 9];
    var r := Receiver(128, map[5 := Stream(Header(0, 200, 9, 0), Some(Assembly(200, data)))]);
    FullHeaderStep(Initial(), 5, 200, 9, data, change, accept);
    assert change[1..][3..6] == [0, 1, 44];
    FromBeThree(0, 1, 44);
    FaultIff(r, change, accept);
  }

  /** The second: a Set Chunk Size message with the value 0x80000000, which is read as a
      negative number, and then the header of any message. */
  lemma NegativeChunkSizeFaults(accept: Message -> bool)
    ensures Run(Initial(), FullHeader(2, 4, 1) + ([0x80, 0, 0, 0] + FullHeader(3, 1, 9)), accept).fault
  {
    hide Step, FullHeader, ReadBasic, ReadHeader;
    var value: seq<byte> := [0x80, 0, 0, 0];
    var next := FullHeader(3, 1, 9);
    FullHeaderStep(Initial(), 2, 4, 1, value, next, accept);
    assert value[..4] == value;
    FromBeFour(0x80, 0, 0, 0);
    var r := Receiver(-0x8000_0000, map[2 := Stream(Header(0, 4, 1, 0), None)]);
    FullHeaderRead(r, 3, 1, 9, []);
    assert next + [] == next;
    FaultAnywhereIff(r, next, accept);
  }

  // ------------------------------------------------------------------
  // Against the RTMP specification

  /** Section 5.3.1.1: the three-byte form of the basic header, for every identifier it can carry. */
  lemma ThreeByteForm(fmt: int, id: int, rest: seq<byte>)
    requires 0 <= fmt < 4 && 64 <= id <= 65599
    ensures ReadBasic([fmt * 64 + 1, (id - 64) % 256, (id - 64) / 256] + rest) == Got(Basic(fmt, id), rest)
  {
    var w := [fmt * 64 + 1, (id - 64) % 256, (id - 64) / 256] + rest;
    assert w[3..] == rest;
  }

  /** Section 5.3.1.2.5 has the message stream id in little-endian order and the program reads it
      in big-endian order: the two agree exactly on ids whose bytes are the same both ways. */
  lemma StreamIdPrescribedIff(prev: Option<Stream>, w: seq<byte>)
    requires ReadHeader(0, prev, w).Got?
    ensures |w| >= 11
    ensures var littleEndian := FromBe([w[10], w[9], w[8], w[7]]);
            ReadHeader(0, prev, w).value.header.streamId == I32(littleEndian) <==> w[7] == w[10] && w[8] == w[9]
  {
    var a: int, b: int, c: int, d: int := w[7], w[8], w[9], w[10];
    assert w[7..11] == [w[7], w[8], w[9], w[10]];
    FromBeFour(w[7], w[8], w[9], w[10]);
    FromBeFour(w[10], w[9], w[8], w[7]);
    var big := a * 0x100_0000 + b * 0x1_0000 + c * 0x100 + d;
    var little := d * 0x100_0000 + c * 0x1_0000 + b * 0x100 + a;
    assert ReadHeader(0, prev, w).value.header.streamId == I32(big);
    I32Injective(big, little);
  }

  lemma I32Injective(x: nat, y: nat)
    requires x < 0x1_0000_0000 && y < 0x1_0000_0000
    ensures I32(x) == I32(y) <==> x == y
  {
  }

  /** The message stream 1, as the specification writes it, is read as another one. */
  lemma StreamOneMisread(rest: seq<byte>)
    ensures ReadHeader(0, None, [0, 0, 0, 0, 0, 1, 8, 1, 0, 0, 0] + rest)
            == Got(Stream(Header(0, 1, 8, 0x100_0000), None), rest)
  {
    var f: seq<byte> := [0, 0, 0, 0, 0, 1, 8, 1, 0, 0, 0];
    FieldsOf(f, rest);
    assert f[..3] == [0, 0, 0] && f[3..6] == [0, 0, 1] && f[7..11] == [1, 0, 0, 0];
    FromBeThree(0, 0, 0);
    FromBeThree(0, 0, 1);
    FromBeFour(1, 0, 0, 0);
  }

  /** Section 5.4.2, on the wire: 200 bytes announced on chunk stream 5 and 128 of them stored, then
      an Abort message for it. The partial message is gone and nothing has been delivered. */
  lemma AbortDropsMessage(data: seq<byte>, accept: Message -> bool)
    requires |data| == 128
    ensures var abort: seq<byte> := [0, 0, 0, 5];
            var e := Run(Initial(), FullHeader(5, 200, 9) + (data + (FullHeader(2, 4, 2) + (abort + []))), accept);
            && e.delivered == [] && !e.fault && e.code == -1
            && 5 !in e.last.streams && e.last.streams.Keys == {2}
  {
    hide Step, FullHeader;
    var abort: seq<byte> := [0, 0, 0, 5];
    var w := FullHeader(2, 4, 2) + (abort + []);
    var r := Receiver(128, map[5 := Stream(Header(0, 200, 9, 0), Some(Assembly(200, data)))]);
    FullHeaderStep(Initial(), 5, 200, 9, data, w, accept);
    RunContinues(Initial(), FullHeader(5, 200, 9) + (data + w), accept, r, [], w);
    FullHeaderStep(r, 2, 4, 2, abort, [], accept);
    assert abort[..4] == abort;
    FromBeFour(0, 0, 0, 5);
    var l := Receiver(128, map[2 := Stream(Header(0, 4, 2, 0), None)]);
    assert (r.streams[2 := Stream(Header(0, 4, 2, 0), None)]) - {5} == l.streams;
    RunContinues(r, w, accept, l, [], []);
    WireDry(l, accept);
  }

  lemma WireDry(r: Receiver, accept: Message -> bool)
    ensures Run(r, [], accept) == Ending([], false, -1, r)
  {
  }

  /** The longest message that is taken has one byte less than two mebibytes. */
  lemma LengthLimit(cid: int, size: int32, h: Header, w: seq<byte>)
    ensures ReadPayload(cid, size, Stream(h, None), w) == Refused(-14) <==> h.length >= 2 * 1024 * 1024
  {
  }

  // ------------------------------------------------------------------
  // Stream independence

  /** A chunk is read the same way whatever follows it on the wire. */
  lemma HeaderIsLocal(fmt: int, prev: Option<Stream>, w: seq<byte>, t: seq<byte>)
    requires 0 <= fmt < 4 && ReadHeader(fmt, prev, w).Got?
    ensures var r := ReadHeader(fmt, prev, w);
            var used := w[..|w| - |r.rest|];
            && r.rest == w[|w| - |r.rest|..]
            && ReadHeader(fmt, prev, used + t) == Got(r.value, t)
  {
    var r := ReadHeader(fmt, prev, w);
    var n := |w| - |r.rest|;
    var v := w[..n] + t;
    assert v[n..] == t;
    if fmt <= 1 {
      assert v[..3] == w[..3] && v[3..6] == w[3..6];
      if fmt == 0 {
        assert v[7..11] == w[7..11];
        if n == 15 {
          assert v[11..15] == w[11..15];
        }
      }
    } else if fmt == 2 {
      assert v[..3] == w[..3];
    }
  }

  lemma PayloadIsLocal(cid: int, size: int32, s: Stream, w: seq<byte>, t: seq<byte>)
    requires var o := ReadPayload(cid, size, s, w); o.Partial? || o.Complete?
    ensures var o := ReadPayload(cid, size, s, w);
            && o.rest == w[|w| - |o.rest|..]
            && ReadPayload(cid, size, s, w[..|w| - |o.rest|] + t) == o.(rest := t)
  {
    var o := ReadPayload(cid, size, s, w);
    var n := |w| - |o.rest|;
    assert (w[..n] + t)[..n] == w[..n];
    assert (w[..n] + t)[n..] == t;
  }

  lemma JoinPrefixes(w: seq<byte>, k: nat, n: nat, t: seq<byte>)
    requires k + n <= |w|
    ensures w[..k] + (w[k..][..n] + t) == w[..k + n] + t
  {
  }

  lemma ChunkIsLocal(b: Basic, size: int32, prev: Option<Stream>, w: seq<byte>, t: seq<byte>)
    requires 0 <= b.fmt < 4
    requires var o := StreamStep(b, size, prev, w); o.Partial? || o.Complete?
    ensures var o := StreamStep(b, size, prev, w);
            StreamStep(b, size, prev, w[..|w| - |o.rest|] + t) == o.(rest := t)
  {
    hide ReadHeader, ReadPayload;
    var o := StreamStep(b, size, prev, w);
    var h := ReadHeader(b.fmt, prev, w);
    var k := |w| - |h.rest|;
    var n := |h.rest| - |o.rest|;
    PayloadIsLocal(b.cid, size, h.value, h.rest, t);
    HeaderIsLocal(b.fmt, prev, w, h.rest[..n] + t);
    JoinPrefixes(w, k, n, t);
  }

  lemma TrimmedChunk(b: Basic, size: int32, prev: Option<Stream>, w: seq<byte>)
    requires 0 <= b.fmt < 4
    requires var o := StreamStep(b, size, prev, w); o.Partial? || o.Complete?
    ensures var o := StreamStep(b, size, prev, w);
            StreamStep(b, size, prev, w[..|w| - |o.rest|]) == o.(rest := [])
  {
    var o := StreamStep(b, size, prev, w);
    ChunkIsLocal(b, size, prev, w, []);
    assert w[..|w| - |o.rest|] + [] == w[..|w| - |o.rest|];
  }

  /** What reaches one chunk stream during a run: its own chunks, with the chunk size they
      were read with, and the aborts that name it. */
  datatype Item = Chunk(fmt: int, size: int32, body: seq<byte>) | Dropped

  predicate ItemsOk(items: seq<Item>) {
    forall i :: 0 <= i < |items| && items[i].Chunk? ==> 0 <= items[i].fmt < 4
  }

  predicate Aborts(o: StreamOutcome, b: int) {
    o.Complete? && o.msg.typeId == TYPE_ABORT && |o.msg.payload| >= 4 && ControlValue(o.msg) == b
  }

  /** The items one chunk contributes to chunk stream `b`. */
  function StepItems(r: Receiver, w: seq<byte>, b: int): (items: seq<Item>)
    ensures ItemsOk(items)
  {
    match ReadBasic(w)
    case Short(_) => []
    case Got(basic, body) =>
      var so := StreamStep(basic, r.inChunkSize, Find(r.streams, basic.cid), body);
      if so.Partial? || so.Complete? then
        (if basic.cid == b then [Chunk(basic.fmt, r.inChunkSize, body[..|body| - |so.rest|])] else [])
        + (if Aborts(so, b) then [Dropped] else [])
      else []
  }

  function Items(r: Receiver, w: seq<byte>, accept: Message -> bool, b: int): (items: seq<Item>)
    ensures ItemsOk(items)
    decreases |w|
  {
    match Step(r, w, accept)
    case Continue(next, _, rest) => StepItems(r, w, b) + Items(next, rest, accept, b)
    case _ => StepItems(r, w, b)
  }

  /** What a chunk sends up from its chunk stream. */
  function Upward(b: int, so: StreamOutcome): seq<Delivery> {
    if so.Complete? && !IsControl(so.msg) then [Delivery(b, so.msg)] else []
  }

  function After(prev: Option<Stream>, so: StreamOutcome): Option<Stream> {
    if so.Partial? || so.Complete? then Some(so.stream) else prev
  }

  /** Chunk stream `b` on its own: the messages its items complete. */
  function Solo(b: int, prev: Option<Stream>, items: seq<Item>): seq<Delivery>
    requires ItemsOk(items)
    decreases |items|
  {
    if items == [] then []
    else if items[0].Dropped? then Solo(b, None, items[1..])
    else
      var so := StreamStep(Basic(items[0].fmt, b), items[0].size, prev, items[0].body);
      Upward(b, so) + Solo(b, After(prev, so), items[1..])
  }

  function On(ds: seq<Delivery>, b: int): seq<Delivery> {
    if ds == [] then []
    else (if ds[0].cid == b then [ds[0]] else []) + On(ds[1..], b)
  }

  lemma {:induction false} OnAppend(x: seq<Delivery>, y: seq<Delivery>, b: int)
    ensures On(x + y, b) == On(x, b) + On(y, b)
  {
    if x == [] {
      assert x + y == y;
    } else {
      OnAppend(x[1..], y, b);
      assert (x + y)[0] == x[0] && (x + y)[1..] == x[1..] + y;
      var first := if x[0].cid == b then [x[0]] else [];
      assert (first + On(x[1..], b)) + On(y, b) == first + (On(x[1..], b) + On(y, b));
    }
  }

  /** The state of chunk stream `b` after a chunk: untouched by chunks of other streams,
      unless they complete an abort that names `b`. */
  lemma OtherStreamUnchanged(r: Receiver, w: seq<byte>, accept: Message -> bool, b: int)
    requires Step(r, w, accept).Continue?
    requires ReadBasic(w).value.cid != b
    ensures Find(Step(r, w, accept).next.streams, b) ==
            if StepItems(r, w, b) == [Dropped] then None else Find(r.streams, b)
    ensures StepItems(r, w, b) == [] || StepItems(r, w, b) == [Dropped]
    ensures On(Step(r, w, accept).delivered, b) == []
  {
  }

  lemma SoloChunk(b: int, prev: Option<Stream>, own: Item, so: StreamOutcome, dropped: bool, tail: seq<Item>)
    requires own.Chunk? && 0 <= own.fmt < 4 && ItemsOk(tail)
    requires so == StreamStep(Basic(own.fmt, b), own.size, prev, own.body) && (so.Partial? || so.Complete?)
    ensures Solo(b, prev, [own] + (if dropped then [Dropped] else []) + tail)
            == Upward(b, so) + Solo(b, if dropped then None else Some(so.stream), tail)
  {
    var more := (if dropped then [Dropped] else []) + tail;
    assert ([own] + (if dropped then [Dropped] else []) + tail)[1..] == more;
    if dropped {
      assert more[1..] == tail;
    } else {
      assert more == tail;
    }
  }

  /** What a chunk does, seen from its own chunk stream. */
  lemma OwnEffect(r: Receiver, w: seq<byte>, accept: Message -> bool)
    requires !Step(r, w, accept).Fault? && ReadBasic(w).Got?
    ensures var basic := ReadBasic(w);
            var b := basic.value.cid;
            var so := StreamStep(basic.value, r.inChunkSize, Find(r.streams, b), basic.rest);
            var o := Step(r, w, accept);
            && o.delivered == Upward(b, so)
            && (o.Continue? ==> so.Partial? || so.Complete?)
            && (o.Continue? ==> Find(o.next.streams, b) == if Aborts(so, b) then None else Some(so.stream))
            && (o.Stop? ==> !Aborts(so, b))
  {
  }

  /** One chunk, seen from its own chunk stream followed by any later items. */
  lemma OwnStep(r: Receiver, w: seq<byte>, accept: Message -> bool, tail: seq<Item>)
    requires ItemsOk(tail)
    requires !Step(r, w, accept).Fault? && ReadBasic(w).Got?
    requires Step(r, w, accept).Stop? ==> tail == []
    ensures var o := Step(r, w, accept);
            var b := ReadBasic(w).value.cid;
            Solo(b, Find(r.streams, b), StepItems(r, w, b) + tail)
              == o.delivered + (if o.Continue? then Solo(b, Find(o.next.streams, b), tail) else [])
  {
    var o := Step(r, w, accept);
    var basic, body := ReadBasic(w).value, ReadBasic(w).rest;
    var b := basic.cid;
    var prev := Find(r.streams, b);
    var so := StreamStep(basic, r.inChunkSize, prev, body);
    OwnEffect(r, w, accept);
    if so.Partial? || so.Complete? {
      TrimmedChunk(basic, r.inChunkSize, prev, body);
      var own := Chunk(basic.fmt, r.inChunkSize, body[..|body| - |so.rest|]);
      SoloChunk(b, prev, own, so.(rest := []), Aborts(so, b), tail);
    } else {
      assert StepItems(r, w, b) + tail == [];
    }
  }

  lemma OwnDelivered(r: Receiver, w: seq<byte>, accept: Message -> bool)
    requires !Step(r, w, accept).Fault? && ReadBasic(w).Got?
    ensures On(Step(r, w, accept).delivered, ReadBasic(w).value.cid) == Step(r, w, accept).delivered
  {
    OwnEffect(r, w, accept);
  }

  lemma OtherStreamStop(r: Receiver, w: seq<byte>, accept: Message -> bool, b: int)
    requires Step(r, w, accept).Stop?
    requires ReadBasic(w).Got? ==> ReadBasic(w).value.cid != b
    ensures On(Step(r, w, accept).delivered, b) == []
    ensures Solo(b, Find(r.streams, b), StepItems(r, w, b)) == []
  {
  }

  /** One chunk of any chunk stream, seen from `b`. */
  lemma AnyStep(r: Receiver, w: seq<byte>, accept: Message -> bool, b: int, tail: seq<Item>)
    requires ItemsOk(tail) && !Step(r, w, accept).Fault?
    requires Step(r, w, accept).Stop? ==> tail == []
    ensures var o := Step(r, w, accept);
            Solo(b, Find(r.streams, b), StepItems(r, w, b) + tail)
              == On(o.delivered, b) + (if o.Continue? then Solo(b, Find(o.next.streams, b), tail) else [])
  {
    hide StreamStep, Finish;
    var o := Step(r, w, accept);
    if ReadBasic(w).Got? && ReadBasic(w).value.cid == b {
      OwnStep(r, w, accept, tail);
      OwnDelivered(r, w, accept);
    } else if o.Continue? {
      OtherStreamUnchanged(r, w, accept, b);
      assert [] + tail == tail;
      assert ([Dropped] + tail)[1..] == tail;
    } else {
      OtherStreamStop(r, w, accept, b);
      assert StepItems(r, w, b) + [] == StepItems(r, w, b);
    }
  }

  /** What a run delivers on chunk stream `b` is a function of `b`'s own items: the bytes
      of its chunks, the chunk sizes they were read with and the aborts naming it. */
  lemma {:induction false} Independence(r: Receiver, w: seq<byte>, accept: Message -> bool, b: int)
    requires !Run(r, w, accept).fault
    ensures On(Run(r, w, accept).delivered, b) == Solo(b, Find(r.streams, b), Items(r, w, accept, b))
    decreases |w|
  {
    hide Step, StepItems, Solo, On;
    var o := Step(r, w, accept);
    if o.Continue? {
      AnyStep(r, w, accept, b, Items(o.next, o.rest, accept, b));
      Independence(o.next, o.rest, accept, b);
      OnAppend(o.delivered, Run(o.next, o.rest, accept).delivered, b);
    } else {
      AnyStep(r, w, accept, b, []);
      assert StepItems(r, w, b) + [] == StepItems(r, w, b);
      assert On(o.delivered, b) + [] == On(o.delivered, b);
    }
  }

  /** Two runs that feed chunk stream `b` the same items deliver the same messages on it,
      whatever else they carry. */
  lemma SameItemsSameDeliveries(r: Receiver, w: seq<byte>, r': Receiver, w': seq<byte>, accept: Message -> bool, b: int)
    requires !Run(r, w, accept).fault && !Run(r', w', accept).fault
    requires Find(r.streams, b) == Find(r'.streams, b)
    requires Items(r, w, accept, b) == Items(r', w', accept, b)
    ensures On(Run(r, w, accept).delivered, b) == On(Run(r', w', accept).delivered, b)
  {
    Independence(r, w, accept, b);
    Independence(r', w', accept, b);
  }
}
