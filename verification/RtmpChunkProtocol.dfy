/** The receive loop on the heap: chunk objects that are moved, cleared and recycled, and
    message buffers that are filled in place. Each method is proved to do what the
    functions of RtmpChunkStream say. */
module RtmpChunkProtocol {
  import opened Bytes
  import opened RtmpChunkStream

  class RtmpMessage {
    const payload: array<byte>
    var size: nat

    constructor (capacity: nat)
      ensures size == 0 && payload.Length == capacity && fresh(payload)
    {
      payload := new byte[capacity](_ => 0);
      size := 0;
    }

    /** Store `data` behind what the buffer already holds. */
    method Append(data: seq<byte>)
      requires size + |data| <= payload.Length
      modifies this, payload
      ensures size == old(size) + |data|
      ensures payload[..size] == old(payload[..size]) + data
    {
      forall i | 0 <= i < |data| {
        payload[size + i] := data[i];
      }
      size := size + |data|;
    }
  }

  class RtmpChunk {
    var timestamp: int32
    var length: nat
    var typeId: byte
    var streamId: int32
    var msg: RtmpMessage?

    constructor ()
      ensures Blank()
    {
      timestamp, length, typeId, streamId, msg := 0, 0, 0, 0, null;
    }

    /** What a recycled chunk looks like: an all-zero header and no message. */
    ghost predicate Blank()
      reads this
    {
      timestamp == 0 && length == 0 && typeId == 0 && streamId == 0 && msg == null
    }

    ghost predicate BufferOk()
      reads this, msg
    {
      msg != null ==> msg.size <= msg.payload.Length
    }

    /** The chunk as a value. */
    ghost function View(): Stream
      reads this, msg, if msg == null then {} else {msg.payload}
      requires BufferOk()
    {
      Stream(Header(timestamp, length, typeId, streamId),
             if msg == null then None else Some(Assembly(msg.payload.Length, msg.payload[..msg.size])))
    }

    /** The copying assignment: it takes the header and leaves its source without a message. */
    method MoveFrom(c: RtmpChunk)
      requires c != this
      modifies this, c
      ensures timestamp == old(c.timestamp) && length == old(c.length)
      ensures typeId == old(c.typeId) && streamId == old(c.streamId) && msg == old(c.msg)
      ensures c.timestamp == old(c.timestamp) && c.length == old(c.length)
      ensures c.typeId == old(c.typeId) && c.streamId == old(c.streamId) && c.msg == null
    {
      timestamp, length, typeId, streamId, msg := c.timestamp, c.length, c.typeId, c.streamId, c.msg;
      c.msg := null;
    }

    method Clear()
      modifies this
      ensures Blank()
    {
      timestamp, length, typeId, streamId, msg := 0, 0, 0, 0, null;
    }

    /** Overwrite the three low bytes of the timestamp: the high byte stays what it was. */
    method WriteLowTimestamp(t: seq<byte>)
      requires |t| == 3
      modifies this`timestamp
      ensures timestamp == I32(U32(old(timestamp)) / 0x100_0000 * 0x100_0000 + FromBe(t))
      ensures old(timestamp) == 0 ==> timestamp == I32(FromBe(t))
    {
      timestamp := I32(U32(timestamp) / 0x100_0000 * 0x100_0000 + FromBe(t));
    }

    /** The same for the message length. */
    method WriteLowLength(t: seq<byte>)
      requires |t| == 3
      modifies this`length
      ensures length == old(length) / 0x100_0000 * 0x100_0000 + FromBe(t)
      ensures old(length) < 0x100_0000 ==> length == FromBe(t) < 0x100_0000
    {
      FromBeBound(t);
      Pow256Values();
      length := length / 0x100_0000 * 0x100_0000 + FromBe(t);
    }

    /** A type-0 header read into a blank chunk. The timestamp field is written three bytes
        at a time, so this is right only because the chunk is blank. */
    method ReadFull(w: seq<byte>, ghost was: Option<Stream>) returns (code: int, rest: seq<byte>)
      requires Blank()
      modifies this
      ensures msg == null && length < 0x100_0000
      ensures var r := ReadHeader(0, was, w);
              if code == 0 then r == Got(View(), rest) else r == Short(code)
    {
      rest := [];
      if |w| < 3 { return -3, rest; }
      WriteLowTimestamp(w[..3]);
      if |w| < 6 { return -4, rest; }
      length := 0;
      WriteLowLength(w[3..6]);
      if |w| < 7 { return -5, rest; }
      typeId := w[6];
      if |w| < 11 { return -6, rest; }
      streamId := I32(FromBe(w[7..11]));
      FromBeBound(w[..3]);
      Pow256Values();
      if timestamp == EXTENDED {
        if |w| < 15 { return -7, rest; }
        timestamp := I32(FromBe(w[11..15]));
        return 0, w[15..];
      }
      return 0, w[11..];
    }

    /** A compressed header: everything it leaves out comes from the previous chunk, and so
        does the message under construction. */
    method ReadCompressed(fmt: int, prev: RtmpChunk?, w: seq<byte>) returns (code: int, rest: seq<byte>)
      requires 1 <= fmt < 4 && prev != this
      requires prev != null ==> prev.BufferOk() && prev.length < 0x100_0000
      modifies this, prev
      ensures prev != null && code == 0 ==> length < 0x100_0000
      ensures code == 0 ==> prev != null && msg == old(prev.msg) && prev.msg == null && BufferOk()
      ensures var was := if prev == null then None else Some(old(prev.View()));
              var r := ReadHeader(fmt, was, w);
              if code == 0 then r == Got(View(), rest) else r == Short(code)
    {
      rest := [];
      if fmt == 1 {
        if prev == null { return -8, rest; }
        MoveFrom(prev);
        if |w| < 3 { return -9, rest; }
        timestamp := I32(prev.timestamp + FromBe(w[..3]));
        if |w| < 6 { return -10, rest; }
        WriteLowLength(w[3..6]);
        if |w| < 7 { return -11, rest; }
        typeId := w[6];
        return 0, w[7..];
      } else if fmt == 2 {
        if prev == null { return -12, rest; }
        MoveFrom(prev);
        if |w| < 3 { return -13, rest; }
        timestamp := I32(prev.timestamp + FromBe(w[..3]));
        return 0, w[3..];
      } else {
        if prev == null { return -14, rest; }
        MoveFrom(prev);
        return 0, w;
      }
    }
  }

  /** The buffer a chunk is read into: the one it holds, or a new one of the announced length. */
  function Buffer(s: Stream): Assembly {
    if s.held.Some? then s.held.value else Assembly(s.header.length, [])
  }

  /** A missing buffer is as good as an empty one of the announced length. */
  lemma BufferedRead(cid: int, size: int32, s: Stream, w: seq<byte>)
    ensures ReadPayload(cid, size, s, w) == ReadPayload(cid, size, s.(held := Some(Buffer(s))), w)
    ensures s.header.length >= MAX_MESSAGE ==> ReadPayload(cid, size, s, w) == Refused(-14)
  {
  }

  /** How the payload of a chunk was dealt with. */
  datatype Filled = Part(rest: seq<byte>) | Whole(msg: Message, rest: seq<byte>) | Refuse(code: int) | Break

  function FilledBy(o: StreamOutcome): Filled {
    match o
    case Partial(_, rest) => Part(rest)
    case Complete(_, m, rest) => Whole(m, rest)
    case Refused(code) => Refuse(code)
    case Overrun => Break
  }

  /** How a turn of the loop ended. */
  datatype Turn = Goes(delivered: seq<Delivery>, rest: seq<byte>) | Ends(code: int, delivered: seq<Delivery>) | Breaks

  function TurnOf(o: Outcome): Turn {
    match o
    case Continue(_, d, rest) => Goes(d, rest)
    case Stop(code, d) => Ends(code, d)
    case Fault => Breaks
  }

  function Before(d: seq<Delivery>, e: Ending): Ending {
    e.(delivered := d + e.delivered)
  }

  /** Where an object of a connection belongs: in use for a chunk stream, cached for one,
      or taken from the cache and not yet in use. */
  datatype Place = InUse(cid: int) | Cached(cid: int) | Taken

  class Protocol {
    var inChunkSize: int32
    var recvStreams: map<int, RtmpChunk>
    var recvCache: map<int, RtmpChunk>
    /** The objects of this connection. Each has one place, so nothing is shared. */
    ghost var place: map<object, Place>

    ghost predicate At(o: object, p: Place)
      reads this
    {
      o in place && place[o] == p
    }

    /** The message of `c`, if any, is in use for `k` and within its buffer. */
    ghost predicate MessageOk(c: RtmpChunk, k: int)
      reads this, c, c.msg
    {
      c.msg != null ==>
        At(c.msg, InUse(k)) && At(c.msg.payload, InUse(k)) && c.msg.size <= c.msg.payload.Length
    }

    ghost predicate StreamOk(k: int)
      reads this, place.Keys
      requires k in recvStreams
    {
      var c := recvStreams[k];
      At(c, InUse(k)) && (c.msg != null ==> c.msg in place) && MessageOk(c, k) && c.length < 0x100_0000
    }

    /** Every chunk object has one place only: it serves one chunk stream or is cached for
        one, and a cached one is blank. Messages and buffers belong to one chunk stream. */
    ghost predicate Valid()
      reads this, place.Keys
    {
      && (forall k :: k in recvStreams ==> StreamOk(k))
      && (forall k :: k in recvCache ==> At(recvCache[k], Cached(k)) && recvCache[k].Blank())
      && this !in place
    }

    /** The connection, as a value, is `r`. */
    ghost predicate Shows(r: Receiver)
      reads this, place.Keys
    {
      && Valid()
      && r.inChunkSize == inChunkSize
      && r.streams.Keys == recvStreams.Keys
      && forall k :: k in recvStreams ==> r.streams[k] == recvStreams[k].View()
    }

    constructor ()
      ensures Shows(Initial()) && fresh(place.Keys)
    {
      inChunkSize := 128;
      recvStreams := map[];
      recvCache := map[];
      place := map[];
      new;
      var cid := 0;
      while cid < 256
        invariant 0 <= cid <= 256
        invariant inChunkSize == 128 && recvStreams == map[] && fresh(place.Keys)
        invariant forall k :: k in recvCache ==> 0 <= k < cid
        invariant Valid()
      {
        var c := new RtmpChunk();
        place := place[c := Cached(cid)];
        recvCache := recvCache[cid := c];
        cid := cid + 1;
      }
    }

    /** Take the chunk object for the next chunk of `cid`: the recycled one, or a new one. */
    method TakeChunk(cid: int, ghost r: Receiver) returns (chunk: RtmpChunk)
      requires Shows(r)
      modifies this`recvCache, this`place
      ensures Shows(r) && fresh(place.Keys - old(place.Keys)) && old(place.Keys) <= place.Keys
      ensures chunk.Blank() && At(chunk, Taken)
      ensures cid !in recvCache
    {
      if cid in recvCache {
        chunk := recvCache[cid];
        recvCache := recvCache - {cid};
      } else {
        chunk := new RtmpChunk();
      }
      place := place[chunk := Taken];
      forall k | k in recvStreams
        ensures StreamOk(k) && r.streams[k] == recvStreams[k].View()
      {
        assert old(StreamOk(k)) && r.streams[k] == old(recvStreams[k].View());
      }
      assert forall k :: k in recvCache ==> At(recvCache[k], Cached(k)) && recvCache[k].Blank();
    }

    /** Read a message header: the chunk object becomes the one in use for `cid`, the
        previous one is cleared and cached. */
    method ReadHeaderOf(fmt: int, cid: int, w: seq<byte>, ghost r: Receiver) returns (code: int, rest: seq<byte>)
      requires Shows(r) && 0 <= fmt < 4
      modifies this, place.Keys
      ensures fresh(place.Keys - old(place.Keys)) && old(place.Keys) <= place.Keys
      ensures var h := ReadHeader(fmt, Find(r.streams, cid), w);
              if code != 0 then h == Short(code)
              else h.Got? && h.rest == rest && Shows(r.(streams := r.streams[cid := h.value]))
    {
      hide ReadHeader;
      var prev: RtmpChunk? := null;
      if cid in recvStreams {
        prev := recvStreams[cid];
      }
      var chunk := TakeChunk(cid, r);
      code, rest := FillChunk(fmt, cid, chunk, prev, w, r);
      if code != 0 {
        return;
      }
      Install(cid, chunk, r);
      if prev != null {
        Recycle(cid, prev, r.(streams := r.streams[cid := chunk.View()]));
      }
    }

    /** Read the header into the taken chunk, moving over the message under construction. */
    method FillChunk(fmt: int, cid: int, chunk: RtmpChunk, prev: RtmpChunk?, w: seq<byte>, ghost r: Receiver)
      returns (code: int, rest: seq<byte>)
      requires Shows(r) && 0 <= fmt < 4
      requires At(chunk, Taken) && chunk.Blank()
      requires if cid in recvStreams then prev == recvStreams[cid] else prev == null
      modifies chunk, prev
      ensures code == 0 ==> ShowsExcept(cid, r) && MessageOk(chunk, cid) && chunk.length < 0x100_0000
      ensures var h := ReadHeader(fmt, Find(r.streams, cid), w);
              if code != 0 then h == Short(code) else h == Got(chunk.View(), rest)
    {
      hide ReadHeader;
      if fmt == 0 {
        code, rest := chunk.ReadFull(w, Find(r.streams, cid));
      } else {
        assert prev != null ==> StreamOk(cid) && r.streams[cid] == prev.View();
        code, rest := chunk.ReadCompressed(fmt, prev, w);
      }
    }

    /** Put `chunk` in use for `cid`; the chunk it replaces is out of use. */
    method Install(cid: int, chunk: RtmpChunk, ghost r: Receiver)
      requires ShowsExcept(cid, r)
      requires At(chunk, Taken) && MessageOk(chunk, cid) && chunk.length < 0x100_0000
      modifies this`recvStreams, this`place
      ensures place.Keys == old(place.Keys) && recvStreams == old(recvStreams)[cid := chunk]
      ensures cid in old(recvStreams) ==> At(old(recvStreams)[cid], Taken)
      ensures Shows(r.(streams := r.streams[cid := chunk.View()]))
    {
      if cid in recvStreams {
        place := place[recvStreams[cid] := Taken];
      }
      place := place[chunk := InUse(cid)];
      recvStreams := recvStreams[cid := chunk];
      ghost var n := r.(streams := r.streams[cid := chunk.View()]);
      forall k | k in recvStreams
        ensures StreamOk(k) && n.streams[k] == recvStreams[k].View()
      {
        if k != cid {
          assert old(StreamOk(k)) && r.streams[k] == old(recvStreams[k].View());
        }
      }
      assert n.streams.Keys == recvStreams.Keys;
      assert forall k :: k in recvCache ==> At(recvCache[k], Cached(k)) && recvCache[k].Blank();
    }

    /** Clear a chunk that is out of use and cache it for `cid`. */
    method Recycle(cid: int, prev: RtmpChunk, ghost r: Receiver)
      requires Shows(r) && At(prev, Taken) && cid !in recvCache
      modifies this`recvCache, this`place, prev
      ensures place.Keys == old(place.Keys)
      ensures Shows(r)
    {
      prev.Clear();
      place := place[prev := Cached(cid)];
      recvCache := recvCache[cid := prev];
      forall k | k in recvStreams
        ensures StreamOk(k) && r.streams[k] == recvStreams[k].View()
      {
        assert old(StreamOk(k)) && r.streams[k] == old(recvStreams[k].View());
      }
      assert forall k :: k in recvCache ==> At(recvCache[k], Cached(k)) && recvCache[k].Blank();
    }

    /** Give the chunk in use for `cid` a buffer of the announced length if it has none. */
    method NeedMessage(cid: int, chunk: RtmpChunk, ghost r: Receiver) returns (m: RtmpMessage)
      requires Shows(r) && cid in recvStreams && recvStreams[cid] == chunk
      modifies this`place, chunk`msg
      ensures fresh(place.Keys - old(place.Keys)) && old(place.Keys) <= place.Keys
      ensures chunk.msg == m
      ensures var s := r.streams[cid];
              Shows(r.(streams := r.streams[cid := s.(held := Some(Buffer(s)))]))
    {
      if chunk.msg == null {
        m := new RtmpMessage(chunk.length);
        place := place[m := InUse(cid)][m.payload := InUse(cid)];
        chunk.msg := m;
        assert m.payload[..m.size] == [];
        forall k | k in recvStreams && k != cid
          ensures StreamOk(k) && r.streams[k] == recvStreams[k].View()
        {
          assert old(StreamOk(k)) && r.streams[k] == old(recvStreams[k].View());
        }
      } else {
        m := chunk.msg;
        assert r.streams[cid := r.streams[cid]] == r.streams;
        assert r.streams[cid] == chunk.View();
      }
    }

    /** Store `data` in the message under construction on `cid`. */
    method Store(cid: int, m: RtmpMessage, data: seq<byte>, ghost r: Receiver)
      requires Shows(r) && cid in recvStreams && recvStreams[cid].msg == m
      requires m.size + |data| <= m.payload.Length
      modifies m, m.payload
      ensures var s := r.streams[cid];
              && s.held.Some?
              && var more := s.held.value.(data := s.held.value.data + data);
                 Shows(r.(streams := r.streams[cid := s.(held := Some(more))]))
    {
      m.Append(data);
      forall k | k in recvStreams && k != cid
        ensures StreamOk(k) && r.streams[k] == recvStreams[k].View()
      {
        assert old(StreamOk(k)) && r.streams[k] == old(recvStreams[k].View());
      }
    }

    /** Drop the finished message of `cid`. */
    method Release(cid: int, chunk: RtmpChunk, ghost r: Receiver)
      requires Shows(r) && cid in recvStreams && recvStreams[cid] == chunk
      modifies chunk`msg
      ensures Shows(r.(streams := r.streams[cid := r.streams[cid].(held := None)]))
    {
      chunk.msg := null;
      forall k | k in recvStreams && k != cid
        ensures StreamOk(k) && r.streams[k] == recvStreams[k].View()
      {
        assert old(StreamOk(k)) && r.streams[k] == old(recvStreams[k].View());
      }
    }

    /** Read the payload of a chunk of `cid`. */
    method ReadPayloadOf(cid: int, w: seq<byte>, ghost r: Receiver) returns (t: Filled)
      requires Shows(r) && cid in recvStreams
      modifies this, place.Keys
      ensures fresh(place.Keys - old(place.Keys)) && old(place.Keys) <= place.Keys
      ensures var o := ReadPayload(cid, r.inChunkSize, r.streams[cid], w);
              && t == FilledBy(o)
              && (o.Partial? || o.Complete? ==> Shows(r.(streams := r.streams[cid := o.stream])))
    {
      hide ReadPayload;
      var chunk := recvStreams[cid];
      assert StreamOk(cid) && r.streams[cid] == chunk.View();
      BufferedRead(cid, r.inChunkSize, r.streams[cid], w);
      if chunk.length >= MAX_MESSAGE {
        return Refuse(-14);
      }
      var m := NeedMessage(cid, chunk, r);
      ghost var s := r.streams[cid].(held := Some(Buffer(r.streams[cid])));
      ghost var r1 := r.(streams := r.streams[cid := s]);
      t := FillBuffer(cid, chunk, m, w, r1);
      ghost var o := ReadPayload(cid, r.inChunkSize, s, w);
      if o.Partial? || o.Complete? {
        assert r1.streams[cid := o.stream] == r.streams[cid := o.stream];
      }
    }

    /** The same once the chunk has its buffer. */
    method FillBuffer(cid: int, chunk: RtmpChunk, m: RtmpMessage, w: seq<byte>, ghost r: Receiver) returns (t: Filled)
      requires Shows(r) && cid in recvStreams && recvStreams[cid] == chunk && chunk.msg == m
      requires chunk.length < MAX_MESSAGE
      modifies chunk, m, m.payload
      ensures var o := ReadPayload(cid, r.inChunkSize, r.streams[cid], w);
              && t == FilledBy(o)
              && (o.Partial? || o.Complete? ==> Shows(r.(streams := r.streams[cid := o.stream])))
    {
      assert StreamOk(cid) && r.streams[cid] == chunk.View();
      var n := Min(inChunkSize, chunk.length - m.size);
      if n < 0 || m.size + n > m.payload.Length {
        return Break;
      }
      if |w| < n {
        return Refuse(-15);
      }
      Store(cid, m, w[..n], r);
      ghost var s := r.streams[cid];
      ghost var s2 := s.(held := Some(s.held.value.(data := s.held.value.data + w[..n])));
      ghost var r2 := r.(streams := r.streams[cid := s2]);
      assert r2.streams[cid] == chunk.View();
      if m.size == chunk.length {
        t := Whole(Message(cid % 256, chunk.timestamp, chunk.typeId, chunk.streamId, m.payload[..m.size]), w[n..]);
        Release(cid, chunk, r2);
        assert r2.streams[cid := s2.(held := None)] == r.streams[cid := s2.(held := None)];
      } else {
        t := Part(w[n..]);
      }
    }

    /** Carry out chunk control, or hand the message up. */
    method FinishMessage(cid: int, m: Message, rest: seq<byte>, accept: Message -> bool, ghost r: Receiver)
      returns (t: Turn)
      requires Shows(r)
      modifies this
      ensures place == old(place)
      ensures var o := Finish(r, cid, m, rest, accept);
              t == TurnOf(o) && (o.Continue? ==> Shows(o.next))
    {
      if m.typeId == TYPE_SET_CHUNK_SIZE {
        if |m.payload| < 4 { return Ends(-16, []); }
        inChunkSize := I32(ControlValue(m));
        return Goes([], rest);
      }
      if m.typeId == TYPE_ABORT {
        if |m.payload| < 4 { return Ends(-17, []); }
        recvStreams := recvStreams - {ControlValue(m)};
        return Goes([], rest);
      }
      if accept(m) { return Goes([Delivery(cid, m)], rest); }
      return Ends(-18, [Delivery(cid, m)]);
    }

    /** One turn of the receive loop does what `Step` says. */
    method RecvChunk(w: seq<byte>, accept: Message -> bool, ghost r: Receiver) returns (t: Turn)
      requires Shows(r)
      modifies this, place.Keys
      ensures fresh(place.Keys - old(place.Keys)) && old(place.Keys) <= place.Keys
      ensures var o := Step(r, w, accept);
              t == TurnOf(o) && (o.Continue? ==> Shows(o.next))
    {
      hide ReadHeader, ReadPayload, Finish;
      var basic := ReadBasic(w);
      if basic.Short? {
        return Ends(basic.code, []);
      }
      var cid := basic.value.cid;
      var code, body := ReadHeaderOf(basic.value.fmt, cid, basic.rest, r);
      if code != 0 {
        return Ends(code, []);
      }
      ghost var h := ReadHeader(basic.value.fmt, Find(r.streams, cid), basic.rest).value;
      ghost var r1 := r.(streams := r.streams[cid := h]);
      var f := ReadPayloadOf(cid, body, r1);
      ghost var o := ReadPayload(cid, r.inChunkSize, h, body);
      if f.Refuse? {
        return Ends(f.code, []);
      }
      if f.Break? {
        return Breaks;
      }
      ghost var r2 := r.(streams := r.streams[cid := o.stream]);
      assert r1.streams[cid := o.stream] == r2.streams;
      if f.Part? {
        return Goes([], f.rest);
      }
      t := FinishMessage(cid, f.msg, f.rest, accept, r2);
    }

    /** The receive loop: it delivers, and ends, exactly as `Run` says. */
    method CycleRecv(wire: seq<byte>, accept: Message -> bool, ghost r: Receiver)
      returns (delivered: seq<Delivery>, fault: bool, code: int)
      requires Shows(r)
      modifies this, place.Keys
      ensures var e := Run(r, wire, accept);
              delivered == e.delivered && fault == e.fault && code == e.code
    {
      delivered, fault, code := [], false, 0;
      var w := wire;
      ghost var now := r;
      while true
        invariant Shows(now) && fresh(place.Keys - old(place.Keys))
        invariant Run(r, wire, accept) == Before(delivered, Run(now, w, accept))
        decreases |w|
      {
        hide Step;
        var t := RecvChunk(w, accept, now);
        if t.Breaks? {
          fault := true;
          return;
        }
        delivered := delivered + t.delivered;
        if t.Ends? {
          code := t.code;
          return;
        }
        now := Step(now, w, accept).next;
        w := t.rest;
      }
    }

    /** As `Shows`, but nothing is said about the content of the chunk in use for `cid`. */
    ghost predicate ShowsExcept(cid: int, r: Receiver)
      reads this, place.Keys
    {
      && (forall k :: k in recvStreams && k != cid ==> StreamOk(k))
      && (cid in recvStreams ==> At(recvStreams[cid], InUse(cid)))
      && (forall k :: k in recvCache ==> At(recvCache[k], Cached(k)) && recvCache[k].Blank())
      && this !in place
      && r.inChunkSize == inChunkSize
      && r.streams.Keys == recvStreams.Keys
      && forall k :: k in recvStreams && k != cid ==> r.streams[k] == recvStreams[k].View()
    }
  }
}
