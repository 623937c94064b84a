/** The server's message writer, statement by statement, and a whole session through both
    halves of the protocol. */
module RtmpMessageWriter {
  import opened Bytes
  import opened RtmpChunkStream
  import opened RtmpChunkSender
  import opened RtmpServerSender
  import opened RtmpChunkProtocol

  /** A connection as a value: what it has carried and how much more it will carry. */
  datatype Link = Link(sent: seq<byte>, room: nat)

  /** A write of `data`: it succeeds exactly when there is room, then it appends all of
      `data`; otherwise it appends a prefix and leaves no room. */
  ghost predicate Wrote(before: Link, after: Link, data: seq<byte>, ok: bool) {
    && ok == (|data| <= before.room)
    && after.room == (if ok then before.room - |data| else 0)
    && (if ok then after.sent == before.sent + data else before.sent <= after.sent <= before.sent + data)
  }

  lemma WroteNothing(s: Link)
    ensures Wrote(s, s, [], true)
  {
    assert s.sent + [] == s.sent;
  }

  /** A write that succeeds is continued by the next one. */
  lemma WroteThen(before: Link, mid: Link, after: Link, x: seq<byte>, y: seq<byte>, ok: bool)
    requires Wrote(before, mid, x, true) && Wrote(mid, after, y, ok)
    ensures Wrote(before, after, x + y, ok)
  {
    assert before.sent + x + y == before.sent + (x + y);
  }

  /** A write that fails fails for whatever was to follow. */
  lemma WroteNot(before: Link, after: Link, x: seq<byte>, y: seq<byte>)
    requires Wrote(before, after, x, false)
    ensures Wrote(before, after, x + y, false)
  {
    assert before.sent + (x + y) == before.sent + x + y;
  }

  /** A connection that accepts a number of bytes and then fails. */
  class Connection {
    var sent: seq<byte>
    var room: nat

    ghost function State(): Link
      reads this
    {
      Link(sent, room)
    }

    constructor (room: nat)
      ensures State() == Link([], room)
    {
      sent := [];
      this.room := room;
    }

    method Send(data: seq<byte>) returns (ok: bool)
      modifies this
      ensures Wrote(old(State()), State(), data, ok)
    {
      ok := |data| <= room;
      var n := Min(|data|, room);
      sent := sent + data[..n];
      room := room - n;
    }
  }

  class Writer {
    const conn: Connection
    var outChunkSize: int
    var sendStreams: map<int, Message>

    constructor (conn: Connection)
      ensures this.conn == conn && outChunkSize == 128 && sendStreams == map[]
    {
      this.conn := conn;
      outChunkSize := 128;
      sendStreams := map[];
    }

    /** Write the message header of the first chunk. The header a compressed format would
        need is computed from the previous message by the program and then overridden. */
    method SendHeader(m: Message) returns (ok: bool)
      modifies conn
      ensures Wrote(old(conn.State()), conn.State(), HeaderBytes(Full(HeaderOf(m))), ok)
    {
      hide Wrote, ToBe;
      var a, b, c := ToBe(U32(m.timestamp), 3), ToBe(|m.payload|, 3), ToBe(U32(m.streamId), 4);
      ghost var s0 := conn.State();
      ok := conn.Send(a);
      if !ok {
        WroteNot(s0, conn.State(), a, b);
        WroteNot(s0, conn.State(), a + b, [m.typeId]);
        WroteNot(s0, conn.State(), a + b + [m.typeId], c);
        return;
      }
      ghost var s1 := conn.State();
      ok := conn.Send(b);
      WroteThen(s0, s1, conn.State(), a, b, ok);
      if !ok {
        WroteNot(s0, conn.State(), a + b, [m.typeId]);
        WroteNot(s0, conn.State(), a + b + [m.typeId], c);
        return;
      }
      ghost var s2 := conn.State();
      ok := conn.Send([m.typeId]);
      WroteThen(s0, s2, conn.State(), a + b, [m.typeId], ok);
      if !ok {
        WroteNot(s0, conn.State(), a + b + [m.typeId], c);
        return;
      }
      ghost var s3 := conn.State();
      ok := conn.Send(c);
      WroteThen(s0, s3, conn.State(), a + b + [m.typeId], c, ok);
    }

    /** Write one chunk. */
    method SendChunk(m: Message, pos: nat) returns (ok: bool)
      requires outChunkSize > 0 && pos < |m.payload|
      modifies conn
      ensures Wrote(old(conn.State()), conn.State(), OneChunk(m, outChunkSize, pos), ok)
    {
      hide Wrote, HeaderBytes, ToBe, BasicBytes;
      var fmt := if pos == 0 then 0 else 3;
      ghost var basic := BasicBytes(fmt, m.csid);
      ghost var header := if pos == 0 then HeaderBytes(Full(HeaderOf(m))) else [];
      ghost var data := m.payload[pos..pos + Min(outChunkSize, |m.payload| - pos)];
      ghost var s0 := conn.State();
      ok := conn.Send(BasicBytes(fmt, m.csid));
      if !ok {
        WroteNot(s0, conn.State(), basic, header);
        WroteNot(s0, conn.State(), basic + header, ExtendedBytes(m));
        WroteNot(s0, conn.State(), basic + header + ExtendedBytes(m), data);
        return;
      }
      if pos == 0 {
        ghost var s1 := conn.State();
        ok := SendHeader(m);
        WroteThen(s0, s1, conn.State(), basic, header, ok);
        if !ok {
          WroteNot(s0, conn.State(), basic + header, ExtendedBytes(m));
          WroteNot(s0, conn.State(), basic + header + ExtendedBytes(m), data);
          return;
        }
      } else {
        assert basic + [] == basic;
      }
      if m.timestamp >= EXTENDED {
        ghost var s2 := conn.State();
        ok := conn.Send(ToBe(U32(m.timestamp), 4));
        WroteThen(s0, s2, conn.State(), basic + header, ExtendedBytes(m), ok);
        if !ok {
          WroteNot(s0, conn.State(), basic + header + ExtendedBytes(m), data);
          return;
        }
      } else {
        assert basic + header + [] == basic + header;
      }
      ghost var s3 := conn.State();
      ok := conn.Send(m.payload[pos..pos + Min(outChunkSize, |m.payload| - pos)]);
      WroteThen(s0, s3, conn.State(), basic + header + ExtendedBytes(m), data, ok);
    }

    /** Write a whole message in chunks: on success exactly the bytes of `ChunkBytes` have
        been appended, on failure a prefix of them. */
    method SendRtmpMessage(m: Message) returns (ok: bool)
      requires outChunkSize > 0
      modifies this`sendStreams, conn
      ensures Wrote(old(conn.State()), conn.State(), ChunkBytes(m, outChunkSize), ok)
      ensures ok ==> sendStreams == if |m.payload| == 0 then old(sendStreams) else old(sendStreams)[m.csid as int := m]
    {
      hide OneChunk, Wrote;
      var left := |m.payload|;
      var pos := 0;
      WroteNothing(conn.State());
      ghost var start := conn.State();
      ghost var done: seq<byte> := [];
      while left > 0
        invariant 0 <= pos && 0 <= left && pos + left == |m.payload|
        invariant Wrote(start, conn.State(), done, true)
        invariant done + ChunksFrom(m, outChunkSize, pos) == ChunkBytes(m, outChunkSize)
        invariant sendStreams == if pos == 0 then old(sendStreams) else old(sendStreams)[m.csid as int := m]
      {
        var n := Min(outChunkSize, left);
        ghost var rest := ChunksFrom(m, outChunkSize, pos + n);
        ghost var chunk := OneChunk(m, outChunkSize, pos);
        ghost var mid := conn.State();
        ok := SendChunk(m, pos);
        WroteThen(start, mid, conn.State(), done, chunk, ok);
        Assoc(done, chunk, rest);
        if !ok {
          WroteNot(start, conn.State(), done + chunk, rest);
          return;
        }
        done := done + chunk;
        left := left - n;
        pos := pos + n;
        sendStreams := sendStreams[m.csid as int := m];
      }
      assert done + [] == done;
      ok := true;
    }
  }

  /** A session end to end: the writer writes messages one after another, a protocol object
      reads the bytes, and hands up exactly those messages, up to the first one that the session
      behind it refuses. */
  method Session(ms: seq<Message>, room: nat, accept: Message -> bool)
    returns (sentAll: bool, delivered: seq<Delivery>, code: int)
    requires forall i :: 0 <= i < |ms| ==> Conveyable(ms[i]) && !IsControl(ms[i])
    ensures sentAll <==> |ServerWire(ms, 128)| <= room
    ensures sentAll ==> delivered == Heard(Tagged(ms), accept)
    ensures sentAll ==> code == if AllTaken(Tagged(ms), accept) then -1 else -18
  {
    hide Run, ChunkBytes, Tagged, Conveyable;
    var conn := new Connection(room);
    var writer := new Writer(conn);
    var i := 0;
    sentAll := true;
    delivered, code := [], 0;
    while i < |ms|
      invariant 0 <= i <= |ms|
      invariant writer.outChunkSize == 128
      invariant conn.sent == ServerWire(ms[..i], 128) && |conn.sent| + conn.room == room
    {
      ServerWireSnoc(ms[..i], ms[i], 128);
      assert ms[..i] + [ms[i]] == ms[..i + 1];
      sentAll := writer.SendRtmpMessage(ms[i]);
      if !sentAll {
        ServerWireLonger(ms, i + 1, 128);
        return;
      }
      i := i + 1;
    }
    assert ms[..i] == ms;
    var protocol := new Protocol();
    var fault: bool;
    delivered, fault, code := protocol.CycleRecv(conn.sent, accept, Initial());
    var s := Sender(128, map[]);
    FreshMirror(s);
    SessionRoundTrip(s, ms, accept);
  }

  lemma {:induction false} ServerWireLonger(ms: seq<Message>, i: nat, n: int)
    requires n > 0 && i <= |ms|
    ensures |ServerWire(ms[..i], n)| <= |ServerWire(ms, n)|
    decreases |ms| - i
  {
    if i == |ms| {
      assert ms[..i] == ms;
    } else {
      ServerWireSnoc(ms[..i], ms[i], n);
      assert ms[..i] + [ms[i]] == ms[..i + 1];
      ServerWireLonger(ms, i + 1, n);
    }
  }
}
