/** Muxing RTMP messages into an FLV stream over HTTP. A step is what a task does between two
    points where it may be suspended, or one send. */
module FlvMux {
  import opened Bytes
  import opened RtmpChunkStream

  const FLV_HEADER: seq<byte> := [0x46, 0x4c, 0x56, 0x01, 0x05, 0x00, 0x00, 0x00, 0x09]
  const TAG_HEADER_SIZE := 11

  // ------------------------------------------------------------------
  // What the file is to be: Annex E of the FLV specification, version 10.1

  /** The low 24 bits of the timestamp come first, then the upper eight. */
  function TagHeader(m: Message): (s: seq<byte>)
    ensures |s| == TAG_HEADER_SIZE
  {
    [m.typeId] + ToBe(|m.payload|, 3) + ToBe(U32(m.timestamp), 3) + [U32(m.timestamp) / 0x100_0000] + [0, 0, 0]
  }

  /** The size of a tag, which the next previous-size field repeats. */
  function TagSize(m: Message): nat {
    |m.payload| + TAG_HEADER_SIZE
  }

  function TagBytes(m: Message, prev: nat): (s: seq<byte>)
    ensures |s| == 4 + TagSize(m)
  {
    ToBe(prev, 4) + TagHeader(m) + m.payload
  }

  function Tags(ms: seq<Message>, prev: nat): seq<byte>
    decreases |ms|
  {
    if ms == [] then [] else TagBytes(ms[0], prev) + Tags(ms[1..], TagSize(ms[0]))
  }

  /** The previous-size field behind some tags. */
  function PrevAfter(ms: seq<Message>, prev: nat): nat {
    if ms == [] then prev else TagSize(ms[|ms| - 1])
  }

  lemma {:induction false} TagsAppend(a: seq<Message>, b: seq<Message>, prev: nat)
    ensures Tags(a + b, prev) == Tags(a, prev) + Tags(b, PrevAfter(a, prev))
    decreases |a|
  {
    hide TagBytes;
    if a == [] {
      assert a + b == b;
    } else {
      assert (a + b)[1..] == a[1..] + b;
      TagsAppend(a[1..], b, TagSize(a[0]));
    }
  }

  // ------------------------------------------------------------------
  // A reader of FLV files

  datatype Tag = Tag(typeId: byte, timestamp: int32, payload: seq<byte>)

  /** Whole tags and what is left of an unfinished one. */
  datatype File = File(tags: seq<Tag>, rest: seq<byte>) | Bad

  function ParseTags(d: seq<byte>, prev: nat): File
    decreases |d|
  {
    if |d| < 15 then File([], d)
    else if FromBe(d[..4]) != prev || d[12..15] != [0, 0, 0] then Bad
    else
      var size := FromBe(d[5..8]);
      if |d| < 15 + size then File([], d)
      else
        var tag := Tag(d[4], I32(d[11] * 0x100_0000 + FromBe(d[8..11])), d[15..15 + size]);
        var more := ParseTags(d[15 + size..], size + TAG_HEADER_SIZE);
        if more.Bad? then Bad else File([tag] + more.tags, more.rest)
  }

  /** Signature, version 1, audio and video present, and the body behind nine bytes. */
  predicate FileHeaderOk(d: seq<byte>) {
    && |d| >= 9
    && d[0] == 'F' as int && d[1] == 'L' as int && d[2] == 'V' as int
    && d[3] == 1 && d[4] == 4 + 1 && FromBe(d[5..9]) == 9
  }

  function Parse(d: seq<byte>): File {
    if !FileHeaderOk(d) then Bad else ParseTags(d[9..], 0)
  }

  function TagOf(m: Message): Tag {
    Tag(m.typeId, m.timestamp, m.payload)
  }

  function TagsOf(ms: seq<Message>): (ts: seq<Tag>)
    ensures |ts| == |ms|
  {
    if ms == [] then [] else [TagOf(ms[0])] + TagsOf(ms[1..])
  }

  predicate Small(ms: seq<Message>) {
    forall i :: 0 <= i < |ms| ==> |ms[i].payload| < 0x100_0000
  }

  lemma TimestampReadBack(t: int32)
    ensures I32(U32(t) / 0x100_0000 * 0x100_0000 + FromBe(ToBe(U32(t), 3))) == t
  {
    var u := U32(t);
    Pow256Values();
    BeWraps(u, 3);
    BeRoundTrip(u % 0x100_0000, 3);
    U32RoundTrip(t);
  }

  /** The fields of a tag are where the reader looks for them. */
  lemma TagRead(m: Message, prev: nat, d: seq<byte>)
    requires |m.payload| < 0x100_0000 && prev < 0x1_0000_0000
    requires |d| >= 15 && d[..15] == TagBytes(m, prev)[..15]
    ensures FromBe(d[..4]) == prev && d[12..15] == [0, 0, 0]
    ensures d[4] == m.typeId && FromBe(d[5..8]) == |m.payload|
    ensures I32(d[11] * 0x100_0000 + FromBe(d[8..11])) == m.timestamp
  {
    hide ToBe, FromBe, I32;
    var t := TagBytes(m, prev);
    assert t[..4] == ToBe(prev, 4) && t[5..8] == ToBe(|m.payload|, 3) && t[8..11] == ToBe(U32(m.timestamp), 3);
    assert t[4] == m.typeId && t[11] == U32(m.timestamp) / 0x100_0000 && t[12..15] == [0, 0, 0];
    assert d[..4] == d[..15][..4] && t[..4] == t[..15][..4];
    assert d[5..8] == d[..15][5..8] && t[5..8] == t[..15][5..8];
    assert d[8..11] == d[..15][8..11] && t[8..11] == t[..15][8..11];
    assert d[12..15] == d[..15][12..15] && t[12..15] == t[..15][12..15];
    assert d[4] == d[..15][4] && t[4] == t[..15][4] && d[11] == d[..15][11] && t[11] == t[..15][11];
    Pow256Values();
    BeRoundTrip(prev, 4);
    BeRoundTrip(|m.payload|, 3);
    TimestampReadBack(m.timestamp);
  }

  /** However much of a file has arrived, the reader finds its first tags and no others: at
      least the `k` that are known to be there. */
  lemma {:induction false} PrefixParses(ms: seq<Message>, prev: nat, d: seq<byte>, k: nat) returns (n: nat)
    requires Small(ms) && prev < 0x1_0000_0000 && d <= Tags(ms, prev)
    requires k <= |ms| && Tags(ms[..k], prev) <= d
    ensures k <= n <= |ms| && ParseTags(d, prev).File? && ParseTags(d, prev).tags == TagsOf(ms[..n])
    decreases |ms|
  {
    hide TagBytes, ParseTags;
    n := 0;
    if ms == [] {
      NoTags(d, prev);
    } else {
      var m, t := ms[0], TagBytes(ms[0], prev);
      if k > 0 {
        assert ms[..k][1..] == ms[1..][..k - 1] && ms[..k][0] == m;
        assert t <= d;
      }
      if |d| < |t| {
        assert d <= t;
        UnfinishedTag(m, prev, d);
      } else {
        var rest := d[|t|..];
        assert t <= d && rest <= Tags(ms[1..], TagSize(m));
        var j := if k > 0 then k - 1 else 0;
        assert Tags(ms[1..][..j], TagSize(m)) <= rest;
        var n' := PrefixParses(ms[1..], TagSize(m), rest, j);
        FinishedTag(m, prev, d);
        n := n' + 1;
        assert ms[..n][1..] == ms[1..][..n'] && ms[..n][0] == m;
      }
    }
  }

  lemma NoTags(d: seq<byte>, prev: nat)
    requires d == []
    ensures ParseTags(d, prev) == File([], [])
  {
  }

  lemma UnfinishedTag(m: Message, prev: nat, d: seq<byte>)
    requires |m.payload| < 0x100_0000 && prev < 0x1_0000_0000
    requires d < TagBytes(m, prev)
    ensures ParseTags(d, prev) == File([], d)
  {
    hide TagBytes, FromBe, I32;
    if |d| >= 15 {
      assert d[..15] == TagBytes(m, prev)[..15];
      TagRead(m, prev, d);
    }
  }

  lemma FinishedTag(m: Message, prev: nat, d: seq<byte>)
    requires |m.payload| < 0x100_0000 && prev < 0x1_0000_0000
    requires TagBytes(m, prev) <= d
    ensures var more := ParseTags(d[4 + TagSize(m)..], TagSize(m));
            ParseTags(d, prev) == if more.Bad? then Bad else File([TagOf(m)] + more.tags, more.rest)
  {
    hide TagBytes, FromBe, I32;
    assert d[..15] == TagBytes(m, prev)[..15];
    TagRead(m, prev, d);
    PayloadAt(m, prev, d);
  }

  lemma PayloadAt(m: Message, prev: nat, d: seq<byte>)
    requires TagBytes(m, prev) <= d
    ensures d[15..15 + |m.payload|] == m.payload
  {
    hide ToBe;
    assert TagBytes(m, prev)[15..] == m.payload;
  }

  // ------------------------------------------------------------------
  // The muxer

  /** Which of its three sends a tag has come to. */
  datatype Piece = PreviousSize | Head | Payload

  /** `batch` is the list swapped out of the queue, from the message being sent on; `spawned`:
      the send task has been started and not yet run. `queued` and `sent` list the messages
      ever queued and those written in full. */
  datatype Mux = Mux(
    queue: seq<Message>,
    batch: seq<Message>,
    piece: Piece,
    sending: bool,
    spawned: bool,
    headerDone: bool,
    closed: bool,
    prev: nat,
    out: seq<byte>,
    queued: seq<Message>,
    sent: seq<Message>)

  const START := Mux([], [], PreviousSize, false, false, false, false, 0, [], [], [])

  datatype Action =
    | Queue(m: Message)
    | Activate
    | FileHeader
    | HeaderFails(count: nat)
    | Begin
    | Write
    | WriteFails(count: nat)

  function PieceBytes(s: Mux): seq<byte>
    requires s.batch != []
  {
    match s.piece
    case PreviousSize => ToBe(s.prev, 4)
    case Head => TagHeader(s.batch[0])
    case Payload => s.batch[0].payload
  }

  /** A failing send has written some first part of its bytes. */
  predicate Enabled(s: Mux, a: Action) {
    match a
    case Queue(_) => true
    case Activate => true
    case FileHeader => !s.headerDone && !s.closed
    case HeaderFails(n) => !s.headerDone && !s.closed && n <= |FLV_HEADER|
    case Begin => s.spawned
    case Write => s.batch != [] && !s.closed
    case WriteFails(n) => s.batch != [] && !s.closed && n <= |PieceBytes(s)|
  }

  /** `send_handler_`. */
  function Handler(s: Mux): Mux {
    if s.queue == [] || !s.headerDone || s.sending then s else s.(sending := true, spawned := true)
  }

  /** The sizes are kept behind the payload; the flag is dropped behind the last message. */
  function Written(s: Mux): Mux
    requires s.batch != []
  {
    var s1 := s.(out := s.out + PieceBytes(s));
    match s.piece
    case PreviousSize => s1.(piece := Head)
    case Head => s1.(piece := Payload)
    case Payload =>
      s1.(piece := PreviousSize, prev := TagSize(s.batch[0]), batch := s.batch[1..],
          sent := s.sent + [s.batch[0]], sending := |s.batch| > 1)
  }

  function Next(s: Mux, a: Action): Mux
    requires Enabled(s, a)
  {
    match a
    case Queue(m) => s.(queue := s.queue + [m], queued := s.queued + [m])
    case Activate => Handler(s)
    case FileHeader => Handler(s.(out := s.out + FLV_HEADER, headerDone := true))
    case HeaderFails(n) => s.(out := s.out + FLV_HEADER[..n], closed := true)
    case Begin =>
      if s.queue == [] then s.(spawned := false, sending := false)
      else s.(spawned := false, batch := s.queue, queue := [])
    case Write => Written(s)
    case WriteFails(n) => s.(out := s.out + PieceBytes(s)[..n], closed := true)
  }

  // ------------------------------------------------------------------
  // What every step keeps

  /** The part of the current tag that has been written. */
  function Begun(s: Mux): seq<byte> {
    if s.batch == [] || s.piece.PreviousSize? then []
    else if s.piece.Head? then ToBe(s.prev, 4)
    else ToBe(s.prev, 4) + TagHeader(s.batch[0])
  }

  /** Nothing is lost, doubled or reordered between the queue and the wire. */
  predicate InOrder(s: Mux) {
    && s.queued == s.sent + s.batch + s.queue
    && s.prev == PrevAfter(s.sent, 0)
  }

  /** One send task at a time, and none before the file header. */
  predicate OneSender(s: Mux) {
    && (s.sending <==> s.spawned || s.batch != [])
    && (s.spawned ==> s.batch == [])
    && (s.batch == [] ==> s.piece.PreviousSize?)
    && (s.closed ==> !s.spawned && (s.headerDone ==> s.batch != []))
    && (!s.headerDone ==> !s.sending && s.sent == [] && (s.out == [] || s.closed))
  }

  predicate Stream(s: Mux) {
    if s.closed then
      && s.out <= FLV_HEADER + Tags(s.sent + s.batch, 0)
      && (s.headerDone ==> FLV_HEADER + Tags(s.sent, 0) <= s.out)
    else s.headerDone ==> s.out == FLV_HEADER + Tags(s.sent, 0) + Begun(s)
  }

  predicate Inv(s: Mux) {
    InOrder(s) && OneSender(s) && Stream(s)
  }

  lemma BegunThenPiece(s: Mux)
    requires s.batch != []
    ensures Begun(s) + PieceBytes(s) <= TagBytes(s.batch[0], s.prev)
    ensures s.piece.Payload? ==> Begun(s) + PieceBytes(s) == TagBytes(s.batch[0], s.prev)
    ensures !s.piece.Payload? ==> Begun(Written(s)) == Begun(s) + PieceBytes(s)
  {
    hide ToBe, TagHeader;
  }

  lemma WriteKeeps(s: Mux)
    requires Inv(s) && Enabled(s, Write)
    ensures Inv(Written(s))
  {
    hide Tags, TagBytes, Begun, PieceBytes, PrevAfter;
    var m := s.batch[0];
    BegunThenPiece(s);
    var s' := Written(s);
    assert s'.out == FLV_HEADER + Tags(s.sent, 0) + (Begun(s) + PieceBytes(s));
    if s.piece.Payload? {
      assert s.batch == [m] + s.batch[1..];
      assert s.sent + s.batch + s.queue == s'.sent + s'.batch + s'.queue;
      OneMoreTag(s.sent, m);
      NothingBegun(s');
    }
  }

  lemma OneMoreTag(ms: seq<Message>, m: Message)
    ensures Tags(ms + [m], 0) == Tags(ms, 0) + TagBytes(m, PrevAfter(ms, 0))
    ensures PrevAfter(ms + [m], 0) == TagSize(m)
  {
    hide TagBytes;
    TagsAppend(ms, [m], 0);
    assert [m][1..] == [];
    assert Tags([m], PrevAfter(ms, 0)) == TagBytes(m, PrevAfter(ms, 0)) + [];
  }

  lemma NothingBegun(s: Mux)
    requires s.piece.PreviousSize?
    ensures Begun(s) == []
    ensures FLV_HEADER + Tags(s.sent, 0) + Begun(s) == FLV_HEADER + Tags(s.sent, 0)
  {
    hide Tags;
  }

  lemma FailKeeps(s: Mux, n: nat)
    requires Inv(s) && Enabled(s, WriteFails(n))
    ensures Inv(Next(s, WriteFails(n)))
  {
    hide Tags, TagBytes, Begun, PieceBytes, PrevAfter;
    var m := s.batch[0];
    BegunThenPiece(s);
    OneMoreTag(s.sent, m);
    var part := PieceBytes(s)[..n];
    assert Begun(s) + part <= Begun(s) + PieceBytes(s);
    assert s.out + part == FLV_HEADER + Tags(s.sent, 0) + (Begun(s) + part);
    assert s.sent + s.batch == s.sent + [m] + s.batch[1..];
    TagsAppend(s.sent + [m], s.batch[1..], 0);
  }

  lemma StepKeeps(s: Mux, a: Action)
    requires Inv(s) && Enabled(s, a)
    ensures Inv(Next(s, a))
  {
    hide Tags, TagBytes, PieceBytes, PrevAfter, TagHeader, ToBe;
    match a
    case Queue(m) =>
      assert s.queued + [m] == s.sent + s.batch + (s.queue + [m]);
    case Activate =>
    case FileHeader =>
      assert s.out + FLV_HEADER == FLV_HEADER;
      NoTagsYet();
    case HeaderFails(n) =>
      assert s.out + FLV_HEADER[..n] == FLV_HEADER[..n];
    case Begin =>
      assert s.sent + s.batch + s.queue == s.sent + s.queue + [];
    case Write =>
      WriteKeeps(s);
    case WriteFails(n) =>
      FailKeeps(s, n);
  }

  lemma NoTagsYet()
    ensures Tags([], 0) == []
  {
  }

  // ------------------------------------------------------------------
  // Whole runs

  predicate Possible(s: Mux, run: seq<Action>)
    decreases |run|
  {
    run == [] || (Enabled(s, run[0]) && Possible(Next(s, run[0]), run[1..]))
  }

  function After(s: Mux, run: seq<Action>): Mux
    requires Possible(s, run)
    decreases |run|
  {
    if run == [] then s else After(Next(s, run[0]), run[1..])
  }

  lemma {:induction false} EveryRunKeeps(s: Mux, run: seq<Action>)
    requires Inv(s) && Possible(s, run)
    ensures Inv(After(s, run))
    decreases |run|
  {
    hide Inv, Next, Enabled;
    if run != [] {
      StepKeeps(s, run[0]);
      EveryRunKeeps(Next(s, run[0]), run[1..]);
    }
  }

  /** The messages a run hands over. */
  function Handed(run: seq<Action>): seq<Message> {
    if run == [] then [] else (if run[0].Queue? then [run[0].m] else []) + Handed(run[1..])
  }

  /** One step hands over its message or none. */
  lemma StepQueues(s: Mux, a: Action)
    requires Enabled(s, a)
    ensures Next(s, a).queued == if a.Queue? then s.queued + [a.m] else s.queued
  {
    hide PieceBytes;
  }

  lemma Behind(a: seq<Message>, b: seq<Message>, c: seq<Message>)
    ensures a + b + c == a + (b + c) && (b == [] ==> a + b == a)
  {
  }

  lemma {:induction false} QueuedIsHanded(s: Mux, run: seq<Action>)
    requires Possible(s, run)
    ensures After(s, run).queued == s.queued + Handed(run)
    decreases |run|
  {
    hide PieceBytes, Next, Enabled;
    if run == [] {
      assert s.queued + [] == s.queued;
    } else {
      StepQueues(s, run[0]);
      QueuedIsHanded(Next(s, run[0]), run[1..]);
      Behind(s.queued, if run[0].Queue? then [run[0].m] else [], Handed(run[1..]));
    }
  }

  lemma HeaderReadable(d: seq<byte>)
    requires FLV_HEADER <= d
    ensures FileHeaderOk(d)
  {
    assert d[0] == FLV_HEADER[0] && d[1] == FLV_HEADER[1] && d[2] == FLV_HEADER[2] && d[3] == FLV_HEADER[3];
    assert d[4] == FLV_HEADER[4] && d[5..9] == [0, 0, 0, 9];
    FromBeFour(0, 0, 0, 9);
  }

  /** After every run, failing or not, the bytes written are a first part of the file made of
      all messages handed over, they contain every message reported sent, and they are read back
      as the first messages handed over, in order: at least those sent. */
  lemma MuxPreservesStream(run: seq<Action>) returns (n: nat)
    requires Possible(START, run) && Small(Handed(run))
    requires After(START, run).headerDone
    ensures var s := After(START, run);
            && |s.sent| <= n <= |Handed(run)| && s.sent <= Handed(run)
            && s.sent + s.batch + s.queue == Handed(run)
            && s.out <= FLV_HEADER + Tags(Handed(run), 0)
            && Parse(s.out).File? && Parse(s.out).tags == TagsOf(Handed(run)[..n])
  {
    hide Tags, ParseTags, PieceBytes, PrevAfter, TagBytes, Begun, TagsOf, TagHeader;
    var s := After(START, run);
    QueuedIsHanded(START, run);
    assert [] + Handed(run) == Handed(run);
    StartOk();
    EveryRunKeeps(START, run);
    WithinFile(s);
    var d := s.out[9..];
    assert s.out[..9] == FLV_HEADER;
    HeaderReadable(s.out);
    assert s.queued[..|s.sent|] == s.sent;
    assert Tags(s.sent, 0) <= d && d <= Tags(s.queued, 0);
    n := PrefixParses(s.queued, 0, d, |s.sent|);
  }

  lemma StartOk()
    ensures Inv(START)
  {
  }

  lemma WithinFile(s: Mux)
    requires Inv(s) && s.headerDone
    ensures s.sent <= s.queued
    ensures FLV_HEADER + Tags(s.sent, 0) <= s.out <= FLV_HEADER + Tags(s.queued, 0)
  {
    hide Tags, TagBytes, Begun, PieceBytes, PrevAfter;
    assert s.queued == s.sent + (s.batch + s.queue);
    assert s.queued == (s.sent + s.batch) + s.queue;
    TagsAppend(s.sent, s.batch + s.queue, 0);
    TagsAppend(s.sent + s.batch, s.queue, 0);
    if !s.closed {
      if s.batch == [] {
        NothingBegun(s);
      } else {
        var m := s.batch[0];
        BegunThenPiece(s);
        OneMoreTag(s.sent, m);
        assert s.queued == (s.sent + [m]) + (s.batch[1..] + s.queue);
        TagsAppend(s.sent + [m], s.batch[1..] + s.queue, 0);
        assert Begun(s) <= TagBytes(m, s.prev);
        assert s.out <= FLV_HEADER + (Tags(s.sent, 0) + TagBytes(m, s.prev));
      }
    }
  }

  /** A batch that has been started is sent to its end, three sends to a message, if none fails;
      then the flag is free again. */
  lemma {:induction false} BatchDrains(s: Mux)
    requires Inv(s) && s.batch != [] && !s.closed && s.piece.PreviousSize?
    ensures var run := seq(3 * |s.batch|, i => Write);
            && Possible(s, run)
            && After(s, run).sent == s.sent + s.batch && After(s, run).batch == [] && !After(s, run).sending
    decreases |s.batch|
  {
    hide Inv, InOrder, OneSender, Stream, PieceBytes;
    var n := 3 * |s.batch|;
    var run := seq(n, i => Write);
    var s1 := Written(s);
    var s2 := Written(s1);
    var s3 := Written(s2);
    WriteKeeps(s);
    WriteKeeps(s1);
    WriteKeeps(s2);
    var rest := run[3..];
    assert rest == seq(n - 3, i => Write);
    assert run[1..][1..][1..] == rest;
    if |s.batch| > 1 {
      BatchDrains(s3);
      assert s3.sent + s3.batch == s.sent + s.batch;
    } else {
      assert rest == [];
      assert s.batch == [s.batch[0]];
    }
    Thrice(s, run);
  }

  lemma Thrice(s: Mux, run: seq<Action>)
    requires |run| >= 3 && run[0] == Write && run[1] == Write && run[2] == Write
    requires s.batch != [] && !s.closed && s.piece.PreviousSize?
    requires Possible(Written(Written(Written(s))), run[3..])
    ensures Possible(s, run) && After(s, run) == After(Written(Written(Written(s))), run[3..])
  {
    hide PieceBytes;
    var s1 := Written(s);
    var s2 := Written(s1);
    var r1 := run[1..];
    var r2 := r1[1..];
    assert r1[0] == Write && r2[0] == Write && r2[1..] == run[3..];
    assert Possible(s2, r2) && After(s2, r2) == After(Written(s2), run[3..]);
    assert Possible(s1, r1) && After(s1, r1) == After(s2, r2);
  }

  // ------------------------------------------------------------------
  // Messages that wait with nobody sending

  /** There are messages, the connection is open, and no send task runs or has been started. */
  predicate Waiting(s: Mux) {
    s.headerDone && !s.closed && !s.sending && s.queue != []
  }

  /** Exactly the steps that leave messages waiting: a message queued while nobody sends, before
      the activation that goes with it; and the last send of a batch during which messages were
      queued, because the flag is dropped without looking at the queue again. */
  lemma WaitingIff(s: Mux, a: Action)
    requires Inv(s) && Enabled(s, a)
    ensures Waiting(Next(s, a))
            <==> !s.closed && s.headerDone
                 && ((a.Queue? && !s.sending) || (a.Write? && s.piece.Payload? && |s.batch| == 1 && s.queue != []))
  {
    hide InOrder, Stream, PieceBytes;
  }

  /** They wait until the next activation, and nothing is written meanwhile; the activation starts
      a send task for them. */
  lemma WaitsForActivation(s: Mux, a: Action)
    requires Inv(s) && Waiting(s) && Enabled(s, a)
    ensures a.Activate? ==> Next(s, a).spawned && Next(s, a).queue == s.queue
    ensures !a.Activate? ==> Waiting(Next(s, a)) && Next(s, a).out == s.out && s.queue <= Next(s, a).queue
  {
    hide InOrder, Stream, PieceBytes;
  }

  /** A witness: the second message is queued, and its activation comes, while the first is being
      sent. */
  lemma ActivationLost(m: Message)
    ensures var sends := [Write, Write, Write];
            var run := [Queue(m)] + ([FileHeader] + ([Begin] + ([Queue(m)] + ([Activate] + sends))));
            Possible(START, run) && Waiting(After(START, run)) && After(START, run).sent == [m]
  {
    hide PieceBytes, Possible, After;
    var s1 := Next(START, Queue(m));
    var s2 := Next(s1, FileHeader);
    var s3 := Next(s2, Begin);
    var s4 := Next(s3, Queue(m));
    var s5 := Next(s4, Activate);
    assert s5.batch == [m] && s5.queue == [m] && s5.sending && s5.sent == [];
    var r5 := [Write, Write, Write];
    NoSteps(Written(Written(Written(s5))), r5[3..]);
    Thrice(s5, r5);
    var r4 := [Activate] + r5;
    OneFirst(s4, Activate, r5);
    var r3 := [Queue(m)] + r4;
    OneFirst(s3, Queue(m), r4);
    var r2 := [Begin] + r3;
    OneFirst(s2, Begin, r3);
    var r1 := [FileHeader] + r2;
    OneFirst(s1, FileHeader, r2);
    OneFirst(START, Queue(m), r1);
  }

  lemma NoSteps(s: Mux, run: seq<Action>)
    requires run == []
    ensures Possible(s, run) && After(s, run) == s
  {
  }

  lemma OneFirst(s: Mux, a: Action, run: seq<Action>)
    requires Enabled(s, a) && Possible(Next(s, a), run)
    ensures Possible(s, [a] + run) && After(s, [a] + run) == After(Next(s, a), run)
  {
    hide Next, Enabled;
    assert ([a] + run)[1..] == run;
  }
}
