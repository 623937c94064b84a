/** Live fan-out: a fixed ring of packets standing for an unbounded log, and readers that
    follow it a few packets at a time. */
module MediaFanOut {
  import opened Bytes

  const RING: nat := 2048
  const KEYFRAMES: nat := 200
  const BATCH: nat := 10

  /** A published packet: its timestamp and what its tag header says. A packet whose tag
      header cannot be decoded is stored all the same. */
  datatype Packet = Packet(timestamp: int, video: bool, decodes: bool, keyFrame: bool, seqHeader: bool, body: seq<byte>)

  // ------------------------------------------------------------------
  // The ring

  /** The newest of the packets 1..count that lives in the same slot of a ring of size `n`
      as packet `index`, or 0 when that slot is still empty. */
  function Newest(count: nat, n: nat, index: nat): nat
    requires n > 0
  {
    var back := (count - index) % n;
    if back < count then count - back else 0
  }

  /** A slot holds the packet asked for exactly while fewer than a ring's worth of packets
      have been published since. */
  lemma HeldIff(count: nat, n: nat, index: nat)
    requires n > 0 && 1 <= index <= count
    ensures Newest(count, n, index) == index <==> count - index < n
    ensures 1 <= index <= Newest(count, n, index) <= count
  {
    var d := count - index;
    if d < n {
      SmallMod(d, n);
    } else {
      ModBelow(d, n);
    }
  }

  lemma SmallMod(d: nat, n: nat)
    requires d < n
    ensures d % n == d
  {
  }

  lemma ModBelow(d: nat, n: nat)
    requires n > 0 && d >= n
    ensures d % n < n <= d && d % n <= d
  {
  }

  /** Publishing one more packet changes exactly its own slot. */
  lemma NewestStep(count: nat, n: nat, index: nat)
    requires n > 0
    ensures Newest(count + 1, n, index) == if (count + 1) % n == index % n then count + 1 else Newest(count, n, index)
  {
    CongruentIff(count + 1, index, n);
    if (count + 1 - index) % n != 0 {
      ModPred(count + 1 - index, n);
    }
  }

  lemma CongruentIff(a: int, b: int, n: int)
    requires n > 0
    ensures a % n == b % n <==> (a - b) % n == 0
  {
    var qa, qb := a / n, b / n;
    if a % n == b % n {
      assert a - b == n * (qa - qb);
      ModOfMultiple(qa - qb, n);
    }
    if (a - b) % n == 0 {
      var q := (a - b) / n;
      assert a == n * (q + qb) + b % n;
      ModUnique(a, n, q + qb, b % n);
    }
  }

  lemma ModOfMultiple(q: int, n: int)
    requires n > 0
    ensures (n * q) % n == 0
  {
    ModUnique(n * q, n, q, 0);
  }

  lemma ModPred(a: int, n: int)
    requires n > 0 && a % n != 0
    ensures (a - 1) % n == a % n - 1
  {
    ModUnique(a - 1, n, a / n, a % n - 1);
  }

  class SequencePktBuf {
    const slots: array<Option<Packet>>
    var indexes: nat
    /** Every packet ever published; packet `i` is `log[i - 1]`. */
    ghost var log: seq<Packet>

    ghost predicate Valid()
      reads this, slots
    {
      && slots.Length > 0
      && |log| == indexes
      && forall k :: 0 <= k < slots.Length ==> slots[k] == InSlot(log, slots.Length, k)
    }

    constructor (maxSize: nat)
      requires maxSize > 0
      ensures Valid() && log == [] && slots.Length == maxSize && fresh(slots)
    {
      slots := new Option<Packet>[maxSize](_ => None);
      indexes := 0;
      log := [];
      new;
      forall k | 0 <= k < slots.Length
        ensures slots[k] == InSlot(log, slots.Length, k)
      {
      }
    }

    method AddPkt(p: Packet) returns (index: nat)
      requires Valid()
      modifies this, slots
      ensures Valid() && log == old(log) + [p] && index == |log|
    {
      indexes := indexes + 1;
      slots[indexes % slots.Length] := Some(p);
      index := indexes;
      ghost var before := log;
      log := log + [p];
      forall k | 0 <= k < slots.Length
        ensures slots[k] == InSlot(log, slots.Length, k)
      {
        NewestStep(|before|, slots.Length, k);
        SmallMod(k, slots.Length);
      }
    }

    /** Reading returns whatever the slot holds. */
    method GetPkt(index: nat) returns (p: Option<Packet>)
      requires Valid()
      ensures p == InSlot(log, slots.Length, index)
    {
      p := slots[index % slots.Length];
      SameSlot(|log|, slots.Length, index);
    }
  }

  /** What the slot of packet `index` holds once `log` has been published. */
  function InSlot(log: seq<Packet>, n: nat, index: nat): Option<Packet>
    requires n > 0
  {
    var j := Newest(|log|, n, index);
    if 1 <= j <= |log| then Some(log[j - 1]) else None
  }

  lemma SameSlot(count: nat, n: nat, index: nat)
    requires n > 0
    ensures Newest(count, n, index % n) == Newest(count, n, index)
  {
    var q := index / n;
    assert count - index % n == (count - index) + n * q;
    var a := count - index;
    ModUnique(a + n * q, n, a / n + q, a % n);
  }

  // ------------------------------------------------------------------
  // The source

  /** The source as a value. Packet `i` of the unbounded log is `log[i - 1]`. */
  datatype Feed = Feed(
    metadata: Packet, hasVideo: bool, hasAudio: bool,
    log: seq<Packet>, keyframes: seq<nat>, latestVideoTimestamp: int,
    videoHeader: Option<Packet>, audioHeader: Option<Packet>, ready: bool)

  /** A circular buffer of the newest keyframe indexes. */
  function Remember(ks: seq<nat>, k: nat): seq<nat> {
    if |ks| < KEYFRAMES then ks + [k] else ks[1..] + [k]
  }

  function NowReady(f: Feed): bool {
    f.ready || ((f.hasAudio ==> f.audioHeader.Some?) && (f.hasVideo ==> f.videoHeader.Some?))
  }

  /** The feed after a packet has been published. */
  function Published(f: Feed, p: Packet): Feed {
    var g := f.(log := f.log + [p]);
    if !p.decodes then g
    else if p.video then
      var h := if p.keyFrame && !p.seqHeader then g.(keyframes := Remember(g.keyframes, |g.log|))
               else if p.seqHeader then g.(videoHeader := Some(p))
               else g;
      h.(ready := NowReady(h), latestVideoTimestamp := p.timestamp)
    else
      var h := if p.seqHeader then g.(audioHeader := Some(p)) else g;
      h.(ready := NowReady(h))
  }

  /** The packet published as number `index` wakes the readers. */
  predicate Wakes(p: Packet, index: nat) {
    p.decodes && (index >= 300 || index % 5 == 0)
  }

  /** Before the 300th packet one in five wakes the readers, from then on every one; and a packet
      that does not decode wakes nobody. */
  lemma WakeRate(p: Packet, index: nat)
    ensures !p.decodes ==> !Wakes(p, index)
    ensures p.decodes && index >= 300 ==> Wakes(p, index)
    ensures p.decodes && index < 296 ==>
              exists j :: index <= j < index + 5 && Wakes(p, j)
                && forall k :: index <= k < index + 5 && k != j ==> !Wakes(p, k)
  {
    if p.decodes && index < 296 {
      var j := index + (5 - index % 5) % 5;
      assert j % 5 == 0 && Wakes(p, j);
      assert forall k :: index <= k < index + 5 && k != j ==> !Wakes(p, k);
    }
  }

  // What the source knows, read off the log

  /** A video packet a reader can start from. */
  predicate IsKey(p: Packet) {
    p.video && p.decodes && p.keyFrame && !p.seqHeader
  }

  /** The numbers of all such packets. */
  function KeyNumbers(log: seq<Packet>): seq<nat> {
    if log == [] then []
    else KeyNumbers(log[..|log| - 1]) + if IsKey(log[|log| - 1]) then [|log|] else []
  }

  function Latest(ks: seq<nat>, n: nat): seq<nat> {
    if |ks| <= n then ks else ks[|ks| - n..]
  }

  /** The last sequence header of a kind. */
  function LastHeader(log: seq<Packet>, video: bool): Option<Packet> {
    if log == [] then None
    else
      var p := log[|log| - 1];
      if p.decodes && p.video == video && p.seqHeader then Some(p) else LastHeader(log[..|log| - 1], video)
  }

  /** The timestamp of the last video packet, 0 before the first. */
  function LastVideoTimestamp(log: seq<Packet>): int {
    if log == [] then 0
    else
      var p := log[|log| - 1];
      if p.decodes && p.video then p.timestamp else LastVideoTimestamp(log[..|log| - 1])
  }

  predicate AnyDecodes(log: seq<Packet>) {
    exists i :: 0 <= i < |log| && log[i].decodes
  }

  /** The source remembers the newest keyframes and sequence headers of its log and nothing else,
      and is ready once it has a header of every kind its metadata promises. */
  predicate FromLog(f: Feed) {
    && f.keyframes == Latest(KeyNumbers(f.log), KEYFRAMES)
    && f.latestVideoTimestamp == LastVideoTimestamp(f.log)
    && f.videoHeader == LastHeader(f.log, true) && f.audioHeader == LastHeader(f.log, false)
    && (f.ready <==> AnyDecodes(f.log) && (f.hasAudio ==> f.audioHeader.Some?) && (f.hasVideo ==> f.videoHeader.Some?))
  }

  /** The remembered keyframes are packets of the log, in the order of their publication. */
  predicate Ordered(ks: seq<nat>, count: nat) {
    && (forall i :: 0 <= i < |ks| ==> 1 <= ks[i] <= count)
    && (forall i, j :: 0 <= i < j < |ks| ==> ks[i] < ks[j])
  }

  predicate FeedOk(f: Feed) {
    FromLog(f) && Ordered(f.keyframes, |f.log|)
  }

  /** The numbers are those of the keyframes, all of them, in order. */
  lemma {:induction false} KeyNumbersAre(log: seq<Packet>)
    ensures Ordered(KeyNumbers(log), |log|)
    ensures forall i :: 0 <= i < |KeyNumbers(log)| ==> IsKey(log[KeyNumbers(log)[i] - 1])
    ensures forall k :: 1 <= k <= |log| && IsKey(log[k - 1]) ==> k in KeyNumbers(log)
  {
    if log != [] {
      var front := log[..|log| - 1];
      KeyNumbersAre(front);
      var ks := KeyNumbers(log);
      forall k | 1 <= k <= |log| && IsKey(log[k - 1]) ensures k in ks {
        if k < |log| {
          assert front[k - 1] == log[k - 1];
        } else {
          assert ks[|ks| - 1] == k;
        }
      }
    }
  }

  lemma LatestOrdered(ks: seq<nat>, n: nat, count: nat)
    requires Ordered(ks, count)
    ensures Ordered(Latest(ks, n), count)
  {
  }

  lemma RememberLatest(ks: seq<nat>, k: nat)
    ensures Remember(Latest(ks, KEYFRAMES), k) == Latest(ks + [k], KEYFRAMES)
  {
  }

  /** Publishing keeps all of it. */
  lemma PublishedOk(f: Feed, p: Packet)
    requires FeedOk(f)
    ensures FeedOk(Published(f, p))
  {
    hide Ordered, Latest, Remember;
    var g := Published(f, p);
    assert g.log == f.log + [p] && g.log[..|g.log| - 1] == f.log && g.log[|g.log| - 1] == p;
    RememberLatest(KeyNumbers(f.log), |g.log|);
    assert KeyNumbers(f.log) + [] == KeyNumbers(f.log);
    KeyNumbersAre(g.log);
    LatestOrdered(KeyNumbers(g.log), KEYFRAMES, |g.log|);
    DecodesMore(f.log, p);
  }

  lemma DecodesMore(log: seq<Packet>, p: Packet)
    ensures AnyDecodes(log + [p]) <==> AnyDecodes(log) || p.decodes
  {
    var more := log + [p];
    assert forall i :: 0 <= i < |log| ==> more[i] == log[i];
    if p.decodes {
      assert more[|log|].decodes;
    }
    if AnyDecodes(log) {
      var i :| 0 <= i < |log| && log[i].decodes;
      assert more[i].decodes;
    }
  }

  function Empty(metadata: Packet, hasVideo: bool, hasAudio: bool): Feed {
    Feed(metadata, hasVideo, hasAudio, [], [], 0, None, None, false)
  }

  function PublishAll(f: Feed, ps: seq<Packet>): Feed
    decreases |ps|
  {
    if ps == [] then f else PublishAll(Published(f, ps[0]), ps[1..])
  }

  lemma {:induction false} PublishAllLog(f: Feed, ps: seq<Packet>)
    ensures PublishAll(f, ps).log == f.log + ps
    decreases |ps|
  {
    if ps == [] {
      assert f.log + [] == f.log;
    } else {
      PublishAllLog(Published(f, ps[0]), ps[1..]);
      assert f.log + [ps[0]] + ps[1..] == f.log + ps;
    }
  }

  lemma {:induction false} PublishAllOk(f: Feed, ps: seq<Packet>)
    requires FeedOk(f)
    ensures FeedOk(PublishAll(f, ps))
    decreases |ps|
  {
    hide FeedOk;
    if ps != [] {
      PublishedOk(f, ps[0]);
      PublishAllOk(Published(f, ps[0]), ps[1..]);
    }
  }

  /** Whatever is published from the start on: the log is what was published, and the source knows
      exactly what can be read off it. */
  lemma EveryFeed(metadata: Packet, hasVideo: bool, hasAudio: bool, ps: seq<Packet>)
    ensures var f := PublishAll(Empty(metadata, hasVideo, hasAudio), ps);
            FeedOk(f) && f.log == ps
  {
    hide FeedOk;
    EmptyOk(metadata, hasVideo, hasAudio);
    PublishAllOk(Empty(metadata, hasVideo, hasAudio), ps);
    PublishAllLog(Empty(metadata, hasVideo, hasAudio), ps);
    assert [] + ps == ps;
  }

  lemma EmptyOk(metadata: Packet, hasVideo: bool, hasAudio: bool)
    ensures FeedOk(Empty(metadata, hasVideo, hasAudio))
  {
  }

  /** A remembered keyframe is a keyframe. */
  lemma RememberedIsKey(f: Feed, i: nat)
    requires FeedOk(f) && i < |f.keyframes|
    ensures 1 <= f.keyframes[i] <= |f.log| && IsKey(f.log[f.keyframes[i] - 1])
  {
    KeyNumbersAre(f.log);
    var ks := KeyNumbers(f.log);
    assert f.keyframes[i] in ks;
  }

  /** The keyframe is old enough, judged by the packet its slot holds. */
  predicate OldEnough(f: Feed, k: nat) {
    var p := InSlot(f.log, RING, k);
    p.Some? && f.latestVideoTimestamp - p.value.timestamp >= 2000
  }

  /** Where the newest sufficiently old keyframe sits among the first `n`, or -1. */
  function StartAt(f: Feed, n: nat): (i: int)
    requires n <= |f.keyframes|
    ensures -1 <= i < n
    ensures i >= 0 ==> OldEnough(f, f.keyframes[i])
    ensures forall j :: i < j < n ==> !OldEnough(f, f.keyframes[j])
  {
    if n == 0 then -1 else if OldEnough(f, f.keyframes[n - 1]) then n - 1 else StartAt(f, n - 1)
  }

  /** The chosen packet is a keyframe. What a new reader is given first is that packet exactly
      while the ring holds it, and then it is the newest remembered keyframe that is at least
      two seconds older than the latest video packet. */
  lemma JoinPoint(f: Feed)
    requires FeedOk(f) && StartAt(f, |f.keyframes|) >= 0
    ensures var i := StartAt(f, |f.keyframes|);
            var k := f.keyframes[i];
            && 1 <= k <= |f.log| && IsKey(f.log[k - 1]) && f.latestVideoTimestamp == LastVideoTimestamp(f.log)
            && (NumbersRead(f, k, 1) == [k] <==> |f.log| - k < RING)
            && (|f.log| - k < RING ==>
                  && f.latestVideoTimestamp - f.log[k - 1].timestamp >= 2000
                  && forall j :: i < j < |f.keyframes| ==>
                       f.latestVideoTimestamp - f.log[f.keyframes[j] - 1].timestamp < 2000)
  {
    KnowsTimestamp(f);
    hide FromLog, Newest;
    var i := StartAt(f, |f.keyframes|);
    var k := f.keyframes[i];
    RememberedIsKey(f, i);
    HeldIff(|f.log|, RING, k);
    assert NumbersRead(f, k, 1)[0] == Newest(|f.log|, RING, k + 0);
    if |f.log| - k < RING {
      forall j | i <= j < |f.keyframes|
        ensures InSlot(f.log, RING, f.keyframes[j]) == Some(f.log[f.keyframes[j] - 1])
      {
        HeldIff(|f.log|, RING, f.keyframes[j]);
      }
      forall j | i < j < |f.keyframes|
        ensures f.latestVideoTimestamp - f.log[f.keyframes[j] - 1].timestamp < 2000
      {
        assert !OldEnough(f, f.keyframes[j]);
      }
    }
  }

  lemma KnowsTimestamp(f: Feed)
    requires FeedOk(f)
    ensures f.latestVideoTimestamp == LastVideoTimestamp(f.log)
  {
  }

  /** A new video reader has no keyframe to start from exactly when none that is remembered is
      old enough. */
  lemma NoStartIff(f: Feed)
    ensures StartAt(f, |f.keyframes|) < 0 <==> forall i :: 0 <= i < |f.keyframes| ==> !OldEnough(f, f.keyframes[i])
  {
  }

  /** A witness: a video source that is ready and has just had its first keyframe. */
  lemma NoStartYet(metadata: Packet)
    ensures var header := Packet(0, true, true, true, true, []);
            var key := Packet(0, true, true, true, false, []);
            var f := Published(Published(Feed(metadata, true, false, [], [], 0, None, None, false), header), key);
            f.ready && f.keyframes == [2] && StartAt(f, 1) == -1
  {
    var header, key := Packet(0, true, true, true, true, []), Packet(0, true, true, true, false, []);
    var f := Published(Published(Feed(metadata, true, false, [], [], 0, None, None, false), header), key);
    assert f.keyframes == [2] && f.log == [header, key];
    HeldIff(2, RING, 2);
    assert InSlot(f.log, RING, 2) == Some(key);
    assert StartAt(f, 0) == -1;
  }

  function Headers(f: Feed): seq<Option<Packet>> {
    [Some(f.metadata)] + (if f.hasVideo then [f.videoHeader] else []) + (if f.hasAudio then [f.audioHeader] else [])
  }

  /** A new reader of a ready source is given the metadata and then the last sequence headers that
      were published, video before audio, and none of them is missing. */
  lemma HeadersFromLog(f: Feed)
    requires FeedOk(f) && f.ready
    ensures Headers(f) == [Some(f.metadata)] + (if f.hasVideo then [LastHeader(f.log, true)] else [])
                          + (if f.hasAudio then [LastHeader(f.log, false)] else [])
    ensures forall i :: 0 <= i < |Headers(f)| ==> Headers(f)[i].Some?
  {
  }

  /** How many packets one read takes from `start`. */
  function Take(f: Feed, start: nat, max: nat): nat
    requires start >= 1
  {
    if start > |f.log| then 0 else Min(max, |f.log| + 1 - start)
  }

  /** The numbers of the packets a read of `k` from `start` returns. */
  function NumbersRead(f: Feed, start: nat, k: nat): seq<int> {
    seq(k, i requires 0 <= i < k => Newest(|f.log|, RING, start + i))
  }

  predicate InLog(log: seq<Packet>, numbers: seq<int>) {
    forall i :: 0 <= i < |numbers| ==> 1 <= numbers[i] <= |log|
  }

  /** The packets with the given numbers. */
  function PacketsOf(log: seq<Packet>, numbers: seq<int>): seq<Packet>
    requires InLog(log, numbers)
  {
    seq(|numbers|, i requires 0 <= i < |numbers| => log[numbers[i] - 1])
  }

  lemma NumbersInLog(f: Feed, start: nat, k: nat)
    requires 1 <= start && start + k <= |f.log| + 1
    ensures InLog(f.log, NumbersRead(f, start, k))
  {
    forall i | 0 <= i < k
      ensures 1 <= NumbersRead(f, start, k)[i] <= |f.log|
    {
      HeldIff(|f.log|, RING, start + i);
    }
  }

  /** A read returns exactly the packets asked for if and only if the first of them is still
      in the ring. */
  lemma ReadExactIff(f: Feed, start: nat, k: nat)
    requires 1 <= start && 0 < k && start + k <= |f.log| + 1
    ensures NumbersRead(f, start, k) == seq(k, i requires 0 <= i < k => start + i) <==> |f.log| - start < RING
  {
    var got, want := NumbersRead(f, start, k), seq(k, i requires 0 <= i < k => start + i);
    forall i | 0 <= i < k
      ensures got[i] == want[i] <==> |f.log| - (start + i) < RING
    {
      HeldIff(|f.log|, RING, start + i);
    }
    if |f.log| - start < RING {
      assert got == want;
    } else {
      assert got[0] != want[0];
    }
  }

  /** So a read inside the ring is a contiguous piece of the log. */
  lemma ReadIsSegment(f: Feed, start: nat, k: nat)
    requires 1 <= start && start + k <= |f.log| + 1 && |f.log| - start < RING
    requires InLog(f.log, NumbersRead(f, start, k))
    ensures PacketsOf(f.log, NumbersRead(f, start, k)) == f.log[start - 1..start - 1 + k]
  {
    if k > 0 {
      ReadExactIff(f, start, k);
    }
  }

  class RtmpMediaSource {
    const metadata: Packet
    const hasVideo: bool
    const hasAudio: bool
    const av: SequencePktBuf
    var keyframes: seq<nat>
    var latestFrameIndex: nat
    var latestVideoTimestamp: int
    var videoHeader: Option<Packet>
    var audioHeader: Option<Packet>
    var ready: bool

    ghost predicate Valid()
      reads this, av, av.slots
    {
      && av.Valid() && av.slots.Length == RING && latestFrameIndex == |av.log|
      && FeedOk(State())
    }

    ghost function State(): Feed
      reads this, av
    {
      Feed(metadata, hasVideo, hasAudio, av.log, keyframes, latestVideoTimestamp, videoHeader, audioHeader, ready)
    }

    constructor (metadata: Packet, hasVideo: bool, hasAudio: bool)
      ensures Valid() && fresh(av) && fresh(av.slots)
      ensures State() == Feed(metadata, hasVideo, hasAudio, [], [], 0, None, None, false)
    {
      this.metadata, this.hasVideo, this.hasAudio := metadata, hasVideo, hasAudio;
      av := new SequencePktBuf(RING);
      keyframes, latestFrameIndex, latestVideoTimestamp := [], 0, 0;
      videoHeader, audioHeader, ready := None, None, false;
    }

    /** Publish a packet: store it, note keyframes and sequence headers, and say whether the
        readers are to be woken. */
    method OnPacket(p: Packet) returns (ok: bool, wake: bool)
      requires Valid()
      modifies this, av, av.slots
      ensures Valid() && State() == Published(old(State()), p)
      ensures ok == p.decodes && wake == Wakes(p, |av.log|)
    {
      hide FeedOk, InSlot, Newest;
      PublishedOk(State(), p);
      latestFrameIndex := av.AddPkt(p);
      if !p.decodes {
        return false, false;
      }
      if p.video && p.keyFrame && !p.seqHeader {
        if |keyframes| < KEYFRAMES {
          keyframes := keyframes + [latestFrameIndex];
        } else {
          keyframes := keyframes[1..] + [latestFrameIndex];
        }
      } else if p.video && p.seqHeader {
        videoHeader := Some(p);
      } else if !p.video && p.seqHeader {
        audioHeader := Some(p);
      }
      if !ready {
        ready := (hasAudio ==> audioHeader.Some?) && (hasVideo ==> videoHeader.Some?);
      }
      if p.video {
        latestVideoTimestamp := p.timestamp;
      }
      return true, latestFrameIndex >= 300 || latestFrameIndex % 5 == 0;
    }

    /** Read up to `max` packets from `start`. */
    method ReadFrom(start: nat, max: nat) returns (pkts: seq<Packet>, next: nat)
      requires Valid() && 1 <= start
      ensures next == start + Take(State(), start, max)
      ensures InLog(State().log, NumbersRead(State(), start, next - start))
      ensures pkts == PacketsOf(State().log, NumbersRead(State(), start, next - start))
    {
      pkts := [];
      next := start;
      var count := 0;
      while next <= latestFrameIndex && count < max
        invariant start <= next && next - start == count == |pkts| <= max
        invariant next > start ==> next <= latestFrameIndex + 1
        invariant forall i :: 0 <= i < count ==> InSlot(av.log, RING, start + i) == Some(pkts[i])
        decreases latestFrameIndex + 1 - next
      {
        HeldIff(|av.log|, RING, next);
        var t := av.GetPkt(next);
        if t.Some? {
          pkts := pkts + [t.value];
          count := count + 1;
        }
        next := next + 1;
      }
      if count > 0 {
        NumbersInLog(State(), start, count);
      }
    }

    /** The search for the keyframe a new reader starts from. */
    method FindStart() returns (i: int)
      requires Valid()
      ensures i == StartAt(State(), |keyframes|)
    {
      i := |keyframes| - 1;
      while i >= 0
        invariant -1 <= i < |keyframes|
        invariant StartAt(State(), |keyframes|) == StartAt(State(), i + 1)
      {
        HeldIff(|av.log|, RING, keyframes[i]);
        var t := av.GetPkt(keyframes[i]);
        if t.Some? {
          if latestVideoTimestamp - t.value.timestamp >= 2000 {
            return;
          }
          i := i - 1;
        } else {
          return;
        }
      }
    }

    /** A read of a reader that has got as far as `last`, or of a new one (-1): what it is
        given, and where it will go on. `found` is false when a new video reader finds no
        keyframe to start from, for which the program has no defined behaviour. */
    method GetPkts(last: int, max: nat)
      returns (found: bool, headers: seq<Option<Packet>>, media: seq<Packet>, next: int)
      requires Valid() && (last == -1 || last >= 1)
      ensures Got(State(), last, max, found, headers, media, next)
    {
      headers, media, next, found := [], [], last, true;
      if last == -1 {
        headers := [Some(metadata)];
        if hasVideo {
          headers := headers + [videoHeader];
        }
        if hasAudio {
          headers := headers + [audioHeader];
        }
        if hasVideo {
          var i := FindStart();
          if i < 0 {
            found := false;
            return;
          }
          media, next := ReadFrom(keyframes[i], max);
        }
      } else {
        media, next := ReadFrom(last, max);
      }
    }
  }

  /** The media a read from `start` returns. */
  ghost predicate MediaFrom(f: Feed, start: nat, max: nat, media: seq<Packet>, next: int) {
    && 1 <= start && next == start + Take(f, start, max)
    && InLog(f.log, NumbersRead(f, start, next - start))
    && media == PacketsOf(f.log, NumbersRead(f, start, next - start))
  }

  ghost predicate Got(f: Feed, last: int, max: nat, found: bool, headers: seq<Option<Packet>>, media: seq<Packet>,
                      next: int)
  {
    if last != -1 then last >= 1 && found && headers == [] && MediaFrom(f, last, max, media, next)
    else
      && headers == Headers(f)
      && (!f.hasVideo ==> found && media == [] && next == -1)
      && (f.hasVideo ==> found == (StartAt(f, |f.keyframes|) >= 0))
      && (f.hasVideo && found ==> MediaFrom(f, f.keyframes[StartAt(f, |f.keyframes|)], max, media, next))
  }

  class RtmpMediaSink {
    var lastSendPktIndex: int
    var sent: seq<Packet>

    constructor ()
      ensures lastSendPktIndex == -1 && sent == []
    {
      lastSendPktIndex, sent := -1, [];
    }

    /** What an activation posts: read a batch and send it on. The sending stops at the first
        message that is not accepted; `room` is how many are. */
    method Active(source: RtmpMediaSource, room: nat)
      returns (found: bool, headers: seq<Option<Packet>>, media: seq<Packet>)
      requires source.Valid() && (lastSendPktIndex == -1 || lastSendPktIndex >= 1)
      modifies this
      ensures sent == old(sent) + Accepted(|headers|, media, room)
      ensures if source.ready then
                Got(source.State(), old(lastSendPktIndex), BATCH, found, headers, media, lastSendPktIndex)
              else found && headers == [] && media == [] && lastSendPktIndex == old(lastSendPktIndex)
    {
      found, headers, media := true, [], [];
      if !source.ready {
        return;
      }
      found, headers, media, lastSendPktIndex := source.GetPkts(lastSendPktIndex, BATCH);
      SendOn(|headers|, media, room);
    }

    /** The loop over a batch of `n` headers and then `media`. */
    method SendOn(n: nat, media: seq<Packet>, room: nat)
      modifies this`sent
      ensures sent == old(sent) + Accepted(n, media, room)
    {
      var i := 0;
      while i < n + |media| && i < room
        invariant 0 <= i <= n + |media|
        invariant i <= room
        invariant sent == old(sent) + media[..Beyond(i, n)]
      {
        if i >= n {
          assert media[..i - n] + [media[i - n]] == media[..i + 1 - n];
          sent := sent + [media[i - n]];
        }
        i := i + 1;
      }
    }
  }

  function Beyond(i: nat, n: nat): nat {
    if i < n then 0 else i - n
  }

  /** Of the messages sent behind `n` headers, the ones that are among the first `room`. */
  function Accepted(n: nat, media: seq<Packet>, room: nat): seq<Packet> {
    media[..Beyond(Min(room, n + |media|), n)]
  }

  // ------------------------------------------------------------------
  // A reader over a whole run

  /** A joined reader: where it started, where it goes on, and the numbers of the packets it
      has been given. */
  datatype Reader = Reader(start: nat, next: nat, numbers: seq<int>)

  /** The source, the reader and the activations posted to it but not yet run. */
  datatype World = World(feed: Feed, reader: Reader, pending: nat)

  datatype Event = Publish(p: Packet) | Activate

  function Unread(w: World): int {
    |w.feed.log| + 1 - w.reader.next
  }

  function Less(n: nat): nat {
    if n == 0 then 0 else n - 1
  }

  /** What an activation of a joined reader does. */
  function Activated(w: World): World
    requires w.reader.next >= 1
  {
    var f, r := w.feed, w.reader;
    if !f.ready then w.(pending := Less(w.pending))
    else
      var k := Take(f, r.next, BATCH);
      w.(pending := Less(w.pending), reader := r.(next := r.next + k, numbers := r.numbers + NumbersRead(f, r.next, k)))
  }

  function After(w: World, e: Event): World
    requires w.reader.next >= 1
  {
    match e
    case Publish(p) =>
      var g := Published(w.feed, p);
      w.(feed := g, pending := w.pending + if Wakes(p, |g.log|) then 1 else 0)
    case Activate => Activated(w)
  }

  predicate Possible(w: World, e: Event) {
    e.Activate? ==> w.pending > 0
  }

  function End(w: World, events: seq<Event>): World
    requires w.reader.next >= 1
    decreases |events|
  {
    if events == [] then w else End(After(w, events[0]), events[1..])
  }

  predicate WorldOk(w: World) {
    && w.feed.ready && FeedOk(w.feed)
    && 1 <= w.reader.start <= w.reader.next <= |w.feed.log| + 1
    && |w.reader.numbers| == w.reader.next - w.reader.start
    && InLog(w.feed.log, w.reader.numbers)
  }

  lemma EventOk(w: World, e: Event)
    requires WorldOk(w)
    ensures WorldOk(After(w, e))
  {
    match e
    case Publish(p) =>
      hide FeedOk;
      PublishedOk(w.feed, p);
    case Activate =>
      var k := Take(w.feed, w.reader.next, BATCH);
      NumbersInLog(w.feed, w.reader.next, k);
  }

  lemma {:induction false} EndOk(w: World, events: seq<Event>)
    requires WorldOk(w)
    ensures WorldOk(End(w, events)) && End(w, events).reader.start == w.reader.start
    decreases |events|
  {
    hide FeedOk, InLog;
    if events != [] {
      EventOk(w, events[0]);
      EndOk(After(w, events[0]), events[1..]);
    }
  }

  /** The reader has been given every packet from its start on once and in order. */
  predicate Gapless(w: World) {
    forall i :: 0 <= i < |w.reader.numbers| ==> w.reader.numbers[i] == w.reader.start + i
  }

  /** Every activation of the run finds at most a ring's worth of packets unread. */
  predicate Served(w: World, events: seq<Event>)
    requires w.reader.next >= 1
    decreases |events|
  {
    events == [] ||
    ((events[0].Activate? ==> Unread(w) <= RING) && Served(After(w, events[0]), events[1..]))
  }

  /** An activation keeps the reader gapless exactly when its position is inside the ring. */
  lemma ActivationGaplessIff(w: World)
    requires WorldOk(w) && Gapless(w)
    ensures Gapless(Activated(w)) <==> Unread(w) <= RING
  {
    var f, r := w.feed, w.reader;
    var k := Take(f, r.next, BATCH);
    var got, n := NumbersRead(f, r.next, k), |r.numbers|;
    if k > 0 {
      ReadExactIff(f, r.next, k);
      var want := seq(k, i requires 0 <= i < k => r.next + i);
      var all := Activated(w).reader.numbers;
      assert all == r.numbers + got;
      if Gapless(Activated(w)) {
        forall i | 0 <= i < k ensures got[i] == want[i] {
          assert all[n + i] == got[i];
        }
        assert got == want;
      }
      if Unread(w) <= RING {
        assert got == want;
      }
    }
  }

  /** A gap or a repetition stays. */
  lemma {:induction false} GapStays(w: World, events: seq<Event>)
    requires WorldOk(w) && !Gapless(w)
    ensures !Gapless(End(w, events))
    decreases |events|
  {
    if events != [] {
      EventOk(w, events[0]);
      var bad :| 0 <= bad < |w.reader.numbers| && w.reader.numbers[bad] != w.reader.start + bad;
      var w' := After(w, events[0]);
      assert w'.reader.numbers[bad] == w.reader.numbers[bad];
      GapStays(w', events[1..]);
    }
  }

  /** Over every run, whatever is delayed and whatever fails to decode: the reader has been
      given a gap-free, duplicate-free piece of the unbounded log if and only if no activation
      found more than a ring's worth unread. */
  lemma {:induction false} NeverOvertaken(w: World, events: seq<Event>)
    requires WorldOk(w) && Gapless(w)
    ensures Gapless(End(w, events)) <==> Served(w, events)
    decreases |events|
  {
    hide FeedOk, InLog;
    if events != [] {
      EventOk(w, events[0]);
      var w' := After(w, events[0]);
      if events[0].Activate? {
        ActivationGaplessIff(w);
      }
      if Gapless(w') {
        NeverOvertaken(w', events[1..]);
      } else {
        GapStays(w', events[1..]);
      }
    }
  }

  /** So what the reader has been given is a piece of the log. */
  lemma GaplessIsSegment(w: World)
    requires WorldOk(w) && Gapless(w)
    ensures PacketsOf(w.feed.log, w.reader.numbers) == w.feed.log[w.reader.start - 1..w.reader.next - 1]
  {
  }

  // ------------------------------------------------------------------
  // Readers that keep up

  /** At most a batch of packets is published between two activations, whether they decode or
      not; `gap` have been since the last one. */
  predicate Steady(w: World, events: seq<Event>, gap: nat)
    requires w.reader.next >= 1
    decreases |events|
  {
    events == [] ||
    (&& Possible(w, events[0])
     && (events[0].Publish? ==> gap < BATCH)
     && Steady(After(w, events[0]), events[1..], if events[0].Publish? then gap + 1 else 0))
  }

  /** A steady reader is never further behind than a ring, for ever. */
  lemma {:induction false} SteadyIsServed(w: World, events: seq<Event>, gap: nat)
    requires WorldOk(w) && Steady(w, events, gap)
    requires gap <= BATCH && Unread(w) <= RING - BATCH + gap
    ensures Served(w, events) && Unread(End(w, events)) <= RING
    decreases |events|
  {
    hide FeedOk, InLog, NumbersRead;
    if events != [] {
      EventOk(w, events[0]);
      SteadyIsServed(After(w, events[0]), events[1..], if events[0].Publish? then gap + 1 else 0);
    }
  }

  /** Every packet decodes, and every activation runs before the next packet is published. */
  predicate Prompt(w: World, events: seq<Event>)
    requires w.reader.next >= 1
    decreases |events|
  {
    events == [] ||
    (&& Possible(w, events[0])
     && (events[0].Publish? ==> w.pending == 0 && events[0].p.decodes)
     && Prompt(After(w, events[0]), events[1..]))
  }

  /** The source's own rule for waking readers makes a prompt run steady. */
  lemma {:induction false} PromptIsSteady(w: World, events: seq<Event>, gap: nat)
    requires WorldOk(w) && Prompt(w, events)
    requires gap <= 5 && (w.pending == 0 ==> gap <= |w.feed.log| % 5) && w.pending <= 1
    ensures Steady(w, events, gap)
    decreases |events|
  {
    if events != [] {
      EventOk(w, events[0]);
      PromptIsSteady(After(w, events[0]), events[1..], if events[0].Publish? then gap + 1 else 0);
    }
  }

  /** The keyframe a new video reader starts from. */
  function JoinNumber(f: Feed): nat
    requires StartAt(f, |f.keyframes|) >= 0
  {
    f.keyframes[StartAt(f, |f.keyframes|)]
  }

  /** The world right after the first read of a video reader. */
  function Joined(f: Feed): World
    requires FeedOk(f) && StartAt(f, |f.keyframes|) >= 0
  {
    var k := JoinNumber(f);
    var n := Take(f, k, BATCH);
    World(f, Reader(k, k + n, NumbersRead(f, k, n)), 0)
  }

  lemma JoinedOk(f: Feed)
    requires FeedOk(f) && f.ready && StartAt(f, |f.keyframes|) >= 0
    ensures WorldOk(Joined(f))
    ensures |f.log| - JoinNumber(f) < RING ==> Gapless(Joined(f)) && Unread(Joined(f)) <= RING - BATCH
  {
    var k := JoinNumber(f);
    var n := Take(f, k, BATCH);
    NumbersInLog(f, k, n);
    if |f.log| - k < RING {
      ReadExactIff(f, k, n);
    }
  }

  predicate KeyAt(log: seq<Packet>, n: int) {
    1 <= n <= |log| && IsKey(log[n - 1])
  }

  /** The log only grows. */
  lemma {:induction false} EndLog(w: World, events: seq<Event>)
    requires WorldOk(w)
    ensures w.feed.log <= End(w, events).feed.log
    decreases |events|
  {
    hide FeedOk, InLog;
    if events != [] {
      EventOk(w, events[0]);
      EndLog(After(w, events[0]), events[1..]);
    }
  }

  lemma JoinsAtKey(f: Feed, events: seq<Event>)
    requires FeedOk(f) && f.ready && StartAt(f, |f.keyframes|) >= 0
    ensures Joined(f).reader.next >= 1 && KeyAt(End(Joined(f), events).feed.log, JoinNumber(f))
  {
    JoinedOk(f);
    RememberedIsKey(f, StartAt(f, |f.keyframes|));
    EndLog(Joined(f), events);
  }

  /** A video reader that joins inside the ring and is then activated at least once for every
      ten packets, decoded or not, is never overtaken: for ever after, what it has been given
      is a gap-free, duplicate-free piece of the unbounded log that begins with its keyframe. */
  lemma SteadyReaderNeverOvertaken(f: Feed, events: seq<Event>)
    requires FeedOk(f) && f.ready && StartAt(f, |f.keyframes|) >= 0
    requires |f.log| - JoinNumber(f) < RING
    requires Steady(Joined(f), events, 0)
    ensures var w := End(Joined(f), events);
            && WorldOk(w) && w.reader.start == JoinNumber(f) && Unread(w) <= RING
            && KeyAt(w.feed.log, w.reader.start)
            && PacketsOf(w.feed.log, w.reader.numbers) == w.feed.log[w.reader.start - 1..w.reader.next - 1]
  {
    hide StartAt, FeedOk, NumbersRead, Take;
    var w := Joined(f);
    JoinedOk(f);
    EndOk(w, events);
    JoinsAtKey(f, events);
    SteadyIsServed(w, events, 0);
    NeverOvertaken(w, events);
    GaplessIsSegment(End(w, events));
  }

  /** In particular when the source's own wake-ups are carried out promptly. */
  lemma PromptReaderNeverOvertaken(f: Feed, events: seq<Event>)
    requires FeedOk(f) && f.ready && StartAt(f, |f.keyframes|) >= 0
    requires |f.log| - JoinNumber(f) < RING
    requires Prompt(Joined(f), events)
    ensures var w := End(Joined(f), events);
            && WorldOk(w) && w.reader.start == JoinNumber(f) && Unread(w) <= RING
            && KeyAt(w.feed.log, w.reader.start)
            && PacketsOf(w.feed.log, w.reader.numbers) == w.feed.log[w.reader.start - 1..w.reader.next - 1]
  {
    hide StartAt, FeedOk, NumbersRead, Take;
    JoinedOk(f);
    PromptIsSteady(Joined(f), events, 0);
    SteadyReaderNeverOvertaken(f, events);
  }

  // ------------------------------------------------------------------
  // The two objects over a whole run

  lemma PacketsOfMore(log: seq<Packet>, p: Packet, numbers: seq<int>)
    requires InLog(log, numbers)
    ensures InLog(log + [p], numbers) && PacketsOf(log + [p], numbers) == PacketsOf(log, numbers)
  {
  }

  lemma PacketsOfAppend(log: seq<Packet>, a: seq<int>, b: seq<int>)
    requires InLog(log, a) && InLog(log, b)
    ensures InLog(log, a + b) && PacketsOf(log, a + b) == PacketsOf(log, a) + PacketsOf(log, b)
  {
  }

  /** The objects show the world. */
  ghost predicate Shows(source: RtmpMediaSource, sink: RtmpMediaSink, w: World)
    reads source, source.av, source.av.slots, sink
  {
    && source.Valid() && WorldOk(w) && w.feed.hasVideo
    && source.State() == w.feed && sink.lastSendPktIndex == w.reader.next
    && sink.sent == PacketsOf(w.feed.log, w.reader.numbers)
  }

  method Join(source: RtmpMediaSource, sink: RtmpMediaSink)
    requires source.Valid() && source.hasVideo && source.ready
    requires StartAt(source.State(), |source.keyframes|) >= 0
    requires sink.lastSendPktIndex == -1 && sink.sent == []
    modifies sink
    ensures Shows(source, sink, Joined(source.State()))
  {
    hide StartAt, FeedOk, Take, NumbersRead;
    JoinedOk(source.State());
    TakeAtMost(source.State(), JoinNumber(source.State()));
    var found, headers, media := sink.Active(source, BATCH + 3);
    assert |headers| <= 3;
    AllAccepted(|headers|, media, BATCH + 3);
    assert [] + media == media;
  }

  lemma TakeAtMost(f: Feed, start: nat)
    requires start >= 1
    ensures 0 <= Take(f, start, BATCH) <= BATCH && |NumbersRead(f, start, Take(f, start, BATCH))| <= BATCH
  {
  }

  lemma AllAccepted(n: nat, media: seq<Packet>, room: nat)
    requires n + |media| <= room
    ensures Accepted(n, media, room) == media
  {
  }

  /** One event, carried out by the objects. */
  method Carry(source: RtmpMediaSource, sink: RtmpMediaSink, e: Event, ghost w: World)
    requires Shows(source, sink, w)
    modifies source, source.av, source.av.slots, sink
    ensures Shows(source, sink, After(w, e))
  {
    hide StartAt, FeedOk, Take, NumbersRead, InSlot, Published;
    EventOk(w, e);
    match e
    case Publish(p) =>
      ghost var log := w.feed.log;
      PublishedLog(w.feed, p);
      PacketsOfMore(log, p, w.reader.numbers);
      var _, _ := source.OnPacket(p);
    case Activate =>
      TakeAtMost(w.feed, w.reader.next);
      var found, headers, media := sink.Active(source, BATCH + 3);
      AllAccepted(0, media, BATCH + 3);
      ghost var k := Take(w.feed, w.reader.next, BATCH);
      PacketsOfAppend(w.feed.log, w.reader.numbers, NumbersRead(w.feed, w.reader.next, k));
  }

  lemma PublishedLog(f: Feed, p: Packet)
    ensures Published(f, p).log == f.log + [p] && Published(f, p).hasVideo == f.hasVideo
  {
  }

  /** The packets of the log from number `first` up to, not including, number `next`. */
  predicate IsPiece(s: seq<Packet>, log: seq<Packet>, first: int, next: int) {
    1 <= first <= next <= |log| + 1 && s == log[first - 1..next - 1]
  }

  /** A source and a new reader, driven through any run: the objects end as `End` says, and if
      the reader joined inside the ring and the run is steady, what was sent on is exactly the
      piece of the log from its keyframe to where it goes on. */
  method Follow(source: RtmpMediaSource, sink: RtmpMediaSink, events: seq<Event>)
    requires source.Valid() && source.hasVideo && source.ready
    requires StartAt(source.State(), |source.keyframes|) >= 0
    requires sink.lastSendPktIndex == -1 && sink.sent == []
    modifies source, source.av, source.av.slots, sink
    ensures Shows(source, sink, End(Joined(old(source.State())), events))
    ensures var f := old(source.State());
            |f.log| - JoinNumber(f) < RING && Steady(Joined(f), events, 0) ==>
              IsPiece(sink.sent, source.State().log, JoinNumber(f), sink.lastSendPktIndex)
  {
    hide StartAt, FeedOk, Take, NumbersRead, InSlot, After, WorldOk;
    ghost var f := source.State();
    ghost var w := Joined(f);
    Join(source, sink);
    NextPositive(w);
    var i := 0;
    while i < |events|
      invariant 0 <= i <= |events|
      invariant Shows(source, sink, w) && w.reader.next >= 1
      invariant End(w, events[i..]) == End(Joined(f), events)
      modifies source, source.av, source.av.slots, sink
    {
      assert events[i..][0] == events[i] && events[i..][1..] == events[i + 1..];
      Carry(source, sink, events[i], w);
      NextPositive(After(w, events[i]));
      w := After(w, events[i]);
      i := i + 1;
    }
    assert events[i..] == [];
    if |f.log| - JoinNumber(f) < RING && Steady(Joined(f), events, 0) {
      SteadyReaderNeverOvertaken(f, events);
      NextPositive(w);
    }
  }

  lemma NextPositive(w: World)
    requires WorldOk(w)
    ensures 1 <= w.reader.start <= w.reader.next <= |w.feed.log| + 1
  {
  }

  // ------------------------------------------------------------------
  // When promptness is not enough

  /** `m` packets whose tag headers cannot be decoded: stored, but nobody is woken. */
  function Junk(m: nat): seq<Packet> {
    seq(m, _ => Packet(0, true, false, false, false, []))
  }

  /** After `m` such packets a reader with `u` packets unread is given what it asks for if
      and only if the two together fit the ring: enough junk overtakes every reader. */
  lemma JunkOvertakesIff(f: Feed, next: nat, m: nat)
    requires 1 <= next <= |f.log| && m >= 0
    ensures var g := PublishAll(f, Junk(m));
            var k := Take(g, next, BATCH);
            && k > 0 && next + k <= |g.log| + 1
            && (NumbersRead(g, next, k) == seq(k, i requires 0 <= i < k => next + i)
                <==> (|f.log| + 1 - next) + m <= RING)
  {
    PublishAllLog(f, Junk(m));
    var g := PublishAll(f, Junk(m));
    ReadExactIff(g, next, Take(g, next, BATCH));
  }
}
