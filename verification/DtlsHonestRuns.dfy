/** Every run of the session with an honest client, over a network that loses, repeats and
    reorders datagrams and packs records into them as it likes. */
module DtlsHonestRuns {
  import opened Bytes
  import opened TlsPrf
  import opened DtlsHandshake

  /** The client's choices: its hellos, the encrypted premaster secret and what it really
      holds, and the content of its Finished message. */
  datatype Client = Client(
    version: seq<byte>,
    helloRandom: Digest,
    random: Digest,
    cookie: seq<byte>,
    helloBody: seq<byte>,
    cookieHelloBody: seq<byte>,
    encrypted: seq<byte>,
    pre: seq<byte>,
    keyExchangeBody: seq<byte>,
    finishedContent: seq<byte>)

  /** The five records of the client, in the order it sends them. */
  datatype Flight = FirstHello | SecondHello | Exchange | Switch | Finish

  function HelloRecord(c: Client): Record {
    Plain(0, ClientHello(c.version, c.helloRandom, []), c.helloBody)
  }

  function CookieHelloRecord(c: Client): Record {
    Plain(1, ClientHello(c.version, c.random, c.cookie), c.cookieHelloBody)
  }

  function ExchangeRecord(c: Client): Record {
    Plain(2, ClientKeyExchange(c.encrypted), c.keyExchangeBody)
  }

  function SwitchRecord(): Record {
    Plain(3, ChangeCipherSpec, [])
  }

  /** What the client signs in its Finished message: the messages of section 4.2.6 of
      RFC 6347, from the hello with the cookie on. */
  function Messages(v: Server, c: Client): seq<seq<byte>> {
    [c.cookieHelloBody, v.encode(ServerHello, 1), v.encode(Certificate, 2), v.encode(ServerHelloDone, 3),
     c.keyExchangeBody]
  }

  function Flatten(ms: seq<seq<byte>>): seq<byte> {
    if ms == [] then [] else Flatten(ms[..|ms| - 1]) + ms[|ms| - 1]
  }

  // What the client derives for itself, from the standards. `v.random` is the random value of
  // the server's hello.

  /** Section 8.1 of RFC 5246: client random, then server random. */
  function ClientMaster(v: Server, c: Client): seq<byte> {
    PHash(v.hmac, c.pre, Ascii("master secret") + (c.random + v.random), 48)
  }

  /** Section 6.3 of RFC 5246: the key block, with server random, then client random. */
  function SuiteKeys(v: Server, c: Client): seq<byte> {
    PHash(v.hmac, ClientMaster(v, c), Ascii("key expansion") + (v.random + c.random), 104)
  }

  /** Section 4.2 of RFC 5764: client key, server key, client salt, server salt. The server
      receives with the client's key and salt and sends with its own. */
  function ClientSrtp(v: Server, c: Client): SrtpKeys {
    var block := PHash(v.hmac, ClientMaster(v, c), Ascii("EXTRACTOR-dtls_srtp") + (c.random + v.random), 60);
    SrtpKeys(block[0..16] + block[32..46], block[16..32] + block[46..60])
  }

  /** Section 7.4.9 of RFC 5246: the verify data of either side over the messages so far. */
  function ClientFinished(v: Server, c: Client, transcript: seq<byte>): seq<byte> {
    PHash(v.hmac, ClientMaster(v, c), Ascii("client finished") + v.sha(transcript), 12)
  }

  function ServerFinished(v: Server, c: Client, transcript: seq<byte>): seq<byte> {
    PHash(v.hmac, ClientMaster(v, c), Ascii("server finished") + v.sha(transcript), 12)
  }

  function FinishRecord(v: Server, c: Client): Record {
    Sealed(c.finishedContent, ClientFinished(v, c, Flatten(Messages(v, c))))
  }

  function RecordOf(v: Server, c: Client, f: Flight): Record {
    match f
    case FirstHello => HelloRecord(c)
    case SecondHello => CookieHelloRecord(c)
    case Exchange => ExchangeRecord(c)
    case Switch => SwitchRecord()
    case Finish => FinishRecord(v, c)
  }

  /** The client answers the cookie, encrypts its premaster secret under the server's key and
      puts its version in front of it. */
  predicate Honest(v: Server, c: Client) {
    && c.cookie != []
    && v.rsa(c.encrypted) == Some(c.pre)
    && |c.pre| >= 48 && c.pre[..2] == c.version
  }

  /** The hash tells the transcripts before and after the client's Finished message apart. */
  predicate NoCollision(v: Server, c: Client) {
    var t := Flatten(Messages(v, c));
    ClientFinished(v, c, t) != ClientFinished(v, c, t + c.finishedContent)
  }

  /** A record can arrive once the client has had a reason to send it: the second hello
      answers the first server message, the rest answers all four. The Finished record
      arrives after the key exchange has been processed. */
  predicate Sendable(s: State, f: Flight) {
    match f
    case FirstHello => true
    case SecondHello => |s.sent| >= 1
    case Exchange => |s.sent| >= 4
    case Switch => |s.sent| >= 4
    case Finish => s.master.Some?
  }

  // ------------------------------------------------------------------
  // The states of an honest run

  /** `queued`: the ChangeCipherSpec record came before the key exchange. `switched`: it has
      been processed. */
  datatype Phase =
    | Fresh
    | Verifying
    | Greeted(queued: bool)
    | Keyed(switched: bool)
    | Complete(switched: bool)

  function FourMessages(v: Server): seq<Sent> {
    [Handshake(0, HelloVerifyRequest, 0, v.encode(HelloVerifyRequest, 0)),
     Handshake(1, ServerHello, 1, v.encode(ServerHello, 1)),
     Handshake(2, Certificate, 2, v.encode(Certificate, 2)),
     Handshake(3, ServerHelloDone, 3, v.encode(ServerHelloDone, 3))]
  }

  function LastFlight(v: Server, c: Client): seq<Sent> {
    [SpecChange(4),
     Finished(0, 4, ServerFinished(v, c, Flatten(Messages(v, c)) + c.finishedContent))]
  }

  function Expected(v: Server, c: Client, p: Phase): State {
    match p
    case Fresh => INITIAL
    case Verifying =>
      INITIAL.(handler := CookieHello, wanted := CookieHello, next := 1, number0 := 1,
               hello := Some(HelloRecord(c).message), sent := FourMessages(v)[..1], handled := [Hello])
    case Greeted(queued) =>
      INITIAL.(handler := KeyExchange, wanted := KeyExchange, next := 2, number0 := 4,
               queue := if queued then [SwitchRecord()] else [],
               seen := {1}, transcript := Flatten(Messages(v, c)[..4]),
               hello := Some(CookieHelloRecord(c).message), cipher := true,
               sent := FourMessages(v), handled := [Hello, CookieHello])
    case Keyed(switched) => ExpectedKeyed(v, c, switched)
    case Complete(switched) =>
      ExpectedKeyed(v, c, switched).(
        handler := Over, number0 := 5, number1 := 1,
        transcript := Flatten(Messages(v, c)) + c.finishedContent,
        sent := FourMessages(v) + LastFlight(v, c),
        finished := [ClientSrtp(v, c)])
  }

  function ExpectedKeyed(v: Server, c: Client, switched: bool): State {
    State(if switched then Over else CipherSpec, if switched then Over else CipherSpec,
          if switched then 4 else 3, 4, 0, [], {1, 16}, Flatten(Messages(v, c)),
          Some(CookieHelloRecord(c).message), true,
          Some(ClientMaster(v, c)), Some(SuiteKeys(v, c)), Some(ClientSrtp(v, c)), switched,
          FourMessages(v),
          if switched then [Hello, CookieHello, KeyExchange, CipherSpec] else [Hello, CookieHello, KeyExchange],
          [])
  }

  function After(p: Phase, f: Flight): Phase {
    match f
    case FirstHello => if p.Fresh? then Verifying else p
    case SecondHello => if p.Verifying? then Greeted(false) else p
    case Exchange => if p.Greeted? then Keyed(p.queued) else p
    case Switch => if p.Greeted? then Greeted(true) else if p.Keyed? then Keyed(true) else p
    case Finish => if p.Keyed? then Complete(p.switched) else p
  }

  // ------------------------------------------------------------------
  // The server derives what the client does

  lemma SameKeys(v: Server, c: Client)
    ensures MasterSecret(v, c.pre, c.random) == ClientMaster(v, c)
    ensures KeyBlock(v.hmac, ClientMaster(v, c), c.random, v.random) == SuiteKeys(v, c)
    ensures Keys(v, ClientMaster(v, c), c.random) == ClientSrtp(v, c)
  {
    hide PHash, Ascii;
    var block := SrtpBlock(v.hmac, ClientMaster(v, c), c.random, v.random);
    assert block[..16] == block[0..16];
  }

  lemma SameFinished(v: Server, c: Client, transcript: seq<byte>)
    ensures ClientVerify(v, ClientMaster(v, c), transcript) == ClientFinished(v, c, transcript)
    ensures ServerVerify(v, ClientMaster(v, c), transcript) == ServerFinished(v, c, transcript)
  {
  }

  // ------------------------------------------------------------------
  // Every step leads from one of these states to another

  /** A record whose number has passed changes nothing. */
  lemma OldRecord(v: Server, s: State, r: Record)
    requires r.Plain? && r.number < s.next && Note(s, r) == s
    ensures Step(v, s, r) == Outcome(s, Accepted)
  {
  }

  lemma FirstHelloStep(v: Server, c: Client, p: Phase)
    ensures Step(v, Expected(v, c, p), HelloRecord(c)) == Outcome(Expected(v, c, After(p, FirstHello)), Accepted)
  {
    hide ClientVerify, ServerVerify, MasterSecret, Keys, KeyBlock, Flatten, Messages, Drain, ClientMaster, SuiteKeys,
      ClientSrtp, ClientFinished, ServerFinished;
    var s := Expected(v, c, p);
    if p.Fresh? {
      var s' := OnHello(v, s, HelloRecord(c));
      assert s' == Expected(v, c, Verifying);
      EmptyQueue(v, s');
    } else {
      OldRecord(v, s, HelloRecord(c));
    }
  }

  lemma SecondHelloStep(v: Server, c: Client, p: Phase)
    requires Honest(v, c) && !p.Fresh?
    ensures Step(v, Expected(v, c, p), CookieHelloRecord(c)) == Outcome(Expected(v, c, After(p, SecondHello)), Accepted)
  {
    hide ClientVerify, ServerVerify, MasterSecret, Keys, KeyBlock, Flatten, Messages, Drain, OnCookieHello,
      ClientMaster, SuiteKeys, ClientSrtp, ClientFinished, ServerFinished;
    var s := Expected(v, c, p);
    var r := CookieHelloRecord(c);
    if p.Verifying? {
      Greeting(v, c);
      EmptyQueue(v, Expected(v, c, Greeted(false)));
    } else {
      OldRecord(v, s, r);
    }
  }

  /** The next message goes out under the next number and enters the transcript. */
  lemma NextMessage(v: Server, s: State, k: Kind)
    requires s.number0 < 4 && s.sent == FourMessages(v)[..s.number0]
    requires k == FourMessages(v)[s.number0].kind
    ensures SendRecorded(v, s, k)
            == s.(number0 := s.number0 + 1, sent := FourMessages(v)[..s.number0 + 1],
                  transcript := s.transcript + v.encode(k, s.number0))
  {
    var all := FourMessages(v);
    assert all[..s.number0] + [all[s.number0]] == all[..s.number0 + 1];
  }

  /** Three messages go out, numbered on from the first, and the transcript is as expected. */
  lemma Greeting(v: Server, c: Client)
    requires Honest(v, c)
    ensures OnCookieHello(v, Note(Expected(v, c, Verifying), CookieHelloRecord(c)), CookieHelloRecord(c))
            == Expected(v, c, Greeted(false))
  {
    hide ClientVerify, ServerVerify, MasterSecret, Keys, KeyBlock, Drain, OnKeyExchange,
      ClientMaster, SuiteKeys, ClientSrtp, ClientFinished, ServerFinished, Flatten, ExpectedKeyed;
    var ms := Messages(v, c);
    FlattenFour(ms);
    var s := Note(Expected(v, c, Verifying), CookieHelloRecord(c));
    assert s.transcript == ms[0];
    hide SendRecorded;
    var s0 := s.(hello := Some(CookieHelloRecord(c).message), cipher := true);
    NextMessage(v, s0, ServerHello);
    var s1 := SendRecorded(v, s0, ServerHello);
    NextMessage(v, s1, Certificate);
    var s2 := SendRecorded(v, s1, Certificate);
    NextMessage(v, s2, ServerHelloDone);
    assert FourMessages(v)[..4] == FourMessages(v);
  }

  lemma FlattenFour(ms: seq<seq<byte>>)
    requires |ms| == 5
    ensures Flatten(ms[..4]) == ms[0] + ms[1] + ms[2] + ms[3]
    ensures Flatten(ms) == Flatten(ms[..4]) + ms[4]
  {
    assert ms[..1][..0] == [] && ms[..2][..1] == ms[..1] && ms[..3][..2] == ms[..2] && ms[..4][..3] == ms[..3];
    assert Flatten(ms[..1]) == [] + ms[0];
    assert Flatten(ms[..2]) == ms[0] + ms[1];
    assert Flatten(ms[..3]) == ms[0] + ms[1] + ms[2];
  }

  lemma ExchangeStep(v: Server, c: Client, p: Phase)
    requires Honest(v, c) && !p.Fresh? && !p.Verifying?
    ensures Step(v, Expected(v, c, p), ExchangeRecord(c)) == Outcome(Expected(v, c, After(p, Exchange)), Accepted)
  {
    hide ClientVerify, ServerVerify, MasterSecret, Keys, KeyBlock, Flatten, Messages, Drain, OnKeyExchange,
      ClientMaster, SuiteKeys, ClientSrtp, ClientFinished, ServerFinished;
    var s := Expected(v, c, p);
    var r := ExchangeRecord(c);
    if p.Greeted? {
      var s1 := KeyedWith(v, c, p.queued);
      KeyExchanged(v, c, p.queued);
      if p.queued {
        SwitchQueued(v, c);
      } else {
        EmptyQueue(v, s1);
      }
    } else {
      OldRecord(v, s, r);
    }
  }

  /** The keys have just been made and the queue is as it was. */
  function KeyedWith(v: Server, c: Client, queued: bool): State {
    ExpectedKeyed(v, c, false).(queue := if queued then [SwitchRecord()] else [])
  }

  lemma KeyExchanged(v: Server, c: Client, queued: bool)
    requires Honest(v, c)
    ensures OnKeyExchange(v, Note(Expected(v, c, Greeted(queued)), ExchangeRecord(c)), ExchangeRecord(c))
            == Outcome(KeyedWith(v, c, queued), Accepted)
  {
    hide ClientVerify, ServerVerify, MasterSecret, Keys, KeyBlock, Flatten, ClientMaster, SuiteKeys, ClientSrtp,
      ClientFinished, ServerFinished;
    FlattenFour(Messages(v, c));
    SameKeys(v, c);
    var s := Note(Expected(v, c, Greeted(queued)), ExchangeRecord(c));
    assert s.seen == {1, 16};
  }

  /** The early ChangeCipherSpec record is taken from the queue. */
  lemma SwitchQueued(v: Server, c: Client)
    ensures Drain(v, KeyedWith(v, c, true)) == Outcome(Expected(v, c, Keyed(true)), Accepted)
  {
    hide ClientVerify, ServerVerify, MasterSecret, Keys, KeyBlock, Flatten, Messages, ClientMaster, SuiteKeys,
      ClientSrtp, ClientFinished, ServerFinished;
    var s := KeyedWith(v, c, true);
    assert FirstWanted(s.queue, CipherSpec) == 0;
    var s1 := s.(queue := Without(s.queue, 0));
    assert s1.queue == [];
    assert Handle(v, s1, SwitchRecord()) == Outcome(Expected(v, c, Keyed(true)), Accepted);
    EmptyQueue(v, Expected(v, c, Keyed(true)));
  }

  lemma SwitchStep(v: Server, c: Client, p: Phase)
    requires !p.Fresh? && !p.Verifying?
    ensures Step(v, Expected(v, c, p), SwitchRecord()) == Outcome(Expected(v, c, After(p, Switch)), Accepted)
  {
    hide ClientVerify, ServerVerify, MasterSecret, Keys, KeyBlock, Flatten, Messages, Drain, ClientMaster, SuiteKeys,
      ClientSrtp, ClientFinished, ServerFinished;
    var s := Expected(v, c, p);
    var r := SwitchRecord();
    if p.Greeted? {
      StaysQueued(v, Expected(v, c, Greeted(true)));
    } else if s.next == 4 {
      OldRecord(v, s, r);
    } else {
      EmptyQueue(v, s);
    }
  }

  lemma StaysQueued(v: Server, s: State)
    requires s.queue == [SwitchRecord()] && s.wanted == KeyExchange
    ensures Insert([], SwitchRecord()) == s.queue && Insert(s.queue, SwitchRecord()) == s.queue
    ensures Drain(v, s) == Outcome(s, Accepted)
  {
    assert FirstWanted(s.queue[1..], KeyExchange) == 0;
    assert FirstWanted(s.queue, KeyExchange) == 1;
  }

  lemma FinishStep(v: Server, c: Client, p: Phase)
    requires p.Complete? ==> NoCollision(v, c)
    requires p.Keyed? || p.Complete?
    ensures Step(v, Expected(v, c, p), FinishRecord(v, c))
            == Outcome(Expected(v, c, After(p, Finish)), if p.Keyed? then Accepted else Rejected)
  {
    hide ClientVerify, ServerVerify, MasterSecret, Keys, KeyBlock, Flatten, Messages, ClientMaster, SuiteKeys,
      ClientSrtp, ClientFinished, ServerFinished;
    var t := Flatten(Messages(v, c));
    SameFinished(v, c, t);
    SameFinished(v, c, t + c.finishedContent);
    if p.Keyed? {
      assert FourMessages(v) + [SpecChange(4), LastFlight(v, c)[1]] == FourMessages(v) + LastFlight(v, c);
      assert [] + [ClientSrtp(v, c)] == [ClientSrtp(v, c)];
    }
  }

  /** Only a Finished record repeated after it was accepted asks anything of the hash. */
  lemma EveryStep(v: Server, c: Client, p: Phase, f: Flight)
    requires Honest(v, c) && (f.Finish? && p.Complete? ==> NoCollision(v, c))
    requires Sendable(Expected(v, c, p), f)
    ensures var o := Step(v, Expected(v, c, p), RecordOf(v, c, f));
            && o.state == Expected(v, c, After(p, f))
            && o.verdict == if f.Finish? && p.Complete? then Rejected else Accepted
  {
    hide Step, MasterSecret, Keys, KeyBlock, Flatten, Honest, NoCollision, ClientMaster, SuiteKeys, ClientSrtp,
      ClientFinished, ServerFinished;
    match f
    case FirstHello => FirstHelloStep(v, c, p);
    case SecondHello => SecondHelloStep(v, c, p);
    case Exchange => ExchangeStep(v, c, p);
    case Switch => SwitchStep(v, c, p);
    case Finish => FinishStep(v, c, p);
  }

  // ------------------------------------------------------------------
  // Whole runs

  function Records(v: Server, c: Client, fs: seq<Flight>): (rs: seq<Record>)
    ensures |rs| == |fs|
  {
    if fs == [] then [] else [RecordOf(v, c, fs[0])] + Records(v, c, fs[1..])
  }

  /** Any records the client can have sent by now, in any order, any number of times. */
  predicate PossibleDatagram(v: Server, c: Client, s: State, fs: seq<Flight>)
    decreases |fs|
  {
    fs == [] ||
    (&& Sendable(s, fs[0])
     && var o := Step(v, s, RecordOf(v, c, fs[0]));
        (o.verdict.Accepted? ==> PossibleDatagram(v, c, o.state, fs[1..])))
  }

  function RunFrom(v: Server, c: Client, s: State, ds: seq<seq<Flight>>): State
    decreases |ds|
  {
    if ds == [] then s else RunFrom(v, c, Deliver(v, s, Records(v, c, ds[0])).state, ds[1..])
  }

  predicate PossibleRun(v: Server, c: Client, s: State, ds: seq<seq<Flight>>)
    decreases |ds|
  {
    ds == [] ||
    (&& PossibleDatagram(v, c, s, ds[0])
     && PossibleRun(v, c, Deliver(v, s, Records(v, c, ds[0])).state, ds[1..]))
  }

  /** How often the Finished record is delivered. */
  function Finishes(fs: seq<Flight>): nat {
    if fs == [] then 0 else (if fs[0].Finish? then 1 else 0) + Finishes(fs[1..])
  }

  function FinishesIn(ds: seq<seq<Flight>>): nat {
    if ds == [] then 0 else Finishes(ds[0]) + FinishesIn(ds[1..])
  }

  /** Either the Finished record is delivered at most once in all, or the hash tells the
      transcripts before and after it apart; `n` is how often it is still to come. */
  predicate OnceOrTold(v: Server, c: Client, p: Phase, n: nat) {
    NoCollision(v, c) || n <= (if p.Complete? then 0 else 1)
  }

  lemma {:induction false} EveryDatagram(v: Server, c: Client, p: Phase, fs: seq<Flight>, n: nat) returns (q: Phase)
    requires Honest(v, c) && OnceOrTold(v, c, p, Finishes(fs) + n)
    requires PossibleDatagram(v, c, Expected(v, c, p), fs)
    ensures Deliver(v, Expected(v, c, p), Records(v, c, fs)).state == Expected(v, c, q)
    ensures OnceOrTold(v, c, q, n)
    decreases |fs|
  {
    hide Step, Expected, RecordOf, Honest, NoCollision, Sendable;
    q := p;
    if fs != [] {
      var s := Expected(v, c, p);
      var o := Step(v, s, RecordOf(v, c, fs[0]));
      EveryStep(v, c, p, fs[0]);
      assert Records(v, c, fs)[1..] == Records(v, c, fs[1..]);
      q := After(p, fs[0]);
      if o.verdict.Accepted? {
        q := EveryDatagram(v, c, q, fs[1..], n);
      }
    }
  }

  /** Whatever the network does, the session is in one of the expected states. */
  lemma {:induction false} EveryRun(v: Server, c: Client, p: Phase, ds: seq<seq<Flight>>, n: nat) returns (q: Phase)
    requires Honest(v, c) && OnceOrTold(v, c, p, FinishesIn(ds) + n)
    requires PossibleRun(v, c, Expected(v, c, p), ds)
    ensures RunFrom(v, c, Expected(v, c, p), ds) == Expected(v, c, q)
    ensures OnceOrTold(v, c, q, n)
    decreases |ds|
  {
    hide Step, Expected, RecordOf, Honest, NoCollision, PossibleDatagram, Deliver;
    q := p;
    if ds != [] {
      q := EveryDatagram(v, c, p, ds[0], FinishesIn(ds[1..]) + n);
      q := EveryRun(v, c, q, ds[1..], n);
    }
  }

  // ------------------------------------------------------------------
  // What holds in every run

  /** The transcript is a whole number of the expected messages. */
  ghost predicate WholeMessages(v: Server, c: Client, t: seq<byte>) {
    exists k :: 0 <= k <= 5 && t == FirstMessages(v, c, k)
  }

  function FirstMessages(v: Server, c: Client, k: nat): seq<byte>
    requires k <= 5
  {
    Flatten(Messages(v, c)[..k])
  }

  /** Record numbers count the records of their epoch from 0, message numbers the handshake
      messages of both epochs; `e0`, `e1` and `m` were used before. */
  predicate Numbered(sent: seq<Sent>, e0: nat, e1: nat, m: nat)
    decreases |sent|
  {
    sent == [] ||
    match sent[0]
    case Handshake(n, _, k, _) => n == e0 && k == m && Numbered(sent[1..], e0 + 1, e1, m + 1)
    case SpecChange(n) => n == e0 && Numbered(sent[1..], e0 + 1, e1, m)
    case Finished(n, k, _) => n == e1 && k == m && Numbered(sent[1..], e0, e1 + 1, m + 1)
  }

  const STAGES := [Hello, CookieHello, KeyExchange, CipherSpec]

  /** The stages run in order and each at most once; until the client's Finished message is
      accepted the transcript is made of the expected messages in order; it is accepted at
      most once, with the keys the client derived; no number is used twice or left out. */
  lemma SafeRun(v: Server, c: Client, ds: seq<seq<Flight>>)
    requires Honest(v, c) && (NoCollision(v, c) || FinishesIn(ds) <= 1)
    requires PossibleRun(v, c, INITIAL, ds)
    ensures var s := RunFrom(v, c, INITIAL, ds);
            && s.handled <= STAGES
            && (s.finished == [] ==> WholeMessages(v, c, s.transcript))
            && (s.finished != [] ==> s.finished == [ClientSrtp(v, c)])
            && (s.suite.Some? ==> s.suite.value == SuiteKeys(v, c)) && (s.finished != [] ==> s.suite.Some?)
            && Numbered(s.sent, 0, 0, 0)
  {
    hide Honest, NoCollision, RunFrom, PossibleRun, Flatten, Messages, Keys, KeyBlock, Expected, MasterSecret,
      ClientMaster, SuiteKeys, ClientSrtp, ClientFinished, ServerFinished;
    ExpectedFresh(v, c);
    var p := EveryRun(v, c, Fresh, ds, 0);
    SafePhase(v, c, p);
  }

  lemma ExpectedFresh(v: Server, c: Client)
    ensures Expected(v, c, Fresh) == INITIAL
  {
  }

  lemma SafePhase(v: Server, c: Client, p: Phase)
    ensures var s := Expected(v, c, p);
            && s.handled <= STAGES
            && (s.finished == [] ==> WholeMessages(v, c, s.transcript))
            && (s.finished != [] ==> s.finished == [ClientSrtp(v, c)])
            && (s.suite.Some? ==> s.suite.value == SuiteKeys(v, c)) && (s.finished != [] ==> s.suite.Some?)
            && Numbered(s.sent, 0, 0, 0)
  {
    hide Keys, KeyBlock, MasterSecret, ServerVerify, ClientMaster, SuiteKeys, ClientSrtp, ClientFinished,
      ServerFinished;
    var s := Expected(v, c, p);
    assert Messages(v, c)[..5] == Messages(v, c);
    assert FirstMessages(v, c, 0) == [];
    assert s.finished == [] ==>
      (s.transcript == FirstMessages(v, c, 0) || s.transcript == FirstMessages(v, c, 4)
      || s.transcript == FirstMessages(v, c, 5));
    NumberedPhase(v, c);
  }

  lemma NumberedPhase(v: Server, c: Client)
    ensures Numbered([], 0, 0, 0) && Numbered(FourMessages(v)[..1], 0, 0, 0)
    ensures Numbered(FourMessages(v), 0, 0, 0) && Numbered(FourMessages(v) + LastFlight(v, c), 0, 0, 0)
  {
    hide ServerVerify, Messages, Flatten, MasterSecret, ClientMaster, SuiteKeys, ClientSrtp, ClientFinished,
      ServerFinished;
    var last := LastFlight(v, c);
    var four := FourMessages(v);
    assert four[..1][1..] == [];
    assert Numbered(last[1..], 5, 0, 4) by { assert last[1..][1..] == []; }
    assert Numbered(last, 4, 0, 4);
    NumberedOn(four[3..], last, 3, 0, 3);
    NumberedOn(four[3..], [], 3, 0, 3);
    NumberedOn(four[2..], last, 2, 0, 2);
    NumberedOn(four[2..], [], 2, 0, 2);
    NumberedOn(four[1..], last, 1, 0, 1);
    NumberedOn(four[1..], [], 1, 0, 1);
    NumberedOn(four, last, 0, 0, 0);
    NumberedOn(four, [], 0, 0, 0);
    assert four + [] == four;
  }

  lemma NumberedOn(a: seq<Sent>, b: seq<Sent>, e0: nat, e1: nat, m: nat)
    requires a != [] && a[0].Handshake? && a[0].number == e0 && a[0].messageSeq == m
    requires Numbered(a[1..] + b, e0 + 1, e1, m + 1)
    ensures Numbered(a + b, e0, e1, m)
  {
    assert (a + b)[1..] == a[1..] + b;
  }

  /** Nothing the honest client sends is ever refused, or read as a message of another type:
      only its Finished record, repeated after it was accepted, is turned away. The record
      itself is accepted the first time, whether it overtook the ChangeCipherSpec or not. */
  lemma NeverRefused(v: Server, c: Client, ds: seq<seq<Flight>>, f: Flight)
    requires Honest(v, c) && (NoCollision(v, c) || FinishesIn(ds + [[f]]) <= 1)
    requires PossibleRun(v, c, INITIAL, ds)
    requires Sendable(RunFrom(v, c, INITIAL, ds), f)
    ensures var s := RunFrom(v, c, INITIAL, ds);
            var o := Step(v, s, RecordOf(v, c, f));
            && !o.verdict.Undefined?
            && (o.verdict.Rejected? <==> f.Finish? && s.finished != [])
            && (o.verdict.Rejected? ==> o.state == s)
            && (f.Finish? ==> o.state.finished == [ClientSrtp(v, c)])
  {
    hide Honest, NoCollision, RunFrom, PossibleRun, Flatten, Messages, Keys, KeyBlock, Expected, MasterSecret, Step,
      RecordOf, ClientMaster, SuiteKeys, ClientSrtp, ClientFinished, ServerFinished;
    ExpectedFresh(v, c);
    FinishesLast(ds, f);
    var p := EveryRun(v, c, Fresh, ds, if f.Finish? then 1 else 0);
    EveryStep(v, c, p, f);
    WhenFinished(v, c, p);
    WhenFinished(v, c, After(p, f));
  }

  lemma {:induction false} FinishesLast(ds: seq<seq<Flight>>, f: Flight)
    ensures FinishesIn(ds + [[f]]) == FinishesIn(ds) + if f.Finish? then 1 else 0
    decreases |ds|
  {
    if ds == [] {
      assert ds + [[f]] == [[f]] && [[f]][1..] == [] && [f][1..] == [];
      assert Finishes([f]) == (if f.Finish? then 1 else 0) + Finishes([]);
      assert FinishesIn([[f]]) == Finishes([f]) + FinishesIn([]);
    } else {
      assert (ds + [[f]])[1..] == ds[1..] + [[f]];
      FinishesLast(ds[1..], f);
    }
  }

  lemma WhenFinished(v: Server, c: Client, p: Phase)
    ensures Expected(v, c, p).finished != [] <==> p.Complete?
    ensures p.Complete? ==> Expected(v, c, p).finished == [ClientSrtp(v, c)]
    ensures Expected(v, c, p).master.Some? <==> p.Keyed? || p.Complete?
  {
    hide Keys, KeyBlock, MasterSecret, Messages, Flatten, ServerVerify, ClientMaster, SuiteKeys, ClientSrtp,
      ClientFinished, ServerFinished;
  }

  /** Without the assumption on the hash: a repeated Finished record is accepted again exactly
      when the hash fails to tell the two transcripts apart. */
  lemma RepeatedFinishedIff(v: Server, c: Client, switched: bool)
    ensures Step(v, Expected(v, c, Complete(switched)), FinishRecord(v, c)).verdict
            == if NoCollision(v, c) then Rejected else Accepted
  {
    hide ClientVerify, ServerVerify, MasterSecret, Keys, KeyBlock, Flatten, Messages, ClientMaster, SuiteKeys,
      ClientSrtp, ClientFinished, ServerFinished;
    SameFinished(v, c, Flatten(Messages(v, c)));
    SameFinished(v, c, Flatten(Messages(v, c)) + c.finishedContent);
  }

  /** However a run has gone so far, delivering the five records once more in order completes
      the handshake. */
  lemma AlwaysCompletes(v: Server, c: Client, ds: seq<seq<Flight>>)
    requires Honest(v, c) && (NoCollision(v, c) || FinishesIn(ds) == 0)
    requires PossibleRun(v, c, INITIAL, ds)
    ensures var again := [[FirstHello], [SecondHello], [Exchange], [Switch], [Finish]];
            RunFrom(v, c, RunFrom(v, c, INITIAL, ds), again).finished == [ClientSrtp(v, c)]
  {
    hide Honest, NoCollision, PossibleRun, Flatten, Messages, Keys, KeyBlock, Expected, MasterSecret, Step, RecordOf,
      Deliver, RunFrom, ClientMaster, SuiteKeys, ClientSrtp, ClientFinished, ServerFinished;
    ExpectedFresh(v, c);
    var p := EveryRun(v, c, Fresh, ds, 1);
    var p1, p2 := After(p, FirstHello), After(After(p, FirstHello), SecondHello);
    var p3, p4 := After(p2, Exchange), After(After(p2, Exchange), Switch);
    EnoughSent(v, c, p1);
    EnoughSent(v, c, p2);
    WhenFinished(v, c, p4);
    var again := [[FirstHello], [SecondHello], [Exchange], [Switch], [Finish]];
    OneMore(v, c, p, FirstHello, again);
    assert again[1..] == [[SecondHello], [Exchange], [Switch], [Finish]];
    OneMore(v, c, p1, SecondHello, again[1..]);
    assert again[1..][1..] == [[Exchange], [Switch], [Finish]];
    OneMore(v, c, p2, Exchange, again[1..][1..]);
    EnoughSent(v, c, p3);
    assert again[1..][1..][1..] == [[Switch], [Finish]];
    OneMore(v, c, p3, Switch, again[1..][1..][1..]);
    assert again[1..][1..][1..][1..] == [[Finish]];
    OneMore(v, c, p4, Finish, again[1..][1..][1..][1..]);
    RunEnds(v, c, Expected(v, c, After(p4, Finish)));
    WhenFinished(v, c, After(p4, Finish));
  }

  lemma RunEnds(v: Server, c: Client, s: State)
    ensures RunFrom(v, c, s, [[Finish]][1..]) == s
  {
  }

  lemma EnoughSent(v: Server, c: Client, p: Phase)
    ensures |Expected(v, c, p).sent| >= if p.Fresh? then 0 else if p.Verifying? then 1 else 4
  {
    hide Keys, KeyBlock, MasterSecret, Messages, Flatten, ServerVerify, ClientMaster, SuiteKeys, ClientSrtp,
      ClientFinished, ServerFinished;
  }

  lemma OneMore(v: Server, c: Client, p: Phase, f: Flight, ds: seq<seq<Flight>>)
    requires Honest(v, c) && (f.Finish? && p.Complete? ==> NoCollision(v, c))
    requires Sendable(Expected(v, c, p), f)
    requires ds != [] && ds[0] == [f]
    ensures RunFrom(v, c, Expected(v, c, p), ds) == RunFrom(v, c, Expected(v, c, After(p, f)), ds[1..])
  {
    hide Honest, NoCollision, Flatten, Messages, Keys, KeyBlock, Expected, MasterSecret, Step, RecordOf, ClientMaster,
      SuiteKeys, ClientSrtp, ClientFinished, ServerFinished;
    EveryStep(v, c, p, f);
    var rs := Records(v, c, [f]);
    assert rs[0] == RecordOf(v, c, f) && rs[1..] == [];
    assert Deliver(v, Expected(v, c, After(p, f)), []) == Outcome(Expected(v, c, After(p, f)), Accepted);
  }

  // ------------------------------------------------------------------
  // The assumptions can be met

  function Fill(b: byte): Digest {
    seq(32, i => b)
  }

  /** A toy HMAC that repeats the last byte of the message. */
  function LastByte(key: seq<byte>, m: seq<byte>): Digest {
    Fill(if m == [] then 0 else m[|m| - 1])
  }

  function LengthByte(s: seq<byte>): Digest {
    Fill(|s| % 256)
  }

  lemma ToyVerify(v: Server, c: Client, t: seq<byte>)
    requires v.hmac == LastByte && v.sha == LengthByte
    ensures ClientFinished(v, c, t) != [] && ClientFinished(v, c, t)[0] == |t| % 256
  {
    hide ClientMaster, Ascii, A, Fill;
    var master := ClientMaster(v, c);
    var seed := Ascii("client finished") + v.sha(t);
    var message := A(v.hmac, master, seed, 1) + seed;
    assert seed[|seed| - 1] == v.sha(t)[31];
    assert message[|message| - 1] == seed[|seed| - 1];
    FilledWith(|t| % 256);
    assert Blocks(v.hmac, master, seed, 0) == [];
    assert Blocks(v.hmac, master, seed, 1) == [] + LastByte(master, message);
  }

  lemma FilledWith(b: byte)
    ensures Fill(b)[0] == b && Fill(b)[31] == b
  {
  }

  /** There are hash functions, a server key and a client as the theorems assume. */
  lemma SomeHonestClient() returns (v: Server, c: Client)
    ensures Honest(v, c) && NoCollision(v, c)
  {
    hide ClientVerify, MasterSecret, Flatten, Messages, ClientMaster, SuiteKeys, ClientSrtp, ClientFinished,
      ServerFinished;
    v := Server(LastByte, LengthByte, s => Some(s), Fill(0), (k, n) => []);
    var pre: seq<byte> := seq(48, i => 0);
    c := Client(pre[..2], Fill(0), Fill(0), [1], [], [], pre, pre, [], [9]);
    var t := Flatten(Messages(v, c));
    ToyVerify(v, c, t);
    ToyVerify(v, c, t + [9]);
  }
}
