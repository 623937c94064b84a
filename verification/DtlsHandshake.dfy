/** The server side of the DTLS handshake: what every arriving record does to the session. */
module DtlsHandshake {
  import opened Bytes
  import opened TlsPrf

  // ------------------------------------------------------------------
  // Records

  datatype Message =
    | ClientHello(version: seq<byte>, random: Digest, cookie: seq<byte>)
    | ClientKeyExchange(secret: seq<byte>)
    | OtherHandshake(code: byte)
    | ChangeCipherSpec
    | OtherContent

  /** A record of epoch 0, whose `body` is what follows its header; a record of a later
      epoch, opened; or bytes that are no record. */
  datatype Record =
    | Plain(number: nat, message: Message, body: seq<byte>)
    | Sealed(content: seq<byte>, verify: seq<byte>)
    | Malformed

  datatype Kind = HelloVerifyRequest | ServerHello | Certificate | ServerHelloDone

  /** What the server sends: the first two in epoch 0, the last one in epoch 1. */
  datatype Sent =
    | Handshake(number: nat, kind: Kind, messageSeq: nat, body: seq<byte>)
    | SpecChange(number: nat)
    | Finished(number: nat, messageSeq: nat, verify: seq<byte>)

  /** Everything the session is given: the hash functions, the RSA key, its random bytes and
      the encodings of its own messages under a message number. */
  datatype Server = Server(
    hmac: Hmac,
    sha: seq<byte> -> Digest,
    rsa: seq<byte> -> Option<seq<byte>>,
    random: Digest,
    encode: (Kind, nat) -> seq<byte>)

  // ------------------------------------------------------------------
  // The session

  /** The handler that is waiting for a message. */
  datatype Stage = Hello | CookieHello | KeyExchange | CipherSpec | Over

  /** `handler` and `wanted` are the two handlers in force; `next` and `number0`, `number1`
      are the receive and send counters; `queue` holds early records by ascending number;
      `suite` is the key block of the cipher suite and `srtp` are the keys for media;
      `sent`, `handled` and `finished` record what was sent, which stages ran and the keys
      handed to the callback. */
  datatype State = State(
    handler: Stage,
    wanted: Stage,
    next: nat,
    number0: nat,
    number1: nat,
    queue: seq<Record>,
    seen: set<byte>,
    transcript: seq<byte>,
    hello: Option<Message>,
    cipher: bool,
    master: Option<seq<byte>>,
    suite: Option<seq<byte>>,
    srtp: Option<SrtpKeys>,
    changed: bool,
    sent: seq<Sent>,
    handled: seq<Stage>,
    finished: seq<SrtpKeys>)

  const INITIAL := State(Hello, Hello, 0, 0, 0, [], {}, [], None, false, None, None, None, false, [], [], [])

  /** `Undefined` stands for a message read as one of another type, or a key that is not there. */
  datatype Verdict = Accepted | Rejected | Undefined

  datatype Outcome = Outcome(state: State, verdict: Verdict)

  function Wrap32(n: nat): nat {
    n % 0x1_0000_0000
  }

  /** Message numbers have 16 bits. */
  function Wrap16(n: nat): nat {
    n % 0x1_0000
  }

  function MasterSecret(v: Server, pre: seq<byte>, clientRandom: seq<byte>): seq<byte> {
    PHash(v.hmac, pre, Ascii("master secret") + (clientRandom + v.random), 48)
  }

  function ClientVerify(v: Server, master: seq<byte>, transcript: seq<byte>): seq<byte> {
    PHash(v.hmac, master, Ascii("client finished") + v.sha(transcript), 12)
  }

  function ServerVerify(v: Server, master: seq<byte>, transcript: seq<byte>): seq<byte> {
    PHash(v.hmac, master, Ascii("server finished") + v.sha(transcript), 12)
  }

  function Keys(v: Server, master: seq<byte>, clientRandom: seq<byte>): SrtpKeys {
    SplitSrtp(SrtpBlock(v.hmac, master, clientRandom, v.random))
  }

  /** One handshake message goes out; record number and message number are the same counter. */
  function SendHandshake(v: Server, s: State, k: Kind): State {
    var m := Wrap16(s.number0);
    s.(sent := s.sent + [Handshake(s.number0, k, m, v.encode(k, m))], number0 := Wrap32(s.number0 + 1))
  }

  /** The same, and the message also enters the transcript. */
  function SendRecorded(v: Server, s: State, k: Kind): State {
    SendHandshake(v, s, k).(transcript := s.transcript + v.encode(k, Wrap16(s.number0)))
  }

  function SendSpecChange(s: State): State {
    s.(sent := s.sent + [SpecChange(s.number0)], number0 := Wrap32(s.number0 + 1))
  }

  /** The message number of the Finished message is a constant. */
  function SendFinished(s: State, verify: seq<byte>): State {
    s.(sent := s.sent + [Finished(s.number1, 4, verify)], number1 := Wrap32(s.number1 + 1))
  }

  /** The stage `now` has run on a record and another one takes over. */
  function Advanced(s: State, now: Stage, following: Stage, number: nat): State {
    s.(next := Wrap32(number + 1), wanted := following, handler := following, handled := s.handled + [now])
  }

  function OnHello(v: Server, s: State, r: Record): State
    requires r.Plain?
  {
    Advanced(SendHandshake(v, s.(hello := Some(r.message)), HelloVerifyRequest), Hello, CookieHello, r.number)
  }

  function OnCookieHello(v: Server, s: State, r: Record): State
    requires r.Plain?
  {
    var s1 := SendRecorded(v, s.(hello := Some(r.message), cipher := true), ServerHello);
    var s2 := SendRecorded(v, s1, Certificate);
    var s3 := SendRecorded(v, s2, ServerHelloDone);
    Advanced(s3, CookieHello, KeyExchange, r.number)
  }

  /** A premaster secret that is too short is not reported: the error code of that branch
      converts to success and nothing changes. */
  function OnKeyExchange(v: Server, s: State, r: Record): Outcome
    requires r.Plain?
  {
    if !r.message.ClientKeyExchange? || s.hello.None? || !s.hello.value.ClientHello? then
      Outcome(s, Undefined)
    else
      var pre := v.rsa(r.message.secret);
      if pre.None? then Outcome(s, Rejected)
      else if |pre.value| < 48 then Outcome(s, Accepted)
      else if pre.value[..2] != s.hello.value.version then Outcome(s, Rejected)
      else
        var random := s.hello.value.random;
        var master := MasterSecret(v, pre.value, random);
        var keyed := s.(master := Some(master), suite := Some(KeyBlock(v.hmac, master, random, v.random)),
                        srtp := Some(Keys(v, master, random)));
        Outcome(Advanced(keyed, KeyExchange, CipherSpec, r.number), Accepted)
  }

  function OnCipherSpec(s: State, r: Record): State
    requires r.Plain?
  {
    Advanced(s.(changed := true), CipherSpec, Over, r.number)
  }

  /** The current handler takes a record, without looking at its type. */
  function Handle(v: Server, s: State, r: Record): (o: Outcome)
    requires r.Plain?
    ensures o.state.queue == s.queue
  {
    match s.handler
    case Hello => Outcome(OnHello(v, s, r), Accepted)
    case CookieHello => Outcome(OnCookieHello(v, s, r), Accepted)
    case KeyExchange => OnKeyExchange(v, s, r)
    case CipherSpec => Outcome(OnCipherSpec(s, r), Accepted)
    case Over => Outcome(s, Accepted)
  }

  // ------------------------------------------------------------------
  // Arrival

  function HandshakeCode(m: Message): Option<byte> {
    match m
    case ClientHello(_, _, _) => Some(1)
    case ClientKeyExchange(_) => Some(16)
    case OtherHandshake(c) => Some(c)
    case _ => None
  }

  /** The first handshake message of each type enters the transcript as it arrives, before
      anyone looks at its number; of the hellos it is the first one with a cookie. */
  function Note(s: State, r: Record): State
    requires r.Plain?
  {
    var code := HandshakeCode(r.message);
    if code.None? || code.value in s.seen || (r.message.ClientHello? && r.message.cookie == []) then s
    else s.(seen := s.seen + {code.value}, transcript := s.transcript + r.body)
  }

  /** The queue is a map ordered by number: an entry that is there is not replaced. */
  function Insert(q: seq<Record>, r: Record): seq<Record>
    requires r.Plain?
  {
    if q == [] || !q[0].Plain? || r.number < q[0].number then [r] + q
    else if r.number == q[0].number then q
    else [q[0]] + Insert(q[1..], r)
  }

  /** Early records are kept in ascending order, one for each number. */
  predicate Ascending(q: seq<Record>) {
    && (forall i :: 0 <= i < |q| ==> q[i].Plain?)
    && (forall i, j :: 0 <= i < j < |q| ==> q[i].number < q[j].number)
  }

  /** Inserting keeps the order and every record that is there; the new one is added unless its
      number is taken. */
  lemma {:induction false} InsertKeeps(q: seq<Record>, r: Record)
    requires r.Plain? && Ascending(q)
    ensures Ascending(Insert(q, r))
    ensures forall x :: x in Insert(q, r) <==> x in q || (x == r && forall y :: y in q ==> y.number != r.number)
  {
    if q != [] && r.number > q[0].number {
      InsertKeeps(q[1..], r);
      var rest := Insert(q[1..], r);
      assert q == [q[0]] + q[1..];
      forall i | 0 <= i < |rest| ensures rest[i].Plain? && q[0].number < rest[i].number {
        assert rest[i] in rest;
      }
      assert Ascending([q[0]] + rest);
    } else if q != [] && r.number < q[0].number {
      assert forall y :: y in q ==> y.number >= q[0].number;
    }
  }

  predicate Wants(w: Stage, r: Record) {
    r.Plain? &&
    match w
    case Hello => r.message.ClientHello?
    case CookieHello => r.message.ClientHello?
    case KeyExchange => r.message.ClientKeyExchange?
    case CipherSpec => r.message.ChangeCipherSpec?
    case Over => false
  }

  /** The first queued record of the wanted type, whatever its number. */
  function FirstWanted(q: seq<Record>, w: Stage): (i: nat)
    ensures i <= |q|
    ensures i < |q| ==> Wants(w, q[i])
    ensures forall j :: 0 <= j < i ==> !Wants(w, q[j])
  {
    if q == [] || Wants(w, q[0]) then 0 else 1 + FirstWanted(q[1..], w)
  }

  function Without(q: seq<Record>, i: nat): seq<Record>
    requires i < |q|
  {
    q[..i] + q[i + 1..]
  }

  /** Queued records are handled as long as one of the wanted type is there and the handler
      agrees; a refusal here only ends the loop. */
  function Drain(v: Server, s: State): Outcome
    decreases |s.queue|
  {
    var i := FirstWanted(s.queue, s.wanted);
    if i == |s.queue| then Outcome(s, Accepted)
    else
      var o := Handle(v, s.(queue := Without(s.queue, i)), s.queue[i]);
      match o.verdict
      case Accepted => Drain(v, o.state)
      case Rejected => Outcome(o.state, Accepted)
      case Undefined => o
  }

  /** A refusal while draining is never passed on. */
  lemma {:induction false} DrainNeverRejects(v: Server, s: State)
    ensures !Drain(v, s).verdict.Rejected? && |Drain(v, s).state.queue| <= |s.queue|
    decreases |s.queue|
  {
    hide Handle;
    var i := FirstWanted(s.queue, s.wanted);
    if i < |s.queue| {
      var o := Handle(v, s.(queue := Without(s.queue, i)), s.queue[i]);
      if o.verdict.Accepted? {
        DrainNeverRejects(v, o.state);
      }
    }
  }

  /** The client's Finished message has been accepted: both replies go out, the second one over
      the transcript that includes it. */
  function Completed(v: Server, s: State, content: seq<byte>): State
    requires s.master.Some? && s.srtp.Some?
  {
    var s1 := SendSpecChange(s).(transcript := s.transcript + content);
    var s2 := SendFinished(s1, ServerVerify(v, s.master.value, s1.transcript));
    s2.(finished := s.finished + [s.srtp.value], handler := Over)
  }

  function OnFinished(v: Server, s: State, r: Record): Outcome
    requires r.Sealed?
  {
    if !s.cipher then Outcome(s, Rejected)
    else if s.master.None? || s.srtp.None? then Outcome(s, Undefined)
    else if r.verify != ClientVerify(v, s.master.value, s.transcript) then Outcome(s, Rejected)
    else
      Outcome(Completed(v, s, r.content), Accepted)
  }

  /** An epoch-0 record: old ones are dropped, the next one is handled, later ones queued. */
  function OnPlain(v: Server, s: State, r: Record): Outcome
    requires r.Plain?
  {
    var s1 := Note(s, r);
    if r.number < s1.next then Outcome(s1, Accepted)
    else
      var o := if r.number == s1.next then Handle(v, s1, r)
               else Outcome(s1.(queue := Insert(s1.queue, r)), Accepted);
      if o.verdict.Accepted? && !o.state.changed then Drain(v, o.state) else o
  }

  function Step(v: Server, s: State, r: Record): Outcome {
    match r
    case Malformed => Outcome(s, Rejected)
    case Plain(_, _, _) => OnPlain(v, s, r)
    case Sealed(_, _) => OnFinished(v, s, r)
  }

  /** The records of a datagram in turn; the first one refused ends it. */
  function Deliver(v: Server, s: State, datagram: seq<Record>): Outcome
    decreases |datagram|
  {
    if datagram == [] then Outcome(s, Accepted)
    else
      var o := Step(v, s, datagram[0]);
      if o.verdict.Accepted? then Deliver(v, o.state, datagram[1..]) else o
  }

  // ------------------------------------------------------------------
  // What becomes of a key exchange

  /** The message and the hello it refers to are what the handler takes them for. */
  predicate Exchanging(s: State, r: Record) {
    r.Plain? && r.message.ClientKeyExchange? && s.hello.Some? && s.hello.value.ClientHello?
  }

  /** A key exchange is reported as a success that leaves the session waiting exactly when the
      secret decrypts to fewer than 48 bytes; it is refused exactly when the secret does not
      decrypt or has another version in front; and keys are made exactly otherwise. */
  lemma KeyExchangeIff(v: Server, s: State, r: Record)
    requires Exchanging(s, r)
    ensures var o := OnKeyExchange(v, s, r);
            var pre := v.rsa(r.message.secret);
            && (o == Outcome(s, Accepted) <==> pre.Some? && |pre.value| < 48)
            && (o == Outcome(s, Rejected)
                <==> pre.None? || (|pre.value| >= 48 && pre.value[..2] != s.hello.value.version))
            && (o.state.handled == s.handled + [KeyExchange]
                <==> pre.Some? && |pre.value| >= 48 && pre.value[..2] == s.hello.value.version)
            && !o.verdict.Undefined?
  {
    hide MasterSecret, Keys, KeyBlock, Wrap32;
  }

  /** So a session that waits for the key exchange with nothing queued answers it with success
      and still waits for the same number exactly when the secret is too short. */
  lemma StillWaitingIff(v: Server, s: State, r: Record)
    requires Exchanging(s, r) && s.handler == KeyExchange && s.wanted == KeyExchange
    requires s.queue == [] && !s.changed && r.number == s.next
    ensures var o := Step(v, s, r);
            var pre := v.rsa(r.message.secret);
            o.verdict.Accepted? && o.state.handler == KeyExchange <==> pre.Some? && |pre.value| < 48
  {
    hide MasterSecret, Keys, KeyBlock, Wrap32, Drain;
    var s1 := Note(s, r);
    KeyExchangeIff(v, s1, r);
    var o := OnKeyExchange(v, s1, r);
    EmptyQueue(v, o.state);
  }

  /** An empty queue has nothing to drain. */
  lemma EmptyQueue(v: Server, s: State)
    requires s.queue == []
    ensures Drain(v, s) == Outcome(s, Accepted)
  {
  }

  /** A witness: an empty premaster secret is reported as success. */
  lemma EmptySecretAccepted(v: Server, s: State, hello: Message)
    requires v.rsa([]) == Some([]) && hello.ClientHello? && s.hello == Some(hello)
    ensures OnKeyExchange(v, s, Plain(2, ClientKeyExchange([]), [])) == Outcome(s, Accepted)
  {
  }
}
