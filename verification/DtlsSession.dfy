/** The session object: fields that the handlers reassign, a reorder queue that is searched
    and drained in loops, and the loop over the records of a datagram. */
module DtlsSession {
  import opened Bytes
  import opened TlsPrf
  import opened DtlsHandshake
  import Runs = DtlsHonestRuns

  class Session {
    const server: Server
    const cipherSuite: CipherSuite
    var handler: Stage
    var wanted: Stage
    var next: nat
    var number0: nat
    var number1: nat
    var queue: seq<Record>
    var seen: set<byte>
    var transcript: seq<byte>
    var hello: Option<Message>
    var cipher: bool
    var master: Option<seq<byte>>
    var srtp: Option<SrtpKeys>
    var changed: bool
    var sent: seq<Sent>
    var handled: seq<Stage>
    var finished: seq<SrtpKeys>

    ghost function View(): State
      reads this, cipherSuite
    {
      State(handler, wanted, next, number0, number1, queue, seen, transcript, hello, cipher, master,
            if master.None? then None else Some(cipherSuite.Block()), srtp, changed, sent, handled, finished)
    }

    constructor (v: Server)
      ensures server == v && View() == INITIAL && fresh(cipherSuite)
    {
      server := v;
      cipherSuite := new CipherSuite();
      handler, wanted := Hello, Hello;
      next, number0, number1 := 0, 0, 0;
      queue, seen, transcript := [], {}, [];
      hello, cipher, master, srtp, changed := None, false, None, None, false;
      sent, handled, finished := [], [], [];
    }

    /** The next stage takes over. */
    method Advance(now: Stage, following: Stage, number: nat)
      modifies this`next, this`wanted, this`handler, this`handled
      ensures View() == old(Advanced(View(), now, following, number))
    {
      hide Wrap32;
      next := Wrap32(number + 1);
      wanted := following;
      handler := following;
      handled := handled + [now];
    }

    method SendChangeCipherSpec()
      modifies this`sent, this`number0
      ensures View() == old(SendSpecChange(View()))
    {
      hide Wrap32;
      sent := sent + [SpecChange(number0)];
      number0 := Wrap32(number0 + 1);
    }

    method SendFinishedMessage(verify: seq<byte>)
      modifies this`sent, this`number1
      ensures View() == old(SendFinished(View(), verify))
    {
      hide Wrap32;
      sent := sent + [Finished(number1, 4, verify)];
      number1 := Wrap32(number1 + 1);
    }

    /** A handshake message goes out under the current number. */
    method SendHandshakeMessage(k: Kind, record: bool)
      modifies this`sent, this`number0, this`transcript
      ensures View() == old(if record then SendRecorded(server, View(), k) else SendHandshake(server, View(), k))
    {
      hide Wrap16, Wrap32;
      var m := Wrap16(number0);
      var body := server.encode(k, m);
      if record {
        transcript := transcript + body;
      }
      sent := sent + [Handshake(number0, k, m, body)];
      number0 := Wrap32(number0 + 1);
    }

    method ProcessClientHello(r: Record)
      requires r.Plain?
      modifies this
      ensures View() == old(OnHello(server, View(), r))
    {
      hide Advanced, SendHandshake, SendRecorded;
      hello := Some(r.message);
      SendHandshakeMessage(HelloVerifyRequest, false);
      Advance(Hello, CookieHello, r.number);
    }

    method ProcessClientHelloWithCookie(r: Record)
      requires r.Plain?
      modifies this
      ensures View() == old(OnCookieHello(server, View(), r))
    {
      hide Advanced, SendHandshake, SendRecorded;
      hello := Some(r.message);
      cipher := true;
      SendHandshakeMessage(ServerHello, true);
      SendHandshakeMessage(Certificate, true);
      SendHandshakeMessage(ServerHelloDone, true);
      Advance(CookieHello, KeyExchange, r.number);
    }

    method ProcessClientKeyExchange(r: Record) returns (verdict: Verdict)
      requires r.Plain?
      modifies this, cipherSuite
      ensures Outcome(View(), verdict) == old(OnKeyExchange(server, View(), r))
    {
      hide PHash, Ascii, SplitSrtp, Advanced, KeyBlock;
      if !r.message.ClientKeyExchange? || hello.None? || !hello.value.ClientHello? {
        return Undefined;
      }
      var pre := server.rsa(r.message.secret);
      if pre.None? {
        return Rejected;
      }
      if |pre.value| < 48 {
        return Accepted;
      }
      if pre.value[..2] != hello.value.version {
        return Rejected;
      }
      var random := hello.value.random;
      var secret := Prf(server.hmac, pre.value, Ascii("master secret"), random + server.random, 48);
      var block := Prf(server.hmac, secret, Ascii("EXTRACTOR-dtls_srtp"), random + server.random, 60);
      cipherSuite.Init(server.hmac, secret, random, server.random);
      master := Some(secret);
      srtp := Some(SplitSrtp(block));
      Advance(KeyExchange, CipherSpec, r.number);
      return Accepted;
    }

    method ProcessChangeCipherSpec(r: Record)
      requires r.Plain?
      modifies this
      ensures View() == old(OnCipherSpec(View(), r))
    {
      changed := true;
      Advance(CipherSpec, Over, r.number);
    }

    /** Calls the handler in force. */
    method HandleRecord(r: Record) returns (verdict: Verdict)
      requires r.Plain?
      modifies this, cipherSuite
      ensures Outcome(View(), verdict) == old(Handle(server, View(), r))
    {
      hide OnHello, OnCookieHello, OnKeyExchange, OnCipherSpec;
      match handler
      case Hello =>
        ProcessClientHello(r);
        return Accepted;
      case CookieHello =>
        ProcessClientHelloWithCookie(r);
        return Accepted;
      case KeyExchange =>
        verdict := ProcessClientKeyExchange(r);
      case CipherSpec =>
        ProcessChangeCipherSpec(r);
        return Accepted;
      case Over =>
        return Accepted;
    }

    /** Searches the queue in ascending order for a record of the wanted type and takes it out. */
    method RequireRecord() returns (r: Option<Record>)
      modifies this`queue
      ensures var i := FirstWanted(old(queue), wanted);
              if i == |old(queue)| then r == None && queue == old(queue)
              else r == Some(old(queue)[i]) && queue == Without(old(queue), i)
    {
      var i := 0;
      while i < |queue|
        invariant 0 <= i <= |queue|
        invariant queue == old(queue)
        invariant forall j :: 0 <= j < i ==> !Wants(wanted, queue[j])
      {
        if Wants(wanted, queue[i]) {
          r := Some(queue[i]);
          queue := Without(queue, i);
          return;
        }
        i := i + 1;
      }
      return None;
    }

    /** The loop over early records. */
    method DrainQueue() returns (verdict: Verdict)
      modifies this, cipherSuite
      ensures Outcome(View(), verdict) == old(Drain(server, View()))
    {
      hide Handle, FirstWanted;
      while true
        invariant Drain(server, View()) == old(Drain(server, View()))
        decreases |queue|
      {
        ghost var before := View();
        var r := RequireRecord();
        if r.None? {
          return Accepted;
        }
        ghost var taken := View();
        assert taken == before.(queue := Without(before.queue, FirstWanted(before.queue, before.wanted)));
        var one := HandleRecord(r.value);
        if one.Rejected? {
          return Accepted;
        }
        if one.Undefined? {
          return Undefined;
        }
      }
    }

    /** The first handshake message of each type enters the transcript. */
    method NoteHandshake(r: Record)
      requires r.Plain?
      modifies this`seen, this`transcript
      ensures View() == old(Note(View(), r))
    {
      var code := HandshakeCode(r.message);
      if code.Some? && code.value !in seen {
        if r.message.ClientHello? {
          if |r.message.cookie| > 0 {
            transcript := transcript + r.body;
            seen := seen + {code.value};
          }
        } else {
          transcript := transcript + r.body;
          seen := seen + {code.value};
        }
      }
    }

    method ProcessPlain(r: Record) returns (verdict: Verdict)
      requires r.Plain?
      modifies this, cipherSuite
      ensures Outcome(View(), verdict) == old(OnPlain(server, View(), r))
    {
      hide Handle, Drain, Insert, Note;
      NoteHandshake(r);
      if r.number < next {
        return Accepted;
      }
      if r.number == next {
        verdict := HandleRecord(r);
        if !verdict.Accepted? {
          return;
        }
      } else {
        queue := Insert(queue, r);
        verdict := Accepted;
      }
      if !changed {
        verdict := DrainQueue();
      }
    }

    method ProcessFinished(r: Record) returns (verdict: Verdict)
      requires r.Sealed?
      modifies this
      ensures Outcome(View(), verdict) == old(OnFinished(server, View(), r))
    {
      hide PHash, Ascii, Completed;
      if !cipher {
        return Rejected;
      }
      if master.None? || srtp.None? {
        return Undefined;
      }
      var verify := Prf(server.hmac, master.value, Ascii("client finished"), server.sha(transcript), 12);
      if verify != r.verify {
        return Rejected;
      }
      Complete(r.content);
      return Accepted;
    }

    method Complete(content: seq<byte>)
      requires master.Some? && srtp.Some?
      modifies this
      ensures View() == old(Completed(server, View(), content))
    {
      hide PHash, Ascii, SendSpecChange, SendFinished;
      var secret, keys := master.value, srtp.value;
      SendChangeCipherSpec();
      transcript := transcript + content;
      var reply := Prf(server.hmac, secret, Ascii("server finished"), server.sha(transcript), 12);
      SendFinishedMessage(reply);
      finished := finished + [keys];
      handler := Over;
    }

    /** The loop over the records of a datagram. */
    method ProcessDtlsPacket(datagram: seq<Record>) returns (verdict: Verdict)
      modifies this, cipherSuite
      ensures Outcome(View(), verdict) == old(Deliver(server, View(), datagram))
    {
      hide OnPlain, OnFinished;
      var i := 0;
      while i < |datagram|
        invariant 0 <= i <= |datagram|
        invariant Deliver(server, View(), datagram[i..]) == old(Deliver(server, View(), datagram))
      {
        ghost var before := View();
        var r := datagram[i];
        assert datagram[i..][0] == r && datagram[i..][1..] == datagram[i + 1..];
        match r {
          case Malformed => verdict := Rejected;
          case Plain(_, _, _) => verdict := ProcessPlain(r);
          case Sealed(_, _) => verdict := ProcessFinished(r);
        }
        assert Outcome(View(), verdict) == Step(server, before, r);
        if !verdict.Accepted? {
          return;
        }
        i := i + 1;
      }
      verdict := Accepted;
    }
  }

  /** A session object over a whole run. It ends where `RunFrom` says; so with an honest client,
      over any network, it has run its stages in order and each at most once, its transcript is
      made of the expected messages until Finished is accepted, it holds the client's keys, and
      its numbers are right. */
  method Converse(v: Server, c: Runs.Client, ds: seq<seq<Runs.Flight>>) returns (s: Session)
    ensures fresh(s) && s.server == v && s.View() == Runs.RunFrom(v, c, INITIAL, ds)
    ensures Runs.Honest(v, c) && Runs.PossibleRun(v, c, INITIAL, ds)
            && (Runs.NoCollision(v, c) || Runs.FinishesIn(ds) <= 1) ==>
              && s.handled <= Runs.STAGES
              && (s.finished == [] ==> Runs.WholeMessages(v, c, s.transcript))
              && (s.finished != [] ==>
                    && s.finished == [Runs.ClientSrtp(v, c)]
                    && s.cipherSuite.Block() == Runs.SuiteKeys(v, c))
              && Runs.Numbered(s.sent, 0, 0, 0)
  {
    hide Deliver, Runs.Honest, Runs.NoCollision, Runs.WholeMessages, Runs.Numbered, Runs.PossibleRun,
      Runs.ClientSrtp, Runs.SuiteKeys;
    s := new Session(v);
    var i := 0;
    while i < |ds|
      invariant 0 <= i <= |ds|
      invariant fresh(s) && fresh(s.cipherSuite) && s.server == v
      invariant Runs.RunFrom(v, c, s.View(), ds[i..]) == Runs.RunFrom(v, c, INITIAL, ds)
    {
      assert ds[i..][0] == ds[i] && ds[i..][1..] == ds[i + 1..];
      var _ := s.ProcessDtlsPacket(Runs.Records(v, c, ds[i]));
      i := i + 1;
    }
    assert ds[i..] == [];
    if Runs.Honest(v, c) && Runs.PossibleRun(v, c, INITIAL, ds)
       && (Runs.NoCollision(v, c) || Runs.FinishesIn(ds) <= 1) {
      Runs.SafeRun(v, c, ds);
    }
  }
}
