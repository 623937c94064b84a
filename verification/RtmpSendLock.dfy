/** The `sending_` flag of one connection: synchronous senders that poll it, an asynchronous
    queue with the drain task it spawns, all on one cooperative thread. A step is what a
    task does between two points where it may be suspended. */
module RtmpSendLock {
  import opened Bytes
  import opened RtmpChunkStream
  import opened RtmpChunkSender
  import opened RtmpServerSender

  /** A queued message with the order in which it was queued. */
  datatype Item = Item(ticket: nat, msg: Message)

  datatype Task =
    | Polling(msg: Message)
    | Sending(msg: Message, pos: nat)
    | Spawned
    | Draining(item: Item, pos: nat)
    | Ended(ok: bool, call: Option<Message>)

  /** `tasks` lists every task ever started. `log` lists the messages sent in full, `drained`
      those of them that came off the queue, `queued` everything ever queued. `failed` is
      set by the first failing send, `stuck` by a failing send of the drain task. */
  datatype System = System(
    chunkSize: int,
    sending: bool,
    queue: seq<Item>,
    tasks: seq<Task>,
    wire: seq<byte>,
    log: seq<Message>,
    queued: seq<Item>,
    drained: seq<Item>,
    failed: bool,
    stuck: bool)

  datatype Action =
    | Call(msg: Message)
    | Enqueue(msg: Message)
    | Poll(id: nat)
    | Begin(id: nat)
    | Write(id: nat, count: nat)
    | Finish(id: nat)
    | Fail(id: nat)

  function Start(chunkSize: int): System {
    System(chunkSize, false, [], [], [], [], [], [], false, false)
  }

  /** A task that holds the connection: it is inside `_sendRtmpMessage`, or is the drain task
      that has been spawned to go there. */
  predicate Inside(t: Task) {
    t.Sending? || t.Spawned? || t.Draining?
  }

  predicate Writing(t: Task) {
    t.Sending? || t.Draining?
  }

  /** The bytes a task inside `_sendRtmpMessage` has to write. */
  function Data(s: System, t: Task): seq<byte>
    requires Writing(t) && s.chunkSize > 0
  {
    ChunkBytes(if t.Sending? then t.msg else t.item.msg, s.chunkSize)
  }

  /** `send_handler_`: spawn a drain task if there is work and nobody is sending. */
  function Handler(s: System): System {
    if s.queue == [] || s.sending then s
    else s.(sending := true, tasks := s.tasks + [Spawned])
  }

  /** The position of an item in the queue, or the queue's length. */
  function IndexOf(queue: seq<Item>, item: Item): (i: nat)
    ensures i <= |queue|
  {
    if queue == [] || queue[0] == item then 0 else 1 + IndexOf(queue[1..], item)
  }

  /** The drain task turns to the element at `i`, or stops sending behind the last one. */
  function DrainAt(s: System, id: nat, i: nat): System
    requires id < |s.tasks|
  {
    if i < |s.queue| then s.(tasks := s.tasks[id := Draining(s.queue[i], 0)])
    else s.(sending := false, tasks := s.tasks[id := Ended(true, None)])
  }

  predicate Enabled(s: System, a: Action) {
    s.chunkSize > 0 &&
    match a
    case Call(_) => true
    case Enqueue(_) => true
    case Poll(id) => id < |s.tasks| && s.tasks[id].Polling?
    case Begin(id) => id < |s.tasks| && s.tasks[id].Spawned?
    case Write(id, count) =>
      && id < |s.tasks| && Writing(s.tasks[id])
      && 0 < count && s.tasks[id].pos + count <= |Data(s, s.tasks[id])|
    case Finish(id) => id < |s.tasks| && Writing(s.tasks[id]) && s.tasks[id].pos == |Data(s, s.tasks[id])|
    case Fail(id) => id < |s.tasks| && Writing(s.tasks[id])
  }

  function Next(s: System, a: Action): System
    requires Enabled(s, a)
  {
    match a
    case Call(m) => s.(tasks := s.tasks + [Polling(m)])
    case Enqueue(m) =>
      var item := Item(|s.queued|, m);
      Handler(s.(queue := s.queue + [item], queued := s.queued + [item]))
    case Poll(id) =>
      if s.sending then s
      else s.(sending := true, tasks := s.tasks[id := Sending(s.tasks[id].msg, 0)])
    case Begin(id) => DrainAt(s, id, 0)
    case Write(id, count) =>
      var t := s.tasks[id];
      s.(wire := s.wire + Data(s, t)[t.pos..t.pos + count], tasks := s.tasks[id := t.(pos := t.pos + count)])
    case Finish(id) =>
      var t := s.tasks[id];
      if t.Sending? then
        Handler(s.(sending := false, log := s.log + [t.msg], tasks := s.tasks[id := Ended(true, Some(t.msg))]))
      else
        var i := IndexOf(s.queue, t.item);
        if i == |s.queue| then s.(tasks := s.tasks[id := Ended(false, None)])
        else
          var taken := s.(queue := s.queue[..i] + s.queue[i + 1..]);
          DrainAt(taken.(log := s.log + [t.item.msg], drained := s.drained + [t.item]), id, i)
    case Fail(id) =>
      var t := s.tasks[id];
      if t.Sending? then
        Handler(s.(sending := false, failed := true, tasks := s.tasks[id := Ended(false, Some(t.msg))]))
      else s.(failed := true, stuck := true, tasks := s.tasks[id := Ended(false, None)])
  }

  // ------------------------------------------------------------------
  // The invariant

  /** At most one task holds the connection. */
  predicate AtMostOneInside(s: System) {
    forall i, j :: 0 <= i < |s.tasks| && 0 <= j < |s.tasks| && Inside(s.tasks[i]) && Inside(s.tasks[j]) ==> i == j
  }

  /** A task inside says so in the flag; the flag without such a task means the drain failed. */
  predicate FlagTells(s: System) {
    && (forall i :: 0 <= i < |s.tasks| && Inside(s.tasks[i]) ==> s.sending && !s.stuck)
    && (s.sending && !s.stuck ==> exists i :: 0 <= i < |s.tasks| && Inside(s.tasks[i]))
    && (s.stuck ==> s.sending && s.failed)
  }

  /** Whoever drains is at the head of the queue. */
  predicate DrainsHead(s: System) {
    forall i :: 0 <= i < |s.tasks| && s.tasks[i].Draining? ==> s.queue != [] && s.tasks[i].item == s.queue[0]
  }

  /** Work is never left behind with nobody sending. */
  predicate NoLostWakeup(s: System) {
    !s.sending ==> s.queue == []
  }

  /** Everything queued has been drained, in order and once, or is still queued, in order. */
  predicate Fifo(s: System) {
    s.queued == s.drained + s.queue
  }

  predicate TicketsOk(s: System) {
    forall i :: 0 <= i < |s.queued| ==> s.queued[i].ticket == i
  }

  predicate PositionsOk(s: System) {
    s.chunkSize > 0 && forall i :: 0 <= i < |s.tasks| && Writing(s.tasks[i]) ==> s.tasks[i].pos <= |Data(s, s.tasks[i])|
  }

  /** The wire carries whole messages one after another, and then what the one inside has
      written of its own. */
  predicate WireWhole(s: System)
    requires PositionsOk(s)
  {
    var done := ServerWire(s.log, s.chunkSize);
    && (forall i :: 0 <= i < |s.tasks| && Writing(s.tasks[i]) ==>
          s.wire == done + Data(s, s.tasks[i])[..s.tasks[i].pos])
    && ((forall i :: 0 <= i < |s.tasks| ==> !Writing(s.tasks[i])) ==> s.wire == done)
  }

  predicate Safe(s: System) {
    && AtMostOneInside(s) && FlagTells(s) && DrainsHead(s) && NoLostWakeup(s)
    && Fifo(s) && TicketsOk(s) && PositionsOk(s)
    && (!s.failed ==> WireWhole(s))
  }

  lemma StartSafe(chunkSize: int)
    requires chunkSize > 0
    ensures Safe(Start(chunkSize))
  {
  }

  lemma CallSafe(s: System, m: Message)
    requires Safe(s)
    ensures Safe(Next(s, Call(m)))
  {
    hide ChunkBytes, ServerWire;
    var n := Next(s, Call(m));
    assert forall i :: 0 <= i < |s.tasks| ==> n.tasks[i] == s.tasks[i];
  }

  lemma PollSafe(s: System, id: nat)
    requires Safe(s) && Enabled(s, Poll(id))
    ensures Safe(Next(s, Poll(id)))
  {
    if !s.sending {
      assert forall i :: 0 <= i < |s.tasks| ==> !Inside(s.tasks[i]);
      var n := Next(s, Poll(id));
      assert Inside(n.tasks[id]);
      assert Data(n, n.tasks[id])[..0] == [];
      assert s.wire + [] == s.wire;
    }
  }

  lemma BeginSafe(s: System, id: nat)
    requires Safe(s) && Enabled(s, Begin(id))
    ensures Safe(Next(s, Begin(id)))
  {
    var n := Next(s, Begin(id));
    assert Inside(s.tasks[id]);
    assert forall i :: 0 <= i < |s.tasks| && i != id ==> !Inside(s.tasks[i]) && n.tasks[i] == s.tasks[i];
    if s.queue != [] {
      assert Inside(n.tasks[id]);
      assert Data(n, n.tasks[id])[..0] == [];
      assert s.wire + [] == s.wire;
    }
  }

  lemma Extend(done: seq<byte>, data: seq<byte>, pos: nat, count: nat)
    requires pos + count <= |data|
    ensures done + data[..pos] + data[pos..pos + count] == done + data[..pos + count]
  {
  }

  lemma WriteSafe(s: System, id: nat, count: nat)
    requires Safe(s) && Enabled(s, Write(id, count))
    ensures Safe(Next(s, Write(id, count)))
  {
    hide ChunkBytes, ServerWire;
    var n := Next(s, Write(id, count));
    var t := s.tasks[id];
    assert Inside(t) && Inside(n.tasks[id]);
    assert forall i :: 0 <= i < |s.tasks| && i != id ==> !Inside(s.tasks[i]) && n.tasks[i] == s.tasks[i];
    assert Data(n, n.tasks[id]) == Data(s, t);
    Extend(ServerWire(s.log, s.chunkSize), Data(s, t), t.pos, count);
  }

  lemma HandlerSafe(s: System)
    requires AtMostOneInside(s) && FlagTells(s) && DrainsHead(s)
    requires Fifo(s) && TicketsOk(s) && PositionsOk(s) && (!s.failed ==> WireWhole(s))
    ensures Safe(Handler(s))
  {
    var n := Handler(s);
    if s.queue != [] && !s.sending {
      assert forall i :: 0 <= i < |s.tasks| ==> !Inside(s.tasks[i]) && n.tasks[i] == s.tasks[i];
      assert Inside(n.tasks[|s.tasks|]);
    }
  }

  lemma EnqueueSafe(s: System, m: Message)
    requires Safe(s)
    ensures Safe(Next(s, Enqueue(m)))
  {
    var item := Item(|s.queued|, m);
    var mid := s.(queue := s.queue + [item], queued := s.queued + [item]);
    assert s.drained + (s.queue + [item]) == (s.drained + s.queue) + [item];
    HandlerSafe(mid);
  }

  lemma SyncEndSafe(s: System, id: nat, ok: bool)
    requires Safe(s) && id < |s.tasks| && s.tasks[id].Sending?
    requires ok ==> Enabled(s, Finish(id))
    ensures Safe(Next(s, if ok then Finish(id) else Fail(id)))
  {
    var t := s.tasks[id];
    var mid := if ok then s.(sending := false, log := s.log + [t.msg], tasks := s.tasks[id := Ended(true, Some(t.msg))])
               else s.(sending := false, failed := true, tasks := s.tasks[id := Ended(false, Some(t.msg))]);
    assert Inside(t);
    assert forall i :: 0 <= i < |mid.tasks| ==> !Inside(mid.tasks[i]);
    if ok && !s.failed {
      ServerWireSnoc(s.log, t.msg, s.chunkSize);
      assert Data(s, t)[..t.pos] == Data(s, t);
    }
    HandlerSafe(mid);
  }

  lemma DrainFinishSafe(s: System, id: nat)
    requires Safe(s) && Enabled(s, Finish(id)) && s.tasks[id].Draining?
    ensures Safe(Next(s, Finish(id)))
  {
    hide ChunkBytes, ServerWire;
    var t := s.tasks[id];
    var n := Next(s, Finish(id));
    assert Inside(t);
    DrainFinishShape(s, id);
    assert s.drained + s.queue == (s.drained + [s.queue[0]]) + s.queue[1..];
    assert forall i :: 0 <= i < |s.tasks| && i != id ==> !Inside(s.tasks[i]) && n.tasks[i] == s.tasks[i];
    if !s.failed {
      ServerWireSnoc(s.log, t.item.msg, s.chunkSize);
      assert Data(s, t)[..t.pos] == Data(s, t);
      assert n.wire + [] == n.wire;
    }
    if |s.queue| > 1 {
      assert Inside(n.tasks[id]);
      assert Data(n, n.tasks[id])[..0] == [];
    }
  }

  /** A drain task at the head of the queue takes exactly the head off. */
  lemma DrainFinishShape(s: System, id: nat)
    requires Enabled(s, Finish(id)) && s.tasks[id].Draining?
    requires s.queue != [] && s.tasks[id].item == s.queue[0]
    ensures var item := s.queue[0];
            var mid := s.(queue := s.queue[1..], log := s.log + [item.msg], drained := s.drained + [item]);
            Next(s, Finish(id)) == DrainAt(mid, id, 0)
  {
    hide Handler, Data, DrainAt, IndexOf;
    HeadIsFirst(s.queue);
  }

  lemma HeadIsFirst(queue: seq<Item>)
    requires queue != []
    ensures IndexOf(queue, queue[0]) == 0 && queue[..0] + queue[1..] == queue[1..]
  {
  }

  lemma DrainFailSafe(s: System, id: nat)
    requires Safe(s) && id < |s.tasks| && s.tasks[id].Draining?
    ensures Safe(Next(s, Fail(id)))
  {
    var n := Next(s, Fail(id));
    assert Inside(s.tasks[id]);
    assert forall i :: 0 <= i < |n.tasks| ==> !Inside(n.tasks[i]);
  }

  /** Every step of every task keeps the whole invariant. */
  lemma StepSafe(s: System, a: Action)
    requires Safe(s) && Enabled(s, a)
    ensures Safe(Next(s, a))
  {
    match a
    case Call(m) => CallSafe(s, m);
    case Enqueue(m) => EnqueueSafe(s, m);
    case Poll(id) => PollSafe(s, id);
    case Begin(id) => BeginSafe(s, id);
    case Write(id, count) => WriteSafe(s, id, count);
    case Finish(id) =>
      if s.tasks[id].Sending? {
        SyncEndSafe(s, id, true);
      } else {
        DrainFinishSafe(s, id);
      }
    case Fail(id) =>
      if s.tasks[id].Sending? {
        SyncEndSafe(s, id, false);
      } else {
        DrainFailSafe(s, id);
      }
  }

  predicate AllEnabled(s: System, acts: seq<Action>)
    decreases |acts|
  {
    acts == [] || (Enabled(s, acts[0]) && AllEnabled(Next(s, acts[0]), acts[1..]))
  }

  function Last(s: System, acts: seq<Action>): System
    requires AllEnabled(s, acts)
    decreases |acts|
  {
    if acts == [] then s else Last(Next(s, acts[0]), acts[1..])
  }

  /** In every interleaving of synchronous senders, enqueues and drain tasks, at every
      scheduling point: one task at most holds the connection, work never waits with nobody
      sending, queued messages leave in order and once each, and until a send fails the
      wire carries whole messages one after another. */
  lemma {:induction false} EveryRunSafe(s: System, acts: seq<Action>)
    requires Safe(s) && AllEnabled(s, acts)
    ensures Safe(Last(s, acts))
    decreases |acts|
  {
    if acts != [] {
      StepSafe(s, acts[0]);
      EveryRunSafe(Next(s, acts[0]), acts[1..]);
    }
  }

  // ------------------------------------------------------------------
  // Every message that was handed over is accounted for

  /** The messages of a run's enqueues and of its calls. */
  function Enqueued(acts: seq<Action>): seq<Message> {
    if acts == [] then [] else (if acts[0].Enqueue? then [acts[0].msg] else []) + Enqueued(acts[1..])
  }

  function Called(acts: seq<Action>): seq<Message> {
    if acts == [] then [] else (if acts[0].Call? then [acts[0].msg] else []) + Called(acts[1..])
  }

  function MessagesOf(items: seq<Item>): seq<Message> {
    if items == [] then [] else MessagesOf(items[..|items| - 1]) + [items[|items| - 1].msg]
  }

  /** The message of a synchronous call, whatever has become of it; and the same if it was sent. */
  function CallOf(t: Task): seq<Message> {
    match t
    case Polling(m) => [m]
    case Sending(m, _) => [m]
    case Ended(_, Some(m)) => [m]
    case _ => []
  }

  function SentCallOf(t: Task): seq<Message> {
    if t.Ended? && t.ok then CallOf(t) else []
  }

  function Each(ts: seq<Task>, f: Task -> seq<Message>): seq<Message> {
    if ts == [] then [] else f(ts[0]) + Each(ts[1..], f)
  }

  lemma {:induction false} EachAppend(a: seq<Task>, b: seq<Task>, f: Task -> seq<Message>)
    ensures Each(a + b, f) == Each(a, f) + Each(b, f)
  {
    if a == [] {
      assert a + b == b;
    } else {
      assert (a + b)[1..] == a[1..] + b;
      EachAppend(a[1..], b, f);
    }
  }

  lemma EachOne(t: Task, f: Task -> seq<Message>)
    ensures Each([t], f) == f(t)
  {
    assert [t][1..] == [];
  }

  /** What one task contributes stands between what those before and behind it do. */
  lemma EachUpdate(ts: seq<Task>, id: nat, t: Task, f: Task -> seq<Message>)
    requires id < |ts|
    ensures Each(ts, f) == Each(ts[..id], f) + f(ts[id]) + Each(ts[id + 1..], f)
    ensures Each(ts[id := t], f) == Each(ts[..id], f) + f(t) + Each(ts[id + 1..], f)
  {
    var a, b := ts[..id], ts[id + 1..];
    assert ts == a + [ts[id]] + b && ts[id := t] == a + [t] + b;
    EachAppend(a + [ts[id]], b, f);
    EachAppend(a, [ts[id]], f);
    EachOne(ts[id], f);
    EachAppend(a + [t], b, f);
    EachAppend(a, [t], f);
    EachOne(t, f);
  }

  lemma EachMore(ts: seq<Task>, t: Task, f: Task -> seq<Message>)
    ensures Each(ts + [t], f) == Each(ts, f) + f(t)
  {
    EachAppend(ts, [t], f);
    EachOne(t, f);
  }

  lemma MessagesOfMore(items: seq<Item>, item: Item)
    ensures MessagesOf(items + [item]) == MessagesOf(items) + [item.msg]
  {
    assert (items + [item])[..|items|] == items;
  }

  /** The log is made of the messages drained and the calls that were sent. */
  ghost predicate LogAccounted(s: System) {
    multiset(s.log) == multiset(MessagesOf(s.drained)) + multiset(Each(s.tasks, SentCallOf))
  }

  /** Spawning a drain task leaves every account as it is. */
  lemma HandlerAccounts(s: System)
    ensures var n := Handler(s);
            && n.queued == s.queued && n.drained == s.drained && n.log == s.log
            && Each(n.tasks, CallOf) == Each(s.tasks, CallOf) && Each(n.tasks, SentCallOf) == Each(s.tasks, SentCallOf)
  {
    EachMore(s.tasks, Spawned, CallOf);
    EachMore(s.tasks, Spawned, SentCallOf);
  }

  /** The accounts before and after a step: what the action hands over is added, and nothing else
      appears or disappears. */
  ghost predicate Accounts(s: System, n: System, enqueued: seq<Message>, called: seq<Message>) {
    && MessagesOf(n.queued) == MessagesOf(s.queued) + enqueued
    && Each(n.tasks, CallOf) == Each(s.tasks, CallOf) + called
    && (LogAccounted(s) ==> LogAccounted(n))
  }

  /** A task that moves on without having sent a call. */
  lemma QuietUpdate(s: System, id: nat, t: Task)
    requires id < |s.tasks| && CallOf(t) == CallOf(s.tasks[id])
    requires SentCallOf(s.tasks[id]) == [] == SentCallOf(t)
    ensures Each(s.tasks[id := t], CallOf) == Each(s.tasks, CallOf)
    ensures Each(s.tasks[id := t], SentCallOf) == Each(s.tasks, SentCallOf)
  {
    EachUpdate(s.tasks, id, t, CallOf);
    EachUpdate(s.tasks, id, t, SentCallOf);
  }

  /** A call that has been sent. */
  lemma SentUpdate(s: System, id: nat)
    requires id < |s.tasks| && s.tasks[id].Sending?
    ensures var m := s.tasks[id].msg;
            var ts := s.tasks[id := Ended(true, Some(m))];
            && Each(ts, CallOf) == Each(s.tasks, CallOf)
            && multiset(Each(ts, SentCallOf)) == multiset(Each(s.tasks, SentCallOf)) + multiset{m}
  {
    var m := s.tasks[id].msg;
    var t := Ended(true, Some(m));
    EachUpdate(s.tasks, id, t, CallOf);
    EachUpdate(s.tasks, id, t, SentCallOf);
    Inserted(Each(s.tasks[..id], SentCallOf), m, Each(s.tasks[id + 1..], SentCallOf));
  }

  lemma Inserted(a: seq<Message>, m: Message, b: seq<Message>)
    ensures multiset(a + [m] + b) == multiset(a + [] + b) + multiset{m}
  {
    assert a + [] == a;
  }

  lemma Unchanged(s: System, n: System)
    requires n.queued == s.queued && n.drained == s.drained && n.log == s.log
    requires Each(n.tasks, CallOf) == Each(s.tasks, CallOf) && Each(n.tasks, SentCallOf) == Each(s.tasks, SentCallOf)
    ensures Accounts(s, n, [], [])
  {
    hide MessagesOf, Each;
    assert MessagesOf(s.queued) + [] == MessagesOf(s.queued) && Each(s.tasks, CallOf) + [] == Each(s.tasks, CallOf);
  }

  lemma EnqueueAccounts(s: System, m: Message)
    requires Enabled(s, Enqueue(m))
    ensures Accounts(s, Next(s, Enqueue(m)), [m], [])
  {
    hide MessagesOf, Each, Handler;
    var item := Item(|s.queued|, m);
    MessagesOfMore(s.queued, item);
    HandlerAccounts(s.(queue := s.queue + [item], queued := s.queued + [item]));
    assert Each(s.tasks, CallOf) + [] == Each(s.tasks, CallOf);
  }

  lemma CallAccounts(s: System, m: Message)
    requires Enabled(s, Call(m))
    ensures Accounts(s, Next(s, Call(m)), [], [m])
  {
    hide MessagesOf, Each;
    EachMore(s.tasks, Polling(m), CallOf);
    EachMore(s.tasks, Polling(m), SentCallOf);
    assert Each(s.tasks, SentCallOf) + [] == Each(s.tasks, SentCallOf);
    assert MessagesOf(s.queued) + [] == MessagesOf(s.queued);
  }

  lemma SyncFinishAccounts(s: System, id: nat)
    requires Enabled(s, Finish(id)) && s.tasks[id].Sending?
    ensures Accounts(s, Next(s, Finish(id)), [], [])
  {
    hide MessagesOf, Each, Handler, Data;
    var t := s.tasks[id];
    var mid := s.(sending := false, log := s.log + [t.msg], tasks := s.tasks[id := Ended(true, Some(t.msg))]);
    SentUpdate(s, id);
    HandlerAccounts(mid);
    assert MessagesOf(s.queued) + [] == MessagesOf(s.queued) && Each(s.tasks, CallOf) + [] == Each(s.tasks, CallOf);
    assert multiset(s.log + [t.msg]) == multiset(s.log) + multiset{t.msg};
  }

  lemma FailAccounts(s: System, id: nat)
    requires Enabled(s, Fail(id))
    ensures Accounts(s, Next(s, Fail(id)), [], [])
  {
    hide MessagesOf, Each, Handler, Data, Accounts;
    var t := s.tasks[id];
    var end := Ended(false, if t.Sending? then Some(t.msg) else None);
    QuietUpdate(s, id, end);
    HandlerAccounts(s.(sending := false, failed := true, tasks := s.tasks[id := end]));
    Unchanged(s, Next(s, Fail(id)));
  }

  lemma DrainAccounts(s: System, id: nat)
    requires Enabled(s, Finish(id)) && s.tasks[id].Draining?
    ensures Accounts(s, Next(s, Finish(id)), [], [])
  {
    hide MessagesOf, Each, Data;
    var t := s.tasks[id];
    var n := Next(s, Finish(id));
    assert n.tasks == s.tasks[id := n.tasks[id]];
    QuietUpdate(s, id, n.tasks[id]);
    MessagesOfMore(s.drained, t.item);
    assert MessagesOf(s.queued) + [] == MessagesOf(s.queued) && Each(s.tasks, CallOf) + [] == Each(s.tasks, CallOf);
    assert multiset(s.log + [t.item.msg]) == multiset(s.log) + multiset{t.item.msg};
    assert multiset(MessagesOf(s.drained) + [t.item.msg]) == multiset(MessagesOf(s.drained)) + multiset{t.item.msg};
  }

  lemma QuietStep(s: System, a: Action)
    requires Enabled(s, a) && (a.Poll? || a.Begin? || a.Write?)
    ensures Accounts(s, Next(s, a), [], [])
  {
    hide MessagesOf, Each, Data, Accounts;
    var n := Next(s, a);
    assert n.tasks == s.tasks[a.id := n.tasks[a.id]];
    QuietUpdate(s, a.id, n.tasks[a.id]);
    Unchanged(s, n);
  }

  lemma StepAccounts(s: System, a: Action)
    requires Enabled(s, a)
    ensures Accounts(s, Next(s, a), if a.Enqueue? then [a.msg] else [], if a.Call? then [a.msg] else [])
  {
    hide Next, Accounts;
    match a
    case Call(m) => CallAccounts(s, m);
    case Enqueue(m) => EnqueueAccounts(s, m);
    case Poll(id) => QuietStep(s, a);
    case Begin(id) => QuietStep(s, a);
    case Write(id, count) => QuietStep(s, a);
    case Finish(id) =>
      if s.tasks[id].Sending? {
        SyncFinishAccounts(s, id);
      } else {
        DrainAccounts(s, id);
      }
    case Fail(id) => FailAccounts(s, id);
  }

  /** Over every run: the queue has been given exactly the messages enqueued, in order; every
      call has its task, in order; and the log is made of what was drained and the calls sent. */
  lemma {:induction false} RunAccounts(s: System, acts: seq<Action>)
    requires AllEnabled(s, acts)
    ensures Accounts(s, Last(s, acts), Enqueued(acts), Called(acts))
    decreases |acts|
  {
    hide Next, Enabled, MessagesOf, Each, LogAccounted;
    if acts == [] {
      assert MessagesOf(s.queued) + [] == MessagesOf(s.queued) && Each(s.tasks, CallOf) + [] == Each(s.tasks, CallOf);
    } else {
      StepAccounts(s, acts[0]);
      RunAccounts(Next(s, acts[0]), acts[1..]);
      Assoc(MessagesOf(s.queued), if acts[0].Enqueue? then [acts[0].msg] else [], Enqueued(acts[1..]));
      Assoc(Each(s.tasks, CallOf), if acts[0].Call? then [acts[0].msg] else [], Called(acts[1..]));
    }
  }

  lemma {:induction false} MessagesOfAppend(a: seq<Item>, b: seq<Item>)
    ensures MessagesOf(a + b) == MessagesOf(a) + MessagesOf(b)
  {
    if b == [] {
      assert a + b == a;
    } else {
      assert (a + b)[..|a + b| - 1] == a + b[..|b| - 1];
      MessagesOfAppend(a, b[..|b| - 1]);
    }
  }

  lemma StartAccounts(chunkSize: int)
    ensures var s := Start(chunkSize);
            LogAccounted(s) && MessagesOf(s.queued) == [] && Each(s.tasks, CallOf) == []
  {
  }

  /** From the start of a connection: no message handed over is missing. Those enqueued have been
      drained or are queued, in the order they were handed over; each call still has its task;
      and the log holds the drained messages and the calls that were sent, and no others. */
  lemma NothingMissing(chunkSize: int, acts: seq<Action>)
    requires chunkSize > 0 && AllEnabled(Start(chunkSize), acts)
    ensures var l := Last(Start(chunkSize), acts);
            && MessagesOf(l.drained) + MessagesOf(l.queue) == Enqueued(acts)
            && Each(l.tasks, CallOf) == Called(acts)
            && LogAccounted(l)
  {
    var s := Start(chunkSize);
    StartAccounts(chunkSize);
    StartSafe(chunkSize);
    hide Safe, Start, Next, Enabled, MessagesOf, Each, LogAccounted, AllEnabled;
    EveryRunSafe(s, acts);
    RunAccounts(s, acts);
    var l := Last(s, acts);
    MessagesOfAppend(l.drained, l.queue);
    assert [] + Enqueued(acts) == Enqueued(acts) && [] + Called(acts) == Called(acts);
  }

  // ------------------------------------------------------------------
  // Progress

  /** What the holder of the connection may do next, short of failing. */
  predicate HolderStep(s: System, a: Action) {
    Enabled(s, a) && (a.Begin? || a.Write? || a.Finish?)
  }

  /** Queued work always has somebody to carry it out, unless the drain's send failed. */
  lemma WorkHasAHolder(s: System)
    requires Safe(s) && s.queue != [] && !s.stuck
    ensures exists a :: HolderStep(s, a)
  {
    var i :| 0 <= i < |s.tasks| && Inside(s.tasks[i]);
    var t := s.tasks[i];
    if t.Spawned? {
      assert HolderStep(s, Begin(i));
    } else if t.pos < |Data(s, t)| {
      assert HolderStep(s, Write(i, 1));
    } else {
      assert HolderStep(s, Finish(i));
    }
  }

  /** How far the holder is from the head of the queue: a synchronous sender comes before
      the drain task, which comes before the draining itself. */
  function Stage(t: Task): nat {
    if t.Sending? then 2 else if t.Spawned? then 1 else 0
  }

  function Unwritten(s: System, t: Task): nat
    requires s.chunkSize > 0 && Writing(t) ==> t.pos <= |Data(s, t)|
    requires s.chunkSize > 0
  {
    if Writing(t) then |Data(s, t)| - t.pos else 0
  }

  /** The holder `u` of state `n` is closer to the head of the queue than `t` was in `s`. */
  predicate Closer(n: System, u: Task, s: System, t: Task)
    requires PositionsOk(n) && PositionsOk(s)
    requires Writing(u) ==> u.pos <= |Data(n, u)|
    requires Writing(t) ==> t.pos <= |Data(s, t)|
  {
    Stage(u) < Stage(t) || (Stage(u) == Stage(t) && Unwritten(n, u) < Unwritten(s, t))
  }

  /** A step of the holder brings the queue closer to empty: the queue is shorter, or its
      new holder is closer to the head of it. */
  lemma HolderMakesProgress(s: System, a: Action)
    requires Safe(s) && HolderStep(s, a) && s.queue != []
    ensures Safe(Next(s, a)) && Next(s, a).queued == s.queued && Next(s, a).stuck == s.stuck
    ensures var n := Next(s, a);
            |n.queue| < |s.queue| ||
            (n.queue == s.queue &&
             forall j :: 0 <= j < |n.tasks| && Inside(n.tasks[j]) ==> Closer(n, n.tasks[j], s, s.tasks[a.id]))
  {
    hide ChunkBytes;
    var n := Next(s, a);
    var t := s.tasks[a.id];
    StepSafe(s, a);
    match a
    case Begin(id) =>
      assert Inside(n.tasks[id]);
    case Write(id, _) =>
      assert Inside(n.tasks[id]) && Data(n, n.tasks[id]) == Data(s, t);
    case Finish(id) =>
      if t.Sending? {
        assert Inside(n.tasks[|s.tasks|]);
      } else {
        DrainFinishShape(s, id);
      }
  }

  /** However the holder was interrupted, letting it run empties the queue, provided its
      sends do not fail. */
  lemma QueueDrains(s: System, i: nat) returns (acts: seq<Action>)
    requires Safe(s) && !s.stuck
    requires s.queue != [] ==> i < |s.tasks| && Inside(s.tasks[i])
    ensures AllEnabled(s, acts)
    ensures forall k :: 0 <= k < |acts| ==> acts[k].Begin? || acts[k].Write? || acts[k].Finish?
    ensures Last(s, acts).queue == [] && Last(s, acts).drained == s.queued
    decreases |s.queue|, if s.queue == [] then 0 else Stage(s.tasks[i]),
              if s.queue == [] then 0 else Unwritten(s, s.tasks[i])
  {
    hide ChunkBytes;
    if s.queue == [] {
      assert s.drained + [] == s.drained;
      acts := [];
    } else {
      var t := s.tasks[i];
      var a := if t.Spawned? then Begin(i) else if t.pos < |Data(s, t)| then Write(i, 1) else Finish(i);
      HolderMakesProgress(s, a);
      var n := Next(s, a);
      var j := 0;
      if n.queue != [] {
        j :| 0 <= j < |n.tasks| && Inside(n.tasks[j]);
      }
      var more := QueueDrains(n, j);
      acts := [a] + more;
      assert acts[1..] == more;
    }
  }

  /** Whenever nobody is in the middle of a message and no send has failed, a peer recovers
      exactly the messages logged as sent, in that order, as far as its session listens. */
  lemma {:induction false} PeerRecoversLog(s: System, accept: Message -> bool)
    requires Safe(s) && !s.failed && s.chunkSize < 0x8000_0000
    requires forall i :: 0 <= i < |s.tasks| ==> !Writing(s.tasks[i])
    requires forall i :: 0 <= i < |s.log| ==> Conveyable(s.log[i]) && !IsControl(s.log[i])
    ensures HandedUp(Run(Receiver(s.chunkSize, map[]), s.wire, accept), Tagged(s.log), accept)
  {
    var p := Sender(s.chunkSize, map[]);
    FreshMirror(p);
    SessionRoundTrip(p, s.log, accept);
  }
}
