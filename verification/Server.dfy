/** The server of `Server.cpp`: accepted sockets get a spawn id each, all of them push to one incoming queue, and one
    consumer drains it in batches. */
module Servers {
  import opened Payloads
  import opened PayloadLogging
  import opened AtomicQueues
  import opened PayloadSenders
  import opened PayloadReceivers
  import C = Connections

  /** A client connects, and may start sending, before the server's accept callback gives it a spawn id. */
  datatype Client = Client(conn: C.Connection, accepted: bool, spawnId: int)

  /** `batch` is the consumer's local queue, `dropped` what a break left in it. */
  datatype System = System(
    spawnCount: nat, clients: seq<Client>, queue: seq<SpawnedPayload>,
    batch: seq<SpawnedPayload>, processed: seq<SpawnedPayload>, dropped: seq<SpawnedPayload>, stopped: bool)

  const NEW_SYSTEM := System(0, [], [], [], [], [], false)

  datatype Event =
    | Connect(sendLimit: Limit, receiveLimit: Limit)
    | Accept(i: nat)
    | AcceptFailed
    | Net(client: nat, e: C.Event)
    | Drain
    | Process(shouldBreak: bool)

  predicate MayHappen(s: System, e: Event) {
    match e
    case Connect(_, _) => true
    case Accept(i) => i < |s.clients| && !s.clients[i].accepted
    case AcceptFailed => true
    case Net(i, n) => i < |s.clients| && !n.StartReceiving? && C.MayHappen(s.clients[i].conn, n) &&
      C.Guarded(s.clients[i].conn, n)
    case Drain => s.batch == [] && !s.stopped
    case Process(_) => s.batch != [] && !s.stopped
  }

  /** The accept callback: the new socket's receiver carries the count, and starts at once. */
  function Accepted(c: Client, spawnId: int): Client {
    Client(c.conn.(receiver := Start(NewReceiver(spawnId))), true, spawnId)
  }

  function Pushed(c: C.Connection, d: C.Connection): seq<SpawnedPayload>
    requires c.delivered <= d.delivered
  {
    d.delivered[|c.delivered|..]
  }

  function Step(s: System, e: Event): System
    requires MayHappen(s, e)
  {
    match e
    case Connect(sl, rl) => s.(clients := s.clients + [Client(C.NewConnection(0, sl, rl), false, 0)])
    case Accept(i) =>
      s.(spawnCount := s.spawnCount + 1, clients := s.clients[i := Accepted(s.clients[i], s.spawnCount + 1)])
    case AcceptFailed => s.(spawnCount := s.spawnCount + 1)
    case Net(i, n) =>
      var c := s.clients[i];
      var d := C.Step(c.conn, n);
      s.(clients := s.clients[i := c.(conn := d)], queue := s.queue + Pushed(c.conn, d))
    case Drain => s.(batch := s.queue, queue := [])
    case Process(shouldBreak) =>
      var t := s.(processed := s.processed + [s.batch[0]], batch := s.batch[1..]);
      if shouldBreak then t.(stopped := true, dropped := t.batch, batch := []) else t
  }

  predicate IsRun(s: System, run: seq<Event>)
    decreases |run|
  {
    run == [] || (MayHappen(s, run[0]) && IsRun(Step(s, run[0]), run[1..]))
  }

  function Final(s: System, run: seq<Event>): System
    requires IsRun(s, run)
    decreases |run|
  {
    if run == [] then s else Final(Step(s, run[0]), run[1..])
  }

  lemma {:induction false} StoppedStays(s: System, run: seq<Event>)
    requires s.stopped && IsRun(s, run)
    ensures var r := Final(s, run);
      r.stopped && r.processed == s.processed && r.dropped == s.dropped && r.batch == s.batch
    decreases |run|
  {
    if run != [] {
      StoppedStays(Step(s, run[0]), run[1..]);
    }
  }

  /** A break is for good: the payload it was returned for is the last one processed, and the rest of its batch is lost,
      whatever still comes in. */
  lemma BreakIsFinal(s: System, run: seq<Event>)
    requires MayHappen(s, Process(true)) && IsRun(Step(s, Process(true)), run)
    ensures var r := Final(Step(s, Process(true)), run);
      && r.processed == s.processed + [s.batch[0]]
      && r.dropped == s.batch[1..] && r.batch == []
      && forall e: Event :: (e.Drain? || e.Process?) ==> !MayHappen(r, e)
  {
    StoppedStays(Step(s, Process(true)), run);
  }

  /** Calls of the accept callback, failed ones included. */
  function Accepts(run: seq<Event>): nat {
    if run == [] then 0 else (if run[0].Accept? || run[0].AcceptFailed? then 1 else 0) + Accepts(run[1..])
  }

  lemma {:induction false} CountIsAccepts(s: System, run: seq<Event>)
    requires IsRun(s, run)
    ensures Final(s, run).spawnCount == s.spawnCount + Accepts(run)
    decreases |run|
  {
    if run != [] {
      CountIsAccepts(Step(s, run[0]), run[1..]);
    }
  }

  /** A client's spawn id is how often the accept callback has been called when it is accepted. */
  lemma SpawnIdIsTurn(run: seq<Event>, i: nat)
    requires IsRun(NEW_SYSTEM, run) && MayHappen(Final(NEW_SYSTEM, run), Accept(i))
    ensures var c := Step(Final(NEW_SYSTEM, run), Accept(i)).clients[i];
      c.accepted && c.spawnId == c.conn.receiver.buf.spawnId == Accepts(run) + 1
  {
    CountIsAccepts(NEW_SYSTEM, run);
  }

  // ---------------------------------------------------------------- per-client order

  function Own(p: SpawnedPayload, spawnId: int): seq<SpawnedPayload> {
    if p.spawnId == spawnId then [p] else []
  }

  /** The payloads of one client, in order. */
  function Restrict(ps: seq<SpawnedPayload>, spawnId: int): seq<SpawnedPayload> {
    if ps == [] then [] else Own(ps[0], spawnId) + Restrict(ps[1..], spawnId)
  }

  lemma {:induction false} RestrictConcat(a: seq<SpawnedPayload>, b: seq<SpawnedPayload>, spawnId: int)
    ensures Restrict(a + b, spawnId) == Restrict(a, spawnId) + Restrict(b, spawnId)
    decreases |a|
  {
    if a == [] {
      assert a + b == b;
    } else {
      assert (a + b)[1..] == a[1..] + b;
      RestrictConcat(a[1..], b, spawnId);
      Associate(Own(a[0], spawnId), Restrict(a[1..], spawnId), Restrict(b, spawnId));
    }
  }

  lemma {:induction false} RestrictOwn(ps: seq<SpawnedPayload>, spawnId: int)
    requires AllFrom(ps, spawnId)
    ensures Restrict(ps, spawnId) == ps
    decreases |ps|
  {
    if ps != [] {
      RestrictOwn(ps[1..], spawnId);
    }
  }

  lemma {:induction false} RestrictOther(ps: seq<SpawnedPayload>, spawnId: int)
    requires forall i :: 0 <= i < |ps| ==> ps[i].spawnId != spawnId
    ensures Restrict(ps, spawnId) == []
    decreases |ps|
  {
    if ps != [] {
      RestrictOther(ps[1..], spawnId);
    }
  }

  // ---------------------------------------------------------------- invariant

  /** Everything the receivers have pushed, oldest first. */
  function AllPushed(s: System): seq<SpawnedPayload> {
    s.processed + (s.batch + s.dropped + s.queue)
  }

  ghost predicate ClientOk(c: Client, spawnCount: nat) {
    && C.Invariant(c.conn, c.spawnId)
    && (if c.accepted then 1 <= c.spawnId <= spawnCount
        else c.spawnId == 0 && !c.conn.receiver.isProcessing)
  }

  predicate DistinctIds(clients: seq<Client>) {
    forall i, j :: 0 <= i < j < |clients| && clients[i].accepted && clients[j].accepted ==>
      clients[i].spawnId != clients[j].spawnId
  }

  /** Restricted to an id, what was pushed is what that client's receiver delivered. */
  ghost predicate QueuesAgree(clients: seq<Client>, pushed: seq<SpawnedPayload>) {
    forall i :: 0 <= i < |clients| && clients[i].accepted ==>
      Restrict(pushed, clients[i].spawnId) == clients[i].conn.delivered
  }

  predicate HasOwner(clients: seq<Client>, p: SpawnedPayload) {
    exists i :: 0 <= i < |clients| && clients[i].accepted && clients[i].spawnId == p.spawnId
  }

  ghost predicate Invariant(s: System) {
    && (forall i :: 0 <= i < |s.clients| ==> ClientOk(s.clients[i], s.spawnCount))
    && DistinctIds(s.clients)
    && QueuesAgree(s.clients, AllPushed(s))
    && (forall k :: 0 <= k < |AllPushed(s)| ==> HasOwner(s.clients, AllPushed(s)[k]))
    && (s.stopped ==> s.batch == []) && (!s.stopped ==> s.dropped == [])
  }

  lemma SameOwners(before: seq<Client>, after: seq<Client>, ps: seq<SpawnedPayload>)
    requires |before| <= |after|
    requires forall i :: 0 <= i < |before| && before[i].accepted ==>
      after[i].accepted && after[i].spawnId == before[i].spawnId
    requires forall k :: 0 <= k < |ps| ==> HasOwner(before, ps[k])
    ensures forall k :: 0 <= k < |ps| ==> HasOwner(after, ps[k])
  {
    forall k | 0 <= k < |ps| ensures HasOwner(after, ps[k]) {
      var i :| 0 <= i < |before| && before[i].accepted && before[i].spawnId == ps[k].spawnId;
      assert after[i].accepted && after[i].spawnId == ps[k].spawnId;
    }
  }

  lemma ConnectKeepsInvariant(s: System, sl: Limit, rl: Limit)
    requires Invariant(s)
    ensures Invariant(Step(s, Connect(sl, rl)))
  {
    hide C.Invariant, Restrict;
    C.NewConnectionInvariant(0, sl, rl);
    SameOwners(s.clients, Step(s, Connect(sl, rl)).clients, AllPushed(s));
  }

  /** A fresh id is one nobody has, so nothing has been pushed under it. */
  lemma NothingUnderFreshId(s: System)
    requires Invariant(s)
    ensures Restrict(AllPushed(s), s.spawnCount + 1) == []
  {
    var ps := AllPushed(s);
    forall k | 0 <= k < |ps| ensures ps[k].spawnId != s.spawnCount + 1 {
      assert HasOwner(s.clients, ps[k]);
      var i :| 0 <= i < |s.clients| && s.clients[i].accepted && s.clients[i].spawnId == ps[k].spawnId;
      assert ClientOk(s.clients[i], s.spawnCount);
    }
    RestrictOther(ps, s.spawnCount + 1);
  }

  lemma AcceptedClientOk(c: Client, spawnCount: nat)
    requires ClientOk(c, spawnCount) && !c.accepted
    ensures ClientOk(Accepted(c, spawnCount + 1), spawnCount + 1)
    ensures Accepted(c, spawnCount + 1).conn.delivered == []
  {
    var id := spawnCount + 1;
    var d := c.conn.(receiver := NewReceiver(id));
    assert C.ReceivingSide(d, id) by {
      assert Raws([]) == [] && ReceivedTraces([]) == [];
    }
    C.StartKeepsInvariant(d, id);
  }

  lemma AcceptKeepsInvariant(s: System, i: nat)
    requires Invariant(s) && MayHappen(s, Accept(i))
    ensures Invariant(Step(s, Accept(i)))
  {
    hide C.Invariant, Restrict;
    var t := Step(s, Accept(i));
    assert ClientOk(s.clients[i], s.spawnCount);
    AcceptedClientOk(s.clients[i], s.spawnCount);
    NothingUnderFreshId(s);
    forall k | 0 <= k < |t.clients| ensures ClientOk(t.clients[k], t.spawnCount) {
      assert ClientOk(s.clients[k], s.spawnCount);
    }
    SameOwners(s.clients, t.clients, AllPushed(s));
  }

  /** Only a completed read delivers. */
  lemma DeliveryShape(c: C.Connection, e: C.Event)
    requires C.MayHappen(c, e)
    ensures c.delivered <= C.Step(c, e).delivered
    ensures C.Step(c, e).delivered == c.delivered + Pushed(c, C.Step(c, e))
    ensures Pushed(c, C.Step(c, e)) != [] ==> !c.receiver.op.NoRead?
    ensures !e.StartReceiving? ==> C.Step(c, e).receiver.isProcessing == c.receiver.isProcessing
  {
    hide Written, PayloadSenders.Send, WriteFailed, Emits, MayComplete;
  }

  /** What it delivers carries the id in the buffer. */
  lemma StepDelivers(c: C.Connection, spawnId: int, e: C.Event)
    requires C.Invariant(c, spawnId) && C.MayHappen(c, e) && C.Guarded(c, e)
    ensures C.Invariant(C.Step(c, e), spawnId)
    ensures c.delivered <= C.Step(c, e).delivered && AllFrom(Pushed(c, C.Step(c, e)), spawnId)
    ensures C.Step(c, e).delivered == c.delivered + Pushed(c, C.Step(c, e))
    ensures Pushed(c, C.Step(c, e)) != [] ==> c.receiver.isProcessing
    ensures !e.StartReceiving? ==> C.Step(c, e).receiver.isProcessing == c.receiver.isProcessing
  {
    hide C.MayHappen, C.Step, C.Guarded, C.SendingSide, Balanced, EncodeAll;
    DeliveryShape(c, e);
    C.StepKeepsInvariant(c, spawnId, e);
    var d := C.Step(c, e);
    C.DeliveredIsPrefix(d, spawnId);
    forall k | 0 <= k < |Pushed(c, d)| ensures Pushed(c, d)[k].spawnId == spawnId {
      assert Pushed(c, d)[k] == d.delivered[|c.delivered| + k];
    }
  }

  lemma NetKeepsAgreement(s: System, i: nat, n: C.Event)
    requires Invariant(s) && MayHappen(s, Net(i, n))
    ensures var t := Step(s, Net(i, n));
      && QueuesAgree(t.clients, AllPushed(t))
      && ClientOk(t.clients[i], t.spawnCount)
      && (forall k :: 0 <= k < |AllPushed(t)| ==> HasOwner(t.clients, AllPushed(t)[k]))
  {
    hide C.Invariant, C.MayHappen, C.Guarded, C.Step;
    var t, c := Step(s, Net(i, n)), s.clients[i];
    assert ClientOk(c, s.spawnCount);
    StepDelivers(c.conn, c.spawnId, n);
    var more := Pushed(c.conn, C.Step(c.conn, n));
    assert AllPushed(t) == AllPushed(s) + more;
    forall k | 0 <= k < |t.clients| && t.clients[k].accepted
      ensures Restrict(AllPushed(t), t.clients[k].spawnId) == t.clients[k].conn.delivered
    {
      RestrictConcat(AllPushed(s), more, t.clients[k].spawnId);
      if k == i {
        RestrictOwn(more, c.spawnId);
      } else if more != [] {
        RestrictOther(more, t.clients[k].spawnId);
      }
    }
    SameOwners(s.clients, t.clients, AllPushed(s));
    forall k | 0 <= k < |more| ensures HasOwner(t.clients, more[k]) {
      assert t.clients[i].accepted && t.clients[i].spawnId == more[k].spawnId;
    }
  }

  lemma NetKeepsInvariant(s: System, i: nat, n: C.Event)
    requires Invariant(s) && MayHappen(s, Net(i, n))
    ensures Invariant(Step(s, Net(i, n)))
  {
    hide C.Invariant, C.MayHappen, C.Guarded, C.Step, Restrict, HasOwner;
    NetKeepsAgreement(s, i, n);
  }

  lemma NothingAround<T>(q: seq<T>)
    ensures q + [] + [] == q && [] + [] + q == q
  {
  }

  lemma TakeFirst<T>(p: seq<T>, b: seq<T>, q: seq<T>)
    requires b != []
    ensures p + (b + [] + q) == (p + [b[0]]) + (b[1..] + [] + q)
    ensures p + (b + [] + q) == (p + [b[0]]) + ([] + b[1..] + q)
  {
    assert b + [] == b == [b[0]] + b[1..] && b[1..] + [] == b[1..] == [] + b[1..];
    Associate([b[0]], b[1..], q);
    Associate(p, [b[0]], b[1..] + q);
  }

  /** Draining and processing move payloads along without losing, repeating or reordering any. */
  lemma ConsumerConserves(s: System, e: Event)
    requires (e.Drain? || e.Process?) && MayHappen(s, e) && s.dropped == []
    ensures AllPushed(Step(s, e)) == AllPushed(s)
  {
    match e {
      case Drain => NothingAround(s.queue);
      case Process(_) => TakeFirst(s.processed, s.batch, s.queue);
    }
  }

  lemma ConsumerKeepsInvariant(s: System, e: Event)
    requires Invariant(s) && (e.Drain? || e.Process?) && MayHappen(s, e)
    ensures Invariant(Step(s, e))
  {
    hide ClientOk, Restrict, HasOwner, QueuesAgree, DistinctIds, AllPushed;
    ConsumerConserves(s, e);
  }

  lemma StepKeepsInvariant(s: System, e: Event)
    requires Invariant(s) && MayHappen(s, e)
    ensures Invariant(Step(s, e))
  {
    hide C.Invariant, Restrict, HasOwner;
    match e {
      case Connect(sl, rl) => ConnectKeepsInvariant(s, sl, rl);
      case Accept(i) => AcceptKeepsInvariant(s, i);
      case AcceptFailed =>
      case Net(i, n) => NetKeepsInvariant(s, i, n);
      case Drain => ConsumerKeepsInvariant(s, e);
      case Process(_) => ConsumerKeepsInvariant(s, e);
    }
  }

  lemma {:induction false} RunKeepsInvariant(s: System, run: seq<Event>)
    requires Invariant(s) && IsRun(s, run)
    ensures Invariant(Final(s, run))
    decreases |run|
  {
    hide Invariant, MayHappen;
    if run != [] {
      StepKeepsInvariant(s, run[0]);
      RunKeepsInvariant(Step(s, run[0]), run[1..]);
    }
  }

  // ---------------------------------------------------------------- end to end

  lemma RawsOfPrefix(a: seq<SpawnedPayload>, b: seq<SpawnedPayload>)
    requires a <= b
    ensures Raws(a) <= Raws(b)
  {
    assert Raws(b)[..|a|] == Raws(a);
  }

  /** What reached the processor from client `i`, and nothing else under its id, is a prefix of what it sent. */
  lemma ProcessedIsPrefixOfSent(s: System, i: nat)
    requires Invariant(s) && i < |s.clients| && s.clients[i].accepted
    ensures Raws(Restrict(s.processed, s.clients[i].spawnId)) <= s.clients[i].conn.accepted
  {
    hide C.Invariant;
    var c := s.clients[i];
    assert ClientOk(c, s.spawnCount);
    var rest := s.batch + s.dropped + s.queue;
    RestrictConcat(s.processed, rest, c.spawnId);
    assert Restrict(s.processed, c.spawnId) <= c.conn.delivered;
    RawsOfPrefix(Restrict(s.processed, c.spawnId), c.conn.delivered);
    C.DeliveredIsPrefix(c.conn, c.spawnId);
  }

  lemma QuietServerProcessedEverything(s: System, i: nat)
    requires Invariant(s) && i < |s.clients| && s.clients[i].accepted
    requires s.queue == [] && s.batch == [] && !s.stopped && C.Drained(s.clients[i].conn)
    ensures Raws(Restrict(s.processed, s.clients[i].spawnId)) == s.clients[i].conn.accepted
  {
    hide C.Invariant;
    var c := s.clients[i];
    assert ClientOk(c, s.spawnCount);
    assert AllPushed(s) == s.processed;
    C.DrainedDeliveredEverything(c.conn, c.spawnId);
  }

  /** For any number of clients and any interleaving of connections, accepts, failed accepts, sends, reads, errors and
      drains: ids are pairwise distinct, each processed payload carries the id of an accepted client, and per id what
      was processed is a prefix of what that client sent, all of it once everything is quiet. */
  lemma ServerIsFaithful(run: seq<Event>)
    requires IsRun(NEW_SYSTEM, run)
    ensures var s := Final(NEW_SYSTEM, run);
      && DistinctIds(s.clients)
      && (forall k :: 0 <= k < |s.processed| ==> HasOwner(s.clients, s.processed[k]))
      && (forall i :: 0 <= i < |s.clients| && s.clients[i].accepted ==>
            Raws(Restrict(s.processed, s.clients[i].spawnId)) <= s.clients[i].conn.accepted)
      && (s.queue == [] && s.batch == [] && !s.stopped ==>
            forall i :: 0 <= i < |s.clients| && s.clients[i].accepted && C.Drained(s.clients[i].conn) ==>
              Raws(Restrict(s.processed, s.clients[i].spawnId)) == s.clients[i].conn.accepted)
  {
    hide ClientOk, Restrict, HasOwner, C.Drained;
    RunKeepsInvariant(NEW_SYSTEM, run);
    var s := Final(NEW_SYSTEM, run);
    forall k | 0 <= k < |s.processed| ensures HasOwner(s.clients, s.processed[k]) {
      assert AllPushed(s)[k] == s.processed[k];
    }
    forall i | 0 <= i < |s.clients| && s.clients[i].accepted
      ensures Raws(Restrict(s.processed, s.clients[i].spawnId)) <= s.clients[i].conn.accepted
    {
      ProcessedIsPrefixOfSent(s, i);
    }
    if s.queue == [] && s.batch == [] && !s.stopped {
      forall i | 0 <= i < |s.clients| && s.clients[i].accepted && C.Drained(s.clients[i].conn)
        ensures Raws(Restrict(s.processed, s.clients[i].spawnId)) == s.clients[i].conn.accepted
      {
        QuietServerProcessedEverything(s, i);
      }
    }
  }

  // ---------------------------------------------------------------- the object

  ghost predicate IsSocketOf(sock: PayloadReceiver, incomingQueue: AtomicQueue<SpawnedPayload>,
    clients: seq<Client>, i: nat)
    reads sock, sock.logger
  {
    && sock.payloadQueue == incomingQueue
    && i < |clients| && clients[i].accepted && sock.State() == clients[i].conn.receiver
    && sock.buf.spawnId == clients[i].spawnId
  }

  /** The sockets are the receivers of the accepted clients, `owners` telling whose each one is. */
  ghost predicate AreSocketsOf(socks: seq<PayloadReceiver>, owners: seq<nat>,
    incomingQueue: AtomicQueue<SpawnedPayload>, clients: seq<Client>)
    reads socks, set k | 0 <= k < |socks| :: socks[k].logger
  {
    && |owners| == |socks|
    && (forall k :: 0 <= k < |owners| ==> IsSocketOf(socks[k], incomingQueue, clients, owners[k]))
    && (forall j, k :: 0 <= j < k < |owners| ==> owners[j] != owners[k])
    && (forall i :: 0 <= i < |clients| && clients[i].accepted ==> i in owners)
  }

  /** Accepting somebody else changes nothing for a socket. */
  lemma StillSocketOf(sock: PayloadReceiver, incomingQueue: AtomicQueue<SpawnedPayload>, s: System, i: nat, j: nat)
    requires MayHappen(s, Accept(i)) && IsSocketOf(sock, incomingQueue, s.clients, j)
    ensures j != i && IsSocketOf(sock, incomingQueue, Step(s, Accept(i)).clients, j)
  {
  }

  lemma OneMoreSocket(socks: seq<PayloadReceiver>, owners: seq<nat>, incomingQueue: AtomicQueue<SpawnedPayload>,
    s: System, i: nat, sock: PayloadReceiver)
    requires AreSocketsOf(socks, owners, incomingQueue, s.clients) && MayHappen(s, Accept(i))
    requires sock.payloadQueue == incomingQueue && sock.State() == Start(NewReceiver(s.spawnCount + 1))
    ensures AreSocketsOf(socks + [sock], owners + [i], incomingQueue, Step(s, Accept(i)).clients)
  {
    hide IsSocketOf;
    var clients := Step(s, Accept(i)).clients;
    forall k | 0 <= k < |owners| ensures owners[k] != i && IsSocketOf(socks[k], incomingQueue, clients, owners[k]) {
      StillSocketOf(socks[k], incomingQueue, s, i, owners[k]);
    }
    NewSocketOf(sock, incomingQueue, s, i);
    assert (owners + [i])[|owners|] == i && forall j :: j in owners ==> j in owners + [i];
  }

  lemma NewSocketOf(sock: PayloadReceiver, incomingQueue: AtomicQueue<SpawnedPayload>, s: System, i: nat)
    requires MayHappen(s, Accept(i)) && sock.payloadQueue == incomingQueue
    requires sock.State() == Start(NewReceiver(s.spawnCount + 1))
    ensures IsSocketOf(sock, incomingQueue, Step(s, Accept(i)).clients, i)
  {
  }

  class Server {
    const incomingQueue: AtomicQueue<SpawnedPayload>
    var spawnCount: nat
    var spawnedSockets: seq<PayloadReceiver>
    /** Which client is at the other end of each socket. */
    ghost var owners: seq<nat>

    /** The server is in the state `s`, the incoming queue being the shared one. */
    ghost predicate Represents(s: System)
      reads this, incomingQueue, spawnedSockets, set k | 0 <= k < |spawnedSockets| :: spawnedSockets[k].logger
    {
      && spawnCount == s.spawnCount && incomingQueue.items == s.queue
      && AreSocketsOf(spawnedSockets, owners, incomingQueue, s.clients)
    }

    constructor ()
      ensures Represents(NEW_SYSTEM) && fresh(incomingQueue) && incomingQueue.Valid()
    {
      incomingQueue := new AtomicQueue();
      spawnCount, spawnedSockets, owners := 0, [], [];
    }

    /** Each socket carries an id of its own, and all of them feed the one incoming queue. */
    lemma SocketsHaveOwnIds(s: System)
      requires Represents(s) && Invariant(s)
      ensures forall k :: 0 <= k < |spawnedSockets| ==>
        spawnedSockets[k].payloadQueue == incomingQueue && 1 <= spawnedSockets[k].buf.spawnId <= spawnCount
      ensures forall j, k :: 0 <= j < k < |spawnedSockets| ==>
        spawnedSockets[j].buf.spawnId != spawnedSockets[k].buf.spawnId
    {
      hide C.Invariant, QueuesAgree, HasOwner;
      forall k | 0 <= k < |spawnedSockets| ensures 1 <= spawnedSockets[k].buf.spawnId <= spawnCount {
        assert IsSocketOf(spawnedSockets[k], incomingQueue, s.clients, owners[k]);
        assert ClientOk(s.clients[owners[k]], s.spawnCount);
      }
      forall j, k | 0 <= j < k < |spawnedSockets|
        ensures spawnedSockets[j].buf.spawnId != spawnedSockets[k].buf.spawnId
      {
        assert IsSocketOf(spawnedSockets[j], incomingQueue, s.clients, owners[j]);
        assert IsSocketOf(spawnedSockets[k], incomingQueue, s.clients, owners[k]);
        assert DistinctIds(s.clients) && owners[j] != owners[k];
      }
    }

    /** The accept callback; `ec` is its error code, `i` the client that connected. */
    method OnAccept(ec: bool, ghost s: System, ghost i: nat)
      requires Represents(s) && (!ec ==> MayHappen(s, Accept(i)))
      modifies this
      ensures Represents(Step(s, if ec then AcceptFailed else Accept(i)))
      ensures spawnCount == old(spawnCount) + 1 && (ec ==> spawnedSockets == old(spawnedSockets))
      ensures !ec ==>
        && |spawnedSockets| == |old(spawnedSockets)| + 1 && old(spawnedSockets) <= spawnedSockets
        && fresh(spawnedSockets[|old(spawnedSockets)|])
        && spawnedSockets[|old(spawnedSockets)|].State() == Start(NewReceiver(spawnCount))
    {
      hide C.Step, C.MayHappen, AreSocketsOf;
      spawnCount := spawnCount + 1;
      if !ec {
        var sock := new PayloadReceiver(incomingQueue, spawnCount);
        sock.StartReceiving();
        OneMoreSocket(spawnedSockets, owners, incomingQueue, s, i, sock);
        spawnedSockets := spawnedSockets + [sock];
        owners := owners + [i];
      }
    }
  }
}
