/** One connection: a sender, the bytes the socket took, and the receiver at the other end. The socket is a reliable
    byte FIFO; a read or a write completes with its whole buffer or fails, and a failed write is the last thing the
    socket takes, possibly in part. */
module Connections {
  import opened Payloads
  import opened PayloadLogging
  import opened PayloadSenders
  import opened PayloadReceivers

  /** `accepted` lists what was passed to `_sendPayload`, `written` every byte the socket took, of which the receiver
      has read the first `readCount`, and `delivered` what the receiver has pushed to its queue. */
  datatype Connection = Connection(
    sender: Sender, accepted: seq<RawPayload>, open: bool, written: seq<byte>,
    readCount: nat, receiver: Receiver, delivered: seq<SpawnedPayload>,
    sendLimit: Limit, receiveLimit: Limit)

  function NewConnection(spawnId: int, sendLimit: Limit, receiveLimit: Limit): Connection {
    Connection(NEW_SENDER, [], true, [], 0, NewReceiver(spawnId), [], sendLimit, receiveLimit)
  }

  /** `processing` is what `_sendPayload` reads from `_isProcessing`; `data` is what a write hands to the socket, of
      which a failing one gets `n` bytes through. */
  datatype Event =
    | Send(p: RawPayload, processing: bool)
    | WriteDone(i: nat, data: seq<byte>)
    | WriteError(i: nat, data: seq<byte>, n: nat)
    | StartReceiving
    | ReadDone
    | ReadError

  predicate MayHappen(c: Connection, e: Event) {
    match e
    case Send(p, _) => true
    case WriteDone(i, data) => c.open && MayComplete(c.sender, i) && Emits(c.sender, i, data)
    case WriteError(i, data, n) =>
      i < |c.sender.ops| && (if c.open then Emits(c.sender, i, data) && n <= |data| else n == 0)
    case StartReceiving => true
    case ReadDone =>
      !c.receiver.op.NoRead? && InBounds(c.receiver) && c.readCount + Need(c.receiver.op) <= |c.written|
    case ReadError => !c.receiver.op.NoRead?
  }

  /** The bytes the outstanding read will get. */
  function NextBytes(c: Connection): seq<byte>
    requires c.readCount + Need(c.receiver.op) <= |c.written|
  {
    c.written[c.readCount..c.readCount + Need(c.receiver.op)]
  }

  function Step(c: Connection, e: Event): Connection
    requires MayHappen(c, e)
  {
    match e
    case Send(p, processing) =>
      c.(sender := PayloadSenders.Send(c.sender, p, processing), accepted := c.accepted + [p])
    case WriteDone(i, data) =>
      c.(sender := Written(c.sender, i, c.sendLimit), written := c.written + data)
    case WriteError(i, data, n) =>
      c.(sender := WriteFailed(c.sender, i), open := false,
         written := if c.open then c.written + data[..n] else c.written)
    case StartReceiving => c.(receiver := Start(c.receiver))
    case ReadDone =>
      var r := Read(c.receiver, NextBytes(c), c.receiveLimit);
      c.(receiver := r.receiver, delivered := c.delivered + r.pushed, readCount := c.readCount + Need(c.receiver.op))
    case ReadError => c.(receiver := ReadFailed(c.receiver))
  }

  /** The guard does what its comment says: it stops a call from starting a chain exactly when one is active. With the
      guard as written, which always reads false, that is to say that no call is made during a transfer. */
  predicate Guarded(c: Connection, e: Event) {
    e.Send? ==> e.p.WellFormed() && e.processing == (c.sender.ops != [])
  }

  // ---------------------------------------------------------------- invariant

  ghost predicate SendingSide(c: Connection) {
    if c.open then SingleChain(c.sender, c.accepted, c.written, c.sendLimit)
    else Broken(c.sender, c.accepted, c.written)
  }

  ghost predicate ReceivingSide(c: Connection, spawnId: int) {
    && c.readCount <= |c.written|
    && Receiving(c.receiver, c.delivered, c.written[..c.readCount], spawnId, c.receiveLimit)
    && (!c.receiver.isProcessing ==> c.readCount == 0 && c.delivered == [] && c.receiver == NewReceiver(spawnId))
  }

  ghost predicate Invariant(c: Connection, spawnId: int) {
    SendingSide(c) && ReceivingSide(c, spawnId)
  }

  lemma NewConnectionInvariant(spawnId: int, sendLimit: Limit, receiveLimit: Limit)
    ensures Invariant(NewConnection(spawnId, sendLimit, receiveLimit), spawnId)
  {
    assert Raws([]) == [] && ReceivedTraces([]) == [];
  }

  lemma SendKeepsInvariant(c: Connection, spawnId: int, e: Event)
    requires Invariant(c, spawnId) && e.Send? && Guarded(c, e)
    ensures Invariant(Step(c, e), spawnId)
  {
    hide SingleChain, Broken, Receiving;
    if !c.open {
      BrokenStaysBroken(c.sender, c.accepted, c.written, e.p, 0);
    } else if c.sender.ops == [] {
      SendToIdle(c.sender, c.accepted, c.written, c.sendLimit, e.p);
    } else {
      SendToBusy(c.sender, c.accepted, c.written, c.sendLimit, e.p);
    }
  }

  lemma WriteKeepsInvariant(c: Connection, spawnId: int, e: Event)
    requires Invariant(c, spawnId) && (e.WriteDone? || e.WriteError?) && MayHappen(c, e)
    ensures Invariant(Step(c, e), spawnId)
  {
    hide SingleChain, Broken, Receiving, Emits;
    var d := Step(c, e);
    assert d.written[..c.readCount] == c.written[..c.readCount];
    match e {
      case WriteDone(i, data) =>
        WrittenKeepsSingleChain(c.sender, c.accepted, c.written, c.sendLimit, i, data);
      case WriteError(i, data, n) =>
        if c.open {
          FailureBreaks(c.sender, c.accepted, c.written, c.sendLimit, i, data, n);
        } else {
          BrokenStaysBroken(c.sender, c.accepted, c.written, RawPayload(UNKNOWN, 0, []), i);
        }
    }
  }

  lemma StartKeepsInvariant(c: Connection, spawnId: int)
    requires ReceivingSide(c, spawnId)
    ensures ReceivingSide(Step(c, StartReceiving), spawnId)
  {
    if !c.receiver.isProcessing {
      assert Raws([]) == [] && ReceivedTraces([]) == [];
    }
  }

  lemma ReadKeepsInvariant(c: Connection, spawnId: int, e: Event)
    requires ReceivingSide(c, spawnId) && (e.ReadDone? || e.ReadError?) && MayHappen(c, e)
    ensures ReceivingSide(Step(c, e), spawnId)
  {
    hide Balanced, EncodeAll, ReceiverLogged, Partial;
    var read := c.written[..c.readCount];
    if e.ReadDone? {
      var data := NextBytes(c);
      ReadKeepsReceiving(c.receiver, c.delivered, read, spawnId, c.receiveLimit, data);
      assert Step(c, e).written[..Step(c, e).readCount] == read + data;
    } else {
      FailureEndsReceiving(c.receiver, c.delivered, read, spawnId, c.receiveLimit);
    }
  }

  lemma StepKeepsInvariant(c: Connection, spawnId: int, e: Event)
    requires Invariant(c, spawnId) && MayHappen(c, e) && Guarded(c, e)
    ensures Invariant(Step(c, e), spawnId)
  {
    hide SingleChain, Broken, Receiving, Emits;
    match e {
      case Send(_, _) => SendKeepsInvariant(c, spawnId, e);
      case WriteDone(_, _) => WriteKeepsInvariant(c, spawnId, e);
      case WriteError(_, _, _) => WriteKeepsInvariant(c, spawnId, e);
      case StartReceiving => StartKeepsInvariant(c, spawnId);
      case ReadDone => ReadKeepsInvariant(c, spawnId, e);
      case ReadError => ReadKeepsInvariant(c, spawnId, e);
    }
  }

  // ---------------------------------------------------------------- whole runs

  predicate IsRun(c: Connection, run: seq<Event>)
    decreases |run|
  {
    run == [] || (MayHappen(c, run[0]) && Guarded(c, run[0]) && IsRun(Step(c, run[0]), run[1..]))
  }

  function Final(c: Connection, run: seq<Event>): Connection
    requires IsRun(c, run)
    decreases |run|
  {
    if run == [] then c else Final(Step(c, run[0]), run[1..])
  }

  lemma {:induction false} RunKeepsInvariant(c: Connection, spawnId: int, run: seq<Event>)
    requires Invariant(c, spawnId) && IsRun(c, run)
    ensures Invariant(Final(c, run), spawnId)
    decreases |run|
  {
    hide Invariant, MayHappen, Guarded;
    if run != [] {
      StepKeepsInvariant(c, spawnId, run[0]);
      RunKeepsInvariant(Step(c, run[0]), spawnId, run[1..]);
    }
  }

  /** The stream the receiver is cutting up is a prefix of the frames of what was accepted. */
  lemma WrittenIsStreamPrefix(c: Connection)
    requires SendingSide(c)
    ensures AllWellFormed(c.accepted) && c.written <= EncodeAll(c.accepted)
  {
    if c.open {
      assert EncodeAll(c.accepted)[..|c.written|] == c.written;
    }
  }

  lemma DeliveredOpensStream(c: Connection, spawnId: int)
    requires ReceivingSide(c, spawnId)
    ensures EncodeAll(Raws(c.delivered)) <= c.written
  {
    var read, done := c.written[..c.readCount], EncodeAll(Raws(c.delivered));
    assert done <= read by {
      if !c.receiver.op.NoRead? {
        assert (done + Partial(c.receiver))[..|done|] == done;
      }
    }
  }

  /** What is delivered is a prefix of what was accepted, type and body intact and all of it under one spawn id. */
  lemma DeliveredIsPrefix(c: Connection, spawnId: int)
    requires Invariant(c, spawnId)
    ensures Raws(c.delivered) <= c.accepted && AllFrom(c.delivered, spawnId)
  {
    hide EncodeAll, SendingSide;
    WrittenIsStreamPrefix(c);
    DeliveredOpensStream(c, spawnId);
    var done, all := EncodeAll(Raws(c.delivered)), EncodeAll(c.accepted);
    assert done + all[|done|..] == all;
    UniqueDecoding(Raws(c.delivered), c.accepted, all[|done|..]);
  }

  /** Nothing is under way and nothing has gone wrong. */
  predicate Drained(c: Connection) {
    c.open && c.sender.ops == [] && c.readCount == |c.written| && c.receiver.op.RType?
  }

  lemma DrainedDeliveredEverything(c: Connection, spawnId: int)
    requires Invariant(c, spawnId) && Drained(c)
    ensures Raws(c.delivered) == c.accepted
  {
    var done := EncodeAll(Raws(c.delivered));
    assert c.written[..c.readCount] == c.written;
    assert done + [] == c.written == EncodeAll(c.accepted);
    UniqueDecoding(Raws(c.delivered), c.accepted, []);
  }

  /** Conservation of bytes on a connection nothing has gone wrong with: what is delivered, the receiver's part of a
      frame, the bytes on the wire and what the sender has still to write make up the accepted payloads. */
  lemma BytesAreConserved(c: Connection, spawnId: int)
    requires Invariant(c, spawnId) && c.open && !c.receiver.op.NoRead?
    ensures EncodeAll(Raws(c.delivered)) + Partial(c.receiver) + c.written[c.readCount..] + Pending(c.sender)
         == EncodeAll(c.accepted)
  {
    hide EncodeAll;
    assert c.written == c.written[..c.readCount] + c.written[c.readCount..];
  }

  /** Over every run, whatever the chunk limits of the two ends. */
  lemma TransportIsFaithful(run: seq<Event>, spawnId: int, sendLimit: Limit, receiveLimit: Limit)
    requires IsRun(NewConnection(spawnId, sendLimit, receiveLimit), run)
    ensures var c := Final(NewConnection(spawnId, sendLimit, receiveLimit), run);
      && Raws(c.delivered) <= c.accepted
      && AllFrom(c.delivered, spawnId)
      && (Drained(c) ==> Raws(c.delivered) == c.accepted)
  {
    hide Invariant;
    NewConnectionInvariant(spawnId, sendLimit, receiveLimit);
    RunKeepsInvariant(NewConnection(spawnId, sendLimit, receiveLimit), spawnId, run);
    var c := Final(NewConnection(spawnId, sendLimit, receiveLimit), run);
    DeliveredIsPrefix(c, spawnId);
    if Drained(c) {
      DrainedDeliveredEverything(c, spawnId);
    }
  }

  // ---------------------------------------------------------------- traces

  /** The committed traces of a log are numbered 1 to n in order, and one payload at most is open. */
  ghost predicate TracesNumbered(log: Log) {
    && (forall i :: 0 <= i < |log.traces| ==> log.traces[i].payloadId == i + 1)
    && |log.traces| <= log.traceBuf.payloadId <= |log.traces| + 1
  }

  /** For each payload that was sent: its trace has its type and its size, and the bytes recorded for it add up to
      that. */
  ghost predicate TracesSent(log: Log, sent: seq<RawPayload>) {
    && |sent| <= |log.traces|
    && forall i :: 0 <= i < |sent| ==>
         && log.traces[i].payloadType == sent[i].ptype
         && log.traces[i].expectedSize == sent[i].bytesSize
         && BytesFor(log.speeds, i + 1) == sent[i].bytesSize
  }

  /** The receiver logs no sizes: the trace of a payload that was received says 0. */
  ghost predicate TracesReceived(log: Log, received: seq<RawPayload>) {
    && |received| <= |log.traces|
    && forall i :: 0 <= i < |received| ==>
         && log.traces[i].payloadType == received[i].ptype
         && log.traces[i].expectedSize == 0
         && BytesFor(log.speeds, i + 1) == received[i].bytesSize
  }

  /** On both ends, errors included. */
  lemma TracesAreStraight(c: Connection, spawnId: int)
    requires Invariant(c, spawnId)
    ensures TracesNumbered(c.sender.log) && TracesNumbered(c.receiver.log)
    ensures QueueIsTail(c.sender.queue, c.accepted)
    ensures TracesSent(c.sender.log, Sent(c.sender.queue, c.accepted))
    ensures !c.open ==> FailedTraces(c.sender.log, |Sent(c.sender.queue, c.accepted)|, c.sender.queue[0])
    ensures TracesReceived(c.receiver.log, Raws(c.delivered))
  {
    hide EncodeAll, ReceiverShape, Partial, Pending;
    var sent, received := Sent(c.sender.queue, c.accepted), Raws(c.delivered);
    forall i | 0 <= i < |sent| ensures TraceOf(c.sender.log, i, SentTraces(sent)[i]) {
    }
    forall i | 0 <= i < |received| ensures TraceOf(c.receiver.log, i, ReceivedTraces(received)[i]) {
    }
  }

  /** So the size in a receiver's trace is that of the payload exactly if its body is empty; the sender's always is. */
  lemma ReceivedSizeIsRightExactlyIfEmpty(c: Connection, spawnId: int, i: nat)
    requires Invariant(c, spawnId) && i < |c.delivered|
    ensures i < |c.receiver.log.traces|
    ensures c.receiver.log.traces[i].expectedSize == c.delivered[i].raw.bytesSize <==> c.delivered[i].raw.bytes == []
  {
    hide EncodeAll, ReceiverShape, Partial, Pending, Balanced;
    TracesAreStraight(c, spawnId);
    assert Raws(c.delivered)[i].WellFormed();
  }

  /** Over every run, whatever goes wrong in it. */
  lemma TracesAreStraightAfterRuns(run: seq<Event>, spawnId: int, sendLimit: Limit, receiveLimit: Limit)
    requires IsRun(NewConnection(spawnId, sendLimit, receiveLimit), run)
    ensures var c := Final(NewConnection(spawnId, sendLimit, receiveLimit), run);
      && TracesNumbered(c.sender.log) && TracesNumbered(c.receiver.log)
      && QueueIsTail(c.sender.queue, c.accepted) && TracesSent(c.sender.log, Sent(c.sender.queue, c.accepted))
      && TracesReceived(c.receiver.log, Raws(c.delivered))
  {
    hide Invariant, TracesNumbered, TracesSent, TracesReceived;
    NewConnectionInvariant(spawnId, sendLimit, receiveLimit);
    RunKeepsInvariant(NewConnection(spawnId, sendLimit, receiveLimit), spawnId, run);
    TracesAreStraight(Final(NewConnection(spawnId, sendLimit, receiveLimit), run), spawnId);
  }
}
