/** The send state machine of `IPayloadSender.cpp`. `Sender` is the value of its state and each function below is one
    callback; the class at the end is the object whose methods follow them. */
module PayloadSenders {
  import opened Payloads
  import opened PayloadLogging
  import opened AtomicQueues

  type Limit = n: nat | n > 0 witness 64000

  const MAXIMUM_BYTES_AS_NETWORK_BUFFER: Limit := 64000

  /** An asynchronous write that has been started and whose callback has not run yet. */
  datatype WriteOp = WType | WSize | WBytes(start: nat, length: nat)

  datatype Sender = Sender(queue: seq<RawPayload>, buf: RawPayload, offset: nat, ops: seq<WriteOp>, log: Log)

  const NEW_SENDER := Sender([], RawPayload(UNKNOWN, 0, []), 0, [], EMPTY_LOG)

  function Min(a: nat, b: nat): nat {
    if a < b then a else b
  }

  /** `std::min(bytesSize - offset, limit)` on `size_t`: the subtraction wraps when the offset has overrun. */
  function ChunkLength(bytesSize: size_t, offset: nat, limit: Limit): nat {
    Min((bytesSize - offset) % 0x1_0000_0000_0000_0000, limit)
  }

  function RemoveAt(ops: seq<WriteOp>, i: nat): seq<WriteOp>
    requires i < |ops|
  {
    ops[..i] + ops[i + 1..]
  }

  /** `_sendPayloadType` */
  function BeginFrame(s: Sender): Sender
    requires s.queue != []
  {
    var p := s.queue[0];
    s.(buf := p, ops := s.ops + [WType], log := s.log.NewPayload().WithType(p.ptype).WithSize(p.bytesSize))
  }

  /** `_sendPayload`; `processing` is what reading `_isProcessing` returned. */
  function Send(s: Sender, p: RawPayload, processing: bool): Sender {
    var queued := s.(queue := s.queue + [p]);
    if processing then queued else BeginFrame(queued)
  }

  /** `_sendPayloadBytes` */
  function BeginBytes(s: Sender, limit: Limit): Sender {
    s.(ops := s.ops + [WBytes(s.offset, ChunkLength(s.buf.bytesSize, s.offset, limit))])
  }

  /** The callback of write `i` may run: the assertion in `AtomicQueue::pop` would hold. */
  predicate MayComplete(s: Sender, i: nat) {
    && i < |s.ops|
    && (s.ops[i].WBytes? && s.offset + s.ops[i].length >= s.buf.bytesSize ==> s.queue != [])
  }

  /** The callback of write `i`, without error. */
  function Written(s: Sender, i: nat, limit: Limit): Sender
    requires MayComplete(s, i)
  {
    var t := s.(ops := RemoveAt(s.ops, i));
    match s.ops[i]
    case WType => t.(ops := t.ops + [WSize])
    case WSize => BeginBytes(t, limit)
    case WBytes(_, length) =>
      var u := t.(offset := t.offset + length, log := t.log.CommitSpeed(length));
      if u.offset < u.buf.bytesSize then BeginBytes(u, limit)
      else
        var v := u.(offset := 0, queue := u.queue[1..], log := u.log.Commit());
        if v.queue != [] then BeginFrame(v) else v
  }

  /** The callback of write `i` with an error: the chain ends, the offset and the queue stay as they are. */
  function WriteFailed(s: Sender, i: nat): Sender
    requires i < |s.ops|
  {
    s.(ops := RemoveAt(s.ops, i), log := s.log.Commit())
  }

  /** What write `i` puts on the socket. Past the end of the body the program reads memory it does not own, and
      nothing but the number of bytes is known. */
  predicate Emits(s: Sender, i: nat, data: seq<byte>)
    requires i < |s.ops|
  {
    match s.ops[i]
    case WType => data == TypeBytes(s.buf.ptype)
    case WSize => data == SizeBytes(s.buf.bytesSize)
    case WBytes(start, length) =>
      |data| == length && (start + length <= |s.buf.bytes| ==> data == s.buf.bytes[start..start + length])
  }

  // ---------------------------------------------------------------- chunking

  /** The chunk loop run to its end: it moves the body in pieces of at most `limit`, the measure `bytesSize - offset`
      going down each time, and one empty piece for an empty body. */
  function Chunks(bytes: seq<byte>, offset: nat, limit: Limit): seq<seq<byte>>
    requires |bytes| < 0x1_0000_0000_0000_0000 && offset <= |bytes|
    decreases |bytes| - offset
  {
    var n := ChunkLength(|bytes|, offset, limit);
    var piece := bytes[offset..offset + n];
    if offset + n < |bytes| then [piece] + Chunks(bytes, offset + n, limit) else [piece]
  }

  function Concat(pieces: seq<seq<byte>>): seq<byte> {
    if pieces == [] then [] else pieces[0] + Concat(pieces[1..])
  }

  lemma ConcatCons(piece: seq<byte>, pieces: seq<seq<byte>>)
    ensures Concat([piece] + pieces) == piece + Concat(pieces)
  {
    assert ([piece] + pieces)[1..] == pieces;
  }

  /** Whatever the limit, the pieces make up the body. */
  lemma {:induction false} ChunksMakeUpBody(bytes: seq<byte>, offset: nat, limit: Limit)
    requires |bytes| < 0x1_0000_0000_0000_0000 && offset <= |bytes|
    ensures Concat(Chunks(bytes, offset, limit)) == bytes[offset..]
    decreases |bytes| - offset
  {
    var n := ChunkLength(|bytes|, offset, limit);
    var piece := bytes[offset..offset + n];
    if offset + n < |bytes| {
      ChunksMakeUpBody(bytes, offset + n, limit);
      ConcatCons(piece, Chunks(bytes, offset + n, limit));
      assert bytes[offset..] == piece + bytes[offset + n..];
    } else {
      ConcatCons(piece, []);
      assert [piece] + [] == [piece];
      assert bytes[offset..] == piece + [];
    }
  }

  /** No piece is longer than the limit, and only an empty body has an empty piece. */
  lemma {:induction false} ChunksWithinLimit(bytes: seq<byte>, offset: nat, limit: Limit)
    requires |bytes| < 0x1_0000_0000_0000_0000 && offset <= |bytes|
    ensures forall k :: 0 <= k < |Chunks(bytes, offset, limit)| ==>
      |Chunks(bytes, offset, limit)[k]| <= limit && (offset < |bytes| ==> Chunks(bytes, offset, limit)[k] != [])
    decreases |bytes| - offset
  {
    var n := ChunkLength(|bytes|, offset, limit);
    if offset + n < |bytes| {
      ChunksWithinLimit(bytes, offset + n, limit);
    }
  }

  /** Pieces are as few as the limit allows: every one but the last is as long as the limit. */
  lemma {:induction false} ChunksAreFull(bytes: seq<byte>, offset: nat, limit: Limit)
    requires |bytes| < 0x1_0000_0000_0000_0000 && offset <= |bytes|
    ensures forall k :: 0 <= k < |Chunks(bytes, offset, limit)| - 1 ==> |Chunks(bytes, offset, limit)[k]| == limit
    decreases |bytes| - offset
  {
    var n := ChunkLength(|bytes|, offset, limit);
    if offset + n < |bytes| {
      ChunksAreFull(bytes, offset + n, limit);
    }
  }

  // ---------------------------------------------------------------- one chain at a time

  /** The traces of payloads sent: type and size, and as many bytes. */
  function SentTraces(ps: seq<RawPayload>): (r: seq<Finished>)
    ensures |r| == |ps|
    ensures forall i :: 0 <= i < |ps| ==> r[i] == Finished(ps[i].ptype, ps[i].bytesSize, ps[i].bytesSize)
  {
    seq(|ps|, i requires 0 <= i < |ps| => Finished(ps[i].ptype, ps[i].bytesSize, ps[i].bytesSize as nat))
  }

  /** The queue is the unsent tail of what was passed to `_sendPayload`. */
  ghost predicate QueueIsTail(queue: seq<RawPayload>, accepted: seq<RawPayload>) {
    |queue| <= |accepted| && queue == accepted[|accepted| - |queue|..]
  }

  ghost function Sent(queue: seq<RawPayload>, accepted: seq<RawPayload>): seq<RawPayload>
    requires QueueIsTail(queue, accepted)
  {
    accepted[..|accepted| - |queue|]
  }

  /** What the active chain still has to write of the payload it holds. */
  ghost function FrontRest(s: Sender): seq<byte>
    requires s.ops != [] && s.offset <= |s.buf.bytes|
  {
    match s.ops[0]
    case WType => TypeBytes(s.buf.ptype) + (SizeBytes(s.buf.bytesSize) + s.buf.bytes[s.offset..])
    case WSize => SizeBytes(s.buf.bytesSize) + s.buf.bytes[s.offset..]
    case WBytes(_, _) => s.buf.bytes[s.offset..]
  }

  /** The bytes the active chain still has to write. */
  ghost function Pending(s: Sender): seq<byte>
    requires s.ops != [] ==> s.queue != [] && s.offset <= |s.buf.bytes|
  {
    if s.ops == [] then [] else FrontRest(s) + EncodeAll(s.queue[1..])
  }

  /** At most one chain is active, and it works on the front of the queue. */
  ghost predicate OneChain(s: Sender, accepted: seq<RawPayload>, limit: Limit) {
    && AllWellFormed(accepted) && QueueIsTail(s.queue, accepted)
    && |s.ops| == (if s.queue == [] then 0 else 1)
    && (s.queue == [] ==> s.offset == 0)
    && (s.queue != [] ==>
          && s.buf == s.queue[0]
          && (if s.ops[0].WBytes?
              then s.offset <= s.buf.bytesSize &&
                s.ops[0] == WBytes(s.offset, ChunkLength(s.buf.bytesSize, s.offset, limit))
              else s.offset == 0))
  }

  /** The logger's books agree with what has been sent. */
  ghost predicate Logged(s: Sender, accepted: seq<RawPayload>) {
    && QueueIsTail(s.queue, accepted)
    && Balanced(s.log, s.ops != [], s.offset, SentTraces(Sent(s.queue, accepted)))
    && (s.ops != [] ==> Describes(s.log, s.buf.ptype, s.buf.bytesSize))
    && |s.log.traces| == |Sent(s.queue, accepted)|
  }

  /** The invariant of a sender nothing has gone wrong with: no byte is lost or written twice. */
  ghost predicate SingleChain(s: Sender, accepted: seq<RawPayload>, written: seq<byte>, limit: Limit) {
    && OneChain(s, accepted, limit)
    && written + Pending(s) == EncodeAll(accepted)
    && Logged(s, accepted)
  }

  /** The traces from `n` on are those of attempts to send `p`. */
  ghost predicate FailedTraces(log: Log, n: nat, p: RawPayload) {
    forall i :: n <= i < |log.traces| ==>
      log.traces[i].payloadType == p.ptype && log.traces[i].expectedSize == p.bytesSize
  }

  /** After a write error the socket takes nothing more; what it took is still the start of the right stream. */
  ghost predicate Broken(s: Sender, accepted: seq<RawPayload>, written: seq<byte>) {
    && AllWellFormed(accepted) && QueueIsTail(s.queue, accepted)
    && s.queue != [] && (s.ops == [] || s.ops == [WType])
    && written <= EncodeAll(accepted)
    && Balanced(s.log, s.ops != [], 0, SentTraces(Sent(s.queue, accepted)))
    && (s.ops != [] ==> Describes(s.log, s.queue[0].ptype, s.queue[0].bytesSize))
    && FailedTraces(s.log, |Sent(s.queue, accepted)|, s.queue[0])
  }

  lemma EncodeOneMore(accepted: seq<RawPayload>, p: RawPayload)
    ensures EncodeAll(accepted + [p]) == EncodeAll(accepted) + Frame(p)
  {
    EncodeAllConcat(accepted, [p]);
    EncodeAllOne(p);
  }

  lemma QueueGrows(queue: seq<RawPayload>, accepted: seq<RawPayload>, p: RawPayload)
    requires QueueIsTail(queue, accepted)
    ensures QueueIsTail(queue + [p], accepted + [p])
    ensures Sent(queue + [p], accepted + [p]) == Sent(queue, accepted)
  {
  }

  lemma IdlePending(s: Sender, accepted: seq<RawPayload>, limit: Limit, p: RawPayload)
    requires OneChain(s, accepted, limit) && s.ops == [] && p.WellFormed()
    ensures OneChain(Send(s, p, false), accepted + [p], limit)
    ensures Pending(Send(s, p, false)) == Frame(p)
  {
    var t := Send(s, p, false);
    QueueGrows(s.queue, accepted, p);
    assert t.queue[1..] == [];
    assert FrontRest(t) == Frame(p);
  }

  lemma SendToIdle(s: Sender, accepted: seq<RawPayload>, written: seq<byte>, limit: Limit, p: RawPayload)
    requires SingleChain(s, accepted, written, limit) && s.ops == [] && p.WellFormed()
    ensures SingleChain(Send(s, p, false), accepted + [p], written, limit)
  {
    hide Balanced, EncodeAll, Frame;
    QueueGrows(s.queue, accepted, p);
    EncodeOneMore(accepted, p);
    assert written + [] == written;
    IdlePending(s, accepted, limit, p);
    OpenedBalanced(s.log, s.offset, SentTraces(Sent(s.queue, accepted)), p.ptype, p.bytesSize);
  }

  lemma BusyPending(s: Sender, accepted: seq<RawPayload>, limit: Limit, p: RawPayload)
    requires OneChain(s, accepted, limit) && s.ops != [] && p.WellFormed()
    ensures OneChain(Send(s, p, true), accepted + [p], limit)
    ensures Pending(Send(s, p, true)) == Pending(s) + Frame(p)
  {
    hide EncodeAll, Frame;
    QueueGrows(s.queue, accepted, p);
    EncodeOneMore(s.queue[1..], p);
    assert Send(s, p, true).queue[1..] == s.queue[1..] + [p];
    Associate(FrontRest(s), EncodeAll(s.queue[1..]), Frame(p));
  }

  lemma SendToBusy(s: Sender, accepted: seq<RawPayload>, written: seq<byte>, limit: Limit, p: RawPayload)
    requires SingleChain(s, accepted, written, limit) && s.ops != [] && p.WellFormed()
    ensures SingleChain(Send(s, p, true), accepted + [p], written, limit)
  {
    QueueGrows(s.queue, accepted, p);
    EncodeOneMore(accepted, p);
    BusyPending(s, accepted, limit, p);
    Associate(written, Pending(s), Frame(p));
  }

  lemma HeaderPartPending(s: Sender, accepted: seq<RawPayload>, limit: Limit, data: seq<byte>)
    requires OneChain(s, accepted, limit) && s.ops != [] && !s.ops[0].WBytes? && Emits(s, 0, data)
    ensures OneChain(Written(s, 0, limit), accepted, limit)
    ensures Pending(s) == data + Pending(Written(s, 0, limit))
  {
    var t := Written(s, 0, limit);
    assert FrontRest(s) == data + FrontRest(t);
    Associate(data, FrontRest(t), EncodeAll(s.queue[1..]));
  }

  lemma WroteHeaderPart(s: Sender, accepted: seq<RawPayload>, written: seq<byte>, limit: Limit, data: seq<byte>)
    requires SingleChain(s, accepted, written, limit) && s.ops != [] && !s.ops[0].WBytes? && Emits(s, 0, data)
    ensures SingleChain(Written(s, 0, limit), accepted, written + data, limit)
  {
    hide Balanced, EncodeAll, Pending;
    HeaderPartPending(s, accepted, limit, data);
    Associate(written, data, Pending(Written(s, 0, limit)));
  }

  lemma ChunkPending(s: Sender, accepted: seq<RawPayload>, limit: Limit, data: seq<byte>)
    requires OneChain(s, accepted, limit) && s.ops != [] && s.ops[0].WBytes? && Emits(s, 0, data)
    requires s.offset + s.ops[0].length < s.buf.bytesSize
    ensures OneChain(Written(s, 0, limit), accepted, limit)
    ensures Pending(s) == data + Pending(Written(s, 0, limit))
  {
    var t := Written(s, 0, limit);
    assert FrontRest(s) == data + FrontRest(t);
    Associate(data, FrontRest(t), EncodeAll(s.queue[1..]));
  }

  lemma WroteChunk(s: Sender, accepted: seq<RawPayload>, written: seq<byte>, limit: Limit, data: seq<byte>)
    requires SingleChain(s, accepted, written, limit) && s.ops != [] && s.ops[0].WBytes? && Emits(s, 0, data)
    requires s.offset + s.ops[0].length < s.buf.bytesSize
    ensures SingleChain(Written(s, 0, limit), accepted, written + data, limit)
  {
    hide Balanced, EncodeAll, Pending;
    ChunkPending(s, accepted, limit, data);
    SpeedBalanced(s.log, s.offset, SentTraces(Sent(s.queue, accepted)), s.ops[0].length);
    Associate(written, data, Pending(Written(s, 0, limit)));
  }

  /** The queue moved on by one payload. */
  lemma QueuePopped(queue: seq<RawPayload>, accepted: seq<RawPayload>)
    requires QueueIsTail(queue, accepted) && queue != []
    ensures QueueIsTail(queue[1..], accepted)
    ensures Sent(queue[1..], accepted) == Sent(queue, accepted) + [queue[0]]
    ensures SentTraces(Sent(queue[1..], accepted)) ==
      SentTraces(Sent(queue, accepted)) + [Finished(queue[0].ptype, queue[0].bytesSize, queue[0].bytesSize)]
  {
    assert accepted[|accepted| - |queue|] == queue[0];
  }

  lemma LastChunkPending(s: Sender, accepted: seq<RawPayload>, limit: Limit, data: seq<byte>)
    requires OneChain(s, accepted, limit) && s.ops != [] && s.ops[0].WBytes? && Emits(s, 0, data)
    requires s.offset + s.ops[0].length >= s.buf.bytesSize
    ensures OneChain(Written(s, 0, limit), accepted, limit)
    ensures Pending(s) == data + Pending(Written(s, 0, limit))
    ensures s.offset + s.ops[0].length == s.buf.bytesSize
  {
    var t := Written(s, 0, limit);
    QueuePopped(s.queue, accepted);
    assert data == s.buf.bytes[s.offset..];
    if t.queue != [] {
      assert FrontRest(t) == Frame(t.buf);
      assert EncodeAll(t.queue) == Pending(t);
    }
  }

  lemma LastChunkLogged(s: Sender, accepted: seq<RawPayload>, limit: Limit)
    requires OneChain(s, accepted, limit) && Logged(s, accepted) && s.ops != [] && s.ops[0].WBytes?
    requires s.offset + s.ops[0].length == s.buf.bytesSize
    ensures Logged(Written(s, 0, limit), accepted)
  {
    hide Balanced;
    var t := Written(s, 0, limit);
    var done, n := SentTraces(Sent(s.queue, accepted)), s.ops[0].length;
    var last := Finished(s.buf.ptype, s.buf.bytesSize, s.buf.bytesSize);
    QueuePopped(s.queue, accepted);
    SpeedBalanced(s.log, s.offset, done, n);
    SuccessBalanced(s.log.CommitSpeed(n), s.offset + n, done, s.buf.ptype, s.buf.bytesSize);
    if t.queue != [] {
      OpenedBalanced(s.log.CommitSpeed(n).Commit(), 0, done + [last], t.buf.ptype, t.buf.bytesSize);
    }
  }

  lemma WroteLastChunk(s: Sender, accepted: seq<RawPayload>, written: seq<byte>, limit: Limit, data: seq<byte>)
    requires SingleChain(s, accepted, written, limit) && s.ops != [] && s.ops[0].WBytes? && Emits(s, 0, data)
    requires s.offset + s.ops[0].length >= s.buf.bytesSize
    ensures SingleChain(Written(s, 0, limit), accepted, written + data, limit)
  {
    hide Balanced, EncodeAll, Pending;
    LastChunkPending(s, accepted, limit, data);
    LastChunkLogged(s, accepted, limit);
    Associate(written, data, Pending(Written(s, 0, limit)));
  }

  /** Every completed write keeps the invariant, whatever the chunk limit. */
  lemma WrittenKeepsSingleChain(s: Sender, accepted: seq<RawPayload>, written: seq<byte>, limit: Limit, i: nat,
    data: seq<byte>)
    requires SingleChain(s, accepted, written, limit) && i < |s.ops| && Emits(s, i, data)
    ensures MayComplete(s, i)
    ensures SingleChain(Written(s, i, limit), accepted, written + data, limit)
  {
    if !s.ops[0].WBytes? {
      WroteHeaderPart(s, accepted, written, limit, data);
    } else if s.offset + s.ops[0].length < s.buf.bytesSize {
      WroteChunk(s, accepted, written, limit, data);
    } else {
      WroteLastChunk(s, accepted, written, limit, data);
    }
  }

  /** Completing the write instead shows that its buffer continues the stream. */
  lemma EmittedIsNext(s: Sender, accepted: seq<RawPayload>, written: seq<byte>, limit: Limit, i: nat, data: seq<byte>)
    requires SingleChain(s, accepted, written, limit) && i < |s.ops| && Emits(s, i, data)
    ensures written + data <= EncodeAll(accepted)
  {
    WrittenKeepsSingleChain(s, accepted, written, limit, i, data);
    assert (written + data) + Pending(Written(s, i, limit)) == EncodeAll(accepted);
  }

  /** A failing write may have pushed out part of its buffer. */
  lemma FailureBreaks(s: Sender, accepted: seq<RawPayload>, written: seq<byte>, limit: Limit, i: nat,
    data: seq<byte>, n: nat)
    requires SingleChain(s, accepted, written, limit) && i < |s.ops| && Emits(s, i, data) && n <= |data|
    ensures Broken(WriteFailed(s, i), accepted, written + data[..n])
  {
    hide EncodeAll, Emits, Balanced, Pending;
    FailureBalanced(s.log, s.offset, SentTraces(Sent(s.queue, accepted)));
    EmittedIsNext(s, accepted, written, limit, i, data);
    assert written + data[..n] == (written + data)[..|written| + n];
  }

  /** Later sends on a broken connection queue up and fail at once. */
  lemma BrokenStaysBroken(s: Sender, accepted: seq<RawPayload>, written: seq<byte>, p: RawPayload, i: nat)
    requires Broken(s, accepted, written)
    ensures p.WellFormed() ==> Broken(Send(s, p, s.ops != []), accepted + [p], written)
    ensures i < |s.ops| ==> Broken(WriteFailed(s, i), accepted, written)
  {
    QueueGrows(s.queue, accepted, p);
    EncodeOneMore(accepted, p);
    var done := SentTraces(Sent(s.queue, accepted));
    if s.ops == [] {
      OpenedBalanced(s.log, 0, done, s.queue[0].ptype, s.queue[0].bytesSize);
    } else {
      FailureBalanced(s.log, 0, done);
    }
  }

  // ---------------------------------------------------------------- the object

  /** `_isProcessing` is inherited from the handler; no method of the sender assigns it. The outstanding writes belong
      to the io context, which calls back one of the `On...` methods when write `i` has completed. */
  class PayloadSender {
    const payloadQueue: AtomicQueue<RawPayload>
    const logger: PayloadLogger
    var buf: RawPayload
    var bufContentOffset: nat
    var isProcessing: bool
    var ops: seq<WriteOp>

    function State(): Sender
      reads this, payloadQueue, logger
    {
      Sender(payloadQueue.items, buf, bufContentOffset, ops, logger.State())
    }

    constructor (payloadQueue: AtomicQueue<RawPayload>)
      requires payloadQueue.Valid() && payloadQueue.items == []
      ensures this.payloadQueue == payloadQueue && fresh(logger)
      ensures State() == NEW_SENDER && !isProcessing
    {
      this.payloadQueue := payloadQueue;
      logger := new PayloadLogger();
      buf, bufContentOffset, isProcessing, ops := RawPayload(UNKNOWN, 0, []), 0, false, [];
    }

    method SendPayload(payload: RawPayload)
      requires payloadQueue.Valid()
      modifies this, payloadQueue, logger
      ensures payloadQueue.Valid() && isProcessing == old(isProcessing)
      ensures State() == Send(old(State()), payload, old(isProcessing))
    {
      payloadQueue.Push(payload);
      if isProcessing {
        return;
      }
      SendPayloadType();
    }

    method SendPayloadType()
      requires payloadQueue.Valid() && payloadQueue.items != []
      modifies this, logger
      ensures isProcessing == old(isProcessing) && State() == BeginFrame(old(State()))
    {
      buf := payloadQueue.Front();
      logger.LogNewPayload();
      logger.LogPayloadType(buf.ptype);
      logger.LogPayloadSize(buf.bytesSize);
      ops := ops + [WType];
    }

    method SendPayloadBytes(limit: Limit)
      modifies this
      ensures isProcessing == old(isProcessing) && State() == BeginBytes(old(State()), limit)
    {
      var bytesToWrite := ChunkLength(buf.bytesSize, bufContentOffset, limit);
      ops := ops + [WBytes(bufContentOffset, bytesToWrite)];
    }

    method OnPayloadSendError(i: nat)
      requires i < |ops|
      modifies this, logger
      ensures isProcessing == old(isProcessing) && State() == WriteFailed(old(State()), i)
    {
      ops := RemoveAt(ops, i);
      logger.CommitLog();
    }

    method OnTypeWritten(i: nat, limit: Limit)
      requires i < |ops| && ops[i].WType?
      modifies this
      ensures isProcessing == old(isProcessing) && State() == Written(old(State()), i, limit)
    {
      ops := RemoveAt(ops, i) + [WSize];
    }

    method OnBytesSizeWritten(i: nat, limit: Limit)
      requires i < |ops| && ops[i].WSize?
      modifies this
      ensures isProcessing == old(isProcessing) && State() == Written(old(State()), i, limit)
    {
      ops := RemoveAt(ops, i);
      SendPayloadBytes(limit);
    }

    method OnBytesWritten(i: nat, limit: Limit)
      requires payloadQueue.Valid() && MayComplete(State(), i) && ops[i].WBytes?
      modifies this, payloadQueue, logger
      ensures payloadQueue.Valid() && isProcessing == old(isProcessing)
      ensures State() == Written(old(State()), i, limit)
    {
      var length := ops[i].length;
      ops := RemoveAt(ops, i);
      bufContentOffset := bufContentOffset + length;
      logger.CommitPayloadSpeed(length);
      if bufContentOffset < buf.bytesSize {
        SendPayloadBytes(limit);
        return;
      }
      bufContentOffset := 0;
      var isQueueEmpty := payloadQueue.Pop();
      logger.CommitLog();
      if !isQueueEmpty {
        SendPayloadType();
      }
    }
  }
}
