/** The receive state machine of `IPayloadReceiver.cpp`, with the spawn id that `SpawnedSocket.cpp` stores once in the
    buffer every frame is then read into. */
module PayloadReceivers {
  import opened Payloads
  import opened PayloadLogging
  import opened AtomicQueues
  import opened PayloadSenders

  /** The outstanding asynchronous read; there is none before the start and after an error. */
  datatype ReadOp = NoRead | RType | RSize | RBytes(start: nat, length: nat)

  datatype Receiver = Receiver(buf: SpawnedPayload, offset: nat, isProcessing: bool, op: ReadOp, log: Log)

  /** What a callback leaves behind: the new state and what it pushed to the shared queue. */
  datatype ReadResult = ReadResult(receiver: Receiver, pushed: seq<SpawnedPayload>)

  function NewReceiver(spawnId: int): Receiver {
    Receiver(SpawnedPayload(RawPayload(UNKNOWN, 0, []), spawnId), 0, false, NoRead, EMPTY_LOG)
  }

  function Start(r: Receiver): Receiver {
    if r.isProcessing then r else r.(isProcessing := true, op := RType)
  }

  /** `std::string::resize` */
  function Resize(s: seq<byte>, n: nat): (t: seq<byte>)
    ensures |t| == n
  {
    if n <= |s| then s[..n] else s + seq(n - |s|, _ => 0 as byte)
  }

  function Overwrite(s: seq<byte>, start: nat, data: seq<byte>): (t: seq<byte>)
    requires start + |data| <= |s|
    ensures |t| == |s|
  {
    s[..start] + data + s[start + |data|..]
  }

  function Need(op: ReadOp): nat {
    match op
    case NoRead => 0
    case RType => TYPE_BYTES
    case RSize => SIZE_BYTES
    case RBytes(_, length) => length
  }

  /** The buffer handed to the outstanding read lies inside the body. */
  predicate InBounds(r: Receiver) {
    r.op.RBytes? ==> r.op.start + r.op.length <= |r.buf.raw.bytes|
  }

  function WithRaw(r: Receiver, raw: RawPayload): Receiver {
    r.(buf := r.buf.(raw := raw))
  }

  function BeginRead(r: Receiver, limit: Limit): Receiver {
    r.(op := RBytes(r.offset, ChunkLength(r.buf.raw.bytesSize, r.offset, limit)))
  }

  /** The callback of the outstanding read, without error. */
  function Read(r: Receiver, data: seq<byte>, limit: Limit): ReadResult
    requires !r.op.NoRead? && |data| == Need(r.op) && InBounds(r)
  {
    var raw := r.buf.raw;
    match r.op
    case RType =>
      ReadResult(WithRaw(r, raw.(ptype := TypeOf(data))).(op := RSize,
        log := r.log.NewPayload().WithType(TypeOf(data))), [])
    case RSize =>
      var n := SizeOf(data);
      ReadResult(BeginRead(WithRaw(r, raw.(bytesSize := n, bytes := Resize(raw.bytes, n))), limit), [])
    case RBytes(start, length) =>
      var s := WithRaw(r, raw.(bytes := Overwrite(raw.bytes, start, data)))
               .(offset := r.offset + length, log := r.log.CommitSpeed(length));
      if s.offset < raw.bytesSize then ReadResult(BeginRead(s, limit), [])
      else ReadResult(s.(offset := 0, log := s.log.Commit(), op := RType), [s.buf])
  }

  /** The callback of the outstanding read, with an error: the payload whose type could not be read is logged too. */
  function ReadFailed(r: Receiver): Receiver
    requires !r.op.NoRead?
  {
    var log := if r.op.RType? then r.log.NewPayload().WithType(r.buf.raw.ptype) else r.log;
    r.(op := NoRead, log := log.Commit())
  }

  // ---------------------------------------------------------------- invariant

  function Raws(ps: seq<SpawnedPayload>): (r: seq<RawPayload>)
    ensures |r| == |ps|
    ensures forall i :: 0 <= i < |ps| ==> r[i] == ps[i].raw
  {
    seq(|ps|, i requires 0 <= i < |ps| => ps[i].raw)
  }

  /** The traces of payloads received: type and as many bytes as their size, but no size. */
  function ReceivedTraces(ps: seq<RawPayload>): (r: seq<Finished>)
    ensures |r| == |ps|
    ensures forall i :: 0 <= i < |ps| ==> r[i] == Finished(ps[i].ptype, 0, ps[i].bytesSize)
  {
    seq(|ps|, i requires 0 <= i < |ps| => Finished(ps[i].ptype, 0, ps[i].bytesSize as nat))
  }

  predicate AllFrom(ps: seq<SpawnedPayload>, spawnId: int) {
    forall i :: 0 <= i < |ps| ==> ps[i].spawnId == spawnId
  }

  /** What has been read of the frame under way. */
  ghost function Partial(r: Receiver): seq<byte>
    requires r.op.RBytes? ==> r.offset <= |r.buf.raw.bytes|
  {
    match r.op
    case NoRead => []
    case RType => []
    case RSize => TypeBytes(r.buf.raw.ptype)
    case RBytes(_, _) => TypeBytes(r.buf.raw.ptype) + SizeBytes(r.buf.raw.bytesSize) + r.buf.raw.bytes[..r.offset]
  }

  /** The shape of a receiver: one read outstanding, on the right part of the buffer, and the spawn id in place. */
  ghost predicate ReceiverShape(r: Receiver, spawnId: int, limit: Limit) {
    && r.buf.spawnId == spawnId
    && (r.isProcessing <== !r.op.NoRead?)
    && (if r.op.RBytes? then
          && r.buf.raw.WellFormed() && r.offset <= r.buf.raw.bytesSize
          && r.op == RBytes(r.offset, ChunkLength(r.buf.raw.bytesSize, r.offset, limit))
        else r.op.NoRead? || r.offset == 0)
  }

  ghost predicate ReceiverLogged(r: Receiver, delivered: seq<SpawnedPayload>) {
    if r.op.NoRead? then Balanced(r.log, false, 0, ReceivedTraces(Raws(delivered)))
    else
      && Balanced(r.log, !r.op.RType?, r.offset, ReceivedTraces(Raws(delivered)))
      && Describes(r.log, if r.op.RType? then r.log.traceBuf.payloadType else r.buf.raw.ptype, 0)
      && |r.log.traces| == |delivered|
  }

  /** The frames delivered, then the frame under way, are exactly what was read. */
  ghost predicate Receiving(r: Receiver, delivered: seq<SpawnedPayload>, read: seq<byte>, spawnId: int, limit: Limit) {
    && ReceiverShape(r, spawnId, limit)
    && AllWellFormed(Raws(delivered)) && AllFrom(delivered, spawnId)
    && ReceiverLogged(r, delivered)
    && (if r.op.NoRead? then EncodeAll(Raws(delivered)) <= read
        else EncodeAll(Raws(delivered)) + Partial(r) == read)
  }

  lemma DeliveredOneMore(delivered: seq<SpawnedPayload>, p: SpawnedPayload)
    ensures Raws(delivered + [p]) == Raws(delivered) + [p.raw]
    ensures EncodeAll(Raws(delivered + [p])) == EncodeAll(Raws(delivered)) + Frame(p.raw)
    ensures ReceivedTraces(Raws(delivered + [p])) ==
      ReceivedTraces(Raws(delivered)) + [Finished(p.raw.ptype, 0, p.raw.bytesSize)]
  {
    EncodeOneMore(Raws(delivered), p.raw);
  }

  lemma OverwriteGrows(s: seq<byte>, start: nat, data: seq<byte>)
    requires start + |data| <= |s|
    ensures Overwrite(s, start, data)[..start + |data|] == s[..start] + data
  {
  }

  /** Reading part of a body leaves the rest of it for the next read. */
  lemma BodyGrows(r: Receiver, spawnId: int, limit: Limit, data: seq<byte>)
    requires ReceiverShape(r, spawnId, limit) && r.op.RBytes? && |data| == r.op.length
    requires r.offset + r.op.length < r.buf.raw.bytesSize
    ensures InBounds(r)
    ensures ReceiverShape(Read(r, data, limit).receiver, spawnId, limit)
    ensures Partial(Read(r, data, limit).receiver) == Partial(r) + data
  {
    hide Overwrite;
    OverwriteGrows(r.buf.raw.bytes, r.offset, data);
    Associate(TypeBytes(r.buf.raw.ptype) + SizeBytes(r.buf.raw.bytesSize), r.buf.raw.bytes[..r.offset], data);
  }

  lemma HeaderGrows(r: Receiver, spawnId: int, limit: Limit, data: seq<byte>)
    requires ReceiverShape(r, spawnId, limit) && (r.op.RType? || r.op.RSize?) && |data| == Need(r.op)
    ensures ReceiverShape(Read(r, data, limit).receiver, spawnId, limit)
    ensures Partial(Read(r, data, limit).receiver) == Partial(r) + data
  {
    HeaderWidths();
    BytesRoundTrip(data);
    if r.op.RSize? {
      var t := Read(r, data, limit).receiver;
      assert t.buf.raw.bytes[..0] == [];
      assert SizeBytes(SizeOf(data)) == data;
    }
  }

  /** Reading part of a frame: shape and bytes. */
  lemma PartialGrows(r: Receiver, spawnId: int, limit: Limit, data: seq<byte>)
    requires ReceiverShape(r, spawnId, limit) && !r.op.NoRead? && |data| == Need(r.op)
    requires !r.op.RBytes? || r.offset + r.op.length < r.buf.raw.bytesSize
    ensures InBounds(r)
    ensures ReceiverShape(Read(r, data, limit).receiver, spawnId, limit) && Read(r, data, limit).pushed == []
    ensures !Read(r, data, limit).receiver.op.NoRead?
    ensures Partial(Read(r, data, limit).receiver) == Partial(r) + data
  {
    hide Partial;
    if r.op.RBytes? {
      BodyGrows(r, spawnId, limit, data);
    } else {
      HeaderGrows(r, spawnId, limit, data);
    }
  }

  lemma PartialLogged(r: Receiver, delivered: seq<SpawnedPayload>, spawnId: int, limit: Limit, data: seq<byte>)
    requires ReceiverShape(r, spawnId, limit) && ReceiverLogged(r, delivered)
    requires !r.op.NoRead? && |data| == Need(r.op) && InBounds(r)
    requires !r.op.RBytes? || r.offset + r.op.length < r.buf.raw.bytesSize
    ensures ReceiverLogged(Read(r, data, limit).receiver, delivered)
  {
    hide Balanced;
    var done := ReceivedTraces(Raws(delivered));
    match r.op {
      case RType => OpenedBalanced(r.log, r.offset, done, TypeOf(data), 0);
      case RSize =>
      case RBytes(start, length) => SpeedBalanced(r.log, r.offset, done, length);
    }
  }

  /** Reading the last piece: the frame is complete and is pushed. */
  lemma LastPiece(r: Receiver, spawnId: int, limit: Limit, data: seq<byte>)
    requires ReceiverShape(r, spawnId, limit) && r.op.RBytes? && |data| == r.op.length
    requires r.offset + r.op.length >= r.buf.raw.bytesSize
    ensures InBounds(r)
    ensures ReceiverShape(Read(r, data, limit).receiver, spawnId, limit) && Read(r, data, limit).receiver.op.RType?
    ensures |Read(r, data, limit).pushed| == 1
    ensures Read(r, data, limit).pushed[0].spawnId == spawnId
    ensures Read(r, data, limit).pushed[0].raw.WellFormed()
    ensures Read(r, data, limit).pushed[0].raw.bytesSize == r.offset + r.op.length
    ensures Frame(Read(r, data, limit).pushed[0].raw) == Partial(r) + data
  {
    var p := Read(r, data, limit).pushed[0];
    assert p.raw.bytes == r.buf.raw.bytes[..r.offset] + data;
  }

  lemma LastPieceLogged(r: Receiver, delivered: seq<SpawnedPayload>, spawnId: int, limit: Limit, data: seq<byte>)
    requires ReceiverShape(r, spawnId, limit) && ReceiverLogged(r, delivered)
    requires r.op.RBytes? && |data| == r.op.length && r.offset + r.op.length >= r.buf.raw.bytesSize && InBounds(r)
    ensures ReceiverLogged(Read(r, data, limit).receiver, delivered + Read(r, data, limit).pushed)
  {
    hide Balanced;
    var done := ReceivedTraces(Raws(delivered));
    LastPiece(r, spawnId, limit, data);
    DeliveredOneMore(delivered, Read(r, data, limit).pushed[0]);
    SpeedBalanced(r.log, r.offset, done, r.op.length);
    SuccessBalanced(r.log.CommitSpeed(r.op.length), r.offset + r.op.length, done, r.buf.raw.ptype, 0);
  }

  /** Every completed read keeps the invariant, whatever the chunk limit. */
  lemma ReadKeepsReceiving(r: Receiver, delivered: seq<SpawnedPayload>, read: seq<byte>, spawnId: int, limit: Limit,
                           data: seq<byte>)
    requires Receiving(r, delivered, read, spawnId, limit) && !r.op.NoRead? && |data| == Need(r.op)
    ensures InBounds(r)
    ensures Receiving(Read(r, data, limit).receiver, delivered + Read(r, data, limit).pushed, read + data,
      spawnId, limit)
  {
    hide Balanced, EncodeAll, Frame;
    if !r.op.RBytes? || r.offset + r.op.length < r.buf.raw.bytesSize {
      PartialGrows(r, spawnId, limit, data);
      PartialLogged(r, delivered, spawnId, limit, data);
      assert delivered + Read(r, data, limit).pushed == delivered;
    } else {
      LastPiece(r, spawnId, limit, data);
      LastPieceLogged(r, delivered, spawnId, limit, data);
      var p := Read(r, data, limit).pushed[0];
      assert Read(r, data, limit).pushed == [p];
      DeliveredOneMore(delivered, p);
      assert EncodeAll(Raws(delivered + [p])) + [] == EncodeAll(Raws(delivered + [p]));
    }
    Associate(EncodeAll(Raws(delivered)), Partial(r), data);
  }

  lemma FailureEndsReceiving(r: Receiver, delivered: seq<SpawnedPayload>, read: seq<byte>, spawnId: int, limit: Limit)
    requires Receiving(r, delivered, read, spawnId, limit) && !r.op.NoRead?
    ensures Receiving(ReadFailed(r), delivered, read, spawnId, limit)
  {
    hide Balanced, EncodeAll;
    var done := ReceivedTraces(Raws(delivered));
    if r.op.RType? {
      OpenedBalanced(r.log, r.offset, done, r.buf.raw.ptype, 0);
      FailureBalanced(ReadFailed(r).log.(traces := r.log.traces), 0, done);
    } else {
      FailureBalanced(r.log, r.offset, done);
    }
  }

  // ---------------------------------------------------------------- the object

  class PayloadReceiver {
    const payloadQueue: AtomicQueue<SpawnedPayload>
    const logger: PayloadLogger
    var buf: SpawnedPayload
    var bufContentOffset: nat
    var isProcessing: bool
    var op: ReadOp

    function State(): Receiver
      reads this, logger
    {
      Receiver(buf, bufContentOffset, isProcessing, op, logger.State())
    }

    constructor (payloadQueue: AtomicQueue<SpawnedPayload>, spawnId: int)
      ensures this.payloadQueue == payloadQueue && fresh(logger)
      ensures State() == NewReceiver(spawnId)
    {
      this.payloadQueue := payloadQueue;
      logger := new PayloadLogger();
      buf, bufContentOffset, isProcessing, op := SpawnedPayload(RawPayload(UNKNOWN, 0, []), spawnId), 0, false, NoRead;
    }

    method StartReceiving()
      modifies this
      ensures State() == Start(old(State()))
    {
      if isProcessing {
        return;
      }
      isProcessing := true;
      op := RType;
    }

    method OnTypeRead(data: seq<byte>, limit: Limit)
      requires op.RType? && |data| == TYPE_BYTES
      modifies this, logger
      ensures State() == Read(old(State()), data, limit).receiver
    {
      buf := buf.(raw := buf.raw.(ptype := TypeOf(data)));
      logger.LogNewPayload();
      logger.LogPayloadType(buf.raw.ptype);
      op := RSize;
    }

    method OnBytesSizeRead(data: seq<byte>, limit: Limit)
      requires op.RSize? && |data| == SIZE_BYTES
      modifies this
      ensures State() == Read(old(State()), data, limit).receiver
    {
      var n := SizeOf(data);
      buf := buf.(raw := buf.raw.(bytesSize := n, bytes := Resize(buf.raw.bytes, n)));
      op := RBytes(bufContentOffset, ChunkLength(buf.raw.bytesSize, bufContentOffset, limit));
    }

    method OnBytesRead(data: seq<byte>, limit: Limit)
      requires op.RBytes? && |data| == op.length && InBounds(State()) && payloadQueue.Valid()
      modifies this, payloadQueue, logger
      ensures payloadQueue.Valid()
      ensures State() == Read(old(State()), data, limit).receiver
      ensures payloadQueue.items == old(payloadQueue.items) + Read(old(State()), data, limit).pushed
    {
      var length := |data|;
      buf := buf.(raw := buf.raw.(bytes := Overwrite(buf.raw.bytes, op.start, data)));
      bufContentOffset := bufContentOffset + length;
      logger.CommitPayloadSpeed(length);
      if bufContentOffset < buf.raw.bytesSize {
        op := RBytes(bufContentOffset, ChunkLength(buf.raw.bytesSize, bufContentOffset, limit));
        return;
      }
      payloadQueue.Push(buf);
      logger.CommitLog();
      bufContentOffset := 0;
      op := RType;
    }

    method OnPayloadReceiveError()
      requires !op.NoRead?
      modifies this, logger
      ensures State() == ReadFailed(old(State()))
    {
      if op.RType? {
        logger.LogNewPayload();
        logger.LogPayloadType(buf.raw.ptype);
      }
      logger.CommitLog();
      op := NoRead;
    }
  }
}
