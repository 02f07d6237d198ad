/** The trace accounting of `PayloadLogger.cpp`, without its timestamps. */
module PayloadLogging {
  import opened Payloads

  datatype PayloadTrace = PayloadTrace(payloadId: nat, payloadType: uint32, expectedSize: size_t)
  datatype SpeedTrace = SpeedTrace(payloadId: nat, bytesExchanged: nat)

  /** What one logger has recorded: the trace being filled and the two queues, oldest first. */
  datatype Log = Log(traceBuf: PayloadTrace, traces: seq<PayloadTrace>, speeds: seq<SpeedTrace>)
  {
    function NewPayload(): Log {
      this.(traceBuf := traceBuf.(payloadId := traceBuf.payloadId + 1))
    }

    function WithType(t: uint32): Log {
      this.(traceBuf := traceBuf.(payloadType := t))
    }

    function WithSize(n: size_t): Log {
      this.(traceBuf := traceBuf.(expectedSize := n))
    }

    function CommitSpeed(loaded: nat): Log {
      this.(speeds := speeds + [SpeedTrace(traceBuf.payloadId, loaded)])
    }

    function Commit(): Log {
      this.(traces := traces + [traceBuf])
    }
  }

  const EMPTY_LOG := Log(PayloadTrace(0, UNKNOWN, 0), [], [])

  class PayloadLogger {
    var traceBuf: PayloadTrace
    var tracesQueue: seq<PayloadTrace>
    var speedQueue: seq<SpeedTrace>

    function State(): Log
      reads this
    {
      Log(traceBuf, tracesQueue, speedQueue)
    }

    constructor ()
      ensures State() == EMPTY_LOG
    {
      traceBuf, tracesQueue, speedQueue := PayloadTrace(0, UNKNOWN, 0), [], [];
    }

    method LogNewPayload()
      modifies this
      ensures State() == old(State()).NewPayload()
    {
      traceBuf := traceBuf.(payloadId := traceBuf.payloadId + 1);
    }

    method LogPayloadType(payloadType: uint32)
      modifies this
      ensures State() == old(State()).WithType(payloadType)
    {
      traceBuf := traceBuf.(payloadType := payloadType);
    }

    method LogPayloadSize(expectedSize: size_t)
      modifies this
      ensures State() == old(State()).WithSize(expectedSize)
    {
      traceBuf := traceBuf.(expectedSize := expectedSize);
    }

    method CommitPayloadSpeed(loaded: nat)
      modifies this
      ensures State() == old(State()).CommitSpeed(loaded)
    {
      speedQueue := speedQueue + [SpeedTrace(traceBuf.payloadId, loaded)];
    }

    method CommitLog()
      modifies this
      ensures State() == old(State()).Commit()
    {
      tracesQueue := tracesQueue + [traceBuf];
    }
  }

  // ---------------------------------------------------------------- accounting

  /** Bytes recorded against one payload id. */
  function BytesFor(speeds: seq<SpeedTrace>, id: nat): nat {
    if speeds == [] then 0
    else
      var last := speeds[|speeds| - 1];
      BytesFor(speeds[..|speeds| - 1], id) + (if last.payloadId == id then last.bytesExchanged else 0)
  }

  /** A payload that went through: what its trace says of it, and how many bytes moved. */
  datatype Finished = Finished(payloadType: uint32, expectedSize: size_t, bytes: nat)

  ghost predicate TraceOf(log: Log, i: nat, f: Finished)
    requires i < |log.traces|
  {
    && log.traces[i].payloadType == f.payloadType && log.traces[i].expectedSize == f.expectedSize
    && BytesFor(log.speeds, i + 1) == f.bytes
  }

  /** The books are straight: `open` says whether a payload was begun and not yet committed, `exchanged` how much of it
      has moved, `done` lists the payloads that went through completely, in order. */
  ghost predicate Balanced(log: Log, open: bool, exchanged: nat, done: seq<Finished>) {
    && log.traceBuf.payloadId == |log.traces| + (if open then 1 else 0)
    && (forall i :: 0 <= i < |log.traces| ==> log.traces[i].payloadId == i + 1)
    && (forall i :: 0 <= i < |log.speeds| ==> 1 <= log.speeds[i].payloadId <= log.traceBuf.payloadId)
    && (open ==> BytesFor(log.speeds, log.traceBuf.payloadId) == exchanged)
    && |done| <= |log.traces|
    && (forall i :: 0 <= i < |done| ==> TraceOf(log, i, done[i]))
  }

  /** What the open trace says. */
  ghost predicate Describes(log: Log, payloadType: uint32, expectedSize: size_t) {
    log.traceBuf.payloadType == payloadType && log.traceBuf.expectedSize == expectedSize
  }

  lemma {:induction false} NothingForFutureIds(speeds: seq<SpeedTrace>, id: nat)
    requires forall i :: 0 <= i < |speeds| ==> speeds[i].payloadId < id
    ensures BytesFor(speeds, id) == 0
    decreases |speeds|
  {
    if speeds != [] {
      NothingForFutureIds(speeds[..|speeds| - 1], id);
    }
  }

  /** A payload is opened under the next id, with its type, and with its size if that is logged. */
  lemma OpenedBalanced(log: Log, exchanged: nat, done: seq<Finished>, t: uint32, n: size_t)
    requires Balanced(log, false, exchanged, done)
    ensures Balanced(log.NewPayload().WithType(t), true, 0, done)
    ensures Describes(log.NewPayload().WithType(t), t, log.traceBuf.expectedSize)
    ensures Balanced(log.NewPayload().WithType(t).WithSize(n), true, 0, done)
    ensures Describes(log.NewPayload().WithType(t).WithSize(n), t, n)
  {
    NothingForFutureIds(log.speeds, log.traceBuf.payloadId + 1);
  }

  lemma SpeedBalanced(log: Log, exchanged: nat, done: seq<Finished>, loaded: nat)
    requires Balanced(log, true, exchanged, done)
    ensures Balanced(log.CommitSpeed(loaded), true, exchanged + loaded, done)
  {
    var speeds := log.CommitSpeed(loaded).speeds;
    assert speeds[..|speeds| - 1] == log.speeds;
  }

  lemma SuccessBalanced(log: Log, exchanged: nat, done: seq<Finished>, t: uint32, n: size_t)
    requires Balanced(log, true, exchanged, done) && Describes(log, t, n) && |done| == |log.traces|
    ensures Balanced(log.Commit(), false, 0, done + [Finished(t, n, exchanged)])
    ensures |done + [Finished(t, n, exchanged)]| == |log.Commit().traces|
  {
  }

  lemma FailureBalanced(log: Log, exchanged: nat, done: seq<Finished>)
    requires Balanced(log, true, exchanged, done)
    ensures Balanced(log.Commit(), false, 0, done)
  {
  }
}
