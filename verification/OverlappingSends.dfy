/** What the guard of `_sendPayload` is worth. The sender reads `_isProcessing` (`IPayloadSender.cpp:37`) but nothing on
    the sending side ever sets it, so as written each call starts a chain of its own. This module takes the code at its
    word and finds out exactly which error-free runs stay sound: those where no call was made during a transfer. */
module OverlappingSends {
  import opened Payloads
  import opened PayloadSenders

  /** Calls and completed writes of one sender, no write failing. */
  datatype Event = Call(p: RawPayload) | Complete(i: nat)

  predicate MayHappen(s: Sender, e: Event) {
    e.Call? || MayComplete(s, e.i)
  }

  function Step(s: Sender, e: Event, limit: Limit): Sender
    requires MayHappen(s, e)
  {
    match e
    case Call(p) => Send(s, p, false)
    case Complete(i) => Written(s, i, limit)
  }

  /** A run in which no assertion fails. */
  predicate IsRun(s: Sender, run: seq<Event>, limit: Limit)
    decreases |run|
  {
    run == [] || (MayHappen(s, run[0]) && IsRun(Step(s, run[0], limit), run[1..], limit))
  }

  function Final(s: Sender, run: seq<Event>, limit: Limit): Sender
    requires IsRun(s, run, limit)
    decreases |run|
  {
    if run == [] then s else Final(Step(s, run[0], limit), run[1..], limit)
  }

  /** No call is made while a write is outstanding. */
  predicate NoOverlap(s: Sender, run: seq<Event>, limit: Limit)
    requires IsRun(s, run, limit)
    decreases |run|
  {
    run == [] || ((run[0].Call? ==> s.ops == []) && NoOverlap(Step(s, run[0], limit), run[1..], limit))
  }

  /** One write outstanding per non-empty queue, none for an empty one. */
  predicate InStep(s: Sender) {
    |s.ops| == if s.queue == [] then 0 else 1
  }

  /** More chains than the queue can feed. */
  predicate Surplus(s: Sender) {
    |s.ops| > if s.queue == [] then 0 else 1
  }

  lemma OverlapMakesSurplus(s: Sender, p: RawPayload)
    requires InStep(s) || Surplus(s)
    ensures InStep(Send(s, p, false)) <==> s.ops == []
    ensures s.ops != [] ==> Surplus(Send(s, p, false))
  {
  }

  /** A completed write only ever ends a chain by emptying the queue, so a surplus is for good. */
  lemma CompletionKeepsCount(s: Sender, i: nat, limit: Limit)
    requires MayComplete(s, i)
    ensures InStep(s) ==> InStep(Written(s, i, limit))
    ensures Surplus(s) ==> Surplus(Written(s, i, limit))
  {
  }

  lemma {:induction false} SurplusIsForGood(s: Sender, run: seq<Event>, limit: Limit)
    requires Surplus(s) && IsRun(s, run, limit)
    ensures Surplus(Final(s, run, limit))
    decreases |run|
  {
    if run != [] {
      match run[0] {
        case Call(p) => OverlapMakesSurplus(s, p);
        case Complete(i) => CompletionKeepsCount(s, i, limit);
      }
      SurplusIsForGood(Step(s, run[0], limit), run[1..], limit);
    }
  }

  /** Exactly the runs without an overlapping call end with one chain for the queue. */
  lemma {:induction false} InStepIffNoOverlap(s: Sender, run: seq<Event>, limit: Limit)
    requires InStep(s) && IsRun(s, run, limit)
    ensures InStep(Final(s, run, limit)) <==> NoOverlap(s, run, limit)
    decreases |run|
  {
    if run != [] {
      var t := Step(s, run[0], limit);
      match run[0] {
        case Call(p) => OverlapMakesSurplus(s, p);
        case Complete(i) => CompletionKeepsCount(s, i, limit);
      }
      if Surplus(t) {
        SurplusIsForGood(t, run[1..], limit);
      } else {
        InStepIffNoOverlap(t, run[1..], limit);
      }
    }
  }

  /** An overlapping call leaves a chain behind that never ends well: either the sender still has a write outstanding,
      or the run tripped the assertion in `AtomicQueue::pop`, which is no run at all. */
  lemma OverlapNeverQuiesces(run: seq<Event>, limit: Limit)
    requires IsRun(NEW_SENDER, run, limit)
    ensures Final(NEW_SENDER, run, limit).ops == [] ==> NoOverlap(NEW_SENDER, run, limit)
    ensures Final(NEW_SENDER, run, limit).ops == [] ==> Final(NEW_SENDER, run, limit).queue == []
  {
    InStepIffNoOverlap(NEW_SENDER, run, limit);
    CountsAreComparable(NEW_SENDER, run, limit);
  }

  lemma {:induction false} CountsAreComparable(s: Sender, run: seq<Event>, limit: Limit)
    requires (InStep(s) || Surplus(s)) && IsRun(s, run, limit)
    ensures InStep(Final(s, run, limit)) || Surplus(Final(s, run, limit))
    decreases |run|
  {
    if run != [] {
      match run[0] {
        case Call(p) => OverlapMakesSurplus(s, p);
        case Complete(i) => CompletionKeepsCount(s, i, limit);
      }
      CountsAreComparable(Step(s, run[0], limit), run[1..], limit);
    }
  }

  // ---------------------------------------------------------------- how an overlap ends

  function HeaderWork(op: WriteOp): nat {
    match op
    case WType => 2
    case WSize => 1
    case WBytes(_, _) => 0
  }

  function EmptyPiece(op: WriteOp): nat {
    if op.WBytes? && op.length == 0 then 1 else 0
  }

  function Total(f: WriteOp -> nat, ops: seq<WriteOp>): nat {
    if ops == [] then 0 else f(ops[0]) + Total(f, ops[1..])
  }

  function BodyLeft(s: Sender): nat {
    if s.offset < s.buf.bytesSize then s.buf.bytesSize - s.offset else 0
  }

  lemma {:induction false} TotalConcat(f: WriteOp -> nat, a: seq<WriteOp>, b: seq<WriteOp>)
    ensures Total(f, a + b) == Total(f, a) + Total(f, b)
    decreases |a|
  {
    if a == [] {
      assert a + b == b;
    } else {
      assert (a + b)[1..] == a[1..] + b;
      TotalConcat(f, a[1..], b);
    }
  }

  lemma TotalOfOne(f: WriteOp -> nat, op: WriteOp)
    ensures Total(f, [op]) == f(op)
  {
    assert [op][1..] == [];
  }

  lemma SplitAt(ops: seq<WriteOp>, i: nat)
    requires i < |ops|
    ensures ops == (ops[..i] + [ops[i]]) + ops[i + 1..]
  {
  }

  /** One write making way for another. */
  lemma TotalReplaced(f: WriteOp -> nat, ops: seq<WriteOp>, i: nat, op: WriteOp)
    requires i < |ops|
    ensures Total(f, RemoveAt(ops, i) + [op]) == Total(f, ops) - f(ops[i]) + f(op)
  {
    hide Total;
    var a, b := ops[..i], ops[i + 1..];
    SplitAt(ops, i);
    TotalConcat(f, a + b, [op]);
    TotalConcat(f, a, b);
    TotalConcat(f, a + [ops[i]], b);
    TotalConcat(f, a, [ops[i]]);
    TotalOfOne(f, ops[i]);
    TotalOfOne(f, op);
  }

  /** A completed write takes a payload off the queue, or gets a header on, or moves some of the body, or turns an empty
      piece into one that is not. */
  lemma CompletionMakesProgress(s: Sender, i: nat, limit: Limit)
    requires MayComplete(s, i)
    ensures var t := Written(s, i, limit);
      || |t.queue| < |s.queue|
      || (|t.queue| == |s.queue| &&
          (|| Total(HeaderWork, t.ops) < Total(HeaderWork, s.ops)
           || (Total(HeaderWork, t.ops) == Total(HeaderWork, s.ops) &&
               (|| BodyLeft(t) < BodyLeft(s)
                || (BodyLeft(t) == BodyLeft(s) && Total(EmptyPiece, t.ops) < Total(EmptyPiece, s.ops))))))
  {
    var t := Written(s, i, limit);
    if |t.queue| == |s.queue| {
      var op := t.ops[|t.ops| - 1];
      assert t.ops == RemoveAt(s.ops, i) + [op];
      TotalReplaced(HeaderWork, s.ops, i, op);
      TotalReplaced(EmptyPiece, s.ops, i, op);
    }
  }

  /** Which of the outstanding writes completes next, in an order of anyone's choosing. */
  function Chosen(s: Sender, choices: nat -> nat, k: nat): nat
    requires s.ops != []
  {
    choices(k) % |s.ops|
  }

  /** The run completes the writes chosen, and makes no call. */
  predicate Follows(s: Sender, run: seq<Event>, choices: nat -> nat, k: nat, limit: Limit)
    requires IsRun(s, run, limit)
    decreases |run|
  {
    run == [] ||
    (s.ops != [] && run[0] == Complete(Chosen(s, choices, k)) &&
      Follows(Step(s, run[0], limit), run[1..], choices, k + 1, limit))
  }

  /** With a chain too many and no further call, completing writes in any order comes to one whose callback pops the
      empty queue. */
  lemma {:induction false} SurplusReachesAssertion(s: Sender, choices: nat -> nat, k: nat, limit: Limit)
    returns (run: seq<Event>)
    requires Surplus(s)
    ensures IsRun(s, run, limit) && Follows(s, run, choices, k, limit)
    ensures var t := Final(s, run, limit);
      t.queue == [] && t.ops != [] && !MayComplete(t, Chosen(t, choices, k + |run|))
    decreases |s.queue|, Total(HeaderWork, s.ops), BodyLeft(s), Total(EmptyPiece, s.ops)
  {
    hide Total, BodyLeft, Written, MayComplete;
    var i := Chosen(s, choices, k);
    if MayComplete(s, i) {
      CompletionMakesProgress(s, i, limit);
      CompletionKeepsCount(s, i, limit);
      var rest := SurplusReachesAssertion(Written(s, i, limit), choices, k + 1, limit);
      run := [Complete(i)] + rest;
      assert run[1..] == rest;
    } else {
      BlockedAtPop(s, i);
      run := [];
    }
  }

  lemma BlockedAtPop(s: Sender, i: nat)
    requires i < |s.ops| && !MayComplete(s, i)
    ensures s.queue == []
  {
  }

  /** So it is after any call during a transfer, whatever went before, failing writes included: unless something fails
      then, only another call can put the assertion off. */
  lemma OverlapReachesAssertion(s: Sender, p: RawPayload, choices: nat -> nat, limit: Limit) returns (run: seq<Event>)
    requires s.ops != []
    ensures IsRun(Send(s, p, false), run, limit) && Follows(Send(s, p, false), run, choices, 0, limit)
    ensures var t := Final(Send(s, p, false), run, limit);
      t.queue == [] && t.ops != [] && !MayComplete(t, Chosen(t, choices, |run|))
  {
    run := SurplusReachesAssertion(Send(s, p, false), choices, 0, limit);
  }

  // ---------------------------------------------------------------- sound runs

  function CallOf(e: Event): seq<RawPayload> {
    if e.Call? then [e.p] else []
  }

  function Calls(run: seq<Event>): seq<RawPayload> {
    if run == [] then [] else CallOf(run[0]) + Calls(run[1..])
  }

  /** The bytes a run may put on the socket: each completed write contributes what it emits. */
  ghost predicate Writes(s: Sender, run: seq<Event>, limit: Limit, data: seq<seq<byte>>)
    requires IsRun(s, run, limit)
    decreases |run|
  {
    if run == [] then data == []
    else
      && data != []
      && (if run[0].Call? then data[0] == [] else Emits(s, run[0].i, data[0]))
      && Writes(Step(s, run[0], limit), run[1..], limit, data[1..])
  }

  lemma SoundStep(s: Sender, e: Event, limit: Limit, accepted: seq<RawPayload>, written: seq<byte>, data: seq<byte>)
    requires SingleChain(s, accepted, written, limit) && MayHappen(s, e)
    requires match e case Call(p) => s.ops == [] && p.WellFormed() && data == [] case Complete(i) => Emits(s, i, data)
    ensures SingleChain(Step(s, e, limit), accepted + CallOf(e), written + data, limit)
  {
    match e {
      case Call(p) =>
        SendToIdle(s, accepted, written, limit, p);
        assert written + [] == written;
      case Complete(i) =>
        WrittenKeepsSingleChain(s, accepted, written, limit, i, data);
        assert accepted + [] == accepted;
    }
  }

  /** Without an overlapping call the invariant holds to the end, and the bytes written are the frames of the payloads
      passed in, in order, less what the chain still has to write. */
  lemma {:induction false} SoundRun(s: Sender, run: seq<Event>, limit: Limit, data: seq<seq<byte>>,
                                    accepted: seq<RawPayload>, written: seq<byte>)
    requires IsRun(s, run, limit) && NoOverlap(s, run, limit) && Writes(s, run, limit, data)
    requires SingleChain(s, accepted, written, limit)
    requires forall e :: e in run && e.Call? ==> e.p.WellFormed()
    ensures SingleChain(Final(s, run, limit), accepted + Calls(run), written + Concat(data), limit)
    decreases |run|
  {
    hide SingleChain, Emits, MayComplete, Written, Send, Calls, Concat;
    if run == [] {
      NothingCalledOrWritten(accepted, written);
    } else {
      assert run[0] in run;
      var t, mine := Step(s, run[0], limit), CallOf(run[0]);
      SoundStep(s, run[0], limit, accepted, written, data[0]);
      SoundRun(t, run[1..], limit, data[1..], accepted + mine, written + data[0]);
      CallsFirst(accepted, run);
      WrittenFirst(written, data);
    }
  }

  lemma NothingCalledOrWritten(accepted: seq<RawPayload>, written: seq<byte>)
    ensures accepted + Calls([]) == accepted && written + Concat([]) == written
  {
  }

  lemma CallsFirst(accepted: seq<RawPayload>, run: seq<Event>)
    requires run != []
    ensures accepted + Calls(run) == (accepted + CallOf(run[0])) + Calls(run[1..])
  {
    Associate(accepted, CallOf(run[0]), Calls(run[1..]));
  }

  lemma WrittenFirst(written: seq<byte>, data: seq<seq<byte>>)
    requires data != []
    ensures written + Concat(data) == (written + data[0]) + Concat(data[1..])
  {
    Associate(written, data[0], Concat(data[1..]));
  }

  lemma NewSenderIsSound(limit: Limit)
    ensures SingleChain(NEW_SENDER, [], [], limit)
  {
  }

  lemma IdleWroteEverything(s: Sender, accepted: seq<RawPayload>, written: seq<byte>, limit: Limit)
    requires SingleChain(s, accepted, written, limit) && s.ops == []
    ensures written == EncodeAll(accepted)
  {
    assert written + [] == written;
  }

  /** A run that quiesces, with the guard as written, wrote exactly the frames of the payloads passed in. */
  lemma QuiescentRunWroteEverything(run: seq<Event>, limit: Limit, data: seq<seq<byte>>)
    requires IsRun(NEW_SENDER, run, limit) && Writes(NEW_SENDER, run, limit, data)
    requires forall e :: e in run && e.Call? ==> e.p.WellFormed()
    requires Final(NEW_SENDER, run, limit).ops == []
    ensures Concat(data) == EncodeAll(Calls(run))
  {
    hide SingleChain, Writes, Calls, Concat, IsRun, Final, NoOverlap;
    OverlapNeverQuiesces(run, limit);
    NewSenderIsSound(limit);
    SoundRun(NEW_SENDER, run, limit, data, [], []);
    IdleWroteEverything(Final(NEW_SENDER, run, limit), [] + Calls(run), [] + Concat(data), limit);
    assert [] + Calls(run) == Calls(run) && [] + Concat(data) == Concat(data);
  }
}
