/** Connections with the guard of `_sendPayload` as written: `_isProcessing` always reads false. */
module LiteralRuns {
  import opened Connections
  import opened Payloads
  import opened PayloadReceivers
  import opened PayloadSenders

  /** A run of the code as it stands: any event that may happen, `_isProcessing` reading false. */
  predicate IsLiteralRun(c: Connection, run: seq<Event>)
    decreases |run|
  {
    run == [] || (MayHappen(c, run[0]) && (run[0].Send? ==> !run[0].processing) &&
      IsLiteralRun(Step(c, run[0]), run[1..]))
  }

  function Outcome(c: Connection, run: seq<Event>): Connection
    requires IsLiteralRun(c, run)
    decreases |run|
  {
    if run == [] then c else Outcome(Step(c, run[0]), run[1..])
  }

  // ---------------------------------------------------------------- runs without overlapping calls

  /** No call is made while a write is outstanding. */
  predicate NoCallOverlaps(c: Connection, run: seq<Event>)
    requires IsLiteralRun(c, run)
    decreases |run|
  {
    run == [] || ((run[0].Send? ==> c.sender.ops == []) && NoCallOverlaps(Step(c, run[0]), run[1..]))
  }

  predicate OneChainThroughout(c: Connection, run: seq<Event>)
    requires IsLiteralRun(c, run)
    decreases |run|
  {
    |c.sender.ops| <= 1 && (run == [] || OneChainThroughout(Step(c, run[0]), run[1..]))
  }

  lemma StepAndChains(c: Connection, e: Event)
    requires MayHappen(c, e) && (e.Send? ==> !e.processing) && |c.sender.ops| <= 1
    ensures |Step(c, e).sender.ops| <= 1 <==> (e.Send? ==> c.sender.ops == [])
  {
  }

  /** Over all runs, failing writes included: at most one write is outstanding at any time if and only if no call is
      made during a transfer. */
  lemma {:induction false} OneChainExactlyWithoutOverlap(c: Connection, run: seq<Event>)
    requires IsLiteralRun(c, run) && |c.sender.ops| <= 1
    ensures OneChainThroughout(c, run) <==> NoCallOverlaps(c, run)
    decreases |run|
  {
    hide MayHappen, Step;
    if run != [] {
      var d := Step(c, run[0]);
      StepAndChains(c, run[0]);
      if |d.sender.ops| <= 1 {
        OneChainExactlyWithoutOverlap(d, run[1..]);
      } else {
        assert !OneChainThroughout(d, run[1..]);
      }
    }
  }

  predicate SendsWellFormed(run: seq<Event>) {
    forall i :: 0 <= i < |run| && run[i].Send? ==> run[i].p.WellFormed()
  }

  lemma {:induction false} NoOverlapIsGuarded(c: Connection, run: seq<Event>)
    requires IsLiteralRun(c, run) && NoCallOverlaps(c, run) && SendsWellFormed(run)
    ensures IsRun(c, run) && Final(c, run) == Outcome(c, run)
    decreases |run|
  {
    hide MayHappen, Step;
    if run != [] {
      NoOverlapIsGuarded(Step(c, run[0]), run[1..]);
    }
  }

  /** For the code as written: in a run without overlapping calls, or equivalently with one chain at a time, what is
      delivered is a prefix of what was sent, and all of it once nothing is under way. */
  lemma LiteralTransportIsFaithful(run: seq<Event>, spawnId: int, sendLimit: Limit, receiveLimit: Limit)
    requires IsLiteralRun(NewConnection(spawnId, sendLimit, receiveLimit), run) && SendsWellFormed(run)
    requires NoCallOverlaps(NewConnection(spawnId, sendLimit, receiveLimit), run)
    ensures var c := Outcome(NewConnection(spawnId, sendLimit, receiveLimit), run);
      && Raws(c.delivered) <= c.accepted
      && AllFrom(c.delivered, spawnId)
      && (Drained(c) ==> Raws(c.delivered) == c.accepted)
  {
    hide MayHappen, Step;
    NoOverlapIsGuarded(NewConnection(spawnId, sendLimit, receiveLimit), run);
    TransportIsFaithful(run, spawnId, sendLimit, receiveLimit);
  }

  // ---------------------------------------------------------------- a corrupted run

  lemma {:induction false} LiteralRunsCompose(c: Connection, first: seq<Event>, second: seq<Event>)
    requires IsLiteralRun(c, first) && IsLiteralRun(Outcome(c, first), second)
    ensures IsLiteralRun(c, first + second) && Outcome(c, first + second) == Outcome(Outcome(c, first), second)
    decreases |first|
  {
    hide MayHappen, Step;
    if first == [] {
      assert first + second == second;
    } else {
      assert (first + second)[1..] == first[1..] + second;
      LiteralRunsCompose(Step(c, first[0]), first[1..], second);
    }
  }

  lemma OneEvent(c: Connection, e: Event)
    requires MayHappen(c, e) && (e.Send? ==> !e.processing)
    ensures IsLiteralRun(c, [e]) && Outcome(c, [e]) == Step(c, e)
  {
    assert [e][1..] == [];
  }

  /** One more event at the end of a run. */
  lemma ThenEvent(c: Connection, run: seq<Event>, e: Event)
    requires IsLiteralRun(c, run) && MayHappen(Outcome(c, run), e) && (e.Send? ==> !e.processing)
    ensures IsLiteralRun(c, run + [e]) && Outcome(c, run + [e]) == Step(Outcome(c, run), e)
  {
    hide MayHappen, Step;
    OneEvent(Outcome(c, run), e);
    LiteralRunsCompose(c, run, [e]);
  }

  /** A call made while the size of the first payload is being written starts a second chain on that payload. */
  lemma TwoChains(p: RawPayload, q: RawPayload, spawnId: int, limit: Limit) returns (run: seq<Event>)
    ensures var c := NewConnection(spawnId, limit, limit);
      && IsLiteralRun(c, run)
      && Outcome(c, run) == c.(sender := Outcome(c, run).sender, accepted := [p, q],
                               written := TypeBytes(p.ptype), receiver := Start(NewReceiver(spawnId)))
      && Outcome(c, run).sender.ops == [WSize, WType] && Outcome(c, run).sender.queue == [p, q]
      && Outcome(c, run).sender.buf == p && Outcome(c, run).sender.offset == 0
  {
    var c := NewConnection(spawnId, limit, limit);
    run := [StartReceiving];
    OneEvent(c, StartReceiving);
    ThenEvent(c, run, Send(p, false));
    run := run + [Send(p, false)];
    ThenEvent(c, run, WriteDone(0, TypeBytes(p.ptype)));
    run := run + [WriteDone(0, TypeBytes(p.ptype))];
    assert Outcome(c, run).sender.ops == [WSize];
    ThenEvent(c, run, Send(q, false));
    run := run + [Send(q, false)];
  }

  /** The writes complete in the order in which they were started: the type goes out a second time before the body. */
  lemma WritesInterleave(c: Connection, p: RawPayload) returns (run: seq<Event>)
    requires c.open && c.sender.ops == [WSize, WType] && c.sender.buf == p && c.sender.offset == 0
    requires c.sender.queue != [] && p.WellFormed() && 0 < |p.bytes| <= c.sendLimit
    ensures IsLiteralRun(c, run)
    ensures Outcome(c, run) == c.(sender := Outcome(c, run).sender,
                                  written := ((c.written + SizeBytes(p.bytesSize)) + TypeBytes(p.ptype)) + p.bytes)
  {
    run := [WriteDone(0, SizeBytes(p.bytesSize))];
    OneEvent(c, WriteDone(0, SizeBytes(p.bytesSize)));
    assert Outcome(c, run).sender.ops == [WType, WBytes(0, |p.bytes|)];
    ThenEvent(c, run, WriteDone(0, TypeBytes(p.ptype)));
    run := run + [WriteDone(0, TypeBytes(p.ptype))];
    assert Outcome(c, run).sender.ops == [WBytes(0, |p.bytes|), WSize];
    assert p.bytes[0..|p.bytes|] == p.bytes;
    ThenEvent(c, run, WriteDone(0, p.bytes));
    run := run + [WriteDone(0, p.bytes)];
  }

  lemma CutHeader(s: seq<byte>, at: nat, t: seq<byte>, n: seq<byte>)
    requires |t| == TYPE_BYTES && |n| == SIZE_BYTES && at + HEADER_BYTES <= |s| && s[at..at + HEADER_BYTES] == t + n
    ensures s[at..at + TYPE_BYTES] == t && s[at + TYPE_BYTES..at + TYPE_BYTES + SIZE_BYTES] == n
  {
    var header := s[at..at + HEADER_BYTES];
    assert s[at..at + TYPE_BYTES] == header[..TYPE_BYTES];
    assert s[at + TYPE_BYTES..at + TYPE_BYTES + SIZE_BYTES] == header[TYPE_BYTES..];
  }

  lemma TypeDecodes(c: Connection, t: uint32)
    requires c.receiver.op.RType? && c.readCount + TYPE_BYTES <= |c.written|
    requires c.written[c.readCount..c.readCount + TYPE_BYTES] == TypeBytes(t)
    ensures MayHappen(c, ReadDone)
    ensures var d := Step(c, ReadDone);
      && d == c.(receiver := d.receiver, readCount := c.readCount + TYPE_BYTES)
      && d.receiver.op.RSize? && d.receiver.offset == c.receiver.offset
      && d.receiver.buf.spawnId == c.receiver.buf.spawnId && d.receiver.buf.raw.ptype == t
  {
    HeaderRoundTrip(t, 0);
    assert c.delivered + [] == c.delivered;
  }

  lemma SizeDecodes(c: Connection, n: size_t)
    requires c.receiver.op.RSize? && c.receiver.offset == 0 && 0 < n <= c.receiveLimit
    requires c.readCount + SIZE_BYTES <= |c.written|
    requires c.written[c.readCount..c.readCount + SIZE_BYTES] == SizeBytes(n)
    ensures MayHappen(c, ReadDone)
    ensures var d := Step(c, ReadDone);
      && d == c.(receiver := d.receiver, readCount := c.readCount + SIZE_BYTES)
      && d.receiver.op == RBytes(0, n) && d.receiver.offset == 0
      && d.receiver.buf.spawnId == c.receiver.buf.spawnId && d.receiver.buf.raw.ptype == c.receiver.buf.raw.ptype
      && d.receiver.buf.raw.bytesSize == n == |d.receiver.buf.raw.bytes|
  {
    HeaderRoundTrip(0, n);
    assert c.delivered + [] == c.delivered;
  }

  /** What a receiver makes of a header. */
  lemma HeaderDecodes(c: Connection, t: uint32, n: size_t) returns (d: Connection)
    requires c.receiver.op.RType? && c.receiver.offset == 0 && 0 < n <= c.receiveLimit
    requires c.readCount + HEADER_BYTES <= |c.written|
    requires c.written[c.readCount..c.readCount + HEADER_BYTES] == TypeBytes(t) + SizeBytes(n)
    ensures IsLiteralRun(c, [ReadDone] + [ReadDone]) && d == Outcome(c, [ReadDone] + [ReadDone])
    ensures d == c.(receiver := d.receiver, readCount := c.readCount + HEADER_BYTES)
    ensures d.receiver.op == RBytes(0, n) && d.receiver.offset == 0
    ensures d.receiver.buf.spawnId == c.receiver.buf.spawnId
    ensures d.receiver.buf.raw.ptype == t && d.receiver.buf.raw.bytesSize == n == |d.receiver.buf.raw.bytes|
  {
    hide MayHappen, Step;
    CutHeader(c.written, c.readCount, TypeBytes(t), SizeBytes(n));
    TypeDecodes(c, t);
    OneEvent(c, ReadDone);
    d := Step(c, ReadDone);
    SizeDecodes(d, n);
    ThenEvent(c, [ReadDone], ReadDone);
    d := Step(d, ReadDone);
  }

  lemma BodyDecodes(c: Connection, body: seq<byte>)
    requires c.receiver.op == RBytes(0, |body|) && c.receiver.offset == 0
    requires c.receiver.buf.raw.bytesSize == |body| == |c.receiver.buf.raw.bytes|
    requires c.readCount + |body| <= |c.written| && c.written[c.readCount..c.readCount + |body|] == body
    ensures MayHappen(c, ReadDone)
    ensures Step(c, ReadDone).accepted == c.accepted
    ensures Step(c, ReadDone).delivered == c.delivered +
      [SpawnedPayload(RawPayload(c.receiver.buf.raw.ptype, |body|, body), c.receiver.buf.spawnId)]
  {
    assert NextBytes(c) == body;
    assert Overwrite(c.receiver.buf.raw.bytes, 0, body) == body;
  }

  /** The body as it arrives when the type goes out a second time in front of it. */
  function Shifted(p: RawPayload): (body: seq<byte>)
    ensures |body| == |p.bytes|
  {
    (TypeBytes(p.ptype) + p.bytes)[..|p.bytes|]
  }

  lemma ShiftedDecodes(c: Connection, p: RawPayload) returns (run: seq<Event>)
    requires p.WellFormed() && 0 < |p.bytes| <= c.receiveLimit
    requires c.written == ((TypeBytes(p.ptype) + SizeBytes(p.bytesSize)) + TypeBytes(p.ptype)) + p.bytes
    requires c.readCount == 0 && c.delivered == [] && c.receiver.op.RType? && c.receiver.offset == 0
    ensures IsLiteralRun(c, run) && Outcome(c, run).accepted == c.accepted
    ensures Outcome(c, run).delivered ==
      [SpawnedPayload(RawPayload(p.ptype, p.bytesSize, Shifted(p)), c.receiver.buf.spawnId)]
  {
    hide MayHappen, Step;
    var header := TypeBytes(p.ptype) + SizeBytes(p.bytesSize);
    Associate(header, TypeBytes(p.ptype), p.bytes);
    assert c.written[0..HEADER_BYTES] == header;
    run := [ReadDone] + [ReadDone];
    var d := HeaderDecodes(c, p.ptype, p.bytesSize);
    assert d.written[HEADER_BYTES..HEADER_BYTES + |p.bytes|] == Shifted(p);
    BodyDecodes(d, Shifted(p));
    ThenEvent(c, run, ReadDone);
    run := run + [ReadDone];
  }

  /** With the guard as written: whatever two payloads are sent, the first with a body that fits in a chunk, if the
      second is sent while the size of the first is being written, no step fails and the writes complete in order, and
      yet the body delivered is the type of the first payload followed by the start of its body. */
  lemma OverlappingCallsShift(p: RawPayload, q: RawPayload, spawnId: int, limit: Limit) returns (run: seq<Event>)
    requires p.WellFormed() && 0 < |p.bytes| <= limit
    ensures var c := NewConnection(spawnId, limit, limit);
      && IsLiteralRun(c, run)
      && Outcome(c, run).accepted == [p, q]
      && Outcome(c, run).delivered == [SpawnedPayload(RawPayload(p.ptype, p.bytesSize, Shifted(p)), spawnId)]
  {
    hide MayHappen, Step, Shifted;
    var c := NewConnection(spawnId, limit, limit);
    run := TwoChains(p, q, spawnId, limit);
    var writes := WritesInterleave(Outcome(c, run), p);
    LiteralRunsCompose(c, run, writes);
    run := run + writes;
    var decoding := ShiftedDecodes(Outcome(c, run), p);
    LiteralRunsCompose(c, run, decoding);
    run := run + decoding;
  }

  /** So the receiver delivers what nobody sent, if the body is not the bytes of the type over and over and the second
      payload is not by chance the one that is delivered. */
  lemma OverlappingCallsCorrupt(p: RawPayload, q: RawPayload, spawnId: int, limit: Limit) returns (run: seq<Event>)
    requires p.WellFormed() && 0 < |p.bytes| <= limit && p.bytes != Shifted(p)
    requires q != RawPayload(p.ptype, p.bytesSize, Shifted(p))
    ensures var c := NewConnection(spawnId, limit, limit);
      && IsLiteralRun(c, run)
      && Outcome(c, run).accepted == [p, q]
      && |Outcome(c, run).delivered| == 1
      && Outcome(c, run).delivered[0].raw !in Outcome(c, run).accepted
  {
    run := OverlappingCallsShift(p, q, spawnId, limit);
  }

  /** A message of this program: a heartbeat, whose only field has the tag 9, or a handshake, whose first field has the
      tag 10, 18 or 26. */
  predicate IsMessage(p: RawPayload) {
    && p.WellFormed() && p.bytes != []
    && ((p.ptype == HEARTBEAT && p.bytes[0] == 9) || (p.ptype == HANDSHAKE && p.bytes[0] in {10, 18, 26}))
  }

  /** No message begins with the first byte of its type. So whatever two messages are sent, the first of any size that
      fits in a chunk, the receiver may deliver something else. */
  lemma MessagesAreCorrupted(p: RawPayload, q: RawPayload, spawnId: int) returns (run: seq<Event>)
    requires IsMessage(p) && IsMessage(q) && |p.bytes| <= MAXIMUM_BYTES_AS_NETWORK_BUFFER
    ensures var c := NewConnection(spawnId, MAXIMUM_BYTES_AS_NETWORK_BUFFER, MAXIMUM_BYTES_AS_NETWORK_BUFFER);
      && IsLiteralRun(c, run)
      && Outcome(c, run).accepted == [p, q]
      && |Outcome(c, run).delivered| == 1
      && Outcome(c, run).delivered[0].raw !in Outcome(c, run).accepted
  {
    assert Shifted(p)[0] == TypeBytes(p.ptype)[0] == p.ptype as byte;
    run := OverlappingCallsCorrupt(p, q, spawnId, MAXIMUM_BYTES_AS_NETWORK_BUFFER);
  }
}
