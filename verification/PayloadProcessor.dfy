/** The consumer of `IPayloadProcessor.cpp`: drain the shared queue into a local batch at every wake-up, hand the
    batch to a callback, stop at the first payload for which the callback asks to. */
module PayloadProcessors {
  import opened AtomicQueues

  function Flatten<T>(batches: seq<seq<T>>): seq<T> {
    if batches == [] then [] else batches[0] + Flatten(batches[1..])
  }

  lemma {:induction false} FlattenConcat<T>(a: seq<seq<T>>, b: seq<seq<T>>)
    ensures Flatten(a + b) == Flatten(a) + Flatten(b)
    decreases |a|
  {
    if a == [] {
      assert a + b == b;
    } else {
      assert (a + b)[1..] == a[1..] + b;
      FlattenConcat(a[1..], b);
    }
  }

  /** What the callback has been called with, up to and including call `i`. */
  function Calls<T>(processed: seq<T>, i: nat): seq<T>
    requires i < |processed|
  {
    processed[..i + 1]
  }

  /** The processed part of a run: no callback asked to stop, except the last one when the loop was left. Its answer may
      depend on all the calls so far. */
  ghost predicate ProcessedUntilBreak<T>(processed: seq<T>, processor: seq<T> -> bool, stopped: bool) {
    && (forall i :: 0 <= i < |processed| - 1 ==> !processor(Calls(processed, i)))
    && (stopped ==> processed != [])
    && (processed != [] ==> processor(Calls(processed, |processed| - 1)) == stopped)
  }

  lemma OneMoreCall<T>(processed: seq<T>, x: T, processor: seq<T> -> bool)
    requires ProcessedUntilBreak(processed, processor, false)
    ensures ProcessedUntilBreak(processed + [x], processor, processor(processed + [x]))
  {
    var more := processed + [x];
    assert Calls(more, |processed|) == more;
    assert forall i :: 0 <= i < |processed| ==> Calls(more, i) == Calls(processed, i);
  }

  /** One more wake-up in the conservation law: `queued` is what the queue held before the producers ran. */
  lemma OneMoreWakeUp<T>(start: seq<T>, wakeUps: seq<seq<T>>, used: nat, processed: seq<T>, queued: seq<T>)
    requires used < |wakeUps|
    requires start + Flatten(wakeUps[..used]) == processed + queued
    ensures start + Flatten(wakeUps[..used + 1]) == processed + (queued + wakeUps[used])
  {
    var last := [wakeUps[used]];
    assert wakeUps[..used + 1] == wakeUps[..used] + last;
    FlattenConcat(wakeUps[..used], last);
    assert last[1..] == [];
    calc {
      start + Flatten(wakeUps[..used + 1]);
      (start + Flatten(wakeUps[..used])) + wakeUps[used];
      (processed + queued) + wakeUps[used];
      processed + (queued + wakeUps[used]);
    }
  }

  class PayloadProcessor<T> {
    const queue: AtomicQueue<T>

    constructor (queue: AtomicQueue<T>)
      ensures this.queue == queue
    {
      this.queue := queue;
    }

    /** The condition variable is waited on without a predicate, so a wake-up says nothing about the queue: `wakeUps`
        lists what producers pushed before each one, possibly nothing, and the run is cut off when it is exhausted.
        `used` counts the wake-ups that were needed, `dropped` is what a break leaves unprocessed in the local batch.
        Nothing is lost, duplicated or reordered: what was queued and what was pushed is what was processed, then what
        was dropped, then what is still queued. */
    method ProcessPayloadQueue(processor: seq<T> -> bool, wakeUps: seq<seq<T>>)
      returns (processed: seq<T>, dropped: seq<T>, stopped: bool, used: nat)
      requires queue.Valid()
      modifies queue
      ensures queue.Valid() && (used > 0 ==> queue.items == [])
      ensures used <= |wakeUps| && (!stopped ==> used == |wakeUps| && dropped == [])
      ensures old(queue.items) + Flatten(wakeUps[..used]) == processed + dropped + queue.items
      ensures ProcessedUntilBreak(processed, processor, stopped)
    {
      processed, dropped, stopped, used := [], [], false, 0;
      while used < |wakeUps|
        invariant used <= |wakeUps| && queue.Valid() && (used > 0 ==> queue.items == [])
        invariant old(queue.items) + Flatten(wakeUps[..used]) == processed + queue.items
        invariant ProcessedUntilBreak(processed, processor, false) && dropped == [] && !stopped
      {
        OneMoreWakeUp(old(queue.items), wakeUps, used, processed, queue.items);
        PushAll(wakeUps[used]);
        var payloads := queue.PopIntoQueue();
        used := used + 1;
        ghost var before := processed;
        processed, dropped, stopped := ProcessBatch(processor, payloads, processed);
        assert before + payloads == processed + dropped;
        if stopped {
          return;
        }
      }
    }

    /** The inner loop, after `before` has been processed: the batch splits into a processed part and the part a break
        leaves behind. */
    method ProcessBatch(processor: seq<T> -> bool, batch: seq<T>, before: seq<T>)
      returns (processed: seq<T>, dropped: seq<T>, stopped: bool)
      requires ProcessedUntilBreak(before, processor, false)
      ensures before <= processed && before + batch == processed + dropped && (!stopped ==> dropped == [])
      ensures ProcessedUntilBreak(processed, processor, stopped)
    {
      var payloads := batch;
      processed, dropped, stopped := before, [], false;
      while payloads != []
        invariant before <= processed && before + batch == processed + payloads
        invariant ProcessedUntilBreak(processed, processor, false)
        decreases |payloads|
      {
        OneMoreCall(processed, payloads[0], processor);
        var shouldBreak := processor(processed + [payloads[0]]);
        processed := processed + [payloads[0]];
        payloads := payloads[1..];
        if shouldBreak {
          return processed, payloads, true;
        }
      }
    }

    /** The producers' side of one wake-up. */
    method PushAll(vals: seq<T>)
      requires queue.Valid()
      modifies queue
      ensures queue.Valid() && queue.items == old(queue.items) + vals
    {
      for i := 0 to |vals|
        invariant queue.Valid() && queue.items == old(queue.items) + vals[..i]
      {
        queue.Push(vals[i]);
      }
    }
  }
}
