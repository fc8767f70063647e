/**
 * From step commands to the microcontroller's move queue: the messages a stepper sync hands to its
 * command queue, as the scheduler sends them, never over-fill the move queue.
 */
module Transmission {
  import opened CommandQueues
  import opened MsgBlock
  import opened Origins
  import opened StepperSync
  import opened Words
  import StepQueue

  // ---------------------------------------------------------------------------
  // Step messages as they are queued
  // ---------------------------------------------------------------------------

  /** The object id and message tags of one stepper. */
  datatype Tags = Tags(oid: nat, queueStep: bv32, setNextStepDir: bv32)

  function Word32(x: int): bv32 {
    WordOf(U32(x))
  }

  /** The numbers of a step message. */
  function Numbers(m: StepQueue.Message, tags: Tags): seq<bv32> {
    match m
    case QueueStep(move, _, _) =>
      [tags.queueStep, Word32(tags.oid), Word32(move.interval), Word32(move.count), Word32(move.add)]
    case SetNextStepDir(pin, _) => [tags.setNextStepDir, Word32(tags.oid), Word32(pin)]
  }

  /** A step message as a queued one; a direction message uses no slot of the move queue. */
  function Packed(m: StepQueue.Message, tags: Tags): QueueMessage {
    QueueMessage(EncodeAll(Numbers(m, tags)), if m.QueueStep? then m.minClock else 0, m.reqClock)
  }

  lemma {:induction false} EncodedLength(data: seq<bv32>)
    ensures |data| <= |EncodeAll(data)| <= 5 * |data|
  {
    hide EncodeInt;
    if data != [] { EncodedLength(data[..|data| - 1]); }
  }

  /** A packed step message is neither empty nor too long, and keeps its clocks; only a move can ask for a slot. */
  lemma PackedFits(m: StepQueue.Message, tags: Tags)
    ensures 1 <= |Packed(m, tags).body| <= MESSAGE_PAYLOAD_MAX && Packed(m, tags).reqClock == m.reqClock
    ensures Packed(m, tags).minClock != 0 ==> m.QueueStep?
    ensures m.QueueStep? ==> Packed(m, tags).minClock == m.minClock
    ensures m.reqClock < MAX_CLOCK ==> Acceptable(Packed(m, tags))
  {
    hide EncodeAll, Word32;
    EncodedLength(Numbers(m, tags));
  }

  /** The messages of one stepper, packed in order. */
  function PackedAll(msgs: seq<StepQueue.Message>, tags: Tags): (r: seq<QueueMessage>)
    ensures |r| == |msgs| && forall k :: 0 <= k < |r| ==> r[k] == Packed(msgs[k], tags)
  {
    seq(|msgs|, k requires 0 <= k < |msgs| => Packed(msgs[k], tags))
  }

  /** What a stepper sends since a reset is in the order the merge of the steppers relies on. */
  lemma {:induction false} PackedAscend(msgs: seq<StepQueue.Message>, last: nat, tags: Tags)
    requires StepQueue.InRequiredOrder(msgs, last)
    ensures Ascending(PackedAll(msgs, tags))
  {
    hide Packed;
    var r := PackedAll(msgs, tags);
    forall i, j | 0 <= i < j < |r|
      ensures r[i].reqClock <= r[j].reqClock
    {
      PackedFits(msgs[i], tags);
      PackedFits(msgs[j], tags);
    }
  }

  // ---------------------------------------------------------------------------
  // One queue's share of what was sent
  // ---------------------------------------------------------------------------

  lemma {:induction false} FromLength<S, T>(a: seq<S>, b: seq<T>, source: seq<nat>, i: nat)
    requires |a| == |b| == |source|
    ensures |From(a, source, i)| == |From(b, source, i)|
    decreases |source|
  {
    if source != [] {
      var n := |source| - 1;
      FromLength(a[..n], b[..n], source[..n], i);
    }
  }

  /** The messages of one queue were all released in time. */
  lemma {:induction false} FromInTime(msgs: seq<QueueMessage>, at: seq<nat>, source: seq<nat>, i: nat)
    requires |msgs| == |source| && ReleasedInTime(msgs, at)
    ensures ReleasedInTime(From(msgs, source, i), From(at, source, i))
    decreases |source|
  {
    if source != [] {
      var n := |source| - 1;
      FromInTime(msgs[..n], at[..n], source[..n], i);
    }
  }

  ghost predicate NotBefore(tx: seq<nat>, at: seq<nat>) {
    |tx| == |at| && forall k :: 0 <= k < |tx| ==> at[k] <= tx[k]
  }

  lemma {:induction false} FromNotBefore(tx: seq<nat>, at: seq<nat>, source: seq<nat>, i: nat)
    requires |tx| == |source| && NotBefore(tx, at)
    ensures NotBefore(From(tx, source, i), From(at, source, i))
    decreases |source|
  {
    if source != [] {
      var n := |source| - 1;
      FromNotBefore(tx[..n], at[..n], source[..n], i);
    }
  }

  ghost predicate Rising(tx: seq<nat>) {
    forall j, k :: 0 <= j < k < |tx| ==> tx[j] <= tx[k]
  }

  lemma {:induction false} FromRises(tx: seq<nat>, source: seq<nat>, i: nat, bound: nat)
    requires |tx| == |source| && Rising(tx) && forall k :: 0 <= k < |tx| ==> tx[k] <= bound
    ensures Rising(From(tx, source, i))
    ensures forall k :: 0 <= k < |From(tx, source, i)| ==> From(tx, source, i)[k] <= bound
    decreases |source|
  {
    if source != [] {
      var n := |source| - 1;
      FromRises(tx[..n], source[..n], i, tx[n]);
    }
  }

  lemma {:induction false} FromRisesAll(tx: seq<nat>, source: seq<nat>, i: nat)
    requires |tx| == |source| && Rising(tx)
    ensures Rising(From(tx, source, i))
  {
    if tx != [] { FromRises(tx, source, i, tx[|tx| - 1]); }
  }

  // ---------------------------------------------------------------------------
  // Safety of the move queue
  // ---------------------------------------------------------------------------

  /** What a queue has sent is the first part of what it was given. */
  lemma {:induction false} SentFirst(taken: seq<QueueMessage>, source: seq<nat>, queues: seq<Queue>,
                                     given: seq<seq<QueueMessage>>, cq: nat)
    requires CommandQueues.InOrder(taken, source, queues, given) && cq < |queues|
    ensures From(taken, source, cq) <= given[cq]
  {
    var front, q := From(taken, source, cq), queues[cq];
    assert front + q.ready + q.stalled == given[cq];
    assert front + q.ready + q.stalled == front + (q.ready + q.stalled);
  }

  /**
   * A stepper sync has handed the messages `sent` to command queue cq, and nobody else uses that queue. The
   * scheduler has taken messages for blocks from all queues, releasing each at the clock in takenAt, which is
   * a lower bound on when it arrives; the line keeps order, so that arrival clocks tx rise. Then at every clock t
   * at most n commands have arrived and have not freed their slot of the move queue.
   */
  lemma {:induction false} MoveQueueNeverOverfilled(n: nat, sent: seq<QueueMessage>, merged: seq<QueueMessage>,
                                                    slots: seq<Slot>, taken: seq<QueueMessage>, source: seq<nat>,
                                                    queues: seq<Queue>, given: seq<seq<QueueMessage>>,
                                                    takenAt: seq<nat>, cq: nat, tx: seq<nat>, t: nat)
    requires Ledger(n, slots) && Rewrites(sent, merged, slots)
    requires CommandQueues.InOrder(taken, source, queues, given) && ReleasedInTime(taken, takenAt)
    requires cq < |queues| && given[cq] == AdjustAll(sent)
    requires |tx| == |source| && Rising(tx) && NotBefore(tx, takenAt)
    ensures var mine := From(tx, source, cq); |mine| <= |slots| && InFlight(slots, mine, t, |mine|) <= n
  {
    var mine, msgs, at := From(tx, source, cq), From(taken, source, cq), From(takenAt, source, cq);
    SentFirst(taken, source, queues, given, cq);
    FromLength(tx, taken, source, cq);
    FromInTime(taken, takenAt, source, cq);
    FromNotBefore(tx, takenAt, source, cq);
    FromRisesAll(tx, source, cq);
    hide CommandQueues.InOrder, From, InFlight, Ledger;
    forall i | 0 <= i < |mine|
      ensures mine[i] >= sent[i].minClock
    {
      assert msgs[i] == given[cq][i] == Adjust(sent[i]);
    }
    SentCommandsSafe(n, sent, merged, slots, mine, t);
  }

  // ---------------------------------------------------------------------------
  // Flushing into the scheduler
  // ---------------------------------------------------------------------------

  /** Command queue cq was given exactly what the stepper sync has sent. */
  ghost predicate Linked(sync: SlotSync, scheduler: Scheduler, cq: nat)
    reads sync, scheduler
  {
    cq < |scheduler.queues| == |scheduler.given| && scheduler.given[cq] == AdjustAll(sync.sent)
  }

  /** Messages that are neither empty nor too long. */
  ghost predicate Packable(queues: seq<seq<QueueMessage>>) {
    forall i, m :: 0 <= i < |queues| && m in queues[i] ==> 1 <= |m.body| <= MESSAGE_PAYLOAD_MAX
  }

  lemma {:induction false} AdjustAppend(a: seq<QueueMessage>, b: seq<QueueMessage>)
    ensures AdjustAll(a + b) == AdjustAll(a) + AdjustAll(b)
  {
    hide Adjust, AdjustAll;
  }

  /** The messages sent after the n-th, adjusted, follow the first n. */
  lemma {:induction false} AdjustSplit(sent: seq<QueueMessage>, earlier: seq<QueueMessage>)
    requires earlier <= sent
    ensures AdjustAll(sent) == AdjustAll(earlier) + AdjustAll(sent[|earlier|..])
    ensures sent[|earlier|..] == [] ==> sent == earlier
  {
    hide AdjustAll;
    assert sent == earlier + sent[|earlier|..];
    AdjustAppend(earlier, sent[|earlier|..]);
  }

  lemma LeftPackable(queues: seq<seq<QueueMessage>>, before: seq<seq<QueueMessage>>)
    requires LeftOf(queues, before) && Packable(before)
    ensures Packable(queues)
  {
  }

  /** What a flush adds may be sent, and is not without bytes. */
  lemma BatchAcceptable(sent: seq<QueueMessage>, taken: seq<QueueMessage>, slots: seq<Slot>, n: nat,
                        before: seq<seq<QueueMessage>>, moveClock: nat)
    requires Rewrites(sent, taken, slots) && n <= |sent| && Packable(before)
    requires WereQueued(taken, n, before) && TakenDue(taken, n, moveClock)
    ensures AcceptableAll(sent[n..]) && (sent[n..] != [] ==> Bytes(sent[n..]) > 0)
  {
    forall k | n <= k < |sent|
      ensures 1 <= |sent[k].body| && Acceptable(sent[k])
    {
      assert sent[k] == taken[k].(minClock := slots[k].avail);
    }
  }

  /**
   * Batch the steppers' messages up to moveClock and hand the batch to the command queue of the stepper sync,
   * which stays linked to it.
   */
  method FlushAndSend(sync: SlotSync, scheduler: Scheduler, cq: nat, moveClock: nat)
    requires sync.Valid() && scheduler.Valid() && Linked(sync, scheduler, cq) && Packable(sync.queues)
    modifies sync, sync.moveClocks, scheduler
    ensures sync.Valid() && scheduler.Valid() && Linked(sync, scheduler, cq) && Packable(sync.queues)
    ensures old(sync.sent) <= sync.sent && WaitsPast(sync.queues, moveClock)
    ensures scheduler.taken == old(scheduler.taken) && scheduler.source == old(scheduler.source)
    ensures sync.queued == old(sync.queued)
    ensures Merging([], old(sync.queues)) ==>
            Ascending(sync.sent[|old(sync.sent)|..]) && AllPast(sync.queues, moveClock)
  {
    hide Rewrites, StepperSync.InOrder, ClocksFit, AllAcceptable, PendingExact, CommandQueues.InOrder, AllInTime,
         ReleasedInTime, AdjustAll, ReadyTotal, StalledTotal, Bytes, WaitsPast, LeftOf, WereQueued, TakenDue, Packable,
         Merging, Ledger, HeapAfter, IsHeap, Ascending, AllPast;
    var n := |sync.sent|;
    RewrittenSizes(sync.sent, sync.taken, sync.slots);
    sync.Flush(moveClock);
    BatchAcceptable(sync.sent, sync.taken, sync.slots, n, old(sync.queues), moveClock);
    LeftPackable(sync.queues, old(sync.queues));
    AdjustSplit(sync.sent, old(sync.sent));
    var batch := sync.sent[n..];
    if batch != [] {
      scheduler.SendBatch(cq, batch);
    }
  }

  lemma QueuePerGiven(scheduler: Scheduler)
    requires scheduler.Valid()
    ensures |scheduler.queues| == |scheduler.given|
  {
  }

  /** Release what is due by ackClock and build a block; the link stays. */
  method ReleaseAndBuild(sync: SlotSync, scheduler: Scheduler, cq: nat, ackClock: nat) returns (payload: seq<byte>)
    requires scheduler.Valid() && Linked(sync, scheduler, cq)
    modifies scheduler
    ensures scheduler.Valid() && Linked(sync, scheduler, cq) && |payload| <= MESSAGE_PAYLOAD_MAX
    ensures old(scheduler.taken) <= scheduler.taken
  {
    hide Scheduler.Valid, AdjustAll;
    scheduler.ReleaseReady(ackClock);
    ghost var msgs, whos;
    payload, msgs, whos := scheduler.BuildBlock();
    QueuePerGiven(scheduler);
  }

  /** However the two are used, the move queue is never over-filled. */
  lemma {:induction false} LinkedSafe(sync: SlotSync, scheduler: Scheduler, cq: nat, tx: seq<nat>, t: nat)
    requires sync.Valid() && scheduler.Valid() && Linked(sync, scheduler, cq)
    requires |tx| == |scheduler.source| && Rising(tx) && NotBefore(tx, scheduler.takenAt)
    ensures var mine := From(tx, scheduler.source, cq);
            |mine| <= |sync.slots| && InFlight(sync.slots, mine, t, |mine|) <= sync.moveClocks.Length
  {
    MoveQueueNeverOverfilled(sync.moveClocks.Length, sync.sent, sync.taken, sync.slots, scheduler.taken,
                             scheduler.source, scheduler.queues, scheduler.given, scheduler.takenAt, cq, tx, t);
  }
}
