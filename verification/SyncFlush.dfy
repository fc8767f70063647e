/**
 * One flush of a group of steppers, from compression to the scheduler, and what of it has left the host:
 * for every stepper the first of its messages, in its own order.
 */
module SyncFlush {
  import opened CommandQueues
  import opened MsgBlock
  import opened Origins
  import opened StepQueue
  import opened StepReader
  import opened StepRecord
  import opened StepperSync
  import opened Transmission
  import opened Words

  /** The sync's queue of stepper i has held exactly the messages of that stepper. */
  ghost predicate Drawn(sc: StepCompress, tags: Tags, sync: SlotSync, i: nat)
    reads sc, sync
  {
    i < |sync.queued| && sync.queued[i] == PackedAll(sc.msgs, tags)
  }

  /** Distinct steppers in working order, each with its own queue of the sync. */
  ghost predicate Group(steppers: seq<StepCompress>, tags: seq<Tags>, sync: SlotSync)
    reads steppers, sync
  {
    && |steppers| == |tags| == |sync.queued|
    && (forall i, j :: 0 <= i < j < |steppers| ==> steppers[i] != steppers[j])
    && (forall i :: 0 <= i < |steppers| ==> steppers[i].Valid())
    && (forall i :: 0 <= i < |steppers| ==> Drawn(steppers[i], tags[i], sync, i))
  }

  // ---------------------------------------------------------------------------
  // One stepper
  // ---------------------------------------------------------------------------

  /** The min clock of a message fits its field. */
  lemma MessageFits(sent: seq<Message>, last: nat, k: nat, tags: Tags)
    requires InRequiredOrder(sent, last) && last <= MAX_CLOCK && k < |sent|
    ensures Packed(sent[k], tags).minClock <= UINT64_MAX
  {
    hide EncodeAll;
  }

  lemma {:induction false} PackedNext(msgs: seq<Message>, n: nat, tags: Tags)
    requires n < |msgs|
    ensures PackedAll(msgs[..n + 1], tags) == PackedAll(msgs[..n], tags) + [Packed(msgs[n], tags)]
  {
    hide Packed;
    assert msgs[..n + 1][..n] == msgs[..n];
  }

  lemma PackableNext(queues: seq<seq<QueueMessage>>, i: nat, m: Message, tags: Tags)
    requires Packable(queues) && i < |queues|
    ensures Packable(queues[i := queues[i] + [Packed(m, tags)]])
  {
    PackedFits(m, tags);
    hide Packed;
  }

  lemma QueuePerStepper(sync: SlotSync)
    requires sync.Valid()
    ensures |sync.queued| == |sync.queues|
  {
  }

  /** Everything a stepper emitted since its n-th message joins its queue of the sync. */
  method QueueEmitted(sc: StepCompress, tags: Tags, sync: SlotSync, i: nat, n: nat)
    requires sc.Valid() && sc.epoch <= n <= |sc.msgs|
    requires sync.Valid() && Packable(sync.queues) && i < |sync.queued|
    requires sync.queued[i] == PackedAll(sc.msgs[..n], tags)
    modifies sync`queues, sync`queued
    ensures sync.Valid() && Packable(sync.queues) && |sync.queues| == old(|sync.queues|)
    ensures sync.queued == old(sync.queued)[i := PackedAll(sc.msgs, tags)]
  {
    hide StepQueue.OutputOk, QueueHolds, QueuedAre, Packed, PackedAll, Packable, StepperSync.InOrder, Rewrites, IsHeap,
         Ledger, HeapAfter, ClocksFit;
    QueuePerStepper(sync);
    for k := n to |sc.msgs|
      invariant sync.Valid() && Packable(sync.queues) && |sync.queues| == old(|sync.queues|)
      invariant sync.queued == old(sync.queued)[i := PackedAll(sc.msgs[..k], tags)]
    {
      EmittedFits(sc, k, tags);
      PackedNext(sc.msgs, k, tags);
      PackableNext(sync.queues, i, sc.msgs[k], tags);
      sync.QueueMessage(i, Packed(sc.msgs[k], tags));
    }
    assert sc.msgs[..|sc.msgs|] == sc.msgs;
  }

  lemma EmittedFits(sc: StepCompress, k: nat, tags: Tags)
    requires sc.Valid() && sc.epoch <= k < |sc.msgs|
    ensures Packed(sc.msgs[k], tags).minClock <= UINT64_MAX
  {
    hide QueueHolds, QueuedAre, Packed;
    assert sc.Sent()[k - sc.epoch] == sc.msgs[k];
    QueueBeyond(sc.lastStepClock, sc.queue, sc.clocks);
    MessageFits(sc.Sent(), sc.lastStepClock, k - sc.epoch, tags);
  }

  /** Nothing due before the clock is queued or pending. */
  ghost predicate FlushedTo(sc: StepCompress, moveClock: nat)
    reads sc
  {
    (sc.queue == [] || sc.lastStepClock >= moveClock) && (sc.nextStepClock == 0 || sc.nextStepClock > moveClock)
  }

  /** Flush one stepper; what it emits joins its queue. */
  method FlushStepper(sc: StepCompress, tags: Tags, sync: SlotSync, i: nat, moveClock: nat)
    requires sc.Valid() && sync.Valid() && Packable(sync.queues) && Drawn(sc, tags, sync, i)
    modifies sc, sync`queues, sync`queued
    ensures sc.Valid() && sync.Valid() && Packable(sync.queues) && Drawn(sc, tags, sync, i)
    ensures |sync.queued| == old(|sync.queued|)
    ensures forall j :: 0 <= j < |sync.queued| && j != i ==> sync.queued[j] == old(sync.queued)[j]
    ensures FlushedTo(sc, moveClock) && sc.Net() == old(sc.Net())
    ensures moveClock > MAX_CLOCK ==> sc.queue == [] && sc.nextStepClock == 0
    ensures old(sc.requests) <= sc.requests && sc.epoch == old(sc.epoch)
    ensures old(sc.HistoryOk()) ==> sc.HistoryOk()
  {
    hide StepQueue.OutputOk, QueueHolds, QueuedAre, RecordsWith, Ahead, Grown, PackedAll, Packable, Rewrites, IsHeap,
         Ledger, HeapAfter, ClocksFit;
    var n := |sc.msgs|;
    var _ := sc.Flush(moveClock);
    assert sc.msgs[..n] == old(sc.msgs);
    QueueEmitted(sc, tags, sync, i, n);
  }

  // ---------------------------------------------------------------------------
  // All steppers
  // ---------------------------------------------------------------------------

  /** A stepper's requests and net position outlive a flush, it is not reset, and its history stays a record. */
  twostate predicate Kept(sc: StepCompress)
    reads sc
  {
    && old(sc.requests) <= sc.requests && sc.Net() == old(sc.Net()) && sc.epoch == old(sc.epoch)
    && (old(sc.HistoryOk()) ==> sc.HistoryOk())
  }

  /** Flush every stepper. */
  method FlushSteppers(steppers: seq<StepCompress>, tags: seq<Tags>, sync: SlotSync, moveClock: nat)
    requires Group(steppers, tags, sync) && sync.Valid() && Packable(sync.queues)
    modifies steppers, sync`queues, sync`queued
    ensures Group(steppers, tags, sync) && sync.Valid() && Packable(sync.queues)
    ensures forall i :: 0 <= i < |steppers| ==> FlushedTo(steppers[i], moveClock) && Kept(steppers[i])
  {
    hide StepCompress.Valid, StepCompress.Net, StepCompress.HistoryOk, SlotSync.Valid, Packable, PackedAll, FlushedTo;
    for i := 0 to |steppers|
      invariant Group(steppers, tags, sync) && sync.Valid() && Packable(sync.queues)
      invariant forall j :: 0 <= j < i ==> FlushedTo(steppers[j], moveClock) && Kept(steppers[j])
      invariant forall j :: i <= j < |steppers| ==> unchanged(steppers[j])
    {
      FlushStepper(steppers[i], tags[i], sync, i, moveClock);
    }
  }

  /** All that each stepper emitted before its last reset has been handed over. */
  ghost predicate ResetsHanded(steppers: seq<StepCompress>, sync: SlotSync)
    reads steppers, sync
  {
    |sync.taken| == |sync.source| &&
    forall i :: 0 <= i < |steppers| ==> steppers[i].epoch <= |From(sync.taken, sync.source, i)|
  }

  /** What waits of a stepper, if it was all emitted since its reset, is in request order. */
  lemma {:induction false} QueueAscends(sc: StepCompress, tags: Tags, sync: SlotSync, i: nat)
    requires sc.Valid() && sync.Valid() && Drawn(sc, tags, sync, i)
    requires sc.epoch <= |From(sync.taken, sync.source, i)|
    ensures i < |sync.queues| && Ascending(sync.queues[i])
  {
    hide QueueHolds, QueuedAre, Packed, From, IsHeap, Ledger, Rewrites, ClocksFit, PackedAll;
    var given, sent, f := PackedAll(sc.msgs, tags), PackedAll(sc.Sent(), tags), |From(sync.taken, sync.source, i)|;
    assert From(sync.taken, sync.source, i) + sync.queues[i] == given;
    PackedAscend(sc.Sent(), sc.lastStepClock, tags);
    forall a, b | 0 <= a < b < |sync.queues[i]|
      ensures sync.queues[i][a].reqClock <= sync.queues[i][b].reqClock
    {
      assert sync.queues[i][a] == given[f + a] == sent[f + a - sc.epoch];
      assert sync.queues[i][b] == given[f + b] == sent[f + b - sc.epoch];
    }
  }

  /** So the queues of a group can be merged in order. */
  lemma GroupMerges(steppers: seq<StepCompress>, tags: seq<Tags>, sync: SlotSync)
    requires Group(steppers, tags, sync) && sync.Valid()
    ensures ResetsHanded(steppers, sync) ==> Merging([], sync.queues)
  {
    hide StepCompress.Valid, From, PackedAll;
    if ResetsHanded(steppers, sync) {
      QueuePerStepper(sync);
      forall i | 0 <= i < |sync.queues|
        ensures Ascending(sync.queues[i])
      {
        QueueAscends(steppers[i], tags[i], sync, i);
      }
    }
  }

  /** The oldest entry of the history is not over by the clock. */
  ghost predicate Unexpired(sc: StepCompress, endClock: nat)
    reads sc
  {
    sc.history != [] ==> sc.history[|sc.history| - 1].lastClock > endClock
  }

  method ExpireHistory(sc: StepCompress, ghost moveClock: nat, endClock: nat)
    requires sc.Valid() && FlushedTo(sc, moveClock)
    modifies sc`history, sc`since, sc`signs, sc`startPosition
    ensures sc.Valid() && FlushedTo(sc, moveClock) && Kept(sc) && Unexpired(sc, endClock)
  {
    hide StepCompress.Valid, StepCompress.Net, StepCompress.HistoryOk, StepCompress.Records;
    sc.HistoryExpire(endClock);
  }

  /** Expire the history of every stepper. */
  method ExpireHistories(steppers: seq<StepCompress>, tags: seq<Tags>, sync: SlotSync, moveClock: nat, endClock: nat)
    requires Group(steppers, tags, sync)
    requires forall i :: 0 <= i < |steppers| ==> FlushedTo(steppers[i], moveClock)
    modifies steppers
    ensures Group(steppers, tags, sync)
    ensures forall i :: 0 <= i < |steppers| ==> FlushedTo(steppers[i], moveClock) && Kept(steppers[i])
    ensures forall i :: 0 <= i < |steppers| ==> Unexpired(steppers[i], endClock)
  {
    hide StepCompress.Valid, StepCompress.Net, StepCompress.HistoryOk, StepCompress.Records, PackedAll, FlushedTo,
         Unexpired;
    for i := 0 to |steppers|
      invariant Group(steppers, tags, sync)
      invariant forall j :: 0 <= j < |steppers| ==> FlushedTo(steppers[j], moveClock)
      invariant forall j :: 0 <= j < i ==> Kept(steppers[j]) && Unexpired(steppers[j], endClock)
      invariant forall j :: i <= j < |steppers| ==> unchanged(steppers[j])
    {
      ExpireHistory(steppers[i], moveClock, endClock);
    }
  }

  /**
   * Flush every stepper up to moveClock, hand over what is due, and expire the history. Nothing fails, every
   * stepper keeps its requests and its position, and what is left waiting lies past moveClock.
   */
  method Flush(steppers: seq<StepCompress>, tags: seq<Tags>, sync: SlotSync, scheduler: Scheduler, cq: nat,
               moveClock: nat, clearHistoryClock: nat)
    requires Group(steppers, tags, sync) && sync.Valid() && Packable(sync.queues)
    requires scheduler.Valid() && Linked(sync, scheduler, cq)
    modifies steppers, sync, sync.moveClocks, scheduler
    ensures Group(steppers, tags, sync) && sync.Valid() && Packable(sync.queues)
    ensures scheduler.Valid() && Linked(sync, scheduler, cq)
    ensures old(sync.sent) <= sync.sent && WaitsPast(sync.queues, moveClock)
    ensures old(ResetsHanded(steppers, sync)) ==>
            Ascending(sync.sent[|old(sync.sent)|..]) && AllPast(sync.queues, moveClock)
    ensures forall i :: 0 <= i < |steppers| ==> FlushedTo(steppers[i], moveClock) && Kept(steppers[i])
    ensures forall i :: 0 <= i < |steppers| ==> Unexpired(steppers[i], clearHistoryClock)
  {
    hide StepCompress.Valid, StepCompress.Net, StepCompress.HistoryOk, SlotSync.Valid, Scheduler.Valid, Packable,
         PackedAll, AdjustAll, WaitsPast, FlushedTo, Unexpired, Ascending, AllPast, Merging, From;
    FlushSteppers(steppers, tags, sync, moveClock);
    GroupMerges(steppers, tags, sync);
    FlushAndSend(sync, scheduler, cq, moveClock);
    ExpireHistories(steppers, tags, sync, moveClock, clearHistoryClock);
  }

  // ---------------------------------------------------------------------------
  // What keeps a group in order between flushes
  // ---------------------------------------------------------------------------

  /** Steppers that have emitted nothing form a group with a new sync and scheduler. */
  lemma StartsGrouped(steppers: seq<StepCompress>, tags: seq<Tags>, sync: SlotSync, scheduler: Scheduler, cq: nat)
    requires |steppers| == |tags| == |sync.queues| == |sync.queued| && cq < |scheduler.queues| == |scheduler.given|
    requires forall i, j :: 0 <= i < j < |steppers| ==> steppers[i] != steppers[j]
    requires forall i :: 0 <= i < |steppers| ==> steppers[i].Valid() && steppers[i].msgs == []
    requires forall i :: 0 <= i < |steppers| ==> sync.queues[i] == [] == sync.queued[i]
    requires sync.sent == [] && scheduler.given[cq] == []
    ensures Group(steppers, tags, sync) && Packable(sync.queues) && Linked(sync, scheduler, cq)
  {
    hide StepCompress.Valid;
  }

  /** A step of one stepper; what it makes the stepper emit joins its queue. */
  method Step(steppers: seq<StepCompress>, tags: seq<Tags>, sync: SlotSync, i: nat, dir: int, stepClock: nat)
    requires Group(steppers, tags, sync) && sync.Valid() && Packable(sync.queues) && i < |steppers|
    requires dir in {0, 1} && stepClock <= MAX_CLOCK
    requires stepClock != 0 && !steppers[i].RollsBack(dir, stepClock) ==>
             stepClock > if steppers[i].nextStepClock != 0 then steppers[i].nextStepClock else steppers[i].LastQueued()
    modifies steppers[i], sync`queues, sync`queued
    ensures Group(steppers, tags, sync) && sync.Valid() && Packable(sync.queues)
  {
    hide StepCompress.Net, StepCompress.HistoryOk, SlotSync.Valid, Packable, PackedAll, StepQueue.OutputOk, QueueHolds,
         QueuedAre;
    var sc := steppers[i];
    var n := |sc.msgs|;
    var _ := sc.Append(dir, stepClock);
    assert sc.msgs[..n] == old(sc.msgs);
    QueueEmitted(sc, tags[i], sync, i, n);
  }

  /** The pending step of one stepper is queued; what that makes it emit joins its queue. */
  method Commit(steppers: seq<StepCompress>, tags: seq<Tags>, sync: SlotSync, i: nat)
    requires Group(steppers, tags, sync) && sync.Valid() && Packable(sync.queues) && i < |steppers|
    modifies steppers[i], sync`queues, sync`queued
    ensures Group(steppers, tags, sync) && sync.Valid() && Packable(sync.queues)
    ensures steppers[i].nextStepClock == 0 && Kept(steppers[i])
  {
    hide StepCompress.Net, StepCompress.HistoryOk, SlotSync.Valid, Packable, PackedAll, StepQueue.OutputOk, QueueHolds,
         QueuedAre;
    var sc := steppers[i];
    var n := |sc.msgs|;
    var _ := sc.Commit();
    assert sc.msgs[..n] == old(sc.msgs);
    QueueEmitted(sc, tags[i], sync, i, n);
  }

  /** One stepper is flushed and restarts. */
  method Restart(steppers: seq<StepCompress>, tags: seq<Tags>, sync: SlotSync, i: nat, clock: nat)
    requires Group(steppers, tags, sync) && sync.Valid() && Packable(sync.queues) && i < |steppers|
    requires clock <= MAX_CLOCK
    modifies steppers[i], sync`queues, sync`queued
    ensures Group(steppers, tags, sync) && sync.Valid() && Packable(sync.queues)
    ensures steppers[i].Net() == old(steppers[i].Net()) && steppers[i].lastStepClock == clock
  {
    hide StepCompress.Valid, StepCompress.Net, StepCompress.HistoryOk, SlotSync.Valid, Packable, PackedAll;
    FlushStepper(steppers[i], tags[i], sync, i, UINT64_MAX);
    var _ := steppers[i].Reset(clock);
  }

  /** One stepper is flushed and its position declared. */
  method Declare(steppers: seq<StepCompress>, tags: seq<Tags>, sync: SlotSync, i: nat, clock: nat, position: int)
    requires Group(steppers, tags, sync) && sync.Valid() && Packable(sync.queues) && i < |steppers|
    modifies steppers[i], sync`queues, sync`queued
    ensures Group(steppers, tags, sync) && sync.Valid() && Packable(sync.queues)
    ensures steppers[i].Net() == position
  {
    hide StepCompress.Valid, StepCompress.Net, StepCompress.HistoryOk, SlotSync.Valid, Packable, PackedAll;
    FlushStepper(steppers[i], tags[i], sync, i, UINT64_MAX);
    var _ := steppers[i].SetLastPosition(clock, position);
  }

  // ---------------------------------------------------------------------------
  // What has left the host
  // ---------------------------------------------------------------------------

  lemma {:induction false} FromPrefix<T>(a: seq<T>, source: seq<nat>, m: nat, i: nat)
    requires |a| == |source| && m <= |a|
    ensures From(a[..m], source[..m], i) <= From(a, source, i)
    decreases |a|
  {
    if m == |a| {
      assert a[..m] == a && source[..m] == source;
    } else {
      var n := |a| - 1;
      FromPrefix(a[..n], source[..n], m, i);
      assert a[..n][..m] == a[..m] && source[..n][..m] == source[..m];
    }
  }

  lemma {:induction false} FromBodies(a: seq<QueueMessage>, b: seq<QueueMessage>, source: seq<nat>, i: nat)
    requires |a| == |source| && SameBodies(a, b)
    ensures SameBodies(From(a, source, i), From(b, source, i))
    decreases |a|
  {
    if a != [] {
      var n := |a| - 1;
      assert SameBodies(a[..n], b[..n]) && a[n].body == b[n].body;
      FromBodies(a[..n], b[..n], source[..n], i);
    }
  }

  /** The messages sent are those merged, but for their min clocks. */
  lemma {:induction false} SentBodies(sent: seq<QueueMessage>, merged: seq<QueueMessage>, slots: seq<Slot>,
                                      left: seq<QueueMessage>)
    requires Rewrites(sent, merged, slots) && left <= AdjustAll(sent)
    ensures |left| <= |merged| && SameBodies(left, merged[..|left|])
  {
    hide Adjust;
    forall k | 0 <= k < |left|
      ensures left[k].body == merged[k].body
    {
      assert left[k] == AdjustAll(sent)[k] == Adjust(sent[k]);
    }
  }

  /** What has left a command queue that was given what the sync sent, share by share. */
  lemma {:induction false} ShareLeft(sent: seq<QueueMessage>, merged: seq<QueueMessage>, slots: seq<Slot>,
                                     origin: seq<nat>, waiting: seq<seq<QueueMessage>>, queued: seq<seq<QueueMessage>>,
                                     left: seq<QueueMessage>, i: nat)
    requires Rewrites(sent, merged, slots) && left <= AdjustAll(sent)
    requires StepperSync.InOrder(merged, origin, waiting, queued) && i < |queued|
    ensures |left| <= |origin|
    ensures var mine := From(left, origin[..|left|], i);
            |mine| <= |queued[i]| && SameBodies(mine, queued[i][..|mine|])
  {
    var m := |left|;
    SentBodies(sent, merged, slots, left);
    hide Rewrites, AdjustAll;
    FromBodies(left, merged[..m], origin[..m], i);
    FromPrefix(merged, origin, m, i);
    assert From(merged, origin, i) + waiting[i] == queued[i];
  }

  /**
   * For every stepper of a group, and the first m messages put in blocks: what of them is the stepper's is the
   * first of what it emitted, message by message in its own order.
   */
  lemma {:induction false} LeftInOrder(sc: StepCompress, tags: Tags, sync: SlotSync, scheduler: Scheduler, cq: nat,
                                       i: nat, m: nat)
    requires Drawn(sc, tags, sync, i) && sync.Valid() && scheduler.Valid() && Linked(sync, scheduler, cq)
    requires m <= |scheduler.taken|
    ensures |scheduler.taken| == |scheduler.source|
    ensures var left := From(scheduler.taken[..m], scheduler.source[..m], cq);
            |left| <= |sync.source| &&
            var mine := From(left, sync.source[..|left|], i);
            |mine| <= |sc.msgs| && SameBodies(mine, PackedAll(sc.msgs[..|mine|], tags))
  {
    hide Packed, StepperSync.InOrder, Rewrites, SlotSync.Accounted, AdjustAll, From, IsHeap, Ledger;
    SentFirst(scheduler.taken, scheduler.source, scheduler.queues, scheduler.given, cq);
    FromPrefix(scheduler.taken, scheduler.source, m, cq);
    ShareLeft(sync.sent, sync.taken, sync.slots, sync.source, sync.queues, sync.queued,
              From(scheduler.taken[..m], scheduler.source[..m], cq), i);
  }

  // ---------------------------------------------------------------------------
  // What the microcontroller makes of it
  // ---------------------------------------------------------------------------

  lemma {:induction false} ReplayPrefix(start: Mcu, msgs: seq<Message>, k: nat)
    requires k <= |msgs|
    ensures Replay(start, msgs[..k]) <= Replay(start, msgs)
    decreases |msgs|
  {
    hide CommandPulses, McuAfter;
    if k == |msgs| {
      assert msgs[..k] == msgs;
    } else {
      var n := |msgs| - 1;
      ReplayPrefix(start, msgs[..n], k);
      assert msgs[..n][..k] == msgs[..k];
    }
  }

  /** One pulse for each of the first requests, on its pin, never late, and early by at most max_error. */
  ghost predicate MakesFirst(pulses: seq<Pulse>, sc: StepCompress)
    reads sc
  {
    && |pulses| <= |sc.trace.times| && |pulses| <= |sc.requests|
    && forall p :: 0 <= p < |pulses| ==>
         && pulses[p] == Pulse(U32(sc.trace.times[p]), sc.requests[p].pin)
         && sc.trace.times[p] <= sc.requests[p].clock <= sc.trace.times[p] + sc.maxError
  }

  /** Replaying the first messages since a reset makes the first requested pulses. */
  lemma FirstPulsesMade(sc: StepCompress, k: nat)
    requires sc.Valid() && sc.epoch <= k <= |sc.msgs|
    ensures MakesFirst(Replay(sc.start, sc.msgs[sc.epoch..k]), sc)
  {
    hide StepQueue.OutputOk, QueueHolds, QueuedAre, Replay, U32;
    ReplayMeetsRequests(sc.start, sc.Sent(), sc.trace, sc.requests, sc.maxError, sc.lastStepClock, sc.sdir,
                        PinLevel(sc.sdir, sc.invertSdir), sc.clocks);
    ReplayPrefix(sc.start, sc.Sent(), k - sc.epoch);
    assert sc.Sent()[..k - sc.epoch] == sc.msgs[sc.epoch..k];
  }

  /** The n messages a stepper reads make, from its last reset on, the first pulses requested since. */
  ghost predicate ToldFirst(left: seq<QueueMessage>, tags: Tags, sc: StepCompress, n: nat)
    reads sc
  {
    var told := Received(left, tags);
    |told| == n && (sc.epoch <= n ==> MakesFirst(Replay(sc.start, told[sc.epoch..]), sc))
  }

  lemma {:induction false} UnscheduledFrom(msgs: seq<Message>, e: nat, n: nat)
    requires e <= n <= |msgs|
    ensures Unscheduled(msgs[..n])[e..] == Unscheduled(msgs[e..n])
  {
    hide Executable, Meant;
  }

  lemma {:induction false} ReadingMakesFirst(left: seq<QueueMessage>, tags: Tags, sc: StepCompress, n: nat)
    requires sc.Valid() && n <= |sc.msgs| && Received(left, tags) == Unscheduled(sc.msgs[..n])
    ensures ToldFirst(left, tags, sc, n)
  {
    hide StepCompress.Valid, MakesFirst, Replay, Received;
    if sc.epoch <= n {
      FirstPulsesMade(sc, n);
      UnscheduledFrom(sc.msgs, sc.epoch, n);
      ReplayUnscheduled(sc.start, sc.msgs[sc.epoch..n]);
    }
  }

  lemma ValidSendable(sc: StepCompress)
    requires sc.Valid()
    ensures AllSendable(sc.msgs)
  {
  }

  ghost function MessagesOf(steppers: seq<StepCompress>): (r: seq<seq<Message>>)
    reads steppers
    ensures |r| == |steppers| && forall i :: 0 <= i < |r| ==> r[i] == steppers[i].msgs
  {
    if steppers == [] then [] else MessagesOf(steppers[..|steppers| - 1]) + [steppers[|steppers| - 1].msgs]
  }

  /** The messages put in blocks are shared out among the steppers of the group. */
  lemma {:induction false} LeftShared(steppers: seq<StepCompress>, tags: seq<Tags>, sync: SlotSync,
                                      scheduler: Scheduler, cq: nat, m: nat)
    requires Group(steppers, tags, sync) && sync.Valid()
    requires scheduler.Valid() && Linked(sync, scheduler, cq) && m <= |scheduler.taken|
    ensures |scheduler.taken| == |scheduler.source|
    ensures var left := From(scheduler.taken[..m], scheduler.source[..m], cq);
            |left| <= |sync.source| && Shares(left, sync.source[..|left|], MessagesOf(steppers), tags)
  {
    hide StepCompress.Valid, From, SameBodies, PackedAll, AdjustAll, Rewrites, IsHeap, Ledger, HeapAfter;
    ScheduledSources(scheduler);
    var left, msgs := From(scheduler.taken[..m], scheduler.source[..m], cq), MessagesOf(steppers);
    LeftWithin(sync, scheduler, cq, m);
    forall j | 0 <= j < |msgs|
      ensures FirstOf(From(left, sync.source[..|left|], j), msgs[j], tags[j])
    {
      LeftInOrder(steppers[j], tags[j], sync, scheduler, cq, j, m);
    }
  }

  lemma ScheduledSources(scheduler: Scheduler)
    requires scheduler.Valid()
    ensures |scheduler.taken| == |scheduler.source|
  {
  }

  lemma {:induction false} LeftWithin(sync: SlotSync, scheduler: Scheduler, cq: nat, m: nat)
    requires sync.Valid() && scheduler.Valid() && Linked(sync, scheduler, cq) && m <= |scheduler.taken|
    ensures |scheduler.taken| == |scheduler.source|
    ensures |From(scheduler.taken[..m], scheduler.source[..m], cq)| <= |sync.source|
  {
    hide From, IsHeap, Ledger, HeapAfter;
    SentFirst(scheduler.taken, scheduler.source, scheduler.queues, scheduler.given, cq);
    FromPrefix(scheduler.taken, scheduler.source, m, cq);
  }

  /**
   * In every state of a group, and for the first m messages put in blocks: those of each stepper are the first it
   * emitted, in its own order and with their own bodies. Of all the messages of the group, those it reads as its
   * own are these; and if they reach past its last reset, executing what it read since makes the first pulses
   * requested since.
   */
  lemma {:induction false} ExecutedAsRequested(steppers: seq<StepCompress>, tags: seq<Tags>, sync: SlotSync,
                                               scheduler: Scheduler, cq: nat, i: nat, m: nat)
    requires Group(steppers, tags, sync) && sync.Valid() && i < |steppers|
    requires scheduler.Valid() && Linked(sync, scheduler, cq) && m <= |scheduler.taken|
    ensures |scheduler.taken| == |scheduler.source|
    ensures var left, sc := From(scheduler.taken[..m], scheduler.source[..m], cq), steppers[i];
            |left| <= |sync.source| &&
            var mine := From(left, sync.source[..|left|], i);
            && FirstOf(mine, sc.msgs, tags[i])
            && (sc.epoch <= |mine| ==> MakesFirst(Replay(sc.start, sc.msgs[sc.epoch..|mine|]), sc))
            && (OneDictionary(tags) ==> ToldFirst(left, tags[i], sc, |mine|))
  {
    hide StepCompress.Valid, From, FirstOf, PackedAll, MakesFirst, Replay, AdjustAll, Rewrites, IsHeap, Ledger,
         HeapAfter, Received, OneDictionary, ToldFirst, Unscheduled, AllSendable;
    var sc, msgs := steppers[i], MessagesOf(steppers);
    LeftShared(steppers, tags, sync, scheduler, cq, m);
    var left := From(scheduler.taken[..m], scheduler.source[..m], cq);
    var mine := From(left, sync.source[..|left|], i);
    assert FirstOf(mine, msgs[i], tags[i]);
    FirstWithin(mine, msgs[i], tags[i]);
    if sc.epoch <= |mine| { FirstPulsesMade(sc, |mine|); }
    if OneDictionary(tags) {
      forall j | 0 <= j < |msgs|
        ensures AllSendable(msgs[j])
      {
        ValidSendable(steppers[j]);
      }
      ReceivedOwn(left, sync.source[..|left|], msgs, tags, i);
      ReadingMakesFirst(left, tags[i], sc, |mine|);
    }
  }
}
