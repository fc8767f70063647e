/**
 * The messages of the scheduler over the serial link: blocks carry them whole and in order, so that what the
 * microcontroller has accepted is the first of what was sent, and of what every stepper requested.
 */
module Delivery {
  import opened CommandQueues
  import opened MsgBlock
  import opened Origins
  import opened SerialLink
  import opened StepQueue
  import opened StepReader
  import opened StepperSync
  import opened SyncFlush
  import opened Transmission
  import SerialQueue

  /** The messages of blocks, one block after the other. */
  ghost function Joined(groups: seq<seq<QueueMessage>>): seq<QueueMessage> {
    if groups == [] then [] else Joined(groups[..|groups| - 1]) + groups[|groups| - 1]
  }

  /** The block of a number holds these messages. */
  ghost predicate BlockHolds(block: seq<byte>, number: nat, msgs: seq<QueueMessage>) {
    |Payload(msgs)| <= MESSAGE_PAYLOAD_MAX && block == Frame(ByteOf(number % 16), Payload(msgs))
  }

  /** The blocks built carry the messages taken, each block the next of them. */
  ghost predicate Carries(built: seq<seq<byte>>, groups: seq<seq<QueueMessage>>, taken: seq<QueueMessage>) {
    && |groups| == |built| && Joined(groups) == taken
    && forall j :: 0 <= j < |built| ==> BlockHolds(built[j], j + 1, groups[j])
  }

  lemma CarriesNext(built: seq<seq<byte>>, groups: seq<seq<QueueMessage>>, taken: seq<QueueMessage>, block: seq<byte>,
                    msgs: seq<QueueMessage>)
    requires Carries(built, groups, taken) && BlockHolds(block, |built| + 1, msgs)
    ensures Carries(built + [block], groups + [msgs], taken + msgs)
  {
    hide BlockHolds;
    assert (groups + [msgs])[..|groups|] == groups;
  }

  lemma {:induction false} JoinedPrefix(groups: seq<seq<QueueMessage>>, k: nat)
    requires k <= |groups|
    ensures Joined(groups[..k]) <= Joined(groups)
    decreases |groups|
  {
    if k == |groups| {
      assert groups[..k] == groups;
    } else {
      var n := |groups| - 1;
      JoinedPrefix(groups[..n], k);
      assert groups[..n][..k] == groups[..k];
    }
  }

  /** A block reads back as its messages. */
  lemma {:induction false} BlockReads(block: seq<byte>, number: nat, msgs: seq<QueueMessage>)
    requires BlockHolds(block, number, msgs)
    ensures MESSAGE_MIN <= |block| <= MESSAGE_MAX && Check(false, block) == Block(|block|)
    ensures block[MESSAGE_HEADER_SIZE..|block| - MESSAGE_TRAILER_SIZE] == Payload(msgs)
  {
    hide Payload, Frame, Check, ByteOf;
    var seqNum, payload := ByteOf(number % 16), Payload(msgs);
    FrameChecks(seqNum, payload, []);
    assert block + [] == block;
    FrameBody(seqNum, payload);
    assert block[MESSAGE_HEADER_SIZE..][..|payload|] == payload;
  }

  lemma WindowAndNumber(l: Link)
    requires LinkOk(l)
    ensures HostOk(l.host) && l.host.sendSeq == |l.built| + 1
  {
  }

  /** Take the lowest ready messages, frame them as the next block and send it. */
  method BuildAndSend(scheduler: Scheduler, sq: SerialQueue.SerialQueue, ghost l: Link,
                      ghost groups: seq<seq<QueueMessage>>, receiveTime: real)
    returns (block: seq<byte>, ghost l': Link, ghost groups': seq<seq<QueueMessage>>)
    requires scheduler.Valid() && LinkOk(l) && sq.State() == l.host && sq.MaySend()
    requires Carries(l.built, groups, scheduler.taken)
    modifies scheduler, sq
    ensures scheduler.Valid() && LinkOk(l') && sq.State() == l'.host
    ensures Enabled(l, SendBlock(block, receiveTime)) && l' == Take(l, SendBlock(block, receiveTime))
    ensures groups <= groups' && Carries(l'.built, groups', scheduler.taken)
  {
    hide Scheduler.Valid, Carries, Payload, Frame, ByteOf, HostOk, LinkOk, Build;
    WindowAndNumber(l);
    var payload;
    ghost var msgs, whos;
    payload, msgs, whos := scheduler.BuildBlock();
    block := sq.BuildAndSend(payload, receiveTime);
    BlockReads(block, |l.built| + 1, msgs);
    SendBlockOk(l, block, receiveTime);
    CarriesNext(l.built, groups, old(scheduler.taken), block, msgs);
    l', groups' := Take(l, SendBlock(block, receiveTime)), groups + [msgs];
  }

  /** No other step of the link builds a block. */
  lemma OthersBuildNothing(l: Link, step: SerialLink.Step)
    requires Enabled(l, step) && !step.SendBlock?
    ensures Take(l, step).built == l.built
  {
  }

  /** What the peer has accepted are the first blocks, and their messages the first that were taken. */
  lemma DeliveredFirst(l: Link, groups: seq<seq<QueueMessage>>, taken: seq<QueueMessage>)
    requires LinkOk(l) && Carries(l.built, groups, taken)
    ensures |l.accepted| <= |groups| && Joined(groups[..|l.accepted|]) <= taken
    ensures forall j :: 0 <= j < |l.accepted| ==> BlockHolds(l.accepted[j], j + 1, groups[j])
  {
    hide BlockHolds, HostOk, WiresOk, AcksOk;
    JoinedPrefix(groups, |l.accepted|);
  }

  /**
   * From requests to the microcontroller: of the messages in the blocks it has accepted, those for each stepper
   * are the first that stepper emitted, it reads these and no others as its own, and executing what it read since
   * its last reset makes the first pulses requested.
   */
  lemma {:induction false} DeliveredAsRequested(steppers: seq<StepCompress>, tags: seq<Tags>, sync: SlotSync,
                                                scheduler: Scheduler, cq: nat, i: nat, l: Link,
                                                groups: seq<seq<QueueMessage>>)
    requires Group(steppers, tags, sync) && sync.Valid() && i < |steppers|
    requires scheduler.Valid() && Linked(sync, scheduler, cq)
    requires LinkOk(l) && Carries(l.built, groups, scheduler.taken)
    ensures |l.accepted| <= |groups| && |scheduler.taken| == |scheduler.source|
    ensures var m, sc := |Joined(groups[..|l.accepted|])|, steppers[i];
            m <= |scheduler.taken| &&
            var left := From(scheduler.taken[..m], scheduler.source[..m], cq);
            |left| <= |sync.source| &&
            var mine := From(left, sync.source[..|left|], i);
            && FirstOf(mine, sc.msgs, tags[i])
            && (sc.epoch <= |mine| ==> MakesFirst(Replay(sc.start, sc.msgs[sc.epoch..|mine|]), sc))
            && (OneDictionary(tags) ==> ToldFirst(left, tags[i], sc, |mine|))
  {
    hide Group, SlotSync.Valid, Scheduler.Valid, Linked, LinkOk, Carries, Joined, From, FirstOf, ToldFirst,
         OneDictionary, MakesFirst, Replay;
    DeliveredFirst(l, groups, scheduler.taken);
    ExecutedAsRequested(steppers, tags, sync, scheduler, cq, i, |Joined(groups[..|l.accepted|])|);
  }
}
