/**
 * Scheduling commands for transmission: each command queue holds stalled messages, which wait
 * for their minimum clock, and ready ones; blocks are filled with the ready messages of
 * lowest request clock.
 */
module CommandQueues {
  import opened MsgBlock
  import opened Origins
  import opened Words

  const BACKGROUND_PRIORITY_CLOCK: nat := 0x7fff_ffff_0000_0000
  /** Largest distance of a minimum clock before its request clock (3<<29). */
  const CLOCK_HORIZON: nat := 0x6000_0000

  datatype Queue = Queue(stalled: seq<QueueMessage>, ready: seq<QueueMessage>)

  predicate Empty(q: Queue) {
    q.stalled == [] && q.ready == []
  }

  function Bytes(msgs: seq<QueueMessage>): nat {
    if msgs == [] then 0 else |msgs[0].body| + Bytes(msgs[1..])
  }

  lemma {:induction false} BytesAppend(a: seq<QueueMessage>, b: seq<QueueMessage>)
    ensures Bytes(a + b) == Bytes(a) + Bytes(b)
  {
    if a == [] {
      assert a + b == b;
    } else {
      BytesAppend(a[1..], b);
      assert (a + b)[1..] == a[1..] + b;
    }
  }

  function ReadyTotal(queues: seq<Queue>): nat {
    if queues == [] then 0 else Bytes(queues[0].ready) + ReadyTotal(queues[1..])
  }

  function StalledTotal(queues: seq<Queue>): nat {
    if queues == [] then 0 else Bytes(queues[0].stalled) + StalledTotal(queues[1..])
  }

  lemma {:induction false} TotalsUpdate(queues: seq<Queue>, i: nat, q: Queue)
    requires i < |queues|
    ensures ReadyTotal(queues[i := q]) == ReadyTotal(queues) - Bytes(queues[i].ready) + Bytes(q.ready)
    ensures StalledTotal(queues[i := q]) == StalledTotal(queues) - Bytes(queues[i].stalled) + Bytes(q.stalled)
  {
    if i == 0 {
      assert queues[i := q][1..] == queues[1..];
    } else {
      TotalsUpdate(queues[1..], i - 1, q);
      assert queues[i := q][1..] == queues[1..][i - 1 := q];
    }
  }

  // ---------------------------------------------------------------------------
  // Invariants
  // ---------------------------------------------------------------------------

  /** What callers must respect: commands of at most 59 bytes, with a request clock. */
  predicate Acceptable(m: QueueMessage) {
    |m.body| <= MESSAGE_PAYLOAD_MAX && m.reqClock < MAX_CLOCK
  }

  ghost predicate AcceptableAll(msgs: seq<QueueMessage>) {
    forall k :: 0 <= k < |msgs| ==> Acceptable(msgs[k])
  }

  ghost predicate QueueAcceptable(q: Queue) {
    AcceptableAll(q.ready) && AcceptableAll(q.stalled)
  }

  ghost predicate AllAcceptable(queues: seq<Queue>) {
    forall i :: 0 <= i < |queues| ==> QueueAcceptable(queues[i])
  }

  /** The pending list names each non-empty queue once, and no other. */
  ghost predicate PendingExact(pending: seq<nat>, queues: seq<Queue>) {
    && (forall j :: 0 <= j < |pending| ==> pending[j] < |queues| && !Empty(queues[pending[j]]))
    && (forall j, k :: 0 <= j < k < |pending| ==> pending[j] != pending[k])
    && (forall i :: 0 <= i < |queues| && !Empty(queues[i]) ==> i in pending)
  }

  /** For each queue: what left it, then what is ready, then what is stalled, is all it was given. */
  ghost predicate InOrder(taken: seq<QueueMessage>, source: seq<nat>, queues: seq<Queue>, given: seq<seq<QueueMessage>>)
  {
    && |taken| == |source| && |queues| == |given|
    && forall i :: 0 <= i < |queues| ==> From(taken, source, i) + queues[i].ready + queues[i].stalled == given[i]
  }

  // ---------------------------------------------------------------------------
  // Changes to one queue
  // ---------------------------------------------------------------------------

  lemma UpdateAcceptable(queues: seq<Queue>, i: nat, q: Queue)
    requires i < |queues| && AllAcceptable(queues) && QueueAcceptable(q)
    ensures AllAcceptable(queues[i := q])
  {
  }

  lemma UpdatePending(pending: seq<nat>, queues: seq<Queue>, i: nat, q: Queue)
    requires i < |queues| && PendingExact(pending, queues) && !Empty(queues[i]) && !Empty(q)
    ensures PendingExact(pending, queues[i := q])
  {
  }

  lemma AddPending(pending: seq<nat>, queues: seq<Queue>, i: nat, q: Queue)
    requires i < |queues| && PendingExact(pending, queues) && Empty(queues[i]) && !Empty(q)
    ensures PendingExact(pending + [i], queues[i := q])
  {
  }

  /** A list without the (first) entry i. */
  function Without(pending: seq<nat>, i: nat): seq<nat> {
    if pending == [] then []
    else if pending[0] == i then pending[1..]
    else [pending[0]] + Without(pending[1..], i)
  }

  ghost predicate Distinct(s: seq<nat>) {
    forall j, k :: 0 <= j < k < |s| ==> s[j] != s[k]
  }

  lemma {:induction false} WithoutMembers(pending: seq<nat>, i: nat)
    ensures forall x :: x in Without(pending, i) ==> x in pending
    ensures forall x :: x in pending && x != i ==> x in Without(pending, i)
  {
    if pending != [] && pending[0] != i { WithoutMembers(pending[1..], i); }
  }

  lemma {:induction false} WithoutDistinct(pending: seq<nat>, i: nat)
    requires Distinct(pending)
    ensures Distinct(Without(pending, i)) && i !in Without(pending, i)
  {
    if pending != [] {
      var tail := pending[1..];
      assert forall k :: 0 <= k < |tail| ==> tail[k] == pending[k + 1];
      if pending[0] != i {
        WithoutDistinct(tail, i);
        WithoutMembers(tail, i);
        assert pending[0] !in Without(tail, i);
      }
    }
  }

  lemma {:induction false} DropPending(pending: seq<nat>, queues: seq<Queue>, i: nat, q: Queue)
    requires i < |queues| && PendingExact(pending, queues) && Empty(q)
    ensures PendingExact(Without(pending, i), queues[i := q])
  {
    WithoutDistinct(pending, i);
    WithoutMembers(pending, i);
    var p, queues' := Without(pending, i), queues[i := q];
    forall j | 0 <= j < |p|
      ensures p[j] < |queues'| && !Empty(queues'[p[j]])
    {
      assert p[j] in pending;
    }
  }

  lemma {:induction false} UpdateInOrder(taken: seq<QueueMessage>, source: seq<nat>, queues: seq<Queue>,
                                         given: seq<seq<QueueMessage>>, i: nat, q: Queue, all: seq<QueueMessage>)
    requires i < |queues| && InOrder(taken, source, queues, given)
    requires From(taken, source, i) + q.ready + q.stalled == all
    ensures InOrder(taken, source, queues[i := q], given[i := all])
  {
  }

  // ---------------------------------------------------------------------------
  // Becoming ready
  // ---------------------------------------------------------------------------

  /** The front stalled message becomes the last ready one. */
  function Advance(q: Queue): Queue
    requires q.stalled != []
  {
    Queue(q.stalled[1..], q.ready + [q.stalled[0]])
  }

  /** Stalled messages whose minimum clock has come become ready, in order. */
  function Released(q: Queue, ackClock: nat): Queue
    decreases |q.stalled|
  {
    if q.stalled == [] || ackClock < q.stalled[0].minClock then q else Released(Advance(q), ackClock)
  }

  /** Releasing keeps the order of messages; what it adds is due, and what is left at the front is not. */
  lemma {:induction false} ReleasedSplits(q: Queue, ackClock: nat)
    ensures var r := Released(q, ackClock);
            && r.ready + r.stalled == q.ready + q.stalled
            && q.ready <= r.ready
            && (forall k :: |q.ready| <= k < |r.ready| ==> r.ready[k].minClock <= ackClock)
            && (r.stalled != [] ==> ackClock < r.stalled[0].minClock)
    decreases |q.stalled|
  {
    if !(q.stalled == [] || ackClock < q.stalled[0].minClock) {
      var a := Advance(q);
      ReleasedSplits(a, ackClock);
      AdvanceOrder(q);
    }
  }

  lemma AdvanceOrder(q: Queue)
    requires q.stalled != []
    ensures Advance(q).ready + Advance(q).stalled == q.ready + q.stalled
  {
    assert q.stalled == [q.stalled[0]] + q.stalled[1..];
  }

  // ---------------------------------------------------------------------------
  // The scheduler
  // ---------------------------------------------------------------------------

  /** Keep the minimum clock within the horizon of the request clock, so that 31-bit comparisons hold. */
  function Adjust(m: QueueMessage): (r: QueueMessage)
    ensures r.body == m.body && r.reqClock == m.reqClock
    ensures r.minClock >= m.minClock
    ensures m.reqClock != BACKGROUND_PRIORITY_CLOCK ==> r.reqClock - r.minClock <= CLOCK_HORIZON
    ensures r.minClock > m.minClock ==>
            m.reqClock != BACKGROUND_PRIORITY_CLOCK && r.reqClock - r.minClock == CLOCK_HORIZON
  {
    if m.minClock + CLOCK_HORIZON < m.reqClock && m.reqClock != BACKGROUND_PRIORITY_CLOCK
    then m.(minClock := m.reqClock - CLOCK_HORIZON) else m
  }

  function AdjustAll(msgs: seq<QueueMessage>): (r: seq<QueueMessage>)
    ensures |r| == |msgs| && forall k :: 0 <= k < |r| ==> r[k] == Adjust(msgs[k])
  {
    if msgs == [] then [] else [Adjust(msgs[0])] + AdjustAll(msgs[1..])
  }

  /** Bodies of messages, one after the other. */
  function Payload(msgs: seq<QueueMessage>): seq<byte> {
    if msgs == [] then [] else Payload(msgs[..|msgs| - 1]) + msgs[|msgs| - 1].body
  }

  lemma {:induction false} PayloadAppend(msgs: seq<QueueMessage>, m: QueueMessage)
    ensures Payload(msgs + [m]) == Payload(msgs) + m.body
  {
    assert (msgs + [m])[..|msgs|] == msgs;
  }

  /** Queue who has a ready message, and no ready message at the front of a pending queue has a lower reqClock. */
  ghost predicate LowestReady(pending: seq<nat>, queues: seq<Queue>, who: nat) {
    && who < |queues| && queues[who].ready != []
    && forall j :: 0 <= j < |pending| && pending[j] < |queues| && queues[pending[j]].ready != [] ==>
         queues[who].ready[0].reqClock <= queues[pending[j]].ready[0].reqClock
  }

  lemma {:induction false} SomeReady(queues: seq<Queue>) returns (i: nat)
    requires ReadyTotal(queues) > 0
    ensures i < |queues| && queues[i].ready != []
  {
    if queues[0].ready != [] {
      i := 0;
    } else {
      i := SomeReady(queues[1..]);
      i := i + 1;
    }
  }

  // ---------------------------------------------------------------------------
  // When messages were released
  // ---------------------------------------------------------------------------

  /** Each message was released at a clock no earlier than its minimum. */
  ghost predicate ReleasedInTime(msgs: seq<QueueMessage>, at: seq<nat>) {
    |at| == |msgs| && forall k :: 0 <= k < |msgs| ==> msgs[k].minClock <= at[k]
  }

  ghost predicate AllInTime(queues: seq<Queue>, readyAt: seq<seq<nat>>) {
    |readyAt| == |queues| && forall i :: 0 <= i < |queues| ==> ReleasedInTime(queues[i].ready, readyAt[i])
  }

  lemma UpdateInTime(queues: seq<Queue>, readyAt: seq<seq<nat>>, i: nat, q: Queue, at: seq<nat>)
    requires i < |queues| && AllInTime(queues, readyAt) && ReleasedInTime(q.ready, at)
    ensures AllInTime(queues[i := q], readyAt[i := at])
  {
  }

  lemma AdvanceInTime(queues: seq<Queue>, readyAt: seq<seq<nat>>, i: nat, ackClock: nat)
    requires i < |queues| && AllInTime(queues, readyAt) && queues[i].stalled != []
    requires queues[i].stalled[0].minClock <= ackClock
    ensures AllInTime(queues[i := Advance(queues[i])], readyAt[i := readyAt[i] + [ackClock]])
  {
    assert ReleasedInTime(queues[i].ready, readyAt[i]);
    UpdateInTime(queues, readyAt, i, Advance(queues[i]), readyAt[i] + [ackClock]);
  }

  lemma TakeInTime(queues: seq<Queue>, readyAt: seq<seq<nat>>, taken: seq<QueueMessage>, takenAt: seq<nat>, i: nat)
    requires i < |queues| && AllInTime(queues, readyAt) && queues[i].ready != [] && ReleasedInTime(taken, takenAt)
    ensures |readyAt| == |queues| && readyAt[i] != []
    ensures AllInTime(queues[i := Shortened(queues[i])], readyAt[i := readyAt[i][1..]])
    ensures ReleasedInTime(taken + [queues[i].ready[0]], takenAt + [readyAt[i][0]])
  {
    assert ReleasedInTime(queues[i].ready, readyAt[i]);
    UpdateInTime(queues, readyAt, i, Shortened(queues[i]), readyAt[i][1..]);
  }

  // ---------------------------------------------------------------------------
  // The picks of one block
  // ---------------------------------------------------------------------------

  /** A queue without its front ready message. */
  function Shortened(q: Queue): Queue {
    if q.ready == [] then q else q.(ready := q.ready[1..])
  }

  /** The queues, and the pending list, after picking from the given queues in turn. */
  function QueuesAfter(queues: seq<Queue>, whos: seq<nat>): seq<Queue> {
    if whos == [] then queues else
      var before, who := QueuesAfter(queues, whos[..|whos| - 1]), whos[|whos| - 1];
      if who < |before| then before[who := Shortened(before[who])] else before
  }

  function PendingsAfter(pending: seq<nat>, queues: seq<Queue>, whos: seq<nat>): seq<nat> {
    if whos == [] then pending else
      var init, who := whos[..|whos| - 1], whos[|whos| - 1];
      var before, list := QueuesAfter(queues, init), PendingsAfter(pending, queues, init);
      if who < |before| then PendingAfter(list, who, Shortened(before[who])) else list
  }

  /** Each pick was, when it was made, from a queue whose ready head had the lowest request clock. */
  ghost predicate PicksLowest(pending: seq<nat>, queues: seq<Queue>, whos: seq<nat>) {
    whos == [] ||
    var init, who := whos[..|whos| - 1], whos[|whos| - 1];
    PicksLowest(pending, queues, init) &&
      LowestReady(PendingsAfter(pending, queues, init), QueuesAfter(queues, init), who)
  }

  lemma {:induction false} PickNext(pending: seq<nat>, queues: seq<Queue>, whos: seq<nat>, who: nat)
    requires PicksLowest(pending, queues, whos)
    requires LowestReady(PendingsAfter(pending, queues, whos), QueuesAfter(queues, whos), who)
    ensures PicksLowest(pending, queues, whos + [who])
    ensures var before := QueuesAfter(queues, whos);
            && who < |before|
            && QueuesAfter(queues, whos + [who]) == before[who := Shortened(before[who])]
            && PendingsAfter(pending, queues, whos + [who]) ==
                 PendingAfter(PendingsAfter(pending, queues, whos), who, Shortened(before[who]))
  {
    assert (whos + [who])[..|whos|] == whos;
  }

  class Scheduler {
    var queues: seq<Queue>
    var pending: seq<nat>
    var readyBytes: int
    var stalledBytes: int

    /** Everything given to each queue, and everything put in a block, with the queue it came from. */
    ghost var given: seq<seq<QueueMessage>>
    ghost var taken: seq<QueueMessage>
    ghost var source: seq<nat>

    /** The clocks at which the ready messages of each queue, and those put in a block, were released. */
    ghost var readyAt: seq<seq<nat>>
    ghost var takenAt: seq<nat>

    ghost predicate Valid()
      reads this
    {
      && AllAcceptable(queues)
      && PendingExact(pending, queues)
      && InOrder(taken, source, queues, given)
      && AllInTime(queues, readyAt) && ReleasedInTime(taken, takenAt)
      && readyBytes == ReadyTotal(queues)
      && stalledBytes == StalledTotal(queues)
    }

    constructor (n: nat)
      ensures Valid() && |queues| == |given| == n && taken == []
      ensures forall i :: 0 <= i < n ==> Empty(queues[i]) && given[i] == []
    {
      queues, pending, readyBytes, stalledBytes := seq(n, _ => Queue([], [])), [], 0, 0;
      given, taken, source := seq(n, _ => []), [], [];
      readyAt, takenAt := seq(n, _ => []), [];
      new;
      EmptyTotals(queues);
    }

    /** Add a batch of messages to a command queue; a batch of no bytes is ignored. */
    method SendBatch(cq: nat, msgs: seq<QueueMessage>)
      requires Valid() && cq < |queues| && AcceptableAll(msgs)
      modifies `queues, `pending, `stalledBytes, `given
      ensures Valid()
      ensures Bytes(msgs) == 0 ==> unchanged(this)
      ensures Bytes(msgs) > 0 ==>
                && given == old(given)[cq := old(given)[cq] + AdjustAll(msgs)]
                && queues == old(queues)[cq := old(queues)[cq].(stalled := old(queues)[cq].stalled + AdjustAll(msgs))]
    {
      hide AllAcceptable, PendingExact, InOrder, ReadyTotal, StalledTotal, AllInTime, ReleasedInTime, AcceptableAll,
           AdjustAll;
      var adjusted, len := AdjustBatch(msgs);
      if len == 0 {
        return;
      }
      var q := queues[cq];
      var q' := q.(stalled := q.stalled + adjusted);
      BatchJoins(taken, source, queues, given, cq, adjusted);
      StalledInTime(queues, readyAt, cq, q');
      if q.ready == [] && q.stalled == [] {
        AddPending(pending, queues, cq, q');
        pending := pending + [cq];
      } else {
        UpdatePending(pending, queues, cq, q');
      }
      queues := queues[cq := q'];
      given := given[cq := given[cq] + adjusted];
      stalledBytes := stalledBytes + len;
    }

    /** Move the due messages of one queue from stalled to ready. */
    method ReleaseQueue(cq: nat, ackClock: nat)
      requires Valid() && cq < |queues|
      modifies `queues, `readyBytes, `stalledBytes, `readyAt
      ensures Valid() && queues == old(queues)[cq := Released(old(queues)[cq], ackClock)]
    {
      hide AllAcceptable, PendingExact, InOrder, ReadyTotal, StalledTotal, AllInTime, ReleasedInTime;
      while queues[cq].stalled != [] && queues[cq].stalled[0].minClock <= ackClock
        invariant Valid() && cq < |queues|
        invariant queues == old(queues)[cq := queues[cq]]
        invariant Released(queues[cq], ackClock) == Released(old(queues)[cq], ackClock)
        decreases |queues[cq].stalled|
      {
        var qm := queues[cq].stalled[0];
        AdvanceOk(pending, queues, taken, source, given, cq);
        InTimeSizes(queues, readyAt);
        AdvanceInTime(queues, readyAt, cq, ackClock);
        queues, readyAt := queues[cq := Advance(queues[cq])], readyAt[cq := readyAt[cq] + [ackClock]];
        stalledBytes, readyBytes := stalledBytes - |qm.body|, readyBytes + |qm.body|;
      }
    }

    /** Move every due message from stalled to ready. */
    method ReleaseReady(ackClock: nat)
      requires Valid()
      modifies `queues, `readyBytes, `stalledBytes, `readyAt
      ensures Valid() && |queues| == |old(queues)|
      ensures forall i :: 0 <= i < |queues| ==> queues[i] == Released(old(queues)[i], ackClock)
    {
      hide AllAcceptable, PendingExact, InOrder, ReadyTotal, StalledTotal, Released, PartReleased, AllInTime,
           ReleasedInTime;
      PendingInRange(pending, queues);
      NoneReleased(queues, ackClock);
      assert pending[..0] == [];
      for j := 0 to |pending|
        invariant Valid() && |queues| == |old(queues)|
        invariant PartReleased(queues, old(queues), pending[..j], ackClock)
      {
        assert pending[j] !in pending[..j];
        OneReleased(queues, old(queues), pending[..j], pending[j], ackClock);
        assert pending[..j + 1] == pending[..j] + [pending[j]];
        ReleaseQueue(pending[j], ackClock);
      }
      assert pending[..|pending|] == pending;
      AllReleased(queues, old(queues), pending, ackClock);
    }

    /** The ready message with the lowest reqClock; the earliest pending queue wins a tie. */
    method PickLowest() returns (who: nat, ghost position: nat)
      requires Valid() && readyBytes != 0
      ensures LowestReady(pending, queues, who) && position < |pending| && pending[position] == who
      ensures forall k :: 0 <= k < position && queues[pending[k]].ready != [] ==>
                queues[who].ready[0].reqClock < queues[pending[k]].ready[0].reqClock
    {
      hide InOrder, ReadyTotal, StalledTotal, AllAcceptable, PendingExact, AllInTime, ReleasedInTime;
      ghost var some := SomeReady(queues);
      HeadAcceptable(queues, some);
      PendingInRange(pending, queues);
      assert some in pending;
      var minClock, found := MAX_CLOCK, false;
      who, position := 0, 0;
      for j := 0 to |pending|
        invariant found ==> who < |queues| && queues[who].ready != [] && minClock == queues[who].ready[0].reqClock
        invariant !found ==> minClock == MAX_CLOCK
        invariant position <= j && (found ==> position < j && pending[position] == who)
        invariant forall k :: 0 <= k < position && queues[pending[k]].ready != [] ==>
                    minClock < queues[pending[k]].ready[0].reqClock
        invariant forall k :: 0 <= k < j && queues[pending[k]].ready != [] ==>
                    minClock <= queues[pending[k]].ready[0].reqClock
      {
        var q := queues[pending[j]];
        if q.ready != [] {
          if q.ready[0].reqClock < minClock {
            minClock, who, found, position := q.ready[0].reqClock, pending[j], true, j;
          }
        }
      }
    }

    /** Take the lowest ready message for a block. */
    method TakeReady(who: nat) returns (m: QueueMessage)
      requires Valid() && LowestReady(pending, queues, who)
      modifies `queues, `pending, `readyBytes, `taken, `source, `readyAt, `takenAt
      ensures Valid() && m == old(queues)[who].ready[0]
      ensures taken == old(taken) + [m] && source == old(source) + [who]
      ensures queues == old(queues)[who := Shortened(old(queues)[who])]
      ensures pending == PendingAfter(old(pending), who, Shortened(old(queues)[who]))
      ensures readyBytes == old(readyBytes) - |m.body|
    {
      assert who < |queues| && queues[who].ready != [];
      hide AllAcceptable, PendingExact, InOrder, ReadyTotal, StalledTotal, LowestReady, PendingAfter, AllInTime,
           ReleasedInTime;
      TakeOk(pending, queues, taken, source, given, who);
      TakeInTime(queues, readyAt, taken, takenAt, who);
      var q := queues[who];
      m := q.ready[0];
      q := q.(ready := q.ready[1..]);
      queues, pending, readyBytes := queues[who := q], PendingAfter(pending, who, q), readyBytes - |m.body|;
      taken, source := taken + [m], source + [who];
      readyAt, takenAt := readyAt[who := readyAt[who][1..]], takenAt + [readyAt[who][0]];
    }

    /** Fill a block with ready messages, lowest reqClock first, while they fit. */
    method BuildBlock() returns (payload: seq<byte>, ghost msgs: seq<QueueMessage>, ghost whos: seq<nat>)
      requires Valid()
      modifies `queues, `pending, `readyBytes, `taken, `source, `readyAt, `takenAt
      ensures Valid() && |payload| <= MESSAGE_PAYLOAD_MAX
      ensures payload == Payload(msgs) && taken == old(taken) + msgs && source == old(source) + whos
      ensures PicksLowest(old(pending), old(queues), whos)
      ensures queues == QueuesAfter(old(queues), whos) && pending == PendingsAfter(old(pending), old(queues), whos)
      ensures readyBytes == old(readyBytes) - |payload|
      ensures readyBytes == 0 ||
              exists who: nat :: LowestReady(pending, queues, who) &&
                |payload| + |queues[who].ready[0].body| > MESSAGE_PAYLOAD_MAX
    {
      payload, msgs, whos := [], [], [];
      var len := MESSAGE_HEADER_SIZE;
      hide AllAcceptable, PendingExact, InOrder, ReadyTotal, StalledTotal, AllInTime, ReleasedInTime, PendingAfter;
      while readyBytes != 0
        invariant Valid() && len == MESSAGE_HEADER_SIZE + |payload| && |payload| <= MESSAGE_PAYLOAD_MAX
        invariant payload == Payload(msgs) && taken == old(taken) + msgs && source == old(source) + whos
        invariant PicksLowest(old(pending), old(queues), whos)
        invariant queues == QueuesAfter(old(queues), whos) && pending == PendingsAfter(old(pending), old(queues), whos)
        invariant readyBytes == old(readyBytes) - |payload|
        decreases ReadyCount(queues)
      {
        var who, _ := PickLowest();
        if len + |queues[who].ready[0].body| > MESSAGE_MAX - MESSAGE_TRAILER_SIZE {
          break;
        }
        ReadyCountShrinks(queues, who);
        PickNext(old(pending), old(queues), whos, who);
        var m := TakeReady(who);
        PayloadAppend(msgs, m);
        payload, msgs, whos := payload + m.body, msgs + [m], whos + [who];
        len := len + |m.body|;
      }
    }
  }

  lemma InTimeSizes(queues: seq<Queue>, readyAt: seq<seq<nat>>)
    requires AllInTime(queues, readyAt)
    ensures |readyAt| == |queues|
  {
  }

  lemma StalledInTime(queues: seq<Queue>, readyAt: seq<seq<nat>>, i: nat, q: Queue)
    requires i < |queues| && AllInTime(queues, readyAt) && q.ready == queues[i].ready
    ensures AllInTime(queues[i := q], readyAt)
  {
    UpdateInTime(queues, readyAt, i, q, readyAt[i]);
    assert readyAt[i := readyAt[i]] == readyAt;
  }

  lemma HeadAcceptable(queues: seq<Queue>, i: nat)
    requires AllAcceptable(queues) && i < |queues| && queues[i].ready != []
    ensures queues[i].ready[0].reqClock < MAX_CLOCK && !Empty(queues[i])
  {
    assert QueueAcceptable(queues[i]) && Acceptable(queues[i].ready[0]);
  }

  /** The queues listed in done have been released, and the others are as they were. */
  ghost predicate PartReleased(queues: seq<Queue>, before: seq<Queue>, done: seq<nat>, ackClock: nat) {
    && |queues| == |before|
    && forall i :: 0 <= i < |queues| ==>
         queues[i] == if i in done then Released(before[i], ackClock) else before[i]
  }

  lemma NoneReleased(queues: seq<Queue>, ackClock: nat)
    ensures PartReleased(queues, queues, [], ackClock)
  {
  }

  lemma {:induction false} OneReleased(queues: seq<Queue>, before: seq<Queue>, done: seq<nat>, cq: nat, ackClock: nat)
    requires PartReleased(queues, before, done, ackClock) && cq < |queues| && cq !in done
    ensures PartReleased(queues[cq := Released(queues[cq], ackClock)], before, done + [cq], ackClock)
  {
  }

  lemma {:induction false} AllReleased(queues: seq<Queue>, before: seq<Queue>, done: seq<nat>, ackClock: nat)
    requires PartReleased(queues, before, done, ackClock)
    requires forall i :: 0 <= i < |before| && i !in done ==> Empty(before[i])
    ensures forall i :: 0 <= i < |queues| ==> queues[i] == Released(before[i], ackClock)
  {
    forall i | 0 <= i < |queues| && i !in done
      ensures queues[i] == Released(before[i], ackClock)
    {
      EmptyStays(before[i], ackClock);
    }
  }

  lemma {:induction false} EmptyTotals(queues: seq<Queue>)
    requires forall i :: 0 <= i < |queues| ==> Empty(queues[i])
    ensures ReadyTotal(queues) == 0 && StalledTotal(queues) == 0
  {
    if queues != [] { EmptyTotals(queues[1..]); }
  }

  function ReadyCount(queues: seq<Queue>): nat {
    if queues == [] then 0 else |queues[0].ready| + ReadyCount(queues[1..])
  }

  lemma {:induction false} ReadyCountShrinks(queues: seq<Queue>, i: nat)
    requires i < |queues| && queues[i].ready != []
    ensures ReadyCount(queues[i := Shortened(queues[i])]) < ReadyCount(queues)
  {
    var q := Shortened(queues[i]);
    if i == 0 {
      assert queues[i := q][1..] == queues[1..];
    } else {
      ReadyCountShrinks(queues[1..], i - 1);
      assert queues[i := q][1..] == queues[1..][i - 1 := q];
    }
  }

  lemma PendingInRange(pending: seq<nat>, queues: seq<Queue>)
    requires PendingExact(pending, queues)
    ensures forall j :: 0 <= j < |pending| ==> pending[j] < |queues|
    ensures forall j, k :: 0 <= j < k < |pending| ==> pending[j] != pending[k]
    ensures forall i :: 0 <= i < |queues| && i !in pending ==> Empty(queues[i])
  {
  }

  lemma {:induction false} EmptyStays(q: Queue, ackClock: nat)
    requires Empty(q)
    ensures Released(q, ackClock) == q
  {
  }

  /** Advancing one queue keeps all invariants and moves its bytes from stalled to ready. */
  lemma {:induction false} AdvanceOk(pending: seq<nat>, queues: seq<Queue>, taken: seq<QueueMessage>, source: seq<nat>,
                                     given: seq<seq<QueueMessage>>, i: nat)
    requires i < |queues| && queues[i].stalled != []
    requires AllAcceptable(queues) && PendingExact(pending, queues) && InOrder(taken, source, queues, given)
    ensures var queues' := queues[i := Advance(queues[i])];
            && AllAcceptable(queues') && PendingExact(pending, queues') && InOrder(taken, source, queues', given)
            && ReadyTotal(queues') == ReadyTotal(queues) + |queues[i].stalled[0].body|
            && StalledTotal(queues') == StalledTotal(queues) - |queues[i].stalled[0].body|
  {
    var q := queues[i];
    AdvanceAcceptable(q);
    UpdateAcceptable(queues, i, Advance(q));
    UpdatePending(pending, queues, i, Advance(q));
    var front := From(taken, source, i);
    assert front + q.ready + q.stalled == given[i];
    assert front + (q.ready + [q.stalled[0]]) + q.stalled[1..] == given[i] by {
      assert q.stalled == [q.stalled[0]] + q.stalled[1..];
    }
    UpdateInOrder(taken, source, queues, given, i, Advance(q), given[i]);
    assert given[i := given[i]] == given;
    hide AllAcceptable, PendingExact, InOrder;
    TotalsUpdate(queues, i, Advance(q));
    BytesAppend(q.ready, [q.stalled[0]]);
  }

  lemma AdvanceAcceptable(q: Queue)
    requires QueueAcceptable(q) && q.stalled != []
    ensures QueueAcceptable(Advance(q))
  {
  }

  /** The pending list once queue i has become q. */
  function PendingAfter(pending: seq<nat>, i: nat, q: Queue): seq<nat> {
    if q.ready == [] && q.stalled == [] then Without(pending, i) else pending
  }

  /** Taking the front ready message of a queue keeps all invariants. */
  lemma {:induction false} TakeOk(pending: seq<nat>, queues: seq<Queue>, taken: seq<QueueMessage>, source: seq<nat>,
                                  given: seq<seq<QueueMessage>>, i: nat)
    requires i < |queues| && queues[i].ready != []
    requires AllAcceptable(queues) && PendingExact(pending, queues) && InOrder(taken, source, queues, given)
    ensures var q' := Shortened(queues[i]);
            && AllAcceptable(queues[i := q'])
            && PendingExact(PendingAfter(pending, i, q'), queues[i := q'])
            && InOrder(taken + [queues[i].ready[0]], source + [i], queues[i := q'], given)
            && ReadyTotal(queues[i := q']) == ReadyTotal(queues) - |queues[i].ready[0].body|
            && StalledTotal(queues[i := q']) == StalledTotal(queues)
  {
    var q := queues[i];
    var q' := Shortened(q);
    UpdateAcceptable(queues, i, q');
    if Empty(q') { DropPending(pending, queues, i, q'); } else { UpdatePending(pending, queues, i, q'); }
    TakeInOrder(taken, source, queues, given, i);
    hide AllAcceptable, PendingExact, InOrder;
    TotalsUpdate(queues, i, q');
  }

  lemma TakeInOrder(taken: seq<QueueMessage>, source: seq<nat>, queues: seq<Queue>, given: seq<seq<QueueMessage>>,
                    i: nat)
    requires i < |queues| && queues[i].ready != [] && InOrder(taken, source, queues, given)
    ensures InOrder(taken + [queues[i].ready[0]], source + [i], queues[i := Shortened(queues[i])], given)
  {
    var m := queues[i].ready[0];
    var queues' := queues[i := Shortened(queues[i])];
    forall k | 0 <= k < |queues'|
      ensures From(taken + [m], source + [i], k) + queues'[k].ready + queues'[k].stalled == given[k]
    {
      FromAppend(taken, source, m, i, k);
      assert From(taken, source, k) + queues[k].ready + queues[k].stalled == given[k];
      if k == i { assert queues[k].ready == [m] + queues'[k].ready; }
    }
  }

  /** Set the minimum clocks of a batch and count its bytes. */
  method AdjustBatch(msgs: seq<QueueMessage>) returns (adjusted: seq<QueueMessage>, len: nat)
    requires AcceptableAll(msgs)
    ensures adjusted == AdjustAll(msgs) && len == Bytes(adjusted) == Bytes(msgs) && AcceptableAll(adjusted)
  {
    adjusted, len := [], 0;
    for i := 0 to |msgs|
      invariant adjusted == AdjustAll(msgs[..i]) && len == Bytes(msgs[..i])
    {
      BytesAppend(msgs[..i], [msgs[i]]);
      assert msgs[..i + 1] == msgs[..i] + [msgs[i]];
      adjusted, len := adjusted + [Adjust(msgs[i])], len + |msgs[i].body|;
    }
    assert msgs[..|msgs|] == msgs;
    BytesAdjusted(msgs);
  }

  /** A batch at the end of a queue keeps every queue acceptable and in order, and adds its bytes. */
  lemma BatchJoins(taken: seq<QueueMessage>, source: seq<nat>, queues: seq<Queue>, given: seq<seq<QueueMessage>>,
                   cq: nat, more: seq<QueueMessage>)
    requires cq < |queues| && AllAcceptable(queues) && InOrder(taken, source, queues, given) && AcceptableAll(more)
    ensures |given| == |queues|
    ensures var q' := queues[cq].(stalled := queues[cq].stalled + more);
            && AllAcceptable(queues[cq := q'])
            && InOrder(taken, source, queues[cq := q'], given[cq := given[cq] + more])
            && StalledTotal(queues[cq := q']) == StalledTotal(queues) + Bytes(more)
            && ReadyTotal(queues[cq := q']) == ReadyTotal(queues)
  {
    var q := queues[cq];
    var q' := q.(stalled := q.stalled + more);
    JoinAcceptable(q, more);
    UpdateAcceptable(queues, cq, q');
    assert From(taken, source, cq) + q.ready + q.stalled == given[cq];
    assert From(taken, source, cq) + q.ready + (q.stalled + more) == given[cq] + more;
    UpdateInOrder(taken, source, queues, given, cq, q', given[cq] + more);
    hide AllAcceptable, InOrder;
    TotalsUpdate(queues, cq, q');
    BytesAppend(q.stalled, more);
  }

  lemma {:induction false} BytesAdjusted(msgs: seq<QueueMessage>)
    ensures Bytes(AdjustAll(msgs)) == Bytes(msgs)
  {
    if msgs != [] {
      BytesAdjusted(msgs[1..]);
      assert AdjustAll(msgs)[1..] == AdjustAll(msgs[1..]);
    }
  }

  lemma JoinAcceptable(q: Queue, more: seq<QueueMessage>)
    requires QueueAcceptable(q) && AcceptableAll(more)
    ensures QueueAcceptable(q.(stalled := q.stalled + more))
  {
  }
}
