/**
 * Ordering step commands between steppers, and assigning each the clock at which a slot of
 * the microcontroller's move queue is free for it.
 */
module StepperSync {
  import opened MsgBlock
  import opened Origins
  import opened Words

  // ---------------------------------------------------------------------------
  // The heap of release clocks
  // ---------------------------------------------------------------------------

  function Parent(j: int): int {
    (j - 1) / 2
  }

  ghost predicate IsHeap(s: seq<nat>) {
    forall j {:trigger Parent(j)} :: 1 <= j < |s| ==> s[Parent(j)] <= s[j]
  }

  /** The root of a heap is its least element. */
  lemma {:induction false} RootIsLeast(s: seq<nat>, j: nat)
    requires IsHeap(s) && j < |s|
    ensures s[0] <= s[j]
  {
    if j > 0 {
      assert s[Parent(j)] <= s[j];
      RootIsLeast(s, Parent(j));
    }
  }

  /** A heap but for a hole at pos, whose parent is below everything under the hole and below x. */
  ghost predicate HeapWithHole(s: seq<nat>, pos: nat, x: nat)
    requires pos < |s|
  {
    && (forall j {:trigger Parent(j)} :: 1 <= j < |s| && j != pos && Parent(j) != pos ==> s[Parent(j)] <= s[j])
    && (pos > 0 ==> s[Parent(pos)] <= x)
    && (forall j {:trigger Parent(j)} :: 1 <= j < |s| && pos > 0 && Parent(j) == pos ==> s[Parent(pos)] <= s[j])
  }

  lemma HeapHasHole(s: seq<nat>, x: nat)
    requires IsHeap(s) && |s| > 0
    ensures HeapWithHole(s, 0, x)
  {
  }

  lemma ChildrenOf(pos: nat, j: int)
    requires j >= 1
    ensures Parent(j) == pos <==> j == 2 * pos + 1 || j == 2 * pos + 2
  {
  }

  /** Filling the hole with x restores the heap when both children are at least x. */
  lemma FillHole(s: seq<nat>, pos: nat, x: nat)
    requires pos < |s| && HeapWithHole(s, pos, x)
    requires 2 * pos + 1 < |s| ==> x <= s[2 * pos + 1]
    requires 2 * pos + 2 < |s| ==> x <= s[2 * pos + 2]
    ensures IsHeap(s[pos := x])
  {
    var f := s[pos := x];
    forall j {:trigger Parent(j)} | 1 <= j < |f|
      ensures f[Parent(j)] <= f[j]
    {
      ChildrenOf(pos, j);
    }
  }

  /** Moving the lesser child up moves the hole down to it. */
  lemma MoveUp(s: seq<nat>, pos: nat, child: nat, x: nat)
    requires pos < |s| && HeapWithHole(s, pos, x)
    requires child < |s| && (child == 2 * pos + 1 || child == 2 * pos + 2) && s[child] < x
    requires 2 * pos + 1 < |s| ==> s[child] <= s[2 * pos + 1]
    requires 2 * pos + 2 < |s| ==> s[child] <= s[2 * pos + 2]
    ensures HeapWithHole(s[pos := s[child]], child, x)
  {
    var f := s[pos := s[child]];
    ChildrenOf(pos, child);
    forall j {:trigger Parent(j)} | 1 <= j < |f|
      ensures j != child && Parent(j) != child ==> f[Parent(j)] <= f[j]
      ensures Parent(j) == child ==> f[Parent(child)] <= f[j]
    {
      ChildrenOf(pos, j);
      ChildrenOf(child, j);
    }
  }

  lemma SwapHole(s: seq<nat>, pos: nat, child: nat, x: nat)
    requires pos < |s| && child < |s| && pos != child
    ensures multiset(s[pos := s[child]][child := x]) == multiset(s[pos := x])
  {
    var f := s[pos := s[child]];
    assert multiset(f[child := x]) == multiset(f) - multiset{s[child]} + multiset{x};
    assert multiset(f) == multiset(s) - multiset{s[pos]} + multiset{s[child]};
    assert multiset(s[pos := x]) == multiset(s) - multiset{s[pos]} + multiset{x};
  }

  /** Replace the root, the earliest release, with a new release clock. */
  method HeapReplace(mc: array<nat>, reqClock: nat)
    requires mc.Length > 0 && IsHeap(mc[..]) && reqClock <= UINT64_MAX
    modifies mc
    ensures IsHeap(mc[..])
    ensures multiset(mc[..]) == old(multiset(mc[..])) - multiset{old(mc[0])} + multiset{reqClock}
  {
    var pos := 0;
    HeapHasHole(mc[..], reqClock);
    hide IsHeap, HeapWithHole;
    while true
      invariant 0 <= pos < mc.Length
      invariant HeapWithHole(mc[..], pos, reqClock)
      invariant multiset(mc[..][pos := reqClock]) == multiset(old(mc[..])[0 := reqClock])
      decreases mc.Length - pos
    {
      ghost var s := mc[..];
      var child1, child2 := 2 * pos + 1, 2 * pos + 2;
      var clock2 := if child2 < mc.Length then mc[child2] else UINT64_MAX;
      var clock1 := if child1 < mc.Length then mc[child1] else UINT64_MAX;
      if reqClock <= clock1 && reqClock <= clock2 {
        FillHole(s, pos, reqClock);
        mc[pos] := reqClock;
        assert mc[..] == s[pos := reqClock];
        break;
      }
      if clock1 < clock2 {
        MoveUp(s, pos, child1, reqClock);
        SwapHole(s, pos, child1, reqClock);
        mc[pos] := clock1;
        assert mc[..] == s[pos := s[child1]];
        pos := child1;
      } else {
        MoveUp(s, pos, child2, reqClock);
        SwapHole(s, pos, child2, reqClock);
        mc[pos] := clock2;
        assert mc[..] == s[pos := s[child2]];
        pos := child2;
      }
    }
    assert multiset(old(mc[..])[0 := reqClock]) == old(multiset(mc[..])) - multiset{old(mc[0])} + multiset{reqClock};
  }

  // ---------------------------------------------------------------------------
  // The move queue is never over-filled
  // ---------------------------------------------------------------------------

  /**
   * One transmitted command: the clock its slot was free from, and the clock at which it
   * frees the slot again (0 for a command that uses no slot).
   */
  datatype Slot = Slot(avail: nat, release: nat)

  /** The release clocks held after assigning slots, starting from n free ones. */
  ghost function HeapAfter(n: nat, slots: seq<Slot>): multiset<nat> {
    if slots == [] then multiset{}[0 := n] else
      var held, last := HeapAfter(n, slots[..|slots| - 1]), slots[|slots| - 1];
      if last.release == 0 then held else held - multiset{last.avail} + multiset{last.release}
  }

  /** Every command that uses a slot was given one that was held at the time. */
  ghost predicate Ledger(n: nat, slots: seq<Slot>) {
    slots == [] ||
    var init, last := slots[..|slots| - 1], slots[|slots| - 1];
    Ledger(n, init) && (last.release != 0 ==> last.avail in HeapAfter(n, init))
  }

  lemma {:induction false} LedgerAppend(n: nat, slots: seq<Slot>, s: Slot)
    requires Ledger(n, slots) && (s.release != 0 ==> s.avail in HeapAfter(n, slots))
    ensures Ledger(n, slots + [s])
    ensures HeapAfter(n, slots + [s]) ==
              if s.release == 0 then HeapAfter(n, slots)
              else HeapAfter(n, slots) - multiset{s.avail} + multiset{s.release}
  {
    assert (slots + [s])[..|slots|] == slots;
  }

  lemma {:induction false} HeapKeepsSize(n: nat, slots: seq<Slot>)
    requires Ledger(n, slots)
    ensures |HeapAfter(n, slots)| == n
  {
    if slots != [] { HeapKeepsSize(n, slots[..|slots| - 1]); }
  }

  /** Releases after clock t. */
  ghost function ReleasesAfter(slots: seq<Slot>, t: nat): multiset<nat> {
    if slots == [] then multiset{} else
      var rest, last := ReleasesAfter(slots[..|slots| - 1], t), slots[|slots| - 1];
      if last.release > t then rest + multiset{last.release} else rest
  }

  lemma {:induction false} ReleasesAreLate(slots: seq<Slot>, t: nat)
    ensures forall x :: x in ReleasesAfter(slots, t) ==> x > t
  {
    if slots != [] { ReleasesAreLate(slots[..|slots| - 1], t); }
  }

  /** Slots handed out by t never give away a release after t, so the heap still holds them all. */
  lemma {:induction false} LateReleasesHeld(n: nat, slots: seq<Slot>, t: nat)
    requires Ledger(n, slots) && forall i :: 0 <= i < |slots| ==> slots[i].avail <= t
    ensures ReleasesAfter(slots, t) <= HeapAfter(n, slots)
  {
    if slots != [] {
      var init, last := slots[..|slots| - 1], slots[|slots| - 1];
      LateReleasesHeld(n, init, t);
      ReleasesAreLate(init, t);
      assert last.avail !in ReleasesAfter(init, t);
    }
  }

  lemma SubsetSize(a: multiset<nat>, b: multiset<nat>)
    requires a <= b
    ensures |a| <= |b|
  {
    assert b == a + (b - a);
  }

  /** Commands among the first k transmitted that are in the move queue at clock t. */
  function InFlight(slots: seq<Slot>, tx: seq<nat>, t: nat, k: nat): nat
    requires k <= |tx| <= |slots|
  {
    if k == 0 then 0
    else InFlight(slots, tx, t, k - 1) + if tx[k - 1] <= t < slots[k - 1].release then 1 else 0
  }

  /** Transmission in queue order, none before the clock its slot is free. */
  ghost predicate Fifo(slots: seq<Slot>, tx: seq<nat>) {
    && |tx| <= |slots|
    && (forall i :: 0 <= i < |tx| ==> tx[i] >= slots[i].avail)
    && (forall i, j :: 0 <= i < j < |tx| ==> tx[i] <= tx[j])
  }

  lemma {:induction false} ReleasesNext(slots: seq<Slot>, k: nat, t: nat)
    requires 0 < k <= |slots|
    ensures |ReleasesAfter(slots[..k], t)|
         == |ReleasesAfter(slots[..k - 1], t)| + if slots[k - 1].release > t then 1 else 0
  {
    assert slots[..k][..k - 1] == slots[..k - 1] && slots[..k][k - 1] == slots[k - 1];
  }

  lemma {:induction false} InFlightCounts(slots: seq<Slot>, tx: seq<nat>, t: nat, k: nat)
    requires k <= |tx| <= |slots| && forall i :: 0 <= i < k ==> tx[i] <= t
    ensures InFlight(slots, tx, t, k) == |ReleasesAfter(slots[..k], t)|
  {
    if k == 0 { assert slots[..k] == []; }
    hide ReleasesAfter;
    if k > 0 {
      InFlightCounts(slots, tx, t, k - 1);
      ReleasesNext(slots, k, t);
    }
  }

  lemma {:induction false} LedgerPrefix(n: nat, slots: seq<Slot>, k: nat)
    requires Ledger(n, slots) && k <= |slots|
    ensures Ledger(n, slots[..k])
  {
    if k < |slots| {
      LedgerPrefix(n, slots[..|slots| - 1], k);
      assert slots[..|slots| - 1][..k] == slots[..k];
    } else {
      assert slots[..k] == slots;
    }
  }

  /** No more commands release their slots later than t than there are slots. */
  lemma {:induction false} HeldFit(n: nat, slots: seq<Slot>, t: nat)
    requires Ledger(n, slots) && forall i :: 0 <= i < |slots| ==> slots[i].avail <= t
    ensures |ReleasesAfter(slots, t)| <= n
  {
    hide Ledger, HeapAfter, ReleasesAfter;
    LateReleasesHeld(n, slots, t);
    HeapKeepsSize(n, slots);
    SubsetSize(ReleasesAfter(slots, t), HeapAfter(n, slots));
  }

  /** At every clock, at most n commands have been transmitted and have not freed their slot. */
  lemma {:induction false} MoveQueueSafe(n: nat, slots: seq<Slot>, tx: seq<nat>, t: nat, k: nat)
    requires Ledger(n, slots) && Fifo(slots, tx) && k <= |tx|
    ensures InFlight(slots, tx, t, k) <= n
  {
    hide Ledger, ReleasesAfter;
    if k > 0 {
      if tx[k - 1] > t {
        MoveQueueSafe(n, slots, tx, t, k - 1);
      } else {
        LedgerPrefix(n, slots, k);
        HeldFit(n, slots[..k], t);
        InFlightCounts(slots, tx, t, k);
      }
    }
  }

  // ---------------------------------------------------------------------------
  // Merging the steppers' messages. On a stepper's queue a non-zero min clock marks a move, and
  // says when the slot of the move queue that it takes is freed.
  // ---------------------------------------------------------------------------

  ghost predicate Ascending(s: seq<QueueMessage>) {
    forall i, j :: 0 <= i < j < |s| ==> s[i].reqClock <= s[j].reqClock
  }

  function Total(queues: seq<seq<QueueMessage>>): nat {
    if queues == [] then 0 else |queues[0]| + Total(queues[1..])
  }

  lemma {:induction false} TotalShrinks(queues: seq<seq<QueueMessage>>, who: nat)
    requires who < |queues| && queues[who] != []
    ensures Total(queues[who := queues[who][1..]]) == Total(queues) - 1
  {
    var q := queues[who := queues[who][1..]];
    if who == 0 {
      assert q[1..] == queues[1..];
    } else {
      TotalShrinks(queues[1..], who - 1);
      assert q[1..] == queues[1..][who - 1 := queues[1..][who - 1][1..]];
    }
  }

  /** The stepper whose next message has the lowest reqClock (the first of equals), if any is below MAX_CLOCK. */
  method FindLowest(queues: seq<seq<QueueMessage>>) returns (who: int)
    ensures -1 <= who < |queues|
    ensures who == -1 ==> forall i :: 0 <= i < |queues| && queues[i] != [] ==> queues[i][0].reqClock >= MAX_CLOCK
    ensures who >= 0 ==> Lowest(queues, who) && queues[who] != [] && queues[who][0].reqClock < MAX_CLOCK
    ensures who >= 0 ==> forall i :: 0 <= i < who && queues[i] != [] ==> queues[who][0].reqClock < queues[i][0].reqClock
  {
    var reqClock := MAX_CLOCK;
    who := -1;
    for i := 0 to |queues|
      invariant -1 <= who < i
      invariant who == -1 ==> reqClock == MAX_CLOCK
      invariant who >= 0 ==> queues[who] != [] && reqClock == queues[who][0].reqClock < MAX_CLOCK
      invariant forall j :: 0 <= j < i && queues[j] != [] ==> reqClock <= queues[j][0].reqClock
      invariant who >= 0 ==> forall j :: 0 <= j < who && queues[j] != [] ==> reqClock < queues[j][0].reqClock
    {
      if queues[i] != [] {
        var m := queues[i][0];
        if m.reqClock < reqClock {
          who, reqClock := i, m.reqClock;
        }
      }
    }
  }

  /** For each stepper: what was taken from it, then what it still holds, is all it ever queued. */
  ghost predicate InOrder(taken: seq<QueueMessage>, source: seq<nat>, queues: seq<seq<QueueMessage>>,
                          queued: seq<seq<QueueMessage>>)
  {
    && |taken| == |source| && |queues| == |queued| && (forall k :: 0 <= k < |source| ==> source[k] < |queues|)
    && forall i :: 0 <= i < |queues| ==> From(taken, source, i) + queues[i] == queued[i]
  }

  ghost predicate ClocksFit(queues: seq<seq<QueueMessage>>) {
    forall i, k :: 0 <= i < |queues| && 0 <= k < |queues[i]| ==> queues[i][k].minClock <= UINT64_MAX
  }

  lemma HeadFits(queues: seq<seq<QueueMessage>>, who: nat)
    requires ClocksFit(queues) && who < |queues| && queues[who] != []
    ensures queues[who][0].minClock <= UINT64_MAX
  {
  }

  lemma PutInOrder(taken: seq<QueueMessage>, source: seq<nat>, queues: seq<seq<QueueMessage>>,
                   queued: seq<seq<QueueMessage>>, who: nat, c: QueueMessage)
    requires InOrder(taken, source, queues, queued) && who < |queues|
    requires ClocksFit(queues) && c.minClock <= UINT64_MAX
    ensures |queued| == |queues|
    ensures InOrder(taken, source, queues[who := queues[who] + [c]], queued[who := queued[who] + [c]])
    ensures ClocksFit(queues[who := queues[who] + [c]])
  {
    var q, all := queues[who := queues[who] + [c]], queued[who := queued[who] + [c]];
    forall i | 0 <= i < |q|
      ensures From(taken, source, i) + q[i] == all[i]
    {
      assert From(taken, source, i) + queues[i] == queued[i];
      if i == who { assert From(taken, source, i) + (queues[i] + [c]) == queued[i] + [c]; }
    }
  }

  lemma TakeInOrder(taken: seq<QueueMessage>, source: seq<nat>, queues: seq<seq<QueueMessage>>,
                    queued: seq<seq<QueueMessage>>, who: nat)
    requires InOrder(taken, source, queues, queued) && who < |queues| && queues[who] != [] && ClocksFit(queues)
    ensures InOrder(taken + [queues[who][0]], source + [who], queues[who := queues[who][1..]], queued)
    ensures ClocksFit(queues[who := queues[who][1..]])
  {
    var c, q := queues[who][0], queues[who := queues[who][1..]];
    forall i | 0 <= i < |q|
      ensures From(taken + [c], source + [who], i) + q[i] == queued[i]
    {
      FromAppend(taken, source, c, who, i);
      assert From(taken, source, i) + queues[i] == queued[i];
      if i == who { assert queues[i] == [c] + q[i]; }
    }
  }

  /** Each sent command is the one taken, with its minimum transmit clock set to that of its slot. */
  ghost predicate Rewrites(sent: seq<QueueMessage>, taken: seq<QueueMessage>, slots: seq<Slot>) {
    && |sent| == |taken| == |slots|
    && forall k :: 0 <= k < |sent| ==>
         sent[k] == taken[k].(minClock := slots[k].avail) && slots[k].release == taken[k].minClock
  }

  /**
   * Commands sent in order, each no earlier than the minimum transmit clock it was given, never
   * over-fill a move queue of n entries.
   */
  lemma {:induction false} SentCommandsSafe(n: nat, sent: seq<QueueMessage>, taken: seq<QueueMessage>, slots: seq<Slot>,
                                            tx: seq<nat>, t: nat)
    requires Ledger(n, slots) && Rewrites(sent, taken, slots) && |tx| <= |sent|
    requires forall i :: 0 <= i < |tx| ==> tx[i] >= sent[i].minClock
    requires forall i, j :: 0 <= i < j < |tx| ==> tx[i] <= tx[j]
    ensures InFlight(slots, tx, t, |tx|) <= n
  {
    forall i | 0 <= i < |tx|
      ensures tx[i] >= slots[i].avail
    {
      assert sent[i] == taken[i].(minClock := slots[i].avail);
    }
    MoveQueueSafe(n, slots, tx, t, |tx|);
  }

  lemma RewritesAppend(sent: seq<QueueMessage>, taken: seq<QueueMessage>, slots: seq<Slot>, c: QueueMessage, avail: nat)
    requires Rewrites(sent, taken, slots)
    ensures Rewrites(sent + [c.(minClock := avail)], taken + [c], slots + [Slot(avail, c.minClock)])
  {
  }

  /** Every queue ascends, and so does the batch, which is not above any message still queued. */
  ghost predicate Merging(batch: seq<QueueMessage>, queues: seq<seq<QueueMessage>>) {
    && Ascending(batch)
    && (forall i :: 0 <= i < |queues| ==> Ascending(queues[i]))
    && (batch != [] ==> forall i :: 0 <= i < |queues| && queues[i] != [] ==>
          batch[|batch| - 1].reqClock <= queues[i][0].reqClock)
  }

  ghost predicate Lowest(queues: seq<seq<QueueMessage>>, who: nat) {
    && who < |queues| && queues[who] != []
    && forall i :: 0 <= i < |queues| && queues[i] != [] ==> queues[who][0].reqClock <= queues[i][0].reqClock
  }

  /** The next message of every stepper is past moveClock (or has no clock to be sent at). */
  ghost predicate WaitsPast(queues: seq<seq<QueueMessage>>, moveClock: nat) {
    forall i :: 0 <= i < |queues| && queues[i] != [] ==>
      queues[i][0].reqClock > moveClock || queues[i][0].reqClock >= MAX_CLOCK
  }

  /** Every message still waiting is. */
  ghost predicate AllPast(queues: seq<seq<QueueMessage>>, moveClock: nat) {
    forall i, k :: 0 <= i < |queues| && 0 <= k < |queues[i]| ==>
      queues[i][k].reqClock > moveClock || queues[i][k].reqClock >= MAX_CLOCK
  }

  /** The batch of a merge is in order as it is sent, and all that is left is past the clock its heads are past. */
  lemma MergedBatch(sent: seq<QueueMessage>, taken: seq<QueueMessage>, slots: seq<Slot>, n: nat,
                    queues: seq<seq<QueueMessage>>, moveClock: nat)
    requires Rewrites(sent, taken, slots) && n <= |sent| && WaitsPast(queues, moveClock)
    ensures Merging(taken[n..], queues) ==> Ascending(sent[n..]) && AllPast(queues, moveClock)
  {
    if Merging(taken[n..], queues) {
      forall i, k | 0 <= i < |queues| && 0 <= k < |queues[i]|
        ensures queues[i][k].reqClock > moveClock || queues[i][k].reqClock >= MAX_CLOCK
      {
        assert Ascending(queues[i]) && queues[i][0].reqClock <= queues[i][k].reqClock;
      }
      forall i, j | 0 <= i < j < |sent[n..]|
        ensures sent[n..][i].reqClock <= sent[n..][j].reqClock
      {
        assert taken[n..][i].reqClock <= taken[n..][j].reqClock;
        assert sent[n..][i].reqClock == taken[n + i].reqClock && sent[n..][j].reqClock == taken[n + j].reqClock;
      }
    }
  }

  lemma RewrittenSizes(sent: seq<QueueMessage>, taken: seq<QueueMessage>, slots: seq<Slot>)
    requires Rewrites(sent, taken, slots)
    ensures |sent| == |taken| == |slots|
  {
  }

  /** Every message taken from the n-th on is no move, or one that is due by moveClock. */
  ghost predicate TakenDue(taken: seq<QueueMessage>, n: nat, moveClock: nat) {
    forall k :: n <= k < |taken| ==>
      taken[k].reqClock < MAX_CLOCK && (taken[k].minClock == 0 || taken[k].reqClock <= moveClock)
  }

  lemma DueNext(taken: seq<QueueMessage>, n: nat, moveClock: nat, c: QueueMessage)
    requires c.reqClock < MAX_CLOCK && (c.minClock == 0 || c.reqClock <= moveClock)
    ensures TakenDue(taken, n, moveClock) ==> TakenDue(taken + [c], n, moveClock)
  {
  }

  lemma MergeStep(batch: seq<QueueMessage>, queues: seq<seq<QueueMessage>>, who: nat)
    requires Merging(batch, queues) && Lowest(queues, who)
    ensures Merging(batch + [queues[who][0]], queues[who := queues[who][1..]])
  {
    var c, q := queues[who][0], queues[who := queues[who][1..]];
    assert Ascending(queues[who]);
    forall i | 0 <= i < |q|
      ensures Ascending(q[i])
      ensures q[i] != [] ==> c.reqClock <= q[i][0].reqClock
    {
      assert Ascending(queues[i]);
    }
  }

  /** Every queue holds only messages it held before. */
  ghost predicate LeftOf(queues: seq<seq<QueueMessage>>, before: seq<seq<QueueMessage>>) {
    |queues| == |before| && forall i, m :: 0 <= i < |queues| && m in queues[i] ==> m in before[i]
  }

  /** The messages from the n-th on were on these queues. */
  ghost predicate WereQueued(taken: seq<QueueMessage>, n: nat, before: seq<seq<QueueMessage>>) {
    forall k :: n <= k < |taken| ==> exists i :: 0 <= i < |before| && taken[k] in before[i]
  }

  lemma AllLeft(queues: seq<seq<QueueMessage>>, taken: seq<QueueMessage>)
    ensures LeftOf(queues, queues) && WereQueued(taken, |taken|, queues)
  {
  }

  lemma TakeLeaves(taken: seq<QueueMessage>, n: nat, queues: seq<seq<QueueMessage>>, before: seq<seq<QueueMessage>>,
                   who: nat)
    requires who < |queues| && queues[who] != [] && LeftOf(queues, before) && WereQueued(taken, n, before)
    ensures LeftOf(queues[who := queues[who][1..]], before) && WereQueued(taken + [queues[who][0]], n, before)
  {
    assert queues[who][0] in queues[who];
  }

  /** Taking the lowest message keeps the merge in order, and shortens what is queued. */
  lemma TakeMerges(taken: seq<QueueMessage>, n: nat, queues: seq<seq<QueueMessage>>, who: nat, moveClock: nat)
    requires n <= |taken| && Lowest(queues, who)
    requires var c := queues[who][0]; c.reqClock < MAX_CLOCK && (c.minClock == 0 || c.reqClock <= moveClock)
    ensures var c, rest := queues[who][0], queues[who := queues[who][1..]];
            && Total(rest) < Total(queues)
            && (Merging(taken[n..], queues) ==> Merging((taken + [c])[n..], rest))
            && (TakenDue(taken, n, moveClock) ==> TakenDue(taken + [c], n, moveClock))
  {
    TotalShrinks(queues, who);
    DueNext(taken, n, moveClock, queues[who][0]);
    assert (taken + [queues[who][0]])[n..] == taken[n..] + [queues[who][0]];
    hide Merging, TakenDue;
    if Merging(taken[n..], queues) { MergeStep(taken[n..], queues, who); }
  }

  /** If the lowest message is past moveClock, or there is none, all that waits is. */
  lemma AllWait(queues: seq<seq<QueueMessage>>, who: int, moveClock: nat)
    requires if who == -1
             then forall i :: 0 <= i < |queues| && queues[i] != [] ==> queues[i][0].reqClock >= MAX_CLOCK
             else 0 <= who < |queues| && Lowest(queues, who) && queues[who][0].reqClock > moveClock
    ensures WaitsPast(queues, moveClock)
  {
  }

  class SlotSync {
    const moveClocks: array<nat>
    /** Message queues of the steppers, and everything handed to the serial queue so far. */
    var queues: seq<seq<QueueMessage>>
    var sent: seq<QueueMessage>

    /** Every message each stepper ever queued; the sent ones as they were queued, and whose they were. */
    ghost var queued: seq<seq<QueueMessage>>
    ghost var taken: seq<QueueMessage>
    ghost var source: seq<nat>
    ghost var slots: seq<Slot>

    /** Slots hold the assigned clocks, and account for the heap. */
    ghost predicate Accounted()
      reads this, moveClocks
    {
      && moveClocks.Length > 0 && IsHeap(moveClocks[..])
      && Ledger(moveClocks.Length, slots)
      && multiset(moveClocks[..]) == HeapAfter(moveClocks.Length, slots)
    }

    ghost predicate Valid()
      reads this, moveClocks
    {
      && Accounted()
      && Rewrites(sent, taken, slots)
      && InOrder(taken, source, queues, queued)
      && ClocksFit(queues)
    }

    constructor (steppers: nat, moveNum: nat)
      requires moveNum > 0
      ensures Valid() && fresh(moveClocks) && moveClocks.Length == moveNum
      ensures sent == [] && |queues| == |queued| == steppers
      ensures forall i :: 0 <= i < steppers ==> queues[i] == [] == queued[i]
    {
      moveClocks := new nat[moveNum](_ => 0);
      queues, queued := seq(steppers, _ => []), seq(steppers, _ => []);
      sent, taken, source, slots := [], [], [], [];
      new;
      ZeroHeap(moveClocks[..]);
    }

    /** A stepper queues a message. */
    method QueueMessage(i: nat, c: QueueMessage)
      requires Valid() && i < |queues| && c.minClock <= UINT64_MAX
      modifies `queues, `queued
      ensures Valid() && |queues| == old(|queues|)
      ensures queued == old(queued)[i := old(queued)[i] + [c]] && queues == old(queues)[i := old(queues)[i] + [c]]
    {
      hide InOrder, ClocksFit, Rewrites, IsHeap, Ledger, HeapAfter;
      PutInOrder(taken, source, queues, queued, i, c);
      queues := queues[i := queues[i] + [c]];
      queued := queued[i := queued[i] + [c]];
    }

    /** Give out the earliest free slot; a move puts its own release clock in its place. */
    method AssignSlot(release: nat) returns (avail: nat)
      requires Accounted() && release <= UINT64_MAX
      modifies `slots, moveClocks
      ensures Accounted() && avail == old(moveClocks[0])
      ensures slots == old(slots) + [Slot(avail, release)]
      ensures forall x :: x in old(moveClocks[..]) ==> avail <= x
    {
      avail := moveClocks[0];
      assert moveClocks[..][0] == avail;
      forall x | x in moveClocks[..]
        ensures avail <= x
      {
        var j :| 0 <= j < moveClocks.Length && moveClocks[..][j] == x;
        RootIsLeast(moveClocks[..], j);
      }
      LedgerAppend(moveClocks.Length, slots, Slot(avail, release));
      hide Ledger, HeapAfter, IsHeap;
      if release != 0 {
        HeapReplace(moveClocks, release);
      }
      slots := slots + [Slot(avail, release)];
    }

    /** Assign a slot to the next message of a stepper and batch it. */
    method TakeOne(who: nat)
      requires Valid() && who < |queues| && queues[who] != []
      modifies `queues, `sent, `taken, `source, `slots, moveClocks
      ensures Valid() && queues == old(queues)[who := old(queues)[who][1..]]
      ensures taken == old(taken) + [old(queues)[who][0]] && source == old(source) + [who]
      ensures sent == old(sent) + [old(queues)[who][0].(minClock := old(moveClocks[0]))]
    {
      hide InOrder, ClocksFit, Rewrites, IsHeap, Ledger, HeapAfter;
      var qm := queues[who][0];
      TakeInOrder(taken, source, queues, queued, who);
      RewritesAppend(sent, taken, slots, qm, moveClocks[0]);
      HeadFits(queues, who);
      var nextAvail := AssignSlot(qm.minClock);
      queues := queues[who := queues[who][1..]];
      sent := sent + [qm.(minClock := nextAvail)];
      taken, source := taken + [qm], source + [who];
    }

    /** Batch the message with the lowest reqClock, unless it is a move past moveClock. */
    method TakeLowest(moveClock: nat, ghost n: nat, ghost before: seq<seq<QueueMessage>>) returns (more: bool)
      requires Valid() && n <= |taken| && LeftOf(queues, before) && WereQueued(taken, n, before)
      modifies `queues, `sent, `taken, `source, `slots, moveClocks
      ensures Valid()
      ensures old(sent) <= sent && old(taken) <= taken
      ensures if more then Total(queues) < old(Total(queues)) else WaitsPast(queues, moveClock)
      ensures old(TakenDue(taken, n, moveClock)) ==> TakenDue(taken, n, moveClock)
      ensures LeftOf(queues, before) && WereQueued(taken, n, before)
      ensures old(Merging(taken[n..], queues)) ==> Merging(taken[n..], queues)
    {
      hide Accounted, InOrder, ClocksFit, Rewrites, Merging, Ascending, WaitsPast, TakenDue, LeftOf, WereQueued;
      var who := FindLowest(queues);
      more := who != -1 && !(queues[who][0].minClock != 0 && queues[who][0].reqClock > moveClock);
      if more {
        TakeMerges(taken, n, queues, who, moveClock);
        TakeLeaves(taken, n, queues, before, who);
        TakeOne(who);
      } else {
        AllWait(queues, who, moveClock);
      }
    }

    /**
     * Batch the steppers' messages in order of reqClock, up to the first move past moveClock.
     * What is left waiting lies past moveClock.
     */
    method Flush(moveClock: nat)
      requires Valid()
      modifies `queues, `sent, `taken, `source, `slots, moveClocks
      ensures Valid()
      ensures old(sent) <= sent && old(taken) <= taken
      ensures WaitsPast(queues, moveClock) && TakenDue(taken, |old(taken)|, moveClock)
      ensures LeftOf(queues, old(queues)) && WereQueued(taken, |old(taken)|, old(queues))
      ensures Merging([], old(queues)) ==> Merging(taken[|old(taken)|..], queues)
      ensures Merging([], old(queues)) ==> Ascending(sent[|old(sent)|..]) && AllPast(queues, moveClock)
    {
      hide Accounted, InOrder, ClocksFit, Rewrites, Merging, WaitsPast, LeftOf, WereQueued, AllPast, Ascending;
      RewrittenSizes(sent, taken, slots);
      ghost var n := |taken|;
      assert taken[n..] == [];
      AllLeft(queues, taken);
      var more := true;
      while more
        invariant Valid()
        invariant old(sent) <= sent && old(taken) <= taken
        invariant old(Merging([], queues)) ==> Merging(taken[n..], queues)
        invariant TakenDue(taken, n, moveClock)
        invariant LeftOf(queues, old(queues)) && WereQueued(taken, n, old(queues))
        invariant !more ==> WaitsPast(queues, moveClock)
        decreases more, Total(queues)
      {
        more := TakeLowest(moveClock, n, old(queues));
      }
      MergedBatch(sent, taken, slots, n, queues, moveClock);
    }
  }

  lemma {:induction false} ZeroHeap(s: seq<nat>)
    requires forall i :: 0 <= i < |s| ==> s[i] == 0
    ensures multiset(s) == multiset{}[0 := |s|]
  {
    if s != [] {
      var n := |s| - 1;
      ZeroHeap(s[..n]);
      assert s == s[..n] + [0];
    }
  }
}
