/**
 * The sending side of the serial link: a sliding window of numbered blocks with
 * acknowledgements, retransmission and round trip estimation.
 */
module SerialLink {
  import opened MsgBlock

  const MAX_PENDING_BLOCKS: nat := 12
  const MIN_RTO: real := 0.025
  const MAX_RTO: real := 5.0

  /** A block awaiting acknowledgement: when it is on the wire, and whether it was sent again. */
  datatype Sent = Sent(body: seq<byte>, receiveTime: real, again: bool)

  /** The link state. retransmitNow says that the retransmit timer is set to fire at once. */
  datatype Host = Host(
    sendSeq: nat, receiveSeq: nat, sent: seq<Sent>,
    ignoreNakSeq: nat, lastAckSeq: nat, retransmitSeq: nat, rttSampleSeq: nat,
    needAckBytes: int, lastAckBytes: nat, lastReceiveSentTime: real,
    srtt: real, rttvar: real, rto: real, retransmitNow: bool)

  const INITIAL: Host := Host(1, 1, [], 0, 0, 0, 0, 0, 0, 0.0, 0.0, 0.0, MIN_RTO, false)

  function TotalBytes(sent: seq<Sent>): nat {
    if sent == [] then 0 else TotalBytes(sent[..|sent| - 1]) + |sent[|sent| - 1].body|
  }

  function AbsReal(x: real): (r: real)
    ensures r >= 0.0 && (r == x || r == -x)
  {
    if x < 0.0 then -x else x
  }

  function Clamp(x: real): (r: real)
    ensures MIN_RTO <= r <= MAX_RTO
  {
    if x < MIN_RTO then MIN_RTO else if x > MAX_RTO then MAX_RTO else x
  }

  // ---------------------------------------------------------------------------
  // Steps
  // ---------------------------------------------------------------------------

  /** Remove the blocks acknowledged by rseq; an ack for a block not sent starts the link over at rseq. */
  function TakeAck(h: Host, rseq: nat): Host
    requires h.receiveSeq < rseq
  {
    var k := rseq - h.receiveSeq;
    if k <= |h.sent| then
      h.(sent := h.sent[k..], receiveSeq := rseq,
         needAckBytes := h.needAckBytes - TotalBytes(h.sent[..k]),
         lastReceiveSentTime := h.sent[k - 1].receiveTime, lastAckBytes := |h.sent[k - 1].body|)
    else
      h.(sent := [], receiveSeq := rseq, sendSeq := rseq,
         needAckBytes := h.needAckBytes - TotalBytes(h.sent),
         lastReceiveSentTime := 0.0,
         lastAckBytes := h.lastAckBytes)
  }

  /** Is the block being timed now acknowledged by a block with a known time? */
  predicate Samples(h: Host, rseq: nat) {
    h.rttSampleSeq != 0 && rseq > h.rttSampleSeq && h.lastReceiveSentTime != 0.0
  }

  /** Round trip estimation as in section 2 of RFC 6298, with a higher starting value. */
  function Estimate(h: Host, now: real): Host {
    var delta := now - h.lastReceiveSentTime;
    var rttvar := if h.srtt == 0.0 then delta / 2.0 else (3.0 * h.rttvar + AbsReal(h.srtt - delta)) / 4.0;
    var srtt := if h.srtt == 0.0 then delta * 10.0 else (7.0 * h.srtt + delta) / 8.0;
    var rttvar4 := if rttvar * 4.0 < 0.001 then 0.001 else rttvar * 4.0;
    h.(rttvar := rttvar, srtt := srtt, rto := Clamp(srtt + rttvar4), rttSampleSeq := 0)
  }

  function UpdateReceive(h: Host, now: real, rseq: nat): Host
    requires h.receiveSeq < rseq
  {
    var a := TakeAck(h, rseq);
    (if Samples(a, rseq) then Estimate(a, now) else a).(retransmitNow := false)
  }

  /** The sequence number meant by the low four bits in a message. */
  function DecodeSeq(h: Host, seq4: nat): nat {
    h.receiveSeq + (seq4 - h.receiveSeq) % 16
  }

  /** Is a message's sequence number one for a block that was never sent? */
  predicate Rejects(h: Host, seq4: nat) {
    var rseq := DecodeSeq(h, seq4);
    rseq != h.receiveSeq && rseq > h.sendSeq && h.receiveSeq != 1
  }

  /** A well formed message arrived; an empty one is an ack or, if repeated, a nak. */
  function Handle(h: Host, now: real, seq4: nat, empty: bool): Host {
    var rseq := DecodeSeq(h, seq4);
    if Rejects(h, seq4) then h else
      var u := if rseq == h.receiveSeq then h else UpdateReceive(h, now, rseq);
      if empty then NoteAck(u, rseq) else u
  }

  /** A first ack is noted; a repeated one is a nak, unless naks are being ignored. */
  function NoteAck(h: Host, rseq: nat): Host {
    if h.lastAckSeq < rseq then h.(lastAckSeq := rseq)
    else if rseq > h.ignoreNakSeq && h.sent != [] then h.(retransmitNow := true)
    else h
  }

  function MarkAgain(sent: seq<Sent>): (s: seq<Sent>)
    ensures |s| == |sent|
    ensures forall i :: 0 <= i < |s| ==> s[i] == sent[i].(again := true)
  {
    if sent == [] then [] else MarkAgain(sent[..|sent| - 1]) + [sent[|sent| - 1].(again := true)]
  }

  /** Naks up to here are ignored after a retransmit: a second nak for it is the last one heard. */
  function IgnoreNaks(h: Host): nat {
    if !h.retransmitNow then h.sendSeq
    else if h.receiveSeq < h.retransmitSeq then h.retransmitSeq else h.receiveSeq
  }

  /** A retransmit on timeout doubles the timeout, up to MAX_RTO. */
  function BackedOff(h: Host): real {
    if h.retransmitNow then h.rto else if h.rto * 2.0 > MAX_RTO then MAX_RTO else h.rto * 2.0
  }

  /** All pending blocks are sent again, because of a nak or a timeout. */
  function Retransmit(h: Host): Host {
    h.(ignoreNakSeq := IgnoreNaks(h), rto := BackedOff(h), retransmitSeq := h.sendSeq, rttSampleSeq := 0,
       sent := MarkAgain(h.sent), retransmitNow := false)
  }

  /** Is there room in the window for another block? */
  predicate WindowOpen(h: Host) {
    h.sendSeq - h.receiveSeq < MAX_PENDING_BLOCKS
  }

  /** A new block is numbered, stored and sent. */
  function Build(h: Host, body: seq<byte>, receiveTime: real): Host {
    h.(rttSampleSeq := if h.rttSampleSeq == 0 then h.sendSeq else h.rttSampleSeq,
       sendSeq := h.sendSeq + 1,
       needAckBytes := h.needAckBytes + |body|,
       retransmitNow := h.sent != [] && h.retransmitNow,
       sent := h.sent + [Sent(body, receiveTime, false)])
  }

  // ---------------------------------------------------------------------------
  // What every step keeps
  // ---------------------------------------------------------------------------

  /** Pending blocks fill the window, and their bytes are counted. */
  ghost predicate WindowOk(h: Host) {
    && 1 <= h.receiveSeq <= h.sendSeq <= h.receiveSeq + MAX_PENDING_BLOCKS
    && |h.sent| == h.sendSeq - h.receiveSeq
    && h.needAckBytes == TotalBytes(h.sent)
    && forall i :: 0 <= i < |h.sent| ==> MESSAGE_MIN <= |h.sent[i].body| <= MESSAGE_MAX
  }

  /** A block sent again precedes retransmitSeq, and the block being timed does not. */
  ghost predicate TimingOk(h: Host) {
    && h.retransmitSeq <= h.sendSeq && h.ignoreNakSeq <= h.sendSeq
    && (h.rttSampleSeq == 0 || h.retransmitSeq <= h.rttSampleSeq < h.sendSeq)
    && (forall i :: 0 <= i < |h.sent| && h.sent[i].again ==> h.receiveSeq + i < h.retransmitSeq)
    && MIN_RTO <= h.rto <= MAX_RTO
  }

  /** A resend at once is asked for only past the naks to ignore, and with blocks pending. */
  ghost predicate NaksOk(h: Host) {
    && h.lastAckSeq <= h.receiveSeq
    && (h.retransmitNow ==> h.ignoreNakSeq < h.receiveSeq && h.sent != [])
  }

  ghost predicate HostOk(h: Host) {
    WindowOk(h) && TimingOk(h) && NaksOk(h)
  }

  lemma InitialOk()
    ensures HostOk(INITIAL)
  {
  }

  lemma {:induction false} TotalBytesSplit(sent: seq<Sent>, k: nat)
    requires k <= |sent|
    ensures TotalBytes(sent) == TotalBytes(sent[..k]) + TotalBytes(sent[k..])
  {
    var n := |sent| - 1;
    if k < |sent| {
      TotalBytesSplit(sent[..n], k);
      assert sent[..n][..k] == sent[..k] && sent[..n][k..] == sent[k..][..n - k];
    } else {
      assert sent[..k] == sent;
    }
  }

  lemma {:induction false} TotalBytesBound(sent: seq<Sent>)
    requires forall i :: 0 <= i < |sent| ==> |sent[i].body| <= MESSAGE_MAX
    ensures TotalBytes(sent) <= MESSAGE_MAX * |sent|
  {
    if sent != [] { TotalBytesBound(sent[..|sent| - 1]); }
  }

  lemma {:induction false} TotalBytesAgain(sent: seq<Sent>)
    ensures TotalBytes(MarkAgain(sent)) == TotalBytes(sent)
  {
    if sent != [] {
      TotalBytesAgain(sent[..|sent| - 1]);
      assert MarkAgain(sent)[..|sent| - 1] == MarkAgain(sent[..|sent| - 1]);
    }
  }

  /** One more acknowledged block. */
  lemma TotalBytesNext(sent: seq<Sent>, k: nat)
    requires k < |sent|
    ensures TotalBytes(sent[..k + 1]) == TotalBytes(sent[..k]) + |sent[k].body|
  {
    assert sent[..k + 1][..k] == sent[..k];
  }

  /** The retransmit buffer holds a sync byte and every pending block. */
  lemma RetransmitFits(h: Host)
    requires HostOk(h)
    ensures 1 + TotalBytes(h.sent) <= MESSAGE_MAX * MAX_PENDING_BLOCKS + 1
  {
    TotalBytesBound(h.sent);
  }

  lemma TakeAckOk(h: Host, rseq: nat)
    requires HostOk(h) && h.receiveSeq < rseq
    ensures WindowOk(TakeAck(h, rseq)) && TimingOk(TakeAck(h, rseq)) && TakeAck(h, rseq).receiveSeq == rseq
  {
    var k := rseq - h.receiveSeq;
    if k <= |h.sent| { TotalBytesSplit(h.sent, k); }
  }

  lemma UpdateReceiveOk(h: Host, now: real, rseq: nat)
    requires HostOk(h) && h.receiveSeq < rseq
    ensures HostOk(UpdateReceive(h, now, rseq)) && UpdateReceive(h, now, rseq).receiveSeq == rseq
  {
    TakeAckOk(h, rseq);
    hide TakeAck, TotalBytes;
  }

  /** Handling any message keeps the window and the timing, including the jump at connection start. */
  lemma HandleOk(h: Host, now: real, seq4: nat, empty: bool)
    requires HostOk(h)
    ensures HostOk(Handle(h, now, seq4, empty))
  {
    var rseq := DecodeSeq(h, seq4);
    assert rseq >= h.receiveSeq;
    hide HostOk, UpdateReceive, DecodeSeq, NoteAck;
    if rseq != h.receiveSeq {
      UpdateReceiveOk(h, now, rseq);
      NoteAckOk(UpdateReceive(h, now, rseq), rseq);
    } else {
      NoteAckOk(h, rseq);
    }
  }

  lemma NoteAckOk(h: Host, rseq: nat)
    requires HostOk(h) && rseq == h.receiveSeq
    ensures HostOk(NoteAck(h, rseq))
  {
  }

  lemma RetransmitOk(h: Host)
    requires HostOk(h)
    ensures HostOk(Retransmit(h))
  {
    TotalBytesAgain(h.sent);
  }

  lemma BuildOk(h: Host, body: seq<byte>, receiveTime: real)
    requires HostOk(h) && WindowOpen(h) && MESSAGE_MIN <= |body| <= MESSAGE_MAX
    ensures HostOk(Build(h, body, receiveTime))
  {
    var b := Build(h, body, receiveTime);
    assert b.sent[..|h.sent|] == h.sent;
  }

  /** Karn's algorithm, section 3 of RFC 6298: a sample is never drawn from a block sent more than once. */
  lemma SampleNotRetransmitted(h: Host, rseq: nat)
    requires HostOk(h) && h.receiveSeq < rseq && Samples(TakeAck(h, rseq), rseq)
    ensures var k := rseq - h.receiveSeq;
            && 1 <= k <= |h.sent|
            && TakeAck(h, rseq).lastReceiveSentTime == h.sent[k - 1].receiveTime
            && !h.sent[k - 1].again
  {
  }

  function Deviation(h: Host, delta: real): real {
    AbsReal(h.srtt - delta)
  }

  /** A later sample closes an eighth of the gap to it, and a quarter of the gap of the variation to its deviation. */
  lemma EstimateCloses(h: Host, now: real)
    requires h.srtt != 0.0
    ensures var e, delta := Estimate(h, now), now - h.lastReceiveSentTime;
            && e.srtt - delta == (h.srtt - delta) * 0.875
            && e.rttvar - Deviation(h, delta) == (h.rttvar - Deviation(h, delta)) * 0.75
  {
    hide Clamp, AbsReal;
  }

  /** The first sample is taken ten times over, with half of it as variation. */
  lemma EstimateStarts(h: Host, now: real)
    requires h.srtt == 0.0
    ensures var e, delta := Estimate(h, now), now - h.lastReceiveSentTime;
            e.srtt == 10.0 * delta && 2.0 * e.rttvar == delta
  {
  }

  /** The timeout allows for four times the variation unless it is cut to MAX_RTO, and is no longer than it need be. */
  lemma EstimateTimeout(h: Host, now: real)
    ensures var e := Estimate(h, now);
            && (e.rto == MAX_RTO || e.rto >= e.srtt + 4.0 * e.rttvar)
            && (e.rto == MIN_RTO || e.rto <= e.srtt + 4.0 * e.rttvar || e.rto <= e.srtt + 0.001)
  {
    hide AbsReal;
  }

  /** Round trips that all take the same time. */
  function Sampled(h: Host, now: real, n: nat): Host {
    if n == 0 then h else Estimate(Sampled(h, now, n - 1), now)
  }

  function Shrink(n: nat): (r: real)
    ensures 0.0 < r <= 1.0
  {
    if n == 0 then 1.0 else Shrink(n - 1) * 0.875
  }

  /** Under equal samples the estimate never crosses them, and what it is off by shrinks by an eighth each time. */
  lemma {:induction false} SteadySamples(h: Host, now: real, n: nat)
    requires h.srtt > 0.0 && now > h.lastReceiveSentTime
    ensures var s, delta := Sampled(h, now, n), now - h.lastReceiveSentTime;
            && s.lastReceiveSentTime == h.lastReceiveSentTime && s.srtt > 0.0
            && s.srtt - delta == (h.srtt - delta) * Shrink(n)
  {
    hide Estimate, Shrink;
    if n == 0 {
      ShrinkNext(0);
    } else {
      SteadySamples(h, now, n - 1);
      var p, delta := Sampled(h, now, n - 1), now - h.lastReceiveSentTime;
      EstimateCloses(p, now);
      EstimateKeepsTime(p, now);
      ShrinkNext(n);
      Regroup(h.srtt - delta, Shrink(n - 1), 0.875);
    }
  }

  lemma ShrinkNext(n: nat)
    ensures Shrink(n) == if n == 0 then 1.0 else Shrink(n - 1) * 0.875
  {
  }

  lemma EstimateKeepsTime(h: Host, now: real)
    ensures Estimate(h, now).lastReceiveSentTime == h.lastReceiveSentTime
  {
  }

  lemma Regroup(a: real, b: real, c: real)
    ensures (a * b) * c == a * (b * c)
  {
  }

  /** The four bits of a live ack mean exactly the block they were sent for. */
  lemma LiveAckExact(h: Host, ack: nat)
    requires WindowOk(h) && h.receiveSeq <= ack <= h.sendSeq
    ensures DecodeSeq(h, ack % 16) == ack && !Rejects(h, ack % 16)
  {
    ModDifference(ack, h.receiveSeq);
  }

  lemma ModDifference(a: nat, r: nat)
    requires r <= a < r + 16
    ensures (a % 16 - r) % 16 == a - r
  {
  }

  /** After connection start, an ack stale by k is rejected exactly when 16 - k exceeds the pending blocks. */
  lemma StaleAckRejected(h: Host, k: nat)
    requires WindowOk(h) && 1 <= k < 16 && k <= h.receiveSeq && h.receiveSeq != 1
    ensures Rejects(h, (h.receiveSeq - k) % 16) <==> 16 - k > |h.sent|
  {
    ModStale(h.receiveSeq, k);
  }

  lemma ModStale(r: nat, k: nat)
    requires 1 <= k < 16 && k <= r
    ensures ((r - k) % 16 - r) % 16 == 16 - k
  {
  }

  // ---------------------------------------------------------------------------
  // Naks
  // ---------------------------------------------------------------------------

  /** An update of the receive sequence leaves the ack numbers alone and asks for nothing. */
  lemma UpdateAsksNothing(h: Host, now: real, rseq: nat)
    requires h.receiveSeq < rseq
    ensures var u := UpdateReceive(h, now, rseq);
            !u.retransmitNow && u.lastAckSeq == h.lastAckSeq && u.ignoreNakSeq == h.ignoreNakSeq
  {
    hide TotalBytes, Clamp;
  }

  /** Does an empty message repeat the last ack, past the naks to ignore and with blocks pending? */
  predicate IsNak(h: Host, rseq: nat, empty: bool) {
    empty && rseq == h.receiveSeq == h.lastAckSeq && rseq > h.ignoreNakSeq && h.sent != []
  }

  /**
   * What a message does to the request for an immediate resend: an ack for new blocks leaves none, a nak always
   * makes one, and any other message leaves it as it was.
   */
  lemma AskedByNaks(h: Host, now: real, seq4: nat, empty: bool)
    requires HostOk(h)
    ensures var rseq, r := DecodeSeq(h, seq4), Handle(h, now, seq4, empty);
            && (!Rejects(h, seq4) && rseq > h.receiveSeq ==> !r.retransmitNow)
            && (IsNak(h, rseq, empty) ==> r.retransmitNow)
            && (Rejects(h, seq4) || (rseq == h.receiveSeq && !IsNak(h, rseq, empty)) ==>
                  r.retransmitNow == h.retransmitNow)
    ensures var r := Handle(h, now, seq4, empty);
            && r.ignoreNakSeq == h.ignoreNakSeq
            && (empty && !Rejects(h, seq4) ==> r.lastAckSeq == r.receiveSeq)
            && (!empty || Rejects(h, seq4) ==> r.lastAckSeq == h.lastAckSeq)
  {
    var rseq := DecodeSeq(h, seq4);
    assert rseq >= h.receiveSeq;
    hide DecodeSeq, UpdateReceive, WindowOk, TimingOk;
    if rseq > h.receiveSeq {
      UpdateReceiveOk(h, now, rseq);
      UpdateAsksNothing(h, now, rseq);
    }
  }

  /** The first empty ack of a number asks for nothing; a second asks for a resend unless it is to be ignored. */
  lemma SecondAckIsNak(h: Host, now: real, later: real, ack: nat)
    requires HostOk(h) && h.receiveSeq < ack <= h.sendSeq
    ensures var once := Handle(h, now, ack % 16, true);
            var twice := Handle(once, later, ack % 16, true);
            && !once.retransmitNow && once.receiveSeq == twice.receiveSeq == ack && once.sent == twice.sent
            && (twice.retransmitNow <==> ack < h.sendSeq && ack > h.ignoreNakSeq)
  {
    hide Handle, DecodeSeq, Rejects, HostOk;
    var once := Handle(h, now, ack % 16, true);
    AckOnce(h, now, ack);
    HandleOk(h, now, ack % 16, true);
    AckAgain(once, later, ack);
  }

  lemma AckOnce(h: Host, now: real, ack: nat)
    requires HostOk(h) && h.receiveSeq < ack <= h.sendSeq
    ensures var r := Handle(h, now, ack % 16, true);
            && r.receiveSeq == r.lastAckSeq == ack && r.sent == h.sent[ack - h.receiveSeq..]
            && r.sendSeq == h.sendSeq && r.ignoreNakSeq == h.ignoreNakSeq && !r.retransmitNow
  {
    LiveAckExact(h, ack);
    HandleLive(h, now, ack, true);
    AskedByNaks(h, now, ack % 16, true);
    hide Handle, DecodeSeq, Rejects, TimingOk;
  }

  lemma AckAgain(h: Host, now: real, ack: nat)
    requires HostOk(h) && h.receiveSeq == h.lastAckSeq == ack
    ensures var r := Handle(h, now, ack % 16, true);
            && r.receiveSeq == ack && r.sent == h.sent
            && (r.retransmitNow <==> h.retransmitNow || (ack < h.sendSeq && ack > h.ignoreNakSeq))
  {
    LiveAckExact(h, ack);
    HandleLive(h, now, ack, true);
    AskedByNaks(h, now, ack % 16, true);
    hide Handle, DecodeSeq, Rejects, TimingOk;
    assert h.sent[0..] == h.sent;
  }

  // ---------------------------------------------------------------------------
  // The link against a peer
  // ---------------------------------------------------------------------------

  /**
   * A block on the wire. The peer sees its low four sequence bits and its body; number is the
   * full sequence number, and limit the sender's next number when it was written.
   */
  datatype Wire = Wire(seq4: nat, body: seq<byte>, number: nat, limit: nat)

  /** An acknowledgement on its way back: four bits of the number the peer expects next. */
  datatype Ack = Ack(seq4: nat, number: nat)

  /**
   * Both ends and the two lines. The lines keep order but may lose anything. built holds every
   * block in the order built; the peer accepts only the block it expects, answers every block, and
   * may also send messages of its own.
   */
  datatype Link = Link(host: Host, built: seq<seq<byte>>, toPeer: seq<Wire>,
                       expected: nat, accepted: seq<seq<byte>>, toHost: seq<Ack>)

  const CONNECTED: Link := Link(INITIAL, [], [], 1, [], [])

  datatype Step =
    | SendBlock(body: seq<byte>, receiveTime: real)
    | Resend
    | LoseBlock(index: nat)
    | LoseAck(index: nat)
    | PeerReceives
    | PeerReports
    | HostReceives(now: real, empty: bool)

  predicate Enabled(l: Link, step: Step) {
    match step
    case SendBlock(body, _) => WindowOpen(l.host) && MESSAGE_MIN <= |body| <= MESSAGE_MAX
    case Resend => true
    case LoseBlock(i) => i < |l.toPeer|
    case LoseAck(i) => i < |l.toHost|
    case PeerReceives => l.toPeer != []
    case PeerReports => true
    case HostReceives(_, _) => l.toHost != []
  }

  /** Pending blocks as they are written again, from number on. */
  function WrittenAgain(sent: seq<Sent>, number: nat, limit: nat): (w: seq<Wire>)
    ensures |w| == |sent|
    ensures forall i :: 0 <= i < |w| ==> w[i] == Wire((number + i) % 16, sent[i].body, number + i, limit)
  {
    if sent == [] then []
    else
      var n := |sent| - 1;
      WrittenAgain(sent[..n], number, limit) + [Wire((number + n) % 16, sent[n].body, number + n, limit)]
  }

  function Take(l: Link, step: Step): Link
    requires Enabled(l, step)
  {
    match step
    case SendBlock(body, t) =>
      var n := l.host.sendSeq;
      l.(host := Build(l.host, body, t), built := l.built + [body], toPeer := l.toPeer + [Wire(n % 16, body, n, n + 1)])
    case Resend =>
      l.(host := Retransmit(l.host), toPeer := l.toPeer + WrittenAgain(l.host.sent, l.host.receiveSeq, l.host.sendSeq))
    case LoseBlock(i) => l.(toPeer := l.toPeer[..i] + l.toPeer[i + 1..])
    case LoseAck(i) => l.(toHost := l.toHost[..i] + l.toHost[i + 1..])
    case PeerReceives => PeerTakes(l)
    case PeerReports => l.(toHost := l.toHost + [Ack(l.expected % 16, l.expected)])
    case HostReceives(now, empty) => l.(host := Handle(l.host, now, l.toHost[0].seq4, empty), toHost := l.toHost[1..])
  }

  /** The peer accepts a block with the four bits it expects, and acknowledges what it expects next. */
  function PeerTakes(l: Link): Link
    requires l.toPeer != []
  {
    var w, rest := l.toPeer[0], l.toPeer[1..];
    if w.seq4 == l.expected % 16 then
      l.(toPeer := rest, accepted := l.accepted + [w.body], expected := l.expected + 1,
         toHost := l.toHost + [Ack((l.expected + 1) % 16, l.expected + 1)])
    else
      l.(toPeer := rest, toHost := l.toHost + [Ack(l.expected % 16, l.expected)])
  }

  /** Blocks on the wire carry what was built, and none can be confused with the expected one. */
  ghost predicate WiresOk(wires: seq<Wire>, built: seq<seq<byte>>, expected: nat, sendSeq: nat) {
    && (forall i :: 0 <= i < |wires| ==> var w := wires[i];
          && w.seq4 == w.number % 16 && 1 <= w.number <= |built| && w.body == built[w.number - 1]
          && w.number < w.limit <= w.number + MAX_PENDING_BLOCKS && expected <= w.limit <= sendSeq)
    && (forall i, j :: 0 <= i < j < |wires| ==> wires[i].limit <= wires[j].limit)
  }

  /** Acks on the way back never run ahead of the peer nor behind the host, and keep their order. */
  ghost predicate AcksOk(acks: seq<Ack>, receiveSeq: nat, expected: nat) {
    && (forall i :: 0 <= i < |acks| ==> acks[i].seq4 == acks[i].number % 16 && receiveSeq <= acks[i].number <= expected)
    && (forall i, j :: 0 <= i < j < |acks| ==> acks[i].number <= acks[j].number)
  }

  /** The pending blocks are the last ones built. */
  ghost predicate PendingOk(h: Host, built: seq<seq<byte>>) {
    && h.sendSeq == |built| + 1 && 1 <= h.receiveSeq && |h.sent| == h.sendSeq - h.receiveSeq
    && forall i :: 0 <= i < |h.sent| ==> h.sent[i].body == built[h.receiveSeq - 1 + i]
  }

  ghost predicate LinkOk(l: Link) {
    && HostOk(l.host)
    && PendingOk(l.host, l.built)
    && l.host.receiveSeq <= l.expected <= l.host.sendSeq
    && l.accepted == l.built[..l.expected - 1]
    && WiresOk(l.toPeer, l.built, l.expected, l.host.sendSeq)
    && AcksOk(l.toHost, l.host.receiveSeq, l.expected)
  }

  /** There is room exactly while fewer than MAX_PENDING_BLOCKS are pending. */
  lemma RoomLeft(h: Host)
    requires HostOk(h)
    ensures WindowOpen(h) <==> |h.sent| < MAX_PENDING_BLOCKS
  {
  }

  lemma WindowSize(h: Host)
    requires HostOk(h)
    ensures 1 <= h.receiveSeq <= h.sendSeq <= h.receiveSeq + MAX_PENDING_BLOCKS
  {
  }

  lemma SendBlockOk(l: Link, body: seq<byte>, t: real)
    requires LinkOk(l) && Enabled(l, SendBlock(body, t))
    ensures LinkOk(Take(l, SendBlock(body, t)))
  {
    hide HostOk, TotalBytes;
    BuildOk(l.host, body, t);
    WindowSize(l.host);
    var l' := Take(l, SendBlock(body, t));
    assert l'.built[..l.expected - 1] == l.built[..l.expected - 1];
  }

  lemma WrittenAgainOk(l: Link)
    requires LinkOk(l)
    ensures WiresOk(l.toPeer + WrittenAgain(l.host.sent, l.host.receiveSeq, l.host.sendSeq), l.built, l.expected,
            l.host.sendSeq)
  {
    var added := WrittenAgain(l.host.sent, l.host.receiveSeq, l.host.sendSeq);
    hide TimingOk, TotalBytes, WrittenAgain;
    forall i | 0 <= i < |added|
      ensures added[i].body == l.built[added[i].number - 1]
    {
    }
  }

  lemma PendingAgain(h: Host, built: seq<seq<byte>>)
    requires PendingOk(h, built)
    ensures PendingOk(Retransmit(h), built)
  {
  }

  /** Dropping the first pending blocks leaves the last ones built. */
  lemma PendingAfter(h: Host, r: Host, built: seq<seq<byte>>)
    requires PendingOk(h, built) && h.receiveSeq <= r.receiveSeq <= h.sendSeq == r.sendSeq
    requires r.sent == h.sent[r.receiveSeq - h.receiveSeq..]
    ensures PendingOk(r, built)
  {
  }

  lemma ResendOk(l: Link)
    requires LinkOk(l)
    ensures LinkOk(Take(l, Resend))
  {
    RetransmitOk(l.host);
    WrittenAgainOk(l);
    PendingAgain(l.host, l.built);
    hide HostOk, WiresOk, AcksOk, WrittenAgain, PendingOk;
  }

  lemma WiresLess(wires: seq<Wire>, i: nat, built: seq<seq<byte>>, expected: nat, sendSeq: nat)
    requires WiresOk(wires, built, expected, sendSeq) && i < |wires|
    ensures WiresOk(wires[..i] + wires[i + 1..], built, expected, sendSeq)
  {
  }

  lemma AcksLess(acks: seq<Ack>, i: nat, receiveSeq: nat, expected: nat)
    requires AcksOk(acks, receiveSeq, expected) && i < |acks|
    ensures AcksOk(acks[..i] + acks[i + 1..], receiveSeq, expected)
  {
  }

  lemma LoseOk(l: Link, step: Step)
    requires LinkOk(l) && (step.LoseBlock? || step.LoseAck?) && Enabled(l, step)
    ensures LinkOk(Take(l, step))
  {
    hide HostOk, PendingOk, WiresOk, AcksOk;
    if step.LoseBlock? {
      WiresLess(l.toPeer, step.index, l.built, l.expected, l.host.sendSeq);
    } else {
      AcksLess(l.toHost, step.index, l.host.receiveSeq, l.expected);
    }
  }

  /** The first block on the wire, and those behind it once what is expected has moved up to its limit. */
  lemma WiresNext(wires: seq<Wire>, built: seq<seq<byte>>, expected: nat, sendSeq: nat)
    requires WiresOk(wires, built, expected, sendSeq) && wires != []
    ensures var w := wires[0];
            && w.seq4 == w.number % 16 && 1 <= w.number <= |built| && w.body == built[w.number - 1]
            && w.number < w.limit <= w.number + MAX_PENDING_BLOCKS && expected <= w.limit <= sendSeq
            && WiresOk(wires[1..], built, expected, sendSeq) && WiresOk(wires[1..], built, w.limit, sendSeq)
  {
  }

  lemma WiresSooner(wires: seq<Wire>, built: seq<seq<byte>>, expected: nat, later: nat, sendSeq: nat)
    requires WiresOk(wires, built, later, sendSeq) && expected <= later
    ensures WiresOk(wires, built, expected, sendSeq)
  {
  }

  lemma AckJoins(acks: seq<Ack>, receiveSeq: nat, expected: nat, next: nat)
    requires AcksOk(acks, receiveSeq, expected) && receiveSeq <= expected <= next
    ensures AcksOk(acks + [Ack(next % 16, next)], receiveSeq, next)
  {
  }

  lemma PeerReceivesOk(l: Link)
    requires LinkOk(l) && l.toPeer != []
    ensures LinkOk(PeerTakes(l))
  {
    hide HostOk, PendingOk, WiresOk, AcksOk;
    var w := l.toPeer[0];
    WindowSize(l.host);
    WiresNext(l.toPeer, l.built, l.expected, l.host.sendSeq);
    AckJoins(l.toHost, l.host.receiveSeq, l.expected, l.expected);
    if w.seq4 == l.expected % 16 {
      NumberIs(w.number, l.expected);
      WiresSooner(l.toPeer[1..], l.built, l.expected + 1, w.limit, l.host.sendSeq);
      AckJoins(l.toHost, l.host.receiveSeq, l.expected, l.expected + 1);
      assert l.built[..l.expected] == l.built[..l.expected - 1] + [w.body];
    }
  }

  /** A message the peer sends unasked carries the number it expects next, like any other. */
  lemma PeerReportsOk(l: Link)
    requires LinkOk(l)
    ensures LinkOk(Take(l, PeerReports))
  {
    hide HostOk, WiresOk, PendingOk, AcksOk;
    AckJoins(l.toHost, l.host.receiveSeq, l.expected, l.expected);
  }

  /** Numbers that agree in four bits and lie within a window of each other are equal. */
  lemma NumberIs(a: nat, b: nat)
    requires a % 16 == b % 16 && a <= b + 12 && b <= a + 12
    ensures a == b
  {
  }

  lemma UpdateLive(h: Host, now: real, ack: nat)
    requires |h.sent| == h.sendSeq - h.receiveSeq && h.receiveSeq < ack <= h.sendSeq
    ensures var u := UpdateReceive(h, now, ack);
            u.receiveSeq == ack && u.sendSeq == h.sendSeq && u.sent == h.sent[ack - h.receiveSeq..]
  {
    hide TotalBytes, Clamp;
  }

  /** A live ack removes exactly the blocks before the number it names. */
  lemma HandleLive(h: Host, now: real, ack: nat, empty: bool)
    requires HostOk(h) && h.receiveSeq <= ack <= h.sendSeq
    ensures var r := Handle(h, now, ack % 16, empty);
            r.receiveSeq == ack && r.sendSeq == h.sendSeq && r.sent == h.sent[ack - h.receiveSeq..]
  {
    LiveAckExact(h, ack);
    if h.receiveSeq < ack { UpdateLive(h, now, ack); }
    hide DecodeSeq, TotalBytes, Rejects, UpdateReceive, WindowOk;
  }

  /** The times and sizes noted are those of the last block acknowledged. */
  predicate AckedBy(h: Host, u: Host, ack: nat)
    requires |h.sent| == h.sendSeq - h.receiveSeq && h.receiveSeq < ack <= h.sendSeq
  {
    var last := h.sent[ack - h.receiveSeq - 1];
    u.lastReceiveSentTime == last.receiveTime && u.lastAckBytes == |last.body|
  }

  lemma LiveAckNotes(h: Host, now: real, ack: nat, empty: bool)
    requires HostOk(h) && h.receiveSeq < ack <= h.sendSeq
    ensures AckedBy(h, Handle(h, now, ack % 16, empty), ack)
  {
    LiveAckExact(h, ack);
    hide DecodeSeq, TotalBytes, Rejects, Clamp, WindowOk;
  }

  /** The round trip of the last block acknowledged: its number was timed, and its time is known. */
  predicate TimedBy(h: Host, ack: nat)
    requires |h.sent| == h.sendSeq - h.receiveSeq && h.receiveSeq < ack <= h.sendSeq
  {
    0 < h.rttSampleSeq < ack && h.sent[ack - h.receiveSeq - 1].receiveTime != 0.0
  }

  /** A live ack past the block being timed is a sample, from the time of the last block acknowledged; no other is. */
  lemma SampleTaken(h: Host, now: real, ack: nat)
    requires HostOk(h) && h.receiveSeq < ack <= h.sendSeq
    ensures var u := UpdateReceive(h, now, ack);
            if TimedBy(h, ack) then
              var e := Estimate(h.(lastReceiveSentTime := h.sent[ack - h.receiveSeq - 1].receiveTime), now);
              u.srtt == e.srtt && u.rttvar == e.rttvar && u.rto == e.rto && u.rttSampleSeq == 0
            else
              u.srtt == h.srtt && u.rttvar == h.rttvar && u.rto == h.rto && u.rttSampleSeq == h.rttSampleSeq
  {
    hide TotalBytes, Clamp, AbsReal;
  }

  /** A block is timed if none was, and stays the one timed while more are built. */
  lemma TimesOldest(h: Host, body: seq<byte>, receiveTime: real)
    requires HostOk(h)
    ensures var b := Build(h, body, receiveTime);
            b.rttSampleSeq == if h.rttSampleSeq == 0 then b.receiveSeq + |b.sent| - 1 else h.rttSampleSeq
  {
  }

  /** Timeouts one after the other. */
  function TimedOut(h: Host, n: nat): Host {
    if n == 0 then h else Retransmit(TimedOut(h, n - 1))
  }

  function Doubled(x: real, n: nat): real {
    if n == 0 then x else 2.0 * Doubled(x, n - 1)
  }

  function Capped(x: real): real {
    if x > MAX_RTO then MAX_RTO else x
  }

  /** Each timeout in a row doubles the time to the next, up to MAX_RTO; a resend for a nak leaves it. */
  lemma {:induction false} TimeoutsDouble(h: Host, n: nat)
    requires MIN_RTO <= h.rto <= MAX_RTO
    ensures h.retransmitNow ==> Retransmit(h).rto == h.rto
    ensures !h.retransmitNow ==> !TimedOut(h, n).retransmitNow && TimedOut(h, n).rto == Capped(Doubled(h.rto, n))
    ensures Doubled(h.rto, n) > 0.0
  {
    hide MarkAgain;
    if n > 0 { TimeoutsDouble(h, n - 1); }
  }

  lemma AcksAfter(acks: seq<Ack>, receiveSeq: nat, expected: nat)
    requires AcksOk(acks, receiveSeq, expected) && acks != []
    ensures AcksOk(acks[1..], acks[0].number, expected)
    ensures receiveSeq <= acks[0].number <= expected && acks[0].seq4 == acks[0].number % 16
  {
  }

  lemma HostReceivesOk(l: Link, now: real, empty: bool)
    requires LinkOk(l) && l.toHost != []
    ensures LinkOk(Take(l, HostReceives(now, empty)))
  {
    hide HostOk, Handle, WiresOk, PendingOk, AcksOk;
    var ack := l.toHost[0];
    AcksAfter(l.toHost, l.host.receiveSeq, l.expected);
    HandleOk(l.host, now, ack.seq4, empty);
    HandleLive(l.host, now, ack.number, empty);
    PendingAfter(l.host, Handle(l.host, now, ack.seq4, empty), l.built);
  }

  /** Every step keeps the link in order. */
  lemma StepOk(l: Link, step: Step)
    requires LinkOk(l) && Enabled(l, step)
    ensures LinkOk(Take(l, step))
  {
    match step
    case SendBlock(body, t) => SendBlockOk(l, body, t);
    case Resend => ResendOk(l);
    case LoseBlock(_) => LoseOk(l, step);
    case LoseAck(_) => LoseOk(l, step);
    case PeerReceives => PeerReceivesOk(l);
    case PeerReports => PeerReportsOk(l);
    case HostReceives(now, empty) => HostReceivesOk(l, now, empty);
  }

  ghost predicate Runs(l: Link, steps: seq<Step>)
    decreases |steps|
  {
    steps == [] || (Enabled(l, steps[0]) && Runs(Take(l, steps[0]), steps[1..]))
  }

  function RunTo(l: Link, steps: seq<Step>): Link
    requires Runs(l, steps)
    decreases |steps|
  {
    if steps == [] then l else RunTo(Take(l, steps[0]), steps[1..])
  }

  /** In every run, what the peer accepted is a prefix of what was built: nothing lost, repeated or reordered. */
  lemma {:induction false} DeliveredInOrder(l: Link, steps: seq<Step>)
    requires LinkOk(l) && Runs(l, steps)
    ensures LinkOk(RunTo(l, steps)) && RunTo(l, steps).accepted <= RunTo(l, steps).built
    decreases |steps|
  {
    if steps != [] {
      StepOk(l, steps[0]);
      DeliveredInOrder(Take(l, steps[0]), steps[1..]);
    }
  }

  lemma ConnectedOk()
    ensures LinkOk(CONNECTED)
  {
  }

  // ---------------------------------------------------------------------------
  // Naks over a run
  // ---------------------------------------------------------------------------

  /** Is a step a resend that naks asked for? */
  predicate NakResend(l: Link, step: Step) {
    step.Resend? && l.host.retransmitNow
  }

  /** The resends in a run that naks asked for. */
  ghost function NakResends(l: Link, steps: seq<Step>): nat
    requires Runs(l, steps)
    decreases |steps|
  {
    if steps == [] then 0 else
      (if NakResend(l, steps[0]) then 1 else 0) + NakResends(Take(l, steps[0]), steps[1..])
  }

  /** A resend of the blocks before number was made; answered, if naks have asked for another since. */
  ghost predicate Resent(h: Host, number: nat, answered: bool) {
    h.retransmitSeq >= number && (answered ==> h.ignoreNakSeq >= number)
  }

  /** No step undoes that; and until number is acknowledged, naks ask for a resend only once. */
  lemma ResentStep(l: Link, step: Step, number: nat, answered: bool)
    requires LinkOk(l) && Enabled(l, step) && Resent(l.host, number, answered) && l.host.receiveSeq <= number
    ensures NakResend(l, step) ==> !answered
    ensures Resent(Take(l, step).host, number, answered || NakResend(l, step))
  {
    hide WiresOk, AcksOk, PendingOk, Handle, MarkAgain;
    match step
    case HostReceives(now, empty) => HandleKeepsResent(l, now, empty);
    case _ =>
  }

  lemma HandleKeepsResent(l: Link, now: real, empty: bool)
    requires LinkOk(l) && l.toHost != []
    ensures var h, r := l.host, Take(l, HostReceives(now, empty)).host;
            r.receiveSeq >= h.receiveSeq && r.retransmitSeq == h.retransmitSeq && r.ignoreNakSeq == h.ignoreNakSeq
  {
    hide WiresOk, PendingOk, AcksOk, HostOk;
    var ack := l.toHost[0];
    AcksAfter(l.toHost, l.host.receiveSeq, l.expected);
    HandleLive(l.host, now, ack.number, empty);
    AskedByNaks(l.host, now, ack.seq4, empty);
    hide DecodeSeq, TotalBytes, Clamp, Rejects;
  }

  /** No step takes back an ack. */
  lemma AckStays(l: Link, step: Step)
    requires LinkOk(l) && Enabled(l, step)
    ensures Take(l, step).host.receiveSeq >= l.host.receiveSeq
  {
    hide WiresOk, AcksOk, PendingOk, Handle, MarkAgain;
    match step
    case HostReceives(now, empty) => HandleKeepsResent(l, now, empty);
    case _ =>
  }

  lemma {:induction false} AcksStay(l: Link, steps: seq<Step>)
    requires LinkOk(l) && Runs(l, steps)
    ensures l.host.receiveSeq <= RunTo(l, steps).host.receiveSeq
    decreases |steps|
  {
    hide LinkOk, Take;
    if steps != [] {
      StepOk(l, steps[0]);
      AckStays(l, steps[0]);
      AcksStay(Take(l, steps[0]), steps[1..]);
    }
  }

  /**
   * Nak suppression: after a resend, naks ask for at most one more until every block of that resend is acknowledged;
   * and for none if they are ignored up to there, as after a timeout.
   */
  lemma {:induction false} AtMostOneMore(l: Link, steps: seq<Step>, number: nat, answered: bool)
    requires LinkOk(l) && Runs(l, steps) && Resent(l.host, number, answered)
    requires RunTo(l, steps).host.receiveSeq <= number
    ensures NakResends(l, steps) <= if answered then 0 else 1
    decreases |steps|
  {
    hide LinkOk, Take, Resent, NakResend;
    if steps != [] {
      var l' := Take(l, steps[0]);
      StepOk(l, steps[0]);
      AcksStay(l, steps);
      ResentStep(l, steps[0], number, answered);
      AtMostOneMore(l', steps[1..], number, answered || NakResend(l, steps[0]));
    }
  }

  /**
   * After a resend for a nak, naks ask for at most one more until receiveSeq passes that resend's retransmitSeq;
   * after one on timeout they ask for none.
   */
  lemma {:induction false} NaksSuppressed(l: Link, steps: seq<Step>)
    requires LinkOk(l) && Runs(Take(l, Resend), steps)
    ensures var after := Take(l, Resend);
            RunTo(after, steps).host.receiveSeq <= after.host.retransmitSeq ==>
            NakResends(after, steps) <= if l.host.retransmitNow then 1 else 0
  {
    hide LinkOk, RunTo, Runs, NakResends;
    var after := Take(l, Resend);
    StepOk(l, Resend);
    if RunTo(after, steps).host.receiveSeq <= after.host.retransmitSeq {
      AtMostOneMore(after, steps, after.host.retransmitSeq, !l.host.retransmitNow);
    }
  }
}
