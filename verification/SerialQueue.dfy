/** The serial queue object: the link state updated in place, step by step. */
module SerialQueue {
  import opened FrameReader
  import opened MsgBlock
  import opened SerialLink

  /** Blocks popped from the front of the sent queue until count are gone or none is left, and their bytes. */
  method PopAcked(sent: seq<Sent>, count: nat) returns (popped: nat, bytes: nat)
    requires count > 0
    ensures popped == (if count <= |sent| then count else |sent|) && bytes == TotalBytes(sent[..popped])
    ensures popped == |sent| ==> sent[..popped] == sent && sent[popped..] == []
  {
    hide TotalBytes;
    popped, bytes := 0, 0;
    assert sent[..0] == [];
    NoBytes();
    while true
      invariant 0 <= popped < count && popped <= |sent| && bytes == TotalBytes(sent[..popped])
      decreases count - popped
    {
      if popped == |sent| {
        break;
      }
      TotalBytesNext(sent, popped);
      bytes := bytes + |sent[popped].body|;
      popped := popped + 1;
      if popped == count {
        break;
      }
    }
  }

  ghost predicate AllLong(blocks: seq<seq<byte>>) {
    forall k :: 0 <= k < |blocks| ==> |blocks[k]| >= MESSAGE_MIN
  }

  /** The low sequence bits of a block. */
  function SeqOf(block: seq<byte>): nat
    requires |block| >= MESSAGE_MIN
  {
    ByteValue(block[1] & 0x0f)
  }

  /** The link state after blocks were received, in order. */
  ghost function HandleAll(h: Host, now: real, blocks: seq<seq<byte>>): Host
    requires AllLong(blocks)
  {
    if blocks == [] then h else
      var n := |blocks| - 1;
      Handle(HandleAll(h, now, blocks[..n]), now, SeqOf(blocks[n]), |blocks[n]| == MESSAGE_MIN)
  }

  /** The bytes of the blocks that are not rejected on the way. */
  ghost function ReadBytes(h: Host, now: real, blocks: seq<seq<byte>>): nat
    requires AllLong(blocks)
  {
    if blocks == [] then 0 else
      var n := |blocks| - 1;
      ReadBytes(h, now, blocks[..n]) +
      if Rejects(HandleAll(h, now, blocks[..n]), SeqOf(blocks[n])) then 0 else |blocks[n]|
  }

  /** One block more. */
  lemma {:induction false} HandleNext(h: Host, now: real, blocks: seq<seq<byte>>, i: nat)
    requires AllLong(blocks) && i < |blocks|
    ensures HandleAll(h, now, blocks[..i + 1])
         == Handle(HandleAll(h, now, blocks[..i]), now, SeqOf(blocks[i]), |blocks[i]| == MESSAGE_MIN)
    ensures ReadBytes(h, now, blocks[..i + 1])
         == ReadBytes(h, now, blocks[..i]) +
            if Rejects(HandleAll(h, now, blocks[..i]), SeqOf(blocks[i])) then 0 else |blocks[i]|
  {
    hide Handle, Rejects;
    assert blocks[..i + 1][..i] == blocks[..i] && blocks[..i + 1][i] == blocks[i];
  }

  class SerialQueue {
    /** Bytes the peer can buffer, or 0 when that is not limited. */
    var receiveWindow: nat
    var sendSeq: nat
    var receiveSeq: nat
    var ignoreNakSeq: nat
    var lastAckSeq: nat
    var retransmitSeq: nat
    var rttSampleSeq: nat
    var sentQueue: seq<Sent>
    var srtt: real
    var rttvar: real
    var rto: real
    var needAckBytes: int
    var lastAckBytes: nat
    var lastReceiveSentTime: real
    var retransmitNow: bool
    var bytesRead: nat
    var bytesInvalid: nat

    function State(): Host
      reads this
    {
      Host(sendSeq, receiveSeq, sentQueue, ignoreNakSeq, lastAckSeq, retransmitSeq, rttSampleSeq,
           needAckBytes, lastAckBytes, lastReceiveSentTime, srtt, rttvar, rto, retransmitNow)
    }

    ghost predicate Valid()
      reads this
    {
      HostOk(State())
    }

    constructor (receiveWindow: nat)
      ensures Valid() && State() == INITIAL && this.receiveWindow == receiveWindow
    {
      this.receiveWindow := receiveWindow;
      sendSeq, receiveSeq, sentQueue := 1, 1, [];
      ignoreNakSeq, lastAckSeq, retransmitSeq, rttSampleSeq := 0, 0, 0, 0;
      needAckBytes, lastAckBytes, lastReceiveSentTime := 0, 0, 0.0;
      srtt, rttvar, rto, retransmitNow := 0.0, 0.0, MIN_RTO, false;
      bytesRead, bytesInvalid := 0, 0;
      new;
      hide HostOk;
      InitialOk();
    }

    /** Take acknowledged blocks off the sent queue. */
    method RemoveAcked(rseq: nat)
      requires receiveSeq < rseq
      modifies `sentQueue, `needAckBytes, `sendSeq, `lastReceiveSentTime, `lastAckBytes, `receiveSeq
      ensures State() == TakeAck(old(State()), rseq)
    {
      hide TotalBytes;
      var count := rseq - receiveSeq;
      var popped, bytes := PopAcked(sentQueue, count);
      if popped < count {
        sendSeq, lastReceiveSentTime := rseq, 0.0;
      } else {
        var last := sentQueue[popped - 1];
        lastReceiveSentTime, lastAckBytes := last.receiveTime, |last.body|;
      }
      needAckBytes := needAckBytes - bytes;
      sentQueue := sentQueue[popped..];
      receiveSeq := rseq;
    }

    /** The receive sequence advanced: drop acked blocks and update the round trip estimate. */
    method UpdateReceiveSeq(now: real, rseq: nat)
      requires receiveSeq < rseq
      modifies `sentQueue, `needAckBytes, `sendSeq, `lastReceiveSentTime, `lastAckBytes, `receiveSeq,
               `srtt, `rttvar, `rto, `rttSampleSeq, `retransmitNow
      ensures State() == UpdateReceive(old(State()), now, rseq)
    {
      hide TotalBytes, TakeAck, Estimate;
      RemoveAcked(rseq);
      if rttSampleSeq != 0 && rseq > rttSampleSeq && lastReceiveSentTime != 0.0 {
        UpdateRtt(now);
      }
      retransmitNow := false;
    }

    /** Update the round trip estimate from the last acknowledged block. */
    method UpdateRtt(now: real)
      modifies `srtt, `rttvar, `rto, `rttSampleSeq
      ensures State() == Estimate(old(State()), now)
    {
      var delta := now - lastReceiveSentTime;
      if srtt == 0.0 {
        rttvar := delta / 2.0;
        srtt := delta * 10.0;
      } else {
        rttvar := (3.0 * rttvar + AbsReal(srtt - delta)) / 4.0;
        srtt := (7.0 * srtt + delta) / 8.0;
      }
      var rttvar4 := rttvar * 4.0;
      if rttvar4 < 0.001 {
        rttvar4 := 0.001;
      }
      rto := srtt + rttvar4;
      if rto < MIN_RTO {
        rto := MIN_RTO;
      } else if rto > MAX_RTO {
        rto := MAX_RTO;
      }
      rttSampleSeq := 0;
    }

    /** Process a well formed message of len bytes with the given low sequence bits. */
    method HandleMessage(now: real, seq4: nat, len: nat)
      requires Valid()
      modifies this
      ensures Valid() && State() == Handle(old(State()), now, seq4, len == MESSAGE_MIN)
      ensures if Rejects(old(State()), seq4)
              then bytesInvalid == old(bytesInvalid) + len && bytesRead == old(bytesRead)
              else bytesRead == old(bytesRead) + len && bytesInvalid == old(bytesInvalid)
    {
      hide HostOk, UpdateReceive;
      HandleOk(State(), now, seq4, len == MESSAGE_MIN);
      var rseq := receiveSeq + (seq4 - receiveSeq) % 16;
      if rseq != receiveSeq {
        if rseq > sendSeq && receiveSeq != 1 {
          bytesInvalid := bytesInvalid + len;
          return;
        }
        UpdateReceiveSeq(now, rseq);
      }
      bytesRead := bytesRead + len;
      if len == MESSAGE_MIN {
        NoteAcknowledged(rseq);
      }
    }

    /** Process the blocks found in the input, in order; each byte of them counts as read or as invalid. */
    method HandleBlocks(now: real, blocks: seq<seq<byte>>)
      requires Valid() && AllLong(blocks)
      modifies this
      ensures Valid() && State() == HandleAll(old(State()), now, blocks)
      ensures bytesRead == old(bytesRead) + ReadBytes(old(State()), now, blocks)
      ensures bytesRead + bytesInvalid == old(bytesRead) + old(bytesInvalid) + TotalLength(blocks)
    {
      hide HostOk, Handle, Rejects, SeqOf;
      assert blocks[0..] == blocks && blocks[..0] == [];
      for i := 0 to |blocks|
        invariant Valid() && State() == HandleAll(old(State()), now, blocks[..i])
        invariant bytesRead == old(bytesRead) + ReadBytes(old(State()), now, blocks[..i])
        invariant bytesRead + bytesInvalid + TotalLength(blocks[i..])
                  == old(bytesRead) + old(bytesInvalid) + TotalLength(blocks)
      {
        HandleNext(old(State()), now, blocks, i);
        assert blocks[i..][0] == blocks[i] && blocks[i..][1..] == blocks[i + 1..];
        HandleMessage(now, SeqOf(blocks[i]), |blocks[i]|);
      }
      assert blocks[..|blocks|] == blocks;
    }

    /** Note a first ack; take a repeated one as a nak. */
    method NoteAcknowledged(rseq: nat)
      modifies `lastAckSeq, `retransmitNow
      ensures State() == NoteAck(old(State()), rseq)
    {
      if lastAckSeq < rseq {
        lastAckSeq := rseq;
      } else if rseq > ignoreNakSeq && sentQueue != [] {
        retransmitNow := true;
      }
    }

    /** Send all pending blocks again, after a sync byte. */
    method RetransmitEvent() returns (buf: seq<byte>)
      requires Valid()
      modifies this
      ensures Valid() && State() == Retransmit(old(State()))
      ensures buf == [MESSAGE_SYNC] + Bodies(old(sentQueue))
      ensures |buf| <= MESSAGE_MAX * MAX_PENDING_BLOCKS + 1
    {
      hide HostOk, TotalBytes, Retransmit;
      RetransmitOk(State());
      RetransmitFits(State());
      BodiesLength(sentQueue);
      buf := PendingBytes();
      NoteRetransmit();
    }

    /** Naks to ignore from here on, and the timeout to use, after sending everything again. */
    method NoteRetransmit()
      modifies `ignoreNakSeq, `rto, `retransmitSeq, `rttSampleSeq, `sentQueue, `retransmitNow
      ensures State() == Retransmit(old(State()))
    {
      hide MarkAgain, TotalBytes;
      ghost var h := State();
      var ignore, timeout := sendSeq, rto;
      if retransmitNow {
        ignore := receiveSeq;
        if receiveSeq < retransmitSeq {
          ignore := retransmitSeq;
        }
      } else {
        timeout := rto * 2.0;
        if timeout > MAX_RTO {
          timeout := MAX_RTO;
        }
      }
      assert ignore == IgnoreNaks(h) && timeout == BackedOff(h);
      hide IgnoreNaks, BackedOff;
      ignoreNakSeq, rto := ignore, timeout;
      retransmitSeq, rttSampleSeq := sendSeq, 0;
      sentQueue, retransmitNow := MarkAgain(sentQueue), false;
    }

    /** A sync byte and every pending block. */
    method PendingBytes() returns (buf: seq<byte>)
      ensures buf == [MESSAGE_SYNC] + Bodies(sentQueue)
    {
      buf := [MESSAGE_SYNC];
      for i := 0 to |sentQueue|
        invariant buf == [MESSAGE_SYNC] + Bodies(sentQueue[..i])
      {
        assert sentQueue[..i + 1][..i] == sentQueue[..i];
        buf := buf + sentQueue[i].body;
      }
      assert sentQueue[..|sentQueue|] == sentQueue;
    }

    /** May another block be sent now, by the window and the peer's buffer? */
    predicate MaySend()
      reads this
    {
      && WindowOpen(State())
      && (sendSeq > receiveSeq && receiveWindow != 0 ==>
            needAckBytes + MESSAGE_MAX + (if lastAckSeq < receiveSeq then lastAckBytes else 0) <= receiveWindow)
    }

    /** Frame a payload as the next block, store it, and return it for writing. */
    method BuildAndSend(payload: seq<byte>, receiveTime: real) returns (block: seq<byte>)
      requires Valid() && MaySend() && |payload| <= MESSAGE_PAYLOAD_MAX
      modifies `sendSeq, `rttSampleSeq, `needAckBytes, `sentQueue, `retransmitNow
      ensures block == Frame(ByteOf(old(sendSeq) % 16), payload)
      ensures Valid() && State() == Build(old(State()), block, receiveTime)
      ensures receiveWindow >= MESSAGE_MAX ==> needAckBytes <= receiveWindow
      ensures old(sendSeq > receiveSeq) && receiveWindow != 0 && lastAckSeq < receiveSeq ==>
              needAckBytes + lastAckBytes <= receiveWindow
    {
      block := Frame(ByteOf(sendSeq % 16), payload);
      if sendSeq == receiveSeq { NothingPending(State()); }
      hide HostOk, Frame, ByteOf;
      BuildOk(State(), block, receiveTime);
      StoreBlock(block, receiveTime);
    }

    /** Number a block and put it on the sent queue. */
    method StoreBlock(block: seq<byte>, receiveTime: real)
      modifies `sendSeq, `rttSampleSeq, `needAckBytes, `sentQueue, `retransmitNow
      ensures State() == Build(old(State()), block, receiveTime)
    {
      if sentQueue == [] {
        retransmitNow := false;
      }
      if rttSampleSeq == 0 {
        rttSampleSeq := sendSeq;
      }
      sendSeq := sendSeq + 1;
      needAckBytes := needAckBytes + |block|;
      sentQueue := sentQueue + [Sent(block, receiveTime, false)];
    }
  }

  /** Data arrived: every byte is counted once, as read, as invalid, or as still buffered. */
  method InputEvent(sq: SerialQueue, reader: Reader, now: real, data: seq<byte>)
    requires sq.Valid() && reader.Valid()
    modifies sq, reader
    ensures sq.Valid() && reader.Valid() && |reader.inputBuf| < MESSAGE_MAX
    ensures var found := Blocks(old(reader.needSync), old(reader.inputBuf) + data);
            && reader.handled == old(reader.handled) + found
            && AllLong(found) && sq.State() == HandleAll(old(sq.State()), now, found)
            && sq.bytesRead == old(sq.bytesRead) + ReadBytes(old(sq.State()), now, found)
    ensures sq.bytesRead + sq.bytesInvalid + reader.bytesInvalid + |reader.inputBuf|
         == old(sq.bytesRead) + old(sq.bytesInvalid) + old(reader.bytesInvalid) + old(|reader.inputBuf|) + |data|
  {
    var n := |reader.handled|;
    ghost var found := Blocks(reader.needSync, reader.inputBuf + data);
    BlocksLong(reader.needSync, reader.inputBuf + data);
    reader.InputEvent(data);
    assert reader.handled[n..] == found;
    hide HostOk, Blocks, Check;
    sq.HandleBlocks(now, reader.handled[n..]);
  }

  /** The bodies of blocks, one after the other. */
  function Bodies(sent: seq<Sent>): seq<byte> {
    if sent == [] then [] else Bodies(sent[..|sent| - 1]) + sent[|sent| - 1].body
  }

  /** The peer's buffer may hold all pending blocks, and the last acknowledged one until its empty ack has come. */
  ghost function Held(sq: SerialQueue): int
    reads sq
  {
    TotalBytes(sq.sentQueue) + if sq.lastAckSeq < sq.receiveSeq then sq.lastAckBytes else 0
  }

  /** A block may be sent exactly while fewer than 12 are pending, and the largest would fit the peer's buffer. */
  lemma SendsWhileRoom(sq: SerialQueue)
    requires sq.Valid()
    ensures sq.MaySend() <==>
            && |sq.sentQueue| < MAX_PENDING_BLOCKS
            && (sq.sentQueue == [] || sq.receiveWindow == 0 || Held(sq) + MESSAGE_MAX <= sq.receiveWindow)
  {
    RoomLeft(sq.State());
  }

  lemma LowNibble(n: nat)
    requires n < 16
    ensures ByteOf(n) & 0x0f == ByteOf(n)
  {
  }

  /** The low bits read from a block are those it was numbered with. */
  lemma FrameNumber(number: nat, payload: seq<byte>)
    requires |payload| <= MESSAGE_PAYLOAD_MAX
    ensures SeqOf(Frame(ByteOf(number % 16), payload)) == number % 16
  {
    hide Frame, ByteOf, ByteValue;
    var n := number % 16;
    SeqByte(ByteOf(n));
    LowNibble(n);
    ByteOfValue(n);
    NumberByte(ByteOf(n), payload);
  }

  lemma NumberByte(low: byte, payload: seq<byte>)
    requires |payload| <= MESSAGE_PAYLOAD_MAX
    ensures Frame(low, payload)[1] == MESSAGE_DEST | (low & 0x0f)
  {
    hide Crc, ByteOf, LowByte;
  }

  lemma NothingPending(h: Host)
    requires HostOk(h) && h.sendSeq == h.receiveSeq
    ensures h.needAckBytes == 0
  {
  }

  lemma NoBytes()
    ensures TotalBytes([]) == 0
  {
  }

  lemma {:induction false} BodiesLength(sent: seq<Sent>)
    ensures |Bodies(sent)| == TotalBytes(sent)
  {
    if sent != [] { BodiesLength(sent[..|sent| - 1]); }
  }
}
