/**
 * Reading blocks from a byte stream: bytes are buffered as they arrive, and every complete
 * block found at the front of the buffer is handled. After bad data the reader looks for
 * the next sync byte.
 */
module FrameReader {
  import opened MsgBlock

  /** The blocks found by draining a buffer. */
  function Blocks(needSync: bool, buf: seq<byte>): (blocks: seq<seq<byte>>)
    decreases |buf|
  {
    match Check(needSync, buf)
    case NeedMore => []
    case Block(len) => [buf[..len]] + Blocks(needSync, buf[len..])
    case Discard(len, sync) => Blocks(sync, buf[len..])
  }

  lemma {:induction false} BlocksLong(needSync: bool, buf: seq<byte>)
    ensures forall k :: 0 <= k < |Blocks(needSync, buf)| ==> |Blocks(needSync, buf)[k]| >= MESSAGE_MIN
    decreases |buf|
  {
    match Check(needSync, buf)
    case NeedMore =>
    case Block(len) => BlocksLong(needSync, buf[len..]);
    case Discard(len, sync) => BlocksLong(sync, buf[len..]);
  }

  /** What is left in the buffer, and whether a sync byte is being looked for. */
  function Rest(needSync: bool, buf: seq<byte>): (rest: (bool, seq<byte>))
    ensures |rest.1| < MESSAGE_MAX
    decreases |buf|
  {
    match Check(needSync, buf)
    case NeedMore => (needSync, buf)
    case Block(len) => Rest(needSync, buf[len..])
    case Discard(len, sync) => Rest(sync, buf[len..])
  }

  /** Bytes discarded while draining. */
  function Discarded(needSync: bool, buf: seq<byte>): nat
    decreases |buf|
  {
    match Check(needSync, buf)
    case NeedMore => 0
    case Block(len) => Discarded(needSync, buf[len..])
    case Discard(len, sync) => len + Discarded(sync, buf[len..])
  }

  function TotalLength(blocks: seq<seq<byte>>): nat {
    if blocks == [] then 0 else |blocks[0]| + TotalLength(blocks[1..])
  }

  /** Every byte is in a block, discarded, or still buffered, exactly once. */
  lemma {:induction false} BytesAccounted(needSync: bool, buf: seq<byte>)
    ensures TotalLength(Blocks(needSync, buf)) + Discarded(needSync, buf) + |Rest(needSync, buf).1| == |buf|
    decreases |buf|
  {
    match Check(needSync, buf)
    case NeedMore =>
    case Block(len) =>
      BytesAccounted(needSync, buf[len..]);
      assert ([buf[..len]] + Blocks(needSync, buf[len..]))[1..] == Blocks(needSync, buf[len..]);
    case Discard(len, sync) =>
      BytesAccounted(sync, buf[len..]);
  }

  // ---------------------------------------------------------------------------
  // More data does not change what was found
  // ---------------------------------------------------------------------------

  lemma {:induction false} FindSyncAppend(a: seq<byte>, b: seq<byte>)
    ensures FindSync(a + b) == if FindSync(a) < |a| then FindSync(a) else |a| + FindSync(b)
  {
    if a == [] {
      assert a + b == b;
    } else if a[0] != MESSAGE_SYNC {
      FindSyncAppend(a[1..], b);
      assert (a + b)[1..] == a[1..] + b;
    }
  }

  lemma TrailerAppend(a: seq<byte>, b: seq<byte>, n: nat)
    requires MESSAGE_MIN <= n <= |a|
    ensures TrailerOk(a + b, n) == TrailerOk(a, n)
  {
    assert (a + b)[..n - 3] == a[..n - 3];
  }

  /** A block found stays found, and an error stays an error, when more data follows. */
  lemma CheckAppend(needSync: bool, a: seq<byte>, b: seq<byte>)
    ensures Check(needSync, a).Block? ==> Check(needSync, a + b) == Check(needSync, a)
    ensures Check(needSync, a).Discard? ==> |a| > 0 && Check(needSync, a + b) == Resync(a + b)
    ensures Check(needSync, a).Discard? ==> Check(needSync, a) == Resync(a)
  {
    if |a| >= MESSAGE_MIN {
      assert (a + b)[0] == a[0] && (a + b)[1] == a[1];
      if HeaderOk(a) {
        var n := ByteValue(a[0]);
        if n <= |a| { TrailerAppend(a, b, n); }
      }
    }
  }

  lemma {:induction false} UnfoldBlock(needSync: bool, buf: seq<byte>, len: nat)
    requires Check(needSync, buf) == Block(len)
    ensures len <= |buf|
    ensures Blocks(needSync, buf) == [buf[..len]] + Blocks(needSync, buf[len..])
    ensures Rest(needSync, buf) == Rest(needSync, buf[len..])
  {
  }

  lemma {:induction false} UnfoldDiscard(needSync: bool, buf: seq<byte>, len: nat, sync: bool)
    requires Check(needSync, buf) == Discard(len, sync)
    ensures len <= |buf|
    ensures Blocks(needSync, buf) == Blocks(sync, buf[len..])
    ensures Rest(needSync, buf) == Rest(sync, buf[len..])
  {
  }

  lemma {:induction false} FewBytes(needSync: bool, buf: seq<byte>)
    requires |buf| < MESSAGE_MIN
    ensures Blocks(needSync, buf) == []
  {
  }

  /** Looking for a sync byte in a buffer, a reader finds the blocks after it, or none. */
  lemma {:induction false} BlocksAfterSync(b: seq<byte>)
    ensures Blocks(true, b) == if FindSync(b) < |b| then Blocks(false, b[FindSync(b) + 1..]) else []
  {
    hide Check, Blocks, Rest, FindSync;
    var j := FindSync(b);
    if |b| < MESSAGE_MIN {
      FewBytes(true, b);
      if j < |b| { FewBytes(false, b[j + 1..]); }
    } else {
      BlocksAfterDiscard(b);
      if j == |b| {
        assert b[|b|..] == [];
        FewBytes(true, []);
      }
    }
  }

  lemma {:induction false} BlocksAfterDiscard(b: seq<byte>)
    requires |b| >= MESSAGE_MIN
    ensures var v := Resync(b); Blocks(true, b) == Blocks(v.needSync, b[v.len..])
  {
    assert Check(true, b) == Resync(b);
    UnfoldDiscard(true, b, Resync(b).len, Resync(b).needSync);
    hide Blocks;
  }

  /** Bytes after the sync byte found, or none: the blocks there are those of looking for a sync byte in b. */
  lemma {:induction false} NoSyncAppend(a: seq<byte>, b: seq<byte>)
    requires |a| > 0 && FindSync(a) == |a|
    ensures var v := Resync(a + b); Blocks(v.needSync, (a + b)[v.len..]) == Blocks(true, b)
  {
    FindSyncAppend(a, b);
    BlocksAfterSync(b);
    hide Check, FindSync, Blocks;
    var j := FindSync(b);
    if j < |b| {
      assert (a + b)[|a| + j + 1..] == b[j + 1..];
    } else {
      assert (a + b)[|a| + |b|..] == [];
      FewBytes(true, []);
    }
  }

  /** Draining a buffer and then the rest with more data finds what draining all of it would. */
  lemma {:induction false} BlocksAppend(needSync: bool, a: seq<byte>, b: seq<byte>)
    ensures Blocks(needSync, a + b) == Blocks(needSync, a) + BlocksLater(needSync, a, b)
    decreases |a|
  {
    CheckAppend(needSync, a, b);
    hide Check, FindSync, Resync;
    match Check(needSync, a)
    case NeedMore =>
    case Block(len) =>
      BlocksAppend(needSync, a[len..], b);
      BlockStep(needSync, a, b, len);
    case Discard(len, sync) =>
      if FindSync(a) < |a| {
        DiscardFound(needSync, a, b);
        BlocksAppend(sync, a[len..], b);
      } else {
        DiscardNone(needSync, a, b);
      }
  }

  /** Blocks found once more data follows what draining left. */
  function BlocksLater(needSync: bool, a: seq<byte>, b: seq<byte>): seq<seq<byte>> {
    Blocks(Rest(needSync, a).0, Rest(needSync, a).1 + b)
  }

  lemma Associative<T>(a: seq<T>, b: seq<T>, c: seq<T>)
    ensures a + (b + c) == (a + b) + c
  {
  }

  lemma {:induction false} BlockStep(needSync: bool, a: seq<byte>, b: seq<byte>, len: nat)
    requires Check(needSync, a) == Block(len) == Check(needSync, a + b)
    requires Blocks(needSync, a[len..] + b) == Blocks(needSync, a[len..]) + BlocksLater(needSync, a[len..], b)
    ensures Blocks(needSync, a + b) == Blocks(needSync, a) + BlocksLater(needSync, a, b)
  {
    UnfoldBlock(needSync, a, len);
    UnfoldBlock(needSync, a + b, len);
    hide Check, Blocks, Rest;
    assert (a + b)[len..] == a[len..] + b && (a + b)[..len] == a[..len];
    assert BlocksLater(needSync, a, b) == BlocksLater(needSync, a[len..], b);
    var first, second, later := [a[..len]], Blocks(needSync, a[len..]), BlocksLater(needSync, a, b);
    Associative(first, second, later);
  }

  /** A sync byte in the buffer: both drain on from behind it. */
  lemma {:induction false} DiscardFound(needSync: bool, a: seq<byte>, b: seq<byte>)
    requires |a| > 0 && Check(needSync, a) == Resync(a) && Check(needSync, a + b) == Resync(a + b)
    requires FindSync(a) < |a|
    ensures var v := Resync(a);
            && Blocks(needSync, a) == Blocks(v.needSync, a[v.len..])
            && Blocks(needSync, a + b) == Blocks(v.needSync, a[v.len..] + b)
            && BlocksLater(needSync, a, b) == BlocksLater(v.needSync, a[v.len..], b)
  {
    hide Check, FindSync, Blocks, Rest;
    FindSyncAppend(a, b);
    var n := FindSync(a) + 1;
    assert Resync(a) == Resync(a + b) == Discard(n, false);
    UnfoldDiscard(needSync, a, n, false);
    UnfoldDiscard(needSync, a + b, n, false);
    assert (a + b)[n..] == a[n..] + b;
  }

  /** No sync byte in the buffer: what follows is searched for one. */
  lemma {:induction false} DiscardNone(needSync: bool, a: seq<byte>, b: seq<byte>)
    requires |a| > 0 && Check(needSync, a) == Resync(a) && Check(needSync, a + b) == Resync(a + b)
    requires FindSync(a) == |a|
    ensures Blocks(needSync, a) == []
    ensures Blocks(needSync, a + b) == Blocks(true, b) == BlocksLater(needSync, a, b)
  {
    NoSyncAppend(a, b);
    FewBytes(true, []);
    assert Rest(true, []) == (true, []);
    var w := Resync(a + b);
    assert Resync(a) == Discard(|a|, true);
    UnfoldDiscard(needSync, a, |a|, true);
    UnfoldDiscard(needSync, a + b, w.len, w.needSync);
    hide Check, FindSync, Blocks, Rest, Resync;
    assert a[|a|..] == [] && [] + b == b;
  }

  // ---------------------------------------------------------------------------
  // What was written comes out
  // ---------------------------------------------------------------------------

  function Concat(chunks: seq<seq<byte>>): seq<byte> {
    if chunks == [] then [] else chunks[0] + Concat(chunks[1..])
  }

  /** A block that passes the check at its full length. */
  ghost predicate Whole(block: seq<byte>) {
    Check(false, block) == Block(|block|)
  }

  lemma FrameWhole(seqNum: bv8, payload: seq<byte>)
    requires |payload| <= MESSAGE_PAYLOAD_MAX
    ensures Whole(Frame(seqNum, payload))
  {
    hide Check, Frame;
    FrameChecks(seqNum, payload, []);
    assert Frame(seqNum, payload) + [] == Frame(seqNum, payload);
  }

  lemma {:induction false} WholeComesOut(block: seq<byte>, rest: seq<byte>)
    requires Whole(block)
    ensures Blocks(false, block + rest) == [block] + Blocks(false, rest)
    ensures Rest(false, block + rest) == Rest(false, rest)
  {
    CheckAppend(false, block, rest);
    UnfoldBlock(false, block + rest, |block|);
    hide Check, Blocks, Rest;
    assert (block + rest)[..|block|] == block && (block + rest)[|block|..] == rest;
  }

  /** Blocks written one after the other come out as written, and the reader goes on behind them. */
  lemma {:induction false} WrittenComesOut(blocks: seq<seq<byte>>, rest: seq<byte>)
    requires forall k :: 0 <= k < |blocks| ==> Whole(blocks[k])
    ensures Blocks(false, Concat(blocks) + rest) == blocks + Blocks(false, rest)
    ensures Rest(false, Concat(blocks) + rest) == Rest(false, rest)
    decreases |blocks|
  {
    hide Whole, Blocks, Rest;
    if blocks == [] {
      assert Concat(blocks) + rest == rest;
    } else {
      var later := Concat(blocks[1..]) + rest;
      WrittenComesOut(blocks[1..], rest);
      WholeComesOut(blocks[0], later);
      assert Concat(blocks) + rest == blocks[0] + later;
      assert [blocks[0]] + (blocks[1..] + Blocks(false, rest)) == blocks + Blocks(false, rest);
    }
  }

  /** A reader that lost sync finds all blocks written after a sync byte: a resend starts with one. */
  lemma {:induction false} FoundAfterSync(junk: seq<byte>, blocks: seq<seq<byte>>, rest: seq<byte>)
    requires FindSync(junk) == |junk| && forall k :: 0 <= k < |blocks| ==> Whole(blocks[k])
    ensures Blocks(true, junk + [MESSAGE_SYNC] + Concat(blocks) + rest) == blocks + Blocks(false, rest)
  {
    hide Blocks, Rest, Whole;
    var tail := [MESSAGE_SYNC] + (Concat(blocks) + rest);
    var b := junk + tail;
    FindSyncAppend(junk, tail);
    BlocksAfterSync(b);
    WrittenComesOut(blocks, rest);
    assert b[|junk| + 1..] == Concat(blocks) + rest;
    assert junk + [MESSAGE_SYNC] + Concat(blocks) + rest == b;
  }

  // ---------------------------------------------------------------------------
  // The reader
  // ---------------------------------------------------------------------------

  /** Blocks handled when a stream arrives in the given chunks. */
  function BlocksInChunks(needSync: bool, buf: seq<byte>, chunks: seq<seq<byte>>): seq<seq<byte>>
    decreases |chunks|
  {
    if chunks == [] then []
    else
      var (sync, rest) := Rest(needSync, buf + chunks[0]);
      Blocks(needSync, buf + chunks[0]) + BlocksInChunks(sync, rest, chunks[1..])
  }

  /** The blocks handled depend only on the bytes received, not on how reads split them. */
  lemma {:induction false} ChunksDoNotMatter(needSync: bool, buf: seq<byte>, chunks: seq<seq<byte>>)
    requires Check(needSync, buf).NeedMore?
    ensures BlocksInChunks(needSync, buf, chunks) == Blocks(needSync, buf + Concat(chunks))
    decreases |chunks|
  {
    hide Blocks, Rest, Check;
    if chunks == [] {
      assert buf + Concat(chunks) == buf;
      NoBlockYet(needSync, buf);
    } else {
      var (sync, rest) := Rest(needSync, buf + chunks[0]);
      RestNeedsMore(needSync, buf + chunks[0]);
      ChunksDoNotMatter(sync, rest, chunks[1..]);
      BlocksAppend(needSync, buf + chunks[0], Concat(chunks[1..]));
      assert BlocksLater(needSync, buf + chunks[0], Concat(chunks[1..])) == Blocks(sync, rest + Concat(chunks[1..]));
      assert buf + Concat(chunks) == buf + chunks[0] + Concat(chunks[1..]);
    }
  }

  lemma {:induction false} NoBlockYet(needSync: bool, buf: seq<byte>)
    requires Check(needSync, buf).NeedMore?
    ensures Blocks(needSync, buf) == []
  {
  }

  lemma {:induction false} RestNeedsMore(needSync: bool, buf: seq<byte>)
    ensures Check(Rest(needSync, buf).0, Rest(needSync, buf).1).NeedMore?
    decreases |buf|
  {
    match Check(needSync, buf)
    case NeedMore =>
    case Block(len) => RestNeedsMore(needSync, buf[len..]);
    case Discard(len, sync) => RestNeedsMore(sync, buf[len..]);
  }

  class Reader {
    var inputBuf: seq<byte>
    var needSync: bool
    var bytesInvalid: nat
    /** Blocks passed on, in order. */
    var handled: seq<seq<byte>>

    ghost predicate Valid()
      reads this
    {
      Check(needSync, inputBuf).NeedMore?
    }

    constructor ()
      ensures Valid() && inputBuf == [] && !needSync && handled == [] && bytesInvalid == 0
    {
      inputBuf, needSync, bytesInvalid, handled := [], false, 0, [];
    }

    /** Data arrived: handle every complete block and discard what cannot start one. */
    method InputEvent(data: seq<byte>)
      requires Valid()
      modifies this
      ensures Valid() && |inputBuf| < MESSAGE_MAX
      ensures handled == old(handled) + Blocks(old(needSync), old(inputBuf) + data)
      ensures (needSync, inputBuf) == Rest(old(needSync), old(inputBuf) + data)
      ensures TotalLength(Blocks(old(needSync), old(inputBuf) + data)) + (bytesInvalid - old(bytesInvalid)) + |inputBuf|
           == old(|inputBuf|) + |data|
    {
      ghost var all := inputBuf + data;
      BytesAccounted(needSync, all);
      RestNeedsMore(needSync, all);
      inputBuf := inputBuf + data;
      while true
        invariant handled + Blocks(needSync, inputBuf) == old(handled) + Blocks(old(needSync), all)
        invariant Rest(needSync, inputBuf) == Rest(old(needSync), all)
        invariant bytesInvalid + Discarded(needSync, inputBuf) == old(bytesInvalid) + Discarded(old(needSync), all)
        decreases |inputBuf|
      {
        match Check(needSync, inputBuf)
        case NeedMore =>
          assert handled + [] == handled;
          break;
        case Block(len) =>
          assert handled + [inputBuf[..len]] + Blocks(needSync, inputBuf[len..])
              == handled + ([inputBuf[..len]] + Blocks(needSync, inputBuf[len..]));
          handled := handled + [inputBuf[..len]];
          inputBuf := inputBuf[len..];
        case Discard(len, sync) =>
          bytesInvalid := bytesInvalid + len;
          inputBuf, needSync := inputBuf[len..], sync;
      }
    }
  }
}
