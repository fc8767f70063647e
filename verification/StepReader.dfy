/**
 * The microcontroller's side of step messages: fields are read by position, in the widths the configuration
 * declares for them, and a stepper executes those that carry its object id.
 */
module StepReader {
  import opened MsgBlock
  import opened Origins
  import opened StepCompression
  import opened StepQueue
  import opened Transmission
  import opened Words

  // ---------------------------------------------------------------------------
  // Fields
  // ---------------------------------------------------------------------------

  /** The first n integers, and the bytes after them. */
  function Fields(n: nat, s: seq<byte>): Option<(seq<bv32>, seq<byte>)> {
    if n == 0 then Some(([], s))
    else if s == [] then None
    else
      var (v, rest) := ParseInt(s);
      match Fields(n - 1, rest)
      case Some((data, end)) => Some(([v] + data, end))
      case None => None
  }

  lemma {:induction false} FieldsEncoded(data: seq<bv32>, k: nat, rest: seq<byte>)
    requires k <= |data|
    ensures Fields(k, EncodeAll(data) + rest) == Some((data[..k], EncodeAll(data[k..]) + rest))
    decreases k
  {
    hide EncodeInt, ParseInt, EncodeAll;
    if k == 0 {
      assert data[0..] == data;
    } else {
      EncodeFront(data);
      var first, tail := EncodeInt(data[0]), EncodeAll(data[1..]);
      ParseEncoded(data[0], tail + rest);
      assert EncodeAll(data) + rest == first + (tail + rest);
      FieldsEncoded(data[1..], k - 1, rest);
      assert [data[0]] + data[1..][..k - 1] == data[..k] && data[1..][k - 1..] == data[k..];
    }
  }

  lemma {:induction false} AllFields(data: seq<bv32>, rest: seq<byte>)
    ensures Fields(|data|, EncodeAll(data) + rest) == Some((data, rest))
  {
    FieldsEncoded(data, |data|, rest);
    assert data[..|data|] == data && EncodeAll(data[|data|..]) + rest == rest;
  }

  /** The low 16 bits as an unsigned and as a signed number, and the low byte. */
  function Unsigned16(w: bv32): nat {
    WordValue(w) % 0x1_0000
  }

  function Signed16(w: bv32): int {
    var n := WordValue(w) % 0x1_0000;
    if n < 0x8000 then n else n - 0x1_0000
  }

  function Unsigned8(w: bv32): nat {
    WordValue(w) % 0x100
  }

  lemma WordReads(x: int)
    ensures 0 <= x < TWO32 ==> WordValue(Word32(x)) == x
    ensures 0 <= x < 0x1_0000 ==> Unsigned16(Word32(x)) == x
    ensures 0 <= x < 0x100 ==> Unsigned8(Word32(x)) == x
    ensures InInt16(x) ==> Signed16(Word32(x)) == x
  {
    hide WordOf, WordValue;
    WordOfValue(U32(x));
  }

  // ---------------------------------------------------------------------------
  // Instructions
  // ---------------------------------------------------------------------------

  /** What a message tells the stepper of an object id to do. */
  datatype Instruction = MakeSteps(oid: nat, move: StepMove) | SetDirection(oid: nat, pin: int)

  /** The instruction at the front of some bytes, and the bytes after it. */
  function ReadInstruction(s: seq<byte>, tags: Tags): Option<(Instruction, seq<byte>)> {
    match Fields(1, s)
    case None => None
    case Some((tag, _)) =>
      if |tag| == 1 && tag[0] == tags.queueStep then
        match Fields(5, s)
        case Some((f, rest)) =>
          if |f| != 5 then None else
            Some((MakeSteps(Unsigned8(f[1]), StepMove(WordValue(f[2]), Unsigned16(f[3]), Signed16(f[4]))), rest))
        case None => None
      else if |tag| == 1 && tag[0] == tags.setNextStepDir then
        match Fields(3, s)
        case Some((f, rest)) =>
          if |f| != 3 then None else Some((SetDirection(Unsigned8(f[1]), Unsigned8(f[2])), rest))
        case None => None
      else None
  }

  /** The object id fits its field, and the two messages have different tags. */
  predicate Readable(tags: Tags) {
    tags.oid < 0x100 && tags.queueStep != tags.setNextStepDir
  }

  /** What the host means a message to say. */
  function Meant(m: Message, oid: nat): Instruction {
    match m
    case QueueStep(move, _, _) => MakeSteps(oid, move)
    case SetNextStepDir(pin, _) => SetDirection(oid, pin)
  }

  /** A packed message reads as it was meant, whatever follows it. */
  lemma ReadsAsMeant(m: Message, tags: Tags, rest: seq<byte>)
    requires Sendable(m) && Readable(tags)
    ensures ReadInstruction(Packed(m, tags).body + rest, tags) == Some((Meant(m, tags.oid), rest))
  {
    hide Fields, EncodeAll, Word32, WordValue, Unsigned16, Signed16, Unsigned8;
    var data := Numbers(m, tags);
    FieldsEncoded(data, 1, rest);
    AllFields(data, rest);
    WordReads(tags.oid);
    match m
    case QueueStep(move, _, _) =>
      WordReads(move.interval);
      WordReads(move.count);
      WordReads(move.add);
    case SetNextStepDir(pin, _) =>
      WordReads(pin);
  }

  // ---------------------------------------------------------------------------
  // What a stepper executes
  // ---------------------------------------------------------------------------

  /** The message of an instruction: executing it takes no clocks. */
  function Executable(i: Instruction): Message {
    match i
    case MakeSteps(_, move) => QueueStep(move, 0, 0)
    case SetDirection(_, pin) => SetNextStepDir(pin, 0)
  }

  /** What one received message tells the stepper of an object id: nothing if it is another's. */
  function Obeyed(body: seq<byte>, tags: Tags): seq<Message> {
    match ReadInstruction(body, tags)
    case Some((i, _)) => if i.oid == tags.oid then [Executable(i)] else []
    case None => []
  }

  /** What the received messages tell it, in order. */
  function Received(msgs: seq<QueueMessage>, tags: Tags): seq<Message> {
    if msgs == [] then [] else Received(msgs[..|msgs| - 1], tags) + Obeyed(msgs[|msgs| - 1].body, tags)
  }

  /** Messages without the clocks they were scheduled by. */
  function Unscheduled(msgs: seq<Message>): (r: seq<Message>)
    ensures |r| == |msgs| && forall k :: 0 <= k < |r| ==> r[k] == Executable(Meant(msgs[k], 0))
  {
    if msgs == [] then [] else Unscheduled(msgs[..|msgs| - 1]) + [Executable(Meant(msgs[|msgs| - 1], 0))]
  }

  /** The scheduling clocks play no part in what is executed. */
  lemma {:induction false} ReplayUnscheduled(start: Mcu, msgs: seq<Message>)
    ensures Replay(start, Unscheduled(msgs)) == Replay(start, msgs)
    ensures McuAfter(start, Unscheduled(msgs)) == McuAfter(start, msgs)
  {
    hide CommandPulses, Reach, U32;
    if msgs != [] {
      var n := |msgs| - 1;
      ReplayUnscheduled(start, msgs[..n]);
      assert Unscheduled(msgs)[..n] == Unscheduled(msgs[..n]);
    }
  }

  /** One microcontroller: the steppers share the tags, and have different object ids. */
  ghost predicate OneDictionary(tags: seq<Tags>) {
    && (forall i :: 0 <= i < |tags| ==> Readable(tags[i]))
    && (forall i, j :: 0 <= i < |tags| && 0 <= j < |tags| ==>
          tags[i].queueStep == tags[j].queueStep && tags[i].setNextStepDir == tags[j].setNextStepDir)
    && (forall i, j :: 0 <= i < j < |tags| ==> tags[i].oid != tags[j].oid)
  }

  /** A stepper obeys its own messages and no others. */
  lemma ObeysOwn(m: Message, tags: seq<Tags>, i: nat, j: nat)
    requires Sendable(m) && OneDictionary(tags) && i < |tags| && j < |tags|
    ensures Obeyed(Packed(m, tags[j]).body, tags[i]) == if i == j then [Executable(Meant(m, 0))] else []
  {
    hide Packed, ReadInstruction, Sendable;
    var body := Packed(m, tags[j]).body;
    ReadsAsMeant(m, tags[j], []);
    assert body + [] == body;
    SameReading(body, tags[i], tags[j]);
  }

  /** Reading takes only the tags, not the object id. */
  lemma SameReading(s: seq<byte>, a: Tags, b: Tags)
    requires a.queueStep == b.queueStep && a.setNextStepDir == b.setNextStepDir
    ensures ReadInstruction(s, a) == ReadInstruction(s, b)
  {
    hide Fields, WordValue;
  }

  ghost predicate SameBodies(a: seq<QueueMessage>, b: seq<QueueMessage>) {
    |a| == |b| && forall k :: 0 <= k < |a| ==> a[k].body == b[k].body
  }

  /** Some messages are the first of one stepper's, packed. */
  ghost predicate FirstOf(mine: seq<QueueMessage>, msgs: seq<Message>, tags: Tags) {
    |mine| <= |msgs| && SameBodies(mine, PackedAll(msgs[..|mine|], tags))
  }

  lemma {:induction false} FirstOfFirst(mine: seq<QueueMessage>, m: QueueMessage, msgs: seq<Message>, tags: Tags)
    requires FirstOf(mine + [m], msgs, tags)
    ensures FirstOf(mine, msgs, tags) && m.body == Packed(msgs[|mine|], tags).body
  {
    hide Packed;
    var all := mine + [m];
    forall k | 0 <= k < |mine|
      ensures mine[k].body == PackedAll(msgs[..|mine|], tags)[k].body
    {
      assert all[k].body == PackedAll(msgs[..|all|], tags)[k].body;
    }
    assert all[|mine|].body == PackedAll(msgs[..|all|], tags)[|mine|].body;
  }

  /** Every message is one of the steppers', and each stepper's are the first it emitted. */
  ghost predicate Shares(left: seq<QueueMessage>, origin: seq<nat>, msgs: seq<seq<Message>>, tags: seq<Tags>) {
    && |left| == |origin| && |msgs| == |tags|
    && (forall k :: 0 <= k < |origin| ==> origin[k] < |msgs|)
    && (forall j :: 0 <= j < |msgs| ==> FirstOf(From(left, origin, j), msgs[j], tags[j]))
  }

  lemma {:induction false} SharesFirst(left: seq<QueueMessage>, origin: seq<nat>, msgs: seq<seq<Message>>,
                                       tags: seq<Tags>)
    requires Shares(left, origin, msgs, tags) && left != []
    ensures var n := |left| - 1;
            Shares(left[..n], origin[..n], msgs, tags) &&
            var k := |From(left[..n], origin[..n], origin[n])|;
            k < |msgs[origin[n]]| && left[n].body == Packed(msgs[origin[n]][k], tags[origin[n]]).body
  {
    hide FirstOf, Packed;
    var n := |left| - 1;
    forall j | 0 <= j < |msgs|
      ensures FirstOf(From(left[..n], origin[..n], j), msgs[j], tags[j])
    {
      assert FirstOf(From(left, origin, j), msgs[j], tags[j]);
      if origin[n] == j {
        FirstOfFirst(From(left[..n], origin[..n], j), left[n], msgs[j], tags[j]);
      } else {
        assert From(left, origin, j) == From(left[..n], origin[..n], j);
      }
    }
    LastIsNext(left, origin, msgs, tags);
  }

  lemma LastIsNext(left: seq<QueueMessage>, origin: seq<nat>, msgs: seq<seq<Message>>, tags: seq<Tags>)
    requires Shares(left, origin, msgs, tags) && left != []
    ensures var n := |left| - 1;
            var k := |From(left[..n], origin[..n], origin[n])|;
            k < |msgs[origin[n]]| && left[n].body == Packed(msgs[origin[n]][k], tags[origin[n]]).body
  {
    hide Packed;
    var n := |left| - 1;
    var j := origin[n];
    assert FirstOf(From(left, origin, j), msgs[j], tags[j]);
    FirstOfFirst(From(left[..n], origin[..n], j), left[n], msgs[j], tags[j]);
  }

  /** What a stepper is told by the messages of all is what it emitted, as far as they go. */
  lemma {:induction false} ReceivedOwn(left: seq<QueueMessage>, origin: seq<nat>, msgs: seq<seq<Message>>,
                                       tags: seq<Tags>, i: nat)
    requires Shares(left, origin, msgs, tags) && OneDictionary(tags) && i < |msgs|
    requires forall j :: 0 <= j < |msgs| ==> AllSendable(msgs[j])
    ensures var n := |From(left, origin, i)|;
            n <= |msgs[i]| && Received(left, tags[i]) == Unscheduled(msgs[i][..n])
    decreases |left|
  {
    hide Obeyed, Packed, FirstOf, OneDictionary, Sendable, Executable, Meant;
    assert FirstOf(From(left, origin, i), msgs[i], tags[i]);
    FirstWithin(From(left, origin, i), msgs[i], tags[i]);
    if left == [] {
      assert msgs[i][..0] == [];
    } else {
      var n := |left| - 1;
      var j := origin[n];
      var k := |From(left[..n], origin[..n], j)|;
      SharesFirst(left, origin, msgs, tags);
      ReceivedOwn(left[..n], origin[..n], msgs, tags, i);
      assert AllSendable(msgs[j]);
      ObeysOwn(msgs[j][k], tags, i, j);
      if i == j { UnscheduledNext(msgs[i], k); }
    }
  }

  lemma FirstWithin(mine: seq<QueueMessage>, msgs: seq<Message>, tags: Tags)
    requires FirstOf(mine, msgs, tags)
    ensures |mine| <= |msgs|
  {
  }

  lemma {:induction false} UnscheduledNext(msgs: seq<Message>, k: nat)
    requires k < |msgs|
    ensures Unscheduled(msgs[..k + 1]) == Unscheduled(msgs[..k]) + [Executable(Meant(msgs[k], 0))]
  {
    hide Executable, Meant;
    assert msgs[..k + 1][..k] == msgs[..k];
  }
}
