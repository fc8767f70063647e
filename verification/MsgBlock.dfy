/**
 * Message blocks: the CRC, the check for a well formed block at the start of a buffer, and
 * the variable length quantity (VLQ) encoding of integers.
 */
module MsgBlock {
  type byte = bv8

  const MESSAGE_MIN: nat := 5
  const MESSAGE_MAX: nat := 64
  const MESSAGE_HEADER_SIZE: nat := 2
  const MESSAGE_TRAILER_SIZE: nat := 3
  const MESSAGE_PAYLOAD_MAX: nat := 59
  const MESSAGE_DEST: byte := 0x10
  const MESSAGE_SYNC: byte := 0x7E

  /** A message on a command queue, with the clocks it is scheduled by. */
  datatype QueueMessage = QueueMessage(body: seq<byte>, minClock: nat, reqClock: nat)

  datatype Option<T> = None | Some(value: T)

  // ---------------------------------------------------------------------------
  // Bytes as numbers, bit by bit
  // ---------------------------------------------------------------------------

  /** A bit as a binary digit, and a digit as a bit. */
  function DigitOf(b: byte, bit: byte): nat {
    if b & bit != 0 then 1 else 0
  }

  function BitOf(digit: nat, bit: byte): byte {
    if digit == 0 then 0 else bit
  }

  /** The unsigned value of a byte. */
  function ByteValue(b: byte): nat {
    DigitOf(b, 0x01) + 2 * DigitOf(b, 0x02) + 4 * DigitOf(b, 0x04) + 8 * DigitOf(b, 0x08) +
    16 * DigitOf(b, 0x10) + 32 * DigitOf(b, 0x20) + 64 * DigitOf(b, 0x40) + 128 * DigitOf(b, 0x80)
  }

  function FromDigits(d0: nat, d1: nat, d2: nat, d3: nat, d4: nat, d5: nat, d6: nat, d7: nat): byte {
    BitOf(d0, 0x01) | BitOf(d1, 0x02) | BitOf(d2, 0x04) | BitOf(d3, 0x08) |
    BitOf(d4, 0x10) | BitOf(d5, 0x20) | BitOf(d6, 0x40) | BitOf(d7, 0x80)
  }

  /** The leading binary digit of n, of weight w, and what is left without it. */
  function Lead(n: nat, w: nat): nat {
    if n >= w then 1 else 0
  }

  function Less(n: nat, w: nat): nat {
    if n >= w then n - w else n
  }

  /** The byte with a given value. */
  function ByteOf(n: nat): byte
    requires n < 256
  {
    var n7 := Less(n, 128);
    var n6 := Less(n7, 64);
    var n5 := Less(n6, 32);
    var n4 := Less(n5, 16);
    var n3 := Less(n4, 8);
    var n2 := Less(n3, 4);
    FromDigits(Less(n2, 2), Lead(n2, 2), Lead(n3, 4), Lead(n4, 8), Lead(n5, 16), Lead(n6, 32), Lead(n7, 64),
      Lead(n, 128))
  }

  lemma DigitsRead(d0: nat, d1: nat, d2: nat, d3: nat, d4: nat, d5: nat, d6: nat, d7: nat)
    requires d0 < 2 && d1 < 2 && d2 < 2 && d3 < 2 && d4 < 2 && d5 < 2 && d6 < 2 && d7 < 2
    ensures ByteValue(FromDigits(d0, d1, d2, d3, d4, d5, d6, d7)) ==
              d0 + 2 * d1 + 4 * d2 + 8 * d3 + 16 * d4 + 32 * d5 + 64 * d6 + 128 * d7
  {
    DigitsSeparate(d0, d1, d2, d3, d4, d5, d6, d7);
    hide FromDigits, DigitOf;
  }

  lemma DigitsSeparate(d0: nat, d1: nat, d2: nat, d3: nat, d4: nat, d5: nat, d6: nat, d7: nat)
    requires d0 < 2 && d1 < 2 && d2 < 2 && d3 < 2 && d4 < 2 && d5 < 2 && d6 < 2 && d7 < 2
    ensures var b := FromDigits(d0, d1, d2, d3, d4, d5, d6, d7);
            && DigitOf(b, 0x01) == d0 && DigitOf(b, 0x02) == d1 && DigitOf(b, 0x04) == d2 && DigitOf(b, 0x08) == d3
            && DigitOf(b, 0x10) == d4 && DigitOf(b, 0x20) == d5 && DigitOf(b, 0x40) == d6 && DigitOf(b, 0x80) == d7
  {
  }

  lemma LeadTaken(n: nat, w: nat)
    requires n < w + w
    ensures w * Lead(n, w) + Less(n, w) == n && Less(n, w) < w && Lead(n, w) < 2
  {
  }

  lemma ByteOfValue(n: nat)
    requires n < 256
    ensures ByteValue(ByteOf(n)) == n
  {
    var n7 := Less(n, 128);
    var n6 := Less(n7, 64);
    var n5 := Less(n6, 32);
    var n4 := Less(n5, 16);
    var n3 := Less(n4, 8);
    var n2 := Less(n3, 4);
    hide FromDigits, ByteValue, Less, Lead;
    LeadTaken(n, 128);
    LeadTaken(n7, 64);
    LeadTaken(n6, 32);
    LeadTaken(n5, 16);
    LeadTaken(n4, 8);
    LeadTaken(n3, 4);
    LeadTaken(n2, 2);
    DigitsRead(Less(n2, 2), Lead(n2, 2), Lead(n3, 4), Lead(n4, 8), Lead(n5, 16), Lead(n6, 32), Lead(n7, 64),
      Lead(n, 128));
  }

  // ---------------------------------------------------------------------------
  // 32-bit words as numbers, byte by byte
  // ---------------------------------------------------------------------------

  /** The word of four bytes, high byte first, and its bytes. */
  function FourBytes(b3: byte, b2: byte, b1: byte, b0: byte): bv32 {
    ((b3 as bv32) << 24) | ((b2 as bv32) << 16) | ((b1 as bv32) << 8) | (b0 as bv32)
  }

  function Byte3(w: bv32): byte {
    (w >> 24) as bv8
  }

  function Byte2(w: bv32): byte {
    ((w >> 16) & 0xff) as bv8
  }

  function Byte1(w: bv32): byte {
    ((w >> 8) & 0xff) as bv8
  }

  function Byte0(w: bv32): byte {
    (w & 0xff) as bv8
  }

  lemma BytesSeparate(b3: byte, b2: byte, b1: byte, b0: byte)
    ensures var w := FourBytes(b3, b2, b1, b0); Byte3(w) == b3 && Byte2(w) == b2 && Byte1(w) == b1 && Byte0(w) == b0
  {
  }

  /** The word with a given value. */
  function WordOf(n: nat): bv32
    requires n < 0x1_0000_0000
  {
    var q1 := n / 0x100;
    var q2 := q1 / 0x100;
    FourBytes(ByteOf(q2 / 0x100), ByteOf(q2 % 0x100), ByteOf(q1 % 0x100), ByteOf(n % 0x100))
  }

  /** The unsigned value of a word. */
  function WordValue(w: bv32): nat {
    0x100_0000 * ByteValue(Byte3(w)) + 0x1_0000 * ByteValue(Byte2(w)) + 0x100 * ByteValue(Byte1(w)) +
    ByteValue(Byte0(w))
  }

  lemma WordOfValue(n: nat)
    requires n < 0x1_0000_0000
    ensures WordValue(WordOf(n)) == n
  {
    hide ByteOf, ByteValue, FourBytes, Byte3, Byte2, Byte1, Byte0;
    var q1 := n / 0x100;
    var q2 := q1 / 0x100;
    BytesSeparate(ByteOf(q2 / 0x100), ByteOf(q2 % 0x100), ByteOf(q1 % 0x100), ByteOf(n % 0x100));
    ByteOfValue(q2 / 0x100);
    ByteOfValue(q2 % 0x100);
    ByteOfValue(q1 % 0x100);
    ByteOfValue(n % 0x100);
  }

  // ---------------------------------------------------------------------------
  // CRC
  // ---------------------------------------------------------------------------

  function LowByte(crc: bv16): byte {
    (crc & 0xff) as bv8
  }

  /** A data byte mixed with the low byte of the CRC. */
  function Mix(low: byte, b: byte): byte {
    var d := b ^ low;
    d ^ (d << 4)
  }

  /** One byte of the "ccitt" CRC. */
  function CrcStep(crc: bv16, b: byte): bv16 {
    var w := Mix(LowByte(crc), b) as bv16;
    ((w << 8) | (crc >> 8)) ^ (w >> 4) ^ (w << 3)
  }

  function Crc(buf: seq<byte>): bv16 {
    if buf == [] then 0xffff else CrcStep(Crc(buf[..|buf| - 1]), buf[|buf| - 1])
  }

  method Crc16Ccitt(buf: seq<byte>) returns (crc: bv16)
    ensures crc == Crc(buf) == Remainder(buf)
  {
    crc := 0xffff;
    for i := 0 to |buf|
      invariant crc == Crc(buf[..i])
    {
      assert buf[..i + 1][..i] == buf[..i];
      crc := CrcStep(crc, buf[i]);
    }
    assert buf[..|buf|] == buf;
    CrcIsRemainder(buf);
  }

  // ---------------------------------------------------------------------------
  // The CRC as a polynomial remainder
  // ---------------------------------------------------------------------------

  /** One bit of division by x^16 + x^12 + x^5 + 1, low bit first. */
  function Divide(r: bv16): bv16 {
    if r & 1 == 1 then (r >> 1) ^ 0x8408 else r >> 1
  }

  /** A byte joins the dividend, and its eight bits are divided out. */
  function DivideByte(r: bv16, b: byte): bv16 {
    var r4 := Divide(Divide(Divide(Divide(r ^ (b as bv16)))));
    Divide(Divide(Divide(Divide(r4))))
  }

  /** The remainder of a buffer, from a register of ones. */
  function Remainder(buf: seq<byte>): bv16 {
    if buf == [] then 0xffff else DivideByte(Remainder(buf[..|buf| - 1]), buf[|buf| - 1])
  }

  /** The division of several bits at once. */
  function OneBit(r: bv16): bv16 {
    var w := r & 0x1;
    (r >> 1) ^ (w << 15) ^ (w << 10) ^ (w << 3)
  }

  function TwoBits(r: bv16): bv16 {
    var w := r & 0x3;
    (r >> 2) ^ (w << 14) ^ (w << 9) ^ (w << 2)
  }

  function FourBits(r: bv16): bv16 {
    var w := r & 0xf;
    (r >> 4) ^ (w << 12) ^ (w << 7) ^ w
  }

  function SixBits(r: bv16): bv16 {
    var w := (r ^ (r << 4)) & 0x3f;
    (r >> 6) ^ (w << 10) ^ (w << 5) ^ (w >> 2)
  }

  function SevenBits(r: bv16): bv16 {
    var w := (r ^ (r << 4)) & 0x7f;
    (r >> 7) ^ (w << 9) ^ (w << 4) ^ (w >> 3)
  }

  function EightBits(r: bv16): bv16 {
    Spread(Fold(r), r >> 8)
  }

  /** The byte divided out, with what of its low half comes round again. */
  function Fold(r: bv16): bv16 {
    (r ^ (r << 4)) & 0xff
  }

  function Spread(w: bv16, high: bv16): bv16 {
    high ^ (w << 8) ^ (w << 3) ^ (w >> 4)
  }

  lemma OddOrEven(r: bv16)
    ensures r & 1 == 0 || r & 1 == 1
  {
  }

  lemma OddBit(r: bv16, w: bv16)
    requires w == 1
    ensures (r >> 1) ^ (w << 15) ^ (w << 10) ^ (w << 3) == (r >> 1) ^ 0x8408
  {
  }

  lemma EvenBit(r: bv16, w: bv16)
    requires w == 0
    ensures (r >> 1) ^ (w << 15) ^ (w << 10) ^ (w << 3) == r >> 1
  {
  }

  lemma DividesOne(r: bv16)
    ensures Divide(r) == OneBit(r)
  {
    OddOrEven(r);
    if r & 1 == 1 { OddBit(r, r & 1); } else { EvenBit(r, r & 1); }
  }

  lemma TwoFromOne(r: bv16)
    ensures OneBit(OneBit(r)) == TwoBits(r)
  {
  }

  lemma FourFromTwo(r: bv16)
    ensures TwoBits(TwoBits(r)) == FourBits(r)
  {
  }

  lemma EightFromFour(r: bv16)
    ensures FourBits(FourBits(r)) == EightBits(r)
  {
    hide *;
    FourFromTwo(FourBits(r));
    SixFromFour(r);
    TwoFromOne(SixBits(r));
    SevenFromSix(r);
    EightFromSeven(r);
  }

  lemma SixFromFour(r: bv16)
    ensures TwoBits(FourBits(r)) == SixBits(r)
  {
  }

  lemma SevenFromSix(r: bv16)
    ensures OneBit(SixBits(r)) == SevenBits(r)
  {
  }

  lemma EightFromSeven(r: bv16)
    ensures OneBit(SevenBits(r)) == EightBits(r)
  {
    LastBit(r);
    hide OneBit, SevenBits, Spread;
  }

  lemma LastBit(r: bv16)
    ensures OneBit(SevenBits(r)) == Spread((r ^ (r << 4)) & 0xff, r >> 8)
  {
  }

  lemma DividesFour(r: bv16)
    ensures Divide(Divide(Divide(Divide(r)))) == FourBits(r)
  {
    hide *;
    DividesOne(r);
    DividesOne(OneBit(r));
    DividesOne(TwoBits(r));
    DividesOne(OneBit(TwoBits(r)));
    TwoFromOne(r);
    TwoFromOne(TwoBits(r));
    FourFromTwo(r);
  }

  lemma StepIsEightBits(r: bv16, b: byte)
    ensures CrcStep(r, b) == EightBits(r ^ (b as bv16))
  {
    MixedByte(r, b);
    HighByteKept(r, b);
    StepSpreads(r, b);
    hide Mix, LowByte, Fold, Spread, CrcStep;
  }

  lemma MixedByte(r: bv16, b: byte)
    ensures Mix(LowByte(r), b) as bv16 == Fold(r ^ (b as bv16))
  {
  }

  lemma HighByteKept(r: bv16, b: byte)
    ensures (r ^ (b as bv16)) >> 8 == r >> 8
  {
  }

  lemma StepSpreads(r: bv16, b: byte)
    ensures CrcStep(r, b) == Spread(Mix(LowByte(r), b) as bv16, r >> 8)
  {
    hide Mix, LowByte;
  }

  lemma StepDivides(r: bv16, b: byte)
    ensures CrcStep(r, b) == DivideByte(r, b)
  {
    hide Divide, FourBits, EightBits, CrcStep;
    var x := r ^ (b as bv16);
    DividesFour(x);
    DividesFour(FourBits(x));
    EightFromFour(x);
    StepIsEightBits(r, b);
  }

  /** The bytewise CRC is the remainder of that division. */
  lemma {:induction false} CrcIsRemainder(buf: seq<byte>)
    ensures Crc(buf) == Remainder(buf)
  {
    hide CrcStep, DivideByte;
    if buf != [] {
      var n := |buf| - 1;
      CrcIsRemainder(buf[..n]);
      StepDivides(Crc(buf[..n]), buf[n]);
    }
  }

  // ---------------------------------------------------------------------------
  // What the CRC detects
  // ---------------------------------------------------------------------------

  /** The mixed byte can be read off the new CRC. */
  function Unspread(crc: bv16): byte {
    var h := (crc >> 8) as bv8;
    h ^ (h >> 5)
  }

  lemma UnspreadStep(crc: bv16, b: byte)
    ensures Unspread(CrcStep(crc, b)) == Mix(LowByte(crc), b)
  {
  }

  function XorByte(a: byte, b: byte): byte {
    a ^ b
  }

  function High(crc: bv16): bv16 {
    crc >> 8
  }

  function Join(high: bv16, low: byte): bv16 {
    (high << 8) | (low as bv16)
  }

  /** What a mixed byte leaves of a new CRC. */
  function Residue(crc: bv16, mixed: byte): bv16 {
    var w := mixed as bv16;
    crc ^ (w << 8) ^ (w >> 4) ^ (w << 3)
  }

  lemma Unmix(low: byte, b: byte)
    ensures Mix(0, Mix(low, b)) == XorByte(b, low)
  {
  }

  lemma ResidueIsHigh(crc: bv16, b: byte)
    ensures Residue(CrcStep(crc, b), Mix(LowByte(crc), b)) == High(crc)
  {
  }

  lemma JoinHalves(crc: bv16)
    ensures Join(High(crc), LowByte(crc)) == crc
  {
  }

  lemma XorTwice(a: byte, b: byte)
    ensures XorByte(XorByte(a, b), b) == a && XorByte(XorByte(a, b), a) == b
  {
  }

  /** From one state, different bytes lead to different states; from different states, one byte does. */
  lemma CrcStepInjective(c: bv16, d: bv16, a: byte, b: byte)
    requires CrcStep(c, a) == CrcStep(d, b)
    ensures c == d ==> a == b
    ensures a == b ==> c == d
  {
    hide *;
    UnspreadStep(c, a);
    UnspreadStep(d, b);
    Unmix(LowByte(c), a);
    Unmix(LowByte(d), b);
    ResidueIsHigh(c, a);
    ResidueIsHigh(d, b);
    XorTwice(a, LowByte(c));
    XorTwice(b, LowByte(d));
    JoinHalves(c);
    JoinHalves(d);
  }

  /** Changing one byte always changes the CRC. */
  lemma {:induction false} CrcDetects(buf: seq<byte>, i: nat, b: byte)
    requires i < |buf| && b != buf[i]
    ensures Crc(buf[i := b]) != Crc(buf)
  {
    var n, changed := |buf| - 1, buf[i := b];
    if i == n {
      assert changed[..n] == buf[..n];
      if Crc(changed) == Crc(buf) { CrcStepInjective(Crc(buf[..n]), Crc(buf[..n]), buf[n], b); }
    } else {
      CrcDetects(buf[..n], i, b);
      assert changed[..n] == buf[..n][i := b];
      if Crc(changed) == Crc(buf) { CrcStepInjective(Crc(buf[..n]), Crc(changed[..n]), buf[n], buf[n]); }
    }
  }

  // ---------------------------------------------------------------------------
  // Checking a buffer
  // ---------------------------------------------------------------------------

  /** Need more data; a valid block of len bytes; or len bytes to discard. */
  datatype Verdict = NeedMore | Block(len: nat) | Discard(len: nat, needSync: bool)

  /** Index of the first sync byte, or the length when there is none. */
  function FindSync(buf: seq<byte>): (i: nat)
    ensures i <= |buf|
    ensures i < |buf| ==> buf[i] == MESSAGE_SYNC
    ensures forall j :: 0 <= j < i ==> buf[j] != MESSAGE_SYNC
  {
    if buf == [] || buf[0] == MESSAGE_SYNC then 0 else 1 + FindSync(buf[1..])
  }

  /** Discard through the next sync byte, or everything. */
  function Resync(buf: seq<byte>): (v: Verdict)
    requires |buf| > 0
    ensures v.Discard? && 0 < v.len <= |buf|
  {
    var i := FindSync(buf);
    if i < |buf| then Discard(i + 1, false) else Discard(|buf|, true)
  }

  /** Two bytes as a 16-bit value, high byte first. */
  function Word(hi: byte, lo: byte): bv16 {
    ((hi as bv16) << 8) | (lo as bv16)
  }

  /** Does a whole block of msgLen bytes, starting the buffer, have a good trailer? */
  predicate TrailerOk(buf: seq<byte>, msgLen: nat)
    requires MESSAGE_MIN <= msgLen <= |buf|
  {
    && buf[msgLen - 1] == MESSAGE_SYNC
    && Crc(buf[..msgLen - 3]) == Word(buf[msgLen - 3], buf[msgLen - 2])
  }

  predicate HeaderOk(buf: seq<byte>)
    requires |buf| >= MESSAGE_MIN
  {
    MESSAGE_MIN <= ByteValue(buf[0]) <= MESSAGE_MAX && buf[1] & 0xf0 == MESSAGE_DEST
  }

  /** Verify that a buffer starts with a valid block. */
  function Check(needSync: bool, buf: seq<byte>): (v: Verdict)
    ensures v.NeedMore? ==> |buf| < MESSAGE_MAX
    ensures v.Block? ==> MESSAGE_MIN <= v.len <= MESSAGE_MAX && v.len <= |buf|
    ensures v.Discard? ==> 0 < v.len <= |buf|
  {
    if |buf| < MESSAGE_MIN then NeedMore
    else if needSync || !HeaderOk(buf) then Resync(buf)
    else
      var msgLen := ByteValue(buf[0]);
      if |buf| < msgLen then NeedMore
      else if !TrailerOk(buf, msgLen) then Resync(buf)
      else Block(msgLen)
  }

  // ---------------------------------------------------------------------------
  // Framing a payload
  // ---------------------------------------------------------------------------

  /** The header and covered bytes of a block. */
  function Covered(seqNum: bv8, payload: seq<byte>): seq<byte>
    requires |payload| <= MESSAGE_PAYLOAD_MAX
  {
    [ByteOf(|payload| + MESSAGE_MIN), MESSAGE_DEST | (seqNum & 0x0f)] + payload
  }

  /** The block built around a payload. */
  function Frame(seqNum: bv8, payload: seq<byte>): (block: seq<byte>)
    requires |payload| <= MESSAGE_PAYLOAD_MAX
    ensures |block| == |payload| + MESSAGE_MIN
  {
    var covered := Covered(seqNum, payload);
    covered + [(Crc(covered) >> 8) as byte, LowByte(Crc(covered)), MESSAGE_SYNC]
  }

  lemma CrcBytes(crc: bv16)
    ensures Word((crc >> 8) as bv8, LowByte(crc)) == crc
  {
  }

  lemma SeqByte(seqNum: bv8)
    ensures (MESSAGE_DEST | (seqNum & 0x0f)) & 0xf0 == MESSAGE_DEST
    ensures (MESSAGE_DEST | (seqNum & 0x0f)) & 0x0f == seqNum & 0x0f
  {
  }

  lemma FrameHeader(seqNum: bv8, payload: seq<byte>, rest: seq<byte>)
    requires |payload| <= MESSAGE_PAYLOAD_MAX
    ensures var buf := Frame(seqNum, payload) + rest;
            HeaderOk(buf) && ByteValue(buf[0]) == |payload| + MESSAGE_MIN
  {
    hide ByteOf, ByteValue, Crc, Word, LowByte;
    ByteOfValue(|payload| + MESSAGE_MIN);
    SeqByte(seqNum);
    var buf := Frame(seqNum, payload) + rest;
    assert buf[0] == ByteOf(|payload| + MESSAGE_MIN) && buf[1] == MESSAGE_DEST | (seqNum & 0x0f);
  }

  lemma FrameTrailer(seqNum: bv8, payload: seq<byte>, rest: seq<byte>)
    requires |payload| <= MESSAGE_PAYLOAD_MAX
    ensures TrailerOk(Frame(seqNum, payload) + rest, |payload| + MESSAGE_MIN)
  {
    hide ByteOf, Crc;
    var covered, buf := Covered(seqNum, payload), Frame(seqNum, payload) + rest;
    CrcBytes(Crc(covered));
    hide Word, LowByte;
    assert buf[..|payload| + 2] == covered;
  }

  /** A framed payload passes the check at its full length, whatever follows it. */
  lemma FrameChecks(seqNum: bv8, payload: seq<byte>, rest: seq<byte>)
    requires |payload| <= MESSAGE_PAYLOAD_MAX
    ensures Check(false, Frame(seqNum, payload) + rest) == Block(|payload| + MESSAGE_MIN)
  {
    FrameHeader(seqNum, payload, rest);
    FrameTrailer(seqNum, payload, rest);
    hide Frame, HeaderOk, TrailerOk, ByteValue;
  }

  /** Changing any one byte after the length byte spoils the trailer check. */
  lemma TrailerDetects(block: seq<byte>, i: nat, b: byte)
    requires |block| >= MESSAGE_MIN && TrailerOk(block, |block|)
    requires 1 <= i < |block| && b != block[i]
    ensures !TrailerOk(block[i := b], |block|)
  {
    var n, bad := |block|, block[i := b];
    if i < n - 3 {
      assert bad[..n - 3] == block[..n - 3][i := b];
      CrcDetects(block[..n - 3], i, b);
    } else if i < n - 1 {
      assert bad[..n - 3] == block[..n - 3];
      CrcBytesDiffer(block[n - 3], block[n - 2], bad[n - 3], bad[n - 2]);
    }
  }

  /** Changing any one byte of a block, other than its length byte, makes the check reject it. */
  lemma CorruptionRejected(block: seq<byte>, i: nat, b: byte)
    requires Check(false, block) == Block(|block|)
    requires 1 <= i < |block| && b != block[i]
    ensures Check(false, block[i := b]).Discard?
  {
    TrailerDetects(block, i, b);
    hide TrailerOk;
    assert block[i := b][0] == block[0];
  }

  lemma CrcBytesDiffer(a: byte, b: byte, c: byte, d: byte)
    requires a != c || b != d
    ensures Word(a, b) != Word(c, d)
  {
  }

  // ---------------------------------------------------------------------------
  // Variable length quantities
  // ---------------------------------------------------------------------------

  /** Is v, read as a signed number, at least -lo and below hi? */
  predicate InRange(v: bv32, lo: bv32, hi: bv32) {
    v + lo < hi + lo
  }

  /** Low seven bits, marked as continued. */
  function More(v: bv32): byte {
    ((v & 0x7f) | 0x80) as bv8
  }

  function Last(v: bv32): byte {
    (v & 0x7f) as bv8
  }

  function EncodeInt(v: bv32): (s: seq<byte>)
    ensures 1 <= |s| <= 5
  {
    if InRange(v, 0x20, 0x60) then [Last(v)]
    else if InRange(v, 0x1000, 0x3000) then [More(v >> 7), Last(v)]
    else if InRange(v, 0x8_0000, 0x18_0000) then [More(v >> 14), More(v >> 7), Last(v)]
    else if InRange(v, 0x400_0000, 0xc00_0000) then [More(v >> 21), More(v >> 14), More(v >> 7), Last(v)]
    else [((v >> 28) | 0x80) as bv8, More(v >> 21), More(v >> 14), More(v >> 7), Last(v)]
  }

  /** The value so far, extended by seven bits. */
  function Shifted(v: bv32, c: byte): bv32 {
    (v << 7) | ((c & 0x7f) as bv32)
  }

  /** The first byte's value: sign extended when its top two value bits are set. */
  function Leading(c: byte): bv32 {
    var v := (c & 0x7f) as bv32;
    if c & 0x60 == 0x60 then v | 0xffffffe0 else v
  }

  /** Continue parsing after byte c. */
  function ParseMore(v: bv32, c: byte, s: seq<byte>): (bv32, seq<byte>)
    decreases |s|
  {
    if c & 0x80 == 0 || s == [] then (v, s) else ParseMore(Shifted(v, s[0]), s[0], s[1..])
  }

  /** Parse one integer from the front of a sequence. */
  function ParseInt(s: seq<byte>): (bv32, seq<byte>)
    requires s != []
  {
    ParseMore(Leading(s[0]), s[0], s[1..])
  }

  lemma Bits1(v: bv32)
    requires InRange(v, 0x20, 0x60)
    ensures Last(v) & 0x80 == 0 && Leading(Last(v)) == v
  {
  }

  lemma Bits2(v: bv32)
    requires InRange(v, 0x1000, 0x3000)
    ensures Shifted(Leading(More(v >> 7)), Last(v)) == v
  {
  }

  lemma Bits3(v: bv32)
    requires InRange(v, 0x8_0000, 0x18_0000)
    ensures Shifted(Shifted(Leading(More(v >> 14)), More(v >> 7)), Last(v)) == v
  {
  }

  lemma Bits4(v: bv32)
    requires InRange(v, 0x400_0000, 0xc00_0000)
    ensures Shifted(Shifted(Shifted(Leading(More(v >> 21)), More(v >> 14)), More(v >> 7)), Last(v)) == v
  {
  }

  lemma Bits5(v: bv32)
    ensures var top := Shifted(Leading(((v >> 28) | 0x80) as bv8), More(v >> 21));
            Shifted(Shifted(Shifted(top, More(v >> 14)), More(v >> 7)), Last(v)) == v
  {
  }

  lemma Marks(v: bv32)
    ensures More(v) & 0x80 != 0 && Last(v) & 0x80 == 0 && (((v >> 28) | 0x80) as bv8) & 0x80 != 0
  {
  }

  /** Continue parsing through k bytes that are all marked as continued but the last. */
  function Folded(v: bv32, s: seq<byte>): bv32
    decreases |s|
  {
    if s == [] then v else Folded(Shifted(v, s[0]), s[1..])
  }

  ghost predicate Continues(c: byte, s: seq<byte>)
    decreases |s|
  {
    if s == [] then c & 0x80 == 0 else c & 0x80 != 0 && Continues(s[0], s[1..])
  }

  lemma {:induction false} ParseFolds(v: bv32, c: byte, s: seq<byte>, rest: seq<byte>)
    requires Continues(c, s)
    ensures ParseMore(v, c, s + rest) == (Folded(v, s), rest)
    decreases |s|
  {
    if s == [] {
      assert s + rest == rest;
    } else {
      ParseFolds(Shifted(v, s[0]), s[0], s[1..], rest);
      assert (s + rest)[1..] == s[1..] + rest;
    }
  }

  /** The bytes of an encoded integer are marked right and fold back to it. */
  lemma EncodedFolds(v: bv32)
    ensures var s := EncodeInt(v); Continues(s[0], s[1..]) && Folded(Leading(s[0]), s[1..]) == v
  {
    Marks(v);
    Marks(v >> 7);
    Marks(v >> 14);
    Marks(v >> 21);
    var l, m1, m2, m3, m4 := Last(v), More(v >> 7), More(v >> 14), More(v >> 21), ((v >> 28) | 0x80) as bv8;
    if InRange(v, 0x20, 0x60) {
      Bits1(v);
    } else if InRange(v, 0x1000, 0x3000) {
      Bits2(v);
      Fold1(m1, l);
    } else if InRange(v, 0x8_0000, 0x18_0000) {
      Bits3(v);
      Fold2(m2, m1, l);
    } else if InRange(v, 0x400_0000, 0xc00_0000) {
      Bits4(v);
      Fold3(m3, m2, m1, l);
    } else {
      Bits5(v);
      Fold4(m4, m3, m2, m1, l);
    }
  }

  predicate Marked(c: byte) {
    c & 0x80 != 0
  }

  lemma {:induction false} Fold1(a: byte, l: byte)
    requires Marked(a) && !Marked(l)
    ensures Continues(a, [l])
    ensures forall v :: Folded(v, [l]) == Shifted(v, l)
  {
    assert [l][1..] == [];
  }

  lemma {:induction false} Fold2(a: byte, b: byte, l: byte)
    requires Marked(a) && Marked(b) && !Marked(l)
    ensures Continues(a, [b, l])
    ensures forall v :: Folded(v, [b, l]) == Shifted(Shifted(v, b), l)
  {
    Fold1(b, l);
    assert [b, l][1..] == [l];
  }

  lemma {:induction false} Fold3(a: byte, b: byte, c: byte, l: byte)
    requires Marked(a) && Marked(b) && Marked(c) && !Marked(l)
    ensures Continues(a, [b, c, l])
    ensures forall v :: Folded(v, [b, c, l]) == Shifted(Shifted(Shifted(v, b), c), l)
  {
    Fold2(b, c, l);
    assert [b, c, l][1..] == [c, l];
  }

  lemma {:induction false} Fold4(a: byte, b: byte, c: byte, d: byte, l: byte)
    requires Marked(a) && Marked(b) && Marked(c) && Marked(d) && !Marked(l)
    ensures Continues(a, [b, c, d, l])
    ensures forall v :: Folded(v, [b, c, d, l]) == Shifted(Shifted(Shifted(Shifted(v, b), c), d), l)
  {
    Fold3(b, c, d, l);
    assert [b, c, d, l][1..] == [c, d, l];
  }

  /** Parsing undoes encoding, whatever follows. */
  lemma ParseEncoded(v: bv32, rest: seq<byte>)
    ensures ParseInt(EncodeInt(v) + rest) == (v, rest)
  {
    EncodedFolds(v);
    hide EncodeInt, Continues, Folded, Leading;
    var s := EncodeInt(v);
    ParseFolds(Leading(s[0]), s[0], s[1..], rest);
    assert (s + rest)[1..] == s[1..] + rest;
  }

  lemma LeadingRange(c: byte)
    ensures InRange(Leading(c), 0x20, 0x60)
  {
  }

  lemma ShiftedOnce(v: bv32, c: byte)
    requires InRange(v, 0x20, 0x60)
    ensures InRange(Shifted(v, c), 0x1000, 0x3000)
  {
  }

  lemma ShiftedTwice(v: bv32, c: byte)
    requires InRange(v, 0x1000, 0x3000)
    ensures InRange(Shifted(v, c), 0x8_0000, 0x18_0000)
  {
  }

  lemma ShiftedThrice(v: bv32, c: byte)
    requires InRange(v, 0x8_0000, 0x18_0000)
    ensures InRange(Shifted(v, c), 0x400_0000, 0xc00_0000)
  {
  }

  lemma EncodedLengths(v: bv32)
    ensures InRange(v, 0x20, 0x60) ==> |EncodeInt(v)| <= 1
    ensures InRange(v, 0x1000, 0x3000) ==> |EncodeInt(v)| <= 2
    ensures InRange(v, 0x8_0000, 0x18_0000) ==> |EncodeInt(v)| <= 3
    ensures InRange(v, 0x400_0000, 0xc00_0000) ==> |EncodeInt(v)| <= 4
  {
    hide InRange, More, Last;
  }

  lemma {:induction false} FoldNext(v: bv32, s: seq<byte>, k: nat)
    requires k < |s|
    ensures Folded(v, s[k..]) == Folded(Shifted(v, s[k]), s[k + 1..])
  {
    hide Shifted;
    assert s[k..][1..] == s[k + 1..];
  }

  /** No whole encoding of a number is shorter than the one made. */
  lemma {:induction false} EncodedShortest(s: seq<byte>)
    requires s != []
    ensures |EncodeInt(Folded(Leading(s[0]), s[1..]))| <= |s|
  {
    var v0 := Leading(s[0]);
    EncodedLengths(Folded(v0, s[1..]));
    LeadingRange(s[0]);
    FoldEnds(s);
    hide InRange, Shifted, Leading, EncodeInt, Folded;
    if |s| >= 2 {
      var v1 := Shifted(v0, s[1]);
      ShiftedOnce(v0, s[1]);
      FoldNext(v0, s, 1);
      if |s| >= 3 {
        var v2 := Shifted(v1, s[2]);
        ShiftedTwice(v1, s[2]);
        FoldNext(v1, s, 2);
        if |s| >= 4 {
          ShiftedThrice(v2, s[3]);
          FoldNext(v2, s, 3);
        }
      }
    }
  }

  lemma FoldEnds(s: seq<byte>)
    ensures forall v :: Folded(v, s[|s|..]) == v
  {
    assert s[|s|..] == [];
  }

  // ---------------------------------------------------------------------------
  // Messages of several integers
  // ---------------------------------------------------------------------------

  function EncodeAll(data: seq<bv32>): seq<byte> {
    if data == [] then [] else EncodeAll(data[..|data| - 1]) + EncodeInt(data[|data| - 1])
  }

  lemma {:induction false} EncodeFront(data: seq<bv32>)
    requires data != []
    ensures EncodeAll(data) == EncodeInt(data[0]) + EncodeAll(data[1..])
  {
    var n := |data| - 1;
    hide EncodeInt;
    if n > 0 {
      EncodeFront(data[..n]);
      assert data[1..][..n - 1] == data[..n][1..] && data[1..][n - 1] == data[n];
      var a, b, c := EncodeInt(data[0]), EncodeAll(data[..n][1..]), EncodeInt(data[n]);
      assert (a + b) + c == a + (b + c);
    } else {
      assert data[..0] == [] == data[1..];
    }
  }

  lemma {:induction false} EncodePrefixShorter(data: seq<bv32>, i: nat)
    requires i <= |data|
    ensures |EncodeAll(data[..i])| <= |EncodeAll(data)|
  {
    if i < |data| {
      EncodePrefixShorter(data[..|data| - 1], i);
      assert data[..|data| - 1][..i] == data[..i];
    } else {
      assert data[..i] == data;
    }
  }

  /** Encode integers into one message; a message that does not fit comes out empty. */
  method AllocAndEncode(data: seq<bv32>) returns (msg: seq<byte>)
    ensures msg == if |EncodeAll(data)| <= MESSAGE_PAYLOAD_MAX then EncodeAll(data) else []
  {
    msg := [];
    for i := 0 to |data|
      invariant msg == EncodeAll(data[..i]) && |msg| <= MESSAGE_PAYLOAD_MAX
    {
      assert data[..i + 1][..i] == data[..i];
      msg := msg + EncodeInt(data[i]);
      if |msg| > MESSAGE_PAYLOAD_MAX {
        EncodePrefixShorter(data, i + 1);
        return [];
      }
    }
    assert data[..|data|] == data;
  }

  /** n integers followed by exactly a trailer. */
  function DecodeFrom(n: nat, s: seq<byte>): Option<seq<bv32>> {
    if n == 0 then
      if |s| == MESSAGE_TRAILER_SIZE then Some([]) else None
    else if |s| <= MESSAGE_TRAILER_SIZE then None
    else
      var (v, rest) := ParseInt(s);
      match DecodeFrom(n - 1, rest)
      case None => None
      case Some(data) => Some([v] + data)
  }

  /** Parse the contents of a block that passed the check. */
  method Decode(n: nat, msg: seq<byte>) returns (r: Option<seq<bv32>>)
    requires |msg| >= MESSAGE_MIN && msg[|msg| - 1] == MESSAGE_SYNC
    ensures r == DecodeFrom(n, msg[MESSAGE_HEADER_SIZE..])
  {
    hide Leading, Shifted, ParseInt;
    var p: nat, end, data, left: nat := MESSAGE_HEADER_SIZE, |msg| - MESSAGE_TRAILER_SIZE, [], n;
    PrependNone(DecodeFrom(n, msg[p..]));
    while left > 0
      invariant 0 <= left <= n && MESSAGE_HEADER_SIZE <= p <= |msg|
      invariant Prepend(data, DecodeFrom(left, msg[p..])) == DecodeFrom(n, msg[MESSAGE_HEADER_SIZE..])
    {
      if p >= end {
        return None;
      }
      ghost var s := msg[p..];
      var c := msg[p];
      p := p + 1;
      var v := Leading(c);
      DecodeNext(left, s);
      assert s[1..] == msg[p..];
      while c & 0x80 != 0
        invariant p <= |msg| && p >= 1 && c == msg[p - 1]
        invariant ParseMore(v, c, msg[p..]) == ParseInt(s)
        decreases |msg| - p
      {
        assert MESSAGE_SYNC & 0x80 == 0;
        assert p < |msg|;
        assert msg[p..][1..] == msg[p + 1..];
        c := msg[p];
        p := p + 1;
        v := Shifted(v, c);
      }
      PrependOne(data, v, DecodeFrom(left - 1, msg[p..]));
      data, left := data + [v], left - 1;
    }
    if p != end {
      return None;
    }
    assert data + [] == data;
    return Some(data);
  }

  function Prepend(data: seq<bv32>, r: Option<seq<bv32>>): Option<seq<bv32>> {
    if r.None? then None else Some(data + r.value)
  }

  lemma PrependNone(r: Option<seq<bv32>>)
    ensures Prepend([], r) == r
  {
    if r.Some? { assert [] + r.value == r.value; }
  }

  lemma DecodeNext(n: nat, s: seq<byte>)
    requires n > 0 && |s| > MESSAGE_TRAILER_SIZE
    ensures ParseInt(s) == ParseMore(Leading(s[0]), s[0], s[1..])
    ensures DecodeFrom(n, s) == Prepend([ParseInt(s).0], DecodeFrom(n - 1, ParseInt(s).1))
  {
    hide ParseMore, Leading;
  }

  lemma PrependOne(data: seq<bv32>, v: bv32, r: Option<seq<bv32>>)
    ensures Prepend(data + [v], r) == Prepend(data, Prepend([v], r))
  {
    if r.Some? { assert data + [v] + r.value == data + ([v] + r.value); }
  }

  lemma {:induction false} DecodeEncoded(data: seq<bv32>, trailer: seq<byte>)
    requires |trailer| == MESSAGE_TRAILER_SIZE
    ensures DecodeFrom(|data|, EncodeAll(data) + trailer) == Some(data)
  {
    hide EncodeInt, ParseInt;
    if data == [] {
      assert EncodeAll(data) + trailer == trailer;
    } else {
      EncodeFront(data);
      DecodeEncoded(data[1..], trailer);
      var rest := EncodeAll(data[1..]) + trailer;
      assert EncodeAll(data) + trailer == EncodeInt(data[0]) + rest;
      ParseEncoded(data[0], rest);
      assert data == [data[0]] + data[1..];
    }
  }

  /** Integers that fit one message survive encoding, framing, checking and decoding. */
  lemma {:induction false} CodecRoundTrip(seqNum: bv8, data: seq<bv32>)
    requires |EncodeAll(data)| <= MESSAGE_PAYLOAD_MAX
    ensures var block := Frame(seqNum, EncodeAll(data));
            && Check(false, block) == Block(|block|)
            && DecodeFrom(|data|, block[MESSAGE_HEADER_SIZE..]) == Some(data)
  {
    hide EncodeAll, Check, DecodeFrom, Covered, Crc;
    var payload := EncodeAll(data);
    var block := Frame(seqNum, payload);
    FrameChecks(seqNum, payload, []);
    assert block + [] == block;
    FrameBody(seqNum, payload);
    DecodeEncoded(data, block[|block| - 3..]);
  }

  lemma FrameBody(seqNum: bv8, payload: seq<byte>)
    requires |payload| <= MESSAGE_PAYLOAD_MAX
    ensures var block := Frame(seqNum, payload);
            block[MESSAGE_HEADER_SIZE..] == payload + block[|block| - 3..]
  {
  }
}
