/**
  The fixed 256-byte frame: layout, checksum, the errors a decoder reports, and the specification every encoder is
  proved against.
 */
module Frame {
  import opened Prelude
  import opened Crc16
  import opened CrcDetection
  import opened CrcOrder
  import opened TextField

  const FRAME_SIZE := 256
  const OFF_OPCODE := 2
  const OFF_TENANT := 3
  const LEN_TENANT := 16
  const OFF_CHANNEL := 19
  const LEN_CHANNEL := 24
  const OFF_PAYLOAD := 43
  const LEN_PAYLOAD := 211
  const OFF_CRC := 254

  const MAGIC := 0xAA01

  datatype Opcode = Subscribe | Publish | Message | Auth | Ping | Presence | Replay | Unicast | Unsub

  function OpcodeByte(op: Opcode): (b: Byte)
    ensures 1 <= b <= 9
  {
    match op
    case Subscribe => 0x01
    case Publish => 0x02
    case Message => 0x03
    case Auth => 0x04
    case Ping => 0x05
    case Presence => 0x06
    case Replay => 0x07
    case Unicast => 0x08
    case Unsub => 0x09
  }

  function OpcodeOf(b: Byte): (op: Option<Opcode>)
    ensures op.Some? <==> 1 <= b <= 9
    ensures op.Some? ==> OpcodeByte(op.value) == b
  {
    match b
    case 0x01 => Some(Subscribe)
    case 0x02 => Some(Publish)
    case 0x03 => Some(Message)
    case 0x04 => Some(Auth)
    case 0x05 => Some(Ping)
    case 0x06 => Some(Presence)
    case 0x07 => Some(Replay)
    case 0x08 => Some(Unicast)
    case 0x09 => Some(Unsub)
    case _ => None
  }

  datatype ProtocolError =
    | InvalidLength(length: nat)
    | BadMagic(magic: nat)
    | UnknownOpcode(opcode: Byte)
    | ChecksumMismatch(expected: nat, actual: nat)
    | InvalidUtf8
    | InvalidUuid

  type Tenant = t: seq<Byte> | |t| == LEN_TENANT witness Zeros(LEN_TENANT)

  /** The 254 checksummed octets. */
  function Body(op: Opcode, tenant: Tenant, channel: Text, payload: Text): (bs: seq<Byte>)
    ensures |bs| == OFF_CRC
  {
    [0xAA, 0x01, OpcodeByte(op)] + tenant + FieldBytes(channel, LEN_CHANNEL) + FieldBytes(payload, LEN_PAYLOAD)
  }

  /** The frame every implementation must produce, octet for octet. */
  function EncodeFrame(op: Opcode, tenant: Tenant, channel: Text, payload: Text): (bs: seq<Byte>)
    ensures |bs| == FRAME_SIZE
  {
    Body(op, tenant, channel, payload) + BigEndian(Run(Body(op, tenant, channel, payload)))
  }

  // ---------------------------------------------------------------- the checks shared by every decoder

  function Word16(hi: int, lo: int): (w: int)
  {
    hi * 256 + lo
  }

  /** Big-endian 16-bit number at offset `i`. */
  function Word16At(buf: seq<Byte>, i: nat): (w: nat)
    requires i + 1 < |buf|
  {
    Word16(buf[i], buf[i + 1])
  }

  /** Length, magic, opcode and checksum, in that order; the text fields are each decoder's own affair. */
  function CheckHeader(buf: seq<Byte>): (r: Result<Opcode, ProtocolError>)
  {
    if |buf| != FRAME_SIZE then Err(InvalidLength(|buf|))
    else if Word16At(buf, 0) != MAGIC then Err(BadMagic(Word16At(buf, 0)))
    else if OpcodeOf(buf[OFF_OPCODE]).None? then Err(UnknownOpcode(buf[OFF_OPCODE]))
    else
      var expected, actual := Word16At(buf, OFF_CRC), FromBits(Run(buf[..OFF_CRC]));
      if expected != actual then Err(ChecksumMismatch(expected, actual))
      else Ok(OpcodeOf(buf[OFF_OPCODE]).value)
  }

  /** The octets of a frame's opcodes, as the protocol assigns them. */
  lemma OpcodeOctets()
    ensures OpcodeByte(Subscribe) == 1 && OpcodeByte(Publish) == 2 && OpcodeByte(Message) == 3
    ensures OpcodeByte(Auth) == 4 && OpcodeByte(Ping) == 5 && OpcodeByte(Presence) == 6
    ensures OpcodeByte(Replay) == 7 && OpcodeByte(Unicast) == 8 && OpcodeByte(Unsub) == 9
  {
  }

  /** A buffer starts with the magic octets. */
  predicate StartsWithMagic(buf: seq<Byte>)
    requires |buf| == 256
  {
    buf[0] == 0xAA && buf[1] == 0x01
  }

  /** Its last two octets are the checksum of the others. */
  predicate EndsWithChecksum(buf: seq<Byte>)
    requires |buf| == 256
  {
    buf[254..] == BigEndian(Run(buf[..254]))
  }

  /**
    The header checks pass exactly on 256 octets that start with AA 01 and an opcode from 1 to 9 and end with their own
    checksum; otherwise the error is that of the first of these to fail, with what was found.
   */
  lemma HeaderExactly(buf: seq<Byte>)
    ensures CheckHeader(buf).Ok? <==> |buf| == 256 && StartsWithMagic(buf) && 1 <= buf[2] <= 9 && EndsWithChecksum(buf)
    ensures CheckHeader(buf).Ok? ==> OpcodeByte(CheckHeader(buf).value) == buf[2]
    ensures |buf| != 256 ==> CheckHeader(buf) == Err(InvalidLength(|buf|))
    ensures |buf| == 256 && !StartsWithMagic(buf) ==> CheckHeader(buf) == Err(BadMagic(256 * (buf[0] as int) + buf[1]))
    ensures |buf| == 256 && StartsWithMagic(buf) && !(1 <= buf[2] <= 9) ==> CheckHeader(buf) == Err(UnknownOpcode(buf[2]))
    ensures |buf| == 256 && StartsWithMagic(buf) && 1 <= buf[2] <= 9 && !EndsWithChecksum(buf) ==>
              CheckHeader(buf) == Err(ChecksumMismatch(256 * (buf[254] as int) + buf[255], FromBits(Run(buf[..254]))))
  {
    if |buf| == 256 {
      StoredChecksum(Run(buf[..254]), buf[254], buf[255]);
      assert buf[254..] == [buf[254], buf[255]];
      MagicOctets(buf[0], buf[1]);
    }
  }

  lemma MagicOctets(hi: Byte, lo: Byte)
    ensures Word16(hi, lo) == MAGIC <==> hi == 0xAA && lo == 0x01
  {
  }

  function TenantField(buf: seq<Byte>): (t: Tenant)
    requires |buf| == FRAME_SIZE
  {
    buf[OFF_TENANT..OFF_CHANNEL]
  }

  function ChannelField(buf: seq<Byte>): (f: seq<Byte>)
    requires |buf| == FRAME_SIZE
    ensures |f| == LEN_CHANNEL
  {
    buf[OFF_CHANNEL..OFF_PAYLOAD]
  }

  function PayloadField(buf: seq<Byte>): (f: seq<Byte>)
    requires |buf| == FRAME_SIZE
    ensures |f| == LEN_PAYLOAD
  {
    buf[OFF_PAYLOAD..OFF_CRC]
  }

  // ---------------------------------------------------------------- an encoded frame passes the checks

  lemma {:induction false} FromBitsAppend(xs: Bits, ys: Bits)
    ensures FromBits(xs + ys) == FromBits(xs) * Pow2(|ys|) + FromBits(ys)
  {
    if ys == [] {
      assert xs + ys == xs;
    } else {
      var n := |ys| - 1;
      assert (xs + ys)[..|xs + ys| - 1] == xs + ys[..n];
      FromBitsAppend(xs, ys[..n]);
      var last := if ys[n] then 1 else 0;
      assert FromBits(xs + ys) == 2 * FromBits(xs + ys[..n]) + last;
      assert FromBits(ys) == 2 * FromBits(ys[..n]) + last;
      Doubling(FromBits(xs), Pow2(n), FromBits(ys[..n]), last);
    }
  }

  lemma Doubling(a: nat, p: nat, b: nat, last: nat)
    ensures 2 * (a * p + b) + last == a * (2 * p) + (2 * b + last)
  {
  }

  lemma UniqueOctets(h: nat, l: nat, hi: Byte, lo: Byte)
    requires h < 256 && l < 256
    ensures Word16(hi, lo) == h * 256 + l <==> hi == h && lo == l
  {
  }

  /** The stored octets denote the register's value, and no other octets do. */
  lemma StoredChecksum(crc: Word, hi: Byte, lo: Byte)
    ensures Word16(hi, lo) == FromBits(crc) <==> [hi, lo] == BigEndian(crc)
  {
    var h, l := crc[..8], crc[8..];
    FromBitsAppend(h, l);
    assert h + l == crc;
    ToFromBits(h);
    ToFromBits(l);
    assert Pow2(8) == 256;
    UniqueOctets(FromBits(h), FromBits(l), hi, lo);
    assert BigEndian(crc) == [FromBits(h), FromBits(l)];
  }

  lemma EncodedPassesChecks(op: Opcode, tenant: Tenant, channel: Text, payload: Text)
    ensures var buf := EncodeFrame(op, tenant, channel, payload);
            && CheckHeader(buf) == Ok(op)
            && TenantField(buf) == tenant
            && ChannelField(buf) == FieldBytes(channel, LEN_CHANNEL)
            && PayloadField(buf) == FieldBytes(payload, LEN_PAYLOAD)
  {
    var body := Body(op, tenant, channel, payload);
    var buf := EncodeFrame(op, tenant, channel, payload);
    assert buf[..OFF_CRC] == body;
    StoredChecksum(Run(body), buf[254], buf[255]);
    assert buf[254..] == [buf[254], buf[255]] == BigEndian(Run(body));
    assert body[OFF_OPCODE] == OpcodeByte(op);
    OpcodeInverse(op);
  }

  lemma OpcodeInverse(op: Opcode)
    ensures OpcodeOf(OpcodeByte(op)) == Some(op)
  {
  }

  // ---------------------------------------------------------------- corrupted frames

  /** Number of bit positions in which two messages differ. */
  function Flips(x: Bits, y: Bits): (n: nat)
    requires |x| == |y|
  {
    if x == [] then 0
    else Flips(x[..|x| - 1], y[..|y| - 1]) + if x[|x| - 1] != y[|y| - 1] then 1 else 0
  }

  lemma {:induction false} FlipsParity(x: Bits, y: Bits)
    requires |x| == |y|
    ensures Flips(x, y) % 2 == 1 <==> Odd(Xor(x, y))
  {
    if x != [] {
      var n := |x| - 1;
      FlipsParity(x[..n], y[..n]);
      assert Xor(x, y)[..n] == Xor(x[..n], y[..n]);
    }
  }

  lemma {:induction false} NoFlips(x: Bits, y: Bits)
    requires |x| == |y| && Flips(x, y) == 0
    ensures x == y
  {
    if x != [] {
      var n := |x| - 1;
      NoFlips(x[..n], y[..n]);
      assert x == x[..n] + [x[n]] && y == y[..n] + [y[n]];
    }
  }

  lemma {:induction false} OneFlip(x: Bits, y: Bits) returns (i: nat)
    requires |x| == |y| && Flips(x, y) == 1
    ensures i < |x| && forall k | 0 <= k < |x| :: x[k] != y[k] <==> k == i
  {
    var n := |x| - 1;
    if x[n] != y[n] {
      i := n;
      NoFlips(x[..n], y[..n]);
      assert forall k | 0 <= k < n :: x[k] == x[..n][k] && y[k] == y[..n][k];
    } else {
      i := OneFlip(x[..n], y[..n]);
      assert forall k | 0 <= k < n :: x[k] == x[..n][k] && y[k] == y[..n][k];
    }
  }

  lemma {:induction false} TwoFlips(x: Bits, y: Bits) returns (i: nat, j: nat)
    requires |x| == |y| && Flips(x, y) == 2
    ensures i < j < |x| && forall k | 0 <= k < |x| :: x[k] != y[k] <==> k == i || k == j
  {
    var n := |x| - 1;
    if x[n] != y[n] {
      j := n;
      i := OneFlip(x[..n], y[..n]);
    } else {
      i, j := TwoFlips(x[..n], y[..n]);
    }
    assert forall k | 0 <= k < n :: x[k] == x[..n][k] && y[k] == y[..n][k];
  }

  /** The corruptions the checksum is sure to notice: up to three bits, an odd number, or sixteen bits in a row. */
  predicate Noticeable(x: Bits, y: Bits, from: nat)
    requires |x| == |y|
  {
    Flips(x, y) <= 3 || Flips(x, y) % 2 == 1 || WithinBurst(x, y, from)
  }

  /** The difference of the two bit strings lies within the sixteen bits from `from` on. */
  predicate WithinBurst(x: Bits, y: Bits, from: nat)
    requires |x| == |y|
  {
    forall k | 0 <= k < |x| && x[k] != y[k] :: from <= k < from + 16
  }

  lemma PassesChecksEndsAtZero(buf: seq<Byte>)
    requires CheckHeader(buf).Ok?
    ensures |buf| == FRAME_SIZE && Feed(INITIAL, MessageBits(buf)) == ZERO
  {
    var data, tail := buf[..OFF_CRC], buf[OFF_CRC..];
    StoredChecksum(Run(data), buf[254], buf[255]);
    assert tail == [buf[254], buf[255]];
    BigEndianBits(Run(data));
    ChecksummedEndsAtZero(data, tail);
    assert data + tail == buf;
  }

  /**
    Error detection: no corruption of an accepted frame that flips up to three or an odd number of its 2048 bits, and
    none that is confined to sixteen consecutive bits - checksum included - passes the checks again.
   */
  lemma CorruptionIsRejected(good: seq<Byte>, bad: seq<Byte>, from: nat)
    requires CheckHeader(good).Ok? && |bad| == |good| && bad != good
    requires Noticeable(MessageBits(good), MessageBits(bad), from)
    ensures CheckHeader(bad).Err?
  {
    var x, y := MessageBits(good), MessageBits(bad);
    PassesChecksEndsAtZero(good);
    if CheckHeader(bad).Ok? {
      PassesChecksEndsAtZero(bad);
      ZeroDifference(x, y, from);
      MessageBitsInjective(good, bad);
    }
  }

  lemma ZeroDifference(x: Bits, y: Bits, from: nat)
    requires |x| == |y| <= 8 * FRAME_SIZE && Feed(INITIAL, x) == ZERO && Feed(INITIAL, y) == ZERO
    requires Noticeable(x, y, from)
    ensures x == y
  {
    var e := Xor(x, y);
    DifferenceIsUnnoticed(x, y);
    FlipsParity(x, y);
    if Odd(e) {
      OddIsNoticed(e);
    }
    if Flips(x, y) == 2 {
      var i, j := TwoFlips(x, y);
      TwoBitsAreNoticed(e, i, j);
    }
    if Flips(x, y) == 0 {
      NoFlips(x, y);
    }
    forall i | 0 <= i < |x| ensures x[i] == y[i] {
      if x[i] != y[i] {
        BurstIsNoticed(e, from, i);
      }
    }
  }

  lemma {:induction false} MessageBitsInjective(xs: seq<Byte>, ys: seq<Byte>)
    requires |xs| == |ys| && MessageBits(xs) == MessageBits(ys)
    ensures xs == ys
  {
    if xs != [] {
      var n := |xs| - 1;
      var p, q := MessageBits(xs), MessageBits(ys);
      assert p[..8 * n] == MessageBits(xs[..n]) && q[..8 * n] == MessageBits(ys[..n]);
      assert p[8 * n..] == ToBits(xs[n], 8) && q[8 * n..] == ToBits(ys[n], 8);
      MessageBitsInjective(xs[..n], ys[..n]);
      assert Pow2(8) == 256;
      FromToBits(xs[n], 8);
      FromToBits(ys[n], 8);
      assert xs == xs[..n] + [xs[n]] && ys == ys[..n] + [ys[n]];
    }
  }

  /** Two adjacent octets span sixteen consecutive bits. */
  lemma AdjacentOctetsAreABurst(x: seq<Byte>, y: seq<Byte>, i: nat)
    requires |x| == |y| && forall k | 0 <= k < |x| && x[k] != y[k] :: i <= k <= i + 1
    ensures WithinBurst(MessageBits(x), MessageBits(y), 8 * i)
  {
    forall k | 0 <= k < 8 * |x| && MessageBits(x)[k] != MessageBits(y)[k] ensures 8 * i <= k < 8 * i + 16 {
      BitOfOctet(x, k);
      BitOfOctet(y, k);
    }
  }

  lemma {:induction false} BitOfOctet(x: seq<Byte>, k: nat)
    requires k < 8 * |x|
    ensures MessageBits(x)[k] == ToBits(x[k / 8], 8)[k % 8]
  {
    var n := |x| - 1;
    if k < 8 * n {
      BitOfOctet(x[..n], k);
    } else {
      assert k / 8 == n && k % 8 == k - 8 * n;
    }
  }
}
