/**
  The four frame encoders, each filling its buffer the way its source does, and each proved to leave exactly the
  octets of `Frame.EncodeFrame` there - hence octet-for-octet agreement between them.
 */
module FrameEncoders {
  import opened Prelude
  import opened Crc16
  import opened Utf8
  import opened Utf16
  import opened TextField
  import opened Frame
  import opened Uuid

  function Splice(s: seq<Byte>, off: nat, src: seq<Byte>): (t: seq<Byte>)
    requires off + |src| <= |s|
    ensures |t| == |s|
  {
    s[..off] + src + s[off + |src|..]
  }

  /** `buf[off..off + n].copy_from_slice(src)`, `buf.set(src, off)`, `buf[off:off + n] = src`. */
  method Put(buf: array<Byte>, off: nat, src: seq<Byte>)
    requires off + |src| <= buf.Length
    modifies buf
    ensures buf[..] == Splice(old(buf[..]), off, src)
  {
    forall i | 0 <= i < |src| {
      buf[off + i] := src[i];
    }
  }

  /** The first 19 octets, then untouched octets. */
  method PutHeader(buf: array<Byte>, op: Opcode, tenant: Tenant)
    requires buf.Length == FRAME_SIZE
    modifies buf
    ensures buf[..] == [0xAA, 0x01, OpcodeByte(op)] + tenant + old(buf[OFF_CHANNEL..])
    ensures forall i | OFF_CHANNEL <= i < FRAME_SIZE :: buf[i] == old(buf[i])
  {
    Put(buf, 0, [MAGIC / 256, MAGIC % 256]);
    buf[OFF_OPCODE] := OpcodeByte(op);
    Put(buf, OFF_TENANT, tenant);
  }

  /** Checksums the first 254 octets into the last two. */
  method PutChecksum(buf: array<Byte>)
    requires buf.Length == FRAME_SIZE
    modifies buf
    ensures buf[..] == old(buf[..OFF_CRC]) + BigEndian(Run(old(buf[..OFF_CRC])))
  {
    var crc := ComputeChecksum(buf, OFF_CRC);
    Put(buf, OFF_CRC, BigEndian(crc));
  }

  lemma Assembled(op: Opcode, tenant: Tenant, channel: Text, payload: Text, s0: seq<Byte>, s1: seq<Byte>, s2: seq<Byte>)
    requires |s0| == FRAME_SIZE && s0[..OFF_CHANNEL] == [0xAA, 0x01, OpcodeByte(op)] + tenant
    requires s1 == Splice(s0, OFF_CHANNEL, FieldBytes(channel, LEN_CHANNEL))
    requires s2 == Splice(s1, OFF_PAYLOAD, FieldBytes(payload, LEN_PAYLOAD))
    ensures s2[..OFF_CRC] == Body(op, tenant, channel, payload)
  {
    assert s2[..OFF_PAYLOAD] == s1[..OFF_PAYLOAD] == s0[..OFF_CHANNEL] + FieldBytes(channel, LEN_CHANNEL);
    assert s2[..OFF_CRC] == s2[..OFF_PAYLOAD] + FieldBytes(payload, LEN_PAYLOAD);
  }

  // ---------------------------------------------------------------- Rust: backend and SDK

  /** Copies the fitting prefix and relies on the destination being zero already. */
  method RustWritePadded(buf: array<Byte>, off: nat, width: nat, text: Text)
    requires off + width <= buf.Length
    requires buf[off..off + width] == Zeros(width)
    modifies buf
    ensures buf[..] == Splice(old(buf[..]), off, FieldBytes(text, width))
  {
    var take := RustTake(text, width);
    ghost var before := buf[..];
    Put(buf, off, Encode(text)[..take]);
    PaddedByZeros(before, off, width, text);
  }

  lemma PaddedByZeros(before: seq<Byte>, off: nat, width: nat, text: Text)
    requires off + width <= |before| && before[off..off + width] == Zeros(width)
    requires |Encode(Truncate(text, width))| <= width
    ensures Splice(before, off, Encode(Truncate(text, width))) == Splice(before, off, FieldBytes(text, width))
  {
    var e := Encode(Truncate(text, width));
    var tail := before[off + |e|..off + width];
    assert tail == before[off..off + width][|e|..] == Zeros(width - |e|);
    assert before[off + |e|..] == tail + before[off + width..];
    assert before[..off] + e + (tail + before[off + width..]) == before[..off] + (e + tail) + before[off + width..];
  }

  /** `FrameBuilder::build` and the SDK's `encode_frame`. */
  method RustBuild(op: Opcode, tenant: Tenant, channel: Text, payload: Text) returns (frame: seq<Byte>)
    ensures frame == EncodeFrame(op, tenant, channel, payload)
  {
    var buf := new Byte[FRAME_SIZE](_ => 0);
    assert forall i | OFF_CHANNEL <= i < FRAME_SIZE :: buf[i] == 0;
    PutHeader(buf, op, tenant);
    ghost var s0 := buf[..];
    assert forall i | OFF_CHANNEL <= i < FRAME_SIZE :: buf[i] == 0;
    assert buf[OFF_CHANNEL..OFF_PAYLOAD] == Zeros(LEN_CHANNEL);
    RustWritePadded(buf, OFF_CHANNEL, LEN_CHANNEL, channel);
    ghost var s1 := buf[..];
    assert forall i | OFF_PAYLOAD <= i < FRAME_SIZE :: buf[i] == s0[i] == 0;
    assert buf[OFF_PAYLOAD..OFF_CRC] == Zeros(LEN_PAYLOAD);
    RustWritePadded(buf, OFF_PAYLOAD, LEN_PAYLOAD, payload);
    Assembled(op, tenant, channel, payload, s0, s1, buf[..]);
    assert buf[..OFF_CRC] == buf[..][..OFF_CRC];
    PutChecksum(buf);
    frame := buf[..];
  }

  // ---------------------------------------------------------------- Python

  /** `encode_frame`: each field is computed as bytes and assigned as a slice. */
  method PythonEncode(op: Opcode, tenant: Tenant, channel: Text, payload: Text) returns (frame: seq<Byte>)
    ensures frame == EncodeFrame(op, tenant, channel, payload)
  {
    var buf := new Byte[FRAME_SIZE](_ => 0);
    PutHeader(buf, op, tenant);
    ghost var s0 := buf[..];
    PythonFieldAgrees(LEN_CHANNEL, channel);
    Put(buf, OFF_CHANNEL, PythonField(LEN_CHANNEL, channel));
    ghost var s1 := buf[..];
    PythonFieldAgrees(LEN_PAYLOAD, payload);
    Put(buf, OFF_PAYLOAD, PythonField(LEN_PAYLOAD, payload));
    Assembled(op, tenant, channel, payload, s0, s1, buf[..]);
    assert buf[..OFF_CRC] == buf[..][..OFF_CRC];
    PutChecksum(buf);
    frame := buf[..];
  }

  // ---------------------------------------------------------------- JavaScript

  /** `dst.fill(0)`, then `bytes` at the front of the destination. */
  method FillThenPut(buf: array<Byte>, off: nat, width: nat, bytes: seq<Byte>)
    requires off + width <= buf.Length && |bytes| <= width
    modifies buf
    ensures buf[..] == Splice(old(buf[..]), off, bytes + Zeros(width - |bytes|))
  {
    Put(buf, off, Zeros(width));
    Put(buf, off, bytes);
    SpliceTwice(old(buf[..]), off, width, bytes);
  }

  lemma SpliceTwice(s: seq<Byte>, off: nat, width: nat, bytes: seq<Byte>)
    requires off + width <= |s| && |bytes| <= width
    ensures Splice(Splice(s, off, Zeros(width)), off, bytes) == Splice(s, off, bytes + Zeros(width - |bytes|))
  {
    var cleared := Splice(s, off, Zeros(width));
    var twice, once := Splice(cleared, off, bytes), Splice(s, off, bytes + Zeros(width - |bytes|));
    assert forall i | 0 <= i < off :: twice[i] == s[i] && once[i] == s[i];
    assert forall i | off <= i < off + |bytes| :: twice[i] == bytes[i - off] && once[i] == bytes[i - off];
    assert forall i | off + |bytes| <= i < |s| :: twice[i] == cleared[i];
    assert forall i | off + |bytes| <= i < off + width :: cleared[i] == 0 && once[i] == 0;
    assert forall i | off + width <= i < |s| :: cleared[i] == s[i] && once[i] == s[i];
  }

  /** TypeScript `writePadded`, by way of `encodeInto`. */
  method TypeScriptWritePadded(buf: array<Byte>, off: nat, width: nat, s: JsString)
    requires off + width <= buf.Length
    modifies buf
    ensures buf[..] == Splice(old(buf[..]), off, FieldBytes(ToScalars(s), width))
  {
    var written := EncodeInto(ToScalars(s), width);
    FitIsLongest(ToScalars(s), width);
    FillThenPut(buf, off, width, written);
  }

  /** Plain JavaScript `writePadded`, by way of `encode` and a backward walk. */
  method ScriptWritePadded(buf: array<Byte>, off: nat, width: nat, s: JsString)
    requires off + width <= buf.Length
    modifies buf
    ensures buf[..] == Splice(old(buf[..]), off, FieldBytes(ToScalars(s), width))
  {
    var take := ScriptTake(ToScalars(s), width);
    FillThenPut(buf, off, width, Encode(ToScalars(s))[..take]);
  }

  /** What the JavaScript encoders return: an invalid tenant identifier is an exception. */
  function ScriptFrame(op: Opcode, tenantId: JsString, channelId: JsString, payload: JsString)
    : (r: Result<seq<Byte>, ProtocolError>)
  {
    if IsUuid(tenantId) then Ok(EncodeFrame(op, Octets(tenantId), ToScalars(channelId), ToScalars(payload)))
    else Err(InvalidUuid)
  }

  /** `encodeFrame` of the TypeScript SDK. */
  method TypeScriptEncode(op: Opcode, tenantId: JsString, channelId: JsString, payload: JsString)
    returns (r: Result<seq<Byte>, ProtocolError>)
    ensures r == ScriptFrame(op, tenantId, channelId, payload)
  {
    var buf := new Byte[FRAME_SIZE](_ => 0);
    var tenant := UuidToBytes(tenantId);
    if tenant.Err? {
      return Err(tenant.error);
    }
    PutHeader(buf, op, tenant.value);
    ghost var s0 := buf[..];
    TypeScriptWritePadded(buf, OFF_CHANNEL, LEN_CHANNEL, channelId);
    ghost var s1 := buf[..];
    TypeScriptWritePadded(buf, OFF_PAYLOAD, LEN_PAYLOAD, payload);
    Assembled(op, tenant.value, ToScalars(channelId), ToScalars(payload), s0, s1, buf[..]);
    assert buf[..OFF_CRC] == buf[..][..OFF_CRC];
    PutChecksum(buf);
    r := Ok(buf[..]);
  }

  /** `encodeFrame` of the WordPress script. */
  method ScriptEncode(op: Opcode, tenantId: JsString, channelId: JsString, payload: JsString)
    returns (r: Result<seq<Byte>, ProtocolError>)
    ensures r == ScriptFrame(op, tenantId, channelId, payload)
  {
    var buf := new Byte[FRAME_SIZE](_ => 0);
    var tenant := UuidToBytes(tenantId);
    if tenant.Err? {
      return Err(tenant.error);
    }
    PutHeader(buf, op, tenant.value);
    ghost var s0 := buf[..];
    ScriptWritePadded(buf, OFF_CHANNEL, LEN_CHANNEL, channelId);
    ghost var s1 := buf[..];
    ScriptWritePadded(buf, OFF_PAYLOAD, LEN_PAYLOAD, payload);
    Assembled(op, tenant.value, ToScalars(channelId), ToScalars(payload), s0, s1, buf[..]);
    assert buf[..OFF_CRC] == buf[..][..OFF_CRC];
    PutChecksum(buf);
    r := Ok(buf[..]);
  }
}
