/** The frame decoders, what each returns for an encoded frame, and how they compare on arbitrary buffers. */
module FrameDecoders {
  import opened Prelude
  import opened Crc16
  import opened Utf8
  import opened Utf16
  import opened TextField
  import opened FieldReading
  import opened Frame
  import opened Uuid
  import FrameEncoders

  datatype Decoded = Decoded(opcode: Opcode, tenant: Tenant, channel: Text, payload: Text)

  datatype ScriptDecoded = ScriptDecoded(opcode: Opcode, tenantId: JsString, channelId: JsString, payload: JsString)

  /** `Frame::parse_slice` with its accessors, and the SDK's `decode_frame`. */
  function RustParse(buf: seq<Byte>): (r: Result<Decoded, ProtocolError>)
  {
    match CheckHeader(buf)
    case Err(e) => Err(e)
    case Ok(op) =>
      match (RustRead(ChannelField(buf)), RustRead(PayloadField(buf)))
      case (Some(channel), Some(payload)) => Ok(Decoded(op, TenantField(buf), channel, payload))
      case _ => Err(InvalidUtf8)
  }

  /** `decode_frame` of the Python module. */
  function PythonDecode(buf: seq<Byte>): (r: Result<Decoded, ProtocolError>)
  {
    match CheckHeader(buf)
    case Err(e) => Err(e)
    case Ok(op) =>
      match (PythonRead(ChannelField(buf)), PythonRead(PayloadField(buf)))
      case (Some(channel), Some(payload)) => Ok(Decoded(op, TenantField(buf), channel, payload))
      case _ => Err(InvalidUtf8)
  }

  /** `decodeFrame` of the JavaScript modules: ill-formed text is replaced, never rejected. */
  function ScriptDecode(buf: seq<Byte>): (r: Result<ScriptDecoded, ProtocolError>)
  {
    match CheckHeader(buf)
    case Err(e) => Err(e)
    case Ok(op) =>
      Ok(ScriptDecoded(op, BytesToUuid(TenantField(buf)), ScriptRead(ChannelField(buf)), ScriptRead(PayloadField(buf))))
  }

  // ---------------------------------------------------------------- what is accepted

  /** The checks every decoder makes, on the octets. */
  predicate HasHeader(buf: seq<Byte>)
  {
    |buf| == 256 && StartsWithMagic(buf) && 1 <= buf[2] <= 9 && EndsWithChecksum(buf)
  }

  /**
    The backend and the Rust SDK accept exactly the buffers with a good header and two well-formed text fields; what
    they return is what the octets say. A bad header gives the header's error.
   */
  lemma RustAccepts(buf: seq<Byte>)
    ensures RustParse(buf).Ok? <==> HasHeader(buf) && IsValid(buf[19..43]) && IsValid(buf[43..254])
    ensures HasHeader(buf) && RustParse(buf).Err? ==> RustParse(buf) == Err(InvalidUtf8)
    ensures !HasHeader(buf) ==> CheckHeader(buf).Err? && RustParse(buf) == Err(CheckHeader(buf).error)
    ensures RustParse(buf).Ok? ==>
              var d := RustParse(buf).value;
              && OpcodeByte(d.opcode) == buf[2] && d.tenant == buf[3..19]
              && IsPaddedText(buf[19..43], d.channel) && IsPaddedText(buf[43..254], d.payload)
  {
    HeaderExactly(buf);
    if HasHeader(buf) {
      RustReadExactly(buf[19..43]);
      RustReadExactly(buf[43..254]);
    }
  }

  /** Python likewise, but for text fields it looks only at what stands before the first NUL. */
  lemma PythonAccepts(buf: seq<Byte>)
    ensures PythonDecode(buf).Ok? <==>
              HasHeader(buf) && IsValid(CutAtNul(buf[19..43])) && IsValid(CutAtNul(buf[43..254]))
    ensures HasHeader(buf) && PythonDecode(buf).Err? ==> PythonDecode(buf) == Err(InvalidUtf8)
    ensures !HasHeader(buf) ==> CheckHeader(buf).Err? && PythonDecode(buf) == Err(CheckHeader(buf).error)
    ensures PythonDecode(buf).Ok? ==>
              var d := PythonDecode(buf).value;
              && OpcodeByte(d.opcode) == buf[2] && d.tenant == buf[3..19]
              && IsEndedText(buf[19..43], d.channel) && IsEndedText(buf[43..254], d.payload)
  {
    HeaderExactly(buf);
    if HasHeader(buf) {
      PythonReadExactly(buf[19..43]);
      PythonReadExactly(buf[43..254]);
    }
  }

  /** JavaScript accepts every buffer with a good header. */
  lemma ScriptAccepts(buf: seq<Byte>)
    ensures ScriptDecode(buf).Ok? <==> HasHeader(buf)
    ensures !HasHeader(buf) ==> CheckHeader(buf).Err? && ScriptDecode(buf) == Err(CheckHeader(buf).error)
    ensures ScriptDecode(buf).Ok? ==>
              var d := ScriptDecode(buf).value;
              && OpcodeByte(d.opcode) == buf[2]
              && d.tenantId == BytesToUuid(buf[3..19]) && d.channelId == ScriptRead(buf[19..43]) && d.payload == ScriptRead(buf[43..254])
  {
    HeaderExactly(buf);
  }

  /** Where the fields of an encoded frame stand. */
  lemma Layout(op: Opcode, tenant: Tenant, channel: Text, payload: Text)
    ensures var buf := EncodeFrame(op, tenant, channel, payload);
            && HasHeader(buf) && buf[2] == OpcodeByte(op) && buf[3..19] == tenant
            && buf[19..43] == Encode(Truncate(channel, 24)) + Zeros(24 - |Encode(Truncate(channel, 24))|)
            && buf[43..254] == Encode(Truncate(payload, 211)) + Zeros(211 - |Encode(Truncate(payload, 211))|)
  {
    var buf := EncodeFrame(op, tenant, channel, payload);
    EncodedPassesChecks(op, tenant, channel, payload);
    HeaderExactly(buf);
  }

  // ---------------------------------------------------------------- round trips

  /** What every decoder returns for the frame of arbitrary fields, NULs and byte-order marks included. */
  lemma RoundTrip(op: Opcode, tenant: Tenant, channel: Text, payload: Text)
    ensures var buf := EncodeFrame(op, tenant, channel, payload);
            var c, p := Truncate(channel, LEN_CHANNEL), Truncate(payload, LEN_PAYLOAD);
            && RustParse(buf) == Ok(Decoded(op, tenant, StripNuls(c), StripNuls(p)))
            && PythonDecode(buf) == Ok(Decoded(op, tenant, CutAtNul(c), CutAtNul(p)))
            && ScriptDecode(buf) == Ok(ScriptDecoded(op, BytesToUuid(tenant),
                 FromScalars(DropBom(CutAtNul(c))), FromScalars(DropBom(CutAtNul(p)))))
  {
    EncodedPassesChecks(op, tenant, channel, payload);
    ReadField(channel, LEN_CHANNEL);
    ReadField(payload, LEN_PAYLOAD);
  }

  /** NUL-free text comes back from either typed decoder as its longest fitting prefix. */
  lemma NulFreeRoundTrip(op: Opcode, tenant: Tenant, channel: Text, payload: Text)
    requires 0 !in channel && 0 !in payload
    ensures var buf := EncodeFrame(op, tenant, channel, payload);
            var d := Decoded(op, tenant, Truncate(channel, LEN_CHANNEL), Truncate(payload, LEN_PAYLOAD));
            RustParse(buf) == Ok(d) && PythonDecode(buf) == Ok(d)
  {
    RoundTrip(op, tenant, channel, payload);
    NulFree(Truncate(channel, LEN_CHANNEL));
    NulFree(Truncate(payload, LEN_PAYLOAD));
  }

  /** A text field survives Python's reader exactly when its kept part has no NUL, Rust's when it does not end in one. */
  lemma WhenTextSurvives(text: Text, width: nat)
    ensures var t := Truncate(text, width);
            && (PythonRead(FieldBytes(text, width)) == Some(t) <==> 0 !in t)
            && (RustRead(FieldBytes(text, width)) == Some(t) <==> t == [] || t[|t| - 1] != 0)
  {
    ReadField(text, width);
    CutIntact(Truncate(text, width));
    StripIntact(Truncate(text, width));
  }

  /**
    JavaScript to JavaScript: the tenant comes back in lower case, the texts as the receiver sees their longest
    fitting prefixes - unpaired surrogates replaced, cut at the first NUL, without a leading byte-order mark.
   */
  lemma ScriptRoundTrip(op: Opcode, tenantId: JsString, channelId: JsString, payload: JsString)
    requires IsUuid(tenantId)
    ensures var buf := FrameEncoders.ScriptFrame(op, tenantId, channelId, payload);
            && buf.Ok?
            && ScriptDecode(buf.value) == Ok(ScriptDecoded(op, LowerCase(tenantId),
                 FromScalars(DropBom(CutAtNul(Truncate(ToScalars(channelId), LEN_CHANNEL)))),
                 FromScalars(DropBom(CutAtNul(Truncate(ToScalars(payload), LEN_PAYLOAD))))))
  {
    RoundTrip(op, Octets(tenantId), ToScalars(channelId), ToScalars(payload));
    TextOfOctets(tenantId);
  }

  // ---------------------------------------------------------------- comparing the decoders

  /** Every buffer the backend accepts Python accepts, with equal texts exactly when NULs are trailing padding. */
  lemma BackendWithinPython(buf: seq<Byte>)
    requires RustParse(buf).Ok?
    ensures PythonDecode(buf).Ok?
    ensures var r, p := RustParse(buf).value, PythonDecode(buf).value;
            && r.opcode == p.opcode && r.tenant == p.tenant
            && (r.channel == p.channel <==> NulsTrail(ChannelField(buf)))
            && (r.payload == p.payload <==> NulsTrail(PayloadField(buf)))
  {
    RustThenPython(ChannelField(buf));
    RustThenPython(PayloadField(buf));
  }

  predicate StartsWithBom(text: Text)
  {
    text != [] && text[0] == BOM
  }

  /** Every buffer Python accepts JavaScript accepts, with equal texts exactly when no field starts with U+FEFF. */
  lemma PythonWithinScript(buf: seq<Byte>)
    requires PythonDecode(buf).Ok?
    ensures ScriptDecode(buf).Ok?
    ensures var p, s := PythonDecode(buf).value, ScriptDecode(buf).value;
            && p.opcode == s.opcode && IsUuid(s.tenantId) && Octets(s.tenantId) == p.tenant
            && (s.channelId == FromScalars(p.channel) <==> !StartsWithBom(p.channel))
            && (s.payload == FromScalars(p.payload) <==> !StartsWithBom(p.payload))
  {
    PythonThenScript(ChannelField(buf));
    PythonThenScript(PayloadField(buf));
    OctetsOfText(TenantField(buf));
  }

  /** The inclusions are strict: an unpaired continuation byte is replaced by one, an error to the other. */
  lemma InclusionIsStrict(op: Opcode, tenant: Tenant)
    ensures exists buf :: ScriptDecode(buf).Ok? && PythonDecode(buf) == Err(InvalidUtf8)
  {
    var body: seq<Byte> := [0xAA, 0x01, OpcodeByte(op)] + tenant + ([0x80] + Zeros(23)) + Zeros(LEN_PAYLOAD);
    var buf: seq<Byte> := body + BigEndian(Run(body));
    assert buf[..OFF_CRC] == body;
    StoredChecksum(Run(body), buf[254], buf[255]);
    assert [buf[254], buf[255]] == BigEndian(Run(body));
    OpcodeInverse(op);
    assert CheckHeader(buf) == Ok(op);
    assert ChannelField(buf) == [0x80] + Zeros(23);
    assert CutAtNul(ChannelField(buf)) != [] && CutAtNul(ChannelField(buf))[0] == 0x80;
    assert PythonRead(ChannelField(buf)).None?;
    assert ScriptDecode(buf).Ok? && PythonDecode(buf) == Err(InvalidUtf8);
  }

  // ---------------------------------------------------------------- corruption

  /** A frame that passes the checks of any decoder is accepted by none after a corruption that is sure to be noticed. */
  lemma CorruptionRejectedByAll(good: seq<Byte>, bad: seq<Byte>, from: nat)
    requires CheckHeader(good).Ok? && |bad| == |good| && bad != good
    requires Noticeable(MessageBits(good), MessageBits(bad), from)
    ensures RustParse(bad).Err? && PythonDecode(bad).Err? && ScriptDecode(bad).Err?
  {
    CorruptionIsRejected(good, bad, from);
  }

  /** In particular any change confined to two adjacent octets, the checksum's own included. */
  lemma AdjacentCorruptionRejected(good: seq<Byte>, bad: seq<Byte>, i: nat)
    requires RustParse(good).Ok? && |bad| == |good| && bad != good
    requires forall k | 0 <= k < |good| && good[k] != bad[k] :: i <= k <= i + 1
    ensures RustParse(bad).Err?
  {
    AdjacentOctetsAreABurst(good, bad, i);
    CorruptionIsRejected(good, bad, 8 * i);
  }
}
