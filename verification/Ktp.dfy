/** KTP frames: a 24-byte header followed by the payload. */
module Ktp {
  import opened Bytes

  const KTP_MAGIC: seq<Byte> := [0x4B, 0x54, 0x50, 0x31]
  const KTP_VERSION: Byte := 1
  const KTP_HEADER_LEN: nat := 24
  const KTP_MAX_PAYLOAD_LEN: nat := 1024 * 1024

  datatype FrameType =
    | Hello | HelloAck | Ready
    | SessionOpen | SessionAccept | SessionData | SessionWindow | SessionClose | SessionError
    | Ping | Pong | Stats
  {
    function ToByte(): Byte {
      match this
      case Hello => 0x01
      case HelloAck => 0x02
      case Ready => 0x03
      case SessionOpen => 0x10
      case SessionAccept => 0x11
      case SessionData => 0x12
      case SessionWindow => 0x13
      case SessionClose => 0x14
      case SessionError => 0x15
      case Ping => 0x20
      case Pong => 0x21
      case Stats => 0x30
    }

    static function FromByte(value: Byte): (r: Result<FrameType, KtpError>)
      ensures forall t: FrameType :: r == Ok(t) <==> t.ToByte() == value
      ensures r.Err? ==> r.error == UnknownFrameType(value)
    {
      if value == 0x01 then Ok(Hello)
      else if value == 0x02 then Ok(HelloAck)
      else if value == 0x03 then Ok(Ready)
      else if value == 0x10 then Ok(SessionOpen)
      else if value == 0x11 then Ok(SessionAccept)
      else if value == 0x12 then Ok(SessionData)
      else if value == 0x13 then Ok(SessionWindow)
      else if value == 0x14 then Ok(SessionClose)
      else if value == 0x15 then Ok(SessionError)
      else if value == 0x20 then Ok(Ping)
      else if value == 0x21 then Ok(Pong)
      else if value == 0x30 then Ok(Stats)
      else Err(UnknownFrameType(value))
    }

    predicate IsConnectionLevel() {
      Hello? || HelloAck? || Ready? || Ping? || Pong? || Stats?
    }
  }

  datatype FrameLeg = Connection | Ingress | Egress
  {
    function ToByte(): Byte {
      match this
      case Connection => 0
      case Ingress => 1
      case Egress => 2
    }

    static function FromByte(value: Byte): (r: Result<FrameLeg, KtpError>)
      ensures forall l: FrameLeg :: r == Ok(l) <==> l.ToByte() == value
      ensures r.Err? ==> r.error == InvalidLeg(value)
    {
      if value == 0 then Ok(Connection)
      else if value == 1 then Ok(Ingress)
      else if value == 2 then Ok(Egress)
      else Err(InvalidLeg(value))
    }
  }

  datatype KtpFrame = KtpFrame(
    frameType: FrameType,
    leg: FrameLeg,
    flags: Byte,
    sessionId: U64,
    payload: seq<Byte>)

  datatype KtpError =
    | WrongMagic
    | UnsupportedVersion(version: Byte)
    | UnknownFrameType(value: Byte)
    | InvalidLeg(leg: Byte)
    | InvalidSessionId
    | TruncatedHeader
    | TruncatedPayload
    | PayloadTooLarge(size: nat)
    | ReservedNonZero(reserved: nat)

  function Min(a: nat, b: nat): nat {
    if a <= b then a else b
  }

  /** Connection frames travel without a session, session frames with one. */
  function ValidateFrame(frame: KtpFrame): (error: Option<KtpError>)
  {
    if frame.frameType.IsConnectionLevel() then
      if frame.leg != Connection then Some(InvalidLeg(frame.leg.ToByte()))
      else if frame.sessionId != 0 then Some(InvalidSessionId)
      else None
    else
      if frame.leg == Connection then Some(InvalidLeg(frame.leg.ToByte()))
      else if frame.sessionId == 0 then Some(InvalidSessionId)
      else None
  }

  /** The frames the encoder accepts. */
  predicate Encodable(frame: KtpFrame) {
    && ValidateFrame(frame) == None
    && |frame.payload| <= KTP_MAX_PAYLOAD_LEN
  }

  /** Why the encoder refuses a frame, if it does. */
  function Refusal(frame: KtpFrame): (error: Option<KtpError>)
    ensures error == None <==> Encodable(frame)
  {
    if ValidateFrame(frame) != None then ValidateFrame(frame)
    else if |frame.payload| > KTP_MAX_PAYLOAD_LEN then Some(PayloadTooLarge(|frame.payload|))
    else None
  }

  function HeaderBytes(frameType: FrameType, leg: FrameLeg, flags: Byte, sessionId: U64, payloadLen: nat): (h: seq<Byte>)
    ensures |h| == KTP_HEADER_LEN
  {
    KTP_MAGIC + [KTP_VERSION, frameType.ToByte(), leg.ToByte(), flags]
    + ToBe(sessionId, 8) + ToBe(payloadLen, 4) + ToBe(0, 4)
  }

  function FrameBytes(frame: KtpFrame): (bytes: seq<Byte>)
    ensures |bytes| == KTP_HEADER_LEN + |frame.payload|
  {
    HeaderBytes(frame.frameType, frame.leg, frame.flags, frame.sessionId, |frame.payload|) + frame.payload
  }

  function FramesBytes(frames: seq<KtpFrame>): seq<Byte> {
    if frames == [] then [] else FrameBytes(frames[0]) + FramesBytes(frames[1..])
  }

  method AppendFrameBytes(frame: KtpFrame, bytes: ByteVec) returns (error: Option<KtpError>)
    modifies bytes
    ensures error == Refusal(frame)
    ensures bytes.data == if error == None then old(bytes.data) + FrameBytes(frame) else old(bytes.data)
  {
    error := ValidateFrame(frame);
    if error != None {
      return;
    }
    var payloadLen := |frame.payload|;
    if payloadLen > KTP_MAX_PAYLOAD_LEN {
      return Some(PayloadTooLarge(payloadLen));
    }
    ghost var start := bytes.data;
    bytes.data := bytes.data + KTP_MAGIC;
    bytes.data := bytes.data + [KTP_VERSION];
    bytes.data := bytes.data + [frame.frameType.ToByte()];
    bytes.data := bytes.data + [frame.leg.ToByte()];
    bytes.data := bytes.data + [frame.flags];
    ghost var fixed := KTP_MAGIC + [KTP_VERSION, frame.frameType.ToByte(), frame.leg.ToByte(), frame.flags];
    assert bytes.data == start + fixed;
    bytes.data := bytes.data + ToBe(frame.sessionId, 8);
    AppendAssociates(start, fixed, ToBe(frame.sessionId, 8));
    bytes.data := bytes.data + ToBe(payloadLen, 4);
    AppendAssociates(start, fixed + ToBe(frame.sessionId, 8), ToBe(payloadLen, 4));
    bytes.data := bytes.data + ToBe(0, 4);
    AppendAssociates(start, fixed + ToBe(frame.sessionId, 8) + ToBe(payloadLen, 4), ToBe(0, 4));
    bytes.data := bytes.data + frame.payload;
    AppendAssociates(start, HeaderBytes(frame.frameType, frame.leg, frame.flags, frame.sessionId, payloadLen), frame.payload);
  }

  method EncodeFrameInto(frame: KtpFrame, bytes: ByteVec) returns (error: Option<KtpError>)
    modifies bytes
    ensures error == Refusal(frame)
    ensures bytes.data == if error == None then FrameBytes(frame) else []
  {
    bytes.data := [];
    error := AppendFrameBytes(frame, bytes);
  }

  method EncodeFrame(frame: KtpFrame) returns (r: Result<seq<Byte>, KtpError>)
    ensures r.Ok? <==> Encodable(frame)
    ensures r.Ok? ==> r.value == FrameBytes(frame) && DecodeFrame(r.value, KTP_MAX_PAYLOAD_LEN) == Ok(frame)
    ensures r.Err? ==> Some(r.error) == Refusal(frame)
  {
    var bytes := new ByteVec();
    var error := EncodeFrameInto(frame, bytes);
    if error.Some? {
      return Err(error.value);
    }
    DecodeFrameIff(bytes.data, KTP_MAX_PAYLOAD_LEN, frame);
    return Ok(bytes.data);
  }

  /** The declared payload length, read from the header. */
  function DeclaredLen(bytes: seq<Byte>): (n: nat)
    requires |bytes| >= KTP_HEADER_LEN
    ensures n < 0x1_0000_0000
  {
    PowersOf256();
    FromBe(bytes[16..20])
  }

  function DecodeFrame(bytes: seq<Byte>, maxPayloadLen: nat): (r: Result<KtpFrame, KtpError>)
  {
    var effectiveMax := Min(maxPayloadLen, KTP_MAX_PAYLOAD_LEN);
    if |bytes| < KTP_HEADER_LEN then Err(TruncatedHeader)
    else if bytes[0..4] != KTP_MAGIC then Err(WrongMagic)
    else if bytes[4] != KTP_VERSION then Err(UnsupportedVersion(bytes[4]))
    else
      match FrameType.FromByte(bytes[5])
      case Err(e) => Err(e)
      case Ok(frameType) =>
        match FrameLeg.FromByte(bytes[6])
        case Err(e) => Err(e)
        case Ok(leg) =>
          var payloadLen := DeclaredLen(bytes);
          var reserved := FromBe(bytes[20..24]);
          if reserved != 0 then Err(ReservedNonZero(reserved))
          else if payloadLen > effectiveMax then Err(PayloadTooLarge(payloadLen))
          else if |bytes| < KTP_HEADER_LEN + payloadLen then Err(TruncatedPayload)
          else
            var frame := KtpFrame(frameType, leg, bytes[7], ReadU64(bytes[8..16]),
                                  bytes[KTP_HEADER_LEN..KTP_HEADER_LEN + payloadLen]);
            if ValidateFrame(frame) != None then Err(ValidateFrame(frame).value) else Ok(frame)
  }

  lemma HeaderFields(frameType: FrameType, leg: FrameLeg, flags: Byte, sessionId: U64, payloadLen: nat, rest: seq<Byte>)
    ensures var b := HeaderBytes(frameType, leg, flags, sessionId, payloadLen) + rest;
            && b[0..4] == KTP_MAGIC && b[4] == KTP_VERSION
            && b[5] == frameType.ToByte() && b[6] == leg.ToByte() && b[7] == flags
            && b[8..16] == ToBe(sessionId, 8)
            && b[16..20] == ToBe(payloadLen, 4)
            && b[20..24] == ToBe(0, 4)
            && b[24..] == rest
  {
  }

  /** The bytes of a header are determined by its fields. */
  lemma HeaderFromFields(b: seq<Byte>, frameType: FrameType, leg: FrameLeg, flags: Byte, sessionId: U64, payloadLen: nat)
    requires |b| >= KTP_HEADER_LEN
    requires b[0..4] == KTP_MAGIC && b[4] == KTP_VERSION
    requires b[5] == frameType.ToByte() && b[6] == leg.ToByte() && b[7] == flags
    requires b[8..16] == ToBe(sessionId, 8)
    requires b[16..20] == ToBe(payloadLen, 4)
    requires b[20..24] == ToBe(0, 4)
    ensures b[..24] == HeaderBytes(frameType, leg, flags, sessionId, payloadLen)
  {
  }

  lemma EncodedFields(bytes: seq<Byte>, frame: KtpFrame)
    requires FrameBytes(frame) <= bytes
    ensures bytes[0..4] == KTP_MAGIC && bytes[4] == KTP_VERSION
    ensures bytes[5] == frame.frameType.ToByte() && bytes[6] == frame.leg.ToByte() && bytes[7] == frame.flags
    ensures bytes[8..16] == ToBe(frame.sessionId, 8)
    ensures bytes[16..20] == ToBe(|frame.payload|, 4)
    ensures bytes[20..24] == ToBe(0, 4)
    ensures bytes[24..24 + |frame.payload|] == frame.payload
  {
    var header, rest := HeaderBytes(frame.frameType, frame.leg, frame.flags, frame.sessionId, |frame.payload|), bytes[|FrameBytes(frame)|..];
    assert bytes == FrameBytes(frame) + rest;
    hide HeaderBytes, ToBe;
    AppendAssociates(header, frame.payload, rest);
    HeaderFields(frame.frameType, frame.leg, frame.flags, frame.sessionId, |frame.payload|, frame.payload + rest);
    assert bytes[24..] == frame.payload + rest;
  }

  lemma EncodedIsDecoded(bytes: seq<Byte>, maxPayloadLen: nat, frame: KtpFrame)
    requires Encodable(frame) && |frame.payload| <= maxPayloadLen && FrameBytes(frame) <= bytes
    ensures DecodeFrame(bytes, maxPayloadLen) == Ok(frame)
  {
    EncodedFields(bytes, frame);
    PowersOf256();
    FromBeToBe(frame.sessionId, 8);
    FromBeToBe(|frame.payload|, 4);
    FromBeToBe(0, 4);
    assert FrameType.FromByte(bytes[5]) == Ok(frame.frameType);
    assert FrameLeg.FromByte(bytes[6]) == Ok(frame.leg);
    assert DeclaredLen(bytes) == |frame.payload|;
  }

  lemma DecodedFields(bytes: seq<Byte>, maxPayloadLen: nat, frame: KtpFrame)
    requires DecodeFrame(bytes, maxPayloadLen) == Ok(frame)
    ensures |bytes| >= KTP_HEADER_LEN + |frame.payload|
    ensures Encodable(frame) && |frame.payload| <= maxPayloadLen
    ensures bytes[0..4] == KTP_MAGIC && bytes[4] == KTP_VERSION
    ensures bytes[5] == frame.frameType.ToByte() && bytes[6] == frame.leg.ToByte() && bytes[7] == frame.flags
    ensures FromBe(bytes[8..16]) == frame.sessionId
    ensures FromBe(bytes[16..20]) == |frame.payload|
    ensures FromBe(bytes[20..24]) == 0
    ensures bytes[24..24 + |frame.payload|] == frame.payload
  {
  }

  lemma DecodedIsEncoded(bytes: seq<Byte>, maxPayloadLen: nat, frame: KtpFrame)
    requires DecodeFrame(bytes, maxPayloadLen) == Ok(frame)
    ensures Encodable(frame) && |frame.payload| <= maxPayloadLen && FrameBytes(frame) <= bytes
  {
    DecodedFields(bytes, maxPayloadLen, frame);
    var n := |frame.payload|;
    assert bytes[..24] == HeaderBytes(frame.frameType, frame.leg, frame.flags, frame.sessionId, n) by {
      ToBeFromBe(bytes[8..16]);
      ToBeFromBe(bytes[16..20]);
      ToBeFromBe(bytes[20..24]);
      HeaderFromFields(bytes, frame.frameType, frame.leg, frame.flags, frame.sessionId, n);
    }
    assert bytes[..24 + n] == bytes[..24] + bytes[24..24 + n];
  }

  /** Connection frames must carry no session and no leg, session frames both; the
      leg is checked first, then the session id, then the length. */
  lemma RefusalIs(frame: KtpFrame)
    ensures var connection := frame.frameType in {Hello, HelloAck, Ready, Ping, Pong, Stats};
            Refusal(frame) == if connection != (frame.leg == Connection) then Some(InvalidLeg(frame.leg.ToByte()))
                              else if connection != (frame.sessionId == 0) then Some(InvalidSessionId)
                              else if |frame.payload| > 1_048_576 then Some(PayloadTooLarge(|frame.payload|))
                              else None
  {
  }

  /** The bytes start with the header of these fields. */
  predicate HeaderAt(bytes: seq<Byte>, frameType: FrameType, leg: FrameLeg, flags: Byte, sessionId: U64, len: nat) {
    len < 0x1_0000_0000 && HeaderBytes(frameType, leg, flags, sessionId, len) <= bytes
  }

  lemma HeaderAtFields(bytes: seq<Byte>, frameType: FrameType, leg: FrameLeg, flags: Byte, sessionId: U64, len: nat)
    requires HeaderAt(bytes, frameType, leg, flags, sessionId, len)
    ensures bytes[0..4] == KTP_MAGIC && bytes[4] == KTP_VERSION
    ensures bytes[5] == frameType.ToByte() && bytes[6] == leg.ToByte() && bytes[7] == flags
    ensures FromBe(bytes[8..16]) == sessionId && FromBe(bytes[16..20]) == len && FromBe(bytes[20..24]) == 0
  {
    var header, rest := HeaderBytes(frameType, leg, flags, sessionId, len), bytes[24..];
    assert bytes == header + rest;
    HeaderFields(frameType, leg, flags, sessionId, len, rest);
    PowersOf256();
    FromBeToBe(sessionId, 8);
    FromBeToBe(len, 4);
    FromBeToBe(0, 4);
  }

  /** What bytes with a proper header decode to: too long, incomplete, or the frame
      unless a rule refuses it. */
  lemma HeadedDecode(bytes: seq<Byte>, maxPayloadLen: nat, frameType: FrameType, leg: FrameLeg, flags: Byte, sessionId: U64, len: nat)
    requires HeaderAt(bytes, frameType, leg, flags, sessionId, len)
    ensures var r := DecodeFrame(bytes, maxPayloadLen);
            if len > Min(maxPayloadLen, KTP_MAX_PAYLOAD_LEN) then r == Err(PayloadTooLarge(len))
            else if |bytes| < 24 + len then r == Err(TruncatedPayload)
            else
              var frame := KtpFrame(frameType, leg, flags, sessionId, bytes[24..24 + len]);
              r == if Refusal(frame).Some? then Err(Refusal(frame).value) else Ok(frame)
  {
    HeaderAtFields(bytes, frameType, leg, flags, sessionId, len);
    assert FrameType.FromByte(bytes[5]) == Ok(frameType);
    assert FrameLeg.FromByte(bytes[6]) == Ok(leg);
  }

  /** Any other 24 bytes or more are refused for one of their header fields. */
  lemma UnheadedDecode(bytes: seq<Byte>, maxPayloadLen: nat)
    requires |bytes| >= KTP_HEADER_LEN
    requires forall frameType, leg, flags, sessionId, len :: !HeaderAt(bytes, frameType, leg, flags, sessionId, len)
    ensures var r := DecodeFrame(bytes, maxPayloadLen);
            r.Err? && match r.error
                      case WrongMagic => bytes[0..4] != KTP_MAGIC
                      case UnsupportedVersion(version) => version == bytes[4] != KTP_VERSION
                      case UnknownFrameType(value) => value == bytes[5] && forall t: FrameType :: t.ToByte() != value
                      case InvalidLeg(leg) => leg == bytes[6] && forall l: FrameLeg :: l.ToByte() != leg
                      case ReservedNonZero(reserved) => reserved == FromBe(bytes[20..24]) != 0
                      case _ => false
  {
    var t, l := FrameType.FromByte(bytes[5]), FrameLeg.FromByte(bytes[6]);
    if t.Err? {
      assert forall u: FrameType :: u.ToByte() != bytes[5];
    }
    if l.Err? {
      assert forall u: FrameLeg :: u.ToByte() != bytes[6];
    }
    if && bytes[0..4] == KTP_MAGIC && bytes[4] == KTP_VERSION && t.Ok? && l.Ok? && FromBe(bytes[20..24]) == 0 {
      PowersOf256();
      ToBeFromBe(bytes[8..16]);
      ToBeFromBe(bytes[16..20]);
      ToBeFromBe(bytes[20..24]);
      HeaderFromFields(bytes, t.value, l.value, bytes[7], FromBe(bytes[8..16]), DeclaredLen(bytes));
      assert HeaderAt(bytes, t.value, l.value, bytes[7], FromBe(bytes[8..16]), DeclaredLen(bytes));
    }
  }

  /** Decoding succeeds with a frame exactly when the bytes start with that
      frame's encoding: the encoding is canonical in both directions. */
  lemma DecodeFrameIff(bytes: seq<Byte>, maxPayloadLen: nat, frame: KtpFrame)
    ensures DecodeFrame(bytes, maxPayloadLen) == Ok(frame)
       <==> Encodable(frame) && |frame.payload| <= maxPayloadLen && FrameBytes(frame) <= bytes
  {
    if DecodeFrame(bytes, maxPayloadLen) == Ok(frame) {
      DecodedIsEncoded(bytes, maxPayloadLen, frame);
    } else if Encodable(frame) && |frame.payload| <= maxPayloadLen && FrameBytes(frame) <= bytes {
      EncodedIsDecoded(bytes, maxPayloadLen, frame);
    }
  }

  /** No encoding is a proper prefix of another. */
  lemma EncodingsArePrefixFree(f: KtpFrame, g: KtpFrame)
    requires Encodable(f) && Encodable(g)
    requires FrameBytes(f) <= FrameBytes(g)
    ensures f == g
  {
    EncodedIsDecoded(FrameBytes(g), KTP_MAX_PAYLOAD_LEN, f);
    EncodedIsDecoded(FrameBytes(g), KTP_MAX_PAYLOAD_LEN, g);
  }

  /** So a concatenation of encodings parses in one way only. */
  lemma {:induction false} ConcatenationParsesUniquely(fs: seq<KtpFrame>, gs: seq<KtpFrame>)
    requires forall f | f in fs :: Encodable(f)
    requires forall g | g in gs :: Encodable(g)
    requires FramesBytes(fs) == FramesBytes(gs)
    ensures fs == gs
  {
    if fs != [] && gs != [] {
      var all := FramesBytes(fs);
      assert FrameBytes(fs[0]) <= all && FrameBytes(gs[0]) <= all;
      EncodedIsDecoded(all, KTP_MAX_PAYLOAD_LEN, fs[0]);
      EncodedIsDecoded(all, KTP_MAX_PAYLOAD_LEN, gs[0]);
      var n := |FrameBytes(fs[0])|;
      assert all[n..] == FramesBytes(fs[1..]);
      assert all[n..] == FramesBytes(gs[1..]);
      ConcatenationParsesUniquely(fs[1..], gs[1..]);
      assert fs == [fs[0]] + fs[1..] && gs == [gs[0]] + gs[1..];
    } else {
      assert |FramesBytes(fs)| == |FramesBytes(gs)|;
    }
  }

  /** Once the header and the declared payload are present, later bytes change
      nothing, whether the outcome is a frame or an error. */
  lemma DecodeIgnoresLaterBytes(bytes: seq<Byte>, more: seq<Byte>, maxPayloadLen: nat)
    requires DecodeFrame(bytes, maxPayloadLen) != Err(TruncatedHeader)
    requires DecodeFrame(bytes, maxPayloadLen) != Err(TruncatedPayload)
    ensures DecodeFrame(bytes + more, maxPayloadLen) == DecodeFrame(bytes, maxPayloadLen)
  {
    var b := bytes + more;
    assert b[0..4] == bytes[0..4] && b[8..16] == bytes[8..16];
    assert b[16..20] == bytes[16..20] && b[20..24] == bytes[20..24];
    if |bytes| >= KTP_HEADER_LEN + DeclaredLen(bytes) {
      assert b[24..24 + DeclaredLen(bytes)] == bytes[24..24 + DeclaredLen(bytes)];
    }
  }
}
