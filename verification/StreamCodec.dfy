/** Plain KTP frames out of a byte stream. */
module StreamCodec {
  import opened Bytes
  import opened Ktp
  import opened ByteQueue
  import opened ReadCursor

  datatype StreamCodecError = KtpFailure(error: KtpError) | BufferLimit(attempted: nat, limit: nat)

  type Unit = ()

  /** The decoder's verdict on the unread bytes. A header that fails on its own
      fails at once, before its payload is there. */
  function StreamStep(maxPayloadLen: nat, maxBufferLen: nat, unread: seq<Byte>): Step<Unit, KtpFrame, StreamCodecError>
  {
    if |unread| < KTP_HEADER_LEN then NeedMore
    else
      var early := DecodeFrame(unread[..KTP_HEADER_LEN], maxPayloadLen);
      if early.Err? && early.error != TruncatedPayload then Fail(KtpFailure(early.error))
      else
        var payloadLen := DeclaredLen(unread);
        if payloadLen > maxPayloadLen then Fail(KtpFailure(PayloadTooLarge(payloadLen)))
        else if KTP_HEADER_LEN + payloadLen > maxBufferLen then
          Fail(BufferLimit(KTP_HEADER_LEN + payloadLen, maxBufferLen))
        else if |unread| < KTP_HEADER_LEN + payloadLen then NeedMore
        else
          match DecodeFrame(unread[..KTP_HEADER_LEN + payloadLen], maxPayloadLen)
          case Err(e) => Fail(KtpFailure(e))
          case Ok(frame) => Deliver(frame, KTP_HEADER_LEN + payloadLen, ())
  }

  /** What the frame decoder says, short of "need more", is never changed by bytes
      pushed later. */
  function StreamParser(maxPayloadLen: nat, maxBufferLen: nat): (p: Parser<Unit, KtpFrame, StreamCodecError>)
    ensures Incremental(p)
  {
    var p := (s: Unit, unread: seq<Byte>) => StreamStep(maxPayloadLen, maxBufferLen, unread);
    assert Incremental(p) by {
      forall s, u, more | !p(s, u).NeedMore?
        ensures p(s, u + more) == p(s, u)
      {
        StreamStepIgnoresLaterBytes(maxPayloadLen, maxBufferLen, u, more);
      }
    }
    p
  }

  class KtpStreamCodec {
    const cursor: CursorBuffer
    const maxPayloadLen: nat

    ghost predicate Valid()
      reads cursor
    {
      cursor.Valid()
    }

    /** The codec seen as a plain byte queue. */
    ghost function Queue(): Queue<Unit>
      requires Valid()
      reads cursor
    {
      ByteQueue.Queue.Queue((), cursor.Unread())
    }

    ghost function Parser(): Parser<Unit, KtpFrame, StreamCodecError> {
      StreamParser(maxPayloadLen, cursor.maxBufferLen)
    }

    constructor (maxPayloadLen: nat, maxBufferLen: nat)
      ensures Valid() && Queue().unread == [] && fresh(cursor)
      ensures this.maxPayloadLen == Min(maxPayloadLen, KTP_MAX_PAYLOAD_LEN)
      ensures cursor.maxBufferLen == maxBufferLen
      ensures cursor.consumed == cursor.moved == 0
    {
      cursor := new CursorBuffer(maxBufferLen);
      this.maxPayloadLen := Min(maxPayloadLen, KTP_MAX_PAYLOAD_LEN);
    }

    method Push(chunk: seq<Byte>) returns (error: Option<StreamCodecError>)
      requires Valid()
      modifies cursor
      ensures Valid()
      ensures var attempted := |old(Queue().unread)| + |chunk|;
              error == if attempted > cursor.maxBufferLen then Some(BufferLimit(attempted, cursor.maxBufferLen)) else None
      ensures Queue().unread == if error == None then old(Queue().unread) + chunk else old(Queue().unread)
      ensures Grows(old(cursor.LayoutNow()), cursor.LayoutNow())
    {
      var attempted := cursor.UnreadLen() + |chunk|;
      var ok := cursor.Push(chunk);
      if !ok {
        return Some(BufferLimit(attempted, cursor.maxBufferLen));
      }
      return None;
    }

    method NextFrame() returns (r: Result<Option<KtpFrame>, StreamCodecError>)
      requires Valid()
      modifies cursor
      ensures Valid()
      ensures Reads(old(cursor.LayoutNow()), cursor.LayoutNow())
      ensures match StreamStep(maxPayloadLen, cursor.maxBufferLen, old(Queue().unread))
              case NeedMore => r == Ok(None) && Queue().unread == old(Queue().unread)
              case Fail(e) => r == Err(e) && Queue().unread == old(Queue().unread)
              case Deliver(f, n, _) => n <= |old(Queue().unread)| && r == Ok(Some(f)) && Queue().unread == old(Queue().unread)[n..]
    {
      hide DecodeFrame;
      var unread := cursor.buffer[cursor.readOffset..];
      if |unread| < KTP_HEADER_LEN {
        return Ok(None);
      }
      var early := DecodeFrame(unread[..KTP_HEADER_LEN], maxPayloadLen);
      if early.Err? && early.error != TruncatedPayload {
        return Err(KtpFailure(early.error));
      }
      var payloadLen := DeclaredLen(unread);
      if payloadLen > maxPayloadLen {
        return Err(KtpFailure(PayloadTooLarge(payloadLen)));
      }
      var frameLen := KTP_HEADER_LEN + payloadLen;
      if frameLen > cursor.maxBufferLen {
        return Err(BufferLimit(frameLen, cursor.maxBufferLen));
      }
      if |unread| < frameLen {
        return Ok(None);
      }
      var decoded := DecodeFrame(unread[..frameLen], maxPayloadLen);
      if decoded.Err? {
        return Err(KtpFailure(decoded.error));
      }
      cursor.Consume(frameLen);
      return Ok(Some(decoded.value));
    }

    method Perform(op: Op) returns (out: Out<KtpFrame, StreamCodecError>)
      requires Valid()
      modifies cursor
      ensures Valid()
      ensures var a, b := old(cursor.LayoutNow()), cursor.LayoutNow(); if op.Next? then Reads(a, b) else Grows(a, b)
      ensures (Queue(), out) == Apply(Parser(), cursor.maxBufferLen, old(Queue()), op)
    {
      match op
      case Push(chunk) =>
        var error := Push(chunk);
        out := if error.Some? then Refused(error.value.attempted) else Pushed;
      case Next =>
        var r := NextFrame();
        out := match r case Err(e) => Error(e) case Ok(None) => Empty case Ok(Some(f)) => Frame(f);
    }

    /** Any run of pushes and reads gives what the plain byte queue gives. Along it
        the layouts of the buffer account for every byte consumed or moved, the
        buffer never exceeds its limit, and no more bytes are moved than consumed. */
    method RunAll(ops: seq<Op>) returns (outs: seq<Out<KtpFrame, StreamCodecError>>, ghost layouts: seq<Layout>)
      requires Valid()
      modifies cursor
      ensures Valid()
      ensures (Queue(), outs) == Run(Parser(), cursor.maxBufferLen, old(Queue()), ops)
      ensures |layouts| == |ops| + 1 && layouts[0] == old(cursor.LayoutNow()) && layouts[|ops|] == cursor.LayoutNow()
      ensures forall k | 0 <= k < |ops| ::
                if ops[k].Next? then Reads(layouts[k], layouts[k + 1]) else Grows(layouts[k], layouts[k + 1])
      ensures forall k | 0 <= k <= |ops| ::
                layouts[k].offset + layouts[k].live <= cursor.maxBufferLen && layouts[k].moved <= layouts[k].consumed
    {
      hide Reads, Grows, StreamStep;
      outs, layouts := [], [cursor.LayoutNow()];
      for i := 0 to |ops|
        invariant Valid()
        invariant (Queue(), outs) == Run(Parser(), cursor.maxBufferLen, old(Queue()), ops[..i])
        invariant |layouts| == i + 1 && layouts[0] == old(cursor.LayoutNow()) && layouts[i] == cursor.LayoutNow()
        invariant forall k | 0 <= k < i ::
                    if ops[k].Next? then Reads(layouts[k], layouts[k + 1]) else Grows(layouts[k], layouts[k + 1])
        invariant forall k | 0 <= k <= i ::
                    layouts[k].offset + layouts[k].live <= cursor.maxBufferLen && layouts[k].moved <= layouts[k].consumed
      {
        var out := Perform(ops[i]);
        RunExtended(Parser(), cursor.maxBufferLen, old(Queue()), ops[..i], ops[i]);
        assert ops[..i] + [ops[i]] == ops[..i + 1];
        outs := outs + [out];
        layouts := layouts + [cursor.LayoutNow()];
      }
      assert ops[..|ops|] == ops;
    }
  }

  lemma DeliveredIsEncoded(maxPayloadLen: nat, maxBufferLen: nat, unread: seq<Byte>, frame: KtpFrame, n: nat)
    requires StreamStep(maxPayloadLen, maxBufferLen, unread) == Deliver(frame, n, ())
    ensures Encodable(frame) && |frame.payload| <= maxPayloadLen && n <= maxBufferLen
    ensures n == |FrameBytes(frame)| && FrameBytes(frame) <= unread
  {
    DecodedIsEncoded(unread[..n], maxPayloadLen, frame);
    DecodedFields(unread[..n], maxPayloadLen, frame);
    assert unread[..n][16..20] == unread[16..20];
  }

  lemma EncodedIsDelivered(maxPayloadLen: nat, maxBufferLen: nat, unread: seq<Byte>, frame: KtpFrame)
    requires Encodable(frame) && |frame.payload| <= maxPayloadLen && |FrameBytes(frame)| <= maxBufferLen
    requires FrameBytes(frame) <= unread
    ensures StreamStep(maxPayloadLen, maxBufferLen, unread) == Deliver(frame, |FrameBytes(frame)|, ())
  {
    hide FrameBytes, Encodable, DecodeFrame;
    var n := |FrameBytes(frame)|;
    EncodedIsDecoded(unread[..n], maxPayloadLen, frame);
    DecodedFields(unread[..n], maxPayloadLen, frame);
    assert unread[..n][16..20] == unread[16..20];
    HeaderOfWholeFrame(unread[..n], maxPayloadLen, frame);
    assert unread[..n][..24] == unread[..24];
  }

  /** A frame is delivered exactly when the unread bytes start with its encoding
      and it is within the limits; it takes exactly those bytes. */
  lemma StreamStepDelivers(maxPayloadLen: nat, maxBufferLen: nat, unread: seq<Byte>, frame: KtpFrame, n: nat)
    ensures StreamStep(maxPayloadLen, maxBufferLen, unread) == Deliver(frame, n, ())
       <==> && Encodable(frame) && |frame.payload| <= maxPayloadLen && n <= maxBufferLen
            && n == |FrameBytes(frame)| && FrameBytes(frame) <= unread
  {
    hide StreamStep, Encodable, FrameBytes;
    if StreamStep(maxPayloadLen, maxBufferLen, unread) == Deliver(frame, n, ()) {
      DeliveredIsEncoded(maxPayloadLen, maxBufferLen, unread, frame, n);
    }
    if && Encodable(frame) && |frame.payload| <= maxPayloadLen && n <= maxBufferLen
       && n == |FrameBytes(frame)| && FrameBytes(frame) <= unread {
      EncodedIsDelivered(maxPayloadLen, maxBufferLen, unread, frame);
    }
  }

  /** The header of a decodable frame, decoded alone, is at worst truncated. */
  lemma HeaderOfWholeFrame(bytes: seq<Byte>, maxPayloadLen: nat, frame: KtpFrame)
    requires DecodeFrame(bytes, maxPayloadLen) == Ok(frame)
    ensures var early := DecodeFrame(bytes[..24], maxPayloadLen); early.Ok? || early.error == TruncatedPayload
  {
    var h := bytes[..24];
    var early := DecodeFrame(h, maxPayloadLen);
    var later := bytes[24..];
    assert h + later == bytes;
    if early.Err? && early.error != TruncatedPayload {
      DecodeIgnoresLaterBytes(h, later, maxPayloadLen);
    }
  }

  lemma HeaderStays(unread: seq<Byte>, n: nat, frameType: FrameType, leg: FrameLeg, flags: Byte, sessionId: U64, len: nat)
    requires HeaderAt(unread, frameType, leg, flags, sessionId, len) && 24 <= n
    ensures 24 <= |unread| && DeclaredLen(unread) == len
    ensures n <= |unread| ==> HeaderAt(unread[..n], frameType, leg, flags, sessionId, len)
  {
    HeaderAtFields(unread, frameType, leg, flags, sessionId, len);
  }

  /** Every verdict on bytes with a proper header: the payload is too long, the frame
      cannot fit the buffer, the rest is awaited, or the frame is delivered unless a
      rule refuses it. A frame without payload is checked before the buffer limit. */
  lemma HeadedVerdict(maxPayloadLen: nat, maxBufferLen: nat, unread: seq<Byte>,
                      frameType: FrameType, leg: FrameLeg, flags: Byte, sessionId: U64, len: nat)
    requires HeaderAt(unread, frameType, leg, flags, sessionId, len)
    ensures var step := StreamStep(maxPayloadLen, maxBufferLen, unread);
            var n := KTP_HEADER_LEN + len;
            if len > Min(maxPayloadLen, KTP_MAX_PAYLOAD_LEN) then step == Fail(KtpFailure(PayloadTooLarge(len)))
            else if len > 0 && n > maxBufferLen then step == Fail(BufferLimit(n, maxBufferLen))
            else if |unread| < n then step == NeedMore
            else
              var frame := KtpFrame(frameType, leg, flags, sessionId, unread[24..n]);
              step == if Refusal(frame).Some? then Fail(KtpFailure(Refusal(frame).value))
                      else if n > maxBufferLen then Fail(BufferLimit(n, maxBufferLen))
                      else Deliver(frame, n, ())
  {
    hide DecodeFrame, Refusal, HeaderAt, DeclaredLen;
    var n := KTP_HEADER_LEN + len;
    HeaderStays(unread, 24, frameType, leg, flags, sessionId, len);
    var header := unread[..24];
    HeadedDecode(header, maxPayloadLen, frameType, leg, flags, sessionId, len);
    if n <= |unread| {
      HeaderStays(unread, n, frameType, leg, flags, sessionId, len);
      HeadedDecode(unread[..n], maxPayloadLen, frameType, leg, flags, sessionId, len);
      assert unread[..n][24..24 + len] == unread[24..n];
      assert len == 0 ==> header[24..24] == unread[24..n];
      RefusalIs(KtpFrame(frameType, leg, flags, sessionId, unread[24..n]));
    }
  }

  /** Any other 24 bytes or more fail at once, for one of their header fields. */
  lemma UnheadedFails(maxPayloadLen: nat, maxBufferLen: nat, unread: seq<Byte>)
    requires |unread| >= KTP_HEADER_LEN
    requires forall frameType, leg, flags, sessionId, len :: !HeaderAt(unread, frameType, leg, flags, sessionId, len)
    ensures var refused := DecodeFrame(unread[..24], maxPayloadLen);
            refused.Err? && StreamStep(maxPayloadLen, maxBufferLen, unread) == Fail(KtpFailure(refused.error))
  {
    hide DecodeFrame;
    var header := unread[..24];
    forall frameType, leg, flags, sessionId, len
      ensures !HeaderAt(header, frameType, leg, flags, sessionId, len)
    {
      assert HeaderAt(header, frameType, leg, flags, sessionId, len) ==> HeaderAt(unread, frameType, leg, flags, sessionId, len);
    }
    UnheadedDecode(header, maxPayloadLen);
  }

  lemma StreamStepIgnoresLaterBytes(maxPayloadLen: nat, maxBufferLen: nat, unread: seq<Byte>, more: seq<Byte>)
    requires !StreamStep(maxPayloadLen, maxBufferLen, unread).NeedMore?
    ensures StreamStep(maxPayloadLen, maxBufferLen, unread + more) == StreamStep(maxPayloadLen, maxBufferLen, unread)
  {
    var u := unread + more;
    assert u[..24] == unread[..24];
    assert u[16..20] == unread[16..20];
    var n := 24 + DeclaredLen(unread);
    if |unread| >= n {
      assert u[..n] == unread[..n];
    }
  }

  /** The limits admit the frame. */
  predicate Admits(maxPayloadLen: nat, maxBufferLen: nat, frame: KtpFrame) {
    Encodable(frame) && |frame.payload| <= maxPayloadLen && |FrameBytes(frame)| <= maxBufferLen
  }

  function FrameWire(maxPayloadLen: nat, maxBufferLen: nat): Wire<Unit, KtpFrame> {
    Wire((s: Unit, f: KtpFrame) => FrameBytes(f),
         (s: Unit) => (),
         (s: Unit, f: KtpFrame) => Admits(maxPayloadLen, maxBufferLen, f))
  }

  lemma PartialFrameWaits(maxPayloadLen: nat, maxBufferLen: nat, unread: seq<Byte>, frame: KtpFrame)
    requires Admits(maxPayloadLen, maxBufferLen, frame) && unread < FrameBytes(frame)
    ensures StreamStep(maxPayloadLen, maxBufferLen, unread).NeedMore?
  {
    var whole := FrameBytes(frame);
    if |unread| >= KTP_HEADER_LEN {
      EncodedIsDecoded(whole, maxPayloadLen, frame);
      HeaderOfWholeFrame(whole, maxPayloadLen, frame);
      DecodedFields(whole, maxPayloadLen, frame);
      assert unread == whole[..|unread|];
      assert unread[..24] == whole[..24] && unread[16..20] == whole[16..20];
    }
  }

  /** The frame decoder takes exactly one encoding off the front, and waits for
      the rest of an incomplete one. With it the statements about encoded
      streams hold for plain frames. */
  lemma StreamParserUnderstandsEncoder(maxPayloadLen: nat, maxBufferLen: nat)
    ensures Understands(StreamParser(maxPayloadLen, maxBufferLen), FrameWire(maxPayloadLen, maxBufferLen))
  {
    var p, w := StreamParser(maxPayloadLen, maxBufferLen), FrameWire(maxPayloadLen, maxBufferLen);
    forall s, f, more | w.admits(s, f)
      ensures p(s, w.encode(s, f) + more) == Deliver(f, |w.encode(s, f)|, w.succ(s))
    {
      assert FrameBytes(f) <= FrameBytes(f) + more;
      StreamStepDelivers(maxPayloadLen, maxBufferLen, FrameBytes(f) + more, f, |FrameBytes(f)|);
    }
    forall s, f, u | w.admits(s, f) && u < w.encode(s, f)
      ensures p(s, u).NeedMore?
    {
      PartialFrameWaits(maxPayloadLen, maxBufferLen, u, f);
    }
  }

  lemma {:induction false} EncodingIsFramesBytes(maxPayloadLen: nat, maxBufferLen: nat, frames: seq<KtpFrame>)
    requires forall f | f in frames :: Admits(maxPayloadLen, maxBufferLen, f)
    ensures Encoding(FrameWire(maxPayloadLen, maxBufferLen), (), frames) == FramesBytes(frames)
    ensures ByteQueue.AdmitsAll(FrameWire(maxPayloadLen, maxBufferLen), (), frames)
  {
    if frames != [] {
      EncodingIsFramesBytes(maxPayloadLen, maxBufferLen, frames[1..]);
    }
  }

  /** Frames encoded, cut into any chunks and pushed in any interleaving with
      reads: the frames read are the first ones sent, no read fails, and once all
      is pushed and a read comes back empty, exactly the frames sent were read. */
  lemma EncodedFramesArrive(maxPayloadLen: nat, maxBufferLen: nat, frames: seq<KtpFrame>, ops: seq<Op>, underWay: seq<Byte>)
    requires forall f | f in frames :: Admits(maxPayloadLen, maxBufferLen, f)
    requires Accepted(ops, Run(StreamParser(maxPayloadLen, maxBufferLen), maxBufferLen, Queue((), []), ops).1) + underWay
          == FramesBytes(frames)
    ensures var (last, outs) := Run(StreamParser(maxPayloadLen, maxBufferLen), maxBufferLen, Queue((), []), ops);
            && Frames(outs) <= frames
            && (forall out | out in outs :: !out.Error?)
            && (underWay == [] && StreamStep(maxPayloadLen, maxBufferLen, last.unread).NeedMore?
                ==> Frames(outs) == frames && last.unread == [])
  {
    var p, w, q := StreamParser(maxPayloadLen, maxBufferLen), FrameWire(maxPayloadLen, maxBufferLen), Queue((), []);
    var (last, outs) := Run(p, maxBufferLen, q, ops);
    var pushed := Accepted(ops, outs);
    StreamParserUnderstandsEncoder(maxPayloadLen, maxBufferLen);
    EncodingIsFramesBytes(maxPayloadLen, maxBufferLen, frames);
    assert q.unread + (pushed + underWay) == pushed + underWay;
    FramesArrive(p, w, maxBufferLen, q, ops, underWay, frames);
    if underWay == [] && StreamStep(maxPayloadLen, maxBufferLen, last.unread).NeedMore? {
      assert pushed + underWay == pushed;
      AllFramesArrive(p, w, maxBufferLen, q, ops, frames);
    }
  }
}
