/** Frames out of a byte stream of sealed records. */
module RecordCodec {
  import opened Bytes
  import opened Ktp
  import opened KtpCrypto
  import opened ByteQueue
  import opened ReadCursor

  /** What a receiver is set up with. */
  datatype Receiver = Receiver(cipher: Cipher, direction: Direction, maxPayloadLen: nat, maxBufferLen: nat)

  /** The codec's verdict on the unread bytes when `next` is the expected sequence. */
  function RecordStep(rx: Receiver, next: U64, unread: seq<Byte>): Step<U64, KtpFrame, CryptoError>
  {
    if |unread| < KTP_CRYPTO_HEADER_LEN then NeedMore
    else
      match ParseCryptoHeader(unread, rx.direction)
      case Err(e) => Fail(e)
      case Ok(header) =>
        var recordLen := KTP_CRYPTO_HEADER_LEN + header.ciphertextLen;
        if recordLen > rx.maxBufferLen then Fail(CryptoBufferLimit(recordLen, rx.maxBufferLen))
        else if |unread| < recordLen then NeedMore
        else
          match OpenRecord(rx.cipher, rx.direction, rx.maxPayloadLen, next, unread[..recordLen])
          case Err(e) => Fail(e)
          case Ok(frame) => Deliver(frame, recordLen, if next < U64_MAX then next + 1 else next)
  }

  /** What the record codec says, short of "need more", is never changed by bytes
      pushed later. */
  function RecordParser(rx: Receiver): (p: Parser<U64, KtpFrame, CryptoError>)
    ensures Incremental(p)
  {
    var p := (next: U64, unread: seq<Byte>) => RecordStep(rx, next, unread);
    assert Incremental(p) by {
      forall next, u, more | !p(next, u).NeedMore?
        ensures p(next, u + more) == p(next, u)
      {
        RecordStepIgnoresLaterBytes(rx, next, u, more);
      }
    }
    p
  }

  datatype Taking = Taking(frames: seq<KtpFrame>, queue: Queue<U64>, failure: Option<CryptoError>)

  /** The frames already in the queue, up to `max` of them. */
  ghost function TakeFrames(p: Parser<U64, KtpFrame, CryptoError>, q: Queue<U64>, max: nat): Taking
    requires Incremental(p)
    decreases max
  {
    if max == 0 then Taking([], q, None)
    else
      match p(q.state, q.unread)
      case NeedMore => Taking([], q, None)
      case Fail(e) => Taking([], q, Some(e))
      case Deliver(f, n, next) =>
        var more := TakeFrames(p, Queue(next, q.unread[n..]), max - 1);
        more.(frames := [f] + more.frames)
  }

  lemma TakesNone(p: Parser<U64, KtpFrame, CryptoError>, q: Queue<U64>)
    requires Incremental(p)
    ensures TakeFrames(p, q, 0) == Taking([], q, None)
  {
  }

  lemma TakesOne(p: Parser<U64, KtpFrame, CryptoError>, q: Queue<U64>, max: nat)
    requires Incremental(p) && max > 0
    ensures match p(q.state, q.unread)
            case NeedMore => TakeFrames(p, q, max) == Taking([], q, None)
            case Fail(e) => TakeFrames(p, q, max) == Taking([], q, Some(e))
            case Deliver(f, n, next) =>
              var more := TakeFrames(p, Queue(next, q.unread[n..]), max - 1);
              TakeFrames(p, q, max) == more.(frames := [f] + more.frames)
  {
  }

  class KtpCryptoRecordCodec {
    const cursor: CursorBuffer
    const open: KtpCryptoOpen

    ghost predicate Valid()
      reads cursor
    {
      cursor.Valid()
    }

    function Footprint(): set<object> {
      {cursor, open}
    }

    ghost function Queue(): Queue<U64>
      requires Valid()
      reads cursor, open
    {
      ByteQueue.Queue.Queue(open.nextSequence, cursor.Unread())
    }

    function Rx(): Receiver {
      Receiver(open.cipher, open.direction, open.maxPayloadLen, cursor.maxBufferLen)
    }

    ghost function Parser(): Parser<U64, KtpFrame, CryptoError> {
      RecordParser(Rx())
    }

    constructor (cipher: Cipher, direction: Direction, maxPayloadLen: nat, maxBufferLen: nat)
      ensures Valid() && Queue() == ByteQueue.Queue.Queue(0, []) && fresh(Footprint())
      ensures cursor.consumed == cursor.moved == 0
      ensures Rx() == Receiver(cipher, direction, Min(maxPayloadLen, KTP_MAX_PAYLOAD_LEN), maxBufferLen)
    {
      cursor := new CursorBuffer(maxBufferLen);
      open := new KtpCryptoOpen(cipher, direction, maxPayloadLen);
    }

    method Push(chunk: seq<Byte>) returns (error: Option<CryptoError>)
      requires Valid()
      modifies cursor
      ensures Valid() && Queue().state == old(Queue().state)
      ensures var attempted := |old(Queue().unread)| + |chunk|;
              error == if attempted > cursor.maxBufferLen then Some(CryptoBufferLimit(attempted, cursor.maxBufferLen)) else None
      ensures Queue().unread == if error == None then old(Queue().unread) + chunk else old(Queue().unread)
      ensures Grows(old(cursor.LayoutNow()), cursor.LayoutNow())
    {
      var attempted := cursor.UnreadLen() + |chunk|;
      var ok := cursor.Push(chunk);
      if !ok {
        return Some(CryptoBufferLimit(attempted, cursor.maxBufferLen));
      }
      return None;
    }

    method NextFrame() returns (r: Result<Option<KtpFrame>, CryptoError>)
      requires Valid()
      modifies cursor, open
      ensures Valid()
      ensures Reads(old(cursor.LayoutNow()), cursor.LayoutNow())
      ensures match RecordStep(Rx(), old(Queue().state), old(Queue().unread))
              case NeedMore => r == Ok(None) && Queue() == old(Queue())
              case Fail(e) => r == Err(e) && Queue() == old(Queue())
              case Deliver(f, n, next) => && n <= |old(Queue().unread)|
                                          && r == Ok(Some(f))
                                          && Queue() == ByteQueue.Queue.Queue(next, old(Queue().unread)[n..])
      ensures r == Ok(None) <==> Incomplete(Rx(), old(Queue().unread))
      ensures Lawful(open.cipher) && Forged(Rx(), old(Queue().state), old(Queue().unread)) ==> r == Err(AuthFailed)
    {
      hide OpenRecord, ParseCryptoHeader;
      ghost var q := Queue();
      NextVerdict(Rx(), q.state, q.unread);
      hide Incomplete, Forged, Lawful;
      var unread := cursor.buffer[cursor.readOffset..];
      if |unread| < KTP_CRYPTO_HEADER_LEN {
        return Ok(None);
      }
      var parsed := ParseCryptoHeader(unread, open.direction);
      if parsed.Err? {
        return Err(parsed.error);
      }
      var recordLen := KTP_CRYPTO_HEADER_LEN + parsed.value.ciphertextLen;
      if recordLen > cursor.maxBufferLen {
        return Err(CryptoBufferLimit(recordLen, cursor.maxBufferLen));
      }
      if |unread| < recordLen {
        return Ok(None);
      }
      var recordStart := cursor.readOffset;
      var recordEnd := recordStart + recordLen;
      assert cursor.buffer[recordStart..recordEnd] == q.unread[..recordLen];
      var opening := open.OpenNextRecord(cursor.buffer[recordStart..recordEnd]);
      if opening.Err? {
        return Err(opening.error);
      }
      cursor.Consume(recordLen);
      return Ok(Some(opening.value));
    }

    /** The frames already buffered; on an error the frames decoded before it are
        dropped by the caller. */
    method NextFramesInto(maxFrames: nat) returns (frames: seq<KtpFrame>, error: Option<CryptoError>)
      requires Valid()
      modifies cursor, open
      ensures Valid()
      ensures Taking(frames, Queue(), error) == TakeFrames(Parser(), old(Queue()), maxFrames)
      ensures var all := ParseAll(Parser(), old(Queue().state), old(Queue().unread));
              && frames == all.frames[..Min(maxFrames, |all.frames|)]
              && error == if |all.frames| < maxFrames then all.halt else None
    {
      hide RecordStep, Incremental, Reads, TakeFrames, ParseAll, Incomplete, Forged;
      TakesTheFirst(Parser(), Queue(), maxFrames);
      frames := [];
      ghost var p, all := Parser(), TakeFrames(Parser(), Queue(), maxFrames);
      while |frames| < maxFrames
        invariant Valid() && |frames| <= maxFrames
        invariant var more := TakeFrames(p, Queue(), maxFrames - |frames|);
                  all == more.(frames := frames + more.frames)
        decreases maxFrames - |frames|
      {
        TakesOne(p, Queue(), maxFrames - |frames|);
        var next := NextFrame();
        if next.Err? {
          assert frames + [] == frames;
          return frames, Some(next.error);
        }
        if next.value.None? {
          assert frames + [] == frames;
          return frames, None;
        }
        ghost var after := TakeFrames(p, Queue(), maxFrames - |frames| - 1);
        AppendAssociates(frames, [next.value.value], after.frames);
        frames := frames + [next.value.value];
      }
      TakesNone(p, Queue());
      assert frames + [] == frames;
      return frames, None;
    }

    method Perform(op: Op) returns (out: Out<KtpFrame, CryptoError>)
      requires Valid()
      modifies cursor, open
      ensures Valid()
      ensures var a, b := old(cursor.LayoutNow()), cursor.LayoutNow(); if op.Next? then Reads(a, b) else Grows(a, b)
      ensures (Queue(), out) == Apply(Parser(), cursor.maxBufferLen, old(Queue()), op)
    {
      match op
      case Push(chunk) =>
        var error := Push(chunk);
        out := if error.Some? then Refused(error.value.attempted) else Pushed;
      case Next =>
        var r := NextFrame();
        out := match r case Err(e) => Error(e) case Ok(None) => Empty case Ok(Some(f)) => Frame(f);
    }

    /** Any run of pushes and reads gives what the plain byte queue gives. Along it
        the layouts of the buffer account for every byte consumed or moved, the
        buffer never exceeds its limit, and no more bytes are moved than consumed. */
    method RunAll(ops: seq<Op>) returns (outs: seq<Out<KtpFrame, CryptoError>>, ghost layouts: seq<Layout>)
      requires Valid()
      modifies cursor, open
      ensures Valid()
      ensures (Queue(), outs) == Run(Parser(), cursor.maxBufferLen, old(Queue()), ops)
      ensures |layouts| == |ops| + 1 && layouts[0] == old(cursor.LayoutNow()) && layouts[|ops|] == cursor.LayoutNow()
      ensures forall k | 0 <= k < |ops| ::
                if ops[k].Next? then Reads(layouts[k], layouts[k + 1]) else Grows(layouts[k], layouts[k + 1])
      ensures forall k | 0 <= k <= |ops| ::
                layouts[k].offset + layouts[k].live <= cursor.maxBufferLen && layouts[k].moved <= layouts[k].consumed
    {
      hide Reads, Grows, RecordStep;
      outs, layouts := [], [cursor.LayoutNow()];
      for i := 0 to |ops|
        invariant Valid()
        invariant (Queue(), outs) == Run(Parser(), cursor.maxBufferLen, old(Queue()), ops[..i])
        invariant |layouts| == i + 1 && layouts[0] == old(cursor.LayoutNow()) && layouts[i] == cursor.LayoutNow()
        invariant forall k | 0 <= k < i ::
                    if ops[k].Next? then Reads(layouts[k], layouts[k + 1]) else Grows(layouts[k], layouts[k + 1])
        invariant forall k | 0 <= k <= i ::
                    layouts[k].offset + layouts[k].live <= cursor.maxBufferLen && layouts[k].moved <= layouts[k].consumed
      {
        var out := Perform(ops[i]);
        RunExtended(Parser(), cursor.maxBufferLen, old(Queue()), ops[..i], ops[i]);
        assert ops[..i] + [ops[i]] == ops[..i + 1];
        outs := outs + [out];
        layouts := layouts + [cursor.LayoutNow()];
      }
      assert ops[..|ops|] == ops;
    }
  }

  // ---- The parser is incremental ----

  lemma CryptoHeaderIgnoresLaterBytes(record: seq<Byte>, more: seq<Byte>, direction: Direction)
    requires |record| >= KTP_CRYPTO_HEADER_LEN
    ensures ParseCryptoHeader(record + more, direction) == ParseCryptoHeader(record, direction)
  {
    var r := record + more;
    assert r[0..4] == record[0..4] && r[6..14] == record[6..14] && r[14..18] == record[14..18];
    assert forall i | 18 <= i < 24 :: r[i] == record[i];
  }

  lemma RecordStepIgnoresLaterBytes(rx: Receiver, next: U64, unread: seq<Byte>, more: seq<Byte>)
    requires !RecordStep(rx, next, unread).NeedMore?
    ensures RecordStep(rx, next, unread + more) == RecordStep(rx, next, unread)
  {
    CryptoHeaderIgnoresLaterBytes(unread, more, rx.direction);
    var parsed := ParseCryptoHeader(unread, rx.direction);
    if parsed.Ok? && KTP_CRYPTO_HEADER_LEN + parsed.value.ciphertextLen <= |unread| {
      var n := KTP_CRYPTO_HEADER_LEN + parsed.value.ciphertextLen;
      assert (unread + more)[..n] == unread[..n];
    }
  }

  // ---- Every verdict ----

  /** The bytes start with the header a sender writes for this sequence and length. */
  predicate Heads(direction: Direction, sequence: U64, len: nat, unread: seq<Byte>) {
    len < 0x1_0000_0000 && RecordHeader(direction, sequence, len) <= unread
  }

  lemma HeadsIff(direction: Direction, sequence: U64, len: nat, unread: seq<Byte>)
    ensures Heads(direction, sequence, len, unread) <==> ParseCryptoHeader(unread, direction) == Ok(CryptoHeader(sequence, len))
  {
    hide ParseCryptoHeader, RecordHeader;
    CryptoHeaderIff(unread, direction, CryptoHeader(sequence, len));
  }

  /** The header is incomplete, or the header of a record that fits the buffer is
      there and the rest of it is not. */
  ghost predicate Incomplete(rx: Receiver, unread: seq<Byte>) {
    || |unread| < KTP_CRYPTO_HEADER_LEN
    || exists sequence: U64, len: nat :: && Heads(rx.direction, sequence, len, unread)
                                         && |unread| < KTP_CRYPTO_HEADER_LEN + len <= rx.maxBufferLen
  }

  /** A complete record heads the bytes that no sender sealed under the expected
      sequence. */
  ghost predicate Forged(rx: Receiver, next: U64, unread: seq<Byte>) {
    && next < U64_MAX
    && exists len: nat :: && Heads(rx.direction, next, len, unread)
                          && KTP_CRYPTO_HEADER_LEN + len <= rx.maxBufferLen && KTP_CRYPTO_HEADER_LEN + len <= |unread|
                          && forall p :: SealedRecord(rx.cipher, rx.direction, next, p) != unread[..KTP_CRYPTO_HEADER_LEN + len]
  }

  lemma NextVerdict(rx: Receiver, next: U64, unread: seq<Byte>)
    ensures RecordStep(rx, next, unread).NeedMore? <==> Incomplete(rx, unread)
    ensures Lawful(rx.cipher) && Forged(rx, next, unread) ==> RecordStep(rx, next, unread) == Fail(AuthFailed)
  {
    hide RecordStep, Heads, Incomplete, SealedRecord, Lawful;
    WaitsIff(rx, next, unread);
    if Lawful(rx.cipher) && Forged(rx, next, unread) {
      var len: nat :| && Heads(rx.direction, next, len, unread)
                      && KTP_CRYPTO_HEADER_LEN + len <= rx.maxBufferLen && KTP_CRYPTO_HEADER_LEN + len <= |unread|
                      && forall p :: SealedRecord(rx.cipher, rx.direction, next, p) != unread[..KTP_CRYPTO_HEADER_LEN + len];
      HeadedVerdict(rx, next, unread, next, len);
    }
  }

  /** The codec waits for the rest of a record and for nothing else. */
  lemma WaitsIff(rx: Receiver, next: U64, unread: seq<Byte>)
    ensures RecordStep(rx, next, unread).NeedMore? <==> Incomplete(rx, unread)
  {
    hide ParseCryptoHeader, OpenRecord, Heads;
    var parsed := ParseCryptoHeader(unread, rx.direction);
    if parsed.Ok? {
      HeadsIff(rx.direction, parsed.value.sequence, parsed.value.ciphertextLen, unread);
    }
    forall sequence: U64, len: nat | Heads(rx.direction, sequence, len, unread)
      ensures parsed == Ok(CryptoHeader(sequence, len))
    {
      HeadsIff(rx.direction, sequence, len, unread);
    }
  }

  /** Bytes that no sender starts a record with are refused as malformed. */
  lemma ForeignBytesFail(rx: Receiver, next: U64, unread: seq<Byte>)
    requires |unread| >= KTP_CRYPTO_HEADER_LEN
    requires forall sequence: U64, len: nat :: !Heads(rx.direction, sequence, len, unread)
    ensures RecordStep(rx, next, unread).Fail? && RecordStep(rx, next, unread).error.MalformedRecord?
  {
    hide Heads;
    var parsed := ParseCryptoHeader(unread, rx.direction);
    if parsed.Ok? {
      HeadsIff(rx.direction, parsed.value.sequence, parsed.value.ciphertextLen, unread);
    }
  }

  /** What becomes of a record, once its header is there: refused when it cannot fit
      the buffer; when complete, refused for an exhausted or another sequence, refused
      as forged when it is no seal, and otherwise what its plaintext decodes to. */
  lemma HeadedVerdict(rx: Receiver, next: U64, unread: seq<Byte>, sequence: U64, len: nat)
    requires Lawful(rx.cipher) && Heads(rx.direction, sequence, len, unread)
    ensures var n := KTP_CRYPTO_HEADER_LEN + len;
            var step := RecordStep(rx, next, unread);
            && (n > rx.maxBufferLen ==> step == Fail(CryptoBufferLimit(n, rx.maxBufferLen)))
            && (n <= rx.maxBufferLen && n <= |unread| ==>
                  && (next == U64_MAX ==> step == Fail(SequenceExhausted))
                  && (next < U64_MAX && sequence != next ==> step == Fail(SequenceMismatch(next, sequence)))
                  && (next == sequence < U64_MAX ==>
                        && ((forall p :: SealedRecord(rx.cipher, rx.direction, next, p) != unread[..n]) ==> step == Fail(AuthFailed))
                        && (forall p | SealedRecord(rx.cipher, rx.direction, next, p) == unread[..n] ::
                              step == match DecodeFrame(p, rx.maxPayloadLen)
                                      case Err(e) => Fail(KtpCrypto.KtpFailure(e))
                                      case Ok(frame) => Deliver(frame, n, next + 1))))
  {
    hide ParseCryptoHeader, DecodeFrame, SealedRecord, RecordHeader, NonceBytes;
    HeadsIff(rx.direction, sequence, len, unread);
    var n := KTP_CRYPTO_HEADER_LEN + len;
    if n <= |unread| {
      var record := unread[..n];
      assert Heads(rx.direction, sequence, len, record);
      HeadsIff(rx.direction, sequence, len, record);
      if next == sequence < U64_MAX {
        var nonce := NonceBytes(rx.direction, next);
        var decrypted := rx.cipher.open(nonce, record[..24], record[24..24 + len]);
        if decrypted.Some? {
          DecryptedIsSealed(rx.cipher, rx.direction, next, record, len, decrypted.value);
          SealedLength(rx.cipher, rx.direction, next, decrypted.value);
        }
        forall p | SealedRecord(rx.cipher, rx.direction, next, p) == record
          ensures decrypted == Some(p)
        {
          SealedOpens(rx.cipher, rx.direction, next, record, len, p);
        }
      }
    }
  }

  lemma SealedLength(c: Cipher, direction: Direction, sequence: U64, plaintext: seq<Byte>)
    requires Lawful(c)
    ensures |SealedRecord(c, direction, sequence, plaintext)| == KTP_CRYPTO_HEADER_LEN + |plaintext| + TAG_LEN
  {
  }

  lemma SealedOpens(c: Cipher, direction: Direction, sequence: U64, record: seq<Byte>, len: nat, plaintext: seq<Byte>)
    requires Lawful(c) && |record| == KTP_CRYPTO_HEADER_LEN + len && SealedRecord(c, direction, sequence, plaintext) == record
    ensures c.open(NonceBytes(direction, sequence), record[..24], record[24..24 + len]) == Some(plaintext)
  {
    var header := RecordHeader(direction, sequence, |plaintext| + TAG_LEN);
    assert record[..24] == header && record[24..24 + len] == c.seal(NonceBytes(direction, sequence), header, plaintext);
  }

  /** A batch is the first frames of what the buffered bytes parse to, as many as
      were asked for; it fails exactly when the parse does before that many; and what
      stays behind parses to the frames not taken. */
  lemma {:induction false} TakesTheFirst(p: Parser<U64, KtpFrame, CryptoError>, q: Queue<U64>, max: nat)
    requires Incremental(p)
    ensures var all := ParseAll(p, q.state, q.unread);
            var t := TakeFrames(p, q, max);
            && t.frames == all.frames[..Min(max, |all.frames|)]
            && t.failure == (if |all.frames| < max then all.halt else None)
            && ParseAll(p, t.queue.state, t.queue.unread) == all.(frames := all.frames[|t.frames|..])
    decreases max
  {
    var all := ParseAll(p, q.state, q.unread);
    assert all.frames[..0] == [] && all.frames[0..] == all.frames;
    if max > 0 && p(q.state, q.unread).Deliver? {
      var Deliver(f, n, next) := p(q.state, q.unread);
      var q1 := Queue(next, q.unread[n..]);
      TakesTheFirst(p, q1, max - 1);
      var rest := ParseAll(p, next, q.unread[n..]);
      var k := Min(max - 1, |rest.frames|);
      assert all.frames == [f] + rest.frames;
      assert all.frames[..k + 1] == [f] + rest.frames[..k];
      assert all.frames[k + 1..] == rest.frames[k..];
    }
  }

  // ---- Sealed streams ----

  /** The receiver's limits admit the frame. */
  predicate Admits(rx: Receiver, frame: KtpFrame) {
    && Encodable(frame)
    && |frame.payload| <= rx.maxPayloadLen
    && RecordLen(frame) <= rx.maxBufferLen
  }

  function NextSequence(s: U64): U64 {
    if s < U64_MAX then s + 1 else s
  }

  /** The sender at the other end, under the same key and direction. */
  function RecordWire(rx: Receiver): Wire<U64, KtpFrame> {
    Wire((s: U64, f: KtpFrame) => FrameRecord(rx.cipher, rx.direction, s, f),
         (s: U64) => NextSequence(s),
         (s: U64, f: KtpFrame) => s < U64_MAX && Admits(rx, f))
  }

  lemma CompleteRecordOpens(rx: Receiver, next: U64, frame: KtpFrame, more: seq<Byte>)
    requires Lawful(rx.cipher) && Admits(rx, frame) && next < U64_MAX
    ensures var record := FrameRecord(rx.cipher, rx.direction, next, frame);
            RecordStep(rx, next, record + more) == Deliver(frame, |record|, next + 1)
  {
    var record := FrameRecord(rx.cipher, rx.direction, next, frame);
    var unread := record + more;
    var len := |FrameBytes(frame)| + TAG_LEN;
    var n := KTP_CRYPTO_HEADER_LEN + len;
    assert |record| == n && unread[..n] == record;
    assert RecordHeader(rx.direction, next, len) <= record;
    assert RecordHeader(rx.direction, next, len) <= unread;
    CryptoHeaderIff(unread, rx.direction, CryptoHeader(next, len));
    SealedIsOpened(rx.cipher, rx.direction, rx.maxPayloadLen, next, record, FrameBytes(frame), frame);
  }

  lemma PartialRecordWaits(rx: Receiver, next: U64, unread: seq<Byte>, frame: KtpFrame)
    requires Lawful(rx.cipher) && Admits(rx, frame)
    requires unread < FrameRecord(rx.cipher, rx.direction, next, frame)
    ensures RecordStep(rx, next, unread).NeedMore?
  {
    var record := FrameRecord(rx.cipher, rx.direction, next, frame);
    var len := |FrameBytes(frame)| + TAG_LEN;
    assert |record| == KTP_CRYPTO_HEADER_LEN + len;
    if |unread| >= KTP_CRYPTO_HEADER_LEN {
      assert RecordHeader(rx.direction, next, len) <= record;
      assert unread == record[..|unread|];
      assert RecordHeader(rx.direction, next, len) <= unread;
      CryptoHeaderIff(unread, rx.direction, CryptoHeader(next, len));
    }
  }

  /** The record codec takes exactly one record off the front of what the
      sender seals, and waits for the rest of an incomplete one. With it the
      statements about encoded streams hold for sealed frames. */
  lemma RecordParserUnderstandsSender(rx: Receiver)
    requires Lawful(rx.cipher)
    ensures Understands(RecordParser(rx), RecordWire(rx))
  {
    var p, w := RecordParser(rx), RecordWire(rx);
    forall s, f, more | w.admits(s, f)
      ensures p(s, w.encode(s, f) + more) == Deliver(f, |w.encode(s, f)|, w.succ(s))
    {
      CompleteRecordOpens(rx, s, f, more);
    }
    forall s, f, u | w.admits(s, f) && u < w.encode(s, f)
      ensures p(s, u).NeedMore?
    {
      PartialRecordWaits(rx, s, u, f);
    }
  }

  /** The encoding of the sender is the concatenation of its records. */
  lemma {:induction false} EncodingIsSealAll(rx: Receiver, sequence: U64, frames: seq<KtpFrame>)
    requires sequence + |frames| <= U64_MAX && forall f | f in frames :: Admits(rx, f)
    ensures Encoding(RecordWire(rx), sequence, frames) == SealAll(rx.cipher, rx.direction, sequence, frames)
    ensures AdmitsAll(RecordWire(rx), sequence, frames)
    ensures After(RecordWire(rx), sequence, |frames|) == sequence + |frames|
    decreases |frames|
  {
    hide FrameRecord, Encodable, FrameBytes;
    if frames != [] {
      EncodingIsSealAll(rx, sequence + 1, frames[1..]);
    }
  }

  /** A complete record is accepted exactly when it carries the expected sequence
      number: a replayed, reordered or skipped record is refused, whatever the
      frame in it. */
  lemma OnlyTheNextRecordIsAccepted(rx: Receiver, expected: U64, actual: U64, frame: KtpFrame, more: seq<Byte>)
    requires Lawful(rx.cipher) && Admits(rx, frame) && expected < U64_MAX && actual < U64_MAX
    ensures var record := FrameRecord(rx.cipher, rx.direction, actual, frame);
            RecordStep(rx, expected, record + more)
            == if actual == expected then Deliver(frame, |record|, expected + 1) else Fail(SequenceMismatch(expected, actual))
  {
    hide DecodeFrame, ParseCryptoHeader;
    if actual == expected {
      CompleteRecordOpens(rx, expected, frame, more);
    } else {
      var record := FrameRecord(rx.cipher, rx.direction, actual, frame);
      var unread := record + more;
      var len := |FrameBytes(frame)| + TAG_LEN;
      assert |record| == KTP_CRYPTO_HEADER_LEN + len && unread[..|record|] == record;
      var h := RecordHeader(rx.direction, actual, len);
      assert h <= record;
      assert h <= unread;
      CryptoHeaderIff(unread, rx.direction, CryptoHeader(actual, len));
      CryptoHeaderIff(record, rx.direction, CryptoHeader(actual, len));
      assert ParseCryptoHeader(unread, rx.direction) == Ok(CryptoHeader(actual, len));
      assert len < 0x1_0000_0000 && KTP_CRYPTO_HEADER_LEN + len <= rx.maxBufferLen;
      assert OpenRecord(rx.cipher, rx.direction, rx.maxPayloadLen, expected, record) == Err(SequenceMismatch(expected, actual));
    }
  }

  /** For every list of admitted frames, sealed by one sender from sequence 0,
      and every chunking and interleaving that pushes the first part of the
      records: the frames read are the first ones sent, no read fails, and the
      sender's sequence is the receiver's plus the records not yet read. Once all
      is pushed and a read comes back empty, exactly the frames sent were read. */
  lemma SealedFramesArrive(rx: Receiver, frames: seq<KtpFrame>, ops: seq<Op>, underWay: seq<Byte>)
    requires Lawful(rx.cipher)
    requires |frames| < U64_MAX && forall f | f in frames :: Admits(rx, f)
    requires Accepted(ops, Run(RecordParser(rx), rx.maxBufferLen, Queue(0, []), ops).1) + underWay
          == SealAll(rx.cipher, rx.direction, 0, frames)
    ensures var (last, outs) := Run(RecordParser(rx), rx.maxBufferLen, Queue(0, []), ops);
            && Frames(outs) <= frames
            && (forall out | out in outs :: !out.Error?)
            && |frames| == last.state + |frames[|Frames(outs)|..]|
            && (underWay == [] && RecordStep(rx, last.state, last.unread).NeedMore?
                ==> Frames(outs) == frames && last == Queue(|frames|, []))
  {
    hide RecordStep, FrameRecord, Understands, Incremental, Lawful, Encodable;
    var p, w, q := RecordParser(rx), RecordWire(rx), Queue(0, []);
    var (last, outs) := Run(p, rx.maxBufferLen, q, ops);
    var pushed := Accepted(ops, outs);
    RecordParserUnderstandsSender(rx);
    EncodingIsSealAll(rx, 0, frames);
    assert q.unread + (pushed + underWay) == pushed + underWay;
    FramesArrive(p, w, rx.maxBufferLen, q, ops, underWay, frames);
    EncodingIsSealAll(rx, 0, frames[..|Frames(outs)|]);
    if underWay == [] && RecordStep(rx, last.state, last.unread).NeedMore? {
      assert pushed + underWay == pushed;
      AllFramesArrive(p, w, rx.maxBufferLen, q, ops, frames);
    }
  }
}
