/** A socket carrying sealed records both ways: the read loops, which push what
    the socket returns until a frame is complete, and the batched sends. The
    socket is a script of read results; a call that runs out of script is parked
    on the socket, where a timeout may drop it. */
module EncryptedStream {
  import opened Bytes
  import opened Ktp
  import opened KtpCrypto
  import opened ByteQueue
  import opened RecordCodec

  const READ_BUFFER_LEN: nat := 16 * 1024

  /** Result of one socket read: bytes (none means the peer closed) or an error. */
  datatype ReadEvent = Data(bytes: seq<Byte>) | IoError

  /** Why a call ends without a frame. */
  datatype Stop = CryptoStop(error: CryptoError) | IoStop | Closed | Parked

  /** Result of writing a buffer: all of it, or an error after some prefix. */
  datatype WriteEvent = Written | WriteFailed(prefix: nat)

  type Records = Parser<U64, KtpFrame, CryptoError>

  function Received(script: seq<ReadEvent>): seq<Byte> {
    if script == [] then []
    else (if script[0].Data? then script[0].bytes else []) + Received(script[1..])
  }

  // ---- Reading, as functions of the queue and the script ----

  datatype Reading<T> = Reading(result: Result<T, Stop>, queue: Queue<U64>, script: seq<ReadEvent>)

  /** Waits for the socket and pushes what it returns; Err if the call ends here. */
  function Refill(limit: nat, q: Queue<U64>, script: seq<ReadEvent>): (r: Reading<()>)
    ensures r.result.Ok? ==> |r.script| < |script|
  {
    if script == [] then Reading(Err(Parked), q, [])
    else
      match script[0]
      case IoError => Reading(Err(IoStop), q, script[1..])
      case Data(bytes) =>
        if bytes == [] then Reading(Err(Closed), q, script[1..])
        else if |q.unread| + |bytes| > limit then
          Reading(Err(CryptoStop(CryptoBufferLimit(|q.unread| + |bytes|, limit))), q, script[1..])
        else Reading(Ok(()), q.(unread := q.unread + bytes), script[1..])
  }

  ghost function ReadFrame(p: Records, limit: nat, q: Queue<U64>, script: seq<ReadEvent>): Reading<KtpFrame>
    requires Incremental(p)
    decreases |script|
  {
    match p(q.state, q.unread)
    case Deliver(f, n, next) => Reading(Ok(f), Queue(next, q.unread[n..]), script)
    case Fail(e) => Reading(Err(CryptoStop(e)), q, script)
    case NeedMore =>
      var refill := Refill(limit, q, script);
      if refill.result.Err? then Reading(Err(refill.result.error), refill.queue, refill.script)
      else ReadFrame(p, limit, refill.queue, refill.script)
  }

  /** A batch that meets a bad record is lost as a whole, although the queue has
      moved past the good records before it. */
  ghost function ReadBatch(p: Records, limit: nat, q: Queue<U64>, script: seq<ReadEvent>, max: nat): Reading<seq<KtpFrame>>
    requires Incremental(p)
    decreases |script|
  {
    if max == 0 then Reading(Ok([]), q, script)
    else
      var taking := TakeFrames(p, q, max);
      if taking.failure.Some? then Reading(Err(CryptoStop(taking.failure.value)), taking.queue, script)
      else if taking.frames != [] then Reading(Ok(taking.frames), taking.queue, script)
      else
        var refill := Refill(limit, taking.queue, script);
        if refill.result.Err? then Reading(Err(refill.result.error), refill.queue, refill.script)
        else ReadBatch(p, limit, refill.queue, refill.script, max)
  }

  /** What reaches the socket of a buffer. */
  function Sent(event: WriteEvent, bytes: seq<Byte>): seq<Byte> {
    match event
    case Written => bytes
    case WriteFailed(prefix) => bytes[..Min(prefix, |bytes|)]
  }

  /** How many frames of a batch are sealed before the first one is refused, once
      the first `i` have been. */
  function SealableFrom(sequence: U64, frames: seq<KtpFrame>, i: nat): (n: nat)
    requires i <= |frames| && sequence + i <= U64_MAX
    ensures i <= n <= |frames| && sequence + n <= U64_MAX
    ensures n < |frames| ==> SealRefusal(sequence + n, frames[n]).Some?
    decreases |frames| - i
  {
    if i == |frames| || SealRefusal(sequence + i, frames[i]).Some? then i else SealableFrom(sequence, frames, i + 1)
  }

  function Sealable(sequence: U64, frames: seq<KtpFrame>): (n: nat)
    ensures n <= |frames| && sequence + n <= U64_MAX
    ensures n < |frames| ==> SealRefusal(sequence + n, frames[n]).Some?
  {
    SealableFrom(sequence, frames, 0)
  }

  /** Why the first refused frame of a batch is refused, if one is. */
  function BatchRefusal(sequence: U64, frames: seq<KtpFrame>): (error: Option<CryptoError>)
    ensures error == None <==> Sealable(sequence, frames) == |frames|
    ensures error == None ==> sequence + |frames| <= U64_MAX
  {
    var n := Sealable(sequence, frames);
    if n < |frames| then SealRefusal(sequence + n, frames[n]) else None
  }

  /** Frames that can be encoded are refused only for want of sequence numbers. */
  lemma OnlyExhaustionStops(sequence: U64, frames: seq<KtpFrame>)
    requires forall f | f in frames :: Encodable(f)
    ensures BatchRefusal(sequence, frames) in {None, Some(SequenceExhausted)}
  {
    hide Encodable;
    var n := Sealable(sequence, frames);
    if n < |frames| {
      assert frames[n] in frames;
    }
  }

  lemma SealableSteps(sequence: U64, frames: seq<KtpFrame>, i: nat)
    requires i < |frames| && sequence + i <= U64_MAX && SealableFrom(sequence, frames, i) == Sealable(sequence, frames)
    ensures var refused := SealRefusal(sequence + i, frames[i]);
            if refused.Some? then Sealable(sequence, frames) == i && BatchRefusal(sequence, frames) == refused
            else sequence + i < U64_MAX && SealableFrom(sequence, frames, i + 1) == Sealable(sequence, frames)
  {
  }

  lemma SealAllPrefix(c: Cipher, direction: Direction, sequence: U64, frames: seq<KtpFrame>, i: nat)
    requires i < |frames| && sequence + i + 1 <= U64_MAX
    ensures SealAll(c, direction, sequence, frames[..i + 1])
         == SealAll(c, direction, sequence, frames[..i]) + FrameRecord(c, direction, sequence + i, frames[i])
  {
    hide FrameRecord, SealAll;
    SealAllExtended(c, direction, sequence, frames[..i], frames[i]);
    assert frames[..i] + [frames[i]] == frames[..i + 1];
  }

  /** Fills the buffer with the records of the frames, up to the first refused one. */
  method SealBatch(seal: KtpCryptoSeal, buffer: ByteVec, frames: seq<KtpFrame>) returns (refused: Option<CryptoError>)
    requires seal.Valid()
    modifies seal, buffer
    ensures seal.Valid() && seal.sequence == old(seal.sequence) + Sealable(old(seal.sequence), frames)
    ensures refused == BatchRefusal(old(seal.sequence), frames)
    ensures refused == None ==> buffer.data == SealAll(seal.cipher, seal.direction, old(seal.sequence), frames)
  {
    buffer.data := [];
    ghost var first := seal.sequence;
    assert SealAll(seal.cipher, seal.direction, first, frames[..0]) == [];
    assert SealableFrom(first, frames, 0) == Sealable(first, frames);
    assert frames[..|frames|] == frames;
    hide *;
    for i := 0 to |frames|
      invariant seal.Valid() && seal.sequence == first + i <= U64_MAX
      invariant SealableFrom(first, frames, i) == Sealable(first, frames)
      invariant buffer.data == SealAll(seal.cipher, seal.direction, first, frames[..i])
    {
      SealableSteps(first, frames, i);
      ghost var before := buffer.data;
      refused := seal.AppendSealedFrame(frames[i], buffer);
      if refused.Some? {
        return;
      }
      assert buffer.data == before + FrameRecord(seal.cipher, seal.direction, first + i, frames[i]);
      SealAllPrefix(seal.cipher, seal.direction, first, frames, i);
    }
    return None;
  }

  // ---- The stream ----

  class KtpEncryptedStream {
    const seal: KtpCryptoSeal
    const codec: KtpCryptoRecordCodec
    const writeBuffer: ByteVec

    /** What the socket will return to the next reads, and what was written to it. */
    var incoming: seq<ReadEvent>
    var written: seq<Byte>

    function Footprint(): set<object> {
      {this, seal, writeBuffer} + codec.Footprint()
    }

    ghost predicate Valid()
      reads Footprint()
    {
      codec.Valid() && seal.Valid()
    }

    ghost function Queue(): Queue<U64>
      requires Valid()
      reads Footprint()
    {
      codec.Queue()
    }

    ghost function Parser(): Records {
      codec.Parser()
    }

    constructor (cipher: Cipher, sealDirection: Direction, openDirection: Direction, maxPayloadLen: nat, maxBufferLen: nat)
      requires Lawful(cipher)
      ensures Valid() && fresh(Footprint())
      ensures Queue() == ByteQueue.Queue.Queue(0, []) && incoming == [] && written == []
      ensures seal.cipher == cipher && seal.direction == sealDirection && seal.sequence == 0
      ensures codec.Rx() == Receiver(cipher, openDirection, Min(maxPayloadLen, KTP_MAX_PAYLOAD_LEN), maxBufferLen)
    {
      seal := new KtpCryptoSeal(cipher, sealDirection);
      codec := new KtpCryptoRecordCodec(cipher, openDirection, maxPayloadLen, maxBufferLen);
      writeBuffer := new ByteVec();
      incoming := [];
      written := [];
    }

    method WriteAll(event: WriteEvent) returns (ok: bool)
      modifies `written
      ensures ok <==> event.Written?
      ensures written == old(written) + Sent(event, writeBuffer.data)
    {
      match event
      case Written =>
        written := written + writeBuffer.data;
        return true;
      case WriteFailed(prefix) =>
        var n := Min(prefix, |writeBuffer.data|);
        written := written + writeBuffer.data[..n];
        return false;
    }

    method SendFrame(frame: KtpFrame, event: WriteEvent) returns (error: Option<Stop>)
      requires Valid()
      modifies this`written, seal, writeBuffer
      ensures Valid()
      ensures var refused, sequence := SealRefusal(old(seal.sequence), frame), old(seal.sequence);
              && error == (if refused.Some? then Some(CryptoStop(refused.value)) else if event.Written? then None else Some(IoStop))
              && written == old(written) + (if refused.Some? then [] else Sent(event, FrameRecord(seal.cipher, seal.direction, sequence, frame)))
              && seal.sequence == sequence + if refused.Some? then 0 else 1
    {
      hide FrameRecord, SealRefusal;
      writeBuffer.data := [];
      var refused := seal.AppendSealedFrame(frame, writeBuffer);
      if refused.Some? {
        return Some(CryptoStop(refused.value));
      }
      ghost var record := FrameRecord(seal.cipher, seal.direction, old(seal.sequence), frame);
      assert [] + record == record;
      var ok := WriteAll(event);
      return if ok then None else Some(IoStop);
    }

    /** Either the records of all the frames go to the socket, in order, or the
        first refused frame stops the batch before anything is written; the frames
        before it have used up their sequence numbers. */
    method SendFrames(frames: seq<KtpFrame>, event: WriteEvent) returns (error: Option<Stop>)
      requires Valid()
      modifies this`written, seal, writeBuffer
      ensures Valid()
      ensures seal.sequence == old(seal.sequence) + Sealable(old(seal.sequence), frames)
      ensures var refused := BatchRefusal(old(seal.sequence), frames);
              error == if refused.Some? then Some(CryptoStop(refused.value))
                       else if frames == [] || event.Written? then None else Some(IoStop)
      ensures BatchRefusal(old(seal.sequence), frames).Some? ==> written == old(written)
      ensures BatchRefusal(old(seal.sequence), frames) == None ==>
                var records := SealAll(seal.cipher, seal.direction, old(seal.sequence), frames);
                written == old(written) + if error == None then records else Sent(event, records)
    {
      if frames == [] {
        return None;
      }
      hide SealAll, Sealable, BatchRefusal;
      var refused := SealBatch(seal, writeBuffer, frames);
      if refused.Some? {
        return Some(CryptoStop(refused.value));
      }
      var ok := WriteAll(event);
      return if ok then None else Some(IoStop);
    }

    /** One read from the socket and the push of what it returned. */
    method FillFromSocket() returns (stop: Option<Stop>)
      requires Valid()
      modifies this`incoming, codec.cursor
      ensures Valid()
      ensures var refill := Refill(codec.cursor.maxBufferLen, old(Queue()), old(incoming));
              && Queue() == refill.queue && incoming == refill.script
              && stop == if refill.result.Ok? then None else Some(refill.result.error)
    {
      if incoming == [] {
        return Some(Parked);
      }
      var event := incoming[0];
      incoming := incoming[1..];
      if event.IoError? {
        return Some(IoStop);
      }
      if event.bytes == [] {
        return Some(Closed);
      }
      var error := codec.Push(event.bytes);
      return if error.Some? then Some(CryptoStop(error.value)) else None;
    }

    method NextFrame() returns (r: Result<KtpFrame, Stop>)
      requires Valid()
      modifies this`incoming, codec.Footprint()
      ensures Valid()
      ensures Reading(r, Queue(), incoming) == ReadFrame(Parser(), codec.cursor.maxBufferLen, old(Queue()), old(incoming))
    {
      ghost var all := ReadFrame(Parser(), codec.cursor.maxBufferLen, Queue(), incoming);
      while true
        invariant Valid()
        invariant ReadFrame(Parser(), codec.cursor.maxBufferLen, Queue(), incoming) == all
        decreases |incoming|
      {
        var next := codec.NextFrame();
        if next.Err? {
          return Err(CryptoStop(next.error));
        }
        if next.value.Some? {
          return Ok(next.value.value);
        }
        var stop := FillFromSocket();
        if stop.Some? {
          return Err(stop.value);
        }
      }
    }

    method NextFramesInto(maxFrames: nat) returns (r: Result<seq<KtpFrame>, Stop>)
      requires Valid()
      modifies this`incoming, codec.Footprint()
      ensures Valid()
      ensures Reading(r, Queue(), incoming) == ReadBatch(Parser(), codec.cursor.maxBufferLen, old(Queue()), old(incoming), maxFrames)
    {
      hide RecordStep;
      if maxFrames == 0 {
        return Ok([]);
      }
      ghost var all := ReadBatch(Parser(), codec.cursor.maxBufferLen, Queue(), incoming, maxFrames);
      while true
        invariant Valid()
        invariant ReadBatch(Parser(), codec.cursor.maxBufferLen, Queue(), incoming, maxFrames) == all
        decreases |incoming|
      {
        var frames, error := codec.NextFramesInto(maxFrames);
        if error.Some? {
          return Err(CryptoStop(error.value));
        }
        if |frames| > 0 {
          return Ok(frames);
        }
        var stop := FillFromSocket();
        if stop.Some? {
          return Err(stop.value);
        }
      }
    }
  }

  lemma {:induction false} SealAllExtended(c: Cipher, direction: Direction, sequence: U64, frames: seq<KtpFrame>, frame: KtpFrame)
    requires sequence + |frames| + 1 <= U64_MAX
    ensures SealAll(c, direction, sequence, frames + [frame])
         == SealAll(c, direction, sequence, frames) + FrameRecord(c, direction, sequence + |frames|, frame)
    decreases |frames|
  {
    hide FrameRecord;
    var all := frames + [frame];
    if frames == [] {
      assert all == [frame] && all[1..] == [];
      assert SealAll(c, direction, sequence + 1, []) == [];
    } else {
      assert all[0] == frames[0] && all[1..] == frames[1..] + [frame];
      SealAllExtended(c, direction, sequence + 1, frames[1..], frame);
      AppendAssociates(FrameRecord(c, direction, sequence, frames[0]), SealAll(c, direction, sequence + 1, frames[1..]),
                       FrameRecord(c, direction, sequence + |frames|, frame));
    }
  }

  // ---- How a read ends ----

  /** A read goes through the first k events: each brings bytes, they fit the buffer,
      and before the last of them the parser wants more. */
  ghost predicate Pulls(p: Records, limit: nat, q: Queue<U64>, script: seq<ReadEvent>, k: nat) {
    && k <= |script|
    && (forall j | 0 <= j < k :: script[j].Data? && script[j].bytes != [])
    && (forall j | 0 <= j < k :: p(q.state, q.unread + Received(script[..j])).NeedMore?)
    && (k > 0 ==> |q.unread| + |Received(script[..k])| <= limit)
  }

  /** Why a read that wants more ends after k events: the socket is dry, fails, is
      closed, or brings more than the buffer takes. */
  ghost predicate EndsAt(limit: nat, held: nat, script: seq<ReadEvent>, k: nat, stop: Stop)
    requires k <= |script|
  {
    if k == |script| then stop == Parked
    else
      match script[k]
      case IoError => stop == IoStop
      case Data(bytes) =>
        if bytes == [] then stop == Closed
        else held + |bytes| > limit && stop == CryptoStop(CryptoBufferLimit(held + |bytes|, limit))
  }

  ghost predicate StopsAt<T>(limit: nat, q: Queue<U64>, script: seq<ReadEvent>, k: nat, r: Reading<T>)
    requires k <= |script|
  {
    && r.result.Err? && r.queue == q && r.script == script[Min(k + 1, |script|)..]
    && EndsAt(limit, |q.unread|, script, k, r.result.error)
  }

  lemma {:induction false} PullsOneMore(p: Records, limit: nat, q: Queue<U64>, script: seq<ReadEvent>, k: nat)
    requires script != [] && script[0].Data? && script[0].bytes != [] && p(q.state, q.unread).NeedMore?
    requires |q.unread| + |script[0].bytes| <= limit
    requires Pulls(p, limit, Queue(q.state, q.unread + script[0].bytes), script[1..], k)
    ensures Pulls(p, limit, q, script, k + 1)
    ensures (q.unread + script[0].bytes) + Received(script[1..][..k]) == q.unread + Received(script[..k + 1])
  {
    var bytes, later := script[0].bytes, script[1..];
    forall j | 0 <= j <= k
      ensures (q.unread + bytes) + Received(later[..j]) == q.unread + Received(script[..j + 1])
    {
      assert script[..j + 1][1..] == later[..j] && script[..j + 1][0] == script[0];
      AppendAssociates(q.unread, bytes, Received(later[..j]));
    }
    assert later[..0] == [] && script[..0] == [];
    forall j | 0 <= j < k + 1
      ensures script[j].Data? && script[j].bytes != [] && p(q.state, q.unread + Received(script[..j])).NeedMore?
    {
      if j == 0 {
        assert q.unread + [] == q.unread;
      } else {
        assert later[j - 1] == script[j];
        assert p(q.state, (q.unread + bytes) + Received(later[..j - 1])).NeedMore?;
      }
    }
  }

  /** After k events the bytes pulled decide, and the read ends with that verdict; or
      it ends for an event that brings no bytes it can use. */
  ghost predicate FrameReadAt(p: Records, limit: nat, q: Queue<U64>, script: seq<ReadEvent>, r: Reading<KtpFrame>, k: nat)
    requires Incremental(p)
  {
    && Pulls(p, limit, q, script, k)
    && var u := q.unread + Received(script[..k]);
       match p(q.state, u)
       case Deliver(f, n, next) => r == Reading(Ok(f), Queue(next, u[n..]), script[k..])
       case Fail(e) => r == Reading(Err(CryptoStop(e)), Queue(q.state, u), script[k..])
       case NeedMore => StopsAt(limit, Queue(q.state, u), script, k, r)
  }

  /** The same for a batch: once the bytes decide it takes the first frames of
      everything buffered, as many as were asked for, and fails exactly when the
      buffered bytes are malformed before that many. */
  ghost predicate BatchReadAt(p: Records, limit: nat, q: Queue<U64>, script: seq<ReadEvent>, max: nat, r: Reading<seq<KtpFrame>>, k: nat)
    requires Incremental(p)
  {
    && Pulls(p, limit, q, script, k)
    && var u := q.unread + Received(script[..k]);
       if p(q.state, u).NeedMore? then StopsAt(limit, Queue(q.state, u), script, k, r)
       else
         var all := ParseAll(p, q.state, u);
         var n := Min(max, |all.frames|);
         && r.script == script[k..]
         && r.result == (if n < max && all.halt.Some? then Err(CryptoStop(all.halt.value)) else Ok(all.frames[..n]))
         && ParseAll(p, r.queue.state, r.queue.unread) == all.(frames := all.frames[n..])
  }

  lemma StopsLater<T>(limit: nat, q: Queue<U64>, script: seq<ReadEvent>, k: nat, r: Reading<T>)
    requires script != [] && k < |script|
    ensures StopsAt(limit, q, script[1..], k, r) <==> StopsAt(limit, q, script, k + 1, r)
    ensures script[1..][k..] == script[k + 1..]
  {
    assert script[1..][Min(k + 1, |script| - 1)..] == script[Min(k + 2, |script|)..];
  }

  lemma ReadsLater(p: Records, limit: nat, q: Queue<U64>, script: seq<ReadEvent>, k: nat)
    requires Incremental(p) && script != [] && script[0].Data? && script[0].bytes != [] && p(q.state, q.unread).NeedMore?
    requires |q.unread| + |script[0].bytes| <= limit
    ensures var q1 := Queue(q.state, q.unread + script[0].bytes);
            && (forall r | FrameReadAt(p, limit, q1, script[1..], r, k) :: FrameReadAt(p, limit, q, script, r, k + 1))
            && (forall max, r | BatchReadAt(p, limit, q1, script[1..], max, r, k) :: BatchReadAt(p, limit, q, script, max, r, k + 1))
  {
    var q1 := Queue(q.state, q.unread + script[0].bytes);
    if Pulls(p, limit, q1, script[1..], k) {
      PullsOneMore(p, limit, q, script, k);
      var u := Queue(q.state, q.unread + Received(script[..k + 1]));
      hide Pulls, Received, StopsAt, ParseAll, Incremental;
      forall r: Reading<KtpFrame>
        ensures StopsAt(limit, u, script[1..], k, r) <==> StopsAt(limit, u, script, k + 1, r)
      {
        StopsLater(limit, u, script, k, r);
      }
      forall r: Reading<seq<KtpFrame>>
        ensures StopsAt(limit, u, script[1..], k, r) <==> StopsAt(limit, u, script, k + 1, r)
        ensures script[1..][k..] == script[k + 1..]
      {
        StopsLater(limit, u, script, k, r);
      }
      assert script[1..][k..] == script[k + 1..];
    }
  }

  /** Every read ends as its events and the parser's verdicts determine. */
  lemma {:induction false} ReadFrameExactly(p: Records, limit: nat, q: Queue<U64>, script: seq<ReadEvent>) returns (k: nat)
    requires Incremental(p)
    ensures FrameReadAt(p, limit, q, script, ReadFrame(p, limit, q, script), k)
    decreases |script|
  {
    var refill := Refill(limit, q, script);
    if p(q.state, q.unread).NeedMore? && refill.result.Ok? {
      var k1 := ReadFrameExactly(p, limit, refill.queue, refill.script);
      hide FrameReadAt, BatchReadAt;
      ReadsLater(p, limit, q, script, k1);
      k := k1 + 1;
    } else {
      k := 0;
      assert q.unread + Received(script[..0]) == q.unread && script[0..] == script;
    }
  }

  lemma {:induction false} ReadBatchExactly(p: Records, limit: nat, q: Queue<U64>, script: seq<ReadEvent>, max: nat) returns (k: nat)
    requires Incremental(p) && max > 0
    ensures BatchReadAt(p, limit, q, script, max, ReadBatch(p, limit, q, script, max), k)
    decreases |script|
  {
    var refill := Refill(limit, q, script);
    if p(q.state, q.unread).NeedMore? && refill.result.Ok? {
      var k1 := ReadBatchExactly(p, limit, refill.queue, refill.script, max);
      hide FrameReadAt, BatchReadAt;
      ReadsLater(p, limit, q, script, k1);
      k := k1 + 1;
    } else {
      k := 0;
      assert q.unread + Received(script[..0]) == q.unread && script[0..] == script;
      TakesTheFirst(p, q, max);
    }
  }

  // ---- Well-formed streams ----

  /** Every admitted record leaves room for one more full read. */
  ghost predicate Roomy(w: Wire<U64, KtpFrame>, limit: nat) {
    forall s, f :: w.admits(s, f) ==> |w.encode(s, f)| + READ_BUFFER_LEN - 1 <= limit
  }

  predicate WithinReadBuffer(script: seq<ReadEvent>) {
    forall e | e in script :: e.Data? ==> |e.bytes| <= READ_BUFFER_LEN
  }

  /** Refilling after an incomplete record never hits the buffer limit and keeps
      the receiver in step. */
  lemma RefillKeepsStep(p: Records, w: Wire<U64, KtpFrame>, limit: nat, q: Queue<U64>, script: seq<ReadEvent>,
                        underWay: seq<Byte>, rest: seq<KtpFrame>)
    requires Understands(p, w) && Roomy(w, limit) && WithinReadBuffer(script)
    requires InStep(w, q, Received(script) + underWay, rest) && p(q.state, q.unread).NeedMore?
    ensures var r := Refill(limit, q, script);
            && (r.result.Err? ==> !r.result.error.CryptoStop?)
            && WithinReadBuffer(r.script)
            && InStep(w, r.queue, Received(r.script) + underWay, rest)
  {
    InStepRead(p, w, q, Received(script) + underWay, rest);
    if script != [] {
      var chunk := if script[0].Data? then script[0].bytes else [];
      var later := Received(script[1..]) + underWay;
      AppendAssociates(chunk, Received(script[1..]), underWay);
      AppendAssociates(q.unread, chunk, later);
      assert script[0] in script;
      if chunk == [] {
        assert chunk + later == later;
      } else {
        assert |chunk + later| > 0;
        assert w.admits(q.state, rest[0]);
      }
    }
  }

  /** On a well-formed stream a read returns the next frame, or stops for a
      reason that is not the stream's fault and loses nothing. */
  lemma {:induction false} ReadFrameInStep(p: Records, w: Wire<U64, KtpFrame>, limit: nat, q: Queue<U64>, script: seq<ReadEvent>,
                                           underWay: seq<Byte>, rest: seq<KtpFrame>)
    requires Incremental(p) && Understands(p, w) && Roomy(w, limit) && WithinReadBuffer(script)
    requires InStep(w, q, Received(script) + underWay, rest)
    ensures var r := ReadFrame(p, limit, q, script);
            && WithinReadBuffer(r.script)
            && (r.result.Err? ==> !r.result.error.CryptoStop? && InStep(w, r.queue, Received(r.script) + underWay, rest))
            && (r.result.Ok? ==> rest != [] && r.result.value == rest[0] && InStep(w, r.queue, Received(r.script) + underWay, rest[1..]))
    decreases |script|
  {
    InStepRead(p, w, q, Received(script) + underWay, rest);
    if p(q.state, q.unread).NeedMore? {
      RefillKeepsStep(p, w, limit, q, script, underWay, rest);
      var refill := Refill(limit, q, script);
      if refill.result.Ok? {
        ReadFrameInStep(p, w, limit, refill.queue, refill.script, underWay, rest);
      }
    }
  }

  lemma {:induction false} TakeFramesInStep(p: Records, w: Wire<U64, KtpFrame>, q: Queue<U64>, max: nat, underWay: seq<Byte>, rest: seq<KtpFrame>)
    requires Incremental(p) && Understands(p, w) && InStep(w, q, underWay, rest)
    ensures var t := TakeFrames(p, q, max);
            && t.failure == None && |t.frames| <= max && t.frames <= rest
            && InStep(w, t.queue, underWay, rest[|t.frames|..])
            && (max > 0 && t.frames == [] ==> t.queue == q && p(q.state, q.unread).NeedMore?)
    decreases max
  {
    assert rest[0..] == rest;
    if max > 0 {
      InStepRead(p, w, q, underWay, rest);
      if p(q.state, q.unread).Deliver? {
        var Deliver(f, n, next) := p(q.state, q.unread);
        var q1 := Queue(next, q.unread[n..]);
        TakeFramesInStep(p, w, q1, max - 1, underWay, rest[1..]);
        var t1 := TakeFrames(p, q1, max - 1);
        assert rest == [f] + rest[1..];
        assert rest[1 + |t1.frames|..] == rest[1..][|t1.frames|..];
      }
    }
  }

  /** The same for a batch: it returns the next frames, at most `max` of them. */
  lemma {:induction false} ReadBatchInStep(p: Records, w: Wire<U64, KtpFrame>, limit: nat, q: Queue<U64>, script: seq<ReadEvent>,
                                           max: nat, underWay: seq<Byte>, rest: seq<KtpFrame>)
    requires Incremental(p) && Understands(p, w) && Roomy(w, limit) && WithinReadBuffer(script)
    requires InStep(w, q, Received(script) + underWay, rest)
    ensures var r := ReadBatch(p, limit, q, script, max);
            && WithinReadBuffer(r.script)
            && (r.result.Err? ==> !r.result.error.CryptoStop? && InStep(w, r.queue, Received(r.script) + underWay, rest))
            && (r.result.Ok? ==> && |r.result.value| <= max && r.result.value <= rest
                                 && InStep(w, r.queue, Received(r.script) + underWay, rest[|r.result.value|..]))
    decreases |script|
  {
    assert rest[0..] == rest;
    if max > 0 {
      TakeFramesInStep(p, w, q, max, Received(script) + underWay, rest);
      var t := TakeFrames(p, q, max);
      if t.frames == [] {
        RefillKeepsStep(p, w, limit, q, script, underWay, rest);
        var refill := Refill(limit, q, script);
        if refill.result.Ok? {
          ReadBatchInStep(p, w, limit, refill.queue, refill.script, max, underWay, rest);
        }
      }
    }
  }

  /** A call, and what has reached the socket by the time it is made. */
  datatype Call = One(arrived: seq<ReadEvent>) | Batch(arrived: seq<ReadEvent>, max: nat)

  datatype Session = Session(queue: Queue<U64>, script: seq<ReadEvent>, frames: seq<KtpFrame>, stops: seq<Stop>)

  ghost function Perform(p: Records, limit: nat, s: Session, call: Call): Session
    requires Incremental(p)
  {
    match call
    case One(arrived) =>
      var r := ReadFrame(p, limit, s.queue, s.script + arrived);
      if r.result.Ok? then Session(r.queue, r.script, s.frames + [r.result.value], s.stops)
      else Session(r.queue, r.script, s.frames, s.stops + [r.result.error])
    case Batch(arrived, max) =>
      var r := ReadBatch(p, limit, s.queue, s.script + arrived, max);
      if r.result.Ok? then Session(r.queue, r.script, s.frames + r.result.value, s.stops)
      else Session(r.queue, r.script, s.frames, s.stops + [r.result.error])
  }

  ghost function PerformAll(p: Records, limit: nat, s: Session, calls: seq<Call>): Session
    requires Incremental(p)
    decreases |calls|
  {
    if calls == [] then s else PerformAll(p, limit, Perform(p, limit, s, calls[0]), calls[1..])
  }

  function Arrivals(calls: seq<Call>): seq<ReadEvent> {
    if calls == [] then [] else calls[0].arrived + Arrivals(calls[1..])
  }

  lemma {:induction false} ReceivedAppend(a: seq<ReadEvent>, b: seq<ReadEvent>)
    ensures Received(a + b) == Received(a) + Received(b)
  {
    if a == [] {
      assert a + b == b && [] + Received(b) == Received(b);
    } else {
      assert (a + b)[1..] == a[1..] + b;
      ReceivedAppend(a[1..], b);
      AppendAssociates(if a[0].Data? then a[0].bytes else [], Received(a[1..]), Received(b));
    }
  }

  ghost predicate SessionInStep(w: Wire<U64, KtpFrame>, s: Session, underWay: seq<Byte>, sent: seq<KtpFrame>) {
    && s.frames <= sent
    && WithinReadBuffer(s.script)
    && (forall stop | stop in s.stops :: !stop.CryptoStop?)
    && InStep(w, s.queue, Received(s.script) + underWay, sent[|s.frames|..])
  }

  /** The frames delivered so far grow by the next ones sent. */
  lemma SessionGrows(w: Wire<U64, KtpFrame>, s: Session, q: Queue<U64>, script: seq<ReadEvent>, next: seq<KtpFrame>,
                     underWay: seq<Byte>, sent: seq<KtpFrame>)
    requires s.frames <= sent && (forall stop | stop in s.stops :: !stop.CryptoStop?) && WithinReadBuffer(script)
    requires var rest := sent[|s.frames|..]; next <= rest && InStep(w, q, Received(script) + underWay, rest[|next|..])
    ensures SessionInStep(w, Session(q, script, s.frames + next, s.stops), underWay, sent)
  {
  }

  lemma PerformInStep(p: Records, w: Wire<U64, KtpFrame>, limit: nat, s: Session, call: Call, underWay: seq<Byte>, sent: seq<KtpFrame>)
    requires Incremental(p) && Understands(p, w) && Roomy(w, limit) && WithinReadBuffer(call.arrived)
    requires SessionInStep(w, s, Received(call.arrived) + underWay, sent)
    ensures SessionInStep(w, Perform(p, limit, s, call), underWay, sent)
  {
    hide ReadFrame, ReadBatch, InStep, Understands;
    var script, rest := s.script + call.arrived, sent[|s.frames|..];
    ReceivedAppend(s.script, call.arrived);
    AppendAssociates(Received(s.script), Received(call.arrived), underWay);
    match call {
      case One(_) =>
        ReadFrameInStep(p, w, limit, s.queue, script, underWay, rest);
        var r := ReadFrame(p, limit, s.queue, script);
        if r.result.Ok? {
          SessionGrows(w, s, r.queue, r.script, [r.result.value], underWay, sent);
        }
      case Batch(_, max) =>
        ReadBatchInStep(p, w, limit, s.queue, script, max, underWay, rest);
        var r := ReadBatch(p, limit, s.queue, script, max);
        if r.result.Ok? {
          SessionGrows(w, s, r.queue, r.script, r.result.value, underWay, sent);
        }
    }
  }

  /** Any number of single and batched reads, each parked and dropped as often as
      the socket runs dry: the frames returned are the first ones sent, each once
      and in order, and no call fails on the stream or on the buffer limit. */
  lemma {:induction false} NothingIsLostAcrossCalls(p: Records, w: Wire<U64, KtpFrame>, limit: nat, s: Session, calls: seq<Call>,
                                                    underWay: seq<Byte>, sent: seq<KtpFrame>)
    requires Incremental(p) && Understands(p, w) && Roomy(w, limit) && WithinReadBuffer(Arrivals(calls))
    requires SessionInStep(w, s, Received(Arrivals(calls)) + underWay, sent)
    ensures SessionInStep(w, PerformAll(p, limit, s, calls), underWay, sent)
    decreases |calls|
  {
    if calls == [] {
      assert [] + underWay == underWay;
    } else {
      var first, later := calls[0].arrived, Arrivals(calls[1..]);
      ReceivedAppend(first, later);
      AppendAssociates(Received(first), Received(later), underWay);
      assert WithinReadBuffer(first + later);
      assert forall e | e in first :: e in first + later;
      assert forall e | e in later :: e in first + later;
      PerformInStep(p, w, limit, s, calls[0], Received(later) + underWay, sent);
      NothingIsLostAcrossCalls(p, w, limit, Perform(p, limit, s, calls[0]), calls[1..], underWay, sent);
    }
  }

  /** Nothing under way, the socket dry, and the reader waiting for more: it has
      been given every frame. */
  lemma DryReaderHasAll(p: Records, w: Wire<U64, KtpFrame>, s: Session, sent: seq<KtpFrame>)
    requires Understands(p, w) && SessionInStep(w, s, [], sent)
    requires s.script == [] && p(s.queue.state, s.queue.unread).NeedMore?
    ensures s.frames == sent && s.queue.unread == []
  {
    var rest := sent[|s.frames|..];
    assert Received([]) + [] == [];
    InStepRead(p, w, s.queue, [], rest);
    assert s.queue.unread + [] == s.queue.unread;
    assert sent == s.frames + rest;
  }

  /** The same for the sealed stream of a real sender: with records at most
      `maxBufferLen - 16383` bytes, reads of at most 16384 bytes and any schedule
      of calls, no call reports a crypto error (in particular no buffer limit),
      the frames returned are the first ones sent, and all of them once everything
      has arrived and the reader waits. */
  lemma SealedStreamIsReadBack(rx: Receiver, sent: seq<KtpFrame>, calls: seq<Call>, underWay: seq<Byte>)
    requires Lawful(rx.cipher) && |sent| <= U64_MAX
    requires forall f | f in sent :: Encodable(f) && |f.payload| <= rx.maxPayloadLen && RecordLen(f) + READ_BUFFER_LEN - 1 <= rx.maxBufferLen
    requires WithinReadBuffer(Arrivals(calls))
    requires Received(Arrivals(calls)) + underWay == SealAll(rx.cipher, rx.direction, 0, sent)
    ensures var s := PerformAll(RecordParser(rx), rx.maxBufferLen, Session(Queue(0, []), [], [], []), calls);
            && s.frames <= sent
            && (forall stop | stop in s.stops :: !stop.CryptoStop?)
            && s.queue.state + |sent| - |s.frames| <= U64_MAX
            && s.queue.unread + (Received(s.script) + underWay)
               == SealAll(rx.cipher, rx.direction, s.queue.state, sent[|s.frames|..])
            && (underWay == [] && s.script == [] && RecordStep(rx, s.queue.state, s.queue.unread).NeedMore?
                ==> s.frames == sent && s.queue.unread == [])
  {
    hide PerformAll, RecordStep, FrameRecord, Understands, Incremental, Roomy, SealAll, Encoding, AdmitsAll, Encodable, Lawful;
    var narrow := SealedSessionInStep(rx, sent, calls, underWay);
    var end := PerformAll(RecordParser(rx), rx.maxBufferLen, Session(Queue(0, []), [], [], []), calls);
    AdmittedFits(narrow, end.queue.state, sent[|end.frames|..]);
    EncodingIsSealAll(narrow, end.queue.state, sent[|end.frames|..]);
    if underWay == [] && end.script == [] && RecordStep(rx, end.queue.state, end.queue.unread).NeedMore? {
      DryReaderHasAll(RecordParser(rx), RecordWire(narrow), end, sent);
    }
  }

  lemma SealedSessionInStep(rx: Receiver, sent: seq<KtpFrame>, calls: seq<Call>, underWay: seq<Byte>) returns (narrow: Receiver)
    requires Lawful(rx.cipher) && |sent| <= U64_MAX
    requires forall f | f in sent :: Encodable(f) && |f.payload| <= rx.maxPayloadLen && RecordLen(f) + READ_BUFFER_LEN - 1 <= rx.maxBufferLen
    requires WithinReadBuffer(Arrivals(calls))
    requires Received(Arrivals(calls)) + underWay == SealAll(rx.cipher, rx.direction, 0, sent)
    ensures narrow.cipher == rx.cipher && narrow.direction == rx.direction
    ensures Understands(RecordParser(rx), RecordWire(narrow))
    ensures var end := PerformAll(RecordParser(rx), rx.maxBufferLen, Session(Queue(0, []), [], [], []), calls);
            SessionInStep(RecordWire(narrow), end, underWay, sent)
  {
    hide PerformAll, RecordStep, FrameRecord, Understands, Incremental, Roomy, SealAll, Encoding, AdmitsAll, Encodable, Lawful, SessionInStep;
    var tight := if rx.maxBufferLen >= READ_BUFFER_LEN - 1 then rx.maxBufferLen - (READ_BUFFER_LEN - 1) else 0;
    narrow := rx.(maxBufferLen := tight);
    NarrowSenderIsUnderstood(rx, tight);
    assert forall f | f in sent :: Admits(narrow, f);
    FreshSessionInStep(narrow, Received(Arrivals(calls)) + underWay, sent);
    NothingIsLostAcrossCalls(RecordParser(rx), RecordWire(narrow), rx.maxBufferLen, Session(Queue(0, []), [], [], []), calls, underWay, sent);
  }

  /** A call parks only on a dry socket, with nothing left to deliver. */
  lemma {:induction false} ParkedReadIsDry(p: Records, limit: nat, q: Queue<U64>, script: seq<ReadEvent>)
    requires Incremental(p)
    ensures var r := ReadFrame(p, limit, q, script);
            r.result == Err(Parked) ==> r.script == [] && p(r.queue.state, r.queue.unread).NeedMore?
    decreases |script|
  {
    if p(q.state, q.unread).NeedMore? {
      var refill := Refill(limit, q, script);
      if refill.result.Ok? {
        ParkedReadIsDry(p, limit, refill.queue, refill.script);
      }
    }
  }

  lemma {:induction false} ParkedBatchIsDry(p: Records, limit: nat, q: Queue<U64>, script: seq<ReadEvent>, max: nat)
    requires Incremental(p)
    ensures var r := ReadBatch(p, limit, q, script, max);
            r.result == Err(Parked) ==> r.script == [] && p(r.queue.state, r.queue.unread).NeedMore?
    decreases |script|
  {
    var taking := TakeFrames(p, q, max);
    if max > 0 && taking.failure.None? && taking.frames == [] {
      var refill := Refill(limit, taking.queue, script);
      if refill.result.Ok? {
        ParkedBatchIsDry(p, limit, refill.queue, refill.script, max);
      }
    }
  }

  lemma {:induction false} PerformAllExtended(p: Records, limit: nat, s: Session, calls: seq<Call>, call: Call)
    requires Incremental(p)
    ensures PerformAll(p, limit, s, calls + [call]) == Perform(p, limit, PerformAll(p, limit, s, calls), call)
    decreases |calls|
  {
    hide Perform, Incremental;
    var all := calls + [call];
    if calls == [] {
      assert all[0] == call && all[1..] == [];
    } else {
      assert all[0] == calls[0] && all[1..] == calls[1..] + [call];
      PerformAllExtended(p, limit, Perform(p, limit, s, calls[0]), calls[1..], call);
    }
  }

  /** A call that parks when nothing is under way leaves no frame unread. */
  lemma ParkedCallHasAll(rx: Receiver, sent: seq<KtpFrame>, calls: seq<Call>, call: Call)
    requires Lawful(rx.cipher) && |sent| <= U64_MAX
    requires forall f | f in sent :: Encodable(f) && |f.payload| <= rx.maxPayloadLen && RecordLen(f) + READ_BUFFER_LEN - 1 <= rx.maxBufferLen
    requires WithinReadBuffer(Arrivals(calls + [call]))
    requires Received(Arrivals(calls + [call])) == SealAll(rx.cipher, rx.direction, 0, sent)
    ensures var before := PerformAll(RecordParser(rx), rx.maxBufferLen, Session(Queue(0, []), [], [], []), calls);
            var s := Perform(RecordParser(rx), rx.maxBufferLen, before, call);
            s.stops == before.stops + [Parked] ==> s.frames == sent && s.queue.unread == []
  {
    hide PerformAll, RecordStep, SealAll, Encodable, Lawful, Received, ReadFrame, ReadBatch, Incremental;
    var p, start := RecordParser(rx), Session(Queue(0, []), [], [], []);
    var before := PerformAll(p, rx.maxBufferLen, start, calls);
    PerformAllExtended(p, rx.maxBufferLen, start, calls, call);
    var stream := SealAll(rx.cipher, rx.direction, 0, sent);
    assert stream + [] == stream;
    SealedStreamIsReadBack(rx, sent, calls + [call], []);
    var script := before.script + call.arrived;
    ParkedReadIsDry(p, rx.maxBufferLen, before.queue, script);
    if call.Batch? {
      ParkedBatchIsDry(p, rx.maxBufferLen, before.queue, script, call.max);
    }
    var s := Perform(p, rx.maxBufferLen, before, call);
    if s.stops == before.stops + [Parked] {
      assert s.stops[|before.stops|] == Parked;
    }
  }

  lemma FreshSessionInStep(rx: Receiver, stream: seq<Byte>, sent: seq<KtpFrame>)
    requires |sent| <= U64_MAX && forall f | f in sent :: Admits(rx, f)
    requires stream == SealAll(rx.cipher, rx.direction, 0, sent)
    ensures SessionInStep(RecordWire(rx), Session(Queue(0, []), [], [], []), stream, sent)
  {
    hide FrameRecord, Encoding, AdmitsAll, SealAll, Admits;
    EncodingIsSealAll(rx, 0, sent);
    assert Received([]) + stream == stream && [] + stream == stream && sent[0..] == sent;
  }

  lemma {:induction false} AdmittedFits(rx: Receiver, sequence: U64, frames: seq<KtpFrame>)
    requires AdmitsAll(RecordWire(rx), sequence, frames)
    ensures sequence + |frames| <= U64_MAX
    ensures forall f | f in frames :: Admits(rx, f)
    decreases |frames|
  {
    if frames != [] {
      AdmittedFits(rx, NextSequence(sequence), frames[1..]);
    }
  }

  /** A sender that keeps its records within a smaller limit is understood too;
      with the limit lowered by a full read, its records leave room for one. */
  lemma NarrowSenderIsUnderstood(rx: Receiver, tight: nat)
    requires Lawful(rx.cipher) && tight <= rx.maxBufferLen
    ensures Understands(RecordParser(rx), RecordWire(rx.(maxBufferLen := tight)))
    ensures tight == 0 || tight + READ_BUFFER_LEN - 1 <= rx.maxBufferLen ==> Roomy(RecordWire(rx.(maxBufferLen := tight)), rx.maxBufferLen)
  {
    hide Lawful, Encodable;
    var narrow := rx.(maxBufferLen := tight);
    var p, n := RecordParser(rx), RecordWire(narrow);
    forall s, f, more | n.admits(s, f)
      ensures p(s, n.encode(s, f) + more) == Deliver(f, |n.encode(s, f)|, n.succ(s))
    {
      hide RecordStep;
      assert Admits(narrow, f);
      CompleteRecordOpens(rx, s, f, more);
    }
    forall s, f, u | n.admits(s, f) && u < n.encode(s, f)
      ensures p(s, u).NeedMore?
    {
      hide RecordStep;
      assert Admits(narrow, f);
      PartialRecordWaits(rx, s, u, f);
    }
    forall s, f | n.admits(s, f)
      ensures |n.encode(s, f)| == RecordLen(f) <= tight
    {
      assert Admits(narrow, f);
      RecordLength(rx, s, f);
    }
  }

  lemma RecordLength(rx: Receiver, sequence: U64, frame: KtpFrame)
    requires Lawful(rx.cipher)
    ensures |FrameRecord(rx.cipher, rx.direction, sequence, frame)| == RecordLen(frame)
  {
  }
}
