/** The relay: reads batches of frames from one encrypted stream and sends them
    on the other, under a different key and sequence, in both directions. */
module Relay {
  import opened Bytes
  import opened Ktp
  import opened KtpCrypto
  import opened ByteQueue
  import opened RecordCodec
  import opened EncryptedStream

  const KTP_RELAY_BATCH_FRAMES: nat := 64

  datatype DirectionStats = DirectionStats(frames: nat, batches: nat, maxBatchFrames: nat)
  {
    function Record(n: nat): DirectionStats {
      if n == 0 then this
      else DirectionStats(frames + n, batches + 1, if n > maxBatchFrames then n else maxBatchFrames)
    }

    /** No batch is empty or larger than the batch size. */
    predicate Bounded() {
      && maxBatchFrames <= KTP_RELAY_BATCH_FRAMES
      && batches <= frames <= KTP_RELAY_BATCH_FRAMES * batches
      && (batches > 0 ==> maxBatchFrames > 0)
    }
  }

  lemma RecordKeepsBounds(stats: DirectionStats, n: nat)
    requires stats.Bounded() && n <= KTP_RELAY_BATCH_FRAMES
    ensures stats.Record(n).Bounded()
  {
  }

  function Recorded(sizes: seq<nat>): DirectionStats {
    if sizes == [] then DirectionStats(0, 0, 0) else Recorded(sizes[..|sizes| - 1]).Record(sizes[|sizes| - 1])
  }

  function SumOf(sizes: seq<nat>): nat {
    if sizes == [] then 0 else sizes[0] + SumOf(sizes[1..])
  }

  lemma {:induction false} SumOfAppend(sizes: seq<nat>, n: nat)
    ensures SumOf(sizes + [n]) == SumOf(sizes) + n
  {
    if sizes != [] {
      SumOfAppend(sizes[1..], n);
      assert (sizes + [n])[1..] == sizes[1..] + [n];
    }
  }

  /** The statistics of any batches: their sizes added up, how many were not empty,
      and the largest. */
  lemma {:induction false} StatisticsOf(sizes: seq<nat>)
    ensures Recorded(sizes).frames == SumOf(sizes)
    ensures Recorded(sizes).batches == |sizes| - multiset(sizes)[0]
    ensures forall n | n in sizes :: n <= Recorded(sizes).maxBatchFrames
    ensures Recorded(sizes).maxBatchFrames == 0 || Recorded(sizes).maxBatchFrames in sizes
  {
    if sizes != [] {
      var init, last := sizes[..|sizes| - 1], sizes[|sizes| - 1];
      StatisticsOf(init);
      SumOfAppend(init, last);
      assert sizes == init + [last];
    }
  }

  /** One direction of the relay: the receiving half of one stream and the
      sending half of the other, with the frames passed on so far. */
  datatype Half = Half(
    queue: Queue<U64>, script: seq<ReadEvent>,
    sequence: U64, written: seq<Byte>,
    forwarded: seq<KtpFrame>, stats: DirectionStats)

  /** What stays fixed in one direction. */
  datatype Ends = Ends(rx: Receiver, cipher: Cipher, direction: Direction)

  /** The next batch of the direction. */
  ghost function BatchOf(ends: Ends, h: Half, max: nat): Reading<seq<KtpFrame>> {
    ReadBatch(RecordParser(ends.rx), ends.rx.maxBufferLen, h.queue, h.script, max)
  }

  /** One batch passed on, if the read brings frames and the sequence numbers last. */
  ghost function Forward(ends: Ends, h: Half, max: nat): Option<Half>
  {
    var reading := BatchOf(ends, h, max);
    if reading.result.Err? || h.sequence + |reading.result.value| > U64_MAX then None
    else
      var frames := reading.result.value;
      Some(Half(reading.queue, reading.script,
                h.sequence + |frames|, h.written + SealAll(ends.cipher, ends.direction, h.sequence, frames),
                h.forwarded + frames, h.stats.Record(|frames|)))
  }

  ghost function ForwardRounds(ends: Ends, h: Half, rounds: nat): Option<Half>
  {
    if rounds == 0 then Some(h)
    else
      match ForwardRounds(ends, h, rounds - 1)
      case None => None
      case Some(mid) => Forward(ends, mid, KTP_RELAY_BATCH_FRAMES)
  }

  /** Reads a batch from one stream and sends it on the other. A failure is the
      read's, the socket's, or sequence exhaustion: a frame that was decoded is
      never refused when it is encoded again. `h` is the direction as it stands. */
  method PassBatch(from: KtpEncryptedStream, to: KtpEncryptedStream, maxFrames: nat, event: WriteEvent, ghost h: Half)
    returns (r: Result<seq<KtpFrame>, Stop>)
    requires from.Valid() && to.Valid() && from.Footprint() !! to.Footprint()
    requires h.queue == from.Queue() && h.script == from.incoming && h.sequence == to.seal.sequence && h.written == to.written
    modifies from`incoming, from.codec.Footprint(), to`written, to.seal, to.writeBuffer
    ensures from.Valid() && to.Valid()
    ensures var reading := BatchOf(Ends(from.codec.Rx(), to.seal.cipher, to.seal.direction), h, maxFrames);
            && from.Queue() == reading.queue && from.incoming == reading.script
            && if reading.result.Err? then r == Err(reading.result.error)
               else if r.Ok? then r == reading.result && |r.value| <= maxFrames
               else r.error in {IoStop, CryptoStop(SequenceExhausted)}
    ensures r.Ok? ==> to.seal.sequence == h.sequence + |r.value|
    ensures r.Ok? ==> to.written == h.written + SealAll(to.seal.cipher, to.seal.direction, h.sequence, r.value)
  {
    ghost var ends := Ends(from.codec.Rx(), to.seal.cipher, to.seal.direction);
    hide SealAll, Sealable, BatchRefusal, ReadBatch, RecordStep, Encodable, Incremental;
    r := from.NextFramesInto(maxFrames);
    assert Reading(r, from.Queue(), from.incoming) == BatchOf(ends, h, maxFrames);
    hide BatchOf;
    if r.Err? {
      return;
    }
    ghost var q, script := from.Queue(), from.incoming;
    BatchIsEncodable(ends, h, maxFrames);
    OnlyExhaustionStops(h.sequence, r.value);
    var error := to.SendFrames(r.value, event);
    assert from.Valid() && from.Queue() == q && from.incoming == script;
    if error.Some? {
      return Err(error.value);
    }
  }

  lemma ForwardIs(ends: Ends, h: Half, max: nat, frames: seq<KtpFrame>, q: Queue<U64>, script: seq<ReadEvent>)
    requires BatchOf(ends, h, max) == Reading(Ok(frames), q, script) && h.sequence + |frames| <= U64_MAX
    ensures Forward(ends, h, max)
         == Some(Half(q, script, h.sequence + |frames|, h.written + SealAll(ends.cipher, ends.direction, h.sequence, frames),
                      h.forwarded + frames, h.stats.Record(|frames|)))
  {
    hide BatchOf, SealAll;
  }

  lemma BatchIsEncodable(ends: Ends, h: Half, max: nat)
    ensures var r := BatchOf(ends, h, max);
            r.result.Ok? ==> |r.result.value| <= max && forall f | f in r.result.value :: Encodable(f)
  {
    hide ReadBatch, RecordStep, Encodable, Incremental;
    ReadBatchEncodable(ends.rx, h.queue, h.script, max);
  }

  class KtpEncryptedTcpFrameRelay {
    const left: KtpEncryptedStream
    const right: KtpEncryptedStream
    var leftToRightStats: DirectionStats
    var rightToLeftStats: DirectionStats

    /** Frames passed on in each direction. */
    ghost var leftToRight: seq<KtpFrame>
    ghost var rightToLeft: seq<KtpFrame>

    ghost predicate Valid()
      reads this, left.Footprint(), right.Footprint()
    {
      && left.Footprint() !! right.Footprint() && this !in left.Footprint() + right.Footprint()
      && left.Valid() && right.Valid()
      && leftToRightStats.Bounded() && rightToLeftStats.Bounded()
      && leftToRightStats.frames == |leftToRight| && rightToLeftStats.frames == |rightToLeft|
    }

    ghost function LeftToRight(): Half
      requires Valid()
      reads this, left.Footprint(), right.Footprint()
    {
      Half(left.Queue(), left.incoming, right.seal.sequence, right.written, leftToRight, leftToRightStats)
    }

    ghost function RightToLeft(): Half
      requires Valid()
      reads this, left.Footprint(), right.Footprint()
    {
      Half(right.Queue(), right.incoming, left.seal.sequence, left.written, rightToLeft, rightToLeftStats)
    }

    function LeftEnds(): Ends {
      Ends(left.codec.Rx(), right.seal.cipher, right.seal.direction)
    }

    function RightEnds(): Ends {
      Ends(right.codec.Rx(), left.seal.cipher, left.seal.direction)
    }

    constructor (left: KtpEncryptedStream, right: KtpEncryptedStream)
      requires left.Valid() && right.Valid() && left.Footprint() !! right.Footprint()
      ensures Valid() && this.left == left && this.right == right
      ensures leftToRight == [] == rightToLeft
      ensures leftToRightStats == rightToLeftStats == DirectionStats(0, 0, 0)
    {
      this.left := left;
      this.right := right;
      leftToRightStats := DirectionStats(0, 0, 0);
      rightToLeftStats := DirectionStats(0, 0, 0);
      leftToRight := [];
      rightToLeft := [];
    }

    method RelayLeftToRightBatch(maxFrames: nat, event: WriteEvent) returns (r: Result<nat, Stop>)
      requires Valid() && maxFrames <= KTP_RELAY_BATCH_FRAMES
      modifies this`leftToRight, this`leftToRightStats, left`incoming, left.codec.Footprint(),
               right`written, right.seal, right.writeBuffer
      ensures Valid() && RightToLeft() == old(RightToLeft())
      ensures r.Ok? ==> Forward(LeftEnds(), old(LeftToRight()), maxFrames) == Some(LeftToRight())
      ensures r.Ok? ==> |leftToRight| == |old(leftToRight)| + r.value
      ensures r.Err? ==> leftToRightStats == old(leftToRightStats)
    {
      hide Forward, BatchOf, SealAll, RecordStep, Lawful, NonceLog;
      ghost var h := LeftToRight();
      var batch := PassBatch(left, right, maxFrames, event, h);
      if batch.Err? {
        return Err(batch.error);
      }
      ForwardIs(LeftEnds(), h, maxFrames, batch.value, left.Queue(), left.incoming);
      RecordKeepsBounds(leftToRightStats, |batch.value|);
      leftToRightStats := leftToRightStats.Record(|batch.value|);
      leftToRight := leftToRight + batch.value;
      return Ok(|batch.value|);
    }

    method RelayRightToLeftBatch(maxFrames: nat, event: WriteEvent) returns (r: Result<nat, Stop>)
      requires Valid() && maxFrames <= KTP_RELAY_BATCH_FRAMES
      modifies this`rightToLeft, this`rightToLeftStats, right`incoming, right.codec.Footprint(),
               left`written, left.seal, left.writeBuffer
      ensures Valid() && LeftToRight() == old(LeftToRight())
      ensures r.Ok? ==> Forward(RightEnds(), old(RightToLeft()), maxFrames) == Some(RightToLeft())
      ensures r.Ok? ==> |rightToLeft| == |old(rightToLeft)| + r.value
      ensures r.Err? ==> rightToLeftStats == old(rightToLeftStats)
    {
      hide Forward, BatchOf, SealAll, RecordStep, Lawful, NonceLog;
      ghost var h := RightToLeft();
      var batch := PassBatch(right, left, maxFrames, event, h);
      if batch.Err? {
        return Err(batch.error);
      }
      ForwardIs(RightEnds(), h, maxFrames, batch.value, right.Queue(), right.incoming);
      RecordKeepsBounds(rightToLeftStats, |batch.value|);
      rightToLeftStats := rightToLeftStats.Record(|batch.value|);
      rightToLeft := rightToLeft + batch.value;
      return Ok(|batch.value|);
    }

    /** `events(i)` are the outcomes of the two writes of round i. */
    method RelayBidirectionalRounds(rounds: nat, events: nat -> (WriteEvent, WriteEvent)) returns (error: Option<Stop>)
      requires Valid()
      modifies this, left.Footprint(), right.Footprint()
      ensures Valid()
      ensures error == None ==> && ForwardRounds(LeftEnds(), old(LeftToRight()), rounds) == Some(LeftToRight())
                                && ForwardRounds(RightEnds(), old(RightToLeft()), rounds) == Some(RightToLeft())
    {
      for round := 0 to rounds
        invariant Valid()
        invariant ForwardRounds(LeftEnds(), old(LeftToRight()), round) == Some(LeftToRight())
        invariant ForwardRounds(RightEnds(), old(RightToLeft()), round) == Some(RightToLeft())
      {
        var there := RelayLeftToRightBatch(KTP_RELAY_BATCH_FRAMES, events(round).0);
        if there.Err? {
          return Some(there.error);
        }
        var back := RelayRightToLeftBatch(KTP_RELAY_BATCH_FRAMES, events(round).1);
        if back.Err? {
          return Some(back.error);
        }
      }
      return None;
    }
  }

  // ---- What a round takes ----

  /** What a round passes on after k reads: all frames there are, up to the batch
      size, and at least one; the rest stays readable. */
  ghost predicate Takes(ends: Ends, h: Half, t: Half, max: nat, k: nat) {
    && k <= |h.script| && t.script == h.script[k..]
    && var p := RecordParser(ends.rx);
       var all := ParseAll(p, h.queue.state, h.queue.unread + Received(h.script[..k]));
       var n := Min(max, |all.frames|);
       && n > 0 && (n < max ==> all.halt.None?)
       && t.forwarded == h.forwarded + all.frames[..n]
       && ParseAll(p, t.queue.state, t.queue.unread) == all.(frames := all.frames[n..])
       && t.stats.frames == h.stats.frames + n && t.stats.batches == h.stats.batches + 1
  }

  lemma ForwardTakes(ends: Ends, h: Half, max: nat) returns (k: nat)
    requires max > 0 && Forward(ends, h, max).Some?
    ensures Takes(ends, h, Forward(ends, h, max).value, max, k)
  {
    hide RecordStep, ReadBatch, ParseAll, SealAll, Incremental;
    var p := RecordParser(ends.rx);
    k := ReadBatchExactly(p, ends.rx.maxBufferLen, h.queue, h.script, max);
    var u := h.queue.unread + Received(h.script[..k]);
    if !p(h.queue.state, u).NeedMore? {
      FirstIsThere(p, h.queue.state, u);
    }
  }

  /** Where the parser does not wait, there is a first frame or a failure. */
  lemma FirstIsThere(p: Records, state: U64, unread: seq<Byte>)
    requires Incremental(p) && !p(state, unread).NeedMore?
    ensures ParseAll(p, state, unread).frames != [] || ParseAll(p, state, unread).halt.Some?
  {
  }

  /** Every error-free round passes on one batch in each direction. */
  lemma {:induction false} RoundsCount(ends: Ends, h: Half, rounds: nat)
    requires ForwardRounds(ends, h, rounds).Some?
    ensures ForwardRounds(ends, h, rounds).value.stats.batches == h.stats.batches + rounds
    ensures ForwardRounds(ends, h, rounds).value.stats.frames >= h.stats.frames + rounds
  {
    hide Forward;
    if rounds > 0 {
      RoundsCount(ends, h, rounds - 1);
      var k := ForwardTakes(ends, ForwardRounds(ends, h, rounds - 1).value, KTP_RELAY_BATCH_FRAMES);
    }
  }

  // ---- A decoded frame can always be encoded ----

  lemma DeliveredIsEncodable(rx: Receiver, next: U64, unread: seq<Byte>)
    requires RecordStep(rx, next, unread).Deliver?
    ensures Encodable(RecordStep(rx, next, unread).frame)
  {
  }

  lemma {:induction false} TakeFramesEncodable(rx: Receiver, q: Queue<U64>, max: nat)
    ensures |TakeFrames(RecordParser(rx), q, max).frames| <= max
    ensures forall f | f in TakeFrames(RecordParser(rx), q, max).frames :: Encodable(f)
    decreases max
  {
    hide Encodable, RecordStep;
    if max > 0 {
      var step := RecordParser(rx)(q.state, q.unread);
      if step.Deliver? {
        DeliveredIsEncodable(rx, q.state, q.unread);
        TakeFramesEncodable(rx, Queue(step.next, q.unread[step.len..]), max - 1);
      }
    }
  }

  lemma {:induction false} ReadBatchEncodable(rx: Receiver, q: Queue<U64>, script: seq<ReadEvent>, max: nat)
    ensures var r := ReadBatch(RecordParser(rx), rx.maxBufferLen, q, script, max);
            r.result.Ok? ==> |r.result.value| <= max && forall f | f in r.result.value :: Encodable(f)
    decreases |script|
  {
    hide Encodable, RecordStep;
    TakeFramesEncodable(rx, q, max);
    var taking := TakeFrames(RecordParser(rx), q, max);
    if max > 0 && taking.failure.None? && taking.frames == [] {
      var refill := Refill(rx.maxBufferLen, taking.queue, script);
      if refill.result.Ok? {
        ReadBatchEncodable(rx, refill.queue, refill.script, max);
      }
    }
  }

  // ---- Transparency ----

  lemma {:induction false} SealAllConcat(c: Cipher, direction: Direction, sequence: U64, a: seq<KtpFrame>, b: seq<KtpFrame>)
    requires sequence + |a| + |b| <= U64_MAX
    ensures SealAll(c, direction, sequence, a + b)
         == SealAll(c, direction, sequence, a) + SealAll(c, direction, sequence + |a|, b)
    decreases |a|
  {
    hide FrameRecord;
    if a == [] {
      assert a + b == b;
    } else {
      assert (a + b)[0] == a[0] && (a + b)[1..] == a[1..] + b;
      SealAllConcat(c, direction, sequence + 1, a[1..], b);
      AppendAssociates(FrameRecord(c, direction, sequence, a[0]), SealAll(c, direction, sequence + 1, a[1..]),
                       SealAll(c, direction, sequence + |a|, b));
    }
  }

  /** What a run of rounds has done to one direction, seen from its start:
      `passed` are the first of the frames the near sender sealed, and exactly
      they were sealed again for the far side. */
  ghost predicate PassedOn(ends: Ends, w: Wire<U64, KtpFrame>, start: Half, h: Half, underWay: seq<Byte>, sent: seq<KtpFrame>, passed: seq<KtpFrame>) {
    && passed <= sent
    && WithinReadBuffer(h.script)
    && InStep(w, h.queue, Received(h.script) + underWay, sent[|passed|..])
    && h.forwarded == start.forwarded + passed
    && h.sequence == start.sequence + |passed|
    && h.written == start.written + SealAll(ends.cipher, ends.direction, start.sequence, passed)
    && h.stats.frames == start.stats.frames + |passed|
    && h.stats.Bounded()
  }

  lemma ForwardPassesOn(ends: Ends, w: Wire<U64, KtpFrame>, start: Half, h: Half, underWay: seq<Byte>, sent: seq<KtpFrame>, passed: seq<KtpFrame>)
    returns (more: seq<KtpFrame>)
    requires Understands(RecordParser(ends.rx), w) && Roomy(w, ends.rx.maxBufferLen)
    requires PassedOn(ends, w, start, h, underWay, sent, passed)
    requires Forward(ends, h, KTP_RELAY_BATCH_FRAMES).Some?
    ensures PassedOn(ends, w, start, Forward(ends, h, KTP_RELAY_BATCH_FRAMES).value, underWay, sent, passed + more)
  {
    hide RecordStep, ReadBatch, InStep, Understands, SealAll, Incremental;
    var p := RecordParser(ends.rx);
    var rest := sent[|passed|..];
    ReadBatchInStep(p, w, ends.rx.maxBufferLen, h.queue, h.script, KTP_RELAY_BATCH_FRAMES, underWay, rest);
    more := ReadBatch(p, ends.rx.maxBufferLen, h.queue, h.script, KTP_RELAY_BATCH_FRAMES).result.value;
    SealAllConcat(ends.cipher, ends.direction, start.sequence, passed, more);
    AppendAssociates(start.written, SealAll(ends.cipher, ends.direction, start.sequence, passed),
                     SealAll(ends.cipher, ends.direction, h.sequence, more));
    AppendAssociates(start.forwarded, passed, more);
    RecordKeepsBounds(h.stats, |more|);
    assert sent == passed + rest && rest == more + rest[|more|..];
    AppendAssociates(passed, more, rest[|more|..]);
    assert sent[|passed + more|..] == rest[|more|..];
  }

  /** Over any number of error-free rounds the frames passed on are the first
      ones the near side sealed, and they leave the relay sealed in that order
      under the far key from the far sequence on. */
  lemma {:induction false} RoundsPassOn(ends: Ends, w: Wire<U64, KtpFrame>, start: Half, rounds: nat, underWay: seq<Byte>, sent: seq<KtpFrame>)
    returns (passed: seq<KtpFrame>)
    requires Understands(RecordParser(ends.rx), w) && Roomy(w, ends.rx.maxBufferLen)
    requires WithinReadBuffer(start.script) && InStep(w, start.queue, Received(start.script) + underWay, sent)
    requires start.stats.Bounded()
    requires ForwardRounds(ends, start, rounds).Some?
    ensures PassedOn(ends, w, start, ForwardRounds(ends, start, rounds).value, underWay, sent, passed)
  {
    hide RecordStep, Forward;
    if rounds == 0 {
      passed := [];
      assert sent[0..] == sent && start.forwarded + [] == start.forwarded && start.written + [] == start.written;
    } else {
      var before := RoundsPassOn(ends, w, start, rounds - 1, underWay, sent);
      var more := ForwardPassesOn(ends, w, start, ForwardRounds(ends, start, rounds - 1).value, underWay, sent, before);
      passed := before + more;
    }
  }

  /** Relay transparency. The far receiver, with its own key, direction and
      sequence, parses what the relay wrote as exactly the frames passed on, which
      are the first frames the near sender sealed; the frame counter counts them. */
  lemma RelayIsTransparent(ends: Ends, far: Receiver, start: Half, rounds: nat, underWay: seq<Byte>, sent: seq<KtpFrame>)
    requires Lawful(ends.rx.cipher) && Lawful(far.cipher) && far.cipher == ends.cipher && far.direction == ends.direction
    requires start.queue.state + |sent| <= U64_MAX && start.stats.Bounded()
    requires forall f | f in sent :: && Admits(far, f) && |f.payload| <= ends.rx.maxPayloadLen
                                     && RecordLen(f) + READ_BUFFER_LEN - 1 <= ends.rx.maxBufferLen
    requires WithinReadBuffer(start.script)
    requires start.queue.unread + (Received(start.script) + underWay)
          == SealAll(ends.rx.cipher, ends.rx.direction, start.queue.state, sent)
    ensures ForwardRounds(ends, start, rounds).Some? ==>
              var h := ForwardRounds(ends, start, rounds).value;
              && start.forwarded <= h.forwarded
              && start.written <= h.written
              && var passed := h.forwarded[|start.forwarded|..];
                 && passed <= sent
                 && ParseAll(RecordParser(far), start.sequence, h.written[|start.written|..])
                    == Parsed(passed, start.sequence + |passed|, [], None)
                 && h.stats.frames == start.stats.frames + |passed| <= KTP_RELAY_BATCH_FRAMES * h.stats.batches
  {
    hide RecordStep, ForwardRounds, FrameRecord, SealAll, Encoding, AdmitsAll, Understands, Incremental, Roomy, Lawful, Encodable, ParseAll;
    if ForwardRounds(ends, start, rounds).Some? {
      var h := ForwardRounds(ends, start, rounds).value;
      var passed := SealedRoundsPassOn(ends, start, rounds, underWay, sent);
      assert h.forwarded[|start.forwarded|..] == passed;
      assert h.written[|start.written|..] == SealAll(far.cipher, far.direction, start.sequence, passed);
      assert forall f | f in passed :: f in sent;
      SealedFramesParse(far, start.sequence, passed);
    }
  }

  lemma SealedFramesParse(far: Receiver, sequence: U64, frames: seq<KtpFrame>)
    requires Lawful(far.cipher) && sequence + |frames| <= U64_MAX && forall f | f in frames :: Admits(far, f)
    ensures ParseAll(RecordParser(far), sequence, SealAll(far.cipher, far.direction, sequence, frames))
         == Parsed(frames, sequence + |frames|, [], None)
  {
    hide RecordStep, FrameRecord, SealAll, Encoding, AdmitsAll, Understands, Incremental, Lawful, Admits, ParseAll;
    RecordParserUnderstandsSender(far);
    EncodingIsSealAll(far, sequence, frames);
    EncodingParses(RecordParser(far), RecordWire(far), sequence, frames);
  }

  lemma SealedRoundsPassOn(ends: Ends, start: Half, rounds: nat, underWay: seq<Byte>, sent: seq<KtpFrame>) returns (passed: seq<KtpFrame>)
    requires Lawful(ends.rx.cipher)
    requires start.queue.state + |sent| <= U64_MAX && start.stats.Bounded()
    requires forall f | f in sent :: && Encodable(f) && |f.payload| <= ends.rx.maxPayloadLen
                                     && RecordLen(f) + READ_BUFFER_LEN - 1 <= ends.rx.maxBufferLen
    requires WithinReadBuffer(start.script)
    requires start.queue.unread + (Received(start.script) + underWay)
          == SealAll(ends.rx.cipher, ends.rx.direction, start.queue.state, sent)
    requires ForwardRounds(ends, start, rounds).Some?
    ensures var h := ForwardRounds(ends, start, rounds).value;
            && passed <= sent
            && h.forwarded == start.forwarded + passed
            && h.sequence == start.sequence + |passed|
            && h.written == start.written + SealAll(ends.cipher, ends.direction, start.sequence, passed)
            && h.stats.frames == start.stats.frames + |passed| && h.stats.Bounded()
  {
    hide RecordStep, ForwardRounds, FrameRecord, SealAll, Encoding, AdmitsAll, Understands, Incremental, Roomy, Lawful, Encodable;
    var limit := ends.rx.maxBufferLen;
    var tight := if limit >= READ_BUFFER_LEN - 1 then limit - (READ_BUFFER_LEN - 1) else 0;
    var near := ends.rx.(maxBufferLen := tight);
    NarrowSenderIsUnderstood(ends.rx, tight);
    assert forall f | f in sent :: Admits(near, f);
    EncodingIsSealAll(near, start.queue.state, sent);
    passed := RoundsPassOn(ends, RecordWire(near), start, rounds, underWay, sent);
  }
}
