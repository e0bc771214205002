/** The plain byte queue that both cursor codecs implement: bytes are pushed at
    one end and an incremental parser takes frames off the other. Everything
    here holds for every parser that makes progress and never changes its mind. */
module ByteQueue {
  import opened Bytes

  /** What a parser says about the unread bytes: not enough yet, a frame that
      takes the first `len` of them, or an error. */
  datatype Step<S, F, E> = NeedMore | Deliver(frame: F, len: nat, next: S) | Fail(error: E)

  type Parser<!S, !F, !E> = (S, seq<Byte>) -> Step<S, F, E>

  /** A delivered frame takes at least one byte, and a verdict other than
      `NeedMore` is not changed by bytes that arrive later. */
  ghost predicate Incremental<S(!new), F(!new), E(!new)>(p: Parser<S, F, E>) {
    && (forall s, u :: p(s, u).Deliver? ==> 0 < p(s, u).len <= |u|)
    && (forall s, u, more :: !p(s, u).NeedMore? ==> p(s, u + more) == p(s, u))
  }

  datatype Parsed<S, F, E> = Parsed(frames: seq<F>, state: S, rest: seq<Byte>, halt: Option<E>)

  /** The whole stream parsed at once: the reference for any chunking. */
  ghost function ParseAll<S(!new), F(!new), E(!new)>(p: Parser<S, F, E>, s: S, bytes: seq<Byte>): Parsed<S, F, E>
    requires Incremental(p)
    decreases |bytes|
  {
    match p(s, bytes)
    case NeedMore => Parsed([], s, bytes, None)
    case Fail(e) => Parsed([], s, bytes, Some(e))
    case Deliver(f, n, next) =>
      var r := ParseAll(p, next, bytes[n..]);
      r.(frames := [f] + r.frames)
  }

  datatype Queue<S> = Queue(state: S, unread: seq<Byte>)

  datatype Op = Push(chunk: seq<Byte>) | Next

  datatype Out<F, E> = Pushed | Refused(attempted: nat) | Empty | Frame(frame: F) | Error(error: E)

  function Apply<S, F, E>(p: Parser<S, F, E>, limit: nat, q: Queue<S>, op: Op): (Queue<S>, Out<F, E>)
    requires op.Next? && p(q.state, q.unread).Deliver? ==> p(q.state, q.unread).len <= |q.unread|
  {
    match op
    case Push(chunk) =>
      if |q.unread| + |chunk| > limit then (q, Refused(|q.unread| + |chunk|))
      else (q.(unread := q.unread + chunk), Pushed)
    case Next =>
      match p(q.state, q.unread)
      case NeedMore => (q, Empty)
      case Fail(e) => (q, Error(e))
      case Deliver(f, n, next) => (Queue(next, q.unread[n..]), Frame(f))
  }

  ghost function Run<S(!new), F(!new), E(!new)>(p: Parser<S, F, E>, limit: nat, q: Queue<S>, ops: seq<Op>)
    : (r: (Queue<S>, seq<Out<F, E>>))
    requires Incremental(p)
    ensures |r.1| == |ops|
    decreases |ops|
  {
    if ops == [] then (q, [])
    else
      var (q1, out) := Apply(p, limit, q, ops[0]);
      var (q2, outs) := Run(p, limit, q1, ops[1..]);
      (q2, [out] + outs)
  }

  /** A run extended by one operation. */
  lemma {:induction false} RunExtended<S(!new), F(!new), E(!new)>(p: Parser<S, F, E>, limit: nat, q: Queue<S>, ops: seq<Op>, op: Op)
    requires Incremental(p)
    ensures var (mid, outs) := Run(p, limit, q, ops);
            var (last, out) := Apply(p, limit, mid, op);
            Run(p, limit, q, ops + [op]) == (last, outs + [out])
    decreases |ops|
  {
    if ops == [] {
      var (last, out) := Apply(p, limit, q, op);
      var none: seq<Out<F, E>> := [];
      assert ops + [op] == [op] && [op][1..] == [];
      assert Run(p, limit, last, [op][1..]) == (last, none);
      assert none + [out] == [out] + none;
    } else {
      var (q1, first) := Apply(p, limit, q, ops[0]);
      var (mid, outs) := Run(p, limit, q1, ops[1..]);
      var (last, out) := Apply(p, limit, mid, op);
      RunExtended(p, limit, q1, ops[1..], op);
      assert (ops + [op])[0] == ops[0] && (ops + [op])[1..] == ops[1..] + [op];
      assert [first] + (outs + [out]) == ([first] + outs) + [out];
    }
  }

  /** The bytes an operation brought in, and the frames it handed out. */
  function Taken<F, E>(op: Op, out: Out<F, E>): seq<Byte> {
    if op.Push? && out.Pushed? then op.chunk else []
  }

  function Given<F, E>(out: Out<F, E>): seq<F> {
    if out.Frame? then [out.frame] else []
  }

  /** The bytes of the pushes that were accepted. */
  function Accepted<F, E>(ops: seq<Op>, outs: seq<Out<F, E>>): seq<Byte>
    requires |ops| == |outs|
  {
    if ops == [] then [] else Taken(ops[0], outs[0]) + Accepted(ops[1..], outs[1..])
  }

  function Frames<F, E>(outs: seq<Out<F, E>>): seq<F> {
    if outs == [] then [] else Given(outs[0]) + Frames(outs[1..])
  }

  /** A frame that is already there is parsed first, whatever arrives later. */
  lemma ParseStartsWithDelivery<S(!new), F(!new), E(!new)>(p: Parser<S, F, E>, q: Queue<S>, later: seq<Byte>)
    requires Incremental(p) && p(q.state, q.unread).Deliver?
    ensures var Deliver(f, n, next) := p(q.state, q.unread);
            var tail := ParseAll(p, next, q.unread[n..] + later);
            ParseAll(p, q.state, q.unread + later) == tail.(frames := [f] + tail.frames)
  {
    var Deliver(f, n, next) := p(q.state, q.unread);
    assert !p(q.state, q.unread).NeedMore?;
    assert p(q.state, q.unread + later) == Deliver(f, n, next);
    assert (q.unread + later)[n..] == q.unread[n..] + later;
  }

  /** One operation keeps the parse of everything received and still to come. */
  lemma OperationKeepsParse<S(!new), F(!new), E(!new)>(p: Parser<S, F, E>, limit: nat, q: Queue<S>, op: Op, later: seq<Byte>)
    requires Incremental(p)
    ensures var (q1, out) := Apply(p, limit, q, op);
            var tail := ParseAll(p, q1.state, q1.unread + later);
            ParseAll(p, q.state, q.unread + (Taken(op, out) + later)) == tail.(frames := Given(out) + tail.frames)
  {
    var (q1, out) := Apply(p, limit, q, op);
    if out.Pushed? {
      assert q.unread + (op.chunk + later) == q1.unread + later;
    } else {
      assert Taken(op, out) + later == later;
      if out.Frame? {
        ParseStartsWithDelivery(p, q, later);
      }
    }
  }

  /** However the accepted bytes were cut into pushes and however pushes and
      reads were interleaved, the frames read so far followed by those still to
      come are the frames of the whole stream, with the same end. */
  lemma {:induction false} ChunkingIndependence<S(!new), F(!new), E(!new)>(p: Parser<S, F, E>, limit: nat, q: Queue<S>, ops: seq<Op>)
    requires Incremental(p)
    ensures var (last, outs) := Run(p, limit, q, ops);
            var tail := ParseAll(p, last.state, last.unread);
            ParseAll(p, q.state, q.unread + Accepted(ops, outs)) == tail.(frames := Frames(outs) + tail.frames)
    decreases |ops|
  {
    if ops == [] {
      assert q.unread + [] == q.unread;
    } else {
      var (q1, out) := Apply(p, limit, q, ops[0]);
      var (last, outs1) := Run(p, limit, q1, ops[1..]);
      var outs := [out] + outs1;
      assert outs[1..] == outs1;
      var tail := ParseAll(p, last.state, last.unread);
      ChunkingIndependence(p, limit, q1, ops[1..]);
      OperationKeepsParse(p, limit, q, ops[0], Accepted(ops[1..], outs1));
      AppendAssociates(Given(out), Frames(outs1), tail.frames);
    }
  }

  /** The queue never holds more than its limit. */
  lemma {:induction false} NeverOverLimit<S(!new), F(!new), E(!new)>(p: Parser<S, F, E>, limit: nat, q: Queue<S>, ops: seq<Op>)
    requires Incremental(p) && |q.unread| <= limit
    ensures |Run(p, limit, q, ops).0.unread| <= limit
    decreases |ops|
  {
    if ops != [] {
      NeverOverLimit(p, limit, Apply(p, limit, q, ops[0]).0, ops[1..]);
    }
  }

  /** After an error every later read reports the same error: no push revives
      the stream. */
  lemma {:induction false} ErrorsAreFinal<S(!new), F(!new), E(!new)>(p: Parser<S, F, E>, limit: nat, q: Queue<S>, ops: seq<Op>, i: nat)
    requires Incremental(p) && p(q.state, q.unread).Fail?
    requires i < |ops| && ops[i].Next?
    ensures Run(p, limit, q, ops).1[i] == Error(p(q.state, q.unread).error)
    decreases i
  {
    if i > 0 {
      var (q1, _) := Apply(p, limit, q, ops[0]);
      if ops[0].Push? {
        var more := ops[0].chunk;
        assert !p(q.state, q.unread).NeedMore?;
        assert p(q.state, q.unread + more) == p(q.state, q.unread);
      }
      ErrorsAreFinal(p, limit, q1, ops[1..], i - 1);
    }
  }

  // ---- Encoded streams ----

  /** A sender: how it encodes a frame in a given state, its next state, and
      the frames both ends admit. */
  datatype Wire<!S, !F> = Wire(encode: (S, F) -> seq<Byte>, succ: S -> S, admits: (S, F) -> bool)

  /** The parser takes exactly one encoding off the front, and waits for the
      rest of an incomplete one. */
  ghost predicate Understands<S(!new), F(!new), E(!new)>(p: Parser<S, F, E>, w: Wire<S, F>) {
    && (forall s :: p(s, []).NeedMore?)
    && (forall s, f, more :: w.admits(s, f) ==> p(s, w.encode(s, f) + more) == Deliver(f, |w.encode(s, f)|, w.succ(s)))
    && (forall s, f, u :: w.admits(s, f) && u < w.encode(s, f) ==> p(s, u).NeedMore?)
  }

  function Encoding<S, F>(w: Wire<S, F>, s: S, frames: seq<F>): seq<Byte>
    decreases |frames|
  {
    if frames == [] then [] else w.encode(s, frames[0]) + Encoding(w, w.succ(s), frames[1..])
  }

  predicate AdmitsAll<S, F>(w: Wire<S, F>, s: S, frames: seq<F>)
    decreases |frames|
  {
    frames == [] || (w.admits(s, frames[0]) && AdmitsAll(w, w.succ(s), frames[1..]))
  }

  function After<S, F>(w: Wire<S, F>, s: S, n: nat): S
    decreases n
  {
    if n == 0 then s else After(w, w.succ(s), n - 1)
  }

  /** The receiver is in step with the sender: what it holds and what is still
      under way is the encoding of the frames it has not delivered. */
  predicate InStep<S, F>(w: Wire<S, F>, q: Queue<S>, underWay: seq<Byte>, rest: seq<F>) {
    && AdmitsAll(w, q.state, rest)
    && q.unread + underWay == Encoding(w, q.state, rest)
  }

  lemma CutAtHead(u: seq<Byte>, underWay: seq<Byte>, head: seq<Byte>, tail: seq<Byte>)
    requires u + underWay == head + tail
    ensures |u| < |head| ==> u < head
    ensures |u| >= |head| ==> u == head + u[|head|..] && u[|head|..] + underWay == tail
  {
    var all := u + underWay;
    assert all[..|u|] == u && all[..|head|] == head && all[|head|..] == tail;
    if |u| < |head| {
      assert head[..|u|] == u;
    } else {
      assert u[..|head|] == head;
      assert all[|head|..] == u[|head|..] + underWay;
    }
  }

  /** In step, a read delivers the next frame, and is in step for those after
      it, or waits because its encoding is incomplete; it never fails. */
  lemma InStepRead<S(!new), F(!new), E(!new)>(p: Parser<S, F, E>, w: Wire<S, F>, q: Queue<S>, underWay: seq<Byte>, rest: seq<F>)
    requires Understands(p, w) && InStep(w, q, underWay, rest)
    ensures match p(q.state, q.unread)
            case NeedMore => if rest == [] then q.unread == [] == underWay else |q.unread| < |w.encode(q.state, rest[0])|
            case Fail(_) => false
            case Deliver(f, n, next) => && rest != [] && f == rest[0] && n <= |q.unread| && next == w.succ(q.state)
                                        && InStep(w, Queue(next, q.unread[n..]), underWay, rest[1..])
  {
    if rest == [] {
      assert |q.unread + underWay| == 0;
      assert q.unread == [];
    } else {
      var head := w.encode(q.state, rest[0]);
      CutAtHead(q.unread, underWay, head, Encoding(w, w.succ(q.state), rest[1..]));
      if |q.unread| < |head| {
        assert p(q.state, q.unread).NeedMore?;
      } else {
        var more := q.unread[|head|..];
        assert p(q.state, head + more) == Deliver(rest[0], |head|, w.succ(q.state));
      }
    }
  }

  /** One operation keeps the receiver in step, and never fails. */
  lemma OperationKeepsStep<S(!new), F(!new), E(!new)>(
      p: Parser<S, F, E>, w: Wire<S, F>, limit: nat, q: Queue<S>, op: Op, underWay: seq<Byte>, rest: seq<F>)
    requires Incremental(p) && Understands(p, w)
    requires InStep(w, q, Taken(op, Apply(p, limit, q, op).1) + underWay, rest)
    ensures var (q1, out) := Apply(p, limit, q, op);
            && !out.Error?
            && Given(out) <= rest
            && q1.state == After(w, q.state, |Given(out)|)
            && InStep(w, q1, underWay, rest[|Given(out)|..])
  {
    var (q1, out) := Apply(p, limit, q, op);
    assert rest[0..] == rest;
    if op.Push? {
      assert q.unread + (Taken(op, out) + underWay) == q1.unread + underWay;
    } else {
      assert Taken(op, out) + underWay == underWay;
      InStepRead(p, w, q, underWay, rest);
    }
  }

  /** Encoded frames, cut into any chunks and pushed in any interleaving with
      reads: the frames read are the first ones sent, in order, no read fails,
      and the receiver stays in step with the sender. */
  lemma {:induction false} FramesArrive<S(!new), F(!new), E(!new)>(
      p: Parser<S, F, E>, w: Wire<S, F>, limit: nat, q: Queue<S>, ops: seq<Op>, underWay: seq<Byte>, rest: seq<F>)
    requires Incremental(p) && Understands(p, w)
    requires InStep(w, q, Accepted(ops, Run(p, limit, q, ops).1) + underWay, rest)
    ensures var (last, outs) := Run(p, limit, q, ops);
            && Frames(outs) <= rest
            && (forall out | out in outs :: !out.Error?)
            && last.state == After(w, q.state, |Frames(outs)|)
            && InStep(w, last, underWay, rest[|Frames(outs)|..])
    decreases |ops|
  {
    hide Understands, InStep, Apply;
    if ops == [] {
      assert [] + underWay == underWay && rest[0..] == rest;
    } else {
      var (q1, out) := Apply(p, limit, q, ops[0]);
      hide Incremental;
      var (last, outs1) := Run(p, limit, q1, ops[1..]);
      var outs := [out] + outs1;
      assert Run(p, limit, q, ops) == (last, outs) && outs[1..] == outs1;
      var later := Accepted(ops[1..], outs1);
      AppendAssociates(Taken(ops[0], out), later, underWay);
      OperationKeepsStep(p, w, limit, q, ops[0], later + underWay, rest);
      var k := |Given(out)|;
      FramesArrive(p, w, limit, q1, ops[1..], underWay, rest[k..]);
      assert Frames(outs) == Given(out) + Frames(outs1) && Accepted(ops, outs) == Taken(ops[0], out) + later;
      assert rest == Given(out) + rest[k..];
      assert rest[k + |Frames(outs1)|..] == rest[k..][|Frames(outs1)|..];
    }
  }

  /** When nothing is under way and a read comes back empty, every frame has
      been delivered and nothing is left over. */
  lemma AllFramesArrive<S(!new), F(!new), E(!new)>(
      p: Parser<S, F, E>, w: Wire<S, F>, limit: nat, q: Queue<S>, ops: seq<Op>, rest: seq<F>)
    requires Incremental(p) && Understands(p, w)
    requires InStep(w, q, Accepted(ops, Run(p, limit, q, ops).1), rest)
    requires var last := Run(p, limit, q, ops).0; p(last.state, last.unread).NeedMore?
    ensures var (last, outs) := Run(p, limit, q, ops);
            Frames(outs) == rest && last == Queue(After(w, q.state, |rest|), [])
  {
    var (last, outs) := Run(p, limit, q, ops);
    assert Accepted(ops, outs) + [] == Accepted(ops, outs);
    FramesArrive(p, w, limit, q, ops, [], rest);
    var missing := rest[|Frames(outs)|..];
    InStepRead(p, w, last, [], missing);
    assert last.unread + [] == last.unread;
  }

  /** The encoding of admitted frames, parsed as a whole, gives back the frames. */
  lemma {:induction false} EncodingParses<S(!new), F(!new), E(!new)>(p: Parser<S, F, E>, w: Wire<S, F>, s: S, frames: seq<F>)
    requires Incremental(p) && Understands(p, w) && AdmitsAll(w, s, frames)
    ensures ParseAll(p, s, Encoding(w, s, frames)) == Parsed(frames, After(w, s, |frames|), [], None)
    decreases |frames|
  {
    if frames != [] {
      var head, tail := w.encode(s, frames[0]), Encoding(w, w.succ(s), frames[1..]);
      assert p(s, head + tail) == Deliver(frames[0], |head|, w.succ(s));
      assert (head + tail)[|head|..] == tail;
      EncodingParses(p, w, w.succ(s), frames[1..]);
      assert frames == [frames[0]] + frames[1..];
    }
  }
}
