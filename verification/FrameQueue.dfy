/** The bounded outbound queue of the agent. */
module FrameQueue {
  import opened Bytes
  import opened Ktp
  import opened BatchLimit

  /** The frames of one session, in order. */
  function OfSession(frames: seq<KtpFrame>, id: U64): seq<KtpFrame> {
    if frames == [] then []
    else (if frames[0].sessionId == id then [frames[0]] else []) + OfSession(frames[1..], id)
  }

  /** All frames but those of one session, in order. */
  function Without(frames: seq<KtpFrame>, id: U64): seq<KtpFrame> {
    if frames == [] then []
    else (if frames[0].sessionId != id then [frames[0]] else []) + Without(frames[1..], id)
  }

  lemma {:induction false} OfSessionAppend(a: seq<KtpFrame>, b: seq<KtpFrame>, id: U64)
    ensures OfSession(a + b, id) == OfSession(a, id) + OfSession(b, id)
  {
    if a == [] {
      assert a + b == b;
    } else {
      OfSessionAppend(a[1..], b, id);
      assert (a + b)[0] == a[0] && (a + b)[1..] == a[1..] + b;
      AppendAssociates(if a[0].sessionId == id then [a[0]] else [], OfSession(a[1..], id), OfSession(b, id));
    }
  }

  lemma {:induction false} WithoutAppend(a: seq<KtpFrame>, b: seq<KtpFrame>, id: U64)
    ensures Without(a + b, id) == Without(a, id) + Without(b, id)
  {
    if a == [] {
      assert a + b == b;
    } else {
      WithoutAppend(a[1..], b, id);
      assert (a + b)[0] == a[0] && (a + b)[1..] == a[1..] + b;
      AppendAssociates(if a[0].sessionId != id then [a[0]] else [], Without(a[1..], id), Without(b, id));
    }
  }

  /** Purging a session removes exactly its frames: none is left, every other
      session keeps its frames in order, and together with the frames of the
      session the queue is whole. */
  lemma {:induction false} WithoutIsPurge(frames: seq<KtpFrame>, id: U64)
    ensures forall f | f in Without(frames, id) :: f.sessionId != id
    ensures forall other | other != id :: OfSession(Without(frames, id), other) == OfSession(frames, other)
    ensures multiset(frames) == multiset(Without(frames, id)) + multiset(OfSession(frames, id))
    ensures |frames| == |Without(frames, id)| + |OfSession(frames, id)|
  {
    if frames != [] {
      var first, rest := frames[0], frames[1..];
      WithoutIsPurge(rest, id);
      assert frames == [first] + rest;
      forall other | other != id
        ensures OfSession(Without(frames, id), other) == OfSession(frames, other)
      {
        if first.sessionId != id {
          OfSessionAppend([first], Without(rest, id), other);
          OfSessionAppend([first], rest, other);
        } else {
          assert Without(frames, id) == Without(rest, id);
        }
      }
    }
  }

  // ---- Order ----

  /** The elements of the first list occur in the second, in the same order. */
  predicate Subsequence<T(==)>(a: seq<T>, b: seq<T>)
    decreases |b|
  {
    || a == []
    || (b != [] && (Subsequence(a, b[1..]) || (a[0] == b[0] && Subsequence(a[1..], b[1..]))))
  }

  lemma NothingIsSubsequence<T>(b: seq<T>)
    ensures Subsequence([], b)
  {
  }

  lemma {:induction false} SubsequenceOfSelf<T>(a: seq<T>)
    ensures Subsequence(a, a)
  {
    if a != [] {
      SubsequenceOfSelf(a[1..]);
    }
  }

  lemma {:induction false} SubsequenceTransitive<T>(a: seq<T>, b: seq<T>, c: seq<T>)
    requires Subsequence(a, b) && Subsequence(b, c)
    ensures Subsequence(a, c)
    decreases |c|
  {
    if a != [] {
      if Subsequence(b, c[1..]) {
        SubsequenceTransitive(a, b, c[1..]);
      } else if Subsequence(a, b[1..]) {
        SubsequenceTransitive(a, b[1..], c[1..]);
      } else {
        SubsequenceTransitive(a[1..], b[1..], c[1..]);
      }
    }
  }

  lemma {:induction false} SubsequenceAppend<T>(a: seq<T>, b: seq<T>, x: seq<T>, y: seq<T>)
    requires Subsequence(a, b) && Subsequence(x, y)
    ensures Subsequence(a + x, b + y)
    decreases |b|
  {
    if b == [] {
      assert a + x == x && b + y == y;
    } else {
      assert (b + y)[1..] == b[1..] + y;
      if Subsequence(a, b[1..]) {
        SubsequenceAppend(a, b[1..], x, y);
      } else {
        SubsequenceAppend(a[1..], b[1..], x, y);
        assert (a + x)[1..] == a[1..] + x;
      }
    }
  }

  lemma {:induction false} WithoutIsSubsequence(frames: seq<KtpFrame>, id: U64)
    ensures Subsequence(Without(frames, id), frames)
  {
    if frames != [] {
      var rest := Without(frames[1..], id);
      WithoutIsSubsequence(frames[1..], id);
      if frames[0].sessionId != id {
        assert Without(frames, id) == [frames[0]] + rest;
        assert ([frames[0]] + rest)[1..] == rest;
      } else {
        assert Without(frames, id) == rest;
      }
    }
  }

  // ---- The queue ----

  /** A frame and the time, in microseconds, at which it was queued. */
  datatype QueuedKtpFrame = QueuedKtpFrame(frame: KtpFrame, enqueuedAt: nat)

  function FramesOf(queued: seq<QueuedKtpFrame>): (frames: seq<KtpFrame>)
    ensures |frames| == |queued|
  {
    seq(|queued|, i requires 0 <= i < |queued| => queued[i].frame)
  }

  /** How long a frame was queued; a clock never runs back. */
  function Dwell(queued: QueuedKtpFrame, now: nat): U64 {
    if now < queued.enqueuedAt then 0 else if now - queued.enqueuedAt > U64_MAX then U64_MAX else now - queued.enqueuedAt
  }

  /** The dwell times of frames taken at the times `now(0)`, `now(1)` and so on. */
  function Dwells(queued: seq<QueuedKtpFrame>, now: nat -> nat): (dwells: seq<U64>)
    ensures |dwells| == |queued|
  {
    seq<U64>(|queued|, i requires 0 <= i < |queued| => Dwell(queued[i], now(i)))
  }

  lemma TakesOneMore(queued: seq<QueuedKtpFrame>, now: nat -> nat, i: nat)
    requires i < |queued|
    ensures FramesOf(queued[..i + 1]) == FramesOf(queued[..i]) + [queued[i].frame]
    ensures Dwells(queued[..i + 1], now) == Dwells(queued[..i], now) + [Dwell(queued[i], now(i))]
  {
  }

  lemma KeptInOrder(queued: seq<QueuedKtpFrame>, i: nat, kept: seq<QueuedKtpFrame>, more: seq<QueuedKtpFrame>)
    requires i < |queued| && Subsequence(kept, queued[..i]) && (more == [] || more == [queued[i]])
    ensures Subsequence(kept + more, queued[..i + 1])
  {
    SubsequenceAppend(kept, queued[..i], more, [queued[i]]);
    assert queued[..i] + [queued[i]] == queued[..i + 1];
  }

  /** A frame queued at one time and taken later was queued for the time between. */
  lemma DwellBetween(frame: KtpFrame, at: nat, elapsed: U64)
    ensures Dwell(QueuedKtpFrame(frame, at), at + elapsed) == elapsed
  {
  }

  lemma FramesSplit(queued: seq<QueuedKtpFrame>, n: nat)
    requires n <= |queued|
    ensures FramesOf(queued) == FramesOf(queued[..n]) + FramesOf(queued[n..])
  {
  }

  class AsyncTunnelFrameQueue {
    var queued: seq<QueuedKtpFrame>
    const capacity: nat
    const stats: RecentDwell

    ghost predicate Valid()
      reads this, stats
    {
      |queued| <= capacity && stats.Valid()
    }

    ghost function Frames(): seq<KtpFrame>
      reads this
    {
      FramesOf(queued)
    }

    constructor (capacity: nat, stats: RecentDwell)
      requires stats.Valid()
      ensures Valid() && queued == [] && this.capacity == capacity && this.stats == stats
    {
      queued := [];
      this.capacity := capacity;
      this.stats := stats;
    }

    method TryPush(frame: KtpFrame, now: nat) returns (accepted: bool)
      requires Valid()
      modifies this
      ensures Valid()
      ensures accepted <==> |old(Frames())| < capacity
      ensures queued == old(queued) + if accepted then [QueuedKtpFrame(frame, now)] else []
      ensures Frames() == old(Frames()) + if accepted then [frame] else []
    {
      if |queued| >= capacity {
        return false;
      }
      queued := queued + [QueuedKtpFrame(frame, now)];
      return true;
    }

    method Pop(now: nat) returns (frame: Option<KtpFrame>)
      requires Valid()
      modifies this, stats
      ensures Valid()
      ensures frame == None <==> old(queued) == []
      ensures frame.None? ==> queued == [] && stats.history == old(stats.history)
      ensures frame.Some? ==> && old(Frames()) == [frame.value] + Frames()
                              && stats.history == old(stats.history) + [Dwell(old(queued)[0], now)]
    {
      if queued == [] {
        return None;
      }
      var first := queued[0];
      queued := queued[1..];
      stats.Record(Dwell(first, now));
      return Some(first.frame);
    }

    /** Takes the oldest frames, all of them or as many as asked for, and records
        how long each was queued. */
    method Drain(maxFrames: nat, now: nat -> nat) returns (taken: seq<KtpFrame>)
      requires Valid()
      modifies this, stats
      ensures Valid()
      ensures old(Frames()) == taken + Frames()
      ensures |taken| == if maxFrames <= |old(Frames())| then maxFrames else |old(Frames())|
      ensures stats.history == old(stats.history) + Dwells(old(queued)[..|taken|], now)
    {
      if maxFrames == 0 {
        return [];
      }
      var count := if maxFrames <= |queued| then maxFrames else |queued|;
      var batch := queued[..count];
      queued := queued[count..];
      taken := [];
      FramesSplit(old(queued), count);
      assert FramesOf(batch[..0]) == [] && Dwells(batch[..0], now) == [] && batch[..count] == batch;
      hide FramesOf, Dwells;
      for i := 0 to count
        invariant stats.Valid() && queued == old(queued)[count..]
        invariant taken == FramesOf(batch[..i])
        invariant stats.history == old(stats.history) + Dwells(batch[..i], now)
      {
        TakesOneMore(batch, now, i);
        stats.Record(Dwell(batch[i], now(i)));
        taken := taken + [batch[i].frame];
      }
    }

    method Clear() returns (count: nat)
      requires Valid()
      modifies this
      ensures Valid() && queued == [] && count == |old(Frames())|
    {
      count := |queued|;
      queued := [];
    }

    method RemoveSessionFrames(id: U64) returns (removed: nat)
      requires Valid()
      modifies this
      ensures Valid()
      ensures Frames() == Without(old(Frames()), id) && Subsequence(queued, old(queued))
      ensures removed == |OfSession(old(Frames()), id)|
    {
      var before := |queued|;
      ghost var frames := Frames();
      var kept: seq<QueuedKtpFrame> := [];
      hide Subsequence;
      NothingIsSubsequence(queued[..0]);
      for i := 0 to |queued|
        invariant queued == old(queued)
        invariant FramesOf(kept) == Without(frames[..i], id) && Subsequence(kept, queued[..i])
      {
        WithoutAppend(frames[..i], [frames[i]], id);
        assert frames[..i] + [frames[i]] == frames[..i + 1];
        if queued[i].frame.sessionId != id {
          assert FramesOf(kept + [queued[i]]) == FramesOf(kept) + [frames[i]];
          KeptInOrder(queued, i, kept, [queued[i]]);
          kept := kept + [queued[i]];
        } else {
          KeptInOrder(queued, i, kept, []);
          assert kept + [] == kept;
        }
      }
      assert frames[..|frames|] == frames && queued[..|queued|] == queued;
      WithoutIsPurge(frames, id);
      queued := kept;
      removed := before - |queued|;
    }
  }
}
