/** Closing a session while its reader task is still producing frames: the entry
    leaves the map, the reader is aborted and awaited if its handle is known, and
    only then are the session's queued frames purged. Opening registers the
    handle last. Session ids are not reused here. */
module SessionClose {
  import opened Bytes
  import opened Ktp
  import opened Runs
  import opened FrameQueue

  /** How far the open has come: in the map, open frame pushed (or not needed),
      reader spawned, handle registered; `Abandoned` if the push was refused. */
  datatype Opening = Inserted | Announced | Spawned | Registered | Abandoned

  datatype Reader = Absent | Running | Ended

  /** How far the close has come. `Awaiting` is entered only with a handle;
      `clean` remembers that the reader was awaited. */
  datatype Closing = Open | Taken | Awaiting | ReaderGone(clean: bool) | Purged(clean: bool)

  datatype Life = Life(opening: Opening, inMap: bool, reader: Reader, closing: Closing)

  datatype State = State(
    capacity: nat,
    queue: seq<KtpFrame>,
    lives: map<U64, Life>,
    accepted: seq<KtpFrame>,
    delivered: seq<KtpFrame>,
    purged: multiset<KtpFrame>,
    purgedIds: set<U64>,
    cleared: bool)

  datatype Step =
    | OpenSession(id: U64)
    | Announce(id: U64, frame: KtpFrame)
    | SkipAnnounce(id: U64)
    | SpawnReader(id: U64)
    | RegisterHandle(id: U64)
    | ReaderPush(id: U64, frame: KtpFrame)
    | ReaderEnds(id: U64)
    | TakeFromMap(id: U64)
    | AbortReader(id: U64)
    | ReaderAwaited(id: U64)
    | PurgeFrames(id: U64)
    | DrainFrames(max: nat)
    | ClearQueue

  predicate Enabled(s: State, step: Step) {
    match step
    case OpenSession(id) => id !in s.lives
    case Announce(id, frame) => id in s.lives && s.lives[id].opening.Inserted? && frame.sessionId == id
    case SkipAnnounce(id) => id in s.lives && s.lives[id].opening.Inserted?
    case SpawnReader(id) => id in s.lives && s.lives[id].opening.Announced?
    case RegisterHandle(id) => id in s.lives && s.lives[id].opening.Spawned?
    case ReaderPush(id, frame) => id in s.lives && s.lives[id].reader.Running? && frame.sessionId == id
    case ReaderEnds(id) => id in s.lives && s.lives[id].reader.Running?
    case TakeFromMap(id) => id in s.lives && s.lives[id].inMap && s.lives[id].closing.Open?
    case AbortReader(id) => id in s.lives && s.lives[id].closing.Taken?
    case ReaderAwaited(id) => id in s.lives && s.lives[id].closing.Awaiting? && s.lives[id].reader.Ended?
    case PurgeFrames(id) => id in s.lives && s.lives[id].closing.ReaderGone?
    case DrainFrames(_) => true
    case ClearQueue => true
  }

  /** A push that finds the queue full is dropped. */
  function Push(s: State, frame: KtpFrame): State {
    if |s.queue| < s.capacity then s.(queue := s.queue + [frame], accepted := s.accepted + [frame]) else s
  }

  function Do(s: State, step: Step): State
    requires Enabled(s, step)
  {
    match step
    case OpenSession(id) => s.(lives := s.lives[id := Life(Inserted, true, Absent, Open)])
    case Announce(id, frame) =>
      Push(s, frame).(lives := s.lives[id := s.lives[id].(opening := if |s.queue| < s.capacity then Announced else Abandoned)])
    case SkipAnnounce(id) => s.(lives := s.lives[id := s.lives[id].(opening := Announced)])
    case SpawnReader(id) => s.(lives := s.lives[id := s.lives[id].(opening := Spawned, reader := Running)])
    case RegisterHandle(id) => s.(lives := s.lives[id := s.lives[id].(opening := Registered)])
    case ReaderPush(id, frame) => Push(s, frame)
    case ReaderEnds(id) => s.(lives := s.lives[id := s.lives[id].(reader := Ended, inMap := false)])
    case TakeFromMap(id) => s.(lives := s.lives[id := s.lives[id].(inMap := false, closing := Taken)])
    case AbortReader(id) =>
      s.(lives := s.lives[id := s.lives[id].(closing := if s.lives[id].opening.Registered? then Awaiting else ReaderGone(false))])
    case ReaderAwaited(id) => s.(lives := s.lives[id := s.lives[id].(closing := ReaderGone(true))])
    case PurgeFrames(id) =>
      s.(queue := Without(s.queue, id), purged := s.purged + multiset(OfSession(s.queue, id)), purgedIds := s.purgedIds + {id},
         lives := s.lives[id := s.lives[id].(closing := Purged(s.lives[id].closing.clean))])
    case DrainFrames(max) =>
      var n := if max <= |s.queue| then max else |s.queue|;
      s.(queue := s.queue[n..], delivered := s.delivered + s.queue[..n])
    case ClearQueue => s.(queue := [], purged := s.purged + multiset(s.queue), cleared := true)
  }

  predicate Init(s: State) {
    s.queue == [] && s.lives == map[] && s.accepted == [] && s.delivered == [] && s.purged == multiset{} && s.purgedIds == {} && !s.cleared
  }

  predicate Next(s: State, step: Step, t: State) {
    Enabled(s, step) && t == Do(s, step)
  }

  function Sessions(): System<State, Step> {
    System(Init, Next)
  }

  // ---- Which sessions can still be heard ----

  predicate NoFrameOf(queue: seq<KtpFrame>, id: U64) {
    forall k | 0 <= k < |queue| :: queue[k].sessionId != id
  }

  /** Someone can still push for the session: its open has a frame to announce or a
      reader to spawn, or its reader runs. */
  predicate CanSpeak(life: Life) {
    life.opening.Inserted? || life.opening.Announced? || life.reader.Running?
  }

  /** From here on the session may yet have a frame in the queue. */
  ghost predicate MaySpeak(s: State, id: U64) {
    exists t :: Leads(Sessions(), s, t) && !NoFrameOf(t.queue, id)
  }

  lemma PurgeKeepsAway(queue: seq<KtpFrame>, purged: U64, id: U64)
    ensures NoFrameOf(Without(queue, purged), purged)
    ensures NoFrameOf(queue, id) ==> NoFrameOf(Without(queue, purged), id)
  {
  }

  /** No frame of the session is queued, and nobody is left to push one. */
  predicate Mute(s: State, id: U64) {
    id in s.lives && NoFrameOf(s.queue, id) && (s.capacity == 0 || !CanSpeak(s.lives[id]))
  }

  lemma StepKeepsMute(s: State, step: Step, id: U64)
    requires Mute(s, id) && Enabled(s, step)
    ensures Mute(Do(s, step), id)
  {
    hide OfSession, Without;
    var t := Do(s, step);
    if step.PurgeFrames? {
      PurgeKeepsAway(s.queue, step.id, id);
    } else if step.DrainFrames? {
      assert forall k | 0 <= k < |t.queue| :: t.queue[k] == s.queue[|s.queue| - |t.queue| + k];
    }
  }

  lemma MuteForGood(s: State, t: State, id: U64)
    requires Mute(s, id) && Leads(Sessions(), s, t)
    ensures Mute(t, id)
  {
    hide Do, Enabled, Mute;
    forall s, step, t | Mute(s, id) && Sessions().next(s, step, t)
      ensures Mute(t, id)
    {
      StepKeepsMute(s, step, id);
    }
    LeadsKeeping(Sessions(), s => Mute(s, id), s, t);
  }

  /** An empty queue with room, and someone to push: one or two steps later a frame
      of the session is queued. */
  lemma Speaks(s: State, id: U64) returns (t: State)
    requires id in s.lives && CanSpeak(s.lives[id]) && s.queue == [] && s.capacity > 0
    ensures Leads(Sessions(), s, t) && !NoFrameOf(t.queue, id)
  {
    hide OfSession, Without, Leads;
    var frame := KtpFrame(SessionData, Egress, 0, id, []);
    if s.lives[id].reader.Running? {
      t := Do(s, ReaderPush(id, frame));
      LeadsNowhere(Sessions(), t);
      assert Sessions().next(s, ReaderPush(id, frame), t);
      LeadsOn(Sessions(), s, ReaderPush(id, frame), t, t);
    } else if s.lives[id].opening.Inserted? {
      t := Do(s, Announce(id, frame));
      LeadsNowhere(Sessions(), t);
      assert Sessions().next(s, Announce(id, frame), t);
      LeadsOn(Sessions(), s, Announce(id, frame), t, t);
    } else {
      var mid := Do(s, SpawnReader(id));
      t := Do(mid, ReaderPush(id, frame));
      LeadsNowhere(Sessions(), t);
      assert Sessions().next(mid, ReaderPush(id, frame), t);
      LeadsOn(Sessions(), mid, ReaderPush(id, frame), t, t);
      assert Sessions().next(s, SpawnReader(id), mid);
      LeadsOn(Sessions(), s, SpawnReader(id), mid, t);
    }
    assert t.queue[0] == frame;
  }

  /** A session with no frame in the queue, closed or not, may be heard again if and
      only if the queue has any room at all and someone can still push for it. */
  lemma MaySpeakIff(s: State, id: U64)
    requires id in s.lives && NoFrameOf(s.queue, id)
    ensures MaySpeak(s, id) <==> s.capacity > 0 && CanSpeak(s.lives[id])
  {
    hide OfSession, Without, Leads;
    if MaySpeak(s, id) {
      var t :| Leads(Sessions(), s, t) && !NoFrameOf(t.queue, id);
      if Mute(s, id) {
        MuteForGood(s, t, id);
      }
    }
    if s.capacity > 0 && CanSpeak(s.lives[id]) {
      var drain := DrainFrames(|s.queue|);
      var empty := Do(s, drain);
      var t := Speaks(empty, id);
      assert Sessions().next(s, drain, empty);
      LeadsOn(Sessions(), s, drain, empty, t);
    }
  }

  // ---- Closed sessions ----

  /** Past the wait for a registered reader the reader has ended, and once purged
      the session's frames are gone. */
  predicate ClosesClean(s: State, id: U64) {
    id in s.lives ==>
      var life := s.lives[id];
      && (life.closing.Awaiting? ==> life.opening.Registered?)
      && (life.closing == ReaderGone(true) || life.closing == Purged(true) ==> life.opening.Registered? && life.reader.Ended?)
      && (life.closing == Purged(true) ==> NoFrameOf(s.queue, id))
  }

  lemma StepKeepsClean(s: State, step: Step, id: U64)
    requires ClosesClean(s, id) && Enabled(s, step)
    ensures ClosesClean(Do(s, step), id)
  {
    hide OfSession, Without, NoFrameOf, Mute;
    var t := Do(s, step);
    if id in t.lives && t.lives[id].closing == Purged(true) {
      if step == PurgeFrames(id) {
        PurgeKeepsAway(s.queue, id, id);
      } else {
        PurgedIsMute(s, id);
        StepKeepsMute(s, step, id);
        MuteIsEmpty(t, id);
      }
    }
  }

  lemma PurgedIsMute(s: State, id: U64)
    requires ClosesClean(s, id) && id in s.lives && s.lives[id].closing == Purged(true)
    ensures Mute(s, id)
  {
  }

  lemma MuteIsEmpty(s: State, id: U64)
    requires Mute(s, id)
    ensures NoFrameOf(s.queue, id)
  {
  }

  lemma AlwaysClean(states: seq<State>, steps: seq<Step>, i: nat, id: U64)
    requires IsRun(Sessions(), states, steps) && i < |states|
    ensures ClosesClean(states[i], id)
  {
    hide Do, Enabled;
    forall s, step, t | ClosesClean(s, id) && Sessions().next(s, step, t)
      ensures ClosesClean(t, id)
    {
      StepKeepsClean(s, step, id);
    }
    HoldsThroughout(Sessions(), s => ClosesClean(s, id), states, steps, i);
  }

  /** Once a close that awaited the reader has completed, no frame of the session
      is in the outbound queue, then or ever again. */
  lemma ClosedSessionStaysSilent(states: seq<State>, steps: seq<Step>, i: nat, id: U64, j: nat)
    requires IsRun(Sessions(), states, steps) && i <= j < |states|
    requires id in states[i].lives && states[i].lives[id].closing == Purged(true)
    ensures NoFrameOf(states[j].queue, id)
  {
    hide Leads;
    AlwaysClean(states, steps, i, id);
    MaySpeakIff(states[i], id);
    RunLeads(Sessions(), states, steps, i, j);
  }

  /** The session's close completes and a frame of it is queued afterwards. */
  ghost predicate MaySpeakClosed(s: State, id: U64) {
    exists t :: Leads(Sessions(), s, t) && IsPurged(t, id) && !NoFrameOf(t.queue, id)
  }

  /** What keeps a session from being heard once its close has completed: a queue
      without room, nobody to push, or a handle that the close will wait for. */
  predicate Tamed(s: State, id: U64) {
    && id in s.lives
    && var life := s.lives[id];
       && (life.closing.Purged? ==> NoFrameOf(s.queue, id))
       && (|| (s.capacity == 0 && s.queue == [])
           || !CanSpeak(life)
           || (life.opening.Registered? && (life.closing.Open? || life.closing.Taken? || life.closing.Awaiting?)))
  }

  lemma TamedIsMute(s: State, id: U64)
    requires Tamed(s, id) && s.lives[id].closing.Purged?
    ensures Mute(s, id)
  {
  }

  lemma StepKeepsTamed(s: State, step: Step, id: U64)
    requires Tamed(s, id) && Enabled(s, step)
    ensures Tamed(Do(s, step), id)
  {
    hide OfSession, Without, NoFrameOf, Mute;
    var t := Do(s, step);
    if t.lives[id].closing.Purged? {
      if step == PurgeFrames(id) {
        PurgeKeepsAway(s.queue, id, id);
      } else {
        TamedIsMute(s, id);
        StepKeepsMute(s, step, id);
        MuteIsEmpty(t, id);
      }
    }
    if step.PurgeFrames? {
      WithoutIsPurge(s.queue, step.id);
    }
  }

  lemma TamedForGood(s: State, t: State, id: U64)
    requires Tamed(s, id) && Leads(Sessions(), s, t)
    ensures Tamed(t, id)
  {
    hide Do, Enabled, Tamed;
    forall s, step, t | Tamed(s, id) && Sessions().next(s, step, t)
      ensures Tamed(t, id)
    {
      StepKeepsTamed(s, step, id);
    }
    LeadsKeeping(Sessions(), s => Tamed(s, id), s, t);
  }

  /** Closes a session whose reader handle is not registered. */
  lemma CloseUnregistered(s: State, id: U64) returns (t: State)
    requires id in s.lives && s.lives[id].inMap && s.lives[id].closing.Open? && !s.lives[id].opening.Registered?
    ensures t.capacity == s.capacity && id in t.lives && t.lives[id] == s.lives[id].(inMap := false, closing := Purged(false))
    ensures NoFrameOf(t.queue, id)
    ensures forall u :: Leads(Sessions(), t, u) ==> Leads(Sessions(), s, u)
  {
    hide OfSession, Without, Leads;
    var s1 := Do(s, TakeFromMap(id));
    var s2 := Do(s1, AbortReader(id));
    t := Do(s2, PurgeFrames(id));
    PurgeKeepsAway(s.queue, id, id);
    assert Sessions().next(s, TakeFromMap(id), s1) && Sessions().next(s1, AbortReader(id), s2) && Sessions().next(s2, PurgeFrames(id), t);
    forall u | Leads(Sessions(), t, u)
      ensures Leads(Sessions(), s, u)
    {
      LeadsOn(Sessions(), s2, PurgeFrames(id), t, u);
      LeadsOn(Sessions(), s1, AbortReader(id), s2, u);
      LeadsOn(Sessions(), s, TakeFromMap(id), s1, u);
    }
  }
  predicate IsPurged(s: State, id: U64) {
    id in s.lives && s.lives[id].closing.Purged?
  }

  lemma StepKeepsPurged(s: State, step: Step, id: U64)
    requires IsPurged(s, id) && Enabled(s, step)
    ensures IsPurged(Do(s, step), id)
  {
    hide OfSession, Without;
  }

  lemma PurgedForGood(s: State, t: State, id: U64)
    requires IsPurged(s, id) && Leads(Sessions(), s, t)
    ensures IsPurged(t, id)
  {
    hide Do, Enabled, IsPurged;
    forall s, step, t | IsPurged(s, id) && Sessions().next(s, step, t)
      ensures IsPurged(t, id)
    {
      StepKeepsPurged(s, step, id);
    }
    LeadsKeeping(Sessions(), s => IsPurged(s, id), s, t);
  }

  /** A session that is in the map and not being closed may be heard after its close
      if and only if the queue has room, its reader handle is not registered, and
      someone can still push for it. */
  lemma MaySpeakClosedIff(states: seq<State>, steps: seq<Step>, i: nat, id: U64)
    requires IsRun(Sessions(), states, steps) && i < |states|
    requires id in states[i].lives && states[i].lives[id].inMap && states[i].lives[id].closing.Open?
    ensures MaySpeakClosed(states[i], id)
       <==> states[i].capacity > 0 && !states[i].lives[id].opening.Registered? && CanSpeak(states[i].lives[id])
  {
    hide Leads, Do, Enabled, OfSession, Without;
    var s := states[i];
    var loud := s.capacity > 0 && !s.lives[id].opening.Registered? && CanSpeak(s.lives[id]);
    if loud {
      var t := CloseUnregistered(s, id);
      MaySpeakIff(t, id);
      var u :| Leads(Sessions(), t, u) && !NoFrameOf(u.queue, id);
      PurgedForGood(t, u, id);
    }
    if MaySpeakClosed(s, id) && !loud {
      AlwaysConserved(states, steps, i);
      assert Tamed(s, id);
      var t :| Leads(Sessions(), s, t) && IsPurged(t, id) && !NoFrameOf(t.queue, id);
      TamedForGood(s, t, id);
    }
  }

  // ---- Conservation and order ----

  /** Accepted frames are delivered, purged or still queued. */
  predicate Conserved(s: State) {
    && multiset(s.accepted) == multiset(s.delivered) + s.purged + multiset(s.queue)
    && |s.queue| <= s.capacity
  }

  lemma PushConserves(s: State, frame: KtpFrame)
    requires Conserved(s)
    ensures Conserved(Push(s, frame))
  {
  }

  lemma DrainConserves(accepted: seq<KtpFrame>, delivered: seq<KtpFrame>, purged: multiset<KtpFrame>, queue: seq<KtpFrame>, n: nat)
    requires multiset(accepted) == multiset(delivered) + purged + multiset(queue) && n <= |queue|
    ensures multiset(accepted) == multiset(delivered + queue[..n]) + purged + multiset(queue[n..])
  {
    var front, back := queue[..n], queue[n..];
    assert queue == front + back;
    assert multiset(queue) == multiset(front) + multiset(back);
    assert multiset(delivered + front) == multiset(delivered) + multiset(front);
  }

  lemma PurgeConserves(accepted: seq<KtpFrame>, delivered: seq<KtpFrame>, purged: multiset<KtpFrame>, queue: seq<KtpFrame>, id: U64)
    requires multiset(accepted) == multiset(delivered) + purged + multiset(queue)
    ensures multiset(accepted) == multiset(delivered) + (purged + multiset(OfSession(queue, id))) + multiset(Without(queue, id))
    ensures |Without(queue, id)| <= |queue|
  {
    hide OfSession, Without;
    WithoutIsPurge(queue, id);
  }

  lemma StepConserves(s: State, step: Step)
    requires Conserved(s) && Enabled(s, step)
    ensures Conserved(Do(s, step))
  {
    hide OfSession, Without, Push;
    match step {
      case Announce(id, frame) => PushConserves(s, frame);
      case ReaderPush(id, frame) => PushConserves(s, frame);
      case PurgeFrames(id) => PurgeConserves(s.accepted, s.delivered, s.purged, s.queue, id);
      case DrainFrames(max) =>
        DrainConserves(s.accepted, s.delivered, s.purged, s.queue, if max <= |s.queue| then max else |s.queue|);
      case _ =>
    }
  }

  lemma AlwaysConserved(states: seq<State>, steps: seq<Step>, i: nat)
    requires IsRun(Sessions(), states, steps) && i < |states|
    ensures Conserved(states[i])
  {
    forall s, step, t | Conserved(s) && Sessions().next(s, step, t)
      ensures Conserved(t)
    {
      StepConserves(s, step);
    }
    forall s | Sessions().init(s)
      ensures Conserved(s)
    {
      assert multiset(s.accepted) == multiset{};
    }
    HoldsThroughout(Sessions(), Conserved, states, steps, i);
  }

  /** In every interleaving the accepted frames are exactly those delivered,
      purged or queued. */
  lemma NoFrameIsLost(states: seq<State>, steps: seq<Step>, i: nat)
    requires IsRun(Sessions(), states, steps) && i < |states|
    ensures var s := states[i];
            && multiset(s.accepted) == multiset(s.delivered) + s.purged + multiset(s.queue)
            && |s.accepted| == |s.delivered| + |s.purged| + |s.queue|
  {
    AlwaysConserved(states, steps, i);
    var s := states[i];
    assert |multiset(s.accepted)| == |s.accepted|;
    assert |multiset(s.delivered) + s.purged + multiset(s.queue)| == |s.delivered| + |s.purged| + |s.queue|;
  }

  /** Sessions that were not purged keep their frames, in order. */
  predicate InOrder(s: State) {
    !s.cleared ==>
      forall id: U64 | id !in s.purgedIds :: OfSession(s.accepted, id) == OfSession(s.delivered, id) + OfSession(s.queue, id)
  }

  lemma PushKeepsOrder(s: State, frame: KtpFrame, id: U64)
    requires OfSession(s.accepted, id) == OfSession(s.delivered, id) + OfSession(s.queue, id)
    ensures var t := Push(s, frame); OfSession(t.accepted, id) == OfSession(t.delivered, id) + OfSession(t.queue, id)
  {
    OfSessionAppend(s.accepted, [frame], id);
    OfSessionAppend(s.queue, [frame], id);
  }

  lemma DrainKeepsOrder(delivered: seq<KtpFrame>, queue: seq<KtpFrame>, n: nat, id: U64)
    requires n <= |queue|
    ensures OfSession(delivered + queue[..n], id) + OfSession(queue[n..], id) == OfSession(delivered, id) + OfSession(queue, id)
  {
    OfSessionAppend(delivered, queue[..n], id);
    OfSessionAppend(queue[..n], queue[n..], id);
    assert queue[..n] + queue[n..] == queue;
  }

  lemma StepKeepsOrder(s: State, step: Step)
    requires InOrder(s) && Enabled(s, step)
    ensures InOrder(Do(s, step))
  {
    var t := Do(s, step);
    if !t.cleared {
      forall id: U64 | id !in t.purgedIds
        ensures OfSession(t.accepted, id) == OfSession(t.delivered, id) + OfSession(t.queue, id)
      {
        hide OfSession, Without;
        match step {
          case Announce(_, frame) => PushKeepsOrder(s, frame, id);
          case ReaderPush(_, frame) => PushKeepsOrder(s, frame, id);
          case PurgeFrames(purged) => WithoutIsPurge(s.queue, purged);
          case DrainFrames(max) => DrainKeepsOrder(s.delivered, s.queue, if max <= |s.queue| then max else |s.queue|, id);
          case _ =>
        }
      }
    }
  }

  /** In every interleaving, until everything is closed, a session that was not
      purged has its accepted frames delivered and queued in the order of their
      pushes, whatever other sessions were purged meanwhile. */
  lemma OtherSessionsKeepOrder(states: seq<State>, steps: seq<Step>, i: nat, id: U64)
    requires IsRun(Sessions(), states, steps) && i < |states|
    requires !states[i].cleared && id !in states[i].purgedIds
    ensures var s := states[i]; OfSession(s.accepted, id) == OfSession(s.delivered, id) + OfSession(s.queue, id)
  {
    forall s, step, t | InOrder(s) && Sessions().next(s, step, t)
      ensures InOrder(t)
    {
      StepKeepsOrder(s, step);
    }
    HoldsThroughout(Sessions(), InOrder, states, steps, i);
  }

  /** What was delivered and is queued is what was accepted, with frames left out
      but never moved, whatever was purged or cleared meanwhile. */
  predicate NothingOvertakes(s: State) {
    Subsequence(s.delivered + s.queue, s.accepted)
  }

  lemma StepKeepsSequence(s: State, step: Step)
    requires NothingOvertakes(s) && Enabled(s, step)
    ensures NothingOvertakes(Do(s, step))
  {
    hide OfSession, Without, Subsequence;
    match step {
      case Announce(_, frame) => PushKeepsSequence(s, frame);
      case ReaderPush(_, frame) => PushKeepsSequence(s, frame);
      case PurgeFrames(id) =>
        SubsequenceOfSelf(s.delivered);
        WithoutIsSubsequence(s.queue, id);
        SubsequenceAppend(s.delivered, s.delivered, Without(s.queue, id), s.queue);
        SubsequenceTransitive(s.delivered + Without(s.queue, id), s.delivered + s.queue, s.accepted);
      case DrainFrames(max) =>
        var n := if max <= |s.queue| then max else |s.queue|;
        AppendAssociates(s.delivered, s.queue[..n], s.queue[n..]);
        assert s.queue == s.queue[..n] + s.queue[n..];
      case ClearQueue =>
        SubsequenceOfSelf(s.delivered);
        NothingIsSubsequence(s.queue);
        SubsequenceAppend(s.delivered, s.delivered, [], s.queue);
        SubsequenceTransitive(s.delivered + [], s.delivered + s.queue, s.accepted);
      case _ =>
    }
  }

  lemma PushKeepsSequence(s: State, frame: KtpFrame)
    requires NothingOvertakes(s)
    ensures NothingOvertakes(Push(s, frame))
  {
    hide Subsequence;
    SubsequenceOfSelf([frame]);
    SubsequenceAppend(s.delivered + s.queue, s.accepted, [frame], [frame]);
    AppendAssociates(s.delivered, s.queue, [frame]);
  }

  /** In every state of every interleaving, purges and clears included, no frame
      overtakes another. */
  lemma FramesKeepOrder(states: seq<State>, steps: seq<Step>, i: nat)
    requires IsRun(Sessions(), states, steps) && i < |states|
    ensures Subsequence(states[i].delivered + states[i].queue, states[i].accepted)
  {
    hide Subsequence;
    NothingIsSubsequence<KtpFrame>([]);
    forall s, step, t | NothingOvertakes(s) && Sessions().next(s, step, t)
      ensures NothingOvertakes(t)
    {
      StepKeepsSequence(s, step);
    }
    forall s | Sessions().init(s)
      ensures NothingOvertakes(s)
    {
      assert s.delivered + s.queue == [];
    }
    HoldsThroughout(Sessions(), NothingOvertakes, states, steps, i);
  }

  // ---- The session map ----

  /** A session is in the map exactly while nobody closes it and its reader has not
      ended by itself. */
  predicate MapIsExact(s: State) {
    forall id | id in s.lives :: s.lives[id].inMap <==> s.lives[id].closing.Open? && !s.lives[id].reader.Ended?
  }

  lemma StepKeepsMapExact(s: State, step: Step)
    requires MapIsExact(s) && Enabled(s, step) && AbsentUntilSpawned(s)
    ensures MapIsExact(Do(s, step)) && AbsentUntilSpawned(Do(s, step))
  {
    hide OfSession, Without;
  }

  /** The reader is spawned once, after the announcement. */
  predicate AbsentUntilSpawned(s: State) {
    forall id | id in s.lives :: s.lives[id].reader.Absent? <==> !(s.lives[id].opening.Spawned? || s.lives[id].opening.Registered?)
  }

  /** In every run the map holds exactly the sessions that can still be closed, so no
      session is taken out of it twice. */
  lemma SessionsLeaveTheMapOnce(states: seq<State>, steps: seq<Step>, i: nat)
    requires IsRun(Sessions(), states, steps) && i < |states|
    ensures MapIsExact(states[i])
  {
    hide Do, Enabled, MapIsExact, AbsentUntilSpawned;
    var exact := (s: State) => MapIsExact(s) && AbsentUntilSpawned(s);
    forall s | Sessions().init(s)
      ensures exact(s)
    {
      StartsExact(s);
    }
    forall s, step, t | exact(s) && Sessions().next(s, step, t)
      ensures exact(t)
    {
      StepKeepsMapExact(s, step);
    }
    HoldsThroughout(Sessions(), exact, states, steps, i);
  }

  lemma StartsExact(s: State)
    requires Init(s)
    ensures MapIsExact(s) && AbsentUntilSpawned(s)
  {
  }
}
