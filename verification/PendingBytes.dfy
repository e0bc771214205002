/** The byte budget of a session: concurrent callers reserve payload bytes with
    a compare-and-swap loop before they hand the payload to the writer task
    through a bounded channel; the bytes are released once written, or at once
    when the channel refuses the payload. */
module PendingBytes {
  import opened Runs

  const CHANNEL_CAPACITY: nat := 64
  const USIZE_MAX: nat := 0xFFFF_FFFF_FFFF_FFFF

  /** Where a call that delivers a payload stands. */
  datatype Caller =
    | Idle
    | Wanting(bytes: nat)
    | Loaded(bytes: nat, seen: nat)
    | Reserved(bytes: nat)
    | Rejected(bytes: nat)
  {
    /** The bytes the call has reserved and is responsible for. */
    function Held(): nat {
      match this
      case Reserved(n) => n
      case Rejected(n) => n
      case _ => 0
    }
  }

  /** The writer task; `Breaking` is after a failed write, before the receiver is dropped. */
  datatype Writer = Waiting | Writing(bytes: nat) | Breaking | Stopped

  datatype State = State(
    limit: nat,
    pending: nat,
    callers: seq<Caller>,
    channel: seq<nat>,
    writer: Writer,
    lost: nat)       // payload bytes dropped with the receiver: never written, never released

  datatype Step =
    | Begin(i: nat, bytes: nat)
    | Load(i: nat)
    | Refuse(i: nat)
    | CompareExchange(i: nat, spurious: bool)
    | TrySend(i: nat)
    | ReleaseRejected(i: nat)
    | Receive
    | ReleaseWritten(ok: bool)
    | DropReceiver
    | Finish

  function SaturatingSub(a: nat, b: nat): nat {
    if a >= b then a - b else 0
  }

  predicate OverBudget(s: State, seen: nat, bytes: nat) {
    seen + bytes > USIZE_MAX || seen + bytes > s.limit
  }

  predicate Enabled(s: State, step: Step) {
    match step
    case Begin(i, _) => i < |s.callers| && s.callers[i].Idle?
    case Load(i) => i < |s.callers| && s.callers[i].Wanting?
    case Refuse(i) => i < |s.callers| && s.callers[i].Loaded? && OverBudget(s, s.callers[i].seen, s.callers[i].bytes)
    case CompareExchange(i, _) => i < |s.callers| && s.callers[i].Loaded? && !OverBudget(s, s.callers[i].seen, s.callers[i].bytes)
    case TrySend(i) => i < |s.callers| && s.callers[i].Reserved?
    case ReleaseRejected(i) => i < |s.callers| && s.callers[i].Rejected?
    case Receive => s.writer.Waiting? && s.channel != []
    case ReleaseWritten(_) => s.writer.Writing?
    case DropReceiver => s.writer.Breaking?
    case Finish => s.writer.Waiting? && s.channel == []
  }

  function Do(s: State, step: Step): State
    requires Enabled(s, step)
  {
    match step
    case Begin(i, bytes) => s.(callers := s.callers[i := Wanting(bytes)])
    case Load(i) => s.(callers := s.callers[i := Loaded(s.callers[i].bytes, s.pending)])
    case Refuse(i) => s.(callers := s.callers[i := Idle])
    case CompareExchange(i, spurious) =>
      var Loaded(bytes, seen) := s.callers[i];
      if s.pending == seen && !spurious then s.(pending := seen + bytes, callers := s.callers[i := Reserved(bytes)])
      else s.(callers := s.callers[i := Wanting(bytes)])
    case TrySend(i) =>
      var bytes := s.callers[i].bytes;
      if !s.writer.Stopped? && |s.channel| < CHANNEL_CAPACITY then
        s.(channel := s.channel + [bytes], callers := s.callers[i := Idle])
      else s.(callers := s.callers[i := Rejected(bytes)])
    case ReleaseRejected(i) =>
      s.(pending := SaturatingSub(s.pending, s.callers[i].bytes), callers := s.callers[i := Idle])
    case Receive => s.(writer := Writing(s.channel[0]), channel := s.channel[1..])
    case ReleaseWritten(ok) =>
      s.(pending := SaturatingSub(s.pending, s.writer.bytes), writer := if ok then Waiting else Breaking)
    case DropReceiver => s.(writer := Stopped, channel := [], lost := s.lost + Sum(s.channel))
    case Finish => s.(writer := Stopped)
  }

  predicate Init(s: State) {
    && s.pending == 0 && s.lost == 0 && s.channel == [] && s.writer == Waiting
    && forall c | c in s.callers :: c == Idle
  }

  predicate Next(s: State, step: Step, t: State) {
    Enabled(s, step) && t == Do(s, step)
  }

  function Budget(): System<State, Step> {
    System(Init, Next)
  }

  // ---- What is reserved and not yet released ----

  function Sum(ns: seq<nat>): nat {
    if ns == [] then 0 else ns[0] + Sum(ns[1..])
  }

  function TotalHeld(callers: seq<Caller>): nat {
    if callers == [] then 0 else callers[0].Held() + TotalHeld(callers[1..])
  }

  /** Reserved by a caller, waiting in the channel, being written, or lost with
      the receiver. */
  function Outstanding(s: State): nat {
    TotalHeld(s.callers) + Sum(s.channel) + (if s.writer.Writing? then s.writer.bytes else 0) + s.lost
  }

  predicate Inv(s: State) {
    && s.pending == Outstanding(s)
    && s.pending <= s.limit
    && (s.writer.Stopped? ==> s.channel == [])
    && |s.channel| <= CHANNEL_CAPACITY
  }

  lemma {:induction false} HeldAfterUpdate(callers: seq<Caller>, i: nat, c: Caller)
    requires i < |callers|
    ensures TotalHeld(callers[i := c]) == TotalHeld(callers) - callers[i].Held() + c.Held()
    ensures TotalHeld(callers) >= callers[i].Held()
  {
    if i == 0 {
      assert callers[i := c][1..] == callers[1..];
    } else {
      HeldAfterUpdate(callers[1..], i - 1, c);
      assert callers[i := c][1..] == callers[1..][i - 1 := c];
    }
  }

  lemma {:induction false} SumAppend(ns: seq<nat>, n: nat)
    ensures Sum(ns + [n]) == Sum(ns) + n
  {
    if ns == [] {
      assert ns + [n] == [n];
    } else {
      SumAppend(ns[1..], n);
      assert (ns + [n])[1..] == ns[1..] + [n];
    }
  }

  lemma {:induction false} NoneHolds(callers: seq<Caller>)
    requires forall c | c in callers :: c.Held() == 0
    ensures TotalHeld(callers) == 0
  {
    if callers != [] {
      NoneHolds(callers[1..]);
    }
  }

  lemma CallerStepKeepsBudget(s: State, step: Step)
    requires Inv(s) && Enabled(s, step)
    requires step.Begin? || step.Load? || step.Refuse? || step.CompareExchange? || step.TrySend? || step.ReleaseRejected?
    ensures Inv(Do(s, step))
  {
    hide TotalHeld, Sum;
    match step
    case Begin(i, bytes) => HeldAfterUpdate(s.callers, i, Wanting(bytes));
    case Load(i) => HeldAfterUpdate(s.callers, i, Loaded(s.callers[i].bytes, s.pending));
    case Refuse(i) => HeldAfterUpdate(s.callers, i, Idle);
    case CompareExchange(i, _) =>
      HeldAfterUpdate(s.callers, i, Reserved(s.callers[i].bytes));
      HeldAfterUpdate(s.callers, i, Wanting(s.callers[i].bytes));
    case TrySend(i) =>
      HeldAfterUpdate(s.callers, i, Idle);
      HeldAfterUpdate(s.callers, i, Rejected(s.callers[i].bytes));
      SumAppend(s.channel, s.callers[i].bytes);
    case ReleaseRejected(i) => HeldAfterUpdate(s.callers, i, Idle);
  }

  lemma StepKeepsBudget(s: State, step: Step)
    requires Inv(s) && Enabled(s, step)
    ensures Inv(Do(s, step))
  {
    hide TotalHeld;
    if step.Receive? || step.ReleaseWritten? || step.DropReceiver? || step.Finish? {
      assert Sum([]) == 0;
    } else {
      CallerStepKeepsBudget(s, step);
    }
  }

  lemma BudgetInductive()
    ensures Inductive(Budget(), Inv)
  {
    forall s | Budget().init(s)
      ensures Inv(s)
    {
      NoneHolds(s.callers);
    }
    forall s, step, t | Inv(s) && Budget().next(s, step, t)
      ensures Inv(t)
    {
      StepKeepsBudget(s, step);
    }
  }

  /** In every state of every interleaving, with stale reads and spurious
      failures of the compare-and-swap, the counter is exactly the bytes reserved
      and not released, and never above the limit. */
  lemma PendingIsOutstanding(states: seq<State>, steps: seq<Step>, i: nat)
    requires IsRun(Budget(), states, steps) && i < |states|
    ensures states[i].pending == Outstanding(states[i]) <= states[i].limit
  {
    BudgetInductive();
    HoldsThroughout(Budget(), Inv, states, steps, i);
  }

  /** The saturating subtraction of a release never saturates: every release
      lowers the counter by exactly the payload it releases. */
  lemma ReleaseNeverSaturates(states: seq<State>, steps: seq<Step>, i: nat)
    requires IsRun(Budget(), states, steps) && i < |steps|
    ensures steps[i].ReleaseRejected? ==>
              && steps[i].i < |states[i].callers| && states[i].callers[steps[i].i].Rejected?
              && states[i + 1].pending + states[i].callers[steps[i].i].bytes == states[i].pending
    ensures steps[i].ReleaseWritten? ==>
              && states[i].writer.Writing?
              && states[i + 1].pending + states[i].writer.bytes == states[i].pending
  {
    BudgetInductive();
    HoldsThroughout(Budget(), Inv, states, steps, i);
    var s := states[i];
    assert Budget().next(s, steps[i], states[i + 1]);
    if steps[i].ReleaseRejected? {
      HeldAfterUpdate(s.callers, steps[i].i, Idle);
    }
  }

  lemma {:induction false} LostIff(states: seq<State>, steps: seq<Step>, i: nat)
    requires IsRun(Budget(), states, steps) && i < |states|
    ensures states[i].lost == 0 <==> forall k | 0 <= k < i && steps[k].DropReceiver? :: Sum(states[k].channel) == 0
  {
    hide Sum;
    if i > 0 {
      LostIff(states, steps, i - 1);
      assert Budget().next(states[i - 1], steps[i - 1], states[i]);
    }
  }

  /** When the writer has stopped and no call is in progress, the counter is back at
      zero if and only if the receiver was never dropped with payload bytes queued. */
  lemma QuietCounterIsZeroIff(states: seq<State>, steps: seq<Step>, i: nat)
    requires IsRun(Budget(), states, steps) && i < |states|
    requires states[i].writer.Stopped? && forall c | c in states[i].callers :: c.Held() == 0
    ensures states[i].pending == 0 <==> forall k | 0 <= k < i && steps[k].DropReceiver? :: Sum(states[k].channel) == 0
  {
    BudgetInductive();
    HoldsThroughout(Budget(), Inv, states, steps, i);
    NoneHolds(states[i].callers);
    LostIff(states, steps, i);
  }

  /** A single caller hands over every payload that fits the budget. */
  lemma HandsOver(s: State, bytes: nat) returns (t: State)
    requires s.callers == [Idle] && s.writer.Waiting? && |s.channel| < CHANNEL_CAPACITY
    requires s.pending + bytes <= s.limit && s.pending + bytes <= USIZE_MAX
    ensures t == s.(pending := s.pending + bytes, channel := s.channel + [bytes])
    ensures forall u :: Leads(Budget(), t, u) ==> Leads(Budget(), s, u)
  {
    hide Leads;
    var s1 := Do(s, Begin(0, bytes));
    var s2 := Do(s1, Load(0));
    var s3 := Do(s2, CompareExchange(0, false));
    t := Do(s3, TrySend(0));
    assert Budget().next(s, Begin(0, bytes), s1) && Budget().next(s1, Load(0), s2);
    assert Budget().next(s2, CompareExchange(0, false), s3) && Budget().next(s3, TrySend(0), t);
    forall u | Leads(Budget(), t, u)
      ensures Leads(Budget(), s, u)
    {
      LeadsOn(Budget(), s3, TrySend(0), t, u);
      LeadsOn(Budget(), s2, CompareExchange(0, false), s3, u);
      LeadsOn(Budget(), s1, Load(0), s2, u);
      LeadsOn(Budget(), s, Begin(0, bytes), s1, u);
    }
  }

  /** Bytes do stay reserved: for any two payloads within the budget there is a run
      in which writing the first one fails and the second one is left reserved, with
      the writer gone and no call in progress. */
  lemma BytesStayReserved(limit: nat, first: nat, second: nat) returns (s: State, t: State)
    requires first + second <= limit <= USIZE_MAX
    ensures Init(s) && s.limit == limit && Leads(Budget(), s, t)
    ensures t.writer.Stopped? && t.callers == [Idle] && t.pending == second
  {
    hide Leads;
    s := State(limit, 0, [Idle], [], Waiting, 0);
    var s1 := HandsOver(s, first);
    var s2 := HandsOver(s1, second);
    assert s2.channel == [first, second];
    var s3 := Do(s2, Receive);
    var s4 := Do(s3, ReleaseWritten(false));
    t := Do(s4, DropReceiver);
    assert Budget().next(s2, Receive, s3) && Budget().next(s3, ReleaseWritten(false), s4) && Budget().next(s4, DropReceiver, t);
    LeadsNowhere(Budget(), t);
    LeadsOn(Budget(), s4, DropReceiver, t, t);
    LeadsOn(Budget(), s3, ReleaseWritten(false), s4, t);
    LeadsOn(Budget(), s2, Receive, s3, t);
  }
}
