/** The shared wake-up of several frame queues: a producer pushes a frame under
    the queue's lock and then, as a separate step, raises the generation; the
    consumer reads the generation, drains the queues one after another, and if
    all were empty waits for the generation to change. */
module FrameNotifier {
  import opened Bytes
  import opened Runs

  /** A queued frame, named by its producer and that producer's count. */
  datatype Ticket = Ticket(producer: nat, count: nat)

  /** `Notifying` is between the push and the raise of the generation. */
  datatype Producer = Quiet(pushed: nat) | Notifying(pushed: nat)

  /** `Draining` has taken from the first `next` queues, and found frames or not. */
  datatype Consumer =
    | Resting
    | Draining(observed: U64, next: nat, found: bool)
    | Waiting(observed: U64)

  datatype State = State(
    capacity: nat,
    queues: seq<seq<Ticket>>,
    producers: seq<Producer>,
    generation: U64,
    consumer: Consumer)

  datatype Step =
    | Push(producer: nat, queue: nat)
    | Notify(producer: nat)
    | Observe
    | Drain(max: nat)
    | Decide
    | Wake
    | TimeOut

  predicate Enabled(s: State, step: Step) {
    match step
    case Push(p, q) => p < |s.producers| && q < |s.queues| && s.producers[p].Quiet? && |s.queues[q]| < s.capacity
    case Notify(p) => p < |s.producers| && s.producers[p].Notifying?
    case Observe => s.consumer.Resting?
    case Drain(max) => s.consumer.Draining? && s.consumer.next < |s.queues| && max > 0
    case Decide => s.consumer.Draining? && s.consumer.next >= |s.queues|
    case Wake => s.consumer.Waiting? && s.generation != s.consumer.observed
    case TimeOut => s.consumer.Waiting?
  }

  function SaturatingSucc(g: U64): U64 {
    if g < U64_MAX then g + 1 else g
  }

  function Do(s: State, step: Step): State
    requires Enabled(s, step)
  {
    match step
    case Push(p, q) =>
      var n := s.producers[p].pushed;
      s.(queues := s.queues[q := s.queues[q] + [Ticket(p, n)]], producers := s.producers[p := Notifying(n + 1)])
    case Notify(p) =>
      s.(producers := s.producers[p := Quiet(s.producers[p].pushed)], generation := SaturatingSucc(s.generation))
    case Observe => s.(consumer := Draining(s.generation, 0, false))
    case Drain(max) =>
      var Draining(observed, next, found) := s.consumer;
      var queue := s.queues[next];
      var count := if max <= |queue| then max else |queue|;
      s.(queues := s.queues[next := queue[count..]], consumer := Draining(observed, next + 1, found || count > 0))
    case Decide => s.(consumer := if s.consumer.found then Resting else Waiting(s.consumer.observed))
    case Wake => s.(consumer := Resting)
    case TimeOut => s.(consumer := Resting)
  }

  /** A run may start at any generation. */
  predicate Init(s: State) {
    && (forall q | q in s.queues :: q == [])
    && (forall p | p in s.producers :: p.Quiet?)
    && s.consumer.Resting?
  }

  predicate Next(s: State, step: Step, t: State) {
    Enabled(s, step) && t == Do(s, step)
  }

  function Notifier(): System<State, Step> {
    System(Init, Next)
  }

  /** The frame's producer has yet to raise the generation for it. */
  predicate NotifyPending(s: State, ticket: Ticket) {
    && ticket.producer < |s.producers|
    && s.producers[ticket.producer] == Notifying(ticket.count + 1)
  }

  /** The queues a consumer that found nothing has already passed. */
  function Passed(s: State): nat {
    match s.consumer
    case Resting => 0
    case Draining(_, next, found) => if found then 0 else next
    case Waiting(_) => |s.queues|
  }

  /** Every frame in a queue that was passed empty has moved the generation on
      since it was observed, or is about to. */
  predicate Inv(s: State) {
    && (!s.consumer.Resting? ==> s.consumer.observed <= s.generation)
    && Passed(s) <= |s.queues|
    && (!s.consumer.Resting? && s.consumer.observed < U64_MAX ==>
          forall j, k | 0 <= j < Passed(s) && 0 <= k < |s.queues[j]| ::
            s.generation > s.consumer.observed || NotifyPending(s, s.queues[j][k]))
  }

  lemma NotifierInductive()
    ensures Inductive(Notifier(), Inv)
  {
  }

  /** No wake-up is lost: in every interleaving, a frame in a queue while the
      consumer waits means that the consumer can already wake, or that the
      frame's producer is still about to notify. It holds for every observed
      generation but the largest. */
  lemma NoLostWakeup(states: seq<State>, steps: seq<Step>, i: nat, queue: nat, ticket: Ticket)
    requires IsRun(Notifier(), states, steps) && i < |states|
    requires states[i].consumer.Waiting? && states[i].consumer.observed < U64_MAX
    requires queue < |states[i].queues| && ticket in states[i].queues[queue]
    ensures Enabled(states[i], Wake) || NotifyPending(states[i], ticket)
  {
    NotifierInductive();
    HoldsThroughout(Notifier(), Inv, states, steps, i);
    var k :| 0 <= k < |states[i].queues[queue]| && states[i].queues[queue][k] == ticket;
  }

  /** At the largest generation it fails: the generation no longer moves, and the
      consumer can wait on a queued frame that every producer has announced. */
  lemma SaturatedGenerationLosesWakeup() returns (states: seq<State>, steps: seq<Step>)
    ensures IsRun(Notifier(), states, steps)
    ensures var s := states[|states| - 1];
            && s.consumer == Waiting(U64_MAX)
            && s.queues == [[Ticket(0, 0)]]
            && !Enabled(s, Wake) && !NotifyPending(s, Ticket(0, 0))
  {
    var s0 := State(1, [[]], [Quiet(0)], U64_MAX, Resting);
    steps := [Observe, Drain(1), Decide, Push(0, 0), Notify(0)];
    var s1 := Do(s0, Observe);
    var s2 := Do(s1, Drain(1));
    var s3 := Do(s2, Decide);
    var s4 := Do(s3, Push(0, 0));
    var s5 := Do(s4, Notify(0));
    states := [s0, s1, s2, s3, s4, s5];
    assert s2.queues == [[]] && s2.consumer == Draining(U64_MAX, 1, false);
    assert s3.consumer == Waiting(U64_MAX);
    assert s3.queues[0] + [Ticket(0, 0)] == [Ticket(0, 0)];
    assert s4.queues == [[Ticket(0, 0)]];
    assert s5.producers == [Quiet(1)];
    forall i | 0 <= i < |steps|
      ensures Notifier().next(states[i], steps[i], states[i + 1])
    {
      assert i == 0 || i == 1 || i == 2 || i == 3 || i == 4;
    }
  }
}
