/** Session opens and closes against the session map, the active counter and
    the per-rule counters, each touched in its own atomic step. */
module SessionAccounting {
  import opened Runs

  /** An open: past the capacity check, in the map, counted active; the rule
      counter comes last. */
  datatype Opener =
    | Idle
    | Checked(id: nat, rule: nat)
    | Inserted(rule: nat)
    | CountedActive(rule: nat)

  /** A close: rules of removed sessions still to be counted closed, and possibly
      one whose active count is done but whose rule count is not. */
  datatype Closer =
    | Closing(rules: seq<nat>)
    | Halfway(rule: nat, rules: seq<nat>)

  /** The rule counters, absent meaning zero, are a multiset of rules. */
  datatype State = State(
    maxSessions: nat,
    sessions: map<nat, nat>,
    active: nat,
    ruleCounts: multiset<nat>,
    openers: seq<Opener>,
    closers: seq<Closer>,
    opens: seq<(nat, nat)>,        // every (id, rule) ever inserted
    overwritten: nat,              // inserts that replaced a live session
    clipped: nat,                  // active counts lost to saturation at zero
    ruleClipped: multiset<nat>,    // rule counts lost to saturation at zero
    removed: nat,
    closed: nat)

  datatype Step =
    | CheckCapacity(i: nat, id: nat, rule: nat)
    | DialFailed(i: nat)
    | Insert(i: nat)
    | CountActive(i: nat)
    | CountRule(i: nat)
    | CloseSession(c: nat, id: nat)
    | ReaderEnds(c: nat, id: nat, rule: nat)
    | CloseAll(c: nat, order: seq<nat>)
    | UncountActive(c: nat)
    | UncountRule(c: nat)

  predicate Lists(order: seq<nat>, sessions: map<nat, nat>) {
    && |order| == |sessions|
    && (forall k | 0 <= k < |order| :: order[k] in sessions)
    && (forall j, k | 0 <= j < k < |order| :: order[j] != order[k])
  }

  function RulesOf(order: seq<nat>, sessions: map<nat, nat>): (rules: seq<nat>)
    requires forall k | 0 <= k < |order| :: order[k] in sessions
    ensures |rules| == |order|
  {
    seq(|order|, k requires 0 <= k < |order| => sessions[order[k]])
  }

  predicate Enabled(s: State, step: Step) {
    match step
    case CheckCapacity(i, _, _) => i < |s.openers| && s.openers[i].Idle?
    case DialFailed(i) => i < |s.openers| && s.openers[i].Checked?
    case Insert(i) => i < |s.openers| && s.openers[i].Checked?
    case CountActive(i) => i < |s.openers| && s.openers[i].Inserted?
    case CountRule(i) => i < |s.openers| && s.openers[i].CountedActive?
    case CloseSession(c, id) => c < |s.closers| && s.closers[c] == Closing([]) && id in s.sessions
    case ReaderEnds(c, id, rule) => c < |s.closers| && s.closers[c] == Closing([]) && id in s.sessions && (id, rule) in s.opens
    case CloseAll(c, order) => c < |s.closers| && s.closers[c] == Closing([]) && Lists(order, s.sessions)
    case UncountActive(c) => c < |s.closers| && s.closers[c].Closing? && s.closers[c].rules != []
    case UncountRule(c) => c < |s.closers| && s.closers[c].Halfway?
  }

  function Do(s: State, step: Step): State
    requires Enabled(s, step)
  {
    match step
    case CheckCapacity(i, id, rule) =>
      if s.active >= s.maxSessions then s else s.(openers := s.openers[i := Checked(id, rule)])
    case DialFailed(i) => s.(openers := s.openers[i := Idle])
    case Insert(i) =>
      var Checked(id, rule) := s.openers[i];
      s.(sessions := s.sessions[id := rule],
         overwritten := s.overwritten + (if id in s.sessions then 1 else 0),
         opens := s.opens + [(id, rule)],
         openers := s.openers[i := Inserted(rule)])
    case CountActive(i) =>
      s.(active := s.active + 1, openers := s.openers[i := CountedActive(s.openers[i].rule)])
    case CountRule(i) =>
      s.(ruleCounts := s.ruleCounts + multiset{s.openers[i].rule}, openers := s.openers[i := Idle])
    case CloseSession(c, id) => Remove(s, c, id, s.sessions[id])
    case ReaderEnds(c, id, rule) => Remove(s, c, id, rule)
    case CloseAll(c, order) =>
      s.(sessions := map[], removed := s.removed + |order|,
         closers := s.closers[c := Closing(RulesOf(order, s.sessions))])
    case UncountActive(c) =>
      var rules := s.closers[c].rules;
      s.(active := if s.active > 0 then s.active - 1 else 0,
         clipped := s.clipped + (if s.active > 0 then 0 else 1),
         closed := s.closed + 1,
         closers := s.closers[c := Halfway(rules[0], rules[1..])])
    case UncountRule(c) =>
      var Halfway(rule, rules) := s.closers[c];
      s.(ruleCounts := s.ruleCounts - multiset{rule},
         ruleClipped := s.ruleClipped + (if rule in s.ruleCounts then multiset{} else multiset{rule}),
         closers := s.closers[c := Closing(rules)])
  }

  function Remove(s: State, c: nat, id: nat, rule: nat): State
    requires c < |s.closers| && id in s.sessions
  {
    s.(sessions := s.sessions - {id}, removed := s.removed + 1, closers := s.closers[c := Closing([rule])])
  }

  predicate Init(s: State) {
    && s.sessions == map[] && s.active == 0 && s.ruleCounts == multiset{} && s.opens == []
    && s.overwritten == s.clipped == s.removed == s.closed == 0 && s.ruleClipped == multiset{}
    && (forall o | o in s.openers :: o.Idle?)
    && (forall c | c in s.closers :: c == Closing([]))
  }

  predicate Next(s: State, step: Step, t: State) {
    Enabled(s, step) && t == Do(s, step)
  }

  function Accounting(): System<State, Step> {
    System(Init, Next)
  }

  // ---- What is inserted or removed and not yet counted ----

  /** Counts still due to an open, and still owed by a close. */
  function ActiveDue(o: Opener): nat {
    if o.Inserted? then 1 else 0
  }

  function RuleDue(o: Opener): nat {
    if o.Inserted? || o.CountedActive? then 1 else 0
  }

  function ActiveOwed(c: Closer): nat {
    |c.rules|
  }

  function RuleOwed(c: Closer): nat {
    |c.rules| + if c.Halfway? then 1 else 0
  }

  /** An open between the capacity check and its active count. */
  function InWindow(o: Opener): nat {
    if o.Checked? || o.Inserted? then 1 else 0
  }

  /** The same, for one rule. */
  function DueTo(rule: nat): Opener -> nat {
    (o: Opener) => if (o.Inserted? || o.CountedActive?) && o.rule == rule then 1 else 0
  }

  function OwedBy(rule: nat): Closer -> nat {
    (c: Closer) => multiset(c.rules)[rule] + if c.Halfway? && c.rule == rule then 1 else 0
  }

  function Total<T>(weight: T -> nat, threads: seq<T>): nat {
    if threads == [] then 0 else weight(threads[0]) + Total(weight, threads[1..])
  }

  lemma {:induction false} TotalAfterUpdate<T>(weight: T -> nat, threads: seq<T>, i: nat, t: T)
    requires i < |threads|
    ensures Total(weight, threads[i := t]) == Total(weight, threads) - weight(threads[i]) + weight(t)
    ensures weight(threads[i]) <= Total(weight, threads)
  {
    if i == 0 {
      assert threads[i := t][1..] == threads[1..];
    } else {
      TotalAfterUpdate(weight, threads[1..], i - 1, t);
      assert threads[i := t][1..] == threads[1..][i - 1 := t];
    }
  }

  lemma {:induction false} TotalOfNothing<T>(weight: T -> nat, threads: seq<T>)
    requires forall t | t in threads :: weight(t) == 0
    ensures Total(weight, threads) == 0
  {
    if threads != [] {
      TotalOfNothing(weight, threads[1..]);
    }
  }

  // ---- The books always balance ----

  /** Active sessions plus those not yet counted are the sessions in the map, plus
      those removed and not yet uncounted, plus the drift from overwritten entries
      and clipped subtractions; the same for the rule counters in total; every
      removal is counted closed once. */
  predicate Balanced(s: State) {
    && s.active + Total(ActiveDue, s.openers)
       == |s.sessions| + Total(ActiveOwed, s.closers) + s.overwritten + s.clipped
    && |s.ruleCounts| + Total(RuleDue, s.openers)
       == |s.sessions| + Total(RuleOwed, s.closers) + s.overwritten + |s.ruleClipped|
    && s.removed == s.closed + Total(ActiveOwed, s.closers)
  }

  lemma OpenerUpdate(openers: seq<Opener>, i: nat, o: Opener)
    requires i < |openers|
    ensures Total(ActiveDue, openers[i := o]) == Total(ActiveDue, openers) - ActiveDue(openers[i]) + ActiveDue(o)
    ensures Total(RuleDue, openers[i := o]) == Total(RuleDue, openers) - RuleDue(openers[i]) + RuleDue(o)
    ensures Total(InWindow, openers[i := o]) == Total(InWindow, openers) - InWindow(openers[i]) + InWindow(o)
  {
    TotalAfterUpdate(ActiveDue, openers, i, o);
    TotalAfterUpdate(RuleDue, openers, i, o);
    TotalAfterUpdate(InWindow, openers, i, o);
  }

  lemma CloserUpdate(closers: seq<Closer>, c: nat, k: Closer)
    requires c < |closers|
    ensures Total(ActiveOwed, closers[c := k]) == Total(ActiveOwed, closers) - ActiveOwed(closers[c]) + ActiveOwed(k)
    ensures Total(RuleOwed, closers[c := k]) == Total(RuleOwed, closers) - RuleOwed(closers[c]) + RuleOwed(k)
    ensures ActiveOwed(closers[c]) <= Total(ActiveOwed, closers)
  {
    TotalAfterUpdate(ActiveOwed, closers, c, k);
    TotalAfterUpdate(RuleOwed, closers, c, k);
  }

  lemma OpenStepKeepsBalance(s: State, step: Step)
    requires Balanced(s) && Enabled(s, step)
    requires step.CheckCapacity? || step.DialFailed? || step.Insert? || step.CountActive? || step.CountRule?
    ensures Balanced(Do(s, step))
  {
    hide Total;
    match step
    case CheckCapacity(i, id, rule) => OpenerUpdate(s.openers, i, Checked(id, rule));
    case DialFailed(i) => OpenerUpdate(s.openers, i, Idle);
    case Insert(i) =>
      var Checked(id, rule) := s.openers[i];
      OpenerUpdate(s.openers, i, Inserted(rule));
      InsertGrows(s.sessions, id, rule);
    case CountActive(i) => OpenerUpdate(s.openers, i, CountedActive(s.openers[i].rule));
    case CountRule(i) => OpenerUpdate(s.openers, i, Idle);
  }

  lemma RemoveKeepsBalance(s: State, c: nat, id: nat, rule: nat)
    requires Balanced(s) && c < |s.closers| && s.closers[c] == Closing([]) && id in s.sessions
    ensures Balanced(Remove(s, c, id, rule))
  {
    hide Total;
    CloserUpdate(s.closers, c, Closing([rule]));
    RemoveShrinks(s.sessions, id);
  }

  lemma UncountActiveKeepsBalance(s: State, c: nat)
    requires Balanced(s) && Enabled(s, UncountActive(c))
    ensures Balanced(Do(s, UncountActive(c)))
  {
    hide Total;
    var rules := s.closers[c].rules;
    CloserUpdate(s.closers, c, Halfway(rules[0], rules[1..]));
  }

  lemma UncountRuleKeepsBalance(s: State, c: nat)
    requires Balanced(s) && Enabled(s, UncountRule(c))
    ensures Balanced(Do(s, UncountRule(c)))
  {
    hide Total;
    CloserUpdate(s.closers, c, Closing(s.closers[c].rules));
    RemoveOne(s.ruleCounts, s.closers[c].rule);
  }

  lemma CloseStepKeepsBalance(s: State, step: Step)
    requires Balanced(s) && Enabled(s, step)
    requires step.CloseSession? || step.ReaderEnds? || step.CloseAll? || step.UncountActive? || step.UncountRule?
    ensures Balanced(Do(s, step))
  {
    hide Total, Balanced, Remove;
    match step
    case CloseSession(c, id) => RemoveKeepsBalance(s, c, id, s.sessions[id]);
    case ReaderEnds(c, id, rule) => RemoveKeepsBalance(s, c, id, rule);
    case CloseAll(c, order) => CloseAllKeepsBalance(s, c, order);
    case UncountActive(c) => UncountActiveKeepsBalance(s, c);
    case UncountRule(c) => UncountRuleKeepsBalance(s, c);
  }

  lemma CloseAllKeepsBalance(s: State, c: nat, order: seq<nat>)
    requires Balanced(s) && Enabled(s, CloseAll(c, order))
    ensures Balanced(Do(s, CloseAll(c, order)))
  {
    hide Total;
    CloserUpdate(s.closers, c, Closing(RulesOf(order, s.sessions)));
  }

  lemma InsertGrows(m: map<nat, nat>, id: nat, rule: nat)
    ensures |m[id := rule]| == |m| + if id in m then 0 else 1
  {
  }

  lemma RemoveShrinks(m: map<nat, nat>, id: nat)
    requires id in m
    ensures |m - {id}| == |m| - 1
  {
  }

  lemma RemoveOne(m: multiset<nat>, r: nat)
    ensures |m - multiset{r}| == |m| - if r in m then 1 else 0
  {
  }

  lemma BalanceInductive()
    ensures Inductive(Accounting(), Balanced)
  {
    forall s | Accounting().init(s)
      ensures Balanced(s)
    {
      TotalOfNothing(ActiveDue, s.openers);
      TotalOfNothing(RuleDue, s.openers);
      TotalOfNothing(ActiveOwed, s.closers);
      TotalOfNothing(RuleOwed, s.closers);
    }
    forall s, step, t | Balanced(s) && Accounting().next(s, step, t)
      ensures Balanced(t)
    {
      if step.CloseSession? || step.ReaderEnds? || step.CloseAll? || step.UncountActive? || step.UncountRule? {
        CloseStepKeepsBalance(s, step);
      } else {
        OpenStepKeepsBalance(s, step);
      }
    }
  }

  /** In every interleaving the books balance; in particular each removal from
      the map is counted closed exactly once, or is still to be. */
  lemma BooksBalance(states: seq<State>, steps: seq<Step>, i: nat)
    requires IsRun(Accounting(), states, steps) && i < |states|
    ensures Balanced(states[i])
  {
    BalanceInductive();
    HoldsThroughout(Accounting(), Balanced, states, steps, i);
  }

  /** No open or close is in progress. */
  predicate Quiet(s: State) {
    && (forall o | o in s.openers :: o.Idle? || o.Checked?)
    && (forall c | c in s.closers :: c == Closing([]))
  }

  /** At rest, the active counter is the size of the map exactly when no entry
      was overwritten and no subtraction was clipped; otherwise it is too high.
      The same holds for the sum of the rule counters. */
  lemma QuietCounters(states: seq<State>, steps: seq<Step>, i: nat)
    requires IsRun(Accounting(), states, steps) && i < |states| && Quiet(states[i])
    ensures var s := states[i];
            && s.active == |s.sessions| + s.overwritten + s.clipped
            && |s.ruleCounts| == |s.sessions| + s.overwritten + |s.ruleClipped|
            && s.removed == s.closed
  {
    BooksBalance(states, steps, i);
    var s := states[i];
    TotalOfNothing(ActiveDue, s.openers);
    TotalOfNothing(RuleDue, s.openers);
    TotalOfNothing(ActiveOwed, s.closers);
    TotalOfNothing(RuleOwed, s.closers);
  }

  /** Session 7 of rule 3 is closed between its insert and its count. */
  function DriftState(k: nat): State
    requires k <= 7
  {
    State(8, if k == 2 then map[7 := 3] else map[], if k >= 6 then 1 else 0, if k == 7 then multiset{3} else multiset{},
          [if k == 0 || k == 7 then Idle else if k == 1 then Checked(7, 3) else if k < 6 then Inserted(3) else CountedActive(3)],
          [if k == 3 then Closing([3]) else if k == 4 then Halfway(3, []) else Closing([])],
          if k < 2 then [] else [(7, 3)],
          0, if k < 4 then 0 else 1, if k < 5 then multiset{} else multiset{3}, if k < 3 then 0 else 1, if k < 4 then 0 else 1)
  }

  function DriftStep(k: nat): Step
    requires k < 7
  {
    if k == 0 then CheckCapacity(0, 7, 3) else if k == 1 then Insert(0) else if k == 2 then CloseSession(0, 7)
    else if k == 3 then UncountActive(0) else if k == 4 then UncountRule(0) else if k == 5 then CountActive(0) else CountRule(0)
  }

  lemma OpensAndCloses(k: nat)
    requires k < 3
    ensures Next(DriftState(k), DriftStep(k), DriftState(k + 1))
  {
  }

  lemma CountsLate(k: nat)
    requires 3 <= k < 7
    ensures Next(DriftState(k), DriftStep(k), DriftState(k + 1))
  {
    hide Lists;
    var s := DriftState(k);
    if k == 3 {
      assert [3][1..] == [];
      assert s.closers[0 := Halfway(3, [])] == [Halfway(3, [])];
    } else if k == 4 {
      assert s.ruleCounts - multiset{3} == multiset{};
      assert s.closers[0 := Closing([])] == [Closing([])];
    } else if k == 5 {
      assert s.openers[0 := CountedActive(3)] == [CountedActive(3)];
    } else {
      assert s.openers[0 := Idle] == [Idle];
    }
  }

  /** It leaves the counter at one with no session in the map, for good. */
  lemma CloseBeforeCountDrifts() returns (states: seq<State>, steps: seq<Step>)
    ensures IsRun(Accounting(), states, steps)
    ensures var s := states[|states| - 1];
            Quiet(s) && s.sessions == map[] && s.active == 1 && s.overwritten == 0
  {
    states := seq(8, k requires 0 <= k < 8 => DriftState(k));
    steps := seq(7, k requires 0 <= k < 7 => DriftStep(k));
    forall i | 0 <= i < |steps|
      ensures Accounting().next(states[i], steps[i], states[i + 1])
    {
      hide Next;
      if i < 3 {
        OpensAndCloses(i);
      } else {
        CountsLate(i);
      }
    }
  }

  // ---- The session limit ----

  /** Counted sessions plus the opens between check and count. */
  predicate WithinLimit(s: State, n: nat) {
    var admitted := s.active + Total(InWindow, s.openers);
    admitted == 0 || admitted <= s.maxSessions - 1 + n
  }

  lemma StepKeepsLimit(s: State, step: Step, n: nat)
    requires WithinLimit(s, n) && Enabled(s, step) && Total(InWindow, Do(s, step).openers) <= n
    ensures WithinLimit(Do(s, step), n)
  {
    hide Total, Lists, RulesOf;
    match step
    case CheckCapacity(i, id, rule) => OpenerUpdate(s.openers, i, Checked(id, rule));
    case DialFailed(i) => OpenerUpdate(s.openers, i, Idle);
    case Insert(i) => OpenerUpdate(s.openers, i, Inserted(s.openers[i].rule));
    case CountActive(i) => OpenerUpdate(s.openers, i, CountedActive(s.openers[i].rule));
    case CountRule(i) => OpenerUpdate(s.openers, i, Idle);
    case _ =>
  }

  /** While at most n opens at a time sit between the capacity check and the count,
      the active counter never exceeds `maxSessions - 1 + n`, and a limit of zero
      admits none. */
  lemma {:induction false} ActiveSessionsBounded(states: seq<State>, steps: seq<Step>, i: nat, n: nat)
    requires IsRun(Accounting(), states, steps) && i < |states|
    requires forall k | 0 <= k <= i :: Total(InWindow, states[k].openers) <= n
    ensures states[i].active == 0 || states[i].active <= states[i].maxSessions - 1 + n
    ensures WithinLimit(states[i], n)
  {
    hide Do, Enabled;
    if i == 0 {
      TotalOfNothing(InWindow, states[0].openers);
    } else {
      ActiveSessionsBounded(states, steps, i - 1, n);
      assert Accounting().next(states[i - 1], steps[i - 1], states[i]);
      StepKeepsLimit(states[i - 1], steps[i - 1], n);
    }
  }

  /** An open passes the capacity check exactly when fewer sessions are active than
      allowed; a refused one, and one whose dial fails, changes nothing. */
  lemma AdmittedIff(s: State, i: nat, id: nat, rule: nat)
    requires i < |s.openers| && s.openers[i].Idle?
    ensures var t := Do(s, CheckCapacity(i, id, rule));
            && (t.openers[i] == Checked(id, rule) <==> s.active < s.maxSessions)
            && t.openers[i := Idle] == s.openers && t.(openers := s.openers) == s
            && (s.active >= s.maxSessions ==> t == s)
            && (s.active < s.maxSessions ==> Enabled(t, DialFailed(i)) && Do(t, DialFailed(i)) == s)
  {
    assert s.openers[i := Checked(id, rule)][i := Idle] == s.openers;
  }

  /** Below the limit an open can always go through, and leaves the session in the
      map and both counters one higher. */
  lemma OpenGoesThrough(s: State, i: nat, id: nat, rule: nat) returns (t: State)
    requires i < |s.openers| && s.openers[i].Idle? && s.active < s.maxSessions
    ensures Leads(Accounting(), s, t)
    ensures t == s.(sessions := s.sessions[id := rule], active := s.active + 1, ruleCounts := s.ruleCounts + multiset{rule},
                    opens := s.opens + [(id, rule)], overwritten := t.overwritten)
    ensures t.overwritten == s.overwritten + if id in s.sessions then 1 else 0
  {
    var a := Do(s, CheckCapacity(i, id, rule));
    var b := Do(a, Insert(i));
    var c := Do(b, CountActive(i));
    t := Do(c, CountRule(i));
    assert t.openers == s.openers;
    var sys := Accounting();
    LeadsNowhere(sys, t);
    LeadsOn(sys, c, CountRule(i), t, t);
    LeadsOn(sys, b, CountActive(i), c, t);
    LeadsOn(sys, a, Insert(i), b, t);
    LeadsOn(sys, s, CheckCapacity(i, id, rule), a, t);
  }

  /** A session in the map can always be closed, which takes it out of the map and
      both counters. */
  lemma CloseGoesThrough(s: State, c: nat, id: nat) returns (t: State)
    requires c < |s.closers| && s.closers[c] == Closing([]) && id in s.sessions
    ensures Leads(Accounting(), s, t)
    ensures t.sessions == s.sessions - {id} && t.ruleCounts == s.ruleCounts - multiset{s.sessions[id]}
    ensures t.active == (if s.active > 0 then s.active - 1 else 0) && t.removed == s.removed + 1 && t.closed == s.closed + 1
    ensures t.openers == s.openers && t.closers == s.closers && t.maxSessions == s.maxSessions
  {
    var a := Do(s, CloseSession(c, id));
    var b := Do(a, UncountActive(c));
    t := Do(b, UncountRule(c));
    assert b.closers[c] == Halfway(s.sessions[id], []) && t.closers == s.closers;
    var sys := Accounting();
    LeadsNowhere(sys, t);
    LeadsOn(sys, b, UncountRule(c), t, t);
    LeadsOn(sys, a, UncountActive(c), b, t);
    LeadsOn(sys, s, CloseSession(c, id), a, t);
  }

  /** A session that is opened under an unused id and closed again leaves the map and
      the counters as they were. */
  lemma OpenAndCloseCancel(s: State, i: nat, c: nat, id: nat, rule: nat) returns (t: State, u: State)
    requires i < |s.openers| && s.openers[i].Idle? && s.active < s.maxSessions
    requires c < |s.closers| && s.closers[c] == Closing([]) && id !in s.sessions
    ensures Leads(Accounting(), s, t) && Leads(Accounting(), t, u)
    ensures id in t.sessions && t.sessions[id] == rule
    ensures u.sessions == s.sessions && u.active == s.active && u.ruleCounts == s.ruleCounts
  {
    t := OpenGoesThrough(s, i, id, rule);
    u := CloseGoesThrough(t, c, id);
    assert s.sessions[id := rule] - {id} == s.sessions;
  }

  // ---- Per rule, when ids are fresh ----

  /** No id is opened twice. */
  predicate Fresh(s: State) {
    forall j, k | 0 <= j < k < |s.opens| :: s.opens[j].0 != s.opens[k].0
  }

  function IdsOf(sessions: map<nat, nat>, rule: nat): set<nat> {
    set id | id in sessions && sessions[id] == rule
  }

  /** Every session in the map was opened; and with fresh ids nothing was
      overwritten and each rule's counter balances on its own. */
  ghost predicate RuleBalanced(s: State) {
    && (forall id | id in s.sessions :: (id, s.sessions[id]) in s.opens)
    && (Fresh(s) ==>
          && s.overwritten == 0
          && forall rule :: RuleBooks(s, rule))
  }

  lemma FreshBefore(s: State, step: Step)
    requires Enabled(s, step) && Fresh(Do(s, step))
    ensures Fresh(s)
  {
    if step.Insert? {
      var t := Do(s, step);
      forall j, k | 0 <= j < k < |s.opens|
        ensures s.opens[j].0 != s.opens[k].0
      {
        assert t.opens[j] == s.opens[j] && t.opens[k] == s.opens[k];
      }
    }
  }

  /** With fresh ids the rule an id was opened with is the rule it has in the map. */
  lemma FreshRule(s: State, id: nat, rule: nat)
    requires Fresh(s) && RuleBalanced(s) && id in s.sessions && (id, rule) in s.opens
    ensures s.sessions[id] == rule
  {
  }

  lemma IdsAfterInsert(sessions: map<nat, nat>, id: nat, rule: nat, r: nat)
    requires id !in sessions
    ensures |IdsOf(sessions[id := rule], r)| == |IdsOf(sessions, r)| + if r == rule then 1 else 0
  {
    if r == rule {
      assert IdsOf(sessions[id := rule], r) == IdsOf(sessions, r) + {id};
    } else {
      assert IdsOf(sessions[id := rule], r) == IdsOf(sessions, r);
    }
  }

  lemma IdsAfterRemove(sessions: map<nat, nat>, id: nat, r: nat)
    requires id in sessions
    ensures |IdsOf(sessions, r)| == |IdsOf(sessions - {id}, r)| + if r == sessions[id] then 1 else 0
  {
    if r == sessions[id] {
      assert IdsOf(sessions, r) == IdsOf(sessions - {id}, r) + {id};
    } else {
      assert IdsOf(sessions, r) == IdsOf(sessions - {id}, r);
    }
  }

  /** Listing a map lists each rule as often as the map holds it. */
  lemma {:induction false} ListedRules(order: seq<nat>, sessions: map<nat, nat>, r: nat)
    requires Lists(order, sessions)
    ensures multiset(RulesOf(order, sessions))[r] == |IdsOf(sessions, r)|
    decreases |order|
  {
    if order == [] {
      assert sessions == map[];
      assert IdsOf(sessions, r) == {};
    } else {
      var id, rest := order[0], sessions - {order[0]};
      RemoveShrinks(sessions, id);
      assert forall k | 0 <= k < |order[1..]| :: order[1..][k] == order[k + 1] && order[k + 1] != id;
      ListedRules(order[1..], rest, r);
      IdsAfterRemove(sessions, id, r);
      var rules := RulesOf(order, sessions);
      assert rules[0] == sessions[id] && rules[1..] == RulesOf(order[1..], rest);
      hide IdsOf;
      HeadCount(rules, r);
    }
  }

  lemma StepKeepsRuleBalance(s: State, step: Step)
    requires RuleBalanced(s) && Enabled(s, step)
    ensures RuleBalanced(Do(s, step))
  {
    var t := Do(s, step);
    StepKeepsOpened(s, step);
    if Fresh(t) {
      FreshBefore(s, step);
      if step.Insert? {
        InsertIsFresh(s, step.i);
      }
      if step.ReaderEnds? {
        FreshRule(s, step.id, step.rule);
      }
      forall rule
        ensures RuleBooks(t, rule)
      {
        StepKeepsOneRule(s, step, rule);
      }
    }
  }

  lemma StepKeepsOpened(s: State, step: Step)
    requires RuleBalanced(s) && Enabled(s, step)
    ensures var t := Do(s, step); forall id | id in t.sessions :: (id, t.sessions[id]) in t.opens
  {
  }

  lemma InsertIsFresh(s: State, i: nat)
    requires RuleBalanced(s) && Enabled(s, Insert(i)) && Fresh(Do(s, Insert(i)))
    ensures s.openers[i].id !in s.sessions
  {
    var t, id := Do(s, Insert(i)), s.openers[i].id;
    forall k | 0 <= k < |s.opens|
      ensures s.opens[k].0 != id
    {
      assert t.opens[k].0 != t.opens[|s.opens|].0;
    }
  }

  /** The books of one rule. */
  predicate RuleBooks(s: State, rule: nat) {
    s.ruleCounts[rule] + Total(DueTo(rule), s.openers)
    == |IdsOf(s.sessions, rule)| + Total(OwedBy(rule), s.closers) + s.ruleClipped[rule]
  }

  lemma OpenStepKeepsOneRule(s: State, step: Step, rule: nat)
    requires RuleBooks(s, rule) && Enabled(s, step)
    requires step.CheckCapacity? || step.DialFailed? || step.Insert? || step.CountActive? || step.CountRule?
    requires step.Insert? ==> s.openers[step.i].id !in s.sessions
    ensures RuleBooks(Do(s, step), rule)
  {
    hide Total;
    match step
    case CheckCapacity(i, id, r) => TotalAfterUpdate(DueTo(rule), s.openers, i, Checked(id, r));
    case DialFailed(i) => TotalAfterUpdate(DueTo(rule), s.openers, i, Idle);
    case Insert(i) =>
      TotalAfterUpdate(DueTo(rule), s.openers, i, Inserted(s.openers[i].rule));
      IdsAfterInsert(s.sessions, s.openers[i].id, s.openers[i].rule, rule);
    case CountActive(i) => TotalAfterUpdate(DueTo(rule), s.openers, i, CountedActive(s.openers[i].rule));
    case CountRule(i) => TotalAfterUpdate(DueTo(rule), s.openers, i, Idle);
  }

  lemma RemoveKeepsOneRule(s: State, c: nat, id: nat, rule: nat)
    requires RuleBooks(s, rule) && c < |s.closers| && s.closers[c] == Closing([]) && id in s.sessions
    ensures RuleBooks(Remove(s, c, id, s.sessions[id]), rule)
  {
    hide Total, IdsOf;
    TotalAfterUpdate(OwedBy(rule), s.closers, c, Closing([s.sessions[id]]));
    IdsAfterRemove(s.sessions, id, rule);
  }

  lemma CloseAllKeepsOneRule(s: State, c: nat, order: seq<nat>, rule: nat)
    requires RuleBooks(s, rule) && Enabled(s, CloseAll(c, order))
    ensures RuleBooks(Do(s, CloseAll(c, order)), rule)
  {
    hide Total;
    TotalAfterUpdate(OwedBy(rule), s.closers, c, Closing(RulesOf(order, s.sessions)));
    ListedRules(order, s.sessions, rule);
    assert IdsOf(map[], rule) == {};
  }

  lemma UncountKeepsOneRule(s: State, step: Step, rule: nat)
    requires RuleBooks(s, rule) && Enabled(s, step) && (step.UncountActive? || step.UncountRule?)
    ensures RuleBooks(Do(s, step), rule)
  {
    hide Total, IdsOf;
    match step
    case UncountActive(c) =>
      var rules := s.closers[c].rules;
      HeadCount(rules, rule);
      TotalAfterUpdate(OwedBy(rule), s.closers, c, Halfway(rules[0], rules[1..]));
    case UncountRule(c) => TotalAfterUpdate(OwedBy(rule), s.closers, c, Closing(s.closers[c].rules));
  }

  lemma HeadCount(rules: seq<nat>, rule: nat)
    requires rules != []
    ensures multiset(rules)[rule] == multiset(rules[1..])[rule] + if rules[0] == rule then 1 else 0
  {
    assert rules == [rules[0]] + rules[1..];
  }

  lemma StepKeepsOneRule(s: State, step: Step, rule: nat)
    requires RuleBooks(s, rule) && Enabled(s, step)
    requires step.Insert? ==> s.openers[step.i].id !in s.sessions
    requires step.ReaderEnds? ==> s.sessions[step.id] == step.rule
    ensures RuleBooks(Do(s, step), rule)
  {
    hide RuleBooks, Remove;
    match step
    case CloseSession(c, id) => RemoveKeepsOneRule(s, c, id, rule);
    case ReaderEnds(c, id, _) => RemoveKeepsOneRule(s, c, id, rule);
    case CloseAll(c, order) => CloseAllKeepsOneRule(s, c, order, rule);
    case UncountActive(_) => UncountKeepsOneRule(s, step, rule);
    case UncountRule(_) => UncountKeepsOneRule(s, step, rule);
    case _ => OpenStepKeepsOneRule(s, step, rule);
  }

  /** With fresh ids, in every interleaving, each rule's counter balances; at rest
      it is the number of sessions of that rule in the map, plus what was clipped. */
  lemma RuleCountersBalance(states: seq<State>, steps: seq<Step>, i: nat, rule: nat)
    requires IsRun(Accounting(), states, steps) && i < |states| && Fresh(states[i])
    ensures var s := states[i];
            && s.overwritten == 0
            && RuleBooks(s, rule)
            && (Quiet(s) ==> s.ruleCounts[rule] == |IdsOf(s.sessions, rule)| + s.ruleClipped[rule])
  {
    forall s | Accounting().init(s)
      ensures RuleBalanced(s)
    {
      assert forall r :: IdsOf(s.sessions, r) == {};
      forall rule
        ensures Total(DueTo(rule), s.openers) == 0 && Total(OwedBy(rule), s.closers) == 0
      {
        TotalOfNothing(DueTo(rule), s.openers);
        TotalOfNothing(OwedBy(rule), s.closers);
      }
    }
    forall s, step, t | RuleBalanced(s) && Accounting().next(s, step, t)
      ensures RuleBalanced(t)
    {
      StepKeepsRuleBalance(s, step);
    }
    HoldsThroughout(Accounting(), s => RuleBalanced(s), states, steps, i);
    if Quiet(states[i]) {
      TotalOfNothing(DueTo(rule), states[i].openers);
      TotalOfNothing(OwedBy(rule), states[i].closers);
    }
  }

  // ---- When the counters are exact ----

  /** The open is about to replace a live session. */
  predicate Replaces(s: State, step: Step) {
    step.Insert? && step.i < |s.openers| && s.openers[step.i].Checked? && s.openers[step.i].id in s.sessions
  }

  /** The rule counter a close is about to lower. */
  predicate Uncounts(s: State, step: Step, rule: nat) {
    step.UncountRule? && step.c < |s.closers| && s.closers[step.c].Halfway? && s.closers[step.c].rule == rule
  }

  lemma StepDrifts(s: State, step: Step, rule: nat)
    requires Enabled(s, step)
    ensures Do(s, step).overwritten == s.overwritten + if Replaces(s, step) then 1 else 0
    ensures Do(s, step).clipped == s.clipped + if step.UncountActive? && s.active == 0 then 1 else 0
    ensures Do(s, step).ruleClipped[rule]
         == s.ruleClipped[rule] + if Uncounts(s, step, rule) && rule !in s.ruleCounts then 1 else 0
  {
    hide Lists, RulesOf;
  }

  lemma {:induction false} DriftOfRun(states: seq<State>, steps: seq<Step>, i: nat, rule: nat)
    requires IsRun(Accounting(), states, steps) && i < |states|
    ensures states[i].overwritten == 0 <==> forall k | 0 <= k < i :: !Replaces(states[k], steps[k])
    ensures states[i].clipped == 0 <==> forall k | 0 <= k < i && steps[k].UncountActive? :: states[k].active > 0
    ensures states[i].ruleClipped[rule] == 0
       <==> forall k | 0 <= k < i && Uncounts(states[k], steps[k], rule) :: rule in states[k].ruleCounts
  {
    hide Enabled, Do, Replaces, Uncounts;
    if i > 0 {
      DriftOfRun(states, steps, i - 1, rule);
      assert Accounting().next(states[i - 1], steps[i - 1], states[i]);
      StepDrifts(states[i - 1], steps[i - 1], rule);
    }
  }

  /** At rest the active counter is the size of the map if and only if no insert
      replaced a live session and no close lowered the counter at zero; otherwise
      it is too high. */
  lemma ActiveExactIff(states: seq<State>, steps: seq<Step>, i: nat)
    requires IsRun(Accounting(), states, steps) && i < |states| && Quiet(states[i])
    ensures states[i].active >= |states[i].sessions|
    ensures states[i].active == |states[i].sessions|
       <==> && (forall k | 0 <= k < i :: !Replaces(states[k], steps[k]))
            && (forall k | 0 <= k < i && steps[k].UncountActive? :: states[k].active > 0)
  {
    QuietCounters(states, steps, i);
    DriftOfRun(states, steps, i, 0);
  }

  /** With fresh ids, at rest, a rule's counter is the number of its sessions if and
      only if no close lowered that counter at zero. */
  lemma RuleExactIff(states: seq<State>, steps: seq<Step>, i: nat, rule: nat)
    requires IsRun(Accounting(), states, steps) && i < |states| && Fresh(states[i]) && Quiet(states[i])
    ensures states[i].ruleCounts[rule] == |IdsOf(states[i].sessions, rule)|
       <==> forall k | 0 <= k < i && Uncounts(states[k], steps[k], rule) :: rule in states[k].ruleCounts
  {
    hide IdsOf, RuleBooks;
    RuleCountersBalance(states, steps, i, rule);
    DriftOfRun(states, steps, i, rule);
  }

  /** A session is uncounted while some open is in the map and not fully counted. */
  predicate Overtakes(s: State, step: Step) {
    (step.UncountActive? || step.UncountRule?) && exists o | o in s.openers :: o.Inserted? || o.CountedActive?
  }

  lemma UncountFindsCount(s: State, step: Step, rule: nat)
    requires Balanced(s) && s.clipped == 0 && Enabled(s, step) && !Overtakes(s, step)
    requires RuleBooks(s, rule) && s.ruleClipped[rule] == 0
    ensures step.UncountActive? ==> s.active > 0
    ensures Uncounts(s, step, rule) ==> rule in s.ruleCounts
  {
    hide Total;
    if step.UncountActive? {
      TotalOfNothing(ActiveDue, s.openers);
      CloserUpdate(s.closers, step.c, Closing([]));
    }
    if Uncounts(s, step, rule) {
      TotalOfNothing(DueTo(rule), s.openers);
      TotalAfterUpdate(OwedBy(rule), s.closers, step.c, Closing([]));
    }
  }

  lemma {:induction false} NothingClipped(states: seq<State>, steps: seq<Step>, i: nat, rule: nat)
    requires IsRun(Accounting(), states, steps) && i < |states| && Fresh(states[i])
    requires forall k | 0 <= k < i :: !Overtakes(states[k], steps[k])
    ensures states[i].clipped == 0 && states[i].ruleClipped[rule] == 0
  {
    hide Balanced, RuleBooks, Overtakes, Enabled, Do, Uncounts;
    if i > 0 {
      var s, step := states[i - 1], steps[i - 1];
      assert Accounting().next(s, step, states[i]);
      FreshBefore(s, step);
      NothingClipped(states, steps, i - 1, rule);
      BooksBalance(states, steps, i - 1);
      RuleCountersBalance(states, steps, i - 1, rule);
      UncountFindsCount(s, step, rule);
      StepDrifts(s, step, rule);
    }
  }

  /** With fresh ids, if no session is uncounted while an open is half counted, then
      at rest the active counter is the size of the map and the sum of the rule
      counters, and each rule's counter is the number of its sessions. */
  lemma CountersAreExact(states: seq<State>, steps: seq<Step>, i: nat)
    requires IsRun(Accounting(), states, steps) && i < |states| && Fresh(states[i])
    requires forall k | 0 <= k < i :: !Overtakes(states[k], steps[k])
    ensures states[i].clipped == 0 && states[i].ruleClipped == multiset{}
    ensures Quiet(states[i]) ==> states[i].active == |states[i].sessions| == |states[i].ruleCounts|
    ensures Quiet(states[i]) ==> forall rule :: states[i].ruleCounts[rule] == |IdsOf(states[i].sessions, rule)|
  {
    hide Overtakes, IdsOf, RuleBooks;
    NothingClipped(states, steps, i, 0);
    RuleCountersBalance(states, steps, i, 0);
    forall rule
      ensures states[i].ruleClipped[rule] == 0
      ensures Quiet(states[i]) ==> states[i].ruleCounts[rule] == |IdsOf(states[i].sessions, rule)|
    {
      NothingClipped(states, steps, i, rule);
      RuleCountersBalance(states, steps, i, rule);
    }
    assert states[i].ruleClipped == multiset{};
    if Quiet(states[i]) {
      QuietCounters(states, steps, i);
    }
  }

  /** Insert and both counts are one step: nothing happens between them. */
  predicate CountsAtOnce(steps: seq<Step>) {
    forall k | 0 <= k < |steps| && steps[k].Insert? ::
      && (k + 1 < |steps| ==> steps[k + 1] == CountActive(steps[k].i))
      && (k + 2 < |steps| ==> steps[k + 2] == CountRule(steps[k].i))
  }

  lemma OpenersStay(s: State, step: Step)
    requires Enabled(s, step)
    ensures |Do(s, step).openers| == |s.openers|
  {
    hide Lists, RulesOf;
  }

  lemma CloseLeavesOpeners(s: State, step: Step)
    requires Enabled(s, step)
    requires step.CloseSession? || step.ReaderEnds? || step.CloseAll? || step.UncountActive? || step.UncountRule?
    ensures Do(s, step).openers == s.openers
  {
    hide Lists, RulesOf;
  }

  lemma OpenerMoves(s: State, step: Step, j: nat)
    requires Enabled(s, step) && j < |s.openers|
    ensures |Do(s, step).openers| == |s.openers|
    ensures var t := Do(s, step);
            && (t.openers[j].Inserted? ==> step == Insert(j) || (s.openers[j].Inserted? && step != CountActive(j)))
            && (t.openers[j].CountedActive? ==> if step == CountActive(j) then s.openers[j].Inserted?
                                                else s.openers[j].CountedActive? && step != CountRule(j))
  {
    if step.CloseSession? || step.ReaderEnds? || step.CloseAll? || step.UncountActive? || step.UncountRule? {
      hide Enabled, Do;
      CloseLeavesOpeners(s, step);
    } else {
      hide Lists, RulesOf, Remove;
    }
  }

  /** A half-counted open is the one that acted last. */
  lemma {:induction false} HalfCountedIsLast(states: seq<State>, steps: seq<Step>, k: nat, j: nat)
    requires IsRun(Accounting(), states, steps) && CountsAtOnce(steps) && k < |states| && j < |states[k].openers|
    ensures states[k].openers[j].Inserted? ==> k >= 1 && steps[k - 1] == Insert(j)
    ensures states[k].openers[j].CountedActive? ==> k >= 2 && steps[k - 2] == Insert(j)
  {
    hide Enabled, Do;
    if k > 0 {
      assert Accounting().next(states[k - 1], steps[k - 1], states[k]);
      OpenersStay(states[k - 1], steps[k - 1]);
      OpenerMoves(states[k - 1], steps[k - 1], j);
      HalfCountedIsLast(states, steps, k - 1, j);
    } else {
      assert states[0].openers[j] in states[0].openers;
    }
  }

  lemma NoneOvertakes(states: seq<State>, steps: seq<Step>, k: nat)
    requires IsRun(Accounting(), states, steps) && CountsAtOnce(steps) && k < |steps|
    ensures !Overtakes(states[k], steps[k])
  {
    hide Next;
    if o :| o in states[k].openers && (o.Inserted? || o.CountedActive?) {
      var j :| 0 <= j < |states[k].openers| && states[k].openers[j] == o;
      HalfCountedIsLast(states, steps, k, j);
    }
  }

  /** With fresh ids, and insert and counts as one step, the counters are exact at
      rest. */
  lemma CountingAtOnceIsExact(states: seq<State>, steps: seq<Step>, i: nat)
    requires IsRun(Accounting(), states, steps) && i < |states| && Fresh(states[i]) && Quiet(states[i])
    requires CountsAtOnce(steps)
    ensures states[i].active == |states[i].sessions| == |states[i].ruleCounts|
    ensures forall rule :: states[i].ruleCounts[rule] == |IdsOf(states[i].sessions, rule)|
  {
    hide Overtakes, Quiet, Fresh, IdsOf, Next, CountsAtOnce;
    forall k | 0 <= k < i
      ensures !Overtakes(states[k], steps[k])
    {
      NoneOvertakes(states, steps, k);
    }
    CountersAreExact(states, steps, i);
  }
}
