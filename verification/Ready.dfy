/** The READY report: which rules the agent can serve, derived from the rules,
    the preflight checks and the state of the listeners. */
module Ready {
  import opened Bytes
  import opened Text
  import opened Sorting
  import opened Listeners

  datatype Side = Ingress | Egress

  datatype IssueCode = UnsupportedOs | ListenBindFailed | InvalidTarget | InvalidAllowlist

  /** What the preflight checks report for a rule and a side. */
  type Preflight = (Rule, Side) -> seq<IssueCode>

  datatype Failure = ListenerFailure(ruleId: U64, status: HealthStatus) | PreflightFailure(ruleId: U64, code: IssueCode) | TransportFailure(ruleId: U64)

  datatype ReadyState = ReadyState(ingress: seq<U64>, egress: seq<U64>, failures: seq<Failure>)

  predicate ListenerActive(active: seq<ListenerSpec>, rule: Rule) {
    AnySame(active, SpecFor(rule))
  }

  function FirstHealth(health: seq<Health>, rule: Rule): Option<Health> {
    if health == [] then None
    else if IdentityOf(health[0].spec) == IdentityOf(SpecFor(rule)) then Some(health[0])
    else FirstHealth(health[1..], rule)
  }

  /** Why the listener of a rule keeps it from being ready, if it does. */
  function ListenerTrouble(active: seq<ListenerSpec>, health: seq<Health>, rule: Rule): Option<HealthStatus> {
    match FirstHealth(health, rule)
    case None => Some(IsStopped)
    case Some(h) =>
      if h.status == IsRunning then (if ListenerActive(active, rule) then None else Some(IsStopped))
      else Some(h.status)
  }

  /** A port the agent itself listens on is not a preflight failure. */
  function RemainingIssues(rule: Rule, side: Side, issues: seq<IssueCode>, active: seq<ListenerSpec>): seq<IssueCode> {
    if side != Ingress || !ListenerActive(active, rule) then issues
    else Filter((code: IssueCode) => code != ListenBindFailed, issues)
  }

  function PushOnce(failures: seq<Failure>, failure: Failure): seq<Failure> {
    if failure in failures then failures else failures + [failure]
  }

  function PushAll(failures: seq<Failure>, more: seq<Failure>): seq<Failure> {
    if more == [] then failures else PushOnce(PushAll(failures, more[..|more| - 1]), more[|more| - 1])
  }

  lemma {:induction false} PushAllMembers(failures: seq<Failure>, more: seq<Failure>)
    ensures forall f :: f in PushAll(failures, more) <==> f in failures || f in more
  {
    if more != [] {
      var n := |more| - 1;
      PushAllMembers(failures, more[..n]);
      assert more == more[..n] + [more[n]];
    }
  }

  /** Nothing is reported twice. */
  predicate NoRepeats(failures: seq<Failure>) {
    forall j, k | 0 <= j < k < |failures| :: failures[j] != failures[k]
  }

  lemma {:induction false} PushAllOnce(failures: seq<Failure>, more: seq<Failure>)
    requires NoRepeats(failures)
    ensures NoRepeats(PushAll(failures, more))
  {
    if more != [] {
      PushAllOnce(failures, more[..|more| - 1]);
    }
  }

  function IssueFailures(id: U64, issues: seq<IssueCode>): seq<Failure> {
    seq(|issues|, i requires 0 <= i < |issues| => PreflightFailure(id, issues[i]))
  }

  /** What is reported for a side of a rule: trouble of its listener, unless the
      system is unsupported anyway, and every remaining preflight issue. */
  function SideFailures(rule: Rule, side: Side, active: seq<ListenerSpec>, health: seq<Health>, preflight: Preflight): seq<Failure> {
    var issues := RemainingIssues(rule, side, preflight(rule, side), active);
    var trouble := ListenerTrouble(active, health, rule);
    (if side == Ingress && UnsupportedOs !in issues && trouble.Some? then [ListenerFailure(rule.id, trouble.value)] else [])
    + IssueFailures(rule.id, issues)
  }

  /** A side of a rule is served when no issue remains and, on the ingress side,
      its listener is active and healthy. */
  predicate Serves(rule: Rule, side: Side, active: seq<ListenerSpec>, health: seq<Health>, preflight: Preflight) {
    && RemainingIssues(rule, side, preflight(rule, side), active) == []
    && (side == Ingress ==>
          && ListenerActive(active, rule)
          && FirstHealth(health, rule).Some? && FirstHealth(health, rule).value.status == IsRunning)
  }

  /** A side is served exactly when nothing is reported for it, and what is reported
      names the rule. */
  lemma ServesIff(rule: Rule, side: Side, active: seq<ListenerSpec>, health: seq<Health>, preflight: Preflight)
    ensures Serves(rule, side, active, health, preflight) <==> SideFailures(rule, side, active, health, preflight) == []
    ensures forall f | f in SideFailures(rule, side, active, health, preflight) :: f.ruleId == rule.id
  {
  }

  method ApplyReadySide(rule: Rule, side: Side, active: seq<ListenerSpec>, health: seq<Health>, preflight: Preflight, ready: ReadyState)
    returns (after: ReadyState)
    ensures after.ingress == ready.ingress + if side == Ingress && Serves(rule, side, active, health, preflight) then [rule.id] else []
    ensures after.egress == ready.egress + if side == Egress && Serves(rule, side, active, health, preflight) then [rule.id] else []
    ensures after.failures == PushAll(ready.failures, SideFailures(rule, side, active, health, preflight))
  {
    hide IdentityOf, RemainingIssues, ListenerTrouble;
    ServesIff(rule, side, active, health, preflight);
    var issues := RemainingIssues(rule, side, preflight(rule, side), active);
    var blocked := issues != [];
    var failures := ready.failures;
    ghost var first: seq<Failure> := [];
    if side == Ingress && UnsupportedOs !in issues {
      var trouble := ListenerTrouble(active, health, rule);
      if trouble.Some? {
        failures := PushOnce(failures, ListenerFailure(rule.id, trouble.value));
        first := [ListenerFailure(rule.id, trouble.value)];
        blocked := true;
      }
    }
    assert failures == PushAll(ready.failures, first);
    assert SideFailures(rule, side, active, health, preflight) == first + IssueFailures(rule.id, issues);
    hide *;
    PushAllAppend(ready.failures, first, IssueFailures(rule.id, issues));
    failures := PushIssues(failures, rule.id, issues);
    if blocked {
      return ready.(failures := failures);
    }
    match side
    case Ingress => return ReadyState(ready.ingress + [rule.id], ready.egress, failures);
    case Egress => return ReadyState(ready.ingress, ready.egress + [rule.id], failures);
  }

  /** Reports every remaining issue. */
  method PushIssues(failures: seq<Failure>, id: U64, issues: seq<IssueCode>) returns (after: seq<Failure>)
    ensures after == PushAll(failures, IssueFailures(id, issues))
  {
    after := failures;
    for i := 0 to |issues|
      invariant after == PushAll(failures, IssueFailures(id, issues[..i]))
    {
      assert IssueFailures(id, issues[..i + 1])[..i] == IssueFailures(id, issues[..i]);
      after := PushOnce(after, PreflightFailure(id, issues[i]));
    }
    assert issues[..|issues|] == issues;
  }

  lemma {:induction false} PushAllAppend(failures: seq<Failure>, a: seq<Failure>, b: seq<Failure>)
    ensures PushAll(failures, a + b) == PushAll(PushAll(failures, a), b)
    decreases |b|
  {
    if b == [] {
      assert a + b == a;
    } else {
      var n := |b| - 1;
      PushAllAppend(failures, a, b[..n]);
      assert (a + b)[..|a + b| - 1] == a + b[..n];
    }
  }

  /** The rule takes part in the transport on that side. */
  predicate Plays(rule: Rule, side: Side, transport: string) {
    && rule.enabled
    && LowerAscii(Trim(rule.protocol)) == "tcp"
    && UsesTransport(rule, NormalizeTransport(transport))
    && var role := LowerAscii(Trim(rule.role));
       role == "both" || role == (if side == Ingress then "ingress" else "egress")
  }

  /** A tunnel rule meant for another transport, reported over the websocket. */
  predicate Misplaced(rule: Rule, transport: string) {
    && rule.enabled && LowerAscii(Trim(rule.protocol)) == "tcp"
    && !UsesTransport(rule, NormalizeTransport(transport)) && NormalizeTransport(transport) == WEBSOCKET
  }

  /** Everything reported for one rule. */
  function RuleFailures(rule: Rule, active: seq<ListenerSpec>, health: seq<Health>, transport: string, preflight: Preflight): seq<Failure> {
    (if Misplaced(rule, transport) then [TransportFailure(rule.id)] else [])
    + (if Plays(rule, Ingress, transport) then SideFailures(rule, Ingress, active, health, preflight) else [])
    + (if Plays(rule, Egress, transport) then SideFailures(rule, Egress, active, health, preflight) else [])
  }

  method BuildReadyState(rules: seq<Rule>, active: seq<ListenerSpec>, health: seq<Health>, transport: string, preflight: Preflight)
    returns (ready: ReadyState)
    ensures forall id :: id in ready.ingress <==>
              exists k | 0 <= k < |rules| :: rules[k].id == id && Plays(rules[k], Ingress, transport) && Serves(rules[k], Ingress, active, health, preflight)
    ensures forall id :: id in ready.egress <==>
              exists k | 0 <= k < |rules| :: rules[k].id == id && Plays(rules[k], Egress, transport) && Serves(rules[k], Egress, active, health, preflight)
    ensures StrictlyAscending(ready.ingress) && StrictlyAscending(ready.egress) && NoRepeats(ready.failures)
    ensures forall f :: f in ready.failures <==>
              exists k | 0 <= k < |rules| :: f in RuleFailures(rules[k], active, health, transport, preflight)
    ensures forall id :: id in ready.egress <==>
              exists k | 0 <= k < |rules| :: rules[k].id == id && Plays(rules[k], Egress, transport) && preflight(rules[k], Egress) == []
    ensures forall id, code :: PreflightFailure(id, code) in ready.failures <==>
              exists k | 0 <= k < |rules| :: rules[k].id == id && CodeReported(rules[k], code, active, transport, preflight)
    ensures OnePerListener(health) ==>
              forall id, status :: ListenerFailure(id, status) in ready.failures <==>
                exists k | 0 <= k < |rules| :: && rules[k].id == id && Plays(rules[k], Ingress, transport)
                                               && UnsupportedOs !in preflight(rules[k], Ingress)
                                               && InTrouble(active, health, rules[k], status)
    ensures forall id :: TransportFailure(id) in ready.failures <==>
              exists k | 0 <= k < |rules| :: rules[k].id == id && Misplaced(rules[k], transport)
  {
    hide Serves, UsesTransport, Trim, LowerAscii, IdentityOf, RuleFailures;
    var t := NormalizeTransport(transport);
    ready := ReadyState([], [], []);
    for i := 0 to |rules|
      invariant NoRepeats(ready.failures)
      invariant forall id :: id in ready.ingress <==>
                  exists k | 0 <= k < i :: rules[k].id == id && Plays(rules[k], Ingress, transport) && Serves(rules[k], Ingress, active, health, preflight)
      invariant forall id :: id in ready.egress <==>
                  exists k | 0 <= k < i :: rules[k].id == id && Plays(rules[k], Egress, transport) && Serves(rules[k], Egress, active, health, preflight)
      invariant forall f :: f in ready.failures <==>
                  exists k | 0 <= k < i :: f in RuleFailures(rules[k], active, health, transport, preflight)
    {
      ready := ApplyRule(rules[i], active, health, t, transport, preflight, ready);
    }
    ready := ready.(ingress := SortDedup(ready.ingress), egress := SortDedup(ready.egress));
    forall k | 0 <= k < |rules|
      ensures Serves(rules[k], Egress, active, health, preflight) <==> preflight(rules[k], Egress) == []
    {
      ServesEgressIff(rules[k], active, health, preflight);
    }
    ghost var failures := k requires 0 <= k < |rules| => RuleFailures(rules[k], active, health, transport, preflight);
    forall k | 0 <= k < |rules|
      ensures forall id, code :: PreflightFailure(id, code) in failures(k)
                            <==> rules[k].id == id && CodeReported(rules[k], code, active, transport, preflight)
      ensures OnePerListener(health) ==>
                forall id, status :: ListenerFailure(id, status) in failures(k)
                                <==> && rules[k].id == id && Plays(rules[k], Ingress, transport)
                                     && UnsupportedOs !in preflight(rules[k], Ingress)
                                     && InTrouble(active, health, rules[k], status)
      ensures forall id :: TransportFailure(id) in failures(k) <==> rules[k].id == id && Misplaced(rules[k], transport)
    {
      RuleFailuresIff(rules[k], active, health, transport, preflight);
    }
    hide Plays, Misplaced, CodeReported, InTrouble;
  }

  /** The preflight code is reported: it was found for a side the rule plays, unless
      it says that the port is in use on which the agent itself listens. */
  predicate CodeReported(rule: Rule, code: IssueCode, active: seq<ListenerSpec>, transport: string, preflight: Preflight) {
    || (Plays(rule, Egress, transport) && code in preflight(rule, Egress))
    || (&& Plays(rule, Ingress, transport) && code in preflight(rule, Ingress)
        && !(code == ListenBindFailed && AnySame(active, SpecFor(rule))))
  }

  /** The listener of the rule is reported: with its recorded status, or as stopped
      when nothing is recorded or what is recorded as running is not active. */
  ghost predicate InTrouble(active: seq<ListenerSpec>, health: seq<Health>, rule: Rule, status: HealthStatus) {
    if exists x | x in health :: IdentityOf(x.spec) == IdentityOf(SpecFor(rule)) then
      exists x | x in health :: && IdentityOf(x.spec) == IdentityOf(SpecFor(rule))
                                && if x.status == IsRunning then status == IsStopped && !AnySame(active, SpecFor(rule)) else status == x.status
    else status == IsStopped
  }

  /** An egress rule is served exactly when the preflight checks found nothing. */
  lemma ServesEgressIff(rule: Rule, active: seq<ListenerSpec>, health: seq<Health>, preflight: Preflight)
    ensures Serves(rule, Egress, active, health, preflight) <==> preflight(rule, Egress) == []
  {
  }

  lemma IssueFailuresIff(id: U64, issues: seq<IssueCode>)
    ensures forall f :: f in IssueFailures(id, issues) <==> f.PreflightFailure? && f.ruleId == id && f.code in issues
  {
    var failures := IssueFailures(id, issues);
    forall f
      ensures f in failures <==> f.PreflightFailure? && f.ruleId == id && f.code in issues
    {
      if f in failures {
        var i :| 0 <= i < |failures| && failures[i] == f;
      }
      if f.PreflightFailure? && f.ruleId == id && f.code in issues {
        var i :| 0 <= i < |issues| && issues[i] == f.code;
        assert failures[i] == f;
      }
    }
  }

  lemma RemainingIff(rule: Rule, side: Side, issues: seq<IssueCode>, active: seq<ListenerSpec>)
    ensures forall code :: code in RemainingIssues(rule, side, issues, active)
                      <==> code in issues && !(side == Ingress && code == ListenBindFailed && AnySame(active, SpecFor(rule)))
  {
    FilterMembers((code: IssueCode) => code != ListenBindFailed, issues);
  }

  lemma TroubleIff(active: seq<ListenerSpec>, health: seq<Health>, rule: Rule, status: HealthStatus)
    requires OnePerListener(health)
    ensures ListenerTrouble(active, health, rule) == Some(status) <==> InTrouble(active, health, rule, status)
  {
    hide IdentityOf, SpecFor, FirstHealth;
    FirstHealthIsThere(health, rule);
  }

  lemma SideFailuresIff(rule: Rule, side: Side, active: seq<ListenerSpec>, health: seq<Health>, preflight: Preflight)
    ensures forall f :: f in SideFailures(rule, side, active, health, preflight)
                   <==> f.ruleId == rule.id && match f
                                               case PreflightFailure(_, code) =>
                                                 && code in preflight(rule, side)
                                                 && !(side == Ingress && code == ListenBindFailed && AnySame(active, SpecFor(rule)))
                                               case ListenerFailure(_, status) =>
                                                 && side == Ingress && UnsupportedOs !in preflight(rule, side)
                                                 && ListenerTrouble(active, health, rule) == Some(status)
                                               case TransportFailure(_) => false
  {
    hide RemainingIssues, ListenerTrouble, IssueFailures, AnySame, SpecFor;
    RemainingIff(rule, side, preflight(rule, side), active);
    IssueFailuresIff(rule.id, RemainingIssues(rule, side, preflight(rule, side), active));
  }

  lemma RuleFailuresIff(rule: Rule, active: seq<ListenerSpec>, health: seq<Health>, transport: string, preflight: Preflight)
    ensures forall id, code :: PreflightFailure(id, code) in RuleFailures(rule, active, health, transport, preflight)
                          <==> rule.id == id && CodeReported(rule, code, active, transport, preflight)
    ensures OnePerListener(health) ==>
              forall id, status :: ListenerFailure(id, status) in RuleFailures(rule, active, health, transport, preflight)
                              <==> && rule.id == id && Plays(rule, Ingress, transport)
                                   && UnsupportedOs !in preflight(rule, Ingress) && InTrouble(active, health, rule, status)
    ensures forall id :: TransportFailure(id) in RuleFailures(rule, active, health, transport, preflight)
                    <==> rule.id == id && Misplaced(rule, transport)
  {
    hide SideFailures, Plays, Misplaced, AnySame, SpecFor, InTrouble, ListenerTrouble, OnePerListener;
    SideFailuresIff(rule, Ingress, active, health, preflight);
    SideFailuresIff(rule, Egress, active, health, preflight);
    if OnePerListener(health) {
      forall status
        ensures ListenerTrouble(active, health, rule) == Some(status) <==> InTrouble(active, health, rule, status)
      {
        TroubleIff(active, health, rule, status);
      }
    }
  }

  /** What one rule adds to the report. */
  method ApplyRule(rule: Rule, active: seq<ListenerSpec>, health: seq<Health>, normalized: string, ghost transport: string, preflight: Preflight, ready: ReadyState)
    returns (after: ReadyState)
    requires normalized == NormalizeTransport(transport)
    ensures after.ingress == ready.ingress + Added(rule, Ingress, active, health, transport, preflight)
    ensures after.egress == ready.egress + Added(rule, Egress, active, health, transport, preflight)
    ensures forall f :: f in after.failures <==> f in ready.failures || f in RuleFailures(rule, active, health, transport, preflight)
    ensures NoRepeats(ready.failures) ==> NoRepeats(after.failures)
  {
    hide Serves, UsesTransport, Trim, LowerAscii, SideFailures, PushAll;
    after := ready;
    if !rule.enabled || LowerAscii(Trim(rule.protocol)) != "tcp" {
      return;
    }
    if !UsesTransport(rule, normalized) {
      if normalized == WEBSOCKET {
        after := ready.(failures := PushOnce(ready.failures, TransportFailure(rule.id)));
      }
      return;
    }
    var role := LowerAscii(Trim(rule.role));
    if role == "ingress" || role == "both" {
      PushAllMembers(after.failures, SideFailures(rule, Ingress, active, health, preflight));
      if NoRepeats(after.failures) {
        PushAllOnce(after.failures, SideFailures(rule, Ingress, active, health, preflight));
      }
      after := ApplyReadySide(rule, Ingress, active, health, preflight, after);
    }
    if role == "egress" || role == "both" {
      PushAllMembers(after.failures, SideFailures(rule, Egress, active, health, preflight));
      if NoRepeats(after.failures) {
        PushAllOnce(after.failures, SideFailures(rule, Egress, active, health, preflight));
      }
      after := ApplyReadySide(rule, Egress, active, health, preflight, after);
    }
  }

  function Added(rule: Rule, side: Side, active: seq<ListenerSpec>, health: seq<Health>, transport: string, preflight: Preflight): seq<U64> {
    if Plays(rule, side, transport) && Serves(rule, side, active, health, preflight) then [rule.id] else []
  }

  // ---- Sorted without duplicates ----

  predicate StrictlyAscending(ids: seq<U64>) {
    forall j, k | 0 <= j < k < |ids| :: ids[j] < ids[k]
  }

  function Leq(): (U64, U64) -> bool {
    (a: U64, b: U64) => a <= b
  }

  /** Drops an element equal to the one before it. */
  function Dedup(ids: seq<U64>): seq<U64> {
    if |ids| <= 1 then ids
    else if ids[0] == ids[1] then Dedup(ids[1..])
    else [ids[0]] + Dedup(ids[1..])
  }

  lemma {:induction false} DedupMembers(ids: seq<U64>)
    ensures forall x :: x in Dedup(ids) <==> x in ids
    ensures ids != [] ==> Dedup(ids) != [] && Dedup(ids)[0] == ids[0]
    decreases |ids|
  {
    if |ids| > 1 {
      DedupMembers(ids[1..]);
      assert ids == [ids[0]] + ids[1..];
    }
  }

  lemma {:induction false} DedupAscends(ids: seq<U64>)
    requires SortedBy(Leq(), ids)
    ensures StrictlyAscending(Dedup(ids))
    decreases |ids|
  {
    if |ids| > 1 {
      var tail := ids[1..];
      assert SortedBy(Leq(), tail) by {
        forall i, j | 0 <= i < j < |tail|
          ensures Leq()(tail[i], tail[j])
        {
          assert Leq()(ids[i + 1], ids[j + 1]);
        }
      }
      DedupAscends(tail);
      DedupMembers(tail);
      if ids[0] != ids[1] {
        forall k | 0 <= k < |Dedup(tail)|
          ensures ids[0] < Dedup(tail)[k]
        {
          assert Dedup(tail)[k] in tail;
          var m :| 0 <= m < |tail| && tail[m] == Dedup(tail)[k];
          assert Leq()(ids[0], ids[1]);
          assert m > 0 ==> Leq()(ids[1], ids[m + 1]);
        }
      }
    }
  }

  function SortDedup(ids: seq<U64>): (r: seq<U64>)
    ensures StrictlyAscending(r)
    ensures forall x :: x in r <==> x in ids
  {
    SortSorts(Leq(), ids);
    SortMembers(Leq(), ids);
    DedupAscends(Sort(Leq(), ids));
    DedupMembers(Sort(Leq(), ids));
    Dedup(Sort(Leq(), ids))
  }

  // ---- READY promises exactly what runs ----

  lemma {:induction false} FirstHealthIsThere(health: seq<Health>, rule: Rule)
    ensures FirstHealth(health, rule).Some? ==> && FirstHealth(health, rule).value in health
                                                && IdentityOf(FirstHealth(health, rule).value.spec) == IdentityOf(SpecFor(rule))
    ensures FirstHealth(health, rule).None? ==> forall x | x in health :: IdentityOf(x.spec) != IdentityOf(SpecFor(rule))
  {
    hide IdentityOf, SpecFor;
    if health != [] && IdentityOf(health[0].spec) != IdentityOf(SpecFor(rule)) {
      FirstHealthIsThere(health[1..], rule);
    }
  }

  /** With one entry per listener, the first entry of a listener is up exactly when
      some entry is. */
  lemma FirstIsUp(health: seq<Health>, rule: Rule)
    requires OnePerListener(health)
    ensures IsUp(health, SpecFor(rule))
       <==> FirstHealth(health, rule).Some? && FirstHealth(health, rule).value.status == IsRunning
  {
    hide IdentityOf, SpecFor, FirstHealth;
    FirstHealthIsThere(health, rule);
  }

  lemma ActiveIff(active: seq<ListenerSpec>, rule: Rule, listeners: map<U64, ListenerSpec>)
    requires IsHandleList(active, listeners)
    ensures ListenerActive(active, rule) <==> Active(listeners, SpecFor(rule))
  {
    hide EndpointOf, SpecFor;
    var p := SpecFor(rule);
    if ListenerActive(active, rule) {
      var k :| 0 <= k < |active| && IdentityOf(active[k]) == IdentityOf(p);
      assert active[k] in active;
    }
    if Active(listeners, p) {
      assert listeners[p.ruleId].ruleId == p.ruleId;
      assert listeners[p.ruleId] in active;
      var k :| 0 <= k < |active| && active[k] == listeners[p.ruleId];
    }
  }

  /** The preflight checks found nothing but the port in use. */
  predicate OnlyPortTaken(issues: seq<IssueCode>) {
    forall k | 0 <= k < |issues| :: issues[k] == ListenBindFailed
  }

  lemma {:induction false} NothingRemains(issues: seq<IssueCode>)
    ensures Filter((code: IssueCode) => code != ListenBindFailed, issues) == [] <==> OnlyPortTaken(issues)
  {
    FilterMembers((code: IssueCode) => code != ListenBindFailed, issues);
    var rest := Filter((code: IssueCode) => code != ListenBindFailed, issues);
    if rest != [] {
      assert rest[0] in rest;
      var k :| 0 <= k < |issues| && issues[k] == rest[0];
    } else {
      forall k | 0 <= k < |issues|
        ensures issues[k] == ListenBindFailed
      {
        assert issues[k] in issues && issues[k] !in rest;
      }
    }
  }

  /** In a state where every `Running` entry is of a running listener, an ingress
      rule is served if and only if its listener is up and the preflight checks
      found nothing but its own port in use. */
  lemma ServesIngressIff(rule: Rule, active: seq<ListenerSpec>, health: seq<Health>, preflight: Preflight, listeners: map<U64, ListenerSpec>)
    requires IsHandleList(active, listeners) && OnePerListener(health)
    requires forall x | x in health && x.status == IsRunning :: Active(listeners, x.spec)
    ensures Serves(rule, Ingress, active, health, preflight)
       <==> IsUp(health, SpecFor(rule)) && OnlyPortTaken(preflight(rule, Ingress))
    ensures IsUp(health, SpecFor(rule)) ==> Active(listeners, SpecFor(rule))
  {
    hide EndpointOf, SpecFor, FirstHealth, ListenerActive, OnlyPortTaken, Filter;
    ActiveIff(active, rule, listeners);
    FirstIsUp(health, rule);
    NothingRemains(preflight(rule, Ingress));
  }

  lemma ServedAfterRefresh(rules: seq<Rule>, transport: string, listeners: map<U64, ListenerSpec>, events: seq<ListenerSpec>,
                           before: seq<Health>, bind: ListenerSpec -> Option<string>, active: seq<ListenerSpec>, health: seq<Health>,
                           preflight: Preflight, k: nat)
    requires Filed(listeners) && k < |rules|
    requires IsHandleList(active, Reconciled(listeners, events, BuildPlan(rules, transport), bind))
    requires Refreshed(listeners, events, before, BuildPlan(rules, transport), bind, health)
    ensures var p := SpecFor(rules[k]);
            && (Serves(rules[k], Ingress, active, health, preflight) <==> IsUp(health, p) && OnlyPortTaken(preflight(rules[k], Ingress)))
            && (IsUp(health, p) ==> Active(Reconciled(listeners, events, BuildPlan(rules, transport), bind), p))
            && (DistinctRules(rules) && WantsListener(rules[k], transport) ==>
                  (IsUp(health, p) <==> ComesUp(listeners, events, before, bind, p)))
  {
    hide *;
    var plan := BuildPlan(rules, transport);
    RefreshedStates(listeners, events, before, plan, bind, health);
    ServesIngressIff(rules[k], active, health, preflight, Reconciled(listeners, events, plan, bind));
    if DistinctRules(rules) && WantsListener(rules[k], transport) {
      PlanIsDistinct(rules, transport);
      PlanIsChosen(rules, transport);
      assert rules[k] in rules;
      assert SpecFor(rules[k]) in plan;
      var j :| 0 <= j < |plan| && plan[j] == SpecFor(rules[k]);
      UpIff(listeners, events, before, plan, bind, health, j);
    }
  }

  lemma RefreshedStates(listeners: map<U64, ListenerSpec>, events: seq<ListenerSpec>, before: seq<Health>, plan: seq<ListenerSpec>,
                        bind: ListenerSpec -> Option<string>, after: seq<Health>)
    requires Refreshed(listeners, events, before, plan, bind, after)
    ensures OnePerListener(after)
    ensures forall x | x in after && x.status == IsRunning :: Active(Reconciled(listeners, events, plan, bind), x.spec)
  {
  }

  /** The listener that runs under the id of the rule has its port, address and
      allowlist. */
  ghost predicate ListensFor(listeners: map<U64, ListenerSpec>, rule: Rule) {
    && rule.id in listeners && listeners[rule.id].listenPort == rule.listenPort
    && Trim(listeners[rule.id].listenAddress) == Trim(rule.listenAddress)
    && Trim(listeners[rule.id].sourceAllowlist) == Trim(rule.sourceAllowlist)
  }

  lemma ActiveListensFor(listeners: map<U64, ListenerSpec>, rule: Rule)
    requires Active(listeners, SpecFor(rule))
    ensures ListensFor(listeners, rule)
  {
    hide Trim;
    SameListenerIff(listeners[rule.id], SpecFor(rule));
    TrimTwice(rule.listenAddress);
    TrimTwice(rule.sourceAllowlist);
  }

  /** Refreshes the listeners and builds the report from the state they are left in.
      An ingress rule is reported ready only if its listener runs and is recorded as
      running; and with distinct rule ids exactly when its listener was found or
      brought up and the preflight checks found nothing but its own port in use. */
  method RefreshAndReport(runtime: TunnelTcpRuntime, bind: ListenerSpec -> Option<string>, preflight: Preflight) returns (ready: ReadyState)
    requires runtime.Valid()
    modifies runtime, runtime.ruleState`activeListeners, runtime.ruleState`listenerHealth
    ensures runtime.Valid()
    ensures forall id | id in ready.ingress ::
              exists k | 0 <= k < |runtime.ruleState.rules| ::
                var rule := runtime.ruleState.rules[k];
                && rule.id == id && Plays(rule, Ingress, runtime.dataTransport)
                && Active(runtime.listeners, SpecFor(rule)) && IsUp(runtime.ruleState.listenerHealth, SpecFor(rule))
                && ListensFor(runtime.listeners, rule)
    ensures DistinctRules(runtime.ruleState.rules) ==>
              forall k | 0 <= k < |runtime.ruleState.rules| ::
                var rule := runtime.ruleState.rules[k];
                WantsListener(rule, runtime.dataTransport) && Plays(rule, Ingress, runtime.dataTransport) ==>
                  (rule.id in ready.ingress
                   <==> && OnlyPortTaken(preflight(rule, Ingress))
                        && ComesUp(old(runtime.listeners), old(runtime.events), old(runtime.ruleState.listenerHealth), bind, SpecFor(rule)))
  {
    hide *;
    ghost var listeners, events, before := runtime.listeners, runtime.events, runtime.ruleState.listenerHealth;
    assert Filed(listeners) by {
      RuntimeIsFiled(runtime);
    }
    runtime.RefreshListeners(bind);
    var state := runtime.ruleState;
    var rules, transport := state.rules, runtime.dataTransport;
    ready := BuildReadyState(rules, state.activeListeners, state.listenerHealth, transport, preflight);
    forall k | 0 <= k < |rules|
      ensures var p := SpecFor(rules[k]);
              && (Serves(rules[k], Ingress, state.activeListeners, state.listenerHealth, preflight)
                  <==> IsUp(state.listenerHealth, p) && OnlyPortTaken(preflight(rules[k], Ingress)))
              && (IsUp(state.listenerHealth, p) ==> Active(runtime.listeners, p))
              && (DistinctRules(rules) && WantsListener(rules[k], transport) ==>
                    (IsUp(state.listenerHealth, p) <==> ComesUp(listeners, events, before, bind, p)))
    {
      ServedAfterRefresh(rules, transport, listeners, events, before, bind, state.activeListeners, state.listenerHealth, preflight, k);
    }
    forall id | id in ready.ingress
      ensures exists k | 0 <= k < |rules| ::
                && rules[k].id == id && Plays(rules[k], Ingress, transport)
                && Active(runtime.listeners, SpecFor(rules[k])) && IsUp(state.listenerHealth, SpecFor(rules[k]))
                && ListensFor(runtime.listeners, rules[k])
    {
      var k :| 0 <= k < |rules| && rules[k].id == id && Plays(rules[k], Ingress, transport)
               && Serves(rules[k], Ingress, state.activeListeners, state.listenerHealth, preflight);
      ActiveListensFor(runtime.listeners, rules[k]);
    }
    if DistinctRules(rules) {
      forall k, j | 0 <= k < |rules| && 0 <= j < |rules| && rules[j].id == rules[k].id
        ensures rules[j] == rules[k]
      {
        SameIdSameRule(rules, rules[j], rules[k]);
      }
    }
  }

  lemma RuntimeIsFiled(runtime: TunnelTcpRuntime)
    requires runtime.Valid()
    ensures Filed(runtime.listeners)
  {
  }
}
