/** Ingress listeners: the listeners planned from the rules against those that
    are running, with the shared list of active listeners and their health. */
module Listeners {
  import opened Bytes
  import opened Text
  import opened Sorting

  const WEBSOCKET: string := "websocket"
  const KTP_TCP: string := "ktp_tcp"

  datatype Rule = Rule(
    id: U64, name: string, enabled: bool, protocol: string, role: string,
    listenAddress: string, listenPort: U16, targetHost: string, targetPort: U16,
    sourceAllowlist: string, maxConcurrentSessions: nat, dataTransport: string)

  datatype ListenerSpec = ListenerSpec(
    ruleId: U64, name: string, listenAddress: string, listenPort: U16,
    targetHost: string, targetPort: U16, sourceAllowlist: string, maxConcurrentSessions: nat)

  /** What two listeners must share to be the same one. */
  datatype Endpoint = Endpoint(address: string, port: U16, allowlist: string)

  datatype Identity = Identity(ruleId: U64, endpoint: Endpoint)

  function EndpointOf(spec: ListenerSpec): Endpoint {
    Endpoint(Trim(spec.listenAddress), spec.listenPort, Trim(spec.sourceAllowlist))
  }

  function IdentityOf(spec: ListenerSpec): Identity {
    Identity(spec.ruleId, EndpointOf(spec))
  }

  /** Two listeners are the same one exactly when rule, port and trimmed address and
      allowlist agree. */
  lemma SameListenerIff(a: ListenerSpec, b: ListenerSpec)
    ensures IdentityOf(a) == IdentityOf(b)
       <==> && a.ruleId == b.ruleId && a.listenPort == b.listenPort
            && Trim(a.listenAddress) == Trim(b.listenAddress) && Trim(a.sourceAllowlist) == Trim(b.sourceAllowlist)
  {
  }

  predicate AnySame(specs: seq<ListenerSpec>, spec: ListenerSpec) {
    exists k | 0 <= k < |specs| :: IdentityOf(specs[k]) == IdentityOf(spec)
  }

  // ---- The plan ----

  function NormalizeTransport(transport: string): string {
    if EqIgnoreAsciiCase(Trim(transport), KTP_TCP) then KTP_TCP else WEBSOCKET
  }

  function TransportOf(rule: Rule): string {
    var value := Trim(rule.dataTransport);
    if value == [] then WEBSOCKET else value
  }

  predicate UsesTransport(rule: Rule, transport: string) {
    EqIgnoreAsciiCase(Trim(TransportOf(rule)), Trim(transport))
  }

  predicate WantsListener(rule: Rule, transport: string) {
    && rule.enabled
    && EqIgnoreAsciiCase(Trim(rule.protocol), "tcp")
    && UsesTransport(rule, NormalizeTransport(transport))
    && (Trim(rule.role) == "ingress" || Trim(rule.role) == "both")
  }

  function SpecFor(rule: Rule): ListenerSpec {
    ListenerSpec(rule.id, Trim(rule.name), Trim(rule.listenAddress), rule.listenPort,
                 Trim(rule.targetHost), rule.targetPort, Trim(rule.sourceAllowlist), rule.maxConcurrentSessions)
  }

  function ById(): (ListenerSpec, ListenerSpec) -> bool {
    (a: ListenerSpec, b: ListenerSpec) => a.ruleId <= b.ruleId
  }

  function SpecsFor(rules: seq<Rule>): (specs: seq<ListenerSpec>)
    ensures |specs| == |rules|
  {
    seq(|rules|, i requires 0 <= i < |rules| => SpecFor(rules[i]))
  }

  function Wanting(transport: string): Rule -> bool {
    (rule: Rule) => WantsListener(rule, transport)
  }

  function BuildPlan(rules: seq<Rule>, transport: string): seq<ListenerSpec> {
    Sort(ById(), SpecsFor(Filter(Wanting(transport), rules)))
  }

  lemma SpecsForMembers(rules: seq<Rule>)
    ensures forall spec :: spec in SpecsFor(rules) <==> exists rule | rule in rules :: spec == SpecFor(rule)
  {
    hide SpecFor;
    forall spec
      ensures spec in SpecsFor(rules) <==> exists rule | rule in rules :: spec == SpecFor(rule)
    {
      if spec in SpecsFor(rules) {
        var k :| 0 <= k < |rules| && SpecsFor(rules)[k] == spec;
        assert rules[k] in rules;
      }
      if rule :| rule in rules && spec == SpecFor(rule) {
        var k :| 0 <= k < |rules| && rules[k] == rule;
        assert SpecsFor(rules)[k] == spec;
      }
    }
  }

  /** The rule's traffic goes over the transport: over KTP when it says so, and over
      the websocket when it says that or nothing. */
  lemma UsesTransportIff(rule: Rule, transport: string)
    ensures var own := LowerAscii(Trim(rule.dataTransport));
            UsesTransport(rule, NormalizeTransport(transport))
            <==> if LowerAscii(Trim(transport)) == "ktp_tcp" then own == "ktp_tcp" else own == "" || own == "websocket"
  {
    hide Trim, LowerAscii;
    TrimTwice(rule.dataTransport);
    LiteralsStay();
    EmptyStays(Trim(rule.dataTransport));
  }

  lemma LiteralsStay()
    ensures Trim(KTP_TCP) == KTP_TCP && LowerAscii(KTP_TCP) == "ktp_tcp"
    ensures Trim(WEBSOCKET) == WEBSOCKET && LowerAscii(WEBSOCKET) == "websocket"
    ensures LowerAscii("tcp") == "tcp" && KTP_TCP[0] != WEBSOCKET[0]
  {
    TightStays(KTP_TCP);
    TightStays(WEBSOCKET);
    assert LowerAscii(KTP_TCP) == KTP_TCP && LowerAscii(WEBSOCKET) == WEBSOCKET;
  }

  lemma EmptyStays(s: string)
    ensures LowerAscii(s) == "" <==> s == ""
  {
  }

  /** The plan holds exactly one listener for each enabled TCP ingress rule of the
      transport, with the rule's trimmed fields, by rule id. */
  lemma PlanMembers(rules: seq<Rule>, transport: string)
    ensures forall spec :: spec in BuildPlan(rules, transport)
                      <==> exists rule | rule in rules ::
                             && rule.enabled && LowerAscii(Trim(rule.protocol)) == "tcp" && Trim(rule.role) in {"ingress", "both"}
                             && UsesTransport(rule, NormalizeTransport(transport))
                             && spec == ListenerSpec(rule.id, Trim(rule.name), Trim(rule.listenAddress), rule.listenPort,
                                                     Trim(rule.targetHost), rule.targetPort, Trim(rule.sourceAllowlist),
                                                     rule.maxConcurrentSessions)
    ensures forall j, k | 0 <= j < k < |BuildPlan(rules, transport)| ::
              BuildPlan(rules, transport)[j].ruleId <= BuildPlan(rules, transport)[k].ruleId
  {
    hide Trim, LowerAscii, UsesTransport, NormalizeTransport;
    PlanIsChosen(rules, transport);
    LiteralsStay();
  }

  lemma PlanIsChosen(rules: seq<Rule>, transport: string)
    ensures forall spec :: spec in BuildPlan(rules, transport)
                      <==> exists rule | rule in rules :: WantsListener(rule, transport) && spec == SpecFor(rule)
    ensures forall j, k | 0 <= j < k < |BuildPlan(rules, transport)| ::
              BuildPlan(rules, transport)[j].ruleId <= BuildPlan(rules, transport)[k].ruleId
  {
    hide SpecFor, WantsListener, SpecsFor;
    var chosen := Filter(Wanting(transport), rules);
    FilterMembers(Wanting(transport), rules);
    SpecsForMembers(chosen);
    SortMembers(ById(), SpecsFor(chosen));
    SortSorts(ById(), SpecsFor(chosen));
    var plan := BuildPlan(rules, transport);
    forall j, k | 0 <= j < k < |plan|
      ensures plan[j].ruleId <= plan[k].ruleId
    {
      assert ById()(plan[j], plan[k]);
    }
  }

  predicate DistinctIds(plan: seq<ListenerSpec>) {
    forall j, k | 0 <= j < k < |plan| :: plan[j].ruleId != plan[k].ruleId
  }

  predicate DistinctRules(rules: seq<Rule>) {
    forall j, k | 0 <= j < k < |rules| :: rules[j].id != rules[k].id
  }

  lemma SameIdSameRule(rules: seq<Rule>, x: Rule, y: Rule)
    requires DistinctRules(rules) && x in rules && y in rules
    ensures x.id == y.id ==> x == y
  {
  }

  lemma ChosenAreDistinct(rules: seq<Rule>, wants: Rule -> bool)
    requires DistinctRules(rules)
    ensures DistinctRules(Filter(wants, rules))
  {
    var chosen := Filter(wants, rules);
    FilterMembers(wants, rules);
    NoRepeatsOnce(rules);
    hide Filter, DistinctRules;
    assert DistinctRules(chosen) by {
      forall j, k | 0 <= j < k < |chosen|
        ensures chosen[j].id != chosen[k].id
      {
        assert chosen[j] in rules && chosen[k] in rules;
        SameIdSameRule(rules, chosen[j], chosen[k]);
        if chosen[j] == chosen[k] {
          RepeatShows(chosen, j, k);
        }
      }
      IsDistinct(chosen);
    }
  }

  lemma IsDistinct(rules: seq<Rule>)
    requires forall j, k | 0 <= j < k < |rules| :: rules[j].id != rules[k].id
    ensures DistinctRules(rules)
  {
  }

  /** Distinct rule ids give distinct ids in the plan. */
  lemma PlanIsDistinct(rules: seq<Rule>, transport: string)
    requires DistinctRules(rules)
    ensures DistinctIds(BuildPlan(rules, transport))
  {
    hide WantsListener, Filter, Sort;
    var chosen := Filter(Wanting(transport), rules);
    ChosenAreDistinct(rules, Wanting(transport));
    assert DistinctIds(SpecsFor(chosen));
    DistinctSortsStrictly(SpecsFor(chosen));
    var plan := BuildPlan(rules, transport);
    assert plan == Sort(ById(), SpecsFor(chosen));
    forall j, k | 0 <= j < k < |plan|
      ensures plan[j].ruleId != plan[k].ruleId
    {
      assert plan[j].ruleId < plan[k].ruleId;
    }
  }

  // ---- Health ----

  datatype HealthStatus = IsRunning | StartFailed | IsStopped | RuntimeError

  datatype Health = Health(spec: ListenerSpec, status: HealthStatus, error: string)

  function RunningHealth(spec: ListenerSpec): Health {
    Health(spec, IsRunning, "")
  }

  function FailedHealth(spec: ListenerSpec, error: string): Health {
    Health(spec, StartFailed, Trim(error))
  }

  /** At most one entry for a listener. */
  ghost predicate OnePerListener(health: seq<Health>) {
    && (forall x :: multiset(health)[x] <= 1)
    && (forall x, y | x in health && y in health :: IdentityOf(x.spec) == IdentityOf(y.spec) ==> x == y)
  }

  predicate HealthLeq(a: Health, b: Health) {
    var x, y := a.spec, b.spec;
    if x.ruleId != y.ruleId then x.ruleId < y.ruleId
    else if x.listenAddress != y.listenAddress then StringLeq(x.listenAddress, y.listenAddress)
    else if x.listenPort != y.listenPort then x.listenPort < y.listenPort
    else StringLeq(x.sourceAllowlist, y.sourceAllowlist)
  }

  lemma HealthOrder()
    ensures TotalPreorder(HealthLeq)
  {
    forall a, b
      ensures HealthLeq(a, b) || HealthLeq(b, a)
    {
      StringLeqTotal(a.spec.listenAddress, b.spec.listenAddress);
      StringLeqTotal(a.spec.sourceAllowlist, b.spec.sourceAllowlist);
    }
    forall a, b, c | HealthLeq(a, b) && HealthLeq(b, c)
      ensures HealthLeq(a, c)
    {
      var x, y, z := a.spec, b.spec, c.spec;
      if x.ruleId == y.ruleId == z.ruleId {
        if StringLeq(x.listenAddress, y.listenAddress) && StringLeq(y.listenAddress, z.listenAddress) {
          StringLeqTransitive(x.listenAddress, y.listenAddress, z.listenAddress);
          if x.listenAddress == z.listenAddress {
            StringLeqAntisymmetric(x.listenAddress, y.listenAddress);
          }
        }
        if StringLeq(x.sourceAllowlist, y.sourceAllowlist) && StringLeq(y.sourceAllowlist, z.sourceAllowlist) {
          StringLeqTransitive(x.sourceAllowlist, y.sourceAllowlist, z.sourceAllowlist);
        }
      }
    }
  }

  /** Entries that stay when `health` is set for its listener. */
  function OthersThan(health: Health): Health -> bool {
    (x: Health) => IdentityOf(x.spec) != IdentityOf(health.spec)
  }

  function ForSpecs(specs: seq<ListenerSpec>): Health -> bool {
    (x: Health) => AnySame(specs, x.spec)
  }

  function NotRunningUnless(listeners: seq<ListenerSpec>): Health -> bool {
    (x: Health) => x.status != IsRunning || AnySame(listeners, x.spec)
  }

  class SharedTunnelRuleState {
    var rules: seq<Rule>
    var activeListeners: seq<ListenerSpec>
    var listenerHealth: seq<Health>

    ghost predicate Valid()
      reads this
    {
      OnePerListener(listenerHealth)
    }

    constructor ()
      ensures Valid() && rules == [] && activeListeners == [] && listenerHealth == []
    {
      rules := [];
      activeListeners := [];
      listenerHealth := [];
    }

    /** Replaces the entry of a listener and keeps all others. */
    method SetListenerHealth(health: Health)
      requires Valid()
      modifies this`listenerHealth
      ensures Valid() && SortedBy(HealthLeq, listenerHealth)
      ensures forall x :: x in listenerHealth <==> x == health || (x in old(listenerHealth) && IdentityOf(x.spec) != IdentityOf(health.spec))
    {
      var kept := Filter(OthersThan(health), listenerHealth);
      FilterMembers(OthersThan(health), listenerHealth);
      FilterKeepsUnique(OthersThan(health), listenerHealth);
      AddKeepsUnique(kept, health);
      listenerHealth := kept + [health];
      SortHealth();
    }

    method SortHealth()
      requires Valid()
      modifies this`listenerHealth
      ensures Valid() && SortedBy(HealthLeq, listenerHealth)
      ensures forall x :: x in listenerHealth <==> x in old(listenerHealth)
      ensures forall j, k | 0 <= j < k < |listenerHealth| :: listenerHealth[j].spec.ruleId <= listenerHealth[k].spec.ruleId
    {
      HealthOrder();
      SortSorts(HealthLeq, listenerHealth);
      SortMembers(HealthLeq, listenerHealth);
      listenerHealth := Sort(HealthLeq, listenerHealth);
      forall j, k | 0 <= j < k < |listenerHealth|
        ensures listenerHealth[j].spec.ruleId <= listenerHealth[k].spec.ruleId
      {
        assert HealthLeq(listenerHealth[j], listenerHealth[k]);
      }
    }

    method RetainListenerHealthForSpecs(specs: seq<ListenerSpec>)
      requires Valid()
      modifies this`listenerHealth
      ensures Valid()
      ensures listenerHealth == Filter(ForSpecs(specs), old(listenerHealth))
    {
      FilterKeepsUnique(ForSpecs(specs), listenerHealth);
      listenerHealth := Filter(ForSpecs(specs), listenerHealth);
    }

    /** Publishes the running listeners by rule id. A `Running` entry whose listener
        is gone is dropped, every other entry stays, and a listener without an
        entry gets a `Running` one. */
    method SetActiveTcpListeners(listeners: seq<ListenerSpec>)
      requires Valid()
      modifies this`activeListeners, this`listenerHealth
      ensures Valid()
      ensures activeListeners == Sort(ById(), listeners)
      ensures forall x | x in old(listenerHealth) && NotRunningUnless(listeners)(x) :: x in listenerHealth
      ensures forall x | x in listenerHealth ::
                || (x in old(listenerHealth) && NotRunningUnless(listeners)(x))
                || (exists l | l in listeners :: x == RunningHealth(l))
      ensures forall l | l in listeners :: exists x | x in listenerHealth :: IdentityOf(x.spec) == IdentityOf(l)
    {
      hide IdentityOf;
      SortMembers(ById(), listeners);
      activeListeners := Sort(ById(), listeners);
      FilterMembers(NotRunningUnless(listeners), listenerHealth);
      FilterKeepsUnique(NotRunningUnless(listeners), listenerHealth);
      listenerHealth := Filter(NotRunningUnless(listeners), listenerHealth);
      AddMissing(activeListeners);
      ghost var filled := listenerHealth;
      SortHealth();
      forall l | l in listeners
        ensures exists x | x in listenerHealth :: IdentityOf(x.spec) == IdentityOf(l)
      {
        assert l in activeListeners;
        var x :| x in filled && IdentityOf(x.spec) == IdentityOf(l);
        assert x in listenerHealth;
      }
    }

    /** A `Running` entry for every listener that has none. */
    method AddMissing(listeners: seq<ListenerSpec>)
      requires Valid()
      modifies this`listenerHealth
      ensures Valid()
      ensures forall x | x in old(listenerHealth) :: x in listenerHealth
      ensures forall x | x in listenerHealth :: x in old(listenerHealth) || (exists l | l in listeners :: x == RunningHealth(l))
      ensures forall l | l in listeners :: exists x | x in listenerHealth :: IdentityOf(x.spec) == IdentityOf(l)
    {
      hide IdentityOf, OnePerListener;
      for i := 0 to |listeners|
        invariant Valid()
        invariant forall x | x in old(listenerHealth) :: x in listenerHealth
        invariant forall x | x in listenerHealth :: x in old(listenerHealth) || (exists l | l in listeners :: x == RunningHealth(l))
        invariant forall k | 0 <= k < i :: exists x | x in listenerHealth :: IdentityOf(x.spec) == IdentityOf(listeners[k])
      {
        var l := listeners[i];
        assert l in listeners;
        if exists k | 0 <= k < |listenerHealth| :: IdentityOf(listenerHealth[k].spec) == IdentityOf(l) {
          ghost var k :| 0 <= k < |listenerHealth| && IdentityOf(listenerHealth[k].spec) == IdentityOf(l);
          assert listenerHealth[k] in listenerHealth;
        } else {
          ghost var before := listenerHealth;
          AddKeepsUnique(listenerHealth, RunningHealth(l));
          listenerHealth := listenerHealth + [RunningHealth(l)];
          assert forall x :: x in listenerHealth <==> x in before || x == RunningHealth(l);
        }
      }
    }
  }

  lemma FilterKeepsUnique(p: Health -> bool, health: seq<Health>)
    requires OnePerListener(health)
    ensures OnePerListener(Filter(p, health))
  {
    FilterMembers(p, health);
  }

  lemma AddKeepsUnique(health: seq<Health>, x: Health)
    requires OnePerListener(health) && forall y | y in health :: IdentityOf(y.spec) != IdentityOf(x.spec)
    ensures OnePerListener(health + [x])
  {
  }

  // ---- Reconciliation ----

  /** Listeners after the queued terminal events: an event ends the listener it
      describes, if that is still the one running for its rule. */
  function Drained(listeners: map<U64, ListenerSpec>, events: seq<ListenerSpec>): (map<U64, ListenerSpec>, seq<ListenerSpec>)
  {
    if events == [] then (listeners, [])
    else
      var e := events[0];
      if e.ruleId in listeners && IdentityOf(listeners[e.ruleId]) == IdentityOf(e) then
        var (rest, terminal) := Drained(listeners - {e.ruleId}, events[1..]);
        (rest, [e] + terminal)
      else Drained(listeners, events[1..])
  }

  function FindPlanned(plan: seq<ListenerSpec>, ruleId: U64): Option<ListenerSpec> {
    if plan == [] then None
    else if plan[0].ruleId == ruleId then Some(plan[0])
    else FindPlanned(plan[1..], ruleId)
  }

  predicate ShouldKeep(plan: seq<ListenerSpec>, ruleId: U64, running: ListenerSpec) {
    var planned := FindPlanned(plan, ruleId);
    planned.Some? && EndpointOf(planned.value) == EndpointOf(running)
  }

  function Kept(listeners: map<U64, ListenerSpec>, plan: seq<ListenerSpec>): map<U64, ListenerSpec> {
    map id | id in listeners && ShouldKeep(plan, id, listeners[id]) :: listeners[id]
  }

  /** The start loop over the plan; `bind` gives the error of a failed start. */
  function Started(listeners: map<U64, ListenerSpec>, plan: seq<ListenerSpec>, terminal: seq<ListenerSpec>,
                   bind: ListenerSpec -> Option<string>): map<U64, ListenerSpec>
  {
    if plan == [] then listeners
    else
      var before := Started(listeners, plan[..|plan| - 1], terminal, bind);
      var spec := plan[|plan| - 1];
      if spec.ruleId in before || AnySame(terminal, spec) || bind(spec).Some? then before
      else before[spec.ruleId := spec]
  }

  function Reconciled(listeners: map<U64, ListenerSpec>, events: seq<ListenerSpec>, plan: seq<ListenerSpec>,
                      bind: ListenerSpec -> Option<string>): map<U64, ListenerSpec>
  {
    var (alive, terminal) := Drained(listeners, events);
    Started(Kept(alive, plan), plan, terminal, bind)
  }

  /** Handles are filed under their own rule id. */
  ghost predicate Filed(listeners: map<U64, ListenerSpec>) {
    forall id | id in listeners :: listeners[id].ruleId == id
  }

  /** The list of the running listeners by rule id. */
  ghost predicate IsHandleList(list: seq<ListenerSpec>, listeners: map<U64, ListenerSpec>) {
    && (forall j, k | 0 <= j < k < |list| :: list[j].ruleId < list[k].ruleId)
    && (forall spec :: spec in list <==> spec.ruleId in listeners && listeners[spec.ruleId] == spec)
  }

  lemma HeadIsLeast(list: seq<ListenerSpec>, listeners: map<U64, ListenerSpec>, id: U64)
    requires Filed(listeners) && IsHandleList(list, listeners) && id in listeners
    ensures list != [] && list[0].ruleId <= id && list[0].ruleId in listeners && listeners[list[0].ruleId] == list[0]
  {
  }

  /** There is only one such list. */
  lemma {:induction false} HandleListUnique(a: seq<ListenerSpec>, b: seq<ListenerSpec>, listeners: map<U64, ListenerSpec>)
    requires Filed(listeners) && IsHandleList(a, listeners) && IsHandleList(b, listeners)
    ensures a == b
    decreases |a|
  {
    if a != [] {
      hide EndpointOf, IdentityOf;
      assert a[0] in a;
      HeadIsLeast(b, listeners, a[0].ruleId);
      HeadIsLeast(a, listeners, b[0].ruleId);
      HandleListTail(a, listeners);
      HandleListTail(b, listeners);
      HandleListUnique(a[1..], b[1..], listeners - {a[0].ruleId});
      assert a == [a[0]] + a[1..] && b == [b[0]] + b[1..];
    } else if b != [] {
      assert b[0] in b;
      HeadIsLeast(a, listeners, b[0].ruleId);
    }
  }

  lemma HandleListTail(list: seq<ListenerSpec>, listeners: map<U64, ListenerSpec>)
    requires list != [] && IsHandleList(list, listeners)
    ensures IsHandleList(list[1..], listeners - {list[0].ruleId})
  {
  }

  /** All handles but those still to do, each once. */
  ghost predicate Collected(listeners: map<U64, ListenerSpec>, todo: set<U64>, list: seq<ListenerSpec>) {
    && todo <= listeners.Keys && DistinctIds(list)
    && forall spec :: spec in list <==> spec.ruleId in listeners.Keys - todo && listeners[spec.ruleId] == spec
  }

  lemma CollectsOneMore(listeners: map<U64, ListenerSpec>, todo: set<U64>, list: seq<ListenerSpec>, id: U64)
    requires Filed(listeners) && Collected(listeners, todo, list) && id in todo
    ensures Collected(listeners, todo - {id}, list + [listeners[id]])
  {
    var more := list + [listeners[id]];
    forall spec
      ensures spec in more <==> spec.ruleId in listeners.Keys - (todo - {id}) && listeners[spec.ruleId] == spec
    {
      assert spec in more <==> spec in list || spec == listeners[id];
    }
    forall j | 0 <= j < |list|
      ensures list[j].ruleId != id
    {
      assert list[j] in list;
    }
  }

  class TunnelTcpRuntime {
    const ruleState: SharedTunnelRuleState
    const dataTransport: string
    var listeners: map<U64, ListenerSpec>
    var events: seq<ListenerSpec>

    ghost predicate Valid()
      reads this, ruleState
    {
      ruleState.Valid() && Filed(listeners)
    }

    constructor (ruleState: SharedTunnelRuleState, dataTransport: string)
      requires ruleState.Valid()
      ensures Valid() && this.ruleState == ruleState && listeners == map[] && events == []
      ensures this.dataTransport == NormalizeTransport(dataTransport)
    {
      this.ruleState := ruleState;
      this.dataTransport := NormalizeTransport(dataTransport);
      listeners := map[];
      events := [];
    }

    /** Collects the handles, in whatever order the map yields them. */
    method Handles() returns (list: seq<ListenerSpec>)
      requires Filed(listeners)
      ensures IsHandleList(Sort(ById(), list), listeners)
      ensures forall spec :: spec in list <==> spec.ruleId in listeners && listeners[spec.ruleId] == spec
    {
      list := [];
      var todo := listeners.Keys;
      while todo != {}
        invariant Collected(listeners, todo, list)
        decreases |todo|
      {
        var id :| id in todo;
        CollectsOneMore(listeners, todo, list, id);
        list := list + [listeners[id]];
        todo := todo - {id};
      }
      DistinctSortsStrictly(list);
      SortMembers(ById(), list);
    }

    method SyncActiveListenerSnapshot()
      requires Valid()
      modifies ruleState`activeListeners, ruleState`listenerHealth
      ensures Valid() && IsHandleList(ruleState.activeListeners, listeners)
      ensures forall x | x in ruleState.listenerHealth ::
                || x in old(ruleState.listenerHealth)
                || (x.spec.ruleId in listeners && x == RunningHealth(listeners[x.spec.ruleId]))
      ensures forall x | x in old(ruleState.listenerHealth) && (x.status == IsRunning ==> Active(listeners, x.spec)) ::
                x in ruleState.listenerHealth
      ensures forall x | x in ruleState.listenerHealth && x.status == IsRunning :: Active(listeners, x.spec)
      ensures forall id | id in listeners :: HasHealth(ruleState.listenerHealth, listeners[id])
    {
      hide EndpointOf, Trim;
      var list := Handles();
      ruleState.SetActiveTcpListeners(list);
      forall x | x in ruleState.listenerHealth && x.status == IsRunning
        ensures Active(listeners, x.spec)
      {
        if x in old(ruleState.listenerHealth) && NotRunningUnless(list)(x) {
          var k :| 0 <= k < |list| && IdentityOf(list[k]) == IdentityOf(x.spec);
          assert list[k] in list;
        } else {
          var l :| l in list && x == RunningHealth(l);
        }
      }
      forall x | x in old(ruleState.listenerHealth) && (x.status == IsRunning ==> Active(listeners, x.spec))
        ensures x in ruleState.listenerHealth
      {
        if x.status == IsRunning {
          var k :| 0 <= k < |list| && list[k] == listeners[x.spec.ruleId];
        }
      }
      forall id | id in listeners
        ensures HasHealth(ruleState.listenerHealth, listeners[id])
      {
        assert listeners[id] in list;
        var x :| x in ruleState.listenerHealth && IdentityOf(x.spec) == IdentityOf(listeners[id]);
        var k :| 0 <= k < |ruleState.listenerHealth| && ruleState.listenerHealth[k] == x;
      }
    }

    /** Ends the listeners whose terminal event is queued. */
    method DrainListenerRuntimeEvents() returns (terminal: seq<ListenerSpec>)
      requires Valid()
      modifies this, ruleState`activeListeners, ruleState`listenerHealth
      ensures Valid() && events == []
      ensures (listeners, terminal) == Drained(old(listeners), old(events))
      ensures Carries(listeners, old(ruleState.listenerHealth), ruleState.listenerHealth)
    {
      hide IdentityOf;
      terminal := [];
      assert [] + Drained(listeners, events).1 == Drained(listeners, events).1;
      while events != []
        invariant Valid() && ruleState.listenerHealth == old(ruleState.listenerHealth)
        invariant var (rest, more) := Drained(listeners, events);
                  Drained(old(listeners), old(events)) == (rest, terminal + more)
        decreases |events|
      {
        ghost var more := Drained(listeners, events).1;
        var event := events[0];
        events := events[1..];
        if event.ruleId in listeners && IdentityOf(listeners[event.ruleId]) == IdentityOf(event) {
          listeners := listeners - {event.ruleId};
          assert more == [event] + Drained(listeners, events).1;
          AppendAssociates(terminal, [event], Drained(listeners, events).1);
          terminal := terminal + [event];
        }
      }
      assert terminal + [] == terminal;
      ghost var before := ruleState.listenerHealth;
      if terminal != [] {
        SyncActiveListenerSnapshot();
        SyncCarries(listeners, listeners, before, ruleState.listenerHealth);
      }
    }

    /** Drops the health of listeners that are no longer planned and stops them. */
    method DropUnplanned(plan: seq<ListenerSpec>)
      requires Valid()
      modifies this`listeners, ruleState`activeListeners, ruleState`listenerHealth
      ensures Valid() && listeners == Kept(old(listeners), plan)
      ensures AllPlanned(plan, listeners, ruleState.listenerHealth)
      ensures Carries(listeners, old(ruleState.listenerHealth), ruleState.listenerHealth)
    {
      hide IdentityOf, EndpointOf, OnePerListener;
      ghost var before := ruleState.listenerHealth;
      ruleState.RetainListenerHealthForSpecs(plan);
      ghost var retained := ruleState.listenerHealth;
      FilterMembers(ForSpecs(plan), before);
      listeners := map id | id in listeners && ShouldKeep(plan, id, listeners[id]) :: listeners[id];
      KeptArePlanned(old(listeners), plan);
      RetainCarries(listeners, plan, before, retained);
      SyncActiveListenerSnapshot();
      SyncCarries(listeners, listeners, retained, ruleState.listenerHealth);
      CarriesOn(listeners, before, retained, ruleState.listenerHealth);
    }

    /** Starts what is planned and not running, unless it ended this cycle. */
    method StartPlanned(plan: seq<ListenerSpec>, terminal: seq<ListenerSpec>, bind: ListenerSpec -> Option<string>)
      requires Valid() && AllPlanned(plan, listeners, ruleState.listenerHealth)
      modifies this`listeners, ruleState`listenerHealth
      ensures Valid() && listeners == Started(old(listeners), plan, terminal, bind)
      ensures AllPlanned(plan, listeners, ruleState.listenerHealth)
      ensures Carries(old(listeners), old(ruleState.listenerHealth), ruleState.listenerHealth)
      ensures Reported(old(listeners), listeners, plan, terminal, bind, ruleState.listenerHealth)
    {
      hide EndpointOf, OnePerListener, AnySame, Carries, Reported, AllPlanned;
      ghost var kept, before := listeners, ruleState.listenerHealth;
      CarriesSelf(kept, before);
      NothingReported(kept, terminal, bind, before);
      assert plan[..0] == [];
      for k := 0 to |plan|
        invariant Valid()
        invariant listeners == Started(kept, plan[..k], terminal, bind)
        invariant AllPlanned(plan, listeners, ruleState.listenerHealth)
        invariant Carries(kept, before, ruleState.listenerHealth)
        invariant Reported(kept, listeners, plan[..k], terminal, bind, ruleState.listenerHealth)
      {
        assert plan[..k + 1] == plan[..k] + [plan[k]] && plan[..k + 1][..k] == plan[..k];
        var spec := plan[k];
        StartedKeeps(kept, plan[..k], terminal, bind);
        if spec.ruleId in listeners || AnySame(terminal, spec) {
          SkippedReports(kept, listeners, plan[..k], spec, terminal, bind, ruleState.listenerHealth);
          continue;
        }
        ghost var health, running := ruleState.listenerHealth, listeners;
        match bind(spec) {
          case None =>
            ruleState.SetListenerHealth(RunningHealth(spec));
            listeners := listeners[spec.ruleId := spec];
          case Some(error) =>
            ruleState.SetListenerHealth(FailedHealth(spec, error));
        }
        SetCarries(kept, before, health, spec, ruleState.listenerHealth);
        SetReports(kept, running, plan[..k], spec, terminal, bind, health, ruleState.listenerHealth);
        SetIsPlanned(plan, k, running, listeners, health, ruleState.listenerHealth);
      }
      assert plan[..|plan|] == plan;
    }

    /** Brings the running listeners in line with the plan. `bind` answers for the
        socket: None, or the error of a listener that cannot be started. */
    method RefreshListeners(bind: ListenerSpec -> Option<string>)
      requires Valid()
      modifies this, ruleState`activeListeners, ruleState`listenerHealth
      ensures Valid() && events == []
      ensures var plan := BuildPlan(ruleState.rules, dataTransport);
              && listeners == Reconciled(old(listeners), old(events), plan, bind)
              && AllPlanned(plan, listeners, ruleState.listenerHealth)
      ensures forall id | id in listeners ::
                exists spec | spec in BuildPlan(ruleState.rules, dataTransport) ::
                  && spec.ruleId == id == listeners[id].ruleId && spec.listenPort == listeners[id].listenPort
                  && Trim(spec.listenAddress) == Trim(listeners[id].listenAddress)
                  && Trim(spec.sourceAllowlist) == Trim(listeners[id].sourceAllowlist)
      ensures IsHandleList(ruleState.activeListeners, listeners)
      ensures Refreshed(old(listeners), old(events), old(ruleState.listenerHealth), BuildPlan(ruleState.rules, dataTransport), bind,
                        ruleState.listenerHealth)
    {
      hide IdentityOf, EndpointOf, OnePerListener, BuildPlan, Drained, Started, Carries, Reported, Trim;
      ghost var before := ruleState.listenerHealth;
      var terminal := DrainListenerRuntimeEvents();
      ghost var alive, drained := listeners, ruleState.listenerHealth;
      var plan := BuildPlan(ruleState.rules, dataTransport);
      DropUnplanned(plan);
      ghost var kept, retained := listeners, ruleState.listenerHealth;
      CarriesFewer(alive, kept, before, drained);
      CarriesOn(kept, before, drained, retained);
      StartPlanned(plan, terminal, bind);
      ghost var started := ruleState.listenerHealth;
      CarriesOn(kept, before, retained, started);
      SyncActiveListenerSnapshot();
      StartedKeeps(kept, plan, terminal, bind);
      SyncCarries(kept, listeners, started, ruleState.listenerHealth);
      CarriesOn(kept, before, started, ruleState.listenerHealth);
      SyncReports(kept, listeners, plan, terminal, bind, started, ruleState.listenerHealth);
      PlannedFields(plan, listeners);
    }
  }

  lemma PlannedFields(plan: seq<ListenerSpec>, listeners: map<U64, ListenerSpec>)
    requires Filed(listeners) && forall id | id in listeners :: AnySame(plan, listeners[id])
    ensures forall id | id in listeners ::
              exists spec | spec in plan ::
                && spec.ruleId == id == listeners[id].ruleId && spec.listenPort == listeners[id].listenPort
                && Trim(spec.listenAddress) == Trim(listeners[id].listenAddress)
                && Trim(spec.sourceAllowlist) == Trim(listeners[id].sourceAllowlist)
  {
    hide Trim;
    forall id | id in listeners
      ensures exists spec | spec in plan ::
                && spec.ruleId == id == listeners[id].ruleId && spec.listenPort == listeners[id].listenPort
                && Trim(spec.listenAddress) == Trim(listeners[id].listenAddress)
                && Trim(spec.sourceAllowlist) == Trim(listeners[id].sourceAllowlist)
    {
      var k :| 0 <= k < |plan| && IdentityOf(plan[k]) == IdentityOf(listeners[id]);
      SameListenerIff(plan[k], listeners[id]);
      assert plan[k] in plan;
    }
  }

  // ---- Health over a refresh ----

  /** The entries of these listeners are left alone, except that one without an
      entry may get a `Running` one. */
  ghost predicate Carries(listeners: map<U64, ListenerSpec>, before: seq<Health>, after: seq<Health>) {
    && (forall x | x in before && Active(listeners, x.spec) :: x in after)
    && (forall x | x in after && Active(listeners, x.spec) :: x in before || x == RunningHealth(listeners[x.spec.ruleId]))
  }

  /** A listener started in this refresh has a `Running` entry; with distinct ids, one
      that could not be started has a `StartFailed` entry with the error. */
  ghost predicate Reported(kept: map<U64, ListenerSpec>, listeners: map<U64, ListenerSpec>, plan: seq<ListenerSpec>,
                           terminal: seq<ListenerSpec>, bind: ListenerSpec -> Option<string>, health: seq<Health>) {
    && (forall id | id in listeners && id !in kept :: Health(listeners[id], IsRunning, "") in health)
    && (DistinctIds(plan) ==>
          forall k | 0 <= k < |plan| && plan[k].ruleId !in listeners && !AnySame(terminal, plan[k]) ::
            bind(plan[k]).Some? && Health(plan[k], StartFailed, Trim(bind(plan[k]).value)) in health)
  }

  lemma CarriesSelf(listeners: map<U64, ListenerSpec>, health: seq<Health>)
    ensures Carries(listeners, health, health)
  {
  }

  lemma CarriesOn(listeners: map<U64, ListenerSpec>, a: seq<Health>, b: seq<Health>, c: seq<Health>)
    requires Carries(listeners, a, b) && Carries(listeners, b, c)
    ensures Carries(listeners, a, c)
  {
    hide Active;
  }

  lemma CarriesFewer(listeners: map<U64, ListenerSpec>, fewer: map<U64, ListenerSpec>, a: seq<Health>, b: seq<Health>)
    requires Carries(listeners, a, b) && forall id | id in fewer :: id in listeners && fewer[id] == listeners[id]
    ensures Carries(fewer, a, b)
  {
    hide IdentityOf;
  }

  lemma RetainCarries(listeners: map<U64, ListenerSpec>, plan: seq<ListenerSpec>, before: seq<Health>, after: seq<Health>)
    requires forall id | id in listeners :: AnySame(plan, listeners[id])
    requires forall x :: x in after <==> x in before && AnySame(plan, x.spec)
    ensures Carries(listeners, before, after)
  {
    hide IdentityOf;
  }

  lemma SyncCarries(kept: map<U64, ListenerSpec>, listeners: map<U64, ListenerSpec>, before: seq<Health>, after: seq<Health>)
    requires forall id | id in kept :: id in listeners && kept[id] == listeners[id]
    requires forall x | x in after :: x in before || (x.spec.ruleId in listeners && x == RunningHealth(listeners[x.spec.ruleId]))
    requires forall x | x in before && (x.status == IsRunning ==> Active(listeners, x.spec)) :: x in after
    ensures Carries(kept, before, after)
  {
    hide IdentityOf;
  }

  lemma SyncReports(kept: map<U64, ListenerSpec>, listeners: map<U64, ListenerSpec>, plan: seq<ListenerSpec>,
                    terminal: seq<ListenerSpec>, bind: ListenerSpec -> Option<string>, before: seq<Health>, after: seq<Health>)
    requires Filed(listeners) && Reported(kept, listeners, plan, terminal, bind, before)
    requires forall x | x in before && (x.status == IsRunning ==> Active(listeners, x.spec)) :: x in after
    ensures Reported(kept, listeners, plan, terminal, bind, after)
  {
    hide IdentityOf, AnySame;
  }

  lemma {:induction false} StartedKeeps(kept: map<U64, ListenerSpec>, plan: seq<ListenerSpec>, terminal: seq<ListenerSpec>,
                                        bind: ListenerSpec -> Option<string>)
    ensures var r := Started(kept, plan, terminal, bind); forall id | id in kept :: id in r && r[id] == kept[id]
  {
    hide AnySame;
    if plan != [] {
      StartedKeeps(kept, plan[..|plan| - 1], terminal, bind);
    }
  }

  lemma NothingReported(kept: map<U64, ListenerSpec>, terminal: seq<ListenerSpec>, bind: ListenerSpec -> Option<string>, health: seq<Health>)
    ensures Reported(kept, kept, [], terminal, bind, health)
  {
  }

  lemma SkippedReports(kept: map<U64, ListenerSpec>, listeners: map<U64, ListenerSpec>, plan: seq<ListenerSpec>, spec: ListenerSpec,
                       terminal: seq<ListenerSpec>, bind: ListenerSpec -> Option<string>, health: seq<Health>)
    requires Reported(kept, listeners, plan, terminal, bind, health)
    requires spec.ruleId in listeners || AnySame(terminal, spec)
    ensures Reported(kept, listeners, plan + [spec], terminal, bind, health)
  {
    hide AnySame;
    DistinctPrefix(plan, spec);
  }

  lemma DistinctPrefix(plan: seq<ListenerSpec>, spec: ListenerSpec)
    ensures DistinctIds(plan + [spec]) ==> DistinctIds(plan) && forall k | 0 <= k < |plan| :: plan[k].ruleId != spec.ruleId
  {
    var all := plan + [spec];
    if DistinctIds(all) {
      forall j, k | 0 <= j < k < |plan|
        ensures plan[j].ruleId != plan[k].ruleId
      {
        assert all[j] == plan[j] && all[k] == plan[k];
      }
      forall k | 0 <= k < |plan|
        ensures plan[k].ruleId != spec.ruleId
      {
        assert all[k] == plan[k] && all[|plan|] == spec;
      }
    }
  }

  /** Setting the entry of a listener that was not running leaves the kept ones alone. */
  lemma SetCarries(kept: map<U64, ListenerSpec>, before: seq<Health>, health: seq<Health>, spec: ListenerSpec, after: seq<Health>)
    requires Carries(kept, before, health) && spec.ruleId !in kept
    requires forall x: Health | x.spec.ruleId != spec.ruleId :: x in after <==> x in health
    ensures Carries(kept, before, after)
  {
    hide IdentityOf;
  }

  lemma SetReports(kept: map<U64, ListenerSpec>, listeners: map<U64, ListenerSpec>, plan: seq<ListenerSpec>, spec: ListenerSpec,
                   terminal: seq<ListenerSpec>, bind: ListenerSpec -> Option<string>, health: seq<Health>, after: seq<Health>)
    requires Filed(listeners) && Reported(kept, listeners, plan, terminal, bind, health) && spec.ruleId !in listeners
    requires forall x: Health | x.spec.ruleId != spec.ruleId :: x in after <==> x in health
    requires (if bind(spec).None? then RunningHealth(spec) else FailedHealth(spec, bind(spec).value)) in after
    ensures var running := if bind(spec).None? then listeners[spec.ruleId := spec] else listeners;
            Reported(kept, running, plan + [spec], terminal, bind, after)
  {
    hide AnySame;
    DistinctPrefix(plan, spec);
  }

  lemma SetIsPlanned(plan: seq<ListenerSpec>, k: nat, listeners: map<U64, ListenerSpec>, running: map<U64, ListenerSpec>,
                     health: seq<Health>, after: seq<Health>)
    requires k < |plan| && AllPlanned(plan, listeners, health)
    requires forall x | x in after :: x in health || x.spec == plan[k]
    requires running == listeners || running == listeners[plan[k].ruleId := plan[k]]
    ensures AllPlanned(plan, running, after)
  {
    hide IdentityOf;
    assert AnySame(plan, plan[k]);
  }

  /** Everything running and every health entry belongs to the plan. */
  ghost predicate AllPlanned(plan: seq<ListenerSpec>, listeners: map<U64, ListenerSpec>, health: seq<Health>) {
    && (forall id | id in listeners :: AnySame(plan, listeners[id]))
    && (forall x | x in health :: AnySame(plan, x.spec))
  }

  lemma {:induction false} FindPlannedFinds(plan: seq<ListenerSpec>, id: U64)
    requires FindPlanned(plan, id).Some?
    ensures exists k | 0 <= k < |plan| :: plan[k] == FindPlanned(plan, id).value && plan[k].ruleId == id
  {
    if plan[0].ruleId != id {
      FindPlannedFinds(plan[1..], id);
      var k :| 0 <= k < |plan[1..]| && plan[1..][k] == FindPlanned(plan, id).value && plan[1..][k].ruleId == id;
      assert plan[k + 1] == plan[1..][k];
    }
  }

  lemma KeptArePlanned(listeners: map<U64, ListenerSpec>, plan: seq<ListenerSpec>)
    requires Filed(listeners)
    ensures Filed(Kept(listeners, plan))
    ensures forall id | id in Kept(listeners, plan) :: AnySame(plan, listeners[id])
  {
    hide EndpointOf;
    forall id | id in Kept(listeners, plan)
      ensures AnySame(plan, listeners[id])
    {
      FindPlannedFinds(plan, id);
    }
  }

  // ---- What reconciliation amounts to ----

  lemma {:induction false} FindsDistinct(plan: seq<ListenerSpec>, k: nat)
    requires DistinctIds(plan) && k < |plan|
    ensures FindPlanned(plan, plan[k].ruleId) == Some(plan[k])
  {
    if k > 0 {
      assert plan[0].ruleId != plan[k].ruleId;
      assert plan[1..][k - 1] == plan[k];
      FindsDistinct(plan[1..], k - 1);
    }
  }

  /** A listener survives the queued events exactly when none of them describes
      it; the events that ended a listener are those that describe one running. */
  lemma {:induction false} DrainedExactly(listeners: map<U64, ListenerSpec>, events: seq<ListenerSpec>)
    requires Filed(listeners)
    ensures var (alive, terminal) := Drained(listeners, events);
            && Filed(alive)
            && (forall id :: id in alive <==> id in listeners && !AnySame(events, listeners[id]))
            && (forall id | id in alive :: alive[id] == listeners[id])
            && (forall p :: AnySame(terminal, p) <==> Active(listeners, p) && AnySame(events, p))
    decreases |events|
  {
    hide IdentityOf;
    var (alive, terminal) := Drained(listeners, events);
    if events != [] {
      var e := events[0];
      forall p
        ensures AnySame(events, p) <==> IdentityOf(e) == IdentityOf(p) || AnySame(events[1..], p)
      {
        AnySameCons(e, events[1..], p);
        assert events == [e] + events[1..];
      }
      if e.ruleId in listeners && IdentityOf(listeners[e.ruleId]) == IdentityOf(e) {
        DrainEnds(listeners, events);
      } else {
        DrainedExactly(listeners, events[1..]);
        SkipsForeign(listeners, e);
      }
    }
  }

  lemma AnySameCons(e: ListenerSpec, rest: seq<ListenerSpec>, p: ListenerSpec)
    ensures AnySame([e] + rest, p) <==> IdentityOf(e) == IdentityOf(p) || AnySame(rest, p)
  {
    hide IdentityOf;
    var all := [e] + rest;
    if IdentityOf(e) == IdentityOf(p) {
      assert all[0] == e;
    }
    if AnySame(rest, p) {
      var k :| 0 <= k < |rest| && IdentityOf(rest[k]) == IdentityOf(p);
      assert all[k + 1] == rest[k];
    }
    if AnySame(all, p) {
      var k :| 0 <= k < |all| && IdentityOf(all[k]) == IdentityOf(p);
      if k > 0 {
        assert rest[k - 1] == all[k];
      }
    }
  }

  /** The same identity means the same rule. */
  lemma SkipsForeign(listeners: map<U64, ListenerSpec>, e: ListenerSpec)
    requires Filed(listeners) && !(e.ruleId in listeners && IdentityOf(listeners[e.ruleId]) == IdentityOf(e))
    ensures forall id | id in listeners :: IdentityOf(listeners[id]) != IdentityOf(e)
    ensures forall p | IdentityOf(p) == IdentityOf(e) :: !Active(listeners, p)
  {
  }

  lemma DrainEnds(listeners: map<U64, ListenerSpec>, events: seq<ListenerSpec>)
    requires Filed(listeners) && events != []
    requires events[0].ruleId in listeners && IdentityOf(listeners[events[0].ruleId]) == IdentityOf(events[0])
    ensures var (alive, terminal) := Drained(listeners, events);
            && Filed(alive)
            && (forall id :: id in alive <==> id in listeners && !AnySame(events, listeners[id]))
            && (forall id | id in alive :: alive[id] == listeners[id])
            && (forall p :: AnySame(terminal, p) <==> Active(listeners, p) && AnySame(events, p))
    decreases |events|, 0
  {
    hide EndpointOf;
    var e, rest := events[0], listeners - {events[0].ruleId};
    DrainedExactly(rest, events[1..]);
    var (alive, later) := Drained(rest, events[1..]);
    assert Drained(listeners, events) == (alive, [e] + later);
    assert events == [e] + events[1..];
    forall id
      ensures id in alive <==> id in listeners && !AnySame(events, listeners[id])
    {
      if id in listeners {
        AnySameCons(e, events[1..], listeners[id]);
      }
    }
    forall p
      ensures AnySame([e] + later, p) <==> Active(listeners, p) && AnySame(events, p)
    {
      AnySameCons(e, later, p);
      AnySameCons(e, events[1..], p);
    }
  }

  lemma {:induction false} StartedExactly(kept: map<U64, ListenerSpec>, plan: seq<ListenerSpec>, terminal: seq<ListenerSpec>,
                                          bind: ListenerSpec -> Option<string>, id: U64)
    requires DistinctIds(plan)
    ensures var r := Started(kept, plan, terminal, bind);
            && (id in kept ==> id in r && r[id] == kept[id])
            && (id !in kept ==>
                  (id in r <==> exists k | 0 <= k < |plan| :: plan[k].ruleId == id && !AnySame(terminal, plan[k]) && bind(plan[k]).None?))
            && (id !in kept && id in r ==> r[id] in plan && r[id].ruleId == id)
    decreases |plan|
  {
    hide AnySame;
    if plan != [] {
      var n := |plan| - 1;
      var init, spec := plan[..n], plan[n];
      StartedExactly(kept, init, terminal, bind, id);
      var before := Started(kept, init, terminal, bind);
      assert forall k | 0 <= k < n :: init[k] == plan[k];
      assert forall k | 0 <= k < n :: plan[k].ruleId != plan[n].ruleId;
      if id in before && id !in kept {
        var k :| 0 <= k < |init| && init[k].ruleId == id && !AnySame(terminal, init[k]) && bind(init[k]).None?;
        assert plan[k] == init[k];
      }
    }
  }

  /** With distinct rule ids in the plan: after a refresh everything that runs is
      planned, with the planned endpoint; and a planned listener runs exactly when
      it was running and did not end this cycle, or was not running and could be
      started. A listener that was already running is left alone. */
  lemma RefreshFollowsPlan(listeners: map<U64, ListenerSpec>, events: seq<ListenerSpec>, plan: seq<ListenerSpec>,
                           bind: ListenerSpec -> Option<string>, k: nat)
    requires Filed(listeners) && DistinctIds(plan) && k < |plan|
    ensures var r := Reconciled(listeners, events, plan, bind);
            var p := plan[k];
            && (p.ruleId in r <==> if Active(listeners, p) then !AnySame(events, p) else bind(p).None?)
            && (p.ruleId in r ==> r[p.ruleId] == if Active(listeners, p) then listeners[p.ruleId] else p)
  {
    hide EndpointOf, Drained, Started;
    var (alive, terminal) := Drained(listeners, events);
    var p := plan[k];
    DrainedExactly(listeners, events);
    FindsDistinct(plan, k);
    var kept := Kept(alive, plan);
    StartedExactly(kept, plan, terminal, bind, p.ruleId);
    assert p.ruleId in kept <==> Active(alive, p);
    if Active(listeners, p) {
      SameForBoth(events, listeners[p.ruleId], p);
    }
    forall j | 0 <= j < |plan| && plan[j].ruleId == p.ruleId
      ensures j == k
    {
    }
  }

  /** The listener has a `Running` entry. */
  ghost predicate IsUp(health: seq<Health>, spec: ListenerSpec) {
    exists x | x in health :: IdentityOf(x.spec) == IdentityOf(spec) && x.status == IsRunning
  }

  /** A refresh finds or brings the listener up: it was running, did not end and is
      not recorded in trouble; or it was not running and can be started. */
  ghost predicate ComesUp(listeners: map<U64, ListenerSpec>, events: seq<ListenerSpec>, health: seq<Health>,
                          bind: ListenerSpec -> Option<string>, spec: ListenerSpec) {
    if Active(listeners, spec) then
      && !AnySame(events, spec)
      && forall x | x in health && IdentityOf(x.spec) == IdentityOf(spec) :: x.status == IsRunning
    else bind(spec).None?
  }

  /** What a refresh leaves behind, as far as health is concerned. */
  ghost predicate Refreshed(listeners: map<U64, ListenerSpec>, events: seq<ListenerSpec>, before: seq<Health>, plan: seq<ListenerSpec>,
                            bind: ListenerSpec -> Option<string>, after: seq<Health>) {
    var (alive, terminal) := Drained(listeners, events);
    var now := Reconciled(listeners, events, plan, bind);
    && OnePerListener(after)
    && (forall x | x in after && x.status == IsRunning :: Active(now, x.spec))
    && (forall id | id in now :: HasHealth(after, now[id]))
    && Carries(Kept(alive, plan), before, after)
    && Reported(Kept(alive, plan), now, plan, terminal, bind, after)
  }

  lemma KeptIsAlive(listeners: map<U64, ListenerSpec>, events: seq<ListenerSpec>, plan: seq<ListenerSpec>, k: nat)
    requires Filed(listeners) && DistinctIds(plan) && k < |plan|
    ensures var kept := Kept(Drained(listeners, events).0, plan);
            var p := plan[k];
            && (p.ruleId in kept <==> Active(listeners, p) && !AnySame(events, p))
            && (p.ruleId in kept ==> kept[p.ruleId] == listeners[p.ruleId])
  {
    hide EndpointOf, Drained;
    var alive := Drained(listeners, events).0;
    var p := plan[k];
    DrainedExactly(listeners, events);
    FindsDistinct(plan, k);
    assert p.ruleId in Kept(alive, plan) <==> Active(alive, p);
    if Active(listeners, p) {
      SameForBoth(events, listeners[p.ruleId], p);
    }
  }

  /** A listener that was already running keeps its entry, or gets a `Running` one. */
  lemma KeptStatus(listeners: map<U64, ListenerSpec>, events: seq<ListenerSpec>, before: seq<Health>, plan: seq<ListenerSpec>,
                   bind: ListenerSpec -> Option<string>, after: seq<Health>, k: nat)
    requires Filed(listeners) && DistinctIds(plan) && k < |plan|
    requires Refreshed(listeners, events, before, plan, bind, after)
    requires Active(listeners, plan[k]) && !AnySame(events, plan[k])
    ensures IsUp(after, plan[k]) <==> forall x | x in before && IdentityOf(x.spec) == IdentityOf(plan[k]) :: x.status == IsRunning
  {
    hide EndpointOf, Drained, Started, AnySame, Reported;
    var p := plan[k];
    var kept := Kept(Drained(listeners, events).0, plan);
    KeptIsAlive(listeners, events, plan, k);
    StartedKeeps(kept, plan, Drained(listeners, events).1, bind);
    var now := Reconciled(listeners, events, plan, bind);
    assert HasHealth(after, now[p.ruleId]);
    var j :| 0 <= j < |after| && IdentityOf(after[j].spec) == IdentityOf(p);
    var y := after[j];
    assert y in after && Active(kept, y.spec);
    forall x | x in before && IdentityOf(x.spec) == IdentityOf(p)
      ensures x == y
    {
      assert Active(kept, x.spec);
    }
  }

  /** With distinct rule ids, after a refresh a planned listener is up if and only if
      the refresh found it or brought it up. */
  lemma UpIff(listeners: map<U64, ListenerSpec>, events: seq<ListenerSpec>, before: seq<Health>, plan: seq<ListenerSpec>,
              bind: ListenerSpec -> Option<string>, after: seq<Health>, k: nat)
    requires Filed(listeners) && DistinctIds(plan) && k < |plan|
    requires Refreshed(listeners, events, before, plan, bind, after)
    ensures IsUp(after, plan[k]) <==> ComesUp(listeners, events, before, bind, plan[k])
    ensures !Active(listeners, plan[k]) && bind(plan[k]).Some? ==> FailedHealth(plan[k], bind(plan[k]).value) in after
  {
    hide EndpointOf, Drained, Started, AnySame, Carries;
    var p := plan[k];
    var now := Reconciled(listeners, events, plan, bind);
    RefreshFollowsPlan(listeners, events, plan, bind, k);
    KeptIsAlive(listeners, events, plan, k);
    DrainedExactly(listeners, events);
    if Active(listeners, p) && !AnySame(events, p) {
      KeptStatus(listeners, events, before, plan, bind, after, k);
    }
    if IsUp(after, p) {
      assert Active(now, p);
    }
    if !Active(listeners, p) && bind(p).None? {
      assert RunningHealth(now[p.ruleId]) in after;
    }
  }

  lemma SameForBoth(specs: seq<ListenerSpec>, a: ListenerSpec, b: ListenerSpec)
    requires IdentityOf(a) == IdentityOf(b)
    ensures AnySame(specs, a) <==> AnySame(specs, b)
  {
  }

  /** The listener is running. */
  ghost predicate Active(listeners: map<U64, ListenerSpec>, spec: ListenerSpec) {
    spec.ruleId in listeners && IdentityOf(listeners[spec.ruleId]) == IdentityOf(spec)
  }

  ghost predicate HasHealth(health: seq<Health>, spec: ListenerSpec) {
    exists k | 0 <= k < |health| :: IdentityOf(health[k].spec) == IdentityOf(spec)
  }

  lemma DistinctSortsStrictly(list: seq<ListenerSpec>)
    requires DistinctIds(list)
    ensures var r := Sort(ById(), list); forall j, k | 0 <= j < k < |r| :: r[j].ruleId < r[k].ruleId
  {
    var r := Sort(ById(), list);
    SortSorts(ById(), list);
    SortMembers(ById(), list);
    PermutedNoRepeats(list, r);
    forall j, k | 0 <= j < k < |r|
      ensures r[j].ruleId < r[k].ruleId
    {
      assert ById()(r[j], r[k]) && r[j] != r[k];
      SameIdSameSpec(list, r[j], r[k]);
    }
  }

  lemma SameIdSameSpec(list: seq<ListenerSpec>, x: ListenerSpec, y: ListenerSpec)
    requires DistinctIds(list) && x in list && y in list
    ensures x.ruleId == y.ruleId ==> x == y
  {
  }
}
