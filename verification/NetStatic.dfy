/** Persistent traffic accounting: counter samples become increments in a cache,
    flushes fold the cache into a store, and old store entries are purged. */
module NetStatic {
  import opened Bytes

  datatype Direction = Up | Down

  datatype Counter = Counter(up: U64, down: U64)
  {
    function Of(d: Direction): nat {
      if d.Up? then up else down
    }
  }

  datatype InterfaceCounter = InterfaceCounter(name: string, total: Counter)

  datatype TrafficData = TrafficData(timestamp: U64, amount: Counter)

  type Traffic = map<string, seq<TrafficData>>

  function Entries(m: Traffic, name: string): seq<TrafficData> {
    if name in m then m[name] else []
  }

  function Sum(entries: seq<TrafficData>, d: Direction): nat {
    if entries == [] then 0 else Sum(entries[..|entries| - 1], d) + entries[|entries| - 1].amount.Of(d)
  }

  /** Unsigned 64-bit additions wrap around. */
  function WrappedSum(entries: seq<TrafficData>): Counter {
    Counter(Sum(entries, Up) % (U64_MAX + 1), Sum(entries, Down) % (U64_MAX + 1))
  }

  /** The list with an entry for the amount, unless that is nothing. */
  function Noted(entries: seq<TrafficData>, timestamp: U64, amount: Counter): seq<TrafficData> {
    if amount.up > 0 || amount.down > 0 then entries + [TrafficData(timestamp, amount)] else entries
  }

  lemma SumNoted(entries: seq<TrafficData>, timestamp: U64, amount: Counter, d: Direction)
    ensures Sum(Noted(entries, timestamp, amount), d) == Sum(entries, d) + amount.Of(d)
  {
  }

  function Retained(entries: seq<TrafficData>, cutoff: nat): seq<TrafficData> {
    if entries == [] then []
    else
      var rest, e := Retained(entries[..|entries| - 1], cutoff), entries[|entries| - 1];
      if e.timestamp >= cutoff then rest + [e] else rest
  }

  function Expired(entries: seq<TrafficData>, cutoff: nat, d: Direction): nat {
    if entries == [] then 0
    else
      var rest, e := Expired(entries[..|entries| - 1], cutoff, d), entries[|entries| - 1];
      if e.timestamp >= cutoff then rest else rest + e.amount.Of(d)
  }

  lemma {:induction false} RetainedAndExpired(entries: seq<TrafficData>, cutoff: nat, d: Direction)
    ensures Sum(Retained(entries, cutoff), d) + Expired(entries, cutoff, d) == Sum(entries, d)
  {
    if entries != [] {
      var rest, e := Retained(entries[..|entries| - 1], cutoff), entries[|entries| - 1];
      RetainedAndExpired(entries[..|entries| - 1], cutoff, d);
      assert (rest + [e])[..|rest|] == rest;
    }
  }

  function SaturatingSub(a: nat, b: nat): nat {
    if a >= b then a - b else 0
  }

  /** What a new counter value adds; a counter that went back adds nothing. */
  function Increment(previous: Counter, current: Counter): Counter {
    Counter(SaturatingSub(current.up, previous.up), SaturatingSub(current.down, previous.down))
  }

  // One interface, seen on its own.

  datatype Line = Line(store: seq<TrafficData>, cache: seq<TrafficData>, last: Option<Counter>)

  datatype Event =
    | Take(timestamp: U64, counter: Counter)
    | Flush(timestamp: U64)
    | Purge(cutoff: nat)

  function Step(line: Line, e: Event): Line {
    match e
    case Take(timestamp, counter) =>
      Line(line.store,
           if line.last.None? then line.cache else Noted(line.cache, timestamp, Increment(line.last.value, counter)),
           Some(counter))
    case Flush(timestamp) =>
      Line(Noted(line.store, timestamp, WrappedSum(line.cache)), [], line.last)
    case Purge(cutoff) =>
      Line(Retained(line.store, cutoff), line.cache, line.last)
  }

  function Run(line: Line, events: seq<Event>): Line {
    if events == [] then line else Step(Run(line, events[..|events| - 1]), events[|events| - 1])
  }

  /** The interface before its first sample. */
  function Loaded(store: seq<TrafficData>): Line {
    Line(store, [], None)
  }

  /** The accepted counters. */
  function Taken(events: seq<Event>): seq<Counter> {
    if events == [] then []
    else
      var rest, e := Taken(events[..|events| - 1]), events[|events| - 1];
      if e.Take? then rest + [e.counter] else rest
  }

  function Increments(counters: seq<Counter>, d: Direction): nat {
    if |counters| <= 1 then 0
    else
      var n := |counters|;
      Increments(counters[..n - 1], d) + Increment(counters[n - 2], counters[n - 1]).Of(d)
  }

  function Purged(line: Line, events: seq<Event>, d: Direction): nat {
    if events == [] then 0
    else
      var prefix, e := events[..|events| - 1], events[|events| - 1];
      Purged(line, prefix, d) + if e.Purge? then Expired(Run(line, prefix).store, e.cutoff, d) else 0
  }

  predicate FlushesFit(line: Line, events: seq<Event>, d: Direction) {
    if events == [] then true
    else
      var prefix, e := events[..|events| - 1], events[|events| - 1];
      FlushesFit(line, prefix, d) && (e.Flush? ==> Sum(Run(line, prefix).cache, d) <= U64_MAX)
  }

  function Held(line: Line, d: Direction): nat {
    Sum(line.store, d) + Sum(line.cache, d)
  }

  predicate NonDecreasing(counters: seq<Counter>, d: Direction) {
    forall i, j | 0 <= i < j < |counters| :: counters[i].Of(d) <= counters[j].Of(d)
  }

  lemma {:induction false} LastTaken(store: seq<TrafficData>, events: seq<Event>)
    ensures var taken := Taken(events);
            Run(Loaded(store), events).last == if taken == [] then None else Some(taken[|taken| - 1])
  {
    if events != [] {
      LastTaken(store, events[..|events| - 1]);
    }
  }

  /** An accepted counter raises the cache and the observed increments alike. */
  lemma TakeNotes(store: seq<TrafficData>, events: seq<Event>, e: Event, d: Direction)
    requires e.Take?
    ensures var line := Run(Loaded(store), events);
            Sum(Step(line, e).cache, d) - Sum(line.cache, d)
            == Increments(Taken(events) + [e.counter], d) - Increments(Taken(events), d)
  {
    var line := Run(Loaded(store), events);
    LastTaken(store, events);
    var taken := Taken(events);
    assert (taken + [e.counter])[..|taken|] == taken;
    if line.last.Some? {
      SumNoted(line.cache, e.timestamp, Increment(line.last.value, e.counter), d);
    }
  }

  lemma Wraps(n: nat)
    ensures n % (U64_MAX + 1) <= n
    ensures n % (U64_MAX + 1) == n <==> n <= U64_MAX
  {
  }

  /** A flush loses nothing exactly when the sum fits; a purge loses what expired. */
  lemma StepConserves(line: Line, e: Event, d: Direction)
    requires !e.Take?
    ensures var kept := Held(Step(line, e), d) + if e.Purge? then Expired(line.store, e.cutoff, d) else 0;
            && kept <= Held(line, d)
            && (kept == Held(line, d) <==> (e.Flush? ==> Sum(line.cache, d) <= U64_MAX))
  {
    if e.Flush? {
      SumNoted(line.store, e.timestamp, WrappedSum(line.cache), d);
      Wraps(Sum(line.cache, d));
    }
    if e.Purge? {
      RetainedAndExpired(line.store, e.cutoff, d);
    }
  }

  /** Over every run of samples, flushes and purges no traffic is made up, and none
      is lost exactly when no flush adds up more than 64 bits hold. */
  lemma {:induction false} TrafficIsConserved(store: seq<TrafficData>, events: seq<Event>, d: Direction)
    ensures var start := Loaded(store);
            var kept := Held(Run(start, events), d) + Purged(start, events, d);
            var seen := Sum(store, d) + Increments(Taken(events), d);
            && kept <= seen
            && (kept == seen <==> FlushesFit(start, events, d))
  {
    if events != [] {
      var start, prefix, e := Loaded(store), events[..|events| - 1], events[|events| - 1];
      TrafficIsConserved(store, prefix, d);
      if e.Take? {
        TakeNotes(store, prefix, e, d);
      } else {
        StepConserves(Run(start, prefix), e, d);
      }
    }
  }

  /** A counter adds its rise over the one before it, and nothing when it went back. */
  lemma NextIncrement(counters: seq<Counter>, c: Counter, d: Direction)
    requires counters != []
    ensures var last := counters[|counters| - 1];
            Increments(counters + [c], d) == Increments(counters, d) + if c.Of(d) > last.Of(d) then c.Of(d) - last.Of(d) else 0
  {
    assert (counters + [c])[..|counters|] == counters;
  }

  /** For counters that never go back, the increments are the last value less the
      first. */
  lemma {:induction false} IncrementsTelescope(counters: seq<Counter>, d: Direction)
    requires NonDecreasing(counters, d) && counters != []
    ensures Increments(counters, d) == counters[|counters| - 1].Of(d) - counters[0].Of(d)
  {
    if |counters| > 1 {
      IncrementsTelescope(counters[..|counters| - 1], d);
    }
  }

  lemma {:induction false} CacheWithinIncrements(store: seq<TrafficData>, events: seq<Event>, d: Direction)
    ensures Sum(Run(Loaded(store), events).cache, d) <= Increments(Taken(events), d)
  {
    if events != [] {
      var prefix, e := events[..|events| - 1], events[|events| - 1];
      CacheWithinIncrements(store, prefix, d);
      if e.Take? {
        TakeNotes(store, prefix, e, d);
      }
    }
  }

  lemma {:induction false} SteadyCountersFit(store: seq<TrafficData>, events: seq<Event>, d: Direction)
    requires NonDecreasing(Taken(events), d)
    ensures FlushesFit(Loaded(store), events, d)
  {
    if events != [] {
      var prefix := events[..|events| - 1];
      var taken := Taken(prefix);
      assert taken == Taken(events)[..|taken|];
      SteadyCountersFit(store, prefix, d);
      CacheWithinIncrements(store, prefix, d);
      if taken != [] {
        IncrementsTelescope(taken, d);
      }
    }
  }

  /** With counters that never go back, what the interface gained is its last
      accepted counter less the first, less what purges removed. */
  lemma SteadyTrafficIsLastLessFirst(store: seq<TrafficData>, events: seq<Event>, d: Direction)
    requires NonDecreasing(Taken(events), d) && Taken(events) != []
    ensures var taken := Taken(events);
            Held(Run(Loaded(store), events), d) - Sum(store, d)
            == taken[|taken| - 1].Of(d) - taken[0].Of(d) - Purged(Loaded(store), events, d)
  {
    SteadyCountersFit(store, events, d);
    TrafficIsConserved(store, events, d);
    IncrementsTelescope(Taken(events), d);
  }

  /** A counter that goes back between flushes can make a flush wrap around. */
  lemma ResetCounterCanWrap()
    ensures var none, full := Counter(0, 0), Counter(U64_MAX, 0);
            !FlushesFit(Loaded([]), [Take(0, none), Take(2, full), Take(4, none), Take(6, full), Flush(8)], Up)
  {
    var none, full := Counter(0, 0), Counter(U64_MAX, 0);
    var events := [Take(0, none), Take(2, full), Take(4, none), Take(6, full), Flush(8)];
    var one, two := TrafficData(2, full), TrafficData(6, full);
    assert events[..1][..0] == [];
    assert Run(Loaded([]), events[..1]) == Line([], [], Some(none));
    assert events[..2][..1] == events[..1];
    assert Run(Loaded([]), events[..2]) == Line([], [one], Some(full));
    assert events[..3][..2] == events[..2];
    assert Run(Loaded([]), events[..3]) == Line([], [one], Some(none));
    assert events[..4][..3] == events[..3];
    assert Run(Loaded([]), events[..4]) == Line([], [one, two], Some(full));
    assert [one, two][..1] == [one] && [one][..0] == [];
    assert Sum([one], Up) == U64_MAX;
    assert Sum([one, two], Up) == 2 * U64_MAX;
  }

  /** A flush never purges what it just stored: its purge only thins out what the
      store held before. */
  lemma FlushKeepsItsOwn(line: Line, timestamp: U64, preserveDays: real)
    ensures var cutoff := Cutoff(timestamp, preserveDays);
            Run(line, [Flush(timestamp), Purge(cutoff)])
            == Line(Noted(Retained(line.store, cutoff), timestamp, WrappedSum(line.cache)), [], line.last)
  {
    var cutoff := Cutoff(timestamp, preserveDays);
    var e := TrafficData(timestamp, WrappedSum(line.cache));
    assert (line.store + [e])[..|line.store|] == line.store;
    RunOne(line, [], Flush(timestamp));
    RunOne(line, [Flush(timestamp)], Purge(cutoff));
    assert [Flush(timestamp)] + [Purge(cutoff)] == [Flush(timestamp), Purge(cutoff)];
  }

  /** The events of one sample for one interface. */
  function Arrivals(name: string, timestamp: U64, counters: seq<InterfaceCounter>): seq<Event> {
    if counters == [] then []
    else
      var rest, c := Arrivals(name, timestamp, counters[..|counters| - 1]), counters[|counters| - 1];
      if c.name == name then rest + [Take(timestamp, c.total)] else rest
  }

  lemma RunOne(line: Line, events: seq<Event>, e: Event)
    ensures Run(line, events + [e]) == Step(Run(line, events), e)
  {
  }

  /** Seconds an entry is kept. */
  function Ttl(preserveDays: real): nat {
    var seconds := preserveDays * 86400.0;
    if seconds <= 0.0 then 0 else if seconds.Floor > U64_MAX then U64_MAX else seconds.Floor
  }

  function Cutoff(now: U64, preserveDays: real): nat {
    SaturatingSub(now, Ttl(preserveDays))
  }

  /** An entry is kept exactly when it is at most the given number of days old. */
  predicate Recent(e: TrafficData, now: U64, preserveDays: real) {
    e.timestamp >= now || (now - e.timestamp) as real <= preserveDays * 24.0 * 60.0 * 60.0
  }

  lemma RecentIff(e: TrafficData, now: U64, preserveDays: real)
    ensures e.timestamp >= Cutoff(now, preserveDays) <==> Recent(e, now, preserveDays)
  {
    var seconds := preserveDays * 86400.0;
    assert preserveDays * 24.0 * 60.0 * 60.0 == seconds;
    if e.timestamp < now {
      var age := now - e.timestamp;
      assert age <= seconds.Floor <==> age as real <= seconds;
    }
  }

  lemma {:induction false} RecentAreKept(entries: seq<TrafficData>, now: U64, preserveDays: real, e: TrafficData)
    ensures multiset(Retained(entries, Cutoff(now, preserveDays)))[e]
            == if Recent(e, now, preserveDays) then multiset(entries)[e] else 0
  {
    if entries != [] {
      var n := |entries| - 1;
      RecentAreKept(entries[..n], now, preserveDays, e);
      RecentIff(entries[n], now, preserveDays);
      assert entries == entries[..n] + [entries[n]];
    }
  }

  class NetStaticSampler {
    const detectInterval: real
    const saveInterval: real
    const preserveDays: real
    const nics: seq<string>
    var store: Traffic
    var cache: Traffic
    var lastCounters: map<string, Counter>
    var lastSampleAt: Option<U64>
    var lastSaveAt: Option<U64>

    /** What the file held, and what happened to each interface since. */
    ghost const loaded: Traffic
    ghost var log: string -> seq<Event>

    ghost function LineOf(name: string): Line
      reads this
    {
      Line(Entries(store, name), Entries(cache, name), if name in lastCounters then Some(lastCounters[name]) else None)
    }

    /** Every interface is where its own events lead it. */
    ghost predicate Valid()
      reads this
    {
      forall name :: LineOf(name) == Run(Loaded(Entries(loaded, name)), log(name))
    }

    predicate NicAllowed(name: string) {
      nics == [] || name in nics
    }

    constructor (detectInterval: real, saveInterval: real, preserveDays: real, nics: seq<string>, file: Traffic, now: U64)
      ensures Valid() && loaded == file
      ensures forall name :: log(name) == [Purge(Cutoff(now, preserveDays))]
      ensures this.detectInterval == detectInterval && this.saveInterval == saveInterval
      ensures this.preserveDays == preserveDays && this.nics == nics
      ensures lastSampleAt == None && lastSaveAt == None
    {
      this.detectInterval := detectInterval;
      this.saveInterval := saveInterval;
      this.preserveDays := preserveDays;
      this.nics := nics;
      store, cache, lastCounters := file, map[], map[];
      lastSampleAt, lastSaveAt := None, None;
      loaded, log := file, name => [];
      new;
      hide Recent, Cutoff;
      PurgeExpired(now);
    }

    method TakeCounter(timestamp: U64, counter: InterfaceCounter)
      requires Valid()
      modifies this`cache, this`lastCounters, this`log
      ensures Valid()
      ensures forall name :: log(name) == old(log)(name)
                             + if name == counter.name && (nics == [] || name in nics) then [Take(timestamp, counter.total)] else []
    {
      if !NicAllowed(counter.name) {
        return;
      }
      var name := counter.name;
      ghost var line := LineOf(name);
      if name in lastCounters {
        var increment := Increment(lastCounters[name], counter.total);
        if increment.up > 0 || increment.down > 0 {
          cache := cache[name := Entries(cache, name) + [TrafficData(timestamp, increment)]];
        }
      }
      lastCounters := lastCounters[name := counter.total];
      ghost var before, e := log, Take(timestamp, counter.total);
      log := n => if n == name then before(n) + [e] else before(n);
      RunOne(Loaded(Entries(loaded, name)), before(name), e);
      assert LineOf(name) == Step(line, e);
    }

    /** A sample too soon after the last one changes nothing; any other takes every
        counter of an allowed interface, in order. */
    method Sample(timestamp: U64, counters: seq<InterfaceCounter>)
      requires Valid()
      modifies this`cache, this`lastCounters, this`log, this`lastSampleAt
      ensures Valid()
      ensures var throttled := old(lastSampleAt.Some? && SaturatingSub(timestamp, lastSampleAt.value) as real < detectInterval);
              && lastSampleAt == (if throttled then old(lastSampleAt) else Some(timestamp))
              && (throttled ==> log == old(log) && cache == old(cache) && lastCounters == old(lastCounters))
              && (!throttled ==> forall name :: log(name) == old(log)(name)
                                                + if nics == [] || name in nics then Arrivals(name, timestamp, counters) else [])
    {
      hide Run, Step;
      if lastSampleAt.Some? {
        if SaturatingSub(timestamp, lastSampleAt.value) as real < detectInterval {
          return;
        }
      }
      for i := 0 to |counters|
        invariant Valid() && lastSampleAt == old(lastSampleAt)
        invariant forall name :: log(name) == old(log)(name)
                                 + if NicAllowed(name) then Arrivals(name, timestamp, counters[..i]) else []
      {
        assert counters[..i + 1][..i] == counters[..i];
        TakeCounter(timestamp, counters[i]);
      }
      assert counters[..|counters|] == counters;
      lastSampleAt := Some(timestamp);
    }

    /** Adds one entry for each interface with traffic, in any order. */
    method StoreTotals(taken: Traffic, timestamp: U64)
      modifies this`store
      ensures forall name :: Entries(store, name)
                             == if name in taken
                                then Noted(old(Entries(store, name)), timestamp, WrappedSum(taken[name]))
                                else old(Entries(store, name))
    {
      hide WrappedSum;
      var left := taken.Keys;
      while left != {}
        invariant left <= taken.Keys
        invariant forall name :: Entries(store, name)
                                 == if name in taken.Keys - left
                                    then Noted(old(Entries(store, name)), timestamp, WrappedSum(taken[name]))
                                    else old(Entries(store, name))
        decreases left
      {
        var name :| name in left;
        left := left - {name};
        var total := WrappedSum(taken[name]);
        if total.up > 0 || total.down > 0 {
          store := store[name := Entries(store, name) + [TrafficData(timestamp, total)]];
        }
      }
    }

    method FlushCache(timestamp: U64)
      requires Valid()
      modifies this`store, this`cache, this`log
      ensures Valid() && cache == map[]
      ensures forall name :: log(name) == old(log)(name) + [Flush(timestamp)]
    {
      var taken := cache;
      cache := map[];
      StoreTotals(taken, timestamp);
      ghost var before := log;
      log := name => before(name) + [Flush(timestamp)];
      forall name
        ensures LineOf(name) == Run(Loaded(Entries(loaded, name)), log(name))
      {
        RunOne(Loaded(Entries(loaded, name)), before(name), Flush(timestamp));
        assert LineOf(name) == Step(old(LineOf(name)), Flush(timestamp));
      }
    }

    method PurgeExpired(now: U64)
      requires Valid()
      modifies this`store, this`log
      ensures Valid()
      ensures forall name :: log(name) == old(log)(name) + [Purge(Cutoff(now, preserveDays))]
      ensures forall name | name in store :: store[name] != []
      ensures forall name, e :: multiset(Entries(store, name))[e]
                                == if Recent(e, now, preserveDays) then old(multiset(Entries(store, name))[e]) else 0
    {
      hide Cutoff, Recent;
      var cutoff := Cutoff(now, preserveDays);
      store := map name | name in store && Retained(store[name], cutoff) != [] :: Retained(store[name], cutoff);
      assert forall name :: Entries(store, name) == Retained(old(Entries(store, name)), cutoff);
      hide Retained, Run, Entries;
      ghost var before := log;
      log := name => before(name) + [Purge(cutoff)];
      forall name
        ensures LineOf(name) == Run(Loaded(Entries(loaded, name)), log(name))
      {
        RunOne(Loaded(Entries(loaded, name)), before(name), Purge(cutoff));
      }
      forall name, e
        ensures multiset(Entries(store, name))[e] == if Recent(e, now, preserveDays) then old(multiset(Entries(store, name))[e]) else 0
      {
        RecentAreKept(old(Entries(store, name)), now, preserveDays, e);
      }
    }

    /** `saved` tells whether writing the file succeeds. */
    method FlushAll(timestamp: U64, saved: bool) returns (ok: bool)
      requires Valid()
      modifies this`store, this`cache, this`log, this`lastSaveAt
      ensures Valid() && cache == map[]
      ensures ok == saved && lastSaveAt == if saved then Some(timestamp) else old(lastSaveAt)
      ensures forall name :: log(name) == old(log)(name) + [Flush(timestamp), Purge(Cutoff(timestamp, preserveDays))]
    {
      hide Recent, Cutoff, Run, Entries;
      FlushCache(timestamp);
      PurgeExpired(timestamp);
      if saved {
        lastSaveAt := Some(timestamp);
      }
      return saved;
    }

    method FlushIfDue(timestamp: U64, saved: bool) returns (ok: bool)
      requires Valid()
      modifies this`store, this`cache, this`log, this`lastSaveAt
      ensures Valid()
      ensures var due := old(lastSaveAt.None? || SaturatingSub(timestamp, lastSaveAt.value) as real >= saveInterval);
              && ok == (due ==> saved)
              && lastSaveAt == (if due && saved then Some(timestamp) else old(lastSaveAt))
              && forall name :: log(name) == old(log)(name)
                                + if due then [Flush(timestamp), Purge(Cutoff(timestamp, preserveDays))] else []
    {
      var due := lastSaveAt.None? || SaturatingSub(timestamp, lastSaveAt.value) as real >= saveInterval;
      if due {
        ok := FlushAll(timestamp, saved);
      } else {
        ok := true;
      }
    }
  }

  // Totals.

  /** The non-negative 64-bit signed values. */
  type I64 = x: int | 0 <= x <= I64_MAX

  const I64_MAX: nat := 0x7FFF_FFFF_FFFF_FFFF

  function Clamp(n: nat): I64 {
    if n > I64_MAX then I64_MAX else n
  }

  datatype NetworkTotals = NetworkTotals(up: I64, down: I64)
  {
    function Of(d: Direction): nat {
      if d.Up? then up else down
    }
  }

  /** A bound of zero leaves its side open. */
  predicate InWindow(e: TrafficData, start: U64, end: U64) {
    (start != 0 ==> e.timestamp >= start) && (end != 0 ==> e.timestamp <= end)
  }

  function WindowSum(entries: seq<TrafficData>, start: U64, end: U64, d: Direction): nat {
    if entries == [] then 0
    else
      var rest, e := WindowSum(entries[..|entries| - 1], start, end, d), entries[|entries| - 1];
      if InWindow(e, start, end) then rest + e.amount.Of(d) else rest
  }

  lemma {:induction false} OpenWindowSum(entries: seq<TrafficData>, d: Direction)
    ensures WindowSum(entries, 0, 0, d) == Sum(entries, d)
  {
    if entries != [] {
      OpenWindowSum(entries[..|entries| - 1], d);
    }
  }

  /** The amounts of some names added up. */
  ghost function SumOver(names: set<string>, amount: string -> nat): nat
    decreases |names|
  {
    if names == {} then 0
    else
      var name :| name in names;
      amount(name) + SumOver(names - {name}, amount)
  }

  /** Any name may be added first. */
  lemma {:induction false} SumOverAnyOrder(names: set<string>, amount: string -> nat, name: string)
    requires name in names
    ensures SumOver(names, amount) == amount(name) + SumOver(names - {name}, amount)
    decreases |names|
  {
    var first :| first in names && SumOver(names, amount) == amount(first) + SumOver(names - {first}, amount);
    if first != name {
      SumOverAnyOrder(names - {first}, amount, name);
      SumOverAnyOrder(names - {name}, amount, first);
      assert names - {first} - {name} == names - {name} - {first};
    }
  }

  /** What the wanted interfaces of a map transferred within the window. */
  ghost function Total(values: Traffic, names: set<string>, start: U64, end: U64, d: Direction): nat {
    SumOver(names, name => WindowSum(Entries(values, name), start, end, d))
  }

  ghost function Wanted(values: Traffic, wanted: string -> bool): set<string> {
    set name | name in values && wanted(name)
  }

  lemma TotalAnyOrder(values: Traffic, names: set<string>, start: U64, end: U64, d: Direction, name: string)
    requires name in names
    ensures Total(values, names, start, end, d)
            == WindowSum(Entries(values, name), start, end, d) + Total(values, names - {name}, start, end, d)
  {
    SumOverAnyOrder(names, n => WindowSum(Entries(values, n), start, end, d), name);
  }

  method AddEntries(entries: seq<TrafficData>, start: U64, end: U64, totals: NetworkTotals) returns (r: NetworkTotals)
    ensures forall d: Direction :: r.Of(d) == Clamp(totals.Of(d) + WindowSum(entries, start, end, d))
  {
    r := totals;
    for i := 0 to |entries|
      invariant r.up == Clamp(totals.up + WindowSum(entries[..i], start, end, Up))
      invariant r.down == Clamp(totals.down + WindowSum(entries[..i], start, end, Down))
    {
      assert entries[..i + 1][..i] == entries[..i];
      var e := entries[i];
      if (start != 0 && e.timestamp < start) || (end != 0 && e.timestamp > end) {
        continue;
      }
      r := NetworkTotals(Clamp(r.up + Clamp(e.amount.up)), Clamp(r.down + Clamp(e.amount.down)));
    }
    assert entries[..|entries|] == entries;
  }

  /** Saturating additions, in whatever order the map yields its names, come to the
      exact sum cut off at the largest value. */
  method AddTotalsBetween(values: Traffic, start: U64, end: U64, wanted: string -> bool, totals: NetworkTotals) returns (r: NetworkTotals)
    ensures forall d: Direction :: r.Of(d) == Clamp(totals.Of(d) + Total(values, Wanted(values, wanted), start, end, d))
  {
    r := totals;
    var left := values.Keys;
    ghost var all := Wanted(values, wanted);
    assert all * left == all;
    while left != {}
      invariant left <= values.Keys
      invariant forall d: Direction :: Clamp(r.Of(d) + Total(values, all * left, start, end, d))
                                       == Clamp(totals.Of(d) + Total(values, all, start, end, d))
      decreases left
    {
      var name :| name in left;
      ghost var before := r;
      if wanted(name) {
        r := AddEntries(values[name], start, end, r);
        forall d: Direction
          ensures Clamp(r.Of(d) + Total(values, all * (left - {name}), start, end, d))
                  == Clamp(before.Of(d) + Total(values, all * left, start, end, d))
        {
          assert all * left - {name} == all * (left - {name});
          TotalAnyOrder(values, all * left, start, end, d, name);
        }
      } else {
        assert all * left == all * (left - {name});
      }
      left := left - {name};
    }
    assert all * left == {};
  }

  method TotalBetween(sampler: NetStaticSampler, start: U64, end: U64, wanted: string -> bool) returns (totals: NetworkTotals)
    ensures forall d: Direction :: totals.Of(d)
                                   == Clamp(Total(sampler.store, Wanted(sampler.store, wanted), start, end, d)
                                            + Total(sampler.cache, Wanted(sampler.cache, wanted), start, end, d))
  {
    totals := AddTotalsBetween(sampler.store, start, end, wanted, NetworkTotals(0, 0));
    totals := AddTotalsBetween(sampler.cache, start, end, wanted, totals);
  }

  ghost function HeldBy(store: Traffic, cache: Traffic, d: Direction): string -> nat {
    name => Held(Line(Entries(store, name), Entries(cache, name), None), d)
  }

  /** The unbounded total of some interfaces is all they hold, cached or stored. */
  lemma {:induction false} OpenTotalIsHeld(store: Traffic, cache: Traffic, names: set<string>, d: Direction)
    ensures Total(store, names * store.Keys, 0, 0, d) + Total(cache, names * cache.Keys, 0, 0, d)
            == SumOver(names, HeldBy(store, cache, d))
    decreases |names|
  {
    if names == {} {
      assert names * store.Keys == {} && names * cache.Keys == {};
    } else {
      var name :| name in names;
      var rest := names - {name};
      OpenTotalIsHeld(store, cache, rest, d);
      SumOverAnyOrder(names, HeldBy(store, cache, d), name);
      OpenTotalSplits(store, names, name, d);
      OpenTotalSplits(cache, names, name, d);
    }
  }

  lemma OpenTotalSplits(values: Traffic, names: set<string>, name: string, d: Direction)
    requires name in names
    ensures Total(values, names * values.Keys, 0, 0, d)
            == Sum(Entries(values, name), d) + Total(values, (names - {name}) * values.Keys, 0, 0, d)
  {
    var all := names * values.Keys;
    assert (names - {name}) * values.Keys == all - {name};
    if name in values {
      TotalAnyOrder(values, all, 0, 0, d, name);
      OpenWindowSum(values[name], d);
    } else {
      assert all - {name} == all;
    }
  }
}
