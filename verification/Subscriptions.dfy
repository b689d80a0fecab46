/** The subscription manager and its fixed-window rate limiter. */
module Subscriptions {
  import opened Wrappers

  type Id = string

  // Configurations and messages

  datatype QueryFilter = QueryFilter(field: string, operator: string, value: string)

  datatype Config = Config(
    dataTypes: seq<string>, sourcePeers: seq<string>, encrypted: bool, streaming: bool,
    filters: Option<seq<QueryFilter>>, rateLimit: Option<int>, ttl: Option<int>)

  /** A partial configuration: each given field replaces the old one, even by an absent value. */
  datatype Patch = Patch(
    dataTypes: Option<seq<string>>, sourcePeers: Option<seq<string>>, encrypted: Option<bool>, streaming: Option<bool>,
    filters: Option<Option<seq<QueryFilter>>>, rateLimit: Option<Option<int>>, ttl: Option<Option<int>>)

  function Or<T>(o: Option<T>, default: T): T {
    if o.Some? then o.value else default
  }

  function Patched(c: Config, p: Patch): Config {
    Config(Or(p.dataTypes, c.dataTypes), Or(p.sourcePeers, c.sourcePeers), Or(p.encrypted, c.encrypted),
           Or(p.streaming, c.streaming), Or(p.filters, c.filters), Or(p.rateLimit, c.rateLimit), Or(p.ttl, c.ttl))
  }

  const OPERATORS := ["eq", "ne", "gt", "gte", "lt", "lte", "contains", "startsWith", "endsWith", "in", "notIn"]

  predicate ValidConfig(supported: set<string>, c: Config) {
    && c.dataTypes != [] && (forall d :: d in c.dataTypes ==> d in supported)
    && c.sourcePeers != []
    && (c.rateLimit.Some? ==> c.rateLimit.value >= 0)
    && (c.ttl.Some? ==> c.ttl.value >= 0)
    && (c.filters.Some? ==> forall f :: f in c.filters.value ==> f.field != "" && f.operator in OPERATORS)
  }

  /** Message data, known by the filters it satisfies. */
  datatype Data = NotObject | Object(satisfies: QueryFilter -> bool)

  /** `headerEncrypted` is what the routing header says, if the message came with one. */
  datatype Message = Message(schema: string, data: Data, from: string, headerEncrypted: Option<bool>)

  predicate Matches(c: Config, m: Message) {
    && m.schema in c.dataTypes
    && ("all" in c.sourcePeers || m.from in c.sourcePeers)
    && (m.headerEncrypted.Some? ==> c.encrypted == m.headerEncrypted.value)
    && (c.filters.Some? && c.filters.value != [] ==>
          m.data.Object? && forall f :: f in c.filters.value ==> m.data.satisfies(f))
  }

  // State of one subscription

  datatype Status = Active | Paused

  datatype Subscription = Subscription(
    config: Config, createdAt: int, messageCount: nat, lastMessageAt: Option<int>, status: Status)

  datatype Counter = Counter(count: nat, resetAt: int)

  const MINUTE := 60000

  /** The counter after a check at `now`, and whether the check passed. */
  function Limit(counter: Option<Counter>, limit: int, now: int): (Counter, bool) {
    var c := if counter.None? || counter.value.resetAt <= now then Counter(0, now + MINUTE) else counter.value;
    if c.count >= limit then (c, false) else (c.(count := c.count + 1), true)
  }

  datatype EventKind = Delivered(message: Message) | Subscribed | Unsubscribed | WasPaused | WasResumed | RateLimited

  datatype Event = Event(id: Id, kind: EventKind, at: int)

  /** An operation on the manager. A rate check reads the clock anew for each subscription. */
  datatype Op =
    | Create(id: Id, config: Config, at: int)
    | Update(id: Id, patch: Patch)
    | Remove(id: Id, at: int)
    | Pause(id: Id, at: int)
    | Resume(id: Id, at: int)
    | Process(message: Message, at: int, checkedAt: Id -> int)

  /** What one subscription is on its own: its record and its rate counter. */
  datatype Single = Single(sub: Option<Subscription>, counter: Option<Counter>)

  function Receive(s: Single, id: Id, m: Message, at: int, checkedAt: int): (Single, seq<Event>) {
    if s.sub.None? || s.sub.value.status != Active || !Matches(s.sub.value.config, m) then (s, [])
    else
      var sub := s.sub.value;
      var limited := sub.config.rateLimit.Some? && sub.config.rateLimit.value != 0;
      var (counter, ok) :=
        if limited then Limit(s.counter, sub.config.rateLimit.value, checkedAt) else (Counter(0, 0), true);
      var s' := if limited then s.(counter := Some(counter)) else s;
      if ok then
        (s'.(sub := Some(sub.(messageCount := sub.messageCount + 1, lastMessageAt := Some(at)))),
         [Event(id, Delivered(m), at)])
      else
        (s', [Event(id, RateLimited, at)])
  }

  /** How a subscription alone responds to an operation on the manager. */
  function Step(supported: set<string>, s: Single, id: Id, op: Op): (Single, seq<Event>) {
    match op
    case Create(i, config, at) =>
      if i != id || !ValidConfig(supported, config) then (s, [])
      else (s.(sub := Some(Subscription(config, at, 0, None, Active))), [Event(id, Subscribed, at)])
    case Update(i, patch) =>
      if i != id || s.sub.None? || !ValidConfig(supported, Patched(s.sub.value.config, patch)) then (s, [])
      else (s.(sub := Some(s.sub.value.(config := Patched(s.sub.value.config, patch)))), [])
    case Remove(i, at) =>
      if i != id || s.sub.None? then (s, []) else (Single(None, None), [Event(id, Unsubscribed, at)])
    case Pause(i, at) =>
      if i != id || s.sub.None? then (s, [])
      else (s.(sub := Some(s.sub.value.(status := Paused))), [Event(id, WasPaused, at)])
    case Resume(i, at) =>
      if i != id || s.sub.None? then (s, [])
      else (s.(sub := Some(s.sub.value.(status := Active))), [Event(id, WasResumed, at)])
    case Process(m, at, checkedAt) =>
      Receive(s, id, m, at, checkedAt(id))
  }

  // What the operations mean for one subscription

  /** The message is one that a subscription with this configuration asks for. */
  ghost predicate AskedFor(c: Config, m: Message) {
    && (exists i :: 0 <= i < |c.dataTypes| && c.dataTypes[i] == m.schema)
    && (exists i :: 0 <= i < |c.sourcePeers| && (c.sourcePeers[i] == "all" || c.sourcePeers[i] == m.from))
    && (m.headerEncrypted == None || m.headerEncrypted == Some(c.encrypted))
    && (|| c.filters.None? || c.filters.value == []
        || (m.data.Object? && forall i :: 0 <= i < |c.filters.value| ==> m.data.satisfies(c.filters.value[i])))
  }

  /** A message reaches a subscription exactly when that is active and asked for it. */
  lemma MessageReaches(supported: set<string>, s: Single, id: Id, m: Message, at: int, checkedAt: Id -> int)
    ensures var step := Step(supported, s, id, Process(m, at, checkedAt));
            && (step.1 != [] <==> s.sub.Some? && s.sub.value.status == Active && AskedFor(s.sub.value.config, m))
            && (step.1 == [] ==> step.0 == s)
            && (step.1 == [] || step.1 == [Event(id, Delivered(m), at)] || step.1 == [Event(id, RateLimited, at)])
            && (step.1 != [] ==>
                  var limit := s.sub.value.config.rateLimit;
                  (limit == None || limit == Some(0) ==> step.1 == [Event(id, Delivered(m), at)]))
  {
  }

  /** A filter names a field and one of the eleven operators. */
  predicate FilterOk(f: QueryFilter) {
    && |f.field| > 0
    && (|| f.operator == "eq" || f.operator == "ne" || f.operator == "gt" || f.operator == "gte" || f.operator == "lt"
        || f.operator == "lte" || f.operator == "contains" || f.operator == "startsWith" || f.operator == "endsWith"
        || f.operator == "in" || f.operator == "notIn")
  }

  /** Every part of the configuration is in order. */
  ghost predicate InOrder(supported: set<string>, c: Config) {
    && |c.dataTypes| > 0 && (forall i :: 0 <= i < |c.dataTypes| ==> c.dataTypes[i] in supported)
    && |c.sourcePeers| > 0
    && (c.rateLimit.None? || c.rateLimit.value >= 0) && (c.ttl.None? || c.ttl.value >= 0)
    && (c.filters.None? || forall i :: 0 <= i < |c.filters.value| ==> FilterOk(c.filters.value[i]))
  }

  lemma InOrderIsValid(supported: set<string>, c: Config)
    ensures InOrder(supported, c) <==> ValidConfig(supported, c)
  {
    assert forall f: QueryFilter :: FilterOk(f) <==> f.field != "" && f.operator in OPERATORS;
  }

  /** A subscription is created, active and with nothing counted, exactly when its configuration is in order. */
  lemma ConfigTaken(supported: set<string>, s: Single, id: Id, c: Config, at: int)
    ensures Step(supported, s, id, Create(id, c, at))
            == if InOrder(supported, c)
               then (Single(Some(Subscription(c, at, 0, None, Active)), s.counter), [Event(id, Subscribed, at)])
               else (s, [])
  {
    InOrderIsValid(supported, c);
  }

  /** A field of a merged configuration: what is given, or else what was. */
  predicate Takes<T(==)>(merged: T, before: T, given: Option<T>) {
    (given.Some? ==> merged == given.value) && (given.None? ==> merged == before)
  }

  predicate Merges(merged: Config, before: Config, p: Patch) {
    && Takes(merged.dataTypes, before.dataTypes, p.dataTypes)
    && Takes(merged.sourcePeers, before.sourcePeers, p.sourcePeers)
    && Takes(merged.encrypted, before.encrypted, p.encrypted)
    && Takes(merged.streaming, before.streaming, p.streaming)
    && Takes(merged.filters, before.filters, p.filters)
    && Takes(merged.rateLimit, before.rateLimit, p.rateLimit)
    && Takes(merged.ttl, before.ttl, p.ttl)
  }

  /** An update replaces the configuration by the merged one, if that is in order, and nothing else. */
  lemma UpdateMerges(supported: set<string>, s: Single, id: Id, p: Patch, merged: Config)
    requires s.sub.Some? && Merges(merged, s.sub.value.config, p)
    ensures Step(supported, s, id, Update(id, p))
            == if InOrder(supported, merged) then (s.(sub := Some(s.sub.value.(config := merged))), []) else (s, [])
  {
    InOrderIsValid(supported, merged);
    assert merged == Patched(s.sub.value.config, p);
  }

  /** A state and the events emitted so far, after a step. */
  function After(before: (Single, seq<Event>), step: (Single, seq<Event>)): (Single, seq<Event>) {
    (step.0, if step.1 == [] then before.1 else before.1 + step.1)
  }

  /** A subscription alone through the first `n` operations of a trace. */
  function Run(supported: set<string>, s: Single, id: Id, trace: seq<Op>, n: nat): (Single, seq<Event>)
    requires n <= |trace|
  {
    if n == 0 then (s, [])
    else
      var run := Run(supported, s, id, trace, n - 1);
      After(run, Step(supported, run.0, id, trace[n - 1]))
  }

  /** Running one operation more is running and then stepping. */
  lemma RunSnoc(supported: set<string>, start: (Single, seq<Event>), id: Id, trace: seq<Op>, n: nat)
    requires n < |trace|
    ensures var run := Run(supported, start.0, id, trace, n);
            After(After(start, run), Step(supported, run.0, id, trace[n]))
            == After(start, Run(supported, start.0, id, trace, n + 1))
  {
    var run := Run(supported, start.0, id, trace, n);
    AfterChains(start, run, Step(supported, run.0, id, trace[n]));
  }

  lemma AfterChains(before: (Single, seq<Event>), run: (Single, seq<Event>), step: (Single, seq<Event>))
    ensures After(After(before, run), step) == After(before, After(run, step))
  {
    assert (before.1 + run.1) + step.1 == before.1 + (run.1 + step.1);
    assert [] + step.1 == step.1;
    assert step.1 != [] ==> run.1 + step.1 != [] && (before.1 + run.1) + step.1 != [];
  }

  function EventsOf(events: seq<Event>, id: Id): seq<Event> {
    if events == [] then []
    else
      var last := events[|events| - 1];
      var before := EventsOf(events[..|events| - 1], id);
      if last.id == id then before + [last] else before
  }

  lemma EventsSnoc(events: seq<Event>, e: Event)
    ensures forall id :: EventsOf(events + [e], id)
                         == if e.id == id then EventsOf(events, id) + [e] else EventsOf(events, id)
  {
    assert (events + [e])[..|events|] == events;
  }

  function Lookup<V>(m: map<Id, V>, id: Id): Option<V> {
    if id in m then Some(m[id]) else None
  }

  // The manager

  /** All that a manager holds. */
  datatype State = State(subscriptions: map<Id, Subscription>, counters: map<Id, Counter>, events: seq<Event>) {
    /** What is held for one subscription. */
    ghost function View(id: Id): Single {
      Single(Lookup(subscriptions, id), Lookup(counters, id))
    }

    /** The same, with all that was emitted for it. */
    ghost function Fare(id: Id): (Single, seq<Event>) {
      (View(id), EventsOf(events, id))
    }
  }

  /** Non-interference: every subscription responds to the operation as it would alone. */
  ghost predicate Steps(supported: set<string>, a: State, b: State, op: Op) {
    forall i :: b.Fare(i) == After(a.Fare(i), Step(supported, a.View(i), i, op))
  }

  /** Through the first `n` operations every subscription fares as it would alone. */
  ghost predicate Runs(supported: set<string>, a: State, b: State, trace: seq<Op>, n: nat)
    requires n <= |trace|
  {
    forall i :: b.Fare(i) == After(a.Fare(i), Run(supported, a.View(i), i, trace, n))
  }

  lemma RunsSnoc(supported: set<string>, a: State, b: State, c: State, trace: seq<Op>, n: nat)
    requires n < |trace| && Runs(supported, a, b, trace, n) && Steps(supported, b, c, trace[n])
    ensures Runs(supported, a, c, trace, n + 1)
  {
    forall i
      ensures c.Fare(i) == After(a.Fare(i), Run(supported, a.View(i), i, trace, n + 1))
    {
      assert b.Fare(i) == After(a.Fare(i), Run(supported, a.View(i), i, trace, n));
      RunSnoc(supported, a.Fare(i), i, trace, n);
    }
  }

  /** Only one subscription is touched, and it receives the message. */
  ghost predicate Receives(a: State, b: State, id: Id, m: Message, at: int, checkedAt: int) {
    && b.Fare(id) == After(a.Fare(id), Receive(a.View(id), id, m, at, checkedAt))
    && forall i :: i != id ==> b.Fare(i) == a.Fare(i)
  }

  /** The first `k` subscriptions have received the message. */
  ghost predicate Served(a: State, b: State, order: seq<Id>, k: nat, m: Message, at: int, checkedAt: Id -> int)
    requires k <= |order|
  {
    && (forall j :: 0 <= j < k ==>
          b.Fare(order[j]) == After(a.Fare(order[j]), Receive(a.View(order[j]), order[j], m, at, checkedAt(order[j]))))
    && (forall i :: i !in order[..k] ==> b.Fare(i) == a.Fare(i))
  }

  lemma ServedSnoc(a: State, b: State, c: State, order: seq<Id>, k: nat, m: Message, at: int, checkedAt: Id -> int)
    requires k < |order| && (forall i, j :: 0 <= i < j < |order| ==> order[i] != order[j])
    requires Served(a, b, order, k, m, at, checkedAt)
    requires Receives(b, c, order[k], m, at, checkedAt(order[k]))
    ensures Served(a, c, order, k + 1, m, at, checkedAt)
  {
    assert order[..k + 1] == order[..k] + [order[k]];
    assert b.Fare(order[k]) == a.Fare(order[k]);
  }

  lemma ServedAll(supported: set<string>, a: State, b: State, order: seq<Id>, m: Message, at: int, checkedAt: Id -> int)
    requires Served(a, b, order, |order|, m, at, checkedAt)
    requires forall i :: i in a.subscriptions ==> i in order
    ensures Steps(supported, a, b, Process(m, at, checkedAt))
  {
    assert order[..|order|] == order;
    forall i
      ensures b.Fare(i) == After(a.Fare(i), Step(supported, a.View(i), i, Process(m, at, checkedAt)))
    {
      if j :| 0 <= j < |order| && order[j] == i {
        assert b.Fare(order[j]) == After(a.Fare(i), Receive(a.View(i), i, m, at, checkedAt(i)));
      }
    }
  }

  /** Only the event's subscription can have changed, and the event is emitted for it. */
  ghost predicate Touches(a: State, b: State, e: Event) {
    && b.Fare(e.id) == (b.View(e.id), EventsOf(a.events, e.id) + [e])
    && forall i :: i != e.id ==> b.Fare(i) == a.Fare(i)
  }

  lemma TouchesOnly(a: State, b: State, e: Event)
    requires b.events == a.events + [e]
    requires b.subscriptions - {e.id} == a.subscriptions - {e.id} && b.counters - {e.id} == a.counters - {e.id}
    ensures Touches(a, b, e)
  {
    EventsSnoc(a.events, e);
    forall i | i != e.id
      ensures b.View(i) == a.View(i)
    {
      assert i in a.subscriptions <==> i in a.subscriptions - {e.id};
      assert i in b.subscriptions <==> i in b.subscriptions - {e.id};
      assert i in a.counters <==> i in a.counters - {e.id};
      assert i in b.counters <==> i in b.counters - {e.id};
    }
  }

  lemma TouchReceives(a: State, b: State, m: Message, checkedAt: int, e: Event)
    requires b.events == a.events + [e]
    requires b.subscriptions - {e.id} == a.subscriptions - {e.id} && b.counters - {e.id} == a.counters - {e.id}
    requires Receive(a.View(e.id), e.id, m, e.at, checkedAt) == (b.View(e.id), [e])
    ensures Receives(a, b, e.id, m, e.at, checkedAt)
  {
    TouchesOnly(a, b, e);
  }

  /** The keys in the order of their insertion. */
  ghost predicate Lists(order: seq<Id>, keys: set<Id>) {
    && (forall id :: id in order <==> id in keys)
    && (forall i, j :: 0 <= i < j < |order| ==> order[i] != order[j])
  }

  lemma ListsWithout(order: seq<Id>, keys: set<Id>, k: nat)
    requires k < |order| && Lists(order, keys)
    ensures Lists(order[..k] + order[k + 1..], keys - {order[k]})
  {
    var rest := order[..k] + order[k + 1..];
    forall id | id in order && id != order[k]
      ensures id in rest
    {
      var i :| 0 <= i < |order| && order[i] == id;
      assert rest[if i < k then i else i - 1] == id;
    }
  }

  /** Exactly the active subscriptions that asked for the message have emitted something. */
  ghost predicate Hears(a: State, b: State, m: Message) {
    forall i :: EventsOf(b.events, i) != EventsOf(a.events, i)
                <==> && i in a.subscriptions && a.subscriptions[i].status == Active
                     && AskedFor(a.subscriptions[i].config, m)
  }

  lemma StepsHear(supported: set<string>, a: State, b: State, m: Message, at: int, checkedAt: Id -> int)
    requires Steps(supported, a, b, Process(m, at, checkedAt))
    ensures Hears(a, b, m)
  {
    forall i
      ensures EventsOf(b.events, i) != EventsOf(a.events, i)
              <==> && i in a.subscriptions && a.subscriptions[i].status == Active
                   && AskedFor(a.subscriptions[i].config, m)
    {
      assert b.Fare(i) == After(a.Fare(i), Step(supported, a.View(i), i, Process(m, at, checkedAt)));
      MessageReaches(supported, a.View(i), i, m, at, checkedAt);
    }
  }

  class SubscriptionManager {
    const supported: set<string>
    var subscriptions: map<Id, Subscription>
    /** The keys of `subscriptions`, oldest first. */
    var order: seq<Id>
    var counters: map<Id, Counter>
    /** Everything emitted so far. */
    var events: seq<Event>

    constructor (supported: set<string>)
      ensures Valid() && this.supported == supported && Now() == State(map[], map[], [])
    {
      this.supported := supported;
      subscriptions, order, counters, events := map[], [], map[], [];
    }

    ghost predicate Valid()
      reads this
    {
      Lists(order, subscriptions.Keys)
    }

    ghost function Now(): State
      reads this
    {
      State(subscriptions, counters, events)
    }

    method Emit(e: Event)
      modifies this`events
      ensures events == old(events) + [e]
    {
      events := events + [e];
    }

    method CreateSubscription(id: Id, config: Config, at: int) returns (ok: bool)
      requires Valid()
      modifies this
      ensures Valid() && ok == InOrder(supported, config)
      ensures Steps(supported, old(Now()), Now(), Create(id, config, at))
    {
      ok := ValidConfig(supported, config);
      InOrderIsValid(supported, config);
      if ok {
        if id !in subscriptions {
          order := order + [id];
        }
        subscriptions := subscriptions[id := Subscription(config, at, 0, None, Active)];
        Emit(Event(id, Subscribed, at));
        TouchesOnly(old(Now()), Now(), Event(id, Subscribed, at));
      }
    }

    method UpdateSubscription(id: Id, patch: Patch) returns (ok: bool)
      requires Valid()
      modifies this
      ensures Valid()
      ensures ok == (id in old(subscriptions) && ValidConfig(supported, Patched(old(subscriptions)[id].config, patch)))
      ensures Steps(supported, old(Now()), Now(), Update(id, patch))
    {
      if id !in subscriptions {
        return false;
      }
      var config := Patched(subscriptions[id].config, patch);
      ok := ValidConfig(supported, config);
      if ok {
        subscriptions := subscriptions[id := subscriptions[id].(config := config)];
      }
    }

    method RemoveSubscription(id: Id, at: int) returns (ok: bool)
      requires Valid()
      modifies this
      ensures Valid() && ok == (id in old(subscriptions))
      ensures Steps(supported, old(Now()), Now(), Remove(id, at))
    {
      ok := id in subscriptions;
      if ok {
        var k :| 0 <= k < |order| && order[k] == id;
        ListsWithout(order, subscriptions.Keys, k);
        order, subscriptions, counters := order[..k] + order[k + 1..], subscriptions - {id}, counters - {id};
        assert subscriptions.Keys == old(subscriptions).Keys - {id};
        Emit(Event(id, Unsubscribed, at));
        TouchesOnly(old(Now()), Now(), Event(id, Unsubscribed, at));
      }
    }

    method PauseSubscription(id: Id, at: int) returns (ok: bool)
      requires Valid()
      modifies this
      ensures Valid() && ok == (id in old(subscriptions))
      ensures Steps(supported, old(Now()), Now(), Pause(id, at))
    {
      ok := id in subscriptions;
      if ok {
        subscriptions := subscriptions[id := subscriptions[id].(status := Paused)];
        Emit(Event(id, WasPaused, at));
        TouchesOnly(old(Now()), Now(), Event(id, WasPaused, at));
      }
    }

    method ResumeSubscription(id: Id, at: int) returns (ok: bool)
      requires Valid()
      modifies this
      ensures Valid() && ok == (id in old(subscriptions))
      ensures Steps(supported, old(Now()), Now(), Resume(id, at))
    {
      ok := id in subscriptions;
      if ok {
        subscriptions := subscriptions[id := subscriptions[id].(status := Active)];
        Emit(Event(id, WasResumed, at));
        TouchesOnly(old(Now()), Now(), Event(id, WasResumed, at));
      }
    }

    method CheckRateLimit(id: Id, limit: int, now: int) returns (ok: bool)
      modifies this`counters
      ensures counters == old(counters)[id := Limit(old(Lookup(counters, id)), limit, now).0]
      ensures ok == Limit(old(Lookup(counters, id)), limit, now).1
    {
      if id !in counters || counters[id].resetAt <= now {
        counters := counters[id := Counter(0, now + MINUTE)];
      }
      if counters[id].count >= limit {
        return false;
      }
      counters := counters[id := counters[id].(count := counters[id].count + 1)];
      ok := true;
    }

    /** Offers a message to one subscription. */
    method Deliver(id: Id, m: Message, at: int, checkedAt: int)
      requires Valid() && id in subscriptions
      modifies this`subscriptions, this`counters, this`events
      ensures Valid() && Receives(old(Now()), Now(), id, m, at, checkedAt)
    {
      var sub := subscriptions[id];
      if sub.status != Active || !Matches(sub.config, m) {
        return;
      }
      if sub.config.rateLimit.Some? && sub.config.rateLimit.value != 0 {
        var ok := CheckRateLimit(id, sub.config.rateLimit.value, checkedAt);
        if !ok {
          Emit(Event(id, RateLimited, at));
          TouchReceives(old(Now()), Now(), m, checkedAt, Event(id, RateLimited, at));
          return;
        }
      }
      subscriptions := subscriptions[id := sub.(messageCount := sub.messageCount + 1, lastMessageAt := Some(at))];
      Emit(Event(id, Delivered(m), at));
      TouchReceives(old(Now()), Now(), m, checkedAt, Event(id, Delivered(m), at));
    }

    method ProcessMessage(m: Message, at: int, checkedAt: Id -> int)
      requires Valid()
      modifies this`subscriptions, this`counters, this`events
      ensures Valid() && Steps(supported, old(Now()), Now(), Process(m, at, checkedAt))
      ensures Hears(old(Now()), Now(), m)
    {
      ghost var start := Now();
      for k := 0 to |order|
        invariant Valid() && Served(start, Now(), order, k, m, at, checkedAt)
      {
        ghost var before := Now();
        Deliver(order[k], m, at, checkedAt(order[k]));
        ServedSnoc(start, before, Now(), order, k, m, at, checkedAt);
      }
      ServedAll(supported, start, Now(), order, m, at, checkedAt);
      StepsHear(supported, start, Now(), m, at, checkedAt);
    }

    method Apply(op: Op)
      requires Valid()
      modifies this
      ensures Valid() && Steps(supported, old(Now()), Now(), op)
    {
      match op {
        case Create(id, config, at) =>
          var _ := CreateSubscription(id, config, at);
        case Update(id, patch) =>
          var _ := UpdateSubscription(id, patch);
        case Remove(id, at) =>
          var _ := RemoveSubscription(id, at);
        case Pause(id, at) =>
          var _ := PauseSubscription(id, at);
        case Resume(id, at) =>
          var _ := ResumeSubscription(id, at);
        case Process(m, at, checkedAt) =>
          ProcessMessage(m, at, checkedAt);
      }
    }

    /** Any trace of operations: each subscription fares, and emits, as if it were alone. */
    method RunTrace(trace: seq<Op>)
      requires Valid()
      modifies this
      ensures Valid() && Runs(supported, old(Now()), Now(), trace, |trace|)
    {
      ghost var start := Now();
      for n := 0 to |trace|
        invariant Valid() && Runs(supported, start, Now(), trace, n)
      {
        ghost var before := Now();
        Apply(trace[n]);
        RunsSnoc(supported, start, before, Now(), trace, n);
      }
    }
  }

  // Pausing

  /** The operation ends a pause of the subscription. */
  ghost predicate EndsPause(supported: set<string>, id: Id, op: Op) {
    && (op.Resume? || op.Remove? || op.Create?) && op.id == id
    && (op.Create? ==> InOrder(supported, op.config))
  }

  ghost predicate PausesAt(supported: set<string>, s: Single, id: Id, trace: seq<Op>, i: nat)
    requires i < |trace|
  {
    trace[i].Pause? && trace[i].id == id && Run(supported, s, id, trace, i).0.sub.Some?
  }

  /** Operation `i` paused the subscription, and none before operation `n` ended the pause. */
  ghost predicate PausedSince(supported: set<string>, s: Single, id: Id, trace: seq<Op>, i: nat, n: nat)
    requires i < n <= |trace|
  {
    && PausesAt(supported, s, id, trace, i)
    && forall k :: i < k < n ==> !EndsPause(supported, id, trace[k])
  }

  ghost predicate IsPaused(supported: set<string>, s: Single, id: Id, trace: seq<Op>, n: nat)
    requires n <= |trace|
  {
    exists i :: 0 <= i < n && PausedSince(supported, s, id, trace, i, n)
  }

  lemma StepStatus(supported: set<string>, s: Single, s': Single, id: Id, op: Op)
    requires s' == Step(supported, s, id, op).0
    ensures s'.sub.Some? ==>
              (s'.sub.value.status == Paused
               <==> s.sub.Some? && ((op.Pause? && op.id == id)
                                    || (s.sub.value.status == Paused && !EndsPause(supported, id, op))))
    ensures s'.sub.Some? && s.sub.None? ==> EndsPause(supported, id, op)
  {
    if op.Create? {
      InOrderIsValid(supported, op.config);
    }
  }

  lemma PausedBefore(supported: set<string>, s: Single, id: Id, trace: seq<Op>, n: nat)
    requires 0 < n <= |trace| && IsPaused(supported, s, id, trace, n)
    ensures || PausesAt(supported, s, id, trace, n - 1)
            || (IsPaused(supported, s, id, trace, n - 1) && !EndsPause(supported, id, trace[n - 1]))
  {
    var i :| 0 <= i < n && PausedSince(supported, s, id, trace, i, n);
    assert i < n - 1 ==> PausedSince(supported, s, id, trace, i, n - 1);
  }

  lemma PausedAfter(supported: set<string>, s: Single, id: Id, trace: seq<Op>, n: nat)
    requires 0 < n <= |trace|
    requires || PausesAt(supported, s, id, trace, n - 1)
             || (IsPaused(supported, s, id, trace, n - 1) && !EndsPause(supported, id, trace[n - 1]))
    ensures IsPaused(supported, s, id, trace, n)
  {
    if PausesAt(supported, s, id, trace, n - 1) {
      assert PausedSince(supported, s, id, trace, n - 1, n);
    } else {
      var i :| 0 <= i < n - 1 && PausedSince(supported, s, id, trace, i, n - 1);
      assert PausedSince(supported, s, id, trace, i, n);
    }
  }

  /** The status tells whether a pause is standing. */
  ghost predicate StatusOk(s: Single, paused: bool) {
    s.sub.Some? ==> (s.sub.value.status == Paused <==> paused)
  }

  lemma StatusSnoc(supported: set<string>, s: Single, id: Id, trace: seq<Op>, n: nat, before: Single, after: Single)
    requires 0 < n <= |trace| && before == Run(supported, s, id, trace, n - 1).0
    requires after == Step(supported, before, id, trace[n - 1]).0
    requires StatusOk(before, IsPaused(supported, s, id, trace, n - 1))
    ensures StatusOk(after, IsPaused(supported, s, id, trace, n))
  {
    StepStatus(supported, before, after, id, trace[n - 1]);
    if IsPaused(supported, s, id, trace, n) {
      PausedBefore(supported, s, id, trace, n);
    } else if PausesAt(supported, s, id, trace, n - 1)
              || (IsPaused(supported, s, id, trace, n - 1) && !EndsPause(supported, id, trace[n - 1])) {
      PausedAfter(supported, s, id, trace, n);
    }
  }

  /** Through any trace, the status tells whether a pause has not been ended. */
  lemma {:induction false} StatusIsLast(supported: set<string>, s: Single, id: Id, trace: seq<Op>, n: nat)
    requires n <= |trace| && (s.sub.Some? ==> s.sub.value.status == Active)
    ensures StatusOk(Run(supported, s, id, trace, n).0, IsPaused(supported, s, id, trace, n))
  {
    if n == 0 {
    } else {
      StatusIsLast(supported, s, id, trace, n - 1);
      StatusSnoc(supported, s, id, trace, n, Run(supported, s, id, trace, n - 1).0, Run(supported, s, id, trace, n).0);
    }
  }

  /**
   * Through any trace, a message makes a subscription emit exactly when the subscription is there, no pause is
   * standing, and it asked for the message.
   */
  lemma HeardUnlessPaused(supported: set<string>, s: Single, id: Id, trace: seq<Op>, k: nat)
    requires k < |trace| && trace[k].Process? && (s.sub.Some? ==> s.sub.value.status == Active)
    ensures var now := Run(supported, s, id, trace, k).0;
            && (Step(supported, now, id, trace[k]).1 != []
                <==> && now.sub.Some? && !IsPaused(supported, s, id, trace, k)
                     && AskedFor(now.sub.value.config, trace[k].message))
            && (IsPaused(supported, s, id, trace, k) ==> Step(supported, now, id, trace[k]) == (now, []))
  {
    var now := Run(supported, s, id, trace, k).0;
    StatusIsLast(supported, s, id, trace, k);
    MessageReaches(supported, now, id, trace[k].message, trace[k].at, trace[k].checkedAt);
  }

  // Message counts

  /** The messages delivered since the subscription was last created. */
  function DeliveredSince(events: seq<Event>): nat {
    if events == [] then 0
    else
      var last, before := events[|events| - 1].kind, events[..|events| - 1];
      if last.Subscribed? then 0 else DeliveredSince(before) + if last.Delivered? then 1 else 0
  }

  /** The stamp of the last of them. */
  function LastDelivered(events: seq<Event>): Option<int> {
    if events == [] then None
    else
      var last := events[|events| - 1];
      if last.kind.Subscribed? then None
      else if last.kind.Delivered? then Some(last.at)
      else LastDelivered(events[..|events| - 1])
  }

  /** A subscription's statistics are those of the messages delivered since creation. */
  ghost predicate Counts(run: (Single, seq<Event>)) {
    run.0.sub.Some? ==>
      run.0.sub.value.messageCount == DeliveredSince(run.1) && run.0.sub.value.lastMessageAt == LastDelivered(run.1)
  }

  lemma StepCounts(supported: set<string>, run: (Single, seq<Event>), id: Id, op: Op)
    requires Counts(run)
    ensures Counts(After(run, Step(supported, run.0, id, op)))
  {
    var step := Step(supported, run.0, id, op);
    if step.1 != [] {
      assert |step.1| == 1 && (run.1 + step.1)[..|run.1|] == run.1;
    }
  }

  /** From an empty manager, the statistics are those of the messages emitted for the subscription. */
  lemma {:induction false} MessageCountIsDelivered(supported: set<string>, id: Id, trace: seq<Op>, n: nat)
    requires n <= |trace|
    ensures Counts(Run(supported, Single(None, None), id, trace, n))
  {
    if n == 0 {
    } else {
      MessageCountIsDelivered(supported, id, trace, n - 1);
      StepCounts(supported, Run(supported, Single(None, None), id, trace, n - 1), id, trace[n - 1]);
    }
  }

  /** In a manager that started empty, statistics are those of the messages emitted since creation. */
  lemma ManagerCounts(supported: set<string>, b: State, trace: seq<Op>, id: Id)
    requires Runs(supported, State(map[], map[], []), b, trace, |trace|) && id in b.subscriptions
    ensures b.subscriptions[id].messageCount == DeliveredSince(EventsOf(b.events, id))
    ensures b.subscriptions[id].lastMessageAt == LastDelivered(EventsOf(b.events, id))
  {
    var empty := State(map[], map[], []);
    var run := Run(supported, empty.View(id), id, trace, |trace|);
    MessageCountIsDelivered(supported, id, trace, |trace|);
    assert b.Fare(id) == After(empty.Fare(id), run);
    assert [] + run.1 == run.1;
  }

  lemma RunsOn(supported: set<string>, s: Single, id: Id, trace: seq<Op>, n: nat)
    requires 0 < n <= |trace|
    ensures Run(supported, s, id, trace, n).0
            == Step(supported, Run(supported, s, id, trace, n - 1).0, id, trace[n - 1]).0
  {
  }

  /** A removal leaves no trace: what follows goes as for an id that was never used. */
  lemma {:induction false} RemovalForgets(supported: set<string>, s: Single, id: Id, trace: seq<Op>, k: nat, n: nat)
    requires k < n <= |trace| && trace[k].Remove? && trace[k].id == id
    requires Run(supported, s, id, trace, k).0.sub.Some?
    ensures Run(supported, s, id, trace, n).0 == Run(supported, Single(None, None), id, trace[k + 1..], n - k - 1).0
  {
    if n == k + 1 {
    } else {
      RemovalForgets(supported, s, id, trace, k, n - 1);
      RunsOn(supported, s, id, trace, n);
      RunsOn(supported, Single(None, None), id, trace[k + 1..], n - k - 1);
    }
  }

  // The rate limiter over whole runs: checks at the given times, starting with a counter or none

  function CounterAt(limit: int, start: Option<Counter>, times: seq<int>, n: nat): Option<Counter>
    requires n <= |times|
  {
    if n == 0 then start else Some(Limit(CounterAt(limit, start, times, n - 1), limit, times[n - 1]).0)
  }

  predicate Passes(limit: int, start: Option<Counter>, times: seq<int>, k: nat)
    requires k < |times|
  {
    Limit(CounterAt(limit, start, times, k), limit, times[k]).1
  }

  predicate InMinute(t: int, now: int) {
    t <= now < t + 60000
  }

  /** How many of the first `n` checks pass in the minute that starts at `t`. */
  function PassedIn(limit: int, start: Option<Counter>, times: seq<int>, t: int, n: nat): nat
    requires n <= |times|
  {
    if n == 0 then 0
    else
      PassedIn(limit, start, times, t, n - 1)
      + if Passes(limit, start, times, n - 1) && InMinute(t, times[n - 1]) then 1 else 0
  }

  ghost predicate NonDecreasing(times: seq<int>) {
    forall i, j :: 0 <= i < j < |times| ==> times[i] <= times[j]
  }

  /** A counter, if there is one, has counted its window's first pass, which came before the checks. */
  ghost predicate GoodStart(start: Option<Counter>, times: seq<int>) {
    start.Some? ==> start.value.count >= 1 && (times != [] ==> start.value.resetAt - MINUTE <= times[0])
  }

  lemma {:induction false} NonePassedYet(limit: int, start: Option<Counter>, times: seq<int>, t: int, n: nat)
    requires n <= |times| && forall k :: 0 <= k < n ==> times[k] < t
    ensures PassedIn(limit, start, times, t, n) == 0
  {
    if n == 0 {
    } else {
      NonePassedYet(limit, start, times, t, n - 1);
    }
  }

  /** The most passes a minute from `t` can hold, given the current counter. */
  function MinuteBound(limit: int, c: Counter, t: int): int {
    var opening := c.resetAt - MINUTE;
    var counted := if c.count < limit then c.count else limit;
    if opening < t then counted - 1 else if opening < t + MINUTE then limit - 1 + counted else 2 * limit - 1
  }

  /** The count with which the window of `c` began: nothing, unless it is still the window of the start. */
  function Inherited(start: Option<Counter>, c: Counter): nat {
    if start.Some? && start.value.resetAt == c.resetAt then start.value.count else 0
  }

  /** The current window has seen as many passes as its counter grew, and the counter stays within the limit. */
  ghost predicate Window(limit: int, start: Option<Counter>, times: seq<int>, n: nat)
    requires 0 < n <= |times|
  {
    var c := CounterAt(limit, start, times, n).value;
    && 1 <= c.count && (c.count <= limit || c.count == Inherited(start, c))
    && InMinute(c.resetAt - MINUTE, times[n - 1])
    && PassedIn(limit, start, times, c.resetAt - MINUTE, n) + Inherited(start, c) == c.count
    && (start.Some? ==> start.value.resetAt <= c.resetAt)
  }

  /** The window is in order, and the minute from `t` within its bound. */
  ghost predicate Bounded(limit: int, start: Option<Counter>, times: seq<int>, n: nat, t: int)
    requires n <= |times|
  {
    if n == 0 then GoodStart(start, times)
    else
      && Window(limit, start, times, n)
      && PassedIn(limit, start, times, t, n) <= MinuteBound(limit, CounterAt(limit, start, times, n).value, t)
  }

  /** A check that opens a window passes, and all earlier ones came before the window. */
  lemma OpensWindow(limit: int, start: Option<Counter>, times: seq<int>, n: nat, t: int)
    requires limit > 0 && 0 < n <= |times| && NonDecreasing(times) && Bounded(limit, start, times, n - 1, t)
    requires var before := CounterAt(limit, start, times, n - 1); before.None? || before.value.resetAt <= times[n - 1]
    ensures Bounded(limit, start, times, n, t)
  {
    var now := times[n - 1];
    assert n > 1 ==> times[n - 2] < now;
    assert forall k :: 0 <= k < n - 1 ==> times[k] <= times[n - 2];
    NonePassedYet(limit, start, times, now, n - 1);
    if now < t {
      NonePassedYet(limit, start, times, t, n - 1);
    }
  }

  /** A check inside a window passes if the counter is below the limit. */
  lemma StaysInWindow(limit: int, start: Option<Counter>, times: seq<int>, n: nat, t: int)
    requires limit > 0 && 0 < n <= |times| && NonDecreasing(times) && Bounded(limit, start, times, n - 1, t)
    requires var before := CounterAt(limit, start, times, n - 1); before.Some? && times[n - 1] < before.value.resetAt
    ensures Bounded(limit, start, times, n, t)
  {
    assert n > 1 ==> times[n - 2] <= times[n - 1];
  }

  /**
   * Every window stays within the limit, and every minute within its bound: a window opens with a pass,
   * so a minute that meets two windows misses the first pass of the earlier one.
   */
  lemma {:induction false} WindowInvariant(limit: int, start: Option<Counter>, times: seq<int>, n: nat, t: int)
    requires limit > 0 && n <= |times| && NonDecreasing(times) && GoodStart(start, times)
    ensures Bounded(limit, start, times, n, t)
  {
    if n == 0 {
    } else {
      WindowInvariant(limit, start, times, n - 1, t);
      var before := CounterAt(limit, start, times, n - 1);
      if before.None? || before.value.resetAt <= times[n - 1] {
        OpensWindow(limit, start, times, n, t);
      } else {
        StaysInWindow(limit, start, times, n, t);
      }
    }
  }

  /** With a limit and a monotone clock, no minute holds more than twice the limit less one. */
  lemma RateBound(limit: int, start: Option<Counter>, times: seq<int>, t: int)
    requires limit > 0 && NonDecreasing(times) && GoodStart(start, times)
    ensures PassedIn(limit, start, times, t, |times|) <= 2 * limit - 1
  {
    if times != [] {
      WindowInvariant(limit, start, times, |times|, t);
    }
  }

  // What the stamps show: a message is stamped when it comes in, and checked a little later

  /** Each check follows its stamp and precedes the next stamp. */
  ghost predicate Stamped(stamps: seq<int>, times: seq<int>) {
    && |stamps| == |times|
    && (forall i :: 0 <= i < |times| ==> stamps[i] <= times[i])
    && (forall i, j :: 0 <= i < j < |times| ==> times[i] <= stamps[j])
  }

  lemma StampedInOrder(stamps: seq<int>, times: seq<int>)
    requires Stamped(stamps, times)
    ensures NonDecreasing(times)
  {
    assert forall i, j :: 0 <= i < j < |times| ==> times[i] <= stamps[j] <= times[j];
  }

  /** How many of the first `n` checks pass for messages stamped in the minute that starts at `t`. */
  function StampedIn(limit: int, start: Option<Counter>, times: seq<int>, stamps: seq<int>, t: int, n: nat): nat
    requires n <= |times| == |stamps|
  {
    if n == 0 then 0
    else
      StampedIn(limit, start, times, stamps, t, n - 1)
      + if Passes(limit, start, times, n - 1) && InMinute(t, stamps[n - 1]) then 1 else 0
  }

  /** At most one message of a minute is checked after it. */
  lemma {:induction false} OneStraddles(limit: int, start: Option<Counter>, times: seq<int>, stamps: seq<int>,
                                        t: int, n: nat)
    requires n <= |times| && Stamped(stamps, times)
    ensures StampedIn(limit, start, times, stamps, t, n)
            <= PassedIn(limit, start, times, t, n) + if n > 0 && times[n - 1] >= t + MINUTE then 1 else 0
  {
    if n == 0 {
    } else {
      OneStraddles(limit, start, times, stamps, t, n - 1);
      assert n > 1 ==> times[n - 2] <= stamps[n - 1] <= times[n - 1];
    }
  }

  /** By their stamps, no minute holds more than twice the limit. */
  lemma StampedRateBound(limit: int, start: Option<Counter>, times: seq<int>, stamps: seq<int>, t: int)
    requires limit > 0 && Stamped(stamps, times) && GoodStart(start, times)
    ensures StampedIn(limit, start, times, stamps, t, |times|) <= 2 * limit
  {
    StampedInOrder(stamps, times);
    RateBound(limit, start, times, t);
    OneStraddles(limit, start, times, stamps, t, |times|);
  }

  // Both bounds are met

  /** One check opens a window, the rest come at its end, and as many again when the next one opens. */
  function Burst(limit: nat): seq<int> {
    seq(2 * limit, i => if i == 0 then 0 else if i < limit then MINUTE - 1 else MINUTE)
  }

  lemma {:induction false} BurstPasses(limit: nat, n: nat)
    requires 0 < n <= 2 * limit
    ensures CounterAt(limit, None, Burst(limit), n)
            == Some(if n <= limit then Counter(n, MINUTE) else Counter(n - limit, 2 * MINUTE))
    ensures PassedIn(limit, None, Burst(limit), MINUTE - 1, n) == n - 1
    ensures StampedIn(limit, None, Burst(limit), Burst(limit), MINUTE - 1, n) == n - 1
  {
    if n == 1 {
    } else {
      BurstPasses(limit, n - 1);
    }
  }

  /** For every limit some run passes twice the limit less one checks in a minute. */
  lemma RateBoundIsMet(limit: nat)
    requires limit > 0
    ensures NonDecreasing(Burst(limit))
    ensures PassedIn(limit, None, Burst(limit), MINUTE - 1, |Burst(limit)|) == 2 * limit - 1
  {
    BurstPasses(limit, 2 * limit);
  }

  /** With one more message, stamped in the minute and checked when the third window opens, the stamps show 2L. */
  lemma StampedRateBoundIsMet(limit: nat)
    requires limit > 0
    ensures var times, stamps := Burst(limit) + [2 * MINUTE], Burst(limit) + [2 * MINUTE - 2];
            Stamped(stamps, times) && StampedIn(limit, None, times, stamps, MINUTE - 1, |times|) == 2 * limit
  {
    var burst := Burst(limit);
    var times, stamps := burst + [2 * MINUTE], burst + [2 * MINUTE - 2];
    BurstPasses(limit, 2 * limit);
    EarlierChecksAgree(limit, None, burst, [2 * MINUTE], burst, [2 * MINUTE - 2], MINUTE - 1, |burst|);
    assert times[|burst|] == 2 * MINUTE && stamps[|burst|] == 2 * MINUTE - 2;
  }

  lemma {:induction false} EarlierChecksAgree(limit: int, start: Option<Counter>, times: seq<int>, more: seq<int>,
                                              stamps: seq<int>, more': seq<int>, t: int, n: nat)
    requires n <= |times| == |stamps| && |more| == |more'|
    ensures CounterAt(limit, start, times + more, n) == CounterAt(limit, start, times, n)
    ensures PassedIn(limit, start, times + more, t, n) == PassedIn(limit, start, times, t, n)
    ensures StampedIn(limit, start, times + more, stamps + more', t, n) == StampedIn(limit, start, times, stamps, t, n)
  {
    if n == 0 {
    } else {
      EarlierChecksAgree(limit, start, times, more, stamps, more', t, n - 1);
      assert (times + more)[n - 1] == times[n - 1] && (stamps + more')[n - 1] == stamps[n - 1];
    }
  }

  // The bounds for a subscription in a manager

  /** At operation `k` the subscription is there with the given rate limit, and is neither created nor removed. */
  ghost predicate SteadyAt(supported: set<string>, s: Single, id: Id, trace: seq<Op>, limit: int, k: nat)
    requires k < |trace|
  {
    && !(trace[k].Create? && trace[k].id == id) && !(trace[k].Remove? && trace[k].id == id)
    && var sub := Run(supported, s, id, trace, k).0.sub; sub.Some? && sub.value.config.rateLimit == Some(limit)
  }

  ghost predicate Steady(supported: set<string>, s: Single, id: Id, trace: seq<Op>, limit: int) {
    forall k :: 0 <= k < |trace| ==> SteadyAt(supported, s, id, trace, limit, k)
  }

  /** The events that operation `k` makes the subscription emit. */
  function Emitted(supported: set<string>, s: Single, id: Id, trace: seq<Op>, k: nat): seq<Event>
    requires k < |trace|
  {
    Step(supported, Run(supported, s, id, trace, k).0, id, trace[k]).1
  }

  /** Whether operation `k` has the subscription check its rate. */
  predicate Checks(supported: set<string>, s: Single, id: Id, trace: seq<Op>, k: nat)
    requires k < |trace|
  {
    trace[k].Process? && Emitted(supported, s, id, trace, k) != []
  }

  /** The clock readings of the rate checks made for the subscription. */
  function CheckTimes(supported: set<string>, s: Single, id: Id, trace: seq<Op>, n: nat): seq<int>
    requires n <= |trace|
  {
    if n == 0 then []
    else
      var before := CheckTimes(supported, s, id, trace, n - 1);
      if Checks(supported, s, id, trace, n - 1) then before + [trace[n - 1].checkedAt(id)] else before
  }

  /** The stamps of the messages checked. */
  function StampTimes(supported: set<string>, s: Single, id: Id, trace: seq<Op>, n: nat): seq<int>
    requires n <= |trace|
  {
    if n == 0 then []
    else
      var before := StampTimes(supported, s, id, trace, n - 1);
      if Checks(supported, s, id, trace, n - 1) then before + [trace[n - 1].at] else before
  }

  /** How many messages the subscription accepted in the minute that starts at `t`, by the checks' clock. */
  function AcceptedIn(supported: set<string>, s: Single, id: Id, trace: seq<Op>, t: int, n: nat): nat
    requires n <= |trace|
  {
    if n == 0 then 0
    else
      var emitted := Emitted(supported, s, id, trace, n - 1);
      AcceptedIn(supported, s, id, trace, t, n - 1)
      + if emitted != [] && emitted[0].kind.Delivered? && InMinute(t, trace[n - 1].checkedAt(id)) then 1 else 0
  }

  /** How many of the events deliver a message and are stamped in the minute that starts at `t`. */
  function DeliveredIn(events: seq<Event>, t: int): nat {
    if events == [] then 0
    else
      var last := events[|events| - 1];
      DeliveredIn(events[..|events| - 1], t) + if last.kind.Delivered? && InMinute(t, last.at) then 1 else 0
  }

  lemma DeliveredInSnoc(events: seq<Event>, e: Event, t: int)
    ensures DeliveredIn(events + [e], t)
            == DeliveredIn(events, t) + if e.kind.Delivered? && InMinute(t, e.at) then 1 else 0
  {
    assert (events + [e])[..|events|] == events;
  }

  lemma {:induction false} DeliveredInConcat(before: seq<Event>, events: seq<Event>, t: int)
    ensures DeliveredIn(before + events, t) == DeliveredIn(before, t) + DeliveredIn(events, t)
  {
    if events == [] {
      assert before + events == before;
    } else {
      var n := |events| - 1;
      DeliveredInConcat(before, events[..n], t);
      assert (before + events)[..|before + events| - 1] == before + events[..n];
    }
  }

  lemma OneMoreCheck(limit: int, start: Option<Counter>, times: seq<int>, now: int,
                     stamps: seq<int>, stamp: int, t: int)
    requires |stamps| == |times|
    ensures var (c, ok) := Limit(CounterAt(limit, start, times, |times|), limit, now);
            && CounterAt(limit, start, times + [now], |times| + 1) == Some(c)
            && PassedIn(limit, start, times + [now], t, |times| + 1)
               == PassedIn(limit, start, times, t, |times|) + (if ok && InMinute(t, now) then 1 else 0)
            && StampedIn(limit, start, times + [now], stamps + [stamp], t, |times| + 1)
               == StampedIn(limit, start, times, stamps, t, |times|) + if ok && InMinute(t, stamp) then 1 else 0
  {
    EarlierChecksAgree(limit, start, times, [now], stamps, [stamp], t, |times|);
  }

  /** A step that checks the limiter when `checks`, and else leaves the counter alone. */
  ghost predicate ChecksLimiter(s: Single, step: (Single, seq<Event>), checks: bool, limit: int, now: int, stamp: int) {
    && |step.1| <= 1
    && if checks then
         var (c, ok) := Limit(s.counter, limit, now);
         step.0.counter == Some(c) && |step.1| == 1 && step.1[0].at == stamp && step.1[0].kind.Delivered? == ok
       else
         step.0.counter == s.counter && (step.1 != [] ==> !step.1[0].kind.Delivered?)
  }

  /** One operation checks the limiter when it is a matching message. */
  lemma StepChecks(supported: set<string>, s: Single, id: Id, op: Op, limit: int)
    requires limit > 0 && s.sub.Some? && s.sub.value.config.rateLimit == Some(limit)
    requires !(op.Create? && op.id == id) && !(op.Remove? && op.id == id)
    ensures var step := Step(supported, s, id, op);
            && (op.Process? && step.1 != [] ==> ChecksLimiter(s, step, true, limit, op.checkedAt(id), op.at))
            && (!(op.Process? && step.1 != []) ==> ChecksLimiter(s, step, false, limit, 0, 0))
  {
  }

  /** The limiter run on the check times has the given counter, and passes what was accepted and emitted. */
  ghost predicate Tracked(limit: int, start: Option<Counter>, times: seq<int>, stamps: seq<int>,
                          run: (Single, seq<Event>), accepted: nat, t: int) {
    && |stamps| == |times|
    && CounterAt(limit, start, times, |times|) == run.0.counter
    && PassedIn(limit, start, times, t, |times|) == accepted
    && StampedIn(limit, start, times, stamps, t, |times|) == DeliveredIn(run.1, t)
  }

  lemma StillTracked(limit: int, start: Option<Counter>, times: seq<int>, stamps: seq<int>, run: (Single, seq<Event>),
                     accepted: nat, t: int, step: (Single, seq<Event>))
    requires Tracked(limit, start, times, stamps, run, accepted, t)
    requires ChecksLimiter(run.0, step, false, limit, 0, 0)
    ensures Tracked(limit, start, times, stamps, After(run, step), accepted, t)
  {
    if step.1 != [] {
      assert step.1 == [step.1[0]];
      DeliveredInSnoc(run.1, step.1[0], t);
    }
  }

  lemma TracksCheck(limit: int, start: Option<Counter>, times: seq<int>, stamps: seq<int>, run: (Single, seq<Event>),
                    accepted: nat, t: int, step: (Single, seq<Event>), now: int, stamp: int)
    requires Tracked(limit, start, times, stamps, run, accepted, t)
    requires ChecksLimiter(run.0, step, true, limit, now, stamp)
    ensures var more := if step.1[0].kind.Delivered? && InMinute(t, now) then 1 else 0;
            Tracked(limit, start, times + [now], stamps + [stamp], After(run, step), accepted + more, t)
  {
    assert step.1 == [step.1[0]];
    DeliveredInSnoc(run.1, step.1[0], t);
    OneMoreCheck(limit, start, times, now, stamps, stamp, t);
  }

  /** The limiter tracks the subscription through the first `n` operations. */
  ghost predicate Tracks(supported: set<string>, s: Single, id: Id, trace: seq<Op>, limit: int, t: int, n: nat)
    requires n <= |trace|
  {
    Tracked(limit, s.counter, CheckTimes(supported, s, id, trace, n), StampTimes(supported, s, id, trace, n),
            Run(supported, s, id, trace, n), AcceptedIn(supported, s, id, trace, t, n), t)
  }

  lemma SteadyStep(supported: set<string>, s: Single, id: Id, trace: seq<Op>, limit: int, t: int, n: nat)
    requires limit > 0 && 0 < n <= |trace| && SteadyAt(supported, s, id, trace, limit, n - 1)
    requires Tracks(supported, s, id, trace, limit, t, n - 1)
    ensures Tracks(supported, s, id, trace, limit, t, n)
  {
    var op, run := trace[n - 1], Run(supported, s, id, trace, n - 1);
    var times, stamps := CheckTimes(supported, s, id, trace, n - 1), StampTimes(supported, s, id, trace, n - 1);
    var accepted, step := AcceptedIn(supported, s, id, trace, t, n - 1), Step(supported, run.0, id, op);
    StepChecks(supported, run.0, id, op, limit);
    if Checks(supported, s, id, trace, n - 1) {
      TracksCheck(limit, s.counter, times, stamps, run, accepted, t, step, op.checkedAt(id), op.at);
    } else {
      StillTracked(limit, s.counter, times, stamps, run, accepted, t, step);
    }
  }

  /** A steady subscription accepts exactly the messages whose checks the limiter passes. */
  lemma {:induction false} SteadyIsLimiter(supported: set<string>, s: Single, id: Id, trace: seq<Op>,
                                           limit: int, t: int, n: nat)
    requires limit > 0 && Steady(supported, s, id, trace, limit) && n <= |trace|
    ensures Tracks(supported, s, id, trace, limit, t, n)
  {
    if n == 0 {
    } else {
      SteadyIsLimiter(supported, s, id, trace, limit, t, n - 1);
      SteadyStep(supported, s, id, trace, limit, t, n);
    }
  }

  /** The clock never runs back: a message is checked after it is stamped and before the next is. */
  ghost predicate Timely(id: Id, trace: seq<Op>) {
    && (forall i :: 0 <= i < |trace| && trace[i].Process? ==> trace[i].at <= trace[i].checkedAt(id))
    && (forall i, j :: 0 <= i < j < |trace| && trace[i].Process? && trace[j].Process? ==>
          trace[i].checkedAt(id) <= trace[j].at)
  }

  /** The counter's window opened before any check of the trace. */
  ghost predicate OpenedBefore(counter: Option<Counter>, id: Id, trace: seq<Op>) {
    counter.Some? ==>
      && counter.value.count >= 1
      && forall i :: 0 <= i < |trace| && trace[i].Process? ==> counter.value.resetAt - MINUTE <= trace[i].checkedAt(id)
  }

  /** The checks of a timely trace are stamped in turn, after the counter's window opened. */
  lemma {:induction false} ChecksAreStamped(supported: set<string>, s: Single, id: Id, trace: seq<Op>, n: nat)
    requires n <= |trace| && Timely(id, trace) && OpenedBefore(s.counter, id, trace)
    ensures var times, stamps := CheckTimes(supported, s, id, trace, n), StampTimes(supported, s, id, trace, n);
            && Stamped(stamps, times) && GoodStart(s.counter, times)
            && forall k, j :: 0 <= k < |times| && n <= j < |trace| && trace[j].Process? ==> times[k] <= trace[j].at
  {
    if n == 0 {
    } else {
      ChecksAreStamped(supported, s, id, trace, n - 1);
    }
  }

  /** By the checks' clock a minute holds fewer messages than twice the limit, and by the stamps no more than that. */
  lemma SubscriptionRateBound(supported: set<string>, s: Single, id: Id, trace: seq<Op>, limit: int, t: int)
    requires limit > 0 && Steady(supported, s, id, trace, limit)
    requires Timely(id, trace) && OpenedBefore(s.counter, id, trace)
    ensures AcceptedIn(supported, s, id, trace, t, |trace|) <= 2 * limit - 1
    ensures DeliveredIn(Run(supported, s, id, trace, |trace|).1, t) <= 2 * limit
  {
    var n := |trace|;
    var times, stamps := CheckTimes(supported, s, id, trace, n), StampTimes(supported, s, id, trace, n);
    SteadyIsLimiter(supported, s, id, trace, limit, t, n);
    ChecksAreStamped(supported, s, id, trace, n);
    StampedInOrder(stamps, times);
    RateBound(limit, s.counter, times, t);
    StampedRateBound(limit, s.counter, times, stamps, t);
  }

  ghost predicate OpenedAt(id: Id, trace: seq<Op>, resetAt: int, i: nat)
    requires i < |trace|
  {
    trace[i].Process? && resetAt - MINUTE == trace[i].checkedAt(id)
  }

  ghost predicate OpenedIn(id: Id, trace: seq<Op>, resetAt: int, n: nat)
    requires n <= |trace|
  {
    exists i :: 0 <= i < n && OpenedAt(id, trace, resetAt, i)
  }

  /** The counter has counted a check, and some check opened its window. */
  ghost predicate Opened(s: Single, id: Id, trace: seq<Op>, n: nat)
    requires n <= |trace|
  {
    && (s.sub.Some? && s.sub.value.config.rateLimit.Some? ==> s.sub.value.config.rateLimit.value >= 0)
    && (s.counter.Some? ==> s.counter.value.count >= 1 && OpenedIn(id, trace, s.counter.value.resetAt, n))
  }

  lemma StepOpens(supported: set<string>, s: Single, s': Single, id: Id, trace: seq<Op>, n: nat)
    requires n < |trace| && Opened(s, id, trace, n) && s' == Step(supported, s, id, trace[n]).0
    ensures Opened(s', id, trace, n + 1)
  {
    if s'.counter.Some? && (s.counter.None? || s'.counter.value.resetAt != s.counter.value.resetAt) {
      assert OpenedAt(id, trace, s'.counter.value.resetAt, n);
    }
  }

  lemma {:induction false} CountersOpened(supported: set<string>, s: Single, id: Id, trace: seq<Op>, n: nat)
    requires n <= |trace| && Opened(s, id, trace, 0)
    ensures Opened(Run(supported, s, id, trace, n).0, id, trace, n)
  {
    if n == 0 {
    } else {
      CountersOpened(supported, s, id, trace, n - 1);
      var before, after := Run(supported, s, id, trace, n - 1).0, Run(supported, s, id, trace, n).0;
      StepOpens(supported, before, after, id, trace, n - 1);
    }
  }

  /**
   * A manager that starts empty and then, through `trace`, holds a subscription with a steady limit: however it came
   * to that, a minute holds no more of the trace's deliveries than twice the limit.
   */
  lemma ManagerRateBound(supported: set<string>, b: State, c: State, before: seq<Op>, trace: seq<Op>,
                         id: Id, limit: int, t: int)
    requires Runs(supported, State(map[], map[], []), b, before, |before|) && Runs(supported, b, c, trace, |trace|)
    requires limit > 0 && Steady(supported, b.View(id), id, trace, limit) && Timely(id, before + trace)
    ensures AcceptedIn(supported, b.View(id), id, trace, t, |trace|) <= 2 * limit - 1
    ensures DeliveredIn(EventsOf(c.events, id), t) <= DeliveredIn(EventsOf(b.events, id), t) + 2 * limit
  {
    var empty := State(map[], map[], []);
    assert b.Fare(id) == After(empty.Fare(id), Run(supported, empty.View(id), id, before, |before|));
    CountersOpened(supported, empty.View(id), id, before, |before|);
    LaterIsTimely(b.View(id), id, before, trace);
    SubscriptionRateBound(supported, b.View(id), id, trace, limit, t);
    var run := Run(supported, b.View(id), id, trace, |trace|);
    assert c.Fare(id) == After(b.Fare(id), run);
    DeliveredInConcat(EventsOf(b.events, id), run.1, t);
  }

  lemma LaterIsTimely(s: Single, id: Id, before: seq<Op>, trace: seq<Op>)
    requires Opened(s, id, before, |before|) && Timely(id, before + trace)
    ensures Timely(id, trace) && OpenedBefore(s.counter, id, trace)
  {
    var all := before + trace;
    assert forall i :: 0 <= i < |before| ==> all[i] == before[i];
    assert forall i :: 0 <= i < |trace| ==> all[|before| + i] == trace[i];
  }
}
