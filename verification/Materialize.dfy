/** Turning new alert events into dispatch jobs and digest entries, with the cooldown that drops repeats. */
module Materialize {
  import opened Common
  import opened Digests
  import opened Lifecycle
  import opened Text

  datatype AlertEvent = AlertEvent(id: string, eventType: string, severity: string, fingerprint: Option<string>,
                                   createdAt: int)

  datatype Rule = Rule(id: string, eventType: string, severityMin: string, cooldown: int, maxAttempts: int)

  datatype Route = Route(id: string, recipients: seq<string>, mode: string, windowMinutes: int)

  /** A dispatch job with what the dedupe query joins to it. */
  datatype Job = Job(event: AlertEvent, rule: Rule, route: string, madeAt: int, row: Row)

  /** The store: jobs in creation order, digests, and the events that are no longer new. */
  datatype Store = Store(jobs: seq<Job>, digests: Rows, processed: set<string>)

  /** One event meeting one route of a matching rule. */
  datatype Item = Item(event: AlertEvent, rule: Rule, route: Route)

  function Norm(s: string): string {
    Lower(Trim(s))
  }

  function SeverityRank(s: string): nat {
    var n := Norm(s);
    if n == "info" then 1 else if n == "warn" then 2 else if n == "error" then 3 else if n == "critical" then 4 else 0
  }

  predicate Matches(rule: Rule, e: AlertEvent) {
    var ruleType := Norm(rule.eventType);
    (ruleType == "*" || ruleType == "any" || ruleType == Norm(e.eventType)) &&
    SeverityRank(e.severity) >= SeverityRank(rule.severityMin)
  }

  predicate HasFingerprint(e: AlertEvent) {
    e.fingerprint.Some? && Trim(e.fingerprint.value) != ""
  }

  predicate IsDigest(route: Route) {
    Norm(route.mode) == "digest"
  }

  /** A job that has not failed, for this route and fingerprint, whose event is not older than `since`. */
  predicate IsRecent(j: Job, route: string, fingerprint: Option<string>, since: int) {
    j.route == route && j.event.fingerprint == fingerprint && j.event.createdAt >= since && j.row.status != Failed
  }

  predicate HasRecent(jobs: seq<Job>, route: string, fingerprint: Option<string>, since: int) {
    exists k :: 0 <= k < |jobs| && IsRecent(jobs[k], route, fingerprint, since)
  }

  predicate Suppressed(jobs: seq<Job>, it: Item, now: int) {
    HasFingerprint(it.event) && it.rule.cooldown > 0 &&
    HasRecent(jobs, it.route.id, it.event.fingerprint, now - it.rule.cooldown)
  }

  function DigestEvent(it: Item): Event {
    Event(it.event.id, it.event.eventType, it.event.severity)
  }

  /** The key of the digest that the item goes to. */
  function DigestKey(it: Item, now: int): Key {
    KeyFor(it.route.id, it.route.windowMinutes, DigestEvent(it), now)
  }

  function NewJob(it: Item, now: int): Job {
    Job(it.event, it.rule, it.route.id, now, Created(it.rule.maxAttempts, now))
  }

  /** What one item does to the store. */
  function Handle(s: Store, it: Item, now: int): Store {
    if it.route.recipients == [] then s
    else if IsDigest(it.route) then
      s.(digests := Upserted(s.digests, it.route.id, it.route.windowMinutes, it.rule.maxAttempts, DigestEvent(it), now))
    else if Suppressed(s.jobs, it, now) then s
    else s.(jobs := s.jobs + [NewJob(it, now)])
  }

  function HandleAll(s: Store, items: seq<Item>, now: int): Store {
    if items == [] then s else Handle(HandleAll(s, items[..|items| - 1], now), items[|items| - 1], now)
  }

  // ---------------------------------------------------------------- the items of a tick

  function RouteItems(e: AlertEvent, rule: Rule, routes: seq<Route>): seq<Item> {
    if routes == [] then [] else RouteItems(e, rule, routes[..|routes| - 1]) + [Item(e, rule, routes[|routes| - 1])]
  }

  function RuleItems(e: AlertEvent, rules: seq<Rule>, routesOf: string -> seq<Route>): seq<Item> {
    if rules == [] then []
    else
      var rule := rules[|rules| - 1];
      RuleItems(e, rules[..|rules| - 1], routesOf) +
      if Matches(rule, e) then RouteItems(e, rule, routesOf(rule.id)) else []
  }

  function EventItems(events: seq<AlertEvent>, rules: seq<Rule>, routesOf: string -> seq<Route>): seq<Item> {
    if events == [] then []
    else EventItems(events[..|events| - 1], rules, routesOf) + RuleItems(events[|events| - 1], rules, routesOf)
  }

  function EventIds(events: seq<AlertEvent>): set<string> {
    set e | e in events :: e.id
  }

  function Ticked(s: Store, events: seq<AlertEvent>, rules: seq<Rule>, routesOf: string -> seq<Route>,
                  now: int): Store {
    HandleAll(s, EventItems(events, rules, routesOf), now).(processed := s.processed + EventIds(events))
  }

  class Dispatcher {
    var jobs: seq<Job>
    var digests: DigestTable
    var processed: set<string>

    ghost function Contents(): Store
      reads this, digests
    {
      Store(jobs, digests.rows, processed)
    }

    constructor ()
      ensures Contents() == Store([], map[], {}) && fresh(digests)
    {
      jobs, processed := [], {};
      digests := new DigestTable();
    }

    method HasRecentDispatch(route: string, fingerprint: Option<string>, since: int) returns (found: bool)
      ensures found == HasRecent(jobs, route, fingerprint, since)
    {
      for k := 0 to |jobs|
        invariant forall i | 0 <= i < k :: !IsRecent(jobs[i], route, fingerprint, since)
      {
        var j := jobs[k];
        if j.route == route && j.event.fingerprint == fingerprint && j.event.createdAt >= since &&
           (j.row.status == Waiting || j.row.status == Retrying || j.row.status == Sending || j.row.status == Sent) {
          return true;
        }
      }
      found := false;
    }

    /** One event on one route of a matching rule. */
    method HandleRoute(e: AlertEvent, rule: Rule, route: Route, now: int)
      modifies this`jobs, digests
      ensures Contents() == Handle(old(Contents()), Item(e, rule, route), now)
    {
      if |route.recipients| == 0 {
        return;
      }
      if Lower(Trim(route.mode)) == "digest" {
        digests.Upsert(route.id, route.windowMinutes, rule.maxAttempts, Event(e.id, e.eventType, e.severity), now);
        return;
      }
      if e.fingerprint.Some? && Trim(e.fingerprint.value) != "" && rule.cooldown > 0 {
        var recent := HasRecentDispatch(route.id, e.fingerprint, now - rule.cooldown);
        if recent {
          return;
        }
      }
      jobs := jobs + [Job(e, rule, route.id, now, Created(rule.maxAttempts, now))];
    }

    method HandleRule(e: AlertEvent, rule: Rule, routes: seq<Route>, now: int)
      modifies this`jobs, digests
      ensures Contents() == HandleAll(old(Contents()), RouteItems(e, rule, routes), now)
    {
      for k := 0 to |routes|
        invariant Contents() == HandleAll(old(Contents()), RouteItems(e, rule, routes[..k]), now)
      {
        HandleRoute(e, rule, routes[k], now);
        NextRoute(old(Contents()), e, rule, routes, k, now);
      }
      assert routes[..|routes|] == routes;
    }

    method HandleEvent(e: AlertEvent, rules: seq<Rule>, routesOf: string -> seq<Route>, now: int)
      modifies this`jobs, digests
      ensures Contents() == HandleAll(old(Contents()), RuleItems(e, rules, routesOf), now)
    {
      for k := 0 to |rules|
        invariant Contents() == HandleAll(old(Contents()), RuleItems(e, rules[..k], routesOf), now)
      {
        if Matches(rules[k], e) {
          HandleRule(e, rules[k], routesOf(rules[k].id), now);
        }
        NextRule(old(Contents()), e, rules, routesOf, k, now);
      }
      assert rules[..|rules|] == rules;
    }

    /** One pass over the new events. */
    method MaterializeEventJobs(events: seq<AlertEvent>, rules: seq<Rule>, routesOf: string -> seq<Route>, now: int)
      modifies this`jobs, this`processed, digests
      ensures Contents() == Ticked(old(Contents()), events, rules, routesOf, now)
    {
      for k := 0 to |events|
        invariant Contents() == Ticked(old(Contents()), events[..k], rules, routesOf, now)
      {
        HandleEvent(events[k], rules, routesOf, now);
        processed := processed + {events[k].id};
        NextEvent(old(Contents()), events, rules, routesOf, k, now);
      }
      assert events[..|events|] == events;
    }
  }

  lemma {:induction false} HandleAllAppends(s: Store, a: seq<Item>, b: seq<Item>, now: int)
    ensures HandleAll(s, a + b, now) == HandleAll(HandleAll(s, a, now), b, now)
  {
    if b == [] {
      assert a + b == a;
    } else {
      assert (a + b)[..|a + b| - 1] == a + b[..|b| - 1];
      HandleAllAppends(s, a, b[..|b| - 1], now);
    }
  }

  lemma NextRoute(s: Store, e: AlertEvent, rule: Rule, routes: seq<Route>, k: nat, now: int)
    requires k < |routes|
    ensures HandleAll(s, RouteItems(e, rule, routes[..k + 1]), now) ==
            Handle(HandleAll(s, RouteItems(e, rule, routes[..k]), now), Item(e, rule, routes[k]), now)
  {
    assert routes[..k + 1][..k] == routes[..k];
    var items := RouteItems(e, rule, routes[..k]);
    assert RouteItems(e, rule, routes[..k + 1]) == items + [Item(e, rule, routes[k])];
    assert (items + [Item(e, rule, routes[k])])[..|items|] == items;
  }

  lemma NextRule(s: Store, e: AlertEvent, rules: seq<Rule>, routesOf: string -> seq<Route>, k: nat, now: int)
    requires k < |rules|
    ensures HandleAll(s, RuleItems(e, rules[..k + 1], routesOf), now) ==
            HandleAll(HandleAll(s, RuleItems(e, rules[..k], routesOf), now),
                      if Matches(rules[k], e) then RouteItems(e, rules[k], routesOf(rules[k].id)) else [], now)
  {
    assert rules[..k + 1][..k] == rules[..k];
    HandleAllAppends(s, RuleItems(e, rules[..k], routesOf),
                     if Matches(rules[k], e) then RouteItems(e, rules[k], routesOf(rules[k].id)) else [], now);
  }

  lemma {:induction false} ProcessedApart(s: Store, items: seq<Item>, now: int, processed: set<string>)
    ensures HandleAll(s.(processed := processed), items, now) == HandleAll(s, items, now).(processed := processed)
    ensures HandleAll(s, items, now).processed == s.processed
  {
    if items != [] { ProcessedApart(s, items[..|items| - 1], now, processed); }
  }

  lemma NextEvent(s: Store, events: seq<AlertEvent>, rules: seq<Rule>, routesOf: string -> seq<Route>, k: nat, now: int)
    requires k < |events|
    ensures Ticked(s, events[..k + 1], rules, routesOf, now) ==
            HandleAll(Ticked(s, events[..k], rules, routesOf, now), RuleItems(events[k], rules, routesOf), now)
            .(processed := s.processed + EventIds(events[..k]) + {events[k].id})
  {
    assert events[..k + 1][..k] == events[..k] && events[..k + 1] == events[..k] + [events[k]];
    var before, items := EventItems(events[..k], rules, routesOf), RuleItems(events[k], rules, routesOf);
    HandleAllAppends(s, before, items, now);
    ProcessedApart(HandleAll(s, before, now), items, now, s.processed + EventIds(events[..k]));
    assert s.processed + EventIds(events[..k + 1]) == s.processed + EventIds(events[..k]) + {events[k].id};
  }

  // ---------------------------------------------------------------- which items a tick has

  lemma {:induction false} RouteItemsAt(e: AlertEvent, rule: Rule, routes: seq<Route>)
    ensures var items := RouteItems(e, rule, routes);
            |items| == |routes| && forall k | 0 <= k < |routes| :: items[k] == Item(e, rule, routes[k])
  {
    if routes != [] { RouteItemsAt(e, rule, routes[..|routes| - 1]); }
  }

  predicate Meets(it: Item, routesOf: string -> seq<Route>) {
    Matches(it.rule, it.event) && it.route in routesOf(it.rule.id)
  }

  lemma {:induction false} RuleItemsAre(e: AlertEvent, rules: seq<Rule>, routesOf: string -> seq<Route>, it: Item)
    ensures it in RuleItems(e, rules, routesOf) <==> it.event == e && it.rule in rules && Meets(it, routesOf)
  {
    if rules != [] {
      var init, rule := rules[..|rules| - 1], rules[|rules| - 1];
      RuleItemsAre(e, init, routesOf, it);
      assert rules == init + [rule];
      var routes := routesOf(rule.id);
      RouteItemsAt(e, rule, routes);
      if it.rule == rule && it.event == e && it.route in routes {
        var k :| 0 <= k < |routes| && routes[k] == it.route;
        assert RouteItems(e, rule, routes)[k] == it;
      }
    }
  }

  /** A tick handles every event on every route of every matching rule. */
  lemma {:induction false} EventItemsAre(events: seq<AlertEvent>, rules: seq<Rule>, routesOf: string -> seq<Route>,
                                         it: Item)
    ensures it in EventItems(events, rules, routesOf) <==> it.event in events && it.rule in rules && Meets(it, routesOf)
  {
    if events != [] {
      var init, e := events[..|events| - 1], events[|events| - 1];
      EventItemsAre(init, rules, routesOf, it);
      RuleItemsAre(e, rules, routesOf, it);
      assert events == init + [e];
    }
  }

  // ---------------------------------------------------------------- what the digests receive

  predicate ToDigest(it: Item) {
    it.route.recipients != [] && IsDigest(it.route)
  }

  /** The ids of the events that go to one digest, in order. */
  function IdsFor(items: seq<Item>, key: Key, now: int): seq<string> {
    if items == [] then []
    else
      var it := items[|items| - 1];
      IdsFor(items[..|items| - 1], key, now) + if ToDigest(it) && DigestKey(it, now) == key then [it.event.id] else []
  }

  function CountIn(digests: Rows, key: Key): int {
    if key in digests then digests[key].count else 0
  }

  function IdsIn(digests: Rows, key: Key): seq<string> {
    if key in digests then digests[key].ids else []
  }

  /** A list of ids that takes more until it is full. */
  function Filled(ids: seq<string>, more: seq<string>): seq<string> {
    if |ids| >= MAX_EVENT_IDS then ids else FirstIds(ids + more)
  }

  /** The digest counts each of the new events once and stores their ids, in order, while there is room. */
  ghost predicate Grew(before: Rows, after: Rows, key: Key, ids: seq<string>) {
    && CountIn(after, key) == CountIn(before, key) + |ids|
    && IdsIn(after, key) == Filled(IdsIn(before, key), ids)
    && (key in after <==> key in before || ids != [])
  }

  lemma FilledOneMore(ids: seq<string>, more: seq<string>, id: string)
    ensures var r := Filled(ids, more);
            Filled(ids, more + [id]) == if |r| < MAX_EVENT_IDS then r + [id] else r
  {
    assert ids + (more + [id]) == (ids + more) + [id];
    if |ids + more| >= MAX_EVENT_IDS {
      assert ((ids + more) + [id])[..MAX_EVENT_IDS] == (ids + more)[..MAX_EVENT_IDS];
    }
  }

  lemma HandleGrows(s: Store, it: Item, now: int, key: Key)
    ensures var out := Handle(s, it, now).digests;
            && CountIn(out, key) == CountIn(s.digests, key)
               + (if ToDigest(it) && DigestKey(it, now) == key then 1 else 0)
            && IdsIn(out, key) == (if ToDigest(it) && DigestKey(it, now) == key
                                   && |IdsIn(s.digests, key)| < MAX_EVENT_IDS
                                   then IdsIn(s.digests, key) + [it.event.id] else IdsIn(s.digests, key))
            && (key in out <==> key in s.digests || (ToDigest(it) && DigestKey(it, now) == key))
  {
  }

  /** Every digest grows by exactly the items that go to it. */
  lemma {:induction false} DigestsGrow(s: Store, items: seq<Item>, now: int, key: Key)
    ensures Grew(s.digests, HandleAll(s, items, now).digests, key, IdsFor(items, key, now))
  {
    if items == [] {
      assert IdsIn(s.digests, key) + [] == IdsIn(s.digests, key);
      assert Filled(IdsIn(s.digests, key), []) == IdsIn(s.digests, key);
    } else {
      var init, it := items[..|items| - 1], items[|items| - 1];
      DigestsGrow(s, init, now, key);
      HandleGrows(HandleAll(s, init, now), it, now, key);
      FilledOneMore(IdsIn(s.digests, key), IdsFor(init, key, now), it.event.id);
    }
  }

  lemma {:induction false} ItemIsAmongIds(items: seq<Item>, now: int, it: Item)
    requires it in items && ToDigest(it)
    ensures it.event.id in IdsFor(items, DigestKey(it, now), now)
  {
    if it != items[|items| - 1] { ItemIsAmongIds(items[..|items| - 1], now, it); }
  }

  lemma FilledHolds(ids: seq<string>, more: seq<string>, id: string)
    requires id in more
    ensures id in Filled(ids, more) || |Filled(ids, more)| >= MAX_EVENT_IDS
  {
  }

  // ---------------------------------------------------------------- nothing is lost

  /** What is stored for an item of an immediate route: its job, or a recent job of the same fingerprint. */
  ghost predicate Covered(s: Store, it: Item, now: int) {
    it.route.recipients != [] && !IsDigest(it.route) ==> NewJob(it, now) in s.jobs || Suppressed(s.jobs, it, now)
  }

  lemma RecentStays(jobs: seq<Job>, j: Job, route: string, fingerprint: Option<string>, since: int)
    requires HasRecent(jobs, route, fingerprint, since)
    ensures HasRecent(jobs + [j], route, fingerprint, since)
  {
    var k :| 0 <= k < |jobs| && IsRecent(jobs[k], route, fingerprint, since);
    assert IsRecent((jobs + [j])[k], route, fingerprint, since);
  }

  lemma HandleCovers(s: Store, it: Item, now: int)
    ensures Covered(Handle(s, it, now), it, now)
  {
    var out := Handle(s, it, now);
    if it.route.recipients != [] && !IsDigest(it.route) && !Suppressed(s.jobs, it, now) {
      assert out.jobs[|s.jobs|] == NewJob(it, now);
    }
  }

  lemma CoveredStays(s: Store, it: Item, next: Item, now: int)
    requires Covered(s, it, now)
    ensures Covered(Handle(s, next, now), it, now)
  {
    if Suppressed(s.jobs, it, now) {
      RecentStays(s.jobs, NewJob(next, now), it.route.id, it.event.fingerprint, now - it.rule.cooldown);
    }
  }

  lemma {:induction false} AllCovered(s: Store, items: seq<Item>, now: int, it: Item)
    requires it in items
    ensures Covered(HandleAll(s, items, now), it, now)
  {
    var n := |items| - 1;
    if it == items[n] {
      HandleCovers(HandleAll(s, items[..n], now), it, now);
    } else {
      AllCovered(s, items[..n], now, it);
      CoveredStays(HandleAll(s, items[..n], now), it, items[n], now);
    }
  }

  /** After a tick every event is covered on every route of every matching rule: by a job, by a recent job of its
      fingerprint, or in its digest, which counts exactly the events that went to it and stores the first ids. */
  lemma NoAlertIsLost(s: Store, events: seq<AlertEvent>, rules: seq<Rule>, routesOf: string -> seq<Route>, now: int,
                      it: Item)
    requires it.event in events && it.rule in rules && Meets(it, routesOf)
    ensures Covered(Ticked(s, events, rules, routesOf, now), it, now)
    ensures it.event.id in Ticked(s, events, rules, routesOf, now).processed
    ensures var out, key := Ticked(s, events, rules, routesOf, now).digests, DigestKey(it, now);
            var ids := IdsFor(EventItems(events, rules, routesOf), key, now);
            Grew(s.digests, out, key, ids) &&
            (ToDigest(it) ==>
               it.event.id in ids && (it.event.id in IdsIn(out, key) || |IdsIn(out, key)| >= MAX_EVENT_IDS))
  {
    var items, key := EventItems(events, rules, routesOf), DigestKey(it, now);
    EventItemsAre(events, rules, routesOf, it);
    AllCovered(s, items, now, it);
    DigestsGrow(s, items, now, key);
    if ToDigest(it) {
      ItemIsAmongIds(items, now, it);
      FilledHolds(IdsIn(s.digests, key), IdsFor(items, key, now), it.event.id);
    }
  }

  // ---------------------------------------------------------------- no event twice on a route

  predicate SameTarget(a: Item, b: Item) {
    a.event.id == b.event.id && a.route.id == b.route.id
  }

  ghost predicate DistinctTargets(items: seq<Item>) {
    forall i, j | 0 <= i < j < |items| :: !SameTarget(items[i], items[j])
  }

  lemma JoinedTargets(a: seq<Item>, b: seq<Item>)
    requires DistinctTargets(a) && DistinctTargets(b)
    requires forall x, y | x in a && y in b :: !SameTarget(x, y)
    ensures DistinctTargets(a + b)
  {
  }

  /** Rules and routes as the store keeps them: ids are keys, and a route belongs to one rule. */
  ghost predicate Configured(rules: seq<Rule>, routesOf: string -> seq<Route>, owner: string -> string) {
    && (forall i, j | 0 <= i < j < |rules| :: rules[i].id != rules[j].id)
    && (forall id, r | r in routesOf(id) :: owner(r.id) == id)
    && (forall id, i, j | 0 <= i < j < |routesOf(id)| :: routesOf(id)[i].id != routesOf(id)[j].id)
  }

  lemma {:induction false} RuleTargets(e: AlertEvent, rules: seq<Rule>, routesOf: string -> seq<Route>,
                                       owner: string -> string)
    requires Configured(rules, routesOf, owner)
    ensures DistinctTargets(RuleItems(e, rules, routesOf))
  {
    if rules != [] {
      var init, rule := rules[..|rules| - 1], rules[|rules| - 1];
      RuleTargets(e, init, routesOf, owner);
      RouteItemsAt(e, rule, routesOf(rule.id));
      forall x, y | x in RuleItems(e, init, routesOf) && y in RouteItems(e, rule, routesOf(rule.id))
        ensures !SameTarget(x, y)
      {
        RuleItemsAre(e, init, routesOf, x);
        assert owner(x.route.id) == x.rule.id && owner(y.route.id) == rule.id;
      }
      JoinedTargets(RuleItems(e, init, routesOf),
                    if Matches(rule, e) then RouteItems(e, rule, routesOf(rule.id)) else []);
    }
  }

  lemma {:induction false} EventTargets(events: seq<AlertEvent>, rules: seq<Rule>, routesOf: string -> seq<Route>,
                                        owner: string -> string)
    requires Configured(rules, routesOf, owner)
    requires forall i, j | 0 <= i < j < |events| :: events[i].id != events[j].id
    ensures DistinctTargets(EventItems(events, rules, routesOf))
  {
    if events != [] {
      var init, e := events[..|events| - 1], events[|events| - 1];
      EventTargets(init, rules, routesOf, owner);
      RuleTargets(e, rules, routesOf, owner);
      forall x, y | x in EventItems(init, rules, routesOf) && y in RuleItems(e, rules, routesOf)
        ensures !SameTarget(x, y)
      {
        EventItemsAre(init, rules, routesOf, x);
        RuleItemsAre(e, rules, routesOf, y);
      }
      JoinedTargets(EventItems(init, rules, routesOf), RuleItems(e, rules, routesOf));
    }
  }

  predicate IsFor(j: Job, it: Item) {
    j.event.id == it.event.id && j.route == it.route.id
  }

  ghost predicate DistinctJobs(jobs: seq<Job>) {
    forall i, j | 0 <= i < j < |jobs| :: !(jobs[i].event.id == jobs[j].event.id && jobs[i].route == jobs[j].route)
  }

  /** A job for an item was there before or comes from one of the items handled. */
  lemma {:induction false} JobsComeFromItems(s: Store, items: seq<Item>, now: int, it: Item)
    requires forall x | x in items :: !SameTarget(x, it)
    requires forall j | j in s.jobs :: !IsFor(j, it)
    ensures forall j | j in HandleAll(s, items, now).jobs :: !IsFor(j, it)
  {
    if items != [] {
      var last := items[|items| - 1];
      JobsComeFromItems(s, items[..|items| - 1], now, it);
      assert last in items && !SameTarget(last, it);
    }
  }

  lemma {:induction false} HandlingKeepsDistinct(s: Store, items: seq<Item>, now: int)
    requires DistinctJobs(s.jobs) && DistinctTargets(items)
    requires forall x, j | x in items && j in s.jobs :: !IsFor(j, x)
    ensures DistinctJobs(HandleAll(s, items, now).jobs)
  {
    if items != [] {
      var init, last := items[..|items| - 1], items[|items| - 1];
      HandlingKeepsDistinct(s, init, now);
      assert forall x | x in init :: !SameTarget(x, last);
      assert last in items;
      JobsComeFromItems(s, init, now, last);
      var mid := HandleAll(s, init, now).jobs;
      forall i | 0 <= i < |mid|
        ensures !IsFor(mid[i], last)
      {
        assert mid[i] in mid;
      }
    }
  }

  // ---------------------------------------------------------------- the cooldown

  /** The later job was made under a cooldown that the earlier, of the same route and fingerprint, had to respect. */
  predicate CoolsDown(earlier: Job, later: Job) {
    earlier.route == later.route && earlier.event.fingerprint == later.event.fingerprint &&
    HasFingerprint(later.event) && later.rule.cooldown > 0
  }

  ghost predicate Spaced(jobs: seq<Job>) {
    forall i, j | 0 <= i < j < |jobs| && CoolsDown(jobs[i], jobs[j]) ::
      jobs[i].row.status == Failed || jobs[i].event.createdAt + jobs[j].rule.cooldown < jobs[j].madeAt
  }

  lemma HandleKeepsSpaced(s: Store, it: Item, now: int)
    requires Spaced(s.jobs)
    ensures Spaced(Handle(s, it, now).jobs)
  {
    var jobs := Handle(s, it, now).jobs;
    forall i, j | 0 <= i < j < |jobs| && CoolsDown(jobs[i], jobs[j])
      ensures jobs[i].row.status == Failed || jobs[i].event.createdAt + jobs[j].rule.cooldown < jobs[j].madeAt
    {
      if j == |s.jobs| {
        assert !IsRecent(s.jobs[i], it.route.id, it.event.fingerprint, now - it.rule.cooldown);
      }
    }
  }

  lemma {:induction false} HandlingKeepsSpaced(s: Store, items: seq<Item>, now: int)
    requires Spaced(s.jobs)
    ensures Spaced(HandleAll(s, items, now).jobs)
  {
    if items != [] {
      HandlingKeepsSpaced(s, items[..|items| - 1], now);
      HandleKeepsSpaced(HandleAll(s, items[..|items| - 1], now), items[|items| - 1], now);
    }
  }

  /** Two new events of one fingerprint, handled at one time, are both sent exactly when the first is
      already older than the cooldown: the window is counted from the events, not from the jobs. */
  lemma BothSentExactlyWhenFirstIsOld(s: Store, rule: Rule, route: Route, e1: AlertEvent, e2: AlertEvent, now: int)
    requires e1.fingerprint == e2.fingerprint && HasFingerprint(e1) && rule.cooldown > 0
    requires route.recipients != [] && !IsDigest(route)
    requires !HasRecent(s.jobs, route.id, e1.fingerprint, now - rule.cooldown)
    ensures var out := HandleAll(s, [Item(e1, rule, route), Item(e2, rule, route)], now);
            |out.jobs| == |s.jobs| + 2 <==> e1.createdAt + rule.cooldown < now
  {
    var i1, i2 := Item(e1, rule, route), Item(e2, rule, route);
    var one := Handle(s, i1, now);
    HandleTwo(s, i1, i2, now);
    assert one.jobs == s.jobs + [NewJob(i1, now)];
    var since := now - rule.cooldown;
    if HasRecent(one.jobs, route.id, e2.fingerprint, since) {
      var k :| 0 <= k < |one.jobs| && IsRecent(one.jobs[k], route.id, e2.fingerprint, since);
      assert k < |s.jobs| ==> IsRecent(s.jobs[k], route.id, e1.fingerprint, since);
    }
    assert IsRecent(one.jobs[|s.jobs|], route.id, e2.fingerprint, since) <==> e1.createdAt >= since;
  }

  lemma HandleTwo(s: Store, a: Item, b: Item, now: int)
    ensures HandleAll(s, [a, b], now) == Handle(Handle(s, a, now), b, now)
  {
    assert [a, b][..1] == [a] && [a][..0] == [];
    assert HandleAll(s, [a], now) == Handle(s, a, now);
  }

  /** It happens: two events a minute apart, handled two minutes later under a cooldown of a minute. */
  lemma TwoOldEventsAreBothSent(s: Store, t: int, e1: AlertEvent, e2: AlertEvent) returns (rule: Rule, route: Route)
    requires s.jobs == [] && HasFingerprint(e1) && e1.fingerprint == e2.fingerprint
    requires e1.createdAt == t && e2.createdAt == t + 60
    ensures rule.cooldown == 60 && |HandleAll(s, [Item(e1, rule, route), Item(e2, rule, route)], t + 120).jobs| == 2
  {
    rule, route := Rule("r", "*", "info", 60, 5), Route("t", ["ops@example.org"], "", 0);
    assert Trim("") == "" && Norm("") == "";
    BothSentExactlyWhenFirstIsOld(s, rule, route, e1, e2, t + 120);
  }

  // ---------------------------------------------------------------- the digests of a run

  /** The upserts of a tick as actions of the digest table. */
  function Arrivals(items: seq<Item>): seq<Digests.Action> {
    if items == [] then []
    else
      var it := items[|items| - 1];
      Arrivals(items[..|items| - 1]) +
      if ToDigest(it) then [Arrive(it.route.id, it.route.windowMinutes, it.rule.maxAttempts, DigestEvent(it))] else []
  }

  lemma {:induction false} TickIsArrivals(start: int, acts: seq<Digests.Action>, s: Store, items: seq<Item>, now: int)
    requires var d := Digests.Exec(start, acts);
             d.Some? && d.value.rows == s.digests && d.value.clock == now
    ensures var d := Digests.Exec(start, acts + Arrivals(items));
            d.Some? && d.value.rows == HandleAll(s, items, now).digests && d.value.clock == now
  {
    if items == [] {
      assert acts + Arrivals(items) == acts;
    } else {
      var init, it := items[..|items| - 1], items[|items| - 1];
      var before := acts + Arrivals(init);
      TickIsArrivals(start, acts, s, init, now);
      if ToDigest(it) {
        var a := Arrive(it.route.id, it.route.windowMinutes, it.rule.maxAttempts, DigestEvent(it));
        var longer, d := OneMore(start, before, Digests.Exec(start, before).value, a);
        assert acts + Arrivals(items) == longer;
      } else {
        assert acts + Arrivals(items) == before;
      }
    }
  }

  // ---------------------------------------------------------------- runs

  datatype RunState = RunState(store: Store, clock: int)

  datatype Action =
    | Tick(events: seq<AlertEvent>, rules: seq<Rule>, routesOf: string -> seq<Route>, now: int)
    | Process(k: nat, input: Input, now: int)
    | DeliverDigest(key: Key, input: Input, now: int)

  ghost predicate IsNew(s: Store, events: seq<AlertEvent>) {
    && (forall i, j | 0 <= i < j < |events| :: events[i].id != events[j].id)
    && (forall e | e in events :: e.id !in s.processed)
  }

  /** The store after an action, if the action is possible. */
  ghost function Applied(s: Store, a: Action, owner: string -> string): Option<Store> {
    match a
    case Tick(events, rules, routesOf, now) =>
      if IsNew(s, events) && Configured(rules, routesOf, owner) then
        Some(Ticked(s, events, rules, routesOf, now))
      else None
    case Process(k, input, now) =>
      if k < |s.jobs| && IsDue(s.jobs[k].row, now) then
        Some(s.(jobs := s.jobs[k := s.jobs[k].(row := Settled(s.jobs[k].row, input))]))
      else None
    case DeliverDigest(key, input, now) =>
      if key in s.digests && DigestDue(s.digests[key], now) then
        Some(s.(digests := s.digests[key := s.digests[key].(row := Settled(s.digests[key].row, input))]))
      else None
  }

  /** The clock never goes back. */
  ghost function Apply(s: RunState, a: Action, owner: string -> string): Option<RunState> {
    if a.now < s.clock then None
    else
      match Applied(s.store, a, owner)
      case None => None
      case Some(store) => Some(RunState(store, a.now))
  }

  ghost function Exec(start: int, acts: seq<Action>, owner: string -> string): Option<RunState> {
    if acts == [] then Some(RunState(Store([], map[], {}), start))
    else
      match Exec(start, acts[..|acts| - 1], owner)
      case None => None
      case Some(s) => Apply(s, acts[|acts| - 1], owner)
  }

  /** What a run does to the digest table. */
  function DigestActions(a: Action): seq<Digests.Action> {
    [Advance(a.now)] +
    match a
    case Tick(events, rules, routesOf, _) => Arrivals(EventItems(events, rules, routesOf))
    case Process(_, _, _) => []
    case DeliverDigest(key, input, _) => [Deliver(key, input)]
  }

  function DigestRun(acts: seq<Action>): seq<Digests.Action> {
    if acts == [] then [] else DigestRun(acts[..|acts| - 1]) + DigestActions(acts[|acts| - 1])
  }

  /** The digest table of the store is that of this run of digest actions. */
  ghost predicate Follows(start: int, run: seq<Digests.Action>, s: RunState) {
    var d := Digests.Exec(start, run);
    d.Some? && d.value.rows == s.store.digests && d.value.clock == s.clock
  }

  lemma AdvanceFollows(start: int, run: seq<Digests.Action>, s: RunState, now: int)
    requires Follows(start, run, s) && now >= s.clock
    ensures Follows(start, run + [Advance(now)], s.(clock := now))
  {
    var longer, d := OneMore(start, run, Digests.Exec(start, run).value, Advance(now));
  }

  lemma TickFollows(start: int, run: seq<Digests.Action>, s: RunState, items: seq<Item>, after: Store)
    requires Follows(start, run, s) && after.digests == HandleAll(s.store, items, s.clock).digests
    ensures Follows(start, run + Arrivals(items), s.(store := after))
  {
    TickIsArrivals(start, run, s.store, items, s.clock);
  }

  lemma DeliverFollows(start: int, run: seq<Digests.Action>, s: RunState, key: Key, input: Input)
    requires Follows(start, run, s) && key in s.store.digests && DigestDue(s.store.digests[key], s.clock)
    ensures var d := s.store.digests[key];
            Follows(start, run + [Deliver(key, input)],
                    s.(store := s.store.(digests := s.store.digests[key := d.(row := Settled(d.row, input))])))
  {
    var longer, d := OneMore(start, run, Digests.Exec(start, run).value, Deliver(key, input));
  }

  lemma StepFollows(start: int, run: seq<Digests.Action>, s: RunState, a: Action, owner: string -> string)
    requires Follows(start, run, s) && Apply(s, a, owner).Some?
    ensures Follows(start, run + DigestActions(a), Apply(s, a, owner).value)
  {
    var advanced, at := run + [Advance(a.now)], s.(clock := a.now);
    AdvanceFollows(start, run, s, a.now);
    match a
    case Tick(events, rules, routesOf, now) =>
      var items := EventItems(events, rules, routesOf);
      TickFollows(start, advanced, at, items, Ticked(s.store, events, rules, routesOf, now));
      AppendMoves(run, [Advance(a.now)], Arrivals(items));
    case Process(_, _, _) =>
      AppendMoves(run, [Advance(a.now)], []);
      assert advanced + [] == advanced;
    case DeliverDigest(key, input, _) =>
      DeliverFollows(start, advanced, at, key, input);
      AppendMoves(run, [Advance(a.now)], [Deliver(key, input)]);
  }

  ghost predicate Inv(s: Store) {
    && (forall j | j in s.jobs :: j.event.id in s.processed)
    && DistinctJobs(s.jobs)
    && Spaced(s.jobs)
  }

  lemma {:induction false} HandledAreProcessed(s: Store, items: seq<Item>, now: int, done: set<string>)
    requires forall j | j in s.jobs :: j.event.id in done
    requires forall it | it in items :: it.event.id in done
    ensures forall j | j in HandleAll(s, items, now).jobs :: j.event.id in done
  {
    if items != [] {
      assert items[|items| - 1] in items;
      HandledAreProcessed(s, items[..|items| - 1], now, done);
    }
  }

  lemma TickInv(s: Store, a: Action, owner: string -> string)
    requires Inv(s) && a.Tick? && Applied(s, a, owner).Some?
    ensures Inv(Applied(s, a, owner).value)
  {
    var items := EventItems(a.events, a.rules, a.routesOf);
    forall it | it in items
      ensures it.event.id in EventIds(a.events) && it.event.id !in s.processed
    {
      EventItemsAre(a.events, a.rules, a.routesOf, it);
    }
    EventTargets(a.events, a.rules, a.routesOf, owner);
    HandlingKeepsDistinct(s, items, a.now);
    HandlingKeepsSpaced(s, items, a.now);
    HandledAreProcessed(s, items, a.now, s.processed + EventIds(a.events));
  }

  lemma ProcessInv(s: Store, a: Action, owner: string -> string)
    requires Inv(s) && a.Process? && Applied(s, a, owner).Some?
    ensures Inv(Applied(s, a, owner).value)
  {
    var jobs := Applied(s, a, owner).value.jobs;
    assert forall i | 0 <= i < |jobs| ::
        jobs[i].event == s.jobs[i].event && jobs[i].(row := s.jobs[i].row) == s.jobs[i];
    forall i, j | 0 <= i < j < |jobs| && CoolsDown(jobs[i], jobs[j])
      ensures jobs[i].row.status == Failed || jobs[i].event.createdAt + jobs[j].rule.cooldown < jobs[j].madeAt
    {
      assert CoolsDown(s.jobs[i], s.jobs[j]);
    }
  }

  lemma StepInv(s: Store, a: Action, owner: string -> string)
    requires Inv(s) && Applied(s, a, owner).Some?
    ensures Inv(Applied(s, a, owner).value)
  {
    match a
    case Tick(_, _, _, _) => TickInv(s, a, owner);
    case Process(_, _, _) => ProcessInv(s, a, owner);
    case DeliverDigest(_, _, _) =>
  }

  /** In every run no event is dispatched twice on a route, a repeat of a fingerprint is sent only after the earlier
      job failed or once its event is older than the cooldown, and the digests are those of a run of the digest
      table in which every event for a digest arrives once, so that each digest counts and stores its events. */
  lemma {:induction false} EveryRunKeepsInv(start: int, acts: seq<Action>, owner: string -> string)
    requires Exec(start, acts, owner).Some?
    ensures Inv(Exec(start, acts, owner).value.store)
    ensures Follows(start, DigestRun(acts), Exec(start, acts, owner).value)
    ensures Digests.Inv(Digests.Exec(start, DigestRun(acts)).value)
  {
    if acts != [] {
      var init, last := acts[..|acts| - 1], acts[|acts| - 1];
      EveryRunKeepsInv(start, init, owner);
      StepInv(Exec(start, init, owner).value.store, last, owner);
      StepFollows(start, DigestRun(init), Exec(start, init, owner).value, last, owner);
    }
    Digests.EveryRunKeepsInv(start, DigestRun(acts));
  }
}
