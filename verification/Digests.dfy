/** Digest batches: events of one route, type and severity collected per time bucket, then delivered once. */
module Digests {
  import opened Common
  import opened Lifecycle

  const MAX_EVENT_IDS := 200

  datatype Key = Key(route: string, start: int, eventType: string, severity: string)

  /** A digest row; times are in seconds since the start of year 1. */
  datatype Digest = Digest(end: int, count: int, ids: seq<string>, row: Row)

  datatype Event = Event(id: string, eventType: string, severity: string)

  type Rows = map<Key, Digest>

  // ---------------------------------------------------------------- buckets

  /** The bucket length in seconds; a window that is not positive means 15 minutes. */
  function WindowSeconds(windowMinutes: int): (w: int)
    ensures w > 0
  {
    60 * if windowMinutes <= 0 then 15 else windowMinutes
  }

  function BucketStart(now: int, windowMinutes: int): int {
    now / WindowSeconds(windowMinutes) * WindowSeconds(windowMinutes)
  }

  function KeyFor(route: string, windowMinutes: int, e: Event, now: int): Key {
    Key(route, BucketStart(now, windowMinutes), e.eventType, e.severity)
  }

  lemma QuotientBounds(now: int, w: int)
    requires w > 0
    ensures now / w * w <= now < now / w * w + w
  {
    assert now == w * (now / w) + now % w;
  }

  /** A clock reading lies in its bucket and in no other bucket of the same length. */
  lemma OneBucket(now: int, windowMinutes: int, n: int)
    ensures var w := WindowSeconds(windowMinutes);
            n * w <= now < n * w + w <==> n * w == BucketStart(now, windowMinutes)
  {
    var w := WindowSeconds(windowMinutes);
    QuotientBounds(now, w);
    if n * w <= now < n * w + w {
      MultipleBetween(n, now / w, w);
    }
  }

  // ---------------------------------------------------------------- rows

  function WithEvent(d: Digest, id: string): Digest {
    d.(count := d.count + 1, ids := if |d.ids| < MAX_EVENT_IDS then d.ids + [id] else d.ids)
  }

  function Upserted(rows: Rows, route: string, windowMinutes: int, maxAttempts: int, e: Event, now: int): Rows {
    var key := KeyFor(route, windowMinutes, e, now);
    var end := key.start + WindowSeconds(windowMinutes);
    rows[key := if key in rows then WithEvent(rows[key], e.id) else Digest(end, 1, [e.id], Created(maxAttempts, end))]
  }

  class DigestTable {
    var rows: Rows

    constructor ()
      ensures rows == map[]
    {
      rows := map[];
    }

    /** Adds an event to the digest of its bucket, creating it if need be. */
    method Upsert(route: string, windowMinutes: int, maxAttempts: int, e: Event, now: int)
      modifies this
      ensures rows == Upserted(old(rows), route, windowMinutes, maxAttempts, e, now)
    {
      var mins := windowMinutes;
      if mins <= 0 {
        mins := 15;
      }
      var window := 60 * mins;
      var bucketStart := now / window * window;
      var bucketEnd := bucketStart + window;
      var key := Key(route, bucketStart, e.eventType, e.severity);
      if key in rows {
        var d := rows[key];
        var ids := d.ids;
        if |ids| < MAX_EVENT_IDS {
          ids := ids + [e.id];
        }
        rows := rows[key := d.(count := d.count + 1, ids := ids)];
      } else {
        var max := maxAttempts;
        if max <= 0 {
          max := 5;
        }
        rows := rows[key := Digest(bucketEnd, 1, [e.id], Row(Waiting, 0, max, bucketEnd, 0))];
      }
    }

    /** A digest among `keys` whose bucket closed first. */
    method Earliest(keys: set<Key>) returns (best: Key)
      requires keys != {} && keys <= rows.Keys
      ensures best in keys && forall key | key in keys :: rows[best].end <= rows[key].end
    {
      best :| best in keys;
      var rest := keys - {best};
      while rest != {}
        invariant best in keys && rest <= keys
        invariant forall key | key in keys - rest :: rows[best].end <= rows[key].end
      {
        var key :| key in rest;
        if rows[key].end < rows[best].end {
          best := key;
        }
        rest := rest - {key};
      }
    }

    /** The digests to deliver now: their bucket has closed and an attempt is due. */
    method ListDue(now: int, limit: int) returns (due: seq<Key>)
      ensures IsDueListing(rows, now, if limit <= 0 then 20 else limit, due)
    {
      var cap := if limit <= 0 then 20 else limit;
      var rest := set key | key in rows && DigestDue(rows[key], now);
      due := [];
      while |due| < cap && rest != {}
        invariant |due| <= cap && Distinct(due)
        invariant forall key :: key in rows && DigestDue(rows[key], now) <==> key in rest || key in due
        invariant forall key | key in rest :: key !in due
        invariant forall k, key | 0 <= k < |due| && key in rest :: rows[due[k]].end <= rows[key].end
        invariant forall j, k | 0 <= j < k < |due| :: rows[due[j]].end <= rows[due[k]].end
        decreases cap - |due|
      {
        var key := Earliest(rest);
        assert forall x :: x in due + [key] <==> x in due || x == key;
        due := due + [key];
        rest := rest - {key};
      }
    }

    method SetRow(key: Key, row: Row)
      requires key in rows
      modifies this
      ensures rows == old(rows)[key := old(rows)[key].(row := row)]
    {
      rows := rows[key := rows[key].(row := row)];
    }

    /** Attempts one listed digest and records the outcome. */
    method ProcessDigest(key: Key, i: Input)
      requires key in rows
      modifies this
      ensures rows == old(rows)[key := old(rows)[key].(row := Settled(old(rows)[key].row, i))]
    {
      var listed := rows[key].row;
      SetRow(key, listed.(status := Sending, attempts := listed.attempts + 1));
      match i.attempt {
        case NoRecipients => SetRow(key, rows[key].row.(status := Failed));
        case BadConfig => SetRow(key, rows[key].row.(status := Failed));
        case Delivered => SetRow(key, rows[key].row.(status := Sent));
        case Refused =>
          var nextAttempt := listed.attempts + 1;
          if nextAttempt >= listed.max {
            if Escalates(i.escalation, nextAttempt) {
              SetRow(key, rows[key].row.(escalated := listed.escalated + 1));
            }
            SetRow(key, rows[key].row.(status := Failed));
          } else {
            var nextAt := (i.clock + RetryBackoff(nextAttempt, i.unspecified)) / NANOS_PER_SECOND;
            SetRow(key, rows[key].row.(status := Retrying, nextAt := nextAt));
          }
      }
    }

    /** One pass of the dispatcher over the due digests. */
    method ProcessDueDigests(now: int, inputs: Key -> Input) returns (due: seq<Key>)
      modifies this
      ensures IsDueListing(old(rows), now, MAX_DIGESTS_PER_TICK, due)
      ensures rows == DeliveredTo(old(rows), due, inputs)
    {
      ghost var before := rows;
      due := ListDue(now, MAX_DIGESTS_PER_TICK);
      for k := 0 to |due|
        invariant rows == DeliveredTo(before, due[..k], inputs)
      {
        DeliverNext(before, due, k, inputs);
        ProcessDigest(due[k], inputs(due[k]));
      }
      assert due[..|due|] == due;
    }
  }

  const MAX_DIGESTS_PER_TICK := 30

  /** A batch of the due digests, first closed first, that leaves out only later ones. */
  ghost predicate IsDueListing(rows: Rows, now: int, limit: nat, due: seq<Key>) {
    && |due| <= limit && Distinct(due)
    && (forall key | key in due :: key in rows && DigestDue(rows[key], now))
    && (forall j, k | 0 <= j < k < |due| :: rows[due[j]].end <= rows[due[k]].end)
    && (forall key | key in rows && DigestDue(rows[key], now) && key !in due ::
          |due| == limit && forall k | 0 <= k < |due| :: rows[due[k]].end <= rows[key].end)
  }

  /** The rows with each of the listed digests settled once. */
  ghost function DeliveredTo(rows: Rows, due: seq<Key>, inputs: Key -> Input): Rows {
    map key | key in rows :: if key in due then rows[key].(row := Settled(rows[key].row, inputs(key))) else rows[key]
  }

  lemma DeliverNext(rows: Rows, due: seq<Key>, k: nat, inputs: Key -> Input)
    requires Distinct(due) && k < |due| && due[k] in rows
    ensures var before := DeliveredTo(rows, due[..k], inputs);
            && due[k] in before && before[due[k]] == rows[due[k]]
            && DeliveredTo(rows, due[..k + 1], inputs) ==
               before[due[k] := before[due[k]].(row := Settled(before[due[k]].row, inputs(due[k])))]
  {
    assert due[..k + 1] == due[..k] + [due[k]];
    assert due[k] !in due[..k];
  }

  predicate DigestDue(d: Digest, now: int) {
    d.end <= now && IsDue(d.row, now)
  }

  // ---------------------------------------------------------------- runs

  /** The rows, the clock, and the events upserted so far with the digest each went to. */
  datatype State = State(rows: Rows, clock: int, log: seq<(Key, string)>)

  datatype Action =
    | Arrive(route: string, windowMinutes: int, maxAttempts: int, e: Event)
    | Advance(to: int)
    | Deliver(key: Key, input: Input)

  function KeyOf(s: State, a: Action): Key
    requires a.Arrive?
  {
    KeyFor(a.route, a.windowMinutes, a.e, s.clock)
  }

  function Apply(s: State, a: Action): Option<State> {
    match a
    case Arrive(route, window, max, e) =>
      Some(State(Upserted(s.rows, route, window, max, e, s.clock), s.clock, s.log + [(KeyOf(s, a), e.id)]))
    case Advance(to) => if to >= s.clock then Some(s.(clock := to)) else None
    case Deliver(key, input) =>
      if key in s.rows && DigestDue(s.rows[key], s.clock) then
        Some(s.(rows := s.rows[key := s.rows[key].(row := Settled(s.rows[key].row, input))]))
      else None
  }

  function Exec(start: int, acts: seq<Action>): Option<State> {
    if acts == [] then Some(State(map[], start, []))
    else
      match Exec(start, acts[..|acts| - 1])
      case None => None
      case Some(s) => Apply(s, acts[|acts| - 1])
  }

  /** The events upserted into one digest, in arrival order. */
  ghost function EventsOf(log: seq<(Key, string)>, key: Key): seq<string> {
    if log == [] then []
    else EventsOf(log[..|log| - 1], key) + if log[|log| - 1].0 == key then [log[|log| - 1].1] else []
  }

  function FirstIds(ids: seq<string>): seq<string> {
    if |ids| <= MAX_EVENT_IDS then ids else ids[..MAX_EVENT_IDS]
  }

  /** The row counts every event of its bucket and keeps the first ids; it leaves collecting only after the bucket
      closed. */
  ghost predicate DigestInv(d: Digest, events: seq<string>, clock: int) {
    && d.count == |events| && d.ids == FirstIds(events)
    && RowInv(d.row)
    && (d.row.status != Waiting ==> d.end <= clock)
  }

  ghost predicate Inv(s: State) {
    && (forall key | key in s.rows :: DigestInv(s.rows[key], EventsOf(s.log, key), s.clock))
    && (forall key | key !in s.rows :: EventsOf(s.log, key) == [])
  }

  lemma EventsOfOneMore(log: seq<(Key, string)>, key: Key, at: Key, id: string)
    ensures EventsOf(log + [(at, id)], key) == EventsOf(log, key) + if at == key then [id] else []
  {
    assert (log + [(at, id)])[..|log|] == log;
  }

  lemma ArriveInv(s: State, a: Action)
    requires Inv(s) && a.Arrive?
    ensures Inv(Apply(s, a).value)
  {
    var s' := Apply(s, a).value;
    forall key
      ensures EventsOf(s'.log, key) == EventsOf(s.log, key) + if KeyOf(s, a) == key then [a.e.id] else []
    {
      EventsOfOneMore(s.log, key, KeyOf(s, a), a.e.id);
    }
  }

  lemma DeliverInv(s: State, a: Action)
    requires Inv(s) && a.Deliver? && Apply(s, a).Some?
    ensures Inv(Apply(s, a).value)
  {
    SettledInv(s.rows[a.key].row, s.clock, a.input);
  }

  /** Every run, whatever windows it uses, keeps the invariant. */
  lemma {:induction false} EveryRunKeepsInv(start: int, acts: seq<Action>)
    requires Exec(start, acts).Some?
    ensures Inv(Exec(start, acts).value)
  {
    if acts != [] {
      var init, last := acts[..|acts| - 1], acts[|acts| - 1];
      EveryRunKeepsInv(start, init);
      var s := Exec(start, init).value;
      match last
      case Arrive(_, _, _, _) => ArriveInv(s, last);
      case Advance(_) =>
      case Deliver(_, _) => DeliverInv(s, last);
    }
  }

  function Deliveries(due: seq<Key>, inputs: Key -> Input): seq<Action> {
    if due == [] then [] else Deliveries(due[..|due| - 1], inputs) + [Deliver(due[|due| - 1], inputs(due[|due| - 1]))]
  }

  /** A pass over the due digests is a stretch of a run, so it keeps whatever every run keeps. */
  lemma {:induction false} PassIsRun(start: int, acts: seq<Action>, due: seq<Key>, inputs: Key -> Input)
    requires Exec(start, acts).Some? && Distinct(due)
    requires var s := Exec(start, acts).value;
             forall key | key in due :: key in s.rows && DigestDue(s.rows[key], s.clock)
    ensures var s := Exec(start, acts).value;
            Exec(start, acts + Deliveries(due, inputs)) == Some(s.(rows := DeliveredTo(s.rows, due, inputs)))
  {
    var s := Exec(start, acts).value;
    if due == [] {
      assert acts + Deliveries(due, inputs) == acts;
      assert DeliveredTo(s.rows, due, inputs) == s.rows;
    } else {
      var n := |due| - 1;
      var before := acts + Deliveries(due[..n], inputs);
      PassIsRun(start, acts, due[..n], inputs);
      DeliverNext(s.rows, due, n, inputs);
      assert due[..n + 1] == due;
      var longer, s' := OneMore(start, before, Exec(start, before).value, Deliver(due[n], inputs(due[n])));
      assert acts + Deliveries(due, inputs) == longer;
    }
  }

  // ---------------------------------------------------------------- late events

  /** The event goes into a digest that has already left collecting. */
  ghost predicate IsLate(s: State, a: Action) {
    a.Arrive? && KeyOf(s, a) in s.rows && s.rows[KeyOf(s, a)].row.status != Waiting
  }

  ghost predicate LateAt(start: int, acts: seq<Action>, k: int) {
    0 <= k < |acts| && Exec(start, acts[..k]).Some? && IsLate(Exec(start, acts[..k]).value, acts[k])
  }

  /** Every upsert of a route uses a window of the route's one length, in seconds. */
  ghost predicate FixedWindows(acts: seq<Action>, length: string -> int) {
    forall k | 0 <= k < |acts| && acts[k].Arrive? :: WindowSeconds(acts[k].windowMinutes) == length(acts[k].route)
  }

  ghost predicate EndsMatch(s: State, length: string -> int) {
    forall key | key in s.rows :: s.rows[key].end == key.start + length(key.route)
  }

  lemma {:induction false} FixedWindowsMatchEnds(start: int, acts: seq<Action>, length: string -> int)
    requires FixedWindows(acts, length) && Exec(start, acts).Some?
    ensures EndsMatch(Exec(start, acts).value, length)
  {
    if acts != [] {
      var init, last := acts[..|acts| - 1], acts[|acts| - 1];
      assert acts[|acts| - 1] == last;
      assert forall k | 0 <= k < |init| :: init[k] == acts[k];
      FixedWindowsMatchEnds(start, init, length);
    }
  }

  /** With fixed windows no event is ever added to a digest that has left collecting. */
  lemma FixedWindowsAreNeverLate(start: int, acts: seq<Action>, length: string -> int, k: int)
    requires FixedWindows(acts, length)
    ensures !LateAt(start, acts, k)
  {
    if 0 <= k < |acts| && Exec(start, acts[..k]).Some? && acts[k].Arrive? {
      var s, a := Exec(start, acts[..k]).value, acts[k];
      assert forall j | 0 <= j < k :: acts[..k][j] == acts[j];
      FixedWindowsMatchEnds(start, acts[..k], length);
      EveryRunKeepsInv(start, acts[..k]);
      QuotientBounds(s.clock, WindowSeconds(a.windowMinutes));
      var key := KeyOf(s, a);
      assert key in s.rows ==> s.rows[key].end > s.clock;
      assert key in s.rows ==> DigestInv(s.rows[key], EventsOf(s.log, key), s.clock);
    }
  }

  lemma OneMore(start: int, acts: seq<Action>, s: State, a: Action) returns (longer: seq<Action>, s': State)
    requires Exec(start, acts) == Some(s) && Apply(s, a).Some?
    ensures longer == acts + [a] && s' == Apply(s, a).value && Exec(start, longer) == Some(s')
  {
    longer, s' := acts + [a], Apply(s, a).value;
    assert longer[..|acts|] == acts;
  }

  lemma CommonMultiple(n: nat, a: int, b: int)
    requires a > 0 && b > 0
    ensures n * b * a == n * a * b >= n
  {
    ProductOrder(1, a, b);
    ProductOrder(1, a * b, n);
    assert n * b * a == n * (a * b) == n * a * b && (a * b) * n == n * (a * b);
  }

  /** A time at or after the given one at which a bucket of either window starts, the long one's with number `q`. */
  lemma CommonStart(start: int, short: int, long: int) returns (m: int, q: int)
    ensures m >= start
    ensures BucketStart(m, short) == m
    ensures m == q * WindowSeconds(long)
  {
    var a, b := WindowSeconds(short), WindowSeconds(long);
    var n := if start > 0 then start else 0;
    m, q := n * b * a, n * a;
    CommonMultiple(n, a, b);
    OneBucket(m, short, n * b);
  }

  lemma StartOfBucket(now: int, windowMinutes: int, n: int)
    requires n * WindowSeconds(windowMinutes) <= now < n * WindowSeconds(windowMinutes) + WindowSeconds(windowMinutes)
    ensures BucketStart(now, windowMinutes) == n * WindowSeconds(windowMinutes)
  {
    OneBucket(now, windowMinutes, n);
  }

  lemma FirstEvent(start: int, now: int, route: string, short: int, e: Event, input: Input)
    returns (acts: seq<Action>, s: State)
    requires start <= now && BucketStart(now, short) == now && input.attempt == Delivered
    ensures UsesOnly(acts, route, {short}) && Exec(start, acts) == Some(s) && s.clock == now + WindowSeconds(short)
    ensures var key := Key(route, now, e.eventType, e.severity);
            key in s.rows && s.rows[key].row.status == Sent
  {
    s := State(map[], start, []);
    acts := [];
    var key, w := Key(route, now, e.eventType, e.severity), WindowSeconds(short);
    acts, s := OneMore(start, acts, s, Advance(now));
    acts, s := OneMore(start, acts, s, Arrive(route, short, 1, e));
    assert s.rows[key] == Digest(now + w, 1, [e.id], Created(1, now + w));
    acts, s := OneMore(start, acts, s, Advance(now + w));
    acts, s := OneMore(start, acts, s, Deliver(key, input));
  }

  /** When a route's window grows, from any clock reading on an event can be added too late. */
  lemma ChangedWindowCanBeLate(start: int, route: string, short: int, long: int, e: Event, input: Input)
    returns (acts: seq<Action>)
    requires WindowSeconds(short) < WindowSeconds(long) && input.attempt == Delivered
    ensures UsesOnly(acts, route, {short, long})
    ensures exists k :: LateAt(start, acts, k)
  {
    var now, n := CommonStart(start, short, long);
    var s;
    acts, s := FirstEvent(start, now, route, short, e, input);
    StartOfBucket(s.clock, long, n);
    var late := Arrive(route, long, 1, e);
    assert IsLate(s, late);
    var before := acts;
    acts, s := OneMore(start, before, s, late);
    assert acts[..|before|] == before;
    assert LateAt(start, acts, |before|);
  }

  /** All upserts are for this route, with windows from `windows`. */
  ghost predicate UsesOnly(acts: seq<Action>, route: string, windows: set<int>) {
    forall k | 0 <= k < |acts| && acts[k].Arrive? :: acts[k].route == route && acts[k].windowMinutes in windows
  }

  ghost predicate CanBeLate(start: int, route: string, windows: set<int>) {
    exists acts, k :: UsesOnly(acts, route, windows) && LateAt(start, acts, k)
  }

  /** From any clock reading on, late events are possible exactly when the route is used with windows of
      two lengths; windows that are not positive are read as 15 minutes. */
  lemma LateExactlyWithTwoWindows(start: int, route: string, windows: set<int>)
    ensures CanBeLate(start, route, windows) <==>
            exists a, b :: a in windows && b in windows && WindowSeconds(a) < WindowSeconds(b)
  {
    if && CanBeLate(start, route, windows)
       && !(exists a, b :: a in windows && b in windows && WindowSeconds(a) < WindowSeconds(b)) {
      var acts: seq<Action>, k: int :| UsesOnly(acts, route, windows) && LateAt(start, acts, k);
      var w := acts[k].windowMinutes;
      forall v | v in windows
        ensures WindowSeconds(v) == WindowSeconds(w)
      {
        assert !(WindowSeconds(v) < WindowSeconds(w)) && !(WindowSeconds(w) < WindowSeconds(v));
      }
      FixedWindowsAreNeverLate(start, acts, r => WindowSeconds(w), k);
    }
    if a, b :| a in windows && b in windows && WindowSeconds(a) < WindowSeconds(b) {
      var input := Input(Delivered, Escalation(false, 0, false, false, false), 0, 0);
      var acts := ChangedWindowCanBeLate(start, route, a, b, Event("", "", ""), input);
      var k :| LateAt(start, acts, k);
      assert UsesOnly(acts, route, windows);
    }
  }

  /** Under fixed windows a digest that has left collecting keeps its events. */
  lemma ClosedDigestIsFrozen(start: int, acts: seq<Action>, a: Action, length: string -> int, key: Key)
    requires FixedWindows(acts + [a], length) && Exec(start, acts).Some? && Apply(Exec(start, acts).value, a).Some?
    requires var s := Exec(start, acts).value;
             key in s.rows && s.rows[key].row.status != Waiting
    ensures var s, s' := Exec(start, acts).value, Apply(Exec(start, acts).value, a).value;
            key in s'.rows && s'.rows[key].count == s.rows[key].count && s'.rows[key].ids == s.rows[key].ids
  {
    assert (acts + [a])[..|acts|] == acts && (acts + [a])[|acts|] == a;
    FixedWindowsAreNeverLate(start, acts + [a], length, |acts|);
    assert !LateAt(start, acts + [a], |acts|);
  }
}
