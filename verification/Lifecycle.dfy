/** The delivery lifecycle shared by dispatch jobs and digests: attempts, retries, backoff and escalation. */
module Lifecycle {
  import opened Common

  const NANOS_PER_SECOND: int := 1_000_000_000
  const MIN_INT64: int := -0x8000_0000_0000_0000
  const BACKOFF_BASE: int := 10 * NANOS_PER_SECOND
  const BACKOFF_CAP: int := 1800 * NANOS_PER_SECOND

  // ---------------------------------------------------------------- backoff

  function Pow2(n: nat): (p: int)
    ensures p >= 1
  {
    if n == 0 then 1 else 2 * Pow2(n - 1)
  }

  /** A float64 whole number as an int64. Out of range the result depends on the machine: it is `unspecified`. */
  function ToInt64(x: int, unspecified: int): int {
    if MIN_INT64 <= x <= MAX_INT64 then x else unspecified
  }

  /** Ten seconds doubled with every attempt, at most half an hour. */
  function RetryBackoff(attempt: int, unspecified: int): int {
    if attempt <= 0 then BACKOFF_BASE
    else
      var d := ToInt64(Pow2(attempt - 1) * BACKOFF_BASE, unspecified);
      if d > BACKOFF_CAP then BACKOFF_CAP else d
  }

  lemma {:induction false} Pow2Grows(a: nat, b: nat)
    requires a <= b
    ensures Pow2(a) <= Pow2(b)
    decreases b
  {
    if a < b { Pow2Grows(a, b - 1); }
  }

  lemma Pow2Of10()
    ensures Pow2(10) == 1024
  {
    assert Pow2(5) == 32;
  }

  lemma {:induction false} Pow2Sum(a: nat, b: nat)
    ensures Pow2(a + b) == Pow2(a) * Pow2(b)
  {
    if b > 0 { Pow2Sum(a, b - 1); }
  }

  lemma Pow2Of29And30()
    ensures Pow2(29) == 0x2000_0000 && Pow2(30) == 0x4000_0000
  {
    Pow2Of10();
    Pow2Sum(10, 10);
    Pow2Sum(20, 10);
  }

  /** The conversion stays within 64 bits exactly up to the thirtieth attempt. */
  lemma BackoffFits(attempt: int)
    requires attempt >= 1
    ensures Pow2(attempt - 1) * BACKOFF_BASE <= MAX_INT64 <==> attempt <= 30
  {
    Pow2Of29And30();
    if attempt <= 30 {
      Pow2Grows(attempt - 1, 29);
    } else {
      Pow2Grows(30, attempt - 1);
    }
  }

  /** The backoff is within 10 seconds and 30 minutes, on every machine, exactly up to the thirtieth attempt. */
  lemma BackoffIsBoundedUpTo30(attempt: int)
    ensures (forall u | MIN_INT64 <= u <= MAX_INT64 :: BACKOFF_BASE <= RetryBackoff(attempt, u) <= BACKOFF_CAP)
            <==> attempt <= 30
  {
    if attempt >= 1 {
      BackoffFits(attempt);
      Pow2Grows(0, attempt - 1);
      if attempt > 30 {
        assert RetryBackoff(attempt, MIN_INT64) == MIN_INT64;
      }
    }
  }

  /** It happens at attempt 31, where the machine may make a negative wait of the overflow. */
  lemma BackoffAt31()
    ensures RetryBackoff(31, MIN_INT64) < 0
  {
    BackoffFits(31);
  }

  /** Up to there a later attempt never waits less. */
  lemma BackoffGrows(a: int, b: int, u: int, v: int)
    requires a <= b <= 30
    ensures RetryBackoff(a, u) <= RetryBackoff(b, v)
  {
    if b >= 1 {
      BackoffFits(b);
      Pow2Grows(0, b - 1);
      if a >= 1 {
        BackoffFits(a);
        Pow2Grows(0, a - 1);
        Pow2Grows(a - 1, b - 1);
      }
    }
  }

  // ---------------------------------------------------------------- rows

  datatype Status = Waiting | Sending | Retrying | Sent | Failed

  /** A job or digest row; `escalated` counts the escalation messages sent for it. Times are in seconds. */
  datatype Row = Row(status: Status, attempts: int, max: int, nextAt: int, escalated: nat)

  datatype Attempt = NoRecipients | BadConfig | Delivered | Refused

  /** What the route says about escalation when the row is processed. */
  datatype Escalation = Escalation(channel: bool, after: int, metadata: bool, recipients: bool, config: bool)

  /** Everything processing a row depends on: the attempt, the escalation settings, the clock, the machine. */
  datatype Input = Input(attempt: Attempt, escalation: Escalation, clock: int, unspecified: int)

  function Created(maxAttempts: int, nextAt: int): Row {
    Row(Waiting, 0, if maxAttempts <= 0 then 5 else maxAttempts, nextAt, 0)
  }

  predicate IsDue(r: Row, now: int) {
    (r.status == Waiting || r.status == Retrying) && r.attempts < r.max && r.nextAt <= now
  }

  /** Whether an escalation message is sent for a final failure after `failedAttempt` attempts. */
  predicate Escalates(e: Escalation, failedAttempt: int) {
    e.channel && !(e.after > 0 && failedAttempt < e.after) && e.metadata && e.recipients && e.config
  }

  /** A row after one processing. */
  function Settled(r: Row, i: Input): Row {
    var attempts := r.attempts + 1;
    match i.attempt
    case NoRecipients | BadConfig => r.(status := Failed, attempts := attempts)
    case Delivered => r.(status := Sent, attempts := attempts)
    case Refused =>
      if attempts >= r.max then
        r.(status := Failed, attempts := attempts,
           escalated := r.escalated + if Escalates(i.escalation, attempts) then 1 else 0)
      else
        r.(status := Retrying, attempts := attempts,
           nextAt := (i.clock + RetryBackoff(attempts, i.unspecified)) / NANOS_PER_SECOND)
  }

  // ---------------------------------------------------------------- one row over time

  ghost predicate RowInv(r: Row) {
    && r.max >= 1
    && match r.status
       case Waiting => r.attempts == 0 && r.escalated == 0
       case Retrying => 1 <= r.attempts < r.max && r.escalated == 0
       case Sent => 1 <= r.attempts <= r.max && r.escalated == 0
       case Failed => 1 <= r.attempts <= r.max && r.escalated <= 1 && (r.escalated == 1 ==> r.attempts == r.max)
       case Sending => false
  }

  predicate Terminal(r: Row) {
    r.status == Sent || r.status == Failed
  }

  lemma SettledInv(r: Row, now: int, i: Input)
    requires RowInv(r) && IsDue(r, now)
    ensures RowInv(Settled(r, i)) && Settled(r, i).attempts == r.attempts + 1 && Settled(r, i).max == r.max
    ensures Settled(r, i).escalated > r.escalated <==>
            i.attempt == Refused && r.attempts + 1 == r.max && Escalates(i.escalation, r.max)
    ensures Settled(r, i).status == Retrying ==> i.attempt == Refused && r.attempts + 1 < r.max
  {
  }

  /** An escalation threshold above the attempt limit is never reached. */
  lemma ThresholdAboveMaxNeverEscalates(r: Row, now: int, i: Input)
    requires RowInv(r) && IsDue(r, now) && i.escalation.after > r.max
    ensures Settled(r, i).escalated == r.escalated
  {
  }

  type Table = map<string, Row>

  /** One change of the table: rows are created, and due rows are processed. */
  ghost predicate RowStep(r: Row, r': Row) {
    r' == r || exists now, i :: IsDue(r, now) && r' == Settled(r, i)
  }

  ghost predicate IsFresh(r: Row) {
    exists m, n :: r == Created(m, n)
  }

  ghost predicate TableStep(t: Table, t': Table) {
    && (forall id | id in t :: id in t' && RowStep(t[id], t'[id]))
    && (forall id | id in t' && id !in t :: IsFresh(t'[id]))
  }

  ghost predicate StepAt(h: seq<Table>, k: int) {
    0 <= k < |h| - 1 && TableStep(h[k], h[k + 1])
  }

  /** A history of the table from empty. */
  ghost predicate IsHistory(h: seq<Table>) {
    |h| >= 1 && h[0] == map[] && forall k {:trigger StepAt(h, k)} | 0 <= k < |h| - 1 :: StepAt(h, k)
  }

  ghost predicate TableInv(t: Table) {
    forall id | id in t :: RowInv(t[id])
  }

  lemma RowStepInv(r: Row, r': Row)
    requires RowInv(r) && RowStep(r, r')
    ensures RowInv(r') && r'.max == r.max
    ensures r' == r || (!Terminal(r) && r'.attempts == r.attempts + 1)
    ensures r.escalated <= r'.escalated <= 1 && r'.attempts <= r'.max
  {
    if r' != r {
      var now, i :| IsDue(r, now) && r' == Settled(r, i);
      SettledInv(r, now, i);
    }
  }

  lemma TableStepInv(t: Table, t': Table)
    requires TableInv(t) && TableStep(t, t')
    ensures TableInv(t')
  {
    forall id | id in t'
      ensures RowInv(t'[id])
    {
      if id in t {
        RowStepInv(t[id], t'[id]);
      } else {
        assert IsFresh(t'[id]);
      }
    }
  }

  /** The row invariant holds in every table of every history. */
  lemma {:induction false} EveryHistoryKeepsInv(h: seq<Table>, k: nat)
    requires IsHistory(h) && k < |h|
    ensures TableInv(h[k])
  {
    if k > 0 {
      EveryHistoryKeepsInv(h, k - 1);
      assert StepAt(h, k - 1);
      TableStepInv(h[k - 1], h[k]);
    }
  }

  predicate Unchanged(t: Table, t': Table, id: string) {
    id in t && id in t' && t[id] == t'[id]
  }

  /** How often a row changed between two points of a history. */
  function Changes(h: seq<Table>, id: string, j: nat, k: nat): nat
    requires j <= k < |h|
    decreases k - j
  {
    if j == k then 0 else Changes(h, id, j, k - 1) + if Unchanged(h[k - 1], h[k], id) then 0 else 1
  }

  /** A row once created is in every later table. */
  lemma {:induction false} RowsStay(h: seq<Table>, id: string, j: nat, k: nat)
    requires IsHistory(h) && j <= k < |h| && id in h[j]
    ensures id in h[k]
    decreases k - j
  {
    if j < k {
      RowsStay(h, id, j, k - 1);
      assert StepAt(h, k - 1);
    }
  }

  /** One step of a history seen from one of its rows. */
  lemma RowInHistory(h: seq<Table>, id: string, k: nat)
    requires IsHistory(h) && k + 1 < |h| && id in h[k]
    ensures id in h[k + 1] && RowInv(h[k][id]) && RowInv(h[k + 1][id]) && RowStep(h[k][id], h[k + 1][id])
  {
    EveryHistoryKeepsInv(h, k);
    EveryHistoryKeepsInv(h, k + 1);
    assert StepAt(h, k);
  }

  /** What the life of a row between two points of a history looks like. */
  ghost predicate Lived(before: Row, after: Row, changes: nat) {
    && after.max == before.max
    && changes == after.attempts - before.attempts <= after.max - before.attempts
    && (Terminal(before) ==> after == before)
    && before.escalated <= after.escalated <= 1
  }

  lemma LivesOn(r: Row, r': Row, r'': Row, changes: nat)
    requires Lived(r, r', changes) && RowInv(r') && RowStep(r', r'')
    ensures Lived(r, r'', changes + if r' == r'' then 0 else 1)
  {
    RowStepInv(r', r'');
  }

  /** Every change uses up an attempt, so a row changes at most as often as it has attempts; the end states stay. */
  lemma {:induction false} RowLife(h: seq<Table>, id: string, j: nat, k: nat)
    requires IsHistory(h) && j <= k < |h| && id in h[j]
    ensures id in h[k] && Lived(h[j][id], h[k][id], Changes(h, id, j, k))
    decreases k - j
  {
    if j < k {
      RowLife(h, id, j, k - 1);
      RowInHistory(h, id, k - 1);
      LivesOn(h[j][id], h[k - 1][id], h[k][id], Changes(h, id, j, k - 1));
    } else {
      EveryHistoryKeepsInv(h, k);
      assert RowInv(h[k][id]);
    }
  }
}
