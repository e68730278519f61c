/** Dispatch jobs: the job table and the dispatcher's pass over the due jobs. */
module Alerts {
  import opened Common
  import opened Lifecycle

  const MAX_JOBS_PER_TICK := 30

  /** A due job as listed: a snapshot of its row. */
  datatype Listed = Listed(id: string, row: Row)

  /** The table after the rows in `done` have been processed once. */
  ghost function Processed(before: Table, done: set<string>, inputs: string -> Input): Table {
    map id | id in before :: if id in done then Settled(before[id], inputs(id)) else before[id]
  }

  ghost function IdsOf(jobs: seq<Listed>): set<string> {
    set k | 0 <= k < |jobs| :: jobs[k].id
  }

  /** The listing is a batch of the due jobs, earliest first, and leaves out only later ones. */
  ghost predicate IsDueList(rows: Table, now: int, limit: nat, jobs: seq<Listed>) {
    && |jobs| <= limit
    && (forall j, k | 0 <= j < k < |jobs| :: jobs[j].id != jobs[k].id)
    && (forall k | 0 <= k < |jobs| :: jobs[k].id in rows && jobs[k].row == rows[jobs[k].id] && IsDue(jobs[k].row, now))
    && (forall j, k | 0 <= j < k < |jobs| :: jobs[j].row.nextAt <= jobs[k].row.nextAt)
    && (forall id | id in rows && IsDue(rows[id], now) && id !in IdsOf(jobs) ::
          |jobs| == limit && forall k | 0 <= k < |jobs| :: jobs[k].row.nextAt <= rows[id].nextAt)
  }

  /** The due jobs listed so far, earliest first; those in `rest` are all the others, and later. */
  ghost predicate ListedFirst(rows: Table, now: int, jobs: seq<Listed>, rest: set<string>) {
    && (forall k | 0 <= k < |jobs| :: jobs[k].id in rows && jobs[k].row == rows[jobs[k].id] && IsDue(jobs[k].row, now))
    && (forall j, k | 0 <= j < k < |jobs| :: jobs[j].id != jobs[k].id && jobs[j].row.nextAt <= jobs[k].row.nextAt)
    && rest == (set id | id in rows && IsDue(rows[id], now) && id !in IdsOf(jobs))
    && (forall k, id | 0 <= k < |jobs| && id in rest :: jobs[k].row.nextAt <= rows[id].nextAt)
  }

  lemma IdsOneMore(jobs: seq<Listed>, job: Listed)
    ensures IdsOf(jobs + [job]) == IdsOf(jobs) + {job.id}
  {
    assert (jobs + [job])[|jobs|] == job;
    assert forall k | 0 <= k < |jobs| :: (jobs + [job])[k] == jobs[k];
  }

  lemma ListNext(rows: Table, now: int, jobs: seq<Listed>, rest: set<string>, id: string)
    requires ListedFirst(rows, now, jobs, rest) && id in rest
    requires forall other | other in rest :: rows[id].nextAt <= rows[other].nextAt
    ensures ListedFirst(rows, now, jobs + [Listed(id, rows[id])], rest - {id})
  {
    IdsOneMore(jobs, Listed(id, rows[id]));
    assert forall k | 0 <= k < |jobs| :: jobs[k].id in IdsOf(jobs);
  }

  lemma ProcessedOneMore(before: Table, done: set<string>, inputs: string -> Input, id: string)
    requires id in before
    ensures Processed(before, done, inputs)[id := Settled(before[id], inputs(id))]
            == Processed(before, done + {id}, inputs)
  {
  }

  lemma ProcessedIsStep(before: Table, now: int, done: set<string>, inputs: string -> Input)
    requires forall id | id in done && id in before :: IsDue(before[id], now)
    ensures TableStep(before, Processed(before, done, inputs))
  {
    var after := Processed(before, done, inputs);
    forall id | id in before
      ensures RowStep(before[id], after[id])
    {
      if id in done {
        assert IsDue(before[id], now) && after[id] == Settled(before[id], inputs(id));
      }
    }
  }

  class JobTable {
    var rows: Table

    constructor ()
      ensures rows == map[]
    {
      rows := map[];
    }

    method Create(id: string, maxAttempts: int, nextAt: int)
      requires id !in rows
      modifies this
      ensures rows == old(rows)[id := Created(maxAttempts, nextAt)]
      ensures TableStep(old(rows), rows)
    {
      ghost var before := rows;
      rows := rows[id := Row(Waiting, 0, if maxAttempts <= 0 then 5 else maxAttempts, nextAt, 0)];
      assert rows[id] == Created(maxAttempts, nextAt);
    }

    method MarkSending(id: string)
      requires id in rows
      modifies this
      ensures rows == old(rows)[id := old(rows)[id].(status := Sending, attempts := old(rows)[id].attempts + 1)]
    {
      rows := rows[id := rows[id].(status := Sending, attempts := rows[id].attempts + 1)];
    }

    method MarkSent(id: string)
      requires id in rows
      modifies this
      ensures rows == old(rows)[id := old(rows)[id].(status := Sent)]
    {
      rows := rows[id := rows[id].(status := Sent)];
    }

    method MarkRetry(id: string, nextAt: int)
      requires id in rows
      modifies this
      ensures rows == old(rows)[id := old(rows)[id].(status := Retrying, nextAt := nextAt)]
    {
      rows := rows[id := rows[id].(status := Retrying, nextAt := nextAt)];
    }

    method MarkFailed(id: string)
      requires id in rows
      modifies this
      ensures rows == old(rows)[id := old(rows)[id].(status := Failed)]
    {
      rows := rows[id := rows[id].(status := Failed)];
    }

    /** Sends the escalation message of a job when its route asks for one. */
    method TryEscalation(id: string, e: Escalation, failedAttempt: int)
      requires id in rows
      modifies this
      ensures rows == old(rows)[id := old(rows)[id].(escalated := old(rows)[id].escalated
                                                      + if Escalates(e, failedAttempt) then 1 else 0)]
    {
      if !e.channel {
        return;
      }
      if e.after > 0 && failedAttempt < e.after {
        return;
      }
      if !e.metadata || !e.recipients || !e.config {
        return;
      }
      rows := rows[id := rows[id].(escalated := rows[id].escalated + 1)];
    }

    /** The due job with the earliest next attempt among `ids`. */
    method Earliest(ids: set<string>) returns (best: string)
      requires ids != {} && ids <= rows.Keys
      ensures best in ids && forall id | id in ids :: rows[best].nextAt <= rows[id].nextAt
    {
      best :| best in ids;
      var rest := ids - {best};
      while rest != {}
        invariant best in ids && rest <= ids
        invariant forall id | id in ids - rest :: rows[best].nextAt <= rows[id].nextAt
      {
        var id :| id in rest;
        if rows[id].nextAt < rows[best].nextAt {
          best := id;
        }
        rest := rest - {id};
      }
    }

    method ListDue(now: int, limit: int) returns (jobs: seq<Listed>)
      ensures IsDueList(rows, now, if limit <= 0 then 20 else limit, jobs)
    {
      var cap := if limit <= 0 then 20 else limit;
      var rest := set id | id in rows && IsDue(rows[id], now);
      jobs := [];
      while |jobs| < cap && rest != {}
        invariant |jobs| <= cap && ListedFirst(rows, now, jobs, rest)
        decreases cap - |jobs|
      {
        var id := Earliest(rest);
        ListNext(rows, now, jobs, rest, id);
        jobs := jobs + [Listed(id, rows[id])];
        rest := rest - {id};
      }
      forall id | id in rows && IsDue(rows[id], now) && id !in IdsOf(jobs)
        ensures |jobs| == cap && forall k | 0 <= k < |jobs| :: jobs[k].row.nextAt <= rows[id].nextAt
      {
        assert id in rest;
      }
    }

    /** Attempts one listed job and records the outcome. */
    method ProcessJob(job: Listed, i: Input)
      requires job.id in rows && rows[job.id] == job.row
      modifies this
      ensures rows == old(rows)[job.id := Settled(job.row, i)]
    {
      MarkSending(job.id);
      match i.attempt {
        case NoRecipients => MarkFailed(job.id);
        case BadConfig => MarkFailed(job.id);
        case Delivered => MarkSent(job.id);
        case Refused =>
          var nextAttempt := job.row.attempts + 1;
          if nextAttempt >= job.row.max {
            TryEscalation(job.id, i.escalation, nextAttempt);
            MarkFailed(job.id);
          } else {
            MarkRetry(job.id, (i.clock + RetryBackoff(nextAttempt, i.unspecified)) / NANOS_PER_SECOND);
          }
      }
    }

    /** One pass of the dispatcher over the due jobs. */
    method ProcessDueJobs(now: int, inputs: string -> Input) returns (jobs: seq<Listed>)
      modifies this
      ensures IsDueList(old(rows), now, MAX_JOBS_PER_TICK, jobs)
      ensures rows == Processed(old(rows), IdsOf(jobs), inputs)
      ensures TableStep(old(rows), rows)
    {
      ghost var before := rows;
      jobs := ListDue(now, MAX_JOBS_PER_TICK);
      assert IdsOf(jobs[..0]) == {};
      assert rows == Processed(before, {}, inputs);
      for k := 0 to |jobs|
        invariant rows == Processed(before, IdsOf(jobs[..k]), inputs)
      {
        NotYetProcessed(before, now, MAX_JOBS_PER_TICK, jobs, k);
        ProcessedOneMore(before, IdsOf(jobs[..k]), inputs, jobs[k].id);
        ProcessJob(jobs[k], inputs(jobs[k].id));
      }
      assert jobs[..|jobs|] == jobs;
      ProcessedIsStep(before, now, IdsOf(jobs), inputs);
    }
  }

  lemma NotYetProcessed(rows: Table, now: int, limit: nat, jobs: seq<Listed>, k: nat)
    requires IsDueList(rows, now, limit, jobs) && k < |jobs|
    ensures jobs[k].id !in IdsOf(jobs[..k])
    ensures IdsOf(jobs[..k + 1]) == IdsOf(jobs[..k]) + {jobs[k].id}
  {
    var longer := jobs[..k + 1];
    assert longer[k] == jobs[k];
    assert forall j | 0 <= j < k :: longer[j] == jobs[..k][j];
  }
}
