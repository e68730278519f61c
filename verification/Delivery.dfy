/** Kafka ingestion: partition consumers, the batch channel, the pipeline runner and offset marking. */
module Delivery {
  import opened Common

  datatype Msg = Msg(part: int, offset: int, value: string)

  /** The records of one partition handed over together, and the messages its acknowledgement marks. */
  datatype Batch = Batch(part: int, msgs: seq<Msg>, records: seq<string>)

  /** Every message becomes one record carrying the message's own bytes, parsed or not. */
  function RecordsOf(msgs: seq<Msg>): (r: seq<string>)
    ensures |r| == |msgs|
  {
    if msgs == [] then [] else RecordsOf(msgs[..|msgs| - 1]) + [msgs[|msgs| - 1].value]
  }

  function BatchOf(p: int, msgs: seq<Msg>): Batch {
    Batch(p, msgs, RecordsOf(msgs))
  }

  datatype Outcome = Outcome(batch: Batch, written: bool)

  datatype Mode = Listening | Flushing | Closing | Closed

  /** A partition consumer: everything it received, and what it has not handed over yet. */
  datatype Claim = Claim(received: seq<Msg>, buf: seq<Msg>, mode: Mode)

  /** The runner between and during batches; `Ended` keeps a batch taken but not written. */
  datatype RunnerState =
    | Idle
    | Writing(batch: Batch)
    | Acking(batch: Batch, next: nat)
    | Ended(unwritten: seq<Batch>)

  datatype Metrics = Metrics(rows: nat, bytes: nat, batches: nat, errors: nat)

  /**
   * `ended` says that the consumer session is over, by a rebalance for instance; `cancelled` says that the
   * pipeline's own context is, which ends the session too.
   */
  datatype State = State(claims: map<int, Claim>, channel: seq<Batch>, runner: RunnerState,
                         processed: seq<Outcome>, marked: seq<Msg>, metrics: Metrics, ended: bool, cancelled: bool)

  const CHANNEL_CAPACITY := 10

  datatype Action =
    | Receive(p: int, m: Msg)
    | Tick(p: int)
    | Send(p: int)
    | Abort(p: int)
    | Shut(p: int)
    | EndSession
    | Cancel
    | Take
    | WriteOk
    | WriteFail
    | Mark
    | Finish
    | Drained

  function Bytes(records: seq<string>): nat {
    if records == [] then 0 else Bytes(records[..|records| - 1]) + |records[|records| - 1]|
  }

  /** After a flush the consumer goes back to listening, or ends if it was closing. */
  function Resumed(m: Mode): Mode {
    if m == Closing then Closed else Listening
  }

  predicate InOrder(received: seq<Msg>, m: Msg) {
    received != [] ==> received[|received| - 1].offset < m.offset
  }

  /** One step of a partition consumer; the flag says whether the session has ended. */
  function ClaimStep(c: Claim, p: int, a: Action, batchSize: int, ended: bool): Option<Claim> {
    match a
    case Receive(_, m) =>
      if c.mode == Listening && m.part == p && InOrder(c.received, m) then
        Some(Claim(c.received + [m], c.buf + [m], if |c.buf| + 1 >= batchSize then Flushing else Listening))
      else None
    case Tick(_) =>
      if c.mode == Listening then Some(if c.buf == [] then c else c.(mode := Flushing)) else None
    case Send(_) =>
      if c.mode in {Flushing, Closing} && c.buf != [] then Some(c.(buf := [], mode := Resumed(c.mode))) else None
    case Abort(_) =>
      if c.mode in {Flushing, Closing} && ended then Some(c.(mode := Resumed(c.mode))) else None
    case Shut(_) =>
      if c.mode == Listening then Some(c.(mode := if c.buf == [] then Closed else Closing)) else None
    case _ => None
  }

  /** One step of the runner over its own part of the state. */
  function RunnerStep(s: State, a: Action): Option<State> {
    match (a, s.runner)
    case (Take, Idle) =>
      if s.channel == [] then None
      else Some(s.(channel := s.channel[1..],
                   runner := if s.cancelled then Ended([s.channel[0]]) else Writing(s.channel[0])))
    case (Drained, Idle) =>
      if s.channel == [] && forall p | p in s.claims :: s.claims[p].mode == Closed then Some(s.(runner := Ended([])))
      else None
    case (WriteOk, Writing(b)) => Some(s.(runner := Acking(b, 0)))
    case (WriteFail, Writing(b)) =>
      Some(s.(runner := Idle, processed := s.processed + [Outcome(b, false)],
              metrics := s.metrics.(errors := s.metrics.errors + 1)))
    case (Mark, Acking(b, k)) =>
      if k < |b.msgs| then Some(s.(runner := Acking(b, k + 1), marked := s.marked + [b.msgs[k]])) else None
    case (Finish, Acking(b, k)) =>
      if k == |b.msgs| then
        Some(s.(runner := Idle, processed := s.processed + [Outcome(b, true)],
                metrics := s.metrics.(rows := s.metrics.rows + |b.records|, bytes := s.metrics.bytes + Bytes(b.records),
                                      batches := s.metrics.batches + 1)))
      else None
    case _ => None
  }

  predicate OfConsumer(a: Action) {
    a.Receive? || a.Tick? || a.Send? || a.Abort? || a.Shut?
  }

  /** The state after an action, if the action is possible. */
  function Apply(s: State, a: Action, batchSize: int): Option<State> {
    if a.EndSession? then Some(s.(ended := true))
    else if a.Cancel? then Some(s.(ended := true, cancelled := true))
    else if !OfConsumer(a) then RunnerStep(s, a)
    else if a.p !in s.claims || (a.Send? && |s.channel| >= CHANNEL_CAPACITY) then None
    else
      var c := s.claims[a.p];
      match ClaimStep(c, a.p, a, batchSize, s.ended)
      case None => None
      case Some(c') =>
        Some(s.(claims := s.claims[a.p := c'],
                channel := if a.Send? then s.channel + [BatchOf(a.p, c.buf)] else s.channel))
  }

  function Initial(parts: set<int>): State {
    State(map p | p in parts :: Claim([], [], Listening), [], Idle, [], [], Metrics(0, 0, 0, 0), false, false)
  }

  /** The state after a whole interleaving of consumers, session and runner. */
  function Exec(parts: set<int>, acts: seq<Action>, batchSize: int): Option<State> {
    if acts == [] then Some(Initial(parts))
    else
      match Exec(parts, acts[..|acts| - 1], batchSize)
      case None => None
      case Some(s) => Apply(s, acts[|acts| - 1], batchSize)
  }

  // ---------------------------------------------------------------- history

  function Batches(log: seq<Outcome>): seq<Batch> {
    if log == [] then [] else Batches(log[..|log| - 1]) + [log[|log| - 1].batch]
  }

  function Held(r: RunnerState): seq<Batch> {
    match r
    case Idle => []
    case Writing(b) => [b]
    case Acking(b, _) => [b]
    case Ended(u) => u
  }

  /** Every batch handed over so far, oldest first. */
  function Emitted(s: State): seq<Batch> {
    Batches(s.processed) + Held(s.runner) + s.channel
  }

  /** The messages of partition `p` in a list of batches. */
  function Flat(bs: seq<Batch>, p: int): seq<Msg> {
    if bs == [] then []
    else Flat(bs[..|bs| - 1], p) + if bs[|bs| - 1].part == p then bs[|bs| - 1].msgs else []
  }

  /** The messages of the batches whose write succeeded, in processing order. */
  function Acked(log: seq<Outcome>): seq<Msg> {
    if log == [] then []
    else Acked(log[..|log| - 1]) + if log[|log| - 1].written then log[|log| - 1].batch.msgs else []
  }

  function PartlyMarked(r: RunnerState): seq<Msg> {
    match r
    case Acking(b, k) => if k <= |b.msgs| then b.msgs[..k] else []
    case _ => []
  }

  function Totals(log: seq<Outcome>): Metrics {
    if log == [] then Metrics(0, 0, 0, 0)
    else
      var t := Totals(log[..|log| - 1]);
      var o := log[|log| - 1];
      if o.written then Metrics(t.rows + |o.batch.records|, t.bytes + Bytes(o.batch.records), t.batches + 1, t.errors)
      else t.(errors := t.errors + 1)
  }

  // ---------------------------------------------------------------- the invariant

  ghost predicate Increasing(msgs: seq<Msg>) {
    forall i, j | 0 <= i < j < |msgs| :: msgs[i].offset < msgs[j].offset
  }

  ghost predicate ProperBatch(b: Batch) {
    b.msgs != [] && b.records == RecordsOf(b.msgs) && forall i | 0 <= i < |b.msgs| :: b.msgs[i].part == b.part
  }

  ghost predicate Before(a: seq<Msg>, b: seq<Msg>) {
    forall x, y | x in a && y in b :: x.offset < y.offset
  }

  /** What one consumer received is what it handed over, in order, followed by what it still buffers. */
  ghost predicate ClaimInv(c: Claim, p: int, emitted: seq<Batch>) {
    && c.received == Flat(emitted, p) + c.buf
    && Increasing(c.received)
    && (forall i | 0 <= i < |c.received| :: c.received[i].part == p)
  }

  ghost predicate Inv(s: State) {
    && (forall p | p in s.claims :: ClaimInv(s.claims[p], p, Emitted(s)))
    && (forall i | 0 <= i < |Emitted(s)| :: ProperBatch(Emitted(s)[i]) && Emitted(s)[i].part in s.claims)
    && (s.runner.Acking? ==> s.runner.next <= |s.runner.batch.msgs|)
    && s.marked == Acked(s.processed) + PartlyMarked(s.runner)
    && s.metrics == Totals(s.processed)
  }

  lemma InitialInv(parts: set<int>)
    ensures Inv(Initial(parts))
  {
  }

  lemma FlatAppend(bs: seq<Batch>, b: Batch, p: int)
    ensures Flat(bs + [b], p) == Flat(bs, p) + if b.part == p then b.msgs else []
  {
    assert (bs + [b])[..|bs|] == bs;
  }

  lemma LastIsGreatest(received: seq<Msg>, m: Msg)
    requires Increasing(received) && InOrder(received, m)
    ensures Increasing(received + [m])
  {
  }

  lemma ClaimStepInv(c: Claim, p: int, a: Action, batchSize: int, ended: bool, emitted: seq<Batch>)
    requires ClaimInv(c, p, emitted)
    requires !a.Send? && ClaimStep(c, p, a, batchSize, ended).Some?
    ensures ClaimInv(ClaimStep(c, p, a, batchSize, ended).value, p, emitted)
  {
    if a.Receive? {
      LastIsGreatest(c.received, a.m);
      assert c.received + [a.m] == Flat(emitted, p) + (c.buf + [a.m]);
    }
  }

  lemma SendInv(c: Claim, p: int, batchSize: int, ended: bool, emitted: seq<Batch>)
    requires ClaimInv(c, p, emitted) && ClaimStep(c, p, Send(p), batchSize, ended).Some?
    ensures ClaimInv(ClaimStep(c, p, Send(p), batchSize, ended).value, p, emitted + [BatchOf(p, c.buf)])
    ensures ProperBatch(BatchOf(p, c.buf))
  {
    FlatAppend(emitted, BatchOf(p, c.buf), p);
    assert Flat(emitted + [BatchOf(p, c.buf)], p) + [] == c.received;
    forall i | 0 <= i < |c.buf|
      ensures c.buf[i].part == p
    {
      assert c.buf[i] == c.received[|Flat(emitted, p)| + i];
    }
  }

  lemma OtherClaimInv(c: Claim, p: int, emitted: seq<Batch>, b: Batch)
    requires ClaimInv(c, p, emitted) && b.part != p
    ensures ClaimInv(c, p, emitted + [b])
  {
    FlatAppend(emitted, b, p);
  }

  lemma ConsumerInv(s: State, a: Action, batchSize: int)
    requires Inv(s) && Apply(s, a, batchSize).Some?
    requires a.Receive? || a.Tick? || a.Abort? || a.Shut?
    ensures Inv(Apply(s, a, batchSize).value)
  {
    var s' := Apply(s, a, batchSize).value;
    assert Emitted(s') == Emitted(s);
    ClaimStepInv(s.claims[a.p], a.p, a, batchSize, s.ended, Emitted(s));
  }

  lemma HandOverInv(s: State, a: Action, batchSize: int)
    requires Inv(s) && a.Send? && Apply(s, a, batchSize).Some?
    ensures Inv(Apply(s, a, batchSize).value)
  {
    var s' := Apply(s, a, batchSize).value;
    var c := s.claims[a.p];
    var b := BatchOf(a.p, c.buf);
    assert Emitted(s') == Emitted(s) + [b];
    SendInv(c, a.p, batchSize, s.ended, Emitted(s));
    forall p | p in s'.claims
      ensures ClaimInv(s'.claims[p], p, Emitted(s'))
    {
      if p != a.p { OtherClaimInv(s.claims[p], p, Emitted(s), b); }
    }
  }

  lemma SettleKeepsEmitted(s: State, a: Action)
    requires (a.WriteFail? || a.Finish?) && RunnerStep(s, a).Some?
    ensures Emitted(RunnerStep(s, a).value) == Emitted(s)
  {
    var s' := RunnerStep(s, a).value;
    BatchesAppend(s.processed, s'.processed[|s.processed|]);
    assert Held(s.runner) == [s.runner.batch] && Held(s'.runner) == [];
    assert Batches(s'.processed) + [] == Batches(s.processed) + [s.runner.batch];
  }

  lemma TakeKeepsEmitted(s: State)
    requires RunnerStep(s, Take).Some?
    ensures Emitted(RunnerStep(s, Take).value) == Emitted(s)
  {
    var done := Batches(s.processed);
    assert s.channel == [s.channel[0]] + s.channel[1..];
    assert done + [] + s.channel == done + [s.channel[0]] + s.channel[1..];
  }

  /** The runner moves batches along but never changes which have been handed over. */
  lemma RunnerKeepsEmitted(s: State, a: Action)
    requires RunnerStep(s, a).Some?
    ensures Emitted(RunnerStep(s, a).value) == Emitted(s)
    ensures RunnerStep(s, a).value.claims == s.claims
  {
    if a.WriteFail? || a.Finish? {
      SettleKeepsEmitted(s, a);
    } else if a.Take? {
      TakeKeepsEmitted(s);
    }
  }

  lemma BatchesAppend(log: seq<Outcome>, o: Outcome)
    ensures Batches(log + [o]) == Batches(log) + [o.batch]
  {
    assert (log + [o])[..|log|] == log;
  }

  lemma SettleInv(s: State, a: Action)
    requires Inv(s) && (a.WriteFail? || a.Finish?) && RunnerStep(s, a).Some?
    ensures var s' := RunnerStep(s, a).value;
            && s'.marked == Acked(s'.processed) + PartlyMarked(s'.runner)
            && s'.metrics == Totals(s'.processed)
  {
    var s' := RunnerStep(s, a).value;
    assert s'.processed[..|s.processed|] == s.processed;
    if a.Finish? {
      assert s.runner.batch.msgs[..s.runner.next] == s.runner.batch.msgs;
    }
  }

  lemma MarkInv(s: State)
    requires Inv(s) && RunnerStep(s, Mark).Some?
    ensures var s' := RunnerStep(s, Mark).value;
            s'.marked == Acked(s'.processed) + PartlyMarked(s'.runner)
  {
    var b, k := s.runner.batch, s.runner.next;
    assert b.msgs[..k + 1] == b.msgs[..k] + [b.msgs[k]];
  }

  lemma RunnerInv(s: State, a: Action)
    requires Inv(s) && RunnerStep(s, a).Some?
    ensures Inv(RunnerStep(s, a).value)
  {
    RunnerKeepsEmitted(s, a);
    if a.WriteFail? || a.Finish? {
      SettleInv(s, a);
    } else if a.Mark? {
      MarkInv(s);
    }
  }

  lemma StepInv(s: State, a: Action, batchSize: int)
    requires Inv(s) && Apply(s, a, batchSize).Some?
    ensures Inv(Apply(s, a, batchSize).value)
  {
    if a.EndSession? || a.Cancel? {
      assert Emitted(s.(ended := true)) == Emitted(s) == Emitted(s.(ended := true, cancelled := true));
    } else if a.Send? {
      HandOverInv(s, a, batchSize);
    } else if OfConsumer(a) {
      ConsumerInv(s, a, batchSize);
    } else {
      RunnerInv(s, a);
    }
  }

  /** Every interleaving keeps the invariant. */
  lemma {:induction false} EveryRunKeepsInv(parts: set<int>, acts: seq<Action>, batchSize: int)
    requires Exec(parts, acts, batchSize).Some?
    ensures Inv(Exec(parts, acts, batchSize).value)
  {
    if acts == [] {
      InitialInv(parts);
    } else {
      var init := acts[..|acts| - 1];
      EveryRunKeepsInv(parts, init, batchSize);
      StepInv(Exec(parts, init, batchSize).value, acts[|acts| - 1], batchSize);
    }
  }

  // ---------------------------------------------------------------- what every interleaving promises

  /** The write of the `i`-th batch handed over has succeeded. */
  ghost predicate WrittenAt(s: State, i: int) {
    if i == |s.processed| then s.runner.Acking? else 0 <= i < |s.processed| && s.processed[i].written
  }

  /** Some message of the `i`-th batch handed over has been marked. */
  ghost predicate MarkedAt(s: State, i: int) {
    WrittenAt(s, i) && (i == |s.processed| ==> s.runner.next > 0)
  }

  ghost predicate FailedAt(s: State, i: int) {
    0 <= i < |s.processed| && !s.processed[i].written
  }

  /** The sink holds the message. */
  ghost predicate Written(s: State, m: Msg) {
    exists i :: 0 <= i < |Emitted(s)| && WrittenAt(s, i) && m in Emitted(s)[i].msgs
  }

  lemma {:induction false} BatchesAt(log: seq<Outcome>, i: nat)
    requires i < |log|
    ensures |Batches(log)| == |log| && Batches(log)[i] == log[i].batch
  {
    if i < |log| - 1 {
      BatchesAt(log[..|log| - 1], i);
    } else if |log| > 1 {
      BatchesAt(log[..|log| - 1], 0);
    }
  }

  lemma {:induction false} FromWrittenBatch(log: seq<Outcome>, m: Msg)
    ensures m in Acked(log) <==> exists i :: 0 <= i < |log| && log[i].written && m in log[i].batch.msgs
  {
    if log != [] {
      var init, last := log[..|log| - 1], log[|log| - 1];
      FromWrittenBatch(init, m);
      if m in Acked(init) {
        var i :| 0 <= i < |init| && init[i].written && m in init[i].batch.msgs;
        assert log[i].written && m in log[i].batch.msgs;
      } else if last.written && m in last.batch.msgs {
        assert log[|log| - 1].written;
      }
    }
  }

  lemma EmittedAt(s: State, i: nat)
    ensures i < |s.processed| ==> i < |Emitted(s)| && Emitted(s)[i] == s.processed[i].batch
    ensures i == |s.processed| && s.runner.Acking? ==> i < |Emitted(s)| && Emitted(s)[i] == s.runner.batch
  {
    if i < |s.processed| {
      BatchesAt(s.processed, i);
    } else if s.processed != [] {
      BatchesAt(s.processed, 0);
    }
  }

  /** A marked message belongs to a batch whose write succeeded. */
  lemma MarkedHasBatch(s: State, h: Msg) returns (j: nat)
    requires Inv(s) && h in s.marked
    ensures j < |Emitted(s)| && MarkedAt(s, j) && h in Emitted(s)[j].msgs
  {
    FromWrittenBatch(s.processed, h);
    if h in Acked(s.processed) {
      j :| 0 <= j < |s.processed| && s.processed[j].written && h in s.processed[j].batch.msgs;
    } else {
      j := |s.processed|;
      assert h in PartlyMarked(s.runner);
    }
    EmittedAt(s, j);
  }

  lemma BatchHasMarked(s: State, j: nat) returns (h: Msg)
    requires Inv(s) && j < |Emitted(s)| && MarkedAt(s, j)
    ensures h in s.marked && h in Emitted(s)[j].msgs
  {
    EmittedAt(s, j);
    assert ProperBatch(Emitted(s)[j]);
    h := Emitted(s)[j].msgs[0];
    if j < |s.processed| {
      FromWrittenBatch(s.processed, h);
      assert s.processed[j].written && h in s.processed[j].batch.msgs;
    } else {
      assert PartlyMarked(s.runner)[0] == h;
    }
  }

  /** Between batches the marked messages are exactly those the sink holds. */
  lemma MarkedExactlyWritten(s: State, m: Msg)
    requires Inv(s)
    ensures m in s.marked ==> Written(s, m)
    ensures !s.runner.Acking? && Written(s, m) ==> m in s.marked
  {
    if m in s.marked {
      var j := MarkedHasBatch(s, m);
    }
    if !s.runner.Acking? && Written(s, m) {
      var i :| 0 <= i < |Emitted(s)| && WrittenAt(s, i) && m in Emitted(s)[i].msgs;
      EmittedAt(s, i);
      FromWrittenBatch(s.processed, m);
      assert s.processed[i].written && m in s.processed[i].batch.msgs;
    }
  }

  lemma {:induction false} InFlat(bs: seq<Batch>, p: int, m: Msg)
    ensures m in Flat(bs, p) <==> exists i :: 0 <= i < |bs| && bs[i].part == p && m in bs[i].msgs
  {
    if bs != [] {
      var init, last := bs[..|bs| - 1], bs[|bs| - 1];
      InFlat(init, p, m);
      if m in Flat(init, p) {
        var i :| 0 <= i < |init| && init[i].part == p && m in init[i].msgs;
        assert bs[i].part == p && m in bs[i].msgs;
      } else if last.part == p && m in last.msgs {
        assert bs[|bs| - 1].part == p;
      }
    }
  }

  lemma PartsIncreasing(a: seq<Msg>, b: seq<Msg>)
    requires Increasing(a + b)
    ensures Increasing(a) && Increasing(b) && Before(a, b)
  {
    forall i, j | 0 <= i < j < |a|
      ensures a[i].offset < a[j].offset
    {
      assert (a + b)[i] == a[i] && (a + b)[j] == a[j];
    }
    forall i, j | 0 <= i < j < |b|
      ensures b[i].offset < b[j].offset
    {
      assert (a + b)[|a| + i] == b[i] && (a + b)[|a| + j] == b[j];
    }
    forall x, y | x in a && y in b
      ensures x.offset < y.offset
    {
      var i :| 0 <= i < |a| && a[i] == x;
      var j :| 0 <= j < |b| && b[j] == y;
      assert (a + b)[i] == x && (a + b)[|a| + j] == y;
    }
  }

  /** Of two batches of a partition the earlier one holds the smaller offsets. */
  lemma {:induction false} EarlierIsSmaller(bs: seq<Batch>, p: int, i: nat, j: nat)
    requires i < j < |bs| && bs[i].part == p && bs[j].part == p && Increasing(Flat(bs, p))
    ensures Before(bs[i].msgs, bs[j].msgs)
  {
    var init, last := bs[..|bs| - 1], bs[|bs| - 1];
    PartsIncreasing(Flat(init, p), if last.part == p then last.msgs else []);
    if j == |bs| - 1 {
      forall x, y | x in bs[i].msgs && y in bs[j].msgs
        ensures x.offset < y.offset
      {
        assert init[i].part == p && x in init[i].msgs;
        InFlat(init, p, x);
      }
    } else {
      EarlierIsSmaller(init, p, i, j);
    }
  }

  lemma EmittedInOrder(s: State, p: int, i: nat, j: nat)
    requires Inv(s) && i < j < |Emitted(s)| && Emitted(s)[i].part == p && Emitted(s)[j].part == p
    ensures Before(Emitted(s)[i].msgs, Emitted(s)[j].msgs)
  {
    var c := s.claims[p];
    PartsIncreasing(Flat(Emitted(s), p), c.buf);
    EarlierIsSmaller(Emitted(s), p, i, j);
  }

  /** The batches of a partition are an in-order, duplicate-free prefix of what its consumer received. */
  lemma EmittedIsPrefix(s: State, p: int)
    requires Inv(s) && p in s.claims
    ensures Flat(Emitted(s), p) <= s.claims[p].received
    ensures Increasing(s.claims[p].received)
    ensures s.claims[p].mode == Closed && s.claims[p].buf == [] ==> Flat(Emitted(s), p) == s.claims[p].received
  {
  }

  // ---------------------------------------------------------------- at-least-once

  /** Everything up to the highest marked offset of the partition is in the sink. */
  ghost predicate AtLeastOnce(s: State, p: int) {
    p in s.claims ==>
      forall m, h | m in s.claims[p].received && h in s.marked && h.part == p && m.offset <= h.offset :: Written(s, m)
  }

  /** A batch of the partition was marked after an earlier one had failed. */
  ghost predicate MarkedPastFailure(s: State, p: int) {
    exists i, j :: 0 <= i < j < |Emitted(s)| && FailedAt(s, i) && MarkedAt(s, j)
                   && Emitted(s)[i].part == p && Emitted(s)[j].part == p
  }

  /** A received message not above a handed-over one has itself been handed over. */
  lemma HandedOver(s: State, p: int, m: Msg, h: Msg, j: nat) returns (i: nat)
    requires Inv(s) && p in s.claims && m in s.claims[p].received && m.offset <= h.offset
    requires j < |Emitted(s)| && Emitted(s)[j].part == p && h in Emitted(s)[j].msgs
    ensures i < |Emitted(s)| && Emitted(s)[i].part == p && m in Emitted(s)[i].msgs
  {
    var e, c := Emitted(s), s.claims[p];
    InFlat(e, p, h);
    PartsIncreasing(Flat(e, p), c.buf);
    assert m in Flat(e, p);
    InFlat(e, p, m);
    i :| 0 <= i < |e| && e[i].part == p && m in e[i].msgs;
  }

  lemma SafeWithoutFailure(s: State, p: int, m: Msg, h: Msg)
    requires Inv(s) && p in s.claims && !MarkedPastFailure(s, p)
    requires m in s.claims[p].received && h in s.marked && h.part == p && m.offset <= h.offset
    ensures Written(s, m)
  {
    var j := MarkedHasBatch(s, h);
    assert ProperBatch(Emitted(s)[j]);
    var i := HandedOver(s, p, m, h, j);
    if j < i {
      EmittedInOrder(s, p, j, i);
    }
    assert i < j ==> !FailedAt(s, i);
    assert WrittenAt(s, i);
  }

  lemma LostPastFailure(s: State, p: int, i: nat, j: nat) returns (m: Msg, h: Msg)
    requires Inv(s) && i < j < |Emitted(s)| && FailedAt(s, i) && MarkedAt(s, j)
    requires Emitted(s)[i].part == p && Emitted(s)[j].part == p
    ensures p in s.claims && m in s.claims[p].received && h in s.marked && h.part == p && m.offset <= h.offset
    ensures !Written(s, m)
  {
    var e := Emitted(s);
    assert ProperBatch(e[i]) && ProperBatch(e[j]);
    m := e[i].msgs[0];
    h := BatchHasMarked(s, j);
    EmittedInOrder(s, p, i, j);
    InFlat(e, p, m);
    forall k | 0 <= k < |e| && WrittenAt(s, k)
      ensures m !in e[k].msgs
    {
      NotAlsoIn(s, p, i, k, m);
    }
  }

  lemma NotAlsoIn(s: State, p: int, i: nat, k: nat, m: Msg)
    requires Inv(s) && i < |Emitted(s)| && k < |Emitted(s)| && i != k
    requires Emitted(s)[i].part == p && m in Emitted(s)[i].msgs
    ensures m !in Emitted(s)[k].msgs
  {
    var e := Emitted(s);
    assert ProperBatch(e[i]) && ProperBatch(e[k]);
    if m in e[k].msgs {
      assert e[k].part == m.part == p;
      if i < k {
        EmittedInOrder(s, p, i, k);
      } else {
        EmittedInOrder(s, p, k, i);
      }
    }
  }

  /** At-least-once holds for a partition exactly while nothing of it is marked past a failed write. */
  lemma AtLeastOnceIffNothingMarkedPastFailure(s: State, p: int)
    requires Inv(s)
    ensures AtLeastOnce(s, p) <==> !MarkedPastFailure(s, p)
  {
    if MarkedPastFailure(s, p) {
      var i, j :| 0 <= i < j < |Emitted(s)| && FailedAt(s, i) && MarkedAt(s, j)
                  && Emitted(s)[i].part == p && Emitted(s)[j].part == p;
      var m, h := LostPastFailure(s, p, i, j);
      assert !AtLeastOnce(s, p);
    } else if p in s.claims {
      forall m, h | m in s.claims[p].received && h in s.marked && h.part == p && m.offset <= h.offset
        ensures Written(s, m)
      {
        SafeWithoutFailure(s, p, m, h);
      }
    }
  }

  // ---------------------------------------------------------------- stretches of a run

  /** The state after some more actions. */
  function ExecFrom(s: State, acts: seq<Action>, batchSize: int): Option<State>
    decreases |acts|
  {
    if acts == [] then Some(s)
    else
      match Apply(s, acts[0], batchSize)
      case None => None
      case Some(s') => ExecFrom(s', acts[1..], batchSize)
  }

  lemma FirstMoves(acts: seq<Action>, more: seq<Action>)
    requires more != []
    ensures acts + [more[0]] + more[1..] == acts + more
  {
  }

  lemma ExecOneMore(parts: set<int>, acts: seq<Action>, s: State, a: Action, batchSize: int)
    requires Exec(parts, acts, batchSize) == Some(s)
    ensures Exec(parts, acts + [a], batchSize) == Apply(s, a, batchSize)
  {
    assert (acts + [a])[..|acts|] == acts;
  }

  lemma {:induction false} ExecAppends(parts: set<int>, acts: seq<Action>, s: State, more: seq<Action>, batchSize: int)
    requires Exec(parts, acts, batchSize) == Some(s) && ExecFrom(s, more, batchSize).Some?
    ensures Exec(parts, acts + more, batchSize) == ExecFrom(s, more, batchSize)
    decreases |more|
  {
    if more == [] {
      assert acts + more == acts;
    } else {
      ExecOneMore(parts, acts, s, more[0], batchSize);
      ExecAppends(parts, acts + [more[0]], Apply(s, more[0], batchSize).value, more[1..], batchSize);
      FirstMoves(acts, more);
    }
  }

  lemma {:induction false} ExecFromAppends(s: State, acts: seq<Action>, s1: State, more: seq<Action>, batchSize: int)
    requires ExecFrom(s, acts, batchSize) == Some(s1)
    ensures ExecFrom(s, acts + more, batchSize) == ExecFrom(s1, more, batchSize)
    decreases |acts|
  {
    if acts == [] {
      assert acts + more == more;
    } else {
      assert (acts + more)[1..] == acts[1..] + more;
      ExecFromAppends(Apply(s, acts[0], batchSize).value, acts[1..], s1, more, batchSize);
    }
  }

  lemma FirstStep(s: State, a: Action, s1: State, more: seq<Action>, batchSize: int)
    requires Apply(s, a, batchSize) == Some(s1)
    ensures ExecFrom(s, [a] + more, batchSize) == ExecFrom(s1, more, batchSize)
  {
    assert ([a] + more)[1..] == more;
  }

  lemma OneStep(s: State, acts: seq<Action>, s1: State, a: Action, batchSize: int)
    requires ExecFrom(s, acts, batchSize) == Some(s1) && Apply(s1, a, batchSize).Some?
    ensures ExecFrom(s, acts + [a], batchSize) == Apply(s1, a, batchSize)
  {
    ExecFromAppends(s, acts, s1, [a], batchSize);
    assert [a][1..] == [];
  }

  function Marks(n: nat): seq<Action> {
    if n == 0 then [Finish] else [Mark] + Marks(n - 1)
  }

  /** The runner's steps for one batch it has taken. */
  function HandleSteps(b: Batch, written: bool): seq<Action> {
    if written then [WriteOk] + Marks(|b.msgs|) else [WriteFail]
  }

  /** The state with one more batch of the log handled. */
  function Handled(s: State, b: Batch, written: bool): State {
    var m := s.metrics;
    s.(runner := Idle, processed := s.processed + [Outcome(b, written)],
       marked := if written then s.marked + b.msgs else s.marked,
       metrics := if written then Metrics(m.rows + |b.records|, m.bytes + Bytes(b.records), m.batches + 1, m.errors)
                  else m.(errors := m.errors + 1))
  }

  lemma {:induction false} MarksHandle(s: State, b: Batch, k: nat, batchSize: int)
    requires k <= |b.msgs| && s.runner == Acking(b, k)
    ensures var h := Handled(s, b, true);
            ExecFrom(s, Marks(|b.msgs| - k), batchSize) == Some(h.(marked := s.marked + b.msgs[k..]))
    decreases |b.msgs| - k
  {
    if k == |b.msgs| {
      assert s.marked + b.msgs[k..] == s.marked;
      assert [Finish][1..] == [];
    } else {
      var s' := s.(runner := Acking(b, k + 1), marked := s.marked + [b.msgs[k]]);
      assert Apply(s, Mark, batchSize) == Some(s');
      MarksHandle(s', b, k + 1, batchSize);
      FirstStep(s, Mark, s', Marks(|b.msgs| - k - 1), batchSize);
      assert b.msgs[k..] == [b.msgs[k]] + b.msgs[k + 1..];
      AppendMoves(s.marked, [b.msgs[k]], b.msgs[k + 1..]);
    }
  }

  /** Writing, marking and finishing one batch, or failing to write it. */
  lemma HandleIsRunnerSteps(s: State, b: Batch, written: bool, batchSize: int)
    requires s.runner == Writing(b)
    ensures ExecFrom(s, HandleSteps(b, written), batchSize) == Some(Handled(s, b, written))
  {
    if written {
      var s1 := s.(runner := Acking(b, 0));
      assert Apply(s, WriteOk, batchSize) == Some(s1);
      MarksHandle(s1, b, 0, batchSize);
      FirstStep(s, WriteOk, s1, Marks(|b.msgs|), batchSize);
      assert b.msgs[0..] == b.msgs;
    } else {
      assert Apply(s, WriteFail, batchSize) == Some(Handled(s, b, false));
      assert [WriteFail][1..] == [];
    }
  }

  /** The runner waits for a batch, and its records are those of the batches handled. */
  ghost predicate Ready(s: State) {
    s.runner == Idle && !s.cancelled && s.metrics == Totals(s.processed) && s.marked == Acked(s.processed)
  }

  lemma LogGrows(log: seq<Outcome>, o: Outcome)
    ensures Acked(log + [o]) == Acked(log) + if o.written then o.batch.msgs else []
    ensures var t := Totals(log);
            Totals(log + [o]) ==
            if o.written then
              Metrics(t.rows + |o.batch.records|, t.bytes + Bytes(o.batch.records), t.batches + 1, t.errors)
            else t.(errors := t.errors + 1)
  {
    assert (log + [o])[..|log|] == log;
  }

  lemma HandledIsReady(s: State, b: Batch, written: bool)
    requires s.metrics == Totals(s.processed) && s.marked == Acked(s.processed) && !s.cancelled
    ensures Ready(Handled(s, b, written))
  {
    LogGrows(s.processed, Outcome(b, written));
  }

  /** Partition `p` is listening with an empty buffer and nothing is on its way. */
  ghost predicate Quiet(s: State, p: int) {
    Ready(s) && s.channel == [] && p in s.claims && s.claims[p].mode == Listening && s.claims[p].buf == []
  }

  /** One message received, sent by itself and taken by the runner. */
  function HandOver(p: int, m: Msg, batchSize: int): seq<Action> {
    (if batchSize <= 1 then [Receive(p, m)] else [Receive(p, m)] + [Tick(p)]) + [Send(p)] + [Take]
  }

  function Received(s: State, p: int, m: Msg): State
    requires p in s.claims
  {
    s.(claims := s.claims[p := Claim(s.claims[p].received + [m], [], Listening)])
  }

  lemma ReceiveThenFlush(s: State, p: int, m: Msg, batchSize: int)
    requires Quiet(s, p) && m.part == p && InOrder(s.claims[p].received, m)
    ensures ExecFrom(s, if batchSize <= 1 then [Receive(p, m)] else [Receive(p, m)] + [Tick(p)], batchSize) ==
            Some(s.(claims := s.claims[p := Claim(s.claims[p].received + [m], [m], Flushing)]))
  {
    var c := Claim(s.claims[p].received + [m], [m], if batchSize <= 1 then Flushing else Listening);
    var s1 := s.(claims := s.claims[p := c]);
    assert s.claims[p].buf + [m] == [m];
    assert Apply(s, Receive(p, m), batchSize) == Some(s1) && [Receive(p, m)][1..] == [];
    if batchSize > 1 {
      OneStep(s, [Receive(p, m)], s1, Tick(p), batchSize);
      assert s1.claims[p := c.(mode := Flushing)] == s.claims[p := c.(mode := Flushing)];
    }
  }

  lemma SendThenTake(s: State, p: int, received: seq<Msg>, m: Msg, batchSize: int)
    requires p in s.claims && s.claims[p] == Claim(received, [m], Flushing) && s.channel == [] && Ready(s)
    ensures ExecFrom(s, [Send(p)] + [Take], batchSize) ==
            Some(s.(claims := s.claims[p := Claim(received, [], Listening)], runner := Writing(BatchOf(p, [m]))))
  {
    var b := BatchOf(p, [m]);
    var s1 := s.(claims := s.claims[p := Claim(received, [], Listening)], channel := [b]);
    assert [] + [b] == [b] && [b][1..] == [];
    assert Apply(s, Send(p), batchSize) == Some(s1) && [Send(p)][1..] == [];
    OneStep(s, [Send(p)], s1, Take, batchSize);
  }

  lemma HandOverSteps(s: State, p: int, m: Msg, batchSize: int)
    requires Quiet(s, p) && m.part == p && InOrder(s.claims[p].received, m)
    ensures ExecFrom(s, HandOver(p, m, batchSize), batchSize) ==
            Some(Received(s, p, m).(runner := Writing(BatchOf(p, [m]))))
  {
    var received := s.claims[p].received + [m];
    var front := if batchSize <= 1 then [Receive(p, m)] else [Receive(p, m)] + [Tick(p)];
    var s1 := s.(claims := s.claims[p := Claim(received, [m], Flushing)]);
    ReceiveThenFlush(s, p, m, batchSize);
    SendThenTake(s1, p, received, m, batchSize);
    ExecFromAppends(s, front, s1, [Send(p)] + [Take], batchSize);
    AppendMoves(front, [Send(p)], [Take]);
    assert s1.claims[p := Claim(received, [], Listening)] == s.claims[p := Claim(received, [], Listening)];
  }

  /** One message received, sent by itself and handled, the write succeeding or not. */
  lemma DeliverOne(s: State, p: int, m: Msg, batchSize: int, written: bool) returns (acts: seq<Action>, s': State)
    requires Quiet(s, p) && m.part == p && InOrder(s.claims[p].received, m)
    ensures ExecFrom(s, acts, batchSize) == Some(s') && Quiet(s', p)
    ensures s'.processed == s.processed + [Outcome(BatchOf(p, [m]), written)]
    ensures s'.claims == s.claims[p := Claim(s.claims[p].received + [m], [], Listening)]
  {
    var b := BatchOf(p, [m]);
    var s1 := Received(s, p, m).(runner := Writing(b));
    HandOverSteps(s, p, m, batchSize);
    HandleIsRunnerSteps(s1, b, written, batchSize);
    HandledIsReady(s1, b, written);
    acts, s' := HandOver(p, m, batchSize) + HandleSteps(b, written), Handled(s1, b, written);
    ExecFromAppends(s, HandOver(p, m, batchSize), s1, HandleSteps(b, written), batchSize);
  }

  /** It shows with two messages, whatever the batch size: a failed write, then a successful one, and the first
      message is below the mark without being in the sink. */
  lemma FailureThenSuccess(p: int, batchSize: int, first: Msg, second: Msg) returns (acts: seq<Action>)
    requires first.part == second.part == p && first.offset < second.offset
    ensures Exec({p}, acts, batchSize).Some? && !AtLeastOnce(Exec({p}, acts, batchSize).value, p)
  {
    var s := Initial({p});
    var more;
    acts, s := DeliverOne(s, p, first, batchSize, false);
    ExecAppends({p}, [], Initial({p}), acts, batchSize);
    acts := [] + acts;
    ghost var s1 := s;
    more, s := DeliverOne(s, p, second, batchSize, true);
    ExecAppends({p}, acts, s1, more, batchSize);
    acts := acts + more;
    EveryRunKeepsInv({p}, acts, batchSize);
    EmittedAt(s, 0);
    EmittedAt(s, 1);
    assert FailedAt(s, 0) && MarkedAt(s, 1);
    AtLeastOnceIffNothingMarkedPastFailure(s, p);
  }
}
