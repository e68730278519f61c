/** Successive consumer sessions on one partition: where the next one starts, and what it delivers again. */
module Sessions {
  import opened Common
  import opened Delivery

  /** One session: the partitions claimed, what happened, and the position in the log of `p` it started from. */
  datatype Session = Session(parts: set<int>, acts: seq<Action>, start: nat)

  /** The messages of a partition, those still to come included. */
  ghost predicate IsLog(log: seq<Msg>, p: int) {
    Increasing(log) && forall i | 0 <= i < |log| :: log[i].part == p
  }

  /** The state a session has ended in. */
  function End(x: Session, batchSize: int): State {
    match Exec(x.parts, x.acts, batchSize)
    case Some(s) => s
    case None => Initial(x.parts)
  }

  /** Every consumer has returned, and the runner waits for nothing that is on its way. */
  ghost predicate Over(s: State) {
    (forall p | p in s.claims :: s.claims[p].mode == Closed) && (s.runner.Ended? || (s.runner.Idle? && s.channel == []))
  }

  /** A whole session, in which partition `p` delivers its log from the start position on. */
  ghost predicate SessionOf(log: seq<Msg>, p: int, batchSize: int, x: Session) {
    && Exec(x.parts, x.acts, batchSize).Some? && Over(End(x, batchSize))
    && p in End(x, batchSize).claims && x.start <= |log|
    && End(x, batchSize).claims[p].received <= log[x.start..]
  }

  /** The session has received the `i`-th message of the log. */
  ghost predicate ReceivedIn(x: Session, p: int, batchSize: int, i: int) {
    p in End(x, batchSize).claims && x.start <= i < x.start + |End(x, batchSize).claims[p].received|
  }

  ghost predicate MarkedIn(h: seq<Session>, batchSize: int, m: Msg) {
    exists k :: 0 <= k < |h| && m in End(h[k], batchSize).marked
  }

  ghost predicate WrittenIn(h: seq<Session>, batchSize: int, m: Msg) {
    exists k :: 0 <= k < |h| && Written(End(h[k], batchSize), m)
  }

  ghost predicate NoneMarked(h: seq<Session>, log: seq<Msg>, batchSize: int) {
    forall i | 0 <= i < |log| :: !MarkedIn(h, batchSize, log[i])
  }

  /** Marks are committed, and the group resumes behind the highest one; without any it starts with what is newest,
      behind all that was received. */
  ghost predicate StartsAt(log: seq<Msg>, p: int, batchSize: int, h: seq<Session>, start: nat) {
    if NoneMarked(h, log, batchSize) then
      forall i, k | 0 <= k < |h| && ReceivedIn(h[k], p, batchSize, i) :: i < start
    else
      && 0 < start <= |log| && MarkedIn(h, batchSize, log[start - 1])
      && forall i | start <= i < |log| :: !MarkedIn(h, batchSize, log[i])
  }

  /** Sessions one after the other. */
  ghost predicate History(log: seq<Msg>, p: int, batchSize: int, h: seq<Session>) {
    forall k | 0 <= k < |h| :: SessionOf(log, p, batchSize, h[k]) && StartsAt(log, p, batchSize, h[..k], h[k].start)
  }

  // ---------------------------------------------------------------- what is never delivered again

  /** The next session starts behind the `i`-th message, and so does every later one. */
  ghost predicate Passed(log: seq<Msg>, p: int, batchSize: int, h: seq<Session>, i: nat) {
    if NoneMarked(h, log, batchSize) then exists k :: 0 <= k < |h| && ReceivedIn(h[k], p, batchSize, i)
    else exists j :: i <= j < |log| && MarkedIn(h, batchSize, log[j])
  }

  lemma SamePosition(log: seq<Msg>, i: nat, j: nat)
    requires Increasing(log) && i < |log| && j < |log| && log[i] == log[j]
    ensures i == j
  {
  }

  lemma MarkedAreReceived(s: State, h: Msg)
    requires Inv(s) && h in s.marked
    ensures h.part in s.claims && h in s.claims[h.part].received
  {
    var j := MarkedHasBatch(s, h);
    assert ProperBatch(Emitted(s)[j]);
    InFlat(Emitted(s), h.part, h);
    EmittedIsPrefix(s, h.part);
  }

  lemma PositionOf(log: seq<Msg>, start: nat, received: seq<Msg>, m: Msg) returns (j: nat)
    requires start <= |log| && received <= log[start..] && m in received
    ensures start <= j < start + |received| && j < |log| && log[j] == m
  {
    var k :| 0 <= k < |received| && received[k] == m;
    assert log[start..][k] == m;
    j := start + k;
  }

  /** A session marks only what it has received. */
  lemma MarkIsReceived(log: seq<Msg>, p: int, batchSize: int, x: Session, i: nat)
    requires IsLog(log, p) && SessionOf(log, p, batchSize, x) && i < |log| && log[i] in End(x, batchSize).marked
    ensures ReceivedIn(x, p, batchSize, i)
  {
    var s := End(x, batchSize);
    EveryRunKeepsInv(x.parts, x.acts, batchSize);
    MarkedAreReceived(s, log[i]);
    var j := PositionOf(log, x.start, s.claims[p].received, log[i]);
    SamePosition(log, i, j);
  }

  /** At its end a session has marked what it has written. */
  lemma EndMarksWritten(log: seq<Msg>, p: int, batchSize: int, x: Session, m: Msg)
    requires SessionOf(log, p, batchSize, x)
    ensures m in End(x, batchSize).marked <==> Written(End(x, batchSize), m)
  {
    EveryRunKeepsInv(x.parts, x.acts, batchSize);
    MarkedExactlyWritten(End(x, batchSize), m);
  }

  lemma StartsBehindPassed(log: seq<Msg>, p: int, batchSize: int, h: seq<Session>, start: nat, i: nat)
    requires StartsAt(log, p, batchSize, h, start) && Passed(log, p, batchSize, h, i)
    ensures i < start
  {
  }

  lemma MarksStay(h: seq<Session>, x: Session, batchSize: int, m: Msg)
    ensures MarkedIn(h + [x], batchSize, m) <==> MarkedIn(h, batchSize, m) || m in End(x, batchSize).marked
  {
    if MarkedIn(h, batchSize, m) {
      var k :| 0 <= k < |h| && m in End(h[k], batchSize).marked;
      assert (h + [x])[k] == h[k];
    }
    assert (h + [x])[|h|] == x;
  }

  lemma PassedStays(log: seq<Msg>, p: int, batchSize: int, h: seq<Session>, x: Session, i: nat)
    requires IsLog(log, p) && SessionOf(log, p, batchSize, x) && i < x.start
    requires Passed(log, p, batchSize, h, i)
    ensures Passed(log, p, batchSize, h + [x], i)
  {
    var h' := h + [x];
    if NoneMarked(h', log, batchSize) {
      forall j | 0 <= j < |log|
        ensures !MarkedIn(h, batchSize, log[j])
      {
        MarksStay(h, x, batchSize, log[j]);
      }
      var k :| 0 <= k < |h| && ReceivedIn(h[k], p, batchSize, i);
      assert h'[k] == h[k];
    } else if NoneMarked(h, log, batchSize) {
      var j :| 0 <= j < |log| && MarkedIn(h', batchSize, log[j]);
      MarksStay(h, x, batchSize, log[j]);
      MarkIsReceived(log, p, batchSize, x, j);
    } else {
      var j :| i <= j < |log| && MarkedIn(h, batchSize, log[j]);
      MarksStay(h, x, batchSize, log[j]);
    }
  }

  lemma HistoryPrefix(log: seq<Msg>, p: int, batchSize: int, h: seq<Session>, x: Session)
    ensures History(log, p, batchSize, h + [x]) <==>
            History(log, p, batchSize, h) && SessionOf(log, p, batchSize, x) && StartsAt(log, p, batchSize, h, x.start)
  {
    var h' := h + [x];
    assert h'[..|h|] == h && h'[|h|] == x;
    forall k | 0 <= k < |h|
      ensures h'[k] == h[k] && h'[..k] == h[..k]
    {
    }
    if History(log, p, batchSize, h') {
      forall k | 0 <= k < |h|
        ensures SessionOf(log, p, batchSize, h[k]) && StartsAt(log, p, batchSize, h[..k], h[k].start)
      {
        assert SessionOf(log, p, batchSize, h'[k]) && StartsAt(log, p, batchSize, h'[..k], h'[k].start);
      }
    }
  }

  lemma NotThisTime(log: seq<Msg>, p: int, batchSize: int, h: seq<Session>, x: Session, i: nat)
    requires IsLog(log, p) && i < |log| && SessionOf(log, p, batchSize, x)
    requires StartsAt(log, p, batchSize, h, x.start) && Passed(log, p, batchSize, h, i)
    ensures Passed(log, p, batchSize, h + [x], i) && !Written(End(x, batchSize), log[i])
  {
    StartsBehindPassed(log, p, batchSize, h, x.start, i);
    PassedStays(log, p, batchSize, h, x, i);
    EndMarksWritten(log, p, batchSize, x, log[i]);
    if log[i] in End(x, batchSize).marked {
      MarkIsReceived(log, p, batchSize, x, i);
    }
  }

  lemma WrittenInMore(h: seq<Session>, x: Session, batchSize: int, m: Msg)
    ensures WrittenIn(h + [x], batchSize, m) <==> WrittenIn(h, batchSize, m) || Written(End(x, batchSize), m)
  {
    if WrittenIn(h, batchSize, m) {
      var k :| 0 <= k < |h| && Written(End(h[k], batchSize), m);
      assert (h + [x])[k] == h[k];
    }
    assert (h + [x])[|h|] == x;
  }

  lemma {:induction false} NeverAgain(log: seq<Msg>, p: int, batchSize: int, h: seq<Session>, more: seq<Session>,
                                      i: nat)
    requires IsLog(log, p) && i < |log|
    requires History(log, p, batchSize, h + more) && Passed(log, p, batchSize, h, i)
    ensures Passed(log, p, batchSize, h + more, i) && !WrittenIn(more, batchSize, log[i])
  {
    if more == [] {
      assert h + more == h;
    } else {
      var init, x := more[..|more| - 1], more[|more| - 1];
      LastApart(h, more);
      HistoryPrefix(log, p, batchSize, h + init, x);
      NeverAgain(log, p, batchSize, h, init, i);
      NotThisTime(log, p, batchSize, h + init, x, i);
      WrittenInMore(init, x, batchSize, log[i]);
    }
  }

  // ---------------------------------------------------------------- what can be delivered again

  lemma DeliverOneMore(p: int, batchSize: int, acts: seq<Action>, s: State, m: Msg, written: bool)
    returns (acts': seq<Action>, s': State)
    requires Exec({p}, acts, batchSize) == Some(s) && Quiet(s, p) && s.claims.Keys == {p} && m.part == p
    requires InOrder(s.claims[p].received, m)
    ensures Exec({p}, acts', batchSize) == Some(s') && Quiet(s', p)
    ensures s'.claims == map[p := Claim(s.claims[p].received + [m], [], Listening)]
    ensures s'.marked == s.marked + if written then [m] else []
  {
    var more;
    more, s' := DeliverOne(s, p, m, batchSize, written);
    ExecAppends({p}, acts, s, more, batchSize);
    acts' := acts + more;
    AckedOne(s.processed, m, p, written);
  }

  /** The run has delivered exactly these messages, and written all or none. */
  ghost predicate Delivered(p: int, batchSize: int, msgs: seq<Msg>, written: bool, acts: seq<Action>, s: State) {
    && Exec({p}, acts, batchSize) == Some(s) && Quiet(s, p)
    && s.claims == map[p := Claim(msgs, [], Listening)] && s.marked == if written then msgs else []
  }

  lemma DeliverNext(p: int, batchSize: int, msgs: seq<Msg>, m: Msg, written: bool, acts: seq<Action>, s: State)
    returns (acts': seq<Action>, s': State)
    requires Delivered(p, batchSize, msgs, written, acts, s) && m.part == p && InOrder(msgs, m)
    ensures Delivered(p, batchSize, msgs + [m], written, acts', s')
  {
    acts', s' := DeliverOneMore(p, batchSize, acts, s, m, written);
  }

  /** A run that delivers messages one at a time. */
  lemma {:induction false} DeliverAll(p: int, batchSize: int, msgs: seq<Msg>, written: bool)
    returns (acts: seq<Action>, s: State)
    requires IsLog(msgs, p)
    ensures Delivered(p, batchSize, msgs, written, acts, s)
  {
    if msgs == [] {
      acts, s := [], Initial({p});
    } else {
      var init := msgs[..|msgs| - 1];
      acts, s := DeliverAll(p, batchSize, init, written);
      acts, s := DeliverNext(p, batchSize, init, msgs[|msgs| - 1], written, acts, s);
      assert init + [msgs[|msgs| - 1]] == msgs;
    }
  }

  lemma SliceIsLog(log: seq<Msg>, p: int, start: nat, n: nat)
    requires IsLog(log, p) && start + n <= |log|
    ensures IsLog(log[start..start + n], p) && log[start..start + n] <= log[start..]
    ensures n > 0 ==> log[start + n - 1] in log[start..start + n]
  {
    assert n > 0 ==> log[start..start + n][n - 1] == log[start + n - 1];
  }

  lemma AckedOne(log: seq<Outcome>, m: Msg, p: int, written: bool)
    ensures Acked(log + [Outcome(BatchOf(p, [m]), written)]) == Acked(log) + if written then [m] else []
  {
    assert (log + [Outcome(BatchOf(p, [m]), written)])[..|log|] == log;
  }

  /** A whole session that receives a stretch of the log and writes all or nothing of it. */
  lemma SessionOver(log: seq<Msg>, p: int, batchSize: int, start: nat, n: nat, written: bool) returns (x: Session)
    requires IsLog(log, p) && start + n <= |log|
    ensures SessionOf(log, p, batchSize, x) && x.start == start
    ensures End(x, batchSize).claims[p].received == log[start..start + n]
    ensures n > 0 && written ==> Written(End(x, batchSize), log[start + n - 1])
    ensures !written ==> End(x, batchSize).marked == []
  {
    SliceIsLog(log, p, start, n);
    var acts, s := DeliverAll(p, batchSize, log[start..start + n], written);
    CloseQuiet(p, batchSize, acts, s);
    x := Session({p}, acts + [Shut(p)], start);
    if n > 0 && written {
      EndMarksWritten(log, p, batchSize, x, log[start + n - 1]);
    }
  }

  /** The end of the only claim ends a session with nothing on its way. */
  lemma CloseQuiet(p: int, batchSize: int, acts: seq<Action>, s: State)
    requires Exec({p}, acts, batchSize) == Some(s) && Quiet(s, p) && s.claims.Keys == {p}
    ensures var s' := s.(claims := s.claims[p := s.claims[p].(mode := Closed)]);
            Exec({p}, acts + [Shut(p)], batchSize) == Some(s') && Over(s')
  {
    ExecOneMore({p}, acts, s, Shut(p), batchSize);
  }

  lemma {:induction false} HighestMark(log: seq<Msg>, batchSize: int, h: seq<Session>, i: nat) returns (j: nat)
    requires i <= |log| && !NoneMarked(h, log, batchSize)
    requires forall j | i <= j < |log| :: !MarkedIn(h, batchSize, log[j])
    ensures j < i && MarkedIn(h, batchSize, log[j])
    ensures forall k | j < k < |log| :: !MarkedIn(h, batchSize, log[k])
  {
    assert i > 0;
    if MarkedIn(h, batchSize, log[i - 1]) {
      j := i - 1;
    } else {
      j := HighestMark(log, batchSize, h, i - 1);
    }
  }

  lemma StartsBehindMark(log: seq<Msg>, p: int, batchSize: int, h: seq<Session>, j: nat)
    requires j < |log| && MarkedIn(h, batchSize, log[j])
    requires forall k | j < k < |log| :: !MarkedIn(h, batchSize, log[k])
    ensures StartsAt(log, p, batchSize, h, j + 1)
  {
  }

  lemma WrittenInOne(x: Session, batchSize: int, m: Msg)
    requires Written(End(x, batchSize), m)
    ensures WrittenIn([x], batchSize, m)
  {
    assert [x][0] == x;
  }

  /** A message above the highest mark is delivered again, and written unless the write fails. */
  lemma CanFollow(log: seq<Msg>, p: int, batchSize: int, h: seq<Session>, i: nat) returns (x: Session)
    requires IsLog(log, p) && History(log, p, batchSize, h) && i < |log|
    requires !NoneMarked(h, log, batchSize) && forall j | i <= j < |log| :: !MarkedIn(h, batchSize, log[j])
    ensures History(log, p, batchSize, h + [x]) && WrittenIn([x], batchSize, log[i])
  {
    var j := HighestMark(log, batchSize, h, i);
    x := SessionOver(log, p, batchSize, j + 1, i - j, true);
    StartsBehindMark(log, p, batchSize, h, j);
    HistoryPrefix(log, p, batchSize, h, x);
    WrittenInOne(x, batchSize, log[i]);
  }

  /** Later sessions can bring the message to the sink. */
  ghost predicate CanStillArrive(log: seq<Msg>, p: int, batchSize: int, h: seq<Session>, i: nat)
    requires i < |log|
  {
    exists more :: History(log, p, batchSize, h + more) && WrittenIn(more, batchSize, log[i])
  }

  /** A received message can reach the sink in a later session exactly when something of the partition is marked, and
      all of it below the message. */
  lemma ArrivesLaterExactlyAboveMarks(log: seq<Msg>, p: int, batchSize: int, h: seq<Session>, i: nat)
    requires IsLog(log, p) && History(log, p, batchSize, h) && i < |log|
    requires exists k :: 0 <= k < |h| && ReceivedIn(h[k], p, batchSize, i)
    ensures CanStillArrive(log, p, batchSize, h, i) <==>
            !NoneMarked(h, log, batchSize) && forall j | i <= j < |log| :: !MarkedIn(h, batchSize, log[j])
  {
    if Passed(log, p, batchSize, h, i) {
      forall more | History(log, p, batchSize, h + more)
        ensures !WrittenIn(more, batchSize, log[i])
      {
        NeverAgain(log, p, batchSize, h, more, i);
      }
    } else {
      var x := CanFollow(log, p, batchSize, h, i);
      assert WrittenIn([x], batchSize, log[i]);
    }
  }

  // ---------------------------------------------------------------- what a session loses

  /** The session has received the message, has not written it, and no later session will. */
  ghost predicate LostForGood(log: seq<Msg>, p: int, batchSize: int, x: Session, i: int) {
    && 0 <= i < |log| && ReceivedIn(x, p, batchSize, i) && !Written(End(x, batchSize), log[i])
    && !CanStillArrive(log, p, batchSize, [x], i)
  }

  lemma FirstSession(log: seq<Msg>, p: int, batchSize: int, x: Session)
    requires IsLog(log, p) && SessionOf(log, p, batchSize, x)
    ensures History(log, p, batchSize, [x])
  {
    assert [x][..0] == [];
    assert NoneMarked([], log, batchSize);
  }

  lemma MarkedInOne(x: Session, batchSize: int, m: Msg)
    ensures MarkedIn([x], batchSize, m) <==> m in End(x, batchSize).marked
  {
    assert [x][0] == x;
  }

  /** A session that has marked something loses a message for good exactly when it has marked past a failure. */
  lemma LosesExactlyPastFailure(log: seq<Msg>, p: int, batchSize: int, x: Session)
    requires IsLog(log, p) && SessionOf(log, p, batchSize, x) && !NoneMarked([x], log, batchSize)
    ensures (exists i :: LostForGood(log, p, batchSize, x, i)) <==> MarkedPastFailure(End(x, batchSize), p)
  {
    var s := End(x, batchSize);
    EveryRunKeepsInv(x.parts, x.acts, batchSize);
    AtLeastOnceIffNothingMarkedPastFailure(s, p);
    FirstSession(log, p, batchSize, x);
    if i :| LostForGood(log, p, batchSize, x, i) {
      var h := LostIsBelowMark(log, p, batchSize, x, i);
    }
    if !AtLeastOnce(s, p) {
      var m, h :| m in s.claims[p].received && h in s.marked && h.part == p && m.offset <= h.offset && !Written(s, m);
      var i := BelowMarkIsLost(log, p, batchSize, x, m, h);
    }
  }

  lemma ReceivedFromLog(log: seq<Msg>, start: nat, received: seq<Msg>, i: nat)
    requires start <= |log| && received <= log[start..] && start <= i < start + |received|
    ensures log[i] in received
  {
    assert received[i - start] == log[start..][i - start];
  }

  lemma LostHasMark(log: seq<Msg>, p: int, batchSize: int, x: Session, i: nat) returns (j: nat)
    requires IsLog(log, p) && SessionOf(log, p, batchSize, x) && !NoneMarked([x], log, batchSize)
    requires LostForGood(log, p, batchSize, x, i)
    ensures i <= j < |log| && log[j] in End(x, batchSize).marked
  {
    FirstSession(log, p, batchSize, x);
    assert ReceivedIn([x][0], p, batchSize, i);
    ArrivesLaterExactlyAboveMarks(log, p, batchSize, [x], i);
    j :| i <= j < |log| && MarkedIn([x], batchSize, log[j]);
  }

  lemma LostIsBelowMark(log: seq<Msg>, p: int, batchSize: int, x: Session, i: nat) returns (h: Msg)
    requires IsLog(log, p) && SessionOf(log, p, batchSize, x) && !NoneMarked([x], log, batchSize)
    requires LostForGood(log, p, batchSize, x, i)
    ensures h in End(x, batchSize).marked && h.part == p && log[i].offset <= h.offset
    ensures log[i] in End(x, batchSize).claims[p].received
  {
    var j := LostHasMark(log, p, batchSize, x, i);
    h := log[j];
    ReceivedFromLog(log, x.start, End(x, batchSize).claims[p].received, i);
  }

  lemma BelowMarkIsLost(log: seq<Msg>, p: int, batchSize: int, x: Session, m: Msg, h: Msg) returns (i: nat)
    requires IsLog(log, p) && SessionOf(log, p, batchSize, x) && !Written(End(x, batchSize), m)
    requires m in End(x, batchSize).claims[p].received && m.offset <= h.offset
    requires h in End(x, batchSize).marked && h.part == p
    ensures LostForGood(log, p, batchSize, x, i)
  {
    i := PositionOf(log, x.start, End(x, batchSize).claims[p].received, m);
    var j := PositionOfMark(log, p, batchSize, x, h);
    MarkedInOne(x, batchSize, h);
    FirstSession(log, p, batchSize, x);
    assert ReceivedIn([x][0], p, batchSize, i);
    ArrivesLaterExactlyAboveMarks(log, p, batchSize, [x], i);
    assert i <= j;
  }

  lemma PositionOfMark(log: seq<Msg>, p: int, batchSize: int, x: Session, h: Msg) returns (j: nat)
    requires IsLog(log, p) && SessionOf(log, p, batchSize, x) && h in End(x, batchSize).marked && h.part == p
    ensures j < |log| && log[j] == h
  {
    var s := End(x, batchSize);
    EveryRunKeepsInv(x.parts, x.acts, batchSize);
    MarkedAreReceived(s, h);
    j := PositionOf(log, x.start, s.claims[p].received, h);
  }

  /** A session that has marked nothing loses all that it has received. */
  lemma NothingMarkedLosesAll(log: seq<Msg>, p: int, batchSize: int, x: Session, i: nat)
    requires IsLog(log, p) && SessionOf(log, p, batchSize, x) && NoneMarked([x], log, batchSize)
    ensures LostForGood(log, p, batchSize, x, i) <==> ReceivedIn(x, p, batchSize, i)
  {
    if ReceivedIn(x, p, batchSize, i) {
      FirstSession(log, p, batchSize, x);
      assert ReceivedIn([x][0], p, batchSize, i);
      ArrivesLaterExactlyAboveMarks(log, p, batchSize, [x], i);
      MarkedInOne(x, batchSize, log[i]);
      EndMarksWritten(log, p, batchSize, x, log[i]);
    }
  }

  /** One message whose write fails, in the first session of the group. */
  lemma FirstFailureLosesMessage(p: int, batchSize: int, m: Msg) returns (x: Session)
    requires m.part == p
    ensures SessionOf([m], p, batchSize, x) && LostForGood([m], p, batchSize, x, 0)
  {
    x := SessionOver([m], p, batchSize, 0, 1, false);
    forall i | 0 <= i < |[m]|
      ensures !MarkedIn([x], batchSize, [m][i])
    {
      MarkedInOne(x, batchSize, m);
    }
    NothingMarkedLosesAll([m], p, batchSize, x, 0);
  }
}
