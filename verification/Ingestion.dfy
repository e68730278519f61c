/** The objects of the ingestion pipeline: the message loop of a partition and the runner's loop over batches. */
module Ingestion {
  import opened Common
  import opened Delivery

  class Channel {
    var queue: seq<Batch>

    constructor ()
      ensures queue == []
    {
      queue := [];
    }
  }

  // ---------------------------------------------------------------- flushing

  /** How the select in a flush turns out; a flush of an empty buffer has none. */
  datatype Flushed = NotNeeded | Sent | GivenUp | Blocked

  /** Sending is possible when the channel has room, giving up when the session has ended; when both are, either. */
  function Select(empty: bool, room: bool, ended: bool, sendsFirst: bool): Flushed {
    if empty then NotNeeded
    else if room && (!ended || sendsFirst) then Sent
    else if ended then GivenUp
    else Blocked
  }

  /** The consumer after the outcome of a flush. */
  function FlushReact(c: Claim, p: int, batchSize: int, ended: bool, f: Flushed): Option<Claim> {
    match f
    case NotNeeded => if c.mode in {Listening, Closed} then Some(c) else None
    case Blocked => if c.mode in {Flushing, Closing} then Some(c) else None
    case Sent => ClaimStep(c, p, Send(p), batchSize, ended)
    case GivenUp => ClaimStep(c, p, Abort(p), batchSize, ended)
  }

  /** The step for an event, followed by the outcome of its flush, if it makes one. */
  function React(c: Claim, p: int, a: Action, batchSize: int, ended: bool, f: Flushed): Option<Claim> {
    match ClaimStep(c, p, a, batchSize, ended)
    case None => None
    case Some(took) => FlushReact(took, p, batchSize, ended, f)
  }

  /** The mode a flush leaves behind. */
  function ModeAfter(m: Mode, f: Flushed): Mode {
    if f in {Sent, GivenUp} then Resumed(m) else m
  }

  lemma MessageReacts(c: Claim, p: int, m: Msg, batchSize: int, room: bool, ended: bool, sendsFirst: bool)
    requires c.mode == Listening && m.part == p && InOrder(c.received, m)
    ensures var full := |c.buf| + 1 >= batchSize;
            var f := Select(!full, room, ended, sendsFirst);
            React(c, p, Receive(p, m), batchSize, ended, f) ==
            Some(Claim(c.received + [m], if f == Sent then [] else c.buf + [m],
                       ModeAfter(if full then Flushing else Listening, f)))
  {
  }

  lemma OtherReacts(c: Claim, p: int, e: Event, batchSize: int, room: bool, ended: bool, sendsFirst: bool)
    requires c.mode == Listening && !e.Message?
    ensures var f := Select(c.buf == [], room, ended, sendsFirst);
            var last := !e.TickerFired?;
            React(c, p, ActionOf(p, e), batchSize, ended, f) ==
            Some(Claim(c.received, if f == Sent then [] else c.buf,
                       if c.buf != [] then ModeAfter(if last then Closing else Flushing, f)
                       else if last then Closed else Listening))
  {
  }

  // ---------------------------------------------------------------- turns as actions

  /** What the select of the message loop delivers. */
  datatype Event = Message(m: Msg) | TickerFired | MessagesClosed | SessionDone

  function ActionOf(p: int, e: Event): Action {
    match e
    case Message(m) => Receive(p, m)
    case TickerFired => Tick(p)
    case MessagesClosed => Shut(p)
    case SessionDone => Shut(p)
  }

  /** The world at one select: the outcomes of the batches that the runner has taken and handled since the one
      before, whether the session has ended in the meantime, and the choice between two ready cases. */
  datatype Turn = Turn(outcomes: seq<bool>, ends: bool, sendsFirst: bool)

  /** Taking and handling the first batches of the channel. */
  function TakeSteps(channel: seq<Batch>, outcomes: seq<bool>): seq<Action>
    requires |outcomes| <= |channel|
  {
    if outcomes == [] then []
    else [Take] + HandleSteps(channel[0], outcomes[0]) + TakeSteps(channel[1..], outcomes[1..])
  }

  lemma TakeOne(s: State, written: bool, batchSize: int)
    requires Ready(s) && s.channel != []
    ensures var b := s.channel[0];
            var s' := Handled(s.(channel := s.channel[1..], runner := Writing(b)), b, written);
            ExecFrom(s, [Take] + HandleSteps(b, written), batchSize) == Some(s') && Ready(s')
  {
    var b := s.channel[0];
    var s1 := s.(channel := s.channel[1..], runner := Writing(b));
    assert Apply(s, Take, batchSize) == Some(s1) && [Take][1..] == [];
    HandleIsRunnerSteps(s1, b, written, batchSize);
    HandledIsReady(s1, b, written);
    ExecFromAppends(s, [Take], s1, HandleSteps(b, written), batchSize);
  }

  /** Handling batches from the channel is a stretch of the run that leaves the consumers alone. */
  lemma {:induction false} TakeAll(s: State, outcomes: seq<bool>, batchSize: int) returns (s': State)
    requires Ready(s) && |outcomes| <= |s.channel|
    ensures ExecFrom(s, TakeSteps(s.channel, outcomes), batchSize) == Some(s')
    ensures Ready(s') && s'.claims == s.claims && s'.channel == s.channel[|outcomes|..] && s'.ended == s.ended
    decreases |outcomes|
  {
    if outcomes == [] {
      s' := s;
    } else {
      var b := s.channel[0];
      var s1 := Handled(s.(channel := s.channel[1..], runner := Writing(b)), b, outcomes[0]);
      TakeOne(s, outcomes[0], batchSize);
      s' := TakeAll(s1, outcomes[1..], batchSize);
      ExecFromAppends(s, [Take] + HandleSteps(b, outcomes[0]), s1, TakeSteps(s1.channel, outcomes[1..]), batchSize);
    }
  }

  function WorldActs(channel: seq<Batch>, outcomes: seq<bool>, ends: bool): seq<Action>
    requires |outcomes| <= |channel|
  {
    TakeSteps(channel, outcomes) + if ends then [EndSession] else []
  }

  /** What happens in the world before a select. */
  lemma WorldSteps(s: State, outcomes: seq<bool>, ends: bool, batchSize: int) returns (s': State)
    requires Ready(s) && |outcomes| <= |s.channel|
    ensures ExecFrom(s, WorldActs(s.channel, outcomes, ends), batchSize) == Some(s') && Ready(s')
    ensures s'.claims == s.claims && s'.channel == s.channel[|outcomes|..] && s'.ended == (s.ended || ends)
  {
    s' := TakeAll(s, outcomes, batchSize);
    var acts := TakeSteps(s.channel, outcomes);
    if ends {
      OneStep(s, acts, s', EndSession, batchSize);
      s' := s'.(ended := true);
    } else {
      assert acts + [] == acts;
    }
  }

  function FlushActs(p: int, f: Flushed): seq<Action> {
    match f
    case NotNeeded => []
    case Blocked => []
    case Sent => [Send(p)]
    case GivenUp => [Abort(p)]
  }

  /** The state with partition `p` in a new state and the batch that it has sent, if any. */
  function WithClaim(s: State, p: int, c: Claim, sent: seq<Batch>): State {
    s.(claims := s.claims[p := c], channel := s.channel + sent)
  }

  lemma FlushSteps(s: State, p: int, f: Flushed, c: Claim, batchSize: int)
    requires p in s.claims && FlushReact(s.claims[p], p, batchSize, s.ended, f) == Some(c)
    requires f == Sent ==> |s.channel| < CHANNEL_CAPACITY
    ensures ExecFrom(s, FlushActs(p, f), batchSize) ==
            Some(WithClaim(s, p, c, if f == Sent then [BatchOf(p, s.claims[p].buf)] else []))
  {
    assert s.channel + [] == s.channel;
    if f in {NotNeeded, Blocked} {
      assert s.claims[p := c] == s.claims;
    } else {
      var a := if f == Sent then Send(p) else Abort(p);
      assert [a][1..] == [];
    }
  }

  /** A consumer's reaction to an event is a stretch of the run. */
  lemma ReactSteps(s: State, p: int, e: Event, f: Flushed, took: Claim, c: Claim, batchSize: int)
    requires p in s.claims && ClaimStep(s.claims[p], p, ActionOf(p, e), batchSize, s.ended) == Some(took)
    requires FlushReact(took, p, batchSize, s.ended, f) == Some(c)
    requires f == Sent ==> |s.channel| < CHANNEL_CAPACITY
    ensures ExecFrom(s, [ActionOf(p, e)] + FlushActs(p, f), batchSize) ==
            Some(WithClaim(s, p, c, if f == Sent then [BatchOf(p, took.buf)] else []))
  {
    var a := ActionOf(p, e);
    var s1 := s.(claims := s.claims[p := took]);
    assert Apply(s, a, batchSize) == Some(s1) && [a][1..] == [];
    FlushSteps(s1, p, f, c, batchSize);
    ExecFromAppends(s, [a], s1, FlushActs(p, f), batchSize);
    assert s1.claims[p := c] == s.claims[p := c];
  }

  function Taken(turn: Turn, queued: nat): nat {
    if |turn.outcomes| <= queued then |turn.outcomes| else queued
  }

  /** A listening consumer takes the next event; the end of the session is seen only after it has come. */
  predicate TakesEvent(m: Mode, next: Option<Event>, ended: bool) {
    m == Listening && next.Some? && (next.value == SessionDone ==> ended)
  }

  function EventActs(c: Claim, p: int, e: Event, batchSize: int, room: bool, ended: bool,
                     sendsFirst: bool): seq<Action> {
    var empty := if e.Message? then |c.buf| + 1 < batchSize else c.buf == [];
    [ActionOf(p, e)] + FlushActs(p, Select(empty, room, ended, sendsFirst))
  }

  /** What one turn adds to the run: the runner's part, then that of partition `p`. */
  function TurnActs(s: State, p: int, next: Option<Event>, turn: Turn, batchSize: int): seq<Action>
    requires p in s.claims
  {
    var taken := Taken(turn, |s.channel|);
    var room, ended, c := |s.channel| - taken < CHANNEL_CAPACITY, s.ended || turn.ends, s.claims[p];
    WorldActs(s.channel, turn.outcomes[..taken], turn.ends) +
    if c.mode != Listening then FlushActs(p, Select(false, room, ended, turn.sendsFirst))
    else if TakesEvent(c.mode, next, ended) then EventActs(c, p, next.value, batchSize, room, ended, turn.sendsFirst)
    else []
  }

  // ---------------------------------------------------------------- the message loop

  /** The messages among the events, in order. */
  function MessagesOf(events: seq<Event>): seq<Msg> {
    if events == [] then []
    else MessagesOf(events[..|events| - 1]) +
         if events[|events| - 1].Message? then [events[|events| - 1].m] else []
  }

  /** A claim delivers messages of its partition by increasing offset. */
  ghost predicate IsClaimInput(events: seq<Event>, p: int) {
    (forall k | 0 <= k < |events| && events[k].Message? :: events[k].m.part == p) && Increasing(MessagesOf(events))
  }

  lemma {:induction false} MessagesPrefix(events: seq<Event>, k: nat)
    requires k <= |events|
    ensures MessagesOf(events[..k]) <= MessagesOf(events)
    decreases |events|
  {
    if k < |events| {
      MessagesPrefix(events[..|events| - 1], k);
      assert events[..|events| - 1][..k] == events[..k];
    } else {
      assert events[..k] == events;
    }
  }

  lemma {:induction false} NextEvent(events: seq<Event>, k: nat)
    requires k < |events| && Increasing(MessagesOf(events))
    ensures events[k].Message? ==> InOrder(MessagesOf(events[..k]), events[k].m)
    ensures MessagesOf(events[..k + 1]) ==
            MessagesOf(events[..k]) + if events[k].Message? then [events[k].m] else []
  {
    assert events[..k + 1][..k] == events[..k];
    MessagesPrefix(events, k + 1);
    if events[k].Message? {
      var before, all := MessagesOf(events[..k]), MessagesOf(events);
      assert before + [events[k].m] <= all;
      assert all[|before|] == events[k].m;
      assert before != [] ==> before[|before| - 1] == all[|before| - 1];
    }
  }

  function Next(events: seq<Event>, n: nat): Option<Event> {
    if n < |events| then Some(events[n]) else None
  }

  /** A run of the message loop: the state it has led to, the number of events taken, the actions so far. */
  datatype Play = Play(s: State, n: nat, acts: seq<Action>)

  /** One turn more; a consumer that is done takes none, and no turn is impossible for another one. */
  function PlayTurn(pl: Play, p: int, events: seq<Event>, turn: Turn, batchSize: int): Option<Play> {
    if p !in pl.s.claims then None
    else if pl.s.claims[p].mode == Closed then Some(pl)
    else
      var next := Next(events, pl.n);
      var acts := TurnActs(pl.s, p, next, turn, batchSize);
      match ExecFrom(pl.s, acts, batchSize)
      case None => None
      case Some(s') =>
        Some(Play(s', if TakesEvent(pl.s.claims[p].mode, next, s'.ended) then pl.n + 1 else pl.n, pl.acts + acts))
  }

  function PlayAll(s: State, p: int, events: seq<Event>, turns: seq<Turn>, batchSize: int): Option<Play> {
    if turns == [] then Some(Play(s, 0, []))
    else
      match PlayAll(s, p, events, turns[..|turns| - 1], batchSize)
      case None => None
      case Some(pl) => PlayTurn(pl, p, events, turns[|turns| - 1], batchSize)
  }

  /** Further turns change nothing once the consumer is done. */
  lemma {:induction false} DoneStays(s: State, p: int, events: seq<Event>, turns: seq<Turn>, k: nat, batchSize: int)
    requires k <= |turns| && PlayAll(s, p, events, turns[..k], batchSize).Some?
    requires var pl := PlayAll(s, p, events, turns[..k], batchSize).value;
             p in pl.s.claims && pl.s.claims[p].mode == Closed
    ensures PlayAll(s, p, events, turns, batchSize) == PlayAll(s, p, events, turns[..k], batchSize)
    decreases |turns|
  {
    if k < |turns| {
      assert turns[..|turns| - 1][..k] == turns[..k];
      DoneStays(s, p, events, turns[..|turns| - 1], k, batchSize);
    } else {
      assert turns[..k] == turns;
    }
  }

  lemma OneTurnMore(s0: State, p: int, events: seq<Event>, turns: seq<Turn>, k: nat, pl: Play, more: seq<Action>,
                    s': State, batchSize: int)
    requires k < |turns| && PlayAll(s0, p, events, turns[..k], batchSize) == Some(pl)
    requires p in pl.s.claims && pl.s.claims[p].mode != Closed && ExecFrom(pl.s, more, batchSize) == Some(s')
    requires more == TurnActs(pl.s, p, Next(events, pl.n), turns[k], batchSize)
    ensures var took := TakesEvent(pl.s.claims[p].mode, Next(events, pl.n), s'.ended);
            PlayAll(s0, p, events, turns[..k + 1], batchSize) ==
            Some(Play(s', if took then pl.n + 1 else pl.n, pl.acts + more))
  {
    assert turns[..k + 1][..k] == turns[..k];
  }

  /** The actions lead from `s` to `s'`, where the runner waits again and no claim but that of `p` has moved. */
  ghost predicate Follows(s: State, p: int, acts: seq<Action>, s': State, batchSize: int) {
    && ExecFrom(s, acts, batchSize) == Some(s') && Ready(s')
    && p in s.claims && p in s'.claims && s'.claims == s.claims[p := s'.claims[p]]
  }

  lemma FollowOn(s: State, p: int, acts: seq<Action>, s1: State, more: seq<Action>, s2: State, batchSize: int)
    requires Follows(s, p, acts, s1, batchSize) && Follows(s1, p, more, s2, batchSize)
    ensures Follows(s, p, acts + more, s2, batchSize)
  {
    ExecFromAppends(s, acts, s1, more, batchSize);
  }

  /** The first `k` turns make this play, which is a stretch of a run. */
  ghost predicate Played(s0: State, p: int, events: seq<Event>, turns: seq<Turn>, k: nat, pl: Play, batchSize: int)
    requires k <= |turns|
  {
    PlayAll(s0, p, events, turns[..k], batchSize) == Some(pl) && Follows(s0, p, pl.acts, pl.s, batchSize)
  }

  lemma PlayedOn(s0: State, p: int, events: seq<Event>, turns: seq<Turn>, k: nat, pl: Play, more: seq<Action>,
                 s': State, took: bool, batchSize: int)
    requires k < |turns| && Played(s0, p, events, turns, k, pl, batchSize) && pl.s.claims[p].mode != Closed
    requires Follows(pl.s, p, more, s', batchSize)
    requires more == TurnActs(pl.s, p, Next(events, pl.n), turns[k], batchSize)
    requires took == TakesEvent(pl.s.claims[p].mode, Next(events, pl.n), s'.ended)
    ensures Played(s0, p, events, turns, k + 1, Play(s', if took then pl.n + 1 else pl.n, pl.acts + more), batchSize)
  {
    OneTurnMore(s0, p, events, turns, k, pl, more, s', batchSize);
    FollowOn(s0, p, pl.acts, pl.s, more, s', batchSize);
  }

  /** One partition's message loop. */
  class PartitionConsumer {
    const part: int
    const batchSize: int
    const out: Channel
    var buf: seq<string>
    var msgs: seq<Msg>
    var mode: Mode
    ghost var received: seq<Msg>
    ghost var handed: seq<Batch>

    /** The records to send are those of the messages to mark, and nothing received is lost or reordered. */
    ghost predicate Valid()
      reads this
    {
      && buf == RecordsOf(msgs) && received == Flat(handed, part) + msgs
      && (mode in {Flushing, Closing} ==> msgs != [])
    }

    ghost function View(): Claim
      reads this
    {
      Claim(received, msgs, mode)
    }

    constructor (part: int, batchSize: int, out: Channel)
      ensures Valid() && View() == Claim([], [], Listening) && handed == []
      ensures this.part == part && this.batchSize == batchSize && this.out == out
    {
      this.part, this.batchSize, this.out := part, batchSize, out;
      buf, msgs, received, handed, mode := [], [], [], [], Listening;
    }

    /** Hands the buffer over as one batch, gives up, or is left waiting in the select. */
    method Flush(ended: bool, sendsFirst: bool) returns (f: Flushed)
      requires Valid()
      modifies this`buf, this`msgs, this`handed, this`mode, out`queue
      ensures Valid()
      ensures f == Select(old(msgs) == [], |old(out.queue)| < CHANNEL_CAPACITY, ended, sendsFirst)
      ensures f == Sent ==> msgs == [] && out.queue == old(out.queue) + [BatchOf(part, old(msgs))]
                            && handed == old(handed) + [BatchOf(part, old(msgs))]
      ensures f != Sent ==> msgs == old(msgs) && out.queue == old(out.queue) && handed == old(handed)
      ensures mode == ModeAfter(old(mode), f)
    {
      if |buf| == 0 {
        return NotNeeded;
      }
      if |out.queue| < CHANNEL_CAPACITY && (!ended || sendsFirst) {
        ghost var batch := BatchOf(part, msgs);
        out.queue := out.queue + [Batch(part, msgs, buf)];
        FlatAppend(handed, batch, part);
        handed := handed + [batch];
        buf, msgs, mode := [], [], Resumed(mode);
        return Sent;
      }
      if ended {
        mode := Resumed(mode);
        return GivenUp;
      }
      f := Blocked;
    }

    method Add(m: Msg)
      requires Valid() && mode == Listening
      modifies this`buf, this`msgs, this`received
      ensures Valid() && msgs == old(msgs) + [m] && received == old(received) + [m]
    {
      assert (msgs + [m])[..|msgs|] == msgs;
      AppendMoves(Flat(handed, part), msgs, [m]);
      buf := buf + [m.value];
      msgs := msgs + [m];
      received := received + [m];
    }

    /** A message is appended; a full buffer is flushed. */
    method OnMessage(m: Msg, ended: bool, sendsFirst: bool) returns (f: Flushed)
      requires Valid() && mode == Listening && m.part == part && InOrder(received, m)
      modifies this`buf, this`msgs, this`received, this`handed, this`mode, out`queue
      ensures Valid() && received == old(received) + [m]
      ensures React(old(View()), part, Receive(part, m), batchSize, ended, f) == Some(View())
      ensures f == Select(|old(msgs)| + 1 < batchSize, |old(out.queue)| < CHANNEL_CAPACITY, ended, sendsFirst)
      ensures out.queue == old(out.queue) + if f == Sent then [BatchOf(part, old(msgs) + [m])] else []
    {
      MessageReacts(View(), part, m, batchSize, |out.queue| < CHANNEL_CAPACITY, ended, sendsFirst);
      Add(m);
      f := NotNeeded;
      if |buf| >= batchSize {
        mode := Flushing;
        f := Flush(ended, sendsFirst);
      }
    }

    /** A non-empty buffer is to be flushed; the end of the claim closes the consumer at once without one. */
    method Begin(last: bool)
      requires Valid() && mode == Listening
      modifies this`mode
      ensures Valid()
      ensures mode == if msgs != [] then (if last then Closing else Flushing) else if last then Closed else Listening
    {
      if |buf| > 0 {
        mode := if last then Closing else Flushing;
      } else if last {
        mode := Closed;
      }
    }

    /** The ticker flushes what has gathered; the end of the claim does so for the last time. */
    method OnOther(e: Event, ended: bool, sendsFirst: bool) returns (f: Flushed)
      requires Valid() && mode == Listening && !e.Message?
      modifies this`buf, this`msgs, this`handed, this`mode, out`queue
      ensures Valid() && received == old(received)
      ensures React(old(View()), part, ActionOf(part, e), batchSize, ended, f) == Some(View())
      ensures f == Select(old(msgs) == [], |old(out.queue)| < CHANNEL_CAPACITY, ended, sendsFirst)
      ensures out.queue == old(out.queue) + if f == Sent then [BatchOf(part, old(msgs))] else []
    {
      OtherReacts(View(), part, e, batchSize, |out.queue| < CHANNEL_CAPACITY, ended, sendsFirst);
      Begin(!e.TickerFired?);
      f := Flush(ended, sendsFirst);
    }

    /** One event; the state `s` of the whole pipeline follows by the actions that come back. */
    method OnEvent(e: Event, ended: bool, sendsFirst: bool, ghost s: State) returns (ghost acts: seq<Action>)
      requires Valid() && mode == Listening && Mirrors(s) && s.ended == ended
      requires e.Message? ==> e.m.part == part && InOrder(received, e.m)
      modifies this`buf, this`msgs, this`received, this`handed, this`mode, out`queue
      ensures Valid() && received == old(received) + if e.Message? then [e.m] else []
      ensures acts == EventActs(s.claims[part], part, e, batchSize, |s.channel| < CHANNEL_CAPACITY, ended, sendsFirst)
      ensures ExecFrom(s, acts, batchSize) ==
              Some(s.(claims := s.claims[part := View()], channel := out.queue))
    {
      ghost var c := View();
      var f;
      if e.Message? {
        f := OnMessage(e.m, ended, sendsFirst);
      } else {
        f := OnOther(e, ended, sendsFirst);
      }
      acts := [ActionOf(part, e)] + FlushActs(part, f);
      ghost var took := ClaimStep(c, part, ActionOf(part, e), batchSize, ended).value;
      ReactSteps(s, part, e, f, took, View(), batchSize);
      assert s.channel + [] == s.channel;
    }

    /** A flush that was left waiting tries again. */
    method Retry(ended: bool, sendsFirst: bool, ghost s: State) returns (ghost acts: seq<Action>)
      requires Valid() && mode in {Flushing, Closing} && Mirrors(s) && s.ended == ended
      modifies this`buf, this`msgs, this`handed, this`mode, out`queue
      ensures Valid() && received == old(received)
      ensures acts == FlushActs(part, Select(false, |s.channel| < CHANNEL_CAPACITY, ended, sendsFirst))
      ensures ExecFrom(s, acts, batchSize) ==
              Some(s.(claims := s.claims[part := View()], channel := out.queue))
    {
      var f := Flush(ended, sendsFirst);
      acts := FlushActs(part, f);
      FlushSteps(s, part, f, View(), batchSize);
      assert s.channel + [] == s.channel;
    }

    /** The consumer and the channel are those of this state of the pipeline. */
    ghost predicate Mirrors(s: State)
      reads this, out
    {
      part in s.claims && s.claims[part] == View() && s.channel == out.queue
    }

    /** Batches are taken from the channel by the runner. */
    method Elapse(taken: nat)
      requires taken <= |out.queue|
      modifies out`queue
      ensures out.queue == old(out.queue)[taken..]
    {
      out.queue := out.queue[taken..];
    }

    /** One turn: what the world does, then a waiting flush or the next event, if it is there. */
    method TakeTurn(turn: Turn, next: Option<Event>, over: bool, ghost s: State)
      returns (took: bool, ghost acts: seq<Action>, ghost s': State)
      requires Valid() && mode != Closed && Ready(s) && Mirrors(s) && s.ended == over
      requires next.Some? && next.value.Message? ==> next.value.m.part == part && InOrder(received, next.value.m)
      modifies this`buf, this`msgs, this`received, this`handed, this`mode, out`queue
      ensures Valid() && Mirrors(s') && Follows(s, part, acts, s', batchSize)
      ensures s'.ended == (over || turn.ends)
      ensures took == TakesEvent(old(mode), next, s'.ended) && acts == TurnActs(s, part, next, turn, batchSize)
      ensures received == old(received) + if took && next.value.Message? then [next.value.m] else []
    {
      var taken := Taken(turn, |out.queue|);
      ghost var s1 := WorldSteps(s, turn.outcomes[..taken], turn.ends, batchSize);
      Elapse(taken);
      took := TakesEvent(mode, next, over || turn.ends);
      ghost var more := [];
      if mode != Listening {
        more := Retry(over || turn.ends, turn.sendsFirst, s1);
      } else if took {
        more := OnEvent(next.value, over || turn.ends, turn.sendsFirst, s1);
      }
      assert s1.claims[part := s1.claims[part]] == s1.claims;
      s' := s1.(claims := s1.claims[part := View()], channel := out.queue);
      acts := WorldActs(s.channel, turn.outcomes[..taken], turn.ends) + more;
      ExecFromAppends(s, WorldActs(s.channel, turn.outcomes[..taken], turn.ends), s1, more, batchSize);
    }

    /** After `k` turns the loop stands where the state machine does. */
    ghost predicate Playing(events: seq<Event>, turns: seq<Turn>, k: nat, n: nat, s0: State, acts: seq<Action>,
                            s: State)
      reads this, out
    {
      && k <= |turns| && n <= |events| && Valid() && received == MessagesOf(events[..n])
      && Mirrors(s) && Played(s0, part, events, turns, k, Play(s, n, acts), batchSize)
    }

    method Round(events: seq<Event>, turns: seq<Turn>, k: nat, n: nat, over: bool, ghost s0: State,
                 ghost acts: seq<Action>, ghost s: State)
      returns (took: bool, ghost acts': seq<Action>, ghost s': State)
      requires k < |turns| && mode != Closed && s.ended == over && IsClaimInput(events, part)
      requires Playing(events, turns, k, n, s0, acts, s)
      modifies this`buf, this`msgs, this`received, this`handed, this`mode, out`queue
      ensures took ==> n < |events|
      ensures Playing(events, turns, k + 1, if took then n + 1 else n, s0, acts', s')
      ensures s'.ended == (over || turns[k].ends)
    {
      if n < |events| {
        NextEvent(events, n);
      }
      ghost var more;
      took, more, s' := TakeTurn(turns[k], Next(events, n), over, s);
      PlayedOn(s0, part, events, turns, k, Play(s, n, acts), more, s', took, batchSize);
      acts' := acts + more;
    }

    /** The select loop, one turn of the world for every select: what happens from the state `s0` on, the runner's
        part included, is a stretch of a run of the pipeline, and the one that the turns make. */
    method ConsumeClaim(events: seq<Event>, turns: seq<Turn>, ghost s0: State)
      returns (n: nat, ghost acts: seq<Action>, ghost s: State)
      requires Valid() && View() == Claim([], [], Listening) && IsClaimInput(events, part)
      requires Ready(s0) && !s0.ended && Mirrors(s0)
      modifies this`buf, this`msgs, this`received, this`handed, this`mode, out`queue
      ensures Valid() && n <= |events| && received == MessagesOf(events[..n])
      ensures Mirrors(s) && Follows(s0, part, acts, s, batchSize)
      ensures PlayAll(s0, part, events, turns, batchSize) == Some(Play(s, n, acts))
    {
      n, acts, s := 0, [], s0;
      var over, i := false, 0;
      assert s0.claims[part := s0.claims[part]] == s0.claims;
      while i < |turns| && mode != Closed
        invariant i <= |turns| && Playing(events, turns, i, n, s0, acts, s) && s.ended == over
        decreases |turns| - i
      {
        var took;
        took, acts, s := Round(events, turns, i, n, over, s0, acts, s);
        over := over || turns[i].ends;
        n := if took then n + 1 else n;
        i := i + 1;
      }
      if mode == Closed {
        DoneStays(s0, part, events, turns, i, batchSize);
      } else {
        assert turns[..i] == turns;
      }
    }
  }

  // ---------------------------------------------------------------- the runner loop

  datatype FinalStatus = Success | Stopped | Error

  class PipelineRunner {
    var metrics: Metrics
    ghost var marked: seq<Msg>

    constructor ()
      ensures metrics == Metrics(0, 0, 0, 0) && marked == []
    {
      metrics := Metrics(0, 0, 0, 0);
      marked := [];
    }

    /** Writes one batch; acknowledges and counts it only when the write succeeds. */
    method Handle(batch: Batch, written: bool, ghost log: seq<Outcome>)
      requires metrics == Totals(log) && marked == Acked(log)
      modifies this
      ensures metrics == Totals(log + [Outcome(batch, written)])
      ensures marked == Acked(log + [Outcome(batch, written)])
    {
      assert (log + [Outcome(batch, written)])[..|log|] == log;
      if !written {
        metrics := metrics.(errors := metrics.errors + 1);
        return;
      }
      marked := marked + batch.msgs;
      metrics := metrics.(rows := metrics.rows + |batch.records|, batches := metrics.batches + 1);
      var bytes := 0;
      for k := 0 to |batch.records|
        invariant bytes == Bytes(batch.records[..k])
        invariant metrics == Totals(log).(rows := Totals(log).rows + |batch.records|,
                                          batches := Totals(log).batches + 1)
        invariant marked == Acked(log) + batch.msgs
      {
        assert batch.records[..k + 1][..k] == batch.records[..k];
        bytes := bytes + |batch.records[k]|;
      }
      assert batch.records[..|batch.records|] == batch.records;
      metrics := metrics.(bytes := metrics.bytes + bytes);
    }

    /** Takes batches until the channel is closed or the context is found cancelled at batch `stopAt`. */
    method Run(batches: seq<Batch>, writes: nat -> bool, stopAt: nat, sourceFailed: bool, cancelled: bool)
      returns (status: FinalStatus, ghost log: seq<Outcome>)
      requires metrics == Metrics(0, 0, 0, 0) && marked == []
      requires stopAt < |batches| ==> cancelled
      modifies this
      ensures var n := if stopAt < |batches| then stopAt else |batches|;
              log == seq(n, k requires 0 <= k < n => Outcome(batches[k], writes(k)))
      ensures metrics == Totals(log) && marked == Acked(log)
      ensures status == if cancelled then Stopped else if sourceFailed then Error else Success
    {
      log := [];
      var i := 0;
      while i < |batches| && i != stopAt
        invariant 0 <= i <= |batches| && i <= stopAt
        invariant log == seq(i, k requires 0 <= k < i => Outcome(batches[k], writes(k)))
        invariant metrics == Totals(log) && marked == Acked(log)
      {
        Handle(batches[i], writes(i), log);
        log := log + [Outcome(batches[i], writes(i))];
        i := i + 1;
      }
      status := Success;
      if sourceFailed && !cancelled {
        status := Error;
      } else if cancelled {
        status := Stopped;
      }
    }
  }
}
