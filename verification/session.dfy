/** The reconnecting session: one way in, one way out, and late events in between. */
module Session {
  import opened Wrappers

  // ---- the state -----------------------------------------------------------

  /**
   * The session's fields, and what the runtime holds for it: connect attempts
   * awaiting their credentials, whether the timer will still fire, the streams
   * opened so far (numbered from 0), which of them have a drain listener and
   * which this side has ended: an ended stream never drains.
   */
  datatype State = State(
    stopped: bool,
    client: bool,
    stream: Option<nat>,
    connected: bool,
    backpressured: bool,
    timerSet: bool,
    backoff: nat,
    timerLive: bool,
    attempts: nat,
    streams: nat,
    drainListeners: set<nat>,
    ended: set<nat>)
  {
    /** `this.#stream?.end()`. */
    function EndStream(): State {
      if stream.Some? then this.(ended := ended + {stream.value}) else this
    }
  }

  /** How far a connect attempt got when it failed. */
  datatype Stage =
    | NoClient                // no credential, or no client could be built
    | NoStream                // the client would not open a stream
    | NoHello                 // writing the hello threw on a stream already assigned

  datatype Event =
    | Start
    | Stop
    | Reconnect
    | ConnectFails(stage: Stage)
    | StreamOpens
    | HelloAck(on: nat, pinned: bool)
    | Message(on: nat)
    | StreamError(on: nat)
    | StreamEnd(on: nat)
    | Drained(on: nat)
    | SendBuffered            // a write the stream accepts but asks to pause after
    | TimerFires

  function New(): State {
    State(false, false, None, false, false, false, 0, false, 0, 0, {}, {})
  }

  // ---- the transitions -----------------------------------------------------

  function Connect(s: State): State {
    if s.stopped then s else s.(attempts := s.attempts + 1)
  }

  function ScheduleReconnect(s: State): State {
    if s.stopped || s.timerSet then s
    else s.(connected := false, backpressured := false, stream := None, client := false,
            backoff := s.backoff + 1, timerSet := true, timerLive := true)
  }

  function HandleDisconnect(s: State): State {
    if !s.connected && s.timerSet then s
    else
      var t := s.(connected := false, backpressured := false, stream := None, client := false);
      if s.stopped then t else ScheduleReconnect(t)
  }

  /** What a failing attempt has assigned before it throws. */
  function Attempted(s: State, stage: Stage): State {
    match stage
    case NoClient => s
    case NoStream => s.(client := true)
    case NoHello => s.(client := true, stream := Some(s.streams), streams := s.streams + 1)
  }

  /** Events the runtime can deliver in a state. */
  predicate Possible(s: State, e: Event) {
    match e
    case ConnectFails(_) => s.attempts > 0
    case StreamOpens => s.attempts > 0
    case HelloAck(on, _) => on < s.streams
    case Message(on) => on < s.streams
    case StreamError(on) => on < s.streams
    case StreamEnd(on) => on < s.streams
    case Drained(on) => on < s.streams && on !in s.ended
    case TimerFires => s.timerLive
    case _ => true
  }

  function Next(s: State, e: Event): State
    requires Possible(s, e)
  {
    match e
    case Start => Connect(s.(stopped := false))
    case Stop => s.EndStream().(stopped := true, timerLive := s.timerLive && !s.timerSet, connected := false)
    case Reconnect => if s.stopped then s else HandleDisconnect(s.(backoff := 0).EndStream())
    case ConnectFails(stage) => ScheduleReconnect(Attempted(s.(attempts := s.attempts - 1), stage))
    case StreamOpens => Attempted(s.(attempts := s.attempts - 1), NoHello)
    case HelloAck(on, pinned) =>
      if s.stream != Some(on) then s
      else if !pinned then HandleDisconnect(s)
      else s.(connected := true, backoff := 0)
    case Message(on) => s
    case StreamError(on) => if s.stream != Some(on) then s else HandleDisconnect(s)
    case StreamEnd(on) => if s.stream != Some(on) then s else HandleDisconnect(s)
    case Drained(on) =>
      if on in s.drainListeners then s.(backpressured := false, drainListeners := s.drainListeners - {on}) else s
    case SendBuffered =>
      if s.stream.None? || !s.connected || s.backpressured then s
      else s.(backpressured := true, drainListeners := s.drainListeners + {s.stream.value})
    case TimerFires => Connect(s.(timerSet := false, timerLive := false))
  }

  /** What writing to the stream comes to. */
  datatype Write = Flushed | Full | Throws

  // ---- the class -----------------------------------------------------------

  class ControlPlaneSession {
    var client: bool
    var stream: Option<nat>
    var stopped: bool
    var connected: bool
    var backpressured: bool
    var reconnectTimer: bool
    var backoff: nat
    // Held by the runtime.
    var timerLive: bool
    var attempts: nat
    var streams: nat
    var drainListeners: set<nat>
    var ended: set<nat>

    ghost function View(): State
      reads this
    {
      State(stopped, client, stream, connected, backpressured, reconnectTimer, backoff, timerLive, attempts, streams,
            drainListeners, ended)
    }

    constructor ()
      ensures View() == New()
    {
      client, stream, stopped, connected, backpressured := false, None, false, false, false;
      reconnectTimer, backoff := false, 0;
      timerLive, attempts, streams, drainListeners, ended := false, 0, 0, {}, {};
    }

    method BeginConnect()
      modifies this
      ensures View() == Connect(old(View()))
    {
      if stopped { return; }
      attempts := attempts + 1;
    }

    method DoScheduleReconnect()
      modifies this
      ensures View() == ScheduleReconnect(old(View()))
    {
      if stopped || reconnectTimer { return; }
      connected := false;
      backpressured := false;
      stream := None;
      client := false;
      backoff := backoff + 1;
      reconnectTimer := true;
      timerLive := true;
    }

    method DoHandleDisconnect()
      modifies this
      ensures View() == HandleDisconnect(old(View()))
    {
      if !connected && reconnectTimer { return; }
      connected := false;
      backpressured := false;
      stream := None;
      client := false;
      if stopped { return; }
      DoScheduleReconnect();
    }

    method DoStart()
      modifies this
      ensures View() == Next(old(View()), Start)
    {
      stopped := false;
      BeginConnect();
    }

    method DoStop()
      modifies this
      ensures View() == Next(old(View()), Stop)
    {
      stopped := true;
      if reconnectTimer { timerLive := false; }
      if stream.Some? { ended := ended + {stream.value}; }
      connected := false;
    }

    method DoReconnect()
      modifies this
      ensures View() == Next(old(View()), Reconnect)
    {
      if stopped { return; }
      backoff := 0;
      if stream.Some? { ended := ended + {stream.value}; }
      DoHandleDisconnect();
    }

    /** `#connectAsync` after its await, up to where it returns or throws. */
    method Attempt(failsAt: Option<Stage>)
      modifies this
      ensures View() == Attempted(old(View()), if failsAt.Some? then failsAt.value else NoHello)
    {
      if failsAt == Some(NoClient) { return; }
      client := true;
      if failsAt == Some(NoStream) { return; }
      stream := Some(streams);
      streams := streams + 1;
    }

    method OnConnectFailed(stage: Stage)
      requires attempts > 0
      modifies this
      ensures View() == Next(old(View()), ConnectFails(stage))
    {
      attempts := attempts - 1;
      Attempt(Some(stage));
      DoScheduleReconnect();
    }

    method OpenStream()
      requires attempts > 0
      modifies this
      ensures View() == Next(old(View()), StreamOpens)
    {
      attempts := attempts - 1;
      Attempt(None);
    }

    method OnHelloAck(on: nat, pinned: bool)
      requires on < streams
      modifies this
      ensures View() == Next(old(View()), HelloAck(on, pinned))
    {
      if stream != Some(on) { return; }
      if !pinned {
        DoHandleDisconnect();
        return;
      }
      connected := true;
      backoff := 0;
    }

    method OnErrorOrEnd(on: nat)
      requires on < streams
      modifies this
      ensures View() == Next(old(View()), StreamError(on)) == Next(old(View()), StreamEnd(on))
    {
      if stream != Some(on) { return; }
      DoHandleDisconnect();
    }

    method OnDrain(on: nat)
      requires on < streams && on !in ended
      modifies this
      ensures View() == Next(old(View()), Drained(on))
    {
      if on in drainListeners {
        drainListeners := drainListeners - {on};
        backpressured := false;
      }
    }

    /** `send`: false exactly when the message was not accepted. */
    method Send(write: Write) returns (accepted: bool)
      modifies this
      ensures accepted <==> old(stream).Some? && old(connected) && write != Throws
      ensures View() == if write == Full then Next(old(View()), SendBuffered) else old(View())
    {
      if stream.None? || !connected { return false; }
      match write {
        case Flushed => return true;
        case Throws => return false;
        case Full =>
          if !backpressured {
            backpressured := true;
            drainListeners := drainListeners + {stream.value};
          }
          return true;
      }
    }

    method OnTimer()
      requires timerLive
      modifies this
      ensures View() == Next(old(View()), TimerFires)
    {
      reconnectTimer, timerLive := false, false;
      BeginConnect();
    }
  }

  // ---- one way to be connected ---------------------------------------------

  function Count(b: bool): nat { if b then 1 else 0 }

  /** Ways the session is on its way to, or on, a connection. */
  function Pathways(s: State): nat {
    s.attempts + Count(s.stream.Some?) + Count(s.timerLive)
  }

  ghost predicate Invariant(s: State) {
    !s.stopped ==>
      && Pathways(s) == 1
      && (s.connected ==> s.stream.Some?)
      && s.timerSet == s.timerLive
      && (s.stream.Some? ==> s.stream.value < s.streams)
  }

  /** The only request that can break it: reconnecting while a connect attempt is still out. */
  ghost predicate Disciplined(s: State, e: Event) {
    e != Start && (e == Reconnect ==> s.stopped || s.attempts == 0)
  }

  lemma StepKeepsInvariant(s: State, e: Event)
    requires Invariant(s) && Possible(s, e) && Disciplined(s, e)
    ensures Invariant(Next(s, e))
  {}

  /** A reconnect keeps exactly one way in precisely when no attempt is in flight. */
  lemma ReconnectExactly(s: State)
    requires Invariant(s)
    ensures Invariant(Next(s, Reconnect)) <==> s.stopped || s.attempts == 0
  {}

  /** Each event is one the runtime can deliver, and each state follows from it. */
  ghost predicate StepsFrom(s: State, states: seq<State>, events: seq<Event>) {
    && |states| == |events| + 1 && states[0] == s
    && forall i :: 0 <= i < |events| ==> Possible(states[i], events[i]) && states[i + 1] == Next(states[i], events[i])
  }

  ghost predicate Steps(states: seq<State>, events: seq<Event>) { StepsFrom(Next(New(), Start), states, events) }

  ghost predicate IsRun(states: seq<State>, events: seq<Event>) {
    Steps(states, events) && forall i :: 0 <= i < |events| ==> Disciplined(states[i], events[i])
  }

  /** Reconnecting while an attempt is out opens two streams; the first is abandoned without being ended. */
  lemma ReconnectDoubles()
    ensures exists states: seq<State> ::
      && Steps(states, [Reconnect, StreamOpens, TimerFires, StreamOpens])
      && Pathways(states[1]) == 2
      && states[4].stream == Some(1) && states[4].streams == 2 && states[4].ended == {}
  {
    var events := [Reconnect, StreamOpens, TimerFires, StreamOpens];
    var s0 := Next(New(), Start);
    var s1 := Next(s0, Reconnect);
    var s2 := Next(s1, StreamOpens);
    var s3 := Next(s2, TimerFires);
    assert Steps([s0, s1, s2, s3, Next(s3, StreamOpens)], events);
  }

  lemma {:induction false} RunKeepsInvariant(states: seq<State>, events: seq<Event>, n: nat)
    requires IsRun(states, events) && n < |states|
    ensures Invariant(states[n])
  {
    if n > 0 {
      RunKeepsInvariant(states, events, n - 1);
      StepKeepsInvariant(states[n - 1], events[n - 1]);
    }
  }

  /**
   * After one start, a session that has not been stopped always has exactly one
   * of: a connect attempt in flight, a current stream, an armed timer.
   */
  lemma ExactlyOneWay(states: seq<State>, events: seq<Event>, n: nat)
    requires IsRun(states, events) && n < |states| && !states[n].stopped
    ensures var s := states[n];
      && (s.attempts == 1 || s.stream.Some? || s.timerLive)
      && !(s.attempts > 0 && s.stream.Some?) && !(s.attempts > 0 && s.timerLive) && !(s.stream.Some? && s.timerLive)
      && s.attempts <= 1
      && (s.connected ==> s.stream.Some?)
  {
    RunKeepsInvariant(states, events, n);
  }

  // ---- after a stop --------------------------------------------------------

  /** Without another start, the session can come to be connected. */
  ghost predicate CanConnect(s: State) {
    exists states: seq<State>, events: seq<Event> ::
      StepsFrom(s, states, events) && Start !in events && states[|states| - 1].connected
  }

  /** Stopped, with nothing left that could lead to a connection. */
  predicate Quiet(s: State) { s.stopped && !s.connected && s.attempts == 0 && s.stream.None? }

  lemma {:induction false} QuietStays(s: State, states: seq<State>, events: seq<Event>, n: nat)
    requires Quiet(s) && StepsFrom(s, states, events) && Start !in events && n < |states|
    ensures Quiet(states[n])
  {
    if n > 0 {
      QuietStays(s, states, events, n - 1);
      assert events[n - 1] in events;
    }
  }

  /** A stopped session can still connect exactly while an attempt is out or it has not let go of its stream. */
  lemma StoppedConnectsExactly(s: State)
    requires s.stopped && !s.connected && (s.stream.Some? ==> s.stream.value < s.streams)
    ensures CanConnect(s) <==> s.attempts > 0 || s.stream.Some?
  {
    if CanConnect(s) && Quiet(s) {
      var states: seq<State>, events: seq<Event> :|
        StepsFrom(s, states, events) && Start !in events && states[|states| - 1].connected;
      QuietStays(s, states, events, |states| - 1);
    }
    if s.stream.Some? {
      var ack := HelloAck(s.stream.value, true);
      assert StepsFrom(s, [s, Next(s, ack)], [ack]);
    } else if s.attempts > 0 {
      var ack, t := HelloAck(s.streams, true), Next(s, StreamOpens);
      assert StepsFrom(s, [s, t, Next(t, ack)], [StreamOpens, ack]);
    }
  }

  /** Stopping is final exactly when it finds the session waiting for its timer. */
  lemma StopIsFinalExactly(s: State)
    requires Invariant(s) && !s.stopped
    ensures CanConnect(Next(s, Stop)) <==> !s.timerLive
  {
    StoppedConnectsExactly(Next(s, Stop));
  }

  /** Stopped while connecting: the stream opens all the same, and its hello is acknowledged. */
  lemma StoppedAndConnected()
    ensures exists states: seq<State> ::
      && Steps(states, [Stop, StreamOpens, HelloAck(0, true)]) && states[3].stopped && states[3].connected
  {
    var s0 := Next(New(), Start);
    var s1 := Next(s0, Stop);
    var s2 := Next(s1, StreamOpens);
    assert Steps([s0, s1, s2, Next(s2, HelloAck(0, true))], [Stop, StreamOpens, HelloAck(0, true)]);
  }

  /** Started again right after a stop, it has two ways in or a timer it believes armed and that never fires. */
  lemma RestartNeverKeeps(s: State)
    requires Invariant(s) && !s.stopped
    ensures var t := Next(Next(s, Stop), Start); Pathways(t) == 2 || (t.timerSet && !t.timerLive)
    ensures !Invariant(Next(Next(s, Stop), Start))
  {}

  /** Running, with no way in and a timer that is set and dead: every reconnect is taken for scheduled already. */
  predicate Stranded(s: State) {
    !s.stopped && !s.connected && s.attempts == 0 && s.stream.None? && s.timerSet && !s.timerLive
  }

  lemma {:induction false} StrandedStays(s: State, states: seq<State>, events: seq<Event>, n: nat)
    requires Stranded(s) && StepsFrom(s, states, events) && Start !in events && n < |states|
    ensures Stranded(states[n]) || Quiet(states[n])
  {
    if n > 0 {
      StrandedStays(s, states, events, n - 1);
      assert events[n - 1] in events;
    }
  }

  lemma StrandedForGood(s: State)
    requires Stranded(s)
    ensures !CanConnect(s)
  {
    if CanConnect(s) {
      var states: seq<State>, events: seq<Event> :|
        StepsFrom(s, states, events) && Start !in events && states[|states| - 1].connected;
      StrandedStays(s, states, events, |states| - 1);
    }
  }

  /** The next failed attempt strands a restarted session exactly when the stop had found its timer armed. */
  lemma RestartStrandsExactly(s: State)
    requires Invariant(s) && !s.stopped
    ensures Possible(s, Stop) && Possible(Next(s, Stop), Start)
    ensures var t := Next(Next(s, Stop), Start);
      Possible(t, ConnectFails(NoClient)) && (Stranded(Next(t, ConnectFails(NoClient))) <==> s.timerLive)
  {}

  lemma FirstFailure()
    ensures var s := Next(New(), Start);
      && Possible(New(), Start) && Possible(s, ConnectFails(NoClient))
      && var t := Next(s, ConnectFails(NoClient)); Invariant(t) && !t.stopped && t.timerLive
  {}

  /** A session restarted while its timer was armed is stranded by the first attempt that fails. */
  lemma RestartStrands() returns (states: seq<State>)
    ensures Steps(states, [ConnectFails(NoClient), Stop, Start, ConnectFails(NoClient)])
    ensures Stranded(states[4]) && !CanConnect(states[4])
  {
    hide *;
    var fails := ConnectFails(NoClient);
    FirstFailure();
    var s0 := Next(New(), Start);
    var s1 := Next(s0, fails);
    RestartStrandsExactly(s1);
    var s2 := Next(s1, Stop);
    var s3 := Next(s2, Start);
    var s4 := Next(s3, fails);
    StrandedForGood(s4);
    FourSteps(s0, fails, s1, Stop, s2, Start, s3, fails, s4);
    states := [s0, s1, s2, s3, s4];
  }

  lemma FourSteps(s0: State, e0: Event, s1: State, e1: Event, s2: State, e2: Event, s3: State, e3: Event, s4: State)
    requires s0 == Next(New(), Start)
    requires Possible(s0, e0) && s1 == Next(s0, e0) && Possible(s1, e1) && s2 == Next(s1, e1)
    requires Possible(s2, e2) && s3 == Next(s2, e2) && Possible(s3, e3) && s4 == Next(s3, e3)
    ensures Steps([s0, s1, s2, s3, s4], [e0, e1, e2, e3])
  {
    hide Next, Possible, New;
  }

  // ---- late events ---------------------------------------------------------

  predicate FromStream(e: Event, on: nat) {
    e == HelloAck(on, true) || e == HelloAck(on, false) || e == Message(on) || e == StreamError(on) ||
    e == StreamEnd(on)
  }

  /** Data, errors and ends of a stream that is not the current one change nothing. */
  lemma SupersededStreamsAreIgnored(s: State, e: Event, on: nat)
    requires FromStream(e, on) && Possible(s, e) && s.stream != Some(on)
    ensures Next(s, e) == s
  {}

  /**
   * A drain event is not guarded that way: one from a superseded stream leaves
   * the session's own fields alone exactly when there is no backpressure to clear.
   */
  lemma SupersededDrainExactly(s: State, on: nat)
    requires Possible(s, Drained(on)) && s.stream != Some(on)
    ensures Next(s, Drained(on)).(drainListeners := s.drainListeners) == s <==>
            !(s.backpressured && on in s.drainListeners)
  {}

  lemma Extended(states: seq<State>, events: seq<Event>, s: State, e: Event)
    returns (states': seq<State>, events': seq<Event>)
    requires IsRun(states, events) && states[|states| - 1] == s && Possible(s, e) && Disciplined(s, e)
    ensures IsRun(states', events') && states'[|states'| - 1] == Next(s, e)
  {
    hide Next, Possible, Disciplined;
    states', events' := states + [Next(s, e)], events + [e];
  }

  /** From connecting to a stream that is connected and whose buffer is full. */
  lemma FilledUp(states: seq<State>, events: seq<Event>, s: State) returns (states': seq<State>, events': seq<Event>)
    requires IsRun(states, events) && states[|states| - 1] == s
    requires !s.stopped && s.attempts == 1 && !s.backpressured
    ensures IsRun(states', events')
    ensures states'[|states'| - 1] ==
      s.(attempts := 0, client := true, stream := Some(s.streams), streams := s.streams + 1, connected := true,
         backoff := 0, backpressured := true, drainListeners := s.drainListeners + {s.streams})
  {
    states', events' := Extended(states, events, s, StreamOpens);
    var t := Next(s, StreamOpens);
    states', events' := Extended(states', events', t, HelloAck(s.streams, true));
    var u := Next(t, HelloAck(s.streams, true));
    states', events' := Extended(states', events', u, SendBuffered);
  }

  /** From a stream the server closes to connecting again. */
  lemma DialledAgain(states: seq<State>, events: seq<Event>, s: State)
    returns (states': seq<State>, events': seq<Event>)
    requires IsRun(states, events) && states[|states| - 1] == s
    requires !s.stopped && s.attempts == 0 && !s.timerSet && s.connected
    requires s.stream.Some? && s.stream.value < s.streams
    ensures IsRun(states', events')
    ensures var t := states'[|states'| - 1];
      && !t.stopped && t.attempts == 1 && !t.backpressured && t.streams == s.streams
      && t.drainListeners == s.drainListeners && t.ended == s.ended
  {
    states', events' := Extended(states, events, s, StreamEnd(s.stream.value));
    states', events' := Extended(states', events', Next(s, StreamEnd(s.stream.value)), TimerFires);
  }

  /** It does happen: a stream the server closed on a full buffer drains after its successor filled up too. */
  lemma SupersededDrainHappens()
    ensures exists states: seq<State>, events: seq<Event> ::
      && IsRun(states, events)
      && var s := states[|states| - 1];
         s.stream == Some(1) && s.backpressured && Possible(s, Drained(0)) && !Next(s, Drained(0)).backpressured
  {
    var states, events := [Next(New(), Start)], [];
    states, events := FilledUp(states, events, states[0]);
    states, events := DialledAgain(states, events, states[|states| - 1]);
    states, events := FilledUp(states, events, states[|states| - 1]);
  }
}
