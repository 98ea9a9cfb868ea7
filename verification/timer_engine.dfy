/** The timer engine of FocusFlow/Engine/TimerEngine.swift as a pure
    transition system.

    Instants and durations are integers in one clock unit (the view model
    reads the clock in milliseconds); the clock read `Date()` of each
    command becomes the parameter `now`.  The engine's private tick task
    becomes the boolean `ticking`, and the single `AsyncStream`
    continuation becomes a subscriber slot holding the id of the latest
    subscriber, with every `yield` recorded in an append-only delivery log. */
module TimerEngine {
  import opened Wrappers

  /** The four states of a session.  In `Running`, `elapsed` is a display
      hint only; the authoritative elapsed time is `now - startTime`. */
  datatype TimerState =
    | Idle
    | Running(startTime: int, planned: int, elapsed: int)
    | Paused(elapsed: int, planned: int)
    | Finished

  datatype Command =
    | Start(duration: int)
    | Pause
    | Resume
    | Stop
    | Skip(amount: int)
    | Finish
    | Tick
    | Subscribe

  /** What a committed command does to the periodic tick activity:
      `scheduleTicks()`, `cancelTicks()`, or neither. */
  datatype TickAction = Schedule | Cancel | Keep

  /** A committed transition: the new state (which is then published) and
      the tick action that accompanies it. */
  datatype Commit = Commit(next: TimerState, ticks: TickAction)

  /** One `yield` of a state to the subscriber with the given id. */
  datatype Delivery = Delivery(subscriber: nat, state: TimerState)

  datatype Engine = Engine(
    state: TimerState,
    ticking: bool,
    subscriber: Option<nat>,
    subscriptions: nat,
    deliveries: seq<Delivery>)

  /** A freshly initialised engine: idle, no tick task, no subscriber. */
  const Initial: Engine := Engine(Idle, false, None, 0, [])

  /** The authoritative elapsed time of a state at instant `now`. */
  function Elapsed(s: TimerState, now: int): int {
    match s
    case Running(start, _, _) => now - start
    case Paused(elapsed, _) => elapsed
    case _ => 0
  }

  predicate InSession(s: TimerState) {
    s.Running? || s.Paused?
  }

  // ---------------------------------------------------------------------
  // Transitions of the state, one per command
  // ---------------------------------------------------------------------

  /** `start(plannedDuration:)`: from every state, a new running session
      that starts now; a non-positive duration is accepted as given. */
  function StartCommit(duration: int, now: int): (c: Commit)
    ensures c.next.Running? && c.next.planned == duration
    ensures c.next.startTime == now && Elapsed(c.next, now) == 0 && c.next.elapsed == 0
    ensures c.ticks == Schedule
  {
    Commit(Running(now, duration, 0), Schedule)
  }

  /** `pause()`: only a running session pauses, freezing the elapsed time
      read now (not clamped to the planned duration). */
  function PauseCommit(s: TimerState, now: int): (r: Option<Commit>)
    ensures r.Some? <==> s.Running?
    ensures r.Some? ==> r.value.next.Paused? && r.value.next.planned == s.planned
                        && r.value.next.elapsed == Elapsed(s, now) && r.value.ticks == Cancel
  {
    match s
    case Running(start, planned, _) => Some(Commit(Paused(now - start, planned), Cancel))
    case _ => None
  }

  /** `resume()`: only a paused session resumes, with the synthetic start
      `now - elapsed` so that the frozen elapsed time carries on. */
  function ResumeCommit(s: TimerState, now: int): (r: Option<Commit>)
    ensures r.Some? <==> s.Paused?
    ensures r.Some? ==> r.value.next.Running? && r.value.next.planned == s.planned
                        && Elapsed(r.value.next, now) == s.elapsed
                        && r.value.next.elapsed == s.elapsed && r.value.ticks == Schedule
  {
    match s
    case Paused(elapsed, planned) => Some(Commit(Running(now - elapsed, planned, elapsed), Schedule))
    case _ => None
  }

  /** `stop()`: from every state, including idle and finished. */
  function StopCommit(): (c: Commit)
    ensures c.next.Idle? && c.ticks == Cancel
  {
    Commit(Idle, Cancel)
  }

  /** `skipSeconds(_:)`: a positive skip in a session adds to the elapsed
      time, clamped to the planned duration; reaching it finishes. */
  function SkipCommit(s: TimerState, amount: int, now: int): (r: Option<Commit>)
    ensures r.Some? <==> amount > 0 && InSession(s)
    ensures r.Some? ==> var target := Elapsed(s, now) + amount;
                        (r.value.next.Finished? <==> target >= s.planned)
    ensures r.Some? && !r.value.next.Finished? ==>
              r.value.next.Running? == s.Running? && r.value.next.Paused? == s.Paused?
              && r.value.next.planned == s.planned
              && Elapsed(r.value.next, now) == Elapsed(s, now) + amount
              && r.value.next.elapsed == Elapsed(s, now) + amount
    ensures r.Some? ==> (r.value.ticks == Cancel <==> s.Running? && r.value.next.Finished?)
    ensures r.Some? ==> (r.value.ticks == Keep <==> r.value.ticks != Cancel)
  {
    if amount <= 0 then None
    else
      match s
      case Running(start, planned, _) =>
        var newElapsed := Min(now - start + amount, planned);
        if newElapsed >= planned then Some(Commit(Finished, Cancel))
        else Some(Commit(Running(now - newElapsed, planned, newElapsed), Keep))
      case Paused(elapsed, planned) =>
        var newElapsed := Min(elapsed + amount, planned);
        if newElapsed >= planned then Some(Commit(Finished, Keep))
        else Some(Commit(Paused(newElapsed, planned), Keep))
      case _ => None
  }

  /** `finish()`: a session in progress ends as finished. */
  function FinishCommit(s: TimerState): (r: Option<Commit>)
    ensures r.Some? <==> InSession(s)
    ensures r.Some? ==> r.value.next.Finished? && r.value.ticks == Cancel
  {
    if InSession(s) then Some(Commit(Finished, Cancel)) else None
  }

  /** The private `tick()`: a running session finishes once its elapsed time
      reaches the planned duration, and otherwise refreshes its hint. */
  function TickCommit(s: TimerState, now: int): (r: Option<Commit>)
    ensures r.Some? <==> s.Running?
    ensures r.Some? ==> (r.value.next.Finished? <==> Elapsed(s, now) >= s.planned)
    ensures r.Some? && !r.value.next.Finished? ==>
              r.value.next.Running? && r.value.next.startTime == s.startTime
              && r.value.next.planned == s.planned && r.value.next.elapsed == Elapsed(s, now)
    ensures r.Some? ==> (r.value.ticks == Cancel <==> r.value.next.Finished?)
    ensures r.Some? ==> r.value.ticks != Schedule
  {
    match s
    case Running(start, planned, _) =>
      var elapsed := now - start;
      if elapsed >= planned then Some(Commit(Finished, Cancel))
      else Some(Commit(Running(start, planned, elapsed), Keep))
    case _ => None
  }

  function Min(a: int, b: int): int {
    if a <= b then a else b
  }

  /** The transition of a state-changing command; `None` means the command
      returns early, changing and publishing nothing. */
  function Next(s: TimerState, cmd: Command, now: int): Option<Commit> {
    match cmd
    case Start(d) => Some(StartCommit(d, now))
    case Pause => PauseCommit(s, now)
    case Resume => ResumeCommit(s, now)
    case Stop => Some(StopCommit())
    case Skip(amount) => SkipCommit(s, amount, now)
    case Finish => FinishCommit(s)
    case Tick => TickCommit(s, now)
    case Subscribe => None
  }

  // ---------------------------------------------------------------------
  // The engine: tick activity and publication
  // ---------------------------------------------------------------------

  function TickingAfter(ticking: bool, action: TickAction): bool {
    match action
    case Schedule => true
    case Cancel => false
    case Keep => ticking
  }

  /** `publishState()`: yields to the current continuation, if there is one. */
  function Publish(e: Engine, s: TimerState): (log: seq<Delivery>)
    ensures e.subscriber.None? ==> log == e.deliveries
    ensures e.subscriber.Some? ==> log == e.deliveries + [Delivery(e.subscriber.value, s)]
  {
    match e.subscriber
    case None => e.deliveries
    case Some(id) => e.deliveries + [Delivery(id, s)]
  }

  /** Reading `stream`: the new continuation replaces the previous one and
      immediately receives the current state. */
  function Subscribed(e: Engine): (r: Engine)
    ensures r.state == e.state && r.ticking == e.ticking
    ensures r.subscriber == Some(e.subscriptions) && r.subscriptions == e.subscriptions + 1
    ensures r.deliveries == e.deliveries + [Delivery(e.subscriptions, e.state)]
  {
    e.(subscriber := Some(e.subscriptions),
       subscriptions := e.subscriptions + 1,
       deliveries := e.deliveries + [Delivery(e.subscriptions, e.state)])
  }

  /** One command processed by the actor at clock reading `now`. */
  function Apply(e: Engine, cmd: Command, now: int): (r: Engine)
    ensures cmd != Subscribe && Next(e.state, cmd, now).None? ==> r == e
    ensures cmd != Subscribe && Next(e.state, cmd, now).Some? ==>
              var c := Next(e.state, cmd, now).value;
              && r.state == c.next
              && r.ticking == TickingAfter(e.ticking, c.ticks)
              && r.subscriber == e.subscriber && r.subscriptions == e.subscriptions
              && r.deliveries == Publish(e, c.next)
    ensures cmd == Subscribe ==> r == Subscribed(e)
  {
    if cmd == Subscribe then Subscribed(e)
    else
      match Next(e.state, cmd, now)
      case None => e
      case Some(c) =>
        e.(state := c.next,
           ticking := TickingAfter(e.ticking, c.ticks),
           deliveries := Publish(e, c.next))
  }

  /** `remaining()`: never negative; zero outside a session, and the planned
      duration less the authoritative elapsed time inside one. */
  function Remaining(s: TimerState, now: int): (r: int)
    ensures r >= 0
    ensures !InSession(s) ==> r == 0
    ensures InSession(s) ==> r >= s.planned - Elapsed(s, now)
    ensures InSession(s) && r > 0 ==> r == s.planned - Elapsed(s, now)
  {
    match s
    case Idle => 0
    case Finished => 0
    case Paused(elapsed, planned) => Max(0, planned - elapsed)
    case Running(start, planned, _) => Max(0, planned - (now - start))
  }

  function Max(a: int, b: int): int {
    if a >= b then a else b
  }

  // ---------------------------------------------------------------------
  // Runs: commands at successive clock readings
  // ---------------------------------------------------------------------

  datatype Event = Event(cmd: Command, at: int)

  function Run(e: Engine, events: seq<Event>): Engine
    decreases |events|
  {
    if events == [] then e else Run(Apply(e, events[0].cmd, events[0].at), events[1..])
  }

  /** The clock reading of the last event, or `from` when there is none. */
  function LastTime(events: seq<Event>, from: int): int {
    if events == [] then from else events[|events| - 1].at
  }

  /** The clock never goes backwards: each event is read at or after the
      previous one, and the first at or after `from`. */
  predicate Monotone(events: seq<Event>, from: int)
    decreases |events|
  {
    events == [] || (from <= events[0].at && Monotone(events[1..], events[0].at))
  }

  predicate NoSubscribe(events: seq<Event>) {
    forall i :: 0 <= i < |events| ==> events[i].cmd != Subscribe
  }

  // ---------------------------------------------------------------------
  // The engine invariant
  // ---------------------------------------------------------------------

  /** What holds of every engine reachable from `Initial` when the clock
      last read `clock`: a tick activity exists exactly while running, a
      running session did not start in the future, elapsed times are not
      negative, and the current subscriber's latest delivery is the current
      state. */
  predicate Valid(e: Engine, clock: int) {
    && (e.ticking <==> e.state.Running?)
    && (e.state.Running? ==> e.state.startTime <= clock && 0 <= e.state.elapsed)
    && (e.state.Paused? ==> 0 <= e.state.elapsed)
    && (e.subscriber.Some? ==>
          e.subscriber.value < e.subscriptions && |e.deliveries| > 0
          && e.deliveries[|e.deliveries| - 1] == Delivery(e.subscriber.value, e.state))
    && (forall k :: 0 <= k < |e.deliveries| ==> e.deliveries[k].subscriber < e.subscriptions)
  }

  lemma InitialValid(clock: int)
    ensures Valid(Initial, clock)
  {
  }

  /** Every command keeps the invariant when the clock does not go back. */
  lemma ApplyKeepsValid(e: Engine, cmd: Command, clock: int, now: int)
    requires Valid(e, clock) && clock <= now
    ensures Valid(Apply(e, cmd, now), now)
  {
    var r := Apply(e, cmd, now);
    if cmd != Subscribe && Next(e.state, cmd, now).Some? {
      var c := Next(e.state, cmd, now).value;
      match cmd
      case Skip(amount) =>
        if e.state.Paused? {
          assert !e.ticking;
        }
      case _ =>
    }
  }

  /** The invariant holds after every run with a monotone clock. */
  lemma {:induction false} RunKeepsValid(e: Engine, events: seq<Event>, clock: int)
    requires Valid(e, clock) && Monotone(events, clock)
    ensures Valid(Run(e, events), LastTime(events, clock))
    decreases |events|
  {
    if events != [] {
      ApplyKeepsValid(e, events[0].cmd, clock, events[0].at);
      var rest := events[1..];
      RunKeepsValid(Apply(e, events[0].cmd, events[0].at), rest, events[0].at);
      assert LastTime(rest, events[0].at) == LastTime(events, clock);
    }
  }

  /** Consequently, in every reachable engine a tick activity is alive
      exactly when the state is running, and remaining time is never
      negative nor more than planned. */
  lemma ReachableTickingIffRunning(events: seq<Event>, clock: int)
    requires Monotone(events, clock)
    ensures var e := Run(Initial, events);
            var t := LastTime(events, clock);
            (e.ticking <==> e.state.Running?)
            && (InSession(e.state) ==> 0 <= Elapsed(e.state, t) && Remaining(e.state, t) <= Max(0, e.state.planned))
  {
    InitialValid(clock);
    RunKeepsValid(Initial, events, clock);
  }

  // ---------------------------------------------------------------------
  // Properties of single commands and short command sequences
  // ---------------------------------------------------------------------

  /** A new start discards any session in progress. */
  lemma StartReplacesSession(e: Engine, d: int, now: int)
    ensures var r := Apply(e, Start(d), now);
            r.state == Running(now, d, 0) && r.ticking
            && Remaining(r.state, now) == Max(0, d)
  {
  }

  /** `stop()` always ends in idle with no tick activity and publishes. */
  lemma StopAlwaysIdles(e: Engine, now: int)
    ensures var r := Apply(e, Stop, now);
            r.state == Idle && !r.ticking && Remaining(r.state, now) == 0
            && (e.subscriber.Some? ==> |r.deliveries| == |e.deliveries| + 1)
  {
  }

  /** Pausing and later resuming loses no time and counts none of the pause:
      resuming at `t1` and pausing again at `t2` adds exactly `t2 - t1`. */
  lemma PauseResumeFidelity(elapsed: int, planned: int, t1: int, t2: int)
    ensures var resumed := ResumeCommit(Paused(elapsed, planned), t1).value.next;
            PauseCommit(resumed, t2) == Some(Commit(Paused(elapsed + (t2 - t1), planned), Cancel))
  {
  }

  /** A skip that reaches the planned duration always finishes. */
  lemma SkipPastPlannedFinishes(s: TimerState, amount: int, now: int)
    requires InSession(s) && amount > 0 && Elapsed(s, now) + amount >= s.planned
    ensures Next(s, Skip(amount), now) == Some(Commit(Finished, if s.Running? then Cancel else Keep))
  {
  }

  /** A running session with no other commands finishes at the first tick
      at which its planned duration has passed. */
  lemma TickCompletes(start: int, planned: int, hint: int, now: int)
    requires now - start >= planned
    ensures Next(Running(start, planned, hint), Tick, now) == Some(Commit(Finished, Cancel))
  {
  }

  /** Apart from `start`, no command makes the elapsed time of a session
      go backwards: it grows with the clock and by skips. */
  lemma ElapsedNeverDecreases(s: TimerState, cmd: Command, clock: int, now: int)
    requires clock <= now && !cmd.Start?
    requires Next(s, cmd, now).Some? && InSession(Next(s, cmd, now).value.next)
    ensures Elapsed(Next(s, cmd, now).value.next, now) >= Elapsed(s, clock)
  {
  }

  /** Everything `after` delivered beyond `before`'s log went to `before`'s
      subscriber, and the subscriber slot is unchanged. */
  predicate DeliversOnlyToCurrent(before: Engine, after: Engine) {
    && before.deliveries <= after.deliveries
    && after.subscriber == before.subscriber
    && (forall d :: d in after.deliveries[|before.deliveries|..] ==> before.subscriber == Some(d.subscriber))
  }

  /** After a new subscription and any run without another one, every
      delivery goes to the newest subscriber: earlier subscribers are
      silently replaced. */
  lemma {:induction false} LatestSubscriberReceivesAll(e: Engine, events: seq<Event>)
    requires NoSubscribe(events)
    ensures DeliversOnlyToCurrent(e, Run(e, events))
    decreases |events|
  {
    if events != [] {
      var e' := Apply(e, events[0].cmd, events[0].at);
      assert NoSubscribe(events[1..]) by {
        forall i | 0 <= i < |events| - 1 ensures events[1..][i].cmd != Subscribe {
          assert events[1..][i] == events[i + 1];
        }
      }
      LatestSubscriberReceivesAll(e', events[1..]);
      assert events[0].cmd != Subscribe;
      assert DeliversOnlyToCurrent(e, e');
      DeliversOnlyToCurrentTransitive(e, e', Run(e', events[1..]));
    }
  }

  lemma DeliversOnlyToCurrentTransitive(a: Engine, b: Engine, c: Engine)
    requires DeliversOnlyToCurrent(a, b) && DeliversOnlyToCurrent(b, c)
    ensures DeliversOnlyToCurrent(a, c)
  {
    assert c.deliveries[|a.deliveries|..] == b.deliveries[|a.deliveries|..] + c.deliveries[|b.deliveries|..];
  }

  /** A new subscriber first receives the current state (replay of latest),
      and its id differs from every earlier subscriber's. */
  lemma SubscribeReplaysCurrentState(e: Engine, now: int)
    requires Valid(e, now)
    ensures var r := Apply(e, Subscribe, now);
            && r.deliveries[|r.deliveries| - 1] == Delivery(r.subscriber.value, e.state)
            && (forall k :: 0 <= k < |e.deliveries| ==> e.deliveries[k].subscriber != r.subscriber.value)
  {
  }
}
