/** Why the engine never drifts.  The engine never adds up elapsed time: it
    keeps a start instant and recomputes `now - startTime`, and `resume` and
    `skipSeconds` rebuild a synthetic start `now - elapsed`.  This module
    defines the naive alternative, a stopwatch whose counter is advanced by
    the time between consecutive commands, and proves that the engine,
    observed at the instant of each command, is exactly that stopwatch for
    every sequence of commands and clock readings. */
module ElapsedRefinement {
  import E = TimerEngine

  /** A stopwatch that accumulates its counter explicitly. */
  datatype Stopwatch =
    | Off
    | Counting(elapsed: int, planned: int)
    | Holding(elapsed: int, planned: int)
    | Done

  /** `delta` time units pass: only a counting stopwatch accumulates them. */
  function Advance(w: Stopwatch, delta: int): Stopwatch {
    match w
    case Counting(elapsed, planned) => Counting(elapsed + delta, planned)
    case _ => w
  }

  /** The commands acting on the counter directly, with no clock. */
  function Perform(w: Stopwatch, cmd: E.Command): Stopwatch {
    match cmd
    case Start(d) => Counting(0, d)
    case Pause => if w.Counting? then Holding(w.elapsed, w.planned) else w
    case Resume => if w.Holding? then Counting(w.elapsed, w.planned) else w
    case Stop => Off
    case Skip(amount) =>
      if amount <= 0 || !(w.Counting? || w.Holding?) then w
      else if w.elapsed + amount >= w.planned then Done
      else if w.Counting? then Counting(w.elapsed + amount, w.planned)
      else Holding(w.elapsed + amount, w.planned)
    case Finish => if w.Counting? || w.Holding? then Done else w
    case Tick => if w.Counting? && w.elapsed >= w.planned then Done else w
    case Subscribe => w
  }

  /** The stopwatch a timer state stands for when the clock reads `now`. */
  function Abstract(s: E.TimerState, now: int): (w: Stopwatch)
    ensures w.Counting? <==> s.Running?
    ensures w.Holding? <==> s.Paused?
    ensures (w.Counting? || w.Holding?) ==> w.elapsed == E.Elapsed(s, now) && w.planned == s.planned
  {
    match s
    case Idle => Off
    case Running(start, planned, _) => Counting(now - start, planned)
    case Paused(elapsed, planned) => Holding(elapsed, planned)
    case Finished => Done
  }

  /** Reading the same state later is the same as letting the stopwatch run. */
  lemma TimePasses(s: E.TimerState, t: int, t': int)
    ensures Abstract(s, t') == Advance(Abstract(s, t), t' - t)
  {
  }

  /** One command: the engine's transition followed by abstraction equals
      abstraction followed by the stopwatch's command. */
  lemma StepCommutes(e: E.Engine, cmd: E.Command, now: int)
    ensures Abstract(E.Apply(e, cmd, now).state, now) == Perform(Abstract(e.state, now), cmd)
  {
  }

  /** The stopwatch driven by timed events: before each command, the time
      since the previous event (or since `from`) is added. */
  function RunStopwatch(w: Stopwatch, from: int, events: seq<E.Event>): Stopwatch
    decreases |events|
  {
    if events == [] then w
    else RunStopwatch(Perform(Advance(w, events[0].at - from), events[0].cmd), events[0].at, events[1..])
  }

  /** No drift: after any sequence of commands at any clock readings, the
      engine's state read at the last of them is the accumulating
      stopwatch's, so elapsed time is exactly the time spent running plus
      the time skipped. */
  lemma {:induction false} NoDrift(e: E.Engine, from: int, events: seq<E.Event>)
    ensures Abstract(E.Run(e, events).state, E.LastTime(events, from))
            == RunStopwatch(Abstract(e.state, from), from, events)
    decreases |events|
  {
    if events != [] {
      var ev := events[0];
      var e' := E.Apply(e, ev.cmd, ev.at);
      TimePasses(e.state, from, ev.at);
      StepCommutes(e, ev.cmd, ev.at);
      assert Abstract(e'.state, ev.at) == Perform(Advance(Abstract(e.state, from), ev.at - from), ev.cmd);
      NoDrift(e', ev.at, events[1..]);
      assert E.LastTime(events[1..], ev.at) == E.LastTime(events, from);
    }
  }

  /** A session paused and resumed any number of times: with start at `t0`
      and the clock then alternating pause and resume, the paused elapsed
      time is the sum of the running intervals only. */
  lemma PauseResumeCycle(d: int, t0: int, t1: int, t2: int, t3: int)
    ensures var events := [E.Event(E.Start(d), t0), E.Event(E.Pause, t1),
                           E.Event(E.Resume, t2), E.Event(E.Pause, t3)];
            E.Run(E.Initial, events).state == E.Paused((t1 - t0) + (t3 - t2), d)
  {
    var events := [E.Event(E.Start(d), t0), E.Event(E.Pause, t1),
                   E.Event(E.Resume, t2), E.Event(E.Pause, t3)];
    var e1 := E.Apply(E.Initial, E.Start(d), t0);
    var e2 := E.Apply(e1, E.Pause, t1);
    var e3 := E.Apply(e2, E.Resume, t2);
    var e4 := E.Apply(e3, E.Pause, t3);
    assert E.Run(E.Initial, events) == E.Run(e1, events[1..]);
    assert E.Run(e1, events[1..]) == E.Run(e2, events[2..]);
    assert E.Run(e2, events[2..]) == E.Run(e3, events[3..]);
    assert E.Run(e3, events[3..]) == E.Run(e4, []);
  }
}
