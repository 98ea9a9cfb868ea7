/** The decisions of FocusFlow/ViewModels/TimerViewModel.swift: what the
    timer screen shows for a published engine state, when a session may
    start and under what title, when a natural completion is recorded, and
    which notification requests accompany each action.

    The view model reads the clock in milliseconds: a preset's duration of
    `d` seconds starts the engine with `d * 1000`, and every time shown on
    screen is converted back to whole seconds.  Times handed to the
    notification service stay in the engine's milliseconds. */
module TimerViewModel {
  import opened Wrappers
  import opened Text
  import opened Sessions
  import E = TimerEngine
  import P = PresetStore

  const MillisPerSecond: int := 1000

  /** `SessionMode`, with raw values "work" and "break". */
  datatype SessionMode = Work | BreakTime

  function RawValue(m: SessionMode): string {
    match m
    case Work => "work"
    case BreakTime => "break"
  }

  /** `SessionMode(rawValue:)`. */
  function ModeOfRaw(raw: string): (m: Option<SessionMode>)
    ensures m.Some? ==> RawValue(m.value) == raw
  {
    if raw == "work" then Some(Work)
    else if raw == "break" then Some(BreakTime)
    else None
  }

  /** The raw value names the mode unambiguously. */
  lemma RawValueRoundTrip(m: SessionMode)
    ensures ModeOfRaw(RawValue(m)) == Some(m)
  {
  }

  // ---------------------------------------------------------------------
  // What the screen shows
  // ---------------------------------------------------------------------

  /** `format(seconds:)`: `"%02d:%02d"` of the truncating quotient and
      remainder by 60.  A non-negative count reads back as minutes, a
      colon, and exactly two digits of seconds below 60; the minutes carry
      a leading zero only when there are fewer than ten of them. */
  function Format(seconds: int): (r: string)
    ensures |r| >= 5
    ensures seconds >= 0 ==>
              && r[|r| - 3] == ':'
              && AllDigits(r[..|r| - 3]) && AllDigits(r[|r| - 2..])
              && DecimalValue(r[|r| - 2..]) < 60
              && DecimalValue(r[..|r| - 3]) * 60 + DecimalValue(r[|r| - 2..]) == seconds
    ensures 0 <= seconds < 6000 ==> |r| == 5
    ensures seconds >= 0 ==> r[..|r| - 3] == ZeroPad2(seconds / 60) && r[|r| - 2..] == ZeroPad2(seconds % 60)
    ensures seconds >= 600 ==> r[0] != '0'
  {
    var minutes := ZeroPad2(TruncDiv(seconds, 60));
    var secs := ZeroPad2(TruncRem(seconds, 60));
    var r := minutes + ":" + secs;
    if seconds < 0 then r
    else
      TruncDivOfNatural(seconds, 60);
      assert r[..|r| - 3] == minutes && r[|r| - 2..] == secs;
      r
  }

  /** Distinct non-negative counts are shown differently. */
  lemma FormatInjective(a: int, b: int)
    requires a >= 0 && b >= 0 && Format(a) == Format(b)
    ensures a == b
  {
    FormatReadsBack(a);
    FormatReadsBack(b);
  }

  /** Minutes times sixty plus seconds, read off a formatted count. */
  function ReadBack(r: string): int
    requires |r| >= 5 && AllDigits(r[..|r| - 3]) && AllDigits(r[|r| - 2..])
  {
    DecimalValue(r[..|r| - 3]) * 60 + DecimalValue(r[|r| - 2..])
  }

  /** `r` is a rendering that reads back as `n`. */
  predicate ReadsAs(r: string, n: int) {
    && |r| >= 5 && AllDigits(r[..|r| - 3]) && AllDigits(r[|r| - 2..])
    && ReadBack(r) == n
  }

  lemma FormatReadsBack(seconds: int)
    requires seconds >= 0
    ensures ReadsAs(Format(seconds), seconds)
  {
  }

  /** The whole seconds left that `remainingTimeFormatted` shows: 0 outside
      a session, otherwise the planned time minus the published elapsed
      time, floored at 0 and truncated to whole seconds. */
  function RemainingSeconds(s: E.TimerState): (r: int)
    ensures r >= 0
    ensures !E.InSession(s) ==> r == 0
    ensures E.InSession(s) ==>
              var left := s.planned - s.elapsed;
              (left <= 0 ==> r == 0) && (left > 0 ==> r * MillisPerSecond <= left < (r + 1) * MillisPerSecond)
  {
    match s
    case Idle => 0
    case Running(_, planned, elapsed) => TruncDiv(E.Max(0, planned - elapsed), MillisPerSecond)
    case Paused(elapsed, planned) => TruncDiv(E.Max(0, planned - elapsed), MillisPerSecond)
    case Finished => 0
  }

  /** `remainingTimeFormatted`. */
  function RemainingTimeFormatted(s: E.TimerState): (r: string)
    ensures |r| >= 5
    ensures r == Format(RemainingSeconds(s))
  {
    Format(RemainingSeconds(s))
  }

  /** `progress`: 0 before a session, 1 after, otherwise the elapsed
      fraction clamped into [0, 1], and 0 for a non-positive plan. */
  function Progress(s: E.TimerState): (p: real)
    ensures 0.0 <= p <= 1.0
    ensures s.Idle? ==> p == 0.0
    ensures s.Finished? ==> p == 1.0
    ensures E.InSession(s) && s.planned <= 0 ==> p == 0.0
    ensures E.InSession(s) && s.planned > 0 ==>
              && (s.elapsed <= 0 ==> p == 0.0)
              && (s.elapsed >= s.planned ==> p == 1.0)
              && (0 <= s.elapsed <= s.planned ==> p * (s.planned as real) == s.elapsed as real)
  {
    match s
    case Idle => 0.0
    case Finished => 1.0
    case Running(_, planned, elapsed) => Fraction(elapsed, planned)
    case Paused(elapsed, planned) => Fraction(elapsed, planned)
  }

  /** `min(1, max(0, elapsed / planned))` behind a positive-plan guard,
      written as a case split on the integers. */
  function Fraction(elapsed: int, planned: int): (p: real)
    ensures 0.0 <= p <= 1.0
    ensures planned <= 0 ==> p == 0.0
    ensures planned > 0 ==>
              && (elapsed <= 0 ==> p == 0.0)
              && (elapsed >= planned ==> p == 1.0)
              && (0 <= elapsed <= planned ==> p * (planned as real) == elapsed as real)
  {
    if planned <= 0 then 0.0
    else if elapsed <= 0 then 0.0
    else if elapsed >= planned then 1.0
    else
      var f := (elapsed as real) / (planned as real);
      assert f * (planned as real) == elapsed as real;
      f
  }

  /** `modeTitle`: "BREAK" exactly during a break session, "FOCUS"
      otherwise. */
  function ModeTitle(s: E.TimerState, mode: SessionMode): (r: string)
    ensures r == "BREAK" <==> E.InSession(s) && mode.BreakTime?
    ensures r == "FOCUS" <==> !(E.InSession(s) && mode.BreakTime?)
  {
    assert "FOCUS"[0] != "BREAK"[0];
    match s
    case Idle => "FOCUS"
    case Finished => "FOCUS"
    case Running(_, _, _) => if mode.Work? then "FOCUS" else "BREAK"
    case Paused(_, _) => if mode.Work? then "FOCUS" else "BREAK"
  }

  /** `isRunning`. */
  predicate IsRunning(s: E.TimerState) {
    s.Running?
  }

  /** The screen says "running" exactly when the engine keeps a tick task. */
  lemma IsRunningIffTicking(e: E.Engine, clock: int)
    requires E.Valid(e, clock)
    ensures IsRunning(e.state) <==> e.ticking
  {
  }

  // ---------------------------------------------------------------------
  // Starting a session
  // ---------------------------------------------------------------------

  /** What `start(preset:mode:title:)` does once its guard passes: the
      seconds to run, the mode, and the type and title of the session
      record it creates. */
  datatype SessionPlan = SessionPlan(mode: SessionMode, seconds: int, kind: string, title: string)

  /** The preset's duration for a mode. */
  function DurationFor(preset: P.PresetViewData, mode: SessionMode): int {
    if mode == Work then preset.workDuration else preset.breakDuration
  }

  /** The title fallback: a missing or blank title becomes "Work" or
      "Break"; any other title is kept exactly as given, untrimmed. */
  function SessionTitle(title: Option<string>, mode: SessionMode): (r: string)
    ensures title.Some? && !IsBlank(title.value) ==> r == title.value
    ensures title.None? || IsBlank(title.value) ==> r == (if mode == Work then "Work" else "Break")
  {
    if title.Some? && !IsBlank(title.value) then title.value
    else if mode == Work then "Work" else "Break"
  }

  /** Every session is recorded under a title that is not blank. */
  lemma SessionTitleNeverBlank(title: Option<string>, mode: SessionMode)
    ensures !IsBlank(SessionTitle(title, mode))
  {
    var r := SessionTitle(title, mode);
    if !(title.Some? && !IsBlank(title.value)) {
      assert |r| > 0 && !IsWhitespace(r[0]);
      BlankIffAllWhitespace(r);
    }
  }

  /** `start(preset:mode:title:)`: nothing happens unless the mode's
      duration is positive; otherwise the session runs for that duration
      and is recorded with the mode's raw value and the title fallback. */
  function StartSession(preset: P.PresetViewData, mode: SessionMode, title: Option<string>): (r: Option<SessionPlan>)
    ensures r.None? <==> DurationFor(preset, mode) <= 0
    ensures r.Some? ==>
              && r.value.mode == mode && r.value.seconds == DurationFor(preset, mode) && r.value.seconds > 0
              && r.value.kind == RawValue(mode) && r.value.title == SessionTitle(title, mode)
  {
    var d := DurationFor(preset, mode);
    if d <= 0 then None else Some(SessionPlan(mode, d, RawValue(mode), SessionTitle(title, mode)))
  }

  /** A started session shows its whole duration, no progress, and its
      mode, whatever the engine was doing before. */
  lemma StartShowsFullDuration(e: E.Engine, plan: SessionPlan, now: int)
    requires plan.seconds > 0
    ensures var s := E.Apply(e, E.Start(plan.seconds * MillisPerSecond), now).state;
            && s == E.Running(now, plan.seconds * MillisPerSecond, 0)
            && RemainingSeconds(s) == plan.seconds
            && Progress(s) == 0.0
            && IsRunning(s)
            && (ModeTitle(s, plan.mode) == "BREAK" <==> plan.mode == BreakTime)
  {
  }

  // ---------------------------------------------------------------------
  // Observing the engine and recording completion
  // ---------------------------------------------------------------------

  /** Completion is handled only when a published state turns a running
      session into a finished one. */
  predicate CompletionFires(previous: E.TimerState, next: E.TimerState) {
    previous.Running? && next.Finished?
  }

  /** The engine moves a running session to finished only by finishing it
      naturally: a tick past the plan, `finish`, or a skip that reaches the
      plan.  Stopping, pausing or starting never fires completion. */
  lemma CompletionOnlyOnNaturalFinish(e: E.Engine, cmd: E.Command, now: int)
    requires CompletionFires(e.state, E.Apply(e, cmd, now).state)
    ensures cmd.Tick? || cmd.Finish? || (cmd.Skip? && cmd.amount > 0)
    ensures cmd.Tick? ==> now - e.state.startTime >= e.state.planned
    ensures cmd.Skip? ==> (now - e.state.startTime) + cmd.amount >= e.state.planned
  {
  }

  /** A tick at or after the planned end of a running session always fires
      completion. */
  lemma TickPastPlanFires(e: E.Engine, now: int)
    requires e.state.Running? && now - e.state.startTime >= e.state.planned
    ensures CompletionFires(e.state, E.Apply(e, E.Tick, now).state)
  {
  }

  /** Jotted notes trimmed, when anything is left of them. */
  function NotesTitle(notes: Option<string>): (r: Option<string>)
    ensures r.Some? <==> notes.Some? && !IsBlank(notes.value)
    ensures r.Some? ==> r.value == Trim(notes.value) && r.value != []
  {
    if notes.Some? && !IsBlank(notes.value) then Some(Trim(notes.value)) else None
  }

  /** The title update shared by `stop` and completion: non-blank notes,
      trimmed, replace the title; otherwise the title is kept. */
  function WithNotes(rec: SessionRecord, notes: Option<string>): (r: SessionRecord)
    ensures r.title == (if NotesTitle(notes).Some? then NotesTitle(notes) else rec.title)
    ensures r.(title := rec.title) == rec
  {
    match NotesTitle(notes)
    case Some(t) => rec.(title := Some(t))
    case None => rec
  }

  /** `handleSessionCompletion(jottedNotes:)`: the latest record, if any,
      gets its full planned duration as elapsed time and is marked
      completed; no other record changes. */
  function CompleteLatest(sessions: seq<SessionRecord>, notes: Option<string>): (r: seq<SessionRecord>)
    ensures |r| == |sessions|
    ensures sessions == [] ==> r == []
    ensures sessions != [] ==>
              var i := LatestIndex(sessions).value;
              && r[i].elapsedSeconds == sessions[i].plannedDuration && r[i].completed
              && r[i].plannedDuration == sessions[i].plannedDuration
              && r[i].createdAt == sessions[i].createdAt && r[i].kind == sessions[i].kind
              && r[i].title == WithNotes(sessions[i], notes).title
              && forall j :: 0 <= j < |sessions| && j != i ==> r[j] == sessions[j]
  {
    match LatestIndex(sessions)
    case None => sessions
    case Some(i) =>
      var rec := sessions[i];
      sessions[i := WithNotes(rec.(elapsedSeconds := rec.plannedDuration, completed := true), notes)]
  }

  /** Recording a completion twice with the same notes is the same as
      recording it once. */
  lemma CompleteLatestIdempotent(sessions: seq<SessionRecord>, notes: Option<string>)
    ensures CompleteLatest(CompleteLatest(sessions, notes), notes) == CompleteLatest(sessions, notes)
  {
    var once := CompleteLatest(sessions, notes);
    if sessions != [] {
      var i := LatestIndex(sessions).value;
      assert forall j :: 0 <= j < |once| ==> once[j].createdAt == sessions[j].createdAt;
      LatestUnchangedByDates(sessions, once);
      var rec := once[i];
      var again := WithNotes(rec.(elapsedSeconds := rec.plannedDuration, completed := true), notes);
      assert again == rec;
      assert once[i := again] == once;
    }
  }

  /** The latest record depends on creation dates only. */
  lemma LatestUnchangedByDates(a: seq<SessionRecord>, b: seq<SessionRecord>)
    requires |a| == |b| && forall j :: 0 <= j < |a| ==> a[j].createdAt == b[j].createdAt
    ensures LatestIndex(a) == LatestIndex(b)
  {
    if a != [] {
      assert forall j :: 0 <= j < |a[1..]| ==> a[1..][j].createdAt == b[1..][j].createdAt;
      LatestUnchangedByDates(a[1..], b[1..]);
    }
  }

  // ---------------------------------------------------------------------
  // Notification requests
  // ---------------------------------------------------------------------

  /** A request to the notification service. */
  datatype Notice =
    | CancelAll
    | ScheduleIn(millis: int, kind: string)

  /** The notification `start` requests once the engine runs: a reminder
      for the whole session under the mode's raw value. */
  function StartNotices(plan: SessionPlan): (r: seq<Notice>)
    ensures |r| == 1 && r[0].ScheduleIn?
    ensures r[0].millis == plan.seconds * MillisPerSecond && r[0].kind == plan.kind
  {
    [ScheduleIn(plan.seconds * MillisPerSecond, plan.kind)]
  }

  /** The reminder `start` schedules is exactly the time the freshly
      started engine has left: the request a reschedule of the new state
      would make after cancelling. */
  lemma StartAnnouncesTimeLeft(e: E.Engine, preset: P.PresetViewData, mode: SessionMode,
                               title: Option<string>, now: int)
    requires StartSession(preset, mode, title).Some?
    ensures var plan := StartSession(preset, mode, title).value;
            var s := E.Apply(e, E.Start(plan.seconds * MillisPerSecond), now).state;
            && StartNotices(plan) == [ScheduleIn(E.Remaining(s, now), RawValue(mode))]
            && RescheduleNotices(s, Some(plan.kind)) == [CancelAll] + StartNotices(plan)
  {
    var plan := StartSession(preset, mode, title).value;
    StartShowsFullDuration(e, plan, now);
  }

  /** The notifications `pause` requests: every pending one is cancelled,
      whatever the engine was doing. */
  function PauseNotices(): (r: seq<Notice>)
    ensures |r| == 1 && r[0].CancelAll?
  {
    [CancelAll]
  }

  /** The notifications `skipToEnd` requests: every pending one is
      cancelled, whatever the engine was doing. */
  function SkipToEndNotices(): (r: seq<Notice>)
    ensures |r| == 1 && r[0].CancelAll?
  {
    [CancelAll]
  }

  /** Pausing never leaves a session running, so the unconditional cancel
      of `pause` agrees with what a reschedule of the paused state requests,
      whatever the engine was doing before. */
  lemma PauseNoticesMatchState(e: E.Engine, now: int, kind: Option<string>)
    ensures !E.Apply(e, E.Pause, now).state.Running?
    ensures PauseNotices() == RescheduleNotices(E.Apply(e, E.Pause, now).state, kind)
  {
  }

  /** Finishing never leaves a session running, so the unconditional cancel
      of `skipToEnd` agrees with what a reschedule of the new state requests;
      unlike `stop` after a natural finish, it also cancels when the engine
      had already finished. */
  lemma SkipToEndNoticesMatchState(e: E.Engine, now: int, kind: Option<string>)
    ensures !E.Apply(e, E.Finish, now).state.Running?
    ensures SkipToEndNotices() == RescheduleNotices(E.Apply(e, E.Finish, now).state, kind)
    ensures e.state.Finished? ==> SkipToEndNotices() != StopNotices(e.state)
  {
  }

  /** `stop(jottedNotes:)`: what happens to the latest record, decided by
      the state before stopping. */
  datatype StopMark =
    | MarkElapsed(elapsed: int)
    | MarkCompletedFlag
    | NoMark

  /** The notifications `stop` requests: all pending ones are cancelled
      unless the session had already finished naturally. */
  function StopNotices(before: E.TimerState): (r: seq<Notice>)
    ensures r == [CancelAll] <==> !before.Finished?
    ensures r == [] <==> before.Finished?
  {
    if before.Finished? then [] else [CancelAll]
  }

  /** How `stop` marks the latest record: an open session with its
      published elapsed time, a finished one only as completed, and an idle
      engine not at all. */
  function StopMarkFor(before: E.TimerState): (r: StopMark)
    ensures r.MarkElapsed? <==> E.InSession(before)
    ensures r.MarkElapsed? ==> r.elapsed == before.elapsed
    ensures r == MarkCompletedFlag <==> before.Finished?
    ensures r == NoMark <==> before.Idle?
  {
    match before
    case Running(_, _, elapsed) => MarkElapsed(elapsed)
    case Paused(elapsed, _) => MarkElapsed(elapsed)
    case Finished => MarkCompletedFlag
    case Idle => NoMark
  }

  /** The record update of `stop` apart from `markCompleted(elapsedTime:)`,
      whose effect is not part of this model: the completed flag for a
      finished session and the notes title. */
  function StopRecord(rec: SessionRecord, before: E.TimerState, notes: Option<string>): (r: SessionRecord)
    ensures r.completed == (rec.completed || before.Finished?)
    ensures r.title == WithNotes(rec, notes).title
    ensures r.(completed := rec.completed, title := rec.title) == rec
  {
    var marked := if StopMarkFor(before) == MarkCompletedFlag then rec.(completed := true) else rec;
    WithNotes(marked, notes)
  }

  /** The notifications `resume` requests: a reminder for the time left of
      the paused session, under the latest record's type, when some time is
      left and that record has a type. */
  function ResumeNotices(before: E.TimerState, latestKind: Option<string>): (r: seq<Notice>)
    ensures |r| <= 1
    ensures |r| == 1 <==> before.Paused? && before.planned - before.elapsed > 0 && latestKind.Some?
    ensures |r| == 1 ==> r[0] == ScheduleIn(before.planned - before.elapsed, latestKind.value)
  {
    match before
    case Paused(elapsed, planned) =>
      var remaining := E.Max(0, planned - elapsed);
      if remaining > 0 && latestKind.Some? then [ScheduleIn(remaining, latestKind.value)] else []
    case _ => []
  }

  /** `rescheduleNotificationForCurrentState()`: a running session with time
      left and a typed latest record is re-announced (cancel, then
      schedule); a running session with nothing left, or an untyped latest
      record, changes nothing; any other state cancels. */
  function RescheduleNotices(current: E.TimerState, latestKind: Option<string>): (r: seq<Notice>)
    ensures !current.Running? ==> r == [CancelAll]
    ensures current.Running? && current.planned - current.elapsed > 0 && latestKind.Some? ==>
              r == [CancelAll, ScheduleIn(current.planned - current.elapsed, latestKind.value)]
    ensures current.Running? && (current.planned - current.elapsed <= 0 || latestKind.None?) ==> r == []
  {
    match current
    case Running(_, planned, elapsed) =>
      var remaining := E.Max(0, planned - elapsed);
      if remaining > 0 && latestKind.Some? then [CancelAll, ScheduleIn(remaining, latestKind.value)] else []
    case _ => [CancelAll]
  }

  /** `skipThirtySeconds()`: the engine skips 30 seconds, then the reminder
      follows the new state.  A skip that leaves time in a running session
      re-announces exactly the time left; one that reaches the plan cancels. */
  lemma SkipThirtyReschedules(e: E.Engine, now: int, kind: string)
    requires e.state.Running? && e.state.planned > 0
    ensures var s := E.Apply(e, E.Skip(30 * MillisPerSecond), now).state;
            var left := e.state.planned - (now - e.state.startTime) - 30 * MillisPerSecond;
            && (left > 0 ==> RescheduleNotices(s, Some(kind)) == [CancelAll, ScheduleIn(left, kind)])
            && (left <= 0 ==> s.Finished? && RescheduleNotices(s, Some(kind)) == [CancelAll])
  {
  }

  /** Pausing cancels every pending notification, and a later resume
      schedules exactly the time the pause froze. */
  lemma PauseThenResumeReschedules(e: E.Engine, t1: int, t2: int, kind: string)
    requires e.state.Running? && e.state.planned - (t1 - e.state.startTime) > 0
    ensures PauseNotices() == [CancelAll]
    ensures var paused := E.Apply(e, E.Pause, t1).state;
            ResumeNotices(paused, Some(kind)) == [ScheduleIn(e.state.planned - (t1 - e.state.startTime), kind)]
  {
  }
}
