# FocusFlow core in Dafny

This project models the logic at the centre of FocusFlow, a Pomodoro-style focus timer for iOS. It proves properties about each part.

- **The timer engine** (`TimerEngine`). A four-state machine: idle, running, paused, finished. It never accumulates elapsed time. A running session keeps its start instant, and the elapsed time is recomputed as `now - startTime`. `resume` and `skipSeconds` rebuild a synthetic start `now - elapsed`. The clock reading `now` is an explicit integer parameter, so every command is a pure transition.
  - The engine record also models:
    - whether a tick task is alive;
    - the single stream continuation, where the latest subscriber replaces earlier ones;
    - the log of published states.
  - `ElapsedRefinement` proves that this design has no drift. For every run of commands at every clock readings, the engine observed at each command is exactly a stopwatch that adds up the time between commands.
- **The timer screen** (`TimerViewModel`). It covers:
  - the `mm:ss` formatting, the remaining time, the progress ring, the mode title and `isRunning`;
  - the start guard and the session title fallback;
  - when a natural completion is recorded, and what it writes;
  - what `stop` writes;
  - which notification requests accompany each action.
- **The preset catalogue** (`PresetStore`). It covers:
  - validation and its error messages;
  - `displayTitle`, which strips a trailing `" <digits>/<digits>"` hint;
  - the whole-minute views, `preset(with:)`, `addPreset` with its sort order, and `update`;
  - seeding the three defaults and loading in (sortOrder, createdAt) order.
  - The Core Data records are modelled as an in-memory sequence.
- **The preset editor** (`PresetDraft`). It covers the minutes-based draft, its conversion to and from seconds, the stepper ranges, and `saveDraft`'s choice between adding and updating.
- **Hex colours** (`ColorHex`). `UIColor(hex:)` parses into integer RGBA components, and `toHex` formats them back. Both round trips are proved.
- **Analytics** (`SessionAnalytics`). It covers:
  - today's and the week's statistics and how they are formatted;
  - the current and the longest streak of days with a completed work session;
  - the last session date and whether the streak is active.
  - All of it is computed over a plain list of session records (`Sessions`).

`Text` models the Foundation and Swift conventions the code relies on:
- trimming with the Unicode White_Space set;
- truncating integer division and remainder;
- `Int(x)` on a floating value;
- `"\(n)"` and `%02d`.

`Wrappers` holds `Option`, `Outcome` and `Result`.

Time is measured in integers. The engine counts milliseconds. The view model converts a preset's seconds by multiplying by 1000, and the times in its notification requests stay in milliseconds. Session records and analytics use whole seconds. A day is the fixed window of 86400 seconds starting at a multiple of 86400.

The model follows the code as written on these points:
- `pause` does not clamp the frozen elapsed time to the planned duration.
- `stop` from idle or finished still cancels ticks, sets idle and publishes.
- `focusTimeFormatted` applies `%` to a `TimeInterval`. Swift has no `%` on `Double`, so that line does not compile as written. The model reads it as the truncating remainder of the whole seconds, which is what `truncatingRemainder(dividingBy:)` followed by `Int(...)` gives for whole-second totals.
- `isStreakActive` calls `Calendar.current.dateInterval(from:to:)`, which is not a `Calendar` method, so that line does not compile as written either. The model reads it as the duration `now - lastDate` of the interval between the two dates, and a last date in the future as a duration of 0, which is what the `?? 0` fallback gives when no interval exists.

## Model

| member | source | states |
|---|---|---|
| TimerEngine.StartCommit | FocusFlow/Engine/TimerEngine.swift:29-35 | from any state a new session runs from `now` with the given plan and zero elapsed time, and ticks are scheduled |
| TimerEngine.PauseCommit | FocusFlow/Engine/TimerEngine.swift:37-47 | only a running session pauses; it freezes exactly `now - start`, unclamped, keeps the plan and cancels ticks; any other state gives no transition |
| TimerEngine.ResumeCommit | FocusFlow/Engine/TimerEngine.swift:49-62 | only a paused session resumes; the synthetic start makes the elapsed time at `now` equal the frozen one, the plan is kept and ticks are scheduled |
| TimerEngine.StopCommit | FocusFlow/Engine/TimerEngine.swift:64-68 | stopping always leads to idle and cancels ticks |
| TimerEngine.SkipCommit | FocusFlow/Engine/TimerEngine.swift:71-101 | a skip acts iff it is positive and a session is in progress; it finishes iff elapsed plus skip reaches the plan, and otherwise keeps the variant with the elapsed time grown by exactly the skip; ticks are cancelled only when a running session finishes |
| TimerEngine.FinishCommit | FocusFlow/Engine/TimerEngine.swift:104-113 | finishing acts iff a session is in progress, and then ends finished with ticks cancelled |
| TimerEngine.TickCommit | FocusFlow/Engine/TimerEngine.swift:149-165 | a tick acts only on a running session; it finishes iff the elapsed time reached the plan, and otherwise keeps start and plan and refreshes the published elapsed time; it never schedules |
| TimerEngine.Publish | FocusFlow/Engine/TimerEngine.swift:167-169 | a state is delivered to the current subscriber if there is one, and to nobody otherwise |
| TimerEngine.Subscribed | FocusFlow/Engine/TimerEngine.swift:17-23 | reading the stream makes the new subscriber the only one and immediately yields the current state to it |
| TimerEngine.Apply | FocusFlow/Engine/TimerEngine.swift:29-113 | a command without a transition changes nothing and publishes nothing; otherwise the state is replaced, the tick task follows the transition, and exactly one delivery is added |
| TimerEngine.Remaining | FocusFlow/Engine/TimerEngine.swift:120-132 | the time left is never negative, is 0 outside a session, and is `max(0, planned - elapsed-now)` in a session |
| TimerEngine.InitialValid | FocusFlow/Engine/TimerEngine.swift:13-27 | a new engine satisfies the invariant: idle, no tick task, no subscriber |
| TimerEngine.ApplyKeepsValid | FocusFlow/Engine/TimerEngine.swift:134-147 | every command keeps the invariant, including that a tick task is alive exactly when the state is running |
| TimerEngine.RunKeepsValid | FocusFlow/Engine/TimerEngine.swift:134-147 | the invariant holds after any run of commands read at a clock that never goes back |
| TimerEngine.ReachableTickingIffRunning | FocusFlow/Engine/TimerEngine.swift:134-147 | in every reachable engine a tick task is alive iff the state is running |
| TimerEngine.StartReplacesSession | FocusFlow/Engine/TimerEngine.swift:29-33 | `start` discards any session in progress and does not reject a non-positive plan |
| TimerEngine.StopAlwaysIdles | FocusFlow/Engine/TimerEngine.swift:64-68 | `stop` from every state ends idle with no tick task and publishes idle |
| TimerEngine.PauseResumeFidelity | FocusFlow/Engine/TimerEngine.swift:49-58 | after resuming at `t1`, a pause at `t2` freezes the old elapsed time plus `t2 - t1` |
| TimerEngine.SkipPastPlannedFinishes | FocusFlow/Engine/TimerEngine.swift:77-96 | a skip reaching the plan always finishes, and cancels ticks only when running |
| TimerEngine.TickCompletes | FocusFlow/Engine/TimerEngine.swift:152-156 | a tick at or past the planned end finishes the session and cancels ticks |
| TimerEngine.ElapsedNeverDecreases | FocusFlow/Engine/TimerEngine.swift:37-113 | no command other than `start` makes a session's elapsed time go back |
| TimerEngine.LatestSubscriberReceivesAll | FocusFlow/Engine/TimerEngine.swift:17-23 | after a subscription, every later publication goes to that subscriber only |
| TimerEngine.DeliversOnlyToCurrentTransitive | FocusFlow/Engine/TimerEngine.swift:17-23 | delivering only to the current subscriber holds across consecutive runs |
| TimerEngine.SubscribeReplaysCurrentState | FocusFlow/Engine/TimerEngine.swift:18-22 | a new subscriber first receives the current state, and nothing else changes |
| ElapsedRefinement.Abstract | FocusFlow/Engine/TimerEngine.swift:4-9 | running maps to a counting stopwatch and paused to a holding one, each showing the engine's authoritative elapsed time |
| ElapsedRefinement.TimePasses | FocusFlow/Engine/TimerEngine.swift:40 | reading a state later equals advancing its stopwatch by the time between |
| ElapsedRefinement.StepCommutes | FocusFlow/Engine/TimerEngine.swift:29-113 | every engine command commutes with abstraction to the matching stopwatch command |
| ElapsedRefinement.NoDrift | FocusFlow/Engine/TimerEngine.swift:52-56 | after any run of timed commands the engine equals the accumulating stopwatch, so elapsed time is running time plus skips |
| ElapsedRefinement.PauseResumeCycle | FocusFlow/Engine/TimerEngine.swift:37-62 | start, pause, resume, pause leaves exactly the two running intervals as elapsed time |
| TimerViewModel.ModeOfRaw | FocusFlow/ViewModels/TimerViewModel.swift:15-18 | parsing a raw value gives back a mode whose raw value it is |
| TimerViewModel.RawValueRoundTrip | FocusFlow/ViewModels/TimerViewModel.swift:15-18 | "work" and "break" name their modes unambiguously |
| TimerViewModel.Format | FocusFlow/ViewModels/TimerViewModel.swift:284-286 | at least five characters; for a non-negative count, digits, a colon and two digits below 60 that read back as the count, the minutes being `%02d` of the whole minutes, so they have a leading zero only below ten |
| TimerViewModel.FormatInjective | FocusFlow/ViewModels/TimerViewModel.swift:284-286 | distinct non-negative counts are displayed differently |
| TimerViewModel.FormatReadsBack | FocusFlow/ViewModels/TimerViewModel.swift:284-286 | the minutes before the colon and the two-digit seconds after it read back as the count |
| TimerViewModel.RemainingSeconds | FocusFlow/ViewModels/TimerViewModel.swift:269-281 | 0 outside a session, otherwise `max(0, planned - elapsed)` truncated to whole seconds |
| TimerViewModel.RemainingTimeFormatted | FocusFlow/ViewModels/TimerViewModel.swift:269-282 | the shown remaining time is the formatting of those whole seconds |
| TimerViewModel.Progress | FocusFlow/ViewModels/TimerViewModel.swift:289-302 | within [0, 1]; 0 when idle, 1 when finished, 0 for a non-positive plan, and otherwise the clamped elapsed fraction |
| TimerViewModel.Fraction | FocusFlow/ViewModels/TimerViewModel.swift:296-297 | the clamped ratio: 0 at or below zero elapsed, 1 at or past the plan, the exact ratio between |
| TimerViewModel.ModeTitle | FocusFlow/ViewModels/TimerViewModel.swift:305-312 | "BREAK" exactly during a running or paused break session, "FOCUS" otherwise |
| TimerViewModel.IsRunningIffTicking | FocusFlow/ViewModels/TimerViewModel.swift:324-327 | the screen shows running exactly when the engine keeps a tick task |
| TimerViewModel.SessionTitle | FocusFlow/ViewModels/TimerViewModel.swift:74-76 | a missing or blank title becomes "Work" or "Break" by mode; any other title is kept verbatim, untrimmed |
| TimerViewModel.SessionTitleNeverBlank | FocusFlow/ViewModels/TimerViewModel.swift:74-76 | a recorded session title is never blank |
| TimerViewModel.StartSession | FocusFlow/ViewModels/TimerViewModel.swift:54-85 | nothing starts iff the mode's duration is not positive; otherwise the session runs that duration and is recorded with the mode's raw value and the title fallback |
| TimerViewModel.StartShowsFullDuration | FocusFlow/ViewModels/TimerViewModel.swift:54-65 | after a start the screen shows the full duration, zero progress, running, and the mode's title |
| TimerViewModel.CompletionOnlyOnNaturalFinish | FocusFlow/ViewModels/TimerViewModel.swift:37-47 | completion fires only through a tick past the plan, `finish`, or a positive skip that reaches the plan |
| TimerViewModel.TickPastPlanFires | FocusFlow/ViewModels/TimerViewModel.swift:41-46 | a tick at or after the plan's end always fires completion |
| TimerViewModel.NotesTitle | FocusFlow/ViewModels/TimerViewModel.swift:198-201 | notes give a title iff they are present and not blank, and the title is the trimmed notes |
| TimerViewModel.WithNotes | FocusFlow/ViewModels/TimerViewModel.swift:169-172 | non-blank notes replace the title; nothing else of the record changes |
| TimerViewModel.CompleteLatest | FocusFlow/ViewModels/TimerViewModel.swift:182-207 | the latest record gets its planned duration as elapsed time, is completed and takes the notes title; every other record is unchanged |
| TimerViewModel.CompleteLatestIdempotent | FocusFlow/ViewModels/TimerViewModel.swift:219-229 | recording a completion twice with the same notes equals recording it once |
| TimerViewModel.LatestUnchangedByDates | FocusFlow/ViewModels/TimerViewModel.swift:153-157 | which record is latest depends only on creation dates |
| TimerViewModel.StopNotices | FocusFlow/ViewModels/TimerViewModel.swift:141-148 | `stop` cancels all notifications iff the session had not already finished |
| TimerViewModel.StopMarkFor | FocusFlow/ViewModels/TimerViewModel.swift:159-166 | an open session is marked with its published elapsed time, a finished one only as completed, and an idle engine not at all |
| TimerViewModel.StopRecord | FocusFlow/ViewModels/TimerViewModel.swift:157-172 | the completed flag is set for a finished session and the notes title applied; nothing else changes |
| TimerViewModel.ResumeNotices | FocusFlow/ViewModels/TimerViewModel.swift:102-131 | a reminder for exactly the time left is scheduled iff the engine was paused with time left and the latest record has a type |
| TimerViewModel.RescheduleNotices | FocusFlow/ViewModels/TimerViewModel.swift:232-262 | a running session with time left and a typed record is cancelled then rescheduled for the time left; a running one otherwise gets no request; any other state cancels |
| TimerViewModel.SkipThirtyReschedules | FocusFlow/ViewModels/TimerViewModel.swift:209-217 | a thirty-second skip re-announces exactly the time left, or finishes and cancels when none is left |
| TimerViewModel.PauseThenResumeReschedules | FocusFlow/ViewModels/TimerViewModel.swift:93-131 | pause cancels all notifications, and a resume after it schedules exactly the time the pause froze |
| TimerViewModel.StartNotices | FocusFlow/ViewModels/TimerViewModel.swift:67-71 | `start` schedules one reminder for the session's whole duration under the mode's raw value |
| TimerViewModel.StartAnnouncesTimeLeft | FocusFlow/ViewModels/TimerViewModel.swift:54-71 | the reminder `start` schedules is exactly the time the freshly started engine has left, under the mode's raw value, as a reschedule of the new state would request it |
| TimerViewModel.PauseNotices | FocusFlow/ViewModels/TimerViewModel.swift:93-100 | `pause` makes exactly one request, cancelling all notifications |
| TimerViewModel.SkipToEndNotices | FocusFlow/ViewModels/TimerViewModel.swift:220-225 | `skipToEnd` makes exactly one request, cancelling all notifications |
| TimerViewModel.PauseNoticesMatchState | FocusFlow/ViewModels/TimerViewModel.swift:93-100 | after `pause` the engine is never running, so its cancel is what a reschedule of the new state requests, from any state |
| TimerViewModel.SkipToEndNoticesMatchState | FocusFlow/ViewModels/TimerViewModel.swift:220-225 | after `finish` the engine is never running, so the cancel of `skipToEnd` is what a reschedule of the new state requests; unlike `stop`, it cancels even when the session had already finished |
| PresetStore.HintStart | FocusFlow/ViewModels/PresetStore.swift:17-20 | finds a suffix matching `\s\d+/\d+` at the end when there is one, and reports none exactly when no suffix matches |
| PresetStore.HintUnique | FocusFlow/ViewModels/PresetStore.swift:17-20 | at most one suffix of a name matches the pattern |
| PresetStore.DisplayTitleDropsHint | FocusFlow/ViewModels/PresetStore.swift:22-30 | a name ending in a space-digits-slash-digits hint displays as its trimmed stem: the hint found starts right after the stem |
| PresetStore.DisplayTitleDropsHintBeforeTerminator | FocusFlow/ViewModels/PresetStore.swift:17-30 | `$` also matches before a final line terminator or a final "\r\n", so such a name still displays as its trimmed stem |
| PresetStore.HintBeforeTerminator | FocusFlow/ViewModels/PresetStore.swift:17-29 | a final line terminator or "\r\n" after a hint does not stop its removal, and is itself kept |
| PresetStore.DisplayTitleWithoutHint | FocusFlow/ViewModels/PresetStore.swift:22-30 | a name without a hint at its end, before a final line terminator or before a final "\r\n" displays as itself trimmed |
| PresetStore.DefaultTitle | FocusFlow/ViewModels/PresetStore.swift:162-166 | a name like "Pomodoro 25/5" displays as "Pomodoro" |
| PresetStore.WholeMinutes | FocusFlow/ViewModels/PresetStore.swift:32-33 | whole minutes truncated toward zero, for negative durations too |
| PresetStore.SortRecords | FocusFlow/ViewModels/PresetStore.swift:80-83 | a permutation of the records ordered by sort order, then creation date |
| PresetStore.SortedIsIdentity | FocusFlow/ViewModels/PresetStore.swift:80-83 | records already in fetch order are left as they are |
| PresetStore.Insert | FocusFlow/ViewModels/PresetStore.swift:80-83 | inserting into records in fetch order keeps them in fetch order and adds exactly that record |
| PresetStore.CompactAllValid | FocusFlow/ViewModels/PresetStore.swift:35-47 | when every record has an id and a name, every record becomes a view, in order |
| PresetStore.CompactSorted | FocusFlow/ViewModels/PresetStore.swift:78-91 | sorting before compacting changes the order of the views, not which views there are |
| PresetStore.CompactKeepsOrder | FocusFlow/ViewModels/PresetStore.swift:35-47 | compacting records in fetch order gives views ascending by sort order |
| PresetStore.Load | FocusFlow/ViewModels/PresetStore.swift:78-91 | the views are exactly those of the records with an id and a name, ascending by sort order |
| PresetStore.PresetWith | FocusFlow/ViewModels/PresetStore.swift:93-96 | with no id the first preset, if any; with an id, some preset iff one carries that id, and then the first such |
| PresetStore.FirstWithId | FocusFlow/ViewModels/PresetStore.swift:95 | the first position holding the id, none iff no preset has it |
| PresetStore.Validate | FocusFlow/ViewModels/PresetStore.swift:147-154 | an empty-name error iff the trimmed name is empty, checked before durations; an invalid-duration error iff the name is not blank and a duration is not positive |
| PresetStore.NextSortOrder | FocusFlow/ViewModels/PresetStore.swift:104 | 0 for no presets; otherwise one more than the largest sort order, so above every existing one |
| PresetStore.AddPreset | FocusFlow/ViewModels/PresetStore.swift:98-115 | fails iff validation fails, with its error; on success the store stays consistent |
| PresetStore.AddPresetAdds | FocusFlow/ViewModels/PresetStore.swift:103-114 | a valid add keeps every existing preset and adds exactly one, not default, sorted after all others |
| PresetStore.AppendRecord | FocusFlow/ViewModels/PresetStore.swift:103-114 | appending a fresh, well-formed record keeps the store consistent, adds its view and changes no earlier record |
| PresetStore.AppendFresh | FocusFlow/ViewModels/PresetStore.swift:105-113 | a record with the next identifier keeps every identifier below the new bound and all of them distinct |
| PresetStore.Update | FocusFlow/ViewModels/PresetStore.swift:117-134 | fails iff validation fails; a vanished object changes nothing; otherwise only the target takes the new name, truncated durations, cycles and accent, and keeps its identity, default flag, sort order and creation date |
| PresetStore.Rewrite | FocusFlow/ViewModels/PresetStore.swift:127-133 | the record at the target position takes the edited fields and no other record changes |
| PresetStore.IndexOfObject | FocusFlow/ViewModels/PresetStore.swift:124-126 | the object is found iff some record has its id, and is then at that position |
| PresetStore.DefaultRecords | FocusFlow/ViewModels/PresetStore.swift:162-177 | three default records with sort orders 0, 1, 2 and the default flag set |
| PresetStore.Open | FocusFlow/ViewModels/PresetStore.swift:156-180 | an existing store is left alone; an empty one is seeded with exactly the three defaults |
| PresetStore.SeededLoad | FocusFlow/ViewModels/PresetStore.swift:168-177 | the seeded defaults load in their seeding order |
| PresetDraft.NormalizedAccent | FocusFlow/Views/PresetManagementView.swift:209-212 | none iff the accent is blank; otherwise the trimmed accent |
| PresetDraft.NormalizedAccentStable | FocusFlow/Views/PresetManagementView.swift:209-212 | normalizing an already normalized accent changes nothing |
| PresetDraft.FromPreset | FocusFlow/Views/PresetManagementView.swift:216-222 | the display title as name, durations as truncated whole minutes, the cycles, and "" for a missing accent |
| PresetDraft.SecondsRoundTrip | FocusFlow/Views/PresetManagementView.swift:207-219 | for whole-minute durations, a draft made from a preset gives back the preset's seconds, and the store keeps the same whole seconds |
| PresetDraft.StepUp | FocusFlow/Views/PresetManagementView.swift:146 | one step up within the range, stopping at the top |
| PresetDraft.StepDown | FocusFlow/Views/PresetManagementView.swift:154 | one step down within the range, stopping at the bottom |
| PresetDraft.SteppersKeepBounds | FocusFlow/Views/PresetManagementView.swift:146-162 | no sequence of stepper presses leaves the ranges 1-240, 1-120 and 1-12 |
| PresetDraft.FreshDraft | FocusFlow/Views/PresetManagementView.swift:200-208 | a new draft is 25 and 5 minutes (1500 and 300 seconds), 4 cycles, no accent, and cannot be saved |
| PresetDraft.SaveCall | FocusFlow/Views/PresetManagementView.swift:87-103 | the store call fails iff the draft's name and seconds fail validation |
| PresetDraft.SaveDraft | FocusFlow/Views/PresetManagementView.swift:87-108 | on success the store is replaced and the sheet closes; on failure store and sheet stay and the error's message is shown |
| PresetDraft.SaveDraftChoosesCall | FocusFlow/Views/PresetManagementView.swift:90-103 | editing a preset calls `update`, otherwise `addPreset`, with the draft's seconds and normalized accent |
| PresetDraft.EnabledSaveSucceeds | FocusFlow/Views/PresetManagementView.swift:186 | whenever Save is enabled and the steppers are in range, saving succeeds and closes the sheet |
| PresetDraft.BlankNameMessage | FocusFlow/Views/PresetManagementView.swift:105-107 | saving a blank name from the form shows the empty-name message |
| ColorHex.Hex2 | FocusFlow/Utilities/ColorHex.swift:35-37 | `%02X` of a component: two uppercase hex digits whose value is the component |
| ColorHex.Hex2OfValue | FocusFlow/Utilities/ColorHex.swift:35-37 | every two-digit uppercase hex string is the rendering of its value |
| ColorHex.HexChar | FocusFlow/Utilities/ColorHex.swift:35-37 | an uppercase hex digit whose value is the given one |
| ColorHex.Normalize | FocusFlow/Utilities/ColorHex.swift:6-7 | the trimmed, ASCII-uppercased input with one leading '#' removed |
| ColorHex.AsciiUpper | FocusFlow/Utilities/ColorHex.swift:6 | same length; lowercase ASCII letters become uppercase and every other character is kept |
| ColorHex.NormalizeCanonical | FocusFlow/Utilities/ColorHex.swift:6-7 | '#' followed by uppercase hex digits normalizes to the digits |
| ColorHex.HexPrefixLength | FocusFlow/Utilities/ColorHex.swift:13 | the length of the longest run of hex digits at the start |
| ColorHex.ScanAllHex | FocusFlow/Utilities/ColorHex.swift:13 | scanning a string of hex digits gives its hexadecimal value |
| ColorHex.Components | FocusFlow/Utilities/ColorHex.swift:14-24 | six digits read as RRGGBB with opaque alpha, eight as RRGGBBAA |
| ColorHex.ParseHex | FocusFlow/Utilities/ColorHex.swift:5-29 | a colour iff the normalized length is 6 or 8, opaque for 6 |
| ColorHex.ParseCanonical | FocusFlow/Utilities/ColorHex.swift:9-24 | '#' plus 6 or 8 uppercase digits parses to the components of their value |
| ColorHex.ToHex | FocusFlow/Utilities/ColorHex.swift:31-39 | '#' and uppercase hex digits, 7 characters or 9 with alpha |
| ColorHex.PrintComponents | FocusFlow/Utilities/ColorHex.swift:14-39 | reading 6 or 8 uppercase digits into components and printing them gives '#' and the same digits |
| ColorHex.ColorFromHex | FocusFlow/Utilities/ColorHex.swift:43-46 | a SwiftUI colour exists iff the UIKit colour parses, and wraps it |
| ColorHex.ColorToHex | FocusFlow/Utilities/ColorHex.swift:48-51 | formatting a SwiftUI colour formats its UIKit colour |
| ColorHex.ParsePrinted | FocusFlow/Utilities/ColorHex.swift:5-39 | parsing what `toHex` prints gives back the colour, made opaque when alpha was left out |
| ColorHex.PrintParsed | FocusFlow/Utilities/ColorHex.swift:5-39 | printing a parsed canonical code gives back '#' and the normalized digits |
| Sessions.DayOf | FocusFlow/Services/SessionAnalyticsService.swift:96 | the day whose 86400-second window holds the instant |
| Sessions.InDayWindow | FocusFlow/Services/SessionAnalyticsService.swift:96-101 | an instant is in day `d`'s window iff it falls in day `d` |
| Sessions.LatestIndex | FocusFlow/ViewModels/TimerViewModel.swift:153-157 | none iff there are no records; otherwise a record no earlier than any other, with undated records last |
| Text.Trim | FocusFlow/ViewModels/PresetStore.swift:29 | the infix with no white space at either end, surrounded only by white space |
| Text.TrimStart | FocusFlow/ViewModels/PresetStore.swift:29 | drops exactly the leading white space: what remains is a suffix not starting with white space |
| Text.SkipLeading | FocusFlow/ViewModels/PresetStore.swift:29 | the first non-white-space position at or after the start, with only white space skipped |
| Text.SkipTrailing | FocusFlow/ViewModels/PresetStore.swift:29 | the position just past the last non-white-space character, with only white space after it |
| Text.BlankIffAllWhitespace | FocusFlow/ViewModels/PresetStore.swift:148 | a string trims to empty iff every character is white space |
| Text.TrimIdempotent | FocusFlow/ViewModels/PresetStore.swift:29 | trimming twice is trimming once |
| Text.TrimDropsTrailingWhitespace | FocusFlow/ViewModels/PresetStore.swift:29 | white space appended to a string does not change its trimming |
| Text.TruncDiv | FocusFlow/ViewModels/TimerViewModel.swift:285 | Swift's `/`: the remainder it leaves has the dividend's sign and is smaller than the divisor |
| Text.TruncRem | FocusFlow/ViewModels/TimerViewModel.swift:285 | Swift's `%`: dividend equals divisor times quotient plus remainder, with the dividend's sign |
| Text.TruncReal | FocusFlow/ViewModels/PresetStore.swift:128 | `Int(x)`: the integer between zero and `x` less than one away from it |
| Text.NatToDecimal | FocusFlow/Services/SessionAnalyticsService.swift:23 | digits only, one digit iff below ten, no leading zero |
| Text.DecimalRoundTrip | FocusFlow/Services/SessionAnalyticsService.swift:23 | reading the decimal rendering back gives the number |
| Text.IntToDecimal | FocusFlow/Services/SessionAnalyticsService.swift:50 | `"\(n)"` for any integer: the decimal digits, after a minus sign for a negative number |
| Text.ZeroPad2 | FocusFlow/ViewModels/TimerViewModel.swift:285 | `%02d`: at least two characters, exactly two digits below 100, reading back as the number; a leading zero exactly for a single digit, so from 10 on the plain decimal rendering, and a negative number as its sign and magnitude |
| SessionAnalytics.WorkOnlyMember | FocusFlow/Services/SessionAnalyticsService.swift:100-101 | a record is fetched iff its type is "work" |
| SessionAnalytics.CompletedWorkMember | FocusFlow/Services/SessionAnalyticsService.swift:230 | a record is fetched iff it is a completed work session |
| SessionAnalytics.CompletedWorkAll | FocusFlow/Services/SessionAnalyticsService.swift:230 | every completed work session, and only those, is fetched |
| SessionAnalytics.WindowMember | FocusFlow/Services/SessionAnalyticsService.swift:144-147 | a record is in a window iff it has a creation date within it |
| SessionAnalytics.WindowSplit | FocusFlow/Services/SessionAnalyticsService.swift:140-147 | adjacent windows split a window's count |
| SessionAnalytics.WindowSplitCompleted | FocusFlow/Services/SessionAnalyticsService.swift:149-150 | adjacent windows split a window's completed count and focus time |
| SessionAnalytics.WindowNested | FocusFlow/Services/SessionAnalyticsService.swift:144-147 | filtering a day out of the week's fetch is filtering it out of all sessions |
| SessionAnalytics.CompletionRate | FocusFlow/Services/SessionAnalyticsService.swift:13-16 | 0 with no sessions; otherwise completed over total, within [0, 1], and 1 iff all completed |
| SessionAnalytics.DayStats | FocusFlow/Services/SessionAnalyticsService.swift:144-158 | a day's count, completed count and focus time are those of the sessions created that day |
| SessionAnalytics.TodayStats | FocusFlow/Services/SessionAnalyticsService.swift:95-120 | dated at today's start, no more completed than total, with the current streak |
| SessionAnalytics.TodaySelects | FocusFlow/Services/SessionAnalyticsService.swift:96-105 | a session counts today iff it is a work session created today |
| SessionAnalytics.WeekStats | FocusFlow/Services/SessionAnalyticsService.swift:122-176 | seven entries on consecutive days from the week's start, the week's completed totals, and an average of one seventh of the total |
| SessionAnalytics.WeekPartition | FocusFlow/Services/SessionAnalyticsService.swift:140-164 | the seven days' focus times, completed counts and session counts add up to the week's |
| SessionAnalytics.TodayInWeek | FocusFlow/Services/SessionAnalyticsService.swift:140-158 | today's entry in the week equals today's statistics apart from the streak |
| SessionAnalytics.FocusTimeFormatted | FocusFlow/Services/SessionAnalyticsService.swift:18-27 | ends in "m", and shows hours iff there is at least one whole hour |
| SessionAnalytics.FocusTimeParts | FocusFlow/Services/SessionAnalyticsService.swift:18-27 | for a non-negative total, "Hh Mm" with hours and minutes of the hour, or "Mm" below an hour |
| SessionAnalytics.FocusTimeInjective | FocusFlow/Services/SessionAnalyticsService.swift:18-27 | two non-negative totals look the same iff they agree in whole minutes |
| SessionAnalytics.HoursMinutesUnique | FocusFlow/Services/SessionAnalyticsService.swift:23 | an "Hh Mm" rendering determines its hours and its minutes |
| SessionAnalytics.AverageDailyFormatted | FocusFlow/Services/SessionAnalyticsService.swift:48-51 | a number of minutes followed by "m" |
| SessionAnalytics.AverageDailyMinutes | FocusFlow/Services/SessionAnalyticsService.swift:164 | the average shown is the week's total over 7 days and 60 seconds, in whole minutes |
| SessionAnalytics.DayFetch | FocusFlow/Services/SessionAnalyticsService.swift:199-205 | a day's completed-work fetch is non-empty iff the day is a work day |
| SessionAnalytics.RunBack | FocusFlow/Services/SessionAnalyticsService.swift:196-217 | every day of the run ending at `d` is a work day, and the day before it is not |
| SessionAnalytics.CurrentStreak | FocusFlow/Services/SessionAnalyticsService.swift:190-226 | the run of work days ending today, or yesterday when today has none |
| SessionAnalytics.MaxRun | FocusFlow/Services/SessionAnalyticsService.swift:259-269 | the longest of the runs seen, 0 iff there are none |
| SessionAnalytics.DayKeys | FocusFlow/Services/SessionAnalyticsService.swift:241-249 | the distinct work days, in increasing order |
| SessionAnalytics.InsertDay | FocusFlow/Services/SessionAnalyticsService.swift:241-249 | adding a day to a strictly increasing list keeps it strictly increasing, with exactly the old days and the new one |
| SessionAnalytics.RunLen | FocusFlow/Services/SessionAnalyticsService.swift:254-264 | the run counted at position `j` is at least 1 and at most `j + 1` |
| SessionAnalytics.MaxRunAttained | FocusFlow/Services/SessionAnalyticsService.swift:259-269 | the largest run counted is reached at some position |
| SessionAnalytics.RunLenIsRunBack | FocusFlow/Services/SessionAnalyticsService.swift:254-264 | the run counted along the sorted days is the run of consecutive work days |
| SessionAnalytics.LongestStreak | FocusFlow/Services/SessionAnalyticsService.swift:228-276 | 0 iff there are no work days; every run of consecutive work days is at most it, and one reaches it |
| SessionAnalytics.LongestIsMaxRun | FocusFlow/Services/SessionAnalyticsService.swift:251-270 | the largest run counted along the sorted days is the longest run of work days |
| SessionAnalytics.CurrentWithinLongest | FocusFlow/Services/SessionAnalyticsService.swift:178-187 | the current streak never exceeds the longest streak |
| SessionAnalytics.LastSessionDate | FocusFlow/Services/SessionAnalyticsService.swift:278-291 | the latest creation date of a completed work session, none iff no such session has a date |
| SessionAnalytics.IsStreakActive | FocusFlow/Services/SessionAnalyticsService.swift:59-63 | false with no last date; otherwise true iff less than two days have passed |
| SessionAnalytics.StreakImpliesActive | FocusFlow/Services/SessionAnalyticsService.swift:54-63 | with no sessions dated in the future, a positive current streak means the streak is active |

## Left out

- Concurrency is not modelled: the `AsyncStream` continuation, actor isolation, the `Task.sleep` tick loop and the view model's detached tasks. Commands are applied one at a time in the order given. The tick loop is a boolean, and each tick is an explicit command.
- Clocks are not modelled. `Date()` becomes an integer parameter, and the clock is assumed not to go backwards for the run lemmas. `TimeInterval` and `CGFloat` arithmetic is on integers, and the model's `real` covers only ratios.
- Core Data is not modelled: fetch requests, saves, rollbacks and fetch errors, which the code prints and ignores. Records are plain values, and a fetch is a filter over a list.
- `PresetStore.delete` is not modelled, because it is persistence only: it removes the object and reloads.
- `FocusSession.create(title:)`, `markCompleted(elapsedTime:)` and the `title` attribute they use are not part of the shown `FocusSession` entity. `StopRecord` therefore leaves out `markCompleted`'s effect, and `StartSession` models only the values handed to `create`.
- The notification service is not modelled beyond which requests are made. Its delivery is OS behaviour.
- SwiftUI views, colours and animation are out of scope, apart from the editor's steppers and Save button.
- Calendar arithmetic is simplified. Days are fixed 86400-second windows, so time zones and daylight-saving days are not modelled, and neither is the `weekOfYear` start of the week, which is a parameter. The longest streak groups by ISO-8601 day keys; these are modelled as day numbers, whose numeric order is the keys' string order.
- The `displayTitle` regular expression is modelled with ASCII digits for `\d`. For `$` the model handles a final single line terminator and a final "\r\n", which ICU treats as one terminator. `\s` and the line terminators follow ICU's definitions only for the characters named in the model.
- `uppercased()` is modelled on ASCII letters only. Lengths count Unicode scalars, not grapheme clusters.
- ColorHex.ScanHex: `Scanner.scanHexInt64` also accepts a leading "0x"/"0X". The model takes the longest hex-digit prefix, so an input such as "0X12AB" scans differently.
- ColorHex.ToHex works on integer components. The `CGFloat` division by 255 and the multiply-back with truncation are not modelled.
- Overflow is not modelled. Traps on `Int16`/`Int64` conversion and on `Int` arithmetic do not occur in the model.
- PresetDraft.SteppersKeepBounds: a `Stepper` in SwiftUI clamps values into its range. The model proves that presses preserve the range, but not how SwiftUI shows a draft that starts outside it.
- TimerViewModel.Format: for negative counts the contract says only that the result has at least five characters. The `%02d` rendering of each negative part is stated by `ZeroPad2`, but `Format` does not restate it.
