/** The preset editor of FocusFlow/Views/PresetManagementView.swift: the
    `PresetDraft` edited in whole minutes, its conversion to and from a
    preset in seconds, the steppers' bounds, and `saveDraft`'s choice
    between adding and updating. */
module PresetDraft {
  import opened Wrappers
  import opened Text
  import P = PresetStore

  /** `PresetDraft`. */
  datatype Draft = Draft(name: string, workMinutes: int, breakMinutes: int, cycles: int, accentColorHex: string)

  /** `PresetDraft()`: an unnamed 25/5 draft of 4 cycles with no accent. */
  const Fresh: Draft := Draft("", 25, 5, 4, "")

  /** `workSeconds`. */
  function WorkSeconds(d: Draft): real {
    (d.workMinutes * 60) as real
  }

  /** `breakSeconds`. */
  function BreakSeconds(d: Draft): real {
    (d.breakMinutes * 60) as real
  }

  /** `normalizedAccent`: nothing for a blank accent, otherwise the accent
      trimmed. */
  function NormalizedAccent(d: Draft): (r: Option<string>)
    ensures r.None? <==> IsBlank(d.accentColorHex)
    ensures r.Some? ==> r.value == Trim(d.accentColorHex) && r.value != []
  {
    var trimmed := Trim(d.accentColorHex);
    if trimmed == [] then None else Some(trimmed)
  }

  /** A normalized accent is already normalized. */
  lemma NormalizedAccentStable(d: Draft)
    requires NormalizedAccent(d).Some?
    ensures NormalizedAccent(d.(accentColorHex := NormalizedAccent(d).value)) == NormalizedAccent(d)
  {
    TrimIdempotent(d.accentColorHex);
  }

  /** `PresetDraft(preset:)`: the display title as the name, the durations
      in whole minutes (truncated), and an empty accent for none. */
  function FromPreset(p: P.PresetViewData): (d: Draft)
    ensures d.name == P.DisplayTitle(p.name)
    ensures d.workMinutes == P.WholeMinutes(p.workDuration) && d.breakMinutes == P.WholeMinutes(p.breakDuration)
    ensures d.cycles == p.cycles
    ensures p.accentColorHex.None? ==> d.accentColorHex == ""
    ensures p.accentColorHex.Some? ==> d.accentColorHex == p.accentColorHex.value
  {
    Draft(P.DisplayTitle(p.name), P.WholeMinutes(p.workDuration), P.WholeMinutes(p.breakDuration),
          p.cycles, p.accentColorHex.GetOr(""))
  }

  /** Whole-minute durations survive the trip through the draft: the
      seconds it hands back, and the whole seconds the store keeps, are the
      preset's own. */
  lemma SecondsRoundTrip(p: P.PresetViewData)
    requires p.workDuration % 60 == 0 && p.breakDuration % 60 == 0
    ensures WorkSeconds(FromPreset(p)) == p.workDuration as real
    ensures BreakSeconds(FromPreset(p)) == p.breakDuration as real
    ensures TruncReal(WorkSeconds(FromPreset(p))) == p.workDuration
    ensures TruncReal(BreakSeconds(FromPreset(p))) == p.breakDuration
  {
    var d := FromPreset(p);
    WholeMinutesExact(p.workDuration);
    WholeMinutesExact(p.breakDuration);
  }

  lemma WholeMinutesExact(seconds: int)
    requires seconds % 60 == 0
    ensures P.WholeMinutes(seconds) * 60 == seconds
  {
    if seconds < 0 {
      var m := P.WholeMinutes(seconds);
      assert m * 60 - 60 < seconds <= m * 60;
      assert seconds == (seconds / 60) * 60;
    }
  }

  // ---------------------------------------------------------------------
  // The editor form
  // ---------------------------------------------------------------------

  /** A stepper's closed range of values. */
  datatype Bounds = Bounds(low: int, high: int)

  const WorkBounds: Bounds := Bounds(1, 240)
  const BreakBounds: Bounds := Bounds(1, 120)
  const CycleBounds: Bounds := Bounds(1, 12)

  predicate Within(v: int, b: Bounds) {
    b.low <= v <= b.high
  }

  /** The form's three steppers all show values in their ranges. */
  predicate InBounds(d: Draft) {
    Within(d.workMinutes, WorkBounds) && Within(d.breakMinutes, BreakBounds) && Within(d.cycles, CycleBounds)
  }

  /** One press of a stepper's plus button: one more, but not past the top. */
  function StepUp(v: int, b: Bounds): (r: int)
    requires b.low <= b.high
    ensures Within(v, b) ==> Within(r, b)
    ensures v < b.high ==> r == v + 1
    ensures v >= b.high ==> r == b.high
  {
    if v + 1 > b.high then b.high else v + 1
  }

  /** One press of a stepper's minus button: one less, but not past the
      bottom. */
  function StepDown(v: int, b: Bounds): (r: int)
    requires b.low <= b.high
    ensures Within(v, b) ==> Within(r, b)
    ensures v > b.low ==> r == v - 1
    ensures v <= b.low ==> r == b.low
  {
    if v - 1 < b.low then b.low else v - 1
  }

  /** Which stepper was pressed, and which way. */
  datatype Press = WorkUp | WorkDown | BreakUp | BreakDown | CyclesUp | CyclesDown

  function PressStepper(d: Draft, press: Press): (r: Draft)
    ensures r.name == d.name && r.accentColorHex == d.accentColorHex
  {
    match press
    case WorkUp => d.(workMinutes := StepUp(d.workMinutes, WorkBounds))
    case WorkDown => d.(workMinutes := StepDown(d.workMinutes, WorkBounds))
    case BreakUp => d.(breakMinutes := StepUp(d.breakMinutes, BreakBounds))
    case BreakDown => d.(breakMinutes := StepDown(d.breakMinutes, BreakBounds))
    case CyclesUp => d.(cycles := StepUp(d.cycles, CycleBounds))
    case CyclesDown => d.(cycles := StepDown(d.cycles, CycleBounds))
  }

  /** A fresh draft starts within the steppers' ranges, with no accent,
      and cannot be saved until it is named. */
  lemma FreshDraft()
    ensures InBounds(Fresh) && !SaveEnabled(Fresh) && NormalizedAccent(Fresh).None?
    ensures WorkSeconds(Fresh) == 1500.0 && BreakSeconds(Fresh) == 300.0
  {
  }

  /** No sequence of stepper presses takes a draft out of bounds. */
  lemma {:induction false} SteppersKeepBounds(d: Draft, presses: seq<Press>)
    requires InBounds(d)
    ensures InBounds(PressAll(d, presses))
    decreases |presses|
  {
    if presses != [] {
      SteppersKeepBounds(PressStepper(d, presses[0]), presses[1..]);
    }
  }

  function PressAll(d: Draft, presses: seq<Press>): Draft
    decreases |presses|
  {
    if presses == [] then d else PressAll(PressStepper(d, presses[0]), presses[1..])
  }

  /** The Save button is enabled exactly when the trimmed name is not
      empty. */
  predicate SaveEnabled(d: Draft) {
    !IsBlank(d.name)
  }

  // ---------------------------------------------------------------------
  // Saving
  // ---------------------------------------------------------------------

  /** The editor sheet: the draft, the preset being edited (none for a new
      one), whether the sheet is showing, the error shown, and the store. */
  datatype Editor = Editor(draft: Draft, editing: Option<P.PresetViewData>, showing: bool,
                           errorMessage: Option<string>, store: P.Store)

  /** The store call `saveDraft` makes: `update` when editing a preset,
      `addPreset` otherwise, with the draft's seconds and normalized accent. */
  function SaveCall(ed: Editor, uuid: nat, now: int): (r: Result<P.Store, P.PresetError>)
    requires P.Wf(ed.store)
    ensures r.Failure? <==> P.Validate(ed.draft.name, WorkSeconds(ed.draft), BreakSeconds(ed.draft)).Fail?
  {
    var d := ed.draft;
    match ed.editing
    case Some(target) =>
      P.Update(ed.store, target, d.name, WorkSeconds(d), BreakSeconds(d), d.cycles, NormalizedAccent(d))
    case None =>
      P.AddPreset(ed.store, d.name, WorkSeconds(d), BreakSeconds(d), d.cycles, NormalizedAccent(d), uuid, now)
  }

  /** `saveDraft()`: on success the store is replaced and the sheet closes;
      on failure the store and sheet stay as they are and the error's
      description is shown. */
  function SaveDraft(ed: Editor, uuid: nat, now: int): (r: Editor)
    requires P.Wf(ed.store)
    ensures P.Wf(r.store)
    ensures r.draft == ed.draft && r.editing == ed.editing
    ensures SaveCall(ed, uuid, now).Success? ==>
              r.store == SaveCall(ed, uuid, now).value && !r.showing && r.errorMessage == ed.errorMessage
    ensures SaveCall(ed, uuid, now).Failure? ==>
              && r.store == ed.store && r.showing == ed.showing
              && r.errorMessage == Some(P.ErrorDescription(SaveCall(ed, uuid, now).error))
  {
    match SaveCall(ed, uuid, now)
    case Success(st) => ed.(store := st, showing := false)
    case Failure(e) => ed.(errorMessage := Some(P.ErrorDescription(e)))
  }

  /** Saving adds when no preset is being edited and updates otherwise. */
  lemma SaveDraftChoosesCall(ed: Editor, uuid: nat, now: int)
    requires P.Wf(ed.store)
    ensures ed.editing.None? ==>
              SaveCall(ed, uuid, now)
              == P.AddPreset(ed.store, ed.draft.name, WorkSeconds(ed.draft), BreakSeconds(ed.draft),
                             ed.draft.cycles, NormalizedAccent(ed.draft), uuid, now)
    ensures ed.editing.Some? ==>
              SaveCall(ed, uuid, now)
              == P.Update(ed.store, ed.editing.value, ed.draft.name, WorkSeconds(ed.draft), BreakSeconds(ed.draft),
                          ed.draft.cycles, NormalizedAccent(ed.draft))
  {
  }

  /** Whenever the Save button is enabled and the steppers are within their
      ranges, saving succeeds and closes the sheet: the form cannot produce
      either validation error. */
  lemma EnabledSaveSucceeds(ed: Editor, uuid: nat, now: int)
    requires P.Wf(ed.store) && SaveEnabled(ed.draft) && InBounds(ed.draft)
    ensures SaveCall(ed, uuid, now).Success?
    ensures !SaveDraft(ed, uuid, now).showing
  {
  }

  /** Only a blank name can make saving from the form fail, and then the
      message is the empty-name one. */
  lemma BlankNameMessage(ed: Editor, uuid: nat, now: int)
    requires P.Wf(ed.store) && InBounds(ed.draft) && !SaveEnabled(ed.draft)
    ensures SaveDraft(ed, uuid, now).errorMessage == Some("Preset name cannot be empty.")
  {
  }
}
