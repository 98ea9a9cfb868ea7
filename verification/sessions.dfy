/** The `FocusSession` records the view model and the analytics read and
    write, as plain values, with the day arithmetic both rely on.  Instants
    are whole seconds; a day is a fixed 86400-second window starting at a
    multiple of 86400. */
module Sessions {
  import opened Wrappers

  const SecondsPerDay: int := 86400

  /** A stored `FocusSession`: creation instant, planned and elapsed
      seconds, completion flag, type ("work" or "break") and title. */
  datatype SessionRecord = SessionRecord(
    createdAt: Option<int>,
    plannedDuration: int,
    elapsedSeconds: int,
    completed: bool,
    kind: Option<string>,
    title: Option<string>)

  /** The day an instant falls in: `Calendar.startOfDay` as a day number. */
  function DayOf(t: int): (d: int)
    ensures d * SecondsPerDay <= t < d * SecondsPerDay + SecondsPerDay
  {
    t / SecondsPerDay
  }

  /** An instant lies in day `d`'s window `[start, start + 1 day)` exactly
      when it falls in day `d`. */
  lemma InDayWindow(t: int, d: int)
    ensures d * SecondsPerDay <= t < (d + 1) * SecondsPerDay <==> DayOf(t) == d
  {
    var e := DayOf(t);
    if d < e {
      assert (d + 1) * SecondsPerDay <= e * SecondsPerDay;
    } else if e < d {
      assert (e + 1) * SecondsPerDay <= d * SecondsPerDay;
    }
  }

  /** `a` comes no later than `b` in a fetch sorted by `createdAt`
      descending, where a missing date sorts last. */
  predicate LaterOrEqual(a: SessionRecord, b: SessionRecord) {
    b.createdAt.None? || (a.createdAt.Some? && a.createdAt.value >= b.createdAt.value)
  }

  /** The record a fetch sorted by `createdAt` descending with a fetch
      limit of 1 returns: one that is no earlier than any other. */
  function LatestIndex(sessions: seq<SessionRecord>): (r: Option<nat>)
    ensures r.None? <==> sessions == []
    ensures r.Some? ==> r.value < |sessions| && forall j :: 0 <= j < |sessions| ==> LaterOrEqual(sessions[r.value], sessions[j])
  {
    if sessions == [] then None
    else
      match LatestIndex(sessions[1..])
      case None => Some(0)
      case Some(i) =>
        assert forall j :: 1 <= j < |sessions| ==> sessions[j] == sessions[1..][j - 1];
        if LaterOrEqual(sessions[0], sessions[i + 1]) then Some(0) else Some(i + 1)
  }
}
