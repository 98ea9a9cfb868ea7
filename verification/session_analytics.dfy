/** The statistics of FocusFlow/Services/SessionAnalyticsService.swift over
    an in-memory list of session records: today's and this week's
    aggregates, the current and longest streaks of days with a completed
    work session, and whether the streak is still active.  Instants are
    whole seconds and days are fixed 86400-second windows (see Sessions). */
module SessionAnalytics {
  import opened Wrappers
  import opened Text
  import opened Sessions

  // ---------------------------------------------------------------------
  // Fetches
  // ---------------------------------------------------------------------

  /** `type == "work"`. */
  predicate IsWork(s: SessionRecord) {
    s.kind == Some("work")
  }

  /** `type == "work" AND completed == true`. */
  predicate IsCompletedWork(s: SessionRecord) {
    IsWork(s) && s.completed
  }

  /** `createdAt >= from AND createdAt < to`: a record without a creation
      date matches no such comparison. */
  predicate Within(s: SessionRecord, from: int, to: int) {
    s.createdAt.Some? && from <= s.createdAt.value < to
  }

  /** The work sessions, in fetch order. */
  function WorkOnly(ss: seq<SessionRecord>): (r: seq<SessionRecord>)
    ensures |r| <= |ss|
  {
    if ss == [] then []
    else (if IsWork(ss[0]) then [ss[0]] else []) + WorkOnly(ss[1..])
  }

  /** The completed work sessions, in fetch order. */
  function CompletedWork(ss: seq<SessionRecord>): (r: seq<SessionRecord>)
    ensures |r| <= |ss|
  {
    if ss == [] then []
    else (if IsCompletedWork(ss[0]) then [ss[0]] else []) + CompletedWork(ss[1..])
  }

  /** `filter { $0.completed }`. */
  function CompletedOf(ss: seq<SessionRecord>): (r: seq<SessionRecord>)
    ensures |r| <= |ss|
  {
    if ss == [] then []
    else (if ss[0].completed then [ss[0]] else []) + CompletedOf(ss[1..])
  }

  /** The records created in `[from, to)`, in fetch order. */
  function Window(ss: seq<SessionRecord>, from: int, to: int): (r: seq<SessionRecord>)
    ensures |r| <= |ss|
  {
    if ss == [] then []
    else (if Within(ss[0], from, to) then [ss[0]] else []) + Window(ss[1..], from, to)
  }

  /** The work filter keeps exactly the work sessions. */
  lemma {:induction false} WorkOnlyMember(ss: seq<SessionRecord>, x: SessionRecord)
    ensures x in WorkOnly(ss) <==> x in ss && IsWork(x)
  {
    if ss != [] {
      WorkOnlyMember(ss[1..], x);
      assert x in ss <==> x == ss[0] || x in ss[1..];
    }
  }

  /** The completed-work filter keeps exactly the completed work sessions. */
  lemma {:induction false} CompletedWorkMember(ss: seq<SessionRecord>, x: SessionRecord)
    ensures x in CompletedWork(ss) <==> x in ss && IsCompletedWork(x)
  {
    if ss != [] {
      CompletedWorkMember(ss[1..], x);
      assert x in ss <==> x == ss[0] || x in ss[1..];
    }
  }

  /** A window keeps exactly the records created inside it. */
  lemma {:induction false} WindowMember(ss: seq<SessionRecord>, from: int, to: int, x: SessionRecord)
    ensures x in Window(ss, from, to) <==> x in ss && Within(x, from, to)
  {
    if ss != [] {
      WindowMember(ss[1..], from, to, x);
      assert x in ss <==> x == ss[0] || x in ss[1..];
    }
  }

  /** `reduce(0) { $0 + TimeInterval($1.elapsedSeconds) }`. */
  function SumElapsed(ss: seq<SessionRecord>): int {
    if ss == [] then 0 else ss[0].elapsedSeconds + SumElapsed(ss[1..])
  }

  /** A window split at an inner instant: the two halves hold the records
      of the whole. */
  lemma {:induction false} WindowSplit(ss: seq<SessionRecord>, a: int, b: int, c: int)
    requires a <= b <= c
    ensures |Window(ss, a, c)| == |Window(ss, a, b)| + |Window(ss, b, c)|
  {
    if ss != [] {
      WindowSplit(ss[1..], a, b, c);
    }
  }

  /** ... and its completed records and their focus time. */
  lemma {:induction false} WindowSplitCompleted(ss: seq<SessionRecord>, a: int, b: int, c: int)
    requires a <= b <= c
    ensures |CompletedOf(Window(ss, a, c))| == |CompletedOf(Window(ss, a, b))| + |CompletedOf(Window(ss, b, c))|
    ensures SumElapsed(CompletedOf(Window(ss, a, c)))
            == SumElapsed(CompletedOf(Window(ss, a, b))) + SumElapsed(CompletedOf(Window(ss, b, c)))
  {
    if ss != [] {
      var h, rest := ss[0], ss[1..];
      WindowSplitCompleted(rest, a, b, c);
      var wac, wab, wbc := Window(rest, a, c), Window(rest, a, b), Window(rest, b, c);
      if Within(h, a, b) {
        assert Window(ss, a, c) == [h] + wac && Window(ss, a, b) == [h] + wab && Window(ss, b, c) == wbc;
        ConsStats(h, wac);
        ConsStats(h, wab);
      } else if Within(h, b, c) {
        assert Window(ss, a, c) == [h] + wac && Window(ss, a, b) == wab && Window(ss, b, c) == [h] + wbc;
        ConsStats(h, wac);
        ConsStats(h, wbc);
      } else {
        assert Window(ss, a, c) == wac && Window(ss, a, b) == wab && Window(ss, b, c) == wbc;
      }
    }
  }

  /** One record in front of a list counts, and adds its focus time,
      exactly when it is completed. */
  lemma ConsStats(h: SessionRecord, rest: seq<SessionRecord>)
    ensures |CompletedOf([h] + rest)| == (if h.completed then 1 else 0) + |CompletedOf(rest)|
    ensures SumElapsed(CompletedOf([h] + rest)) == (if h.completed then h.elapsedSeconds else 0) + SumElapsed(CompletedOf(rest))
  {
    assert ([h] + rest)[0] == h && ([h] + rest)[1..] == rest;
    if h.completed {
      var cr := CompletedOf(rest);
      assert CompletedOf([h] + rest) == [h] + cr;
      assert ([h] + cr)[0] == h && ([h] + cr)[1..] == cr;
    } else {
      assert CompletedOf([h] + rest) == CompletedOf(rest);
    }
  }

  /** A window inside a window selects the same records as the inner
      window alone. */
  lemma {:induction false} WindowNested(ss: seq<SessionRecord>, a: int, b: int, c: int, d: int)
    requires a <= c <= d <= b
    ensures Window(Window(ss, a, b), c, d) == Window(ss, c, d)
  {
    if ss != [] {
      var h, rest := ss[0], ss[1..];
      WindowNested(rest, a, b, c, d);
      var inner := Window(rest, a, b);
      if Within(h, a, b) {
        assert Window(ss, a, b) == [h] + inner;
        assert ([h] + inner)[0] == h && ([h] + inner)[1..] == inner;
        assert Window([h] + inner, c, d) == (if Within(h, c, d) then [h] else []) + Window(inner, c, d);
      } else {
        assert Window(ss, a, b) == inner;
        assert !Within(h, c, d);
      }
    }
  }

  // ---------------------------------------------------------------------
  // Daily and weekly statistics
  // ---------------------------------------------------------------------

  /** `DailyStats`: the day's start, the focus seconds of its completed
      sessions, the completed and total counts, and a streak. */
  datatype DailyStats = DailyStats(date: int, totalFocusTime: int, sessionsCompleted: nat, totalSessions: nat, streak: int)

  /** `WeeklyStats`. */
  datatype WeeklyStats = WeeklyStats(weekStarting: int, totalFocusTime: int, sessionsCompleted: nat,
                                     dailyStats: seq<DailyStats>, averageDailyFocus: real)

  /** `completionRate`: completed over total, and 0 with no sessions. */
  function CompletionRate(d: DailyStats): (r: real)
    ensures d.totalSessions == 0 ==> r == 0.0
    ensures d.totalSessions > 0 ==> r * d.totalSessions as real == d.sessionsCompleted as real
    ensures d.sessionsCompleted <= d.totalSessions ==> 0.0 <= r <= 1.0
    ensures d.totalSessions > 0 ==> (r == 1.0 <==> d.sessionsCompleted == d.totalSessions)
  {
    if d.totalSessions <= 0 then 0.0 else d.sessionsCompleted as real / d.totalSessions as real
  }

  /** The statistics of the sessions created in `[dayStart, dayStart + 1
      day)` among `fetched`, with the given streak. */
  function DayStats(fetched: seq<SessionRecord>, dayStart: int, streak: int): (r: DailyStats)
    ensures r.date == dayStart && r.streak == streak
    ensures r.sessionsCompleted <= r.totalSessions
    ensures r.totalSessions == |Window(fetched, dayStart, dayStart + SecondsPerDay)|
    ensures r.sessionsCompleted == |CompletedOf(Window(fetched, dayStart, dayStart + SecondsPerDay))|
    ensures r.totalFocusTime == SumElapsed(CompletedOf(Window(fetched, dayStart, dayStart + SecondsPerDay)))
  {
    var day := Window(fetched, dayStart, dayStart + SecondsPerDay);
    var done := CompletedOf(day);
    CompletedOfShorter(day);
    DailyStats(dayStart, SumElapsed(done), |done|, |day|, streak)
  }

  /** Completed records are among the records: never more of them. */
  lemma {:induction false} CompletedOfShorter(ss: seq<SessionRecord>)
    ensures |CompletedOf(ss)| <= |ss|
  {
    if ss != [] {
      CompletedOfShorter(ss[1..]);
    }
  }

  /** `loadTodayStats`: the work sessions created today, with the current
      streak. */
  function TodayStats(sessions: seq<SessionRecord>, now: int): (r: DailyStats)
    ensures r.date == DayOf(now) * SecondsPerDay
    ensures r.sessionsCompleted <= r.totalSessions
    ensures r.streak == CurrentStreakSpec(WorkDays(sessions), DayOf(now))
  {
    var today := DayOf(now) * SecondsPerDay;
    DayStats(WorkOnly(sessions), today, CurrentStreakSpec(WorkDays(sessions), DayOf(now)))
  }

  /** The sessions today's figures are drawn from are exactly the work
      sessions created on the day of `now`. */
  lemma TodaySelects(sessions: seq<SessionRecord>, now: int, x: SessionRecord)
    ensures var today := DayOf(now) * SecondsPerDay;
            x in Window(WorkOnly(sessions), today, today + SecondsPerDay)
            <==> x in sessions && IsWork(x) && x.createdAt.Some? && DayOf(x.createdAt.value) == DayOf(now)
  {
    var today := DayOf(now) * SecondsPerDay;
    WindowMember(WorkOnly(sessions), today, today + SecondsPerDay, x);
    WorkOnlyMember(sessions, x);
    if x.createdAt.Some? {
      InDayWindow(x.createdAt.value, DayOf(now));
    }
  }

  /** `loadCurrentWeekStats`: the work sessions created in the seven days
      from `weekStart`, one `DailyStats` per day, and the daily average. */
  function WeekStats(sessions: seq<SessionRecord>, weekStart: int): (r: WeeklyStats)
    ensures r.weekStarting == weekStart && |r.dailyStats| == 7
    ensures forall k :: 0 <= k < 7 ==> r.dailyStats[k].date == weekStart + k * SecondsPerDay && r.dailyStats[k].streak == 0
    ensures r.sessionsCompleted == |CompletedOf(WeekFetch(sessions, weekStart))|
    ensures r.totalFocusTime == SumElapsed(CompletedOf(WeekFetch(sessions, weekStart)))
    ensures r.averageDailyFocus * 7.0 == r.totalFocusTime as real
  {
    var fetched := WeekFetch(sessions, weekStart);
    var done := CompletedOf(fetched);
    var total := SumElapsed(done);
    var daily := seq(7, k requires 0 <= k < 7 => DayStats(fetched, weekStart + k * SecondsPerDay, 0));
    WeeklyStats(weekStart, total, |done|, daily, total as real / 7.0)
  }

  /** The week's fetch: work sessions created in `[weekStart, weekStart +
      7 days)`. */
  function WeekFetch(sessions: seq<SessionRecord>, weekStart: int): seq<SessionRecord> {
    Window(WorkOnly(sessions), weekStart, weekStart + 7 * SecondsPerDay)
  }

  /** The first `n` days' totals added up. */
  function SumFocus(ds: seq<DailyStats>, n: nat): int
    requires n <= |ds|
  {
    if n == 0 then 0 else SumFocus(ds, n - 1) + ds[n - 1].totalFocusTime
  }

  function SumCompleted(ds: seq<DailyStats>, n: nat): int
    requires n <= |ds|
  {
    if n == 0 then 0 else SumCompleted(ds, n - 1) + ds[n - 1].sessionsCompleted
  }

  function SumSessions(ds: seq<DailyStats>, n: nat): int
    requires n <= |ds|
  {
    if n == 0 then 0 else SumSessions(ds, n - 1) + ds[n - 1].totalSessions
  }

  /** The seven daily entries partition the week: their focus times,
      completed counts and session counts add up to the week's. */
  lemma WeekPartition(sessions: seq<SessionRecord>, weekStart: int)
    ensures var w := WeekStats(sessions, weekStart);
            && SumFocus(w.dailyStats, 7) == w.totalFocusTime
            && SumCompleted(w.dailyStats, 7) == w.sessionsCompleted
            && SumSessions(w.dailyStats, 7) == |WeekFetch(sessions, weekStart)|
  {
    var w := WeekStats(sessions, weekStart);
    var fetched := WeekFetch(sessions, weekStart);
    forall k | 0 <= k < 7
      ensures DailyAt(fetched, weekStart, w.dailyStats, k)
    {
    }
    PartitionPrefix(fetched, weekStart, w.dailyStats, 7, weekStart + 7 * SecondsPerDay);
    WindowNested(WorkOnly(sessions), weekStart, weekStart + 7 * SecondsPerDay, weekStart, weekStart + 7 * SecondsPerDay);
  }

  /** Entry `k` of `daily` holds the figures of day `k` of the week. */
  predicate DailyAt(fetched: seq<SessionRecord>, weekStart: int, daily: seq<DailyStats>, k: nat)
    requires k < |daily|
  {
    daily[k] == DayStats(fetched, weekStart + k * SecondsPerDay, 0)
  }

  /** The first `n` days of the week, which end at `end`, add up to the
      window of those days. */
  lemma {:induction false} PartitionPrefix(fetched: seq<SessionRecord>, weekStart: int, daily: seq<DailyStats>,
                                           n: nat, end: int)
    requires n <= |daily| && end == weekStart + n * SecondsPerDay
    requires forall k :: 0 <= k < |daily| ==> DailyAt(fetched, weekStart, daily, k)
    ensures var days := Window(fetched, weekStart, end);
            && SumFocus(daily, n) == SumElapsed(CompletedOf(days))
            && SumCompleted(daily, n) == |CompletedOf(days)|
            && SumSessions(daily, n) == |days|
  {
    if n == 0 {
      EmptyWindow(fetched, weekStart);
    } else {
      var mid := end - SecondsPerDay;
      DayBefore(weekStart, n);
      PartitionPrefix(fetched, weekStart, daily, n - 1, mid);
      assert DailyAt(fetched, weekStart, daily, n - 1);
      AddDay(fetched, weekStart, mid);
    }
  }

  /** The start of day `n - 1` is a day before the start of day `n`. */
  lemma DayBefore(weekStart: int, n: int)
    ensures weekStart + (n - 1) * SecondsPerDay == weekStart + n * SecondsPerDay - SecondsPerDay
  {
  }

  /** Extending a window by the day after it adds that day's figures. */
  lemma AddDay(fetched: seq<SessionRecord>, lo: int, mid: int)
    requires lo <= mid
    ensures var d, all, before := DayStats(fetched, mid, 0), Window(fetched, lo, mid + SecondsPerDay), Window(fetched, lo, mid);
            && SumElapsed(CompletedOf(all)) == SumElapsed(CompletedOf(before)) + d.totalFocusTime
            && |CompletedOf(all)| == |CompletedOf(before)| + d.sessionsCompleted
            && |all| == |before| + d.totalSessions
  {
    WindowSplit(fetched, lo, mid, mid + SecondsPerDay);
    WindowSplitCompleted(fetched, lo, mid, mid + SecondsPerDay);
  }

  /** An empty interval selects nothing. */
  lemma {:induction false} EmptyWindow(ss: seq<SessionRecord>, t: int)
    ensures Window(ss, t, t) == []
  {
    if ss != [] {
      EmptyWindow(ss[1..], t);
    }
  }

  /** Today's figures agree with today's entry in the week: the two
      computations select the same sessions. */
  lemma TodayInWeek(sessions: seq<SessionRecord>, weekStart: int, now: int, k: nat)
    requires k < 7 && DayOf(now) * SecondsPerDay == weekStart + k * SecondsPerDay
    ensures WeekStats(sessions, weekStart).dailyStats[k] == TodayStats(sessions, now).(streak := 0)
  {
    var dayStart := weekStart + k * SecondsPerDay;
    var w := WeekStats(sessions, weekStart);
    WindowNested(WorkOnly(sessions), weekStart, weekStart + 7 * SecondsPerDay, dayStart, dayStart + SecondsPerDay);
    assert w.dailyStats[k] == DayStats(WeekFetch(sessions, weekStart), dayStart, 0);
    assert TodayStats(sessions, now) == DayStats(WorkOnly(sessions), dayStart, TodayStats(sessions, now).streak);
  }

  // ---------------------------------------------------------------------
  // Formatting
  // ---------------------------------------------------------------------

  /** `focusTimeFormatted` (of both `DailyStats` and `WeeklyStats`):
      "<hours>h <minutes>m" when there is at least an hour, otherwise
      "<minutes>m", minutes taken from the remainder below an hour. */
  function FocusTimeFormatted(totalFocusTime: int): (s: string)
    ensures |s| >= 2 && s[|s| - 1] == 'm'
    ensures TruncDiv(totalFocusTime, 3600) > 0 <==> 'h' in s
  {
    var hours := TruncDiv(totalFocusTime, 3600);
    var minutes := TruncDiv(TruncRem(totalFocusTime, 3600), 60);
    if hours > 0 then
      var s := IntToDecimal(hours) + "h " + IntToDecimal(minutes) + "m";
      assert s[|IntToDecimal(hours)|] == 'h';
      s
    else
      var s := IntToDecimal(minutes) + "m";
      assert forall i :: 0 <= i < |s| ==> s[i] != 'h';
      s
  }

  /** For a non-negative total, the shown hours and minutes are the whole
      hours and the whole minutes beyond them. */
  lemma FocusTimeParts(t: int)
    requires t >= 0
    ensures TruncDiv(t, 3600) == (t / 60) / 60 && TruncDiv(TruncRem(t, 3600), 60) == (t / 60) % 60
    ensures t / 3600 > 0 ==> FocusTimeFormatted(t) == NatToDecimal(t / 3600) + "h " + NatToDecimal((t / 60) % 60) + "m"
    ensures t / 3600 == 0 ==> FocusTimeFormatted(t) == NatToDecimal(t / 60) + "m"
  {
    TruncDivOfNatural(t, 3600);
    TruncDivOfNatural(t % 3600, 60);
    var m := t / 60;
    assert t == 60 * m + t % 60;
    assert m == 60 * (m / 60) + m % 60;
    assert t == 3600 * (m / 60) + (60 * (m % 60) + t % 60);
    assert t / 3600 == m / 60 && t % 3600 == 60 * (m % 60) + t % 60;
  }

  /** A digit string followed by a text that starts with a non-digit can be
      split back apart. */
  lemma DigitsPrefixUnique(a: string, x: string, b: string, y: string)
    requires AllDigits(a) && AllDigits(b) && |x| > 0 && |y| > 0 && !IsDigit(x[0]) && !IsDigit(y[0])
    requires a + x == b + y
    ensures a == b && x == y
  {
    LeadingDigitsOf(a, x);
    LeadingDigitsOf(b, y);
    assert a == (a + x)[..|a|] && b == (b + y)[..|b|];
    assert x == (a + x)[|a|..] && y == (b + y)[|b|..];
  }

  /** The length of the run of digits `s` starts with. */
  function LeadingDigits(s: string): (n: nat)
    ensures n <= |s|
  {
    if |s| > 0 && IsDigit(s[0]) then 1 + LeadingDigits(s[1..]) else 0
  }

  lemma {:induction false} LeadingDigitsOf(a: string, x: string)
    requires AllDigits(a) && |x| > 0 && !IsDigit(x[0])
    ensures LeadingDigits(a + x) == |a|
  {
    if a != [] {
      assert (a + x)[1..] == a[1..] + x;
      LeadingDigitsOf(a[1..], x);
    }
  }

  /** The rendering of naturals is injective. */
  lemma DecimalInjective(m: nat, n: nat)
    requires NatToDecimal(m) == NatToDecimal(n)
    ensures m == n
  {
    DecimalRoundTrip(m);
    DecimalRoundTrip(n);
  }

  /** The focus time shown distinguishes exactly the whole minutes: two
      non-negative totals look the same iff they agree in whole minutes. */
  lemma FocusTimeInjective(t1: int, t2: int)
    requires t1 >= 0 && t2 >= 0
    ensures FocusTimeFormatted(t1) == FocusTimeFormatted(t2) <==> t1 / 60 == t2 / 60
  {
    FocusTimeParts(t1);
    FocusTimeParts(t2);
    if FocusTimeFormatted(t1) == FocusTimeFormatted(t2) {
      if t1 / 3600 > 0 && t2 / 3600 > 0 {
        SameHoursAndMinutes(t1, t2);
      } else if t1 / 3600 == 0 && t2 / 3600 == 0 {
        DigitsPrefixUnique(NatToDecimal(t1 / 60), "m", NatToDecimal(t2 / 60), "m");
        DecimalInjective(t1 / 60, t2 / 60);
      }
    }
  }

  /** Reading hours and minutes back from two equal renderings of at least
      an hour. */
  lemma SameHoursAndMinutes(t1: int, t2: int)
    requires t1 >= 0 && t2 >= 0 && t1 / 3600 > 0 && t2 / 3600 > 0
    requires NatToDecimal(t1 / 3600) + "h " + NatToDecimal((t1 / 60) % 60) + "m"
             == NatToDecimal(t2 / 3600) + "h " + NatToDecimal((t2 / 60) % 60) + "m"
    ensures t1 / 3600 == t2 / 3600 && (t1 / 60) % 60 == (t2 / 60) % 60
  {
    HoursMinutesUnique(t1 / 3600, (t1 / 60) % 60, t2 / 3600, (t2 / 60) % 60);
  }

  /** An "Hh Mm" rendering determines its hours and minutes. */
  lemma HoursMinutesUnique(h1: nat, m1: nat, h2: nat, m2: nat)
    requires NatToDecimal(h1) + "h " + NatToDecimal(m1) + "m" == NatToDecimal(h2) + "h " + NatToDecimal(m2) + "m"
    ensures h1 == h2 && m1 == m2
  {
    HoursMinutesSplit(NatToDecimal(h1), NatToDecimal(m1), NatToDecimal(h2), NatToDecimal(m2));
    DecimalInjective(h1, h2);
    DecimalInjective(m1, m2);
  }

  /** The digit runs of an "Hh Mm" text are found again from the text. */
  lemma HoursMinutesSplit(d1: string, e1: string, d2: string, e2: string)
    requires AllDigits(d1) && AllDigits(e1) && AllDigits(d2) && AllDigits(e2)
    requires d1 + "h " + e1 + "m" == d2 + "h " + e2 + "m"
    ensures d1 == d2 && e1 == e2
  {
    var tail1, tail2 := "h " + e1 + "m", "h " + e2 + "m";
    assert d1 + "h " + e1 + "m" == d1 + tail1;
    assert d2 + "h " + e2 + "m" == d2 + tail2;
    DigitsPrefixUnique(d1, tail1, d2, tail2);
    assert tail1[2..] == e1 + "m" && tail2[2..] == e2 + "m";
    DigitsPrefixUnique(e1, "m", e2, "m");
  }

  /** `averageDailyFormatted`: the whole minutes of the daily average. */
  function AverageDailyFormatted(w: WeeklyStats): (s: string)
    ensures |s| >= 2 && s[|s| - 1] == 'm'
  {
    IntToDecimal(TruncDiv(TruncReal(w.averageDailyFocus), 60)) + "m"
  }

  /** For a non-negative week total the average shows the total's whole
      minutes divided by seven, rounded down. */
  lemma AverageDailyMinutes(sessions: seq<SessionRecord>, weekStart: int)
    requires WeekStats(sessions, weekStart).totalFocusTime >= 0
    ensures var w := WeekStats(sessions, weekStart);
            AverageDailyFormatted(w) == NatToDecimal(w.totalFocusTime / 420) + "m"
  {
    var w := WeekStats(sessions, weekStart);
    var t := w.totalFocusTime;
    var q := t / 7;
    assert t == 7 * q + t % 7;
    assert q as real <= t as real / 7.0 < q as real + 1.0;
    assert TruncReal(w.averageDailyFocus) == q;
    TruncDivOfNatural(q, 60);
    assert q == 60 * (q / 60) + q % 60;
    assert t == 420 * (q / 60) + (7 * (q % 60) + t % 7);
    assert q / 60 == t / 420;
  }

  // ---------------------------------------------------------------------
  // Streaks
  // ---------------------------------------------------------------------

  /** The days holding at least one completed work session with a date. */
  function WorkDays(ss: seq<SessionRecord>): set<int> {
    set s | s in ss && IsCompletedWork(s) && s.createdAt.Some? :: DayOf(s.createdAt.value)
  }

  /** `calculateCurrentStreak`'s per-day fetch finds something exactly on
      the days of `WorkDays`. */
  lemma DayFetch(ss: seq<SessionRecord>, d: int)
    ensures Window(CompletedWork(ss), d * SecondsPerDay, (d + 1) * SecondsPerDay) != [] <==> d in WorkDays(ss)
  {
    var fetched := Window(CompletedWork(ss), d * SecondsPerDay, (d + 1) * SecondsPerDay);
    if fetched != [] {
      var x := fetched[0];
      WindowMember(CompletedWork(ss), d * SecondsPerDay, (d + 1) * SecondsPerDay, x);
      CompletedWorkMember(ss, x);
      InDayWindow(x.createdAt.value, d);
    }
    if d in WorkDays(ss) {
      var x :| x in ss && IsCompletedWork(x) && x.createdAt.Some? && DayOf(x.createdAt.value) == d;
      InDayWindow(x.createdAt.value, d);
      CompletedWorkMember(ss, x);
      WindowMember(CompletedWork(ss), d * SecondsPerDay, (d + 1) * SecondsPerDay, x);
    }
  }

  /** The days of `ds` up to `d`: what is left to walk back through. */
  function UpTo(ds: set<int>, d: int): set<int> {
    set x | x in ds && x <= d
  }

  /** The length of the run of consecutive days of `ds` ending at `d`. */
  function RunBack(ds: set<int>, d: int): (n: nat)
    ensures forall x :: d - n < x <= d ==> x in ds
    ensures d - n !in ds
    decreases UpTo(ds, d)
  {
    if d in ds then
      assert d !in UpTo(ds, d - 1);
      1 + RunBack(ds, d - 1)
    else 0
  }

  /** The current streak: the run ending today, or ending yesterday when
      today has no session yet. */
  function CurrentStreakSpec(ds: set<int>, today: int): nat {
    if today in ds then RunBack(ds, today) else RunBack(ds, today - 1)
  }

  /** `calculateCurrentStreak`, walking back a day at a time from today as
      the source does, one fetch per day. */
  method CurrentStreak(sessions: seq<SessionRecord>, now: int) returns (streak: nat)
    ensures streak == CurrentStreakSpec(WorkDays(sessions), DayOf(now))
    ensures streak > 0 ==> DayOf(now) in WorkDays(sessions) || DayOf(now) - 1 in WorkDays(sessions)
  {
    var ds := WorkDays(sessions);
    var today := DayOf(now);
    var current := today;
    streak := 0;
    while true
      invariant current <= today
      invariant current == today ==> streak == 0
      invariant current < today ==> streak + RunBack(ds, current) == CurrentStreakSpec(ds, today)
      decreases UpTo(ds, current), if current == today then 1 else 0
    {
      var fetched := Window(CompletedWork(sessions), current * SecondsPerDay, (current + 1) * SecondsPerDay);
      DayFetch(sessions, current);
      if fetched == [] {
        if current == today && streak == 0 {
          // today has nothing yet: carry on from yesterday
        } else {
          break;
        }
      } else {
        streak := streak + 1;
      }
      assert current !in UpTo(ds, current - 1);
      current := current - 1;
    }
  }

  /** The run ending at the `j`-th of a list of days: one more than the
      previous day's run when the two are adjacent, else 1. */
  function RunLen(days: seq<int>, j: nat): (n: nat)
    requires j < |days|
    ensures 1 <= n <= j + 1
  {
    if j == 0 then 1
    else if days[j] - days[j - 1] == 1 then RunLen(days, j - 1) + 1
    else 1
  }

  /** The longest run ending at one of the first `n` days. */
  function MaxRun(days: seq<int>, n: nat): (m: nat)
    requires n <= |days|
    ensures forall j :: 0 <= j < n ==> RunLen(days, j) <= m
    ensures n == 0 <==> m == 0
  {
    if n == 0 then 0
    else
      var prev := MaxRun(days, n - 1);
      var here := RunLen(days, n - 1);
      if prev >= here then prev else here
  }

  /** The maximum is attained. */
  lemma {:induction false} MaxRunAttained(days: seq<int>, n: nat)
    requires 0 < n <= |days|
    ensures exists j :: 0 <= j < n && RunLen(days, j) == MaxRun(days, n)
  {
    if n > 1 && MaxRun(days, n - 1) >= RunLen(days, n - 1) {
      MaxRunAttained(days, n - 1);
    } else {
      assert RunLen(days, n - 1) == MaxRun(days, n);
    }
  }

  predicate StrictlyIncreasing(days: seq<int>) {
    forall i, j :: 0 <= i < j < |days| ==> days[i] < days[j]
  }

  /** A day before every day of an increasing list keeps it increasing. */
  lemma ConsIncreasing(d: int, days: seq<int>)
    requires StrictlyIncreasing(days) && forall x :: x in days ==> d < x
    ensures StrictlyIncreasing([d] + days)
  {
    var r := [d] + days;
    forall i, j | 0 <= i < j < |r| ensures r[i] < r[j] {
      assert r[j] == days[j - 1];
      if i > 0 {
        assert r[i] == days[i - 1];
      } else {
        assert r[j] in days;
      }
    }
  }

  /** On an increasing list of the distinct days of `ds`, the list's notion
      of a run is the set's: the run ending at a listed day. */
  lemma {:induction false} RunLenIsRunBack(days: seq<int>, ds: set<int>, j: nat)
    requires StrictlyIncreasing(days) && (forall x :: x in days <==> x in ds) && j < |days|
    ensures RunLen(days, j) == RunBack(ds, days[j])
  {
    assert days[j] in days;
    if j > 0 && days[j] - days[j - 1] == 1 {
      RunLenIsRunBack(days, ds, j - 1);
    } else {
      assert days[j] - 1 !in days;
    }
  }

  /** `days` with `d` put in its place, unless it is there already. */
  function InsertDay(days: seq<int>, d: int): (r: seq<int>)
    requires StrictlyIncreasing(days)
    ensures StrictlyIncreasing(r)
    ensures forall x :: x in r <==> x in days || x == d
  {
    if days == [] then [d]
    else if d < days[0] then
      ConsIncreasing(d, days);
      [d] + days
    else if d == days[0] then days
    else
      var rest := InsertDay(days[1..], d);
      assert forall x :: x in days[1..] ==> days[0] < x;
      ConsIncreasing(days[0], rest);
      [days[0]] + rest
  }

  /** The sorted keys of `calculateLongestStreak`'s grouping by day: the
      distinct days of the completed work sessions with a date, in
      increasing order. */
  function DayKeys(ss: seq<SessionRecord>): (r: seq<int>)
    ensures StrictlyIncreasing(r)
    ensures forall x :: x in r <==> x in WorkDays(ss)
  {
    if ss == [] then []
    else
      var rest := DayKeys(ss[1..]);
      assert forall s :: s in ss <==> s == ss[0] || s in ss[1..];
      if IsCompletedWork(ss[0]) && ss[0].createdAt.Some? then InsertDay(rest, DayOf(ss[0].createdAt.value))
      else rest
  }

  /** `calculateLongestStreak`: walk the sorted days, extending the current
      run across adjacent days and closing it at a gap.  The result is the
      longest run of consecutive days with a completed work session: some
      day ends a run that long, no run is longer, and it is 0 exactly when
      there are no such days. */
  method LongestStreak(sessions: seq<SessionRecord>) returns (longest: nat)
    ensures var ds := WorkDays(sessions);
            && (longest == 0 <==> ds == {})
            && (forall d :: d in ds ==> RunBack(ds, d) <= longest)
            && (ds != {} ==> exists d :: d in ds && RunBack(ds, d) == longest)
  {
    var days := DayKeys(sessions);
    var maxStreak: nat := 0;
    var currentStreak: nat := 0;
    var lastDate: Option<int> := None;
    var i := 0;
    while i < |days|
      invariant 0 <= i <= |days|
      invariant i == 0 ==> maxStreak == 0 && currentStreak == 0 && lastDate.None?
      invariant i > 0 ==> lastDate == Some(days[i - 1]) && currentStreak == RunLen(days, i - 1)
      invariant i > 0 ==> maxStreak <= MaxRun(days, i)
                          && (if maxStreak >= currentStreak then maxStreak else currentStreak) == MaxRun(days, i)
    {
      var dayDate := days[i];
      match lastDate {
        case Some(last) =>
          var daysBetween := dayDate - last;
          if daysBetween == 1 {
            currentStreak := currentStreak + 1;
          } else if daysBetween > 1 {
            maxStreak := if maxStreak >= currentStreak then maxStreak else currentStreak;
            currentStreak := 1;
          }
        case None =>
          currentStreak := 1;
      }
      lastDate := Some(dayDate);
      i := i + 1;
    }
    longest := if maxStreak >= currentStreak then maxStreak else currentStreak;
    LongestIsMaxRun(WorkDays(sessions), days, longest);
  }

  /** The longest list run, read as a statement about the set of days. */
  lemma LongestIsMaxRun(ds: set<int>, days: seq<int>, longest: nat)
    requires StrictlyIncreasing(days) && (forall x :: x in days <==> x in ds)
    requires longest == MaxRun(days, |days|)
    ensures longest == 0 <==> ds == {}
    ensures forall d :: d in ds ==> RunBack(ds, d) <= longest
    ensures ds != {} ==> exists d :: d in ds && RunBack(ds, d) == longest
  {
    if |days| == 0 {
      assert forall x :: x !in ds;
      assert ds == {};
    } else {
      assert days[0] in ds;
      MaxRunAttained(days, |days|);
      var j :| 0 <= j < |days| && RunLen(days, j) == longest;
      RunLenIsRunBack(days, ds, j);
    }
    forall d | d in ds
      ensures RunBack(ds, d) <= longest
    {
      var j :| 0 <= j < |days| && days[j] == d;
      RunLenIsRunBack(days, ds, j);
    }
  }

  /** The current streak never exceeds the longest: it is itself a run. */
  lemma CurrentWithinLongest(ds: set<int>, today: int, longest: nat)
    requires forall d :: d in ds ==> RunBack(ds, d) <= longest
    ensures CurrentStreakSpec(ds, today) <= longest
  {
  }

  // ---------------------------------------------------------------------
  // Last session and streak activity
  // ---------------------------------------------------------------------

  /** Every completed work session is in the completed-work fetch. */
  lemma CompletedWorkAll(ss: seq<SessionRecord>)
    ensures forall x :: x in CompletedWork(ss) <==> x in ss && IsCompletedWork(x)
  {
    forall x {
      CompletedWorkMember(ss, x);
    }
  }

  /** `getLastSessionDate`: the creation date of the first completed work
      session in a fetch sorted by `createdAt` descending; none when there
      is no such session, or when the first one has no date. */
  function LastSessionDate(sessions: seq<SessionRecord>): (r: Option<int>)
    ensures r.Some? ==> exists s :: s in sessions && IsCompletedWork(s) && s.createdAt == r
    ensures r.Some? ==> forall s :: s in sessions && IsCompletedWork(s) && s.createdAt.Some? ==> s.createdAt.value <= r.value
    ensures r.None? <==> forall s :: s in sessions && IsCompletedWork(s) ==> s.createdAt.None?
  {
    var fetched := CompletedWork(sessions);
    CompletedWorkAll(sessions);
    match LatestIndex(fetched)
    case None => None
    case Some(k) =>
      assert fetched[k] in fetched;
      fetched[k].createdAt
  }

  /** `isStreakActive`: false without a last session; otherwise whether
      less than two days have passed since it, where a last session in the
      future counts as no time passed. */
  function IsStreakActive(lastSessionDate: Option<int>, now: int): (r: bool)
    ensures r <==> lastSessionDate.Some? && now - lastSessionDate.value < 2 * SecondsPerDay
  {
    match lastSessionDate
    case None => false
    case Some(last) =>
      var duration := if now >= last then now - last else 0;
      duration < 2 * SecondsPerDay
  }

  /** A current streak means the streak is active, provided no session is
      dated after `now`: the streak's last day is today or yesterday, so
      less than two days have passed since the latest session. */
  lemma StreakImpliesActive(sessions: seq<SessionRecord>, now: int)
    requires forall s :: s in sessions && s.createdAt.Some? ==> s.createdAt.value <= now
    requires CurrentStreakSpec(WorkDays(sessions), DayOf(now)) > 0
    ensures IsStreakActive(LastSessionDate(sessions), now)
  {
    var ds := WorkDays(sessions);
    var today := DayOf(now);
    var d := if today in ds then today else today - 1;
    assert d in ds;
    var s :| s in sessions && IsCompletedWork(s) && s.createdAt.Some? && DayOf(s.createdAt.value) == d;
    var last := LastSessionDate(sessions);
    assert last.Some?;
    assert s.createdAt.value <= last.value;
    var t :| t in sessions && IsCompletedWork(t) && t.createdAt == last;
    assert last.value <= now;
    assert d * SecondsPerDay <= last.value;
  }
}
