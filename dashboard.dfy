/**
 * The study-time figures of the dashboard (src/pages/Dashboard.tsx): the
 * total minutes studied, its split into hours and minutes, and the calendar's
 * test of whether a day had a study session.
 *
 * A date is its calendar day plus a time of day; day-level normalisation
 * (`new Date(y, m, d).getTime()`) keeps the day and sets the time to midnight.
 */
module Dashboard {

  /** A calendar date with the month counted from 0, as JavaScript does, and milliseconds into the day. */
  datatype Date = Date(year: int, month: int, day: int, msOfDay: nat)

  /** One study session; its duration is in minutes. */
  datatype StudySession = StudySession(date: Date, duration: int)

  /** `sessions.reduce((total, s) => total + s.duration, acc)`: a left fold. */
  function Reduce(acc: int, sessions: seq<StudySession>): int
    decreases |sessions|
  {
    if sessions == [] then acc else Reduce(acc + sessions[0].duration, sessions[1..])
  }

  /** `totalStudyTime`: the fold started from 0, which is the sum of the durations. */
  function TotalStudyTime(sessions: seq<StudySession>): (r: int)
    ensures r == Sum(sessions)
  {
    ReduceIsSum(0, sessions);
    Reduce(0, sessions)
  }

  /** The sum of the durations, taken from the last session back. */
  function Sum(sessions: seq<StudySession>): int
    decreases |sessions|
  {
    if sessions == [] then 0
    else Sum(sessions[..|sessions| - 1]) + sessions[|sessions| - 1].duration
  }

  /** Adding one more session on the left adds its duration. */
  lemma {:induction false} SumCons(x: StudySession, sessions: seq<StudySession>)
    ensures Sum([x] + sessions) == x.duration + Sum(sessions)
    decreases |sessions|
  {
    if sessions != [] {
      var init := sessions[..|sessions| - 1];
      assert ([x] + sessions)[..|sessions|] == [x] + init;
      SumCons(x, init);
    }
  }

  /** The fold computes the accumulator plus the sum of the durations. */
  lemma {:induction false} ReduceIsSum(acc: int, sessions: seq<StudySession>)
    ensures Reduce(acc, sessions) == acc + Sum(sessions)
    decreases |sessions|
  {
    if sessions != [] {
      ReduceIsSum(acc + sessions[0].duration, sessions[1..]);
      SumCons(sessions[0], sessions[1..]);
      assert [sessions[0]] + sessions[1..] == sessions;
    }
  }

  /** No session lasts a negative number of minutes. */
  predicate NonNegative(sessions: seq<StudySession>)
  {
    forall i :: 0 <= i < |sessions| ==> sessions[i].duration >= 0
  }

  /**
   * `totalStudyTime` is the sum of all durations, and with no negative
   * durations it is at least each single duration.
   */
  lemma {:induction false} TotalCoversEachSession(sessions: seq<StudySession>, i: int)
    requires NonNegative(sessions)
    requires 0 <= i < |sessions|
    ensures TotalStudyTime(sessions) == Sum(sessions)
    ensures sessions[i].duration <= TotalStudyTime(sessions)
    decreases |sessions|
  {
    var last := |sessions| - 1;
    SumNonNegative(sessions[..last]);
    if i < last {
      TotalCoversEachSession(sessions[..last], i);
    }
  }

  /** With no negative durations the sum is not negative. */
  lemma {:induction false} SumNonNegative(sessions: seq<StudySession>)
    requires NonNegative(sessions)
    ensures Sum(sessions) >= 0
    decreases |sessions|
  {
    if sessions != [] {
      SumNonNegative(sessions[..|sessions| - 1]);
    }
  }

  /**
   * `Math.floor(total / 60)`. Dafny's `/` on a positive divisor rounds toward
   * negative infinity, which is what `Math.floor` does to JavaScript's quotient.
   */
  function Hours(total: int): (r: int)
    ensures r * 60 <= total < r * 60 + 60
  {
    total / 60
  }

  /**
   * `total % 60` with JavaScript's `%`, whose result takes the sign of the
   * dividend. Hours and minutes recompose the total when it is not negative.
   */
  function Minutes(total: int): (r: int)
    ensures -60 < r < 60
    ensures total >= 0 ==> 0 <= r && Hours(total) * 60 + r == total
    ensures total < 0 ==> r <= 0
  {
    if total >= 0 then total % 60 else -((-total) % 60)
  }

  /** For a negative total the displayed hours and minutes do not add back up. */
  lemma NegativeTotalMisSplit()
    ensures Hours(-30) * 60 + Minutes(-30) == -90
  {
  }

  /** `new Date(d.getFullYear(), d.getMonth(), d.getDate())`: midnight of the same day. */
  function DayOf(d: Date): Date
  {
    Date(d.year, d.month, d.day, 0)
  }

  predicate SameDay(a: Date, b: Date)
  {
    a.year == b.year && a.month == b.month && a.day == b.day
  }

  /** `studyDays`: one day per session, in session order. */
  function StudyDays(sessions: seq<StudySession>): (r: seq<Date>)
    ensures |r| == |sessions|
    ensures forall i :: 0 <= i < |sessions| ==> r[i] == DayOf(sessions[i].date)
    decreases |sessions|
  {
    if sessions == [] then [] else [DayOf(sessions[0].date)] + StudyDays(sessions[1..])
  }

  /**
   * `hasStudySession(date)`: some session falls on the same calendar day,
   * whatever the time of day of either date.
   */
  function HasStudySession(sessions: seq<StudySession>, date: Date): (r: bool)
    ensures r <==> exists i :: 0 <= i < |sessions| && SameDay(sessions[i].date, date)
  {
    var days := StudyDays(sessions);
    assert forall i :: 0 <= i < |sessions| ==> (days[i] == DayOf(date) <==> SameDay(sessions[i].date, date));
    DayOf(date) in days
  }

  /** The time of day of the asked date never matters. */
  lemma TimeOfDayIgnored(sessions: seq<StudySession>, date: Date, ms: nat)
    ensures HasStudySession(sessions, date) == HasStudySession(sessions, date.(msOfDay := ms))
  {
    assert DayOf(date) == DayOf(date.(msOfDay := ms));
  }

  /** The dashboard's sessions: five days of March 2025. */
  const StudySessions: seq<StudySession> := [
    StudySession(Date(2025, 2, 1, 0), 60),
    StudySession(Date(2025, 2, 2, 0), 45),
    StudySession(Date(2025, 2, 4, 0), 90),
    StudySession(Date(2025, 2, 5, 0), 30),
    StudySession(Date(2025, 2, 7, 0), 60)
  ]

  /** The dashboard shows 4 hours 45 minutes across 5 sessions, and marks 4 March but not 3 March. */
  lemma SampleDashboard()
    ensures TotalStudyTime(StudySessions) == 285
    ensures Hours(285) == 4 && Minutes(285) == 45
    ensures HasStudySession(StudySessions, Date(2025, 2, 4, 54000000))
    ensures !HasStudySession(StudySessions, Date(2025, 2, 3, 0))
  {
    assert SameDay(StudySessions[2].date, Date(2025, 2, 4, 54000000));
  }
}
