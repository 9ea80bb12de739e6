/** The weekly maintenance window, in local minutes (internal/domain/maintenance.go). */
module Maintenance {
  const DAY := 1440
  const WEEK := 10080

  /** An empty set of days means every day; `configured` tells an unset window from 00:00-00:00. */
  datatype Window = Window(days: set<int>, start: int, end: int, configured: bool)

  /** Clock readings, as the parser produces them. */
  predicate ClockOK(w: Window) {
    0 <= w.start < DAY && 0 <= w.end < DAY && forall d | d in w.days :: 0 <= d < 7
  }

  predicate DayOK(w: Window, d: int) {
    w.days == {} || d in w.days
  }

  predicate Allows(w: Window, weekday: int, mins: int) {
    if !w.configured then true
    else if w.end > w.start then DayOK(w, weekday) && w.start <= mins < w.end
    else if mins >= w.start then DayOK(w, weekday)
    else if mins < w.end then DayOK(w, (weekday + 6) % 7)
    else false
  }

  function Length(w: Window): int {
    if w.end > w.start then w.end - w.start else w.end - w.start + DAY
  }

  /** How long ago, around the week, the window of day d opened. */
  function Since(w: Window, d: int, t: int): int {
    (t - (DAY * d + w.start)) % WEEK
  }

  ghost predicate InsideSomeOpening(w: Window, t: int) {
    exists d | 0 <= d < 7 :: DayOK(w, d) && Since(w, d, t) < Length(w)
  }

  /** The elapsed time from an opening, worked out by how many days back it was. */
  lemma SinceByDay(w: Window, d: int, weekday: int, mins: int)
    requires ClockOK(w) && 0 <= d < 7 && 0 <= weekday < 7 && 0 <= mins < DAY
    ensures var gap := DAY * (weekday - d) + mins - w.start;
            Since(w, d, DAY * weekday + mins) == if gap >= 0 then gap else gap + WEEK
  {
    var gap := DAY * (weekday - d) + mins - w.start;
    assert DAY * weekday + mins - (DAY * d + w.start) == gap;
    assert -WEEK < gap < WEEK;
  }

  /** Only today's opening and yesterday's can reach the present minute. */
  lemma OnlyTwoOpenings(w: Window, d: int, weekday: int, mins: int)
    requires ClockOK(w) && 0 <= d < 7 && 0 <= weekday < 7 && 0 <= mins < DAY
    requires Since(w, d, DAY * weekday + mins) < Length(w)
    ensures d == weekday || (d == (weekday + 6) % 7 && w.end <= w.start && mins < w.start)
  {
    SinceByDay(w, d, weekday, mins);
  }

  /** A configured window admits a minute exactly when some open day's opening is less than the
      window's length ago, counting around the week: same-day windows, windows past midnight, and
      Saturday night into Sunday alike. An unset window admits every minute. */
  lemma AllowsExactlyTheOpenings(w: Window, weekday: int, mins: int)
    requires ClockOK(w) && 0 <= weekday < 7 && 0 <= mins < DAY
    ensures Allows(w, weekday, mins) <==> !w.configured || InsideSomeOpening(w, DAY * weekday + mins)
  {
    var t, yesterday := DAY * weekday + mins, (weekday + 6) % 7;
    SinceByDay(w, weekday, weekday, mins);
    SinceByDay(w, yesterday, weekday, mins);
    if InsideSomeOpening(w, t) {
      var d :| 0 <= d < 7 && DayOK(w, d) && Since(w, d, t) < Length(w);
      OnlyTwoOpenings(w, d, weekday, mins);
    }
    if Allows(w, weekday, mins) && w.configured {
      var d := if mins >= w.start then weekday else yesterday;
      assert 0 <= d < 7 && DayOK(w, d) && Since(w, d, t) < Length(w);
    }
  }
}
