/** Monday-start calendar weeks (app.js:464-476).  A date is an absolute day
    number, day 0 being Thursday 1 January 1970, so that weeks that straddle a
    month or a year end need no special case. */
module Calendar {

  /** `Date.prototype.getDay`: 0 is Sunday, 1 Monday, ..., 6 Saturday. */
  function GetDay(d: int): (w: int)
    ensures 0 <= w < 7
  {
    (d + 4) % 7
  }

  /** A week: its first and its last day, both included.  (The source keeps
      local midnight of the first day and 23:59:59.999 of the last.) */
  datatype WeekWindow = WeekWindow(start: int, end: int)

  predicate Contains(w: WeekWindow, d: int)
  {
    w.start <= d <= w.end
  }

  /** `getWeekRange(offset)` evaluated on day `today`: move back to Monday
      (Sunday counts as the seventh day of its week, so it goes back six days),
      then shift by `offset` whole weeks. */
  function GetWeekRange(offset: int, today: int): (w: WeekWindow)
    ensures GetDay(w.start) == 1
    ensures w.end == w.start + 6
    ensures Contains(w, today + 7 * offset)
  {
    var dayOfWeek := GetDay(today);
    var diff := today - dayOfWeek + (if dayOfWeek == 0 then -6 else 1);
    var start := diff + offset * 7;
    WeekWindow(start, start + 6)
  }

  /** Two Mondays at most six days apart are the same day. */
  lemma {:induction false} MondaysApart(s: int, s': int)
    requires GetDay(s) == 1 && GetDay(s') == 1 && s <= s' <= s + 6
    ensures s == s'
  {
    var k := s' - s;
    assert (s' + 4) % 7 == ((s + 4) + k) % 7;
  }

  /** The week is determined by its defining properties: the only Monday-start
      seven-day window holding `today + 7 * offset`. */
  lemma WeekRangeUnique(offset: int, today: int, s: int)
    requires GetDay(s) == 1 && s <= today + 7 * offset <= s + 6
    ensures GetWeekRange(offset, today).start == s
  {
    var w := GetWeekRange(offset, today);
    if w.start <= s {
      MondaysApart(w.start, s);
    } else {
      MondaysApart(s, w.start);
    }
  }

  /** Offsets shift whole weeks, backwards and forwards alike. */
  lemma WeekRangeShift(k: int, today: int)
    ensures GetWeekRange(k, today).start == GetWeekRange(0, today).start + 7 * k
    ensures GetWeekRange(k, today).end == GetWeekRange(0, today).end + 7 * k
  {
  }

  /** On a Sunday the current week began six days earlier, not the next day. */
  lemma SundayClosesItsWeek(today: int)
    requires GetDay(today) == 0
    ensures GetWeekRange(0, today).start == today - 6
    ensures GetWeekRange(0, today).end == today
  {
  }

  /** Consecutive offsets give adjacent, non-overlapping weeks. */
  lemma WeeksAdjacent(k: int, today: int)
    ensures GetWeekRange(k + 1, today).start == GetWeekRange(k, today).end + 1
  {
  }
}
