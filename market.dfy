/** The New York stock exchange session shown in the header
    (`updateMarketStatus`, app.js:351-384).  The clock reading in New York is
    an input: the day of the week as `getDay` numbers it (0 is Sunday) and
    the minute of the day. */
module Market {

  datatype Session = Closed | Open | PreMarket | AfterHours

  const MarketOpen: int := 9 * 60 + 30
  const MarketClose: int := 16 * 60
  const PreMarketStart: int := 4 * 60
  const AfterHoursEnd: int := 20 * 60

  predicate IsWeekday(day: int)
  {
    1 <= day <= 5
  }

  /** `hours * 60 + minutes`. */
  function MarketTime(hours: int, minutes: int): int
  {
    hours * 60 + minutes
  }

  /** The classification of app.js:361-383: on Monday to Friday the day is
      cut into pre-market [4:00, 9:30), the regular session [9:30, 16:00)
      and after-hours [16:00, 20:00); every other moment is closed. */
  function ClassifySession(day: int, marketTime: int): (s: Session)
    ensures s == Open <==> IsWeekday(day) && 570 <= marketTime < 960
    ensures s == PreMarket <==> IsWeekday(day) && 240 <= marketTime < 570
    ensures s == AfterHours <==> IsWeekday(day) && 960 <= marketTime < 1200
    ensures s == Closed <==> !IsWeekday(day) || marketTime < 240 || 1200 <= marketTime
  {
    if !IsWeekday(day) then Closed
    else if marketTime >= MarketOpen && marketTime < MarketClose then Open
    else if marketTime >= PreMarketStart && marketTime < MarketOpen then PreMarket
    else if marketTime >= MarketClose && marketTime < AfterHoursEnd then AfterHours
    else Closed
  }

  /** On a clock face: the regular session runs from 9:30 up to but not
      including 16:00, for every valid hour and minute. */
  lemma OpenOnTheClock(day: int, hours: int, minutes: int)
    requires 0 <= hours < 24 && 0 <= minutes < 60
    ensures ClassifySession(day, MarketTime(hours, minutes)) == Open <==>
            IsWeekday(day) && ((hours == 9 && minutes >= 30) || 10 <= hours < 16)
    ensures ClassifySession(day, MarketTime(hours, minutes)) == PreMarket <==>
            IsWeekday(day) && (4 <= hours < 9 || (hours == 9 && minutes < 30))
    ensures ClassifySession(day, MarketTime(hours, minutes)) == AfterHours <==>
            IsWeekday(day) && 16 <= hours < 20
  {
    var t := MarketTime(hours, minutes);
    assert hours <= 8 ==> t < 540;
    assert hours == 9 ==> 540 <= t < 600;
    assert hours >= 10 ==> t >= 600;
    assert hours <= 15 ==> t < 960;
    assert hours >= 16 ==> t >= 960;
    assert hours <= 19 ==> t < 1200;
    assert hours >= 20 ==> t >= 1200;
    assert hours <= 3 ==> t < 240;
    assert hours >= 4 ==> t >= 240;
  }

  /** The position of a session within the trading day: before pre-market,
      pre-market, regular, after-hours, after the close. */
  function Phase(s: Session, marketTime: int): (k: nat)
  {
    match s
    case PreMarket => 1
    case Open => 2
    case AfterHours => 3
    case Closed => if marketTime < PreMarketStart then 0 else 4
  }

  /** Through a weekday the sessions come in order: a later minute never
      returns to an earlier phase of the trading day. */
  lemma SessionsInOrder(day: int, t1: int, t2: int)
    requires t1 <= t2
    ensures Phase(ClassifySession(day, t1), t1) <= Phase(ClassifySession(day, t2), t2) || !IsWeekday(day)
  {
  }
}
