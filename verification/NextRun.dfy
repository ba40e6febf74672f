/**
 The cron search of tools/jobs in a zone with a fixed offset. Instants are nanoseconds on the
 time line of package time; `offset` is the zone's distance from UTC in seconds.
 */
module NextRun {
  import opened Wrappers
  import opened Calendar

  /** Absent date fields match any value. */
  datatype Trigger = Trigger(
    year: Option<nat>,
    month: Option<nat>,
    day: Option<nat>,
    hour: nat,
    minute: nat,
    second: nat)

  predicate ValidTrigger(trg: Trigger) {
    && (trg.month.Some? ==> 1 <= trg.month.value <= 12)
    && (trg.day.Some? ==> 1 <= trg.day.value <= 31)
    && trg.hour <= 23 && trg.minute <= 59 && trg.second <= 59
  }

  function SecondOfDay(trg: Trigger): int {
    3600 * trg.hour + 60 * trg.minute + trg.second
  }

  /** The instant of midnight at the start of a day. */
  function Midnight(day: int, offset: int): int {
    1_000_000_000 * (86400 * day - offset)
  }

  /** time.Date for a valid date and the time of day of the trigger. */
  function At(trg: Trigger, offset: int, y: int, m: int, d: int): int
    requires 1 <= m <= 12
  {
    Midnight(DayNumber(y, m, d), offset) + 1_000_000_000 * SecondOfDay(trg)
  }

  /** The date exists and agrees with every field the trigger sets. */
  predicate MatchesDate(trg: Trigger, y: int, m: int, d: int) {
    && ValidDate(y, m, d)
    && (trg.year.Some? ==> trg.year.value == y)
    && (trg.month.Some? ==> trg.month.value == m)
    && (trg.day.Some? ==> trg.day.value == d)
  }

  /** Instant t matches the trigger: it is a time of day on a date the trigger allows. */
  ghost predicate Matches(trg: Trigger, offset: int, t: int) {
    && trg.hour <= 23 && trg.minute <= 59 && trg.second <= 59
    && exists y: int, m: int, d: int :: MatchesDate(trg, y, m, d) && t == At(trg, offset, y, m, d)
  }

  /** r is the first matching instant after now, or there is none. */
  ghost predicate IsNext(trg: Trigger, offset: int, now: int, r: Option<int>) {
    match r
    case Some(t) =>
      && Matches(trg, offset, t) && t > now
      && forall u: int :: Matches(trg, offset, u) && u > now ==> t <= u
    case None => forall u: int :: Matches(trg, offset, u) ==> u <= now
  }

  /** now.Year() in the zone of now. */
  ghost predicate InYear(now: int, year: int, offset: int) {
    Midnight(YearStart(year), offset) <= now < Midnight(YearStart(year + 1), offset)
  }

  // ---- What a matching instant says ---------------------------------------------------------

  /** The whole seconds of the wall clock of the zone since 1 January of year 0. */
  function WallClock(t: int, offset: int): int {
    t / 1_000_000_000 + offset
  }

  lemma Divides(x: int, n: int, q: int, r: int)
    requires x == n * q + r && 0 <= r < n
    requires n == 24 || n == 60 || n == 3600 || n == 86400 || n == 1_000_000_000
    ensures x / n == q && x % n == r
  {
  }

  lemma ReadsTime(wall: int, day: int, hour: int, minute: int, second: int)
    requires wall == 86400 * day + 3600 * hour + 60 * minute + second
    requires 0 <= hour <= 23 && 0 <= minute <= 59 && 0 <= second <= 59
    ensures wall / 86400 == day && wall / 3600 % 24 == hour && wall / 60 % 60 == minute && wall % 60 == second
  {
    Divides(wall, 86400, day, 3600 * hour + 60 * minute + second);
    Divides(wall, 3600, 24 * day + hour, 60 * minute + second);
    Divides(24 * day + hour, 24, day, hour);
    Divides(wall, 60, 1440 * day + 60 * hour + minute, second);
    Divides(1440 * day + 60 * hour + minute, 60, 24 * day + hour, minute);
  }

  /** A matching instant, read on the wall clock of the zone, shows the time and a date of the trigger. */
  lemma TimeIsReadBack(trg: Trigger, offset: int, t: int) returns (y: int, m: int, d: int)
    requires Matches(trg, offset, t)
    ensures MatchesDate(trg, y, m, d) && t % 1_000_000_000 == 0
    ensures var wall := WallClock(t, offset);
            && wall / 86400 == DayNumber(y, m, d)
            && wall / 3600 % 24 == trg.hour && wall / 60 % 60 == trg.minute && wall % 60 == trg.second
  {
    y, m, d :| MatchesDate(trg, y, m, d) && t == At(trg, offset, y, m, d);
    var day := DayNumber(y, m, d);
    var wall := 86400 * day + 3600 * trg.hour + 60 * trg.minute + trg.second;
    Divides(t, 1_000_000_000, wall - offset, 0);
    ReadsTime(wall, day, trg.hour, trg.minute, trg.second);
  }

  /** Every whole second whose wall clock shows them is a matching instant. */
  lemma WallClockMatches(trg: Trigger, offset: int, t: int, y: int, m: int, d: int)
    requires MatchesDate(trg, y, m, d) && t % 1_000_000_000 == 0
    requires var wall := WallClock(t, offset);
             && wall / 86400 == DayNumber(y, m, d)
             && wall / 3600 % 24 == trg.hour && wall / 60 % 60 == trg.minute && wall % 60 == trg.second
    ensures Matches(trg, offset, t)
  {
    var wall := WallClock(t, offset);
    var hours, minutes := wall / 3600, wall / 60;
    Divides(wall, 60, minutes, trg.second);
    Divides(minutes, 60, minutes / 60, trg.minute);
    Divides(wall, 3600, minutes / 60, 60 * trg.minute + trg.second);
    Divides(hours, 24, hours / 24, trg.hour);
    Divides(wall, 86400, hours / 24, 3600 * trg.hour + 60 * trg.minute + trg.second);
    assert t == At(trg, offset, y, m, d);
  }

  /** validTrigger refuses a trigger exactly when one of its fields, taken alone, never occurs. */
  lemma ValidFieldsOccur(trg: Trigger)
    ensures ValidTrigger(trg) <==>
            && (trg.month.Some? ==> exists y: int, d: int :: ValidDate(y, trg.month.value, d))
            && (trg.day.Some? ==> exists y: int, m: int :: ValidDate(y, m, trg.day.value))
            && (exists wall: int :: wall / 3600 % 24 == trg.hour)
            && (exists wall: int :: wall / 60 % 60 == trg.minute)
            && (exists wall: int :: wall % 60 == trg.second)
  {
    if ValidTrigger(trg) {
      if trg.month.Some? {
        assert ValidDate(1, trg.month.value, 1);
      }
      if trg.day.Some? {
        assert ValidDate(1, 1, trg.day.value);
      }
      assert (3600 * trg.hour) / 3600 % 24 == trg.hour;
      assert (60 * trg.minute) / 60 % 60 == trg.minute;
      assert trg.second % 60 == trg.second;
    }
  }

  // ---- Order --------------------------------------------------------------------------------

  lemma InstantsIncrease(trg: Trigger, offset: int, y: int, m: int, d: int, y': int, m': int, d': int)
    requires ValidTrigger(trg) && ValidDate(y, m, d) && ValidDate(y', m', d')
    ensures Earlier(y, m, d, y', m', d') <==> At(trg, offset, y, m, d) < At(trg, offset, y', m', d')
  {
    DatesIncrease(y, m, d, y', m', d');
  }

  lemma InstantWithinYear(trg: Trigger, offset: int, y: int, m: int, d: int)
    requires ValidTrigger(trg) && ValidDate(y, m, d)
    ensures InYear(At(trg, offset, y, m, d), y, offset)
  {
    DateWithinYear(y, m, d);
    assert 0 <= SecondOfDay(trg) < 86400;
  }

  /** Every matching date before (y, m, d) has passed. */
  ghost predicate PassedBefore(trg: Trigger, offset: int, now: int, y: int, m: int, d: int) {
    forall y': int, m': int, d': int ::
      MatchesDate(trg, y', m', d') && Earlier(y', m', d', y, m, d) ==> At(trg, offset, y', m', d') <= now
  }

  lemma EarlierYearsPassed(trg: Trigger, offset: int, now: int, year: int)
    requires ValidTrigger(trg) && Midnight(YearStart(year), offset) <= now
    ensures PassedBefore(trg, offset, now, year, 1, 1)
  {
    forall y, m, d | MatchesDate(trg, y, m, d) && Earlier(y, m, d, year, 1, 1)
      ensures At(trg, offset, y, m, d) <= now
    {
      InstantWithinYear(trg, offset, y, m, d);
      YearsIncrease(y + 1, year);
    }
  }

  /** The first matching date found after now is the first one there is. */
  lemma FoundIsNext(trg: Trigger, offset: int, now: int, y: int, m: int, d: int)
    requires ValidTrigger(trg) && MatchesDate(trg, y, m, d)
    requires PassedBefore(trg, offset, now, y, m, d) && At(trg, offset, y, m, d) > now
    ensures IsNext(trg, offset, now, Some(At(trg, offset, y, m, d)))
  {
    var t := At(trg, offset, y, m, d);
    forall u: int | Matches(trg, offset, u) && u > now
      ensures t <= u
    {
      var y', m', d' :| MatchesDate(trg, y', m', d') && u == At(trg, offset, y', m', d');
      InstantsIncrease(trg, offset, y', m', d', y, m, d);
    }
  }

  /** If no date of the next 400 years matches, none does in any year. */
  lemma FourHundredYearsSuffice(trg: Trigger, offset: int, now: int, year: int)
    requires ValidTrigger(trg) && trg.year.None? && InYear(now, year, offset)
    requires PassedBefore(trg, offset, now, year + 401, 1, 1)
    ensures forall y, m, d :: !MatchesDate(trg, y, m, d)
    ensures IsNext(trg, offset, now, None)
  {
    forall y, m, d | MatchesDate(trg, y, m, d)
      ensures false
    {
      var k := (year - y) / 400 + 1;
      var z := y + 400 * k;
      assert year < z <= year + 400;
      Cycle(y, k);
      assert MatchesDate(trg, z, m, d);
      InstantWithinYear(trg, offset, z, m, d);
      YearsIncrease(year + 1, z);
      assert Earlier(z, m, d, year + 401, 1, 1);
    }
  }

  lemma FixedYearPassed(trg: Trigger, offset: int, now: int)
    requires ValidTrigger(trg) && trg.year.Some?
    requires PassedBefore(trg, offset, now, trg.year.value + 1, 1, 1)
    ensures IsNext(trg, offset, now, None)
  {
    forall u: int | Matches(trg, offset, u)
      ensures u <= now
    {
      var y, m, d :| MatchesDate(trg, y, m, d) && u == At(trg, offset, y, m, d);
      assert Earlier(y, m, d, trg.year.value + 1, 1, 1);
    }
  }

  /** Nothing the trigger allows lies between two dates. */
  ghost predicate NoMatchBetween(trg: Trigger, y: int, m: int, d: int, y': int, m': int, d': int) {
    forall p: int, q: int, r: int :: MatchesDate(trg, p, q, r) ==>
      Earlier(p, q, r, y, m, d) || !Earlier(p, q, r, y', m', d')
  }

  lemma Skip(trg: Trigger, offset: int, now: int, y: int, m: int, d: int, y': int, m': int, d': int)
    requires PassedBefore(trg, offset, now, y, m, d) && NoMatchBetween(trg, y, m, d, y', m', d')
    ensures PassedBefore(trg, offset, now, y', m', d')
  {
  }

  lemma DayPassed(trg: Trigger, offset: int, now: int, y: int, m: int, d: int)
    requires PassedBefore(trg, offset, now, y, m, d)
    requires MatchesDate(trg, y, m, d) ==> At(trg, offset, y, m, d) <= now
    ensures PassedBefore(trg, offset, now, y, m, d + 1)
  {
  }

  lemma InvalidNeverMatches(trg: Trigger, offset: int, now: int)
    requires !ValidTrigger(trg)
    ensures IsNext(trg, offset, now, None)
  {
    if trg.hour <= 23 && trg.minute <= 59 && trg.second <= 59 {
      assert forall y, m, d :: !MatchesDate(trg, y, m, d);
    }
  }

  // ---- The search ---------------------------------------------------------------------------

  /** The innermost loop of nextRun, over the days of one month. */
  method SearchMonth(trg: Trigger, offset: int, now: int, year: int, month: int) returns (r: Option<int>)
    requires ValidTrigger(trg) && 1 <= month <= 12 && (trg.year.Some? ==> trg.year.value == year)
    requires (trg.month.Some? ==> trg.month.value == month) && PassedBefore(trg, offset, now, year, month, 1)
    ensures r.Some? ==> IsNext(trg, offset, now, r)
    ensures r.None? ==> PassedBefore(trg, offset, now, year, month + 1, 1)
  {
    var startDay, endDay := 1, DaysInMonth(year, month);
    if trg.day.Some? {
      if trg.day.value > endDay {
        Skip(trg, offset, now, year, month, 1, year, month + 1, 1);
        return None;
      }
      startDay, endDay := trg.day.value, trg.day.value;
    }
    Skip(trg, offset, now, year, month, 1, year, month, startDay);
    var day := startDay;
    while day <= endDay
      invariant startDay <= day <= endDay + 1
      invariant PassedBefore(trg, offset, now, year, month, day)
    {
      var next := At(trg, offset, year, month, day);
      if next > now {
        FoundIsNext(trg, offset, now, year, month, day);
        return Some(next);
      }
      DayPassed(trg, offset, now, year, month, day);
      day := day + 1;
    }
    Skip(trg, offset, now, year, month, day, year, month + 1, 1);
    r := None;
  }

  /** The middle loop of nextRun, over the months of one year. */
  method SearchYear(trg: Trigger, offset: int, now: int, year: int) returns (r: Option<int>)
    requires ValidTrigger(trg) && (trg.year.Some? ==> trg.year.value == year)
    requires PassedBefore(trg, offset, now, year, 1, 1)
    ensures r.Some? ==> IsNext(trg, offset, now, r)
    ensures r.None? ==> PassedBefore(trg, offset, now, year + 1, 1, 1)
  {
    var startMonth, endMonth := 1, 12;
    if trg.month.Some? {
      startMonth, endMonth := trg.month.value, trg.month.value;
    }
    Skip(trg, offset, now, year, 1, 1, year, startMonth, 1);
    var month := startMonth;
    while month <= endMonth
      invariant startMonth <= month <= endMonth + 1
      invariant PassedBefore(trg, offset, now, year, month, 1)
    {
      r := SearchMonth(trg, offset, now, year, month);
      if r.Some? {
        return;
      }
      month := month + 1;
    }
    Skip(trg, offset, now, year, month, 1, year + 1, 1, 1);
    r := None;
  }

  /** nextRun: the first matching instant after now; None exactly when there is none in any year. */
  method NextRun(trg: Trigger, offset: int, now: int, nowYear: int) returns (r: Option<int>)
    requires InYear(now, nowYear, offset)
    ensures IsNext(trg, offset, now, r)
  {
    if !ValidTrigger(trg) {
      InvalidNeverMatches(trg, offset, now);
      return None;
    }
    var startYear, endYear := nowYear, nowYear + 400;
    if trg.year.Some? {
      startYear, endYear := trg.year.value, trg.year.value;
      assert PassedBefore(trg, offset, now, startYear, 1, 1);
    } else {
      EarlierYearsPassed(trg, offset, now, nowYear);
    }
    var year := startYear;
    while year <= endYear
      invariant startYear <= year <= endYear + 1
      invariant PassedBefore(trg, offset, now, year, 1, 1)
    {
      r := SearchYear(trg, offset, now, year);
      if r.Some? {
        return;
      }
      year := year + 1;
    }
    if trg.year.Some? {
      FixedYearPassed(trg, offset, now);
    } else {
      FourHundredYearsSuffice(trg, offset, now, nowYear);
    }
    r := None;
  }

  method NextDelay(trg: Trigger, offset: int, now: int, nowYear: int) returns (delay: Option<int>)
    requires InYear(now, nowYear, offset)
    ensures delay.Some? ==> delay.value > 0 && IsNext(trg, offset, now, Some(now + delay.value))
    ensures delay.None? ==> IsNext(trg, offset, now, None)
  {
    var next := NextRun(trg, offset, now, nowYear);
    if next.None? {
      return None;
    }
    delay := Some(next.value - now);
  }

  /** Every instant has a year, so the search is never asked about one it has no year for. */
  lemma EveryInstantHasYear(now: int, offset: int) returns (year: int)
    ensures InYear(now, year, offset)
  {
    var second := now / 1_000_000_000 + offset;
    var day := second / 86400;
    year := YearOfDay(day);
  }

  /** The answer is unique. */
  lemma NextIsUnique(trg: Trigger, offset: int, now: int, a: Option<int>, b: Option<int>)
    requires IsNext(trg, offset, now, a) && IsNext(trg, offset, now, b)
    ensures a == b
  {
  }

  // ---- When a trigger runs at all -----------------------------------------------------------

  /** The last day a month ever has. */
  function LongestMonth(m: int): int
    requires 1 <= m <= 12
  {
    if m == 2 then 29 else DaysInMonth(1, m)
  }

  /** A day its month sometimes has comes up after every instant. */
  lemma LaterMatch(trg: Trigger, offset: int, now: int, m: int, d: int)
    requires ValidTrigger(trg) && trg.year.None? && 1 <= m <= 12 && 1 <= d <= LongestMonth(m)
    requires (trg.month.Some? ==> trg.month.value == m) && (trg.day.Some? ==> trg.day.value == d)
    ensures exists t: int :: Matches(trg, offset, t) && t > now
  {
    var year := EveryInstantHasYear(now, offset);
    var k := if year < 0 then 1 else year + 1;
    var z := 400 * k;
    LeapCycle(k);
    assert MatchesDate(trg, z, m, d);
    InstantWithinYear(trg, offset, z, m, d);
    YearsIncrease(year + 1, z);
    var t := At(trg, offset, z, m, d);
    assert Matches(trg, offset, t) && t > now;
  }

  /**
   A valid trigger without a year has a next run from every instant, unless it names a day
   its month never has, as 30 February; then it never runs.
   */
  lemma RunsForeverUnlessImpossible(trg: Trigger, offset: int, now: int, r: Option<int>)
    requires ValidTrigger(trg) && trg.year.None? && IsNext(trg, offset, now, r)
    ensures r.Some? <==> !(trg.month.Some? && trg.day.Some? && trg.day.value > LongestMonth(trg.month.value))
  {
    var m := if trg.month.Some? then trg.month.value else 1;
    var d := if trg.day.Some? then trg.day.value else 1;
    if d <= LongestMonth(m) {
      LaterMatch(trg, offset, now, m, d);
    } else {
      assert forall y, m', d' :: !MatchesDate(trg, y, m', d');
    }
  }

  // ---- The daily loop -----------------------------------------------------------------------

  /**
   A run of the daily loop of startCronJob: at clock reading clocks[i] it computes nexts[i] and
   sleeps until then, so the clock has reached nexts[i] when it is read again.
   */
  ghost predicate DailyLoop(trg: Trigger, offset: int, clocks: seq<int>, nexts: seq<int>) {
    && |clocks| == |nexts|
    && (forall i | 0 <= i < |nexts| :: IsNext(trg, offset, clocks[i], Some(nexts[i])))
    && (forall i | 0 <= i < |nexts| - 1 :: nexts[i] <= clocks[i + 1])
  }

  lemma RunIsAhead(trg: Trigger, offset: int, clocks: seq<int>, nexts: seq<int>, j: nat)
    requires DailyLoop(trg, offset, clocks, nexts) && j < |nexts|
    ensures clocks[j] < nexts[j] && Matches(trg, offset, nexts[j])
  {
    assert IsNext(trg, offset, clocks[j], Some(nexts[j]));
  }

  lemma {:induction false} AlwaysAhead(clocks: seq<int>, nexts: seq<int>, i: nat, j: nat)
    requires |clocks| == |nexts| && i < j < |nexts|
    requires forall k | 0 <= k < |nexts| :: clocks[k] < nexts[k]
    requires forall k | 0 < k < |nexts| :: nexts[k - 1] <= clocks[k]
    ensures nexts[i] < nexts[j]
    decreases j
  {
    if i < j - 1 {
      AlwaysAhead(clocks, nexts, i, j - 1);
    }
  }

  /** The job runs at strictly increasing matching instants. */
  lemma RunsIncrease(trg: Trigger, offset: int, clocks: seq<int>, nexts: seq<int>, i: nat, j: nat)
    requires DailyLoop(trg, offset, clocks, nexts) && i < j < |nexts|
    ensures nexts[i] < nexts[j] && Matches(trg, offset, nexts[j])
  {
    forall k | 0 <= k < |nexts|
      ensures clocks[k] < nexts[k]
    {
      RunIsAhead(trg, offset, clocks, nexts, k);
    }
    forall k | 0 < k < |nexts|
      ensures nexts[k - 1] <= clocks[k]
    {
      assert nexts[k - 1] <= clocks[k - 1 + 1];
    }
    AlwaysAhead(clocks, nexts, i, j);
    RunIsAhead(trg, offset, clocks, nexts, j);
  }

  /** A matching instant between two consecutive runs had passed before the clock was read again. */
  lemma SkipsOnlyThePassed(trg: Trigger, offset: int, clocks: seq<int>, nexts: seq<int>, i: nat, t: int)
    requires DailyLoop(trg, offset, clocks, nexts) && i + 1 < |nexts|
    requires Matches(trg, offset, t) && nexts[i] < t < nexts[i + 1]
    ensures t <= clocks[i + 1]
  {
    assert IsNext(trg, offset, clocks[i + 1], Some(nexts[i + 1]));
  }
}
