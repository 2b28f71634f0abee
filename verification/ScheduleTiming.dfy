/** When a schedule occurs: once, every so many minutes from an anchor, or on days of the week at a local time. Times
  * are milliseconds. A time zone is the list of its changes of offset from UTC.
  */
module ScheduleTiming {
  import opened Options

  type Time = int

  datatype Frequency = Daily | Weekdays | Weekly(weekday: nat)

  datatype Timing =
    | Once(at: Time)
    | Interval(anchor: Time, everyMinutes: nat)
    | Calendar(frequency: Frequency, hour: nat, minute: nat, zone: Zone)

  /** From `at` on, local time is this much ahead of UTC. */
  datatype Change = Change(at: Time, offset: int)

  /** The offset before the first change, and the changes, oldest first. */
  datatype Zone = Zone(first: int, changes: seq<Change>)

  const MINUTE: nat := 60_000
  const HOUR: int := 3_600_000
  const DAY: int := 86_400_000

  /** What the schema admits. */
  predicate WellFormed(t: Timing) {
    match t
    case Once(_) => true
    case Interval(_, every) => 1 <= every <= 525_600
    case Calendar(frequency, hour, minute, _) =>
        hour < 24 && minute < 60 && (frequency.Weekly? ==> frequency.weekday < 7)
  }

  // ---- occurrences ----

  function Period(t: Timing): nat
    requires t.Interval?
  {
    t.everyMinutes * 60_000
  }

  function Offset(zone: Zone, at: Time): int
    decreases |zone.changes|
  {
    if zone.changes == [] then zone.first
    else
      var last := zone.changes[|zone.changes| - 1];
      if last.at <= at then last.offset else Offset(zone.(changes := zone.changes[..|zone.changes| - 1]), at)
  }

  /** The wall clock at this time, as if its reading were UTC. */
  function Local(zone: Zone, at: Time): int {
    at + Offset(zone, at)
  }

  /** The local day on which a time falls, counted from 1 January 1970. */
  function LocalDay(zone: Zone, at: Time): int {
    Local(zone, at) / DAY
  }

  /** The time at which the wall clock of a day shows an hour and a minute, found in two passes. When it never does, the
    * hour after is looked up instead.
    */
  function FromWallClock(zone: Zone, day: int, hour: nat, minute: nat): Time {
    var naive := day * DAY + hour * HOUR + minute * MINUTE;
    var resolved := naive - Offset(zone, naive - Offset(zone, naive));
    if Local(zone, resolved) % DAY / MINUTE == hour * 60 + minute then resolved
    else
      var shifted := naive + HOUR;
      shifted - Offset(zone, shifted - Offset(zone, shifted))
  }

  /** The scheduled time of a local day. */
  function OnDay(t: Timing, day: int): Time
    requires t.Calendar?
  {
    FromWallClock(t.zone, day, t.hour, t.minute)
  }

  /** Day 0 was a Thursday; Sunday is 0. */
  function Weekday(day: int): int {
    (day + 4) % 7
  }

  /** 4 January 1970, day 3, was a Sunday, and the day is counted from the last Sunday. */
  lemma WeekdayCountsFromSunday(day: int)
    ensures 0 <= Weekday(day) <= 6 && exists weeks: int :: day - Weekday(day) == 3 + weeks * 7
  {
    var weeks := (day + 4) / 7 - 1;
    assert day - Weekday(day) == 3 + weeks * 7;
  }

  predicate FallsOn(frequency: Frequency, day: int) {
    match frequency
    case Daily => true
    case Weekdays => Weekday(day) != 0 && Weekday(day) != 6
    case Weekly(weekday) => Weekday(day) == weekday
  }

  /** The scheduled time of the day falls on a day of the week that the schedule names. */
  predicate Matches(t: Timing, day: int)
    requires t.Calendar?
  {
    FallsOn(t.frequency, LocalDay(t.zone, OnDay(t, day)))
  }

  ghost predicate IsOccurrence(t: Timing, at: Time) {
    match t
    case Once(only) => at == only
    case Interval(anchor, _) => exists n: nat :: IsNth(t, n, at)
    case Calendar(_, _, _, _) => exists day :: Matches(t, day) && OnDay(t, day) == at
  }

  predicate IsNth(t: Timing, n: nat, at: Time)
    requires t.Interval?
  {
    at == t.anchor + n * Period(t)
  }

  // ---- the next and the latest occurrence ----

  const HORIZON: nat := 14

  /** The first day from `day` to `last` on which the schedule falls and whose scheduled time lies after `after`. */
  function FirstDay(t: Timing, after: Time, day: int, last: int): Option<int>
    requires t.Calendar?
    decreases last + 1 - day
  {
    if day > last then None
    else if OnDay(t, day) > after && Matches(t, day) then Some(day)
    else FirstDay(t, after, day + 1, last)
  }

  function TimeOn(t: Timing, day: Option<int>): Option<Time>
    requires t.Calendar?
  {
    if day.Some? then Some(OnDay(t, day.value)) else None
  }

  /** The day that the search finds. */
  function Found(t: Timing, after: Time): Option<int>
    requires t.Calendar?
  {
    FirstDay(t, after, LocalDay(t.zone, after), LocalDay(t.zone, after) + HORIZON)
  }

  function NextRun(t: Timing, after: Time): Option<Time>
    requires WellFormed(t)
  {
    match t
    case Once(at) => if at > after then Some(at) else None
    case Interval(anchor, _) =>
      if anchor > after then Some(anchor)
      else Some(anchor + ((after - anchor) / Period(t) + 1) * Period(t))
    case Calendar(_, _, _, _) => TimeOn(t, Found(t, after))
  }

  method ComputeNextRun(t: Timing, after: Time) returns (next: Option<Time>)
    requires WellFormed(t)
    ensures next == NextRun(t, after)
  {
    if t.Once? {
      return if t.at > after then Some(t.at) else None;
    }
    if t.Interval? {
      if t.anchor > after {
        return Some(t.anchor);
      }
      var elapsed := (after - t.anchor) / Period(t);
      return Some(t.anchor + (elapsed + 1) * Period(t));
    }
    next := SearchForward(t, after, LocalDay(t.zone, after));
  }

  method SearchForward(t: Timing, after: Time, start: int) returns (next: Option<Time>)
    requires t.Calendar?
    ensures next == TimeOn(t, FirstDay(t, after, start, start + HORIZON))
  {
    ghost var found := FirstDay(t, after, start, start + HORIZON);
    for k := 0 to HORIZON + 1
      invariant found == FirstDay(t, after, start + k, start + HORIZON)
    {
      var candidate, matches := Candidate(t, start + k);
      if candidate > after && matches {
        assert found == Some(start + k);
        return Some(candidate);
      }
      assert found == FirstDay(t, after, start + k + 1, start + HORIZON);
    }
    next := None;
  }

  /** The scheduled time of a day, and whether its day of the week is one of the schedule's. */
  method Candidate(t: Timing, day: int) returns (at: Time, matches: bool)
    requires t.Calendar?
    ensures at == OnDay(t, day) && matches == Matches(t, day)
  {
    at := OnDay(t, day);
    var weekday := Weekday(LocalDay(t.zone, at));
    if t.frequency.Weekdays? && (weekday == 0 || weekday == 6) {
      return at, false;
    }
    if t.frequency.Weekly? && weekday != t.frequency.weekday {
      return at, false;
    }
    matches := true;
  }

  /** The last day from `day` back to `first` on which the schedule falls and whose scheduled time is not after `at`. */
  function LastDay(t: Timing, at: Time, day: int, first: int): Option<int>
    requires t.Calendar?
    decreases day + 1 - first
  {
    if day < first then None
    else if OnDay(t, day) <= at && Matches(t, day) then Some(day)
    else LastDay(t, at, day - 1, first)
  }

  function FoundBack(t: Timing, at: Time): Option<int>
    requires t.Calendar?
  {
    LastDay(t, at, LocalDay(t.zone, at), LocalDay(t.zone, at) - HORIZON)
  }

  function LatestRun(t: Timing, at: Time): Option<Time>
    requires WellFormed(t)
  {
    match t
    case Once(occurrence) => if occurrence <= at then Some(occurrence) else None
    case Interval(anchor, _) =>
      if anchor > at then None
      else Some(anchor + (at - anchor) / Period(t) * Period(t))
    case Calendar(_, _, _, _) => TimeOn(t, FoundBack(t, at))
  }

  method ComputeLatestRun(t: Timing, at: Time) returns (latest: Option<Time>)
    requires WellFormed(t)
    ensures latest == LatestRun(t, at)
  {
    if t.Once? {
      return if t.at <= at then Some(t.at) else None;
    }
    if t.Interval? {
      if t.anchor > at {
        return None;
      }
      return Some(t.anchor + (at - t.anchor) / Period(t) * Period(t));
    }
    latest := SearchBackward(t, at, LocalDay(t.zone, at));
  }

  method SearchBackward(t: Timing, at: Time, start: int) returns (latest: Option<Time>)
    requires t.Calendar?
    ensures latest == TimeOn(t, LastDay(t, at, start, start - HORIZON))
  {
    ghost var found := LastDay(t, at, start, start - HORIZON);
    for k := 0 to HORIZON + 1
      invariant found == LastDay(t, at, start - k, start - HORIZON)
    {
      var candidate, matches := Candidate(t, start - k);
      if candidate <= at && matches {
        assert found == Some(start - k);
        return Some(candidate);
      }
      assert found == LastDay(t, at, start - k - 1, start - HORIZON);
    }
    latest := None;
  }

  // ---- arithmetic of periods and days ----

  lemma MultiplesAround(x: nat, p: nat, n: nat)
    requires 0 < p
    ensures x / p * p <= x < (x / p + 1) * p
    ensures n * p <= x <==> n <= x / p
  {
    var q := x / p;
    assert x == q * p + x % p;
    assert (q + 1) * p == q * p + p;
    if n <= q {
      MultiplyKeepsOrder(n, q, p);
    } else {
      MultiplyKeepsOrder(q + 1, n, p);
    }
  }

  lemma MultiplyKeepsOrder(a: nat, b: nat, p: nat)
    requires a <= b
    ensures a * p <= b * p
  {
  }

  // ---- zones ----

  /** The wall clock never goes back across midnight, and every day has its scheduled time on that day. */
  ghost predicate Regular(t: Timing)
    requires t.Calendar?
  {
    && (forall a, b :: a <= b ==> LocalDay(t.zone, a) <= LocalDay(t.zone, b))
    && (forall day :: LocalDay(t.zone, OnDay(t, day)) == day)
  }

  /** A well-formed schedule, of the calendar in a zone that is regular for it. */
  ghost predicate Valid(t: Timing) {
    WellFormed(t) && (t.Calendar? ==> Regular(t))
  }

  /** Two offsets of the zone differ by at most an hour. */
  ghost predicate Mild(zone: Zone) {
    forall a, b :: Offset(zone, a) <= Offset(zone, b) + HOUR
  }

  /** The change does not turn the wall clock back to the day before. */
  predicate KeepsDay(before: int, c: Change) {
    (c.at - 1 + before) / DAY <= (c.at + c.offset) / DAY
  }

  /** The changes are in order, and none turns the wall clock back to the day before. */
  predicate KeepsDays(zone: Zone)
    decreases |zone.changes|
  {
    zone.changes == [] ||
    var k := |zone.changes| - 1;
    && (k > 0 ==> zone.changes[k - 1].at < zone.changes[k].at)
    && KeepsDay(OffsetBefore(zone), zone.changes[k])
    && KeepsDays(Earlier(zone))
  }

  /** The offset before the last change. */
  function OffsetBefore(zone: Zone): int
    requires zone.changes != []
  {
    if |zone.changes| == 1 then zone.first else zone.changes[|zone.changes| - 2].offset
  }

  function Earlier(zone: Zone): Zone
    requires zone.changes != []
  {
    zone.(changes := zone.changes[..|zone.changes| - 1])
  }

  lemma LocalDaySplits(zone: Zone, at: Time)
    requires zone.changes != []
    ensures var last := zone.changes[|zone.changes| - 1];
            LocalDay(zone, at) == if last.at <= at then (at + last.offset) / DAY else LocalDay(Earlier(zone), at)
  {
  }

  /** Just before its last change a zone has the offset of the change before. */
  lemma JustBefore(zone: Zone)
    requires KeepsDays(zone) && zone.changes != []
    ensures var k := |zone.changes| - 1;
            LocalDay(Earlier(zone), zone.changes[k].at - 1) == (zone.changes[k].at - 1 + OffsetBefore(zone)) / DAY
  {
    var before := Earlier(zone);
    if before.changes != [] {
      LocalDaySplits(before, zone.changes[|zone.changes| - 1].at - 1);
    }
  }

  lemma {:induction false} DaysNeverGoBack(zone: Zone, a: Time, b: Time)
    requires KeepsDays(zone) && a <= b
    ensures LocalDay(zone, a) <= LocalDay(zone, b)
    decreases |zone.changes|
  {
    if zone.changes == [] {
      DividesInOrder(a + zone.first, b + zone.first);
    } else {
      var last := zone.changes[|zone.changes| - 1];
      LocalDaySplits(zone, a);
      LocalDaySplits(zone, b);
      if b < last.at {
        DaysNeverGoBack(Earlier(zone), a, b);
      } else if a < last.at {
        DaysNeverGoBack(Earlier(zone), a, last.at - 1);
        JustBefore(zone);
        DividesInOrder(last.at + last.offset, b + last.offset);
      } else {
        DividesInOrder(a + last.offset, b + last.offset);
      }
    }
  }

  lemma DividesInOrder(a: int, b: int)
    requires a <= b
    ensures a / DAY <= b / DAY
  {
  }

  lemma DayOf(day: int, within: int)
    requires -DAY <= within < DAY
    ensures within >= 0 ==> (day * DAY + within) / DAY == day && (day * DAY + within) % DAY == within
    ensures within < 0 ==> (day * DAY + within) % DAY == within + DAY
  {
    if within < 0 {
      assert day * DAY + within == (day - 1) * DAY + (within + DAY);
    }
  }

  /** When the clock shows the scheduled time it shows it on that day, and an hour later it is still that day unless the
    * schedule is for the last two hours.
    */
  lemma MildZonesLand(t: Timing, day: int)
    requires WellFormed(t) && t.Calendar? && Mild(t.zone) && t.hour < 22
    ensures LocalDay(t.zone, OnDay(t, day)) == day
  {
    var within := t.hour * HOUR + t.minute * MINUTE;
    var naive := day * DAY + within;
    var zone, at := t.zone, OnDay(t, day);
    var resolved := naive - Offset(zone, naive - Offset(zone, naive));
    assert 0 <= within < 22 * HOUR;
    if at == resolved && Local(zone, resolved) % DAY / MINUTE == t.hour * 60 + t.minute {
      var turned := Offset(zone, resolved) - Offset(zone, naive - Offset(zone, naive));
      assert -HOUR <= turned <= HOUR && Local(zone, resolved) == day * DAY + (within + turned);
      DayOf(day, within + turned);
    } else {
      var shifted := naive + HOUR;
      var turned := Offset(zone, at) - Offset(zone, shifted - Offset(zone, shifted));
      assert -HOUR <= turned <= HOUR && Local(zone, at) == day * DAY + (within + HOUR + turned);
      DayOf(day, within + HOUR + turned);
    }
  }

  /** Zones with summer time as it is common - an hour, and not turned back across midnight - are regular for every
    * schedule before ten in the evening, and so is a zone without any change for every schedule.
    */
  lemma CommonZonesAreRegular(t: Timing)
    requires WellFormed(t) && t.Calendar?
    requires (t.zone.changes == []) || (KeepsDays(t.zone) && Mild(t.zone) && t.hour < 22)
    ensures Valid(t)
  {
    forall a, b | a <= b ensures LocalDay(t.zone, a) <= LocalDay(t.zone, b) {
      DaysNeverGoBack(t.zone, a, b);
    }
    forall day ensures LocalDay(t.zone, OnDay(t, day)) == day {
      if t.zone.changes == [] {
        SteadyZonesLand(t, day);
      } else {
        MildZonesLand(t, day);
      }
    }
  }

  lemma SteadyZonesLand(t: Timing, day: int)
    requires WellFormed(t) && t.Calendar? && t.zone.changes == []
    ensures LocalDay(t.zone, OnDay(t, day)) == day
  {
    var within := t.hour * HOUR + t.minute * MINUTE;
    DayOf(day, within);
    assert within / MINUTE == t.hour * 60 + t.minute;
  }

  /** Scheduled times of earlier local days lie before a time, those of later ones behind it. */
  lemma DaysAround(t: Timing, at: Time, day: int)
    requires t.Calendar? && Regular(t)
    ensures day < LocalDay(t.zone, at) ==> OnDay(t, day) < at
    ensures LocalDay(t.zone, at) < day ==> at < OnDay(t, day)
  {
    assert LocalDay(t.zone, OnDay(t, day)) == day;
  }

  lemma DaysInOrder(t: Timing, a: int, b: int)
    requires t.Calendar? && Regular(t)
    ensures OnDay(t, a) <= OnDay(t, b) <==> a <= b
  {
    assert LocalDay(t.zone, OnDay(t, a)) == a && LocalDay(t.zone, OnDay(t, b)) == b;
  }

  /** Every seven days in a row hold one on which the schedule falls. */
  lemma OneDayAWeek(frequency: Frequency, from: int) returns (day: int)
    requires frequency.Weekly? ==> frequency.weekday < 7
    ensures from <= day < from + 7 && FallsOn(frequency, day)
  {
    var w := Weekday(from);
    match frequency
    case Daily => day := from;
    case Weekdays => day := if w == 0 then from + 1 else if w == 6 then from + 2 else from;
    case Weekly(weekday) =>
      day := from + if w <= weekday then weekday - w else weekday + 7 - w;
      WeekdayAdds(from, day - from);
  }

  lemma WeekdayAdds(day: int, n: nat)
    ensures Weekday(day + n) == (Weekday(day) + n) % 7
  {
  }

  // ---- the laws ----

  /** The search finds the first matching day, if there is one up to the last. */
  lemma {:induction false} FirstDayIsFirst(t: Timing, after: Time, day: int, last: int)
    requires t.Calendar?
    ensures var found := FirstDay(t, after, day, last);
            && (found.Some? ==>
               day <= found.value <= last && Matches(t, found.value) && after < OnDay(t, found.value))
            && forall d :: day <= d <= last && (found.Some? ==> d < found.value) && Matches(t, d) ==>
                 OnDay(t, d) <= after
    decreases last + 1 - day
  {
    if day <= last && !(OnDay(t, day) > after && Matches(t, day)) {
      FirstDayIsFirst(t, after, day + 1, last);
    }
  }

  /** The search never runs out. */
  lemma SearchFinds(t: Timing, after: Time)
    requires Valid(t) && t.Calendar?
    ensures Found(t, after).Some?
    ensures Matches(t, Found(t, after).value) && after < OnDay(t, Found(t, after).value)
  {
    var today := LocalDay(t.zone, after);
    FirstDayIsFirst(t, after, today, today + HORIZON);
    var some := OneDayAWeek(t.frequency, today + 1);
    DaysAround(t, after, some);
    MatchesThatDay(t, some);
  }

  lemma MatchesThatDay(t: Timing, day: int)
    requires t.Calendar? && Regular(t)
    ensures Matches(t, day) <==> FallsOn(t.frequency, day)
  {
    assert LocalDay(t.zone, OnDay(t, day)) == day;
  }

  lemma FoundComesFirst(t: Timing, after: Time, day: int)
    requires Valid(t) && t.Calendar? && Matches(t, day) && after < OnDay(t, day) && Found(t, after).Some?
    ensures OnDay(t, Found(t, after).value) <= OnDay(t, day)
  {
    var today := LocalDay(t.zone, after);
    FirstDayIsFirst(t, after, today, today + HORIZON);
    DaysAround(t, after, day);
    DaysInOrder(t, Found(t, after).value, day);
  }

  lemma CalendarNextIsEarliest(t: Timing, after: Time)
    requires Valid(t) && t.Calendar?
    ensures NextRun(t, after).Some? && IsOccurrence(t, NextRun(t, after).value) && after < NextRun(t, after).value
    ensures forall day :: Matches(t, day) && after < OnDay(t, day) ==> NextRun(t, after).value <= OnDay(t, day)
  {
    SearchFinds(t, after);
    assert NextRun(t, after) == Some(OnDay(t, Found(t, after).value));
    forall day | Matches(t, day) && after < OnDay(t, day) ensures NextRun(t, after).value <= OnDay(t, day) {
      FoundComesFirst(t, after, day);
    }
  }

  /** `NextRun` answers the earliest occurrence after the given time, and nothing only when there is none. */
  lemma NextRunIsEarliest(t: Timing, after: Time)
    requires Valid(t)
    ensures NextRun(t, after).Some? ==> IsOccurrence(t, NextRun(t, after).value) && after < NextRun(t, after).value
    ensures forall o :: IsOccurrence(t, o) && after < o ==> NextRun(t, after).Some? && NextRun(t, after).value <= o
  {
    match t
    case Once(_) =>
    case Interval(_, _) => IntervalNextIsEarliest(t, after);
    case Calendar(_, _, _, _) => CalendarNextIsEarliest(t, after);
  }

  lemma IntervalNextIsEarliest(t: Timing, after: Time)
    requires WellFormed(t) && t.Interval?
    ensures NextRun(t, after).Some? && IsOccurrence(t, NextRun(t, after).value) && after < NextRun(t, after).value
    ensures forall o :: IsOccurrence(t, o) && after < o ==> NextRun(t, after).value <= o
  {
    var p := Period(t);
    if t.anchor > after {
      assert IsNth(t, 0, t.anchor);
    } else {
      var x := after - t.anchor;
      MultiplesAround(x, p, 0);
      assert IsNth(t, x / p + 1, NextRun(t, after).value);
    }
    forall o | IsOccurrence(t, o) && after < o ensures NextRun(t, after).value <= o {
      var n: nat :| IsNth(t, n, o);
      if t.anchor > after {
        MultiplyKeepsOrder(0, n, p);
      } else {
        MultiplesAround(after - t.anchor, p, n);
        MultiplyKeepsOrder((after - t.anchor) / p + 1, n, p);
      }
    }
  }

  /** The search finds the last matching day, if there is one back to the first. */
  lemma {:induction false} LastDayIsLast(t: Timing, at: Time, day: int, first: int)
    requires t.Calendar?
    ensures var found := LastDay(t, at, day, first);
            && (found.Some? ==>
               first <= found.value <= day && Matches(t, found.value) && OnDay(t, found.value) <= at)
            && forall d :: first <= d <= day && (found.Some? ==> found.value < d) && Matches(t, d) ==>
                 at < OnDay(t, d)
    decreases day + 1 - first
  {
    if first <= day && !(OnDay(t, day) <= at && Matches(t, day)) {
      LastDayIsLast(t, at, day - 1, first);
    }
  }

  lemma SearchFindsBack(t: Timing, at: Time)
    requires Valid(t) && t.Calendar?
    ensures FoundBack(t, at).Some?
    ensures Matches(t, FoundBack(t, at).value) && OnDay(t, FoundBack(t, at).value) <= at
  {
    var today := LocalDay(t.zone, at);
    LastDayIsLast(t, at, today, today - HORIZON);
    var some := OneDayAWeek(t.frequency, today - 7);
    DaysAround(t, at, some);
    MatchesThatDay(t, some);
  }

  lemma FoundBackComesLast(t: Timing, at: Time, day: int)
    requires Valid(t) && t.Calendar? && Matches(t, day) && OnDay(t, day) <= at && FoundBack(t, at).Some?
    ensures OnDay(t, day) <= OnDay(t, FoundBack(t, at).value)
  {
    var today := LocalDay(t.zone, at);
    LastDayIsLast(t, at, today, today - HORIZON);
    DaysAround(t, at, day);
    DaysInOrder(t, day, FoundBack(t, at).value);
  }

  lemma CalendarLatestIsLatest(t: Timing, at: Time)
    requires Valid(t) && t.Calendar?
    ensures LatestRun(t, at).Some? && IsOccurrence(t, LatestRun(t, at).value) && LatestRun(t, at).value <= at
    ensures forall day :: Matches(t, day) && OnDay(t, day) <= at ==> OnDay(t, day) <= LatestRun(t, at).value
  {
    SearchFindsBack(t, at);
    assert LatestRun(t, at) == Some(OnDay(t, FoundBack(t, at).value));
    forall day | Matches(t, day) && OnDay(t, day) <= at ensures OnDay(t, day) <= LatestRun(t, at).value {
      FoundBackComesLast(t, at, day);
    }
  }

  /** `LatestRun` answers the latest occurrence up to the given time, and nothing only when there is none. */
  lemma LatestRunIsLatest(t: Timing, at: Time)
    requires Valid(t)
    ensures LatestRun(t, at).Some? ==> IsOccurrence(t, LatestRun(t, at).value) && LatestRun(t, at).value <= at
    ensures forall o :: IsOccurrence(t, o) && o <= at ==> LatestRun(t, at).Some? && o <= LatestRun(t, at).value
  {
    match t
    case Once(_) =>
    case Interval(_, _) => IntervalLatestIsLatest(t, at);
    case Calendar(_, _, _, _) => CalendarLatestIsLatest(t, at);
  }

  lemma IntervalLatestIsLatest(t: Timing, at: Time)
    requires WellFormed(t) && t.Interval?
    ensures LatestRun(t, at).Some? ==> IsOccurrence(t, LatestRun(t, at).value) && LatestRun(t, at).value <= at
    ensures forall o :: IsOccurrence(t, o) && o <= at ==> LatestRun(t, at).Some? && o <= LatestRun(t, at).value
  {
    var p := Period(t);
    if t.anchor <= at {
      MultiplesAround(at - t.anchor, p, 0);
      assert IsNth(t, (at - t.anchor) / p, LatestRun(t, at).value);
    }
    forall o | IsOccurrence(t, o) && o <= at
      ensures LatestRun(t, at).Some? && o <= LatestRun(t, at).value
    {
      var n: nat :| IsNth(t, n, o);
      MultiplyKeepsOrder(0, n, p);
      MultiplesAround(at - t.anchor, p, n);
      MultiplyKeepsOrder(n, (at - t.anchor) / p, p);
    }
  }

  // ---- zones that are not regular ----

  /** Every day has its scheduled time on that day. */
  ghost predicate Lands(t: Timing)
    requires t.Calendar?
  {
    forall day :: LocalDay(t.zone, OnDay(t, day)) == day
  }

  ghost predicate NeverRunsOut(t: Timing)
    requires WellFormed(t)
  {
    forall after :: NextRun(t, after).Some?
  }

  /** The next run is the earliest scheduled time of all after any given one. */
  ghost predicate AlwaysEarliest(t: Timing)
    requires WellFormed(t) && t.Calendar?
  {
    forall after, day :: Matches(t, day) && after < OnDay(t, day) ==>
      NextRun(t, after).Some? && NextRun(t, after).value <= OnDay(t, day)
  }

  /** Nobody whose wall clock has reached a local day still has a scheduled time of an earlier day ahead. */
  ghost predicate NoStraggler(t: Timing)
    requires t.Calendar?
  {
    forall after, day :: Matches(t, day) && after < OnDay(t, day) ==> LocalDay(t.zone, after) <= day
  }

  lemma FoundIsLaterDay(t: Timing, after: Time)
    requires WellFormed(t) && t.Calendar? && NextRun(t, after).Some?
    ensures Found(t, after).Some?
    ensures var d := Found(t, after).value;
            LocalDay(t.zone, after) <= d && Matches(t, d) && after < OnDay(t, d)
                && NextRun(t, after) == Some(OnDay(t, d))
  {
    FirstDayIsFirst(t, after, LocalDay(t.zone, after), LocalDay(t.zone, after) + HORIZON);
  }

  /** A straggler would have to come after ever later days whose scheduled times come before it. */
  lemma {:induction false} EarliestHasNoStraggler(t: Timing, after: Time, day: int)
    requires WellFormed(t) && t.Calendar? && Lands(t) && NeverRunsOut(t) && AlwaysEarliest(t)
    requires Matches(t, day) && after < OnDay(t, day)
    ensures LocalDay(t.zone, after) <= day
    decreases OnDay(t, day) - after
  {
    FoundIsLaterDay(t, after);
    var found := Found(t, after).value;
    assert NextRun(t, after).value <= OnDay(t, day);
    assert LocalDay(t.zone, OnDay(t, found)) == found && LocalDay(t.zone, OnDay(t, day)) == day;
    if found != day {
      EarliestHasNoStraggler(t, OnDay(t, found), day);
    }
  }

  lemma NoStragglerIsEarliest(t: Timing, after: Time, day: int)
    requires WellFormed(t) && t.Calendar? && Lands(t) && NoStraggler(t)
    requires NextRun(t, after).Some? && Matches(t, day) && after < OnDay(t, day)
    ensures NextRun(t, after).value <= OnDay(t, day)
  {
    FoundIsLaterDay(t, after);
    var today, found := LocalDay(t.zone, after), Found(t, after).value;
    FirstDayIsFirst(t, after, today, today + HORIZON);
    assert today <= day;
    assert LocalDay(t.zone, OnDay(t, found)) == found && LocalDay(t.zone, OnDay(t, day)) == day;
    var zone, at := t.zone, OnDay(t, day);
    assert at < OnDay(t, found) ==> LocalDay(zone, at) <= found;
  }

  /** In any zone in which scheduled times fall on their days and the search does not run out, the next run is the
    * earliest scheduled time always exactly if there are no stragglers.
    */
  lemma NextRunIsEarliestExactly(t: Timing)
    requires WellFormed(t) && t.Calendar? && Lands(t) && NeverRunsOut(t)
    ensures AlwaysEarliest(t) <==> NoStraggler(t)
  {
    if AlwaysEarliest(t) {
      forall after, day | Matches(t, day) && after < OnDay(t, day) ensures LocalDay(t.zone, after) <= day {
        EarliestHasNoStraggler(t, after, day);
      }
    }
    if NoStraggler(t) {
      forall after, day | Matches(t, day) && after < OnDay(t, day)
        ensures NextRun(t, after).Some? && NextRun(t, after).value <= OnDay(t, day)
      {
        NoStragglerIsEarliest(t, after, day);
      }
    }
  }

  /** Ten hours ahead of UTC until half past midnight of day 1, when the clock is turned back an hour. */
  function TurnedBack(): Timing {
    Calendar(Daily, 23, 45, Zone(10 * HOUR, [Change(DAY + 30 * MINUTE - 10 * HOUR, 9 * HOUR)]))
  }

  lemma TurnedBackOffset(at: Time)
    ensures Offset(TurnedBack().zone, at) == if 14 * HOUR + 30 * MINUTE <= at then 9 * HOUR else 10 * HOUR
  {
    assert TurnedBack().zone.changes[..0] == [];
  }

  lemma TurnedBackDays(day: int)
    requires 0 <= day
    ensures OnDay(TurnedBack(), day) == day * DAY + 14 * HOUR + 45 * MINUTE
  {
    var naive := day * DAY + 23 * HOUR + 45 * MINUTE;
    TurnedBackOffset(naive);
    TurnedBackOffset(naive - 9 * HOUR);
    DayOf(day, 23 * HOUR + 45 * MINUTE);
  }

  /** A clock turned back across midnight: at a quarter past midnight the coming 23:45 of the old day is passed over. */
  lemma TurnedBackClockMissesRun()
    ensures var after := 14 * HOUR + 15 * MINUTE;
            && IsOccurrence(TurnedBack(), 14 * HOUR + 45 * MINUTE) && after < 14 * HOUR + 45 * MINUTE
            && NextRun(TurnedBack(), after) == Some(DAY + 14 * HOUR + 45 * MINUTE)
  {
    var t, after := TurnedBack(), 14 * HOUR + 15 * MINUTE;
    TurnedBackOffset(after);
    TurnedBackDays(0);
    TurnedBackDays(1);
    assert Matches(t, 0) && OnDay(t, 0) == 14 * HOUR + 45 * MINUTE;
    assert LocalDay(t.zone, after) == 1;
    assert Matches(t, 1) && after < OnDay(t, 1);
    assert FirstDay(t, after, 1, 1 + HORIZON) == Some(1);
  }
}
