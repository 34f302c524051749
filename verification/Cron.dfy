/** Cron schedules and the registry of due jobs.

    Instants are whole seconds of UTC and minutes are numbered from the epoch. A `Field`
    is a cron field after its text has been read. The calendar date of a day number is a
    parameter; minute, hour and weekday are computed. */
module Cron {
  import opened Wrappers

  datatype Field = Star | Every(step: int) | Number(n: int) | OneOf(parts: seq<Field>)

  datatype Date = Date(day: int, month: int)
  datatype Calendar = Calendar(dateOf: int -> Date)
  datatype Schedule = Schedule(minute: Field, hour: Field, day: Field, month: Field, weekday: Field)

  const MINUTES_PER_DAY: int := 1440
  const SEARCH_DAYS: int := 370

  /** `weekday` is the cron weekday for the weekday field and absent for the others. A step
      always tests `current`, which for the weekday field is the day of the month. */
  predicate FieldMatches(field: Field, current: int, weekday: Option<int>) {
    match field
    case Star => true
    case Every(step) => step > 0 && current % step == 0
    case Number(n) => if weekday.Some? then weekday.value == n else current == n
    case OneOf(parts) => exists i :: 0 <= i < |parts| && FieldMatches(parts[i], current, weekday)
  }

  /** Day 0 of the epoch was a Thursday, cron weekday 4. */
  function CronWeekday(m: int): int {
    (m / MINUTES_PER_DAY + 4) % 7
  }

  /** All five fields are conjoined. */
  predicate Matches(cal: Calendar, s: Schedule, m: int) {
    var date := cal.dateOf(m / MINUTES_PER_DAY);
    && FieldMatches(s.minute, m % 60, None)
    && FieldMatches(s.hour, m / 60 % 24, None)
    && FieldMatches(s.day, date.day, None)
    && FieldMatches(s.month, date.month, None)
    && FieldMatches(s.weekday, date.day, Some(CronWeekday(m)))
  }

  function FirstCandidate(base: int): int {
    base / 60 + 1
  }

  function LastCandidate(base: int): int {
    FirstCandidate(base) + SEARCH_DAYS * MINUTES_PER_DAY
  }

  /** The least matching minute strictly after `base`, if the search window has one. */
  ghost predicate IsNext(cal: Calendar, s: Schedule, base: int, r: Option<int>) {
    match r
    case Some(m) => Matches(cal, s, m) && base < 60 * m && m <= LastCandidate(base)
                    && forall k :: base < 60 * k && Matches(cal, s, k) ==> m <= k
    case None => forall k :: base < 60 * k && k <= LastCandidate(base) ==> !Matches(cal, s, k)
  }

  lemma NextIsUnique(cal: Calendar, s: Schedule, base: int, a: Option<int>, b: Option<int>)
    requires IsNext(cal, s, base, a) && IsNext(cal, s, base, b)
    ensures a == b
  {
  }

  /** There is none exactly when no minute of the next 370 days matches. */
  lemma NextFailsExactlyWhen(cal: Calendar, s: Schedule, base: int, r: Option<int>)
    requires IsNext(cal, s, base, r)
    ensures r.None? <==> forall m :: base < 60 * m && m <= base / 60 + 1 + 370 * 24 * 60 ==> !Matches(cal, s, m)
  {
  }

  /** A list matches when one of its parts does. */
  lemma ListMatchesExactlyWhen(parts: seq<Field>, current: int, weekday: Option<int>)
    ensures FieldMatches(OneOf(parts), current, weekday) <==>
            exists part :: part in parts && FieldMatches(part, current, weekday)
  {
    if FieldMatches(OneOf(parts), current, weekday) {
      var i :| 0 <= i < |parts| && FieldMatches(parts[i], current, weekday);
      assert parts[i] in parts;
    }
  }

  /** The weekday is the same all day, moves on by one each day and was Thursday, 4, on
      29 February 2024. */
  lemma WeekdaysCycle(day: int, minute: int)
    requires 0 <= minute < 24 * 60
    ensures 0 <= CronWeekday(24 * 60 * day + minute) < 7
    ensures CronWeekday(24 * 60 * day + minute) == CronWeekday(24 * 60 * day)
    ensures CronWeekday(24 * 60 * (day + 1)) ==
            (if CronWeekday(24 * 60 * day) == 6 then 0 else CronWeekday(24 * 60 * day) + 1)
    ensures CronWeekday(24 * 60 * LEAP_DAY_2024) == 4
  {
    assert (24 * 60 * day + minute) / MINUTES_PER_DAY == day;
    assert (24 * 60 * (day + 1)) / MINUTES_PER_DAY == day + 1;
  }

  /** A number in the weekday field selects the minutes of that weekday, Sunday being 0; with
      a 7 a schedule never fires. */
  lemma WeekdayNumberExactlyWhen(cal: Calendar, s: Schedule, n: int, m: int)
    requires s.weekday == Number(n)
    ensures Matches(cal, s, m) <==> CronWeekday(m) == n && Matches(cal, s.(weekday := Star), m)
    ensures n == 7 ==> IsNext(cal, s, 60 * m, None)
  {
  }

  method NextAfter(cal: Calendar, s: Schedule, base: int) returns (r: Option<int>)
    ensures IsNext(cal, s, base, r)
  {
    var candidate := base / 60 + 1;
    var deadline := candidate + SEARCH_DAYS * MINUTES_PER_DAY;
    while candidate <= deadline
      invariant FirstCandidate(base) <= candidate <= deadline + 1
      invariant forall k :: FirstCandidate(base) <= k < candidate ==> !Matches(cal, s, k)
    {
      if Matches(cal, s, candidate) {
        return Some(candidate);
      }
      candidate := candidate + 1;
    }
    return None;
  }

  // ---------------------------------------------------------- schedules that always fire

  /** Day, month and weekday are unrestricted. */
  predicate Daily(s: Schedule) {
    s.day == Star && s.month == Star && s.weekday == Star
  }

  predicate Satisfiable(field: Field, limit: int) {
    exists v :: 0 <= v < limit && FieldMatches(field, v, None)
  }

  /** Every time of day comes round within a day of `first`, every minute within an hour. */
  lemma NextTimeOfDay(first: int, hh: int, mm: int) returns (m: int)
    requires 0 <= hh < 24 && 0 <= mm < 60
    ensures first <= m < first + MINUTES_PER_DAY && m % 60 == mm && m / 60 % 24 == hh
  {
    var q := -((60 * hh + mm - first) / 1440);
    m := 1440 * q + 60 * hh + mm;
    assert m == 60 * (24 * q + hh) + mm;
    assert m / 60 == 24 * q + hh;
  }

  lemma NextMinuteOfHour(first: int, mm: int) returns (m: int)
    requires 0 <= mm < 60
    ensures first <= m < first + 60 && m % 60 == mm
  {
    m := first + (mm - first) % 60;
  }

  /** A daily schedule finds its next minute within a day, within an hour when the hour is
      free too, and it fails exactly when its minute or its hour can never match. */
  lemma DailyFiresWithinADay(cal: Calendar, s: Schedule, base: int, r: Option<int>)
    requires Daily(s) && IsNext(cal, s, base, r)
    ensures r.Some? <==> Satisfiable(s.minute, 60) && Satisfiable(s.hour, 24)
    ensures r.Some? ==> r.value < FirstCandidate(base) + MINUTES_PER_DAY
    ensures r.Some? && s.hour == Star ==> r.value < FirstCandidate(base) + 60
  {
    if r.Some? {
      assert Satisfiable(s.minute, 60) by { assert 0 <= r.value % 60 < 60; }
      assert Satisfiable(s.hour, 24) by { assert 0 <= r.value / 60 % 24 < 24; }
    }
    if Satisfiable(s.minute, 60) && Satisfiable(s.hour, 24) {
      var mm :| 0 <= mm < 60 && FieldMatches(s.minute, mm, None);
      var hh :| 0 <= hh < 24 && FieldMatches(s.hour, hh, None);
      var m := NextTimeOfDay(FirstCandidate(base), hh, mm);
      assert Matches(cal, s, m);
      if s.hour == Star {
        var k := NextMinuteOfHour(FirstCandidate(base), mm);
        assert Matches(cal, s, k);
      }
    }
  }

  function Hourly(minute: Field): Schedule {
    Schedule(minute, Star, Star, Star, Star)
  }

  /** The schedules a registry starts from. */
  const DEFAULT_SCHEDULES: seq<Schedule> := [
    Hourly(Every(5)), Hourly(Every(5)), Hourly(Every(10)), Hourly(Number(0)), Hourly(Number(15)), Hourly(Number(0)),
    Hourly(Number(20)), Hourly(Number(25)), Hourly(Number(30)), Hourly(Number(35)), Hourly(Number(40)),
    Hourly(Number(45)), Hourly(Number(47)), Hourly(Number(50)),
    Schedule(Number(0), Number(2), Star, Star, Star), Hourly(Every(30)), Hourly(Number(55))]

  predicate AlwaysFires(s: Schedule) {
    Daily(s) && Satisfiable(s.minute, 60) && Satisfiable(s.hour, 24)
  }

  lemma DefaultsAlwaysFire(i: nat)
    requires i < |DEFAULT_SCHEDULES|
    ensures AlwaysFires(DEFAULT_SCHEDULES[i])
  {
    var s := DEFAULT_SCHEDULES[i];
    var v := match s.minute case Number(n) => n case _ => 0;
    assert FieldMatches(s.minute, v, None);
    assert FieldMatches(s.hour, 2, None);
  }

  /** A step in the weekday field tests the day of the month, so it selects the weekdays it
      names only when it is 1; every other step is wrong about some day. */
  lemma WeekdayStepReadsTheDay(step: int)
    requires step > 0
    ensures (forall day, weekday :: 1 <= day <= 31 && 0 <= weekday < 7 ==>
               (FieldMatches(Every(step), day, Some(weekday)) <==> weekday % step == 0))
            <==> step == 1
  {
    if step == 1 {
      forall day: int ensures day % step == 0 { }
    } else {
      assert 1 % step == 1 && 0 % step == 0;
      assert !FieldMatches(Every(step), 1, Some(0));
    }
  }

  // ------------------------------------------------------------------ the registry

  datatype Entry = Entry(schedule: Schedule, nextDue: int)
  /** The jobs to start, or the position of the job whose schedule has no next minute. */
  datatype Due = Ok(names: seq<Id>) | Failed(at: nat)

  /** The names, in registry order, of the entries due at `now`. */
  function Overdue(entries: map<Id, Entry>, names: seq<Id>, now: int): seq<Id> {
    if names == [] then []
    else
      var last := names[|names| - 1];
      Overdue(entries, names[..|names| - 1], now)
        + (if last in entries && entries[last].nextDue <= now then [last] else [])
  }

  /** `now` is the entry of `name` after its slot was served, or the same if it was not due. */
  ghost predicate Served(cal: Calendar, was: Entry, after: Entry, now: int) {
    if was.nextDue <= now
    then after.schedule == was.schedule && after.nextDue % 60 == 0
         && IsNext(cal, was.schedule, now, Some(after.nextDue / 60))
    else after == was
  }

  ghost predicate Distinct(names: seq<Id>) {
    forall i, j :: 0 <= i < j < |names| ==> names[i] != names[j]
  }

  /** The slot of an entry is a minute its schedule matches. */
  predicate Scheduled(cal: Calendar, entry: Entry) {
    entry.nextDue % 60 == 0 && Matches(cal, entry.schedule, entry.nextDue / 60)
  }

  ghost predicate ValidEntries(cal: Calendar, names: seq<Id>, entries: map<Id, Entry>) {
    && Distinct(names) && (forall name :: name in names <==> name in entries)
    && forall name :: name in entries ==> Scheduled(cal, entries[name])
  }

  function WithName(names: seq<Id>, place: nat, name: Id): seq<Id>
    requires place <= |names|
  {
    if name in names then names else names[..place] + [name] + names[place..]
  }

  lemma WithNameFacts(names: seq<Id>, place: nat, name: Id)
    requires place <= |names| && Distinct(names)
    ensures Distinct(WithName(names, place, name))
    ensures forall n :: n in WithName(names, place, name) <==> n == name || n in names
  {
    if name !in names {
      var all := WithName(names, place, name);
      forall i | 0 <= i < |all|
        ensures all[i] == if i < place then names[i] else if i == place then name else names[i - 1]
      {
      }
      forall i | 0 <= i < |names|
        ensures names[i] in all
      {
        assert names[i] == all[if i < place then i else i + 1];
      }
      assert all[place] == name;
    }
  }

  class JobRegistry {
    const cal: Calendar
    /** The job names in sorted order. */
    var names: seq<Id>
    var entries: map<Id, Entry>

    ghost predicate Valid()
      reads this
    {
      ValidEntries(cal, names, entries)
    }

    constructor (cal: Calendar)
      ensures Valid() && this.cal == cal && names == []
    {
      this.cal, names, entries := cal, [], map[];
    }

    /** Registers a job at the instant `at`, or fails because its schedule has no next minute.
        `place` is where a new name sorts. */
    method Register(name: Id, place: nat, schedule: Schedule, at: int) returns (ok: bool)
      requires Valid() && place <= |names|
      modifies this
      ensures Valid()
      ensures !ok ==> names == old(names) && entries == old(entries) && IsNext(cal, schedule, at, None)
      ensures ok ==> names == WithName(old(names), place, name)
                     && entries.Keys == old(entries).Keys + {name} && entries[name].schedule == schedule
                     && entries[name].nextDue % 60 == 0
                     && IsNext(cal, schedule, at, Some(entries[name].nextDue / 60))
      ensures ok ==> forall other :: other in old(entries) && other != name ==> entries[other] == old(entries)[other]
    {
      var next := NextAfter(cal, schedule, at);
      if next.None? {
        return false;
      }
      var entry := Entry(schedule, 60 * next.value);
      assert entry.nextDue / 60 == next.value;
      WithNameFacts(names, place, name);
      names := WithName(names, place, name);
      entries := entries[name := entry];
      return true;
    }

    /** On success every overdue job is returned once, in order, however many of its slots
        were missed, and nothing is due any more. If some schedule has no next minute the
        call fails at that job: the overdue jobs before it have been advanced although none
        is returned, and the rest are untouched. */
    method DueJobs(now: int) returns (due: Due)
      requires Valid()
      modifies this`entries
      ensures Valid()
      ensures due.Failed? <==> AnyStuck(cal, names, old(entries), now)
      ensures due.Ok? ==> AllFuture(entries, now)
      ensures due.Ok? ==> due.names == Overdue(old(entries), names, now)
      ensures due.Ok? ==> ServedUpTo(cal, names, old(entries), entries, now, |names|)
      ensures due.Failed? ==> && due.at < |names| && ServedUpTo(cal, names, old(entries), entries, now, due.at)
                              && Stuck(cal, old(entries)[names[due.at]], now)
    {
      due := ServeAll(now);
      StayValid(cal, names, old(entries), entries, now, if due.Ok? then |names| else due.at);
      if due.Ok? {
        AllServed(cal, names, old(entries), entries, now);
      }
    }

    /** The loop over the entries in sorted order. */
    method ServeAll(now: int) returns (due: Due)
      requires Distinct(names) && forall i :: 0 <= i < |names| ==> names[i] in entries
      modifies this`entries
      ensures due.Ok? ==> due.names == Overdue(old(entries), names, now)
      ensures due.Ok? ==> ServedUpTo(cal, names, old(entries), entries, now, |names|)
      ensures due.Failed? ==> && due.at < |names| && ServedUpTo(cal, names, old(entries), entries, now, due.at)
                              && Stuck(cal, old(entries)[names[due.at]], now)
    {
      var result: seq<Id> := [];
      for i := 0 to |names|
        invariant result == Overdue(old(entries), names[..i], now)
        invariant ServedUpTo(cal, names, old(entries), entries, now, i)
      {
        OverdueNext(old(entries), names, now, i);
        if entries[names[i]].nextDue <= now {
          result := result + [names[i]];
        }
        var stuck := ServeEntry(i, now, old(entries));
        if stuck {
          return Failed(i);
        }
      }
      assert names[..|names|] == names;
      return Ok(result);
    }

    /** One round of the loop: an entry that is due moves to its next minute. */
    method ServeEntry(i: nat, now: int, ghost was: map<Id, Entry>) returns (stuck: bool)
      requires i < |names| && Distinct(names) && ServedUpTo(cal, names, was, entries, now, i)
      modifies this`entries
      ensures stuck ==> entries == old(entries) && Stuck(cal, was[names[i]], now)
      ensures !stuck ==> ServedUpTo(cal, names, was, entries, now, i + 1)
    {
      var name := names[i];
      var entry := entries[name];
      if entry.nextDue <= now {
        var next := NextAfter(cal, entry.schedule, now);
        if next.None? {
          return true;
        }
        ServeNext(cal, names, was, entries, now, i, next.value);
        entries := entries[name := Entry(entry.schedule, 60 * next.value)];
      }
      return false;
    }
  }

  lemma OverdueNext(entries: map<Id, Entry>, names: seq<Id>, now: int, i: nat)
    requires i < |names|
    ensures Overdue(entries, names[..i + 1], now)
            == Overdue(entries, names[..i], now)
               + (if names[i] in entries && entries[names[i]].nextDue <= now then [names[i]] else [])
  {
    assert names[..i + 1][..i] == names[..i];
  }

  ghost predicate Stuck(cal: Calendar, entry: Entry, now: int) {
    entry.nextDue <= now && IsNext(cal, entry.schedule, now, None)
  }

  /** So with schedules like the defaults the registry never fails. */
  lemma AlwaysFiringIsNeverStuck(cal: Calendar, entry: Entry, now: int)
    requires AlwaysFires(entry.schedule)
    ensures !Stuck(cal, entry, now)
  {
    if Stuck(cal, entry, now) {
      DailyFiresWithinADay(cal, entry.schedule, now, None);
    }
  }

  /** The first `n` names have been served and the others not touched. */
  ghost predicate ServedUpTo(cal: Calendar, names: seq<Id>, was: map<Id, Entry>, after: map<Id, Entry>, now: int,
                             n: nat) {
    && was.Keys == after.Keys && (forall i :: 0 <= i < |names| ==> names[i] in was) && n <= |names|
    && (forall i :: 0 <= i < n ==> Served(cal, was[names[i]], after[names[i]], now))
    && (forall i :: n <= i < |names| ==> after[names[i]] == was[names[i]])
  }

  lemma ServeNext(cal: Calendar, names: seq<Id>, was: map<Id, Entry>, entries: map<Id, Entry>, now: int, n: nat, m: int)
    requires ServedUpTo(cal, names, was, entries, now, n) && n < |names|
    requires Distinct(names)
    requires was[names[n]].nextDue <= now && IsNext(cal, was[names[n]].schedule, now, Some(m))
    ensures ServedUpTo(cal, names, was, entries[names[n] := Entry(was[names[n]].schedule, 60 * m)], now, n + 1)
  {
    var after := entries[names[n] := Entry(was[names[n]].schedule, 60 * m)];
    assert 60 * m / 60 == m;
    forall i | 0 <= i < n + 1
      ensures Served(cal, was[names[i]], after[names[i]], now)
    {
      if i < n { assert after[names[i]] == entries[names[i]]; }
    }
  }

  lemma StayValid(cal: Calendar, names: seq<Id>, was: map<Id, Entry>, after: map<Id, Entry>, now: int, n: nat)
    requires ServedUpTo(cal, names, was, after, now, n) && ValidEntries(cal, names, was)
    ensures ValidEntries(cal, names, after)
  {
    forall name | name in after
      ensures Scheduled(cal, after[name])
    {
      var i :| 0 <= i < |names| && names[i] == name;
      if i < n {
        assert Served(cal, was[names[i]], after[names[i]], now);
      }
    }
  }

  ghost predicate AnyStuck(cal: Calendar, names: seq<Id>, entries: map<Id, Entry>, now: int) {
    exists i :: 0 <= i < |names| && names[i] in entries && Stuck(cal, entries[names[i]], now)
  }

  ghost predicate AllFuture(entries: map<Id, Entry>, now: int) {
    forall name :: name in entries ==> now < entries[name].nextDue
  }

  lemma AllServed(cal: Calendar, names: seq<Id>, was: map<Id, Entry>, after: map<Id, Entry>, now: int)
    requires ServedUpTo(cal, names, was, after, now, |names|) && forall name :: name in was ==> name in names
    ensures AllFuture(after, now) && !AnyStuck(cal, names, was, now)
  {
    forall name | name in after
      ensures now < after[name].nextDue
    {
      var i :| 0 <= i < |names| && names[i] == name;
      assert Served(cal, was[names[i]], after[names[i]], now);
    }
    forall i | 0 <= i < |names|
      ensures !Stuck(cal, was[names[i]], now)
    {
      assert Served(cal, was[names[i]], after[names[i]], now);
    }
  }

  lemma {:induction false} NoneOverdue(entries: map<Id, Entry>, names: seq<Id>, now: int)
    requires forall name :: name in names && name in entries ==> entries[name].nextDue > now
    ensures Overdue(entries, names, now) == []
  {
    if names != [] {
      NoneOverdue(entries, names[..|names| - 1], now);
    }
  }

  /** Two successful calls at the same instant: the second returns nothing and changes
      nothing, however many slots had been missed before the first. */
  lemma SecondCallIsIdle(cal: Calendar, names: seq<Id>, was: map<Id, Entry>, mid: map<Id, Entry>,
                         after: map<Id, Entry>, now: int)
    requires ServedUpTo(cal, names, was, mid, now, |names|) && ServedUpTo(cal, names, mid, after, now, |names|)
    requires forall name :: name in was ==> name in names
    ensures Overdue(mid, names, now) == [] && after == mid
  {
    AllServed(cal, names, was, mid, now);
    forall name | name in names
      ensures now < mid[name].nextDue && after[name] == mid[name]
    {
      var i :| 0 <= i < |names| && names[i] == name;
      assert Served(cal, mid[names[i]], after[names[i]], now);
    }
    NoneOverdue(mid, names, now);
  }

  // -------------------------------------------------------- a schedule that gets stuck

  /** `0 0 29 2 *` */
  const LEAP_DAY: Schedule := Schedule(Number(0), Number(0), Number(29), Number(2), Star)

  /** The only 29 February that a search from `start` to a year after `now` can see is `day`. */
  predicate OnlyLeapDay(cal: Calendar, day: int, start: int, now: int) {
    && cal.dateOf(day) == Date(29, 2)
    && forall d :: FirstCandidate(start) / MINUTES_PER_DAY <= d <= LastCandidate(now) / MINUTES_PER_DAY && d != day ==>
         cal.dateOf(d) != Date(29, 2)
  }

  /** Registered within 370 days before a leap day, the job is due on it, and then stuck: the
      next leap day is out of sight. */
  lemma LeapDayGetsStuck(cal: Calendar, day: int, at: int, now: int)
    requires OnlyLeapDay(cal, day, at, now)
    requires at < 60 * MINUTES_PER_DAY * day <= now && MINUTES_PER_DAY * day <= LastCandidate(at)
    ensures IsNext(cal, LEAP_DAY, at, Some(MINUTES_PER_DAY * day))
    ensures Stuck(cal, Entry(LEAP_DAY, 60 * MINUTES_PER_DAY * day), now)
  {
    var m := MINUTES_PER_DAY * day;
    assert m / MINUTES_PER_DAY == day && m % 60 == 0 && m / 60 % 24 == 0;
    assert Matches(cal, LEAP_DAY, m);
    forall k | FirstCandidate(at) <= k <= LastCandidate(now) && Matches(cal, LEAP_DAY, k)
      ensures k == m
    {
      MidnightOf(k);
      assert cal.dateOf(k / MINUTES_PER_DAY) == Date(29, 2);
    }
  }

  lemma MidnightOf(k: int)
    requires k % 60 == 0 && k / 60 % 24 == 0
    ensures k == MINUTES_PER_DAY * (k / MINUTES_PER_DAY)
  {
  }

  /** The date of the `n`-th day of a year, counted from 0. */
  function DateInYear(n: int, leap: bool): Date {
    var later := if leap then n - 60 else n - 59;
    if n < 31 then Date(n + 1, 1)
    else if later < 0 then Date(n - 30, 2)
    else if later < 31 then Date(later + 1, 3)
    else if later < 61 then Date(later - 30, 4)
    else if later < 92 then Date(later - 60, 5)
    else if later < 122 then Date(later - 91, 6)
    else if later < 153 then Date(later - 121, 7)
    else if later < 184 then Date(later - 152, 8)
    else if later < 214 then Date(later - 183, 9)
    else if later < 245 then Date(later - 213, 10)
    else if later < 275 then Date(later - 244, 11)
    else Date(later - 274, 12)
  }

  function DaysIn(month: int, leap: bool): int {
    if month == 2 then (if leap then 29 else 28) else if month in {4, 6, 9, 11} then 30 else 31
  }

  /** Those are the dates of a calendar year: from 1 January, day by day and month by month, to
      31 December. */
  lemma DatesOfYear(n: int, leap: bool)
    requires 0 <= n < (if leap then 365 else 364)
    ensures DateInYear(0, leap) == Date(1, 1) && DateInYear(if leap then 365 else 364, leap) == Date(31, 12)
    ensures var today, tomorrow := DateInYear(n, leap), DateInYear(n + 1, leap);
            if today.day == DaysIn(today.month, leap) then tomorrow == Date(1, today.month + 1)
            else tomorrow == Date(today.day + 1, today.month)
  {
  }

  const NEW_YEAR_2024: int := 19723
  const NEW_YEAR_2025: int := 20089
  const LEAP_DAY_2024: int := 19782

  /** The calendar gives the dates of 2024 and 2025. */
  ghost predicate KnowsTwoYears(cal: Calendar) {
    forall day :: NEW_YEAR_2024 <= day < NEW_YEAR_2025 + 365 ==>
      cal.dateOf(day) == if day < NEW_YEAR_2025 then DateInYear(day - NEW_YEAR_2024, true)
        else DateInYear(day - NEW_YEAR_2025, false)
  }

  /** Registered at the start of 2024, `0 0 29 2 *` is due on 29 February, and stuck. */
  lemma LeapDay2024(cal: Calendar)
    requires KnowsTwoYears(cal)
    ensures IsNext(cal, LEAP_DAY, 86400 * NEW_YEAR_2024, Some(MINUTES_PER_DAY * LEAP_DAY_2024))
    ensures Stuck(cal, Entry(LEAP_DAY, 86400 * LEAP_DAY_2024), 86400 * LEAP_DAY_2024)
    ensures LEAP_DAY_2024 == NEW_YEAR_2024 + 31 + 28 && NEW_YEAR_2025 == NEW_YEAR_2024 + 366
  {
    LeapDayGetsStuck(cal, LEAP_DAY_2024, 86400 * NEW_YEAR_2024, 86400 * LEAP_DAY_2024);
  }

  /** Every slot of a registry is a minute that matches its schedule. */
  lemma SlotsMatch(registry: JobRegistry, name: Id)
    requires registry.Valid() && name in registry.entries
    ensures var entry := registry.entries[name];
            entry.nextDue % 60 == 0 && Matches(registry.cal, entry.schedule, entry.nextDue / 60)
  {
  }

  lemma {:induction false} OverdueOnce(entries: map<Id, Entry>, names: seq<Id>, now: int)
    requires Distinct(names)
    ensures forall name :: name in Overdue(entries, names, now) <==>
              name in names && name in entries && entries[name].nextDue <= now
    ensures forall i, j :: 0 <= i < j < |Overdue(entries, names, now)| ==>
              Overdue(entries, names, now)[i] != Overdue(entries, names, now)[j]
  {
    if names != [] {
      var rest, last := names[..|names| - 1], names[|names| - 1];
      OverdueOnce(entries, rest, now);
      assert names == rest + [last] && last !in rest;
    }
  }
}
