/** The four cron schedules `ScraperManager.initialize` registers
    (electron/scrapers/scraperManager.js), as predicates on the hour and
    minute of the local clock. Day-of-month, month and weekday are `*` in
    every pattern and do not appear. */
module Schedule {

  /** '0 2 * * *', '*∕30 15-19 * * *', '0 7-14 * * *' and
      '0 20-23,0-1 * * *'. */
  datatype Job = At2AM | HalfHourlyAfternoon | HourlyMorning | HourlyNight

  /** The jobs `initialize` registers, in registration order. */
  const Registered: seq<Job> := [At2AM, HalfHourlyAfternoon, HourlyMorning, HourlyNight]

  predicate ValidTime(hour: int, minute: int)
  {
    0 <= hour < 24 && 0 <= minute < 60
  }

  /** The hour field of the pattern. */
  predicate InHours(job: Job, hour: int)
  {
    match job
    case At2AM => hour == 2
    case HalfHourlyAfternoon => 15 <= hour <= 19
    case HourlyMorning => 7 <= hour <= 14
    case HourlyNight => (20 <= hour <= 23) || (0 <= hour <= 1)
  }

  /** The minute field: `0`, or `*∕30` (minutes 0 and 30). */
  predicate InMinutes(job: Job, minute: int)
  {
    match job
    case HalfHourlyAfternoon => minute == 0 || minute == 30
    case _ => minute == 0
  }

  predicate Fires(job: Job, hour: int, minute: int)
  {
    InHours(job, hour) && InMinutes(job, minute)
  }

  /** How many of `jobs` fire at the given minute; each firing starts one
      automatic scrape. */
  function Firings(jobs: seq<Job>, hour: int, minute: int): (n: nat)
    ensures n <= |jobs|
    ensures n > 0 <==> exists i :: 0 <= i < |jobs| && Fires(jobs[i], hour, minute)
  {
    if |jobs| == 0 then 0
    else
      assert forall i :: 1 <= i < |jobs| ==> jobs[i] == jobs[1..][i - 1];
      (if Fires(jobs[0], hour, minute) then 1 else 0) + Firings(jobs[1..], hour, minute)
  }

  /** No hour belongs to two different patterns. */
  lemma HoursDisjoint(a: Job, b: Job, hour: int)
    requires a != b
    ensures !(InHours(a, hour) && InHours(b, hour))
  {
  }

  /** With the four registered jobs, at most one automatic scrape starts in
      any minute, none between 03:00 and 06:59, exactly one on every other
      hour, and one at half past only from 15:30 to 19:30. */
  lemma RegisteredFiring(hour: int, minute: int)
    requires ValidTime(hour, minute)
    ensures Firings(Registered, hour, minute) <= 1
    ensures 3 <= hour <= 6 ==> Firings(Registered, hour, minute) == 0
    ensures !(3 <= hour <= 6) ==> Firings(Registered, hour, 0) == 1
    ensures Firings(Registered, hour, 30) == 1 <==> 15 <= hour <= 19
    ensures minute != 0 && minute != 30 ==> Firings(Registered, hour, minute) == 0
  {
    FiringsOfRegistered(hour, minute);
    FiringsOfRegistered(hour, 0);
    FiringsOfRegistered(hour, 30);
  }

  function Indicator(b: bool): nat
  {
    if b then 1 else 0
  }

  /** The count for the registered jobs, one term per job. */
  lemma FiringsOfRegistered(hour: int, minute: int)
    ensures Firings(Registered, hour, minute)
         == Indicator(Fires(At2AM, hour, minute)) + Indicator(Fires(HalfHourlyAfternoon, hour, minute))
          + Indicator(Fires(HourlyMorning, hour, minute)) + Indicator(Fires(HourlyNight, hour, minute))
  {
    var r := Registered;
    assert r[1..] == [HalfHourlyAfternoon, HourlyMorning, HourlyNight];
    assert r[1..][1..] == [HourlyMorning, HourlyNight];
    assert r[1..][1..][1..] == [HourlyNight];
    assert r[1..][1..][1..][1..] == [];
    assert Firings([], hour, minute) == 0;
    assert Firings([HourlyNight], hour, minute) == Indicator(Fires(HourlyNight, hour, minute));
    assert Firings([HourlyMorning, HourlyNight], hour, minute)
        == Indicator(Fires(HourlyMorning, hour, minute)) + Firings([HourlyNight], hour, minute);
    assert Firings([HalfHourlyAfternoon, HourlyMorning, HourlyNight], hour, minute)
        == Indicator(Fires(HalfHourlyAfternoon, hour, minute)) + Firings([HourlyMorning, HourlyNight], hour, minute);
  }
}
