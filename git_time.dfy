/**
  `format_relative_time` of the git graph: how long ago a commit was made, in the largest
  unit that fits, counted with integer division. The current time is a parameter.
*/
module GitTime {
  import opened Strings

  datatype TimeUnit = Second | Minute | Hour | Day | Week | Month | Year

  /** A commit's age: ahead of the clock, or a whole number of some unit. */
  datatype Age = InTheFuture | Ago(count: nat, unit: TimeUnit)

  /** The seconds in one unit; a month is 30 days and a year 365. */
  function UnitSeconds(u: TimeUnit): (n: nat)
    ensures n >= 1
  {
    match u
    case Second => 1
    case Minute => 60
    case Hour => 3600
    case Day => 86400
    case Week => 7 * 86400
    case Month => 30 * 86400
    case Year => 365 * 86400
  }

  /**
    The age `now - commitTime` in the unit `format_relative_time` picks: seconds under a
    minute, then minutes, hours, days under a week, weeks under five, months (of 30 days)
    under twelve, and years (of 365 days) beyond. The count is the whole number of units.
  */
  function AgeOf(now: int, commitTime: int): (a: Age)
    ensures a == InTheFuture <==> now < commitTime
    ensures a.Ago? ==> a.count * UnitSeconds(a.unit) <= now - commitTime < (a.count + 1) * UnitSeconds(a.unit)
  {
    var diff := now - commitTime;
    if diff < 0 then InTheFuture
    else if diff < 60 then Ago(diff, Second)
    else if diff / 60 < 60 then Ago(diff / 60, Minute)
    else if diff / 3600 < 24 then Ago(diff / 3600, Hour)
    else
      var days := diff / 86400;
      if days < 7 then Ago(days, Day)
      else if days / 7 < 5 then Ago(days / 7, Week)
      else if days / 30 < 12 then Ago(days / 30, Month)
      else Ago(days / 365, Year)
  }

  /**
    Which unit is chosen, by elapsed seconds `d` and whole days: the bands do not overlap
    and the month band ends at 360 days, not at a year.
  */
  lemma AgeUnitBands(now: int, commitTime: int)
    requires now >= commitTime
    ensures var d, a := now - commitTime, AgeOf(now, commitTime);
      && (a.unit == Second <==> d < 60)
      && (a.unit == Minute <==> 60 <= d < 3600)
      && (a.unit == Hour <==> 3600 <= d < 86400)
      && (a.unit == Day <==> 86400 <= d < 7 * 86400)
      && (a.unit == Week <==> 7 * 86400 <= d < 35 * 86400)
      && (a.unit == Month <==> 35 * 86400 <= d < 360 * 86400)
      && (a.unit == Year <==> 360 * 86400 <= d)
  {
    var d := now - commitTime;
    if d >= 86400 {
      var days := d / 86400;
      assert days < 7 <==> d < 7 * 86400;
      assert days / 7 < 5 <==> days < 35;
      assert days < 35 <==> d < 35 * 86400;
      assert days / 30 < 12 <==> days < 360;
      assert days < 360 <==> d < 360 * 86400;
    }
  }

  /** Between 360 and 364 days the month band is over but no year has passed: "0 years". */
  lemma ZeroYearsQuirk(now: int, commitTime: int)
    requires 360 * 86400 <= now - commitTime < 365 * 86400
    ensures AgeOf(now, commitTime) == Ago(0, Year)
  {
    var days := (now - commitTime) / 86400;
    assert 360 <= days < 365;
  }

  function UnitName(u: TimeUnit): string {
    match u
    case Second => "second"
    case Minute => "minute"
    case Hour => "hour"
    case Day => "day"
    case Week => "week"
    case Month => "month"
    case Year => "year"
  }

  /** The English phrase: seconds are always plural, other units only when the count is not 1. */
  function Render(a: Age): string {
    match a
    case InTheFuture => "in the future"
    case Ago(n, Second) => NatToString(n) + " seconds ago"
    case Ago(n, u) => NatToString(n) + " " + UnitName(u) + (if n == 1 then "" else "s") + " ago"
  }

  /** `format_relative_time`. */
  function FormatRelativeTime(now: int, commitTime: int): string {
    Render(AgeOf(now, commitTime))
  }

  /** A phrase ends in "s ago" exactly when it counts seconds or a count other than 1. */
  lemma RenderPlural(n: nat, u: TimeUnit)
    ensures var r := Render(Ago(n, u));
      |r| >= 5 && (r[|r| - 5] == 's' <==> u == Second || n != 1)
  {
  }

  /** "in the future" is said only of commits ahead of the clock: no count renders that way. */
  lemma FutureOnlyWhenAhead(now: int, commitTime: int)
    ensures FormatRelativeTime(now, commitTime) == "in the future" <==> now < commitTime
  {
    var a := AgeOf(now, commitTime);
    if a.Ago? {
      var r := Render(a);
      assert r[0] == NatToString(a.count)[0];
      assert IsDigit(r[0]);
    }
  }

  /** The number in the phrase reads back as the count of whole units elapsed. */
  lemma RenderedCountReadsBack(now: int, commitTime: int)
    requires now >= commitTime
    ensures var a := AgeOf(now, commitTime);
      var digits := NatToString(a.count);
      && digits <= FormatRelativeTime(now, commitTime)
      && DigitsValue(digits) * UnitSeconds(a.unit) <= now - commitTime
  {
    var a := AgeOf(now, commitTime);
    NatToStringRoundTrip(a.count);
  }
}
