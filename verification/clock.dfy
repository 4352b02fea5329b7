/** Wall-clock time as the application sees it.

    A `datetime` is an integer number of minutes counted from a Monday at
    00:00 (day 0); seconds are not represented. `date()` is the day number,
    `time()` the minute of the day, and `strftime('%A').lower()` the weekday
    name. Day numbers may be negative: Dafny's `/` and `%` are Euclidean, so
    `Day` rounds down and `TimeOfDay` stays in range for any instant.
 */
module Clock {
  import opened Base
  const MinutesPerHour: int := 60
  const MinutesPerDay: int := 1440
  const DaysPerWeek: int := 7

  datatype Weekday = Monday | Tuesday | Wednesday | Thursday | Friday | Saturday | Sunday

  /** `dt.date()`. */
  function Day(t: int): int
  {
    t / MinutesPerDay
  }

  /** `dt.time()`, as minutes since midnight. */
  function TimeOfDay(t: int): (m: int)
    ensures 0 <= m < MinutesPerDay
  {
    t % MinutesPerDay
  }

  /** `datetime.combine(day, time(hour, minute))`. */
  function At(day: int, minuteOfDay: int): int
  {
    day * MinutesPerDay + minuteOfDay
  }

  /** Position in the week, Monday first. */
  function Index(w: Weekday): (i: int)
    ensures 0 <= i < DaysPerWeek
  {
    match w
    case Monday => 0
    case Tuesday => 1
    case Wednesday => 2
    case Thursday => 3
    case Friday => 4
    case Saturday => 5
    case Sunday => 6
  }

  function WeekdayOfDay(day: int): (w: Weekday)
    ensures Index(w) == day % DaysPerWeek
  {
    match day % DaysPerWeek
    case 0 => Monday
    case 1 => Tuesday
    case 2 => Wednesday
    case 3 => Thursday
    case 4 => Friday
    case 5 => Saturday
    case _ => Sunday
  }

  function WeekdayOf(t: int): Weekday
  {
    WeekdayOfDay(Day(t))
  }

  /** `strftime('%A').lower()`: the key under which the rules blob stores a weekday. */
  function DayName(w: Weekday): string
  {
    match w
    case Monday => "monday"
    case Tuesday => "tuesday"
    case Wednesday => "wednesday"
    case Thursday => "thursday"
    case Friday => "friday"
    case Saturday => "saturday"
    case Sunday => "sunday"
  }

  /** The weekday keys in the order the resource forms list them. */
  const WeekdayNames: seq<string> :=
    ["monday", "tuesday", "wednesday", "thursday", "friday", "saturday", "sunday"]

  /** Inverse of `DayName`. */
  function WeekdayNamed(name: string): (w: Option<Weekday>)
  {
    if name == "monday" then Some(Monday)
    else if name == "tuesday" then Some(Tuesday)
    else if name == "wednesday" then Some(Wednesday)
    else if name == "thursday" then Some(Thursday)
    else if name == "friday" then Some(Friday)
    else if name == "saturday" then Some(Saturday)
    else if name == "sunday" then Some(Sunday)
    else None
  }

  /** A day name identifies its weekday, and every name `WeekdayNamed` accepts is a day name. */
  lemma DayNameRoundTrip(w: Weekday, name: string)
    ensures WeekdayNamed(DayName(w)) == Some(w)
    ensures WeekdayNamed(name) == Some(w) ==> DayName(w) == name
    ensures DayName(w) in WeekdayNames && WeekdayNames[Index(w)] == DayName(w)
  {
  }

  /** Splitting an instant into day and minute-of-day and recombining is the identity, and conversely. */
  lemma AtRoundTrip(t: int, day: int, m: int)
    ensures At(Day(t), TimeOfDay(t)) == t
    ensures 0 <= m < MinutesPerDay ==> Day(At(day, m)) == day && TimeOfDay(At(day, m)) == m
  {
    if 0 <= m < MinutesPerDay {
      assert At(day, m) == day * MinutesPerDay + m;
      DivModUnique(At(day, m), day, m);
    }
  }

  lemma DivModUnique(t: int, q: int, r: int)
    requires 0 <= r < MinutesPerDay && t == q * MinutesPerDay + r
    ensures t / MinutesPerDay == q && t % MinutesPerDay == r
  {
  }

  /** Weekdays repeat every seven days, and consecutive days have consecutive weekdays. */
  lemma WeekdayPeriodic(day: int)
    ensures WeekdayOfDay(day + DaysPerWeek) == WeekdayOfDay(day)
    ensures Index(WeekdayOfDay(day + 1)) == (Index(WeekdayOfDay(day)) + 1) % DaysPerWeek
  {
  }
}
