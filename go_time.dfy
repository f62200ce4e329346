/**
  The part of Go's `time` package the decoder uses. A `Time` is, as in Go, an
  instant (seconds since 0001-01-01T00:00:00 UTC plus nanoseconds) together with
  a location; its wall clock (year .. second) is derived from the instant and
  the location's offset, with the proleptic Gregorian calendar.

  A location loaded from the time-zone database is an external collaborator:
  it is represented by its name and its UTC offset as a function of the instant.
*/
module GoTime {

  // ----- Calendar -----

  predicate IsLeap(y: int)
  {
    y % 4 == 0 && (y % 100 != 0 || y % 400 == 0)
  }

  function DaysInYear(y: int): int
  {
    if IsLeap(y) then 366 else 365
  }

  /** Go's `daysIn(month, year)`. */
  function DaysIn(y: int, m: int): int
    requires 1 <= m <= 12
  {
    if m == 2 then (if IsLeap(y) then 29 else 28)
    else if m == 4 || m == 6 || m == 9 || m == 11 then 30
    else 31
  }

  /** Days of year `y` before the first of month `m` (`m == 13` gives the whole year). */
  function DaysBeforeMonth(y: int, m: int): (n: int)
    requires 1 <= m <= 13
    ensures m == 13 ==> n == DaysInYear(y)
    ensures n >= 0
  {
    [0, 31, 59, 90, 120, 151, 181, 212, 243, 273, 304, 334, 365][m - 1]
      + (if m > 2 && IsLeap(y) then 1 else 0)
  }

  lemma MonthStep(y: int, m: int)
    requires 1 <= m <= 12
    ensures DaysBeforeMonth(y, m) + DaysIn(y, m) == DaysBeforeMonth(y, m + 1)
  {
  }

  /** Days from 0001-01-01 to the first of January of year `y` (negative before year 1). */
  function DaysBeforeYear(y: int): int
    decreases if y >= 1 then y - 1 else 1 - y
  {
    if y == 1 then 0
    else if y > 1 then DaysBeforeYear(y - 1) + DaysInYear(y - 1)
    else DaysBeforeYear(y + 1) - DaysInYear(y)
  }

  lemma DaysBeforeNextYear(y: int)
    ensures DaysBeforeYear(y + 1) == DaysBeforeYear(y) + DaysInYear(y)
  {
  }

  predicate ValidDate(y: int, m: int, d: int)
  {
    1 <= m <= 12 && 1 <= d <= DaysIn(y, m)
  }

  /** Day number of a calendar date, 0001-01-01 being day 0. */
  function DaysFromCivil(y: int, m: int, d: int): int
    requires 1 <= m <= 12
  {
    DaysBeforeYear(y) + DaysBeforeMonth(y, m) + d - 1
  }

  /** The year holding day `DaysBeforeYear(y) + r`, and the day's index within it. */
  function YearOf(y: int, r: int): (res: (int, int))
    ensures 0 <= res.1 < DaysInYear(res.0)
    ensures DaysBeforeYear(res.0) + res.1 == DaysBeforeYear(y) + r
    decreases if r < 0 then 1 else 0, if r < 0 then -r else r
  {
    DaysBeforeNextYear(y - 1);
    DaysBeforeNextYear(y);
    if r < 0 then YearOf(y - 1, r + DaysInYear(y - 1))
    else if r >= DaysInYear(y) then YearOf(y + 1, r - DaysInYear(y))
    else (y, r)
  }

  /** The month holding day `r` of year `y` counted from month `m`, and the day's index within it. */
  function MonthOf(y: int, m: int, r: int): (res: (int, int))
    requires 1 <= m <= 12 && 0 <= r
    requires DaysBeforeMonth(y, m) + r < DaysInYear(y)
    ensures m <= res.0 <= 12 && 0 <= res.1 < DaysIn(y, res.0)
    ensures DaysBeforeMonth(y, res.0) + res.1 == DaysBeforeMonth(y, m) + r
    decreases 12 - m
  {
    if r < DaysIn(y, m) then (m, r)
    else MonthOf(y, m + 1, r - DaysIn(y, m))
  }

  datatype CivilDate = CivilDate(year: int, month: int, day: int)

  /** The calendar date of day number `n`; the inverse of `DaysFromCivil`. */
  function CivilFromDays(n: int): (c: CivilDate)
    ensures ValidDate(c.year, c.month, c.day)
    ensures DaysFromCivil(c.year, c.month, c.day) == n
  {
    var (y, r) := YearOf(1, n);
    var (m, d) := MonthOf(y, 1, r);
    CivilDate(y, m, d + 1)
  }

  /** Moving the start of the year search by one year does not change where it lands. */
  lemma YearOfShift(y: int, r: int)
    ensures YearOf(y, r) == YearOf(y + 1, r - DaysInYear(y))
  {
  }

  /** The year search started anywhere finds the year that holds the day. */
  lemma {:induction false} YearOfLands(a: int, y: int, r: int)
    requires 0 <= r < DaysInYear(y)
    ensures YearOf(a, DaysBeforeYear(y) - DaysBeforeYear(a) + r) == (y, r)
    decreases if a <= y then y - a else a - y
  {
    DaysBeforeNextYear(a);
    DaysBeforeNextYear(a - 1);
    if a < y {
      YearOfShift(a, DaysBeforeYear(y) - DaysBeforeYear(a) + r);
      YearOfLands(a + 1, y, r);
    } else if a > y {
      YearOfShift(a - 1, DaysBeforeYear(y) - DaysBeforeYear(a - 1) + r);
      YearOfLands(a - 1, y, r);
    }
  }

  /** A day past the end of month `a` is searched for from the next month. */
  lemma MonthOfSkips(y: int, a: int, x: int)
    requires 1 <= a < 12 && DaysIn(y, a) <= x
    requires DaysBeforeMonth(y, a) + x < DaysInYear(y)
    ensures MonthOf(y, a, x) == MonthOf(y, a + 1, x - DaysIn(y, a))
  {
    MonthStep(y, a);
  }

  /** The month search started at month `a` finds the month that holds the day. */
  lemma {:induction false} MonthOfLands(y: int, a: int, m: int, r: int)
    requires 1 <= a <= m <= 12 && 0 <= r < DaysIn(y, m)
    requires DaysBeforeMonth(y, m) + r < DaysInYear(y)
    ensures DaysBeforeMonth(y, a) <= DaysBeforeMonth(y, m)
    ensures MonthOf(y, a, DaysBeforeMonth(y, m) - DaysBeforeMonth(y, a) + r) == (m, r)
    decreases m - a
  {
    if a < m {
      MonthOfLands(y, a + 1, m, r);
      MonthStep(y, a);
      var x := DaysBeforeMonth(y, m) - DaysBeforeMonth(y, a) + r;
      assert x - DaysIn(y, a) == DaysBeforeMonth(y, m) - DaysBeforeMonth(y, a + 1) + r;
      MonthOfSkips(y, a, x);
    }
  }

  /** The days before month `m` and the days of month `m` stay within the year. */
  lemma {:induction false} MonthsFitInYear(y: int, m: int)
    requires 1 <= m <= 12
    ensures DaysBeforeMonth(y, m) + DaysIn(y, m) <= DaysInYear(y)
    decreases 12 - m
  {
    MonthStep(y, m);
    if m < 12 {
      MonthsFitInYear(y, m + 1);
    }
  }

  /** A valid date survives the round trip through its day number. */
  lemma CivilRoundTrip(y: int, m: int, d: int)
    requires ValidDate(y, m, d)
    ensures CivilFromDays(DaysFromCivil(y, m, d)) == CivilDate(y, m, d)
  {
    MonthsFitInYear(y, m);
    MonthOfLands(y, 1, m, d - 1);
    YearOfLands(1, y, DaysBeforeMonth(y, m) + d - 1);
    assert DaysBeforeYear(y) - DaysBeforeYear(1) + DaysBeforeMonth(y, m) + d - 1 == DaysFromCivil(y, m, d);
    assert DaysBeforeMonth(y, m) - DaysBeforeMonth(y, 1) + d - 1 == DaysBeforeMonth(y, m) + d - 1;
  }

  // ----- Wall clock -----

  datatype Wall = Wall(year: int, month: int, day: int, hour: int, minute: int, second: int)

  predicate ValidWall(w: Wall)
  {
    && ValidDate(w.year, w.month, w.day)
    && 0 <= w.hour < 24 && 0 <= w.minute < 60 && 0 <= w.second < 60
  }

  const SecondsPerDay := 86400

  /** Seconds since 0001-01-01 00:00:00 of a wall clock read as UTC. As in `time.Date`,
      a month outside 1..12 carries into the year, and the day, hour, minute and
      second may be out of range and carry over. */
  function SecondsFromWall(w: Wall): int
  {
    var year := w.year + (w.month - 1) / 12;
    var month := (w.month - 1) % 12 + 1;
    DaysFromCivil(year, month, w.day) * SecondsPerDay + w.hour * 3600 + w.minute * 60 + w.second
  }

  /** The wall clock at `x` seconds since 0001-01-01 00:00:00. */
  function WallFromSeconds(x: int): (w: Wall)
    ensures ValidWall(w)
    ensures SecondsFromWall(w) == x
  {
    var c := CivilFromDays(x / SecondsPerDay);
    var rem := x % SecondsPerDay;
    ClockParts(rem);
    MonthInYear(c.month);
    Wall(c.year, c.month, c.day, rem / 3600, rem % 3600 / 60, rem % 60)
  }

  /** Seconds within a day split into hours, minutes and seconds. */
  lemma ClockParts(rem: int)
    requires 0 <= rem < SecondsPerDay
    ensures 0 <= rem / 3600 < 24 && 0 <= rem % 3600 / 60 < 60 && 0 <= rem % 60 < 60
    ensures rem / 3600 * 3600 + rem % 3600 / 60 * 60 + rem % 60 == rem
  {
    var h, r := rem / 3600, rem % 3600;
    assert rem == h * 3600 + r;
    assert r == r / 60 * 60 + r % 60;
    assert r % 60 == rem % 60;
  }

  /** A month in 1..12 carries nothing into the year. */
  lemma MonthInYear(m: int)
    requires 1 <= m <= 12
    ensures (m - 1) / 12 == 0 && (m - 1) % 12 + 1 == m
  {
  }

  lemma DayDivision(days: int, rem: int)
    requires 0 <= rem < SecondsPerDay
    ensures (days * SecondsPerDay + rem) / SecondsPerDay == days
    ensures (days * SecondsPerDay + rem) % SecondsPerDay == rem
  {
  }

  lemma TimeOfDay(h: int, m: int, s: int)
    requires 0 <= h < 24 && 0 <= m < 60 && 0 <= s < 60
    ensures var rem := h * 3600 + m * 60 + s;
      rem / 3600 == h && rem % 3600 / 60 == m && rem % 60 == s
  {
    var rem := h * 3600 + m * 60 + s;
    assert rem == h * 3600 + (m * 60 + s) && 0 <= m * 60 + s < 3600;
    assert rem == (h * 60 + m) * 60 + s;
  }

  /** A valid wall clock survives the round trip through its seconds. */
  lemma WallRoundTrip(w: Wall)
    requires ValidWall(w)
    ensures WallFromSeconds(SecondsFromWall(w)) == w
  {
    var days := DaysFromCivil(w.year, w.month, w.day);
    var rem := w.hour * 3600 + w.minute * 60 + w.second;
    MonthInYear(w.month);
    var x := SecondsFromWall(w);
    assert x == days * SecondsPerDay + rem;
    DayDivision(days, rem);
    TimeOfDay(w.hour, w.minute, w.second);
    CivilRoundTrip(w.year, w.month, w.day);
    assert CivilFromDays(x / SecondsPerDay) == CivilDate(w.year, w.month, w.day);
  }

  // ----- Locations and times -----

  /** A location's zone at an instant: UTC, a fixed offset fabricated by `time.Parse`,
      or a named database zone with the offset in effect at that instant. */
  datatype Zone = UTC | Fixed(offset: int) | Named(name: string, offset: int)

  function ZoneOffset(z: Zone): int
  {
    if z.UTC? then 0 else z.offset
  }

  /** A location from `time.LoadLocation`: its name and its UTC offset (seconds) at each instant. */
  datatype Location = Location(name: string, offsetAt: int -> int)

  const NanosPerSecond := 1_000_000_000

  /** `time.Time`: seconds since 0001-01-01T00:00:00Z, nanoseconds, and the zone. */
  datatype Time = Time(sec: int, nsec: int, zone: Zone)

  predicate ValidTime(t: Time)
  {
    0 <= t.nsec < NanosPerSecond
  }

  /** `time.Time{}`: the zero instant in UTC. */
  const ZeroTime := Time(0, 0, UTC)

  /** `t.IsZero()`: the instant is 0001-01-01T00:00:00Z, whatever the location. */
  predicate IsZero(t: Time)
  {
    t.sec == 0 && t.nsec == 0
  }

  /** `t.Location() == time.UTC`. */
  predicate IsUTC(t: Time)
  {
    t.zone.UTC?
  }

  /** Year, month, day, hour, minute and second of `t` in its own zone. */
  function WallOf(t: Time): Wall
  {
    WallFromSeconds(t.sec + ZoneOffset(t.zone))
  }

  /** `t.In(loc)`: the same instant shown in `loc`. */
  function In(t: Time, loc: Location): Time
  {
    Time(t.sec, t.nsec, Named(loc.name, loc.offsetAt(t.sec)))
  }

  /** Showing a time in a location keeps the instant and its zero-ness, shows the
      wall clock at the location's offset for that instant (which reads back to
      the instant), and replaces whatever location was shown before. */
  lemma InShowsSameInstant(t: Time, a: Location, b: Location)
    ensures In(t, a).sec == t.sec && In(t, a).nsec == t.nsec
    ensures !IsUTC(In(t, a)) && ZoneOffset(In(t, a).zone) == a.offsetAt(t.sec)
    ensures WallOf(In(t, a)) == WallFromSeconds(t.sec + a.offsetAt(t.sec))
    ensures SecondsFromWall(WallOf(In(t, a))) - a.offsetAt(t.sec) == t.sec
    ensures IsZero(In(t, a)) == IsZero(t)
    ensures ValidTime(t) ==> ValidTime(In(t, a))
    ensures In(In(t, a), b) == In(t, b)
  {
  }

  /** `time.Date(w.year, .., w.second, nsec, loc)`. Go normalises the nanoseconds, reads
      the wall clock as UTC, looks up the offset there, and looks it up again at the
      instant that offset gives; the second lookup decides. */
  function Date(w: Wall, nsec: int, loc: Location): Time
  {
    var unix := SecondsFromWall(w) + nsec / NanosPerSecond;
    var offset := loc.offsetAt(unix - loc.offsetAt(unix));
    Time(unix - offset, nsec % NanosPerSecond, Named(loc.name, loc.offsetAt(unix - offset)))
  }

  /** No offset change between a wall clock read as UTC and the instant it denotes:
      the wall clock is neither skipped nor repeated by a transition of `loc`. */
  predicate SteadyAt(loc: Location, unix: int)
  {
    loc.offsetAt(unix - loc.offsetAt(unix)) == loc.offsetAt(unix)
  }

  /** `time.Date` in a location keeps the wall clock it was given, unless a zone
      transition of that location falls between the wall clock and its instant. */
  lemma DateKeepsWall(w: Wall, nsec: int, loc: Location)
    requires ValidWall(w) && 0 <= nsec < NanosPerSecond
    requires SteadyAt(loc, SecondsFromWall(w))
    ensures WallOf(Date(w, nsec, loc)) == w
    ensures Date(w, nsec, loc).nsec == nsec
    ensures Date(w, nsec, loc).zone.Named? && Date(w, nsec, loc).zone.name == loc.name
  {
    var unix := SecondsFromWall(w);
    DateSteady(w, nsec, loc);
    WallOfNamed(unix, loc.offsetAt(unix), nsec, loc.name);
    WallRoundTrip(w);
  }

  /** A time in a named zone shows the wall clock of its instant shifted by the zone's offset. */
  lemma WallOfNamed(unix: int, offset: int, nsec: int, name: string)
    ensures WallOf(Time(unix - offset, nsec, Named(name, offset))) == WallFromSeconds(unix)
  {
    var t := Time(unix - offset, nsec, Named(name, offset));
    var x := t.sec + ZoneOffset(t.zone);
    assert x == unix;
    assert WallOf(t) == WallFromSeconds(x);
  }

  /** `time.Date` with normalised nanoseconds at a steady wall clock: one offset throughout. */
  lemma DateSteady(w: Wall, nsec: int, loc: Location)
    requires 0 <= nsec < NanosPerSecond
    requires SteadyAt(loc, SecondsFromWall(w))
    ensures var unix := SecondsFromWall(w);
            Date(w, nsec, loc) == Time(unix - loc.offsetAt(unix), nsec, Named(loc.name, loc.offsetAt(unix)))
  {
    assert nsec / NanosPerSecond == 0 && nsec % NanosPerSecond == nsec;
  }
}
