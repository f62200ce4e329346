/**
  Go's `time.Parse(layout, value)` for the layout elements that occur in the
  decoder's four EXIF date-time layouts: a four-digit year "2006", the
  two-digit month "01", day "02", minute "04" and second "05", the one-or-two
  digit hour "15", exact fractional seconds ".000", the numeric zone "-0700",
  the ISO zone "Z07:00", and literal characters.

  The parser walks the layout element by element as Go does, with Go's rules:
  a space in the layout matches a run of spaces; a fraction after the seconds
  is accepted even when the layout has none, unless the layout's next element
  is a fraction; ranges are checked per element and the day against its month
  at the end; text left over is an error.
*/
module GoTimeParse {
  import opened Wrappers
  import opened GoStrconv
  import opened GoTime

  datatype Elem =
    | Lit(c: char)
    | LongYear          // "2006"
    | ZeroMonth         // "01"
    | ZeroDay           // "02"
    | Hour              // "15"
    | ZeroMinute        // "04"
    | ZeroSecond        // "05"
    | FracSecond0(digits: nat)  // ".000": exactly `digits` fractional digits
    | NumTZ             // "-0700"
    | ISO8601ColonTZ    // "Z07:00"

  /** The zone information found so far. */
  datatype ZoneInfo = NoZone | ZoneUTC | ZoneOffset(offset: int)

  /** The components found so far; Go starts with month and day at -1 ("not seen"). */
  datatype Fields = Fields(year: int, month: int, day: int, hour: int, minute: int,
                           second: int, nsec: int, zone: ZoneInfo)

  const Initial := Fields(0, -1, -1, 0, 0, 0, 0, NoZone)

  function Pow10(k: nat): (p: nat)
    ensures p >= 1
  {
    if k == 0 then 1 else 10 * Pow10(k - 1)
  }

  lemma {:induction false} Pow10Add(a: nat, b: nat)
    ensures Pow10(a) * Pow10(b) == Pow10(a + b)
  {
    if a > 0 {
      Pow10Add(a - 1, b);
      assert Pow10(a) * Pow10(b) == 10 * (Pow10(a - 1) * Pow10(b));
    }
  }

  lemma {:induction false} DigitsBelowPow10(s: string)
    requires AllDigits(s)
    ensures DigitsValue(s) < Pow10(|s|)
  {
    if s != [] {
      DigitsBelowPow10(s[..|s| - 1]);
    }
  }

  /** The time package's `atoi`: an optional sign, then digits (possibly none, which reads as 0). */
  function TimeAtoi(s: string): Option<int>
  {
    var rest := Unsigned(s);
    if !AllDigits(rest) then None
    else if s != [] && s[0] == '-' then Some(-(DigitsValue(rest) as int))
    else Some(DigitsValue(rest))
  }

  /** `getnum(s, fixed)`: one digit, or two; `fixed` demands two. */
  function GetNum(s: string, fixed: bool): Option<(int, string)>
  {
    if s == [] || !IsDigit(s[0]) then None
    else if |s| < 2 || !IsDigit(s[1]) then
      (if fixed then None else Some((DigitValue(s[0]), s[1..])))
    else Some((10 * DigitValue(s[0]) + DigitValue(s[1]), s[2..]))
  }

  /** Number of leading ASCII digits. */
  function LeadingDigits(s: string): (n: nat)
    ensures n <= |s| && AllDigits(s[..n])
    ensures n < |s| ==> !IsDigit(s[n])
  {
    if s == [] || !IsDigit(s[0]) then 0
    else
      var n := 1 + LeadingDigits(s[1..]);
      assert s[..n] == [s[0]] + s[1..][..n - 1];
      n
  }

  /** `cutspace`: drop leading spaces. */
  function CutSpace(s: string): string
  {
    if s != [] && s[0] == ' ' then CutSpace(s[1..]) else s
  }

  predicate CommaOrPeriod(c: char) { c == '.' || c == ',' }

  /** `parseNanoseconds(value, nbytes)`: `value` starts with the separator; at most nine
      digits after it count, scaled to nanoseconds. */
  function ParseNanoseconds(value: string, nbytes: nat): (r: Option<int>)
    requires 1 <= nbytes <= |value|
    ensures r.Some? ==> 0 <= r.value < NanosPerSecond
  {
    if !CommaOrPeriod(value[0]) then None
    else
      var n := if nbytes > 10 then 10 else nbytes;
      match TimeAtoi(value[1..n])
      case None => None
      case Some(ns) =>
        if ns < 0 then None
        else
          FractionBound(value[1..n]);
          Some(ns * Pow10(10 - n))
  }

  lemma FractionBound(digits: string)
    requires |digits| <= 9
    requires TimeAtoi(digits).Some? && TimeAtoi(digits).value >= 0
    ensures TimeAtoi(digits).value * Pow10(9 - |digits|) < NanosPerSecond
  {
    var rest := Unsigned(digits);
    var v := TimeAtoi(digits).value;
    assert v <= DigitsValue(rest);
    DigitsBelowPow10(rest);
    Pow10Grows(|rest|, |digits|);
    ScaledBelow(v, |digits|);
  }

  /** A value below 10^d, scaled to nine digits, is below a second in nanoseconds. */
  lemma ScaledBelow(v: nat, d: nat)
    requires d <= 9 && v < Pow10(d)
    ensures v * Pow10(9 - d) < NanosPerSecond
  {
    MultiplyBelow(v, Pow10(d), Pow10(9 - d));
    Pow10Add(d, 9 - d);
    Pow10Nine();
  }

  lemma {:induction false} Pow10Grows(a: nat, b: nat)
    requires a <= b
    ensures Pow10(a) <= Pow10(b)
  {
    if a < b {
      Pow10Grows(a, b - 1);
    }
  }

  lemma Pow10Nine()
    ensures Pow10(9) == NanosPerSecond
  {
    assert Pow10(3) == 1000;
    assert Pow10(6) == 1000 * Pow10(3) by {
      Pow10Add(3, 3);
    }
    assert Pow10(9) == 1000 * Pow10(6) by {
      Pow10Add(3, 6);
    }
  }

  lemma MultiplyBelow(a: int, b: int, c: nat)
    requires 0 <= a < b && c >= 1
    ensures a * c < b * c
  {
  }

  /** The sign, hours and minutes of a zone offset; hours up to 24 and minutes up to 60 are accepted. */
  function ZoneFields(sign: char, hh: string, mm: string): Option<int>
  {
    match (GetNum(hh, true), GetNum(mm, true))
    case (Some((h, _)), Some((m, _))) =>
      if h > 24 || m > 60 then None
      else if sign == '+' then Some((h * 60 + m) * 60)
      else if sign == '-' then Some(-((h * 60 + m) * 60))
      else None
    case _ => None
  }

  /** "-0700": sign, two hour digits, two minute digits. */
  function NumericZone(value: string): Option<(int, string)>
  {
    if |value| < 5 then None
    else match ZoneFields(value[0], value[1..3], value[3..5])
      case None => None
      case Some(offset) => Some((offset, value[5..]))
  }

  /** "Z07:00" when the value does not start with "Z": sign, hours, ':', minutes. */
  function ColonZone(value: string): Option<(int, string)>
  {
    if |value| < 6 || value[3] != ':' then None
    else match ZoneFields(value[0], value[1..3], value[4..6])
      case None => None
      case Some(offset) => Some((offset, value[6..]))
  }

  /** Whether the next non-literal element of the layout is a fraction. */
  predicate NextIsFraction(rest: seq<Elem>)
  {
    if rest == [] then false
    else if rest[0].Lit? then NextIsFraction(rest[1..])
    else rest[0].FracSecond0?
  }

  /** A fraction written after the seconds of a layout that has none. */
  function ExtraFraction(value: string, rest: seq<Elem>, f: Fields): Option<(string, Fields)>
  {
    if |value| >= 2 && CommaOrPeriod(value[0]) && IsDigit(value[1]) && !NextIsFraction(rest) then
      var n := 2 + LeadingDigits(value[2..]);
      match ParseNanoseconds(value, n)
      case None => None
      case Some(ns) => Some((value[n..], f.(nsec := ns)))
    else Some((value, f))
  }

  /** One layout element against the front of the value. */
  function Step(e: Elem, rest: seq<Elem>, value: string, f: Fields): Option<(string, Fields)>
  {
    match e
    case Lit(c) =>
      if c == ' ' then
        (if value != [] && value[0] != ' ' then None else Some((CutSpace(value), f)))
      else if value != [] && value[0] == c then Some((value[1..], f))
      else None
    case LongYear =>
      if |value| < 4 || !IsDigit(value[0]) then None
      else (match TimeAtoi(value[..4])
        case None => None
        case Some(y) => Some((value[4..], f.(year := y))))
    case ZeroMonth =>
      (match GetNum(value, true)
        case None => None
        case Some((m, v)) => if m <= 0 || 12 < m then None else Some((v, f.(month := m))))
    case ZeroDay =>
      (match GetNum(value, true)
        case None => None
        case Some((d, v)) => Some((v, f.(day := d))))
    case Hour =>
      (match GetNum(value, false)
        case None => None
        case Some((h, v)) => if h < 0 || 24 <= h then None else Some((v, f.(hour := h))))
    case ZeroMinute =>
      (match GetNum(value, true)
        case None => None
        case Some((m, v)) => if m < 0 || 60 <= m then None else Some((v, f.(minute := m))))
    case ZeroSecond =>
      (match GetNum(value, true)
        case None => None
        case Some((s, v)) =>
          if s < 0 || 60 <= s then None else ExtraFraction(v, rest, f.(second := s)))
    case FracSecond0(k) =>
      if |value| < 1 + k then None
      else (match ParseNanoseconds(value, 1 + k)
        case None => None
        case Some(ns) => Some((value[1 + k..], f.(nsec := ns))))
    case NumTZ =>
      (match NumericZone(value)
        case None => None
        case Some((offset, v)) => Some((v, f.(zone := ZoneOffset(offset)))))
    case ISO8601ColonTZ =>
      if value != [] && value[0] == 'Z' then Some((value[1..], f.(zone := ZoneUTC)))
      else (match ColonZone(value)
        case None => None
        case Some((offset, v)) => Some((v, f.(zone := ZoneOffset(offset)))))
  }

  /** The elements in order; text left after the last one is an error. */
  function ParseElems(layout: seq<Elem>, value: string, f: Fields): Option<Fields>
    decreases |layout|
  {
    if layout == [] then (if value == [] then Some(f) else None)
    else match Step(layout[0], layout[1..], value, f)
      case None => None
      case Some((v, g)) => ParseElems(layout[1..], v, g)
  }

  /** Components read from a layout that Go accepts: month seen or not, nanoseconds in range. */
  predicate WellFormed(f: Fields)
  {
    (f.month == -1 || 1 <= f.month <= 12) && 0 <= f.nsec < NanosPerSecond
  }

  lemma {:induction false} ParseElemsWellFormed(layout: seq<Elem>, value: string, f: Fields)
    requires WellFormed(f)
    requires ParseElems(layout, value, f).Some?
    ensures WellFormed(ParseElems(layout, value, f).value)
    decreases |layout|
  {
    if layout != [] {
      var (v, g) := Step(layout[0], layout[1..], value, f).value;
      ParseElemsWellFormed(layout[1..], v, g);
    }
  }

  /** The time the components denote: the day is checked against its month; a "Z" gives
      UTC, a numeric offset a fixed zone, and no zone at all UTC. */
  function Finish(f: Fields): Option<Time>
  {
    var month := if f.month < 0 then 1 else f.month;
    var day := if f.day < 0 then 1 else f.day;
    if !(1 <= month <= 12) || day < 1 || day > DaysIn(f.year, month) then None
    else
      var wall := SecondsFromWall(Wall(f.year, month, day, f.hour, f.minute, f.second));
      match f.zone
      case ZoneOffset(offset) => Some(Time(wall - offset, f.nsec, Fixed(offset)))
      case _ => Some(Time(wall, f.nsec, UTC))
  }

  /** `time.Parse(layout, value)`. */
  function Parse(layout: seq<Elem>, value: string): (r: Option<Time>)
    ensures r.Some? ==> ValidTime(r.value)
  {
    match ParseElems(layout, value, Initial)
    case None => None
    case Some(f) =>
      ParseElemsWellFormed(layout, value, Initial);
      Finish(f)
  }

  // ----- The decoder's layouts -----

  /** "2006:01:02 15:04:05" */
  const ExifLayout: seq<Elem> :=
    [LongYear, Lit(':'), ZeroMonth, Lit(':'), ZeroDay, Lit(' '),
     Hour, Lit(':'), ZeroMinute, Lit(':'), ZeroSecond]

  /** "2006:01:02 15:04:05-0700" */
  const ExifOffsetLayout: seq<Elem> := ExifLayout + [NumTZ]

  /** "2006:01:02 15:04:05.000Z": milliseconds, then a literal 'Z'. */
  const ExifMillisLayout: seq<Elem> := ExifLayout + [FracSecond0(3), Lit('Z')]

  /** "2006:01:02 15:04:05Z07:00" */
  const ExifIsoZoneLayout: seq<Elem> := ExifLayout + [ISO8601ColonTZ]

  // ----- The EXIF text form and its round trip -----

  /** `n` in exactly `width` decimal digits, zero-padded (the upper digits are dropped when `n` does not fit). */
  function FixedDigits(n: nat, width: nat): (s: string)
    ensures |s| == width && AllDigits(s)
    ensures n < Pow10(width) ==> DigitsValue(s) == n
  {
    if width == 0 then ""
    else
      var prefix := FixedDigits(n / 10, width - 1);
      var s := prefix + [DigitChar(n % 10)];
      assert s[..|s| - 1] == prefix;
      s
  }

  /** A wall clock as EXIF writes it: "YYYY:MM:DD HH:MM:SS". */
  function ExifText(w: Wall): string
    requires 0 <= w.year && 0 <= w.month && 0 <= w.day
    requires 0 <= w.hour && 0 <= w.minute && 0 <= w.second
  {
    DateText(w) + ClockText(w)
  }

  /** "YYYY:MM:DD" */
  function DateText(w: Wall): string
    requires 0 <= w.year && 0 <= w.month && 0 <= w.day
  {
    FixedDigits(w.year, 4) + ":" + FixedDigits(w.month, 2) + ":" + FixedDigits(w.day, 2)
  }

  /** " HH:MM:SS" */
  function ClockText(w: Wall): string
    requires 0 <= w.hour && 0 <= w.minute && 0 <= w.second
  {
    " " + (FixedDigits(w.hour, 2) + (":" + (FixedDigits(w.minute, 2) + (":" + FixedDigits(w.second, 2)))))
  }

  lemma TwoDigitsRead(n: nat, rest: string, fixed: bool)
    requires n < 100
    ensures GetNum(FixedDigits(n, 2) + rest, fixed) == Some((n, rest))
  {
    var d := FixedDigits(n, 2);
    var s := d + rest;
    assert s[0] == d[0] && s[1] == d[1] && s[2..] == rest;
    assert d[..1][..0] == [];
    assert DigitsValue(d) == 10 * DigitValue(d[0]) + DigitValue(d[1]);
  }

  lemma FourDigitsRead(n: nat, rest: string)
    requires n < 10000
    ensures var s := FixedDigits(n, 4) + rest;
      |s| >= 4 && IsDigit(s[0]) && s[..4] == FixedDigits(n, 4) && s[4..] == rest &&
      TimeAtoi(s[..4]) == Some(n)
  {
    var d := FixedDigits(n, 4);
    assert Pow10(4) == 10000;
    assert Unsigned(d) == d;
  }

  /** Text that is a digit string next: the layout's space consumes exactly the one space before it. */
  lemma SpaceBeforeDigits(d: string, rest: string)
    requires d != [] && AllDigits(d)
    ensures CutSpace(" " + d + rest) == d + rest
  {
    assert (" " + d + rest)[1..] == d + rest;
  }

  /** One element taken: the parse continues with the rest of the layout. */
  lemma Advance(layout: seq<Elem>, k: nat, value: string, f: Fields, value': string, f': Fields)
    requires k < |layout|
    requires Step(layout[k], layout[k + 1..], value, f) == Some((value', f'))
    ensures ParseElems(layout[k..], value, f) == ParseElems(layout[k + 1..], value', f')
  {
    assert layout[k..][0] == layout[k] && layout[k..][1..] == layout[k + 1..];
  }

  lemma YearStep(y: nat, rest: string, f: Fields, later: seq<Elem>)
    requires y < 10000
    ensures Step(LongYear, later, FixedDigits(y, 4) + rest, f)
         == Some((rest, f.(year := y)))
  {
    FourDigitsRead(y, rest);
  }

  /** "YYYY:" sets the year. */
  lemma DateYear(L: seq<Elem>, y: nat, r2: string, f: Fields)
    requires |L| >= 2 && L[0] == LongYear && L[1] == Lit(':') && y < 10000
    ensures ParseElems(L, FixedDigits(y, 4) + (":" + r2), f) == ParseElems(L[2..], r2, f.(year := y))
  {
    var r1 := ":" + r2;
    YearStep(y, r1, f, L[1..]);
    Advance(L, 0, FixedDigits(y, 4) + r1, f, r1, f.(year := y));
    Advance(L, 1, r1, f.(year := y), r2, f.(year := y));
    assert L[0..] == L;
  }

  /** "MM:DD" sets month and day. */
  lemma DateMonthDay(L: seq<Elem>, m: nat, d: nat, rest: string, f: Fields)
    requires |L| >= 5 && L[2] == ZeroMonth && L[3] == Lit(':') && L[4] == ZeroDay
    requires 1 <= m <= 12 && d < 100
    ensures ParseElems(L[2..], FixedDigits(m, 2) + (":" + (FixedDigits(d, 2) + rest)), f)
         == ParseElems(L[5..], rest, f.(month := m, day := d))
  {
    var r4 := FixedDigits(d, 2) + rest;
    var r3 := ":" + r4;
    var f3 := f.(month := m);
    TwoDigitsRead(m, r3, true);
    Advance(L, 2, FixedDigits(m, 2) + r3, f, r3, f3);
    Advance(L, 3, r3, f3, r4, f3);
    TwoDigitsRead(d, rest, true);
    Advance(L, 4, r4, f3, rest, f3.(day := d));
  }

  /** The date part "YYYY:MM:DD" sets year, month and day. */
  lemma ParseDatePart(L: seq<Elem>, w: Wall, rest: string, f: Fields)
    requires |L| >= 5 && L[0] == LongYear && L[1] == Lit(':') && L[2] == ZeroMonth
    requires L[3] == Lit(':') && L[4] == ZeroDay
    requires ValidWall(w) && 0 <= w.year < 10000
    requires rest != [] && rest[0] == ' '
    ensures ParseElems(L, DateText(w) + rest, f)
         == ParseElems(L[5..], rest, f.(year := w.year, month := w.month, day := w.day))
  {
    var r2 := FixedDigits(w.month, 2) + (":" + (FixedDigits(w.day, 2) + rest));
    assert DateText(w) + rest == FixedDigits(w.year, 4) + (":" + r2);
    DateYear(L, w.year, r2, f);
    DateMonthDay(L, w.month, w.day, rest, f.(year := w.year));
  }

  /** " HH:" sets the hour. */
  lemma ClockHour(L: seq<Elem>, h: nat, r8: string, f: Fields)
    requires |L| >= 3 && L[0] == Lit(' ') && L[1] == Hour && L[2] == Lit(':') && h < 24
    ensures ParseElems(L, " " + (FixedDigits(h, 2) + (":" + r8)), f) == ParseElems(L[3..], r8, f.(hour := h))
  {
    var H := FixedDigits(h, 2);
    var r7 := ":" + r8;
    var r6 := H + r7;
    SpaceBeforeDigits(H, r7);
    assert " " + H + r7 == " " + r6;
    Advance(L, 0, " " + r6, f, r6, f);
    TwoDigitsRead(h, r7, false);
    Advance(L, 1, r6, f, r7, f.(hour := h));
    Advance(L, 2, r7, f.(hour := h), r8, f.(hour := h));
    assert L[0..] == L;
  }

  /** What the elements after the seconds make of the rest of the text: a fraction
      written after the seconds of a layout that has none is taken first. */
  function AfterSeconds(later: seq<Elem>, rest: string, f: Fields): Option<Fields>
  {
    match ExtraFraction(rest, later, f)
    case None => None
    case Some((v, g)) => ParseElems(later, v, g)
  }

  /** "MM:SS" sets minute and second; the rest goes to the later elements. */
  lemma ClockMinuteSecond(L: seq<Elem>, m: nat, sec: nat, rest: string, f: Fields)
    requires |L| >= 6 && L[3] == ZeroMinute && L[4] == Lit(':') && L[5] == ZeroSecond
    requires m < 60 && sec < 60
    ensures ParseElems(L[3..], FixedDigits(m, 2) + (":" + (FixedDigits(sec, 2) + rest)), f)
         == AfterSeconds(L[6..], rest, f.(minute := m, second := sec))
  {
    var r10 := FixedDigits(sec, 2) + rest;
    var r9 := ":" + r10;
    var f9 := f.(minute := m);
    TwoDigitsRead(m, r9, true);
    Advance(L, 3, FixedDigits(m, 2) + r9, f, r9, f9);
    Advance(L, 4, r9, f9, r10, f9);
    TwoDigitsRead(sec, rest, true);
    assert L[5..][0] == L[5] && L[5..][1..] == L[6..];
  }

  /** The clock part " HH:MM:SS" sets hour, minute and second. */
  lemma ParseClockPart(L: seq<Elem>, w: Wall, rest: string, f: Fields)
    requires |L| >= 6 && L[0] == Lit(' ') && L[1] == Hour && L[2] == Lit(':')
    requires L[3] == ZeroMinute && L[4] == Lit(':') && L[5] == ZeroSecond
    requires ValidWall(w)
    ensures ParseElems(L, ClockText(w) + rest, f)
         == AfterSeconds(L[6..], rest, f.(hour := w.hour, minute := w.minute, second := w.second))
  {
    var r8 := FixedDigits(w.minute, 2) + (":" + (FixedDigits(w.second, 2) + rest));
    assert ClockText(w) + rest == " " + (FixedDigits(w.hour, 2) + (":" + r8));
    ClockHour(L, w.hour, r8, f);
    ClockMinuteSecond(L, w.minute, w.second, rest, f.(hour := w.hour));
  }

  /** The text form followed by `rest`, against a layout that starts like `ExifLayout`. */
  lemma ParseExifFields(L: seq<Elem>, w: Wall, rest: string, f: Fields)
    requires |L| >= 11 && L[..11] == ExifLayout
    requires ValidWall(w) && 0 <= w.year < 10000
    ensures ParseElems(L, ExifText(w) + rest, f)
         == AfterSeconds(L[11..], rest, f.(year := w.year, month := w.month, day := w.day,
                                           hour := w.hour, minute := w.minute, second := w.second))
  {
    assert L[0] == LongYear && L[1] == Lit(':') && L[2] == ZeroMonth && L[3] == Lit(':') && L[4] == ZeroDay;
    assert L[5] == Lit(' ') && L[6] == Hour && L[7] == Lit(':') && L[8] == ZeroMinute;
    assert L[9] == Lit(':') && L[10] == ZeroSecond;
    ParseDatePart(L, w, ClockText(w) + rest, f);
    assert DateText(w) + (ClockText(w) + rest) == ExifText(w) + rest;
    ParseClockPart(L[5..], w, rest, f.(year := w.year, month := w.month, day := w.day));
    assert L[5..][6..] == L[11..];
  }

  /** The components of a wall clock, with the nanoseconds and the zone found. */
  function WallFields(w: Wall, nsec: int, zone: ZoneInfo): Fields
  {
    Fields(w.year, w.month, w.day, w.hour, w.minute, w.second, nsec, zone)
  }

  /** The text form of a valid wall clock with a four-digit year parses, with the first layout,
      back to that wall clock read as UTC, with no fraction. */
  lemma ParseExifText(w: Wall)
    requires ValidWall(w) && 0 <= w.year < 10000
    ensures Parse(ExifLayout, ExifText(w)) == Some(Time(SecondsFromWall(w), 0, UTC))
  {
    assert ParseElems(ExifLayout, ExifText(w), Initial) == Some(WallFields(w, 0, NoZone)) by {
      ParseExifFields(ExifLayout, w, "", Initial);
      assert ExifText(w) + "" == ExifText(w);
    }
    FinishWall(w, 0, NoZone);
  }

  /** Complete fields finish as the wall clock read in the zone found: UTC
      without a zone or with "Z", a fixed zone with a numeric offset. */
  lemma FinishWall(w: Wall, nsec: int, zone: ZoneInfo)
    requires ValidWall(w)
    ensures Finish(WallFields(w, nsec, zone))
         == Some(match zone
                 case ZoneOffset(offset) => Time(SecondsFromWall(w) - offset, nsec, Fixed(offset))
                 case _ => Time(SecondsFromWall(w), nsec, UTC))
  {
  }

  lemma FinishOffset(w: Wall, nsec: int, offset: int)
    requires ValidWall(w)
    ensures Finish(WallFields(w, nsec, ZoneOffset(offset)))
         == Some(Time(SecondsFromWall(w) - offset, nsec, Fixed(offset)))
  {
    FinishWall(w, nsec, ZoneOffset(offset));
  }

  /** Reading the text form back gives the same wall clock. */
  lemma ExifTextWall(w: Wall)
    requires ValidWall(w) && 0 <= w.year < 10000
    ensures Parse(ExifLayout, ExifText(w)).Some?
    ensures WallOf(Parse(ExifLayout, ExifText(w)).value) == w
  {
    ParseExifText(w);
    WallRoundTrip(w);
  }

  // ----- The other three layouts -----

  predicate ZoneSign(c: char) { c == '+' || c == '-' }

  /** The offset in seconds east of UTC of a zone written with a sign, hours and minutes. */
  function SignedOffset(sign: char, h: nat, m: nat): int
  {
    if sign == '-' then -((h * 60 + m) * 60) else (h * 60 + m) * 60
  }

  /** A zone as "-0700" writes it. */
  function NumericZoneText(sign: char, h: nat, m: nat): string
  {
    [sign] + FixedDigits(h, 2) + FixedDigits(m, 2)
  }

  /** A zone other than "Z" as "Z07:00" writes it. */
  function ColonZoneText(sign: char, h: nat, m: nat): string
  {
    [sign] + FixedDigits(h, 2) + ":" + FixedDigits(m, 2)
  }

  /** Milliseconds and the literal 'Z' as ".000Z" writes them. */
  function MillisText(ms: nat): string
  {
    "." + FixedDigits(ms, 3) + "Z"
  }

  lemma NumericZoneRead(sign: char, h: nat, m: nat)
    requires ZoneSign(sign) && h <= 24 && m <= 60
    ensures NumericZoneText(sign, h, m)[0] == sign
    ensures NumericZone(NumericZoneText(sign, h, m)) == Some((SignedOffset(sign, h, m), ""))
  {
    var z := NumericZoneText(sign, h, m);
    assert |z| == 5 && z[0] == sign && z[5..] == "";
    assert z[1..3] == FixedDigits(h, 2) + "" && z[3..5] == FixedDigits(m, 2) + "";
    TwoDigitsRead(h, "", true);
    TwoDigitsRead(m, "", true);
    assert ZoneFields(sign, z[1..3], z[3..5]) == Some(SignedOffset(sign, h, m));
  }

  lemma ColonZoneRead(sign: char, h: nat, m: nat)
    requires ZoneSign(sign) && h <= 24 && m <= 60
    ensures ColonZoneText(sign, h, m)[0] == sign
    ensures ColonZone(ColonZoneText(sign, h, m)) == Some((SignedOffset(sign, h, m), ""))
  {
    var z := ColonZoneText(sign, h, m);
    assert |z| == 6 && z[0] == sign && z[3] == ':' && z[6..] == "";
    assert z[1..3] == FixedDigits(h, 2) + "" && z[4..6] == FixedDigits(m, 2) + "";
    TwoDigitsRead(h, "", true);
    TwoDigitsRead(m, "", true);
    assert ZoneFields(sign, z[1..3], z[4..6]) == Some(SignedOffset(sign, h, m));
  }

  /** Text after the seconds that is not a fraction is left to the later elements. */
  lemma NoExtraFraction(later: seq<Elem>, rest: string, f: Fields)
    requires rest == [] || !CommaOrPeriod(rest[0])
    ensures AfterSeconds(later, rest, f) == ParseElems(later, rest, f)
  {
  }



  /** A layout that starts like `ExifLayout`, on the text form followed by text
      that is not a fraction: the later elements decide. */
  lemma ParseExifThen(L: seq<Elem>, w: Wall, rest: string)
    requires |L| >= 11 && L[..11] == ExifLayout
    requires ValidWall(w) && 0 <= w.year < 10000
    requires rest == [] || !CommaOrPeriod(rest[0])
    ensures Parse(L, ExifText(w) + rest) ==
              match ParseElems(L[11..], rest, WallFields(w, 0, NoZone))
              case None => None
              case Some(f) => Finish(f)
  {
    ParseExifFields(L, w, rest, Initial);
    NoExtraFraction(L[11..], rest, WallFields(w, 0, NoZone));
  }

  /** A layout of `ExifLayout` and one zone element that reads the whole rest as
      an offset: the text is that wall clock in a fixed zone with that offset. */
  lemma ParseExifZone(L: seq<Elem>, w: Wall, z: string, offset: int)
    requires |L| == 12 && L[..11] == ExifLayout
    requires ValidWall(w) && 0 <= w.year < 10000
    requires z == [] || !CommaOrPeriod(z[0])
    requires Step(L[11], [], z, WallFields(w, 0, NoZone)) == Some(("", WallFields(w, 0, ZoneOffset(offset))))
    ensures Parse(L, ExifText(w) + z) == Some(Time(SecondsFromWall(w) - offset, 0, Fixed(offset)))
  {
    ParseExifThen(L, w, z);
    assert L[11..] == [L[11]] && L[11..][1..] == [];
    var g := WallFields(w, 0, ZoneOffset(offset));
    assert ParseElems(L[11..], z, WallFields(w, 0, NoZone)) == Some(g);
    assert Parse(L, ExifText(w) + z) == Finish(g);
    FinishOffset(w, 0, offset);
  }

  /** The three longer layouts are `ExifLayout` and their own elements. The
      lemmas below about one layout go through lemmas about any layout of that
      shape, which keeps each proof small. */
  lemma LayoutShapes()
    ensures |ExifLayout| == 11 && ExifLayout[..11] == ExifLayout && ExifLayout[11..] == []
    ensures |ExifOffsetLayout| == 12 && ExifOffsetLayout[..11] == ExifLayout && ExifOffsetLayout[11] == NumTZ
    ensures |ExifMillisLayout| == 13 && ExifMillisLayout[..11] == ExifLayout
    ensures ExifMillisLayout[11..] == [FracSecond0(3), Lit('Z')]
    ensures |ExifIsoZoneLayout| == 12 && ExifIsoZoneLayout[..11] == ExifLayout
    ensures ExifIsoZoneLayout[11] == ISO8601ColonTZ
  {
  }

  /** A text that either zone form reads starts with its sign, and one that the
      colon form reads has its ':' where a numeric zone has its minutes. */
  lemma ZoneTextsStartWithSign(z: string)
    ensures NumericZone(z).Some? ==> ZoneSign(z[0])
    ensures ColonZone(z).Some? ==> ZoneSign(z[0]) && NumericZone(z).None?
  {
    if ColonZone(z).Some? {
      assert z[3..5][0] == ':';
    }
  }

  /** `ParseExifZone` for a layout ending in a numeric zone. */
  lemma ParseExifNumericZone(L: seq<Elem>, w: Wall, z: string, offset: int)
    requires |L| == 12 && L[..11] == ExifLayout && L[11] == NumTZ
    requires ValidWall(w) && 0 <= w.year < 10000
    requires NumericZone(z) == Some((offset, ""))
    ensures Parse(L, ExifText(w) + z) == Some(Time(SecondsFromWall(w) - offset, 0, Fixed(offset)))
  {
    ZoneTextsStartWithSign(z);
    ParseExifZone(L, w, z, offset);
  }

  /** `ParseExifZone` for a layout ending in a colon zone. */
  lemma ParseExifColonZone(L: seq<Elem>, w: Wall, z: string, offset: int)
    requires |L| == 12 && L[..11] == ExifLayout && L[11] == ISO8601ColonTZ
    requires ValidWall(w) && 0 <= w.year < 10000
    requires ColonZone(z) == Some((offset, ""))
    ensures Parse(L, ExifText(w) + z) == Some(Time(SecondsFromWall(w) - offset, 0, Fixed(offset)))
  {
    ZoneTextsStartWithSign(z);
    ParseExifZone(L, w, z, offset);
  }

  lemma ParseZuluText(L: seq<Elem>, w: Wall)
    requires |L| == 12 && L[..11] == ExifLayout && L[11] == ISO8601ColonTZ
    requires ValidWall(w) && 0 <= w.year < 10000
    ensures Parse(L, ExifText(w) + "Z") == Some(Time(SecondsFromWall(w), 0, UTC))
  {
    ParseExifThen(L, w, "Z");
    assert L[11..] == [ISO8601ColonTZ] && L[11..][1..] == [];
    assert ParseElems(L[11..], "Z", WallFields(w, 0, NoZone)) == Some(WallFields(w, 0, ZoneUTC));
    FinishWall(w, 0, ZoneUTC);
  }

  /** The second layout reads the text form followed by any text that the numeric
      zone form reads whole (such as `NumericZoneText`) as that wall clock in a
      fixed zone with the offset read. */
  lemma ParseExifOffsetText(w: Wall, z: string, offset: int)
    requires ValidWall(w) && 0 <= w.year < 10000
    requires NumericZone(z) == Some((offset, ""))
    ensures Parse(ExifOffsetLayout, ExifText(w) + z) == Some(Time(SecondsFromWall(w) - offset, 0, Fixed(offset)))
  {
    LayoutShapes();
    ParseExifNumericZone(ExifOffsetLayout, w, z, offset);
  }

  lemma MillisRead(ms: nat, f: Fields)
    requires ms < 1000
    ensures ParseElems([FracSecond0(3), Lit('Z')], MillisText(ms), f) == Some(f.(nsec := ms * 1_000_000))
  {
    var t := MillisText(ms);
    var d := FixedDigits(ms, 3);
    assert Pow10(3) == 1000;
    assert t[1..4] == d && t[0] == '.' && t[4..] == "Z";
    assert Unsigned(d) == d;
    assert Pow10(6) == 1_000_000;
    assert ParseNanoseconds(t, 4) == Some(ms * 1_000_000);
    var L: seq<Elem> := [FracSecond0(3), Lit('Z')];
    assert L[1..] == [Lit('Z')] && L[1..][1..] == [];
  }

  lemma ParseMillisText(L: seq<Elem>, w: Wall, ms: nat)
    requires |L| == 13 && L[..11] == ExifLayout && L[11..] == [FracSecond0(3), Lit('Z')]
    requires ValidWall(w) && 0 <= w.year < 10000 && ms < 1000
    ensures Parse(L, ExifText(w) + MillisText(ms)) == Some(Time(SecondsFromWall(w), ms * 1_000_000, UTC))
  {
    ParseExifFields(L, w, MillisText(ms), Initial);
    assert NextIsFraction(L[11..]);
    MillisRead(ms, WallFields(w, 0, NoZone));
    assert ParseElems(L, ExifText(w) + MillisText(ms), Initial) == Some(WallFields(w, ms * 1_000_000, NoZone));
    FinishWall(w, ms * 1_000_000, NoZone);
  }

  /** The third layout reads milliseconds and a literal 'Z' as UTC with that fraction. */
  lemma ParseExifMillisText(w: Wall, ms: nat)
    requires ValidWall(w) && 0 <= w.year < 10000 && ms < 1000
    ensures Parse(ExifMillisLayout, ExifText(w) + MillisText(ms))
              == Some(Time(SecondsFromWall(w), ms * 1_000_000, UTC))
  {
    LayoutShapes();
    ParseMillisText(ExifMillisLayout, w, ms);
  }

  /** The fourth layout reads "Z" as UTC. */
  lemma ParseExifZuluText(w: Wall)
    requires ValidWall(w) && 0 <= w.year < 10000
    ensures Parse(ExifIsoZoneLayout, ExifText(w) + "Z") == Some(Time(SecondsFromWall(w), 0, UTC))
  {
    LayoutShapes();
    ParseZuluText(ExifIsoZoneLayout, w);
  }

  /** The fourth layout reads the text form followed by any text other than "Z"
      that the colon zone form reads whole (such as `ColonZoneText`) as that wall
      clock in a fixed zone with the offset read. */
  lemma ParseExifColonText(w: Wall, z: string, offset: int)
    requires ValidWall(w) && 0 <= w.year < 10000
    requires ColonZone(z) == Some((offset, ""))
    ensures Parse(ExifIsoZoneLayout, ExifText(w) + z) == Some(Time(SecondsFromWall(w) - offset, 0, Fixed(offset)))
  {
    LayoutShapes();
    ParseExifColonZone(ExifIsoZoneLayout, w, z, offset);
  }

  // ----- Texts a layout refuses, so that a later layout decides -----

  /** Digits followed by a non-digit: exactly the digits lead. */
  lemma {:induction false} LeadingDigitsThen(d: string, rest: string)
    requires AllDigits(d) && (rest == [] || !IsDigit(rest[0]))
    ensures LeadingDigits(d + rest) == |d|
  {
    if d != [] {
      assert (d + rest)[1..] == d[1..] + rest;
      LeadingDigitsThen(d[1..], rest);
    } else {
      assert d + rest == rest;
    }
  }

  /** After the seconds of a layout that has no fraction, ".mmmZ" leaves "Z" (or fails). */
  lemma MillisAsExtraFraction(ms: nat, later: seq<Elem>, f: Fields)
    requires ms < 1000 && !NextIsFraction(later)
    ensures var e := ExtraFraction(MillisText(ms), later, f);
            e.None? || e.value.0 == "Z"
  {
    var t := MillisText(ms);
    var d := FixedDigits(ms, 3);
    assert t[2..] == d[1..] + "Z" && t[1] == d[0];
    LeadingDigitsThen(d[1..], "Z");
    assert t[4..] == "Z";
  }

  /** A layout that ends at the seconds refuses any text after them that is not a fraction. */
  lemma RefusesSuffix(L: seq<Elem>, w: Wall, rest: string)
    requires |L| == 11 && L[..11] == ExifLayout
    requires ValidWall(w) && 0 <= w.year < 10000
    requires rest != [] && !CommaOrPeriod(rest[0])
    ensures Parse(L, ExifText(w) + rest) == None
  {
    ParseExifThen(L, w, rest);
    assert L[11..] == [];
  }

  /** The first layout refuses any text after the seconds that is not a fraction. */
  lemma PlainLayoutRejectsSuffix(w: Wall, rest: string)
    requires ValidWall(w) && 0 <= w.year < 10000
    requires rest != [] && !CommaOrPeriod(rest[0])
    ensures Parse(ExifLayout, ExifText(w) + rest) == None
  {
    LayoutShapes();
    RefusesSuffix(ExifLayout, w, rest);
  }

  lemma NumericZoneRejectsZulu(f: Fields)
    ensures ParseElems([NumTZ], "Z", f) == None
  {
  }

  /** The first layout, or one that adds only a numeric zone, refuses ".mmmZ". */
  lemma ExifLayoutsRejectMillis(L: seq<Elem>, w: Wall, ms: nat)
    requires |L| >= 11 && L[..11] == ExifLayout && (|L| == 11 || (|L| == 12 && L[11] == NumTZ))
    requires ValidWall(w) && 0 <= w.year < 10000 && ms < 1000
    ensures Parse(L, ExifText(w) + MillisText(ms)) == None
  {
    ParseExifFields(L, w, MillisText(ms), Initial);
    var g := WallFields(w, 0, NoZone);
    assert L[11..] == [] || L[11..] == [NumTZ];
    MillisAsExtraFraction(ms, L[11..], g);
    match ExtraFraction(MillisText(ms), L[11..], g)
    case None =>
    case Some((v, g')) =>
      if L[11..] == [NumTZ] {
        NumericZoneRejectsZulu(g');
      }
  }

  /** The first two layouts refuse ".mmmZ": the 'Z' is left over, or is no numeric zone. */
  lemma FirstLayoutsRejectMillis(w: Wall, ms: nat)
    requires ValidWall(w) && 0 <= w.year < 10000 && ms < 1000
    ensures Parse(ExifLayout, ExifText(w) + MillisText(ms)) == None
    ensures Parse(ExifOffsetLayout, ExifText(w) + MillisText(ms)) == None
  {
    LayoutShapes();
    ExifLayoutsRejectMillis(ExifLayout, w, ms);
    ExifLayoutsRejectMillis(ExifOffsetLayout, w, ms);
  }

  /** A layout that ends in a numeric zone refuses a text that is no numeric zone. */
  lemma NumericZoneRefuses(L: seq<Elem>, w: Wall, z: string)
    requires |L| == 12 && L[..11] == ExifLayout && L[11] == NumTZ
    requires ValidWall(w) && 0 <= w.year < 10000
    requires z != [] && !CommaOrPeriod(z[0]) && NumericZone(z).None?
    ensures Parse(L, ExifText(w) + z) == None
  {
    ParseExifThen(L, w, z);
    assert L[11..] == [NumTZ];
  }

  lemma NumericZoneRefusesColon(L: seq<Elem>, w: Wall, z: string)
    requires |L| == 12 && L[..11] == ExifLayout && L[11] == NumTZ
    requires ValidWall(w) && 0 <= w.year < 10000
    requires ColonZone(z).Some?
    ensures Parse(L, ExifText(w) + z) == None
  {
    ZoneTextsStartWithSign(z);
    NumericZoneRefuses(L, w, z);
  }

  /** The second layout refuses "Z", which is too short for a numeric zone. */
  lemma OffsetLayoutRejectsZulu(w: Wall)
    requires ValidWall(w) && 0 <= w.year < 10000
    ensures Parse(ExifOffsetLayout, ExifText(w) + "Z") == None
  {
    LayoutShapes();
    NumericZoneRefuses(ExifOffsetLayout, w, "Z");
  }

  /** The second layout refuses a text that the colon zone form reads: the
      minutes of a numeric zone would start at the ':'. */
  lemma OffsetLayoutRejectsColon(w: Wall, z: string)
    requires ValidWall(w) && 0 <= w.year < 10000
    requires ColonZone(z).Some?
    ensures Parse(ExifOffsetLayout, ExifText(w) + z) == None
  {
    LayoutShapes();
    NumericZoneRefusesColon(ExifOffsetLayout, w, z);
  }

  /** A layout that ends in three fraction digits and 'Z' refuses a text that
      does not start with '.' or ','. */
  lemma FractionRefuses(L: seq<Elem>, w: Wall, z: string)
    requires |L| == 13 && L[..11] == ExifLayout && L[11..] == [FracSecond0(3), Lit('Z')]
    requires ValidWall(w) && 0 <= w.year < 10000
    requires z != [] && !CommaOrPeriod(z[0])
    ensures Parse(L, ExifText(w) + z) == None
  {
    ParseExifThen(L, w, z);
  }

  /** The third layout refuses a zone: it wants a '.' or ',' and three digits first. */
  lemma MillisLayoutRejectsZone(w: Wall, z: string)
    requires ValidWall(w) && 0 <= w.year < 10000
    requires z != [] && !CommaOrPeriod(z[0])
    ensures Parse(ExifMillisLayout, ExifText(w) + z) == None
  {
    LayoutShapes();
    FractionRefuses(ExifMillisLayout, w, z);
  }

  // ----- The four layouts in the decoder's order -----

  /** Four layouts shaped like `ExifLayout`, `ExifOffsetLayout`, `ExifMillisLayout`
      and `ExifIsoZoneLayout`, in that order. */
  predicate ExifFormats(layouts: seq<seq<Elem>>)
  {
    && |layouts| == 4
    && |layouts[0]| == 11 && layouts[0][..11] == ExifLayout
    && |layouts[1]| == 12 && layouts[1][..11] == ExifLayout && layouts[1][11] == NumTZ
    && |layouts[2]| == 13 && layouts[2][..11] == ExifLayout && layouts[2][11..] == [FracSecond0(3), Lit('Z')]
    && |layouts[3]| == 12 && layouts[3][..11] == ExifLayout && layouts[3][11] == ISO8601ColonTZ
  }

  lemma ExifFormatsOfLayouts()
    ensures ExifFormats([ExifLayout, ExifOffsetLayout, ExifMillisLayout, ExifIsoZoneLayout])
  {
    LayoutShapes();
  }

  /** A numeric zone: the first layout refuses it, the second reads it. */
  lemma OffsetTextReads(layouts: seq<seq<Elem>>, w: Wall, z: string, offset: int)
    requires ExifFormats(layouts)
    requires ValidWall(w) && 0 <= w.year < 10000
    requires NumericZone(z) == Some((offset, ""))
    ensures Parse(layouts[0], ExifText(w) + z) == None
    ensures Parse(layouts[1], ExifText(w) + z) == Some(Time(SecondsFromWall(w) - offset, 0, Fixed(offset)))
  {
    ZoneTextsStartWithSign(z);
    RefusesSuffix(layouts[0], w, z);
    ParseExifNumericZone(layouts[1], w, z, offset);
  }

  /** ".mmmZ": the first two layouts refuse it, the third reads it. */
  lemma MillisTextReads(layouts: seq<seq<Elem>>, w: Wall, ms: nat)
    requires ExifFormats(layouts)
    requires ValidWall(w) && 0 <= w.year < 10000 && ms < 1000
    ensures Parse(layouts[0], ExifText(w) + MillisText(ms)) == None
    ensures Parse(layouts[1], ExifText(w) + MillisText(ms)) == None
    ensures Parse(layouts[2], ExifText(w) + MillisText(ms)) == Some(Time(SecondsFromWall(w), ms * 1_000_000, UTC))
  {
    ExifLayoutsRejectMillis(layouts[0], w, ms);
    ExifLayoutsRejectMillis(layouts[1], w, ms);
    ParseMillisText(layouts[2], w, ms);
  }

  /** "Z": the first three layouts refuse it, the fourth reads it. */
  lemma ZuluTextReads(layouts: seq<seq<Elem>>, w: Wall)
    requires ExifFormats(layouts)
    requires ValidWall(w) && 0 <= w.year < 10000
    ensures Parse(layouts[0], ExifText(w) + "Z") == None
    ensures Parse(layouts[1], ExifText(w) + "Z") == None
    ensures Parse(layouts[2], ExifText(w) + "Z") == None
    ensures Parse(layouts[3], ExifText(w) + "Z") == Some(Time(SecondsFromWall(w), 0, UTC))
  {
    RefusesSuffix(layouts[0], w, "Z");
    NumericZoneRefuses(layouts[1], w, "Z");
    FractionRefuses(layouts[2], w, "Z");
    ParseZuluText(layouts[3], w);
  }

  /** A zone with a colon: the first three layouts refuse it, the fourth reads it. */
  lemma ColonTextReads(layouts: seq<seq<Elem>>, w: Wall, z: string, offset: int)
    requires ExifFormats(layouts)
    requires ValidWall(w) && 0 <= w.year < 10000
    requires ColonZone(z) == Some((offset, ""))
    ensures Parse(layouts[0], ExifText(w) + z) == None
    ensures Parse(layouts[1], ExifText(w) + z) == None
    ensures Parse(layouts[2], ExifText(w) + z) == None
    ensures Parse(layouts[3], ExifText(w) + z) == Some(Time(SecondsFromWall(w) - offset, 0, Fixed(offset)))
  {
    ZoneTextsStartWithSign(z);
    RefusesSuffix(layouts[0], w, z);
    NumericZoneRefusesColon(layouts[1], w, z);
    FractionRefuses(layouts[2], w, z);
    ParseExifColonZone(layouts[3], w, z, offset);
  }
}
