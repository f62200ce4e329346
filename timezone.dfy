/**
  `adjustTimeWithTimezone` and `processLocalTime`: once the GPS position has
  given a time-zone name, the record's offset text is set and its times are
  moved into that zone.
*/
module TimeZoneAdjust {
  import opened Wrappers
  import opened GoStrconv
  import opened GoTime
  import opened GoTimeParse
  import opened ImageDataSchema
  import opened ExifInputs

  /** `fmt.Sprintf("%s%02d%02d", sign, hours, minutes)` of an offset in seconds. */
  function FormatOffset(offset: int): (s: string)
    ensures |s| >= 5 && (s[0] == '-' <==> offset < 0) && (s[0] == '+' <==> offset >= 0)
    ensures -100 * 3600 < offset < 100 * 3600 ==> |s| == 5
  {
    var a := if offset < 0 then -offset else offset;
    (if offset < 0 then "-" else "+") + Pad2(a / 3600) + Pad2(a % 3600 / 60)
  }

  /** The sign and the magnitude of the offset, written as `FormatOffset` does. */
  lemma FormatOffsetOf(offset: int, sign: string, a: int)
    requires offset < 0 ==> sign == "-" && a == -offset
    requires offset >= 0 ==> sign == "+" && a == offset
    ensures sign + Pad2(a / 3600) + Pad2(a % 3600 / 60) == FormatOffset(offset)
  {
  }

  lemma Pad2Read(n: nat, rest: string)
    requires n < 100
    ensures GetNum(Pad2(n) + rest, true) == Some((n, rest))
  {
    var d := Pad2(n);
    TwoDigitsValue(d);
    var s := d + rest;
    assert s[0] == d[0] && s[1] == d[1] && s[2..] == rest;
  }

  lemma TwoDigitsValue(d: string)
    requires |d| == 2 && AllDigits(d)
    ensures DigitsValue(d) == 10 * DigitValue(d[0]) + DigitValue(d[1])
  {
    var first := d[..1];
    assert first[..0] == [] && first[0] == d[0];
    assert DigitsValue(first) == DigitValue(d[0]);
    assert d[..|d| - 1] == first;
  }

  lemma WholeMinutes(a: nat)
    ensures (a / 3600 * 60 + a % 3600 / 60) * 60 == a - a % 60
  {
    var h, r := a / 3600, a % 3600;
    var m := r / 60;
    assert a == 3600 * h + r;
    assert r == 60 * m + r % 60;
    assert a == 60 * (60 * h + m) + r % 60;
    assert a % 60 == r % 60;
  }

  /** The offset text reads back, as a "-0700" zone, as the offset cut to whole minutes. */
  lemma OffsetRoundTrip(offset: int)
    requires -25 * 3600 < offset < 25 * 3600
    ensures NumericZone(FormatOffset(offset)).Some?
    ensures var z := NumericZone(FormatOffset(offset)).value;
            z.1 == "" &&
            z.0 == if offset < 0 then -(-offset - -offset % 60) else offset - offset % 60
  {
    var a := if offset < 0 then -offset else offset;
    var sign := if offset < 0 then "-" else "+";
    var h, m := a / 3600, a % 3600 / 60;
    var s := FormatOffset(offset);
    assert s == sign + Pad2(h) + Pad2(m);
    assert s[1..3] == Pad2(h) + "" && s[3..5] == Pad2(m) + "";
    Pad2Read(h, "");
    Pad2Read(m, "");
    WholeMinutes(a);
  }

  /** A record time moved into `loc`: the zero time stays, a time with a zone
      other than UTC is shown in `loc`, and a UTC time is read as wall-clock
      time of `loc`. */
  function Adjust(t: Time, loc: Location): Time
  {
    if IsZero(t) then t
    else if !IsUTC(t) then In(t, loc)
    else Date(WallOf(t), t.nsec, loc)
  }

  /** What `Adjust` keeps: the zero time, the instant of a zoned time, and the
      wall clock of a UTC time whose wall clock `loc` neither skips nor repeats. */
  lemma AdjustKeeps(t: Time, loc: Location)
    requires ValidTime(t)
    ensures IsZero(t) ==> Adjust(t, loc) == t
    ensures !IsZero(t) ==> Adjust(t, loc).zone.Named? && Adjust(t, loc).zone.name == loc.name
    ensures !IsZero(t) && !IsUTC(t) ==> Adjust(t, loc).sec == t.sec && Adjust(t, loc).nsec == t.nsec
    ensures !IsZero(t) && IsUTC(t) && SteadyAt(loc, t.sec) ==>
              WallOf(Adjust(t, loc)) == WallOf(t) && Adjust(t, loc).nsec == t.nsec
  {
    if !IsZero(t) && IsUTC(t) {
      var w := WallOf(t);
      assert w == WallFromSeconds(t.sec);
      if SteadyAt(loc, t.sec) {
        DateKeepsWall(w, t.nsec, loc);
      } else {
        DateKeepsWall(w, t.nsec, Location(loc.name, _ => 0));
        assert Date(w, t.nsec, loc).zone.Named?;
      }
    }
  }

  /** The time-zone name of the record. */
  function ZoneName(r: seq<Value>): string
    requires WellTyped(r)
  {
    r[GPSTimeZone].s
  }

  /** The fields `adjustTimeWithTimezone` may write. */
  predicate AdjustedField(i: int)
  {
    i == TimeOffset || i == HasTimeOffset || i == DateTime || i == DateTimeOriginal || i == DateTimeDigitized
  }

  /** What `adjustTimeWithTimezone` writes once `loc` has loaded: the flag set,
      the offset at `now` as text, and the three record times of `r` moved into
      `loc`. */
  predicate AdjustedTo(r: seq<Value>, r': seq<Value>, loc: Location, now: int)
    requires WellTyped(r) && |r'| == FieldCount
  {
    && r'[HasTimeOffset] == Bool(true)
    && r'[TimeOffset] == Str(FormatOffset(loc.offsetAt(now)))
    && r'[DateTime] == Timestamp(Adjust(r[DateTime].t, loc))
    && r'[DateTimeOriginal] == Timestamp(Adjust(r[DateTimeOriginal].t, loc))
    && r'[DateTimeDigitized] == Timestamp(Adjust(r[DateTimeDigitized].t, loc))
  }

  /** `adjustTimeWithTimezone`: nothing without a zone name or when the zone
      cannot be loaded; otherwise the offset at the current instant as text,
      the flag, and the three record times moved into the zone. */
  function AdjustTimes(r: seq<Value>, env: Environment): (r': seq<Value>)
    requires WellTyped(r)
    ensures WellTyped(r')
    ensures forall i :: 0 <= i < FieldCount && !AdjustedField(i) ==> r'[i] == r[i]
    ensures ZoneName(r) == "" || env.loadLocation(ZoneName(r)).None? ==> r' == r
  {
    var zone := ZoneName(r);
    if zone == "" then r
    else match env.loadLocation(zone)
      case None => r
      case Some(loc) =>
        r[TimeOffset := Str(FormatOffset(loc.offsetAt(env.now)))]
         [HasTimeOffset := Bool(true)]
         [DateTimeOriginal := Timestamp(Adjust(r[DateTimeOriginal].t, loc))]
         [DateTimeDigitized := Timestamp(Adjust(r[DateTimeDigitized].t, loc))]
         [DateTime := Timestamp(Adjust(r[DateTime].t, loc))]
  }

  /** After an adjustment with a loaded zone, the offset text is the zone's
      current offset, readable as a "-0700" zone, and every non-zero record time
      carries the zone. */
  lemma AdjustTimesLoaded(r: seq<Value>, env: Environment, loc: Location)
    requires WellTyped(r) && ZoneName(r) != "" && env.loadLocation(ZoneName(r)) == Some(loc)
    ensures AdjustedTo(r, AdjustTimes(r, env), loc, env.now)
  {
  }

  /** `processLocalTime`: the GPS timestamp shown in the record's zone, when
      there is a zone name, a non-zero timestamp and the zone loads. */
  function LocalTime(r: seq<Value>, env: Environment): (r': seq<Value>)
    requires WellTyped(r)
    ensures WellTyped(r')
    ensures forall i :: 0 <= i < FieldCount && i != GPSTimestampLocal ==> r'[i] == r[i]
    ensures ZoneName(r) == "" || IsZero(r[GPSTimestamp].t) || env.loadLocation(ZoneName(r)).None? ==>
              r' == r
    ensures ZoneName(r) != "" && !IsZero(r[GPSTimestamp].t) && env.loadLocation(ZoneName(r)).Some? ==>
              r'[GPSTimestampLocal] == Timestamp(In(r[GPSTimestamp].t, env.loadLocation(ZoneName(r)).value))
    ensures r'[GPSTimestampLocal] != r[GPSTimestampLocal] ==>
              && ZoneName(r) != "" && !IsZero(r[GPSTimestamp].t)
              && env.loadLocation(ZoneName(r)).Some?
              && r'[GPSTimestampLocal].t.sec == r[GPSTimestamp].t.sec
              && r'[GPSTimestampLocal].t.nsec == r[GPSTimestamp].t.nsec
              && r'[GPSTimestampLocal].t.zone.Named?
              && r'[GPSTimestampLocal].t.zone.name == env.loadLocation(ZoneName(r)).value.name
  {
    var zone := ZoneName(r);
    var ts := r[GPSTimestamp].t;
    if zone == "" || IsZero(ts) then r
    else match env.loadLocation(zone)
      case None => r
      case Some(loc) => r[GPSTimestampLocal := Timestamp(In(ts, loc))]
  }
}
