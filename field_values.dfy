/**
  `setFieldValue` and `parseTime`: how the text found for a field becomes a
  value of the field's Go type.
*/
module FieldValues {
  import opened Wrappers
  import opened GoStrconv
  import opened GoTime
  import opened GoTimeParse
  import opened ExifDataTypes
  import opened ImageDataSchema

  /** `timeFormats`, tried in this order. */
  const TimeFormats: seq<seq<Elem>> := [ExifLayout, ExifOffsetLayout, ExifMillisLayout, ExifIsoZoneLayout]

  /** The first layout that parses the text decides. */
  function FirstParse(layouts: seq<seq<Elem>>, value: string): (r: Option<Time>)
    ensures r.None? <==> forall k :: 0 <= k < |layouts| ==> Parse(layouts[k], value).None?
    ensures r.Some? ==> ValidTime(r.value)
  {
    if layouts == [] then None
    else match Parse(layouts[0], value)
      case Some(t) => Some(t)
      case None => FirstParse(layouts[1..], value)
  }

  /** `parseTime`: the text read with the time formats, in order. */
  function TimeOf(value: string): (r: Option<Time>)
    ensures r.Some? ==> ValidTime(r.value)
  {
    FirstParse(TimeFormats, value)
  }

  /** The result is that of the first layout that parses. */
  lemma {:induction false} FirstParseAt(layouts: seq<seq<Elem>>, value: string, k: nat)
    requires k < |layouts| && Parse(layouts[k], value).Some?
    requires forall j :: 0 <= j < k ==> Parse(layouts[j], value).None?
    ensures FirstParse(layouts, value) == Parse(layouts[k], value)
  {
    if k > 0 {
      var first := Parse(layouts[0], value);
      assert first.None?;
      var rest := layouts[1..];
      assert rest[k - 1] == layouts[k];
      forall j | 0 <= j < k - 1
        ensures Parse(rest[j], value).None?
      {
        assert rest[j] == layouts[j + 1];
      }
      FirstParseAt(rest, value, k - 1);
    }
  }

  /** The text form of a valid wall clock with a four-digit year reads, with the
      first format, as that wall clock in UTC. */
  lemma ParseTimeOfExifText(w: Wall)
    requires ValidWall(w) && 0 <= w.year < 10000
    ensures TimeOf(ExifText(w)) == Some(Time(SecondsFromWall(w), 0, UTC))
  {
    ParseExifText(w);
    FirstParseAt(TimeFormats, ExifText(w), 0);
  }

  /** With four layouts, the first that parses decides. */
  lemma FirstParseOfFour(layouts: seq<seq<Elem>>, value: string)
    requires |layouts| == 4
    ensures Parse(layouts[0], value).Some? ==> FirstParse(layouts, value) == Parse(layouts[0], value)
    ensures Parse(layouts[0], value).None? && Parse(layouts[1], value).Some? ==>
              FirstParse(layouts, value) == Parse(layouts[1], value)
    ensures Parse(layouts[0], value).None? && Parse(layouts[1], value).None? && Parse(layouts[2], value).Some? ==>
              FirstParse(layouts, value) == Parse(layouts[2], value)
    ensures Parse(layouts[0], value).None? && Parse(layouts[1], value).None? && Parse(layouts[2], value).None?
              && Parse(layouts[3], value).Some? ==>
              FirstParse(layouts, value) == Parse(layouts[3], value)
  {
    var k := if Parse(layouts[0], value).Some? then 0
             else if Parse(layouts[1], value).Some? then 1
             else if Parse(layouts[2], value).Some? then 2
             else 3;
    if Parse(layouts[k], value).Some? {
      FirstParseAt(layouts, value, k);
    }
  }

  /** The decoder's time formats have the shapes the parsing lemmas describe. */
  lemma TimeFormatsShapes()
    ensures ExifFormats(TimeFormats)
  {
    ExifFormatsOfLayouts();
  }

  /** A numeric zone after the seconds (any text the "-0700" form reads whole,
      such as `NumericZoneText`) is read with the second format, as that wall
      clock in a fixed zone with the offset read. */
  lemma ParseTimeOfOffsetText(w: Wall, z: string, offset: int)
    requires ValidWall(w) && 0 <= w.year < 10000
    requires NumericZone(z) == Some((offset, ""))
    ensures TimeOf(ExifText(w) + z) == Some(Time(SecondsFromWall(w) - offset, 0, Fixed(offset)))
  {
    TimeFormatsShapes();
    OffsetTextReads(TimeFormats, w, z, offset);
    FirstParseOfFour(TimeFormats, ExifText(w) + z);
  }

  /** Milliseconds and 'Z' after the seconds (".000Z") are read with the third
      format, as that wall clock in UTC with that fraction. */
  lemma ParseTimeOfMillisText(w: Wall, ms: nat)
    requires ValidWall(w) && 0 <= w.year < 10000 && ms < 1000
    ensures TimeOf(ExifText(w) + MillisText(ms)) == Some(Time(SecondsFromWall(w), ms * 1_000_000, UTC))
  {
    TimeFormatsShapes();
    MillisTextReads(TimeFormats, w, ms);
    FirstParseOfFour(TimeFormats, ExifText(w) + MillisText(ms));
  }

  /** A bare 'Z' after the seconds is read with the fourth format, as UTC. */
  lemma ParseTimeOfZuluText(w: Wall)
    requires ValidWall(w) && 0 <= w.year < 10000
    ensures TimeOf(ExifText(w) + "Z") == Some(Time(SecondsFromWall(w), 0, UTC))
  {
    TimeFormatsShapes();
    ZuluTextReads(TimeFormats, w);
    FirstParseOfFour(TimeFormats, ExifText(w) + "Z");
  }

  /** A zone with a colon after the seconds (any text other than "Z" that the
      "Z07:00" form reads whole, such as `ColonZoneText`) is read with the fourth
      format, as that wall clock in a fixed zone with the offset read. */
  lemma ParseTimeOfColonText(w: Wall, z: string, offset: int)
    requires ValidWall(w) && 0 <= w.year < 10000
    requires ColonZone(z) == Some((offset, ""))
    ensures TimeOf(ExifText(w) + z) == Some(Time(SecondsFromWall(w) - offset, 0, Fixed(offset)))
  {
    TimeFormatsShapes();
    ColonTextReads(TimeFormats, w, z, offset);
    FirstParseOfFour(TimeFormats, ExifText(w) + z);
  }

  /** Why a text could not be stored in a field. */
  datatype SetError =
    | IntSyntax(text: string)        // strconv.ParseInt failed
    | FloatSyntax(text: string)      // strconv.ParseFloat failed
    | TimeSyntax(text: string)       // no time format matched
    | BadRational(e: RationalError)  // NewRational failed

  /** What `setFieldValue` does with a field: stores a value, leaves the field
      alone without complaint (a kind it does not handle), or reports an error
      and leaves the field alone. */
  datatype SetOutcome = Assigned(v: Value) | Untouched | Failed(err: SetError)

  /** `setFieldValue` on a field of kind `kind` given `text`. */
  function Coerce(kind: Kind, text: string, parseFloat: string -> FloatParse): (r: SetOutcome)
    ensures r.Assigned? ==> KindOf(r.v) == kind
    ensures r.Untouched? <==> kind == BoolKind
  {
    match kind
    case StringKind => Assigned(Str(text))
    case IntKind =>
      (match ParseInt(text)
       case Some(n) => Assigned(Int(n))
       case None => Failed(IntSyntax(text)))
    case Float64Kind =>
      var f := parseFloat(text);
      if f.ok then Assigned(Float(f.value)) else Failed(FloatSyntax(text))
    case TimeKind =>
      (match TimeOf(text)
       case Some(t) => Assigned(Timestamp(t))
       case None => Failed(TimeSyntax(text)))
    case RationalKind =>
      (match NewRational(text)
       case Success(q) => Assigned(Rat(q))
       case Failure(e) => Failed(BadRational(e)))
    case BoolKind => Untouched
  }

  /** An integer field reads back what `%d` writes. */
  lemma CoerceInt(n: Int64, parseFloat: string -> FloatParse)
    ensures Coerce(IntKind, FormatInt(n), parseFloat) == Assigned(Int(n))
  {
    ParseFormatInt(n);
  }

  /** A Rational field reads back what `Rational.String` writes. */
  lemma CoerceRational(q: Rational, parseFloat: string -> FloatParse)
    ensures Coerce(RationalKind, String(q), parseFloat) == Assigned(Rat(q))
  {
    NewRationalOfString(q);
  }

  /** A time field reads the EXIF text form of a wall clock as that wall clock in UTC. */
  lemma CoerceTime(w: Wall, parseFloat: string -> FloatParse)
    requires ValidWall(w) && 0 <= w.year < 10000
    ensures Coerce(TimeKind, ExifText(w), parseFloat) == Assigned(Timestamp(Time(SecondsFromWall(w), 0, UTC)))
  {
    ParseTimeOfExifText(w);
  }

  /** Text that is not a number leaves an integer field alone with an error. */
  lemma CoerceIntRejects(text: string, parseFloat: string -> FloatParse)
    requires text == [] || (forall i :: 0 <= i < |text| ==> !IsDigit(text[i]))
    ensures Coerce(IntKind, text, parseFloat) == Failed(IntSyntax(text))
  {
    if text != [] {
      var digits := Unsigned(text);
      if digits != [] {
        assert digits[0] == text[|text| - |digits|];
      }
    }
  }
}
