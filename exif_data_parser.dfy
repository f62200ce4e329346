/**
  The decoder of exifData_parser.go: from an EXIF payload to the `ImageData`
  record. A generic pass fills every non-GPS field from the metadata map
  through the EXIF tag names of its struct tag; a GPS pass then fills the GPS
  fields from the GPS directory and moves the record's times into the zone of
  the GPS position.
*/
module ExifDataParsing {
  import opened Wrappers
  import opened GoStrings
  import opened GoStrconv
  import opened GoTime
  import opened GoTimeParse
  import opened ExifDataTypes
  import opened StructTags
  import opened ImageDataSchema
  import opened ExifInputs
  import opened Metadata
  import opened TagLookup
  import opened FieldValues
  import opened TimeZoneAdjust
  import opened GpsExtraction

  /** `isSpecialField`: the GPS fields, which the generic pass leaves to the GPS pass. */
  predicate IsSpecialField(name: string)
  {
    HasPrefix(name, "GPS")
  }

  /** What field `i` holds after the generic pass: the text of the first
      present EXIF tag name its struct tag lists, stored as the field's type;
      the zero value when the field is a GPS field, its tag is malformed or
      lists nothing, no name is present, or the text does not convert. */
  function GenericValue(i: nat, m: map<string, string>, env: Environment): (v: Value)
    requires i < FieldCount
    ensures KindOf(v) == Field(i).kind
  {
    var field := Field(i);
    var zero := ZeroOf(field.kind);
    if IsSpecialField(field.name) then zero
    else match ExifTagsOf(StructTag(field))
      case Failure(_) => zero
      case Success(tags) =>
        if tags == [] then zero
        else match Lookup(m, tags)
          case None => zero
          case Some(text) =>
            match Coerce(field.kind, text, env.parseFloat)
            case Assigned(v) => v
            case _ => zero
  }

  /** The record after the generic pass. */
  function GenericRecord(m: map<string, string>, env: Environment): (r: seq<Value>)
    ensures WellTyped(r)
  {
    seq(FieldCount, i requires 0 <= i < FieldCount => GenericValue(i, m, env))
  }

  /** The record after both passes (`parseWithReflection`). */
  function DecodeRecord(m: map<string, string>, dir: GpsDirectory, env: Environment): (r: seq<Value>)
    ensures WellTyped(r)
  {
    ExtractGps(GenericRecord(m, env), m, dir, env).0
  }

  /** Why `Parse` failed. */
  datatype ParseError =
    | ExtractFailed(reason: string)  // the flat entries could not be extracted
    | IndexFailed(reason: string)    // the IFD index could not be built

  /** `Parse`: the decoded record, or the zero record and the error. The GPS
      pass's own errors are only logged. */
  function ParseSpec(payload: ExifPayload, env: Environment): (res: (seq<Value>, Option<ParseError>))
    ensures WellTyped(res.0)
    ensures res.1.Some? <==> payload.entries.Failure? || payload.index.Failure?
    ensures res.1.Some? ==> res.0 == ZeroRecord()
  {
    match payload.entries
    case Failure(e) => (ZeroRecord(), Some(ExtractFailed(e)))
    case Success(entries) =>
      match payload.index
      case Failure(e) => (ZeroRecord(), Some(IndexFailed(e)))
      case Success(dir) => (DecodeRecord(MetadataOf(entries), dir, env), None)
  }

  // ----- Properties of the two passes -----

  // Which schema fields carry special names, checked a slice of the schema at
  // a time so that each proof stays small.
  lemma SpecialFieldsFrom0()
    ensures forall i :: 0 <= i < 9 ==> IsSpecialField(Field(i).name)
  {
    forall i | 0 <= i < 9 ensures IsSpecialField(Field(i).name) {
      assert Field(i).name[..3] == "GPS";
    }
  }

  lemma SpecialFieldsFrom9()
    ensures forall i :: 9 <= i < 13 ==> IsSpecialField(Field(i).name)
  {
    forall i | 9 <= i < 13 ensures IsSpecialField(Field(i).name) {
      assert Field(i).name[..3] == "GPS";
    }
  }

  lemma SpecialFieldsFrom13()
    ensures forall i :: 13 <= i < 17 ==> IsSpecialField(Field(i).name)
  {
    forall i | 13 <= i < 17 ensures IsSpecialField(Field(i).name) {
      assert Field(i).name[..3] == "GPS";
    }
  }

  lemma SpecialFieldsFrom17()
    ensures forall i :: 17 <= i < 24 ==> !IsSpecialField(Field(i).name)
  {
    forall i | 17 <= i < 24 ensures !IsSpecialField(Field(i).name) {
      assert Field(i).name[0] != 'G';
    }
  }

  lemma SpecialFieldsFrom24()
    ensures forall i :: 24 <= i < 30 ==> !IsSpecialField(Field(i).name)
  {
    forall i | 24 <= i < 30 ensures !IsSpecialField(Field(i).name) {
      assert Field(i).name[0] != 'G';
    }
  }

  lemma SpecialFieldsFrom30()
    ensures forall i :: 30 <= i < 37 ==> !IsSpecialField(Field(i).name)
  {
    forall i | 30 <= i < 37 ensures !IsSpecialField(Field(i).name) {
      assert Field(i).name[0] != 'G';
    }
  }

  lemma SpecialFieldsFrom37()
    ensures forall i :: 37 <= i < 43 ==> !IsSpecialField(Field(i).name)
  {
    forall i | 37 <= i < 43 ensures !IsSpecialField(Field(i).name) {
      assert Field(i).name[0] != 'G';
    }
  }

  lemma SpecialFieldsFrom43()
    ensures forall i :: 43 <= i < 49 ==> !IsSpecialField(Field(i).name)
  {
    forall i | 43 <= i < 49 ensures !IsSpecialField(Field(i).name) {
      assert Field(i).name[0] != 'G';
    }
  }

  lemma SpecialFieldsFrom49()
    ensures forall i :: 49 <= i < FieldCount ==> !IsSpecialField(Field(i).name)
  {
    forall i | 49 <= i < FieldCount ensures !IsSpecialField(Field(i).name) {
      assert Field(i).name[0] != 'G';
    }
  }

  /** The fields the generic pass skips are exactly the GPS block. */
  lemma SpecialFieldsAreGpsBlock()
    ensures forall i :: 0 <= i < FieldCount ==> (IsSpecialField(Field(i).name) <==> GpsField(i))
  {
    SpecialFieldsFrom0();
    SpecialFieldsFrom9();
    SpecialFieldsFrom13();
    SpecialFieldsFrom17();
    SpecialFieldsFrom24();
    SpecialFieldsFrom30();
    SpecialFieldsFrom37();
    SpecialFieldsFrom43();
    SpecialFieldsFrom49();
  }

  /** The generic pass leaves every GPS field at its zero value. */
  lemma GenericSkipsGps(m: map<string, string>, env: Environment)
    ensures forall i :: 0 <= i < FieldCount && GpsField(i) ==> GenericRecord(m, env)[i] == ZeroOf(Field(i).kind)
  {
    SpecialFieldsAreGpsBlock();
  }

  /** EXIF tag names that can be listed in a struct tag: no comma, no quote. */
  predicate PlainNames(names: seq<string>)
  {
    forall k :: 0 <= k < |names| ==> ',' !in names[k] && '"' !in names[k]
  }

  /** A non-GPS field tagged `exif:"A,B,…"` holds the converted text of the
      first of A, B, … present in the map, or its zero value when none is
      present or the text does not convert. */
  lemma GenericFromAliases(i: nat, names: seq<string>, m: map<string, string>, env: Environment)
    requires i < FieldCount && !IsSpecialField(Field(i).name)
    requires Field(i).exif == Some(names) && names != [] && PlainNames(names)
    ensures FirstPresent(m, names).None? ==> GenericValue(i, m, env) == ZeroOf(Field(i).kind)
    ensures FirstPresent(m, names).Some? ==>
              GenericValue(i, m, env) ==
                match Coerce(Field(i).kind, FirstPresent(m, names).value, env.parseFloat)
                case Assigned(v) => v
                case _ => ZeroOf(Field(i).kind)
  {
    var text := Join(names, ',');
    JoinWithout(names, ',', '"');
    ExifTagsOfSingle(text);
    SplitJoin(names, ',');
    assert Candidates([Tag("exif", text)]) == names by {
      assert [Tag("exif", text)][..0] == [];
    }
  }

  /** `HasTimeOffset` has no struct tag: the generic pass never sets it, even
      when it stores an offset text in `TimeOffset`. */
  lemma GenericLeavesHasTimeOffset(m: map<string, string>, env: Environment)
    ensures GenericValue(HasTimeOffset, m, env) == Bool(false)
  {
    assert Field(HasTimeOffset).exif == None;
    EmptyTag();
  }

  /** The text of the `k`-th name of a field's tag is used when that name is
      present and every earlier one is absent; whether it converts decides the
      field, and later names are not consulted. */
  lemma GenericFromAlias(i: nat, names: seq<string>, k: nat, m: map<string, string>, env: Environment)
    requires i < FieldCount && !IsSpecialField(Field(i).name)
    requires Field(i).exif == Some(names) && PlainNames(names)
    requires k < |names| && Present(m, names[k])
    requires forall j :: 0 <= j < k ==> !Present(m, names[j])
    ensures GenericValue(i, m, env) ==
              match Coerce(Field(i).kind, m[names[k]], env.parseFloat)
              case Assigned(v) => v
              case _ => ZeroOf(Field(i).kind)
  {
    GenericFromAliases(i, names, m, env);
    FirstPresentAt(m, names, k);
  }

  /** The tag of `ISOSpeed` lists "ISOSpeedRatings", then "ISO". */
  lemma IsoSpeedTag(i: nat)
    requires i == ISOSpeed
    ensures Field(i).exif == Some(["ISOSpeedRatings", "ISO"]) && PlainNames(Field(i).exif.value)
    ensures Field(i).kind == IntKind && !IsSpecialField(Field(i).name)
  {
    var names := ["ISOSpeedRatings", "ISO"];
    assert Field(i) == FieldSpec("ISOSpeed", IntKind, Some(names));
    assert Field(i).name[0] != 'G';
    assert ',' !in names[0] && '"' !in names[0] && ',' !in names[1] && '"' !in names[1];
  }

  /** `ISOSpeed` prefers "ISOSpeedRatings" and falls back to "ISO". */
  lemma IsoSpeedFallsBack(i: nat, m: map<string, string>, env: Environment, n: Int64)
    requires i == ISOSpeed
    requires !Present(m, "ISOSpeedRatings") && "ISO" in m && m["ISO"] == FormatInt(n)
    ensures GenericValue(i, m, env) == Int(n)
  {
    IsoSpeedTag(i);
    assert FormatInt(n) != [];
    GenericFromAlias(i, ["ISOSpeedRatings", "ISO"], 1, m, env);
    CoerceInt(n, env.parseFloat);
  }

  /** A present but unreadable first alias is not skipped: "ISO" is never
      consulted and `ISOSpeed` stays zero. */
  lemma IsoSpeedUnreadableFirstAlias(i: nat, m: map<string, string>, env: Environment)
    requires i == ISOSpeed
    requires "ISOSpeedRatings" in m && m["ISOSpeedRatings"] != ""
    requires forall j :: 0 <= j < |m["ISOSpeedRatings"]| ==> !IsDigit(m["ISOSpeedRatings"][j])
    ensures GenericValue(i, m, env) == Int(0)
  {
    IsoSpeedTag(i);
    GenericFromAlias(i, ["ISOSpeedRatings", "ISO"], 0, m, env);
    CoerceIntRejects(m["ISOSpeedRatings"], env.parseFloat);
  }

  /** The tag of `DateTime` lists "DateTime", then "CreateDate". */
  lemma DateTimeTag(i: nat)
    requires i == DateTime
    ensures Field(i).exif == Some(["DateTime", "CreateDate"]) && PlainNames(Field(i).exif.value)
    ensures Field(i).kind == TimeKind && !IsSpecialField(Field(i).name)
  {
    var names := ["DateTime", "CreateDate"];
    assert Field(i) == FieldSpec("DateTime", TimeKind, Some(names));
    assert Field(i).name[0] != 'G';
    assert ',' !in names[0] && '"' !in names[0] && ',' !in names[1] && '"' !in names[1];
  }

  /** `DateTime` reads the EXIF text form of a wall clock as that wall clock in UTC. */
  lemma DateTimeFromExifText(i: nat, m: map<string, string>, env: Environment, w: Wall)
    requires i == DateTime
    requires ValidWall(w) && 0 <= w.year < 10000
    requires "DateTime" in m && m["DateTime"] == ExifText(w)
    ensures GenericValue(i, m, env) == Timestamp(Time(SecondsFromWall(w), 0, UTC))
  {
    DateTimeTag(i);
    assert |ExifText(w)| > 0 by {
      assert |DateText(w)| == 10;
    }
    GenericFromAlias(i, ["DateTime", "CreateDate"], 0, m, env);
    CoerceTime(w, env.parseFloat);
  }

  /** Outside the GPS block and the fields the zone adjustment writes, the
      decoded record is the generic pass's. */
  lemma DecodeKeepsGeneric(m: map<string, string>, dir: GpsDirectory, env: Environment, i: nat)
    requires i < FieldCount && !GpsField(i) && !AdjustedField(i)
    ensures DecodeRecord(m, dir, env)[i] == GenericValue(i, m, env)
  {
    ExtractGpsFrame(GenericRecord(m, env), m, dir, env, i);
  }

  /** When the GPS position names no zone, every non-GPS field is the generic pass's. */
  lemma DecodeWithoutZone(m: map<string, string>, dir: GpsDirectory, env: Environment, i: nat)
    requires i < FieldCount && !GpsField(i)
    requires dir.GpsIfd? && env.tzFinder.Some? ==> env.tzFinder.value(dir.info.longitude, dir.info.latitude) == ""
    ensures DecodeRecord(m, dir, env)[i] == GenericValue(i, m, env)
  {
    ExtractGpsWithoutZone(GenericRecord(m, env), m, dir, env, i);
  }

  lemma SingleEntryMetadata(key: string, ifd: string, text: string)
    requires key != "" && ifd != ThumbnailFqIfdPath && text != "" && '\0' !in text
    ensures MetadataOf([Entry(key, ifd, text + "\0")]) == map[key := text]
  {
    SplitAfterPiece(text, '\0', "");
    SplitWithoutSeparator("", '\0');
    assert text + "\0" == text + ['\0'] + "";
    assert NulTerminated(text + "\0") == text;
    assert [Entry(key, ifd, text + "\0")][..0] == [];
  }

  /** End to end: a single NUL-terminated entry outside the thumbnail IFD,
      named by the first name of a text field's tag, gives that field its
      text (outside the GPS block and the fields the zone adjustment writes). */
  lemma EntryReachesField(i: nat, names: seq<string>, key: string, ifd: string, text: string, dir: GpsDirectory, env: Environment)
    requires i < FieldCount && !GpsField(i) && !AdjustedField(i) && Field(i).kind == StringKind
    requires Field(i).exif == Some(names) && PlainNames(names) && names != [] && names[0] == key
    requires key != "" && ifd != ThumbnailFqIfdPath && text != "" && '\0' !in text
    ensures ParseSpec(ExifPayload(Success([Entry(key, ifd, text + "\0")]), Success(dir)), env).0[i] == Str(text)
  {
    var m := MetadataOf([Entry(key, ifd, text + "\0")]);
    SingleEntryMetadata(key, ifd, text);
    SpecialFieldsAreGpsBlock();
    GenericFromAlias(i, names, 0, m, env);
    DecodeKeepsGeneric(m, dir, env, i);
  }

  /** End to end: an entry of the thumbnail IFD leaves every field outside the
      GPS block and the zone-adjusted fields at its zero value. */
  lemma ThumbnailEntryIgnored(i: nat, e: Entry, dir: GpsDirectory, env: Environment)
    requires i < FieldCount && !GpsField(i) && !AdjustedField(i)
    requires e.ifdPath == ThumbnailFqIfdPath
    ensures ParseSpec(ExifPayload(Success([e]), Success(dir)), env).0[i] == ZeroOf(Field(i).kind)
  {
    var m := MetadataOf([e]);
    assert [e][..0] == [] && [e][0] == e && !Accepted(e);
    assert m == MetadataOf([]);
    DecodeKeepsGeneric(m, dir, env, i);
  }

  /** The decoder. */
  class ExifDataParser {
    /** The `exif` pairs of each field already seen, by field position. The
        Go cache is keyed by field name; the names of a struct's fields are
        distinct, so position and name pick out the same entry. */
    var tagCache: map<nat, seq<Tag>>

    /** Every cached entry is what the field's struct tag yields. */
    predicate Valid()
      reads this
    {
      forall i :: i in tagCache ==> i < FieldCount && ExifTagsOf(StructTag(Field(i))) == Success(tagCache[i])
    }

    /** `NewExifDataParser`: an empty cache. */
    constructor ()
      ensures tagCache == map[]
      ensures Valid()
    {
      tagCache := map[];
    }

    /** `getExifTags`: the `exif` pairs of the field's struct tag, from the cache
        or parsed and then cached; a malformed tag is reported and not cached. */
    method GetExifTags(i: nat) returns (r: Result<seq<Tag>, TagError>)
      requires i < FieldCount && Valid()
      modifies this
      ensures Valid()
      ensures r == ExifTagsOf(StructTag(Field(i)))
      ensures tagCache == if i in old(tagCache) || r.Failure? then old(tagCache) else old(tagCache)[i := r.value]
    {
      if i in tagCache {
        return Success(tagCache[i]);
      }
      var parsed := ParseStructTag(StructTag(Field(i)));
      if parsed.Failure? {
        return Failure(parsed.error);
      }
      var tags := parsed.value;
      var exifTags: seq<Tag> := [];
      var j := 0;
      while j < |tags|
        invariant 0 <= j <= |tags|
        invariant exifTags == ExifOnly(tags[..j])
        invariant tagCache == old(tagCache)
      {
        assert tags[..j + 1] == tags[..j] + [tags[j]];
        ExifOnlyAppend(tags[..j], [tags[j]]);
        if tags[j].key == "exif" {
          exifTags := exifTags + [tags[j]];
        }
        j := j + 1;
      }
      assert tags[..|tags|] == tags;
      assert ExifTagsOf(StructTag(Field(i))) == Success(exifTags);
      tagCache := tagCache[i := exifTags];
      forall k | k in tagCache
        ensures k < FieldCount && ExifTagsOf(StructTag(Field(k))) == Success(tagCache[k])
      {
        if k != i {
          assert k in old(tagCache) && tagCache[k] == old(tagCache)[k];
        }
      }
      return Success(exifTags);
    }

    /** `getValueFromMetadata`: the value of the first EXIF tag name, over the
        pairs in order and the comma-separated names of each, that is in the
        map with a non-empty value. */
    method GetValueFromMetadata(metadata: map<string, string>, fieldTags: seq<Tag>) returns (value: string, ok: bool)
      ensures ok <==> Lookup(metadata, fieldTags).Some?
      ensures ok ==> value == Lookup(metadata, fieldTags).value
      ensures !ok ==> value == ""
    {
      var i := 0;
      while i < |fieldTags|
        invariant 0 <= i <= |fieldTags|
        invariant Lookup(metadata, fieldTags[..i]).None?
      {
        var names := Split(fieldTags[i].value, ',');
        var found;
        value, found := FindPresent(metadata, names);
        LookupStep(metadata, fieldTags, i);
        if found {
          LookupPrefix(metadata, fieldTags, i + 1);
          return value, true;
        }
        i := i + 1;
      }
      assert fieldTags[..i] == fieldTags;
      return "", false;
    }

    /** The inner loop of `getValueFromMetadata`: the value of the first of
        one pair's names that is in the map with a non-empty value. */
    method FindPresent(metadata: map<string, string>, names: seq<string>) returns (value: string, ok: bool)
      ensures ok <==> FirstPresent(metadata, names).Some?
      ensures ok ==> value == FirstPresent(metadata, names).value
      ensures !ok ==> value == ""
    {
      var j := 0;
      while j < |names|
        invariant 0 <= j <= |names|
        invariant forall k :: 0 <= k < j ==> !Present(metadata, names[k])
      {
        var name := names[j];
        if name in metadata && metadata[name] != "" {
          FirstPresentAt(metadata, names, j);
          return metadata[name], true;
        }
        j := j + 1;
      }
      return "", false;
    }

    /** `buildMetadataMap`: the extraction error, or the map of the accepted entries. */
    method BuildMetadataMap(entries: Result<seq<Entry>, string>) returns (r: Result<map<string, string>, string>)
      ensures entries.Failure? ==> r == Failure(entries.error)
      ensures entries.Success? ==> r == Success(MetadataOf(entries.value))
    {
      if entries.Failure? {
        return Failure(entries.error);
      }
      var list := entries.value;
      var metadata: map<string, string> := map[];
      var i := 0;
      while i < |list|
        invariant 0 <= i <= |list|
        invariant metadata == MetadataOf(list[..i])
      {
        var entry := list[i];
        var s := Split(entry.formattedFirst, '\0');
        assert list[..i + 1][..i] == list[..i];
        if entry.tagName == "" || |s| == 0 {
        } else if entry.ifdPath == ThumbnailFqIfdPath {
        } else if |s| > 0 && s[0] != "" {
          metadata := metadata[entry.tagName := s[0]];
        }
        i := i + 1;
      }
      assert list[..i] == list;
      return Success(metadata);
    }

    /** `parseTime`: the first of the time formats that reads the text. */
    method ParseTime(value: string) returns (t: Time, ok: bool)
      ensures ok <==> TimeOf(value).Some?
      ensures ok ==> t == TimeOf(value).value
      ensures !ok ==> t == ZeroTime
    {
      var k := 0;
      while k < |TimeFormats|
        invariant 0 <= k <= |TimeFormats|
        invariant forall j :: 0 <= j < k ==> GoTimeParse.Parse(TimeFormats[j], value).None?
      {
        var parsed := GoTimeParse.Parse(TimeFormats[k], value);
        if parsed.Some? {
          FirstParseAt(TimeFormats, value, k);
          return parsed.value, true;
        }
        k := k + 1;
      }
      return ZeroTime, false;
    }

    /** `setFieldValue`: field `i` converted from the text, or left as it was. */
    method SetFieldValue(data: ImageData, i: nat, value: string, env: Environment) returns (err: Option<SetError>)
      requires data.Valid() && i < FieldCount
      modifies data
      ensures data.Valid()
      ensures match Coerce(Field(i).kind, value, env.parseFloat)
              case Assigned(v) => data.fields == old(data.fields)[i := v] && err.None?
              case Untouched => data.fields == old(data.fields) && err.None?
              case Failed(e) => data.fields == old(data.fields) && err == Some(e)
    {
      match Field(i).kind
      case StringKind =>
        data.fields := data.fields[i := Str(value)];
        err := None;
      case IntKind =>
        var n := ParseInt(value);
        if n.None? {
          return Some(IntSyntax(value));
        }
        data.fields := data.fields[i := Int(n.value)];
        err := None;
      case Float64Kind =>
        var f := env.parseFloat(value);
        if !f.ok {
          return Some(FloatSyntax(value));
        }
        data.fields := data.fields[i := Float(f.value)];
        err := None;
      case TimeKind =>
        var t, ok := ParseTime(value);
        if !ok {
          return Some(TimeSyntax(value));
        }
        data.fields := data.fields[i := Timestamp(t)];
        err := None;
      case RationalKind =>
        var q := NewRational(value);
        if q.Failure? {
          return Some(BadRational(q.error));
        }
        data.fields := data.fields[i := Rat(q.value)];
        err := None;
      case BoolKind =>
        err := None;
    }

    /** `adjustTimeWithTimezone`. */
    method AdjustTimeWithTimezone(data: ImageData, env: Environment)
      requires data.Valid()
      modifies data
      ensures data.Valid()
      ensures data.fields == AdjustTimes(old(data.fields), env)
    {
      var zone := data.fields[GPSTimeZone].s;
      if zone == "" {
        return;
      }
      var loaded := env.loadLocation(zone);
      if loaded.None? {
        return;
      }
      var loc := loaded.value;
      ghost var r := data.fields;
      WriteTimeOffset(data, loc.offsetAt(env.now));
      ghost var r1 := data.fields;
      assert r1[DateTimeOriginal] == r[DateTimeOriginal] && r1[DateTimeDigitized] == r[DateTimeDigitized];
      AdjustTimeField(data, DateTimeOriginal, loc);
      ghost var r2 := data.fields;
      assert r2[DateTimeDigitized] == r[DateTimeDigitized] && r2[DateTime] == r[DateTime];
      AdjustTimeField(data, DateTimeDigitized, loc);
      assert data.fields[DateTime] == r[DateTime];
      AdjustTimeField(data, DateTime, loc);
    }

    /** The offset part of `adjustTimeWithTimezone`: the offset as "+hhmm" or
        "-hhmm" in `TimeOffset`, and `HasTimeOffset` set. */
    method WriteTimeOffset(data: ImageData, offset: int)
      requires data.Valid()
      modifies data
      ensures data.Valid()
      ensures data.fields == old(data.fields)[TimeOffset := Str(FormatOffset(offset))][HasTimeOffset := Bool(true)]
    {
      var text := OffsetText(offset);
      WellTypedUpdate(data.fields, TimeOffset, Str(text));
      data.fields := data.fields[TimeOffset := Str(text)];
      WellTypedUpdate(data.fields, HasTimeOffset, Bool(true));
      data.fields := data.fields[HasTimeOffset := Bool(true)];
    }

    /** The offset, in seconds east of UTC, as "+hhmm" or "-hhmm". */
    method OffsetText(offset: int) returns (text: string)
      ensures text == FormatOffset(offset)
    {
      var sign := "+";
      var a := offset;
      if a < 0 {
        sign := "-";
        a := -a;
      }
      var hours := a / 3600;
      var minutes := a % 3600 / 60;
      text := sign + Pad2(hours) + Pad2(minutes);
      FormatOffsetOf(offset, sign, a);
    }

    /** One time field of `adjustTimeWithTimezone`: a non-zero time with a zone
        other than UTC is shown in `loc`; a UTC one is read as wall-clock time of `loc`. */
    method AdjustTimeField(data: ImageData, i: nat, loc: Location)
      requires data.Valid() && i < FieldCount && Field(i).kind == TimeKind
      modifies data
      ensures data.Valid()
      ensures data.fields == old(data.fields)[i := Timestamp(Adjust(old(data.fields)[i].t, loc))]
    {
      var t := data.fields[i].t;
      if !IsZero(t) {
        if !IsUTC(t) {
          t := In(t, loc);
        } else {
          t := Date(WallOf(t), t.nsec, loc);
        }
        data.fields := data.fields[i := Timestamp(t)];
      }
    }

    /** `processLocalTime`. */
    method ProcessLocalTime(data: ImageData, env: Environment)
      requires data.Valid()
      modifies data
      ensures data.Valid()
      ensures data.fields == LocalTime(old(data.fields), env)
    {
      var zone := data.fields[GPSTimeZone].s;
      var timestamp := data.fields[GPSTimestamp].t;
      if zone == "" || IsZero(timestamp) {
        return;
      }
      var loaded := env.loadLocation(zone);
      if loaded.None? {
        return;
      }
      data.fields := data.fields[GPSTimestampLocal := Timestamp(In(timestamp, loaded.value))];
    }

    /** `processGPSCoordinates`: reports NaN coordinates, else stores them and
        the zone the finder names for them. */
    method ProcessGPSCoordinates(data: ImageData, info: GpsInfo, env: Environment) returns (invalid: bool)
      requires data.Valid()
      modifies data
      ensures data.Valid()
      ensures invalid <==> Coordinates(old(data.fields), info, env).None?
      ensures invalid ==> data.fields == old(data.fields)
      ensures !invalid ==> data.fields == Coordinates(old(data.fields), info, env).value
    {
      if info.latitude.NaN? || info.longitude.NaN? {
        return true;
      }
      data.fields := data.fields[GPSLatitude := Float(info.latitude)];
      data.fields := data.fields[GPSLongitude := Float(info.longitude)];
      if env.tzFinder.Some? {
        var name := env.tzFinder.value(info.longitude, info.latitude);
        if name != "" {
          data.fields := data.fields[GPSTimeZone := Str(name)];
          AdjustTimeWithTimezone(data, env);
        }
      }
      return false;
    }

    /** `processAdditionalGPSMetadata`. */
    method ProcessAdditionalGPSMetadata(data: ImageData, metadata: map<string, string>, env: Environment)
      requires data.Valid()
      modifies data
      ensures data.Valid()
      ensures data.fields == AdditionalGps(old(data.fields), metadata, env)
    {
      StoreText(data, GPSProcessingMethod, metadata);
      StoreText(data, GPSStatus, metadata);
      StoreText(data, GPSSatellites, metadata);
      StoreFloat(data, GPSHPositioningError, metadata, env);
      StoreFloat(data, GPSSpeed, metadata, env);
      StoreFloat(data, GPSTrack, metadata, env);
      StoreFloat(data, GPSImgDirection, metadata, env);
      StoreFloat(data, GPSDestLatitude, metadata, env);
      StoreFloat(data, GPSDestLongitude, metadata, env);
      StoreFloat(data, GPSDestBearing, metadata, env);
      StoreFloat(data, GPSDestDistance, metadata, env);
    }

    /** One text field of `processAdditionalGPSMetadata`: the metadata value
        under the field's own name, when present. */
    method StoreText(data: ImageData, i: nat, metadata: map<string, string>)
      requires data.Valid() && AdditionalField(i) && i <= GPSSatellites
      modifies data
      ensures data.Valid()
      ensures data.fields == CopyText(old(data.fields), i, metadata)
    {
      AdditionalKinds(i);
      var key := Field(i).name;
      if key in metadata {
        WellTypedUpdate(data.fields, i, Str(metadata[key]));
        data.fields := data.fields[i := Str(metadata[key])];
      }
    }

    /** One float field of `processAdditionalGPSMetadata`: `strconv.ParseFloat`
        of the metadata value under the field's own name, when present, its
        error ignored. */
    method StoreFloat(data: ImageData, i: nat, metadata: map<string, string>, env: Environment)
      requires data.Valid() && AdditionalField(i) && GPSSatellites < i
      modifies data
      ensures data.Valid()
      ensures data.fields == CopyFloat(old(data.fields), i, metadata, env)
    {
      AdditionalKinds(i);
      var key := Field(i).name;
      if key in metadata {
        WellTypedUpdate(data.fields, i, Float(env.parseFloat(metadata[key]).value));
        data.fields := data.fields[i := Float(env.parseFloat(metadata[key]).value)];
      }
    }

    /** `extractGPSInfo`: the GPS pass, returning the error that ended it early. */
    method ExtractGPSInfo(data: ImageData, metadata: map<string, string>, dir: GpsDirectory, env: Environment)
      returns (err: Option<GpsError>)
      requires data.Valid()
      modifies data
      ensures data.Valid()
      ensures (data.fields, err) == ExtractGps(old(data.fields), metadata, dir, env)
    {
      match dir
      case NoGpsIfd =>
        return Some(NoGpsInfo);
      case GpsInfoError =>
        return Some(GpsInfoUnreadable);
      case GpsIfd(info) =>
        var invalid := ProcessGPSCoordinates(data, info, env);
        if invalid {
          return Some(InvalidCoordinates);
        }
        ghost var r1 := data.fields;
        if info.altitude != 0 {
          GpsUpdate(data.fields, GPSAltitude, Float(FloatOfInt(info.altitude)));
          data.fields := data.fields[GPSAltitude := Float(FloatOfInt(info.altitude))];
        }
        assert data.fields == WithAltitude(r1, info.altitude);
        ghost var r2 := data.fields;
        if !IsZero(info.timestamp) {
          GpsUpdate(data.fields, GPSTimestamp, Timestamp(info.timestamp));
          data.fields := data.fields[GPSTimestamp := Timestamp(info.timestamp)];
          ProcessLocalTime(data, env);
        }
        assert data.fields == WithTimestamp(r2, info.timestamp, env);
        ProcessAdditionalGPSMetadata(data, metadata, env);
        return None;
    }

    /** One turn of the generic pass of `parseWithReflection`: a non-GPS field
        whose struct tag lists EXIF names takes the converted text of the first
        present name; otherwise the field keeps its zero value. */
    method DecodeField(data: ImageData, i: nat, metadata: map<string, string>, env: Environment)
      requires Valid() && data.Valid() && i < FieldCount
      requires data.fields[i] == ZeroOf(Field(i).kind)
      modifies this, data
      ensures Valid() && data.Valid()
      ensures data.fields == old(data.fields)[i := GenericValue(i, metadata, env)]
    {
      ghost var before := data.fields;
      assert before[i := ZeroOf(Field(i).kind)] == before;
      var field := Field(i);
      if IsSpecialField(field.name) {
        return;
      }
      var tags := GetExifTags(i);
      if tags.Failure? || |tags.value| == 0 {
        return;
      }
      var value, ok := GetValueFromMetadata(metadata, tags.value);
      if ok {
        var failed := SetFieldValue(data, i, value, env);
      }
    }

    /** `parseWithReflection`: the generic pass over the fields in order, then the GPS pass. */
    method ParseWithReflection(metadata: map<string, string>, dir: GpsDirectory, env: Environment)
      returns (data: ImageData)
      requires Valid()
      modifies this
      ensures Valid()
      ensures fresh(data) && data.Valid()
      ensures data.fields == DecodeRecord(metadata, dir, env)
    {
      data := new ImageData();
      var i := 0;
      while i < FieldCount
        invariant 0 <= i <= FieldCount
        invariant Valid() && data.Valid() && fresh(data)
        invariant forall j :: 0 <= j < i ==> data.fields[j] == GenericValue(j, metadata, env)
        invariant forall j :: i <= j < FieldCount ==> data.fields[j] == ZeroOf(Field(j).kind)
      {
        DecodeField(data, i, metadata, env);
        i := i + 1;
      }
      assert data.fields == GenericRecord(metadata, env);
      var gpsErr := ExtractGPSInfo(data, metadata, dir, env);
    }

    /** `Parse`: the record decoded from the payload, or the zero record and the error. */
    method Parse(payload: ExifPayload, env: Environment) returns (data: ImageData, err: Option<ParseError>)
      requires Valid()
      modifies this
      ensures Valid()
      ensures fresh(data) && data.Valid()
      ensures (data.fields, err) == ParseSpec(payload, env)
    {
      var metadata := BuildMetadataMap(payload.entries);
      if metadata.Failure? {
        data := new ImageData();
        return data, Some(ExtractFailed(metadata.error));
      }
      match payload.index
      case Failure(e) =>
        data := new ImageData();
        err := Some(IndexFailed(e));
      case Success(dir) =>
        data := ParseWithReflection(metadata.value, dir, env);
        err := None;
    }
  }
}
