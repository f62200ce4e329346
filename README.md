# EXIF field decoding of media.image

This project models the EXIF decoder of the `media_image` Go package
(`ExifDataParser` in exifData_parser.go) and proves properties of it. The
decoder fills the `ImageData` record of image_data.go from an EXIF payload in
two passes:

- a **generic pass** walks the record's fields in declaration order. It skips
  the GPS fields. For each other field it reads the field's `exif:"A,B,…"`
  struct tag and takes the text of the first listed EXIF tag name that has a
  non-empty value in the metadata map. It stores that text converted to the
  field's Go type (string, int, float64, `time.Time` through four layouts, or
  `Rational` through `NewRational`);
- a **GPS pass** reads the GPS directory. It stores the coordinates, the
  altitude and the timestamp. It asks a coordinate-to-zone finder for a zone
  name. When it gets one, it writes the zone's current offset as `"+hhmm"` and
  moves the record's three times into that zone. It then copies eleven more
  GPS fields straight from the metadata map.

The metadata map itself comes from the flat EXIF entries. Each name maps to the
text of its first value, cut at the first NUL. Entries of the thumbnail IFD and
empty values are dropped, and the last entry with a name wins.

## Layout

- `wrappers.dfy`: `Option` and `Result`.
- `go_strings.dfy`, `go_strconv.dfy`, `go_time.dfy`, `go_time_parse.dfy`: the
  parts of Go's `strings`, `strconv`, `fmt` and `time` packages the decoder
  relies on. They are modelled concretely: `strings.Split`, `strconv.ParseInt`
  / `Atoi`, `%d` and `%02d`, the proleptic Gregorian calendar, `Time.In`,
  `time.Date`, and `time.Parse` restricted to the layout elements of the four
  time formats.
- `struct_tags.dfy`: the `key:"value"` struct-tag grammar that `tags.Parse`
  reads.
- `image_data.dfy`: the record schema. It holds one descriptor per field, in
  declaration order, with the field's name, Go type and EXIF tag names. It
  also holds the `ImageData` class that the decoder fills in place.
- `exif_inputs.dfy`: what the decoder receives from the EXIF library and from
  its environment.
- `metadata.dfy`, `tag_lookup.dfy`, `field_values.dfy`, `gps.dfy`,
  `timezone.dfy`, `exif_data_types.dfy`: specification functions for each step,
  with lemmas about them.
- `exif_data_parser.dfy`: the `ExifDataParser` class. Its methods change the
  tag cache and the record in place. Each one is proved equal to the
  specification function of its step. The module also holds the end-to-end
  lemmas about a whole decode.

## Model

| member | source | states |
|---|---|---|
| ExifDataParsing.ExifDataParser.constructor | exifData_parser.go:46-50 | A new parser starts with an empty tag cache. |
| ExifDataParsing.ExifDataParser.GetExifTags | exifData_parser.go:91-114 | Returns the `exif` pairs of the field's struct tag, or its syntax error. Only a successful parse is cached, and a field already in the cache is not parsed again. Every cache entry stays equal to what the field's tag yields. |
| ExifDataParsing.ExifDataParser.GetValueFromMetadata | exifData_parser.go:126-136 | `ok` holds exactly when some name listed by the pairs, in pair order and then name order, has a non-empty value. The value returned is that of the first such name; otherwise it is "". |
| ExifDataParsing.ExifDataParser.FindPresent | exifData_parser.go:129-133 | The inner loop: finds the first name of one pair with a non-empty value in the map, or reports that none has one. |
| ExifDataParsing.ExifDataParser.BuildMetadataMap | exifData_parser.go:174-208 | Passes on the extraction error. Otherwise it returns the map of the accepted entries. |
| ExifDataParsing.ExifDataParser.ParseTime | exifData_parser.go:331-341 | Succeeds exactly when one of the four time formats reads the text. The result is that of the first such format; on failure it is the zero time. |
| ExifDataParsing.ExifDataParser.SetFieldValue | exifData_parser.go:288-320 | Stores the converted text in field `i` and changes nothing else, or leaves the record unchanged. A bool field is left without error; a conversion failure is returned as the error. |
| ExifDataParsing.ExifDataParser.DecodeField | exifData_parser.go:226-254 | One turn of the generic pass: field `i` becomes its generic value, and every other field is unchanged. |
| ExifDataParsing.ExifDataParser.ParseWithReflection | exifData_parser.go:220-263 | Returns a new record equal to the generic pass followed by the GPS pass. |
| ExifDataParsing.ExifDataParser.Parse | exifData_parser.go:148-163 | Returns the decoded record, or the zero record with the extraction or index error. |
| ExifDataParsing.ExifDataParser.ExtractGPSInfo | exifData_parser.go:353-386 | The record and error are exactly those of the GPS pass. |
| ExifDataParsing.ExifDataParser.ProcessGPSCoordinates | exifData_parser.go:450-473 | Reports NaN coordinates and leaves the record unchanged. Otherwise it stores the coordinates and adjusts to the zone found for them. |
| ExifDataParsing.ExifDataParser.ProcessAdditionalGPSMetadata | exifData_parser.go:394-439 | The record becomes the specification of the eleven copies. |
| ExifDataParsing.ExifDataParser.StoreText | exifData_parser.go:396-408 | One text copy: the value under the field's own name, when present. |
| ExifDataParsing.ExifDataParser.StoreFloat | exifData_parser.go:411-438 | One float copy: `ParseFloat` of the value under the field's own name, when present. |
| ExifDataParsing.ExifDataParser.ProcessLocalTime | exifData_parser.go:480-492 | The record becomes `LocalTime` of the old record. |
| ExifDataParsing.ExifDataParser.AdjustTimeWithTimezone | exifData_parser.go:499-586 | The record becomes `AdjustTimes` of the old record. |
| ExifDataParsing.ExifDataParser.WriteTimeOffset | exifData_parser.go:517-525 | `TimeOffset` holds the formatted offset and `HasTimeOffset` is true. Nothing else changes. |
| ExifDataParsing.ExifDataParser.OffsetText | exifData_parser.go:517-524 | Computes the sign and `%02d%02d` of the hours and minutes of the offset. |
| ExifDataParsing.ExifDataParser.AdjustTimeField | exifData_parser.go:528-545 | Moves one record time into the zone, and nothing else changes. |
| ExifDataParsing.GenericValue | exifData_parser.go:226-254 | What the generic pass leaves in a field always has the field's Go type. |
| ExifDataParsing.GenericRecord | exifData_parser.go:221-255 | The record after the generic pass is well typed. |
| ExifDataParsing.DecodeRecord | exifData_parser.go:220-263 | The decoded record is well typed. |
| ExifDataParsing.ParseSpec | exifData_parser.go:148-163 | Fails exactly when the entries or the index cannot be extracted, and then gives the zero record. |
| ExifDataParsing.SpecialFieldsAreGpsBlock | exifData_parser.go:274-277 | A field name starts with "GPS" exactly for the first 17 fields of the record. |
| ExifDataParsing.GenericSkipsGps | exifData_parser.go:233-236 | The generic pass leaves every GPS field at its zero value. |
| ExifDataParsing.GenericFromAliases | exifData_parser.go:238-254 | A tagged non-GPS field holds the converted text of the first present name. It holds its zero value when no name is present or the text does not convert. |
| ExifDataParsing.GenericFromAlias | exifData_parser.go:245-254 | The `k`-th name decides the field when it is present and all earlier names are absent. |
| ExifDataParsing.GenericLeavesHasTimeOffset | image_data.go:37 | `HasTimeOffset` has no tag, so the generic pass leaves it false. |
| ExifDataParsing.IsoSpeedTag | image_data.go:29 | `ISOSpeed` is an int field tagged `ISOSpeedRatings,ISO`. |
| ExifDataParsing.IsoSpeedFallsBack | image_data.go:29 | Without `ISOSpeedRatings`, `ISOSpeed` reads the integer under `ISO`. |
| ExifDataParsing.IsoSpeedUnreadableFirstAlias | exifData_parser.go:250-253 | A present but non-numeric `ISOSpeedRatings` stops the lookup. `ISO` is not consulted and `ISOSpeed` stays 0. |
| ExifDataParsing.DateTimeTag | image_data.go:32 | `DateTime` is a time field tagged `DateTime,CreateDate`. |
| ExifDataParsing.DateTimeFromExifText | image_data.go:32 | `DateTime` reads the EXIF text form of a wall clock as that wall clock in UTC. |
| ExifDataParsing.DecodeKeepsGeneric | exifData_parser.go:257-262 | The GPS pass changes no field other than the GPS fields and the fields the zone adjustment writes. |
| ExifDataParsing.DecodeWithoutZone | exifData_parser.go:257-262 | When no zone name is found, the GPS pass changes no non-GPS field. |
| ExifDataParsing.SingleEntryMetadata | exifData_parser.go:187-205 | A single NUL-terminated entry outside IFD1 gives a one-key map. |
| ExifDataParsing.EntryReachesField | exifData_parser.go:148-163 | End to end: one entry named by a text field's first alias gives that field its text. |
| ExifDataParsing.ThumbnailEntryIgnored | exifData_parser.go:196-199 | End to end: an IFD1 entry leaves the decoded record's non-GPS fields at zero. |
| Metadata.NulTerminated | exifData_parser.go:189 | The first NUL-separated piece is the longest NUL-free prefix. |
| Metadata.MetadataOf | exifData_parser.go:187-205 | Every value in the map is non-empty and NUL-free. |
| Metadata.MetadataKeys | exifData_parser.go:187-205 | A name is a key exactly when some accepted entry carries it. |
| Metadata.MetadataLastWins | exifData_parser.go:202-204 | The value under a name is that of the last accepted entry with the name. |
| Metadata.ThumbnailEntriesIgnored | exifData_parser.go:196-199 | Inserting an IFD1 entry anywhere leaves the map unchanged. |
| TagLookup.ExifOnly | exifData_parser.go:103-109 | Keeps exactly the pairs whose key is `exif`. A single pair is kept exactly when its key is `exif`. |
| TagLookup.ExifOnlyAppend | exifData_parser.go:103-109 | Filtering keeps the order: the `exif` pairs of a concatenation are those of the first part followed by those of the second. |
| TagLookup.ExifTagsOfSingle | exifData_parser.go:97-110 | A tag of one `exif` pair yields that pair. |
| TagLookup.FirstPresent | exifData_parser.go:129-133 | Finds nothing exactly when no name is present. Otherwise the value is non-empty. |
| TagLookup.FirstPresentAt | exifData_parser.go:129-133 | The value found is that of the first present name. |
| TagLookup.FirstPresentAppend | exifData_parser.go:129-133 | Searching `a + b` looks at `b` only when `a` finds nothing. |
| TagLookup.LookupStep | exifData_parser.go:127-135 | One more pair is consulted only when the earlier pairs found nothing. |
| TagLookup.LookupPrefix | exifData_parser.go:127-135 | Once a prefix of the pairs finds a value, later pairs are irrelevant. |
| TagLookup.LookupOrder | exifData_parser.go:127-135 | The first pair's names take precedence over the rest. |
| StructTags.ParseFormatStructTag | exifData_parser.go:97 | Pairs written as `key:"value"` joined by spaces parse back to the same pairs. |
| StructTags.ExifTagPair | exifData_parser.go:97 | `exif:"…"` parses to the single pair. |
| StructTags.EmptyTag | exifData_parser.go:97 | An empty tag, as on the untagged fields, has no pairs. |
| StructTags.KeyWithoutValue | exifData_parser.go:97-101 | A key without a quoted value is an error. |
| StructTags.UnterminatedValue | exifData_parser.go:97-101 | A value without its closing quote is an error. |
| FieldValues.FirstParse | exifData_parser.go:333-339 | Fails exactly when every layout fails. A result is a valid time. |
| FieldValues.TimeOf | exifData_parser.go:331-341 | A parsed time is valid. |
| FieldValues.FirstParseAt | exifData_parser.go:333-339 | The result is that of the first layout that parses. |
| FieldValues.ParseTimeOfExifText | exifData_parser.go:19-24 | The EXIF text form of a wall clock reads, with the first format, as that wall clock in UTC. |
| FieldValues.ParseTimeOfOffsetText | exifData_parser.go:19-24 | The text form followed by any zone the "-0700" form reads whole is refused by the first format and read by the second. The result is that wall clock in a fixed zone with the offset read. |
| FieldValues.ParseTimeOfMillisText | exifData_parser.go:19-24 | The text form followed by ".mmmZ" is refused by the first two formats and read by the third, as that wall clock in UTC with mmm milliseconds. |
| FieldValues.ParseTimeOfZuluText | exifData_parser.go:19-24 | The text form followed by "Z" is refused by the first three formats and read by the fourth, as that wall clock in UTC. |
| FieldValues.ParseTimeOfColonText | exifData_parser.go:19-24 | The text form followed by any zone the "Z07:00" form reads whole with a colon, such as "+01:00", is refused by the first three formats and read by the fourth. The result is that wall clock in a fixed zone with the offset read. |
| FieldValues.Coerce | exifData_parser.go:288-320 | A stored value has the field's type. A field is left alone without error exactly when it is a bool field. |
| FieldValues.CoerceInt | exifData_parser.go:292-297 | An int field reads back every int64 written by `%d`. |
| FieldValues.CoerceRational | exifData_parser.go:311-316 | A Rational field reads back what `Rational.String` writes. |
| FieldValues.CoerceTime | exifData_parser.go:304-310 | A time field reads the EXIF text form as that wall clock in UTC. |
| FieldValues.CoerceIntRejects | exifData_parser.go:293-296 | Empty or digit-free text is an int syntax error. |
| GpsExtraction.Coordinates | exifData_parser.go:450-473 | Fails exactly on a NaN coordinate. Otherwise it stores both coordinates and the finder's non-empty zone name. When that zone loads, it sets `HasTimeOffset`, stores the zone's current offset text and adjusts the three record times to the zone. With no zone name, or a zone that does not load, the adjusted fields keep their values. Nothing else changes. |
| GpsExtraction.CoordinatesWithoutZone | exifData_parser.go:456-470 | Without a zone name, only the two coordinates change. |
| GpsExtraction.CopyText | exifData_parser.go:396-408 | Stores the map's value under the field's name, when present. No other field changes. |
| GpsExtraction.CopyFloat | exifData_parser.go:411-438 | Stores `ParseFloat`'s value, error or not, when the name is present. No other field changes. |
| GpsExtraction.AdditionalKinds | image_data.go:13-23 | Three of the copied fields are strings and eight are float64. |
| GpsExtraction.AdditionalGps | exifData_parser.go:394-439 | The copies keep the record well typed. |
| GpsExtraction.AdditionalGpsFields | exifData_parser.go:394-439 | Exactly the eleven copied fields change, each to its copied value. |
| GpsExtraction.WithAltitude | exifData_parser.go:372-374 | A non-zero altitude is stored in `GPSAltitude` as a float. A zero altitude leaves the record unchanged. No other field changes. |
| GpsExtraction.WithTimestamp | exifData_parser.go:377-380 | A zero timestamp leaves the record unchanged. A non-zero one is stored in `GPSTimestamp`. `GPSTimestampLocal` becomes that timestamp shown in the record's zone when the zone name is set and loads; otherwise it keeps its value. No other field changes. |
| GpsExtraction.ExtractGps | exifData_parser.go:353-386 | Each of the three errors arises exactly in its case, and an error leaves the record unchanged. |
| GpsExtraction.LaterStepsKeep | exifData_parser.go:372-383 | The steps after the coordinates write only GPS fields. |
| GpsExtraction.ExtractGpsWithoutZone | exifData_parser.go:353-386 | Without a zone name, the GPS pass writes only GPS fields. |
| GpsExtraction.ExtractGpsFrame | exifData_parser.go:353-386 | The GPS pass writes only GPS fields and the zone-adjusted fields. |
| TimeZoneAdjust.FormatOffset | exifData_parser.go:517-524 | The sign is '-' exactly for negative offsets. The text is five characters for offsets under 100 hours. |
| TimeZoneAdjust.OffsetRoundTrip | exifData_parser.go:522-524 | The offset text reads back through the `-0700` layout as the offset cut to whole minutes. |
| TimeZoneAdjust.AdjustKeeps | exifData_parser.go:528-545 | A zero time stays. A zoned time keeps its instant. A UTC time keeps its wall clock where the zone is steady. Every non-zero result carries the zone. |
| TimeZoneAdjust.AdjustTimes | exifData_parser.go:499-586 | Only the offset, the flag and the three times change. With no zone name, or a zone that fails to load, nothing changes. |
| TimeZoneAdjust.AdjustTimesLoaded | exifData_parser.go:513-586 | With a loaded zone, the flag is set, the offset text is the zone's offset now, and each time is adjusted. |
| TimeZoneAdjust.LocalTime | exifData_parser.go:480-492 | With no zone name, a zero GPS timestamp or a zone that does not load, the record is unchanged. Otherwise `GPSTimestampLocal` becomes the GPS timestamp shown in that zone: the same instant, labelled with the zone's name. No other field changes. |
| ExifDataTypes.NewRational | exif_data_types.go:15-29 | Succeeds exactly when there is one '/' and both parts pass `Atoi`. The result holds those two values. |
| ExifDataTypes.SplitString | exif_data_types.go:32-34 | `String` splits back into the two `%d` renderings. |
| ExifDataTypes.NewRationalOfString | exif_data_types.go:15-34 | Every Rational survives `String` then `NewRational`. |
| ExifDataTypes.StringOfNewRational | exif_data_types.go:15-34 | Text whose parts are canonical decimals prints back unchanged. |
| ExifDataTypes.RejectsPartCount | exif_data_types.go:16-19 | "", "5" and "1/2/3" are format errors. |
| ExifDataTypes.RejectsSpace | exif_data_types.go:20-23 | Spaces are not trimmed. |
| ExifDataTypes.RejectsNumerator | exif_data_types.go:20-23 | A numerator that `Atoi` rejects is reported as the error, whatever the denominator. |
| ExifDataTypes.RejectsDenominator | exif_data_types.go:24-27 | With a readable numerator, a denominator that `Atoi` rejects is reported as the error. |
| ExifDataTypes.AcceptsZeroDenominator | exif_data_types.go:24-28 | "1/0" is accepted. |
| ExifDataTypes.AcceptsPlusSign | exif_data_types.go:20-28 | A leading '+' on the numerator is accepted. |
| ExifDataTypes.FormatIntHasNoSlash | exif_data_types.go:33 | `%d` output contains no '/'. |
| ImageDataSchema.Field | image_data.go:5-70 | Each descriptor's type agrees with the string-free type table. |
| ImageDataSchema.ZeroOf | exifData_parser.go:221 | Go's zero value of each type has that type. |
| ImageDataSchema.ZeroRecord | exifData_parser.go:221 | `ImageData{}` is well typed. |
| ImageDataSchema.ImageData.constructor | exifData_parser.go:221 | A new record holds every zero value. |
| GoStrconv.ParseFormatInt | exifData_parser.go:293 | `ParseInt` reads back every int64 that `%d` writes. |
| GoStrconv.FormatParseInt | exif_data_types.go:20-24 | `%d` reproduces a parsed canonical decimal. |
| GoStrings.Split | exif_data_types.go:16 | Gives one more piece than separators, with no separator in any piece, and `Join` inverts it. |
| GoStrings.SplitJoin | exif_data_types.go:16 | `Split` inverts `Join`. |
| GoTime.CivilRoundTrip | exifData_parser.go:534-543 | A valid date survives the round trip through its day number. |
| GoTime.WallRoundTrip | exifData_parser.go:534-543 | A valid wall clock survives the round trip through its seconds. |
| GoTime.InShowsSameInstant | exifData_parser.go:491 | `In` keeps the instant and whether it is zero, and the result is not UTC. It shows the wall clock at the zone's offset for that instant, and that wall clock reads back to the instant. Showing a shown time in another zone is the same as showing the original there. |
| GoTime.DateKeepsWall | exifData_parser.go:534-543 | `time.Date` keeps the wall clock it was given when the zone's offset is steady there. |
| GoTimeParse.Parse | exifData_parser.go:334 | A parsed time is valid: its nanoseconds are below a second. |
| GoTimeParse.ParseExifText | exifData_parser.go:20 | The EXIF text form parses with the first layout as that wall clock in UTC. |
| GoTimeParse.ExifTextWall | exifData_parser.go:20 | Reading the text form back gives the same wall clock. |
| GoTimeParse.NumericZoneRead | exifData_parser.go:21 | A "-0700" zone with hours up to 24 and minutes up to 60 reads as its signed offset in seconds, with nothing left over. |
| GoTimeParse.ColonZoneRead | exifData_parser.go:23 | A "+01:00" zone with hours up to 24 and minutes up to 60 reads as its signed offset in seconds, with nothing left over. |
| GoTimeParse.ParseExifOffsetText | exifData_parser.go:21 | The second layout reads the text form and any zone the "-0700" form reads whole as that wall clock in a fixed zone with the offset read. |
| GoTimeParse.ParseExifMillisText | exifData_parser.go:22 | The third layout reads the text form, ".mmm" and "Z" as that wall clock in UTC with mmm milliseconds. |
| GoTimeParse.ParseExifZuluText | exifData_parser.go:23 | The fourth layout reads the text form and "Z" as that wall clock in UTC. |
| GoTimeParse.ParseExifColonText | exifData_parser.go:23 | The fourth layout reads the text form and any zone the "Z07:00" form reads whole with a colon as that wall clock in a fixed zone with the offset read. |
| GoTimeParse.PlainLayoutRejectsSuffix | exifData_parser.go:20 | The first layout refuses any text after the seconds that does not start a fraction. |
| GoTimeParse.FirstLayoutsRejectMillis | exifData_parser.go:20-21 | The first two layouts refuse ".mmmZ". |
| GoTimeParse.OffsetLayoutRejectsZulu | exifData_parser.go:21 | The second layout refuses a bare "Z". |
| GoTimeParse.OffsetLayoutRejectsColon | exifData_parser.go:21 | The second layout refuses any zone the "Z07:00" form reads with a colon. |
| GoTimeParse.ZoneTextsStartWithSign | exifData_parser.go:21-23 | A zone either form reads starts with a sign, and a zone with a colon is not a "-0700" zone. |
| GoTimeParse.OffsetTextReads | exifData_parser.go:19-21 | Over any four layouts shaped like the decoder's: a "-0700" zone is refused by the first and read by the second. |
| GoTimeParse.MillisTextReads | exifData_parser.go:19-22 | ".mmmZ" is refused by the first two layouts and read by the third as UTC with mmm milliseconds. |
| GoTimeParse.ZuluTextReads | exifData_parser.go:19-23 | "Z" is refused by the first three layouts and read by the fourth as UTC. |
| GoTimeParse.ColonTextReads | exifData_parser.go:19-23 | A zone with a colon is refused by the first three layouts and read by the fourth in a fixed zone with the offset read. |
| FieldValues.FirstParseOfFour | exifData_parser.go:333-339 | With four formats, the first that parses decides the result. |
| GoTimeParse.MillisLayoutRejectsZone | exifData_parser.go:22 | The third layout refuses any text after the seconds that does not start with '.' or ','. |

## Left out

- The EXIF library is not modelled. A payload is given by what it yields: the flat entries, or the error, of `GetFlatExifDataUniversalSearch`, and the GPS directory, or the error, of `Collect`, `ChildWithIfdPath` and `GpsInfo`. exif_parser.go, image_info.go and the file-type tables are not part of this model.
- The byte-level decoding of GPS coordinates to decimals is not modelled. `GpsInfo` carries the decimal values, and NaN is a distinct value.
- `strconv.ParseFloat` is a parameter (`Environment.parseFloat`). It gives a value and whether the error was nil. float64 rounding is not modelled: `float64(Altitude)` is exact.
- The time-zone finder is a parameter, `None` when it failed to initialise. `time.LoadLocation` is a parameter, with a location given by its name and its offset at each instant. `time.Now()` is a parameter (`Environment.now`).
- `time.Parse` replaces a parsed offset that matches the local zone with the local zone. The model always uses a fixed zone with that offset, because the local zone is machine state. `LoadLocation("UTC")` returning the `time.UTC` singleton is not modelled either: every loaded location is a named zone.
- Logging (`log.Printf`) is left out. The errors that the decoder only logs are returned by the methods (`SetFieldValue`, `ExtractGPSInfo`) and dropped by their callers, as in the source.
- Error message texts are not modelled. Errors are constructors carrying the offending text.
- `fieldValue.CanSet()` is always true for the exported fields of `ImageData`, so that check is not modelled.
- The struct-tag grammar does not decode escapes inside quoted values. No tag of the schema has one.
- The tag cache is keyed by field position rather than field name. The schema's field names are distinct, so the two keys select the same entries.
- Go `int` (the `Rational` parts, `ISOSpeed`) is modelled as a 64-bit platform `int`, the same range as `int64`.
- ExifDataParsing.DecodeKeepsGeneric: the GPS pass does overwrite `DateTime`, `DateTimeOriginal`, `DateTimeDigitized`, `TimeOffset` and `HasTimeOffset` when a zone is found, so the two passes are not disjoint. The lemma excludes those fields, and `DecodeWithoutZone` covers them when there is no zone.
- TimeZoneAdjust.AdjustKeeps: a UTC time keeps its wall clock only where the zone's offset does not change around it. In a daylight-saving gap or overlap, `time.Date` may shift the wall clock, and the lemma says nothing there.
- Go strings are byte strings. They are modelled as sequences of characters. Every literal the decoder compares against or splits at (tag keys, separators, layouts, field names) is ASCII, so the pieces are the same either way; the byte encoding of non-ASCII metadata text is not modelled.
- The tag cache is modelled single-threaded. In the source it is a plain map with no lock, so concurrent use of one parser is outside what the source supports and is not modelled.
