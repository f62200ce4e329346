/**
  `extractGPSInfo` and its helpers: the GPS fields of the record come from the
  GPS directory of the IFD index and, for the fields the directory reader does
  not cover, straight from the metadata map under the field's own name.
*/
module GpsExtraction {
  import opened Wrappers
  import opened GoStrconv
  import opened GoTime
  import opened ImageDataSchema
  import opened ExifInputs
  import opened TimeZoneAdjust

  /** Why the GPS pass stopped early. */
  datatype GpsError =
    | NoGpsInfo           // the index has no GPS directory
    | GpsInfoUnreadable   // the directory could not be read
    | InvalidCoordinates  // latitude or longitude is NaN

  /** The fields of the GPS block, positions 0 to 16. */
  predicate GpsField(i: int)
  {
    GPSLatitude <= i <= GPSDestDistance
  }

  /** The zone name the finder gives for the position, or "" when there is no finder. */
  function FoundZone(info: GpsInfo, env: Environment): string
  {
    match env.tzFinder
    case None => ""
    case Some(find) => find(info.longitude, info.latitude)
  }

  /** `processGPSCoordinates`: `None` (the error) when either coordinate is NaN;
      otherwise both coordinates stored and, when the finder names a zone for
      them, the zone name stored and, when that zone loads, the record's times
      adjusted to it and the offset recorded. */
  function Coordinates(r: seq<Value>, info: GpsInfo, env: Environment): (res: Option<seq<Value>>)
    requires WellTyped(r)
    ensures res.None? <==> info.latitude.NaN? || info.longitude.NaN?
    ensures res.Some? ==> WellTyped(res.value)
    ensures res.Some? ==> res.value[GPSLatitude] == Float(info.latitude) && res.value[GPSLongitude] == Float(info.longitude)
    ensures res.Some? ==> forall i ::
              0 <= i < FieldCount && i != GPSLatitude && i != GPSLongitude && i != GPSTimeZone && !AdjustedField(i)
              ==> res.value[i] == r[i]
    ensures res.Some? ==>
              res.value[GPSTimeZone] == if FoundZone(info, env) != "" then Str(FoundZone(info, env)) else r[GPSTimeZone]
    ensures res.Some? && (FoundZone(info, env) == "" || env.loadLocation(FoundZone(info, env)).None?) ==>
              forall i :: 0 <= i < FieldCount && AdjustedField(i) ==> res.value[i] == r[i]
    ensures res.Some? && FoundZone(info, env) != "" && env.loadLocation(FoundZone(info, env)).Some? ==>
              AdjustedTo(r, res.value, env.loadLocation(FoundZone(info, env)).value, env.now)
  {
    if info.latitude.NaN? || info.longitude.NaN? then None
    else
      var r1 := r[GPSLatitude := Float(info.latitude)][GPSLongitude := Float(info.longitude)];
      match env.tzFinder
      case None => Some(r1)
      case Some(find) =>
        var name := find(info.longitude, info.latitude);
        if name == "" then Some(r1)
        else Some(AdjustTimes(r1[GPSTimeZone := Str(name)], env))
  }

  /** Without a zone name from the finder, only the position is stored. */
  lemma CoordinatesWithoutZone(r: seq<Value>, info: GpsInfo, env: Environment)
    requires WellTyped(r) && !info.latitude.NaN? && !info.longitude.NaN?
    requires env.tzFinder.Some? ==> env.tzFinder.value(info.longitude, info.latitude) == ""
    ensures Coordinates(r, info, env) == Some(r[GPSLatitude := Float(info.latitude)][GPSLongitude := Float(info.longitude)])
  {
  }

  /** `metadata[key]` stored verbatim in a string field, when the key is present. */
  function CopyText(r: seq<Value>, i: nat, m: map<string, string>): (r': seq<Value>)
    requires WellTyped(r) && AdditionalField(i) && i <= GPSSatellites
    ensures WellTyped(r')
    ensures forall j :: 0 <= j < FieldCount && j != i ==> r'[j] == r[j]
    ensures r'[i] == if Field(i).name in m then Str(m[Field(i).name]) else r[i]
  {
    AdditionalKinds(i);
    var key := Field(i).name;
    if key in m then r[i := Str(m[key])] else r
  }

  /** `strconv.ParseFloat(metadata[key])` stored in a float field when the key
      is present, whether or not the reader reported an error. */
  function CopyFloat(r: seq<Value>, i: nat, m: map<string, string>, env: Environment): (r': seq<Value>)
    requires WellTyped(r) && AdditionalField(i) && GPSSatellites < i
    ensures WellTyped(r')
    ensures forall j :: 0 <= j < FieldCount && j != i ==> r'[j] == r[j]
    ensures r'[i] == if Field(i).name in m then Float(env.parseFloat(m[Field(i).name]).value) else r[i]
  {
    AdditionalKinds(i);
    var key := Field(i).name;
    if key in m then r[i := Float(env.parseFloat(m[key]).value)] else r
  }

  /** The fields `processAdditionalGPSMetadata` fills. */
  predicate AdditionalField(i: int)
  {
    GPSProcessingMethod <= i <= GPSDestDistance
  }

  /** The first three additional fields hold text, the other eight floats. */
  lemma AdditionalKinds(i: int)
    requires AdditionalField(i)
    ensures Field(i).kind == if i <= GPSSatellites then StringKind else Float64Kind
  {
    if i == GPSProcessingMethod {
    } else if i == GPSStatus {
    } else if i == GPSSatellites {
    } else if i == GPSHPositioningError {
    } else if i == GPSSpeed {
    } else if i == GPSTrack {
    } else if i == GPSImgDirection {
    } else if i == GPSDestLatitude {
    } else if i == GPSDestLongitude {
    } else if i == GPSDestBearing {
    } else {
    }
  }

  /** `processAdditionalGPSMetadata`: three text fields and eight float fields,
      each looked up under its own field name. */
  function AdditionalGps(r: seq<Value>, m: map<string, string>, env: Environment): (r': seq<Value>)
    requires WellTyped(r)
    ensures WellTyped(r')
  {
    var r1 := CopyText(r, GPSProcessingMethod, m);
    var r2 := CopyText(r1, GPSStatus, m);
    var r3 := CopyText(r2, GPSSatellites, m);
    var r4 := CopyFloat(r3, GPSHPositioningError, m, env);
    var r5 := CopyFloat(r4, GPSSpeed, m, env);
    var r6 := CopyFloat(r5, GPSTrack, m, env);
    var r7 := CopyFloat(r6, GPSImgDirection, m, env);
    var r8 := CopyFloat(r7, GPSDestLatitude, m, env);
    var r9 := CopyFloat(r8, GPSDestLongitude, m, env);
    var r10 := CopyFloat(r9, GPSDestBearing, m, env);
    CopyFloat(r10, GPSDestDistance, m, env)
  }

  /** What an additional GPS field holds after the pass. */
  function AdditionalValue(r: seq<Value>, i: nat, m: map<string, string>, env: Environment): Value
    requires WellTyped(r) && i < FieldCount
  {
    var key := Field(i).name;
    if key !in m then r[i]
    else if Field(i).kind == StringKind then Str(m[key])
    else Float(env.parseFloat(m[key]).value)
  }

  /** Each additional GPS field holds the metadata value under the field's own
      name when there is one (read as a float for the float fields) and is
      otherwise left alone; no other field changes. */
  lemma AdditionalGpsFields(r: seq<Value>, m: map<string, string>, env: Environment)
    requires WellTyped(r)
    ensures var r' := AdditionalGps(r, m, env);
            && (forall i :: 0 <= i < FieldCount && !AdditionalField(i) ==> r'[i] == r[i])
            && (forall i :: 0 <= i < FieldCount && AdditionalField(i) ==> r'[i] == AdditionalValue(r, i, m, env))
  {
    var r1 := CopyText(r, GPSProcessingMethod, m);
    var r2 := CopyText(r1, GPSStatus, m);
    var r3 := CopyText(r2, GPSSatellites, m);
    var r4 := CopyFloat(r3, GPSHPositioningError, m, env);
    var r5 := CopyFloat(r4, GPSSpeed, m, env);
    var r6 := CopyFloat(r5, GPSTrack, m, env);
    var r7 := CopyFloat(r6, GPSImgDirection, m, env);
    var r8 := CopyFloat(r7, GPSDestLatitude, m, env);
    var r9 := CopyFloat(r8, GPSDestLongitude, m, env);
    var r10 := CopyFloat(r9, GPSDestBearing, m, env);
    var r11 := CopyFloat(r10, GPSDestDistance, m, env);
    assert AdditionalGps(r, m, env) == r11;
    forall i | 0 <= i < FieldCount && AdditionalField(i)
      ensures r11[i] == AdditionalValue(r, i, m, env)
    {
      if i == GPSProcessingMethod {
      } else if i == GPSStatus {
      } else if i == GPSSatellites {
      } else if i == GPSHPositioningError {
      } else if i == GPSSpeed {
      } else if i == GPSTrack {
      } else if i == GPSImgDirection {
      } else if i == GPSDestLatitude {
      } else if i == GPSDestLongitude {
      } else if i == GPSDestBearing {
      } else {
        assert i == GPSDestDistance;
      }
    }
  }

  /** The altitude stored when it is not zero. */
  function WithAltitude(r: seq<Value>, altitude: int): (r': seq<Value>)
    requires WellTyped(r)
    ensures WellTyped(r')
    ensures forall i :: 0 <= i < FieldCount && i != GPSAltitude ==> r'[i] == r[i]
    ensures altitude != 0 ==> r'[GPSAltitude] == Float(FloatOfInt(altitude))
    ensures altitude == 0 ==> r' == r
  {
    if altitude != 0 then r[GPSAltitude := Float(FloatOfInt(altitude))] else r
  }

  /** The GPS timestamp stored, and shown in the record's zone, when it is not zero. */
  function WithTimestamp(r: seq<Value>, timestamp: Time, env: Environment): (r': seq<Value>)
    requires WellTyped(r)
    ensures WellTyped(r')
    ensures forall i :: 0 <= i < FieldCount && i != GPSTimestamp && i != GPSTimestampLocal ==> r'[i] == r[i]
    ensures IsZero(timestamp) ==> r' == r
    ensures !IsZero(timestamp) ==> r'[GPSTimestamp] == Timestamp(timestamp)
    ensures r'[GPSTimestampLocal] ==
              if !IsZero(timestamp) && ZoneName(r) != "" && env.loadLocation(ZoneName(r)).Some?
              then Timestamp(In(timestamp, env.loadLocation(ZoneName(r)).value))
              else r[GPSTimestampLocal]
  {
    if !IsZero(timestamp) then LocalTime(r[GPSTimestamp := Timestamp(timestamp)], env) else r
  }

  /** `extractGPSInfo`: the record after the GPS pass, and the error that ended it early. */
  function ExtractGps(r: seq<Value>, m: map<string, string>, dir: GpsDirectory, env: Environment)
    : (res: (seq<Value>, Option<GpsError>))
    requires WellTyped(r)
    ensures WellTyped(res.0)
    ensures res.1.Some? ==> res.0 == r
    ensures res.1 == Some(NoGpsInfo) <==> dir.NoGpsIfd?
    ensures res.1 == Some(GpsInfoUnreadable) <==> dir.GpsInfoError?
    ensures res.1 == Some(InvalidCoordinates) <==> dir.GpsIfd? && (dir.info.latitude.NaN? || dir.info.longitude.NaN?)
  {
    match dir
    case NoGpsIfd => (r, Some(NoGpsInfo))
    case GpsInfoError => (r, Some(GpsInfoUnreadable))
    case GpsIfd(info) =>
      match Coordinates(r, info, env)
      case None => (r, Some(InvalidCoordinates))
      case Some(r1) =>
        (AdditionalGps(WithTimestamp(WithAltitude(r1, info.altitude), info.timestamp, env), m, env), None)
  }

  /** The steps after the position (altitude, timestamp, additional fields)
      write only GPS fields. */
  lemma LaterStepsKeep(r1: seq<Value>, info: GpsInfo, m: map<string, string>, env: Environment, i: nat)
    requires WellTyped(r1) && i < FieldCount && !GpsField(i)
    ensures AdditionalGps(WithTimestamp(WithAltitude(r1, info.altitude), info.timestamp, env), m, env)[i] == r1[i]
  {
    var r3 := WithTimestamp(WithAltitude(r1, info.altitude), info.timestamp, env);
    AdditionalGpsFields(r3, m, env);
  }

  /** When the position names no zone, the GPS pass writes only GPS fields. */
  lemma ExtractGpsWithoutZone(r: seq<Value>, m: map<string, string>, dir: GpsDirectory, env: Environment, i: nat)
    requires WellTyped(r) && i < FieldCount && !GpsField(i)
    requires dir.GpsIfd? && env.tzFinder.Some? ==> env.tzFinder.value(dir.info.longitude, dir.info.latitude) == ""
    ensures ExtractGps(r, m, dir, env).0[i] == r[i]
  {
    match dir
    case GpsIfd(info) =>
      if !info.latitude.NaN? && !info.longitude.NaN? {
        CoordinatesWithoutZone(r, info, env);
        var r1 := r[GPSLatitude := Float(info.latitude)][GPSLongitude := Float(info.longitude)];
        LaterStepsKeep(r1, info, m, env, i);
      }
    case _ =>
  }

  /** The GPS pass writes only GPS fields and the fields the zone adjustment writes. */
  lemma ExtractGpsFrame(r: seq<Value>, m: map<string, string>, dir: GpsDirectory, env: Environment, i: nat)
    requires WellTyped(r) && i < FieldCount && !GpsField(i) && !AdjustedField(i)
    ensures ExtractGps(r, m, dir, env).0[i] == r[i]
  {
    if dir.GpsIfd? && Coordinates(r, dir.info, env).Some? {
      var r1 := Coordinates(r, dir.info, env).value;
      var r3 := WithTimestamp(WithAltitude(r1, dir.info.altitude), dir.info.timestamp, env);
      AdditionalGpsFields(r3, m, env);
    }
  }
}
