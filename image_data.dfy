/**
  The decoded record `ImageData` of image_data.go, written as a table: one
  descriptor per field, in declaration order, giving the field's name, its Go
  type and its raw struct tag. A field's `exif` tag lists, comma-separated and
  in order, the EXIF tag names it may be read from; three fields have no tag.
*/
module ImageDataSchema {
  import opened Wrappers
  import opened GoStrings
  import opened GoStrconv
  import opened GoTime
  import opened ExifDataTypes

  /** The Go types that occur in the record. */
  datatype Kind = StringKind | IntKind | Float64Kind | TimeKind | RationalKind | BoolKind

  /** A field's value. */
  datatype Value =
    | Str(s: string)
    | Int(i: Int64)
    | Float(f: Float64)
    | Timestamp(t: Time)
    | Rat(r: Rational)
    | Bool(b: bool)

  function KindOf(v: Value): Kind
  {
    match v
    case Str(_) => StringKind
    case Int(_) => IntKind
    case Float(_) => Float64Kind
    case Timestamp(_) => TimeKind
    case Rat(_) => RationalKind
    case Bool(_) => BoolKind
  }

  /** Go's zero value of each type. */
  function ZeroOf(k: Kind): (v: Value)
    ensures KindOf(v) == k
  {
    match k
    case StringKind => Str("")
    case IntKind => Int(0)
    case Float64Kind => Float(ZeroFloat)
    case TimeKind => Timestamp(ZeroTime)
    case RationalKind => Rat(ZeroRational)
    case BoolKind => Bool(false)
  }

  /** A field: its name, its Go type, and the EXIF tag names its `exif`
      struct tag lists (`None` for the fields without a struct tag). */
  datatype FieldSpec = FieldSpec(name: string, kind: Kind, exif: Option<seq<string>>)

  /** The field's raw struct tag, as reflection reports it: `exif:"A,B,…"`. */
  function StructTag(f: FieldSpec): string
  {
    match f.exif
    case None => ""
    case Some(names) => "exif:\"" + Join(names, ',') + "\""
  }

  const FieldCount := 55

  /** The Go type of the `i`-th field. */
  function FieldKind(i: int): Kind
  {
    if i == 4 || i == 5 || 23 <= i <= 25 then TimeKind
    else if i == 20 || 37 <= i <= 39 then IntKind
    else if i == 42 || i == 43 then RationalKind
    else if i == 28 then BoolKind
    else if i <= 2 || 9 <= i <= 16 || 53 <= i then Float64Kind
    else StringKind
  }

  /** The descriptor of the `i`-th field, in declaration order. */
  function Field(i: int): (f: FieldSpec)
    requires 0 <= i < FieldCount
    ensures f.kind == FieldKind(i)
  {
    if i == 0 then FieldSpec("GPSLatitude", Float64Kind, Some(["GPSLatitude"]))
    else if i == 1 then FieldSpec("GPSLongitude", Float64Kind, Some(["GPSLongitude"]))
    else if i == 2 then FieldSpec("GPSAltitude", Float64Kind, Some(["GPSAltitude"]))
    else if i == 3 then FieldSpec("GPSTimeZone", StringKind, None)
    else if i == 4 then FieldSpec("GPSTimestamp", TimeKind, Some(["GPSDateStamp", "GPSTimeStamp"]))
    else if i == 5 then FieldSpec("GPSTimestampLocal", TimeKind, None)
    else if i == 6 then FieldSpec("GPSProcessingMethod", StringKind, Some(["GPSProcessingMethod"]))
    else if i == 7 then FieldSpec("GPSStatus", StringKind, Some(["GPSStatus"]))
    else if i == 8 then FieldSpec("GPSSatellites", StringKind, Some(["GPSSatellites"]))
    else if i == 9 then FieldSpec("GPSHPositioningError", Float64Kind, Some(["GPSHPositioningError"]))
    else if i == 10 then FieldSpec("GPSSpeed", Float64Kind, Some(["GPSSpeed"]))
    else if i == 11 then FieldSpec("GPSTrack", Float64Kind, Some(["GPSTrack"]))
    else if i == 12 then FieldSpec("GPSImgDirection", Float64Kind, Some(["GPSImgDirection"]))
    else if i == 13 then FieldSpec("GPSDestLatitude", Float64Kind, Some(["GPSDestLatitude"]))
    else if i == 14 then FieldSpec("GPSDestLongitude", Float64Kind, Some(["GPSDestLongitude"]))
    else if i == 15 then FieldSpec("GPSDestBearing", Float64Kind, Some(["GPSDestBearing"]))
    else if i == 16 then FieldSpec("GPSDestDistance", Float64Kind, Some(["GPSDestDistance"]))
    else if i == 17 then FieldSpec("CameraMake", StringKind, Some(["Make", "CameraMake"]))
    else if i == 18 then FieldSpec("CameraModel", StringKind, Some(["Model", "CameraModel"]))
    else if i == 19 then FieldSpec("CameraExposure", StringKind, Some(["ExposureTime", "Exposure"]))
    else if i == 20 then FieldSpec("ISOSpeed", IntKind, Some(["ISOSpeedRatings", "ISO"]))
    else if i == 21 then FieldSpec("ShutterSpeed", StringKind, Some(["ShutterSpeedValue"]))
    else if i == 22 then FieldSpec("Software", StringKind, Some(["Software"]))
    else if i == 23 then FieldSpec("DateTime", TimeKind, Some(["DateTime", "CreateDate"]))
    else if i == 24 then FieldSpec("DateTimeOriginal", TimeKind, Some(["DateTimeOriginal", "OriginalDateTime"]))
    else if i == 25 then FieldSpec("DateTimeDigitized", TimeKind, Some(["DateTimeDigitized", "DigitizedDateTime"]))
    else if i == 26 then FieldSpec("TimeOffset", StringKind, Some(["OffsetTime", "OffsetTimeOriginal", "OffsetTimeDigitized"]))
    else if i == 27 then FieldSpec("SubSecOriginal", StringKind, Some(["SubSecTimeOriginal", "SubSecTime"]))
    else if i == 28 then FieldSpec("HasTimeOffset", BoolKind, None)
    else if i == 29 then FieldSpec("LensMake", StringKind, Some(["LensMake"]))
    else if i == 30 then FieldSpec("LensModel", StringKind, Some(["LensModel", "Lens"]))
    else if i == 31 then FieldSpec("LensFocalLength", StringKind, Some(["FocalLength"]))
    else if i == 32 then FieldSpec("LensAperture", StringKind, Some(["FNumber", "ApertureValue"]))
    else if i == 33 then FieldSpec("LensFocalLength35mm", StringKind, Some(["FocalLengthIn35mmFilm"]))
    else if i == 34 then FieldSpec("LensMaxAperture", StringKind, Some(["MaxApertureValue"]))
    else if i == 35 then FieldSpec("LensMinAperture", StringKind, Some(["MinApertureValue"]))
    else if i == 36 then FieldSpec("LensMaxFocalLength", StringKind, Some(["MaxFocalLength"]))
    else if i == 37 then FieldSpec("ImageWidth", IntKind, Some(["ImageWidth", "PixelXDimension", "ExifImageWidth", "SourceImageWidth"]))
    else if i == 38 then FieldSpec("ImageHeight", IntKind, Some(["ImageHeight", "PixelYDimension", "ExifImageHeight", "SourceImageHeight"]))
    else if i == 39 then FieldSpec("ImageOrientation", IntKind, Some(["Orientation"]))
    else if i == 40 then FieldSpec("ColorSpace", StringKind, Some(["ColorSpace"]))
    else if i == 41 then FieldSpec("Compression", StringKind, Some(["Compression"]))
    else if i == 42 then FieldSpec("XResolution", RationalKind, Some(["XResolution"]))
    else if i == 43 then FieldSpec("YResolution", RationalKind, Some(["YResolution"]))
    else if i == 44 then FieldSpec("ResolutionUnit", StringKind, Some(["ResolutionUnit"]))
    else if i == 45 then FieldSpec("Artist", StringKind, Some(["Artist", "Creator"]))
    else if i == 46 then FieldSpec("Copyright", StringKind, Some(["Copyright", "CopyrightNotice"]))
    else if i == 47 then FieldSpec("Description", StringKind, Some(["ImageDescription", "Description"]))
    else if i == 48 then FieldSpec("WhiteBalance", StringKind, Some(["WhiteBalance"]))
    else if i == 49 then FieldSpec("Flash", StringKind, Some(["Flash", "FlashFired"]))
    else if i == 50 then FieldSpec("MeteringMode", StringKind, Some(["MeteringMode"]))
    else if i == 51 then FieldSpec("ExposureProgram", StringKind, Some(["ExposureProgram"]))
    else if i == 52 then FieldSpec("SceneCaptureType", StringKind, Some(["SceneCaptureType"]))
    else if i == 53 then FieldSpec("SubjectDistance", Float64Kind, Some(["SubjectDistance"]))
    else FieldSpec("DigitalZoomRatio", Float64Kind, Some(["DigitalZoomRatio"]))
  }

  // Positions of the fields in the record.
  const GPSLatitude: nat := 0
  const GPSLongitude: nat := 1
  const GPSAltitude: nat := 2
  const GPSTimeZone: nat := 3
  const GPSTimestamp: nat := 4
  const GPSTimestampLocal: nat := 5
  const GPSProcessingMethod: nat := 6
  const GPSStatus: nat := 7
  const GPSSatellites: nat := 8
  const GPSHPositioningError: nat := 9
  const GPSSpeed: nat := 10
  const GPSTrack: nat := 11
  const GPSImgDirection: nat := 12
  const GPSDestLatitude: nat := 13
  const GPSDestLongitude: nat := 14
  const GPSDestBearing: nat := 15
  const GPSDestDistance: nat := 16
  const CameraMake: nat := 17
  const CameraModel: nat := 18
  const CameraExposure: nat := 19
  const ISOSpeed: nat := 20
  const ShutterSpeed: nat := 21
  const Software: nat := 22
  const DateTime: nat := 23
  const DateTimeOriginal: nat := 24
  const DateTimeDigitized: nat := 25
  const TimeOffset: nat := 26
  const SubSecOriginal: nat := 27
  const HasTimeOffset: nat := 28
  const LensMake: nat := 29
  const LensModel: nat := 30
  const LensFocalLength: nat := 31
  const LensAperture: nat := 32
  const LensFocalLength35mm: nat := 33
  const LensMaxAperture: nat := 34
  const LensMinAperture: nat := 35
  const LensMaxFocalLength: nat := 36
  const ImageWidth: nat := 37
  const ImageHeight: nat := 38
  const ImageOrientation: nat := 39
  const ColorSpace: nat := 40
  const Compression: nat := 41
  const XResolution: nat := 42
  const YResolution: nat := 43
  const ResolutionUnit: nat := 44
  const Artist: nat := 45
  const Copyright: nat := 46
  const Description: nat := 47
  const WhiteBalance: nat := 48
  const Flash: nat := 49
  const MeteringMode: nat := 50
  const ExposureProgram: nat := 51
  const SceneCaptureType: nat := 52
  const SubjectDistance: nat := 53
  const DigitalZoomRatio: nat := 54

  /** A record: one value per schema field, each of the field's type. */
  predicate WellTyped(r: seq<Value>)
  {
    |r| == FieldCount && forall i :: 0 <= i < |r| ==> KindOf(r[i]) == FieldKind(i)
  }

  /** Storing a value of the field's type keeps a record well typed. */
  lemma WellTypedUpdate(r: seq<Value>, i: nat, v: Value)
    requires WellTyped(r) && i < FieldCount && KindOf(v) == Field(i).kind
    ensures WellTyped(r[i := v])
  {
  }

  /** The types of the GPS block's fields (the first six). */
  function GpsKind(i: int): Kind
  {
    if i == 3 then StringKind
    else if i == 4 || i == 5 then TimeKind
    else Float64Kind
  }

  /** Storing a value of its type in one of the first six fields keeps a
      record well typed. */
  lemma GpsUpdate(r: seq<Value>, i: int, v: Value)
    requires WellTyped(r) && 0 <= i < 6 && KindOf(v) == GpsKind(i)
    ensures WellTyped(r[i := v])
  {
    assert Field(i).kind == GpsKind(i) by {
      if i == 0 {
      } else if i == 1 {
      } else if i == 2 {
      } else if i == 3 {
      } else if i == 4 {
      } else {
      }
    }
    WellTypedUpdate(r, i, v);
  }

  /** `ImageData{}`: every field at its zero value. */
  function ZeroRecord(): (r: seq<Value>)
    ensures WellTyped(r)
  {
    seq(FieldCount, i requires 0 <= i < FieldCount => ZeroOf(Field(i).kind))
  }

  /** The record the decoder fills in place. */
  class ImageData {
    var fields: seq<Value>

    predicate Valid()
      reads this
    {
      WellTyped(fields)
    }

    constructor ()
      ensures fields == ZeroRecord()
      ensures Valid()
    {
      fields := ZeroRecord();
    }
  }
}
