/**
  What the decoder receives from the EXIF library and from its environment.
  The byte-level EXIF reader is not modelled: a payload is given by what the
  library extracts from it (the flat list of tag entries and the GPS directory
  of the IFD index), and the clock, the float reader, the time-zone database
  and the coordinate-to-zone finder are parameters.
*/
module ExifInputs {
  import opened Wrappers
  import opened GoStrconv
  import opened GoTime

  /** One entry of `exif.GetFlatExifDataUniversalSearch`: the tag name, the
      path of the IFD it was found in, and the first value as formatted text. */
  datatype Entry = Entry(tagName: string, ifdPath: string, formattedFirst: string)

  /** `exif.ThumbnailFqIfdPath`: the IFD holding the thumbnail. */
  const ThumbnailFqIfdPath := "IFD1"

  /** `exif.GpsInfo`: decimal coordinates, altitude in whole metres, and the GPS timestamp. */
  datatype GpsInfo = GpsInfo(latitude: Float64, longitude: Float64, altitude: int, timestamp: Time)

  /** The GPS directory of the IFD index: absent (`ChildWithIfdPath` fails),
      present but unreadable (`GpsInfo` fails), or read. */
  datatype GpsDirectory = NoGpsIfd | GpsInfoError | GpsIfd(info: GpsInfo)

  /** An EXIF payload as the library sees it: the flat entries or the reason
      they could not be extracted, and the GPS directory of the IFD index or
      the reason `exif.Collect` failed. */
  datatype ExifPayload = ExifPayload(entries: Result<seq<Entry>, string>, index: Result<GpsDirectory, string>)

  /** The decoder's collaborators outside the EXIF library:
      `strconv.ParseFloat(s, 64)` (its value, and whether it reported no error),
      the time-zone finder (`None` when it failed to initialise; it is called
      with longitude first), `time.LoadLocation`, and `time.Now()` in seconds
      since 0001-01-01 UTC. */
  datatype Environment = Environment(
    parseFloat: string -> FloatParse,
    tzFinder: Option<(Float64, Float64) -> string>,
    loadLocation: string -> Option<Location>,
    now: int)
}
