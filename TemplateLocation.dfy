/** Building a template record: the top-left corner is parsed, the image is
    ingested, the far corner handed to the map projection is computed in
    16-bit arithmetic, and the location is either the name the user gave or
    the geocoder's answer, with "Unable to geocode" answers downgraded to
    "Unknown". The geocoder's answer is an input. */
module TemplateLocation {
  import opened Prelude
  import TC = TileCoordinates
  import II = ImageIngest
  import NG = NominatimGate
  import MZ = MapZoom

  datatype LocationData = Name(name: string) | Nominatim(data: NG.NominatimData)

  /** `LocationData::get_name`. */
  function GetName(location: LocationData): (r: string)
    ensures location.Name? ==> r == location.name
    ensures location.Nominatim? ==> r == location.data.displayName
  {
    match location
    case Name(v) => v
    case Nominatim(v) => v.displayName
  }

  datatype TemplateDataError =
    | IoError(cause: string)
    | ImageDataError(imageError: II.ImageDataError)
    | TileCoordsError(coordsError: TC.TileCoordsError)
    | NominatimDataError(geocodeError: NG.NominatimDataError)
    | NoFileName

  /** What the map projection is computed from: the corner it is given and
      the zoom chosen for the image size (the projection's latitude and
      longitude are floating point and not part of this model). */
  datatype Projection = Projection(corner: TC.TileCoords, zoom: nat)

  datatype TemplateData = TemplateData(
    name: string,
    topLeftCorner: TC.TileCoords,
    centerCoordinates: Projection,
    locationData: LocationData,
    image: II.ImageData,
    fileName: string)

  /** The geocoder's answer: it panics, or returns its data or an error. */
  type Lookup = Exit<Result<NG.NominatimData, NG.NominatimDataError>>

  const UnableToGeocode: string := "Unable to geocode"
  const Unknown: string := "Unknown"

  /** `sub` occurs in `s` at position `i`. */
  predicate OccursAt(s: string, sub: string, i: nat)
  {
    i + |sub| <= |s| && s[i..i + |sub|] == sub
  }

  /** `str::contains`: `sub` occurs somewhere in `s`, checked as a prefix
      of `s` and then of each of its suffixes. */
  predicate Contains(s: string, sub: string)
    ensures Contains(s, sub) <==> exists i: nat :: OccursAt(s, sub, i)
    decreases |s|
  {
    assert sub <= s <==> OccursAt(s, sub, 0);
    if |s| == 0 then sub <= s
    else
      OccursShifted(s, sub);
      sub <= s || Contains(s[1..], sub)
  }

  /** The occurrences in `s` after its first character are the
      occurrences in `s[1..]`, one position on. */
  lemma OccursShifted(s: string, sub: string)
    requires |s| > 0
    ensures (exists i: nat :: OccursAt(s[1..], sub, i)) <==> (exists i: nat :: 0 < i && OccursAt(s, sub, i))
  {
    if i: nat :| OccursAt(s[1..], sub, i) {
      assert s[1..][i..i + |sub|] == s[i + 1..i + 1 + |sub|];
      assert OccursAt(s, sub, i + 1);
    }
    if i: nat :| 0 < i && OccursAt(s, sub, i) {
      assert s[1..][i - 1..i - 1 + |sub|] == s[i..i + |sub|];
      assert OccursAt(s[1..], sub, i - 1);
    }
  }

  /** `as u16` on a 32-bit value keeps the low 16 bits. */
  function AsU16(n: u32): (r: u16)
    ensures n < 0x1_0000 ==> r == n
  {
    n % 0x1_0000
  }

  /** A 16-bit addition that panics on overflow. */
  function AddU16(a: u16, b: u16): Exit<u16>
  {
    if a + b < 0x1_0000 then Returned(a + b) else Panicked
  }

  /** The corner `TemplateData::new` hands to the projection: the top-left
      corner moved by the image size, in the same tile. It panics exactly
      when a 16-bit sum overflows; otherwise it keeps the tile and moves the
      pixel by the truncated image size, so its absolute pixel position
      (tile × 1000 + pixel, as the projection reads it) is the top-left's
      plus the size. */
  function FarCorner(c: TC.TileCoords, width: u32, height: u32): (r: Exit<TC.TileCoords>)
    ensures r.Returned? <==> c.x + width % 0x1_0000 < 0x1_0000 && c.y + height % 0x1_0000 < 0x1_0000
    ensures r.Returned? ==>
              r.value.tileX == c.tileX && r.value.tileY == c.tileY &&
              r.value.tileX * 1000 + r.value.x == c.tileX * 1000 + c.x + width % 0x1_0000 &&
              r.value.tileY * 1000 + r.value.y == c.tileY * 1000 + c.y + height % 0x1_0000
  {
    match AddU16(c.x, AsU16(width))
    case Panicked => Panicked
    case Returned(x) =>
      match AddU16(c.y, AsU16(height))
      case Panicked => Panicked
      case Returned(y) => Returned(TC.TileCoords(c.tileX, c.tileY, x, y))
  }

  /** The location choice of `TemplateData::new`: an explicit name wins
      and the geocoder's answer does not matter; otherwise a successful
      lookup is kept, an error whose body contains "Unable to geocode"
      becomes "Unknown", any other error fails the construction, and a
      panic of the geocoder is passed on. */
  function ChooseLocation(locationName: Option<string>, lookup: Lookup): (r: Exit<Result<LocationData, TemplateDataError>>)
    ensures locationName.Some? ==> r == Returned(Ok(Name(locationName.value)))
    ensures r.Panicked? <==> locationName.None? && lookup.Panicked?
    ensures locationName.None? && lookup.Returned? && lookup.value.Ok? ==>
              r == Returned(Ok(Nominatim(lookup.value.value)))
    ensures locationName.None? && lookup.Returned? && lookup.value.Err? ==>
              r == (if Contains(lookup.value.error.inputValue, UnableToGeocode)
                    then Returned(Ok(Nominatim(NG.NominatimData(Unknown))))
                    else Returned(Err(NominatimDataError(lookup.value.error))))
  {
    match locationName
    case Some(name) => Returned(Ok(Name(name)))
    case None =>
      match lookup
      case Panicked => Panicked
      case Returned(Ok(v)) => Returned(Ok(Nominatim(v)))
      case Returned(Err(e)) =>
        if Contains(e.inputValue, UnableToGeocode) then Returned(Ok(Nominatim(NG.NominatimData(Unknown))))
        else Returned(Err(NominatimDataError(e)))
  }

  /** `TemplateData::new`: it panics exactly when the corner overflows or
      the geocoder panics when it is consulted, fails exactly when the
      location choice fails, and otherwise records its arguments, the
      projected corner and the zoom for the image size. */
  function New(name: string, topLeftCorner: TC.TileCoords, fileName: string, image: II.ImageData,
               locationName: Option<string>, lookup: Lookup): (r: Exit<Result<TemplateData, TemplateDataError>>)
    ensures var corner := FarCorner(topLeftCorner, image.width, image.height);
            var location := ChooseLocation(locationName, lookup);
            (r.Panicked? <==> corner.Panicked? || location.Panicked?) &&
            (r.Returned? && r.value.Err? <==> corner.Returned? && location.Returned? && location.value.Err?) &&
            (r.Returned? && r.value.Err? ==> r.value.error == location.value.error) &&
            (r.Returned? && r.value.Ok? ==>
               r.value.value.name == name && r.value.value.fileName == fileName &&
               r.value.value.topLeftCorner == topLeftCorner && r.value.value.image == image &&
               r.value.value.locationData == location.value.value &&
               r.value.value.centerCoordinates == Projection(corner.value, MZ.Zoom(image.width, image.height)))
  {
    match FarCorner(topLeftCorner, image.width, image.height)
    case Panicked => Panicked
    case Returned(corner) =>
      match ChooseLocation(locationName, lookup)
      case Panicked => Panicked
      case Returned(Err(e)) => Returned(Err(e))
      case Returned(Ok(location)) =>
        Returned(Ok(TemplateData(name, topLeftCorner, Projection(corner, MZ.Zoom(image.width, image.height)),
                                 location, image, fileName)))
  }

  /** `TemplateData::from_data`. `fileName` is the path's final component
      when it exists and is valid text; `file` is the outcome of reading the
      file (an I/O error, or the PNG decoding of its bytes). It reports the
      first failing stage: the coordinate text, then the file name, then
      reading the file, then the image, and only then what `new` reports. */
  function FromData(name: string, coordsText: string, fileName: Option<string>,
                    file: Result<Result<II.Bitmap, string>, string>,
                    locationName: Option<string>, lookup: Lookup): (r: Exit<Result<TemplateData, TemplateDataError>>)
    requires file.Ok? && file.value.Ok? ==> II.WellFormed(file.value.value)
    ensures var parsed := TC.Parse(coordsText);
            (parsed.Panicked? ==> r.Panicked?) &&
            (parsed.Returned? && parsed.value.Err? ==> r == Returned(Err(TileCoordsError(parsed.value.error)))) &&
            (parsed.Returned? && parsed.value.Ok? ==>
               (fileName.None? ==> r == Returned(Err(NoFileName))) &&
               (fileName.Some? && file.Err? ==> r == Returned(Err(IoError(file.error)))) &&
               (fileName.Some? && file.Ok? && II.Ingest(file.value).Err? ==>
                  r == Returned(Err(ImageDataError(II.Ingest(file.value).error)))) &&
               (fileName.Some? && file.Ok? && II.Ingest(file.value).Ok? ==>
                  r == New(name, parsed.value.value, fileName.value, II.Ingest(file.value).value, locationName, lookup)))
  {
    match TC.Parse(coordsText)
    case Panicked => Panicked
    case Returned(Err(e)) => Returned(Err(TileCoordsError(e)))
    case Returned(Ok(corner)) =>
      if fileName.None? then Returned(Err(NoFileName))
      else if file.Err? then Returned(Err(IoError(file.error)))
      else
        match II.Ingest(file.value)
        case Err(e) => Returned(Err(ImageDataError(e)))
        case Ok(image) => New(name, corner, fileName.value, image, locationName, lookup)
  }

  // ---------------------------------------------------------------------
  // Properties
  // ---------------------------------------------------------------------

  /** The name a chosen location reports. */
  lemma ChosenName(locationName: Option<string>, lookup: Lookup)
    requires ChooseLocation(locationName, lookup).Returned? && ChooseLocation(locationName, lookup).value.Ok?
    ensures GetName(ChooseLocation(locationName, lookup).value.value) ==
              if locationName.Some? then locationName.value
              else if lookup.value.Ok? then lookup.value.value.displayName
              else Unknown
  {
  }

  const UnableBody: string := "{\"error\":\"Unable to geocode\"}"

  /** A geocoder body reporting "Unable to geocode" gives the location
      "Unknown". */
  lemma GeocodeFailureIsUnknown()
    ensures ChooseLocation(None, Returned(Err(NG.JSONDeserializeError(UnableBody))))
            == Returned(Ok(Nominatim(NG.NominatimData("Unknown"))))
  {
    assert UnableBody[10..27] == UnableToGeocode;
    assert OccursAt(UnableBody, UnableToGeocode, 10);
  }

  /** Any other malformed body is an error that carries it. */
  lemma OtherGeocodeErrorFails()
    ensures ChooseLocation(None, Returned(Err(NG.JSONDeserializeError("<html>"))))
            == Returned(Err(NominatimDataError(NG.JSONDeserializeError("<html>"))))
  {
  }

  /** The corner is not carried into the next tile, and a side of 65536
      pixels moves it by nothing. */
  lemma FarCornerExamples()
    ensures FarCorner(TC.TileCoords(5, 5, 990, 990), 20, 20) == Returned(TC.TileCoords(5, 5, 1010, 1010))
    ensures FarCorner(TC.TileCoords(5, 5, 990, 990), 0x1_0000, 20) == Returned(TC.TileCoords(5, 5, 990, 1010))
    ensures FarCorner(TC.TileCoords(0, 0, 0xFFFF, 0), 1, 1).Panicked?
  {
  }

}
