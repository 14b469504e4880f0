# wplace core library — a verified model

This project models the core of the wplace core library in Dafny. The
library helps a team keep pixel-art templates on the wplace.live canvas.
It covers:

- the 64-colour palette, mapped to and from RGBA bytes and palette indices;
- the reader of top-left-corner strings such as
  `(tile_x: 12, tile_y: 7, x: 0, y: 999)`;
- ingesting a decoded template image into a per-colour histogram;
- comparing a template with the canvas: missing colours and differing pixels;
- the 360-second tile cache of the downloader;
- the one-request-per-second gate in front of the Nominatim geocoder;
- the zoom chosen for a map link;
- building a template record: corner arithmetic, location choice and error order.

Modules, one per source file:

- `Prelude`: fixed-width integers, `Option`, `Result`, and `Exit`.
  `Exit` is how a call ends: it returns a value, or it panics.
- `ColorCodec`: the palette.
- `TileCoordinates`: the corner-string reader.
  - A character-by-character state machine is the specification.
  - The reader itself is an imperative loop proved against it.
  - `Dec`, the shortest decimal spelling of a number, is not part of the
    library. The round-trip lemmas use it to write the well-formed strings
    that the reader must read back.
- `ImageIngest`: `ImageData::new` as a nested pixel loop, proved to compute a
  histogram specification.
- `ImageDiff`: `compare_images` as two loops, each proved against a
  specification.
- `TileDownload`: the downloader's cache as a class.
- `NominatimGate`: the rate gate as a class, with a clock object.
- `MapZoom`: the zoom step function.
- `TemplateLocation`: `TemplateData::new` and `from_data`.

Conventions:

- Panics (`unreachable!()`, a failed `expect`, an arithmetic overflow in a
  debug build) are the `Panicked` outcome.
- Undefined behaviour is the `Undefined` outcome.
- The clock is nanoseconds since the Unix epoch.
- The network, the PNG decoder and the JSON decoder are outcomes passed in
  as parameters.

## Model

| member | source | states |
|---|---|---|
| ColorCodec.Index | src/color.rs:4-69 | each colour's discriminant is a palette position below 64 |
| ColorCodec.Encode | src/color.rs:365-432 | every colour converts to fully opaque bytes, Transparent included |
| ColorCodec.FromIndex | src/color.rs:293-360 | exactly the indices 0 to 63 are accepted |
| ColorCodec.IndexTableAgrees | src/color.rs:293-360 | the index-to-colour table and the discriminants agree both ways: FromIndex(i) is c exactly when i is Index(c) |
| ColorCodec.RgbTablesAgree | src/color.rs:221-286 | the RGB rows of the decode table and the encoding table agree both ways: the lookup gives c exactly for the RGB bytes of Encode(c) |
| ColorCodec.RgbaTablesAgree | src/color.rs:219-287 | the bytes-to-colour table and the colour-to-bytes table agree both ways: Decode(p) is c exactly when p is Encode(c) |
| ColorCodec.EncodeDecodes | src/color.rs:219-287 | decoding the bytes of a colour gives that colour back |
| ColorCodec.DecodeInverse | src/color.rs:219-287 | a successful decode re-encodes to the same bytes; a decode fails exactly when no colour has those bytes |
| ColorCodec.EncodeInjective | src/color.rs:365-432 | distinct colours have distinct bytes |
| ColorCodec.Decode | src/color.rs:219-287 | any alpha other than 255 is rejected before the colour table; a decoded colour encodes back to exactly the bytes it was decoded from |
| ColorCodec.FromIndexBijective | src/color.rs:293-360 | distinct accepted indices give distinct colours |
| ColorCodec.IsPremium | src/color.rs:72-139 | a colour is premium exactly when its index is 32 or more |
| ColorCodec.TransparentIsOpaqueEntry | src/color.rs:253 | Transparent is the opaque entry DE FA CE FF; a pixel of alpha 0 never decodes |
| TileCoordinates.New | src/tile_coords.rs:17-24 | the four components are stored as given |
| TileCoordinates.ParseDigitsValue | src/tile_coords.rs:41-44 | the digit loop succeeds exactly on a digit string whose value fits 16 bits, and then yields that value |
| TileCoordinates.ParseU16Dec | src/tile_coords.rs:41-44 | a 16-bit number in decimal, with or without a leading '+', parses back to itself |
| TileCoordinates.ParseU16 | src/tile_coords.rs:41-44 | a field parses exactly when it is an optional '+' then one or more digits of value at most 65535, and yields that value; only the empty field is reported as Empty |
| TileCoordinates.ParseDigitsNeverEmpty | src/tile_coords.rs:41-44 | the digit loop never reports an empty field |
| TileCoordinates.Step | src/tile_coords.rs:34-60 | only a ': ' advances the field number, by one; committed coordinates change only at ',' or ')'; the reader panics only with a field number outside 1 to 4; it stops with a result only at ',' or ')', with the coordinates after field 4 or with the parse error of the buffered field |
| TileCoordinates.Run | src/tile_coords.rs:33-62 | a parse error is only ever reported at a ',' or ')' of the remaining text |
| TileCoordinates.Parse | src/tile_coords.rs:26-63 | a coordinate string with no ',' or ')' never yields a parse error |
| TileCoordinates.ParseTileCoordsString | src/tile_coords.rs:26-63 | the reader loop computes the state-machine specification, including its early stop after the fourth field |
| TileCoordinates.RunSkipsLabel | src/tile_coords.rs:52-59 | text outside a field only moves the remembered last character |
| TileCoordinates.RunBuffers | src/tile_coords.rs:52-59 | digits inside an open field are appended to the buffer |
| TileCoordinates.SpacesAfterColon | src/tile_coords.rs:35-38 | each space after a ':' opens one more field, because the last character is not updated |
| TileCoordinates.LabelOpensField | src/tile_coords.rs:34-38 | a label and its ': ' open the next field with an empty buffer |
| TileCoordinates.FieldBuffered | src/tile_coords.rs:34-59 | a label, its ': ' and the field's text leave that text buffered for the next field |
| TileCoordinates.FieldStep | src/tile_coords.rs:39-50 | a terminator commits the buffer to the current component, or stops with its parse error |
| TileCoordinates.FieldCommits | src/tile_coords.rs:34-60 | a whole `label: digits,` field stores its value and closes the field |
| TileCoordinates.ParseReadsFourFields | src/tile_coords.rs:26-63 | four well-formed fields are read back to the coordinates written, whatever follows the fourth |
| TileCoordinates.UnterminatedFieldIsDropped | src/tile_coords.rs:59-62 | a last field without a terminator is dropped and that component stays 0 |
| TileCoordinates.RunPanicsOnUnopenedField | src/tile_coords.rs:39-45 | a terminator reached before any ": " hits `unreachable!()` |
| TileCoordinates.ParsePanicsOnUnopenedField | src/tile_coords.rs:39-45 | from the start state, a ',' or ')' before any ": " panics |
| TileCoordinates.ParseExample | src/tile_coords.rs:26-63 | `(tile_x: 12, tile_y: 7, x: 0, y: 999)` reads as 12, 7, 0, 999 |
| TileCoordinates.ParseFieldErrors | src/tile_coords.rs:41-44 | a trailing space gives InvalidDigit, an empty field gives Empty, 65536 gives PosOverflow |
| TileCoordinates.FieldErrorExample | src/tile_coords.rs:39-44 | a first field that does not parse is reported with its own parse error |
| TileCoordinates.ParseUnlabelledPanics | src/tile_coords.rs:45 | `12,7,0,999` and a string without a space after the colons panic |
| TileCoordinates.ParseDoubleSpaceShiftsField | src/tile_coords.rs:35-38 | two spaces after a colon skip a component: `(x:  5)` sets tile_y to 5 |
| MapZoom.ZoomForSide | src/map_coords.rs:44-53 | the zoom is between 11 and 22 |
| MapZoom.Zoom | src/map_coords.rs:44-53 | the zoom is between 11 and 22, and is the value of the match arm that max(width, height) falls in |
| MapZoom.BandsAreContiguous | src/map_coords.rs:45-52 | the match arms cover 0 to 2^32 without gap or overlap |
| MapZoom.ZoomIsItsBand | src/map_coords.rs:44-53 | every side falls in exactly one arm, and the zoom is that arm's value |
| MapZoom.ZoomNonIncreasing | src/map_coords.rs:44-53 | a larger template never gets a closer zoom |
| MapZoom.ZoomSymmetric | src/map_coords.rs:44 | width and height play the same role |
| MapZoom.ZoomExtremes | src/map_coords.rs:45-52 | zoom 22 exactly for a 0×0 image; zoom 11 exactly when a side is 1000 or more |
| ImageIngest.FirstBadFrom | src/image_data.rs:66-77 | the reported pixel is in range and bad |
| ImageIngest.NewImageData | src/image_data.rs:49-94 | the pixel loop computes the ingestion specification: size checks, the first bad pixel, or the histogram |
| ImageIngest.TallyKeepsCounts | src/image_data.rs:75-84 | one pixel adds one to its colour's count, or leaves the counts as they are |
| ImageIngest.CountsOfIsHistogram | src/image_data.rs:64-93 | counts agreeing with every colour's count are the histogram |
| ImageIngest.FirstBadIsFirst | src/image_data.rs:66-77 | the rejected pixel is the first bad one in row-major order |
| ImageIngest.FirstBadCharacterised | src/image_data.rs:66-77 | the reported position holds a bad pixel, and no earlier pixel is bad |
| ImageIngest.SizeChecksInOrder | src/image_data.rs:52-62 | a zero width is reported, before a zero height is checked |
| ImageIngest.PixelClasses | src/image_data.rs:70-77 | alpha 0 is skipped and not counted; alpha 1 to 254 is rejected; alpha 255 is rejected exactly when no colour has those bytes |
| ImageIngest.Ingest | src/image_data.rs:49-94 | a decoder failure is passed on; an image with both sizes is accepted exactly when no pixel is bad, and is then kept whole with its sizes and only positive counts; an InvalidColor error names a bad pixel by position and bytes, with every earlier pixel good |
| ImageIngest.CountIsPositions | src/image_data.rs:78-83 | a colour's count is the number of positions holding its bytes |
| ImageIngest.HistogramCountsPixels | src/image_data.rs:64-93 | each colour's count is the number of pixels with exactly its bytes; a colour is a key exactly when that number is positive |
| ImageIngest.CountPositive | src/image_data.rs:78-83 | a colour is counted exactly when its bytes occur |
| ImageIngest.Colors | src/image_data.rs:120-122 | the colours listed are exactly the keys of the histogram, each listed once |
| ImageIngest.ColorsBelow | src/image_data.rs:120-122 | the colours listed are the keys of index below n, in strictly increasing palette order |
| ImageIngest.ListingGrows | src/image_data.rs:120-122 | appending the next palette colour when it is a key keeps the listing exact and in strictly increasing palette order |
| ImageIngest.ColorsArePainted | src/image_data.rs:120-122 | the listed colours are exactly those painted somewhere in the image |
| ImageIngest.TotalPx | src/image_data.rs:112-114 | the total bounds every colour's count, and is 0 exactly when every count is 0 |
| ImageIngest.SumOverPalette | src/image_data.rs:112-114 | summing the counts over the 64 palette colours takes every key into account: each count is at most the sum, and the sum is 0 only when all counts are |
| ImageIngest.TotalPxCountsOpaquePixels | src/image_data.rs:112-114 | the total equals the number of pixels that are not fully transparent, and is at most width × height |
| ImageIngest.TallyAsWritten | src/image_data.rs:78-84 | as written, the update is undefined exactly for a colour not yet counted; otherwise it adds one to that colour and keeps the other counts |
| ImageIngest.TallyAsWrittenUndefinedOnFirstSighting | src/image_data.rs:82 | as written, the first painted pixel of any image unwraps the `None` that `insert` returns |
| ImageIngest.HistogramOfOne | src/image_data.rs:78-83 | one palette pixel makes a histogram holding its colour once |
| ImageIngest.FirstSightingCountsOne | src/image_data.rs:82 | as intended, a 1×1 red image gives the histogram {Red: 1} |
| ImageDiff.SubtractCounts | src/image_comparison.rs:50-69 | the count loop computes the subtraction specification, panicking on underflow |
| ImageDiff.ScanPixels | src/image_comparison.rs:71-92 | the pixel loop builds the highlight image and the list of differing positions |
| ImageDiff.CompareImages | src/image_comparison.rs:37-99 | the comparison computes its specification: height check, width check, counts, pixels |
| ImageDiff.DiffsMembers | src/image_comparison.rs:77-82 | a position is listed exactly when its raw bytes differ |
| ImageDiff.DiffsOrdered | src/image_comparison.rs:77-82 | the listed positions are in row-major order |
| ImageDiff.DiffsExact | src/image_comparison.rs:77-82 | each differing pixel is listed exactly once, in row-major order |
| ImageDiff.NoDiffsIffIdentical | src/image_comparison.rs:77-82 | nothing is listed exactly when the images are identical |
| ImageDiff.HighlightMarksDiffs | src/image_comparison.rs:71-89 | a pixel is magenta exactly when listed; all others stay transparent black |
| ImageDiff.TransparentTemplatePixelIsListed | src/image_comparison.rs:79-82 | a transparent template pixel over a red canvas pixel is listed |
| ImageDiff.DimensionChecks | src/image_comparison.rs:41-47 | height is checked before width; the comparison fails exactly on a size mismatch |
| ImageDiff.MissingColorCounts | src/image_comparison.rs:50-69 | each missing colour's count is the template's minus the canvas's, absent at 0; a panic happens exactly when the canvas has more of some template colour |
| ImageDiff.ExtraCanvasPixelsPanic | src/image_comparison.rs:61 | template {Red: 1, Blue: 1} against canvas {Red: 2} underflows |
| ImageDiff.CompareWithItself | src/image_comparison.rs:37-99 | an image compared with itself has no differences and no missing colours |
| TileDownload.TileDownloader.constructor | src/tile_downloader.rs:29-30 | the cache starts empty |
| TileDownload.TileDownloader.CleanCache | src/tile_downloader.rs:37-45 | the cache keeps the entries younger than 360 whole seconds |
| TileDownload.TileDownloader.GetFromCache | src/tile_downloader.rs:47-56 | a cached tile's image is returned, and nothing otherwise |
| TileDownload.TileDownloader.Download | src/tile_downloader.rs:58-71 | clean, then serve from the cache, else fetch and decode; the cache afterwards is the cleaned cache |
| TileDownload.AgeInNanos | src/tile_downloader.rs:43 | under 360 whole seconds means under 360·10^9 ns |
| TileDownload.CleanedKeepsYoung | src/tile_downloader.rs:43 | an entry survives cleaning exactly when it is younger than 360 s, and it survives unchanged |
| TileDownload.CleanIdempotent | src/tile_downloader.rs:37-45 | cleaning twice at one instant is cleaning once |
| TileDownload.CleanMonotone | src/tile_downloader.rs:37-45 | cleaning later never brings an entry back |
| TileDownload.DownloadServesYoungEntries | src/tile_downloader.rs:58-71 | a young cached tile is served without the network; any other tile is fetched, and a failed transfer panics |
| TileDownload.CacheStaysEmpty | src/tile_downloader.rs:58-71 | one download step on an empty cache: cleaning keeps it empty and the tile is fetched from the network; with the constructor's `cache == map[]` and Download's `cache == Cleaned(old(cache), now)` this keeps the cache empty for good |
| NominatimGate.Clock.SleepOneSecond | src/nominatim_data.rs:29 | each sleep moves the clock on by one second |
| NominatimGate.Geocoder.constructor | src/nominatim_data.rs:17 | the last request time starts at the Unix epoch |
| NominatimGate.Geocoder.LoadData | src/nominatim_data.rs:25-48 | waits until the gate opens, stamps the clock time, then returns the answer's outcome |
| NominatimGate.ShutWithinOneSecond | src/nominatim_data.rs:26-27 | the gate is shut exactly while less than one second has passed since the last request, clock behind included |
| NominatimGate.OpensAtIsFirstOpening | src/nominatim_data.rs:26-29 | the gate opens at least one second after the last request, after whole one-second sleeps, and never a sleep later than needed |
| NominatimGate.NoWaitWhenOpen | src/nominatim_data.rs:17 | a call one second or more after the last one does not sleep; so does the first call after the epoch |
| NominatimGate.StampsOneSecondApart | src/nominatim_data.rs:26-31 | successive request times are at least one second apart |
| NominatimGate.Answer | src/nominatim_data.rs:35-47 | a failed transfer panics (and only it); an undecodable body is returned whole in the error; a body with a display name returns exactly that name |
| TemplateLocation.GetName | src/template_data.rs:14-19 | the stored name, or the geocoded display name |
| TemplateLocation.AsU16 | src/template_data.rs:74-75 | `as u16` keeps a value below 65536 |
| TemplateLocation.Contains | src/template_data.rs:91 | `contains` holds exactly when the text occurs at some position |
| TemplateLocation.OccursShifted | src/template_data.rs:91 | the occurrences after the first character of a text are those of its tail, one position on |
| TemplateLocation.ChooseLocation | src/template_data.rs:84-97 | a given name wins whatever the lookup answers; a found place is kept; an error whose body contains "Unable to geocode" becomes "Unknown"; other errors fail; only a consulted geocoder's panic is passed on |
| TemplateLocation.ChosenName | src/template_data.rs:84-97 | the chosen location's name is the given name, the display name, or "Unknown" |
| TemplateLocation.GeocodeFailureIsUnknown | src/template_data.rs:88-95 | a body reporting "Unable to geocode" gives the location "Unknown" |
| TemplateLocation.OtherGeocodeErrorFails | src/template_data.rs:96 | any other undecodable body fails the construction and carries the body |
| TemplateLocation.FarCorner | src/template_data.rs:70-79 | the projected corner panics exactly on a 16-bit overflow; otherwise it keeps the tile and lies width × height pixels from the top-left corner |
| TemplateLocation.FarCornerExamples | src/template_data.rs:70-79 | the corner is not carried into the next tile; a 65536-pixel side adds nothing |
| TemplateLocation.New | src/template_data.rs:63-102 | the record panics, fails or stores its parts exactly as the corner and the location choice decide |
| TemplateLocation.FromData | src/template_data.rs:46-61 | failures are reported in this order: the coordinate text, the file name, the file read, then the image; then what `new` reports |

## Left out

- PNG decoding is not modelled. `image_reader.decode()` in src/image_data.rs
  and `load_from_memory_with_format` in src/tile_downloader.rs are replaced
  by their outcome, an input that is a well-formed bitmap or an error text.
- HTTP transfers (curl) and the URLs they are built from are not modelled.
  A transfer is an input that either fails, which panics, or yields the body.
- JSON deserialisation is not modelled. A geocoder body comes with the
  display name it holds, if any. The serde error value itself is not kept.
- Floating point is not modelled: the latitude and longitude of
  `MapCoords::from_tile_coords`, `get_nominatim_link` and
  `convert_px_to_hours`. Zoom levels are kept in tenths, which is exact.
- Real sleeping, other threads and clock adjustments during a sleep are not
  modelled. Each sleep advances the injected clock by exactly one second.
- Concurrency is not modelled: the `static mut` globals and the `RwLock`
  around the tile cache become one object each, used from one thread.
- `Display` implementations and error messages are not modelled.
- src/metadata.rs and src/image_metadata.rs are not part of this model.
- `ImageData::from_site_coords` and `download_template_area_on_map`
  (src/template_data.rs:104-111) are not part of this model. The mosaic
  function is defined in no available file.
- Getters that only return a field are not modelled, except
  `get_total_px`, `get_colors` and `get_name`.
- Build inconsistencies are not modelled. src/lib.rs does not declare the
  downloader, geocoder or metadata modules, and `GenericBytes` is defined
  in no available file.
- TileCoordinates.ParseTileCoordsString: the field counter
  (src/tile_coords.rs:33) is an unbounded natural number, not an `i32`. It
  goes up by one for every space that follows a ':', so the source
  overflows only on a text with more than 2^31 − 1 such spaces.
- ImageIngest.NewImageData: counts are unbounded natural numbers, not
  `u32`. They overflow only for images with more than 2^32 − 1 pixels of
  one colour.
- ImageIngest.TotalPx: the sum is an unbounded natural number, not a
  `u32`. The source's `sum()` overflows once the image has 2^32 or more
  pixels that are not fully transparent: a debug build panics and a
  release build wraps around.
- ImageDiff.SubtractCounts: the `u32` underflow is modelled as the panic of
  a debug build. A release build wraps around instead.
- TemplateLocation.FarCorner: the `u16` overflow is modelled as the panic
  of a debug build. A release build wraps around instead.
- ImageDiff.SubtractCounts: the keys are visited in an arbitrary order.
  The order does not affect the result.
- ImageIngest.Colors: `get_colors` lists the keys in the hash map's order,
  which is unspecified. The model lists them in palette order.
- ImageDiff.ScanPixels: the difference image is rows of RGBA values, not an
  image buffer.
- TileDownload.TileDownloader.CleanCache and
  TileDownload.TileDownloader.Download: a cache entry stamped later than
  the current time is excluded by a precondition. The source's `elapsed()`
  would fail there, and its `unwrap` would panic. The precondition holds
  at every reachable call, because nothing is ever inserted into the cache
  (the constructor's and Download's ensures, with
  TileDownload.CacheStaysEmpty for one step).

## Findings

| source | as written | input that shows it | evidently intended | confidence | as-written member | corrected member |
|---|---|---|---|---|---|---|
| src/image_data.rs:82 | the first pixel of a colour not yet counted calls `insert(c, 1).unwrap_unchecked()`; `insert` returns `None` for a new key, so this is undefined behaviour | any image with an opaque palette pixel, e.g. a 1×1 image of Red (ED 1C 24 FF) | insert the count 1 for a new colour | not executed | ImageIngest.TallyAsWrittenUndefinedOnFirstSighting | ImageIngest.FirstSightingCountsOne |
