/** Turning a decoded template image into `ImageData`: the size checks,
    the validation of every pixel against the palette (fully transparent
    pixels stand for any colour and are skipped), and the histogram of
    palette colours. */
module ImageIngest {
  import opened Prelude
  import opened ColorCodec

  /** A decoded image: its size and its pixels, row by row (row `y`,
      column `x`). */
  datatype Bitmap = Bitmap(width: u32, height: u32, rows: seq<seq<Rgba>>)

  /** The decoder yields `height` rows of `width` pixels. */
  predicate WellFormed(img: Bitmap)
  {
    |img.rows| == img.height && forall y :: 0 <= y < |img.rows| ==> |img.rows[y]| == img.width
  }

  datatype ImageDataError =
    | ImageError(cause: string)
    | InvalidWidth
    | InvalidHeight
    | InvalidColor(x: u32, y: u32, rgba: Rgba)

  datatype ImageData = ImageData(image: Bitmap, width: u32, height: u32, colorCounts: map<Color, nat>)

  // ---------------------------------------------------------------------
  // Specification
  // ---------------------------------------------------------------------

  /** A pixel that stops the ingestion: not fully transparent, and not one
      of the palette's colours. */
  predicate Bad(p: Rgba)
  {
    p.a != 0 && Decode(p).Err?
  }

  /** The first bad pixel of `row` at or after column `x`. */
  function FirstBadInRow(row: seq<Rgba>, x: nat): (r: Option<nat>)
    ensures r.Some? ==> x <= r.value < |row| && Bad(row[r.value])
    decreases |row| - x
  {
    if x >= |row| then None
    else if Bad(row[x]) then Some(x)
    else FirstBadInRow(row, x + 1)
  }

  /** The first bad pixel, as (x, y), in rows `y` and after, in row-major
      order with x running fastest. */
  function FirstBadFrom(rows: seq<seq<Rgba>>, y: nat): (r: Option<(nat, nat)>)
    ensures r.Some? ==> y <= r.value.1 < |rows| && r.value.0 < |rows[r.value.1]|
    ensures r.Some? ==> Bad(rows[r.value.1][r.value.0])
    decreases |rows| - y
  {
    if y >= |rows| then None
    else match FirstBadInRow(rows[y], 0)
      case Some(x) => Some((x, y))
      case None => FirstBadFrom(rows, y + 1)
  }

  /** No pixel before (x, y) in row-major order is bad. */
  predicate GoodBefore(rows: seq<seq<Rgba>>, x: nat, y: nat)
    requires y < |rows| && x <= |rows[y]|
  {
    (forall j, i :: 0 <= j < y && 0 <= i < |rows[j]| ==> !Bad(rows[j][i])) &&
    (forall i :: 0 <= i < x ==> !Bad(rows[y][i]))
  }

  predicate AllGood(rows: seq<seq<Rgba>>)
  {
    forall j, i :: 0 <= j < |rows| && 0 <= i < |rows[j]| ==> !Bad(rows[j][i])
  }

  /** All the pixels, row after row. */
  function Flatten(rows: seq<seq<Rgba>>): seq<Rgba>
  {
    if rows == [] then [] else Flatten(rows[..|rows| - 1]) + rows[|rows| - 1]
  }

  /** How many pixels of `s` are colour `c`. */
  function Count(s: seq<Rgba>, c: Color): nat
  {
    if s == [] then 0
    else Count(s[..|s| - 1], c) + (if Decode(s[|s| - 1]) == Ok(c) then 1 else 0)
  }

  /** The colour histogram: the colours present, each with its number of
      pixels. */
  function Histogram(s: seq<Rgba>): map<Color, nat>
  {
    map c: Color | Count(s, c) > 0 :: Count(s, c)
  }

  /** `ImageData::new` after decoding: the width is checked before the
      height, then the first bad pixel is reported with its position and
      bytes; otherwise the histogram is built. An image is accepted exactly
      when it has both sizes and no bad pixel, and then it is kept whole;
      the pixel reported is bad and every pixel before it is good. */
  function Ingest(decoded: Result<Bitmap, string>): (r: Result<ImageData, ImageDataError>)
    requires decoded.Ok? ==> WellFormed(decoded.value)
    ensures decoded.Err? ==> r == Err(ImageError(decoded.error))
    ensures decoded.Ok? && decoded.value.width != 0 && decoded.value.height != 0 ==>
              (r.Ok? <==> AllGood(decoded.value.rows))
    ensures r.Ok? ==>
              decoded.Ok? && r.value.image == decoded.value &&
              r.value.width == decoded.value.width != 0 && r.value.height == decoded.value.height != 0
    ensures r.Ok? ==> forall c :: c in r.value.colorCounts ==> r.value.colorCounts[c] > 0
    ensures r.Err? && r.error.InvalidColor? ==>
              var e := r.error;
              decoded.Ok? && e.y < |decoded.value.rows| && e.x < |decoded.value.rows[e.y]| &&
              e.rgba == decoded.value.rows[e.y][e.x] && Bad(e.rgba) && GoodBefore(decoded.value.rows, e.x, e.y)
  {
    match decoded
    case Err(cause) => Err(ImageError(cause))
    case Ok(img) =>
      if img.width == 0 then Err(InvalidWidth)
      else if img.height == 0 then Err(InvalidHeight)
      else
        FirstBadCharacterised(img.rows);
        match FirstBadFrom(img.rows, 0)
        case Some((x, y)) => Err(InvalidColor(x, y, img.rows[y][x]))
        case None => Ok(ImageData(img, img.width, img.height, Histogram(Flatten(img.rows))))
  }

  // ---------------------------------------------------------------------
  // The pixel loop
  // ---------------------------------------------------------------------

  /** `ImageData::new`, the pixel loop building the histogram in place,
      proved to compute `Ingest`. The decoder itself is not modelled: its
      outcome is the input. */
  method NewImageData(decoded: Result<Bitmap, string>) returns (r: Result<ImageData, ImageDataError>)
    requires decoded.Ok? ==> WellFormed(decoded.value)
    ensures r == Ingest(decoded)
  {
    if decoded.Err? {
      return Err(ImageError(decoded.error));
    }
    var img := decoded.value;
    if img.width == 0 {
      return Err(InvalidWidth);
    }
    if img.height == 0 {
      return Err(InvalidHeight);
    }
    var counts: map<Color, nat> := map[];
    var y: nat := 0;
    while y < img.height
      invariant y <= img.height
      invariant forall j, i :: 0 <= j < y && 0 <= i < |img.rows[j]| ==> !Bad(img.rows[j][i])
      invariant CountsOf(counts, Flatten(img.rows[..y]))
    {
      var x: nat := 0;
      assert Flatten(img.rows[..y]) + img.rows[y][..x] == Flatten(img.rows[..y]);
      while x < img.width
        invariant x <= img.width
        invariant forall i :: 0 <= i < x ==> !Bad(img.rows[y][i])
        invariant CountsOf(counts, Flatten(img.rows[..y]) + img.rows[y][..x])
      {
        var p := img.rows[y][x];
        ghost var done := Flatten(img.rows[..y]) + img.rows[y][..x];
        assert done + [p] == Flatten(img.rows[..y]) + img.rows[y][..x + 1];
        ghost var before := counts;
        if p.a == 0 {
          TallyKeepsCounts(before, counts, done, p);
          x := x + 1;
          continue;
        }
        var color := Decode(p);
        match color {
          case Err(_) =>
            FirstBadIsFirst(img.rows, x, y);
            return Err(InvalidColor(x, y, p));
          case Ok(c) =>
            if c in counts {
              counts := counts[c := counts[c] + 1];
            } else {
              counts := counts[c := 1];
            }
        }
        TallyKeepsCounts(before, counts, done, p);
        x := x + 1;
      }
      assert img.rows[y][..x] == img.rows[y];
      assert img.rows[..y + 1][..y] == img.rows[..y];
      y := y + 1;
    }
    assert img.rows[..y] == img.rows;
    AllGoodHasNoFirstBad(img.rows);
    CountsOfIsHistogram(counts, Flatten(img.rows));
    r := Ok(ImageData(img, img.width, img.height, counts));
  }

  /** `counts` holds the number of pixels of each colour of `s`, and only
      colours that occur. */
  predicate CountsOf(counts: map<Color, nat>, s: seq<Rgba>)
  {
    (forall c :: GetOrZero(counts, c) == Count(s, c)) && (forall c :: c in counts ==> counts[c] > 0)
  }

  lemma CountSnoc(s: seq<Rgba>, p: Rgba)
    ensures forall c :: Count(s + [p], c) == Count(s, c) + (if Decode(p) == Ok(c) then 1 else 0)
  {
    assert (s + [p])[..|s + [p]| - 1] == s;
  }

  /** One pixel of the loop: a pixel that decodes adds one to its colour,
      any other pixel leaves the counts as they are. */
  lemma TallyKeepsCounts(counts: map<Color, nat>, counts': map<Color, nat>, done: seq<Rgba>, p: Rgba)
    requires CountsOf(counts, done)
    requires Decode(p).Err? ==> counts' == counts
    requires Decode(p).Ok? ==>
               counts' == counts[Decode(p).value := GetOrZero(counts, Decode(p).value) + 1]
    ensures CountsOf(counts', done + [p])
  {
    CountSnoc(done, p);
  }

  lemma CountsOfIsHistogram(counts: map<Color, nat>, s: seq<Rgba>)
    requires CountsOf(counts, s)
    ensures counts == Histogram(s)
  {
  }

  // ---------------------------------------------------------------------
  // Properties
  // ---------------------------------------------------------------------

  lemma {:induction false} FirstBadInRowIsFirst(row: seq<Rgba>, x: nat, from: nat)
    requires from <= x < |row| && Bad(row[x])
    requires forall i :: from <= i < x ==> !Bad(row[i])
    ensures FirstBadInRow(row, from) == Some(x)
    decreases x - from
  {
    if from < x {
      FirstBadInRowIsFirst(row, x, from + 1);
    }
  }

  lemma {:induction false} FirstBadInRowNone(row: seq<Rgba>, from: nat)
    ensures FirstBadInRow(row, from) == None <==> forall i :: from <= i < |row| ==> !Bad(row[i])
    decreases |row| - from
  {
    if from < |row| {
      FirstBadInRowNone(row, from + 1);
    }
  }

  lemma {:induction false} FirstBadFromIsFirst(rows: seq<seq<Rgba>>, x: nat, y: nat, from: nat)
    requires from <= y < |rows| && x < |rows[y]| && Bad(rows[y][x])
    requires forall j, i :: from <= j < y && 0 <= i < |rows[j]| ==> !Bad(rows[j][i])
    requires forall i :: 0 <= i < x ==> !Bad(rows[y][i])
    ensures FirstBadFrom(rows, from) == Some((x, y))
    decreases y - from
  {
    if from < y {
      FirstBadInRowNone(rows[from], 0);
      FirstBadFromIsFirst(rows, x, y, from + 1);
    } else {
      FirstBadInRowIsFirst(rows[y], x, 0);
    }
  }

  /** A bad pixel with no bad pixel before it is the one reported. */
  lemma FirstBadIsFirst(rows: seq<seq<Rgba>>, x: nat, y: nat)
    requires y < |rows| && x < |rows[y]| && Bad(rows[y][x]) && GoodBefore(rows, x, y)
    ensures FirstBadFrom(rows, 0) == Some((x, y))
  {
    FirstBadFromIsFirst(rows, x, y, 0);
  }

  lemma {:induction false} AllGoodFrom(rows: seq<seq<Rgba>>, from: nat)
    ensures FirstBadFrom(rows, from) == None <==>
              forall j, i :: from <= j < |rows| && 0 <= i < |rows[j]| ==> !Bad(rows[j][i])
    decreases |rows| - from
  {
    if from < |rows| {
      FirstBadInRowNone(rows[from], 0);
      AllGoodFrom(rows, from + 1);
    }
  }

  lemma AllGoodHasNoFirstBad(rows: seq<seq<Rgba>>)
    ensures FirstBadFrom(rows, 0) == None <==> AllGood(rows)
  {
    AllGoodFrom(rows, 0);
  }

  lemma {:induction false} FirstBadInRowGoodBefore(row: seq<Rgba>, from: nat)
    ensures FirstBadInRow(row, from).Some? ==>
              forall i :: from <= i < FirstBadInRow(row, from).value ==> !Bad(row[i])
    decreases |row| - from
  {
    if from < |row| && !Bad(row[from]) {
      FirstBadInRowGoodBefore(row, from + 1);
    }
  }

  lemma {:induction false} FirstBadFromGoodBefore(rows: seq<seq<Rgba>>, from: nat)
    ensures FirstBadFrom(rows, from).Some? ==>
              var (x, y) := FirstBadFrom(rows, from).value;
              (forall j, i :: from <= j < y && 0 <= i < |rows[j]| ==> !Bad(rows[j][i])) &&
              (forall i :: 0 <= i < x ==> !Bad(rows[y][i]))
    decreases |rows| - from
  {
    if from < |rows| {
      FirstBadInRowGoodBefore(rows[from], 0);
      if FirstBadInRow(rows[from], 0).None? {
        FirstBadInRowNone(rows[from], 0);
        FirstBadFromGoodBefore(rows, from + 1);
      }
    }
  }

  /** The pixel reported is bad and every pixel before it is good; no pixel
      is reported exactly when all pixels are good. */
  lemma FirstBadCharacterised(rows: seq<seq<Rgba>>)
    ensures FirstBadFrom(rows, 0).Some? ==>
              var (x, y) := FirstBadFrom(rows, 0).value;
              y < |rows| && x < |rows[y]| && Bad(rows[y][x]) && GoodBefore(rows, x, y)
    ensures FirstBadFrom(rows, 0).None? <==> AllGood(rows)
  {
    AllGoodHasNoFirstBad(rows);
    FirstBadFromGoodBefore(rows, 0);
  }

  // ---------------------------------------------------------------------
  // Size checks and pixel classes
  // ---------------------------------------------------------------------

  /** A zero width is reported before the height is looked at, so a 0×0
      image is `InvalidWidth`; a zero height with a nonzero width is
      `InvalidHeight`. */
  lemma SizeChecksInOrder(img: Bitmap)
    requires WellFormed(img)
    ensures img.width == 0 ==> Ingest(Ok(img)) == Err(InvalidWidth)
    ensures img.width != 0 && img.height == 0 ==> Ingest(Ok(img)) == Err(InvalidHeight)
    ensures Ingest(Ok(img)) == Err(InvalidWidth) <==> img.width == 0
  {
    if img.width != 0 && img.height != 0 {
      FirstBadCharacterised(img.rows);
    }
  }

  /** Fully transparent pixels are skipped: never an error and never
      counted. A partly transparent pixel is always an error. */
  lemma PixelClasses(s: seq<Rgba>, p: Rgba)
    ensures p.a == 0 ==> !Bad(p) && forall c :: Count(s + [p], c) == Count(s, c)
    ensures 0 < p.a < 255 ==> Bad(p)
    ensures p.a == 255 ==> (Bad(p) <==> forall c :: Encode(c) != p)
  {
    CountSnoc(s, p);
    DecodeInverse(p);
  }

  // ---------------------------------------------------------------------
  // The histogram
  // ---------------------------------------------------------------------

  /** The positions in `s` of pixels of colour `c`. */
  function PositionsOf(s: seq<Rgba>, c: Color): set<nat>
  {
    set i | 0 <= i < |s| && s[i] == Encode(c)
  }

  /** Appending a pixel adds its position when it has colour `c`. */
  lemma PositionsSnoc(s: seq<Rgba>, c: Color)
    requires s != []
    ensures PositionsOf(s, c) ==
              PositionsOf(s[..|s| - 1], c) + (if s[|s| - 1] == Encode(c) then {|s| - 1} else {})
  {
    var s' := s[..|s| - 1];
    var P, P' := PositionsOf(s, c), PositionsOf(s', c);
    forall i | i in P' ensures i in P {
      assert s'[i] == s[i];
    }
    forall i | i in P && i != |s| - 1 ensures i in P' {
      assert s'[i] == s[i];
    }
  }

  /** The count of a colour is the number of positions holding it. */
  lemma {:induction false} CountIsPositions(s: seq<Rgba>, c: Color)
    ensures Count(s, c) == |PositionsOf(s, c)|
    decreases |s|
  {
    if s != [] {
      var s' := s[..|s| - 1];
      CountIsPositions(s', c);
      PositionsSnoc(s, c);
      RgbaTablesAgree(c, s[|s| - 1]);
      assert |s| - 1 !in PositionsOf(s', c);
    }
  }

  /** After a successful ingestion the histogram holds, for every colour,
      the number of pixels of exactly that colour's bytes, and the colours
      with no pixel are absent. */
  lemma HistogramCountsPixels(img: Bitmap, c: Color)
    requires WellFormed(img) && Ingest(Ok(img)).Ok?
    ensures var counts := Ingest(Ok(img)).value.colorCounts;
            GetOrZero(counts, c) == |set i | 0 <= i < |Flatten(img.rows)| && Flatten(img.rows)[i] == Encode(c)|
            && (c in counts <==> Count(Flatten(img.rows), c) > 0)
  {
    CountIsPositions(Flatten(img.rows), c);
  }

  /** A pixel of `Flatten(rows)` is a pixel of one of the rows. */
  lemma {:induction false} InFlatten(rows: seq<seq<Rgba>>, p: Rgba)
    ensures p in Flatten(rows) <==> exists j, i :: 0 <= j < |rows| && 0 <= i < |rows[j]| && rows[j][i] == p
    decreases |rows|
  {
    if rows != [] {
      var front := rows[..|rows| - 1];
      InFlatten(front, p);
      if exists j, i :: 0 <= j < |rows| && 0 <= i < |rows[j]| && rows[j][i] == p {
        var j, i :| 0 <= j < |rows| && 0 <= i < |rows[j]| && rows[j][i] == p;
        if j < |rows| - 1 {
          assert front[j][i] == p;
        } else {
          assert rows[|rows| - 1][i] == p;
        }
      }
      if p in Flatten(front) {
        var j, i :| 0 <= j < |front| && 0 <= i < |front[j]| && front[j][i] == p;
        assert rows[j][i] == p;
      }
    }
  }

  lemma {:induction false} FlattenLength(rows: seq<seq<Rgba>>, width: nat)
    requires forall y :: 0 <= y < |rows| ==> |rows[y]| == width
    ensures |Flatten(rows)| == |rows| * width
    decreases |rows|
  {
    if rows != [] {
      FlattenLength(rows[..|rows| - 1], width);
    }
  }

  /** A colour is counted exactly when its bytes occur. */
  lemma {:induction false} CountPositive(s: seq<Rgba>, c: Color)
    ensures Count(s, c) > 0 <==> Encode(c) in s
    decreases |s|
  {
    if s != [] {
      var s' := s[..|s| - 1];
      CountPositive(s', c);
      assert s == s' + [s[|s| - 1]];
      RgbaTablesAgree(c, s[|s| - 1]);
    }
  }

  /** The colours of `counts` whose palette index is below `n`, in palette
      order. */
  function ColorsBelow(counts: map<Color, nat>, n: nat): (cs: seq<Color>)
    requires n <= 64
    ensures forall c :: c in cs <==> c in counts && Index(c) < n
    ensures forall i, j :: 0 <= i < j < |cs| ==> Index(cs[i]) < Index(cs[j])
  {
    if n == 0 then []
    else
      var earlier := ColorsBelow(counts, n - 1);
      ListingGrows(counts, n - 1, earlier);
      if ColorAt(n - 1) in counts then earlier + [ColorAt(n - 1)] else earlier
  }

  /** Listing the colours of index below `k` in palette order, and then
      the colour of index `k` when it is a key, lists the colours of index
      below `k + 1` in palette order. */
  lemma ListingGrows(counts: map<Color, nat>, k: nat, earlier: seq<Color>)
    requires k < 64
    requires forall c :: c in earlier <==> c in counts && Index(c) < k
    requires forall i, j :: 0 <= i < j < |earlier| ==> Index(earlier[i]) < Index(earlier[j])
    ensures var cs := if ColorAt(k) in counts then earlier + [ColorAt(k)] else earlier;
            (forall c :: c in cs <==> c in counts && Index(c) < k + 1) &&
            (forall i, j :: 0 <= i < j < |cs| ==> Index(cs[i]) < Index(cs[j]))
  {
    ColorAtIsIndexed(k);
    if ColorAt(k) in counts {
      var cs := earlier + [ColorAt(k)];
      forall c ensures c in cs <==> c in counts && Index(c) < k + 1 {
        assert c in cs <==> c in earlier || c == ColorAt(k);
      }
      forall i, j | 0 <= i < j < |cs| ensures Index(cs[i]) < Index(cs[j]) {
        assert cs[i] in earlier;
        if j < |earlier| {
          assert cs[j] == earlier[j];
        }
      }
    } else {
      forall c | c in counts && Index(c) < k + 1 ensures c in earlier {
        assert c != ColorAt(k);
      }
    }
  }

  /** `get_colors`: the colours of the histogram, each listed once. The
      slice lists them in palette order. */
  function Colors(d: ImageData): (cs: seq<Color>)
    ensures forall c :: c in cs <==> c in d.colorCounts
    ensures forall i, j :: 0 <= i < j < |cs| ==> cs[i] != cs[j]
  {
    ColorsBelow(d.colorCounts, 64)
  }

  /** The colours listed are exactly the palette colours painted somewhere
      in the image. */
  lemma ColorsArePainted(img: Bitmap, c: Color)
    requires WellFormed(img) && Ingest(Ok(img)).Ok?
    ensures c in Colors(Ingest(Ok(img)).value) <==>
              exists j, i :: 0 <= j < |img.rows| && 0 <= i < |img.rows[j]| && img.rows[j][i] == Encode(c)
  {
    CountPositive(Flatten(img.rows), c);
    InFlatten(img.rows, Encode(c));
  }

  // ---------------------------------------------------------------------
  // The total number of pixels to paint
  // ---------------------------------------------------------------------

  /** The colour with palette index `k`. */
  function ColorAt(k: nat): Color
    requires k < 64
  {
    FromIndex(k).value
  }

  /** `ColorAt` is the inverse of `Index`. */
  lemma ColorAtIsIndexed(k: nat)
    requires k < 64
    ensures Index(ColorAt(k)) == k
    ensures forall c :: ColorAt(Index(c)) == c
  {
    IndexTableAgrees(ColorAt(k), k as u8);
    forall c ensures ColorAt(Index(c)) == c {
      IndexTableAgrees(c, Index(c) as u8);
    }
  }

  /** The sum of the counts of the colours with index below `n`. */
  function SumBelow(counts: map<Color, nat>, n: nat): nat
    requires n <= 64
  {
    if n == 0 then 0 else SumBelow(counts, n - 1) + GetOrZero(counts, ColorAt(n - 1))
  }

  /** `get_total_px`: the sum of the histogram's values, each colour taken
      once. It bounds every single count, and it is 0 exactly when every
      count is. */
  function TotalPx(d: ImageData): (total: nat)
    ensures forall c :: GetOrZero(d.colorCounts, c) <= total
    ensures total == 0 <==> forall c :: GetOrZero(d.colorCounts, c) == 0
  {
    SumOverPalette(d.colorCounts);
    SumBelow(d.colorCounts, 64)
  }

  /** The sum over the whole palette bounds every colour's count, and it
      is 0 exactly when every count is. */
  lemma SumOverPalette(counts: map<Color, nat>)
    ensures forall c :: GetOrZero(counts, c) <= SumBelow(counts, 64)
    ensures SumBelow(counts, 64) == 0 <==> forall c :: GetOrZero(counts, c) == 0
  {
    SumBelowBounds(counts, 64);
    ColorAtIsIndexed(0);
    forall c ensures GetOrZero(counts, c) <= SumBelow(counts, 64)
    {
      assert ColorAt(Index(c)) == c;
    }
  }

  /** The sum over the colours of index below `n` bounds each of their
      counts, and it is 0 exactly when each of them is. */
  lemma {:induction false} SumBelowBounds(counts: map<Color, nat>, n: nat)
    requires n <= 64
    ensures forall k :: 0 <= k < n ==> GetOrZero(counts, ColorAt(k)) <= SumBelow(counts, n)
    ensures SumBelow(counts, n) == 0 <==> forall k :: 0 <= k < n ==> GetOrZero(counts, ColorAt(k)) == 0
  {
    if n > 0 {
      SumBelowBounds(counts, n - 1);
    }
  }

  /** The number of pixels that are not fully transparent. */
  function Opaque(s: seq<Rgba>): (n: nat)
    ensures n <= |s|
  {
    if s == [] then 0 else Opaque(s[..|s| - 1]) + (if s[|s| - 1].a != 0 then 1 else 0)
  }

  /** The number of pixels that are palette colours. */
  function Painted(s: seq<Rgba>): nat
  {
    if s == [] then 0 else Painted(s[..|s| - 1]) + (if Decode(s[|s| - 1]).Ok? then 1 else 0)
  }

  /** How many of the colours with index below `n` the pixel `p` is: one
      when its colour's index is below `n`, else none. */
  lemma {:induction false} HitsBelow(p: Rgba, n: nat)
    requires n <= 64
    ensures SumBelow(Histogram([p]), n) ==
              if Decode(p).Ok? && Index(Decode(p).value) < n then 1 else 0
  {
    if n > 0 {
      HitsBelow(p, n - 1);
      assert Count([p], ColorAt(n - 1)) == Count([], ColorAt(n - 1)) + (if Decode(p) == Ok(ColorAt(n - 1)) then 1 else 0) by {
        assert [p][..0] == [];
      }
      if Decode(p).Ok? {
        IndexTableAgrees(Decode(p).value, n - 1);
      }
    }
  }

  lemma {:induction false} SumBelowSnoc(s: seq<Rgba>, p: Rgba, n: nat)
    requires n <= 64
    ensures SumBelow(Histogram(s + [p]), n) == SumBelow(Histogram(s), n) + SumBelow(Histogram([p]), n)
  {
    if n > 0 {
      SumBelowSnoc(s, p, n - 1);
      CountSnoc(s, p);
      CountSnoc([], p);
      assert [] + [p] == [p];
    }
  }

  /** Summing the histogram over the palette counts every painted pixel
      once. */
  lemma {:induction false} SumIsPainted(s: seq<Rgba>)
    ensures SumBelow(Histogram(s), 64) == Painted(s)
    decreases |s|
  {
    if s == [] {
      SumOfEmpty(64);
    } else {
      var s' := s[..|s| - 1];
      var p := s[|s| - 1];
      assert s == s' + [p];
      SumIsPainted(s');
      SumBelowSnoc(s', p, 64);
      HitsBelow(p, 64);
    }
  }

  lemma {:induction false} SumOfEmpty(n: nat)
    requires n <= 64
    ensures SumBelow(Histogram([]), n) == 0
  {
    if n > 0 {
      SumOfEmpty(n - 1);
    }
  }

  /** When no pixel is off the palette, the painted pixels are exactly the
      ones that are not fully transparent. */
  lemma {:induction false} PaintedIsOpaque(s: seq<Rgba>)
    requires forall i :: 0 <= i < |s| ==> !Bad(s[i])
    ensures Painted(s) == Opaque(s)
    decreases |s|
  {
    if s != [] {
      var s' := s[..|s| - 1];
      assert forall i :: 0 <= i < |s'| ==> s'[i] == s[i];
      PaintedIsOpaque(s');
      if s[|s| - 1].a != 0 {
        assert !Bad(s[|s| - 1]);
      }
    }
  }

  /** `get_total_px` of an ingested image is its number of pixels that are
      not fully transparent, so at most width × height. */
  lemma TotalPxCountsOpaquePixels(img: Bitmap)
    requires WellFormed(img) && Ingest(Ok(img)).Ok?
    ensures TotalPx(Ingest(Ok(img)).value) == Opaque(Flatten(img.rows))
    ensures TotalPx(Ingest(Ok(img)).value) <= img.width * img.height
  {
    var s := Flatten(img.rows);
    FirstBadCharacterised(img.rows);
    forall i | 0 <= i < |s| ensures !Bad(s[i]) {
      assert s[i] in s;
      InFlatten(img.rows, s[i]);
    }
    SumIsPainted(s);
    PaintedIsOpaque(s);
    FlattenLength(img.rows, img.width);
  }

  // ---------------------------------------------------------------------
  // The first sighting of a colour, as written
  // ---------------------------------------------------------------------

  /** How much an operation is defined: Rust's `unwrap_unchecked` on `None`
      is undefined behaviour, not a panic. */
  datatype Unchecked<T> = Defined(value: T) | Undefined

  /** What `HashMap::insert` returns: the value it replaced, if any. */
  function InsertPrevious(counts: map<Color, nat>, c: Color): Option<nat>
  {
    if c in counts then Some(counts[c]) else None
  }

  /** `insert(c, v).unwrap_unchecked()`: the map with `c` bound to `v`,
      defined only when `insert` replaced a value. */
  function InsertUnwrapUnchecked(counts: map<Color, nat>, c: Color, v: nat): Unchecked<map<Color, nat>>
  {
    match InsertPrevious(counts, c)
    case Some(_) => Defined(counts[c := v])
    case None => Undefined
  }

  /** The histogram update as written: `get_mut` and `+= 1` for a colour
      already counted, otherwise `insert(c, 1).unwrap_unchecked()`. */
  function TallyAsWritten(counts: map<Color, nat>, c: Color): (r: Unchecked<map<Color, nat>>)
    ensures r == Undefined <==> c !in counts
    ensures r.Defined? ==>
              r.value.Keys == counts.Keys && r.value[c] == counts[c] + 1 &&
              forall k :: k in counts && k != c ==> r.value[k] == counts[k]
  {
    if c in counts then Defined(counts[c := counts[c] + 1])
    else InsertUnwrapUnchecked(counts, c, 1)
  }

  /** The second arm is taken exactly for a colour not yet counted, and
      there `insert` returns `None`: the first painted pixel of any image
      is undefined behaviour. */
  lemma TallyAsWrittenUndefinedOnFirstSighting(p: Rgba)
    requires Decode(p).Ok?
    ensures TallyAsWritten(map[], Decode(p).value) == Undefined
  {
  }

  /** The histogram of a single palette pixel holds its colour once. */
  lemma HistogramOfOne(p: Rgba)
    requires Decode(p).Ok?
    ensures Histogram([p]) == map[Decode(p).value := 1]
  {
    forall c ensures Count([p], c) == if c == Decode(p).value then 1 else 0 {
      assert [p][..0] == [];
    }
  }

  /** With the evidently intended count of 1 for a first sighting, a one
      pixel red image is ingested with the histogram {Red: 1}. */
  lemma FirstSightingCountsOne()
    ensures Ingest(Ok(Bitmap(1, 1, [[Encode(Red)]]))) ==
              Ok(ImageData(Bitmap(1, 1, [[Encode(Red)]]), 1, 1, map[Red := 1]))
  {
    var img := Bitmap(1, 1, [[Encode(Red)]]);
    EncodeDecodes(Red);
    assert !Bad(Encode(Red));
    FirstBadCharacterised(img.rows);
    assert Flatten(img.rows) == [Encode(Red)] by { assert img.rows[..0] == []; }
    HistogramOfOne(Encode(Red));
  }
}
