/** Comparing a template with the current state of the canvas: the
    dimension checks, the histogram of colours still missing, the list of
    differing pixels and the image that highlights them. */
module ImageDiff {
  import opened Prelude
  import opened ColorCodec
  import opened ImageIngest

  datatype ImageComparisonError = IncongruentWidth | IncongruentHeight

  /** The outcome of a comparison: the highlight image, the differing
      pixels as (x, y) and, per colour, how many more pixels the template
      has than the canvas. */
  datatype ImageComparison = ImageComparison(
    differenceImage: seq<seq<Rgba>>,
    differentPx: seq<(nat, nat)>,
    differenceColorCount: map<Color, nat>)

  /** An `ImageData` as ingestion builds it: its size is its image's. */
  predicate Valid(d: ImageData)
  {
    WellFormed(d.image) && d.width == d.image.width && d.height == d.image.height
  }

  /** The highlight colour of a differing pixel. */
  const Different := Rgba(255, 0, 255, 255)

  /** The initial pixel of the highlight image: a fresh buffer is all palette
      index 0, and `expand_palette` with transparent index 0 makes it
      (0, 0, 0) with alpha 0. */
  const Blank := Rgba(0, 0, 0, 0)

  // ---------------------------------------------------------------------
  // Specification
  // ---------------------------------------------------------------------

  /** The template's count minus the canvas's count, per template colour;
      a colour whose difference is 0 is absent. A canvas with more pixels
      of a template colour than the template underflows the `u32`
      subtraction, which panics. */
  function Subtract(template: map<Color, nat>, current: map<Color, nat>): Exit<map<Color, nat>>
  {
    if exists c :: c in template && GetOrZero(current, c) > template[c] then Panicked
    else Returned(map c | c in template && template[c] - GetOrZero(current, c) > 0
                    :: template[c] - GetOrZero(current, c))
  }

  /** The columns below `x` of row `y` whose pixels differ, as (x, y). */
  function RowDiffs(t: seq<Rgba>, c: seq<Rgba>, y: nat, x: nat): seq<(nat, nat)>
    requires x <= |t| && x <= |c|
  {
    if x == 0 then []
    else RowDiffs(t, c, y, x - 1) + (if t[x - 1] != c[x - 1] then [(x - 1, y)] else [])
  }

  /** The differing pixels of the rows below `y`, row after row. */
  function Diffs(t: seq<seq<Rgba>>, c: seq<seq<Rgba>>, y: nat): seq<(nat, nat)>
    requires y <= |t| && y <= |c|
    requires forall j :: 0 <= j < y ==> |t[j]| <= |c[j]|
  {
    if y == 0 then []
    else Diffs(t, c, y - 1) + RowDiffs(t[y - 1], c[y - 1], y - 1, |t[y - 1]|)
  }

  /** The highlight image: differing pixels highlighted, the others blank. */
  function Highlight(t: seq<seq<Rgba>>, c: seq<seq<Rgba>>, width: nat): seq<seq<Rgba>>
    requires SameShape(t, c, width)
  {
    seq(|t|, j requires 0 <= j < |t| =>
      seq(width, i requires 0 <= i < width => if t[j][i] != c[j][i] then Different else Blank))
  }

  /** `ImageComparison::compare_images`: heights are checked before widths. */
  function Compare(template: ImageData, current: ImageData): Exit<Result<ImageComparison, ImageComparisonError>>
    requires Valid(template) && Valid(current)
  {
    if template.height != current.height then Returned(Err(IncongruentHeight))
    else if template.width != current.width then Returned(Err(IncongruentWidth))
    else match Subtract(template.colorCounts, current.colorCounts)
      case Panicked => Panicked
      case Returned(missing) =>
        var t, c := template.image.rows, current.image.rows;
        Returned(Ok(ImageComparison(Highlight(t, c, template.width), Diffs(t, c, |t|), missing)))
  }

  // ---------------------------------------------------------------------
  // The two passes
  // ---------------------------------------------------------------------

  /** The histogram pass: the template's counts are cloned, and for each
      template colour, in the map's own order, the canvas's count is
      subtracted and an entry reaching 0 is removed. */
  method SubtractCounts(template: map<Color, nat>, current: map<Color, nat>) returns (r: Exit<map<Color, nat>>)
    ensures r == Subtract(template, current)
  {
    var remaining := template;
    var todo := template.Keys;
    while todo != {}
      invariant todo <= template.Keys
      invariant forall c :: c in remaining ==> c in template
      invariant forall c :: c in todo ==> c in remaining && remaining[c] == template[c]
      invariant forall c :: c in template && c !in todo ==>
                  GetOrZero(current, c) <= template[c] &&
                  (c in remaining <==> template[c] - GetOrZero(current, c) > 0) &&
                  (c in remaining ==> remaining[c] == template[c] - GetOrZero(current, c))
      decreases |todo|
    {
      var c :| c in todo;
      var inCurrent := if c in current then current[c] else 0;
      if remaining[c] < inCurrent {
        assert c in template && GetOrZero(current, c) > template[c];
        return Panicked;
      }
      remaining := remaining[c := remaining[c] - inCurrent];
      if remaining[c] == 0 {
        remaining := remaining - {c};
      }
      todo := todo - {c};
    }
    assert !exists c :: c in template && GetOrZero(current, c) > template[c];
    assert remaining == map c | c in template && template[c] - GetOrZero(current, c) > 0
                          :: template[c] - GetOrZero(current, c);
    r := Returned(remaining);
  }

  /** The pixel pass: rows top to bottom, each left to right; a pixel whose
      raw bytes differ is listed and painted in the highlight image. */
  method ScanPixels(t: seq<seq<Rgba>>, c: seq<seq<Rgba>>, width: nat)
    returns (image: seq<seq<Rgba>>, different: seq<(nat, nat)>)
    requires SameShape(t, c, width)
    ensures image == Highlight(t, c, width)
    ensures different == Diffs(t, c, |t|)
  {
    image := seq(|t|, _ => seq(width, _ => Blank));
    different := [];
    var y := 0;
    while y < |t|
      invariant y <= |t|
      invariant different == Diffs(t, c, y)
      invariant PaintedBefore(image, t, c, width, y, 0)
    {
      var x := 0;
      while x < width
        invariant x <= width
        invariant different == Diffs(t, c, y) + RowDiffs(t[y], c[y], y, x)
        invariant PaintedBefore(image, t, c, width, y, x)
      {
        PaintStep(image, t, c, width, y, x);
        if t[y][x] != c[y][x] {
          different := different + [(x, y)];
          image := image[y := image[y][x := Different]];
        }
        x := x + 1;
      }
      RowPainted(image, t, c, width, y);
      y := y + 1;
    }
    AllPainted(image, t, c, width);
  }

  predicate SameShape(t: seq<seq<Rgba>>, c: seq<seq<Rgba>>, width: nat)
  {
    |t| == |c| && forall j :: 0 <= j < |t| ==> |t[j]| == width && |c[j]| == width
  }

  /** The highlight image so far: the pixels before (x, y) in row-major
      order are painted, the others are still blank. */
  predicate PaintedBefore(image: seq<seq<Rgba>>, t: seq<seq<Rgba>>, c: seq<seq<Rgba>>, width: nat, y: nat, x: nat)
    requires SameShape(t, c, width)
  {
    |image| == |t| && (forall j :: 0 <= j < |t| ==> |image[j]| == width) &&
    forall j, i :: 0 <= j < |t| && 0 <= i < width ==>
      image[j][i] == if (j < y || (j == y && i < x)) && t[j][i] != c[j][i] then Different else Blank
  }

  lemma PaintStep(image: seq<seq<Rgba>>, t: seq<seq<Rgba>>, c: seq<seq<Rgba>>, width: nat, y: nat, x: nat)
    requires SameShape(t, c, width) && y < |t| && x < width
    requires PaintedBefore(image, t, c, width, y, x)
    ensures t[y][x] != c[y][x] ==> PaintedBefore(image[y := image[y][x := Different]], t, c, width, y, x + 1)
    ensures t[y][x] == c[y][x] ==> PaintedBefore(image, t, c, width, y, x + 1)
    ensures RowDiffs(t[y], c[y], y, x + 1) ==
              RowDiffs(t[y], c[y], y, x) + (if t[y][x] != c[y][x] then [(x, y)] else [])
  {
  }

  lemma RowPainted(image: seq<seq<Rgba>>, t: seq<seq<Rgba>>, c: seq<seq<Rgba>>, width: nat, y: nat)
    requires SameShape(t, c, width) && y < |t|
    requires PaintedBefore(image, t, c, width, y, width)
    ensures PaintedBefore(image, t, c, width, y + 1, 0)
    ensures Diffs(t, c, y + 1) == Diffs(t, c, y) + RowDiffs(t[y], c[y], y, width)
  {
  }

  lemma AllPainted(image: seq<seq<Rgba>>, t: seq<seq<Rgba>>, c: seq<seq<Rgba>>, width: nat)
    requires SameShape(t, c, width)
    requires PaintedBefore(image, t, c, width, |t|, 0)
    ensures image == Highlight(t, c, width)
  {
    var h := Highlight(t, c, width);
    forall j | 0 <= j < |t| ensures image[j] == h[j] {
      assert forall i :: 0 <= i < width ==> image[j][i] == h[j][i];
    }
  }

  /** `compare_images`, the dimension checks followed by the two passes,
      proved to compute `Compare`. */
  method CompareImages(template: ImageData, current: ImageData)
    returns (r: Exit<Result<ImageComparison, ImageComparisonError>>)
    requires Valid(template) && Valid(current)
    ensures r == Compare(template, current)
  {
    if template.height != current.height {
      return Returned(Err(IncongruentHeight));
    }
    if template.width != current.width {
      return Returned(Err(IncongruentWidth));
    }
    var missing := SubtractCounts(template.colorCounts, current.colorCounts);
    if missing.Panicked? {
      return Panicked;
    }
    var image, different := ScanPixels(template.image.rows, current.image.rows, template.width);
    r := Returned(Ok(ImageComparison(image, different, missing.value)));
  }

  // ---------------------------------------------------------------------
  // Properties of the pixel pass
  // ---------------------------------------------------------------------

  /** (x1, y1) comes before (x2, y2) when scanning rows top to bottom and
      each row left to right. */
  predicate Before(p: (nat, nat), q: (nat, nat))
  {
    p.1 < q.1 || (p.1 == q.1 && p.0 < q.0)
  }

  predicate RowMajor(s: seq<(nat, nat)>)
  {
    forall a, b :: 0 <= a < b < |s| ==> Before(s[a], s[b])
  }

  lemma RowMajorAppend(s: seq<(nat, nat)>, u: seq<(nat, nat)>)
    requires RowMajor(s) && RowMajor(u)
    requires forall a, b :: 0 <= a < |s| && 0 <= b < |u| ==> Before(s[a], u[b])
    ensures RowMajor(s + u)
  {
    forall a, b | 0 <= a < b < |s + u| ensures Before((s + u)[a], (s + u)[b]) {
      if b < |s| {
        assert (s + u)[a] == s[a] && (s + u)[b] == s[b];
      } else if a < |s| {
        assert (s + u)[a] == s[a] && (s + u)[b] == u[b - |s|];
      } else {
        assert (s + u)[a] == u[a - |s|] && (s + u)[b] == u[b - |s|];
      }
    }
  }

  lemma {:induction false} RowDiffsFacts(t: seq<Rgba>, c: seq<Rgba>, y: nat, x: nat)
    requires x <= |t| && x <= |c|
    ensures RowMajor(RowDiffs(t, c, y, x))
    ensures forall e :: e in RowDiffs(t, c, y, x) <==> e.1 == y && e.0 < x && t[e.0] != c[e.0]
  {
    if x > 0 {
      RowDiffsFacts(t, c, y, x - 1);
      var front := RowDiffs(t, c, y, x - 1);
      var last: seq<(nat, nat)> := if t[x - 1] != c[x - 1] then [(x - 1, y)] else [];
      forall a, b | 0 <= a < |front| && 0 <= b < |last| ensures Before(front[a], last[b]) {
        assert front[a] in front;
      }
      RowMajorAppend(front, last);
    }
  }

  /** The pixels listed for the rows below `y` are those whose bytes
      differ. */
  lemma {:induction false} DiffsMembers(t: seq<seq<Rgba>>, c: seq<seq<Rgba>>, width: nat, y: nat)
    requires SameShape(t, c, width) && y <= |t|
    ensures forall e :: e in Diffs(t, c, y) <==> e.1 < y && e.0 < width && t[e.1][e.0] != c[e.1][e.0]
  {
    if y > 0 {
      DiffsMembers(t, c, width, y - 1);
      RowDiffsFacts(t[y - 1], c[y - 1], y - 1, width);
      assert Diffs(t, c, y) == Diffs(t, c, y - 1) + RowDiffs(t[y - 1], c[y - 1], y - 1, width);
    }
  }

  /** The pixels listed for the rows below `y` are in row-major order. */
  lemma {:induction false} DiffsOrdered(t: seq<seq<Rgba>>, c: seq<seq<Rgba>>, width: nat, y: nat)
    requires SameShape(t, c, width) && y <= |t|
    ensures RowMajor(Diffs(t, c, y))
  {
    if y > 0 {
      DiffsOrdered(t, c, width, y - 1);
      DiffsMembers(t, c, width, y - 1);
      RowDiffsFacts(t[y - 1], c[y - 1], y - 1, width);
      var front := Diffs(t, c, y - 1);
      var row := RowDiffs(t[y - 1], c[y - 1], y - 1, width);
      forall a, b | 0 <= a < |front| && 0 <= b < |row| ensures Before(front[a], row[b]) {
        assert front[a] in front && row[b] in row;
      }
      RowMajorAppend(front, row);
    }
  }

  lemma DiffsFacts(t: seq<seq<Rgba>>, c: seq<seq<Rgba>>, width: nat, y: nat)
    requires SameShape(t, c, width) && y <= |t|
    ensures RowMajor(Diffs(t, c, y))
    ensures forall e :: e in Diffs(t, c, y) <==> e.1 < y && e.0 < width && t[e.1][e.0] != c[e.1][e.0]
  {
    DiffsMembers(t, c, width, y);
    DiffsOrdered(t, c, width, y);
  }

  /** The differing pixels are listed exactly, each once, in row-major
      order: a pixel is listed iff its raw bytes differ, so a fully
      transparent template pixel is listed whenever the canvas's bytes
      there are not the same four bytes. */
  lemma DiffsExact(t: seq<seq<Rgba>>, c: seq<seq<Rgba>>, width: nat)
    requires SameShape(t, c, width)
    ensures forall x: nat, y: nat :: (x, y) in Diffs(t, c, |t|) <==> y < |t| && x < width && t[y][x] != c[y][x]
    ensures RowMajor(Diffs(t, c, |t|))
    ensures forall a, b :: 0 <= a < b < |Diffs(t, c, |t|)| ==> Diffs(t, c, |t|)[a] != Diffs(t, c, |t|)[b]
  {
    DiffsFacts(t, c, width, |t|);
    forall x: nat, y: nat
      ensures (x, y) in Diffs(t, c, |t|) <==> y < |t| && x < width && t[y][x] != c[y][x]
    {
      var e := (x, y);
      assert e.0 == x && e.1 == y;
    }
  }

  /** Nothing is listed exactly when the two grids are the same. */
  lemma NoDiffsIffIdentical(t: seq<seq<Rgba>>, c: seq<seq<Rgba>>, width: nat)
    requires SameShape(t, c, width)
    ensures Diffs(t, c, |t|) == [] <==> t == c
  {
    DiffsFacts(t, c, width, |t|);
    if Diffs(t, c, |t|) == [] {
      forall j | 0 <= j < |t| ensures t[j] == c[j] {
        forall i | 0 <= i < width ensures t[j][i] == c[j][i] {
          assert (i, j) !in Diffs(t, c, |t|);
        }
      }
    } else {
      var e := Diffs(t, c, |t|)[0];
      assert e in Diffs(t, c, |t|);
    }
  }

  /** A pixel of the highlight image is highlighted iff it is listed;
      every other pixel keeps the blank initial value. */
  lemma HighlightMarksDiffs(t: seq<seq<Rgba>>, c: seq<seq<Rgba>>, width: nat, x: nat, y: nat)
    requires SameShape(t, c, width) && y < |t| && x < width
    ensures Highlight(t, c, width)[y][x] == Different <==> (x, y) in Diffs(t, c, |t|)
    ensures Highlight(t, c, width)[y][x] != Different ==> Highlight(t, c, width)[y][x] == Blank
  {
    DiffsFacts(t, c, width, |t|);
  }

  /** A fully transparent template pixel is not a wildcard here: against a
      red canvas pixel it is listed. */
  lemma TransparentTemplatePixelIsListed()
    ensures Diffs([[Blank]], [[Encode(Red)]], 1) == [(0, 0)]
  {
    var t := [[Blank]];
    var c := [[Encode(Red)]];
    assert t[0][0] != c[0][0] by { EncodeDecodes(Red); }
    assert RowDiffs(t[0], c[0], 0, 0) == [];
    assert RowDiffs(t[0], c[0], 0, 1) == [(0, 0)];
    assert Diffs(t, c, 0) == [];
  }

  // ---------------------------------------------------------------------
  // Properties of the comparison
  // ---------------------------------------------------------------------

  /** Heights are compared first: two images differing in both dimensions
      are `IncongruentHeight`; equal heights and different widths are
      `IncongruentWidth`; images of the same size are compared. */
  lemma DimensionChecks(template: ImageData, current: ImageData)
    requires Valid(template) && Valid(current)
    ensures template.height != current.height ==> Compare(template, current) == Returned(Err(IncongruentHeight))
    ensures template.height == current.height && template.width != current.width ==>
              Compare(template, current) == Returned(Err(IncongruentWidth))
    ensures Compare(template, current).Returned? && Compare(template, current).value.Err? <==>
              template.height != current.height || template.width != current.width
  {
  }

  /** The histogram of missing colours: for each template colour, its count
      in the template minus its count on the canvas, absent when that is 0;
      a colour the template does not use never appears. The subtraction
      panics exactly when the canvas has more pixels of some template colour
      than the template. */
  lemma MissingColorCounts(template: map<Color, nat>, current: map<Color, nat>, c: Color)
    ensures Subtract(template, current).Panicked? <==>
              exists d :: d in template && GetOrZero(current, d) > template[d]
    ensures Subtract(template, current).Returned? ==>
              var missing := Subtract(template, current).value;
              (c in missing ==> c in template && missing[c] > 0) &&
              GetOrZero(missing, c) == if c in template then template[c] - GetOrZero(current, c) else 0
  {
  }

  /** A template of a red and a blue pixel against a canvas of two red
      pixels: red is counted twice on the canvas and once in the template,
      and the `u32` subtraction underflows. */
  lemma ExtraCanvasPixelsPanic()
    ensures Subtract(map[Red := 1, Blue := 1], map[Red := 2]) == Panicked
  {
    assert Red in map[Red := 1, Blue := 1] && GetOrZero(map[Red := 2], Red) > 1;
  }

  /** Comparing an image with itself lists nothing, highlights nothing and
      leaves no colour missing. */
  lemma CompareWithItself(d: ImageData)
    requires Valid(d)
    ensures Compare(d, d).Returned? && Compare(d, d).value.Ok?
    ensures var cmp := Compare(d, d).value.value;
            cmp.differentPx == [] && cmp.differenceColorCount == map[] &&
            forall j, i :: 0 <= j < |cmp.differenceImage| && 0 <= i < |cmp.differenceImage[j]| ==>
              cmp.differenceImage[j][i] == Blank
  {
    NoDiffsIffIdentical(d.image.rows, d.image.rows, d.width);
    assert !exists c :: c in d.colorCounts && GetOrZero(d.colorCounts, c) > d.colorCounts[c];
    assert Subtract(d.colorCounts, d.colorCounts) == Returned(map[]);
  }
}
