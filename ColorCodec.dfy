/** The fixed 64-colour palette of the canvas: the closed colour enumeration,
    its premium tier, and the three tables between colours, RGBA bytes and
    palette indices. */
module ColorCodec {
  import opened Prelude

  /** The 64 palette colours, in declaration order: the i-th variant is the
      colour with palette index i. */
  datatype Color =
      Black
    | DarkGray
    | Gray
    | LightGray
    | White
    | DeepRed
    | Red
    | Orange
    | Gold
    | Yellow
    | LightYellow
    | DarkGreen
    | Green
    | LightGreen
    | DarkTeal
    | Teal
    | LightTeal
    | DarkBlue
    | Blue
    | Cyan
    | Indigo
    | LightIndigo
    | DarkPurple
    | Purple
    | LightPurple
    | DarkPink
    | Pink
    | LightPink
    | DarkBrown
    | Brown
    | Beige
    | Transparent
    | MediumGray
    | DarkRed
    | LightRed
    | DarkOrange
    | DarkGoldenrod
    | Goldenrod
    | LightGoldenrod
    | DarkOlive
    | Olive
    | LightOlive
    | DarkCyan
    | LightCyan
    | LightBlue
    | DarkIndigo
    | DarkSlateBlue
    | SlateBlue
    | LightSlateBlue
    | DarkPeach
    | Peach
    | LightPeach
    | LightBrown
    | DarkTan
    | Tan
    | LightTan
    | DarkBeige
    | LightBeige
    | DarkStone
    | Stone
    | LightStone
    | DarkSlate
    | Slate
    | LightSlate

  /** One pixel as raw bytes: red, green, blue and alpha. */
  datatype Rgba = Rgba(r: u8, g: u8, b: u8, a: u8)

  /** The palette index of a colour: its position in the declaration (the
      enumeration's implicit discriminant). */
  function Index(c: Color): (i: nat)
    ensures i < 64
  {
    match c
    case Black => 0
    case DarkGray => 1
    case Gray => 2
    case LightGray => 3
    case White => 4
    case DeepRed => 5
    case Red => 6
    case Orange => 7
    case Gold => 8
    case Yellow => 9
    case LightYellow => 10
    case DarkGreen => 11
    case Green => 12
    case LightGreen => 13
    case DarkTeal => 14
    case Teal => 15
    case LightTeal => 16
    case DarkBlue => 17
    case Blue => 18
    case Cyan => 19
    case Indigo => 20
    case LightIndigo => 21
    case DarkPurple => 22
    case Purple => 23
    case LightPurple => 24
    case DarkPink => 25
    case Pink => 26
    case LightPink => 27
    case DarkBrown => 28
    case Brown => 29
    case Beige => 30
    case Transparent => 31
    case MediumGray => 32
    case DarkRed => 33
    case LightRed => 34
    case DarkOrange => 35
    case DarkGoldenrod => 36
    case Goldenrod => 37
    case LightGoldenrod => 38
    case DarkOlive => 39
    case Olive => 40
    case LightOlive => 41
    case DarkCyan => 42
    case LightCyan => 43
    case LightBlue => 44
    case DarkIndigo => 45
    case DarkSlateBlue => 46
    case SlateBlue => 47
    case LightSlateBlue => 48
    case DarkPeach => 49
    case Peach => 50
    case LightPeach => 51
    case LightBrown => 52
    case DarkTan => 53
    case Tan => 54
    case LightTan => 55
    case DarkBeige => 56
    case LightBeige => 57
    case DarkStone => 58
    case Stone => 59
    case LightStone => 60
    case DarkSlate => 61
    case Slate => 62
    case LightSlate => 63
  }

  /** Whether a colour belongs to the premium tier. */
  predicate IsPremium(c: Color)
    ensures IsPremium(c) <==> Index(c) >= 32
  {
    match c
    case Black | DarkGray | Gray | LightGray | White | DeepRed | Red | Orange | Gold | Yellow |
      LightYellow | DarkGreen | Green | LightGreen | DarkTeal | Teal | LightTeal | DarkBlue |
      Blue | Cyan | Indigo | LightIndigo | DarkPurple | Purple | LightPurple | DarkPink |
      Pink | LightPink | DarkBrown | Brown | Beige | Transparent => false
    case MediumGray | DarkRed | LightRed | DarkOrange | DarkGoldenrod | Goldenrod |
      LightGoldenrod | DarkOlive | Olive | LightOlive | DarkCyan | LightCyan | LightBlue |
      DarkIndigo | DarkSlateBlue | SlateBlue | LightSlateBlue | DarkPeach | Peach |
      LightPeach | LightBrown | DarkTan | Tan | LightTan | DarkBeige | LightBeige | DarkStone |
      Stone | LightStone | DarkSlate | Slate | LightSlate => true
  }

  /** The RGBA bytes of a colour; every palette colour is fully opaque. */
  function Encode(c: Color): (p: Rgba)
    ensures p.a == 255
  {
    match c
    case Black => Rgba(0x00, 0x00, 0x00, 255)
    case DarkGray => Rgba(0x3C, 0x3C, 0x3C, 255)
    case Gray => Rgba(0x78, 0x78, 0x78, 255)
    case LightGray => Rgba(0xD2, 0xD2, 0xD2, 255)
    case White => Rgba(0xFF, 0xFF, 0xFF, 255)
    case DeepRed => Rgba(0x60, 0x00, 0x18, 255)
    case Red => Rgba(0xED, 0x1C, 0x24, 255)
    case Orange => Rgba(0xFF, 0x7F, 0x27, 255)
    case Gold => Rgba(0xF6, 0xAA, 0x09, 255)
    case Yellow => Rgba(0xF9, 0xDD, 0x3B, 255)
    case LightYellow => Rgba(0xFF, 0xFA, 0xBC, 255)
    case DarkGreen => Rgba(0x0E, 0xB9, 0x68, 255)
    case Green => Rgba(0x13, 0xE6, 0x7B, 255)
    case LightGreen => Rgba(0x87, 0xFF, 0x5E, 255)
    case DarkTeal => Rgba(0x0C, 0x81, 0x6E, 255)
    case Teal => Rgba(0x10, 0xAE, 0xA6, 255)
    case LightTeal => Rgba(0x13, 0xE1, 0xBE, 255)
    case DarkBlue => Rgba(0x60, 0xF7, 0xF2, 255)
    case Blue => Rgba(0x28, 0x50, 0x9E, 255)
    case Cyan => Rgba(0x40, 0x93, 0xE4, 255)
    case Indigo => Rgba(0x6B, 0x50, 0xF6, 255)
    case LightIndigo => Rgba(0x99, 0xB1, 0xFB, 255)
    case DarkPurple => Rgba(0x78, 0x0C, 0x99, 255)
    case Purple => Rgba(0xAA, 0x38, 0xB9, 255)
    case LightPurple => Rgba(0xE0, 0x9F, 0xF9, 255)
    case DarkPink => Rgba(0xCB, 0x00, 0x7A, 255)
    case Pink => Rgba(0xEC, 0x1F, 0x80, 255)
    case LightPink => Rgba(0xF3, 0x8D, 0xA9, 255)
    case DarkBrown => Rgba(0x68, 0x46, 0x34, 255)
    case Brown => Rgba(0x95, 0x68, 0x2A, 255)
    case Beige => Rgba(0xF8, 0xB2, 0x77, 255)
    case Transparent => Rgba(0xDE, 0xFA, 0xCE, 255)
    case MediumGray => Rgba(0xAA, 0xAA, 0xAA, 255)
    case DarkRed => Rgba(0xA5, 0x0E, 0x1E, 255)
    case LightRed => Rgba(0xFA, 0x80, 0x72, 255)
    case DarkOrange => Rgba(0xE4, 0x5C, 0x1A, 255)
    case DarkGoldenrod => Rgba(0x9C, 0x84, 0x31, 255)
    case Goldenrod => Rgba(0xC5, 0xAD, 0x31, 255)
    case LightGoldenrod => Rgba(0xE8, 0xD4, 0x5F, 255)
    case DarkOlive => Rgba(0x4A, 0x6B, 0x3A, 255)
    case Olive => Rgba(0x5A, 0x94, 0x4A, 255)
    case LightOlive => Rgba(0x84, 0xC5, 0x73, 255)
    case DarkCyan => Rgba(0x0F, 0x79, 0x9F, 255)
    case LightCyan => Rgba(0xBB, 0xFA, 0xF2, 255)
    case LightBlue => Rgba(0x7D, 0xC7, 0xFF, 255)
    case DarkIndigo => Rgba(0x4D, 0x31, 0xB8, 255)
    case DarkSlateBlue => Rgba(0x4A, 0x42, 0x84, 255)
    case SlateBlue => Rgba(0x7A, 0x71, 0xC4, 255)
    case LightSlateBlue => Rgba(0xB5, 0xAE, 0xF1, 255)
    case DarkPeach => Rgba(0x9B, 0x52, 0x49, 255)
    case Peach => Rgba(0xD1, 0x80, 0x78, 255)
    case LightPeach => Rgba(0xFA, 0xB6, 0xA4, 255)
    case LightBrown => Rgba(0xDB, 0xA4, 0x63, 255)
    case DarkTan => Rgba(0x7B, 0x63, 0x52, 255)
    case Tan => Rgba(0x9C, 0x84, 0x6B, 255)
    case LightTan => Rgba(0xD6, 0xB5, 0x94, 255)
    case DarkBeige => Rgba(0xD1, 0x80, 0x51, 255)
    case LightBeige => Rgba(0xFF, 0xC5, 0xA5, 255)
    case DarkStone => Rgba(0x6D, 0x64, 0x3F, 255)
    case Stone => Rgba(0x94, 0x8C, 0x6B, 255)
    case LightStone => Rgba(0xCD, 0xC5, 0x9E, 255)
    case DarkSlate => Rgba(0x33, 0x39, 0x41, 255)
    case Slate => Rgba(0x6D, 0x75, 0x8D, 255)
    case LightSlate => Rgba(0xB3, 0xB9, 0xD1, 255)
  }

  /** Decoding RGBA bytes: any alpha other than 255 is rejected first, then
      the RGB triple is looked up in the colour table. A decoded colour
      encodes back to exactly the bytes it came from. */
  function Decode(p: Rgba): (r: Result<Color, ()>)
    ensures p.a != 255 ==> r.Err?
    ensures r.Ok? ==> Encode(r.value) == p
  {
    if p.a != 255 then Err(())
    else
      var found := LookupRgb(p);
      if found.Ok? then RgbTablesAgree(found.value, p); found else found
  }

  /** The colour table behind decoding: the RGB triple (the alpha byte is
      ignored) is looked up among the 64 rows, in order. */
  function LookupRgb(p: Rgba): Result<Color, ()>
  {
    if p.r == 0x00 && p.g == 0x00 && p.b == 0x00 then Ok(Black)
    else if p.r == 0x3C && p.g == 0x3C && p.b == 0x3C then Ok(DarkGray)
    else if p.r == 0x78 && p.g == 0x78 && p.b == 0x78 then Ok(Gray)
    else if p.r == 0xD2 && p.g == 0xD2 && p.b == 0xD2 then Ok(LightGray)
    else if p.r == 0xFF && p.g == 0xFF && p.b == 0xFF then Ok(White)
    else if p.r == 0x60 && p.g == 0x00 && p.b == 0x18 then Ok(DeepRed)
    else if p.r == 0xED && p.g == 0x1C && p.b == 0x24 then Ok(Red)
    else if p.r == 0xFF && p.g == 0x7F && p.b == 0x27 then Ok(Orange)
    else if p.r == 0xF6 && p.g == 0xAA && p.b == 0x09 then Ok(Gold)
    else if p.r == 0xF9 && p.g == 0xDD && p.b == 0x3B then Ok(Yellow)
    else if p.r == 0xFF && p.g == 0xFA && p.b == 0xBC then Ok(LightYellow)
    else if p.r == 0x0E && p.g == 0xB9 && p.b == 0x68 then Ok(DarkGreen)
    else if p.r == 0x13 && p.g == 0xE6 && p.b == 0x7B then Ok(Green)
    else if p.r == 0x87 && p.g == 0xFF && p.b == 0x5E then Ok(LightGreen)
    else if p.r == 0x0C && p.g == 0x81 && p.b == 0x6E then Ok(DarkTeal)
    else if p.r == 0x10 && p.g == 0xAE && p.b == 0xA6 then Ok(Teal)
    else if p.r == 0x13 && p.g == 0xE1 && p.b == 0xBE then Ok(LightTeal)
    else if p.r == 0x60 && p.g == 0xF7 && p.b == 0xF2 then Ok(DarkBlue)
    else if p.r == 0x28 && p.g == 0x50 && p.b == 0x9E then Ok(Blue)
    else if p.r == 0x40 && p.g == 0x93 && p.b == 0xE4 then Ok(Cyan)
    else if p.r == 0x6B && p.g == 0x50 && p.b == 0xF6 then Ok(Indigo)
    else if p.r == 0x99 && p.g == 0xB1 && p.b == 0xFB then Ok(LightIndigo)
    else if p.r == 0x78 && p.g == 0x0C && p.b == 0x99 then Ok(DarkPurple)
    else if p.r == 0xAA && p.g == 0x38 && p.b == 0xB9 then Ok(Purple)
    else if p.r == 0xE0 && p.g == 0x9F && p.b == 0xF9 then Ok(LightPurple)
    else if p.r == 0xCB && p.g == 0x00 && p.b == 0x7A then Ok(DarkPink)
    else if p.r == 0xEC && p.g == 0x1F && p.b == 0x80 then Ok(Pink)
    else if p.r == 0xF3 && p.g == 0x8D && p.b == 0xA9 then Ok(LightPink)
    else if p.r == 0x68 && p.g == 0x46 && p.b == 0x34 then Ok(DarkBrown)
    else if p.r == 0x95 && p.g == 0x68 && p.b == 0x2A then Ok(Brown)
    else if p.r == 0xF8 && p.g == 0xB2 && p.b == 0x77 then Ok(Beige)
    else if p.r == 0xDE && p.g == 0xFA && p.b == 0xCE then Ok(Transparent)
    else if p.r == 0xAA && p.g == 0xAA && p.b == 0xAA then Ok(MediumGray)
    else if p.r == 0xA5 && p.g == 0x0E && p.b == 0x1E then Ok(DarkRed)
    else if p.r == 0xFA && p.g == 0x80 && p.b == 0x72 then Ok(LightRed)
    else if p.r == 0xE4 && p.g == 0x5C && p.b == 0x1A then Ok(DarkOrange)
    else if p.r == 0x9C && p.g == 0x84 && p.b == 0x31 then Ok(DarkGoldenrod)
    else if p.r == 0xC5 && p.g == 0xAD && p.b == 0x31 then Ok(Goldenrod)
    else if p.r == 0xE8 && p.g == 0xD4 && p.b == 0x5F then Ok(LightGoldenrod)
    else if p.r == 0x4A && p.g == 0x6B && p.b == 0x3A then Ok(DarkOlive)
    else if p.r == 0x5A && p.g == 0x94 && p.b == 0x4A then Ok(Olive)
    else if p.r == 0x84 && p.g == 0xC5 && p.b == 0x73 then Ok(LightOlive)
    else if p.r == 0x0F && p.g == 0x79 && p.b == 0x9F then Ok(DarkCyan)
    else if p.r == 0xBB && p.g == 0xFA && p.b == 0xF2 then Ok(LightCyan)
    else if p.r == 0x7D && p.g == 0xC7 && p.b == 0xFF then Ok(LightBlue)
    else if p.r == 0x4D && p.g == 0x31 && p.b == 0xB8 then Ok(DarkIndigo)
    else if p.r == 0x4A && p.g == 0x42 && p.b == 0x84 then Ok(DarkSlateBlue)
    else if p.r == 0x7A && p.g == 0x71 && p.b == 0xC4 then Ok(SlateBlue)
    else if p.r == 0xB5 && p.g == 0xAE && p.b == 0xF1 then Ok(LightSlateBlue)
    else if p.r == 0x9B && p.g == 0x52 && p.b == 0x49 then Ok(DarkPeach)
    else if p.r == 0xD1 && p.g == 0x80 && p.b == 0x78 then Ok(Peach)
    else if p.r == 0xFA && p.g == 0xB6 && p.b == 0xA4 then Ok(LightPeach)
    else if p.r == 0xDB && p.g == 0xA4 && p.b == 0x63 then Ok(LightBrown)
    else if p.r == 0x7B && p.g == 0x63 && p.b == 0x52 then Ok(DarkTan)
    else if p.r == 0x9C && p.g == 0x84 && p.b == 0x6B then Ok(Tan)
    else if p.r == 0xD6 && p.g == 0xB5 && p.b == 0x94 then Ok(LightTan)
    else if p.r == 0xD1 && p.g == 0x80 && p.b == 0x51 then Ok(DarkBeige)
    else if p.r == 0xFF && p.g == 0xC5 && p.b == 0xA5 then Ok(LightBeige)
    else if p.r == 0x6D && p.g == 0x64 && p.b == 0x3F then Ok(DarkStone)
    else if p.r == 0x94 && p.g == 0x8C && p.b == 0x6B then Ok(Stone)
    else if p.r == 0xCD && p.g == 0xC5 && p.b == 0x9E then Ok(LightStone)
    else if p.r == 0x33 && p.g == 0x39 && p.b == 0x41 then Ok(DarkSlate)
    else if p.r == 0x6D && p.g == 0x75 && p.b == 0x8D then Ok(Slate)
    else if p.r == 0xB3 && p.g == 0xB9 && p.b == 0xD1 then Ok(LightSlate)
    else Err(())
  }

  /** Decoding a palette index: 0 to 63 give the colours in declaration
      order, every larger byte is rejected. */
  function FromIndex(i: u8): (r: Result<Color, ()>)
    ensures r.Ok? <==> i < 64
  {
    match i
    case 0 => Ok(Black)
    case 1 => Ok(DarkGray)
    case 2 => Ok(Gray)
    case 3 => Ok(LightGray)
    case 4 => Ok(White)
    case 5 => Ok(DeepRed)
    case 6 => Ok(Red)
    case 7 => Ok(Orange)
    case 8 => Ok(Gold)
    case 9 => Ok(Yellow)
    case 10 => Ok(LightYellow)
    case 11 => Ok(DarkGreen)
    case 12 => Ok(Green)
    case 13 => Ok(LightGreen)
    case 14 => Ok(DarkTeal)
    case 15 => Ok(Teal)
    case 16 => Ok(LightTeal)
    case 17 => Ok(DarkBlue)
    case 18 => Ok(Blue)
    case 19 => Ok(Cyan)
    case 20 => Ok(Indigo)
    case 21 => Ok(LightIndigo)
    case 22 => Ok(DarkPurple)
    case 23 => Ok(Purple)
    case 24 => Ok(LightPurple)
    case 25 => Ok(DarkPink)
    case 26 => Ok(Pink)
    case 27 => Ok(LightPink)
    case 28 => Ok(DarkBrown)
    case 29 => Ok(Brown)
    case 30 => Ok(Beige)
    case 31 => Ok(Transparent)
    case 32 => Ok(MediumGray)
    case 33 => Ok(DarkRed)
    case 34 => Ok(LightRed)
    case 35 => Ok(DarkOrange)
    case 36 => Ok(DarkGoldenrod)
    case 37 => Ok(Goldenrod)
    case 38 => Ok(LightGoldenrod)
    case 39 => Ok(DarkOlive)
    case 40 => Ok(Olive)
    case 41 => Ok(LightOlive)
    case 42 => Ok(DarkCyan)
    case 43 => Ok(LightCyan)
    case 44 => Ok(LightBlue)
    case 45 => Ok(DarkIndigo)
    case 46 => Ok(DarkSlateBlue)
    case 47 => Ok(SlateBlue)
    case 48 => Ok(LightSlateBlue)
    case 49 => Ok(DarkPeach)
    case 50 => Ok(Peach)
    case 51 => Ok(LightPeach)
    case 52 => Ok(LightBrown)
    case 53 => Ok(DarkTan)
    case 54 => Ok(Tan)
    case 55 => Ok(LightTan)
    case 56 => Ok(DarkBeige)
    case 57 => Ok(LightBeige)
    case 58 => Ok(DarkStone)
    case 59 => Ok(Stone)
    case 60 => Ok(LightStone)
    case 61 => Ok(DarkSlate)
    case 62 => Ok(Slate)
    case 63 => Ok(LightSlate)
    case _ => Err(())
  }

  // One lemma per colour states that colour's row in each of the tables.
  // Each is checked by evaluating the tables; the general lemmas after them
  // only dispatch on the colour, which keeps every proof obligation small.

  lemma RowBlack(p: Rgba, i: u8)
    ensures Index(Black) == 0 && (FromIndex(i) == Ok(Black) <==> i == 0)
    ensures IsPremium(Black) == false
    ensures Encode(Black) == Rgba(0x00, 0x00, 0x00, 255)
    ensures LookupRgb(p) == Ok(Black) <==> Rgba(p.r, p.g, p.b, 255) == Rgba(0x00, 0x00, 0x00, 255)
  {
  }

  lemma RowDarkGray(p: Rgba, i: u8)
    ensures Index(DarkGray) == 1 && (FromIndex(i) == Ok(DarkGray) <==> i == 1)
    ensures IsPremium(DarkGray) == false
    ensures Encode(DarkGray) == Rgba(0x3C, 0x3C, 0x3C, 255)
    ensures LookupRgb(p) == Ok(DarkGray) <==> Rgba(p.r, p.g, p.b, 255) == Rgba(0x3C, 0x3C, 0x3C, 255)
  {
  }

  lemma RowGray(p: Rgba, i: u8)
    ensures Index(Gray) == 2 && (FromIndex(i) == Ok(Gray) <==> i == 2)
    ensures IsPremium(Gray) == false
    ensures Encode(Gray) == Rgba(0x78, 0x78, 0x78, 255)
    ensures LookupRgb(p) == Ok(Gray) <==> Rgba(p.r, p.g, p.b, 255) == Rgba(0x78, 0x78, 0x78, 255)
  {
  }

  lemma RowLightGray(p: Rgba, i: u8)
    ensures Index(LightGray) == 3 && (FromIndex(i) == Ok(LightGray) <==> i == 3)
    ensures IsPremium(LightGray) == false
    ensures Encode(LightGray) == Rgba(0xD2, 0xD2, 0xD2, 255)
    ensures LookupRgb(p) == Ok(LightGray) <==> Rgba(p.r, p.g, p.b, 255) == Rgba(0xD2, 0xD2, 0xD2, 255)
  {
  }

  lemma RowWhite(p: Rgba, i: u8)
    ensures Index(White) == 4 && (FromIndex(i) == Ok(White) <==> i == 4)
    ensures IsPremium(White) == false
    ensures Encode(White) == Rgba(0xFF, 0xFF, 0xFF, 255)
    ensures LookupRgb(p) == Ok(White) <==> Rgba(p.r, p.g, p.b, 255) == Rgba(0xFF, 0xFF, 0xFF, 255)
  {
  }

  lemma RowDeepRed(p: Rgba, i: u8)
    ensures Index(DeepRed) == 5 && (FromIndex(i) == Ok(DeepRed) <==> i == 5)
    ensures IsPremium(DeepRed) == false
    ensures Encode(DeepRed) == Rgba(0x60, 0x00, 0x18, 255)
    ensures LookupRgb(p) == Ok(DeepRed) <==> Rgba(p.r, p.g, p.b, 255) == Rgba(0x60, 0x00, 0x18, 255)
  {
  }

  lemma RowRed(p: Rgba, i: u8)
    ensures Index(Red) == 6 && (FromIndex(i) == Ok(Red) <==> i == 6)
    ensures IsPremium(Red) == false
    ensures Encode(Red) == Rgba(0xED, 0x1C, 0x24, 255)
    ensures LookupRgb(p) == Ok(Red) <==> Rgba(p.r, p.g, p.b, 255) == Rgba(0xED, 0x1C, 0x24, 255)
  {
  }

  lemma RowOrange(p: Rgba, i: u8)
    ensures Index(Orange) == 7 && (FromIndex(i) == Ok(Orange) <==> i == 7)
    ensures IsPremium(Orange) == false
    ensures Encode(Orange) == Rgba(0xFF, 0x7F, 0x27, 255)
    ensures LookupRgb(p) == Ok(Orange) <==> Rgba(p.r, p.g, p.b, 255) == Rgba(0xFF, 0x7F, 0x27, 255)
  {
  }

  lemma RowGold(p: Rgba, i: u8)
    ensures Index(Gold) == 8 && (FromIndex(i) == Ok(Gold) <==> i == 8)
    ensures IsPremium(Gold) == false
    ensures Encode(Gold) == Rgba(0xF6, 0xAA, 0x09, 255)
    ensures LookupRgb(p) == Ok(Gold) <==> Rgba(p.r, p.g, p.b, 255) == Rgba(0xF6, 0xAA, 0x09, 255)
  {
  }

  lemma RowYellow(p: Rgba, i: u8)
    ensures Index(Yellow) == 9 && (FromIndex(i) == Ok(Yellow) <==> i == 9)
    ensures IsPremium(Yellow) == false
    ensures Encode(Yellow) == Rgba(0xF9, 0xDD, 0x3B, 255)
    ensures LookupRgb(p) == Ok(Yellow) <==> Rgba(p.r, p.g, p.b, 255) == Rgba(0xF9, 0xDD, 0x3B, 255)
  {
  }

  lemma RowLightYellow(p: Rgba, i: u8)
    ensures Index(LightYellow) == 10 && (FromIndex(i) == Ok(LightYellow) <==> i == 10)
    ensures IsPremium(LightYellow) == false
    ensures Encode(LightYellow) == Rgba(0xFF, 0xFA, 0xBC, 255)
    ensures LookupRgb(p) == Ok(LightYellow) <==> Rgba(p.r, p.g, p.b, 255) == Rgba(0xFF, 0xFA, 0xBC, 255)
  {
  }

  lemma RowDarkGreen(p: Rgba, i: u8)
    ensures Index(DarkGreen) == 11 && (FromIndex(i) == Ok(DarkGreen) <==> i == 11)
    ensures IsPremium(DarkGreen) == false
    ensures Encode(DarkGreen) == Rgba(0x0E, 0xB9, 0x68, 255)
    ensures LookupRgb(p) == Ok(DarkGreen) <==> Rgba(p.r, p.g, p.b, 255) == Rgba(0x0E, 0xB9, 0x68, 255)
  {
  }

  lemma RowGreen(p: Rgba, i: u8)
    ensures Index(Green) == 12 && (FromIndex(i) == Ok(Green) <==> i == 12)
    ensures IsPremium(Green) == false
    ensures Encode(Green) == Rgba(0x13, 0xE6, 0x7B, 255)
    ensures LookupRgb(p) == Ok(Green) <==> Rgba(p.r, p.g, p.b, 255) == Rgba(0x13, 0xE6, 0x7B, 255)
  {
  }

  lemma RowLightGreen(p: Rgba, i: u8)
    ensures Index(LightGreen) == 13 && (FromIndex(i) == Ok(LightGreen) <==> i == 13)
    ensures IsPremium(LightGreen) == false
    ensures Encode(LightGreen) == Rgba(0x87, 0xFF, 0x5E, 255)
    ensures LookupRgb(p) == Ok(LightGreen) <==> Rgba(p.r, p.g, p.b, 255) == Rgba(0x87, 0xFF, 0x5E, 255)
  {
  }

  lemma RowDarkTeal(p: Rgba, i: u8)
    ensures Index(DarkTeal) == 14 && (FromIndex(i) == Ok(DarkTeal) <==> i == 14)
    ensures IsPremium(DarkTeal) == false
    ensures Encode(DarkTeal) == Rgba(0x0C, 0x81, 0x6E, 255)
    ensures LookupRgb(p) == Ok(DarkTeal) <==> Rgba(p.r, p.g, p.b, 255) == Rgba(0x0C, 0x81, 0x6E, 255)
  {
  }

  lemma RowTeal(p: Rgba, i: u8)
    ensures Index(Teal) == 15 && (FromIndex(i) == Ok(Teal) <==> i == 15)
    ensures IsPremium(Teal) == false
    ensures Encode(Teal) == Rgba(0x10, 0xAE, 0xA6, 255)
    ensures LookupRgb(p) == Ok(Teal) <==> Rgba(p.r, p.g, p.b, 255) == Rgba(0x10, 0xAE, 0xA6, 255)
  {
  }

  lemma RowLightTeal(p: Rgba, i: u8)
    ensures Index(LightTeal) == 16 && (FromIndex(i) == Ok(LightTeal) <==> i == 16)
    ensures IsPremium(LightTeal) == false
    ensures Encode(LightTeal) == Rgba(0x13, 0xE1, 0xBE, 255)
    ensures LookupRgb(p) == Ok(LightTeal) <==> Rgba(p.r, p.g, p.b, 255) == Rgba(0x13, 0xE1, 0xBE, 255)
  {
  }

  lemma RowDarkBlue(p: Rgba, i: u8)
    ensures Index(DarkBlue) == 17 && (FromIndex(i) == Ok(DarkBlue) <==> i == 17)
    ensures IsPremium(DarkBlue) == false
    ensures Encode(DarkBlue) == Rgba(0x60, 0xF7, 0xF2, 255)
    ensures LookupRgb(p) == Ok(DarkBlue) <==> Rgba(p.r, p.g, p.b, 255) == Rgba(0x60, 0xF7, 0xF2, 255)
  {
  }

  lemma RowBlue(p: Rgba, i: u8)
    ensures Index(Blue) == 18 && (FromIndex(i) == Ok(Blue) <==> i == 18)
    ensures IsPremium(Blue) == false
    ensures Encode(Blue) == Rgba(0x28, 0x50, 0x9E, 255)
    ensures LookupRgb(p) == Ok(Blue) <==> Rgba(p.r, p.g, p.b, 255) == Rgba(0x28, 0x50, 0x9E, 255)
  {
  }

  lemma RowCyan(p: Rgba, i: u8)
    ensures Index(Cyan) == 19 && (FromIndex(i) == Ok(Cyan) <==> i == 19)
    ensures IsPremium(Cyan) == false
    ensures Encode(Cyan) == Rgba(0x40, 0x93, 0xE4, 255)
    ensures LookupRgb(p) == Ok(Cyan) <==> Rgba(p.r, p.g, p.b, 255) == Rgba(0x40, 0x93, 0xE4, 255)
  {
  }

  lemma RowIndigo(p: Rgba, i: u8)
    ensures Index(Indigo) == 20 && (FromIndex(i) == Ok(Indigo) <==> i == 20)
    ensures IsPremium(Indigo) == false
    ensures Encode(Indigo) == Rgba(0x6B, 0x50, 0xF6, 255)
    ensures LookupRgb(p) == Ok(Indigo) <==> Rgba(p.r, p.g, p.b, 255) == Rgba(0x6B, 0x50, 0xF6, 255)
  {
  }

  lemma RowLightIndigo(p: Rgba, i: u8)
    ensures Index(LightIndigo) == 21 && (FromIndex(i) == Ok(LightIndigo) <==> i == 21)
    ensures IsPremium(LightIndigo) == false
    ensures Encode(LightIndigo) == Rgba(0x99, 0xB1, 0xFB, 255)
    ensures LookupRgb(p) == Ok(LightIndigo) <==> Rgba(p.r, p.g, p.b, 255) == Rgba(0x99, 0xB1, 0xFB, 255)
  {
  }

  lemma RowDarkPurple(p: Rgba, i: u8)
    ensures Index(DarkPurple) == 22 && (FromIndex(i) == Ok(DarkPurple) <==> i == 22)
    ensures IsPremium(DarkPurple) == false
    ensures Encode(DarkPurple) == Rgba(0x78, 0x0C, 0x99, 255)
    ensures LookupRgb(p) == Ok(DarkPurple) <==> Rgba(p.r, p.g, p.b, 255) == Rgba(0x78, 0x0C, 0x99, 255)
  {
  }

  lemma RowPurple(p: Rgba, i: u8)
    ensures Index(Purple) == 23 && (FromIndex(i) == Ok(Purple) <==> i == 23)
    ensures IsPremium(Purple) == false
    ensures Encode(Purple) == Rgba(0xAA, 0x38, 0xB9, 255)
    ensures LookupRgb(p) == Ok(Purple) <==> Rgba(p.r, p.g, p.b, 255) == Rgba(0xAA, 0x38, 0xB9, 255)
  {
  }

  lemma RowLightPurple(p: Rgba, i: u8)
    ensures Index(LightPurple) == 24 && (FromIndex(i) == Ok(LightPurple) <==> i == 24)
    ensures IsPremium(LightPurple) == false
    ensures Encode(LightPurple) == Rgba(0xE0, 0x9F, 0xF9, 255)
    ensures LookupRgb(p) == Ok(LightPurple) <==> Rgba(p.r, p.g, p.b, 255) == Rgba(0xE0, 0x9F, 0xF9, 255)
  {
  }

  lemma RowDarkPink(p: Rgba, i: u8)
    ensures Index(DarkPink) == 25 && (FromIndex(i) == Ok(DarkPink) <==> i == 25)
    ensures IsPremium(DarkPink) == false
    ensures Encode(DarkPink) == Rgba(0xCB, 0x00, 0x7A, 255)
    ensures LookupRgb(p) == Ok(DarkPink) <==> Rgba(p.r, p.g, p.b, 255) == Rgba(0xCB, 0x00, 0x7A, 255)
  {
  }

  lemma RowPink(p: Rgba, i: u8)
    ensures Index(Pink) == 26 && (FromIndex(i) == Ok(Pink) <==> i == 26)
    ensures IsPremium(Pink) == false
    ensures Encode(Pink) == Rgba(0xEC, 0x1F, 0x80, 255)
    ensures LookupRgb(p) == Ok(Pink) <==> Rgba(p.r, p.g, p.b, 255) == Rgba(0xEC, 0x1F, 0x80, 255)
  {
  }

  lemma RowLightPink(p: Rgba, i: u8)
    ensures Index(LightPink) == 27 && (FromIndex(i) == Ok(LightPink) <==> i == 27)
    ensures IsPremium(LightPink) == false
    ensures Encode(LightPink) == Rgba(0xF3, 0x8D, 0xA9, 255)
    ensures LookupRgb(p) == Ok(LightPink) <==> Rgba(p.r, p.g, p.b, 255) == Rgba(0xF3, 0x8D, 0xA9, 255)
  {
  }

  lemma RowDarkBrown(p: Rgba, i: u8)
    ensures Index(DarkBrown) == 28 && (FromIndex(i) == Ok(DarkBrown) <==> i == 28)
    ensures IsPremium(DarkBrown) == false
    ensures Encode(DarkBrown) == Rgba(0x68, 0x46, 0x34, 255)
    ensures LookupRgb(p) == Ok(DarkBrown) <==> Rgba(p.r, p.g, p.b, 255) == Rgba(0x68, 0x46, 0x34, 255)
  {
  }

  lemma RowBrown(p: Rgba, i: u8)
    ensures Index(Brown) == 29 && (FromIndex(i) == Ok(Brown) <==> i == 29)
    ensures IsPremium(Brown) == false
    ensures Encode(Brown) == Rgba(0x95, 0x68, 0x2A, 255)
    ensures LookupRgb(p) == Ok(Brown) <==> Rgba(p.r, p.g, p.b, 255) == Rgba(0x95, 0x68, 0x2A, 255)
  {
  }

  lemma RowBeige(p: Rgba, i: u8)
    ensures Index(Beige) == 30 && (FromIndex(i) == Ok(Beige) <==> i == 30)
    ensures IsPremium(Beige) == false
    ensures Encode(Beige) == Rgba(0xF8, 0xB2, 0x77, 255)
    ensures LookupRgb(p) == Ok(Beige) <==> Rgba(p.r, p.g, p.b, 255) == Rgba(0xF8, 0xB2, 0x77, 255)
  {
  }

  lemma RowTransparent(p: Rgba, i: u8)
    ensures Index(Transparent) == 31 && (FromIndex(i) == Ok(Transparent) <==> i == 31)
    ensures IsPremium(Transparent) == false
    ensures Encode(Transparent) == Rgba(0xDE, 0xFA, 0xCE, 255)
    ensures LookupRgb(p) == Ok(Transparent) <==> Rgba(p.r, p.g, p.b, 255) == Rgba(0xDE, 0xFA, 0xCE, 255)
  {
  }

  lemma RowMediumGray(p: Rgba, i: u8)
    ensures Index(MediumGray) == 32 && (FromIndex(i) == Ok(MediumGray) <==> i == 32)
    ensures IsPremium(MediumGray) == true
    ensures Encode(MediumGray) == Rgba(0xAA, 0xAA, 0xAA, 255)
    ensures LookupRgb(p) == Ok(MediumGray) <==> Rgba(p.r, p.g, p.b, 255) == Rgba(0xAA, 0xAA, 0xAA, 255)
  {
  }

  lemma RowDarkRed(p: Rgba, i: u8)
    ensures Index(DarkRed) == 33 && (FromIndex(i) == Ok(DarkRed) <==> i == 33)
    ensures IsPremium(DarkRed) == true
    ensures Encode(DarkRed) == Rgba(0xA5, 0x0E, 0x1E, 255)
    ensures LookupRgb(p) == Ok(DarkRed) <==> Rgba(p.r, p.g, p.b, 255) == Rgba(0xA5, 0x0E, 0x1E, 255)
  {
  }

  lemma RowLightRed(p: Rgba, i: u8)
    ensures Index(LightRed) == 34 && (FromIndex(i) == Ok(LightRed) <==> i == 34)
    ensures IsPremium(LightRed) == true
    ensures Encode(LightRed) == Rgba(0xFA, 0x80, 0x72, 255)
    ensures LookupRgb(p) == Ok(LightRed) <==> Rgba(p.r, p.g, p.b, 255) == Rgba(0xFA, 0x80, 0x72, 255)
  {
  }

  lemma RowDarkOrange(p: Rgba, i: u8)
    ensures Index(DarkOrange) == 35 && (FromIndex(i) == Ok(DarkOrange) <==> i == 35)
    ensures IsPremium(DarkOrange) == true
    ensures Encode(DarkOrange) == Rgba(0xE4, 0x5C, 0x1A, 255)
    ensures LookupRgb(p) == Ok(DarkOrange) <==> Rgba(p.r, p.g, p.b, 255) == Rgba(0xE4, 0x5C, 0x1A, 255)
  {
  }

  lemma RowDarkGoldenrod(p: Rgba, i: u8)
    ensures Index(DarkGoldenrod) == 36 && (FromIndex(i) == Ok(DarkGoldenrod) <==> i == 36)
    ensures IsPremium(DarkGoldenrod) == true
    ensures Encode(DarkGoldenrod) == Rgba(0x9C, 0x84, 0x31, 255)
    ensures LookupRgb(p) == Ok(DarkGoldenrod) <==> Rgba(p.r, p.g, p.b, 255) == Rgba(0x9C, 0x84, 0x31, 255)
  {
  }

  lemma RowGoldenrod(p: Rgba, i: u8)
    ensures Index(Goldenrod) == 37 && (FromIndex(i) == Ok(Goldenrod) <==> i == 37)
    ensures IsPremium(Goldenrod) == true
    ensures Encode(Goldenrod) == Rgba(0xC5, 0xAD, 0x31, 255)
    ensures LookupRgb(p) == Ok(Goldenrod) <==> Rgba(p.r, p.g, p.b, 255) == Rgba(0xC5, 0xAD, 0x31, 255)
  {
  }

  lemma RowLightGoldenrod(p: Rgba, i: u8)
    ensures Index(LightGoldenrod) == 38 && (FromIndex(i) == Ok(LightGoldenrod) <==> i == 38)
    ensures IsPremium(LightGoldenrod) == true
    ensures Encode(LightGoldenrod) == Rgba(0xE8, 0xD4, 0x5F, 255)
    ensures LookupRgb(p) == Ok(LightGoldenrod) <==> Rgba(p.r, p.g, p.b, 255) == Rgba(0xE8, 0xD4, 0x5F, 255)
  {
  }

  lemma RowDarkOlive(p: Rgba, i: u8)
    ensures Index(DarkOlive) == 39 && (FromIndex(i) == Ok(DarkOlive) <==> i == 39)
    ensures IsPremium(DarkOlive) == true
    ensures Encode(DarkOlive) == Rgba(0x4A, 0x6B, 0x3A, 255)
    ensures LookupRgb(p) == Ok(DarkOlive) <==> Rgba(p.r, p.g, p.b, 255) == Rgba(0x4A, 0x6B, 0x3A, 255)
  {
  }

  lemma RowOlive(p: Rgba, i: u8)
    ensures Index(Olive) == 40 && (FromIndex(i) == Ok(Olive) <==> i == 40)
    ensures IsPremium(Olive) == true
    ensures Encode(Olive) == Rgba(0x5A, 0x94, 0x4A, 255)
    ensures LookupRgb(p) == Ok(Olive) <==> Rgba(p.r, p.g, p.b, 255) == Rgba(0x5A, 0x94, 0x4A, 255)
  {
  }

  lemma RowLightOlive(p: Rgba, i: u8)
    ensures Index(LightOlive) == 41 && (FromIndex(i) == Ok(LightOlive) <==> i == 41)
    ensures IsPremium(LightOlive) == true
    ensures Encode(LightOlive) == Rgba(0x84, 0xC5, 0x73, 255)
    ensures LookupRgb(p) == Ok(LightOlive) <==> Rgba(p.r, p.g, p.b, 255) == Rgba(0x84, 0xC5, 0x73, 255)
  {
  }

  lemma RowDarkCyan(p: Rgba, i: u8)
    ensures Index(DarkCyan) == 42 && (FromIndex(i) == Ok(DarkCyan) <==> i == 42)
    ensures IsPremium(DarkCyan) == true
    ensures Encode(DarkCyan) == Rgba(0x0F, 0x79, 0x9F, 255)
    ensures LookupRgb(p) == Ok(DarkCyan) <==> Rgba(p.r, p.g, p.b, 255) == Rgba(0x0F, 0x79, 0x9F, 255)
  {
  }

  lemma RowLightCyan(p: Rgba, i: u8)
    ensures Index(LightCyan) == 43 && (FromIndex(i) == Ok(LightCyan) <==> i == 43)
    ensures IsPremium(LightCyan) == true
    ensures Encode(LightCyan) == Rgba(0xBB, 0xFA, 0xF2, 255)
    ensures LookupRgb(p) == Ok(LightCyan) <==> Rgba(p.r, p.g, p.b, 255) == Rgba(0xBB, 0xFA, 0xF2, 255)
  {
  }

  lemma RowLightBlue(p: Rgba, i: u8)
    ensures Index(LightBlue) == 44 && (FromIndex(i) == Ok(LightBlue) <==> i == 44)
    ensures IsPremium(LightBlue) == true
    ensures Encode(LightBlue) == Rgba(0x7D, 0xC7, 0xFF, 255)
    ensures LookupRgb(p) == Ok(LightBlue) <==> Rgba(p.r, p.g, p.b, 255) == Rgba(0x7D, 0xC7, 0xFF, 255)
  {
  }

  lemma RowDarkIndigo(p: Rgba, i: u8)
    ensures Index(DarkIndigo) == 45 && (FromIndex(i) == Ok(DarkIndigo) <==> i == 45)
    ensures IsPremium(DarkIndigo) == true
    ensures Encode(DarkIndigo) == Rgba(0x4D, 0x31, 0xB8, 255)
    ensures LookupRgb(p) == Ok(DarkIndigo) <==> Rgba(p.r, p.g, p.b, 255) == Rgba(0x4D, 0x31, 0xB8, 255)
  {
  }

  lemma RowDarkSlateBlue(p: Rgba, i: u8)
    ensures Index(DarkSlateBlue) == 46 && (FromIndex(i) == Ok(DarkSlateBlue) <==> i == 46)
    ensures IsPremium(DarkSlateBlue) == true
    ensures Encode(DarkSlateBlue) == Rgba(0x4A, 0x42, 0x84, 255)
    ensures LookupRgb(p) == Ok(DarkSlateBlue) <==> Rgba(p.r, p.g, p.b, 255) == Rgba(0x4A, 0x42, 0x84, 255)
  {
  }

  lemma RowSlateBlue(p: Rgba, i: u8)
    ensures Index(SlateBlue) == 47 && (FromIndex(i) == Ok(SlateBlue) <==> i == 47)
    ensures IsPremium(SlateBlue) == true
    ensures Encode(SlateBlue) == Rgba(0x7A, 0x71, 0xC4, 255)
    ensures LookupRgb(p) == Ok(SlateBlue) <==> Rgba(p.r, p.g, p.b, 255) == Rgba(0x7A, 0x71, 0xC4, 255)
  {
  }

  lemma RowLightSlateBlue(p: Rgba, i: u8)
    ensures Index(LightSlateBlue) == 48 && (FromIndex(i) == Ok(LightSlateBlue) <==> i == 48)
    ensures IsPremium(LightSlateBlue) == true
    ensures Encode(LightSlateBlue) == Rgba(0xB5, 0xAE, 0xF1, 255)
    ensures LookupRgb(p) == Ok(LightSlateBlue) <==> Rgba(p.r, p.g, p.b, 255) == Rgba(0xB5, 0xAE, 0xF1, 255)
  {
  }

  lemma RowDarkPeach(p: Rgba, i: u8)
    ensures Index(DarkPeach) == 49 && (FromIndex(i) == Ok(DarkPeach) <==> i == 49)
    ensures IsPremium(DarkPeach) == true
    ensures Encode(DarkPeach) == Rgba(0x9B, 0x52, 0x49, 255)
    ensures LookupRgb(p) == Ok(DarkPeach) <==> Rgba(p.r, p.g, p.b, 255) == Rgba(0x9B, 0x52, 0x49, 255)
  {
  }

  lemma RowPeach(p: Rgba, i: u8)
    ensures Index(Peach) == 50 && (FromIndex(i) == Ok(Peach) <==> i == 50)
    ensures IsPremium(Peach) == true
    ensures Encode(Peach) == Rgba(0xD1, 0x80, 0x78, 255)
    ensures LookupRgb(p) == Ok(Peach) <==> Rgba(p.r, p.g, p.b, 255) == Rgba(0xD1, 0x80, 0x78, 255)
  {
  }

  lemma RowLightPeach(p: Rgba, i: u8)
    ensures Index(LightPeach) == 51 && (FromIndex(i) == Ok(LightPeach) <==> i == 51)
    ensures IsPremium(LightPeach) == true
    ensures Encode(LightPeach) == Rgba(0xFA, 0xB6, 0xA4, 255)
    ensures LookupRgb(p) == Ok(LightPeach) <==> Rgba(p.r, p.g, p.b, 255) == Rgba(0xFA, 0xB6, 0xA4, 255)
  {
  }

  lemma RowLightBrown(p: Rgba, i: u8)
    ensures Index(LightBrown) == 52 && (FromIndex(i) == Ok(LightBrown) <==> i == 52)
    ensures IsPremium(LightBrown) == true
    ensures Encode(LightBrown) == Rgba(0xDB, 0xA4, 0x63, 255)
    ensures LookupRgb(p) == Ok(LightBrown) <==> Rgba(p.r, p.g, p.b, 255) == Rgba(0xDB, 0xA4, 0x63, 255)
  {
  }

  lemma RowDarkTan(p: Rgba, i: u8)
    ensures Index(DarkTan) == 53 && (FromIndex(i) == Ok(DarkTan) <==> i == 53)
    ensures IsPremium(DarkTan) == true
    ensures Encode(DarkTan) == Rgba(0x7B, 0x63, 0x52, 255)
    ensures LookupRgb(p) == Ok(DarkTan) <==> Rgba(p.r, p.g, p.b, 255) == Rgba(0x7B, 0x63, 0x52, 255)
  {
  }

  lemma RowTan(p: Rgba, i: u8)
    ensures Index(Tan) == 54 && (FromIndex(i) == Ok(Tan) <==> i == 54)
    ensures IsPremium(Tan) == true
    ensures Encode(Tan) == Rgba(0x9C, 0x84, 0x6B, 255)
    ensures LookupRgb(p) == Ok(Tan) <==> Rgba(p.r, p.g, p.b, 255) == Rgba(0x9C, 0x84, 0x6B, 255)
  {
  }

  lemma RowLightTan(p: Rgba, i: u8)
    ensures Index(LightTan) == 55 && (FromIndex(i) == Ok(LightTan) <==> i == 55)
    ensures IsPremium(LightTan) == true
    ensures Encode(LightTan) == Rgba(0xD6, 0xB5, 0x94, 255)
    ensures LookupRgb(p) == Ok(LightTan) <==> Rgba(p.r, p.g, p.b, 255) == Rgba(0xD6, 0xB5, 0x94, 255)
  {
  }

  lemma RowDarkBeige(p: Rgba, i: u8)
    ensures Index(DarkBeige) == 56 && (FromIndex(i) == Ok(DarkBeige) <==> i == 56)
    ensures IsPremium(DarkBeige) == true
    ensures Encode(DarkBeige) == Rgba(0xD1, 0x80, 0x51, 255)
    ensures LookupRgb(p) == Ok(DarkBeige) <==> Rgba(p.r, p.g, p.b, 255) == Rgba(0xD1, 0x80, 0x51, 255)
  {
  }

  lemma RowLightBeige(p: Rgba, i: u8)
    ensures Index(LightBeige) == 57 && (FromIndex(i) == Ok(LightBeige) <==> i == 57)
    ensures IsPremium(LightBeige) == true
    ensures Encode(LightBeige) == Rgba(0xFF, 0xC5, 0xA5, 255)
    ensures LookupRgb(p) == Ok(LightBeige) <==> Rgba(p.r, p.g, p.b, 255) == Rgba(0xFF, 0xC5, 0xA5, 255)
  {
  }

  lemma RowDarkStone(p: Rgba, i: u8)
    ensures Index(DarkStone) == 58 && (FromIndex(i) == Ok(DarkStone) <==> i == 58)
    ensures IsPremium(DarkStone) == true
    ensures Encode(DarkStone) == Rgba(0x6D, 0x64, 0x3F, 255)
    ensures LookupRgb(p) == Ok(DarkStone) <==> Rgba(p.r, p.g, p.b, 255) == Rgba(0x6D, 0x64, 0x3F, 255)
  {
  }

  lemma RowStone(p: Rgba, i: u8)
    ensures Index(Stone) == 59 && (FromIndex(i) == Ok(Stone) <==> i == 59)
    ensures IsPremium(Stone) == true
    ensures Encode(Stone) == Rgba(0x94, 0x8C, 0x6B, 255)
    ensures LookupRgb(p) == Ok(Stone) <==> Rgba(p.r, p.g, p.b, 255) == Rgba(0x94, 0x8C, 0x6B, 255)
  {
  }

  lemma RowLightStone(p: Rgba, i: u8)
    ensures Index(LightStone) == 60 && (FromIndex(i) == Ok(LightStone) <==> i == 60)
    ensures IsPremium(LightStone) == true
    ensures Encode(LightStone) == Rgba(0xCD, 0xC5, 0x9E, 255)
    ensures LookupRgb(p) == Ok(LightStone) <==> Rgba(p.r, p.g, p.b, 255) == Rgba(0xCD, 0xC5, 0x9E, 255)
  {
  }

  lemma RowDarkSlate(p: Rgba, i: u8)
    ensures Index(DarkSlate) == 61 && (FromIndex(i) == Ok(DarkSlate) <==> i == 61)
    ensures IsPremium(DarkSlate) == true
    ensures Encode(DarkSlate) == Rgba(0x33, 0x39, 0x41, 255)
    ensures LookupRgb(p) == Ok(DarkSlate) <==> Rgba(p.r, p.g, p.b, 255) == Rgba(0x33, 0x39, 0x41, 255)
  {
  }

  lemma RowSlate(p: Rgba, i: u8)
    ensures Index(Slate) == 62 && (FromIndex(i) == Ok(Slate) <==> i == 62)
    ensures IsPremium(Slate) == true
    ensures Encode(Slate) == Rgba(0x6D, 0x75, 0x8D, 255)
    ensures LookupRgb(p) == Ok(Slate) <==> Rgba(p.r, p.g, p.b, 255) == Rgba(0x6D, 0x75, 0x8D, 255)
  {
  }

  lemma RowLightSlate(p: Rgba, i: u8)
    ensures Index(LightSlate) == 63 && (FromIndex(i) == Ok(LightSlate) <==> i == 63)
    ensures IsPremium(LightSlate) == true
    ensures Encode(LightSlate) == Rgba(0xB3, 0xB9, 0xD1, 255)
    ensures LookupRgb(p) == Ok(LightSlate) <==> Rgba(p.r, p.g, p.b, 255) == Rgba(0xB3, 0xB9, 0xD1, 255)
  {
  }

  /** A colour's index decodes back to it, and to nothing else. */
  lemma IndexTableAgrees(c: Color, i: u8)
    ensures FromIndex(i) == Ok(c) <==> i == Index(c)
  {
    match c
    case Black => RowBlack(Rgba(0, 0, 0, 0), i);
    case DarkGray => RowDarkGray(Rgba(0, 0, 0, 0), i);
    case Gray => RowGray(Rgba(0, 0, 0, 0), i);
    case LightGray => RowLightGray(Rgba(0, 0, 0, 0), i);
    case White => RowWhite(Rgba(0, 0, 0, 0), i);
    case DeepRed => RowDeepRed(Rgba(0, 0, 0, 0), i);
    case Red => RowRed(Rgba(0, 0, 0, 0), i);
    case Orange => RowOrange(Rgba(0, 0, 0, 0), i);
    case Gold => RowGold(Rgba(0, 0, 0, 0), i);
    case Yellow => RowYellow(Rgba(0, 0, 0, 0), i);
    case LightYellow => RowLightYellow(Rgba(0, 0, 0, 0), i);
    case DarkGreen => RowDarkGreen(Rgba(0, 0, 0, 0), i);
    case Green => RowGreen(Rgba(0, 0, 0, 0), i);
    case LightGreen => RowLightGreen(Rgba(0, 0, 0, 0), i);
    case DarkTeal => RowDarkTeal(Rgba(0, 0, 0, 0), i);
    case Teal => RowTeal(Rgba(0, 0, 0, 0), i);
    case LightTeal => RowLightTeal(Rgba(0, 0, 0, 0), i);
    case DarkBlue => RowDarkBlue(Rgba(0, 0, 0, 0), i);
    case Blue => RowBlue(Rgba(0, 0, 0, 0), i);
    case Cyan => RowCyan(Rgba(0, 0, 0, 0), i);
    case Indigo => RowIndigo(Rgba(0, 0, 0, 0), i);
    case LightIndigo => RowLightIndigo(Rgba(0, 0, 0, 0), i);
    case DarkPurple => RowDarkPurple(Rgba(0, 0, 0, 0), i);
    case Purple => RowPurple(Rgba(0, 0, 0, 0), i);
    case LightPurple => RowLightPurple(Rgba(0, 0, 0, 0), i);
    case DarkPink => RowDarkPink(Rgba(0, 0, 0, 0), i);
    case Pink => RowPink(Rgba(0, 0, 0, 0), i);
    case LightPink => RowLightPink(Rgba(0, 0, 0, 0), i);
    case DarkBrown => RowDarkBrown(Rgba(0, 0, 0, 0), i);
    case Brown => RowBrown(Rgba(0, 0, 0, 0), i);
    case Beige => RowBeige(Rgba(0, 0, 0, 0), i);
    case Transparent => RowTransparent(Rgba(0, 0, 0, 0), i);
    case MediumGray => RowMediumGray(Rgba(0, 0, 0, 0), i);
    case DarkRed => RowDarkRed(Rgba(0, 0, 0, 0), i);
    case LightRed => RowLightRed(Rgba(0, 0, 0, 0), i);
    case DarkOrange => RowDarkOrange(Rgba(0, 0, 0, 0), i);
    case DarkGoldenrod => RowDarkGoldenrod(Rgba(0, 0, 0, 0), i);
    case Goldenrod => RowGoldenrod(Rgba(0, 0, 0, 0), i);
    case LightGoldenrod => RowLightGoldenrod(Rgba(0, 0, 0, 0), i);
    case DarkOlive => RowDarkOlive(Rgba(0, 0, 0, 0), i);
    case Olive => RowOlive(Rgba(0, 0, 0, 0), i);
    case LightOlive => RowLightOlive(Rgba(0, 0, 0, 0), i);
    case DarkCyan => RowDarkCyan(Rgba(0, 0, 0, 0), i);
    case LightCyan => RowLightCyan(Rgba(0, 0, 0, 0), i);
    case LightBlue => RowLightBlue(Rgba(0, 0, 0, 0), i);
    case DarkIndigo => RowDarkIndigo(Rgba(0, 0, 0, 0), i);
    case DarkSlateBlue => RowDarkSlateBlue(Rgba(0, 0, 0, 0), i);
    case SlateBlue => RowSlateBlue(Rgba(0, 0, 0, 0), i);
    case LightSlateBlue => RowLightSlateBlue(Rgba(0, 0, 0, 0), i);
    case DarkPeach => RowDarkPeach(Rgba(0, 0, 0, 0), i);
    case Peach => RowPeach(Rgba(0, 0, 0, 0), i);
    case LightPeach => RowLightPeach(Rgba(0, 0, 0, 0), i);
    case LightBrown => RowLightBrown(Rgba(0, 0, 0, 0), i);
    case DarkTan => RowDarkTan(Rgba(0, 0, 0, 0), i);
    case Tan => RowTan(Rgba(0, 0, 0, 0), i);
    case LightTan => RowLightTan(Rgba(0, 0, 0, 0), i);
    case DarkBeige => RowDarkBeige(Rgba(0, 0, 0, 0), i);
    case LightBeige => RowLightBeige(Rgba(0, 0, 0, 0), i);
    case DarkStone => RowDarkStone(Rgba(0, 0, 0, 0), i);
    case Stone => RowStone(Rgba(0, 0, 0, 0), i);
    case LightStone => RowLightStone(Rgba(0, 0, 0, 0), i);
    case DarkSlate => RowDarkSlate(Rgba(0, 0, 0, 0), i);
    case Slate => RowSlate(Rgba(0, 0, 0, 0), i);
    case LightSlate => RowLightSlate(Rgba(0, 0, 0, 0), i);
  }

  /** The lookup table and the encoding table agree on a colour: the
      lookup yields it for exactly the RGB bytes of its encoding. */
  lemma RgbTablesAgree(c: Color, p: Rgba)
    ensures LookupRgb(p) == Ok(c) <==> Rgba(p.r, p.g, p.b, 255) == Encode(c)
  {
    match c
    case Black => RowBlack(p, 0);
    case DarkGray => RowDarkGray(p, 0);
    case Gray => RowGray(p, 0);
    case LightGray => RowLightGray(p, 0);
    case White => RowWhite(p, 0);
    case DeepRed => RowDeepRed(p, 0);
    case Red => RowRed(p, 0);
    case Orange => RowOrange(p, 0);
    case Gold => RowGold(p, 0);
    case Yellow => RowYellow(p, 0);
    case LightYellow => RowLightYellow(p, 0);
    case DarkGreen => RowDarkGreen(p, 0);
    case Green => RowGreen(p, 0);
    case LightGreen => RowLightGreen(p, 0);
    case DarkTeal => RowDarkTeal(p, 0);
    case Teal => RowTeal(p, 0);
    case LightTeal => RowLightTeal(p, 0);
    case DarkBlue => RowDarkBlue(p, 0);
    case Blue => RowBlue(p, 0);
    case Cyan => RowCyan(p, 0);
    case Indigo => RowIndigo(p, 0);
    case LightIndigo => RowLightIndigo(p, 0);
    case DarkPurple => RowDarkPurple(p, 0);
    case Purple => RowPurple(p, 0);
    case LightPurple => RowLightPurple(p, 0);
    case DarkPink => RowDarkPink(p, 0);
    case Pink => RowPink(p, 0);
    case LightPink => RowLightPink(p, 0);
    case DarkBrown => RowDarkBrown(p, 0);
    case Brown => RowBrown(p, 0);
    case Beige => RowBeige(p, 0);
    case Transparent => RowTransparent(p, 0);
    case MediumGray => RowMediumGray(p, 0);
    case DarkRed => RowDarkRed(p, 0);
    case LightRed => RowLightRed(p, 0);
    case DarkOrange => RowDarkOrange(p, 0);
    case DarkGoldenrod => RowDarkGoldenrod(p, 0);
    case Goldenrod => RowGoldenrod(p, 0);
    case LightGoldenrod => RowLightGoldenrod(p, 0);
    case DarkOlive => RowDarkOlive(p, 0);
    case Olive => RowOlive(p, 0);
    case LightOlive => RowLightOlive(p, 0);
    case DarkCyan => RowDarkCyan(p, 0);
    case LightCyan => RowLightCyan(p, 0);
    case LightBlue => RowLightBlue(p, 0);
    case DarkIndigo => RowDarkIndigo(p, 0);
    case DarkSlateBlue => RowDarkSlateBlue(p, 0);
    case SlateBlue => RowSlateBlue(p, 0);
    case LightSlateBlue => RowLightSlateBlue(p, 0);
    case DarkPeach => RowDarkPeach(p, 0);
    case Peach => RowPeach(p, 0);
    case LightPeach => RowLightPeach(p, 0);
    case LightBrown => RowLightBrown(p, 0);
    case DarkTan => RowDarkTan(p, 0);
    case Tan => RowTan(p, 0);
    case LightTan => RowLightTan(p, 0);
    case DarkBeige => RowDarkBeige(p, 0);
    case LightBeige => RowLightBeige(p, 0);
    case DarkStone => RowDarkStone(p, 0);
    case Stone => RowStone(p, 0);
    case LightStone => RowLightStone(p, 0);
    case DarkSlate => RowDarkSlate(p, 0);
    case Slate => RowSlate(p, 0);
    case LightSlate => RowLightSlate(p, 0);
  }

  /** A pixel decodes to a colour exactly when it is that colour's
      encoding. */
  lemma RgbaTablesAgree(c: Color, p: Rgba)
    ensures Decode(p) == Ok(c) <==> p == Encode(c)
  {
    RgbTablesAgree(c, p);
  }

  /** Decoding the encoding of any colour returns that colour. */
  lemma EncodeDecodes(c: Color)
    ensures Decode(Encode(c)) == Ok(c)
  {
    RgbaTablesAgree(c, Encode(c));
  }

  /** Decode is the exact inverse of Encode: decoding succeeds precisely on
      the encodings of the 64 colours (alpha 255 and an RGB triple of the
      table), and re-encoding a decoded colour gives back the same bytes. */
  lemma DecodeInverse(p: Rgba)
    ensures Decode(p).Ok? ==> Encode(Decode(p).value) == p
    ensures Decode(p).Err? <==> forall c :: Encode(c) != p
  {
    if Decode(p).Ok? {
      RgbaTablesAgree(Decode(p).value, p);
    } else {
      forall c ensures Encode(c) != p {
        EncodeDecodes(c);
      }
    }
  }

  /** No two colours share an RGBA value. */
  lemma EncodeInjective(c1: Color, c2: Color)
    requires Encode(c1) == Encode(c2)
    ensures c1 == c2
  {
    EncodeDecodes(c1);
    EncodeDecodes(c2);
  }

  /** Index decoding is a bijection between 0..=63 and the colours: index i
      names the colour declared at position i, every colour is reached by
      its own index, and distinct indices give distinct colours. */
  lemma FromIndexBijective(i: u8, j: u8)
    ensures FromIndex(i).Ok? ==> Index(FromIndex(i).value) == i
    ensures FromIndex(i).Ok? && FromIndex(i) == FromIndex(j) ==> i == j
    ensures forall c :: FromIndex(Index(c)) == Ok(c)
  {
    if FromIndex(i).Ok? {
      IndexTableAgrees(FromIndex(i).value, i);
      IndexTableAgrees(FromIndex(i).value, j);
    }
    forall c ensures FromIndex(Index(c)) == Ok(c) {
      IndexTableAgrees(c, Index(c));
    }
  }

  /** The colour named Transparent is an ordinary opaque palette entry,
      distinct from the alpha-0 "any colour" pixel. */
  lemma TransparentIsOpaqueEntry()
    ensures Encode(Transparent) == Rgba(0xDE, 0xFA, 0xCE, 255)
    ensures Decode(Rgba(0xDE, 0xFA, 0xCE, 255)) == Ok(Transparent)
    ensures Index(Transparent) == 31 && !IsPremium(Transparent)
    ensures forall r: u8, g: u8, b: u8 :: Decode(Rgba(r, g, b, 0)).Err?
  {
    RowTransparent(Rgba(0xDE, 0xFA, 0xCE, 255), 0);
  }
}
