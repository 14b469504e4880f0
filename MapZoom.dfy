/** The zoom level chosen for a map link to a template of a given size.
    Zoom levels are kept in tenths (12.5 is 125), which represents every
    value the source uses exactly. */
module MapZoom {
  import opened Prelude

  function Max(a: u32, b: u32): (m: u32)
    ensures m >= a && m >= b && (m == a || m == b)
  {
    if a >= b then a else b
  }

  /** The step function of the larger side, in tenths of a zoom level. */
  function ZoomForSide(m: u32): (z: nat)
    ensures 110 <= z <= 220
  {
    if m < 1 then 220
    else if m < 10 then 200
    else if m < 60 then 170
    else if m < 100 then 140
    else if m < 300 then 130
    else if m < 500 then 125
    else if m < 1000 then 120
    else 110
  }

  /** The zoom of `MapCoords::from_tile_coords`, chosen from
      max(width, height): the value of the arm the larger side falls in. */
  function Zoom(width: u32, height: u32): (z: nat)
    ensures 110 <= z <= 220
    ensures forall i :: 0 <= i < |Bands| && InBand(i, Max(width, height)) ==> z == Bands[i].tenths
  {
    ZoomIsItsBand(Max(width, height));
    ZoomForSide(Max(width, height))
  }

  /** One arm of the zoom match: sides in [lo, hi) get `tenths`. */
  datatype Band = Band(lo: nat, hi: nat, tenths: nat)

  /** The arms of the match, in order; the last one is the catch-all arm,
      which covers the remaining 32-bit values. */
  const Bands: seq<Band> := [
    Band(0, 1, 220), Band(1, 10, 200), Band(10, 60, 170), Band(60, 100, 140),
    Band(100, 300, 130), Band(300, 500, 125), Band(500, 1000, 120), Band(1000, 0x1_0000_0000, 110)
  ]

  predicate InBand(i: nat, m: nat)
    requires i < |Bands|
  {
    Bands[i].lo <= m < Bands[i].hi
  }

  /** The bands follow each other without gap or overlap from 0 up to
      2^32, so every 32-bit side lies in exactly one of them. */
  lemma BandsAreContiguous()
    ensures Bands[0].lo == 0 && Bands[|Bands| - 1].hi == 0x1_0000_0000
    ensures forall i :: 0 <= i < |Bands| - 1 ==> Bands[i].hi == Bands[i + 1].lo
    ensures forall i :: 0 <= i < |Bands| ==> Bands[i].lo < Bands[i].hi
  {
  }

  /** Every 32-bit side falls in exactly one arm, and the zoom is that arm's
      value. */
  lemma ZoomIsItsBand(m: u32)
    ensures exists i :: 0 <= i < |Bands| && InBand(i, m)
    ensures forall i, j :: 0 <= i < |Bands| && 0 <= j < |Bands| && InBand(i, m) && InBand(j, m) ==> i == j
    ensures forall i :: 0 <= i < |Bands| && InBand(i, m) ==> ZoomForSide(m) == Bands[i].tenths
  {
    BandsAreContiguous();
    var k :| 0 <= k < |Bands| && InBand(k, m) by {
      if m < 1 { assert InBand(0, m); }
      else if m < 10 { assert InBand(1, m); }
      else if m < 60 { assert InBand(2, m); }
      else if m < 100 { assert InBand(3, m); }
      else if m < 300 { assert InBand(4, m); }
      else if m < 500 { assert InBand(5, m); }
      else if m < 1000 { assert InBand(6, m); }
      else { assert InBand(7, m); }
    }
    forall i, j | 0 <= i < |Bands| && 0 <= j < |Bands| && InBand(i, m) && InBand(j, m)
      ensures i == j
    {
      if i < j {
        BandsIncrease(i, j);
      } else if j < i {
        BandsIncrease(j, i);
      }
    }
  }

  lemma {:induction false} BandsIncrease(i: nat, j: nat)
    requires i < j < |Bands|
    ensures Bands[i].hi <= Bands[j].lo
    decreases j - i
  {
    BandsAreContiguous();
    if i + 1 < j {
      BandsIncrease(i + 1, j);
    }
  }

  /** A larger template never gets a closer zoom. */
  lemma ZoomNonIncreasing(w1: u32, h1: u32, w2: u32, h2: u32)
    requires Max(w1, h1) <= Max(w2, h2)
    ensures Zoom(w2, h2) <= Zoom(w1, h1)
  {
  }

  lemma ZoomSymmetric(width: u32, height: u32)
    ensures Zoom(width, height) == Zoom(height, width)
  {
  }

  /** The end points: an empty template gets 22, one with a side of 1000
      or more gets 11. */
  lemma ZoomExtremes(width: u32, height: u32)
    ensures Zoom(width, height) == 220 <==> width == 0 && height == 0
    ensures Zoom(width, height) == 110 <==> Max(width, height) >= 1000
  {
  }
}
