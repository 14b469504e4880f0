/** The tile downloader's cache: tiles fetched less than 360 seconds ago
    are served from memory, older entries are evicted before every lookup.
    The clock is a parameter (nanoseconds since the Unix epoch) and the
    network fetch is an outcome supplied by the caller. */
module TileDownload {
  import opened Prelude
  import opened ImageIngest

  datatype Tile = Tile(x: u16, y: u16)

  /** A cached tile image and when it was downloaded. */
  datatype DownloadData = DownloadData(image: Bitmap, lastDownload: nat)

  /** What fetching a tile over the network gives: a failed transfer (the
      source's `expect` then panics), or the bytes, decoded as PNG or not. */
  datatype Fetch = TransportFailure | Fetched(decoded: Result<Bitmap, string>)

  const NanosPerSecond: nat := 1_000_000_000

  /** Entries this many whole seconds old or older are evicted. */
  const MaxAgeSecs: nat := 360

  /** `elapsed().as_secs()`: the whole seconds since `last`. */
  function AgeSecs(now: nat, last: nat): nat
    requires last <= now
  {
    (now - last) / NanosPerSecond
  }

  /** No entry is stamped later than `now` (otherwise `elapsed()` fails and
      its `unwrap` panics). */
  predicate NotAhead(cache: map<Tile, DownloadData>, now: nat)
  {
    forall t :: t in cache ==> cache[t].lastDownload <= now
  }

  /** `clean_cache`: keeps the entries younger than 360 whole seconds. */
  function Cleaned(cache: map<Tile, DownloadData>, now: nat): map<Tile, DownloadData>
    requires NotAhead(cache, now)
  {
    map t | t in cache && AgeSecs(now, cache[t].lastDownload) < MaxAgeSecs :: cache[t]
  }

  /** `get_from_cache`: the stored image, if the tile is cached. */
  function Lookup(cache: map<Tile, DownloadData>, tile: Tile): Option<Bitmap>
  {
    if tile in cache then Some(cache[tile].image) else None
  }

  /** `download`: clean, then serve a cached image, else fetch and decode.
      Also says whether the network was used. */
  function DownloadOutcome(cache: map<Tile, DownloadData>, tile: Tile, now: nat, fetch: Fetch):
    (Exit<Result<Bitmap, string>>, bool)
    requires NotAhead(cache, now)
  {
    match Lookup(Cleaned(cache, now), tile)
    case Some(image) => (Returned(Ok(image)), false)
    case None =>
      match fetch
      case TransportFailure => (Panicked, true)
      case Fetched(decoded) => (Returned(decoded), true)
  }

  class TileDownloader {
    var cache: map<Tile, DownloadData>

    constructor ()
      ensures cache == map[]
    {
      cache := map[];
    }

    method CleanCache(now: nat)
      requires NotAhead(cache, now)
      modifies this
      ensures cache == Cleaned(old(cache), now)
    {
      cache := map t | t in cache && AgeSecs(now, cache[t].lastDownload) < MaxAgeSecs :: cache[t];
    }

    function GetFromCache(tile: Tile): (r: Option<Bitmap>)
      reads this
      ensures r.Some? <==> tile in cache
      ensures r.Some? ==> r.value == cache[tile].image
    {
      Lookup(cache, tile)
    }

    /** `TileDownloader::download` for `tile` at time `now`; `fetch` is what
        the network would give. `fetched` tells whether it was used. */
    method Download(tileX: u16, tileY: u16, now: nat, fetch: Fetch)
      returns (r: Exit<Result<Bitmap, string>>, fetched: bool)
      requires NotAhead(cache, now)
      modifies this
      ensures (r, fetched) == DownloadOutcome(old(cache), Tile(tileX, tileY), now, fetch)
      ensures cache == Cleaned(old(cache), now)
    {
      CleanCache(now);
      var tile := Tile(tileX, tileY);
      var hit := GetFromCache(tile);
      if hit.Some? {
        return Returned(Ok(hit.value)), false;
      }
      match fetch {
        case TransportFailure =>
          return Panicked, true;
        case Fetched(decoded) =>
          return Returned(decoded), true;
      }
    }
  }

  // ---------------------------------------------------------------------
  // Properties
  // ---------------------------------------------------------------------

  /** Whole seconds below 360 means less than 360 × 10^9 nanoseconds. */
  lemma AgeInNanos(now: nat, last: nat)
    requires last <= now
    ensures AgeSecs(now, last) < MaxAgeSecs <==> now - last < MaxAgeSecs * NanosPerSecond
  {
  }

  /** Cleaning keeps exactly the entries younger than 360 s, unchanged,
      and drops the others. */
  lemma CleanedKeepsYoung(cache: map<Tile, DownloadData>, now: nat, t: Tile)
    requires NotAhead(cache, now)
    ensures t in Cleaned(cache, now) <==>
              t in cache && now - cache[t].lastDownload < MaxAgeSecs * NanosPerSecond
    ensures t in Cleaned(cache, now) ==> Cleaned(cache, now)[t] == cache[t]
    ensures NotAhead(Cleaned(cache, now), now)
  {
    if t in cache {
      AgeInNanos(now, cache[t].lastDownload);
    }
  }

  /** Cleaning twice at the same instant is cleaning once. */
  lemma CleanIdempotent(cache: map<Tile, DownloadData>, now: nat)
    requires NotAhead(cache, now)
    ensures NotAhead(Cleaned(cache, now), now)
    ensures Cleaned(Cleaned(cache, now), now) == Cleaned(cache, now)
  {
  }

  /** Cleaning later never brings an entry back. */
  lemma CleanMonotone(cache: map<Tile, DownloadData>, now: nat, later: nat)
    requires NotAhead(cache, now) && now <= later
    ensures NotAhead(cache, later)
    ensures Cleaned(cache, later).Keys <= Cleaned(cache, now).Keys
  {
    forall t | t in Cleaned(cache, later) ensures t in Cleaned(cache, now) {
      var last := cache[t].lastDownload;
      assert now - last <= later - last;
      DivMonotone(now - last, later - last);
    }
  }

  lemma DivMonotone(a: nat, b: nat)
    requires a <= b
    ensures a / NanosPerSecond <= b / NanosPerSecond
  {
  }

  /** A tile cached less than 360 s ago is served without using the
      network; any other tile is fetched, and a failed transfer panics. */
  lemma DownloadServesYoungEntries(cache: map<Tile, DownloadData>, tile: Tile, now: nat, fetch: Fetch)
    requires NotAhead(cache, now)
    ensures var (r, fetched) := DownloadOutcome(cache, tile, now, fetch);
            (tile in cache && now - cache[tile].lastDownload < MaxAgeSecs * NanosPerSecond ==>
               r == Returned(Ok(cache[tile].image)) && !fetched) &&
            (!(tile in cache && now - cache[tile].lastDownload < MaxAgeSecs * NanosPerSecond) ==>
               fetched && r == (if fetch.TransportFailure? then Panicked else Returned(fetch.decoded)))
  {
    CleanedKeepsYoung(cache, now, tile);
  }

  /** Nothing ever adds to the cache: a downloader starts empty and stays
      empty, so every download uses the network. */
  lemma CacheStaysEmpty(now: nat, tile: Tile, fetch: Fetch)
    ensures NotAhead(map[], now) && Cleaned(map[], now) == map[]
    ensures DownloadOutcome(map[], tile, now, fetch).1
  {
  }
}
