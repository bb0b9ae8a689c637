/** The single-slot tile cache in front of the downloader: a query keeps the tile it
    holds when that tile covers the position, and otherwise replaces it with the tile
    that does. */
module TileManager {
  import opened Wrappers
  import opened Arithmetic
  import opened Srtm
  import opened SrtmDownloader

  /** The corner of the tile that covers (lat, lon): both coordinates floored. */
  function TileKey(lat: real, lon: real): (key: (int, int))
    ensures InTile(key.0, key.1, lat, lon)
  {
    (lat.Floor, lon.Floor)
  }

  /** The key is the only corner whose tile covers the position. */
  lemma TileKeyIsUnique(lat: real, lon: real, tileLat: int, tileLon: int)
    ensures InTile(tileLat, tileLon, lat, lon) <==> (tileLat, tileLon) == TileKey(lat, lon)
  {
    if InTile(tileLat, tileLon, lat, lon) {
      FloorIsUnique(lat, tileLat);
      FloorIsUnique(lon, tileLon);
    }
  }

  /** The floor of x is the only integer n with n <= x < n + 1. */
  lemma FloorIsUnique(x: real, n: int)
    requires n as real <= x < n as real + 1.0
    ensures x.Floor == n
  {
    var f := x.Floor;
    assert f as real <= x < f as real + 1.0;
    assert (n - f) as real < 1.0 && (f - n) as real < 1.0;
  }

  /** Two positions have the same key exactly when they lie in the same one-degree cell. */
  lemma SameCellSameKey(lat: real, lon: real, lat': real, lon': real)
    ensures TileKey(lat, lon) == TileKey(lat', lon') <==>
      InTile(TileKey(lat, lon).0, TileKey(lat, lon).1, lat', lon')
  {
    TileKeyIsUnique(lat', lon', TileKey(lat, lon).0, TileKey(lat, lon).1);
  }

  class Manager {
    var tile: Tile?
    const downloader: Downloader
    /** How many times a tile has been fetched from the downloader. */
    ghost var fetches: nat

    ghost predicate Valid()
      reads this
    {
      tile != null ==> tile.Valid()
    }

    constructor (downloader: Downloader)
      ensures Valid() && tile == null && this.downloader == downloader && fetches == 0
    {
      tile := null;
      this.downloader := downloader;
      fetches := 0;
    }

    predicate Holds(key: (int, int))
      reads this
    {
      tile != null && tile.lat == key.0 && tile.lon == key.1
    }

    /** Altitude at (lat, lon) from the held tile, fetching the covering tile first
        when the held one does not cover the position.  A failed fetch leaves the
        held tile as it was.  The archives are read through `files`. */
    method GetAltitude(lat: real, lon: real, files: string -> Archive) returns (r: Result<Option<real>, TileError>)
      requires Valid()
      modifies this
      ensures Valid()
      ensures var key := TileKey(lat, lon);
        (old(Holds(key)) ==> tile == old(tile) && fetches == old(fetches)) &&
        (!old(Holds(key)) ==> fetches == old(fetches) + 1) &&
        (r.Ok? ==> Holds(key) && r == tile.GetAltitudeFromLatLon(lat, lon)) &&
        (r.Err? ==> tile == old(tile) && !old(Holds(key)) && !r.error.WrongTile?)
      ensures var key := TileKey(lat, lon);
        (!old(Holds(key)) && r.Ok? ==>
          Some(key) in downloader.fileList &&
          tile.data[..] == files(downloader.cacheDir + "/" + downloader.fileList[Some(key)].1).samples)
      ensures var key := TileKey(lat, lon);
        (r.Err? ==>
          (Some(key) !in downloader.fileList <==> r.error == NoSuchTile(key.0 as real, key.1 as real)) &&
          (Some(key) in downloader.fileList ==> r.error == InvalidTile(key.0, key.1)))
      ensures tile != old(tile) ==> tile != null && fresh(tile) && fresh(tile.data)
    {
      var key := TileKey(lat, lon);
      if tile == null || tile.lat != key.0 || tile.lon != key.1 {
        TruncOfInteger(key.0);
        TruncOfInteger(key.1);
        var fetched := downloader.GetTile(key.0 as real, key.1 as real, files);
        fetches := fetches + 1;
        if fetched.Err? {
          r := Err(fetched.error);
          assert !r.error.WrongTile?;
          return;
        }
        tile := fetched.value;
      }
      r := tile.GetAltitudeFromLatLon(lat, lon);
    }
  }

  /** Because the held tile is chosen by floor, the lookup that follows a successful
      fetch never reports a position outside the tile. */
  lemma LookupInHeldTileSucceeds(samples: seq<Sample>, size: nat, lat: real, lon: real)
    requires |samples| == size * size && size >= 2
    ensures AltitudeFromLatLon(samples, size, TileKey(lat, lon).0, TileKey(lat, lon).1, lat, lon).Ok?
  {
  }
}
