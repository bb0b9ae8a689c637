/** The part of the SRTM downloader that does not touch the network: reading the
    corner of a tile from its archive name, the file list that maps tile corners to
    archives, and the lookup that opens the tile for a position. */
module SrtmDownloader {
  import opened Wrappers
  import opened Arithmetic
  import opened Srtm

  // ---------------------------------------------------------------------------
  // Archive names such as N37W123.hgt.zip
  // ---------------------------------------------------------------------------

  predicate IsDigit(c: char)
  {
    '0' <= c <= '9'
  }

  predicate AllDigits(s: string)
  {
    forall i :: 0 <= i < |s| ==> IsDigit(s[i])
  }

  function DigitValue(c: char): nat
    requires IsDigit(c)
  {
    c as int - '0' as int
  }

  /** The decimal value of a string of digits. */
  function DigitsValue(s: string): nat
    requires AllDigits(s)
  {
    if s == [] then 0 else DigitsValue(s[..|s| - 1]) * 10 + DigitValue(s[|s| - 1])
  }

  /** The fixed part that follows the two coordinates. */
  const SUFFIX: string := ".hgt.zip"

  /** Corner of the tile named by an archive, read from the start of the name:
      N or S, two digits of latitude, E or W, three digits of longitude and the
      suffix; S and W make the value negative.  What follows the suffix is not
      looked at, since the pattern is matched at the start of the name only. */
  function ParseFilename(name: string): (r: Option<(int, int)>)
    ensures r.Some? ==> |name| >= 15 && name[7..15] == SUFFIX
    ensures r.Some? ==> -99 <= r.value.0 <= 99 && -999 <= r.value.1 <= 999
    ensures r.Some? && r.value.0 < 0 ==> name[0] == 'S'
    ensures r.Some? && r.value.1 < 0 ==> name[3] == 'W'
  {
    if |name| < 15 then None
    else if name[0] != 'N' && name[0] != 'S' then None
    else if !AllDigits(name[1..3]) then None
    else if name[3] != 'E' && name[3] != 'W' then None
    else if !AllDigits(name[4..7]) then None
    else if name[7..15] != SUFFIX then None
    else
      var lat: int := DigitsValue(name[1..3]);
      var lon: int := DigitsValue(name[4..7]);
      TwoDigitsBounded(name[1..3]);
      ThreeDigitsBounded(name[4..7]);
      Some((if name[0] == 'S' then -lat else lat, if name[3] == 'W' then -lon else lon))
  }

  lemma TwoDigitsBounded(s: string)
    requires |s| == 2 && AllDigits(s)
    ensures DigitsValue(s) == DigitValue(s[0]) * 10 + DigitValue(s[1]) <= 99
  {
    var p := s[..1];
    assert p[..0] == [] && p[0] == s[0];
    assert DigitsValue(p) == DigitValue(s[0]);
  }

  lemma ThreeDigitsBounded(s: string)
    requires |s| == 3 && AllDigits(s)
    ensures DigitsValue(s) == DigitValue(s[0]) * 100 + DigitValue(s[1]) * 10 + DigitValue(s[2]) <= 999
  {
    var p := s[..2];
    assert p[0] == s[0] && p[1] == s[1];
    TwoDigitsBounded(p);
  }

  function Digit(d: nat): (c: char)
    requires d < 10
    ensures IsDigit(c) && DigitValue(c) == d
  {
    ('0' as int + d) as char
  }

  lemma DigitOfValue(c: char)
    requires IsDigit(c)
    ensures Digit(DigitValue(c)) == c
  {
  }

  lemma TwoDigitSplit(d0: nat, d1: nat)
    requires d0 < 10 && d1 < 10
    ensures (d0 * 10 + d1) / 10 == d0 && (d0 * 10 + d1) % 10 == d1
  {
    DivIsUnique(d0 * 10 + d1, 10, d0);
  }

  lemma ThreeDigitSplit(d0: nat, d1: nat, d2: nat)
    requires d0 < 10 && d1 < 10 && d2 < 10
    ensures var n := d0 * 100 + d1 * 10 + d2;
      n / 100 == d0 && n / 10 % 10 == d1 && n % 10 == d2
  {
    var n := d0 * 100 + d1 * 10 + d2;
    DivIsUnique(n, 100, d0);
    DivIsUnique(n, 10, d0 * 10 + d1);
    TwoDigitSplit(d0, d1);
  }

  /** The canonical archive name of the tile with corner (lat, lon). */
  function FormatFilename(lat: int, lon: int): (name: string)
    requires -99 <= lat <= 99 && -999 <= lon <= 999
    ensures |name| == 15
  {
    var a := Abs(lat);
    var b := Abs(lon);
    [if lat < 0 then 'S' else 'N', Digit(a / 10), Digit(a % 10),
     if lon < 0 then 'W' else 'E', Digit(b / 100), Digit(b / 10 % 10), Digit(b % 10)] + SUFFIX
  }

  /** The fields of a name that the pattern accepts, one character at a time. */
  predicate NameFields(name: string)
  {
    |name| >= 15 && (name[0] == 'N' || name[0] == 'S') && IsDigit(name[1]) && IsDigit(name[2]) &&
    (name[3] == 'E' || name[3] == 'W') && IsDigit(name[4]) && IsDigit(name[5]) && IsDigit(name[6]) &&
    name[7..15] == SUFFIX
  }

  /** The corner spelled by the fields of a name. */
  function FieldsCorner(name: string): (int, int)
    requires NameFields(name)
  {
    var lat := DigitValue(name[1]) * 10 + DigitValue(name[2]);
    var lon := DigitValue(name[4]) * 100 + DigitValue(name[5]) * 10 + DigitValue(name[6]);
    (if name[0] == 'S' then -lat else lat, if name[3] == 'W' then -lon else lon)
  }

  /** The pattern accepts exactly the names with those fields, and reads their corner. */
  lemma ParseByFields(name: string)
    ensures ParseFilename(name).Some? <==> NameFields(name)
    ensures NameFields(name) ==> ParseFilename(name) == Some(FieldsCorner(name))
  {
    if |name| >= 15 {
      var s, t := name[1..3], name[4..7];
      assert AllDigits(s) <==> IsDigit(name[1]) && IsDigit(name[2]) by {
        assert s[0] == name[1] && s[1] == name[2];
      }
      assert AllDigits(t) <==> IsDigit(name[4]) && IsDigit(name[5]) && IsDigit(name[6]) by {
        assert t[0] == name[4] && t[1] == name[5] && t[2] == name[6];
      }
      if AllDigits(s) && AllDigits(t) {
        TwoDigitsBounded(s);
        ThreeDigitsBounded(t);
      }
    }
  }

  /** Every canonical name reads back as its corner, whatever follows it. */
  lemma ParseFormatRoundTrip(lat: int, lon: int, rest: string)
    requires -99 <= lat <= 99 && -999 <= lon <= 999
    ensures ParseFilename(FormatFilename(lat, lon) + rest) == Some((lat, lon))
  {
    var name := FormatFilename(lat, lon) + rest;
    var a, b := Abs(lat), Abs(lon);
    assert name[7..15] == SUFFIX;
    assert name[1] == Digit(a / 10) && name[2] == Digit(a % 10);
    assert name[4] == Digit(b / 100) && name[5] == Digit(b / 10 % 10) && name[6] == Digit(b % 10);
    assert NameFields(name);
    ParseByFields(name);
    assert a == (a / 10) * 10 + a % 10;
    assert b == (b / 100) * 100 + (b / 10 % 10) * 10 + b % 10;
  }

  /** A recognised name starts with the canonical name of its corner, except that a
      zero coordinate may also be written with S or W. */
  lemma ParseIsCanonical(name: string)
    requires ParseFilename(name).Some?
    ensures var (lat, lon) := ParseFilename(name).value;
      name[..15] == FormatFilename(lat, lon) ||
      (lat == 0 && name[0] == 'S') || (lon == 0 && name[3] == 'W')
  {
    ParseByFields(name);
    var (lat, lon) := FieldsCorner(name);
    if !((lat == 0 && name[0] == 'S') || (lon == 0 && name[3] == 'W')) {
      FieldsAreCanonical(name);
    }
  }

  /** The digits of the latitude field are those the name is formatted with. */
  lemma LatitudeDigits(name: string)
    requires NameFields(name)
    ensures var a := Abs(FieldsCorner(name).0);
      Digit(a / 10) == name[1] && Digit(a % 10) == name[2]
  {
    var d0, d1 := DigitValue(name[1]), DigitValue(name[2]);
    assert Abs(FieldsCorner(name).0) == d0 * 10 + d1;
    TwoDigitSplit(d0, d1);
    DigitOfValue(name[1]);
    DigitOfValue(name[2]);
  }

  /** The digits of the longitude field are those the name is formatted with. */
  lemma LongitudeDigits(name: string)
    requires NameFields(name)
    ensures var b := Abs(FieldsCorner(name).1);
      Digit(b / 100) == name[4] && Digit(b / 10 % 10) == name[5] && Digit(b % 10) == name[6]
  {
    var e0, e1, e2 := DigitValue(name[4]), DigitValue(name[5]), DigitValue(name[6]);
    assert Abs(FieldsCorner(name).1) == e0 * 100 + e1 * 10 + e2;
    ThreeDigitSplit(e0, e1, e2);
    DigitOfValue(name[4]);
    DigitOfValue(name[5]);
    DigitOfValue(name[6]);
  }

  /** A name with the pattern's fields whose signs agree with its corner is the
      canonical name of that corner, followed by whatever comes after the suffix. */
  lemma FieldsAreCanonical(name: string)
    requires NameFields(name)
    requires var (lat, lon) := FieldsCorner(name); !((lat == 0 && name[0] == 'S') || (lon == 0 && name[3] == 'W'))
    ensures var (lat, lon) := FieldsCorner(name);
      -99 <= lat <= 99 && -999 <= lon <= 999 && name[..15] == FormatFilename(lat, lon)
  {
    var (lat, lon) := FieldsCorner(name);
    LatitudeDigits(name);
    LongitudeDigits(name);
    var f := FormatFilename(lat, lon);
    forall i | 0 <= i < 15
      ensures name[..15][i] == f[i]
    {
      if i >= 7 {
        assert f[i] == SUFFIX[i - 7] && name[i] == name[7..15][i - 7];
      }
    }
  }

  /** Only the first fifteen characters of a recognised name matter. */
  lemma ParseIgnoresTail(name: string, rest: string)
    requires ParseFilename(name).Some?
    ensures ParseFilename(name + rest) == ParseFilename(name)
  {
    var full := name + rest;
    assert full[1..3] == name[1..3];
    assert full[4..7] == name[4..7];
    assert full[7..15] == name[7..15];
  }

  // ---------------------------------------------------------------------------
  // The file list and the tile lookup
  // ---------------------------------------------------------------------------

  /** The contents of a cached archive: how many entries it holds and the samples
      of its first entry. */
  datatype Archive = Archive(entryCount: nat, samples: seq<Sample>)

  /** The file list: for the corner read from each archive name (None for a name
      that was not recognised), the region directory and the archive name. */
  class Downloader {
    const cacheDir: string
    var fileList: map<Option<(int, int)>, (string, string)>

    constructor (cacheDir: string)
      ensures this.cacheDir == cacheDir && fileList == map[]
    {
      this.cacheDir := cacheDir;
      fileList := map[];
    }

    /** Records one archive found in a region directory of the server, keyed by the
        corner its name gives; a later archive with the same key replaces it. */
    method AddFile(region: string, filename: string)
      modifies this
      ensures fileList == old(fileList)[ParseFilename(filename) := (region, filename)]
    {
      fileList := fileList[ParseFilename(filename) := (region, filename)];
    }

    /** Opens the tile whose corner is the truncation toward zero of (lat, lon).
        The archive is read through `files`, which stands for the cache directory. */
    method GetTile(lat: real, lon: real, files: string -> Archive) returns (r: Result<Tile, TileError>)
      ensures var key := Some((Trunc(lat), Trunc(lon)));
        (key !in fileList <==> r == Err(NoSuchTile(lat, lon))) &&
        (key in fileList ==>
          var archive := files(cacheDir + "/" + fileList[key].1);
          (r.Err? <==> CheckTile(archive.entryCount, archive.samples, Trunc(lat), Trunc(lon)).Err?) &&
          (r.Err? ==> r.error == InvalidTile(Trunc(lat), Trunc(lon))) &&
          (r.Ok? ==> fresh(r.value) && fresh(r.value.data) && r.value.Valid() && r.value.data[..] == archive.samples))
      ensures r.Ok? ==> r.value.lat == Trunc(lat) && r.value.lon == Trunc(lon)
    {
      var key := Some((Trunc(lat), Trunc(lon)));
      if key !in fileList {
        return Err(NoSuchTile(lat, lon));
      }
      var (region, filename) := fileList[key];
      var archive := files(cacheDir + "/" + filename);
      r := Tile.Open(archive.entryCount, archive.samples, Trunc(lat), Trunc(lon));
    }
  }

  /** Once an archive with a canonical name has been recorded, a lookup anywhere in
      its cell with non-negative coordinates finds it. */
  lemma RecordedTileIsFound(fileList: map<Option<(int, int)>, (string, string)>, region: string,
                            tileLat: int, tileLon: int, rest: string, lat: real, lon: real)
    requires -99 <= tileLat <= 99 && -999 <= tileLon <= 999
    requires 0 <= tileLat && 0 <= tileLon
    requires tileLat as real <= lat < tileLat as real + 1.0 && tileLon as real <= lon < tileLon as real + 1.0
    ensures var filename := FormatFilename(tileLat, tileLon) + rest;
      var key := Some((Trunc(lat), Trunc(lon)));
      key in fileList[ParseFilename(filename) := (region, filename)] &&
      fileList[ParseFilename(filename) := (region, filename)][key] == (region, filename)
  {
    ParseFormatRoundTrip(tileLat, tileLon, rest);
  }

  /** Truncation is not flooring: below zero, a fractional position is looked up
      under the corner of the cell to its north or east. */
  lemma LookupBelowZeroUsesNeighbour(lat: real)
    requires -99.0 < lat < 0.0 && lat != lat.Floor as real
    ensures Trunc(lat) == lat.Floor + 1
  {
  }
}
