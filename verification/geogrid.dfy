/** The global raster lookup of the `GeoCode` class: a coordinate selects a
    0.1-degree cell of a region-code raster and a time-zone raster, the two
    cell values form a composite key, and a cross-reference table read from a
    two-column text file maps the key to a region code.

    Coordinates are integer hundredths of a degree: the conversion rounds every
    latitude and longitude to two decimals before any lookup. */
module GeoGrid {
  import opened Outcomes
  import opened Text

  /** Python's `int(a / b)` for b > 0: the quotient truncated toward zero. */
  function TruncDiv(a: int, b: int): (q: int)
    requires b > 0
    ensures 0 <= a ==> 0 <= q && q * b <= a < q * b + b
    ensures a < 0 ==> q <= 0 && q * b - b < a <= q * b
  {
    if a >= 0 then a / b else -((-a) / b)
  }

  /** The cell of a coordinate, and whether the lookup warned about a
      longitude of exactly zero. */
  datatype Cell = Cell(row: int, col: int, zeroLongitude: bool)

  /** `_get_code`'s indices: row `int((lat + 90) / 0.1)`; column
      `int(lon / 0.1)` east of Greenwich, `int((360 + lon) / 0.1)` west of
      it, and the fixed column 180 (with a warning) on the meridian itself.
      Away from the meridian the cell is the 0.1-degree box holding the point,
      longitudes being counted eastward from 0 to 360. */
  function CellOf(lat: int, lon: int): (c: Cell)
    ensures c.zeroLongitude <==> lon == 0
    ensures -9000 <= lat ==> 10 * c.row <= lat + 9000 < 10 * c.row + 10
    ensures 0 < lon ==> 10 * c.col <= lon < 10 * c.col + 10
    ensures -36000 <= lon < 0 ==> 10 * c.col <= lon + 36000 < 10 * c.col + 10
    ensures lon == 0 ==> c.col == 180
  {
    var row := TruncDiv(lat + 9000, 10);
    if lon > 0 then Cell(row, TruncDiv(lon, 10), false)
    else if lon < 0 then Cell(row, TruncDiv(36000 + lon, 10), false)
    else Cell(row, 180, true)
  }

  /** On the 1800 x 3600 global grid every coordinate strictly inside the
      latitude and longitude ranges has a cell, and a western longitude
      shares its column with the same meridian counted eastward. */
  lemma CellRanges(lat: int, lon: int)
    ensures -9000 <= lat < 9000 ==> 0 <= CellOf(lat, lon).row < 1800
    ensures -36000 < lon < 36000 ==> 0 <= CellOf(lat, lon).col < 3600
    ensures -36000 < lon < 0 ==> CellOf(lat, lon).col == CellOf(lat, lon + 36000).col
  {
  }

  /** The meridian is not binned with its neighbours: longitude 0 reads
      column 180 (18 degrees east), while 0.01 east reads column 0 and 0.01
      west reads column 3599. */
  lemma ZeroLongitudeColumn(lat: int)
    ensures CellOf(lat, 0).col == 180 && CellOf(lat, 0).zeroLongitude
    ensures CellOf(lat, 1).col == 0 && CellOf(lat, -1).col == 3599
  {
  }

  /** numpy indexing along one axis of length `n`: negative indices count
      from the end, anything else out of range raises IndexError. */
  function AxisIndex(n: nat, i: int): (r: Option<nat>)
    ensures r.Some? <==> -(n as int) <= i < n
    ensures r.Some? ==> r.value < n && (r.value == i || r.value == i + n)
  {
    if 0 <= i < n then Some(i) else if -(n as int) <= i < 0 then Some(n + i) else None
  }

  /** `array[0, 0, row, col]` of a raster given as rows of columns. */
  function RasterAt(a: seq<seq<int>>, row: int, col: int): (r: Result<int>)
    ensures r.Err? ==> r.fault == IndexError
    ensures 0 <= row < |a| && 0 <= col < |a[row]| ==> r == Ok(a[row][col])
  {
    match AxisIndex(|a|, row)
    case None => Err(IndexError)
    case Some(i) =>
      match AxisIndex(|a[i]|, col)
      case None => Err(IndexError)
      case Some(j) => Ok(a[i][j])
  }

  /** The region-code raster `GEOCODE` and the time-zone raster `TZONES`. */
  datatype Grid = Grid(geocode: seq<seq<int>>, tzone: seq<seq<int>>)

  /** The composite key `'%0.6d_%0.2d' % (geocode, tz + 13)`. */
  function GeoKey(geocode: int, tz: int): string {
    FormatInt(geocode, 6) + "_" + FormatInt(tz + 13, 2)
  }

  /** Reads a composite key back into (geocode, time zone). */
  function ParseGeoKey(key: string): Option<(int, int)> {
    var parts := Split(key, '_');
    if |parts| != 2 then None
    else
      match (ParseInt(parts[0]), ParseInt(parts[1]))
      case (Some(g), Some(t)) => Some((g, t - 13))
      case _ => None
  }

  lemma FormattedHasNoUnderscore(n: int, width: nat)
    ensures '_' !in FormatInt(n, width)
  {
    var p := ZeroPad(if n < 0 then -n else n, width);
    assert forall i :: 0 <= i < |p| ==> p[i] != '_';
  }

  lemma SplitAround(a: string, b: string, c: char)
    requires c !in a && c !in b
    ensures Split(a + [c] + b, c) == [a, b]
  {
    var s := a + [c] + b;
    assert s[..|a|] == a && s[|a| + 1..] == b;
  }

  /** The composite key determines the cell values it was built from: distinct
      (geocode, time zone) pairs never share a key. */
  lemma GeoKeyRoundTrip(geocode: int, tz: int)
    ensures ParseGeoKey(GeoKey(geocode, tz)) == Some((geocode, tz))
  {
    var a, b := FormatInt(geocode, 6), FormatInt(tz + 13, 2);
    FormattedHasNoUnderscore(geocode, 6);
    FormattedHasNoUnderscore(tz + 13, 2);
    assert GeoKey(geocode, tz) == a + ['_'] + b;
    SplitAround(a, b, '_');
    FormatIntParses(geocode, 6);
    FormatIntParses(tz + 13, 2);
  }

  /** Keys of six-digit region codes and time zones -13..86 are nine
      characters, the underscore sixth. */
  lemma GeoKeyWidth(geocode: int, tz: int)
    requires 0 <= geocode < 1000000 && -13 <= tz < 87
    ensures |GeoKey(geocode, tz)| == 9 && GeoKey(geocode, tz)[6] == '_'
  {
    assert Pow10(6) == 1000000 && Pow10(2) == 100;
    DigitsWithin(geocode, 6);
    DigitsWithin(tz + 13, 2);
  }

  /** `_get_code`: the composite key of the cell holding (lat, lon), built
      from the region code and time zone read there; a cell index outside a
      raster raises IndexError. */
  function CodeAt(grid: Grid, lat: int, lon: int): (r: Result<string>)
    ensures r.Ok? <==>
      var c := CellOf(lat, lon);
      RasterAt(grid.geocode, c.row, c.col).Ok? && RasterAt(grid.tzone, c.row, c.col).Ok?
    ensures r.Err? ==> r.fault == IndexError
    ensures r.Ok? ==>
      var c := CellOf(lat, lon);
      && r.value == GeoKey(RasterAt(grid.geocode, c.row, c.col).value, RasterAt(grid.tzone, c.row, c.col).value)
      && ParseGeoKey(r.value) ==
           Some((RasterAt(grid.geocode, c.row, c.col).value, RasterAt(grid.tzone, c.row, c.col).value))
  {
    var c := CellOf(lat, lon);
    var g :- RasterAt(grid.geocode, c.row, c.col);
    var t :- RasterAt(grid.tzone, c.row, c.col);
    GeoKeyRoundTrip(g, t);
    Ok(GeoKey(g, t))
  }

  /** A line of the cross-reference file is skipped when it begins "geo". */
  predicate IsHeaderLine(line: string) {
    StartsWith(line, "geo")
  }

  /** `[cell.strip() for cell in line.strip().split(',')]`. */
  function SplitCells(line: string): (cells: seq<string>)
    ensures |cells| >= 1
  {
    var raw := Split(Strip(line), ',');
    seq(|raw|, i requires 0 <= i < |raw| => Strip(raw[i]))
  }

  /** A line of the cross-reference file as the loader sees it: a header, or
      a row of cells, the first being the key. */
  datatype XrefLine = Header | Row(key: string, more: seq<string>)

  function ParseLine(line: string): XrefLine {
    if IsHeaderLine(line) then Header
    else
      var cells := SplitCells(line);
      Row(cells[0], cells[1..])
  }

  /** A line the loader accepts: a header, or a row of at least two cells. */
  predicate Loads(l: XrefLine) {
    l.Header? || |l.more| >= 1
  }

  /** The fold of `_load_fips_xref` over parsed lines: each row maps its
      first cell to its second, a later row overwriting an earlier one; a row
      of one cell raises IndexError. */
  function LoadRows(ls: seq<XrefLine>): Result<map<string, string>> {
    if |ls| == 0 then Ok(map[])
    else
      var m :- LoadRows(ls[..|ls| - 1]);
      match ls[|ls| - 1]
      case Header => Ok(m)
      case Row(key, more) => if |more| == 0 then Err(IndexError) else Ok(m[key := more[0]])
  }

  /** `_load_fips_xref` on the lines of the file. */
  function LoadXref(lines: seq<string>): Result<map<string, string>> {
    LoadRows(seq(|lines|, i requires 0 <= i < |lines| => ParseLine(lines[i])))
  }

  /** No later row of `ls` repeats row `i`'s key. */
  predicate LastForKey(ls: seq<XrefLine>, i: nat)
    requires i < |ls| && ls[i].Row?
  {
    forall j :: i < j < |ls| && ls[j].Row? ==> ls[j].key != ls[i].key
  }

  /** The table loads exactly when every line is a header or has two cells;
      otherwise the failure is IndexError. */
  lemma {:induction false} LoadRowsOk(ls: seq<XrefLine>)
    ensures LoadRows(ls).Ok? <==> forall i :: 0 <= i < |ls| ==> Loads(ls[i])
    ensures LoadRows(ls).Err? ==> LoadRows(ls).fault == IndexError
  {
    if |ls| > 0 {
      var n := |ls| - 1;
      var p := ls[..n];
      LoadRowsOk(p);
      if LoadRows(p).Err? {
        var i :| 0 <= i < n && !Loads(p[i]);
        assert !Loads(ls[i]);
      } else {
        assert forall i :: 0 <= i < n ==> p[i] == ls[i];
      }
    }
  }

  /** The keys of the loaded table are the first cells of the rows. */
  lemma {:induction false} LoadRowsKeys(ls: seq<XrefLine>, k: string)
    requires LoadRows(ls).Ok?
    ensures k in LoadRows(ls).value <==>
      exists i :: 0 <= i < |ls| && ls[i].Row? && ls[i].key == k
  {
    if |ls| > 0 {
      var n := |ls| - 1;
      var p := ls[..n];
      LoadRowsKeys(p, k);
      if k in LoadRows(p).value {
        var i :| 0 <= i < |p| && p[i].Row? && p[i].key == k;
        assert ls[i] == p[i];
      }
      if exists i :: 0 <= i < |ls| && ls[i].Row? && ls[i].key == k {
        var i :| 0 <= i < |ls| && ls[i].Row? && ls[i].key == k;
        if i < n {
          assert p[i] == ls[i];
        }
      }
    }
  }

  /** Later lines win: a key maps to the second cell of the last row carrying
      it. */
  lemma {:induction false} LoadRowsLastWins(ls: seq<XrefLine>, i: nat)
    requires LoadRows(ls).Ok?
    requires i < |ls| && ls[i].Row? && LastForKey(ls, i)
    ensures |ls[i].more| >= 1
    ensures ls[i].key in LoadRows(ls).value
    ensures LoadRows(ls).value[ls[i].key] == ls[i].more[0]
  {
    var n := |ls| - 1;
    var p := ls[..n];
    if i < n {
      assert p[i] == ls[i];
      assert LastForKey(p, i) by {
        forall j | i < j < |p| && p[j].Row? ensures p[j].key != p[i].key {
          assert p[j] == ls[j];
        }
      }
      LoadRowsLastWins(p, i);
    }
  }

  /** Header lines are skipped wherever they stand. */
  lemma {:induction false} LoadRowsSkipsHeaders(ls: seq<XrefLine>, k: nat)
    requires k <= |ls|
    ensures LoadRows(ls[..k] + [Header] + ls[k..]) == LoadRows(ls)
    decreases |ls| - k
  {
    if k == |ls| {
      assert (ls[..k] + [Header] + ls[k..])[..|ls|] == ls;
    } else {
      var n := |ls| - 1;
      var t := ls[..k] + [Header] + ls[k..];
      assert t[..|t| - 1] == ls[..n][..k] + [Header] + ls[..n][k..];
      assert t[|t| - 1] == ls[n];
      LoadRowsSkipsHeaders(ls[..n], k);
    }
  }

  /** `get_fips`: the region code the cross-reference gives the key of the
      cell holding (lat, lon). There is no default: a key the table lacks
      raises KeyError. */
  function GetFips(grid: Grid, xref: map<string, string>, lat: int, lon: int): (r: Result<string>)
    ensures CodeAt(grid, lat, lon).Err? ==> r == Err(IndexError)
    ensures CodeAt(grid, lat, lon).Ok? ==>
      (r.Ok? <==> CodeAt(grid, lat, lon).value in xref)
    ensures CodeAt(grid, lat, lon).Ok? && r.Err? ==> r.fault == KeyError
    ensures r.Ok? ==> r.value == xref[CodeAt(grid, lat, lon).value]
    ensures r.Err? ==> r.fault == IndexError || r.fault == KeyError
  {
    var key :- CodeAt(grid, lat, lon);
    if key in xref then Ok(xref[key]) else Err(KeyError)
  }

  /** `fill_geocodes` keeps the looked-up code without its first character. */
  function FillRegion(code: string): (region: string)
    ensures |code| > 0 ==> [code[0]] + region == code
    ensures |code| == 0 ==> region == ""
  {
    From(code, 1)
  }
}
