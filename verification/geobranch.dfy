/** The global branch of the conversion: fires no North American boundary
    polygon contains (country code "NA") get their region code from the global
    raster, are rolled up to coarser coordinates with the process code "c" and
    the day label as unit, and lose the Central American regions that overlap
    the national inventories. */
module GeoBranch {
  import opened Outcomes
  import opened Calendar
  import opened Aggregate
  import opened GeoGrid
  import opened Detections

  /** `get_fips` on a row's coordinates. */
  function FipsFor(grid: Grid, xref: map<string, string>): LongRow -> Result<string> {
    (e: LongRow) => GetFips(grid, xref, e.key.site.lat, e.key.site.lon)
  }

  /** The row with its region code replaced. */
  function WithRegion(e: LongRow, region: string): LongRow {
    Entry(Ids(e.key.site.(region := region), e.key.poll), e.vals)
  }

  /** `fill_geocodes`: every row's region becomes the raster lookup's code
      without its first character. The first row whose cell lies off the
      raster (IndexError) or whose key the cross-reference lacks (KeyError)
      aborts the branch. */
  function FillGeocodes(rows: seq<LongRow>, grid: Grid, xref: map<string, string>): (r: Result<seq<LongRow>>)
    ensures r.Ok? <==> forall i :: 0 <= i < |rows| ==> GetFips(grid, xref, rows[i].key.site.lat, rows[i].key.site.lon).Ok?
    ensures r.Err? ==> r.fault == IndexError || r.fault == KeyError
    ensures r.Ok? ==> |r.value| == |rows| && forall i :: 0 <= i < |rows| ==>
      r.value[i] == WithRegion(rows[i], FillRegion(GetFips(grid, xref, rows[i].key.site.lat, rows[i].key.site.lon).value))
  {
    var codes := MapAll(rows, FipsFor(grid, xref));
    if codes.Err? then
      var i :| 0 <= i < |rows| && FipsFor(grid, xref)(rows[i]) == Err(codes.fault);
      Err(codes.fault)
    else
      Ok(seq(|rows|, i requires 0 <= i < |rows| => WithRegion(rows[i], FillRegion(codes.value[i]))))
  }

  /** Filling in region codes moves no value: every pollutant keeps its total. */
  lemma FillConserves(rows: seq<LongRow>, grid: Grid, xref: map<string, string>, p: string)
    requires FillGeocodes(rows, grid, xref).Ok?
    ensures PollTotal(FillGeocodes(rows, grid, xref).value, p) == PollTotal(rows, p)
  {
    var out := FillGeocodes(rows, grid, xref).value;
    TotalRowwise(out, SelectColumn(IsPoll(p), 0), rows, SelectColumn(IsPoll(p), 0));
  }

  /** Filling in region codes moves no value: the whole total is kept. */
  lemma FillTotal(rows: seq<LongRow>, grid: Grid, xref: map<string, string>)
    requires FillGeocodes(rows, grid, xref).Ok?
    ensures Total(FillGeocodes(rows, grid, xref).value, Column(0)) == Total(rows, Column(0))
  {
    TotalRowwise(FillGeocodes(rows, grid, xref).value, Column(0), rows, Column(0));
  }

  /** The identifiers of a row after `roll_up_geo`: coordinates coarsened,
      process "c", and the day label as unit. The unit column is not a
      grouping column, but it is a function of the day, which is. */
  function Rolled(coarsen: int -> int, k: Ids): Ids {
    Ids(k.site.(lat := coarsen(k.site.lat), lon := coarsen(k.site.lon), process := "c",
                unit := DayLabel(k.site.day)), k.poll)
  }

  function RollKey(coarsen: int -> int): Ids -> Ids {
    (k: Ids) => Rolled(coarsen, k)
  }

  /** Row mask: the rows that roll up into identifiers `k`. */
  function RollsTo(coarsen: int -> int, k: Ids): Ids -> bool {
    (x: Ids) => Rolled(coarsen, x) == k
  }

  /** `roll_up_geo`: coordinates coarsened by `coarsen` (the rounding to one
      decimal), then a group-by-sum on everything but the unit. */
  function RollUp(rows: seq<LongRow>, coarsen: int -> int): seq<LongRow> {
    GroupSum(Rekey(rows, RollKey(coarsen)))
  }

  /** Each rolled key appears once, the rolled keys are exactly the rolled
      identifiers of the input rows, and every output row has process "c"
      and its day label as unit. */
  lemma RollUpShape(rows: seq<LongRow>, coarsen: int -> int)
    ensures Distinct(RollUp(rows, coarsen))
    ensures forall k :: k in Keys(RollUp(rows, coarsen)) <==>
      exists i :: 0 <= i < |rows| && Rolled(coarsen, rows[i].key) == k
    ensures forall i :: 0 <= i < |RollUp(rows, coarsen)| ==>
      && RollUp(rows, coarsen)[i].key.site.process == "c"
      && RollUp(rows, coarsen)[i].key.site.unit == DayLabel(RollUp(rows, coarsen)[i].key.site.day)
  {
    var pre := Rekey(rows, RollKey(coarsen));
    var out := GroupSum(pre);
    GroupSumShape(pre, 0);
    forall k ensures k in Keys(out) <==> exists i :: 0 <= i < |rows| && Rolled(coarsen, rows[i].key) == k {
      RekeyKeys(rows, RollKey(coarsen), k);
    }
    forall i | 0 <= i < |out|
      ensures out[i].key.site.process == "c" && out[i].key.site.unit == DayLabel(out[i].key.site.day)
    {
      assert out[i].key in Keys(out);
    }
  }

  /** Each rolled row carries the sum of `val` over the rows rolling into it. */
  lemma RollUpValues(rows: seq<LongRow>, coarsen: int -> int, i: nat)
    requires i < |RollUp(rows, coarsen)|
    ensures At(RollUp(rows, coarsen)[i].vals, 0) ==
      Total(rows, SelectColumn(RollsTo(coarsen, RollUp(rows, coarsen)[i].key), 0))
  {
    var pre := Rekey(rows, RollKey(coarsen));
    var k := GroupSum(pre)[i].key;
    GroupSumValues(pre, i, 0);
    TotalRowwise(pre, KeyColumn(k, 0), rows, SelectColumn(RollsTo(coarsen, k), 0));
  }

  /** The roll-up conserves every pollutant's total. */
  lemma RollUpConserves(rows: seq<LongRow>, coarsen: int -> int, p: string)
    ensures PollTotal(RollUp(rows, coarsen), p) == PollTotal(rows, p)
  {
    var pre := Rekey(rows, RollKey(coarsen));
    GroupSumSelectTotal(pre, IsPoll(p), 0);
    TotalRowwise(pre, SelectColumn(IsPoll(p), 0), rows, SelectColumn(IsPoll(p), 0));
  }

  /** The roll-up conserves the whole total. */
  lemma RollUpTotal(rows: seq<LongRow>, coarsen: int -> int)
    ensures Total(RollUp(rows, coarsen), Column(0)) == Total(rows, Column(0))
  {
    var pre := Rekey(rows, RollKey(coarsen));
    GroupSumColumnTotal(pre, 0);
    TotalRowwise(pre, Column(0), rows, Column(0));
  }

  /** Rolling up keeps the days of the rows rolled. */
  lemma RollUpDays(rows: seq<LongRow>, coarsen: int -> int)
    requires DaysInRange(rows)
    ensures DaysInRange(RollUp(rows, coarsen))
  {
    var out := RollUp(rows, coarsen);
    RollUpShape(rows, coarsen);
    forall i | 0 <= i < |out| ensures 1 <= out[i].key.site.day <= 31 {
      assert out[i].key in Keys(out);
    }
  }

  /** The Central American regions that overlap the national inventories. */
  const DenyList: set<string> := {"19116", "19221", "19176"}

  /** Row mask: rows outside the deny list. */
  function Allowed(): Ids -> bool {
    (k: Ids) => k.site.region !in DenyList
  }

  /** The deny-list filter of `main`: exactly the rows of regions outside the
      list survive, in order. */
  function DropDenied(rows: seq<LongRow>): (out: seq<LongRow>)
    ensures forall i :: 0 <= i < |out| ==> out[i].key.site.region !in DenyList
    ensures forall e :: e in out <==> e in rows && e.key.site.region !in DenyList
  {
    var out := Filter(rows, Allowed());
    assert forall e :: e in out <==> e in rows && e.key.site.region !in DenyList by {
      forall e ensures e in out <==> e in rows && e.key.site.region !in DenyList {
        FilterMembers(rows, Allowed(), e);
      }
    }
    out
  }

  /** What the filter drops is exactly the value of the deny-listed rows. */
  lemma DropDeniedTotal(rows: seq<LongRow>)
    ensures Total(DropDenied(rows), Column(0)) + Total(Filter(rows, Not(Allowed())), Column(0)) == Total(rows, Column(0))
    ensures forall i :: 0 <= i < |Filter(rows, Not(Allowed()))| ==>
      Filter(rows, Not(Allowed()))[i].key.site.region in DenyList
  {
    FilterSplit(rows, Allowed(), Column(0));
  }

  /** Lines 35-41: the cross-reference is loaded, the unresolved rows get
      raster region codes, are rolled up, and lose the deny-listed regions.
      A malformed cross-reference line (IndexError), a cell off the raster
      (IndexError) or a key missing from the cross-reference (KeyError) aborts
      the branch. */
  function GeoTable(long: seq<LongRow>, grid: Grid, xrefLines: seq<string>, coarsen: int -> int): (r: Result<seq<LongRow>>)
    ensures r.Ok? <==> LoadXref(xrefLines).Ok? && FillGeocodes(CountryRows(long, "NA"), grid, LoadXref(xrefLines).value).Ok?
    ensures r.Err? ==> r.fault == IndexError || r.fault == KeyError
  {
    var xref := LoadXref(xrefLines);
    if xref.Err? then
      LoadRowsOk(seq(|xrefLines|, i requires 0 <= i < |xrefLines| => ParseLine(xrefLines[i])));
      Err(xref.fault)
    else
      var filled := FillGeocodes(CountryRows(long, "NA"), grid, xref.value);
      if filled.Err? then Err(filled.fault)
      else Ok(DropDenied(RollUp(filled.value, coarsen)))
  }

  /** Every row of the global table is outside the deny list, has process
      "c" and its day label as unit, and keeps a day of month of the rows it
      came from. */
  lemma GeoTableShape(long: seq<LongRow>, grid: Grid, xrefLines: seq<string>, coarsen: int -> int)
    requires GeoTable(long, grid, xrefLines, coarsen).Ok?
    ensures forall i :: 0 <= i < |GeoTable(long, grid, xrefLines, coarsen).value| ==>
      && GeoTable(long, grid, xrefLines, coarsen).value[i].key.site.region !in DenyList
      && GeoTable(long, grid, xrefLines, coarsen).value[i].key.site.process == "c"
      && GeoTable(long, grid, xrefLines, coarsen).value[i].key.site.unit
           == DayLabel(GeoTable(long, grid, xrefLines, coarsen).value[i].key.site.day)
    ensures DaysInRange(long) ==> DaysInRange(GeoTable(long, grid, xrefLines, coarsen).value)
  {
    var na := CountryRows(long, "NA");
    var filled := FillGeocodes(na, grid, LoadXref(xrefLines).value).value;
    var rolled := RollUp(filled, coarsen);
    RollUpShape(filled, coarsen);
    var out := DropDenied(rolled);
    assert out == GeoTable(long, grid, xrefLines, coarsen).value;
    forall i | 0 <= i < |out|
      ensures out[i].key.site.process == "c" && out[i].key.site.unit == DayLabel(out[i].key.site.day)
    {
      assert out[i] in rolled;
    }
    if DaysInRange(long) {
      assert DaysInRange(na) by {
        forall i | 0 <= i < |na| ensures 1 <= na[i].key.site.day <= 31 {
          assert na[i] in na;
        }
      }
      RollUpDays(filled, coarsen);
      forall i | 0 <= i < |out| ensures 1 <= out[i].key.site.day <= 31 {
        assert out[i] in rolled;
      }
    }
  }

  /** The rolled rows of deny-listed regions, which the global branch drops. */
  function DeniedRows(long: seq<LongRow>, grid: Grid, xrefLines: seq<string>, coarsen: int -> int): (out: seq<LongRow>)
    requires GeoTable(long, grid, xrefLines, coarsen).Ok?
    ensures forall i :: 0 <= i < |out| ==> out[i].key.site.region in DenyList
  {
    var filled := FillGeocodes(CountryRows(long, "NA"), grid, LoadXref(xrefLines).value).value;
    Filter(RollUp(filled, coarsen), Not(Allowed()))
  }

  /** The global table carries the whole total of the unresolved rows, less
      exactly what the deny list drops. */
  lemma GeoTableTotal(long: seq<LongRow>, grid: Grid, xrefLines: seq<string>, coarsen: int -> int)
    requires GeoTable(long, grid, xrefLines, coarsen).Ok?
    ensures Total(GeoTable(long, grid, xrefLines, coarsen).value, Column(0))
      + Total(DeniedRows(long, grid, xrefLines, coarsen), Column(0)) == CountryTotal(long, "NA")
  {
    var na := CountryRows(long, "NA");
    var filled := FillGeocodes(na, grid, LoadXref(xrefLines).value).value;
    var rolled := RollUp(filled, coarsen);
    assert GeoTable(long, grid, xrefLines, coarsen).value == DropDenied(rolled);
    FillTotal(na, grid, LoadXref(xrefLines).value);
    RollUpTotal(filled, coarsen);
    DropDeniedTotal(rolled);
    CountryRowsTotal(long, "NA");
  }
}
