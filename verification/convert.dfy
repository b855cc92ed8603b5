/** The conversion of `main` with the daily pivot corrected: the long table
    of the detections is routed by country code to the four national
    inventories, each written as a daily and an annual FF10 file when it has
    rows, and the rows no boundary polygon contains go through the global
    raster branch into the two global files.

    The daily writer here sums colliding cells and fills missing days with
    zero (`Daily.DailyPivot`), so it raises only for an inventory code
    without a name. The script as it stands averages at line 183 and raises
    KeyError at line 200, which ends the run; that run is `MainRun`, which
    shows where the two agree.

    An inventory is the target it is written for and the long rows handed
    to the two writers; its files are functions of it. The national
    inventories are written before the global branch can fail, so a run
    that fails in the global branch still leaves the national files: the
    global outcome is kept apart from the national ones. */
module Convert {
  import opened Outcomes
  import opened Regions
  import opened Aggregate
  import opened GeoGrid
  import opened Detections
  import opened Daily
  import opened Annual
  import opened GeoBranch
  import opened Ff10

  /** The rows handed to `write_daily_ff10` and `write_annual_ff10` for one
      inventory. */
  datatype Inventory = Inventory(target: Target, rows: seq<LongRow>)

  /** A written FF10 file: its path, the three header lines, the column
      names `to_csv` writes first, and one line per table row. */
  datatype File = File(path: string, header: seq<string>, columns: seq<ColumnName>, lines: seq<seq<Field>>)

  const DailyFormat: string := "FF10_DAILY_POINT"
  const AnnualFormat: string := "FF10_POINT"

  /** The file `write_daily_ff10` writes, by the corrected pivot: one line
      per row of the summed daily table. The inventory-name lookup raises
      KeyError for a code it lacks. */
  function DailyFile(inv: Inventory, workdir: string, prefix: string, year: nat): (r: Result<File>)
    ensures r.Ok? <==> TargetCode(inv.target) in InventoryNames
    ensures r.Err? ==> r.fault == KeyError
    ensures r.Ok? ==> r.value.path == OutputPath(workdir, prefix, true, inv.target)
    ensures r.Ok? ==> r.value.columns == DailyColumns && |r.value.lines| == |DailyPivot(inv.rows)|
    ensures r.Ok? ==> forall i :: 0 <= i < |r.value.lines| ==> |r.value.lines[i]| == 46
  {
    var header := Ff10.Header(DailyFormat, TargetCode(inv.target), year);
    if header.Err? then Err(header.fault)
    else
      var daily := DailyPivot(inv.rows);
      var lines := seq(|daily|, i requires 0 <= i < |daily| => DailyLine(daily[i]));
      assert forall i :: 0 <= i < |lines| ==> |lines[i]| == 46 by {
        forall i | 0 <= i < |lines| ensures |lines[i]| == 46 {
          DailyLineCells(daily[i]);
        }
      }
      Ok(File(OutputPath(workdir, prefix, true, inv.target), header.value, DailyColumns, lines))
  }

  /** The file `write_annual_ff10` writes: one line per row of the annual
      table. */
  function AnnualFile(inv: Inventory, workdir: string, prefix: string, year: nat): (r: Result<File>)
    ensures r.Ok? <==> TargetCode(inv.target) in InventoryNames
    ensures r.Err? ==> r.fault == KeyError
    ensures r.Ok? ==> r.value.path == OutputPath(workdir, prefix, false, inv.target)
    ensures r.Ok? ==> r.value.columns == AnnualColumns && |r.value.lines| == |AnnualTable(inv.rows)|
    ensures r.Ok? ==> forall i :: 0 <= i < |r.value.lines| ==> |r.value.lines[i]| == 77
  {
    var header := Ff10.Header(AnnualFormat, TargetCode(inv.target), year);
    if header.Err? then Err(header.fault)
    else
      var annual := AnnualTable(inv.rows);
      var lines := seq(|annual|, i requires 0 <= i < |annual| => AnnualLine(annual[i], year));
      assert forall i :: 0 <= i < |lines| ==> |lines[i]| == 77 by {
        forall i | 0 <= i < |lines| ensures |lines[i]| == 77 {
          AnnualLineCells(annual[i], year);
        }
      }
      Ok(File(OutputPath(workdir, prefix, false, inv.target), header.value, AnnualColumns, lines))
  }

  /** Line `i` of the corrected daily file holds, for day `d` (cell `13 + d`), the
      summed `val` of the inventory's rows of its index and day, and in cell
      13 the summed `val` of all rows of its index. */
  lemma {:induction false} DailyFileLines(inv: Inventory, workdir: string, prefix: string, year: nat, i: nat, d: nat)
    requires DailyFile(inv, workdir, prefix, year).Ok? && DaysInRange(inv.rows)
    requires i < |DailyPivot(inv.rows)| && 1 <= d <= 31
    ensures DailyFile(inv, workdir, prefix, year).value.lines[i][13 + d] ==
      Num(CellTotal(inv.rows, DailyPivot(inv.rows)[i].key, d))
    ensures DailyFile(inv, workdir, prefix, year).value.lines[i][13] ==
      Num(Total(inv.rows, SelectColumn(InRow(DailyPivot(inv.rows)[i].key), 0)))
  {
    DailyInventoryCells(inv.rows, i, d);
  }

  /** Line `i` of the annual file holds, as `ann_value` (cell 13), the
      summed `val` of the inventory's rows of its grouping key. */
  lemma {:induction false} AnnualFileLines(inv: Inventory, workdir: string, prefix: string, year: nat, i: nat)
    requires AnnualFile(inv, workdir, prefix, year).Ok?
    requires i < |AnnualTable(inv.rows)|
    ensures AnnualFile(inv, workdir, prefix, year).value.lines[i][13] ==
      Num(Total(inv.rows, SelectColumn(InAnnual(AnnualTable(inv.rows)[i].key), 0)))
  {
    AnnualLineValue(AnnualTable(inv.rows)[i], year);
    AnnualValues(inv.rows, i);
  }

  /** The position of a national inventory in the country list. */
  function Slot(c: Country): (j: nat)
    requires c != Unresolved
    ensures j < |Countries| && Countries[j] == c
  {
    match c
    case US => 0
    case CA => 1
    case MX => 2
    case ONA => 3
  }

  /** One pass of the country loop: the inventory of country `c` is written
      when some row carries its code, and skipped otherwise. */
  function NationalInventory(long: seq<LongRow>, c: Country): (r: Option<Inventory>)
    ensures r.Some? <==> exists i :: 0 <= i < |long| && long[i].key.site.country == c.Code()
    ensures r.Some? ==> r.value.target == Nation(c)
    ensures r.Some? ==> forall e :: e in r.value.rows <==> e in long && e.key.site.country == c.Code()
  {
    var rows := CountryRows(long, c.Code());
    CountryRowsNonEmpty(long, c.Code());
    if |rows| == 0 then None else Some(Inventory(Nation(c), rows))
  }

  /** A country's selection has rows exactly when some row carries its code. */
  lemma {:induction false} CountryRowsNonEmpty(long: seq<LongRow>, c: string)
    ensures |CountryRows(long, c)| > 0 <==> exists i :: 0 <= i < |long| && long[i].key.site.country == c
  {
    var rows := CountryRows(long, c);
    if |rows| > 0 {
      assert rows[0] in rows;
      var i :| 0 <= i < |long| && long[i] == rows[0];
    }
    if exists i :: 0 <= i < |long| && long[i].key.site.country == c {
      var i :| 0 <= i < |long| && long[i].key.site.country == c;
      assert long[i] in rows;
    }
  }

  /** The global branch of `main`: its rows, for the global inventory. */
  function GlobalInventory(long: seq<LongRow>, grid: Grid, xrefLines: seq<string>, coarsen: int -> int): (r: Result<Inventory>)
    ensures r.Ok? <==> GeoTable(long, grid, xrefLines, coarsen).Ok?
    ensures r.Err? ==> r.fault == IndexError || r.fault == KeyError
    ensures r.Ok? ==> r.value.target == Global
  {
    var geo := GeoTable(long, grid, xrefLines, coarsen);
    if geo.Err? then Err(geo.fault) else Ok(Inventory(Global, geo.value))
  }

  /** What a run leaves behind: the national inventories (None where a
      country has no rows) and the outcome of the global branch. */
  datatype Run = Run(national: seq<Option<Inventory>>, global: Result<Inventory>)

  /** `main` on the long table: the country loop, then the global branch. */
  function RunOf(long: seq<LongRow>, grid: Grid, xrefLines: seq<string>, coarsen: int -> int): (run: Run)
    ensures |run.national| == |Countries|
    ensures forall j :: 0 <= j < |Countries| ==>
      (run.national[j].Some? <==> exists i :: 0 <= i < |long| && long[i].key.site.country == Countries[j].Code())
    ensures run.global.Ok? <==> GeoTable(long, grid, xrefLines, coarsen).Ok?
  {
    Run(seq(|Countries|, j requires 0 <= j < |Countries| => NationalInventory(long, Countries[j])),
        GlobalInventory(long, grid, xrefLines, coarsen))
  }

  /** `main`, from the detections read in: the long table, then the run.
      The detections, the boundary lookup, the raster, the cross-reference
      lines and the coordinate coarsening are the script's inputs. */
  function Convert(detections: seq<Detection>, locate: (int, int) -> Option<string>, year: int,
                   grid: Grid, xrefLines: seq<string>, coarsen: int -> int): (r: Result<Run>)
    requires 1000 <= year <= 9999
    ensures r.Ok? <==> LongTable(detections, locate, year).Ok?
    ensures r.Err? ==> r.fault == ValueError
  {
    var long := LongTable(detections, locate, year);
    if long.Err? then Err(long.fault) else Ok(RunOf(long.value, grid, xrefLines, coarsen))
  }

  /** The inventory a run writes for target `t`, if any. */
  function Written(run: Run, t: Target): Option<Inventory>
    requires |run.national| == |Countries|
  {
    match t
    case Global => if run.global.Ok? then Some(run.global.value) else None
    case Nation(c) => if c == Unresolved then None else run.national[Slot(c)]
  }

  /** Every inventory a run writes is written for its own target, which has
      an inventory name, so both its files are written. */
  lemma {:induction false} WrittenTargets(long: seq<LongRow>, grid: Grid, xrefLines: seq<string>, coarsen: int -> int,
                       t: Target, workdir: string, prefix: string, year: nat)
    ensures var inv := Written(RunOf(long, grid, xrefLines, coarsen), t);
      inv.Some? ==>
        && inv.value.target == t
        && DailyFile(inv.value, workdir, prefix, year).Ok?
        && AnnualFile(inv.value, workdir, prefix, year).Ok?
  {
    var run := RunOf(long, grid, xrefLines, coarsen);
    InventoryNamesDistinct();
    if t.Nation? && t.c != Unresolved {
      assert run.national[Slot(t.c)] == NationalInventory(long, t.c);
      assert t.c in Countries;
    }
  }

  /** No file of a run overwrites another: the daily file written for one
      target and the annual file written for any target are both written,
      at different paths. */
  lemma {:induction false} RunPathsDistinct(long: seq<LongRow>, grid: Grid, xrefLines: seq<string>, coarsen: int -> int,
                                            workdir: string, prefix: string, year: nat, t1: Target, t2: Target)
    requires Written(RunOf(long, grid, xrefLines, coarsen), t1).Some?
    requires Written(RunOf(long, grid, xrefLines, coarsen), t2).Some?
    ensures && DailyFile(Written(RunOf(long, grid, xrefLines, coarsen), t1).value, workdir, prefix, year).Ok?
            && AnnualFile(Written(RunOf(long, grid, xrefLines, coarsen), t2).value, workdir, prefix, year).Ok?
            && DailyFile(Written(RunOf(long, grid, xrefLines, coarsen), t1).value, workdir, prefix, year).value.path
               != AnnualFile(Written(RunOf(long, grid, xrefLines, coarsen), t2).value, workdir, prefix, year).value.path
  {
    WrittenTargets(long, grid, xrefLines, coarsen, t1, workdir, prefix, year);
    WrittenTargets(long, grid, xrefLines, coarsen, t2, workdir, prefix, year);
    OutputPathsDistinct(workdir, prefix, true, t1, false, t2);
  }

  /** Files of the same kind written for two different targets are at
      different paths. */
  lemma {:induction false} RunPathsDistinctTargets(long: seq<LongRow>, grid: Grid, xrefLines: seq<string>, coarsen: int -> int,
                                                   workdir: string, prefix: string, year: nat, t1: Target, t2: Target)
    requires Written(RunOf(long, grid, xrefLines, coarsen), t1).Some?
    requires Written(RunOf(long, grid, xrefLines, coarsen), t2).Some?
    requires t1 != t2
    ensures && DailyFile(Written(RunOf(long, grid, xrefLines, coarsen), t1).value, workdir, prefix, year).Ok?
            && DailyFile(Written(RunOf(long, grid, xrefLines, coarsen), t2).value, workdir, prefix, year).Ok?
            && DailyFile(Written(RunOf(long, grid, xrefLines, coarsen), t1).value, workdir, prefix, year).value.path
               != DailyFile(Written(RunOf(long, grid, xrefLines, coarsen), t2).value, workdir, prefix, year).value.path
    ensures && AnnualFile(Written(RunOf(long, grid, xrefLines, coarsen), t1).value, workdir, prefix, year).Ok?
            && AnnualFile(Written(RunOf(long, grid, xrefLines, coarsen), t2).value, workdir, prefix, year).Ok?
            && AnnualFile(Written(RunOf(long, grid, xrefLines, coarsen), t1).value, workdir, prefix, year).value.path
               != AnnualFile(Written(RunOf(long, grid, xrefLines, coarsen), t2).value, workdir, prefix, year).value.path
  {
    WrittenTargets(long, grid, xrefLines, coarsen, t1, workdir, prefix, year);
    WrittenTargets(long, grid, xrefLines, coarsen, t2, workdir, prefix, year);
    OutputPathsDistinct(workdir, prefix, true, t1, true, t2);
    OutputPathsDistinct(workdir, prefix, false, t1, false, t2);
  }

  /** The month totals of an inventory's daily table, zero when it is not written. */
  function DailyTotal(o: Option<Inventory>): real {
    if o.None? then 0.0 else Total(DailyPivot(o.value.rows), RowSum())
  }

  /** The annual values of an inventory's annual table, zero when it is not written. */
  function AnnualTotalOf(o: Option<Inventory>): real {
    if o.None? then 0.0 else Total(AnnualTable(o.value.rows), Column(0))
  }

  /** The daily and the annual table of an inventory both carry the whole
      total of its rows. */
  lemma {:induction false} InventoryConserves(inv: Inventory)
    requires DaysInRange(inv.rows)
    ensures DailyTotal(Some(inv)) == Total(inv.rows, Column(0))
    ensures AnnualTotalOf(Some(inv)) == Total(inv.rows, Column(0))
  {
    DailyPivotConserves(inv.rows);
    AnnualTotal(inv.rows);
  }

  /** Every day of a country's selection lies in 1..31 when it does in the whole table. */
  lemma {:induction false} CountryRowsDays(long: seq<LongRow>, c: string)
    requires DaysInRange(long)
    ensures DaysInRange(CountryRows(long, c))
  {
    var rows := CountryRows(long, c);
    forall i | 0 <= i < |rows| ensures 1 <= rows[i].key.site.day <= 31 {
      assert rows[i] in rows;
    }
  }

  /** A national inventory receives exactly its country's share, in both
      its files; a skipped one has no share. */
  lemma {:induction false} NationalShare(long: seq<LongRow>, c: Country)
    requires DaysInRange(long)
    ensures DailyTotal(NationalInventory(long, c)) == CountryTotal(long, c.Code())
    ensures AnnualTotalOf(NationalInventory(long, c)) == CountryTotal(long, c.Code())
  {
    var rows := CountryRows(long, c.Code());
    CountryRowsTotal(long, c.Code());
    if |rows| > 0 {
      CountryRowsDays(long, c.Code());
      InventoryConserves(Inventory(Nation(c), rows));
    }
  }

  /** The global inventory carries, in both its files, the whole total of
      the unresolved rows less the deny-listed regions' share. */
  lemma {:induction false} GlobalShare(long: seq<LongRow>, grid: Grid, xrefLines: seq<string>, coarsen: int -> int)
    requires DaysInRange(long)
    requires GeoTable(long, grid, xrefLines, coarsen).Ok?
    ensures DailyTotal(Some(GlobalInventory(long, grid, xrefLines, coarsen).value))
      + Total(DeniedRows(long, grid, xrefLines, coarsen), Column(0)) == CountryTotal(long, "NA")
    ensures AnnualTotalOf(Some(GlobalInventory(long, grid, xrefLines, coarsen).value))
      + Total(DeniedRows(long, grid, xrefLines, coarsen), Column(0)) == CountryTotal(long, "NA")
  {
    GeoTableShape(long, grid, xrefLines, coarsen);
    GeoTableTotal(long, grid, xrefLines, coarsen);
    InventoryConserves(GlobalInventory(long, grid, xrefLines, coarsen).value);
  }

  /** The month totals of all daily files a run writes. */
  function DailyWritten(run: Run): real
    requires |run.national| == |Countries|
  {
    DailyTotal(run.national[0]) + DailyTotal(run.national[1]) + DailyTotal(run.national[2])
      + DailyTotal(run.national[3]) + (if run.global.Ok? then DailyTotal(Some(run.global.value)) else 0.0)
  }

  /** The annual values of all annual files a run writes. */
  function AnnualWritten(run: Run): real
    requires |run.national| == |Countries|
  {
    AnnualTotalOf(run.national[0]) + AnnualTotalOf(run.national[1]) + AnnualTotalOf(run.national[2])
      + AnnualTotalOf(run.national[3]) + (if run.global.Ok? then AnnualTotalOf(Some(run.global.value)) else 0.0)
  }

  /** Nothing is lost or invented: the daily files of a run and the
      deny-listed regions together account for the whole total of the long
      table. */
  lemma {:induction false} RunConservesDaily(long: seq<LongRow>, grid: Grid, xrefLines: seq<string>, coarsen: int -> int)
    requires DaysInRange(long)
    requires forall i :: 0 <= i < |long| ==> KnownCountry(long[i].key.site.country)
    requires GeoTable(long, grid, xrefLines, coarsen).Ok?
    ensures DailyWritten(RunOf(long, grid, xrefLines, coarsen))
      + Total(DeniedRows(long, grid, xrefLines, coarsen), Column(0)) == Total(long, Column(0))
  {
    CountryPartition(long);
    NationalShare(long, US);
    NationalShare(long, CA);
    NationalShare(long, MX);
    NationalShare(long, ONA);
    GlobalShare(long, grid, xrefLines, coarsen);
  }

  /** The same for the annual files. */
  lemma {:induction false} RunConservesAnnual(long: seq<LongRow>, grid: Grid, xrefLines: seq<string>, coarsen: int -> int)
    requires DaysInRange(long)
    requires forall i :: 0 <= i < |long| ==> KnownCountry(long[i].key.site.country)
    requires GeoTable(long, grid, xrefLines, coarsen).Ok?
    ensures AnnualWritten(RunOf(long, grid, xrefLines, coarsen))
      + Total(DeniedRows(long, grid, xrefLines, coarsen), Column(0)) == Total(long, Column(0))
  {
    CountryPartition(long);
    NationalShare(long, US);
    NationalShare(long, CA);
    NationalShare(long, MX);
    NationalShare(long, ONA);
    GlobalShare(long, grid, xrefLines, coarsen);
  }

  /** The whole conversion: when it completes, the inventories and the
      deny-listed regions account, in the daily and in the annual files
      alike, for the totals of all value columns of the detections read in. */
  lemma {:induction false} ConvertConserves(detections: seq<Detection>, locate: (int, int) -> Option<string>, year: int,
                         grid: Grid, xrefLines: seq<string>, coarsen: int -> int)
    requires 1000 <= year <= 9999
    requires Convert(detections, locate, year, grid, xrefLines, coarsen).Ok?
    requires Convert(detections, locate, year, grid, xrefLines, coarsen).value.global.Ok?
    ensures DailyWritten(Convert(detections, locate, year, grid, xrefLines, coarsen).value)
      + Total(DeniedRows(LongTable(detections, locate, year).value, grid, xrefLines, coarsen), Column(0))
      == TotalUpTo(detections, |ValueColumns|)
    ensures AnnualWritten(Convert(detections, locate, year, grid, xrefLines, coarsen).value)
      + Total(DeniedRows(LongTable(detections, locate, year).value, grid, xrefLines, coarsen), Column(0))
      == TotalUpTo(detections, |ValueColumns|)
  {
    var long := LongTable(detections, locate, year).value;
    ConvertRun(detections, locate, year, grid, xrefLines, coarsen);
    LongTableSites(detections, locate, year);
    LongTableTotal(detections, locate, year);
    RunConservesDaily(long, grid, xrefLines, coarsen);
    RunConservesAnnual(long, grid, xrefLines, coarsen);
  }

  /** A completed conversion is the run of the long table. */
  lemma {:induction false} ConvertRun(detections: seq<Detection>, locate: (int, int) -> Option<string>, year: int,
                   grid: Grid, xrefLines: seq<string>, coarsen: int -> int)
    requires 1000 <= year <= 9999
    requires Convert(detections, locate, year, grid, xrefLines, coarsen).Ok?
    ensures Convert(detections, locate, year, grid, xrefLines, coarsen).value
      == RunOf(LongTable(detections, locate, year).value, grid, xrefLines, coarsen)
  {
  }

  /** The long table's rows all have a day of month and a known country. */
  lemma {:induction false} LongTableSites(detections: seq<Detection>, locate: (int, int) -> Option<string>, year: int)
    requires 1000 <= year <= 9999
    requires LongTable(detections, locate, year).Ok?
    ensures DaysInRange(LongTable(detections, locate, year).value)
    ensures forall i :: 0 <= i < |LongTable(detections, locate, year).value| ==>
      KnownCountry(LongTable(detections, locate, year).value[i].key.site.country)
  {
    var long := LongTable(detections, locate, year).value;
    forall i | 0 <= i < |long| ensures 1 <= long[i].key.site.day <= 31 && KnownCountry(long[i].key.site.country) {
      assert WellFormedSite(long[i].key.site);
    }
  }
}
