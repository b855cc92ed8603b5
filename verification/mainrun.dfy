/** `main` as the script runs it, exceptions included.

    `write_daily_ff10` averages colliding cells (line 183) and raises
    KeyError at line 200 when a day of month has no row anywhere in the
    inventory. Nothing catches that exception, so it ends the whole run: the
    files of the countries already handled stay written, and no later
    country and no global file is written. This module writes that down as a
    trace of the files written before the first exception, next to the
    corrected run of `Convert`, and shows when the two coincide. */
module MainRun {
  import opened Outcomes
  import opened Regions
  import opened Aggregate
  import opened GeoGrid
  import opened Detections
  import opened Daily
  import opened Annual
  import opened GeoBranch
  import opened Ff10
  import opened Convert

  /** Every day of month 1..31 occurs somewhere in the rows, so the pivot
      has all 31 `dayvalN` columns that line 200 selects. */
  predicate AllDaysPresent(rows: seq<LongRow>) {
    forall d :: 1 <= d <= 31 ==> !DayAbsent(rows, d)
  }

  /** The file `write_daily_ff10` writes as the script stands: the averaged
      pivot, a KeyError at line 200 for a missing day column, and only then
      the inventory-name lookup of line 202. */
  function DailyFileAsWritten(inv: Inventory, workdir: string, prefix: string, year: nat): (r: Result<File>)
    ensures r.Ok? <==> AllDaysPresent(inv.rows) && TargetCode(inv.target) in InventoryNames
    ensures r.Err? ==> r.fault == KeyError
    ensures r.Ok? ==> r.value.path == OutputPath(workdir, prefix, true, inv.target)
    ensures r.Ok? ==> r.value.columns == DailyColumns && |r.value.lines| == |PivotMeans(inv.rows)|
  {
    var pivot := DailyPivotAsWritten(inv.rows);
    if pivot.Err? then Err(pivot.fault)
    else
      var header := Ff10.Header(DailyFormat, TargetCode(inv.target), year);
      if header.Err? then Err(header.fault)
      else
        var lines := seq(|pivot.value|, i requires 0 <= i < |pivot.value| => DailyLine(pivot.value[i]));
        Ok(File(OutputPath(workdir, prefix, true, inv.target), header.value, DailyColumns, lines))
  }

  /** As written, day `d` of line `i` is the mean `val` of the inventory's
      rows of that index and day, zero where there are none. */
  lemma {:induction false} DailyFileAsWrittenCells(inv: Inventory, workdir: string, prefix: string, year: nat, i: nat, d: nat)
    requires DailyFileAsWritten(inv, workdir, prefix, year).Ok?
    requires i < |PivotMeans(inv.rows)| && 1 <= d <= 31
    ensures DailyFileAsWritten(inv, workdir, prefix, year).value.lines[i][13 + d] ==
      Num(Mean(CellTotal(inv.rows, PivotMeans(inv.rows)[i].key, d), CellCount(inv.rows, PivotMeans(inv.rows)[i].key, d)))
  {
    DailyLineDay(PivotMeans(inv.rows)[i], d);
    PivotMeansCells(inv.rows, i, d);
  }

  /** With every day present and no two rows in one cell, the script's
      daily file is the corrected one. */
  lemma {:induction false} DailyFileAsWrittenAgrees(inv: Inventory, workdir: string, prefix: string, year: nat)
    requires AllDaysPresent(inv.rows) && NoCollision(inv.rows)
    ensures DailyFileAsWritten(inv, workdir, prefix, year) == DailyFile(inv, workdir, prefix, year)
  {
    PivotMeansWithoutCollision(inv.rows);
  }

  /** The files a run has written, in order, and the exception that ended
      it, if one did. */
  datatype Trace = Trace(files: seq<File>, fault: Option<Fault>)

  /** The daily writer: as the script stands, or with the corrected pivot. */
  function DailyWriter(inv: Inventory, workdir: string, prefix: string, year: nat, asWritten: bool): Result<File> {
    if asWritten then DailyFileAsWritten(inv, workdir, prefix, year) else DailyFile(inv, workdir, prefix, year)
  }

  /** Both writers go through on this inventory, if there is one: its code
      has an inventory name and, as written, no day of month is missing. */
  predicate Ready(o: Option<Inventory>, asWritten: bool) {
    o.None? || (TargetCode(o.value.target) in InventoryNames && (!asWritten || AllDaysPresent(o.value.rows)))
  }

  /** An inventory's two files, daily then annual, with the first exception
      ending the run. */
  function WriteInventory(inv: Inventory, workdir: string, prefix: string, year: nat, asWritten: bool): (t: Trace)
    ensures t.fault.None? <==> Ready(Some(inv), asWritten)
    ensures t.fault.Some? ==> t.fault.value == KeyError
    ensures t.fault.None? ==> |t.files| == 2
    ensures !Ready(Some(inv), asWritten) && asWritten ==> t.files == []
    ensures |t.files| <= 2
    ensures forall i :: 0 <= i < |t.files| ==> t.files[i].path == OutputPath(workdir, prefix, i == 0, inv.target)
  {
    match (DailyWriter(inv, workdir, prefix, year, asWritten), AnnualFile(inv, workdir, prefix, year))
    case (Err(f), _) => Trace([], Some(f))
    case (Ok(daily), Err(f)) => Trace([daily], Some(f))
    case (Ok(daily), Ok(annual)) => Trace([daily, annual], None)
  }

  /** The country loop of lines 24-34 from country `j` on, over the
      countries' inventories (None for a country without rows). The first
      exception ends the loop and the run. */
  function CountryLoop(national: seq<Option<Inventory>>, j: nat, workdir: string, prefix: string, year: nat, asWritten: bool): (t: Trace)
    requires j <= |national|
    ensures t.fault.None? <==> forall k :: j <= k < |national| ==> Ready(national[k], asWritten)
    ensures t.fault.Some? ==> t.fault.value == KeyError
    decreases |national| - j
  {
    if j == |national| then Trace([], None)
    else if national[j].None? then CountryLoop(national, j + 1, workdir, prefix, year, asWritten)
    else
      var here := WriteInventory(national[j].value, workdir, prefix, year, asWritten);
      if here.fault.Some? then here
      else
        var rest := CountryLoop(national, j + 1, workdir, prefix, year, asWritten);
        Trace(here.files + rest.files, rest.fault)
  }

  /** Lines 24-46 on a run's inventories: the country loop, then, if nothing
      has raised, the global branch and its two files. */
  function MainTrace(run: Run, workdir: string, prefix: string, year: nat, asWritten: bool): (t: Trace)
    requires |run.national| == |Countries|
    ensures t.fault.None? <==>
      && (forall k :: 0 <= k < |Countries| ==> Ready(run.national[k], asWritten))
      && run.global.Ok?
      && Ready(Some(run.global.value), asWritten)
    ensures t.fault.Some? ==> t.fault.value == KeyError || (run.global.Err? && t.fault.value == run.global.fault)
  {
    var national := CountryLoop(run.national, 0, workdir, prefix, year, asWritten);
    if national.fault.Some? then national
    else
      match run.global
      case Err(f) => Trace(national.files, Some(f))
      case Ok(inv) =>
        var global := WriteInventory(inv, workdir, prefix, year, asWritten);
        Trace(national.files + global.files, global.fault)
  }

  /** The script as written runs to its end: every inventory it reaches has
      all its day columns, and the global branch goes through. */
  predicate Completes(run: Run)
    requires |run.national| == |Countries|
  {
    && (forall k :: 0 <= k < |Countries| ==> Ready(run.national[k], true))
    && run.global.Ok?
    && Ready(Some(run.global.value), true)
  }

  /** The whole script as written: the long table, whose construction may
      raise ValueError, then the run with the script's daily writer. */
  function Script(detections: seq<Detection>, locate: (int, int) -> Option<string>, year: int,
                  grid: Grid, xrefLines: seq<string>, coarsen: int -> int,
                  workdir: string, prefix: string): (t: Trace)
    requires 1000 <= year <= 9999
    ensures Convert.Convert(detections, locate, year, grid, xrefLines, coarsen).Err? ==> t == Trace([], Some(ValueError))
    ensures Convert.Convert(detections, locate, year, grid, xrefLines, coarsen).Ok? ==>
      (t.fault.None? <==> Completes(Convert.Convert(detections, locate, year, grid, xrefLines, coarsen).value))
  {
    var run := Convert.Convert(detections, locate, year, grid, xrefLines, coarsen);
    if run.Err? then Trace([], Some(run.fault))
    else MainTrace(run.value, workdir, prefix, year, true)
  }

  /** The two files of an inventory by the corrected writers, none for a
      skipped inventory. */
  function InventoryFiles(o: Option<Inventory>, workdir: string, prefix: string, year: nat): seq<File> {
    if o.None? then []
    else
      var d := DailyFile(o.value, workdir, prefix, year);
      var a := AnnualFile(o.value, workdir, prefix, year);
      if d.Ok? && a.Ok? then [d.value, a.value] else []
  }

  /** The corrected files of the national inventories from `j` on. */
  function NationalFiles(national: seq<Option<Inventory>>, j: nat, workdir: string, prefix: string, year: nat): seq<File>
    requires j <= |national|
    decreases |national| - j
  {
    if j == |national| then []
    else InventoryFiles(national[j], workdir, prefix, year) + NationalFiles(national, j + 1, workdir, prefix, year)
  }

  /** The files of a corrected run, in the order `main` writes them. */
  function RunFiles(run: Run, workdir: string, prefix: string, year: nat): seq<File> {
    NationalFiles(run.national, 0, workdir, prefix, year)
      + (if run.global.Ok? then InventoryFiles(Some(run.global.value), workdir, prefix, year) else [])
  }

  /** Every inventory of the run has an inventory name. */
  predicate Named(run: Run) {
    && (forall k :: 0 <= k < |run.national| ==> Ready(run.national[k], false))
    && (run.global.Ok? ==> Ready(Some(run.global.value), false))
  }

  /** The run of a long table has a name for every inventory, and its
      national inventories are those of the four countries in list order. */
  lemma {:induction false} RunOfNamed(long: seq<LongRow>, grid: Grid, xrefLines: seq<string>, coarsen: int -> int)
    ensures Named(RunOf(long, grid, xrefLines, coarsen))
    ensures forall k :: 0 <= k < |Countries| && RunOf(long, grid, xrefLines, coarsen).national[k].Some? ==>
      RunOf(long, grid, xrefLines, coarsen).national[k].value.target == Nation(Countries[k])
  {
    var run := RunOf(long, grid, xrefLines, coarsen);
    InventoryNamesDistinct();
    forall k | 0 <= k < |Countries|
      ensures Ready(run.national[k], false)
      ensures run.national[k].Some? ==> run.national[k].value.target == Nation(Countries[k])
    {
      assert run.national[k] == NationalInventory(long, Countries[k]);
      assert Countries[k] in Countries;
    }
  }

  /** With the corrected pivot, a named run's country loop never raises and
      writes each country's two files in turn. */
  lemma {:induction false} CorrectedLoop(national: seq<Option<Inventory>>, j: nat, workdir: string, prefix: string, year: nat)
    requires j <= |national|
    requires forall k :: j <= k < |national| ==> Ready(national[k], false)
    ensures CountryLoop(national, j, workdir, prefix, year, false) == Trace(NationalFiles(national, j, workdir, prefix, year), None)
    decreases |national| - j
  {
    if j < |national| {
      CorrectedLoop(national, j + 1, workdir, prefix, year);
    }
  }

  /** The corrected trace of a named run writes exactly the files of the
      run, and fails only where the global branch does. */
  lemma {:induction false} CorrectedTraceFiles(run: Run, workdir: string, prefix: string, year: nat)
    requires |run.national| == |Countries| && Named(run)
    ensures MainTrace(run, workdir, prefix, year, false).fault.None? <==> run.global.Ok?
    ensures MainTrace(run, workdir, prefix, year, false).files == RunFiles(run, workdir, prefix, year)
  {
    CorrectedLoop(run.national, 0, workdir, prefix, year);
  }

  /** The inventory has no missing day and no two rows in one cell. */
  predicate Clean(o: Option<Inventory>) {
    o.None? || (AllDaysPresent(o.value.rows) && NoCollision(o.value.rows))
  }

  /** Where every inventory is clean, the script's country loop is the
      corrected one. */
  lemma {:induction false} CountryLoopAgrees(national: seq<Option<Inventory>>, j: nat, workdir: string, prefix: string, year: nat)
    requires j <= |national|
    requires forall k :: j <= k < |national| ==> Clean(national[k])
    ensures CountryLoop(national, j, workdir, prefix, year, true) == CountryLoop(national, j, workdir, prefix, year, false)
    decreases |national| - j
  {
    if j < |national| {
      CountryLoopAgrees(national, j + 1, workdir, prefix, year);
      if national[j].Some? {
        DailyFileAsWrittenAgrees(national[j].value, workdir, prefix, year);
      }
    }
  }

  /** Where every inventory the run reaches is clean, the script writes
      exactly what the corrected run writes. */
  lemma {:induction false} MainTraceAgrees(run: Run, workdir: string, prefix: string, year: nat)
    requires |run.national| == |Countries|
    requires forall k :: 0 <= k < |Countries| ==> Clean(run.national[k])
    requires run.global.Ok? ==> Clean(Some(run.global.value))
    ensures MainTrace(run, workdir, prefix, year, true) == MainTrace(run, workdir, prefix, year, false)
  {
    CountryLoopAgrees(run.national, 0, workdir, prefix, year);
    if run.global.Ok? {
      DailyFileAsWrittenAgrees(run.global.value, workdir, prefix, year);
    }
  }

  /** The inventories of a run sit at their countries' places. */
  predicate Placed(national: seq<Option<Inventory>>) {
    forall m :: 0 <= m < |national| && m < |Countries| && national[m].Some? ==> national[m].value.target == Nation(Countries[m])
  }

  /** The path is one of country `c`'s two files. */
  predicate CountryFile(path: string, workdir: string, prefix: string, c: Country) {
    path == OutputPath(workdir, prefix, true, Nation(c)) || path == OutputPath(workdir, prefix, false, Nation(c))
  }

  /** A file of one country is at no path of another country, nor at a
      global path. */
  lemma CountryFileApart(path: string, workdir: string, prefix: string, c: Country, other: Target, daily: bool)
    requires CountryFile(path, workdir, prefix, c)
    requires c != Unresolved && other != Nation(Unresolved) && other != Nation(c)
    ensures path != OutputPath(workdir, prefix, daily, other)
  {
    OutputPathsDistinct(workdir, prefix, true, Nation(c), daily, other);
    OutputPathsDistinct(workdir, prefix, false, Nation(c), daily, other);
  }

  /** As written, once the loop meets a country whose daily pivot lacks a
      day, it raises KeyError. */
  lemma {:induction false} LoopAbort(national: seq<Option<Inventory>>, j: nat, k: nat, workdir: string, prefix: string, year: nat)
    requires j <= k < |national|
    requires national[k].Some? && !Ready(national[k], true)
    ensures CountryLoop(national, j, workdir, prefix, year, true).fault == Some(KeyError)
    decreases k - j
  {
    if j < k {
      LoopAbort(national, j + 1, k, workdir, prefix, year);
    }
  }

  /** As written, every file the loop has written by then belongs to a
      country before the one that raised. */
  lemma {:induction false} LoopAbortFiles(national: seq<Option<Inventory>>, j: nat, k: nat, i: nat,
                                          workdir: string, prefix: string, year: nat)
    requires |national| == |Countries| && Placed(national)
    requires j <= k < |national|
    requires national[k].Some? && !Ready(national[k], true)
    requires i < |CountryLoop(national, j, workdir, prefix, year, true).files|
    ensures exists m :: j <= m < k && CountryFile(CountryLoop(national, j, workdir, prefix, year, true).files[i].path, workdir, prefix, Countries[m])
    decreases k - j
  {
    var t := CountryLoop(national, j, workdir, prefix, year, true);
    if j == k {
      assert false;
    } else if national[j].None? {
      LoopAbortFiles(national, j + 1, k, i, workdir, prefix, year);
    } else {
      var here := WriteInventory(national[j].value, workdir, prefix, year, true);
      if i < |here.files| {
        assert t.files[i] == here.files[i];
        assert CountryFile(t.files[i].path, workdir, prefix, Countries[j]);
      } else {
        var rest := CountryLoop(national, j + 1, workdir, prefix, year, true);
        assert t.files[i] == rest.files[i - |here.files|];
        LoopAbortFiles(national, j + 1, k, i - |here.files|, workdir, prefix, year);
      }
    }
  }

  /** A file of a country before `k` is at no path of country `k` or a
      later one, nor at a global path. */
  lemma EarlierFileApart(path: string, workdir: string, prefix: string, k: nat)
    requires k <= |Countries|
    requires exists m :: 0 <= m < k && CountryFile(path, workdir, prefix, Countries[m])
    ensures forall m, daily: bool :: k <= m < |Countries| ==> path != OutputPath(workdir, prefix, daily, Nation(Countries[m]))
    ensures forall daily: bool :: path != OutputPath(workdir, prefix, daily, Global)
  {
    var m' :| 0 <= m' < k && CountryFile(path, workdir, prefix, Countries[m']);
    forall m, daily: bool | k <= m < |Countries|
      ensures path != OutputPath(workdir, prefix, daily, Nation(Countries[m]))
    {
      CountryFileApart(path, workdir, prefix, Countries[m'], Nation(Countries[m]), daily);
    }
    forall daily: bool ensures path != OutputPath(workdir, prefix, daily, Global) {
      CountryFileApart(path, workdir, prefix, Countries[m'], Global, daily);
    }
  }

  /** As written, a country whose inventory lacks a day of month stops the
      run: no file of that country or of a later one is written, and no
      global file. */
  lemma {:induction false} NationalAbort(run: Run, k: nat, workdir: string, prefix: string, year: nat)
    requires |run.national| == |Countries| && Placed(run.national)
    requires k < |Countries| && run.national[k].Some? && !Ready(run.national[k], true)
    ensures MainTrace(run, workdir, prefix, year, true).fault == Some(KeyError)
    ensures forall i, m, daily: bool :: 0 <= i < |MainTrace(run, workdir, prefix, year, true).files| && k <= m < |Countries| ==>
      MainTrace(run, workdir, prefix, year, true).files[i].path != OutputPath(workdir, prefix, daily, Nation(Countries[m]))
    ensures forall i, daily: bool :: 0 <= i < |MainTrace(run, workdir, prefix, year, true).files| ==>
      MainTrace(run, workdir, prefix, year, true).files[i].path != OutputPath(workdir, prefix, daily, Global)
  {
    LoopAbort(run.national, 0, k, workdir, prefix, year);
    var files := CountryLoop(run.national, 0, workdir, prefix, year, true).files;
    assert MainTrace(run, workdir, prefix, year, true).files == files;
    forall i | 0 <= i < |files|
      ensures forall m, daily: bool :: k <= m < |Countries| ==> files[i].path != OutputPath(workdir, prefix, daily, Nation(Countries[m]))
      ensures forall daily: bool :: files[i].path != OutputPath(workdir, prefix, daily, Global)
    {
      LoopAbortFiles(run.national, 0, k, i, workdir, prefix, year);
      EarlierFileApart(files[i].path, workdir, prefix, k);
    }
  }

  /** A long table of US fires all on one day of the month ends the script
      before it writes anything: the US inventory comes first and lacks the
      other days, so line 200 raises. */
  lemma {:induction false} OneDayAborts(long: seq<LongRow>, day: nat, grid: Grid, xrefLines: seq<string>, coarsen: int -> int,
                                        workdir: string, prefix: string, year: nat)
    requires |long| > 0
    requires forall i :: 0 <= i < |long| ==> long[i].key.site.country == "US" && long[i].key.site.day == day
    ensures MainTrace(RunOf(long, grid, xrefLines, coarsen), workdir, prefix, year, true) == Trace([], Some(KeyError))
  {
    var run := RunOf(long, grid, xrefLines, coarsen);
    var o := run.national[0];
    assert o == NationalInventory(long, US);
    assert long[0].key.site.country == US.Code();
    var rows := o.value.rows;
    var d := if day == 1 then 2 else 1;
    forall i | 0 <= i < |rows| ensures rows[i].key.site.day != d {
      assert rows[i] in rows;
    }
    assert DayAbsent(rows, d);
    assert !Ready(o, true);
  }

  /** Where the long table can be built, the script is the as-written run
      of it. */
  lemma {:induction false} ScriptRuns(detections: seq<Detection>, locate: (int, int) -> Option<string>, year: int,
                                      grid: Grid, xrefLines: seq<string>, coarsen: int -> int,
                                      workdir: string, prefix: string)
    requires 1000 <= year <= 9999
    requires LongTable(detections, locate, year).Ok?
    ensures Script(detections, locate, year, grid, xrefLines, coarsen, workdir, prefix) ==
      MainTrace(RunOf(LongTable(detections, locate, year).value, grid, xrefLines, coarsen), workdir, prefix, year, true)
  {
    ConvertRun(detections, locate, year, grid, xrefLines, coarsen);
  }

  /** A single detection that the boundary lookup places in the US ends the
      script with KeyError before any file is written: its thirteen long rows
      share one site, hence one day of the month. */
  lemma {:induction false} OneFireAborts(detection: Detection, locate: (int, int) -> Option<string>, year: int,
                                         grid: Grid, xrefLines: seq<string>, coarsen: int -> int,
                                         workdir: string, prefix: string)
    requires 1000 <= year <= 9999
    requires LongTable([detection], locate, year).Ok?
    requires forall i :: 0 <= i < |LongTable([detection], locate, year).value| ==>
      LongTable([detection], locate, year).value[i].key.site.country == "US"
    ensures Script([detection], locate, year, grid, xrefLines, coarsen, workdir, prefix) == Trace([], Some(KeyError))
  {
    var long := LongTable([detection], locate, year).value;
    OneDetectionOneSite(detection, locate, year);
    OneDayAborts(long, long[0].key.site.day, grid, xrefLines, coarsen, workdir, prefix, year);
    ScriptRuns([detection], locate, year, grid, xrefLines, coarsen, workdir, prefix);
  }

  /** The script as written, where it runs to its end and no inventory has
      two rows in one cell, writes exactly the files of the corrected run,
      so they account for the whole total of the detections read in. */
  lemma {:induction false} ScriptConserves(detections: seq<Detection>, locate: (int, int) -> Option<string>, year: int,
                                           grid: Grid, xrefLines: seq<string>, coarsen: int -> int,
                                           workdir: string, prefix: string)
    requires 1000 <= year <= 9999
    requires Script(detections, locate, year, grid, xrefLines, coarsen, workdir, prefix).fault.None?
    requires Convert.Convert(detections, locate, year, grid, xrefLines, coarsen).Ok? ==>
      forall inv :: inv in Convert.Convert(detections, locate, year, grid, xrefLines, coarsen).value.national
        ==> Clean(inv)
    requires
      && Convert.Convert(detections, locate, year, grid, xrefLines, coarsen).Ok?
      && Convert.Convert(detections, locate, year, grid, xrefLines, coarsen).value.global.Ok?
      ==> Clean(Some(Convert.Convert(detections, locate, year, grid, xrefLines, coarsen).value.global.value))
    ensures Convert.Convert(detections, locate, year, grid, xrefLines, coarsen).Ok?
    ensures Script(detections, locate, year, grid, xrefLines, coarsen, workdir, prefix).files
      == RunFiles(Convert.Convert(detections, locate, year, grid, xrefLines, coarsen).value, workdir, prefix, year)
    ensures DailyWritten(Convert.Convert(detections, locate, year, grid, xrefLines, coarsen).value)
      + Total(DeniedRows(LongTable(detections, locate, year).value, grid, xrefLines, coarsen), Column(0))
      == TotalUpTo(detections, |ValueColumns|)
  {
    var run := Convert.Convert(detections, locate, year, grid, xrefLines, coarsen).value;
    ConvertRun(detections, locate, year, grid, xrefLines, coarsen);
    RunOfNamed(LongTable(detections, locate, year).value, grid, xrefLines, coarsen);
    forall k | 0 <= k < |Countries| ensures Clean(run.national[k]) {
      assert run.national[k] in run.national;
    }
    MainTraceAgrees(run, workdir, prefix, year);
    CorrectedTraceFiles(run, workdir, prefix, year);
    ConvertConserves(detections, locate, year, grid, xrefLines, coarsen);
  }
}
