/** The FF10 files the two writers produce: a three-line header, then one
    comma-separated line per table row, whose cells follow the writer's fixed
    column list. A row is built as a record of named columns; every listed
    column the record lacks is added empty before the columns are written in
    list order. Number formatting and CSV quoting are not modelled: a line
    is the sequence of its cells. */
module Ff10 {
  import opened Outcomes
  import opened Text
  import opened Calendar
  import opened Regions
  import opened Aggregate
  import opened Daily
  import opened Annual
  import opened Detections

  /** A cell of an output table. */
  datatype Field = Str(s: string) | Num(x: real) | Whole(n: int)

  /** The empty cell `''`. */
  const Blank: Field := Str("")

  /** The columns of the two FF10 files. Each constructor is spelled as its
      column header; `dayval(d)` is the daily column `DayLabel(d)`. */
  datatype ColumnName =
      country_cd | region_cd | tribal_code | facility_id | unit_id | rel_point_id | process_id
    | agy_facility_id | agy_unit_id | agy_rel_point_id | agy_process_id | scc | poll
    | ann_value | ann_pct_red | facility_name | erptype | stkhgt | stkdiam | stktemp | stkflow
    | stkvel | naics | longitude | latitude | ll_datum | horiz_coll_mthd | design_capacity
    | design_capacity_units | reg_codes | fac_source_type | unit_type_code | control_ids
    | control_measures | current_cost | cumulative_cost | projection_factor | submitter_id
    | calc_method | data_set_id | facil_category_code | oris_facility_code | oris_boiler_id
    | ipm_yn | calc_year | date_updated | fug_height | fug_width_xdim | fug_length_ydim
    | fug_angle | zipcode | annual_avg_hours_per_year | jan_value | feb_value | mar_value
    | apr_value | may_value | jun_value | jul_value | aug_value | sep_value | oct_value
    | nov_value | dec_value | jan_pctred | feb_pctred | mar_pctred | apr_pctred | may_pctred
    | jun_pctred | jul_pctred | aug_pctred | sep_pctred | oct_pctred | nov_pctred | dec_pctred
    | comment | op_type_cd | monthnum | monthtot
    | dayval(d: nat)

  /** A table row as its named columns. */
  type Record = map<ColumnName, Field>

  /** `for col in out_cols: if col not in columns: df[col] = ''`: every
      listed column is present afterwards, the columns already there keep
      their cells, and the columns added are listed ones, empty. */
  function Complete(rec: Record, cols: seq<ColumnName>): (out: Record)
    ensures forall c :: c in cols ==> c in out
    ensures forall c :: c in rec ==> c in out && out[c] == rec[c]
    ensures forall c :: c in out && c !in rec ==> c in cols && out[c] == Blank
  {
    if |cols| == 0 then rec
    else
      var before := Complete(rec, cols[..|cols| - 1]);
      var c := cols[|cols| - 1];
      if c in before then before else before[c := Blank]
  }

  /** Completing twice adds nothing more, and a record that already has every
      listed column is left as it is. */
  lemma CompleteSettles(rec: Record, cols: seq<ColumnName>)
    ensures Complete(Complete(rec, cols), cols) == Complete(rec, cols)
    ensures (forall c :: c in cols ==> c in rec) ==> Complete(rec, cols) == rec
  {
    var once := Complete(rec, cols);
    assert Complete(once, cols).Keys == once.Keys;
    if forall c :: c in cols ==> c in rec {
      assert once.Keys == rec.Keys;
    }
  }

  /** A record's cell in column `c`, empty when it has no such column. */
  function Lookup(rec: Record, c: ColumnName): Field {
    if c in rec then rec[c] else Blank
  }

  /** `for col in null_cols: df[col] = ''`: the listed columns are set
      empty, whatever they held; the others keep their cells. */
  function SetEmpty(rec: Record, cols: seq<ColumnName>): Record
    decreases |cols|
  {
    if |cols| == 0 then rec else SetEmpty(rec[cols[0] := Blank], cols[1..])
  }

  /** The cell of column `c` after setting `cols` empty. */
  lemma {:induction false} SetEmptyAt(rec: Record, cols: seq<ColumnName>, c: ColumnName)
    ensures Lookup(SetEmpty(rec, cols), c) == if c in cols then Blank else Lookup(rec, c)
    decreases |cols|
  {
    if |cols| > 0 {
      SetEmptyAt(rec[cols[0] := Blank], cols[1..], c);
      assert c in cols <==> c == cols[0] || c in cols[1..];
    }
  }

  /** `to_csv(columns=out_cols)` for one row: its cells in column order. */
  function Line(rec: Record, cols: seq<ColumnName>): seq<Field>
    requires forall c :: c in cols ==> c in rec
  {
    seq(|cols|, i requires 0 <= i < |cols| => rec[cols[i]])
  }

  /** A row completed with `cols` and written in their order: one cell per
      listed column, the record's own cell where it has the column and an
      empty one where it has not. */
  function CsvLine(rec: Record, cols: seq<ColumnName>): (line: seq<Field>)
    ensures |line| == |cols|
    ensures forall i {:trigger line[i]} :: 0 <= i < |cols| ==> line[i] == Lookup(rec, cols[i])
  {
    Line(Complete(rec, cols), cols)
  }

  /** The day columns of days 1..`n`, in order. */
  function DayColumnsUpTo(n: nat): (cols: seq<ColumnName>)
    ensures |cols| == n
    ensures forall j :: 0 <= j < n ==> cols[j] == dayval(j + 1)
  {
    if n == 0 then [] else DayColumnsUpTo(n - 1) + [dayval(n)]
  }

  /** The day columns `dayval1` .. `dayval31`. */
  const DayColumns: seq<ColumnName> := DayColumnsUpTo(31)

  /** The columns of the daily file ahead of the day columns, in order. */
  const DailyLead: seq<ColumnName> :=
    [country_cd, region_cd, tribal_code, facility_id, unit_id, rel_point_id, process_id, scc,
     poll, op_type_cd, calc_method, date_updated, monthnum, monthtot]

  /** The columns of the daily file, in order. */
  const DailyColumns: seq<ColumnName> := DailyLead + DayColumns + [comment]

  /** The columns the daily writer sets empty. */
  const DailyNullColumns: seq<ColumnName> := [tribal_code, op_type_cd, calc_method, date_updated, comment]

  /** `facility_id.str[6:]`, the release point. */
  function RelPoint(facility: string): string {
    From(facility, 6)
  }

  /** The day cells of a pivot row: day `d` in column `dayval(d)`. */
  function DayCells(vals: seq<real>): map<ColumnName, Field> {
    map d: nat | 1 <= d <= 31 :: dayval(d) := Num(At(vals, d - 1))
  }

  /** The index columns of a pivot row, with `monthtot` and `rel_point_id`. */
  function DailyIds(r: DailyRow): Record {
    var k := r.key;
    map[
      country_cd := Str(k.country), region_cd := Str(k.region),
      facility_id := Str(k.facility), scc := Str(k.scc), poll := Str(k.poll),
      monthnum := Whole(k.month), process_id := Str(k.process), unit_id := Str(k.unit),
      monthtot := Num(MonthTotal(r)), rel_point_id := Str(RelPoint(k.facility))]
  }

  /** The columns of a pivot row before the empty ones are set: the index
      columns, the day columns, `monthtot` and `rel_point_id`. */
  function DailyBase(r: DailyRow): Record {
    DailyIds(r) + DayCells(r.vals)
  }

  /** The record of one pivot row after lines 184-190. */
  function DailyRecord(r: DailyRow): Record {
    SetEmpty(DailyBase(r), DailyNullColumns)
  }

  /** What each column of a daily FF10 line holds for a pivot row: the
      index columns, the release point, the month total and the day values;
      every other column is empty. */
  function DailyCell(r: DailyRow, c: ColumnName): Field {
    if c == country_cd then Str(r.key.country)
    else if c == region_cd then Str(r.key.region)
    else if c == facility_id then Str(r.key.facility)
    else if c == unit_id then Str(r.key.unit)
    else if c == rel_point_id then Str(RelPoint(r.key.facility))
    else if c == process_id then Str(r.key.process)
    else if c == scc then Str(r.key.scc)
    else if c == poll then Str(r.key.poll)
    else if c == monthnum then Whole(r.key.month)
    else if c == monthtot then Num(MonthTotal(r))
    else if c.dayval? && 1 <= c.d <= 31 then Num(At(r.vals, c.d - 1))
    else Blank
  }

  /** The columns a pivot row sets apart from the day columns. */
  predicate IsDailyId(c: ColumnName) {
    c == country_cd || c == region_cd || c == facility_id || c == unit_id || c == rel_point_id
    || c == process_id || c == scc || c == poll || c == monthnum || c == monthtot
  }

  /** The index cells, `monthtot` and `rel_point_id` of a pivot row. */
  lemma DailyIdCells(r: DailyRow, c: ColumnName)
    requires c == country_cd || c == region_cd || c == facility_id || c == unit_id || c == rel_point_id
          || c == process_id || c == scc || c == poll || c == monthnum || c == monthtot
    ensures Lookup(DailyIds(r), c) == DailyCell(r, c)
  {
  }

  /** A column the daily writer never sets has no cell among the identifiers. */
  lemma DailyOtherCell(r: DailyRow, c: ColumnName)
    requires !c.dayval? && !IsDailyId(c)
    ensures Lookup(DailyIds(r), c) == Blank == DailyCell(r, c)
  {
  }

  /** A column other than a day column is looked up among the identifiers. */
  lemma BaseWithoutDays(r: DailyRow, c: ColumnName)
    requires !c.dayval?
    ensures Lookup(DailyBase(r), c) == Lookup(DailyIds(r), c)
  {
  }

  /** A day of the month has its value in the daily record's base. */
  lemma DayInBase(r: DailyRow, d: nat)
    requires 1 <= d <= 31
    ensures Lookup(DailyBase(r), dayval(d)) == Num(At(r.vals, d - 1))
  {
  }

  /** No other day has a column in the daily record's base. */
  lemma DayOutsideBase(r: DailyRow, d: nat)
    requires !(1 <= d <= 31)
    ensures Lookup(DailyBase(r), dayval(d)) == Blank
  {
  }

  /** The daily cell of a day column. */
  lemma DayCell(r: DailyRow, d: nat)
    ensures DailyCell(r, dayval(d)) == if 1 <= d <= 31 then Num(At(r.vals, d - 1)) else Blank
  {
  }

  /** The day cells of the daily record's base. */
  lemma DailyDayCell(r: DailyRow, d: nat)
    ensures Lookup(DailyBase(r), dayval(d)) == DailyCell(r, dayval(d))
  {
    DayCell(r, d);
    if 1 <= d <= 31 {
      DayInBase(r, d);
    } else {
      DayOutsideBase(r, d);
    }
  }

  /** The record the writer builds agrees, column by column, with the daily
      cells. */
  lemma DailyRecordCell(r: DailyRow, c: ColumnName)
    ensures Lookup(DailyRecord(r), c) == DailyCell(r, c)
  {
    SetEmptyAt(DailyBase(r), DailyNullColumns, c);
    if c in DailyNullColumns {
      assert c == tribal_code || c == op_type_cd || c == calc_method || c == date_updated || c == comment;
    } else if c.dayval? {
      DailyDayCell(r, c.d);
    } else {
      BaseWithoutDays(r, c);
      if IsDailyId(c) {
        DailyIdCells(r, c);
      } else {
        DailyOtherCell(r, c);
      }
    }
  }

  /** The line the daily file holds for one pivot row. */
  function DailyLine(r: DailyRow): seq<Field> {
    CsvLine(DailyRecord(r), DailyColumns)
  }

  /** Where the month and day columns sit in the daily column list: the
      month total in cell 13, day `d` in cell `13 + d`, the comment last. */
  lemma DailyColumnsAt()
    ensures |DailyColumns| == 46
    ensures DailyColumns[13] == monthtot && DailyColumns[45] == comment
    ensures forall j :: 14 <= j < 45 ==> DailyColumns[j] == dayval(j - 13)
  {
    forall j | 14 <= j < 45 ensures DailyColumns[j] == dayval(j - 13) {
      assert DailyColumns[j] == DayColumns[j - 14];
    }
  }

  /** A daily line has the 46 cells of the format, each the daily cell of
      its column. */
  lemma DailyLineCells(r: DailyRow)
    ensures |DailyLine(r)| == |DailyColumns| == 46
    ensures forall i :: 0 <= i < 46 ==> DailyLine(r)[i] == DailyCell(r, DailyColumns[i])
  {
    DailyColumnsAt();
    forall i | 0 <= i < 46 ensures DailyLine(r)[i] == DailyCell(r, DailyColumns[i]) {
      DailyRecordCell(r, DailyColumns[i]);
    }
  }

  /** Cell 13 of a daily line is the month total of its row. */
  lemma DailyLineMonth(r: DailyRow)
    ensures DailyLine(r)[13] == Num(MonthTotal(r))
  {
    DailyColumnsAt();
    DailyLineCells(r);
  }

  /** Cell `13 + d` of a daily line holds the row's value for day `d`. */
  lemma DailyLineDay(r: DailyRow, d: nat)
    requires 1 <= d <= 31
    ensures DailyLine(r)[13 + d] == Num(At(r.vals, d - 1))
  {
    DailyColumnsAt();
    DailyLineCells(r);
    DayCell(r, d);
    assert DailyColumns[13 + d] == dayval(d);
  }

  /** In a line of the corrected daily table, day `d` (cell `13 + d`) is the
      summed `val` of the long rows of that row and day, and the month total (cell 13) is the summed
      `val` of all its long rows. */
  lemma DailyInventoryCells(rows: seq<LongRow>, i: nat, d: nat)
    requires DaysInRange(rows) && i < |DailyPivot(rows)| && 1 <= d <= 31
    ensures DailyLine(DailyPivot(rows)[i])[13 + d] == Num(CellTotal(rows, DailyPivot(rows)[i].key, d))
    ensures DailyLine(DailyPivot(rows)[i])[13] ==
      Num(Total(rows, SelectColumn(InRow(DailyPivot(rows)[i].key), 0)))
  {
    var r := DailyPivot(rows)[i];
    DailyLineDay(r, d);
    DailyPivotCells(rows, i, d);
    DailyLineMonth(r);
    DailyPivotMonthTotal(rows, i);
  }

  /* The annual column lists, written in parts of at most sixteen. */
  const AnnualColumnsA: seq<ColumnName> :=
    [country_cd, region_cd, tribal_code, facility_id, unit_id, rel_point_id, process_id,
     agy_facility_id, agy_unit_id, agy_rel_point_id, agy_process_id, scc, poll, ann_value,
     ann_pct_red, facility_name]
  const AnnualColumnsB: seq<ColumnName> :=
    [erptype, stkhgt, stkdiam, stktemp, stkflow, stkvel, naics, longitude, latitude, ll_datum,
     horiz_coll_mthd, design_capacity, design_capacity_units, reg_codes, fac_source_type,
     unit_type_code]
  const AnnualColumnsC: seq<ColumnName> :=
    [control_ids, control_measures, current_cost, cumulative_cost, projection_factor,
     submitter_id, calc_method, data_set_id, facil_category_code, oris_facility_code,
     oris_boiler_id, ipm_yn, calc_year, date_updated, fug_height, fug_width_xdim]
  const AnnualColumnsD: seq<ColumnName> :=
    [fug_length_ydim, fug_angle, zipcode, annual_avg_hours_per_year, jan_value, feb_value,
     mar_value, apr_value, may_value, jun_value, jul_value, aug_value, sep_value, oct_value,
     nov_value, dec_value]
  const AnnualColumnsE: seq<ColumnName> :=
    [jan_pctred, feb_pctred, mar_pctred, apr_pctred, may_pctred, jun_pctred, jul_pctred,
     aug_pctred, sep_pctred, oct_pctred, nov_pctred, dec_pctred, comment]

  /** The columns of the annual file, in order. */
  const AnnualColumns: seq<ColumnName> :=
    AnnualColumnsA + AnnualColumnsB + AnnualColumnsC + AnnualColumnsD + AnnualColumnsE

  const AnnualNullsA: seq<ColumnName> :=
    [tribal_code, agy_facility_id, agy_unit_id, agy_rel_point_id, agy_process_id, ann_pct_red,
     erptype, naics, ll_datum, stkhgt, stkdiam, stktemp, stkflow, stkvel, horiz_coll_mthd,
     design_capacity]
  const AnnualNullsB: seq<ColumnName> :=
    [design_capacity_units, reg_codes, fac_source_type, unit_type_code, control_ids,
     control_measures, current_cost, cumulative_cost, projection_factor, submitter_id,
     calc_method, facil_category_code, oris_facility_code, oris_boiler_id, ipm_yn,
     date_updated]
  const AnnualNullsC: seq<ColumnName> :=
    [fug_height, fug_width_xdim, fug_length_ydim, fug_angle, zipcode,
     annual_avg_hours_per_year, jan_value, feb_value, mar_value, apr_value, may_value,
     jun_value, jul_value, aug_value, sep_value, oct_value]
  const AnnualNullsD: seq<ColumnName> :=
    [nov_value, dec_value, jan_pctred, feb_pctred, mar_pctred, apr_pctred, may_pctred,
     jun_pctred, jul_pctred, aug_pctred, sep_pctred, oct_pctred, nov_pctred, dec_pctred,
     comment]

  /** The columns the annual writer sets empty, after it has set some. */
  const AnnualNullColumns: seq<ColumnName> := AnnualNullsA + AnnualNullsB + AnnualNullsC + AnnualNullsD

  /** The stack parameters, which the annual writer first sets to "1". */
  const StackColumns: set<ColumnName> := {stkhgt, stkdiam, stktemp, stkflow, stkvel}

  /** The annual columns that end up holding a value. */
  const AnnualFilled: set<ColumnName> :=
    {country_cd, region_cd, facility_id, scc, poll, process_id, latitude, longitude, unit_id,
     ann_value, rel_point_id, facility_name, data_set_id, calc_year}

  /** The columns the annual writer derives from a grouped row, before the
      empty columns are set. */
  function AnnualDerived(r: AnnualRow, year: nat): Record {
    var k := r.key;
    map[
      country_cd := Str(k.country), region_cd := Str(k.region),
      facility_id := Str(k.facility), scc := Str(k.scc), poll := Str(k.poll),
      process_id := Str(k.process), latitude := Whole(k.lat), longitude := Whole(k.lon),
      unit_id := Str(k.unit), ann_value := Num(At(r.vals, 0)),
      rel_point_id := Str(RelPoint(k.facility)),
      stkhgt := Str("1"), stkdiam := Str("1"), stktemp := Str("1"),
      stkflow := Str("1"), stkvel := Str("1"),
      facility_name := Str(k.facility), data_set_id := Str("EPA_FINN"),
      calc_year := Str(Digits(year))]
  }

  /** The record of one annual row after lines 216-240: the derived columns,
      then the empty ones, which overwrite the stack parameters. */
  function AnnualRecord(r: AnnualRow, year: nat): Record {
    SetEmpty(AnnualDerived(r, year), AnnualNullColumns)
  }

  lemma FilledApartA() ensures forall c :: c in AnnualFilled ==> c !in AnnualNullsA {}
  lemma FilledApartB() ensures forall c :: c in AnnualFilled ==> c !in AnnualNullsB {}
  lemma FilledApartC() ensures forall c :: c in AnnualFilled ==> c !in AnnualNullsC {}
  lemma FilledApartD() ensures forall c :: c in AnnualFilled ==> c !in AnnualNullsD {}

  /** None of the filled columns is among the empty ones; all the stack
      parameters are. */
  lemma AnnualNullsApart()
    ensures forall c :: c in AnnualFilled ==> c !in AnnualNullColumns
    ensures forall c :: c in StackColumns ==> c in AnnualNullColumns
  {
    FilledApartA();
    FilledApartB();
    FilledApartC();
    FilledApartD();
    assert AnnualNullsA[9..14] == [stkhgt, stkdiam, stktemp, stkflow, stkvel];
  }

  /** A filled column of an annual record holds what the writer derived for it. */
  lemma AnnualRecordFilled(r: AnnualRow, year: nat, c: ColumnName)
    requires c in AnnualFilled
    ensures Lookup(AnnualRecord(r, year), c) == Lookup(AnnualDerived(r, year), c)
  {
    AnnualNullsApart();
    SetEmptyAt(AnnualDerived(r, year), AnnualNullColumns, c);
  }

  /** Every column of an annual record outside the filled ones is empty, the
      stack parameters included. */
  lemma AnnualRecordBlank(r: AnnualRow, year: nat, c: ColumnName)
    requires c !in AnnualFilled
    ensures Lookup(AnnualRecord(r, year), c) == Blank
  {
    AnnualNullsApart();
    SetEmptyAt(AnnualDerived(r, year), AnnualNullColumns, c);
  }

  /** What each column of an annual FF10 line holds for an annual row: the
      identifiers, the annual value, the facility as its name, the
      coordinates, the data set and the year; every other column, the stack
      parameters included, is empty. */
  function AnnualCell(r: AnnualRow, year: nat, c: ColumnName): Field {
    if c == country_cd then Str(r.key.country)
    else if c == region_cd then Str(r.key.region)
    else if c == facility_id then Str(r.key.facility)
    else if c == unit_id then Str(r.key.unit)
    else if c == rel_point_id then Str(RelPoint(r.key.facility))
    else if c == process_id then Str(r.key.process)
    else if c == scc then Str(r.key.scc)
    else if c == poll then Str(r.key.poll)
    else if c == ann_value then Num(At(r.vals, 0))
    else if c == facility_name then Str(r.key.facility)
    else if c == longitude then Whole(r.key.lon)
    else if c == latitude then Whole(r.key.lat)
    else if c == data_set_id then Str("EPA_FINN")
    else if c == calc_year then Str(Digits(year))
    else Blank
  }

  /** The derived identifier cells. */
  lemma DerivedIdCells(r: AnnualRow, year: nat, c: ColumnName)
    requires c == country_cd || c == region_cd || c == facility_id || c == unit_id
    ensures Lookup(AnnualDerived(r, year), c) == AnnualCell(r, year, c)
  {
  }

  /** The derived release point, process, classification and pollutant cells. */
  lemma DerivedCodeCells(r: AnnualRow, year: nat, c: ColumnName)
    requires c == rel_point_id || c == process_id || c == scc || c == poll
    ensures Lookup(AnnualDerived(r, year), c) == AnnualCell(r, year, c)
  {
  }

  /** The derived annual value, facility name and longitude cells. */
  lemma DerivedValueCells(r: AnnualRow, year: nat, c: ColumnName)
    requires c == ann_value || c == facility_name || c == longitude
    ensures Lookup(AnnualDerived(r, year), c) == AnnualCell(r, year, c)
  {
  }

  /** The derived latitude, data set and year cells. */
  lemma DerivedSourceCells(r: AnnualRow, year: nat, c: ColumnName)
    requires c == latitude || c == data_set_id || c == calc_year
    ensures Lookup(AnnualDerived(r, year), c) == AnnualCell(r, year, c)
  {
  }

  /** The derived cells of the filled columns. */
  lemma AnnualDerivedCells(r: AnnualRow, year: nat, c: ColumnName)
    requires c in AnnualFilled
    ensures Lookup(AnnualDerived(r, year), c) == AnnualCell(r, year, c)
  {
    if c == country_cd || c == region_cd || c == facility_id || c == unit_id {
      DerivedIdCells(r, year, c);
    } else if c == rel_point_id || c == process_id || c == scc || c == poll {
      DerivedCodeCells(r, year, c);
    } else if c == ann_value || c == facility_name || c == longitude {
      DerivedValueCells(r, year, c);
    } else {
      DerivedSourceCells(r, year, c);
    }
  }

  /** The annual cell of a column outside the filled ones is empty. */
  lemma AnnualCellBlank(r: AnnualRow, year: nat, c: ColumnName)
    requires c !in AnnualFilled
    ensures AnnualCell(r, year, c) == Blank
  {
  }

  /** The record the writer builds agrees, column by column, with the
      annual cells: the filled columns keep what was derived, the stack
      parameters lose their "1" to the empty columns, and the rest are empty. */
  lemma AnnualRecordCell(r: AnnualRow, year: nat, c: ColumnName)
    ensures Lookup(AnnualRecord(r, year), c) == AnnualCell(r, year, c)
  {
    if c in AnnualFilled {
      AnnualRecordFilled(r, year, c);
      AnnualDerivedCells(r, year, c);
    } else {
      AnnualRecordBlank(r, year, c);
      AnnualCellBlank(r, year, c);
    }
  }

  /** The line the annual file holds for one annual row. */
  function AnnualLine(r: AnnualRow, year: nat): seq<Field> {
    CsvLine(AnnualRecord(r, year), AnnualColumns)
  }

  /** An annual line has the 77 cells of the format, each the annual cell of
      its column. */
  lemma AnnualLineCells(r: AnnualRow, year: nat)
    ensures |AnnualLine(r, year)| == |AnnualColumns| == 77
    ensures forall i :: 0 <= i < 77 ==> AnnualLine(r, year)[i] == AnnualCell(r, year, AnnualColumns[i])
  {
    forall i | 0 <= i < 77 ensures AnnualLine(r, year)[i] == AnnualCell(r, year, AnnualColumns[i]) {
      AnnualRecordCell(r, year, AnnualColumns[i]);
    }
  }

  /** A cell of an annual line outside the filled columns is empty. */
  lemma AnnualLineEmpty(r: AnnualRow, year: nat, i: nat)
    requires i < |AnnualColumns| && AnnualColumns[i] !in AnnualFilled
    ensures AnnualLine(r, year)[i] == Blank
  {
    AnnualLineCells(r, year);
    AnnualCellBlank(r, year, AnnualColumns[i]);
  }

  /** The stack parameters sit in cells 17-21 of the annual column list. */
  lemma StackColumnsAt(i: nat)
    requires 17 <= i < 22
    ensures i < |AnnualColumns| && AnnualColumns[i] in StackColumns
  {
  }

  /** The five stack parameters (cells 17-21) of an annual line are empty:
      the "1" the writer first puts there is overwritten by the empty
      columns. */
  lemma AnnualLineStack(r: AnnualRow, year: nat)
    ensures forall i :: 17 <= i < 22 ==> AnnualLine(r, year)[i] == Blank
  {
    forall i | 17 <= i < 22 ensures AnnualLine(r, year)[i] == Blank {
      StackColumnsAt(i);
      AnnualLineEmpty(r, year, i);
    }
  }

  /** `ann_value` is cell 13 of the annual column list. */
  lemma AnnualValueAt()
    ensures |AnnualColumns| == 77 && AnnualColumns[13] == ann_value
  {
  }

  /** Cell 13 of an annual line is the row's annual value. */
  lemma {:induction false} AnnualLineValue(r: AnnualRow, year: nat)
    ensures AnnualLine(r, year)[13] == Num(At(r.vals, 0))
  {
    AnnualValueAt();
    AnnualRecordCell(r, year, ann_value);
    assert AnnualLine(r, year)[13] == Lookup(AnnualRecord(r, year), AnnualColumns[13]);
    AnnualCellValue(r, year);
  }

  /** The `ann_value` cell is the row's summed value. */
  lemma {:induction false} AnnualCellValue(r: AnnualRow, year: nat)
    ensures AnnualCell(r, year, ann_value) == Num(At(r.vals, 0))
  {
  }

  /** The inventory names of the `#COUNTRY` header line. */
  const InventoryNames: map<string, string> :=
    map["US" := "US", "MX" := "MEXICO", "CA" := "CANADA", "ONA" := "OTHERNORTHAMERICA", "GEO" := "GLOBAL"]

  /** The three header lines of a file; the inventory code is looked up in
      `InventoryNames`, an unknown one being a KeyError. */
  function Header(format: string, code: string, year: nat): (r: Result<seq<string>>)
    ensures r.Ok? <==> code in InventoryNames
    ensures r.Err? ==> r.fault == KeyError
    ensures r.Ok? ==> |r.value| == 3 && r.value[0] == "#FORMAT=" + format
    ensures r.Ok? ==> r.value[1] == "#COUNTRY=" + InventoryNames[code]
    ensures r.Ok? ==> r.value[2] == "#YEAR=" + Digits(year)
  {
    if code in InventoryNames then
      Ok(["#FORMAT=" + format, "#COUNTRY=" + InventoryNames[code], "#YEAR=" + Digits(year)])
    else Err(KeyError)
  }

  /** The year line names the year: `int()` reads its text back as the year. */
  lemma HeaderYear(format: string, code: string, year: nat)
    requires code in InventoryNames
    ensures |Header(format, code, year).value[2]| > 6
    ensures Header(format, code, year).value[2][..6] == "#YEAR="
    ensures ParseInt(Header(format, code, year).value[2][6..]) == Some(year)
  {
    var digits := Digits(year);
    StripUnchanged(digits);
    assert ("#YEAR=" + digits)[..6] == "#YEAR=" && ("#YEAR=" + digits)[6..] == digits;
  }

  /** Each of the five inventories has a header, and no two share a name. */
  lemma InventoryNamesDistinct()
    ensures forall c :: c in Countries ==> c.Code() in InventoryNames
    ensures "GEO" in InventoryNames
    ensures forall a, b :: a in InventoryNames && b in InventoryNames && a != b ==>
      InventoryNames[a] != InventoryNames[b]
  {
  }

  /** The inventories the outputs are written for. */
  datatype Target = Nation(c: Country) | Global

  function TargetCode(t: Target): string {
    match t
    case Nation(c) => c.Code()
    case Global => "GEO"
  }

  /** The path of an inventory's daily or annual file: national files are
      `ptday_finn25_<code>_<prefix>_ff10.csv` (`ptinv_` for annual), the
      global ones `ptday_finn_GEO_<prefix>_ff10.csv`. */
  function OutputPath(workdir: string, prefix: string, daily: bool, t: Target): string {
    var kind := if daily then "ptday" else "ptinv";
    var tag := match t
      case Nation(c) => "_finn25_" + c.Code()
      case Global => "_finn_GEO";
    workdir + "/invens/" + kind + tag + "_" + prefix + "_ff10.csv"
  }

  /** No two of the ten files the conversion writes share a path. */
  lemma OutputPathsDistinct(workdir: string, prefix: string, d1: bool, t1: Target, d2: bool, t2: Target)
    requires t1 != Nation(Unresolved) && t2 != Nation(Unresolved)
    requires d1 != d2 || t1 != t2
    ensures OutputPath(workdir, prefix, d1, t1) != OutputPath(workdir, prefix, d2, t2)
  {
    var p1, p2 := OutputPath(workdir, prefix, d1, t1), OutputPath(workdir, prefix, d2, t2);
    var n := |workdir| + 8;
    assert p1[n + 2] == (if d1 then 'd' else 'i');
    assert p2[n + 2] == (if d2 then 'd' else 'i');
    if d1 == d2 {
      assert p1[n + 10] == (if t1.Global? then '_' else '2');
      assert p2[n + 10] == (if t2.Global? then '_' else '2');
      if t1.Nation? && t2.Nation? {
        assert p1[n + 13] == t1.c.Code()[0];
        assert p2[n + 13] == t2.c.Code()[0];
      }
    }
  }
}
