/** The pivot of `write_daily_ff10`: the long table becomes one row per
    (country, region, facility, classification code, pollutant, month,
    process, unit), with a value for each day of the month and the month
    total.

    `pd.pivot_table` aggregates with its default, the mean, so two long rows
    falling in the same row and day are averaged rather than added
    (`PivotMeans`, as the script does it); the conversion's totals call for
    the sum (`DailyPivot`, used by the rest of the model). */
module Daily {
  import opened Outcomes
  import opened Aggregate
  import opened Detections

  /** The index of a daily inventory row. */
  datatype DailyKey = DailyKey(
    country: string, region: string, facility: string, scc: string, poll: string,
    month: nat, process: string, unit: string)

  function DailyKeyOf(k: Ids): DailyKey {
    DailyKey(k.site.country, k.site.region, k.site.facility, k.site.scc, k.poll,
             k.site.month, k.site.process, k.site.unit)
  }

  /** A row of the daily table: its index and the values of days 1..31
      (column `d - 1` holds day `d`). */
  type DailyRow = Entry<DailyKey>

  /** `monthtot`: the sum of a daily row's day values. */
  function MonthTotal(r: DailyRow): real {
    Sum(r.vals)
  }

  /** Thirty-one day columns holding `v` on day `d` and zero elsewhere. */
  function OneHot(d: nat, v: real): (r: seq<real>)
    ensures |r| == 31
    ensures forall j: nat :: j < 31 ==> At(r, j) == if j + 1 == d then v else 0.0
  {
    seq(31, j requires 0 <= j < 31 => if j + 1 == d then v else 0.0)
  }

  lemma {:induction false} SumToOneHot(d: nat, v: real, n: nat)
    requires 1 <= d <= 31
    ensures SumTo(OneHot(d, v), n) == if d <= n then v else 0.0
  {
    if n > 0 {
      SumToOneHot(d, v, n - 1);
    }
  }

  /** A day's value is the whole of its one-hot row's sum. */
  lemma SumOneHot(d: nat, v: real)
    requires 1 <= d <= 31
    ensures Sum(OneHot(d, v)) == v
  {
    SumToOneHot(d, v, 31);
  }

  /** Row mask: the long rows of daily row `key` and day `d`. */
  function InCell(key: DailyKey, d: nat): Ids -> bool {
    (k: Ids) => DailyKeyOf(k) == key && k.site.day == d
  }

  /** Row mask: the long rows of daily row `key`. */
  function InRow(key: DailyKey): Ids -> bool {
    (k: Ids) => DailyKeyOf(k) == key
  }

  /** The summed `val` of the long rows of one daily row and day. */
  function CellTotal(rows: seq<LongRow>, key: DailyKey, d: nat): real {
    Total(rows, SelectColumn(InCell(key, d), 0))
  }

  /** The number of long rows of one daily row and day. */
  function CellCount(rows: seq<LongRow>, key: DailyKey, d: nat): real {
    Total(rows, SelectCount(InCell(key, d)))
  }

  /** Each long row as its daily row's index and a one-hot day vector. */
  function Spread(rows: seq<LongRow>): (out: seq<DailyRow>)
    ensures |out| == |rows|
    ensures forall i :: 0 <= i < |rows| ==>
      out[i] == Entry(DailyKeyOf(rows[i].key), OneHot(rows[i].key.site.day, At(rows[i].vals, 0)))
  {
    seq(|rows|, i requires 0 <= i < |rows| =>
      Entry(DailyKeyOf(rows[i].key), OneHot(rows[i].key.site.day, At(rows[i].vals, 0))))
  }

  /** The daily pivot with summed cells: one row per index, the days no long
      row mentions left at zero. */
  function DailyPivot(rows: seq<LongRow>): seq<DailyRow> {
    GroupSum(Spread(rows))
  }

  /** Every index appears once, the indices are exactly those of the long
      rows, and every row has the 31 day columns. */
  lemma DailyPivotShape(rows: seq<LongRow>)
    ensures Distinct(DailyPivot(rows)) && Width(DailyPivot(rows), 31)
    ensures forall key :: key in Keys(DailyPivot(rows)) <==>
      exists i :: 0 <= i < |rows| && DailyKeyOf(rows[i].key) == key
  {
    var pre := Spread(rows);
    GroupSumShape(pre, 31);
    forall key ensures key in Keys(pre) <==> exists i :: 0 <= i < |rows| && DailyKeyOf(rows[i].key) == key {
      if key in Keys(pre) {
        var i :| 0 <= i < |pre| && pre[i].key == key;
        assert DailyKeyOf(rows[i].key) == key;
      }
      if exists i :: 0 <= i < |rows| && DailyKeyOf(rows[i].key) == key {
        var i :| 0 <= i < |rows| && DailyKeyOf(rows[i].key) == key;
        assert pre[i].key == key;
      }
    }
  }

  /** The value of day `d` in a daily row is the sum of `val` over the long
      rows of that index and day; a day no long row mentions is zero. */
  lemma DailyPivotCells(rows: seq<LongRow>, i: nat, d: nat)
    requires i < |DailyPivot(rows)| && 1 <= d <= 31
    ensures At(DailyPivot(rows)[i].vals, d - 1) == CellTotal(rows, DailyPivot(rows)[i].key, d)
    ensures (forall r :: 0 <= r < |rows| ==> !InCell(DailyPivot(rows)[i].key, d)(rows[r].key)) ==>
      At(DailyPivot(rows)[i].vals, d - 1) == 0.0
  {
    var pre := Spread(rows);
    var key := DailyPivot(rows)[i].key;
    GroupSumValues(pre, i, d - 1);
    TotalRowwise(pre, KeyColumn(key, d - 1), rows, SelectColumn(InCell(key, d), 0));
    if forall r :: 0 <= r < |rows| ==> !InCell(key, d)(rows[r].key) {
      TotalZero(rows, SelectColumn(InCell(key, d), 0));
    }
  }

  /** `monthtot` is the sum of `val` over all long rows of the index, when
      every day lies in 1..31. */
  lemma DailyPivotMonthTotal(rows: seq<LongRow>, i: nat)
    requires DaysInRange(rows) && i < |DailyPivot(rows)|
    ensures MonthTotal(DailyPivot(rows)[i]) == Total(rows, SelectColumn(InRow(DailyPivot(rows)[i].key), 0))
  {
    var pre := Spread(rows);
    var key := DailyPivot(rows)[i].key;
    RowSumAdditive<DailyKey>();
    GroupSumWeight(pre, i, RowSum());
    forall r | 0 <= r < |rows|
      ensures Restrict(key, RowSum())(pre[r]) == SelectColumn(InRow(key), 0)(rows[r])
    {
      SumOneHot(rows[r].key.site.day, At(rows[r].vals, 0));
    }
    TotalRowwise(pre, Restrict(key, RowSum()), rows, SelectColumn(InRow(key), 0));
  }

  /** The month totals of the daily table add up to the total `val` of the
      long rows: the pivot neither loses nor invents emissions. */
  lemma DailyPivotConserves(rows: seq<LongRow>)
    requires DaysInRange(rows)
    ensures Total(DailyPivot(rows), RowSum()) == Total(rows, Column(0))
  {
    var pre := Spread(rows);
    GroupSumRowSumTotal(pre);
    forall r | 0 <= r < |rows| ensures RowSum()(pre[r]) == Column(0)(rows[r]) {
      SumOneHot(rows[r].key.site.day, At(rows[r].vals, 0));
    }
    TotalRowwise(pre, RowSum(), rows, Column(0));
  }

  /** A cell of the pivot: a daily row's index and a day of month. */
  datatype PivotCell = PivotCell(key: DailyKey, day: nat)

  /** Each long row as its cell, carrying its value and a count of one. */
  function Counted(rows: seq<LongRow>): (out: seq<Entry<PivotCell>>)
    ensures |out| == |rows|
    ensures forall i :: 0 <= i < |rows| ==>
      out[i] == Entry(PivotCell(DailyKeyOf(rows[i].key), rows[i].key.site.day), [At(rows[i].vals, 0), 1.0])
  {
    seq(|rows|, i requires 0 <= i < |rows| =>
      Entry(PivotCell(DailyKeyOf(rows[i].key), rows[i].key.site.day), [At(rows[i].vals, 0), 1.0]))
  }

  /** The mean of a cell from its sum and count; NaN, which the pivot fills
      with zero, for an empty cell. */
  function Mean(total: real, count: real): real {
    if count == 0.0 then 0.0 else total / count
  }

  function CellMean(c: Entry<PivotCell>): real {
    Mean(At(c.vals, 0), At(c.vals, 1))
  }

  /** `pd.pivot_table(values='val', index=..., columns='day')` as written:
      each cell is the mean of the long rows falling into it. */
  function PivotMeans(rows: seq<LongRow>): seq<DailyRow> {
    var cells := GroupSum(Counted(rows));
    GroupSum(seq(|cells|, i requires 0 <= i < |cells| =>
      Entry(cells[i].key.key, OneHot(cells[i].key.day, CellMean(cells[i])))))
  }

  /** The day `d` has no long row. */
  predicate DayAbsent(rows: seq<LongRow>, d: nat) {
    forall i :: 0 <= i < |rows| ==> rows[i].key.site.day != d
  }

  /** Lines 183-200 as written: the averaged pivot, and a KeyError at line
      200 unless every one of the 31 day columns exists, that is unless every
      day of month occurs somewhere in the table. */
  function DailyPivotAsWritten(rows: seq<LongRow>): (r: Result<seq<DailyRow>>)
    ensures r.Err? <==> exists d :: 1 <= d <= 31 && DayAbsent(rows, d)
    ensures r.Err? ==> r.fault == KeyError
    ensures r.Ok? ==> r.value == PivotMeans(rows)
  {
    if exists d :: 1 <= d <= 31 && DayAbsent(rows, d) then Err(KeyError) else Ok(PivotMeans(rows))
  }

  /** A table whose fires all fall on one day of the month, such as the long
      rows of a single detection, cannot be written: at least thirty day
      columns are missing. The corrected pivot writes it, with zeros on the
      other days. */
  lemma OneDayTableFails(rows: seq<LongRow>, day: nat)
    requires forall i :: 0 <= i < |rows| ==> rows[i].key.site.day == day
    ensures DailyPivotAsWritten(rows) == Err(KeyError)
  {
    var d := if day == 1 then 2 else 1;
    assert DayAbsent(rows, d);
  }

  /** Nor can a table none of whose fires falls on a 31st: the `dayval31`
      column is missing. */
  lemma NoThirtyFirstFails(rows: seq<LongRow>)
    requires forall i :: 0 <= i < |rows| ==> rows[i].key.site.day != 31
    ensures DailyPivotAsWritten(rows) == Err(KeyError)
  {
    assert DayAbsent(rows, 31);
  }

  /** A cell some long row falls into: its summed value and count are the
      cell's total and number of rows. */
  lemma CellPresent(rows: seq<LongRow>, key: DailyKey, d: nat)
    requires PivotCell(key, d) in Keys(GroupSum(Counted(rows)))
    ensures Total(GroupSum(Counted(rows)), Restrict(PivotCell(key, d), CellMean)) ==
      Mean(CellTotal(rows, key, d), CellCount(rows, key, d))
  {
    var pre1 := Counted(rows);
    var cells := GroupSum(pre1);
    var c := PivotCell(key, d);
    GroupSumShape(pre1, 0);
    RestrictOfDistinct(cells, c, CellMean);
    var j :| 0 <= j < |cells| && cells[j].key == c;
    GroupSumValues(pre1, j, 0);
    GroupSumValues(pre1, j, 1);
    TotalRowwise(pre1, KeyColumn(c, 0), rows, SelectColumn(InCell(key, d), 0));
    TotalRowwise(pre1, KeyColumn(c, 1), rows, SelectCount(InCell(key, d)));
  }

  /** A cell no long row falls into has mean zero, as does its fill value. */
  lemma CellAbsent(rows: seq<LongRow>, key: DailyKey, d: nat)
    requires PivotCell(key, d) !in Keys(GroupSum(Counted(rows)))
    ensures Total(GroupSum(Counted(rows)), Restrict(PivotCell(key, d), CellMean)) ==
      Mean(CellTotal(rows, key, d), CellCount(rows, key, d))
  {
    var pre1 := Counted(rows);
    var cells := GroupSum(pre1);
    var c := PivotCell(key, d);
    GroupSumShape(pre1, 0);
    RestrictOfDistinct(cells, c, CellMean);
    forall r | 0 <= r < |rows| ensures !InCell(key, d)(rows[r].key) {
      assert pre1[r].key in Keys(pre1);
    }
    TotalZero(rows, SelectColumn(InCell(key, d), 0));
    TotalZero(rows, SelectCount(InCell(key, d)));
  }

  /** Each cell of the as-written pivot is the mean of `val` over the long
      rows of that index and day. */
  lemma PivotMeansCells(rows: seq<LongRow>, i: nat, d: nat)
    requires i < |PivotMeans(rows)| && 1 <= d <= 31
    ensures At(PivotMeans(rows)[i].vals, d - 1) ==
      Mean(CellTotal(rows, PivotMeans(rows)[i].key, d), CellCount(rows, PivotMeans(rows)[i].key, d))
  {
    var cells := GroupSum(Counted(rows));
    var pre2 := seq(|cells|, i requires 0 <= i < |cells| =>
      Entry(cells[i].key.key, OneHot(cells[i].key.day, CellMean(cells[i]))));
    var key := PivotMeans(rows)[i].key;
    var c := PivotCell(key, d);
    GroupSumValues(pre2, i, d - 1);
    TotalRowwise(pre2, KeyColumn(key, d - 1), cells, Restrict(c, CellMean));
    if c in Keys(cells) {
      CellPresent(rows, key, d);
    } else {
      CellAbsent(rows, key, d);
    }
  }

  /** No two long rows share an index and a day. */
  predicate NoCollision(rows: seq<LongRow>) {
    forall i, j :: 0 <= i < j < |rows| ==>
      PivotCell(DailyKeyOf(rows[i].key), rows[i].key.site.day) != PivotCell(DailyKeyOf(rows[j].key), rows[j].key.site.day)
  }

  /** When no two long rows share a cell, averaging and summing agree: the
      as-written pivot is the summed one. */
  lemma PivotMeansWithoutCollision(rows: seq<LongRow>)
    requires NoCollision(rows)
    ensures PivotMeans(rows) == DailyPivot(rows)
  {
    var pre1 := Counted(rows);
    assert Distinct(pre1);
    GroupSumDistinct(pre1);
    var cells := GroupSum(pre1);
    var pre2 := seq(|cells|, i requires 0 <= i < |cells| =>
      Entry(cells[i].key.key, OneHot(cells[i].key.day, CellMean(cells[i]))));
    assert pre2 == Spread(rows);
  }

  /** Adding two one-hot vectors of one day adds their values. */
  lemma AddOneHot(d: nat, a: real, b: real)
    requires 1 <= d <= 31
    ensures AddVec(OneHot(d, a), OneHot(d, b)) == OneHot(d, a + b)
  {
  }

  /** Two long rows of one index and day with values 1 and 3: the as-written
      pivot reports their mean, 2, for that day. */
  lemma PivotMeansOfPair(k: Ids)
    requires 1 <= k.site.day <= 31
    ensures PivotMeans([Entry(k, [1.0]), Entry(k, [3.0])]) == [Entry(DailyKeyOf(k), OneHot(k.site.day, 2.0))]
  {
    var rows := [Entry(k, [1.0]), Entry(k, [3.0])];
    var c := PivotCell(DailyKeyOf(k), k.site.day);
    var pre1 := Counted(rows);
    assert pre1 == [Entry(c, [1.0, 1.0]), Entry(c, [3.0, 1.0])];
    assert pre1[..1] == [Entry(c, [1.0, 1.0])];
    assert GroupSum(pre1[..1]) == [Entry(c, [1.0, 1.0])] by {
      assert pre1[..1][..0] == [];
    }
    assert AddVec([1.0, 1.0], [3.0, 1.0]) == [4.0, 2.0];
    assert GroupSum(pre1) == [Entry(c, [4.0, 2.0])];
    var cells := GroupSum(pre1);
    var pre2 := seq(|cells|, i requires 0 <= i < |cells| =>
      Entry(cells[i].key.key, OneHot(cells[i].key.day, CellMean(cells[i]))));
    assert CellMean(cells[0]) == 2.0;
    assert pre2 == [Entry(DailyKeyOf(k), OneHot(k.site.day, 2.0))];
    assert pre2[..0] == [];
    assert GroupSum(pre2) == [pre2[0]];
  }

  /** The same two rows: the summed pivot reports 4. */
  lemma DailyPivotOfPair(k: Ids)
    requires 1 <= k.site.day <= 31
    ensures DailyPivot([Entry(k, [1.0]), Entry(k, [3.0])]) == [Entry(DailyKeyOf(k), OneHot(k.site.day, 4.0))]
  {
    var rows := [Entry(k, [1.0]), Entry(k, [3.0])];
    var spread := Spread(rows);
    var key := DailyKeyOf(k);
    assert spread == [Entry(key, OneHot(k.site.day, 1.0)), Entry(key, OneHot(k.site.day, 3.0))];
    assert spread[..1] == [Entry(key, OneHot(k.site.day, 1.0))];
    assert GroupSum(spread[..1]) == [Entry(key, OneHot(k.site.day, 1.0))] by {
      assert spread[..1][..0] == [];
    }
    AddOneHot(k.site.day, 1.0, 3.0);
  }

  /** Two long rows of one index and day with values 1 and 3: the as-written
      pivot reports 2 for that day, the summed pivot 4. */
  lemma PivotMeansLosesMass(k: Ids)
    requires 1 <= k.site.day <= 31
    ensures PivotMeans([Entry(k, [1.0]), Entry(k, [3.0])]) == [Entry(DailyKeyOf(k), OneHot(k.site.day, 2.0))]
    ensures DailyPivot([Entry(k, [1.0]), Entry(k, [3.0])]) == [Entry(DailyKeyOf(k), OneHot(k.site.day, 4.0))]
  {
    PivotMeansOfPair(k);
    DailyPivotOfPair(k);
  }
}
