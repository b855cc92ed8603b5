/** The fire table of `get_finn_data` from the site-day grouping on: the
    boundary lookup and remap of region codes, the date, country and
    classification-code columns derived for every row, and the melt into one
    row per pollutant.

    The boundary lookup (`na_shape.get_loc`, a shapefile point-in-polygon
    query) is the parameter `locate`, taking longitude and latitude in
    hundredths of a degree and giving the polygon's code, or None. */
module Detections {
  import opened Outcomes
  import opened Text
  import opened Calendar
  import opened Regions
  import opened Aggregate

  /** The value columns left after the unit conversion, in table order; the
      melt turns each into a pollutant name. */
  const ValueColumns: seq<string> :=
    ["ACRESBURNED", "BMASS", "CO2", "CO", "CH4", "SO2", "PM25-PRI", "NH3",
     "PM10-PRI", "HCHO", "NOX", "VOC", "HFLUX"]

  lemma ValueColumnsDistinct(a: nat, b: nat)
    requires a < b < |ValueColumns|
    ensures ValueColumns[a] != ValueColumns[b]
  {
  }

  /** The key of the site-day grouping: fire, polygon, vegetation class,
      latitude and longitude (hundredths of a degree) and day-of-year text. */
  datatype SiteDay = SiteDay(facility: string, unit: string, vegetation: string, lat: int, lon: int, day: string)

  /** A detection: its site-day key and the values of `ValueColumns`. */
  type Detection = Entry<SiteDay>

  /** The site-day group-by-sum, run before the costly boundary lookup: each
      key is left exactly once, carrying the sums of its detections, and every
      value column keeps its total. */
  function GroupSites(rows: seq<Detection>): (out: seq<Detection>)
    ensures Distinct(out) && Keys(out) == Keys(rows) && |out| <= |rows|
    ensures forall i: nat, j: nat :: i < |out| ==> At(out[i].vals, j) == KeyTotal(rows, out[i].key, j)
    ensures forall j: nat :: Total(out, Column(j)) == Total(rows, Column(j))
  {
    GroupSumShape(rows, 0);
    assert forall i: nat, j: nat :: i < |GroupSum(rows)| ==>
      At(GroupSum(rows)[i].vals, j) == KeyTotal(rows, GroupSum(rows)[i].key, j) by {
      forall i: nat, j: nat | i < |GroupSum(rows)|
        ensures At(GroupSum(rows)[i].vals, j) == KeyTotal(rows, GroupSum(rows)[i].key, j)
      {
        GroupSumValues(rows, i, j);
      }
    }
    assert forall j: nat :: Total(GroupSum(rows), Column(j)) == Total(rows, Column(j)) by {
      forall j: nat ensures Total(GroupSum(rows), Column(j)) == Total(rows, Column(j)) {
        GroupSumColumnTotal(rows, j);
      }
    }
    GroupSum(rows)
  }

  /** Identifier columns of a fire once its region, country, date and
      classification code are derived: the melt's `id_vars`. `day` is the day
      of month; its column label is `DayLabel(day)`. */
  datatype Site = Site(
    country: string, facility: string, unit: string, month: nat, day: nat,
    lat: int, lon: int, region: string, scc: string, process: string)

  /** The identifier columns of a melted row: the site and the pollutant. */
  datatype Ids = Ids(site: Site, poll: string)

  /** A row of the long table; its value `val` is column 0. */
  type LongRow = Entry<Ids>

  /** `df['day'].astype(int)` on one row. */
  function DayOfYearOf(e: Detection): (r: Result<int>)
    ensures r.Ok? <==> ParseInt(e.key.day).Some?
    ensures r.Ok? ==> r.value == ParseInt(e.key.day).value
    ensures r.Err? ==> r.fault == ValueError
  {
    match ParseInt(e.key.day)
    case None => Err(ValueError)
    case Some(d) => Ok(d)
  }

  /** The classification-code column on one row. */
  function SccOf(e: Detection): Result<string> {
    SccFor(e.key.vegetation)
  }

  /** The region code of a detection after the boundary lookup and remap. */
  function RemappedRegion(e: Detection, locate: (int, int) -> Option<string>): string {
    Remap(locate(e.key.lon, e.key.lat))
  }

  /** A row whose date and classification-code columns can be derived. */
  predicate RowResolves(e: Detection, year: int)
    requires 1000 <= year <= 9999
  {
    && DayOfYearOf(e).Ok?
    && SetDate(year, DayOfYearOf(e).value).Ok?
    && SccOf(e).Ok?
  }

  /** (month, day) is the date of day `doy` of `year` as `set_date` reads it:
      the `doy`-th day of the year, or January 1 of the next year for a day
      366 of a common year. */
  predicate IsDateOf(year: int, doy: int, month: int, day: int) {
    if doy <= DaysInYear(year) then
      1 <= month <= 12 && 1 <= day <= MonthLength(IsLeap(year), month) && DaysBefore(IsLeap(year), month) + day == doy
    else
      month == 1 && day == 1
  }

  /** `w` is the row the derivations of lines 160-170 make of detection `e`. */
  predicate Resolved(e: Detection, locate: (int, int) -> Option<string>, year: int, w: Entry<Site>)
    requires 1000 <= year <= 9999 && RowResolves(e, year)
  {
    var region := RemappedRegion(e, locate);
    && GetCountry(region).Ok?
    && w.key.country == GetCountry(region).value.Code()
    && w.key.region == TrimRegion(region)
    && w.key.facility == e.key.facility
    && w.key.unit == e.key.unit
    && w.key.lat == e.key.lat && w.key.lon == e.key.lon
    && w.key.process == e.key.vegetation
    && w.key.scc == SccOf(e).value
    && IsDateOf(year, DayOfYearOf(e).value, w.key.month, w.key.day)
    && w.vals == e.vals
  }

  /** The codes of the five inventories a row can be routed to. */
  predicate KnownCountry(c: string) {
    c == "US" || c == "CA" || c == "MX" || c == "ONA" || c == "NA"
  }

  /** What every derived site satisfies: a real month and day of month, a
      known country, and the unknown region code on every unresolved row. */
  predicate WellFormedSite(s: Site) {
    && 1 <= s.month <= 12 && 1 <= s.day <= 31
    && KnownCountry(s.country)
    && (s.country == "NA" ==> s.region == Unknown)
  }

  function SiteOf(e: Detection, region: string, country: Country, date: string, scc: string): Site
    requires IsYmd(date)
  {
    Site(country.Code(), e.key.facility, e.key.unit, MonthNum(date), DayNum(date),
         e.key.lat, e.key.lon, TrimRegion(region), scc, e.key.vegetation)
  }

  /** `set_date(year, day)` as a column operation. */
  function DateFor(year: int): int -> Result<string>
    requires 1000 <= year <= 9999
  {
    (d: int) => SetDate(year, d)
  }

  /** The wide rows once every derived column exists: the country column
      (`get_country` on the remapped code, which cannot raise), the trimmed
      region, the month and day of month. */
  function Assemble(rows: seq<Detection>, locate: (int, int) -> Option<string>, year: int,
                    doys: seq<int>, dates: seq<string>, sccs: seq<string>): (out: seq<Entry<Site>>)
    requires 1000 <= year <= 9999
    requires |doys| == |dates| == |sccs| == |rows|
    requires forall i :: 0 <= i < |rows| ==> DayOfYearOf(rows[i]) == Ok(doys[i])
    requires forall i :: 0 <= i < |rows| ==> SetDate(year, doys[i]) == Ok(dates[i])
    requires forall i :: 0 <= i < |rows| ==> SccOf(rows[i]) == Ok(sccs[i])
    ensures |out| == |rows|
    ensures forall i :: 0 <= i < |rows| ==>
      RowResolves(rows[i], year) && Resolved(rows[i], locate, year, out[i]) && WellFormedSite(out[i].key)
  {
    var out := seq(|rows|, i requires 0 <= i < |rows| =>
      var region := RemappedRegion(rows[i], locate);
      RemapClassifies(locate(rows[i].key.lon, rows[i].key.lat));
      assert SetDate(year, doys[i]) == Ok(dates[i]);
      Entry(SiteOf(rows[i], region, GetCountry(region).value, dates[i], sccs[i]), rows[i].vals));
    assert forall i :: 0 <= i < |rows| ==>
      RowResolves(rows[i], year) && Resolved(rows[i], locate, year, out[i]) && WellFormedSite(out[i].key) by {
      forall i | 0 <= i < |rows|
        ensures RowResolves(rows[i], year) && Resolved(rows[i], locate, year, out[i]) && WellFormedSite(out[i].key)
      {
        var region := RemappedRegion(rows[i], locate);
        RemapClassifies(locate(rows[i].key.lon, rows[i].key.lat));
        ResolvedRow(rows[i], locate, year, doys[i], dates[i], region, GetCountry(region).value, sccs[i]);
      }
    }
    out
  }

  /** Lines 160-170 on the grouped table, column by column as pandas runs
      them: day numbers, dates, countries, then classification codes. Only the
      integer and date conversions can raise: remapped codes always classify. */
  function Resolve(rows: seq<Detection>, locate: (int, int) -> Option<string>, year: int): (r: Result<seq<Entry<Site>>>)
    requires 1000 <= year <= 9999
    ensures r.Ok? <==> forall i :: 0 <= i < |rows| ==> RowResolves(rows[i], year)
    ensures r.Err? ==> r.fault == ValueError
    ensures r.Ok? ==> |r.value| == |rows|
    ensures r.Ok? ==> forall i :: 0 <= i < |rows| ==>
      RowResolves(rows[i], year) && Resolved(rows[i], locate, year, r.value[i])
    ensures r.Ok? ==> forall i :: 0 <= i < |rows| ==> WellFormedSite(r.value[i].key)
  {
    var doys := MapAll(rows, DayOfYearOf);
    if doys.Err? then
      var i :| 0 <= i < |rows| && DayOfYearOf(rows[i]) == Err(doys.fault);
      assert !RowResolves(rows[i], year);
      Err(doys.fault)
    else
      var dates := MapAll(doys.value, DateFor(year));
      if dates.Err? then
        var i :| 0 <= i < |rows| && DateFor(year)(doys.value[i]) == Err(dates.fault);
        assert !RowResolves(rows[i], year);
        Err(dates.fault)
      else
        var sccs := MapAll(rows, SccOf);
        if sccs.Err? then
          var i :| 0 <= i < |rows| && SccOf(rows[i]) == Err(sccs.fault);
          assert !RowResolves(rows[i], year);
          Err(sccs.fault)
        else
          Ok(Assemble(rows, locate, year, doys.value, dates.value, sccs.value))
  }

  /** The month and day `set_date` gives day `doy` of `year`. */
  lemma DateFields(year: int, doy: int, date: string)
    requires 1000 <= year <= 9999 && SetDate(year, doy) == Ok(date)
    ensures IsYmd(date) && 1 <= MonthNum(date) <= 12 && 1 <= DayNum(date) <= 31
    ensures IsDateOf(year, doy, MonthNum(date), DayNum(date))
  {
    if doy <= DaysInYear(year) {
      assert DayNum(date) <= MonthLength(IsLeap(year), MonthNum(date));
    }
  }

  /** The country of a remapped region is one of the five inventories, and
      the unresolved one carries the unknown region code. */
  lemma CountryFields(e: Detection, locate: (int, int) -> Option<string>, country: Country)
    requires GetCountry(RemappedRegion(e, locate)) == Ok(country)
    ensures KnownCountry(country.Code())
    ensures country.Code() == "NA" ==> TrimRegion(RemappedRegion(e, locate)) == Unknown
  {
    var fips := locate(e.key.lon, e.key.lat);
    RemapClassifies(fips);
    match country
    case US => case CA => case MX => case ONA => case Unresolved =>
  }

  lemma ResolvedRow(e: Detection, locate: (int, int) -> Option<string>, year: int,
                    doy: int, date: string, region: string, country: Country, scc: string)
    requires 1000 <= year <= 9999
    requires DayOfYearOf(e) == Ok(doy) && SetDate(year, doy) == Ok(date)
    requires region == RemappedRegion(e, locate) && GetCountry(region) == Ok(country)
    requires SccOf(e) == Ok(scc)
    ensures IsYmd(date)
    ensures RowResolves(e, year)
    ensures Resolved(e, locate, year, Entry(SiteOf(e, region, country, date, scc), e.vals))
    ensures WellFormedSite(SiteOf(e, region, country, date, scc))
  {
    DateFields(year, doy, date);
    CountryFields(e, locate, country);
  }

  /** One pollutant column of the melt: each wide row gives its value in
      column `c`, under that column's name. */
  function MeltColumn(wide: seq<Entry<Site>>, c: nat): (block: seq<LongRow>)
    requires c < |ValueColumns|
    ensures |block| == |wide|
    ensures forall i :: 0 <= i < |wide| ==>
      block[i] == Entry(Ids(wide[i].key, ValueColumns[c]), [At(wide[i].vals, c)])
  {
    seq(|wide|, i requires 0 <= i < |wide| => Entry(Ids(wide[i].key, ValueColumns[c]), [At(wide[i].vals, c)]))
  }

  /** The melt of the first `n` value columns, column after column. */
  function MeltUpTo(wide: seq<Entry<Site>>, n: nat): seq<LongRow>
    requires n <= |ValueColumns|
  {
    if n == 0 then [] else MeltUpTo(wide, n - 1) + MeltColumn(wide, n - 1)
  }

  /** The melt of `n` columns is that of the first `n - 1`, then column `n - 1`'s block. */
  lemma MeltUpToStep(wide: seq<Entry<Site>>, n: nat)
    requires 0 < n <= |ValueColumns|
    ensures MeltUpTo(wide, n) == MeltUpTo(wide, n - 1) + MeltColumn(wide, n - 1)
  {
  }

  /** The melt of `n` columns has `n` rows per wide row. */
  lemma {:induction false} MeltUpToLength(wide: seq<Entry<Site>>, n: nat)
    requires n <= |ValueColumns|
    ensures |MeltUpTo(wide, n)| == n * |wide|
  {
    if n > 0 {
      MeltUpToLength(wide, n - 1);
      MeltUpToStep(wide, n);
    }
  }

  /** Every melted row is the site of a wide row, with the one value `val`. */
  lemma {:induction false} MeltUpToSites(wide: seq<Entry<Site>>, n: nat)
    requires n <= |ValueColumns|
    ensures forall i :: 0 <= i < |MeltUpTo(wide, n)| ==>
      MeltUpTo(wide, n)[i].key.site in Keys(wide) && |MeltUpTo(wide, n)[i].vals| == 1
  {
    if n > 0 {
      var p := MeltUpTo(wide, n - 1);
      var b := MeltColumn(wide, n - 1);
      var m := MeltUpTo(wide, n);
      MeltUpToSites(wide, n - 1);
      MeltUpToStep(wide, n);
      forall i | 0 <= i < |m| ensures m[i].key.site in Keys(wide) && |m[i].vals| == 1 {
        if i < |p| {
          assert m[i] == p[i];
        } else {
          assert m[i] == b[i - |p|];
          assert b[i - |p|].key.site == wide[i - |p|].key;
        }
      }
    }
  }

  /** `pd.melt`: one row per wide row and value column, named after the
      column, carrying that column's value. */
  function Melt(wide: seq<Entry<Site>>): (long: seq<LongRow>)
    ensures |long| == |ValueColumns| * |wide|
    ensures forall i :: 0 <= i < |long| ==> long[i].key.site in Keys(wide) && |long[i].vals| == 1
  {
    MeltUpToSites(wide, |ValueColumns|);
    MeltUpToLength(wide, |ValueColumns|);
    MeltUpTo(wide, |ValueColumns|)
  }

  /** Every day of month in a long table lies in 1..31. */
  predicate DaysInRange(rows: seq<LongRow>) {
    forall i :: 0 <= i < |rows| ==> 1 <= rows[i].key.site.day <= 31
  }

  /** Row mask: the rows of pollutant `p`. */
  function IsPoll(p: string): Ids -> bool {
    (k: Ids) => k.poll == p
  }

  /** Total `val` of pollutant `p` in a long table. */
  function PollTotal(rows: seq<LongRow>, p: string): real {
    Total(rows, SelectColumn(IsPoll(p), 0))
  }

  /** Each pollutant's total over the melt of the first `n` columns: its
      column's total if that column is among them, zero otherwise. */
  lemma {:induction false} MeltUpToTotal(wide: seq<Entry<Site>>, n: nat, c: nat)
    requires n <= |ValueColumns| && c < |ValueColumns|
    ensures PollTotal(MeltUpTo(wide, n), ValueColumns[c]) == if c < n then Total(wide, Column(c)) else 0.0
  {
    if n == 0 {
      assert MeltUpTo(wide, n) == [];
    } else {
      MeltUpToTotal(wide, n - 1, c);
      MeltUpToStepPoll(wide, n, c);
      MeltColumnTotal(wide, n - 1, c);
    }
  }

  /** Melting one more column adds to a pollutant's total only the block of
      its own column. */
  lemma MeltUpToStepPoll(wide: seq<Entry<Site>>, n: nat, c: nat)
    requires 0 < n <= |ValueColumns| && c < |ValueColumns|
    ensures PollTotal(MeltUpTo(wide, n), ValueColumns[c]) ==
      PollTotal(MeltUpTo(wide, n - 1), ValueColumns[c]) + PollTotal(MeltColumn(wide, n - 1), ValueColumns[c])
  {
    var p: seq<LongRow> := MeltUpTo(wide, n - 1);
    var b: seq<LongRow> := MeltColumn(wide, n - 1);
    MeltUpToStep(wide, n);
    TotalConcat(p, b, SelectColumn(IsPoll(ValueColumns[c]), 0));
  }

  /** Only the block of a pollutant's own column counts towards its total. */
  lemma MeltColumnTotal(wide: seq<Entry<Site>>, m: nat, c: nat)
    requires m < |ValueColumns| && c < |ValueColumns|
    ensures PollTotal(MeltColumn(wide, m), ValueColumns[c]) == if c == m then Total(wide, Column(c)) else 0.0
  {
    var w := SelectColumn(IsPoll(ValueColumns[c]), 0);
    var b := MeltColumn(wide, m);
    if c == m {
      forall i | 0 <= i < |b| ensures w(b[i]) == Column(c)(wide[i]) {
      }
      TotalRowwise(b, w, wide, Column(c));
    } else {
      if c < m {
        ValueColumnsDistinct(c, m);
      } else {
        ValueColumnsDistinct(m, c);
      }
      forall i | 0 <= i < |b| ensures w(b[i]) == 0.0 {
      }
      TotalZero(b, w);
    }
  }

  /** The melt conserves every value column: the total `val` of a pollutant
      is the total of the column it came from. */
  lemma MeltConserves(wide: seq<Entry<Site>>, c: nat)
    requires c < |ValueColumns|
    ensures PollTotal(Melt(wide), ValueColumns[c]) == Total(wide, Column(c))
  {
    MeltUpToTotal(wide, |ValueColumns|, c);
  }

  /** The melt of the first `n` columns carries the totals of those columns. */
  lemma {:induction false} MeltUpToColumnTotal(wide: seq<Entry<Site>>, n: nat)
    requires n <= |ValueColumns|
    ensures Total(MeltUpTo(wide, n), Column(0)) == TotalUpTo(wide, n)
  {
    if n > 0 {
      MeltUpToColumnTotal(wide, n - 1);
      MeltUpToStepTotal(wide, n);
    }
  }

  /** Melting one more column adds that column's total. */
  lemma MeltUpToStepTotal(wide: seq<Entry<Site>>, n: nat)
    requires 0 < n <= |ValueColumns|
    ensures Total(MeltUpTo(wide, n), Column(0)) == Total(MeltUpTo(wide, n - 1), Column(0)) + Total(wide, Column(n - 1))
  {
    var p: seq<LongRow> := MeltUpTo(wide, n - 1);
    var b: seq<LongRow> := MeltColumn(wide, n - 1);
    MeltUpToStep(wide, n);
    TotalConcat(p, b, Column(0));
    MeltColumnWhole(wide, n - 1);
  }

  /** One column's block of the melt carries that column's total. */
  lemma MeltColumnWhole(wide: seq<Entry<Site>>, m: nat)
    requires m < |ValueColumns|
    ensures Total(MeltColumn(wide, m), Column(0)) == Total(wide, Column(m))
  {
    var b := MeltColumn(wide, m);
    forall i | 0 <= i < |b| ensures Column(0)(b[i]) == Column(m)(wide[i]) {
    }
    TotalRowwise(b, Column(0), wide, Column(m));
  }

  /** `get_finn_data` from the site-day grouping on: the long table. */
  function LongTable(rows: seq<Detection>, locate: (int, int) -> Option<string>, year: int): (r: Result<seq<LongRow>>)
    requires 1000 <= year <= 9999
    ensures r.Ok? <==> Resolve(GroupSites(rows), locate, year).Ok?
    ensures r.Err? ==> r.fault == ValueError
    ensures r.Ok? ==> |r.value| == |ValueColumns| * |GroupSites(rows)|
    ensures r.Ok? ==> forall i :: 0 <= i < |r.value| ==> WellFormedSite(r.value[i].key.site)
  {
    var wide := Resolve(GroupSites(rows), locate, year);
    if wide.Err? then
      Err(wide.fault)
    else
      MeltWellFormed(wide.value);
      Ok(Melt(wide.value))
  }

  lemma MeltWellFormed(wide: seq<Entry<Site>>)
    requires forall i :: 0 <= i < |wide| ==> WellFormedSite(wide[i].key)
    ensures forall i :: 0 <= i < |Melt(wide)| ==> WellFormedSite(Melt(wide)[i].key.site)
  {
    var long := Melt(wide);
    forall i | 0 <= i < |long| ensures WellFormedSite(long[i].key.site) {
      var j :| 0 <= j < |wide| && wide[j].key == long[i].key.site;
    }
  }

  /** Grouping a single detection leaves one row. */
  lemma {:induction false} GroupOne(detection: Detection)
    ensures |GroupSites([detection])| == 1
  {
    var grouped := GroupSites([detection]);
    assert detection.key in Keys([detection]);
    assert detection.key in Keys(grouped);
  }

  /** The melt of one site is one long row per value column, all of that site. */
  lemma {:induction false} MeltOneSite(wide: seq<Entry<Site>>)
    requires |wide| == 1
    ensures |Melt(wide)| == |ValueColumns|
    ensures forall i :: 0 <= i < |Melt(wide)| ==> Melt(wide)[i].key.site == wide[0].key
  {
    assert Keys(wide) == {wide[0].key};
  }

  /** A single detection melts into one long row per value column, all of
      one site. */
  lemma {:induction false} OneDetectionOneSite(detection: Detection, locate: (int, int) -> Option<string>, year: int)
    requires 1000 <= year <= 9999
    requires LongTable([detection], locate, year).Ok?
    ensures |LongTable([detection], locate, year).value| == |ValueColumns|
    ensures forall i :: 0 <= i < |LongTable([detection], locate, year).value| ==>
      LongTable([detection], locate, year).value[i].key.site == LongTable([detection], locate, year).value[0].key.site
  {
    GroupOne(detection);
    var wide := Resolve(GroupSites([detection]), locate, year);
    assert LongTable([detection], locate, year).value == Melt(wide.value);
    MeltOneSite(wide.value);
  }

  /** Every pollutant total of the long table is the total of its column over
      the detections read in: grouping and melting lose and add nothing. */
  lemma LongTableConserves(rows: seq<Detection>, locate: (int, int) -> Option<string>, year: int, c: nat)
    requires 1000 <= year <= 9999 && c < |ValueColumns|
    requires LongTable(rows, locate, year).Ok?
    ensures PollTotal(LongTable(rows, locate, year).value, ValueColumns[c]) == Total(rows, Column(c))
  {
    var g := GroupSites(rows);
    var wide := Resolve(g, locate, year).value;
    MeltConserves(wide, c);
    TotalRowwise(wide, Column(c), g, Column(c));
  }

  /** The long table carries, in `val`, the totals of all value columns of
      the detections read in. */
  lemma LongTableTotal(rows: seq<Detection>, locate: (int, int) -> Option<string>, year: int)
    requires 1000 <= year <= 9999
    requires LongTable(rows, locate, year).Ok?
    ensures Total(LongTable(rows, locate, year).value, Column(0)) == TotalUpTo(rows, |ValueColumns|)
  {
    var g := GroupSites(rows);
    var wide := Resolve(g, locate, year).value;
    MeltUpToColumnTotal(wide, |ValueColumns|);
    forall j: nat | j < |ValueColumns| ensures Total(wide, Column(j)) == Total(rows, Column(j)) {
      forall i | 0 <= i < |wide| ensures Column(j)(wide[i]) == Column(j)(g[i]) {
        assert Resolved(g[i], locate, year, wide[i]);
      }
      TotalRowwise(wide, Column(j), g, Column(j));
    }
    TotalUpToSame(wide, rows, |ValueColumns|);
  }

  /** Row mask: the rows of one inventory's country code. */
  function InCountry(c: string): Ids -> bool {
    (k: Ids) => k.site.country == c
  }

  /** `finn_df[finn_df['country_cd'] == c]`. */
  function CountryRows(rows: seq<LongRow>, c: string): (out: seq<LongRow>)
    ensures forall i :: 0 <= i < |out| ==> out[i].key.site.country == c
    ensures forall e :: e in out <==> e in rows && e.key.site.country == c
  {
    var out := Filter(rows, InCountry(c));
    assert forall e :: e in out <==> e in rows && e.key.site.country == c by {
      forall e ensures e in out <==> e in rows && e.key.site.country == c {
        FilterMembers(rows, InCountry(c), e);
      }
    }
    out
  }

  /** The country of a row's site. */
  function CountryTotal(rows: seq<LongRow>, c: string): real {
    Total(rows, SelectColumn(InCountry(c), 0))
  }

  /** Routing by country loses nothing: when every row carries a known
      country code, the four national inventories and the global remainder
      share out the whole total. */
  lemma {:induction false} CountryPartition(rows: seq<LongRow>)
    requires forall i :: 0 <= i < |rows| ==> KnownCountry(rows[i].key.site.country)
    ensures Total(rows, Column(0)) ==
      CountryTotal(rows, "US") + CountryTotal(rows, "CA") + CountryTotal(rows, "MX")
      + CountryTotal(rows, "ONA") + CountryTotal(rows, "NA")
  {
    if |rows| > 0 {
      CountryPartition(rows[..|rows| - 1]);
    }
  }

  /** The rows a country inventory receives carry exactly its share. */
  lemma CountryRowsTotal(rows: seq<LongRow>, c: string)
    ensures Total(CountryRows(rows, c), Column(0)) == CountryTotal(rows, c)
  {
    FilterSelect(rows, InCountry(c), 0);
  }
}
