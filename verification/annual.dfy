/** The grouping of `write_annual_ff10`: one row per (country, region,
    facility, classification code, pollutant, process, coordinates, unit),
    carrying the summed `val` as the annual value. */
module Annual {
  import opened Aggregate
  import opened Detections

  /** The grouping columns of the annual inventory. */
  datatype AnnualKey = AnnualKey(
    country: string, region: string, facility: string, scc: string, poll: string,
    process: string, lat: int, lon: int, unit: string)

  function AnnualKeyOf(k: Ids): AnnualKey {
    AnnualKey(k.site.country, k.site.region, k.site.facility, k.site.scc, k.poll,
              k.site.process, k.site.lat, k.site.lon, k.site.unit)
  }

  function ToAnnual(): Ids -> AnnualKey {
    (k: Ids) => AnnualKeyOf(k)
  }

  /** A row of the annual table; column 0 is `ann_value`. */
  type AnnualRow = Entry<AnnualKey>

  /** `groupby(idx, as_index=False).sum()` with `val` renamed `ann_value`. */
  function AnnualTable(rows: seq<LongRow>): seq<AnnualRow> {
    GroupSum(Rekey(rows, ToAnnual()))
  }

  /** Row mask: the long rows of annual row `key`. */
  function InAnnual(key: AnnualKey): Ids -> bool {
    (k: Ids) => AnnualKeyOf(k) == key
  }

  /** Row mask on the annual table: one pollutant's rows. */
  function AnnualPoll(p: string): AnnualKey -> bool {
    (k: AnnualKey) => k.poll == p
  }

  /** Every annual key appears once, and the annual keys are exactly the
      grouping columns of the long rows. */
  lemma AnnualShape(rows: seq<LongRow>)
    ensures Distinct(AnnualTable(rows))
    ensures forall key :: key in Keys(AnnualTable(rows)) <==>
      exists i :: 0 <= i < |rows| && AnnualKeyOf(rows[i].key) == key
  {
    var pre := Rekey(rows, ToAnnual());
    GroupSumShape(pre, 0);
    forall key ensures key in Keys(pre) <==> exists i :: 0 <= i < |rows| && AnnualKeyOf(rows[i].key) == key {
      RekeyKeys(rows, ToAnnual(), key);
    }
  }

  /** `ann_value` is the sum of `val` over the long rows of its key. */
  lemma AnnualValues(rows: seq<LongRow>, i: nat)
    requires i < |AnnualTable(rows)|
    ensures At(AnnualTable(rows)[i].vals, 0) == Total(rows, SelectColumn(InAnnual(AnnualTable(rows)[i].key), 0))
  {
    var pre := Rekey(rows, ToAnnual());
    var key := GroupSum(pre)[i].key;
    GroupSumValues(pre, i, 0);
    TotalRowwise(pre, KeyColumn(key, 0), rows, SelectColumn(InAnnual(key), 0));
  }

  /** The annual inventory carries each pollutant's whole total. */
  lemma AnnualConserves(rows: seq<LongRow>, p: string)
    ensures Total(AnnualTable(rows), SelectColumn(AnnualPoll(p), 0)) == PollTotal(rows, p)
  {
    var pre := Rekey(rows, ToAnnual());
    GroupSumSelectTotal(pre, AnnualPoll(p), 0);
    TotalRowwise(pre, SelectColumn(AnnualPoll(p), 0), rows, SelectColumn(IsPoll(p), 0));
  }

  /** The annual inventory carries the whole total of the table. */
  lemma AnnualTotal(rows: seq<LongRow>)
    ensures Total(AnnualTable(rows), Column(0)) == Total(rows, Column(0))
  {
    var pre := Rekey(rows, ToAnnual());
    GroupSumColumnTotal(pre, 0);
    TotalRowwise(pre, Column(0), rows, Column(0));
  }
}
