/** Region codes of North American fires: the rewrite of the codes the boundary
    shapefile yields into canonical region codes, the country derived from a
    code's leading digit, the trim of six-character codes to five, and the
    source classification code chosen from the vegetation class. */
module Regions {
  import opened Outcomes
  import opened Text

  /** The inventory a row is written to; `Unresolved` (`'NA'`) rows go to the
      global raster branch. */
  datatype Country = US | CA | MX | ONA | Unresolved {

    /** The `country_cd` text of the tables. */
    function Code(): string {
      match this
      case US => "US"
      case CA => "CA"
      case MX => "MX"
      case ONA => "ONA"
      case Unresolved => "NA"
    }
  }

  /** The country list indexed by a code's leading digit. */
  const Countries: seq<Country> := [US, CA, MX, ONA]

  /** The region code given to a fire no boundary polygon contains. */
  const Unknown: string := "-9999"

  /** The remap table: shapefile code to canonical region code for Canada,
      Mexico and the other North American areas; None for codes it lacks. */
  function RemapEntry(fips: string): (code: Option<string>)
    ensures code.Some? ==> CanonicalTableCode(code.value)
  {
    match fips
    case "81000" => Some("159000")
    case "82000" => Some("148000")
    case "83000" => Some("147000")
    case "84000" => Some("146000")
    case "85000" => Some("135000")
    case "86000" => Some("124000")
    case "87000" => Some("113000")
    case "88100" => Some("111000")
    case "89000" => Some("112000")
    case "90000" => Some("110000")
    case "80100" => Some("160000")
    case "80200" => Some("162000")
    case "80300" => Some("161000")
    case "91140" => Some("202000")
    case "91680" => Some("224000")
    case "91860" => Some("231000")
    case "91780" => Some("228000")
    case "91280" => Some("206000")
    case "91380" => Some("212000")
    case "91820" => Some("229000")
    case "91560" => Some("219000")
    case "91220" => Some("207000")
    case "91580" => Some("220000")
    case "91260" => Some("205000")
    case "91240" => Some("208000")
    case "91360" => Some("211000")
    case "91180" => Some("204000")
    case "91520" => Some("217000")
    case "91540" => Some("218000")
    case "91640" => Some("222000")
    case "91840" => Some("230000")
    case "91120" => Some("201000")
    case "91880" => Some("232000")
    case "91320" => Some("209000")
    case "91420" => Some("213000")
    case "91760" => Some("227000")
    case "91620" => Some("221000")
    case "91740" => Some("226000")
    case "91340" => Some("210000")
    case "91660" => Some("223000")
    case "91480" => Some("216000")
    case "91440" => Some("214000")
    case "91460" => Some("215000")
    case "91720" => Some("225000")
    case "301000" => Some("301000")
    case "302000" => Some("302000")
    case "303000" => Some("303000")
    case "304000" => Some("304000")
    case "305000" => Some("305000")
    case "306000" => Some("306000")
    case "307000" => Some("307000")
    case "308000" => Some("308000")
    case "309000" => Some("309000")
    case "310000" => Some("310000")
    case "311000" => Some("311000")
    case "91160" => Some("203000")
    case _ => None
  }

  /** A canonical code of the table: six characters led by 1 (Canada),
      2 (Mexico) or 3 (other North America). */
  predicate CanonicalTableCode(v: string) {
    |v| == 6 && (v[0] == '1' || v[0] == '2' || v[0] == '3')
  }

  /** `fix_finn_fips` for one row: the shapefile code `fips` (None when no
      polygon contains the fire) becomes its table entry, else the code behind a
      leading '0', else the unknown code. */
  function Remap(fips: Option<string>): (region: string)
    ensures region != ""
    ensures fips.Some? && RemapEntry(fips.value).Some? ==> region == RemapEntry(fips.value).value
    ensures fips.Some? && RemapEntry(fips.value).None? && fips.value != "" ==> region == "0" + fips.value
    ensures fips.None? || fips.value == "" <==> region == Unknown
  {
    match fips
    case None => Unknown
    case Some(f) =>
      if RemapEntry(f).Some? then RemapEntry(f).value
      else if f != "" then
        assert ("0" + f)[0] != Unknown[0];
        "0" + f
      else Unknown
  }

  /** `get_country`: a code that is empty or starts with '-' is unresolved;
      otherwise its first character, read as a digit, indexes the country list,
      and a digit past the list or a non-digit raises. */
  function GetCountry(code: string): (r: Result<Country>)
    ensures r == Ok(Unresolved) <==> |code| == 0 || code[0] == '-'
    ensures r.Ok? && r.value != Unresolved <==>
      |code| > 0 && IsDigit(code[0]) && DigitValue(code[0]) < |Countries|
    ensures r.Ok? && r.value != Unresolved ==> r.value == Countries[DigitValue(code[0])]
    ensures r == Err(IndexError) <==> |code| > 0 && IsDigit(code[0]) && DigitValue(code[0]) >= |Countries|
    ensures r == Err(ValueError) <==> |code| > 0 && code[0] != '-' && !IsDigit(code[0])
  {
    if |code| > 0 && code[0] != '-' then
      if !IsDigit(code[0]) then Err(ValueError)
      else if DigitValue(code[0]) < |Countries| then Ok(Countries[DigitValue(code[0])])
      else Err(IndexError)
    else Ok(Unresolved)
  }

  /** The trim applied after classification: six-character codes lose their
      first character, all others are kept. */
  function TrimRegion(code: string): (r: string)
    ensures |code| == 6 ==> |r| == 5 && r == code[1..]
    ensures |code| != 6 ==> r == code
  {
    if |code| == 6 then code[1..] else code
  }

  /** Classifying a remapped code never raises, and only a fire outside every
      boundary polygon is unresolved; codes missing from the table are US
      codes, and the table's codes are Canadian, Mexican or other North
      American by their leading digit. */
  lemma RemapClassifies(fips: Option<string>)
    ensures GetCountry(Remap(fips)).Ok?
    ensures GetCountry(Remap(fips)).value == Unresolved <==> fips.None? || fips.value == ""
    ensures GetCountry(Remap(fips)).value == US <==>
      fips.Some? && RemapEntry(fips.value).None? && fips.value != ""
  {
  }

  /** Final region codes are five characters wide whenever the shapefile code
      is missing, empty, in the table, or itself five characters; a five-
      character code outside the table comes back unchanged. */
  lemma RegionWidth(fips: Option<string>)
    ensures fips.None? || fips.value == "" || RemapEntry(fips.value).Some? || |fips.value| == 5
      ==> |TrimRegion(Remap(fips))| == 5
    ensures fips.Some? && RemapEntry(fips.value).None? && |fips.value| == 5
      ==> TrimRegion(Remap(fips)) == fips.value
  {
    if fips.Some? && RemapEntry(fips.value).None? && |fips.value| == 5 {
      assert ("0" + fips.value)[1..] == fips.value;
    }
  }

  /** Classification must precede the trim: a US code such as "048001" is US,
      while its trimmed form "48001" would index past the country list. */
  lemma ClassifyBeforeTrim()
    ensures GetCountry(Remap(Some("48001"))) == Ok(US)
    ensures GetCountry(TrimRegion(Remap(Some("48001")))) == Err(IndexError)
  {
    assert RemapEntry("48001") == None;
    assert Remap(Some("48001")) == "048001";
    assert TrimRegion("048001") == "48001";
  }

  /** Classification code of a wildfire not specific to a burn phase. */
  const WildfireScc: string := "2810001000"

  /** Classification code of an agricultural fire. */
  const AgFireScc: string := "2801500000"

  /** The classification code from the vegetation class: grass (1) and crops
      (9) burn as agricultural fires, every other class as wildfire; a class
      that is not an integer raises. */
  function SccFor(vegetation: string): (r: Result<string>)
    ensures r.Err? <==> ParseInt(vegetation).None?
    ensures r.Err? ==> r.fault == ValueError
    ensures r.Ok? ==> (r.value == AgFireScc <==> ParseInt(vegetation).value == 1 || ParseInt(vegetation).value == 9)
    ensures r.Ok? ==> (r.value == WildfireScc <==> ParseInt(vegetation).value != 1 && ParseInt(vegetation).value != 9)
  {
    match ParseInt(vegetation)
    case None => Err(ValueError)
    case Some(v) => Ok(if v == 1 || v == 9 then AgFireScc else WildfireScc)
  }
}
