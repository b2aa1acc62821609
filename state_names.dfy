/** State display names by two-digit state FIPS code, with 'Unknown' for any
    code the table does not list. */
module StateNames {

  /** The table is written as two displays, codes below 30 and codes from 30
      up, whose keys are disjoint. Each display is small enough for the
      verifier to reason about its 26 string keys within its resource budget;
      facts about the whole table are proved half by half, and the facts about
      single codes below are each stated in a lemma of their own for the same
      reason. */
  const STATE_NAMES: map<string, string> := CODES_BELOW_30 + CODES_FROM_30

  const CODES_BELOW_30: map<string, string> := map[
    "01" := "Alabama", "02" := "Alaska", "04" := "Arizona", "05" := "Arkansas",
    "06" := "California", "08" := "Colorado", "09" := "Connecticut", "10" := "Delaware",
    "11" := "District of Columbia", "12" := "Florida", "13" := "Georgia", "15" := "Hawaii",
    "16" := "Idaho", "17" := "Illinois", "18" := "Indiana", "19" := "Iowa",
    "20" := "Kansas", "21" := "Kentucky", "22" := "Louisiana", "23" := "Maine",
    "24" := "Maryland", "25" := "Massachusetts", "26" := "Michigan", "27" := "Minnesota",
    "28" := "Mississippi", "29" := "Missouri"
  ]

  const CODES_FROM_30: map<string, string> := map[
    "30" := "Montana", "31" := "Nebraska", "32" := "Nevada", "33" := "New Hampshire",
    "34" := "New Jersey", "35" := "New Mexico", "36" := "New York", "37" := "North Carolina",
    "38" := "North Dakota", "39" := "Ohio", "40" := "Oklahoma", "41" := "Oregon",
    "42" := "Pennsylvania", "44" := "Rhode Island", "45" := "South Carolina", "46" := "South Dakota",
    "47" := "Tennessee", "48" := "Texas", "49" := "Utah", "50" := "Vermont",
    "51" := "Virginia", "53" := "Washington", "54" := "West Virginia", "55" := "Wisconsin",
    "56" := "Wyoming", "72" := "Puerto Rico"
  ]

  const UNKNOWN: string := "Unknown"

  /** `stateNames[code] || 'Unknown'`: every table entry is a non-empty string,
      so the fallback is taken exactly for codes outside the table. */
  function StateName(code: string): (name: string)
    ensures name == UNKNOWN <==> code !in STATE_NAMES
    ensures code in STATE_NAMES ==> name == STATE_NAMES[code]
    ensures name != ""
  {
    TableNamesKnown();
    if code in STATE_NAMES && STATE_NAMES[code] != "" then STATE_NAMES[code] else UNKNOWN
  }

  /** No table entry is empty or reads 'Unknown'. */
  lemma TableNamesKnown()
    ensures forall code :: code in STATE_NAMES ==> STATE_NAMES[code] != "" && STATE_NAMES[code] != UNKNOWN
  {
    LowNamesKnown();
    HighNamesKnown();
  }

  lemma LowNamesKnown()
    ensures forall code :: code in CODES_BELOW_30 ==> CODES_BELOW_30[code] != "" && CODES_BELOW_30[code] != UNKNOWN
  {
  }

  lemma HighNamesKnown()
    ensures forall code :: code in CODES_FROM_30 ==> CODES_FROM_30[code] != "" && CODES_FROM_30[code] != UNKNOWN
  {
  }

  /** `fipsCode.substring(0, 2)`: the first two characters, or all of a shorter string. */
  function StateCode(fips: string): (code: string)
    ensures |code| == if |fips| < 2 then |fips| else 2
    ensures code == fips[..|code|]
  {
    if |fips| < 2 then fips else [fips[0], fips[1]]
  }

  /** The state name of the detail panel, from the county's five-digit code. */
  function CountyStateName(fips: string): (name: string)
    ensures |fips| < 2 ==> name == UNKNOWN
    ensures name != ""
  {
    TableCodesTwoLong();
    StateName(StateCode(fips))
  }

  /** The detail panel (first two characters of the county code) and the tooltip
      (the feature's own state code) name the same state. */
  lemma PanelAndTooltipAgree(stateFp: string, countyFp: string)
    requires |stateFp| == 2
    ensures CountyStateName(stateFp + countyFp) == StateName(stateFp)
  {
    assert StateCode(stateFp + countyFp) == stateFp;
  }

  /** Every code in the table is two characters long. */
  lemma TableCodesTwoLong()
    ensures forall code :: code in STATE_NAMES ==> |code| == 2
  {
    LowCodesTwoLong();
    HighCodesTwoLong();
  }

  lemma LowCodesTwoLong()
    ensures forall code :: code in CODES_BELOW_30 ==> |code| == 2
  {
  }

  lemma HighCodesTwoLong()
    ensures forall code :: code in CODES_FROM_30 ==> |code| == 2
  {
  }

  lemma PuertoRicoListed()
    ensures "72" in STATE_NAMES && STATE_NAMES["72"] == "Puerto Rico"
  {
  }

  lemma Code03NotListed()
    ensures "03" !in STATE_NAMES
  {
  }

  lemma Code7NotListed()
    ensures "7" !in STATE_NAMES
  {
  }

  /** A code the table lists resolves to its name; code 03, which the table
      skips, resolves to 'Unknown'. */
  lemma StateNameExamples()
    ensures StateName("72") == "Puerto Rico"
    ensures StateName("03") == UNKNOWN
  {
    PuertoRicoListed();
    Code03NotListed();
  }

  /** A county code resolves through its first two characters; a code too short
      to hold a state code resolves to 'Unknown'. */
  lemma CountyStateNameExamples()
    ensures CountyStateName("72001") == "Puerto Rico"
    ensures CountyStateName("7") == UNKNOWN
  {
    assert StateCode("72001") == "72";
    PuertoRicoListed();
    Code7NotListed();
  }
}
