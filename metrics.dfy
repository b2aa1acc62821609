/**
 * The metric engine: year-over-year changes of a county's ratio metrics,
 * current minus previous, with absence of either year's record propagated
 * as an absent result.
 */
module Metrics {
  import opened Wrappers
  import opened FipsKey
  import opened RecordIndex

  /** Changes of the three ratio metrics, as fractions (not percentage points). */
  datatype TurnoutChanges = TurnoutChanges(voterTurnout: real, regVoterTurnout: real, regVotersPct: real)

  /** Both years' records of the county, when both are present. */
  predicate BothPresent(index: Index, fips: Scalar, currentYear: Scalar, previousYear: Scalar)
  {
    CompositeKey(fips, currentYear) in index && CompositeKey(fips, previousYear) in index
  }

  /** All three changes, or absent when either year's record is missing. */
  function GetTurnoutChanges(index: Index, fips: Scalar, currentYear: Scalar, previousYear: Scalar)
    : (r: Option<TurnoutChanges>)
    ensures r.Some? <==> BothPresent(index, fips, currentYear, previousYear)
    ensures r.Some? ==>
      var current := index[CompositeKey(fips, currentYear)];
      var previous := index[CompositeKey(fips, previousYear)];
      && previous.voterTurnoutPct + r.value.voterTurnout == current.voterTurnoutPct
      && previous.regVoterTurnoutPct + r.value.regVoterTurnout == current.regVoterTurnoutPct
      && previous.regVotersPct + r.value.regVotersPct == current.regVotersPct
  {
    var currentRecord := GetNationalRecord(index, fips, currentYear);
    var previousRecord := GetNationalRecord(index, fips, previousYear);
    if currentRecord.None? || previousRecord.None? then None
    else
      var current, previous := currentRecord.value, previousRecord.value;
      Some(TurnoutChanges(
        current.voterTurnoutPct - previous.voterTurnoutPct,
        current.regVoterTurnoutPct - previous.regVoterTurnoutPct,
        current.regVotersPct - previous.regVotersPct))
  }

  /** The voter-turnout change alone, or absent when either year's record is missing;
      the styling path uses this one. */
  function GetTurnoutChange(index: Index, fips: Scalar, currentYear: Scalar, previousYear: Scalar)
    : (r: Option<real>)
    ensures r.Some? <==> BothPresent(index, fips, currentYear, previousYear)
    ensures r.Some? ==>
      index[CompositeKey(fips, previousYear)].voterTurnoutPct + r.value
        == index[CompositeKey(fips, currentYear)].voterTurnoutPct
  {
    var currentRecord := GetNationalRecord(index, fips, currentYear);
    var previousRecord := GetNationalRecord(index, fips, previousYear);
    if currentRecord.None? || previousRecord.None? then None
    else Some(currentRecord.value.voterTurnoutPct - previousRecord.value.voterTurnoutPct)
  }

  /** The single-field change is the voter-turnout field of the three-field one. */
  lemma SingleChangeAgrees(index: Index, fips: Scalar, currentYear: Scalar, previousYear: Scalar)
    ensures GetTurnoutChange(index, fips, currentYear, previousYear)
        == match GetTurnoutChanges(index, fips, currentYear, previousYear)
           case None => None
           case Some(c) => Some(c.voterTurnout)
  {
  }

  /** Swapping the two years negates every change, and keeps absence. */
  lemma ChangesAntisymmetric(index: Index, fips: Scalar, yearA: Scalar, yearB: Scalar)
    ensures GetTurnoutChanges(index, fips, yearA, yearB).Some?
        <==> GetTurnoutChanges(index, fips, yearB, yearA).Some?
    ensures GetTurnoutChanges(index, fips, yearA, yearB).Some? ==>
      var ab, ba := GetTurnoutChanges(index, fips, yearA, yearB).value,
                    GetTurnoutChanges(index, fips, yearB, yearA).value;
      && ab.voterTurnout == -ba.voterTurnout
      && ab.regVoterTurnout == -ba.regVoterTurnout
      && ab.regVotersPct == -ba.regVotersPct
  {
  }

  /** Comparing a year with itself gives zero changes whenever the record exists. */
  lemma ChangesSameYear(index: Index, fips: Scalar, year: Scalar)
    ensures GetTurnoutChanges(index, fips, year, year).Some? <==> CompositeKey(fips, year) in index
    ensures GetTurnoutChanges(index, fips, year, year).Some? ==>
      GetTurnoutChanges(index, fips, year, year).value == TurnoutChanges(0.0, 0.0, 0.0)
  {
  }

  /** Changes over consecutive spans add up to the change over the whole span.
      This holds for the exact reals of this model only: the page subtracts
      IEEE-754 doubles, whose rounded differences need not add up exactly. */
  lemma ChangesCompose(index: Index, fips: Scalar, yearA: Scalar, yearB: Scalar, yearC: Scalar)
    requires GetTurnoutChanges(index, fips, yearA, yearB).Some?
    requires GetTurnoutChanges(index, fips, yearB, yearC).Some?
    ensures GetTurnoutChanges(index, fips, yearA, yearC).Some?
    ensures
      var ab, bc, ac := GetTurnoutChanges(index, fips, yearA, yearB).value,
                        GetTurnoutChanges(index, fips, yearB, yearC).value,
                        GetTurnoutChanges(index, fips, yearA, yearC).value;
      && ac.voterTurnout == ab.voterTurnout + bc.voterTurnout
      && ac.regVoterTurnout == ab.regVoterTurnout + bc.regVoterTurnout
      && ac.regVotersPct == ab.regVotersPct + bc.regVotersPct
  {
  }

  /** After loading a single record for county 6001 in 2020 (a number, as the
      statistics file carries it), the county's text code "06001" finds it for 2020,
      and the change from 2016 to 2020 is absent because 2016 is missing. */
  lemma OnlyOneYearLoaded(record: StatRecord)
    requires record.stcoFips10 == Num(6001) && record.year == Num(2020)
    ensures GetNationalRecord(IndexOf([record]), Text("06001"), Text("2020")) == Some(record)
    ensures GetTurnoutChanges(IndexOf([record]), Text("06001"), Text("2020"), Text("2016")) == None
    ensures GetTurnoutChange(IndexOf([record]), Text("06001"), Text("2020"), Text("2016")) == None
  {
    assert DecimalString(6001) == "6001";
    assert DecimalString(2020) == "2020";
    assert CanonicalFips(Num(6001)) == "06001";
    assert RecordKey(record) == "06001_2020";
    assert CompositeKey(Text("06001"), Text("2016")) == "06001_2016";
    assert IndexOf([record]) == map["06001_2020" := record];
  }
}
