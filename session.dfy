/**
 * The page's mutable state and the operations that change it: the loaded
 * records, the index built from them, and the currently selected county; plus
 * the per-county style the map asks for, which reads that state.
 */
module Session {
  import opened Wrappers
  import opened FipsKey
  import opened RecordIndex
  import opened Metrics
  import opened ColorScale

  /** Clicking `fips`: the selected county is cleared when it is the one
      clicked, and otherwise becomes the clicked county. */
  function Toggle(selected: Option<string>, fips: string): (next: Option<string>)
    ensures next == None <==> selected == Some(fips)
    ensures next != None ==> next == Some(fips)
  {
    if selected == Some(fips) then None else Some(fips)
  }

  /** Clicking the same county twice from no selection leaves nothing selected. */
  lemma ToggleTwiceFromNone(fips: string)
    ensures Toggle(Toggle(None, fips), fips) == None
  {
  }

  /** After a click, `other` is selected only if it was clicked; a county other
      than the clicked one is never selected afterwards. */
  lemma ToggleSelectsOnlyClicked(selected: Option<string>, fips: string, other: string)
    requires other != fips
    ensures Toggle(selected, fips) != Some(other)
    ensures Toggle(selected, fips) == Some(fips) <==> selected != Some(fips)
  {
  }

  /** The style the map draws a county polygon with. */
  datatype PolygonStyle = PolygonStyle(
    fillColor: ChangeColor,
    weight: real,
    opacity: real,
    color: string,
    fillOpacity: real)

  const SELECTED_WEIGHT: real := 3.0
  const DEFAULT_WEIGHT: real := 0.5

  /** The style callback: fill by the voter-turnout change, a thick yellow
      outline for the selected county, a thin white one otherwise. */
  function CountyStyle(index: Index, selected: Option<string>, fips: string,
                       currentYear: Scalar, previousYear: Scalar): (s: PolygonStyle)
    ensures s.fillColor == GetChangeColor(GetTurnoutChange(index, Text(fips), currentYear, previousYear))
    ensures s.fillColor == NoData <==> !BothPresent(index, Text(fips), currentYear, previousYear)
    ensures s.weight == if selected == Some(fips) then SELECTED_WEIGHT else DEFAULT_WEIGHT
    ensures s.color == if selected == Some(fips) then "#ffff00" else "white"
    ensures s.opacity == 1.0 && s.fillOpacity == 0.7
  {
    var change := GetTurnoutChange(index, Text(fips), currentYear, previousYear);
    var isSelected := Some(fips) == selected;
    PolygonStyle(
      GetChangeColor(change),
      if isSelected then SELECTED_WEIGHT else DEFAULT_WEIGHT,
      1.0,
      if isSelected then "#ffff00" else "white",
      0.7)
  }

  /** At most one polygon is highlighted, and the selection does not change
      any polygon's fill. */
  lemma AtMostOneHighlighted(index: Index, selected: Option<string>, a: string, b: string,
                             currentYear: Scalar, previousYear: Scalar)
    requires a != b
    ensures !(CountyStyle(index, selected, a, currentYear, previousYear).weight == SELECTED_WEIGHT
              && CountyStyle(index, selected, b, currentYear, previousYear).weight == SELECTED_WEIGHT)
    ensures CountyStyle(index, selected, a, currentYear, previousYear).fillColor
         == CountyStyle(index, None, a, currentYear, previousYear).fillColor
  {
  }

  /** Swapping the two years mirrors every polygon's fill colour. */
  lemma SwappedYearsMirrorFill(index: Index, selected: Option<string>, fips: string,
                               currentYear: Scalar, previousYear: Scalar)
    ensures CountyStyle(index, selected, fips, previousYear, currentYear).fillColor
         == Mirror(CountyStyle(index, selected, fips, currentYear, previousYear).fillColor)
  {
    var forward := GetTurnoutChange(index, Text(fips), currentYear, previousYear);
    var backward := GetTurnoutChange(index, Text(fips), previousYear, currentYear);
    if forward.Some? {
      assert backward == Some(-forward.value);
      ColorMirror(forward.value);
    }
  }

  /** The module-level state of the page. */
  class TurnoutMap {
    var icpsrData: seq<StatRecord>
    var icpsrDataMap: Index
    var selectedCountyFIPS: Option<string>
    var dataLoaded: bool

    /** The state before anything is loaded. */
    constructor ()
      ensures icpsrData == [] && icpsrDataMap == map[]
      ensures selectedCountyFIPS == None && !dataLoaded
    {
      icpsrData := [];
      icpsrDataMap := map[];
      selectedCountyFIPS := None;
      dataLoaded := false;
    }

    /** Resets the index and inserts every record under its key, in order;
        the result depends only on the records, whatever the index held before. */
    method BuildDataIndex()
      modifies this`icpsrDataMap
      ensures icpsrDataMap == IndexOf(icpsrData)
    {
      icpsrDataMap := map[];
      for i := 0 to |icpsrData|
        invariant icpsrDataMap == IndexOf(icpsrData[..i])
      {
        var record := icpsrData[i];
        assert icpsrData[..i + 1] == icpsrData[..i] + [record];
        IndexOfAppend(icpsrData[..i], record);
        icpsrDataMap := icpsrDataMap[RecordKey(record) := record];
      }
      assert icpsrData[..|icpsrData|] == icpsrData;
    }

    /** What happens once both files have arrived: keep the records, build
        the index from them, and mark the data as loaded. */
    method CompleteLoad(records: seq<StatRecord>)
      modifies this`icpsrData, this`icpsrDataMap, this`dataLoaded
      ensures icpsrData == records && icpsrDataMap == IndexOf(records) && dataLoaded
    {
      icpsrData := records;
      BuildDataIndex();
      dataLoaded := true;
    }

    /** The click handler's state change. */
    method HighlightCounty(fips: string)
      modifies this`selectedCountyFIPS
      ensures selectedCountyFIPS == Toggle(old(selectedCountyFIPS), fips)
    {
      if selectedCountyFIPS == Some(fips) {
        selectedCountyFIPS := None;
      } else {
        selectedCountyFIPS := Some(fips);
      }
    }

    /** A usage demonstration rather than a routine of the page: it drives the
        index build (`buildDataIndex`) twice and the click handler
        (`highlightCounty`) twice on one county, and shows that the state is
        then as a single build and no click would leave it. */
    method RebuildAndDoubleClick(fips: string)
      requires selectedCountyFIPS == None
      modifies this`icpsrDataMap, this`selectedCountyFIPS
      ensures icpsrDataMap == IndexOf(icpsrData) && selectedCountyFIPS == None
    {
      BuildDataIndex();
      BuildDataIndex();
      HighlightCounty(fips);
      HighlightCounty(fips);
    }
  }
}
