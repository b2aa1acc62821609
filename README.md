# Voter turnout change map: join-and-classify core

A Dafny model of the logic behind a browser map of U.S. counties coloured by
the change in voter turnout between two election years (`script.js`). The page
loads a file of per-county, per-year statistics records and a county boundary
file. It indexes the records by a composite key built from the county's FIPS
code (two digits of state, three of county) and the year. For each county
polygon it computes the change of the turnout ratios between the two selected
years and maps the change to one of seven colours. A click selects or
deselects a county.

Modules, one per component:

- `Wrappers` (`wrappers.dfy`): `Option`, the model of `undefined`/`null` results.
- `FipsKey` (`fips_key.dfy`): `String(x)` for numbers and strings, `padStart(5, '0')`,
  and the composite key `<padded id>_<year>`. The builder and the lookup share one formula.
- `RecordIndex` (`record_index.dfy`): the statistics record, the index that one
  in-order pass of insertions builds (`IndexOf`), and `getNationalRecord`.
- `Metrics` (`metrics.dfy`): `getTurnoutChanges` and `getTurnoutChange`.
- `ColorScale` (`color_scale.dfy`): the seven-bucket classifier `getChangeColor`.
- `StateNames` (`state_names.dfy`): the state-code table and its `'Unknown'` fallback.
- `Session` (`session.dfy`): the page's global variables as the class `TurnoutMap`.
  Its methods build the index in a loop and toggle the selection. The module also
  holds the pure selection toggle and the per-polygon style callback.

Ratios are `real`, so a change is exact subtraction. County identifiers and years
are `Scalar = Num(nat) | Text(string)`. The statistics file may carry a number
(`1001`), while the boundary file and the year selectors give strings (`"01001"`,
`"2020"`). `String(x)` of either gives the same key.

Three facts about the classifier were proved rather than assumed. The code uses
`>=` on the increase side and `>` on the decrease side, with strong decrease
reached by elimination. So a change lying exactly on an edge goes to the
outer bucket on both sides: +5 pp is a strong increase and −5 pp is a strong
decrease. Negating a change mirrors its bucket (`ColorMirror`). The near-zero
bucket is the open interval (−0.5, +0.5) pp.

## Model

| member | source | states |
|---|---|---|
| `FipsKey.PadStart` | script.js:27 | the padded identifier is at least 5 characters long, and exactly 5 when the input is shorter |
| `FipsKey.PadStartContents` | script.js:27 | the padded identifier ends with the original and has only '0' in front of it |
| `FipsKey.PadStartIdempotent` | script.js:35 | padding an already padded identifier changes nothing |
| `FipsKey.DecimalString` | script.js:35 | `String(n)` is a non-empty digit string with no leading zero |
| `FipsKey.DigitsValueOfDecimal` | script.js:35 | reading back the digits of `String(n)` gives `n` |
| `FipsKey.DecimalStringInjective` | script.js:35 | distinct numbers stringify to distinct strings |
| `FipsKey.Stringify` | script.js:35 | `String(x)` gives a string back unchanged and gives a number as its canonical decimal spelling: a non-empty digit string, without leading zeros, that reads back as that number |
| `FipsKey.CanonicalFipsShape` | script.js:27 | an identifier of at most five digits pads to exactly five digits |
| `FipsKey.CanonicalFips` | script.js:27 | the padded identifier is at least 5 characters long, and exactly 5 when `String(x)` is at most 5 long |
| `FipsKey.CompositeKey` | script.js:27 | the key's length is the padded identifier's, plus one, plus the year string's, and a '_' stands right after the padded identifier |
| `FipsKey.CompositeKeyParts` | script.js:27 | the key's part before that '_' is the padded identifier and its part after it is the year string |
| `FipsKey.KeySplit` | script.js:27 | a key splits uniquely at its first '_' when the identifier part has none |
| `FipsKey.CompositeKeyInjective` | script.js:27 | for valid identifiers, two keys are equal iff the padded identifiers and the year strings are equal |
| `FipsKey.FiveDigitKeysDistinct` | script.js:27 | 5-digit identifiers with 4-digit years: equal keys iff equal pairs |
| `FipsKey.NumericKeysDistinct` | script.js:35 | numeric identifiers below 100000 with numeric years: equal keys iff equal pairs, despite the added zeros |
| `FipsKey.NumericIdMatchesPaddedText` | script.js:35 | a numeric identifier in a record and its zero-padded text from the boundary file give the same key |
| `RecordIndex.RecordKey` | script.js:35 | a record stored under its builder key is found by a lookup of its own identifier and year (script.js:27), so builder and lookup agree |
| `RecordIndex.InsertAll` | script.js:33-37 | after in-order insertion the last value sits under its own key; no values give an empty dictionary |
| `RecordIndex.InsertAllHasKey` | script.js:33-37 | in-order insertion holds a key iff some value has that key, for any key function |
| `RecordIndex.InsertAllLastWins` | script.js:34-37 | in-order insertion keeps, under each key, the last value with that key, for any key function |
| `RecordIndex.IndexOf` | script.js:33-37 | the last record sits under its own key in the built index; no records give an empty index |
| `RecordIndex.GetNationalRecord` | script.js:26-29 | the lookup is present iff the key is in the index, and then it is the stored record; a missing key is absent, never an error |
| `RecordIndex.IndexOfHasKey` | script.js:33-37 | the built index holds a key iff some record has that key |
| `RecordIndex.IndexOfLastWins` | script.js:34-37 | under each key the built index holds the last record with that key (last write wins) |
| `RecordIndex.IndexOfKeys` | script.js:33-37 | the index's keys are exactly the records' keys: nothing is left over from an earlier build |
| `RecordIndex.LookupAfterBuild` | script.js:26-38 | a lookup after the build is absent iff no record has the key, otherwise it is the last record with the key |
| `RecordIndex.LookupInEmptyIndex` | script.js:33 | an index built from no records answers every lookup with absent |
| `RecordIndex.EveryRecordRetrievable` | script.js:27-36 | every loaded record is found by its own identifier and year, as itself or as a later record with the same key |
| `RecordIndex.LookupUniqueKeys` | script.js:34-37 | with no duplicate keys, every record is found as itself |
| `Metrics.GetTurnoutChanges` | script.js:40-58 | absent iff either year's record is absent; otherwise each of the three changes is what takes the previous value to the current one |
| `Metrics.GetTurnoutChange` | script.js:60-74 | absent iff either year's record is absent; otherwise the change takes the previous turnout to the current one |
| `Metrics.SingleChangeAgrees` | script.js:69-73 | the single-field change equals the voter-turnout field of the three-field change, absence included |
| `Metrics.ChangesAntisymmetric` | script.js:49-57 | swapping the years keeps absence and negates every change |
| `Metrics.ChangesSameYear` | script.js:49-57 | a year compared with itself gives zero changes whenever its record exists |
| `Metrics.ChangesCompose` | script.js:49-57 | the changes over two consecutive spans add up to the change over the whole span |
| `Metrics.OnlyOneYearLoaded` | script.js:41-46 | a record loaded with numeric id 6001 for 2020 is found by "06001"; the 2016-to-2020 change is absent because 2016 is missing |
| `ColorScale.GetChangeColor` | script.js:77-91 | absent maps to no-data; otherwise each of the seven buckets is exactly its interval of percentage points, so the result is exactly one bucket |
| `ColorScale.Hex` | script.js:78-90 | every colour is written as '#' and six more characters, seven in all |
| `ColorScale.HexInjective` | script.js:78-90 | the eight colours are pairwise distinct |
| `ColorScale.ColorMonotone` | script.js:84-90 | a larger change never lands in a lower bucket |
| `ColorScale.ColorMirror` | script.js:84-90 | negating a change mirrors its bucket |
| `ColorScale.ColorEdges` | script.js:78-90 | null gives no-data; 0.05, 0.02, 0.005, 0, −0.005, −0.02 and −0.05 land in the strong, moderate and slight increase, near-zero, and slight, moderate and strong decrease buckets |
| `StateNames.TableNamesKnown` | script.js:9-23 | no table entry is empty or reads 'Unknown' |
| `StateNames.StateName` | script.js:182 | the result is 'Unknown' iff the code is not in the table, the table's name otherwise, and never empty |
| `StateNames.StateCode` | script.js:180 | `substring(0, 2)` is the first two characters, or the whole string when it is shorter |
| `StateNames.CountyStateName` | script.js:180-182 | a code shorter than two characters resolves to 'Unknown', and the result is never empty |
| `StateNames.StateNameExamples` | script.js:182 | "72" resolves to Puerto Rico and the unassigned code "03" to 'Unknown' |
| `StateNames.PanelAndTooltipAgree` | script.js:180-182 | the first two characters of a county code and the feature's own state code give the same state name |
| `StateNames.CountyStateNameExamples` | script.js:180-182 | "72001" resolves to Puerto Rico; a one-character code resolves to 'Unknown' |
| `Session.Toggle` | script.js:227-233 | the selection becomes null iff the clicked code was selected, and the clicked code otherwise |
| `Session.ToggleTwiceFromNone` | script.js:227-233 | clicking the same county twice from no selection returns to no selection |
| `Session.ToggleSelectsOnlyClicked` | script.js:227-233 | after a click only the clicked county can be selected, and it is selected iff it was not before |
| `Session.CountyStyle` | script.js:255-266 | the fill is the classifier's colour of the county's turnout change between the two years, and no-data iff either year's record is missing; weight 3 and colour `#ffff00` iff the county is selected, weight 0.5 and white otherwise; opacity 1 and fill opacity 0.7 always |
| `Session.AtMostOneHighlighted` | script.js:258-264 | two different counties are never both highlighted, and the selection never changes a fill |
| `Session.SwappedYearsMirrorFill` | script.js:257-261 | swapping the two years mirrors every county's fill colour |
| `Session.TurnoutMap.constructor` | script.js:2-6 | the page starts with no records, an empty index, no selection, and nothing loaded |
| `Session.TurnoutMap.BuildDataIndex` | script.js:32-38 | the index afterwards is the in-order insertion of the records, whatever it held before, so rebuilding is idempotent |
| `Session.TurnoutMap.CompleteLoad` | script.js:112-118 | after both files arrive, the records are kept, the index is built from them, and the data is marked loaded |
| `Session.TurnoutMap.HighlightCounty` | script.js:225-235 | the selection afterwards is the toggle of the old selection by the clicked code |
| `Session.TurnoutMap.RebuildAndDoubleClick` | script.js:33-37 | a usage demonstration of the index build (script.js:33-37) and the click handler (script.js:227-233): building the index twice gives the same index as once; two clicks on one county from no selection leave none |

## Left out

- Fetching the two files (`fetchData`, script.js:94-126): network I/O, JSON parsing and the error message. Only the state change after a successful load is modelled (`CompleteLoad`). The failure path, which leaves the index unbuilt, is not.
- Map set-up and drawing (`initMap`, the Leaflet calls in `updateMap`): these belong to a mapping library outside this model. Of `updateMap`, the style callback (`CountyStyle`), the tooltip's state name (`StateName`, `PanelAndTooltipAgree`) and the click handler's state change (`HighlightCounty`) are modelled, not the rest of the tooltip text nor the registration of the click listener.
- The 100 ms debounce of redraws: timer scheduling, no state the core keeps.
- `highlightCounty`'s calls to `displayCountyInfo` and `updateMap` after the toggle: DOM output and a redraw.
- The detail panel's HTML, the `toFixed(2)` formatting and the "N/A" placeholders: decimal string rendering of floats. Of the panel, only the state-name resolution is modelled.
- The county-name search over the boundary features (`features.find`): the structure of the geometry file is not part of this model.
- IEEE-754 arithmetic: ratios are exact `real`s, so rounding of the subtraction and of `change * 100` near a bucket edge is not captured.
- JavaScript's dynamic values: identifiers and years are non-negative integers or strings. Negative or fractional numbers, `null` fields and malformed records are not modelled. A number is a natural printed in plain decimal at any size, whereas a JavaScript number is a double: `String` switches to exponent notation from 1e21 and integers above 2^53 are not exact; no county identifier or year comes near either bound. Strings are sequences of characters, not of UTF-16 code units, so `padStart` and `substring` would differ only on characters outside the Basic Multilingual Plane, which identifiers and years do not contain.
- Keys inherited through JavaScript's object prototype: the index and the state table are plain maps with no inherited entries.
