# Geo_trafic correlation engine in Dafny

This project models the geometric correlation core of `opencellid_service.py`.
That script reads exported call-traffic tables, resolves cell-tower addresses to
coordinates, and decides which recorded connections could plausibly have been
served by a tower sector facing the subscriber. The model covers:

- **Bearing normalisation** (`azimuth`, `Geo.Azimuth`). The raw geodesic bearing
  becomes `(brng + 360) % 360`, with Python's flooring float modulus written out
  (`Geo.FloorMod360`).
- **The azimuth-match predicate** (`check_azimuth_difference`,
  `Geo.CheckAzimuthDifference`). It takes the absolute bearing difference, folds
  it the short way round above 180, and accepts it when it is at most the arc.
  The arc defaults to 60 and the bound is inclusive. Its reference partner is
  `Geo.CircularDistance`, the smallest gap to any of the representatives
  `b - 360`, `b`, `b + 360` of the sector azimuth.
- **Per-row correlation** (`count_dist_tower_and_coord`, `Traffic.CorrelateRow`
  and `Traffic.TrafficDataSet.CountDistTowerAndCoord`). Each row gains the
  distance from the subscriber point to its tower, the bearing from the tower to
  the subscriber, and the match flag.
- **The night-time selection** of `count_connection_group_by_day`
  (`Traffic.NightConnections`). It keeps flagged rows closer than 1500 m with an
  hour in [0, 6), in table order.
- **The sorted list of distinct tower addresses** (`get_towers_address`,
  `Traffic.TowerAddresses`). It uses Python's string order (`TextOrder.Less`).
- **Near-duplicate address merging** (`preparing_data`,
  `Traffic.TrafficDataSet.PreparingData`). It is an in-place loop over the table,
  specified by `Traffic.Prepared`. It uses the Levenshtein distance
  (`Levenshtein.EditDistance`).

The traffic table is the class `Traffic.TrafficDataSet`. Its `rows: seq<Row>`
field is what the source holds in `self.df`; the two operations that rewrite the
frame in place reassign it. A `Row` carries the columns the core reads:

- the hour of the timestamp (`Дата та час`);
- the configured address column;
- the sector azimuth (`Азимут`);
- the tower coordinate (`lat`, `lon`);
- once computed, the `dist`, `azimuth` and `azimuth_in_range` columns (`Metrics`).

Both ellipsoidal computations belong to foreign libraries:
`distance.distance(...).meters` and the `azi1` of `Geodesic.WGS84.Inverse`. They
are the caller-supplied function values of `Geo.Geodesy`. Their `None` result
stands for the `ValueError` the source catches and turns into `None`. Once stored
in a numeric column, that missing value is NaN, and every comparison with NaN is
false. So a row without a bearing is never flagged, and a row without a distance
never passes the `dist < 1500` test.

`preparing_data` iterates with `iterrows()` over a copy of the row values taken
when the loop starts. Each rewrite `df.loc[df[col] == a, col] = c` acts on the
live frame. The model therefore reads the original rows (`snapshot`) and applies
each rewrite to the current `rows`.

Behaviour of the code worth noting:

- `azimuth(p, p)` returns whatever the geodesic library returns for a
  zero-length line, normalised. No sentinel is produced.
- `check_azimuth_difference` is symmetric in its two bearings, because it uses
  `abs` (`Geo.CheckAzimuthDifferenceSymmetric`).
- The night-time selection hard-codes 1500 m and the hours [0, 6). It ignores
  the `distance` argument (`Traffic.NightConnectionsIgnoreDistance`). The
  threshold and the window are not caller-supplied.

## Model

| member | source | states |
|---|---|---|
| `Geo.FloorMod360` | opencellid_service.py:80 | Python's `x % 360` on floats: the result lies in [0, 360) and differs from `x` by a whole number of turns |
| `Geo.NormalizeBearing` | opencellid_service.py:80 | `(brng + 360) % 360` lies in [0, 360) and is the input turned by a whole number of full circles |
| `Geo.NormalizeGeodesicBearing` | opencellid_service.py:79-80 | for a library bearing in [-180, 180], a negative bearing becomes `brng + 360` and a non-negative one is unchanged |
| `Geo.NormalizeBearingFixesCompassRange` | opencellid_service.py:80 | a bearing already in [0, 360) is left unchanged |
| `Geo.Azimuth` | opencellid_service.py:77-83 | the result is missing exactly when the library fails; otherwise it is in [0, 360) and congruent to the raw `azi1` modulo 360 |
| `Geo.FoldedDifference` | opencellid_service.py:421-424 | for bearings in [0, 360], the folded difference equals the circular distance and lies in [0, 180] |
| `Geo.CheckAzimuthDifference` | opencellid_service.py:421-425 | for bearings in [0, 360], true exactly when the circular distance is at most `arc` (inclusive); every pair passes once `arc >= 180` |
| `Geo.CheckAzimuthDifferenceSymmetric` | opencellid_service.py:422 | swapping the observed and the recorded bearing never changes the answer |
| `Geo.CheckAzimuthDifferenceDoesNotNormalize` | opencellid_service.py:421-425 | out-of-range inputs are not normalised: (0, 600) passes although (0, 240) does not |
| `Geo.CheckAzimuthDifferenceSector60` | Test.py:178-193 | the unit-test pairs for sector azimuth 60 with the default arc: 360 and 120 pass, 359 and 121 fail |
| `Geo.CheckAzimuthDifferenceSector0` | Test.py:180-195 | the unit-test pairs for sector azimuth 0: 340 and 60 pass, 299 and 61 fail |
| `Geo.CheckAzimuthDifferenceSector350` | Test.py:183-198 | the unit-test pairs for sector azimuth 350: 50 and 290 pass, 51 and 289 fail |
| `Geo.CheckAzimuthDifferenceSector120` | Test.py:186-201 | the unit-test pairs for sector azimuth 120: 60 and 180 pass, 59 and 181 fail |
| `Geo.CheckAzimuthDifferenceSector10` | Test.py:189-204 | the unit-test pairs for sector azimuth 10: 70 and 359 pass, 71 and 309 fail |
| `Levenshtein.EditDistance` | opencellid_service.py:273-275 | stands for `Levenshtein.distance`: the distance is at least the difference of the two lengths and at most the longer length, so spellings whose lengths differ by three or more never pass the `distance < 3` guard; `EditDistanceZeroIff` and `EditDistanceSymmetric` pin down the rest the guard relies on |
| `Levenshtein.EditDistanceZeroIff` | opencellid_service.py:273-275 | the edit distance is 0 exactly for equal strings, so the `distance > 0` guard excludes only identical spellings |
| `Levenshtein.EditDistanceSymmetric` | opencellid_service.py:273 | the distance does not depend on which address is the stored one |
| `TextOrder.Less` | opencellid_service.py:181 | Python's `<` on strings, which `sorted` uses: lexicographic by code point, a proper prefix first; `LessIrreflexive`, `LessAsymmetric`, `LessTotal` and `LessTransitive` prove it a strict total order |
| `TextOrder.Insert` | opencellid_service.py:180-181 | inserting into a strictly sorted list keeps it strictly sorted, adds exactly the new string, and drops a repeat |
| `TextOrder.StrictlySortedIsDistinct` | opencellid_service.py:181 | a strictly sorted list is ordered between any two positions and holds no string twice |
| `Traffic.CorrelateRow` | opencellid_service.py:225-229 | only the correlation columns change; `dist` is the distance from the point to the tower; `azimuth` is the normalised bearing from the tower to the point; the flag needs a bearing |
| `Traffic.CorrelatedFlagMeansInsideSector` | opencellid_service.py:228-229 | for a sector azimuth in [0, 360], the flag holds exactly when a bearing exists, lies in [0, 360), and is within 60 degrees of the sector azimuth round the circle |
| `Traffic.IsNightConnection` | opencellid_service.py:234-237 | the mask of one row: flagged in range, distance present and below 1500 m, hour in [0, 6); a row without correlation columns fails it; `NightConnectionsSelectsExactly` shows the selection keeps exactly the rows that pass it |
| `Traffic.NightConnections` | opencellid_service.py:234-237 | the masked frame `df_filtered`; `NightConnectionsSelectsExactly` states that it holds exactly the rows passing the mask, each as often as the table does, and `NightConnectionsAppend` that it keeps table order |
| `Traffic.NightConnectionsSelectsExactly` | opencellid_service.py:234-237 | every selected row is flagged, closer than 1500 m and in hours [0, 6); each such row is kept as often as the table holds it, and nothing else is kept |
| `Traffic.NightConnectionsAppend` | opencellid_service.py:234-237 | the selection keeps table order: selecting from a concatenation is concatenating the selections |
| `Traffic.NightConnectionsIgnoreDistance` | opencellid_service.py:231-235 | the result is the same for every value of the `distance` argument |
| `Traffic.TowerAddresses` | opencellid_service.py:172-184 | the list is strictly sorted in Python string order and contains exactly the addresses occurring in the table |
| `Traffic.TowerAddressesDistinct` | opencellid_service.py:180-184 | no address appears twice in the list |
| `Traffic.FirstSeen` | opencellid_service.py:265-269 | every address the coordinate dictionary stores occurs in the rows read so far |
| `Traffic.FirstSeenKeepsFirstAddress` | opencellid_service.py:265-271 | the first row at a coordinate fixes the address stored for it, and later rows never change it |
| `Traffic.FirstSeenAbsent` | opencellid_service.py:268-269 | a coordinate no row carries is not in the dictionary |
| `Traffic.ReplaceAddress` | opencellid_service.py:276 | every row carrying the near-duplicate spelling now carries the stored address; all other rows are untouched |
| `Traffic.NearDuplicateAt` | opencellid_service.py:267-275 | the test applied to row `j`: its coordinate is already in the dictionary, and the stored address is one or two edits from the row's own; `NearDuplicateIsMerged` and `PreparedWithoutNearDuplicates` state what follows when it holds and when it never holds |
| `Traffic.PrepareStep` | opencellid_service.py:267-276 | one iteration's effect on the live table: the masked rewrite when row `j` is a near duplicate, otherwise nothing; `PreparedPrefixStep` unfolds it for the loop |
| `Traffic.PreparedPrefix` | opencellid_service.py:265-276 | the live table after the loop has read the first `n` snapshot rows; `PreparedOnlyRewritesAddresses` states that it keeps every column but the address and only writes addresses the table held |
| `Traffic.Prepared` | opencellid_service.py:263-277 | the table after `preparing_data`; `PreparingData` is proved to produce it, and `NearDuplicateIsMerged`, `PreparedWithoutNearDuplicates` and `PreparedOnlyRewritesAddresses` characterise it |
| `Traffic.PreparedOnlyRewritesAddresses` | opencellid_service.py:263-277 | de-duplication keeps the row count and every column but the address; it only writes addresses the table already held |
| `Traffic.NearDuplicateIsMerged` | opencellid_service.py:270-276 | after a row one or two edits from its coordinate's stored address is read, no row carries its spelling; rows that did now carry the address of the coordinate's first row |
| `Traffic.PreparedWithoutNearDuplicates` | opencellid_service.py:270-276 | when every repeated coordinate's address is at distance 0 or at least 3 from the stored one, the table is unchanged |
| `Traffic.TrafficDataSet.constructor` | opencellid_service.py:166-170 | the data set holds the table it was given |
| `Traffic.TrafficDataSet.CountDistTowerAndCoord` | opencellid_service.py:225-229 | the row count and order stay the same, and every row becomes its correlated version |
| `Traffic.TrafficDataSet.SelectNightConnections` | opencellid_service.py:231-237 | returns the night-time selection of the current table, which is left unchanged |
| `Traffic.TrafficDataSet.GetTowersAddress` | opencellid_service.py:172-184 | returns a strictly sorted list of exactly the table's distinct addresses |
| `Traffic.TrafficDataSet.PreparingData` | opencellid_service.py:263-277 | the new table is the de-duplication of the old one, and differs from it only in addresses that the old table already held |

## Left out

- Geocoding through the external geocoding service (`GeoCodingService`, `CoordWithAddress`, `get_coord_from_address`, `add_coord_to_dataframe_and_save_to_file`): network calls. Rows arrive with their tower coordinate already resolved.
- The cell-tower database query and console output (`get_cells`, `main`, `Tower.__str__`): HTTP and printing.
- Geodesy numerics: the ellipsoidal distance and inverse-problem bearing are foreign floating-point computations, so they are parameters (`Geo.Geodesy`).
- `Coord.square_from_point`: float square-root and cosine arithmetic. Its corners are the centre plus and minus positive deltas; not modelled.
- `Coord.from_str`, `Coord.to_str`: string parsing and rounding for URLs, and `quit()` on a parse error.
- Spreadsheet I/O (`read_dataset`, `to_excel`): the constructor receives the table.
- The calendar-day grouping and count of `count_connection_group_by_day` (`pd.Grouper`, line 238) and its `print`: the model returns the selected rows before grouping.
- `get_count_connection_by_tower`, `get_max_connection_by_tower`: per-address counting used only for map marker colours.
- `generate_file_name`: filesystem-dependent (and it never increments its counter).
- Map rendering and the browser launch (`put_towers_to_map`, `put_trafic_to_map`, `TraficMap`).
- Floating point: angles, coordinates and distances are exact reals. Float rounding is not modelled; for example, a bearing a hair below 0 can round to 360.0 and then to 0.
- Unresolved (NaN) tower coordinates, and non-string cells in the address column: the model has a coordinate and a string address for every row.
- A NaN in the `Азимут` column and a NaT in `Дата та час`: the source's row tests come out false for them (`abs(b - NaN) <= 60` is false, and so are the hour comparisons on NaT). The model gives every row a real sector azimuth and an integer hour, so it cannot represent either.
- `Levenshtein.distance` is replaced by the standard recursive definition of Levenshtein distance.
- `Traffic.CorrelateRow`: when the library fails for every row, pandas keeps the bearings as `None` in an object column, and the next `apply` raises `TypeError`. The model treats the missing bearing as NaN, as pandas does once at least one bearing succeeds.
- `Traffic.NightConnections`: on a table that was never correlated, the source raises `KeyError` for the missing columns. The model selects nothing from rows without the correlation columns.
- `Traffic.TrafficDataSet.GetTowersAddress`: the `col_name` argument is not modelled. The listing always reads the configured address column, and `astype(str)` is the identity on string addresses.
- Printing in `preparing_data` (lines 274, 277) is left out.
