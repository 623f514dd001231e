# Busan trip-route page: filter and route assembly

A Dafny model of the logic of `a.py`, a Streamlit page that shows recorded
multi-stop trips on a map. The page reads a table of visits (one row per
trip, place and visit order). It fills four dropdowns from the table: trip
length in days (`여행일수`), residence (`거주지`), age group (`연령대`) and
companion type (`동행유형`). It keeps the trips that match the selections
and draws each trip as a polyline with markers. A departure marker and an
arrival marker are red. Intermediate markers are filled from a blue scale
by their visit order.

The model is pure functions over immutable records:

- `Sequences` holds generic pieces: boolean-mask selection `Filter`,
  `SubseqOf`, and `SortedDistinct` (Python's `sorted(xs.unique())`) over any
  strict total order, with `<` on integers as one such order.
- `Text` holds Python's `str.strip()` and the code-point string order.
- `Table` holds the row record `Visit` and the dropdown selections
  `Criteria`. The sentinel `"전체"` ("all") is written as
  `"\U{C804}\U{CCB4}"`.
- `Options` holds the dropdown contents (lines 20-23).
- `TripFilter` holds the four conditional masks and the TRAVEL_ID
  re-expansion (lines 37-50).
- `Routes` holds the global visit-order range, the `Normalize` colour
  weight, grouping, sorting, polylines and marker roles (lines 53-108).
- `Page` holds the pipeline end to end, and what the index-label role test
  does to the whole map.

Each row keeps its DataFrame index label (`Visit.index`). The role test of
lines 70 and 84 reads that label, not the row's place in the sorted trip.
The model does the same (`RoleRule.ByIndexLabel`, used by
`Page.PageRoutes`). The positional rule is a separate option
(`RoleRule.ByPosition`, used by `Page.IntendedRoutes`); see Findings.

Facts about `a.py` that the model relies on:

- `a.py` has no limit on the number of trips drawn.
- Roles are tested on the index label (see Findings).
- matplotlib's `Normalize` returns 0 when `vmin == vmax`, and so does
  `Routes.Normalize`.
- `groupby` yields groups in ascending TRAVEL_ID order, and the model
  states that order.
- The colour weight is not clipped. It lies in [0, 1] anyway, because
  every drawn order is within the range, and this is proved.

## Model

| member | source | states |
|---|---|---|
| Options.DaysOptions | a.py:20 | The trip-length list starts with the sentinel. The rest is strictly ascending. A length is offered exactly when some row has that non-missing length. |
| Options.TextOptions | a.py:21-23 | A string-column list starts with the sentinel. The rest is strictly ascending in code-point order. A string is offered exactly when it is the stripped value of some non-missing cell. |
| Options.TextOptionsStripped | a.py:21-23 | Every non-sentinel option is already stripped, so it compares equal to the stripped cells it came from (lines 42-46). |
| Options.TextOptionsRowOrderIrrelevant | a.py:21-23 | The dropdown contents depend only on which rows exist, not on their order or repetition. |
| Sequences.SortedDistinct | a.py:20-23 | `sorted(unique())` gives a strictly ascending list with exactly the input's values. |
| Sequences.AscendingUnique | a.py:20-23 | Only one strictly ascending list holds a given set of values, so the sorted distinct list is determined by the set alone. |
| Text.Strip | a.py:21-23 | `str.strip()` returns the infix left after removing whitespace from both ends. Only whitespace is removed, and the result does not start or end with whitespace. |
| Text.StripIdempotent | a.py:42-46 | Stripping a stripped value changes nothing. |
| Text.StrLtIsStrictTotalOrder | a.py:21-23 | Python's string `<` is irreflexive, transitive and total, so sorting strings and ordering groups by TRAVEL_ID are well defined. |
| Sequences.Filter | a.py:40-50 | Boolean indexing keeps a value exactly when it is in the input and the mask accepts it. |
| Sequences.FilterMultiplicity | a.py:40-50 | Boolean indexing keeps every copy of an accepted row and no copy of a rejected one. |
| Sequences.FilterIsSubseq | a.py:40-50 | Boolean indexing keeps the surviving rows in their original order. |
| TripFilter.NarrowSelectsMatches | a.py:37-46 | The four conditional masks keep exactly the rows that satisfy every non-sentinel criterion, in their original order. Trip length is compared raw; the three string columns are compared after stripping. A missing cell never matches. |
| TripFilter.ApplyIsTripAtomic | a.py:48-50 | The output is exactly the subsequence of the original table whose trip has some matching row. Every row of such a trip is present, with its order and label, and no other row is. |
| TripFilter.ApplyNoConstraint | a.py:37-50 | With every dropdown on the sentinel, the output is the input table, row for row. |
| TripFilter.ApplyIdempotent | a.py:37-50 | Filtering the output again with the same selections returns it unchanged. |
| Routes.OrderRange | a.py:53 | `min`/`max` of VISIT_ORDER over the whole filtered set: absent exactly when the set is empty. Otherwise both bound every row's order and are attained. |
| Routes.Normalize | a.py:53 | `Normalize(vmin, vmax)(order)` is `(order - vmin) / (vmax - vmin)` when `vmin < vmax`: the weight times the width of the range is the distance of the order from `vmin`. It is 0 at `vmin`, 1 at `vmax`, and 0 everywhere when `vmin == vmax`. It lies in [0, 1] for orders within the range. |
| Routes.NormalizeMonotone | a.py:103 | A later visit never gets a lower colour weight. |
| Routes.SortByOrder | a.py:61 | `sort_values("VISIT_ORDER")` returns a permutation (same multiset) of the group that is ascending by visit order. |
| Routes.Assemble | a.py:53-60 | An empty filtered set gives no routes, so no weight is computed. A non-empty one gives at least one route. |
| Routes.AssembleOrdering | a.py:60-62 | There is one route per distinct trip, in strictly ascending TRAVEL_ID order. Each route's markers are a permutation of that trip's rows, ascending by visit order. The polyline lists their (Y, X) coordinates in the same order. |
| Routes.AssembleRoute | a.py:60-61 | Bridge lemma for the role and marker lemmas below: route `i` is built from its own trip's group against the range of the whole filtered set, and the group is not empty. |
| Routes.Classify | a.py:70-108 | A row that gets an intermediate role has a weight in [0, 1] when its order lies in the range. |
| Routes.StopRole | a.py:65-108 | Bridge lemma to `AssembleRolesByIndexLabel` and `AssembleRolesByPosition`: each marker gets the role its row would get at its position in the sorted trip, tested against the range of the whole filtered set. |
| Routes.AssembleRolesByIndexLabel | a.py:65-108 | Each row gets exactly one role. It is "start" if and only if its index label is 0, and that test comes first. Otherwise it is "end" if and only if the label equals `len(group) - 1`. Otherwise it is intermediate, with weight `Normalize(order)` against the global min and max, which lies in [0, 1]. |
| Routes.AssembleRolesByPosition | a.py:70-97 | Under the corrected positional rule, the first stop of every route is the departure and the last (if there are two or more) is the arrival. Every stop in between is intermediate with a weight in [0, 1]. |
| Routes.SameRowSameRoute | a.py:60 | A row is drawn in one route at most, because routes have distinct trips. |
| Routes.StopsOnce | a.py:60-65 | A row that occurs once in the filtered set gets one marker. |
| Page.RenderingsAgreeOnGeometry | a.py:60-108 | The as-written and corrected renderings draw the same trips, polylines and markers; only the roles differ. |
| Page.DepartureIsFirstRow | a.py:65-70 | On a freshly read table, only the CSV's first row (label 0) can get a departure marker, whatever its visit order. |
| Page.AtMostOneDeparture | a.py:65-70 | On a freshly read table, the whole map has at most one departure marker. |
| Page.SecondTripLacksDeparture | a.py:65-108 | Counterexample: for the two-trip table with nothing selected, trip "B" is drawn with two intermediate markers, with no departure and no arrival. |
| Page.SecondTripPositional | a.py:65-97 | For the same table, the positional rule gives trip "B" a departure and an arrival. |

## Findings

| source | as written | input that shows it | evidently intended | confidence | as-written member | corrected member |
|---|---|---|---|---|---|---|
| a.py:65-84 | `idx` from `group.iterrows()` is the row's DataFrame index label. It is kept by the boolean selection of line 50, so `idx == 0` holds only for the CSV's first row. `idx == len(group) - 1` compares a table-wide label with a group size. | `Page.TwoTrips()`: trip A on rows 0-2, trip B on rows 3-4, nothing selected. Trip B's labels are 3 and 4, neither 0 nor 1, so B has no departure and no arrival marker. | The first stop of each sorted trip is the departure and the last is the arrival, as the red "[출발]"/"[도착]" markers suggest. | high; not executed | Page.SecondTripLacksDeparture | Routes.AssembleRolesByPosition |

`Page.PageRoutes` keeps the as-written rule, because it is what the page
draws. `Page.IntendedRoutes` is the same pipeline with the corrected rule.
`Page.RenderingsAgreeOnGeometry` shows that the two differ only in the
roles.

## Left out

- Streamlit widgets, page layout and `@st.cache_data` (lines 11, 17, 26-34,
  111): the selections are plain inputs (`Criteria`).
- CSV reading and the `astype(int)` coercion of VISIT_ORDER (lines 12-15):
  these are file I/O. Records arrive well formed, with integer visit
  orders. TRAVEL_ID is never missing, so `groupby`'s dropping of missing
  keys is not modelled.
- folium calls (`Map`, `PolyLine`, `Marker`, `BeautifyIcon`, `CircleMarker`)
  and the popup and tooltip texts (lines 57, 63, 71-108): the model stops
  at the routes, roles and weights handed to them.
- The "Blues" colormap lookup and hex conversion (lines 54, 103): an opaque
  library colour table. Only the normalised weight is modelled.
- Coordinates are `real` values that are only passed through. Floating
  point is not modelled. The weight is exact rational arithmetic, where the
  page computes it in float64.
- Routes.SortByOrder: ties in VISIT_ORDER inside one trip are broken
  stably. pandas' default quicksort is not stable. The contract (ascending
  and a permutation) holds for any tie order. The dataset has no ties.
- Options.DaysOptions: a trip-length column with missing cells is a float
  column in pandas. It is modelled as optional integers with the same
  values.
- Text.StrLtIsStrictTotalOrder: Python compares strings by code point, and
  Python strings can contain lone surrogates, which Dafny's `char` cannot
  hold.
- Options.TextOptions: for a string column with no non-missing cell,
  pandas reads the column as float64, and `.str` on it raises
  AttributeError (lines 21-23), so the page stops before any dropdown is
  drawn. The model has no error path here and returns the sentinel alone.
- No selection is checked against the dropdown lists. The code never does
  this, so the model does not either.
