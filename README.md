# mapping-commuter-misery: the Distance Matrix client and the batch driver's bookkeeping

This project models, in Dafny, the parts of mapping-commuter-misery that decide
what is requested and what is written.

The first part is the `DistanceMatrixClient` of `src/distance_matrix_client.py`:
- the constructor requires the API key in the configuration and stores it;
- `get_distance` checks a batch request, builds its query string and issues it;
- it retries transport failures and `UNKNOWN_ERROR` replies with a doubling delay from 100 ms;
- it gives up once the delay has passed 5 s, and raises the API's `error_message` for every other non-OK status.

The second part is the deterministic bookkeeping of `src/main.py`:
- the city slug and the distances and results file names;
- the slices of at most 100 grid points;
- the requests `save_inputs` issues and the files it writes;
- `get_sw_ne`, the bounding box of a city's polygon file;
- the outer loop of `save_outputs`, which reads every distances file back and flattens each reply into the points table.

Modules:
- `Wrappers` (wrappers.dfy): `Option`, `Result`, and a `dict.get` look-up.
- `Text` (text.dfy): Python's `lower` on ASCII letters, `join`/`split` on a one-character separator, and `str`/`int` for decimal integers.
- `DistanceMatrixClient` (distance_matrix_client.dfy): the client.
  - The network is a `Transport`, the outcome of the k-th request of a call.
  - Each outcome is a `URLError` or a parsed reply.
  - Sleeps are recorded as a list of delays in milliseconds.
  - `Client.GetDistance` is proved to produce exactly the trace the function `GetDistanceTrace` describes. The lemmas state what that trace satisfies.
- `BatchDriver` (batch_driver.dfy): slugs, file names and slices, plus the calls and files of `save_inputs` as sequences.
- `BoundingBox` (bounding_box.dfy): `get_sw_ne` as a method with its nested loops, proved equal to the function `SwNe`. Each assertion and indexing error of the source is a `BoxError`.
- `ResultTable` (result_table.dfy): the points table as a class `Frame` whose `cells` map (row, column) to a cell.
  - Its row labels are the rows that hold a cell, and `len(df)` is their number. An assignment to a row that is not yet a label adds that label, as `df.loc` does.
  - Its methods are the `df.loc` assignment loops of `save_outputs`.
  - Each method is proved equal to a function over the old cells.
  - The function returns the new cells and whether every assertion held. When an assertion fails part way, the cells keep what was written up to that point.
- `SaveOutputs` (save_outputs.dfy): the mode, slice and direction loops of `save_outputs` for one city, plus the saved table.
  - Each mode takes its slice starts from `len(df)` when the mode begins, and each slice takes its end from `len(df)` when the slice begins, as the source does.
  - A reply that reaches past the table's last row adds rows, so later slice bounds shift (`OversizeArrivalGrowsTable`); one that overruns a slice in the middle of the table writes into the next slice's rows. `CityOutputsWhenRepliesFit` proves that when every reply fits its slice, the loop opens exactly the files `save_inputs` wrote.

Where the code and its usual description disagree, the model follows the code:
- `get_distance` demands at least one of `arrival_time`/`departure_time`, not exactly one. When both are given, `arrival_time` is sent and `departure_time` is ignored.
- The API error and the exhausted-retries error are both a bare `Exception`. They are told apart only by their message: the API's `error_message`, or `"Too many retry attempts."`.
- A failed reply without `error_message` raises `KeyError`; this is `MissingErrorMessage`.
- Only `urllib.error.URLError` is retried. Any other exception from the request propagates.
- The constructor checks that the key is present, not that it is non-empty. configparser lower-cases option names, so the key is found in config.ini whatever its ASCII letter case.

## Model

| member | source | states |
|---|---|---|
| DistanceMatrixClient.NewClient | src/distance_matrix_client.py:9-14 | given the DEFAULT section as configparser stores it, construction fails exactly when the lower-cased `distance_matrix_api_key` is absent, and otherwise yields a fresh client storing its value |
| Text.Lower | src/distance_matrix_client.py:12-13 | `str.lower` as modelled on ASCII letters: no upper-case letter remains, and each character is mapped in place (so, in this ASCII model, the length is kept) |
| DistanceMatrixClient.KeyFoundInAnyCase | src/distance_matrix_client.py:12-13 | an option spelt in config.ini as `DISTANCE_MATRIX_API_KEY` in any letter case is found by the constructor's look-up, with its value |
| DistanceMatrixClient.Client.constructor | src/distance_matrix_client.py:13-14 | the client stores the key it is given |
| DistanceMatrixClient.Validate | src/distance_matrix_client.py:21-25 | a request passes exactly when origins and destinations are non-empty, their product is at most 100, the mode is one of the four, and a time is given; an empty origins list is reported as such |
| DistanceMatrixClient.Truncate | src/distance_matrix_client.py:38-40 | `int()` of a float truncates toward zero: it lies within one of the argument, below it for positive arguments and above it for negative ones |
| Text.Split | src/distance_matrix_client.py:30-31 | splitting yields at least one part and no part holds the separator |
| Text.SplitJoin | src/distance_matrix_client.py:30-31 | splitting undoes `join` when no part holds the separator |
| Text.ParseIntDecimal | src/distance_matrix_client.py:38-40 | reading back the decimal text `str` writes for an integer gives the integer |
| DistanceMatrixClient.LocationsRoundTrip | src/distance_matrix_client.py:30-31 | splitting the `origins`/`destinations` value on `\|` and then on `,` gives back the coordinates in input order, when their texts hold neither separator |
| DistanceMatrixClient.QueryLookups | src/distance_matrix_client.py:28-42 | in the query as laid out, each of origins, destinations, key, mode and the time parameter is found with its value |
| DistanceMatrixClient.QueryTimeCounts | src/distance_matrix_client.py:36-42 | the query holds exactly one time parameter: one of the name it was built with, none of the other |
| DistanceMatrixClient.UrlCarriesRequest | src/distance_matrix_client.py:28-42 | for a valid request the URL carries the origins and destinations read back in order, the stored key, the mode, and exactly one time parameter; it is `arrival_time` exactly when an arrival time is given, and its value reads back as the truncated time |
| DistanceMatrixClient.BuildUrl | src/distance_matrix_client.py:28-42 | the request URL before percent-encoding: the base, then origins, destinations, key, mode and the time parameter; what it carries is proved by `UrlCarriesRequest`, `QueryLookups` and `QueryTimeCounts` |
| DistanceMatrixClient.TransientOutcomes | src/distance_matrix_client.py:48-62 | a `URLError` and an `UNKNOWN_ERROR` reply take the same path, to the retry step |
| DistanceMatrixClient.Classify | src/distance_matrix_client.py:51-62 | how one outcome is handled: OK returns the payload, a `URLError` or `UNKNOWN_ERROR` retries, any other status raises its `error_message`; `TransientOutcomes`, `PermanentErrorStops` and `RunStopsAtFirstDecision` prove what follows |
| DistanceMatrixClient.RetryFrom | src/distance_matrix_client.py:44-70 | a run issues one more request than it sleeps |
| DistanceMatrixClient.ScheduleFromInitialDelay | src/distance_matrix_client.py:44-45 | starting at 100 ms with a 5000 ms cap, the backoff schedule is 100, 200, 400, 800, 1600, 3200 ms |
| DistanceMatrixClient.SleepsFollowSchedule | src/distance_matrix_client.py:64-70 | the delays slept are always a prefix of the backoff schedule |
| DistanceMatrixClient.RunStopsAtFirstDecision | src/distance_matrix_client.py:47-70 | every request but the last was transient. The last decides the result: OK returns its payload, a permanent error raises its message, and a transient one means the whole schedule was slept and "Too many retry attempts." is raised |
| DistanceMatrixClient.TransientOnlyExhausts | src/distance_matrix_client.py:64-70 | with only transient outcomes the loop sleeps the whole schedule and raises "Too many retry attempts." after one more request than sleeps |
| DistanceMatrixClient.SameVerdictsSameRun | src/distance_matrix_client.py:47-65 | two transports whose outcomes are classified alike give the same run |
| DistanceMatrixClient.PermanentErrorStops | src/distance_matrix_client.py:59-62 | a reply neither OK nor UNKNOWN_ERROR raises its `error_message` at once, with no further request or sleep |
| DistanceMatrixClient.CallIsBounded | src/distance_matrix_client.py:19-70 | an invalid request fails before any request; any other call issues between 1 and 7 requests of a URL carrying the stored key; the sleeps are always a prefix of 100..3200 ms |
| DistanceMatrixClient.FirstOkReturnsAtOnce | src/distance_matrix_client.py:57-58 | an OK first reply is returned after exactly one request and no sleep |
| DistanceMatrixClient.TransientOnlyCall | src/distance_matrix_client.py:44-70 | with only transient outcomes a valid call raises "Too many retry attempts." after 7 requests and the 6 sleeps 100..3200 ms |
| DistanceMatrixClient.ThreeUnknownErrorsThenOk | src/distance_matrix_client.py:47-70 | three UNKNOWN_ERROR replies and then OK: the payload after 4 requests and sleeps of 100, 200 and 400 ms |
| DistanceMatrixClient.RequestWithRetries | src/distance_matrix_client.py:44-70 | the `while True` loop with its doubling delay yields exactly the run `RetryFrom` describes from the first request at 100 ms |
| DistanceMatrixClient.Client.GetDistance | src/distance_matrix_client.py:19-70 | a call validates, builds the URL once from the stored key, and retries, giving exactly the result, URL, request count and sleeps of `GetDistanceTrace` |
| BatchDriver.SlugShape | src/main.py:127 | the slug keeps the name's length, holds no space and no upper-case letter, turns exactly the spaces into `-`, and is its own slug |
| BatchDriver.NewYorkCitySlug | src/main.py:127 | "New York City" becomes "new-york-city" |
| BatchDriver.SliceBoundsRoundTrip | src/main.py:165 | the `i-(i_end-1).json` tail of a distances file name gives back `i` and `i_end` |
| BatchDriver.KeyRoundTrip | src/main.py:165 | the `mode-direction-bounds` part of a distances file name gives back the mode, the direction and the slice |
| BatchDriver.DistancesFileRoundTrip | src/main.py:165-172 | a distances file name of a city gives back its mode, direction and slice bounds |
| BatchDriver.DistancesFileInjective | src/main.py:165-172 | two distances files of one city share a name only for the same mode, direction and slice |
| Text.NatToDecimalInjective | src/main.py:165 | two integers with the same decimal text are equal |
| BatchDriver.SlicesFrom | src/main.py:146-151 | each slice of `range(start, n, 100)` is non-empty, at most 100 long and inside `[start, n)`; each ends where the next begins; they run from `start` to `n`, and there are none when `start >= n` |
| BatchDriver.SlicesPartition | src/main.py:146-151 | the slices are ordered and disjoint, and together they cover every point `0..n-1` |
| BatchDriver.SliceCallValid | src/main.py:160-171 | the call of one slice pairs its 1 to 100 points with city hall in the direction's order, carries only that direction's time, and passes the client's checks |
| BatchDriver.SliceCallsValid | src/main.py:146-173 | every call for one mode's slices pairs 1 to 100 points with city hall and passes the client's checks |
| BatchDriver.ModeCallsValid | src/main.py:141-173 | every call for a list of modes pairs 1 to 100 points with city hall and passes the client's checks |
| BatchDriver.SaveInputsCallsValid | src/main.py:141-173 | every request `save_inputs` issues has city hall on one side and 1 to 100 consecutive points on the other: points to city hall by the arrival time, or city hall to points from the departure time; so it passes the client's checks |
| BatchDriver.SaveInputsCalls | src/main.py:141-173 | the requests of `save_inputs` for one city in the order issued, each with the file its reply is saved to; its properties are `SaveInputsCallsValid`, `SaveInputsFilesDistinct` and `SavedFileIsRead` |
| BatchDriver.SliceCallsKeys | src/main.py:146-173 | every file of one mode's calls names that mode and a slice start no earlier than the first slice's |
| BatchDriver.SliceCallsDistinct | src/main.py:146-173 | one mode's calls never save two results to the same file |
| BatchDriver.ModeCallsKeys | src/main.py:141-173 | every file of several modes' calls names one of those modes |
| BatchDriver.ModeCallsDistinct | src/main.py:141-173 | calls for distinct modes never save two results to the same file |
| BatchDriver.SaveInputsFilesDistinct | src/main.py:141-173 | `save_inputs` never writes two results of one city to the same file |
| BatchDriver.SliceCallsContain | src/main.py:146-173 | the file of every slice and direction of a mode is among that mode's files |
| BatchDriver.ModeCallsContain | src/main.py:141-173 | a file of one mode's calls is among the files of all modes' calls |
| BatchDriver.SavedFileIsRead | src/main.py:182-197 | the file `save_outputs` opens for a mode, slice and direction is one `save_inputs` wrote for the same points |
| BoundingBox.PolygonsPoints | src/main.py:34-37 | the collected positions all carry a longitude and a latitude; a failure is a polygon without rings or a position too short |
| BoundingBox.GeometriesPoints | src/main.py:29-37 | the collected positions all carry a longitude and a latitude; a failure is never a missing `geometries` key or an empty result |
| BoundingBox.Min | src/main.py:39 | `min` of a non-empty list is one of its elements and at most every element |
| BoundingBox.Max | src/main.py:39 | `max` of a non-empty list is one of its elements and at least every element |
| BoundingBox.GetSwNe | src/main.py:22-39 | the nested loops that grow `lats` and `lngs`, then take min and max, return exactly `SwNe` of the file, error cases included |
| BoundingBox.SwNe | src/main.py:22-39 | what `get_sw_ne` returns, or why it raises; its meaning is proved by `SwNeSucceeds` and `SwNeIsTightBox` |
| BoundingBox.PolygonsPointsAreOuterRings | src/main.py:34-37 | the positions collected from polygons are exactly those on their outer rings |
| BoundingBox.GeometriesPointsAreOuterRings | src/main.py:29-37 | the positions collected from geometries are exactly those on an outer ring of one of their polygons |
| BoundingBox.PolygonsPointsSucceed | src/main.py:34-37 | collecting from polygons succeeds exactly when each has an outer ring of full positions |
| BoundingBox.GeometriesPointsSucceed | src/main.py:29-37 | collecting from geometries succeeds exactly when each has `coordinates` and well-formed polygons |
| BoundingBox.SwNeSucceeds | src/main.py:22-39 | corners are returned exactly when the file has its geometries, is well formed and has some outer-ring position; it raises on an empty list exactly when it is well formed without positions |
| BoundingBox.SwNeIsTightBox | src/main.py:26-39 | sw ≤ ne componentwise, every outer-ring position lies in the box with lat from index 1 and lng from index 0, and each bound is reached by some position |
| ResultTable.ApplyElement | src/main.py:217-237 | a failed assertion leaves the table as it was, and no cell is ever removed |
| ResultTable.ApplyElementEffect | src/main.py:217-237 | one element fails exactly when it is OK without both values. Otherwise ZERO_RESULTS empties its distance and duration cells, OK writes the values, any other status keeps them, and no other cell changes |
| ResultTable.RowUpdate | src/main.py:214-238 | once an assertion has failed, later elements change nothing; no cell is ever removed |
| ResultTable.RowUpdateEffect | src/main.py:214-238 | the elements of one row fail exactly when one is incomplete; otherwise the row's measure cells are what the elements decide in turn, and no other cell changes |
| ResultTable.ArrivalRowsUpdate | src/main.py:211-238 | once an assertion has failed, later rows change nothing; no cell is ever removed |
| ResultTable.ArrivalRowsOk | src/main.py:211-238 | the arrival rows fail exactly when some OK element lacks a value |
| ResultTable.ArrivalRowsLocal | src/main.py:211-238 | the arrival rows change only the distance and duration cells of table rows `i` to `i + |rows| - 1` |
| ResultTable.ArrivalRowValue | src/main.py:211-238 | after the arrival rows, table row `i + j` holds what reply row `j` decides, `j` advancing once per row |
| ResultTable.ArrivalRowsValues | src/main.py:211-238 | when the arrival rows succeed, every reply row is complete and table row `i + j` holds what reply row `j` decides |
| ResultTable.DepartureElementsUpdate | src/main.py:250-276 | once an assertion has failed, later elements change nothing; no cell is ever removed |
| ResultTable.DepartureElementsOk | src/main.py:250-276 | the departure elements fail exactly when some OK element lacks a value |
| ResultTable.DepartureElementsLocal | src/main.py:250-276 | the departure elements change only the distance and duration cells of table rows `i` to `i + |es| - 1` |
| ResultTable.DepartureElementValue | src/main.py:254-276 | after the departure elements, table row `i + j` holds what element `j` leaves |
| ResultTable.DepartureElementsValues | src/main.py:250-276 | when the departure elements succeed, all are complete and table row `i + j` holds what element `j` leaves |
| ResultTable.AddressesEffect | src/main.py:206-209 | address `j` lands in row `i + j` of the address column and nothing else changes |
| ResultTable.ReadArrivalEffect | src/main.py:202-238 | for an arrival reply, origin address `j` fills row `i + j`. The assertions hold exactly when every OK element has its values, and then row `i + j`'s distance and duration are what reply row `j` decides. No cell outside the slice's three columns changes |
| ResultTable.ReadDepartureEffect | src/main.py:239-276 | for a departure reply, destination address `j` fills row `i + j`. The assertions hold exactly when there is one row whose OK elements have their values, and then row `i + j` holds what element `j` leaves. No cell outside the slice's three columns changes |
| ResultTable.SingleElementRows | src/main.py:211-238 | an arrival reply with one element per row writes element `j`'s verdict into row `i + j` |
| ResultTable.AddressesUpdate | src/main.py:206-209 | the address assignments keep every cell of the table |
| ResultTable.ReadArrival | src/main.py:202-238 | reading an arrival reply keeps every cell of the table; `ReadArrivalEffect` states the rest |
| ResultTable.ReadDeparture | src/main.py:239-276 | reading a departure reply keeps every cell of the table; `ReadDepartureEffect` states the rest |
| ResultTable.RowRange | src/main.py:181 | the labels of a table read from a CSV file of `n` rows are exactly `0..n-1` |
| ResultTable.RowRangeSize | src/main.py:181 | such a table has `len(df) == n` |
| ResultTable.ReadArrivalReach | src/main.py:202-238 | an arrival reply changes no cell outside the rows from `i` that its addresses and rows reach |
| ResultTable.ReadDepartureReach | src/main.py:239-276 | a departure reply changes no cell outside the rows from `i` that its addresses and elements reach |
| ResultTable.RowsWithin | src/main.py:208 | assignments that keep every cell and touch only some rows keep every row label, and add labels only among those rows |
| ResultTable.OversizeArrivalGrowsTable | src/main.py:184-209 | an arrival reply with more origin addresses than rows remain from the slice start makes `len(df)` grow |
| ResultTable.Frame.constructor | src/main.py:181 | the table starts as the points read from the points file |
| ResultTable.Frame.Set | src/main.py:208 | `df.loc[row, column] = value` overwrites that one cell |
| ResultTable.Frame.WriteAddresses | src/main.py:206-209 | the address loop with its hand-counted `j` leaves exactly `AddressesUpdate` of the old cells |
| ResultTable.Frame.WriteElement | src/main.py:217-237 | the status branches for one element leave exactly `ApplyElement` of the old cells, and report whether the assertions held |
| ResultTable.Frame.WriteRow | src/main.py:217-237 | the element loop of one arrival row leaves exactly `RowUpdate` of the old cells |
| ResultTable.Frame.ReadArrivalReply | src/main.py:202-238 | the arrival branch leaves exactly `ReadArrival` of the old cells, stopping at the first failed assertion |
| ResultTable.Frame.ReadDepartureReply | src/main.py:239-276 | the departure branch leaves exactly `ReadDeparture` of the old cells, stopping at the first failed assertion |
| SaveOutputs.ApplyReadSucceeds | src/main.py:193-276 | reading one file succeeds exactly when it exists and its reply passes the assertions |
| SaveOutputs.OutputsSucceed | src/main.py:182-276 | the loop over a city's files completes exactly when every file it opens exists and every reply passes, whatever the table held before |
| SaveOutputs.OutputsErrorNamesFile | src/main.py:193-199 | when the loop stops early, the error names one of the files it opens |
| SaveOutputs.SliceReadsMatchWrites | src/main.py:184-197 | for one mode, the files read are those `save_inputs` wrote, in order |
| SaveOutputs.ModeReadsMatchWrites | src/main.py:182-197 | for a list of modes, the files read are those `save_inputs` wrote, in order |
| SaveOutputs.ReadsMatchWrites | src/main.py:182-197 | planned over a table of the points `save_inputs` saved, the files read are exactly those `save_inputs` wrote, in the same order |
| SaveOutputs.ReadReply | src/main.py:193-276 | one pass of the direction loop leaves the table `ApplyRead` gives, or reports the missing file or the rejected reply |
| SaveOutputs.ReadSliceReplies | src/main.py:191-276 | the direction loop of one slice reads arrival then departure, and stops at the first error |
| SaveOutputs.ReadModeReplies | src/main.py:184-276 | the slice loop over `list(range(0, len(df), 100))`, with `i_end = min(i + 100, len(df))` read again for each slice, leaves exactly `SliceOutputs` of the old table, stopping at the first error |
| SaveOutputs.ReadReplies | src/main.py:182-276 | the mode loop, each mode planning its slices from `len(df)` as it begins, leaves exactly `ModeOutputs` of the old table, stopping at the first error |
| SaveOutputs.SaveCityOutputs | src/main.py:176-278 | `save_outputs` for one city returns exactly `CityOutputs` of the table read from the points file: the flattened table saved to `data/results-<slug>.csv`, or the first error |
| SaveOutputs.Starts | src/main.py:184 | `range(from, n, 100)`: every start lies in `[from, n)` and each is 100 after the one before; that none is missing is `StartsComplete` |
| SaveOutputs.StartsComplete | src/main.py:184 | `range(from, n, 100)` is empty exactly when `from >= n`; otherwise it begins at `from` and its last start is within 100 of `n`, so with the step of 100 no start below `n` is missing |
| SaveOutputs.SliceOutputs | src/main.py:184-276 | the slice loop of one mode over starts fixed as the mode begins, each slice ending at `min(i + 100, len(df))` for the table as it then is; properties in `SliceOutputsFixed` |
| SaveOutputs.ModeOutputs | src/main.py:182-276 | the mode loop, each mode starting from `range(0, len(df), 100)` of the table as it then is; properties in `ModeOutputsFixed` |
| SaveOutputs.CityOutputs | src/main.py:176-278 | what `save_outputs` saves for a city, or why it raises; properties in `CityOutputsWhenRepliesFit` |
| SaveOutputs.ApplyReadKeepsRows | src/main.py:193-276 | a reply that fits its slice, read into a table labelled `0..n-1`, keeps exactly those labels |
| SaveOutputs.DirectionOutputsKeepRows | src/main.py:191-276 | both replies of a slice that fit it keep the labels `0..n-1` |
| SaveOutputs.SliceOutputsFixed | src/main.py:184-276 | when every reply fits its slice, the slice loop of one mode reads the slices of `n` points and keeps the labels `0..n-1` |
| SaveOutputs.ModeOutputsFixed | src/main.py:182-276 | when every reply fits its slice, the mode loop reads exactly the slices of `n` points for every mode |
| SaveOutputs.CityOutputsWhenRepliesFit | src/main.py:176-278 | for a table of the points `save_inputs` saved and replies that fit their slices: `save_outputs` opens exactly the files `save_inputs` wrote, in order; it saves to the results file exactly when each is there and passes the assertions; otherwise its error names one of those files |

## Left out

- Network I/O (`urlopen`) is left out: the transport is a parameter. It gives the outcome of each request as a `URLError` or a parsed reply.
- JSON parsing and `json.dumps` are left out. A reply is a record of status, optional error message and payload. A successful call returns the payload, not its serialised text.
- Percent-encoding by `urlencode` is left out. The URL is the base plus the query parameters, in order, before encoding.
- Reading `config.ini` and printing the key are left out. The DEFAULT section is a given map, keyed by option names as configparser stores them, lower-cased.
- DistanceMatrixClient.NewClient: configparser's `%` interpolation of the value and its error on a repeated option are not modelled.
- `time.sleep` and all progress `print`s are left out. The sleeps are recorded as a list of delays.
- DistanceMatrixClient.LatLng: coordinates are the text `str()` gives each float. Float formatting is not modelled.
- DistanceMatrixClient.Truncate: NaN and infinite times are not modelled (Python's `int()` raises on them).
- DistanceMatrixClient.RequestWithRetries: exceptions from the request other than `URLError` are not modelled (the source lets them propagate).
- Text.Lower: only ASCII letters `A`-`Z` are mapped, both for the city slug and for the configparser option-name look-up. Python's `str.lower` also lower-cases non-ASCII letters and can change the length (`'İ'.lower()` gives two code points, and the Kelvin sign becomes `k`), so a non-ASCII spelling of `distance_matrix_api_key` that Python would find is not covered by `KeyFoundInAnyCase`.
- BatchDriver.Slug: only ASCII letters are lower-cased. Python's `str.lower` on other letters is not modelled.
- `save_polygon`, `save_points`, `save_distances` and the CSV reads and writes are left out: file I/O. `save_inputs` is modelled as the sequence of calls it issues when none of them raises, and the files they save to. `save_outputs` takes the saved replies as a map from file name to payload.
- BatchDriver.SaveInputsCalls: the `get_distance` calls at src/main.py:164 and 171 are not guarded by `try`. A call that raises ends `save_inputs` after a prefix of these calls, and only their files are written. `SavedFileIsRead` and `ReadsMatchWrites` are about a run in which no call raises.
- `save_outputs` takes the points table as given cells instead of reading the CSV. Its row labels are the rows that hold a cell, so a row whose every cell is empty is not represented. Each row of the points file carries its coordinates.
- `get_grid_points` is left out: it depends on pyproj reprojection, float floor/ceil and shapely point-in-polygon.
- `save_outputs_no_water_nyc` is left out: it depends on shapely geometry.
- The pytz timestamps are left out. The arrival and departure times are inputs.
- The polygon file is given already parsed. Its JSON reading and the `save_polygon` download are left out.
- ResultTable.Frame: an absent key stands for a cell pandas would fill with NaN. Creating a column with NaN in the other rows is not modelled separately.
- SaveOutputs.CityOutputs: an error ends the run with nothing saved. Earlier cities' results files, and the loop over cities, are not modelled.
- The assertions that a reply holds `origin_addresses`, `destination_addresses`, `rows`, `elements` and `status` are not modelled: the payload record always has these fields. The assertions on `distance`/`duration` values are modelled.
- The inner loops are written as separate methods, each a loop of the source: `Client.GetDistance`/`RequestWithRetries`, `Frame.ReadArrivalReply`/`WriteRow`, and the `SaveOutputs` loop methods `ReadReplies`, `ReadModeReplies` and `ReadSliceReplies`.
