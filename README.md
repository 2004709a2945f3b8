# EJScreen study data: a Dafny model

This project models the data-handling core of a small pipeline that collects
EJScreen environmental-justice indicators for census areas of Washington, DC
and joins them with census boundary files. It covers four parts:

- **Fetching and flattening one area** (`src/get_data_from_api.py`,
  `src/get_study_data.py`). The model builds the query parameters, including the
  `namestr` fallback and the fixed values. A failed request becomes `None`. A
  decoded response is either flattened into the fixed nine-column record (absent
  sections and fields become `None`) or merged section by section into one
  dictionary (later sections override earlier ones).
- **The batch collector** (`fetch_multiple_block_groups`). The model is an
  imperative loop over the block-group ids, proved against a recursive
  specification `Process`. It keeps the truthy records in input order, skips
  failed ids without stopping, and pauses between requests but not after the
  last one.
- **Merging the study table with the boundary layer**
  (`merge_data_with_shapefile`). The model checks that both files exist, then
  repairs the table ids by cutting them at the first `.`. It then left-joins the
  boundary features with the table rows on exact text equality of the ids, and
  counts the matches.
- **Filtering the national table to one state** (`filter_dc_data`). The model
  checks that the file exists and that the state column is present, then keeps
  the rows holding the state value, in their order.

Modules:
- `Common`: Option, Result, the Python exceptions, JSON values, the `Filter` and
  `CountWhere` combinators.
- `Frames`: rows and tables.
- `EjscreenResponse`: query parameters, the HTTP reply oracle, the response
  sections.
- `GetDataFromApi`
- `GetStudyData` and `BatchCollector`
- `CleanData`
- `Start`

HTTP is modelled as a `Server` function from query parameters to a reply. That
reply is either no reply at all, or a status code plus a body that may or may
not decode as JSON. A reply raises a RequestException when the transport
fails, the status is 4xx or 5xx, or the body is not JSON. Python's `None` and
JSON `null` are both `JNull`.

HTTP follows `requests` 2.27 or later. There, a body that does not decode as
JSON raises `requests.exceptions.JSONDecodeError`, which is a
RequestException. Some behaviours of the code are worth stating outright:
- **An empty batch is not a separate outcome.** When no fetch succeeds, the
  code returns an empty table, the same as for a batch of no ids
  (`NoSuccessGivesEmptyTable`).
- **The merge can have more rows than the layer.** The left join repeats a
  feature once for each matching table row, so the row count is the fan-out. It
  equals the layer size exactly when no key matches twice
  (`LeftJoinCardinality`, `JoinKeepsFeatureCountIffKeysUnique`).
- **A badly shaped reply aborts the batch.** Take a reply whose status is
  outside 400-599 and whose body decodes as JSON, but is not shaped as expected:
  - the body itself is not an object (JSON `null`, a list, a string or a number);
  - or its `data`, `demographics`, `main` or `extras` is present but not an object.

  A `.get` on the offending value raises AttributeError
  (`src/get_study_data.py:38-52`). That is not a RequestException, so it
  escapes `get_ejscreen_data`, and in the batch it ends the whole run. The
  model carries it as an `Err` result (`GetEjscreenData`,
  `BatchStopsAtFirstRaise`). The TypeError from `**` on a non-object section
  belongs to `extract_ejscreen_fields` (`src/get_data_from_api.py:59`), which
  the batch does not call (`ExtractFieldsErrors`).
- **A negative delay aborts the batch.** `time.sleep` raises ValueError for a
  negative length (`src/get_study_data.py:130-131`), and nothing catches it.
  With two or more ids, the run ends right after the first request
  (`NegativeDelayStopsAtFirstPause`). The only caller passes the configured
  delay of 1 second.
- **Leading zeros are not restored.** Ids are compared as text. A table id that
  lost its leading zeros when read as a number never meets its boundary
  (`JoinExamples`).
- **`matched_count` reads the merged id column.** When both key columns have
  the same name, the merge keeps a single key column, filled from the layer. So
  every merged row counts, matched or not (`SharedKeyNameCountsEveryRow`). When
  the layer has a column of the table's id name besides its own key, the merge
  suffixes both copies. The lookup of the id column (`src/clean_data.py:66`) then raises KeyError.

## Model

| member | source | states |
|---|---|---|
| `EjscreenResponse.ReadSections` | src/get_study_data.py:38-40 | The three section lookups raise AttributeError exactly when the response is not an object or its `data` is present and not an object. On a well-shaped response they yield the three sections, with absent ones as empty objects. |
| `GetDataFromApi.FetchParams` | src/get_data_from_api.py:26-34 | The query has exactly the seven keys and the fixed geometry, distance, unit and format values. `namestr` is the city name when it is truthy (present and non-empty) and the area id otherwise. `areatype` and `areaid` are the arguments. |
| `GetDataFromApi.FetchEjscreenData` | src/get_data_from_api.py:36-42 | Returns `None` when the request raises a RequestException (transport error, 4xx or 5xx, or undecodable body), and otherwise the decoded body. |
| `GetDataFromApi.ExtractFields` | src/get_data_from_api.py:54-59 | Succeeds exactly on well-shaped responses. The keys are the union of the keys of `demographics`, `main` and `extras`. On a collision `extras` wins over `main`, which wins over `demographics`. |
| `GetDataFromApi.ExtractFieldsErrors` | src/get_data_from_api.py:54-59 | A non-object response or a non-object `data` raises AttributeError. A non-object `demographics`, `main` or `extras` raises TypeError at the union. |
| `GetDataFromApi.MissingSectionsContributeNothing` | src/get_data_from_api.py:54-56 | An absent `data` leaves only `extras`, and an absent `extras` leaves `demographics` and `main`. An empty response gives an empty dictionary. |
| `GetStudyData.FlattenSections` | src/get_study_data.py:43-53 | The record exists exactly when all three sections are objects, otherwise AttributeError. Its columns are exactly `area_id` and the eight indicators, and `area_id` is the tracking id. |
| `GetStudyData.FlattenSectionsIndicators` | src/get_study_data.py:45-52 | Each of the eight indicator columns holds its field of its section, or `None` when the field is absent. |
| `GetStudyData.Flatten` | src/get_study_data.py:37-53 | Flattening a decoded response succeeds exactly when it is well shaped, otherwise AttributeError. The record has the nine columns and the tracking id. |
| `GetStudyData.FlattenIndicators` | src/get_study_data.py:38-52 | Every indicator column of a flattened response is the named field of its section, or `None` when the section or the field is absent. |
| `GetStudyData.RecordHasNineColumns` | src/get_study_data.py:43-53 | A record has exactly nine distinct columns. |
| `GetStudyData.EmptyResponseFlattensToNulls` | src/get_study_data.py:38-53 | An empty response flattens without error, with every column except `area_id` set to `None`. |
| `GetStudyData.BlockGroupParams` | src/get_study_data.py:92-100 | The block-group query has the seven keys and the fixed values. `namestr` and `areaid` are both the id, and `areatype` is `blockgroup`. |
| `GetStudyData.CityParams` | src/get_study_data.py:71-79 | The city query has the seven keys and the fixed values. `namestr` is the city name, `areaid` is the area id, and `areatype` is `city`. |
| `GetStudyData.QueriesAgree` | src/get_study_data.py:71-100 | The block-group query equals the generic query with the default area type. The city query equals the generic one for a non-empty city name. For an empty city name and a non-empty id the two differ, because the generic builder falls back to the id. |
| `GetStudyData.GetEjscreenData` | src/get_study_data.py:32-58 | Returns `None` exactly when the request raises a RequestException. It raises AttributeError exactly when a decoded body is badly shaped. Otherwise the record is the flattening of the decoded body: nine columns tagged with the area id, with the indicators that `FlattenIndicators` gives. |
| `GetStudyData.FetchThenFlatten` | src/get_study_data.py:32-53 | For a request that raises nothing, the block-group result is the flattening of what the generic fetch returns for the same id. |
| `GetStudyData.GetEjscreenDataCity` | src/get_study_data.py:61-80 | Sends the city query. Returns `None` exactly when that request raises, and raises AttributeError exactly when its decoded body is badly shaped. Otherwise it returns the flattened body, tagged with the city's area id. |
| `GetStudyData.GetEjscreenDataBg` | src/get_study_data.py:83-101 | Sends the block-group query. Returns `None` exactly when that request raises, and raises AttributeError exactly when its decoded body is badly shaped. Otherwise it returns the flattened body, tagged with the block-group id. |
| `BatchCollector.Process` | src/get_study_data.py:121-131 | The run the loop performs: it requests each id in order, keeps the record when truthy, pauses unless the id was the last, and stops at a fetch that raises or at a pause with a negative delay (ValueError). The run never keeps more records than there are ids. |
| `BatchCollector.FetchMultipleBlockGroups` | src/get_study_data.py:116-137 | The loop returns the table, or the exception (a fetch's, or ValueError from a negative pause), and performs the requests and pauses of the run `Process` specifies for these ids. |
| `BatchCollector.BgFetchOutcome` | src/get_study_data.py:44 | The block-group fetch gives `None` exactly when the request raises, and raises past the collector exactly when the decoded body is badly shaped. Each record it yields is truthy and carries its id in `area_id`. |
| `BatchCollector.BgFetcherTagsRecords` | src/get_study_data.py:44 | Every record the block-group fetch yields carries the id it was fetched for. |
| `BatchCollector.BatchAbortsOnlyOnRaisingFetch` | src/get_study_data.py:121-131 | A failed fetch (`None`) never stops the loop. The run ends early exactly when some fetch raises, or when the delay is negative and there are two or more ids. |
| `BatchCollector.BatchStopsAtFirstRaise` | src/get_study_data.py:121-131 | A run that raises ends with the exception of the first id whose handling raises: its fetch's exception, or else ValueError from the pause after it. If that id is number k, the events are the requests for the first k+1 ids in order, with one pause of the delay between consecutive requests. So the run has 2k+1 events, the last is the request for that id, and no later id is requested. |
| `BatchCollector.BatchKeepsSuccessesInOrder` | src/get_study_data.py:121-127 | A run that raises nothing returns exactly the records of the ids whose fetch succeeded, in input order. |
| `BatchCollector.BatchRowsTaggedWithTheirIds` | src/get_study_data.py:121-137 | Each returned row's `area_id` is the id it was fetched for. The ids of the rows are a subsequence of the input holding every succeeding id. There are at most as many rows as ids. |
| `BatchCollector.NoSuccessGivesEmptyTable` | src/get_study_data.py:133-135 | When no fetch yields a truthy record (each gives `None` or an empty dictionary), including for no ids at all, the table is empty. With a negative delay and two or more ids the result is ValueError instead. |
| `BatchCollector.NegativeDelayStopsAtFirstPause` | src/get_study_data.py:121-131 | With a negative delay and two or more ids, the run requests only the first id. It ends with that fetch's exception, or with ValueError from the pause. |
| `BatchCollector.BatchTrace` | src/get_study_data.py:121-131 | The events of a run that raises nothing are the requests in input order, with one pause of the given delay between consecutive requests and none after the last. |
| `BatchCollector.BatchSleepCount` | src/get_study_data.py:130-131 | A run that raises nothing pauses `len(ids) - 1` times (never for no ids). A run that raises ends right after a request. |
| `BatchCollector.SecondOfThreeFails` | src/get_study_data.py:121-137 | Three ids whose second fetch fails give the first and third records, in that order. |
| `CleanData.Split` | src/clean_data.py:56 | Python's `str.split` by one character yields at least one piece. |
| `CleanData.JoinSplit` | src/clean_data.py:56 | Joining the pieces of a split with the separator gives back the string. |
| `CleanData.SplitPiecesHaveNoSeparator` | src/clean_data.py:56 | No piece of a split contains the separator. |
| `CleanData.FirstPieceIsPrefixBeforeSeparator` | src/clean_data.py:56 | The first piece is a separator-free prefix of the string, either all of it or followed by the separator. |
| `CleanData.NormalizeId` | src/clean_data.py:56 | `str(v).split(".")[0]` on one id: the result is a dot-free prefix of the id, ending where the id's first `.` is. |
| `CleanData.NormalizeIdIsPrefixBeforeFirstDot` | src/clean_data.py:56 | A string is the prefix of an id before its first `.` if and only if it is the repaired id. |
| `CleanData.NormalizeIdFixesDotFree` | src/clean_data.py:56 | Repair leaves a dot-free id unchanged, never yields a `.`, and is idempotent. |
| `CleanData.NormalizeIdDropsFloatSuffix` | src/clean_data.py:56 | A dot-free id followed by `.0` is repaired to itself. |
| `CleanData.NormalizeColumn` | src/clean_data.py:56 | Repairing the id column keeps the number of rows, each row's columns, and every cell outside the id column. |
| `CleanData.NormalizeColumnRepairsIds` | src/clean_data.py:56 | After the repair, every id cell is the prefix of its old value before the first `.` and holds no `.`. Repairing again changes nothing. |
| `CleanData.MatchesEmptyIffKeyAbsent` | src/clean_data.py:61-63 | A boundary key has matching table rows exactly when it is among the table's ids. |
| `CleanData.JoinOne` | src/clean_data.py:61-63 | A feature gives at least one merged row, and the first carries the feature. |
| `CleanData.JoinOneRows` | src/clean_data.py:61-63 | Every merged row of a feature carries it. A row holds table columns exactly when the key is among the table's ids, and then holds a table row whose id equals the key as text. |
| `CleanData.JoinOneJoinsEveryMatch` | src/clean_data.py:61-63 | Every table row whose id equals the feature's key is joined to the feature. |
| `CleanData.LeftJoin` | src/clean_data.py:61-63 | The left join has at least as many rows as the layer has features. |
| `CleanData.LeftJoinRows` | src/clean_data.py:61-63 | Every merged row comes from a feature. It holds a table row exactly when its feature's key is among the table's ids, and that table row has the same id as text. |
| `CleanData.JoinOneSize` | src/clean_data.py:61-67 | A feature gives one row per matching table row, or one row when none matches. Its matched count is the number of matching rows. |
| `CleanData.LeftJoinAppend` | src/clean_data.py:61-63 | The join keeps the layer's order: joining two runs of features gives their merged rows one after the other. |
| `CleanData.MatchedCount` | src/clean_data.py:66 | `notna().sum()` over the merged id column, for key columns with different names. It is at most the number of merged rows, and zero exactly when no merged row holds a table row. |
| `CleanData.LeftJoinCardinality` | src/clean_data.py:61-67 | The merged row count is the fan-out, the sum over features of max(1, number of matching table rows). The matched count is the match total, the number of matching table rows over all features, and never exceeds the fan-out. |
| `CleanData.JoinKeepsFeatureCountIffKeysUnique` | src/clean_data.py:61-63 | The merged frame has as many rows as the layer exactly when no boundary key matches more than one table row. |
| `CleanData.FanOutAtLeastOne` | src/clean_data.py:61-63 | The fan-out is at least the number of features, with equality exactly when no key matches twice. |
| `CleanData.LeftJoinAround` | src/clean_data.py:61-63 | The merged rows are the rows of the features before feature `i`, then feature `i`'s rows, then the rest. |
| `CleanData.UnmatchedFeatureAppearsOnce` | src/clean_data.py:61-63 | A feature whose key the table lacks appears exactly once, in its place, with null table columns. |
| `CleanData.EveryFeatureAppears` | src/clean_data.py:61-63 | Every boundary feature appears among the merged rows. |
| `CleanData.MergeDataWithShapefile` | src/clean_data.py:40-76 | Errors come in source order. First FileNotFoundError for the shapefile, then for the data file. Then KeyError for the table's id column, then for the layer's key column. Then KeyError at line 66 when the layer also has a column of the table's id name. Otherwise the result is the left join of the layer with the repaired table, of fan-out length. `matched_count` is the number of joined table rows, or every row when the two key columns share a name. |
| `CleanData.SharedKeyNameCountsEveryRow` | src/clean_data.py:61-67 | With one name for both key columns, a feature with no match still counts once. |
| `CleanData.OneFeatureOneRow` | src/clean_data.py:56-67 | One feature and one table row join exactly when the repaired id equals the feature's key as text. The merged row then carries the repaired id and the count is 1; otherwise the table columns are null and the count is 0. |
| `CleanData.JoinExamples` | src/clean_data.py:56-63 | A table id `1.0` (leading zeros lost) does not meet the tract `001`. The id `110010074011.0` does meet the tract `110010074011`. |
| `CleanData.ThreeTractsTwoMatched` | src/clean_data.py:56-67 | Three tracts against a table of the first and last tract ids written as floats give all three tracts in order. The first and last carry their repaired rows and the middle one null columns, and two matches are counted. |
| `CleanData.ThreeTractsExample` | src/clean_data.py:56-67 | The same for the tracts `001`, `002` and `003` and table ids `001.0` and `003.0`. |
| `Start.SelectRows` | src/start.py:56 | `df[df[column] == value]`: at most the input's rows, each an input row holding the value. |
| `Start.FilterDcData` | src/start.py:43-66 | A missing input raises FileNotFoundError before the column check. A missing state column raises KeyError. Otherwise the result keeps the frame's columns, and its rows are `SelectRows` of the state column and value. |
| `Start.FilterKeepsExactlyTheStateRows` | src/start.py:56 | Each kept row is an input row with the state value, and every such input row is kept. The kept rows are a subsequence of the input. Their number is the number of matching rows, at most the total. The result is again a well-formed frame. |
| `Start.FilterIsTheOrderedSelection` | src/start.py:56 | The filter's rows are the only in-order selection that holds only rows of the state and misses none of them. |
| `Start.FilterIsIdempotent` | src/start.py:56 | Filtering the filtered frame again changes nothing. |

## Left out

- HTTP is not modelled:
  - `requests.get` is the `Server` oracle.
  - The 30-second timeout is not modelled. A timeout is one of the replies that raise.
  - JSON decoding is not modelled: a body either decodes to a `Json` value or it does not.
  - `requests` versions before 2.27 are not modelled. There, an undecodable body raises a plain ValueError, which would escape `get_ejscreen_data` and end the batch.
  - The API URL from `src/config.py` is not modelled. `src/config.py` holds only constants; its block-group list and delay become parameters.
- Column order is not modelled. A record, a row and the merged dictionary are maps, without the insertion order that Python dictionaries keep. So the column order of the DataFrames built from them, and of the saved CSV files, is not modelled (`src/get_study_data.py:43-53`, `src/get_data_from_api.py:59`).
- File I/O is not modelled. File existence is a boolean input, and the frames that `read_csv` and `gpd.read_file` load are inputs.
- Writing the results is not modelled: `mkdir`, `to_file`, `to_csv` and `save_dataframe` write files and return nothing the callers use.
- `time.sleep` is a `Sleep(delay)` event in the batch trace, not real time. The delay is a real number. So Python's float infinity (OverflowError in `time.sleep`) and NaN (ValueError) are not modelled.
- Printing and logging are not modelled. Neither are `identify_columns`, `print_summary`, `plot_merged_data` or the `main` functions: they are console output, plotting and command-line handling.
- Geometry is an opaque type parameter that the join carries along untouched.
- pandas type inference and NaN handling are not modelled. Cells are taken as already-stringified text, after `astype(str)`. So a float id arrives as `"…011.0"`, and the boundary key arrives unchanged (line 57).
- `str(NaN) == "nan"` is not modelled.
- `index_col=0` in `filter_dc_data` is not modelled. The frame the model receives is the frame after reading. If the state column is the first CSV column, it has become the index and is missing from that frame.
- The merged frame's column names are not modelled. The model keeps each feature and its joined table row apart instead of building one wide row. So the `_x`/`_y` suffixes pandas gives to other shared column names are not modelled either. The two cases that change `matched_count` are modelled (`MergeDataWithShapefile`).
- Updating columns in place is not modelled. `merge_data_with_shapefile` overwrites the key columns of its two local frames (lines 56-57) before joining. The model computes the repaired rows as a new value, since the frames are local and the update is not visible to the caller.
- `BatchCollector.FetchMultipleBlockGroups` takes the per-id fetch as a parameter. In the source it is always `get_ejscreen_data_bg`, which is `BgFetcher(server)` here. Its properties are proved for any fetch, and for this one through `BgFetchOutcome` and `BgFetcherTagsRecords`.
- pandas `DataFrame(data_list)` is not modelled. The model returns the rows as a sequence of records; every record has the same nine columns, so the table is those rows.
