# Edge distances from a KML road network, modelled in Dafny

`dist_gen.py` reads the placemarks of a KML file in document order. For each placemark it:

- takes the text of its `LineString/coordinates` element;
- splits that text into `lon,lat[,alt]` tokens and stores each token as a `(lat, lon)` pair;
- routes from the first to the last pair through the public OSRM server;
- appends a row `{edge_name, distance_m, duration_s}` to `rows`.

A placemark without a LineString is skipped with `continue`. Every other failure, such as a status error from the server or an index error on the coordinates, is an uncaught exception and ends the whole run. From `rows` the script builds a pandas DataFrame. It adds three columns to that frame: distance in kilometres, duration in minutes and average speed in km/h.

The model has five modules:

- `Outcomes` (`outcomes.dfy`): `Option`, `Result` and the faults that end a run.
- `PyText` (`pytext.dfy`): the Python string operations the script calls: `str.strip()` and `str.split()` over the `str.isspace()` whitespace set, and `str.split(sep)`. `strip()` is built from `LStrip` and `RStrip`, which remove the leading and the trailing whitespace. `JoinOn` plays the part of `sep.join`, which the script does not call; it is there only to state round trips.
- `Coordinates` (`coordinates.dfy`): seven pure functions (`Reversed`, `ParseCoord`, `ParseTokens`, `ParseCoordinates`, `Endpoints`, `RoutePath`, `RouteUrl`) with lemmas, covering three steps of the script.
  - The coordinate comprehension.
  - The choice of origin and destination.
  - The OSRM request URL.
- `EdgeRows` (`edge_rows.dfy`): the placemark loop.
  - `CollectRows` is a method with a `while` loop. It keeps `rows` as a `seq` and returns at the first failing placemark.
  - The loop is proved against the functions `StepOf`, `Steps`, `RowsOf` and `FirstAbort`.
  - The server is a function from request URL to reply.
- `Columns` (`columns.dfy`): the derived columns. `DistanceTable` is the whole script from line 15 to line 43.

Two behaviours of the script are easy to mistake for something else, and the model keeps the script's:

- **Routing failures are fatal.** The script does not log a failed edge, skip it and carry on. `raise_for_status()` and the JSON indexing raise, so any routing failure ends the run. `CollectRows` returns `Aborted` with the rows collected so far.
- **A zero duration does not raise.** The script divides pandas columns, and there a division by zero gives infinity or NaN. `AvgSpeedKmh` returns `PosInf`, `NegInf` or `NaN` in that case.

## Model

| member | source | states |
|---|---|---|
| PyText.LStripFacts | dist_gen.py:22 | `lstrip()` removes a prefix of whitespace only, and the rest is empty or starts with a non-space character |
| PyText.RStripFacts | dist_gen.py:22 | `rstrip()` removes a suffix of whitespace only, and the rest is empty or ends with a non-space character |
| PyText.StripFacts | dist_gen.py:22 | `strip()` returns the middle of the text: what it removes before and after is whitespace only, and the result is empty or starts and ends with a non-space character |
| PyText.Split | dist_gen.py:22 | `split()` gives at most one token per character; what the tokens are is stated by the lemmas below |
| PyText.SplitTokens | dist_gen.py:22 | every token of `split()` is non-empty and holds no whitespace, whatever whitespace surrounds or repeats between tokens |
| PyText.SplitSpacePrefix | dist_gen.py:22 | leading whitespace yields no token |
| PyText.SplitSpaceSuffix | dist_gen.py:22 | trailing whitespace yields no token |
| PyText.SplitWordThenSpace | dist_gen.py:22 | a run of whitespace of any length separates two tokens, with no empty token between them |
| PyText.SplitIgnoresStrip | dist_gen.py:22 | `text.strip().split() == text.split()` |
| PyText.SplitKeepsNonSpace | dist_gen.py:22 | the tokens, concatenated, are exactly the non-whitespace characters of the text, in order |
| PyText.SplitJoinSpace | dist_gen.py:22 | joining whitespace-free tokens with single spaces and splitting the result gives the tokens back |
| PyText.SplitOn | dist_gen.py:21 | `token.split(',')` has at least one field, and no field holds a comma |
| PyText.JoinSplitOn | dist_gen.py:21 | `','.join(token.split(',')) == token` |
| PyText.SplitOnJoin | dist_gen.py:21 | splitting the join of comma-free fields gives the fields back |
| Coordinates.Reversed | dist_gen.py:21 | `s[::-1]` has the length of `s`, and its element k is element `len(s)-1-k` of `s` |
| Coordinates.ParseCoord | dist_gen.py:21 | a coordinate has one or two fields; `ParseCoordFields` says which |
| Coordinates.ParseCoordinates | dist_gen.py:20-23 | one coordinate per token of `text.strip().split()`, in token order |
| Coordinates.CoordinatesPerToken | dist_gen.py:20-23 | the `strip()` changes nothing: there is one coordinate per whitespace-separated token of the text itself, in order |
| Coordinates.ParseCoordFields | dist_gen.py:21 | a token with two or more fields gives `(field1, field0)`, so the altitude and later fields are dropped; a token without a comma gives the 1-tuple of the whole token |
| Coordinates.TupleOfFields | dist_gen.py:21 | a token built as `f0,f1[,...]` from comma-free fields gives the coordinate `(f1, f0)` |
| Coordinates.SwapBackRestoresFields | dist_gen.py:21-27 | swapping the stored `(lat, lon)` back gives the token's first two fields in source order, so the two reversals cancel |
| Coordinates.Endpoints | dist_gen.py:24 | an empty list fails with `NoCoordinates`; otherwise origin is the first coordinate and destination the last, and they are equal when there is one coordinate |
| Coordinates.EndpointsOfText | dist_gen.py:20-24 | for a text with a token, origin and destination are the coordinates of its first and last tokens |
| Coordinates.RoutePath | dist_gen.py:27 | the path fails with `MissingLongitude` exactly when origin or destination is a 1-tuple |
| Coordinates.RouteUrl | dist_gen.py:27 | the URL is the OSRM driving-route prefix, then the route path, then `?overview=false`; it fails exactly when the path does |
| Coordinates.RoutePathFields | dist_gen.py:27 | the path splits on `;` into two parts, and each part splits on `,` into its pair swapped back to `lon,lat` |
| Coordinates.RouteKeepsTokenAxisOrder | dist_gen.py:21-27 | the path's two parts hold the first two fields of the first and last tokens in their source axis order; a two-field token appears in the path unchanged. Only the two fields that reach the path must be free of `;`, so a token such as `1,2,3;4` is covered |
| Coordinates.LongTokensGiveUrl | dist_gen.py:21-27 | when both endpoint tokens have a comma, the URL is built |
| EdgeRows.Fetch | dist_gen.py:28-30 | the routing call gives a leg exactly when the server replies with a status outside 400-599 and a body that has a leg; no reply fails with `ConnectionFailed`, a 4xx or 5xx status with `HttpStatus(status)`, and a body without a leg with `NoRouteLeg` |
| EdgeRows.EdgeName | dist_gen.py:33 | a missing name element fails with `NoNameElement`; otherwise the name is the element's text, or `''` when that text is empty or None |
| EdgeRows.FetchRow | dist_gen.py:28-36 | a row is emitted exactly when the fetch succeeds, a name element exists and the leg has both `distance` and `duration`; its fields are the name and those two values. The failures come in the script's order: a failed fetch aborts with its fault, then a missing name element with `NoNameElement`, then a missing leg key with `NoLegField` |
| EdgeRows.StepOf | dist_gen.py:17-36 | the loop body as a function: a placemark is skipped exactly when it has no coordinates element, and an emitted row has the name element's text, or `''` |
| EdgeRows.RouteRow | dist_gen.py:20-36 | the body of the loop, statement by statement, for a placemark with a coordinates element: it never skips and returns the same step as `StepOf` |
| EdgeRows.RowsOf | dist_gen.py:32-36 | the rows of a run of steps, one per emitting step and in step order; never more rows than steps |
| EdgeRows.RowsOfEmitted | dist_gen.py:32-36 | every row comes from an emitting step, and every emitting step's row is among the rows |
| EdgeRows.FirstAbort | dist_gen.py:16-37 | the index of the step that ends the run is at most the number of steps, and when it is below that number the step at that index aborts |
| EdgeRows.CollectRows | dist_gen.py:15-37 | the loop completes with the rows of all steps when no step fails; otherwise it ends at the first failing placemark, with that fault and exactly the rows of the placemarks before it |
| EdgeRows.FirstAbortIsFirst | dist_gen.py:16-37 | no placemark before the one that ends the run fails |
| EdgeRows.RowsOfAppend | dist_gen.py:32-36 | appending rows never changes or reorders the rows already collected |
| EdgeRows.CompletedRowCount | dist_gen.py:16-36 | in a run that completes, each placemark with a coordinates element adds exactly one row and each other placemark adds none |
| EdgeRows.AbortsWithoutToken | dist_gen.py:22-24 | a coordinates element with no text fails with `NoCoordinateText`; one whose text holds only whitespace fails with `NoCoordinates` |
| EdgeRows.StepRoutesFirstToLast | dist_gen.py:20-30 | a placemark whose first and last tokens both have a comma fetches the URL built from those two tokens; what it adds then depends only on the reply and its name element |
| EdgeRows.RoutingFailureAborts | dist_gen.py:28-30 | a routing call that raises, a reply with a 4xx or 5xx status, or a reply without a route leg aborts the run at that placemark instead of skipping the edge |
| EdgeRows.StepAbortsOnOneField | dist_gen.py:21-27 | a first or last token without a comma ends the run with `MissingLongitude` |
| Columns.DistanceKm | dist_gen.py:41 | kilometres times 1000 are the metres |
| Columns.DurationMin | dist_gen.py:42 | minutes times 60 are the seconds |
| Columns.AvgSpeedKmh | dist_gen.py:43 | the speed is finite exactly when the duration is non-zero, and then speed times hours is the distance; a zero duration gives infinity with the distance's sign, or NaN for a zero distance |
| Columns.SpeedFromLeg | dist_gen.py:41-43 | for a non-zero duration, `avg_speed_kmh == 3.6 * distance_m / duration_s` |
| Columns.SpeedOfRoute | dist_gen.py:41-43 | a non-negative distance over a positive duration gives a finite, non-negative speed |
| Columns.RecordOf | dist_gen.py:40-43 | a record keeps its row's three fields; its kilometres times 1000 are the metres, its minutes times 60 are the seconds, and its speed is `AvgSpeedKmh` of those two |
| Columns.Frame | dist_gen.py:40-43 | the frame has one record per row, and record k is `RecordOf` row k |
| Columns.FrameKeepsRows | dist_gen.py:40-43 | the derived columns leave `edge_name`, `distance_m` and `duration_s` as the rows gave them |
| Columns.Table | dist_gen.py:40-43 | no rows fails with `NoDistanceColumn`, the KeyError of `df['distance_m']` on an empty frame; otherwise record k is `RecordOf` row k, so it carries the derived columns of lines 41-43, and the rows read back unchanged |
| Columns.DistanceTable | dist_gen.py:15-43 | the whole script fails with the fault of the first failing placemark, and otherwise gives the table of all collected rows |
| Columns.TableSize | dist_gen.py:16-41 | in a run that completes, the table has one record per placemark with a coordinates element, and it fails when there is none |

## Left out

- KML parsing with ElementTree (lines 10-13, 17 and 33): the model takes placemarks as values. Each value holds an optional name element with optional text, and an optional coordinates element with optional text.
- `float()` on the coordinate fields (line 21):
  - fields are kept as text, so a `ValueError` on a field that is not a number is not modelled;
  - a token such as `a,b` is routed with its text as it is;
  - Python's float formatting inside the f-string can change a numeral, for example `1.50` becomes `1.5`. The model writes the field's text, so `RouteKeepsTokenAxisOrder` holds for the text and not necessarily for the numerals the script writes.
- The HTTP request, `raise_for_status()` and JSON decoding (lines 28-30): the server is an oracle from URL to reply.
  - A reply is either "the request raised" or a status with an optional first leg. A leg's `distance` and `duration` are each optional.
  - A malformed JSON body and a missing `routes` or `legs` entry are all the one fault `NoRouteLeg`.
  - JSON values of `distance` or `duration` that are not numbers are not modelled: both are reals.
  - The oracle is a fixed function of the URL, so two identical requests always get the same reply. A server whose answers change between requests is not modelled.
  - Redirects and the other details of `requests` are not modelled.
- `time.sleep(0.5)` (line 37): timing only, with no effect on the rows.
- Printing and CSV writing (lines 46-48): output I/O.
- The arithmetic is over reals. IEEE-754 rounding is not modelled.
  - `AvgSpeedKmh` keeps only the three outcomes of a division by zero: infinity of the distance's sign, or NaN.
  - A finite result is the exact real quotient, not the double nearest to it.
- The pandas column types: a frame from non-empty rows is modelled as a list of records.
- Nearest-node snapping, capacity estimates and flow-rate columns: `dist_gen.py` has none of them.
- PyText.Split: its own contract only bounds the number of tokens. What the tokens are is stated by `SplitTokens`, `SplitKeepsNonSpace`, `SplitJoinSpace` and the other `Split` lemmas. Those facts in the contract would make every proof that unfolds `Split` costly.
- Coordinates.ParseCoord: its own contract only says a coordinate has one or two fields. `ParseCoordFields` states which fields, for the same cost reason.
