# nrc-ua-map-buffer: a Dafny model of the buffer-zone pipeline

`script.py` fetches the latest DeepStateMap frontline snapshot. From the feed's
features it keeps the polygons whose label is an occupied-territory category,
and merges them with the adversary's national border into one frontline. It then
draws three distance bands (Critical, High, Moderate) around that frontline,
clipped to the target country's border. It writes the result as a "latest"
GeoJSON file plus a dated archive copy. Every stage is fail-closed: the first
stage whose result is empty ends the run with exit status 1, and nothing is
written after it.

The model covers the control logic around the geometry library. It has nine
modules.

- `Wrappers` holds the `Option` type.

- `Text` models Python's `str.strip()` and `strftime`'s zero-padded decimal
  fields.
- `Names` models `str.split("///")` and the label a feature name carries.
- `Settings` holds the configuration record, calendar dates, and the archive
  filename together with its parser.
- `Feed` holds the parts of the decoded JSON feed the program reads, and Python
  truthiness of the decoded body.
- `Fetcher` models the bounded retry loop as a method with a loop. It is proved
  against the functions `FetchResult` and `RetryTrace`. The reply each attempt
  gets is a parameter.
- `Extraction` models the label classifier and the list comprehension that
  filters features, including how the `try` around it turns any raised error
  into an empty result. `shape()` and `is_valid` are function parameters over
  an abstract geometry type.
- `ZoneBuilder` models the tier table and the ring loop. It is a method with a
  loop, proved against `BufferZones`. Geometries are `set<P>` over an abstract
  point type. A buffer is a given function of a geometry and a radius;
  difference is `-` and clipping is `*`.
- `Pipeline` models `main` and the exception handler around it. `RunPipeline`
  runs the stages in order with early exits, and returns the exit status, the
  stages it reached and the files it left. Everything outside the program is
  one `World` value: the service's replies, the geometry operations, the
  border files' rows, and whether directories and files can be written.

Two behaviours of the code are easy to miss, and the model follows the code in
each:

- A feature whose name has no `"///"` aborts the whole extraction: indexing
  `[1]` raises inside the one `try`. So does a matching feature without a
  `"geometry"` key. Such features are not merely skipped.
- `gpd.clip` drops a band that does not meet the target country. A frontline
  whose widest band misses the country therefore yields no rows. `main` treats
  that as an empty result and exits with status 1, rather than writing an empty
  zone file.

## Model

| member | source | states |
|---|---|---|
| Text.Strip | script.py:77 | `str.strip()` as `rstrip` after `lstrip`; its contract is stated by `StripSlice`, `StripIdempotent` and `StripUnchanged` |
| Text.StripLeftSpec | script.py:77 | `lstrip` cuts only whitespace (Python's `isspace` set), and what it keeps does not start with whitespace |
| Text.StripRightSpec | script.py:77 | `rstrip` cuts only whitespace, and what it keeps does not end with whitespace |
| Text.StripSlice | script.py:77 | `strip` returns a contiguous slice of its input that neither starts nor ends with whitespace; everything cut on either side is whitespace |
| Text.StripIdempotent | script.py:77 | stripping twice gives the same label as stripping once |
| Text.StripUnchanged | script.py:77 | a label with no whitespace at either end is left as it is |
| Text.DigitRoundTrip | script.py:39 | each decimal digit character reads back as the digit it prints |
| Text.ZeroPad | script.py:39 | a zero-padded field has exactly the requested width and holds only digits |
| Text.DecimalValueOfZeroPad | script.py:39 | a number below 10^width, zero-padded to that width, reads back as itself |
| Text.ZeroPadOfDecimalValue | script.py:39 | a digit string is the zero-padded form of its own value, so the padding loses nothing |
| Names.FindDelimiter | script.py:77 | a delimiter position found by the search lies at or after the start and holds `"///"` |
| Names.FindDelimiterFirst | script.py:77 | the search returns the leftmost delimiter, and no delimiter exists when it finds none |
| Names.Split | script.py:77 | `split("///")` always yields at least one piece |
| Names.JoinSplit | script.py:77 | joining the pieces with `"///"` gives back the original name |
| Names.SplitPiecesFree | script.py:77 | no piece of the split contains `"///"` |
| Names.SplitHasSecondPiece | script.py:77 | a second piece (index 1) exists if and only if the name contains `"///"` |
| Names.LabelOf | script.py:77 | `split("///")[1].strip()`, None where indexing `[1]` raises; its contract is stated by `LabelExistsIff`, `LabelBetweenDelimiters` and `LabelOfPlainName` |
| Names.LabelExistsIff | script.py:77 | the label `split("///")[1].strip()` exists (indexing does not raise) if and only if the name contains `"///"` |
| Names.LabelBetweenDelimiters | script.py:77 | the label is the stripped text between the first delimiter and the next one, or the end of the name |
| Names.LabelOfPlainName | script.py:77 | for `prefix///category` with no other `/` and no surrounding whitespace, the label is the category itself |
| Settings.DefaultConfig | script.py:19-34 | the shipped defaults: 3 attempts, a 5-second delay, the three occupied categories and the radii 9000, 40000 and 80000; its contract states at least one attempt and three distances that widen; `DefaultTiers` and `ContestedNotOccupied` state the values |
| Settings.DateStamp | script.py:39 | `strftime('%Y%m%d')` is eight digits |
| Settings.ArchiveFilename | script.py:36-39 | the archive name is 34 characters: `buffer_zones_data_`, eight digits, `.geojson` |
| Settings.ParseArchiveFilename | script.py:36-39 | a date read back from an archive name is always a valid calendar date |
| Settings.ArchiveFilenameRoundTrip | script.py:36-39 | every valid date is recovered from its archive name, so two dates never share an archive file |
| Settings.ParsedArchiveFilenameRoundTrip | script.py:36-39 | every name the parser accepts is exactly the archive name of the date it reads |
| Feed.Truthy | script.py:180 | Python truthiness of the decoded body: an object is truthy exactly when it has a key; `EmptyObject` states that `{}` is falsy |
| Feed.EmptyObject | script.py:67-68 | the `{}` returned after the last failed attempt is falsy, so `main` stops on it |
| Fetcher.FirstSuccess | script.py:56-60 | the attempt chosen is the first in the range that got a body; when none is chosen, every attempt in the range failed |
| Fetcher.FetchDeepStateMapData | script.py:56-68 | the loop returns the first body received, or `{}`, and its requests and sleeps are exactly `RetryTrace` of the attempts made |
| Fetcher.RetryTraceShape | script.py:56-65 | `n` attempts give `2n-1` events that alternate: request 1, sleep, request 2, ..., request n |
| Fetcher.RetryTraceCounts | script.py:56-65 | `n` attempts make `n` requests and `n-1` sleeps, and the last event is the last request, never a sleep |
| Fetcher.AlwaysFailing | script.py:56-68 | when every attempt fails: exactly `max_retries` requests, `max_retries - 1` sleeps, none after the last request, and the result is the falsy `{}` |
| Fetcher.StopsAtFirstSuccess | script.py:56-60 | the first attempt that gets a body returns it at once: no later attempt, one sleep fewer than attempts |
| Fetcher.NoAttemptAllowed | script.py:56-68 | with `max_retries <= 0` no request is made and the result is `{}` |
| Fetcher.AttemptsWithinBudget | script.py:56-63 | never more than `max_retries` attempts, and every attempt before the last one made failed |
| Extraction.NameOf | script.py:77 | `feature.get("properties", {}).get("name", "")`: missing keys give `""`, a value of the wrong kind raises; `MissingNameHasNoDelimiter` states the default case |
| Extraction.Classify | script.py:77-79 | the comprehension's condition on one feature: raise, skip or keep; its contract is stated by `KeptIff` and `ClassifyLooksOnlyAtMatched` |
| Extraction.FeaturesOf | script.py:73 | `raw_data.get("map", {}).get("features", [])`: missing keys give no features, a value of the wrong kind raises |
| Extraction.ExtractOccupiedTerritories | script.py:70-84 | `extract_occupied_territories`; its contract is stated by `ExtractionKeepsFeatureOrder`, `KeptIff`, `RaisingFeatureEmptiesResult`, `NameWithoutDelimiterEmptiesResult` and `MatchedFeatureWithoutGeometryEmptiesResult` |
| Extraction.Comprehension | script.py:74-80 | a comprehension keeps at most as many values as it has elements |
| Extraction.Territories | script.py:74-80 | the extractor keeps at most as many geometries as there are features |
| Extraction.TerritoriesIsComprehension | script.py:74-80 | the extractor is the general comprehension with the label-and-validity test as its condition |
| Extraction.KeptIff | script.py:74-80 | a feature is kept if and only if the stripped text between its first two delimiters is an occupied category and its geometry is present, parses and is valid; the kept value is that parsed geometry |
| Extraction.SelectKeepsIff | script.py:77-79 | once the label is parsed, a feature is kept if and only if the label is occupied and the geometry is present, parses and is valid |
| Extraction.ComprehensionFailsIff | script.py:72-84 | the comprehension fails if and only if some element raises |
| Extraction.ComprehensionKeepsOrder | script.py:74-80 | the kept values are those of the kept elements, at strictly increasing positions, and every kept element is among them |
| Extraction.ExtractionKeepsFeatureOrder | script.py:73-81 | the extracted geometries come from features the filter keeps, in feed order, and every kept feature contributes one |
| Extraction.TerritoriesLookOnlyAtMatched | script.py:77-79 | because `and` short-circuits, geometry parsing and validity matter only for features whose label matched |
| Extraction.ClassifyLooksOnlyAtMatched | script.py:77-79 | one feature's verdict depends on its geometry only when its label matched |
| Extraction.RaisingFeatureEmptiesResult | script.py:72-84 | one feature that raises empties the whole result |
| Extraction.NameWithoutDelimiterEmptiesResult | script.py:77-84 | one name without `"///"` empties the whole result, not just that feature |
| Extraction.MissingNameHasNoDelimiter | script.py:77 | a missing `properties` or `name` defaults to `""`, which has no `"///"` |
| Extraction.MatchedFeatureWithoutGeometryEmptiesResult | script.py:77-84 | a matching feature without a `"geometry"` key empties the whole result |
| Extraction.OccupiedExampleLabel | script.py:77-78 | `"RU///Occupied"` has label `"Occupied"`, an occupied category |
| Extraction.ContestedExampleLabel | script.py:77 | `"RU///Contested"` has label `"Contested"` |
| Extraction.ContestedNotOccupied | script.py:29 | `"Contested"` is not one of the three occupied categories |
| Extraction.OccupiedExampleKept | script.py:74-80 | a valid `"RU///Occupied"` feature is kept with its parsed geometry |
| Extraction.ContestedExampleSkipped | script.py:74-80 | a `"RU///Contested"` feature is skipped, and its geometry is never parsed |
| Extraction.KeptThenSkipped | script.py:74-80 | a kept feature followed by a skipped one yields the kept geometry alone |
| Extraction.OccupiedKeptContestedDropped | script.py:70-81 | a feed holding `"RU///Occupied"` then `"RU///Contested"` extracts exactly the first feature's geometry |
| ZoneBuilder.BufferDefinitions | script.py:139-143 | the table has three tiers: Critical, High, Moderate in that order, the first inner radius 0, each inner radius the previous outer one, each outer radius the configured distance; it fails exactly when a distance is missing |
| ZoneBuilder.Ring | script.py:146-161 | a band lies inside the target and outside the inner buffer |
| ZoneBuilder.ClippedRings | script.py:145-163 | the loop yields at most one row per tier |
| ZoneBuilder.CreateBufferZones | script.py:134-168 | the loop's rows are `BufferZones`: each tier's clipped band in table order, bands that miss the target dropped |
| ZoneBuilder.ZonesInsideTarget | script.py:158-161 | every zone is a non-empty part of the target |
| ZoneBuilder.ZonesAreRings | script.py:145-163 | the zones are exactly the non-empty `(buffer(outer) - buffer(inner)) * target` bands, each named after its tier |
| ZoneBuilder.ChainedCoverage | script.py:139-163 | for chained, widening tiers and a monotone buffer, the zones together cover `(buffer(last outer) - buffer(first inner)) * target` |
| ZoneBuilder.RingsDisjoint | script.py:139-158 | bands of two different tiers do not overlap |
| ZoneBuilder.ChainedDisjoint | script.py:145-163 | the zones are pairwise disjoint |
| ZoneBuilder.DefaultTiers | script.py:139-143 | with the default distances the table is Critical 0-9000, High 9000-40000, Moderate 40000-80000 |
| ZoneBuilder.ZonesPartitionBand | script.py:139-163 | with increasing distances and a monotone buffer, the zones partition `(buffer(Moderate) - buffer(0)) * target` |
| ZoneBuilder.DefaultZonesPartitionBand | script.py:139-163 | with the default distances, the zones are pairwise disjoint and together cover `(buffer(80000) - buffer(0)) * target` |
| ZoneBuilder.MissingDistanceYieldsNoZones | script.py:139-171 | a missing distance key raises, and the caught error yields no zones |
| ZoneBuilder.FrontlineFarFromTargetYieldsNoZones | script.py:145-163 | when the widest buffer misses the target, every band is dropped and there are no zones |
| Pipeline.LatestPath | script.py:209 | the latest file's path, the configured directory joined with the configured name; `LatestAndArchiveDiffer` states its contract |
| Pipeline.ArchivePath | script.py:213 | the dated copy's path, the archive directory joined with the archive filename of `today`; `LatestAndArchiveDiffer` states its contract |
| Pipeline.PathJoin | script.py:209 | `dir / name` is the directory, one `/`, then the name; `LatestAndArchiveDiffer` uses it |
| Pipeline.LatestAndArchiveDiffer | script.py:209-214 | with the shipped configuration the latest file and its dated copy never share a path, so `shutil.copyfile` never copies the file onto itself and a failed copy is a fact about the file system alone |
| Pipeline.UnionAll | script.py:112-113 | `unary_union` of a layer's rows, also the clip mask of `script.py:161`; `UnionAllMembers` and `UnionAllAppend` state its contract |
| Pipeline.UnionAllMembers | script.py:112-113 | a point is in the union of a layer exactly when it is in one of its rows |
| Pipeline.MergeAndClean | script.py:104-128 | `merge_and_clean_geometries`: the clean-up applied to the union of both layers, None where it raises; its contract is stated by `UnionAllMembers` and `MergeIgnoresLayerOrder` |
| Pipeline.MergeIgnoresLayerOrder | script.py:112-114 | the merge sees only the union of both layers, so their order does not matter |
| Pipeline.FirstFailure | script.py:179-206 | the stop is at a failed check with every earlier check passed; no stop means every check passed |
| Pipeline.FailedCheckIsFirstFailure | script.py:173-214 | making `main`'s checks one after the other stops at the first one that fails |
| Pipeline.RunPipeline | script.py:173-223 | `main` runs the stages in order, returns status 0 exactly when every check passes and 1 otherwise, and leaves exactly the files `FilesWritten` names |
| Pipeline.SuccessIff | script.py:173-216 | a run succeeds if and only if every stage's check passes, and then it runs every stage |
| Pipeline.FailureStopsTheRun | script.py:179-214 | the first failed check ends the run there: no later stage runs, no file is written before the latest-file stage, and a failed archive copy leaves only the latest file |
| Pipeline.WrittenZonesInsideTarget | script.py:203-214 | every file written holds the computed zones, each a non-empty part of the target country |
| Pipeline.UnreachableServiceFailsAtFetch | script.py:179-182 | when every request fails, the run stops at the fetch with no file written |
| Pipeline.EmptyExtractionFailsAtExtract | script.py:184-187 | an empty extraction stops the run before the borders are loaded, with no file written |
| Pipeline.FrontlineFarFromTargetFailsAtZones | script.py:203-206 | a frontline whose widest band misses the target stops the run at the zone stage, with status 1 and no file written |

## Left out

- The HTTP request, `raise_for_status`, the ten-second timeout, the User-Agent header and JSON decoding (`script.py:48-60`) are network I/O. Each attempt is only its outcome: a decoded body, or a `RequestException`. A body that is not JSON raises requests' JSON error, which is a `RequestException`, so it counts as a failed attempt. An exception of another kind escaping `requests.get` is not modelled.
- All shapely and geopandas work runs on floats in a foreign library. These are parameters: `shape`, `is_valid`, the round-cap mitre buffers (`script.py:146-157`), and the closing and mitre clean-up buffers after the union (`script.py:114-119`, the `clean` parameter). `unary_union` is modelled as the union of the rows' point sets, and `gpd.clip` as intersection with the union of the target's rows, dropping a band that comes out empty. The floating-point behaviour of these operations is not modelled.
- The reprojections between EPSG:4326 and EPSG:32637 (`script.py:109-110`, `script.py:122`, `script.py:135-137`, `script.py:168`) are taken as the identity: the occupied territories, both border layers, the merged frontline and the written zones all share one point space. `ZonesInsideTarget` and `WrittenZonesInsideTarget` prove containment in the target under that assumption only.
- ZoneBuilder.CreateBufferZones: the buffers and the clip never raise in the model. In the source, an error there is caught and also yields no zones.
- Monotonicity of the buffer is a hypothesis of the lemmas that need it, not a fact about shapely.
- Loading the two border files (`script.py:86-102`) is file I/O. Each layer is the list of rows read, with a missing, unreadable or empty file read as no rows. The CRS default is left out.
- `mkdir`, `to_file` and `shutil.copyfile` are booleans in the `World`: can the directories be made, can each file be written. The handler at `script.py:219-223` turns their exceptions into status 1.
- Logging is left out, and so is the time `time.sleep` waits: the trace records only the sleep and its length. `sys.exit` becomes the returned status.
- `retryDelay` is a `nat`, narrower than `retry_delay: int` (`script.py:28`). A negative delay would make `time.sleep` at `script.py:65` raise `ValueError`, which is not a `RequestException`: it would escape the loop and end the run through the handler at `script.py:219-223` with status 1. The shipped delay is 5.
- `datetime.now()` becomes the `today` parameter, a valid calendar date.
- Settings.DateStamp pads every year to four digits. glibc's `strftime` prints years below 1000 without padding. Such dates cannot occur on a clock that reads the present.
- A `map`, `features`, `properties` or `name` value of the wrong JSON kind is modelled as raising (`Mistyped`), which the `try` catches. A feature that is not a JSON object cannot be represented: in the source it raises at `script.py:77`, and the caught error empties the whole result.
- A dataclass field with a `dict` default (`script.py:30-34`) is rejected by Python when the class is created. The configuration is modelled as the evident intention: an immutable value whose `buffer_distances` is a map.
- `api_url` and the two border file paths are not part of `Config` here, because the model never opens them.
