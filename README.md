# Location-history subsetters and crochet grid tools, in Dafny

This project models two small tool sets from one repository and proves
properties of them.

The first is a pair of scripts that cut a subset out of a Google Location
History export too large to load at once.
- `subset_location_history.py` scans the records for their earliest and
  latest timestamps, or exports the records whose time span meets a window.
- `subset_by_state.py` exports the records with at least one `geo:lat,lon`
  point inside a US state.

Both scripts read their input with a hand-written character-level reader. It
pulls one `{...}` object at a time out of a top-level array, out of an array
that follows a named key, or (in the first script) out of newline-delimited
JSON. They write what they keep as a JSON array, one record at a time.

The second is the crochet grid tools:
- a NiceGUI editor model (`CrochetModel`);
- a Tk pattern editor (`CrochetGridApp`);
- an image converter that lays a thresholded picture out on a grid as a
  pattern the Tk editor loads.

## Modules

| file | module | what it holds |
|---|---|---|
| `wrappers.dfy` | `Wrappers` | `Option` and `Result` |
| `text.dfy` | `Text` | the Python string operations used: `isspace`, Unicode decimal digits, `strip`, ASCII `lower`/`upper`, `split`, `join`, prefix and substring tests |
| `json.dfy` | `Json` | JSON values, `dict.get`, truthiness, `int()`, `len()`, and the text `json.dump(..., ensure_ascii=False)` writes |
| `object_scanner.dfy` | `ObjectScanner` | the brace/string/escape state machine, the array readers, the keyed search, and the output array with its limit |
| `location_history.dfy` | `LocationHistory` | `parse_dt`, `extract_times`, NDJSON reading, format dispatch, `update_range`, `in_range`, and the scan and export loops of `main` |
| `by_state.dfy` | `ByState` | `parse_geo`, `extract_points`, `select_state_geom`, `record_in_state`, `iter_records`, and the export loop of `main` |
| `grid.dfy` | `Grid` | grids of optional colours, and 4-connected regions |
| `history.dfy` | `UndoHistory` | undo and redo stacks as values, shared by both editors |
| `hex.dfy` | `Hex` | the NiceGUI port's lenient `normalize_hex`, and the strict one the Tk editor and the converter share |
| `nicegui_model.dfy` | `NiceGui` | the `CrochetModel` class |
| `pattern.dfy` | `TkEditor` | the grid logic of `CrochetGridApp`, as a class, plus pattern loading and numbering |
| `image_to_crochet.dfy` | `ImageToGrid` | the figure choice, the layout checks, the cell-filling loops, and the returned pattern |

## Parameters for what the model does not see

These become parameters of the model:
- `json.loads` is `decode: string -> Option<Json>`, where `None` is a decode error.
- `datetime.fromisoformat` is `fromIso`. It gives a wall-clock reading in
  integer seconds and an optional UTC offset. Instants are integer seconds in
  UTC.
- shapely's point-in-polygon test is `contains(state, lon, lat)`. The state
  table is the list of its `NAME`/`STUSPS` rows.
- The input file is a character sequence. `fp.read(1)` at offset `i` is
  `s[i]`, and the end of the sequence is end of file.
- For the image converter:
  - the grey levels of the image are the sequence `gray`;
  - the resized image's `getpixel((c, ru))` is `pixel(c, ru)`;
  - `otsu_threshold` is the parameter `otsu`.

The Python generators become a reader result: `Stream(items, err)`, the
records yielded in order plus the exception that ended the read, if any.

The two scripts' readers are one model, `ObjectScanner`, with two
parameters:
- `topStrings`: whether a quoted string between records is read over.
  Only `subset_location_history.py`'s top-level reader does this (lines
  141-145).
- The keyed search's window. The first script keeps
  `max(1024, len(needle) + 10)` characters; `subset_by_state.py` keeps
  `max(2048, len(needle) + 20)`. `FindKey` is proved to find the first end
  of the key for every window at least as long as the key, so both widths
  behave the same.

`subset_by_state.py:58-206` repeats these readers. The rows below cite the
first script's copy.

## Model

| member | source | states |
|---|---|---|
| `Text.Strip` | subset_location_history/subset_location_history.py:36 | `str.strip()`: the result is the input minus its leading and trailing white space, starts and ends with a non-space, and is empty exactly when the input is all white space |
| `Text.StripIdempotent` | subset_location_history/subset_location_history.py:89 | stripping twice is stripping once |
| `Text.Split` | subset_location_history/subset_location_history.py:367 | `str.split(",")`: no piece contains the separator, and joining the pieces with it gives the input back |
| `Text.SplitJoin` | subset_location_history/subset_location_history.py:367 | splitting a join of separator-free pieces gives the pieces back |
| `Text.Lower` | subset_location_history/subset_by_state.py:332 | ASCII `lower()`: same length, every character mapped |
| `Json.NatToString` | subset_location_history/subset_location_history.py:417 | the text `json.dump` writes for a count is non-empty, all digits, has no leading zero, and its digits spell the count back |
| `ObjectScanner.RunConcat` | subset_location_history/subset_location_history.py:154-174 | running the state machine over `a + b` is running it over `a`, then over `b` |
| `ObjectScanner.RunSane` | subset_location_history/subset_location_history.py:154-174 | the escape flag is only ever set inside a string |
| `ObjectScanner.CloseFrom` | subset_location_history/subset_location_history.py:154-174 | the capture loop's stopping point, when there is one, lies between where it starts and the end of input |
| `ObjectScanner.CloseFromFacts` | subset_location_history/subset_location_history.py:154-174 | the capture stops right after a `}` that brings the depth back to zero outside a string, and the depth stays positive before that |
| `ObjectScanner.CaptureIsBalanced` | subset_location_history/subset_location_history.py:147-175 | every captured record is a balanced `{...}` slice: it ends at depth zero, and no proper prefix does |
| `ObjectScanner.CaptureObject` | subset_location_history/subset_location_history.py:147-175 | the capture loop over `depth`, `in_str` and `esc` stops exactly where `CloseFrom` says, or reports end of file, and the slice it captures is balanced |
| `ObjectScanner.StringBodyRun` | subset_location_history/subset_location_history.py:160-167 | inside a string, escaped and plain characters never change the depth and never leave the string |
| `ObjectScanner.QuotedIsNeutral` | subset_location_history/subset_location_history.py:160-170 | a quoted string, braces included, leaves the depth where it was |
| `ObjectScanner.EscapeIsStringBody` | subset_location_history/subset_location_history.py:160-167 | the escaped text `json.dump` writes for a string never ends the string early |
| `ObjectScanner.DumpsIsNeutral` | subset_location_history/subset_location_history.py:417 | the text written for any JSON value leaves the reader's depth and string state unchanged |
| `ObjectScanner.DumpedObjectIsBalanced` | subset_location_history/subset_location_history.py:417 | the text written for an object is balanced |
| `ObjectScanner.BalancedIsCaptured` | subset_location_history/subset_location_history.py:154-174 | a balanced object text in the input is captured exactly, whatever follows it |
| `ObjectScanner.CloseFromSkips` | subset_location_history/subset_location_history.py:154-174 | the capture passes over a neutral stretch of text without stopping |
| `ObjectScanner.ReadArrayBody` | subset_location_history/subset_location_history.py:123-186 | the array loop yields exactly what `ScanBody` says: it skips white space and commas, captures and decodes each `{...}`, keeps dicts, stops at `]` or end of file, and reports end of file inside a record and decode errors |
| `ObjectScanner.ScanBodyYieldsDicts` | subset_location_history/subset_location_history.py:176-180 | every record the array loop yields is an object |
| `ObjectScanner.SkipSpace` | subset_location_history/subset_location_history.py:111-113 | the offset of the first non-space character |
| `ObjectScanner.ReadTopLevelArray` | subset_location_history/subset_location_history.py:103-187 | `iter_top_level_array`: an error when the first non-space character is not `[`, otherwise the array loop after it |
| `ObjectScanner.TopLevelYieldsDicts` | subset_location_history/subset_location_history.py:178-180 | the top-level reader yields only objects |
| `ObjectScanner.EndsAtIsEndsWith` | subset_location_history/subset_location_history.py:247 | the key ends at offset `m` exactly when the text read so far ends with the quoted key |
| `ObjectScanner.KeyEndIsFirstMatch` | subset_location_history/subset_location_history.py:242-248 | the key search stops at the first offset where the text read ends with the key, and fails only when no offset does |
| `ObjectScanner.Window` | subset_location_history/subset_location_history.py:246 | the sliding window holds the last `min(i, width)` characters read |
| `ObjectScanner.WindowSlide` | subset_location_history/subset_location_history.py:246 | appending one character and keeping the last `width` gives the next window |
| `ObjectScanner.WindowSearch` | subset_location_history/subset_location_history.py:246-247 | when the key has not ended earlier, the window contains it exactly when the key ends at the current offset |
| `ObjectScanner.FindKeyStep` | subset_location_history/subset_location_history.py:242-248 | one step of the search keeps the window and the first-match invariant |
| `ObjectScanner.FindKey` | subset_location_history/subset_location_history.py:239-248 | the windowed search finds the end of the first occurrence of the quoted key, or reports that there is none |
| `ObjectScanner.NextFrom` | subset_location_history/subset_location_history.py:251-255 | the first `[` at or after an offset, or none |
| `ObjectScanner.ReadKeyedArray` | subset_location_history/subset_location_history.py:229-316 | `iter_keyed_array`: key not found, no `[` after the key, or the array loop after that `[` |
| `ObjectScanner.KeyedYieldsDicts` | subset_location_history/subset_location_history.py:310-312 | the keyed reader yields only objects |
| `ObjectScanner.DumpsAll` | subset_location_history/subset_location_history.py:417 | one written text per kept record, in order |
| `ObjectScanner.SkipSeparators` | subset_location_history/subset_location_history.py:138-139 | white space and commas between records are skipped |
| `ObjectScanner.ScanDumpedObjects` | subset_location_history/subset_location_history.py:404-421 | the array loop reads back each written record in order when the records are separated by `,\n` |
| `ObjectScanner.ArrayTextReadsBack` | subset_location_history/subset_location_history.py:404-421 | the file written, `[\n`, the records joined by `,\n`, then `\n]\n`, reads back through the top-level reader as exactly the kept records, with no error |
| `ObjectScanner.MatchingIsFilter` | subset_location_history/subset_location_history.py:412 | the records that pass the test are a subsequence of the input, every one passes, and every passing record is among them |
| `ObjectScanner.Capped` | subset_location_history/subset_location_history.py:413-414 | the kept records are a prefix of the matches, of length `min(limit, matches)` (zero for a non-positive limit), and all of them without a limit |
| `ObjectScanner.CappedSnoc` | subset_location_history/subset_location_history.py:413-414 | one more match is kept exactly when there is no limit or the count is still below it |
| `ObjectScanner.KeptStep` | subset_location_history/subset_location_history.py:407-419 | one more scanned record changes the kept list only when it passes and the limit allows it |
| `ObjectScanner.WriteNext` | subset_location_history/subset_location_history.py:415-418 | the separator `,\n` is written before every record except the first |
| `ObjectScanner.ArrayTextFrom` | subset_location_history/subset_location_history.py:404-421 | the output is the opening text, then the records, then `\n]\n` once the loop has finished |
| `LocationHistory.ParseDt` | subset_location_history/subset_location_history.py:29-53 | `None` for non-strings and blank strings, `None` exactly when `fromisoformat` rejects the stripped text (with a trailing `Z` read as `+00:00`), otherwise the instant in UTC |
| `LocationHistory.ZuluIsUtcOffset` | subset_location_history/subset_location_history.py:40-42 | a trailing `Z` parses as the offset `+00:00` |
| `LocationHistory.UtcAndNaiveKeepTheirClock` | subset_location_history/subset_location_history.py:49-53 | a naive value and a value at offset zero both keep their wall-clock reading as the UTC instant |
| `LocationHistory.NamedTimes` | subset_location_history/subset_location_history.py:68-74 | named-field mode: at most one time per listed name, in list order, each the parse of that field |
| `LocationHistory.NamedTimesReadOnlyListedFields` | subset_location_history/subset_location_history.py:69-71 | records that agree on the listed fields give the same times |
| `LocationHistory.NamedTimesComplete` | subset_location_history/subset_location_history.py:69-73 | every listed field that parses contributes its time |
| `LocationHistory.ShallowTimes` | subset_location_history/subset_location_history.py:76-82 | scan-all mode gives at most one time per top-level field |
| `LocationHistory.ShallowTimesFromStringFields` | subset_location_history/subset_location_history.py:77-81 | every scan-all time is the parse of a top-level string field, so nested values are never consulted |
| `LocationHistory.ShallowTimesComplete` | subset_location_history/subset_location_history.py:76-81 | every top-level string field that parses contributes its time to the scan-all times |
| `LocationHistory.SeqMin` | subset_location_history/subset_location_history.py:324 | `min` is an element no greater than any other |
| `LocationHistory.SeqMax` | subset_location_history/subset_location_history.py:325 | `max` is an element no smaller than any other |
| `LocationHistory.UpdateRange` | subset_location_history/subset_location_history.py:321-328 | no times keep the range; otherwise the new range covers every new time and the old range, and each end is a new time or the old end |
| `LocationHistory.InRange` | subset_location_history/subset_location_history.py:331-344 | never true for no times |
| `LocationHistory.InRangeIsSpanOverlap` | subset_location_history/subset_location_history.py:336-344 | true exactly when there are times, and there is no start or the latest time is at or after it, and there is no end or the earliest is at or before it: both bounds inclusive |
| `LocationHistory.SomeTimeInWindowIsInRange` | subset_location_history/subset_location_history.py:331-344 | a record with one time inside the window is in range |
| `LocationHistory.SpanOverlapWithoutTimeInside` | subset_location_history/subset_location_history.py:334-344 | a record is in range when its span straddles the window with no single time inside it |
| `LocationHistory.ReadNdjson` | subset_location_history/subset_location_history.py:87-100 | NDJSON reading yields exactly what `Ndjson` says: blank lines and non-object lines are skipped, and a decode failure stops the read with its line number |
| `LocationHistory.NdjsonErrorNamesLine` | subset_location_history/subset_location_history.py:88-95 | the reported number is the 1-based number of the first non-blank line the decoder rejects |
| `LocationHistory.NdjsonYieldsDicts` | subset_location_history/subset_location_history.py:96-100 | NDJSON reading yields only objects |
| `LocationHistory.DumpsHasNoNewline` | subset_location_history/subset_location_history.py:417 | a written record contains no newline character, so it is one NDJSON line |
| `LocationHistory.NdjsonOfDumped` | subset_location_history/subset_location_history.py:87-100 | lines written from objects read back as those objects |
| `LocationHistory.NdjsonReadsBack` | subset_location_history/subset_location_history.py:87-100 | objects written one per line read back through the NDJSON reader unchanged |
| `LocationHistory.ReadJsonRecords` | subset_location_history/subset_location_history.py:190-226 | `iter_json_records`: the keyed reader when a key is given; the array reader after a leading `[`; NDJSON after a leading `{`, with an error re-raised as "not NDJSON"; otherwise an error |
| `LocationHistory.JsonRecordsYieldsDicts` | subset_location_history/subset_location_history.py:190-226 | whatever the format, every record yielded is an object |
| `LocationHistory.OverallCoversEveryRecord` | subset_location_history/subset_location_history.py:388-391 | the overall range is absent exactly when no record has a time; otherwise it covers every time of every scanned record, and both ends are such times |
| `LocationHistory.OverallStep` | subset_location_history/subset_location_history.py:410 | one more record updates the overall range with its times |
| `LocationHistory.ScanLoop` | subset_location_history/subset_location_history.py:387-391 | scan mode counts every record and ends with the overall range of all of them |
| `LocationHistory.ExportLoop` | subset_location_history/subset_location_history.py:403-421 | export mode counts every record, tracks the overall range of all of them (kept or not), keeps the matching records up to the limit, and writes exactly those as the array text |
| `LocationHistory.CleanFields` | subset_location_history/subset_location_history.py:367 | the time-field list holds only non-empty, stripped names |
| `LocationHistory.RunScan` | subset_location_history/subset_location_history.py:387-400 | exit code 1 when no record has a time or reading raised, 0 otherwise, with every record read counted |
| `LocationHistory.RunExport` | subset_location_history/subset_location_history.py:402-429 | the export outcome: counts and range over every record read, and the written text, closed by `\n]\n` only when reading finished |
| `LocationHistory.RunMain` | subset_location_history/subset_location_history.py:367-429 | exit code 2 when the end is before the start or when export has no bound; otherwise scan or export over the records read |
| `LocationHistory.ExportKeepsWithinLimit` | subset_location_history/subset_location_history.py:412-419 | `total` counts every record, `matched` never exceeds the limit or `total`, and without a limit it counts every match |
| `LocationHistory.ExportReadsBack` | subset_location_history/subset_location_history.py:403-421 | the exported file reads back through the array reader as exactly the kept records |
| `ByState.NumberInComplete` | subset_location_history/subset_by_state.py:46 | a signed decimal surrounded by white space is matched as that decimal; its digits are any Unicode decimal digits, as `\d` matches them |
| `ByState.NumberInSound` | subset_location_history/subset_by_state.py:46 | whatever is matched is a signed decimal with only white space around it |
| `ByState.GeoBodyComplete` | subset_location_history/subset_by_state.py:46 | two such numbers (Unicode decimal digits included) around a comma are read as latitude, then longitude |
| `ByState.GeoBodySound` | subset_location_history/subset_by_state.py:46 | a read pair came from two numbers around a comma |
| `ByState.ParseGeoComplete` | subset_location_history/subset_by_state.py:233-242 | `geo:` in any case, then white space, a decimal, a comma and a decimal, with white space anywhere allowed, parses to that point; the decimals may use any Unicode decimal digits, which `float()` also reads |
| `ByState.ParseGeo` | subset_location_history/subset_by_state.py:233-236 | `None` for anything but a string; a string is parsed as its stripped text, whose accepted form `ParseGeoSound` and `ParseGeoComplete` state |
| `ByState.ParseGeoSound` | subset_location_history/subset_by_state.py:233-242 | every parsed point came from text of exactly that form |
| `ByState.ParseFormatGeo` | subset_location_history/subset_by_state.py:233-242 | every well-formed `geo:lat,lon` URI is accepted and gives its point back (the writer is an illustration; the subsetter only reads) |
| `ByState.ParsedIsOnePerParsedValue` | subset_location_history/subset_by_state.py:283-287 | each value that parses contributes its point, one per value and without de-duplication, and malformed values contribute nothing |
| `ByState.PointsInOrder` | subset_location_history/subset_by_state.py:252-289 | the points come from `visit.topCandidate.placeLocation`, then `activity.start` and `activity.end`, then each `timelinePath[i].point`, then the top-level `geo:` strings |
| `ByState.StepPoints` | subset_location_history/subset_by_state.py:273-278 | the `timelinePath` loop collects the parsed `point` of each dict step, in order |
| `ByState.FieldPoints` | subset_location_history/subset_by_state.py:283-287 | the shallow loop collects the parsed top-level strings that start with `geo:` in any case |
| `ByState.CollectPoints` | subset_location_history/subset_by_state.py:250-289 | the collecting loop gives the parsed candidates in order |
| `ByState.ExtractPoints` | subset_location_history/subset_by_state.py:245-289 | `extract_points` gives `Points(obj)` |
| `ByState.FirstHit` | subset_location_history/subset_by_state.py:339-348 | the first row that matches, or none |
| `ByState.SelectState` | subset_location_history/subset_by_state.py:331-349 | an error when a column is missing; otherwise the first exact match on name or code (case-insensitive, query stripped), else the first row whose name contains the query, else "not found" |
| `ByState.BlankQuerySelectsFirstRow` | subset_location_history/subset_by_state.py:332-348 | a blank query matches every name as a substring, so it selects the first row |
| `ByState.FirstInside` | subset_location_history/subset_by_state.py:362-366 | true exactly when some point is contained, and false for no points |
| `ByState.RecordInState` | subset_location_history/subset_by_state.py:356-366 | a record with no points is never in the state; otherwise it is in exactly when some point is contained |
| `ByState.ReadRecords` | subset_location_history/subset_by_state.py:209-226 | `iter_records`: the keyed reader when a key is given, the array reader after a leading `[`, and an error before any record otherwise |
| `ByState.RecordsYieldsDicts` | subset_location_history/subset_by_state.py:209-226 | every record yielded is an object |
| `ByState.ExportLoop` | subset_location_history/subset_by_state.py:390-408 | `total` counts every record, `kept` counts the records in the state up to the limit, and the text written is `[\n` and exactly those records joined by `,\n` |
| `ByState.RunMain` | subset_location_history/subset_by_state.py:369-411 | a failed state selection ends with exit code 1 before anything is written; otherwise the export over the records read |
| `ByState.ExportWithinLimit` | subset_location_history/subset_by_state.py:396-403 | `kept` never exceeds the limit or `total` |
| `ByState.WrittenRecordsAreInState` | subset_location_history/subset_by_state.py:394-403 | every written record was read, has points, and has a point in the state |
| `ByState.ExportReadsBack` | subset_location_history/subset_by_state.py:390-408 | the written file reads back through the array reader as exactly the kept records |
| `Grid.Put` | crochetgrid/nicegui_test_port.py:132 | writing one cell keeps the shape and changes only that cell |
| `Grid.InBounds` | crochetgrid/nicegui_test_port.py:119-120 | `0 <= r < rows and 0 <= c < cols`; an empty grid has no cell in bounds |
| `Grid.PutSame` | crochetgrid/nicegui_test_port.py:131-134 | writing a cell's own value changes nothing |
| `Grid.Blank` | crochetgrid/nicegui_test_port.py:66 | a `rows` by `cols` grid of empty cells |
| `Grid.BlankUnique` | crochetgrid/nicegui_test_port.py:214 | every `rows` by `cols` grid of empty cells is the blank grid |
| `Grid.ConnectedWithout` | crochetgrid/nicegui_test_port.py:165-176 | a path through a region that leaves the region after one cell is painted passes through a neighbour of that cell |
| `UndoHistory.Undone` | crochetgrid/nicegui_test_port.py:100-107 | nothing changes on an empty undo stack; otherwise the present goes onto the redo stack and the newest undo entry becomes the present |
| `UndoHistory.Redone` | crochetgrid/nicegui_test_port.py:109-116 | nothing changes on an empty redo stack; otherwise the present goes onto the undo stack and the newest redo entry becomes the present |
| `UndoHistory.RedoAfterUndo` | crochetgrid/nicegui_test_port.py:100-116 | undo followed by redo restores the whole history |
| `UndoHistory.UndoAfterRedo` | crochetgrid/pattern.py:368-384 | redo followed by undo restores the whole history |
| `Hex.WithHash` | crochetgrid/nicegui_test_port.py:42-43 | a `#` is added exactly when the text does not start with one |
| `Hex.Doubled` | crochetgrid/nicegui_test_port.py:45 | each digit written twice, in order |
| `Hex.NormalizeLoose` | crochetgrid/nicegui_test_port.py:38-46 | always starts with `#`, is never four characters long, is lower case, and is `#000000` for blank input; otherwise it is the stripped text with a `#` added when missing, three digits widened, and lower-cased |
| `Hex.LooseKeepsOther` | crochetgrid/nicegui_test_port.py:42-46 | any stripped text other than three digits keeps its characters behind one `#` and is lower-cased, so `FF0000` becomes `#ff0000` |
| `Hex.LooseWidensShort` | crochetgrid/nicegui_test_port.py:44-45 | a three-digit colour, with or without `#`, becomes seven characters with each digit doubled and lower-cased |
| `Hex.LooseIdempotent` | crochetgrid/nicegui_test_port.py:38-46 | normalising twice is normalising once |
| `Hex.NormalizeLooseValue` | crochetgrid/nicegui_test_port.py:39 | `(s or "")` on a decoded value: false-like values give `#000000`, and other non-strings raise |
| `Hex.NormalizeStrict` | crochetgrid/pattern.py:42-50 | a colour exactly when the stripped text, with a `#` added if missing, is `#` and six hex digits; the colour is those digits upper-cased |
| `Hex.StrictAcceptsColor` | crochetgrid/image_to_crochet_json.py:31-42 | every six-digit colour is accepted with or without its `#` and comes back upper-cased |
| `Hex.StrictIdempotent` | crochetgrid/pattern.py:42-50 | a normalised colour normalises to itself |
| `Hex.CanonicalFixed` | crochetgrid/pattern.py:344 | a normalised colour is left alone by `normalize_hex(...) or "#FFFFFF"` |
| `Hex.NormalizeStrictValue` | crochetgrid/pattern.py:703 | `normalize_hex` on a decoded value: false-like values give `None`, and other non-strings raise |
| `Hex.ColorOr` | crochetgrid/pattern.py:563 | `normalize_hex(s) or fallback`, used as `or "#FFFFFF"` for the background in the editor and the converter and as `or "#000000"` for the converter's figure colour: the normalised input when it is accepted, the fallback otherwise, and a normalised colour whenever the fallback is one |
| `NiceGui.Pushed` | crochetgrid/nicegui_test_port.py:76-79 | the snapshot is appended and the oldest entry dropped past 50, so the stack never grows beyond 50 |
| `NiceGui.Ended` | crochetgrid/nicegui_test_port.py:85-94 | the pre-action snapshot is pushed and redo cleared exactly when the grid or background changed |
| `NiceGui.EndedThenUndone` | crochetgrid/nicegui_test_port.py:85-107 | undo right after a changing action brings back the state from before it |
| `NiceGui.LoadedCell` | crochetgrid/nicegui_test_port.py:222-223 | a false-like value loads as empty, a non-empty string as its normalised colour, and other values raise |
| `NiceGui.OpenCellsPut` | crochetgrid/nicegui_test_port.py:170-172 | painting a target-coloured cell removes exactly that cell from the cells still to paint |
| `NiceGui.RegionAfterPut` | crochetgrid/nicegui_test_port.py:170-172 | after one cell is painted, the target region is the old one minus that cell |
| `NiceGui.Neighbours` | crochetgrid/nicegui_test_port.py:173-176 | the four positions pushed are exactly the 4-neighbours |
| `NiceGui.ReadHeader` | crochetgrid/nicegui_test_port.py:202-210 | the checks before anything changes; a loaded background always starts with `#` |
| `NiceGui.ReadHeaderChecks` | crochetgrid/nicegui_test_port.py:202-210 | rows, columns, background and grid are checked in that order, each failing exactly when its value does not convert, and a non-list grid is rejected |
| `NiceGui.ReadHeaderDefaults` | crochetgrid/nicegui_test_port.py:202-206 | a pattern naming only its cells keeps the current size and background |
| `NiceGui.LoadCells` | crochetgrid/nicegui_test_port.py:214-223 | a blank `rows` by `cols` grid with the overlap copied and normalised, stopping at the first value that raises |
| `NiceGui.FitPushed` | crochetgrid/nicegui_test_port.py:76-79 | pushing a snapshot of the current shape keeps every saved grid the current shape |
| `NiceGui.FloodingDone` | crochetgrid/nicegui_test_port.py:166-176 | when the stack is empty every connected target cell has been painted |
| `NiceGui.FloodFill` | crochetgrid/nicegui_test_port.py:159-176 | exactly the cells 4-connected to the start through cells equal to the target become the replacement; every other cell is unchanged |
| `NiceGui.CrochetModel.constructor` | crochetgrid/nicegui_test_port.py:56-70 | a blank grid on white, painting black, in paint mode, with no history |
| `NiceGui.CrochetModel.TakeSnapshot` | crochetgrid/nicegui_test_port.py:73-74 | a snapshot of the current grid and background; in a valid editor it has the editor's shape |
| `NiceGui.CrochetModel.PushUndo` | crochetgrid/nicegui_test_port.py:76-79 | the undo stack becomes `Pushed` of the old one; nothing else changes |
| `NiceGui.CrochetModel.BeginAction` | crochetgrid/nicegui_test_port.py:81-83 | opens an action with a snapshot only when none is open |
| `NiceGui.CrochetModel.EndAction` | crochetgrid/nicegui_test_port.py:85-94 | nothing happens without an open action; otherwise the pending snapshot is cleared and the history becomes `Ended` |
| `NiceGui.CrochetModel.Restore` | crochetgrid/nicegui_test_port.py:96-98 | grid and background become the snapshot's |
| `NiceGui.CrochetModel.Undo` | crochetgrid/nicegui_test_port.py:100-107 | returns whether the undo stack was non-empty, and the history becomes `Undone` of the old one |
| `NiceGui.CrochetModel.Redo` | crochetgrid/nicegui_test_port.py:109-116 | returns whether the redo stack was non-empty, and the history becomes `Redone` of the old one |
| `NiceGui.CrochetModel.BucketFill` | crochetgrid/nicegui_test_port.py:159-176 | exactly the cells 4-connected to the start through target-coloured cells are painted; nothing else changes |
| `NiceGui.CrochetModel.ApplyToolAt` | crochetgrid/nicegui_test_port.py:125-157 | false outside the grid; paint and erase report exactly whether the cell changed; the eyedropper changes only the paint colour, and only from a non-empty cell; fill does nothing when target equals replacement and otherwise fills the connected region; other modes do nothing |
| `NiceGui.CrochetModel.LoadJsonObj` | crochetgrid/nicegui_test_port.py:198-227 | a failed check changes nothing; otherwise the size and background are set, the grid is the blank grid with the overlap loaded, and on success both stacks and the pending snapshot are cleared |
| `TkEditor.SnapOf` | crochetgrid/pattern.py:338-346 | `_snapshot`: the cells as they are, a well-formed snapshot from a well-formed grid |
| `TkEditor.SnapOfRestored` | crochetgrid/pattern.py:355-365 | restoring a snapshot and taking one again gives the same snapshot |
| `TkEditor.Newest` | crochetgrid/pattern.py:350-351 | the newest `min(n, length)` entries |
| `TkEditor.PushedKeepsNewest` | crochetgrid/pattern.py:348-353 | `_push_undo`: the snapshot is the newest undo entry, the undo stack keeps the newest 60 entries, and redo is cleared |
| `TkEditor.StrokeIsOneStep` | crochetgrid/pattern.py:391-398 | a stroke pushes one entry, and undo after it brings back the state before the stroke |
| `TkEditor.Resized` | crochetgrid/pattern.py:418-427 | the new grid is `rows` by `cols`, keeps every old cell inside the overlap, and is empty elsewhere |
| `TkEditor.Cleared` | crochetgrid/pattern.py:433-435 | every cell becomes empty |
| `TkEditor.Effective` | crochetgrid/pattern.py:562-564 | a cell shows its own colour when it has one, and the normalised background otherwise |
| `TkEditor.Stored` | crochetgrid/pattern.py:591-593 | the stored cell shows the replacement, and holds nothing but the replacement; a replacement equal to the background is stored as empty |
| `TkEditor.Pushes` | crochetgrid/pattern.py:595-602 | the positions pushed are exactly the in-grid 4-neighbours |
| `TkEditor.MatchingAfterPut` | crochetgrid/pattern.py:588-593 | painting one cell removes exactly it from the cells showing the target |
| `TkEditor.FillingDone` | crochetgrid/pattern.py:582-602 | once the stack is empty, every cell connected to the start through cells showing the target has been painted |
| `TkEditor.SeenShrinks` | crochetgrid/pattern.py:584-586 | adding a new cell to `seen` shrinks the unvisited cells, so each cell is visited at most once and the loop ends |
| `TkEditor.FillEffective` | crochetgrid/pattern.py:569-602 | comparing the colours cells show, exactly the cells connected to the start through cells showing the target are stored as the replacement (empty when it equals the background); all others are unchanged |
| `TkEditor.FillKeepsCanonical` | crochetgrid/pattern.py:593 | a fill with a normalised colour leaves only normalised colours in the grid |
| `TkEditor.DivBelow` | crochetgrid/pattern.py:511-513 | floor division by the cell size places a coordinate in its cell |
| `TkEditor.NumberingMaps` | crochetgrid/pattern.py:738-749 | one row label per row and one column label per column; their values are stated by `NumberingMapsArePermutations` |
| `TkEditor.NumberingMapsArePermutations` | crochetgrid/pattern.py:738-749 | row labels are 1..rows; column labels are 1..cols for `bottom_left` and cols..1 otherwise; both are permutations of 1..n |
| `TkEditor.AscendingIsNumbering` | crochetgrid/pattern.py:743 | `range(1, n + 1)` is a permutation of 1..n |
| `TkEditor.DescendingIsNumbering` | crochetgrid/pattern.py:748 | `range(n, 0, -1)` is a permutation of 1..n |
| `TkEditor.MotionNumbers` | crochetgrid/pattern.py:113-122 | for a cell on the grid, a row number in 1..rows and a column number in 1..cols; row 1 is exactly the bottom row |
| `TkEditor.MotionMatchesLabels` | crochetgrid/pattern.py:114-122 | the row and column numbers shown under the mouse are the labels drawn for that cell |
| `TkEditor.BackgroundField` | crochetgrid/pattern.py:703 | the loaded background is a normalised colour |
| `TkEditor.Rows` | crochetgrid/pattern.py:706 | `len(cells)` where Python defines it |
| `TkEditor.LoadHeaderChecks` | crochetgrid/pattern.py:697-707 | a non-object is rejected; versions other than 1 and 2 are rejected; the header loads exactly when the version, rows, columns, background and cells convert and the cells are `rows` lists of `cols` |
| `TkEditor.CellOf` | crochetgrid/pattern.py:713-718 | `None` loads as empty, a string as its normalised colour (empty when invalid), and other values raise unless false-like |
| `TkEditor.ConvertedRowCells` | crochetgrid/pattern.py:711-719 | a row converts exactly when each of its cells does, and holds those cells |
| `TkEditor.ConvertedRowsCells` | crochetgrid/pattern.py:709-719 | the grid converts exactly when each cell does, and holds those cells |
| `TkEditor.LoadPattern` | crochetgrid/pattern.py:689-725 | a header failure is the load's failure; past the header only a cell can fail the load; a load keeps the header's size and background |
| `TkEditor.LoadedWellFormed` | crochetgrid/pattern.py:697-725 | a loaded pattern is `rows` by `cols`, holds only normalised colours, and has a normalised background |
| `TkEditor.NormalizeCells` | crochetgrid/pattern.py:709-719 | the nested conversion loops give the converted grid, or fail at a value that raises |
| `TkEditor.CellRoundTrip` | crochetgrid/pattern.py:674 | a saved cell loads back as itself |
| `TkEditor.ToJsonObj` | crochetgrid/pattern.py:668-675 | an object whose `version` is 2, whose `rows` and `cols` are the grid's size, whose `background` is the normalised background or `#FFFFFF`, and whose `cells` are the grid |
| `TkEditor.SaveLoadRoundTrip` | crochetgrid/pattern.py:668-725 | a pattern saved by `_to_json_obj` loads back as the same size, background and cells |
| `TkEditor.CrochetGridApp.constructor` | crochetgrid/pattern.py:61-100 | a blank 32 by 29 grid on white, painting black, numbered from the bottom left, with no history |
| `TkEditor.CrochetGridApp.PushUndo` | crochetgrid/pattern.py:348-353 | the history becomes `Pushed` of the old one |
| `TkEditor.CrochetGridApp.Restore` | crochetgrid/pattern.py:355-365 | size, background and cells become the snapshot's |
| `TkEditor.CrochetGridApp.Undo` | crochetgrid/pattern.py:368-375 | nothing changes on an empty stack; otherwise the history becomes `Undone` and the popped snapshot is restored |
| `TkEditor.CrochetGridApp.Redo` | crochetgrid/pattern.py:377-384 | nothing changes on an empty stack; otherwise the history becomes `Redone` and the popped snapshot is restored |
| `TkEditor.CrochetGridApp.BeginAction` | crochetgrid/pattern.py:391-395 | one undo entry per open action |
| `TkEditor.CrochetGridApp.EndAction` | crochetgrid/pattern.py:397-398 | the action is closed and nothing else changes |
| `TkEditor.CrochetGridApp.OnNewGrid` | crochetgrid/pattern.py:410-427 | non-positive sizes change nothing; otherwise one undo entry is pushed and the grid is resized keeping the overlap |
| `TkEditor.CrochetGridApp.OnClear` | crochetgrid/pattern.py:431-435 | one undo entry is pushed and every cell becomes empty |
| `TkEditor.CrochetGridApp.BucketFill` | crochetgrid/pattern.py:569-602 | nothing changes when the target equals the replacement; otherwise the fill of `FillEffective` |
| `TkEditor.CrochetGridApp.CellFromXy` | crochetgrid/pattern.py:499-515 | a cell exactly when the point lies on the grid, and then the cell whose square contains it |
| `TkEditor.CrochetGridApp.LoadJson` | crochetgrid/pattern.py:689-734 | a rejected pattern changes nothing and reports why; an accepted one replaces size, background and cells and clears both stacks |
| `ImageToGrid.CountBelow` | crochetgrid/image_to_crochet_json.py:95 | the dark count is at most the pixel count |
| `ImageToGrid.DarkAndLightPartition` | crochetgrid/image_to_crochet_json.py:95-96 | dark and light counts add up to the pixel count |
| `ImageToGrid.CountBelowAppend` | crochetgrid/image_to_crochet_json.py:95 | counting is additive over concatenation |
| `ImageToGrid.CountBelowMonotone` | crochetgrid/image_to_crochet_json.py:95 | a higher threshold counts at least as many dark pixels |
| `ImageToGrid.InferFigureIsDark` | crochetgrid/image_to_crochet_json.py:86-98 | the figure is dark exactly when at most half of the pixels are darker than the threshold |
| `ImageToGrid.FigureIsMinority` | crochetgrid/image_to_crochet_json.py:86-98 | the figure is dark exactly when dark pixels are no more than light ones, and the figure side is never the majority |
| `ImageToGrid.InvertSwaps` | crochetgrid/image_to_crochet_json.py:164-173 | inverting negates figure status, equals choosing the other side, and a dark figure is `p < t` |
| `ImageToGrid.CheckLayout` | crochetgrid/image_to_crochet_json.py:117-122 | the layout is accepted exactly when rows ≥ 1, cols ≥ 1, header ≥ 0, footer ≥ 0 and header + footer < rows, and each error names the first failing check |
| `ImageToGrid.LayoutGrid` | crochetgrid/image_to_crochet_json.py:139-175 | a `rows` by `cols` grid whose every cell is `LayoutCell` |
| `ImageToGrid.BlankRows` | crochetgrid/image_to_crochet_json.py:146-161 | header rows, footer rows and (with odd rows only) rows whose number from the bottom is even are all empty |
| `ImageToGrid.FilledRow` | crochetgrid/image_to_crochet_json.py:164-175 | a filled cell is the figure colour exactly when its pixel is a figure, and empty otherwise |
| `ImageToGrid.LayoutWellFormed` | crochetgrid/image_to_crochet_json.py:146-175 | the grid is rectangular and holds only normalised colours |
| `ImageToGrid.FillRow` | crochetgrid/image_to_crochet_json.py:149-175 | the inner loop fills one usable row as the layout says |
| `ImageToGrid.FillCells` | crochetgrid/image_to_crochet_json.py:146-175 | the preallocated grid and the nested loops give exactly `LayoutGrid` |
| `ImageToGrid.GridObjectHeader` | crochetgrid/image_to_crochet_json.py:177-182 | the returned object's version, size, background and cells are what the Tk editor's header check reads |
| `ImageToGrid.GridObjectLoads` | crochetgrid/image_to_crochet_json.py:177-192 | the returned object loads in the Tk editor as the same size, background and laid-out cells |
| `ImageToGrid.ImageToGridJson` | crochetgrid/image_to_crochet_json.py:101-192 | the first failing layout check is the error; otherwise the pattern with version 2, the given size, the normalised background or `#FFFFFF`, the laid-out cells and the `source` record, which the Tk editor loads |

## Left out

- Files, argument parsing, progress messages, and the printed lines of both
  scripts' `main`. The input is a character sequence, the options are a
  value, and the outcome is a value.
- Both GUIs: Tk widgets, canvas drawing and redraw, the NiceGUI page with its
  JavaScript and mouse handlers, the image converter's Tk app, and PNG/PDF
  rendering and export.
- `json.loads` is the parameter `decode`. The read-back lemmas assume it
  inverts the written text on the kept records. Numbers are integers only.
- Json.Get: returns the first field with the key, while `json.loads` keeps
  the last of a repeated key. The two agree whenever `decode` yields objects
  with distinct keys, which is what `json.loads` hands out.
- `datetime.fromisoformat` is the parameter `fromIso`. Microseconds and the
  `isoformat()` text printed for the range are not modelled.
- The download of state boundaries, CRS handling and point-in-polygon are the
  parameter `contains`. Latitude and longitude stay the matched decimal
  texts, because their float values are not modelled.
- `otsu_threshold` is floating-point variance maximisation; its value is the
  parameter `otsu`.
- Pillow opening, EXIF rotation, greyscale conversion and LANCZOS resizing
  are left out. The grey levels are the sequence `gray`, and the resized
  image is the function `pixel`.
- Case mapping in `Text` (`Lower`, `Upper`) is ASCII only, where Python's
  `str.lower` and `str.upper` map every Unicode letter. White space
  (`Text.IsSpace`) is the full set `str.isspace` accepts, and the digits of
  a `geo:` point (`Text.IsDecimalDigit`) are every Unicode decimal digit of
  Unicode 15.0; a Python built on another Unicode version may differ.
- Grids and snapshots are values, so the deep copies of `copy.deepcopy` and
  `row[:]` hold by construction. Aliasing between a snapshot and the live
  grid is not modelled.
- `NiceGui.CrochetModel.BucketFill`: requires that the start cell, when it
  is in the target region, does not already hold the replacement. Without
  that the source loop never ends. `apply_tool_at`, the only caller, checks
  it first.
- `TkEditor.CrochetGridApp.BucketFill`: requires a start cell inside the
  grid and a normalised or empty `newColor` (empty stands for `None`), as
  `_apply_tool_at` guarantees. `_apply_tool_at` itself is not modelled.
- `TkEditor.CrochetGridApp.CellFromXy`: requires a positive cell size; the
  source takes it from a spin box that starts at 20.
- `TkEditor.NormalizeCells` takes the per-cell conversion as a function of
  the position, so it does not index into the decoded JSON itself.
- Json.PyInt: `int()` is modelled on integers, booleans and numeric
  strings. Floats are left out, because decoded numbers are integers here.
  `Json.ParseIntText` reads ASCII digits only, so a numeric string with
  underscores (`"1_0"`) or with non-ASCII digits, which `int()` accepts,
  fails to load in the model.
- ByState.SelectState: the partial match is a plain substring test. pandas
  `str.contains` reads the query as a regular expression, so a query such
  as `.` selects the first state in the source and is "not found" here,
  and a query that is not a valid pattern, such as `(`, raises in the
  source and is "not found" here.
- NiceGui.CrochetModel.LoadJsonObj: a load that stops at a raising cell has
  already set the new size, background and a partly filled grid, and keeps
  both undo stacks and the pending snapshot, as the source does. The
  upload handler catches the error and the editor carries on. Snapshots of
  the old size then break `Valid()`, and every method that `requires
  Valid()` (`Undo`, `Redo`, `BeginAction`, `EndAction`, `ApplyToolAt`,
  `BucketFill`) is not modelled from that state. In the source, an undo
  there restores a grid of the old size under the new size, and a later
  `apply_tool_at` can index out of range.
- `ImageToGrid.ImageToGridJson`: the `source` record's `threshold` is the
  integer threshold. The figure choice counts over `gray` rather than over
  Pillow's pixel data.
