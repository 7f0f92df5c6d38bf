# Duplicate code detection: report model and aggregation

This project is a Dafny model of the library layer (`core.py`) of a duplicate-code
detection tool. A detection run compares every pair of source files. It returns a
return code and a raw nested mapping: from each analysed file to its compared files.
For each compared file the mapping holds either a bare percentage or a record
`{"Similarity": …, "#LoC": …}`. The key `"#LoC"` is a sentinel that holds the
file's own line count. The library turns that mapping into typed reports and answers
queries over them.

The model covers:

- the report data model: `FileSimilarity` (a value), `SimilarityReport` (a class,
  because `add_similarity` and the detector update it in place) and `DetectionResult`
  (a class holding report objects);
- the queries `get_high_similarities` (an order-preserving filter, threshold
  inclusive), `get_critical_duplications` (a nested loop flattening every report's
  filtered list in report order), `is_success` and `has_duplications`;
- the `to_dict` documents, modelled as a small JSON datatype, with decoders that show
  the documents lose nothing;
- `DuplicateCodeDetector.__init__` with its defaults;
- `_process_result`, as a loop that builds one fresh report per raw item, proved
  against a specification function (`ProcessedReports`);
- the loop of `analyze_project` that turns exclude patterns into ignored directories.

Python's insertion-ordered dicts are sequences of (key, value) pairs. A raw value is
`Int(n)`, `Float(x)` or `Record(similarity?, loc?)`. Percentages are `real`: they are
only compared, never computed with. Modules: `Wrappers` (Option), `Sequences`
(filtering, subsequences), `Document` (JSON values), `Raw` (the raw run result),
`Similarity` (per-file reports), `Detection` (the run result), `Detector` (the
detector).

Some behaviours of the code that may be surprising are followed as written:

- With `show_loc` off, a `"#LoC"` key is not split off. It becomes an ordinary
  similarity whose target is `"#LoC"` (core.py:235-241).
- The line count stored on a report is whatever value was under `"#LoC"`. It is not
  checked or converted to an integer (core.py:240), so its type here is a raw
  `Value`, not an integer.
- `_process_result` applies no threshold of its own. Threshold filtering of what is
  reported happens inside the detection engine, which is not part of this model.

## Model

| member | source | states |
|---|---|---|
| `Similarity.FileSimilarity.ToDict` | core.py:34-42 | the document decodes back to the same similarity, so all five attributes are kept; the percentage is under `"similarity_percentage"` |
| `Similarity.SimilarityReport.constructor` | core.py:45-51 | a new report has the given path, similarities and line count (defaults: no similarities, no line count) |
| `Similarity.SimilarityReport.AddSimilarity` | core.py:53-55 | the new similarity is appended at the end; path and line count are unchanged |
| `Similarity.SimilarityReport.GetHighSimilarities` | core.py:57-59 | the result is a subsequence of the report's similarities and holds exactly those whose percentage is `>=` the threshold (default 30.0) |
| `Similarity.HighSimilaritiesExactly` | core.py:57-59 | the filter keeps an element iff it is present and at or above the threshold (boundary included), and never reorders |
| `Similarity.HighSimilaritiesCompositional` | core.py:57-59 | the filter distributes over concatenation and keeps a single similarity iff it reaches the threshold, which determines it completely |
| `Similarity.HighSimilaritiesMonotone` | core.py:57-59 | for low <= high, filtering at high equals filtering the low result again at high, so the high result is a subsequence of the low one |
| `Similarity.SimilarityReport.ToDict` | core.py:61-67 | the document decodes back to the report's path, line count and full similarity list |
| `Detection.DetectionResult.constructor` | core.py:70-76 | a new result holds the given return code, reports and raw data |
| `Detection.DetectionResult.IsSuccess` | core.py:78-80 | holds iff the return code is `SUCCESS`, whose value is 0 |
| `Detection.DetectionResult.HasDuplications` | core.py:82-84 | holds iff the result holds at least one report |
| `Detection.DetectionResult.GetCriticalDuplications` | core.py:86-94 | the nested appending loop returns every report's `GetHighSimilarities(threshold)` concatenated in report order (default threshold 50.0) |
| `Detection.CriticalMembers` | core.py:86-94 | a similarity is critical iff it is at or above the threshold and listed in some report |
| `Detection.CriticalMonotone` | core.py:86-94 | for low <= high, the critical list at high is the critical list at low filtered again, hence a subsequence of it |
| `Detection.DetectionResult.ToDict` | core.py:100-108 | the document holds the return code's value; `"success"` equals `IsSuccess()` and `"has_duplications"` equals `HasDuplications()`; the reports and the raw data decode back unchanged |
| `Raw.RawRoundTrip` | core.py:107 | the raw result embedded in the document decodes back to exactly the raw result: every file, target, percentage and line count, in order |
| `Detector.DuplicateCodeDetector.constructor` | core.py:118-148 | thresholds and flags are stored as given; a missing or empty extension list becomes the default list of seven extensions |
| `Detector.DuplicateCodeDetector.ProcessResult` | core.py:225-272 | the result is fresh and keeps the return code and raw data as given; its reports' values equal `ProcessedReports(showLoc, rawData)`; every report object is new and no object appears twice, so a change to one report never shows in another |
| `Detector.DuplicateCodeDetector.ProcessItem` | core.py:231-266 | one pass of the loop: the list gains the value built from the item exactly when that value has similarities, and otherwise keeps it unchanged; the existing objects stay in place, and the only addition is a new object at the end |
| `Detector.DuplicateCodeDetector.BuildReport` | core.py:231-263 | one loop iteration: a fresh report whose line count comes from the split-off sentinel and which holds one decoded similarity per remaining item, in order |
| `Detector.ReportSimilarityAt` | core.py:243-263 | the k-th similarity comes from the k-th remaining item. Its source is the report's path and line count, its target is the item's key. A record gives `"Similarity"` (0.0 if absent) and its `"#LoC"` (None if absent); a bare number gives its float value and no target line count |
| `Detector.SentinelSplitOff` | core.py:235-241 | with `show_loc` on and `"#LoC"` present, the line count is that key's value, no similarity targets `"#LoC"`, and exactly one item is dropped |
| `Detector.TargetsAreRemainingItems` | core.py:241 | the items decoded are exactly the file's items minus the split-off sentinel, in their original order |
| `Detector.SentinelKeptWithoutShowLoc` | core.py:235-241 | with `show_loc` off there is no line count and a `"#LoC"` item becomes a similarity with target `"#LoC"` |
| `Detector.NoEmptyReports` | core.py:265-266 | no report in the result has an empty similarity list |
| `Detector.ReportsInKeyOrder` | core.py:231-266 | the reports' paths form a subsequence of the raw keys: raw key order, at most one per key |
| `Detector.ReportsFromItems` | core.py:231-266 | every report is the report built from one raw item |
| `Detector.OneReportPerFile` | core.py:229-266 | since a dict's keys are distinct, no two reports share a path |
| `Detector.ReportPresence` | core.py:231-266 | a file gets a report iff it has an item left after the sentinel is split off, and that report is the one built from its items |
| `Detector.HasDuplicationsIff` | core.py:82-84 | the processed result has duplications (a non-empty report list) iff some file has an item left after the sentinel is split off |
| `Raw.WithoutKeyItems` | core.py:241 | removing the sentinel keeps exactly the other items, in order |
| `Raw.WithoutKeyLength` | core.py:241 | in a mapping with distinct keys, removing a present key drops exactly one item |
| `Detector.DuplicateCodeDetector.IgnoreDirectories` | core.py:289-297 | one directory per pattern (none when the list is absent), in order. Each ends with `/`, starts with the whole pattern and adds at most one character. A pattern that already ends with `/` is kept as is |
| `Detector.DirectoryForUnique` | core.py:294-297 | those conditions fix the directory: the pattern itself when it ends with `/`, otherwise the pattern plus one `/` |

## Left out

- The detection engine (`run`, `get_all_source_code_from_directory`, `get_loc_count`, `remove_comments_and_docstrings`, `ReturnCode`): their module `duplicate_code_detection` is not part of this model. `ProcessResult` takes the run's return code and raw result as parameters.
- `ReturnCode` is modelled by its integer value, with `SUCCESS` as 0. Its other members are not visible.
- `detect_in_directories` and `detect_in_files`: they only forward the configuration to `run` and pass its output to `_process_result`.
- The rest of `analyze_project`: after the pattern loop it only calls `detect_in_directories`.
- `to_json`: a call to the JSON library's `dumps`; the document it serialises is modelled by the `ToDict` members.
- The convenience functions `detect_duplicates_in_directories`, `detect_duplicates_in_files` and `analyze_project_duplicates`: wrappers whose only logic is `int(threshold)`.
- Logging: the module logger is never used by the modelled code.
- A per-file raw value that is not a dict. A value without `.items()` (a number, a string, a list, `None`) makes the source raise `AttributeError` at core.py:244. Another kind of mapping, such as `UserDict`, fails the `isinstance` test at core.py:237. So even with `show_loc` on, its `"#LoC"` key stays an ordinary target. Per-file values are typed as dicts here, so neither path is represented.
- Bare per-target values are typed as `Int` or `Float`. At core.py:259 `float()` also accepts a numeric string such as `"50"` or a `bool`, and other numeric types. It raises `TypeError` on `None` and `ValueError` on a non-numeric string. Only `Int` and `Float` are represented. Other inputs, whether converted or raising, are not.
- Key order inside a record: the raw result's document writes a record's `"Similarity"` before its `"#LoC"`. The run's own record may list them in another order, which the embedded `raw_data` (core.py:107) would keep; the model does not.
- Records are typed: a record holds only `"Similarity"` (a float) and `"#LoC"` (an int). Other keys, and other value types under those keys, are not represented.
- `Detector.ReportSimilarityAt`: the percentage of a record is stored as a real. Python keeps an integer `"Similarity"` as an `int` (`.get` does not convert), which `to_dict` would render as `50` rather than `50.0`; comparisons are unaffected.
- Floating point: percentages are exact reals. An integer percentage too large for a float makes `float()` raise `OverflowError` at core.py:259; the model converts every integer.
- Object identity of lists and dicts:
  - `DetectionResult.raw_data` is stored by reference in Python, so a caller's later change to that dict would show through. The model stores the value.
  - The lists passed to the `SimilarityReport` and `DetectionResult` constructors (core.py:50, core.py:75) are also kept by reference in Python. An `add_similarity` append (core.py:55) is then seen by the caller and by every report built from the same list. Here they are stored as `seq` values, so appends through `AddSimilarity` are not shared.
