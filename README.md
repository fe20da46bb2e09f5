# files-stats-analysis-tool in Dafny

A verified model of the two reporting scripts of files-stats-analysis-tool.

- `create_file_summary.py` walks a directory and groups the files it finds by
  extension (`scan_directory`). It then turns each group into one summary
  row (`get_summary_data`): the file count, the total and average size, the
  share of files below or at or above fixed size thresholds, the share
  accessed, modified and created within 1, 3, 7, 30, 90, 180 and 365 days,
  and the share owned by the current user and by root. Every threshold
  share comes from `percentage_of_files`.
- `filter_files.py` walks a directory (`scan_files`) and tests each file
  against a JSON rule set (`passes_conditions`). The rules are inclusive
  size bounds, a case-insensitive extension allowlist, six "within" and
  "not within N days" time windows, and an ownership selector, combined
  with `all` or `any`. The script keeps a report row for each file that
  passes (the loop of `main`).

The project has three modules:

- `records.dfy` (`Records`) holds what both scripts share: the `stat`
  record, the abstract walk, mebibyte sizes, POSIX `os.path.join`,
  `os.path.basename`, the extension of `os.path.splitext`, and ASCII
  `str.lower`.
- `file_summary.dfy` (`FileSummary`) models the summary script.
  - `ScanDirectory` and `GetSummaryData` are loops, as in the source. Each is
    proved against a specification function: `ScanSpec` and `RowOf`.
  - `percentage_of_files` is the pure function `PercentageOfFiles`.
- `filter_files.dfy` (`FilterFiles`) models the filter script.
  - `PassesConditions` builds its list of booleans step by step, as the
    source does. It is proved equal to `Matches`, a reference definition
    over the list of active `Condition`s.
  - `ScanFiles` and `SelectMatches` are loops proved against the folds
    `ScannedFiles` and `MatchRows`.

The file system is abstracted. A walk is a sequence of `Entry` values, one
per file name `os.walk` lists, in walk order. Each entry gives the directory
names between the root and the file, the file's base name, whether the file
is a broken symbolic link, and the outcome of `stat` (a `Stat` or an error).
A directory is pruned when it or any directory above it is excluded
(`Pruned`). The clock (`time.time()`) and the current user id
(`os.getuid()`) are parameters. A missing `SCAN_PATH` is the empty string,
and `os.path.isdir` is a boolean parameter.

Sizes are exact: `SizeMb(bytes) = bytes / 1048576` as a Dafny `real`, and
percentages are exact reals. Timestamps are whole seconds.

The two scripts disagree about exclusion and about `stat` errors, and the
model keeps both behaviours:

- The summary excludes a name that ends with any excluded extension
  (`endswith`). The filter excludes only an exact extension match
  (`ExactExclusionImpliesEndsWith` relates the two).
- The summary catches only `FileNotFoundError`. Any other `stat` error ends
  the script, which the model reports as a `Failure` naming the file. The
  filter skips every `OSError`.

## Model

| member | source | states |
|---|---|---|
| Records.SizeMb | create_file_summary.py:14-15 | `file_size_mb` (the same in filter_files.py:31-32): bytes divided by 1024 * 1024, as an exact real. |
| Records.SizeMbCompare | create_file_summary.py:14-15 | Size in MB is bytes / 1048576. With whole bytes, "at least t MB" holds exactly when bytes >= t * 1048576, and "at most" likewise. Sizes are never negative. |
| Records.Ext | create_file_summary.py:31 | The extension `splitext` gives is either empty, or a suffix of the name that starts with '.' and holds no other '.', with some non-dot character before it. |
| Records.DotFileHasNoExt | create_file_summary.py:31 | A name made of a leading '.' and no other dot (".bashrc") has no extension. |
| Records.ExtOfDotted | create_file_summary.py:31 | A stem with a non-dot character, a '.', and a dot-free suffix gives exactly "." + suffix. |
| Records.ExactExclusionImpliesEndsWith | filter_files.py:47-49 | A name whose extension is exactly an excluded one also ends with an excluded extension, so the filter's exclusion never drops a file the summary keeps. |
| Records.JoinPath | filter_files.py:50 | `os.path.join` on POSIX: an absolute second part replaces the first, and otherwise a '/' is inserted unless the first part is empty or already ends with '/'. |
| Records.DirPath | create_file_summary.py:19 | The `root` that `os.walk` reports after descending through the listed directories, joined one at a time. |
| Records.FullPath | create_file_summary.py:24 | `os.path.join(root, name)`, as both scripts build the full path of a listed name. |
| Records.Basename | filter_files.py:64 | The base name holds no '/' and is a suffix of the path. |
| Records.BasenameOfJoin | filter_files.py:50 | Joining a '/'-free name onto any directory gives that name back as the base name. |
| Records.PathExtOfFullPath | filter_files.py:64 | The extension the filter takes from the full path equals the extension of the listed name. |
| Records.Lower | filter_files.py:64 | Lower-casing keeps the length and maps each character through ASCII `lower`. |
| Records.LowerFacts | filter_files.py:75 | A lower-cased string has no upper-case letter. Lower-casing is idempotent and leaves every other character alone. |
| Records.LowerAppend | filter_files.py:75 | Lower-casing distributes over concatenation. |
| FileSummary.VisitOf | create_file_summary.py:20-31 | What `scan_directory` does with one listed name: skip it in a pruned directory, when it ends with an excluded extension, when it is a broken link, or when `stat` raises `FileNotFoundError`. Any other `stat` error aborts the scan with the file's path. Otherwise keep it under the extension of its name. |
| FileSummary.FileDataOf | create_file_summary.py:32-39 | The per-file record: size in MB, the three timestamps, and whether the owner is the current user and whether it is root. |
| FileSummary.Append | create_file_summary.py:40 | `summary[extension].append(file_data)` on a `defaultdict(list)`: extend an existing group, or create the group with this one file and list its key last. |
| FileSummary.AppendWellFormed | create_file_summary.py:40 | Appending to a `defaultdict(list)` keeps every key listed once and no group empty. The key set grows by the extension only. |
| FileSummary.AppendKeepsGroups | create_file_summary.py:40 | After appending a kept file, each group holds exactly the kept files of its extension, in walk order, and only extensions with kept files are keys. |
| FileSummary.AppendKeepsCount | create_file_summary.py:40 | After appending a kept file, the group sizes still add up to the number of kept files. |
| FileSummary.AppendKeeps | create_file_summary.py:40 | One append step preserves the whole scan invariant `Summarises`. |
| FileSummary.ScanSpecFacts | create_file_summary.py:17-41 | The scan fails exactly when some listed file's `stat` raises an error other than "not found". Otherwise every kept file is in the group of its extension and in no other. No group is empty, and the group sizes add up to the number of kept files. |
| FileSummary.ScanSpecFails | create_file_summary.py:27-30 | The scan fails if and only if some listed, non-skipped file's `stat` raises an error other than `FileNotFoundError`. |
| FileSummary.ScanSpecSummarises | create_file_summary.py:17-41 | A successful scan's grouping holds exactly the kept files of each extension, keys each extension once, has no empty group, and its group sizes add up to the number of kept files. |
| FileSummary.ScanDirectory | create_file_summary.py:17-41 | The loop builds exactly the grouping `ScanSpec` describes, and so satisfies `ScanSpecFacts`. |
| FileSummary.AbortSticks | create_file_summary.py:27-30 | The first file whose `stat` raises an uncaught error decides the outcome, whatever follows it. |
| FileSummary.SkippedFileInvisible | create_file_summary.py:22-26 | A name ending with an excluded extension, or a broken link, anywhere in the walk, leaves the result exactly as if it were not listed. |
| FileSummary.MatchingValues | create_file_summary.py:96-99 | The values in `matches` are exactly the values below, or at or above, the threshold, and the list is never longer than the input. How many copies it holds is stated by `MatchingValuesMultiplicity`. |
| FileSummary.MatchingValuesMultiplicity | create_file_summary.py:96-99 | `matches` keeps every copy of a value that meets the test and no copy of one that does not, so `len(matches)` counts duplicates exactly as the source does. |
| FileSummary.MatchingPartition | create_file_summary.py:95-100 | For one threshold, the `<` count and the `>=` count add up to the number of values. |
| FileSummary.BelowCountMonotone | create_file_summary.py:97 | Raising the threshold never lowers the `<` count. |
| FileSummary.AtLeastCountAntitone | create_file_summary.py:99 | Raising the threshold never raises the `>=` count. |
| FileSummary.Percent | create_file_summary.py:100 | count / total * 100 is at least 0, at most 100 when count <= total, exactly 100 iff count == total, and exactly 0 iff count == 0. |
| FileSummary.PercentMonotone | create_file_summary.py:100 | A larger count gives a larger or equal percentage of the same total. |
| FileSummary.PercentComplement | create_file_summary.py:100 | Two counts that add up to the total give percentages that add up to 100. |
| FileSummary.PercentageOfFiles | create_file_summary.py:95-100 | On a non-empty list the percentage lies in [0, 100]. |
| FileSummary.PercentagesComplement | create_file_summary.py:62-63 | percent_above_1_mb + percent_below_1_mb_each = 100, and likewise for any threshold. A value equal to the threshold is never in the "below" list, and it is in the "at or above" list whenever it occurs, so a file of exactly 1 MB counts only as "above". |
| FileSummary.BelowPercentMonotone | create_file_summary.py:63-66 | The "below" percentages grow with the threshold: below 1 <= below 5 <= below 100 <= below 500. |
| FileSummary.AtLeastPercentAntitone | create_file_summary.py:68-88 | An earlier cutoff never lowers the "at or after" percentage, which is what nests the recency windows. |
| FileSummary.OwnershipCountsBounded | create_file_summary.py:54-55 | Neither ownership count exceeds the group size. |
| FileSummary.RecencyNested | create_file_summary.py:68-88 | With one fixed `now`, the seven recency percentages of a timestamp column lie in [0, 100] and grow with the window: 1 day <= 3 <= 7 <= 30 <= 90 <= 180 <= 365. |
| FileSummary.RowOf | create_file_summary.py:43-91 | The row for one group: extension, count, total size, average size, the six size-threshold percentages, seven recency percentages for each timestamp kind, and the two ownership percentages, in the source's column order. The median column is not modelled. |
| FileSummary.RowOfConsistent | create_file_summary.py:43-91 | Every row has a positive count. Its complementary size columns add up to 100, and percent >= 500 MB = 100 - percent below 500 MB. The below columns are monotone, the recency columns are nested, and both ownership percentages lie in [0, 100]. |
| FileSummary.GetSummaryData | create_file_summary.py:43-93 | The loop gives exactly one row per group, in dictionary order. Each row is that group's row and is consistent. |
| FileSummary.SumTotalsIsSumLens | create_file_summary.py:46 | The file counts of the rows add up to the sum of the group sizes. |
| FileSummary.RowsDescribeKept | create_file_summary.py:150-151 | Rows built one per group of a successful scan describe the kept files. Each row is `RowOf` its extension's kept files, which are never empty, and every extension with a kept file has a row. |
| FileSummary.TwoFileScenario | create_file_summary.py:43-91 | A 2 MB file modified now and a 0.5 MB file modified 40 days ago give a row with 2 files, 2.5 MB in total and 1.25 MB on average. 50% are at or above 1 MB, 50% are below, and 50% were modified within 30 days. |
| FileSummary.Summarize | create_file_summary.py:145-151 | An unset scan path fails with the source's message. Otherwise the script fails exactly when some `stat` raises an uncaught error. On success, every row is `RowOf` the kept files of its extension and is consistent. Every extension with a kept file has a row, no extension repeats, and the counts add up to the number of kept files. |
| FilterFiles.FileExt | filter_files.py:64 | The key a file is matched on: the extension of its full path, lower-cased. |
| FilterFiles.NormalizeExt | filter_files.py:75 | An allowlist entry lower-cased, with a '.' put in front when it does not start with one. |
| FilterFiles.Holds | filter_files.py:68-101 | Each check: size >= min and size <= max in MB, key in the normalised allowlist, timestamp >= now - N * 86400 for "within" and < for "not within", and uid equal to the current uid or to 0. |
| FilterFiles.ChecksOfEvaluates | filter_files.py:61-101 | The list `passes_conditions` builds holds the value of each active condition, in the order the keys are visited. |
| FilterFiles.CombineEvaluate | filter_files.py:107 | `all` of the values says every condition holds, and `any` says some condition holds. |
| FilterFiles.MatchesByChecks | filter_files.py:103-107 | The reference verdict `Matches` is: no check means reject; otherwise `all(checks)` under logic "all" or absent, and `any(checks)` under any other logic value. |
| FilterFiles.NoActiveKeyIffNoCondition | filter_files.py:68-101 | No condition is switched on exactly when every optional key is absent, the allowlist is absent or empty, and `owned_by` is neither "current" nor "root". |
| FilterFiles.PassesConditions | filter_files.py:61-107 | The method's verdict is `Matches`: the conjunction or disjunction of the active checks. With no active key, every file is rejected. |
| FilterFiles.SizeBoundsInclusive | filter_files.py:68-71 | min_size_mb means size >= min and max_size_mb means size <= max, both as byte thresholds. A file of exactly t MB passes both bounds of t. |
| FilterFiles.NormalizeExtShape | filter_files.py:75 | A normalised allowlist entry starts with '.' and has no upper-case letter. |
| FilterFiles.NormalizeExtIgnoresCase | filter_files.py:75 | Entries that differ only in letter case normalise alike. |
| FilterFiles.NormalizeExtDotOptional | filter_files.py:75 | "txt" and ".txt" normalise alike. |
| FilterFiles.AllowlistMatch | filter_files.py:74-76 | The lower-cased extension passes exactly when some entry normalises to it. Only a non-empty, lower-case key that starts with '.' can pass, so a file without an extension never passes. |
| FilterFiles.WithinWindows | filter_files.py:79-94 | For one timestamp, N and `now`, exactly one of "within N days" (>=) and "not within N days" (<) holds. Being within N days implies being within any longer window. |
| FilterFiles.OwnedByAlone | filter_files.py:97-101 | An `owned_by` value other than "current" and "root" adds no check, so on its own it rejects every file. "root" alone selects uid 0, and "current" alone selects the current user. |
| FilterFiles.ExtendsKeepsConditions | filter_files.py:61-101 | Setting more keys, and keeping the values of those already set, only adds active conditions. |
| FilterFiles.AllMonotone | filter_files.py:107 | Under "all", with at least one check on, switching more checks on never turns a rejected file into a match. |
| FilterFiles.AnyMonotone | filter_files.py:107 | Under "any", switching more checks on never turns a match into a rejection. |
| FilterFiles.EmptyConfigIsNotMonotone | filter_files.py:103-107 | The "at least one check" premise of `AllMonotone` is needed. The empty configuration rejects every file, but adding `min_size_mb: 0` to it accepts every file. |
| FilterFiles.FoundOf | filter_files.py:44-58 | What `scan_files` yields for one listed name: nothing in a pruned directory, when its extension is exactly an excluded one, when it is a broken link, or when `stat` raises any OS error. Otherwise its full path with its `stat` result. |
| FilterFiles.ScanFiles | filter_files.py:42-58 | The loop yields exactly `ScannedFiles`: the full path and `stat` result of each listed name that is not pruned, not excluded by extension, not a broken link and readable, in walk order. |
| FilterFiles.ScannedFilesMembers | filter_files.py:42-58 | A file is yielded if and only if some listed name passes all four tests and the file is that name's full path with its `stat` result. |
| FilterFiles.NoExcludedFileYielded | filter_files.py:47-53 | No yielded path has an extension in EXCLUDE_EXTENSIONS, and none is a broken link. |
| FilterFiles.ScannedFilesAppend | filter_files.py:42-58 | The walk keeps no state between names: scanning two parts of a walk one after the other yields what scanning the whole walk yields. |
| FilterFiles.MatchRowOf | filter_files.py:141-151 | The report row of a matching file: path, extension of the full path (not lower-cased), size in MB, the three timestamps, and 1 or 0 for ownership by the current user and by root. |
| FilterFiles.SelectMatches | filter_files.py:138-152 | The loop of `main` keeps exactly `MatchRows`: one row per file that passes, in scan order. |
| FilterFiles.MatchRowsBounded | filter_files.py:138-152 | There are never more rows than files found. |
| FilterFiles.MatchRowsSound | filter_files.py:139-141 | Every row is the row of a found file that passes. |
| FilterFiles.MatchRowsComplete | filter_files.py:139-141 | Every found file that passes has its row reported. |
| FilterFiles.NoActiveKeyReportsNothing | filter_files.py:103-105 | A configuration with no active key reports no file, whatever the tree holds. |
| FilterFiles.MinSizeScenario | filter_files.py:68-69 | With min_size_mb 1 and logic "all", a 2 MB file and a 0.5 MB file give exactly one row, the 2 MB file's. |
| FilterFiles.FilterMain | filter_files.py:131-155 | An unset scan path fails with "No scan path provided in .env (SCAN_PATH).". A path that is not a directory fails with "Path does not exist or is not a directory: " followed by the path. Otherwise the result is the rows of the matching scanned files. |

## Left out

- Walking the tree (`os.walk`), `os.path.islink` / `os.path.exists` and `os.stat` are inputs: the walk is a sequence of entries, each already carrying its broken-link flag and its `stat` outcome. The in-place pruning of `dirs[:]` becomes the `Pruned` test on the directories above each file.
- `stat` versus `lstat`: the summary follows symbolic links and the filter does not (`follow_symlinks=False`). Each entry carries one `stat` result, so the model does not tell them apart for a link whose target exists.
- The order in which `os.walk` lists files is whatever order the entry sequence has.
- `time.time()` is one `now` parameter. The summary re-reads the clock for every column and the filter re-reads it for every file; that drift is wall-clock behaviour and is not modelled.
- `round(..., 2)` on the averages and percentages, the median column (`statistics.median`), and floating-point arithmetic: sizes, averages and percentages are exact reals.
- `iso` (`datetime.fromtimestamp(...).isoformat`) depends on the locale and time zone. Report rows keep the epoch seconds.
- CSV writing (`write_to_csv`, `write_matches_csv`), JSON loading of the rule file, `load_dotenv`, the `tqdm` progress bars and the final `print` are I/O. A missing python-dotenv package leaves `load_dotenv` as `None` in filter_files.py, and calling it then raises `TypeError`. That path is not modelled.
- Rule files with values of the wrong type (a string for `min_size_mb`, a single string for `ext`) make Python raise `TypeError` or iterate over characters. The model types every key.
- `str.lower` is modelled on ASCII letters only; Unicode case mapping is not modelled.
- The `getattr(st, "st_uid", -1)` and `getattr(os, "getuid", ...)` fallbacks for platforms without user ids are not modelled: every `stat` has a uid and the current uid is given.
- `Records.Ext` models `os.path.splitext` on the POSIX path module.
