# nginx log analyser, modelled in Dafny

The analyser finds the newest nginx access log in a directory (`nginx-access-ui.log-YYYYMMDD`,
optionally gzipped) and parses it line by line into `Log` records. It aggregates request
durations per URL into `UrlStat` records, computes the sum, mean, maximum, minimum, median and
the two percentages of every URL, and writes `report_YYYY.MM.DD.html` with one row per URL. The
rows are sorted by total time, largest first.

The model follows the program's modules:

- `Builtins.dfy`: the Python built-ins the core relies on, stated for the inputs it gives them:
  `str.isspace`, `str.strip`, `str.split()`, `int()` and `float()` on field text, `sum`, `max`,
  `min`, `sorted` (ascending, and descending by a key) and `statistics.median`.
- `ParseUtils.dfy`: `LOG_PATTERN` and `parse_log`.
  - The pattern is data: thirteen groups, each a character-class run or a delimited lazy field.
  - It is read by a deterministic left-to-right scanner, and described a second time as a
    grammar (`Decomposes`/`Render`). The two are proved to agree in both directions, and a line
    has at most one reading.
  - `Log.__init__` is the function `BuildLog`. It splits the request into method, url and
    protocol, converts `status`, `bytesize` and `duration`, and turns an unparseable date into
    `None`.
  - The result of `parse_log` is a record, "no match", or the `ValueError` a conversion lets
    escape.
- `Utils.dfy`: `BaseToDict._to_dict` and `to_dict` over a small value datatype. Rounding to 3
  places and `datetime.timestamp()` are parameters.
- `UrlStats.dfy`: the `UrlStat` dataclass.
  - It is a class whose fields are updated in place. `AppendTime` is the `times` list grown
    through the property.
  - `ComputeValues` is `compute_values`, specified by the value-level function `Compute`.
    `Compute` also says which fields were already assigned when a division by zero interrupts
    the method.
- `App.dfy`: the `App` class.
  - `GetLastLogPath` is a loop over the directory listing, proved equal to the fold `Select`.
    The newest candidate is characterised by `NewestAt`.
  - `Aggregate`/`Line`/`StatFor`/`Count` are the loop of `run`: unmatched lines skipped,
    `ValueError` escaping, the break after 1000 records. They are proved against the
    value-level `Consume`.
  - `ComputeStats`/`ComputeOne` are the loop over `urls_statistics.values()`, proved against
    `ComputeAll`.
  - `SaveReport` gives the report name and its sorted rows; `Run` gives the whole run.
  - The invariants of the loop (counts, totals, keys) and the percentages summing to 100 are
    proved on the value-level state `Agg`.

The directory listing is a sequence of `DirEntry(name, isFile)`. The chosen file's lines are a
function `contents` of its name. `datetime.strptime` of the log-line date is a parameter
`parseDate`. The written report is the value `Written(dir, name, rows)`.

Where the code and its tests disagree, the code is modelled:
- `tests/app_test.py` calls `get_report_path`, `check_report_exists` and a two-argument
  `save_report`, none of which exist in `src/app.py`.
- `tests/parse_utils_test.py:17-41` expects an exception for four lines. `parse_log` raises for
  none of them. It returns `None` for the empty line (17-21) and the line without a date (27-31),
  and a record for the line with a bad timezone and the line with a one-word request (32-41).

## Model

| member | source | states |
|---|---|---|
| ParseUtils.TakeContent | src/parse_utils.py:9-17 | a delimited field read by the scanner is the text up to the first closing delimiter followed by whitespace; that text has no newline, and whitespace follows the closer |
| ParseUtils.TakeToken | src/parse_utils.py:6-18 | a group read at the start of the text fits its class or delimiters, the text is the group followed by the rest, and the group cannot be extended (`[\d\.]+`, `\d+`, `\S+` are greedy) |
| ParseUtils.Scan | src/parse_utils.py:5-19 | `LOG_PATTERN.match`: the groups, separators and rest of the line, read left to right; its soundness and completeness are `ScanSound` and `ScanComplete` |
| ParseUtils.ScanSound | src/parse_utils.py:5-19 | every match the scanner reports is a reading of the line as LOG_PATTERN: groups that fit their classes, whitespace separators, and the rest of the line after the duration |
| ParseUtils.ScanComplete | src/parse_utils.py:5-19 | under the first-closer reading of the lazy fields, every reading of a line as LOG_PATTERN is the one the scanner finds |
| ParseUtils.DecompositionUnique | src/parse_utils.py:5-19 | under the first-closer reading of the lazy fields, a line matches the pattern in at most one way |
| ParseUtils.LogPatternValid | src/parse_utils.py:5-19 | the pattern has thirteen groups and no delimiter is whitespace |
| ParseUtils.RequestFields | src/parse_utils.py:43-53 | the request unpacked into method, url and protocol; stated by `RequestFieldsSplit` and `RequestFieldsRoundTrip` |
| ParseUtils.BuildLog | src/parse_utils.py:41-72 | `Log(**groups)`: the request split, `status` and `bytesize` through `int()`, `duration` through `float()`, the date through the date parser; stated by `BuildLogFields` |
| ParseUtils.ParseLog | src/parse_utils.py:75-84 | `parse_log`: no match, a record, or an escaping ValueError; stated by the `ParseLog…` lemmas below |
| ParseUtils.ParseLogNoMatchOfScan | src/parse_utils.py:75-78 | `parse_log` returns `None` exactly when the scanner finds no match |
| ParseUtils.ParseLogNoMatchIff | src/parse_utils.py:75-78 | under the first-closer reading of the lazy fields, `parse_log` returns `None` exactly when no prefix of the line matches the pattern |
| ParseUtils.ParseLogIgnoresRest | src/parse_utils.py:75-84 | only the captured groups decide the result: any text after the duration is ignored (`match` anchors only at the start) |
| ParseUtils.ParseLogFields | src/parse_utils.py:41-84 | a matched line gives a record whose text fields are the captured groups verbatim, whose `ip` holds only digits and dots, whose `status` is its digits' value, and which fails with ValueError exactly when `status` has more than 4300 digits or `bytesize` or `duration` does not convert |
| ParseUtils.ParseLogRejectsDots | src/parse_utils.py:62-84 | a matched line whose duration has two or more decimal points makes `parse_log` raise ValueError rather than return `None` |
| ParseUtils.BuildLogFields | src/parse_utils.py:41-72 | the same facts about `Log(**groups)` for any groups whose `ip` and `status` fit their classes |
| ParseUtils.DateNeverRejects | src/parse_utils.py:64-68 | whether a line yields a record does not depend on the date parser; an unparseable date only makes `date` `None` |
| ParseUtils.RequestFieldsSplit | src/parse_utils.py:43-54 | exactly three whitespace-separated words become method, url and protocol in order, and those words hold all non-space characters of the request; any other number gives no method or protocol and the whole request as url |
| ParseUtils.RequestFieldsRoundTrip | src/parse_utils.py:44-53 | a request written `METHOD URL PROTOCOL` gives back those three words |
| Builtins.SplitWs | src/parse_utils.py:44 | `str.split()`: every word is non-empty and holds no whitespace |
| Builtins.SplitWsJoinSpace | src/parse_utils.py:44 | `str.split()` undoes joining non-empty, space-free words with single spaces |
| Builtins.SplitWsKeepsNonSpace | src/parse_utils.py:44 | `str.split()` loses only whitespace |
| Builtins.PyInt | src/parse_utils.py:58-61 | `int()` in base 10 with its 4300-digit limit; stated by `PyIntOfDigits` and `PyIntRejectsDash` |
| Builtins.PyIntOfDigits | src/parse_utils.py:58-59 | `int()` of a run of digits is the number they denote when there are at most 4300 of them, and ValueError beyond that, so `status` converts exactly when it is at most 4300 digits long |
| Builtins.PyIntRejectsDash | src/parse_utils.py:60-61 | `int("-")` raises ValueError, so a `-` in the bytesize field makes `parse_log` raise |
| Builtins.DurationFloat | src/parse_utils.py:62-63 | a duration that converts is never negative |
| Builtins.DurationFloatOfParts | src/parse_utils.py:62-63 | `float("w.f")` is exactly `w + f / 10^len(f)`, also when `w` or `f` is empty (`.5`, `5.`) |
| Builtins.DurationFloatConverts | src/parse_utils.py:62-63 | a run of digits and dots converts exactly when it has at most one decimal point and at least one digit, so every multi-dot duration such as `1.2.3` raises ValueError |
| Builtins.DurationFloatOfDigits | src/parse_utils.py:62-63 | `float("12")` without a decimal point is the integer the digits denote |
| UrlStats.UrlStat.constructor | src/url_stat.py:8-19 | a new stat has the dataclass defaults: the url, count 0, no durations, every derived field 0 |
| UrlStats.UrlStat.AppendTime | src/url_stat.py:31-33 | appending through `times` grows the stat's own durations by the new value and changes nothing else |
| UrlStats.UrlStat.AssignSummary | src/url_stat.py:23-26 | the mean, maximum, minimum and median assignments store exactly those statistics of the durations |
| UrlStats.UrlStat.ComputeValues | src/url_stat.py:21-29 | the new state and the exception are those of `Compute`: fields assigned in source order, with a division by zero stopping the method part-way |
| UrlStats.Compute | src/url_stat.py:21-29 | `compute_values` on a value: new fields and exception; stated by `ComputeRaises`, `ComputeKeeps`, `ComputeSummary` and `ComputePercentages` |
| UrlStats.ComputeRaises | src/url_stat.py:21-29 | `compute_values` raises exactly when there are no durations or a total is zero, and always ZeroDivisionError |
| UrlStats.ComputeKeeps | src/url_stat.py:21-29 | url, count and durations are unchanged; only derived fields are written |
| UrlStats.ComputeSummary | src/url_stat.py:22-26 | `time_sum` is the sum, `time_avg` the sum over the count, max and min are among the durations and bound them all, and `min <= avg <= max` and `min <= med <= max` |
| UrlStats.ComputePercentages | src/url_stat.py:28-29 | without an exception, `count_perc` is `count / count_total * 100` and `time_perc` is `time_sum / time_total * 100` |
| UrlStats.RowKeys | src/utils.py:19-20 | a serialised stat has exactly the public field names as keys, with no `_times` or `_time_min` |
| UrlStats.RowTimeSum | src/app.py:107 | a row's `time_sum` is the stat's time sum rounded to 3 places |
| Builtins.Sum | src/url_stat.py:22 | `sum`: left to right from 0; bounded by `SumWithin` |
| Builtins.Median | src/url_stat.py:26 | `statistics.median`: the middle of the sorted values, or the mean of the two middle ones; bounded by `MedianWithin` and `MedianBetween` |
| Builtins.Max | src/url_stat.py:24 | `max` returns one of the durations, at least as large as every other |
| Builtins.Min | src/url_stat.py:25 | `min` returns one of the durations, at most as large as every other |
| Builtins.SortAsc | src/url_stat.py:26 | the sorted durations are ascending and a permutation of the input |
| Builtins.MeanWithin | src/url_stat.py:23-25 | the mean lies between the minimum and the maximum |
| Builtins.MedianWithin | src/url_stat.py:24-26 | the median lies between the minimum and the maximum |
| Builtins.MedianBetween | src/url_stat.py:26 | the median lies within any bounds of all durations |
| Builtins.SumWithin | src/url_stat.py:22 | a sum of n values within [lo, hi] lies within [n*lo, n*hi] |
| Builtins.SortDesc | src/app.py:107 | `sorted(..., reverse=True)` is non-increasing in the key and a permutation of its input |
| Utils.ToDictValue | src/utils.py:7-17 | `_to_dict` on one value; its cases are stated by `SerialisedAttribute`, `DeepAgreesWithShallow` and `ListToDict` |
| Utils.ToDict | src/utils.py:19-20 | `to_dict`: never more entries than attributes; its keys and values are stated by `ToDictNames` and `ToDictLookup` |
| Utils.ToDictNames | src/utils.py:19-20 | the output's keys are the attribute names not starting with `_`, in attribute order |
| Utils.VisibleNames | src/utils.py:20 | a name is kept exactly when it is an attribute name that does not start with `_` |
| Utils.PrivateIrrelevant | src/utils.py:20 | attributes starting with `_` never influence the output |
| Utils.ToDictLookup | src/utils.py:7-20 | a public attribute is found in the output under its name, serialised by `_to_dict`, and a missing one is not |
| Utils.SerialisedAttribute | src/utils.py:7-17 | a float is rounded, a datetime becomes its timestamp, a nested object its own dict when deep and `None` when shallow, a list likewise, and anything else passes unchanged |
| Utils.DeepAgreesWithShallow | src/utils.py:7-17 | the `deep` flag changes only object- and list-valued attributes, which are `None` when shallow |
| Utils.ListToDict | src/utils.py:12-13 | in deep mode each list element with `to_dict` is serialised and every other element is kept as is, unrounded |
| App.LogNameDigits | src/app.py:83-88 | a match yields eight ASCII digits |
| App.LogNameDigitsIff | src/app.py:80-88 | a name matches exactly when it is `nginx-access-ui.log-`, eight digits, an optional `.gz` and an optional final newline (`$`), and the group is those digits |
| App.ParseYmd | src/app.py:90 | a date `strptime("%Y%m%d")` accepts is a valid Gregorian date in years 1 to 9999 |
| App.Later | src/app.py:91 | `log_date > last_log_date` on calendar dates; a strict total order by `LaterOrder` |
| App.LaterOrder | src/app.py:91 | the date comparison is a strict total order |
| App.Step | src/app.py:81-93 | one iteration keeps the selected date valid |
| App.Select | src/app.py:76-95 | a selected date is always a valid date |
| App.SelectNotFound | src/app.py:76-95 | `(None, None)` exactly when no entry is a regular file with a matching name |
| App.SelectInvalid | src/app.py:88-90 | ValueError exactly when some candidate's digits are not a calendar date |
| App.SelectFound | src/app.py:91-93 | the selected file carries the greatest date; every earlier candidate is strictly older and no later one is newer, so on equal dates the first one iterated wins |
| App.NewestUnique | src/app.py:91-93 | at most one entry is the newest in that sense |
| App.SelectFoundIff | src/app.py:76-95 | the selection is `(path, date)` exactly when that entry is the newest |
| App.App.GetLastLogPath | src/app.py:76-95 | the loop returns what `Select` gives for the listing |
| App.App.constructor | src/app.py:55-73 | a new App has zero totals, no stats and the two directories |
| App.Add | src/app.py:126-133 | one record: `Touch` then `Bump`; kept well formed by `AddWellFormed` |
| App.Feed | src/app.py:120-137 | one line of the loop of `run`: new state, exception and break flag; stated by `FeedCount` and `FeedWellFormed` |
| App.Consume | src/app.py:119-137 | the loop of `run` over the lines; stated by `ConsumeFeed`, `ConsumeWellFormed`, `ConsumeSkips` and `ConsumeCutoff` |
| App.Touch | src/app.py:126-127 | after the lookup-or-create the url has a stat |
| App.Bump | src/app.py:130-133 | `count += 1`, the duration appended and both totals increased; kept well formed, after `Touch`, by `AddWellFormed` |
| App.AddWellFormed | src/app.py:126-133 | one record keeps the keys, counts and totals consistent |
| App.ConsumeFeed | src/app.py:119-137 | the loop stops at a line that raises or breaks, and otherwise goes on with the next line from the new state |
| App.FeedWellFormed | src/app.py:120-137 | one line of the loop keeps the keys, counts and totals consistent |
| App.ConsumeWellFormed | src/app.py:119-137 | the whole loop keeps: each stat stored under its own url once, `count` equal to its number of durations, counts summing to `count_total`, durations summing to `time_total` |
| App.ConsumeSkips | src/app.py:120-124 | a line `parse_log` does not match changes neither the map nor the totals |
| App.ConsumeCutoff | src/app.py:136-137 | the loop aggregates at most 1001 records in total from an empty state, and never decreases the count |
| App.FeedCount | src/app.py:126-137 | one line adds at most one record to `count_total`, and the loop breaks exactly when that record takes it past 1000 |
| App.InitialWellFormed | src/app.py:70-73 | a new App is well formed |
| App.App.StatFor | src/app.py:126-129 | the stat of the url is looked up or created, inserted at the end of the insertion order |
| App.App.Count | src/app.py:130-133 | `count += 1`, the duration appended, both totals increased |
| App.App.Line | src/app.py:120-137 | one iteration: skip, raise or record, and whether to break |
| App.App.Aggregate | src/app.py:119-137 | the loop's final state and exception are those of `Consume` |
| App.ComputeAll | src/app.py:139-140 | `compute_values` on every stat in insertion order, stopping at the first exception; stated by the `ComputeAll…` lemmas below |
| App.ComputeAllKeeps | src/app.py:139-140 | computing every stat changes only derived fields |
| App.SumBySameRecords | src/app.py:139-140 | the sums of counts and of durations over the stats are unchanged by `compute_values` |
| App.SameRecordsWellFormed | src/app.py:139-140 | changing only derived fields keeps the keys, counts and totals consistent |
| App.ComputeAllRaises | src/app.py:139-140 | with stats that all have durations, the loop raises exactly when there is a stat and a total is zero |
| App.ComputeAllValues | src/app.py:139-140 | without an exception every listed stat is computed once and the others are untouched |
| App.ComputeAllPercentages | src/app.py:139-140 | after aggregating, the `count_perc` values and the `time_perc` values of all stats each sum to 100 |
| App.App.ComputeOne | src/app.py:140 | `compute_values` on one stat, with its effect recorded in the state |
| App.App.ComputeStats | src/app.py:139-140 | the loop's final stats and exception are those of `ComputeAll` |
| App.ReportName | src/app.py:102 | `report_{date:%Y.%m.%d}.html`; spelled out by `ReportNameOfDigits` |
| App.Rows | src/app.py:107 | the stat rows sorted by rounded `time_sum`, largest first; stated by `RowsSorted` |
| App.ReportNameOfDigits | src/app.py:102 | the report name is `report_` and the file's digits as `YYYY.MM.DD`, then `.html` |
| App.StatRowsOf | src/app.py:107 | the rows are one `to_dict()` per stat, in insertion order |
| App.RowKey | src/app.py:107 | the sort key of a row is the rounded `time_sum` |
| App.RowsSorted | src/app.py:107 | the report holds one row per stat, as a permutation, in non-increasing order of rounded `time_sum` |
| App.App.SaveReport | src/app.py:97-109 | the report lies in the report directory, is named after the date, and holds the sorted rows of the current stats |
| App.RunSpec | src/app.py:111-143 | `run` on values: outcome and new state; stated by the `Run…` lemmas below |
| App.App.Run | src/app.py:111-143 | the outcome and the new state are those of `RunSpec` |
| App.RunNoLog | src/app.py:112-115 | with no candidate file, nothing is written and the state is untouched |
| App.RunReportName | src/app.py:102 | a written report lies in the report directory and is named after the digits of the newest candidate |
| App.RunSpecWritten | src/app.py:111-143 | `run` writes a report only after selecting a file, into the report directory, under the name `save_report` derives from that file's date |
| App.RunWellFormed | src/app.py:111-143 | from a well-formed state, `run` leaves a well-formed state whatever its outcome, an escaping exception included |
| App.RunPercentages | src/app.py:111-143 | from a well-formed state, a written report with at least one stat has percentages each summing to 100 |

## Left out

- `create_generator` (reading plain or gzip files and decoding UTF-8) is I/O. The lines are the parameter `contents`.
- The directory checks and `mkdir` in `App.__init__`, `iterdir` and `is_file` are not modelled. The listing is a sequence of entries with an `isFile` flag, and its order is the iteration order.
- Reading `report.html`, `string.Template`, `json.dumps` and writing the file are not modelled. The report is its directory, its name and its rows.
- The `print` in the loop of `run` has no effect on the state and is left out.
- `datetime.strptime(v, "%d/%b/%Y:%H:%M:%S %z")` for the log-line date is the parameter `parseDate`. Its calendar, locale and timezone rules are not modelled.
- `datetime.strptime(ds, "%Y%m%d")` is modelled only for eight ASCII digits, the only input the file-name pattern lets through. Python's `\d` also matches non-ASCII decimal digits; names with those are not candidates in the model.
- The regular expression's backtracking is not modelled. A lazy `.*?` field ends at the first closing delimiter followed by whitespace. Python would extend the field further when the rest of the pattern fails after that point, so the model answers "no match" for such lines.
- `\d` in LOG_PATTERN is ASCII digits only, and `int()`/`float()` on non-ASCII digits are not modelled.
- `int()`'s digit limit is the default 4300 (`MaxStrDigits`). A limit changed through `sys.set_int_max_str_digits` or `PYTHONINTMAXSTRDIGITS` is not modelled.
- Builtins.DurationFloat: models `float()` only on runs of digits and dots, which is all the duration group can capture. Signs, exponents, underscores and names such as `inf` are refused here, although `float()` accepts them. They matter only for inputs the duration group cannot capture.
- Floats are `real`: rounding errors of IEEE-754 arithmetic, `inf` and `nan` are not modelled. `round(x, 3)` and `timestamp()` are parameters.
- The dataclass defaults such as `count_perc = 0` are Python ints, and the model stores them as `0.0`. A written report only holds stats that `compute_values` has completed, and there every derived field is a float.
- App.ReportName: `%Y` is modelled as four zero-padded digits. For years below 1000 the C library may print fewer digits.
- Builtins.SortDesc: the stability of `sorted` (rows with equal `time_sum` keep their order) is not proved; only the order and the permutation are.
- UrlStats.RowKeys: states which keys a row has, not their order in the dictionary.
- App.App.Valid ties the objects to the value-level state but does not itself carry the key, count and total invariants. Those are proved on `Agg` (`ConsumeWellFormed`) and carried to the objects through `Aggregate`'s postcondition.
- The copy of `UrlStat` in `src/app.py` is identical to `src/url_stat.py` and is modelled once.
