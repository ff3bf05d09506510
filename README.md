# Exposure-notification bookkeeping and log grep, modelled in Dafny

This project models two services of the COVID-19 contact-confirming app
(Covid19Radar), with proofs about the model.

`ExposureNotificationService` keeps the app's per-region download
bookkeeping in the preference store. Each preference key holds the JSON of a
dictionary from region to value, read by `GetKey<T>` and written by
`SetKey<T>`. The six typed getters and setters sit on top of these two. The
background-processing timestamps are a bounded, newest-first,
comma-separated history per region. The service also:

- stores the exposure configuration;
- keeps the exposure summary and events in secure storage and filters the
  events shown to the user by date;
- migrates the legacy `UserDataModel` fields once;
- filters the diagnosis keys for upload against a one-shot diagnosis date.

`LogViewService` extracts CSV fields (`CsvFilter`) and greps the log files
(`LogViewGrep`). The grep:

1. reads the files in order, reversed at the start when asked;
2. keeps the matching lines, each either whole or as one CSV field, with
   regex group values appended;
3. stops at the end of the file that reaches `max` entries, or on the first
   `CsvFilter` exception;
4. sorts the entries, and reverses them when asked.

How the model is laid out:

| module | file | contents |
|---|---|---|
| `Common` | `common.dfy` | `Option`/`Result` and the C# exceptions as an `Error` value; `long`; `DateTime` as ticks; `Where`, `Select` and `Reverse` on sequences |
| `Text` | `text.dfy` | `Split`, `string.Join`, `TrimStart`/`TrimEnd`/`Trim`, and `long.ToString()` with its parse-back |
| `PreferenceStore` | `preference_store.dfy` | the region-keyed documents, `GetKey` and `SetKey` |
| `RollingHistory` | `rolling_history.dfy` | the background-timestamp history and its window |
| `Model` | `model.dfy` | the records the service stores |
| `Migration` | `migration.dfy` | the legacy migration as a state transformation |
| `ExposureNotification` | `exposure_notification_service.dfy` | one class whose fields are the stores the service writes, with the service's operations as its members |
| `LogView` | `log_view_service.dfy` | `CsvFilter`, a reading specification of `LogViewGrep` (`ScanLines`, `GrepFiles`), and the grep method itself with its loops |

The preference and secure stores are fields of the service class that its
methods reassign. Each document is kept in decoded form:

- `Missing` when the store answers null;
- `Blank` when it holds the empty string;
- `Json(value)` otherwise.

Other inputs become parameters:

- the clock becomes a single reading `now` per call (see Left out);
- `AppConstants` becomes `daysToDisplay` and `daysToSendTek`;
- the log files become their lines;
- the regular expression becomes a match predicate and a group function;
- the culture's string comparison becomes a total preorder `leq`.

Some behaviours of the code are easy to misread; the model follows the code:

- **History window.** `SetLastProcessTekTimestampBg` keeps up to seventeen
  markers: the new one, the fifteen newest old ones, and the last (oldest)
  old one. `RemoveRange(15, n - 16)` removes a middle slice, so once the
  history is full the very first marker ever appended stays in it for good
  (`RollingHistory.HistoryWindow`).
- **Trailing comma.** Appending to an empty history stores `created + ","`:
  `Split` always returns at least one piece, so the branch that stores
  `created` alone is never taken. The next read trims the comma away, so
  the history reads back as the one marker (`RollingHistory.AppendToEmpty`).
- **No stored list.** `GetExposureInformationListToDisplay` answers null
  when no list is stored.
- **Malformed JSON.** `GetKey` does not catch a JSON decoding failure; the
  exception reaches its caller (see Left out).

## Model

| member | source | states |
|---|---|---|
| PreferenceStore.GetKey | Covid19Radar/Covid19Radar/Services/ExposureNotificationService.cs:182-197 | the region's stored value when the document is JSON and has the region; the default when the document is missing, empty or lacks the region |
| PreferenceStore.SetKey | Covid19Radar/Covid19Radar/Services/ExposureNotificationService.cs:226-242 | the written document is JSON; its regions are the old ones plus `region`; reading `region` gives `created` whatever the default; every other region reads as before |
| ExposureNotification.ExposureNotificationService.GetLastDownloadDateTime | Covid19Radar/Covid19Radar/Services/ExposureNotificationService.cs:198-201 | the stored time for the region, `new DateTime()` (tick 0) when none |
| ExposureNotification.ExposureNotificationService.GetLastProcessTekTimestamp | Covid19Radar/Covid19Radar/Services/ExposureNotificationService.cs:203-206 | the stored timestamp for the region, 0 when none |
| ExposureNotification.ExposureNotificationService.GetETag | Covid19Radar/Covid19Radar/Services/ExposureNotificationService.cs:207-210 | the stored ETag for the region, "" when none |
| ExposureNotification.ExposureNotificationService.GetLastProcessTekTimestampBg | Covid19Radar/Covid19Radar/Services/ExposureNotificationService.cs:212-215 | the stored background history for the region, "" when none |
| ExposureNotification.ExposureNotificationService.GetLastProcessTekListCount | Covid19Radar/Covid19Radar/Services/ExposureNotificationService.cs:217-220 | the stored list count for the region, 0 when none |
| ExposureNotification.ExposureNotificationService.GetLastDownloadCount | Covid19Radar/Covid19Radar/Services/ExposureNotificationService.cs:221-224 | the stored download count for the region, 0 when none |
| ExposureNotification.ExposureNotificationService.SetLastProcessTekTimestamp | Covid19Radar/Covid19Radar/Services/ExposureNotificationService.cs:243-246 | its getter then answers `created` for the region and what it answered before for every other region; no other field changes |
| ExposureNotification.ExposureNotificationService.SetETag | Covid19Radar/Covid19Radar/Services/ExposureNotificationService.cs:247-250 | as above, for the ETag document |
| ExposureNotification.ExposureNotificationService.SetLastProcessTekTimestampBg | Covid19Radar/Covid19Radar/Services/ExposureNotificationService.cs:252-271 | the region's history becomes `AppendedHistory(old, created)`, whose markers are the new one followed by `Retained` of the old markers; other regions unchanged |
| ExposureNotification.ExposureNotificationService.SetLastDownloadDateTime | Covid19Radar/Covid19Radar/Services/ExposureNotificationService.cs:272-275 | its getter then answers `created` for the region, other regions unchanged |
| ExposureNotification.ExposureNotificationService.SetLastProcessTekListCount | Covid19Radar/Covid19Radar/Services/ExposureNotificationService.cs:276-279 | its getter then answers `created` for the region, other regions unchanged |
| ExposureNotification.ExposureNotificationService.SetLastDownloadCount | Covid19Radar/Covid19Radar/Services/ExposureNotificationService.cs:280-283 | its getter then answers `created` for the region, other regions unchanged |
| ExposureNotification.ExposureNotificationService.RemoveLastProcessTekTimestamp | Covid19Radar/Covid19Radar/Services/ExposureNotificationService.cs:285-295 | all six per-region getters answer their defaults for every region; configuration and secure storage are outside the frame |
| ExposureNotification.ExposureNotificationService.GetConfiguration | Covid19Radar/Covid19Radar/Services/ExposureNotificationService.cs:154-166 | a configuration exactly when a non-empty string is stored, and then that string |
| ExposureNotification.ExposureNotificationService.RemoveConfiguration | Covid19Radar/Covid19Radar/Services/ExposureNotificationService.cs:168-173 | the key is removed, so `GetConfiguration` answers null |
| ExposureNotification.ExposureNotificationService.GetExposureNotificationConfig | Covid19Radar/Covid19Radar/Services/ExposureNotificationService.cs:123-152 | the body of an OK response is stored; otherwise the stored configuration is unchanged |
| ExposureNotification.ExposureNotificationService.GetExposureInformationList | Covid19Radar/Covid19Radar/Services/ExposureNotificationService.cs:298-309 | the stored list, null when the document is missing or empty |
| ExposureNotification.ExposureNotificationService.SetExposureInformation | Covid19Radar/Covid19Radar/Services/ExposureNotificationService.cs:311-319 | both documents are written, and the list reads back as given |
| ExposureNotification.ExposureNotificationService.RemoveExposureInformation | Covid19Radar/Covid19Radar/Services/ExposureNotificationService.cs:321-327 | both documents are removed, and the list reads back as null |
| ExposureNotification.ExposureNotificationService.GetExposureInformationListToDisplay | Covid19Radar/Covid19Radar/Services/ExposureNotificationService.cs:329-337 | null exactly when no list is stored; otherwise the stored events at or after `now + daysToDisplay` days, in stored order, and an event is shown if and only if it is stored and that recent |
| ExposureNotification.ExposureNotificationService.GetExposureCountToDisplay | Covid19Radar/Covid19Radar/Services/ExposureNotificationService.cs:339-350 | the number of events shown, 0 when none is stored, never more than are stored |
| ExposureNotification.ExposureNotificationService.MigrateFromUserData | Covid19Radar/Covid19Radar/Services/ExposureNotificationService.cs:81-121 | the touched state becomes `Migrate` of the old state; after a migration of a non-empty legacy map, each region's timestamp reads back as it was in the legacy map, 0 elsewhere |
| Migration.MigrateTimestamps | Covid19Radar/Covid19Radar/Services/ExposureNotificationService.cs:87-93 | a non-empty legacy timestamp map is written verbatim and then emptied; a null or empty one leaves both untouched |
| Migration.MigrateConfiguration | Covid19Radar/Covid19Radar/Services/ExposureNotificationService.cs:95-104 | the legacy property is removed whatever its value, and no other property changes; its value becomes the configuration only when it is a non-empty string |
| Migration.MigrateExposure | Covid19Radar/Covid19Radar/Services/ExposureNotificationService.cs:106-118 | each legacy exposure field that is set moves to secure storage; both legacy fields end null |
| Migration.MigrateIdempotent | Covid19Radar/Covid19Radar/Services/ExposureNotificationService.cs:81-121 | a second migration changes nothing |
| ExposureNotification.ExposureNotificationService.FliterTemporaryExposureKeys | Covid19Radar/Covid19Radar/Services/ExposureNotificationService.cs:447-482 | fails with the InvalidOperation message exactly when no diagnosis date is set; otherwise the keys rolling from `DiagnosisDate + daysToSendTek` days on, in input order (membership if and only if); the date is cleared either way |
| RollingHistory.RemoveRange | Covid19Radar/Covid19Radar/Services/ExposureNotificationService.cs:259 | the list without `count` elements from `index`: a shorter length, the elements before `index`, and the later ones shifted down |
| RollingHistory.Retained | Covid19Radar/Covid19Radar/Services/ExposureNotificationService.cs:255-260 | at most sixteen old markers survive: the fifteen newest are kept in place, and the last one stays last |
| RollingHistory.MarkersOfAppended | Covid19Radar/Covid19Radar/Services/ExposureNotificationService.cs:252-271 | reading the stored history back gives the new marker followed by the retained old markers |
| RollingHistory.HistoryCapacity | Covid19Radar/Covid19Radar/Services/ExposureNotificationService.cs:256-263 | an append leaves exactly one more marker than the retained old ones, so at most seventeen |
| RollingHistory.AppendToEmpty | Covid19Radar/Covid19Radar/Services/ExposureNotificationService.cs:254-263 | the first append stores `created + ","`, which reads back as the one marker |
| RollingHistory.HistoryWindow | Covid19Radar/Covid19Radar/Services/ExposureNotificationService.cs:252-271 | after n appends to an empty history: all markers, newest first, while n <= 17; after that, the sixteen newest followed by the very first |
| Text.Split | Covid19Radar/Covid19Radar/Services/ExposureNotificationService.cs:255 | there is always at least one piece |
| Text.SplitPieces | Covid19Radar/Covid19Radar/Services/Logs/LogViewService.cs:147 | no piece contains the separator |
| Text.SplitCount | Covid19Radar/Covid19Radar/Services/Logs/LogViewService.cs:147 | one piece more than there are separators |
| Text.Join | Covid19Radar/Covid19Radar/Services/ExposureNotificationService.cs:263 | `string.Join`: starts with the first part, followed by the separator when there are more parts; `JoinSplit`, `SplitJoin` and `JoinLast` pin down the rest |
| Text.JoinSplit | Covid19Radar/Covid19Radar/Services/ExposureNotificationService.cs:255-263 | joining the pieces of a split gives back the string |
| Text.SplitJoin | Covid19Radar/Covid19Radar/Services/ExposureNotificationService.cs:255-263 | splitting the join of a non-empty sequence of separator-free pieces gives back the pieces |
| Text.SplitLastNonEmpty | Covid19Radar/Covid19Radar/Services/ExposureNotificationService.cs:254-255 | a string that does not end in the separator has a non-empty last piece |
| Text.JoinLast | Covid19Radar/Covid19Radar/Services/ExposureNotificationService.cs:263 | a join ends with its whole last part, hence with that part's last character when it is not empty |
| Text.TrimEnd | Covid19Radar/Covid19Radar/Services/ExposureNotificationService.cs:254 | the longest prefix that does not end in the character; only that character was dropped |
| Text.TrimStart | Covid19Radar/Covid19Radar/Services/Logs/LogViewService.cs:147 | the longest suffix that does not start with the character; only that character was dropped |
| Text.Trim | Covid19Radar/Covid19Radar/Services/Logs/LogViewService.cs:147 | an infix bordered only by the character, neither starting nor ending with it |
| Text.TrimKeepsOut | Covid19Radar/Covid19Radar/Services/Logs/LogViewService.cs:147 | trimming adds no character |
| Text.TrimUnchanged | Covid19Radar/Covid19Radar/Services/Logs/LogViewService.cs:147 | a string neither starting nor ending with the character is unchanged |
| Text.Digits | Covid19Radar/Covid19Radar/Services/ExposureNotificationService.cs:263 | a non-empty string of decimal digits |
| Text.DigitsRoundTrip | Covid19Radar/Covid19Radar/Services/ExposureNotificationService.cs:263 | parsing the digits gives back the number |
| Text.LongToString | Covid19Radar/Covid19Radar/Services/ExposureNotificationService.cs:263 | a non-empty rendering without a comma, ending in a digit |
| Text.LongRoundTrip | Covid19Radar/Covid19Radar/Services/ExposureNotificationService.cs:263 | parsing the rendering gives back the `long` |
| Common.AddDays | Covid19Radar/Covid19Radar/Services/ExposureNotificationService.cs:333 | moves the time by exactly `days` days, forward for positive and backward for negative |
| Common.Filter | Covid19Radar/Covid19Radar/Services/ExposureNotificationService.cs:462 | never longer than its input |
| Common.FilterCounts | Covid19Radar/Covid19Radar/Services/ExposureNotificationService.cs:462 | each element satisfying the predicate is kept as often as it occurs; no other element is kept |
| Common.FilterMembers | Covid19Radar/Covid19Radar/Services/ExposureNotificationService.cs:333-334 | an element is kept if and only if it is in the input and satisfies the predicate |
| Common.FilterAppend | Covid19Radar/Covid19Radar/Services/ExposureNotificationService.cs:333-334 | filtering a concatenation concatenates the filtered parts, so order is kept |
| Common.SelectAll | Covid19Radar/Covid19Radar/Services/Logs/LogViewService.cs:151 | succeeds exactly when every element does, with the results in order; otherwise fails with the failure of the first failing element |
| Common.Reversed | Covid19Radar/Covid19Radar/Services/Logs/LogViewService.cs:86 | same length; element i is input element n-1-i |
| Common.ReversedPermutes | Covid19Radar/Covid19Radar/Services/Logs/LogViewService.cs:142 | reversing keeps the multiset |
| LogView.CsvFilter | Covid19Radar/Covid19Radar/Services/Logs/LogViewService.cs:145-148 | succeeds exactly when 1 <= i <= number of fields, and then gives field i with quotes trimmed; fails with an index error otherwise |
| LogView.CsvFilterField | Covid19Radar/Covid19Radar/Services/Logs/LogViewService.cs:147 | an extracted field has no comma and no quote at either end |
| LogView.CsvFilterInRange | Covid19Radar/Covid19Radar/Services/Logs/LogViewService.cs:147 | success if and only if 1 <= i <= commas + 1 |
| LogView.CsvFilterOfJoin | Covid19Radar/Covid19Radar/Services/Logs/LogViewService.cs:147 | on a line joined from comma-free fields, yields the requested field, quotes trimmed, and unquoted fields come back unchanged |
| LogView.CsvFilterAll | Covid19Radar/Covid19Radar/Services/Logs/LogViewService.cs:149-152 | succeeds exactly when every line has field i, and then gives every line's field in order; fails with the index error otherwise |
| LogView.ScanStops | Covid19Radar/Covid19Radar/Services/Logs/LogViewService.cs:98-127 | after a failing entry, later lines of the file do not change the scan |
| LogView.GrepStopsReading | Covid19Radar/Covid19Radar/Services/Logs/LogViewService.cs:128-140 | once reading has stopped (limit reached or exception caught), later files do not change the result |
| LogView.GrepBelowMax | Covid19Radar/Covid19Radar/Services/Logs/LogViewService.cs:128-132 | when reading ran to the end with `max > 0`, fewer than `max` entries were collected |
| LogView.GrepMayExceedMax | Covid19Radar/Covid19Radar/Services/Logs/LogViewService.cs:124-132 | the limit is checked only at the end of a file: with `max == 1`, one file of two matching lines yields two entries |
| LogView.FormattedWithoutFilter | Covid19Radar/Covid19Radar/Services/Logs/LogViewService.cs:105-123 | with `filter <= 0`, a matching line's entry is the line followed by its key suffix |
| LogView.Entries | Covid19Radar/Covid19Radar/Services/Logs/LogViewService.cs:124 | for lines none of whose entries fails: one entry per line, in order |
| LogView.ScanTotal | Covid19Radar/Covid19Radar/Services/Logs/LogViewService.cs:98-127 | when the entry of no matching line of the file fails, the file yields the entries of its matching lines, in order |
| LogView.GrepTotal | Covid19Radar/Covid19Radar/Services/Logs/LogViewService.cs:91-135 | with no limit, and no matching line of any file whose entry fails, every file is read and every matching line contributes its entry, in reading order |
| LogView.Decorated | Covid19Radar/Covid19Radar/Services/Logs/LogViewService.cs:113-124 | each line followed by its key suffix, in order |
| LogView.GrepWithoutFailure | Covid19Radar/Covid19Radar/Services/Logs/LogViewService.cs:91-135 | with no limit, and with the extracted field present on every matching line, the grep reads every file, stops for nothing, and yields one entry per matching line of every file, in reading order |
| LogView.GrepUnlimited | Covid19Radar/Covid19Radar/Services/Logs/LogViewService.cs:91-135 | with neither a limit nor field extraction, the output is every matching line of every file in reading order, each with its key suffix |
| LogView.Insert | Covid19Radar/Covid19Radar/Services/Logs/LogViewService.cs:141 | inserting into a sorted list keeps it sorted and adds exactly the element |
| LogView.Sort | Covid19Radar/Covid19Radar/Services/Logs/LogViewService.cs:141 | a permutation of the input, ordered by `leq` |
| LogView.AppendKeys | Covid19Radar/Covid19Radar/Services/Logs/LogViewService.cs:113-123 | appends `"," + group value` for every non-empty key, in key order |
| LogView.FormatMatch | Covid19Radar/Covid19Radar/Services/Logs/LogViewService.cs:103-124 | the entry of a matching line; with `filter > 0` it fails exactly when `CsvFilter` does |
| LogView.ReadMatches | Covid19Radar/Covid19Radar/Services/Logs/LogViewService.cs:98-127 | the line loop computes the reading specification `ScanLines` of the file |
| LogView.ReadFiles | Covid19Radar/Covid19Radar/Services/Logs/LogViewService.cs:89-140 | the file loop, together with the catch, computes the reading specification `GrepFiles` of the files |
| LogView.LogViewGrep | Covid19Radar/Covid19Radar/Services/Logs/LogViewService.cs:83-144 | the result is a permutation of the entries collected from the files (reversed first when `reverse`), in ascending order by `leq`, or descending when `reverse` |

## Left out

- JSON serialization: documents are kept in decoded form, and the codec is taken to round-trip.
- PreferenceStore.GetKey: does not model a malformed document. In the source the JSON exception escapes `GetKey`.
- GetExposureNotificationConfig: the HTTP download, the logger and the `async` machinery are left out. Only the store effect on the response body is modelled, with the response as a parameter.
- `FetchExposureKeyAsync`, `UpdateStatusMessageAsync`, `StartExposureNotification` and `StopExposureNotification` are not part of this model. They are calls into the platform exposure-notification API and the HTTP layer.
- `GetStatusMessageAsync` is not part of this model. It maps the platform status to a localized resource string and shows `UserDialogs` alerts, which is user-interface work.
- `PositiveDiagnosis` is a plain auto-property, so it has no behaviour to model.
- The clock and `AppConstants` are left out. `DateTimeUtility.Instance.UtcNow` becomes a parameter `now`; the constants become `daysToDisplay` and `daysToSendTek`.
- ExposureNotification.ExposureNotificationService.GetExposureInformationListToDisplay: does not model the clock being read once per stored event. The source reads `DateTimeUtility.Instance.UtcNow` inside the `Where` lambda, so the cutoff can move forward while the list is filtered, and an event near the boundary can be dropped. The model filters the whole list against one reading `now`. The same holds for `GetExposureCountToDisplay`, which counts that list.
- The logger is left out: every modelled member of `ExposureNotificationService` calls `loggerService.StartMethod`, `EndMethod`, `Info` or `Exception`, and none of those calls changes the modelled state.
- Concurrency is left out; the model is sequential. The `await` inside `MigrateFromUserData`, on the removal of the legacy configuration property, is treated as part of one atomic step. The read-then-write of `SetKey` and `SetLastProcessTekTimestampBg` is treated as atomic too, although two concurrent callers could interleave between the read and the write and lose an update.
- Common.AddDays: does not model the `DateTime` range limits or the overflow exception past them.
- ExposureNotification.ExposureNotificationService.FliterTemporaryExposureKeys: does not model the local-time offset of the `DateTimeOffset` comparison. Times are compared as ticks. The lazy `Where` is modelled as an eager list.
- `details` stands in for everything the core does not read in the stored exposure records (`UserExposureInfo`, `UserExposureSummary`).
- `TemporaryExposureKey` keeps `rollingStart`, which the upload filter reads, and `keyData` as a stand-in for the key itself. Its other properties are dropped, because the core does not read them.
- `UserDataModel`: only its three legacy fields are modelled.
- File I/O is left out: `LogViewFiles`, `FileStream` and `StreamReader`. A log file is given as the sequence of its lines.
- The regular-expression engine is left out. It becomes a match predicate and a group-value function. An invalid pattern throws in `Regex.Match`, and that exception, caught by the same handler, is not modelled.
- LogView.LogViewGrep: does not model culture-aware string comparison. It is abstracted as a total preorder `leq`. `List.Sort` is unstable, so only "ordered by `leq` and a permutation" is promised, not one particular order of equal entries.
- LogView.LogViewGrep: does not model `Array.Reverse` and `List.Reverse` updating the array in place. They are modelled on sequences.
- The other members of `LogViewService` are not part of this model: `LogViewTimeInitialize` and the other `LogViewTime*` members, `FileRead`, `LogViewLs`, `LogViewFull` and `FileInfoString`.
- Common.Filter: its own contract only bounds the length. Contents, multiplicities and order live in the lemmas `FilterCounts`, `FilterMembers` and `FilterAppend`, which keep each use cheap to verify.
- Text.Split: its own contract only says there is at least one piece. What the pieces are is stated by `SplitPieces`, `SplitCount`, `JoinSplit` and `SplitJoin`.
