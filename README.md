# techotrace analysers in Dafny

techotrace is a forensic toolkit. It opens a disk image and runs four
analysers over it:

- **file lister** (`backend/file.py`): a pre-order walk of the filesystem
  that records every entry with its path, size, three timestamps and type.
- **log analyser** (`backend/log.py`): a walk that reads every `.log`,
  `.evtx` and `.txt` file, extracts the `YYYY-MM-DD HH:MM:SS` timestamps
  from its text and flags it as anomalous on a missing timestamp, an alarm
  keyword, or an unusual or invalid timestamp.
- **network analyser** (`backend/network.py`): a walk that keeps the files
  whose path looks network-related. Each kept file gets the reason of the
  first matching rule of an ordered rule table.
- **registry analyser** (`backend/registry.py`): extracts the four system
  hives and every user's `NTUSER.DAT`. It walks each hive's keys in
  pre-order, makes one entry per key, and counts key depths, key paths,
  value types and operations. It then merges the statistics of all hives
  and flattens the entries into one CSV row per value.

The model has these modules:

- `Base`: `Option`, `Result` and Python's `Counter`.
- `Text`: string predicates, ASCII lower-casing, `find` and `rfind`.
- `Timestamps`: a proleptic Gregorian calendar, `strftime` and `strptime`
  for the `%Y-%m-%d %H:%M:%S` format, and `format_timestamp`.
- `FsTree`: the filesystem tree as the filesystem reader presents it.
  An entry may lack a name or metadata. A listing may raise after yielding
  its entries. A read may raise from some offset on.
- `FileLister`, `LogAnalyser` and `NetworkAnalyser`: the three walks.
- `RegistryRules`: the key depth, the value type and the operation label.
- `RegistryWalk`: the key traversal, as the class `RegistryParser`.
- `RegistryReport`: parsing one hive, processing an image, merging
  statistics and flattening to CSV rows.

Each walk is modelled twice:

- a method with the source's loops and recursion, which builds its result
  list the way the source does;
- a recursive function that states the result.

Each method's `ensures` ties the method to its function. The lemmas then
state what the source promises about the functions: which entries are
recorded, in what order, how many, under which paths, and with which labels.

An exception is modelled as a `Result`/`Option` value, or as an `aborted`
flag where it escapes a walk. The clock (`datetime.now()`) and the current
year are parameters. Timestamps are integer seconds since the epoch, UTC.

## Model

| member | source | states |
|---|---|---|
| `Base.Inc` | backend/registry.py:88-89 | `counter[k] += 1` raises the count of `k` by one and leaves every other count unchanged |
| `Base.Add` | backend/registry.py:274-275 | `Counter.update` adds the counts key by key |
| `Text.RFind` | backend/registry.py:258 | `rfind` gives the last index of the character, or -1 when it is absent |
| `Text.Find` | backend/registry.py:257 | `index` gives the first index of the character; it is called only on a pattern that contains it (the source raises otherwise), and the model gives -1 there |
| `Text.ToLowerIdempotent` | backend/network.py:90-91 | lower-casing an already lower-cased path changes nothing |
| `Timestamps.FromEpoch` | backend/file.py:31 | `utcfromtimestamp` gives a calendar date and time that converts back to the same instant |
| `Timestamps.YearRange` | backend/file.py:31 | an instant's year lies in 1..9999 exactly when the instant lies between 0001-01-01 00:00:00 and 9999-12-31 23:59:59 |
| `Timestamps.RenderParses` | backend/network.py:38-40 | `strftime('%Y-%m-%d %H:%M:%S')` of a `datetime` has the timestamp shape, and `strptime` reads it back to the same value |
| `Timestamps.FormatTimestampSpec` | backend/file.py:27-31 | `format_timestamp` gives "N/A" for a missing time; an instant succeeds exactly when its year is in range, and the text then parses back to that instant; every other instant raises |
| `Timestamps.FormatInstant` | backend/registry.py:119 | a key's write time is "N/A" when it is missing; otherwise it is a timestamp that parses back to the key's instant |
| `Timestamps.NotAvailableDoesNotParse` | backend/network.py:38-40 | `strptime` rejects "N/A" |
| `FsTree.JoinShape` | backend/file.py:43 | `os.path.join` with a good name: the path ends with the name, has the name as its last segment, and adds one "/" unless the parent is empty or ends with "/" |
| `FsTree.JoinSegment` | backend/log.py:97 | the joined path is a directory part (empty or ending in "/") followed by the name |
| `FsTree.LastSegmentAfterSlash` | backend/registry.py:116 | the base name of `q/name` is `name` |
| `FileLister.MakeRecordSpec` | backend/file.py:46-53 | a record is built exactly when all three timestamps format; it holds the path, the size, the formatted times, and "Directory" exactly for directories |
| `FileLister.ExtractFiles` | backend/file.py:33-68 | the method appends exactly the records of `FileRecords` to the list it was given |
| `FileLister.ExtractListing` | backend/file.py:57-63 | the listing loop appends the records of the children from the first on; a nameless entry or a failing listing ends the loop and is caught |
| `FileLister.ExtractEntry` | backend/file.py:60-61 | one pass of the listing loop skips "." and ".." and recurses into every other entry |
| `FileLister.OwnRecordFirst` | backend/file.py:39-55 | an entry is recorded exactly when it has metadata and a name and its times format; its own record comes first, with the joined path, its size and its type |
| `FileLister.RecordCount` | backend/file.py:33-68 | at most one record per entry of the tree, and exactly one per entry when nothing is skipped or fails |
| `FileLister.RecordsNested` | backend/file.py:57-61 | pre-order: every later record lies under the first record's path plus "/", and no record's last segment is "." or ".." |
| `FileLister.ChildrenNested` | backend/file.py:59-61 | every record of a directory's listing lies under the directory's path plus "/" |
| `LogAnalyser.ReadRandom` | backend/log.py:65 | a chunk read is at most the requested length and is the stored content at that offset |
| `LogAnalyser.ReadContent` | backend/log.py:58-72 | the read loop gathers exactly `FileContent`: chunks of 1 MiB until the size is reached, an empty read, or a read error |
| `LogAnalyser.ReadEndBounds` | backend/log.py:63-72 | the loop stops within the content; without a read error it stops no earlier than the size or the end of the content; with one it stops before the chunk that faults |
| `LogAnalyser.ReadFromSlice` | backend/log.py:68-69 | what the loop gathers is the stored content from where it starts to where it stops |
| `LogAnalyser.ReadsWholeFile` | backend/log.py:63-72 | a file that reads without error and whose content fits its size is read in full |
| `LogAnalyser.ContentIsPrefix` | backend/log.py:63-72 | the gathered text is always a prefix of the file's content |
| `LogAnalyser.MatchStarts` | backend/log.py:35 | `re.findall` reports matches of the timestamp pattern in increasing order, none overlapping the previous one |
| `LogAnalyser.MatchStartsComplete` | backend/log.py:35 | no match is passed over: every match starts inside a reported one |
| `LogAnalyser.ExtractTimestamps` | backend/log.py:33-35 | `extract_timestamps` returns the text of each reported match, and each has the timestamp shape |
| `LogAnalyser.NoStampsFound` | backend/log.py:39-40 | the list is empty exactly when no match occurs anywhere in the content |
| `LogAnalyser.KeywordMessagesSpec` | backend/log.py:42-45 | a keyword message is produced exactly when one of the six keywords occurs in the content |
| `LogAnalyser.StampMessagesSpec` | backend/log.py:47-53 | a timestamp message is produced exactly when some timestamp does not parse or has a year before 2000 or after the current year |
| `LogAnalyser.AnomalyMessagesSpec` | backend/log.py:37-55 | the message list is non-empty exactly when there is no timestamp, a keyword, or an unusual timestamp |
| `LogAnalyser.DetectAnomalies` | backend/log.py:37-55 | `detect_anomalies` builds the message list with its loops and returns whether the file is anomalous by that statement |
| `LogAnalyser.Extension` | backend/log.py:83 | `splitext`'s extension is empty or a suffix of the path that starts with "." |
| `LogAnalyser.ExtensionSpec` | backend/log.py:83 | the extension starts at a position where the path has one (a "." in the last segment after some non-dot), and it is non-empty whenever such a position exists |
| `LogAnalyser.LogType` | backend/log.py:83 | the type is "No Extension" or a suffix of the path starting with "." |
| `LogAnalyser.ExtensionOfLastSegment` | backend/log.py:83 | directories in front of a name do not change its extension |
| `LogAnalyser.ExtensionOfName` | backend/log.py:83 | a name ending in ".ext" after a non-dot character has ".ext" as its extension |
| `LogAnalyser.LogTypeOfName` | backend/log.py:83 | a joined file whose name ends in ".ext" after a non-dot has type ".ext" |
| `LogAnalyser.LogTypeOfBareExtension` | backend/log.py:83 | a file named just ".log" has the type "No Extension" |
| `LogAnalyser.LogEntrySpec` | backend/log.py:74-89 | a record is built exactly when there is metadata and all three times format; it holds the path, the size, the times and the type, and says "Anomaly detected" exactly when the content read is anomalous |
| `LogAnalyser.AnalyzeLog` | backend/log.py:57-91 | `analyze_log` appends the file's record, or nothing when building it raises |
| `LogAnalyser.ExtractLogs` | backend/log.py:93-108 | the walk appends exactly the records of `LogsOf`, and reports an escaping exception as `aborted` |
| `LogAnalyser.ExtractLogListing` | backend/log.py:99-102 | the listing loop appends the children's records; an exception ends it and escapes |
| `LogAnalyser.ExtractLogEntry` | backend/log.py:100-102 | one pass skips "." and "..", recurses otherwise, and raises on a nameless entry |
| `LogAnalyser.LogsAreLogFiles` | backend/log.py:94-106 | every recorded path ends in ".log", ".evtx" or ".txt"; an entry without metadata or of size 0 contributes nothing from its subtree |
| `LogAnalyser.LeafLogsAreLogFiles` | backend/log.py:104-106 | an analysed file's record names a path with a log ending |
| `LogAnalyser.ListableNeverAborts` | backend/log.py:97-102 | the walk aborts only because of a nameless entry or a failing listing |
| `LogAnalyser.LogCount` | backend/log.py:93-108 | at most one record per entry of the tree |
| `LogAnalyser.DirectoryLogsNested` | backend/log.py:99-102 | a directory is never recorded itself: every record of its walk lies strictly below its path plus "/" |
| `LogAnalyser.EveryLogFileRecorded` | backend/log.py:93-108 | the converse: when every entry is named, has metadata that formats and non-zero size, and every listing succeeds, the walk does not abort and records exactly one entry per non-directory file with a log ending |
| `LogAnalyser.FailingListingAborts` | backend/log.py:99-102 | nothing catches a failing directory listing in `extract_logs`: a non-empty directory whose listing raises aborts the walk |
| `NetworkAnalyser.NetworkRelatedIgnoresCase` | backend/network.py:90-91 | the filter gives the same verdict for a path and its lower-cased form |
| `NetworkAnalyser.CaptureFilesAreNetworkRelated` | backend/network.py:84-91 | a path ending in ".pcap", in any letter case, is kept |
| `NetworkAnalyser.FirstRule` | backend/network.py:43-64 | the index of the first rule that holds from `k` on: no earlier rule holds, and the rule found does |
| `NetworkAnalyser.AnomalyIsFirstMatch` | backend/network.py:34-67 | the if-chain is the rule table read first-match-wins, and a timestamp that does not parse gives no reason |
| `NetworkAnalyser.FirstReasonSpec` | backend/network.py:43-64 | reason `k` is given exactly when rule `k` holds and no earlier rule does; no reason is given exactly when no rule holds |
| `NetworkAnalyser.ReasonIndex` | backend/network.py:43-62 | the ten reasons are distinct, so a reason identifies its rule |
| `NetworkAnalyser.FirstMatchWins` | backend/network.py:34-67 | `detect_anomalies` rule by rule: reason `k` exactly when the times parse, rule `k` holds and no earlier rule does |
| `NetworkAnalyser.MissingTimeGivesNoReason` | backend/network.py:34-67 | an "N/A" time silences every rule, including the path-only ones |
| `NetworkAnalyser.PortRuleFragments` | backend/network.py:57-58 | the port rule reduces to "4444", "1337", "666" and "8080" |
| `NetworkAnalyser.FormattedTimeParses` | backend/network.py:116-118 | a formatted time reads back as the instant it was formatted from |
| `NetworkAnalyser.NetworkEntryReason` | backend/network.py:112-126 | a built record has the path, the size and type "File"; its reason is the rules applied to the original instants, and there is none when a time is missing |
| `NetworkAnalyser.ExtractNetworkFiles` | backend/network.py:93-131 | the walk appends exactly the records of `NetworkFilesOf` and keeps what came before, whatever is raised below it |
| `NetworkAnalyser.ExtractNetworkListing` | backend/network.py:104-110 | the listing loop appends the children's records; a failure is caught inside the directory |
| `NetworkAnalyser.ExtractNetworkEntry` | backend/network.py:107-108 | one pass of the listing loop skips "." and ".." and recurses otherwise |
| `NetworkAnalyser.NetworkRecordsGood` | backend/network.py:98-126 | every record has non-zero size and a network-related path, is labelled "File" and carries the reason its own fields give; an entry without metadata or of size 0 contributes nothing from its subtree |
| `NetworkAnalyser.NetworkCount` | backend/network.py:93-131 | at most one record per entry of the tree |
| `NetworkAnalyser.DirectoryNetworkNested` | backend/network.py:104-108 | a directory is never recorded itself: every record of its walk lies strictly below its path plus "/" |
| `NetworkAnalyser.EveryRelatedFileRecorded` | backend/network.py:93-131 | the converse: when every entry is named, has metadata that formats and non-zero size, exactly one record per non-directory file with a network-related path is kept, whichever listings fail |
| `NetworkAnalyser.ListingFailuresContained` | backend/network.py:104-110 | two trees that differ only in which directory listings raise after their entries, at any depth, give the same records: the exception is caught inside the directory |
| `RegistryRules.Split` | backend/registry.py:27 | `split` gives one more piece than there are separators, and no piece holds the separator |
| `RegistryRules.JoinSplit` | backend/registry.py:27 | joining the pieces with the separator gives the path back |
| `RegistryRules.KeyDepthJoin` | backend/registry.py:24-28 | depth adds up across a backslash |
| `RegistryRules.KeyDepthOfName` | backend/registry.py:24-28 | a name without backslashes has depth one, and the empty path depth zero |
| `RegistryRules.KeyDepthIgnoresExtraBackslashes` | backend/registry.py:27 | leading, trailing and doubled backslashes do not change the depth |
| `RegistryRules.SubkeyDepth` | backend/registry.py:24-28 | a subkey's path is one level deeper than its parent's |
| `RegistryRules.ValueTypeSpec` | backend/registry.py:55-66 | each kind of value gets its own label; `bytearray` and other types get "OTHER_" plus the type name; no label is "ERROR" |
| `RegistryRules.OperationTypeSpec` | backend/registry.py:30-46 | "UNKNOWN" exactly without a timestamp; "MODIFY" exactly when the key is less than a day old; otherwise "BINARY_UPDATE" for bytes and bytearray and "ACCESS" for anything else |
| `RegistryRules.ByteArrayLabels` | backend/registry.py:30-66 | a `bytearray` counts as a binary update but is not typed "BINARY" |
| `RegistryWalk.Item` | backend/registry.py:92-112 | a value that reads gets its type and operation; one that raises gets "ERROR" for both, and only then |
| `RegistryWalk.TallyCounts` | backend/registry.py:97-98 | after the values loop, each counter has grown by the labels of exactly the values that could be read |
| `RegistryWalk.ErrorNeverCounted` | backend/registry.py:106-112 | "ERROR" is never among the counted labels |
| `RegistryWalk.Summary` | backend/registry.py:123 | the summary has exactly the four operation labels, each with its current count |
| `RegistryWalk.VisitCounts` | backend/registry.py:88-98 | a visit counts its depth and its path once each, and the types and operations of the values read |
| `RegistryWalk.VisitSkipsErrors` | backend/registry.py:97-112 | a visit counts "ERROR" neither as a type nor as an operation |
| `RegistryWalk.EntryShape` | backend/registry.py:115-124 | an entry holds the file, the path, the depth and one item per value in order, "ERROR" exactly for the unreadable ones, and the numbers of values and subkeys |
| `RegistryWalk.EntrySummary` | backend/registry.py:119-123 | the write time is "N/A" or parses back to the key's time; the summary holds the four operation counts |
| `RegistryWalk.TraversePreorder` | backend/registry.py:81-132 | the traversal only appends; it appends exactly when the subkeys can be listed; the key's own entry comes first, then deeper entries only |
| `RegistryWalk.SubkeysPreorder` | backend/registry.py:128-129 | the subkey loop only appends entries deeper than their parent |
| `RegistryWalk.DepthCounts` | backend/registry.py:88 | `key_depths` counts, per depth, the keys the walk reaches there, including a key whose subkeys fail |
| `RegistryWalk.EntryCount` | backend/registry.py:115-129 | when every key lists its subkeys, there is one entry per key of the hive |
| `RegistryWalk.TraverseChronological` | backend/registry.py:123 | an entry's operation summary never exceeds a later entry's, nor the final counts |
| `RegistryWalk.RegistryParser.constructor` | backend/registry.py:70-76 | the parser starts with no entries and empty counters |
| `RegistryWalk.RegistryParser.Traverse` | backend/registry.py:81-132 | `traverse_registry` changes the state exactly as `TraverseSpec` says |
| `RegistryWalk.RegistryParser.TraverseSubkeys` | backend/registry.py:128-129 | the subkey loop changes the state as `SubkeysFrom` says |
| `RegistryWalk.RegistryParser.ReadValues` | backend/registry.py:91-112 | the values loop returns the items in order, and grows only the type and operation counters, by the tallies of the values read |
| `RegistryReport.ParseRegistryFile` | backend/registry.py:68-140 | `parse_registry_file` walks the hive from its root at depth 0 under the file's base name; a hive that cannot be opened gives nothing |
| `RegistryReport.ParsedHive` | backend/registry.py:68-140 | every entry names the file; there are entries exactly when the root lists; the first is the root's at depth 0 and the rest are deeper; summaries never decrease; `key_depths` counts the keys reached; a fully listable hive has one entry per key |
| `RegistryReport.Merge` | backend/registry.py:274-275 | merging adds each of the four counters key by key |
| `RegistryReport.MergeLaws` | backend/registry.py:274-275 | merging is commutative and associative, and the empty statistics are its identity |
| `RegistryReport.MergeOrderFree` | backend/registry.py:254-294 | the combined statistics do not depend on the order of the hives |
| `RegistryReport.ProcessHive` | backend/registry.py:268-275 | extracting, parsing and merging one hive is `ProcessTarget` |
| `RegistryReport.ProcessRegistryFiles` | backend/registry.py:234-294 | the loops over the registry paths and the users' directory compute exactly `ProcessSpec` |
| `RegistryReport.WildcardExpansion` | backend/registry.py:257-265 | a wildcard path splits into the directory before "*" and the pattern after the last "/"; a user's hive path is the wildcard path with the user's name in place of "*" |
| `RegistryReport.UserHiveTargets` | backend/registry.py:241-265 | the users' entry splits into "/Users/" and "NTUSER.DAT"; user `name`'s hive is that path with `name` in place of "*" |
| `RegistryReport.SystemHivesArePlain` | backend/registry.py:236-283 | the four system hives have no wildcard and are processed as plain paths |
| `RegistryReport.NothingExtracted` | backend/registry.py:254-321 | an image from which no hive can be extracted yields no data and empty statistics |
| `RegistryReport.ProcessKeepsData` | backend/registry.py:254-294 | processing only appends: the data gathered before is kept in front |
| `RegistryReport.EntryRowsSpec` | backend/registry.py:170-198 | an entry gives `max(1, len(values))` rows; each copies its six base fields; row `j` carries value `j`'s name, type and operation, and a key without values gets one row with empty value fields |
| `RegistryReport.FlattenAppend` | backend/registry.py:169-198 | flattening works entry by entry |
| `RegistryReport.FlattenCount` | backend/registry.py:169-198 | the CSV has one row per value, plus one per key without values |
| `RegistryReport.FlattenRows` | backend/registry.py:169-198 | the flattening loop computes exactly `Flatten` |

## Left out

- Reading the disk image is not modelled (EWF images through pyewf, filesystems through pytsk3). The analysers see a `Node` tree, and the registry analyser sees an `Image`: the listed directories and the hives that can be extracted. `extract_registry_file` writes a copy to local disk. Its effect is modelled as the hive being present in `Image.files`.
- The python-registry library is modelled as the `Key` datatype. A failing `key.path()`, `value.name()` or `key.timestamp()` is not modelled. `key.subkeys()` is assumed to give the same keys at both of its calls, lines 122 and 128.
- Names and file content are strings of characters. UTF-8 decoding with `errors="replace"` or `errors="ignore"` is not modelled, and neither are Unicode digits in `\d`. The log reader's offset counts characters rather than bytes.
- `str.lower()` is modelled for ASCII letters only.
- `datetime.now()` is a parameter `now` (epoch seconds), and the current year is a parameter `currentYear`. One reading serves a whole run, whereas the source reads the clock at each call. The difference between local and UTC time is not modelled.
- Microseconds are not modelled. Timestamps are whole seconds, and `timedelta.days` is the floor of the difference in days.
- The registry value text `str(value_data)` and the "Error reading value: …" text are not modelled. `ValueItem` carries the value itself, or `None` for an unreadable value. The CSV rows leave out `value_data`.
- `calculate_key_depth` is modelled as `KeyDepth`, but the source's traversal does not call it. The entries use the recursion depth, as in the source.
- The statistics CSV, `most_common`, the JSON file and the summary printed at the end of `process_registry_files` (lines 296-321) are not modelled. Neither are the HTML dashboards, `main`, and all `print` output.
- `extract_logs`'s default argument `logs_data=[]` is shared between calls in Python. The model passes the list explicitly, as every caller in the source does.
- The registry analyser reports a `bytearray` value with type "OTHER_bytearray" but with operation "BINARY_UPDATE" (`RegistryRules.ByteArrayLabels`). This follows the source.
- A failing `key.values()` (backend/registry.py:91) is expressed through `subkeysFail` with no values: the key's depth and path are counted, and it gets no entry and no recursion, as the source does.
- `Timestamps.Render`: writes a year before 1000 zero-padded to four digits (`0999`). CPython on glibc writes such a year without padding (`999`), so for those years the source's string differs from the model's and does not match the shape `RenderParses` reads back; `strptime` then rejects it, and the source's network rules give no reason for such a file where `NetworkAnomaly` may give one.
- `LogAnalyser.ReadRandom`: a read is clamped to the end of the stored content, whereas pytsk3 clamps it to `meta.size`. The loop condition still compares the offset with `meta.size`, so the two agree when the stored content has exactly `meta.size` characters.
- A registry key's timestamp is an `Instant`, within the range of Python's `datetime`, because python-registry only produces such values.
