# firebase-stats in Dafny

A model of the two halves of the firebase-stats gem, with proofs about them.

- **The reader** (`FirebaseStats::Reader`) takes the lines of a Firebase Analytics CSV export. It cuts them into blocks at blank lines and drops every line holding `#`. It names each block by matching its stripped first line against fifteen known headers. It stores the block, parsed as a CSV table, under that section unless the section is already stored.
- **The wrapper** (`FirebaseStats::Wrapper`) reads those sections for one platform (`:all`, `:ios`, `:android`) and turns them into records:
  - operating-system versions with their user counts and percentage shares;
  - the same grouped by major version ("iOS 16", "Android 13");
  - the top devices, optionally with a friendly name;
  - the gender split;
  - the gender-by-age split in percent.
- **`DeviceUtils`** decides from a model name whether a device is an iPhone, iPad or iPod. It narrows a device table to one platform.

The model is split into modules:

| module | contents |
|---|---|
| `Common` | Option and Result values, and `Fault`: why an analytics call gives no result. Also `Select` (Ruby's `select`) and flattening. |
| `Text` | `strip`, ASCII `downcase`, `include?`, splitting on a character, `to_i` and `to_f`. `to_i` and `to_f` skip the whitespace of `strip` except the null character. |
| `Csv` | The subset of `CSV.parse(text, headers: true)` the reader relies on. |
| `StatsReader` | The section table, `match_header`, and the blank-line blocking of `parse`. Also the class `Reader`, whose `data` map `Parse` and `ProcessLines` update in place. |
| `DeviceUtils` | `ios_device?` and `filter_device`. |
| `Grouping` | Ruby's `group_by` and `Hash#merge` on insertion-ordered hashes. |
| `StatsWrapper` | `filter_os`, `as_percentage`, the version keys, and a specification function per analytics method. Also the class `Wrapper`, whose loop methods are proved equal to those functions. |

Where the Ruby code raises, the model returns an `Err` carrying one of the first four kinds of `Fault`:

- **`NoSection`**: the requested section was never parsed (`nil.each`, `nil.select`).
- **`NilCell`**: a label or model cell is missing (`nil.downcase`).
- **`NoVersion`**: an OS label has no version number (`nil.captures`).
- **`NegativeLimit`**: `take` was given a negative limit.

The fifth kind is the model's own:

- **`ZeroTotal`**: a percentage would be taken of a zero total. Ruby does not raise here. It divides a float by the integer 0 and gets Infinity or NaN. The model reports `ZeroTotal` instead of modelling those values.

The model follows the code where some descriptions of the library differ from it:

- the reader has no `get` accessor;
- `match_header` has no fallback for headers starting with `Category,`;
- `parse` never resets the section map, so a second parse only adds sections that are still missing;
- the wrapper has no `os` method and does not sort versions;
- `gender` passes the `Users` cell through as the string it read;
- `gender_age` has no `other` entry.

One behaviour of the code is stated as a lemma:

- **`filter_os(:ios)` and the version pattern disagree.** The filter matches the lower-cased label. The version pattern `iOS [0-9]{1,2}` is case-sensitive. A row labelled "IOS 16" passes the filter and then stops `ios_os_group` (`StatsWrapper.IosGroupsCaseMismatch`).

Another is modelled in the loop methods but stated by no lemma of its own:

- **`os_total` is recomputed.** `os_version` and `os_grouped` recompute `os_total` for every entry. The loop methods `VersionEntries` and `GroupEntries` call `OsTotal` once per entry in the same way. Nothing changes the reader between the calls, so every call gives the same answer. Their postconditions state the result, not the number of calls.

## Model

| member | source | states |
|---|---|---|
| StatsReader.Reader.constructor | lib/reader.rb:10-13 | A new reader holds no section. |
| StatsReader.Reader.Parse | lib/reader.rb:22-32 | Walking the lines with a buffer is the same as absorbing, in order, the blocks between blank lines, with comments and blank lines dropped. The buffer is flushed at a blank line and at the last line. Sections already stored keep their tables. |
| StatsReader.Reader.ProcessLines | lib/reader.rb:37-43 | A block with an unknown header changes nothing. A known section is stored with the block's table only when still absent. The new map is exactly that update. |
| StatsReader.MatchHeader | lib/reader.rb:48-68 | A section found for a header has the stripped header as its signature. |
| StatsReader.MatchHeaderIff | lib/reader.rb:48-68 | A header names section `s` if and only if `s`'s signature equals the stripped header. |
| StatsReader.Find | lib/reader.rb:67 | A hit has the key as its signature. A miss means no candidate has it. |
| StatsReader.SignatureInjective | lib/reader.rb:49-65 | No two sections share a header, so the mapping can be read both ways. |
| StatsReader.SectionOfSignature | lib/reader.rb:49-65 | Every signature is non-empty, and its length and first character identify its section. |
| StatsReader.EarlySectionTag | lib/reader.rb:50-56 | The same, for the first seven sections of the table. |
| StatsReader.LateSectionTag | lib/reader.rb:57-64 | The same, for the last eight sections of the table. |
| StatsReader.AllSectionsComplete | lib/reader.rb:49-65 | Every section symbol occurs in the table. |
| StatsReader.SectionCount | lib/reader.rb:49-65 | A reader never holds more than fifteen sections. |
| StatsReader.StripEmptyIffBlank | lib/reader.rb:25-27 | `line.strip.empty?` holds exactly for lines made only of whitespace. |
| StatsReader.BlocksNoBlank | lib/reader.rb:24-30 | An input without blank lines is one block: comments do not split it, and its last line closes it. |
| StatsReader.BlocksSplit | lib/reader.rb:27-29 | A blank line separates the blocks before it from the blocks after it. |
| StatsReader.BlocksWellFormed | lib/reader.rb:25-28 | No block is empty, and no block holds a comment or a blank line. |
| StatsReader.BlocksFlatten | lib/reader.rb:24-30 | The blocks laid end to end are exactly the kept lines, in input order. |
| StatsReader.SegmentsNoBreak | lib/reader.rb:24-30 | Generic form of BlocksNoBlank, for any separator and keep test. |
| StatsReader.SegmentsSplit | lib/reader.rb:27-29 | Generic form of BlocksSplit. |
| StatsReader.SegmentsWellFormed | lib/reader.rb:25-28 | Generic form of BlocksWellFormed. |
| StatsReader.SegmentsFlatten | lib/reader.rb:24-30 | Generic form of BlocksFlatten. |
| StatsReader.ScanSegments | lib/reader.rb:22-32 | The front-to-back pass of `parse` enters exactly the pieces of the input, in order. |
| StatsReader.Enter | lib/reader.rb:38-42 | Storing one block: existing keys are untouched, and a new key gets the block's value. |
| StatsReader.Flush | lib/reader.rb:37-43 | `Enter` instantiated with `match_header` and `CSV.parse`. |
| StatsReader.FoldKeepsExisting | lib/reader.rb:42 | The first write wins: entering more blocks never changes a stored key. |
| StatsReader.FoldCovers | lib/reader.rb:37-43 | After the fold, every key a block names is stored. |
| StatsReader.FoldFirst | lib/reader.rb:37-43 | A key absent before the fold is stored after it if and only if some item names it. It then holds the value of the first item that names it. |
| StatsReader.FoldIdempotent | lib/reader.rb:37-43 | Entering the same blocks twice changes nothing more. |
| StatsReader.FoldAppend | lib/reader.rb:24-30 | Entering `a + b` is entering `a`, then `b`. |
| StatsReader.AbsorbKeepsExisting | lib/reader.rb:42 | A stored section keeps its table whatever blocks follow. |
| StatsReader.AbsorbCovers | lib/reader.rb:22-43 | After parsing, every section named by some block is present. |
| StatsReader.AbsorbFirst | lib/reader.rb:22-43 | A section absent before parsing is present after it if and only if some block names it. It then holds the table of the first block that names it. |
| StatsReader.AbsorbIdempotent | lib/reader.rb:22-43 | Parsing the same input twice into one reader gives the map one parse gives. |
| Csv.ParseLines | lib/reader.rb:41 | A block of read lines parses into a table. Every line but the last ends in "\n", and the last may lack it. The columns come from the first line. There is one row per further line, in order, each built from that line's fields. |
| Csv.RecordsOfLines | lib/reader.rb:41 | The records of the joined lines are the lines without their terminators, whether or not the last line ends in "\n". |
| Csv.RowOfLookup | lib/reader.rb:41 | Reading a row under a column gives that column's cell, or nil for an empty cell or a short record. |
| Csv.RowOf | lib/reader.rb:41 | A row only has cells under column names of the header. |
| Csv.TableColumns | lib/reader.rb:41 | Every cell of a parsed table sits under one of its columns. |
| Csv.SplitLines | lib/reader.rb:41 | Splitting joined lines on "\n" gives the lines without their terminators. |
| Text.Strip | lib/reader.rb:67 | The result has no whitespace at either end. It is empty exactly for all-whitespace input. |
| Text.StripPadded | lib/reader.rb:67 | `strip` removes exactly the whitespace around a text. |
| Text.StripIdempotent | lib/reader.rb:67 | Stripping twice is stripping once. |
| Text.Lower | lib/device_utils.rb:7 | `downcase` maps each character separately and keeps the length. |
| Text.LowerIdempotent | lib/wrapper.rb:116-118 | Downcasing twice is downcasing once. |
| Text.ContainsIff | lib/device_utils.rb:7 | `include?` holds exactly when the text occurs at some position. |
| Text.JoinSplit | lib/reader.rb:41 | Joining the pieces of a split gives back the text, and no piece holds the separator. |
| Text.SplitJoin | lib/reader.rb:41 | Splitting a join of separator-free pieces gives back the pieces. |
| Text.SplitFirst | lib/reader.rb:41 | Splitting at the first separator. |
| Text.LeadingValueOfDigits | lib/wrapper.rb:25 | Reading digits left to right onto an accumulator equals the positional value of the digits. |
| Text.ToIOfDigits | lib/wrapper.rb:25 | On a digit string, `to_i` is its decimal value. |
| Text.ToFOfDigits | lib/wrapper.rb:26 | On a digit string, `to_f` equals `to_i`. |
| Text.IntegerExamples | lib/wrapper.rb:25 | `" -42 users".to_i` is -42, and `"abc".to_i` is 0. A null before the digits is not skipped, so `"\0" + "5"` reads as 0. |
| Text.NumberSpaceSkipped | lib/wrapper.rb:25-26 | Leading whitespace of the kind `to_i` and `to_f` skip changes neither reading, for every text. |
| Text.DecimalExample | lib/wrapper.rb:102 | `"12.5%".to_f` is 12.5. |
| Common.Select | lib/wrapper.rb:116-118 | `select` keeps no more elements than it is given, and every kept element passes. |
| Common.SelectMember | lib/wrapper.rb:116-118 | An element is kept if and only if it occurs in the input and passes. |
| Common.SelectAppend | lib/wrapper.rb:116-118 | `select` distributes over concatenation, so the input order is kept. |
| Common.SelectComplement | lib/device_utils.rb:16-18 | `select` and `reject` with the same test partition the input as a multiset. |
| DeviceUtils.IosDeviceIgnoresCase | lib/device_utils.rb:6-8 | The test is case-insensitive. |
| DeviceUtils.IosDeviceExamples | lib/device_utils.rb:6-8 | "iPad" and "IPOD" are iOS devices. |
| DeviceUtils.NotIosWithoutI | lib/device_utils.rb:6-8 | A name without the letter i, in either case, is never an iOS device. |
| DeviceUtils.FilterDevice | lib/device_utils.rb:13-22 | `:ios` keeps only iOS rows and `:android` only the others. Any other platform returns the table itself. A missing model cell fails under `:ios` and `:android`. |
| DeviceUtils.FilterDeviceMember | lib/device_utils.rb:13-22 | A row survives `:ios` if and only if it is in the table and is iOS. It survives `:android` if and only if it is in the table and is not iOS. |
| DeviceUtils.FilterDeviceComplement | lib/device_utils.rb:13-22 | The `:ios` and `:android` results partition the table. |
| DeviceUtils.FilterDeviceAppend | lib/device_utils.rb:13-22 | Filtering keeps table order. |
| DeviceUtils.FilterDeviceIdempotent | lib/device_utils.rb:13-22 | Filtering twice is filtering once. |
| Grouping.GroupBy | lib/wrapper.rb:152 | `group_by` never produces two entries with the same key. |
| Grouping.Insert | lib/wrapper.rb:152 | One step of `group_by` keeps the keys distinct. |
| Grouping.KeyIndex | lib/wrapper.rb:152 | A key is found at a position holding it, or else it occurs nowhere. |
| Grouping.WithKey | lib/wrapper.rb:152 | The elements with a key all carry that key. |
| Grouping.GroupByMembers | lib/wrapper.rb:152 | A key has a group if and only if some element has that key. Each group holds exactly those elements, in order. |
| Grouping.FirstIndexSpec | lib/wrapper.rb:152 | `FirstIndex` is the position of the first element with the key: the key is there and at no earlier position. |
| Grouping.GroupByOrder | lib/wrapper.rb:152 | The groups come in the order in which their keys first occur. A key without a group occurs nowhere. |
| Grouping.GroupByKeys | lib/wrapper.rb:152 | What holds of every element's key holds of every group's key. |
| Grouping.GroupByTotal | lib/wrapper.rb:46 | Grouping conserves the total weight of the elements. |
| Grouping.SumOfSelect | lib/wrapper.rb:52-59 | A test and its negation split a sum. |
| Grouping.MergeDisjoint | lib/wrapper.rb:41 | `merge` of hashes with no common key lays them end to end. |
| StatsWrapper.UsersOfMissing | lib/wrapper.rb:25-26 | A missing `Users` cell counts as 0 users. |
| StatsWrapper.FilterOs | lib/wrapper.rb:113-122 | Every row `:ios` keeps has a label mentioning "ios" once lower-cased, and every row `:android` keeps one mentioning "android". Other platforms keep the table. A missing label fails under `:ios` and `:android`, and only then. That the kept rows are exactly the matching ones, in table order, is `FilterOsMember` and `FilterOsAppend`. |
| StatsWrapper.FilterOsMember | lib/wrapper.rb:113-122 | A row survives if and only if it is in the table and its lower-cased label contains "android" or "ios" respectively. |
| StatsWrapper.FilterOsAppend | lib/wrapper.rb:113-122 | Filtering keeps table order. |
| StatsWrapper.RoundHalfAway | lib/wrapper.rb:145-147 | The nearest integer, with halves rounded away from zero. |
| StatsWrapper.RoundError | lib/wrapper.rb:145-147 | Rounding moves a value by at most half a unit of its last place. The result is a whole number of units. |
| StatsWrapper.AsPercentageBound | lib/wrapper.rb:142-149 | The percentage is the exact share to within 0.00005 below 0.01 percent, and to within 0.005 otherwise. It has four or two decimal places accordingly. |
| StatsWrapper.AsPercentageExamples | lib/wrapper.rb:142-149 | 1 of 3 is 33.33. 1 of 20000 is 0.005. 0.99995 of 100000 rounds up to 0.001. |
| StatsWrapper.MarkFrom | lib/wrapper.rb:152 | Finds the leftmost position from which the version pattern matches. |
| StatsWrapper.Digits12 | lib/wrapper.rb:152 | `[0-9]{1,2}` takes one or two digits, the second whenever it is present. |
| StatsWrapper.VersionKey | lib/wrapper.rb:151-157 | A key exists if and only if the pattern matches somewhere. It is the prefix followed by one or two digits. |
| StatsWrapper.VersionKeyLeftmost | lib/wrapper.rb:151-157 | The key is the text at the leftmost match. |
| StatsWrapper.VersionKeyExamples | lib/wrapper.rb:151-157 | "iOS 16.4.1" gives "iOS 16", "Android 9" gives "Android 9", and "iOS" gives none. |
| StatsWrapper.Unversioned | lib/wrapper.rb:152 | Reports a label without a version if and only if one exists, and the label it reports is such a label. |
| StatsWrapper.KeyOrPrefix | lib/wrapper.rb:152 | The grouping key starts with the platform prefix. |
| StatsWrapper.VersionGroupsKeys | lib/wrapper.rb:151-157 | Every group key is a major version: the prefix and one or two digits. |
| StatsWrapper.VersionGroupsMembers | lib/wrapper.rb:151-157 | Every filtered row has a version key, which is its group's key. Each group holds exactly the rows with its key, in table order, and is not empty. The groups come in the order in which their keys first occur. |
| StatsWrapper.VersionGroupsFailure | lib/wrapper.rb:151-157 | One platform's grouping fails on a missing version if and only if the filter succeeds and some kept label has no version. The error names such a label. |
| StatsWrapper.GroupedKeys | lib/wrapper.rb:32-42 | `os_grouped`'s groups are keyed by major version, with no key twice. For `:all` they are the Android groups followed by the iOS groups. |
| StatsWrapper.MergeGroups | lib/wrapper.rb:41 | Android and iOS groups share no key, so `merge` concatenates them. |
| StatsWrapper.IosGroupsCaseMismatch | lib/wrapper.rb:118 | An "IOS 16" row passes `filter_os(:ios)` and then stops `ios_os_group`. |
| StatsWrapper.OsTotalSplit | lib/wrapper.rb:52-59 | When every label names exactly one platform, the `:all` total is the iOS total plus the Android total. |
| StatsWrapper.VersionTotals | lib/wrapper.rb:18-30 | One record per filtered row, labelled as the row is and counting its users. The counts add up to `os_total`. Each percentage is the row's share to within rounding. |
| StatsWrapper.GroupedTotals | lib/wrapper.rb:32-50 | Group totals add up to `os_total`; for `:all` this needs every label to name one platform. Versions are major versions, none listed twice. |
| StatsWrapper.GroupRecordsFacts | lib/wrapper.rb:43-49 | One record per group, in order. Each is named by its group's key and totals its group's users, so the records conserve the users. |
| StatsWrapper.GroupedRecords | lib/wrapper.rb:32-49 | When `os_grouped` succeeds, its records follow the platform's groups one to one, each named by its group's key and totalling its users. |
| StatsWrapper.GroupedMembers | lib/wrapper.rb:32-50 | For `:ios` and `:android`: each record totals the users of exactly the filtered rows whose version key is its version, and there is at least one such row. Every filtered row's key is some record's version. Records come in the order in which their versions first occur. |
| StatsWrapper.RecordsMembers | lib/wrapper.rb:43-49 | Records that follow groups one to one inherit what the groups say of the rows: totals, naming and order. |
| StatsWrapper.GroupedBothTotals | lib/wrapper.rb:40-49 | Without a platform filter, each record totals the users of the Android rows plus the iOS rows whose key is its version. |
| StatsWrapper.GroupedBothNamed | lib/wrapper.rb:40-49 | Without a platform filter, every Android row's key and every iOS row's key is some record's version. |
| StatsWrapper.GroupedBothOrder | lib/wrapper.rb:40-49 | Without a platform filter, the Android versions come first, in their order of first occurrence among the Android rows. The iOS versions follow, in their order among the iOS rows. |
| StatsWrapper.BothTotals | lib/wrapper.rb:41 | Records over merged Android and iOS groups each total the users of both platforms' rows keyed by their version. |
| StatsWrapper.BothNamed | lib/wrapper.rb:41 | Records over merged Android and iOS groups name every row's key. |
| StatsWrapper.BothOrder | lib/wrapper.rb:41 | Records over merged Android and iOS groups list the Android versions first, each platform in its own order of first occurrence. |
| StatsWrapper.ForeignKey | lib/wrapper.rb:41 | A key starting with another letter than a platform's keys keys none of its rows. |
| StatsWrapper.GroupedFailure | lib/wrapper.rb:32-42 | `os_grouped` fails on a missing version if and only if the section is present, every row is labelled, and some row the grouping walks has a label without a version. The error names such a label. |
| StatsWrapper.ListingFault | lib/wrapper.rb:43-49 | Given a known total, the loop of `os_grouped` fails only on a zero total. |
| StatsWrapper.MissingOsSection | lib/wrapper.rb:18-59 | `os_version`, `os_total` and `os_grouped` fail for want of their section if and only if it was never parsed. |
| StatsWrapper.MissingSection | lib/wrapper.rb:61-107 | `devices`, `gender` and `gender_age` fail for want of their section if and only if it was never parsed. |
| StatsWrapper.GroupsTotal | lib/wrapper.rb:32-46 | The groups hold exactly the users of the filtered rows. |
| StatsWrapper.MergedTotal | lib/wrapper.rb:41 | The merged groups hold every row's users. |
| StatsWrapper.DevicesListing | lib/wrapper.rb:61-82 | Keeps the first `limit` (default 10) platform rows, in order, each with its model and users. A friendly name is the looked-up name, or the model when the lookup finds none. See the note after the table. |
| StatsWrapper.GenderCells | lib/wrapper.rb:84-94 | One record per row, both cells as read. It fails exactly when the section is missing. |
| StatsWrapper.PercentBound | lib/wrapper.rb:102-103 | `(f * 100).round(2)` is within 0.005 of the exact percentage and has two places. |
| StatsWrapper.AgeRecordShares | lib/wrapper.rb:100-104 | An entry carries the row's category and both shares. |
| StatsWrapper.AgeShares | lib/wrapper.rb:96-107 | One entry per row, in order, with its category and two shares. |
| StatsWrapper.Wrapper.constructor | lib/wrapper.rb:12-16 | The wrapper keeps its reader and platform. |
| StatsWrapper.Wrapper.OsTotal | lib/wrapper.rb:52-59 | The accumulating loop returns the users of the filtered rows, summed. |
| StatsWrapper.Wrapper.OsVersion | lib/wrapper.rb:18-30 | Returns `OsVersionOf`, the listing `VersionTotals` describes. |
| StatsWrapper.Wrapper.VersionEntries | lib/wrapper.rb:22-28 | The loop, taking `os_total` for each row, gives one record per row. |
| StatsWrapper.Wrapper.OsGrouped | lib/wrapper.rb:32-50 | Returns `OsGroupedOf`, the listing `GroupedTotals` describes. |
| StatsWrapper.Wrapper.GroupEntries | lib/wrapper.rb:43-49 | The loop gives one record per group. |
| StatsWrapper.Wrapper.Devices | lib/wrapper.rb:61-82 | Returns `DevicesOf`, the listing `DevicesListing` describes. |
| StatsWrapper.Wrapper.DeviceEntries | lib/wrapper.rb:64-81 | The loop gives one record per row, with the friendly name exactly when one is requested. |
| StatsWrapper.Wrapper.Gender | lib/wrapper.rb:84-94 | Returns `GenderOf`, the listing `GenderCells` describes. |
| StatsWrapper.Wrapper.GenderAge | lib/wrapper.rb:96-107 | Returns `GenderAgeOf`, the listing `AgeShares` describes. |

More detail on `StatsWrapper.DevicesListing`:

- A friendly name is present exactly when one is requested on `:all` or `:android`.
- An `:ios` listing holds only iOS devices, and an `:android` listing holds none.
- A negative limit fails.

## Left out

- `parse_file` is not modelled: it reads a file, and `Reader.Parse` takes the lines directly.
- `Android::Devices.search_by_model` is the `lookup` parameter of `Wrapper.Devices`. The device catalogue is not part of this model.
- The wrapper's private copies of `filter_device` and `ios_device?` (lib/wrapper.rb:126-140) are modelled once, in `DeviceUtils`.
- The Data-Not-Found and Section-Not-Found error classes are not part of this model. The model returns `Fault` values where the code raises.
- Csv.ParseTable: models only the subset of CSV the export uses. There is no quoting, no escaped separators and no "\r\n" line ends; a record ends at "\n" and fields are separated by ",".
- Text.Lower: ASCII letters only, not Ruby's full Unicode `downcase`.
- Text.Strip: strips the ASCII whitespace Ruby's `strip` removes, with no Unicode spaces.
- Text.ToI: no underscores between digits and no other radixes.
- Text.ToF: no underscores and no exponents.
- StatsWrapper.AsPercentage: exact real arithmetic instead of IEEE doubles, and it requires a non-zero total. With a zero total Ruby divides to Infinity or NaN; the callers return `ZeroTotal` instead.
- StatsWrapper.Round: takes the scale `10^k` (100.0, 10000.0) rather than the digit count `k`.
- StatsWrapper.DevicesOf: `limit || 10` also replaces `false`, which is not modelled; the limit is an optional integer.
