# The mini_logger_writer model

`mini_logger_writer` reads samples from a seismometer interface over a serial line, packs them into records
and keeps the records of the last hours in a ring of miniseed files. This project models the parts of it that
carry state, and proves what they keep:

- **Settings** (`settings.c` over `strmap.c`). `HashTable` is the table on values and `StrMaps` the class with
  its buckets; `SettingsText` says what a settings text means line by line, `SettingsLines` what each form of line
  does and what is printed, character by character, `SettingsScan` holds the scanners over C strings,
  `SettingsObjects` the class. Main results: the table refines a map
  (`RunRefines`, `StrMap.Put`), the parser means the last assignment of every key (`ParserMeaning`), and
  printing and parsing undo each other down to the order in every bucket, exactly when keys and values are
  short, section lines fit their buffer and the settings can be described by a text at all (`RoundTrip`,
  `Normalisation`).
- **Serial lines** (`read_next_value`). `LineReader` is the two-phase reader over an arbitrary schedule of polls,
  `LineStream` shows that it splits the byte stream at line ends whatever the schedule (`CallsReadPieces`), and
  exactly when the bytes it reads are those that came (`BytesAreGot`).
- **File names and directories** (`hptime2timestr`, `make_mseed_filepath`). `Calendar` has `gmtime` as the
  inverse of the POSIX formula, `FileNames` shows that names sort in time order, `DateTree` has the creation and
  pruning of date directories.
- **The store** (`collect_and_write`, `main`, `term_handler`). `Store` is a state machine whose steps are the
  statements that follow a record, so that a termination signal may come between any two of them; `StateDump`
  is the state file. `StoreRuns` has what holds on every run, `EarlyFiles` what becomes of files that start at
  or before the epoch, `Retention`, `RetentionSize` and `RetainedContents` which files an uninterrupted run keeps
  and what is in them. The index of the ring moves once a record but a slot is taken once a file, so this is
  number theory: with M slots and R records in a file the ring keeps M / gcd(M, R) files.
- **The sample clock** (the averaging in `collect_and_write` that the program's own README calls complicated). `Estimator`
  has the code over reals with its two roundings, `IdealClock` the same without them, `ErrorDynamics` the linear
  system the errors follow. A quadratic form of the errors shrinks by an exact factor with every record, which gives
  convergence without noise, and with noise a bound for all time and a level that every run settles to.
- **The loops themselves.** `Recorder` has the nested loops as methods of a class, proved against the statements of
  `Store` and the filter of `Estimator`; `RecorderRuns` shows that they are runs of the store, and `ConnectionFiles`
  brings the results together: which files a connection leaves on disk, when they start and what they hold.

Conventions: times are integers in microseconds since the epoch (`hptime_t`), as in the program; numbers are
unbounded except where the program's widths matter (the hash, `atol` and `atoi`); a C string is the text before
the first terminator of a character array. Inputs from outside - timestamps, bytes, allocation failures, the hash
function - are parameters, and results hold for all of them.

## Model

| member | source | states |
|---|---|---|
| `HashTable.Hash` | mini_logger_writer/settings/strmap.c:336-345 | the hash of a key is its polynomial in 33, wrapped once at the end: wrapping to a word after every character, as the loop does, loses nothing |
| `HashTable.Djb2Sum` | mini_logger_writer/settings/strmap.c:336-345 | that polynomial is 5381 * 33^n plus the sum of each character code times 33 to the number of characters behind it |
| `HashTable.LookupRefines` | mini_logger_writer/settings/strmap.c:109-159 | looking a key up in its bucket is looking it up in the map the table stands for |
| `HashTable.PutRefines` | mini_logger_writer/settings/strmap.c:161-245 | storing a pair updates the map at that key and nowhere else, and keeps every key in its bucket, once |
| `HashTable.PutLookup` | mini_logger_writer/settings/strmap.c:161-245 | after a put, the stored key has the new value and every other key the value it had |
| `HashTable.EnumeratesMap` | mini_logger_writer/settings/strmap.c:276-304 | enumeration visits exactly the pairs of the map, no key twice |
| `HashTable.CountIsSize` | mini_logger_writer/settings/strmap.c:247-274 | the number of pairs in the chains is the size of the map |
| `HashTable.Rebuild` | mini_logger_writer/settings/strmap.c:161-304 | putting the enumerated pairs into an empty table of the same capacity rebuilds every chain, in order |
| `HashTable.RunRefines` | mini_logger_writer/settings/strmap.c:61-245 | any sequence of puts on a new table gives the map of the last value put for each key |
| `StrMaps.StrMap.constructor` | mini_logger_writer/settings/strmap.c:61-77 | a new table has the asked number of empty buckets |
| `StrMaps.StrMap.GetPair` | mini_logger_writer/settings/strmap.c:310-331 | the position of the first pair with the key, or the chain length |
| `StrMaps.StrMap.Get` | mini_logger_writer/settings/strmap.c:109-138 | copies the stored value if the buffer holds it with its terminator, answers the needed size without a buffer, and leaves the buffer alone otherwise |
| `StrMaps.StrMap.Exists` | mini_logger_writer/settings/strmap.c:140-159 | true exactly for keys of the map |
| `StrMaps.StrMap.Put` | mini_logger_writer/settings/strmap.c:161-245 | the table becomes the updated map in the exact layout of the specification, or stays as it was when an allocation is refused; it succeeds exactly when the allocations it needs are granted |
| `StrMaps.StrMap.Replace` | mini_logger_writer/settings/strmap.c:183-200 | a value no longer than the old one is copied in place and fits its room; a longer one needs a new room |
| `StrMaps.StrMap.Append` | mini_logger_writer/settings/strmap.c:201-244 | a new pair goes to the end of its chain, or nothing changes |
| `StrMaps.StrMap.GetCount` | mini_logger_writer/settings/strmap.c:247-274 | the counted pairs are as many as the keys of the map |
| `StrMaps.StrMap.Enum` | mini_logger_writer/settings/strmap.c:276-304 | hands every pair to the callback, bucket by bucket and in chain order |
| `SettingsText.TrimSplit` | mini_logger_writer/settings/settings.c:345-367 | trimming removes blanks at both ends and nothing else |
| `SettingsText.TrimIs` | mini_logger_writer/settings/settings.c:345-367 | the trimmed text is the only one without outer blanks that can be had so |
| `SettingsScan.TrimStr` | mini_logger_writer/settings/settings.c:345-367 | the buffer holds the trimmed text; the backward scan never passes the start |
| `SettingsScan.IsBlankStr` | mini_logger_writer/settings/settings.c:436-444 | true exactly for texts of blanks |
| `SettingsScan.IsCommentStr` | mini_logger_writer/settings/settings.c:449-457 | true exactly for texts that start with `#` |
| `SettingsScan.IsSectionStr` | mini_logger_writer/settings/settings.c:462-475 | true exactly for texts that start with `[` and hold a `]` |
| `SettingsScan.IsKeyValueStr` | mini_logger_writer/settings/settings.c:480-493 | true exactly for texts with a `=` that is not their first character |
| `SettingsScan.IsKeyWithoutValueStr` | mini_logger_writer/settings/settings.c:498-511 | true exactly for texts without `=` |
| `SettingsScan.GetSectionFromStr` | mini_logger_writer/settings/settings.c:517-539 | copies the name between the brackets, or fails exactly when it does not fit |
| `SettingsScan.GetKeyValueFromStr` | mini_logger_writer/settings/settings.c:545-607 | splits at the first `=`, drops the blanks around it, and fails exactly when a part does not fit its buffer |
| `SettingsScan.EndKey` | mini_logger_writer/settings/settings.c:571-575 | drops the blanks at the end of the key in place; the backward scan stops inside the buffer |
| `SettingsScan.GetKeyWithoutValueFromStr` | mini_logger_writer/settings/settings.c:613-638 | copies the whole text, or fails exactly when it does not fit |
| `SettingsObjects.Settings.GetSection` | mini_logger_writer/settings/settings.c:772-789 | finds the first section of that name |
| `SettingsObjects.Settings.Get` | mini_logger_writer/settings/settings.c:195-206 | copies the value stored under section and key if it fits the buffer |
| `SettingsObjects.Settings.Set` | mini_logger_writer/settings/settings.c:279-316 | stores the pair, opening the section at the end if it is new; only an unnamed section is refused, and then nothing changes |
| `SettingsObjects.Settings.ParseStr` | mini_logger_writer/settings/settings.c:380-424 | one trimmed line changes sections and current header exactly as the line's meaning says, or is refused |
| `SettingsObjects.Settings.Save` | mini_logger_writer/settings/settings.c:159-182 | prints every section under its header, pair by pair in enumeration order, or nothing that is defined when a section line does not fit the line buffer |
| `SettingsObjects.Open` | mini_logger_writer/settings/settings.c:129-157 | a settings object is built exactly when the text loads, and it is the one the text describes |
| `SettingsMeaning.ParserMeaning` | mini_logger_writer/settings/settings.c:129-157 | a text loads exactly when no line is malformed and every entry has a named header above it; each section and key then have the value of their last assignment, and sections stand in the order of their first entries |
| `SettingsLines.AssignmentLine` | mini_logger_writer/settings/settings.c:545-607 | on raw text: `key=value` under a named header, blanks, tabs and carriage returns anywhere around key and value, gives that section's key the value and changes nothing else |
| `SettingsLines.KeyLine` | mini_logger_writer/settings/settings.c:613-638 | a key alone gets the empty value |
| `SettingsLines.KeyWithoutHeader` | mini_logger_writer/settings/settings.c:401-418 | either of them without a header, or under one without a name, makes the parser refuse the text |
| `SettingsLines.SectionLine` | mini_logger_writer/settings/settings.c:517-539 | `[name]` is the header of what follows, whatever else stands on the line behind it |
| `SettingsLines.NamelessLine` | mini_logger_writer/settings/settings.c:480-511 | a line that starts with `=` makes the parser refuse the text |
| `SettingsLines.CommentLine` | mini_logger_writer/settings/settings.c:449-457 | a comment changes nothing |
| `SettingsLines.LineOfBlanks` | mini_logger_writer/settings/settings.c:436-444 | a line of blanks, tabs and carriage returns changes nothing |
| `SettingsLines.TerminatedLine` | mini_logger_writer/settings/settings.c:148-149 | of a line with a null character only what stands before it is read |
| `SettingsLines.LongLine` | mini_logger_writer/settings/settings.c:148-149 | a line longer than the buffer is read in pieces of 16383 characters, each as a line of its own |
| `SettingsMeaning.SetInValue` | mini_logger_writer/settings/settings.c:279-316 | a set gives the one key of the one section its value, leaves all others, and adds the section at the end only if it is new |
| `SettingsMeaning.ParseIsRun` | mini_logger_writer/settings/settings.c:148-155 | reading through the line buffer is reading line by line |
| `SettingsRoundTrip.LoadWellFormed` | mini_logger_writer/settings/settings.c:129-157 | whatever loads is well-formed: distinct non-empty sections of 256 buckets, printable names, keys and values |
| `SettingsRoundTrip.LoadOfSave` | mini_logger_writer/settings/settings.c:129-182 | loading what was printed gives back every section, bucket and chain, in order, less what is too long: a key has its value if both have fewer than 256 characters, and none otherwise; it is printed exactly when no section name has more than 16380 characters |
| `SettingsRoundTrip.RoundTrip` | mini_logger_writer/settings/settings.c:129-182 | print, then load is the identity exactly on the well-formed settings with keys and values under 256 characters and section names of at most 16380 |
| `SettingsRoundTrip.LongNameLoads` | mini_logger_writer/settings/settings.c:129-182 | a section name of 16381 characters loads, and its settings would load back from their own text, but the section line is one character too long for the line buffer |
| `SettingsRoundTrip.Normalisation` | mini_logger_writer/settings/settings.c:129-182 | every text that loads is printed exactly when no section name is too long; loading that gives the same settings exactly when all keys and values have fewer than 256 characters, and what is then printed is printed again byte for byte |
| `SettingsRoundTrip.SectionRebuilt` | mini_logger_writer/settings/settings.c:795-810 | re-inserting a printed section rebuilds its chains exactly |
| `SettingsLines.PrintedSection` | mini_logger_writer/settings/settings.c:795-810 | a section prints as `[name]`, then one line `key=value` for exactly the pairs of fewer than 256 characters each, every key once, then an empty line |
| `SettingsLines.PrintedSections` | mini_logger_writer/settings/settings.c:159-182 | settings print as their sections, one after the other |
| `Numbers.ReadsBack` | mini_logger_writer/settings/settings.c:689-714 | decimal text reads back as the number, for every long and every int |
| `Numbers.ParseReads` | mini_logger_writer/settings/settings.c:689-714 | any text reads as the digits behind white space and a sign, up to the first character that is no digit, and as zero without digits |
| `Numbers.Ranges` | mini_logger_writer/settings/settings.c:689-714 | a long stops at the ends of its range, an int is the long modulo 2^32 |
| `SettingsValues.GetConvertedValue` | mini_logger_writer/settings/settings.c:689-714 | converts, to an int or a long, exactly values that are short enough and hold digits and minus signs only |
| `SettingsValues.GetInt` | mini_logger_writer/settings/settings.c:221-230 | the stored number, if the value is short and has digits and minus signs only, or else the smallest int |
| `SettingsValues.GetLong` | mini_logger_writer/settings/settings.c:232-241 | the stored number as a long, or the smallest int when there is none |
| `SettingsValues.IntRoundTrip` | mini_logger_writer/settings/settings.c:221-241 | storing the decimal text of any int or long and reading the setting gives the number back, whatever else is stored |
| `SettingsValues.GetToken` | mini_logger_writer/settings/settings.c:656-681 | ends the next token in place and leaves the rest of the text after it |
| `SettingsValues.GetIntTuple` | mini_logger_writer/settings/settings.c:723-767 | count and numbers of the comma-separated tokens, at most the limit; none if one of them is not a number |
| `SettingsValues.TupleRoundTrip` | mini_logger_writer/settings/settings.c:723-767 | storing a list printed with commas and reading the setting gives its first elements up to the limit, whatever else is stored; none when the text has 256 characters or more |
| `LineReader.SerialPort.ReadNextValue` | mini_logger_writer/minisepdevice.c:275-334 | the value of the line the polls complete; a timeout exactly when the line is not completed before the sleeps of 10 ms add up to the timeout; and, timeout or not, which polls are used up |
| `LineReader.SerialPort.SkipLineEnds` | mini_logger_writer/minisepdevice.c:288-304 | skips leading line ends and takes the first byte of the line; ends on every finite schedule |
| `LineReader.SerialPort.ReadLine` | mini_logger_writer/minisepdevice.c:312-325 | reads to the line end or to a full buffer, adding to the sleep of the first loop |
| `LineReader.EachPoll` | mini_logger_writer/minisepdevice.c:288-323 | what a poll does to the line: nothing ready and end of file cost a sleep, an error of `read` costs one before the first byte and repeats the last byte after it, a line end ends a line that has begun |
| `LineStream.CutKeeps` | mini_logger_writer/minisepdevice.c:277-325 | cutting long lines at the buffer size loses and repeats no byte |
| `LineStream.LinesAre` | mini_logger_writer/minisepdevice.c:288-323 | lines are what stands between carriage returns and newlines, empty ones left out |
| `LineStream.TakeFirstPiece` | mini_logger_writer/minisepdevice.c:285-334 | one call takes the first line (or buffer full) of the bytes and leaves the bytes of all later ones |
| `LineStream.CallsReadPieces` | mini_logger_writer/minisepdevice.c:275-334 | calls that do not time out return the values of the non-empty lines in order, longer ones cut at 32 characters |
| `LineStream.BytesAreGot` | mini_logger_writer/minisepdevice.c:288-323 | the bytes read are those that came, in order, exactly when no error of `read` comes inside a line |
| `LineStream.CallsReadLines` | mini_logger_writer/minisepdevice.c:275-334 | without a read error inside a line and with lines of at most 32 characters the values are those of the lines themselves |
| `LineStream.ScheduleIndependent` | mini_logger_writer/minisepdevice.c:288-323 | the same bytes give the same values under any two schedules of ready and not-ready polls |
| `LineStream.DeviceValuesRead` | mini_logger_writer/minisepdevice.c:275-334 | values a device prints one a line are the values read, in order |
| `LineStream.ReadErrorRepeatsByte` | mini_logger_writer/minisepdevice.c:312-323 | an input where it fails, since only zero is taken for failure inside a line: `1`, failure, newline reads as 11 |
| `Calendar.Gmtime` | mini_logger_writer/mini_logger_writer.c:552-553 | every number of seconds, negative ones too, has a valid date and time whose seconds since the epoch (section 4.16 of POSIX.1-2017 Base Definitions) it is |
| `Calendar.GmtimeUnique` | mini_logger_writer/mini_logger_writer.c:552-553 | no other valid date and time has that number of seconds |
| `Calendar.PosixFormula` | mini_logger_writer/mini_logger_writer.c:552-553 | the seconds of a broken-down time are those of the formula of POSIX, with the days before each month from its table |
| `Calendar.Epoch` | mini_logger_writer/mini_logger_writer.c:552-553 | time zero is the first of January 1970 |
| `FileNames.Hptime2TimeStr` | mini_logger_writer/mini_logger_writer.c:533-578 | whatever calendar time has these seconds: the name shows year, month, day, hour, minute, second and millisecond, each in its place behind a dot and read back from its digits, and the date path year to minute behind slashes; nothing exactly for years that do not fit four characters |
| `FileNames.NamesKeepTimeOrder` | mini_logger_writer/mini_logger_writer.c:533-578 | for years 0 to 9999: names compare as the milliseconds of their times, and agree only within one millisecond |
| `FileNames.NamesDistinct` | mini_logger_writer/mini_logger_writer.c:533-578 | for all years printed in four characters, times share a name exactly in one millisecond |
| `FileNames.MinusYearsReversed` | mini_logger_writer/mini_logger_writer.c:558-560 | names of years with a minus sign sort against time |
| `FileNames.ParentPath` | mini_logger_writer/mini_logger_writer.c:703-727 | cutting three characters off a date path gives the path of the directory above |
| `FileNames.PathsDistinct` | mini_logger_writer/mini_logger_writer.c:571-573 | different directories have different paths, for all years printed in four characters |
| `Store.PathOfIs` | mini_logger_writer/mini_logger_writer.c:632-660 | a file is in the directory of its calendar year, month, day, hour and minute, under its millisecond |
| `Store.PathIsName` | mini_logger_writer/mini_logger_writer.c:632-639 | two files share this path exactly when they share the printed name |
| `DateTree.MakeDirs` | mini_logger_writer/mini_logger_writer.c:648-702 | the five calls of mkdir make exactly the missing directories on the way down |
| `DateTree.RemoveDirs` | mini_logger_writer/mini_logger_writer.c:703-727 | the loop of rmdir removes directories upward until the first that is in use |
| `DateTree.PruneKeeps` | mini_logger_writer/mini_logger_writer.c:703-727 | pruning removes the minute directory exactly when it holds no file, no other minute directory, and leaves no directory above empty |
| `DateTree.CreateKeeps` | mini_logger_writer/mini_logger_writer.c:648-702 | creating a path adds its one minute directory and leaves no directory empty |
| `StateDump.SaveState` | mini_logger_writer/mini_logger_writer.c:339-357 | writes the index and the ring once around from the index |
| `StateDump.LoadState` | mini_logger_writer/mini_logger_writer.c:424-447 | fills the ring from the index on, wrapping, or leaves it empty when the file or its index is no good |
| `StateDump.DumpRestore` | mini_logger_writer/mini_logger_writer.c:339-447 | restoring what was saved gives back the index and every time |
| `StateDump.ScanReads` | mini_logger_writer/mini_logger_writer.c:432-447 | a number of the state file is read as the digits behind white space and a sign; without digits reading ends |
| `StateDump.RestoreHoldsLast` | mini_logger_writer/mini_logger_writer.c:432-447 | however many times the file holds, a ring of m keeps the last m of them in their slots and leaves the others empty |
| `Store.InitialInv` | mini_logger_writer/mini_logger_writer.c:421-447 | a fresh store is in order |
| `Store.EvictKeeps` | mini_logger_writer/mini_logger_writer.c:874-887 | once the slot's file and emptied directories are removed, the other slots account for all that is on disk |
| `Store.ClaimKeeps` | mini_logger_writer/mini_logger_writer.c:888-889 | taking the slot over disturbs no file of another slot |
| `Store.WriteSamples` | mini_logger_writer/mini_logger_writer.c:898-911 | writing a record moves the buffer to the end of the temporary file, or starts that with it |
| `Store.MoveStep` | mini_logger_writer/mini_logger_writer.c:911-921 | a full temporary file becomes the permanent file of its start time |
| `Store.RestartKeeps` | mini_logger_writer/mini_logger_writer.c:339-447 | a termination and restart keep the invariant and change the buffers only |
| `Store.StepKeeps` | mini_logger_writer/mini_logger_writer.c:748-940 | every statement, sample, device error, signal and restart keeps the invariant of ring, counter, disk, tree and samples, whatever the start times; the part that slots account for the whole disk needs starts after the epoch |
| `StoreRuns.StoreSafety` | mini_logger_writer/mini_logger_writer.c:874-926 | on every run without a start at or before the epoch each permanent file is named by a slot, so there are never more files than slots, and each minute directory is that of a slot's time |
| `StoreRuns.TreeSafety` | mini_logger_writer/mini_logger_writer.c:632-733 | on every run, whatever the start times, no year, month, day or hour directory is empty, each minute directory is that of a slot's time or of one at or before the epoch, and every file has its directory |
| `StoreRuns.SampleConservation` | mini_logger_writer/mini_logger_writer.c:792-926 | on every run, whatever the start times, the samples read are those of the completed files, the temporary file and the buffer, in order; every file kept is whole |
| `StoreRuns.RenameSucceeds` | mini_logger_writer/mini_logger_writer.c:911-921 | on every run, whenever a file is complete its directory is there, so the rename puts it in place |
| `StoreRuns.ErrorKeepsStore` | mini_logger_writer/mini_logger_writer.c:802-807 | a device error loses exactly the samples taken since the last completed file - on every run those of the temporary file and the buffer, less than a file of them - and the store after it is in order, with files, tree, ring and index as they were |
| `StoreRuns.RestartKeepsStore` | mini_logger_writer/mini_logger_writer.c:339-447 | termination at any statement and the restart after it leave files, tree, ring and index as they were |
| `StoreRuns.UnnamedAreEarly` | mini_logger_writer/mini_logger_writer.c:874-921 | on every run, whatever the start times, a file that no slot names began at or before the epoch, and the file being written keeps its slot |
| `EarlyFiles.TakenOver` | mini_logger_writer/mini_logger_writer.c:874-889 | taking a slot over leaves its file on disk exactly when that began at or before the epoch, and then no slot names it |
| `EarlyFiles.EarlyFilesStay` | mini_logger_writer/mini_logger_writer.c:877-887 | on every run a file that began before the epoch stays on disk for good |
| `EarlyFiles.EarlyFileStays` | mini_logger_writer/mini_logger_writer.c:874-926 | a run on the smallest ring where two files are on disk for one slot, exactly when the first began at or before the epoch |
| `NumberTheory.StridePeriod` | mini_logger_writer/mini_logger_writer.c:926 | strides of r around a ring of m return to a slot exactly after multiples of m / gcd(m, r) |
| `NumberTheory.GcdGreatest` | mini_logger_writer/mini_logger_writer.c:926 | every common divisor of two numbers divides the one computed, so it is the greatest |
| `Retention.SameSlot` | mini_logger_writer/mini_logger_writer.c:874-926 | two files share a slot exactly when that period divides their distance |
| `Retention.EvictsPeriodEarlier` | mini_logger_writer/mini_logger_writer.c:874-887 | starting a file removes exactly the file a period earlier, if that began after the epoch |
| `Retention.RetainedFiles` | mini_logger_writer/mini_logger_writer.c:874-926 | in every uninterrupted run from an empty ring, file k is in slot s0 + kR and while it is written file j is on disk exactly when it is one of the M / gcd(M, R) - 1 before it or began at or before the epoch |
| `RetainedContents.KeptAsCompleted` | mini_logger_writer/mini_logger_writer.c:874-926 | in every such run each file kept holds the records it was completed with |
| `RetentionSize.RingCovers` | mini_logger_writer/mini_logger_writer.c:421-422 | the files of a full ring span at most hours * 3600 * rate samples and one more would not; the ring has slots exactly when a file fits |
| `RetentionSize.ShippedRing` | mini_logger_writer/mini_logger_writer.c:421-422 | the shipped settings, a sixth of an hour at rate 20 with 228 samples in a record and 3 records in a file, give a ring of 17 slots |
| `RetentionSize.FullRing` | mini_logger_writer/mini_logger_writer.c:874-926 | all slots are used exactly when ring size and records in a file have no common divisor |
| `RetentionSize.SharedStride` | mini_logger_writer/mini_logger_writer.c:874-926 | with 3 records a file, a ring of 18 slots never keeps more than 5 files beside the open one, a ring of 17 keeps 16 once full |
| `RetentionSize.RetainedCount` | mini_logger_writer/mini_logger_writer.c:874-926 | how many permanent files there are while a file is written: up to the period less one, and older ones from before the epoch |
| `RetentionSize.HoursKept` | mini_logger_writer/mini_logger_writer.c:421-422 | with no common divisor, the files on disk and the open one span at most hours * 3600 * rate samples, and one more would not |
| `Estimator.MeanIndexRange` | mini_logger_writer/mini_logger_writer.c:819-830 | the mean index of the samples used is a fraction between 0 and 1 of the record |
| `HpTime.TowardZero` | mini_logger_writer/mini_logger_writer.c:831-843 | conversions of fractions to whole ticks, and the divisions of times, drop the fraction toward zero |
| `Estimator.MeasuredNear` | mini_logger_writer/mini_logger_writer.c:819-830 | the measured start is the true start plus the window's error at the mean index, up to the jitter and half a tick |
| `IdealClock.MeasuredRounding` | mini_logger_writer/mini_logger_writer.c:819-830 | rounding the offsets moves the measured start by half a tick at most |
| `IdealClock.IdealMeasured` | mini_logger_writer/mini_logger_writer.c:819-830 | with ideal timestamps and real arithmetic the measured start is the true one and the window's error at the mean index |
| `IdealClock.IdealFirst` | mini_logger_writer/mini_logger_writer.c:834-842 | the first record then leaves the window and puts the mean part of its error into the start |
| `IdealClock.IdealRecord` | mini_logger_writer/mini_logger_writer.c:830-846 | and every record after it is exactly one step of the linear system |
| `IdealClock.IdealErrors` | mini_logger_writer/mini_logger_writer.c:792-846 | so after k more records the errors are those after k steps, as long as the starts are after the epoch |
| `IdealClock.IdealStarts` | mini_logger_writer/mini_logger_writer.c:792-846 | which they are on the whole run when the first window's error is small against the time since the epoch |
| `IdealClock.IdealEnergy` | mini_logger_writer/mini_logger_writer.c:792-846 | after k more records the energy of the errors is exactly (1 - (1 + c) a)^k times the first one |
| `IdealClock.IdealConverges` | mini_logger_writer/mini_logger_writer.c:770-846 | with the program's decay constant both errors converge to zero on every such run |
| `Estimator.RecordIsStep` | mini_logger_writer/mini_logger_writer.c:830-846 | each record after the first moves the errors of window and start exactly as a linear system does, disturbed by the measured start's error and the rounding |
| `Estimator.FirstRecord` | mini_logger_writer/mini_logger_writer.c:834-842 | the first record leaves the window's error as it is and puts its mean part into the start, up to the jitter and one and a half ticks of rounding |
| `Estimator.ProgramStable` | mini_logger_writer/mini_logger_writer.c:770-773 | the program's decay constant, one over the samples of a minute, is in the stable range for every nominal rate and record length |
| `Estimator.StartsStayTrue` | mini_logger_writer/mini_logger_writer.c:792-846 | on runs of any length, with timestamps off by at most a jitter and starts rounded to ticks, the energy of the errors stays below a level fixed by jitter and gains |
| `Estimator.RunOfErrors` | mini_logger_writer/mini_logger_writer.c:792-846 | with jitter and rounding the run of the errors is a run of the linear system, disturbed within the bounds record by record |
| `Estimator.StartsSettle` | mini_logger_writer/mini_logger_writer.c:792-846 | whatever the first error, after enough records the energy is within any margin of a level fixed by jitter and gains alone |
| `Estimator.SomeLevelFits` | mini_logger_writer/mini_logger_writer.c:770-846 | such a level exists for the program's gains, every jitter and every first error, for windows and times from some size on |
| `Estimator.TracksBounds` | mini_logger_writer/mini_logger_writer.c:830-846 | below that level window and start are off by at most fixed amounts |
| `Estimator.RecordBetween` | mini_logger_writer/mini_logger_writer.c:831-843 | a record whose measured window is within bounds keeps the window within them and steps within them |
| `Estimator.StartsIncrease` | mini_logger_writer/mini_logger_writer.c:831-843 | on every run with measured windows within bounds, so are all windows, and starts strictly increase in steps between them, up to half a tick |
| `ErrorDynamics.StableBound` | mini_logger_writer/mini_logger_writer.c:770-773 | the energy is positive for every error but none exactly when a < 4 / (c + 2)^2 |
| `ErrorDynamics.StableIsPositive` | mini_logger_writer/mini_logger_writer.c:770-773 | the energy is positive definite exactly for stable gains |
| `ErrorDynamics.EnergyShrinks` | mini_logger_writer/mini_logger_writer.c:830-846 | a step without disturbance multiplies V = (1 - (1 + c) a) d^2 + c a d e + a e^2 by exactly 1 - (1 + c) a |
| `ErrorDynamics.EnergyBounds` | mini_logger_writer/mini_logger_writer.c:830-846 | V bounds the squares of both errors |
| `ErrorDynamics.DisturbedEnergy` | mini_logger_writer/mini_logger_writer.c:830-846 | how much a disturbed record can add to the energy |
| `ErrorDynamics.LevelKept` | mini_logger_writer/mini_logger_writer.c:830-846 | a record never takes the energy from below the level to above it |
| `ErrorDynamics.LevelExists` | mini_logger_writer/mini_logger_writer.c:830-846 | such a level exists for every jitter and all stable gains |
| `ErrorDynamics.NoDrift` | mini_logger_writer/mini_logger_writer.c:792-846 | on disturbed runs of any length the energy stays below the level |
| `ErrorDynamics.RunsSettle` | mini_logger_writer/mini_logger_writer.c:792-846 | disturbed runs settle to a level that does not depend on the first error |
| `Recorder.Logger.constructor` | mini_logger_writer/mini_logger_writer.c:424-447 | starts on the disk found, with the index and ring of the state file, or empty |
| `Recorder.Logger.StartFile` | mini_logger_writer/mini_logger_writer.c:872-897 | eviction, claim and directory of a new file, as the three statements of the store |
| `Recorder.Logger.WriteMseed` | mini_logger_writer/mini_logger_writer.c:898-909 | starts or extends the temporary file and counts the record |
| `Recorder.Logger.MoveFile` | mini_logger_writer/mini_logger_writer.c:911-921 | renames the complete file if its directory is there, and starts counting anew |
| `Recorder.Logger.WriteRecord` | mini_logger_writer/mini_logger_writer.c:870-926 | from a completed record to the next read the program does exactly the store's statements |
| `Recorder.Logger.ReadRecord` | mini_logger_writer/mini_logger_writer.c:797-830 | reads up to a record of 16-bit numbers, stops at the first value that is none - a read error is none - and averages the second half into the measured start |
| `Recorder.FilterStart` | mini_logger_writer/mini_logger_writer.c:831-843 | new window and start as the filter gives them |
| `Recorder.Logger.CollectAndWrite` | mini_logger_writer/mini_logger_writer.c:748-940 | from the nominal window and decay of the rate, record after record, each with the estimator's start; taken are exactly the values before the first that is no 16-bit number |
| `Recorder.Logger.Serve` | mini_logger_writer/mini_logger_writer.c:451-472 | one connection after another, each with counters and estimator started afresh |
| `Recorder.Logger.Terminate` | mini_logger_writer/mini_logger_writer.c:339-357 | the text of the state file is that of the store's signal step |
| `RecorderRuns.CollectedIsRun` | mini_logger_writer/mini_logger_writer.c:748-940 | what the nested loops do to a connection is a run of the store, and the files it starts are the first records and every R-th after them |
| `RecorderRuns.ServedReachable` | mini_logger_writer/mini_logger_writer.c:451-940 | whatever the device delivers over any number of connections, the loops stay within the reachable states, to which all results on runs apply |
| `RecorderRuns.StartedReachable` | mini_logger_writer/mini_logger_writer.c:339-447 | a program started from the text a termination saved, on the disk it left, is in the state the store's restart gives, and reachable |
| `RecorderRuns.EverySampleKept` | mini_logger_writer/mini_logger_writer.c:792-926 | the values delivered before the first that is no 16-bit number are in the completed files, the temporary file and the buffer, in order, none lost or doubled |
| `RecorderRuns.CollectedClock` | mini_logger_writer/mini_logger_writer.c:792-846 | the clock a connection ends with is the estimator's over the timestamps of the completed records |
| `RecorderRuns.AccurateStarts` | mini_logger_writer/mini_logger_writer.c:792-846 | when the timestamps follow a true clock up to a jitter the estimator has a level for, every record starts after the epoch |
| `RecorderRuns.StartsApart` | mini_logger_writer/mini_logger_writer.c:831-843 | with measured windows of a millisecond or more no two records start in the same millisecond |
| `RecorderRuns.AccurateApart` | mini_logger_writer/mini_logger_writer.c:792-846 | from the timestamps alone: when they follow a true clock up to a jitter and the estimator's level leaves windows a millisecond, no two records start in the same one |
| `ConnectionFiles.RecordStartsAre` | mini_logger_writer/mini_logger_writer.c:792-846 | the start written for each record is the estimator's over the timestamps up to that record |
| `ConnectionFiles.BegunAt` | mini_logger_writer/mini_logger_writer.c:872-892 | file k of a connection starts with record k R, under the estimator's start of that record |
| `ConnectionFiles.BegunApart` | mini_logger_writer/mini_logger_writer.c:831-892 | when records start in rising milliseconds after the epoch, so do the files |
| `ConnectionFiles.FilesLeft` | mini_logger_writer/mini_logger_writer.c:748-940 | what the loops leave on disk after a connection on an empty store: the last M / gcd(M, R) of the files begun, the open one counted, and older ones from before the epoch, each holding its share of the values delivered |
| `ConnectionFiles.FilesOfConnection` | mini_logger_writer/mini_logger_writer.c:748-940 | with measured windows of a millisecond or more and a first start after the epoch that is so, and no file is from before the epoch |
| `ConnectionFiles.FilesOfAccurateConnection` | mini_logger_writer/mini_logger_writer.c:748-940 | the same for timestamps that follow a true clock up to a jitter |

## Left out

Where code and documentation differ, the model follows the code:

- SettingsObjects.Settings.Save: returns 0 on every path, as `settings_save` does, although its header documents 1 for success. A section line longer than the line buffer is printed past its end, which has no defined result; the model says when this happens and nothing of what follows.
- SettingsValues.GetInt: a missing or malformed setting reads as the smallest int, as the code returns, not as 0; that one int can therefore be stored and read back but not told from a missing one.
- SettingsValues.GetIntTuple: the result is the count of numbers read, as the code returns, where the header promises 1; empty tokens count as the number 0.
- LineReader.SerialPort.ReadNextValue: an error of `read` inside a line counts as a byte, as in the code, which only takes zero for failure there; `LineStream.BytesAreGot` says exactly when this changes the bytes.

Stated with a restriction:

- Store.StepKeeps: each call of `make_mseed_filepath` is one step, `remove` fails on absent files only, and the data directory exists. Years are those printed in four characters, -999 to 9999: for others the code leaves the name and the date path it had.
- StoreRuns.StoreSafety: starts are after the epoch, because the code takes other slot times for empty slots; `StoreRuns.UnnamedAreEarly` and `EarlyFiles` say what holds without this.
- Retention.RetainedFiles: files start in different milliseconds, since the file name tells no more; `ConnectionFiles.GoodRises` and `ConnectionFiles.AccurateRises` show when that is so for the program's estimator.
- Estimator.StartsStayTrue: the first record's errors are below the level and the level is small against the window and the time since the epoch, so that the window cannot turn negative nor the start count as unset.
- IdealClock.IdealStarts: the first window's error is small against the time since the epoch; otherwise an estimated start could count as unset and the record as a first one.
- SettingsValues.GetConvertedValue: the int and long conversions only; the conversion to a double reads decimal fractions, which are not modelled.
- RetentionSize.RingCovers: the product of the counts is taken not to overflow an int; a ring without slots, which the code would divide by, is possible for too few hours and is excluded from the store.
- FileNames.NamesKeepTimeOrder: years 0 to 9999; with a minus sign names sort the other way round (`MinusYearsReversed`), and years of five digits have no name.
- StateDump.RestoreHoldsLast: numbers in the state file are unbounded, where `fscanf` has a range.
- Numbers.ReadsBack: numbers outside the range stop at its ends for `atol` and are then cut to 32 bits for `atoi`, as common libraries do; the C standard leaves this open.
- Estimator.RecordIsStep: arithmetic over reals; the rounding of floating point itself is not modelled.

Not modelled:

- The serial port, its attributes, scanning for devices and USB resets; taking the timestamp of a sample.
- The libmseed library: packing and writing a record is one step that succeeds and starts or extends the temporary file; headers, encodings and sample rates in the header are not modelled.
- Memory failure in `settings_set` and `settings_new`, NULL arguments, deletion of tables and settings, and the double getters and the long and double tuples.
- `settings_section_get_count`, `settings_section_enum` and the `_helper` getters, which only pass on to members modelled here.
- State files of another ring size or station, loss of power without a saved state, foreign files in the data directory, the `.DS_Store` branch.
- Logging, usage text, the command line, the properties read at start, external scripts, ringserver.
- The statements of `collect_and_write` that only serve debugging output.
