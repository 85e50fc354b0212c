# Playlists, runtime logs, core requirements and configuration overrides

A Dafny 4.11 model of the stateful core of the RetroArch front end: the playlist kept as a bounded
most-recently-used list with its two on-disk formats (`playlist.c`), play-time accounting
(`runtime_file.c`), the hardware-API requirement parser and the selection of cores that support a file
(`core_info.c`), and configuration overrides (`configuration.c`). `dafny verify dfyconfig.toml` checks
everything.

Code that changes things in place is modelled in place: `Playlist`, `JsonContext`, `JsonWriter`,
`FileStream`, `RuntimeLog`, `RtlContext` and `SettingsStore` are classes, the slots of a playlist and the
list of cores are arrays, `memmove`, `j--` and the backward file scan are loops. Each such method is proved
equal to a specification function, and the properties are proved of those functions, over every input and
over whole runs. What the specification functions themselves mean is pinned down without them, field by field,
name by name and number by number, in `PlaylistFields.dfy`, `FileContents.dfy`, `CoreAnswers.dfy` and
`LoadedSettings.dfy`.

| file | content |
|---|---|
| `CText.dfy` | C strings and numbers: `%u`, `%02u`, `sscanf`, `strtoul`, `strchr` |
| `PlaylistModel.dfy`, `PlaylistSlots.dfy`, `Playlist.dfy` | entries, the match relation, the abstract operations on the list and on the whole array; the class |
| `PlaylistHistory.dfy`, `PlaylistRuntimeHistory.dfy` | keys, runs, no duplicates, the most-recently-used theorem, for both kinds of push |
| `PlaylistFields.dfy` | field by field, what pushes, updates and deletions store |
| `JsonEvents.dfy`, `PlaylistJson.dfy`, `PlaylistJsonSafety.dfy`, `PlaylistJsonReader.dfy` | the event handlers, their safety on every legal stream, the class |
| `PlaylistJsonWriter.dfy`, `PlaylistJsonRoundTrip.dfy`, `PlaylistJsonLegal.dfy` | both JSON writers and the round trips |
| `PlaylistJsonLeaks.dfy`, `PlaylistJsonOrigins.dfy` | values that end up in another entry, when they cannot, and exactly when they do |
| `PlaylistCoherence.dfy` | the `modified` flag over runs |
| `OldFormat.dfy`, `OldFormatFile.dfy`, `OldFormatRoundTrip.dfy` | the six-line format: meaning, cursor code, round trip |
| `FileContents.dfy` | the written files, name by name and line by line; other line ends |
| `RuntimeLog.dfy`, `RuntimeLogFile.dfy` | play time; the log file |
| `CoreApi.dfy`, `CoreSupport.dfy` | API requirements; supported cores |
| `CoreAnswers.dfy` | which driver a requirement names, which files a core supports, the order of names |
| `ConfigFile.dfy`, `PathText.dfy`, `Settings.dfy` | key/value files; abbreviated paths; loading, sanitising, diffing |
| `LoadedSettings.dfy` | what a load and the sanitising make of each kind of line, with names and values written out |
| `Overrides.dfy`, `OverrideLayers.dfy`, `OverrideUndo.dfy` | overrides: what is restored, which layer wins, what unloading gives back |
| `FileNames.dfy` | the sanitising loop of saved controller profiles |

The file system is a parameter: `Paths` holds `path_resolve_realpath`, `path_is_compressed_file`,
`path_get_archive_delim` and `fill_pathname_base_noext` as functions, and the only law used is that
resolving a resolved path changes nothing. Directory tests, default paths and the application and home
directories are a parameter of the same kind (`Surroundings`). A JSON file is the stream of events a parser
reports; an old-format file is a sequence of bytes.

## Where the code does less than one would expect

Each of these is proved, not only observed.

- `playlist_push_runtime` resets only the two paths of the slot it reuses: unless the list was full with a
  capacity of one, the new entry has the strings of the old top entry, right below it
  (`RuntimePushInheritsSlot`), and on an empty list those of an entry that was deleted
  (`DeletedStringsReturn`).
- `playlist_update` and `playlist_update_runtime` accept an index equal to the size: they write a slot that is
  not live, and the first sets `modified` (`UpdateIndex`, `UpdateRuntimeIndex`).
- With fuzzy archive matching, matching is symmetric but not transitive (`FuzzyMatchIsNotTransitive`); the
  list is free of duplicates all the same (`NoDuplicatesEver`).
- An empty member name leaves the previous one in force, so that a ROM can end up in an earlier entry
  (`EmptyNameLeaksRom`); without empty names no string leaks (`NoStringLeaks`). A text does not use up the
  number pointer, so that a number can (`StaleNumberLeaks`); where members that take numbers have them, none
  does (`NoNumberLeaks`). For every legal stream it is exact which values do (`TextLeaksExactly`,
  `NumberLeaksExactly`).
- `playlist_clear` leaves `modified` alone (`ClearCoherence`), and an unregistered runtime update that
  changes a path is never written (`RuntimeUpdateCoherence`).
- In the six-line format an empty playlist loses its default core (`EmptyPlaylistLosesDefaults`), default
  core values with quotes are cut (`OldRoundTrip`), the last lines of a record can pass for metadata
  (`OldRoundTrip`), and a file whose first visible character is `{` is taken for JSON (`RecognisedAsOld`).
- The width in `%02u` bounds characters, not values: a file with the play time "0:-5:00" loads as 2^32 - 5
  minutes, and that log is lost when saved (`SignedFileDoesNotRoundTrip`); a loaded log survives saving exactly
  when the file shows no negative number where a column is limited (`LoadedLogRoundTrips`).
- An API requirement without an operator loses the first digit of its version, and is understood exactly when
  that digit is a zero that does not count (`NoOperatorRoundTrip`); "name 4.1" demands nothing
  (`NoOperatorDemandsNothing`). Names lose their digits, so no requirement is ever met on a Direct3D driver
  (`Direct3DIsNeverMet`).
- An override cannot record an emptied text, a text with a quote, or a size between 2^31 and 2^64 - 2^31
  (`RestoredExactlyWhenRecordable`, `SizeRoundTrip`).
- A path that starts with the name of the home or application directory, but does not lie in it, changes when
  it is written and read: "/home/user2/x" under "/home/user" becomes "~/2/x" (`PathRoundTrip`). So does a path
  that starts with the sign `~` or `:` of a directory that is known.
- Every load sets the streaming address of the live settings, even the load of the base file during the saving
  of overrides. An override that empties a stream key has the key of the base back, and with it an address that
  was not recorded (`EmptiedKeyReplacesUrl`, `StreamRestoredExactly`).
- Unloading an override does not restore a setting that the base file does not name (`UnloadRestoresUnnamed`).

## Model

| member | source | states |
|---|---|---|
| Playlist.MemMove | playlist.c:262-263 | overlapping copy inside one array: the target range holds what the source range held before, everything else is unchanged, whichever way the ranges overlap |
| Playlist.Playlist.constructor | playlist.c:2129-2154 | a new playlist of any capacity is empty, unmodified, all slots blank |
| Playlist.CompareRoms | playlist.c:766-796 | the ROM loop decides pointwise path equality of two lists of equal length |
| Playlist.Playlist.Find | playlist.c:727-796 | the search stops at the first live entry that matches the pushed one, or at the size |
| Playlist.Playlist.FindContent | playlist.c:556-575 | the same for a runtime push, which compares paths only |
| Playlist.Playlist.BumpToTop | playlist.c:827-834 | the hit is rotated to the front, the slots above it move down one, the rest of the array stays |
| Playlist.Playlist.MakeRoomOnTop | playlist.c:837-850 | eviction of the last slot of a full array, then the shift: every slot but the last moves down one, and slot 0 is left as it was |
| Playlist.Playlist.FillBlanks | playlist.c:798-816 | a matched entry takes over only the label, checksum and database name it lacks, and reports a change exactly when there is one |
| Playlist.Playlist.PushEntry | playlist.c:672-905 | search, rotate, evict and shift on the whole array, stale slots included, are the abstract push, with its verdict; `modified` is set exactly on a change |
| Playlist.Playlist.PushRuntimeEntry | playlist.c:519-626 | the same for the runtime push, over what the reused slot holds |
| Playlist.Playlist.DeleteIndex | playlist.c:254-266 | removes one entry, keeps the order of the others, leaves the slot behind them as it was, sets `modified` |
| Playlist.Playlist.UpdateIndex | playlist.c:369-427 | replaces exactly the given fields of one slot, also of the first one that is not live; a larger index does nothing; `modified` follows |
| Playlist.Playlist.UpdateRuntimeIndex | playlist.c:429-517 | the same for play times; `modified` only for a registered change |
| Playlist.Playlist.SetDefaultCorePath | playlist.c:2336-2360 | an empty or unresolvable path is ignored; the flag is set exactly on a change |
| Playlist.Playlist.SetDefaultCoreName | playlist.c:2362-2375 | the same for the name |
| Playlist.Playlist.Clear | playlist.c:1505-1519 | empties the list, blanks the slots that were live and no others, and does not touch `modified` |
| PlaylistSlots.PushSlotsList | playlist.c:724-899 | seen through the live entries, the push on the array is the push on the list |
| PlaylistSlots.PushRuntimeSlotsList | playlist.c:556-620 | the same for the runtime push, given what slot 0 holds |
| PlaylistFields.RejectedPush | playlist.c:684-722 | a push fails exactly without a core path, with one that resolves to nothing, or without any core name, and then changes nothing |
| PlaylistFields.MissStoresEveryField | playlist.c:837-899 | a push that finds nothing puts each given text into its own field of a new top entry, paths resolved ("DETECT" as it is), a missing core name made up from the core path, no play time; the others move down |
| PlaylistFields.MissStoresItself | playlist.c:852-899 | an entry whose paths are resolved and whose texts are there is stored as it is |
| PlaylistFields.HitKeepsEveryField | playlist.c:798-834 | a push that finds an entry moves it to the front and fills a missing label, checksum or database name from the same field of what was pushed; nothing else of it changes |
| PlaylistFields.PushReportsChange | playlist.c:798-905 | a push reports a change exactly when the list is another one afterwards |
| PlaylistFields.RuntimeMissStoresFields | playlist.c:586-617 | a runtime push that finds nothing writes its two paths and all its numbers over slot 0 and leaves every other field of it |
| PlaylistFields.ArchiveAndMember | playlist.c:90-172 | a file inside an archive and the archive are the same content exactly with fuzzy matching on |
| PlaylistFields.UpdateByField | playlist.c:383-424 | an update replaces each text that is given, in its own field, and nothing else; it is a change exactly when any is given |
| PlaylistFields.UpdateRuntimeByField | playlist.c:443-515 | a runtime update replaces the paths that are given and every number; it is a change exactly when a path is given or a number differs |
| PlaylistFields.DeleteAt | playlist.c:254-266 | after a deletion the entries behind it are one place further up |
| PlaylistFields.ClearAt | playlist.c:1505-1519 | clearing leaves nothing in the slots that were live and the others as they were |
| PlaylistFields.DefaultReplaced | playlist.c:2336-2375 | a default core that is given replaces the old one |
| PlaylistHistory.MatchIsKeyMatch | playlist.c:727-796 | the many-clause match test depends only on two keys: resolved path, resolved core, subsystem identifier, name and resolved ROMs |
| PlaylistHistory.KeyMatchSymmetric | playlist.c:90-172 | matching is reflexive and symmetric, fuzzy or not |
| PlaylistHistory.ExactMatchIsEquality | playlist.c:90-211 | with fuzzy matching off, matching is equality of keys |
| PlaylistHistory.FuzzyMatchIsNotTransitive | playlist.c:119-169 | with it on, matching is not transitive: a concrete triple |
| PlaylistHistory.NewEntryKey | playlist.c:852-899 | a new entry carries the key it was pushed with, although its paths are resolved by then |
| PlaylistHistory.FillKeepsKey | playlist.c:798-816 | filling blanks touches nothing that matching looks at |
| PlaylistHistory.PushRefinesKeyPush | playlist.c:724-899 | a push on entries is the move-to-front step on keys; a rejected push changes nothing |
| PlaylistHistory.PushRuntimeRefinesKeyPush | playlist.c:556-620 | on entries with paths and play times only, the runtime push is the same step |
| PlaylistHistory.RuntimePushInheritsSlot | playlist.c:586-617 | the new runtime entry agrees with slot 0, and with the entry right below it, in everything but paths and play times; it is clean exactly when that was, or when the list was full with a capacity of one |
| PlaylistHistory.DeletedStringsReturn | playlist.c:600-617 | after deleting the only entry the next runtime push brings its strings back |
| PlaylistHistory.StepKeepsClean | playlist.c:254-266 | every push, runtime push, deletion, clearing and write keeps the list well formed and free of matching pairs, and every slot, stale ones too, with a ROM list exactly if it has a subsystem identifier |
| PlaylistHistory.NoDuplicatesEver | playlist.c:727-834 | over every run of these operations on the array, fuzzy or not, no two live entries match |
| PlaylistHistory.MruIsByRecency | playlist.c:827-834 | the reference list of a history is its distinct keys in the order of their last push |
| PlaylistHistory.KeyRunIsMru | playlist.c:724-899 | closed form: pushing a history of keys gives the first `cap` keys of that reference list |
| PlaylistHistory.PushAllKeys | playlist.c:672-905 | pushing entries onto an empty playlist shows the keys of the pushes that were not rejected |
| PlaylistHistory.LruTheorem | playlist.c:672-905 | after any history the list is ordered by last push, and a key that is missing is older than all shown, which then fill the list |
| PlaylistHistory.ExactWhenNotFuzzy | playlist.c:119-169 | the condition of the theorem always holds with fuzzy matching off |
| PlaylistHistory.SmallerCapacityIsPrefix | playlist.c:837-850 | after the same pushes a smaller playlist shows a prefix of a larger one |
| PlaylistRuntimeHistory.PushRuntimeAllKeys | playlist.c:519-626 | closed form for runtime pushes of any entries onto a new playlist: no slot ever holds more than paths and play times, and the list shows the key run of the pushes that were not rejected |
| PlaylistRuntimeHistory.RuntimeLruTheorem | playlist.c:519-626 | so a runtime list, too, is ordered by last push, and a missing key is older than all shown, which then fill the list |
| PlaylistJsonReader.JsonContext.HandleStartArray | playlist.c:1535-1554 | the in-place handler is the specified transition |
| PlaylistJsonReader.JsonContext.HandleEndArray | playlist.c:1556-1588 | the same; called only with a positive array depth |
| PlaylistJsonReader.JsonContext.HandleStartObject | playlist.c:1590-1609 | the same; aborts at the first item that does not fit |
| PlaylistJsonReader.JsonContext.HandleEndObject | playlist.c:1611-1626 | the same; called only with a positive object depth |
| PlaylistJsonReader.JsonContext.HandleText | playlist.c:1628-1686 | the same, storing through the tracked pointers |
| PlaylistJsonReader.JsonContext.HandleNumber | playlist.c:1688-1726 | the same for numbers, converted by `strtoul` |
| PlaylistJsonReader.JsonContext.HandleMember | playlist.c:1728-1826 | the same for member names |
| PlaylistJsonReader.JsonContext.Parse | playlist.c:1934-1959 | on a legal stream every handler is called within its demands, and the reader ends as the specified run does |
| PlaylistJsonReader.ReadJson | playlist.c:1895-1963 | reading into a fresh playlist fills it with the outcome of the run |
| PlaylistJson.RunAppend | playlist.c:1535-1826 | feeding two streams one after the other composes, unless the first aborts |
| PlaylistJson.InsideItemIsAtItem | playlist.c:1590-1626 | the two depth counters tell exactly when the parser is directly inside an element of the item list |
| PlaylistJsonSafety.StepIsSafe | playlist.c:1535-1826 | every handler, at every legal event, finds its assertions met and keeps the invariant tying flags, pointers and counters to the nesting |
| PlaylistJsonSafety.SafeThroughout | playlist.c:1535-1826 | at every point of every legal stream: size within capacity, no depth assertion fails, item mode implies "items" and the item nesting, and inside an item the entry pointer is the slot `size`, below capacity |
| PlaylistJsonSafety.TextStaysInItsEntry | playlist.c:1628-1686 | a string changes another entry exactly when it extends a ROM list through a stale ROM pointer |
| PlaylistJsonSafety.NoStringLeaks | playlist.c:1628-1826 | without empty member names a string is only stored in the entry of the object it occurs in |
| PlaylistJsonLeaks.EmptyNameLeaksRom | playlist.c:1733-1770 | in a complete file with an empty member name a ROM of the second item is stored in the first entry |
| PlaylistJsonLeaks.NumberStaysInItsEntry | playlist.c:1688-1726 | a number changes another entry exactly when the number pointer was left there, and then only its play time |
| PlaylistJsonLeaks.NoNumberLeaks | playlist.c:1682-1726 | when every member that takes a number is followed by one, numbers are only stored in the entry of the object they occur in |
| PlaylistJsonLeaks.StaleNumberLeaks | playlist.c:1682-1726 | in a complete file with a text for the hours of the first item a number of the second becomes the hours of the first |
| PlaylistJsonOrigins.NumberLeaksExactly | playlist.c:1682-1826 | on every legal stream a number changes another entry if and only if it stands directly inside an item and the last item member that takes a number, with no number since, stands in that entry's item |
| PlaylistJsonOrigins.TextLeaksExactly | playlist.c:1628-1826 | on every legal stream a string changes another entry if and only if it is a ROM, the last item member that takes a ROM list stands in that entry's item, and every item member since has an empty name |
| PlaylistJsonWriter.WriteFile | playlist.c:1160-1457 | writes the specified stream when modified and the file opens, and clears the flag then and only then |
| PlaylistJsonWriter.WriteRuntimeFile | playlist.c:935-1158 | the same for the runtime format |
| PlaylistJsonLegal.WrittenFilesAreLegal | playlist.c:985-1451 | whatever the entries hold, both writers print a complete, well-bracketed stream, so the reader's safety applies to it |
| PlaylistJsonRoundTrip.ReadItem | playlist.c:1590-1826 | the events of one written item fill exactly the next slot with its values and nothing else |
| PlaylistJsonRoundTrip.ItemTooMany | playlist.c:1600-1604 | the item after the last slot aborts the reader and disturbs nothing |
| PlaylistJsonRoundTrip.ReadHeader | playlist.c:1220-1282 | the written header leads the reader to the item list with the default core read back |
| PlaylistJsonRoundTrip.JsonRoundTrip | playlist.c:1208-1451 | writing, then reading with any capacity, rebuilds exactly the first entries that fit, subsystem data and ROMs included, and the default core |
| PlaylistJsonRoundTrip.RuntimeJsonRoundTrip | playlist.c:985-1144 | the same for runtime files: every 32-bit play time and date number returns to its field of its entry |
| FileContents.WrittenText | playlist.c:1283-1358 | each of the six texts of an entry stands in its item under its own name |
| FileContents.WrittenSubsystemTexts | playlist.c:1360-1392 | the subsystem identifier and name, each under its name, are left out when there are none |
| FileContents.WrittenRoms | playlist.c:1394-1431 | so are the ROMs, which are an array |
| FileContents.WrittenItem | playlist.c:1276-1440 | an item is these, in this order, between braces |
| FileContents.WrittenNumber | playlist.c:1018-1135 | each of the nine numbers of a play time stands under its own name |
| FileContents.WrittenRuntimePaths | playlist.c:990-1017 | after the two paths |
| FileContents.WrittenFrame | playlist.c:985-1451 | the version, the default core and the item list around them, in both files |
| FileContents.FileKeepsFields | playlist.c:1276-1440 | what comes back of an entry: each text in its field, and ROMs unless one is empty |
| FileContents.RuntimeFileKeepsFields | playlist.c:990-1135 | the same for the runtime file: two paths and every number |
| FileContents.HugeNumber | playlist.c:1697-1701 | a number beyond 64 bits is read as the largest one of 32 |
| CText.UnsignedRoundTrip | playlist.c:1697-1701 | the `%u` text of an unsigned number is read back as that number |
| PlaylistCoherence.WrittenFileIsCoherent | playlist.c:1160-1457 | a file just written reads back to the playlist it was written from |
| PlaylistCoherence.RuntimeUpdateCoherence | playlist.c:429-517 | an unmodified playlist stays in step with its file exactly when a runtime update is registered or leaves both path texts |
| PlaylistCoherence.ClearCoherence | playlist.c:1505-1519 | after clearing, exactly when it was modified or empty already |
| PlaylistCoherence.StepKeepsCoherence | playlist.c:672-905 | push, update, delete, default core and write keep the flag honest |
| PlaylistCoherence.CoherentThroughout | playlist.c:1160-1457 | over every run from a loaded file: a clear flag means the file shows the playlist |
| OldFormatFile.FileStream.GetLine | libretro-common/streams/file_stream.c:179-201 | reads through the first newline, the end of the file, or 1023 characters |
| OldFormatFile.DetectFormat | playlist.c:1863-1893 | the format is decided by the first printable character, and the cursor is back at the start |
| OldFormatFile.FindMetadata | playlist.c:1986-2016 | the backward scan terminates and stops after the second newline before the last visible character, or reports that there is none |
| OldFormatFile.ReadMetadata | playlist.c:1970-2049 | the two lines found there give the default core, or the whole read is given up |
| OldFormatFile.GetRecord | playlist.c:2056-2072 | six stripped lines or nothing |
| OldFormatFile.ReadOldFile | playlist.c:1849-2095 | the cursor code, with its record loop into the slots, computes the specified playlist |
| OldFormatFile.WriteOldFile | playlist.c:1181-1205 | writes six lines an entry and the metadata lines, when modified and the file opens |
| OldFormatRoundTrip.QuotedValue | playlist.c:1828-1847 | what is read of a quoted value is a prefix of it, all of it exactly when it has no quote |
| OldFormatRoundTrip.ReadFieldsOfLines | playlist.c:2056-2072 | clean lines are read back as they were written |
| OldFormatRoundTrip.ScanFindsLastTwo | playlist.c:1986-2016 | behind at least one complete line the scan finds the last two visible lines |
| OldFormatRoundTrip.OldRoundTrip | playlist.c:1970-2090 | the first `cap` entries come back exactly; the default core comes back exactly when its values have no quote, its absence exactly when the last two record lines do not look like metadata |
| OldFormatRoundTrip.EmptyPlaylistLosesDefaults | playlist.c:2006-2016 | without entries the default core is lost |
| OldFormatRoundTrip.RecognisedAsOld | playlist.c:1863-1893 | a written file is read as an old one exactly when its first visible character exists and is not an opening brace |
| FileContents.WrittenLines | playlist.c:1182-1191 | an entry is six lines: path, label, core path, core name, checksum, database name |
| FileContents.WrittenEntries | playlist.c:1182-1191 | a file is the lines of its entries, in order |
| FileContents.WrittenMetadata | playlist.c:1197-1204 | followed, when both are there, by the two lines of the default core, and by none otherwise |
| FileContents.StripEndExactly | playlist.c:2063-2069 | a line is cut at its last carriage return, else at its last newline, else not at all |
| FileContents.LineIsCut | libretro-common/streams/file_stream.c:179-201 | a line is taken through its newline, or through 1023 characters |
| FileContents.OneRecord | playlist.c:2048-2090 | six lines, with either line end, give one entry with each text in its field, or none when the core path or the core name is empty |
| FileContents.LineEndsDoNotMatter | playlist.c:2048-2090 | a file of any lines gives the same entries with carriage returns and without |
| FileContents.DefaultsNeedBoth | playlist.c:2016-2042 | a default core is read only from lines that start with both keys, and only with both values |
| FileContents.FormatByFirst | playlist.c:1865-1893 | the first visible character decides: a brace for JSON, anything else for six lines, none for nothing |
| RuntimeLog.HmsToUsec | runtime_file.c:774-783 | the product, with every 64-bit step in range |
| RuntimeLog.UsecToHms | runtime_file.c:785-794 | minutes and seconds below 60, and together with the hours the whole seconds of the time, modulo 2^32 |
| RuntimeLog.NormalisedIsUnique | runtime_file.c:785-794 | there is one normalised form of a number of seconds |
| RuntimeLog.RuntimeLog.SetRuntimeHms | runtime_file.c:447-463 | any minutes and seconds are normalised |
| RuntimeLog.RuntimeLog.SetRuntimeUsec | runtime_file.c:466-473 | the whole seconds, normalised |
| RuntimeLog.RuntimeLog.AddRuntimeHms | runtime_file.c:476-492 | the sum, normalised |
| RuntimeLog.RuntimeLog.AddRuntimeUsec | runtime_file.c:495-508 | the whole seconds of the sum, normalised |
| RuntimeLog.AccumulatedTime | runtime_file.c:446-508 | over any sequence of adds below 2^32 seconds no add overflows, and the log is normalised, the start plus the whole seconds of every add, less than one second lost an add |
| RuntimeLog.HmsAddIsExact | runtime_file.c:476-492 | hour, minute and second adds lose nothing and overflow nothing below 2^32 seconds |
| RuntimeLog.ShownToTheSecond | runtime_file.c:785-800 | hours, minutes and seconds of a number of microseconds are at most that time, and less than one second below it |
| RuntimeLogFile.Save | runtime_file.c:722-757 | the two texts in the printed formats, in their members |
| RuntimeLogFile.RtlContext.Feed | runtime_file.c:56-100 | the handlers over a stream are the specified run, and stop at an abort |
| RuntimeLogFile.Load | runtime_file.c:188-248 | all or nothing: the log takes both parsed texts or stays as it is |
| RuntimeLogFile.PaddedField | runtime_file.c:43-44 | a zero-padded number scanned with its own width is exact when it fits and cut short otherwise |
| RuntimeLogFile.SaveLoadRoundTrip | runtime_file.c:43-44 | a saved log loads back identical exactly when minutes, seconds and date fit their columns |
| RuntimeLogFile.SaveLoadReplaces | runtime_file.c:214-248 | such a log replaces whatever was there |
| RuntimeLogFile.FieldFitsUnlessMinus | runtime_file.c:43-44 | a conversion stays below its width's power of ten exactly when it finds no minus sign in front of a number other than zero |
| RuntimeLogFile.SignEscapesWidth | runtime_file.c:43-44 | two characters with a minus sign scan as a number near 2^32 |
| RuntimeLogFile.LoadFitsUnlessMinus | runtime_file.c:214-248 | a load keeps the log within its columns exactly when the file shows no negative number there |
| RuntimeLogFile.LoadedLogRoundTrips | runtime_file.c:214-248 | what was loaded saves to text that loads back to it exactly then |
| RuntimeLogFile.SignedFileDoesNotRoundTrip | runtime_file.c:214-248 | files with minus five minutes, which load as a log that does not come back |
| RuntimeLogFile.EveryReachableLogRoundTrips | runtime_file.c:446-525 | every log that setters, adders, resets and loads of such files reach from a fresh one fits its columns and saves to text that loads back to it |
| FileContents.WrittenRuntime | runtime_file.c:669-770 | a log file shows the play time as hours, two digits of minutes and two of seconds |
| FileContents.WrittenLastPlayed | runtime_file.c:669-770 | and the date as four, two and two digits with the time of day behind it |
| CoreApi.OperatorAt | core_info.c:1136-1176 | the chain of operator tests |
| CoreApi.VersionAt | core_info.c:1178-1199 | one character of the version |
| CoreApi.ParseChar | core_info.c:1116-1203 | one round of the loop, with its `j--`, is the specified step: only un-reading leaves the position, and it leaves the name state |
| CoreApi.ParseLoop | core_info.c:1116-1206 | the loop terminates and computes the specified parse |
| CoreApi.ParserInvertsPrinting | core_info.c:1111-1206 | name, operator and version come back from their text, with blanks anywhere but inside a two-character operator |
| CoreApi.NoOperatorLosesDigit | core_info.c:1136-1176 | without an operator the first digit of the version is consumed |
| CoreApi.NoOperatorResult | core_info.c:1136-1200 | what is read then: the major version without its first digit, and no version at all when nothing is left of it |
| CoreApi.NoOperatorRoundTrip | core_info.c:1136-1200 | name and version come back if and only if the major version starts with a zero and is longer than that, or the minor version is zero too |
| CoreApi.NoOperatorDemandsNothing | core_info.c:1136-1200 | so a one-digit major version demands version 0.0 |
| CoreApi.NamesAreLetters | core_info.c:1123-1135 | a parsed name holds letters only, whatever the input |
| CoreApi.VersionsAreNumbers | core_info.c:1035-1068 | the six version tests are the six comparisons of numbers with the minor version as last digit, in any base above both |
| CoreApi.Judge | core_info.c:1217-1297 | one element is met, refuses or is passed over |
| CoreApi.HwApiSupported | core_info.c:1070-1301 | yes exactly when some element is met and none up to it is plain or compatibility OpenGL on a core context |
| CoreApi.Direct3DIsNeverMet | core_info.c:1244-1283 | no text is a requirement that a Direct3D driver meets |
| CoreAnswers.OneRequirement | core_info.c:1070-1301 | one printed requirement, its name in any case: the answer is yes exactly on the driver of that name, plain OpenGL without a core context, when the driver's version is what the operator asks for |
| CoreAnswers.LongMajor | core_info.c:1178-1199 | of a long version part the first fifteen digits count |
| CoreSupport.CompareIsPreorder | core_info.c:538-552 | the comparison of cores is total and transitive |
| CoreSupport.NoCaseTransitive | libretro-common/compat/compat_posix_string.c:40-55 | so is the comparison of names |
| CoreSupport.SupportingPermutation | core_info.c:724-767 | rearranging a list does not change how many cores support a file |
| CoreSupport.SortedGroups | core_info.c:538-552 | in a sorted list the supporting cores are a prefix and each group is ordered by name |
| CoreSupport.GetSupportedCores | core_info.c:724-767 | a permutation of the list, the count of supporting cores, exactly those in front, each group ordered by name |
| CoreAnswers.SupportsExactly | core_info.c:510-536 | a core supports what is asked for exactly when it lists the extension of the file, or of a member of the archive, with or without a dot and in any case |
| CoreAnswers.CountExactly | core_info.c:724-767 | the reported count is the number of those cores |
| CoreAnswers.NamesInOrder | libretro-common/compat/compat_posix_string.c:40-55 | names are ordered by their first difference, without regard to case |
| ConfigFile.GetAppend | libretro-common/file/config_file.c:516-535 | an appended file wins, key by key |
| ConfigFile.PlainReadsBack | libretro-common/file/config_file.c:188-225 | a written value comes back exactly when it is not empty and has no quote |
| ConfigFile.IntRoundTrip | libretro-common/file/config_file.c:689-706 | a 32-bit number comes back from its text |
| ConfigFile.UnsignedThroughInt | libretro-common/file/config_file.c:951-958 | an unsigned setting comes back although it is written as a signed one |
| ConfigFile.SizeRoundTrip | libretro-common/file/config_file.c:708-725 | a size comes back exactly when it is below 2^31 or at least 2^64 - 2^31 |
| PathText.FillAbbreviated | libretro-common/file/file_path.c:1164-1226 | the loop over the application and the home directory puts the sign of the first one that the path starts with in its place, with a slash behind it |
| PathText.FillExpanded | libretro-common/file/file_path.c:1094-1162 | the sign and the character behind it become the directory and one slash, unless the directory is unknown |
| PathText.PathRoundTrip | libretro-common/file/file_path.c:1094-1226 | a path comes back from its abbreviated text if and only if exactly one slash joins it to the directory that was abbreviated, or none was and it does not start with the sign of a known one |
| PathText.CutPathIsLost | libretro-common/file/file_path.c:1094-1226 | a path whose text is cut at a quote never comes back |
| LoadedSettings.ApplicationInFile | libretro-common/file/file_path.c:1094-1226 | ":" stands for the application directory, both ways |
| LoadedSettings.HomeInFile | libretro-common/file/file_path.c:1094-1226 | "~" for the home directory |
| Settings.LoadRawAt | configuration.c:2712-2849 | a setting is loaded through any of its rows that load: a second row of the same setting changes nothing |
| Settings.SettingsStore.ReadTable | configuration.c:2712-2849 | the table loops store what the file says of each setting and keep the rest |
| Settings.SettingsStore.SanitiseSettings | configuration.c:2873-3115 | the sanitising steps, one after the other, give every setting its own sanitised value |
| Settings.SettingsStore.SanitiseOne | configuration.c:2873-3115 | the statement for one setting changes that setting only, to its sanitised value |
| Settings.SettingsStore.UpdateStreamUrl | retroarch.c:9142-9186 | sets the streaming address that the mode, the stream keys and the port prescribe, and nothing else |
| Settings.SanitisedBounds | configuration.c:2873-2880 | sync frames, frame delay and swap interval end up at the nearest value within their bounds |
| LoadedSettings.RewindBufferSize | configuration.c:2770-2783 | "rewind_buffer_size" below 10000 is megabytes, from the file or from before |
| LoadedSettings.OtherSize | configuration.c:2770-2776 | no other size is scaled |
| LoadedSettings.LoadedInt | configuration.c:2756-2761 | a signed decimal number is loaded as it |
| LoadedSettings.LoadedUint | configuration.c:2763-2768 | an unsigned one too, up to 32 bits |
| LoadedSettings.LoadedBool | configuration.c:2712-2718 | four texts are values of a switch, any other leaves it as it was |
| LoadedSettings.Hexadecimal | libretro-common/file/config_file.c:689-706 | a number behind "0x" is hexadecimal |
| LoadedSettings.Octal | libretro-common/file/config_file.c:689-706 | and octal behind a zero |
| LoadedSettings.BlanksAndPlus | libretro-common/file/config_file.c:689-706 | white space and a plus sign in front do not matter |
| LoadedSettings.LoadedText | configuration.c:2832-2849 | a handled text is loaded as it is, a path expanded; one that is not handled stays |
| LoadedSettings.SanitisedHistory | configuration.c:2888-2963 | an empty history path gets its default in the history directory |
| LoadedSettings.SanitisedDefault | configuration.c:2992-3029 | "default" empties sixteen settings |
| LoadedSettings.SanitisedDirectories | configuration.c:2965-3043 | screenshots need a directory that exists; "default" is the default log directory |
| LoadedSettings.SanitisedMenu | configuration.c:2591-2621 | the menu driver becomes "rgui" unless the video driver is one of fourteen or none |
| LoadedSettings.OthersAreKept | configuration.c:2873-3115 | no other setting is touched |
| LoadedSettings.StreamAddress | retroarch.c:9142-9186 | the address of each streaming mode |
| Overrides.LoadSettles | configuration.c:2632-3130 | after any load, sanitising, the streaming address and the megabyte rule have nothing left to change: the state an override is taken from |
| Settings.SettingsStore.LoadFile | configuration.c:2632-3130 | loading into the live settings or into others: the menu driver check looks at the live ones, and their streaming address is set in either case |
| Settings.RecordedValue | configuration.c:4042-4105 | a value of any kind, abbreviated paths included, is read back from its recorded text exactly when it is recordable |
| Settings.Compare | configuration.c:4026-4125 | the comparing loops set exactly the lines of the difference |
| Settings.SaveOverrides | configuration.c:4000-4125 | the override file is the difference between the sanitised base and the settings in memory, once their streaming address is set, as it reads back |
| LoadedSettings.WrittenSettings | configuration.c:4042-4105 | an override has a line for every setting that differs from the base, "video_shader" alone excepted |
| LoadedSettings.WrittenText | libretro-common/file/config_file.c:867-1000 | switches are written as "true" and "false", texts as they are, paths abbreviated |
| LoadedSettings.WrittenNumber | libretro-common/file/config_file.c:944-958 | numbers in decimal, those above 2^31 with a sign |
| Overrides.DiffNamesWhatDiffers | configuration.c:4042-4105 | the difference names a key exactly when its sanitised base value differs |
| Overrides.OverrideRoundTrip | configuration.c:4000-4125 | the difference over the raw base, sanitised again, loads back all the settings it was taken from exactly when every difference that needs a record is recordable |
| Overrides.RestoredExactlyWhenRecordable | configuration.c:4042-4125 | setting by setting: it comes back if and only if it equals the base view or its value is recordable |
| Overrides.UnnamedSettings | configuration.c:2712-2849 | a setting the base does not name comes back as what the override file says of it, a cut text or size included, and as it was before the reload where it says nothing; the file says the value in memory exactly when it differs from the initial one and is recordable |
| Overrides.MenuRestored | configuration.c:2591-2621 | the menu driver comes back together with the video driver it is checked against |
| Overrides.StreamRestoredExactly | configuration.c:3124 | the streaming address comes back exactly when it is the one that the reloaded settings prescribe, or they prescribe none and it equals the base view or is recordable |
| Overrides.StreamRestored | retroarch.c:9142-9186 | when mode, keys and port come back, it is lost only if they prescribe no address, it differs and it is not recordable |
| Overrides.EmptiedKeyReplacesUrl | retroarch.c:9142-9186 | with a Twitch key emptied in memory the reload puts the address with the key of the base in place of the recorded one |
| OverrideLayers.AppendPathSplitsBack | configuration.c:2669-2694 | the joined append path splits back into exactly the existing layers, in order |
| OverrideLayers.AppendLayers | configuration.c:2669-2694 | the append loop applies them one after the other and skips a missing one |
| OverrideLayers.FindLayers | configuration.c:3229-3326 | the append path names the core, content directory and game files that exist |
| OverrideLayers.LayersWinInOrder | configuration.c:3229-3326 | each key is read from the game file, else the content directory's, else the core's, else the base |
| OverrideUndo.UnloadRestoresBase | configuration.c:3359-3377 | reloading the base after any override gives every setting the base names its base-loaded value; the menu driver and the streaming address when the settings behind them return |
| OverrideUndo.UnloadKeepsUnnamed | configuration.c:3359-3377 | a setting the base does not name keeps the override's value, but for a menu driver that does not suit the video driver and an address that is prescribed |
| OverrideUndo.UnloadRestoresUnnamed | configuration.c:3359-3377 | so one that hangs on no other setting has its old value again if and only if the override left it alone |
| FileNames.ReplaceAll | configuration.c:3597-3608 | the inner `while (1)` terminates and replaces every occurrence of one character |
| FileNames.CleanName | configuration.c:59-63 | the loop nest keeps the length and maps each invalid character to an underscore and no other |
| FileNames.CleanedExactly | configuration.c:59-63 | the sixteen characters that are replaced |

## Left out

- PlaylistHistory.RuntimePushInheritsSlot: strings are values, so that the inherited strings are the very
  pointers of another entry is not modelled; nor is any other allocation or aliasing.
- Playlist.Playlist.PushEntry: asks for a ROM list in exactly the stored entries whose list the code
  dereferences unchecked, and for a capacity of at least one, below which the code writes in front of the
  array; the runtime push and the two methods that make room ask for that capacity too.
- Playlist.Playlist.UpdateIndex: an index equal to the size of a full array, behind which the code writes, is
  not modelled, and an update that passes the stored pointer itself is not told from one with an equal text.
- Playlist.Playlist.UpdateRuntimeIndex: the same index is not modelled.
- PlaylistCoherence.CoherentThroughout: its updates address live entries.
- PlaylistJsonSafety.SafeThroughout: the JSON text level (lexing, escapes, encoding) is below the event
  streams; the integer target of the handlers is never set in the code and has no counterpart.
- CoreApi.ParserInvertsPrinting: the 32-character buffer for the name is not modelled, so for names of more
  than 31 letters the lemmas about the parser say nothing of the code; the two 16-character digit buffers are,
  and versions of up to nine digits avoid 32-bit overflow of `sscanf`.
- CoreApi.HwApiSupported: the driver's version comes as the two numbers that `sscanf` finds in its text.
- CoreSupport.GetSupportedCores: the C library's `qsort` is replaced by an insertion sort with swaps; only
  its result matters. `path_get_extension` and the archive listing are parameters. Extensions of more than 253
  characters, which the code cuts, are not.
- PathText.FillExpanded: of a lone `~` or `:` with a known directory the code reads on behind the end of the
  text; here nothing follows. The slash is that of systems other than Windows.
- Settings.SettingsStore.ReadTable: leaves out the loops over float, LED and per-user settings and the colour,
  which are rounded or have no table of their own; the tables for arrays, paths, booleans and numbers, read by
  a loop each in the code, are one table with a kind a row.
- Settings.Compare: leaves out the loops over float and per-user settings.
- Settings.SettingsStore.SanitiseSettings: leaves out the float clamps, and the save, state and core directories
  and the core path, which are kept outside the settings; the platform is the one without special cases.
- Settings.SettingsStore.LoadFile: leaves out float, colour, LED, per-user and key binding settings and the
  switches for logging and performance counters. No user name was given on the command line: with one, the
  load keeps `netplay_nickname` as it was (configuration.c:2692-2694 and 2864-2871).
- Settings.SaveOverrides: leaves out float settings, settings whose location is global rather than inside the
  settings (comparing them compares a location with itself), per-user input settings, the deletion of an empty
  override file and the directory creation around it.
- Overrides.OverrideRoundTrip: that an unrecordable difference is lost is claimed for a default log directory
  that is recordable itself, since sanitising could otherwise happen to repair the loss.
- Overrides.RestoredExactlyWhenRecordable: leaves out the menu driver and the streaming address, whose values
  hang on other settings and which have their own lemmas.
- Overrides.UnnamedSettings: leaves out the menu driver, the streaming address and the history paths, whose
  values hang on other settings.
- OverrideUndo.UnloadRestoresUnnamed: leaves out the same; `UnloadKeepsUnnamed` says what becomes of them.
- ConfigFile.PlainReadsBack: values with newlines, and blanks or comment signs in unquoted values that a user
  typed, are not modelled; the writer always quotes.
- OverrideLayers.LayersWinInOrder: `#include` lines, comments and duplicate keys inside one file beyond the first
  are not modelled; a file is the list of its readable lines. The joined path is not cut to `PATH_MAX`.
- RuntimeLogFile.EveryReachableLogRoundTrips: a date that is set must fit its columns, and a file that is loaded
  must show no negative number where a column is limited, which `LoadedLogRoundTrips` proves necessary.
- Text buffers: truncation to `PATH_MAX` and to the 8192 characters of the writers' number buffer.
- The Windows and iOS variants of path comparison and path text, and the unquoted metadata of one console.
- `playlist_qsort`, getters, validity checks, the cached playlist, command wrappers, default tables, driver
  name lookups, keybind tables and the remaining thin wrappers: easy members.
- Reading and writing of files, logging and on-screen messages. A file that cannot be opened for writing is
  the parameter `canOpen`.
