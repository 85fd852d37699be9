# Free AugmentCode Data Cleaner, modelled in Dafny

This project models the core of the Free AugmentCode Data Cleaner. The
cleaner finds the data the AugmentCode extension leaves on a machine:
configuration files, SQLite databases, workspace caches, account files,
telemetry IDs and registry keys. It backs each item up into a
timestamped directory, then removes or rewrites the item: AugmentCode
rows, account e-mail addresses, session data, caches and lock files, and
device, machine and session IDs. A manifest records every backup so it
can be restored. Each module is one file of the cleaner:

- `Utils` models the directory and file searches and the ID formats.
- `Backup` models the backup store.
- `Config` models the search for IDs and accounts in JSON, INI, XML and
  text files.
- `ConfigRewrite` models how one ID is rewritten in those files.
- `Account` models the discovery and cleaning of account files.
- `Database` models the analysis and cleaning of SQLite databases.
- `Workspace` models the discovery, analysis and cleaning of
  workspaces.
- `Telemetry` models the discovery and rewriting of telemetry IDs.
- `Ide` models the IDE manager.
- `Cleaner` models the orchestrator and its status.
- `Common`, `Patterns` and `Timestamps` hold the string helpers, the
  fixed regular expressions and the backup directory names.

The file system is seen in two ways:

- Discovery reads a snapshot tree (`Utils.Node`). A directory in the
  tree may refuse to be listed.
- Backup and cleaning change a flat store (`Backup.Disk`). The store
  maps each path to its content, holds a set of directories, and maps
  each backup directory to what its manifest reads as.

A method that changes files changes `disk` in a `BackupManager` object
that all the cleaners share, as the Python objects share theirs. Each
loop of the source is a method with a `while` loop. The loop's invariant
ties it to a specification function over a prefix of its input. The
properties the cleaner promises are proved about those functions as
lemmas.

Whatever the program cannot know in advance comes in as a parameter:

- whether a backup copy, write, delete or SQL statement succeeds (restore copies are not among them: see "## Left out");
- what a parser makes of a file;
- what the IDE detector reports;
- what the registry holds;
- the clock's readings;
- the random bits behind `uuid4` and `random.choices`.

Parsed documents are datatypes (`Config.Json`, `Config.IniEntry`, XML
elements and text lines), not bytes.

Places where the code does not do what it evidently intends are
listed under "## Findings". For each, the model has one member that
follows the code as written, with a lemma that shows the discrepancy on
a concrete input. It also has a corrected member with the intended
property proved. The rest of the model uses the corrected member. The
rows of the table say which members are which.

## Model

| member | source | states |
|---|---|---|
| Common.Dedup | account_cleaner.py:93 | `list(set(xs))`: no element twice, nothing new, nothing lost (same membership as the input) |
| Common.ReplaceAllAbsent | account_cleaner.py:168 | `content.replace(email, '[REMOVED]')` leaves a text that lacks the address unchanged |
| Common.ReplaceAllLeavesNone | account_cleaner.py:177 | after `content.replace(target, '[REMOVED]')` no occurrence of the target is left, when the replacement cannot recreate one |
| Common.ReplaceAllIdempotent | account_cleaner.py:168 | replacing an address twice gives the same text as replacing it once |
| Common.ReplaceAllKeepsAbsent | account_cleaner.py:168 | `str.replace` cannot create an occurrence of another string the text lacked |
| Common.ReplaceAllKeptPrefix | account_cleaner.py:168 | the text in front of the first replacement is the input's own |
| Common.ReplaceAllSplit | account_cleaner.py:177 | `str.replace` treats the text on either side of a character the pattern lacks separately |
| Common.ReplaceAllAround | account_cleaner.py:177 | text set off by a character the target lacks, and not containing the target, comes through `replace` intact |
| Common.SplitHeadPrefix | account_cleaner.py:180 | `target_email.split('@')[0]` is a prefix of the address |
| Common.ReplaceCharIsMap | backup_manager.py:131 | `key_path.replace(c, '_')` maps each character on its own |
| Common.StripShape | config_manager.py:237 | `line.strip()` has no whitespace at either end and only whitespace was cut off |
| Common.JoinSplit | config_manager.py:364-376 | joining the lines of a split text gives the text back, so a file read as lines and written back unchanged is unchanged |
| Common.SplitJoin | config_manager.py:279 | splitting a join gives the parts back when no part holds the separator |
| Common.ParseNatToString | account_cleaner.py:211-214 | reading back the decimal text of a count gives the count |
| Patterns.RunEnd | account_cleaner.py:91 | a greedy character-class run: every character in the run is in the class and the next one is not |
| Patterns.TldEnd | account_cleaner.py:91 | `[A-Z\|a-z]{2,}\b`: the longest top-level-domain end that is a word boundary, or none |
| Patterns.DotFrom | account_cleaner.py:91 | the domain part backtracks to a dot followed by an acceptable top-level domain; every matched character is an email character |
| Patterns.EmailAt | account_cleaner.py:91 | an email match starting at `i` holds an `@` and only email characters |
| Patterns.PatternEnds | config_manager.py:29-38 | `a[_-]?b` tries the separator first: every candidate end lies inside the text |
| Patterns.LastWordAt | config_manager.py:29-38 | a key pattern match ends with the pattern's last word |
| Patterns.AssignFrom | config_manager.py:228 | `\s*[=:]\s*([^\s\n]+)`: the value group is a non-empty run of non-space characters ending at a space or the end of line |
| Patterns.FirstAssign | config_manager.py:228 | the first key end the rest of the pattern accepts wins (backtracking order) |
| Patterns.QuotedAt | account_cleaner.py:97-100 | `"key":\s*"([^"]+)"`: the value has no quote and is closed by one |
| Patterns.MatchAt | config_manager.py:228 | an anchored match is well formed and starts where asked |
| Patterns.SearchFrom | config_manager.py:228 | `re.search`: the leftmost match, with no match starting before it; none at all when it returns nothing |
| Patterns.FindAllFrom | account_cleaner.py:92 | `re.findall`: every result is a match at its start, and the matches do not overlap and come in order |
| Patterns.FindAllIsRepeatedSearch | config_manager.py:567 | `finditer` is repeated `search`: the first match is the leftmost, the rest are found from its end; empty iff nothing matches |
| Patterns.Values | account_cleaner.py:107 | `findall` with one group returns exactly the group texts, one per match |
| Patterns.EmailMatchShape | config_manager.py:573 | an email match's text occurs in the line, holds `@` and only email characters |
| Patterns.FoundValueMatched | account_cleaner.py:92 | every value `findall` returns is the group of a match in the text |
| Patterns.FoundEmailsOccur | account_cleaner.py:92 | every extracted email occurs in the file content and has an `@` |
| Patterns.ReplaceWordNoMatch | account_cleaner.py:173 | `re.sub(r'\bu\b', ...)` changes nothing where `u` never stands as a whole word |
| Patterns.EmbeddedWordKept | account_cleaner.py:182 | a prefix embedded in a longer word (`eve` in `steven`) is not replaced |
| Patterns.StandaloneWordReplaced | account_cleaner.py:182 | a standalone word is replaced by `[REMOVED]` |
| Patterns.ReplaceWordKeptPrefix | account_cleaner.py:173 | the text before the first substitution is the input's own |
| Patterns.WordScanReaches | account_cleaner.py:182 | the whole-word substitution cannot run across a character the word lacks |
| Patterns.WordScanCopies | account_cleaner.py:182 | where no whole word starts, the input is copied through |
| Patterns.DelimitedNoWord | account_cleaner.py:182 | inside quote-delimited text that lacks the word, the word does not occur |
| Patterns.WordKeepsDelimited | account_cleaner.py:182 | quote-delimited text that lacks the word survives the whole-word substitution |
| Patterns.WordMissNotAtStart | account_cleaner.py:173 | keeping a character that does not start a pattern cannot make the pattern start there |
| Patterns.ReplaceWordKeepsAbsent | account_cleaner.py:173 | whole-word substitution creates no occurrence of a string the input lacked |
| Timestamps.Pad | backup_manager.py:40 | `%04d`/`%02d`: exactly `w` digits |
| Timestamps.LexLessTotal | backup_manager.py:194 | Python string order is a strict total order |
| Timestamps.LexLessTransitive | backup_manager.py:194 | Python string order is transitive |
| Timestamps.PadOrder | backup_manager.py:40 | zero-padded numbers of one width order as text exactly as numbers |
| Timestamps.BackupName | backup_manager.py:40 | `strftime("Backup_%Y%m%d_%H%M%S")` is 22 characters starting with `Backup_` |
| Timestamps.BackupNameOrder | backup_manager.py:40 | backup names sort like the seconds they were made in, and are equal iff made in the same second |
| Timestamps.IsoFormat | backup_manager.py:46 | `isoformat()` writes microseconds only when non-zero (19 or 26 characters) |
| Timestamps.IsoFormatOrder | backup_manager.py:194 | manifest timestamps sort chronologically, and equal texts are equal times |
| Timestamps.ClockTextOrder | backup_manager.py:46 | the time-of-day text orders by hour, minute, second, microsecond |
| Backup.UpdateManifest | backup_manager.py:154-161 | a readable manifest gets the item appended and keeps its timestamp; an unreadable one is left alone; files and other manifests unchanged |
| Backup.BackupDirFor | backup_manager.py:40-41 | the backup directory is a child of the root named `Backup_` plus 15 characters |
| Backup.CreateBackupDir | backup_manager.py:38-55 | the directory exists afterwards; when the write succeeds its manifest has the timestamp, the kind and no items; no file changes |
| Backup.SameSecondSharesDirectory | backup_manager.py:40-42 | two runs get the same directory iff they start in the same second, and the second run resets the first run's manifest to no items |
| Backup.FileDestination | backup_manager.py:64-67 | the copy goes to `<dir>/<relative>`, or `<dir>/files/<name>` without one |
| Backup.BackupFileOutcome | backup_manager.py:57-86 | succeeds iff the source is a file and the copy succeeds; then the copy holds the source's content and the manifest gains one file item; a missing source changes nothing |
| Backup.BackupDirectoryOutcome | backup_manager.py:88-118 | succeeds iff the source is a directory and the copy succeeds; then the tree is copied and the manifest gains one directory item with the tree's size |
| Backup.CopyTreeCopies | backup_manager.py:101 | every file below the source reappears below the destination with its content |
| Backup.SafeKeyName | backup_manager.py:131 | every `\`, `/` and `:` becomes `_`; nothing else changes |
| Backup.BackupRegistryOutcome | backup_manager.py:120-152 | fails off Windows; otherwise succeeds iff the write succeeds, and then the JSON file and one registry manifest item are added |
| Backup.BackupsAppendOnly | backup_manager.py:154-161 | no backup operation removes or rewrites an item of any manifest |
| Backup.RestoreItem | backup_manager.py:213-245 | a file item is restored iff its copy is a file, and writes the copy's content over the source; registry items change nothing |
| Backup.RestoreOutcome | backup_manager.py:197-248 | fails without a readable manifest; otherwise succeeds iff at least one item is restored; a registry-only manifest never succeeds |
| Backup.RegistryOnlyRestoresNothing | backup_manager.py:240-242 | registry items restore nothing and leave the disk as it was |
| Backup.RestoreFileItems | backup_manager.py:213-225 | restoring file items whose copies exist restores every one, each source gets its copy's content, and other files are unchanged |
| Backup.BackupFiles | backup_manager.py:57-86 | a sequence of file backups only appends to the manifest |
| Backup.BackupFilesCopies | backup_manager.py:57-86 | each backed-up file has its content at its destination |
| Backup.BackupFilesItems | backup_manager.py:154-161 | the manifest ends up holding exactly the previous items plus one file item per backup, in order |
| Backup.BackupMutateRestore | backup_manager.py:57-86 | backing files up, changing them, then restoring gives every file its backed-up content, as long as the destinations are distinct |
| Backup.SameNameBackupsCollide | account_cleaner.py:139-141 | as written: two files with the same name back up to one destination, and restoring then gives the first file the second's content |
| Backup.KeepingDestinationInjective | account_cleaner.py:139-141 | corrected destinations (category plus full source path) are equal only for the same source |
| Backup.NamedRelative | account_cleaner.py:139-141 | as written: the relative path the cleaners pass is the category followed by the file name only |
| Backup.NamedDestinationsCollide | database_cleaner.py:226 | as written: two sources get the same file copy, and the same directory copy, exactly when their file names are equal, wherever they lie (Findings) |
| Backup.KeepingPathsRoundTrip | account_cleaner.py:139-141 | corrected: backing up distinct files, changing them and restoring gives each file its own content back |
| Backup.InfoFor | backup_manager.py:174-189 | a backup's entry carries its name and path, and the timestamp, item count and size sum of a usable manifest, else none, 0 and 0 |
| Backup.Collect | backup_manager.py:170-191 | only `Backup_` directories of the listing are collected, each with its own entry |
| Backup.CollectCount | backup_manager.py:170-191 | over a listing without repeats, each backup directory of it is collected exactly once |
| Backup.InsertNewestFirst | backup_manager.py:194 | inserting into a newest-first list keeps it newest first |
| Backup.SortNewestFirst | backup_manager.py:194 | the sort is a permutation and puts the newest timestamps first |
| Backup.BackupListing | backup_manager.py:163-195 | corrected (missing timestamp sorts as empty text): empty without a root; otherwise a newest-first permutation of the collected entries |
| Backup.ListBackupsAgrees | backup_manager.py:163-195 | whenever the listing as written does not raise, it equals the corrected listing |
| Backup.ListedIffBackupDir | backup_manager.py:170-171 | over the root's real listing, every `Backup_` directory directly inside the root is listed exactly once with its own entry, and nothing else is |
| Backup.MissingManifestBreaksListing | backup_manager.py:185-194 | as written: a backup without a manifest beside one with a manifest makes the sort raise TypeError, while the corrected listing shows both |
| Backup.DeleteBackupOutcome | backup_manager.py:250-258 | succeeds iff the path is a directory and the removal goes through; then the directory, everything below it and its manifest are gone and nothing else changes; on failure nothing changes |
| Backup.DeletedBackupNotListed | backup_manager.py:250-258 | after deleting a backup, the listing no longer shows it and still shows every other backup with its entry |
| Backup.RootFor | backup_manager.py:20-33 | the given root, else `FreeAugmentCode_Backups` in the home directory (its `Documents` on Windows) |
| Backup.BackupManager.constructor | backup_manager.py:20-35 | the root is chosen as above and created with its parents |
| Backup.BackupManager.CreateTimestampedBackupDir | backup_manager.py:38-55 | returns the directory for the clock reading; the disk becomes `CreateBackupDir` of the old disk |
| Backup.BackupManager.RecordItem | backup_manager.py:154-161 | the disk becomes `UpdateManifest` of the old disk |
| Backup.BackupManager.BackupFile | backup_manager.py:57-86 | result and new disk are `BackupFileOutcome` of the old disk |
| Backup.BackupManager.DirectorySize | backup_manager.py:105 | the loop's total is the sum of the sizes of the files below the directory |
| Backup.BackupManager.BackupDirectory | backup_manager.py:88-118 | result and new disk are `BackupDirectoryOutcome` of the old disk |
| Backup.BackupManager.BackupRegistryKey | backup_manager.py:120-152 | result and new disk are `BackupRegistryOutcome` of the old disk |
| Backup.BackupManager.ListBackups | backup_manager.py:163-195 | the corrected listing (`BackupListing`; as written: `ListBackupsAsWritten`, `MissingManifestBreaksListing`), given the root's real listing |
| Backup.BackupManager.RestoreOne | backup_manager.py:213-245 | one pass of the restore loop is `RestoreItem` |
| Backup.BackupManager.RestoreFromBackup | backup_manager.py:197-248 | result and new disk are `RestoreOutcome` of the old disk |
| Backup.BackupManager.DeleteBackup | backup_manager.py:250-258 | result and new disk are `DeleteBackupOutcome` of the old disk |
| Config.FirstMatchingFrom | config_manager.py:117-127 | the pattern loop with its `break`: the first pattern that occurs in the key, and none before it; none when no pattern occurs |
| Config.FindFirstPattern | config_manager.py:117-127 | the loop returns the first matching pattern (`FirstMatching`) |
| Config.KeyMatchesLastWord | config_manager.py:118 | a key a pattern occurs in contains the pattern's last word, ignoring case |
| Config.IdKeysContainId | config_manager.py:28-39 | every key an ID pattern matches contains `id`, ignoring case |
| Config.KeyHitIff | config_manager.py:117-127 | a key gives exactly one record iff some pattern occurs in it, and none otherwise |
| Config.KeyHit | config_manager.py:119-126 | a record keeps the key, the value and the kind, tagged with the file and format |
| Config.EntryRecords | config_manager.py:400-424 | one dictionary entry gives at most two records (pattern hit, email value), both at its key path with its key and value |
| Config.EntryRecordCount | config_manager.py:400-424 | an entry gives one record per matching key plus, in the account search, one per value that starts with an email |
| Config.RecordsOfAppend | config_manager.py:111-133 | the records of two entry lists are the records of each, in order |
| Config.SearchValueIsPerEntry | config_manager.py:111-133 | `search_dict` records exactly the entries of the document, each for its own key and value, in document order |
| Config.SearchJson | config_manager.py:103-136 | an unreadable or empty document gives nothing; otherwise the per-entry records of every entry at any depth |
| Config.SearchJsonValue | config_manager.py:111-133 | the recursive walk with its dictionary and list loops returns `SearchValue` |
| Config.ScanJsonEntry | config_manager.py:113-127 | one dictionary entry's pattern loop and email check return `EntryRecords` |
| Config.IniEntryRecords | config_manager.py:445-470 | one INI entry gives at most two records, each in its section with its key and value |
| Config.ScanIniEntry | config_manager.py:447-470 | the entry loop body returns `IniEntryRecords` |
| Config.SectionRecordsStep | config_manager.py:148-159 | the records of one more entry are those before it plus the entry's own |
| Config.IniRecordsSnoc | config_manager.py:146-159 | the records of one more section are those before it plus the section's own |
| Config.SearchIni | config_manager.py:138-163 | the section loop returns the records of every entry of every section, in order |
| Config.ScanSection | config_manager.py:148-159 | the entry loop returns the section's records |
| Config.IniRecordSource | config_manager.py:146-158 | every INI record names a section and an entry of it whose key and value it carries |
| Config.AttrRecords | config_manager.py:516-543 | an attribute's records are attribute records at the element path with its name |
| Config.TagRecords | config_manager.py:176-188 | a tag record is an element record at the element path with the tag |
| Config.NodeRecordsAppend | config_manager.py:173-207 | the records of two node lists are the records of each, in order |
| Config.SearchElementIsPerNode | config_manager.py:173-207 | `search_element` visits every element once, in document order, and records it on its own |
| Config.SearchXml | config_manager.py:165-214 | a tree the parser rejects gives nothing; otherwise the records of every element in document order |
| Config.SearchXmlElement | config_manager.py:173-207 | the recursive method returns `SearchElement` |
| Config.SearchNextChild | config_manager.py:206-207 | one pass of the child loop appends that child's records |
| Config.ScanXmlElement | config_manager.py:176-203 | the element's own checks return `OwnRecords` |
| Config.ScanXmlAttrs | config_manager.py:191-203 | the attribute loop returns the records of every attribute, in order |
| Config.ScanNextAttr | config_manager.py:191-203 | one pass of the attribute loop appends that attribute's records |
| Config.ScanXmlTag | config_manager.py:177-188 | the tag's pattern loop returns `TagRecords` |
| Config.ScanXmlAttr | config_manager.py:192-203 | one attribute's checks return `AttrRecords` |
| Config.EmailRecord | config_manager.py:568-577 | an email record is a text record of its line whose value occurs on that line |
| Config.EmailRecords | config_manager.py:567-577 | one record per email match, all on that line |
| Config.AssignRecord | config_manager.py:226-238 | a `key=value` match gives one record with the query's kind and the pattern text, found on that line |
| Config.AssignRecords | config_manager.py:226-238 | every matching pattern gives at most one record on the line (no `break`) |
| Config.LineRecords | config_manager.py:565-593 | a line's records are all on that line: its emails first, then the key patterns |
| Config.FromLinesSnoc | config_manager.py:225 | records from the first `k-1` lines plus records of line `k` come from the first `k` lines |
| Config.TextRecords | config_manager.py:224-238 | every record comes from one of the lines, numbered from 1, and its value occurs on that line |
| Config.SearchTextSpec | config_manager.py:216-243 | the records of a text file come from its lines and are tagged `text`; an unreadable file gives none |
| Config.SearchText | config_manager.py:224-238 | the line loop returns `SearchTextSpec` |
| Config.ScanLine | config_manager.py:565-593 | one line's loops return `LineRecords` |
| Config.ScanEmails | config_manager.py:567-577 | the `finditer` loop returns one record per email |
| Config.ScanAssignments | config_manager.py:226-238 | the pattern loop of a line returns `AssignRecords` |
| Config.ScanNextAssignment | config_manager.py:226-238 | one pass of that loop appends the pattern's record |
| Config.ScanAssignment | config_manager.py:228-238 | one key pattern on one line returns `AssignRecord` |
| Config.FileRecords | config_manager.py:45-53 | a file's records are tagged with its path and the format its extension selects; any other extension is read as text |
| Config.SearchFile | config_manager.py:44-59 | the branch on the extension returns `FileRecords` |
| Config.SearchFiles | config_manager.py:41-61 | the file loop returns the records of every file, in order |
| Config.SearchNextFile | config_manager.py:41-57 | one pass of the file loop appends the file's records |
| Config.SearchForTelemetryIds | config_manager.py:23-61 | the records of every file for the ID patterns |
| Config.SearchForAccountData | config_manager.py:63-101 | the records of every file for the account patterns and email values |
| ConfigRewrite.FieldIndex | config_manager.py:283 | `key in current` for an object: the position of the key, or none when no field has it |
| ConfigRewrite.SetAtDefined | config_manager.py:279-299 | the JSON rewrite succeeds exactly when the dotted path leads through objects to an existing key |
| ConfigRewrite.SetAtThenLookup | config_manager.py:290-293 | after the rewrite the path holds the new value |
| ConfigRewrite.SetAtKeepsOthers | config_manager.py:290-293 | every path that neither extends nor is extended by the rewritten one reads as before |
| ConfigRewrite.BracketPathFails | config_manager.py:282-287 | a key path with a list index (`[i]`, as the search records items) names no key, so the rewrite fails |
| ConfigRewrite.ModifyJsonId | config_manager.py:269-299 | only a success writes a document; a failure writes nothing |
| ConfigRewrite.JsonRewriteRoundTrip | config_manager.py:269-299 | a dotted path to an existing key is rewritten: the new document holds the new value there and every unrelated path is untouched |
| ConfigRewrite.SectionIndex | config_manager.py:310 | `section in config`: the position of the section, or none |
| ConfigRewrite.OptionIndex | config_manager.py:310 | `key in config[section]`: option names are stored lower-cased and the key is lower-cased for the lookup |
| ConfigRewrite.ModifyIniId | config_manager.py:301-320 | only a success writes the parsed file back; a failure writes nothing |
| ConfigRewrite.IniRewriteSpec | config_manager.py:310-320 | the INI rewrite succeeds iff the section exists and holds the key; then that one option holds the new value and every other option of every section is unchanged |
| ConfigRewrite.IniRewriteThenRead | config_manager.py:310-317 | after a successful INI rewrite, reading the option back gives the new value |
| ConfigRewrite.AttrIndex | config_manager.py:346 | `name in elem.attrib`: the attribute's position, or none |
| ConfigRewrite.FirstHit | config_manager.py:335-352 | the first element in document order the rewrite is after, none before it; none when no element qualifies |
| ConfigRewrite.FirstHitAppend | config_manager.py:335 | the first hit in a concatenation is the first part's, else the second part's shifted |
| ConfigRewrite.ReplaceFirstSpec | config_manager.py:333-354 | the XML rewrite finds nothing iff no element qualifies; otherwise it changes the first qualifying element in `root.iter()` order and no other |
| ConfigRewrite.ModifyXmlId | config_manager.py:322-354 | only a success writes the tree back; a failure writes nothing |
| ConfigRewrite.Terminate | config_manager.py:365 | the pieces of a split, each with its newline put back except the last |
| ConfigRewrite.ReadLinesRoundTrip | config_manager.py:364-376 | `writelines(readlines())` gives the file back unchanged |
| ConfigRewrite.LineIndex | config_manager.py:367-368 | a line number past the end is refused; otherwise it picks line `n - 1` (`0` picks the last line, as index `-1` does) |
| ConfigRewrite.RewriteLineNeedsExactText | config_manager.py:369-372 | as written: a line the rewrite changes holds `key=old` or `key:old` with no spaces |
| ConfigRewrite.ModifyTextIdAsWritten | config_manager.py:356-385 | as written: only a success writes the lines back; a failure writes nothing |
| ConfigRewrite.TextRewriteAsWrittenSpec | config_manager.py:356-385 | as written: a successful text rewrite writes the same number of lines back, with the numbered line changed and holding `key=old` or `key:old` |
| ConfigRewrite.FirstAssignValue | config_manager.py:228 | the value of a key-pattern match is what the assignment part accepts after the key |
| ConfigRewrite.SpacedAssignmentNotRewritten | config_manager.py:369-372 | as written: the search reports `device_id = abc` with value `abc`, and the rewrite of that record fails because the line lacks `device_id=abc` |
| ConfigRewrite.OneLineWithoutExactText | config_manager.py:369-381 | as written: a one-line file without `key=old` or `key:old` is left alone and the rewrite fails |
| ConfigRewrite.AssignedSpan | config_manager.py:369-370 | the span of the first assignment of `old` to `key`, spaces allowed, holds `old` |
| ConfigRewrite.AssignedSpanFinds | config_manager.py:369-370 | where an assignment occurs, the span search finds one |
| ConfigRewrite.RewriteLineFixed | config_manager.py:369-370 | intended: the line with the new value spliced in where the old value was |
| ConfigRewrite.SearchedAssignmentRewritten | config_manager.py:369-372 | intended: every assignment the text search reports can be rewritten, whatever spaces surround `=` or `:` |
| ConfigRewrite.SearchedAssignmentShape | config_manager.py:228 | a key-pattern match is the key followed by an assignment of the value |
| ConfigRewrite.SpacedAssignmentRewrittenFixed | config_manager.py:369-370 | intended: `device_id = abc` is rewritten to `device_id = new` |
| ConfigRewrite.ModifyTextId | config_manager.py:356-385 | intended text rewrite (as written: `ModifyTextIdAsWritten`): only a success writes lines back |
| ConfigRewrite.TextRewriteSpec | config_manager.py:356-385 | intended: a successful text rewrite changes exactly the numbered line, putting the new value in place of the old one after the key |
| ConfigRewrite.XmlTargetOf | config_manager.py:333-347 | an element record targets its tag and text, an attribute record its name and value |
| ConfigRewrite.ModifyTelemetryId | config_manager.py:245-267 | the rewrite the record's format names, with the intended text rewrite (as written: `ModifyTextIdAsWritten`, `SpacedAssignmentNotRewritten`); success writes a file of that format and needs the write to succeed; unknown formats fail |
| ConfigRewrite.ModifyTelemetryIdAsWritten | config_manager.py:245-267 | as written: the same dispatch with the as-written text rewrite; it agrees with the intended dispatch on every non-text record, and a success needs the write to succeed |
| ConfigRewrite.SpacedRecordFailsAsWritten | config_manager.py:356-385 | as written: the record the search makes of the file `device_id = abc` is not rewritten and `modify_telemetry_id` returns False |
| ConfigRewrite.SpacedRecordRewritten | config_manager.py:245-267 | intended: the same record is rewritten |
| Account.FlattenMember | account_cleaner.py:106-108 | an element is in the concatenated lists iff it is in one of them, so the extended user-name list holds exactly the values of every pattern |
| Account.ValueLists | account_cleaner.py:106-108 | one `findall` result per pattern, in pattern order |
| Account.FoundValuesSnoc | account_cleaner.py:106-108 | `usernames.extend(findall(...))` adds the next pattern's values at the end |
| Account.KeepPlausible | account_cleaner.py:111-114 | the filter `len(u) > 2 and not u.isdigit()` keeps exactly the plausible names and adds none |
| Account.ExtractAccountData | account_cleaner.py:77-122 | an unreadable file gives three empty lists; otherwise the addresses are exactly what the e-mail pattern finds, the user names exactly the values of the seven patterns that pass the filter, both lists without repeats, and `user_ids` equals `usernames` |
| Account.ExtractAccountDataFromFile | account_cleaner.py:77-122 | the loop over the seven patterns computes `ExtractAccountData` |
| Account.MarkerLacks | account_cleaner.py:168 | `[REMOVED]` cannot contain an address with an `@`, and its brackets are not in it |
| Account.FoundEmailsRemovable | account_cleaner.py:91-92 | every address the e-mail pattern finds occurs in the text and can be removed for good |
| Account.EmailTextRemovable | account_cleaner.py:91 | a text of e-mail characters holding `@` can be removed for good |
| Account.ExtractedUsernameMatched | account_cleaner.py:96-114 | every kept user name is the group of one of the seven patterns at some place, longer than two characters and not all digits |
| Account.FindAccountFiles | account_cleaner.py:60-75 | the search loop keeps, in walk order, the candidate files below the directory |
| Account.KeepCandidate | account_cleaner.py:66-71 | one pass of the search loop keeps entry `i` iff it is a candidate |
| Account.CandidatesSource | account_cleaner.py:66-71 | every kept path is a walked file that passes the extension and skip-word tests |
| Account.CandidatesComplete | account_cleaner.py:66-71 | every walked candidate is kept |
| Account.CandidatesDistinct | account_cleaner.py:66-71 | a walk listing each path once gives a search result listing each file once |
| Account.AccountFilesSpec | account_cleaner.py:60-75 | a file is found iff it is a file below the directory whose lowercased name ends in one of the seven extensions and contains none of `temp`, `cache`, `backup`; each at most once |
| Account.Extracted | account_cleaner.py:40-46 | one account-file entry per searched file, in order, since the extraction's dictionary is never empty |
| Account.ExtractedAppend | account_cleaner.py:34-46 | the entries of two searches in a row are those of each, one after the other |
| Account.AllEmails | account_cleaner.py:47 | an address is collected iff some entry holds it |
| Account.AllUserIds | account_cleaner.py:48 | an identifier is collected iff some entry holds it |
| Account.DiscoverySpec | account_cleaner.py:25-58 | discovery lists every searched file in order; its address and identifier lists are the repeat-free unions over those files; the total is the sum of their lengths |
| Account.RemoveEmails | account_cleaner.py:167-168 | the replacement loop over addresses computes `WithEmailsRemoved` |
| Account.RemoveUsernames | account_cleaner.py:170-173 | the whole-word loop over user names longer than four computes `WithUsernamesRemoved` |
| Account.EmailsRemovedLeaveNone | account_cleaner.py:167-168 | after the address loop no listed address is left, whatever the text |
| Account.UsernamesKeepAbsent | account_cleaner.py:170-173 | the user-name loop cannot bring back an address that was gone |
| Account.ExhaustiveRemovesEmails | account_cleaner.py:165-173 | with `remove_all` no occurrence of any listed address is left in the text written back |
| Account.TargetedRemovesTarget | account_cleaner.py:175-182 | in targeted mode no occurrence of the target address is left |
| Account.TargetedKeepsOthers | account_cleaner.py:175-182 | in targeted mode another address set off by characters the target lacks, and containing neither the target nor its substituted local part, is still in the text |
| Account.ExtractThenCleanLeavesNoEmail | account_cleaner.py:77-173 | cleaning a file with what was extracted from it leaves none of its addresses |
| Account.ShortUsernamesKept | account_cleaner.py:172 | user names of at most four characters are never replaced |
| Account.NothingFoundNothingChanged | account_cleaner.py:165-193 | with no listed address in the text and no long user name standing as a word, the text is unchanged, so nothing is written |
| Account.EmailsAbsentKept | account_cleaner.py:167-168 | replacing addresses the text lacks leaves it as it is |
| Account.WordsAbsentKept | account_cleaner.py:170-173 | substituting user names that never stand as words leaves the text as it is |
| Account.ModePrecedence | account_cleaner.py:165-182 | `remove_all` wins over any target; with neither the text is unchanged; a local part of at most three characters is not substituted |
| Account.CleanFileOutcome | account_cleaner.py:156-197 | `_clean_account_file` fails iff the file cannot be read, or its text changed and cannot be written; it touches no other file, directory or manifest |
| Account.CleanStep | account_cleaner.py:134-152 | one pass succeeds iff the backup and the clean both do; a failing backup leaves every file as it was |
| Account.BackupRelative | account_cleaner.py:139-141 | corrected: the account file's copy lies under `account_files` at the whole source path, so distinct files never share a copy (as written `account_files/<name>`, Findings) |
| Account.CleanRunSnoc | account_cleaner.py:134-152 | the run over one more file is one more pass on the disk the run left |
| Account.PassResults | account_cleaner.py:134-152 | one success flag per file |
| Account.CleanRunSucceeds | account_cleaner.py:124-154 | `clean_account_data` returns True iff every pass succeeded; a failure does not stop the loop |
| Account.CleanRunLast | account_cleaner.py:134-152 | the last pass adds its own success to the run's result |
| Account.PassResultsAt | account_cleaner.py:134-152 | pass `k` is judged on the disk the first `k` passes left |
| Account.SkippedFileUntouched | account_cleaner.py:142-145 | a file whose backup fails is skipped: no file changes in that pass |
| Account.BackedUpFileCleaned | account_cleaner.py:147-152 | a file whose backup succeeds is cleaned even after earlier failures and then holds the cleaned text |
| Account.Bullets | account_cleaner.py:220-221 | one bullet line per element, in order |
| Account.AllFileLinesSnoc | account_cleaner.py:236-244 | the file section grows by the lines of one file per pass |
| Account.AppendBullets | account_cleaner.py:220-221 | the bullet loop appends exactly `Bullets(xs)` |
| Account.AppendFileLines | account_cleaner.py:236-244 | the file loop appends each file's lines in order |
| Account.AppendFileEntry | account_cleaner.py:237-244 | one file adds its path line, its counts when non-zero, and a blank line |
| Account.AppendEmailSection | account_cleaner.py:218-222 | the e-mail section as `EmailSection` gives it |
| Account.AppendIdSection | account_cleaner.py:225-231 | the identifier section as `IdSection` gives it |
| Account.AppendFileSection | account_cleaner.py:234-244 | the file section as `FileSection` gives it |
| Account.GenerateAccountReport | account_cleaner.py:199-246 | the report is the report lines joined by newlines |
| Account.ReportCountsRoundTrip | account_cleaner.py:211-214 | the three summary lines read back as the numbers of addresses, identifiers and files |
| Account.ReportListsEveryEmail | account_cleaner.py:218-221 | every discovered address has its own bullet line |
| Account.EmailSectionAt | account_cleaner.py:218-222 | address `k` is line `k + 1` of the e-mail section, which has two more lines than addresses |
| Account.IdSectionCapped | account_cleaner.py:225-231 | at most the first ten identifiers are listed one per line; past ten one line gives the rest, and ten plus that count is the number of identifiers |
| Account.AccountDataCleaner.constructor | account_cleaner.py:20-23 | the cleaner works on the given backup manager |
| Account.AccountDataCleaner.DiscoverAccountData | account_cleaner.py:25-58 | the discovery loop computes `Discover` over the manager's disk |
| Account.AccountDataCleaner.ScanRoot | account_cleaner.py:34-48 | one root adds the entries of its searched files and keeps the collected lists equal to their unions |
| Account.AccountDataCleaner.ScanFile | account_cleaner.py:40-48 | one file adds its entry and keeps the collected lists equal to their unions |
| Account.AccountDataCleaner.CleanAccountFile | account_cleaner.py:156-197 | the manager's new disk and the result are those of `CleanFileOutcome` |
| Account.AccountDataCleaner.CleanAccountData | account_cleaner.py:124-154 | the manager's new disk and the result are those of `CleanRun` |
| Account.AccountDataCleaner.CleanPass | account_cleaner.py:134-152 | one pass extends the run by file `i` |
| Database.AsText | database_cleaner.py:209 | `str(value)` of a fetched value: NULL has no text, a text value is its own text |
| Database.LikeLiteral | database_cleaner.py:187-193 | SQLite LIKE: a pattern led by a literal matches iff the literal starts the text, ignoring ASCII case, and the rest matches the remainder |
| Database.LikeLeadingPercent | database_cleaner.py:187-193 | a pattern led by `%` matches iff the rest matches some suffix |
| Database.LikeContains | database_cleaner.py:193 | `s LIKE '%keyword%'` holds iff the keyword occurs in `s`, ignoring ASCII case, when the keyword has no wildcard |
| Database.LikeAtContains | database_cleaner.py:193 | a match of `keyword%` at `i` is an occurrence of the keyword at `i` |
| Database.ContainsLikeAt | database_cleaner.py:193 | an occurrence of the keyword at `i` matches `keyword%` from `i` |
| Database.EndPatternEndsInId | database_cleaner.py:103-111 | a `.*id$`, `.*_id$` or `.*Id$` match leaves the name ending in `id` (before an optional final newline) |
| Database.IdPatternShapes | database_cleaner.py:103-110 | the twelve patterns: three anchored ID endings, then one for each of the nine words |
| Database.EndsInIdFound | database_cleaner.py:103-111 | a name ending in `id` matches `.*id$` |
| Database.PotentialIdRule | database_cleaner.py:101-113 | a column is a potential ID iff its name ends in `id` or contains one of the nine words, ignoring case |
| Database.TextColumnNames | database_cleaner.py:85-86 | never more names than columns |
| Database.TextColumnNamesMembers | database_cleaner.py:85-86 | a name is listed iff some column of that name has a declared type containing TEXT, VARCHAR or CHAR |
| Database.TextColumnAt | database_cleaner.py:85-86 | under distinct column names, a column is listed iff it is text-typed |
| Database.IdColumnNamesMembers | database_cleaner.py:88-90 | a name is listed as a potential ID column iff a column has it and it is ID-like |
| Database.CleanupTargetIff | database_cleaner.py:115-138 | a table is a cleanup target iff its lowered name contains one of the thirteen keywords, a column has an ID-like name, or it has a text column and at least one row |
| Database.Analyzed | database_cleaner.py:44-49 | one table record per listed name, and no more targets than tables |
| Database.AnalyzedTables | database_cleaner.py:44-49 | every listed table is analysed in order; the targets are exactly the analysed tables that are cleanup targets, in the same order |
| Database.NamesOf | database_cleaner.py:156 | the names of the targets, in order |
| Database.Keep | database_cleaner.py:317 | a DELETE leaves only rows that were there |
| Database.Matching | database_cleaner.py:194 | a SELECT returns only selected rows, and together with what a DELETE keeps it accounts for every row |
| Database.KeepMembers | database_cleaner.py:317 | a row is kept iff it was there and the clause does not select it |
| Database.Deleting | database_cleaner.py:317 | a DELETE on one table shrinks only that table |
| Database.Resolve | database_cleaner.py:459 | a table name reaches a table whose name equals it ignoring ASCII case (itself when it exists), and reaches none exactly when no listed table equals it ignoring case |
| Database.ResolveIgnoresCase | database_cleaner.py:459 | in a database SQLite could hold, a name reaches a table exactly when the two names are equal ignoring ASCII case |
| Database.DeleteResult | database_cleaner.py:317-318 | a DELETE succeeds iff the file is a database and the name reaches a table, ignoring ASCII case; it fails with `OperationalError` exactly when it reaches none; its row count is the number removed from that table |
| Database.DeleteEffect | database_cleaner.py:317 | a DELETE only removes rows, opens a transaction iff it runs, deletes from the table the name reaches ignoring ASCII case, and changes nothing when it fails |
| Database.Connection.constructor | database_cleaner.py:232 | a fresh connection sees the committed contents, with no transaction open |
| Database.Connection.Delete | database_cleaner.py:317 | a DELETE changes what the connection sees as `DeleteEffect` says (the table reached ignoring ASCII case), opens a transaction iff it runs, and leaves the committed contents alone |
| Database.Connection.Commit | database_cleaner.py:256 | a commit saves what the connection sees and closes the transaction |
| Database.Connection.Rollback | database_cleaner.py:263-265 | a rollback brings back the committed contents |
| Database.Connection.Vacuum | database_cleaner.py:255 | VACUUM succeeds iff the file is a database and no transaction is open |
| Database.KeywordClauseSelects | database_cleaner.py:308-315 | the OR of LIKE conditions over the text columns selects exactly the rows in which some text column contains the keyword |
| Database.KeywordDelete | database_cleaner.py:293-322 | a keyword delete only removes rows |
| Database.KeywordDeleteExact | database_cleaner.py:293-322 | a keyword delete works on the table the name reaches ignoring ASCII case: it keeps exactly the rows in which no text column contains the keyword, reports how many it removed, and leaves the other tables as they were |
| Database.KeywordDeletes | database_cleaner.py:279-281 | the loop over tables only removes rows |
| Database.NoKeywordLeftShrunk | database_cleaner.py:279-281 | a later delete cannot bring a keyword row back |
| Database.KeywordDeletesClear | database_cleaner.py:267-291 | after the loop no table a listed name reaches has a row with the keyword in a text column, and every table no listed name reaches is unchanged |
| Database.MatchingColumns | database_cleaner.py:208-210 | never more matching columns than columns |
| Database.MatchingColumnsNonEmpty | database_cleaner.py:208-210 | a row with one truthy text column containing the keyword gets a non-empty list |
| Database.SearchTable | database_cleaner.py:169-217 | each record carries the table name as given; nothing is found when the file is no database or the name reaches no table, ignoring ASCII case (the caught error) |
| Database.RowRecords | database_cleaner.py:199-212 | one record per selected row, in order, with that row's rowid and values |
| Database.SearchTableCount | database_cleaner.py:169-217 | the search on a name finds as many rows as the keyword delete on the same name removes |
| Database.NoLettersNoWord | database_cleaner.py:209 | a text without letters contains no word |
| Database.IntegerTextHasNoLetters | database_cleaner.py:209 | `str` of an integer holds no letter |
| Database.SearchRecordsNameColumns | database_cleaner.py:199-212 | for a keyword of letters, every record names a matching column: the Python re-check agrees with LIKE |
| Database.SearchedRecords | database_cleaner.py:158-160 | every collected record comes from a searched table |
| Database.SearchedRecordsNameColumns | database_cleaner.py:140-167 | for a keyword of letters, every record of the whole search names a matching column |
| Database.SearchedRecordsCount | database_cleaner.py:158-160 | the search finds as many records as the keyword delete would remove from each table |
| Database.EmailColumnRule | database_cleaner.py:379-385 | an e-mail column is exactly one whose lowered name contains `mail` |
| Database.EmailColumnNamesMembers | database_cleaner.py:379-385 | a name is an e-mail column iff a column has it and it contains `mail` |
| Database.EmailDeletes | database_cleaner.py:393-397 | the per-column deletes only remove rows |
| Database.EmailDeletesSnoc | database_cleaner.py:393-397 | each further e-mail column runs its own `= ?` delete on what the previous ones left |
| Database.EmailDeletesKeep | database_cleaner.py:391-397 | the per-column deletes keep exactly the rows where no named column equals the target, and count what they removed |
| Database.AccountTableClean | database_cleaner.py:371-405 | an account-table clean only removes rows |
| Database.KeepEverything | database_cleaner.py:399 | `DELETE FROM t` without a clause keeps no row |
| Database.AccountTableCleanExact | database_cleaner.py:371-405 | with a target and an e-mail column, exactly the rows whose e-mail columns all differ from the target are kept; otherwise the table is emptied; other tables are untouched |
| Database.SampledTextColumns | database_cleaner.py:416-423 | the columns whose value in the first row is a string; none for an empty table |
| Database.SampledTextColumnsSnoc | database_cleaner.py:419-423 | one more column is added iff its first-row value is a string |
| Database.EmailReferenceDelete | database_cleaner.py:412-436 | one table of the e-mail sweep only removes rows |
| Database.EmailReferenceDeletes | database_cleaner.py:407-439 | the e-mail sweep only removes rows |
| Database.EmailReferenceDeletesSnoc | database_cleaner.py:412-436 | each table of the sweep runs on what the previous left |
| Database.UnderscoreMatchesAnyCharacter | database_cleaner.py:431 | LIKE reads `_` in an address as any one character, so sweeping for `a_b` also deletes `axb` |
| Database.AccountTables | database_cleaner.py:343-347 | a table is an account table iff it is listed and its lowered name contains an account pattern |
| Database.AccountTableCleans | database_cleaner.py:349-355 | the account-table loop only removes rows |
| Database.AccountTableCleansSnoc | database_cleaner.py:349-355 | one more table is cleaned on what the previous ones left |
| Database.AccountDataRemoval | database_cleaner.py:324-369 | `_remove_account_data` fails iff the file is no database, and only removes rows |
| Database.DeleteAlls | database_cleaner.py:455-462 | the session loop only removes rows |
| Database.DeleteAllsSnoc | database_cleaner.py:455-462 | each session table is deleted on what the previous left |
| Database.DeleteAllsBegan | database_cleaner.py:455-462 | the session loop opens a transaction iff some name reaches a table, ignoring ASCII case |
| Database.DeleteAllsOnly | database_cleaner.py:455-462 | each table some name reaches (ignoring ASCII case) ends empty, every other is unchanged, and a DELETE ran iff some name reached a table |
| Database.AccountCleansWithoutTarget | database_cleaner.py:391-399 | without a target each account-table clean is a plain `DELETE FROM t` |
| Database.AccountRemovalWithoutTarget | database_cleaner.py:324-369 | with an empty target exactly the account tables are emptied, the e-mail sweep does not run, and no other table changes |
| Database.SessionClear | database_cleaner.py:449-470 | `_clear_session_data` fails iff the file is no database, and only removes rows |
| Database.SessionClearOnly | database_cleaner.py:453-466 | only the tables the four session names reach change, and each of them ends empty |
| Database.SessionTablesIgnoreCase | database_cleaner.py:453-462 | in a database SQLite could hold, the session clear reaches exactly the tables whose name, lower-cased, is one of the four, so `Sessions` is cleared too |
| Database.AugmentRemoval | database_cleaner.py:267-291 | `_remove_augment_records` returns true and only removes rows |
| Database.KeywordDeletesNoDatabase | database_cleaner.py:296-322 | on a file that is no database the keyword loop changes nothing |
| Database.CleanSteps | database_cleaner.py:234-251 | the enabled sub-steps together only remove rows |
| Database.CleanStepsResult | database_cleaner.py:234-251 | the steps succeed unless the file is no database and a listing or deleting step is enabled; on such a file nothing changes |
| Database.CleanDatabaseAsWritten | database_cleaner.py:219-265 | as written: a missing file returns false and changes nothing; otherwise the disk is that of `backup_file` to `database/<name>`; it returns true only for an existing database whose backup copy succeeded; the failing VACUUM is stated by `AsWrittenDiscardsDeletions` (Findings) |
| Database.DatabaseBackupRelative | database_cleaner.py:226 | corrected: the database copy lies under `database` at the whole source path, so distinct databases never share a copy (as written `database/<name>`, used by CleanDatabaseAsWritten; Findings) |
| Database.CleanDatabaseResult | database_cleaner.py:219-265 | intended variant: the call succeeds iff the file exists, its backup copies and it is a database; the database is touched only after a successful backup and keeps what the steps did |
| Database.AsWrittenDiscardsDeletions | database_cleaner.py:253-265 | as written, whenever a DELETE ran the call returns false and the file keeps its old contents, although every step succeeded |
| Database.SessionClearLostAsWritten | database_cleaner.py:249-265 | a database with a `sessions` table under any ASCII case (`Sessions` too) cleaned with only `clear_session_data`: as written the sessions survive and the call fails; in the intended variant the table is empty and the call succeeds |
| Database.DatabaseCleaner.constructor | database_cleaner.py:18-20 | the cleaner works on the given backup manager |
| Database.DatabaseCleaner.AnalyzeDatabase | database_cleaner.py:22-57 | a missing path gives the empty result; otherwise the analysis of the file |
| Database.DatabaseCleaner.Analyze | database_cleaner.py:36-49 | the table loop computes `AnalysisOf` |
| Database.DatabaseCleaner.AnalyzeTable | database_cleaner.py:59-99 | `_analyze_table` computes `TableInfoOf` |
| Database.DatabaseCleaner.SearchTableForKeyword | database_cleaner.py:169-217 | the record loop computes `SearchTable` |
| Database.DatabaseCleaner.SearchForAugmentRecords | database_cleaner.py:140-167 | a missing path gives no records; otherwise the `augment` records of the given tables, or of the analysis' targets when none are given |
| Database.DatabaseCleaner.MatchingColumnsOf | database_cleaner.py:208-210 | the column loop computes `MatchingColumns` |
| Database.DatabaseCleaner.DeleteRecordsWithKeyword | database_cleaner.py:293-322 | the count and the connection's new state are those of `KeywordDelete` |
| Database.DatabaseCleaner.RemoveAugmentRecords | database_cleaner.py:267-291 | returns true; the connection's new state is that of `AugmentRemoval` |
| Database.DatabaseCleaner.CleanAccountTable | database_cleaner.py:371-405 | the count and the new state are those of `AccountTableClean` |
| Database.DatabaseCleaner.EmailColumnsOf | database_cleaner.py:379-385 | the column loop computes `EmailColumnNames` |
| Database.DatabaseCleaner.DeleteByEmail | database_cleaner.py:393-397 | the count and the new state are those of `EmailDeletes` |
| Database.DatabaseCleaner.RemoveEmailReferences | database_cleaner.py:407-439 | the total and the new state are those of `EmailReferenceDeletes` |
| Database.DatabaseCleaner.SweepTable | database_cleaner.py:412-436 | one table's count and new state are those of `EmailReferenceDelete` |
| Database.DatabaseCleaner.RemoveAccountData | database_cleaner.py:324-369 | the result and the new state are those of `AccountDataRemoval` |
| Database.DatabaseCleaner.AccountTablesOf | database_cleaner.py:343-347 | the name loop computes `AccountTables` |
| Database.DatabaseCleaner.CleanAccountTables | database_cleaner.py:349-355 | the total and the new state are those of `AccountTableCleans` |
| Database.DatabaseCleaner.ResetDatabaseTelemetryIds | database_cleaner.py:441-447 | the placeholder returns true |
| Database.DatabaseCleaner.ClearSessionData | database_cleaner.py:449-470 | the result and the new state are those of `SessionClear` |
| Database.DatabaseCleaner.DeleteEvery | database_cleaner.py:455-466 | on a database every named table is deleted; otherwise the first failure ends the loop with nothing changed |
| Database.DatabaseCleaner.CleanDatabase | database_cleaner.py:219-265 | intended variant, committing before VACUUM: the result, disk and database are those of `CleanDatabaseOutcome` (the order as written is `CleanDatabaseAsWritten`) |
| Workspace.LooksLikePathRule | workspace_cleaner.py:146-153 | a value looks like a path iff it has at least three characters and holds a slash, a backslash, a colon, `Documents` or `AppData` (the drive and home indicators add nothing) |
| Workspace.PathValues | workspace_cleaner.py:133-136 | a value is listed iff some entry has a location key and that string value, and it looks like a path |
| Workspace.PathValuesAppend | workspace_cleaner.py:133-138 | the values of two entry lists in a row are those of each, in order |
| Workspace.ExtractPathsAreEntries | workspace_cleaner.py:128-144 | `_extract_paths_from_json` returns exactly the path entries of the document at any depth, in document order |
| Workspace.ExtractFieldsAreEntries | workspace_cleaner.py:132-138 | a dictionary's fields yield exactly their path entries and those nested in their values |
| Workspace.ExtractItemsAreEntries | workspace_cleaner.py:139-142 | a list's items yield exactly the path entries nested in them |
| Workspace.ExtractedPathsSound | workspace_cleaner.py:128-144 | every extracted value looks like a path and is the string value of an entry whose key names a location |
| Workspace.BareListStringsIgnored | workspace_cleaner.py:139-142 | a list of plain strings yields nothing, whatever they look like |
| Workspace.PathsOf | workspace_cleaner.py:71 | one path per descriptor, in order |
| Workspace.UniqueByPath | workspace_cleaner.py:67-74 | de-duplication never adds descriptors |
| Workspace.FirstIndex | workspace_cleaner.py:70-74 | the first descriptor with a given path |
| Workspace.FirstIndexPrefix | workspace_cleaner.py:70-74 | the first index in a prefix is the first index in the whole list |
| Workspace.PathsOfPrefix | workspace_cleaner.py:70-74 | a path in a prefix is a path of the whole list |
| Workspace.UniqueByPathCovers | workspace_cleaner.py:67-74 | the kept descriptors have distinct paths, and every path seen is kept |
| Workspace.UniqueByPathFirsts | workspace_cleaner.py:67-74 | each kept descriptor is the first with its path, and the kept ones keep their relative order |
| Workspace.UniqueByPathStep | workspace_cleaner.py:70-74 | adding a descriptor does not move the first positions of the paths kept before it |
| Workspace.UniqueByPathFirstOf | workspace_cleaner.py:70-74 | each kept descriptor is the first one with its path |
| Workspace.UniqueByPathInOrder | workspace_cleaner.py:70-74 | the kept descriptors appear in the order of their first occurrences |
| Workspace.FileSuffixRule | workspace_cleaner.py:199-208 | the suffix tests hold iff the lowercased name ends in one of the suffixes after at least one character |
| Workspace.CacheDirRule | workspace_cleaner.py:216 | `.cache` and `__pycache__` add nothing: a directory is a cache iff its lowered name contains `cache`, `tmp` or `temp` |
| Workspace.TallySizes | workspace_cleaner.py:174-180 | the file count is the number of walked files and the total size the sum of their sizes |
| Workspace.VisitLists | workspace_cleaner.py:175-185 | one walked entry goes to at most the one list of its category |
| Workspace.TallyMembers | workspace_cleaner.py:174-242 | each list holds exactly the walked entries of its category, the categories tried in the source's order |
| Workspace.CategoriesDisjoint | workspace_cleaner.py:196-221 | a file is never both temporary and session; a directory never both cache and project |
| Workspace.ItemsFor | workspace_cleaner.py:249-276 | one cleanable item per entry, in order |
| Workspace.Cleanables | workspace_cleaner.py:244-278 | the cache folders, then the temporary files, then the session files, one item each, as many as the three lists hold; low risk except session files |
| Workspace.EntryPaths | workspace_cleaner.py:204-221 | the paths of the entries, in order |
| Workspace.AnalyzeWorkspace | workspace_cleaner.py:155-194 | a descriptor iff the path is a directory, carrying its path and name; a directory that cannot be listed is described with nothing in it |
| Workspace.ApartInWalk | workspace_cleaner.py:174-221 | walked entries of different categories have different paths |
| Workspace.ProjectFoldersNotCleanable | workspace_cleaner.py:244-278 | in a real directory tree no project folder is ever a cleanable item |
| Workspace.DeleteItem | workspace_cleaner.py:325-337 | deleting an item fails iff it exists and its deletion raises; a failure changes nothing |
| Workspace.WorkspaceBackupRelative | workspace_cleaner.py:307-310 | corrected: the workspace copy lies under `workspace` at the whole workspace path, so distinct workspaces never share a copy (as written `workspace/<name>`, Findings) |
| Workspace.DeleteSelectedOnly | workspace_cleaner.py:318-337 | the item loop only removes, and removes nothing that is not a selected item or below one |
| Workspace.DeleteSelectedFails | workspace_cleaner.py:321-337 | the loop's result is false iff some selected item's deletion raised; the loop does not stop at the first |
| Workspace.DeleteSelectedRemoves | workspace_cleaner.py:321-337 | every selected item whose deletion does not raise is gone, even after an earlier failure |
| Workspace.ClearCacheDirectories | workspace_cleaner.py:349-367 | every directory below the workspace with a cache name goes, with everything in it; nothing outside the workspace changes |
| Workspace.RemoveLockFiles | workspace_cleaner.py:369-387 | every file below the workspace with a lock-file name goes; every other file and every directory stays |
| Workspace.SweepsEffect | workspace_cleaner.py:339-344 | the sweeps remove what they match and nothing else, and leave no cache-named directory or lock file when asked for |
| Workspace.InCacheDirShrinks | workspace_cleaner.py:349-367 | a path outside every cache directory stays outside when directories are removed |
| Workspace.CleanItemsEffect | workspace_cleaner.py:315-347 | the items and sweeps change nothing outside the selected items and the swept paths, remove every removable selected item, and fail iff an item deletion raised |
| Workspace.CleanWithoutBackup | workspace_cleaner.py:301-347 | without a backup the clean changes nothing outside the selected items and swept paths, removes every removable selected item, and fails iff a deletion raised |
| Workspace.BelowTransitive | workspace_cleaner.py:330 | being at or below is transitive |
| Workspace.AncestorsComparable | workspace_cleaner.py:330 | two ancestors of one path lie one at or below the other |
| Workspace.ApartBelow | workspace_cleaner.py:308-330 | paths below two apart paths are apart |
| Workspace.CleanWithBackup | workspace_cleaner.py:306-347 | a backup that fails stops the clean with nothing deleted; one that succeeds is followed by the items and sweeps on the disk the copy left, and the copy keeps every workspace file as it was before any deletion |
| Workspace.CopySurvivesClean | workspace_cleaner.py:315-347 | a file in a backup directory apart from the workspace outlives the items and the sweeps |
| Workspace.UnitIndex | workspace_cleaner.py:436-440 | `_format_size` settles on the first unit under which the value is below 1024, else TB |
| Workspace.RoundedTenths | workspace_cleaner.py:438 | `{x:.1f}` shows the nearest tenth of `n / d` |
| Workspace.FormatSizeBytes | workspace_cleaner.py:436-438 | below 1024 the size is shown whole in bytes, with `.0 B` |
| Workspace.ItemLines | workspace_cleaner.py:422-424 | one line per listed item, in order |
| Workspace.EmptyReport | workspace_cleaner.py:393-398 | with nothing discovered the report is the title, a blank line and `No workspace locations found.` |
| Workspace.CleanableLinesShape | workspace_cleaner.py:420-428 | at most the first five items are shown, in order, then a `... and N more items` line exactly when there are more, N being how many were not shown |
| Workspace.WorkspaceCleaner.constructor | workspace_cleaner.py:19-21 | the cleaner works on the given backup manager |
| Workspace.WorkspaceCleaner.RemoveDuplicates | workspace_cleaner.py:67-74 | the `seen_paths` loop computes `UniqueByPath` |
| Workspace.WorkspaceCleaner.LooksLikeProjectDirectory | workspace_cleaner.py:223-242 | the indicator loop computes `LooksLikeProject` |
| Workspace.WorkspaceCleaner.Categorize | workspace_cleaner.py:196-221 | one walked entry updates the lists as `Visit` says |
| Workspace.WorkspaceCleaner.AnalyzeWorkspaceDirectory | workspace_cleaner.py:155-194 | the walk loop computes `AnalyzeWorkspace` |
| Workspace.WorkspaceCleaner.IdentifyCleanableItems | workspace_cleaner.py:244-278 | the three loops compute `Cleanables` |
| Workspace.WorkspaceCleaner.AppendItems | workspace_cleaner.py:249-276 | one loop appends one item per entry |
| Workspace.WorkspaceCleaner.GetFileSize | workspace_cleaner.py:294-299 | a file's size estimate |
| Workspace.WorkspaceCleaner.EstimateDirectorySize | workspace_cleaner.py:280-292 | the walk loop sums the sizes of the files below the directory |
| Workspace.WorkspaceCleaner.DeleteOne | workspace_cleaner.py:325-337 | the store and result are those of `DeleteItem` |
| Workspace.WorkspaceCleaner.CleanWorkspace | workspace_cleaner.py:301-347 | the store and result are those of `CleanWorkspaceOutcome` (whose properties are `CleanWithoutBackup` and `CleanWithBackup`) |
| Workspace.WorkspaceCleaner.ClearAllCacheDirectories | workspace_cleaner.py:349-367 | reports success and leaves the store as `ClearCacheDirectories` says |
| Workspace.WorkspaceCleaner.RemoveLockFilesIn | workspace_cleaner.py:369-387 | reports success and leaves the store as `RemoveLockFiles` says |
| Workspace.WorkspaceCleaner.FormatSizeText | workspace_cleaner.py:434-440 | the division loop computes `FormatSize` |
| Workspace.WorkspaceCleaner.BlockHeaderText | workspace_cleaner.py:414-418 | the five header lines of a block |
| Workspace.WorkspaceCleaner.ItemLineText | workspace_cleaner.py:423-424 | one item's line |
| Workspace.WorkspaceCleaner.ItemLinesText | workspace_cleaner.py:422-424 | the `[:5]` loop's lines |
| Workspace.WorkspaceCleaner.CleanableLinesText | workspace_cleaner.py:420-428 | the first five items, then the count of the rest |
| Workspace.WorkspaceCleaner.WorkspaceBlock | workspace_cleaner.py:413-430 | the block of workspace number `n` |
| Workspace.WorkspaceCleaner.Summary | workspace_cleaner.py:400-410 | the summary lines with the three generator sums |
| Workspace.WorkspaceCleaner.DetailLines | workspace_cleaner.py:412-430 | one numbered block per workspace, from 1 |
| Workspace.WorkspaceCleaner.GenerateWorkspaceReport | workspace_cleaner.py:389-432 | the report computes `WorkspaceReport` |
| Telemetry.GenerateIds | telemetry_manager.py:143-145 | the device ID, machine ID and UUID drawn for one run differ from each other whatever is drawn, none is empty, and each carries its generator's prefix or shape |
| Telemetry.ConfigIdChoice | telemetry_manager.py:200-212 | the ID written for a record is one of the three new IDs |
| Telemetry.RegistryIdChoice | telemetry_manager.py:262-271 | a registry value either keeps its data or gets one of the three new IDs |
| Telemetry.ConfigChoiceIff | telemetry_manager.py:200-212 | with three different IDs: the machine ID iff the pattern has `machine` but not `device`; the session ID iff it has `session` but neither of the others; the device ID otherwise |
| Telemetry.IdWordsAreId | telemetry_manager.py:270 | `guid` and `uuid` both hold `id`, so the last test is whether the name holds `id` |
| Telemetry.RegistryChoiceRule | telemetry_manager.py:259-273 | a value is left alone iff its lowered name holds none of `device`, `machine`, `session` and `id`; for the first three it gets the ID a configuration record with that pattern would get |
| Telemetry.RecordedKeysSpec | telemetry_manager.py:59-98 | the recorded keys are exactly the readable registry paths that hold at least one value, each with the values read there, in order |
| Telemetry.ViewOf | config_manager.py:23-61 | the views of a file belong to that path |
| Telemetry.Views | telemetry_manager.py:41 | one view per found file, in order |
| Telemetry.DiscoveryTotals | telemetry_manager.py:26-57 | the total counts each configuration file and each recorded key once; no key is recorded off Windows, and only keys with values |
| Telemetry.Apply | config_manager.py:245-267 | after a successful rewrite the view of the format written reads back what was written |
| Telemetry.ConfigStep | telemetry_manager.py:186-218 | one pass succeeds iff the file is or gets backed up and the rewrite succeeds |
| Telemetry.ConfigStepSpec | telemetry_manager.py:189-198 | a marked file is not backed up again; a failed backup skips the record with the views and marks unchanged; a successful one marks the file; only the record's own file can change |
| Telemetry.ConfigBackupsOnce | telemetry_manager.py:184-198 | each file is backed up at most once per run, only files of found records are, and every file whose views changed was backed up |
| Telemetry.UnmarkedUntil | telemetry_manager.py:189-198 | a file stays unmarked between two of its records when no record of it lies between |
| Telemetry.BackupRetried | telemetry_manager.py:190-197 | a failed backup skips the record, makes the result false for good, and the next record of that file tries the backup again |
| Telemetry.OkStaysFalse | telemetry_manager.py:196-218 | once false, the result stays false |
| Telemetry.ConfigPasses | telemetry_manager.py:186-218 | one success flag per pass |
| Telemetry.ConfigPassesAt | telemetry_manager.py:186-218 | pass `i` succeeds iff its file is or gets backed up and its rewrite succeeds |
| Telemetry.ConfigRunOk | telemetry_manager.py:180-221 | the run succeeds iff every pass succeeds (with the intended text rewrite, see Findings) |
| Telemetry.ConfigRunLast | telemetry_manager.py:186-218 | the last pass of a run of `n` passes adds its own success |
| Telemetry.AllTrueSnoc | telemetry_manager.py:218 | `success` after one more pass is the conjunction with that pass |
| Telemetry.FailureDoesNotStop | telemetry_manager.py:194-197 | a failure does not stop the loop: a run started failed backs up and rewrites exactly what the same run started successful does |
| Telemetry.RegistryWritesSpec | telemetry_manager.py:259-277 | a write is made exactly for a value whose name chooses an ID, and writes that ID with the value's type |
| Telemetry.RegistryBackupKeeps | backup_manager.py:120-152 | the manager's registry backup succeeds iff its write does, keeps every file and on success holds the key's file |
| Telemetry.RegistryStep | telemetry_manager.py:231-250 | one key is edited iff its backup and its writes succeed |
| Telemetry.RegistryRunOk | telemetry_manager.py:223-252 | the registry pass succeeds iff every key is backed up and set |
| Telemetry.RegistryRunEdits | telemetry_manager.py:223-252 | exactly the keys backed up and set are edited, each with the writes its values choose, and each edited key has its backup file |
| Telemetry.ModifyTelemetryIdsSpec | telemetry_manager.py:137-178 | the run succeeds iff each enabled step does, the registry step only on Windows and succeeding iff every key is backed up and set; off Windows the registry is untouched; with configuration files switched off no file is |
| Telemetry.FoundLines | telemetry_manager.py:308-320 | five lines per found ID; what each block holds is stated by FoundLinesBlocks |
| Telemetry.ValueLines | telemetry_manager.py:330-331 | one line per registry value |
| Telemetry.KeyLines | telemetry_manager.py:329-332 | a key's path, one line per value and a blank line |
| Telemetry.RegistryLinesLength | telemetry_manager.py:323-332 | the registry block is as long as its keys' values plus two lines per key |
| Telemetry.FoundLinesBlocks | telemetry_manager.py:310-320 | block `i` of the IDs block is found ID `i`: `File:` its path, `Key:` its key or `N/A` for an XML record (which has no `key` entry), `Value:` the `str` of its value (the string itself, else its `repr`), `Pattern:` its pattern, then a blank line |
| Telemetry.ReportShape | telemetry_manager.py:289-335 | seven summary lines, then the IDs block and the registry block when non-empty; the three counts read back as the numbers of IDs, files and keys |
| Telemetry.ShownKey | telemetry_manager.py:312 | `id_info.get('key', 'N/A')`: `N/A` exactly for XML records, whose entries carry a tag or attribute and no `key`, else the record's key |
| Telemetry.ReprQuote | telemetry_manager.py:318 | `repr` quotes a string with `"` exactly when it holds `'` and no `"`, else with `'` |
| Telemetry.ReprChar | telemetry_manager.py:318 | `repr` keeps a character as it is exactly when it is not the quote, not a backslash and not an ASCII control character; any other character becomes an escape of two to four characters |
| Telemetry.StrRepr | telemetry_manager.py:318 | the `repr` of a string is at least two longer and starts and ends with the chosen quote |
| Telemetry.ValueText | telemetry_manager.py:313-318 | `f"{value}"`: a string value is shown as it is, any other value by its `repr` |
| Telemetry.PlainStrRepr | telemetry_manager.py:318 | a string with no quote, backslash or control character has `repr` `'s'` |
| Telemetry.ListValueText | telemetry_manager.py:318 | a list of two plain strings is shown as `['a', 'b']`, not as the strings themselves |
| Telemetry.ObjectValueText | telemetry_manager.py:318 | an object with one plain key and a number is shown as `{'k': n}` |
| Telemetry.TelemetryManager.constructor | telemetry_manager.py:21-24 | the manager works on the given backup manager and file views |
| Telemetry.TelemetryManager.DiscoverTelemetryData | telemetry_manager.py:26-57 | the discovery loop computes `DiscoverTelemetry` |
| Telemetry.TelemetryManager.DiscoverRoot | telemetry_manager.py:36-42 | one root adds its configuration files and the IDs in them |
| Telemetry.TelemetryManager.SearchRegistryForTelemetry | telemetry_manager.py:59-98 | the registry loop computes `SearchRegistry` |
| Telemetry.TelemetryManager.ModifyTelemetryIds | telemetry_manager.py:137-178 | the result, disk, views and registry edits are those of `ModifyTelemetryIdsOutcome` with the drawn IDs (the intended text rewrite; the rewrite as written is `ConfigRewrite.ModifyTelemetryIdAsWritten`) |
| Telemetry.TelemetryManager.ModifyConfigFileIds | telemetry_manager.py:180-221 | the result, disk and views are those of `ConfigRunOf` with the manager's backup and the ID rewrite |
| Telemetry.TelemetryManager.ConfigPass | telemetry_manager.py:186-218 | one pass extends the run by one record, `modified_files` tracking the marked files |
| Telemetry.TelemetryManager.ModifyRegistryIds | telemetry_manager.py:223-252 | the result, disk and edits are those of `RegistryIdsOutcome` |
| Telemetry.TelemetryManager.RegistryPass | telemetry_manager.py:231-250 | one pass extends the registry run by one key |
| Telemetry.TelemetryManager.ModifyRegistryKeyValues | telemetry_manager.py:254-287 | succeeds iff the key can be set, and then makes exactly the writes the value names choose |
| Telemetry.TelemetryManager.GenerateTelemetryReport | telemetry_manager.py:289-335 | the report computes `TelemetryReport`, whose shape ReportShape and FoundLinesBlocks state (`Key: N/A` for XML records, `repr` of list and object values) |
| Telemetry.TelemetryManager.FoundLinesText | telemetry_manager.py:310-320 | the found-ID loop gives `FoundLines`, whose blocks FoundLinesBlocks states |
| Telemetry.TelemetryManager.RegistryLinesText | telemetry_manager.py:325-332 | the registry loop's lines |
| Telemetry.TelemetryManager.KeyLinesText | telemetry_manager.py:329-332 | one key's lines |
| Ide.LookupSpec | ide_manager.py:120-121 | with distinct keys, looking up an IDE finds nothing exactly when it was not detected, and otherwise finds that entry's installations |
| Ide.InstallationTotalZero | ide_manager.py:50-52 | the installations add nothing to the total exactly when every detected IDE's list is empty |
| Ide.ActiveKeysSpec | ide_manager.py:79 | an IDE is active exactly when some detected entry with that key has a non-empty installation list |
| Ide.ActiveKeysSupported | ide_manager.py:79-81 | every active IDE has a name in the supported table exactly when each detected IDE with installations does |
| Ide.ActiveKeysPrefix | ide_manager.py:79 | the active IDEs of a shorter prefix of the dict come first among those of a longer one |
| Ide.ActiveKeysMany | ide_manager.py:79-80 | more than one IDE is active exactly when two different entries have installations; at least one exactly when some entry does |
| Ide.FirstMissing | ide_manager.py:81 | the key whose name lookup raises is absent exactly when every key has a name, and when present it is one of the keys without a name |
| Ide.FirstMissingPrefix | ide_manager.py:81 | once a prefix of the keys holds a key without a name, the whole list fails at that same key |
| Ide.FirstMissingAtEnd | ide_manager.py:81 | after keys that all have names, a key without one is where the lookup fails |
| Ide.MissingAt | ide_manager.py:79-91 | the first detected IDE with installations that has no name is the key the advice fails on |
| Ide.ExtensiveRecsSpec | ide_manager.py:87-101 | an "extensive data" advice with a given name and count is given exactly when some IDE with installations has that name and more than 50 files in total, and the count is its file total |
| Ide.ExtensiveRecsKind | ide_manager.py:87-101 | the per-IDE loop adds only "extensive data" advice |
| Ide.RecommendationsUnknownIde | ide_manager.py:79-91 | advising raises `KeyError` exactly when an IDE with installations is missing from the supported table, and the raised key is such an IDE |
| Ide.RecommendationsClose | ide_manager.py:72-76 | "close these IDEs", naming the set of IDEs of the running processes, is advised exactly when some process is running |
| Ide.RecommendationsMultiple | ide_manager.py:79-84 | "several IDEs", naming the active IDEs in dict order, is advised exactly when two different entries have installations |
| Ide.RecommendationsExtensive | ide_manager.py:87-101 | "extensive data" is advised for exactly the IDEs with installations that hold more than 50 files, with their name and file total |
| Ide.ProcessesForSpec | ide_manager.py:116-119 | the processes to terminate are exactly the running processes whose IDE key is selected, and there are no more of them than running processes |
| Ide.TotalSizeAppend | ide_manager.py:127-130 | the size estimate of two file lists is the sum of their estimates |
| Ide.InstallFilesSpec | ide_manager.py:123-130 | a file is listed for a set of installations exactly when it is among the config, workspace or cache files of one of them |
| Ide.TargetFilesSpec | ide_manager.py:122-130 | a file is a cleanup target exactly when it belongs to an installation of a selected IDE that was detected |
| Ide.TargetFilesSound | ide_manager.py:122-130 | each target file comes from an installation of a selected, detected IDE, whose position in the selection is returned |
| Ide.TargetFilesComplete | ide_manager.py:122-130 | each file of an installation of a selected, detected IDE is a target |
| Ide.ValidateSpec | ide_manager.py:186-207 | a selection is valid exactly when every key is supported, which is exactly when there are no errors; the messages are no more than the keys; a message is an error exactly when it names an unsupported selected key, and a warning exactly when it names a supported selected IDE without data |
| Ide.AddToGroupsNames | ide_manager.py:149-153 | adding a process gives its IDE a new group name only when it had none, and keeps the names distinct |
| Ide.AddToGroupsNameList | ide_manager.py:149-153 | the group names after adding a process are the old ones, followed by the process's IDE when it was new |
| Ide.AddToGroupsAt | ide_manager.py:149-153 | adding a process appends it to its own IDE's group and leaves every other group as it was |
| Ide.AddToGroupsNew | ide_manager.py:151-152 | a new group is opened, at the end and holding only that process, exactly when its IDE had no group |
| Ide.GroupedNames | ide_manager.py:148-153 | `processes_by_ide` names each IDE once |
| Ide.GroupedCovers | ide_manager.py:148-153 | every process's IDE has a group |
| Ide.GroupedContents | ide_manager.py:148-153 | each group holds exactly its IDE's processes, in their original order |
| Ide.GroupedStep | ide_manager.py:149-153 | a group that existed before a process gains that process exactly when it is of the group's IDE |
| Ide.GroupedStepNew | ide_manager.py:151-153 | a group opened by a process holds that process alone |
| Ide.NewGroupEmpty | ide_manager.py:148-153 | an IDE without a group after some processes has had none of them |
| Ide.NoProcessesOfIde | ide_manager.py:148-153 | an IDE none of whose processes came has an empty process list |
| Ide.IdeManager.constructor | ide_manager.py:15-18 | a new manager has detected nothing and knows of no running process |
| Ide.IdeManager.PerformComprehensiveScan | ide_manager.py:20-65 | remembers the processes and installations; the total is the number of processes plus the number of installations; the advice is that of `_generate_recommendations`; the warnings are the running-process warning when processes run, followed by the scan error naming the key when advising raised |
| Ide.IdeManager.GenerateRecommendations | ide_manager.py:67-103 | the advice equals the specification of `_generate_recommendations` over the current processes and installations, whose properties are the Recommendations lemmas above |
| Ide.IdeManager.ExtensiveAdvice | ide_manager.py:86-101 | the per-IDE loop fails at the first IDE with installations that has no name, and otherwise gives the "extensive data" advice for every IDE |
| Ide.IdeManager.ActiveIdes | ide_manager.py:79 | computes the active IDEs, in dict order |
| Ide.IdeManager.GetCleanupTargets | ide_manager.py:105-138 | with no selection every detected IDE is selected; the processes, files, extension directories and size estimate are those of the selected IDEs, characterised by ProcessesForSpec, TargetFilesSpec and TotalSizeAppend |
| Ide.IdeManager.SafeTerminateProcesses | ide_manager.py:140-167 | with nothing running, success without results; otherwise success exactly when no termination failed, the detector's results and the processes grouped by IDE; the running processes are forgotten and the installations kept |
| Ide.IdeManager.GenerateDetailedReport | ide_manager.py:169-177 | the fixed "no installations" text when nothing was detected or is running, the detector's report otherwise |
| Ide.IdeManager.ValidateIdeSelection | ide_manager.py:186-207 | the validation equals its specification, whose meaning is ValidateSpec |
| Utils.AtMostOneOs | utils.py:26-35 | no platform string is taken for two of Windows, macOS and Linux at once |
| Utils.Uuid4Nibbles | utils.py:86-88 | a version-4 UUID's 32 nibbles: digit 12 is the version 4, digit 16 carries the variant bits `10`, and every other digit is a random nibble |
| Utils.GenerateUuid | utils.py:86-88 | the text is 32 lower-case hex digits, with `4` at position 12 and one of `8`, `9`, `a`, `b` at position 16 |
| Utils.UuidRoundTrip | utils.py:86-88 | reading the hex text back gives the nibbles it was made from |
| Utils.GenerateDeviceId | utils.py:96-98 | `device_` followed by 32 hex digits, 39 characters in all |
| Utils.GenerateMachineId | utils.py:101-103 | `machine_` followed by 32 hex digits, 40 characters in all |
| Utils.CharRange | utils.py:93 | the `n` consecutive ASCII characters from a start character |
| Utils.AlphanumericsAreAlnum | utils.py:93 | the alphabet `ascii_letters + digits` holds exactly the ASCII letters and digits |
| Utils.GenerateRandomString | utils.py:91-93 | the string has the requested length (none for a negative length) and holds only ASCII letters and digits |
| Utils.WalkBelow | utils.py:145 | every path `rglob` yields lies strictly below the directory, under one of its entries |
| Utils.WalkDistinct | utils.py:145 | in a tree whose listings have distinct names, `rglob` yields no path twice |
| Utils.DistinctConcat | utils.py:145 | two walks without repeats and without a common path make one without repeats |
| Utils.UnderChild | utils.py:145 | a path below a child directory lies below its parent, under the child's name |
| Utils.HeadAndBelow | utils.py:145 | the walk below a directory never yields the directory's own path again |
| Utils.RestApart | utils.py:145 | what one entry's walk yields and what its siblings' walks yield never share a path |
| Utils.ProductNameIsAugment | utils.py:112-128 | a name matches one of the six search patterns exactly when its lowercased form contains `augment` |
| Utils.SearchRootsSpec | utils.py:110-134 | the search raises, with the not-a-directory error, exactly when some existing root is a plain file; otherwise it returns the product directories of the roots |
| Utils.SearchRootsErrSticks | utils.py:117-131 | once the roots up to some point raise, the whole search raises with the same error |
| Utils.MatchProductName | utils.py:125-128 | the pattern loop accepts a name exactly when it matches a pattern |
| Utils.ScanListing | utils.py:123-128 | one root's listing appends its matching child directories, in listing order, to what was found before |
| Utils.FindAugmentCodeDirectories | utils.py:110-134 | the search's result equals its specification, whose meaning is SearchRootsSpec and ProductDirsMembers |
| Utils.DirsInSource | utils.py:123-128 | every returned path is a child directory of the listing whose name matches |
| Utils.DirsInComplete | utils.py:123-128 | every matching child directory of the listing is returned |
| Utils.ProductDirsMembers | utils.py:117-131 | a path is found exactly when it is a child directory, named with `augment` in any case, of a root that exists and can be listed |
| Utils.DirsInDistinct | utils.py:122-128 | within one root no directory is returned twice |
| Utils.LastIndexOf | utils.py:146 | the index of the last occurrence of a character, or -1 when there is none |
| Utils.Suffix | utils.py:146 | a path's suffix is empty or a dot-led tail of the name, at least two characters long and shorter than the name |
| Utils.SuffixIsExtension | utils.py:146 | for an extension with a single dot, the lowercased suffix equals it exactly when the lowercased name ends with it after at least one other character |
| Utils.SuffixInIffExtension | utils.py:146 | the lowercased suffix is one of the listed extensions exactly when the lowercased name ends in one of them after at least one other character |
| Utils.SearchedExtensions | utils.py:136-169 | both searches list proper extensions: a dot followed by at least one character and no other dot |
| Utils.FilesWithSuffixSnoc | utils.py:145-147 | each walked entry adds its path exactly when it is a file with a listed suffix |
| Utils.FindFilesWithSuffix | utils.py:141-150 | the loop returns the walked files with a listed suffix, in walk order, and nothing for a missing directory |
| Utils.FindConfigFiles | utils.py:136-151 | the configuration-file search over `.json .ini .xml .cfg .conf .config`, with the meaning of FilesWithSuffixSpec |
| Utils.FindDatabaseFiles | utils.py:154-169 | the database-file search over `.db .sqlite .sqlite3`, with the meaning of FilesWithSuffixSpec |
| Utils.FilesWithSuffixSource | utils.py:145-147 | every returned path is a walked file with a listed suffix |
| Utils.FilesWithSuffixComplete | utils.py:145-147 | every walked file with a listed suffix is returned |
| Utils.FilesWithSuffixDistinct | utils.py:145-147 | filtering a walk without repeats keeps the paths distinct |
| Utils.FilesWithSuffixSpec | utils.py:136-169 | in a well-formed tree the searches return each file at most once, and exactly the files whose lowercased name ends in a listed extension after at least one other character; a missing directory yields nothing |
| Cleaner.UpdateSpec | data_cleaner.py:35-45 | `update` appends exactly one log line and changes only the operation, the progress and the step counter; a completed step counts one more and, when a total is set, makes the progress the ratio of completed to total steps |
| Cleaner.SetErrorSpec | data_cleaner.py:47-51 | `set_error` clears success, keeps the message and logs one `ERROR` line; nothing else changes |
| Cleaner.RunSpec | data_cleaner.py:35-45 | a run of steps counts each step and logs two lines for it; the total, success flag, error and running flag stay as they were; after at least one step the progress is the ratio of completed to total steps |
| Cleaner.RunSnoc | data_cleaner.py:35-45 | a run of one more step is the shorter run followed by that step's two updates |
| Cleaner.RunToCompletion | data_cleaner.py:41-43 | starting from zero, exactly `total_steps` completed steps bring the progress to one |
| Cleaner.Reached | data_cleaner.py:98-162 | the number of steps that complete is never more than the total |
| Cleaner.DiscoveryStatusSpec | data_cleaner.py:83-164 | discovery announces seven steps; without an exception it completes all seven, ends at full progress with success unchanged and logs fifteen lines; when step `k` raises it has completed `k` steps, clears success and ends its log with `Error during discovery: ` and the exception's text |
| Cleaner.DatabaseFilesUnderSpec | data_cleaner.py:117-124 | a database file is listed exactly when the search of one of the located directories returns it |
| Cleaner.DiscoveryCrash | data_cleaner.py:100-109 | without custom paths, an application-data root that is a plain file makes step 1 raise; otherwise the exception is the one the environment raises, if any |
| Cleaner.Left | data_cleaner.py:98-162 | the fields a discovery leaves: those of the steps it reached, the old ones for the rest, and an empty database list when step 3 raised after clearing it |
| Cleaner.DiscoveryOutcomeSpec | data_cleaner.py:98-157 | a complete discovery's total is the sum of the paths, database files, workspaces, found IDs, e-mail addresses and account files; one that raises reports a total of zero; non-empty custom paths are used verbatim; the database files are exactly those found under the located directories; a discovery that raised before step 1 changes no field |
| Cleaner.StepTotalCounts | data_cleaner.py:171-183 | the `total_steps` announced up front is the number of steps the cleanup goes through: 1, plus 1 for telemetry, plus one per database file and per workspace when asked, plus 1 for account data |
| Cleaner.CleanupStepsOk | data_cleaner.py:191-257 | the steps all succeed exactly when every sub-operation that was asked for succeeded, so the result is the AND over every selected category |
| Cleaner.AllOkConcat | data_cleaner.py:191-257 | the steps of two blocks all succeed exactly when both blocks' steps do |
| Cleaner.CleanupStatusSpec | data_cleaner.py:166-274 | cleanup is not running when it returns, normally or through an exception; a normal return completes every announced step, ends at full progress with success unchanged and logs the success or partial message; an exception clears success and logs `Error during cleanup: ` and its text last |
| Cleaner.CleanupLayout | data_cleaner.py:185-257 | the steps come in the source's order: the backup directory, telemetry if asked, one per database file, one per workspace, then the account data |
| Cleaner.HeadStepsAt | data_cleaner.py:185-207 | the backup step comes first, followed by the telemetry step when asked |
| Cleaner.DatabaseStepAt | data_cleaner.py:208-224 | database file `i`'s step follows the head steps, with that file's result |
| Cleaner.WorkspaceStepAt | data_cleaner.py:226-243 | workspace `i`'s step follows the database steps, with that workspace's result |
| Cleaner.AccountStepAt | data_cleaner.py:245-257 | the account step comes last |
| Cleaner.DataCleanerStatus.constructor | data_cleaner.py:25-33 | a new status: no operation, no progress, no steps, not running, successful, no error, an empty log |
| Cleaner.DataCleanerStatus.Update | data_cleaner.py:35-45 | the new status is the old one updated as UpdateSpec describes |
| Cleaner.DataCleanerStatus.SetError | data_cleaner.py:47-51 | the new status is the old one with the error set as SetErrorSpec describes |
| Cleaner.AugmentCodeCleaner.constructor | data_cleaner.py:57-81 | a new cleaner has a fresh initial status and has found nothing |
| Cleaner.AugmentCodeCleaner.RunStep | data_cleaner.py:98-157 | one step as the status sees it: its opening line, then the error when its work raises, else its closing line with the step counted |
| Cleaner.AugmentCodeCleaner.SearchLocations | data_cleaner.py:100-106 | step 1's work: the custom paths, or the product directories under the application-data roots, and whether that search raises |
| Cleaner.AugmentCodeCleaner.DiscoverAugmentcodeData | data_cleaner.py:83-164 | the status is the discovery status for the exception met, as DiscoveryStatusSpec describes; the result is the outcome of the steps reached, and the fields are those Left describes |
| Cleaner.AugmentCodeCleaner.StartCleanup | data_cleaner.py:166-183 | logs the opening line, sets the running flag and announces the `total_steps` formula with none done |
| Cleaner.AugmentCodeCleaner.BackupAndTelemetry | data_cleaner.py:185-206 | the backup step, then the telemetry step when asked, with `success` the AND of their results unless one raises |
| Cleaner.AugmentCodeCleaner.CleanDatabases | data_cleaner.py:208-224 | one step per database file when asked, ANDing each file's result into `success`, unless one raises |
| Cleaner.AugmentCodeCleaner.CleanWorkspaces | data_cleaner.py:226-243 | one step per workspace when asked, ANDing each workspace's result into `success`, unless one raises |
| Cleaner.AugmentCodeCleaner.CleanAccount | data_cleaner.py:245-257 | the account step when asked, ANDing its result into `success`, unless it raises |
| Cleaner.AugmentCodeCleaner.Finish | data_cleaner.py:259-267 | a cleanup that did not raise logs the success or partial message, stops running and returns the AND of every step |
| Cleaner.AugmentCodeCleaner.Abort | data_cleaner.py:269-274 | a cleanup that raised logs the error, stops running and returns false |
| Cleaner.AugmentCodeCleaner.PerformCleanup | data_cleaner.py:166-274 | the result is true exactly when no step raised and every step succeeded, and the status is the cleanup status as CleanupStatusSpec describes; every selected category is attempted even after an earlier failure |

## Left out

- Letters and digits are ASCII only. `Common.Lower`, `Common.IsWordChar`, `Common.IsDigit` and the letter and digit classes of the matchers in `Patterns` fold and classify ASCII characters only. Python's `re.IGNORECASE`, `\b`, `\w`, `str.lower` and `str.isdigit` also cover non-ASCII letters and digits. Whitespace is not affected: `Common.IsSpace`, and with it `\s` in `Patterns`, holds for the whole set `str.isspace()` accepts.
- The regular-expression engine is not modelled. Each fixed pattern is a hand-written matcher in `Patterns` (e-mail, `key\s*[=:]\s*(\S+)`, `"key":\s*"([^"]+)"`), with the same leftmost, non-overlapping, greedy matches.
- `Utils.Walk`: entries come in pre-order, each directory followed by what lies below it. `Path.rglob` yields a directory's entries before descending. So the order of found configuration files, database files, workspace cleanables and report lines may differ. Membership and the at-most-once property do not depend on that order.
- `Common.Dedup` keeps first occurrences in order. The source's `list(set(...))` has no fixed order. The model states the same membership and no repeats.
- JSON numbers are integers only (`Config.Json.JNum`), and floating-point values are not modelled. SQLite values are NULL, INTEGER or TEXT (`Database.Value`); REAL and BLOB values are not modelled.
- configparser's `DEFAULT` section inheritance and interpolation errors are not modelled. Sections are read as the parser lists them.
- The parsers and serialisers are not modelled: `json`, `configparser`, `ElementTree` and `sqlite3`'s file format. What a parser makes of a file is an input (`Config.ConfigFile`).
- `Backup.UpdateManifest`: the write back of the manifest in `_update_manifest` (backup_manager.py:154-161) is modelled as succeeding. A manifest that cannot be read is modelled. So is a failing manifest write when the backup directory is created or a registry key is backed up.
- Backup sizes are counted in characters of the stored content (`|content|`), not in bytes as `st_size` reports them.
- `Cleaner.Status.progress` is an exact `real`; Python keeps a float.
- `Workspace.FormatSize` rounds exactly. Python's float division agrees with it for sizes below 2^53 bytes.
- `Telemetry.RegistryStep`: when a registry write raises partway, the model records no edit of that key. The source has already written the values before the failing one (telemetry_manager.py:257-287).
- Windows registry I/O (`winreg`, including `_read_registry_key` at telemetry_manager.py:100-135) is not modelled. What each key read gives and whether each write succeeds are inputs (`Telemetry.KeyRead`).
- `SafeFileOperations.safe_read_json`, `safe_write_json` and `safe_copy_file` (utils.py:212-242) are not modelled as code. Their outcomes are inputs: whether a copy or write succeeds, and whether a manifest can be read.
- The IDE detector, `psutil` process detection and termination are not part of this model. Their results are inputs of `Ide.IdeManager` and of `Cleaner`'s discovery.
- `get_supported_ides` (ide_manager.py:179-184, data_cleaner.py:398-400) is a copy of the detector's table. The table is a parameter (`supported`).
- `OSDetector.get_os_type` and `PathFinder.get_app_data_paths` read the platform, environment variables and the home directory. The platform string and the application-data roots are parameters.
- The clock, `uuid4` and `random.choices` are not modelled. Their readings and draws are parameters, and their formats are proved.
- Logging (`Logger.setup_logging`, every `logger` call) and the text of log files are not modelled. `DataCleanerStatus.detailed_log` is kept without its `%H:%M:%S` prefix (`Cleaner.LogEntry`).
- The GUI (`main.py`), the launcher (`run.py`) and the build script are not part of this model. The worker threads and `perform_cleanup_async` (data_cleaner.py:276-283) are not modelled either; the model is synchronous.
- `generate_discovery_report` and `_format_size` of the orchestrator (data_cleaner.py:285-346) are not modelled. They only format text.
- `get_backup_list`, `restore_from_backup`, `terminate_augmentcode_processes` and `get_ide_scan_results` of the orchestrator (data_cleaner.py:348-396) are not modelled. They forward to `Backup.BackupManager.ListBackups`, `Backup.BackupManager.RestoreFromBackup` and `Ide.IdeManager.SafeTerminateProcesses`, log the outcome, and report it on the status object (`status.update`, or `status.set_error` when the call raises).
- The search part of `discover_workspace_locations` (workspace_cleaner.py:23-65) is not modelled: the fixed IDE directories, `_get_common_user_workspace_paths` (79-107) and `_find_workspace_paths_in_configs` (109-126). Its de-duplication is modelled (`Workspace.WorkspaceCleaner.RemoveDuplicates`), and so are `_extract_paths_from_json` and `_looks_like_path`.
- Workspace sweeps (`Workspace.ClearCacheDirectories`, `Workspace.RemoveLockFiles`): a removal is modelled as succeeding. The source ignores every error in them and always returns true. Glob matching is ASCII and case-sensitive, as on Linux and macOS.
- `Backup.BackupManager.DeleteBackup`: a failing `rmtree` is modelled as removing nothing. The real call may have removed part of the tree already.
- DeleteItem (`Workspace.DeleteItem`): a deletion that raises is modelled as removing nothing. For a directory item the source's `shutil.rmtree` (workspace_cleaner.py:330) may already have removed part of the tree; `Workspace.WorkspaceCleaner.DeleteOne`, `Workspace.DeleteSelectedOnly` and `Workspace.CleanItemsEffect` inherit this.
- DeleteOne (`Workspace.WorkspaceCleaner.DeleteOne`): inherits DeleteItem's modelling of a raising deletion as removing nothing.
- DeleteResult (`Database.DeleteResult`): SQL statements fail only on a missing table or a file that is not a database. The source splices table and column names into `PRAGMA table_info(...)`, `SELECT` and `DELETE` unquoted (database_cleaner.py:71-190, 298-458), so a name SQLite rejects bare (a keyword such as `order`, or a name with a space) makes each statement on it raise, which the source counts as 0 rows. The model deletes from such a table like any other; `Database.KeywordDelete`, `Database.AccountTableClean`, `Database.DeleteAlls` and `Database.DatabaseCleaner.AnalyzeTable` inherit this.
- ValueText (`Telemetry.ValueText`): `repr` is modelled for ASCII only. A non-ASCII character that Python does not print (such as U+00A0 or U+2028) is shown escaped by Python and as it is by `Telemetry.Repr`. Everything else of `str` and `repr` on parsed values is modelled.
- FoundLines (`Telemetry.FoundLines`): the `Value:` line of a list or object value inherits ValueText's gap for non-ASCII characters Python does not print. The `Key:` line (`N/A` for an XML record) and the other lines are as the source writes them.
- FoundLinesBlocks (`Telemetry.FoundLinesBlocks`): the same `Value:` gap as FoundLines, and nothing else.
- GenerateTelemetryReport (`Telemetry.TelemetryManager.GenerateTelemetryReport`): the same `Value:` gap as FoundLines, and nothing else.
- FoundLinesText (`Telemetry.TelemetryManager.FoundLinesText`): the same `Value:` gap as FoundLines, and nothing else.
- RestoreItem (`Backup.RestoreItem`): restore copies (`mkdir`, `copy2`, `rmtree` and `copytree` at backup_manager.py:212-244) are modelled as succeeding whenever the backed-up source exists. A copy that raises is caught by the source, logged and not counted, and may leave a half-written destination; the model has no such outcome. `Backup.RestoreItems`, `Backup.RestoreOutcome`, `Backup.RestoreFileItems`, `Backup.BackupMutateRestore`, `Backup.KeepingPathsRoundTrip`, `Backup.BackupManager.RestoreOne` and `Backup.BackupManager.RestoreFromBackup` inherit this, so their round trips hold only when every restore copy succeeds.
- RestoreOne (`Backup.BackupManager.RestoreOne`): inherits RestoreItem's modelling of every restore copy as succeeding.
- RestoreFromBackup (`Backup.BackupManager.RestoreFromBackup`): inherits RestoreItem's modelling of every restore copy as succeeding.
- ModifyTextId (`ConfigRewrite.ModifyTextId`): the text rewrite is given the file's text as the scan decoded it, with `errors='ignore'` (config_manager.py:221). The source re-reads the file with strict UTF-8 (config_manager.py:364), which raises on invalid bytes and makes the rewrite fail. For a file that is not valid UTF-8 the model rewrites the lossy text where the source reports failure. `ConfigRewrite.ModifyTextIdAsWritten`, `ConfigRewrite.ModifyTelemetryId` and `ConfigRewrite.ModifyTelemetryIdAsWritten` inherit this.
- ModifyTelemetryId (`ConfigRewrite.ModifyTelemetryId`): inherits ModifyTextId's use of the leniently decoded text for plain-text files.
- PerformComprehensiveScan (`Ide.IdeManager.PerformComprehensiveScan`): the scan-error warning quotes the missing key between `'` characters. Python's `str(KeyError(k))` is `repr(k)`, which picks `"` when the key holds a `'` and escapes backslashes and unprintable characters; for other keys the two agree.
- Recommendations (`Ide.Recommendations`): recommendations are modelled by kind and data (the IDEs to close, the IDE names, the file count), not as the English sentences `_generate_recommendations` (ide_manager.py:66-102) formats. `Ide.IdeManager.GenerateRecommendations` inherits this.
- PerformCleanup (`Cleaner.AugmentCodeCleaner.PerformCleanup`): the option dictionaries it forwards to each sub-operation, with their defaults (data_cleaner.py:197-247), are not modelled. Each sub-operation's result is an input (`Cleaner.Outcomes`), so only which steps run and how their results combine is modelled.
- `Utils.NotADirectory`: the message of the `NotADirectoryError` raised for a plain-file root is kept without the path that follows it.
- `Cleaner.Left`: when step 3 of discovery raises, the model leaves an empty database file list. The source leaves whatever it had appended before the exception.
- `Workspace.CleanWithBackup` states the outcome of a clean whose backup succeeded for a workspace directory apart from the backup directory. A backup directory inside the workspace is not covered.
- The test scripts are not modelled. Their expected behaviour is stated as lemmas where it follows from the code. The account tests' survival of `keep@example.com` is `Account.TargetedKeepsOthers`.

## Findings

| source | as written | input that shows it | evidently intended | confidence | as-written member | corrected member |
|---|---|---|---|---|---|---|
| database_cleaner.py:249-265 | `VACUUM` runs inside the `with sqlite3.connect` block. The block has an open transaction after any `DELETE`, so SQLite refuses the `VACUUM` and the block rolls back. `clean_database` then returns False and every deletion is lost. | a database whose `sessions` table holds one row, cleaned with only `clear_session_data` | commit the deletions, then run `VACUUM`; the call succeeds and the rows are gone | not executed | `Database.CleanDatabaseAsWritten`, `Database.AsWrittenDiscardsDeletions`, `Database.SessionClearLostAsWritten` | `Database.CleanDatabaseOutcome`, `Database.CleanDatabaseResult` |
| config_manager.py:369-372 | `_search_text_for_ids` finds `key = value` with spaces around `=`, but `_modify_text_id` replaces only the literal `key=old` or `key:old`. A found ID is then never rewritten, and `modify_telemetry_id` returns False. | a text file holding the line `device_id = abc` | every assignment the search reports can be rewritten, spaces and all | not executed | `ConfigRewrite.ModifyTextIdAsWritten`, `ConfigRewrite.SpacedAssignmentNotRewritten`, `ConfigRewrite.ModifyTelemetryIdAsWritten`, `ConfigRewrite.SpacedRecordFailsAsWritten` | `ConfigRewrite.ModifyTextId`, `ConfigRewrite.SearchedAssignmentRewritten`, `ConfigRewrite.SpacedRecordRewritten` |
| account_cleaner.py:139-141 | each account file is backed up to `account_files/<file name>`. Two files with the same name in different directories share one destination: the second backup overwrites the first, and a restore gives the first file the second's content. | two account files `a/settings.json` and `b/settings.json` | the backup destination keeps the source's full path, so backups of different files never collide and each restores to its own content | not executed | `Backup.SameNameBackupsCollide`, `Backup.NamedDestinationsCollide` | `Backup.KeepingPathsRoundTrip`, `Backup.KeepingDestinationInjective`, `Account.BackupRelative` |
| database_cleaner.py:226 | each database is backed up to `database/<file name>`, so two databases of one name share one copy, as above. | two databases `a/state.db` and `b/state.db` | the copy keeps the database's full path | not executed | `Backup.NamedDestinationsCollide`, `Database.CleanDatabaseAsWritten` | `Backup.KeepingDestinationInjective`, `Database.DatabaseBackupRelative` |
| workspace_cleaner.py:307-310 | each workspace is copied to `workspace/<directory name>` with `dirs_exist_ok=True`, so two workspaces of one name are merged into one copy. | two workspaces `a/proj` and `b/proj` | the copy keeps the workspace's full path | not executed | `Backup.NamedDestinationsCollide` | `Backup.KeepingDestinationInjective`, `Workspace.WorkspaceBackupRelative` |
| telemetry_manager.py:190-193 | each configuration file is backed up to `config_files/<file name>` before its IDs are rewritten, so two files of one name share one copy. | two files `a/settings.json` and `b/settings.json` holding telemetry IDs | the copy keeps the file's full path | not executed | `Backup.NamedDestinationsCollide` | `Backup.KeepingDestinationInjective`, `Backup.KeepingPathsRoundTrip` |
| backup_manager.py:185-194 | `list_backups` sorts by `timestamp`, which is `None` for a backup whose manifest is missing. With another backup that has a timestamp, the comparison raises `TypeError`. | one backup directory with a manifest and one without | list every backup directory, the newest first, whatever their manifests hold | not executed | `Backup.ListBackupsAsWritten`, `Backup.MissingManifestBreaksListing` | `Backup.BackupListing`, `Backup.ListedIffBackupDir` |
