# vaultage, modelled in Dafny

vaultage backs up a Vaultwarden data directory. A run does five things:

1. It snapshots the SQLite database (`db.sqlite3`) into memory.
2. It bundles the snapshot with the `attachments/` directory and `config.json` into a tar archive, built in memory.
3. Unless encryption is turned off, it seals the archive with an age passphrase.
4. It writes the result to `vaultage-YYYYMMDD_HHMMSS.tar` in the output directory, or to `….tar.age` when sealed.
5. In watch mode, it watches the data directory. Each write to the database's write-ahead log restarts a debounce timer, and a backup runs once the log has been quiet for the debounce period.

The model has one module per concern:

| file | module | models |
|---|---|---|
| `wrappers.dfy` | `Wrappers` | `Option`, `Result`, and Go errors. A `%w` wrapping (`Wrapped`) is told apart from a `%s` formatting (`Formatted`). |
| `paths.dfy` | `Paths` | `filepath.Join` of a clean directory and one element, and `strings.TrimSuffix(p, "/")`. |
| `archive.dfy` | `Archive` | The tar builder of `backup/archive.go`. The filesystem is an abstract tree. The header fields the program sets form a `Record`. A `TarWriter` object is appended to step by step. The imperative writers (`CreateArchive`, `writeEntry`, …, and the `WalkDir` callback) are proved equal to pure trace functions, and the properties are proved about those traces. |
| `crypto.dfy` | `Crypto` | The passphrase confirmation rule, and the in-place zeroing of the plaintext buffer by `EncryptWithPassphrase`. The age cipher itself is an opaque `seal` function. |
| `backup.dfy` | `Backup` | Entry selection, the timestamped file name, and `Perform` and `writeArchiveToDisk` as methods on an output `Volume` object. |
| `watcher.dfy` | `Watcher` | `runLoop` as a pure step function over a sequence of inputs, and as a `Debouncer` class whose methods are proved to take exactly those steps. Also the setup error paths of `Watch`. |
| `cli.dfy` | `Cli` | `cmd/config.go`, `cmd/flags.go`, and the `RunE` bodies and flag defaults of `cmd/backup.go` and `cmd/watch.go`. |

Abstracted environment:

- The process environment is a map.
- Each filesystem node carries a `Fault` saying which operation on it fails.
- The clock is a `Timestamp` parameter.
- The database snapshot, the tar byte encoding and the age cipher are function-valued parameters of `Backup.Environment`.
- So are the two terminal reads of the passphrase prompt.
- In watch mode, time is a count of nanoseconds. The loop's `select` becomes a sequence of `Watcher.Input`s.

Two behaviours of the code shape the model:

- Both command definitions reject a passphrase and a key file given together. `backup` does so only when encryption is on (`cmd/backup.go:53-57`); `watch` always does (`cmd/watch.go:63-65`). The check that at least one of the two is given is commented out in both (`cmd/backup.go:48-51`, `cmd/watch.go:58-61`). An encrypted run with neither therefore prompts for a passphrase.
- The watch loop compares each event's path with the bare name of the log file; see Findings.

## Model

| member | source | states |
|---|---|---|
| `Paths.TrimTrailingSlash` | cmd/config.go:60 | Removes exactly one trailing `/` when there is one, and otherwise leaves the string unchanged. |
| `Paths.TrimRemovesAtMostOne` | cmd/config.go:60 | A path ending in `//` keeps one of the two separators. |
| `Paths.JoinLayout` | backup/backup.go:29 | Joining a non-empty element onto a directory other than empty or `.` gives the directory, one `/`, then the element. An empty or `.` directory gives the element alone. |
| `Paths.JoinIsUnder` | backup/archive.go:128 | Joining an element onto a directory gives that directory or a path below it. |
| `Paths.UnderTransitive` | backup/archive.go:128 | A path below a path below `root` is below `root`. |
| `Archive.StatPath` | backup/archive.go:76-79 | `os.Stat`: an `ErrNotExist` error exactly for a missing path, another error for a node whose metadata cannot be read, and otherwise the node itself. |
| `Archive.MemoryTrace` | backup/archive.go:49-71 | An in-memory entry gives one record named after the entry, sized by its data and carrying the data. A refused header gives no record and the `writing header` error. |
| `Archive.InfoHeader` | backup/archive.go:90-94 | Building a header fails exactly for a node whose header cannot be built. Otherwise it carries the given name and the node's permission; it is a directory header exactly for a directory, sized by the file's length or 0. |
| `Archive.CopyTrace` | backup/archive.go:96-110 | A regular file gives exactly one record with the given header. It succeeds exactly when neither open nor copy fails, and then the payload is the file's bytes; otherwise there are none. |
| `Archive.VisitTrace` | backup/archive.go:115-163 | A successful walk of a node starts with that node's own record, named as given, and a directory record exactly for a directory. |
| `Archive.ChildrenTrace` | backup/archive.go:115-163 | A successful walk of a listing yields at least one record per child. |
| `Archive.DiskTrace` | backup/archive.go:75-86 | A path that cannot be stat-ed gives no record and `stat <path>` wrapping the cause. A success starts with the entry's record. |
| `Archive.EntryTrace` | backup/archive.go:41-46 | A successful entry starts with a record named after the entry. |
| `Archive.ArchiveTrace` | backup/archive.go:27-38 | A successful archive has at least one record per entry. |
| `Archive.SortByName` | backup/archive.go:115 | The listing a walk visits is a permutation of the directory's children, sorted by name. |
| `Archive.InsertKeepsSorted` | backup/archive.go:115 | Inserting one child into a sorted listing keeps it sorted. |
| `Archive.ArchiveInOrder` | backup/archive.go:31-35 | `CreateArchive` succeeds exactly when every entry does. The archive is then the concatenation of each entry's records, in input order. |
| `Archive.FirstFailureStops` | backup/archive.go:31-35 | At the first failing entry, the earlier entries are written in full, that entry's partial records follow, nothing later is written, and the error is wrapped as `writing <name>`. |
| `Archive.ArchiveStopsAtError` | backup/archive.go:32-34 | After a prefix of the entries has failed, the remaining entries change neither the records nor the error. |
| `Archive.MemoryEntryRecord` | backup/archive.go:41-71 | An entry with data, even empty data, never touches the disk. On success it is one regular record named after the entry. Its mode is 0644 when the entry's mode is 0. Its size is the data's length and its payload is the data. A refused header writes nothing. |
| `Archive.DiskEntryStatFailure` | backup/archive.go:75-79 | An entry without data whose path is missing or cannot be read writes no record, and fails with `stat <path>` wrapping the cause. |
| `Archive.DiskFileEntry` | backup/archive.go:89-111 | A readable regular file gives one header named after the entry, carrying the file's permission and length, followed by exactly the file's bytes. |
| `Archive.DirectoryHeaderFirst` | backup/archive.go:142-149 | A directory's header-only record comes before the records of everything below it, which are its children's walk in name order. |
| `Archive.VisitUnder` | backup/archive.go:121-129 | Every record of a walk rooted at the entry's name is named after that root or a path below it. `Archive.VisitNames` gives the exact names. |
| `Archive.ChildrenUnder` | backup/archive.go:126-129 | Every record of the children's walk lies below the directory's archive name. |
| `Archive.Listing` | backup/archive.go:115-129 | The reference pre-order of a walk starts with the root's own name. Each child follows in name order, named by joining its parent's archive name and its own name, followed by everything below it. |
| `Archive.Names` | backup/archive.go:140 | The header names of a record stream, one per record, in order. |
| `Archive.NamesAppend` | backup/archive.go:140 | The names of two streams in a row are the names of the first, then those of the second. |
| `Archive.VisitNames` | backup/archive.go:115-163 | A successful walk writes exactly one record per node, in the pre-order `Listing` gives, each named by its path relative to the root, joined onto the entry's name. |
| `Archive.ChildrenNames` | backup/archive.go:115-163 | The same holds for a successful walk of a directory's children. |
| `Archive.FileNames` | backup/archive.go:136-163 | Proof step: a file walked without error gives one record, under its own name. |
| `Archive.DirVisit` | backup/archive.go:142-149 | Proof step: a directory walked without error is its own header-only record, then its children's records, and the children's walk succeeded. |
| `Archive.VisitWellSized` | backup/archive.go:136-160 | After a successful walk, each record's declared size equals the number of bytes after its header, and directories carry no bytes. |
| `Archive.ChildrenWellSized` | backup/archive.go:136-160 | The same container invariant holds for a successful walk of a directory's children. |
| `Archive.AllWellSized` | backup/archive.go:41-111 | The concatenated records of entries that all succeed satisfy the container invariant. |
| `Archive.ArchiveWellSized` | backup/archive.go:27-38 | A complete archive satisfies the container invariant. |
| `Archive.ChildFailureAborts` | backup/archive.go:115-163 | The first failing child aborts its directory's walk. Earlier children are archived in full, no later child is visited, and the child's error is the walk's error. |
| `Archive.ArchiveStep` | backup/archive.go:31-35 | Proof step: one pass of `CreateArchive`'s loop extends the archive by one entry, unless an earlier entry already failed. |
| `Archive.ChildrenStep` | backup/archive.go:115-163 | Proof step: one more visited child extends the walk by that child's records, unless an earlier child failed. |
| `Archive.ChildrenStopAtError` | backup/archive.go:115-118 | Proof step: after a child fails, the remaining children change nothing. |
| `Archive.TarWriter.constructor` | backup/archive.go:28 | A new writer holds no records. |
| `Archive.TarWriter.WriteHeader` | backup/archive.go:62-64 | An encodable header starts a new empty record. An unencodable one is refused, and the stream is unchanged. |
| `Archive.TarWriter.Write` | backup/archive.go:66-68 | Bytes are appended to the current record, within the size its header declares. |
| `Archive.WriteMemoryEntry` | backup/archive.go:49-71 | Appends exactly the in-memory entry's trace to the writer and returns its error. |
| `Archive.WriteFileEntry` | backup/archive.go:89-111 | Appends exactly a regular file's trace. Open and copy failures leave a header with no bytes. |
| `Archive.WalkNode` | backup/archive.go:115-163 | The `WalkDir` callback on a node, followed by the walk below it, appends exactly that node's trace. |
| `Archive.WalkChildren` | backup/archive.go:115-163 | Visits a directory's children in name order and appends exactly their trace, stopping at the first error. |
| `Archive.ChildrenLoopStep` | backup/archive.go:115-163 | Proof step: after one child is visited, the writer holds the trace of one more child, or of the whole directory if that child failed. |
| `Archive.WalkEnds` | backup/archive.go:142-149 | Proof step: the header record followed by the children's records is the directory's whole trace. |
| `Archive.WriteDirEntry` | backup/archive.go:114-164 | Appends exactly the walk of the entry's directory, rooted at the entry's name. |
| `Archive.WriteDiskEntry` | backup/archive.go:75-86 | Stats the path, then dispatches to the directory walk or the regular-file writer. The result is exactly the disk trace. |
| `Archive.WriteEntry` | backup/archive.go:41-46 | An entry with data goes to the in-memory writer. An entry without data goes to the disk writer. |
| `Archive.ArchiveLoopStep` | backup/archive.go:31-35 | Proof step: after entry `i` is written, the writer holds the archive of the first `i+1` entries, or the whole run's records and wrapped error if that entry failed. |
| `Archive.CreateArchive` | backup/archive.go:27-38 | The writer gains exactly the archive trace of the entries, and the error is the trace's error. |
| `Crypto.PromptForPassphrase` | crypto/age.go:12-34 | Succeeds exactly when both reads succeed and agree, returning the first. A failed read is reported as `error reading password` with the cause formatted in. A mismatch gives `passwords do not match`. |
| `Crypto.EncryptWithPassphrase` | crypto/age.go:36-60 | Returns the cipher's result. On any cipher error the plaintext buffer is unchanged. After success every byte of the buffer is zero. |
| `Backup.GetArchiveEntries` | backup/backup.go:25-42 | A failed snapshot is returned as `backing up database`. Otherwise the first entry is the database held in memory. |
| `Backup.EntriesSelection` | backup/backup.go:44-70 | The attachments entry is included exactly when not excluded and its path exists and is a directory. `config.json` is included exactly when not excluded and its path exists, whatever kind of node it is. No other entry appears. |
| `Backup.EntriesCases` | backup/backup.go:36-72 | Proof step: the entries are the database, optionally followed by attachments, then optionally by config. |
| `Backup.EntriesShape` | backup/backup.go:35-72 | There are one to three entries, with distinct names in the order db, attachments, config. Only the first, the database with mode 0644, is held in memory. The others are read from `dataDir/<name>`. |
| `Backup.Decimal` | backup/backup.go:92 | A zero-padded decimal field is at least `width` characters long and all digits. |
| `Backup.DecimalRoundTrip` | backup/backup.go:92 | Reading a zero-padded decimal field back gives the number. |
| `Backup.DecimalWidth` | backup/backup.go:92 | A value below 10^width takes exactly `width` characters. |
| `Backup.FormatTimestamp` | backup/backup.go:92 | A stamp is at least 15 characters, each a digit or `_`. |
| `Backup.TimestampLayout` | backup/backup.go:92 | The year comes first, in at least four digits, then month, day, `_`, hour, minute and second, two digits each. A year below 10000 makes the stamp exactly 15 characters. |
| `Backup.FieldsAt` | backup/backup.go:92 | Proof step: where each field of such a concatenation sits. |
| `Backup.FormatDigits` | backup/backup.go:92 | Every character of a stamp of a valid time is a digit, except the `_` seven places from the end. |
| `Backup.TimestampRoundTrip` | backup/backup.go:92 | Parsing a stamp of a valid time, of any year, gives back the time. |
| `Backup.BackupFileName` | backup/backup.go:93 | The file name is `vaultage-`, then the stamp, then `.tar`. |
| `Backup.EncryptedFileName` | backup/backup.go:108 | The sealed file's name is the tar name followed by `.age`. |
| `Backup.BackupNamesDistinct` | backup/backup.go:92-94 | Runs in different seconds get different file names, both plain and `.age`, whatever the year. |
| `Backup.Volume.constructor` | backup/backup.go:81 | The output volume starts with the given directories and files. |
| `Backup.Volume.MkdirAll` | backup/backup.go:81-83 | Creates the directory unless that fails. Files are unchanged. |
| `Backup.Volume.WriteFile` | backup/backup.go:130 | Writes the file in full, or, on failure, a truncated prefix of it. Directories are unchanged. |
| `Backup.Volume.Remove` | backup/backup.go:132 | Deletes the file, if any. |
| `Backup.WriteArchiveToDisk` | backup/backup.go:129-135 | A failed write removes the partial file and returns `writing backup file`. It succeeds exactly when the target afterwards holds exactly the bytes. |
| `Backup.OutputDir` | backup/backup.go:77-80 | The output directory is never empty. An empty setting means `.`. |
| `Backup.Passphrase` | backup/backup.go:110-116 | The configured passphrase when it is set, and the prompt's result otherwise. |
| `Backup.SealedArtifact` | backup/backup.go:108-121 | The encrypted branch succeeds exactly when the passphrase and the seal do. It names the file `<tar path>.age` and holds the sealed bytes. A prompt error or a seal error is returned unchanged. |
| `Backup.BackupArtifact` | backup/backup.go:85-121 | Entry errors are returned unchanged. An archive error is wrapped as `creating archive`. Without encryption the file is `vaultage-<stamp>.tar` in the output directory and holds the tar stream of the archive's records. With encryption the result is the sealed branch applied to that stream and path. |
| `Backup.BackupContents` | backup/backup.go:85-121 | A produced backup holds the records of the chosen entries in order, each declaring its own payload size. The first is `db.sqlite3`, mode 0644, holding the snapshot. The bytes are their tar stream, sealed under the passphrase unless encryption is off. |
| `Backup.Prepared` | backup/backup.go:77-121 | An output directory that cannot be created gives `creating output directory`. Otherwise the result is the artifact of the remaining steps. |
| `Backup.PrepareBackup` | backup/backup.go:75-121 | Everything before the write: the output directory is created unless that fails, and no file changes. |
| `Backup.SealBackup` | backup/backup.go:108-121 | Copies the archive into a buffer, prompts when no passphrase is configured, and seals the buffer, giving the sealed artifact. |
| `Backup.PerformResultAsWritten` | backup/backup.go:75-127 | As written, a run reports success exactly when the steps before the write succeed and either encryption is on or the write succeeds. Earlier errors are returned unchanged. |
| `Backup.EncryptedWriteFailureReportedAsSuccess` | backup/backup.go:123-126 | As written, an encrypted run whose final write fails leaves no backup file, yet returns nil. |
| `Backup.Perform` | backup/backup.go:75-127 | A failure before the write returns that error and leaves the files unchanged. The run succeeds exactly when the backup file then holds the planned bytes, in both branches. The output directory is created unless that fails. |
| `Watcher.Qualifies` | watcher/watcher.go:80-85 | An event qualifies exactly when it names the target and reports a write or a create. Removes, renames and permission changes alone never qualify. |
| `Watcher.Deadline` | watcher/watcher.go:91 | The timer expires a debounce period after the event, or at once for a non-positive period. |
| `Watcher.ShouldLog` | watcher/watcher.go:97-100 | A change is logged when none has been logged yet, or when the last log is at least one second old, and not otherwise. |
| `Watcher.Step` | watcher/watcher.go:55-102 | After the loop has returned, a step changes nothing. A step adds at most one effect, keeping the earlier ones. Returning stops the timer and adds nothing. |
| `Watcher.Run` | watcher/watcher.go:55-102 | The loop only appends effects, at most one per input. Once returned, it stays as it was. |
| `Watcher.OtherEventsIgnored` | watcher/watcher.go:80-85 | An event for another name, or one that neither writes nor creates, changes nothing. |
| `Watcher.EventRestartsTimer` | watcher/watcher.go:87-100 | A qualifying event replaces any armed timer with one at `at + debounce`. It runs no backup. It logs exactly when no change has been logged or the last log is at least a second old, and only then moves the log time. |
| `Watcher.FirstEventLogged` | watcher/watcher.go:97-100 | The first qualifying event is always logged. |
| `Watcher.OnlyArmedTimerFires` | watcher/watcher.go:87-95 | Only the armed timer runs the backup, once, and disarms. A stopped or replaced timer does nothing. |
| `Watcher.BackupErrorKeepsLooping` | watcher/watcher.go:91-95 | A failed backup does not end the loop. |
| `Watcher.WatchErrorIgnored` | watcher/watcher.go:63-70 | A watcher error leaves the state unchanged. |
| `Watcher.ShutdownStopsTimer` | watcher/watcher.go:57-78 | Cancellation stops the timer and returns the context's error. A closed channel stops the timer and returns nil. |
| `Watcher.ExitIsFinal` | watcher/watcher.go:55-102 | After the loop has returned, no further input changes anything. |
| `Watcher.RunAppend` | watcher/watcher.go:55-102 | Running two input sequences in a row is running their concatenation. |
| `Watcher.BurstArmsLastTimer` | watcher/watcher.go:87-100 | A burst of qualifying events only logs, and leaves exactly the last event's timer armed. |
| `Watcher.BurstRunsOneBackup` | watcher/watcher.go:87-95 | However many events a burst holds, the backup runs once, at the last event plus the debounce period. The inputs are taken as given: an expiry falling due between two widely spaced events is not part of the burst. |
| `Watcher.QuietPeriodExample` | watcher/watcher.go:87-100 | Writes at 0, 50 and 80 with a 100 ns debounce give one log line and one backup, at 180. |
| `Watcher.Debouncer.constructor` | watcher/watcher.go:52-53 | The loop starts with no timer and no logged change. |
| `Watcher.Debouncer.HandleEvent` | watcher/watcher.go:72-100 | Handling an event is exactly one step of the loop on that event. |
| `Watcher.Debouncer.Tick` | watcher/watcher.go:91-95 | A timer expiry is exactly one step of the loop. |
| `Watcher.Debouncer.ContextDone` | watcher/watcher.go:57-61 | Cancellation is exactly the cancellation step. |
| `Watcher.Debouncer.ChannelClosed` | watcher/watcher.go:63-78 | A closed channel is exactly the channel-closed step. |
| `Watcher.Debouncer.RunLoop` | watcher/watcher.go:51-103 | The loop ends in the state `Run` gives for the inputs, and returns how it exited. |
| `Watcher.BareNameNeverMatches` | watcher/watcher.go:80 | No event for a path inside the watched directory matches the bare file name. |
| `Watcher.AsWrittenNeverBacksUp` | watcher/watcher.go:80-85 | With the filter as written, a watch never runs a backup or arms a timer, whatever the directory sees. |
| `Watcher.WalPath` | watcher/watcher.go:22 | The log's path is the data directory, one `/`, then the log's file name. |
| `Watcher.FullPathMatches` | watcher/watcher.go:22 | Against the full path, an event qualifies exactly when it writes or creates the log file inside the data directory. The premise spells event paths with the data directory's text as given, so this holds as stated only for a clean data directory. |
| `Watcher.Watch` | watcher/watcher.go:21-42 | A failure to create the watcher, or to add the directory, is returned before the loop starts. Otherwise the loop runs, filtering on the log's full path. |
| `Cli.Getenv` | cmd/config.go:22 | An unset variable reads as empty. |
| `Cli.ToLower` | cmd/config.go:26 | Lower-casing keeps the length and lowers each ASCII letter. |
| `Cli.EnvBoolOrDefault` | cmd/config.go:21-30 | An empty variable gives the default. |
| `Cli.LowerMatchesSpelling` | cmd/config.go:26 | For a lower-case key, the lower-cased value equals the key exactly when the value is the key in any mix of cases. |
| `Cli.EnvBoolSpellings` | cmd/config.go:11-30 | `1`, `true` and `yes` in any case give true, and `0`, `false` and `no` give false. Any other value gives the default. |
| `Cli.EnvStringOrDefault` | cmd/config.go:33-38 | The variable when it is set and non-empty, and the default otherwise. |
| `Cli.EnvOrDefault` | cmd/watch.go:18-23 | The variable when it is set and non-empty, and the default otherwise. |
| `Cli.EnvOrDefaultAgrees` | cmd/watch.go:18-23 | `envOrDefault` and `envStringOrDefault` agree on every input. |
| `Cli.EnvDurationOrDefault` | cmd/config.go:41-52 | The default when the variable is empty or does not parse, and the parsed duration otherwise. |
| `Cli.ValidateDataDirFromArgs` | cmd/config.go:55-75 | No argument gives `missing path …`. The path loses one trailing `/`. A missing path gives `does not exist`, another stat error gives `checking data directory` wrapping it, and a non-directory gives `is not a directory`. It succeeds exactly on an existing directory and returns the trimmed path. |
| `Cli.AddBackupFlags` | cmd/flags.go:12-19 | Flag defaults: output-dir `.`, every boolean false, and both secrets empty. Each flag's given value is the command line's. |
| `Cli.ResolveBackupFlags` | cmd/flags.go:23-62 | A flag given on the command line wins. Otherwise the `VAULTAGE_` variable decides, with the flag's default as fallback. Either secret, when empty, takes the raw variable, even if given. `DataDir` is never set. |
| `Cli.FromEnv` | cmd/flags.go:24-42 | A flag changed on the command line gives its value. Otherwise the value comes from the environment. |
| `Cli.SecretOrEnv` | cmd/flags.go:44-52 | A non-empty secret is kept. An empty one is replaced by the raw variable. |
| `Cli.OutputDirPrecedence` | cmd/flags.go:24-27 | The output directory is the given flag, else a non-empty `VAULTAGE_OUTPUT_DIR`, else `.`. |
| `Cli.BackupCommandFlags` | cmd/backup.go:73-102 | The output-dir default comes from `OUTPUT_DIR`, falling back to `.`. The secret defaults come from `AGE_PASSPHRASE` and `AGE_KEY_FILE`. The booleans default to false. Each flag's given value is the command line's. |
| `Cli.BackupRunE` | cmd/backup.go:21-70 | The data-directory checks come first. Both secrets together are rejected only when encryption is on. Otherwise the config copies every flag value and the validated path. |
| `Cli.WatchCommandFlags` | cmd/watch.go:83-112 | The debounce defaults to ten minutes. The other defaults match the backup command. Each flag's given value is the command line's. |
| `Cli.WatchRunE` | cmd/watch.go:31-80 | The data-directory checks come first. Both secrets together are always rejected. The config never disables encryption and carries the debounce. |
| `Cli.SecretsExclusivityDiffers` | cmd/backup.go:53-57 | With encryption off, `backup` accepts both secrets where `watch` rejects them, and no watch configuration disables encryption. |

## Left out

- The tar byte encoding (ustar/pax headers, padding, trailer) is the opaque `encode`. Header modification times are not modelled.
- Symbolic links are not modelled, nor the difference between `os.Stat` and the `os.Lstat` that `filepath.WalkDir` uses for its root.
- A walk never changes what it walks: a file whose size changes between stat and copy is not modelled.
- Archive.WriteFileEntry: an open or copy failure is modelled as leaving the header with no bytes. A copy that fails partway may in fact have written some bytes first.
- The `filepath.Rel` error of the walk callback (backup/archive.go:121-124) is not modelled. The walked path always lies under the root, so that error cannot occur.
- The `tw.Write` error of `writeMemoryEntry` (backup/archive.go:66-68) is not modelled. A write within the declared size cannot fail on an in-memory buffer.
- The deferred `tw.Close` is not modelled. Its error is discarded in the source.
- Paths.Join does not clean its result as `filepath.Join` does. Every element the program joins is a single clean name, but the data and output directories come from the user unchecked. For a directory that is not clean, the model's path text differs from Go's. `out/` gives `out//vaultage-….tar` where Go gives `out/vaultage-….tar`. `./data` gives `./data/attachments` where Go gives `data/attachments`. The same goes for the entries' paths and the backup path.
- Backup.Volume.MkdirAll does not model the creation of parent directories.
- Backup.Volume.Remove ignores a failing remove, as the source does. It does not model the file surviving that failure.
- The output volume and the data directory are separate objects. A backup written inside the data directory is not seen by the same run.
- Concurrency is not modelled:
  - the fsnotify channels and `select`;
  - the `time.AfterFunc` goroutine;
  - overlapping backups.
  A timer firing is an input that carries the backup's outcome.
- backup/sqlite.go is not part of this model. The snapshot is the opaque `snapshot` function.
- The age/scrypt cipher is not part of this model; it is the opaque `seal`. Neither is the terminal reading of passwords; the reads are values.
- `time.ParseDuration` is the opaque `parse` of `Cli.EnvDurationOrDefault`.
- Watcher.BurstRunsOneBackup takes its inputs as given. Nothing requires the events of a burst to come less than a debounce period apart. With a longer gap, the running program would deliver the earlier timer's expiry between two events, and that input is simply absent from `Burst(e, times)`. The lemma describes the run without it.
- Special files are not modelled. A `Node` is a regular file or a directory. A socket is covered only as a node whose header cannot be built. FIFOs, device files and other special files are not modelled: `os.Open` on a FIFO blocks the walk in the running program.
- Log output is not modelled. `Watcher.Effect.Logged` only records that a change was logged.
- `ageKeyFile` is carried in the configuration but never read by `Perform`, in the model as in the source.
- main.go and cmd/root.go are not part of this model. They build the root command, and they do not fit together as written. cmd/root.go:27 registers only `Watch(cfg)`, passing the `*viper.Viper` that `RootCmd` takes where `Watch` (cmd/watch.go:27) expects a context. main.go:16 passes a context where `RootCmd` (cmd/root.go:11) expects a `*viper.Viper`.
- `Backup` (cmd/backup.go:17) is defined, but cmd/root.go never adds it to the root command, so the binary offers no `backup` command. The model covers it as written: `Cli.BackupCommandFlags`, `Cli.BackupRunE` and `Cli.SecretsExclusivityDiffers` describe a command that nothing reaches.
- `Perform`'s unused context is dropped. So is the argument mismatch of watcher/watcher.go:38, which calls `Perform` without one.
- Cobra's own argument and flag parsing errors are not modelled. A flag value is given or absent.
- `addBackupFlags` and `resolveBackupFlags` are modelled as written, but neither command calls them. The commands register their own flags.
- The commands' `RunE` bodies repeat the steps of `validateDataDirFromArgs` inline. `Cli.BackupRunE` and `Cli.WatchRunE` call `Cli.ValidateDataDirFromArgs` for them.
- Backup.TimestampRoundTrip requires a time whose fields are in range. It does not require a calendar-valid day, such as no 31 February. Go's clock never gives an out-of-range field.
- Backup.BackupNamesDistinct requires the same in-range fields, and nothing about the year.
- Cli.ToLower lowers only ASCII letters. Unicode's other lower-casings never produce a character of a `boolMap` key, so the lookup comes out the same.

## Findings

| source | as written | input that shows it | evidently intended | confidence | as-written member | corrected member |
|---|---|---|---|---|---|---|
| backup/backup.go:124 | The encrypted branch calls `writeArchiveToDisk` and discards its error, then returns nil. | `WithoutEncryption` false, a passphrase set, and an output path whose write fails (a full disk). The partial file is removed, and the run reports success with no backup on disk. | Return the write error in both branches, as the unencrypted branch does at backup/backup.go:105. | not executed | `Backup.PerformResultAsWritten`, shown by `Backup.EncryptedWriteFailureReportedAsSuccess` | `Backup.Perform` |
| watcher/watcher.go:80 | `event.Name` is compared with `WalFileName`, the bare `"db.sqlite3-wal"`. fsnotify names events by the watched directory joined with the file name. | A watch on `/data` and a write to `/data/db.sqlite3-wal` give an event named `/data/db.sqlite3-wal`, which never equals the bare name. No backup ever runs. | Compare with the path fsnotify reports for the log. That is `filepath.Join(DataDir, WalFileName)`, because fsnotify names events by the cleaned watch path. `walFilePath` (watcher/watcher.go:22) equals it only for a clean data directory; for `./data` it still misses. The corrected member follows `walFilePath`, so it matches only when the data directory is clean. | not executed | `Watcher.BareNameNeverMatches`, `Watcher.AsWrittenNeverBacksUp` | `Watcher.Watch`, `Watcher.FullPathMatches` |
