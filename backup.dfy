/**
 * One backup run, as backup/backup.go performs it: choose the archive
 * entries, build the tar archive in memory, optionally seal it with age, and
 * write it to a timestamped file in the output directory.
 *
 * The database snapshot, the tar byte encoding, the age cipher and the two
 * terminal reads of the passphrase prompt are opaque functions or values of
 * an `Environment`; the output directory is a `Volume` object whose
 * directories and files the run changes.
 */
module Backup {
  import opened Wrappers
  import opened Paths
  import opened Archive
  import Crypto

  const DBFileName: string := "db.sqlite3"
  const AttachmentsDirName: string := "attachments"
  const ConfigFileName: string := "config.json"

  /** Permission of the in-memory database entry (0644). */
  const DBMode: nat := 0x1A4

  /** The settings of a run (the fields of `backup.Config` the code uses). */
  datatype Config = Config(
    dataDir: string,
    outputDir: string,
    excludeAttachments: bool,
    excludeConfigFile: bool,
    withoutEncryption: bool,
    agePassphrase: string,
    ageKeyFile: string)

  // ---------------------------------------------------------------------
  // Choosing what goes into the archive
  // ---------------------------------------------------------------------

  /** The three entries a backup can hold. */
  function DatabaseEntry(snapshot: Bytes): Entry {
    Entry(DBFileName, Some(snapshot), "", DBMode)
  }

  function AttachmentsEntry(dataDir: string): Entry {
    Entry(AttachmentsDirName, None, Join(dataDir, AttachmentsDirName), 0)
  }

  function ConfigEntry(dataDir: string): Entry {
    Entry(ConfigFileName, None, Join(dataDir, ConfigFileName), 0)
  }

  /**
   * `GetArchiveEntries`: `snapshot` is the in-memory copy of the database at
   * a path (`BackupToMemory`), `disk` the data directory as `os.Stat` sees it.
   */
  function GetArchiveEntries(cfg: Config, disk: Disk, snapshot: string -> Result<Bytes>): (r: Result<seq<Entry>>)
    ensures snapshot(Join(cfg.dataDir, DBFileName)).Err?
            ==> r == Err(Wrapped("backing up database", snapshot(Join(cfg.dataDir, DBFileName)).error))
    ensures snapshot(Join(cfg.dataDir, DBFileName)).Ok?
            ==> r.Ok? && |r.value| >= 1 && r.value[0] == DatabaseEntry(snapshot(Join(cfg.dataDir, DBFileName)).value)
  {
    var snap := snapshot(Join(cfg.dataDir, DBFileName));
    if snap.Err? then Err(Wrapped("backing up database", snap.error))
    else
      var db := [DatabaseEntry(snap.value)];
      var attachments := StatPath(disk, Join(cfg.dataDir, AttachmentsDirName));
      var withAttachments :=
        if !cfg.excludeAttachments && attachments.Ok? && attachments.value.Dir?
        then db + [AttachmentsEntry(cfg.dataDir)] else db;
      var withConfig :=
        if !cfg.excludeConfigFile && StatPath(disk, Join(cfg.dataDir, ConfigFileName)).Ok?
        then withAttachments + [ConfigEntry(cfg.dataDir)] else withAttachments;
      Ok(withConfig)
  }

  /**
   * The attachments directory is archived exactly when it is not excluded
   * and its path exists and is a directory; `config.json` exactly when it
   * is not excluded and its path exists, whatever kind of node it is.
   */
  lemma EntriesSelection(cfg: Config, disk: Disk, snapshot: string -> Result<Bytes>)
    requires GetArchiveEntries(cfg, disk, snapshot).Ok?
    ensures var es := GetArchiveEntries(cfg, disk, snapshot).value;
            var att := Join(cfg.dataDir, AttachmentsDirName);
            var conf := Join(cfg.dataDir, ConfigFileName);
            && (AttachmentsEntry(cfg.dataDir) in es
                <==> !cfg.excludeAttachments && att in disk && disk[att].info.fault != StatFails && disk[att].Dir?)
            && (ConfigEntry(cfg.dataDir) in es
                <==> !cfg.excludeConfigFile && conf in disk && disk[conf].info.fault != StatFails)
            && forall e | e in es ::
                 e == es[0] || e == AttachmentsEntry(cfg.dataDir) || e == ConfigEntry(cfg.dataDir)
  {
    var es := GetArchiveEntries(cfg, disk, snapshot).value;
    EntriesCases(cfg, disk, snapshot);
    assert es[0].name == DBFileName;
  }

  /** Position of an entry name in the fixed order db, attachments, config. */
  function NameRank(name: string): nat {
    if name == DBFileName then 0 else if name == AttachmentsDirName then 1 else 2
  }

  /**
   * One to three entries, with distinct names in the order db, attachments,
   * config, and only the database held in memory.
   */
  lemma EntriesShape(cfg: Config, disk: Disk, snapshot: string -> Result<Bytes>)
    requires GetArchiveEntries(cfg, disk, snapshot).Ok?
    ensures var es := GetArchiveEntries(cfg, disk, snapshot).value;
            && 1 <= |es| <= 3
            && es[0].name == DBFileName && es[0].data.Some? && es[0].mode == DBMode
            && (forall i, j | 0 <= i < j < |es| :: NameRank(es[i].name) < NameRank(es[j].name))
            && (forall i, j | 0 <= i < j < |es| :: es[i].name != es[j].name)
            && (forall i | 0 < i < |es| :: es[i].data.None? && es[i].path == Join(cfg.dataDir, es[i].name))
  {
    var es := GetArchiveEntries(cfg, disk, snapshot).value;
    EntriesCases(cfg, disk, snapshot);
    assert NameRank(DBFileName) == 0;
    assert NameRank(AttachmentsDirName) == 1;
    assert NameRank(ConfigFileName) == 2;
  }

  /** Proof step: the entry list is the database entry followed by a subsequence of attachments, config. */
  lemma EntriesCases(cfg: Config, disk: Disk, snapshot: string -> Result<Bytes>)
    requires GetArchiveEntries(cfg, disk, snapshot).Ok?
    ensures var es := GetArchiveEntries(cfg, disk, snapshot).value;
            var db := DatabaseEntry(snapshot(Join(cfg.dataDir, DBFileName)).value);
            var att, conf := AttachmentsEntry(cfg.dataDir), ConfigEntry(cfg.dataDir);
            es == [db] || es == [db, att] || es == [db, conf] || es == [db, att, conf]
  {
  }

  // ---------------------------------------------------------------------
  // The name of the backup file
  // ---------------------------------------------------------------------

  /** A wall-clock reading, as `time.Now` gives it. */
  datatype Timestamp = Timestamp(year: nat, month: nat, day: nat, hour: nat, minute: nat, second: nat) {
    predicate Valid() {
      1 <= month <= 12 && 1 <= day <= 31 && hour < 24 && minute < 60 && second < 60
    }
  }

  predicate IsDigit(c: char) {
    '0' <= c <= '9'
  }

  function Pow10(k: nat): (r: nat)
    ensures r >= 1
  {
    if k == 0 then 1 else 10 * Pow10(k - 1)
  }

  /**
   * The decimal digits of `n`, padded with leading zeros to at least
   * `width` characters (Go's layout elements "2006", "01", "02", ...).
   */
  function Decimal(n: nat, width: nat): (s: string)
    ensures |s| >= 1 && |s| >= width
    ensures forall i | 0 <= i < |s| :: IsDigit(s[i])
    decreases n + width
  {
    var digit := ('0' as int + n % 10) as char;
    if n < 10 && width <= 1 then [digit]
    else Decimal(n / 10, if width == 0 then 0 else width - 1) + [digit]
  }

  /** The number a string of decimal digits denotes. */
  function ParseDecimal(s: string): nat
    requires forall i | 0 <= i < |s| :: IsDigit(s[i])
  {
    if s == [] then 0
    else
      var last := s[|s| - 1];
      assert IsDigit(last);
      ParseDecimal(s[..|s| - 1]) * 10 + (last as int - '0' as int)
  }

  lemma {:induction false} DecimalRoundTrip(n: nat, width: nat)
    ensures ParseDecimal(Decimal(n, width)) == n
    decreases n + width
  {
    var s := Decimal(n, width);
    if !(n < 10 && width <= 1) {
      var w := if width == 0 then 0 else width - 1;
      DecimalRoundTrip(n / 10, w);
      assert s[..|s| - 1] == Decimal(n / 10, w);
    }
  }

  /** A value below 10^width takes exactly `width` digits. */
  lemma {:induction false} DecimalWidth(n: nat, width: nat)
    requires width >= 1 && n < Pow10(width)
    ensures |Decimal(n, width)| == width
    decreases width
  {
    if !(n < 10 && width <= 1) {
      DecimalWidth(n / 10, width - 1);
    }
  }

  /**
   * `Format("20060102_150405")`: the year in at least four digits, then
   * month, day, an underscore, hour, minute and second in two digits each.
   */
  function FormatTimestamp(t: Timestamp): (s: string)
    ensures |s| >= 15
    ensures forall i | 0 <= i < |s| :: IsDigit(s[i]) || s[i] == '_'
  {
    Decimal(t.year, 4) + Decimal(t.month, 2) + Decimal(t.day, 2) + "_"
      + Decimal(t.hour, 2) + Decimal(t.minute, 2) + Decimal(t.second, 2)
  }

  /** Reading a stamp back: the year is everything before the last eleven characters. */
  function ParseTimestamp(s: string): Timestamp
    requires |s| >= 15
    requires forall i | 0 <= i < |s| && i != |s| - 7 :: IsDigit(s[i])
  {
    var k := |s| - 11;
    Timestamp(ParseDecimal(s[..k]), ParseDecimal(s[k..k + 2]), ParseDecimal(s[k + 2..k + 4]),
              ParseDecimal(s[k + 5..k + 7]), ParseDecimal(s[k + 7..k + 9]), ParseDecimal(s[k + 9..]))
  }

  /** Where each field of a stamp sits; a year below 10000 makes the stamp fifteen characters. */
  lemma TimestampLayout(t: Timestamp)
    requires t.Valid()
    ensures var s := FormatTimestamp(t);
            var k := |s| - 11;
            && k == |Decimal(t.year, 4)| && (t.year < 10000 ==> |s| == 15)
            && s[..k] == Decimal(t.year, 4) && s[k..k + 2] == Decimal(t.month, 2)
            && s[k + 2..k + 4] == Decimal(t.day, 2) && s[k + 4] == '_'
            && s[k + 5..k + 7] == Decimal(t.hour, 2) && s[k + 7..k + 9] == Decimal(t.minute, 2)
            && s[k + 9..] == Decimal(t.second, 2)
  {
    if t.year < 10000 {
      DecimalWidth(t.year, 4);
    }
    DecimalWidth(t.month, 2);
    DecimalWidth(t.day, 2);
    DecimalWidth(t.hour, 2);
    DecimalWidth(t.minute, 2);
    DecimalWidth(t.second, 2);
    FieldsAt(Decimal(t.year, 4), Decimal(t.month, 2), Decimal(t.day, 2),
             Decimal(t.hour, 2), Decimal(t.minute, 2), Decimal(t.second, 2));
  }

  /** Proof step: the slices of a year followed by five two-character fields around an underscore. */
  lemma FieldsAt(y: string, mo: string, d: string, h: string, mi: string, se: string)
    requires |mo| == 2 && |d| == 2 && |h| == 2 && |mi| == 2 && |se| == 2
    ensures var s := y + mo + d + "_" + h + mi + se;
            var k := |y|;
            && |s| == k + 11
            && s[..k] == y && s[k..k + 2] == mo && s[k + 2..k + 4] == d && s[k + 4] == '_'
            && s[k + 5..k + 7] == h && s[k + 7..k + 9] == mi && s[k + 9..] == se
  {
  }

  /** A stamp of a valid time can be read back. */
  lemma TimestampRoundTrip(t: Timestamp)
    requires t.Valid()
    ensures var s := FormatTimestamp(t);
            && (forall i | 0 <= i < |s| && i != |s| - 7 :: IsDigit(s[i]))
            && ParseTimestamp(s) == t
  {
    TimestampLayout(t);
    FormatDigits(t);
    DecimalRoundTrip(t.year, 4);
    DecimalRoundTrip(t.month, 2);
    DecimalRoundTrip(t.day, 2);
    DecimalRoundTrip(t.hour, 2);
    DecimalRoundTrip(t.minute, 2);
    DecimalRoundTrip(t.second, 2);
  }

  /** Proof step: every character of a valid stamp but the underscore is a digit. */
  lemma FormatDigits(t: Timestamp)
    requires t.Valid()
    ensures var s := FormatTimestamp(t);
            s[|s| - 7] == '_' && forall i | 0 <= i < |s| && i != |s| - 7 :: IsDigit(s[i])
  {
    TimestampLayout(t);
    var s := FormatTimestamp(t);
    var k := |s| - 11;
    forall i | 0 <= i < |s| && i != |s| - 7
      ensures IsDigit(s[i])
    {
      if i < k { assert s[i] == s[..k][i]; }
      else if i < k + 2 { assert s[i] == s[k..k + 2][i - k]; }
      else if i < k + 4 { assert s[i] == s[k + 2..k + 4][i - k - 2]; }
      else if i < k + 7 { assert s[i] == s[k + 5..k + 7][i - k - 5]; }
      else if i < k + 9 { assert s[i] == s[k + 7..k + 9][i - k - 7]; }
      else { assert s[i] == s[k + 9..][i - k - 9]; }
    }
  }

  /** `fmt.Sprintf("vaultage-%s.tar", timestamp)`. */
  function BackupFileName(t: Timestamp): (name: string)
    ensures |name| == 9 + |FormatTimestamp(t)| + 4
    ensures name[..9] == "vaultage-" && name[9..|name| - 4] == FormatTimestamp(t) && name[|name| - 4..] == ".tar"
  {
    "vaultage-" + FormatTimestamp(t) + ".tar"
  }

  /** The sealed backup keeps the tar name and adds ".age". */
  function EncryptedFileName(t: Timestamp): (name: string)
    ensures |name| == |BackupFileName(t)| + 4
    ensures name[..|name| - 4] == BackupFileName(t) && name[|name| - 4..] == ".age"
  {
    BackupFileName(t) + ".age"
  }

  /** Runs started in different seconds never write to the same file. */
  lemma BackupNamesDistinct(a: Timestamp, b: Timestamp)
    requires a.Valid() && b.Valid()
    requires a != b
    ensures BackupFileName(a) != BackupFileName(b)
    ensures EncryptedFileName(a) != EncryptedFileName(b)
  {
    TimestampRoundTrip(a);
    TimestampRoundTrip(b);
    assert FormatTimestamp(a) != FormatTimestamp(b);
  }

  // ---------------------------------------------------------------------
  // The output volume
  // ---------------------------------------------------------------------

  /**
   * The filesystem the backup is written to.  `mkdirFails` and `writeFails`
   * say where `os.MkdirAll` and `os.WriteFile` fail; a failing write first
   * writes the number of bytes `writeFails` gives.
   */
  class Volume {
    var dirs: set<string>
    var files: map<string, Bytes>
    const mkdirFails: set<string>
    const writeFails: map<string, nat>

    constructor(dirs: set<string>, files: map<string, Bytes>, mkdirFails: set<string>, writeFails: map<string, nat>)
      ensures this.dirs == dirs && this.files == files
      ensures this.mkdirFails == mkdirFails && this.writeFails == writeFails
    {
      this.dirs := dirs;
      this.files := files;
      this.mkdirFails := mkdirFails;
      this.writeFails := writeFails;
    }

    /** `os.MkdirAll(path, 0755)`. */
    method MkdirAll(path: string) returns (err: Option<Error>)
      modifies this
      ensures path in mkdirFails ==> err == Some(Failed(Op.Mkdir)) && dirs == old(dirs)
      ensures path !in mkdirFails ==> err == None && dirs == old(dirs) + {path}
      ensures files == old(files)
    {
      if path in mkdirFails {
        err := Some(Failed(Op.Mkdir));
      } else {
        dirs := dirs + {path};
        err := None;
      }
    }

    /** `os.WriteFile(path, data, 0644)`: creates or truncates, then writes. */
    method WriteFile(path: string, data: Bytes) returns (err: Option<Error>)
      modifies this
      ensures path in writeFails ==> err == Some(Failed(Op.WriteFile))
                                     && files == old(files)[path := data[..Min(writeFails[path], |data|)]]
      ensures path !in writeFails ==> err == None && files == old(files)[path := data]
      ensures dirs == old(dirs)
    {
      if path in writeFails {
        files := files[path := data[..Min(writeFails[path], |data|)]];
        err := Some(Failed(Op.WriteFile));
      } else {
        files := files[path := data];
        err := None;
      }
    }

    /** `os.Remove(path)`, whose own error the program ignores. */
    method Remove(path: string)
      modifies this
      ensures files == old(files) - {path}
      ensures dirs == old(dirs)
    {
      files := files - {path};
    }
  }

  function Min(a: nat, b: nat): nat {
    if a <= b then a else b
  }

  const WriteFileError: Error := Wrapped("writing backup file", Failed(Op.WriteFile))

  /**
   * `writeArchiveToDisk`: on a failed write the partial file is removed, so
   * afterwards the target holds exactly `bytes` or does not exist.
   */
  method WriteArchiveToDisk(vol: Volume, path: string, bytes: Bytes) returns (err: Option<Error>)
    modifies vol
    ensures path in vol.writeFails ==> err == Some(WriteFileError) && vol.files == old(vol.files) - {path}
    ensures path !in vol.writeFails ==> err == None && vol.files == old(vol.files)[path := bytes]
    ensures err.None? <==> path in vol.files && vol.files[path] == bytes
    ensures vol.dirs == old(vol.dirs)
  {
    err := vol.WriteFile(path, bytes);
    if err.Some? {
      vol.Remove(path);
      return Some(Wrapped("writing backup file", err.value));
    }
  }

  // ---------------------------------------------------------------------
  // Perform
  // ---------------------------------------------------------------------

  /** What a run depends on besides its configuration and the output volume. */
  datatype Environment = Environment(
    disk: Disk,                              // the data directory, as the program sees it
    snapshot: string -> Result<Bytes>,       // BackupToMemory of the database at a path
    accepts: Header -> bool,                 // which headers the tar writer can encode
    encode: seq<Record> -> Bytes,            // the tar stream of a record sequence, trailer included
    seal: (Bytes, string) -> Result<Bytes>,  // age encryption under a passphrase
    firstRead: Result<string>,               // the passphrase typed at the prompt
    secondRead: Result<string>,              // its confirmation
    now: Timestamp)                          // the clock when the file is named

  /** The file a run writes: where, and what. */
  datatype Artifact = Artifact(path: string, bytes: Bytes)

  /** An empty output directory means the working directory. */
  function OutputDir(cfg: Config): (d: string)
    ensures d != ""
    ensures cfg.outputDir != "" ==> d == cfg.outputDir
  {
    if cfg.outputDir == "" then "." else cfg.outputDir
  }

  /** The passphrase: the configured one, or else the one typed twice at the prompt. */
  function Passphrase(cfg: Config, env: Environment): (r: Result<string>)
    ensures cfg.agePassphrase != "" ==> r == Ok(cfg.agePassphrase)
    ensures cfg.agePassphrase == "" ==> r == Crypto.PromptForPassphrase(env.firstRead, env.secondRead)
  {
    if cfg.agePassphrase != "" then Ok(cfg.agePassphrase)
    else Crypto.PromptForPassphrase(env.firstRead, env.secondRead)
  }

  /** The encrypted branch: the archive sealed under the passphrase, named with ".age". */
  function SealedArtifact(cfg: Config, env: Environment, archive: Bytes, outFilePath: string): (r: Result<Artifact>)
    ensures r.Ok? <==> Passphrase(cfg, env).Ok? && env.seal(archive, Passphrase(cfg, env).value).Ok?
    ensures r.Ok? ==> r.value == Artifact(outFilePath + ".age", env.seal(archive, Passphrase(cfg, env).value).value)
    ensures Passphrase(cfg, env).Err? ==> r == Err(Passphrase(cfg, env).error)
    ensures Passphrase(cfg, env).Ok? && env.seal(archive, Passphrase(cfg, env).value).Err?
            ==> r == Err(env.seal(archive, Passphrase(cfg, env).value).error)
  {
    match Passphrase(cfg, env)
    case Err(e) => Err(e)
    case Ok(passphrase) =>
      match env.seal(archive, passphrase)
      case Err(e) => Err(e)
      case Ok(sealed) => Ok(Artifact(outFilePath + ".age", sealed))
  }

  /**
   * The steps of `Perform` after the output directory exists: collect the
   * entries, build the archive, and, unless encryption is off, seal it.
   */
  function BackupArtifact(cfg: Config, env: Environment): (r: Result<Artifact>)
    ensures GetArchiveEntries(cfg, env.disk, env.snapshot).Err?
            ==> r == Err(GetArchiveEntries(cfg, env.disk, env.snapshot).error)
    ensures r.Ok? ==> GetArchiveEntries(cfg, env.disk, env.snapshot).Ok?
                      && ArchiveTrace(env.accepts, env.disk, GetArchiveEntries(cfg, env.disk, env.snapshot).value).err.None?
    ensures r.Ok? && cfg.withoutEncryption ==> r.value.path == Join(OutputDir(cfg), BackupFileName(env.now))
    ensures r.Ok? && !cfg.withoutEncryption ==> r.value.path == Join(OutputDir(cfg), BackupFileName(env.now)) + ".age"
    ensures GetArchiveEntries(cfg, env.disk, env.snapshot).Ok? ==>
              var trace := ArchiveTrace(env.accepts, env.disk, GetArchiveEntries(cfg, env.disk, env.snapshot).value);
              var tarPath := Join(OutputDir(cfg), BackupFileName(env.now));
              && (trace.err.Some? ==> r == Err(Wrapped("creating archive", trace.err.value)))
              && (trace.err.None? && cfg.withoutEncryption ==> r == Ok(Artifact(tarPath, env.encode(trace.records))))
              && (trace.err.None? && !cfg.withoutEncryption
                  ==> r == SealedArtifact(cfg, env, env.encode(trace.records), tarPath))
  {
    match GetArchiveEntries(cfg, env.disk, env.snapshot)
    case Err(e) => Err(e)
    case Ok(entries) =>
      var trace := ArchiveTrace(env.accepts, env.disk, entries);
      if trace.err.Some? then Err(Wrapped("creating archive", trace.err.value))
      else
        var archive := env.encode(trace.records);
        var outFilePath := Join(OutputDir(cfg), BackupFileName(env.now));
        if cfg.withoutEncryption then Ok(Artifact(outFilePath, archive))
        else SealedArtifact(cfg, env, archive, outFilePath)
  }

  /**
   * What a successful backup holds: the records of the chosen entries in
   * order, each declaring its own payload size, the database snapshot
   * first as `db.sqlite3` with mode 0644; the file is their tar stream,
   * sealed under the passphrase unless encryption is off.
   */
  lemma BackupContents(cfg: Config, env: Environment)
    requires BackupArtifact(cfg, env).Ok?
    ensures var es := GetArchiveEntries(cfg, env.disk, env.snapshot).value;
            var rs := ArchiveTrace(env.accepts, env.disk, es).records;
            var snap := env.snapshot(Join(cfg.dataDir, DBFileName)).value;
            && rs == AllRecords(env.accepts, env.disk, es)
            && WellSized(rs)
            && rs != [] && rs[0] == Record(Header(DBFileName, Regular, DBMode, |snap|), snap)
            && (cfg.withoutEncryption ==> BackupArtifact(cfg, env).value.bytes == env.encode(rs))
            && (!cfg.withoutEncryption
                ==> BackupArtifact(cfg, env).value.bytes == env.seal(env.encode(rs), Passphrase(cfg, env).value).value)
  {
    var es := GetArchiveEntries(cfg, env.disk, env.snapshot).value;
    ArchiveInOrder(env.accepts, env.disk, es);
    ArchiveWellSized(env.accepts, env.disk, es);
    assert EntryTrace(env.accepts, env.disk, es[0]).err.None?;
    MemoryEntryRecord(env.accepts, env.disk, env.disk, es[0]);
  }

  /**
   * What the first steps of `Perform` lead to, with `mkdirFails` the
   * directories the volume cannot create.
   */
  function Prepared(cfg: Config, env: Environment, mkdirFails: set<string>): (r: Result<Artifact>)
    ensures OutputDir(cfg) in mkdirFails ==> r == Err(Wrapped("creating output directory", Failed(Op.Mkdir)))
    ensures OutputDir(cfg) !in mkdirFails ==> r == BackupArtifact(cfg, env)
  {
    if OutputDir(cfg) in mkdirFails then Err(Wrapped("creating output directory", Failed(Op.Mkdir)))
    else BackupArtifact(cfg, env)
  }

  /** Everything `Perform` does before writing the backup file. */
  method PrepareBackup(cfg: Config, env: Environment, vol: Volume) returns (r: Result<Artifact>)
    modifies vol
    ensures r == Prepared(cfg, env, vol.mkdirFails)
    ensures vol.dirs == if OutputDir(cfg) in vol.mkdirFails then old(vol.dirs) else old(vol.dirs) + {OutputDir(cfg)}
    ensures vol.files == old(vol.files)
  {
    var outputDir := cfg.outputDir;
    if outputDir == "" {
      outputDir := ".";
    }
    var mkdirErr := vol.MkdirAll(outputDir);
    if mkdirErr.Some? {
      return Err(Wrapped("creating output directory", mkdirErr.value));
    }
    var entries := GetArchiveEntries(cfg, env.disk, env.snapshot);
    if entries.Err? {
      return Err(entries.error);
    }
    var outFilePath := Join(outputDir, BackupFileName(env.now));
    var tw := new TarWriter(env.accepts);
    var archiveErr := CreateArchive(tw, env.disk, entries.value);
    if archiveErr.Some? {
      return Err(Wrapped("creating archive", archiveErr.value));
    }
    assert tw.records == ArchiveTrace(env.accepts, env.disk, entries.value).records;
    var archive := env.encode(tw.records);
    if cfg.withoutEncryption {
      return Ok(Artifact(outFilePath, archive));
    }
    r := SealBackup(cfg, env, archive, outFilePath);
  }

  /** The encrypted branch of `Perform`, up to the write. */
  method SealBackup(cfg: Config, env: Environment, archive: Bytes, outFilePath: string) returns (r: Result<Artifact>)
    ensures r == SealedArtifact(cfg, env, archive, outFilePath)
  {
    var outEncryptedFilePath := outFilePath + ".age";
    var passphrase := cfg.agePassphrase;
    if passphrase == "" {
      var typed := Crypto.PromptForPassphrase(env.firstRead, env.secondRead);
      if typed.Err? {
        return Err(typed.error);
      }
      passphrase := typed.value;
    }
    var buffer := new bv8[|archive|](i requires 0 <= i < |archive| => archive[i]);
    assert buffer[..] == archive;
    var sealed := Crypto.EncryptWithPassphrase(buffer, passphrase, env.seal);
    if sealed.Err? {
      return Err(sealed.error);
    }
    return Ok(Artifact(outEncryptedFilePath, sealed.value));
  }

  /** The files after the write of `a`: its bytes, or no file at all. */
  function AfterWrite(files: map<string, Bytes>, writeFails: map<string, nat>, a: Artifact): map<string, Bytes> {
    if a.path in writeFails then files - {a.path} else files[a.path := a.bytes]
  }

  /**
   * `Perform` as written: in the encrypted branch the error of the final
   * write is discarded and the run reports success.
   */
  function PerformResultAsWritten(cfg: Config, env: Environment, mkdirFails: set<string>, writeFails: map<string, nat>): (r: Option<Error>)
    ensures r.None? <==> Prepared(cfg, env, mkdirFails).Ok?
                         && (!cfg.withoutEncryption || Prepared(cfg, env, mkdirFails).value.path !in writeFails)
    ensures Prepared(cfg, env, mkdirFails).Err? ==> r == Some(Prepared(cfg, env, mkdirFails).error)
  {
    match Prepared(cfg, env, mkdirFails)
    case Err(e) => Some(e)
    case Ok(a) => if cfg.withoutEncryption && a.path in writeFails then Some(WriteFileError) else None
  }

  /**
   * The lost error: an encrypted run whose final write fails leaves no
   * backup file, yet reports success.
   */
  lemma EncryptedWriteFailureReportedAsSuccess(cfg: Config, env: Environment, files: map<string, Bytes>,
                                               mkdirFails: set<string>, writeFails: map<string, nat>)
    requires !cfg.withoutEncryption
    requires Prepared(cfg, env, mkdirFails).Ok? && Prepared(cfg, env, mkdirFails).value.path in writeFails
    ensures PerformResultAsWritten(cfg, env, mkdirFails, writeFails) == None
    ensures Prepared(cfg, env, mkdirFails).value.path !in AfterWrite(files, writeFails, Prepared(cfg, env, mkdirFails).value)
  {
  }

  /**
   * `Perform`, returning the error of the final write in both branches.
   * It succeeds exactly when the backup file exists afterwards with the
   * planned contents; an earlier failure leaves every file as it was.
   */
  method Perform(cfg: Config, env: Environment, vol: Volume) returns (err: Option<Error>)
    modifies vol
    ensures var p := Prepared(cfg, env, vol.mkdirFails);
            && (p.Err? ==> err == Some(p.error) && vol.files == old(vol.files))
            && (p.Ok? ==> vol.files == AfterWrite(old(vol.files), vol.writeFails, p.value))
            && (err.None? <==> p.Ok? && p.value.path in vol.files && vol.files[p.value.path] == p.value.bytes)
    ensures vol.dirs == if OutputDir(cfg) in vol.mkdirFails then old(vol.dirs) else old(vol.dirs) + {OutputDir(cfg)}
  {
    var prepared := PrepareBackup(cfg, env, vol);
    if prepared.Err? {
      return Some(prepared.error);
    }
    err := WriteArchiveToDisk(vol, prepared.value.path, prepared.value.bytes);
  }
}
