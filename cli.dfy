/**
 * The command layer of cmd/config.go, cmd/flags.go, cmd/backup.go and
 * cmd/watch.go: environment fallbacks, flag precedence, and the checks the
 * `backup` and `watch` commands make before handing a configuration to
 * `backup.Perform` or `watcher.Watch`.
 *
 * The process environment is a map; a flag is its registered default and
 * the value given on the command line, if any.
 */
module Cli {
  import opened Wrappers
  import opened Paths
  import Archive
  import Backup

  type Env = map<string, string>

  /** `os.Getenv`: an unset variable reads as the empty string. */
  function Getenv(env: Env, key: string): (v: string)
    ensures key in env ==> v == env[key]
    ensures key !in env ==> v == ""
  {
    if key in env then env[key] else ""
  }

  // ---------------------------------------------------------------------
  // Environment fallbacks (cmd/config.go)
  // ---------------------------------------------------------------------

  /** `boolMap`: the spellings a boolean variable may take, in lower case. */
  const BoolMap: map<string, bool> :=
    map["1" := true, "true" := true, "yes" := true, "0" := false, "false" := false, "no" := false]

  function LowerChar(c: char): char {
    if 'A' <= c <= 'Z' then (c as int + 32) as char else c
  }

  /**
   * `strings.ToLower` on ASCII letters.  The other characters Unicode lowers
   * never lower to a letter or digit of a `boolMap` key, so lookups in
   * `boolMap` come out the same.
   */
  function ToLower(s: string): (r: string)
    ensures |r| == |s|
    ensures forall i | 0 <= i < |s| :: r[i] == LowerChar(s[i])
  {
    seq(|s|, i requires 0 <= i < |s| => LowerChar(s[i]))
  }

  /** `envBoolOrDefault`. */
  function EnvBoolOrDefault(env: Env, key: string, default: bool): (r: bool)
    ensures Getenv(env, key) == "" ==> r == default
  {
    var val := Getenv(env, key);
    if val == "" then default
    else if ToLower(val) in BoolMap then BoolMap[ToLower(val)]
    else default
  }

  /**
   * `a` is `word` with any of its letters written in upper case, as
   * `strings.EqualFold` would accept for these words.
   */
  predicate SpelledAs(a: string, word: string) {
    |a| == |word|
    && forall i | 0 <= i < |a| ::
         a[i] == word[i] || ('a' <= word[i] <= 'z' && a[i] as int == word[i] as int - 32)
  }

  /** Words of lower-case letters and digits, like the keys of `boolMap`. */
  predicate LowerWord(w: string) {
    forall i | 0 <= i < |w| :: 'a' <= w[i] <= 'z' || '0' <= w[i] <= '9'
  }

  lemma LowerMatchesSpelling(a: string, word: string)
    requires LowerWord(word)
    ensures ToLower(a) == word <==> SpelledAs(a, word)
  {
    if SpelledAs(a, word) {
      assert forall i | 0 <= i < |a| :: ToLower(a)[i] == word[i];
    }
    if ToLower(a) == word {
      forall i | 0 <= i < |a|
        ensures a[i] == word[i] || ('a' <= word[i] <= 'z' && a[i] as int == word[i] as int - 32)
      {
        assert LowerChar(a[i]) == word[i];
      }
    }
  }

  /**
   * "1", "true" and "yes" read as true and "0", "false" and "no" as false,
   * in any mix of cases; any other non-empty value, like an empty one,
   * leaves the default.
   */
  lemma EnvBoolSpellings(env: Env, key: string, default: bool)
    ensures var v := Getenv(env, key);
            && (SpelledAs(v, "1") || SpelledAs(v, "true") || SpelledAs(v, "yes")
                ==> EnvBoolOrDefault(env, key, default))
            && (SpelledAs(v, "0") || SpelledAs(v, "false") || SpelledAs(v, "no")
                ==> !EnvBoolOrDefault(env, key, default))
            && (!(SpelledAs(v, "1") || SpelledAs(v, "true") || SpelledAs(v, "yes")
                  || SpelledAs(v, "0") || SpelledAs(v, "false") || SpelledAs(v, "no"))
                ==> EnvBoolOrDefault(env, key, default) == default)
  {
    var v := Getenv(env, key);
    LowerMatchesSpelling(v, "1");
    LowerMatchesSpelling(v, "true");
    LowerMatchesSpelling(v, "yes");
    LowerMatchesSpelling(v, "0");
    LowerMatchesSpelling(v, "false");
    LowerMatchesSpelling(v, "no");
    assert BoolMap.Keys == {"1", "true", "yes", "0", "false", "no"};
  }

  /** `envStringOrDefault`: the variable when it is set and not empty. */
  function EnvStringOrDefault(env: Env, key: string, default: string): (r: string)
    ensures key in env && env[key] != "" ==> r == env[key]
    ensures !(key in env && env[key] != "") ==> r == default
  {
    var val := Getenv(env, key);
    if val != "" then val else default
  }

  /** `envOrDefault` of cmd/watch.go. */
  function EnvOrDefault(env: Env, key: string, default: string): (r: string)
    ensures key in env && env[key] != "" ==> r == env[key]
    ensures !(key in env && env[key] != "") ==> r == default
  {
    var val := Getenv(env, key);
    if val != "" then val else default
  }

  /** The two helpers of cmd/config.go and cmd/watch.go behave alike. */
  lemma EnvOrDefaultAgrees(env: Env, key: string, default: string)
    ensures EnvOrDefault(env, key, default) == EnvStringOrDefault(env, key, default)
  {
  }

  /**
   * `envDurationOrDefault`, with `time.ParseDuration` as `parse` (`None`
   * for a value it rejects).
   */
  function EnvDurationOrDefault(env: Env, key: string, default: int, parse: string -> Option<int>): (r: int)
    ensures Getenv(env, key) == "" ==> r == default
    ensures Getenv(env, key) != "" && parse(Getenv(env, key)).None? ==> r == default
    ensures Getenv(env, key) != "" && parse(Getenv(env, key)).Some? ==> r == parse(Getenv(env, key)).value
  {
    var val := Getenv(env, key);
    if val == "" then default
    else match parse(val)
      case None => default
      case Some(d) => d
  }

  // ---------------------------------------------------------------------
  // The data directory argument
  // ---------------------------------------------------------------------

  const MissingDataDir: string := "missing path to vaultwarden data directory"

  /**
   * `validateDataDirFromArgs`: the first argument, less one trailing "/",
   * must name an existing directory.
   */
  function ValidateDataDirFromArgs(args: seq<string>, disk: Archive.Disk): (r: Result<string>)
    ensures args == [] ==> r == Err(Message(MissingDataDir))
    ensures args != [] ==>
              var d := TrimTrailingSlash(args[0]);
              && (d !in disk ==> r == Err(Message("data directory does not exist: " + d)))
              && (d in disk && disk[d].info.fault == Archive.StatFails
                  ==> r == Err(Wrapped("checking data directory", Failed(Op.Stat))))
              && (d in disk && disk[d].info.fault != Archive.StatFails && !disk[d].Dir?
                  ==> r == Err(Message("path is not a directory: " + d)))
              && (r.Ok? <==> d in disk && disk[d].info.fault != Archive.StatFails && disk[d].Dir?)
              && (r.Ok? ==> r.value == d)
  {
    if |args| < 1 then Err(Message(MissingDataDir))
    else
      var dataDir := TrimTrailingSlash(args[0]);
      match Archive.StatPath(disk, dataDir)
      case Err(e) =>
        if e == NotExist then Err(Message("data directory does not exist: " + dataDir))
        else Err(Wrapped("checking data directory", e))
      case Ok(info) =>
        if !info.Dir? then Err(Message("path is not a directory: " + dataDir))
        else Ok(dataDir)
  }

  // ---------------------------------------------------------------------
  // Flags
  // ---------------------------------------------------------------------

  /** A registered flag: its default, and the value given on the command line, if any. */
  datatype Flag<T> = Flag(default: T, given: Option<T>) {
    /** `GetString` / `GetBool` / `GetDuration`. */
    function Value(): T {
      given.GetOr(default)
    }

    /** `Flags().Changed`. */
    predicate Changed() {
      given.Some?
    }
  }

  /** What was given on the command line for each flag the commands know. */
  datatype CommandLine = CommandLine(
    outputDir: Option<string>,
    excludeAttachments: Option<bool>,
    excludeConfigFile: Option<bool>,
    withoutEncryption: Option<bool>,
    agePassphrase: Option<string>,
    ageKeyFile: Option<string>,
    debounce: Option<int>)

  /** The six backup settings as flags. */
  datatype BackupFlags = BackupFlags(
    outputDir: Flag<string>,
    excludeAttachments: Flag<bool>,
    excludeConfigFile: Flag<bool>,
    withoutEncryption: Flag<bool>,
    agePassphrase: Flag<string>,
    ageKeyFile: Flag<string>)

  /** `addBackupFlags`: fixed defaults, the environment is consulted later. */
  function AddBackupFlags(cl: CommandLine): (f: BackupFlags)
    ensures f.outputDir.default == "."
    ensures !f.excludeAttachments.default && !f.excludeConfigFile.default && !f.withoutEncryption.default
    ensures f.agePassphrase.default == "" && f.ageKeyFile.default == ""
    ensures f.outputDir.given == cl.outputDir && f.agePassphrase.given == cl.agePassphrase
    ensures f.excludeAttachments.given == cl.excludeAttachments && f.excludeConfigFile.given == cl.excludeConfigFile
    ensures f.withoutEncryption.given == cl.withoutEncryption && f.ageKeyFile.given == cl.ageKeyFile
  {
    BackupFlags(
      Flag(".", cl.outputDir),
      Flag(false, cl.excludeAttachments),
      Flag(false, cl.excludeConfigFile),
      Flag(false, cl.withoutEncryption),
      Flag("", cl.agePassphrase),
      Flag("", cl.ageKeyFile))
  }

  /**
   * `resolveBackupFlags`.  A flag given on the command line wins; otherwise
   * the VAULTAGE_ variable decides, with the flag's default as its own
   * default.  The two secrets instead fall back on the raw variable
   * whenever their value is empty, even when given.  The data directory is
   * left empty.
   */
  function ResolveBackupFlags(f: BackupFlags, env: Env): (cfg: Backup.Config)
    ensures f.outputDir.Changed() ==> cfg.outputDir == f.outputDir.given.value
    ensures !f.outputDir.Changed() ==> cfg.outputDir == EnvStringOrDefault(env, "VAULTAGE_OUTPUT_DIR", f.outputDir.default)
    ensures f.excludeAttachments.Changed() ==> cfg.excludeAttachments == f.excludeAttachments.given.value
    ensures !f.excludeAttachments.Changed()
            ==> cfg.excludeAttachments == EnvBoolOrDefault(env, "VAULTAGE_EXCLUDE_ATTACHMENTS", f.excludeAttachments.default)
    ensures f.excludeConfigFile.Changed() ==> cfg.excludeConfigFile == f.excludeConfigFile.given.value
    ensures !f.excludeConfigFile.Changed()
            ==> cfg.excludeConfigFile == EnvBoolOrDefault(env, "VAULTAGE_EXCLUDE_CONFIG_FILE", f.excludeConfigFile.default)
    ensures f.withoutEncryption.Changed() ==> cfg.withoutEncryption == f.withoutEncryption.given.value
    ensures !f.withoutEncryption.Changed()
            ==> cfg.withoutEncryption == EnvBoolOrDefault(env, "VAULTAGE_WITHOUT_ENCRYPTION", f.withoutEncryption.default)
    ensures f.agePassphrase.Value() != "" ==> cfg.agePassphrase == f.agePassphrase.Value()
    ensures f.agePassphrase.Value() == "" ==> cfg.agePassphrase == Getenv(env, "VAULTAGE_AGE_PASSPHRASE")
    ensures f.ageKeyFile.Value() != "" ==> cfg.ageKeyFile == f.ageKeyFile.Value()
    ensures f.ageKeyFile.Value() == "" ==> cfg.ageKeyFile == Getenv(env, "VAULTAGE_AGE_KEY_FILE")
    ensures cfg.dataDir == ""
  {
    Backup.Config(
      "",
      FromEnv(f.outputDir, EnvStringOrDefault(env, "VAULTAGE_OUTPUT_DIR", f.outputDir.default)),
      FromEnv(f.excludeAttachments, EnvBoolOrDefault(env, "VAULTAGE_EXCLUDE_ATTACHMENTS", f.excludeAttachments.default)),
      FromEnv(f.excludeConfigFile, EnvBoolOrDefault(env, "VAULTAGE_EXCLUDE_CONFIG_FILE", f.excludeConfigFile.default)),
      FromEnv(f.withoutEncryption, EnvBoolOrDefault(env, "VAULTAGE_WITHOUT_ENCRYPTION", f.withoutEncryption.default)),
      SecretOrEnv(f.agePassphrase.Value(), Getenv(env, "VAULTAGE_AGE_PASSPHRASE")),
      SecretOrEnv(f.ageKeyFile.Value(), Getenv(env, "VAULTAGE_AGE_KEY_FILE")))
  }

  /** A flag not changed on the command line takes `fallback`, read from the environment. */
  function FromEnv<T>(flag: Flag<T>, fallback: T): (v: T)
    ensures flag.Changed() ==> v == flag.given.value
    ensures !flag.Changed() ==> v == fallback
  {
    if !flag.Changed() then fallback else flag.Value()
  }

  /** An empty secret is replaced by the environment variable, set or not. */
  function SecretOrEnv(value: string, fallback: string): (v: string)
    ensures value != "" ==> v == value
    ensures value == "" ==> v == fallback
  {
    if value == "" then fallback else value
  }

  /**
   * With the shared flags, the output directory is the one given, else a
   * non-empty VAULTAGE_OUTPUT_DIR, else ".".
   */
  lemma OutputDirPrecedence(cl: CommandLine, env: Env)
    ensures var cfg := ResolveBackupFlags(AddBackupFlags(cl), env);
            cfg.outputDir == if cl.outputDir.Some? then cl.outputDir.value
                             else if Getenv(env, "VAULTAGE_OUTPUT_DIR") != "" then Getenv(env, "VAULTAGE_OUTPUT_DIR")
                             else "."
  {
  }

  // ---------------------------------------------------------------------
  // The backup command (cmd/backup.go)
  // ---------------------------------------------------------------------

  const ExclusiveSecrets: string := "--age-passphrase and --age-key-file are mutually exclusive"

  /** The flags of `backup`, whose defaults are read from the environment when it is built. */
  function BackupCommandFlags(env: Env, cl: CommandLine): (f: BackupFlags)
    ensures f.outputDir.default == EnvOrDefault(env, "OUTPUT_DIR", ".")
    ensures !f.excludeAttachments.default && !f.excludeConfigFile.default && !f.withoutEncryption.default
    ensures f.agePassphrase.default == Getenv(env, "AGE_PASSPHRASE")
    ensures f.ageKeyFile.default == Getenv(env, "AGE_KEY_FILE")
    ensures f.outputDir.given == cl.outputDir && f.agePassphrase.given == cl.agePassphrase
    ensures f.excludeAttachments.given == cl.excludeAttachments && f.excludeConfigFile.given == cl.excludeConfigFile
    ensures f.withoutEncryption.given == cl.withoutEncryption && f.ageKeyFile.given == cl.ageKeyFile
  {
    BackupFlags(
      Flag(EnvOrDefault(env, "OUTPUT_DIR", "."), cl.outputDir),
      Flag(false, cl.excludeAttachments),
      Flag(false, cl.excludeConfigFile),
      Flag(false, cl.withoutEncryption),
      Flag(Getenv(env, "AGE_PASSPHRASE"), cl.agePassphrase),
      Flag(Getenv(env, "AGE_KEY_FILE"), cl.ageKeyFile))
  }

  /**
   * The `RunE` of `backup`, up to the configuration it passes to
   * `backup.Perform`.  Its data-directory checks are the steps of
   * `validateDataDirFromArgs`, written out again in the command.
   */
  function BackupRunE(args: seq<string>, disk: Archive.Disk, f: BackupFlags): (r: Result<Backup.Config>)
    ensures ValidateDataDirFromArgs(args, disk).Err? ==> r == Err(ValidateDataDirFromArgs(args, disk).error)
    ensures ValidateDataDirFromArgs(args, disk).Ok?
            ==> (r.Err? <==> !f.withoutEncryption.Value() && f.agePassphrase.Value() != "" && f.ageKeyFile.Value() != "")
    ensures r.Err? && ValidateDataDirFromArgs(args, disk).Ok? ==> r.error == Message(ExclusiveSecrets)
    ensures r.Ok? ==> r.value == Backup.Config(
                        ValidateDataDirFromArgs(args, disk).value, f.outputDir.Value(),
                        f.excludeAttachments.Value(), f.excludeConfigFile.Value(), f.withoutEncryption.Value(),
                        f.agePassphrase.Value(), f.ageKeyFile.Value())
  {
    match ValidateDataDirFromArgs(args, disk)
    case Err(e) => Err(e)
    case Ok(dataDir) =>
      var withoutEncryption := f.withoutEncryption.Value();
      var agePassphrase := f.agePassphrase.Value();
      var ageKeyFile := f.ageKeyFile.Value();
      if !withoutEncryption && agePassphrase != "" && ageKeyFile != "" then Err(Message(ExclusiveSecrets))
      else Ok(Backup.Config(dataDir, f.outputDir.Value(), f.excludeAttachments.Value(),
                            f.excludeConfigFile.Value(), withoutEncryption, agePassphrase, ageKeyFile))
  }

  // ---------------------------------------------------------------------
  // The watch command (cmd/watch.go)
  // ---------------------------------------------------------------------

  /** Ten minutes, in nanoseconds. */
  const DefaultDebounce: int := 600_000_000_000

  /** The flags of `watch`; it has no `--without-encryption`. */
  datatype WatchFlags = WatchFlags(
    debounce: Flag<int>,
    outputDir: Flag<string>,
    excludeAttachments: Flag<bool>,
    excludeConfigFile: Flag<bool>,
    agePassphrase: Flag<string>,
    ageKeyFile: Flag<string>)

  function WatchCommandFlags(env: Env, cl: CommandLine): (f: WatchFlags)
    ensures f.debounce.default == DefaultDebounce
    ensures f.outputDir.default == EnvOrDefault(env, "OUTPUT_DIR", ".")
    ensures !f.excludeAttachments.default && !f.excludeConfigFile.default
    ensures f.agePassphrase.default == Getenv(env, "AGE_PASSPHRASE")
    ensures f.ageKeyFile.default == Getenv(env, "AGE_KEY_FILE")
    ensures f.debounce.given == cl.debounce && f.outputDir.given == cl.outputDir
    ensures f.excludeAttachments.given == cl.excludeAttachments && f.excludeConfigFile.given == cl.excludeConfigFile
    ensures f.agePassphrase.given == cl.agePassphrase && f.ageKeyFile.given == cl.ageKeyFile
  {
    WatchFlags(
      Flag(DefaultDebounce, cl.debounce),
      Flag(EnvOrDefault(env, "OUTPUT_DIR", "."), cl.outputDir),
      Flag(false, cl.excludeAttachments),
      Flag(false, cl.excludeConfigFile),
      Flag(Getenv(env, "AGE_PASSPHRASE"), cl.agePassphrase),
      Flag(Getenv(env, "AGE_KEY_FILE"), cl.ageKeyFile))
  }

  /** `watcher.Config`: the backup settings and the quiet period. */
  datatype WatchConfig = WatchConfig(config: Backup.Config, debounce: int)

  /** The `RunE` of `watch`, up to the configuration it passes to `watcher.Watch`. */
  function WatchRunE(args: seq<string>, disk: Archive.Disk, f: WatchFlags): (r: Result<WatchConfig>)
    ensures ValidateDataDirFromArgs(args, disk).Err? ==> r == Err(ValidateDataDirFromArgs(args, disk).error)
    ensures ValidateDataDirFromArgs(args, disk).Ok?
            ==> (r.Err? <==> f.agePassphrase.Value() != "" && f.ageKeyFile.Value() != "")
    ensures r.Err? && ValidateDataDirFromArgs(args, disk).Ok? ==> r.error == Message(ExclusiveSecrets)
    ensures r.Ok? ==> r.value == WatchConfig(
                        Backup.Config(ValidateDataDirFromArgs(args, disk).value, f.outputDir.Value(),
                                      f.excludeAttachments.Value(), f.excludeConfigFile.Value(), false,
                                      f.agePassphrase.Value(), f.ageKeyFile.Value()),
                        f.debounce.Value())
  {
    match ValidateDataDirFromArgs(args, disk)
    case Err(e) => Err(e)
    case Ok(dataDir) =>
      var agePassphrase := f.agePassphrase.Value();
      var ageKeyFile := f.ageKeyFile.Value();
      if agePassphrase != "" && ageKeyFile != "" then Err(Message(ExclusiveSecrets))
      else Ok(WatchConfig(
                Backup.Config(dataDir, f.outputDir.Value(), f.excludeAttachments.Value(),
                              f.excludeConfigFile.Value(), false, agePassphrase, ageKeyFile),
                f.debounce.Value()))
  }

  /**
   * The two commands differ on both secrets: `backup --without-encryption`
   * accepts them together, `watch` never does, and every watch-mode backup
   * is encrypted.
   */
  lemma SecretsExclusivityDiffers(args: seq<string>, disk: Archive.Disk, b: BackupFlags, w: WatchFlags)
    requires ValidateDataDirFromArgs(args, disk).Ok?
    requires b.agePassphrase.Value() != "" && b.ageKeyFile.Value() != "" && b.withoutEncryption.Value()
    requires w.agePassphrase.Value() == b.agePassphrase.Value() && w.ageKeyFile.Value() == b.ageKeyFile.Value()
    ensures BackupRunE(args, disk, b).Ok?
    ensures WatchRunE(args, disk, w).Err?
    ensures forall f: WatchFlags | WatchRunE(args, disk, f).Ok? :: !WatchRunE(args, disk, f).value.config.withoutEncryption
  {
  }
}
