// The telemetry manager: which new identifier replaces a found one, the
// per-file backup discipline of the configuration rewrite, the registry pass
// and the discovery totals.  Configuration files are read through the views
// their parsers give (`Config.ConfigFile`); the registry is read and written
// through outcomes given as inputs.
module Telemetry {
  import opened Common
  import opened Utils
  import opened Backup
  import opened Config
  import opened ConfigRewrite

  // ------------------------------------------------------------ identifiers

  /** The three identifiers one run of `modify_telemetry_ids` writes. */
  datatype NewIds = NewIds(device: string, machine: string, session: string)

  predicate DistinctIds(ids: NewIds)
  {
    ids.device != ids.machine && ids.device != ids.session && ids.machine != ids.session
  }

  /**
   * `modify_telemetry_ids` draws a device ID, a machine ID and a UUID; the
   * `r*` are the random nibbles each generator draws.  The three differ
   * whatever is drawn, and none is empty.
   */
  function GenerateIds(r1: seq<nat>, r2: seq<nat>, r3: seq<nat>): (ids: NewIds)
    requires |r1| == 32 && |r2| == 32 && |r3| == 32
    ensures DistinctIds(ids)
    ensures ids.device != [] && ids.machine != [] && ids.session != []
    ensures StartsWith(ids.device, "device_") && StartsWith(ids.machine, "machine_") && IsHex(ids.session)
  {
    var d := GenerateDeviceId(r1);
    var m := GenerateMachineId(r2);
    var s := GenerateUuid(r3);
    assert d[0] == 'd' && m[0] == 'm';
    assert d[6] == '_' && s[6] in HexDigits;
    assert m[7] == '_' && s[7] in HexDigits;
    NewIds(d, m, s)
  }

  /**
   * The ID `_modify_config_file_ids` writes for a record, by the lower-cased
   * pattern that found it: device, then machine, then session, and the
   * device ID for any other pattern.
   */
  function ConfigIdChoice(pattern: string, ids: NewIds): (v: string)
    ensures v == ids.device || v == ids.machine || v == ids.session
  {
    var p := Lower(pattern);
    if Contains(p, "device") then ids.device
    else if Contains(p, "machine") then ids.machine
    else if Contains(p, "session") then ids.session
    else ids.device
  }

  /** What `any(pattern in name for pattern in ['id', 'guid', 'uuid'])` looks for. */
  const IdWords: seq<string> := ["id", "guid", "uuid"]

  /**
   * The ID `_modify_registry_key_values` writes into a value, by the
   * lower-cased value name: the order of the configuration rule, then the
   * device ID for a name holding `id`, `guid` or `uuid`; `None` leaves the
   * value as it is.
   */
  function RegistryIdChoice(name: string, ids: NewIds): (v: Option<string>)
    ensures v.Some? ==> v.value == ids.device || v.value == ids.machine || v.value == ids.session
  {
    var n := Lower(name);
    if Contains(n, "device") then Some(ids.device)
    else if Contains(n, "machine") then Some(ids.machine)
    else if Contains(n, "session") then Some(ids.session)
    else if ContainsAny(n, IdWords) then Some(ids.device)
    else None
  }

  /**
   * With three different IDs, each one is chosen exactly in its own case:
   * the machine ID for a pattern with `machine` but not `device`, the
   * session ID for one with `session` but neither of the others, and the
   * device ID otherwise.
   */
  lemma ConfigChoiceIff(pattern: string, ids: NewIds)
    requires DistinctIds(ids)
    ensures var p := Lower(pattern);
      && (ConfigIdChoice(pattern, ids) == ids.machine <==> !Contains(p, "device") && Contains(p, "machine"))
      && (ConfigIdChoice(pattern, ids) == ids.session <==>
            !Contains(p, "device") && !Contains(p, "machine") && Contains(p, "session"))
      && (ConfigIdChoice(pattern, ids) == ids.device <==>
            Contains(p, "device") || (!Contains(p, "machine") && !Contains(p, "session")))
  {
  }

  /** `guid` and `uuid` both hold `id`, so the last registry test is whether the name holds `id`. */
  lemma IdWordsAreId(n: string)
    ensures ContainsAny(n, IdWords) <==> Contains(n, "id")
  {
    if ContainsAny(n, IdWords) {
      var k :| 0 <= k < |IdWords| && Contains(n, IdWords[k]);
      if k == 1 {
        assert OccursAt("guid", "id", 2);
        ContainsTrans(n, "guid", "id");
      } else if k == 2 {
        assert OccursAt("uuid", "id", 2);
        ContainsTrans(n, "uuid", "id");
      }
    }
    if Contains(n, "id") {
      assert Contains(n, IdWords[0]);
    }
  }

  /**
   * A registry value is left alone exactly when its lower-cased name holds
   * none of `device`, `machine`, `session` and `id`; when it holds one of
   * the first three, it gets the ID a configuration record with that
   * pattern would get.
   */
  lemma RegistryChoiceRule(name: string, ids: NewIds)
    ensures var n := Lower(name);
      RegistryIdChoice(name, ids).None? <==>
        !Contains(n, "device") && !Contains(n, "machine") && !Contains(n, "session") && !Contains(n, "id")
    ensures var n := Lower(name);
      (Contains(n, "device") || Contains(n, "machine") || Contains(n, "session")) ==>
        RegistryIdChoice(name, ids) == Some(ConfigIdChoice(name, ids))
  {
    IdWordsAreId(Lower(name));
  }

  // ------------------------------------------------------------ discovery

  datatype Hive = CurrentUser | LocalMachine

  /** A registry value as `EnumValue` gives it: its name, its data as text and its type. */
  datatype RegistryValue = RegistryValue(name: string, data: string, kind: nat)

  /** A key `_search_registry_for_telemetry` records: where it is and its values in enumeration order. */
  datatype RegistryKey = RegistryKey(hive: Hive, path: string, values: seq<RegistryValue>)

  /** What opening and reading one registry path gives: its values, or `None` when it cannot be read. */
  type KeyRead = Option<seq<RegistryValue>>

  /** The keys `_search_registry_for_telemetry` opens, in order. */
  const RegistryPaths: seq<(Hive, string)> := [
    (CurrentUser, "Software\\AugmentCode"),
    (CurrentUser, "Software\\Augment Code"),
    (CurrentUser, "Software\\augmentcode"),
    (LocalMachine, "SOFTWARE\\AugmentCode"),
    (LocalMachine, "SOFTWARE\\Augment Code"),
    (LocalMachine, "SOFTWARE\\augmentcode")
  ]

  /**
   * `_search_registry_for_telemetry` over the first `n` registry paths:
   * `keyReads[i]` is what reading path `i` gives, `None` when the key is
   * missing or cannot be read.  A key is recorded only when it has a value.
   */
  function RecordedKeys(keyReads: seq<KeyRead>, n: nat): seq<RegistryKey>
    requires |keyReads| == |RegistryPaths| && n <= |keyReads|
  {
    if n == 0 then []
    else
      var rest := RecordedKeys(keyReads, n - 1);
      match keyReads[n - 1]
      case Some(values) =>
        if values != [] then rest + [RegistryKey(RegistryPaths[n - 1].0, RegistryPaths[n - 1].1, values)] else rest
      case None => rest
  }

  /**
   * The recorded keys are exactly the readable registry paths that hold at
   * least one value, each with the values read there.
   */
  lemma {:induction false} RecordedKeysSpec(keyReads: seq<KeyRead>, n: nat)
    requires |keyReads| == |RegistryPaths| && n <= |keyReads|
    ensures |RecordedKeys(keyReads, n)| <= n
    ensures forall k :: k in RecordedKeys(keyReads, n) <==>
      exists i :: 0 <= i < n && keyReads[i] == Some(k.values) && k.values != [] && RegistryPaths[i] == (k.hive, k.path)
  {
    if n > 0 {
      RecordedKeysSpec(keyReads, n - 1);
    }
  }

  /** The views a configuration file's parsers give, for every path (`None` everywhere for a missing file). */
  function ViewOf(configs: map<Path, ConfigFile>, p: Path): (f: ConfigFile)
    ensures f.path == p
  {
    if p in configs then configs[p].(path := p) else ConfigFile(p, None, None, None, None)
  }

  function Views(paths: seq<Path>, configs: map<Path, ConfigFile>): (fs: seq<ConfigFile>)
    ensures |fs| == |paths| && forall i :: 0 <= i < |paths| ==> fs[i] == ViewOf(configs, paths[i])
  {
    seq(|paths|, i requires 0 <= i < |paths| => ViewOf(configs, paths[i]))
  }

  /** `FileSearcher.find_config_files` on one search root. */
  function RootConfigFiles(root: Root): seq<Path>
  {
    FilesWithSuffix(Below(root.path, root.node), ConfigExtensions)
  }

  /** The configuration files found under the first `n` roots, in order. */
  function ConfigPaths(roots: seq<Root>, n: nat): seq<Path>
    requires n <= |roots|
  {
    if n == 0 then [] else ConfigPaths(roots, n - 1) + RootConfigFiles(roots[n - 1])
  }

  /** The ID records found under the first `n` roots, root by root. */
  function FoundIds(roots: seq<Root>, configs: map<Path, ConfigFile>, n: nat): seq<Record>
    requires n <= |roots|
  {
    if n == 0 then []
    else
      var files := Views(RootConfigFiles(roots[n - 1]), configs);
      FoundIds(roots, configs, n - 1) + AllRecords(files, IdQuery, |files|)
  }

  datatype TelemetryDiscovery = TelemetryDiscovery(configFiles: seq<Path>, registryKeys: seq<RegistryKey>,
                                                   foundIds: seq<Record>, totalLocations: nat)

  /** `_search_registry_for_telemetry`, which finds nothing off Windows. */
  function SearchRegistry(isWindows: bool, keyReads: seq<KeyRead>): seq<RegistryKey>
    requires |keyReads| == |RegistryPaths|
  {
    if isWindows then RecordedKeys(keyReads, |keyReads|) else []
  }

  /** `discover_telemetry_data` over the search roots, the files' views and the registry reads. */
  function DiscoverTelemetry(roots: seq<Root>, configs: map<Path, ConfigFile>, isWindows: bool,
                             keyReads: seq<KeyRead>): TelemetryDiscovery
    requires |keyReads| == |RegistryPaths|
  {
    var files := ConfigPaths(roots, |roots|);
    var keys := SearchRegistry(isWindows, keyReads);
    TelemetryDiscovery(files, keys, FoundIds(roots, configs, |roots|), |files| + |keys|)
  }

  /**
   * The discovery counts each configuration file and each recorded key as
   * one location, and records no key off Windows and only keys with values.
   */
  lemma DiscoveryTotals(roots: seq<Root>, configs: map<Path, ConfigFile>, isWindows: bool,
                        keyReads: seq<KeyRead>)
    requires |keyReads| == |RegistryPaths|
    ensures var r := DiscoverTelemetry(roots, configs, isWindows, keyReads);
      && r.totalLocations == |r.configFiles| + |r.registryKeys|
      && (!isWindows ==> r.registryKeys == [] && r.totalLocations == |r.configFiles|)
      && |r.registryKeys| <= |RegistryPaths|
      && (forall k :: k in r.registryKeys ==> k.values != [])
  {
    RecordedKeysSpec(keyReads, |keyReads|);
  }

  // ------------------------------------------------- configuration rewrite

  /** A file's views after a successful rewrite wrote `w`: the view of the format written reads it back. */
  function Apply(f: ConfigFile, w: Written): (g: ConfigFile)
    ensures g.path == f.path
    ensures w.JsonFile? ==> g.json == Some(w.doc)
    ensures w.IniFile? ==> g.ini == Some(w.sections)
    ensures w.XmlFile? ==> g.xml == Some(w.root)
    ensures w.TextFile? ==> g.text == Some(Concat(w.lines))
  {
    match w
    case Unchanged => f
    case JsonFile(doc) => f.(json := Some(doc))
    case IniFile(sections) => f.(ini := Some(sections))
    case XmlFile(root) => f.(xml := Some(root))
    case TextFile(lines) => f.(text := Some(Concat(lines)))
  }

  /**
   * The state of `_modify_config_file_ids`: the result so far, the disk
   * backups are written on, every file's views, and the files backed up so
   * far in the order they were backed up (`modified_files`).
   */
  datatype ConfigRun = ConfigRun(ok: bool, disk: Disk, configs: map<Path, ConfigFile>, backedUp: seq<Path>)

  /**
   * How a file is backed up on a disk, given whether the copy succeeds.  The
   * loop below is stated for any such backup; the manager's is
   * `ConfigBackup`.
   */
  type Backer = (Disk, Path, bool) -> Outcome

  /**
   * `backup_file(file, backup, ...)` under `config_files`, at the file's
   * whole path (the source writes `config_files/<name>`, which collides for
   * two files of one name; see `Backup.NamedDestinationsCollide`).
   */
  function ConfigBackup(dir: Path): Backer
  {
    (d: Disk, file: Path, copyOk: bool) => BackupFileOutcome(d, file, dir, KeepingRelative("config_files", file), copyOk)
  }

  /**
   * How one record is rewritten, given every file's views and whether the
   * write succeeds.  The loop below is stated for any such rewrite; the
   * manager's is `IdRewriter`.
   */
  type Editor = (map<Path, ConfigFile>, Record, bool) -> Rewrite

  /** `modify_telemetry_id` on the record's file with the ID the record's pattern chooses. */
  function IdRewriter(ids: NewIds): Editor
  {
    (configs: map<Path, ConfigFile>, r: Record, writeOk: bool) =>
      ModifyTelemetryId(r, ViewOf(configs, r.file), ConfigIdChoice(r.pattern, ids), writeOk)
  }

  /** The record's rewrite on state `s`, its file already backed up. */
  function Rewritten(s: ConfigRun, r: Record, edit: Editor, writeOk: bool): ConfigRun
  {
    var w := edit(s.configs, r, writeOk);
    s.(ok := s.ok && w.ok,
       configs := if w.ok then s.configs[r.file := Apply(ViewOf(s.configs, r.file), w.written)] else s.configs)
  }

  /** Whether one pass of the loop succeeds: the file is backed up (now or before) and the rewrite succeeds. */
  predicate StepSucceeds(s: ConfigRun, backup: Backer, r: Record, edit: Editor, copyOk: bool, writeOk: bool)
  {
    (r.file in s.backedUp || backup(s.disk, r.file, copyOk).ok) && edit(s.configs, r, writeOk).ok
  }

  /**
   * One pass of the loop in `_modify_config_file_ids`: a file not yet
   * backed up is backed up first; if that fails the record is skipped and
   * the file stays unmarked, otherwise it is marked and its ID rewritten.
   * `copyOk` is whether the backup's copy succeeds, `writeOk` whether the
   * rewrite's write does.
   */
  function ConfigStep(s: ConfigRun, backup: Backer, r: Record, edit: Editor, copyOk: bool, writeOk: bool): (t: ConfigRun)
    ensures t.ok == (s.ok && StepSucceeds(s, backup, r, edit, copyOk, writeOk))
  {
    if r.file in s.backedUp then Rewritten(s, r, edit, writeOk)
    else
      var b := backup(s.disk, r.file, copyOk);
      if !b.ok then s.(ok := false, disk := b.disk)
      else Rewritten(s.(disk := b.disk, backedUp := s.backedUp + [r.file]), r, edit, writeOk)
  }

  /**
   * A marked file is not backed up again; an unmarked one is, and a failed
   * backup leaves the views and the marks alone while a successful one
   * marks the file.  Only the record's own file can change, and only once it
   * is marked.
   */
  lemma ConfigStepSpec(s: ConfigRun, backup: Backer, r: Record, edit: Editor, copyOk: bool, writeOk: bool)
    ensures var t := ConfigStep(s, backup, r, edit, copyOk, writeOk);
      var b := backup(s.disk, r.file, copyOk);
      && (r.file in s.backedUp ==> t.disk == s.disk && t.backedUp == s.backedUp)
      && (r.file !in s.backedUp ==> t.disk == b.disk)
      && (r.file !in s.backedUp && !b.ok ==> t.configs == s.configs && t.backedUp == s.backedUp)
      && (r.file !in s.backedUp && b.ok ==> t.backedUp == s.backedUp + [r.file])
      && (forall p :: p != r.file ==> ViewOf(t.configs, p) == ViewOf(s.configs, p))
      && (ViewOf(t.configs, r.file) != ViewOf(s.configs, r.file) ==> r.file in t.backedUp)
  {
  }

  /** The loop over the first `n` found records from state `s0`. */
  function ConfigRunOf(s0: ConfigRun, backup: Backer, records: seq<Record>, edit: Editor,
                       copyOk: seq<bool>, writeOk: seq<bool>, n: nat): ConfigRun
    requires |copyOk| == |records| && |writeOk| == |records| && n <= |records|
  {
    if n == 0 then s0
    else ConfigStep(ConfigRunOf(s0, backup, records, edit, copyOk, writeOk, n - 1), backup, records[n - 1], edit,
                    copyOk[n - 1], writeOk[n - 1])
  }

  /**
   * Each file is backed up at most once per run, only files of found
   * records are backed up, and a file whose views changed was backed up.
   */
  lemma {:induction false} ConfigBackupsOnce(s0: ConfigRun, backup: Backer, records: seq<Record>, edit: Editor,
                                            copyOk: seq<bool>, writeOk: seq<bool>, n: nat)
    requires |copyOk| == |records| && |writeOk| == |records| && n <= |records|
    requires s0.backedUp == []
    ensures var t := ConfigRunOf(s0, backup, records, edit, copyOk, writeOk, n);
      && Distinct(t.backedUp)
      && (forall p :: p in t.backedUp ==> exists i :: 0 <= i < n && records[i].file == p)
      && (forall p :: ViewOf(t.configs, p) != ViewOf(s0.configs, p) ==> p in t.backedUp)
  {
    if n > 0 {
      ConfigBackupsOnce(s0, backup, records, edit, copyOk, writeOk, n - 1);
      var s := ConfigRunOf(s0, backup, records, edit, copyOk, writeOk, n - 1);
      var t := ConfigRunOf(s0, backup, records, edit, copyOk, writeOk, n);
      var r := records[n - 1];
      ConfigStepSpec(s, backup, r, edit, copyOk[n - 1], writeOk[n - 1]);
      if r.file !in s.backedUp && backup(s.disk, r.file, copyOk[n - 1]).ok {
        assert t.backedUp == s.backedUp + [r.file];
        DistinctSnoc(s.backedUp, r.file);
      }
      forall p | ViewOf(t.configs, p) != ViewOf(s0.configs, p) ensures p in t.backedUp {
        if ViewOf(t.configs, p) == ViewOf(s.configs, p) {
          assert p in s.backedUp;
        }
      }
    }
  }

  /** A file is not marked between two of its records when no record of it lies between them. */
  lemma {:induction false} UnmarkedUntil(s0: ConfigRun, backup: Backer, records: seq<Record>, edit: Editor,
                                        copyOk: seq<bool>, writeOk: seq<bool>, i: nat, j: nat, p: Path)
    requires |copyOk| == |records| && |writeOk| == |records| && i <= j <= |records|
    requires p !in ConfigRunOf(s0, backup, records, edit, copyOk, writeOk, i).backedUp
    requires forall k :: i <= k < j ==> records[k].file != p
    ensures p !in ConfigRunOf(s0, backup, records, edit, copyOk, writeOk, j).backedUp
  {
    if i < j {
      UnmarkedUntil(s0, backup, records, edit, copyOk, writeOk, i, j - 1, p);
      var s := ConfigRunOf(s0, backup, records, edit, copyOk, writeOk, j - 1);
      ConfigStepSpec(s, backup, records[j - 1], edit, copyOk[j - 1], writeOk[j - 1]);
    }
  }

  /**
   * When record `i`'s file has not been backed up and its backup fails, the
   * record is skipped, the result becomes false for good, and the next
   * record `j` of the same file tries the backup again.
   */
  lemma BackupRetried(s0: ConfigRun, backup: Backer, records: seq<Record>, edit: Editor,
                      copyOk: seq<bool>, writeOk: seq<bool>, i: nat, j: nat)
    requires |copyOk| == |records| && |writeOk| == |records| && i < j <= |records|
    requires var s := ConfigRunOf(s0, backup, records, edit, copyOk, writeOk, i);
      records[i].file !in s.backedUp && !backup(s.disk, records[i].file, copyOk[i]).ok
    requires forall k :: i < k < j ==> records[k].file != records[i].file
    ensures var s := ConfigRunOf(s0, backup, records, edit, copyOk, writeOk, i);
      ConfigRunOf(s0, backup, records, edit, copyOk, writeOk, i + 1).configs == s.configs
    ensures records[i].file !in ConfigRunOf(s0, backup, records, edit, copyOk, writeOk, j).backedUp
    ensures !ConfigRunOf(s0, backup, records, edit, copyOk, writeOk, j).ok
  {
    var s := ConfigRunOf(s0, backup, records, edit, copyOk, writeOk, i);
    ConfigStepSpec(s, backup, records[i], edit, copyOk[i], writeOk[i]);
    UnmarkedUntil(s0, backup, records, edit, copyOk, writeOk, i + 1, j, records[i].file);
    OkStaysFalse(s0, backup, records, edit, copyOk, writeOk, i + 1, j);
  }

  /** Once false, the result stays false. */
  lemma {:induction false} OkStaysFalse(s0: ConfigRun, backup: Backer, records: seq<Record>, edit: Editor,
                                       copyOk: seq<bool>, writeOk: seq<bool>, i: nat, j: nat)
    requires |copyOk| == |records| && |writeOk| == |records| && i <= j <= |records|
    requires !ConfigRunOf(s0, backup, records, edit, copyOk, writeOk, i).ok
    ensures !ConfigRunOf(s0, backup, records, edit, copyOk, writeOk, j).ok
  {
    if i < j {
      OkStaysFalse(s0, backup, records, edit, copyOk, writeOk, i, j - 1);
    }
  }

  /** Whether each of the first `n` passes succeeds. */
  function ConfigPasses(s0: ConfigRun, backup: Backer, records: seq<Record>, edit: Editor,
                        copyOk: seq<bool>, writeOk: seq<bool>, n: nat): (ps: seq<bool>)
    requires |copyOk| == |records| && |writeOk| == |records| && n <= |records|
    ensures |ps| == n
  {
    if n == 0 then []
    else
      var s := ConfigRunOf(s0, backup, records, edit, copyOk, writeOk, n - 1);
      ConfigPasses(s0, backup, records, edit, copyOk, writeOk, n - 1)
        + [StepSucceeds(s, backup, records[n - 1], edit, copyOk[n - 1], writeOk[n - 1])]
  }

  /** Pass `i` succeeds when its file is or gets backed up and its rewrite succeeds. */
  lemma {:induction false} ConfigPassesAt(s0: ConfigRun, backup: Backer, records: seq<Record>, edit: Editor,
                                         copyOk: seq<bool>, writeOk: seq<bool>, n: nat, i: nat)
    requires |copyOk| == |records| && |writeOk| == |records| && i < n <= |records|
    ensures ConfigPasses(s0, backup, records, edit, copyOk, writeOk, n)[i]
         == StepSucceeds(ConfigRunOf(s0, backup, records, edit, copyOk, writeOk, i), backup, records[i], edit, copyOk[i], writeOk[i])
  {
    if i < n - 1 {
      ConfigPassesAt(s0, backup, records, edit, copyOk, writeOk, n - 1, i);
    }
  }

  /** The run succeeds exactly when it starts successful and every pass succeeds. */
  lemma {:induction false} ConfigRunOk(s0: ConfigRun, backup: Backer, records: seq<Record>, edit: Editor,
                                      copyOk: seq<bool>, writeOk: seq<bool>, n: nat)
    requires |copyOk| == |records| && |writeOk| == |records| && n <= |records|
    ensures var ps := ConfigPasses(s0, backup, records, edit, copyOk, writeOk, n);
      ConfigRunOf(s0, backup, records, edit, copyOk, writeOk, n).ok <==> s0.ok && AllTrue(ps)
  {
    if n > 0 {
      ConfigRunOk(s0, backup, records, edit, copyOk, writeOk, n - 1);
      var ps := ConfigPasses(s0, backup, records, edit, copyOk, writeOk, n - 1);
      var s := ConfigRunOf(s0, backup, records, edit, copyOk, writeOk, n - 1);
      var last := StepSucceeds(s, backup, records[n - 1], edit, copyOk[n - 1], writeOk[n - 1]);
      ConfigRunLast(s0, backup, records, edit, copyOk, writeOk, n);
      AllTrueSnoc(ps, last);
    }
  }

  /** The last pass of a run of `n` passes. */
  lemma ConfigRunLast(s0: ConfigRun, backup: Backer, records: seq<Record>, edit: Editor,
                      copyOk: seq<bool>, writeOk: seq<bool>, n: nat)
    requires |copyOk| == |records| && |writeOk| == |records| && 0 < n <= |records|
    ensures var s := ConfigRunOf(s0, backup, records, edit, copyOk, writeOk, n - 1);
      var last := StepSucceeds(s, backup, records[n - 1], edit, copyOk[n - 1], writeOk[n - 1]);
      && ConfigPasses(s0, backup, records, edit, copyOk, writeOk, n)
         == ConfigPasses(s0, backup, records, edit, copyOk, writeOk, n - 1) + [last]
      && ConfigRunOf(s0, backup, records, edit, copyOk, writeOk, n).ok == (s.ok && last)
  {
  }

  predicate AllTrue(bs: seq<bool>)
  {
    forall i :: 0 <= i < |bs| ==> bs[i]
  }

  lemma AllTrueSnoc(bs: seq<bool>, b: bool)
    ensures AllTrue(bs + [b]) <==> AllTrue(bs) && b
  {
    assert (bs + [b])[|bs|] == b;
    assert forall i :: 0 <= i < |bs| ==> (bs + [b])[i] == bs[i];
  }

  /**
   * A failure does not stop the loop: a run that starts failed backs up and
   * rewrites exactly what the same run started successful does.
   */
  lemma {:induction false} FailureDoesNotStop(s0: ConfigRun, backup: Backer, records: seq<Record>, edit: Editor,
                                             copyOk: seq<bool>, writeOk: seq<bool>, n: nat)
    requires |copyOk| == |records| && |writeOk| == |records| && n <= |records|
    ensures ConfigRunOf(s0.(ok := false), backup, records, edit, copyOk, writeOk, n)
         == ConfigRunOf(s0.(ok := true), backup, records, edit, copyOk, writeOk, n).(ok := false)
  {
    if n > 0 {
      FailureDoesNotStop(s0, backup, records, edit, copyOk, writeOk, n - 1);
    }
  }

  // ------------------------------------------------------- registry rewrite

  /**
   * The `SetValueEx` calls `_modify_registry_key_values` makes for the first
   * `n` values of a key, in order: each value whose name chooses a non-empty
   * ID gets that ID as its data and keeps its type.
   */
  function RegistryWrites(values: seq<RegistryValue>, ids: NewIds, n: nat): seq<RegistryValue>
    requires n <= |values|
  {
    if n == 0 then []
    else
      var rest := RegistryWrites(values, ids, n - 1);
      var v := values[n - 1];
      match RegistryIdChoice(v.name, ids)
      case Some(x) => if x != [] then rest + [RegistryValue(v.name, x, v.kind)] else rest
      case None => rest
  }

  /** A write is made exactly for a value whose name chooses a non-empty ID, and writes that ID. */
  lemma {:induction false} RegistryWritesSpec(values: seq<RegistryValue>, ids: NewIds, n: nat)
    requires n <= |values|
    ensures |RegistryWrites(values, ids, n)| <= n
    ensures forall w :: w in RegistryWrites(values, ids, n) <==>
      exists i :: 0 <= i < n && values[i].name == w.name && values[i].kind == w.kind
        && RegistryIdChoice(values[i].name, ids) == Some(w.data) && w.data != []
  {
    if n > 0 {
      RegistryWritesSpec(values, ids, n - 1);
      var rest := RegistryWrites(values, ids, n - 1);
      var v := values[n - 1];
      var c := RegistryIdChoice(v.name, ids);
      if c.Some? && c.value != [] {
        assert RegistryWrites(values, ids, n) == rest + [RegistryValue(v.name, c.value, v.kind)];
      } else {
        assert RegistryWrites(values, ids, n) == rest;
      }
    }
  }

  /** The registry edit one key receives: the writes made to its values. */
  datatype RegistryEdit = RegistryEdit(hive: Hive, path: string, writes: seq<RegistryValue>)

  function EditOf(key: RegistryKey, ids: NewIds): RegistryEdit
  {
    RegistryEdit(key.hive, key.path, RegistryWrites(key.values, ids, |key.values|))
  }

  /** The state of `_modify_registry_ids`: the result so far, the disk backups go to, and the edits made. */
  datatype RegistryRun = RegistryRun(ok: bool, disk: Disk, edits: seq<RegistryEdit>)

  /**
   * How a key's data is backed up on a disk, given the key's path, the JSON
   * text of its data and whether writing it succeeds.  The loop below is
   * stated for any backup that keeps its files; the manager's is
   * `RegistryBackup`.
   */
  type RegistryBacker = (Disk, string, string, bool) -> Outcome

  /** `backup_registry_key(dir, key_path, key_data)` (run only on Windows). */
  function RegistryBackup(dir: Path): RegistryBacker
  {
    (d: Disk, keyPath: string, dump: string, dumpOk: bool) => BackupRegistryOutcome(d, dir, keyPath, dump, true, dumpOk)
  }

  /** A backup that succeeds exactly when its write does, keeps every file, and on success holds the key's file. */
  ghost predicate KeepsRegistryBackups(backup: RegistryBacker, dir: Path)
  {
    forall d: Disk, p: string, t: string, w: bool ::
      && backup(d, p, t, w).ok == w
      && d.files.Keys <= backup(d, p, t, w).disk.files.Keys
      && (w ==> RegistryFile(dir, p) in backup(d, p, t, w).disk.files)
  }

  /** A backup that succeeds exactly when its write does. */
  ghost predicate OkWhenWritten(backup: RegistryBacker)
  {
    forall d: Disk, p: string, t: string, w: bool :: backup(d, p, t, w).ok == w
  }

  lemma RegistryBackupKeeps(dir: Path)
    ensures KeepsRegistryBackups(RegistryBackup(dir), dir)
    ensures OkWhenWritten(RegistryBackup(dir))
  {
  }

  /**
   * One pass of the loop in `_modify_registry_ids`: back the key's data up
   * (`dump` is its JSON text, `dumpOk` whether writing it succeeds); on
   * failure skip the key, otherwise set its values; `setOk` says whether
   * every write succeeds.  A failing write is recorded as no edit of the
   * key at all (the writes before it are not modelled).
   */
  function RegistryStep(s: RegistryRun, backup: RegistryBacker, key: RegistryKey, ids: NewIds,
                        dump: string, dumpOk: bool, setOk: bool): (t: RegistryRun)
    ensures t.edits == s.edits + (if backup(s.disk, key.path, dump, dumpOk).ok && setOk then [EditOf(key, ids)] else [])
  {
    var b := backup(s.disk, key.path, dump, dumpOk);
    if !b.ok then RegistryRun(false, b.disk, s.edits)
    else if !setOk then RegistryRun(false, b.disk, s.edits)
    else RegistryRun(s.ok, b.disk, s.edits + [EditOf(key, ids)])
  }

  /** The loop over the first `n` registry keys. */
  function RegistryRunOf(s0: RegistryRun, backup: RegistryBacker, keys: seq<RegistryKey>, ids: NewIds,
                         dumps: seq<string>, dumpOk: seq<bool>, setOk: seq<bool>, n: nat): RegistryRun
    requires |dumps| == |keys| && |dumpOk| == |keys| && |setOk| == |keys| && n <= |keys|
  {
    if n == 0 then s0
    else RegistryStep(RegistryRunOf(s0, backup, keys, ids, dumps, dumpOk, setOk, n - 1), backup, keys[n - 1], ids,
                      dumps[n - 1], dumpOk[n - 1], setOk[n - 1])
  }

  /** The registry pass succeeds exactly when every key is backed up and set. */
  lemma {:induction false} RegistryRunOk(s0: RegistryRun, backup: RegistryBacker, keys: seq<RegistryKey>, ids: NewIds,
                                        dumps: seq<string>, dumpOk: seq<bool>, setOk: seq<bool>, n: nat)
    requires |dumps| == |keys| && |dumpOk| == |keys| && |setOk| == |keys| && n <= |keys|
    requires OkWhenWritten(backup)
    ensures RegistryRunOf(s0, backup, keys, ids, dumps, dumpOk, setOk, n).ok <==>
      s0.ok && forall i :: 0 <= i < n ==> dumpOk[i] && setOk[i]
  {
    if n > 0 {
      RegistryRunOk(s0, backup, keys, ids, dumps, dumpOk, setOk, n - 1);
      var s := RegistryRunOf(s0, backup, keys, ids, dumps, dumpOk, setOk, n - 1);
      var t := RegistryRunOf(s0, backup, keys, ids, dumps, dumpOk, setOk, n);
      assert t == RegistryStep(s, backup, keys[n - 1], ids, dumps[n - 1], dumpOk[n - 1], setOk[n - 1]);
      assert backup(s.disk, keys[n - 1].path, dumps[n - 1], dumpOk[n - 1]).ok == dumpOk[n - 1];
      assert t.ok == (s.ok && dumpOk[n - 1] && setOk[n - 1]);
    }
  }

  /**
   * The registry pass edits exactly the keys that were backed up and set,
   * each with the writes its values choose, and every key it edits has its
   * backup file.
   */
  lemma {:induction false} RegistryRunEdits(s0: RegistryRun, dir: Path, backup: RegistryBacker, keys: seq<RegistryKey>, ids: NewIds,
                                           dumps: seq<string>, dumpOk: seq<bool>, setOk: seq<bool>, n: nat)
    requires |dumps| == |keys| && |dumpOk| == |keys| && |setOk| == |keys| && n <= |keys|
    requires s0.edits == []
    requires KeepsRegistryBackups(backup, dir)
    ensures var t := RegistryRunOf(s0, backup, keys, ids, dumps, dumpOk, setOk, n);
      && (forall e :: e in t.edits <==> exists i :: 0 <= i < n && dumpOk[i] && setOk[i] && e == EditOf(keys[i], ids))
      && (forall e :: e in t.edits ==> RegistryFile(dir, e.path) in t.disk.files)
  {
    if n > 0 {
      RegistryRunEdits(s0, dir, backup, keys, ids, dumps, dumpOk, setOk, n - 1);
      var s := RegistryRunOf(s0, backup, keys, ids, dumps, dumpOk, setOk, n - 1);
      var t := RegistryRunOf(s0, backup, keys, ids, dumps, dumpOk, setOk, n);
      assert t == RegistryStep(s, backup, keys[n - 1], ids, dumps[n - 1], dumpOk[n - 1], setOk[n - 1]);
      var b := backup(s.disk, keys[n - 1].path, dumps[n - 1], dumpOk[n - 1]);
      assert b.ok == dumpOk[n - 1] && s.disk.files.Keys <= b.disk.files.Keys;
      assert t.disk == b.disk;
      if dumpOk[n - 1] && setOk[n - 1] {
        assert t.edits == s.edits + [EditOf(keys[n - 1], ids)];
        assert RegistryFile(dir, EditOf(keys[n - 1], ids).path) in t.disk.files;
      } else {
        assert t.edits == s.edits;
      }
    }
  }

  /** `_modify_registry_ids`, which does nothing and succeeds off Windows. */
  function RegistryIdsOutcome(d: Disk, dir: Path, keys: seq<RegistryKey>, ids: NewIds, isWindows: bool,
                             dumps: seq<string>, dumpOk: seq<bool>, setOk: seq<bool>): RegistryRun
    requires |dumps| == |keys| && |dumpOk| == |keys| && |setOk| == |keys|
  {
    if !isWindows then RegistryRun(true, d, [])
    else RegistryRunOf(RegistryRun(true, d, []), RegistryBackup(dir), keys, ids, dumps, dumpOk, setOk, |keys|)
  }

  // ------------------------------------------------------- the whole rewrite

  /**
   * `modification_options`: the two switches (`None` when absent, which
   * `.get(..., True)` reads as on) and the records and keys to rewrite.
   */
  datatype ModificationOptions = ModificationOptions(modifyConfigFiles: Option<bool>, modifyRegistry: Option<bool>,
                                                     foundIds: seq<Record>, registryKeys: seq<RegistryKey>)

  function Enabled(switch: Option<bool>): bool
  {
    switch.None? || switch.value
  }

  /**
   * What the environment does during one run: per found record, whether
   * its file's backup copy and its rewrite's write succeed; per registry
   * key, the JSON text of its data, whether writing that backup succeeds,
   * and whether setting its values does.
   */
  datatype Environment = Environment(copyOk: seq<bool>, writeOk: seq<bool>,
                                     dumps: seq<string>, dumpOk: seq<bool>, setOk: seq<bool>)

  predicate Fits(env: Environment, o: ModificationOptions)
  {
    |env.copyOk| == |o.foundIds| && |env.writeOk| == |o.foundIds|
    && |env.dumps| == |o.registryKeys| && |env.dumpOk| == |o.registryKeys| && |env.setOk| == |o.registryKeys|
  }

  /** The configuration step of `modify_telemetry_ids`, from a disk and the files' views. */
  function ConfigPart(d: Disk, configs: map<Path, ConfigFile>, dir: Path, o: ModificationOptions, ids: NewIds,
                      env: Environment): ConfigRun
    requires Fits(env, o)
  {
    var s0 := ConfigRun(true, d, configs, []);
    if Enabled(o.modifyConfigFiles)
    then ConfigRunOf(s0, ConfigBackup(dir), o.foundIds, IdRewriter(ids), env.copyOk, env.writeOk, |o.foundIds|)
    else s0
  }

  /** The registry step of `modify_telemetry_ids`, run only on Windows. */
  function RegistryPart(d: Disk, dir: Path, o: ModificationOptions, ids: NewIds, isWindows: bool,
                        env: Environment): RegistryRun
    requires Fits(env, o)
  {
    if isWindows && Enabled(o.modifyRegistry)
    then RegistryIdsOutcome(d, dir, o.registryKeys, ids, isWindows, env.dumps, env.dumpOk, env.setOk)
    else RegistryRun(true, d, [])
  }

  /** What one run of `modify_telemetry_ids` leaves: its result, the disk, the files' views and the registry edits. */
  datatype TelemetryOutcome = TelemetryOutcome(ok: bool, disk: Disk, configs: map<Path, ConfigFile>,
                                               edits: seq<RegistryEdit>)

  /** `modify_telemetry_ids`: the configuration step, then the registry step on the disk it left. */
  function ModifyTelemetryIdsOutcome(d: Disk, configs: map<Path, ConfigFile>, dir: Path, o: ModificationOptions,
                                     ids: NewIds, isWindows: bool, env: Environment): TelemetryOutcome
    requires Fits(env, o)
  {
    var c := ConfigPart(d, configs, dir, o, ids, env);
    var r := RegistryPart(c.disk, dir, o, ids, isWindows, env);
    TelemetryOutcome(c.ok && r.ok, r.disk, c.configs, r.edits)
  }

  /**
   * The run succeeds exactly when each enabled step does, where the
   * registry step counts only on Windows and succeeds exactly when every
   * key is backed up and set.  Off Windows the registry is not touched, and
   * with configuration files switched off no file is.
   */
  lemma ModifyTelemetryIdsSpec(d: Disk, configs: map<Path, ConfigFile>, dir: Path, o: ModificationOptions,
                               ids: NewIds, isWindows: bool, env: Environment)
    requires Fits(env, o)
    ensures var t := ModifyTelemetryIdsOutcome(d, configs, dir, o, ids, isWindows, env);
      var c := ConfigPart(d, configs, dir, o, ids, env);
      && (t.ok <==>
            (Enabled(o.modifyConfigFiles) ==> c.ok)
            && (isWindows && Enabled(o.modifyRegistry) ==>
                  forall i :: 0 <= i < |o.registryKeys| ==> env.dumpOk[i] && env.setOk[i]))
      && (!isWindows ==> t.edits == [] && t.disk == c.disk)
      && (!Enabled(o.modifyConfigFiles) ==> t.configs == configs && c.disk == d && c.ok)
  {
    var c := ConfigPart(d, configs, dir, o, ids, env);
    RegistryBackupKeeps(dir);
    RegistryRunOk(RegistryRun(true, c.disk, []), RegistryBackup(dir), o.registryKeys, ids, env.dumps, env.dumpOk, env.setOk,
                    |o.registryKeys|);
  }

  // ------------------------------------------------------------------ report

  /** The quote Python's `repr` puts around a string: `"` when it holds `'` but no `"`, else `'`. */
  function ReprQuote(s: string): (q: char)
    ensures q == '"' <==> ('\'' in s && '"' !in s)
    ensures q == '\'' <==> !('\'' in s && '"' !in s)
  {
    if '\'' in s && '"' !in s then '"' else '\''
  }

  /** A lower-case hexadecimal digit. */
  function HexChar(n: nat): (c: char)
    requires n < 16
    ensures c in "0123456789abcdef"
  {
    if n < 10 then ('0' as int + n) as char else ('a' as int + n - 10) as char
  }

  /**
   * How `repr` writes one character of a string quoted with `q`: the quote
   * and the backslash escaped, tab, newline and carriage return by name, the
   * other ASCII control characters as `\xhh`, anything else as it is.
   */
  function ReprChar(c: char, q: char): (t: string)
    ensures 1 <= |t| <= 4
    ensures |t| == 1 <==> c != q && c != '\\' && ' ' <= c && c as int != 127
    ensures |t| == 1 ==> t == [c]
  {
    if c == q || c == '\\' then ['\\', c]
    else if c == '\t' then "\\t"
    else if c == '\n' then "\\n"
    else if c == '\r' then "\\r"
    else if c < ' ' || c as int == 127 then "\\x" + [HexChar(c as int / 16), HexChar(c as int % 16)]
    else [c]
  }

  function ReprBody(s: string, q: char): (t: string)
    ensures |t| >= |s|
  {
    if s == [] then [] else ReprChar(s[0], q) + ReprBody(s[1..], q)
  }

  /** `repr` of a string. */
  function StrRepr(s: string): (t: string)
    ensures |t| >= |s| + 2 && t[0] == t[|t| - 1] == ReprQuote(s)
  {
    var q := ReprQuote(s);
    [q] + ReprBody(s, q) + [q]
  }

  /** `repr` of a parsed value: Python's literal syntax, items separated by `, `. */
  function Repr(v: Json): (t: string)
    ensures t != []
    decreases v, 1
  {
    match v
    case JNull => "None"
    case JBool(b) => if b then "True" else "False"
    case JNum(n) => IntToString(n)
    case JStr(s) => StrRepr(s)
    case JArr(items) => "[" + ReprItems(items) + "]"
    case JObj(fields) => "{" + ReprFields(fields) + "}"
  }

  function ReprItems(items: seq<Json>): string
    decreases items, 0
  {
    if items == [] then ""
    else Repr(items[0]) + (if |items| == 1 then "" else ", " + ReprItems(items[1..]))
  }

  function ReprFields(fields: seq<Field>): string
    decreases fields, 0
  {
    if fields == [] then ""
    else StrRepr(fields[0].key) + ": " + Repr(fields[0].value)
         + (if |fields| == 1 then "" else ", " + ReprFields(fields[1..]))
  }

  /** Python's `str` of a parsed value: a string as it is, anything else as its `repr`. */
  function ValueText(v: Json): (t: string)
    ensures v.JStr? ==> t == v.s
    ensures !v.JStr? ==> t == Repr(v)
  {
    if v.JStr? then v.s else Repr(v)
  }

  /** A string with no quote, backslash or control character is shown between single quotes. */
  lemma {:induction false} PlainStrRepr(s: string)
    requires Plain(s)
    ensures StrRepr(s) == "'" + s + "'"
  {
    PlainReprBody(s, '\'');
  }

  lemma {:induction false} PlainReprBody(s: string, q: char)
    requires forall i :: 0 <= i < |s| ==> s[i] != q && s[i] != '\\' && ' ' <= s[i] && s[i] as int != 127
    ensures ReprBody(s, q) == s
  {
    if s != [] {
      PlainReprBody(s[1..], q);
    }
  }

  /** A string with no quote, backslash or control character. */
  predicate Plain(s: string)
  {
    forall i :: 0 <= i < |s| ==> s[i] != '\'' && s[i] != '\\' && ' ' <= s[i] && s[i] as int != 127
  }

  /** A list of two plain strings prints as `['a', 'b']`, not as the strings themselves. */
  lemma ListValueText(a: string, b: string)
    requires Plain(a) && Plain(b)
    ensures ValueText(JArr([JStr(a), JStr(b)])) == "['" + a + "', '" + b + "']"
  {
    PlainStrRepr(a);
    PlainStrRepr(b);
    var xs := [JStr(a), JStr(b)];
    assert xs[1..] == [JStr(b)];
    var ta, tb := "'" + a + "'", "'" + b + "'";
    assert ReprItems(xs[1..]) == tb;
    assert ReprItems(xs) == ta + ", " + tb;
    assert Repr(JArr(xs)) == "[" + (ta + ", " + tb) + "]";
    assert "[" + (ta + ", " + tb) + "]" == "['" + a + "', '" + b + "']";
  }

  /** An object with one plain key and a number prints as `{'k': 1}`. */
  lemma ObjectValueText(k: string, n: nat)
    requires Plain(k)
    ensures ValueText(JObj([Field(k, JNum(n))])) == "{'" + k + "': " + NatToString(n) + "}"
  {
    PlainStrRepr(k);
    var fs := [Field(k, JNum(n))];
    var tk := "'" + k + "'";
    assert IntToString(n) == NatToString(n);
    assert ReprFields(fs) == tk + ": " + NatToString(n);
    assert Repr(JObj(fs)) == "{" + (tk + ": " + NatToString(n)) + "}";
    assert "{" + (tk + ": " + NatToString(n)) + "}" == "{'" + k + "': " + NatToString(n) + "}";
  }

  const ReportTitle: string := "=== TELEMETRY DISCOVERY REPORT ==="
  const IdsLabel: string := "  Total IDs found: "
  const FilesLabel: string := "  Configuration files: "
  const KeysLabel: string := "  Registry keys: "

  /**
   * What `id_info.get('key', 'N/A')` gives: JSON, INI and text records carry
   * the key; XML records carry a tag or attribute instead, so `N/A`.
   */
  function ShownKey(r: Record): (k: string)
    ensures r.format == "xml" ==> k == "N/A"
    ensures r.format != "xml" ==> k == r.key
  {
    if r.format == "xml" then "N/A" else r.key
  }

  /** The five lines `generate_telemetry_report` writes for one found ID. */
  function IdLines(r: Record): (ls: seq<string>)
  {
    ["  File: " + PathText(r.file), "    Key: " + ShownKey(r), "    Value: " + ValueText(r.value),
     "    Pattern: " + r.pattern, ""]
  }

  /** The lines for the first `n` found IDs. */
  function FoundLines(rs: seq<Record>, n: nat): (ls: seq<string>)
    requires n <= |rs|
    ensures |ls| == 5 * n
  {
    if n == 0 then [] else FoundLines(rs, n - 1) + IdLines(rs[n - 1])
  }

  /** The lines for the first `n` values of a registry key. */
  function ValueLines(values: seq<RegistryValue>, n: nat): (ls: seq<string>)
    requires n <= |values|
    ensures |ls| == n
  {
    if n == 0 then [] else ValueLines(values, n - 1) + ["    " + values[n - 1].name + ": " + values[n - 1].data]
  }

  /** The lines for one registry key: its path, one line per value, and a blank line. */
  function KeyLines(k: RegistryKey): (ls: seq<string>)
    ensures |ls| == |k.values| + 2
  {
    ["  Key: " + k.path] + ValueLines(k.values, |k.values|) + [""]
  }

  /** The lines for the first `n` registry keys. */
  function RegistryLines(keys: seq<RegistryKey>, n: nat): seq<string>
    requires n <= |keys|
  {
    if n == 0 then [] else RegistryLines(keys, n - 1) + KeyLines(keys[n - 1])
  }

  /** How many lines the first `n` registry keys take. */
  function KeyLineCount(keys: seq<RegistryKey>, n: nat): nat
    requires n <= |keys|
  {
    if n == 0 then 0 else KeyLineCount(keys, n - 1) + |keys[n - 1].values| + 2
  }

  /** The summary block: title, blank line, the three counts and a blank line. */
  function SummaryLines(r: TelemetryDiscovery): seq<string>
  {
    [ReportTitle, "", "Summary:", IdsLabel + NatToString(|r.foundIds|), FilesLabel + NatToString(|r.configFiles|),
     KeysLabel + NatToString(|r.registryKeys|), ""]
  }

  /** `generate_telemetry_report`, line by line: the IDs block and the registry block appear only when non-empty. */
  function ReportLines(r: TelemetryDiscovery): seq<string>
  {
    SummaryLines(r)
    + (if r.foundIds != [] then ["Found Telemetry IDs:"] + FoundLines(r.foundIds, |r.foundIds|) else [])
    + (if r.registryKeys != [] then ["Registry Keys:"] + RegistryLines(r.registryKeys, |r.registryKeys|) else [])
  }

  function TelemetryReport(r: TelemetryDiscovery): string
  {
    Join(ReportLines(r), '\n')
  }

  /** The registry block is as long as its keys' values plus two lines per key. */
  lemma {:induction false} RegistryLinesLength(keys: seq<RegistryKey>, n: nat)
    requires n <= |keys|
    ensures |RegistryLines(keys, n)| == KeyLineCount(keys, n)
  {
    if n > 0 {
      RegistryLinesLength(keys, n - 1);
    }
  }

  /**
   * The IDs block lists every found ID in order, five lines each: its file,
   * its key (`N/A` for an XML record), the `str` of its value, its pattern
   * and a blank line.
   */
  lemma {:induction false} FoundLinesBlocks(rs: seq<Record>, n: nat, i: nat)
    requires i < n <= |rs|
    ensures FoundLines(rs, n)[5 * i..5 * i + 5] == IdLines(rs[i])
    ensures var ls := FoundLines(rs, n);
      && ls[5 * i] == "  File: " + PathText(rs[i].file)
      && ls[5 * i + 1] == "    Key: " + (if rs[i].format == "xml" then "N/A" else rs[i].key)
      && ls[5 * i + 2] == "    Value: " + (if rs[i].value.JStr? then rs[i].value.s else Repr(rs[i].value))
      && ls[5 * i + 3] == "    Pattern: " + rs[i].pattern
      && ls[5 * i + 4] == ""
  {
    if i < n - 1 {
      FoundLinesBlocks(rs, n - 1, i);
      assert FoundLines(rs, n)[..5 * (n - 1)] == FoundLines(rs, n - 1);
    } else {
      assert FoundLines(rs, n)[5 * i..] == IdLines(rs[i]);
    }
  }

  /**
   * The report is seven summary lines, then a heading and five lines per
   * found ID when there are any, then a heading and each key's lines when
   * any were recorded; the three counts in the summary read back as the
   * numbers of IDs, files and keys.
   */
  lemma ReportShape(r: TelemetryDiscovery)
    ensures var ls := ReportLines(r);
      && |ls| == 7 + (if r.foundIds != [] then 1 + 5 * |r.foundIds| else 0)
                   + (if r.registryKeys != [] then 1 + KeyLineCount(r.registryKeys, |r.registryKeys|) else 0)
      && ls[0] == ReportTitle
      && ParseNat(ls[3][|IdsLabel|..]) == |r.foundIds|
      && ParseNat(ls[4][|FilesLabel|..]) == |r.configFiles|
      && ParseNat(ls[5][|KeysLabel|..]) == |r.registryKeys|
  {
    RegistryLinesLength(r.registryKeys, |r.registryKeys|);
    var ls := ReportLines(r);
    assert ls[..7] == SummaryLines(r);
    assert ls[3][|IdsLabel|..] == NatToString(|r.foundIds|);
    assert ls[4][|FilesLabel|..] == NatToString(|r.configFiles|);
    assert ls[5][|KeysLabel|..] == NatToString(|r.registryKeys|);
    ParseNatToString(|r.foundIds|);
    ParseNatToString(|r.configFiles|);
    ParseNatToString(|r.registryKeys|);
  }

  // ------------------------------------------------------------------ manager

  /**
   * `TelemetryManager`.  Backups go through its `BackupManager`; `configs`
   * holds what the parsers make of each configuration file, which the
   * search reads and the rewrites replace.
   */
  class TelemetryManager {
    const backupManager: BackupManager
    var configs: map<Path, ConfigFile>

    constructor (manager: BackupManager, files: map<Path, ConfigFile>)
      ensures backupManager == manager && configs == files
    {
      backupManager := manager;
      configs := files;
    }

    /** `discover_telemetry_data` over the search roots and what reading each registry path gives. */
    method DiscoverTelemetryData(roots: seq<Root>, isWindows: bool, keyReads: seq<KeyRead>) returns (r: TelemetryDiscovery)
      requires |keyReads| == |RegistryPaths|
      ensures r == DiscoverTelemetry(roots, configs, isWindows, keyReads)
    {
      var files: seq<Path> := [];
      var found: seq<Record> := [];
      var i := 0;
      while i < |roots|
        invariant 0 <= i <= |roots|
        invariant files == ConfigPaths(roots, i) && found == FoundIds(roots, configs, i)
      {
        files, found := DiscoverRoot(roots, i, files, found);
        i := i + 1;
      }
      var keys: seq<RegistryKey> := [];
      if isWindows {
        keys := SearchRegistryForTelemetry(isWindows, keyReads);
      }
      r := TelemetryDiscovery(files, keys, found, |files| + |keys|);
    }

    /** One pass of the discovery loop: the configuration files under root `i` and the IDs in them. */
    method DiscoverRoot(roots: seq<Root>, i: nat, files0: seq<Path>, found0: seq<Record>)
      returns (files: seq<Path>, found: seq<Record>)
      requires i < |roots| && files0 == ConfigPaths(roots, i) && found0 == FoundIds(roots, configs, i)
      ensures files == ConfigPaths(roots, i + 1) && found == FoundIds(roots, configs, i + 1)
    {
      var paths := FindConfigFiles(roots[i].path, roots[i].node);
      var ids := SearchForTelemetryIds(Views(paths, configs));
      files := files0 + paths;
      found := found0 + ids;
    }

    /** `_search_registry_for_telemetry`. */
    method SearchRegistryForTelemetry(isWindows: bool, keyReads: seq<KeyRead>) returns (keys: seq<RegistryKey>)
      requires |keyReads| == |RegistryPaths|
      ensures keys == SearchRegistry(isWindows, keyReads)
    {
      keys := [];
      if !isWindows {
        return;
      }
      var i := 0;
      while i < |RegistryPaths|
        invariant 0 <= i <= |RegistryPaths|
        invariant keys == RecordedKeys(keyReads, i)
      {
        var read := keyReads[i];
        if read.Some? && read.value != [] {
          keys := keys + [RegistryKey(RegistryPaths[i].0, RegistryPaths[i].1, read.value)];
        }
        i := i + 1;
      }
    }

    /**
     * `modify_telemetry_ids`: `r1`, `r2` and `r3` are the random draws of
     * the three generators; `edits` are the registry writes made.
     */
    method ModifyTelemetryIds(dir: Path, o: ModificationOptions, r1: seq<nat>, r2: seq<nat>, r3: seq<nat>,
                              isWindows: bool, env: Environment) returns (success: bool, edits: seq<RegistryEdit>)
      requires |r1| == 32 && |r2| == 32 && |r3| == 32 && Fits(env, o)
      modifies this, backupManager
      ensures TelemetryOutcome(success, backupManager.disk, configs, edits)
           == ModifyTelemetryIdsOutcome(old(backupManager.disk), old(configs), dir, o, GenerateIds(r1, r2, r3),
                                        isWindows, env)
    {
      var ids := NewIds(GenerateDeviceId(r1), GenerateMachineId(r2), GenerateUuid(r3));
      success := true;
      if Enabled(o.modifyConfigFiles) {
        var configOk := ModifyConfigFileIds(o.foundIds, dir, ids, env.copyOk, env.writeOk);
        success := success && configOk;
      }
      edits := [];
      if isWindows && Enabled(o.modifyRegistry) {
        var registryOk;
        registryOk, edits := ModifyRegistryIds(o.registryKeys, dir, ids, isWindows, env.dumps, env.dumpOk, env.setOk);
        success := success && registryOk;
      }
    }

    /** `_modify_config_file_ids`; `copyOk[i]` and `writeOk[i]` are the outcomes for record `i`. */
    method ModifyConfigFileIds(records: seq<Record>, dir: Path, ids: NewIds, copyOk: seq<bool>, writeOk: seq<bool>)
      returns (success: bool)
      requires |copyOk| == |records| && |writeOk| == |records|
      modifies this, backupManager
      ensures var t := ConfigRunOf(ConfigRun(true, old(backupManager.disk), old(configs), []), ConfigBackup(dir),
                                   records, IdRewriter(ids), copyOk, writeOk, |records|);
        success == t.ok && backupManager.disk == t.disk && configs == t.configs
    {
      ghost var start := ConfigRun(true, backupManager.disk, configs, []);
      success := true;
      var modified: set<Path> := {};
      ghost var marked: seq<Path> := [];
      var i := 0;
      while i < |records|
        invariant 0 <= i <= |records|
        invariant ConfigRunOf(start, ConfigBackup(dir), records, IdRewriter(ids), copyOk, writeOk, i)
               == ConfigRun(success, backupManager.disk, configs, marked)
        invariant forall p :: p in modified <==> p in marked
      {
        success, modified, marked := ConfigPass(records[i], dir, ids, copyOk[i], writeOk[i], success, modified, marked);
        i := i + 1;
      }
    }

    /** One pass of the loop in `_modify_config_file_ids`, over one found record. */
    method ConfigPass(r: Record, dir: Path, ids: NewIds, copyOk: bool, writeOk: bool,
                      success0: bool, modified0: set<Path>, ghost marked0: seq<Path>)
      returns (success: bool, modified: set<Path>, ghost marked: seq<Path>)
      requires forall p :: p in modified0 <==> p in marked0
      modifies this, backupManager
      ensures ConfigRun(success, backupManager.disk, configs, marked)
           == ConfigStep(ConfigRun(success0, old(backupManager.disk), old(configs), marked0), ConfigBackup(dir), r,
                         IdRewriter(ids), copyOk, writeOk)
      ensures forall p :: p in modified <==> p in marked
    {
      success, modified, marked := success0, modified0, marked0;
      if r.file !in modified {
        var backedUp := backupManager.BackupFile(r.file, dir, KeepingRelative("config_files", r.file), copyOk);
        if !backedUp {
          success := false;
          return;
        }
        modified := modified + {r.file};
        marked := marked + [r.file];
      }
      var view := ViewOf(configs, r.file);
      var w := ModifyTelemetryId(r, view, ConfigIdChoice(r.pattern, ids), writeOk);
      if w.ok {
        configs := configs[r.file := Apply(view, w.written)];
      } else {
        success := false;
      }
    }

    /** `_modify_registry_ids`; per key, the JSON text of its data and the outcomes of its backup and its writes. */
    method ModifyRegistryIds(keys: seq<RegistryKey>, dir: Path, ids: NewIds, isWindows: bool,
                             dumps: seq<string>, dumpOk: seq<bool>, setOk: seq<bool>)
      returns (success: bool, edits: seq<RegistryEdit>)
      requires |dumps| == |keys| && |dumpOk| == |keys| && |setOk| == |keys|
      modifies backupManager
      ensures RegistryRun(success, backupManager.disk, edits)
           == RegistryIdsOutcome(old(backupManager.disk), dir, keys, ids, isWindows, dumps, dumpOk, setOk)
    {
      success, edits := true, [];
      if !isWindows {
        return;
      }
      ghost var start := RegistryRun(true, backupManager.disk, []);
      var i := 0;
      while i < |keys|
        invariant 0 <= i <= |keys|
        invariant RegistryRunOf(start, RegistryBackup(dir), keys, ids, dumps, dumpOk, setOk, i)
               == RegistryRun(success, backupManager.disk, edits)
      {
        success, edits := RegistryPass(keys[i], dir, ids, dumps[i], dumpOk[i], setOk[i], success, edits);
        i := i + 1;
      }
    }

    /** One pass of the loop in `_modify_registry_ids`, over one key. */
    method RegistryPass(key: RegistryKey, dir: Path, ids: NewIds, dump: string, dumpOk: bool, setOk: bool,
                        success0: bool, edits0: seq<RegistryEdit>) returns (success: bool, edits: seq<RegistryEdit>)
      modifies backupManager
      ensures RegistryRun(success, backupManager.disk, edits)
           == RegistryStep(RegistryRun(success0, old(backupManager.disk), edits0), RegistryBackup(dir), key, ids,
                           dump, dumpOk, setOk)
    {
      success, edits := success0, edits0;
      var backedUp := backupManager.BackupRegistryKey(dir, key.path, dump, true, dumpOk);
      if !backedUp {
        success := false;
        return;
      }
      var ok, writes := ModifyRegistryKeyValues(key, ids, setOk);
      if ok {
        edits := edits + [RegistryEdit(key.hive, key.path, writes)];
      } else {
        success := false;
      }
    }

    /** `_modify_registry_key_values`: the writes made, when the key can be opened and set (`setOk`). */
    method ModifyRegistryKeyValues(key: RegistryKey, ids: NewIds, setOk: bool) returns (ok: bool, writes: seq<RegistryValue>)
      ensures ok == setOk
      ensures ok ==> writes == EditOf(key, ids).writes
    {
      writes := [];
      if !setOk {
        return false, [];
      }
      var j := 0;
      while j < |key.values|
        invariant 0 <= j <= |key.values|
        invariant writes == RegistryWrites(key.values, ids, j)
      {
        var v := key.values[j];
        var choice := RegistryIdChoice(v.name, ids);
        if choice.Some? && choice.value != [] {
          writes := writes + [RegistryValue(v.name, choice.value, v.kind)];
        }
        j := j + 1;
      }
      ok := true;
    }

    /** `generate_telemetry_report`. */
    method GenerateTelemetryReport(r: TelemetryDiscovery) returns (text: string)
      ensures text == TelemetryReport(r)
    {
      var foundBlock: seq<string> := [];
      if r.foundIds != [] {
        var found := FoundLinesText(r.foundIds);
        foundBlock := ["Found Telemetry IDs:"] + found;
      }
      var registryBlock: seq<string> := [];
      if r.registryKeys != [] {
        var registry := RegistryLinesText(r.registryKeys);
        registryBlock := ["Registry Keys:"] + registry;
      }
      text := Join(SummaryLines(r) + foundBlock + registryBlock, '\n');
    }

    /** The loop over the found IDs in `generate_telemetry_report`. */
    method FoundLinesText(rs: seq<Record>) returns (lines: seq<string>)
      ensures lines == FoundLines(rs, |rs|)
    {
      lines := [];
      var i := 0;
      while i < |rs|
        invariant 0 <= i <= |rs|
        invariant lines == FoundLines(rs, i)
      {
        lines := lines + IdLines(rs[i]);
        i := i + 1;
      }
    }

    /** The loop over the registry keys in `generate_telemetry_report`. */
    method RegistryLinesText(keys: seq<RegistryKey>) returns (lines: seq<string>)
      ensures lines == RegistryLines(keys, |keys|)
    {
      lines := [];
      var i := 0;
      while i < |keys|
        invariant 0 <= i <= |keys|
        invariant lines == RegistryLines(keys, i)
      {
        var block := KeyLinesText(keys[i]);
        lines := lines + block;
        i := i + 1;
      }
    }

    /** The lines for one registry key, one value at a time. */
    method KeyLinesText(k: RegistryKey) returns (lines: seq<string>)
      ensures lines == KeyLines(k)
    {
      lines := ["  Key: " + k.path];
      var j := 0;
      while j < |k.values|
        invariant 0 <= j <= |k.values|
        invariant lines == ["  Key: " + k.path] + ValueLines(k.values, j)
      {
        lines := lines + ["    " + k.values[j].name + ": " + k.values[j].data];
        j := j + 1;
      }
      lines := lines + [""];
    }
  }
}
